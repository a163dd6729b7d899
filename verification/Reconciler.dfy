/** The reconciler and the setup UI's allow-list applier (internal/bridge/reconciler.go, setupglue.go).
    A refresh is split at its network call: BeginRefresh samples the generation, FinishRefresh
    gets what the controller answered. Connectivity events may run in between. */
module Reconcile {
  import opened Wrappers
  import opened Cameras
  import opened MuxerCache
  import opened Streams
  import opened ControlPlane
  import opened Bridge

  // The registry and the address map describe the same streams, each producer with its recorded address.
  predicate Match(streams: map<Id, Stream>, urls: Lookup, verifyTLS: bool) {
    && streams.Keys == urls.Keys
    && forall id | id in streams ::
      var p := streams[id].producer;
      && streams[id].name == id
      && p.id == id
      && p.verifyTLS == verifyTLS
      && Entry(p.url, p.verifyTLS) == urls[id]
  }

  // A Stream object stays registered exactly while the address of its camera stays.
  predicate Reused(streams0: map<Id, Stream>, urls0: Lookup, streams: map<Id, Stream>, urls: Lookup) {
    forall id | id in streams0 && id in streams && id in urls0 && id in urls ::
      streams[id] == streams0[id] <==> urls[id] == urls0[id]
  }

  ghost predicate AgreeOff<V>(a: map<Id, V>, b: map<Id, V>, keys: set<Id>) {
    && (forall k | k in a && k !in keys :: k in b && a[k] == b[k])
    && (forall k | k in b && k !in keys :: k in a)
  }

  // So with the same addresses the registry holds the same objects.
  lemma SameStreams(streams0: map<Id, Stream>, urls0: Lookup, streams: map<Id, Stream>, urls: Lookup)
    requires Reused(streams0, urls0, streams, urls) && urls == urls0 && streams.Keys == urls.Keys
      && streams0.Keys == urls0.Keys
    ensures streams == streams0
  {
  }

  // The recorded address of a camera is the wanted one; when none is wanted there is none.
  predicate Synced(urls: Lookup, id: Id, target: Option<string>, verifyTLS: bool) {
    match target
    case None => id !in urls
    case Some(url) => id in urls && urls[id] == Entry(url, verifyTLS)
  }

  // After some bootstrap cameras: theirs are the wanted addresses, all other entries are as before.
  ghost predicate Progress(
    host: string, verifyTLS: bool, cams: seq<ProtectCamera>, streams0: map<Id, Stream>, urls0: Lookup,
    streams: map<Id, Stream>, urls: Lookup, seen: set<Id>)
  {
    && seen == BootIds(cams)
    && (forall u | u in cams :: Synced(urls, u.id, TargetURL(host, u), verifyTLS))
    && AgreeOff(urls, urls0, seen)
    && AgreeOff(streams, streams0, seen)
    && Reused(streams0, urls0, streams, urls)
  }

  lemma LastIsNew(cams: seq<ProtectCamera>, cam: ProtectCamera)
    requires Distinct(cams + [cam])
    ensures cam.id !in BootIds(cams)
    ensures BootIds(cams + [cam]) == BootIds(cams) + {cam.id}
  {
    if u :| u in cams && u.id == cam.id {
      var j :| 0 <= j < |cams| && cams[j] == u;
      assert (cams + [cam])[j].id != (cams + [cam])[|cams|].id;
    }
  }

  lemma ProgressStep(
    host: string, verifyTLS: bool, cams: seq<ProtectCamera>, cam: ProtectCamera,
    streams0: map<Id, Stream>, urls0: Lookup, streams1: map<Id, Stream>, urls1: Lookup,
    streams2: map<Id, Stream>, urls2: Lookup, seen: set<Id>)
    requires Distinct(cams + [cam])
    requires Progress(host, verifyTLS, cams, streams0, urls0, streams1, urls1, seen)
    requires AgreeOff(streams2, streams1, {cam.id}) && AgreeOff(urls2, urls1, {cam.id})
    requires Reused(streams1, urls1, streams2, urls2)
    requires streams1.Keys == urls1.Keys && streams2.Keys == urls2.Keys
    requires Synced(urls2, cam.id, TargetURL(host, cam), verifyTLS)
    ensures Progress(host, verifyTLS, cams + [cam], streams0, urls0, streams2, urls2, seen + {cam.id})
    ensures urls2 != urls0 <==> urls1 != urls0 || urls2 != urls1
  {
    LastIsNew(cams, cam);
    StillAgree(urls0, urls1, urls2, seen, cam.id);
    StillAgree(streams0, streams1, streams2, seen, cam.id);
    StillReused(streams0, urls0, streams1, urls1, streams2, urls2, seen, cam.id);
    forall u | u in cams + [cam]
      ensures Synced(urls2, u.id, TargetURL(host, u), verifyTLS)
    {
      if u in cams {
        StaysSynced(urls1, urls2, u.id, TargetURL(host, u), verifyTLS, cam.id);
      }
    }
  }

  // Two steps that touch different keys: the second does not undo the first.
  lemma StillAgree<V>(start: map<Id, V>, before: map<Id, V>, after: map<Id, V>, seen: set<Id>, id: Id)
    requires id !in seen && AgreeOff(before, start, seen) && AgreeOff(after, before, {id})
    ensures AgreeOff(after, start, seen + {id})
    ensures after != start <==> before != start || after != before
    ensures (id in start <==> id in before) && (id in start ==> start[id] == before[id])
  {
  }

  lemma StillReused(
    streams0: map<Id, Stream>, urls0: Lookup, streams1: map<Id, Stream>, urls1: Lookup, streams2: map<Id, Stream>,
    urls2: Lookup, seen: set<Id>, id: Id)
    requires id !in seen && AgreeOff(streams1, streams0, seen) && AgreeOff(urls1, urls0, seen)
    requires AgreeOff(streams2, streams1, {id}) && AgreeOff(urls2, urls1, {id})
    requires Reused(streams0, urls0, streams1, urls1) && Reused(streams1, urls1, streams2, urls2)
    requires streams1.Keys == urls1.Keys && streams2.Keys == urls2.Keys
    ensures Reused(streams0, urls0, streams2, urls2)
  {
  }

  lemma StaysSynced(before: Lookup, after: Lookup, id: Id, target: Option<string>, verifyTLS: bool, other: Id)
    requires Synced(before, id, target, verifyTLS) && id != other && AgreeOff(after, before, {other})
    ensures Synced(after, id, target, verifyTLS)
  {
    assert id in after <==> id in before;
  }

  class Reconciler {
    const src: CameraSource
    const reg: Registry
    const hg: HomeGraph?
    const host: string
    const verifyTLS: bool
    var firstRefreshDone: bool

    function Settings(): Env {
      Env(host, verifyTLS, hg != null)
    }

    function View(): Plane
      reads this, src
    {
      src.View(firstRefreshDone)
    }

    function Log(): set<HomeGraph> {
      if hg == null then {} else {hg as HomeGraph}
    }

    ghost predicate StreamsMatch()
      reads src`rtspURLs, reg
    {
      Match(reg.streams, src.rtspURLs, verifyTLS)
    }

    ghost predicate Valid()
      reads this, src, reg, src.hls, src.mp4
    {
      && src.Valid()
      && src.ServersValid()
      && StreamsMatch()
    }

    constructor (src: CameraSource, reg: Registry, hg: HomeGraph?, host: string, verifyTLS: bool)
      requires src.Valid() && src.ServersValid() && src.rtspURLs == map[] && reg.streams == map[]
      ensures Valid() && this.src == src && this.reg == reg && this.hg == hg
      ensures Settings() == Env(host, verifyTLS, hg != null) && !firstRefreshDone
    {
      this.src, this.reg, this.hg, this.host, this.verifyTLS := src, reg, hg, host, verifyTLS;
      firstRefreshDone := false;
    }

    method UnregisterStream(id: Id)
      modifies reg, src`rtspURLs
      ensures reg.streams == old(reg.streams) - {id} && src.rtspURLs == old(src.rtspURLs) - {id}
    {
      reg.Delete(id);
      src.rtspURLs := src.rtspURLs - {id};
    }

    // The address of the camera's best channel: the first half of syncStream.
    method BestURL(cam: ProtectCamera) returns (url: Option<string>)
      ensures url == TargetURL(host, cam)
      ensures url.None?
        <==> forall j | 0 <= j < |cam.channels| :: !cam.channels[j].enabled || cam.channels[j].alias == ""
      ensures url.Some? ==> IsAddress(host, cam, url.value)
    {
      BestChannelHasURL(host, cam);
      var best := BestRTSPChannel(cam);
      if best.None? {
        return None;
      }
      var r := StreamURL(host, cam.channels[best.value]);
      // The source's error exit cannot be taken: the best channel is a usable one.
      assert r.Ok? by { BestIsFirstLargest(cam.channels); }
      return Some(r.value);
    }

    method RegisterStream(id: Id, url: string)
      modifies reg, src`rtspURLs
      ensures src.rtspURLs == old(src.rtspURLs)[id := Entry(url, verifyTLS)]
      ensures id in reg.streams && fresh(reg.streams[id]) && reg.streams == old(reg.streams)[id := reg.streams[id]]
      ensures var s := reg.streams[id];
        s.name == id && s.producer.id == id && s.producer.url == url && s.producer.verifyTLS == verifyTLS
    {
      var prod := new Producer(id, url, verifyTLS);
      var stream := new Stream(id, prod);
      reg.Put(stream);
      src.rtspURLs := src.rtspURLs[id := Entry(url, verifyTLS)];
    }

    // syncStream once the wanted address is known: register, replace, drop or leave alone.
    method SyncTo(id: Id, url: Option<string>) returns (changed: bool)
      requires StreamsMatch()
      modifies reg, src`rtspURLs
      ensures StreamsMatch() && Reused(old(reg.streams), old(src.rtspURLs), reg.streams, src.rtspURLs)
      ensures AgreeOff(reg.streams, old(reg.streams), {id}) && AgreeOff(src.rtspURLs, old(src.rtspURLs), {id})
      ensures Synced(src.rtspURLs, id, url, verifyTLS)
      ensures changed <==> src.rtspURLs != old(src.rtspURLs)
    {
      var registered := id in src.rtspURLs;
      if url.None? {
        if registered {
          UnregisterStream(id);
          assert id !in src.rtspURLs;
          return true;
        }
        return false;
      }
      if registered && url.value == src.rtspURLs[id].url {
        return false;
      }
      RegisterStream(id, url.value);
      assert registered ==> old(src.rtspURLs)[id] != src.rtspURLs[id];
      return true;
    }

    // syncStream.
    method SyncStream(cam: ProtectCamera) returns (changed: bool)
      requires StreamsMatch()
      modifies reg, src`rtspURLs
      ensures StreamsMatch() && Reused(old(reg.streams), old(src.rtspURLs), reg.streams, src.rtspURLs)
      ensures AgreeOff(reg.streams, old(reg.streams), {cam.id}) && AgreeOff(src.rtspURLs, old(src.rtspURLs), {cam.id})
      ensures Synced(src.rtspURLs, cam.id, TargetURL(host, cam), verifyTLS)
      ensures changed <==> src.rtspURLs != old(src.rtspURLs)
    {
      var url := BestURL(cam);
      changed := SyncTo(cam.id, url);
    }

    // The diff of the next bootstrap camera against the snapshot.
    method DiffNext(
      gen: nat, cams: seq<ProtectCamera>, i: nat, prev: map<Id, Camera>, next: seq<Camera>, changes: map<Id, bool>)
      returns (next': seq<Camera>, changes': map<Id, bool>)
      requires i < |cams|
      requires next == NextCameras(prev, src.onlineGen, cams[..i], gen) && changes == Changes(prev, next)
      ensures next' == NextCameras(prev, src.onlineGen, cams[..i + 1], gen) && changes' == Changes(prev, next')
    {
      var cam := cams[i];
      var c := Camera(cam.id, cam.name, "Ubiquiti", cam.model, cam.online);
      var had := cam.id in prev;
      if had && ChangedSince(src.onlineGen, cam.id, gen) {
        c := c.(online := prev[cam.id].online);
      }
      next' := next + [c];
      NextOneMore(prev, src.onlineGen, cams, i, gen);
      ChangesOneMore(prev, next, c);
      changes' := changes;
      if had {
        if prev[cam.id].online != c.online {
          changes' := changes[cam.id := c.online];
        }
      } else {
        changes' := changes[cam.id := c.online];
      }
    }

    // syncStream of the next bootstrap camera.
    method SyncNext(
      cams: seq<ProtectCamera>, i: nat, streamsChanged: bool,
      ghost streams0: map<Id, Stream>, ghost urls0: Lookup, ghost seen: set<Id>)
      returns (streamsChanged': bool)
      requires i < |cams| && Distinct(cams) && StreamsMatch()
      requires Progress(host, verifyTLS, cams[..i], streams0, urls0, reg.streams, src.rtspURLs, seen)
      requires streamsChanged <==> src.rtspURLs != urls0
      modifies reg, src`rtspURLs
      ensures StreamsMatch()
      ensures Progress(host, verifyTLS, cams[..i + 1], streams0, urls0, reg.streams, src.rtspURLs, seen + {cams[i].id})
      ensures streamsChanged' <==> src.rtspURLs != urls0
    {
      OneMore(cams, i);
      var changed := SyncStream(cams[i]);
      ProgressStep(host, verifyTLS, cams[..i], cams[i], streams0, urls0, old(reg.streams), old(src.rtspURLs),
        reg.streams, src.rtspURLs, seen);
      streamsChanged' := streamsChanged || changed;
    }

    // The loop over the bootstrap.
    method Scan(gen: nat, cams: seq<ProtectCamera>, prev: map<Id, Camera>)
      returns (seen: set<Id>, next: seq<Camera>, changes: map<Id, bool>, streamsChanged: bool)
      requires Distinct(cams) && StreamsMatch()
      modifies reg, src`rtspURLs
      ensures StreamsMatch()
      ensures Progress(host, verifyTLS, cams, old(reg.streams), old(src.rtspURLs), reg.streams, src.rtspURLs, seen)
      ensures next == NextCameras(prev, src.onlineGen, cams, gen)
      ensures changes == Changes(prev, next)
      ensures streamsChanged <==> src.rtspURLs != old(src.rtspURLs)
    {
      seen, next, changes, streamsChanged := {}, [], map[], false;
      for i := 0 to |cams|
        invariant StreamsMatch()
        invariant Progress(host, verifyTLS, cams[..i], old(reg.streams), old(src.rtspURLs), reg.streams, src.rtspURLs,
          seen)
        invariant next == NextCameras(prev, src.onlineGen, cams[..i], gen) && changes == Changes(prev, next)
        invariant streamsChanged <==> src.rtspURLs != old(src.rtspURLs)
      {
        next, changes := DiffNext(gen, cams, i, prev, next, changes);
        streamsChanged := SyncNext(cams, i, streamsChanged, old(reg.streams), old(src.rtspURLs), seen);
        seen := seen + {cams[i].id};
      }
      assert cams[..|cams|] == cams;
    }

    // How many exposed cameras are new.
    method CountAdded(seen: set<Id>, prev: map<Id, Camera>) returns (added: nat)
      ensures added > 0 <==> exists id | id in seen :: id !in prev && IsAllowed(src.allowed, id)
    {
      added := 0;
      var todo := seen;
      while todo != {}
        invariant todo <= seen
        invariant added > 0 <==> exists id | id in seen - todo :: id !in prev && IsAllowed(src.allowed, id)
      {
        var id :| id in todo;
        assert seen - (todo - {id}) == seen - todo + {id};
        todo := todo - {id};
        if id !in prev && IsAllowed(src.allowed, id) {
          added := added + 1;
        }
      }
    }

    // Unregisters the streams of cameras that left the bootstrap, counting the exposed ones.
    method DropUnseen(seen: set<Id>, streamsChanged: bool) returns (removed: nat, streamsChanged': bool)
      requires StreamsMatch()
      modifies reg, src`rtspURLs
      ensures StreamsMatch()
      ensures src.rtspURLs == old(src.rtspURLs) - (old(src.rtspURLs).Keys - seen)
      ensures reg.streams == old(reg.streams) - (old(reg.streams).Keys - seen)
      ensures removed > 0 <==> exists id | id in old(src.rtspURLs) :: id !in seen && IsAllowed(src.allowed, id)
      ensures streamsChanged' <==> streamsChanged || src.rtspURLs != old(src.rtspURLs)
    {
      removed, streamsChanged' := 0, streamsChanged;
      var names := reg.Names();
      var todo := names;
      ghost var dropped: set<Id> := {};
      while todo != {}
        invariant todo <= names && forall id :: id in dropped <==> id in names && id !in seen && id !in todo
        invariant src.rtspURLs == old(src.rtspURLs) - dropped && reg.streams == old(reg.streams) - dropped
        invariant removed > 0 <==> exists id | id in dropped :: IsAllowed(src.allowed, id)
        invariant streamsChanged' <==> streamsChanged || dropped != {}
      {
        var name :| name in todo;
        todo := todo - {name};
        if name !in seen {
          MinusMore(old(src.rtspURLs), dropped, name);
          MinusMore(old(reg.streams), dropped, name);
          UnregisterStream(name);
          dropped := dropped + {name};
          streamsChanged' := true;
          if IsAllowed(src.allowed, name) {
            removed := removed + 1;
          }
        }
      }
      assert dropped == names - seen;
      assert dropped != {} ==> old(src.rtspURLs) - dropped != old(src.rtspURLs) by {
        if id :| id in dropped {
          assert id in old(src.rtspURLs) && id !in old(src.rtspURLs) - dropped;
        }
      }
    }

    // Keeps the reported states of exposed cameras only.
    method FilterExposed(changes: map<Id, bool>) returns (kept: map<Id, bool>)
      ensures kept == Exposed(changes, src.allowed)
    {
      kept := changes;
      var todo := changes.Keys;
      while todo != {}
        invariant todo <= changes.Keys
        invariant kept == map id | id in changes && (id in todo || IsAllowed(src.allowed, id)) :: changes[id]
      {
        var id :| id in todo;
        todo := todo - {id};
        if !IsAllowed(src.allowed, id) {
          kept := kept - {id};
        }
      }
    }

    method BeginRefresh() returns (gen: nat)
      ensures gen == src.gen
    {
      gen := src.gen;
    }

    // Registry and address map follow the bootstrap.
    method SyncAll(gen: nat, cams: seq<ProtectCamera>, prev: map<Id, Camera>)
      returns (added: nat, removed: nat, next: seq<Camera>, changes: map<Id, bool>, streamsChanged: bool)
      requires StreamsMatch() && Distinct(cams) && prev == Snapshot(src.cameras)
      modifies reg, src`rtspURLs
      ensures StreamsMatch() && src.rtspURLs == TargetURLs(Settings(), cams)
      ensures next == NextCameras(prev, src.onlineGen, cams, gen) && changes == Changes(prev, next)
      ensures added > 0 <==> ExposedAdded(old(View()), cams)
      ensures removed > 0 <==> ExposedStreamRemoved(old(View()), cams)
      ensures streamsChanged <==> src.rtspURLs != old(src.rtspURLs)
      ensures Reused(old(reg.streams), old(src.rtspURLs), reg.streams, src.rtspURLs)
    {
      SnapshotKeys(src.cameras);
      var seen;
      seen, next, changes, streamsChanged := Scan(gen, cams, prev);
      ghost var urls1 := src.rtspURLs;
      AfterDrop(Settings(), cams, urls1, seen);
      DropCompounds(old(src.rtspURLs), urls1, seen);
      added := CountAdded(seen, prev);
      removed, streamsChanged := DropUnseen(seen, streamsChanged);
    }

    // The part of Refresh between the answer and the pushes: registry, address map and snapshot.
    method Apply(gen: nat, cams: seq<ProtectCamera>)
      returns (added: nat, removed: nat, report: map<Id, bool>, streamsChanged: bool)
      requires src.Valid() && StreamsMatch() && Distinct(cams)
      modifies reg, src`cameras, src`rtspURLs
      ensures src.Valid() && StreamsMatch()
      ensures src.cameras == NextCameras(Snapshot(old(src.cameras)), src.onlineGen, cams, gen)
      ensures src.rtspURLs == TargetURLs(Settings(), cams)
      ensures added > 0 <==> ExposedAdded(old(View()), cams)
      ensures removed > 0 <==> ExposedStreamRemoved(old(View()), cams)
      ensures report == RefreshReport(old(View()), cams, gen)
      ensures streamsChanged <==> src.rtspURLs != old(src.rtspURLs)
      ensures Reused(old(reg.streams), old(src.rtspURLs), reg.streams, src.rtspURLs)
    {
      var prev := src.SnapshotMap();
      var next, changes;
      added, removed, next, changes, streamsChanged := SyncAll(gen, cams, prev);
      NextDistinct(prev, src.onlineGen, cams, gen);
      src.cameras := next;
      report := FilterExposed(changes);
    }

    method PushChanges(first: bool, added: nat, removed: nat, report: map<Id, bool>)
      modifies Log()
      ensures hg != null ==> hg.log == old(hg.log) + Pushed((added > 0 || removed > 0) && !first, report)
    {
      if hg != null {
        if (added > 0 || removed > 0) && !first {
          hg.Send(RequestSync);
        }
        if report != map[] {
          hg.Send(ReportState(report));
        }
      }
    }

    // Everything up to the notification.
    method Reconcile(gen: nat, cams: seq<ProtectCamera>) returns (streamsChanged: bool)
      requires src.Valid() && StreamsMatch() && Distinct(cams)
      modifies `firstRefreshDone, reg, Log(), src`cameras, src`rtspURLs
      ensures src.Valid() && StreamsMatch()
      ensures View() == RefreshCore(Settings(), old(View()), cams, gen)
      ensures hg != null ==> hg.log == old(hg.log) + RefreshPushes(Settings(), old(View()), cams, gen)
      ensures streamsChanged <==> src.rtspURLs != old(src.rtspURLs)
      ensures Reused(old(reg.streams), old(src.rtspURLs), reg.streams, src.rtspURLs)
    {
      var first := !firstRefreshDone;
      firstRefreshDone := true;
      var added, removed, report;
      added, removed, report, streamsChanged := Apply(gen, cams);
      PushChanges(first, added, removed, report);
    }

    method NotifyIf(streamsChanged: bool)
      requires src.ServersValid() && (streamsChanged || src.Coherent())
      modifies src`notices, src.Servers(), src.Muxers()
      ensures src.ServersValid() && src.Coherent() && src.Pruned()
      ensures src.notices == old(src.notices) + (if streamsChanged then 1 else 0)
    {
      if streamsChanged {
        src.NotifyStreamsChanged();
      }
    }

    // The notification and the cursor; nothing else moves.
    method Finish(streamsChanged: bool, updateId: string)
      requires src.Valid() && StreamsMatch() && src.ServersValid() && (streamsChanged || src.Coherent())
      modifies src`notices, src`lastUpdateId, src.Servers(), src.Muxers()
      ensures Valid() && src.Coherent() && src.Pruned()
      ensures src.notices == old(src.notices) + (if streamsChanged then 1 else 0)
      ensures View() == old(View()).(lastUpdateId := if updateId == "" then old(src.lastUpdateId) else updateId)
      ensures reg.streams == old(reg.streams) && src.rtspURLs == old(src.rtspURLs)
        && (hg != null ==> hg.log == old(hg.log))
    {
      NotifyIf(streamsChanged);
      if updateId != "" {
        src.lastUpdateId := updateId;
      }
    }

    // The rest of Refresh once the controller has answered; gen is what BeginRefresh sampled.
    method CommitRefresh(gen: nat, cams: seq<ProtectCamera>, updateId: string)
      requires Valid() && src.Coherent() && Distinct(cams)
      modifies `firstRefreshDone, reg, Log(), src`cameras, src`rtspURLs, src`lastUpdateId, src`notices, src.Servers(),
        src.Muxers()
      ensures Valid() && src.Coherent() && src.Pruned()
      ensures View() == RefreshStep(Settings(), old(View()), cams, gen, updateId)
      ensures src.lastUpdateId == if updateId == "" then old(src.lastUpdateId) else updateId
      ensures hg != null ==> hg.log == old(hg.log) + RefreshPushes(Settings(), old(View()), cams, gen)
      ensures Reused(old(reg.streams), old(src.rtspURLs), reg.streams, src.rtspURLs)
      ensures src.rtspURLs == old(src.rtspURLs) ==> reg.streams == old(reg.streams)
      ensures src.notices == old(src.notices) + (if src.rtspURLs != old(src.rtspURLs) then 1 else 0)
    {
      var streamsChanged := Reconcile(gen, cams);
      assert src.Muxers() == old(src.Muxers()) && src.ServersValid() && (streamsChanged || src.Coherent());
      assert src.hls.Running() == old(src.hls.Running()) && src.mp4.Running() == old(src.mp4.Running());
      Finish(streamsChanged, updateId);
      if src.rtspURLs == old(src.rtspURLs) {
        SameStreams(old(reg.streams), old(src.rtspURLs), reg.streams, src.rtspURLs);
      }
    }

    // On an error Refresh returns before it changes anything.
    method FinishRefresh(gen: nat, answer: Result<(seq<ProtectCamera>, string), string>)
      returns (r: Result<string, string>)
      requires Valid() && src.Coherent()
      requires answer.Ok? ==> Distinct(answer.value.0)
      modifies `firstRefreshDone, reg, Log(), src`cameras, src`rtspURLs, src`lastUpdateId, src`notices, src.Servers(),
        src.Muxers()
      ensures Valid() && src.Coherent()
      ensures answer.Err? ==> r.Err? && unchanged(this, src, reg, src.hls, src.mp4)
      ensures answer.Err? ==> src.hls.Running() == old(src.hls.Running()) && src.mp4.Running() == old(src.mp4.Running())
      ensures answer.Err? && hg != null ==> unchanged(hg)
      ensures answer.Ok? ==> src.Pruned() && Reused(old(reg.streams), old(src.rtspURLs), reg.streams, src.rtspURLs)
      ensures answer.Ok? && src.rtspURLs == old(src.rtspURLs) ==> reg.streams == old(reg.streams)
      ensures answer.Ok? ==> src.notices == old(src.notices) + (if src.rtspURLs != old(src.rtspURLs) then 1 else 0)
      ensures answer.Ok? ==> r == Ok(answer.value.1)
      ensures answer.Ok? && answer.value.1 != "" ==> src.lastUpdateId == answer.value.1
      ensures answer.Ok? ==> View() == RefreshStep(Settings(), old(View()), answer.value.0, gen, answer.value.1)
      ensures answer.Ok? && hg != null ==>
        hg.log == old(hg.log) + RefreshPushes(Settings(), old(View()), answer.value.0, gen)
    {
      if answer.Err? {
        return Err(answer.error);
      }
      CommitRefresh(gen, answer.value.0, answer.value.1);
      return Ok(answer.value.1);
    }

    // A connectivity transition seen on the updates WebSocket.
    method HandleStateChange(id: Id, online: bool)
      requires src.Valid()
      modifies src`cameras, src`gen, src`onlineGen, Log()
      ensures src.Valid()
      ensures View() == EventStep(old(View()), id, online)
      ensures hg != null ==> hg.log == old(hg.log) + EventPushes(Settings(), old(View()), id, online)
      ensures hg != null && (src.allowed.None? || id in src.allowed.value)
        && (exists c | c in old(src.cameras) :: c.id == id && c.online != online)
        ==> hg.log == old(hg.log) + [ReportState(map[id := online])]
      ensures hg != null && !((src.allowed.None? || id in src.allowed.value)
        && exists c | c in old(src.cameras) :: c.id == id && c.online != online)
        ==> hg.log == old(hg.log)
    {
      var changed, cam := src.SetOnline(id, online);
      if cam.None? || !changed {
        return;
      }
      if hg == null || !IsAllowed(src.allowed, id) {
        return;
      }
      hg.Send(ReportState(map[id := online]));
    }
  }

  class CameraApplier {
    const src: CameraSource
    const hg: HomeGraph?

    constructor (src: CameraSource, hg: HomeGraph?)
      ensures this.src == src && this.hg == hg
    {
      this.src, this.hg := src, hg;
    }

    function Log(): set<HomeGraph> {
      if hg == null then {} else {hg as HomeGraph}
    }

    method StatesToReport() returns (states: map<Id, bool>)
      ensures states == ExposedStates(src.cameras, src.allowed)
    {
      states := map[];
      for i := 0 to |src.cameras|
        invariant states == ExposedStates(src.cameras[..i], src.allowed)
      {
        var c := src.cameras[i];
        assert src.cameras[..i + 1][..i] == src.cameras[..i];
        if IsAllowed(src.allowed, c.id) {
          states := states[c.id := c.online];
        }
      }
      assert src.cameras[..|src.cameras|] == src.cameras;
    }

    // The setup UI's edit of the allow-list: every cached muxer is checked again, Google is told everything
    // again, unless it does not accept the sync request.
    method ApplyExposedCameras(ids: seq<Id>, syncOK: bool)
      requires src.Valid() && src.ServersValid()
      modifies src`allowed, src`notices, src.Servers(), src.Muxers(), Log()
      ensures src.Valid() && src.ServersValid() && src.Pruned() && src.Coherent()
      ensures src.View(true) == AllowStep(old(src.View(true)), ids)
      ensures hg != null ==> hg.log == old(hg.log) + if syncOK then AllowPushes(src.cameras, ids) else []
    {
      src.SetAllowed(ids);
      if hg == null {
        return;
      }
      var states := StatesToReport();
      SyncAndReport(states, syncOK);
    }

    method SyncAndReport(states: map<Id, bool>, syncOK: bool)
      requires hg != null
      modifies Log()
      ensures hg.log == old(hg.log) + if syncOK then Pushed(true, states) else []
    {
      if !syncOK {
        return;
      }
      hg.Send(RequestSync);
      if states == map[] {
        return;
      }
      hg.Send(ReportState(states));
    }
  }

  lemma OneMore(cams: seq<ProtectCamera>, i: nat)
    requires i < |cams| && Distinct(cams)
    ensures cams[..i + 1] == cams[..i] + [cams[i]] && Distinct(cams[..i] + [cams[i]])
  {
  }

  lemma NextOneMore(prev: map<Id, Camera>, onlineGen: map<Id, nat>, cams: seq<ProtectCamera>, i: nat, gen: nat)
    requires i < |cams|
    ensures NextCameras(prev, onlineGen, cams[..i + 1], gen)
      == NextCameras(prev, onlineGen, cams[..i], gen) + [NextCamera(prev, onlineGen, cams[i], gen)]
  {
    assert cams[..i + 1][..i] == cams[..i];
  }

  lemma ChangesOneMore(prev: map<Id, Camera>, next: seq<Camera>, c: Camera)
    ensures Changes(prev, next + [c])
      == if c.id in prev && prev[c.id].online == c.online then Changes(prev, next)
        else Changes(prev, next)[c.id := c.online]
  {
    assert (next + [c])[..|next|] == next;
  }

  lemma NextDistinct(prev: map<Id, Camera>, onlineGen: map<Id, nat>, cams: seq<ProtectCamera>, gen: nat)
    requires Distinct(cams)
    ensures DistinctIds(NextCameras(prev, onlineGen, cams, gen))
  {
    NextCamerasAt(prev, onlineGen, cams, gen);
  }

  // Once unseen streams are dropped the addresses are the wanted ones.
  lemma AfterDrop(env: Env, cams: seq<ProtectCamera>, urls1: Lookup, seen: set<Id>)
    requires Distinct(cams) && seen == BootIds(cams)
    requires forall u | u in cams :: Synced(urls1, u.id, TargetURL(env.host, u), env.verifyTLS)
    ensures urls1 - (urls1.Keys - seen) == TargetURLs(env, cams)
  {
    var urls2 := urls1 - (urls1.Keys - seen);
    forall id | id in seen
      ensures id in urls2 <==> id in TargetURLs(env, cams)
      ensures id in urls2 ==> urls2[id] == TargetURLs(env, cams)[id]
    {
      var u :| u in cams && u.id == id;
      OnlyOne(cams, u);
      assert Synced(urls1, u.id, TargetURL(env.host, u), env.verifyTLS);
    }
  }

  // The addresses differ from the old ones iff the scan changed one or the drop removed one.
  lemma DropCompounds(urls0: Lookup, urls1: Lookup, seen: set<Id>)
    requires AgreeOff(urls1, urls0, seen)
    ensures var urls2 := urls1 - (urls1.Keys - seen); urls2 != urls0 <==> urls1 != urls0 || urls2 != urls1
    ensures urls1.Keys - seen == urls0.Keys - seen
  {
  }

  lemma MinusMore<V>(m: map<Id, V>, keys: set<Id>, k: Id)
    ensures m - keys - {k} == m - (keys + {k})
  {
  }

  lemma OnlyOne(cams: seq<ProtectCamera>, u: ProtectCamera)
    requires Distinct(cams) && u in cams
    ensures OnlyWithId(cams, u)
  {
  }
}
