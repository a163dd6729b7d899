/** What the control plane promises: reconciliation is exact and settles, RequestSync fires
    exactly when a rule says, and Google's cached states agree with the snapshot over every run. */
module ControlPlaneLaws {
  import opened Wrappers
  import opened Cameras
  import opened MuxerCache
  import opened ControlPlane

  ghost predicate WellFormed(p: Plane) {
    && DistinctIds(p.cameras)
    && (forall id | id in p.onlineGen :: p.onlineGen[id] <= p.gen)
    && p.urls.Keys <= Ids(p.cameras)
  }

  lemma {:induction false} SnapshotOf(cams: seq<Camera>, id: Id)
    requires DistinctIds(cams)
    ensures id in Snapshot(cams) <==> exists i | 0 <= i < |cams| :: cams[i].id == id
    ensures forall i | 0 <= i < |cams| && cams[i].id == id :: id in Snapshot(cams) && Snapshot(cams)[id] == cams[i]
  {
    SnapshotKeys(cams);
    forall i | 0 <= i < |cams| && cams[i].id == id
      ensures id in Snapshot(cams) && Snapshot(cams)[id] == cams[i]
    {
      SnapshotAt(cams, i);
    }
  }

  lemma NextIds(p: Plane, boot: seq<ProtectCamera>, g: nat)
    ensures Ids(NextCameras(Snapshot(p.cameras), p.onlineGen, boot, g)) == BootIds(boot)
  {
    NextCamerasAt(Snapshot(p.cameras), p.onlineGen, boot, g);
    IdsByIndex(boot, NextCameras(Snapshot(p.cameras), p.onlineGen, boot, g));
  }

  // ----- reconciliation is exact -----

  // After a refresh exactly the bootstrap's cameras with a usable channel have an address,
  // that of the first of their largest usable channels.
  lemma AddressesAreExact(env: Env, boot: seq<ProtectCamera>)
    requires Distinct(boot)
    ensures forall u | u in boot :: (u.id in TargetURLs(env, boot)
      <==> exists j | 0 <= j < |u.channels| :: u.channels[j].enabled && u.channels[j].alias != "")
    ensures forall u | u in boot && u.id in TargetURLs(env, boot) :: exists h: string, i: nat ::
        && IsBest(u.channels, i) && ':' !in h && (h == env.host || h + ":" <= env.host)
        && TargetURLs(env, boot)[u.id] == Entry("rtsps://" + h + ":7441/" + u.channels[i].alias, env.verifyTLS)
    ensures TargetURLs(env, boot).Keys <= BootIds(boot)
  {
    forall u | u in boot
      ensures u.id in TargetURLs(env, boot)
        <==> exists j | 0 <= j < |u.channels| :: u.channels[j].enabled && u.channels[j].alias != ""
      ensures u.id in TargetURLs(env, boot) ==> exists h: string, i: nat ::
          && IsBest(u.channels, i) && ':' !in h && (h == env.host || h + ":" <= env.host)
          && TargetURLs(env, boot)[u.id] == Entry("rtsps://" + h + ":7441/" + u.channels[i].alias, env.verifyTLS)
    {
      assert OnlyWithId(boot, u);
      BestChannelHasURL(env.host, u);
      if u.id in TargetURLs(env, boot) {
        var h: string, i: nat :| AddressBy(env.host, h, u, i, TargetURLs(env, boot)[u.id].url);
        assert WithoutPort(env.host, h);
      }
    }
  }

  lemma RefreshKeepsWellFormed(env: Env, p: Plane, boot: seq<ProtectCamera>, g: nat, updateId: string)
    requires WellFormed(p) && Distinct(boot)
    ensures WellFormed(RefreshStep(env, p, boot, g, updateId))
  {
    NextCamerasAt(Snapshot(p.cameras), p.onlineGen, boot, g);
    NextIds(p, boot, g);
    AddressesAreExact(env, boot);
  }

  lemma EventKeepsWellFormed(p: Plane, id: Id, online: bool)
    requires WellFormed(p)
    ensures WellFormed(EventStep(p, id, online))
    ensures Ids(EventStep(p, id, online).cameras) == Ids(p.cameras)
  {
    SameIds(p.cameras, EventStep(p, id, online).cameras);
  }

  lemma SameIds(cams: seq<Camera>, cams': seq<Camera>)
    requires |cams| == |cams'| && forall i | 0 <= i < |cams| :: cams[i].id == cams'[i].id
    ensures Ids(cams) == Ids(cams') && (DistinctIds(cams) ==> DistinctIds(cams'))
  {
    forall c | c in cams
      ensures c.id in Ids(cams')
    {
      var i :| 0 <= i < |cams| && cams[i] == c;
      assert cams'[i] in cams';
    }
    forall c | c in cams'
      ensures c.id in Ids(cams)
    {
      var i :| 0 <= i < |cams'| && cams'[i] == c;
      assert cams[i] in cams;
    }
  }

  // ----- a refresh settles -----

  // No connectivity event overruled the bootstrap with another value.
  ghost predicate Undisturbed(p: Plane, boot: seq<ProtectCamera>, g: nat) {
    forall u | u in boot && u.id in Snapshot(p.cameras) && ChangedSince(p.onlineGen, u.id, g) ::
      Snapshot(p.cameras)[u.id].online == u.online
  }

  // The bootstrap's own flags, which a refresh without newer events installs.
  lemma QuietRefreshTakesBootstrap(p: Plane, boot: seq<ProtectCamera>)
    requires WellFormed(p)
    ensures Undisturbed(p, boot, p.gen)
    ensures var next := NextCameras(Snapshot(p.cameras), p.onlineGen, boot, p.gen);
      |next| == |boot| && forall i | 0 <= i < |boot| ::
        next[i] == Camera(boot[i].id, boot[i].name, "Ubiquiti", boot[i].model, boot[i].online)
  {
    NextCamerasAt(Snapshot(p.cameras), p.onlineGen, boot, p.gen);
  }

  lemma UndisturbedTakesBootstrap(p: Plane, boot: seq<ProtectCamera>, g: nat)
    ensures var next := NextCameras(Snapshot(p.cameras), p.onlineGen, boot, g);
      && |next| == |boot|
      && (forall i | 0 <= i < |boot| ::
        next[i] == Camera(boot[i].id, boot[i].name, "Ubiquiti", boot[i].model, next[i].online))
      && (Undisturbed(p, boot, g) <==> forall i | 0 <= i < |boot| :: next[i].online == boot[i].online)
  {
    var prev := Snapshot(p.cameras);
    var next := NextCameras(prev, p.onlineGen, boot, g);
    NextCamerasAt(prev, p.onlineGen, boot, g);
    if Undisturbed(p, boot, g) {
      forall i | 0 <= i < |boot|
        ensures next[i].online == boot[i].online
      {
        assert boot[i] in boot;
      }
    } else {
      var u :| u in boot && u.id in prev && ChangedSince(p.onlineGen, u.id, g) && prev[u.id].online != u.online;
      var i :| 0 <= i < |boot| && boot[i] == u;
      assert next[i].online != boot[i].online;
    }
  }

  // Refreshing again on the same bootstrap, with no event in between, changes nothing
  // exactly when the first refresh was not disturbed by events.
  lemma RefreshSettles(env: Env, p: Plane, boot: seq<ProtectCamera>, g: nat, updateId: string)
    requires WellFormed(p) && Distinct(boot)
    ensures var q := RefreshStep(env, p, boot, g, updateId);
      RefreshStep(env, q, boot, q.gen, updateId) == q <==> Undisturbed(p, boot, g)
    ensures Undisturbed(p, boot, p.gen)
  {
    var q := RefreshStep(env, p, boot, g, updateId);
    RefreshKeepsWellFormed(env, p, boot, g, updateId);
    UndisturbedTakesBootstrap(p, boot, g);
    QuietRefreshTakesBootstrap(p, boot);
    QuietRefreshTakesBootstrap(q, boot);
    var again := NextCameras(Snapshot(q.cameras), q.onlineGen, boot, q.gen);
    if Undisturbed(p, boot, g) {
      assert q.cameras == again;
    }
  }

  // And it tells Google nothing, nor does it change an address, so no stream is registered,
  // replaced or dropped and no muxer server is notified.
  lemma RepeatIsSilent(env: Env, p: Plane, boot: seq<ProtectCamera>, g: nat, updateId: string)
    requires WellFormed(p) && Distinct(boot) && Undisturbed(p, boot, g)
    ensures var q := RefreshStep(env, p, boot, g, updateId);
      && RefreshPushes(env, q, boot, q.gen) == []
      && RefreshStep(env, q, boot, q.gen, updateId).urls == q.urls
  {
    var q := RefreshStep(env, p, boot, g, updateId);
    RefreshKeepsWellFormed(env, p, boot, g, updateId);
    RefreshSettles(env, p, boot, g, updateId);
    NextIds(p, boot, g);
    AddressesAreExact(env, boot);
    NoChanges(q.cameras, q.cameras);
  }

  lemma {:induction false} NoChanges(cams: seq<Camera>, next: seq<Camera>)
    requires DistinctIds(cams) && next <= cams
    ensures Changes(Snapshot(cams), next) == map[]
  {
    if next == [] {
    } else {
      NoChanges(cams, next[..|next| - 1]);
      SnapshotAt(cams, |next| - 1);
    }
  }

  // ----- when RequestSync fires -----

  // An exposed camera of the bootstrap is not in the snapshot yet.
  ghost predicate Arrived(p: Plane, boot: seq<ProtectCamera>, i: nat) {
    && i < |boot| && (p.allowed.None? || boot[i].id in p.allowed.value)
    && forall j | 0 <= j < |p.cameras| :: p.cameras[j].id != boot[i].id
  }

  // An exposed camera of the snapshot is not in the bootstrap any more.
  ghost predicate Departed(p: Plane, boot: seq<ProtectCamera>, j: nat) {
    && j < |p.cameras| && (p.allowed.None? || p.cameras[j].id in p.allowed.value)
    && forall i | 0 <= i < |boot| :: boot[i].id != p.cameras[j].id
  }

  lemma AddedIsArrived(p: Plane, boot: seq<ProtectCamera>)
    ensures ExposedAdded(p, boot) <==> exists i: nat :: Arrived(p, boot, i)
  {
    if ExposedAdded(p, boot) {
      var u :| u in boot && u.id !in Ids(p.cameras) && IsAllowed(p.allowed, u.id);
      var i: nat :| i < |boot| && boot[i] == u;
      assert forall j | 0 <= j < |p.cameras| :: p.cameras[j] in p.cameras;
      assert Arrived(p, boot, i);
    }
    if i: nat :| Arrived(p, boot, i) {
      assert boot[i].id in BootIds(boot);
      assert forall c | c in p.cameras :: exists j :: 0 <= j < |p.cameras| && p.cameras[j] == c;
    }
  }

  lemma RemovedIsDeparted(p: Plane, boot: seq<ProtectCamera>)
    requires p.urls.Keys <= Ids(p.cameras)
    ensures ExposedStreamRemoved(p, boot) <==> exists j: nat :: Departed(p, boot, j) && p.cameras[j].id in p.urls
  {
    if ExposedStreamRemoved(p, boot) {
      var id :| id in p.urls && id !in BootIds(boot) && IsAllowed(p.allowed, id);
      var c :| c in p.cameras && c.id == id;
      var j: nat :| j < |p.cameras| && p.cameras[j] == c;
      assert forall i | 0 <= i < |boot| :: boot[i] in boot;
      assert Departed(p, boot, j);
    }
    if j: nat :| Departed(p, boot, j) && p.cameras[j].id in p.urls {
      assert forall u | u in boot :: exists i :: 0 <= i < |boot| && boot[i] == u;
      assert p.cameras[j].id !in BootIds(boot);
    }
  }

  // With HomeGraph wired and not for the first refresh, RequestSync goes out exactly if an exposed camera
  // arrived or an exposed camera with a registered stream departed. So a change of the exposed membership
  // goes unannounced exactly when it only removes cameras without one.
  lemma SyncExactly(env: Env, p: Plane, boot: seq<ProtectCamera>, g: nat)
    requires WellFormed(p)
    ensures RequestSync in RefreshPushes(env, p, boot, g)
      <==> (env.homeGraph && p.refreshed && ((exists i: nat :: Arrived(p, boot, i))
            || exists j: nat :: Departed(p, boot, j) && p.cameras[j].id in p.urls))
    ensures env.homeGraph && p.refreshed && RequestSync !in RefreshPushes(env, p, boot, g)
      ==> ((exists i: nat :: Arrived(p, boot, i)) || (exists j: nat :: Departed(p, boot, j))
           <==> ((forall i: nat :: !Arrived(p, boot, i)) && (exists j: nat :: Departed(p, boot, j))
                 && forall j: nat | Departed(p, boot, j) :: p.cameras[j].id !in p.urls))
  {
    AddedIsArrived(p, boot);
    RemovedIsDeparted(p, boot);
    var pushes := RefreshPushes(env, p, boot, g);
    assert SyncFires(env, p, boot) ==> pushes[0] == RequestSync;
  }

  // ----- what else a refresh, an event and an edit come to -----

  // The snapshot after a refresh, camera by camera: the bootstrap's, but the old flag for a camera that was
  // listed and that an event has flipped after generation g.
  lemma CamerasAreExact(env: Env, p: Plane, boot: seq<ProtectCamera>, g: nat, updateId: string)
    requires DistinctIds(p.cameras)
    ensures var q := RefreshStep(env, p, boot, g, updateId);
      && |q.cameras| == |boot| && q.refreshed && q.urls == TargetURLs(env, boot)
      && q.allowed == p.allowed && q.gen == p.gen && q.onlineGen == p.onlineGen
      && q.lastUpdateId == (if updateId == "" then p.lastUpdateId else updateId)
    ensures forall i | 0 <= i < |boot| ::
      var c := RefreshStep(env, p, boot, g, updateId).cameras[i];
      c == Camera(boot[i].id, boot[i].name, "Ubiquiti", boot[i].model, c.online)
    ensures forall i, j | 0 <= i < |boot| && 0 <= j < |p.cameras| && p.cameras[j].id == boot[i].id ::
      RefreshStep(env, p, boot, g, updateId).cameras[i].online
        == if boot[i].id in p.onlineGen && p.onlineGen[boot[i].id] > g then p.cameras[j].online else boot[i].online
    ensures forall i | 0 <= i < |boot| && (forall j | 0 <= j < |p.cameras| :: p.cameras[j].id != boot[i].id) ::
      RefreshStep(env, p, boot, g, updateId).cameras[i].online == boot[i].online
  {
    NextCamerasAt(Snapshot(p.cameras), p.onlineGen, boot, g);
    forall i | 0 <= i < |boot|
      ensures boot[i].id in Snapshot(p.cameras) <==> exists j | 0 <= j < |p.cameras| :: p.cameras[j].id == boot[i].id
      ensures forall j | 0 <= j < |p.cameras| && p.cameras[j].id == boot[i].id ::
        boot[i].id in Snapshot(p.cameras) && Snapshot(p.cameras)[boot[i].id] == p.cameras[j]
    {
      SnapshotOf(p.cameras, boot[i].id);
    }
  }

  // What a refresh reports: the new flags of exactly those exposed cameras that were not listed with this flag.
  lemma ReportIsExact(p: Plane, boot: seq<ProtectCamera>, g: nat, i: nat)
    requires DistinctIds(p.cameras) && Distinct(boot) && i < |boot|
    ensures var c := NextCameras(Snapshot(p.cameras), p.onlineGen, boot, g);
      |c| == |boot| && c[i].id == boot[i].id
      && (boot[i].id in RefreshReport(p, boot, g)
        <==> ((p.allowed.None? || boot[i].id in p.allowed.value)
              && forall j | 0 <= j < |p.cameras| && p.cameras[j].id == boot[i].id ::
                p.cameras[j].online != c[i].online))
      && (boot[i].id in RefreshReport(p, boot, g) ==> RefreshReport(p, boot, g)[boot[i].id] == c[i].online)
  {
    var prev := Snapshot(p.cameras);
    var next := NextCameras(prev, p.onlineGen, boot, g);
    NextCamerasAt(prev, p.onlineGen, boot, g);
    ChangesAt(prev, next, i);
    SnapshotOf(p.cameras, boot[i].id);
  }

  // No other camera is in the report, and nothing else is pushed.
  lemma PushesAreExact(env: Env, p: Plane, boot: seq<ProtectCamera>, g: nat)
    ensures RefreshReport(p, boot, g).Keys <= BootIds(boot)
    ensures var pushes, report := RefreshPushes(env, p, boot, g), RefreshReport(p, boot, g);
      pushes == (if RequestSync in pushes then [RequestSync] else [])
        + (if env.homeGraph && report != map[] then [ReportState(report)] else [])
  {
    var prev := Snapshot(p.cameras);
    var next := NextCameras(prev, p.onlineGen, boot, g);
    NextIds(p, boot, g);
    forall id | id !in Ids(next)
      ensures id !in Changes(prev, next)
    {
      NotChanged(prev, next, id);
    }
    var pushes := RefreshPushes(env, p, boot, g);
    assert SyncFires(env, p, boot) ==> pushes[0] == RequestSync;
  }

  // An allow-list edit that Google accepts: a sync, then the flags of exactly the cameras exposed by the edit.
  lemma EditTellsExactly(cams: seq<Camera>, ids: seq<Id>)
    requires DistinctIds(cams)
    ensures var states := ExposedStates(cams, AllowSet(ids));
      && AllowPushes(cams, ids) == [RequestSync] + (if states == map[] then [] else [ReportState(states)])
      && (forall i | 0 <= i < |cams| ::
        (cams[i].id in states <==> (cams[i].id in ids && cams[i].id != "") || forall x | x in ids :: x == "")
        && (cams[i].id in states ==> states[cams[i].id] == cams[i].online))
      && states.Keys <= Ids(cams)
  {
    ExposedStatesOnly(cams, AllowSet(ids));
    forall i | 0 <= i < |cams| && IsAllowed(AllowSet(ids), cams[i].id)
      ensures cams[i].id in ExposedStates(cams, AllowSet(ids))
      ensures ExposedStates(cams, AllowSet(ids))[cams[i].id] == cams[i].online
    {
      ExposedStatesAt(cams, AllowSet(ids), i);
    }
  }

  // What RTSPURLOf answers after it.
  lemma EditServesExactly(urls: Lookup, ids: seq<Id>, id: Id)
    ensures id in Live(urls, AllowSet(ids))
      <==> id in urls && ((id in ids && id != "") || forall x | x in ids :: x == "")
    ensures id in Live(urls, AllowSet(ids)) ==> Live(urls, AllowSet(ids))[id] == urls[id]
  {
  }

  // ----- Google's cache -----

  // The control state, the pushes under way in order, and what Google has cached.
  datatype World = World(plane: Plane, queue: seq<Push>, cache: map<Id, bool>)

  datatype Move =
    | Refresh(boot: seq<ProtectCamera>, gen: nat, updateId: string) // gen: whatever was sampled before the fetch
    | Event(id: Id, online: bool)
    | Allow(ids: seq<Id>)
    | Land // the oldest push reaches Google

  predicate Enabled(w: World, m: Move) {
    && (m.Refresh? ==> Distinct(m.boot))
    && (m.Land? ==> w.queue != [])
  }

  function Arrive(cache: map<Id, bool>, push: Push): map<Id, bool> {
    match push
    case RequestSync => cache
    case ReportState(states) => cache + states
  }

  ghost function Step(env: Env, w: World, m: Move): World
    requires Enabled(w, m)
  {
    match m
    case Refresh(boot, g, id) =>
      w.(plane := RefreshStep(env, w.plane, boot, g, id), queue := w.queue + RefreshPushes(env, w.plane, boot, g))
    case Event(id, online) =>
      w.(plane := EventStep(w.plane, id, online), queue := w.queue + EventPushes(env, w.plane, id, online))
    case Allow(ids) =>
      w.(plane := AllowStep(w.plane, ids), queue := w.queue + AllowPushes(w.plane.cameras, ids))
    case Land =>
      w.(queue := w.queue[1..], cache := Arrive(w.cache, w.queue[0]))
  }

  ghost predicate Runs(env: Env, w: World, moves: seq<Move>)
    decreases |moves|
  {
    moves == [] || (Enabled(w, moves[0]) && Runs(env, Step(env, w, moves[0]), moves[1..]))
  }

  ghost function Run(env: Env, w: World, moves: seq<Move>): World
    requires Runs(env, w, moves)
    decreases |moves|
  {
    if moves == [] then w else Run(env, Step(env, w, moves[0]), moves[1..])
  }

  // A bridge that has not refreshed yet, whatever Google has cached.
  function Fresh(allowed: Option<set<Id>>, cache: map<Id, bool>): World {
    World(Plane([], map[], allowed, 0, map[], "", false), [], cache)
  }

  // What Google will have cached once every push under way has landed.
  function Settled(cache: map<Id, bool>, queue: seq<Push>): map<Id, bool>
    decreases |queue|
  {
    if queue == [] then cache else Settled(Arrive(cache, queue[0]), queue[1..])
  }

  ghost predicate Agrees(p: Plane, cache: map<Id, bool>) {
    AgreesOn(p.cameras, p.allowed, cache)
  }

  ghost predicate AgreesOn(cams: seq<Camera>, allowed: Option<set<Id>>, cache: map<Id, bool>) {
    forall i | 0 <= i < |cams| && IsAllowed(allowed, cams[i].id) ::
      cams[i].id in cache && cache[cams[i].id] == cams[i].online
  }

  lemma {:induction false} SettledAppend(cache: map<Id, bool>, q1: seq<Push>, q2: seq<Push>)
    ensures Settled(cache, q1 + q2) == Settled(Settled(cache, q1), q2)
    decreases |q1|
  {
    if q1 == [] {
      assert q1 + q2 == q2;
    } else {
      assert (q1 + q2)[1..] == q1[1..] + q2;
      SettledAppend(Arrive(cache, q1[0]), q1[1..], q2);
    }
  }

  lemma SettledPushed(cache: map<Id, bool>, sync: bool, report: map<Id, bool>)
    ensures Settled(cache, Pushed(sync, report)) == cache + report
  {
    var sent: seq<Push> := if report != map[] then [ReportState(report)] else [];
    assert cache + map[] == cache;
    assert sent != [] ==> sent[1..] == [];
    assert Settled(cache, sent) == cache + report;
    if sync {
      assert Pushed(sync, report)[1..] == sent;
    } else {
      assert Pushed(sync, report) == sent;
    }
  }

  lemma {:induction false} ChangesAt(prev: map<Id, Camera>, next: seq<Camera>, i: nat)
    requires DistinctIds(next) && i < |next|
    ensures var c := next[i];
      if c.id in prev && prev[c.id].online == c.online then c.id !in Changes(prev, next)
      else c.id in Changes(prev, next) && Changes(prev, next)[c.id] == c.online
  {
    var init := next[..|next| - 1];
    if i < |next| - 1 {
      ChangesAt(prev, init, i);
    } else {
      NotChanged(prev, init, next[i].id);
    }
  }

  lemma {:induction false} NotChanged(prev: map<Id, Camera>, next: seq<Camera>, id: Id)
    requires forall c | c in next :: c.id != id
    ensures id !in Changes(prev, next)
  {
    if next == [] {
    } else {
      assert next[|next| - 1] in next;
      NotChanged(prev, next[..|next| - 1], id);
    }
  }

  lemma {:induction false} ExposedStatesAt(cams: seq<Camera>, allowed: Option<set<Id>>, i: nat)
    requires DistinctIds(cams) && i < |cams| && IsAllowed(allowed, cams[i].id)
    ensures cams[i].id in ExposedStates(cams, allowed) && ExposedStates(cams, allowed)[cams[i].id] == cams[i].online
  {
    if i < |cams| - 1 {
      ExposedStatesAt(cams[..|cams| - 1], allowed, i);
    }
  }

  lemma {:induction false} ExposedStatesOnly(cams: seq<Camera>, allowed: Option<set<Id>>)
    ensures forall id | id in ExposedStates(cams, allowed) :: IsAllowed(allowed, id) && id in Ids(cams)
  {
    if cams == [] {
    } else {
      ExposedStatesOnly(cams[..|cams| - 1], allowed);
    }
  }

  // A camera gets back the flag that was sampled and that an event has changed since.
  predicate Reverts(p: Plane, prev: map<Id, Camera>, c: Camera) {
    && c.id in prev && c.online == prev[c.id].online
    && c.id in Snapshot(p.cameras) && c.online != Snapshot(p.cameras)[c.id].online
  }

  // A refresh that sampled the snapshot prev and diffed a bootstrap into next, while events kept flipping
  // cameras: installing next and reporting what differs from prev keeps Google in agreement exactly if no
  // exposed camera reverts.
  lemma InstallAgreesExactly(p: Plane, prev: map<Id, Camera>, next: seq<Camera>, cache: map<Id, bool>)
    requires WellFormed(p) && DistinctIds(next) && prev.Keys == Snapshot(p.cameras).Keys && Agrees(p, cache)
    ensures Agrees(p.(cameras := next), cache + Exposed(Changes(prev, next), p.allowed))
      <==> forall i | 0 <= i < |next| && IsAllowed(p.allowed, next[i].id) :: !Reverts(p, prev, next[i])
  {
    var cache' := cache + Exposed(Changes(prev, next), p.allowed);
    forall i | 0 <= i < |next| && IsAllowed(p.allowed, next[i].id)
      ensures next[i].id in cache' && cache'[next[i].id] == next[i].online <==> !Reverts(p, prev, next[i])
    {
      ChangesAt(prev, next, i);
      if next[i].id in prev {
        SnapshotOf(p.cameras, next[i].id);
      }
    }
  }

  // In one go the sampled snapshot is the current one, so a refresh always does.
  lemma RefreshAgrees(p: Plane, boot: seq<ProtectCamera>, g: nat, cache: map<Id, bool>)
    requires WellFormed(p) && Distinct(boot) && Agrees(p, cache)
    ensures var next := NextCameras(Snapshot(p.cameras), p.onlineGen, boot, g);
      Agrees(p.(cameras := next), cache + RefreshReport(p, boot, g))
  {
    var prev := Snapshot(p.cameras);
    NextCamerasAt(prev, p.onlineGen, boot, g);
    InstallAgreesExactly(p, prev, NextCameras(prev, p.onlineGen, boot, g), cache);
  }

  lemma EventAgrees(env: Env, p: Plane, id: Id, online: bool, cache: map<Id, bool>)
    requires WellFormed(p) && Agrees(p, cache) && env.homeGraph
    ensures Agrees(EventStep(p, id, online), Settled(cache, EventPushes(env, p, id, online)))
  {
    if Flips(p, id, online) && IsAllowed(p.allowed, id) {
      var pushes := EventPushes(env, p, id, online);
      assert pushes[1..] == [];
      assert Settled(cache, pushes) == cache + map[id := online];
    }
  }

  lemma StepAgrees(env: Env, w: World, m: Move)
    requires env.homeGraph && Enabled(w, m)
    requires WellFormed(w.plane) && Agrees(w.plane, Settled(w.cache, w.queue))
    ensures var w' := Step(env, w, m); WellFormed(w'.plane) && Agrees(w'.plane, Settled(w'.cache, w'.queue))
  {
    var now := Settled(w.cache, w.queue);
    match m
    case Refresh(boot, g, id) =>
      RefreshKeepsWellFormed(env, w.plane, boot, g, id);
      RefreshAgrees(w.plane, boot, g, now);
      SettledAppend(w.cache, w.queue, RefreshPushes(env, w.plane, boot, g));
      SettledPushed(now, SyncFires(env, w.plane, boot), RefreshReport(w.plane, boot, g));
    case Event(id, online) =>
      EventKeepsWellFormed(w.plane, id, online);
      EventAgrees(env, w.plane, id, online, now);
      SettledAppend(w.cache, w.queue, EventPushes(env, w.plane, id, online));
    case Allow(ids) =>
      SettledAppend(w.cache, w.queue, AllowPushes(w.plane.cameras, ids));
      SettledPushed(now, true, ExposedStates(w.plane.cameras, AllowSet(ids)));
      forall i | 0 <= i < |w.plane.cameras| && IsAllowed(AllowSet(ids), w.plane.cameras[i].id)
        ensures w.plane.cameras[i].id in ExposedStates(w.plane.cameras, AllowSet(ids))
        ensures ExposedStates(w.plane.cameras, AllowSet(ids))[w.plane.cameras[i].id] == w.plane.cameras[i].online
      {
        ExposedStatesAt(w.plane.cameras, AllowSet(ids), i);
      }
    case Land =>
  }

  // From a bridge that has not refreshed yet, after any moves in any order: once the pushes under
  // way have landed, Google has the current online flag of every exposed camera.
  lemma {:induction false} GoogleAgrees(env: Env, allowed: Option<set<Id>>, cache: map<Id, bool>, moves: seq<Move>)
    requires env.homeGraph
    requires Runs(env, Fresh(allowed, cache), moves)
    ensures var w := Run(env, Fresh(allowed, cache), moves);
      && WellFormed(w.plane)
      && Agrees(w.plane, Settled(w.cache, w.queue))
      && (w.queue == [] ==> Agrees(w.plane, w.cache))
  {
    RunAgrees(env, Fresh(allowed, cache), moves);
  }

  lemma {:induction false} RunAgrees(env: Env, w: World, moves: seq<Move>)
    requires env.homeGraph && Runs(env, w, moves)
    requires WellFormed(w.plane) && Agrees(w.plane, Settled(w.cache, w.queue))
    ensures var w' := Run(env, w, moves); WellFormed(w'.plane) && Agrees(w'.plane, Settled(w'.cache, w'.queue))
    decreases |moves|
  {
    if moves == [] {
    } else {
      StepAgrees(env, w, moves[0]);
      RunAgrees(env, Step(env, w, moves[0]), moves[1..]);
    }
  }

  // No move pushes the state of a camera that is hidden after the move.
  lemma NoHiddenReported(env: Env, w: World, m: Move)
    requires Enabled(w, m) && !m.Land?
    ensures var w' := Step(env, w, m);
      forall push | push in w'.queue[|w.queue|..] && push.ReportState? ::
        forall id | id in push.states :: IsAllowed(w'.plane.allowed, id)
  {
    var w' := Step(env, w, m);
    match m
    case Refresh(boot, g, id) =>
      assert w'.queue[|w.queue|..] == RefreshPushes(env, w.plane, boot, g);
    case Event(id, online) =>
      assert w'.queue[|w.queue|..] == EventPushes(env, w.plane, id, online);
    case Allow(ids) =>
      assert w'.queue[|w.queue|..] == AllowPushes(w.plane.cameras, ids);
      ExposedStatesOnly(w.plane.cameras, AllowSet(ids));
  }

  // No push under way reports a camera that is hidden now.
  ghost predicate NoneHidden(w: World) {
    forall i | 0 <= i < |w.queue| && w.queue[i].ReportState? :: Visible(w.queue[i].states, w.plane.allowed)
  }

  predicate Visible(states: map<Id, bool>, allowed: Option<set<Id>>) {
    forall id | id in states :: IsAllowed(allowed, id)
  }

  // An allow-list edit that hides a camera whose report is still under way.
  ghost predicate Overtakes(w: World, m: Move) {
    m.Allow? && exists i | 0 <= i < |w.queue| && w.queue[i].ReportState? :: !Visible(w.queue[i].states, AllowSet(m.ids))
  }

  // Reports of hidden cameras come under way exactly by such edits.
  lemma HiddenExactly(env: Env, w: World, m: Move)
    requires Enabled(w, m) && NoneHidden(w)
    ensures NoneHidden(Step(env, w, m)) <==> !Overtakes(w, m)
  {
    var w' := Step(env, w, m);
    if m.Land? {
      assert forall i | 0 <= i < |w'.queue| :: w'.queue[i] == w.queue[i + 1];
    } else {
      NoHiddenReported(env, w, m);
      var added := w'.queue[|w.queue|..];
      assert w'.queue == w.queue + added;
      assert forall i | |w.queue| <= i < |w'.queue| :: w'.queue[i] == added[i - |w.queue|];
      assert m.Allow? ==> w'.plane.allowed == AllowSet(m.ids);
      assert !m.Allow? ==> w'.plane.allowed == w.plane.allowed;
      if exists i | 0 <= i < |w.queue| && w.queue[i].ReportState? :: !Visible(w.queue[i].states, w'.plane.allowed) {
        var i :| 0 <= i < |w.queue| && w.queue[i].ReportState? && !Visible(w.queue[i].states, w'.plane.allowed);
        assert w'.queue[i] == w.queue[i];
      }
    }
  }

  ghost predicate Unhurried(env: Env, w: World, moves: seq<Move>)
    requires Runs(env, w, moves)
    decreases |moves|
  {
    moves == [] || (!Overtakes(w, moves[0]) && Unhurried(env, Step(env, w, moves[0]), moves[1..]))
  }

  // So in every run without such an edit, nothing that lands ever reports a hidden camera.
  lemma {:induction false} HiddenStaysUnreported(env: Env, w: World, moves: seq<Move>)
    requires Runs(env, w, moves) && NoneHidden(w) && Unhurried(env, w, moves)
    ensures NoneHidden(Run(env, w, moves))
    decreases |moves|
  {
    if moves == [] {
    } else {
      HiddenExactly(env, w, moves[0]);
      HiddenStaysUnreported(env, Step(env, w, moves[0]), moves[1..]);
    }
  }

  // ----- a removal Google does not hear of -----

  // One camera, without RTSP, and the bridge once it has refreshed it in.
  const FLEET := [ProtectCamera("cam-1", "Front", "G4", true, [])]

  const SHOWN := Plane([Camera("cam-1", "Front", "Ubiquiti", "G4", true)], map[], None, 0, map[], "", true)

  lemma FleetIsShown(env: Env)
    ensures RefreshStep(env, Plane([], map[], None, 0, map[], "", false), FLEET, 0, "") == SHOWN
  {
    var start := Plane([], map[], None, 0, map[], "", false);
    NextCamerasAt(map[], map[], FLEET, 0);
    assert NextCameras(Snapshot(start.cameras), start.onlineGen, FLEET, 0) == SHOWN.cameras;
    assert Best(FLEET[0].channels) == None;
    assert TargetURLs(env, FLEET) == map[];
  }

  lemma LeavingIsSilent(env: Env)
    ensures RefreshPushes(env, SHOWN, [], 0) == [] && Departed(SHOWN, [], 0)
  {
    assert SHOWN.cameras[0] in SHOWN.cameras && "cam-1" in Ids(SHOWN.cameras);
    assert Changes(Snapshot(SHOWN.cameras), []) == map[];
  }

  // It is refreshed in and then leaves: the exposed membership changes, and Google is told nothing.
  lemma UnannouncedRemoval(env: Env, cache: map<Id, bool>)
    requires env.homeGraph
    ensures var moves := [Refresh(FLEET, 0, ""), Refresh([], 0, "")];
      && Runs(env, Fresh(None, cache), moves)
      && var w := Step(env, Fresh(None, cache), moves[0]);
         && w.plane == SHOWN && Departed(SHOWN, [], 0)
         && Run(env, Fresh(None, cache), moves).plane.cameras == []
         && Run(env, Fresh(None, cache), moves).queue == w.queue
  {
    FleetIsShown(env);
    LeavingIsSilent(env);
    var moves := [Refresh(FLEET, 0, ""), Refresh([], 0, "")];
    var w := Step(env, Fresh(None, cache), moves[0]);
    var w' := Step(env, w, moves[1]);
    assert w'.queue == w.queue;
    assert moves[1..][1..] == [];
    assert Run(env, w, moves[1..]) == w';
  }

  // ----- events and edits in the middle -----

  const CAM := SHOWN.cameras[0]

  const DOWN := SHOWN.(cameras := [CAM.(online := false)], gen := 1, onlineGen := map["cam-1" := 1])

  lemma GoesDown()
    ensures EventStep(SHOWN, "cam-1", false) == DOWN
  {
    assert Find(SHOWN.cameras, "cam-1") == 0;
    assert SHOWN.cameras[0 := CAM.(online := false)] == DOWN.cameras;
  }

  lemma DiffMissesIt()
    ensures NextCameras(map["cam-1" := CAM], DOWN.onlineGen, FLEET, 0) == [CAM]
    ensures Changes(map["cam-1" := CAM], [CAM]) == map[]
  {
    NextCamerasAt(map["cam-1" := CAM], DOWN.onlineGen, FLEET, 0);
  }

  // The camera goes offline after the refresh has sampled the snapshot: the refresh reports nothing,
  // shows it online, and Google keeps it offline.
  lemma InstallCanPart()
    ensures var p := EventStep(SHOWN, "cam-1", false); var prev := Snapshot(SHOWN.cameras);
      var next := NextCameras(prev, p.onlineGen, FLEET, 0); var cache := map["cam-1" := false];
      Agrees(p, cache) && !Agrees(p.(cameras := next), cache + Exposed(Changes(prev, next), p.allowed))
  {
    GoesDown();
    DiffMissesIt();
    assert Snapshot(SHOWN.cameras) == map["cam-1" := CAM] by {
      assert SHOWN.cameras[..0] == [];
    }
    var cache: map<Id, bool> := map["cam-1" := false];
    assert cache + Exposed(map[], None) == cache;
    assert !Agrees(DOWN.(cameras := [CAM]), cache) by {
      assert [CAM][0].online != cache["cam-1"];
    }
  }

  lemma OnlyOther()
    ensures AllowSet(["other"]) == Some({"other"})
  {
    var ids: seq<Id> := ["other"];
    var named := set id | id in ids && id != "";
    assert ids[0] in named && named == {"other"};
  }

  lemma ArrivalIsReported(env: Env)
    requires env.homeGraph
    ensures RefreshPushes(env, Fresh(None, map[]).plane, FLEET, 0) == [ReportState(map["cam-1" := true])]
  {
    assert NextCameras(map[], map[], FLEET, 0) == [CAM] by {
      NextCamerasAt(map[], map[], FLEET, 0);
    }
    var states: map<Id, bool> := map["cam-1" := true];
    assert Changes(map[], [CAM]) == states by {
      assert [CAM][..0] == [] && [CAM][0] == CAM;
    }
    assert Exposed(states, None) == states;
    assert RefreshReport(Fresh(None, map[]).plane, FLEET, 0) == states;
    assert states != map[] by { assert "cam-1" in states; }
  }

  // The camera is hidden while the report that it was added is still under way.
  lemma EditCanOvertake(env: Env, cache: map<Id, bool>)
    requires env.homeGraph
    ensures var moves := [Refresh(FLEET, 0, "")];
      Runs(env, Fresh(None, cache), moves) && Overtakes(Run(env, Fresh(None, cache), moves), Allow(["other"]))
  {
    var moves := [Refresh(FLEET, 0, "")];
    var w := Step(env, Fresh(None, cache), moves[0]);
    ArrivalIsReported(env);
    assert w.queue == [ReportState(map["cam-1" := true])];
    assert !IsAllowed(AllowSet(["other"]), "cam-1") by {
      OnlyOther();
      assert "cam-1"[0] != "other"[0];
    }
    assert "cam-1" in w.queue[0].states;
    assert moves[1..] == [] && Run(env, w, []) == w;
  }
}
