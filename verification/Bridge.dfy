/** The control plane as the objects it is made of: CameraSource, Reconciler and
    CameraApplier (internal/bridge). Every method is proved to take the state to what
    the functions of ControlPlane say. HomeGraph pushes are assumed to succeed, in order. */
module Bridge {
  import opened Wrappers
  import opened Cameras
  import opened MuxerCache
  import opened Streams
  import opened ControlPlane

  class HomeGraph {
    ghost var log: seq<Push>

    constructor ()
      ensures log == []
    {
      log := [];
    }

    method Send(push: Push)
      modifies this
      ensures log == old(log) + [push]
    {
      log := log + [push];
    }
  }

  class CameraSource {
    var cameras: seq<Camera>
    var rtspURLs: Lookup
    var lastUpdateId: string
    var allowed: Option<set<Id>>
    var gen: nat
    var onlineGen: map<Id, nat>
    // The callback wired by OnStreamsChanged prunes these two.
    const hls: Server
    const mp4: Server
    ghost var notices: nat

    function View(refreshed: bool): Plane
      reads this
    {
      Plane(cameras, rtspURLs, allowed, gen, onlineGen, lastUpdateId, refreshed)
    }

    // RTSPURLOf, for every camera at once.
    function Live(): Lookup
      reads `rtspURLs, `allowed
    {
      ControlPlane.Live(rtspURLs, allowed)
    }

    ghost predicate Valid()
      reads `cameras, `onlineGen, `gen
    {
      && DistinctIds(cameras)
      && forall id | id in onlineGen :: onlineGen[id] <= gen
    }

    function Servers(): set<Server> {
      {hls, mp4}
    }

    ghost predicate ServersValid()
      reads hls, mp4
    {
      hls.Valid() && mp4.Valid() && hls != mp4 && hls.made !! mp4.made
    }

    ghost function Muxers(): set<Muxer>
      reads hls`made, mp4`made
    {
      hls.made + mp4.made
    }

    // Every cached muxer of both servers serves what RTSPURLOf answers.
    ghost predicate Coherent()
      reads `rtspURLs, `allowed, hls, mp4
    {
      hls.Coherent(Live()) && mp4.Coherent(Live())
    }

    // The cached muxers that no longer match, and no others, have been evicted and closed.
    twostate predicate Pruned()
      reads `rtspURLs, `allowed, hls, mp4, Muxers()
    {
      && hls.muxers == Survivors(old(hls.muxers), Live())
      && mp4.muxers == Survivors(old(mp4.muxers), Live())
      && EvictedClosed(old(hls.muxers), old(hls.Running()), hls.muxers, hls.Running())
      && EvictedClosed(old(mp4.muxers), old(mp4.Running()), mp4.muxers, mp4.Running())
    }

    constructor (exposed: seq<Id>, hls: Server, mp4: Server)
      requires hls.Valid() && mp4.Valid() && hls != mp4 && hls.made !! mp4.made && hls.muxers == mp4.muxers == map[]
      ensures Valid() && ServersValid() && Coherent()
      ensures View(true) == Plane([], map[], AllowSet(exposed), 0, map[], "", true)
      ensures this.hls == hls && this.mp4 == mp4
    {
      this.hls, this.mp4 := hls, mp4;
      cameras, rtspURLs, lastUpdateId, gen, onlineGen, notices := [], map[], "", 0, map[], 0;
      allowed := None;
      new;
      allowed := Named(exposed);
    }

    method NotifyStreamsChanged()
      requires ServersValid()
      modifies this`notices, Servers(), Muxers()
      ensures notices == old(notices) + 1
      ensures ServersValid() && Pruned() && Coherent()
    {
      notices := notices + 1;
      hls.Prune(Live());
      mp4.Prune(Live());
    }

    // setOnline.
    method SetOnline(id: Id, online: bool) returns (changed: bool, cam: Option<Camera>)
      requires Valid()
      modifies this`cameras, this`gen, this`onlineGen
      ensures Valid()
      ensures forall r :: View(r) == EventStep(old(View(r)), id, online)
      ensures changed == Flips(old(View(true)), id, online)
      ensures changed ==> cam.Some?
      ensures cam.Some? <==> id in Ids(cameras)
      ensures cam.Some? ==> cam.value in cameras && cam.value.id == id && cam.value.online == online
      ensures changed <==> exists c | c in old(cameras) :: c.id == id && c.online != online
      ensures |cameras| == |old(cameras)| && forall i | 0 <= i < |cameras| ::
        cameras[i] == if old(cameras)[i].id == id then old(cameras)[i].(online := online) else old(cameras)[i]
      ensures if changed then gen == old(gen) + 1 && onlineGen == old(onlineGen)[id := gen]
        else gen == old(gen) && onlineGen == old(onlineGen)
    {
      for i := 0 to |cameras|
        invariant forall j | 0 <= j < i :: cameras[j].id != id
        invariant View(true) == old(View(true))
      {
        var c := cameras[i];
        if c.id != id {
          continue;
        }
        assert Find(cameras, id) == i by { FindIs(cameras, id, i); }
        if c.online == online {
          return false, Some(c);
        }
        cameras := cameras[i := c.(online := online)];
        gen := gen + 1;
        onlineGen := onlineGen[id := gen];
        assert cameras[i].id == id;
        return true, Some(cameras[i]);
      }
      return false, None;
    }

    static method Named(ids: seq<Id>) returns (allowed: Option<set<Id>>)
      ensures allowed == AllowSet(ids)
    {
      var named: set<Id> := {};
      for i := 0 to |ids|
        invariant named == set id | id in ids[..i] && id != ""
      {
        assert ids[..i + 1] == ids[..i] + [ids[i]];
        if ids[i] == "" {
          continue;
        }
        named := named + {ids[i]};
      }
      assert ids[..|ids|] == ids;
      allowed := if named == {} then None else Some(named);
    }

    // SetAllowed.
    method SetAllowed(ids: seq<Id>)
      requires ServersValid()
      modifies this`allowed, this`notices, Servers(), Muxers()
      ensures View(true) == AllowStep(old(View(true)), ids)
      ensures forall id ::
        (allowed.None? || id in allowed.value) <==> ((id in ids && id != "") || forall x | x in ids :: x == "")
      ensures ServersValid() && Pruned() && Coherent() && notices == old(notices) + 1
    {
      allowed := Named(ids);
      NotifyStreamsChanged();
    }

    // snapshotMap.
    method SnapshotMap() returns (m: map<Id, Camera>)
      ensures m == Snapshot(cameras)
    {
      m := map[];
      for i := 0 to |cameras|
        invariant m == Snapshot(cameras[..i])
      {
        assert cameras[..i + 1][..i] == cameras[..i];
        m := m[cameras[i].id := cameras[i]];
      }
      assert cameras[..|cameras|] == cameras;
    }

    // RTSPURLOf: of an exposed camera the recorded address.
    method RTSPURLOf(id: Id) returns (entry: Option<Entry>)
      ensures entry == if id in Live() then Some(Live()[id]) else None
      ensures entry == if id in rtspURLs && (allowed.None? || id in allowed.value) then Some(rtspURLs[id]) else None
    {
      if allowed.Some? && id !in allowed.value {
        return None;
      }
      if id !in rtspURLs {
        return None;
      }
      entry := Some(rtspURLs[id]);
    }

    // ListCameras: the exposed cameras, in order.
    method ListCameras() returns (out: seq<Camera>)
      ensures out == Visible(cameras, allowed)
      ensures exists at :: Selects(cameras, allowed, at, out)
    {
      ghost var at := VisibleAt(cameras, allowed);
      if allowed.None? {
        AllVisible(cameras, allowed);
        return cameras;
      }
      out := [];
      for i := 0 to |cameras|
        invariant out == Visible(cameras[..i], allowed)
      {
        assert cameras[..i + 1][..i] == cameras[..i];
        if cameras[i].id in allowed.value {
          out := out + [cameras[i]];
        }
      }
      assert cameras[..|cameras|] == cameras;
    }
  }

  lemma FindIs(cams: seq<Camera>, id: Id, i: nat)
    requires i < |cams| && cams[i].id == id && forall j | 0 <= j < i :: cams[j].id != id
    ensures Find(cams, id) == i
  {
  }

  function Visible(cams: seq<Camera>, allowed: Option<set<Id>>): seq<Camera> {
    if cams == [] then []
    else
      var n := |cams| - 1;
      Visible(cams[..n], allowed) + (if IsAllowed(allowed, cams[n].id) then [cams[n]] else [])
  }

  // out is cams without the hidden ones, in the same order; at is where they were.
  ghost predicate Selects(cams: seq<Camera>, allowed: Option<set<Id>>, at: seq<nat>, out: seq<Camera>) {
    && |at| == |out|
    && (forall i | 0 <= i < |at| :: at[i] < |cams| && out[i] == cams[at[i]])
    && (forall i, j | 0 <= i < j < |at| :: at[i] < at[j])
    && forall k: nat :: k in at <==> k < |cams| && (allowed.None? || cams[k].id in allowed.value)
  }

  lemma SelectsShown(cams: seq<Camera>, c: Camera, allowed: Option<set<Id>>, at: seq<nat>, out: seq<Camera>)
    requires Selects(cams, allowed, at, out) && (allowed.None? || c.id in allowed.value)
    ensures Selects(cams + [c], allowed, at + [|cams|], out + [c])
  {
    assert forall i | 0 <= i < |at| :: at[i] in at;
    assert forall k: nat :: k in at + [|cams|] <==> k in at || k == |cams|;
  }

  lemma SelectsHidden(cams: seq<Camera>, c: Camera, allowed: Option<set<Id>>, at: seq<nat>, out: seq<Camera>)
    requires Selects(cams, allowed, at, out) && !(allowed.None? || c.id in allowed.value)
    ensures Selects(cams + [c], allowed, at, out)
  {
  }

  lemma {:induction false} VisibleAt(cams: seq<Camera>, allowed: Option<set<Id>>) returns (at: seq<nat>)
    ensures Selects(cams, allowed, at, Visible(cams, allowed))
    decreases |cams|
  {
    if cams == [] {
      at := [];
    } else {
      var init, c := cams[..|cams| - 1], cams[|cams| - 1];
      at := VisibleAt(init, allowed);
      assert cams == init + [c];
      if IsAllowed(allowed, c.id) {
        SelectsShown(init, c, allowed, at, Visible(init, allowed));
        at := at + [|init|];
      } else {
        SelectsHidden(init, c, allowed, at, Visible(init, allowed));
        assert Visible(cams, allowed) == Visible(init, allowed);
      }
    }
  }

  // After an allow-list edit exactly the cameras named are listed, or all if none is.
  lemma EditListsExactly(cams: seq<Camera>, ids: seq<Id>, c: Camera)
    ensures c in Visible(cams, AllowSet(ids))
      <==> c in cams && ((c.id in ids && c.id != "") || forall x | x in ids :: x == "")
  {
    var allowed := AllowSet(ids);
    var out := Visible(cams, allowed);
    var at := VisibleAt(cams, allowed);
    if c in out {
      var i: nat :| i < |out| && out[i] == c;
      assert at[i] in at;
    }
    if c in cams && IsAllowed(allowed, c.id) {
      var k: nat :| k < |cams| && cams[k] == c;
      assert k in at;
      var i: nat :| i < |at| && at[i] == k;
      assert out[i] == c;
    }
  }

  lemma {:induction false} AllVisible(cams: seq<Camera>, allowed: Option<set<Id>>)
    requires allowed.None?
    ensures Visible(cams, allowed) == cams
  {
    if cams == [] {
    } else {
      AllVisible(cams[..|cams| - 1], allowed);
    }
  }
}
