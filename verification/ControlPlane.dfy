/** What one bootstrap refresh, one connectivity event and one allow-list edit do to
    the bridge's control state and to Google, as functions on values
    (internal/bridge/reconciler.go, source.go, setupglue.go).
    The classes in Reconciler.dfy are proved to compute these functions. */
module ControlPlane {
  import opened Wrappers
  import opened Cameras
  import opened MuxerCache

  // The settings of a reconciler that do not change.
  datatype Env = Env(host: string, verifyTLS: bool, homeGraph: bool)

  // CameraSource's fields plus firstRefreshDone.
  datatype Plane = Plane(
    cameras: seq<Camera>,
    urls: Lookup,
    allowed: Option<set<Id>>,
    gen: nat,
    onlineGen: map<Id, nat>,
    lastUpdateId: string,
    refreshed: bool)

  // One successful call to HomeGraph.
  datatype Push = RequestSync | ReportState(states: map<Id, bool>)

  predicate IsAllowed(allowed: Option<set<Id>>, id: Id) {
    allowed.None? || id in allowed.value
  }

  // SetAllowed: blank IDs do not count, and no IDs at all means every camera.
  function AllowSet(ids: seq<Id>): (allowed: Option<set<Id>>)
    ensures allowed.None? <==> forall id | id in ids :: id == ""
    ensures allowed.Some? ==> forall id :: id in allowed.value <==> id in ids && id != ""
  {
    var named := set id | id in ids && id != "";
    assert forall id | id in ids :: id in named || id == "";
    if named == {} then None else Some(named)
  }

  // RTSPURLOf for every camera at once.
  function Live(urls: Lookup, allowed: Option<set<Id>>): Lookup {
    map id | id in urls && IsAllowed(allowed, id) :: urls[id]
  }

  predicate DistinctIds(cams: seq<Camera>) {
    forall i, j | 0 <= i < j < |cams| :: cams[i].id != cams[j].id
  }

  // The assumption on a bootstrap: no camera is listed twice.
  predicate Distinct(boot: seq<ProtectCamera>) {
    forall i, j | 0 <= i < j < |boot| :: boot[i].id != boot[j].id
  }

  function Ids(cams: seq<Camera>): set<Id> {
    set c | c in cams :: c.id
  }

  function BootIds(boot: seq<ProtectCamera>): set<Id> {
    set u | u in boot :: u.id
  }

  // snapshotMap: the cameras keyed by ID.
  function Snapshot(cams: seq<Camera>): map<Id, Camera> {
    if cams == [] then map[]
    else Snapshot(cams[..|cams| - 1])[cams[|cams| - 1].id := cams[|cams| - 1]]
  }

  lemma {:induction false} SnapshotKeys(cams: seq<Camera>)
    ensures Snapshot(cams).Keys == Ids(cams)
  {
    if cams == [] {
    } else {
      var init := cams[..|cams| - 1];
      assert cams == init + [cams[|cams| - 1]];
      SnapshotKeys(init);
    }
  }

  lemma {:induction false} SnapshotAt(cams: seq<Camera>, i: nat)
    requires DistinctIds(cams) && i < |cams|
    ensures cams[i].id in Snapshot(cams) && Snapshot(cams)[cams[i].id] == cams[i]
  {
    if i < |cams| - 1 {
      SnapshotAt(cams[..|cams| - 1], i);
    }
  }

  lemma IdsByIndex(boot: seq<ProtectCamera>, cams: seq<Camera>)
    requires |cams| == |boot| && forall i | 0 <= i < |boot| :: cams[i].id == boot[i].id
    ensures Ids(cams) == BootIds(boot)
  {
  }

  predicate ChangedSince(onlineGen: map<Id, nat>, id: Id, g: nat) {
    (if id in onlineGen then onlineGen[id] else 0) > g
  }

  // ----- a connectivity event -----

  // The position of a camera in the list, or its length.
  function Find(cams: seq<Camera>, id: Id): (i: nat)
    ensures i <= |cams|
    ensures i < |cams| ==> cams[i].id == id
    ensures forall j | 0 <= j < i :: cams[j].id != id
  {
    if cams == [] then 0
    else if cams[0].id == id then 0
    else
      var r := Find(cams[1..], id);
      assert forall j | 0 < j < r + 1 :: cams[j] == cams[1..][j - 1];
      r + 1
  }

  predicate Flips(p: Plane, id: Id, online: bool) {
    var i := Find(p.cameras, id);
    i < |p.cameras| && p.cameras[i].online != online
  }

  // setOnline.
  function EventStep(p: Plane, id: Id, online: bool): Plane {
    if !Flips(p, id, online) then p
    else
      var i := Find(p.cameras, id);
      p.(cameras := p.cameras[i := p.cameras[i].(online := online)],
      gen := p.gen + 1,
      onlineGen := p.onlineGen[id := p.gen + 1])
  }

  // handleStateChange's push.
  function EventPushes(env: Env, p: Plane, id: Id, online: bool): seq<Push> {
    if Flips(p, id, online) && env.homeGraph && IsAllowed(p.allowed, id)
    then [ReportState(map[id := online])] else []
  }

  // ----- a refresh -----

  function NextCamera(prev: map<Id, Camera>, onlineGen: map<Id, nat>, u: ProtectCamera, g: nat): Camera {
    Camera(u.id, u.name, "Ubiquiti", u.model,
           if u.id in prev && ChangedSince(onlineGen, u.id, g) then prev[u.id].online else u.online)
  }

  function NextCameras(prev: map<Id, Camera>, onlineGen: map<Id, nat>, boot: seq<ProtectCamera>, g: nat): seq<Camera> {
    if boot == [] then []
    else NextCameras(prev, onlineGen, boot[..|boot| - 1], g) + [NextCamera(prev, onlineGen, boot[|boot| - 1], g)]
  }

  lemma {:induction false} NextCamerasAt(
    prev: map<Id, Camera>, onlineGen: map<Id, nat>, boot: seq<ProtectCamera>, g: nat)
    ensures |NextCameras(prev, onlineGen, boot, g)| == |boot|
    ensures forall i | 0 <= i < |boot| ::
      NextCameras(prev, onlineGen, boot, g)[i] == NextCamera(prev, onlineGen, boot[i], g)
  {
    if boot == [] {
    } else {
      NextCamerasAt(prev, onlineGen, boot[..|boot| - 1], g);
    }
  }

  // The cameras that are new or whose online flag differs from the snapshot, with their new flag.
  function Changes(prev: map<Id, Camera>, next: seq<Camera>): map<Id, bool> {
    if next == [] then map[]
    else
      var rest := Changes(prev, next[..|next| - 1]);
      var c := next[|next| - 1];
      if c.id in prev && prev[c.id].online == c.online then rest else rest[c.id := c.online]
  }

  function Exposed(states: map<Id, bool>, allowed: Option<set<Id>>): map<Id, bool> {
    map id | id in states && IsAllowed(allowed, id) :: states[id]
  }

  // The stream addresses a bootstrap calls for.
  function TargetURLs(env: Env, boot: seq<ProtectCamera>): Lookup {
    map u | u in boot && TargetURL(env.host, u).Some? && OnlyWithId(boot, u) ::
      u.id := Entry(TargetURL(env.host, u).value, env.verifyTLS)
  }

  predicate OnlyWithId(boot: seq<ProtectCamera>, u: ProtectCamera) {
    forall v | v in boot && v.id == u.id :: v == u
  }

  function RefreshCore(env: Env, p: Plane, boot: seq<ProtectCamera>, g: nat): Plane {
    p.(cameras := NextCameras(Snapshot(p.cameras), p.onlineGen, boot, g),
    urls := TargetURLs(env, boot),
    refreshed := true)
  }

  // A refresh whose generation g was sampled before the bootstrap was fetched.
  function RefreshStep(env: Env, p: Plane, boot: seq<ProtectCamera>, g: nat, updateId: string): Plane {
    RefreshCore(env, p, boot, g).(lastUpdateId := if updateId == "" then p.lastUpdateId else updateId)
  }

  ghost predicate ExposedAdded(p: Plane, boot: seq<ProtectCamera>) {
    exists id | id in BootIds(boot) :: id !in Ids(p.cameras) && IsAllowed(p.allowed, id)
  }

  // Only a camera with a registered stream counts as removed.
  ghost predicate ExposedStreamRemoved(p: Plane, boot: seq<ProtectCamera>) {
    exists id | id in p.urls :: id !in BootIds(boot) && IsAllowed(p.allowed, id)
  }

  ghost predicate SyncFires(env: Env, p: Plane, boot: seq<ProtectCamera>) {
    env.homeGraph && p.refreshed && (ExposedAdded(p, boot) || ExposedStreamRemoved(p, boot))
  }

  function RefreshReport(p: Plane, boot: seq<ProtectCamera>, g: nat): map<Id, bool> {
    var prev := Snapshot(p.cameras);
    Exposed(Changes(prev, NextCameras(prev, p.onlineGen, boot, g)), p.allowed)
  }

  ghost function RefreshPushes(env: Env, p: Plane, boot: seq<ProtectCamera>, g: nat): seq<Push> {
    if env.homeGraph then Pushed(SyncFires(env, p, boot), RefreshReport(p, boot, g)) else []
  }

  function Pushed(sync: bool, report: map<Id, bool>): seq<Push> {
    (if sync then [RequestSync] else []) + (if report != map[] then [ReportState(report)] else [])
  }

  // ----- an allow-list edit -----

  function AllowStep(p: Plane, ids: seq<Id>): Plane {
    p.(allowed := AllowSet(ids))
  }

  // The online flags of the exposed cameras.
  function ExposedStates(cams: seq<Camera>, allowed: Option<set<Id>>): map<Id, bool> {
    if cams == [] then map[]
    else
      var rest := ExposedStates(cams[..|cams| - 1], allowed);
      var c := cams[|cams| - 1];
      if IsAllowed(allowed, c.id) then rest[c.id := c.online] else rest
  }

  // ApplyExposedCameras's pushes, with HomeGraph wired: a sync, then the state of everything exposed.
  function AllowPushes(cams: seq<Camera>, ids: seq<Id>): seq<Push> {
    Pushed(true, ExposedStates(cams, AllowSet(ids)))
  }
}
