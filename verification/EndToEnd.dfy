/** From the controller to Google's cache, with nothing done in one go (internal/bridge/reconciler.go,
    source.go, setupglue.go). The controller's history and its events are those of Rollback, the
    control state and the pushes those of ControlPlane; a refresh begins, reads, samples, handles
    one camera at a time, installs and reports in separate moves, with events and allow-list edits
    in between. Stream addresses and the event cursor, which no flag depends on, stay as they are. */
module EndToEnd {
  import opened Wrappers
  import opened Cameras
  import opened ControlPlane
  import opened ControlPlaneLaws
  import Rollback

  datatype Stage =
    | Idle
    | Fetching(g: nat)
    | Fetched(g: nat, boot: seq<ProtectCamera>, readAt: map<Id, nat>)
    | Diffing(g: nat, boot: seq<ProtectCamera>, readAt: map<Id, nat>, prev: map<Id, Camera>, next: seq<Camera>)
    | Reporting(changes: map<Id, bool>) // installed, not reported yet

  // The controller, the bridge, the pushes under way in order, and what Google has cached.
  datatype System = System(
    hist: map<Id, seq<bool>>, seen: map<Id, nat>, plane: Plane, stage: Stage, queue: seq<Push>, cache: map<Id, bool>)

  datatype Action =
    | Adopt(id: Id, online: bool)
    | Flip(id: Id, online: bool)
    | Deliver(id: Id)
    | Begin
    | Fail
    | Read(boot: seq<ProtectCamera>)
    | Sample
    | DiffNext
    | Install
    | Report(sync: bool) // with a sync request or without
    | Edit(ids: seq<Id>)
    | Arrival // the oldest push reaches Google

  // HomeGraph is wired; no flag depends on the other settings.
  const ENV := Env("", false, true)

  // The bootstrap lists cameras with their latest flags.
  predicate Reads(hist: map<Id, seq<bool>>, boot: seq<ProtectCamera>) {
    Rollback.Listed(hist, BootIds(boot)) && BootFlags(boot) == Rollback.Latest(hist, BootIds(boot))
  }

  predicate OnlineIn(boot: seq<ProtectCamera>, id: Id) {
    exists u | u in boot :: u.id == id && u.online
  }

  function BootFlags(boot: seq<ProtectCamera>): map<Id, bool> {
    map id | id in BootIds(boot) :: OnlineIn(boot, id)
  }

  predicate Enabled(w: System, a: Action) {
    match a
    case Adopt(id, _) => id !in w.hist
    case Flip(id, _) => id in w.hist
    case Deliver(id) => id in w.hist && id in w.seen && w.seen[id] + 1 < |w.hist[id]|
    case Begin => w.stage.Idle?
    case Fail => w.stage.Fetching?
    case Read(boot) => w.stage.Fetching? && Distinct(boot) && Reads(w.hist, boot)
    case Sample => w.stage.Fetched?
    case DiffNext => w.stage.Diffing? && |w.stage.next| < |w.stage.boot|
    case Install => w.stage.Diffing? && |w.stage.next| == |w.stage.boot|
    case Report(_) => w.stage.Reporting?
    case Edit(_) => true
    case Arrival => w.queue != []
  }

  function Next(w: System, a: Action): System
    requires Enabled(w, a)
  {
    match a
    case Adopt(id, online) => w.(hist := w.hist[id := [online]], seen := w.seen[id := 0])
    case Flip(id, online) => w.(hist := w.hist[id := w.hist[id] + [online]])
    case Deliver(id) =>
      var v := w.seen[id] + 1;
      var online := w.hist[id][v];
      w.(seen := w.seen[id := v], plane := EventStep(w.plane, id, online),
      queue := w.queue + EventPushes(ENV, w.plane, id, online))
    case Begin => w.(stage := Fetching(w.plane.gen))
    case Fail => w.(stage := Idle)
    case Read(boot) => w.(stage := Fetched(w.stage.g, boot, Rollback.LatestAt(w.hist, BootIds(boot))))
    case Sample => w.(stage := Diffing(w.stage.g, w.stage.boot, w.stage.readAt, Snapshot(w.plane.cameras), []))
    case DiffNext =>
      var c := NextCamera(w.stage.prev, w.plane.onlineGen, w.stage.boot[|w.stage.next|], w.stage.g);
      w.(stage := w.stage.(next := w.stage.next + [c]))
    case Install =>
      w.(plane := w.plane.(cameras := w.stage.next), stage := Reporting(Changes(w.stage.prev, w.stage.next)))
    case Report(sync) =>
      w.(stage := Idle, queue := w.queue + Pushed(sync, Exposed(w.stage.changes, w.plane.allowed)))
    case Edit(ids) =>
      w.(plane := AllowStep(w.plane, ids), queue := w.queue + AllowPushes(w.plane.cameras, ids))
    case Arrival => w.(queue := w.queue[1..], cache := Arrive(w.cache, w.queue[0]))
  }

  // A bridge that has not refreshed yet, before the controller has adopted anything.
  function Start(allowed: Option<set<Id>>, cache: map<Id, bool>): System {
    System(map[], map[], Plane([], map[], allowed, 0, map[], "", false), Idle, [], cache)
  }

  predicate Runs(w: System, run: seq<Action>)
    decreases |run|
  {
    run == [] || (Enabled(w, run[0]) && Runs(Next(w, run[0]), run[1..]))
  }

  function Run(w: System, run: seq<Action>): System
    requires Runs(w, run)
    decreases |run|
  {
    if run == [] then w else Run(Next(w, run[0]), run[1..])
  }

  // ----- what every run keeps -----

  ghost predicate Inv(w: System) {
    && WellFormed(w.plane) && w.plane.urls == map[]
    && (w.stage.Fetched? ==> Distinct(w.stage.boot))
    && (w.stage.Diffing? ==>
          && Distinct(w.stage.boot)
          && w.stage.prev.Keys == Ids(w.plane.cameras)
          && SameStart(w.stage.boot, w.stage.next))
  }

  // The diff has gone through the bootstrap up to here.
  predicate SameStart(boot: seq<ProtectCamera>, next: seq<Camera>) {
    |next| <= |boot| && forall i | 0 <= i < |next| :: next[i].id == boot[i].id
  }

  lemma DiffKeepsInv(w: System)
    requires Inv(w) && Enabled(w, DiffNext)
    ensures Inv(Next(w, DiffNext))
  {
  }

  lemma InstallKeepsInv(w: System)
    requires Inv(w) && Enabled(w, Install)
    ensures Inv(Next(w, Install))
  {
  }

  lemma StepKeepsInv(w: System, a: Action)
    requires Inv(w) && Enabled(w, a)
    ensures Inv(Next(w, a))
  {
    match a
    case Deliver(id) => EventKeepsWellFormed(w.plane, id, w.hist[id][w.seen[id] + 1]);
    case Sample => SnapshotKeys(w.plane.cameras);
    case DiffNext => DiffKeepsInv(w);
    case Install => InstallKeepsInv(w);
    case _ =>
  }

  lemma {:induction false} RunKeepsInv(w: System, run: seq<Action>)
    requires Inv(w) && Runs(w, run)
    ensures Inv(Run(w, run))
    decreases |run|
  {
    if run == [] {
    } else {
      StepKeepsInv(w, run[0]);
      RunKeepsInv(Next(w, run[0]), run[1..]);
    }
  }

  // ----- Google -----

  // The report an installation still owes.
  function Owed(w: System): map<Id, bool> {
    if w.stage.Reporting? then Exposed(w.stage.changes, w.plane.allowed) else map[]
  }

  // What Google will have cached once that and every push under way has landed.
  function Due(w: System): map<Id, bool> {
    Settled(w.cache, w.queue) + Owed(w)
  }

  ghost predicate InStep(w: System) {
    Agrees(w.plane, Due(w))
  }

  // The moves after which Google and the bridge part: an installation that gives an exposed camera back
  // the flag that was sampled and that an event has changed since; an event that flips an exposed camera
  // whose report is owed; an edit that exposes a camera whose owed report an event has outdated.
  predicate Parts(w: System, a: Action)
    requires Enabled(w, a)
  {
    match a
    case Install =>
      exists i | 0 <= i < |w.stage.next| ::
        IsAllowed(w.plane.allowed, w.stage.next[i].id) && Reverts(w.plane, w.stage.prev, w.stage.next[i])
    case Deliver(id) => Flips(w.plane, id, w.hist[id][w.seen[id] + 1]) && id in Owed(w)
    case Edit(ids) =>
      w.stage.Reporting? && exists i | 0 <= i < |w.plane.cameras| ::
        IsAllowed(AllowSet(ids), w.plane.cameras[i].id) && Outdated(w.stage.changes, w.plane.cameras[i])
    case _ => false
  }

  predicate Outdated(changes: map<Id, bool>, c: Camera) {
    c.id in changes && changes[c.id] != c.online
  }

  lemma EventLands(p: Plane, id: Id, online: bool, now: map<Id, bool>)
    ensures Settled(now, EventPushes(ENV, p, id, online))
      == if Flips(p, id, online) && IsAllowed(p.allowed, id) then now[id := online] else now
  {
    var pushes := EventPushes(ENV, p, id, online);
    if pushes != [] {
      assert pushes[1..] == [];
      assert now + map[id := online] == now[id := online];
    }
  }

  // An event while a report is owed.
  lemma EventParts(p: Plane, id: Id, online: bool, now: map<Id, bool>, owed: map<Id, bool>)
    requires WellFormed(p) && Agrees(p, now + owed) && forall x | x in owed :: IsAllowed(p.allowed, x)
    ensures Agrees(EventStep(p, id, online), Settled(now, EventPushes(ENV, p, id, online)) + owed)
      <==> !(Flips(p, id, online) && id in owed)
  {
    EventLands(p, id, online, now);
    if Flips(p, id, online) {
      FlipParts(p.cameras, Find(p.cameras, id), p.allowed, now, owed);
    }
  }

  lemma FlipParts(cams: seq<Camera>, i: nat, allowed: Option<set<Id>>, now: map<Id, bool>, owed: map<Id, bool>)
    requires DistinctIds(cams) && i < |cams| && AgreesOn(cams, allowed, now + owed)
    requires forall x | x in owed :: IsAllowed(allowed, x)
    ensures var c := cams[i].(online := !cams[i].online);
      var now' := if IsAllowed(allowed, c.id) then now[c.id := c.online] else now;
      AgreesOn(cams[i := c], allowed, now' + owed) <==> c.id !in owed
  {
    var c := cams[i].(online := !cams[i].online);
    var cams' := cams[i := c];
    assert forall j | 0 <= j < |cams| && j != i :: cams'[j] == cams[j] && cams[j].id != c.id;
    if c.id in owed {
      assert (now + owed)[c.id] == owed[c.id] == cams[i].online;
      assert cams'[i] == c;
    }
  }

  lemma DeliverParts(w: System, id: Id)
    requires Inv(w) && InStep(w) && Enabled(w, Deliver(id))
    ensures InStep(Next(w, Deliver(id))) <==> !Parts(w, Deliver(id))
  {
    var online := w.hist[id][w.seen[id] + 1];
    SettledAppend(w.cache, w.queue, EventPushes(ENV, w.plane, id, online));
    EventParts(w.plane, id, online, Settled(w.cache, w.queue), Owed(w));
    assert Owed(Next(w, Deliver(id))) == Owed(w);
  }

  lemma InstallParts(w: System)
    requires Inv(w) && InStep(w) && Enabled(w, Install)
    ensures InStep(Next(w, Install)) <==> !Parts(w, Install)
  {
    SnapshotKeys(w.plane.cameras);
    assert Due(w) == Settled(w.cache, w.queue);
    InstallAgreesExactly(w.plane, w.stage.prev, w.stage.next, Due(w));
  }

  lemma EditParts(w: System, ids: seq<Id>)
    requires Inv(w)
    ensures InStep(Next(w, Edit(ids))) <==> !Parts(w, Edit(ids))
  {
    var w', cams, allowed := Next(w, Edit(ids)), w.plane.cameras, AllowSet(ids);
    var now := Settled(w.cache, w.queue);
    SettledAppend(w.cache, w.queue, AllowPushes(cams, ids));
    SettledPushed(now, true, ExposedStates(cams, allowed));
    forall i | 0 <= i < |cams| && IsAllowed(allowed, cams[i].id)
      ensures cams[i].id in Due(w')
      ensures Due(w')[cams[i].id] == cams[i].online <==> !(w.stage.Reporting? && Outdated(w.stage.changes, cams[i]))
    {
      ExposedStatesAt(cams, allowed, i);
    }
  }

  lemma ReportIsDue(w: System, sync: bool)
    requires Enabled(w, Report(sync))
    ensures Due(Next(w, Report(sync))) == Due(w)
  {
    SettledAppend(w.cache, w.queue, Pushed(sync, Owed(w)));
    SettledPushed(Settled(w.cache, w.queue), sync, Owed(w));
  }

  // Google and the bridge part by such a move and in no other way.
  lemma PartsExactly(w: System, a: Action)
    requires Inv(w) && InStep(w) && Enabled(w, a)
    ensures InStep(Next(w, a)) <==> !Parts(w, a)
  {
    match a
    case Deliver(id) => DeliverParts(w, id);
    case Install => InstallParts(w);
    case Edit(ids) => EditParts(w, ids);
    case Report(sync) => ReportIsDue(w, sync);
    case _ => assert Next(w, a).plane == w.plane && Due(Next(w, a)) == Due(w);
  }

  ghost predicate AlwaysInStep(w: System, run: seq<Action>)
    requires Runs(w, run)
    decreases |run|
  {
    InStep(w) && (run == [] || AlwaysInStep(Next(w, run[0]), run[1..]))
  }

  predicate NeverParts(w: System, run: seq<Action>)
    requires Runs(w, run)
    decreases |run|
  {
    run == [] || (!Parts(w, run[0]) && NeverParts(Next(w, run[0]), run[1..]))
  }

  lemma {:induction false} InStepExactly(w: System, run: seq<Action>)
    requires Inv(w) && InStep(w) && Runs(w, run)
    ensures AlwaysInStep(w, run) <==> NeverParts(w, run)
    ensures NeverParts(w, run) ==> InStep(Run(w, run))
    decreases |run|
  {
    if run == [] {
    } else {
      var w' := Next(w, run[0]);
      StepKeepsInv(w, run[0]);
      PartsExactly(w, run[0]);
      if InStep(w') {
        InStepExactly(w', run[1..]);
      } else {
        assert !AlwaysInStep(w', run[1..]);
      }
    }
  }

  // Over every run with the refresh in its separate moves: Google is due to have the flag of every exposed
  // camera throughout exactly if no move parts them, and then has it once everything has landed.
  lemma GoogleFollowsExactly(allowed: Option<set<Id>>, cache: map<Id, bool>, run: seq<Action>)
    requires Runs(Start(allowed, cache), run)
    ensures AlwaysInStep(Start(allowed, cache), run) <==> NeverParts(Start(allowed, cache), run)
    ensures var w := Run(Start(allowed, cache), run);
      NeverParts(Start(allowed, cache), run) && w.queue == [] && !w.stage.Reporting? ==> Agrees(w.plane, w.cache)
  {
    InStepExactly(Start(allowed, cache), run);
    var w := Run(Start(allowed, cache), run);
    assert w.queue == [] && !w.stage.Reporting? ==> Due(w) == w.cache;
  }

  // ----- partings show -----

  lemma {:induction false} AllLand(w: System) returns (rest: seq<Action>)
    ensures Runs(w, rest) && Run(w, rest) == w.(queue := [], cache := Settled(w.cache, w.queue))
    decreases |w.queue|
  {
    if w.queue == [] {
      rest := [];
    } else {
      var tail := AllLand(Next(w, Arrival));
      rest := [Arrival] + tail;
      assert rest[1..] == tail;
    }
  }

  // After a move that parts them, once the rest has landed, Google shows some exposed camera wrong.
  lemma PartingShows(w: System, a: Action) returns (rest: seq<Action>)
    requires Inv(w) && InStep(w) && Enabled(w, a) && Parts(w, a)
    ensures Runs(Next(w, a), rest)
    ensures var end := Run(Next(w, a), rest);
      end.plane == Next(w, a).plane && end.queue == [] && !end.stage.Reporting? && !Agrees(end.plane, end.cache)
  {
    var w' := Next(w, a);
    PartsExactly(w, a);
    if w'.stage.Reporting? {
      ReportIsDue(w', false);
      var tail := AllLand(Next(w', Report(false)));
      rest := [Report(false)] + tail;
      assert rest[1..] == tail;
    } else {
      rest := AllLand(w');
    }
  }

  // ----- the flags, as in Rollback -----

  lemma BootFlagsAt(boot: seq<ProtectCamera>, u: ProtectCamera)
    requires Distinct(boot) && u in boot
    ensures u.id in BootFlags(boot) && BootFlags(boot)[u.id] == u.online
  {
  }

  function FlatStage(s: Stage): Rollback.Phase {
    match s
    case Idle => Rollback.Idle
    case Fetching(g) => Rollback.Fetching(g)
    case Fetched(g, boot, readAt) => Rollback.Fetched(g, BootFlags(boot), readAt)
    case Diffing(g, boot, readAt, prev, next) =>
      Rollback.Diffing(g, BootFlags(boot), readAt, Rollback.Onlines(prev), Rollback.Onlines(Snapshot(next)))
    case Reporting(_) => Rollback.Idle
  }

  function Flat(w: System): Rollback.World {
    Rollback.World(w.hist, w.seen, Rollback.Flags(w.plane), FlatStage(w.stage))
  }

  // What a move is there: one step, or nothing.
  function Steps(w: System, a: Action): (steps: seq<Rollback.Step>)
    requires Enabled(w, a)
    ensures |steps| <= 1
  {
    match a
    case Adopt(id, online) => [Rollback.Adopt(id, online)]
    case Flip(id, online) => [Rollback.Flip(id, online)]
    case Deliver(id) => [Rollback.Deliver(id)]
    case Begin => [Rollback.Begin]
    case Fail => [Rollback.Fail]
    case Read(boot) => [Rollback.Read(BootIds(boot))]
    case Sample => [Rollback.Sample]
    case DiffNext => [Rollback.DiffOne(w.stage.boot[|w.stage.next|].id)]
    case Install => [Rollback.Install]
    case _ => []
  }

  ghost predicate Refines(w: System, a: Action)
    requires Enabled(w, a) && Steps(w, a) != []
  {
    Rollback.Enabled(Flat(w), Steps(w, a)[0]) && Flat(Next(w, a)) == Rollback.Next(Flat(w), Steps(w, a)[0])
  }

  lemma DiffRefines(w: System)
    requires Inv(w) && Enabled(w, DiffNext)
    ensures Refines(w, DiffNext)
  {
    var s := w.stage;
    var n, u := |s.next|, s.boot[|s.next|];
    var c := NextCamera(s.prev, w.plane.onlineGen, u, s.g);
    BootFlagsAt(s.boot, u);
    Rollback.FlagOfNext(s.prev, w.plane.onlineGen, u, s.g);
    assert u.id !in Snapshot(s.next) by {
      SnapshotKeys(s.next);
    }
    assert (s.next + [c])[..n] == s.next;
    Rollback.OnlinesUpdate(Snapshot(s.next), c);
  }

  lemma InstallRefines(w: System)
    requires Inv(w) && Enabled(w, Install)
    ensures Refines(w, Install)
  {
    SnapshotKeys(w.stage.next);
    IdsByIndex(w.stage.boot, w.stage.next);
  }

  lemma SampleRefines(w: System)
    requires Enabled(w, Sample)
    ensures Refines(w, Sample)
  {
    assert Rollback.Onlines(Snapshot([])) == map[];
  }

  lemma DeliverRefines(w: System, id: Id)
    requires Inv(w) && Enabled(w, Deliver(id))
    ensures Refines(w, Deliver(id))
  {
    var w', online := Next(w, Deliver(id)), w.hist[id][w.seen[id] + 1];
    assert Rollback.Flags(w'.plane) == Rollback.Observe(Rollback.Flags(w.plane), id, online) by {
      Rollback.EventRefines(w.plane, id, online);
    }
    assert FlatStage(w'.stage) == FlatStage(w.stage);
  }

  // The moves that are the same there as here.
  lemma SameThere(w: System, a: Action)
    requires Enabled(w, a) && (a.Adopt? || a.Flip? || a.Begin? || a.Fail? || a.Read?)
    ensures Refines(w, a)
  {
  }

  lemma MoveRefines(w: System, a: Action)
    requires Inv(w) && Enabled(w, a) && Steps(w, a) != []
    ensures Refines(w, a)
  {
    match a
    case Deliver(id) => DeliverRefines(w, id);
    case Sample => SampleRefines(w);
    case DiffNext => DiffRefines(w);
    case Install => InstallRefines(w);
    case _ => SameThere(w, a);
  }

  // The other moves change nothing there.
  lemma Stutters(w: System, a: Action)
    requires Enabled(w, a) && Steps(w, a) == []
    ensures Flat(Next(w, a)) == Flat(w)
  {
  }

  function Trace(w: System, run: seq<Action>): seq<Rollback.Step>
    requires Runs(w, run)
    decreases |run|
  {
    if run == [] then [] else Steps(w, run[0]) + Trace(Next(w, run[0]), run[1..])
  }

  // Every run here is a run there.
  lemma {:induction false} RunRefines(w: System, run: seq<Action>)
    requires Inv(w) && Runs(w, run)
    ensures Rollback.Runs(Flat(w), Trace(w, run)) && Rollback.Run(Flat(w), Trace(w, run)) == Flat(Run(w, run))
    decreases |run|
  {
    if run == [] {
    } else {
      var w', s := Next(w, run[0]), Steps(w, run[0]);
      StepKeepsInv(w, run[0]);
      RunRefines(w', run[1..]);
      if s == [] {
        Stutters(w, run[0]);
        assert s + Trace(w', run[1..]) == Trace(w', run[1..]);
      } else {
        MoveRefines(w, run[0]);
        assert s[1..] == [] && Rollback.Runs(Flat(w'), []);
        Rollback.Glue(Flat(w), s, Flat(w'), Trace(w', run[1..]));
      }
    }
  }

  // No delivery of the run is lost to a refresh under way.
  predicate Lossless(w: System, run: seq<Action>)
    requires Runs(w, run)
    decreases |run|
  {
    run == [] ||
    ((run[0].Deliver? ==> !Rollback.Loses(Flat(w), Rollback.Deliver(run[0].id)))
     && Lossless(Next(w, run[0]), run[1..]))
  }

  lemma {:induction false} LosslessThere(w: System, run: seq<Action>)
    requires Inv(w) && Runs(w, run) && Lossless(w, run)
    ensures Rollback.Runs(Flat(w), Trace(w, run)) && Rollback.Lossless(Flat(w), Trace(w, run))
    decreases |run|
  {
    RunRefines(w, run);
    if run == [] {
    } else {
      var w', s := Next(w, run[0]), Steps(w, run[0]);
      StepKeepsInv(w, run[0]);
      LosslessThere(w', run[1..]);
      if s == [] {
        Stutters(w, run[0]);
        assert s + Trace(w', run[1..]) == Trace(w', run[1..]);
      } else {
        MoveRefines(w, run[0]);
        assert Trace(w, run)[1..] == Trace(w', run[1..]);
      }
    }
  }

  lemma StartIsStart(allowed: Option<set<Id>>, cache: map<Id, bool>)
    ensures Inv(Start(allowed, cache)) && InStep(Start(allowed, cache))
    ensures Flat(Start(allowed, cache)) == Rollback.START
  {
  }

  // From the controller to Google: in a run that loses no delivery and never parts, once every event has
  // been delivered and every push has landed, Google has the controller's flag of every exposed camera.
  lemma GoogleShowsController(allowed: Option<set<Id>>, cache: map<Id, bool>, run: seq<Action>)
    requires Runs(Start(allowed, cache), run)
    requires Lossless(Start(allowed, cache), run) && NeverParts(Start(allowed, cache), run)
    ensures var w := Run(Start(allowed, cache), run);
      w.queue == [] && !w.stage.Reporting? ==>
        forall i | 0 <= i < |w.plane.cameras| && IsAllowed(w.plane.allowed, w.plane.cameras[i].id) ::
          var id := w.plane.cameras[i].id;
          && id in w.hist && id in w.seen && w.seen[id] < |w.hist[id]| && id in w.cache
          && (w.seen[id] == |w.hist[id]| - 1 ==> w.cache[id] == w.hist[id][w.seen[id]])
  {
    var start := Start(allowed, cache);
    var w := Run(start, run);
    StartIsStart(allowed, cache);
    GoogleFollowsExactly(allowed, cache, run);
    RunKeepsInv(start, run);
    RunRefines(start, run);
    LosslessThere(start, run);
    Rollback.NoStaleRollback(Trace(start, run));
    forall i | 0 <= i < |w.plane.cameras|
      ensures w.plane.cameras[i].id in Flat(w).src.online
      ensures Flat(w).src.online[w.plane.cameras[i].id] == w.plane.cameras[i].online
    {
      SnapshotAt(w.plane.cameras, i);
    }
  }

  // ----- losing no delivery is not enough -----

  // One move of a run, at which nothing can be lost.
  ghost predicate Leads(w: System, a: Action, w': System) {
    Enabled(w, a) && w' == Next(w, a) && (a.Deliver? ==> w.stage.Idle? || w.stage.Reporting?)
  }

  lemma {:induction false} Follow(ws: seq<System>, run: seq<Action>)
    requires |ws| == |run| + 1 && forall i | 0 <= i < |run| :: Leads(ws[i], run[i], ws[i + 1])
    ensures Runs(ws[0], run) && Run(ws[0], run) == ws[|run|] && Lossless(ws[0], run)
    decreases |run|
  {
    if run != [] {
      assert Leads(ws[0], run[0], ws[1]);
      Follow(ws[1..], run[1..]);
    }
  }

  lemma {:induction false} Glue(w: System, first: seq<Action>, mid: System, rest: seq<Action>)
    requires Runs(w, first) && Run(w, first) == mid && Lossless(w, first) && Runs(mid, rest) && Lossless(mid, rest)
    ensures Runs(w, first + rest) && Run(w, first + rest) == Run(mid, rest) && Lossless(w, first + rest)
    decreases |first|
  {
    if first == [] {
      assert first + rest == rest;
    } else {
      assert (first + rest)[1..] == first[1..] + rest;
      Glue(Next(w, first[0]), first[1..], mid, rest);
    }
  }

  const BOOT := [ProtectCamera("c", "Front", "G4", true, [])]

  function Shown(online: bool): Camera {
    Camera("c", "Front", "Ubiquiti", "G4", online)
  }

  const UP := Plane([Shown(true)], map[], None, 0, map[], "", false)
  const DOWN := Plane([Shown(false)], map[], None, 1, map["c" := 1], "", false)

  const ADD := [Adopt("c", true), Begin, Read(BOOT), Sample, DiffNext, Install]
  const GO_DOWN := [Flip("c", false), Deliver("c"), Report(false), Arrival, Arrival]

  // The camera has been refreshed in; its report is still owed.
  const ADDED := System(map["c" := [true]], map["c" := 0], UP, Reporting(map["c" := true]), [], map[])

  // The camera went offline and the bridge was told, yet Google has it online.
  const WRONG := System(map["c" := [true, false]], map["c" := 1], DOWN, Idle, [], map["c" := true])

  const AT: map<Id, nat> := map["c" := 0]

  lemma ReadStep(w: System)
    requires w.hist == map["c" := [true]] && w.stage == Fetching(0)
    ensures Leads(w, Read(BOOT), w.(stage := Fetched(0, BOOT, AT)))
  {
    assert BOOT[0] in BOOT;
    BootFlagsAt(BOOT, BOOT[0]);
    assert BootIds(BOOT) == {"c"};
    assert Rollback.LatestAt(w.hist, BootIds(BOOT)) == AT;
  }

  lemma DiffStep(w: System)
    requires w.stage == Diffing(0, BOOT, AT, map[], []) && w.plane.onlineGen == map[]
    ensures Leads(w, DiffNext, w.(stage := Diffing(0, BOOT, AT, map[], [Shown(true)])))
  {
    assert NextCamera(map[], map[], BOOT[0], 0) == Shown(true);
    assert [] + [Shown(true)] == [Shown(true)];
  }

  lemma InstallStep(w: System)
    requires w.stage == Diffing(0, BOOT, AT, map[], [Shown(true)])
    ensures Leads(w, Install, w.(plane := w.plane.(cameras := [Shown(true)]), stage := Reporting(map["c" := true])))
  {
    assert [Shown(true)][..0] == [];
    assert Changes(map[], [Shown(true)]) == map["c" := true];
  }

  lemma ReportStep(w: System)
    requires w.stage == Reporting(map["c" := true]) && w.plane.allowed == None
    ensures Leads(w, Report(false), w.(stage := Idle, queue := w.queue + [ReportState(map["c" := true])]))
  {
    var report: map<Id, bool> := map["c" := true];
    assert Exposed(report, None) == report && "c" in report;
  }

  lemma ArrivalStep(w: System, online: bool, rest: seq<Push>)
    requires w.queue == [ReportState(map["c" := online])] + rest && w.cache.Keys <= {"c"}
    ensures Leads(w, Arrival, w.(queue := rest, cache := map["c" := online]))
  {
    assert w.cache + map["c" := online] == map["c" := online];
  }

  lemma DownStep(w: System)
    requires w.hist == map["c" := [true, false]] && w.seen == AT && w.plane == UP && w.stage.Reporting?
    ensures Leads(w, Deliver("c"),
      w.(seen := map["c" := 1], plane := DOWN, queue := w.queue + [ReportState(map["c" := false])]))
  {
    assert Find(UP.cameras, "c") == 0;
    assert UP.cameras[0 := Shown(false)] == DOWN.cameras;
    assert AT["c" := 1] == map["c" := 1];
  }

  lemma AddedIsReached()
    ensures Runs(Start(None, map[]), ADD) && Run(Start(None, map[]), ADD) == ADDED && Lossless(Start(None, map[]), ADD)
  {
    var w0 := Start(None, map[]);
    var w1 := w0.(hist := map["c" := [true]], seen := AT);
    var w2 := w1.(stage := Fetching(0));
    var w3 := w1.(stage := Fetched(0, BOOT, AT));
    ReadStep(w2);
    var w4 := w1.(stage := Diffing(0, BOOT, AT, map[], []));
    var w5 := w1.(stage := Diffing(0, BOOT, AT, map[], [Shown(true)]));
    DiffStep(w4);
    InstallStep(w5);
    assert Leads(w0, ADD[0], w1) && Leads(w1, Begin, w2) && Leads(w3, Sample, w4);
    Follow([w0, w1, w2, w3, w4, w5, ADDED], ADD);
  }

  lemma DownAfterAdding()
    ensures Runs(ADDED, GO_DOWN) && Run(ADDED, GO_DOWN) == WRONG && Lossless(ADDED, GO_DOWN)
  {
    var pushDown, pushUp := ReportState(map["c" := false]), ReportState(map["c" := true]);
    var w1 := ADDED.(hist := WRONG.hist);
    assert [true] + [false] == [true, false] && ADDED.hist["c" := [true, false]] == WRONG.hist;
    DownStep(w1);
    var w2 := w1.(seen := WRONG.seen, plane := DOWN, queue := [pushDown]);
    ReportStep(w2);
    var w3 := w2.(stage := Idle, queue := [pushDown, pushUp]);
    ArrivalStep(w3, false, [pushUp]);
    var w4 := w3.(queue := [pushUp], cache := map["c" := false]);
    ArrivalStep(w4, true, []);
    assert Leads(ADDED, GO_DOWN[0], w1);
    Follow([ADDED, w1, w2, w3, w4, WRONG], GO_DOWN);
  }

  // The camera goes offline before the report that it was added is sent: no delivery is lost, every event
  // has been delivered and every push has landed, and Google has it online.
  lemma LosslessIsNotEnough()
    ensures Runs(Start(None, map[]), ADD + GO_DOWN) && Lossless(Start(None, map[]), ADD + GO_DOWN)
    ensures Run(Start(None, map[]), ADD + GO_DOWN) == WRONG
    ensures WRONG.seen["c"] == |WRONG.hist["c"]| - 1 && IsAllowed(WRONG.plane.allowed, "c")
      && WRONG.cache["c"] != WRONG.hist["c"][WRONG.seen["c"]]
  {
    AddedIsReached();
    DownAfterAdding();
    Glue(Start(None, map[]), ADD, ADDED, GO_DOWN);
  }
}
