/** Stale snapshots against live events, step by step (internal/bridge/reconciler.go, source.go).
    The controller's connectivity history of a camera is a sequence of flags; the WebSocket
    delivers its entries in order; a bootstrap is read at some moment after the generation was
    sampled; the diff then samples the snapshot, handles one camera at a time and installs the
    result. Every step is what the source does under one lock, any two steps may interleave,
    and only one refresh is under way at a time. Of a camera only its online flag is kept:
    EventRefines and RefreshRefines tie this view to ControlPlane. */
module Rollback {
  import opened Wrappers
  import opened Cameras
  import opened ControlPlane

  // The snapshot's flags, the generation, and the generation of each camera's last flip.
  datatype Source = Source(online: map<Id, bool>, gen: nat, stamp: map<Id, nat>)

  datatype Phase =
    | Idle
    | Fetching(g: nat)
    | Fetched(g: nat, boot: map<Id, bool>, readAt: map<Id, nat>)
    | Diffing(g: nat, boot: map<Id, bool>, readAt: map<Id, nat>, prev: map<Id, bool>, next: map<Id, bool>)

  // hist: each camera's flags since the controller adopted it; seen: the version of the last delivered event.
  datatype World = World(hist: map<Id, seq<bool>>, seen: map<Id, nat>, src: Source, phase: Phase)

  datatype Step =
    | Adopt(id: Id, online: bool)
    | Flip(id: Id, online: bool) // or a repetition of the current flag
    | Deliver(id: Id)
    | Begin
    | Fail
    | Read(ids: set<Id>) // which cameras the controller lists
    | Sample
    | DiffOne(id: Id)
    | Install

  // setOnline.
  function Observe(s: Source, id: Id, online: bool): Source {
    if id in s.online && s.online[id] != online
    then Source(s.online[id := online], s.gen + 1, s.stamp[id := s.gen + 1])
    else s
  }

  // The flag a refresh gives a camera.
  function NextFlag(prev: map<Id, bool>, stamp: map<Id, nat>, id: Id, read: bool, g: nat): bool {
    if id in prev && ChangedSince(stamp, id, g) then prev[id] else read
  }

  predicate Listed(hist: map<Id, seq<bool>>, ids: set<Id>) {
    forall id | id in ids :: id in hist && hist[id] != []
  }

  // What a bootstrap says of the cameras it lists, and which versions those are.
  function Latest(hist: map<Id, seq<bool>>, ids: set<Id>): map<Id, bool>
    requires Listed(hist, ids)
  {
    map id | id in ids :: hist[id][|hist[id]| - 1]
  }

  function LatestAt(hist: map<Id, seq<bool>>, ids: set<Id>): map<Id, nat>
    requires Listed(hist, ids)
  {
    map id | id in ids :: |hist[id]| - 1
  }

  predicate Enabled(w: World, s: Step) {
    match s
    case Adopt(id, _) => id !in w.hist
    case Flip(id, _) => id in w.hist
    case Deliver(id) => id in w.hist && id in w.seen && w.seen[id] + 1 < |w.hist[id]|
    case Begin => w.phase.Idle?
    case Fail => w.phase.Fetching?
    case Read(ids) => w.phase.Fetching? && Listed(w.hist, ids)
    case Sample => w.phase.Fetched?
    case DiffOne(id) => w.phase.Diffing? && id in w.phase.boot && id !in w.phase.next
    case Install => w.phase.Diffing? && w.phase.next.Keys == w.phase.boot.Keys
  }

  function Next(w: World, s: Step): World
    requires Enabled(w, s)
  {
    match s
    case Adopt(id, online) => w.(hist := w.hist[id := [online]], seen := w.seen[id := 0])
    case Flip(id, online) => w.(hist := w.hist[id := w.hist[id] + [online]])
    case Deliver(id) =>
      var v := w.seen[id] + 1;
      w.(seen := w.seen[id := v], src := Observe(w.src, id, w.hist[id][v]))
    case Begin => w.(phase := Fetching(w.src.gen))
    case Fail => w.(phase := Idle)
    case Read(ids) => w.(phase := Fetched(w.phase.g, Latest(w.hist, ids), LatestAt(w.hist, ids)))
    case Sample => w.(phase := Diffing(w.phase.g, w.phase.boot, w.phase.readAt, w.src.online, map[]))
    case DiffOne(id) =>
      var flag := NextFlag(w.phase.prev, w.src.stamp, id, w.phase.boot[id], w.phase.g);
      w.(phase := w.phase.(next := w.phase.next[id := flag]))
    case Install => w.(src := w.src.(online := w.phase.next), phase := Idle)
  }

  const START := World(map[], map[], Source(map[], 0, map[]), Idle)

  predicate Runs(w: World, steps: seq<Step>)
    decreases |steps|
  {
    steps == [] || (Enabled(w, steps[0]) && Runs(Next(w, steps[0]), steps[1..]))
  }

  function Run(w: World, steps: seq<Step>): World
    requires Runs(w, steps)
    decreases |steps|
  {
    if steps == [] then w else Run(Next(w, steps[0]), steps[1..])
  }

  // ----- the promise -----

  // The flag is one the controller had at some version no older than the last delivered event.
  ghost predicate FreshFlag(h: seq<bool>, seen: nat, online: bool) {
    exists v | seen <= v < |h| :: h[v] == online
  }

  ghost predicate FreshAt(w: World, id: Id) {
    id in w.src.online && id in w.hist && id in w.seen ==> FreshFlag(w.hist[id], w.seen[id], w.src.online[id])
  }

  ghost predicate AllFresh(w: World) {
    forall id | id in w.src.online :: FreshAt(w, id)
  }

  // None of the events still to be delivered has this flag.
  predicate Outdated(w: World, id: Id, flag: bool)
    requires id in w.hist && id in w.seen
  {
    forall v | w.seen[id] < v < |w.hist[id]| :: w.hist[id][v] != flag
  }

  // The flag a refresh sticks to whatever event arrives now: for a camera that is being added the one
  // read; after the sampling the one settled by the diff, else the one sampled, else the one read.
  predicate Sticks(w: World, id: Id) {
    || (w.phase.Fetched? && id in w.phase.boot && id !in w.src.online)
    || (w.phase.Diffing? && id in w.phase.boot)
  }

  function Stuck(w: World, id: Id): bool
    requires Sticks(w, id)
  {
    if w.phase.Fetched? then w.phase.boot[id]
    else if id in w.phase.next then w.phase.next[id]
    else if id in w.phase.prev then w.phase.prev[id]
    else w.phase.boot[id]
  }

  // The deliveries a refresh under way overrules: it sticks to a flag that neither the event nor a later one has.
  predicate Loses(w: World, s: Step) {
    s.Deliver? && Enabled(w, s) && Sticks(w, s.id) && Outdated(w, s.id, Stuck(w, s.id))
  }

  predicate Lossless(w: World, steps: seq<Step>)
    requires Runs(w, steps)
    decreases |steps|
  {
    steps == [] || (!Loses(w, steps[0]) && Lossless(Next(w, steps[0]), steps[1..]))
  }

  // ----- what every run keeps -----

  ghost predicate Inv(w: World) {
    && w.seen.Keys == w.hist.Keys
    && (forall id | id in w.hist :: w.seen[id] < |w.hist[id]|)
    && w.src.online.Keys <= w.hist.Keys
    && (forall id | id in w.src.stamp :: w.src.stamp[id] <= w.src.gen)
    && PhaseInv(w)
  }

  ghost predicate PhaseInv(w: World) {
    match w.phase
    case Idle => true
    case Fetching(g) => g <= w.src.gen && Caught(w, g)
    case Fetched(g, boot, readAt) => g <= w.src.gen && Caught(w, g) && ReadInv(w, boot, readAt)
    case Diffing(g, boot, readAt, prev, next) =>
      && g <= w.src.gen
      && ReadInv(w, boot, readAt)
      && prev.Keys == w.src.online.Keys
      && next.Keys <= boot.Keys
  }

  // A camera flipped by an event since the sampling shows the last delivered event.
  ghost predicate Caught(w: World, g: nat) {
    forall id | id in w.src.online && id in w.hist && id in w.seen && ChangedSince(w.src.stamp, id, g) ::
      w.seen[id] < |w.hist[id]| && w.src.online[id] == w.hist[id][w.seen[id]]
  }

  ghost predicate ReadInv(w: World, boot: map<Id, bool>, readAt: map<Id, nat>) {
    && readAt.Keys == boot.Keys
    && boot.Keys <= w.hist.Keys
    && forall id | id in boot :: readAt[id] < |w.hist[id]| && boot[id] == w.hist[id][readAt[id]]
  }

  lemma DeliverKeepsInv(w: World, id: Id)
    requires Inv(w) && Enabled(w, Deliver(id))
    ensures Inv(Next(w, Deliver(id)))
  {
    var w' := Next(w, Deliver(id));
    assert w'.hist == w.hist && w'.src.online.Keys == w.src.online.Keys && w'.src.gen >= w.src.gen;
    assert forall x | x in w.src.stamp && x != id :: w'.src.stamp[x] == w.src.stamp[x];
    assert PhaseInv(w') by {
      if w.phase.Fetching? || w.phase.Fetched? {
        assert Caught(w', w.phase.g);
      }
    }
  }

  // A history that grows leaves what was read and what was caught alone.
  lemma GrowthKeepsPhase(w: World, w': World)
    requires PhaseInv(w) && w' == w.(hist := w'.hist) && w.hist.Keys <= w'.hist.Keys
    requires w.src.online.Keys <= w.hist.Keys && w.seen.Keys == w.hist.Keys
    requires forall id | id in w.hist :: w.hist[id] <= w'.hist[id]
    ensures PhaseInv(w')
  {
  }

  lemma FlipKeepsInv(w: World, id: Id, online: bool)
    requires Inv(w) && Enabled(w, Flip(id, online))
    ensures Inv(Next(w, Flip(id, online)))
  {
    GrowthKeepsPhase(w, Next(w, Flip(id, online)));
  }

  lemma AdoptKeepsInv(w: World, id: Id, online: bool)
    requires Inv(w) && Enabled(w, Adopt(id, online))
    ensures Inv(Next(w, Adopt(id, online)))
  {
    var w' := Next(w, Adopt(id, online));
    assert forall x | x in w.hist :: w'.hist[x] == w.hist[x] && w'.seen[x] == w.seen[x];
  }

  lemma RefreshKeepsInv(w: World, s: Step)
    requires Inv(w) && Enabled(w, s) && !s.Adopt? && !s.Flip? && !s.Deliver?
    ensures Inv(Next(w, s))
  {
  }

  lemma StepKeepsInv(w: World, s: Step)
    requires Inv(w) && Enabled(w, s)
    ensures Inv(Next(w, s))
  {
    match s
    case Adopt(id, online) => AdoptKeepsInv(w, id, online);
    case Flip(id, online) => FlipKeepsInv(w, id, online);
    case Deliver(id) => DeliverKeepsInv(w, id);
    case _ => RefreshKeepsInv(w, s);
  }

  // ----- what lossless runs keep on top -----

  predicate Refreshing(w: World, id: Id) {
    (w.phase.Fetched? || w.phase.Diffing?) && id in w.phase.boot
  }

  // The flag the refresh will install if no further event arrives.
  function Plan(w: World, id: Id): bool
    requires Refreshing(w, id)
  {
    if w.phase.Fetched? then NextFlag(w.src.online, w.src.stamp, id, w.phase.boot[id], w.phase.g)
    else if id in w.phase.next then w.phase.next[id]
    else NextFlag(w.phase.prev, w.src.stamp, id, w.phase.boot[id], w.phase.g)
  }

  // Of a camera shown, not flipped since the generation was sampled: what was read fits what is shown.
  ghost predicate Covered(h: seq<bool>, seen: nat, k: nat, shown: bool)
    requires k < |h|
  {
    if seen <= k then FreshFlag(h[..k + 1], seen, shown) else h[k] == shown
  }

  ghost predicate Safe(w: World)
    requires Inv(w)
  {
    forall id | id in w.hist :: SafeAt(w, id)
  }

  ghost predicate SafeAt(w: World, id: Id)
    requires Inv(w) && id in w.hist
  {
    FreshAt(w, id) && (Refreshing(w, id) ==> PlanSafe(w, id))
  }

  ghost predicate PlanSafe(w: World, id: Id)
    requires Inv(w) && id in w.hist && Refreshing(w, id)
  {
    && FreshFlag(w.hist[id], w.seen[id], Plan(w, id))
    && (id in w.src.online && !ChangedSince(w.src.stamp, id, w.phase.g) ==>
          && Covered(w.hist[id], w.seen[id], w.phase.readAt[id], w.src.online[id])
          && (w.phase.Diffing? ==> w.phase.prev[id] == w.src.online[id]))
  }

  // A step that leaves everything about one camera alone leaves its safety alone.
  lemma SafeElsewhere(w: World, w': World, id: Id)
    requires Inv(w) && Inv(w') && w'.phase == w.phase && id in w.hist && id in w'.hist
    requires w'.hist[id] == w.hist[id] && w'.seen[id] == w.seen[id]
    requires id in w'.src.online <==> id in w.src.online
    requires id in w.src.online ==> w'.src.online[id] == w.src.online[id]
    requires id in w'.src.stamp <==> id in w.src.stamp
    requires id in w.src.stamp ==> w'.src.stamp[id] == w.src.stamp[id]
    requires SafeAt(w, id)
    ensures SafeAt(w', id)
  {
  }

  lemma CoveredStep(h: seq<bool>, seen: nat, k: nat)
    requires k < |h| && seen + 1 < |h| && Covered(h, seen, k, h[seen + 1])
    ensures Covered(h, seen + 1, k, h[seen + 1])
  {
    if seen + 1 <= k {
      assert h[..k + 1][seen + 1] == h[seen + 1];
    }
  }

  // Whether the refresh will still install a fresh flag once the next event has been delivered.
  lemma DeliveryDecides(w: World, id: Id)
    requires Inv(w) && id in w.hist && SafeAt(w, id) && Enabled(w, Deliver(id)) && Refreshing(w, id)
    ensures Refreshing(Next(w, Deliver(id)), id)
    ensures FreshFlag(w.hist[id], w.seen[id] + 1, Plan(Next(w, Deliver(id)), id)) <==> !Loses(w, Deliver(id))
  {
    var h, v, k := w.hist[id], w.seen[id] + 1, w.phase.readAt[id];
    var w' := Next(w, Deliver(id));
    assert Outdated(w, id, Plan(w', id)) <==> !FreshFlag(h, v, Plan(w', id));
    if id in w.src.online && w.src.online[id] == h[v] && !ChangedSince(w.src.stamp, id, w.phase.g) {
      CoveredStep(h, v - 1, k);
      assert h[k] == w.phase.boot[id];
    }
  }

  lemma DeliverKeepsSafeHere(w: World, id: Id)
    requires Inv(w) && id in w.hist && SafeAt(w, id) && Enabled(w, Deliver(id)) && !Loses(w, Deliver(id))
    requires Inv(Next(w, Deliver(id)))
    ensures SafeAt(Next(w, Deliver(id)), id)
  {
    var h, v := w.hist[id], w.seen[id] + 1;
    var w' := Next(w, Deliver(id));
    assert FreshAt(w', id) by {
      assert id in w.src.online ==> w'.src.online[id] == h[v];
    }
    if Refreshing(w, id) {
      DeliveryDecides(w, id);
      DeliverKeepsCover(w, id);
      assert PlanSafe(w', id);
    }
  }

  // A delivery that does not flip the camera shown leaves it covered.
  lemma DeliverKeepsCover(w: World, id: Id)
    requires Inv(w) && id in w.hist && SafeAt(w, id) && Enabled(w, Deliver(id)) && Refreshing(w, id)
    ensures var w' := Next(w, Deliver(id));
      id in w.src.online && !ChangedSince(w'.src.stamp, id, w.phase.g) ==>
        && !ChangedSince(w.src.stamp, id, w.phase.g) && w'.src.online[id] == w.src.online[id]
        && Covered(w.hist[id], w.seen[id] + 1, w.phase.readAt[id], w.src.online[id])
  {
    var h, v := w.hist[id], w.seen[id] + 1;
    var w' := Next(w, Deliver(id));
    if id in w.src.online && !ChangedSince(w'.src.stamp, id, w.phase.g) {
      assert w.src.online[id] == h[v];
      CoveredStep(h, v - 1, w.phase.readAt[id]);
    }
  }

  lemma DeliverKeepsSafe(w: World, id: Id)
    requires Inv(w) && Safe(w) && Enabled(w, Deliver(id)) && !Loses(w, Deliver(id))
    ensures Inv(Next(w, Deliver(id))) && Safe(Next(w, Deliver(id)))
  {
    var w' := Next(w, Deliver(id));
    DeliverKeepsInv(w, id);
    forall x | x in w'.hist
      ensures SafeAt(w', x)
    {
      assert SafeAt(w, x);
      if x != id {
        SafeElsewhere(w, w', x);
      } else {
        DeliverKeepsSafeHere(w, id);
      }
    }
  }

  lemma FreshExtends(h: seq<bool>, next: bool, seen: nat, flag: bool)
    requires FreshFlag(h, seen, flag)
    ensures FreshFlag(h + [next], seen, flag)
  {
    var v :| seen <= v < |h| && h[v] == flag;
    assert (h + [next])[v] == flag;
  }

  lemma CoveredExtends(h: seq<bool>, next: bool, seen: nat, k: nat, shown: bool)
    requires k < |h| && Covered(h, seen, k, shown)
    ensures Covered(h + [next], seen, k, shown)
  {
    assert (h + [next])[..k + 1] == h[..k + 1];
  }

  lemma FlipKeepsPlan(w: World, id: Id, online: bool)
    requires Inv(w) && Enabled(w, Flip(id, online)) && Inv(Next(w, Flip(id, online)))
    requires Refreshing(w, id) && PlanSafe(w, id)
    ensures PlanSafe(Next(w, Flip(id, online)), id)
  {
    FreshExtends(w.hist[id], online, w.seen[id], Plan(w, id));
    if id in w.src.online && !ChangedSince(w.src.stamp, id, w.phase.g) {
      CoveredExtends(w.hist[id], online, w.seen[id], w.phase.readAt[id], w.src.online[id]);
    }
  }

  lemma FlipKeepsSafeHere(w: World, id: Id, online: bool)
    requires Inv(w) && Enabled(w, Flip(id, online)) && Inv(Next(w, Flip(id, online))) && SafeAt(w, id)
    ensures SafeAt(Next(w, Flip(id, online)), id)
  {
    if id in w.src.online {
      FreshExtends(w.hist[id], online, w.seen[id], w.src.online[id]);
    }
    if Refreshing(w, id) {
      FlipKeepsPlan(w, id, online);
    }
  }

  lemma FlipKeepsSafe(w: World, id: Id, online: bool)
    requires Inv(w) && Safe(w) && Enabled(w, Flip(id, online))
    ensures Inv(Next(w, Flip(id, online))) && Safe(Next(w, Flip(id, online)))
  {
    var w' := Next(w, Flip(id, online));
    FlipKeepsInv(w, id, online);
    forall x | x in w'.hist
      ensures SafeAt(w', x)
    {
      assert SafeAt(w, x);
      if x != id {
        SafeElsewhere(w, w', x);
      } else {
        FlipKeepsSafeHere(w, id, online);
      }
    }
  }

  lemma ReadKeepsSafe(w: World, ids: set<Id>)
    requires Inv(w) && Safe(w) && Enabled(w, Read(ids))
    ensures Inv(Next(w, Read(ids))) && Safe(Next(w, Read(ids)))
  {
    var w' := Next(w, Read(ids));
    StepKeepsInv(w, Read(ids));
    forall id | id in w'.hist
      ensures SafeAt(w', id)
    {
      assert SafeAt(w, id);
      if id in ids {
        var h := w.hist[id];
        assert h[..|h|] == h && h[|h| - 1] == w'.phase.boot[id];
      }
    }
  }

  lemma InstallKeepsSafe(w: World)
    requires Inv(w) && Safe(w) && Enabled(w, Install)
    ensures Inv(Next(w, Install)) && Safe(Next(w, Install))
  {
    var w' := Next(w, Install);
    StepKeepsInv(w, Install);
    forall id | id in w'.hist
      ensures SafeAt(w', id)
    {
      assert SafeAt(w, id);
    }
  }

  lemma AdoptKeepsSafe(w: World, id: Id, online: bool)
    requires Inv(w) && Safe(w) && Enabled(w, Adopt(id, online)) && Inv(Next(w, Adopt(id, online)))
    ensures Safe(Next(w, Adopt(id, online)))
  {
    forall x | x in w.hist
      ensures SafeAt(Next(w, Adopt(id, online)), x)
    {
      SafeElsewhere(w, Next(w, Adopt(id, online)), x);
    }
  }

  lemma SampleKeepsSafe(w: World, x: Id)
    requires Inv(w) && Enabled(w, Sample) && Inv(Next(w, Sample)) && x in w.hist && SafeAt(w, x)
    ensures SafeAt(Next(w, Sample), x)
  {
    var w' := Next(w, Sample);
    if Refreshing(w, x) {
      assert Plan(w', x) == Plan(w, x);
      assert PlanSafe(w', x);
    }
  }

  lemma DiffKeepsSafe(w: World, id: Id, x: Id)
    requires Inv(w) && Enabled(w, DiffOne(id)) && Inv(Next(w, DiffOne(id))) && x in w.hist && SafeAt(w, x)
    ensures SafeAt(Next(w, DiffOne(id)), x)
  {
    var w' := Next(w, DiffOne(id));
    if Refreshing(w, x) {
      assert Plan(w', x) == Plan(w, x);
      assert PlanSafe(w', x);
    }
  }

  // The steps of a refresh that only move its phase along.
  lemma RefreshKeepsSafe(w: World, s: Step)
    requires Inv(w) && Safe(w) && Enabled(w, s) && Inv(Next(w, s))
    requires s.Begin? || s.Fail? || s.Sample? || s.DiffOne?
    ensures Safe(Next(w, s))
  {
    var w' := Next(w, s);
    forall x | x in w.hist
      ensures SafeAt(w', x)
    {
      assert SafeAt(w, x);
      if s.Sample? {
        SampleKeepsSafe(w, x);
      } else if s.DiffOne? {
        DiffKeepsSafe(w, s.id, x);
      }
    }
  }

  lemma StepKeepsSafe(w: World, s: Step)
    requires Inv(w) && Safe(w) && Enabled(w, s) && !Loses(w, s)
    ensures Inv(Next(w, s)) && Safe(Next(w, s))
  {
    StepKeepsInv(w, s);
    match s
    case Deliver(id) => DeliverKeepsSafe(w, id);
    case Flip(id, online) => FlipKeepsSafe(w, id, online);
    case Read(ids) => ReadKeepsSafe(w, ids);
    case Install => InstallKeepsSafe(w);
    case Adopt(id, online) => AdoptKeepsSafe(w, id, online);
    case _ => RefreshKeepsSafe(w, s);
  }

  // ----- the theorems -----

  lemma {:induction false} LosslessRunStaysSafe(w: World, steps: seq<Step>)
    requires Inv(w) && Safe(w) && Runs(w, steps) && Lossless(w, steps)
    ensures Inv(Run(w, steps)) && Safe(Run(w, steps))
    decreases |steps|
  {
    if steps == [] {
    } else {
      StepKeepsSafe(w, steps[0]);
      LosslessRunStaysSafe(Next(w, steps[0]), steps[1..]);
    }
  }

  // In every run in which no delivery is lost to a refresh under way, every flag in the snapshot is
  // always one the controller had since the last delivered event; so when all events have been
  // delivered the snapshot shows what the controller shows.
  lemma NoStaleRollback(steps: seq<Step>)
    requires Runs(START, steps) && Lossless(START, steps)
    ensures var w := Run(START, steps);
      && AllFresh(w)
      && forall id | id in w.src.online :: id in w.hist && id in w.seen && w.seen[id] < |w.hist[id]|
           && (w.seen[id] == |w.hist[id]| - 1 ==> w.src.online[id] == w.hist[id][w.seen[id]])
  {
    LosslessRunStaysSafe(START, steps);
    var w := Run(START, steps);
    forall id | id in w.src.online
      ensures FreshAt(w, id)
    {
      assert SafeAt(w, id);
    }
  }

  lemma {:induction false} RunKeepsInv(w: World, steps: seq<Step>)
    requires Inv(w) && Runs(w, steps)
    ensures Inv(Run(w, steps))
    decreases |steps|
  {
    if steps == [] {
    } else {
      StepKeepsInv(w, steps[0]);
      RunKeepsInv(Next(w, steps[0]), steps[1..]);
    }
  }

  // The rest of the refresh under way, with no other step in between.
  function Finish(w: World): World
    requires w.phase.Fetched? || w.phase.Diffing?
  {
    w.(src := w.src.(online := map id | id in w.phase.boot :: Plan(w, id)), phase := Idle)
  }

  function DiffThenInstall(order: seq<Id>): seq<Step> {
    if order == [] then [Install] else [DiffOne(order[0])] + DiffThenInstall(order[1..])
  }

  ghost predicate Lists(order: seq<Id>, todo: set<Id>) {
    && (forall i, j | 0 <= i < j < |order| :: order[i] != order[j])
    && (forall id :: id in order <==> id in todo)
  }

  lemma ListsRest(order: seq<Id>, todo: set<Id>)
    requires Lists(order, todo) && order != []
    ensures order[0] in todo && Lists(order[1..], todo - {order[0]})
  {
    assert order == [order[0]] + order[1..];
    assert forall i | 0 <= i < |order| - 1 :: order[1..][i] == order[i + 1];
  }

  // order lists, once each, the cameras the diff has yet to handle.
  ghost predicate Pending(w: World, order: seq<Id>) {
    w.phase.Diffing? && w.phase.next.Keys <= w.phase.boot.Keys && Lists(order, w.phase.boot.Keys - w.phase.next.Keys)
  }

  lemma DiffOneFinishes(w: World, id: Id)
    requires Enabled(w, DiffOne(id)) && w.phase.next.Keys <= w.phase.boot.Keys
    ensures Finish(Next(w, DiffOne(id))) == Finish(w)
  {
    assert Finish(Next(w, DiffOne(id))).src.online == Finish(w).src.online;
  }

  lemma InstallFinishes(w: World)
    requires Enabled(w, Install)
    ensures Next(w, Install) == Finish(w)
  {
    assert w.phase.next == Finish(w).src.online;
  }

  // Finish is what the steps do, in whichever order the cameras are handled.
  lemma {:induction false} QuietStepsFinish(w: World, order: seq<Id>)
    requires Pending(w, order)
    ensures Runs(w, DiffThenInstall(order)) && Run(w, DiffThenInstall(order)) == Finish(w)
    decreases |order|
  {
    var steps := DiffThenInstall(order);
    if order == [] {
      assert forall id | id in w.phase.boot :: id in w.phase.boot.Keys - w.phase.next.Keys || id in w.phase.next;
      assert w.phase.next.Keys == w.phase.boot.Keys;
      InstallFinishes(w);
      assert steps[1..] == [];
      assert Run(w, steps) == Next(w, Install);
    } else {
      var todo := w.phase.boot.Keys - w.phase.next.Keys;
      ListsRest(order, todo);
      DiffOneFinishes(w, order[0]);
      var w' := Next(w, DiffOne(order[0]));
      assert w'.phase.boot.Keys - w'.phase.next.Keys == todo - {order[0]};
      QuietStepsFinish(w', order[1..]);
      assert steps[1..] == DiffThenInstall(order[1..]);
    }
  }

  // Sampling changes nothing about what a quiet refresh will do.
  lemma SampleFinishes(w: World)
    requires w.phase.Fetched?
    ensures Next(w, Sample).phase.Diffing? && Finish(Next(w, Sample)) == Finish(w)
  {
    assert Finish(Next(w, Sample)).src.online == Finish(w).src.online;
  }

  // Whatever was lost before: such a refresh, with no event newer than its reading delivered yet, heals every flag.
  lemma QuietRefreshHeals(steps: seq<Step>)
    requires Runs(START, steps) && Run(START, steps).phase.Fetched?
    ensures var w := Run(START, steps);
      && w.phase.boot.Keys <= w.seen.Keys && w.phase.boot.Keys == w.phase.readAt.Keys
      && ((forall id | id in w.phase.boot :: w.seen[id] <= w.phase.readAt[id]) ==> AllFresh(Finish(w)))
  {
    RunKeepsInv(START, steps);
    var w := Run(START, steps);
    if forall id | id in w.phase.boot :: w.seen[id] <= w.phase.readAt[id] {
      var w' := Finish(w);
      forall id | id in w'.src.online
        ensures FreshAt(w', id)
      {
        assert w.hist[id][w.phase.readAt[id]] == w.phase.boot[id];
      }
    }
  }

  // ----- exactly which deliveries are lost -----

  // At any moment of a refresh, in a run that lost nothing so far: if the next event of a listed camera
  // is delivered and the refresh then runs to its end, the camera shows a flag the controller had since
  // that event exactly if the delivery is not one that Loses.
  lemma LossExactly(steps: seq<Step>, id: Id)
    requires Runs(START, steps) && Lossless(START, steps)
    requires Enabled(Run(START, steps), Deliver(id)) && Refreshing(Run(START, steps), id)
    ensures var w := Run(START, steps); var w' := Next(w, Deliver(id));
      && (w'.phase.Fetched? || w'.phase.Diffing?)
      && id in Finish(w').src.online
      && (FreshAt(Finish(w'), id) <==> !Loses(w, Deliver(id)))
  {
    LosslessRunStaysSafe(START, steps);
    var w := Run(START, steps);
    assert SafeAt(w, id);
    DeliveryDecides(w, id);
  }

  lemma SomeOrder(todo: set<Id>) returns (order: seq<Id>)
    ensures Lists(order, todo)
  {
    order := [];
    var left := todo;
    while left != {}
      invariant left <= todo && Lists(order, todo - left)
      decreases left
    {
      var id :| id in left;
      assert todo - (left - {id}) == todo - left + {id};
      order, left := order + [id], left - {id};
    }
  }

  // The steps of the rest of a refresh.
  lemma FinishIsReached(w: World) returns (rest: seq<Step>)
    requires Inv(w) && (w.phase.Fetched? || w.phase.Diffing?)
    ensures Runs(w, rest) && Run(w, rest) == Finish(w)
  {
    if w.phase.Diffing? {
      var order := SomeOrder(w.phase.boot.Keys - w.phase.next.Keys);
      QuietStepsFinish(w, order);
      rest := DiffThenInstall(order);
    } else {
      var w' := Next(w, Sample);
      SampleFinishes(w);
      var order := SomeOrder(w'.phase.boot.Keys - w'.phase.next.Keys);
      QuietStepsFinish(w', order);
      rest := [Sample] + DiffThenInstall(order);
      assert rest[1..] == DiffThenInstall(order);
    }
  }

  // So no condition on deliveries that lets more of them pass would do: each delivery that Loses
  // leads to a stale flag, in a run from the start.
  lemma LossShows(steps: seq<Step>, id: Id)
    requires Runs(START, steps) && Lossless(START, steps) && Loses(Run(START, steps), Deliver(id))
    ensures exists rest ::
        Runs(START, steps + ([Deliver(id)] + rest)) && !FreshAt(Run(START, steps + ([Deliver(id)] + rest)), id)
  {
    LossExactly(steps, id);
    RunKeepsInv(START, steps);
    var w := Run(START, steps);
    StepKeepsInv(w, Deliver(id));
    var w' := Next(w, Deliver(id));
    var rest := FinishIsReached(w');
    var tail := [Deliver(id)] + rest;
    assert tail[1..] == rest;
    Glue(START, steps, w, tail);
    assert Run(START, steps + ([Deliver(id)] + rest)) == Finish(w');
  }

  // ----- exactly which runs show a stale flag -----

  // An installation of a flag that neither the last delivered event nor a later one has. A delivery that
  // Loses ends in one, unless the controller flips back before.
  ghost predicate InstallsStale(w: World, s: Step) {
    && s.Install? && w.phase.Diffing?
    && exists id | id in w.phase.next && id in w.hist
      && id in w.seen :: !FreshFlag(w.hist[id], w.seen[id], w.phase.next[id])
  }

  // Flags become stale by such an installation and in no other way.
  lemma StaleExactly(w: World, s: Step)
    requires Inv(w) && AllFresh(w) && Enabled(w, s)
    ensures AllFresh(Next(w, s)) <==> !InstallsStale(w, s)
  {
    var w' := Next(w, s);
    if s.Install? {
      assert w'.src.online == w.phase.next;
      assert InstallsStale(w, s) <==> exists id | id in w'.src.online :: !FreshAt(w', id);
    } else {
      forall id | id in w'.src.online
        ensures FreshAt(w', id)
      {
        assert FreshAt(w, id);
        StaysFresh(w, s, id);
      }
    }
  }

  lemma StaysFresh(w: World, s: Step, id: Id)
    requires Inv(w) && Enabled(w, s) && !s.Install? && id in w.src.online && FreshAt(w, id)
    ensures FreshAt(Next(w, s), id)
  {
    if s.Flip? && s.id == id {
      FreshExtends(w.hist[id], s.online, w.seen[id], w.src.online[id]);
    }
    if s.Deliver? && s.id == id {
      assert Next(w, s).src.online[id] == w.hist[id][w.seen[id] + 1];
    }
  }

  ghost predicate NeverStale(w: World, steps: seq<Step>)
    requires Runs(w, steps)
    decreases |steps|
  {
    AllFresh(w) && (steps == [] || NeverStale(Next(w, steps[0]), steps[1..]))
  }

  ghost predicate InstallsFresh(w: World, steps: seq<Step>)
    requires Runs(w, steps)
    decreases |steps|
  {
    steps == [] || (!InstallsStale(w, steps[0]) && InstallsFresh(Next(w, steps[0]), steps[1..]))
  }

  // A run never shows a stale flag exactly if it never installs one.
  lemma {:induction false} NeverStaleExactly(w: World, steps: seq<Step>)
    requires Inv(w) && AllFresh(w) && Runs(w, steps)
    ensures NeverStale(w, steps) <==> InstallsFresh(w, steps)
    decreases |steps|
  {
    if steps == [] {
    } else {
      var w' := Next(w, steps[0]);
      StaleExactly(w, steps[0]);
      StepKeepsInv(w, steps[0]);
      if AllFresh(w') {
        NeverStaleExactly(w', steps[1..]);
      } else {
        assert !NeverStale(w', steps[1..]);
      }
    }
  }

  // ----- the controller's newest event -----

  // The flag an event in flight needs: for a camera shown during the fetch, any; for one being added,
  // its own in the bootstrap; after the sampling its own in the diff, or the sample, or the bootstrap.
  predicate Kept(w: World, id: Id, event: bool)
    requires Refreshing(w, id)
  {
    if w.phase.Fetched? then id in w.src.online || w.phase.boot[id] == event
    else if id in w.phase.next then w.phase.next[id] == event
    else if id in w.phase.prev then w.phase.prev[id] == event
    else w.phase.boot[id] == event
  }

  lemma NewestDecides(w: World, id: Id)
    requires Inv(w) && id in w.hist && SafeAt(w, id) && Enabled(w, Deliver(id)) && Refreshing(w, id)
    requires w.seen[id] + 2 == |w.hist[id]|
    ensures Refreshing(Next(w, Deliver(id)), id)
    ensures var event := w.hist[id][w.seen[id] + 1]; Plan(Next(w, Deliver(id)), id) == event <==> Kept(w, id, event)
  {
    DeliveryDecides(w, id);
    var h, v, plan := w.hist[id], w.seen[id] + 1, Plan(Next(w, Deliver(id)), id);
    assert FreshFlag(h, v, plan) <==> plan == h[v];
    assert Sticks(w, id) ==> (Outdated(w, id, Stuck(w, id)) <==> Stuck(w, id) != h[v]);
  }

  // The flag the camera shows after the delivery of its next event and the rest of the refresh.
  function Shown(w: World, id: Id): bool
    requires Enabled(w, Deliver(id)) && Refreshing(w, id)
  {
    Finish(Next(w, Deliver(id))).src.online[id]
  }

  // For the controller's newest event: the refresh ends showing it exactly if it is kept in this sense.
  lemma NewestEventKeptExactly(steps: seq<Step>, id: Id)
    requires Runs(START, steps) && Lossless(START, steps)
    requires Enabled(Run(START, steps), Deliver(id)) && Refreshing(Run(START, steps), id)
    requires Run(START, steps).seen[id] + 2 == |Run(START, steps).hist[id]|
    ensures var w := Run(START, steps); var event := w.hist[id][w.seen[id] + 1];
      Shown(w, id) == event <==> Kept(w, id, event)
  {
    var w := Run(START, steps);
    assert Inv(w) && SafeAt(w, id) by {
      LosslessRunStaysSafe(START, steps);
    }
    NewestDecides(w, id);
  }

  // ----- such losses happen -----

  // The camera went offline and the bridge was told, yet it shows the camera online.
  function Stale(gen: nat, stamp: map<Id, nat>): World {
    World(map["c" := [true, false]], map["c" := 1], Source(map["c" := true], gen, stamp), Idle)
  }

  lemma StaleIsStale(gen: nat, stamp: map<Id, nat>)
    ensures !AllFresh(Stale(gen, stamp))
  {
    assert !FreshAt(Stale(gen, stamp), "c");
  }

  lemma ReadOne(src: Source)
    ensures var w := World(map["c" := [true]], map["c" := 0], src, Fetching(0));
      Enabled(w, Read({"c"})) && Next(w, Read({"c"})) == w.(phase := Fetched(0, map["c" := true], map["c" := 0]))
  {
    var w := World(map["c" := [true]], map["c" := 0], src, Fetching(0));
    var w' := Next(w, Read({"c"}));
    assert w'.phase.boot == map["c" := true];
    assert w'.phase.readAt == map["c" := 0];
  }

  lemma FlipOne(src: Source, phase: Phase)
    ensures var w := World(map["c" := [true]], map["c" := 0], src, phase);
      Enabled(w, Flip("c", false)) && Next(w, Flip("c", false)) == w.(hist := map["c" := [true, false]])
  {
    assert [true] + [false] == [true, false];
    assert map["c" := [true]]["c" := [true, false]] == map["c" := [true, false]];
  }

  lemma DeliverOne(src: Source, phase: Phase)
    ensures var w := World(map["c" := [true, false]], map["c" := 0], src, phase);
      Enabled(w, Deliver("c")) && Next(w, Deliver("c")) == w.(seen := map["c" := 1], src := Observe(src, "c", false))
  {
    assert map["c" := 0]["c" := 1] == map["c" := 1];
  }

  // Sampling, diff and installation for the one camera.
  lemma FinishOne(hist: map<Id, seq<bool>>, seen: map<Id, nat>, src: Source, g: nat, online: bool)
    requires src.online.Keys <= {"c"}
    ensures var w := World(hist, seen, src, Fetched(g, map["c" := online], map["c" := 0]));
      && Runs(w, [Sample, DiffOne("c"), Install])
      && Run(w, [Sample, DiffOne("c"), Install])
         == w.(src := src.(online := map["c" := NextFlag(src.online, src.stamp, "c", online, g)]), phase := Idle)
  {
    var w := World(hist, seen, src, Fetched(g, map["c" := online], map["c" := 0]));
    var next := map["c" := NextFlag(src.online, src.stamp, "c", online, g)];
    Trace(w, [Sample, DiffOne("c"), Install], [
      w.(phase := Diffing(g, w.phase.boot, w.phase.readAt, src.online, map[])),
      w.(phase := Diffing(g, w.phase.boot, w.phase.readAt, src.online, next)),
      w.(src := src.(online := next), phase := Idle)]);
  }

  lemma {:induction false} Glue(w: World, first: seq<Step>, mid: World, rest: seq<Step>)
    requires Runs(w, first) && Run(w, first) == mid && Runs(mid, rest)
    ensures Runs(w, first + rest) && Run(w, first + rest) == Run(mid, rest)
    decreases |first|
  {
    if first == [] {
      assert first + rest == rest;
    } else {
      assert (first + rest)[1..] == first[1..] + rest;
      Glue(Next(w, first[0]), first[1..], mid, rest);
    }
  }

  const LOST_WHILE_ADDING :=
    [Adopt("c", true), Begin, Read({"c"}), Flip("c", false), Deliver("c")] + [Sample, DiffOne("c"), Install]

  // A camera goes offline between the reading and its addition, and the event is delivered in between.
  lemma LostWhileAdding()
    ensures Runs(START, LOST_WHILE_ADDING) && Run(START, LOST_WHILE_ADDING) == Stale(0, map[])
      && !AllFresh(Stale(0, map[]))
  {
    StaleIsStale(0, map[]);
    var none := Source(map[], 0, map[]);
    var h1, h2, at := map["c" := [true]], map["c" := [true, false]], map["c" := 0];
    var fetched := Fetched(0, map["c" := true], at);
    ReadOne(none);
    FlipOne(none, fetched);
    DeliverOne(none, fetched);
    var mid := World(h2, map["c" := 1], none, fetched);
    var first := [Adopt("c", true), Begin, Read({"c"}), Flip("c", false), Deliver("c")];
    Trace(START, first, [World(h1, at, none, Idle), World(h1, at, none, Fetching(0)), World(h1, at, none, fetched),
      World(h2, at, none, fetched), mid]);
    FinishOne(h2, map["c" := 1], none, 0, true);
    Glue(START, first, mid, [Sample, DiffOne("c"), Install]);
  }

  // Where the bridge stands once it has refreshed a first time.
  const SHOWN := World(map["c" := [true]], map["c" := 0], Source(map["c" := true], 0, map[]), Idle)

  const TO_SHOWN := [Adopt("c", true), Begin, Read({"c"})] + [Sample, DiffOne("c"), Install]

  const LOST_IN_WINDOW := [Begin, Read({"c"}), Sample] + ([Flip("c", false), Deliver("c")] + [DiffOne("c"), Install])

  lemma ShownIsReached()
    ensures Runs(START, TO_SHOWN) && Run(START, TO_SHOWN) == SHOWN
  {
    var none := Source(map[], 0, map[]);
    var h, at := map["c" := [true]], map["c" := 0];
    ReadOne(none);
    var mid := World(h, at, none, Fetched(0, map["c" := true], at));
    Trace(START, [Adopt("c", true), Begin, Read({"c"})],
      [World(h, at, none, Idle), World(h, at, none, Fetching(0)), mid]);
    FinishOne(h, at, none, 0, true);
    Glue(START, [Adopt("c", true), Begin, Read({"c"})], mid, [Sample, DiffOne("c"), Install]);
  }

  const SAMPLED := SHOWN.(phase := Diffing(0, map["c" := true], map["c" := 0], map["c" := true], map[]))

  lemma SampledIsReached()
    ensures Runs(SHOWN, [Begin, Read({"c"}), Sample]) && Run(SHOWN, [Begin, Read({"c"}), Sample]) == SAMPLED
  {
    ReadOne(SHOWN.src);
    var fetched := Fetched(0, map["c" := true], map["c" := 0]);
    Trace(SHOWN, [Begin, Read({"c"}), Sample], [SHOWN.(phase := Fetching(0)), SHOWN.(phase := fetched), SAMPLED]);
  }

  const IN_WINDOW :=
    World(map["c" := [true, false]], map["c" := 1], Source(map["c" := false], 1, map["c" := 1]), SAMPLED.phase)

  lemma WindowEvent()
    ensures Runs(SAMPLED, [Flip("c", false), Deliver("c")])
      && Run(SAMPLED, [Flip("c", false), Deliver("c")]) == IN_WINDOW
  {
    FlipOne(SHOWN.src, SAMPLED.phase);
    DeliverOne(SHOWN.src, SAMPLED.phase);
    Trace(SAMPLED, [Flip("c", false), Deliver("c")], [SAMPLED.(hist := map["c" := [true, false]]), IN_WINDOW]);
  }

  lemma WindowLoses()
    ensures Runs(IN_WINDOW, [DiffOne("c"), Install])
      && Run(IN_WINDOW, [DiffOne("c"), Install]) == Stale(1, map["c" := 1])
  {
    var diffed := IN_WINDOW.(phase := IN_WINDOW.phase.(next := map["c" := true]));
    Trace(IN_WINDOW, [DiffOne("c"), Install], [diffed, Stale(1, map["c" := 1])]);
  }

  // The same for a camera already shown: the event flips the snapshot between the sampling and the
  // installation, and the installation flips it back.
  lemma LostInWindow()
    ensures Runs(START, TO_SHOWN + LOST_IN_WINDOW) && Run(START, TO_SHOWN + LOST_IN_WINDOW) == Stale(1, map["c" := 1])
    ensures !AllFresh(Stale(1, map["c" := 1]))
  {
    StaleIsStale(1, map["c" := 1]);
    SampledIsReached();
    WindowEvent();
    WindowLoses();
    Glue(SAMPLED, [Flip("c", false), Deliver("c")], IN_WINDOW, [DiffOne("c"), Install]);
    Glue(SHOWN, [Begin, Read({"c"}), Sample], SAMPLED, [Flip("c", false), Deliver("c")] + [DiffOne("c"), Install]);
    ShownIsReached();
    Glue(START, TO_SHOWN, SHOWN, LOST_IN_WINDOW);
  }

  lemma {:induction false} Trace(w: World, steps: seq<Step>, ws: seq<World>)
    requires |ws| == |steps| > 0
    requires Enabled(w, steps[0]) && ws[0] == Next(w, steps[0])
    requires forall i | 0 < i < |steps| :: Enabled(ws[i - 1], steps[i]) && ws[i] == Next(ws[i - 1], steps[i])
    ensures Runs(w, steps) && Run(w, steps) == ws[|ws| - 1]
    decreases |steps|
  {
    if |steps| == 1 {
      assert steps[1..] == [];
    } else {
      Trace(ws[0], steps[1..], ws[1..]);
    }
  }

  // ----- the tie to the full control state -----

  function Onlines(m: map<Id, Camera>): map<Id, bool> {
    map id | id in m :: m[id].online
  }

  function Flags(p: Plane): Source {
    Source(Onlines(Snapshot(p.cameras)), p.gen, p.onlineGen)
  }

  lemma OnlinesUpdate(m: map<Id, Camera>, c: Camera)
    ensures Onlines(m[c.id := c]) == Onlines(m)[c.id := c.online]
  {
  }

  lemma FlipRefines(p: Plane, i: nat, online: bool)
    requires DistinctIds(p.cameras) && i < |p.cameras|
    ensures var id := p.cameras[i].id; var flags := Onlines(Snapshot(p.cameras));
      && id in flags && flags[id] == p.cameras[i].online
      && Onlines(Snapshot(p.cameras[i := p.cameras[i].(online := online)])) == flags[id := online]
  {
    var c := p.cameras[i].(online := online);
    SnapshotAt(p.cameras, i);
    SnapshotUpdate(p.cameras, i, c);
    OnlinesUpdate(Snapshot(p.cameras), c);
  }

  // A delivered event does to the flags what setOnline does to the camera list.
  lemma EventRefines(p: Plane, id: Id, online: bool)
    requires DistinctIds(p.cameras)
    ensures Flags(EventStep(p, id, online)) == Observe(Flags(p), id, online)
  {
    var i := Find(p.cameras, id);
    if i < |p.cameras| {
      FlipRefines(p, i, online);
    } else {
      NotInSnapshot(p.cameras, id);
    }
  }

  lemma {:induction false} SnapshotUpdate(cams: seq<Camera>, i: nat, c: Camera)
    requires DistinctIds(cams) && i < |cams| && c.id == cams[i].id
    ensures Snapshot(cams[i := c]) == Snapshot(cams)[c.id := c]
  {
    var n := |cams| - 1;
    var init := cams[..n];
    if i < n {
      SnapshotUpdate(init, i, c);
      assert cams[i := c][..n] == init[i := c];
      assert cams[i := c][n] == cams[n];
      assert cams[n].id != c.id;
    } else {
      assert cams[i := c][..n] == init;
    }
  }

  lemma {:induction false} NotInSnapshot(cams: seq<Camera>, id: Id)
    requires forall j | 0 <= j < |cams| :: cams[j].id != id
    ensures id !in Snapshot(cams)
  {
    if cams == [] {
    } else {
      NotInSnapshot(cams[..|cams| - 1], id);
    }
  }

  // A refresh in one go keeps the cameras of the bootstrap, and only those...
  lemma RefreshRefines(p: Plane, boot: seq<ProtectCamera>, g: nat)
    ensures Onlines(Snapshot(NextCameras(Snapshot(p.cameras), p.onlineGen, boot, g))).Keys == BootIds(boot)
  {
    var next := NextCameras(Snapshot(p.cameras), p.onlineGen, boot, g);
    NextCamerasAt(Snapshot(p.cameras), p.onlineGen, boot, g);
    SnapshotKeys(next);
    IdsByIndex(boot, next);
  }

  // ... and gives each the flag of the steps above.
  lemma RefreshRefinesAt(p: Plane, boot: seq<ProtectCamera>, g: nat, i: nat)
    requires Distinct(boot) && i < |boot|
    ensures var m, u := Onlines(Snapshot(NextCameras(Snapshot(p.cameras), p.onlineGen, boot, g))), boot[i];
      u.id in m && m[u.id] == NextFlag(Flags(p).online, p.onlineGen, u.id, u.online, g)
  {
    var prev := Snapshot(p.cameras);
    var next := NextCameras(prev, p.onlineGen, boot, g);
    NextCamerasAt(prev, p.onlineGen, boot, g);
    assert DistinctIds(next);
    SnapshotAt(next, i);
    FlagOfNext(prev, p.onlineGen, boot[i], g);
  }

  lemma FlagOfNext(prev: map<Id, Camera>, stamp: map<Id, nat>, u: ProtectCamera, g: nat)
    ensures NextCamera(prev, stamp, u, g).online == NextFlag(Onlines(prev), stamp, u.id, u.online, g)
  {
  }
}
