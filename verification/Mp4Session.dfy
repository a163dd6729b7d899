/** Sessions of a progressive MP4 muxer (internal/mp4/muxer.go), one step per critical section.
    Subscribers, the demux goroutines, the read loops and the watchdogs of every session, past and
    present, may interleave at those steps in any order. A fragment is known by its session and by
    its position among those the session's demuxer handed over; the bytes are in Demux. */
module Mp4Session {
  import opened Wrappers
  import Rtp
  import Demux
  import DemuxLaws

  const CAPACITY := 64
  const IDLE_TIMEOUT: int := 30 * 1_000_000_000

  datatype Fragment = Fragment(session: nat, index: nat)

  // A subscriber's channel and its request: registered in a session that had handed over `since`
  // fragments; the init segment and the fragments it has written; those it was too slow for.
  datatype Chan = Chan(
    session: nat, since: nat, queue: seq<Fragment>, closed: bool,
    init: Option<nat>, got: seq<Fragment>, missed: set<nat>, done: bool)

  // A demux goroutine: initBuilt, the fragments handed over, and those that failed to marshal.
  datatype Progress = Progress(initBuilt: bool, count: nat, failed: set<nat>)

  // Sessions are numbered from 1; session is the last one started. init names the session whose
  // init segment is published.
  datatype State = State(
    started: bool, session: nat, cancelled: set<nat>, init: Option<nat>, lastAccess: int,
    subs: set<nat>, chans: map<nat, Chan>, demux: map<nat, Progress>)

  datatype Step =
    | Touch(now: int)
    | Start(ok: bool, now: int)
    | Register(ch: nat)
    | Unregister(ch: nat)
    | TakeInit(ch: nat)
    | Receive(ch: nat)
    | Close
    | ReadLoopEnds(s: nat)
    | Watchdog(now: int)
    | Publish(s: nat, ok: bool)
    | Emit(s: nat, ok: bool)

  const IDLE := State(false, 0, {}, None, 0, {}, map[], map[])

  // ----- what each critical section does -----

  // stopLocked
  function Stop(st: State): State {
    if !st.started then st
    else st.(
      started := false, init := None, cancelled := st.cancelled + {st.session},
      chans := CloseAll(st.chans, st.subs), subs := {})
  }

  function CloseAll(chans: map<nat, Chan>, subs: set<nat>): map<nat, Chan> {
    map c | c in chans :: if c in subs then chans[c].(closed := true) else chans[c]
  }

  // The non-blocking send.
  function Offer(c: Chan, f: Fragment): Chan {
    if |c.queue| < CAPACITY then c.(queue := c.queue + [f]) else c.(missed := c.missed + {f.index})
  }

  function OfferAll(chans: map<nat, Chan>, subs: set<nat>, f: Fragment): map<nat, Chan> {
    map c | c in chans :: if c in subs then Offer(chans[c], f) else chans[c]
  }

  // ensureStarted; a failed start stops, which does nothing when nothing is running.
  function StartSession(st: State, ok: bool, now: int): State {
    if st.started then st
    else if !ok then Stop(st)
    else
      var n := st.session + 1;
      st.(started := true, session := n, lastAccess := now, demux := st.demux[n := Progress(false, 0, {})])
  }

  function RegisterChan(st: State, ch: nat): State {
    if !st.started || st.session !in st.demux then st
    else st.(
      subs := st.subs + {ch},
      chans := st.chans[ch := Chan(st.session, st.demux[st.session].count, [], false, None, [], {}, false)])
  }

  // The watchdog's decision under the lock. Its unlocked look before may record an access: Touch.
  function IdleStop(st: State, now: int): State {
    if st.started && st.subs == {} && now - st.lastAccess > IDLE_TIMEOUT then Stop(st) else st
  }

  // publishInit: marshalling fails, or the segment becomes visible unless the session was stopped.
  function Published(st: State, s: nat, ok: bool): State
    requires s in st.demux
  {
    if !ok then st
    else st.(
      demux := st.demux[s := st.demux[s].(initBuilt := true)],
      init := if s in st.cancelled then st.init else Some(s))
  }

  // emitFragment: marshalling fails, or the fragment is offered to every subscriber unless the session was stopped.
  function Emitted(st: State, s: nat, ok: bool): State
    requires s in st.demux
  {
    var p := st.demux[s];
    var n := p.count + 1;
    var p' := p.(count := n, failed := if ok then p.failed else p.failed + {n});
    st.(
      demux := st.demux[s := p'],
      chans := if ok && s !in st.cancelled then OfferAll(st.chans, st.subs, Fragment(s, n)) else st.chans)
  }

  predicate Active(st: State, ch: nat) {
    ch in st.chans && !st.chans[ch].done
  }

  predicate Enabled(st: State, step: Step) {
    match step
    case Touch(_) => true
    case Start(_, _) => true
    case Register(ch) => ch !in st.chans
    case Unregister(ch) => Active(st, ch)
    case TakeInit(ch) => Active(st, ch) && st.chans[ch].init.None? && st.init.Some?
    case Receive(ch) => Active(st, ch) && st.chans[ch].init.Some? && st.chans[ch].queue != []
    case Close => true
    case ReadLoopEnds(s) => s in st.demux
    case Watchdog(_) => true
    case Publish(s, _) => s in st.demux && !st.demux[s].initBuilt
    case Emit(s, _) => s in st.demux && st.demux[s].initBuilt
  }

  function Next(st: State, step: Step): State
    requires Enabled(st, step)
  {
    match step
    case Touch(now) => st.(lastAccess := now)
    case Start(ok, now) => StartSession(st, ok, now)
    case Register(ch) => RegisterChan(st, ch)
    case Unregister(ch) => st.(subs := st.subs - {ch}, chans := st.chans[ch := st.chans[ch].(done := true)])
    case TakeInit(ch) => st.(chans := st.chans[ch := st.chans[ch].(init := st.init)])
    case Receive(ch) =>
      var c := st.chans[ch];
      st.(chans := st.chans[ch := c.(queue := c.queue[1..], got := c.got + [c.queue[0]])])
    case Close => Stop(st)
    case ReadLoopEnds(_) => Stop(st) // whichever session is running: the source does not compare
    case Watchdog(now) => IdleStop(st, now)
    case Publish(s, ok) => Published(st, s, ok)
    case Emit(s, ok) => Emitted(st, s, ok)
  }

  predicate Runs(st: State, steps: seq<Step>)
    decreases |steps|
  {
    steps == [] || (Enabled(st, steps[0]) && Runs(Next(st, steps[0]), steps[1..]))
  }

  function Run(st: State, steps: seq<Step>): State
    requires Runs(st, steps)
    decreases |steps|
  {
    if steps == [] then st else Run(Next(st, steps[0]), steps[1..])
  }

  // ----- the invariant -----

  // Everything that went through a channel so far, in order.
  function Sent(c: Chan): seq<Fragment> {
    c.got + c.queue
  }

  // From the session it registered in, handed over after it registered, in order.
  ghost predicate Orderly(c: Chan, count: nat) {
    && (forall i | 0 <= i < |Sent(c)| :: Sent(c)[i].session == c.session && c.since < Sent(c)[i].index <= count)
    && (forall i, j | 0 <= i < j < |Sent(c)| :: Sent(c)[i].index < Sent(c)[j].index)
  }

  // Each fragment handed over since it registered was sent, failed to marshal, or found the channel full.
  ghost predicate Complete(c: Chan, p: Progress) {
    forall k | c.since < k <= p.count :: Fragment(c.session, k) in Sent(c) || k in p.failed || k in c.missed
  }

  ghost predicate ChanInv(st: State, ch: nat)
    requires ch in st.chans
  {
    var c := st.chans[ch];
    && c.session in st.demux
    && c.since <= st.demux[c.session].count
    && |c.queue| <= CAPACITY
    && Orderly(c, st.demux[c.session].count)
    && (forall k | k in c.missed :: k <= st.demux[c.session].count)
    && (Sent(c) != [] ==> st.demux[c.session].initBuilt)
    && (ch in st.subs <==> !c.closed && !c.done)
    && (ch in st.subs ==> c.session == st.session && Complete(c, st.demux[c.session]))
    && (c.closed ==> c.session in st.cancelled)
  }

  ghost predicate Inv(st: State) {
    && (forall s | s in st.demux :: 1 <= s <= st.session && (s in st.cancelled <==> !(st.started && s == st.session)))
    && st.cancelled <= st.demux.Keys
    && (st.started ==> st.session in st.demux)
    && (st.init == if st.started && st.demux[st.session].initBuilt then Some(st.session) else None)
    && (!st.started ==> st.subs == {})
    && st.subs <= st.chans.Keys
    && (forall ch | ch in st.chans :: ChanInv(st, ch))
  }

  lemma StopKeepsInv(st: State)
    requires Inv(st)
    ensures Inv(Stop(st))
  {
    var st' := Stop(st);
    forall ch | ch in st'.chans
      ensures ChanInv(st', ch)
    {
      assert ChanInv(st, ch);
      assert Sent(st'.chans[ch]) == Sent(st.chans[ch]);
    }
  }

  lemma StartKeepsInv(st: State, now: int)
    requires Inv(st) && !st.started
    ensures Inv(StartSession(st, true, now))
  {
    var st' := StartSession(st, true, now);
    forall ch | ch in st'.chans
      ensures ChanInv(st', ch)
    {
      assert ChanInv(st, ch);
    }
  }

  lemma RegisterKeepsInv(st: State, ch: nat)
    requires Inv(st) && ch !in st.chans
    ensures Inv(RegisterChan(st, ch))
  {
    var st' := RegisterChan(st, ch);
    forall x | x in st'.chans
      ensures ChanInv(st', x)
    {
      if x != ch {
        assert ChanInv(st, x);
      }
    }
  }

  // What a request does to its own channel leaves what went through it.
  lemma SentStays(st: State, ch: nat, step: Step)
    requires Enabled(st, step) && step in {Unregister(ch), TakeInit(ch), Receive(ch)}
    ensures ch in Next(st, step).chans && Sent(Next(st, step).chans[ch]) == Sent(st.chans[ch])
  {
    var c := st.chans[ch];
    if step == Receive(ch) {
      assert c.queue == [c.queue[0]] + c.queue[1..];
    }
  }

  // Steps of one request on its own channel.
  lemma RequestKeepsInv(st: State, ch: nat, step: Step)
    requires Inv(st) && Enabled(st, step) && step in {Unregister(ch), TakeInit(ch), Receive(ch)}
    ensures Inv(Next(st, step))
  {
    var st' := Next(st, step);
    forall x | x in st'.chans
      ensures ChanInv(st', x)
    {
      assert ChanInv(st, x);
      if x == ch {
        SentStays(st, ch, step);
      }
    }
  }

  lemma PublishKeepsInv(st: State, s: nat, ok: bool)
    requires Inv(st) && s in st.demux && !st.demux[s].initBuilt
    ensures Inv(Published(st, s, ok))
  {
    var st' := Published(st, s, ok);
    forall ch | ch in st'.chans
      ensures ChanInv(st', ch)
    {
      assert ChanInv(st, ch);
    }
  }

  lemma OfferExtends(c: Chan, f: Fragment)
    ensures Sent(Offer(c, f)) == if |c.queue| < CAPACITY then Sent(c) + [f] else Sent(c)
  {
  }

  lemma EmitKeepsChan(st: State, s: nat, ok: bool, ch: nat)
    requires Inv(st) && s in st.demux && st.demux[s].initBuilt && ch in st.chans
    ensures ChanInv(Emitted(st, s, ok), ch)
  {
    assert ChanInv(st, ch);
    var c, c' := st.chans[ch], Emitted(st, s, ok).chans[ch];
    var n := st.demux[s].count + 1;
    OfferExtends(c, Fragment(s, n));
    if ch in st.subs && c.session == s && Sent(c') != Sent(c) {
      assert Sent(c') == Sent(c) + [Fragment(s, n)];
      assert Sent(c')[|Sent(c)|] == Fragment(s, n);
    }
  }

  lemma EmitKeepsInv(st: State, s: nat, ok: bool)
    requires Inv(st) && s in st.demux && st.demux[s].initBuilt
    ensures Inv(Emitted(st, s, ok))
  {
    var st' := Emitted(st, s, ok);
    forall ch | ch in st'.chans
      ensures ChanInv(st', ch)
    {
      EmitKeepsChan(st, s, ok, ch);
    }
  }

  lemma StepKeepsInv(st: State, step: Step)
    requires Inv(st) && Enabled(st, step)
    ensures Inv(Next(st, step))
  {
    match step
    case Touch(now) => TouchKeepsInv(st, now);
    case Start(ok, now) =>
      if !st.started && ok {
        StartKeepsInv(st, now);
      }
    case Register(ch) => RegisterKeepsInv(st, ch);
    case Unregister(ch) => RequestKeepsInv(st, ch, step);
    case TakeInit(ch) => RequestKeepsInv(st, ch, step);
    case Receive(ch) => RequestKeepsInv(st, ch, step);
    case Close => StopKeepsInv(st);
    case ReadLoopEnds(_) => StopKeepsInv(st);
    case Watchdog(_) => StopKeepsInv(st);
    case Publish(s, ok) => PublishKeepsInv(st, s, ok);
    case Emit(s, ok) => EmitKeepsInv(st, s, ok);
  }

  lemma TouchKeepsInv(st: State, now: int)
    requires Inv(st)
    ensures Inv(st.(lastAccess := now))
  {
    forall ch | ch in st.chans
      ensures ChanInv(st.(lastAccess := now), ch)
    {
      assert ChanInv(st, ch);
    }
  }

  lemma {:induction false} RunKeepsInv(st: State, steps: seq<Step>)
    requires Inv(st) && Runs(st, steps)
    ensures Inv(Run(st, steps))
    decreases |steps|
  {
    if steps == [] {
    } else {
      StepKeepsInv(st, steps[0]);
      RunKeepsInv(Next(st, steps[0]), steps[1..]);
    }
  }

  // ----- what it means for subscribers -----

  // After any run, each subscriber was sent fragments of its own session only, handed over after it
  // registered, in order, and only once that session's init segment was built; while it stays
  // registered it missed none but those that failed to marshal or found its channel full.
  lemma FragmentsStayInSession(steps: seq<Step>, ch: nat)
    requires Runs(IDLE, steps) && ch in Run(IDLE, steps).chans
    ensures var st := Run(IDLE, steps); var c := st.chans[ch];
      && c.session in st.demux
      && Orderly(c, st.demux[c.session].count)
      && (Sent(c) != [] ==> st.demux[c.session].initBuilt)
      && (ch in st.subs ==> Complete(c, st.demux[c.session]) && (Sent(c) != [] ==> st.init == Some(c.session)))
  {
    RunKeepsInv(IDLE, steps);
    assert ChanInv(Run(IDLE, steps), ch);
  }

  // Fragment k of a session carries sequence number SeqNum(k), so a subscriber sees its numbers increase
  // throughout in any session of fewer than 2^32 fragments.
  lemma NumbersIncrease(steps: seq<Step>, ch: nat, i: nat, j: nat)
    requires Runs(IDLE, steps) && ch in Run(IDLE, steps).chans
    requires var c := Run(IDLE, steps).chans[ch];
      i < j < |Sent(c)| && c.session in Run(IDLE, steps).demux && Run(IDLE, steps).demux[c.session].count < Rtp.TWO32
    ensures var sent := Sent(Run(IDLE, steps).chans[ch]); Demux.SeqNum(sent[i].index) < Demux.SeqNum(sent[j].index)
  {
    FragmentsStayInSession(steps, ch);
    var sent := Sent(Run(IDLE, steps).chans[ch]);
    DemuxLaws.SeqNumIsCount(sent[i].index);
    DemuxLaws.SeqNumIsCount(sent[j].index);
  }

  // A stopped muxer has no subscribers and no init segment, and no subscriber is left waiting:
  // every request still running has had its channel closed.
  lemma StoppedIsEmpty(steps: seq<Step>)
    requires Runs(IDLE, steps) && !Run(IDLE, steps).started
    ensures Run(IDLE, steps).subs == {} && Run(IDLE, steps).init == None
    ensures forall ch | Active(Run(IDLE, steps), ch) :: Run(IDLE, steps).chans[ch].closed
  {
    RunKeepsInv(IDLE, steps);
    var st := Run(IDLE, steps);
    forall ch | Active(st, ch)
      ensures st.chans[ch].closed
    {
      assert ChanInv(st, ch);
    }
  }

  // The init segment a waiting request takes is its own session's exactly if that session was not
  // stopped while it waited.
  lemma InitIsOwnExactly(steps: seq<Step>, ch: nat)
    requires Runs(IDLE, steps) && Enabled(Run(IDLE, steps), TakeInit(ch))
    ensures var st := Run(IDLE, steps);
      st.init == Some(st.chans[ch].session) <==> !st.chans[ch].closed
  {
    RunKeepsInv(IDLE, steps);
    assert ChanInv(Run(IDLE, steps), ch);
  }

  lemma {:induction false} RunAppend(st: State, first: seq<Step>, rest: seq<Step>)
    requires Runs(st, first) && Runs(Run(st, first), rest)
    ensures Runs(st, first + rest) && Run(st, first + rest) == Run(Run(st, first), rest)
    decreases |first|
  {
    if first == [] {
      assert first + rest == rest;
    } else {
      RunAppend(Next(st, first[0]), first[1..], rest);
      assert (first + rest)[1..] == first[1..] + rest;
    }
  }

  const FIRST := [Start(true, 0), Register(7), Publish(1, true), Emit(1, true)]
  const RESTART := [Close, Start(true, 1), Publish(2, true)]

  const WAITING := Chan(1, 0, [Fragment(1, 1)], false, None, [], {}, false)
  const SERVING := State(true, 1, {}, Some(1), 0, {7}, map[7 := WAITING], map[1 := Progress(true, 1, {})])

  lemma FirstSession()
    ensures Runs(IDLE, FIRST) && Run(IDLE, FIRST) == SERVING
  {
    var a := Next(Next(IDLE, Start(true, 0)), Register(7));
    assert a.demux == map[1 := Progress(false, 0, {})] && a.chans == map[7 := WAITING.(queue := [])];
    var b := Next(a, Publish(1, true));
    assert b.demux == map[1 := Progress(true, 0, {})];
    var c := Next(b, Emit(1, true));
    assert c.demux == map[1 := Progress(true, 1, {})];
    assert c.chans[7].queue == [] + [Fragment(1, 1)] == [Fragment(1, 1)];
    assert c.chans == map[7 := WAITING];
    assert c == Run(b, [Emit(1, true)]) == Run(a, [Publish(1, true), Emit(1, true)]);
  }

  lemma SecondSession()
    ensures Runs(SERVING, RESTART)
    ensures Run(SERVING, RESTART).chans == map[7 := WAITING.(closed := true)] && Run(SERVING, RESTART).init == Some(2)
  {
    var a := Next(Next(SERVING, Close), Start(true, 1));
    assert a.session == 2 && 2 !in a.cancelled && a.chans == map[7 := WAITING.(closed := true)];
    var b := Next(a, Publish(2, true));
    assert b == Run(a, [Publish(2, true)]);
  }

  // It does happen: a request that registered in session 1 and holds a fragment of it takes the
  // init segment of session 2.
  lemma InitOfAnotherSession()
    ensures Runs(IDLE, FIRST + RESTART) && Enabled(Run(IDLE, FIRST + RESTART), TakeInit(7))
    ensures var c := Next(Run(IDLE, FIRST + RESTART), TakeInit(7)).chans[7];
      c.session == 1 && c.init == Some(2) && c.queue == [Fragment(1, 1)]
  {
    FirstSession();
    SecondSession();
    RunAppend(IDLE, FIRST, RESTART);
  }

  // A step cuts a subscriber off only if it is Close or the end of a read loop, never the watchdog,
  // a start, a late init segment or a late fragment.
  lemma OnlyStopsCutSubscribers(st: State, step: Step, ch: nat)
    requires Inv(st) && Enabled(st, step) && ch in st.subs
    ensures var st' := Next(st, step); ch in st'.chans && (st'.chans[ch].closed <==> step.Close? || step.ReadLoopEnds?)
    ensures ch !in Next(st, step).subs <==> step.Close? || step.ReadLoopEnds? || step == Unregister(ch)
  {
    assert ChanInv(st, ch);
  }

  // A subscriber misses a fragment that marshals exactly if its channel holds 64 others at that moment.
  lemma OnlyFullChannelsMiss(st: State, step: Step, ch: nat)
    requires Inv(st) && Enabled(st, step) && ch in st.subs
    ensures var c := st.chans[ch];
      ch in Next(st, step).chans
      && (Next(st, step).chans[ch].missed != c.missed <==> step == Emit(c.session, true) && |c.queue| == 64)
  {
    assert ChanInv(st, ch);
  }

  // A read loop of a session already stopped cuts off the subscribers of the next one.
  lemma StaleReadLoopStopsNewSession()
    ensures var steps := [Start(true, 0), Close, Start(true, 1), Register(7)];
      && Runs(IDLE, steps)
      && Enabled(Run(IDLE, steps), ReadLoopEnds(1))
      && var st := Run(IDLE, steps);
         st.session == 2 && 7 in st.subs && 1 in st.cancelled && !Next(st, ReadLoopEnds(1)).started
  {
    var a := Next(Next(IDLE, Start(true, 0)), Close);
    var b := Next(Next(a, Start(true, 1)), Register(7));
    assert b == Run(a, [Start(true, 1), Register(7)]);
  }

  // ----- idle sessions -----

  // The watchdog stops a session without subscribers exactly if its last access is more than 30 s ago,
  // and changes nothing otherwise.
  lemma WatchdogExactly(steps: seq<Step>, now: int)
    requires Runs(IDLE, steps)
    ensures var st := Run(IDLE, steps); var st' := Next(st, Watchdog(now));
      && (st.started && st.subs == {} ==> (st'.started <==> now - st.lastAccess <= 30 * 1_000_000_000))
      && (!st.started || st.subs != {} ==> st' == st)
  {
  }

  // Steps that are no access: neither a touch nor a start of a session.
  predicate Unused(st: State, steps: seq<Step>)
    requires Runs(st, steps)
    decreases |steps|
  {
    steps == [] ||
    (!steps[0].Touch? && (steps[0].Start? ==> st.started || !steps[0].ok) && Unused(Next(st, steps[0]), steps[1..]))
  }

  lemma {:induction false} UnusedKeepsAccess(st: State, steps: seq<Step>)
    requires Runs(st, steps) && Unused(st, steps)
    ensures Run(st, steps).lastAccess == st.lastAccess
    decreases |steps|
  {
    if steps == [] {
    } else {
      UnusedKeepsAccess(Next(st, steps[0]), steps[1..]);
    }
  }

  // So after a touch, or a start, at time t, and whatever comes then but no further access, a session without
  // subscribers outlives every tick up to t + 30 s and no later one.
  lemma IdleExactly(steps: seq<Step>, access: Step, rest: seq<Step>, t: int, now: int)
    requires Runs(IDLE, steps) && (access == Touch(t) || (access == Start(true, t) && !Run(IDLE, steps).started))
    requires Runs(Next(Run(IDLE, steps), access), rest) && Unused(Next(Run(IDLE, steps), access), rest)
    ensures var st := Run(Next(Run(IDLE, steps), access), rest);
      st.started && st.subs == {} ==> (Next(st, Watchdog(now)).started <==> now <= t + 30 * 1_000_000_000)
  {
    UnusedKeepsAccess(Next(Run(IDLE, steps), access), rest);
  }

  // ----- the muxer itself -----

  predicate AllOpen(chans: map<nat, Chan>, subs: set<nat>) {
    forall ch | ch in subs :: ch in chans && !chans[ch].closed
  }

  lemma SubscribersAreOpen(st: State)
    requires Inv(st)
    ensures AllOpen(st.chans, st.subs)
  {
    forall ch | ch in st.subs
      ensures ch in st.chans && !st.chans[ch].closed
    {
      assert ChanInv(st, ch);
    }
  }

  class Muxer {
    var started: bool
    var session: nat
    var cancelled: set<nat>
    var initBytes: Option<nat>
    var lastAccess: int
    var subs: set<nat>
    var chans: map<nat, Chan>
    var demux: map<nat, Progress> // how far each demux goroutine is

    function View(): State
      reads this
    {
      State(started, session, cancelled, initBytes, lastAccess, subs, chans, demux)
    }

    constructor ()
      ensures View() == IDLE
    {
      started, session, cancelled, initBytes, lastAccess, subs, chans, demux := false, 0, {}, None, 0, {}, map[], map[];
    }

    // Closing a closed channel would panic.
    method CloseChan(ch: nat)
      requires ch in chans && !chans[ch].closed
      modifies `chans
      ensures chans == old(chans)[ch := old(chans)[ch].(closed := true)]
    {
      chans := chans[ch := chans[ch].(closed := true)];
    }

    // Sending on a closed channel would panic; a full one drops the fragment.
    method TrySend(ch: nat, f: Fragment)
      requires ch in chans && !chans[ch].closed
      modifies `chans
      ensures chans == old(chans)[ch := Offer(old(chans)[ch], f)]
    {
      var c := chans[ch];
      if |c.queue| < CAPACITY {
        chans := chans[ch := c.(queue := c.queue + [f])];
      } else {
        chans := chans[ch := c.(missed := c.missed + {f.index})];
      }
    }

    method CloseSubscribers()
      requires AllOpen(chans, subs)
      modifies `subs, `chans
      ensures subs == {} && chans == CloseAll(old(chans), old(subs))
    {
      ghost var gone := {};
      while subs != {}
        invariant gone !! subs && gone + subs == old(subs)
        invariant chans == CloseAll(old(chans), gone)
        decreases subs
      {
        var ch :| ch in subs;
        CloseChan(ch);
        subs := subs - {ch};
        gone := gone + {ch};
      }
      assert gone == old(subs);
    }

    method OfferToSubscribers(f: Fragment)
      requires AllOpen(chans, subs)
      modifies `chans
      ensures chans == OfferAll(old(chans), subs, f)
    {
      var todo := subs;
      ghost var served := {};
      while todo != {}
        invariant served !! todo && served + todo == subs
        invariant chans == OfferAll(old(chans), served, f)
        decreases todo
      {
        var ch :| ch in todo;
        TrySend(ch, f);
        todo := todo - {ch};
        served := served + {ch};
      }
      assert served == subs;
    }

    method StopLocked()
      requires Inv(View())
      modifies this
      ensures View() == Stop(old(View())) && Inv(View())
    {
      assert Inv(Stop(View())) by {
        StopKeepsInv(View());
      }
      if !started {
        return;
      }
      cancelled := cancelled + {session};
      SubscribersAreOpen(old(View()));
      CloseSubscribers();
      initBytes := None;
      started := false;
    }

    // emitFragment by the demuxer of session s; ok: the fragment marshals.
    method EmitFragment(s: nat, index: nat, ok: bool)
      requires Inv(View()) && s in demux && demux[s].initBuilt && index == demux[s].count + 1
      modifies `chans, `demux
      ensures View() == Emitted(old(View()), s, ok) && Inv(View())
    {
      assert Inv(Emitted(View(), s, ok)) by {
        EmitKeepsInv(View(), s, ok);
      }
      var p := demux[s];
      demux := demux[s := p.(count := index, failed := if ok then p.failed else p.failed + {index})];
      if ok && s !in cancelled {
        SubscribersAreOpen(old(View()));
        OfferToSubscribers(Fragment(s, index));
      }
    }

    method PublishInit(s: nat, ok: bool)
      requires Inv(View()) && s in demux && !demux[s].initBuilt
      modifies `initBytes, `demux
      ensures View() == Published(old(View()), s, ok) && Inv(View())
    {
      PublishKeepsInv(View(), s, ok);
      if ok {
        demux := demux[s := demux[s].(initBuilt := true)];
        if s !in cancelled {
          initBytes := Some(s);
        }
      }
    }

    // connected: startLocked reaches Play.
    method EnsureStarted(connected: bool, now: int)
      requires Inv(View())
      modifies this
      ensures View() == StartSession(old(View()), connected, now) && Inv(View())
    {
      if started {
        return;
      }
      if !connected {
        StopLocked();
        return;
      }
      StartKeepsInv(View(), now);
      session := session + 1;
      started := true;
      lastAccess := now;
      demux := demux[session := Progress(false, 0, {})];
    }

    // The registration in ServeHTTP: refused once the session has stopped.
    method Subscribe(ch: nat) returns (ok: bool)
      requires Inv(View()) && ch !in chans
      modifies `subs, `chans
      ensures View() == RegisterChan(old(View()), ch) && Inv(View())
      ensures ok == started == (ch in subs)
    {
      RegisterKeepsInv(View(), ch);
      if !started {
        return false;
      }
      chans := chans[ch := Chan(session, demux[session].count, [], false, None, [], {}, false)];
      subs := subs + {ch};
      ok := true;
    }

    // One tick of runIdleWatchdog: an unlocked look, then the decision under the lock.
    method Tick(now: int)
      requires Inv(View())
      modifies this
      ensures View() == (if old(subs) != {} then Next(old(View()), Touch(now)) else IdleStop(old(View()), now))
      ensures old(started) && old(subs) == {} ==> (started <==> now - old(lastAccess) <= 30 * 1_000_000_000)
      ensures old(subs) != {} ==> started == old(started) && subs == old(subs) && lastAccess == now
      ensures Inv(View())
    {
      if subs != {} {
        TouchKeepsInv(View(), now);
        lastAccess := now;
        return;
      }
      if started && |subs| == 0 && now - lastAccess > IDLE_TIMEOUT {
        StopLocked();
      }
    }
  }
}
