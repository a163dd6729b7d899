/** The demuxer of a progressive MP4 session (runDemux in internal/mp4/muxer.go): from timed access
    units to numbered, timed fragments. The loop runs on what it has received; whether the init
    segment marshals at an access unit is given, a fragment that fails to marshal still takes its
    number and its time. The parameter sets are kept in buffers that appends reuse, so a set that
    was injected into the pending access unit may change under it; that is modelled. */
module Demux {
  import opened Rtp
  import opened ParamSets

  const TIMESCALE := 90000

  datatype TimedAU = TimedAU(ts: Uint32, units: seq<NALU>)

  datatype Fragment = Fragment(units: seq<NALU>, baseTime: Uint64, seqNum: Uint32, duration: Uint32, isIDR: bool)

  // A slice and the cells of its buffer from its start.
  datatype RawSlice = RawSlice(cells: seq<Byte>, len: nat)

  type Slice = s: RawSlice | s.len <= |s.cells| witness RawSlice([], 0)

  function Content(s: Slice): NALU {
    s.cells[..s.len]
  }

  // How many spare cells an append allocates beyond a needed length, given the old capacity.
  type Grow = (nat, nat) -> nat

  // append(s[:0], unit...)
  function Store(s: Slice, unit: NALU, grow: Grow): (r: Slice)
    ensures Content(r) == unit
  {
    if |unit| <= |s.cells| then RawSlice(unit + s.cells[|unit|..], |unit|)
    else
      var zeros: seq<Byte> := seq(grow(|s.cells|, |unit|), _ => 0);
      RawSlice(unit + zeros, |unit|)
  }

  // An earlier slice of the buffer, as its holder reads it; shared until the buffer is replaced.
  datatype Alias = Alias(bytes: NALU, shared: bool)

  function Overlay(bytes: NALU, unit: NALU): (r: NALU)
    ensures |r| == |bytes|
  {
    if |unit| >= |bytes| then unit[..|bytes|] else unit + bytes[|unit|..]
  }

  function Seen(a: Alias, s: Slice, unit: NALU): Alias {
    if !a.shared then a
    else if |unit| <= |s.cells| then Alias(Overlay(a.bytes, unit), true)
    else Alias(a.bytes, false)
  }

  // The stored set, and the alias, after the units of an access unit.
  function StoreAll(s: Slice, units: seq<NALU>, kind: int, grow: Grow): Slice {
    if units == [] then s
    else
      var n := |units| - 1;
      var prev := StoreAll(s, units[..n], kind, grow);
      if IsType(units[n], kind) then Store(prev, units[n], grow) else prev
  }

  function SeenAll(a: Alias, s: Slice, units: seq<NALU>, kind: int, grow: Grow): Alias {
    if units == [] then a
    else
      var n := |units| - 1;
      var prev := SeenAll(a, s, units[..n], kind, grow);
      if IsType(units[n], kind) then Seen(prev, StoreAll(s, units[..n], kind, grow), units[n]) else prev
  }

  // ----- what a session is given, and what it makes of it -----

  // The access units in order of arrival, the parameter sets of the SDP, at which access units the
  // init segment would marshal, and the allocator.
  datatype Input = Input(aus: seq<TimedAU>, sps: Slice, pps: Slice, initOK: nat -> bool, grow: Grow)

  // The stored set after n access units.
  function SetAfter(inp: Input, kind: int, n: nat): Slice
    requires n <= |inp.aus|
  {
    if n == 0 then (if kind == SPS then inp.sps else inp.pps)
    else StoreAll(SetAfter(inp, kind, n - 1), inp.aus[n - 1].units, kind, inp.grow)
  }

  // The parameter sets an access unit is injected with.
  function SetAt(inp: Input, kind: int, k: nat): NALU
    requires k < |inp.aus|
  {
    Content(SetAfter(inp, kind, k + 1))
  }

  predicate InitAt(inp: Input, k: nat)
    requires k < |inp.aus|
  {
    SetAt(inp, SPS, k) != [] && SetAt(inp, PPS, k) != [] && inp.initOK(k)
  }

  // The first of the first n access units at which the init segment is built, or n.
  function First(inp: Input, n: nat): (f: nat)
    requires n <= |inp.aus|
    ensures f <= n
  {
    if n == 0 then 0
    else
      var f := First(inp, n - 1);
      if f < n - 1 || InitAt(inp, n - 1) then f else n
  }

  // Time to the next access unit; 1/30 s when that is not later.
  function Duration(inp: Input, k: nat): (d: int)
    requires k + 1 < |inp.aus|
    ensures 1 <= d < TWO31
  {
    var gap := Delta(inp.aus[k + 1].ts, inp.aus[k].ts);
    if gap > 0 then gap else TIMESCALE / 30
  }

  // Sum of the durations from f up to k.
  function Base(inp: Input, f: nat, k: nat): nat
    requires f <= k < |inp.aus|
  {
    if k == f then 0 else Base(inp, f, k - 1) + Duration(inp, k - 1)
  }

  // The same as the source keeps it, in 64 bits.
  function BaseTime(inp: Input, f: nat, k: nat): Uint64
    requires f <= k < |inp.aus|
  {
    if k == f then 0 else Add64(BaseTime(inp, f, k - 1), Duration(inp, k - 1))
  }

  // The sequence number after n fragments.
  function SeqNum(n: nat): Uint32 {
    if n == 0 then 0 else Inc32(SeqNum(n - 1))
  }

  predicate Injects(inp: Input, kind: int, k: nat)
    requires k < |inp.aus|
  {
    SetAt(inp, SPS, k) != [] && SetAt(inp, PPS, k) != [] && Has(inp.aus[k].units, IDR) && !Has(inp.aus[k].units, kind)
  }

  // The injected set by the time the next access unit has been looked through.
  function SetSent(inp: Input, kind: int, k: nat): NALU
    requires k + 1 < |inp.aus|
  {
    SeenAll(Alias(SetAt(inp, kind, k), true), SetAfter(inp, kind, k + 1), inp.aus[k + 1].units, kind, inp.grow).bytes
  }

  function Payload(inp: Input, k: nat): seq<NALU>
    requires k + 1 < |inp.aus|
  {
    (if Injects(inp, SPS, k) then [SetSent(inp, SPS, k)] else [])
    + (if Injects(inp, PPS, k) then [SetSent(inp, PPS, k)] else [])
    + inp.aus[k].units
  }

  // The fragment of access unit k in a session whose init segment was built at f.
  function FragmentOf(inp: Input, f: nat, k: nat): Fragment
    requires f <= k && k + 1 < |inp.aus|
  {
    Fragment(
      Payload(inp, k), BaseTime(inp, f, k), SeqNum(k - f + 1), Duration(inp, k), Has(inp.aus[k].units, IDR))
  }

  // The fragments of access units f up to k.
  function Fragments(inp: Input, f: nat, k: nat): (out: seq<Fragment>)
    requires f <= k < |inp.aus|
    ensures |out| == k - f
  {
    if k == f then [] else Fragments(inp, f, k - 1) + [FragmentOf(inp, f, k - 1)]
  }

  function Raw(inp: Input, n: nat): (h: seq<Uint32>)
    requires n <= |inp.aus|
    ensures |h| == n
  {
    if n == 0 then [] else Raw(inp, n - 1) + [inp.aus[n - 1].ts]
  }

  // The presentation clock after n access units.
  function Clock(inp: Input, n: nat): Int64
    requires n <= |inp.aus|
  {
    Time(Raw(inp, n))
  }

  // ----- the loop -----

  // The buffered access unit with the slices it was injected with.
  datatype Pending = Pending(
    needSPS: bool, sps: Alias, needPPS: bool, pps: Alias, units: seq<NALU>, pts: Int64, isIDR: bool)

  function PendingOf(inp: Input, k: nat): Pending
    requires k < |inp.aus|
  {
    Pending(
      Injects(inp, SPS, k), Alias(SetAt(inp, SPS, k), true),
      Injects(inp, PPS, k), Alias(SetAt(inp, PPS, k), true),
      inp.aus[k].units, Clock(inp, k + 1), Has(inp.aus[k].units, IDR))
  }

  // The parameter sets of an access unit replace the stored ones, under whoever shares their buffers.
  method Harvest(sps: Slice, pps: Slice, a: Alias, b: Alias, units: seq<NALU>, grow: Grow)
    returns (sps': Slice, pps': Slice, a': Alias, b': Alias)
    ensures sps' == StoreAll(sps, units, SPS, grow) && pps' == StoreAll(pps, units, PPS, grow)
    ensures a' == SeenAll(a, sps, units, SPS, grow) && b' == SeenAll(b, pps, units, PPS, grow)
  {
    sps', pps', a', b' := sps, pps, a, b;
    for i := 0 to |units|
      invariant sps' == StoreAll(sps, units[..i], SPS, grow) && pps' == StoreAll(pps, units[..i], PPS, grow)
      invariant a' == SeenAll(a, sps, units[..i], SPS, grow) && b' == SeenAll(b, pps, units[..i], PPS, grow)
    {
      assert units[..i + 1][..i] == units[..i];
      var unit := units[i];
      if |unit| == 0 {
        continue;
      }
      if unit[0] % 32 == SPS {
        a' := Seen(a', sps', unit);
        sps' := Store(sps', unit, grow);
      } else if unit[0] % 32 == PPS {
        b' := Seen(b', pps', unit);
        pps' := Store(pps', unit, grow);
      }
    }
    assert units[..|units|] == units;
  }

  // injectParamSets on slices.
  method Buffered(units: seq<NALU>, sps: Slice, pps: Slice, pts: Int64) returns (p: Pending)
    ensures var known := Content(sps) != [] && Content(pps) != [] && Has(units, IDR);
      p == Pending(
        known && !Has(units, SPS), Alias(Content(sps), true),
        known && !Has(units, PPS), Alias(Content(pps), true), units, pts, Has(units, IDR))
  {
    var hasIDR, hasSPS, hasPPS := Kinds(units);
    var known := sps.len > 0 && pps.len > 0 && hasIDR;
    var injected := Inject(units, Content(sps), Content(pps));
    InjectKeeps(units, Content(sps), Content(pps));
    var isIDR := ContainsIDR(injected);
    p := Pending(
      known && !hasSPS, Alias(sps.cells[..sps.len], true),
      known && !hasPPS, Alias(pps.cells[..pps.len], true), units, pts, isIDR);
  }

  function Bytes(p: Pending): seq<NALU> {
    (if p.needSPS then [p.sps.bytes] else []) + (if p.needPPS then [p.pps.bytes] else []) + p.units
  }

  lemma RawStep(inp: Input, n: nat)
    requires 0 < n < |inp.aus|
    ensures var gap := Delta(inp.aus[n].ts, inp.aus[n - 1].ts);
      && Elapsed(Raw(inp, n + 1)) == Elapsed(Raw(inp, n)) + gap
      && Clock(inp, n + 1) == Wrap64(Clock(inp, n) + gap)
  {
    OneMore(Raw(inp, n), inp.aus[n].ts);
  }

  // The time from one buffered access unit to the next is the signed difference of their timestamps.
  lemma GapIsDelta(inp: Input, n: nat)
    requires 0 < n < |inp.aus|
    ensures Wrap64(Clock(inp, n + 1) - Clock(inp, n)) == Delta(inp.aus[n].ts, inp.aus[n - 1].ts)
  {
    RawStep(inp, n);
  }

  // The presentation time of access unit n.
  method Advance(ghost inp: Input, ghost n: nat, ts: Uint32, haveFirstTS: bool, lastRawTS: Uint32, pts: Int64)
    returns (pts': Int64)
    requires n < |inp.aus| && ts == inp.aus[n].ts && pts == Clock(inp, n)
    requires haveFirstTS == (n > 0) && (n > 0 ==> lastRawTS == inp.aus[n - 1].ts)
    ensures pts' == Clock(inp, n + 1)
  {
    var last := if haveFirstTS then lastRawTS else ts;
    if n > 0 {
      RawStep(inp, n);
    }
    pts' := Wrap64(pts + Delta(ts, last));
  }

  // The stored sets and the clock after n access units.
  ghost predicate Took(inp: Input, n: nat, sps: Slice, pps: Slice, lastRawTS: Uint32, pts: Int64) {
    && n <= |inp.aus|
    && sps == SetAfter(inp, SPS, n) && pps == SetAfter(inp, PPS, n)
    && pts == Clock(inp, n) && (n > 0 ==> lastRawTS == inp.aus[n - 1].ts)
  }

  // Access unit n and what it leaves behind: the stored sets, those of the pending one as it sees them,
  // and its own buffer entry.
  method Receive(inp: Input, n: nat, sps: Slice, pps: Slice, a: Alias, b: Alias, lastRawTS: Uint32, pts: Int64)
    returns (sps': Slice, pps': Slice, a': Alias, b': Alias, next: Pending)
    requires n < |inp.aus| && Took(inp, n, sps, pps, lastRawTS, pts)
    ensures Took(inp, n + 1, sps', pps', inp.aus[n].ts, next.pts) && next == PendingOf(inp, n)
    ensures a' == SeenAll(a, SetAfter(inp, SPS, n), inp.aus[n].units, SPS, inp.grow)
    ensures b' == SeenAll(b, SetAfter(inp, PPS, n), inp.aus[n].units, PPS, inp.grow)
  {
    var tau := inp.aus[n];
    sps', pps', a', b' := Harvest(sps, pps, a, b, tau.units, inp.grow);
    var at := Advance(inp, n, tau.ts, n > 0, lastRawTS, pts);
    next := Buffered(tau.units, sps', pps', at);
  }

  // Access unit n - 1, with its injected sets as they are once n has been received, can be sent.
  ghost predicate Ready(inp: Input, n: nat, p: Pending, pts: Int64)
    requires 0 < n < |inp.aus|
  {
    && Bytes(p) == Payload(inp, n - 1)
    && p.isIDR == Has(inp.aus[n - 1].units, IDR)
    && p.pts == Clock(inp, n) && pts == Clock(inp, n + 1)
  }

  lemma PendingIsReady(inp: Input, n: nat, p: Pending, a: Alias, b: Alias)
    requires 0 < n < |inp.aus| && p == PendingOf(inp, n - 1)
    requires a == SeenAll(p.sps, SetAfter(inp, SPS, n), inp.aus[n].units, SPS, inp.grow)
    requires b == SeenAll(p.pps, SetAfter(inp, PPS, n), inp.aus[n].units, PPS, inp.grow)
    ensures Ready(inp, n, p.(sps := a, pps := b), Clock(inp, n + 1))
  {
    assert a.bytes == SetSent(inp, SPS, n - 1) && b.bytes == SetSent(inp, PPS, n - 1);
  }

  // Access units f up to k have been sent.
  ghost predicate Sent(inp: Input, f: nat, k: nat, baseTime: Uint64, seqNum: Uint32, out: seq<Fragment>) {
    && f <= k < |inp.aus|
    && baseTime == BaseTime(inp, f, k)
    && seqNum == SeqNum(k - f)
    && out == Fragments(inp, f, k)
  }

  // How long the pending access unit n - 1 lasts, once the next has arrived.
  method Backfill(ghost inp: Input, ghost n: nat, before: Int64, pts: Int64) returns (duration: Uint32)
    requires 0 < n < |inp.aus| && Wrap64(pts - before) == Delta(inp.aus[n].ts, inp.aus[n - 1].ts)
    ensures duration == Duration(inp, n - 1)
  {
    var d: int := Wrap64(pts - before);
    if d <= 0 {
      // Out of order or a duplicate: 1/30 s.
      d := TIMESCALE / 30;
    }
    duration := d % TWO32;
  }

  // Sends the pending access unit n - 1.
  method Flush(
    ghost inp: Input, ghost f: nat, ghost n: nat, p: Pending, pts: Int64, baseTime: Uint64, seqNum: Uint32,
    out: seq<Fragment>)
    returns (baseTime': Uint64, seqNum': Uint32, out': seq<Fragment>)
    requires f < n < |inp.aus| && Ready(inp, n, p, pts) && Sent(inp, f, n - 1, baseTime, seqNum, out)
    ensures Sent(inp, f, n, baseTime', seqNum', out')
  {
    GapIsDelta(inp, n);
    var duration := Backfill(inp, n, p.pts, pts);
    seqNum' := Inc32(seqNum);
    baseTime' := Add64(baseTime, duration);
    var fragment := Fragment(Bytes(p), baseTime, seqNum', duration, p.isIDR);
    out' := out + [fragment];
    SentStep(inp, f, n, baseTime, out, baseTime', seqNum', out');
  }

  lemma SentStep(
    inp: Input, f: nat, n: nat, baseTime: Uint64, out: seq<Fragment>, baseTime': Uint64, seqNum': Uint32,
    out': seq<Fragment>)
    requires f < n < |inp.aus| && baseTime == BaseTime(inp, f, n - 1) && out == Fragments(inp, f, n - 1)
    requires seqNum' == SeqNum(n - f) && baseTime' == Add64(baseTime, Duration(inp, n - 1))
    requires out' == out
      + [Fragment(Payload(inp, n - 1), baseTime, seqNum', Duration(inp, n - 1), Has(inp.aus[n - 1].units, IDR))]
    ensures Sent(inp, f, n, baseTime', seqNum', out')
  {
  }

  // After n access units: nothing has started, or unit n - 1 is pending and those from f on before it are sent.
  ghost predicate Progress(
    inp: Input, n: nat, f: nat, initBuilt: bool, pending: Pending, baseTime: Uint64, seqNum: Uint32,
    out: seq<Fragment>)
  {
    && n <= |inp.aus| && f == First(inp, n) && initBuilt == (f < n)
    && (initBuilt ==> pending == PendingOf(inp, n - 1) && Sent(inp, f, n - 1, baseTime, seqNum, out))
    && (!initBuilt ==> baseTime == 0 && seqNum == 0 && out == [])
  }

  // Access unit n once its parameter sets are stored: whether the init segment can be published at it.
  method TryInit(inp: Input, n: nat, sps: Slice, pps: Slice) returns (ok: bool)
    requires n < |inp.aus| && sps == SetAfter(inp, SPS, n + 1) && pps == SetAfter(inp, PPS, n + 1)
    ensures ok == InitAt(inp, n)
  {
    ok := sps.len > 0 && pps.len > 0 && inp.initOK(n);
  }

  lemma FirstStep(inp: Input, n: nat)
    requires n < |inp.aus|
    ensures First(inp, n + 1) == if First(inp, n) < n || InitAt(inp, n) then First(inp, n) else n + 1
  {
  }

  // Each access unit from the one the init segment was built at, but the last, becomes one fragment.
  method RunDemux(inp: Input) returns (out: seq<Fragment>, initBuilt: bool)
    ensures var f := First(inp, |inp.aus|);
      && initBuilt == (f < |inp.aus|)
      && out == if initBuilt then Fragments(inp, f, |inp.aus| - 1) else []
  {
    var sps, pps := inp.sps, inp.pps;
    var lastRawTS: Uint32, pts: Int64 := 0, 0;
    var pending := Pending(false, Alias([], false), false, Alias([], false), [], 0, false);
    var baseTime: Uint64, seqNum: Uint32 := 0, 0;
    ghost var f := 0;
    initBuilt, out := false, [];
    for n := 0 to |inp.aus|
      invariant Took(inp, n, sps, pps, lastRawTS, pts)
      invariant Progress(inp, n, f, initBuilt, pending, baseTime, seqNum, out)
    {
      var a, b, next;
      sps, pps, a, b, next := Receive(inp, n, sps, pps, pending.sps, pending.pps, lastRawTS, pts);
      lastRawTS, pts := inp.aus[n].ts, next.pts;
      FirstStep(inp, n);
      f := First(inp, n + 1);
      if !initBuilt {
        // Nothing is pending yet.
        initBuilt := TryInit(inp, n, sps, pps);
        if initBuilt {
          pending := next;
        }
      } else {
        PendingIsReady(inp, n, pending, a, b);
        baseTime, seqNum, out := Flush(inp, f, n, pending.(sps := a, pps := b), pts, baseTime, seqNum, out);
        pending := next;
      }
    }
  }
}
