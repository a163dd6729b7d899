/** What the fragments of a progressive MP4 session promise a player, whatever access units arrive. */
module DemuxLaws {
  import opened Rtp
  import opened ParamSets
  import opened Demux

  // The session starts at the first access unit at which both sets are known and the init segment marshals.
  lemma {:induction false} StartsAtFirst(inp: Input, n: nat)
    requires n <= |inp.aus|
    ensures forall k | 0 <= k < First(inp, n) ::
      SetAt(inp, SPS, k) == [] || SetAt(inp, PPS, k) == [] || !inp.initOK(k)
    ensures First(inp, n) < n ==>
      var f := First(inp, n); SetAt(inp, SPS, f) != [] && SetAt(inp, PPS, f) != [] && inp.initOK(f)
    decreases n
  {
    if n > 0 {
      StartsAtFirst(inp, n - 1);
    }
  }

  // Fragment i is access unit f + i: each once, in order.
  lemma {:induction false} FragmentAt(inp: Input, f: nat, k: nat, i: nat)
    requires f <= k < |inp.aus| && i < k - f
    ensures Fragments(inp, f, k)[i] == FragmentOf(inp, f, f + i)
    decreases k
  {
    if i < k - 1 - f {
      FragmentAt(inp, f, k - 1, i);
    }
  }

  // Its time lasts until the next access unit, by their 32-bit timestamps; 1/30 s of 90 kHz ticks when
  // the next one does not come later, modulo 2^32 and within 2^31.
  lemma DurationExactly(inp: Input, f: nat, k: nat, i: nat)
    requires f <= k < |inp.aus| && i < k - f
    ensures var ahead := (inp.aus[f + i + 1].ts - inp.aus[f + i].ts) % 0x1_0000_0000;
      Fragments(inp, f, k)[i].duration == if 0 < ahead < 0x8000_0000 then ahead else 3000
  {
    TimesAt(inp, f, k, i);
    DeltaExactly(inp.aus[f + i + 1].ts, inp.aus[f + i].ts);
  }

  // The fragments leave no gap and do not overlap: each starts where the one before it ends, the first at 0.
  lemma FragmentsAreContiguous(inp: Input, f: nat, k: nat, i: nat)
    requires f <= k < |inp.aus| && i < k - f
    ensures var out := Fragments(inp, f, k);
      if i == 0 then out[i].baseTime == 0
      else out[i].baseTime == Add64(out[i - 1].baseTime, out[i - 1].duration)
  {
    TimesAt(inp, f, k, i);
    if i > 0 {
      TimesAt(inp, f, k, i - 1);
    }
  }

  lemma TimesAt(inp: Input, f: nat, k: nat, i: nat)
    requires f <= k < |inp.aus| && i < k - f
    ensures var out := Fragments(inp, f, k)[i];
      out.baseTime == BaseTime(inp, f, f + i) && out.duration == Duration(inp, f + i)
  {
    FragmentAt(inp, f, k, i);
  }

  // ----- sequence numbers -----

  lemma {:induction false} SeqNumIsCount(n: nat)
    requires n <= TWO32
    ensures SeqNum(n) == if n < TWO32 then n else 0
  {
    if n > 0 {
      SeqNumIsCount(n - 1);
    }
  }

  lemma NumberAt(inp: Input, f: nat, k: nat, i: nat)
    requires f <= k < |inp.aus| && i < k - f
    requires i < TWO32
    ensures Fragments(inp, f, k)[i].seqNum == if i + 1 < TWO32 then i + 1 else 0
  {
    FragmentAt(inp, f, k, i);
    SeqNumIsCount(i + 1);
  }

  ghost predicate Increasing(out: seq<Fragment>) {
    forall i, j | 0 <= i < j < |out| :: out[i].seqNum < out[j].seqNum
  }

  // Numbers run 1, 2, 3, ...; they increase throughout exactly in sessions of fewer than 2^32 fragments.
  lemma NumbersIncreaseExactly(inp: Input, f: nat, k: nat)
    requires f <= k < |inp.aus|
    ensures forall i | 0 <= i < k - f && i + 1 < TWO32 :: Fragments(inp, f, k)[i].seqNum == i + 1
    ensures Increasing(Fragments(inp, f, k)) <==> k - f < TWO32
  {
    forall i | 0 <= i < k - f && i + 1 < TWO32
      ensures Fragments(inp, f, k)[i].seqNum == i + 1
    {
      NumberAt(inp, f, k, i);
    }
    if k - f >= TWO32 {
      NumberAt(inp, f, k, 0);
      NumberAt(inp, f, k, TWO32 - 1);
    }
  }

  // ----- the timeline -----

  // The base time of a fragment is the sum of the durations before it, as far as 64 bits hold it.
  lemma {:induction false} BaseTimeIsBase(inp: Input, f: nat, k: nat)
    requires f <= k < |inp.aus|
    ensures BaseTime(inp, f, k) == Base(inp, f, k) % TWO64
    decreases k
  {
    if k == f {
    } else {
      var before, d := Base(inp, f, k - 1), Duration(inp, k - 1);
      BaseTimeIsBase(inp, f, k - 1);
      AddMod64(before, d);
      assert Base(inp, f, k) == before + d;
    }
  }

  function Gap(inp: Input, k: nat): int
    requires k + 1 < |inp.aus|
  {
    Delta(inp.aus[k + 1].ts, inp.aus[k].ts)
  }

  // Presentation time from access unit f to k.
  function ElapsedFrom(inp: Input, f: nat, k: nat): int
    requires f <= k < |inp.aus|
  {
    if k == f then 0 else ElapsedFrom(inp, f, k - 1) + Gap(inp, k - 1)
  }

  // It is the difference of the presentation clock before wrapping.
  lemma {:induction false} ElapsedIsClock(inp: Input, f: nat, k: nat)
    requires f <= k < |inp.aus|
    ensures ElapsedFrom(inp, f, k) == Elapsed(Raw(inp, k + 1)) - Elapsed(Raw(inp, f + 1))
    decreases k
  {
    if f < k {
      ElapsedIsClock(inp, f, k - 1);
      RawStep(inp, k);
    }
  }

  ghost predicate AllAdvance(inp: Input, f: nat, k: nat)
    requires f <= k < |inp.aus|
  {
    forall i | f <= i < k :: Gap(inp, i) > 0
  }

  lemma DriftStep(inp: Input, f: nat, k: nat)
    requires f < k < |inp.aus|
    ensures var more := Duration(inp, k - 1) - Gap(inp, k - 1);
      && Base(inp, f, k) - ElapsedFrom(inp, f, k) == Base(inp, f, k - 1) - ElapsedFrom(inp, f, k - 1) + more
      && more >= 0 && (more == 0 <==> Gap(inp, k - 1) > 0)
    ensures AllAdvance(inp, f, k) <==> AllAdvance(inp, f, k - 1) && Gap(inp, k - 1) > 0
  {
  }

  // How far decode times run ahead of presentation times: never behind, never shrinking, and not
  // at all exactly if every gap is positive.
  lemma {:induction false} DriftIsExact(inp: Input, f: nat, j: nat, k: nat)
    requires f <= j <= k < |inp.aus|
    ensures 0 <= Base(inp, f, j) - ElapsedFrom(inp, f, j) <= Base(inp, f, k) - ElapsedFrom(inp, f, k)
    ensures Base(inp, f, k) == ElapsedFrom(inp, f, k) <==> AllAdvance(inp, f, k)
    decreases k
  {
    if f < k {
      DriftIsExact(inp, f, if j < k then j else k - 1, k - 1);
      DriftStep(inp, f, k);
    }
  }

  // Every base time is the true time since the first.
  ghost predicate TrueSoFar(inp: Input, times: seq<int>, f: nat, k: nat)
    requires f <= k < |inp.aus| == |times|
  {
    forall j | f <= j <= k :: Base(inp, f, j) == times[j] - times[f]
  }

  ghost predicate TrueDurations(inp: Input, times: seq<int>, f: nat, k: nat)
    requires f <= k < |inp.aus| == |times|
  {
    forall i | f <= i < k :: Duration(inp, i) == times[i + 1] - times[i]
  }

  lemma {:induction false} BaseSums(inp: Input, times: seq<int>, f: nat, k: nat)
    requires f <= k < |inp.aus| == |times| && TrueDurations(inp, times, f, k)
    ensures Base(inp, f, k) == times[k] - times[f]
    decreases k
  {
    if f < k {
      BaseSums(inp, times, f, k - 1);
      assert Duration(inp, k - 1) == times[k - 1 + 1] - times[k - 1];
    }
  }

  lemma BaseSumsDurations(inp: Input, times: seq<int>, f: nat, k: nat)
    requires f <= k < |inp.aus| == |times|
    ensures TrueSoFar(inp, times, f, k) <==> TrueDurations(inp, times, f, k)
  {
    if TrueDurations(inp, times, f, k) {
      forall j | f <= j <= k
        ensures Base(inp, f, j) == times[j] - times[f]
      {
        BaseSums(inp, times, f, j);
      }
    }
    if TrueSoFar(inp, times, f, k) {
      forall i | f <= i < k
        ensures Duration(inp, i) == times[i + 1] - times[i]
      {
        assert Base(inp, f, i + 1) == Base(inp, f, i) + Duration(inp, i);
      }
    }
  }

  lemma DurationIsGapExactly(inp: Input, times: seq<int>, k: nat)
    requires k + 1 < |inp.aus| == |times|
    requires inp.aus[k].ts == times[k] % TWO32 && inp.aus[k + 1].ts == times[k + 1] % TWO32
    ensures Duration(inp, k) == times[k + 1] - times[k] <==> 0 < times[k + 1] - times[k] < TWO31
  {
    DeltaIsGap(times[k], times[k + 1]);
  }

  // With the true times of the access units: every base time is the true time since the first
  // exactly if every gap is positive and fits in 31 bits.
  lemma BaseIsTrueExactly(inp: Input, times: seq<int>, f: nat, k: nat)
    requires f <= k < |inp.aus| == |times|
    requires forall i | 0 <= i < |times| :: inp.aus[i].ts == times[i] % TWO32
    ensures TrueSoFar(inp, times, f, k) <==> forall i | f <= i < k :: 0 < times[i + 1] - times[i] < TWO31
  {
    BaseSumsDurations(inp, times, f, k);
    forall i | f <= i < k
      ensures Duration(inp, i) == times[i + 1] - times[i] <==> 0 < times[i + 1] - times[i] < TWO31
    {
      DurationIsGapExactly(inp, times, i);
    }
  }

  // ----- payloads -----

  // A fragment holds its access unit whole, behind at most two parameter sets, and is marked as a
  // sync sample exactly if there is an IDR in it.
  lemma PayloadKeepsUnits(inp: Input, f: nat, k: nat)
    requires f <= k && k + 1 < |inp.aus|
    ensures var units, own := FragmentOf(inp, f, k).units, inp.aus[k].units;
      && |own| <= |units| <= |own| + 2
      && units[|units| - |own|..] == own
      && (FragmentOf(inp, f, k).isIDR <==> Has(units, IDR))
  {
    var own := inp.aus[k].units;
    var prefix := (if Injects(inp, SPS, k) then [SetSent(inp, SPS, k)] else [])
      + (if Injects(inp, PPS, k) then [SetSent(inp, PPS, k)] else []);
    assert Payload(inp, k) == prefix + own;
    HasConcat(prefix, own, IDR);
  }

  // Whether all units of a kind fit in the buffer, so that it is never replaced.
  predicate AllFit(cap: nat, units: seq<NALU>, kind: int) {
    forall i | 0 <= i < |units| && IsType(units[i], kind) :: |units[i]| <= cap
  }

  // The units stored in the buffer before it is replaced.
  function StoredOver(cap: nat, units: seq<NALU>, kind: int): seq<NALU> {
    if units == [] then []
    else
      var n := |units| - 1;
      StoredOver(cap, units[..n], kind) + if IsType(units[n], kind) && AllFit(cap, units, kind) then [units[n]] else []
  }

  // What the last of them leaves at a position, or what was there.
  function LastAt(stored: seq<NALU>, i: nat, otherwise: Byte): Byte {
    if stored == [] then otherwise
    else if i < |stored[|stored| - 1]| then stored[|stored| - 1][i]
    else LastAt(stored[..|stored| - 1], i, otherwise)
  }

  lemma AllFitLast(cap: nat, units: seq<NALU>, kind: int)
    requires units != []
    ensures var n := |units| - 1;
      AllFit(cap, units, kind) <==> AllFit(cap, units[..n], kind) && (IsType(units[n], kind) ==> |units[n]| <= cap)
  {
    var n := |units| - 1;
    assert forall i | 0 <= i < n :: units[..n][i] == units[i];
  }

  // A slice held elsewhere shows at each position what the last unit stored over it left there.
  lemma {:induction false} SeenIsLast(s: Slice, units: seq<NALU>, kind: int, grow: Grow)
    ensures var seen := SeenAll(Alias(Content(s), true), s, units, kind, grow);
      && (seen.shared <==> AllFit(|s.cells|, units, kind))
      && (seen.shared ==> |StoreAll(s, units, kind, grow).cells| == |s.cells|)
      && |seen.bytes| == s.len
      && forall i | 0 <= i < s.len :: seen.bytes[i] == LastAt(StoredOver(|s.cells|, units, kind), i, s.cells[i])
    decreases |units|
  {
    if units == [] {
    } else {
      var n := |units| - 1;
      SeenIsLast(s, units[..n], kind, grow);
      AllFitLast(|s.cells|, units, kind);
      var cap, u := |s.cells|, units[n];
      var stored := StoredOver(cap, units[..n], kind);
      var prev := SeenAll(Alias(Content(s), true), s, units[..n], kind, grow);
      if IsType(u, kind) && AllFit(cap, units, kind) {
        assert SeenAll(Alias(Content(s), true), s, units, kind, grow).bytes == Overlay(prev.bytes, u);
        assert StoredOver(cap, units, kind) == stored + [u] && (stored + [u])[..|stored|] == stored;
      } else {
        assert SeenAll(Alias(Content(s), true), s, units, kind, grow).bytes == prev.bytes;
        assert StoredOver(cap, units, kind) == stored;
      }
    }
  }

  lemma {:induction false} NoneSeen(a: Alias, s: Slice, units: seq<NALU>, kind: int, grow: Grow)
    requires forall i | 0 <= i < |units| :: !IsType(units[i], kind)
    ensures SeenAll(a, s, units, kind, grow) == a && StoreAll(s, units, kind, grow) == s
    decreases |units|
  {
    if units == [] {
    } else {
      NoneSeen(a, s, units[..|units| - 1], kind, grow);
    }
  }

  // The next access unit leaves the injected set of this one alone: at each position the last of its
  // sets stored there, if any is, has the same byte.
  predicate LeftAlone(inp: Input, kind: int, k: nat)
    requires k + 1 < |inp.aus|
  {
    Injects(inp, kind, k) ==>
      var s := SetAfter(inp, kind, k + 1);
      forall i | 0 <= i < s.len ::
        LastAt(StoredOver(|s.cells|, inp.aus[k + 1].units, kind), i, s.cells[i]) == s.cells[i]
  }

  lemma SetSentIs(inp: Input, kind: int, k: nat)
    requires k + 1 < |inp.aus| && Injects(inp, kind, k)
    ensures SetSent(inp, kind, k) == SetAt(inp, kind, k) <==> LeftAlone(inp, kind, k)
  {
    var s := SetAfter(inp, kind, k + 1);
    SeenIsLast(s, inp.aus[k + 1].units, kind, inp.grow);
    if SetSent(inp, kind, k) == SetAt(inp, kind, k) {
      forall i | 0 <= i < s.len
        ensures LastAt(StoredOver(|s.cells|, inp.aus[k + 1].units, kind), i, s.cells[i]) == s.cells[i]
      {
        assert SetSent(inp, kind, k)[i] == Content(s)[i];
      }
    }
  }

  // A fragment is its access unit with the parameter sets known when it arrived exactly if the next
  // access unit leaves them alone.
  lemma PayloadIsInjectedExactly(inp: Input, k: nat)
    requires k + 1 < |inp.aus|
    ensures Payload(inp, k) == Inject(inp.aus[k].units, SetAt(inp, SPS, k), SetAt(inp, PPS, k))
      <==> LeftAlone(inp, SPS, k) && LeftAlone(inp, PPS, k)
  {
    if Injects(inp, SPS, k) {
      SetSentIs(inp, SPS, k);
    }
    if Injects(inp, PPS, k) {
      SetSentIs(inp, PPS, k);
    }
    PayloadParts(inp, k);
  }

  // The payload is the wanted one exactly if each set sent is.
  lemma PayloadParts(inp: Input, k: nat)
    requires k + 1 < |inp.aus|
    ensures Payload(inp, k) == Inject(inp.aus[k].units, SetAt(inp, SPS, k), SetAt(inp, PPS, k))
      <==> ((Injects(inp, SPS, k) ==> SetSent(inp, SPS, k) == SetAt(inp, SPS, k))
            && (Injects(inp, PPS, k) ==> SetSent(inp, PPS, k) == SetAt(inp, PPS, k)))
  {
    var own := inp.aus[k].units;
    var missing := Missing(own, SetAt(inp, SPS, k), SetAt(inp, PPS, k));
    var sent := (if Injects(inp, SPS, k) then [SetSent(inp, SPS, k)] else [])
      + (if Injects(inp, PPS, k) then [SetSent(inp, PPS, k)] else []);
    assert Payload(inp, k) == sent + own && |sent| == |missing|;
    assert (missing + own)[..|missing|] == missing && (sent + own)[..|sent|] == sent;
    assert Injects(inp, SPS, k) ==> sent[0] == SetSent(inp, SPS, k) && missing[0] == SetAt(inp, SPS, k);
    assert Injects(inp, PPS, k) ==>
      sent[|sent| - 1] == SetSent(inp, PPS, k) && missing[|sent| - 1] == SetAt(inp, PPS, k);
  }

  // It does happen: an IDR is sent with the parameter set that came after it.
  lemma SetOfTheNextUnit()
    ensures var inp := Input([TimedAU(0, [[5]]), TimedAU(3000, [[7, 2]])], RawSlice([7, 1], 2), RawSlice([8], 1),
      _ => true, (_, _) => 0);
      First(inp, 2) == 0 && SetAt(inp, SPS, 0) == [7, 1] && Payload(inp, 0) == [[7, 2], [8], [5]]
  {
    var first: seq<NALU>, second: seq<NALU> := [[5]], [[7, 2]];
    var inp := Input([TimedAU(0, first), TimedAU(3000, second)], RawSlice([7, 1], 2), RawSlice([8], 1), _ => true,
      (_, _) => 0);
    NoneSeen(Alias([], false), inp.sps, first, SPS, inp.grow);
    NoneSeen(Alias([], false), inp.pps, first, PPS, inp.grow);
    assert SetAfter(inp, SPS, 1) == inp.sps && SetAfter(inp, PPS, 1) == inp.pps;
    assert SetAt(inp, SPS, 0) == [7, 1] && SetAt(inp, PPS, 0) == [8];
    assert IsType(first[0], IDR);
    NoneSeen(Alias([8], true), inp.pps, second, PPS, inp.grow);
    assert SetSent(inp, PPS, 0) == [8];
    var unit: NALU := [7, 2];
    assert second[..0] == [] && second[0] == unit;
    assert Seen(Alias([7, 1], true), inp.sps, unit).bytes == unit;
    assert SeenAll(Alias([7, 1], true), inp.sps, second, SPS, inp.grow).bytes == unit;
    assert Payload(inp, 0) == [unit] + [[8]] + first;
  }

  // ----- parameter sets -----

  // The last unit of a kind among the access units so far, or what the SDP gave.
  function Latest(units: seq<NALU>, kind: int, otherwise: NALU): NALU {
    if units == [] then otherwise
    else if IsType(units[|units| - 1], kind) then units[|units| - 1]
    else Latest(units[..|units| - 1], kind, otherwise)
  }

  function AllUnits(inp: Input, n: nat): seq<NALU>
    requires n <= |inp.aus|
  {
    if n == 0 then [] else AllUnits(inp, n - 1) + inp.aus[n - 1].units
  }

  lemma {:induction false} LatestConcat(a: seq<NALU>, b: seq<NALU>, kind: int, otherwise: NALU)
    ensures Latest(a + b, kind, otherwise) == Latest(b, kind, Latest(a, kind, otherwise))
    decreases |b|
  {
    if b == [] {
      assert a + b == a;
    } else {
      LatestConcat(a, b[..|b| - 1], kind, otherwise);
      assert (a + b)[..|a + b| - 1] == a + b[..|b| - 1];
    }
  }

  lemma {:induction false} StoreIsLatest(s: Slice, units: seq<NALU>, kind: int, grow: Grow)
    ensures Content(StoreAll(s, units, kind, grow)) == Latest(units, kind, Content(s))
    decreases |units|
  {
    if units == [] {
    } else {
      StoreIsLatest(s, units[..|units| - 1], kind, grow);
    }
  }

  // Buffer reuse never corrupts the current sets: they are the latest received, in band before the SDP's.
  lemma {:induction false} SetIsLatest(inp: Input, kind: int, n: nat)
    requires n <= |inp.aus| && kind in {SPS, PPS}
    ensures Content(SetAfter(inp, kind, n))
      == Latest(AllUnits(inp, n), kind, Content(if kind == SPS then inp.sps else inp.pps))
  {
    if n > 0 {
      SetIsLatest(inp, kind, n - 1);
      StoreIsLatest(SetAfter(inp, kind, n - 1), inp.aus[n - 1].units, kind, inp.grow);
      LatestConcat(AllUnits(inp, n - 1), inp.aus[n - 1].units, kind, Content(if kind == SPS then inp.sps else inp.pps));
    }
  }
}
