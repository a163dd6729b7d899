/** RTP timestamps to presentation times (internal/hls/muxer.go and internal/mp4/muxer.go): the signed
    32-bit differences of successive timestamps, accumulated in a 64-bit integer. */
module Rtp {
  const TWO31: int := 0x8000_0000
  const TWO32: int := 0x1_0000_0000
  const TWO63: int := 0x8000_0000_0000_0000
  const TWO64: int := 0x1_0000_0000_0000_0000

  type Uint32 = n: int | 0 <= n < TWO32
  type Uint64 = n: int | 0 <= n < TWO64
  type Int64 = n: int | -TWO63 <= n < TWO63

  // int32 of a uint32 difference.
  function Delta(ts: Uint32, last: Uint32): (d: int)
    ensures -TWO31 <= d < TWO31
  {
    var u := if ts < last then ts - last + TWO32 else ts - last;
    if u >= TWO31 then u - TWO32 else u
  }

  lemma DeltaExactly(ts: Uint32, last: Uint32)
    ensures var ahead := (ts - last) % 0x1_0000_0000;
      Delta(ts, last) == if ahead < 0x8000_0000 then ahead else ahead - 0x1_0000_0000
  {
    assert (ts - last) % TWO32 == if ts < last then ts - last + TWO32 else ts - last;
  }

  // What an int64 holds after one addition or subtraction.
  function Wrap64(n: int): Int64
    requires -TWO64 <= n < TWO64
  {
    if n >= TWO63 then n - TWO64 else if n < -TWO63 then n + TWO64 else n
  }

  // What a uint32 holds after counting one up, and a uint64 after adding a duration.
  function Inc32(n: Uint32): Uint32 {
    if n + 1 < TWO32 then n + 1 else 0
  }

  function Add64(n: Uint64, d: Uint32): Uint64 {
    if n + d < TWO64 then n + d else n + d - TWO64
  }

  lemma Add64Wraps(n: Uint64, d: Uint32)
    ensures Add64(n, d) == (n + d) % 0x1_0000_0000_0000_0000
  {
    assert n + d >= TWO64 ==> n + d == 1 * TWO64 + Add64(n, d);
  }

  lemma AddMod64(n: nat, d: Uint32)
    ensures (n + d) % TWO64 == Add64(n % TWO64, d)
  {
    var q, sum := n / TWO64, n % TWO64 + d;
    assert n + d == q * TWO64 + sum;
  }

  // Difference accumulated over a run of timestamps.
  function Elapsed(h: seq<Uint32>): int {
    if |h| < 2 then 0
    else
      var n := |h| - 1;
      Elapsed(h[..n]) + Delta(h[n], h[n - 1])
  }

  // The clock kept in an int64, which starts at the first timestamp.
  function Time(h: seq<Uint32>): Int64 {
    if |h| < 2 then 0
    else
      var n := |h| - 1;
      Wrap64(Time(h[..n]) + Delta(h[n], h[n - 1]))
  }

  lemma OneMore(h: seq<Uint32>, ts: Uint32)
    ensures Elapsed(h + [ts]) == if h == [] then 0 else Elapsed(h) + Delta(ts, h[|h| - 1])
    ensures Time(h + [ts]) == if h == [] then 0 else Wrap64(Time(h) + Delta(ts, h[|h| - 1]))
  {
    var more, n := h + [ts], |h|;
    assert more[..n] == h && more[n] == ts && (n > 0 ==> more[n - 1] == h[n - 1]);
    assert n > 0 ==> Elapsed(more) == Elapsed(more[..n]) + Delta(more[n], more[n - 1]);
    assert n > 0 ==> Time(more) == Wrap64(Time(more[..n]) + Delta(more[n], more[n - 1]));
  }

  // It is the accumulated difference up to multiples of 2^64, and exactly that while an int64 holds it.
  lemma {:induction false} TimeIsElapsed(h: seq<Uint32>) returns (wraps: int)
    ensures Elapsed(h) == Time(h) + wraps * TWO64
    ensures -TWO63 <= Elapsed(h) < TWO63 ==> Time(h) == Elapsed(h)
    decreases |h|
  {
    if |h| < 2 {
      wraps := 0;
    } else {
      var n := |h| - 1;
      wraps := TimeIsElapsed(h[..n]);
      var sum := Time(h[..n]) + Delta(h[n], h[n - 1]);
      wraps := if sum >= TWO63 then wraps + 1 else if sum < -TWO63 then wraps - 1 else wraps;
    }
  }

  /** The presentation clock of one stream. */
  class Timeline {
    var lastRawTS: Uint32
    var pts: Int64
    var haveFirst: bool
    ghost var raw: seq<Uint32> // every timestamp so far

    ghost predicate Valid()
      reads this
    {
      && haveFirst == (raw != [])
      && (haveFirst ==> lastRawTS == raw[|raw| - 1])
      && pts == Time(raw)
    }

    constructor ()
      ensures Valid() && raw == []
    {
      lastRawTS, pts, haveFirst, raw := 0, 0, false, [];
    }

    // The presentation time of the next access unit: the elapsed time, as far as an int64 holds it.
    method Advance(ts: Uint32) returns (at: Int64)
      requires Valid()
      modifies this
      ensures Valid() && raw == old(raw) + [ts] && at == pts
      ensures exists wraps :: Elapsed(raw) == at + wraps * TWO64
      ensures -TWO63 <= Elapsed(raw) < TWO63 ==> at == Elapsed(raw)
    {
      if !haveFirst {
        lastRawTS := ts;
        haveFirst := true;
      }
      OneMore(raw, ts);
      pts := Wrap64(pts + Delta(ts, lastRawTS));
      lastRawTS := ts;
      raw := raw + [ts];
      at := pts;
      ghost var wraps := TimeIsElapsed(raw);
    }
  }

  // ----- against true time -----

  // The timestamps a sender with a 32-bit clock gives to true times (section 5.1 of RFC 3550).
  function Sampled(times: seq<int>): (h: seq<Uint32>)
    ensures |h| == |times|
  {
    seq(|times|, i requires 0 <= i < |times| => times[i] % TWO32)
  }

  predicate GapFits(gap: int) {
    -TWO31 <= gap < TWO31
  }

  // One step is right exactly if the true gap fits in 32 signed bits.
  lemma DeltaIsGap(from: int, to: int)
    ensures Delta(to % TWO32, from % TWO32) == to - from <==> GapFits(to - from)
  {
    var u, gap := (to % TWO32 - from % TWO32) % TWO32, to - from;
    assert u == gap % TWO32;
    if GapFits(gap) {
      if gap >= 0 {
        assert gap % TWO32 == gap;
      } else {
        assert gap % TWO32 == gap + TWO32;
      }
    }
  }

  lemma {:induction false} ElapsedIsTrue(times: seq<int>)
    requires times != []
    requires forall i | 0 < i < |times| :: GapFits(times[i] - times[i - 1])
    ensures Elapsed(Sampled(times)) == times[|times| - 1] - times[0]
  {
    var n := |times| - 1;
    if n > 0 {
      var init := times[..n];
      ElapsedIsTrue(init);
      assert Sampled(times)[..n] == Sampled(init);
      DeltaIsGap(times[n - 1], times[n]);
    }
  }

  // Across any number of clock wraps: every accumulated time is the true one exactly if every gap fits.
  lemma UnwrapsExactly(times: seq<int>)
    requires times != []
    ensures (forall k | 0 < k <= |times| :: Elapsed(Sampled(times[..k])) == times[k - 1] - times[0])
      <==> forall i | 0 < i < |times| :: GapFits(times[i] - times[i - 1])
  {
    if forall i | 0 < i < |times| :: GapFits(times[i] - times[i - 1]) {
      forall k | 0 < k <= |times|
        ensures Elapsed(Sampled(times[..k])) == times[k - 1] - times[0]
      {
        ElapsedIsTrue(times[..k]);
      }
    }
    if forall k | 0 < k <= |times| :: Elapsed(Sampled(times[..k])) == times[k - 1] - times[0] {
      forall i | 0 < i < |times|
        ensures GapFits(times[i] - times[i - 1])
      {
        assert Elapsed(Sampled(times[..i])) == times[i - 1] - times[0];
        assert Elapsed(Sampled(times[..i + 1])) == times[i] - times[0];
        SampledStep(times, i);
        DeltaIsGap(times[i - 1], times[i]);
      }
    }
  }

  lemma SampledStep(times: seq<int>, i: nat)
    requires 0 < i < |times|
    ensures Elapsed(Sampled(times[..i + 1]))
      == Elapsed(Sampled(times[..i])) + Delta(times[i] % TWO32, times[i - 1] % TWO32)
  {
    assert Sampled(times[..i + 1])[..i] == Sampled(times[..i]);
  }
}
