/** Annex B framing of access units (encodeAnnexB in internal/rtsp/client.go), against the byte-stream
    decoder of the standard (section B.1 and 7.4.1 of ITU-T H.264). */
module AnnexB {
  import opened ParamSets

  const START_CODE: NALU := [0, 0, 0, 1]

  function Size(au: seq<NALU>): nat {
    if au == [] then 0
    else Size(au[..|au| - 1]) + 4 + |au[|au| - 1]|
  }

  function Encode(au: seq<NALU>): (out: NALU)
    ensures |out| == Size(au)
  {
    if au == [] then []
    else Encode(au[..|au| - 1]) + START_CODE + au[|au| - 1]
  }

  // The capacity computed first is exactly the size of the result, so appending never reallocates.
  method EncodeAnnexB(au: seq<NALU>) returns (out: NALU, size: nat)
    ensures out == Encode(au) && size == |out|
  {
    size := 0;
    for i := 0 to |au|
      invariant size == Size(au[..i])
    {
      assert au[..i + 1][..i] == au[..i];
      size := size + 4 + |au[i]|;
    }
    assert au[..|au|] == au;
    out := [];
    for i := 0 to |au|
      invariant out == Encode(au[..i])
    {
      assert au[..i + 1][..i] == au[..i];
      out := out + START_CODE;
      out := out + au[i];
    }
  }

  // ----- the decoder of the standard -----

  // A NAL unit ends before the next three bytes 000000 or 000001.
  predicate EndsAt(s: NALU, i: nat) {
    i + 3 <= |s| && s[i] == 0 && s[i + 1] == 0 && s[i + 2] <= 1
  }

  // Where the unit at the start of s ends: the first such place from i on, or the end.
  function UnitEnd(s: NALU, i: nat): (end: nat)
    requires i <= |s|
    ensures i <= end <= |s|
    decreases |s| - i
  {
    if i == |s| || EndsAt(s, i) then i else UnitEnd(s, i + 1)
  }

  // Zero bytes at the start of s: trailing zeros of the unit before, or leading zeros.
  function Zeros(s: NALU): (n: nat)
    ensures n <= |s|
    ensures forall i | 0 <= i < n :: s[i] == 0
    ensures n < |s| ==> s[n] != 0
  {
    if s == [] || s[0] != 0 then 0 else 1 + Zeros(s[1..])
  }

  // The units of a byte stream: zeros, a start code prefix ending in 01, a unit, and so on.
  // Anything else in front of a unit makes the rest undecodable.
  function Decode(s: NALU): seq<NALU>
    decreases |s|
  {
    var z := Zeros(s);
    if z < 2 || z == |s| || s[z] != 1 then []
    else
      var body := s[z + 1..];
      var end := UnitEnd(body, 0);
      [body[..end]] + Decode(body[end..])
  }

  // ----- round trip -----

  predicate Clean(unit: NALU) {
    forall i | 0 <= i < |unit| :: !EndsAt(unit, i)
  }

  predicate EndsInZero(unit: NALU) {
    unit != [] && unit[|unit| - 1] == 0
  }

  // No start code inside a unit, and none but the last unit runs into the next start code.
  predicate Framable(au: seq<NALU>) {
    && (forall k | 0 <= k < |au| :: Clean(au[k]))
    && (forall k | 0 <= k < |au| - 1 :: !EndsInZero(au[k]))
  }

  lemma {:induction false} EncodeFront(au: seq<NALU>)
    requires au != []
    ensures Encode(au) == START_CODE + au[0] + Encode(au[1..])
    decreases |au|
  {
    var n := |au| - 1;
    if n == 0 {
      assert au[..0] == [] && au[1..] == [];
    } else {
      var init, tail := au[..n], au[1..];
      EncodeFront(init);
      var middle := Encode(init[1..]);
      assert Encode(tail) == middle + START_CODE + au[n] by {
        assert tail[..n - 1] == init[1..];
      }
      assert (START_CODE + au[0] + middle) + START_CODE + au[n] == START_CODE + au[0] + (middle + START_CODE + au[n]);
    }
  }

  lemma ZerosOfStartCode(rest: NALU)
    ensures Zeros(START_CODE + rest) == 3 && (START_CODE + rest)[3] == 1 && (START_CODE + rest)[4..] == rest
  {
    var s := START_CODE + rest;
    assert s[0] == 0 && s[1] == 0 && s[2] == 0 && s[3] == 1;
    assert forall i | 0 <= i < Zeros(s) :: s[i] == 0;
  }

  lemma {:induction false} UnitEndIsFirst(s: NALU, i: nat)
    requires i <= |s|
    ensures forall j | i <= j < UnitEnd(s, i) :: !EndsAt(s, j)
    ensures UnitEnd(s, i) < |s| ==> EndsAt(s, UnitEnd(s, i))
    decreases |s| - i
  {
    if i < |s| && !EndsAt(s, i) {
      UnitEndIsFirst(s, i + 1);
    }
  }

  // The decoder finds the end of a unit exactly if the unit holds no start code and does not run into the next one.
  lemma UnitEndExactly(unit: NALU, rest: NALU)
    requires rest == [] || START_CODE <= rest
    ensures UnitEnd(unit + rest, 0) == |unit| <==> Clean(unit) && (rest == [] || !EndsInZero(unit))
  {
    var s := unit + rest;
    UnitEndIsFirst(s, 0);
    var end := UnitEnd(s, 0);
    assert forall i | 0 <= i && i + 3 <= |unit| :: EndsAt(s, i) <==> EndsAt(unit, i);
    if rest != [] {
      assert s[|unit|] == rest[0] == START_CODE[0] && s[|unit| + 1] == rest[1] == START_CODE[1]
        && s[|unit| + 2] == rest[2] == START_CODE[2];
      assert EndsAt(s, |unit|);
      assert EndsInZero(unit) ==> EndsAt(s, |unit| - 1);
    }
  }

  lemma DecodeUnit(unit: NALU, rest: NALU)
    ensures var s := START_CODE + unit + rest;
      var end := UnitEnd(unit + rest, 0);
      Decode(s) == [(unit + rest)[..end]] + Decode((unit + rest)[end..])
  {
    assert START_CODE + unit + rest == START_CODE + (unit + rest);
    ZerosOfStartCode(unit + rest);
  }

  // The decoder recovers an access unit exactly if it is framable.
  lemma {:induction false} DecodesExactly(au: seq<NALU>)
    ensures Decode(Encode(au)) == au <==> Framable(au)
    decreases |au|
  {
    if au == [] {
    } else {
      var unit, tail := au[0], au[1..];
      var rest := Encode(tail);
      EncodeFront(au);
      DecodeUnit(unit, rest);
      assert rest == [] || START_CODE <= rest by {
        if tail != [] {
          EncodeFront(tail);
        }
      }
      assert rest == [] <==> tail == [];
      UnitEndExactly(unit, rest);
      DecodesExactly(tail);
      var end := UnitEnd(unit + rest, 0);
      var out := Decode(Encode(au));
      assert out[0] == (unit + rest)[..end] && out[1..] == Decode((unit + rest)[end..]);
      assert au == [unit] + tail;
      if end == |unit| {
        assert (unit + rest)[..end] == unit && (unit + rest)[end..] == rest;
      }
      assert Framable(au) <==> Clean(unit) && (tail == [] || !EndsInZero(unit)) && Framable(tail) by {
        FramableFront(au);
      }
    }
  }

  lemma FramableFront(au: seq<NALU>)
    requires au != []
    ensures Framable(au) <==> Clean(au[0]) && (|au| == 1 || !EndsInZero(au[0])) && Framable(au[1..])
  {
    assert forall k | 1 <= k < |au| :: au[k] == au[1..][k - 1];
  }

  // So two different access units never look alike on the wire. Units that conform to section 7.4.1
  // (no start code inside, no zero at the end) are framable.
  lemma FramingIsInjective(a: seq<NALU>, b: seq<NALU>)
    requires Framable(a) && Framable(b)
    ensures Encode(a) == Encode(b) <==> a == b
  {
    DecodesExactly(a);
    DecodesExactly(b);
  }
}
