/** H.264 parameter sets in access units: injectParamSets of internal/mp4/muxer.go, and of
    internal/hls/muxer.go and internal/rtsp/client.go, which share another form. */
module ParamSets {
  type Byte = b: int | 0 <= b < 256
  type NALU = seq<Byte>

  const IDR := 5
  const SPS := 7
  const PPS := 8

  // nal_unit_type is the low five bits (section 7.3.1 of ITU-T H.264).
  predicate IsType(unit: NALU, kind: int) {
    unit != [] && unit[0] % 32 == kind
  }

  predicate Has(au: seq<NALU>, kind: int) {
    exists i | 0 <= i < |au| :: IsType(au[i], kind)
  }

  // The parameter sets missing in front of an access unit that starts a group of pictures.
  function Missing(au: seq<NALU>, sps: NALU, pps: NALU): seq<NALU> {
    if sps == [] || pps == [] || !Has(au, IDR) then []
    else (if Has(au, SPS) then [] else [sps]) + (if Has(au, PPS) then [] else [pps])
  }

  function Inject(au: seq<NALU>, sps: NALU, pps: NALU): seq<NALU> {
    Missing(au, sps, pps) + au
  }

  method Kinds(au: seq<NALU>) returns (hasIDR: bool, hasSPS: bool, hasPPS: bool)
    ensures hasIDR == Has(au, IDR) && hasSPS == Has(au, SPS) && hasPPS == Has(au, PPS)
  {
    hasIDR, hasSPS, hasPPS := false, false, false;
    for i := 0 to |au|
      invariant hasIDR <==> exists j | 0 <= j < i :: IsType(au[j], IDR)
      invariant hasSPS <==> exists j | 0 <= j < i :: IsType(au[j], SPS)
      invariant hasPPS <==> exists j | 0 <= j < i :: IsType(au[j], PPS)
    {
      if |au[i]| == 0 {
        continue;
      }
      match au[i][0] % 32
      case 5 => hasIDR := true;
      case 7 => hasSPS := true;
      case 8 => hasPPS := true;
      case _ =>
    }
  }

  // The copy in internal/mp4/muxer.go.
  method InjectMP4(au: seq<NALU>, sps: NALU, pps: NALU) returns (out: seq<NALU>)
    ensures out == Inject(au, sps, pps)
  {
    if |sps| == 0 || |pps| == 0 {
      return au;
    }
    var hasIDR, hasSPS, hasPPS := Kinds(au);
    if !hasIDR {
      return au;
    }
    out := [];
    if !hasSPS {
      out := out + [sps];
    }
    if !hasPPS {
      out := out + [pps];
    }
    out := out + au;
  }

  // The copies in internal/hls/muxer.go and internal/rtsp/client.go, which return early.
  method InjectHLS(au: seq<NALU>, sps: NALU, pps: NALU) returns (out: seq<NALU>)
    ensures out == Inject(au, sps, pps)
  {
    if |sps| == 0 || |pps| == 0 {
      return au;
    }
    var hasIDR, hasSPS, hasPPS := Kinds(au);
    if !hasIDR || (hasSPS && hasPPS) {
      return au;
    }
    var prefix := [];
    if !hasSPS {
      prefix := prefix + [sps];
    }
    if !hasPPS {
      prefix := prefix + [pps];
    }
    out := prefix + au;
  }

  method ContainsIDR(au: seq<NALU>) returns (found: bool)
    ensures found == Has(au, IDR)
    ensures found <==> exists i | 0 <= i < |au| :: |au[i]| > 0 && au[i][0] % 32 == 5
  {
    for i := 0 to |au|
      invariant forall j | 0 <= j < i :: !IsType(au[j], IDR)
    {
      if |au[i]| > 0 && au[i][0] % 32 == IDR {
        return true;
      }
    }
    found := false;
  }

  lemma HasConcat(a: seq<NALU>, b: seq<NALU>, kind: int)
    ensures Has(a + b, kind) <==> Has(a, kind) || Has(b, kind)
  {
    if Has(a, kind) {
      var i :| 0 <= i < |a| && IsType(a[i], kind);
      assert IsType((a + b)[i], kind);
    }
    if Has(b, kind) {
      var i :| 0 <= i < |b| && IsType(b[i], kind);
      assert IsType((a + b)[|a| + i], kind);
    }
  }

  // Without an IDR, or while a set is unknown, nothing is injected; else only a set that the access unit lacks is.
  lemma InjectsExactly(au: seq<NALU>, sps: NALU, pps: NALU)
    ensures var out := Inject(au, sps, pps);
      var starts := exists i | 0 <= i < |au| :: au[i] != [] && au[i][0] % 32 == 5;
      var noSPS := forall i | 0 <= i < |au| && au[i] != [] :: au[i][0] % 32 != 7;
      var noPPS := forall i | 0 <= i < |au| && au[i] != [] :: au[i][0] % 32 != 8;
      out == (if sps != [] && pps != [] && starts && noSPS then [sps] else [])
        + (if sps != [] && pps != [] && starts && noPPS then [pps] else []) + au
  {
    assert Has(au, IDR) <==> exists i | 0 <= i < |au| :: au[i] != [] && au[i][0] % 32 == 5;
    assert !Has(au, SPS) <==> forall i | 0 <= i < |au| && au[i] != [] :: au[i][0] % 32 != 7;
    assert !Has(au, PPS) <==> forall i | 0 <= i < |au| && au[i] != [] :: au[i][0] % 32 != 8;
  }

  // Whatever the parameter sets hold, the access unit stays the tail and its IDR flag is unchanged.
  lemma InjectKeeps(au: seq<NALU>, sps: NALU, pps: NALU)
    ensures var out := Inject(au, sps, pps);
      |out| >= |au| && out[|out| - |au|..] == au && (Has(out, IDR) <==> Has(au, IDR))
  {
    HasConcat(Missing(au, sps, pps), au, IDR);
  }

  // A decoder can start at the result: with an IDR, both parameter sets are there, what was missing first.
  lemma InjectCompletes(au: seq<NALU>, sps: NALU, pps: NALU)
    requires IsType(sps, SPS) && IsType(pps, PPS) && Has(au, IDR)
    ensures Has(Inject(au, sps, pps), SPS) && Has(Inject(au, sps, pps), PPS)
    ensures !Has(au, SPS) ==> Inject(au, sps, pps)[0] == sps
    ensures !Has(au, PPS) ==> Inject(au, sps, pps)[if Has(au, SPS) then 0 else 1] == pps
  {
    var missing := Missing(au, sps, pps);
    HasConcat(missing, au, SPS);
    HasConcat(missing, au, PPS);
    if !Has(au, SPS) {
      assert IsType(missing[0], SPS);
    }
    if !Has(au, PPS) {
      assert IsType(missing[|missing| - 1], PPS);
    }
  }

  // Injecting again changes nothing.
  lemma InjectIsIdempotent(au: seq<NALU>, sps: NALU, pps: NALU)
    requires IsType(sps, SPS) && IsType(pps, PPS)
    ensures Inject(Inject(au, sps, pps), sps, pps) == Inject(au, sps, pps)
  {
    if Has(au, IDR) {
      InjectCompletes(au, sps, pps);
    }
    InjectKeeps(au, sps, pps);
  }
}
