/** The string functions of Go's standard library the tokens and URLs are built from:
    strings.IndexByte, Split, SplitN, strconv.FormatInt and ParseInt in base 10. */
module Text {
  import opened Wrappers

  // IndexByte: the first position of c, or -1.
  function IndexByte(s: string, c: char): (i: int)
    ensures -1 <= i < |s|
    ensures i >= 0 ==> s[i] == c && c !in s[..i]
    ensures i == -1 ==> c !in s
  {
    if s == "" then -1
    else if s[0] == c then 0
    else
      var r := IndexByte(s[1..], c);
      assert s == [s[0]] + s[1..];
      if r < 0 then -1
      else
        assert s[..r + 1] == [s[0]] + s[1..][..r];
        r + 1
  }

  lemma {:induction false} IndexByteIs(before: string, c: char, after: string)
    requires c !in before
    ensures IndexByte(before + [c] + after, c) == |before|
  {
    var s := before + [c] + after;
    if before != "" {
      assert s[0] == before[0];
      assert s[1..] == before[1..] + [c] + after;
      IndexByteIs(before[1..], c, after);
    }
  }

  // SplitN with a one-byte separator; Split is SplitN without a limit.
  function SplitN(s: string, sep: char, n: nat): (parts: seq<string>)
    requires n > 0
    ensures 1 <= |parts| <= n
    decreases n
  {
    var i := IndexByte(s, sep);
    if n == 1 || i < 0 then [s] else [s[..i]] + SplitN(s[i + 1..], sep, n - 1)
  }

  function Split(s: string, sep: char): (parts: seq<string>)
    ensures |parts| >= 1
  {
    SplitN(s, sep, |s| + 1)
  }

  function Join(parts: seq<string>, sep: char): string {
    if parts == [] then ""
    else if |parts| == 1 then parts[0]
    else parts[0] + [sep] + Join(parts[1..], sep)
  }

  predicate Without(parts: seq<string>, sep: char) {
    forall i | 0 <= i < |parts| :: sep !in parts[i]
  }

  lemma SplitAt(head: string, sep: char, rest: string, n: nat)
    requires n > 1 && sep !in head
    ensures SplitN(head + [sep] + rest, sep, n) == [head] + SplitN(rest, sep, n - 1)
  {
    var s := head + [sep] + rest;
    IndexByteIs(head, sep, rest);
    assert s[|head| + 1..] == rest;
    assert s[..|head|] == head;
  }

  // Joining and splitting with room for every part: only the last part may hold the separator, and only
  // when the limit is reached.
  lemma {:induction false} SplitJoin(parts: seq<string>, sep: char, n: nat)
    requires 0 < |parts| <= n
    requires forall i | 0 <= i < |parts| - 1 :: sep !in parts[i]
    requires |parts| < n ==> sep !in parts[|parts| - 1]
    ensures SplitN(Join(parts, sep), sep, n) == parts
    decreases |parts|
  {
    if |parts| == 1 {
      SplitLast(parts[0], sep, n);
    } else {
      var tail := parts[1..];
      var joined := Join(tail, sep);
      assert Join(parts, sep) == parts[0] + [sep] + joined;
      assert SplitN(joined, sep, n - 1) == tail by {
        SplitJoin(tail, sep, n - 1);
      }
      SplitAt(parts[0], sep, joined, n);
    }
  }

  lemma SplitLast(s: string, sep: char, n: nat)
    requires n > 0 && (n == 1 || sep !in s)
    ensures SplitN(s, sep, n) == [s]
  {
  }

  // The first part and the rest.
  lemma SplitFirst(s: string, sep: char, n: nat)
    requires n > 1 && IndexByte(s, sep) >= 0
    ensures var i := IndexByte(s, sep); SplitN(s, sep, n) == [s[..i]] + SplitN(s[i + 1..], sep, n - 1)
    ensures var i := IndexByte(s, sep); s == s[..i] + [sep] + s[i + 1..]
  {
  }

  lemma JoinCons(head: string, parts: seq<string>, sep: char)
    requires parts != []
    ensures Join([head] + parts, sep) == head + [sep] + Join(parts, sep)
  {
    assert ([head] + parts)[1..] == parts;
  }

  lemma {:induction false} JoinSplit(s: string, sep: char, n: nat)
    requires n > 0
    ensures Join(SplitN(s, sep, n), sep) == s
    decreases n
  {
    var i := IndexByte(s, sep);
    if n > 1 && i >= 0 {
      var rest := SplitN(s[i + 1..], sep, n - 1);
      assert SplitN(s, sep, n) == [s[..i]] + rest && s == s[..i] + [sep] + s[i + 1..] by {
        SplitFirst(s, sep, n);
      }
      assert Join(rest, sep) == s[i + 1..] by {
        JoinSplit(s[i + 1..], sep, n - 1);
      }
      JoinCons(s[..i], rest, sep);
    } else {
      SplitLast(s, sep, n);
    }
  }

  // Split and Join are inverse on lists of parts without the separator.
  lemma {:induction false} SplitIsInverseOfJoin(parts: seq<string>, sep: char)
    requires |parts| > 0 && Without(parts, sep)
    ensures Split(Join(parts, sep), sep) == parts
  {
    JoinLength(parts, sep);
    SplitJoin(parts, sep, |Join(parts, sep)| + 1);
  }

  lemma {:induction false} JoinLength(parts: seq<string>, sep: char)
    requires |parts| > 0
    ensures |Join(parts, sep)| + 1 >= |parts|
    decreases |parts|
  {
    if |parts| > 1 {
      JoinLength(parts[1..], sep);
    }
  }

  lemma SplitParts(s: string, sep: char)
    ensures Join(Split(s, sep), sep) == s && Without(Split(s, sep), sep)
  {
    var n := |s| + 1;
    JoinSplit(s, sep, n);
    LastPartClean(s, sep, n);
  }

  lemma WithoutCons(head: string, parts: seq<string>, sep: char)
    requires sep !in head && Without(parts, sep)
    ensures Without([head] + parts, sep)
  {
  }

  lemma SplitStepClean(s: string, sep: char, n: nat)
    requires n > 1 && IndexByte(s, sep) >= 0 && Without(SplitN(s[IndexByte(s, sep) + 1..], sep, n - 1), sep)
    ensures Without(SplitN(s, sep, n), sep)
  {
    var i := IndexByte(s, sep);
    SplitFirst(s, sep, n);
    WithoutCons(s[..i], SplitN(s[i + 1..], sep, n - 1), sep);
  }

  lemma SplitEndClean(s: string, sep: char, n: nat)
    requires n > |s| && IndexByte(s, sep) < 0
    ensures Without(SplitN(s, sep, n), sep)
  {
    SplitLast(s, sep, n);
  }

  lemma {:induction false} LastPartClean(s: string, sep: char, n: nat)
    requires n > |s|
    ensures Without(SplitN(s, sep, n), sep)
    decreases n
  {
    var i := IndexByte(s, sep);
    if i >= 0 {
      LastPartClean(s[i + 1..], sep, n - 1);
      SplitStepClean(s, sep, n);
    } else {
      SplitEndClean(s, sep, n);
    }
  }

  predicate HeadsWithout(parts: seq<string>, sep: char) {
    forall i | 0 <= i < |parts| - 1 :: sep !in parts[i]
  }

  lemma HeadsCons(head: string, rest: seq<string>, sep: char)
    requires sep !in head && HeadsWithout(rest, sep)
    ensures HeadsWithout([head] + rest, sep)
  {
  }

  // Before the last part there is no separator in any.
  lemma {:induction false} HeadsClean(s: string, sep: char, n: nat)
    requires n > 0
    ensures HeadsWithout(SplitN(s, sep, n), sep)
    decreases n
  {
    var i := IndexByte(s, sep);
    if n > 1 && i >= 0 {
      HeadsClean(s[i + 1..], sep, n - 1);
      SplitFirst(s, sep, n);
      HeadsCons(s[..i], SplitN(s[i + 1..], sep, n - 1), sep);
    } else {
      SplitLast(s, sep, n);
    }
  }

  // ----- decimal integers -----

  predicate IsDigit(c: char) {
    '0' <= c <= '9'
  }

  function DigitChar(d: nat): (c: char)
    requires d < 10
    ensures IsDigit(c)
  {
    '0' + d as char
  }

  function Digits(n: nat): string {
    if n < 10 then [DigitChar(n)] else Digits(n / 10) + [DigitChar(n % 10)]
  }

  function Value(s: string): nat
    requires forall c | c in s :: IsDigit(c)
  {
    if s == "" then 0
    else
      assert IsDigit(s[|s| - 1]) by { assert s[|s| - 1] in s; }
      10 * Value(s[..|s| - 1]) + (s[|s| - 1] as int - '0' as int)
  }

  lemma {:induction false} DigitsValue(n: nat)
    ensures |Digits(n)| > 0 && (forall c | c in Digits(n) :: IsDigit(c)) && Value(Digits(n)) == n
  {
    if n >= 10 {
      DigitsValue(n / 10);
      var s := Digits(n);
      assert s[..|s| - 1] == Digits(n / 10);
    } else {
      var s := Digits(n);
      assert s[..0] == "";
    }
  }

  function FormatInt(n: int): string {
    if n < 0 then "-" + Digits(-n) else Digits(n)
  }

  const INT64_MIN: int := -0x8000_0000_0000_0000
  const INT64_MAX: int := 0x7fff_ffff_ffff_ffff

  // ParseInt(s, 10, 64): an optional sign, then one or more digits, in range.
  function ParseInt(s: string): Option<int> {
    var signed := s != "" && (s[0] == '+' || s[0] == '-');
    var digits := if signed then s[1..] else s;
    if digits == "" || exists c | c in digits :: !IsDigit(c) then None
    else
      var n: int := if signed && s[0] == '-' then 0 - Value(digits) else Value(digits);
      if INT64_MIN <= n <= INT64_MAX then Some(n) else None
  }

  predicate AllDigits(s: string) {
    forall c | c in s :: IsDigit(c)
  }

  predicate IsSign(sign: string) {
    sign == "" || sign == "+" || sign == "-"
  }

  lemma ParseSigned(sign: string, digits: string)
    requires IsSign(sign) && digits != "" && AllDigits(digits)
    ensures var n: int := if sign == "-" then -(Value(digits) as int) else Value(digits);
      ParseInt(sign + digits) == if INT64_MIN <= n <= INT64_MAX then Some(n) else None
  {
    var s := sign + digits;
    assert digits[0] in digits;
    assert sign == "" ==> s == digits && s[0] == digits[0];
    assert sign != "" ==> s[0] == sign[0] && s[1..] == digits;
  }

  lemma ParseFormat(n: int)
    requires INT64_MIN <= n <= INT64_MAX
    ensures ParseInt(FormatInt(n)) == Some(n)
  {
    var size: nat := if n < 0 then -n else n;
    DigitsValue(size);
    ParseSigned(if n < 0 then "-" else "", Digits(size));
    assert "" + Digits(size) == Digits(size);
  }

  // Formatted integers hold no separator of the formats below.
  lemma FormatIsPlain(n: int)
    ensures forall c | c in FormatInt(n) :: IsDigit(c) || c == '-'
  {
    if n < 0 {
      DigitsValue(-n);
    } else {
      DigitsValue(n);
    }
  }

  // n without its last i decimal digits.
  function Shifted(n: nat, i: nat): nat {
    if i == 0 then n else Shifted(n / 10, i - 1)
  }

  // The digits from the right are those of n, and the first is 0 only for 0 itself.
  lemma {:induction false} DigitsExactly(n: nat, i: nat)
    requires i < |Digits(n)|
    ensures var s := Digits(n);
      s[|s| - 1 - i] as int == '0' as int + Shifted(n, i) % 10 && Shifted(n, |s|) == 0 && (n > 0 ==> s[0] != '0')
    decreases n
  {
    if n >= 10 {
      DigitsExactly(n / 10, if i == 0 then 0 else i - 1);
    }
  }

  function Zeros(n: nat): string {
    if n == 0 then "" else "0" + Zeros(n - 1)
  }

  lemma {:induction false} ZerosEnd(n: nat)
    ensures Zeros(n) + "0" == Zeros(n + 1) && |Zeros(n)| == n && forall c | c in Zeros(n) :: c == '0'
  {
    if n > 0 {
      ZerosEnd(n - 1);
      assert Zeros(n) + "0" == "0" + (Zeros(n - 1) + "0");
    }
  }

  lemma ValueEnd(s: string, d: char)
    requires AllDigits(s) && IsDigit(d)
    ensures AllDigits(s + [d]) && Value(s + [d]) == 10 * Value(s) + (d as int - '0' as int)
  {
    assert (s + [d])[..|s|] == s;
  }

  lemma DigitsEnd(n: nat, d: char)
    requires IsDigit(d)
    ensures var v := d as int - '0' as int; Digits(10 * n + v) == if n == 0 then [d] else Digits(n) + [d]
  {
    var v := d as int - '0' as int;
    assert DigitChar(v) == d;
    assert (10 * n + v) / 10 == n && (10 * n + v) % 10 == v;
  }

  // A number is read from its digits with any zeros before them.
  lemma {:induction false} ValueOfZeros(z: nat, n: nat)
    ensures AllDigits(Zeros(z) + Digits(n)) && Value(Zeros(z) + Digits(n)) == n
    decreases n
  {
    if n >= 10 {
      ValueOfZeros(z, n / 10);
      ValueEnd(Zeros(z) + Digits(n / 10), DigitChar(n % 10));
      assert Zeros(z) + Digits(n) == Zeros(z) + Digits(n / 10) + [DigitChar(n % 10)];
    } else {
      ValueOfZerosOnly(z);
      ValueEnd(Zeros(z), DigitChar(n));
    }
  }

  lemma {:induction false} ValueOfZerosOnly(z: nat)
    ensures AllDigits(Zeros(z)) && Value(Zeros(z)) == 0
  {
    if z > 0 {
      ValueOfZerosOnly(z - 1);
      ZerosEnd(z - 1);
      ValueEnd(Zeros(z - 1), '0');
    }
  }

  // And from nothing else.
  lemma {:induction false} DigitsOfValue(s: string) returns (z: nat)
    requires s != "" && AllDigits(s)
    ensures s == Zeros(z) + Digits(Value(s))
    decreases |s|
  {
    var init, d := s[..|s| - 1], s[|s| - 1];
    assert s == init + [d];
    assert d in s && AllDigits(init);
    if init == "" {
      z := 0;
      ValueEnd("", d);
      DigitsEnd(0, d);
    } else {
      z := DigitsOfValue(init);
      OneMoreRead(init, d, z);
      z := if Value(init) == 0 then z + 1 else z;
    }
  }

  lemma OneMoreRead(init: string, d: char, z: nat)
    requires AllDigits(init) && IsDigit(d) && init == Zeros(z) + Digits(Value(init))
    ensures AllDigits(init + [d])
    ensures init + [d] == Zeros(if Value(init) == 0 then z + 1 else z) + Digits(Value(init + [d]))
  {
    ValueEnd(init, d);
    OneMoreDigit(z, Value(init), d);
  }

  lemma OneMoreDigit(z: nat, n: nat, d: char)
    requires IsDigit(d)
    ensures var v := d as int - '0' as int;
      Zeros(z) + Digits(n) + [d] == Zeros(if n == 0 then z + 1 else z) + Digits(10 * n + v)
  {
    DigitsEnd(n, d);
    if n == 0 {
      ZerosEnd(z);
      assert Digits(0) == "0";
    }
  }

  // The texts of a number: an optional sign, any zeros, its digits.
  predicate Written(s: string, n: int, sign: string, z: nat) {
    && IsSign(sign) && (sign == "-" ==> n <= 0) && (sign != "-" ==> n >= 0)
    && s == sign + (Zeros(z) + Digits(if n < 0 then -n else n))
  }

  lemma WrittenIsParsed(s: string, n: int, sign: string, z: nat)
    requires Written(s, n, sign, z) && INT64_MIN <= n <= INT64_MAX
    ensures ParseInt(s) == Some(n)
  {
    var size: nat := if n < 0 then -n else n;
    ValueOfZeros(z, size);
    DigitsValue(size);
    ParseSigned(sign, Zeros(z) + Digits(size));
  }

  lemma ParsedIsWritten(s: string) returns (sign: string, z: nat)
    requires ParseInt(s).Some?
    ensures Written(s, ParseInt(s).value, sign, z)
  {
    var signed := s[0] == '+' || s[0] == '-';
    var digits;
    sign, digits := if signed then s[..1] else "", if signed then s[1..] else s;
    assert s == sign + digits && AllDigits(digits) && IsSign(sign);
    ParseSigned(sign, digits);
    z := DigitsOfValue(digits);
  }

  // What ParseInt reads, and as what.
  lemma ParseExactly(s: string, n: int)
    ensures ParseInt(s) == Some(n) <==>
      -0x8000_0000_0000_0000 <= n <= 0x7fff_ffff_ffff_ffff && exists sign: string, z: nat :: Written(s, n, sign, z)
  {
    if ParseInt(s) == Some(n) {
      var sign, z := ParsedIsWritten(s);
    }
    if sign: string, z: nat :|
      -0x8000_0000_0000_0000 <= n <= 0x7fff_ffff_ffff_ffff && Written(s, n, sign, z)
    {
      WrittenIsParsed(s, n, sign, z);
    }
  }
}
