/** Signed HLS and MP4 stream URLs (internal/api/server.go, and the routing of internal/hls/server.go
    and internal/mp4/muxer.go). HMAC-SHA256 in base64url is a function from payloads to
    base64url strings; where forgery matters it is assumed injective. Paths are taken as the
    handlers see them, after URL decoding. */
module StreamURLs {
  import opened Wrappers
  import opened Text
  import opened Clock

  // The base64url alphabet (section 5 of RFC 4648), without padding.
  predicate IsBase64URL(s: string) {
    forall c | c in s :: 'A' <= c <= 'Z' || 'a' <= c <= 'z' || '0' <= c <= '9' || c == '-' || c == '_'
  }

  type Base64URL = s: string | IsBase64URL(s) witness ""

  type Mac = string -> Base64URL

  // No two payloads share a signature.
  ghost predicate Ideal(mac: Mac) {
    forall p, q :: mac(p) == mac(q) ==> p == q
  }

  datatype Refusal = BadExp | Expired | BadSignature | BadPath | MissingBearer | BadToken | MissingCamera | NotFound

  predicate Int64(n: int) {
    INT64_MIN <= n <= INT64_MAX
  }

  function Payload(cam: string, exp: int): string {
    cam + "|" + FormatInt(exp)
  }

  function SignToken(mac: Mac, cam: string, exp: int): Base64URL {
    mac(Payload(cam, exp))
  }

  function VerifyToken(mac: Mac, cam: string, expStr: string, tok: string, now: int): Result<(), Refusal> {
    match ParseInt(expStr)
    case None => Err(BadExp)
    case Some(exp) =>
      if now > exp then Err(Expired)
      else if SignToken(mac, cam, exp) != tok then Err(BadSignature)
      else Ok(())
  }

  lemma FormatInjective(m: int, n: int)
    requires Int64(m) && Int64(n) && FormatInt(m) == FormatInt(n)
    ensures m == n
  {
    ParseFormat(m);
    ParseFormat(n);
  }

  // The signed text determines camera and expiry, whatever characters the camera ID holds.
  lemma PayloadInjective(cam: string, exp: int, cam': string, exp': int)
    requires Int64(exp) && Int64(exp')
    ensures Payload(cam, exp) == Payload(cam', exp') <==> cam == cam' && exp == exp'
  {
    var p, q := Payload(cam, exp), Payload(cam', exp');
    FormatIsPlain(exp);
    FormatIsPlain(exp');
    if p == q {
      LastBar(cam, FormatInt(exp), cam', FormatInt(exp'));
      LastBar(cam', FormatInt(exp'), cam, FormatInt(exp));
      assert p[..|cam|] == cam && q[..|cam'|] == cam';
      assert p[|cam| + 1..] == FormatInt(exp) && q[|cam'| + 1..] == FormatInt(exp');
      FormatInjective(exp, exp');
    }
  }

  lemma LastBar(a: string, x: string, b: string, y: string)
    requires a + "|" + x == b + "|" + y && '|' !in x
    ensures |b| <= |a|
  {
    var s := a + "|" + x;
    assert s[|b|] == (b + "|" + y)[|b|] == '|';
    assert forall i | |a| < i < |s| :: s[i] == x[i - |a| - 1];
  }

  // A signature issued for one camera and expiry opens that camera until that expiry; and, without
  // collisions, nothing else.
  lemma TokenBindsOnePair(mac: Mac, cam: string, exp: int, cam': string, expStr: string, now: int)
    requires Int64(exp)
    ensures cam' == cam && ParseInt(expStr) == Some(exp) && now <= exp
      ==> VerifyToken(mac, cam', expStr, SignToken(mac, cam, exp), now).Ok?
    ensures Ideal(mac) && VerifyToken(mac, cam', expStr, SignToken(mac, cam, exp), now).Ok?
      ==> cam' == cam && ParseInt(expStr) == Some(exp) && now <= exp
  {
    if ParseInt(expStr).Some? {
      PayloadInjective(cam, exp, cam', ParseInt(expStr).value);
    }
  }

  // Each character as its number and a dash, and an end mark.
  function Spelled(s: string): Base64URL {
    if s == "" then "_"
    else
      DigitsValue(s[0] as int);
      Digits(s[0] as int) + "-" + Spelled(s[1..])
  }

  lemma FirstDash(m: string, x: string, n: string, y: string)
    requires '-' !in m && '-' !in n && m + "-" + x == n + "-" + y
    ensures m == n && x == y
  {
    var s := m + "-" + x;
    IndexByteIs(m, '-', x);
    IndexByteIs(n, '-', y);
    assert m == s[..|m|] && n == s[..|n|] && x == s[|m| + 1..] && y == s[|n| + 1..];
  }

  lemma {:induction false} SpelledIsInjective(a: string, b: string)
    requires Spelled(a) == Spelled(b)
    ensures a == b
    decreases |a|
  {
    if b != "" {
      SpelledStarts(b);
    }
    if a == "" {
      assert Spelled(b)[0] == '_';
    } else {
      SpelledStarts(a);
      FirstDash(Digits(a[0] as int), Spelled(a[1..]), Digits(b[0] as int), Spelled(b[1..]));
      DigitsValue(a[0] as int);
      DigitsValue(b[0] as int);
      SpelledIsInjective(a[1..], b[1..]);
      assert a == [a[0]] + a[1..] && b == [b[0]] + b[1..];
    }
  }

  lemma SpelledStarts(s: string)
    requires s != ""
    ensures Spelled(s)[0] != '_' && '-' !in Digits(s[0] as int)
    ensures Spelled(s) == Digits(s[0] as int) + "-" + Spelled(s[1..])
  {
    var digits := Digits(s[0] as int);
    DigitsValue(s[0] as int);
    assert digits[0] in digits;
    assert Spelled(s)[0] == digits[0];
  }

  // There are functions without collisions.
  lemma IdealIsMet()
    ensures exists mac :: Ideal(mac)
  {
    var mac: Mac := Spelled;
    forall p, q | mac(p) == mac(q)
      ensures p == q
    {
      SpelledIsInjective(p, q);
    }
    assert Ideal(mac);
  }

  function TrimPrefix(s: string, prefix: string): string {
    if prefix <= s then s[|prefix|..] else s
  }

  // ----- HLS: the token is part of the path -----

  function HLSPath(mac: Mac, cam: string, exp: int): string {
    "/hls/" + Join([cam, FormatInt(exp), SignToken(mac, cam, exp), "index.m3u8"], '/')
  }

  // hlsHandler: the path handed to the HLS server.
  function HLSHandler(mac: Mac, path: string, now: int): Result<string, Refusal> {
    HLSCheck(mac, SplitN(TrimPrefix(path, "/hls/"), '/', 4), now)
  }

  function HLSCheck(mac: Mac, parts: seq<string>, now: int): Result<string, Refusal> {
    if |parts| < 4 then Err(BadPath)
    else match VerifyToken(mac, parts[0], parts[1], parts[2], now)
      case Err(e) => Err(e)
      case Ok(_) => Ok("/" + parts[0] + "/" + parts[3])
  }

  // hls.Server.ServeHTTP: which camera, and the path within it.
  function HLSRoute(path: string): Result<(string, string), Refusal> {
    var p := TrimPrefix(path, "/");
    var i := IndexByte(p, '/');
    var cam := if i < 0 then p else p[..i];
    if cam == "" then Err(MissingCamera)
    else Ok((cam, "/" + if i < 0 then "" else p[i + 1..]))
  }

  // ----- MP4: the token is the bearer credential -----

  function MP4Path(cam: string): string {
    "/mp4/" + Join([cam, "stream.mp4"], '/')
  }

  function MP4Credential(mac: Mac, cam: string, exp: int): string {
    "Bearer " + (FormatInt(exp) + "." + SignToken(mac, cam, exp))
  }

  // mp4Handler: the path handed to the MP4 server.
  function MP4Handler(mac: Mac, path: string, header: string, now: int): Result<string, Refusal> {
    MP4Check(mac, SplitN(TrimPrefix(path, "/mp4/"), '/', 2), header, now)
  }

  function MP4Check(mac: Mac, parts: seq<string>, header: string, now: int): Result<string, Refusal> {
    if |parts| < 2 then Err(BadPath)
    else
      var tok := TrimPrefix(header, "Bearer ");
      if tok == header || tok == "" then Err(MissingBearer)
      else
        var dot := IndexByte(tok, '.');
        if dot <= 0 then Err(BadToken)
        else match VerifyToken(mac, parts[0], tok[..dot], tok[dot + 1..], now)
          case Err(e) => Err(e)
          case Ok(_) => Ok("/" + parts[0] + "/" + parts[1])
  }

  // mp4.Server.ServeHTTP: which camera.
  function MP4Route(path: string): Result<string, Refusal> {
    var p := TrimPrefix(path, "/");
    var i := IndexByte(p, '/');
    if i <= 0 then Err(MissingCamera)
    else if p[i + 1..] != "stream.mp4" then Err(NotFound)
    else Ok(p[..i])
  }

  lemma RouteFinds(cam: string, rest: string)
    requires '/' !in cam
    ensures HLSRoute("/" + cam + "/" + rest) == if cam == "" then Err(MissingCamera) else Ok((cam, "/" + rest))
    ensures HLSRoute("/" + cam) == if cam == "" then Err(MissingCamera) else Ok((cam, "/"))
    ensures MP4Route("/" + cam + "/" + rest)
      == if cam == "" then Err(MissingCamera) else if rest == "stream.mp4" then Ok(cam) else Err(NotFound)
    ensures MP4Route("/" + cam) == Err(MissingCamera)
  {
    assert TrimPrefix("/" + cam, "/") == cam && "/" + "" == "/";
    var p := TrimPrefix("/" + cam + "/" + rest, "/");
    assert p == cam + ['/'] + rest;
    IndexByteIs(cam, '/', rest);
    assert p[..|cam|] == cam && p[|cam| + 1..] == rest;
  }

  lemma NoSlash(n: int, sig: Base64URL)
    ensures '/' !in FormatInt(n) && '/' !in sig && '.' !in FormatInt(n) && FormatInt(n) != ""
  {
    FormatIsPlain(n);
    if n < 0 {
      DigitsValue(-n);
    } else {
      DigitsValue(n);
    }
  }

  lemma JoinFour(a: string, b: string, c: string, d: string, sep: char)
    ensures Join([a, b, c, d], sep) == a + [sep] + b + [sep] + c + [sep] + d
  {
    assert [a, b, c, d][1..] == [b, c, d] && [b, c, d][1..] == [c, d] && [c, d][1..] == [d];
    assert Join([c, d], sep) == c + [sep] + d;
    assert Join([b, c, d], sep) == b + [sep] + (c + [sep] + d);
  }

  lemma JoinTwo(a: string, b: string, sep: char)
    ensures Join([a, b], sep) == a + [sep] + b
  {
    assert [a, b][1..] == [b];
  }

  // The path within the HLS server's tree: camera, expiry and rest, with the signature of the first two between.
  predicate HLSOpens(mac: Mac, path: string, now: int, cam: string, exp: string, rest: string) {
    && '/' !in cam && '/' !in exp && ParseInt(exp).Some? && now <= ParseInt(exp).value
    && path == cam + "/" + exp + "/" + mac(cam + "|" + FormatInt(ParseInt(exp).value)) + "/" + rest
  }

  lemma HLSOpened(mac: Mac, path: string, now: int)
    requires HLSCheck(mac, SplitN(path, '/', 4), now).Ok?
    ensures var parts := SplitN(path, '/', 4); |parts| == 4 && HLSOpens(mac, path, now, parts[0], parts[1], parts[3])
  {
    var parts := SplitN(path, '/', 4);
    JoinSplit(path, '/', 4);
    HeadsClean(path, '/', 4);
    assert parts == [parts[0], parts[1], parts[2], parts[3]];
    assert '/' !in parts[0] && '/' !in parts[1];
    JoinFour(parts[0], parts[1], parts[2], parts[3], '/');
  }

  lemma HLSOpenIsSplit(mac: Mac, path: string, now: int, cam: string, exp: string, rest: string)
    requires HLSOpens(mac, path, now, cam, exp, rest)
    ensures SplitN(path, '/', 4) == [cam, exp, mac(cam + "|" + FormatInt(ParseInt(exp).value)), rest]
  {
    var sig: string := mac(cam + "|" + FormatInt(ParseInt(exp).value));
    assert '/' !in sig;
    JoinFour(cam, exp, sig, rest, '/');
    SplitJoin([cam, exp, sig, rest], '/', 4);
  }

  // What the HLS handler lets through at all, and what it hands on.
  lemma HLSOpensExactly(mac: Mac, path: string, now: int, out: string)
    ensures HLSHandler(mac, "/hls/" + path, now) == Ok(out) <==> exists cam, exp, rest ::
      HLSOpens(mac, path, now, cam, exp, rest) && out == "/" + cam + "/" + rest
  {
    assert TrimPrefix("/hls/" + path, "/hls/") == path;
    if HLSHandler(mac, "/hls/" + path, now) == Ok(out) {
      HLSOpened(mac, path, now);
    }
    if cam, exp, rest :| HLSOpens(mac, path, now, cam, exp, rest) && out == "/" + cam + "/" + rest {
      HLSOpenIsSplit(mac, path, now, cam, exp, rest);
    }
  }

  // A bearer credential that opens a camera: an expiry and the signature of both.
  predicate CredentialOpens(mac: Mac, header: string, now: int, cam: string, exp: string) {
    && '.' !in exp && ParseInt(exp).Some? && now <= ParseInt(exp).value
    && header == "Bearer " + exp + "." + mac(cam + "|" + FormatInt(ParseInt(exp).value))
  }

  // How the handler takes a credential apart.
  lemma CredentialSplits(header: string, exp: string, sig: string)
    requires '.' !in exp && exp != "" && header == "Bearer " + exp + "." + sig
    ensures var tok := TrimPrefix(header, "Bearer ");
      tok != header && IndexByte(tok, '.') == |exp| && tok[..|exp|] == exp && tok[|exp| + 1..] == sig
  {
    assert header == "Bearer " + (exp + "." + sig);
    assert TrimPrefix(header, "Bearer ") == exp + ['.'] + sig;
    IndexByteIs(exp, '.', sig);
  }

  lemma CredentialJoins(header: string)
    requires var tok := TrimPrefix(header, "Bearer "); tok != header && IndexByte(tok, '.') > 0
    ensures var tok := TrimPrefix(header, "Bearer "); var dot := IndexByte(tok, '.');
      '.' !in tok[..dot] && header == "Bearer " + tok[..dot] + "." + tok[dot + 1..]
  {
    var tok := TrimPrefix(header, "Bearer ");
    var dot := IndexByte(tok, '.');
    assert header == "Bearer " + tok && tok == tok[..dot] + "." + tok[dot + 1..];
  }

  lemma MP4PathSplits(path: string, cam: string, rest: string)
    ensures '/' !in cam && path == cam + "/" + rest <==> SplitN(path, '/', 2) == [cam, rest]
  {
    JoinTwo(cam, rest, '/');
    if '/' !in cam && path == cam + "/" + rest {
      SplitJoin([cam, rest], '/', 2);
    }
    if SplitN(path, '/', 2) == [cam, rest] {
      JoinSplit(path, '/', 2);
      HeadsClean(path, '/', 2);
      assert '/' !in [cam, rest][0];
    }
  }

  lemma MP4Opened(mac: Mac, cam: string, rest: string, header: string, now: int)
    ensures MP4Check(mac, [cam, rest], header, now).Ok? <==> exists exp :: CredentialOpens(mac, header, now, cam, exp)
  {
    var tok := TrimPrefix(header, "Bearer ");
    if MP4Check(mac, [cam, rest], header, now).Ok? {
      CredentialJoins(header);
      assert CredentialOpens(mac, header, now, cam, tok[..IndexByte(tok, '.')]);
    }
    if exp :| CredentialOpens(mac, header, now, cam, exp) {
      CredentialSplits(header, exp, mac(cam + "|" + FormatInt(ParseInt(exp).value)));
    }
  }

  // The same for the MP4 handler, whose signature comes in the header.
  lemma MP4OpensExactly(mac: Mac, path: string, header: string, now: int, out: string)
    ensures MP4Handler(mac, "/mp4/" + path, header, now) == Ok(out) <==> exists cam, exp, rest ::
      '/' !in cam && path == cam + "/" + rest && CredentialOpens(mac, header, now, cam, exp)
      && out == "/" + cam + "/" + rest
  {
    assert TrimPrefix("/mp4/" + path, "/mp4/") == path;
    var parts := SplitN(path, '/', 2);
    if MP4Handler(mac, "/mp4/" + path, header, now) == Ok(out) {
      assert parts == [parts[0], parts[1]];
      MP4PathSplits(path, parts[0], parts[1]);
      MP4Opened(mac, parts[0], parts[1], header, now);
    }
    if cam, exp, rest :|
      '/' !in cam && path == cam + "/" + rest && CredentialOpens(mac, header, now, cam, exp)
      && out == "/" + cam + "/" + rest
    {
      MP4PathSplits(path, cam, rest);
      MP4Opened(mac, cam, rest, header, now);
    }
  }

  // An issued HLS URL reaches its camera's playlist exactly until it expires.
  lemma HLSRoundTrip(mac: Mac, cam: string, exp: int, now: int)
    requires '/' !in cam && cam != "" && Int64(exp)
    ensures HLSHandler(mac, HLSPath(mac, cam, exp), now)
      == if now <= exp then Ok("/" + cam + "/" + "index.m3u8") else Err(Expired)
    ensures HLSRoute("/" + cam + "/" + "index.m3u8") == Ok((cam, "/" + "index.m3u8"))
  {
    var parts := [cam, FormatInt(exp), SignToken(mac, cam, exp), "index.m3u8"];
    var trimmed := TrimPrefix(HLSPath(mac, cam, exp), "/hls/");
    assert SplitN(trimmed, '/', 4) == parts by {
      NoSlash(exp, SignToken(mac, cam, exp));
      assert trimmed == Join(parts, '/');
      SplitJoin(parts, '/', 4);
    }
    assert HLSCheck(mac, parts, now) == if now <= exp then Ok("/" + cam + "/" + "index.m3u8") else Err(Expired) by {
      ParseFormat(exp);
    }
    RouteFinds(cam, "index.m3u8");
  }

  // An issued MP4 URL with its credential reaches its camera exactly until it expires.
  lemma MP4RoundTrip(mac: Mac, cam: string, exp: int, now: int)
    requires '/' !in cam && cam != "" && Int64(exp)
    ensures MP4Handler(mac, MP4Path(cam), MP4Credential(mac, cam, exp), now)
      == if now <= exp then Ok("/" + cam + "/" + "stream.mp4") else Err(Expired)
    ensures MP4Route("/" + cam + "/" + "stream.mp4") == Ok(cam)
  {
    var parts := [cam, "stream.mp4"];
    var trimmed, header := TrimPrefix(MP4Path(cam), "/mp4/"), MP4Credential(mac, cam, exp);
    assert SplitN(trimmed, '/', 2) == parts by {
      assert trimmed == Join(parts, '/');
      SplitJoin(parts, '/', 2);
    }
    assert MP4Check(mac, parts, header, now)
        == if now <= exp then Ok("/" + cam + "/" + "stream.mp4") else Err(Expired) by {
      var sig := SignToken(mac, cam, exp);
      var tok := FormatInt(exp) + "." + sig;
      NoSlash(exp, sig);
      assert TrimPrefix(header, "Bearer ") == tok;
      IndexByteIs(FormatInt(exp), '.', sig);
      assert tok[..|FormatInt(exp)|] == FormatInt(exp) && tok[|FormatInt(exp)| + 1..] == sig;
      ParseFormat(exp);
    }
    RouteFinds(cam, "stream.mp4");
  }

  // ----- issued URLs -----

  // HLSURL and ProgressiveMP4URL, as far as the path and the credential: good for an hour from a time.
  function HLSURL(mac: Mac, cam: string, at: int): string {
    HLSPath(mac, cam, Unix(at + HOUR))
  }

  function MP4URL(mac: Mac, cam: string, at: int): (string, string) {
    (MP4Path(cam), MP4Credential(mac, cam, Unix(at + HOUR)))
  }

  // They reach their camera throughout the hour, and are expired once a second has passed since.
  lemma URLsLiveAnHour(mac: Mac, cam: string, at: int, now: int)
    requires '/' !in cam && cam != "" && Int64(Unix(at + HOUR))
    ensures now <= at + 3600 * 1_000_000_000
      ==> HLSHandler(mac, HLSURL(mac, cam, at), Unix(now)) == Ok("/" + cam + "/" + "index.m3u8")
    ensures now >= at + 3601 * 1_000_000_000 ==> HLSHandler(mac, HLSURL(mac, cam, at), Unix(now)) == Err(Expired)
    ensures var (path, header) := MP4URL(mac, cam, at); var r := MP4Handler(mac, path, header, Unix(now));
      && (now <= at + 3600 * 1_000_000_000 ==> r == Ok("/" + cam + "/" + "stream.mp4"))
      && (now >= at + 3601 * 1_000_000_000 ==> r == Err(Expired))
  {
    HLSRoundTrip(mac, cam, Unix(at + HOUR), Unix(now));
    MP4RoundTrip(mac, cam, Unix(at + HOUR), Unix(now));
  }
}
