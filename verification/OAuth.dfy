/** The OAuth 2.0 server for account linking (internal/oauth/server.go): one-time codes in memory,
    stateless signed tokens, and the consent password behind the rate limit. HMAC-SHA256 in
    base64url is a function of the payload; that nobody else can sign is the premise Unforged.
    Times are nanoseconds; every reading of the clock is a parameter, and so are random codes and
    nonces. The log is ghost: what the process ever issued, exchanged and minted. */
module OAuth {
  import opened Wrappers
  import opened Text
  import opened Clock
  import opened StreamURLs
  import Limiter

  const CODE_TTL: int := 10 * 60 * SECOND
  const ACCESS_TTL: int := HOUR
  const REFRESH_TTL: int := 10 * 365 * 24 * 3600 * SECOND

  datatype Kind = Access | Refresh

  function KindText(k: Kind): string {
    if k.Access? then "a" else "r"
  }

  function TTL(k: Kind): int {
    if k.Access? then ACCESS_TTL else REFRESH_TTL
  }

  // ----- tokens -----

  // The expiry of a token minted at a time: the last whole second of an hour, or of ten years of 365 days, from then.
  function Expiry(at: int, k: Kind): (exp: int)
    ensures exp * 1_000_000_000 <= at + (if k.Access? then 3600 else 10 * 365 * 24 * 3600) * 1_000_000_000
      < (exp + 1) * 1_000_000_000
  {
    Unix(at + TTL(k))
  }

  function TokenPayload(kind: string, exp: string, nonce: string): string {
    kind + "." + exp + "." + nonce
  }

  function Sealed(mac: Mac, payload: string): string {
    payload + "." + mac(payload)
  }

  function Token(mac: Mac, k: Kind, exp: int, nonce: Base64URL): string {
    Sealed(mac, TokenPayload(KindText(k), FormatInt(exp), nonce))
  }

  function Verify(mac: Mac, keyed: bool, tok: string, want: Kind, now: int): bool {
    keyed && VerifyParts(mac, Split(tok, '.'), want, now)
  }

  function VerifyParts(mac: Mac, parts: seq<string>, want: Kind, now: int): bool {
    if |parts| != 4 || parts[0] != KindText(want) then false
    else match ParseInt(parts[1])
      case None => false
      case Some(exp) =>
        if Unix(now) > exp then false
        else mac(TokenPayload(parts[0], parts[1], parts[2])) == parts[3]
  }

  predicate Plain(s: string) {
    '.' !in s
  }

  lemma SealedIsJoin(mac: Mac, kind: string, exp: string, nonce: string)
    ensures var p := TokenPayload(kind, exp, nonce); Sealed(mac, p) == Join([kind, exp, nonce, mac(p)], '.')
  {
    var p := TokenPayload(kind, exp, nonce);
    var sig: string := mac(p);
    assert Join([nonce, sig], '.') == nonce + "." + sig;
    assert [exp, nonce, sig][1..] == [nonce, sig];
    assert Join([exp, nonce, sig], '.') == exp + "." + (nonce + "." + sig);
    assert [kind, exp, nonce, sig][1..] == [exp, nonce, sig];
    assert Join([kind, exp, nonce, sig], '.') == kind + "." + (exp + "." + (nonce + "." + sig));
  }

  lemma SplitSealed(mac: Mac, kind: string, exp: string, nonce: string)
    requires Plain(kind) && Plain(exp) && Plain(nonce)
    ensures var p := TokenPayload(kind, exp, nonce); Split(Sealed(mac, p), '.') == [kind, exp, nonce, mac(p)]
  {
    var sig: string := mac(TokenPayload(kind, exp, nonce));
    SealedIsJoin(mac, kind, exp, nonce);
    assert Plain(sig);
    SplitIsInverseOfJoin([kind, exp, nonce, sig], '.');
  }

  // A minted token splits into its parts and verifies exactly as its own kind and until its expiry.
  lemma MintedVerifiesExactly(mac: Mac, k: Kind, exp: int, nonce: Base64URL, want: Kind, now: int)
    requires Int64(exp)
    ensures Split(Token(mac, k, exp, nonce), '.')
      == var kind := if k.Access? then "a" else "r";
        [kind, FormatInt(exp), nonce, mac(kind + "." + FormatInt(exp) + "." + nonce)]
    ensures Verify(mac, true, Token(mac, k, exp, nonce), want, now)
      <==> want == k && now < (exp + 1) * 1_000_000_000
  {
    FormatIsPlain(exp);
    ParseFormat(exp);
    SplitSealed(mac, KindText(k), FormatInt(exp), nonce);
    assert KindText(want) == KindText(k) <==> want == k by {
      assert KindText(Access)[0] != KindText(Refresh)[0];
    }
  }

  // When a token minted at a time verifies: throughout its lifetime, an hour or ten years of 365 days, and
  // no more once a second has passed since.
  lemma MintedLives(mac: Mac, k: Kind, at: int, nonce: Base64URL, now: int)
    requires Int64(Expiry(at, k))
    ensures var ttl := if k.Access? then 3600 * 1_000_000_000 else 10 * 365 * 24 * 3600 * 1_000_000_000;
      var tok := Token(mac, k, Expiry(at, k), nonce);
      && (now <= at + ttl ==> Verify(mac, true, tok, k, now))
      && (now >= at + ttl + 1_000_000_000 ==> !Verify(mac, true, tok, k, now))
  {
    MintedVerifiesExactly(mac, k, Expiry(at, k), nonce, k, now);
  }

  predicate Opens(mac: Mac, tok: string, want: Kind, now: int, exp: string, nonce: string) {
    && '.' !in exp && '.' !in nonce
    && ParseInt(exp).Some? && now < (ParseInt(exp).value + 1) * 1_000_000_000
    && var payload := (if want.Access? then "a" else "r") + "." + exp + "." + nonce;
       tok == payload + "." + mac(payload)
  }

  // What verifies at all: a signed payload of the right kind whose second part is an unexpired time.
  lemma VerifiesExactly(mac: Mac, tok: string, want: Kind, now: int)
    ensures Verify(mac, true, tok, want, now) <==> exists exp, nonce :: Opens(mac, tok, want, now, exp, nonce)
    ensures !Verify(mac, false, tok, want, now)
  {
    var parts := Split(tok, '.');
    if Verify(mac, true, tok, want, now) {
      SplitParts(tok, '.');
      SealedIsJoin(mac, parts[0], parts[1], parts[2]);
      assert parts == [parts[0], parts[1], parts[2], mac(TokenPayload(parts[0], parts[1], parts[2]))];
      assert Opens(mac, tok, want, now, parts[1], parts[2]);
    }
    if exp, nonce :| Opens(mac, tok, want, now, exp, nonce) {
      SplitSealed(mac, KindText(want), exp, nonce);
    }
  }

  // ----- what happened so far -----

  datatype Event =
    | Issued(code: string, uri: string, at: int, password: string)
    | Exchanged(code: string, uri: string, at: int, issue: nat)
    | Minted(kind: Kind, exp: int, nonce: Base64URL, at: int, granted: int, parent: nat)

  // What the server is set up with; redirectOK is validRedirectURI.
  datatype Setup = Setup(clientID: string, clientSecret: string, password: string, redirectOK: string -> bool,
    keyed: bool, mac: Mac)

  ghost predicate GoodAt(log: seq<Event>, setup: Setup, i: nat)
    requires i < |log|
  {
    match log[i]
    case Issued(code, uri, _, password) =>
      password == setup.password && setup.redirectOK(uri) && !IssuedIn(log[..i], code)
    case Exchanged(code, uri, at, j) =>
      && j < i && log[j].Issued? && log[j].code == code && log[j].uri == uri && at <= log[j].at + CODE_TTL
      && !ExchangedIn(log[..i], code)
    case Minted(kind, exp, _, at, granted, p) =>
      && setup.keyed && Int64(exp) && exp == Expiry(at, kind) && granted <= at
      && p < i && Grants(log[p], kind, granted)
  }

  // An exchange grants tokens of both kinds; an unexpired refresh token grants access tokens.
  predicate Grants(e: Event, kind: Kind, at: int) {
    || (e.Exchanged? && e.at == at)
    || (kind.Access? && e.Minted? && e.kind.Refresh? && at < (e.exp + 1) * 1_000_000_000)
  }

  predicate IssuedIn(log: seq<Event>, code: string) {
    exists i | 0 <= i < |log| :: log[i].Issued? && log[i].code == code
  }

  predicate ExchangedIn(log: seq<Event>, code: string) {
    exists i | 0 <= i < |log| :: log[i].Exchanged? && log[i].code == code
  }

  ghost predicate GoodLog(log: seq<Event>, setup: Setup) {
    forall i | 0 <= i < |log| :: GoodAt(log, setup, i)
  }

  predicate MintedAs(log: seq<Event>, i: nat, payload: string) {
    i < |log| && log[i].Minted? && payload == TokenPayload(KindText(log[i].kind), FormatInt(log[i].exp), log[i].nonce)
  }

  // The premise about HMAC: a signed payload can only be presented if the server signed it.
  ghost predicate Unforged(log: seq<Event>, mac: Mac, tok: string) {
    forall payload :: tok == Sealed(mac, payload) ==> exists i: nat :: MintedAs(log, i, payload)
  }

  // Every token the server minted satisfies it, at any later time.
  lemma MintedIsUnforged(log: seq<Event>, setup: Setup, m: nat)
    requires m < |log| && log[m].Minted?
    ensures Unforged(log, setup.mac, Token(setup.mac, log[m].kind, log[m].exp, log[m].nonce))
  {
    var payload := TokenPayload(KindText(log[m].kind), FormatInt(log[m].exp), log[m].nonce);
    var tok := Token(setup.mac, log[m].kind, log[m].exp, log[m].nonce);
    assert MintedAs(log, m, payload);
    forall p | tok == Sealed(setup.mac, p)
      ensures exists i: nat :: MintedAs(log, i, p)
    {
      var sig: string, sig': string := setup.mac(payload), setup.mac(p);
      assert Plain(sig) && Plain(sig');
      LastDot(payload, sig, p, sig');
      LastDot(p, sig', payload, sig);
      assert payload == tok[..|payload|] == tok[..|p|] == p;
    }
  }

  lemma LastDot(a: string, x: string, b: string, y: string)
    requires a + "." + x == b + "." + y && Plain(x)
    ensures |b| <= |a|
  {
    var s := a + "." + x;
    assert s[|b|] == (b + "." + y)[|b|] == '.';
    assert forall i | |a| < i < |s| :: s[i] == x[i - |a| - 1];
  }

  // The minting event of a verified token.
  lemma VerifiedWasMinted(log: seq<Event>, setup: Setup, tok: string, want: Kind, now: int) returns (m: nat)
    requires GoodLog(log, setup) && Unforged(log, setup.mac, tok) && Verify(setup.mac, setup.keyed, tok, want, now)
    ensures setup.keyed
    ensures m < |log| && log[m].Minted? && log[m].kind == want && now < (log[m].exp + 1) * 1_000_000_000
    ensures tok == Token(setup.mac, want, log[m].exp, log[m].nonce)
  {
    VerifiesExactly(setup.mac, tok, want, now);
    var exp, nonce :| Opens(setup.mac, tok, want, now, exp, nonce);
    assert tok == Sealed(setup.mac, TokenPayload(KindText(want), exp, nonce));
    m :| MintedAs(log, m, TokenPayload(KindText(want), exp, nonce));
    assert GoodAt(log, setup, m);
    assert tok == Token(setup.mac, log[m].kind, log[m].exp, log[m].nonce);
    MintedVerifiesExactly(setup.mac, log[m].kind, log[m].exp, log[m].nonce, want, now);
  }

  // The events behind an accepted token: minted by the server, from an exchange of a code that was
  // issued for the right password to an allowed redirect URI, made with the same URI within ten minutes.
  ghost predicate DescendsFrom(log: seq<Event>, setup: Setup, m: nat, x: nat, c: nat) {
    && c < x < m < |log| && log[m].Minted? && log[x].Exchanged? && log[c].Issued?
    && log[x].code == log[c].code && log[x].uri == log[c].uri && log[x].at <= log[c].at + CODE_TTL
    && log[c].password == setup.password && setup.redirectOK(log[c].uri)
    && var p := log[m].parent;
       p == x || (p < m && log[p].Minted? && log[p].kind.Refresh? && log[p].parent == x)
  }

  lemma Provenance(log: seq<Event>, setup: Setup, tok: string, now: int)
    requires GoodLog(log, setup) && Unforged(log, setup.mac, tok)
    requires Verify(setup.mac, setup.keyed, tok, Access, now)
    ensures exists m: nat, x: nat, c: nat :: (DescendsFrom(log, setup, m, x, c)
      && tok == Token(setup.mac, Access, log[m].exp, log[m].nonce)
      && now < log[m].at + 3600 * 1_000_000_000 + 1_000_000_000)
  {
    var m := VerifiedWasMinted(log, setup, tok, Access, now);
    assert GoodAt(log, setup, m);
    var p := log[m].parent;
    assert GoodAt(log, setup, p);
    var x := if log[p].Exchanged? then p else log[p].parent;
    assert GoodAt(log, setup, x);
    var c := log[x].issue;
    assert GoodAt(log, setup, c);
    assert DescendsFrom(log, setup, m, x, c);
  }

  // Each issued code is exchanged at most once, over any run.
  lemma CodesWorkOnce(log: seq<Event>, setup: Setup, i: nat, j: nat)
    requires GoodLog(log, setup) && i < j < |log| && log[i].Exchanged? && log[j].Exchanged?
    ensures log[i].code != log[j].code && log[i].issue != log[j].issue
  {
    assert GoodAt(log, setup, i) && GoodAt(log, setup, j);
    assert log[..j][i] == log[i];
  }

  lemma GoodAppend(log: seq<Event>, setup: Setup, e: Event)
    requires GoodLog(log, setup) && GoodAt(log + [e], setup, |log|)
    ensures GoodLog(log + [e], setup)
  {
    var log' := log + [e];
    forall i | 0 <= i < |log'|
      ensures GoodAt(log', setup, i)
    {
      if i < |log| {
        assert GoodAt(log, setup, i);
        assert log'[..i] == log[..i];
      }
    }
  }

  // ----- the server -----

  datatype CodeEntry = CodeEntry(redirectURI: string, expires: int)

  datatype Refusal =
    | InvalidClientID | UnsupportedResponseType | MissingRedirectURI | InvalidRedirectURI
    | BadForm | TooManyAttempts | IncorrectPassword
    | InvalidRequest | InvalidClient | InvalidGrant | UnsupportedGrantType | ServerError

  // The consent form, or the redirection with a new code.
  datatype Consent = Form | Redirect(code: string)

  datatype AuthRequest = AuthRequest(
    clientID: string, redirectURI: string, responseType: string, get: bool, formOK: bool, ip: string, password: string)

  // A minted access token, and a refresh token after an exchange.
  datatype Grant = Grant(access: string, refresh: Option<string>)

  // The checks before the consent form.
  function CheckRequest(setup: Setup, req: AuthRequest): Option<Refusal> {
    if req.clientID != setup.clientID then Some(InvalidClientID)
    else if req.responseType != "code" then Some(UnsupportedResponseType)
    else if req.redirectURI == "" then Some(MissingRedirectURI)
    else if !setup.redirectOK(req.redirectURI) then Some(InvalidRedirectURI)
    else None
  }

  class Server {
    const setup: Setup
    const limiter: Limiter.Limiter
    var codes: map<string, CodeEntry>
    ghost var log: seq<Event>
    ghost var issue: map<string, nat> // where each outstanding code was issued

    ghost predicate Valid()
      reads this, limiter
    {
      limiter.Valid() && GoodLog(log, setup) && CodesValid(codes, issue, log)
    }

    constructor (setup: Setup, limiter: Limiter.Limiter)
      requires limiter.Valid()
      ensures Valid() && this.setup == setup && this.limiter == limiter && log == [] && codes == map[]
    {
      this.setup, this.limiter, codes, log, issue := setup, limiter, map[], [], map[];
    }

    // A code is issued exactly for a well-formed request with the right password that the rate limit lets through.
    // now and later are the times the limit is checked and the failure or the code is recorded.
    method Authorize(req: AuthRequest, now: int, later: int, code: string) returns (r: Result<Consent, Refusal>)
      requires Valid() && limiter.clock <= now <= later && !IssuedIn(log, code)
      modifies this`codes, this`log, this`issue, limiter
      ensures Valid()
      ensures var blocked := Limiter.Blocked(old(limiter.history), req.ip, now);
        r == if req.clientID != setup.clientID then Err(InvalidClientID)
          else if req.responseType != "code" then Err(UnsupportedResponseType)
          else if req.redirectURI == "" then Err(MissingRedirectURI)
          else if !setup.redirectOK(req.redirectURI) then Err(InvalidRedirectURI)
          else if req.get then Ok(Form)
          else if !req.formOK then Err(BadForm)
          else if blocked then Err(TooManyAttempts)
          else if req.password != setup.password then Err(IncorrectPassword)
          else Ok(Redirect(code))
      ensures limiter.history
        == old(limiter.history) + if r == Err(IncorrectPassword) then [Limiter.Failure(req.ip, later)] else []
      ensures if r == Ok(Redirect(code))
        then codes == old(codes)[code := CodeEntry(req.redirectURI, later + 600 * 1_000_000_000)]
          && log == old(log) + [Issued(code, req.redirectURI, later, req.password)]
        else codes == old(codes) && log == old(log)
    {
      var refusal := CheckRequest(setup, req);
      if refusal.Some? {
        return Err(refusal.value);
      }
      if req.get {
        return Ok(Form);
      }
      if !req.formOK {
        return Err(BadForm);
      }
      var blocked := limiter.TooManyFailures(req.ip, now);
      if blocked {
        return Err(TooManyAttempts);
      }
      if req.password != setup.password {
        assert limiter.history[..|limiter.history|] == limiter.history;
        limiter.RecordFailure(req.ip, later, |limiter.history|, now);
        return Err(IncorrectPassword);
      }
      IssueKeeps(codes, issue, log, setup, code, req.redirectURI, later, req.password);
      codes := codes[code := CodeEntry(req.redirectURI, later + CODE_TTL)];
      issue := issue[code := |log|];
      log := log + [Issued(code, req.redirectURI, later, req.password)];
      r := Ok(Redirect(code));
    }

    // The code is spent whatever the outcome; it is good exactly if it is outstanding, not expired,
    // and presented with its redirect URI.
    method Redeem(code: string, redirectURI: string, now: int) returns (ok: bool)
      requires Valid()
      modifies this`codes, this`log, this`issue
      ensures Valid() && codes == old(codes) - {code}
      ensures ok <==>
        code in old(codes) && now <= old(codes)[code].expires && old(codes)[code].redirectURI == redirectURI
      ensures log == old(log) + if ok then [Exchanged(code, redirectURI, now, old(issue)[code])] else []
    {
      if code !in codes {
        return false;
      }
      var entry := codes[code];
      ghost var j := issue[code];
      codes := codes - {code};
      issue := issue - {code};
      ok := now <= entry.expires && entry.redirectURI == redirectURI;
      if ok {
        ExchangeKeeps(old(codes), old(issue), log, setup, code, now);
        log := log + [Exchanged(code, redirectURI, now, j)];
      }
    }

    // A good code buys an access and a refresh token, if the server has a key.
    method ExchangeCode(
      code: string, redirectURI: string, now: int, accessAt: int, refreshAt: int, nonce: Base64URL,
      nonce': Base64URL)
      returns (r: Result<Grant, Refusal>)
      requires Valid() && now <= accessAt && now <= refreshAt
      requires Int64(Expiry(accessAt, Access)) && Int64(Expiry(refreshAt, Refresh))
      modifies this`codes, this`log, this`issue
      ensures Valid() && codes == old(codes) - {code} && old(log) <= log
      ensures var good := code in old(codes) && now <= old(codes)[code].expires
        && old(codes)[code].redirectURI == redirectURI;
        r == if !good then Err(InvalidGrant)
          else if !setup.keyed then Err(ServerError)
          else Ok(Grant(Token(setup.mac, Access, Expiry(accessAt, Access), nonce),
            Some(Token(setup.mac, Refresh, Expiry(refreshAt, Refresh), nonce'))))
    {
      var ok := Redeem(code, redirectURI, now);
      if !ok {
        return Err(InvalidGrant);
      }
      if !setup.keyed {
        return Err(ServerError);
      }
      ghost var x := |log| - 1;
      var access := Mint(Access, accessAt, now, nonce, x);
      var refresh := Mint(Refresh, refreshAt, now, nonce', x);
      r := Ok(Grant(access, Some(refresh)));
    }

    // mintToken with a key.
    method Mint(kind: Kind, at: int, ghost granted: int, nonce: Base64URL, ghost parent: nat) returns (tok: string)
      requires Valid() && setup.keyed && Int64(Expiry(at, kind)) && granted <= at
      requires parent < |log| && Grants(log[parent], kind, granted)
      modifies this`log
      ensures Valid() && tok == Token(setup.mac, kind, Expiry(at, kind), nonce)
      ensures log == old(log) + [Minted(kind, Expiry(at, kind), nonce, at, granted, parent)]
    {
      var exp := Unix(at + TTL(kind));
      ghost var e := Minted(kind, exp, nonce, at, granted, parent);
      GoodAppend(log, setup, e);
      CodesStay(codes, issue, log, e);
      log := log + [e];
      var payload := TokenPayload(KindText(kind), FormatInt(exp), nonce);
      tok := payload + "." + setup.mac(payload);
    }

    // A refresh token buys an access token exactly while it verifies.
    method RefreshAccess(token: string, now: int, at: int, nonce: Base64URL) returns (r: Result<Grant, Refusal>)
      requires Valid() && now <= at && Int64(Expiry(at, Access)) && Unforged(log, setup.mac, token)
      modifies this`log
      ensures Valid() && old(log) <= log
      ensures r == if Verify(setup.mac, setup.keyed, token, Refresh, now)
        then Ok(Grant(Token(setup.mac, Access, Expiry(at, Access), nonce), None)) else Err(InvalidGrant)
    {
      var ok := Verify(setup.mac, setup.keyed, token, Refresh, now);
      if !ok {
        return Err(InvalidGrant);
      }
      ghost var p := VerifiedWasMinted(log, setup, token, Refresh, now);
      var access := Mint(Access, at, now, nonce, p);
      r := Ok(Grant(access, None));
    }

    // An accepted access token has a good history.
    method Validate(token: string, now: int) returns (ok: bool)
      requires Valid() && Unforged(log, setup.mac, token)
      ensures ok == Verify(setup.mac, setup.keyed, token, Access, now)
      ensures ok ==> exists m: nat, x: nat, c: nat :: DescendsFrom(log, setup, m, x, c)
    {
      ok := Verify(setup.mac, setup.keyed, token, Access, now);
      if ok {
        Provenance(log, setup, token, now);
      }
    }

    // A restart forgets the codes and the failures; tokens already out stay what they were.
    method Restart(now: int)
      requires Valid()
      modifies this`codes, this`issue, limiter
      ensures Valid() && codes == map[] && limiter.history == [] && limiter.clock == now
    {
      codes, issue := map[], map[];
      limiter.Reset(now);
    }
  }

  // Outstanding codes: issued in the log, not exchanged yet, with the expiry and redirect URI of their issue.
  ghost predicate CodesValid(codes: map<string, CodeEntry>, issue: map<string, nat>, log: seq<Event>) {
    && issue.Keys == codes.Keys
    && forall code | code in codes ::
        var i := issue[code];
        i < |log| && log[i].Issued? && log[i].code == code && log[i].uri == codes[code].redirectURI
        && codes[code].expires == log[i].at + CODE_TTL && !ExchangedIn(log, code)
  }

  lemma IssueKeeps(
    codes: map<string, CodeEntry>, issue: map<string, nat>, log: seq<Event>, setup: Setup, code: string, uri: string,
    at: int, password: string)
    requires GoodLog(log, setup) && CodesValid(codes, issue, log) && !IssuedIn(log, code)
    requires setup.redirectOK(uri) && password == setup.password
    ensures var log' := log + [Issued(code, uri, at, password)];
      GoodLog(log', setup) && CodesValid(codes[code := CodeEntry(uri, at + CODE_TTL)], issue[code := |log|], log')
  {
    var log' := log + [Issued(code, uri, at, password)];
    assert log'[..|log|] == log;
    GoodAppend(log, setup, Issued(code, uri, at, password));
    ExchangedWasIssued(log, setup, code);
    assert forall c :: ExchangedIn(log', c) ==> ExchangedIn(log, c);
  }

  lemma ExchangedWasIssued(log: seq<Event>, setup: Setup, code: string)
    requires GoodLog(log, setup)
    ensures ExchangedIn(log, code) ==> IssuedIn(log, code)
  {
    if ExchangedIn(log, code) {
      var i :| 0 <= i < |log| && log[i].Exchanged? && log[i].code == code;
      assert GoodAt(log, setup, i);
    }
  }

  lemma CodesStay(codes: map<string, CodeEntry>, issue: map<string, nat>, log: seq<Event>, e: Event)
    requires CodesValid(codes, issue, log) && !e.Exchanged?
    ensures CodesValid(codes, issue, log + [e])
  {
    assert forall c :: ExchangedIn(log + [e], c) ==> ExchangedIn(log, c);
  }

  lemma ExchangeKeeps(
    codes: map<string, CodeEntry>, issue: map<string, nat>, log: seq<Event>, setup: Setup, code: string, now: int)
    requires GoodLog(log, setup) && CodesValid(codes, issue, log) && code in codes && now <= codes[code].expires
    ensures var log' := log + [Exchanged(code, codes[code].redirectURI, now, issue[code])];
      GoodLog(log', setup) && CodesValid(codes - {code}, issue - {code}, log')
  {
    var e := Exchanged(code, codes[code].redirectURI, now, issue[code]);
    var log' := log + [e];
    assert log'[..|log|] == log;
    GoodAppend(log, setup, e);
    assert forall c | c != code :: ExchangedIn(log', c) ==> ExchangedIn(log, c);
  }
}
