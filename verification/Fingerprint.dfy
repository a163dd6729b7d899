/** The SYNC fingerprint (internal/ghome/intents.go) and the startup gate built on it
    (internal/bridge/setupglue.go). JSON and SHA-256 together are some function of the agent user ID
    and the device list; only where different inputs must give different digests is it assumed to
    have no collisions. Whether a name or model says doorbell is given. What every device has in
    common (traits list, protocols, flags) is left out. */
module Fingerprint {
  import opened Cameras

  datatype Device = Device(id: Id, name: string, manufacturer: string, model: string, doorbell: bool)

  type Doorbell = (string, string) -> bool // of model and name

  type Digest = s: string | s != "" witness "0"

  type Hash = (string, seq<Device>) -> Digest

  ghost predicate Injective(hash: Hash) {
    forall a, s, b, t :: hash(a, s) == hash(b, t) ==> a == b && s == t
  }

  function DeviceOf(c: Camera, bell: Doorbell): Device {
    Device(c.id, c.name, c.manufacturer, c.model, bell(c.model, c.name))
  }

  function Devices(cams: seq<Camera>, bell: Doorbell): (devs: seq<Device>)
    ensures |devs| == |cams|
    ensures forall i | 0 <= i < |cams| :: devs[i] == DeviceOf(cams[i], bell)
  {
    seq(|cams|, i requires 0 <= i < |cams| => DeviceOf(cams[i], bell))
  }

  function AgentUserID(configured: string): string {
    if configured != "" then configured else "unifi-protect-bridge"
  }

  // The agent user ID in effect is the configured one, or the default when none is.
  predicate SameAgent(configured: string, configured': string) {
    || configured == configured'
    || (configured == "" && configured' == "unifi-protect-bridge")
    || (configured' == "" && configured == "unifi-protect-bridge")
  }

  lemma AgentUserIDExactly(configured: string, configured': string)
    ensures AgentUserID(configured) == AgentUserID(configured') <==> SameAgent(configured, configured')
  {
  }

  // ----- order of IDs -----

  // Go's < on strings.
  predicate Less(a: string, b: string) {
    b != "" && (a == "" || a[0] < b[0] || (a[0] == b[0] && Less(a[1..], b[1..])))
  }

  // At the first difference the smaller character, or nothing, comes first.
  lemma {:induction false} LessExactly(a: string, b: string)
    ensures Less(a, b) <==> exists i: nat :: DiffersAt(a, b, i)
    decreases |a|
  {
    if a == "" {
      assert b != "" ==> DiffersAt(a, b, 0);
    } else if b != "" {
      assert a[0] < b[0] ==> DiffersAt(a, b, 0);
      LessExactly(a[1..], b[1..]);
      if i: nat :| DiffersAt(a, b, i) && i > 0 {
        assert a[0] == a[..i][0] == b[..i][0] == b[0];
        assert a[1..][..i - 1] == a[..i][1..] && b[1..][..i - 1] == b[..i][1..];
        assert DiffersAt(a[1..], b[1..], i - 1);
      }
      if a[0] == b[0] {
        if j: nat :| DiffersAt(a[1..], b[1..], j) {
          assert a[..j + 1] == [a[0]] + a[1..][..j] && b[..j + 1] == [b[0]] + b[1..][..j];
          assert DiffersAt(a, b, j + 1);
        }
      }
    }
  }

  predicate DiffersAt(a: string, b: string, i: nat) {
    i <= |a| && i < |b| && a[..i] == b[..i] && (i == |a| || a[i] < b[i])
  }

  lemma {:induction false} LessIsTotal(a: string, b: string)
    ensures Less(a, b) || Less(b, a) || a == b
    ensures !(Less(a, b) && Less(b, a)) && !Less(a, a)
  {
    if a == "" {
    } else {
      LessIsTotal(a[1..], a[1..]);
      if b != "" && a[0] == b[0] {
        LessIsTotal(a[1..], b[1..]);
        assert a == [a[0]] + a[1..] && b == [b[0]] + b[1..];
      }
    }
  }

  // What sort.Slice leaves: no device before one with a smaller ID.
  ghost predicate Sorted(s: seq<Device>) {
    forall i, j | 0 <= i < j < |s| :: !Less(s[j].id, s[i].id)
  }

  ghost predicate DistinctIDs(s: seq<Device>) {
    forall i, j | 0 <= i < j < |s| :: s[i].id != s[j].id
  }

  ghost predicate Same(s: seq<Device>, t: seq<Device>) {
    forall d :: d in s <==> d in t
  }

  // Two sorted lists of the same devices are the same list.
  lemma {:induction false} SortedIsUnique(s: seq<Device>, t: seq<Device>)
    requires Sorted(s) && Sorted(t) && DistinctIDs(s) && DistinctIDs(t) && Same(s, t)
    ensures s == t
    decreases |s|
  {
    SomeMember(t);
    if s != [] {
      assert s[0] in t && t != [] && t[0] in s;
      LeastIsFirst(s, t);
      forall d
        ensures d in s[1..] <==> d in t[1..]
      {
        RestOf(s, d);
        RestOf(t, d);
      }
      SortedIsUnique(s[1..], t[1..]);
      assert s == [s[0]] + s[1..] && t == [t[0]] + t[1..];
    }
  }

  lemma SomeMember(s: seq<Device>)
    ensures s == [] || exists d :: d in s
  {
    if s != [] {
      assert s[0] in s;
    }
  }

  lemma LeastIsFirst(s: seq<Device>, t: seq<Device>)
    requires Sorted(s) && Sorted(t) && DistinctIDs(s) && DistinctIDs(t)
    requires s != [] && t != [] && s[0] in t && t[0] in s
    ensures s[0] == t[0]
  {
    var i :| 0 <= i < |t| && t[i] == s[0];
    var j :| 0 <= j < |s| && s[j] == t[0];
    LessIsTotal(s[0].id, t[0].id);
  }

  lemma RestOf(s: seq<Device>, d: Device)
    requires s != [] && DistinctIDs(s)
    ensures d in s[1..] <==> d in s && d != s[0]
  {
  }

  lemma {:induction false} NotLessIsTransitive(a: string, b: string, c: string)
    requires !Less(b, a) && !Less(c, b)
    ensures !Less(c, a)
    decreases |a|
  {
    if a != "" && b != "" && c != "" && a[0] == b[0] == c[0] {
      NotLessIsTransitive(a[1..], b[1..], c[1..]);
    }
  }

  // ----- the fingerprint -----

  // Of the devices in ID order; equal IDs may come in any order.
  ghost predicate IsFingerprint(digest: Digest, configured: string, cams: seq<Camera>, bell: Doorbell, hash: Hash) {
    exists sorted :: Sorted(sorted) && multiset(sorted) == multiset(Devices(cams, bell))
      && digest == hash(AgentUserID(configured), sorted)
  }

  // Where a device goes among sorted ones.
  method Position(s: seq<Device>, id: Id) returns (p: nat)
    requires Sorted(s)
    ensures p <= |s|
    ensures forall i | 0 <= i < p :: !Less(id, s[i].id)
    ensures forall i | p <= i < |s| :: !Less(s[i].id, id)
  {
    p := |s|;
    while p > 0 && Less(id, s[p - 1].id)
      invariant p <= |s|
      invariant forall i | p <= i < |s| :: !Less(s[i].id, id)
    {
      LessIsTotal(id, s[p - 1].id);
      p := p - 1;
    }
    if p > 0 {
      forall i | 0 <= i < p
        ensures !Less(id, s[i].id)
      {
        if i < p - 1 {
          NotLessIsTransitive(s[i].id, s[p - 1].id, id);
        }
      }
    }
  }

  lemma InsertKeepsSorted(s: seq<Device>, p: nat, d: Device)
    requires Sorted(s) && p <= |s|
    requires forall i | 0 <= i < p :: !Less(d.id, s[i].id)
    requires forall i | p <= i < |s| :: !Less(s[i].id, d.id)
    ensures Sorted(s[..p] + [d] + s[p..]) && multiset(s[..p] + [d] + s[p..]) == multiset(s) + multiset{d}
  {
    var t := s[..p] + [d] + s[p..];
    LessIsTotal(d.id, d.id);
    forall i, j | 0 <= i < j < |t|
      ensures !Less(t[j].id, t[i].id)
    {
      var a, b := if i < p then i else i - 1, if j < p then j else j - 1;
      assert i != p ==> t[i] == s[a];
      assert j != p ==> t[j] == s[b];
    }
    assert s == s[..p] + s[p..];
  }

  method SortByID(devs: seq<Device>) returns (s: seq<Device>)
    ensures Sorted(s) && multiset(s) == multiset(devs)
  {
    s := [];
    for k := 0 to |devs|
      invariant Sorted(s) && multiset(s) == multiset(devs[..k])
    {
      var p := Position(s, devs[k].id);
      InsertKeepsSorted(s, p, devs[k]);
      s := s[..p] + [devs[k]] + s[p..];
      assert devs[..k + 1] == devs[..k] + [devs[k]];
    }
    assert devs[..|devs|] == devs;
  }

  method BuildSyncDevices(cams: seq<Camera>, bell: Doorbell) returns (devs: seq<Device>)
    ensures devs == Devices(cams, bell)
    ensures |devs| == |cams| && forall i | 0 <= i < |cams| :: var c := cams[i];
      devs[i] == Device(c.id, c.name, c.manufacturer, c.model, bell(c.model, c.name))
  {
    devs := [];
    for i := 0 to |cams|
      invariant devs == Devices(cams, bell)[..i]
    {
      var c := cams[i];
      devs := devs + [Device(c.id, c.name, c.manufacturer, c.model, bell(c.model, c.name))];
    }
  }

  method SyncFingerprint(configured: string, cams: seq<Camera>, bell: Doorbell, hash: Hash) returns (digest: Digest)
    ensures IsFingerprint(digest, configured, cams, bell, hash)
  {
    var devs := BuildSyncDevices(cams, bell);
    var sorted := SortByID(devs);
    digest := hash(AgentUserID(configured), sorted);
  }

  ghost predicate DistinctCameras(cams: seq<Camera>) {
    forall i, j | 0 <= i < j < |cams| :: cams[i].id != cams[j].id
  }

  lemma SortedKeepsDistinct(s: seq<Device>, devs: seq<Device>)
    requires multiset(s) == multiset(devs) && DistinctIDs(devs)
    ensures DistinctIDs(s) && Same(s, devs)
  {
    forall d
      ensures d in s <==> d in devs
    {
      assert d in s <==> d in multiset(s);
      assert d in devs <==> d in multiset(devs);
    }
    forall i, j | 0 <= i < j < |s|
      ensures s[i].id != s[j].id
    {
      assert s[i] in devs && s[j] in devs;
      if s[i] == s[j] {
        TwiceCounts(s, i, j);
        OnceCounts(devs, s[i]);
        assert false;
      }
    }
  }

  lemma TwiceCounts(s: seq<Device>, i: nat, j: nat)
    requires i < j < |s| && s[i] == s[j]
    ensures multiset(s)[s[i]] >= 2
  {
    assert s == s[..j] + s[j..];
    assert s[i] in s[..j] && s[j..][0] in s[j..];
    assert multiset(s) == multiset(s[..j]) + multiset(s[j..]);
    assert s[i] in multiset(s[..j]) && s[i] in multiset(s[j..]);
  }

  lemma {:induction false} OnceCounts(s: seq<Device>, d: Device)
    requires DistinctIDs(s)
    ensures multiset(s)[d] <= 1
    decreases |s|
  {
    if s == [] {
    } else {
      OnceCounts(s[1..], d);
      assert s == [s[0]] + s[1..];
      if s[0] == d {
        RestOf(s, d);
        assert d !in multiset(s[1..]);
      }
    }
  }

  // Whatever the hash: the order of the cameras and who is online do not matter. Two fingerprints of
  // camera lists with distinct IDs agree if the agent user ID in effect and the set of devices do.
  lemma FingerprintIsCanonical(
    d: Digest, configured: string, cams: seq<Camera>, d': Digest, configured': string, cams': seq<Camera>,
    bell: Doorbell, hash: Hash)
    requires DistinctCameras(cams) && DistinctCameras(cams')
    requires IsFingerprint(d, configured, cams, bell, hash) && IsFingerprint(d', configured', cams', bell, hash)
    requires SameAgent(configured, configured') && Same(Devices(cams, bell), Devices(cams', bell))
    ensures d == d'
  {
    var devs, devs' := Devices(cams, bell), Devices(cams', bell);
    var s := Arranged(d, configured, cams, bell, hash);
    var s' := Arranged(d', configured', cams', bell, hash);
    SortedKeepsDistinct(s, devs);
    SortedKeepsDistinct(s', devs');
    SortedIsUnique(s, s');
  }

  // Without collisions nothing else goes unnoticed.
  lemma FingerprintTellsApart(
    d: Digest, configured: string, cams: seq<Camera>, d': Digest, configured': string, cams': seq<Camera>,
    bell: Doorbell, hash: Hash)
    requires Injective(hash) && DistinctCameras(cams) && DistinctCameras(cams')
    requires IsFingerprint(d, configured, cams, bell, hash) && IsFingerprint(d', configured', cams', bell, hash)
    requires d == d'
    ensures SameAgent(configured, configured') && Same(Devices(cams, bell), Devices(cams', bell))
  {
    var s := Arranged(d, configured, cams, bell, hash);
    var s' := Arranged(d', configured', cams', bell, hash);
    assert hash(AgentUserID(configured), s) == hash(AgentUserID(configured'), s');
    AgentUserIDExactly(configured, configured');
    SortedKeepsDistinct(s, Devices(cams, bell));
    SortedKeepsDistinct(s', Devices(cams', bell));
  }

  // Both together: without collisions, fingerprints agree exactly if agent user ID and devices do.
  lemma FingerprintExactly(
    d: Digest, configured: string, cams: seq<Camera>, d': Digest, configured': string, cams': seq<Camera>,
    bell: Doorbell, hash: Hash)
    requires Injective(hash) && DistinctCameras(cams) && DistinctCameras(cams')
    requires IsFingerprint(d, configured, cams, bell, hash) && IsFingerprint(d', configured', cams', bell, hash)
    ensures d == d' <==>
      SameAgent(configured, configured') && Same(Devices(cams, bell), Devices(cams', bell))
  {
    if d == d' {
      FingerprintTellsApart(d, configured, cams, d', configured', cams', bell, hash);
    }
    if SameAgent(configured, configured') && Same(Devices(cams, bell), Devices(cams', bell)) {
      FingerprintIsCanonical(d, configured, cams, d', configured', cams', bell, hash);
    }
  }

  // The sorted devices behind a fingerprint.
  lemma Arranged(d: Digest, configured: string, cams: seq<Camera>, bell: Doorbell, hash: Hash)
    returns (s: seq<Device>)
    requires IsFingerprint(d, configured, cams, bell, hash) && DistinctCameras(cams)
    ensures Sorted(s) && multiset(s) == multiset(Devices(cams, bell)) && d == hash(AgentUserID(configured), s)
    ensures DistinctIDs(Devices(cams, bell))
  {
    s :| Sorted(s) && multiset(s) == multiset(Devices(cams, bell)) && d == hash(AgentUserID(configured), s);
  }

  // ----- there are functions without collisions -----

  // A text, each character announced, behind which any other text can follow.
  function Framed(s: string): Digest {
    if s == "" then "0" else "1" + [s[0]] + Framed(s[1..])
  }

  lemma {:induction false} FramedIsPrefixFree(a: string, x: string, b: string, y: string)
    requires Framed(a) + x == Framed(b) + y
    ensures a == b && x == y
    decreases |a|
  {
    var p, q := Framed(a) + x, Framed(b) + y;
    assert p[0] == q[0];
    if a == "" {
      assert b == "" && p[1..] == x && q[1..] == y;
    } else {
      assert b != "" && p[1] == a[0] && q[1] == b[0];
      assert p[2..] == Framed(a[1..]) + x && q[2..] == Framed(b[1..]) + y;
      FramedIsPrefixFree(a[1..], x, b[1..], y);
      assert a == [a[0]] + a[1..] && b == [b[0]] + b[1..];
    }
  }

  function FramedDevice(d: Device, rest: string): string {
    var bell := if d.doorbell then "1" else "0";
    Framed(d.id) + (Framed(d.name) + (Framed(d.manufacturer) + (Framed(d.model) + (bell + rest))))
  }

  lemma FramedDeviceIsPrefixFree(d: Device, x: string, e: Device, y: string)
    requires FramedDevice(d, x) == FramedDevice(e, y)
    ensures d == e && x == y
  {
    var bd, be := if d.doorbell then "1" else "0", if e.doorbell then "1" else "0";
    FramedIsPrefixFree(d.id, Framed(d.name) + (Framed(d.manufacturer) + (Framed(d.model) + (bd + x))),
      e.id, Framed(e.name) + (Framed(e.manufacturer) + (Framed(e.model) + (be + y))));
    FramedIsPrefixFree(d.name, Framed(d.manufacturer) + (Framed(d.model) + (bd + x)),
      e.name, Framed(e.manufacturer) + (Framed(e.model) + (be + y)));
    FramedIsPrefixFree(d.manufacturer, Framed(d.model) + (bd + x), e.manufacturer, Framed(e.model) + (be + y));
    FramedIsPrefixFree(d.model, bd + x, e.model, be + y);
    assert (bd + x)[0] == (be + y)[0] && (bd + x)[1..] == x && (be + y)[1..] == y;
  }

  function FramedDevices(devs: seq<Device>): string {
    if devs == [] then "0" else "1" + FramedDevice(devs[0], FramedDevices(devs[1..]))
  }

  lemma {:induction false} FramedDevicesIsInjective(s: seq<Device>, t: seq<Device>)
    requires FramedDevices(s) == FramedDevices(t)
    ensures s == t
    decreases |s|
  {
    assert FramedDevices(s)[0] == FramedDevices(t)[0];
    if s == [] {
      assert t == [];
    } else {
      assert t != [];
      assert FramedDevices(s)[1..] == FramedDevice(s[0], FramedDevices(s[1..]));
      assert FramedDevices(t)[1..] == FramedDevice(t[0], FramedDevices(t[1..]));
      FramedDeviceIsPrefixFree(s[0], FramedDevices(s[1..]), t[0], FramedDevices(t[1..]));
      FramedDevicesIsInjective(s[1..], t[1..]);
      assert s == [s[0]] + s[1..] && t == [t[0]] + t[1..];
    }
  }

  function FramedAll(agent: string, devs: seq<Device>): Digest {
    Framed(agent) + FramedDevices(devs)
  }

  // The premise of FingerprintTellsApart can be met.
  lemma InjectiveIsMet()
    ensures exists hash :: Injective(hash)
  {
    var hash: Hash := FramedAll;
    forall a, s, b, t | hash(a, s) == hash(b, t)
      ensures a == b && s == t
    {
      FramedIsPrefixFree(a, FramedDevices(s), b, FramedDevices(t));
      FramedDevicesIsInjective(s, t);
    }
    assert Injective(hash);
  }

  // Equal but for who is online.
  predicate Alike(c: Camera, c': Camera) {
    c'.(online := c.online) == c
  }

  predicate Listed(c: Camera, cams: seq<Camera>) {
    exists j | 0 <= j < |cams| :: Alike(c, cams[j])
  }

  // Each of the cameras is also in the other list, on line or not.
  predicate Within(cams: seq<Camera>, cams': seq<Camera>) {
    forall i | 0 <= i < |cams| :: Listed(cams[i], cams')
  }

  // The devices are the same exactly if the cameras are, in whatever order and whoever is online.
  lemma OnlyOrderAndStateDoNotMatter(cams: seq<Camera>, cams': seq<Camera>, bell: Doorbell)
    ensures Same(Devices(cams, bell), Devices(cams', bell)) <==> Within(cams, cams') && Within(cams', cams)
  {
    DevicesWithin(cams, cams', bell);
    DevicesWithin(cams', cams, bell);
    assert Same(Devices(cams, bell), Devices(cams', bell))
      <==> Included(Devices(cams, bell), Devices(cams', bell)) && Included(Devices(cams', bell), Devices(cams, bell));
  }

  ghost predicate Included(s: seq<Device>, t: seq<Device>) {
    forall i | 0 <= i < |s| :: s[i] in t
  }

  lemma DevicesWithin(cams: seq<Camera>, cams': seq<Camera>, bell: Doorbell)
    ensures Included(Devices(cams, bell), Devices(cams', bell)) <==> Within(cams, cams')
  {
    var devs, devs' := Devices(cams, bell), Devices(cams', bell);
    if Included(devs, devs') {
      forall i | 0 <= i < |cams|
        ensures Listed(cams[i], cams')
      {
        assert devs[i] in devs';
        var j :| 0 <= j < |cams'| && devs'[j] == devs[i];
        assert Alike(cams[i], cams'[j]);
      }
    }
    if Within(cams, cams') {
      forall i | 0 <= i < |devs|
        ensures devs[i] in devs'
      {
        var j :| 0 <= j < |cams'| && Alike(cams[i], cams'[j]);
        assert devs'[j] == devs[i];
      }
    }
  }

  // ----- the startup gate -----

  // One start of the bridge: the current fingerprint, whether the state file can be read, whether
  // Google accepts the request, and whether the file can be written; if not, what it then says.
  datatype Start = Start(current: Digest, readOK: bool, requestOK: bool, writeOK: bool, left: string)

  // The fingerprint found: none is the empty string.
  function Found(saved: string, st: Start): string {
    if st.readOK then saved else ""
  }

  function Requests(saved: string, st: Start): bool {
    Found(saved, st) != st.current
  }

  function SavedAfter(saved: string, st: Start): string {
    if !Requests(saved, st) || !st.requestOK then saved
    else if st.writeOK then st.current
    else st.left
  }

  class SyncState {
    var saved: string // the fingerprint in the state file, or empty

    constructor (saved: string)
      ensures this.saved == saved
    {
      this.saved := saved;
    }

    // Returns whether a RequestSync was sent, and whether it succeeded.
    method StartupRequestSync(st: Start) returns (sent: bool, ok: bool)
      modifies this
      ensures sent == Requests(old(saved), st) && ok == (sent && st.requestOK)
      ensures saved == SavedAfter(old(saved), st)
      ensures sent <==> (if st.readOK then old(saved) else "") != st.current
      ensures saved == if !ok then old(saved) else if st.writeOK then st.current else st.left
    {
      var prev := "";
      if st.readOK {
        prev := saved;
      }
      if prev == st.current {
        return false, false;
      }
      if !st.requestOK {
        return true, false;
      }
      saved := if st.writeOK then st.current else st.left;
      return true, true;
    }
  }

  // The state after a series of starts, and the requests that succeeded in it.
  function SavedBy(saved: string, starts: seq<Start>): string {
    if starts == [] then saved
    else SavedAfter(SavedBy(saved, starts[..|starts| - 1]), starts[|starts| - 1])
  }

  function Successes(saved: string, starts: seq<Start>): nat {
    if starts == [] then 0
    else
      var n := |starts| - 1;
      var st := starts[n];
      Successes(saved, starts[..n]) + if Requests(SavedBy(saved, starts[..n]), st) && st.requestOK then 1 else 0
  }

  // How often the fingerprint differed from the start before.
  function Changes(starts: seq<Start>): nat {
    if |starts| < 2 then 0
    else
      var n := |starts| - 1;
      Changes(starts[..n]) + if starts[n].current != starts[n - 1].current then 1 else 0
  }

  // Failures to read and to write the state file.
  function Faults(starts: seq<Start>): nat {
    if starts == [] then 0
    else
      var n := |starts| - 1;
      Faults(starts[..n]) + (if starts[n].readOK then 0 else 1) + (if starts[n].writeOK then 0 else 1)
  }

  // The quota: apart from the first, each successful request is paid for by a change of the
  // fingerprint or a fault of the state file.
  lemma {:induction false} QuotaIsBounded(saved: string, starts: seq<Start>)
    requires starts != []
    ensures Successes(saved, starts) + (if SavedBy(saved, starts) == starts[|starts| - 1].current then 0 else 1)
      <= 1 + Changes(starts) + Faults(starts)
  {
    var n := |starts| - 1;
    if n > 0 {
      QuotaIsBounded(saved, starts[..n]);
      assert starts[..n][n - 1] == starts[n - 1];
    } else {
      assert starts[..0] == [];
    }
  }

  // With an unchanged fingerprint and a working state file: one request succeeds in all, at the first
  // start Google accepts it, and none if it was already announced.
  lemma {:induction false} UnchangedSyncsOnce(saved: string, starts: seq<Start>, current: Digest)
    requires forall i | 0 <= i < |starts| :: starts[i].current == current && starts[i].readOK && starts[i].writeOK
    ensures Successes(saved, starts)
      == if saved != current && (exists i | 0 <= i < |starts| :: starts[i].requestOK) then 1 else 0
    ensures SavedBy(saved, starts) == if Successes(saved, starts) == 1 then current else saved
  {
    if starts == [] {
    } else {
      var n := |starts| - 1;
      UnchangedSyncsOnce(saved, starts[..n], current);
      assert forall i | 0 <= i < n :: starts[..n][i] == starts[i];
      assert starts[n].requestOK
        || forall i | 0 <= i < |starts| && starts[i].requestOK :: i < n && starts[..n][i].requestOK;
    }
  }
}
