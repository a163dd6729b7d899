/** Replies of the UBNT discovery protocol (internal/discovery/discovery.go): a four-byte header and
    type-length-value fields, all integers big-endian. Texts are kept as the bytes they are. */
module Discovery {
  import opened Wrappers

  type Byte = b: int | 0 <= b < 256
  type Bytes = seq<Byte>

  const PORT := 10001

  const HW_ADDR := 0x01
  const IP_INFO := 0x02
  const FW_VERSION := 0x03
  const MAC_ADDRESS := 0x05
  const UPTIME := 0x0A
  const HOSTNAME := 0x0B
  const PLATFORM := 0x0C
  const MODEL := 0x14
  const PRODUCT_NAME := 0x15
  const VERSION := 0x16

  datatype Device = Device(
    sourceIP: string, hwAddr: string, hostname: Bytes, platform: Bytes, model: Bytes,
    productName: Bytes, version: Bytes, fwVersion: Bytes, uptime: nat)

  function NewDevice(ip: string): Device {
    Device(ip, "", [], [], [], [], [], [], 0)
  }

  datatype Field = Field(kind: Byte, value: Bytes)

  // ----- one field -----

  function HexDigit(n: nat): char
    requires n < 16
  {
    "0123456789abcdef"[n]
  }

  function FormatMAC(b: Bytes): string {
    if b == [] then ""
    else
      var n := |b| - 1;
      FormatMAC(b[..n]) + (if n > 0 then ":" else "") + [HexDigit(b[n] / 16), HexDigit(b[n] % 16)]
  }

  function BE16(b: Bytes): nat
    requires |b| == 2
  {
    (b[0] as int) * 256 + b[1]
  }

  function BE32(b: Bytes): nat
    requires |b| == 4
  {
    BE16(b[..2]) * 65536 + BE16(b[2..])
  }

  // The MAC address a field carries, if it is one and well-formed.
  function MACIn(f: Field): Option<Bytes> {
    if f.kind in {HW_ADDR, MAC_ADDRESS} && |f.value| == 6 then Some(f.value)
    else if f.kind == IP_INFO && |f.value| == 10 then Some(f.value[..6])
    else None
  }

  // What a field does to the device.
  function Apply(d: Device, f: Field): Device {
    match f.kind
    case 0x01 => if |f.value| == 6 && d.hwAddr == "" then d.(hwAddr := FormatMAC(f.value)) else d
    case 0x05 => if |f.value| == 6 && d.hwAddr == "" then d.(hwAddr := FormatMAC(f.value)) else d
    case 0x02 => if |f.value| == 10 && d.hwAddr == "" then d.(hwAddr := FormatMAC(f.value[..6])) else d
    case 0x03 => d.(fwVersion := f.value)
    case 0x0A => if |f.value| == 4 then d.(uptime := BE32(f.value)) else d
    case 0x0B => d.(hostname := f.value)
    case 0x0C => d.(platform := f.value)
    case 0x14 => d.(model := f.value)
    case 0x15 => d.(productName := f.value)
    case 0x16 => d.(version := f.value)
    case _ => d
  }

  function ApplyAll(d: Device, fs: seq<Field>): Device
    decreases |fs|
  {
    if fs == [] then d else ApplyAll(Apply(d, fs[0]), fs[1..])
  }

  // ----- the wire -----

  predicate Sendable(f: Field) {
    |f.value| < 0x1_0000
  }

  function EncodeField(f: Field): Bytes
    requires Sendable(f)
  {
    [f.kind, |f.value| / 256, |f.value| % 256] + f.value
  }

  function Encode(fs: seq<Field>): Bytes
    requires forall i | 0 <= i < |fs| :: Sendable(fs[i])
  {
    if fs == [] then [] else EncodeField(fs[0]) + Encode(fs[1..])
  }

  // The complete fields at the start of a body.
  function Fields(body: Bytes): seq<Field>
    decreases |body|
  {
    if |body| < 3 || 3 + BE16(body[1..3]) > |body| then []
    else
      var n := 3 + BE16(body[1..3]);
      [Field(body[0], body[3..n])] + Fields(body[n..])
  }

  // The switch on the header. None: not a reply. dataLen as announced.
  predicate Recognised(version: Byte, command: Byte, dataLen: nat) {
    || (version == 1 && command == 0)
    || (version == 2 && command in {6, 9})
    || (version == 0 && dataLen > 0)
  }

  // The device a datagram describes.
  function Reply(payload: Bytes, port: int, ip: string): Option<Device> {
    if |payload| < 4 then None
    else if port != PORT && payload[0] == 1 && payload[1] == 0 then Some(NewDevice(ip))
    else
      var dataLen := BE16(payload[2..4]);
      if !Recognised(payload[0], payload[1], dataLen) then None
      else
        var body := payload[4..];
        Some(ApplyAll(NewDevice(ip), Fields(if dataLen > |body| then body else body[..dataLen])))
  }

  // from: the sender, if there is one.
  method ParseResponse(payload: Bytes, from: Option<(int, string)>) returns (r: Option<Device>)
    ensures r == if from.Some? then Reply(payload, from.value.0, from.value.1) else None
    ensures r.Some?
      <==> (from.Some? && |payload| >= 4
            && ((payload[0] == 1 && payload[1] == 0)
                || (payload[0] == 2 && (payload[1] == 6 || payload[1] == 9))
                || (payload[0] == 0 && !(payload[2] == 0 && payload[3] == 0))))
    ensures from.Some? && |payload| >= 4 && payload[0] == 1 && payload[1] == 0 && from.value.0 != 10001
      ==> r == Some(Device(from.value.1, "", [], [], [], [], [], [], 0))
  {
    if |payload| < 4 || from == None {
      return None;
    }
    var (port, ip) := from.value;
    if port != PORT && payload[0] == 1 && payload[1] == 0 {
      return Some(NewDevice(ip));
    }
    var dataLen := BE16(payload[2..4]);
    if !Recognised(payload[0], payload[1], dataLen) {
      return None;
    }
    var body := payload[4..];
    if dataLen > |body| {
      dataLen := |body|;
    }
    body := body[..dataLen];
    ghost var whole := body;
    assert payload[4..][..|payload| - 4] == payload[4..];
    var d := NewDevice(ip);
    while |body| >= 3
      invariant ApplyAll(d, Fields(body)) == ApplyAll(NewDevice(ip), Fields(whole))
      decreases |body|
    {
      var fl := BE16(body[1..3]);
      if 3 + fl > |body| {
        break;
      }
      var f := Field(body[0], body[3..3 + fl]);
      assert Fields(body)[0] == f && Fields(body)[1..] == Fields(body[3 + fl..]);
      d := Apply(d, f);
      body := body[3 + fl..];
    }
    assert Fields(body) == [];
    r := Some(d);
  }

  // ----- reading back what was sent -----

  // How many of the fields fit whole in the first m bytes.
  function Complete(fs: seq<Field>, m: nat): (k: nat)
    ensures k <= |fs|
    decreases |fs|
  {
    if fs == [] || 3 + |fs[0].value| > m then 0 else 1 + Complete(fs[1..], m - 3 - |fs[0].value|)
  }

  function WireSize(fs: seq<Field>): nat
    decreases |fs|
  {
    if fs == [] then 0 else 3 + |fs[0].value| + WireSize(fs[1..])
  }

  lemma {:induction false} EncodeSize(fs: seq<Field>)
    requires forall i | 0 <= i < |fs| :: Sendable(fs[i])
    ensures |Encode(fs)| == WireSize(fs)
    decreases |fs|
  {
    if fs == [] {
    } else {
      EncodeSize(fs[1..]);
    }
  }

  // The count is the greatest that fits.
  lemma {:induction false} CompleteIsGreatest(fs: seq<Field>, m: nat, k: nat)
    requires k <= |fs|
    ensures k <= Complete(fs, m) <==> WireSize(fs[..k]) <= m
    decreases |fs|
  {
    if k > 0 {
      assert fs[..k][1..] == fs[1..][..k - 1];
      if 3 + |fs[0].value| <= m {
        CompleteIsGreatest(fs[1..], m - 3 - |fs[0].value|, k - 1);
      }
    }
  }

  // The first m bytes of a field and what follows it.
  lemma FieldHead(f: Field, rest: Bytes, m: nat)
    requires Sendable(f) && m <= |EncodeField(f) + rest|
    ensures var body := (EncodeField(f) + rest)[..m]; var n := 3 + |f.value|;
      && (m >= 3 ==> body[0] == f.kind && BE16(body[1..3]) == |f.value|)
      && (m >= n ==> body[3..n] == f.value && body[n..] == rest[..m - n])
  {
    var whole := EncodeField(f) + rest;
    assert whole[1] == |f.value| / 256 && whole[2] == |f.value| % 256;
  }

  // One step of reading a body that starts with a field's header.
  lemma FieldsStep(body: Bytes, f: Field)
    requires |body| >= 3 && body[0] == f.kind && BE16(body[1..3]) == |f.value|
    ensures var n := 3 + |f.value|;
      Fields(body) == if n > |body| then [] else [Field(f.kind, body[3..n])] + Fields(body[n..])
  {
  }

  lemma TakeCons(fs: seq<Field>, k: nat)
    requires k < |fs|
    ensures fs[..1 + k] == [fs[0]] + fs[1..][..k]
  {
  }

  lemma {:induction false} FieldsOfPrefix(fs: seq<Field>, m: nat)
    requires forall i | 0 <= i < |fs| :: Sendable(fs[i])
    requires m <= |Encode(fs)|
    ensures Fields(Encode(fs)[..m]) == fs[..Complete(fs, m)]
    decreases |fs|
  {
    if fs == [] {
    } else {
      var f, tail := fs[0], fs[1..];
      var rest, n := Encode(tail), 3 + |f.value|;
      var body := (EncodeField(f) + rest)[..m];
      assert Encode(fs)[..m] == body;
      FieldHead(f, rest, m);
      if m >= 3 {
        FieldsStep(body, f);
      }
      if m >= n {
        assert Fields(rest[..m - n]) == tail[..Complete(tail, m - n)] by {
          FieldsOfPrefix(tail, m - n);
        }
        assert Fields(body) == [f] + tail[..Complete(tail, m - n)];
        TakeCons(fs, Complete(tail, m - n));
      }
    }
  }

  function Datagram(version: Byte, command: Byte, fs: seq<Field>): Bytes
    requires forall i | 0 <= i < |fs| :: Sendable(fs[i])
    requires |Encode(fs)| < 0x1_0000
  {
    [version, command, |Encode(fs)| / 256, |Encode(fs)| % 256] + Encode(fs)
  }

  lemma DatagramPrefix(version: Byte, command: Byte, fs: seq<Field>, m: nat)
    requires forall i | 0 <= i < |fs| :: Sendable(fs[i])
    requires |Encode(fs)| < 0x1_0000 && 4 <= m <= |Datagram(version, command, fs)|
    ensures var payload := Datagram(version, command, fs)[..m];
      payload[0] == version && payload[1] == command && BE16(payload[2..4]) == |Encode(fs)|
        && payload[4..] == Encode(fs)[..m - 4]
  {
    var payload, n := Datagram(version, command, fs)[..m], |Encode(fs)|;
    var head: Bytes := [version, command, n / 256, n % 256];
    assert Datagram(version, command, fs) == head + Encode(fs) && payload[..4] == head;
    assert payload[2..4] == head[2..];
  }

  lemma ReplyIs(payload: Bytes, body: Bytes, dataLen: nat, port: int, ip: string)
    requires |payload| >= 4 && payload[4..] == body && BE16(payload[2..4]) == dataLen && |body| <= dataLen
    requires Recognised(payload[0], payload[1], dataLen) && !(port != PORT && payload[0] == 1 && payload[1] == 0)
    ensures Reply(payload, port, ip) == Some(ApplyAll(NewDevice(ip), Fields(body)))
  {
    assert body[..|body|] == body;
  }

  // A reply cut off anywhere past its header is read as its complete fields; uncut, as all of them.
  lemma ReplyReadsCompleteFields(version: Byte, command: Byte, fs: seq<Field>, m: nat, port: int, ip: string)
    requires forall i | 0 <= i < |fs| :: Sendable(fs[i])
    requires |Encode(fs)| < 0x1_0000 && Recognised(version, command, |Encode(fs)|)
    requires !(port != PORT && version == 1 && command == 0)
    requires 4 <= m <= |Datagram(version, command, fs)|
    ensures Reply(Datagram(version, command, fs)[..m], port, ip)
      == Some(ApplyAll(NewDevice(ip), fs[..Complete(fs, m - 4)]))
    ensures m == |Datagram(version, command, fs)| ==> fs[..Complete(fs, m - 4)] == fs
  {
    var payload, wire := Datagram(version, command, fs)[..m], Encode(fs);
    var fields := fs[..Complete(fs, m - 4)];
    DatagramPrefix(version, command, fs, m);
    assert Fields(wire[..m - 4]) == fields by {
      FieldsOfPrefix(fs, m - 4);
    }
    ReplyIs(payload, wire[..m - 4], |wire|, port, ip);
    assert m == 4 + |wire| ==> fields == fs by {
      EncodeSize(fs);
      CompleteIsGreatest(fs, m - 4, |fs|);
      assert fs[..|fs|] == fs;
    }
  }

  // What follows the announced length is ignored.
  lemma TrailingIsIgnored(payload: Bytes, trailing: Bytes, port: int, ip: string)
    requires |payload| >= 4 && |payload| >= 4 + (payload[2] as int) * 256 + (payload[3] as int)
    ensures Reply(payload + trailing, port, ip) == Reply(payload, port, ip)
  {
    var longer := payload + trailing;
    assert longer[0] == payload[0] && longer[1] == payload[1] && longer[2..4] == payload[2..4];
    var dataLen := BE16(payload[2..4]);
    assert longer[4..][..dataLen] == payload[4..][..dataLen];
  }

  // ----- what the fields of a reply come to -----

  lemma {:induction false} FormatMACSize(b: Bytes)
    ensures |FormatMAC(b)| == if b == [] then 0 else 3 * |b| - 1
  {
    if b == [] {
    } else {
      FormatMACSize(b[..|b| - 1]);
    }
  }

  // The value of a lower-case hexadecimal digit.
  function HexValue(c: char): Option<int> {
    if '0' <= c <= '9' then Some(c as int - '0' as int)
    else if 'a' <= c <= 'f' then Some(c as int - 'a' as int + 10)
    else None
  }

  lemma HexDigitIs(n: nat)
    requires n < 16
    ensures HexValue(HexDigit(n)) == Some(n)
  {
  }

  // Two digits a byte, the high one first, with colons between.
  lemma {:induction false} FormatMACAt(b: Bytes, i: nat)
    requires i < |b|
    ensures var text := FormatMAC(b);
      && |text| == 3 * |b| - 1
      && HexValue(text[3 * i]) == Some(b[i] / 16) && HexValue(text[3 * i + 1]) == Some(b[i] % 16)
      && (i + 1 < |b| ==> text[3 * i + 2] == ':')
  {
    var n := |b| - 1;
    var init, last := FormatMAC(b[..n]), [HexDigit(b[n] / 16), HexDigit(b[n] % 16)];
    FormatMACSize(b[..n]);
    HexDigitIs(b[n] / 16);
    HexDigitIs(b[n] % 16);
    assert FormatMAC(b) == init + (if n > 0 then ":" else "") + last;
    if i < n {
      FormatMACAt(b[..n], i);
      assert b[..n][i] == b[i];
    }
  }

  lemma BE16ReadsBack(n: nat)
    requires n < 0x1_0000
    ensures BE16([n / 256, n % 256]) == n
  {
  }

  lemma ByteSplit(n: nat)
    requires n < 0x1_0000_0000
    ensures n / 0x100_0000 == n / 0x1_0000 / 256 && n / 256 % 256 == n % 0x1_0000 / 256 && n % 256 == n % 0x1_0000 % 256
  {
  }

  // A 32-bit number sent most significant byte first is read back.
  lemma UptimeReadsBack(n: nat)
    requires n < 0x1_0000_0000
    ensures BE32([n / 0x100_0000, n / 0x1_0000 % 256, n / 256 % 256, n % 256]) == n
  {
    var hi, lo := n / 0x1_0000, n % 0x1_0000;
    ByteSplit(n);
    var b: Bytes := [hi / 256, hi % 256, lo / 256, lo % 256];
    assert BE16(b[..2]) == hi by {
      assert b[..2] == [hi / 256, hi % 256];
      BE16ReadsBack(hi);
    }
    assert BE16(b[2..]) == lo by {
      assert b[2..] == [lo / 256, lo % 256];
      BE16ReadsBack(lo);
    }
  }

  function FirstMAC(fs: seq<Field>): Option<Bytes>
    decreases |fs|
  {
    if fs == [] then None
    else if MACIn(fs[0]).Some? then MACIn(fs[0])
    else FirstMAC(fs[1..])
  }

  lemma ApplyMAC(d: Device, f: Field)
    ensures Apply(d, f).hwAddr
      == if d.hwAddr != "" || MACIn(f).None? then d.hwAddr else FormatMAC(MACIn(f).value)
    ensures MACIn(f).Some? ==> Apply(d, f).hwAddr != ""
  {
    if MACIn(f).Some? {
      FormatMACSize(MACIn(f).value);
    }
  }

  // The first well-formed address wins, whichever kind of field it comes in.
  lemma {:induction false} FirstMACWins(d: Device, fs: seq<Field>)
    ensures ApplyAll(d, fs).hwAddr
      == if d.hwAddr != "" || FirstMAC(fs).None? then d.hwAddr else FormatMAC(FirstMAC(fs).value)
    decreases |fs|
  {
    if fs == [] {
    } else {
      var d' := Apply(d, fs[0]);
      assert ApplyAll(d, fs) == ApplyAll(d', fs[1..]);
      ApplyMAC(d, fs[0]);
      FirstMACWins(d', fs[1..]);
    }
  }

  // The value of the last field of a kind, among those of an acceptable size.
  function Last(fs: seq<Field>, kind: int, size: int, otherwise: Bytes): Bytes {
    if fs == [] then otherwise
    else
      var f := fs[|fs| - 1];
      if f.kind == kind && (size < 0 || |f.value| == size) then f.value
      else Last(fs[..|fs| - 1], kind, size, otherwise)
  }

  lemma {:induction false} ApplyAllLast(d: Device, fs: seq<Field>)
    requires fs != []
    ensures ApplyAll(d, fs) == Apply(ApplyAll(d, fs[..|fs| - 1]), fs[|fs| - 1])
    decreases |fs|
  {
    if |fs| > 1 {
      ApplyAllLast(Apply(d, fs[0]), fs[1..]);
      assert fs[1..][..|fs| - 2] == fs[..|fs| - 1][1..];
    }
  }

  // Later texts replace earlier ones; so do later uptimes of four bytes.
  lemma LastValueWins(ip: string, fs: seq<Field>)
    ensures var d := ApplyAll(NewDevice(ip), fs);
      && d.sourceIP == ip
      && d.hostname == Last(fs, HOSTNAME, -1, []) && d.platform == Last(fs, PLATFORM, -1, [])
      && d.model == Last(fs, MODEL, -1, []) && d.productName == Last(fs, PRODUCT_NAME, -1, [])
      && d.version == Last(fs, VERSION, -1, []) && d.fwVersion == Last(fs, FW_VERSION, -1, [])
      && d.uptime == BE32(UptimeBytes(fs))
  {
    LastTextWins(ip, fs, HOSTNAME);
    LastTextWins(ip, fs, PLATFORM);
    LastTextWins(ip, fs, MODEL);
    LastTextWins(ip, fs, PRODUCT_NAME);
    LastTextWins(ip, fs, VERSION);
    LastTextWins(ip, fs, FW_VERSION);
    LastUptimeWins(ip, fs);
  }

  function TextOf(d: Device, kind: int): Bytes {
    match kind
    case 0x03 => d.fwVersion
    case 0x0B => d.hostname
    case 0x0C => d.platform
    case 0x14 => d.model
    case 0x15 => d.productName
    case 0x16 => d.version
    case _ => []
  }

  lemma {:induction false} LastTextWins(ip: string, fs: seq<Field>, kind: int)
    requires kind in {FW_VERSION, HOSTNAME, PLATFORM, MODEL, PRODUCT_NAME, VERSION}
    ensures TextOf(ApplyAll(NewDevice(ip), fs), kind) == Last(fs, kind, -1, [])
    ensures ApplyAll(NewDevice(ip), fs).sourceIP == ip
    decreases |fs|
  {
    if fs == [] {
    } else {
      var init, f := fs[..|fs| - 1], fs[|fs| - 1];
      var d := ApplyAll(NewDevice(ip), init);
      assert ApplyAll(NewDevice(ip), fs) == Apply(d, f) by {
        ApplyAllLast(NewDevice(ip), fs);
      }
      LastTextWins(ip, init, kind);
      assert TextOf(Apply(d, f), kind) == if f.kind == kind then f.value else TextOf(d, kind);
    }
  }

  lemma {:induction false} LastUptimeWins(ip: string, fs: seq<Field>)
    ensures ApplyAll(NewDevice(ip), fs).uptime == BE32(UptimeBytes(fs))
    decreases |fs|
  {
    if fs == [] {
    } else {
      ApplyAllLast(NewDevice(ip), fs);
      LastUptimeWins(ip, fs[..|fs| - 1]);
    }
  }

  function UptimeBytes(fs: seq<Field>): (b: Bytes)
    ensures |b| == 4
  {
    LastSize(fs, UPTIME, 4, [0, 0, 0, 0]);
    Last(fs, UPTIME, 4, [0, 0, 0, 0])
  }

  lemma {:induction false} LastSize(fs: seq<Field>, kind: int, size: nat, otherwise: Bytes)
    requires |otherwise| == size
    ensures |Last(fs, kind, size, otherwise)| == size
  {
    if fs == [] {
    } else {
      LastSize(fs[..|fs| - 1], kind, size, otherwise);
    }
  }
}
