/** The two camera records of the bridge and the choice of an RTSP channel
    (internal/unifi/types.go, internal/unifi/client.go, internal/ghome/intents.go). */
module Cameras {
  import opened Wrappers

  type Id = string

  datatype Channel = Channel(id: int, width: int, height: int, alias: string, enabled: bool)

  // A camera as the Protect controller's bootstrap describes it.
  datatype ProtectCamera = ProtectCamera(id: Id, name: string, model: string, online: bool, channels: seq<Channel>)

  // A camera as Google Home fulfillment sees it.
  datatype Camera = Camera(id: Id, name: string, manufacturer: string, model: string, online: bool)

  predicate Usable(ch: Channel) {
    ch.enabled && ch.alias != ""
  }

  function Area(ch: Channel): int {
    ch.width * ch.height
  }

  // What "best" means: enabled and with an alias, no such channel is larger, no earlier one is as large.
  ghost predicate IsBest(chs: seq<Channel>, i: nat) {
    && i < |chs|
    && chs[i].enabled && chs[i].alias != ""
    && (forall j | 0 <= j < |chs| && chs[j].enabled && chs[j].alias != "" ::
      chs[j].width * chs[j].height <= chs[i].width * chs[i].height)
    && (forall j | 0 <= j < i && chs[j].enabled && chs[j].alias != "" ::
      chs[j].width * chs[j].height < chs[i].width * chs[i].height)
  }

  // The index of the best channel.
  function Best(chs: seq<Channel>): (best: Option<nat>)
    ensures best.Some? ==> best.value < |chs|
  {
    if chs == [] then None
    else
      var n := |chs| - 1;
      var best := Best(chs[..n]);
      if Usable(chs[n]) && (best.None? || Area(chs[n]) > Area(chs[best.value])) then Some(n) else best
  }

  // The chosen channel is the first of the largest usable ones; there is none iff none is usable.
  lemma {:induction false} BestIsFirstLargest(chs: seq<Channel>)
    ensures Best(chs).None? <==> forall j | 0 <= j < |chs| :: !chs[j].enabled || chs[j].alias == ""
    ensures Best(chs).Some? ==> IsBest(chs, Best(chs).value)
  {
    if chs == [] {
    } else {
      var n := |chs| - 1;
      var init := chs[..n];
      BestIsFirstLargest(init);
      forall j | 0 <= j < n
        ensures chs[j] == init[j]
      {
      }
    }
  }

  // Camera.BestRTSPChannel: the pointer into Channels is the index.
  method BestRTSPChannel(cam: ProtectCamera) returns (best: Option<nat>)
    ensures best == Best(cam.channels)
  {
    best := None;
    for i := 0 to |cam.channels|
      invariant best == Best(cam.channels[..i])
    {
      var ch := cam.channels[i];
      assert cam.channels[..i + 1][..i] == cam.channels[..i];
      if !ch.enabled || ch.alias == "" {
        continue;
      }
      if best.None? || ch.width * ch.height > cam.channels[best.value].width * cam.channels[best.value].height {
        best := Some(i);
      }
    }
    assert cam.channels[..|cam.channels|] == cam.channels;
  }

  // The controller address without its port.
  function HostPart(host: string): (h: string)
    ensures WithoutPort(host, h)
  {
    if host == "" || host[0] == ':' then "" else [host[0]] + HostPart(host[1..])
  }

  // Up to the first colon, or all of it when there is none.
  predicate WithoutPort(host: string, h: string) {
    ':' !in h && (h == host || h + ":" <= host)
  }

  function StreamURL(host: string, ch: Channel): Result<string, string> {
    if !Usable(ch) then Err("rtsp disabled on channel")
    else Ok("rtsps://" + HostPart(host) + ":7441/" + ch.alias)
  }

  // The stream address a camera should have: that of its best channel.
  function TargetURL(host: string, cam: ProtectCamera): Option<string> {
    match Best(cam.channels)
    case None => None
    case Some(i) =>
      match StreamURL(host, cam.channels[i])
      case Ok(url) => Some(url)
      case Err(_) => None
  }

  // StreamURL cannot fail on the channel BestRTSPChannel returns.
  lemma BestChannelHasURL(host: string, cam: ProtectCamera)
    ensures TargetURL(host, cam).Some?
      <==> exists j | 0 <= j < |cam.channels| :: cam.channels[j].enabled && cam.channels[j].alias != ""
    ensures TargetURL(host, cam).Some? ==> IsAddress(host, cam, TargetURL(host, cam).value)
  {
    BestIsFirstLargest(cam.channels);
    if TargetURL(host, cam).Some? {
      assert AddressBy(host, HostPart(host), cam, Best(cam.channels).value, TargetURL(host, cam).value);
    }
  }

  // The address of the camera's best channel at the controller's host.
  ghost predicate IsAddress(host: string, cam: ProtectCamera, url: string) {
    exists h: string, i: nat :: AddressBy(host, h, cam, i, url)
  }

  ghost predicate AddressBy(host: string, h: string, cam: ProtectCamera, i: nat, url: string) {
    IsBest(cam.channels, i) && WithoutPort(host, h) && url == "rtsps://" + h + ":7441/" + cam.channels[i].alias
  }

  // There is only one such address.
  lemma AddressIsUnique(host: string, cam: ProtectCamera, url: string, url': string)
    requires IsAddress(host, cam, url) && IsAddress(host, cam, url')
    ensures url == url'
  {
    var h: string, i: nat :| AddressBy(host, h, cam, i, url);
    var h': string, i': nat :| AddressBy(host, h', cam, i', url');
    OnePortless(host, h, h');
    OnePortless(host, h', h);
    assert h == host[..|h|] == host[..|h'|] == h';
  }

  lemma OnePortless(host: string, h: string, h': string)
    requires WithoutPort(host, h) && WithoutPort(host, h')
    ensures h <= host && |h'| <= |h|
  {
    assert h != host ==> host[|h|] == (h + ":")[|h|];
    assert forall j | 0 <= j < |h'| :: host[j] == h'[j] != ':';
  }
}
