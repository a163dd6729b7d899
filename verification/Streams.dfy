/** Reference-counted streams and the WebRTC sessions that hold them
    (internal/streams/registry.go, internal/webrtc/peer.go). What the upstream
    and the peer connection answer enters as parameters. */
module Streams {
  import opened Wrappers
  import opened Cameras

  type Track = nat

  // ----- the reference count as a function on values -----

  // What Producer.Start does: an error, or the tracks it yields (possibly none).
  datatype StartOutcome = Fails | Yields(tracks: seq<Track>)

  // refs and started as in Stream; starts and stops count the producer's successful Starts and its Stops.
  datatype Counts = Counts(refs: int, started: bool, tracks: seq<Track>, starts: nat, stops: nat)

  const IDLE := Counts(0, false, [], 0, 0)

  function AcquireStep(c: Counts, o: StartOutcome): (Counts, bool) {
    if c.started then (c.(refs := c.refs + 1), true)
    else match o
      case Fails => (c, false)
      case Yields(ts) =>
        if ts == [] then (c.(starts := c.starts + 1, stops := c.stops + 1), false)
        else (Counts(c.refs + 1, true, ts, c.starts + 1, c.stops), true)
  }

  function ReleaseStep(c: Counts): Counts {
    var d := c.(refs := c.refs - 1);
    if d.refs > 0 || !d.started then d
    else Counts(d.refs, false, [], d.starts, d.stops + 1)
  }

  datatype Op = Acquire(outcome: StartOutcome) | Release

  // held counts the successful Acquires whose release has not been called yet.
  datatype Usage = Usage(counts: Counts, held: nat)

  // The caller's duty: release exactly once per successful Acquire.
  predicate Allowed(u: Usage, op: Op) {
    op.Release? ==> u.held > 0
  }

  function Do(u: Usage, op: Op): Usage
    requires Allowed(u, op)
  {
    match op
    case Acquire(o) =>
      var (c, ok) := AcquireStep(u.counts, o);
      Usage(c, if ok then u.held + 1 else u.held)
    case Release => Usage(ReleaseStep(u.counts), u.held - 1)
  }

  predicate Disciplined(u: Usage, ops: seq<Op>)
    decreases |ops|
  {
    ops == [] || (Allowed(u, ops[0]) && Disciplined(Do(u, ops[0]), ops[1..]))
  }

  function Run(u: Usage, ops: seq<Op>): Usage
    requires Disciplined(u, ops)
    decreases |ops|
  {
    if ops == [] then u else Run(Do(u, ops[0]), ops[1..])
  }

  ghost predicate Balanced(u: Usage) {
    && u.counts.refs == u.held
    && (u.counts.started <==> u.held > 0)
    && (u.counts.started <==> u.counts.tracks != [])
    && u.counts.starts - u.counts.stops == (if u.held > 0 then 1 else 0)
  }

  // Over any disciplined run: one reference per holder, the producer runs iff someone
  // holds the stream, and it has been stopped as often as started, give or take the current run.
  lemma {:induction false} RunStaysBalanced(u: Usage, ops: seq<Op>)
    requires Balanced(u) && Disciplined(u, ops)
    ensures Balanced(Run(u, ops))
    decreases |ops|
  {
    if ops == [] {
    } else {
      RunStaysBalanced(Do(u, ops[0]), ops[1..]);
    }
  }

  // ----- the objects -----

  class Producer {
    const id: Id
    const url: string
    const verifyTLS: bool
    var running: bool
    ghost var starts: nat
    ghost var stops: nat

    constructor (id: Id, url: string, verifyTLS: bool)
      ensures this.id == id && this.url == url && this.verifyTLS == verifyTLS
      ensures !running && starts == 0 && stops == 0
    {
      this.id, this.url, this.verifyTLS := id, url, verifyTLS;
      running, starts, stops := false, 0, 0;
    }

    // Must not be called on a running producer; every caller proves that it does not.
    method Start(o: StartOutcome) returns (r: Result<seq<Track>, string>)
      requires !running
      modifies this
      ensures o.Fails? ==> r.Err? && running == old(running) && starts == old(starts) && stops == old(stops)
      ensures o.Yields? ==> r == Ok(o.tracks) && running && starts == old(starts) + 1 && stops == old(stops)
    {
      match o {
        case Fails => r := Err("start");
        case Yields(ts) =>
          running, starts := true, starts + 1;
          r := Ok(ts);
      }
    }

    method Stop()
      requires running
      modifies this
      ensures !running && starts == old(starts) && stops == old(stops) + 1
    {
      running, stops := false, stops + 1;
    }
  }

  class Stream {
    const name: Id
    const producer: Producer
    var tracks: seq<Track>
    var refs: int
    var started: bool
    ghost var holders: set<object> // who has acquired and not yet released

    ghost function State(): Usage
      reads this, producer
    {
      Usage(Counts(refs, started, tracks, producer.starts, producer.stops), |holders|)
    }

    ghost predicate Valid()
      reads this, producer
    {
      Balanced(State()) && (producer.running <==> started)
    }

    constructor (name: Id, producer: Producer)
      requires !producer.running && producer.starts == producer.stops
      ensures Valid() && this.name == name && this.producer == producer && holders == {} && !started
    {
      this.name, this.producer := name, producer;
      tracks, refs, started, holders := [], 0, false, {};
    }

    method Acquire(o: StartOutcome, ghost holder: object) returns (r: Result<seq<Track>, string>)
      requires Valid() && holder !in holders
      modifies this, producer
      ensures Valid()
      ensures State() == Do(old(State()), Op.Acquire(o))
      ensures r.Ok? ==> r.value == tracks && tracks != [] && holders == old(holders) + {holder}
      ensures r.Ok? ==> tracks == (if old(started) then old(tracks) else o.tracks) && refs == old(refs) + 1
      ensures r.Err? ==> holders == old(holders) && refs == old(refs)
      ensures r.Err? ==> started == old(started) && tracks == old(tracks)
      ensures r.Ok? <==> old(started) || (o.Yields? && o.tracks != [])
    {
      if !started {
        var t := producer.Start(o);
        if t.Err? {
          return Err("producer start");
        }
        if |t.value| == 0 {
          producer.Stop();
          return Err("producer yielded no tracks");
        }
        tracks, started := t.value, true;
      }
      refs := refs + 1;
      holders := holders + {holder};
      return Ok(tracks);
    }

    method Release(ghost holder: object)
      requires Valid() && holder in holders
      modifies this, producer
      ensures Valid() && holders == old(holders) - {holder}
      ensures State() == Do(old(State()), Op.Release)
    {
      refs := refs - 1;
      holders := holders - {holder};
      if refs > 0 || !started {
        return;
      }
      producer.Stop();
      started, tracks := false, [];
    }
  }

  class Registry {
    var streams: map<Id, Stream>

    constructor ()
      ensures streams == map[]
    {
      streams := map[];
    }

    // Replaces the entry only: the stream that was there, and its references, are not touched.
    method Put(s: Stream)
      modifies this
      ensures streams == old(streams)[s.name := s]
    {
      streams := streams[s.name := s];
    }

    method Delete(name: Id)
      modifies this
      ensures streams == old(streams) - {name}
    {
      streams := streams - {name};
    }

    function Names(): set<Id>
      reads this
    {
      streams.Keys
    }
  }

  // What the peer connection does during one negotiation, in the order of the source's exits.
  // failTrack is the number of tracks that attach before one is refused; dropped: the connection fails or
  // is closed before the negotiation returns, and the state-change callback closes the session.
  datatype Peer = Peer(newFails: bool, failTrack: Option<nat>, remoteFails: bool, answerFails: bool,
                       localFails: bool, cancelled: bool, noDescription: bool, dropped: bool)

  class Session {
    const stream: Stream
    var closed: bool

    // An open session holds its stream, a closed one does not.
    ghost predicate Valid()
      reads this, stream, stream.producer
    {
      stream.Valid() && (!closed <==> this in stream.holders)
    }

    constructor Unattached(stream: Stream)
      ensures this.stream == stream && closed
    {
      this.stream, closed := stream, true;
    }

    // Runs from the state-change callback, from the failing exits below and from callers, any number of times.
    method Close()
      requires Valid()
      modifies this, stream, stream.producer
      ensures Valid() && closed
      ensures stream.holders == old(stream.holders) - {this}
      ensures old(closed) ==> stream.State() == old(stream.State())
      ensures !old(closed) ==> stream.State() == Do(old(stream.State()), Op.Release)
    {
      if closed {
        return;
      }
      closed := true;
      stream.Release(this);
    }
  }

  // Factory.Negotiate. A session comes back open and holding the stream, or already closed by a connection
  // that dropped; otherwise nothing is held that was not held before.
  method Negotiate(s: Stream, offerSDP: string, o: StartOutcome, peer: Peer) returns (sess: Session?)
    requires s.Valid()
    modifies s, s.producer
    ensures s.Valid()
    ensures sess != null ==> fresh(sess) && sess.stream == s && sess.Valid() && sess.closed == peer.dropped
    ensures sess != null && !peer.dropped ==> s.holders == old(s.holders) + {sess}
    ensures sess != null && peer.dropped ==> s.holders == old(s.holders)
    ensures sess == null ==> s.holders == old(s.holders) && s.refs == old(s.refs) && s.started == old(s.started)
    ensures sess == null ==> s.producer.starts - old(s.producer.starts) == s.producer.stops - old(s.producer.stops)
    ensures sess != null <==>
      && offerSDP != "" && !peer.newFails
      && (old(s.started) || (o.Yields? && o.tracks != []))
      && (peer.failTrack.None? || peer.failTrack.value >= if old(s.started) then old(|s.tracks|) else |o.tracks|)
      && !peer.remoteFails && !peer.answerFails && !peer.localFails && !peer.cancelled && !peer.noDescription
  {
    if offerSDP == "" || peer.newFails {
      return null;
    }
    sess := new Session.Unattached(s);
    assert s.holders == old(s.holders) && sess !in s.holders;
    var r := s.Acquire(o, sess);
    if r.Err? {
      return null;
    }
    assert s.holders - {sess} == old(s.holders);
    for i := 0 to |r.value|
      invariant s.Valid() && s.holders == old(s.holders) + {sess} && r.value == s.tracks
      invariant s.State() == Do(old(s.State()), Op.Acquire(o))
      invariant peer.failTrack.None? || peer.failTrack.value >= i
    {
      if peer.failTrack == Some(i) {
        s.Release(sess);
        return null;
      }
    }
    sess.closed := false;
    var ok := Connect(sess, peer);
    if !ok {
      return null;
    }
  }

  // The rest of the negotiation on an open session. Its exits may find the session closed already.
  method Connect(sess: Session, peer: Peer) returns (ok: bool)
    requires sess.Valid() && !sess.closed
    modifies sess, sess.stream, sess.stream.producer
    ensures sess.Valid() && sess.closed == (!ok || peer.dropped)
    ensures ok <==>
      !peer.remoteFails && !peer.answerFails && !peer.localFails && !peer.cancelled && !peer.noDescription
    ensures sess.stream.holders == if sess.closed then old(sess.stream.holders) - {sess} else old(sess.stream.holders)
    ensures sess.stream.State()
      == if sess.closed then Do(old(sess.stream.State()), Op.Release) else old(sess.stream.State())
  {
    ok := !peer.remoteFails && !peer.answerFails && !peer.localFails && !peer.cancelled && !peer.noDescription;
    if peer.dropped {
      sess.Close();
    }
    if !ok {
      sess.Close();
    }
  }
}
