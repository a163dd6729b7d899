/** The per-camera muxer caches of the HLS and MP4 servers
    (internal/hls/server.go, internal/mp4/muxer.go). Both servers run the same
    code over their own muxers. The lookup they are given, CameraSource.RTSPURLOf,
    enters as the map of what it answers at the moment of the call. */
module MuxerCache {
  import opened Cameras

  // What the lookup says about a camera that may be served.
  datatype Entry = Entry(url: string, verifyTLS: bool)

  type Lookup = map<Id, Entry>

  class Muxer {
    const streamID: Id
    const entry: Entry
    var started: bool

    constructor (streamID: Id, entry: Entry)
      ensures this.streamID == streamID && this.entry == entry && !started
    {
      this.streamID, this.entry, started := streamID, entry, false;
    }

    // Stops the upstream session; safe to call repeatedly.
    method Close()
      modifies this
      ensures !started
    {
      if started {
        started := false;
      }
    }
  }

  predicate Matches(m: Muxer, id: Id, live: Lookup) {
    id in live && m.entry == live[id]
  }

  // The cached muxers that match the lookup.
  function Survivors(muxers: map<Id, Muxer>, live: Lookup): map<Id, Muxer> {
    map id | id in muxers && Matches(muxers[id], id, live) :: muxers[id]
  }

  // Those whose address and TLS setting are the ones the lookup gives.
  lemma SurvivorsExactly(muxers: map<Id, Muxer>, live: Lookup, id: Id)
    ensures id in Survivors(muxers, live)
      <==> (id in muxers && id in live
            && muxers[id].entry.url == live[id].url && muxers[id].entry.verifyTLS == live[id].verifyTLS)
    ensures id in Survivors(muxers, live) ==> Survivors(muxers, live)[id] == muxers[id]
  {
  }

  // Of the muxers running before, exactly those that left the cache have stopped.
  ghost predicate EvictedClosed(
    muxers: map<Id, Muxer>, running: set<Muxer>, muxers': map<Id, Muxer>, running': set<Muxer>) {
    running' == running - (muxers.Values - muxers'.Values)
  }

  class Server {
    var muxers: map<Id, Muxer>
    var closing: bool
    ghost var made: set<Muxer> // every muxer this server ever created

    ghost predicate Valid()
      reads this
    {
      && muxers.Values <= made
      && forall id | id in muxers :: muxers[id].streamID == id
    }

    // Every cached muxer serves what the lookup answers now.
    ghost predicate Coherent(live: Lookup)
      reads this
    {
      forall id | id in muxers :: Matches(muxers[id], id, live)
    }

    ghost function Running(): set<Muxer>
      reads this, made
    {
      set m | m in made && m.started
    }

    constructor ()
      ensures Valid() && muxers == map[] && made == {} && !closing
    {
      muxers, closing, made := map[], false, {};
    }

    method MuxerFor(id: Id, live: Lookup) returns (m: Muxer?)
      requires Valid()
      modifies this, made
      ensures Valid() && made >= old(made) && fresh(made - old(made)) && closing == old(closing)
      ensures m == null <==> id !in live
      ensures m != null ==> id in muxers && muxers[id] == m && m.streamID == id && m.entry == live[id]
      ensures m != null ==> muxers.Keys == old(muxers.Keys) + {id}
      ensures m == null ==> muxers == old(muxers) - {id}
      ensures m != null && id in old(muxers) ==> (m == old(muxers)[id] <==> old(muxers)[id].entry == live[id])
      ensures m != null ==> m in old(muxers.Values) || fresh(m)
      ensures muxers - {id} == old(muxers) - {id}
      ensures EvictedClosed(old(muxers), old(Running()), muxers, Running())
      ensures old(Coherent(live)) ==> Coherent(live)
    {
      m := null;
      if id in muxers {
        m := muxers[id];
        if !Matches(m, id, live) {
          m.Close();
          muxers := muxers - {id};
          m := null;
        }
      }
      assert forall x | x in muxers :: x in old(muxers) && muxers[x] == old(muxers)[x];
      assert forall x | x in old(muxers) && x != id :: x in muxers && old(muxers)[x] == muxers[x];
      if id !in live {
        return null;
      }
      if m != null {
        return;
      }
      m := new Muxer(id, live[id]);
      muxers := muxers[id := m];
      made := made + {m};
    }

    method Prune(live: Lookup)
      requires Valid()
      modifies this, made
      ensures Valid() && closing == old(closing)
      ensures made == old(made) && muxers == Survivors(old(muxers), live) && Coherent(live)
      ensures EvictedClosed(old(muxers), old(Running()), muxers, Running())
    {
      ghost var m0 := muxers;
      var todo := muxers.Keys;
      while todo != {}
        invariant todo <= muxers.Keys <= m0.Keys && closing == old(closing)
        invariant made == old(made)
        invariant forall id | id in muxers :: muxers[id] == m0[id] && (id in todo || Matches(m0[id], id, live))
        invariant forall id | id in m0 && id !in muxers :: !Matches(m0[id], id, live) && !m0[id].started
        invariant forall m | m in old(made) && !(m in m0.Values && m !in muxers.Values) :: m.started == old(m.started)
      {
        var id :| id in todo;
        todo := todo - {id};
        var m := muxers[id];
        if id !in live || m.entry != live[id] {
          m.Close();
          muxers := muxers - {id};
        }
      }
    }

    method Shutdown()
      requires Valid()
      modifies this, made
      ensures Valid() && made == old(made) && closing
      ensures muxers == map[] && EvictedClosed(old(muxers), old(Running()), muxers, Running())
    {
      closing := true;
      var todo := muxers.Keys;
      while todo != {}
        invariant todo <= muxers.Keys && muxers == old(muxers) && made == old(made) && closing
        invariant forall id | id in muxers && id !in todo :: !muxers[id].started
        invariant forall m | m in made && m !in muxers.Values :: m.started == old(m.started)
      {
        var id :| id in todo;
        todo := todo - {id};
        muxers[id].Close();
      }
      muxers := map[];
    }
  }
}
