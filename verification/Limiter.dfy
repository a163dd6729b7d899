/** The consent-password rate limit (internal/oauth/server.go). Times are nanoseconds. The class
    keeps the source's pruned map; its ghost history is every failure since the process started. */
module Limiter {
  const WINDOW: int := 15 * 60 * 1_000_000_000
  const MAX_PER_IP := 5
  const MAX_GLOBAL := 20

  datatype Failure = Failure(ip: string, at: int)

  predicate InForce(at: int, now: int) {
    now - at < WINDOW
  }

  // The entries still in force, in order.
  function Keep(times: seq<int>, now: int): seq<int> {
    if times == [] then []
    else
      var n := |times| - 1;
      Keep(times[..n], now) + (if InForce(times[n], now) then [times[n]] else [])
  }

  function TimesOf(h: seq<Failure>, ip: string): seq<int> {
    if h == [] then []
    else
      var n := |h| - 1;
      TimesOf(h[..n], ip) + (if h[n].ip == ip then [h[n].at] else [])
  }

  // Failures in force of the given addresses.
  function Count(h: seq<Failure>, ips: set<string>, now: int): nat {
    if h == [] then 0
    else
      var n := |h| - 1;
      Count(h[..n], ips, now) + (if h[n].ip in ips && InForce(h[n].at, now) then 1 else 0)
  }

  function CountAll(h: seq<Failure>, now: int): nat {
    if h == [] then 0
    else
      var n := |h| - 1;
      CountAll(h[..n], now) + (if InForce(h[n].at, now) then 1 else 0)
  }

  // The rule, on the full history.
  predicate Blocked(h: seq<Failure>, ip: string, now: int) {
    Count(h, {ip}, now) >= MAX_PER_IP || CountAll(h, now) >= MAX_GLOBAL
  }

  // The failures less than 15 minutes old, by their place in the history: all, and those of one address.
  function Recent(h: seq<Failure>, now: int): set<nat> {
    set i: nat | i < |h| && now - h[i].at < 15 * 60 * 1_000_000_000
  }

  function RecentOf(h: seq<Failure>, ip: string, now: int): set<nat> {
    set i: nat | i < |h| && h[i].ip == ip && now - h[i].at < 15 * 60 * 1_000_000_000
  }

  lemma OneMoreIndex(before: set<nat>, after: set<nat>, n: nat)
    requires n !in before && (after == before || after == before + {n})
    ensures |after| == |before| + if n in after then 1 else 0
  {
  }

  lemma {:induction false} CountAllIsRecent(h: seq<Failure>, now: int)
    ensures CountAll(h, now) == |Recent(h, now)|
  {
    if h == [] {
    } else {
      var n := |h| - 1;
      CountAllIsRecent(h[..n], now);
      assert Recent(h, now) == Recent(h[..n], now) + if n in Recent(h, now) then {n} else {};
      OneMoreIndex(Recent(h[..n], now), Recent(h, now), n);
    }
  }

  lemma {:induction false} CountIsRecentOf(h: seq<Failure>, ip: string, now: int)
    ensures Count(h, {ip}, now) == |RecentOf(h, ip, now)|
  {
    if h == [] {
    } else {
      var n := |h| - 1;
      CountIsRecentOf(h[..n], ip, now);
      assert RecentOf(h, ip, now) == RecentOf(h[..n], ip, now) + if n in RecentOf(h, ip, now) then {n} else {};
      OneMoreIndex(RecentOf(h[..n], ip, now), RecentOf(h, ip, now), n);
    }
  }

  // An attempt is blocked by 5 recent failures of its address or 20 of all.
  lemma BlockedExactly(h: seq<Failure>, ip: string, now: int)
    ensures Blocked(h, ip, now) <==> |RecentOf(h, ip, now)| >= 5 || |Recent(h, now)| >= 20
  {
    CountIsRecentOf(h, ip, now);
    CountAllIsRecent(h, now);
  }

  // So the limit is lifted 15 minutes after the last failure.
  lemma LiftedAfterWindow(h: seq<Failure>, ip: string, now: int)
    requires forall i | 0 <= i < |h| :: now >= h[i].at + 15 * 60 * 1_000_000_000
    ensures !Blocked(h, ip, now)
  {
    BlockedExactly(h, ip, now);
    assert Recent(h, now) == {} && RecentOf(h, ip, now) == {};
  }

  lemma {:induction false} KeepTwice(times: seq<int>, before: int, now: int)
    requires before <= now
    ensures Keep(Keep(times, before), now) == Keep(times, now)
  {
    if times == [] {
    } else {
      var n := |times| - 1;
      KeepTwice(times[..n], before, now);
      var kept := Keep(times[..n], before);
      if InForce(times[n], before) {
        assert (kept + [times[n]])[..|kept|] == kept;
      } else {
        assert Keep(times, before) == kept;
      }
    }
  }

  lemma {:induction false} CountIsKept(h: seq<Failure>, ip: string, now: int)
    ensures Count(h, {ip}, now) == |Keep(TimesOf(h, ip), now)|
  {
    if h == [] {
    } else {
      var n := |h| - 1;
      CountIsKept(h[..n], ip, now);
      var times := TimesOf(h[..n], ip);
      if h[n].ip == ip {
        assert (times + [h[n].at])[..|times|] == times;
      } else {
        assert TimesOf(h, ip) == times;
      }
    }
  }

  lemma {:induction false} CountAdds(h: seq<Failure>, ips: set<string>, ip: string, now: int)
    requires ip !in ips
    ensures Count(h, ips + {ip}, now) == Count(h, ips, now) + Count(h, {ip}, now)
  {
    if h == [] {
    } else {
      CountAdds(h[..|h| - 1], ips, ip, now);
    }
  }

  lemma {:induction false} CountNone(h: seq<Failure>, now: int)
    ensures Count(h, {}, now) == 0
  {
    if h == [] {
    } else {
      CountNone(h[..|h| - 1], now);
    }
  }

  // Addresses that have nothing in force do not contribute to the total.
  lemma {:induction false} CountCovers(h: seq<Failure>, ips: set<string>, now: int)
    requires forall i | 0 <= i < |h| && InForce(h[i].at, now) :: h[i].ip in ips
    ensures Count(h, ips, now) == CountAll(h, now)
  {
    if h == [] {
    } else {
      CountCovers(h[..|h| - 1], ips, now);
    }
  }

  lemma {:induction false} CountZero(h: seq<Failure>, ip: string, now: int)
    requires Count(h, {ip}, now) == 0
    ensures forall i | 0 <= i < |h| && h[i].ip == ip :: !InForce(h[i].at, now)
  {
    if h == [] {
    } else {
      var n := |h| - 1;
      CountZero(h[..n], ip, now);
      forall i | 0 <= i < |h| && h[i].ip == ip
        ensures !InForce(h[i].at, now)
      {
        if i < n {
          assert h[..n][i] == h[i];
        }
      }
    }
  }

  // ----- the sliding window -----

  // Each failure was recorded after a check that let it through, at most c others being recorded in between.
  ghost predicate Admitted(h: seq<Failure>, c: nat) {
    forall i | 0 <= i < |h| :: AdmittedAt(h, i, c)
  }

  ghost predicate AdmittedAt(h: seq<Failure>, i: nat, c: nat)
    requires i < |h|
  {
    exists n, check :: PassedAt(h, i, c, n, check)
  }

  // The check saw the first n failures.
  predicate PassedAt(h: seq<Failure>, i: nat, c: nat, n: int, check: int)
    requires i < |h|
  {
    0 <= n <= i <= n + c && check <= h[i].at && !Blocked(h[..n], h[i].ip, check)
  }

  // Recorded failures of one address, and of all, in the 15 minutes from start.
  function InWindow(h: seq<Failure>, ip: string, start: int): nat {
    if h == [] then 0
    else
      var n := |h| - 1;
      InWindow(h[..n], ip, start) + (if h[n].ip == ip && start <= h[n].at < start + WINDOW then 1 else 0)
  }

  function AllInWindow(h: seq<Failure>, start: int): nat {
    if h == [] then 0
    else
      var n := |h| - 1;
      AllInWindow(h[..n], start) + (if start <= h[n].at < start + WINDOW then 1 else 0)
  }

  lemma {:induction false} WindowWithinForce(h: seq<Failure>, ip: string, start: int, now: int)
    requires now < start + WINDOW
    ensures InWindow(h, ip, start) <= Count(h, {ip}, now)
    ensures AllInWindow(h, start) <= CountAll(h, now)
  {
    if h == [] {
    } else {
      WindowWithinForce(h[..|h| - 1], ip, start, now);
    }
  }

  lemma {:induction false} WindowGrows(h: seq<Failure>, n: nat, ip: string, start: int)
    requires n <= |h|
    ensures InWindow(h, ip, start) <= InWindow(h[..n], ip, start) + |h| - n
    ensures AllInWindow(h, start) <= AllInWindow(h[..n], start) + |h| - n
    decreases |h|
  {
    if n == |h| {
      assert h[..n] == h;
    } else {
      var init := h[..|h| - 1];
      WindowGrows(init, n, ip, start);
      assert init[..n] == h[..n];
    }
  }

  lemma AdmittedPrefix(h: seq<Failure>, c: nat)
    requires Admitted(h, c) && h != []
    ensures Admitted(h[..|h| - 1], c)
  {
    var init := h[..|h| - 1];
    forall i | 0 <= i < |init|
      ensures AdmittedAt(init, i, c)
    {
      assert AdmittedAt(h, i, c);
      var n, check :| PassedAt(h, i, c, n, check);
      assert init[..n] == h[..n];
      assert PassedAt(init, i, c, n, check);
    }
  }

  // However a run goes, no 15-minute window holds more than 5 recorded failures of one address or 20 in all,
  // and one more for each attempt that may run beside another.
  lemma {:induction false} WindowIsBounded(h: seq<Failure>, c: nat, ip: string, start: int)
    requires Admitted(h, c)
    ensures InWindow(h, ip, start) <= MAX_PER_IP + c && AllInWindow(h, start) <= MAX_GLOBAL + c
  {
    if h != [] {
      var last := |h| - 1;
      AdmittedPrefix(h, c);
      WindowIsBounded(h[..last], c, ip, start);
      if h[last].at < start + WINDOW {
        assert AdmittedAt(h, last, c);
        var n, check :| PassedAt(h, last, c, n, check);
        WindowWithinForce(h[..n], h[last].ip, start, check);
        WindowGrows(h, n, h[last].ip, start);
      }
    }
  }

  // That many can come together: with c beside it, one address gets 5 + c in at once.
  function Burst(ip: string, at: int, n: nat): (h: seq<Failure>)
    ensures |h| == n
  {
    seq(n, _ => Failure(ip, at))
  }

  lemma {:induction false} BurstCounts(ip: string, at: int, n: nat)
    ensures Count(Burst(ip, at, n), {ip}, at) == n && CountAll(Burst(ip, at, n), at) == n
    ensures InWindow(Burst(ip, at, n), ip, at) == n
  {
    if n > 0 {
      BurstCounts(ip, at, n - 1);
      assert Burst(ip, at, n)[..n - 1] == Burst(ip, at, n - 1);
    }
  }

  lemma BoundIsReached(ip: string, at: int, c: nat)
    ensures var h := Burst(ip, at, MAX_PER_IP + c); Admitted(h, c) && InWindow(h, ip, at) == MAX_PER_IP + c
  {
    var h := Burst(ip, at, MAX_PER_IP + c);
    BurstCounts(ip, at, MAX_PER_IP + c);
    forall i | 0 <= i < |h|
      ensures AdmittedAt(h, i, c)
    {
      var n := if i < MAX_PER_IP then i else MAX_PER_IP - 1;
      BurstCounts(ip, at, n);
      assert h[..n] == Burst(ip, at, n);
      assert PassedAt(h, i, c, n, at);
    }
  }

  lemma AdmitOne(h: seq<Failure>, c: nat, f: Failure, n: int, check: int)
    requires Admitted(h, c) && PassedAt(h + [f], |h|, c, n, check)
    ensures Admitted(h + [f], c)
  {
    var g := h + [f];
    forall i | 0 <= i < |g|
      ensures AdmittedAt(g, i, c)
    {
      if i < |h| {
        assert AdmittedAt(h, i, c);
        var n, check :| PassedAt(h, i, c, n, check);
        assert g[..n] == h[..n];
        assert PassedAt(g, i, c, n, check);
      }
    }
  }

  // ----- the map the server keeps -----

  function Recorded(fails: map<string, seq<int>>, ip: string): seq<int> {
    if ip in fails then fails[ip] else []
  }

  // From a time on, the map and the full history agree on what is in force.
  ghost predicate Tracks(fails: map<string, seq<int>>, h: seq<Failure>, clock: int) {
    forall ip :: Keep(Recorded(fails, ip), clock) == Keep(TimesOf(h, ip), clock)
  }

  // So they do at any later time.
  lemma Agree(fails: map<string, seq<int>>, h: seq<Failure>, clock: int, ip: string, now: int)
    requires Tracks(fails, h, clock) && clock <= now
    ensures Keep(Recorded(fails, ip), now) == Keep(TimesOf(h, ip), now)
    ensures |Keep(Recorded(fails, ip), now)| == Count(h, {ip}, now)
  {
    KeepTwice(Recorded(fails, ip), clock, now);
    KeepTwice(TimesOf(h, ip), clock, now);
    CountIsKept(h, ip, now);
  }

  // The map with some keys pruned.
  ghost predicate Pruned(fails: map<string, seq<int>>, before: map<string, seq<int>>, done: set<string>, now: int) {
    && fails.Keys <= before.Keys
    && (forall k | k in before && k !in done :: k in fails && fails[k] == before[k])
    && (forall k | k in done && k in fails :: fails[k] == Keep(Recorded(before, k), now) && fails[k] != [])
    && (forall k | k in done && k !in fails :: Keep(Recorded(before, k), now) == [])
  }

  // Pruning every key keeps the map in agreement, and the lengths kept add up to the total in force.
  lemma PrunedTracks(fails: map<string, seq<int>>, before: map<string, seq<int>>, h: seq<Failure>, clock: int, now: int)
    requires Tracks(before, h, clock) && clock <= now && Pruned(fails, before, before.Keys, now)
    ensures Tracks(fails, h, now)
    ensures Count(h, before.Keys, now) == CountAll(h, now)
    ensures forall ip :: |Recorded(fails, ip)| == Count(h, {ip}, now)
    ensures forall ip | ip in fails :: fails[ip] != [] && fails[ip] == Keep(TimesOf(h, ip), now)
  {
    forall ip
      ensures Keep(Recorded(fails, ip), now) == Keep(TimesOf(h, ip), now)
      ensures |Recorded(fails, ip)| == Count(h, {ip}, now)
      ensures ip in fails ==> fails[ip] != [] && fails[ip] == Keep(TimesOf(h, ip), now)
    {
      Agree(before, h, clock, ip, now);
      KeepTwice(Recorded(before, ip), now, now);
      assert Recorded(fails, ip) == Keep(Recorded(before, ip), now);
    }
    forall i | 0 <= i < |h| && InForce(h[i].at, now)
      ensures h[i].ip in before
    {
      if h[i].ip !in before {
        Agree(before, h, clock, h[i].ip, now);
        CountZero(h, h[i].ip, now);
      }
    }
    CountCovers(h, before.Keys, now);
  }

  // One key more.
  lemma PruneOne(
    fails: map<string, seq<int>>, before: map<string, seq<int>>, done: set<string>, k: string, now: int)
    requires Pruned(fails, before, done, now) && k in before && k !in done
    ensures k in fails && fails[k] == before[k]
    ensures Keep(before[k], now) == [] ==> Pruned(fails - {k}, before, done + {k}, now)
    ensures Keep(before[k], now) != [] ==> Pruned(fails[k := Keep(before[k], now)], before, done + {k}, now)
  {
  }

  lemma CountOne(
    before: map<string, seq<int>>, h: seq<Failure>, clock: int, done: set<string>, k: string, now: int)
    requires Tracks(before, h, clock) && clock <= now && k in before && k !in done
    ensures Count(h, done + {k}, now) == Count(h, done, now) + |Keep(before[k], now)|
  {
    Agree(before, h, clock, k, now);
    CountAdds(h, done, k, now);
  }

  class Limiter {
    ghost const others: nat // how many attempts may be recorded between a check and its own failure
    var fails: map<string, seq<int>>
    ghost var history: seq<Failure>
    ghost var clock: int // the last time read

    ghost predicate Valid()
      reads this
    {
      && Tracks(fails, history, clock)
      && (forall i | 0 <= i < |history| :: history[i].at <= clock)
      && Admitted(history, others)
    }

    constructor (now: int, ghost others: nat)
      ensures Valid() && history == [] && clock == now && fails == map[] && this.others == others
    {
      this.others, fails, history, clock := others, map[], [], now;
    }

    // A new process remembers no failures.
    method Reset(now: int)
      modifies this
      ensures Valid() && history == [] && clock == now && fails == map[]
    {
      fails, history, clock := map[], [], now;
    }

    // tooManyFailures: prunes, and answers as the rule does on the full history.
    method TooManyFailures(ip: string, now: int) returns (blocked: bool)
      requires Valid() && clock <= now
      modifies this`fails, this`clock
      ensures Valid() && history == old(history) && clock == now
      ensures blocked == Blocked(history, ip, now)
      ensures blocked <==> |RecentOf(history, ip, now)| >= 5 || |Recent(history, now)| >= 20
      ensures forall k | k in fails :: fails[k] != [] && fails[k] == Keep(TimesOf(history, k), now)
    {
      var total := 0;
      var todo := fails.Keys;
      ghost var before, done, h := fails, {}, history;
      CountNone(h, now);
      while todo != {}
        invariant todo == before.Keys - done && done <= before.Keys
        invariant clock == old(clock) && Pruned(fails, before, done, now) && total == Count(h, done, now)
      {
        var k :| k in todo;
        todo := todo - {k};
        PruneOne(fails, before, done, k, now);
        CountOne(before, h, clock, done, k, now);
        var kept := Filter(fails[k], now);
        done := done + {k};
        if |kept| == 0 {
          fails := fails - {k};
        } else {
          fails := fails[k := kept];
          total := total + |kept|;
        }
      }
      assert done == before.Keys;
      PrunedTracks(fails, before, h, clock, now);
      BlockedExactly(h, ip, now);
      clock := now;
      blocked := |Recorded(fails, ip)| >= MAX_PER_IP || total >= MAX_GLOBAL;
    }

    // recordFailure, after a check at time check, of the first n failures, let the attempt through.
    method RecordFailure(ip: string, now: int, ghost n: nat, ghost check: int)
      requires Valid() && clock <= now && n <= |history| <= n + others
      requires check <= now && !Blocked(history[..n], ip, check)
      modifies this
      ensures Valid() && history == old(history) + [Failure(ip, now)] && clock == now
    {
      ghost var f := Failure(ip, now);
      assert (history + [f])[..n] == history[..n];
      AdmitOne(history, others, f, n, check);
      RecordTracks(fails, history, clock, ip, now);
      fails := fails[ip := Recorded(fails, ip) + [now]];
      history := history + [f];
      clock := now;
    }
  }

  lemma RecordTracks(fails: map<string, seq<int>>, h: seq<Failure>, clock: int, ip: string, now: int)
    requires Tracks(fails, h, clock) && clock <= now
    ensures Tracks(fails[ip := Recorded(fails, ip) + [now]], h + [Failure(ip, now)], now)
  {
    var fails' := fails[ip := Recorded(fails, ip) + [now]];
    var h' := h + [Failure(ip, now)];
    assert h'[..|h|] == h;
    forall k
      ensures Keep(Recorded(fails', k), now) == Keep(TimesOf(h', k), now)
    {
      Agree(fails, h, clock, k, now);
      if k == ip {
        KeepLast(Recorded(fails, k), now);
        KeepLast(TimesOf(h, k), now);
      } else {
        assert TimesOf(h', k) == TimesOf(h, k);
      }
    }
  }

  lemma KeepLast(times: seq<int>, now: int)
    ensures Keep(times + [now], now) == Keep(times, now) + [now]
  {
    assert (times + [now])[..|times|] == times;
  }

  method Filter(times: seq<int>, now: int) returns (kept: seq<int>)
    ensures kept == Keep(times, now)
  {
    kept := [];
    for i := 0 to |times|
      invariant kept == Keep(times[..i], now)
    {
      assert times[..i + 1][..i] == times[..i];
      if now - times[i] < WINDOW {
        kept := kept + [times[i]];
      }
    }
    assert times[..|times|] == times;
  }
}
