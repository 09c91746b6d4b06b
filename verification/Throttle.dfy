/** Sign-in throttling: failures per (username, address) and per username in a sliding
window, pruned lazily and swept when the table grows large. Times are seconds. */
module Throttle {
  import opened Basics

  datatype Key = Source(user: string, address: string) | User(user: string)

  type Failures = map<Key, seq<real>>

  const SWEEP_ABOVE := 10_000

  function Times(f: Failures, k: Key): seq<real> {
    if k in f then f[k] else []
  }

  /** Drop from the front what has left the window. */
  function Prune(times: seq<real>, now: real, window: real): seq<real> {
    if times != [] && now - times[0] >= window then Prune(times[1..], now, window) else times
  }

  /** Seconds to wait on one key's account; 0 when it may be tried now. */
  function WaitOf(times: seq<real>, limit: int, now: real, window: real): int
    requires limit >= 1
  {
    var live := Prune(times, now, window);
    if |live| < limit then 0
    else Max(1, (window - (now - live[0])).Floor + 1)
  }

  /** What a look at one key answers. None stands for the IndexError of a limit below 1: nothing
  is left to index once every failure has left the window. */
  function Answer(times: seq<real>, limit: int, now: real, window: real): (wait: Option<int>)
    ensures limit >= 1 ==> wait == Some(WaitOf(times, limit, now, window))
    ensures wait.None? <==> limit < 1 && times != [] && Prune(times, now, window) == []
  {
    var live := Prune(times, now, window);
    if times == [] || |live| < limit then Some(0)
    else if live == [] then None
    else Some(Max(1, (window - (now - live[0])).Floor + 1))
  }

  /** The table after a look at one key: its list is pruned in place. */
  function Looked(f: Failures, k: Key, now: real, window: real): Failures {
    if k in f then f[k := Prune(f[k], now, window)] else f
  }

  predicate Stale(times: seq<real>, now: real, window: real) {
    times == [] || now - times[|times| - 1] >= window
  }

  function Swept(f: Failures, now: real, window: real): Failures {
    map k | k in f && !Stale(f[k], now, window) :: f[k]
  }

  function Recorded(f: Failures, user: string, address: string, now: real, window: real): Failures {
    var g := f[Source(user, address) := Times(f, Source(user, address)) + [now]];
    var h := g[User(user) := Times(g, User(user)) + [now]];
    if |h| > SWEEP_ABOVE then Swept(h, now, window) else h
  }

  function Cleared(f: Failures, user: string, address: string): Failures {
    f - {Source(user, address)}
  }

  datatype Config = Config(perSource: int, perUsername: int, window: real)

  ghost predicate Sane(c: Config) { c.perSource >= 1 && c.perUsername >= 1 }

  function Limit(c: Config, k: Key): int {
    if k.User? then c.perUsername else c.perSource
  }

  /** A call of retry_after, with its two readings of the clock. */
  datatype Look = Look(user: string, address: string, now1: real, now2: real)

  function AnswerFor(c: Config, f: Failures, k: Key, now: real): Option<int> {
    Answer(Times(f, k), Limit(c, k), now, c.window)
  }

  /** What retry_after answers, errors included. */
  function RetryAnswer(c: Config, f: Failures, a: Look): Option<int> {
    var bySource := AnswerFor(c, f, Source(a.user, a.address), a.now1);
    var byUser := AnswerFor(c, f, User(a.user), a.now2);
    if bySource.None? || byUser.None? then None else Some(Max(bySource.value, byUser.value))
  }

  function AfterAsking(c: Config, f: Failures, a: Look): Failures {
    var source := Source(a.user, a.address);
    var f1 := Looked(f, source, a.now1, c.window);
    if AnswerFor(c, f, source, a.now1).None? then f1 else Looked(f1, User(a.user), a.now2, c.window)
  }

  class LoginThrottle {
    const perSource: int
    const perUsername: int
    const window: real
    /** username.strip().lower() */
    const normalise: string -> string
    var failures: Failures

    constructor (perSource: int, perUsername: int, window: real, normalise: string -> string)
      ensures failures == map[] && this.window == window && this.normalise == normalise
      ensures this.perSource == perSource && this.perUsername == perUsername
    {
      this.perSource, this.perUsername, this.window := perSource, perUsername, window;
      this.normalise := normalise;
      failures := map[];
    }

    method Wait(k: Key, limit: int, now: real) returns (wait: Option<int>)
      modifies this`failures
      ensures wait == Answer(Times(old(failures), k), limit, now, window)
      ensures failures == Looked(old(failures), k, now, window)
    {
      if k !in failures || failures[k] == [] { return Some(0); }
      var times := failures[k];
      while times != [] && now - times[0] >= window
        invariant Prune(times, now, window) == Prune(old(failures)[k], now, window)
        decreases |times|
      {
        times := times[1..];
      }
      failures := failures[k := times];
      if |times| < limit { return Some(0); }
      if times == [] { return None; }
      return Some(Max(1, (window - (now - times[0])).Floor + 1));
    }

    /** The clock is read once for each key; an error at the first leaves the second unread. */
    method RetryAfter(username: string, address: string, now1: real, now2: real) returns (wait: Option<int>)
      modifies this`failures
      ensures var a := Look(normalise(username), address, now1, now2);
        && wait == RetryAnswer(Settings(), old(failures), a)
        && failures == AfterAsking(Settings(), old(failures), a)
    {
      var user := normalise(username);
      var bySource := Wait(Source(user, address), perSource, now1);
      if bySource.None? { return None; }
      var byUser := Wait(User(user), perUsername, now2);
      if byUser.None? { return None; }
      return Some(Max(bySource.value, byUser.value));
    }

    function Settings(): Config { Config(perSource, perUsername, window) }

    method Failed(username: string, address: string, now: real)
      modifies this`failures
      ensures failures == Recorded(old(failures), normalise(username), address, now, window)
    {
      var user := normalise(username);
      var source := Source(user, address);
      failures := failures[source := (if source in failures then failures[source] else []) + [now]];
      failures := failures[User(user) := (if User(user) in failures then failures[User(user)] else []) + [now]];
      if |failures| > SWEEP_ABOVE {
        Sweep(now);
      }
    }

    method Succeeded(username: string, address: string)
      modifies this`failures
      ensures failures == Cleared(old(failures), normalise(username), address)
    {
      failures := failures - {Source(normalise(username), address)};
    }

    method Sweep(now: real)
      modifies this`failures
      ensures failures == Swept(old(failures), now, window)
    {
      var stale := set k | k in failures && (failures[k] == [] || now - failures[k][|failures[k]| - 1] >= window);
      while stale != {}
        invariant stale <= failures.Keys <= old(failures).Keys
        invariant forall k | k in failures ::
                    failures[k] == old(failures)[k] && (k in stale <==> Stale(failures[k], now, window))
        invariant forall k | k in old(failures) && k !in failures :: Stale(old(failures)[k], now, window)
      {
        var k :| k in stale;
        failures := failures - {k};
        stale := stale - {k};
      }
    }
  }

  // ---- Pruning and sweeping never change an answer ------------------------------------------------

  ghost predicate Sorted(times: seq<real>) {
    forall i, j | 0 <= i < j < |times| :: times[i] <= times[j]
  }

  /** Two lists that no later question can tell apart. */
  ghost predicate Alike(a: seq<real>, b: seq<real>, from: real, window: real) {
    forall now | now >= from :: Prune(a, now, window) == Prune(b, now, window)
  }

  lemma PruneTwice(times: seq<real>, early: real, late: real, window: real)
    requires early <= late
    ensures Prune(Prune(times, early, window), late, window) == Prune(times, late, window)
  {
  }

  lemma PruneAppend(times: seq<real>, t: real, now: real, window: real)
    ensures Prune(times + [t], now, window)
         == if Prune(times, now, window) == [] then Prune([t], now, window) else Prune(times, now, window) + [t]
  {
    if times == [] {
      assert times + [t] == [t];
    } else {
      assert (times + [t])[1..] == times[1..] + [t];
      if now - times[0] >= window {
        PruneAppend(times[1..], t, now, window);
      }
    }
  }

  lemma {:induction false} PruneStale(times: seq<real>, now: real, window: real)
    requires Sorted(times) && Stale(times, now, window)
    ensures Prune(times, now, window) == []
  {
    if times != [] {
      assert times[0] <= times[|times| - 1];
      PruneStale(times[1..], now, window);
    }
  }

  /** What pruning leaves is a suffix, all of it inside the window. */
  lemma PruneIsSuffix(times: seq<real>, now: real, window: real) returns (n: nat)
    ensures n <= |times| && Prune(times, now, window) == times[n..]
    ensures forall i | 0 <= i < n :: now - times[i] >= window
    ensures n < |times| ==> now - times[n] < window
  {
    if times != [] && now - times[0] >= window {
      var m := PruneIsSuffix(times[1..], now, window);
      n := m + 1;
      assert times[1..][m..] == times[n..];
      assert forall i | 1 <= i < n :: times[i] == times[1..][i - 1];
    } else {
      n := 0;
    }
  }

  /** The sweep is invisible: it deletes only lists that answer 0 from now on. */
  lemma SweepInvisible(f: Failures, k: Key, limit: int, now: real, later: real, window: real)
    requires limit >= 1 && now <= later && Sorted(Times(f, k))
    ensures WaitOf(Times(Swept(f, now, window), k), limit, later, window) == WaitOf(Times(f, k), limit, later, window)
  {
    if k in f && Stale(f[k], now, window) {
      PruneStale(f[k], later, window);
    }
  }

  /** Nor does asking: a look now leaves every later answer as it was. */
  lemma LookInvisible(f: Failures, k: Key, asked: Key, limit: int, now: real, later: real, window: real)
    requires limit >= 1 && now <= later
    ensures WaitOf(Times(Looked(f, asked, now, window), k), limit, later, window)
         == WaitOf(Times(f, k), limit, later, window)
  {
    PruneTwice(Times(f, k), now, later, window);
  }

  /** A wait names the first whole second after the oldest counted failure leaves the window:
  it overshoots the true remaining time by at most one second, and the floor of one second
  in the code never applies. */
  lemma {:induction false} WaitIsTight(times: seq<real>, limit: int, now: real, window: real)
    requires limit >= 1 && WaitOf(times, limit, now, window) != 0
    ensures var live := Prune(times, now, window);
      var remaining := window - (now - live[0]);
      var w := WaitOf(times, limit, now, window);
      && remaining > 0.0 && w == remaining.Floor + 1
      && remaining < w as real <= remaining + 1.0
  {
    var n := PruneIsSuffix(times, now, window);
  }

  /** The failures less than a window ago. */
  ghost function Recent(times: seq<real>, now: real, window: real): set<nat> {
    set i: nat | i < |times| && now - times[i] < window
  }

  lemma {:induction false} PruneCounts(times: seq<real>, now: real, window: real)
    requires Sorted(times)
    ensures |Prune(times, now, window)| == |Recent(times, now, window)|
  {
    if times == [] {
      assert Recent(times, now, window) == {};
    } else {
      var n := |times| - 1;
      var init, t := times[..n], times[n];
      PruneCounts(init, now, window);
      assert init + [t] == times;
      PruneAppend(init, t, now, window);
      if now - t >= window {
        PruneStale(init, now, window);
      }
      var more := if now - t < window then {n} else {};
      assert Recent(times, now, window) == Recent(init, now, window) + more;
    }
  }

  /** A key is let through exactly when fewer than its limit of failures lie less than a window back;
  otherwise the wait is the first whole second by which the oldest of them no longer does. */
  lemma WaitExactly(times: seq<real>, limit: int, now: real, window: real)
    requires Sorted(times) && limit >= 1
    ensures var recent, w := Recent(times, now, window), WaitOf(times, limit, now, window);
      && (w == 0 <==> |recent| < limit)
      && (w != 0 ==> exists i | i in recent ::
            && (forall j | j in recent :: i <= j)
            && now + w as real - 1.0 - times[i] <= window < now + w as real - times[i])
  {
    PruneCounts(times, now, window);
    WaitNotNegative(times, limit, now, window);
    var n := PruneIsSuffix(times, now, window);
    if WaitOf(times, limit, now, window) != 0 {
      WaitIsTight(times, limit, now, window);
      var live := Prune(times, now, window);
      assert live[0] == times[n] && n in Recent(times, now, window);
    }
  }

  // ---- The answer when both limits are at least 1 --------------------------------------------------

  function RetryWait(c: Config, f: Failures, a: Look): int
    requires Sane(c)
  {
    Max(WaitOf(Times(f, Source(a.user, a.address)), c.perSource, a.now1, c.window),
        WaitOf(Times(f, User(a.user)), c.perUsername, a.now2, c.window))
  }

  /** With limits of at least 1 there are no errors. */
  lemma SaneAnswer(c: Config, f: Failures, a: Look)
    requires Sane(c)
    ensures RetryAnswer(c, f, a) == Some(RetryWait(c, f, a))
    ensures var f1 := Looked(f, Source(a.user, a.address), a.now1, c.window);
      AfterAsking(c, f, a) == Looked(f1, User(a.user), a.now2, c.window)
  {
    hide WaitOf, Looked, Prune;
  }

  lemma WaitNotNegative(times: seq<real>, limit: int, now: real, window: real)
    requires limit >= 1
    ensures WaitOf(times, limit, now, window) >= 0
    ensures WaitOf(times, limit, now, window) == 0 <==> |Prune(times, now, window)| < limit
  {
  }
}
