/** Sign-ins over whole runs. The endpoint asks the throttle, awaits the password check, and
reports its outcome: two steps, with any steps of other sign-ins between them. */
module SignIns {
  import opened Basics
  import opened Throttle

  /** What was let through and how it ended, in order. */
  datatype Entry = Failure(user: string, address: string, at: real) | Success(user: string, address: string)

  /** A sign-in that was let through and whose password is being checked. */
  datatype Ticket = Ticket(user: string, address: string)

  /** The table, what happened, the clock's last reading, and the sign-ins in flight. */
  datatype Gate = Gate(failures: Failures, history: seq<Entry>, clock: real, waiting: seq<Ticket>)

  /** The password check says no, says yes, or raises and is never reported to the throttle. */
  datatype Outcome = Wrong | Right | Raised

  datatype Step = Asks(look: Look) | Ends(i: nat, outcome: Outcome, now: real)

  predicate Enabled(g: Gate, step: Step) {
    match step
    case Asks(a) => g.clock <= a.now1 <= a.now2
    case Ends(i, _, now) => i < |g.waiting| && g.clock <= now
  }

  /** The endpoint up to the password check: who is told 0 goes on. */
  function Asked(c: Config, g: Gate, a: Look): Gate {
    var next := g.(failures := AfterAsking(c, g.failures, a), clock := a.now2);
    if RetryAnswer(c, g.failures, a) == Some(0) then next.(waiting := g.waiting + [Ticket(a.user, a.address)])
    else next
  }

  /** The endpoint after it. */
  function Ended(c: Config, g: Gate, i: nat, outcome: Outcome, now: real): Gate
    requires i < |g.waiting|
  {
    Reported(c, g.(waiting := g.waiting[..i] + g.waiting[i + 1..]), g.waiting[i], outcome, now)
  }

  function Reported(c: Config, g: Gate, t: Ticket, outcome: Outcome, now: real): Gate {
    match outcome
    case Wrong =>
      g.(failures := Recorded(g.failures, t.user, t.address, now, c.window),
         history := g.history + [Failure(t.user, t.address, now)], clock := now)
    case Right =>
      g.(failures := Cleared(g.failures, t.user, t.address), history := g.history + [Success(t.user, t.address)])
    case Raised => g
  }

  function Next(c: Config, g: Gate, step: Step): Gate
    requires Enabled(g, step)
  {
    match step
    case Asks(a) => Asked(c, g, a)
    case Ends(i, outcome, now) => Ended(c, g, i, outcome, now)
  }

  // ---- The endpoint -----------------------------------------------------------------------------------

  method Begin(t: LoginThrottle, username: string, address: string, now1: real, now2: real, ghost g: Gate)
    returns (wait: Option<int>)
    requires g.failures == t.failures
    modifies t`failures
    ensures var a := Look(t.normalise(username), address, now1, now2);
      && wait == RetryAnswer(t.Settings(), g.failures, a)
      && t.failures == Asked(t.Settings(), g, a).failures
  {
    wait := t.RetryAfter(username, address, now1, now2);
  }

  method Finish(t: LoginThrottle, username: string, address: string, outcome: Outcome, now: real,
        ghost g: Gate, ghost i: nat)
    requires g.failures == t.failures && i < |g.waiting| && g.waiting[i] == Ticket(t.normalise(username), address)
    modifies t`failures
    ensures t.failures == Ended(t.Settings(), g, i, outcome, now).failures
  {
    match outcome {
      case Wrong => t.Failed(username, address, now);
      case Right => t.Succeeded(username, address);
      case Raised =>
    }
  }

  /** A sign-in with nothing between its halves. */
  method SignIn(t: LoginThrottle, username: string, address: string, now1: real, now2: real,
        outcome: Outcome, now3: real, ghost g: Gate)
    returns (wait: Option<int>)
    requires g.failures == t.failures
    modifies t`failures
    ensures var a := Look(t.normalise(username), address, now1, now2);
      var g1 := Asked(t.Settings(), g, a);
      && wait == RetryAnswer(t.Settings(), g.failures, a)
      && (wait == Some(0) <==> |g1.waiting| == |g.waiting| + 1)
      && t.failures == (if wait == Some(0) then Ended(t.Settings(), g1, |g.waiting|, outcome, now3) else g1).failures
  {
    hide RetryAnswer, AfterAsking, Recorded, Cleared;
    wait := Begin(t, username, address, now1, now2, g);
    if wait == Some(0) {
      Finish(t, username, address, outcome, now3,
             Asked(t.Settings(), g, Look(t.normalise(username), address, now1, now2)), |g.waiting|);
    }
  }

  // ---- Runs -----------------------------------------------------------------------------------------

  ghost function Start(clock: real): Gate { Gate(map[], [], clock, []) }

  ghost predicate Possible(c: Config, g: Gate, steps: seq<Step>)
    decreases steps
  {
    steps != [] ==> Enabled(g, steps[0]) && Possible(c, Next(c, g, steps[0]), steps[1..])
  }

  ghost function Run(c: Config, g: Gate, steps: seq<Step>): Gate
    requires Possible(c, g, steps)
    decreases steps
  {
    if steps == [] then g else Run(c, Next(c, g, steps[0]), steps[1..])
  }

  predicate Mine(k: Key, user: string, address: string) {
    k == User(user) || k == Source(user, address)
  }

  /** How many of the sign-ins in flight are a key's. */
  function InFlight(waiting: seq<Ticket>, k: Key): nat {
    if waiting == [] then 0
    else
      var t := waiting[|waiting| - 1];
      InFlight(waiting[..|waiting| - 1], k) + (if Mine(k, t.user, t.address) then 1 else 0)
  }

  /** At no moment of the run are more than n of them in flight. */
  ghost predicate AtMost(c: Config, g: Gate, steps: seq<Step>, k: Key, n: nat)
    requires Possible(c, g, steps)
    decreases steps
  {
    && InFlight(g.waiting, k) <= n
    && (steps != [] ==> AtMost(c, Next(c, g, steps[0]), steps[1..], k, n))
  }

  ghost predicate Runs(c: Config, clock: real, steps: seq<Step>, g: Gate) {
    Possible(c, Start(clock), steps) && Run(c, Start(clock), steps) == g
  }

  /** Any interleaving of sign-ins. */
  ghost predicate Reachable(c: Config, g: Gate) {
    exists clock, steps :: Runs(c, clock, steps, g)
  }

  /** Any with at most n of a key in flight at a time. */
  ghost predicate Reached(c: Config, g: Gate, k: Key, n: nat) {
    exists clock, steps :: Runs(c, clock, steps, g) && AtMost(c, Start(clock), steps, k, n)
  }

  lemma {:induction false} RunSnoc(c: Config, g: Gate, steps: seq<Step>, step: Step, k: Key, n: nat)
    requires Possible(c, g, steps) && Enabled(Run(c, g, steps), step)
    ensures Possible(c, g, steps + [step]) && Run(c, g, steps + [step]) == Next(c, Run(c, g, steps), step)
    ensures AtMost(c, g, steps, k, n) && InFlight(Next(c, Run(c, g, steps), step).waiting, k) <= n ==>
              AtMost(c, g, steps + [step], k, n)
    decreases steps
  {
    hide Enabled, Next, InFlight;
    if steps == [] {
      assert steps + [step] == [step] && [step][1..] == [];
    } else {
      assert (steps + [step])[0] == steps[0] && (steps + [step])[1..] == steps[1..] + [step];
      RunSnoc(c, Next(c, g, steps[0]), steps[1..], step, k, n);
    }
  }

  lemma ReachedStart(c: Config, clock: real, k: Key, n: nat)
    ensures Reached(c, Start(clock), k, n)
  {
    assert Runs(c, clock, [], Start(clock)) && AtMost(c, Start(clock), [], k, n);
  }

  lemma ReachedStep(c: Config, g: Gate, step: Step, k: Key, n: nat)
    requires Reached(c, g, k, n) && Enabled(g, step) && InFlight(Next(c, g, step).waiting, k) <= n
    ensures Reached(c, Next(c, g, step), k, n)
  {
    hide Enabled, Next, InFlight, Possible, Run, AtMost;
    var clock, steps :| Runs(c, clock, steps, g) && AtMost(c, Start(clock), steps, k, n);
    RunSnoc(c, Start(clock), steps, step, k, n);
    assert Runs(c, clock, steps + [step], Next(c, g, step));
  }

  lemma InFlightAppend(waiting: seq<Ticket>, t: Ticket, k: Key)
    ensures InFlight(waiting + [t], k) == InFlight(waiting, k) + (if Mine(k, t.user, t.address) then 1 else 0)
  {
    assert (waiting + [t])[..|waiting|] == waiting;
  }

  lemma {:induction false} InFlightWithout(waiting: seq<Ticket>, i: nat, k: Key)
    requires i < |waiting|
    ensures InFlight(waiting, k) == InFlight(waiting[..i] + waiting[i + 1..], k)
                                    + (if Mine(k, waiting[i].user, waiting[i].address) then 1 else 0)
  {
    var init, last := waiting[..|waiting| - 1], waiting[|waiting| - 1];
    if i == |init| {
      assert waiting[..i] + waiting[i + 1..] == init;
    } else {
      InFlightWithout(init, i, k);
      assert waiting[..i] + waiting[i + 1..] == (init[..i] + init[i + 1..]) + [last];
      InFlightAppend(init[..i] + init[i + 1..], last, k);
    }
  }

  // ---- The table tells what the history does ---------------------------------------------------------

  function After(e: Entry, k: Key, counted: seq<real>): seq<real> {
    match e
    case Failure(u, a, t) => if Mine(k, u, a) then counted + [t] else counted
    case Success(u, a) => if k == Source(u, a) then [] else counted
  }

  /** The failures a key stands for: all of a username's; a pair's since its last success. */
  function CountedFor(history: seq<Entry>, k: Key): seq<real> {
    if history == [] then []
    else After(history[|history| - 1], k, CountedFor(history[..|history| - 1], k))
  }

  ghost predicate Upto(times: seq<real>, clock: real) {
    Sorted(times) && (times != [] ==> times[|times| - 1] <= clock)
  }

  /** A key's list may be shorter than the failures it stands for, but answers alike. */
  ghost predicate Tallied(g: Gate, k: Key, window: real) {
    var times, counted := Times(g.failures, k), CountedFor(g.history, k);
    Upto(times, g.clock) && Upto(counted, g.clock) && Alike(times, counted, g.clock, window)
  }

  lemma AlikeAppend(a: seq<real>, b: seq<real>, t: real, from: real, window: real)
    requires Alike(a, b, from, window) && from <= t
    ensures Alike(a + [t], b + [t], t, window)
  {
    forall now | now >= t ensures Prune(a + [t], now, window) == Prune(b + [t], now, window) {
      PruneAppend(a, t, now, window);
      PruneAppend(b, t, now, window);
    }
  }

  lemma AlikePrune(a: seq<real>, b: seq<real>, from: real, now: real, window: real)
    requires Alike(a, b, from, window) && from <= now
    ensures Alike(Prune(a, now, window), b, now, window)
  {
    forall later | later >= now ensures Prune(Prune(a, now, window), later, window) == Prune(b, later, window) {
      PruneTwice(a, now, later, window);
    }
  }

  lemma PruneUpto(times: seq<real>, now: real, window: real, clock: real)
    requires Upto(times, clock)
    ensures Upto(Prune(times, now, window), clock)
  {
    var n := PruneIsSuffix(times, now, window);
  }

  lemma UptoAppend(times: seq<real>, clock: real, t: real)
    requires Upto(times, clock) && clock <= t
    ensures Upto(times + [t], t)
  {
    if times != [] {
      forall i | 0 <= i < |times| ensures times[i] <= t {
        assert i == |times| - 1 || times[i] <= times[|times| - 1];
      }
    }
  }

  lemma CountedAppend(history: seq<Entry>, e: Entry, k: Key)
    ensures CountedFor(history + [e], k) == After(e, k, CountedFor(history, k))
  {
    assert (history + [e])[..|history|] == history;
  }

  /** Recording adds to both keys; the sweep that may follow deletes only what is stale. */
  lemma TimesRecorded(f: Failures, user: string, address: string, now: real, window: real, k: Key)
    ensures var kept := if Mine(k, user, address) then Times(f, k) + [now] else Times(f, k);
      var times := Times(Recorded(f, user, address, now, window), k);
      times == kept || (times == [] && Stale(kept, now, window))
  {
    var g := f[Source(user, address) := Times(f, Source(user, address)) + [now]];
    var h := g[User(user) := Times(g, User(user)) + [now]];
    assert Times(h, k) == if Mine(k, user, address) then Times(f, k) + [now] else Times(f, k);
  }

  lemma StaleAlike(times: seq<real>, now: real, window: real)
    requires Sorted(times) && Stale(times, now, window)
    ensures Alike([], times, now, window)
  {
    forall later | later >= now ensures Prune(times, later, window) == [] {
      PruneStale(times, later, window);
    }
  }

  lemma KeptLists(times: seq<real>, counted: seq<real>, times': seq<real>, clock: real, now: real, window: real)
    requires Upto(times, clock) && Upto(counted, clock) && Alike(times, counted, clock, window) && clock <= now
    requires times' == times || (times' == [] && Stale(times, now, window))
    ensures Upto(times', now) && Upto(counted, now) && Alike(times', counted, now, window)
  {
    if times' != times {
      StaleAlike(times, now, window);
    }
  }

  lemma RecordedLists(times: seq<real>, counted: seq<real>, times': seq<real>, clock: real, now: real, window: real)
    requires Upto(times, clock) && Upto(counted, clock) && Alike(times, counted, clock, window) && clock <= now
    requires times' == times + [now] || (times' == [] && Stale(times + [now], now, window))
    ensures Upto(times', now) && Upto(counted + [now], now) && Alike(times', counted + [now], now, window)
  {
    hide Stale, Prune;
    AlikeAppend(times, counted, now, clock, window);
    UptoAppend(times, clock, now);
    UptoAppend(counted, clock, now);
    KeptLists(times + [now], counted + [now], times', now, now, window);
  }

  lemma LookTallies(g: Gate, asked: Key, now: real, k: Key, window: real)
    requires Tallied(g, k, window) && g.clock <= now
    ensures Tallied(g.(failures := Looked(g.failures, asked, now, window), clock := now), k, window)
  {
    if k == asked && k in g.failures {
      AlikePrune(g.failures[k], CountedFor(g.history, k), g.clock, now, window);
      PruneUpto(g.failures[k], now, window, g.clock);
    }
  }

  lemma WrongTallies(c: Config, g: Gate, t: Ticket, now: real, k: Key)
    requires Tallied(g, k, c.window) && g.clock <= now
    ensures Tallied(Reported(c, g, t, Wrong, now), k, c.window)
  {
    hide Recorded, Prune, Alike, Upto, Stale, CountedFor, Times;
    var g' := Reported(c, g, t, Wrong, now);
    var times, counted := Times(g.failures, k), CountedFor(g.history, k);
    CountedAppend(g.history, Failure(t.user, t.address, now), k);
    TimesRecorded(g.failures, t.user, t.address, now, c.window, k);
    if Mine(k, t.user, t.address) {
      RecordedLists(times, counted, Times(g'.failures, k), g.clock, now, c.window);
    } else {
      KeptLists(times, counted, Times(g'.failures, k), g.clock, now, c.window);
    }
  }

  /** Every step keeps a key's list and the failures it stands for alike. */
  lemma StepTallies(c: Config, g: Gate, step: Step, k: Key)
    requires Enabled(g, step) && Tallied(g, k, c.window)
    ensures Tallied(Next(c, g, step), k, c.window)
    ensures g.clock <= Next(c, g, step).clock
  {
    hide Tallied, Asked, Ended;
    match step
    case Asks(a) => AsksTallies(c, g, a, k);
    case Ends(i, outcome, now) => EndsTallies(c, g, i, outcome, now, k);
  }

  lemma AsksTallies(c: Config, g: Gate, a: Look, k: Key)
    requires Enabled(g, Asks(a)) && Tallied(g, k, c.window)
    ensures Tallied(Asked(c, g, a), k, c.window) && g.clock <= Asked(c, g, a).clock
  {
    hide Looked, RetryAnswer, AnswerFor, Alike, Upto, CountedFor, Times;
    var source := Source(a.user, a.address);
    LookTallies(g, source, a.now1, k, c.window);
    var g1 := g.(failures := Looked(g.failures, source, a.now1, c.window), clock := a.now1);
    LookTallies(g1, User(a.user), a.now2, k, c.window);
    TalliedLater(g1, k, c.window, a.now2);
  }

  lemma TalliedLater(g: Gate, k: Key, window: real, now: real)
    requires Tallied(g, k, window) && g.clock <= now
    ensures Tallied(g.(clock := now), k, window)
  {
  }

  lemma EndsTallies(c: Config, g: Gate, i: nat, outcome: Outcome, now: real, k: Key)
    requires Enabled(g, Ends(i, outcome, now)) && Tallied(g, k, c.window)
    ensures Tallied(Ended(c, g, i, outcome, now), k, c.window) && g.clock <= Ended(c, g, i, outcome, now).clock
  {
    hide Recorded, Prune, CountedFor;
    var t := g.waiting[i];
    CountedAppend(g.history, Success(t.user, t.address), k);
    var g1 := g.(waiting := g.waiting[..i] + g.waiting[i + 1..]);
    WrongTallies(c, g1, t, now, k);
  }

  // ---- The rate ---------------------------------------------------------------------------------------

  /** A pair's failures are all its username's, so the smaller limit holds for it. */
  function Allowance(c: Config, k: Key): int {
    if k.User? then c.perUsername else Min(c.perSource, c.perUsername)
  }

  /** Any limit + 1 of the failures in a row take at least a window. */
  ghost predicate Spaced(times: seq<real>, limit: int, window: real) {
    forall i, j | 0 <= i < |times| && 0 <= j < |times| && j == i + limit :: times[j] - times[i] >= window
  }

  /** With m sign-ins in flight there is room for m more failures: as long as any are in flight,
  all but the last limit - 1 + n - m failures have left the window. */
  ghost predicate Paced(counted: seq<real>, limit: int, n: nat, m: nat, clock: real, window: real) {
    && Spaced(counted, limit - 1 + n, window)
    && (m > 0 ==> forall i | 0 <= i < |counted| - (limit - 1 + n - m) && i < |counted| :: clock - counted[i] >= window)
  }

  lemma PacedLater(counted: seq<real>, limit: int, n: nat, m: nat, clock: real, window: real, m': nat, now: real)
    requires Paced(counted, limit, n, m, clock, window) && m' <= m && clock <= now
    ensures Paced(counted, limit, n, m', now, window)
  {
  }

  lemma PacedAsk(counted: seq<real>, limit: int, n: nat, m: nat, clock: real, window: real, now: real)
    requires Paced(counted, limit, n, m, clock, window) && |Prune(counted, now, window)| < limit && m + 1 <= n
    ensures Paced(counted, limit, n, m + 1, now, window)
  {
    var dropped := PruneIsSuffix(counted, now, window);
  }

  lemma PacedFailure(counted: seq<real>, limit: int, n: nat, m: nat, clock: real, window: real, t: real)
    requires Paced(counted, limit, n, m, clock, window) && 1 <= m <= n && limit >= 1 && clock <= t
    ensures Paced(counted + [t], limit, n, m - 1, t, window)
  {
    var all := counted + [t];
    forall i, j | 0 <= i < |all| && 0 <= j < |all| && j == i + (limit - 1 + n) ensures all[j] - all[i] >= window {
      if j < |counted| {
        assert counted[j] - counted[i] >= window;
      } else {
        assert clock - counted[i] >= window;
      }
    }
  }

  lemma PruneOrder(times: seq<real>, now: real, window: real)
    ensures |Prune(times, now, window)| <= |times|
    ensures times != [] && now - times[0] >= window ==> |Prune(times, now, window)| < |times|
  {
  }

  lemma {:induction false} PairUnderUser(history: seq<Entry>, user: string, address: string, now: real, window: real)
    ensures |Prune(CountedFor(history, Source(user, address)), now, window)|
         <= |Prune(CountedFor(history, User(user)), now, window)|
  {
    if history != [] {
      var init, last := history[..|history| - 1], history[|history| - 1];
      PairUnderUser(init, user, address, now, window);
      if last.Failure? {
        PruneAppend(CountedFor(init, Source(user, address)), last.at, now, window);
        PruneAppend(CountedFor(init, User(user)), last.at, now, window);
        PruneOrder([last.at], now, window);
      }
    }
  }

  /** Who is told 0 has room under both limits. */
  lemma AdmittedRoom(c: Config, g: Gate, a: Look, k: Key)
    requires Sane(c) && Enabled(g, Asks(a)) && RetryAnswer(c, g.failures, a) == Some(0)
    requires Tallied(g, Source(a.user, a.address), c.window) && Tallied(g, User(a.user), c.window)
    requires Mine(k, a.user, a.address)
    ensures |Prune(CountedFor(g.history, k), a.now2, c.window)| < Allowance(c, k)
  {
    var source, user := Source(a.user, a.address), User(a.user);
    SaneAnswer(c, g.failures, a);
    WaitNotNegative(Times(g.failures, source), c.perSource, a.now1, c.window);
    WaitNotNegative(Times(g.failures, user), c.perUsername, a.now2, c.window);
    hide WaitOf, Prune, CountedFor, RetryAnswer;
    var ofPair := CountedFor(g.history, source);
    assert Prune(Times(g.failures, user), a.now2, c.window) == Prune(CountedFor(g.history, user), a.now2, c.window);
    assert Prune(Times(g.failures, source), a.now1, c.window) == Prune(ofPair, a.now1, c.window);
    PruneTwice(ofPair, a.now1, a.now2, c.window);
    PruneOrder(Prune(ofPair, a.now1, c.window), a.now2, c.window);
    PairUnderUser(g.history, a.user, a.address, a.now2, c.window);
  }

  ghost predicate KeyPaced(c: Config, g: Gate, k: Key, n: nat) {
    Paced(CountedFor(g.history, k), Allowance(c, k), n, InFlight(g.waiting, k), g.clock, c.window)
  }

  lemma AsksPaces(c: Config, g: Gate, a: Look, k: Key, n: nat)
    requires Sane(c) && Enabled(g, Asks(a)) && KeyPaced(c, g, k, n)
    requires Tallied(g, Source(a.user, a.address), c.window) && Tallied(g, User(a.user), c.window)
    requires InFlight(Asked(c, g, a).waiting, k) <= n
    ensures KeyPaced(c, Asked(c, g, a), k, n)
  {
    var counted, m := CountedFor(g.history, k), InFlight(g.waiting, k);
    InFlightAppend(g.waiting, Ticket(a.user, a.address), k);
    hide Paced, CountedFor, InFlight, AfterAsking, Prune;
    if RetryAnswer(c, g.failures, a) == Some(0) && Mine(k, a.user, a.address) {
      AdmittedRoom(c, g, a, k);
      PacedAsk(counted, Allowance(c, k), n, m, g.clock, c.window, a.now2);
    } else {
      PacedLater(counted, Allowance(c, k), n, m, g.clock, c.window, m, a.now2);
    }
  }

  lemma EndsPaces(c: Config, g: Gate, i: nat, outcome: Outcome, now: real, k: Key, n: nat)
    requires Sane(c) && Enabled(g, Ends(i, outcome, now)) && KeyPaced(c, g, k, n)
    requires InFlight(g.waiting, k) <= n
    ensures KeyPaced(c, Ended(c, g, i, outcome, now), k, n)
  {
    var counted, m, t := CountedFor(g.history, k), InFlight(g.waiting, k), g.waiting[i];
    var g' := Ended(c, g, i, outcome, now);
    InFlightWithout(g.waiting, i, k);
    CountedAppend(g.history, Failure(t.user, t.address, now), k);
    CountedAppend(g.history, Success(t.user, t.address), k);
    hide CountedFor, InFlight;
    if outcome == Right && k == Source(t.user, t.address) {
      assert CountedFor(g'.history, k) == [];
    } else {
      hide Paced;
      if outcome == Wrong && Mine(k, t.user, t.address) {
        PacedFailure(counted, Allowance(c, k), n, m, g.clock, c.window, now);
      } else {
        PacedLater(counted, Allowance(c, k), n, m, g.clock, c.window, InFlight(g'.waiting, k), g'.clock);
      }
    }
  }

  ghost predicate AllTallied(c: Config, g: Gate) {
    forall k :: Tallied(g, k, c.window)
  }

  lemma StepTalliesAll(c: Config, g: Gate, step: Step)
    requires Enabled(g, step) && AllTallied(c, g)
    ensures AllTallied(c, Next(c, g, step))
  {
    hide Tallied, Next, Enabled;
    forall k ensures Tallied(Next(c, g, step), k, c.window) {
      StepTallies(c, g, step, k);
    }
  }

  /** Every step, whoever's it is, keeps the room there must be for those in flight. */
  lemma StepPaces(c: Config, g: Gate, step: Step, k: Key, n: nat)
    requires Sane(c) && Enabled(g, step) && AllTallied(c, g) && KeyPaced(c, g, k, n)
    requires InFlight(g.waiting, k) <= n && InFlight(Next(c, g, step).waiting, k) <= n
    ensures KeyPaced(c, Next(c, g, step), k, n)
  {
    hide Tallied, KeyPaced, Asked, Ended, InFlight;
    match step
    case Asks(a) => AsksPaces(c, g, a, k, n);
    case Ends(i, outcome, now) => EndsPaces(c, g, i, outcome, now, k, n);
  }

  lemma {:induction false} RunPaces(c: Config, g: Gate, steps: seq<Step>, k: Key, n: nat)
    requires Sane(c) && AllTallied(c, g) && KeyPaced(c, g, k, n)
    requires Possible(c, g, steps) && AtMost(c, g, steps, k, n)
    ensures KeyPaced(c, Run(c, g, steps), k, n)
    decreases steps
  {
    if steps != [] {
      hide AllTallied, KeyPaced, Next, Enabled, InFlight;
      StepTalliesAll(c, g, steps[0]);
      StepPaces(c, g, steps[0], k, n);
      RunPaces(c, Next(c, g, steps[0]), steps[1..], k, n);
    }
  }

  lemma {:induction false} RunTallies(c: Config, g: Gate, steps: seq<Step>)
    requires AllTallied(c, g) && Possible(c, g, steps)
    ensures AllTallied(c, Run(c, g, steps))
    decreases steps
  {
    if steps != [] {
      hide AllTallied, Next, Enabled;
      StepTalliesAll(c, g, steps[0]);
      RunTallies(c, Next(c, g, steps[0]), steps[1..]);
    }
  }

  lemma ReachedPaced(c: Config, g: Gate, k: Key, n: nat)
    requires Sane(c) && Reached(c, g, k, n)
    ensures AllTallied(c, g) && KeyPaced(c, g, k, n)
  {
    var clock, steps :| Runs(c, clock, steps, g) && AtMost(c, Start(clock), steps, k, n);
    RunTallies(c, Start(clock), steps);
    RunPaces(c, Start(clock), steps, k, n);
  }

  /** How many of the times lie in [from, from + window). */
  function InSpan(times: seq<real>, from: real, window: real): nat {
    if times == [] then 0
    else InSpan(times[..|times| - 1], from, window)
         + (if from <= times[|times| - 1] < from + window then 1 else 0)
  }

  lemma {:induction false} SpacedBoundsSpan(times: seq<real>, limit: int, from: real, window: real)
    requires limit >= 1 && Sorted(times) && Spaced(times, limit, window)
    ensures InSpan(times, from, window) <= limit
    ensures forall i | 0 <= i < |times| && times[i] < from :: InSpan(times, from, window) <= |times| - 1 - i
  {
    if times != [] {
      var init, last := times[..|times| - 1], times[|times| - 1];
      SpacedBoundsSpan(init, limit, from, window);
      InSpanLength(times, from, window);
      var i := |times| - 1 - limit;
      if from <= last < from + window && i >= 0 {
        assert last - times[i] >= window;
        assert init[i] < from;
      }
      forall i | 0 <= i < |times| && times[i] < from ensures InSpan(times, from, window) <= |times| - 1 - i {
        if i < |init| { assert init[i] < from; }
        else { NoneInSpan(times, from, window); }
      }
    }
  }

  lemma InSpanLength(times: seq<real>, from: real, window: real)
    ensures InSpan(times, from, window) <= |times|
  {
  }

  lemma {:induction false} NoneInSpan(times: seq<real>, from: real, window: real)
    requires Sorted(times) && (times != [] ==> times[|times| - 1] < from)
    ensures InSpan(times, from, window) == 0
  {
    if times != [] {
      var init := times[..|times| - 1];
      assert init != [] ==> init[|init| - 1] <= times[|times| - 1];
      NoneInSpan(init, from, window);
    }
  }

  /** The rate theorem: over every interleaving in which at most n of a key's sign-ins are in
  flight at a time, no stretch of one window holds more than its limit and n - 1 of its failures;
  with one at a time, no more than its limit. */
  lemma RateBound(c: Config, g: Gate, k: Key, n: nat, from: real)
    requires Sane(c) && n >= 1 && Reached(c, g, k, n)
    ensures InSpan(CountedFor(g.history, k), from, c.window) <= Allowance(c, k) - 1 + n
  {
    ReachedPaced(c, g, k, n);
    assert Tallied(g, k, c.window);
    SpacedBoundsSpan(CountedFor(g.history, k), Allowance(c, k) - 1 + n, from, c.window);
  }

  // ---- The rate is no better than that ------------------------------------------------------------

  /** No span of one window ever holds more than b of a key's failures. */
  ghost predicate Within(c: Config, k: Key, n: nat, b: int) {
    forall g, from | Reached(c, g, k, n) :: InSpan(CountedFor(g.history, k), from, c.window) <= b
  }

  function Zeros(i: nat): seq<real> { seq(i, _ => 0.0) }

  lemma {:induction false} ZerosLive(i: nat, window: real)
    requires window > 0.0
    ensures Prune(Zeros(i), 0.0, window) == Zeros(i)
  {
  }

  lemma {:induction false} ZerosInSpan(i: nat, window: real)
    requires window > 0.0
    ensures InSpan(Zeros(i), 0.0, window) == i
  {
    if i > 0 {
      ZerosInSpan(i - 1, window);
      assert Zeros(i)[..i - 1] == Zeros(i - 1);
    }
  }

  /** Where the i-th guess comes from: the pair's own address, or a new one each time. */
  function Address(k: Key, i: nat): (address: string)
    ensures k.User? ==> |address| == i
    ensures Mine(k, k.user, address)
  {
    if k.Source? then k.address else seq(i, _ => 'x')
  }

  /** The lists after i failures of the key, all at 0.0. */
  ghost predicate Filled(f: Failures, k: Key, i: nat) {
    && Times(f, User(k.user)) == Zeros(i)
    && (k.Source? ==> Times(f, k) == Zeros(i))
    && (k.User? ==> forall j: nat | j >= i :: Times(f, Source(k.user, Address(k, j))) == [])
  }

  /** All at 0.0: i failures and w sign-ins still in flight. */
  ghost predicate Crowd(c: Config, g: Gate, k: Key, n: nat, failed: nat, w: nat) {
    && Reached(c, g, k, n) && g.clock == 0.0
    && CountedFor(g.history, k) == Zeros(failed)
    && |g.waiting| == w && forall t | t in g.waiting :: t.user == k.user && Mine(k, t.user, t.address)
  }

  lemma {:induction false} CrowdInFlight(waiting: seq<Ticket>, k: Key)
    requires forall t | t in waiting :: Mine(k, t.user, t.address)
    ensures InFlight(waiting, k) == |waiting|
  {
    if waiting != [] {
      var init, last := waiting[..|waiting| - 1], waiting[|waiting| - 1];
      assert last in waiting && forall t | t in init :: t in waiting;
      CrowdInFlight(init, k);
    }
  }

  lemma TimesLooked(f: Failures, asked: Key, window: real)
    ensures forall k :: Times(Looked(f, asked, 0.0, window), k) ==
                        if k == asked then Prune(Times(f, k), 0.0, window) else Times(f, k)
  {
  }

  /** A guess at 0.0 with room left is let through and leaves the lists as they were. */
  lemma GuessAdmitted(c: Config, f: Failures, k: Key, i: nat)
    requires c.window > 0.0 && Filled(f, k, i) && (i == 0 || i < Allowance(c, k))
    ensures var a := Look(k.user, Address(k, i), 0.0, 0.0);
      RetryAnswer(c, f, a) == Some(0) && Filled(AfterAsking(c, f, a), k, i)
  {
    var source, user := Source(k.user, Address(k, i)), User(k.user);
    ZerosLive(i, c.window);
    assert Prune([], 0.0, c.window) == [];
    var f1 := Looked(f, source, 0.0, c.window);
    TimesLooked(f, source, c.window);
    TimesLooked(f1, user, c.window);
    hide Looked, Prune;
    assert Times(f, source) == [] || Times(f, source) == Zeros(i);
  }

  lemma GuessStep(c: Config, g: Gate, k: Key, n: nat, i: nat, w: nat) returns (g': Gate)
    requires c.window > 0.0 && (i == 0 || i < Allowance(c, k)) && w < n
    requires Crowd(c, g, k, n, i, w) && Filled(g.failures, k, i)
    ensures Crowd(c, g', k, n, i, w + 1) && Filled(g'.failures, k, i)
    ensures g'.waiting == g.waiting + [Ticket(k.user, Address(k, i))]
  {
    var a := Look(k.user, Address(k, i), 0.0, 0.0);
    GuessAdmitted(c, g.failures, k, i);
    g' := Next(c, g, Asks(a));
    hide Filled, CountedFor, InFlight, Reached, AfterAsking, RetryAnswer, Zeros, Address, Allowance;
    CrowdInFlight(g'.waiting, k);
    ReachedStep(c, g, Asks(a), k, n);
  }

  lemma WrongStep(c: Config, g: Gate, k: Key, n: nat, failed: nat, w: nat) returns (g': Gate)
    requires c.window > 0.0 && 0 < w <= n && Crowd(c, g, k, n, failed, w)
    ensures Crowd(c, g', k, n, failed + 1, w - 1)
    ensures g'.failures == Recorded(g.failures, k.user, g.waiting[0].address, 0.0, c.window)
    ensures g'.waiting == g.waiting[1..]
  {
    var t := g.waiting[0];
    g' := Next(c, g, Ends(0, Wrong, 0.0));
    assert g.waiting[..0] + g.waiting[1..] == g.waiting[1..];
    assert t in g.waiting && forall u | u in g.waiting[1..] :: u in g.waiting;
    CountedAppend(g.history, Failure(t.user, t.address, 0.0), k);
    assert Zeros(failed) + [0.0] == Zeros(failed + 1);
    hide CountedFor, InFlight, Reached, Recorded, Zeros;
    CrowdInFlight(g'.waiting, k);
    ReachedStep(c, g, Ends(0, Wrong, 0.0), k, n);
  }

  lemma FilledRecorded(f: Failures, k: Key, i: nat, window: real)
    requires window > 0.0 && Filled(f, k, i)
    ensures Filled(Recorded(f, k.user, Address(k, i), 0.0, window), k, i + 1)
  {
    var f' := Recorded(f, k.user, Address(k, i), 0.0, window);
    assert Zeros(i) + [0.0] == Zeros(i + 1);
    TimesRecorded(f, k.user, Address(k, i), 0.0, window, User(k.user));
    TimesRecorded(f, k.user, Address(k, i), 0.0, window, k);
    hide Recorded;
    if k.User? {
      forall j: nat | j >= i + 1 ensures Times(f', Source(k.user, Address(k, j))) == [] {
        TimesRecorded(f, k.user, Address(k, i), 0.0, window, Source(k.user, Address(k, j)));
      }
    }
  }

  lemma {:induction false} Fill(c: Config, k: Key, n: nat, i: nat) returns (g: Gate)
    requires c.window > 0.0 && n >= 1 && (i == 0 || i < Allowance(c, k))
    ensures Crowd(c, g, k, n, i, 0) && Filled(g.failures, k, i)
  {
    if i == 0 {
      g := Start(0.0);
      ReachedStart(c, 0.0, k, n);
      assert CountedFor(g.history, k) == [];
    } else {
      hide Crowd, Filled, Allowance, Recorded;
      var g1 := Fill(c, k, n, i - 1);
      assert Crowd(c, g1, k, n, i - 1, 0) ==> g1.waiting == [] by { NobodyWaits(c, g1, k, n, i - 1); }
      var g2 := GuessStep(c, g1, k, n, i - 1, 0);
      g := WrongStep(c, g2, k, n, i - 1, 1);
      FilledRecorded(g2.failures, k, i - 1, c.window);
    }
  }

  lemma NobodyWaits(c: Config, g: Gate, k: Key, n: nat, failed: nat)
    ensures Crowd(c, g, k, n, failed, 0) ==> g.waiting == []
  {
  }

  lemma {:induction false} AskAll(c: Config, k: Key, n: nat, i: nat, w: nat) returns (g: Gate)
    requires c.window > 0.0 && n >= 1 && (i == 0 || i < Allowance(c, k)) && w <= n
    ensures Crowd(c, g, k, n, i, w) && Filled(g.failures, k, i)
    decreases w
  {
    if w == 0 {
      g := Fill(c, k, n, i);
    } else {
      hide Crowd, Filled, Allowance;
      var g1 := AskAll(c, k, n, i, w - 1);
      g := GuessStep(c, g1, k, n, i, w - 1);
    }
  }

  lemma {:induction false} FailAll(c: Config, k: Key, n: nat, i: nat, ended: nat) returns (g: Gate)
    requires c.window > 0.0 && n >= 1 && (i == 0 || i < Allowance(c, k)) && ended <= n
    ensures Crowd(c, g, k, n, i + ended, n - ended)
    decreases ended
  {
    if ended == 0 {
      g := AskAll(c, k, n, i, n);
    } else {
      hide Crowd, Filled, Allowance;
      var g1 := FailAll(c, k, n, i, ended - 1);
      g := WrongStep(c, g1, k, n, i + ended - 1, n - ended + 1);
    }
  }

  /** The bound is exact: for every key, limits and number in flight. */
  lemma RateExactly(c: Config, k: Key, n: nat, b: int)
    requires Sane(c) && c.window > 0.0 && n >= 1
    ensures Within(c, k, n, b) <==> b >= Allowance(c, k) - 1 + n
  {
    hide InSpan, CountedFor, Reached;
    if b >= Allowance(c, k) - 1 + n {
      forall g, from | Reached(c, g, k, n) ensures InSpan(CountedFor(g.history, k), from, c.window) <= b {
        RateBound(c, g, k, n, from);
      }
    }
    var i := Allowance(c, k) - 1;
    var g := FailAll(c, k, n, i, n);
    ZerosInSpan(i + n, c.window);
  }

  /** A run in which two sign-ins overlap and a limit of one lets both failures through. */
  lemma TwoAtOnce()
    ensures var c, a := Config(1, 1, 900.0), Look("u", "x", 0.0, 0.0);
      var steps := [Asks(a), Asks(a), Ends(0, Wrong, 0.0), Ends(0, Wrong, 0.0)];
      && Possible(c, Start(0.0), steps)
      && InSpan(CountedFor(Run(c, Start(0.0), steps).history, User("u")), 0.0, c.window) == 2
  {
    var c, a := Config(1, 1, 900.0), Look("u", "x", 0.0, 0.0);
    var t, e, f := Ticket("u", "x"), Ends(0, Wrong, 0.0), Failure("u", "x", 0.0);
    var g1, g2 := Gate(map[], [], 0.0, [t]), Gate(map[], [], 0.0, [t, t]);
    AskedOnEmpty(c, Start(0.0), a);
    AskedOnEmpty(c, g1, a);
    var g3 := EndedFirst(c, g2, t, 0.0);
    var g4 := EndedFirst(c, g3, t, 0.0);
    CountedAppend([], f, User("u"));
    CountedAppend([f], f, User("u"));
    assert CountedFor(g4.history, User("u")) == Zeros(2);
    ZerosInSpan(2, c.window);
    hide Asked, Ended, CountedFor, InSpan;
    RunOne(c, g3, e, []);
    RunOne(c, g2, e, [e]);
    RunOne(c, g1, Asks(a), [e, e]);
    RunOne(c, Start(0.0), Asks(a), [Asks(a), e, e]);
    assert [Asks(a)] + [Asks(a), e, e] == [Asks(a), Asks(a), e, e];
  }

  lemma AskedOnEmpty(c: Config, g: Gate, a: Look)
    requires g.failures == map[]
    ensures Asked(c, g, a) == g.(clock := a.now2, waiting := g.waiting + [Ticket(a.user, a.address)])
  {
  }

  lemma EndedFirst(c: Config, g: Gate, t: Ticket, now: real) returns (g': Gate)
    requires g.waiting != [] && g.waiting[0] == t
    ensures g' == Ended(c, g, 0, Wrong, now) && g'.waiting == g.waiting[1..] && g'.clock == now
    ensures g'.history == g.history + [Failure(t.user, t.address, now)]
    ensures g'.failures == Recorded(g.failures, t.user, t.address, now, c.window)
  {
    g' := Ended(c, g, 0, Wrong, now);
    assert g.waiting[..0] + g.waiting[1..] == g.waiting[1..];
  }

  lemma RunOne(c: Config, g: Gate, step: Step, rest: seq<Step>)
    requires Enabled(g, step) && Possible(c, Next(c, g, step), rest)
    ensures Possible(c, g, [step] + rest) && Run(c, g, [step] + rest) == Run(c, Next(c, g, step), rest)
  {
    assert ([step] + rest)[1..] == rest;
  }

  /** The rate the settings promise: the limit, and one more for each sign-in in flight beyond one. */
  ghost predicate RateHolds(c: Config, n: nat) {
    forall k :: Within(c, k, n, Limit(c, k) - 1 + n)
  }

  lemma NoLimitNoRate(c: Config, k: Key, n: nat)
    requires c.window > 0.0 && n >= 1 && Within(c, k, n, Limit(c, k) - 1 + n)
    ensures Limit(c, k) >= 1
  {
    hide InSpan, CountedFor, Reached;
    var g := FailAll(c, k, n, 0, n);
    ZerosInSpan(n, c.window);
  }

  lemma EmptySpan(times: seq<real>, from: real, window: real)
    requires window <= 0.0
    ensures InSpan(times, from, window) == 0
  {
  }

  lemma NothingCounted(c: Config, k: Key, n: nat)
    requires Within(c, k, n, Limit(c, k) - 1 + n)
    ensures Limit(c, k) - 1 + n >= 0
  {
    ReachedStart(c, 0.0, k, n);
    hide Reached;
    assert InSpan(CountedFor(Start(0.0).history, k), 0.0, c.window) == 0;
  }

  /** The rate holds, over every interleaving, exactly when both limits are at least 1. (Spans of
  an empty window hold nothing, so there it is enough that the bounds are not negative.) */
  lemma RateHoldsIff(c: Config, n: nat)
    requires n >= 1
    ensures RateHolds(c, n) <==>
              if c.window > 0.0 then Sane(c) else c.perSource - 1 + n >= 0 && c.perUsername - 1 + n >= 0
  {
    hide InSpan, CountedFor, Reached;
    if RateHolds(c, n) {
      NothingCounted(c, User(""), n);
      NothingCounted(c, Source("", ""), n);
      if c.window > 0.0 {
        NoLimitNoRate(c, User(""), n);
        NoLimitNoRate(c, Source("", ""), n);
      }
    }
    forall k, g, from | Reached(c, g, k, n) && (c.window > 0.0 ==> Sane(c))
      ensures InSpan(CountedFor(g.history, k), from, c.window) <= Max(0, Limit(c, k) - 1 + n)
    {
      if c.window > 0.0 {
        RateBound(c, g, k, n, from);
      } else {
        EmptySpan(CountedFor(g.history, k), from, c.window);
      }
    }
  }

  // ---- Errors ---------------------------------------------------------------------------------------

  /** No sign-in of any run makes retry_after raise. */
  ghost predicate NeverErrs(c: Config) {
    forall g, a | Reachable(c, g) && Enabled(g, Asks(a)) :: RetryAnswer(c, g.failures, a).Some?
  }

  /** One failure, asked about again when it has left the window: with a limit below 1 there is
  nothing to index. */
  lemma NeverErrsIff(c: Config)
    ensures NeverErrs(c) <==> Sane(c)
  {
    if Sane(c) {
      forall g, a | Reachable(c, g) && Enabled(g, Asks(a)) ensures RetryAnswer(c, g.failures, a).Some? {
        SaneAnswer(c, g.failures, a);
      }
    } else {
      var g := OneFailure(c);
      var later := if c.window > 0.0 then c.window else 0.0;
      var a := Look("", "", later, later);
      hide Reachable;
      assert Prune([0.0], later, c.window) == [];
      assert Enabled(g, Asks(a)) && RetryAnswer(c, g.failures, a).None?;
    }
  }

  lemma OneFailure(c: Config) returns (g: Gate)
    ensures Reachable(c, g) && g.clock == 0.0
    ensures Times(g.failures, Source("", "")) == [0.0] && Times(g.failures, User("")) == [0.0]
  {
    var a, e := Look("", "", 0.0, 0.0), Ends(0, Wrong, 0.0);
    var g1 := Asked(c, Start(0.0), a);
    assert g1.waiting == [Ticket("", "")] && g1.failures == map[];
    g := Ended(c, g1, 0, Wrong, 0.0);
    RunOne(c, g1, e, []);
    RunOne(c, Start(0.0), Asks(a), [e]);
    assert Runs(c, 0.0, [Asks(a)] + [e], g);
    hide Reachable;
  }

  // ---- Retry-After ------------------------------------------------------------------------------------

  /** No failure of this username among some entries. */
  predicate Quiet(entries: seq<Entry>, user: string) {
    forall e | e in entries :: e.Failure? ==> e.user != user
  }

  /** What a run added to the history. */
  function Since(g: Gate, h: Gate): seq<Entry> {
    if |g.history| <= |h.history| then h.history[|g.history|..] else []
  }

  /** Later history only adds to earlier history. */
  lemma {:induction false} RunExtends(c: Config, g: Gate, steps: seq<Step>)
    requires Possible(c, g, steps)
    ensures g.history <= Run(c, g, steps).history && g.clock <= Run(c, g, steps).clock
    decreases steps
  {
    if steps != [] {
      hide AfterAsking, RetryAnswer, Recorded, Cleared;
      RunExtends(c, Next(c, g, steps[0]), steps[1..]);
    }
  }

  /** Entries without one leave a key's counted failures as they were, or clear them. */
  lemma {:induction false} QuietCounts(history: seq<Entry>, more: seq<Entry>, k: Key)
    requires Quiet(more, k.user)
    ensures CountedFor(history + more, k) == CountedFor(history, k) || CountedFor(history + more, k) == []
    decreases more
  {
    if more == [] {
      assert history + more == history;
    } else {
      var init, last := more[..|more| - 1], more[|more| - 1];
      hide CountedFor;
      assert last in more && forall e | e in init :: e in more;
      QuietCounts(history, init, k);
      assert history + more == (history + init) + [last];
      CountedAppend(history + init, last, k);
    }
  }

  function Later(a: real, b: real): real { if a < b then b else a }

  /** Whoever is told to wait and waits is let through, whatever other sign-ins begin and end in
  between, as long as none of them fails for this username. */
  ghost predicate Promised(c: Config, g: Gate, a: Look)
    requires Sane(c)
  {
    var asked, w := Asked(c, g, a), RetryWait(c, g.failures, a) as real;
    forall between, again | Possible(c, asked, between) && Tries(a, w, Run(c, asked, between), again) ::
      Quiet(Since(g, Run(c, asked, between)), a.user) ==>
        RetryAnswer(c, Run(c, asked, between).failures, again) == Some(0)
  }

  predicate Tries(a: Look, w: real, g: Gate, again: Look) {
    && Enabled(g, Asks(again)) && again.user == a.user && again.address == a.address
    && again.now1 >= a.now1 + w && again.now2 >= a.now2 + w
  }

  /** Of the failures that count now, the one that keeps the number at the limit will have left. */
  predicate Leaves(times: seq<real>, limit: int, now: real, later: real, window: real)
    requires limit >= 1
  {
    var live := Prune(times, now, window);
    |live| < limit || later - live[|live| - limit] >= window
  }

  predicate Suffices(c: Config, f: Failures, a: Look)
    requires Sane(c)
  {
    var w := RetryWait(c, f, a) as real;
    && Leaves(Times(f, Source(a.user, a.address)), c.perSource, a.now1, Later(a.now1 + w, a.now2), c.window)
    && Leaves(Times(f, User(a.user)), c.perUsername, a.now2, a.now2 + w, c.window)
  }

  lemma LeavesIff(times: seq<real>, limit: int, now: real, later: real, window: real)
    requires limit >= 1 && Sorted(times) && now <= later
    ensures Leaves(times, limit, now, later, window) <==> |Prune(times, later, window)| < limit
  {
    var gone := PruneIsSuffix(times, now, window);
    var live := Prune(times, now, window);
    PruneTwice(times, now, later, window);
    var left := PruneIsSuffix(live, later, window);
    hide Prune;
    if |live| >= limit {
      var i := |live| - limit;
      assert left <= i ==> live[left] <= live[i];
    }
  }

  /** What is over for a key at one moment stays over through any quiet run. */
  lemma QuietStaysOver(c: Config, g: Gate, h: Gate, k: Key, early: real, late: real)
    requires Tallied(g, k, c.window) && Tallied(h, k, c.window)
    requires g.clock <= early <= late && h.clock <= late
    requires g.history <= h.history && Quiet(Since(g, h), k.user)
    requires Limit(c, k) >= 1 && |Prune(Times(g.failures, k), early, c.window)| < Limit(c, k)
    ensures |Prune(Times(h.failures, k), late, c.window)| < Limit(c, k)
  {
    QuietCounts(g.history, Since(g, h), k);
    assert g.history + Since(g, h) == h.history;
    var before, after := CountedFor(g.history, k), CountedFor(h.history, k);
    assert Prune(Times(h.failures, k), late, c.window) == Prune(after, late, c.window);
    assert Prune(Times(g.failures, k), early, c.window) == Prune(before, early, c.window);
    PruneTwice(before, early, late, c.window);
    PruneOrder(Prune(before, early, c.window), late, c.window);
  }

  lemma ReachableTallied(c: Config, g: Gate)
    requires Reachable(c, g)
    ensures AllTallied(c, g)
  {
    var clock, steps :| Runs(c, clock, steps, g);
    RunTallies(c, Start(clock), steps);
  }

  lemma Answers(c: Config, f: Failures, a: Look)
    requires Sane(c)
    ensures RetryAnswer(c, f, a) == Some(0) <==>
              && |Prune(Times(f, Source(a.user, a.address)), a.now1, c.window)| < c.perSource
              && |Prune(Times(f, User(a.user)), a.now2, c.window)| < c.perUsername
    ensures RetryWait(c, f, a) >= 0
  {
    SaneAnswer(c, f, a);
    WaitNotNegative(Times(f, Source(a.user, a.address)), c.perSource, a.now1, c.window);
    WaitNotNegative(Times(f, User(a.user)), c.perUsername, a.now2, c.window);
    hide WaitOf, RetryAnswer;
  }

  lemma SufficesIff(c: Config, g: Gate, a: Look)
    requires Sane(c) && AllTallied(c, g) && Enabled(g, Asks(a))
    ensures var w := RetryWait(c, g.failures, a) as real;
      var source, user := Source(a.user, a.address), User(a.user);
      Suffices(c, g.failures, a) <==>
        && |Prune(Times(g.failures, source), Later(a.now1 + w, a.now2), c.window)| < c.perSource
        && |Prune(Times(g.failures, user), a.now2 + w, c.window)| < c.perUsername
  {
    Answers(c, g.failures, a);
    var w := RetryWait(c, g.failures, a) as real;
    var source, user := Source(a.user, a.address), User(a.user);
    assert Tallied(g, source, c.window) && Tallied(g, user, c.window);
    hide RetryWait, Leaves, Prune;
    LeavesIff(Times(g.failures, source), c.perSource, a.now1, Later(a.now1 + w, a.now2), c.window);
    LeavesIff(Times(g.failures, user), c.perUsername, a.now2, a.now2 + w, c.window);
  }

  lemma OverAtLast(c: Config, g: Gate, a: Look, h: Gate, again: Look)
    requires Sane(c) && AllTallied(c, g) && AllTallied(c, h) && Enabled(g, Asks(a)) && Suffices(c, g.failures, a)
    requires g.history <= h.history && a.now2 <= h.clock && Quiet(Since(g, h), a.user)
    requires Tries(a, RetryWait(c, g.failures, a) as real, h, again)
    ensures RetryAnswer(c, h.failures, again) == Some(0)
  {
    var w := RetryWait(c, g.failures, a) as real;
    var source, user := Source(a.user, a.address), User(a.user);
    Answers(c, g.failures, a);
    SufficesIff(c, g, a);
    Answers(c, h.failures, again);
    assert Tallied(g, source, c.window) && Tallied(g, user, c.window);
    assert Tallied(h, source, c.window) && Tallied(h, user, c.window);
    hide Suffices, RetryAnswer, RetryWait, Prune, Tallied, Quiet, Since;
    QuietStaysOver(c, g, h, source, Later(a.now1 + w, a.now2), again.now1);
    QuietStaysOver(c, g, h, user, a.now2 + w, again.now2);
  }

  lemma WaitKept(c: Config, g: Gate, a: Look, between: seq<Step>, again: Look)
    requires Sane(c) && AllTallied(c, g) && Enabled(g, Asks(a)) && Suffices(c, g.failures, a)
    requires Possible(c, Asked(c, g, a), between)
    requires Tries(a, RetryWait(c, g.failures, a) as real, Run(c, Asked(c, g, a), between), again)
    requires Quiet(Since(g, Run(c, Asked(c, g, a), between)), a.user)
    ensures RetryAnswer(c, Run(c, Asked(c, g, a), between).failures, again) == Some(0)
  {
    hide Suffices, RetryAnswer, RetryWait, AllTallied, Quiet, AfterAsking, Tries;
    StepTalliesAll(c, g, Asks(a));
    RunTallies(c, Asked(c, g, a), between);
    RunExtends(c, Asked(c, g, a), between);
    OverAtLast(c, g, a, Run(c, Asked(c, g, a), between), again);
  }

  /** Waiting and asking again at once, with nothing in between. */
  lemma SoonestTry(c: Config, g: Gate, a: Look)
    requires Sane(c) && AllTallied(c, g) && Enabled(g, Asks(a)) && Promised(c, g, a)
    ensures Suffices(c, g.failures, a)
  {
    var asked, w := Asked(c, g, a), RetryWait(c, g.failures, a) as real;
    var again := Look(a.user, a.address, Later(a.now1 + w, a.now2), a.now2 + w);
    Answers(c, g.failures, a);
    SufficesIff(c, g, a);
    Answers(c, asked.failures, again);
    SameAnswers(c, g.failures, a, again);
    hide RetryWait, RetryAnswer, AfterAsking, Suffices, Prune;
    assert Run(c, asked, []) == asked && Since(g, asked) == [];
    assert Possible(c, asked, []) && Tries(a, w, asked, again);
  }

  lemma SameAnswers(c: Config, f: Failures, a: Look, again: Look)
    requires Sane(c) && again.user == a.user && again.address == a.address
    requires a.now1 <= a.now2 && a.now1 <= again.now1 && a.now2 <= again.now2
    ensures RetryAnswer(c, AfterAsking(c, f, a), again) == Some(0) <==> RetryAnswer(c, f, again) == Some(0)
  {
    var source, user := Source(a.user, a.address), User(a.user);
    Answers(c, f, again);
    Answers(c, AfterAsking(c, f, a), again);
    SaneAnswer(c, f, a);
    hide RetryAnswer, AfterAsking;
    PruneTwice(Times(f, source), a.now1, again.now1, c.window);
    PruneTwice(Times(f, user), a.now2, again.now2, c.window);
  }

  /** Retry-After keeps its word, over every interleaving, exactly when by the end of the wait few
  enough of the failures that count now are left; both are known when the answer is given. */
  lemma RetryAfterIff(c: Config, g: Gate, a: Look)
    requires Sane(c) && Reachable(c, g) && Enabled(g, Asks(a))
    ensures Promised(c, g, a) <==> Suffices(c, g.failures, a)
  {
    ReachableTallied(c, g);
    if Promised(c, g, a) {
      SoonestTry(c, g, a);
    } else {
      hide RetryAnswer, RetryWait, Suffices, AllTallied, Quiet;
      var asked, w := Asked(c, g, a), RetryWait(c, g.failures, a) as real;
      var between, again :| Possible(c, asked, between) && Tries(a, w, Run(c, asked, between), again)
        && Quiet(Since(g, Run(c, asked, between)), a.user)
        && RetryAnswer(c, Run(c, asked, between).failures, again) != Some(0);
      if Suffices(c, g.failures, a) {
        WaitKept(c, g, a, between, again);
      }
    }
  }

  /** With one sign-in of a username in flight at a time no more count than the limit ... */
  lemma LiveAtMost(c: Config, g: Gate, k: Key, now: real)
    requires Sane(c) && Tallied(g, k, c.window) && KeyPaced(c, g, k, 1) && g.clock <= now
    ensures |Prune(Times(g.failures, k), now, c.window)| <= Allowance(c, k)
  {
    var counted := CountedFor(g.history, k);
    assert Prune(Times(g.failures, k), now, c.window) == Prune(counted, now, c.window);
    var n := PruneIsSuffix(counted, now, c.window);
    var i := |counted| - 1 - Allowance(c, k);
    if i >= 0 {
      assert counted[|counted| - 1] - counted[i] >= c.window;
      assert i < n;
    }
  }

  lemma {:induction false} PairInFlight(waiting: seq<Ticket>, user: string, address: string)
    ensures InFlight(waiting, Source(user, address)) <= InFlight(waiting, User(user))
  {
    if waiting != [] {
      PairInFlight(waiting[..|waiting| - 1], user, address);
    }
  }

  lemma {:induction false} PairAtMost(c: Config, g: Gate, steps: seq<Step>, user: string, address: string, n: nat)
    requires Possible(c, g, steps) && AtMost(c, g, steps, User(user), n)
    ensures AtMost(c, g, steps, Source(user, address), n)
    decreases steps
  {
    hide InFlight, Next, Enabled;
    PairInFlight(g.waiting, user, address);
    if steps != [] {
      PairAtMost(c, Next(c, g, steps[0]), steps[1..], user, address, n);
    }
  }

  /** One key whose live failures are at most its limit: the wait is for the oldest of them. */
  lemma OldestLeaves(times: seq<real>, limit: int, now: real, window: real, later: real)
    requires limit >= 1 && |Prune(times, now, window)| <= limit
    requires later >= now + WaitOf(times, limit, now, window) as real
    ensures Leaves(times, limit, now, later, window)
  {
    if WaitOf(times, limit, now, window) != 0 {
      WaitIsTight(times, limit, now, window);
    }
  }

  /** ... and Retry-After keeps its word. */
  lemma RetryAfterIsEnough(c: Config, g: Gate, a: Look)
    requires Sane(c) && Reached(c, g, User(a.user), 1) && Enabled(g, Asks(a))
    ensures Promised(c, g, a)
  {
    var source, user := Source(a.user, a.address), User(a.user);
    var clock, steps :| Runs(c, clock, steps, g) && AtMost(c, Start(clock), steps, user, 1);
    PairAtMost(c, Start(clock), steps, a.user, a.address, 1);
    hide Runs, AtMost, Promised, KeyPaced, Prune, WaitOf, Leaves;
    assert Reachable(c, g) && Reached(c, g, source, 1);
    ReachedPaced(c, g, user, 1);
    ReachedPaced(c, g, source, 1);
    assert Tallied(g, source, c.window) && Tallied(g, user, c.window);
    LiveAtMost(c, g, source, a.now1);
    LiveAtMost(c, g, user, a.now2);
    RetryAfterIff(c, g, a);
    var w := RetryWait(c, g.failures, a) as real;
    OldestLeaves(Times(g.failures, source), c.perSource, a.now1, c.window, Later(a.now1 + w, a.now2));
    OldestLeaves(Times(g.failures, user), c.perUsername, a.now2, c.window, a.now2 + w);
  }

  /** After two overlapping failures it need not: the wait is for the first of them only. */
  lemma WaitTooShort() returns (g: Gate)
    ensures var c, a := Config(1, 1, 900.0), Look("u", "x", 20.0, 20.0);
      && Reachable(c, g) && g.history == [Failure("u", "x", 0.0), Failure("u", "x", 10.0)]
      && Enabled(g, Asks(a)) && RetryWait(c, g.failures, a) == 881 && !Promised(c, g, a)
  {
    var c, a := Config(1, 1, 900.0), Look("u", "x", 0.0, 0.0);
    var t, e1, e2 := Ticket("u", "x"), Ends(0, Wrong, 0.0), Ends(0, Wrong, 10.0);
    var g1, g2 := Gate(map[], [], 0.0, [t]), Gate(map[], [], 0.0, [t, t]);
    AskedOnEmpty(c, Start(0.0), a);
    AskedOnEmpty(c, g1, a);
    var g3 := EndedFirst(c, g2, t, 0.0);
    g := EndedFirst(c, g3, t, 10.0);
    TwoRecorded(c);
    hide Asked, Ended, Recorded;
    RunOne(c, g3, e2, []);
    RunOne(c, g2, e1, [e2]);
    RunOne(c, g1, Asks(a), [e1, e2]);
    RunOne(c, Start(0.0), Asks(a), [Asks(a), e1, e2]);
    assert Runs(c, 0.0, [Asks(a)] + [Asks(a), e1, e2], g);
    hide Runs, Promised;
    RetryAfterIff(c, g, Look("u", "x", 20.0, 20.0));
    TwoLive();
  }

  lemma TwoRecorded(c: Config)
    ensures var f := Recorded(Recorded(map[], "u", "x", 0.0, c.window), "u", "x", 10.0, c.window);
      Times(f, Source("u", "x")) == [0.0, 10.0] && Times(f, User("u")) == [0.0, 10.0]
  {
  }

  lemma TwoLive()
    ensures WaitOf([0.0, 10.0], 1, 20.0, 900.0) == 881 && !Leaves([0.0, 10.0], 1, 20.0, 901.0, 900.0)
  {
  }
}
