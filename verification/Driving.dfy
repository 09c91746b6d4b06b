/** Driving behaviour: ignition spans, driving gaps, idle time and the score. */
module Driving {
  import opened Intervals
  import opened Reports
  import opened Basics

  const SUDDEN_KMH := 50
  const SUDDEN_MAX_GAP := 10 * SECOND
  const NIGHT_START_HOUR := 23
  const NIGHT_END_HOUR := 5
  const IST_OFFSET := 5 * HOUR + 30 * MINUTE
  const MIN_SCORED_DRIVING := 5 * MINUTE
  const MIN_SCORED_DISTANCE_KM := 10.0
  const LONG_IDLE := 15 * MINUTE

  // ---- Ignition ------------------------------------------------------------------------------

  datatype Flip = Flip(at: Instant, on: bool)

  ghost predicate InOrder(flips: seq<Flip>) {
    forall i, j | 0 <= i < j < |flips| :: flips[i].at <= flips[j].at
  }

  /** The state the last flip at or before t left the ignition in; off before the first. */
  ghost predicate IgnitionOn(flips: seq<Flip>, t: Instant) {
    flips != [] &&
    var last := flips[|flips| - 1];
    if last.at <= t then last.on else IgnitionOn(flips[..|flips| - 1], t)
  }

  lemma LaterFlipsDoNotMatter(flips: seq<Flip>, n: nat, t: Instant)
    requires n <= |flips| && forall i | n <= i < |flips| :: flips[i].at > t
    ensures IgnitionOn(flips, t) == IgnitionOn(flips[..n], t)
  {
    if n == |flips| {
      assert flips[..n] == flips;
    } else {
      LaterFlipsDoNotMatter(flips[..|flips| - 1], n, t);
      assert flips[..|flips| - 1][..n] == flips[..n];
    }
  }

  method IgnitionOnSpans(flips: seq<Flip>, since: Instant, until: Instant) returns (r: Option<seq<Interval>>)
    requires InOrder(flips)
    ensures r.None? <==> flips == []
    ensures r.Some? ==> Chain(r.value)
    ensures r.Some? ==> forall iv | iv in r.value :: since <= iv.start < iv.end <= until
    ensures r.Some? ==> forall t | since <= t < until :: t in Covered(r.value) <==> IgnitionOn(flips, t)
  {
    if flips == [] { return None; }
    var spans: seq<Interval> := [];
    var onSince: Option<Instant> := None;
    var i := 0;
    NothingScanned(flips, since, until);
    hide Scanned, InOrder, Covered, Chain, IgnitionOn;
    while i < |flips|
      invariant i <= |flips|
      invariant Scanned(flips, i, since, until, spans, onSince)
    {
      var Flip(at, state) := flips[i];
      if at > until { break; }
      ghost var spans0, on0 := spans, onSince;
      if state && onSince.None? {
        onSince := Some(Max(at, since));
      } else if !state && onSince.Some? {
        if at > onSince.value {
          spans := spans + [Interval(onSince.value, at)];
        }
        onSince := None;
      }
      ScanStep(flips, i, since, until, spans0, on0, spans, onSince);
      i := i + 1;
    }
    ScanEnd(flips, i, since, until, spans, onSince);
    if onSince.Some? && until > onSince.value {
      spans := spans + [Interval(onSince.value, until)];
    }
    r := Some(spans);
  }

  /** t lies in a closed span, or in the one still open. */
  ghost predicate Lit(spans: seq<Interval>, onSince: Option<Instant>, t: Instant) {
    t in Covered(spans) || (onSince.Some? && onSince.value <= t)
  }

  /** What the loop knows after i flips. */
  ghost predicate Scanned(flips: seq<Flip>, i: nat, since: Instant, until: Instant,
                          spans: seq<Interval>, onSince: Option<Instant>)
    requires i <= |flips|
  {
    && Chain(spans)
    && (forall iv | iv in spans :: since <= iv.start < iv.end <= until && i > 0 && iv.end <= flips[i - 1].at)
    && (onSince.Some? ==> i > 0 && since <= onSince.value <= Max(since, flips[i - 1].at))
    && (onSince.Some? ==> forall iv | iv in spans :: iv.end <= onSince.value)
    && (i > 0 ==> flips[i - 1].at <= until)
    && (forall t | since <= t < until :: IgnitionOn(flips[..i], t) == Lit(spans, onSince, t))
  }

  lemma NothingScanned(flips: seq<Flip>, since: Instant, until: Instant)
    ensures Scanned(flips, 0, since, until, [], None)
  {
    assert flips[..0] == [];
  }

  lemma ScanStep(flips: seq<Flip>, i: nat, since: Instant, until: Instant, spans: seq<Interval>,
                 onSince: Option<Instant>, spans': seq<Interval>, onSince': Option<Instant>)
    requires InOrder(flips) && i < |flips| && flips[i].at <= until
    requires Scanned(flips, i, since, until, spans, onSince)
    requires Stepped(flips[i], since, spans, onSince, spans', onSince')
    ensures Scanned(flips, i + 1, since, until, spans', onSince')
  {
    forall t | since <= t < until ensures IgnitionOn(flips[..i + 1], t) == Lit(spans', onSince', t) {
      FlipStep(flips, i, since, spans, onSince, spans', onSince', t);
    }
    hide Lit, IgnitionOn;
  }

  /** The spans once the loop is over: an open one lasts to the end of the window. */
  function Closed(spans: seq<Interval>, onSince: Option<Instant>, until: Instant): seq<Interval> {
    if onSince.Some? && until > onSince.value then spans + [Interval(onSince.value, until)] else spans
  }

  lemma ScanEndAt(flips: seq<Flip>, i: nat, since: Instant, until: Instant,
                  spans: seq<Interval>, onSince: Option<Instant>, t: Instant)
    requires i <= |flips| && (forall j | i <= j < |flips| :: flips[j].at > until)
    requires Scanned(flips, i, since, until, spans, onSince) && since <= t < until
    ensures t in Covered(Closed(spans, onSince, until)) <==> IgnitionOn(flips, t)
  {
    LaterFlipsDoNotMatter(flips, i, t);
    assert IgnitionOn(flips[..i], t) == Lit(spans, onSince, t);
    hide IgnitionOn, Scanned;
    if onSince.Some? {
      CoveredAppend(spans, Interval(onSince.value, until));
    }
    hide Covered;
  }

  lemma ScanEnd(flips: seq<Flip>, i: nat, since: Instant, until: Instant, spans: seq<Interval>,
        onSince: Option<Instant>)
    requires InOrder(flips) && i <= |flips| && (i < |flips| ==> flips[i].at > until)
    requires Scanned(flips, i, since, until, spans, onSince)
    ensures var all := Closed(spans, onSince, until);
      && Chain(all)
      && (forall iv | iv in all :: since <= iv.start < iv.end <= until)
      && (forall t | since <= t < until :: t in Covered(all) <==> IgnitionOn(flips, t))
  {
    forall t | since <= t < until ensures t in Covered(Closed(spans, onSince, until)) <==> IgnitionOn(flips, t) {
      ScanEndAt(flips, i, since, until, spans, onSince, t);
    }
    hide IgnitionOn, Covered, Lit;
  }

  /** What the loop body does with one flip. */
  predicate Stepped(flip: Flip, since: Instant, spans: seq<Interval>, onSince: Option<Instant>,
                    spans': seq<Interval>, onSince': Option<Instant>)
  {
    if flip.on && onSince.None? then spans' == spans && onSince' == Some(Max(flip.at, since))
    else if !flip.on && onSince.Some? then
      onSince' == None
      && spans' == (if flip.at > onSince.value then spans + [Interval(onSince.value, flip.at)] else spans)
    else spans' == spans && onSince' == onSince
  }

  /** One flip changes the spans at an instant just as it changes the state there. */
  lemma FlipStep(flips: seq<Flip>, i: nat, since: Instant, spans: seq<Interval>, onSince: Option<Instant>,
                 spans': seq<Interval>, onSince': Option<Instant>, t: Instant)
    requires InOrder(flips) && i < |flips| && since <= t
    requires forall iv | iv in spans :: i > 0 && iv.end <= flips[i - 1].at
    requires onSince.Some? ==> i > 0 && onSince.value <= Max(since, flips[i - 1].at)
    requires IgnitionOn(flips[..i], t) == Lit(spans, onSince, t)
    requires Stepped(flips[i], since, spans, onSince, spans', onSince')
    ensures IgnitionOn(flips[..i + 1], t) == Lit(spans', onSince', t)
  {
    var Flip(at, state) := flips[i];
    assert flips[..i + 1][..i] == flips[..i];
    if onSince.Some? { CoveredAppend(spans, Interval(onSince.value, at)); }
    if at <= t { CoveredIff(spans, t); }
  }

  // ---- Driving gaps ---------------------------------------------------------------------------

  predicate IsNight(at: Instant) {
    var hour := (at + IST_OFFSET) / HOUR % 24;
    hour >= NIGHT_START_HOUR || hour < NIGHT_END_HOUR
  }

  predicate PlausibleReading(f: Fix) {
    f.speedKmh.Some? && f.gpsFixed != Some(false) && f.speedKmh.value <= MAX_PLAUSIBLE_SPEED_KMH
  }

  predicate Speeding(f: Fix, limit: int) { PlausibleReading(f) && f.Speed() > limit }

  /** The gap fix i opens is driving: it moves, and the next fix is near in time. */
  predicate DrivingGap(route: seq<Fix>, i: nat)
    requires i < |route|
  {
    i + 1 < |route| && route[i].Speed() > 0 && route[i + 1].at - route[i].at <= MAX_RUNNING_GAP
  }

  /** The driving gaps among the first n, those opened by a chosen kind of fix. */
  ghost function Drives(route: seq<Fix>, n: nat, chosen: Fix -> bool): seq<Interval>
    requires n <= |route|
  {
    if n == 0 then []
    else
      Drives(route, n - 1, chosen)
      + (if DrivingGap(route, n - 1) && chosen(route[n - 1]) then [Interval(route[n - 1].at, route[n].at)] else [])
  }

  lemma DrivesChain(route: seq<Fix>, n: nat, chosen: Fix -> bool)
    requires Ordered(route) && n <= |route|
    ensures Chain(Drives(route, n, chosen))
    ensures forall iv | iv in Drives(route, n, chosen) ::
      n > 0 && route[0].at <= iv.start && iv.end <= (if n < |route| then route[n].at else route[n - 1].at)
  {
    if n > 0 {
      DrivesChain(route, n - 1, chosen);
    }
  }

  function Anyone(): Fix -> bool { (f: Fix) => true }
  function AtNight(): Fix -> bool { (f: Fix) => IsNight(f.at) }
  function TooFast(limit: int): Fix -> bool { (f: Fix) => Speeding(f, limit) }

  lemma DrivesStep(route: seq<Fix>, i: nat, chosen: Fix -> bool)
    requires Ordered(route) && i < |route|
    ensures |Covered(Drives(route, i + 1, chosen))| == |Covered(Drives(route, i, chosen))|
      + (if DrivingGap(route, i) && chosen(route[i]) then route[i + 1].at - route[i].at else 0)
  {
    DrivesChain(route, i + 1, chosen);
    var s := Drives(route, i, chosen);
    if DrivingGap(route, i) && chosen(route[i]) {
      ChainGrows(s, Interval(route[i].at, route[i + 1].at));
    } else {
      assert s + [] == s;
    }
  }

  predicate SuddenPair(a: Fix, b: Fix) {
    b.at - a.at <= SUDDEN_MAX_GAP && PlausibleReading(a) && PlausibleReading(b)
  }

  ghost function SuddenCount(route: seq<Fix>, n: nat, sign: int): nat
    requires n <= |route|
  {
    if n < 2 then 0
    else
      var change := sign * (route[n - 1].Speed() - route[n - 2].Speed());
      var sudden := SuddenPair(route[n - 2], route[n - 1]) && change >= SUDDEN_KMH;
      SuddenCount(route, n - 1, sign) + (if sudden then 1 else 0)
  }

  datatype Tally = Tally(driving: int, overspeed: int, night: int, suddenStops: nat, suddenStarts: nat)

  /** The accumulators of the loop over the route, and the list of driving gaps. */
  method Measure(route: seq<Fix>, limit: int) returns (r: Tally, drives: seq<Interval>)
    requires Ordered(route)
    ensures drives == Drives(route, |route|, Anyone()) && Chain(drives)
    ensures r.driving == |Covered(drives)|
    ensures r.overspeed == |Covered(Drives(route, |route|, TooFast(limit)))|
    ensures r.night == |Covered(Drives(route, |route|, AtNight()))|
    ensures r.suddenStops == SuddenCount(route, |route|, -1)
    ensures r.suddenStarts == SuddenCount(route, |route|, 1)
  {
    hide IsNight, PlausibleReading, Covered;
    r, drives := Tally(0, 0, 0, 0, 0), [];
    NothingDriven();
    for i := 0 to |route|
      invariant drives == Drives(route, i, Anyone())
      invariant r.driving == |Covered(drives)|
      invariant r.overspeed == |Covered(Drives(route, i, TooFast(limit)))|
      invariant r.night == |Covered(Drives(route, i, AtNight()))|
      invariant r.suddenStops == SuddenCount(route, i, -1)
      invariant r.suddenStarts == SuddenCount(route, i, 1)
    {
      var fix := route[i];
      DrivesStep(route, i, Anyone());
      DrivesStep(route, i, TooFast(limit));
      DrivesStep(route, i, AtNight());
      if i > 0 && SuddenPair(route[i - 1], fix) {
        var change := fix.Speed() - route[i - 1].Speed();
        if change <= -SUDDEN_KMH {
          r := r.(suddenStops := r.suddenStops + 1);
        } else if change >= SUDDEN_KMH {
          r := r.(suddenStarts := r.suddenStarts + 1);
        }
      }
      if DrivingGap(route, i) {
        var micros := route[i + 1].at - fix.at;
        r := r.(driving := r.driving + micros);
        drives := drives + [Interval(fix.at, route[i + 1].at)];
        if IsNight(fix.at) {
          r := r.(night := r.night + micros);
        }
        if PlausibleReading(fix) && fix.Speed() > limit {
          r := r.(overspeed := r.overspeed + micros);
        }
      }
    }
    DrivesChain(route, |route|, Anyone());
  }

  lemma NothingDriven()
    ensures Covered([]) == {}
    ensures forall route, chosen :: Drives(route, 0, chosen) == []
  {
  }

  // ---- The gaps, instant by instant ------------------------------------------------------------

  /** Fix i is moving and the next one is at most ten minutes away. */
  predicate Moves(route: seq<Fix>, i: int) {
    && 0 <= i < |route| - 1 && route[i].speedKmh.Some? && route[i].speedKmh.value > 0
    && route[i + 1].at - route[i].at <= 600_000_000
  }

  /** Between 23:00 and 05:00 on a clock five and a half hours ahead. */
  predicate Dark(at: Instant) {
    var day := (at + 19_800_000_000) % 86_400_000_000;
    day < 18_000_000_000 || day >= 82_800_000_000
  }

  /** A reading with a lock, above the limit and at most 200. */
  predicate OverLimit(f: Fix, limit: int) {
    f.speedKmh.Some? && f.gpsFixed != Some(false) && limit < f.speedKmh.value <= 200
  }

  /** In a moving gap that a fix of some kind opens. */
  ghost predicate MovingAt(route: seq<Fix>, n: nat, kind: Fix -> bool, t: Instant) {
    exists i :: 0 <= i < n && Moves(route, i) && kind(route[i]) && route[i].at <= t < route[i + 1].at
  }

  /** All such instants. */
  ghost function TimeMoving(route: seq<Fix>, kind: Fix -> bool): set<Instant> {
    if route == [] then {}
    else set t | t in Span(route[0].at, route[|route| - 1].at) && MovingAt(route, |route|, kind, t)
  }

  lemma MovesIsDriving(route: seq<Fix>, i: nat)
    requires i < |route|
    ensures Moves(route, i) <==> DrivingGap(route, i)
  {
  }

  lemma DarkIsNight(at: Instant)
    ensures Dark(at) <==> IsNight(at)
  {
    var x := at + IST_OFFSET;
    var days, day := x / 86_400_000_000, x % 86_400_000_000;
    assert x / HOUR == 24 * days + day / HOUR;
    assert 0 <= day / HOUR < 24;
    assert (24 * days + day / HOUR) % 24 == day / HOUR;
  }

  lemma OverLimitIsSpeeding(f: Fix, limit: int)
    ensures OverLimit(f, limit) <==> Speeding(f, limit)
  {
  }

  lemma MovingAtStep(route: seq<Fix>, n: nat, kind: Fix -> bool, t: Instant)
    requires n < |route|
    ensures MovingAt(route, n + 1, kind, t) <==>
      MovingAt(route, n, kind, t) || (Moves(route, n) && kind(route[n]) && route[n].at <= t < route[n + 1].at)
  {
    hide Moves;
  }

  lemma {:induction false} DrivesIff(route: seq<Fix>, n: nat, chosen: Fix -> bool, t: Instant)
    requires n <= |route|
    ensures t in Covered(Drives(route, n, chosen)) <==> MovingAt(route, n, chosen, t)
  {
    hide Covered, Moves, Drives, MovingAt;
    if n == 0 {
      NothingMoves(route, chosen, t);
    } else {
      DrivesIff(route, n - 1, chosen, t);
      DrivesNext(route, n - 1, chosen, t);
      MovingAtStep(route, n - 1, chosen, t);
    }
  }

  lemma NothingMoves(route: seq<Fix>, chosen: Fix -> bool, t: Instant)
    ensures t !in Covered(Drives(route, 0, chosen)) && !MovingAt(route, 0, chosen, t)
  {
    NothingDriven();
    hide Covered, Moves;
  }

  lemma DrivesNext(route: seq<Fix>, n: nat, chosen: Fix -> bool, t: Instant)
    requires n < |route|
    ensures t in Covered(Drives(route, n + 1, chosen)) <==>
      || t in Covered(Drives(route, n, chosen))
      || (Moves(route, n) && chosen(route[n]) && route[n].at <= t < route[n + 1].at)
  {
    MovesIsDriving(route, n);
    hide Covered, Moves, DrivingGap;
    var before := Drives(route, n, chosen);
    if DrivingGap(route, n) && chosen(route[n]) {
      CoveredAppend(before, Interval(route[n].at, route[n + 1].at));
    } else {
      assert before + [] == before;
    }
  }

  lemma SameKind(route: seq<Fix>, n: nat, a: Fix -> bool, b: Fix -> bool, t: Instant)
    requires forall f :: a(f) <==> b(f)
    ensures MovingAt(route, n, a, t) <==> MovingAt(route, n, b, t)
  {
    if i :| 0 <= i < n && Moves(route, i) && a(route[i]) && route[i].at <= t < route[i + 1].at {
      assert b(route[i]);
    }
    if i :| 0 <= i < n && Moves(route, i) && b(route[i]) && route[i].at <= t < route[i + 1].at {
      assert a(route[i]);
    }
  }

  lemma MovingInside(route: seq<Fix>, kind: Fix -> bool, t: Instant)
    requires Ordered(route) && MovingAt(route, |route|, kind, t)
    ensures route != [] && route[0].at <= t < route[|route| - 1].at
  {
  }

  /** The driving gaps of a kind hold exactly those instants. */
  lemma DrivesExactly(route: seq<Fix>, chosen: Fix -> bool, kind: Fix -> bool)
    requires Ordered(route) && forall f :: chosen(f) <==> kind(f)
    ensures Covered(Drives(route, |route|, chosen)) == TimeMoving(route, kind)
  {
    hide Covered, Drives, Moves, MovingAt, Ordered;
    forall t ensures t in Covered(Drives(route, |route|, chosen)) <==> t in TimeMoving(route, kind) {
      DrivesIff(route, |route|, chosen, t);
      SameKind(route, |route|, chosen, kind, t);
      if MovingAt(route, |route|, kind, t) { MovingInside(route, kind, t); }
    }
  }

  predicate Readable(f: Fix) {
    f.speedKmh.Some? && f.gpsFixed != Some(false) && f.speedKmh.value <= 200
  }

  /** From fix i to the next the speed read changes by fifty or more, up or down, within ten seconds. */
  predicate Jumps(route: seq<Fix>, i: int, sign: int) {
    && 0 <= i < |route| - 1 && Readable(route[i]) && Readable(route[i + 1])
    && route[i + 1].at - route[i].at <= 10_000_000
    && sign * (route[i + 1].speedKmh.value - route[i].speedKmh.value) >= 50
  }

  ghost function JumpsAmong(route: seq<Fix>, n: nat, sign: int): set<int> {
    set i | 0 <= i < n - 1 && Jumps(route, i, sign)
  }

  lemma {:induction false} SuddenExactly(route: seq<Fix>, n: nat, sign: int)
    requires n <= |route|
    ensures SuddenCount(route, n, sign) == |JumpsAmong(route, n, sign)|
  {
    if n < 2 {
      assert JumpsAmong(route, n, sign) == {};
    } else {
      SuddenExactly(route, n - 1, sign);
      JumpIsSudden(route, n - 2, sign);
      hide Jumps, SuddenPair;
      var jump := if Jumps(route, n - 2, sign) then {n - 2} else {};
      assert JumpsAmong(route, n, sign) == JumpsAmong(route, n - 1, sign) + jump;
    }
  }

  lemma JumpIsSudden(route: seq<Fix>, i: nat, sign: int)
    requires i + 1 < |route|
    ensures Jumps(route, i, sign) <==>
      SuddenPair(route[i], route[i + 1]) && sign * (route[i + 1].Speed() - route[i].Speed()) >= SUDDEN_KMH
  {
  }

  // ---- Idle time -------------------------------------------------------------------------------

  /** bisect_right over the starts: how many of them, from the front, are at most x. */
  function BisectRight(drives: seq<Interval>, x: Instant): (k: nat)
    ensures k <= |drives|
  {
    if drives == [] || drives[0].start > x then 0 else 1 + BisectRight(drives[1..], x)
  }

  lemma {:induction false} BisectSplits(drives: seq<Interval>, x: Instant)
    ensures var k := BisectRight(drives, x);
      && (forall i | 0 <= i < k :: drives[i].start <= x)
      && (k < |drives| ==> drives[k].start > x)
  {
    if drives != [] && drives[0].start <= x {
      BisectSplits(drives[1..], x);
      var k := BisectRight(drives[1..], x);
      assert forall i | 1 <= i < 1 + k :: drives[i] == drives[1..][i - 1];
    }
  }

  /** How much of the drives, one by one, falls into a span. */
  function DrivenIn(drives: seq<Interval>, on: Interval): int {
    if drives == [] then 0
    else DrivenIn(drives[..|drives| - 1], on)
         + Overlap(drives[|drives| - 1].start, drives[|drives| - 1].end, on.start, on.end)
  }

  lemma DrivenCounts(drives: seq<Interval>, on: Interval)
    requires Chain(drives)
    ensures DrivenIn(drives, on) == |Covered(drives) * Span(on.start, on.end)|
  {
    if drives != [] {
      var init, last := drives[..|drives| - 1], drives[|drives| - 1];
      assert init + [last] == drives;
      ChainPrefix(drives, |drives| - 1);
      hide Covered, Chain, Overlap;
      DrivenCounts(init, on);
      ChainApart(init, last);
      CoveredAppend(init, last);
      SplitCount(Covered(init), Span(last.start, last.end), Span(on.start, on.end));
      OverlapCounts(last.start, last.end, on.start, on.end);
    } else {
      assert Covered(drives) * Span(on.start, on.end) == {};
    }
  }

  /** Drives that end by the span's start, or begin at its end or later, add nothing. */
  lemma OutsideAddsNothing(drives: seq<Interval>, lo: nat, hi: nat, on: Interval)
    requires lo <= hi <= |drives|
    requires forall i | lo <= i < hi :: drives[i].start >= on.end || drives[i].end <= on.start
    ensures DrivenIn(drives[..hi], on) == DrivenIn(drives[..lo], on)
    decreases hi
  {
    if lo < hi {
      OutsideAddsNothing(drives, lo, hi - 1, on);
      assert drives[..hi][..hi - 1] == drives[..hi - 1];
    }
  }

  lemma EarlyOnes(drives: seq<Interval>, on: Interval)
    requires Chain(drives)
    ensures var first := Max(0, BisectRight(drives, on.start) - 1);
      first <= |drives| && DrivenIn(drives[..first], on) == 0
  {
    BisectSplits(drives, on.start);
    var first := Max(0, BisectRight(drives, on.start) - 1);
    forall i | 0 <= i < first ensures drives[i].end <= on.start {
      assert drives[i].end <= drives[first].start;
    }
    OutsideAddsNothing(drives, 0, first, on);
    assert drives[..0] == [];
  }

  lemma LateOnes(drives: seq<Interval>, on: Interval, i: nat)
    requires Chain(drives) && i <= |drives| && (i < |drives| ==> drives[i].start >= on.end)
    ensures DrivenIn(drives, on) == DrivenIn(drives[..i], on)
  {
    forall j | i <= j < |drives| ensures drives[j].start >= on.end {
      if j > i { assert drives[i].end <= drives[j].start; }
    }
    OutsideAddsNothing(drives, i, |drives|, on);
    assert drives[..|drives|] == drives;
  }

  /** The bisect-and-break loop gives the same sum as looking at every drive. */
  method DrivenDuring(drives: seq<Interval>, on: Interval) returns (driven: int)
    requires Chain(drives)
    ensures driven == DrivenIn(drives, on)
    ensures driven == |Covered(drives) * Span(on.start, on.end)|
  {
    hide Chain, Covered, BisectRight;
    driven := 0;
    var first := Max(0, BisectRight(drives, on.start) - 1);
    EarlyOnes(drives, on);
    var i := first;
    while i < |drives|
      invariant first <= i <= |drives|
      invariant driven == DrivenIn(drives[..i], on)
    {
      if drives[i].start >= on.end { break; }
      driven := driven + Max(0, Min(drives[i].end, on.end) - Max(drives[i].start, on.start));
      assert drives[..i + 1][..i] == drives[..i];
      i := i + 1;
    }
    LateOnes(drives, on, i);
    DrivenCounts(drives, on);
  }

  /** An ignition span worth reporting: when it began and how long the vehicle idled in it. */
  datatype LongIdle = LongIdle(at: Instant, micros: int)

  /** The idle total, and the spans long enough to report. */
  method IdleTime(drives: seq<Interval>, ignitionOn: seq<Interval>) returns (idle: int, longIdles: seq<LongIdle>)
    requires Chain(drives) && Chain(ignitionOn)
    // The clamp on each span never bites: the total is exactly the on-time without a drive.
    ensures idle == |Covered(ignitionOn) - Covered(drives)|
    ensures longIdles == LongIdles(drives, ignitionOn)
  {
    hide Covered, Chain;
    idle, longIdles := 0, [];
    assert ignitionOn[..0] == [] && |Covered([]) - Covered(drives)| == 0 by { NoSpans(drives); }
    for k := 0 to |ignitionOn|
      invariant idle == |Covered(ignitionOn[..k]) - Covered(drives)|
      invariant longIdles == LongIdles(drives, ignitionOn[..k])
    {
      var on := ignitionOn[k];
      var driven := DrivenDuring(drives, on);
      var spanIdle := Max(0, (on.end - on.start) - driven);
      SpanIdle(drives, on);
      assert spanIdle == |Span(on.start, on.end) - Covered(drives)|;
      IdleGrows(drives, ignitionOn, k);
      assert ignitionOn[..k + 1][..k] == ignitionOn[..k];
      idle := idle + spanIdle;
      if spanIdle >= LONG_IDLE {
        longIdles := longIdles + [LongIdle(on.start, spanIdle)];
      }
    }
    assert ignitionOn[..|ignitionOn|] == ignitionOn;
  }

  /** The ignition spans with a quarter of an hour or more of idling in them, and how much. */
  ghost function LongIdles(drives: seq<Interval>, ignitionOn: seq<Interval>): seq<LongIdle> {
    if ignitionOn == [] then []
    else
      var on := ignitionOn[|ignitionOn| - 1];
      var idle := |Span(on.start, on.end) - Covered(drives)|;
      LongIdles(drives, ignitionOn[..|ignitionOn| - 1]) + (if idle >= LONG_IDLE then [LongIdle(on.start, idle)] else [])
  }

  lemma NoSpans(drives: seq<Interval>)
    ensures |Covered([]) - Covered(drives)| == 0
  {
    assert Covered([]) - Covered(drives) == {};
  }

  lemma SpanIdle(drives: seq<Interval>, on: Interval)
    ensures |Span(on.start, on.end)|
         == |Covered(drives) * Span(on.start, on.end)| + |Span(on.start, on.end) - Covered(drives)|
  {
    var a, b := Span(on.start, on.end), Covered(drives);
    assert a == b * a + (a - b);
    assert b * a !! (a - b);
  }

  lemma IdleGrows(drives: seq<Interval>, ignitionOn: seq<Interval>, k: nat)
    requires Chain(ignitionOn) && k < |ignitionOn|
    ensures |Covered(ignitionOn[..k + 1]) - Covered(drives)|
         == |Covered(ignitionOn[..k]) - Covered(drives)|
            + |Span(ignitionOn[k].start, ignitionOn[k].end) - Covered(drives)|
  {
    var a, on := ignitionOn[..k], ignitionOn[k];
    assert ignitionOn[..k + 1] == a + [on];
    ChainPrefix(ignitionOn, k + 1);
    hide Covered, Chain;
    CoveredAppend(a, on);
    ChainApart(a, on);
    SplitRest(Covered(a), Span(on.start, on.end), Covered(drives));
  }

  lemma SplitRest(a: set<Instant>, s: set<Instant>, d: set<Instant>)
    requires a !! s
    ensures |(a + s) - d| == |a - d| + |s - d|
  {
    assert (a + s) - d == (a - d) + (s - d);
    assert (a - d) !! (s - d);
  }

  // ---- The score ---------------------------------------------------------------------------------

  function MinReal(a: real, b: real): real { if a < b then a else b }
  function MaxReal(a: real, b: real): real { if a < b then b else a }

  /** round(): to the nearest integer, halves to the even one. */
  function Round(x: real): int {
    var f := x.Floor;
    var frac := x - f as real;
    if frac < 0.5 then f else if frac > 0.5 then f + 1 else if f % 2 == 0 then f else f + 1
  }

  function Penalty(t: Tally, km: real, idle: Option<int>): real
    requires t.driving > 0
    requires idle.Some? ==> idle.value >= 0
  {
    var driving := t.driving as real;
    var per100km := (t.suddenStops + t.suddenStarts) as real / MaxReal(km, MIN_SCORED_DISTANCE_KM) * 100.0;
    MinReal(40.0, t.overspeed as real / driving * 200.0)
    + MinReal(20.0, per100km * 2.5)
    + MinReal(15.0, t.night as real / driving * 30.0)
    + (if idle.Some? && idle.value > 0
       then MinReal(15.0, idle.value as real / (idle.value as real + driving) * 30.0) else 0.0)
  }

  function Score(t: Tally, km: real, idle: Option<int>): (score: Option<int>)
    requires idle.Some? ==> idle.value >= 0
    ensures score.Some? <==> t.driving >= MIN_SCORED_DRIVING
  {
    if t.driving < MIN_SCORED_DRIVING then None
    else Some(Max(0, Round(100.0 - Penalty(t, km, idle))))
  }

  lemma ShareIsPositive(part: real, whole: real, weight: real)
    requires part >= 0.0 && whole > 0.0 && weight >= 0.0
    ensures part / whole * weight >= 0.0
  {
  }

  /** A share in percent of a whole, so many points a percent, at most so many. */
  predicate Charged(points: real, part: real, whole: real, weight: real, cap: real) {
    if part * weight >= cap * whole then points == cap else points * whole == part * weight
  }

  lemma Product(a: real, b: real, whole: real)
    requires whole > 0.0
    ensures a < b <==> a * whole < b * whole
  {
  }

  lemma ChargedExactly(part: real, whole: real, weight: real, cap: real)
    requires whole > 0.0
    ensures Charged(MinReal(cap, part / whole * weight), part, whole, weight, cap)
  {
    var p := part / whole * weight;
    assert p * whole == part * weight;
    Product(cap, p, whole);
    Product(p, cap, whole);
  }

  /** The four charges. */
  ghost predicate Charges(t: Tally, km: real, idle: Option<int>, over: real, sudden: real, night: real, still: real) {
    && Charged(over, t.overspeed as real, t.driving as real, 200.0, 40.0)
    && Charged(sudden, (t.suddenStops + t.suddenStarts) as real, if km < 10.0 then 10.0 else km, 250.0, 20.0)
    && Charged(night, t.night as real, t.driving as real, 30.0, 15.0)
    && (if idle.None? || idle.value == 0 then still == 0.0
        else Charged(still, idle.value as real, (idle.value + t.driving) as real, 30.0, 15.0))
  }

  lemma PenaltyCharges(t: Tally, km: real, idle: Option<int>)
      returns (over: real, sudden: real, night: real, still: real)
    requires t.driving > 0 && (idle.Some? ==> idle.value >= 0)
    ensures Charges(t, km, idle, over, sudden, night, still)
    ensures Penalty(t, km, idle) == over + sudden + night + still
  {
    var driving, n := t.driving as real, (t.suddenStops + t.suddenStarts) as real;
    var distance := MaxReal(km, MIN_SCORED_DISTANCE_KM);
    over := MinReal(40.0, t.overspeed as real / driving * 200.0);
    sudden := MinReal(20.0, n / distance * 250.0);
    night := MinReal(15.0, t.night as real / driving * 30.0);
    still := if idle.Some? && idle.value > 0
             then MinReal(15.0, idle.value as real / (idle.value as real + driving) * 30.0) else 0.0;
    ChargedExactly(t.overspeed as real, driving, 200.0, 40.0);
    ChargedExactly(n, distance, 250.0, 20.0);
    ChargedExactly(t.night as real, driving, 30.0, 15.0);
    if idle.Some? && idle.value > 0 {
      ChargedExactly(idle.value as real, idle.value as real + driving, 30.0, 15.0);
    }
    hide Charged, MinReal;
    assert n / distance * 100.0 * 2.5 == n / distance * 250.0 by { PerHundred(n / distance); }
  }

  lemma PerHundred(x: real)
    ensures x * 100.0 * 2.5 == x * 250.0
  {
  }

  /** The score, charge by charge: two points for each percent of the driving time over the limit, at
  most 40; two and a half for each sudden change per 100 km, at most 20; three tenths for each
  percent of driving at night, and of engine-on time spent idling, at most 15 each; rounded to
  the nearest integer, halves to the even one. */
  lemma ScoreExactly(t: Tally, km: real, idle: Option<int>) returns (over: real, sudden: real, night: real, still: real)
    requires t.driving >= 300_000_000 && t.overspeed >= 0 && t.night >= 0
    requires idle.Some? ==> idle.value >= 0
    ensures Charges(t, km, idle, over, sudden, night, still) && Score(t, km, idle).Some?
    ensures var exact, score := 100.0 - (over + sudden + night + still), Score(t, km, idle).value;
      && -0.5 <= score as real - exact <= 0.5
      && (score as real - exact == 0.5 || score as real - exact == -0.5 ==> score % 2 == 0)
  {
    over, sudden, night, still := PenaltyCharges(t, km, idle);
    ScoreRange(t, km, idle);
    RoundNearest(100.0 - Penalty(t, km, idle));
    hide Charges, Penalty, Round;
  }

  lemma RoundNearest(x: real)
    ensures -0.5 <= Round(x) as real - x <= 0.5
    ensures Round(x) as real - x == 0.5 || Round(x) as real - x == -0.5 ==> Round(x) % 2 == 0
  {
  }

  /** The four caps add up to 90, so the clamp at zero never bites: a score is 10 to 100. */
  lemma ScoreRange(t: Tally, km: real, idle: Option<int>)
    requires t.driving >= MIN_SCORED_DRIVING && t.overspeed >= 0 && t.night >= 0
    requires idle.Some? ==> idle.value >= 0
    ensures Score(t, km, idle).Some? && 10 <= Score(t, km, idle).value <= 100
    ensures Score(t, km, idle).value == Round(100.0 - Penalty(t, km, idle))
  {
    var driving := t.driving as real;
    var sudden := (t.suddenStops + t.suddenStarts) as real;
    var distance := MaxReal(km, MIN_SCORED_DISTANCE_KM);
    ShareIsPositive(t.overspeed as real, driving, 200.0);
    ShareIsPositive(sudden, distance, 100.0);
    ShareIsPositive(t.night as real, driving, 30.0);
    if idle.Some? {
      ShareIsPositive(idle.value as real, idle.value as real + driving, 30.0);
    }
    var p := Penalty(t, km, idle);
    assert 0.0 <= p <= 90.0;
    RoundWithin(100.0 - p, 10, 100);
  }

  lemma RoundWithin(x: real, lo: int, hi: int)
    requires lo as real <= x <= hi as real
    ensures lo <= Round(x) <= hi
  {
  }
}
