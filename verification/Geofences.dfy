/** The geofence report: visits per (geofence, vehicle), and the fleet's time inside and out. */
module Geofences {
  import opened Intervals
  import opened Basics

  datatype Crossing = Crossing(id: int, fence: int, device: string, enter: bool, at: Instant, alerted: bool)
  datatype Pair = Pair(fence: int, device: string)

  // ---- Union of intervals --------------------------------------------------------------------

  function IntervalKey(): Interval -> Key { (iv: Interval) => Key(iv.start, iv.end) }

  /** However the intervals overlap, touch or repeat, each instant is counted once. */
  method UnionSeconds(intervals: seq<Interval>) returns (total: int)
    requires forall iv | iv in intervals :: iv.start <= iv.end
    ensures total == |Covered(intervals)|
  {
    hide Covered, Swept, SortedBy, Sort, Span;
    var s := Sort(intervals, IntervalKey());
    SortedIntervals(intervals);
    total := 0;
    var current: Option<Interval> := None;
    ghost var closed: set<Instant> := {};
    for i := 0 to |s|
      invariant current.None? <==> i == 0
      invariant current.None? ==> total == 0 && closed == {}
      invariant current.Some? ==> Swept(s, i, closed, current.value, total)
    {
      var iv := s[i];
      if current.None? || iv.start > current.value.end {
        if current.Some? {
          SweepOn(s, i, closed, current.value, total);
          total := total + (current.value.end - current.value.start);
          closed := closed + Span(current.value.start, current.value.end);
        } else {
          SweepFirst(s);
        }
        current := Some(iv);
      } else if iv.end > current.value.end {
        SweepInto(s, i, closed, current.value, total);
        current := Some(Interval(current.value.start, iv.end));
      } else {
        SweepInto(s, i, closed, current.value, total);
        assert current.value == Interval(current.value.start, Max(current.value.end, iv.end));
      }
    }
    if current.Some? {
      SweepEnd(s, closed, current.value, total);
      total := total + (current.value.end - current.value.start);
    } else {
      NothingCovered();
    }
  }

  lemma SortedIntervals(intervals: seq<Interval>)
    requires forall iv | iv in intervals :: iv.start <= iv.end
    ensures var s := Sort(intervals, IntervalKey());
      SortedBy(s, IntervalKey()) && Covered(s) == Covered(intervals)
            && forall i | 0 <= i < |s| :: s[i].start <= s[i].end
  {
    Sorts(intervals, IntervalKey());
    CoveredPermutes(Sort(intervals, IntervalKey()), intervals);
    hide Covered, Sort;
    forall i | 0 <= i < |Sort(intervals, IntervalKey())|
      ensures Sort(intervals, IntervalKey())[i].start <= Sort(intervals, IntervalKey())[i].end
    {
      assert Sort(intervals, IntervalKey())[i] in intervals;
    }
  }

  /** After i sorted intervals: what is closed lies before the current stretch c, and together
  they are everything covered. */
  ghost predicate Swept(s: seq<Interval>, i: nat, closed: set<Instant>, c: Interval, total: int)
    requires 0 < i <= |s|
  {
    && |closed| == total
    && c.start <= s[i - 1].start && c.start <= c.end
    && (forall t | t in closed :: t < c.start)
    && Covered(s[..i]) == closed + Span(c.start, c.end)
  }

  lemma SweepFirst(s: seq<Interval>)
    requires s != [] && s[0].start <= s[0].end
    ensures Swept(s, 1, {}, s[0], 0)
  {
    assert s[..1] == [] + [s[0]];
    CoveredAppend([], s[0]);
    NothingCovered();
  }

  /** An interval beyond the current stretch closes it. */
  lemma SweepOn(s: seq<Interval>, i: nat, closed: set<Instant>, c: Interval, total: int)
    requires 0 < i < |s| && s[i].start <= s[i].end && s[i].start > c.end
    requires Swept(s, i, closed, c, total)
    ensures Swept(s, i + 1, closed + Span(c.start, c.end), s[i], total + (c.end - c.start))
  {
    assert s[..i + 1] == s[..i] + [s[i]];
    CoveredAppend(s[..i], s[i]);
    hide Covered;
    CloseStretch(closed, c, s[i]);
  }

  /** One that begins within it can only prolong it. */
  lemma SweepInto(s: seq<Interval>, i: nat, closed: set<Instant>, c: Interval, total: int)
    requires SortedBy(s, IntervalKey())
    requires 0 < i < |s| && s[i].start <= s[i].end && s[i].start <= c.end
    requires Swept(s, i, closed, c, total)
    ensures Swept(s, i + 1, closed, Interval(c.start, Max(c.end, s[i].end)), total)
  {
    assert Before(IntervalKey()(s[i - 1]), IntervalKey()(s[i]));
    hide SortedBy;
    assert s[..i + 1] == s[..i] + [s[i]];
    CoveredAppend(s[..i], s[i]);
    hide Covered;
    JoinStretch(c, s[i]);
    UnionAssociates(closed, Span(c.start, c.end), Span(s[i].start, s[i].end), Span(c.start, Max(c.end, s[i].end)));
  }

  lemma CloseStretch(closed: set<Instant>, c: Interval, iv: Interval)
    requires c.start <= c.end < iv.start && forall t | t in closed :: t < c.start
    ensures |closed + Span(c.start, c.end)| == |closed| + (c.end - c.start)
    ensures forall t | t in closed + Span(c.start, c.end) :: t < iv.start
  {
    DisjointCount(closed, Span(c.start, c.end));
  }

  lemma JoinStretch(c: Interval, iv: Interval)
    requires c.start <= iv.start <= c.end && iv.start <= iv.end
    ensures Span(c.start, c.end) + Span(iv.start, iv.end) == Span(c.start, Max(c.end, iv.end))
  {
  }

  lemma SweepEnd(s: seq<Interval>, closed: set<Instant>, c: Interval, total: int)
    requires s != [] && Swept(s, |s|, closed, c, total)
    ensures |Covered(s)| == total + (c.end - c.start)
  {
    assert s[..|s|] == s;
    hide Covered;
    DisjointCount(closed, Span(c.start, c.end));
  }

  lemma NothingCovered()
    ensures Covered([]) == {}
  {
  }

  // ---- One vehicle and one geofence -------------------------------------------------------------

  /** Where the last crossing at or before t left the vehicle. */
  ghost predicate InsideAt(crossings: seq<Crossing>, known: bool, t: Instant) {
    if crossings == [] then known
    else
      var last := crossings[|crossings| - 1];
      if last.at <= t then last.enter else InsideAt(crossings[..|crossings| - 1], known, t)
  }

  ghost predicate InTime(crossings: seq<Crossing>, since: Instant) {
    && (forall c | c in crossings :: since <= c.at)
    && (forall i, j | 0 <= i < j < |crossings| :: crossings[i].at <= crossings[j].at)
  }

  /** The visits so far and the start of the one still open. */
  datatype Visits = Visits(intervals: seq<Interval>, open: Option<Instant>)

  function Cross(v: Visits, c: Crossing, end: Instant): Visits {
    var at := Min(c.at, end);
    if c.enter then (if v.open.None? then v.(open := Some(at)) else v)
    else if v.open.Some? then Visits(v.intervals + [Interval(v.open.value, at)], None)
    else v
  }

  function Walk(crossings: seq<Crossing>, known: bool, since: Instant, end: Instant): Visits {
    if crossings == [] then Visits([], if known then Some(since) else None)
    else Cross(Walk(crossings[..|crossings| - 1], known, since, end), crossings[|crossings| - 1], end)
  }

  function Finish(v: Visits, end: Instant): seq<Interval> {
    if v.open.Some? && end > v.open.value then v.intervals + [Interval(v.open.value, end)] else v.intervals
  }

  function VisitsOf(crossings: seq<Crossing>, known: bool, since: Instant, end: Instant): seq<Interval> {
    Finish(Walk(crossings, known, since, end), end)
  }

  ghost predicate Present(v: Visits, t: Instant) {
    t in Covered(v.intervals) || (v.open.Some? && v.open.value <= t)
  }

  ghost predicate Tidy(v: Visits, since: Instant, upTo: Instant) {
    && Chain(v.intervals)
    && (forall iv | iv in v.intervals :: since <= iv.start && iv.end <= upTo)
    && (v.open.Some? ==> since <= v.open.value <= upTo)
    && (v.open.Some? ==> forall iv | iv in v.intervals :: iv.end <= v.open.value)
  }

  function Reached(crossings: seq<Crossing>, since: Instant, end: Instant): Instant {
    if crossings == [] then since else Min(crossings[|crossings| - 1].at, end)
  }

  lemma CrossTidy(v: Visits, c: Crossing, since: Instant, upTo: Instant, end: Instant)
    requires Tidy(v, since, upTo) && since <= upTo <= Min(c.at, end)
    ensures Tidy(Cross(v, c, end), since, Min(c.at, end))
  {
  }

  lemma CrossPresent(v: Visits, c: Crossing, since: Instant, upTo: Instant, end: Instant, t: Instant)
    requires Tidy(v, since, upTo) && upTo <= Min(c.at, end) && since <= t < end
    ensures Present(Cross(v, c, end), t) == if c.at <= t then c.enter else Present(v, t)
  {
    CoveredIff(v.intervals, t);
    if v.open.Some? { CoveredAppend(v.intervals, Interval(v.open.value, Min(c.at, end))); }
    hide Covered;
  }

  lemma {:induction false} WalkPresent(crossings: seq<Crossing>, known: bool, since: Instant, end: Instant, t: Instant)
    requires InTime(crossings, since) && since <= t < end
    ensures Present(Walk(crossings, known, since, end), t) == InsideAt(crossings, known, t)
  {
    if crossings == [] {
      NothingCovered();
    } else {
      var init, c := crossings[..|crossings| - 1], crossings[|crossings| - 1];
      WalkPresent(init, known, since, end, t);
      WalkTidy(init, known, since, end);
      CrossPresent(Walk(init, known, since, end), c, since, Reached(init, since, end), end, t);
    }
  }

  lemma {:induction false} WalkTidy(crossings: seq<Crossing>, known: bool, since: Instant, end: Instant)
    requires InTime(crossings, since) && since <= end
    ensures Tidy(Walk(crossings, known, since, end), since, Reached(crossings, since, end))
    ensures since <= Reached(crossings, since, end) <= end
  {
    if crossings != [] {
      var init, c := crossings[..|crossings| - 1], crossings[|crossings| - 1];
      WalkTidy(init, known, since, end);
      assert c in crossings;
      assert init != [] ==> init[|init| - 1].at <= c.at;
      CrossTidy(Walk(init, known, since, end), c, since, Reached(init, since, end), end);
    }
  }

  /** The visits are ordered, disjoint and inside the window. */
  lemma VisitsTidy(crossings: seq<Crossing>, known: bool, since: Instant, end: Instant)
    requires InTime(crossings, since) && since <= end
    ensures var ivs := VisitsOf(crossings, known, since, end);
      Chain(ivs) && forall iv | iv in ivs :: since <= iv.start <= iv.end <= end
  {
    WalkTidy(crossings, known, since, end);
    hide Walk;
    var v := Walk(crossings, known, since, end);
    forall iv | iv in v.intervals ensures since <= iv.start <= iv.end <= end {
      var k :| 0 <= k < |v.intervals| && v.intervals[k] == iv;
    }
  }

  /** They cover an instant exactly when the last crossing at or before it left the vehicle
  inside: the loop refines the pointwise state machine. */
  lemma VisitsRefine(crossings: seq<Crossing>, known: bool, since: Instant, end: Instant, t: Instant)
    requires InTime(crossings, since) && since <= t < end
    ensures t in Covered(VisitsOf(crossings, known, since, end)) <==> InsideAt(crossings, known, t)
  {
    WalkPresent(crossings, known, since, end, t);
    hide Walk, InsideAt;
    var v := Walk(crossings, known, since, end);
    if v.open.Some? && end > v.open.value {
      CoveredAppend(v.intervals, Interval(v.open.value, end));
    }
    hide Covered;
  }

  function LengthSum(s: seq<Interval>): int {
    if s == [] then 0 else LengthSum(s[..|s| - 1]) + (s[|s| - 1].end - s[|s| - 1].start)
  }

  /** Adding up the visits of a chain counts instants. */
  lemma LengthSumCounts(s: seq<Interval>)
    requires Chain(s)
    ensures LengthSum(s) == |Covered(s)|
  {
    if s != [] {
      var init, last := s[..|s| - 1], s[|s| - 1];
      assert init + [last] == s;
      ChainPrefix(s, |s| - 1);
      hide Covered, Chain;
      ChainGrows(init, last);
      LengthSumCounts(init);
    }
  }

  datatype Vehicle = Vehicle(entries: nat, exits: nat, inside: int, outside: int, lastEventAt: Option<Instant>,
        intervals: seq<Interval>)

  function Count(crossings: seq<Crossing>, p: Crossing -> bool): nat {
    if crossings == [] then 0
    else Count(crossings[..|crossings| - 1], p) + (if p(crossings[|crossings| - 1]) then 1 else 0)
  }

  function Entering(): Crossing -> bool { (c: Crossing) => c.enter }
  function Leaving(): Crossing -> bool { (c: Crossing) => !c.enter }
  function Alerting(): Crossing -> bool { (c: Crossing) => c.alerted }

  function CrossingKey(): Crossing -> Key { (c: Crossing) => Key(c.at, c.id) }

  /** What the report says of one vehicle and one geofence: a function of its sorted
  crossings and of whether it was inside before them. */
  ghost function VehicleOf(crossings: seq<Crossing>, known: bool, since: Instant, end: Instant): Vehicle {
    var ivs := VisitsOf(crossings, known, since, end);
    Vehicle(Count(crossings, Entering()), Count(crossings, Leaving()), |Covered(ivs)|, (end - since) - |Covered(ivs)|,
            if crossings == [] then None else Some(crossings[|crossings| - 1].at), ivs)
  }

  /** The inner loop of summarize_geofences. The clamp on the outside time never bites. */
  method SummarizePair(crossings: seq<Crossing>, known: bool, since: Instant, end: Instant)
    returns (v: Vehicle, alerts: nat)
    requires InTime(crossings, since) && since <= end
    ensures v == VehicleOf(crossings, known, since, end)
    ensures v.inside >= 0 && v.outside >= 0 && v.inside + v.outside == end - since
    ensures alerts == Count(crossings, Alerting())
  {
    v, alerts := FollowCrossings(crossings, known, since, end);
    hide Covered, VisitsOf, Count;
    VisitsTidy(crossings, known, since, end);
    LengthSumCounts(v.intervals);
    InsideFits(v.intervals, since, end);
    v := v.(inside := LengthSum(v.intervals));
    v := v.(outside := Max(0, (end - since) - v.inside));
  }

  lemma InsideFits(s: seq<Interval>, since: Instant, end: Instant)
    requires since <= end && forall iv | iv in s :: since <= iv.start && iv.end <= end
    ensures |Covered(s)| <= end - since
  {
    CoveredWithin(s, since, end);
    Smaller(Covered(s), Span(since, end));
  }

  /** The loop over one pair's crossings. */
  method FollowCrossings(crossings: seq<Crossing>, known: bool, since: Instant, end: Instant)
    returns (v: Vehicle, alerts: nat)
    ensures alerts == Count(crossings, Alerting())
    ensures v == Vehicle(Count(crossings, Entering()), Count(crossings, Leaving()), 0, 0,
                         if crossings == [] then None else Some(crossings[|crossings| - 1].at),
                         VisitsOf(crossings, known, since, end))
  {
    hide Walk, Count;
    v := Vehicle(0, 0, 0, 0, None, []);
    alerts := 0;
    var insideSince := if known then Some(since) else None;
    NothingCrossed(known, since, end);
    assert crossings[..0] == [];
    for i := 0 to |crossings|
      invariant Visits(v.intervals, insideSince) == Walk(crossings[..i], known, since, end)
      invariant v.entries == Count(crossings[..i], Entering()) && v.exits == Count(crossings[..i], Leaving())
      invariant alerts == Count(crossings[..i], Alerting()) && v.inside == v.outside == 0
      invariant v.lastEventAt == if i == 0 then None else Some(crossings[i - 1].at)
    {
      var event := crossings[i];
      OneMore(crossings, i, known, since, end);
      var at := Min(event.at, end);
      if event.enter {
        v := v.(entries := v.entries + 1);
        if insideSince.None? { insideSince := Some(at); }
      } else {
        v := v.(exits := v.exits + 1);
        if insideSince.Some? {
          v := v.(intervals := v.intervals + [Interval(insideSince.value, at)]);
          insideSince := None;
        }
      }
      if event.alerted { alerts := alerts + 1; }
      v := v.(lastEventAt := Some(event.at));
    }
    assert crossings[..|crossings|] == crossings;
    if insideSince.Some? && end > insideSince.value {
      v := v.(intervals := v.intervals + [Interval(insideSince.value, end)]);
    }
  }

  lemma NothingCrossed(known: bool, since: Instant, end: Instant)
    ensures Walk([], known, since, end) == Visits([], if known then Some(since) else None)
    ensures forall p :: Count([], p) == 0
  {
  }

  lemma OneMore(crossings: seq<Crossing>, i: nat, known: bool, since: Instant, end: Instant)
    requires i < |crossings|
    ensures Walk(crossings[..i + 1], known, since, end)
         == Cross(Walk(crossings[..i], known, since, end), crossings[i], end)
    ensures forall p :: Count(crossings[..i + 1], p) == Count(crossings[..i], p) + (if p(crossings[i]) then 1 else 0)
  {
    assert crossings[..i + 1][..i] == crossings[..i];
  }

  lemma Smaller(a: set<Instant>, b: set<Instant>)
    requires a <= b
    ensures |a| <= |b|
  {
    assert b == a + (b - a);
  }

  // ---- The whole report --------------------------------------------------------------------------

  predicate Matches(c: Crossing, p: Pair, since: Instant, until: Instant) {
    c.fence == p.fence && c.device == p.device && since <= c.at <= until
  }

  /** The pair's crossings in the window, in the order they were given. */
  function EventsOf(events: seq<Crossing>, p: Pair, since: Instant, until: Instant): seq<Crossing> {
    if events == [] then []
    else
      EventsOf(events[..|events| - 1], p, since, until)
      + (if Matches(events[|events| - 1], p, since, until) then [events[|events| - 1]] else [])
  }

  function SortedEventsOf(events: seq<Crossing>, p: Pair, since: Instant, until: Instant): seq<Crossing> {
    Sort(EventsOf(events, p, since, until), CrossingKey())
  }

  lemma {:induction false} EventsOfMembers(events: seq<Crossing>, p: Pair, since: Instant, until: Instant)
    ensures forall c :: c in EventsOf(events, p, since, until) <==> c in events && Matches(c, p, since, until)
  {
    if events != [] {
      EventsOfMembers(events[..|events| - 1], p, since, until);
      assert forall c :: c in events <==> c in events[..|events| - 1] || c == events[|events| - 1];
    }
  }

  lemma SortedInTime(events: seq<Crossing>, p: Pair, since: Instant, until: Instant)
    ensures InTime(SortedEventsOf(events, p, since, until), since)
  {
    EventsOfMembers(events, p, since, until);
    Sorts(EventsOf(events, p, since, until), CrossingKey());
    var s := SortedEventsOf(events, p, since, until);
    forall i, j | 0 <= i < j < |s| ensures s[i].at <= s[j].at {
      assert Before(CrossingKey()(s[i]), CrossingKey()(s[j]));
    }
  }

  /** The pair's last crossing before the window, as handed over: the last one listed. */
  function InsideAtStart(prior: seq<Crossing>, p: Pair, since: Instant): Option<bool> {
    if prior == [] then None
    else
      var c := prior[|prior| - 1];
      if c.fence == p.fence && c.device == p.device && c.at < since then Some(c.enter)
      else InsideAtStart(prior[..|prior| - 1], p, since)
  }

  /** Inside when the window opens: the prior crossing says, else the first crossing does. */
  function Known(events: seq<Crossing>, prior: seq<Crossing>, p: Pair, since: Instant, until: Instant): bool {
    var s := SortedEventsOf(events, p, since, until);
    match InsideAtStart(prior, p, since)
    case Some(inside) => inside
    case None => s != [] && !s[0].enter
  }

  predicate PriorEnter(c: Crossing, p: Pair, since: Instant) {
    c.fence == p.fence && c.device == p.device && c.at < since && c.enter
  }

  /** The pairs the report lists. */
  predicate Listed(fences: set<int>, events: seq<Crossing>, prior: seq<Crossing>, p: Pair, since: Instant,
        until: Instant) {
    p.fence in fences
    && (EventsOf(events, p, since, until) != [] || exists c | c in prior :: PriorEnter(c, p, since))
  }

  ghost function ExpectedVehicle(events: seq<Crossing>, prior: seq<Crossing>, p: Pair, since: Instant,
        until: Instant, end: Instant): Vehicle {
    VehicleOf(SortedEventsOf(events, p, since, until), Known(events, prior, p, since, until), since, end)
  }

  datatype FenceTotals = FenceTotals(entries: nat, exits: nat, alerts: nat)
  datatype ReportTime = ReportTime(window: int, inside: int, outside: int)

  /** Events of a fence in the window whose pair is among those done. */
  ghost function CountIn(events: seq<Crossing>, fence: int, done: set<Pair>, since: Instant, until: Instant,
        p: Crossing -> bool): nat {
    if events == [] then 0
    else
      var c := events[|events| - 1];
      CountIn(events[..|events| - 1], fence, done, since, until, p)
      + (if c.fence == fence && since <= c.at <= until && Pair(fence, c.device) in done && p(c) then 1 else 0)
  }

  lemma CountAppend(a: seq<Crossing>, c: Crossing, p: Crossing -> bool)
    ensures Count(a + [c], p) == Count(a, p) + (if p(c) then 1 else 0)
  {
    assert (a + [c])[..|a|] == a;
  }

  lemma {:induction false} CountInGrows(events: seq<Crossing>, fence: int, done: set<Pair>, pair: Pair,
        since: Instant, until: Instant, p: Crossing -> bool)
    requires pair !in done
    ensures CountIn(events, fence, done + {pair}, since, until, p)
         == CountIn(events, fence, done, since, until, p)
            + (if pair.fence == fence then Count(EventsOf(events, pair, since, until), p) else 0)
  {
    if events != [] {
      var init, c := events[..|events| - 1], events[|events| - 1];
      CountInGrows(init, fence, done, pair, since, until, p);
      CountAppend(EventsOf(init, pair, since, until), c, p);
      assert EventsOf(init, pair, since, until) + [] == EventsOf(init, pair, since, until);
    }
  }

  lemma CountConcat(a: seq<Crossing>, b: seq<Crossing>, p: Crossing -> bool)
    ensures Count(a + b, p) == Count(a, p) + Count(b, p)
  {
    if b == [] {
      assert a + b == a;
    } else {
      assert (a + b)[..|a + b| - 1] == a + b[..|b| - 1];
      CountConcat(a, b[..|b| - 1], p);
    }
  }

  lemma CountInsert(x: Crossing, s: seq<Crossing>, key: Crossing -> Key, p: Crossing -> bool)
    ensures Count(Insert(x, s, key), p) == Count(s, p) + (if p(x) then 1 else 0)
  {
    hide Before;
    CountConcat([x], s, p);
    if s != [] {
      CountInsert(x, s[1..], key, p);
      CountConcat([s[0]], s[1..], p);
      CountConcat([s[0]], Insert(x, s[1..], key), p);
      assert s == [s[0]] + s[1..];
    }
  }

  lemma CountSort(s: seq<Crossing>, key: Crossing -> Key, p: Crossing -> bool)
    ensures Count(Sort(s, key), p) == Count(s, p)
  {
    if s != [] {
      CountSort(s[1..], key, p);
      CountInsert(s[0], Sort(s[1..], key), key, p);
      CountConcat([s[0]], s[1..], p);
      assert s == [s[0]] + s[1..];
    }
  }

  /** Every event of the fence inside the window. */
  function InFence(fence: int, since: Instant, until: Instant, p: Crossing -> bool): Crossing -> bool {
    (c: Crossing) => c.fence == fence && since <= c.at <= until && p(c)
  }

  lemma {:induction false} CountInAll(events: seq<Crossing>, fence: int, done: set<Pair>, since: Instant,
        until: Instant, p: Crossing -> bool)
    requires forall c | c in events && c.fence == fence && since <= c.at <= until :: Pair(fence, c.device) in done
    ensures CountIn(events, fence, done, since, until, p) == Count(events, InFence(fence, since, until, p))
  {
    if events != [] {
      assert events[|events| - 1] in events;
      CountInAll(events[..|events| - 1], fence, done, since, until, p);
    }
  }

  ghost function ExpectedTotals(events: seq<Crossing>, fence: int, since: Instant, until: Instant): FenceTotals {
    FenceTotals(Count(events, InFence(fence, since, until, Entering())),
                Count(events, InFence(fence, since, until, Leaving())),
                Count(events, InFence(fence, since, until, Alerting())))
  }

  // ---- Collecting the crossings by pair --------------------------------------------------------------

  method ByPair(fences: set<int>, events: seq<Crossing>, since: Instant, until: Instant)
    returns (byPair: map<Pair, seq<Crossing>>)
    ensures forall p :: p in byPair <==> p.fence in fences && EventsOf(events, p, since, until) != []
    ensures forall p | p in byPair :: byPair[p] == EventsOf(events, p, since, until)
  {
    hide EventsOf;
    byPair := map[];
    NoEventsOf(since, until);
    assert events[..0] == [];
    for i := 0 to |events|
      invariant forall p :: p in byPair <==> p.fence in fences && EventsOf(events[..i], p, since, until) != []
      invariant forall p | p in byPair :: byPair[p] == EventsOf(events[..i], p, since, until)
    {
      var event := events[i];
      OneEventMore(events, i, since, until);
      if event.fence in fences && since <= event.at <= until {
        var key := Pair(event.fence, event.device);
        byPair := byPair[key := (if key in byPair then byPair[key] else []) + [event]];
      }
    }
    assert events[..|events|] == events;
  }

  lemma NoEventsOf(since: Instant, until: Instant)
    ensures forall p :: EventsOf([], p, since, until) == []
  {
  }

  lemma OneEventMore(events: seq<Crossing>, i: nat, since: Instant, until: Instant)
    requires i < |events|
    ensures forall p ::
      EventsOf(events[..i + 1], p, since, until)
      == EventsOf(events[..i], p, since, until) + (if Matches(events[i], p, since, until) then [events[i]] else [])
  {
    assert events[..i + 1][..i] == events[..i];
  }

  /** The pairs known to be inside or outside beforehand, and those to list for that alone. */
  method ReadPrior(fences: set<int>, prior: seq<Crossing>, since: Instant)
    returns (insideAtStart: map<Pair, bool>, extra: set<Pair>)
    ensures forall p :: p in insideAtStart <==> p.fence in fences && InsideAtStart(prior, p, since).Some?
    ensures forall p | p in insideAtStart :: insideAtStart[p] == InsideAtStart(prior, p, since).value
    ensures forall p :: p in extra <==> p.fence in fences && exists c | c in prior :: PriorEnter(c, p, since)
  {
    insideAtStart, extra := map[], {};
    assert prior[..0] == [];
    for i := 0 to |prior|
      invariant forall p :: p in insideAtStart <==> p.fence in fences && InsideAtStart(prior[..i], p, since).Some?
      invariant forall p | p in insideAtStart :: insideAtStart[p] == InsideAtStart(prior[..i], p, since).value
      invariant forall p :: p in extra <==> p.fence in fences && exists c | c in prior[..i] :: PriorEnter(c, p, since)
    {
      var event := prior[i];
      assert prior[..i + 1][..i] == prior[..i];
      assert forall c :: c in prior[..i + 1] <==> c in prior[..i] || c == event;
      if event.fence in fences && event.at < since {
        var key := Pair(event.fence, event.device);
        insideAtStart := insideAtStart[key := event.enter];
        if event.enter {
          extra := extra + {key};
          assert PriorEnter(event, key, since);
        }
      }
    }
    assert prior[..|prior|] == prior;
  }

  // ---- The fleet ---------------------------------------------------------------------------------------

  /** Who was inside any geofence, and when. */
  ghost function Presence(vehicles: map<Pair, Vehicle>): set<(string, Instant)> {
    set p, t | p in vehicles && t in Covered(vehicles[p].intervals) :: (p.device, t)
  }

  ghost function Devices(vehicles: map<Pair, Vehicle>): set<string> {
    set p | p in vehicles :: p.device
  }

  ghost function Tagged(device: string, s: set<Instant>): set<(string, Instant)> {
    set t | t in s :: (device, t)
  }

  lemma Pick<T>(s: set<T>) returns (x: T)
    requires s != {}
    ensures x in s
  {
    x :| x in s;
  }

  lemma TaggedCount(device: string, s: set<Instant>)
    ensures |Tagged(device, s)| == |s|
  {
    if s != {} {
      var t := Pick(s);
      TaggedCount(device, s - {t});
      assert Tagged(device, s) == Tagged(device, s - {t}) + {(device, t)};
    } else {
      assert Tagged(device, s) == {};
    }
  }

  ghost function PresenceOf(perVehicle: map<string, seq<Interval>>, devices: set<string>): set<(string, Instant)>
    requires devices <= perVehicle.Keys
  {
    set d, t | d in devices && t in Covered(perVehicle[d]) :: (d, t)
  }

  lemma PresenceGrows(perVehicle: map<string, seq<Interval>>, devices: set<string>, d: string)
    requires devices <= perVehicle.Keys && d in perVehicle && d !in devices
    ensures |PresenceOf(perVehicle, devices + {d})| == |PresenceOf(perVehicle, devices)| + |Covered(perVehicle[d])|
  {
    hide Covered;
    var mine := Tagged(d, Covered(perVehicle[d]));
    TaggedCount(d, Covered(perVehicle[d]));
    assert PresenceOf(perVehicle, devices + {d}) == PresenceOf(perVehicle, devices) + mine;
    assert PresenceOf(perVehicle, devices) !! mine;
  }

  ghost predicate Within(s: seq<Interval>, since: Instant, end: Instant) {
    forall iv | iv in s :: since <= iv.start <= iv.end <= end
  }

  /** Every vehicle's visits to all geofences, put together; dictionary order is left open. */
  method PerVehicle(vehicles: map<Pair, Vehicle>, since: Instant, end: Instant)
    returns (perVehicle: map<string, seq<Interval>>)
    requires forall p | p in vehicles :: Within(vehicles[p].intervals, since, end)
    ensures perVehicle.Keys == Devices(vehicles)
    ensures forall d | d in perVehicle :: Within(perVehicle[d], since, end)
    ensures PresenceOf(perVehicle, perVehicle.Keys) == Presence(vehicles)
  {
    hide Covered;
    perVehicle := map[];
    var todo := vehicles.Keys;
    ghost var done: map<Pair, Vehicle> := map[];
    while todo != {}
      invariant todo <= vehicles.Keys && done == map p | p in vehicles && p !in todo :: vehicles[p]
      invariant perVehicle.Keys == Devices(done)
      invariant forall d | d in perVehicle :: Within(perVehicle[d], since, end)
      invariant PresenceOf(perVehicle, perVehicle.Keys) == Presence(done)
    {
      var p :| p in todo;
      ghost var done0, per0 := done, perVehicle;
      var before := if p.device in perVehicle then perVehicle[p.device] else [];
      CoveredConcat(before, vehicles[p].intervals);
      NothingCovered();
      perVehicle := perVehicle[p.device := before + vehicles[p].intervals];
      todo := todo - {p};
      done := done[p := vehicles[p]];
      PresenceAdds(done0, p, vehicles[p], per0, perVehicle);
    }
    assert done == vehicles;
  }

  lemma PresenceAdds(done: map<Pair, Vehicle>, p: Pair, v: Vehicle, per: map<string, seq<Interval>>,
        per': map<string, seq<Interval>>)
    requires p !in done
    requires per.Keys == Devices(done) && PresenceOf(per, per.Keys) == Presence(done)
    requires per'.Keys == per.Keys + {p.device} && forall d | d in per && d != p.device :: per'[d] == per[d]
    requires Covered(per'[p.device]) == (if p.device in per then Covered(per[p.device]) else {}) + Covered(v.intervals)
    ensures per'.Keys == Devices(done[p := v])
    ensures PresenceOf(per', per'.Keys) == Presence(done[p := v])
  {
    hide Covered;
    var mine := Tagged(p.device, Covered(v.intervals));
    var done' := done[p := v];
    assert Presence(done') == Presence(done) + mine by {
      forall x ensures x in Presence(done') <==> x in Presence(done) + mine {
        if q :| q in done' && x.0 == q.device && x.1 in Covered(done'[q].intervals) {
          assert q == p || q in done;
        }
        if q :| q in done && x.0 == q.device && x.1 in Covered(done[q].intervals) {
          assert q in done' && done'[q] == done[q];
        }
        if x in mine { assert p in done' && done'[p] == v; }
      }
    }
    assert PresenceOf(per', per'.Keys) == PresenceOf(per, per.Keys) + mine;
    assert Devices(done') == Devices(done) + {p.device};
  }

  /** Each vehicle's union, summed over the vehicles. */
  method InsideAny(perVehicle: map<string, seq<Interval>>, since: Instant, end: Instant) returns (inside: int)
    requires since <= end && forall d | d in perVehicle :: Within(perVehicle[d], since, end)
    ensures inside == |PresenceOf(perVehicle, perVehicle.Keys)|
    ensures 0 <= inside <= (end - since) * |perVehicle|
  {
    hide Covered;
    inside := 0;
    var todo := perVehicle.Keys;
    ghost var done: set<string> := {};
    assert PresenceOf(perVehicle, {}) == {};
    while todo != {}
      invariant done + todo == perVehicle.Keys && done !! todo
      invariant inside == |PresenceOf(perVehicle, done)|
      invariant 0 <= inside <= (end - since) * |done|
    {
      var d :| d in todo;
      var seconds := UnionSeconds(perVehicle[d]);
      InsideFits(perVehicle[d], since, end);
      PresenceGrows(perVehicle, done, d);
      inside := inside + seconds;
      OneMoreWindow(end - since, |done|);
      todo := todo - {d};
      done := done + {d};
    }
    assert done == perVehicle.Keys;
  }

  lemma OneMoreWindow(window: int, n: nat)
    ensures window * (n + 1) == window * n + window
  {
  }

  // ---- The report, read off the crossings --------------------------------------------------------------

  /** One of the pair's crossings in the window. */
  predicate Crossed(c: Crossing, p: Pair, since: Instant, until: Instant) {
    c.fence == p.fence && c.device == p.device && since <= c.at && c.at <= until
  }

  /** By time, and by id at the same time. */
  predicate Sooner(a: Crossing, b: Crossing) {
    a.at < b.at || (a.at == b.at && a.id <= b.id)
  }

  /** The pair's last crossing in the window at or before t. */
  predicate LastBy(events: seq<Crossing>, p: Pair, since: Instant, until: Instant, t: Instant, c: Crossing) {
    && c in events && Crossed(c, p, since, until) && c.at <= t
    && forall d | d in events && Crossed(d, p, since, until) && d.at <= t :: Sooner(d, c)
  }

  /** Its first. */
  predicate FirstOf(events: seq<Crossing>, p: Pair, since: Instant, until: Instant, c: Crossing) {
    && c in events && Crossed(c, p, since, until)
    && forall d | d in events && Crossed(d, p, since, until) :: Sooner(c, d)
  }

  predicate Earlier(c: Crossing, p: Pair, since: Instant) {
    c.fence == p.fence && c.device == p.device && c.at < since
  }

  /** The last listed of its crossings before the window. */
  predicate LastPrior(prior: seq<Crossing>, p: Pair, since: Instant, i: nat) {
    && i < |prior| && Earlier(prior[i], p, since)
    && forall j | i < j < |prior| :: !Earlier(prior[j], p, since)
  }

  /** Whether the pair is inside at an instant: as the last crossing left it; before the first, as the
  last listed prior crossing did; with none, as the first crossing, entry or exit, implies. */
  ghost predicate InsideRight(inside: bool, events: seq<Crossing>, prior: seq<Crossing>, p: Pair, since: Instant,
        until: Instant, t: Instant)
  {
    && (forall c | LastBy(events, p, since, until, t, c) :: inside == c.enter)
    && ((forall c | c in events && Crossed(c, p, since, until) :: c.at > t) ==>
          && (forall i: nat | LastPrior(prior, p, since, i) :: inside == prior[i].enter)
          && ((forall c | c in prior :: !Earlier(c, p, since)) ==>
                forall c | FirstOf(events, p, since, until, c) :: inside == !c.enter))
  }

  ghost function EntryPlaces(events: seq<Crossing>, p: Pair, since: Instant, until: Instant): set<nat> {
    set i: nat | i < |events| && Crossed(events[i], p, since, until) && events[i].enter
  }

  ghost function ExitPlaces(events: seq<Crossing>, p: Pair, since: Instant, until: Instant): set<nat> {
    set i: nat | i < |events| && Crossed(events[i], p, since, until) && !events[i].enter
  }

  /** The pair's figures, from the crossings alone. */
  ghost predicate FiguresRight(v: Vehicle, events: seq<Crossing>, p: Pair, since: Instant, until: Instant,
        end: Instant)
  {
    && v.entries == |EntryPlaces(events, p, since, until)| && v.exits == |ExitPlaces(events, p, since, until)|
    && v.inside == |Covered(v.intervals)| && v.outside == end - since - v.inside
    && (v.lastEventAt.None? <==> forall c | c in events :: !Crossed(c, p, since, until))
    && (v.lastEventAt.Some? ==>
          && (exists c | c in events :: Crossed(c, p, since, until) && c.at == v.lastEventAt.value)
          && (forall c | c in events && Crossed(c, p, since, until) :: c.at <= v.lastEventAt.value))
  }

  lemma CrossedIsMatch(c: Crossing, p: Pair, since: Instant, until: Instant)
    ensures Crossed(c, p, since, until) <==> Matches(c, p, since, until)
  {
  }

  lemma {:induction false} CrossingsCounted(events: seq<Crossing>, p: Pair, since: Instant, until: Instant)
    ensures Count(EventsOf(events, p, since, until), Entering()) == |EntryPlaces(events, p, since, until)|
    ensures Count(EventsOf(events, p, since, until), Leaving()) == |ExitPlaces(events, p, since, until)|
  {
    if events == [] {
      assert EntryPlaces(events, p, since, until) == {} && ExitPlaces(events, p, since, until) == {};
    } else {
      var n := |events| - 1;
      var init, c := events[..n], events[n];
      CrossingsCounted(init, p, since, until);
      CrossedIsMatch(c, p, since, until);
      CountAppend(EventsOf(init, p, since, until), c, Entering());
      CountAppend(EventsOf(init, p, since, until), c, Leaving());
      PlacesGrow(events, p, since, until);
      hide Count, Matches, Crossed, EntryPlaces, ExitPlaces;
      assert EventsOf(init, p, since, until) + [] == EventsOf(init, p, since, until);
    }
  }

  lemma PlacesGrow(events: seq<Crossing>, p: Pair, since: Instant, until: Instant)
    requires events != []
    ensures var n := |events| - 1;
      var init, c, mine := events[..n], events[n], Crossed(events[n], p, since, until);
      && |EntryPlaces(events, p, since, until)|
      == |EntryPlaces(init, p, since, until)| + (if mine && c.enter then 1 else 0)
      && |ExitPlaces(events, p, since, until)|
      == |ExitPlaces(init, p, since, until)| + (if mine && !c.enter then 1 else 0)
  {
    hide Crossed;
    var n := |events| - 1;
    var init, c, mine := events[..n], events[n], Crossed(events[n], p, since, until);
    assert EntryPlaces(events, p, since, until)
        == EntryPlaces(init, p, since, until) + (if mine && c.enter then {n} else {});
    assert ExitPlaces(events, p, since, until)
        == ExitPlaces(init, p, since, until) + (if mine && !c.enter then {n} else {});
  }

  lemma ListedIff(fences: set<int>, events: seq<Crossing>, prior: seq<Crossing>, p: Pair, since: Instant,
        until: Instant)
    ensures Listed(fences, events, prior, p, since, until) <==>
      p.fence in fences
      && ((exists c | c in events :: Crossed(c, p, since, until))
          || exists c | c in prior :: Earlier(c, p, since) && c.enter)
  {
    EventsOfMembers(events, p, since, until);
    if c :| c in events && Crossed(c, p, since, until) { assert c in EventsOf(events, p, since, until); }
    if EventsOf(events, p, since, until) != [] {
      var c := EventsOf(events, p, since, until)[0];
      assert c in EventsOf(events, p, since, until) && Crossed(c, p, since, until);
    }
    if c :| c in prior && PriorEnter(c, p, since) { assert Earlier(c, p, since) && c.enter; }
    if c :| c in prior && Earlier(c, p, since) && c.enter { assert PriorEnter(c, p, since); }
  }

  lemma {:induction false} PriorKnown(prior: seq<Crossing>, p: Pair, since: Instant)
    ensures forall i: nat | LastPrior(prior, p, since, i) :: InsideAtStart(prior, p, since) == Some(prior[i].enter)
    ensures (forall c | c in prior :: !Earlier(c, p, since)) <==> InsideAtStart(prior, p, since).None?
  {
    if prior != [] {
      PriorKnown(prior[..|prior| - 1], p, since);
      EarlierAmong(prior, p, since);
      StartNext(prior, p, since);
      hide Earlier, LastPrior, InsideAtStart;
      forall i: nat | LastPrior(prior, p, since, i) ensures InsideAtStart(prior, p, since) == Some(prior[i].enter) {
        LastPriorNext(prior, p, since, i);
      }
    }
  }

  lemma StartNext(prior: seq<Crossing>, p: Pair, since: Instant)
    requires prior != []
    ensures var c := prior[|prior| - 1];
      InsideAtStart(prior, p, since)
      == if Earlier(c, p, since) then Some(c.enter) else InsideAtStart(prior[..|prior| - 1], p, since)
  {
  }

  lemma LastPriorNext(prior: seq<Crossing>, p: Pair, since: Instant, i: nat)
    requires prior != [] && LastPrior(prior, p, since, i)
    ensures var n := |prior| - 1;
      i <= n && (if i == n then Earlier(prior[n], p, since)
                 else !Earlier(prior[n], p, since) && LastPrior(prior[..n], p, since, i) && prior[..n][i] == prior[i])
  {
    hide Earlier;
  }

  lemma EarlierAmong(prior: seq<Crossing>, p: Pair, since: Instant)
    requires prior != []
    ensures var n := |prior| - 1;
      (forall c | c in prior :: !Earlier(c, p, since)) <==>
      (forall c | c in prior[..n] :: !Earlier(c, p, since)) && !Earlier(prior[n], p, since)
  {
    hide Earlier;
    assert prior[|prior| - 1] in prior;
    assert forall c :: c in prior <==> c in prior[..|prior| - 1] || c == prior[|prior| - 1];
  }

  /** In a list sorted by time and id, with one crossing to an id. */
  lemma {:induction false} InsideAtLast(s: seq<Crossing>, known: bool, t: Instant, c: Crossing)
    requires SortedBy(s, CrossingKey()) && c in s && c.at <= t
    requires forall d | d in s && d.at <= t :: Sooner(d, c)
    requires forall x, y | x in s && y in s && x.id == y.id :: x == y
    ensures InsideAt(s, known, t) == c.enter
  {
    var n := |s| - 1;
    var last, init := s[n], s[..n];
    assert last in s;
    if last.at <= t {
      var i :| 0 <= i < |s| && s[i] == c;
      assert i == n || Before(CrossingKey()(s[i]), CrossingKey()(last));
      assert last.id == c.id;
    } else {
      assert forall d | d in init :: d in s;
      assert c in init;
      InsideAtLast(init, known, t, c);
    }
  }

  lemma {:induction false} InsideAtNone(s: seq<Crossing>, known: bool, t: Instant)
    requires forall c | c in s :: c.at > t
    ensures InsideAt(s, known, t) == known
  {
    if s != [] {
      assert s[|s| - 1] in s;
      InsideAtNone(s[..|s| - 1], known, t);
    }
  }

  lemma SortedMembers(events: seq<Crossing>, p: Pair, since: Instant, until: Instant)
    ensures var s := SortedEventsOf(events, p, since, until);
      && SortedBy(s, CrossingKey()) && (forall c :: c in s <==> c in events && Crossed(c, p, since, until))
  {
    EventsOfMembers(events, p, since, until);
    Sorts(EventsOf(events, p, since, until), CrossingKey());
    hide SortedBy, Sort, EventsOf;
  }

  lemma DistinctAmong(events: seq<Crossing>, s: seq<Crossing>)
    requires DistinctIds(events) && forall c | c in s :: c in events
    ensures forall x, y | x in s && y in s && x.id == y.id :: x == y
  {
    forall x, y | x in s && y in s && x.id == y.id ensures x == y {
      assert x in multiset(events) && y in multiset(events);
    }
  }

  lemma FirstIsFirst(s: seq<Crossing>, c: Crossing)
    requires SortedBy(s, CrossingKey()) && c in s && forall d | d in s :: Sooner(c, d)
    requires forall x, y | x in s && y in s && x.id == y.id :: x == y
    ensures s[0] == c
  {
    var i :| 0 <= i < |s| && s[i] == c;
    assert s[0] in s;
    if i > 0 { assert Before(CrossingKey()(s[0]), CrossingKey()(s[i])); }
  }

  /** The visits of a pair say of every instant what the crossings do. */
  lemma VisitsRight(events: seq<Crossing>, prior: seq<Crossing>, p: Pair, since: Instant, until: Instant,
        end: Instant, t: Instant)
    requires DistinctIds(events) && since <= t < end
    ensures InsideRight(t in Covered(ExpectedVehicle(events, prior, p, since, until, end).intervals), events, prior,
                        p, since, until, t)
  {
    var s, known := SortedEventsOf(events, p, since, until), Known(events, prior, p, since, until);
    SortedInTime(events, p, since, until);
    VisitsRefine(s, known, since, end, t);
    StateRight(events, prior, p, since, until, t);
    hide SortedEventsOf, VisitsOf, Covered, InsideAt, InTime, InsideRight, Known, DistinctIds;
  }

  lemma StateRight(events: seq<Crossing>, prior: seq<Crossing>, p: Pair, since: Instant, until: Instant, t: Instant)
    requires DistinctIds(events)
    ensures var s, known := SortedEventsOf(events, p, since, until), Known(events, prior, p, since, until);
      InsideRight(InsideAt(s, known, t), events, prior, p, since, until, t)
  {
    var s, known := SortedEventsOf(events, p, since, until), Known(events, prior, p, since, until);
    SortedMembers(events, p, since, until);
    DistinctAmong(events, s);
    hide SortedEventsOf, InsideAt, InsideAtStart, Crossed, Earlier, SortedBy, DistinctIds, LastPrior, Sooner, Known;
    forall c | LastBy(events, p, since, until, t, c) ensures InsideAt(s, known, t) == c.enter {
      InsideAtLast(s, known, t, c);
    }
    if forall c | c in events && Crossed(c, p, since, until) :: c.at > t {
      InsideAtNone(s, known, t);
      KnownRight(events, prior, p, since, until);
    }
  }

  /** The state a pair starts in. */
  lemma KnownRight(events: seq<Crossing>, prior: seq<Crossing>, p: Pair, since: Instant, until: Instant)
    requires DistinctIds(events)
    ensures var known := Known(events, prior, p, since, until);
      && (forall i: nat | LastPrior(prior, p, since, i) :: known == prior[i].enter)
      && ((forall c | c in prior :: !Earlier(c, p, since)) ==>
            forall c | FirstOf(events, p, since, until, c) :: known == !c.enter)
  {
    var s := SortedEventsOf(events, p, since, until);
    SortedMembers(events, p, since, until);
    DistinctAmong(events, s);
    PriorKnown(prior, p, since);
    hide SortedEventsOf, InsideAtStart, Crossed, Earlier, SortedBy, DistinctIds, LastPrior, Sooner;
    forall c | FirstOf(events, p, since, until, c) ensures s != [] && s[0] == c {
      FirstIsFirst(s, c);
    }
  }

  /** And its figures are those of its crossings. */
  lemma FiguresAreRight(events: seq<Crossing>, prior: seq<Crossing>, p: Pair, since: Instant, until: Instant,
        end: Instant)
    ensures FiguresRight(ExpectedVehicle(events, prior, p, since, until, end), events, p, since, until, end)
  {
    var s := SortedEventsOf(events, p, since, until);
    SortedMembers(events, p, since, until);
    SortedInTime(events, p, since, until);
    CrossingsCounted(events, p, since, until);
    CountSort(EventsOf(events, p, since, until), CrossingKey(), Entering());
    CountSort(EventsOf(events, p, since, until), CrossingKey(), Leaving());
    hide Count, EventsOf, Sort, VisitsOf, Covered, Crossed, EntryPlaces, ExitPlaces, Known;
    if s != [] {
      assert s[|s| - 1] in s;
      forall c | c in s ensures c.at <= s[|s| - 1].at {
        var i :| 0 <= i < |s| && s[i] == c;
      }
    }
  }

  /** The geofence's crossings in the window. */
  ghost function FencePlaces(events: seq<Crossing>, f: int, since: Instant, until: Instant): set<nat> {
    set i: nat | i < |events| && events[i].fence == f && since <= events[i].at && events[i].at <= until
  }

  ghost predicate TotalsExact(t: FenceTotals, events: seq<Crossing>, f: int, since: Instant, until: Instant) {
    var places := FencePlaces(events, f, since, until);
    && t.entries == |set i | i in places && events[i].enter|
    && t.exits == |set i | i in places && !events[i].enter|
    && t.alerts == |set i | i in places && events[i].alerted|
  }

  ghost function PlacesWhere(events: seq<Crossing>, p: Crossing -> bool): set<nat> {
    set i: nat | i < |events| && p(events[i])
  }

  lemma {:induction false} CountPlaces(events: seq<Crossing>, p: Crossing -> bool)
    ensures Count(events, p) == |PlacesWhere(events, p)|
  {
    if events == [] {
      assert PlacesWhere(events, p) == {};
    } else {
      var n := |events| - 1;
      CountPlaces(events[..n], p);
      assert PlacesWhere(events, p) == PlacesWhere(events[..n], p) + (if p(events[n]) then {n} else {});
    }
  }

  lemma TotalsAreExact(events: seq<Crossing>, f: int, since: Instant, until: Instant)
    ensures TotalsExact(ExpectedTotals(events, f, since, until), events, f, since, until)
  {
    var places := FencePlaces(events, f, since, until);
    CountPlaces(events, InFence(f, since, until, Entering()));
    CountPlaces(events, InFence(f, since, until, Leaving()));
    CountPlaces(events, InFence(f, since, until, Alerting()));
    hide Count;
    assert PlacesWhere(events, InFence(f, since, until, Entering())) == set i | i in places && events[i].enter;
    assert PlacesWhere(events, InFence(f, since, until, Leaving())) == set i | i in places && !events[i].enter;
    assert PlacesWhere(events, InFence(f, since, until, Alerting())) == set i | i in places && events[i].alerted;
  }

  lemma AllRight(fences: set<int>, events: seq<Crossing>, since: Instant, until: Instant, end: Instant,
        prior: seq<Crossing>, vehicles: map<Pair, Vehicle>)
    requires forall p :: p in vehicles <==> Listed(fences, events, prior, p, since, until)
    requires forall p | p in vehicles :: vehicles[p] == ExpectedVehicle(events, prior, p, since, until, end)
    ensures forall p :: p in vehicles <==>
      && p.fence in fences
      && ((exists c | c in events :: Crossed(c, p, since, until))
          || exists c | c in prior :: Earlier(c, p, since) && c.enter)
    ensures DistinctIds(events) ==> forall p, t | p in vehicles && since <= t < end ::
      InsideRight(t in Covered(vehicles[p].intervals), events, prior, p, since, until, t)
    ensures forall p | p in vehicles :: FiguresRight(vehicles[p], events, p, since, until, end)
  {
    hide Listed, ExpectedVehicle, Crossed, Earlier, InsideRight, FiguresRight, Covered, DistinctIds;
    forall p ensures Listed(fences, events, prior, p, since, until) <==>
      p.fence in fences
      && ((exists c | c in events :: Crossed(c, p, since, until))
          || exists c | c in prior :: Earlier(c, p, since) && c.enter) {
      ListedIff(fences, events, prior, p, since, until);
    }
    if DistinctIds(events) {
      forall p, t | p in vehicles && since <= t < end
        ensures InsideRight(t in Covered(vehicles[p].intervals), events, prior, p, since, until, t)
      {
        VisitsRight(events, prior, p, since, until, end, t);
      }
    }
    forall p | p in vehicles ensures FiguresRight(vehicles[p], events, p, since, until, end) {
      FiguresAreRight(events, prior, p, since, until, end);
    }
  }

  /** The report: per pair, per geofence, and for the fleet. */
  method SummarizeGeofences(fences: set<int>, events: seq<Crossing>, since: Instant, until: Instant,
        now: Instant, prior: seq<Crossing>)
    returns (vehicles: map<Pair, Vehicle>, totals: map<int, FenceTotals>, time: ReportTime)
    // Which pairs are listed, and what is said of each, from the crossings alone.
    ensures forall p :: p in vehicles <==>
      && p.fence in fences
      && ((exists c | c in events :: Crossed(c, p, since, until))
          || exists c | c in prior :: Earlier(c, p, since) && c.enter)
    ensures var end := Max(since, Min(until, now));
      DistinctIds(events) ==> forall p, t | p in vehicles && since <= t < end ::
        InsideRight(t in Covered(vehicles[p].intervals), events, prior, p, since, until, t)
    ensures var end := Max(since, Min(until, now));
      forall p | p in vehicles :: FiguresRight(vehicles[p], events, p, since, until, end)
    ensures var end := Max(since, Min(until, now));
      forall p | p in vehicles ::
        && vehicles[p] == ExpectedVehicle(events, prior, p, since, until, end)
        && vehicles[p].inside + vehicles[p].outside == end - since
    // Every event in the window counts once for its geofence.
    ensures totals.Keys == fences && forall f | f in fences :: TotalsExact(totals[f], events, f, since, until)
    // Inside any geofence plus outside all of them is a window per vehicle; no clamp bites.
    ensures time.window == Max(since, Min(until, now)) - since
    ensures time.inside == |Presence(vehicles)|
    ensures time.inside + time.outside == time.window * |Devices(vehicles)| && time.outside >= 0
  {
    var end := Max(since, Min(until, now));
    var window := end - since;
    hide Listed, ExpectedTotals, EventsOf, InsideAtStart, PriorEnter, Covered, Presence, PresenceOf, Devices, VehicleOf;
    var byPair := ByPair(fences, events, since, until);
    var insideAtStart, extra := ReadPrior(fences, prior, since);
    vehicles, totals := VisitPairs(fences, events, since, until, end, prior, byPair, insideAtStart, extra);
    var perVehicle := PerVehicle(vehicles, since, end);
    var inside := InsideAny(perVehicle, since, end);
    time := ReportTime(window, inside, Max(0, window * |perVehicle| - inside));
    assert |perVehicle| == |perVehicle.Keys|;
    AllRight(fences, events, since, until, end, prior, vehicles);
    forall f | f in fences ensures TotalsExact(totals[f], events, f, since, until) {
      TotalsAreExact(events, f, since, until);
    }
  }

  /** The dictionaries hold what their names say. */
  ghost predicate Collected(fences: set<int>, events: seq<Crossing>, prior: seq<Crossing>, since: Instant,
        until: Instant, byPair: map<Pair, seq<Crossing>>, insideAtStart: map<Pair, bool>, extra: set<Pair>)
  {
    && (forall p :: p in byPair <==> p.fence in fences && EventsOf(events, p, since, until) != [])
    && (forall p | p in byPair :: byPair[p] == EventsOf(events, p, since, until))
    && (forall p :: p in insideAtStart <==> p.fence in fences && InsideAtStart(prior, p, since).Some?)
    && (forall p | p in insideAtStart :: insideAtStart[p] == InsideAtStart(prior, p, since).value)
    && (forall p :: p in extra <==> p.fence in fences && exists c | c in prior :: PriorEnter(c, p, since))
  }

  lemma CollectedKeys(fences: set<int>, events: seq<Crossing>, prior: seq<Crossing>, since: Instant, until: Instant,
        byPair: map<Pair, seq<Crossing>>, insideAtStart: map<Pair, bool>, extra: set<Pair>)
    requires Collected(fences, events, prior, since, until, byPair, insideAtStart, extra)
    ensures forall p :: p in byPair.Keys + extra <==> Listed(fences, events, prior, p, since, until)
    ensures forall p | p in byPair.Keys + extra :: p.fence in fences
  {
  }

  lemma CollectedAt(fences: set<int>, events: seq<Crossing>, prior: seq<Crossing>, since: Instant, until: Instant,
        byPair: map<Pair, seq<Crossing>>, insideAtStart: map<Pair, bool>, extra: set<Pair>, p: Pair)
    requires Collected(fences, events, prior, since, until, byPair, insideAtStart, extra) && p.fence in fences
    ensures (if p in byPair then byPair[p] else []) == EventsOf(events, p, since, until)
    ensures (if p in insideAtStart then Some(insideAtStart[p]) else None) == InsideAtStart(prior, p, since)
  {
  }

  ghost predicate VehicleRight(v: Vehicle, events: seq<Crossing>, prior: seq<Crossing>, p: Pair, since: Instant,
        until: Instant, end: Instant) {
    && v == ExpectedVehicle(events, prior, p, since, until, end)
    && v.inside + v.outside == end - since
    && Within(v.intervals, since, end)
  }

  ghost predicate TotalsRight(totals: map<int, FenceTotals>, fences: set<int>, events: seq<Crossing>,
        done: set<Pair>, since: Instant, until: Instant) {
    totals.Keys == fences && forall f | f in fences :: totals[f] == TotalsIn(events, f, done, since, until)
  }

  lemma TotalsStep(totals: map<int, FenceTotals>, fences: set<int>, events: seq<Crossing>, done: set<Pair>, p: Pair,
                   since: Instant, until: Instant, v: Vehicle, alerts: nat)
    requires p !in done && p.fence in fences && TotalsRight(totals, fences, events, done, since, until)
    requires var s := SortedEventsOf(events, p, since, until);
      v.entries == Count(s, Entering()) && v.exits == Count(s, Leaving()) && alerts == Count(s, Alerting())
    ensures TotalsRight(totals[p.fence := Plus(totals[p.fence], v, alerts)], fences, events, done + {p}, since, until)
  {
    hide TotalsIn, SortedEventsOf, Count;
    forall f | f in fences
      ensures TotalsIn(events, f, done + {p}, since, until)
           == if f == p.fence then Plus(TotalsIn(events, f, done, since, until), v, alerts)
              else TotalsIn(events, f, done, since, until)
    {
      TotalsGrow(events, f, done, p, since, until, v, alerts);
    }
  }

  lemma TotalsEnd(totals: map<int, FenceTotals>, fences: set<int>, events: seq<Crossing>, prior: seq<Crossing>,
        all: set<Pair>, since: Instant, until: Instant)
    requires TotalsRight(totals, fences, events, all, since, until)
    requires forall p | Listed(fences, events, prior, p, since, until) :: p in all
    ensures totals.Keys == fences
    ensures forall f | f in fences :: totals[f] == ExpectedTotals(events, f, since, until)
  {
    forall f | f in fences ensures totals[f] == ExpectedTotals(events, f, since, until) {
      forall p: Pair | p.fence == f && EventsOf(events, p, since, until) != [] ensures p in all {
        assert Listed(fences, events, prior, p, since, until);
      }
      TotalsInAll(events, f, all, since, until);
    }
  }

  /** The loop over the pairs, in whatever order the dictionary yields them. */
  method VisitPairs(fences: set<int>, events: seq<Crossing>, since: Instant, until: Instant, end: Instant,
        prior: seq<Crossing>, byPair: map<Pair, seq<Crossing>>, insideAtStart: map<Pair, bool>, extra: set<Pair>)
    returns (vehicles: map<Pair, Vehicle>, totals: map<int, FenceTotals>)
    requires since <= end
    requires Collected(fences, events, prior, since, until, byPair, insideAtStart, extra)
    ensures forall p :: p in vehicles <==> Listed(fences, events, prior, p, since, until)
    ensures forall p | p in vehicles :: VehicleRight(vehicles[p], events, prior, p, since, until, end)
    ensures totals.Keys == fences
    ensures forall f | f in fences :: totals[f] == ExpectedTotals(events, f, since, until)
  {
    hide EventsOf, Listed, ExpectedTotals, TotalsIn, InsideAtStart, Collected, SortedEventsOf, Count, VehicleRight;
    vehicles, totals := map[], map f | f in fences :: FenceTotals(0, 0, 0);
    var all := byPair.Keys + extra;
    CollectedKeys(fences, events, prior, since, until, byPair, insideAtStart, extra);
    var todo := all;
    NoneCounted(events, since, until);
    ghost var done: set<Pair> := {};
    assert TotalsRight(totals, fences, events, done, since, until);
    hide TotalsRight;
    while todo != {}
      invariant done !! todo && done + todo == all && vehicles.Keys == done
      invariant forall p | p in vehicles :: VehicleRight(vehicles[p], events, prior, p, since, until, end)
      invariant fences <= totals.Keys && TotalsRight(totals, fences, events, done, since, until)
    {
      var p :| p in todo;
      CollectedAt(fences, events, prior, since, until, byPair, insideAtStart, extra, p);
      var v, alerts := VisitPair(events, prior, p, since, until, end,
        if p in byPair then byPair[p] else [], if p in insideAtStart then Some(insideAtStart[p]) else None);
      TotalsStep(totals, fences, events, done, p, since, until, v, alerts);
      vehicles := vehicles[p := v];
      totals := totals[p.fence := Plus(totals[p.fence], v, alerts)];
      todo := todo - {p};
      done := done + {p};
    }
    assert done == all;
    TotalsEnd(totals, fences, events, prior, all, since, until);
  }

  function Plus(t: FenceTotals, v: Vehicle, alerts: nat): FenceTotals {
    FenceTotals(t.entries + v.entries, t.exits + v.exits, t.alerts + alerts)
  }

  /** One turn of the loop over the pairs. */
  method VisitPair(events: seq<Crossing>, prior: seq<Crossing>, p: Pair, since: Instant, until: Instant, end: Instant,
                   mine: seq<Crossing>, insideAtStart: Option<bool>)
    returns (v: Vehicle, alerts: nat)
    requires since <= end && mine == EventsOf(events, p, since, until)
    requires insideAtStart == InsideAtStart(prior, p, since)
    ensures VehicleRight(v, events, prior, p, since, until, end)
    ensures v.entries == Count(SortedEventsOf(events, p, since, until), Entering())
    ensures v.exits == Count(SortedEventsOf(events, p, since, until), Leaving())
    ensures alerts == Count(SortedEventsOf(events, p, since, until), Alerting())
  {
    hide EventsOf, Sort, VisitsOf, Covered, Count, InsideAtStart;
    var crossings := Sort(mine, CrossingKey());
    var known := if insideAtStart.Some? then insideAtStart.value else crossings != [] && !crossings[0].enter;
    SortedInTime(events, p, since, until);
    v, alerts := SummarizePair(crossings, known, since, end);
    VisitsTidy(crossings, known, since, end);
  }

  ghost function TotalsIn(events: seq<Crossing>, fence: int, done: set<Pair>, since: Instant,
        until: Instant): FenceTotals {
    FenceTotals(CountIn(events, fence, done, since, until, Entering()),
                CountIn(events, fence, done, since, until, Leaving()),
                CountIn(events, fence, done, since, until, Alerting()))
  }

  lemma TotalsGrow(events: seq<Crossing>, f: int, done: set<Pair>, p: Pair, since: Instant, until: Instant,
        v: Vehicle, alerts: nat)
    requires p !in done
    requires var s := SortedEventsOf(events, p, since, until);
      v.entries == Count(s, Entering()) && v.exits == Count(s, Leaving()) && alerts == Count(s, Alerting())
    ensures TotalsIn(events, f, done + {p}, since, until)
         == if f == p.fence then Plus(TotalsIn(events, f, done, since, until), v, alerts)
            else TotalsIn(events, f, done, since, until)
  {
    CountInGrows(events, f, done, p, since, until, Entering());
    CountInGrows(events, f, done, p, since, until, Leaving());
    CountInGrows(events, f, done, p, since, until, Alerting());
    CountSort(EventsOf(events, p, since, until), CrossingKey(), Entering());
    CountSort(EventsOf(events, p, since, until), CrossingKey(), Leaving());
    CountSort(EventsOf(events, p, since, until), CrossingKey(), Alerting());
  }

  lemma TotalsInAll(events: seq<Crossing>, f: int, all: set<Pair>, since: Instant, until: Instant)
    requires forall p: Pair :: p.fence == f && EventsOf(events, p, since, until) != [] ==> p in all
    ensures TotalsIn(events, f, all, since, until) == ExpectedTotals(events, f, since, until)
  {
    forall c | c in events && c.fence == f && since <= c.at <= until ensures Pair(f, c.device) in all {
      EventsOfMembers(events, Pair(f, c.device), since, until);
    }
    CountInAll(events, f, all, since, until, Entering());
    CountInAll(events, f, all, since, until, Leaving());
    CountInAll(events, f, all, since, until, Alerting());
  }

  lemma NoneCounted(events: seq<Crossing>, since: Instant, until: Instant)
    ensures forall f :: TotalsIn(events, f, {}, since, until) == FenceTotals(0, 0, 0)
  {
    forall f ensures TotalsIn(events, f, {}, since, until) == FenceTotals(0, 0, 0) {
      NoneCountedFor(events, f, since, until, Entering());
      NoneCountedFor(events, f, since, until, Leaving());
      NoneCountedFor(events, f, since, until, Alerting());
    }
  }

  lemma NoneCountedFor(events: seq<Crossing>, f: int, since: Instant, until: Instant, p: Crossing -> bool)
    ensures CountIn(events, f, {}, since, until, p) == 0
  {
  }

  // ---- The order of the events ------------------------------------------------------------------------

  ghost predicate DistinctIds(events: seq<Crossing>) {
    forall a, b | a in multiset(events) && b in multiset(events) :: a.id == b.id ==> a == b
  }

  lemma EventsOfAppend(events: seq<Crossing>, c: Crossing, p: Pair, since: Instant, until: Instant)
    ensures multiset(EventsOf(events + [c], p, since, until))
         == multiset(EventsOf(events, p, since, until))
            + (if Matches(c, p, since, until) then multiset{c} else multiset{})
  {
    assert (events + [c])[..|events|] == events;
    assert EventsOf(events, p, since, until) + [] == EventsOf(events, p, since, until);
  }

  lemma {:induction false} EventsOfMultiset(events: seq<Crossing>, p: Pair, since: Instant, until: Instant, c: Crossing)
    ensures multiset(EventsOf(events, p, since, until))[c]
         == if Matches(c, p, since, until) then multiset(events)[c] else 0
  {
    if events != [] {
      var init, last := events[..|events| - 1], events[|events| - 1];
      EventsOfMultiset(init, p, since, until, c);
      EventsOfAppend(init, last, p, since, until);
      assert events == init + [last];
    }
  }

  /** The report does not depend on the order its events come in. */
  lemma {:induction false} OrderIrrelevant(events: seq<Crossing>, shuffled: seq<Crossing>, prior: seq<Crossing>,
        fences: set<int>, p: Pair, fence: int, since: Instant, until: Instant, end: Instant)
    requires multiset(events) == multiset(shuffled) && DistinctIds(events)
    ensures Listed(fences, events, prior, p, since, until) == Listed(fences, shuffled, prior, p, since, until)
    ensures ExpectedVehicle(events, prior, p, since, until, end)
         == ExpectedVehicle(shuffled, prior, p, since, until, end)
    ensures ExpectedTotals(events, fence, since, until) == ExpectedTotals(shuffled, fence, since, until)
  {
    var a, b := EventsOf(events, p, since, until), EventsOf(shuffled, p, since, until);
    forall c ensures multiset(a)[c] == multiset(b)[c] {
      EventsOfMultiset(events, p, since, until, c);
      EventsOfMultiset(shuffled, p, since, until, c);
    }
    assert multiset(a) == multiset(b);
    assert |a| == |multiset(a)| == |multiset(b)| == |b|;
    SortsAlike(events, a, b, p, since, until);
    SortsAlikeAll(events, shuffled);
    CountAlike(events, shuffled, InFence(fence, since, until, Entering()));
    CountAlike(events, shuffled, InFence(fence, since, until, Leaving()));
    CountAlike(events, shuffled, InFence(fence, since, until, Alerting()));
  }

  lemma SortsAlike(events: seq<Crossing>, a: seq<Crossing>, b: seq<Crossing>, p: Pair, since: Instant, until: Instant)
    requires DistinctIds(events) && a == EventsOf(events, p, since, until) && multiset(a) == multiset(b)
    ensures Sort(a, CrossingKey()) == Sort(b, CrossingKey())
  {
    Sorts(a, CrossingKey());
    Sorts(b, CrossingKey());
    EventsOfMembers(events, p, since, until);
    forall x, y | x in multiset(a) && y in multiset(a) ensures CrossingKey()(x) == CrossingKey()(y) ==> x == y {
      assert x in events && y in events;
    }
    SortCanonical(Sort(a, CrossingKey()), Sort(b, CrossingKey()), CrossingKey());
  }

  lemma SortsAlikeAll(a: seq<Crossing>, b: seq<Crossing>)
    requires DistinctIds(a) && multiset(a) == multiset(b)
    ensures Sort(a, CrossingKey()) == Sort(b, CrossingKey())
  {
    Sorts(a, CrossingKey());
    Sorts(b, CrossingKey());
    SortCanonical(Sort(a, CrossingKey()), Sort(b, CrossingKey()), CrossingKey());
  }

  lemma CountAlike(a: seq<Crossing>, b: seq<Crossing>, p: Crossing -> bool)
    requires Sort(a, CrossingKey()) == Sort(b, CrossingKey())
    ensures Count(a, p) == Count(b, p)
  {
    CountSort(a, CrossingKey(), p);
    CountSort(b, CrossingKey(), p);
  }
}
