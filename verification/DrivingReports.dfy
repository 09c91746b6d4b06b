/** One vehicle's driving report: the loop's accumulators, its events, idle time and score. */
module DrivingReports {
  import opened Basics
  import opened Intervals
  import opened Reports
  import opened Driving
  import opened Stretches

  datatype EventKind = Overspeed | NightDrive | LongIdling | LongHalt

  datatype DrivingEvent = DrivingEvent(kind: EventKind, at: Instant, micros: int, top: Option<int>)

  datatype DeviceDriving = DeviceDriving(
    metres: real, tally: Tally, maxSpeedKmh: Option<int>, idle: Option<int>, score: Option<int>,
    events: seq<DrivingEvent>)

  /** The instants of the window with the ignition on and no driving gap. */
  ghost predicate Idling(flips: seq<Flip>, route: seq<Fix>, t: Instant) {
    IgnitionOn(flips, t) && t !in TimeMoving(route, AnyFix())
  }

  function AnyFix(): Fix -> bool { (f: Fix) => true }
  function InTheDark(): Fix -> bool { (f: Fix) => Dark(f.at) }
  function Over(limit: int): Fix -> bool { (f: Fix) => OverLimit(f, limit) }

  /** The fixes of the route inside the window. */
  function RouteIn(h: Haversine, fixes: seq<Fix>, since: Instant, until: Instant): seq<Fix> {
    Filter(CleanRoute(h, fixes), InWindow(since, until))
  }

  lemma RouteInOrdered(h: Haversine, fixes: seq<Fix>, since: Instant, until: Instant)
    requires Ordered(fixes)
    ensures Ordered(RouteIn(h, fixes, since, until))
  {
    CleanRouteOrdered(h, fixes);
    FilterKeepsOrder(CleanRoute(h, fixes), InWindow(since, until));
  }

  /** The tally, each figure as the number of instants or changes it stands for. */
  ghost predicate Tallied(t: Tally, route: seq<Fix>, limit: int) {
    && t.driving == |TimeMoving(route, AnyFix())|
    && t.overspeed == |TimeMoving(route, Over(limit))|
    && t.night == |TimeMoving(route, InTheDark())|
    && t.suddenStops == |JumpsAmong(route, |route|, -1)| && t.suddenStarts == |JumpsAmong(route, |route|, 1)|
  }

  lemma TalliedExactly(route: seq<Fix>, limit: int)
    requires Ordered(route)
    ensures Covered(Drives(route, |route|, Anyone())) == TimeMoving(route, AnyFix())
    ensures Covered(Drives(route, |route|, TooFast(limit))) == TimeMoving(route, Over(limit))
    ensures Covered(Drives(route, |route|, AtNight())) == TimeMoving(route, InTheDark())
    ensures SuddenCount(route, |route|, -1) == |JumpsAmong(route, |route|, -1)|
    ensures SuddenCount(route, |route|, 1) == |JumpsAmong(route, |route|, 1)|
  {
    hide Covered, Drives, TimeMoving, Dark, IsNight, OverLimit, Speeding, SuddenCount, JumpsAmong;
    forall f: Fix ensures AtNight()(f) <==> InTheDark()(f) { DarkIsNight(f.at); }
    forall f: Fix ensures TooFast(limit)(f) <==> Over(limit)(f) { OverLimitIsSpeeding(f, limit); }
    DrivesExactly(route, Anyone(), AnyFix());
    DrivesExactly(route, TooFast(limit), Over(limit));
    DrivesExactly(route, AtNight(), InTheDark());
    SuddenExactly(route, |route|, -1);
    SuddenExactly(route, |route|, 1);
  }

  function FromStretches(kind: EventKind, stretches: seq<Stretch>): (events: seq<DrivingEvent>)
    ensures |events| == |stretches|
  {
    seq(|stretches|, i requires 0 <= i < |stretches| =>
      var s := stretches[i];
      DrivingEvent(kind, s.start, s.micros, if kind == Overspeed then Some(s.top) else None))
  }

  function FromIdles(idles: seq<LongIdle>): (events: seq<DrivingEvent>)
    ensures |events| == |idles|
  {
    seq(|idles|, i requires 0 <= i < |idles| => DrivingEvent(LongIdling, idles[i].at, idles[i].micros, None))
  }

  /** Every event of a report, kind by kind: the stretches and the idling long enough. */
  ghost function EventsOf(h: Haversine, route: seq<Fix>, until: Instant, limit: int,
        ignitionOn: Option<seq<Interval>>): seq<DrivingEvent>
  {
    FromStretches(Overspeed, Lasting(AllGroups(OverspeedActs(route, until, limit)), OVERSPEED_EVENT))
    + FromStretches(NightDrive, Lasting(AllGroups(NightActs(route, until)), NIGHT_EVENT))
    + FromStretches(LongHalt, Lasting(AllGroups(HaltActs(h, route, until)), LONG_HALT))
    + (if ignitionOn.Some? then FromIdles(LongIdles(Drives(route, |route|, Anyone()), ignitionOn.value)) else [])
  }

  /** An event, by what it stands for: an overspeed stretch of a minute or more with its top speed, a
  night stretch of two, a halt of a day, or an ignition span with a quarter of an hour or more in it
  in which nothing moves. */
  ghost predicate IsEvent(e: DrivingEvent, h: Haversine, route: seq<Fix>, until: Instant, limit: int,
        ignitionOn: Option<seq<Interval>>)
  {
    match e.kind
    case Overspeed =>
      exists s | s in AllGroups(OverspeedActs(route, until, limit)) ::
        s.micros >= 60_000_000 && Tells(e, Overspeed, s)
    case NightDrive =>
      exists s | s in AllGroups(NightActs(route, until)) ::
        s.micros >= 120_000_000 && Tells(e, NightDrive, s)
    case LongHalt =>
      exists s | s in AllGroups(HaltActs(h, route, until)) ::
        s.micros >= 86_400_000_000 && Tells(e, LongHalt, s)
    case LongIdling =>
      ignitionOn.Some? && exists on | on in ignitionOn.value ::
        && e.at == on.start && e.micros == |Span(on.start, on.end) - TimeMoving(route, AnyFix())|
        && e.micros >= 900_000_000 && e.top == None
  }

  predicate Tells(e: DrivingEvent, kind: EventKind, s: Stretch) {
    && e.kind == kind && e.at == s.start && e.micros == s.micros
    && e.top == (if kind == Overspeed then Some(s.top) else None)
  }

  lemma StretchEvents(kind: EventKind, stretches: seq<Stretch>, least: int, e: DrivingEvent)
    ensures e in FromStretches(kind, Lasting(stretches, least)) <==>
      exists s | s in stretches :: s.micros >= least && Tells(e, kind, s)
  {
    var at := LastingPicks(stretches, least);
    var lasting := Lasting(stretches, least);
    hide Lasting;
    var events := FromStretches(kind, lasting);
    if s :| s in stretches && s.micros >= least && Tells(e, kind, s) {
      var i :| 0 <= i < |stretches| && stretches[i] == s;
      var m :| 0 <= m < |at| && at[m] == i;
      assert events[m] == e;
    }
    if e in events {
      var m :| 0 <= m < |events| && events[m] == e;
      assert at[m] in at && lasting[m] in stretches && Tells(e, kind, lasting[m]);
    }
  }

  lemma {:induction false} IdleSpans(drives: seq<Interval>, ignitionOn: seq<Interval>, x: LongIdle)
    ensures x in LongIdles(drives, ignitionOn) <==>
      exists on | on in ignitionOn ::
        x.at == on.start && x.micros == |Span(on.start, on.end) - Covered(drives)| && x.micros >= LONG_IDLE
  {
    if ignitionOn != [] {
      var init, last := ignitionOn[..|ignitionOn| - 1], ignitionOn[|ignitionOn| - 1];
      IdleSpans(drives, init, x);
      assert forall on :: on in ignitionOn <==> on in init || on == last;
      hide Covered;
    }
  }

  lemma IdleEvents(idles: seq<LongIdle>, e: DrivingEvent)
    ensures e in FromIdles(idles) <==> e.kind == LongIdling && e.top == None && LongIdle(e.at, e.micros) in idles
  {
    var events := FromIdles(idles);
    if e.kind == LongIdling && e.top == None && LongIdle(e.at, e.micros) in idles {
      var m :| 0 <= m < |idles| && idles[m] == LongIdle(e.at, e.micros);
      assert events[m] == e;
    }
  }

  /** The report's events are these and no others. */
  lemma EventsExactly(h: Haversine, route: seq<Fix>, until: Instant, limit: int,
        ignitionOn: Option<seq<Interval>>, e: DrivingEvent)
    requires Ordered(route)
    ensures e in EventsOf(h, route, until, limit, ignitionOn) <==> IsEvent(e, h, route, until, limit, ignitionOn)
  {
    hide Covered, Drives, TimeMoving, AllGroups, Lasting, FromStretches, FromIdles, LongIdles, Tells;
    hide OverspeedActs, NightActs, HaltActs, EventsOf, IsEvent;
    AmongEvents(h, route, until, limit, ignitionOn, e);
    StretchEvents(Overspeed, AllGroups(OverspeedActs(route, until, limit)), OVERSPEED_EVENT, e);
    StretchEvents(NightDrive, AllGroups(NightActs(route, until)), NIGHT_EVENT, e);
    StretchEvents(LongHalt, AllGroups(HaltActs(h, route, until)), Stretches.LONG_HALT, e);
    TellsItsKind(e);
    if ignitionOn.Some? {
      IdleEvent(route, limit, ignitionOn.value, e);
    }
    EventCases(h, route, until, limit, ignitionOn, e);
  }

  lemma TellsItsKind(e: DrivingEvent)
    ensures forall kind, s | Tells(e, kind, s) :: e.kind == kind
  {
  }

  lemma AmongEvents(h: Haversine, route: seq<Fix>, until: Instant, limit: int,
        ignitionOn: Option<seq<Interval>>, e: DrivingEvent)
    ensures e in EventsOf(h, route, until, limit, ignitionOn) <==>
      || e in FromStretches(Overspeed, Lasting(AllGroups(OverspeedActs(route, until, limit)), OVERSPEED_EVENT))
      || e in FromStretches(NightDrive, Lasting(AllGroups(NightActs(route, until)), NIGHT_EVENT))
      || e in FromStretches(LongHalt, Lasting(AllGroups(HaltActs(h, route, until)), Stretches.LONG_HALT))
      || (ignitionOn.Some? && e in FromIdles(LongIdles(Drives(route, |route|, Anyone()), ignitionOn.value)))
  {
    hide FromStretches, Lasting, AllGroups, FromIdles, LongIdles, OverspeedActs, NightActs, HaltActs;
  }

  lemma IdleEvent(route: seq<Fix>, limit: int, ignitionOn: seq<Interval>, e: DrivingEvent)
    requires Ordered(route)
    ensures e in FromIdles(LongIdles(Drives(route, |route|, Anyone()), ignitionOn)) <==>
      e.kind == LongIdling && e.top == None && exists on | on in ignitionOn ::
        && e.at == on.start && e.micros == |Span(on.start, on.end) - TimeMoving(route, AnyFix())|
        && e.micros >= 900_000_000
  {
    TalliedExactly(route, limit);
    IdleEvents(LongIdles(Drives(route, |route|, Anyone()), ignitionOn), e);
    IdleSpans(Drives(route, |route|, Anyone()), ignitionOn, LongIdle(e.at, e.micros));
    hide Covered, Drives, TimeMoving, FromIdles, LongIdles;
  }

  lemma EventCases(h: Haversine, route: seq<Fix>, until: Instant, limit: int,
        ignitionOn: Option<seq<Interval>>, e: DrivingEvent)
    ensures IsEvent(e, h, route, until, limit, ignitionOn) <==>
      || (exists s | s in AllGroups(OverspeedActs(route, until, limit)) ::
            s.micros >= 60_000_000 && Tells(e, Overspeed, s))
      || (exists s | s in AllGroups(NightActs(route, until)) :: s.micros >= 120_000_000 && Tells(e, NightDrive, s))
      || (exists s | s in AllGroups(HaltActs(h, route, until)) ::
            s.micros >= 86_400_000_000 && Tells(e, LongHalt, s))
      || (e.kind == LongIdling && e.top == None && ignitionOn.Some? && exists on | on in ignitionOn.value ::
            && e.at == on.start && e.micros == |Span(on.start, on.end) - TimeMoving(route, AnyFix())|
            && e.micros >= 900_000_000)
  {
    TellsItsKind(e);
    hide AllGroups, OverspeedActs, NightActs, HaltActs, TimeMoving, Tells;
  }

  /** Newest first. */
  function LatestFirst(): DrivingEvent -> Key { (e: DrivingEvent) => Key(-e.at, 0) }

  predicate NewestFirst(events: seq<DrivingEvent>) {
    forall i, j | 0 <= i < j < |events| :: events[i].at >= events[j].at
  }

  lemma SortedNewestFirst(events: seq<DrivingEvent>)
    ensures NewestFirst(Sort(events, LatestFirst())) && multiset(Sort(events, LatestFirst())) == multiset(events)
  {
    Sorts(events, LatestFirst());
  }

  /** What a report on a route says: every figure is the exact measure of what it stands for. */
  ghost predicate Right(h: Haversine, route: seq<Fix>, until: Instant, limit: int,
        ignitionOn: Option<seq<Interval>>, r: DeviceDriving)
  {
    && Tallied(r.tally, route, limit) && r.metres == Metres(h, route, |route|) && TopSpeed(route, r.maxSpeedKmh)
    && r.tally.overspeed == Total(AllGroups(OverspeedActs(route, until, limit)))
    && r.tally.night == Total(AllGroups(NightActs(route, until)))
    && NewestFirst(r.events) && multiset(r.events) == multiset(EventsOf(h, route, until, limit, ignitionOn))
    && (r.idle.None? <==> ignitionOn.None?)
    && (r.idle.Some? ==> r.idle.value == |Covered(ignitionOn.value) - TimeMoving(route, AnyFix())|)
    && r.score == Score(r.tally, r.metres / 1000.0, r.idle)
    && (r.score.Some? ==> 10 <= r.score.value <= 100)
  }

  /** score_device: exact totals and idle time, every event and no other, newest first, and a
  score that is never clamped. */
  method ScoreDevice(h: Haversine, fixes: seq<Fix>, since: Instant, until: Instant, limit: int,
        ignitionOn: Option<seq<Interval>>)
    returns (r: DeviceDriving)
    requires Ordered(fixes) && (ignitionOn.Some? ==> Chain(ignitionOn.value))
    ensures Right(h, RouteIn(h, fixes, since, until), until, limit, ignitionOn, r)
  {
    hide CleanRoute, Filter, RouteIn, Drives, Covered, Score, TopSpeed, Metres, SuddenCount;
    hide LongIdles, NewestFirst, Sort;
    hide TimeMoving, JumpsAmong, AllGroups, Lasting, OverspeedActs, NightActs, HaltActs;
    hide Total, FromStretches, FromIdles;
    var route := RouteIn(h, fixes, since, until);
    RouteInOrdered(h, fixes, since, until);
    var metres := TrackLength(h, route);
    var top := PlausibleTopSpeed(route);
    var tally, drives := Measure(route, limit);
    TalliedExactly(route, limit);
    var overspeeds, nights, longHalts := DrivingEvents(h, route, until, limit);
    TotalsFromStretches(route, until, limit);
    var events := FromStretches(Overspeed, overspeeds) + FromStretches(NightDrive, nights)
      + FromStretches(LongHalt, longHalts);
    var idle: Option<int> := None;
    if ignitionOn.Some? {
      var total, longIdles := IdleTime(drives, ignitionOn.value);
      idle := Some(total);
      events := events + FromIdles(longIdles);
    } else {
      assert events + [] == events;
    }
    assert events == EventsOf(h, route, until, limit, ignitionOn);
    SortedNewestFirst(events);
    var score := Score(tally, metres / 1000.0, idle);
    if score.Some? { ScoreRange(tally, metres / 1000.0, idle); }
    r := DeviceDriving(metres, tally, top, idle, score, Sort(events, LatestFirst()));
  }

  /** The report as it is asked for, from a vehicle's ignition log: idle is exactly the part of
  the window with the ignition on and no driving gap. */
  method ScoreFromLog(h: Haversine, fixes: seq<Fix>, flips: seq<Flip>, since: Instant, until: Instant, limit: int)
    returns (r: DeviceDriving, spans: Option<seq<Interval>>)
    requires Ordered(fixes) && InOrder(flips)
    ensures Right(h, RouteIn(h, fixes, since, until), until, limit, spans, r)
    ensures r.idle.None? <==> flips == []
    ensures var route := RouteIn(h, fixes, since, until);
      r.idle.Some? ==>
        r.idle.value == |set t | t in Span(since, until) && Idling(flips, route, t)|
  {
    hide TimeMoving, RouteIn, Drives, Covered, IgnitionOn, Tallied, TopSpeed, Metres, Score;
    hide NewestFirst, EventsOf, Total;
    spans := IgnitionOnSpans(flips, since, until);
    r := ScoreDevice(h, fixes, since, until, limit, spans);
    if spans.Some? {
      CoveredWithin(spans.value, since, until);
      ghost var route := RouteIn(h, fixes, since, until);
      assert Covered(spans.value) - TimeMoving(route, AnyFix())
          == set t | t in Span(since, until) && Idling(flips, route, t);
    }
  }
}
