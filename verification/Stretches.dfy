/** The stretch accumulators of the driving report: overspeed stretches, night driving and long
halts, each opened by a gap, prolonged by later ones, and closed by others. */
module Stretches {
  import opened Basics
  import opened Intervals
  import opened Reports
  import opened Driving

  const OVERSPEED_EVENT := 1 * MINUTE
  const NIGHT_EVENT := 2 * MINUTE
  const LONG_HALT := 24 * HOUR
  const DRIVE_BREAK := 10 * MINUTE

  /** What a gap does to an accumulator. */
  datatype Act = Add(at: Instant, micros: int, speed: int) | Shut | Skip

  datatype Stretch = Stretch(start: Instant, micros: int, top: int)

  // ---- Stretches as groups, found by counting --------------------------------------------------

  /** How many closing gaps there are among the first n. */
  function Shuts(acts: seq<Act>, n: nat): nat
    requires n <= |acts|
  {
    if n == 0 then 0 else Shuts(acts, n - 1) + (if acts[n - 1].Shut? then 1 else 0)
  }

  /** Gap i belongs to group g: g gaps before it close. */
  predicate Member(acts: seq<Act>, i: nat, g: nat)
    requires i < |acts|
  {
    acts[i].Add? && Shuts(acts, i) == g
  }

  function Longer(open: Option<Stretch>, a: Act): Option<Stretch>
    requires a.Add?
  {
    Some(match open
         case None => Stretch(a.at, a.micros, Max(0, a.speed))
         case Some(s) => Stretch(s.start, s.micros + a.micros, Max(s.top, a.speed)))
  }

  /** Group g among the first n gaps: its first instant, total length and top speed. */
  function GroupOf(acts: seq<Act>, n: nat, g: nat): Option<Stretch>
    requires n <= |acts|
  {
    if n == 0 then None
    else if Member(acts, n - 1, g) then Longer(GroupOf(acts, n - 1, g), acts[n - 1])
    else GroupOf(acts, n - 1, g)
  }

  function AsList(s: Option<Stretch>): seq<Stretch> { if s.Some? then [s.value] else [] }

  /** The groups numbered below k, empty ones left out. */
  function Groups(acts: seq<Act>, n: nat, k: nat): seq<Stretch>
    requires n <= |acts|
  {
    if k == 0 then [] else Groups(acts, n, k - 1) + AsList(GroupOf(acts, n, k - 1))
  }

  function AllGroups(acts: seq<Act>): seq<Stretch> {
    Groups(acts, |acts|, Shuts(acts, |acts|) + 1)
  }

  function Added(acts: seq<Act>, n: nat): int
    requires n <= |acts|
  {
    if n == 0 then 0 else Added(acts, n - 1) + (if acts[n - 1].Add? then acts[n - 1].micros else 0)
  }

  function Total(stretches: seq<Stretch>): int {
    if stretches == [] then 0 else Total(stretches[..|stretches| - 1]) + stretches[|stretches| - 1].micros
  }

  lemma TotalAppend(stretches: seq<Stretch>, s: Option<Stretch>)
    ensures Total(stretches + AsList(s)) == Total(stretches) + (if s.Some? then s.value.micros else 0)
  {
    if s.Some? {
      assert (stretches + [s.value])[..|stretches|] == stretches;
    } else {
      assert stretches + [] == stretches;
    }
  }

  lemma {:induction false} ShutsMonotone(acts: seq<Act>, i: nat, j: nat)
    requires i <= j <= |acts|
    ensures Shuts(acts, i) <= Shuts(acts, j)
    decreases j
  {
    if i < j { ShutsMonotone(acts, i, j - 1); }
  }

  /** Two gaps have the same number exactly when nothing from the first up to the second closes. */
  lemma {:induction false} GroupIsUnbroken(acts: seq<Act>, i: nat, j: nat)
    requires i <= j <= |acts|
    ensures Shuts(acts, i) == Shuts(acts, j) <==> forall k | i <= k < j :: !acts[k].Shut?
    decreases j
  {
    if i < j {
      GroupIsUnbroken(acts, i, j - 1);
      ShutsMonotone(acts, i, j - 1);
    }
  }

  /** A group not yet reached is empty. */
  lemma {:induction false} LaterGroupEmpty(acts: seq<Act>, n: nat, g: nat)
    requires n <= |acts| && g > Shuts(acts, n)
    ensures GroupOf(acts, n, g) == None
  {
    if n > 0 {
      ShutsMonotone(acts, n - 1, n);
      LaterGroupEmpty(acts, n - 1, g);
    }
  }

  /** One more gap changes only the current group. */
  lemma OtherGroupsStay(acts: seq<Act>, n: nat, k: nat)
    requires n < |acts| && k <= Shuts(acts, n)
    ensures Groups(acts, n + 1, k) == Groups(acts, n, k)
  {
    if k > 0 { OtherGroupsStay(acts, n, k - 1); }
  }

  // ---- The accumulator --------------------------------------------------------------------------

  /** What the loop holds after n gaps: the stretches closed so far, and the open one. */
  ghost predicate Held(acts: seq<Act>, n: nat, closed: seq<Stretch>, open: Option<Stretch>)
    requires n <= |acts|
  {
    closed == Groups(acts, n, Shuts(acts, n)) && open == GroupOf(acts, n, Shuts(acts, n))
  }

  function Closed(closed: seq<Stretch>, open: Option<Stretch>): seq<Stretch> { closed + AsList(open) }

  lemma HeldStep(acts: seq<Act>, n: nat, closed: seq<Stretch>, open: Option<Stretch>)
    requires n < |acts| && Held(acts, n, closed, open)
    ensures match acts[n]
            case Add(_, _, _) => Held(acts, n + 1, closed, Longer(open, acts[n]))
            case Shut => Held(acts, n + 1, Closed(closed, open), None)
            case Skip => Held(acts, n + 1, closed, open)
  {
    var g := Shuts(acts, n);
    OtherGroupsStay(acts, n, g);
    if acts[n].Shut? {
      assert GroupOf(acts, n + 1, g) == GroupOf(acts, n, g);
      LaterGroupEmpty(acts, n, g + 1);
    }
  }

  lemma HeldEnd(acts: seq<Act>, closed: seq<Stretch>, open: Option<Stretch>)
    requires Held(acts, |acts|, closed, open)
    ensures Closed(closed, open) == AllGroups(acts)
  {
  }

  function Length(s: Option<Stretch>): int { if s.Some? then s.value.micros else 0 }

  lemma {:induction false} HeldAddsUp(acts: seq<Act>, n: nat, closed: seq<Stretch>, open: Option<Stretch>)
    requires n <= |acts| && Held(acts, n, closed, open)
    ensures Total(closed) + Length(open) == Added(acts, n)
  {
    hide Total, Groups, GroupOf, Shuts, Held, Longer;
    if n == 0 {
      NothingAdded(acts, closed, open);
    } else {
      var a := acts[n - 1];
      var closed', open' := WhatIsHeld(acts, n - 1);
      HeldAddsUp(acts, n - 1, closed', open');
      HeldStep(acts, n - 1, closed', open');
      TotalAppend(closed', open');
      match a {
        case Add(_, _, _) =>
          LongerLength(open', a);
          HeldOnce(acts, n, closed, open, closed', Longer(open', a));
        case Shut => HeldOnce(acts, n, closed, open, Closed(closed', open'), None);
        case Skip => HeldOnce(acts, n, closed, open, closed', open');
      }
    }
  }

  lemma LongerLength(open: Option<Stretch>, a: Act)
    requires a.Add?
    ensures Length(Longer(open, a)) == Length(open) + a.micros
  {
  }

  lemma NothingAdded(acts: seq<Act>, closed: seq<Stretch>, open: Option<Stretch>)
    requires Held(acts, 0, closed, open)
    ensures Total(closed) + Length(open) == 0
  {
  }

  lemma WhatIsHeld(acts: seq<Act>, n: nat) returns (closed: seq<Stretch>, open: Option<Stretch>)
    requires n <= |acts|
    ensures Held(acts, n, closed, open)
  {
    closed, open := Groups(acts, n, Shuts(acts, n)), GroupOf(acts, n, Shuts(acts, n));
  }

  /** There is only one thing the loop can hold. */
  lemma HeldOnce(acts: seq<Act>, n: nat, a: seq<Stretch>, x: Option<Stretch>, b: seq<Stretch>, y: Option<Stretch>)
    requires n <= |acts| && Held(acts, n, a, x) && Held(acts, n, b, y)
    ensures a == b && x == y
  {
  }

  /** Nothing is lost between stretches: together they last as long as all the gaps that add. */
  lemma AllGroupsAddUp(acts: seq<Act>)
    ensures Total(AllGroups(acts)) == Added(acts, |acts|)
  {
    var g := Shuts(acts, |acts|);
    var closed, open := Groups(acts, |acts|, g), GroupOf(acts, |acts|, g);
    HeldAddsUp(acts, |acts|, closed, open);
    hide Total, GroupOf, Shuts;
    TotalAppend(closed, open);
  }

  // ---- The three kinds ----------------------------------------------------------------------------

  function Micros(route: seq<Fix>, i: nat, until: Instant): int
    requires i < |route|
  {
    GapEnd(route, i, until) - route[i].at
  }

  /** How long the vehicle has not been driving, up to the end of gap i. */
  function Still(route: seq<Fix>, i: nat, until: Instant): int
    requires i < |route|
  {
    if DrivingGap(route, i) then 0
    else Micros(route, i, until) + (if i > 0 then Still(route, i - 1, until) else 0)
  }

  predicate Parked(h: Haversine, route: seq<Fix>, i: nat)
    requires i < |route|
  {
    route[i].Speed() == 0 && (i + 1 == |route| || Dist(h, route[i], route[i + 1]) <= PARKED_RADIUS_M)
  }

  function OverspeedAct(route: seq<Fix>, i: nat, until: Instant, limit: int): Act
    requires i < |route|
  {
    if DrivingGap(route, i) && Speeding(route[i], limit)
    then Add(route[i].at, Micros(route, i, until), route[i].Speed())
    else Shut
  }

  /** A drive goes on through stops and signals until the vehicle has been still for ten minutes. */
  function NightAct(route: seq<Fix>, i: nat, until: Instant): Act
    requires i < |route|
  {
    if DrivingGap(route, i) then (if IsNight(route[i].at) then Add(route[i].at, Micros(route, i, until), 0) else Skip)
    else if Still(route, i, until) >= DRIVE_BREAK then Shut else Skip
  }

  function HaltAct(h: Haversine, route: seq<Fix>, i: nat, until: Instant): Act
    requires i < |route|
  {
    if Parked(h, route, i) then Add(route[i].at, Micros(route, i, until), 0) else Shut
  }

  function OverspeedActs(route: seq<Fix>, until: Instant, limit: int): seq<Act> {
    seq(|route|, i requires 0 <= i < |route| => OverspeedAct(route, i, until, limit))
  }

  function NightActs(route: seq<Fix>, until: Instant): seq<Act> {
    seq(|route|, i requires 0 <= i < |route| => NightAct(route, i, until))
  }

  function HaltActs(h: Haversine, route: seq<Fix>, until: Instant): seq<Act> {
    seq(|route|, i requires 0 <= i < |route| => HaltAct(h, route, i, until))
  }

  /** The stretches that last at least as long as an event of their kind must. */
  function Lasting(stretches: seq<Stretch>, least: int): seq<Stretch> {
    if stretches == [] then []
    else
      Lasting(stretches[..|stretches| - 1], least)
      + (if stretches[|stretches| - 1].micros >= least then [stretches[|stretches| - 1]] else [])
  }

  lemma LastingAppend(stretches: seq<Stretch>, s: Option<Stretch>, least: int)
    ensures Lasting(stretches + AsList(s), least)
         == Lasting(stretches, least) + (if s.Some? && s.value.micros >= least then [s.value] else [])
  {
    if s.Some? {
      assert (stretches + [s.value])[..|stretches|] == stretches;
    } else {
      assert stretches + [] == stretches;
    }
  }

  /** A closing gap ends the stretch, and reports it if it lasted. */
  method Close(events: seq<Stretch>, open: Option<Stretch>, least: int,
        ghost closed: seq<Stretch>) returns (events': seq<Stretch>)
    requires events == Lasting(closed, least)
    ensures events' == Lasting(Closed(closed, open), least)
  {
    LastingAppend(closed, open, least);
    events' := events;
    if open.Some? && open.value.micros >= least {
      events' := events + [open.value];
    }
  }

  /** The loop over the route with its three accumulators: the events reported are exactly the
  groups long enough, in order. */
  method DrivingEvents(h: Haversine, route: seq<Fix>, until: Instant, limit: int)
    returns (overspeeds: seq<Stretch>, nights: seq<Stretch>, halts: seq<Stretch>)
    ensures overspeeds == Lasting(AllGroups(OverspeedActs(route, until, limit)), OVERSPEED_EVENT)
    ensures nights == Lasting(AllGroups(NightActs(route, until)), NIGHT_EVENT)
    ensures halts == Lasting(AllGroups(HaltActs(h, route, until)), LONG_HALT)
  {
    hide Held, IsNight, Speeding, Parked, DrivingGap, AllGroups, Lasting, Closed, Longer;
    overspeeds, nights, halts := [], [], [];
    var over: Option<Stretch> := None;
    var night: Option<Stretch> := None;
    var stop: Option<Stretch> := None;
    var still := 0;
    ghost var over', night', stop' := [], [], [];
    ghost var overActs, nightActs := OverspeedActs(route, until, limit), NightActs(route, until);
    ghost var haltActs := HaltActs(h, route, until);
    NothingHeld(overActs);
    NothingHeld(nightActs);
    NothingHeld(haltActs);
    for i := 0 to |route|
      invariant still == if i > 0 then Still(route, i - 1, until) else 0
      invariant Held(overActs, i, over', over) && overspeeds == Lasting(over', OVERSPEED_EVENT)
      invariant Held(nightActs, i, night', night) && nights == Lasting(night', NIGHT_EVENT)
      invariant Held(haltActs, i, stop', stop) && halts == Lasting(stop', LONG_HALT)
    {
      var fix := route[i];
      var micros := GapEnd(route, i, until) - fix.at;
      HeldStep(overActs, i, over', over);
      HeldStep(nightActs, i, night', night);
      HeldStep(haltActs, i, stop', stop);
      if Parked(h, route, i) {
        stop := Longer(stop, Add(fix.at, micros, 0));
      } else {
        halts := Close(halts, stop, LONG_HALT, stop');
        stop', stop := Closed(stop', stop), None;
      }
      if DrivingGap(route, i) && Speeding(fix, limit) {
        over := Longer(over, Add(fix.at, micros, fix.Speed()));
      } else {
        overspeeds := Close(overspeeds, over, OVERSPEED_EVENT, over');
        over', over := Closed(over', over), None;
      }
      if DrivingGap(route, i) {
        still := 0;
        if IsNight(fix.at) {
          night := Longer(night, Add(fix.at, micros, 0));
        }
      } else {
        still := still + micros;
        if still >= DRIVE_BREAK {
          nights := Close(nights, night, NIGHT_EVENT, night');
          night', night := Closed(night', night), None;
        }
      }
    }
    HeldEnd(overActs, over', over);
    HeldEnd(nightActs, night', night);
    HeldEnd(haltActs, stop', stop);
    overspeeds := Close(overspeeds, over, OVERSPEED_EVENT, over');
    nights := Close(nights, night, NIGHT_EVENT, night');
    halts := Close(halts, stop, LONG_HALT, stop');
  }

  lemma NothingHeld(acts: seq<Act>)
    ensures Held(acts, 0, [], None)
    ensures forall least :: Lasting([], least) == []
  {
  }

  /** The overspeed total of the report is the sum of its stretches: the accumulator of the
  total and those of the events agree. */
  lemma {:induction false} OverspeedAddsUp(route: seq<Fix>, n: nat, until: Instant, limit: int)
    requires Ordered(route) && n <= |route|
    ensures Added(OverspeedActs(route, until, limit), n) == |Covered(Drives(route, n, TooFast(limit)))|
  {
    hide Speeding, Covered, Drives;
    NothingDriven();
    if n > 0 {
      OverspeedAddsUp(route, n - 1, until, limit);
      DrivesStep(route, n - 1, TooFast(limit));
    }
  }

  lemma {:induction false} NightAddsUp(route: seq<Fix>, n: nat, until: Instant)
    requires Ordered(route) && n <= |route|
    ensures Added(NightActs(route, until), n) == |Covered(Drives(route, n, AtNight()))|
  {
    hide IsNight, Covered, Drives;
    NothingDriven();
    if n > 0 {
      NightAddsUp(route, n - 1, until);
      DrivesStep(route, n - 1, AtNight());
    }
  }

  /** Both totals of the report, from their stretches. */
  lemma TotalsFromStretches(route: seq<Fix>, until: Instant, limit: int)
    requires Ordered(route)
    ensures Total(AllGroups(OverspeedActs(route, until, limit))) == |Covered(Drives(route, |route|, TooFast(limit)))|
    ensures Total(AllGroups(NightActs(route, until))) == |Covered(Drives(route, |route|, AtNight()))|
  {
    AllGroupsAddUp(OverspeedActs(route, until, limit));
    AllGroupsAddUp(NightActs(route, until));
    OverspeedAddsUp(route, |route|, until, limit);
    NightAddsUp(route, |route|, until);
  }

  // ---- Stretches as runs of gaps ---------------------------------------------------------------

  predicate InGroup(acts: seq<Act>, i: nat, g: nat) {
    i < |acts| && Member(acts, i, g)
  }

  /** The gaps of group g among the first n. */
  function RunOf(acts: seq<Act>, n: nat, g: nat): seq<nat>
    requires n <= |acts|
  {
    if n == 0 then [] else RunOf(acts, n - 1, g) + (if Member(acts, n - 1, g) then [n - 1] else [])
  }

  predicate Empty(acts: seq<Act>, g: nat) { RunOf(acts, |acts|, g) == [] }

  /** The groups below k that have any. */
  function Numbers(acts: seq<Act>, k: nat): seq<nat> {
    if k == 0 then [] else Numbers(acts, k - 1) + (if Empty(acts, k - 1) then [] else [k - 1])
  }

  predicate AddsOnly(acts: seq<Act>, run: seq<nat>) {
    forall i | i in run :: i < |acts| && acts[i].Add?
  }

  function MicrosOver(acts: seq<Act>, run: seq<nat>): int
    requires AddsOnly(acts, run)
  {
    if run == [] then 0
    else
      assert run[|run| - 1] in run;
      MicrosOver(acts, run[..|run| - 1]) + acts[run[|run| - 1]].micros
  }

  /** Where it began, how long it lasted, and the greatest speed, 0 at least. */
  ghost predicate Sums(s: Stretch, acts: seq<Act>, run: seq<nat>) {
    && run != [] && AddsOnly(acts, run) && run[0] < |acts| && acts[run[0]].Add?
    && s.start == acts[run[0]].at && s.micros == MicrosOver(acts, run)
    && s.top >= 0 && (forall i | i in run :: acts[i].speed <= s.top)
    && (s.top == 0 || exists i | i in run :: acts[i].speed == s.top)
  }

  ghost predicate Rising(run: seq<nat>) {
    forall a, b | 0 <= a < b < |run| :: run[a] < run[b]
  }

  lemma RisingNext(run: seq<nat>, n: nat)
    requires Rising(run) && forall i | i in run :: i < n
    ensures Rising(run + [n]) && forall i :: i in run + [n] <==> i in run || i == n
  {
    assert forall a | 0 <= a < |run| :: run[a] in run;
  }

  lemma {:induction false} RunMembers(acts: seq<Act>, n: nat, g: nat)
    requires n <= |acts|
    ensures Rising(RunOf(acts, n, g))
    ensures forall i: nat :: i in RunOf(acts, n, g) <==> i < n && InGroup(acts, i, g)
  {
    if n > 0 {
      hide Member;
      RunMembers(acts, n - 1, g);
      RisingNext(RunOf(acts, n - 1, g), n - 1);
      hide Rising;
    }
  }

  lemma SumsNext(s: Stretch, acts: seq<Act>, run: seq<nat>, i: nat)
    requires Sums(s, acts, run) && i < |acts| && acts[i].Add?
    ensures Sums(Longer(Some(s), acts[i]).value, acts, run + [i])
  {
    var more := run + [i];
    assert more[..|run|] == run && forall x :: x in more <==> x in run || x == i;
    var longer := Longer(Some(s), acts[i]).value;
    if longer.top == s.top && s.top != 0 {
      var x :| x in run && acts[x].speed == s.top;
      assert x in more;
    }
  }

  lemma SumsFirst(acts: seq<Act>, i: nat)
    requires i < |acts| && acts[i].Add?
    ensures Sums(Longer(None, acts[i]).value, acts, [i])
  {
    assert [i][..0] == [];
  }

  lemma {:induction false} GroupSums(acts: seq<Act>, n: nat, g: nat)
    requires n <= |acts|
    ensures GroupOf(acts, n, g).None? <==> RunOf(acts, n, g) == []
    ensures GroupOf(acts, n, g).Some? ==> Sums(GroupOf(acts, n, g).value, acts, RunOf(acts, n, g))
  {
    if n > 0 {
      hide Sums, Longer, Shuts;
      GroupSums(acts, n - 1, g);
      var before, run := GroupOf(acts, n - 1, g), RunOf(acts, n - 1, g);
      if Member(acts, n - 1, g) {
        LongerIsSome(before, acts[n - 1]);
        if before.Some? {
          SumsNext(before.value, acts, run, n - 1);
        } else {
          SumsFirst(acts, n - 1);
        }
      } else {
        assert run + [] == run;
      }
    }
  }

  lemma LongerIsSome(open: Option<Stretch>, a: Act)
    requires a.Add?
    ensures Longer(open, a).Some?
  {
  }

  lemma {:induction false} NumbersRight(acts: seq<Act>, k: nat)
    ensures Rising(Numbers(acts, k))
    ensures forall g: nat :: g in Numbers(acts, k) <==> g < k && !Empty(acts, g)
  {
    hide Empty;
    if k > 0 {
      NumbersRight(acts, k - 1);
      var init := Numbers(acts, k - 1);
      RisingNext(init, k - 1);
      assert Numbers(acts, k) == if Empty(acts, k - 1) then init else init + [k - 1];
      hide Numbers, Rising;
    }
  }

  /** The stretches are those of the groups with any gaps, in order. */
  lemma {:induction false} GroupsNumbered(acts: seq<Act>, k: nat)
    ensures |Groups(acts, |acts|, k)| == |Numbers(acts, k)|
    ensures forall m | 0 <= m < |Numbers(acts, k)| ::
      var g := GroupOf(acts, |acts|, Numbers(acts, k)[m]);
      g.Some? && Groups(acts, |acts|, k)[m] == g.value
  {
    if k > 0 {
      hide GroupOf, RunOf, Sums;
      GroupsNumbered(acts, k - 1);
      GroupSums(acts, |acts|, k - 1);
      var init := Numbers(acts, k - 1);
      assert Numbers(acts, k) == init + (if Empty(acts, k - 1) then [] else [k - 1]);
      assert Groups(acts, |acts|, k) == Groups(acts, |acts|, k - 1) + AsList(GroupOf(acts, |acts|, k - 1));
      hide Numbers, Groups;
    }
  }

  // ---- What a list of stretches stands for -------------------------------------------------------

  /** Every stretch of the list with the run of gaps it sums up; the runs follow one another. */
  ghost predicate Sorted(stretches: seq<Stretch>, acts: seq<Act>, runs: seq<seq<nat>>) {
    && |stretches| == |runs|
    && (forall k | 0 <= k < |runs| :: Sums(stretches[k], acts, runs[k]) && Rising(runs[k]))
    && (forall k, m | 0 <= k < m < |runs| :: forall i, j | i in runs[k] && j in runs[m] :: i < j)
  }

  /** In one run, both. */
  ghost predicate Together(runs: seq<seq<nat>>, i: nat, j: nat) {
    exists k :: 0 <= k < |runs| && i in runs[k] && j in runs[k]
  }

  lemma ShutsEarlier(acts: seq<Act>, i: nat, j: nat)
    requires i < |acts| && j < |acts| && Shuts(acts, i) < Shuts(acts, j)
    ensures i < j
  {
    if j <= i { ShutsMonotone(acts, j, i); }
  }

  function RunsOf(acts: seq<Act>): (runs: seq<seq<nat>>)
    ensures |runs| == |Numbers(acts, Shuts(acts, |acts|) + 1)|
    ensures forall k | 0 <= k < |runs| :: runs[k] == RunOf(acts, |acts|, Numbers(acts, Shuts(acts, |acts|) + 1)[k])
  {
    var numbers := Numbers(acts, Shuts(acts, |acts|) + 1);
    seq(|numbers|, k requires 0 <= k < |numbers| => RunOf(acts, |acts|, numbers[k]))
  }

  lemma RunsSorted(acts: seq<Act>)
    ensures Sorted(AllGroups(acts), acts, RunsOf(acts))
  {
    var runs := RunsOf(acts);
    GroupsNumbered(acts, Shuts(acts, |acts|) + 1);
    assert |AllGroups(acts)| == |runs|;
    hide *;
    forall k | 0 <= k < |runs| ensures Sums(AllGroups(acts)[k], acts, runs[k]) && Rising(runs[k]) {
      RunSums(acts, k);
    }
    forall k, m, i, j | 0 <= k < m < |runs| && i in runs[k] && j in runs[m] ensures i < j {
      RunsInTurn(acts, k, m, i, j);
    }
    SortedWhen(AllGroups(acts), acts, runs);
  }

  lemma SortedWhen(stretches: seq<Stretch>, acts: seq<Act>, runs: seq<seq<nat>>)
    requires |stretches| == |runs|
    requires forall k | 0 <= k < |runs| :: Sums(stretches[k], acts, runs[k]) && Rising(runs[k])
    requires forall k, m, i, j | 0 <= k < m < |runs| && i in runs[k] && j in runs[m] :: i < j
    ensures Sorted(stretches, acts, runs)
  {
    hide Sums, Rising;
  }

  lemma RunSums(acts: seq<Act>, k: nat)
    requires k < |RunsOf(acts)|
    ensures k < |AllGroups(acts)| && Sums(AllGroups(acts)[k], acts, RunsOf(acts)[k]) && Rising(RunsOf(acts)[k])
  {
    var top := Shuts(acts, |acts|) + 1;
    GroupsNumbered(acts, top);
    GroupSums(acts, |acts|, Numbers(acts, top)[k]);
    RunMembers(acts, |acts|, Numbers(acts, top)[k]);
    hide GroupOf, Groups, Numbers, Sums, Rising, RunOf, Shuts;
  }

  lemma RunsInTurn(acts: seq<Act>, k: nat, m: nat, i: nat, j: nat)
    requires k < m < |RunsOf(acts)| && i in RunsOf(acts)[k] && j in RunsOf(acts)[m]
    ensures i < j
  {
    var numbers := Numbers(acts, Shuts(acts, |acts|) + 1);
    NumbersRight(acts, Shuts(acts, |acts|) + 1);
    hide Numbers, RunOf;
    assert numbers[k] < numbers[m];
    RunMembers(acts, |acts|, numbers[k]);
    RunMembers(acts, |acts|, numbers[m]);
    hide Shuts, Rising, RunsOf;
    ShutsEarlier(acts, i, j);
  }

  lemma TogetherIff(acts: seq<Act>, i: nat, j: nat)
    requires i < |acts| && j < |acts|
    ensures Together(RunsOf(acts), i, j) <==> acts[i].Add? && acts[j].Add? && Shuts(acts, i) == Shuts(acts, j)
  {
    hide Together, Shuts, RunsOf;
    if acts[i].Add? && acts[j].Add? && Shuts(acts, i) == Shuts(acts, j) {
      SameGroupTogether(acts, i, j);
    }
    if Together(RunsOf(acts), i, j) {
      TogetherSameGroup(acts, i, j);
    }
  }

  lemma SameGroupTogether(acts: seq<Act>, i: nat, j: nat)
    requires i < |acts| && j < |acts| && acts[i].Add? && acts[j].Add? && Shuts(acts, i) == Shuts(acts, j)
    ensures Together(RunsOf(acts), i, j)
  {
    var g, top := Shuts(acts, i), Shuts(acts, |acts|) + 1;
    InItsRun(acts, i, top);
    InItsRun(acts, j, top);
    var numbers, runs, run := Numbers(acts, top), RunsOf(acts), RunOf(acts, |acts|, g);
    assert |runs| == |numbers| && forall k | 0 <= k < |runs| && numbers[k] == g :: runs[k] == run;
    hide *;
    var k := PlaceOf(numbers, g);
    InOneRun(runs, k, i, j);
  }

  lemma InItsRun(acts: seq<Act>, i: nat, top: nat)
    requires i < |acts| && acts[i].Add? && top == Shuts(acts, |acts|) + 1
    ensures i in RunOf(acts, |acts|, Shuts(acts, i)) && Shuts(acts, i) in Numbers(acts, top)
  {
    ShutsMonotone(acts, i, |acts|);
    RunMembers(acts, |acts|, Shuts(acts, i));
    NumbersRight(acts, top);
    assert InGroup(acts, i, Shuts(acts, i));
    hide Shuts, Numbers, RunOf, Rising, InGroup;
  }

  lemma PlaceOf(numbers: seq<nat>, g: nat) returns (k: nat)
    requires g in numbers
    ensures k < |numbers| && numbers[k] == g
  {
    k :| 0 <= k < |numbers| && numbers[k] == g;
  }

  lemma InOneRun(runs: seq<seq<nat>>, k: nat, i: nat, j: nat)
    requires k < |runs| && i in runs[k] && j in runs[k]
    ensures Together(runs, i, j)
  {
  }

  lemma TogetherSameGroup(acts: seq<Act>, i: nat, j: nat)
    requires i < |acts| && j < |acts| && Together(RunsOf(acts), i, j)
    ensures acts[i].Add? && acts[j].Add? && Shuts(acts, i) == Shuts(acts, j)
  {
    hide Shuts, Numbers, RunOf, Rising;
    var k :| 0 <= k < |RunsOf(acts)| && i in RunsOf(acts)[k] && j in RunsOf(acts)[k];
    var g := Numbers(acts, Shuts(acts, |acts|) + 1)[k];
    RunMembers(acts, |acts|, g);
    assert InGroup(acts, i, g) && InGroup(acts, j, g);
  }

  // ---- What ends a stretch -----------------------------------------------------------------------

  /** How long gap i is; the last one lasts to the end of the window. */
  function GapLength(route: seq<Fix>, until: Instant, i: nat): int
    requires i < |route|
  {
    if i + 1 < |route| then route[i + 1].at - route[i].at
    else if until > route[i].at then until - route[i].at else 0
  }

  function TotalLength(route: seq<Fix>, until: Instant, run: seq<nat>): int
    requires forall a | 0 <= a < |run| :: run[a] < |route|
  {
    if run == [] then 0
    else
      TotalLength(route, until, run[..|run| - 1]) + GapLength(route, until, run[|run| - 1])
  }

  /** Each stretch begins with the first gap of its run and lasts as long as all of them; the runs
  follow one another. */
  ghost predicate StretchesAre(stretches: seq<Stretch>, route: seq<Fix>, until: Instant, runs: seq<seq<nat>>) {
    && |stretches| == |runs|
    && (forall k | 0 <= k < |runs| ::
          && runs[k] != [] && Rising(runs[k]) && (forall a | 0 <= a < |runs[k]| :: runs[k][a] < |route|)
          && stretches[k].start == route[runs[k][0]].at
          && stretches[k].micros == TotalLength(route, until, runs[k]))
    && (forall k, m | 0 <= k < m < |runs| :: forall i, j | i in runs[k] && j in runs[m] :: i < j)
  }

  /** Acts that add a gap add it as it is. */
  ghost predicate Faithful(acts: seq<Act>, route: seq<Fix>, until: Instant) {
    && |acts| == |route|
    && (forall i | 0 <= i < |acts| && acts[i].Add? ::
          acts[i].at == route[i].at && acts[i].micros == GapLength(route, until, i))
  }

  lemma {:induction false} LengthAgrees(acts: seq<Act>, route: seq<Fix>, until: Instant, run: seq<nat>)
    requires Faithful(acts, route, until) && AddsOnly(acts, run)
    requires forall a | 0 <= a < |run| :: run[a] < |route|
    ensures MicrosOver(acts, run) == TotalLength(route, until, run)
  {
    if run != [] {
      assert run[|run| - 1] in run && forall i | i in run[..|run| - 1] :: i in run;
      LengthAgrees(acts, route, until, run[..|run| - 1]);
    }
  }

  lemma SortedAre(acts: seq<Act>, route: seq<Fix>, until: Instant)
    requires Faithful(acts, route, until)
    ensures StretchesAre(AllGroups(acts), route, until, RunsOf(acts))
  {
    RunsSorted(acts);
    var runs := RunsOf(acts);
    hide RunsOf, AllGroups, GapLength;
    forall k | 0 <= k < |runs|
      ensures forall a | 0 <= a < |runs[k]| :: runs[k][a] < |route|
      ensures MicrosOver(acts, runs[k]) == TotalLength(route, until, runs[k])
    {
      assert forall a | 0 <= a < |runs[k]| :: runs[k][a] in runs[k];
      LengthAgrees(acts, route, until, runs[k]);
    }
    hide MicrosOver, TotalLength;
  }

  /** Which gaps are in one run: those that add, and nothing between them shuts. */
  lemma TogetherUnbroken(acts: seq<Act>, i: nat, j: nat)
    requires i < j < |acts| && acts[i].Add? && acts[j].Add?
    ensures Together(RunsOf(acts), i, j) <==> forall m | i < m < j :: !acts[m].Shut?
  {
    TogetherIff(acts, i, j);
    GroupIsUnbroken(acts, i, j);
    hide Together, Shuts, RunsOf;
  }

  lemma TogetherSelf(acts: seq<Act>, i: nat)
    ensures Together(RunsOf(acts), i, i) <==> i < |acts| && acts[i].Add?
  {
    if i < |acts| {
      TogetherIff(acts, i, i);
    } else {
      RunsSorted(acts);
    }
    hide Shuts, RunsOf, MicrosOver, AllGroups;
  }

  predicate SpeedsThere(route: seq<Fix>, limit: int, i: int) {
    Moves(route, i) && OverLimit(route[i], limit)
  }

  /** Overspeed: gaps of speeding with nothing but such gaps between them are one stretch ... */
  lemma OverspeedStretches(route: seq<Fix>, until: Instant, limit: int) returns (runs: seq<seq<nat>>)
    ensures StretchesAre(AllGroups(OverspeedActs(route, until, limit)), route, until, runs)
    ensures TopsAre(AllGroups(OverspeedActs(route, until, limit)), route, runs)
    ensures forall i: nat :: Together(runs, i, i) <==> SpeedsThere(route, limit, i)
    ensures forall i: nat, j: nat | i < j && SpeedsThere(route, limit, i) && SpeedsThere(route, limit, j) ::
      Together(runs, i, j) <==> forall m | i < m < j :: SpeedsThere(route, limit, m)
  {
    var acts := OverspeedActs(route, until, limit);
    OverspeedActsAre(route, until, limit);
    SortedAre(acts, route, until);
    OverspeedTops(route, until, limit);
    runs := RunsOf(acts);
    hide AllGroups, RunsOf, OverspeedActs, SpeedsThere, StretchesAre, TopsAre, Together, Faithful;
    forall i: nat ensures Together(runs, i, i) <==> SpeedsThere(route, limit, i) {
      TogetherSelf(acts, i);
    }
    forall i: nat, j: nat | i < j && SpeedsThere(route, limit, i) && SpeedsThere(route, limit, j)
      ensures Together(runs, i, j) <==> forall m | i < m < j :: SpeedsThere(route, limit, m)
    {
      TogetherUnbroken(acts, i, j);
    }
  }

  /** ... whose top is the greatest speed read in it. */
  ghost predicate TopIs(s: Stretch, route: seq<Fix>, run: seq<nat>) {
    && (forall i | i in run :: i < |route| && route[i].speedKmh.Some? && route[i].speedKmh.value <= s.top)
    && (exists i | i in run :: i < |route| && route[i].speedKmh == Some(s.top))
  }

  ghost predicate TopsAre(stretches: seq<Stretch>, route: seq<Fix>, runs: seq<seq<nat>>) {
    |stretches| == |runs| && forall k | 0 <= k < |runs| :: TopIs(stretches[k], route, runs[k])
  }

  lemma TopAttained(acts: seq<Act>, s: Stretch, run: seq<nat>)
    requires Sums(s, acts, run) && forall i: nat | i < |acts| && acts[i].Add? :: acts[i].speed > 0
    ensures forall i | i in run :: i < |acts| && acts[i].Add? && acts[i].speed <= s.top
    ensures exists i | i in run :: i < |acts| && acts[i].Add? && acts[i].speed == s.top
  {
    assert run[0] in run;
    assert s.top > 0;
  }

  lemma OverspeedTops(route: seq<Fix>, until: Instant, limit: int)
    ensures var acts := OverspeedActs(route, until, limit); TopsAre(AllGroups(acts), route, RunsOf(acts))
  {
    var acts := OverspeedActs(route, until, limit);
    OverspeedActsAre(route, until, limit);
    RunsSorted(acts);
    var runs := RunsOf(acts);
    hide AllGroups, RunsOf, OverspeedActs, SpeedsThere, MicrosOver, Rising;
    forall k | 0 <= k < |runs| ensures TopIs(AllGroups(acts)[k], route, runs[k]) {
      TopAttained(acts, AllGroups(acts)[k], runs[k]);
      hide Sums;
      var x :| x in runs[k] && x < |acts| && acts[x].Add? && acts[x].speed == AllGroups(acts)[k].top;
      assert x in runs[k] && x < |route| && route[x].speedKmh == Some(AllGroups(acts)[k].top);
    }
  }

  lemma OverspeedActsAre(route: seq<Fix>, until: Instant, limit: int)
    ensures var acts := OverspeedActs(route, until, limit);
      && Faithful(acts, route, until)
      && (forall i: nat | i < |route| :: acts[i].Add? <==> SpeedsThere(route, limit, i))
      && (forall i: nat | i < |route| :: acts[i].Shut? <==> !SpeedsThere(route, limit, i))
      && (forall i: nat :: SpeedsThere(route, limit, i) ==> i < |route|)
      && (forall i: nat | i < |route| && acts[i].Add? ::
            acts[i].speed > 0 && route[i].speedKmh == Some(acts[i].speed))
  {
    forall i: nat | i < |route| ensures SpeedsThere(route, limit, i) <==>
      DrivingGap(route, i) && Speeding(route[i], limit) {
      MovesIsDriving(route, i);
      OverLimitIsSpeeding(route[i], limit);
    }
  }

  predicate Rests(h: Haversine, route: seq<Fix>, i: int) {
    && 0 <= i < |route| && (route[i].speedKmh.None? || route[i].speedKmh == Some(0))
    && (i + 1 == |route| || Dist(h, route[i], route[i + 1]) <= 200.0)
  }

  /** Halts: gaps at rest with nothing but such gaps between them are one stretch. */
  lemma HaltStretches(h: Haversine, route: seq<Fix>, until: Instant) returns (runs: seq<seq<nat>>)
    ensures StretchesAre(AllGroups(HaltActs(h, route, until)), route, until, runs)
    ensures forall i: nat :: Together(runs, i, i) <==> Rests(h, route, i)
    ensures forall i: nat, j: nat | i < j && Rests(h, route, i) && Rests(h, route, j) ::
      Together(runs, i, j) <==> forall m | i < m < j :: Rests(h, route, m)
  {
    var acts := HaltActs(h, route, until);
    HaltActsAre(h, route, until);
    SortedAre(acts, route, until);
    runs := RunsOf(acts);
    hide AllGroups, RunsOf, HaltActs, Rests, GapLength, TotalLength, Together;
    forall i: nat ensures Together(runs, i, i) <==> Rests(h, route, i) {
      TogetherSelf(acts, i);
    }
    forall i: nat, j: nat | i < j && Rests(h, route, i) && Rests(h, route, j)
      ensures Together(runs, i, j) <==> forall m | i < m < j :: Rests(h, route, m)
    {
      TogetherUnbroken(acts, i, j);
    }
  }

  lemma HaltActsAre(h: Haversine, route: seq<Fix>, until: Instant)
    ensures var acts := HaltActs(h, route, until);
      && Faithful(acts, route, until)
      && (forall i: nat | i < |route| :: acts[i].Add? <==> Rests(h, route, i))
      && (forall i: nat | i < |route| :: acts[i].Shut? <==> !Rests(h, route, i))
      && (forall i: nat :: Rests(h, route, i) ==> i < |route|)
  {
    hide Dist;
  }

  predicate MovesInTheDark(route: seq<Fix>, i: int) {
    Moves(route, i) && Dark(route[i].at)
  }

  /** From the end of moving gap a, nothing moves up to the end of gap k, ten minutes later or more. */
  predicate StandsStill(route: seq<Fix>, a: nat, k: nat) {
    && a < k < |route| - 1 && Moves(route, a) && (forall m | a < m <= k :: !Moves(route, m))
    && route[k + 1].at - route[a + 1].at >= 600_000_000
  }

  lemma {:induction false} StillSince(route: seq<Fix>, a: nat, k: nat, until: Instant)
    requires a < k < |route| - 1 && DrivingGap(route, a) && forall m: nat | a < m <= k :: !DrivingGap(route, m)
    ensures Still(route, k, until) == route[k + 1].at - route[a + 1].at
    decreases k
  {
    if k > a + 1 {
      StillSince(route, a, k - 1, until);
    }
  }

  lemma {:induction false} LastDriving(route: seq<Fix>, i: nat, m: nat) returns (a: nat)
    requires i < m < |route| && DrivingGap(route, i) && !DrivingGap(route, m)
    ensures i <= a < m && DrivingGap(route, a) && forall x: nat | a < x <= m :: !DrivingGap(route, x)
    decreases m
  {
    if DrivingGap(route, m - 1) {
      a := m - 1;
    } else {
      a := LastDriving(route, i, m - 1);
    }
  }

  /** Night driving: two gaps of it are one stretch unless the vehicle stood still for ten minutes
  in between, measured from the end of the last moving gap before. */
  lemma NightStretches(route: seq<Fix>, until: Instant) returns (runs: seq<seq<nat>>)
    ensures StretchesAre(AllGroups(NightActs(route, until)), route, until, runs)
    ensures forall i: nat :: Together(runs, i, i) <==> MovesInTheDark(route, i)
    ensures forall i: nat, j: nat | i < j && MovesInTheDark(route, i) && MovesInTheDark(route, j) ::
      Together(runs, i, j) <==> !exists a: nat, k: nat :: i <= a && k < j && StandsStill(route, a, k)
  {
    var acts := NightActs(route, until);
    NightActsAre(route, until);
    SortedAre(acts, route, until);
    runs := RunsOf(acts);
    hide AllGroups, RunsOf, NightActs, MovesInTheDark, GapLength, TotalLength, Together, StandsStill;
    forall i: nat ensures Together(runs, i, i) <==> MovesInTheDark(route, i) {
      TogetherSelf(acts, i);
    }
    forall i: nat, j: nat | i < j && MovesInTheDark(route, i) && MovesInTheDark(route, j)
      ensures Together(runs, i, j) <==> !exists a: nat, k: nat :: i <= a && k < j && StandsStill(route, a, k)
    {
      TogetherUnbroken(acts, i, j);
      NightShuts(route, until, i, j);
    }
  }

  lemma NightActsAre(route: seq<Fix>, until: Instant)
    ensures var acts := NightActs(route, until);
      && Faithful(acts, route, until)
      && (forall i: nat | i < |route| :: acts[i].Add? <==> MovesInTheDark(route, i))
      && (forall i: nat :: MovesInTheDark(route, i) ==> i < |route|)
  {
    forall i: nat | i < |route| ensures MovesInTheDark(route, i) <==> DrivingGap(route, i) && IsNight(route[i].at) {
      MovesIsDriving(route, i);
      DarkIsNight(route[i].at);
    }
    hide IsNight, Dark;
  }

  lemma NightShuts(route: seq<Fix>, until: Instant, i: nat, j: nat)
    requires i < j < |route| && MovesInTheDark(route, i)
    ensures (exists m | i < m < j :: NightActs(route, until)[m].Shut?)
       <==> exists a: nat, k: nat :: i <= a && k < j && StandsStill(route, a, k)
  {
    MovesIsDriving(route, i);
    forall m: nat | m < |route| ensures Moves(route, m) <==> DrivingGap(route, m) {
      MovesIsDriving(route, m);
    }
    hide Moves, DrivingGap, IsNight, Dark;
    if m: nat :| i < m < j && NightActs(route, until)[m].Shut? {
      var a := LastDriving(route, i, m);
      StillSince(route, a, m, until);
      assert StandsStill(route, a, m);
    }
    if a: nat, k: nat :| i <= a && k < j && StandsStill(route, a, k) {
      StillSince(route, a, k, until);
      assert NightActs(route, until)[k].Shut?;
    }
  }

  /** Which of them are events: those that last, in order. */
  lemma {:induction false} LastingPicks(stretches: seq<Stretch>, least: int) returns (at: seq<nat>)
    ensures Picks(Lasting(stretches, least), stretches, at)
    ensures forall i: nat | i < |stretches| :: i in at <==> stretches[i].micros >= least
  {
    if stretches == [] {
      at := [];
    } else {
      var n := |stretches| - 1;
      at := LastingPicks(stretches[..n], least);
      PicksMore(Lasting(stretches[..n], least), stretches, at, n);
      assert stretches[..n + 1] == stretches;
      assert forall i: nat | i < n :: stretches[..n][i] == stretches[i];
      if stretches[n].micros >= least {
        assert forall i: nat :: i in at + [n] <==> i in at || i == n;
        at := at + [n];
      } else {
        assert Lasting(stretches, least) == Lasting(stretches[..n], least);
      }
    }
  }
}
