/** Trip reports: what a vehicle did with every minute of a window.

`SummarizeDevice` is the Python loop. `SqlStops` and its neighbours are the database query
that must agree with it. Distances come from an uninterpreted `haversine`. */
module Reports {
  import opened Intervals
  import opened Basics

  const HALT_THRESHOLD := 10 * MINUTE
  const PARKED_RADIUS_M := 200.0
  const MAX_RUNNING_GAP := 10 * MINUTE
  const MAX_PLAUSIBLE_SPEED_KMH := 200
  const SPIKE_KMH := 50
  const ROUTE_JITTER_M := 40.0
  const ROUTE_SPEED_SLACK := 1.5
  const ROUTE_SPIKE_MAX_GAP := 5 * MINUTE
  /** datetime.min, counted from 1970. */
  const DATETIME_MIN: Instant := -62_135_596_800 * SECOND

  /** The great-circle distance, left open. */
  type Haversine = (real, real, real, real) -> real

  datatype Fix = Fix(latitude: real, longitude: real, speedKmh: Option<int>, at: Instant, gpsFixed: Option<bool>) {
    /** A missing speed reads as 0. */
    function Speed(): int { if speedKmh.Some? then speedKmh.value else 0 }
  }

  function Dist(h: Haversine, a: Fix, b: Fix): real {
    h(a.latitude, a.longitude, b.latitude, b.longitude)
  }

  /** Fixes come in time order. */
  ghost predicate Ordered(fixes: seq<Fix>) {
    forall i, j | 0 <= i < j < |fixes| :: fixes[i].at <= fixes[j].at
  }

  // ---- The route ---------------------------------------------------------------------------

  predicate Usable(f: Fix) {
    f.gpsFixed != Some(false) && !(f.latitude == 0.0 && f.longitude == 0.0)
  }

  function Filter(fixes: seq<Fix>, keep: Fix -> bool): seq<Fix> {
    if fixes == [] then []
    else
      var rest := Filter(fixes[..|fixes| - 1], keep);
      if keep(fixes[|fixes| - 1]) then rest + [fixes[|fixes| - 1]] else rest
  }

  function Reach(a: Fix, b: Fix, micros: int): real {
    var metresPerSecond := (a.Speed() + b.Speed()) as real / 2.0 / 3.6;
    metresPerSecond * (Max(micros, 0) as real / SECOND as real) * ROUTE_SPEED_SLACK + ROUTE_JITTER_M
  }

  predicate IsDirty(h: Haversine, before: Fix, fix: Fix, after: Fix) {
    var out := fix.at - before.at;
    var back := after.at - fix.at;
    && out <= ROUTE_SPIKE_MAX_GAP && back <= ROUTE_SPIKE_MAX_GAP
    && Dist(h, before, fix) > Reach(before, fix, out)
    && Dist(h, fix, after) > Reach(fix, after, back)
    && Dist(h, before, after) <= Reach(before, after, out + back)
  }

  predicate Kept(h: Haversine, usable: seq<Fix>, i: nat)
    requires i < |usable|
  {
    !(0 < i < |usable| - 1 && IsDirty(h, usable[i - 1], usable[i], usable[i + 1]))
  }

  function KeptOf(h: Haversine, usable: seq<Fix>, n: nat): seq<Fix>
    requires n <= |usable|
  {
    if n == 0 then []
    else KeptOf(h, usable, n - 1) + (if Kept(h, usable, n - 1) then [usable[n - 1]] else [])
  }

  function CleanRoute(h: Haversine, fixes: seq<Fix>): seq<Fix> {
    var usable := Filter(fixes, Usable);
    KeptOf(h, usable, |usable|)
  }

  lemma {:induction false} FilterKeepsOrder(fixes: seq<Fix>, keep: Fix -> bool)
    requires Ordered(fixes)
    ensures Ordered(Filter(fixes, keep))
    ensures forall f | f in Filter(fixes, keep) :: f in fixes && keep(f)
    ensures fixes != [] ==> forall f | f in Filter(fixes, keep) :: f.at <= fixes[|fixes| - 1].at
  {
    if fixes != [] {
      FilterKeepsOrder(fixes[..|fixes| - 1], keep);
    }
  }

  lemma {:induction false} KeptKeepsOrder(h: Haversine, usable: seq<Fix>, n: nat)
    requires Ordered(usable) && n <= |usable|
    ensures Ordered(KeptOf(h, usable, n))
    ensures forall f | f in KeptOf(h, usable, n) :: f in usable[..n] && f.at <= usable[n - 1].at
  {
    if n > 0 {
      KeptKeepsOrder(h, usable, n - 1);
    }
  }

  /** clean_route only leaves fixes out: what stays is usable and in time order. */
  lemma CleanRouteOrdered(h: Haversine, fixes: seq<Fix>)
    requires Ordered(fixes)
    ensures Ordered(CleanRoute(h, fixes))
    ensures forall f | f in CleanRoute(h, fixes) :: f in fixes && Usable(f)
  {
    FilterKeepsOrder(fixes, Usable);
    var usable := Filter(fixes, Usable);
    KeptKeepsOrder(h, usable, |usable|);
  }

  // ---- Which fixes stay ------------------------------------------------------------------------

  lemma {:induction false} FilterPicks(fixes: seq<Fix>, keep: Fix -> bool) returns (at: seq<nat>)
    ensures Picks(Filter(fixes, keep), fixes, at)
    ensures forall i: nat | i < |fixes| :: i in at <==> keep(fixes[i])
  {
    if fixes == [] {
      at := [];
    } else {
      var n := |fixes| - 1;
      at := FilterPicks(fixes[..n], keep);
      PicksMore(Filter(fixes[..n], keep), fixes, at, n);
      assert fixes[..n + 1] == fixes;
      assert forall i: nat | i < n :: fixes[..n][i] == fixes[i];
      if keep(fixes[n]) {
        assert forall i: nat :: i in at + [n] <==> i in at || i == n;
        at := at + [n];
      }
    }
  }

  lemma {:induction false} KeptPicks(h: Haversine, usable: seq<Fix>, n: nat) returns (at: seq<nat>)
    requires n <= |usable|
    ensures Picks(KeptOf(h, usable, n), usable[..n], at)
    ensures forall i: nat | i < n :: i in at <==> Kept(h, usable, i)
  {
    if n == 0 {
      at := [];
    } else {
      hide Kept;
      at := KeptPicks(h, usable, n - 1);
      PicksMore(KeptOf(h, usable, n - 1), usable, at, n - 1);
      if Kept(h, usable, n - 1) {
        assert forall i: nat :: i in at + [n - 1] <==> i in at || i == n - 1;
        at := at + [n - 1];
      } else {
        assert KeptOf(h, usable, n) == KeptOf(h, usable, n - 1);
      }
    }
  }

  /** The farthest a vehicle could have gone between two fixes: the mean of both speeds, half as much
  again, for the time between them, and forty metres. */
  function Farthest(a: Fix, b: Fix): real {
    var first := if a.speedKmh.Some? then a.speedKmh.value else 0;
    var second := if b.speedKmh.Some? then b.speedKmh.value else 0;
    var seconds := (if b.at > a.at then b.at - a.at else 0) as real / 1_000_000.0;
    (first + second) as real / 7.2 * seconds * 1.5 + 40.0
  }

  /** Farther from both neighbours than it could have gone, while they are within reach of each
  other, and each at most five minutes away. */
  predicate Stray(h: Haversine, before: Fix, f: Fix, after: Fix) {
    && f.at - before.at <= 300_000_000 && after.at - f.at <= 300_000_000
    && Dist(h, before, f) > Farthest(before, f) && Dist(h, f, after) > Farthest(f, after)
    && Dist(h, before, after) <= Farthest(before, after)
  }

  lemma ReachIsFarthest(a: Fix, b: Fix)
    ensures Reach(a, b, b.at - a.at) == Farthest(a, b)
  {
    var kmh := (a.Speed() + b.Speed()) as real;
    assert kmh / 2.0 / 3.6 == kmh / 7.2;
  }

  lemma DirtyIsStray(h: Haversine, before: Fix, f: Fix, after: Fix)
    ensures IsDirty(h, before, f, after) <==> Stray(h, before, f, after)
  {
    hide Reach, Farthest, Dist;
    ReachIsFarthest(before, f);
    ReachIsFarthest(f, after);
    ReachIsFarthest(before, after);
  }

  /** Exactly which fixes the route is measured through: of those with a lock and a position, all
  but the strays among the ones that have both neighbours. */
  lemma CleanRouteExactly(h: Haversine, fixes: seq<Fix>) returns (usable: seq<Fix>, at: seq<nat>, on: seq<nat>)
    ensures Picks(usable, fixes, at)
    ensures forall i: nat | i < |fixes| ::
      i in at <==> fixes[i].gpsFixed != Some(false) && (fixes[i].latitude != 0.0 || fixes[i].longitude != 0.0)
    ensures Picks(CleanRoute(h, fixes), usable, on)
    ensures forall k: nat | k < |usable| ::
      k !in on <==> 0 < k < |usable| - 1 && Stray(h, usable[k - 1], usable[k], usable[k + 1])
  {
    usable := Filter(fixes, Usable);
    at := FilterPicks(fixes, Usable);
    on := KeptPicks(h, usable, |usable|);
    assert usable[..|usable|] == usable;
    hide IsDirty, Stray;
    forall k: nat | k < |usable|
      ensures k !in on <==> 0 < k < |usable| - 1 && Stray(h, usable[k - 1], usable[k], usable[k + 1])
    {
      assert k in on <==> Kept(h, usable, k);
      if 0 < k < |usable| - 1 { DirtyIsStray(h, usable[k - 1], usable[k], usable[k + 1]); }
    }
  }

  /** The part of a list inside the window. */
  lemma WindowExactly(fixes: seq<Fix>, since: Instant, until: Instant) returns (at: seq<nat>)
    ensures Picks(Filter(fixes, InWindow(since, until)), fixes, at)
    ensures forall i: nat | i < |fixes| :: i in at <==> since <= fixes[i].at && fixes[i].at <= until
  {
    at := FilterPicks(fixes, InWindow(since, until));
  }

  /** The places of the fixes inside the window. */
  ghost function PlacesIn(fixes: seq<Fix>, since: Instant, until: Instant): set<nat> {
    set i: nat | i < |fixes| && since <= fixes[i].at && fixes[i].at <= until
  }

  lemma {:induction false} PlacesCount(at: seq<nat>, places: set<nat>)
    requires forall m, n | 0 <= m < n < |at| :: at[m] < at[n]
    requires forall i :: i in at <==> i in places
    ensures |at| == |places|
  {
    if at == [] {
      assert places == {};
    } else {
      var last := at[|at| - 1];
      assert last in places;
      forall i ensures i in at[..|at| - 1] <==> i in places - {last} {
        assert i in at[..|at| - 1] ==> i < last;
      }
      PlacesCount(at[..|at| - 1], places - {last});
    }
  }

  /** How many fixes are counted, and when the first and the last of them were. */
  ghost predicate CountedRight(fixes: seq<Fix>, since: Instant, until: Instant, count: nat,
        first: Option<Instant>, last: Option<Instant>)
  {
    var places := PlacesIn(fixes, since, until);
    && count == |places| && (first.None? <==> places == {}) && (last.None? <==> places == {})
    && (first.Some? ==> (exists i | i in places :: fixes[i].at == first.value)
                        && forall i | i in places :: first.value <= fixes[i].at)
    && (last.Some? ==> (exists i | i in places :: fixes[i].at == last.value)
                       && forall i | i in places :: fixes[i].at <= last.value)
  }

  lemma CountedExactly(fixes: seq<Fix>, since: Instant, until: Instant)
    requires Ordered(fixes)
    ensures var counted := Filter(fixes, InWindow(since, until));
      CountedRight(fixes, since, until, |counted|, if counted == [] then None else Some(counted[0].at),
                   if counted == [] then None else Some(counted[|counted| - 1].at))
  {
    hide *;
    var at := WindowExactly(fixes, since, until);
    PickedRight(fixes, since, until, Filter(fixes, InWindow(since, until)), at);
  }

  lemma PickedRight(fixes: seq<Fix>, since: Instant, until: Instant, counted: seq<Fix>, at: seq<nat>)
    requires Ordered(fixes) && Picks(counted, fixes, at)
    requires forall i: nat | i < |fixes| :: i in at <==> since <= fixes[i].at && fixes[i].at <= until
    ensures CountedRight(fixes, since, until, |counted|, if counted == [] then None else Some(counted[0].at),
                         if counted == [] then None else Some(counted[|counted| - 1].at))
  {
    var places := PlacesIn(fixes, since, until);
    PicksInside(counted, fixes, at);
    PlacesCount(at, places);
    assert |places| == 0 <==> places == {};
    if counted != [] {
      EndsOfPlaces(fixes, counted, at, places);
    }
    hide Ordered, Picks;
    EndsRight(fixes, since, until, counted, at);
  }

  lemma PicksInside(part: seq<Fix>, whole: seq<Fix>, at: seq<nat>)
    requires Picks(part, whole, at)
    ensures forall i | i in at :: i < |whole|
  {
  }

  lemma EndsRight(fixes: seq<Fix>, since: Instant, until: Instant, counted: seq<Fix>, at: seq<nat>)
    requires var places := PlacesIn(fixes, since, until);
      && |counted| == |at| == |places|
      && (counted == [] <==> places == {})
      && (counted != [] ==>
            && at[0] in places && fixes[at[0]].at == counted[0].at
            && at[|at| - 1] in places && fixes[at[|at| - 1]].at == counted[|counted| - 1].at
            && forall i | i in places :: counted[0].at <= fixes[i].at <= counted[|counted| - 1].at)
    ensures CountedRight(fixes, since, until, |counted|, if counted == [] then None else Some(counted[0].at),
                         if counted == [] then None else Some(counted[|counted| - 1].at))
  {
  }

  /** In time order the first and the last place hold the earliest and the latest fix. */
  lemma EndsOfPlaces(fixes: seq<Fix>, counted: seq<Fix>, at: seq<nat>, places: set<nat>)
    requires Ordered(fixes) && Picks(counted, fixes, at) && counted != []
    requires forall i :: i in at <==> i in places
    ensures forall i | i in places :: i < |fixes| && counted[0].at <= fixes[i].at <= counted[|counted| - 1].at
    ensures at[0] in places && fixes[at[0]].at == counted[0].at
    ensures at[|at| - 1] in places && fixes[at[|at| - 1]].at == counted[|counted| - 1].at
  {
    assert at[0] in at && at[|at| - 1] in at;
    forall i | i in places
      ensures i < |fixes| && counted[0].at <= fixes[i].at <= counted[|counted| - 1].at
    {
      var m :| 0 <= m < |at| && at[m] == i;
      assert at[0] <= at[m] <= at[|at| - 1];
    }
  }

  // ---- The query's route -----------------------------------------------------------------------

  /** A row of `usable`: a fix with what LAG and LEAD see of its neighbours. */
  datatype UsableRow = UsableRow(fix: Fix, prev: Option<Fix>, next: Option<Fix>)

  /** gps_fixed IS DISTINCT FROM false AND NOT (latitude = 0 AND longitude = 0). */
  predicate SqlWhere(f: Fix) {
    (f.gpsFixed.None? || f.gpsFixed.value) && !(f.latitude == 0.0 && f.longitude == 0.0)
  }

  function SqlUsable(fixes: seq<Fix>): (rows: seq<UsableRow>) {
    var usable := Filter(fixes, SqlWhere);
    seq(|usable|, i requires 0 <= i < |usable| =>
      UsableRow(usable[i], if i > 0 then Some(usable[i - 1]) else None,
                if i + 1 < |usable| then Some(usable[i + 1]) else None))
  }

  /** extract(epoch FROM b - a). */
  function Epoch(a: Fix, b: Fix): real { (b.at - a.at) as real / 1_000_000.0 }

  /** (a_speed + b_speed) / 2.0 / 3.6 * seconds * $11 + $12. */
  function SqlReach(a: Fix, b: Fix): real {
    (a.Speed() + b.Speed()) as real / 2.0 / 3.6 * Epoch(a, b) * 1.5 + 40.0
  }

  /** From (p_lat, p_lon) to (latitude, longitude). */
  function SqlDist(h: Haversine, a: Fix, b: Fix): real {
    h(a.latitude, a.longitude, b.latitude, b.longitude)
  }

  /** The condition under the NOT of `kept`. */
  predicate SqlDirty(h: Haversine, row: UsableRow) {
    && row.prev.Some? && row.next.Some?
    && Epoch(row.prev.value, row.fix) <= 300.0 && Epoch(row.fix, row.next.value) <= 300.0
    && SqlDist(h, row.prev.value, row.fix) > SqlReach(row.prev.value, row.fix)
    && SqlDist(h, row.fix, row.next.value) > SqlReach(row.fix, row.next.value)
    && SqlDist(h, row.prev.value, row.next.value) <= SqlReach(row.prev.value, row.next.value)
  }

  function SqlKept(h: Haversine, rows: seq<UsableRow>): seq<Fix> {
    if rows == [] then []
    else
      var row := rows[|rows| - 1];
      SqlKept(h, rows[..|rows| - 1]) + (if SqlDirty(h, row) then [] else [row.fix])
  }

  lemma RowDirty(h: Haversine, row: UsableRow)
    requires row.prev.Some? ==> row.prev.value.at <= row.fix.at
    requires row.next.Some? ==> row.fix.at <= row.next.value.at
    ensures SqlDirty(h, row) <==>
      row.prev.Some? && row.next.Some? && IsDirty(h, row.prev.value, row.fix, row.next.value)
  {
  }

  lemma {:induction false} SqlKeptAgrees(h: Haversine, usable: seq<Fix>, rows: seq<UsableRow>, n: nat)
    requires Ordered(usable) && n <= |usable| && |rows| == n
    requires forall i: nat | i < n :: rows[i] == UsableRow(
      usable[i], if i > 0 then Some(usable[i - 1]) else None, if i + 1 < |usable| then Some(usable[i + 1]) else None)
    ensures SqlKept(h, rows) == KeptOf(h, usable, n)
  {
    if n > 0 {
      SqlKeptAgrees(h, usable, rows[..n - 1], n - 1);
      var row, dirty := rows[n - 1], 1 < n < |usable| && IsDirty(h, usable[n - 2], usable[n - 1], usable[n]);
      RowDirty(h, row);
      KeptStep(h, usable, n);
      hide IsDirty, SqlDirty, KeptOf;
      assert SqlDirty(h, row) <==> dirty;
      assert SqlKept(h, rows) == SqlKept(h, rows[..n - 1]) + (if dirty then [] else [row.fix]);
    }
  }

  lemma KeptStep(h: Haversine, usable: seq<Fix>, n: nat)
    requires 0 < n <= |usable|
    ensures var dirty := 1 < n < |usable| && IsDirty(h, usable[n - 2], usable[n - 1], usable[n]);
      KeptOf(h, usable, n) == KeptOf(h, usable, n - 1) + (if dirty then [] else [usable[n - 1]])
  {
    hide IsDirty;
  }

  lemma {:induction false} WhereAgrees(fixes: seq<Fix>)
    ensures Filter(fixes, SqlWhere) == Filter(fixes, Usable)
  {
    if fixes != [] {
      WhereAgrees(fixes[..|fixes| - 1]);
    }
  }

  /** The route is the query's. */
  lemma RouteIsQuerys(h: Haversine, fixes: seq<Fix>)
    requires Ordered(fixes)
    ensures CleanRoute(h, fixes) == SqlKept(h, SqlUsable(fixes))
  {
    var usable := Filter(fixes, Usable);
    FilterKeepsOrder(fixes, Usable);
    WhereAgrees(fixes);
    SqlKeptAgrees(h, usable, SqlUsable(fixes), |usable|);
  }

  // ---- Gaps ---------------------------------------------------------------------------------

  datatype Kind = Run | Stop | Silent

  /** Where the gap a fix opens ends; the last one lasts to the end of the window. */
  function GapEnd(route: seq<Fix>, i: nat, until: Instant): Instant
    requires i < |route|
  {
    if i + 1 < |route| then route[i + 1].at else Max(route[i].at, until)
  }

  function KindOf(h: Haversine, route: seq<Fix>, i: nat, until: Instant): Kind
    requires i < |route|
  {
    var within := GapEnd(route, i, until) - route[i].at <= MAX_RUNNING_GAP;
    if route[i].Speed() > 0 then (if within then Run else Silent)
    else if i + 1 == |route| || Dist(h, route[i], route[i + 1]) <= PARKED_RADIUS_M then Stop
    else if within then Run else Silent
  }

  /** The instants in the first n gaps of one kind. */
  ghost function Spent(h: Haversine, route: seq<Fix>, n: nat, until: Instant, kind: Kind): set<Instant>
    requires n <= |route|
  {
    if n == 0 then {}
    else
      Spent(h, route, n - 1, until, kind)
      + (if KindOf(h, route, n - 1, until) == kind then Span(route[n - 1].at, GapEnd(route, n - 1, until)) else {})
  }

  lemma {:induction false} SpentIsPast(h: Haversine, route: seq<Fix>, n: nat, until: Instant, kind: Kind)
    requires Ordered(route) && n <= |route|
    ensures forall t | t in Spent(h, route, n, until, kind) ::
      n > 0 && route[0].at <= t < GapEnd(route, n - 1, until)
  {
    if n > 0 {
      SpentIsPast(h, route, n - 1, until, kind);
    }
  }

  /** The gaps the fixes open do not overlap, so neither do the kinds. */
  lemma {:induction false} KindsDisjoint(h: Haversine, route: seq<Fix>, n: nat, until: Instant, a: Kind, b: Kind)
    requires Ordered(route) && n <= |route| && a != b
    ensures Spent(h, route, n, until, a) !! Spent(h, route, n, until, b)
  {
    hide KindOf;
    if n > 0 {
      assert n > 1 ==> GapEnd(route, n - 2, until) == route[n - 1].at;
      KindsDisjoint(h, route, n - 1, until, a, b);
      SpentIsPast(h, route, n - 1, until, a);
      SpentIsPast(h, route, n - 1, until, b);
    }
  }

  /** One more gap adds its overlap with the window. */
  lemma SpentGrows(h: Haversine, route: seq<Fix>, i: nat, until: Instant, kind: Kind, since: Instant)
    requires Ordered(route) && i < |route|
    ensures |Spent(h, route, i + 1, until, kind) * Span(since, until)|
         == |Spent(h, route, i, until, kind) * Span(since, until)|
            + (if KindOf(h, route, i, until) == kind
               then Overlap(route[i].at, GapEnd(route, i, until), since, until)
               else 0)
  {
    var w := Span(since, until);
    var before, gap := Spent(h, route, i, until, kind), Span(route[i].at, GapEnd(route, i, until));
    if KindOf(h, route, i, until) == kind {
      SpentIsPast(h, route, i, until, kind);
      SplitCount(before, gap, w);
      OverlapCounts(route[i].at, GapEnd(route, i, until), since, until);
    }
  }

  // ---- The database's version of the stops ----------------------------------------------------

  /** A row of `classified`. */
  datatype Gap = Gap(kind: Kind, micros: int)

  /** A row of `gaps`: a fix with what LEAD sees of the next one, and the window's end. */
  datatype GapRow = GapRow(fix: Fix, next: Option<Fix>, end: Instant)

  function RowOf(route: seq<Fix>, i: nat, until: Instant): GapRow
    requires i < |route|
  {
    GapRow(route[i], if i + 1 < |route| then Some(route[i + 1]) else None, until)
  }

  /** COALESCE(n_at, GREATEST(at, e)). */
  function SqlEnd(row: GapRow): Instant {
    match row.next case Some(n) => n.at case None => Max(row.fix.at, row.end)
  }

  /** The CASE of `classified`. */
  function SqlKind(h: Haversine, row: GapRow): Kind {
    var near := SqlEnd(row) - row.fix.at <= 600_000_000;
    if row.fix.Speed() > 0 then (if near then Run else Silent)
    else if row.next.None? || SqlDist(h, row.fix, row.next.value) <= 200.0 then Stop
    else if near then Run
    else Silent
  }

  /** GREATEST(0, LEAST(end_at, e) - GREATEST(at, s)). */
  function SqlMicros(row: GapRow, since: Instant): int {
    Max(0, Min(SqlEnd(row), row.end) - Max(row.fix.at, since))
  }

  /** The loop and the query classify and clip every gap alike. */
  lemma RowAgrees(h: Haversine, route: seq<Fix>, i: nat, since: Instant, until: Instant)
    requires i < |route|
    ensures SqlKind(h, RowOf(route, i, until)) == KindOf(h, route, i, until)
    ensures SqlMicros(RowOf(route, i, until), since) == Overlap(route[i].at, GapEnd(route, i, until), since, until)
  {
  }

  function Classified(h: Haversine, route: seq<Fix>, n: nat, since: Instant, until: Instant): (gaps: seq<Gap>)
    requires n <= |route|
    ensures |gaps| == n
  {
    if n == 0 then []
    else
      var row := RowOf(route, n - 1, until);
      Classified(h, route, n - 1, since, until) + [Gap(SqlKind(h, row), SqlMicros(row, since))]
  }

  lemma ClassifiedStep(h: Haversine, route: seq<Fix>, n: nat, since: Instant, until: Instant)
    requires n < |route|
    ensures Classified(h, route, n + 1, since, until)
         == Classified(h, route, n, since, until)
            + [Gap(KindOf(h, route, n, until), Overlap(route[n].at, GapEnd(route, n, until), since, until))]
  {
    RowAgrees(h, route, n, since, until);
  }

  /** count(*) FILTER (WHERE kind <> 'stop') over the rows so far. */
  function RunNo(gaps: seq<Gap>): nat {
    if gaps == [] then 0
    else RunNo(gaps[..|gaps| - 1]) + (if gaps[|gaps| - 1].kind != Stop then 1 else 0)
  }

  /** Row i is a stop row numbered n. */
  predicate InGroup(gaps: seq<Gap>, i: nat, n: nat)
    requires i < |gaps|
  {
    gaps[i].kind == Stop && RunNo(gaps[..i + 1]) == n
  }

  /** sum(secs) over the rows below `rows` that belong to group n. */
  function GroupSum(gaps: seq<Gap>, rows: nat, n: nat): int
    requires rows <= |gaps|
  {
    if rows == 0 then 0
    else GroupSum(gaps, rows - 1, n) + (if InGroup(gaps, rows - 1, n) then gaps[rows - 1].micros else 0)
  }

  predicate GroupExists(gaps: seq<Gap>, n: nat) {
    exists i | 0 <= i < |gaps| :: InGroup(gaps, i, n)
  }

  /** The `stops` of groups 0 to n - 1, in order. */
  function StopsBelow(gaps: seq<Gap>, n: nat): seq<int> {
    if n == 0 then []
    else StopsBelow(gaps, n - 1) + (if GroupExists(gaps, n - 1) then [GroupSum(gaps, |gaps|, n - 1)] else [])
  }

  function SqlStops(gaps: seq<Gap>): seq<int> {
    StopsBelow(gaps, RunNo(gaps) + 1)
  }

  /** The values a FILTER clause lets through. */
  function Where(s: seq<int>, p: int -> bool): seq<int> {
    if s == [] then []
    else Where(s[..|s| - 1], p) + (if p(s[|s| - 1]) then [s[|s| - 1]] else [])
  }

  predicate Halt(micros: int) { micros >= 600_000_000 }
  predicate ShortStop(micros: int) { micros < 600_000_000 }

  function RunSum(gaps: seq<Gap>): int {
    if gaps == [] then 0
    else RunSum(gaps[..|gaps| - 1]) + (if gaps[|gaps| - 1].kind == Run then gaps[|gaps| - 1].micros else 0)
  }

  /** Group numbers only grow along the rows. */
  lemma RunNoMonotone(gaps: seq<Gap>, i: nat, j: nat)
    requires i <= j <= |gaps|
    ensures RunNo(gaps[..i]) <= RunNo(gaps[..j])
    decreases j
  {
    if i < j {
      assert gaps[..j][..j - 1] == gaps[..j - 1];
      RunNoMonotone(gaps, i, j - 1);
    }
  }

  lemma GroupSumPrefix(gaps: seq<Gap>, g: Gap, rows: nat, n: nat)
    requires rows <= |gaps|
    ensures GroupSum(gaps + [g], rows, n) == GroupSum(gaps, rows, n)
  {
    if rows > 0 {
      GroupSumPrefix(gaps, g, rows - 1, n);
      assert (gaps + [g])[..rows] == gaps[..rows];
    }
  }

  /** A new row touches only the group that carries its number. */
  lemma GroupAppend(gaps: seq<Gap>, g: Gap, n: nat)
    ensures var all := gaps + [g];
      var joins := g.kind == Stop && RunNo(gaps) == n;
      && GroupSum(all, |all|, n) == GroupSum(gaps, |gaps|, n) + (if joins then g.micros else 0)
      && (GroupExists(all, n) <==> GroupExists(gaps, n) || joins)
      && RunNo(all) == RunNo(gaps) + (if g.kind == Stop then 0 else 1)
  {
    var all := gaps + [g];
    GroupSumPrefix(gaps, g, |gaps|, n);
    assert all[..|gaps|] == gaps && all[..|all|] == all;
    assert InGroup(all, |gaps|, n) == (g.kind == Stop && RunNo(gaps) == n);
    forall i | 0 <= i < |gaps| ensures InGroup(all, i, n) == InGroup(gaps, i, n) {
      assert all[..i + 1] == gaps[..i + 1];
    }
  }

  lemma StopsAppend(gaps: seq<Gap>, g: Gap, n: nat)
    requires n <= RunNo(gaps)
    ensures StopsBelow(gaps + [g], n) == StopsBelow(gaps, n)
  {
    if n > 0 {
      StopsAppend(gaps, g, n - 1);
      GroupAppend(gaps, g, n - 1);
    }
  }

  /** No row carries a number beyond the last. */
  lemma NoLaterGroup(gaps: seq<Gap>, n: nat)
    requires n > RunNo(gaps)
    ensures !GroupExists(gaps, n)
  {
    forall i | 0 <= i < |gaps| ensures !InGroup(gaps, i, n) {
      RunNoMonotone(gaps, i + 1, |gaps|);
      assert gaps[..|gaps|] == gaps;
    }
  }

  lemma {:induction false} NoRowsNoSum(gaps: seq<Gap>, rows: nat, n: nat)
    requires rows <= |gaps| && !GroupExists(gaps, n)
    ensures GroupSum(gaps, rows, n) == 0
  {
    if rows > 0 {
      assert !InGroup(gaps, rows - 1, n);
      NoRowsNoSum(gaps, rows - 1, n);
    }
  }

  // ---- The loop ---------------------------------------------------------------------------------

  /** What the loop has seen of the stops: the closed ones and the open one. */
  ghost predicate StopState(gaps: seq<Gap>, halts: seq<int>, shortStops: seq<int>, stop: Option<int>) {
    var n := RunNo(gaps);
    && halts == Where(StopsBelow(gaps, n), Halt)
    && shortStops == Where(StopsBelow(gaps, n), ShortStop)
    && (stop.Some? <==> GroupExists(gaps, n))
    && (stop.Some? ==> stop.value == GroupSum(gaps, |gaps|, n))
  }

  lemma WhereAppend(s: seq<int>, x: int, p: int -> bool)
    ensures Where(s + [x], p) == Where(s, p) + (if p(x) then [x] else [])
  {
    assert (s + [x])[..|s|] == s;
  }

  /** A stop row prolongs the open stop or opens one. */
  lemma StopRow(gaps: seq<Gap>, g: Gap, halts: seq<int>, shortStops: seq<int>, stop: Option<int>)
    requires StopState(gaps, halts, shortStops, stop) && g.kind == Stop
    ensures StopState(gaps + [g], halts, shortStops, Some((if stop.Some? then stop.value else 0) + g.micros))
  {
    var n := RunNo(gaps);
    GroupAppend(gaps, g, n);
    StopsAppend(gaps, g, n);
    if stop.None? { NoRowsNoSum(gaps, |gaps|, n); }
  }

  function Close(stop: Option<int>, halts: seq<int>, shortStops: seq<int>): (seq<int>, seq<int>) {
    if stop.None? then (halts, shortStops)
    else if stop.value >= HALT_THRESHOLD then (halts + [stop.value], shortStops)
    else (halts, shortStops + [stop.value])
  }

  /** Closing the open stop yields every group up to it. */
  lemma CloseStop(gaps: seq<Gap>, halts: seq<int>, shortStops: seq<int>, stop: Option<int>)
    requires StopState(gaps, halts, shortStops, stop)
    ensures Close(stop, halts, shortStops).0 == Where(SqlStops(gaps), Halt)
    ensures Close(stop, halts, shortStops).1 == Where(SqlStops(gaps), ShortStop)
  {
    var n := RunNo(gaps);
    if stop.Some? {
      WhereAppend(StopsBelow(gaps, n), stop.value, Halt);
      WhereAppend(StopsBelow(gaps, n), stop.value, ShortStop);
    } else {
      assert SqlStops(gaps) == StopsBelow(gaps, n);
    }
  }

  /** Any other row closes it and starts the next number. */
  lemma OtherRow(gaps: seq<Gap>, g: Gap, halts: seq<int>, shortStops: seq<int>, stop: Option<int>)
    requires StopState(gaps, halts, shortStops, stop) && g.kind != Stop
    ensures var c := Close(stop, halts, shortStops);
      StopState(gaps + [g], c.0, c.1, None)
  {
    hide Where, Close, GroupExists, GroupSum, RunNo;
    var n := RunNo(gaps);
    CloseStop(gaps, halts, shortStops, stop);
    GroupAppend(gaps, g, n);
    GroupAppend(gaps, g, n + 1);
    NoLaterGroup(gaps, n + 1);
    StopsAppend(gaps, g, n);
  }

  function MaxOf(s: seq<int>): (m: int)
    ensures s == [] ==> m == 0
    ensures s != [] ==> m in s
    ensures forall x | x in s :: x <= m
  {
    assert s != [] ==> forall x :: x in s <==> x in s[..|s| - 1] || x == s[|s| - 1];
    if s == [] then 0 else if |s| == 1 then s[0] else Max(MaxOf(s[..|s| - 1]), s[|s| - 1])
  }

  datatype DeviceTrips = DeviceTrips(
    metres: real, maxSpeedKmh: Option<int>, running: int, haltCount: nat, halted: int, longestHalt: int,
    fixCount: nat, firstFixAt: Option<Instant>, lastFixAt: Option<Instant>, shortStopped: int, noData: int)

  ghost function Metres(h: Haversine, fixes: seq<Fix>, n: nat): real
    requires n <= |fixes|
  {
    if n < 2 then 0.0 else Metres(h, fixes, n - 1) + Dist(h, fixes[n - 2], fixes[n - 1])
  }

  /** sum(CASE WHEN p_lat IS NULL THEN 0 ELSE the distance from the fix before END). */
  function SqlMetres(h: Haversine, rows: seq<UsableRow>): real {
    if rows == [] then 0.0
    else
      var row := rows[|rows| - 1];
      SqlMetres(h, rows[..|rows| - 1]) + (if row.prev.None? then 0.0 else SqlDist(h, row.prev.value, row.fix))
  }

  /** The rows of `ins`: each fix of the route in the window with the one before it. */
  function LagRows(fixes: seq<Fix>): (rows: seq<UsableRow>)
    ensures |rows| == |fixes|
  {
    seq(|fixes|, i requires 0 <= i < |fixes| =>
      UsableRow(fixes[i], if i == 0 then None else Some(fixes[i - 1]), None))
  }

  /** The distance is the query's. */
  lemma {:induction false} MetresIsQuerys(h: Haversine, fixes: seq<Fix>, n: nat)
    requires n <= |fixes|
    ensures Metres(h, fixes, n) == SqlMetres(h, LagRows(fixes)[..n])
  {
    var rows := LagRows(fixes);
    if n > 0 {
      MetresIsQuerys(h, fixes, n - 1);
      assert rows[..n][..n - 1] == rows[..n - 1] && rows[..n][n - 1] == rows[n - 1];
      if n == 1 {
        assert rows[..0] == [];
      }
    }
  }

  function InWindow(since: Instant, until: Instant): Fix -> bool { (f: Fix) => since <= f.at <= until }

  /** The seconds of the window each kind of gap takes, measured as instants. */
  ghost function TimeIn(h: Haversine, fixes: seq<Fix>, since: Instant, until: Instant, kind: Kind): set<Instant> {
    var route := CleanRoute(h, fixes);
    Spent(h, route, |route|, until, kind) * Span(since, until)
  }

  /** The report for one device. The window is [since, until], until already capped at now;
  the fixes may reach past either end of it. */
  method SummarizeDevice(h: Haversine, fixes: seq<Fix>, sinceOrNone: Option<Instant>, untilOrNone: Option<Instant>)
    returns (r: DeviceTrips, since: Instant, until: Instant)
    requires Ordered(fixes)
    ensures since == if sinceOrNone.Some? then sinceOrNone.value else if fixes != [] then fixes[0].at else DATETIME_MIN
    ensures until == if untilOrNone.Some? then untilOrNone.value
                     else if fixes != [] then fixes[|fixes| - 1].at else since
    // Each figure is the time really spent that way inside the window ...
    ensures r.running == |TimeIn(h, fixes, since, until, Run)|
    ensures r.halted + r.shortStopped == |TimeIn(h, fixes, since, until, Stop)|
    // ... and nothing is counted twice or lost: the clamp on the remainder never bites.
    ensures var ran, stopped := TimeIn(h, fixes, since, until, Run), TimeIn(h, fixes, since, until, Stop);
      fixes != [] ==> r.noData == |Span(since, until) - ran - stopped|
    ensures fixes == [] ==> r.noData == 0
    ensures fixes != [] ==> r.running + r.halted + r.shortStopped + r.noData == Max(0, until - since)
    // Distance is measured along the route, positions are counted off it.
    ensures var inside := Filter(CleanRoute(h, fixes), InWindow(since, until));
      r.metres == Metres(h, inside, |inside|) && TopSpeed(inside, r.maxSpeedKmh)
    ensures CountedRight(fixes, since, until, r.fixCount, r.firstFixAt, r.lastFixAt)
    // The stops are the database's.
    ensures var route := CleanRoute(h, fixes);
      var gaps := Classified(h, route, |route|, since, until);
      && r.running == RunSum(gaps)
      && r.haltCount == |Where(SqlStops(gaps), Halt)|
      && r.halted == Sum(Where(SqlStops(gaps), Halt))
      && r.longestHalt == MaxOf(Where(SqlStops(gaps), Halt))
      && r.shortStopped == Sum(Where(SqlStops(gaps), ShortStop))
  {
    hide CleanRoute, Filter, Metres, SqlStops, Classified, Where, Spent, RunSum, MaxOf, TopSpeed, Sum, Span, InWindow;
    since := if sinceOrNone.Some? then sinceOrNone.value else if fixes != [] then fixes[0].at else DATETIME_MIN;
    until := if untilOrNone.Some? then untilOrNone.value else if fixes != [] then fixes[|fixes| - 1].at else since;
    var counted := Filter(fixes, InWindow(since, until));
    CountedExactly(fixes, since, until);
    var route := CleanRoute(h, fixes);
    CleanRouteOrdered(h, fixes);
    var inside := Filter(route, InWindow(since, until));
    var metres := TrackLength(h, inside);
    var topSpeed := PlausibleTopSpeed(inside);
    var running, halts, shortStops, noData := MeasureWindow(h, route, since, until, fixes != []);
    assert running == |TimeIn(h, fixes, since, until, Run)|;
    assert Sum(halts) + Sum(shortStops) == |TimeIn(h, fixes, since, until, Stop)|;
    ghost var since', until' := since, until;
    assert CountedRight(fixes, since', until', |counted|, if counted == [] then None else Some(counted[0].at),
                        if counted == [] then None else Some(counted[|counted| - 1].at));
    hide *;
    r := DeviceTrips(metres, topSpeed, running, |halts|, Sum(halts), MaxOf(halts), |counted|,
      if counted != [] then Some(counted[0].at) else None,
      if counted != [] then Some(counted[|counted| - 1].at) else None, Sum(shortStops), noData);
  }

  /** The window's time along a route, split four ways. */
  method MeasureWindow(h: Haversine, route: seq<Fix>, since: Instant, until: Instant, any: bool)
    returns (running: int, halts: seq<int>, shortStops: seq<int>, noData: int)
    requires Ordered(route)
    ensures var w := Span(since, until);
      var ran, stopped := Spent(h, route, |route|, until, Run) * w, Spent(h, route, |route|, until, Stop) * w;
      && running == |ran| && Sum(halts) + Sum(shortStops) == |stopped|
      && noData == (if any then |w - ran - stopped| else 0)
      && (any ==> running + Sum(halts) + Sum(shortStops) + noData == Max(0, until - since))
    ensures var gaps := Classified(h, route, |route|, since, until);
      && running == RunSum(gaps)
      && halts == Where(SqlStops(gaps), Halt) && shortStops == Where(SqlStops(gaps), ShortStop)
  {
    hide SqlStops, Classified, Where, Spent, RunSum, Sum, Ordered;
    running, halts, shortStops := MeasureGaps(h, route, since, until);
    var window := if any then Max(0, until - since) else 0;
    noData := Max(0, window - running - Sum(halts) - Sum(shortStops));
    KindsDisjoint(h, route, |route|, until, Run, Stop);
    Remainder(Span(since, until), Spent(h, route, |route|, until, Run), Spent(h, route, |route|, until, Stop));
  }

  /** What the loop knows after the first n gaps of the route. */
  ghost predicate Measured(h: Haversine, route: seq<Fix>, n: nat, since: Instant, until: Instant,
                           running: int, halts: seq<int>, shortStops: seq<int>, stop: Option<int>)
    requires n <= |route|
  {
    var gaps, w := Classified(h, route, n, since, until), Span(since, until);
    && running == |Spent(h, route, n, until, Run) * w| == RunSum(gaps)
    && StopState(gaps, halts, shortStops, stop)
    && Sum(halts) + Sum(shortStops) + (if stop.Some? then stop.value else 0) == |Spent(h, route, n, until, Stop) * w|
  }

  lemma MeasuredStart(h: Haversine, route: seq<Fix>, since: Instant, until: Instant)
    ensures Measured(h, route, 0, since, until, 0, [], [], None)
  {
    NoRows();
  }

  /** One more gap, by kind. */
  lemma MeasuredStop(h: Haversine, route: seq<Fix>, n: nat, since: Instant, until: Instant,
                     running: int, halts: seq<int>, shortStops: seq<int>, stop: Option<int>, micros: int)
    requires n < |route| && Ordered(route) && Measured(h, route, n, since, until, running, halts, shortStops, stop)
    requires KindOf(h, route, n, until) == Stop && micros == Overlap(route[n].at, GapEnd(route, n, until), since, until)
    ensures var longer := Some((if stop.Some? then stop.value else 0) + micros);
      Measured(h, route, n + 1, since, until, running, halts, shortStops, longer)
  {
    ClassifiedStep(h, route, n, since, until);
    SpentGrows(h, route, n, until, Run, since);
    SpentGrows(h, route, n, until, Stop, since);
    hide KindOf, GapEnd, StopState, RunSum, Overlap, Spent, Sum, Ordered, Classified, Span;
    var gaps := Classified(h, route, n, since, until);
    RunSumAppend(gaps, Gap(Stop, micros));
    StopRow(gaps, Gap(Stop, micros), halts, shortStops, stop);
  }

  lemma MeasuredOther(h: Haversine, route: seq<Fix>, n: nat, since: Instant, until: Instant,
                      running: int, halts: seq<int>, shortStops: seq<int>, stop: Option<int>, kind: Kind, micros: int)
    requires n < |route| && Ordered(route) && Measured(h, route, n, since, until, running, halts, shortStops, stop)
    requires KindOf(h, route, n, until) == kind != Stop
    requires micros == Overlap(route[n].at, GapEnd(route, n, until), since, until)
    ensures var closed := Close(stop, halts, shortStops);
      Measured(h, route, n + 1, since, until, running + (if kind == Run then micros else 0), closed.0, closed.1, None)
  {
    ClassifiedStep(h, route, n, since, until);
    SpentGrows(h, route, n, until, Run, since);
    SpentGrows(h, route, n, until, Stop, since);
    hide KindOf, GapEnd, StopState, RunSum, Overlap, Close, Spent, Sum, Ordered, Classified, Span;
    var gaps := Classified(h, route, n, since, until);
    RunSumAppend(gaps, Gap(kind, micros));
    OtherRow(gaps, Gap(kind, micros), halts, shortStops, stop);
    CloseSums(stop, halts, shortStops);
  }

  /** The loop over the route's gaps. */
  method MeasureGaps(h: Haversine, route: seq<Fix>, since: Instant, until: Instant)
    returns (running: int, halts: seq<int>, shortStops: seq<int>)
    requires Ordered(route)
    ensures running == |Spent(h, route, |route|, until, Run) * Span(since, until)|
    ensures Sum(halts) + Sum(shortStops) == |Spent(h, route, |route|, until, Stop) * Span(since, until)|
    ensures var gaps := Classified(h, route, |route|, since, until);
      && running == RunSum(gaps)
      && halts == Where(SqlStops(gaps), Halt) && shortStops == Where(SqlStops(gaps), ShortStop)
  {
    hide KindOf, GapEnd, Close, Measured, Ordered, SqlStops, Where, Spent, Classified;
    running, halts, shortStops := 0, [], [];
    var stop: Option<int> := None;
    MeasuredStart(h, route, since, until);
    for i := 0 to |route|
      invariant Measured(h, route, i, since, until, running, halts, shortStops, stop)
    {
      var kind := Classify(h, route, i, until);
      var micros := Overlap(route[i].at, GapEnd(route, i, until), since, until);
      if kind == Stop {
        MeasuredStop(h, route, i, since, until, running, halts, shortStops, stop, micros);
        stop := Some((if stop.Some? then stop.value else 0) + micros);
      } else {
        MeasuredOther(h, route, i, since, until, running, halts, shortStops, stop, kind, micros);
        halts, shortStops := DoClose(stop, halts, shortStops);
        stop := None;
        if kind == Run {
          running := running + micros;
        }
      }
    }
    MeasuredEnd(h, route, since, until, running, halts, shortStops, stop);
    halts, shortStops := DoClose(stop, halts, shortStops);
  }

  lemma MeasuredEnd(h: Haversine, route: seq<Fix>, since: Instant, until: Instant,
                    running: int, halts: seq<int>, shortStops: seq<int>, stop: Option<int>)
    requires Measured(h, route, |route|, since, until, running, halts, shortStops, stop)
    ensures var gaps, closed := Classified(h, route, |route|, since, until), Close(stop, halts, shortStops);
      && running == |Spent(h, route, |route|, until, Run) * Span(since, until)| == RunSum(gaps)
      && Sum(closed.0) + Sum(closed.1) == |Spent(h, route, |route|, until, Stop) * Span(since, until)|
      && closed.0 == Where(SqlStops(gaps), Halt) && closed.1 == Where(SqlStops(gaps), ShortStop)
  {
    hide StopState, RunSum, Close, Spent, Sum, SqlStops, Where, Classified;
    CloseStop(Classified(h, route, |route|, since, until), halts, shortStops, stop);
    CloseSums(stop, halts, shortStops);
  }

  /** close_stop: file the open stop under halts or short stops. */
  method DoClose(stop: Option<int>, halts: seq<int>, shortStops: seq<int>)
    returns (halts': seq<int>, shortStops': seq<int>)
    ensures (halts', shortStops') == Close(stop, halts, shortStops)
    ensures Sum(halts') + Sum(shortStops') == Sum(halts) + Sum(shortStops) + (if stop.Some? then stop.value else 0)
  {
    halts', shortStops' := halts, shortStops;
    CloseSums(stop, halts, shortStops);
    if stop.Some? {
      if stop.value >= HALT_THRESHOLD {
        halts' := halts + [stop.value];
      } else {
        shortStops' := shortStops + [stop.value];
      }
    }
  }

  lemma NoRows()
    ensures StopState([], [], [], None)
    ensures RunSum([]) == 0 && Sum([]) == 0
    ensures forall h: Haversine, route, until, kind :: Spent(h, route, 0, until, kind) == {}
  {
    assert StopsBelow([], 0) == [];
  }

  lemma RunSumAppend(gaps: seq<Gap>, g: Gap)
    ensures RunSum(gaps + [g]) == RunSum(gaps) + (if g.kind == Run then g.micros else 0)
  {
    assert (gaps + [g])[..|gaps|] == gaps;
  }

  lemma CloseSums(stop: Option<int>, halts: seq<int>, shortStops: seq<int>)
    ensures var c := Close(stop, halts, shortStops);
      Sum(c.0) + Sum(c.1) == Sum(halts) + Sum(shortStops) + (if stop.Some? then stop.value else 0)
  {
    if stop.Some? {
      assert (halts + [stop.value])[..|halts|] == halts;
      assert (shortStops + [stop.value])[..|shortStops|] == shortStops;
    }
  }

  /** What two disjoint parts leave of a window. */
  lemma Remainder(w: set<Instant>, a: set<Instant>, b: set<Instant>)
    requires a !! b
    ensures |w| == |a * w| + |b * w| + |w - a * w - b * w|
  {
    assert w == a * w + b * w + (w - a * w - b * w);
    assert a * w !! b * w;
    assert |a * w + b * w| == |a * w| + |b * w|;
  }

  method Classify(h: Haversine, route: seq<Fix>, i: nat, until: Instant) returns (kind: Kind)
    requires i < |route|
    ensures kind == KindOf(h, route, i, until)
  {
    var fix := route[i];
    var end := if i + 1 < |route| then route[i + 1].at else Max(fix.at, until);
    var withinGap := end - fix.at <= MAX_RUNNING_GAP;
    if fix.Speed() > 0 {
      kind := if withinGap then Run else Silent;
    } else if i + 1 == |route| || Dist(h, fix, route[i + 1]) <= PARKED_RADIUS_M {
      kind := Stop;
    } else {
      kind := if withinGap then Run else Silent;
    }
  }

  method TrackLength(h: Haversine, fixes: seq<Fix>) returns (metres: real)
    ensures metres == Metres(h, fixes, |fixes|)
  {
    metres := 0.0;
    for i := 0 to |fixes|
      invariant metres == Metres(h, fixes, i)
    {
      if i > 0 {
        metres := metres + Dist(h, fixes[i - 1], fixes[i]);
      }
    }
  }

  /** A reading is believed unless it has no lock, is over the ceiling, or stands alone. */
  predicate Plausible(fixes: seq<Fix>, i: nat)
    requires i < |fixes|
  {
    var f := fixes[i];
    && f.speedKmh.Some? && f.gpsFixed != Some(false) && f.speedKmh.value <= MAX_PLAUSIBLE_SPEED_KMH
    && (|fixes| == 1
        || (i > 0 && f.speedKmh.value <= fixes[i - 1].Speed() + SPIKE_KMH)
        || (i + 1 < |fixes| && f.speedKmh.value <= fixes[i + 1].Speed() + SPIKE_KMH))
  }

  /** The greatest believable reading, if there is one. */
  ghost predicate TopSpeed(fixes: seq<Fix>, best: Option<int>) {
    && (best.None? <==> forall i | 0 <= i < |fixes| :: !Plausible(fixes, i))
    && (best.Some? ==> exists i | 0 <= i < |fixes| :: Plausible(fixes, i) && fixes[i].speedKmh == best)
    && (best.Some? ==> forall i | 0 <= i < |fixes| && Plausible(fixes, i) :: fixes[i].speedKmh.value <= best.value)
  }

  method PlausibleTopSpeed(fixes: seq<Fix>) returns (best: Option<int>)
    ensures TopSpeed(fixes, best)
  {
    best := None;
    for i := 0 to |fixes|
      invariant best.None? <==> forall k | 0 <= k < i :: !Plausible(fixes, k)
      invariant best.Some? ==> exists k | 0 <= k < i :: Plausible(fixes, k) && fixes[k].speedKmh == best
      invariant best.Some? ==> forall k | 0 <= k < i && Plausible(fixes, k) :: fixes[k].speedKmh.value <= best.value
    {
      var f := fixes[i];
      if f.speedKmh.None? || f.gpsFixed == Some(false) || f.speedKmh.value > MAX_PLAUSIBLE_SPEED_KMH { continue; }
      var speed := f.speedKmh.value;
      var neighbours := (if i > 0 then [fixes[i - 1].Speed()] else [])
                      + (if i + 1 < |fixes| then [fixes[i + 1].Speed()] else []);
      assert forall n :: n in neighbours <==>
        (i > 0 && n == fixes[i - 1].Speed()) || (i + 1 < |fixes| && n == fixes[i + 1].Speed());
      assert i > 0 ==> fixes[i - 1].Speed() in neighbours;
      assert i + 1 < |fixes| ==> fixes[i + 1].Speed() in neighbours;
      assert neighbours == [] <==> |fixes| == 1;
      if neighbours != [] && forall n | n in neighbours :: speed > n + SPIKE_KMH { continue; }
      assert Plausible(fixes, i);
      if best.None? || speed > best.value {
        best := Some(speed);
      }
    }
  }
}
