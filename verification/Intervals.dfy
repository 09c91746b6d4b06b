/** Time as whole microseconds, and stretches of time as the sets of instants they hold.
The length of a stretch is the size of its set, so "how long" is always counted. */
module Intervals {
  import opened Basics


  type Instant = int

  const SECOND := 1_000_000
  const MINUTE := 60 * SECOND
  const HOUR := 60 * MINUTE

  /** The instants from a up to, not including, b. */
  ghost function Span(a: Instant, b: Instant): (s: set<Instant>)
    ensures forall t :: t in s <==> a <= t < b
    ensures |s| == Max(0, b - a)
    decreases b - a
  {
    if a < b then Span(a, b - 1) + {b - 1} else {}
  }

  lemma SplitCount(a: set<Instant>, b: set<Instant>, w: set<Instant>)
    requires a !! b
    ensures |(a + b) * w| == |a * w| + |b * w|
  {
    assert (a + b) * w == a * w + b * w;
    assert a * w !! b * w;
  }

  /** The length two stretches share, computed without sets. */
  function Overlap(a: Instant, b: Instant, since: Instant, until: Instant): int {
    Max(0, Min(b, until) - Max(a, since))
  }

  lemma OverlapCounts(a: Instant, b: Instant, since: Instant, until: Instant)
    ensures Overlap(a, b, since, until) == |Span(a, b) * Span(since, until)|
  {
    assert Span(a, b) * Span(since, until) == Span(Max(a, since), Min(b, until));
  }

  datatype Interval = Interval(start: Instant, end: Instant)

  /** Every instant some interval of the list holds. */
  ghost function Covered(s: seq<Interval>): set<Instant> {
    if s == [] then {} else Covered(s[..|s| - 1]) + Span(s[|s| - 1].start, s[|s| - 1].end)
  }

  predicate Holds(iv: Interval, t: Instant) { iv.start <= t < iv.end }

  lemma CoveredIff(s: seq<Interval>, t: Instant)
    ensures t in Covered(s) <==> exists iv | iv in s :: Holds(iv, t)
  {
    if s != [] {
      var init, last := s[..|s| - 1], s[|s| - 1];
      CoveredIff(init, t);
      assert forall iv :: iv in s <==> iv in init || iv == last;
      assert t in Span(last.start, last.end) <==> Holds(last, t);
      assert last in s;
    }
  }

  lemma CoveredAppend(s: seq<Interval>, iv: Interval)
    ensures Covered(s + [iv]) == Covered(s) + Span(iv.start, iv.end)
  {
    assert (s + [iv])[..|s|] == s;
  }

  lemma CoveredConcat(a: seq<Interval>, b: seq<Interval>)
    ensures Covered(a + b) == Covered(a) + Covered(b)
  {
    if b == [] {
      assert a + b == a;
    } else {
      var init := b[..|b| - 1];
      CoveredConcat(a, init);
      assert (a + b)[..|a + b| - 1] == a + init;
    }
  }

  /** The order of the list does not matter. */
  lemma CoveredPermutes(a: seq<Interval>, b: seq<Interval>)
    requires multiset(a) == multiset(b)
    ensures Covered(a) == Covered(b)
  {
    assert forall iv :: iv in a <==> iv in multiset(a);
    assert forall iv :: iv in b <==> iv in multiset(b);
    forall t ensures t in Covered(a) <==> t in Covered(b) {
      CoveredIff(a, t);
      CoveredIff(b, t);
    }
  }

  lemma {:induction false} CoveredWithin(s: seq<Interval>, lo: Instant, hi: Instant)
    requires forall iv | iv in s :: lo <= iv.start && iv.end <= hi
    ensures Covered(s) <= Span(lo, hi)
  {
    if s != [] {
      assert s[|s| - 1] in s;
      CoveredWithin(s[..|s| - 1], lo, hi);
    }
  }

  /** Intervals one after the other. */
  ghost predicate Chain(s: seq<Interval>) {
    && (forall i | 0 <= i < |s| :: s[i].start <= s[i].end)
    && (forall i, j | 0 <= i < j < |s| :: s[i].end <= s[j].start)
  }

  /** The next interval of a chain lies beyond the others. */
  lemma ChainApart(s: seq<Interval>, iv: Interval)
    requires Chain(s + [iv])
    ensures Covered(s) !! Span(iv.start, iv.end)
  {
    forall t | t in Covered(s) ensures t < iv.start {
      CoveredIff(s, t);
      var x :| x in s && Holds(x, t);
      var k :| 0 <= k < |s| && s[k] == x;
      assert (s + [iv])[k] == x && (s + [iv])[|s|] == iv;
    }
  }

  lemma ChainPrefix(s: seq<Interval>, n: nat)
    requires Chain(s) && n <= |s|
    ensures Chain(s[..n])
  {
  }

  lemma DisjointCount(a: set<Instant>, b: set<Instant>)
    requires a !! b
    ensures |a + b| == |a| + |b|
  {
  }

  /** The length of a chain is the sum of its intervals' lengths. */
  lemma ChainGrows(s: seq<Interval>, iv: Interval)
    requires Chain(s + [iv])
    ensures |Covered(s + [iv])| == |Covered(s)| + (iv.end - iv.start)
  {
    ChainApart(s, iv);
    CoveredAppend(s, iv);
    DisjointCount(Covered(s), Span(iv.start, iv.end));
    assert (s + [iv])[|s|] == iv;
    hide Covered;
  }

  lemma UnionAssociates(a: set<Instant>, b: set<Instant>, c: set<Instant>, d: set<Instant>)
    requires b + c == d
    ensures a + b + c == a + d
  {
  }

  function Sum(s: seq<int>): int {
    if s == [] then 0 else Sum(s[..|s| - 1]) + s[|s| - 1]
  }

  // ---- Sorting, as the library does it -----------------------------------------------------

  /** A sort key; ties on the first part go to the second. */
  datatype Key = Key(major: int, minor: int)

  predicate Before(a: Key, b: Key) {
    a.major < b.major || (a.major == b.major && a.minor <= b.minor)
  }

  predicate SortedBy<T>(s: seq<T>, key: T -> Key) {
    forall i, j | 0 <= i < j < |s| :: Before(key(s[i]), key(s[j]))
  }

  function Insert<T>(x: T, s: seq<T>, key: T -> Key): seq<T> {
    if s == [] then [x]
    else if Before(key(x), key(s[0])) then [x] + s
    else [s[0]] + Insert(x, s[1..], key)
  }

  /** sorted(s, key=key). */
  function Sort<T>(s: seq<T>, key: T -> Key): seq<T> {
    if s == [] then [] else Insert(s[0], Sort(s[1..], key), key)
  }

  lemma InsertPermutes<T>(x: T, s: seq<T>, key: T -> Key)
    ensures multiset(Insert(x, s, key)) == multiset{x} + multiset(s)
  {
    if s != [] && !Before(key(x), key(s[0])) {
      InsertPermutes(x, s[1..], key);
      assert s == [s[0]] + s[1..];
    }
  }

  lemma InsertSorts<T>(x: T, s: seq<T>, key: T -> Key)
    requires SortedBy(s, key)
    ensures SortedBy(Insert(x, s, key), key)
  {
    if s != [] && !Before(key(x), key(s[0])) {
      var r := Insert(x, s[1..], key);
      InsertSorts(x, s[1..], key);
      InsertPermutes(x, s[1..], key);
      forall y | y in r ensures Before(key(s[0]), key(y)) {
        assert y in multiset(r);
        if y != x {
          assert y in s[1..];
        }
      }
    }
  }

  lemma Sorts<T>(s: seq<T>, key: T -> Key)
    ensures multiset(Sort(s, key)) == multiset(s)
    ensures SortedBy(Sort(s, key), key)
    ensures |Sort(s, key)| == |s|
    ensures forall x :: x in Sort(s, key) <==> x in s
  {
    if s != [] {
      Sorts(s[1..], key);
      InsertPermutes(s[0], Sort(s[1..], key), key);
      InsertSorts(s[0], Sort(s[1..], key), key);
      hide SortedBy, Insert;
      assert s == [s[0]] + s[1..];
    }
    SameElements(Sort(s, key), s);
  }

  lemma SameElements<T>(a: seq<T>, b: seq<T>)
    requires multiset(a) == multiset(b)
    ensures |a| == |b| && forall x :: x in a <==> x in b
  {
    assert |a| == |multiset(a)| == |multiset(b)| == |b|;
    assert forall x :: x in a <==> x in multiset(a);
    assert forall x :: x in b <==> x in multiset(b);
  }

  /** The least element of a sorted list is the first. */
  lemma FirstIsLeast<T>(a: seq<T>, key: T -> Key, x: T)
    requires SortedBy(a, key) && x in a
    ensures Before(key(a[0]), key(x)) || a[0] == x
  {
  }

  lemma TailPermutes<T>(a: seq<T>, b: seq<T>)
    requires a != [] && b != [] && multiset(a) == multiset(b) && a[0] == b[0]
    ensures multiset(a[1..]) == multiset(b[1..])
    ensures multiset(a[1..]) <= multiset(a)
  {
    assert a == [a[0]] + a[1..] && b == [b[0]] + b[1..];
    assert multiset(a[1..]) == multiset(a) - multiset{a[0]};
    assert multiset(b[1..]) == multiset(b) - multiset{b[0]};
  }

  /** With distinct keys there is only one sorted order, whatever order one starts from. */
  lemma {:induction false} SortCanonical<T>(a: seq<T>, b: seq<T>, key: T -> Key)
    requires SortedBy(a, key) && SortedBy(b, key) && multiset(a) == multiset(b)
    requires forall x, y | x in multiset(a) && y in multiset(a) :: key(x) == key(y) ==> x == y
    ensures a == b
  {
    assert |a| == |multiset(a)| == |multiset(b)| == |b|;
    if a != [] {
      assert a[0] in multiset(b) && b[0] in multiset(a);
      FirstIsLeast(a, key, b[0]);
      FirstIsLeast(b, key, a[0]);
      TailPermutes(a, b);
      SortCanonical(a[1..], b[1..], key);
    }
  }
}
