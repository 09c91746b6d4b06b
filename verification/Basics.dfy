/** What every part of the model uses. */
module Basics {
  datatype Option<+T> = None | Some(value: T)

  function Min(a: int, b: int): int { if a < b then a else b }
  function Max(a: int, b: int): int { if a < b then b else a }

  function Concat<T>(parts: seq<seq<T>>): seq<T> {
    if parts == [] then [] else parts[0] + Concat(parts[1..])
  }

  lemma Associate<T>(a: seq<T>, b: seq<T>, c: seq<T>)
    ensures a + (b + c) == (a + b) + c
  {
  }

  lemma ConcatAppend<T>(a: seq<seq<T>>, b: seq<seq<T>>)
    ensures Concat(a + b) == Concat(a) + Concat(b)
  {
    if a == [] {
      assert a + b == b;
    } else {
      assert (a + b)[1..] == a[1..] + b;
      ConcatAppend(a[1..], b);
    }
  }

  /** Leaving some elements of b out gives a. */
  ghost predicate Subsequence<T>(a: seq<T>, b: seq<T>)
    decreases b
  {
    a == [] ||
    (b != [] &&
     var init := b[..|b| - 1];
     Subsequence(a, init) || (a[|a| - 1] == b[|b| - 1] && Subsequence(a[..|a| - 1], init)))
  }

  lemma {:induction false} SubsequenceExtends<T>(a: seq<T>, b: seq<T>, c: seq<T>)
    requires Subsequence(a, b)
    ensures Subsequence(a, b + c)
    decreases c
  {
    if c == [] {
      assert b + c == b;
    } else {
      SubsequenceExtends(a, b, c[..|c| - 1]);
      assert (b + c)[..|b + c| - 1] == b + c[..|c| - 1];
    }
  }

  lemma {:induction false} SubsequenceJoins<T>(a: seq<T>, b: seq<T>, c: seq<T>, d: seq<T>)
    requires Subsequence(a, b) && Subsequence(c, d)
    ensures Subsequence(a + c, b + d)
    decreases d
  {
    if c == [] {
      assert a + c == a;
      SubsequenceExtends(a, b, d);
    } else {
      var init := d[..|d| - 1];
      assert (b + d)[..|b + d| - 1] == b + init;
      if Subsequence(c, init) {
        SubsequenceJoins(a, b, c, init);
      } else {
        SubsequenceJoins(a, b, c[..|c| - 1], init);
        assert (a + c)[..|a + c| - 1] == a + c[..|c| - 1];
      }
    }
  }

  /** Part is what stands in whole at these places, in order. */
  ghost predicate Picks<T>(part: seq<T>, whole: seq<T>, at: seq<nat>) {
    && |part| == |at|
    && (forall m, n | 0 <= m < n < |at| :: at[m] < at[n])
    && (forall m | 0 <= m < |at| :: at[m] < |whole| && part[m] == whole[at[m]])
  }

  lemma PicksMore<T>(part: seq<T>, whole: seq<T>, at: seq<nat>, n: nat)
    requires n < |whole| && Picks(part, whole[..n], at)
    ensures Picks(part, whole[..n + 1], at)
    ensures Picks(part + [whole[n]], whole[..n + 1], at + [n])
  {
    assert forall m | 0 <= m < |at| :: whole[..n + 1][at[m]] == whole[..n][at[m]];
  }
}
