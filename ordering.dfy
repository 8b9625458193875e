/**
 * The query-set operations the views use: `.filter(...)`, which keeps the
 * stored order, and `.order_by('-id').distinct()`, which sorts by a key in
 * descending order.
 */
module Ordering {

  /** Keys strictly decrease along `xs`; in particular no element repeats. */
  predicate StrictlyDescending<T(!new)>(xs: seq<T>, key: T -> int)
  {
    forall i, j :: 0 <= i < j < |xs| ==> key(xs[i]) > key(xs[j])
  }

  /** No two positions of `xs` share a key (a primary-key column). */
  predicate DistinctKeys<T(!new)>(xs: seq<T>, key: T -> int)
  {
    forall i, j :: 0 <= i < j < |xs| ==> key(xs[i]) != key(xs[j])
  }

  /** The elements of `xs` that satisfy `keep`, in their stored order. */
  function Filter<T(!new)>(xs: seq<T>, keep: T -> bool): (r: seq<T>)
    ensures |r| <= |xs|
    ensures forall x :: x in r <==> x in xs && keep(x)
  {
    if |xs| == 0 then []
    else if keep(xs[0]) then [xs[0]] + Filter(xs[1..], keep)
    else Filter(xs[1..], keep)
  }

  /**
   * `idx` places `r` inside `xs`: the k-th element of `r` sits at position
   * `idx[k]` of `xs`, and the positions increase, so `r` is a subsequence.
   */
  ghost predicate IndexMap<T(!new)>(r: seq<T>, xs: seq<T>, idx: seq<nat>)
  {
    |idx| == |r|
    && (forall k :: 0 <= k < |idx| ==> idx[k] < |xs| && xs[idx[k]] == r[k])
    && (forall k, l :: 0 <= k < l < |idx| ==> idx[k] < idx[l])
  }

  /** Each position moved one place to the right. */
  function Shift(idx: seq<nat>): (r: seq<nat>)
    ensures |r| == |idx| && forall k :: 0 <= k < |idx| ==> r[k] == idx[k] + 1
  {
    seq(|idx|, k requires 0 <= k < |idx| => idx[k] + 1)
  }

  /** A placement in the tail of `xs` is a placement in `xs`, one place further on. */
  lemma ShiftIndexMap<T(!new)>(r: seq<T>, xs: seq<T>, idx: seq<nat>)
    requires |xs| > 0 && IndexMap(r, xs[1..], idx)
    ensures IndexMap(r, xs, Shift(idx))
  {
    forall k | 0 <= k < |idx|
      ensures xs[Shift(idx)[k]] == r[k]
    {
      assert xs[1..][idx[k]] == r[k];
    }
  }

  /** A filter never repeats an element more often than the input holds it. */
  lemma {:induction false} FilterMultiset<T(!new)>(xs: seq<T>, keep: T -> bool)
    ensures multiset(Filter(xs, keep)) <= multiset(xs)
  {
    if |xs| > 0 {
      FilterMultiset(xs[1..], keep);
      assert xs == [xs[0]] + xs[1..];
      assert multiset(xs) == multiset([xs[0]]) + multiset(xs[1..]);
    }
  }

  /**
   * A filter keeps the stored order and repeats nothing: its result is a
   * subsequence of the input, and no element occurs in it more often.
   */
  lemma {:induction false} FilterIsSubsequence<T(!new)>(xs: seq<T>, keep: T -> bool) returns (idx: seq<nat>)
    ensures IndexMap(Filter(xs, keep), xs, idx)
    ensures multiset(Filter(xs, keep)) <= multiset(xs)
  {
    FilterMultiset(xs, keep);
    if |xs| == 0 {
      idx := [];
    } else {
      var rest := Filter(xs[1..], keep);
      var tail := FilterIsSubsequence(xs[1..], keep);
      ShiftIndexMap(rest, xs, tail);
      if keep(xs[0]) {
        idx := [0] + Shift(tail);
        assert Filter(xs, keep) == [xs[0]] + rest;
      } else {
        idx := Shift(tail);
      }
    }
  }

  /** A filter that rejects nothing returns its input. */
  lemma {:induction false} FilterKeepsAll<T(!new)>(xs: seq<T>, keep: T -> bool)
    requires forall x :: x in xs ==> keep(x)
    ensures Filter(xs, keep) == xs
  {
    if |xs| > 0 {
      assert xs[0] in xs;
      assert forall x :: x in xs[1..] ==> x in xs;
      FilterKeepsAll(xs[1..], keep);
      assert xs == [xs[0]] + xs[1..];
    }
  }

  /** Filtering keeps a descending order, because it keeps a subsequence. */
  lemma {:induction false} FilterKeepsDescending<T(!new)>(xs: seq<T>, keep: T -> bool, key: T -> int)
    requires StrictlyDescending(xs, key)
    ensures StrictlyDescending(Filter(xs, keep), key)
  {
    if |xs| > 0 {
      FilterKeepsDescending(xs[1..], keep, key);
      var rest := Filter(xs[1..], keep);
      forall y | y in rest
        ensures key(y) < key(xs[0])
      {
        var j :| 0 <= j < |xs[1..]| && xs[1..][j] == y;
        assert xs[j + 1] == y;
      }
    }
  }

  /** Filtering keeps keys pairwise distinct. */
  lemma {:induction false} FilterKeepsDistinct<T(!new)>(xs: seq<T>, keep: T -> bool, key: T -> int)
    requires DistinctKeys(xs, key)
    ensures DistinctKeys(Filter(xs, keep), key)
  {
    if |xs| > 0 {
      FilterKeepsDistinct(xs[1..], keep, key);
      var rest := Filter(xs[1..], keep);
      forall y | y in rest
        ensures key(y) != key(xs[0])
      {
        var j :| 0 <= j < |xs[1..]| && xs[1..][j] == y;
        assert xs[j + 1] == y;
      }
    }
  }

  /** Places `x` into a descending sequence at the position its key calls for. */
  function InsertDescending<T(!new)>(x: T, xs: seq<T>, key: T -> int): (r: seq<T>)
    requires StrictlyDescending(xs, key)
    requires forall y :: y in xs ==> key(y) != key(x)
    ensures multiset(r) == multiset(xs) + multiset{x}
    ensures StrictlyDescending(r, key)
  {
    if |xs| == 0 || key(x) > key(xs[0]) then
      [x] + xs
    else
      var rest := InsertDescending(x, xs[1..], key);
      assert xs == [xs[0]] + xs[1..];
      assert xs[0] in xs;
      InsertedBelowHead(x, xs, rest, key);
      ConsDescending(xs[0], rest, key);
      [xs[0]] + rest
  }

  /** What is inserted into the tail of `xs`, below its head, stays below the head. */
  lemma InsertedBelowHead<T(!new)>(x: T, xs: seq<T>, rest: seq<T>, key: T -> int)
    requires |xs| > 0 && StrictlyDescending(xs, key) && key(x) < key(xs[0])
    requires multiset(rest) == multiset(xs[1..]) + multiset{x}
    ensures forall y :: y in rest ==> key(y) < key(xs[0])
  {
    TailBelowHead(xs, key);
    forall y | y in rest
      ensures key(y) < key(xs[0])
    {
      assert y in multiset(rest);
      assert y == x || y in multiset(xs[1..]);
    }
  }

  /** A head above every element of a descending sequence keeps it descending. */
  lemma ConsDescending<T(!new)>(h: T, rest: seq<T>, key: T -> int)
    requires StrictlyDescending(rest, key)
    requires forall y :: y in rest ==> key(y) < key(h)
    ensures StrictlyDescending([h] + rest, key)
  {
    forall i, j | 0 <= i < j < |[h] + rest|
      ensures key(([h] + rest)[i]) > key(([h] + rest)[j])
    {
      if i == 0 {
        assert ([h] + rest)[j] == rest[j - 1];
        assert rest[j - 1] in rest;
      }
    }
  }

  /** `order_by('-key')`: the same elements, in strictly descending key order. */
  function SortDescending<T(!new)>(xs: seq<T>, key: T -> int): (r: seq<T>)
    requires DistinctKeys(xs, key)
    ensures multiset(r) == multiset(xs)
    ensures StrictlyDescending(r, key)
  {
    if |xs| == 0 then []
    else
      var rest := SortDescending(xs[1..], key);
      HeadKeyIsFresh(xs, key);
      SameElements(rest, xs[1..]);
      assert xs == [xs[0]] + xs[1..];
      InsertDescending(xs[0], rest, key)
  }

  lemma SameElements<T(!new)>(a: seq<T>, b: seq<T>)
    requires multiset(a) == multiset(b)
    ensures forall y :: y in a <==> y in b
  {
    forall y
      ensures y in a <==> y in b
    {
      assert y in a <==> y in multiset(a);
      assert y in b <==> y in multiset(b);
    }
  }

  lemma HeadKeyIsFresh<T(!new)>(xs: seq<T>, key: T -> int)
    requires |xs| > 0 && DistinctKeys(xs, key)
    ensures forall y :: y in xs[1..] ==> key(y) != key(xs[0])
  {
    forall y | y in xs[1..]
      ensures key(y) != key(xs[0])
    {
      var j :| 0 <= j < |xs[1..]| && xs[1..][j] == y;
      assert xs[j + 1] == y;
    }
  }

  /** Every element after the head of a strictly descending sequence has a smaller key. */
  lemma TailBelowHead<T(!new)>(xs: seq<T>, key: T -> int)
    requires |xs| > 0 && StrictlyDescending(xs, key)
    ensures forall x :: x in xs[1..] ==> key(x) < key(xs[0])
  {
    forall x | x in xs[1..]
      ensures key(x) < key(xs[0])
    {
      var k :| 0 <= k < |xs[1..]| && xs[1..][k] == x;
      assert xs[k + 1] == x;
    }
  }

  /** Two non-empty strictly descending sequences with the same elements start alike. */
  lemma HeadsAgree<T(!new)>(a: seq<T>, b: seq<T>, key: T -> int)
    requires |a| > 0 && |b| > 0
    requires StrictlyDescending(a, key) && StrictlyDescending(b, key)
    requires forall x :: x in a <==> x in b
    ensures a[0] == b[0]
  {
    assert a[0] in b && b[0] in a;
    var i :| 0 <= i < |a| && a[i] == b[0];
    var j :| 0 <= j < |b| && b[j] == a[0];
    assert key(a[0]) >= key(a[i]);
    assert key(b[0]) >= key(b[j]);
    assert i == 0;
  }

  /** With equal heads, the tails hold the same elements. */
  lemma TailsAgree<T(!new)>(a: seq<T>, b: seq<T>, key: T -> int)
    requires |a| > 0 && |b| > 0 && a[0] == b[0]
    requires StrictlyDescending(a, key) && StrictlyDescending(b, key)
    requires forall x :: x in a <==> x in b
    ensures forall x :: x in a[1..] <==> x in b[1..]
  {
    TailBelowHead(a, key);
    TailBelowHead(b, key);
    assert a == [a[0]] + a[1..];
    assert b == [b[0]] + b[1..];
    forall x
      ensures x in a[1..] <==> x in b[1..]
    {
      if x in a[1..] {
        assert x in b && x != b[0];
      }
      if x in b[1..] {
        assert x in a && x != a[0];
      }
    }
  }

  /**
   * Two strictly descending sequences with the same elements are equal:
   * the sorted answer of a query is determined by the set it returns.
   */
  lemma {:induction false} DescendingDeterminedByElements<T(!new)>(a: seq<T>, b: seq<T>, key: T -> int)
    requires StrictlyDescending(a, key) && StrictlyDescending(b, key)
    requires forall x :: x in a <==> x in b
    ensures a == b
    decreases |a|
  {
    assert |a| > 0 ==> a[0] in a;
    assert |b| > 0 ==> b[0] in b;
    if |a| > 0 {
      HeadsAgree(a, b, key);
      TailsAgree(a, b, key);
      DescendingDeterminedByElements(a[1..], b[1..], key);
      assert a == [a[0]] + a[1..];
      assert b == [b[0]] + b[1..];
    }
  }

  /** In a sequence with distinct keys an element is determined by its key. */
  lemma KeyDetermines<T(!new)>(xs: seq<T>, key: T -> int, x: T, y: T)
    requires DistinctKeys(xs, key) && x in xs && y in xs && key(x) == key(y)
    ensures x == y
  {
    var i :| 0 <= i < |xs| && xs[i] == x;
    var j :| 0 <= j < |xs| && xs[j] == y;
    assert i == j;
  }

  /** A filter that keeps two or more elements kept two distinct positions of its input. */
  lemma {:induction false} FilterKeepsTwo<T(!new)>(xs: seq<T>, keep: T -> bool)
    requires |Filter(xs, keep)| >= 2
    ensures exists i, j :: 0 <= i < j < |xs| && keep(xs[i]) && keep(xs[j])
  {
    if keep(xs[0]) {
      var rest := Filter(xs[1..], keep);
      assert rest[0] in rest;
      var m :| 0 <= m < |xs[1..]| && xs[1..][m] == rest[0];
      assert keep(xs[0]) && keep(xs[m + 1]);
    } else {
      FilterKeepsTwo(xs[1..], keep);
      var i, j :| 0 <= i < j < |xs[1..]| && keep(xs[1..][i]) && keep(xs[1..][j]);
      assert keep(xs[i + 1]) && keep(xs[j + 1]);
    }
  }

  /** Sorting then filtering equals filtering then sorting. */
  lemma SortFilterCommute<T(!new)>(xs: seq<T>, keep: T -> bool, key: T -> int)
    requires DistinctKeys(xs, key)
    ensures DistinctKeys(Filter(xs, keep), key)
    ensures SortDescending(Filter(xs, keep), key) == Filter(SortDescending(xs, key), keep)
  {
    FilterKeepsDistinct(xs, keep, key);
    var sorted := SortDescending(xs, key);
    FilterKeepsDescending(sorted, keep, key);
    var a := SortDescending(Filter(xs, keep), key);
    var b := Filter(sorted, keep);
    SameElements(a, Filter(xs, keep));
    SameElements(sorted, xs);
    DescendingDeterminedByElements(a, b, key);
  }
}
