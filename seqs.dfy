/** Sequence helpers: Python's `list(dict.fromkeys(xs))`, list-comprehension
    filters and "first element that matches". */
module Seqs {

  predicate Distinct<T(==,!new)>(xs: seq<T>)
  {
    forall i, j :: 0 <= i < j < |xs| ==> xs[i] != xs[j]
  }

  /** Position of the first occurrence of `x` in `xs` (`|xs|` when absent). */
  function FirstIndex<T(==,!new)>(xs: seq<T>, x: T): (k: nat)
    ensures k <= |xs|
    ensures k < |xs| <==> x in xs
    ensures k < |xs| ==> xs[k] == x
    ensures forall j :: 0 <= j < k ==> xs[j] != x
  {
    if |xs| == 0 then 0 else if xs[0] == x then 0 else 1 + FirstIndex(xs[1..], x)
  }

  /** `list(dict.fromkeys(xs))`: every element once, at its first occurrence.
      Defined from the right end so that each step is one dictionary insertion. */
  function Dedup<T(==,!new)>(xs: seq<T>): (r: seq<T>)
    ensures forall x :: x in r <==> x in xs
    ensures Distinct(r)
    ensures |r| <= |xs|
  {
    if |xs| == 0 then []
    else
      var prev := Dedup(xs[..|xs| - 1]);
      var x := xs[|xs| - 1];
      assert forall y :: y in xs <==> y in xs[..|xs| - 1] || y == x;
      if x in prev then prev else prev + [x]
  }

  lemma FirstIndexPrefix<T(!new)>(xs: seq<T>, n: nat, x: T)
    requires n <= |xs| && x in xs[..n]
    ensures FirstIndex(xs[..n], x) == FirstIndex(xs, x)
  {
    var k := FirstIndex(xs[..n], x);
    assert xs[k] == x;
  }

  /** Dedup keeps first occurrences in their original order. */
  lemma {:induction false} DedupOrder<T(!new)>(xs: seq<T>, i: nat, j: nat)
    requires i < j < |Dedup(xs)|
    ensures FirstIndex(xs, Dedup(xs)[i]) < FirstIndex(xs, Dedup(xs)[j])
  {
    var n := |xs| - 1;
    var prev := Dedup(xs[..n]);
    var x := xs[n];
    var r := Dedup(xs);
    if x in prev {
      assert r == prev;
      DedupOrder(xs[..n], i, j);
      FirstIndexPrefix(xs, n, r[i]);
      FirstIndexPrefix(xs, n, r[j]);
    } else {
      assert r == prev + [x];
      FirstIndexPrefix(xs, n, r[i]);
      if j < |prev| {
        DedupOrder(xs[..n], i, j);
        FirstIndexPrefix(xs, n, r[j]);
      } else {
        assert r[j] == x && x !in xs[..n];
        assert FirstIndex(xs, x) == n;
      }
    }
  }

  /** On a list that already has no repeats, Dedup changes nothing. */
  lemma {:induction false} DedupDistinct<T(!new)>(xs: seq<T>)
    requires Distinct(xs)
    ensures Dedup(xs) == xs
  {
    if |xs| > 0 {
      var n := |xs| - 1;
      assert Distinct(xs[..n]);
      DedupDistinct(xs[..n]);
      assert xs[n] !in xs[..n];
      assert xs[..n] + [xs[n]] == xs;
    }
  }

  /** The elements of `xs` that lie in `keep`, in order (`[x for x in xs if x in keep]`). */
  function FilterIn<T(==,!new)>(xs: seq<T>, keep: set<T>): (r: seq<T>)
    ensures forall x :: x in r <==> x in xs && x in keep
    ensures |r| <= |xs|
  {
    if |xs| == 0 then []
    else
      var prev := FilterIn(xs[..|xs| - 1], keep);
      var x := xs[|xs| - 1];
      assert forall y :: y in xs <==> y in xs[..|xs| - 1] || y == x;
      if x in keep then prev + [x] else prev
  }

  lemma {:induction false} FilterInDistinct<T(!new)>(xs: seq<T>, keep: set<T>)
    requires Distinct(xs)
    ensures Distinct(FilterIn(xs, keep))
  {
    if |xs| > 0 {
      var n := |xs| - 1;
      assert Distinct(xs[..n]);
      FilterInDistinct(xs[..n], keep);
      assert xs[n] !in xs[..n];
    }
  }

  /** Number of occurrences of `x` in `xs`. */
  function Count<T(==,!new)>(xs: seq<T>, x: T): nat
  {
    if |xs| == 0 then 0 else Count(xs[..|xs| - 1], x) + (if xs[|xs| - 1] == x then 1 else 0)
  }

  lemma {:induction false} CountDistinct<T(!new)>(xs: seq<T>, x: T)
    requires Distinct(xs)
    ensures Count(xs, x) == if x in xs then 1 else 0
  {
    if |xs| > 0 {
      var n := |xs| - 1;
      assert Distinct(xs[..n]);
      CountDistinct(xs[..n], x);
      assert xs[n] !in xs[..n];
      assert forall y :: y in xs <==> y in xs[..n] || y == xs[n];
    }
  }
  /** The positions `i` with `keep[i]`, in increasing order: the rows a boolean
      mask selects. */
  function Where(keep: seq<bool>): (r: seq<nat>)
    ensures forall k :: 0 <= k < |r| ==> r[k] < |keep| && keep[r[k]]
    ensures forall i :: 0 <= i < |keep| && keep[i] ==> i in r
    ensures forall k, l :: 0 <= k < l < |r| ==> r[k] < r[l]
  {
    if |keep| == 0 then []
    else
      var n := |keep| - 1;
      var prev := Where(keep[..n]);
      assert forall i :: 0 <= i < n ==> keep[..n][i] == keep[i];
      if keep[n] then prev + [n] else prev
  }

  /** A strictly increasing list of numbers below `b` has at most `b` entries. */
  lemma {:induction false} IncreasingLength(r: seq<nat>, b: nat)
    requires forall k :: 0 <= k < |r| ==> r[k] < b
    requires forall k, l :: 0 <= k < l < |r| ==> r[k] < r[l]
    ensures |r| <= b
  {
    if |r| > 0 {
      var m := |r| - 1;
      IncreasingLength(r[..m], r[m]);
    }
  }

  /** A strictly increasing list of positions that holds exactly the positions
      `keep` marks is `Where(keep)`. */
  lemma {:induction false} WhereUnique(keep: seq<bool>, r: seq<nat>)
    requires forall k :: 0 <= k < |r| ==> r[k] < |keep|
    requires forall i :: 0 <= i < |keep| ==> (keep[i] <==> i in r)
    requires forall k, l :: 0 <= k < l < |r| ==> r[k] < r[l]
    ensures r == Where(keep)
  {
    IncreasingLength(r, |keep|);
    if |keep| > 0 {
      var n := |keep| - 1;
      var q := if keep[n] then r[..|r| - 1] else r;
      WhereUniquePrefix(keep, r, q);
      WhereUnique(keep[..n], q);
      assert r == if keep[n] then q + [n] else q;
    }
  }

  /** The step of `WhereUnique`: dropping the last position leaves a list that
      meets the same conditions for the shorter mask. */
  lemma WhereUniquePrefix(keep: seq<bool>, r: seq<nat>, q: seq<nat>)
    requires |keep| > 0
    requires forall k :: 0 <= k < |r| ==> r[k] < |keep|
    requires forall i :: 0 <= i < |keep| ==> (keep[i] <==> i in r)
    requires forall k, l :: 0 <= k < l < |r| ==> r[k] < r[l]
    requires q == if keep[|keep| - 1] then r[..|r| - 1] else r
    ensures r == if keep[|keep| - 1] then q + [|keep| - 1] else q
    ensures forall k :: 0 <= k < |q| ==> q[k] < |keep| - 1
    ensures forall i :: 0 <= i < |keep| - 1 ==> (keep[..|keep| - 1][i] <==> i in q)
    ensures forall k, l :: 0 <= k < l < |q| ==> q[k] < q[l]
  {
    var n := |keep| - 1;
    if keep[n] {
      LastIsMax(r, n, n + 1);
      assert r == q + [n];
    } else {
      forall k | 0 <= k < |r| ensures r[k] < n {
        assert r[k] in r;
      }
    }
  }

  /** In a strictly increasing list below `b` that holds `b - 1`, that value is
      the last entry. */
  lemma LastIsMax(r: seq<nat>, x: nat, b: nat)
    requires forall k :: 0 <= k < |r| ==> r[k] < b
    requires forall k, l :: 0 <= k < l < |r| ==> r[k] < r[l]
    requires x in r && x + 1 == b
    ensures |r| > 0 && r[|r| - 1] == x
  {
    var k :| 0 <= k < |r| && r[k] == x;
    var m := |r| - 1;
    assert r[k] <= r[m];
  }

  /** Selecting with `keep2` among the positions `keep1` selects is selecting with
      `keep` directly, when `keep` implies `keep1` and agrees with `keep2` on the
      positions `keep1` selects. */
  lemma WhereCompose(keep1: seq<bool>, keep2: seq<bool>, keep: seq<bool>)
    requires |keep2| == |Where(keep1)| && |keep| == |keep1|
    requires forall j :: 0 <= j < |keep2| ==> (keep2[j] <==> keep[Where(keep1)[j]])
    requires forall i :: 0 <= i < |keep| && keep[i] ==> keep1[i]
    ensures Where(keep) == Compose(Where(keep1), Where(keep2))
  {
    var w1, w2 := Where(keep1), Where(keep2);
    ComposeIncreasing(w1, w2);
    ComposeMembers(keep1, keep2, keep, w1, w2);
    WhereUnique(keep, Compose(w1, w2));
  }

  /** The positions `w2` picks out of the positions `w1`. */
  function Compose(w1: seq<nat>, w2: seq<nat>): (r: seq<nat>)
    requires forall k :: 0 <= k < |w2| ==> w2[k] < |w1|
    ensures |r| == |w2| && forall k :: 0 <= k < |w2| ==> r[k] == w1[w2[k]]
  {
    seq(|w2|, k requires 0 <= k < |w2| => w1[w2[k]])
  }

  /** The membership half of `WhereCompose`, for any lists of positions that
      select what the masks mark. */
  lemma ComposeMembers(keep1: seq<bool>, keep2: seq<bool>, keep: seq<bool>, w1: seq<nat>, w2: seq<nat>)
    requires |keep2| == |w1| && |keep| == |keep1|
    requires forall k :: 0 <= k < |w1| ==> w1[k] < |keep1| && keep1[w1[k]]
    requires forall i :: 0 <= i < |keep1| && keep1[i] ==> i in w1
    requires forall k :: 0 <= k < |w2| ==> w2[k] < |keep2| && keep2[w2[k]]
    requires forall j :: 0 <= j < |keep2| && keep2[j] ==> j in w2
    requires forall j :: 0 <= j < |keep2| ==> (keep2[j] <==> keep[w1[j]])
    requires forall i :: 0 <= i < |keep| && keep[i] ==> keep1[i]
    ensures forall i :: 0 <= i < |keep| ==> (keep[i] <==> i in Compose(w1, w2))
  {
    var rows := Compose(w1, w2);
    forall i | 0 <= i < |keep| && keep[i]
      ensures i in rows
    {
      var j :| 0 <= j < |w1| && w1[j] == i;
      var k :| 0 <= k < |w2| && w2[k] == j;
      assert rows[k] == i;
    }
    forall i | 0 <= i < |keep| && i in rows
      ensures keep[i]
    {
      var k :| 0 <= k < |rows| && rows[k] == i;
      assert keep2[w2[k]];
    }
  }

  /** Positions taken through two increasing lists of positions are increasing. */
  lemma ComposeIncreasing(w1: seq<nat>, w2: seq<nat>)
    requires forall k :: 0 <= k < |w2| ==> w2[k] < |w1|
    requires forall k, l :: 0 <= k < l < |w1| ==> w1[k] < w1[l]
    requires forall k, l :: 0 <= k < l < |w2| ==> w2[k] < w2[l]
    ensures forall k, l :: 0 <= k < l < |w2| ==> Compose(w1, w2)[k] < Compose(w1, w2)[l]
  {
  }

  /** Filtering keeps the order of first occurrences. */
  lemma {:induction false} FilterInOrder<T(!new)>(xs: seq<T>, keep: set<T>, x: T, y: T)
    requires x in FilterIn(xs, keep) && y in FilterIn(xs, keep)
    ensures FirstIndex(FilterIn(xs, keep), x) < FirstIndex(FilterIn(xs, keep), y)
        <==> FirstIndex(xs, x) < FirstIndex(xs, y)
  {
    var n := |xs| - 1;
    var prev := FilterIn(xs[..n], keep);
    var z := xs[n];
    var f := FilterIn(xs, keep);
    if z in keep {
      assert f == prev + [z];
      if x in prev && y in prev {
        FilterInOrder(xs[..n], keep, x, y);
        FirstIndexPrefix(f, |prev|, x);
        FirstIndexPrefix(f, |prev|, y);
        assert f[..|prev|] == prev;
        FirstIndexPrefix(xs, n, x);
        FirstIndexPrefix(xs, n, y);
      } else if x in prev {
        assert y == z && y !in xs[..n];
        FirstIndexPrefix(f, |prev|, x);
        assert f[..|prev|] == prev;
        FirstIndexPrefix(xs, n, x);
        assert FirstIndex(f, y) == |prev|;
        assert FirstIndex(xs, y) == n;
      } else if y in prev {
        assert x == z && x !in xs[..n];
        FirstIndexPrefix(f, |prev|, y);
        assert f[..|prev|] == prev;
        FirstIndexPrefix(xs, n, y);
        assert FirstIndex(f, x) == |prev|;
        assert FirstIndex(xs, x) == n;
      } else {
        assert x == z && y == z;
      }
    } else {
      assert f == prev;
      FilterInOrder(xs[..n], keep, x, y);
      FirstIndexPrefix(xs, n, x);
      FirstIndexPrefix(xs, n, y);
    }
  }

  /** `list(dict.fromkeys(x for x in xs if x in keep))` lists its elements in the
      order of their first occurrence in `xs`. */
  lemma DedupFilterOrder<T(!new)>(xs: seq<T>, keep: set<T>)
    ensures var r := Dedup(FilterIn(xs, keep));
      forall i, j :: 0 <= i < j < |r| ==> FirstIndex(xs, r[i]) < FirstIndex(xs, r[j])
  {
    var f := FilterIn(xs, keep);
    var r := Dedup(f);
    forall i, j | 0 <= i < j < |r|
      ensures FirstIndex(xs, r[i]) < FirstIndex(xs, r[j])
    {
      DedupOrder(f, i, j);
      assert r[i] in f && r[j] in f;
      FilterInOrder(xs, keep, r[i], r[j]);
    }
  }

  /** Filtering a list without repeats keeps its order. */
  lemma FilterInOrderDistinct<T(!new)>(xs: seq<T>, keep: set<T>)
    requires Distinct(xs)
    ensures var r := FilterIn(xs, keep);
      forall i, j :: 0 <= i < j < |r| ==> FirstIndex(xs, r[i]) < FirstIndex(xs, r[j])
  {
    var r := FilterIn(xs, keep);
    FilterInDistinct(xs, keep);
    forall i, j | 0 <= i < j < |r|
      ensures FirstIndex(xs, r[i]) < FirstIndex(xs, r[j])
    {
      assert FirstIndex(r, r[i]) == i;
      assert FirstIndex(r, r[j]) == j;
      FilterInOrder(xs, keep, r[i], r[j]);
    }
  }
}
