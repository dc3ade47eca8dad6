/** Numeric vocabulary shared by the three analysis scripts: columns with missing
    values, pandas' NaN-skipping sums and means, the sample variance, and the
    result of an externally computed Spearman test. */
module Stats {
  import opened Wrappers
  import opened Seqs

  /** A numeric table column; `None` is NaN. */
  type Column = seq<Option<real>>

  function Sum(xs: seq<real>): real
  {
    if |xs| == 0 then 0.0 else Sum(xs[..|xs| - 1]) + xs[|xs| - 1]
  }

  function Mean(xs: seq<real>): real
    requires |xs| > 0
  {
    Sum(xs) / (|xs| as real)
  }

  lemma Square(d: real)
    ensures d * d >= 0.0
    ensures d != 0.0 ==> d * d > 0.0
  {
    if d < 0.0 {
      var e := 0.0 - d;
      assert e * e > 0.0;
      assert d * d == e * e;
    }
  }

  /** Sum of squared deviations from `m`. */
  function SumSq(xs: seq<real>, m: real): (r: real)
    ensures r >= 0.0
  {
    if |xs| == 0 then 0.0
    else
      var d := xs[|xs| - 1] - m;
      Square(d);
      SumSq(xs[..|xs| - 1], m) + d * d
  }

  /** The sample (n - 1) variance, as `np.std(v, ddof=1) ** 2` and pandas' `std() ** 2`. */
  function SampleVariance(xs: seq<real>): (r: real)
    requires |xs| >= 2
    ensures r >= 0.0
  {
    SumSq(xs, Mean(xs)) / ((|xs| - 1) as real)
  }

  /** `sd` is the sample standard deviation of `xs`: the non-negative square root
      of the sample variance. Square roots are not computable on `real`, so the
      model takes `sd` as an input and pins it down by this predicate; the last
      conjunct, that the root is zero exactly at zero, follows from the other two
      but is stated because the solver does not derive it from a product. */
  predicate IsSampleSd(sd: real, xs: seq<real>)
    requires |xs| >= 2
  {
    sd >= 0.0 && sd * sd == SampleVariance(xs) && (sd == 0.0 <==> SampleVariance(xs) == 0.0)
  }

  /** The mask `col.notna()`. */
  function Somes(col: Column): seq<bool>
  {
    seq(|col|, i requires 0 <= i < |col| => col[i].Some?)
  }

  /** `std` returns the sample standard deviation of every list of two or more
      values, as pandas' `Series.std()` does. */
  ghost predicate SampleStd(std: seq<real> -> real)
  {
    forall xs: seq<real> :: |xs| >= 2 ==> IsSampleSd(std(xs), xs)
  }

  /** `(x - m) / sd`. */
  function Standardize(x: real, m: real, sd: real): real
    requires sd != 0.0
  {
    (x - m) / sd
  }

  lemma StandardizeAsScale(x: real, m: real, sd: real)
    requires sd != 0.0
    ensures Standardize(x, m, sd) == (x - m) * (1.0 / sd)
  {
  }

  lemma StandardizeOrder(x: real, y: real, m: real, sd: real)
    requires x < y && sd > 0.0
    ensures Standardize(x, m, sd) < Standardize(y, m, sd)
  {
  }

  /** Every value of `v` standardised with mean `m` and deviation `sd`. */
  function StandardizeAll(v: seq<real>, m: real, sd: real): (r: seq<real>)
    requires sd != 0.0
    ensures |r| == |v|
    ensures forall i :: 0 <= i < |v| ==> r[i] == Standardize(v[i], m, sd)
  {
    seq(|v|, i requires 0 <= i < |v| => Standardize(v[i], m, sd))
  }

  /** Values standardised about their own mean sum to zero. */
  lemma StandardizedSumsToZero(v: seq<real>, sd: real)
    requires |v| > 0 && sd != 0.0
    ensures Sum(StandardizeAll(v, Mean(v), sd)) == 0.0
  {
    var m := Mean(v);
    var vals := StandardizeAll(v, m, sd);
    var dev := seq(|v|, i requires 0 <= i < |v| => v[i] - m);
    var k := 1.0 / sd;
    forall i | 0 <= i < |v|
      ensures vals[i] == dev[i] * k
    {
      StandardizeAsScale(v[i], m, sd);
    }
    var scaled := seq(|dev|, i requires 0 <= i < |dev| => dev[i] * k);
    assert |scaled| == |vals|;
    assert forall i :: 0 <= i < |scaled| ==> scaled[i] == vals[i];
    assert vals == scaled;
    SumScale(dev, k);
    DeviationsSumToZero(v);
  }

  /** One squared standardised value, scaled back by the squared deviation. */
  lemma StandardizedSquare(x: real, m: real, sd: real)
    requires sd != 0.0
    ensures (Standardize(x, m, sd) - 0.0) * (Standardize(x, m, sd) - 0.0) * (sd * sd) == (x - m) * (x - m)
  {
    var z := Standardize(x, m, sd);
    assert z * sd == x - m;
    assert z * z * (sd * sd) == (z * sd) * (z * sd);
  }

  /** Standardising divides every squared deviation by `sd * sd`. */
  lemma {:induction false} SumSqStandardized(v: seq<real>, m: real, sd: real)
    requires sd != 0.0
    ensures SumSq(StandardizeAll(v, m, sd), 0.0) * (sd * sd) == SumSq(v, m)
  {
    if |v| > 0 {
      var n := |v| - 1;
      var z := StandardizeAll(v, m, sd);
      assert z[..n] == StandardizeAll(v[..n], m, sd);
      SumSqStandardized(v[..n], m, sd);
      StandardizedSquare(v[n], m, sd);
      var a := SumSq(z[..n], 0.0);
      var s := z[n] - 0.0;
      assert SumSq(z, 0.0) == a + s * s;
      assert SumSq(v, m) == SumSq(v[..n], m) + (v[n] - m) * (v[n] - m);
      assert (a + s * s) * (sd * sd) == a * (sd * sd) + s * s * (sd * sd);
    }
  }

  /** If `a * q == b` and `b / k == q` for positive `q` and `k`, then `a / k == 1`. */
  lemma UnitRatio(a: real, b: real, q: real, k: real)
    requires q > 0.0 && k > 0.0 && a * q == b && b / k == q
    ensures a / k == 1.0
  {
    assert b == (b / k) * k;
    assert a * q == k * q;
    assert (a - k) * q == 0.0;
  }

  /** Values standardised with their own mean and sample deviation have sample
      variance 1: the (n - 1) deviation is the one that makes the scale unit. */
  lemma StandardizedUnitVariance(v: seq<real>, sd: real)
    requires |v| >= 2 && IsSampleSd(sd, v) && sd != 0.0
    ensures |StandardizeAll(v, Mean(v), sd)| >= 2
    ensures SampleVariance(StandardizeAll(v, Mean(v), sd)) == 1.0
  {
    var m := Mean(v);
    var z := StandardizeAll(v, m, sd);
    StandardizedSumsToZero(v, sd);
    assert Mean(z) == 0.0;
    SumSqStandardized(v, m, sd);
    var k := (|v| - 1) as real;
    Square(sd);
    assert SampleVariance(v) == SumSq(v, m) / k;
    UnitRatio(SumSq(z, 0.0), SumSq(v, m), sd * sd, k);
    assert SampleVariance(z) == SumSq(z, 0.0) / k;
  }

  /** `col.dropna()`: the present values in order. */
  function Present(col: Column): (r: seq<real>)
    ensures |r| <= |col|
  {
    if |col| == 0 then []
    else
      var prev := Present(col[..|col| - 1]);
      match col[|col| - 1]
      case Some(v) => prev + [v]
      case None => prev
  }

  /** `col.dropna()` holds the values of the present rows, in row order. */
  lemma {:induction false} PresentRows(col: Column)
    ensures |Present(col)| == |Where(Somes(col))|
    ensures forall k :: 0 <= k < |Present(col)| ==> col[Where(Somes(col))[k]] == Some(Present(col)[k])
  {
    if |col| > 0 {
      var n := |col| - 1;
      PresentRows(col[..n]);
      assert Somes(col)[..n] == Somes(col[..n]);
    }
  }

  /** A column has a present value exactly when some row holds one. */
  lemma SomePresent(col: Column)
    ensures CountPresent(col) > 0 <==> exists i :: 0 <= i < |col| && col[i].Some?
  {
    PresentRows(col);
    var w := Where(Somes(col));
    if exists i :: 0 <= i < |col| && col[i].Some? {
      var i :| 0 <= i < |col| && col[i].Some?;
      assert Somes(col)[i];
      assert i in w;
    }
    if |w| > 0 {
      assert col[w[0]].Some?;
    }
  }

  /** Every present entry of a column is among its present values, and only those. */
  lemma PresentMembers(col: Column, v: real)
    ensures v in Present(col) <==> exists i :: 0 <= i < |col| && col[i] == Some(v)
  {
    PresentRows(col);
    var p := Present(col);
    var w := Where(Somes(col));
    if v in p {
      var k :| 0 <= k < |p| && p[k] == v;
      assert col[w[k]] == Some(v);
    }
    if exists i :: 0 <= i < |col| && col[i] == Some(v) {
      var i :| 0 <= i < |col| && col[i] == Some(v);
      assert Somes(col)[i];
      var k :| 0 <= k < |w| && w[k] == i;
      assert p[k] == v;
    }
  }

  /** A column with no value present drops to nothing. */
  lemma {:induction false} PresentNone(col: Column)
    requires forall i :: 0 <= i < |col| ==> col[i].None?
    ensures Present(col) == []
  {
    if |col| > 0 {
      PresentNone(col[..|col| - 1]);
    }
  }

  /** A column with a missing entry has fewer present values than rows. */
  lemma {:induction false} CountPresentBelow(col: Column, k: nat)
    requires k < |col| && col[k].None?
    ensures CountPresent(col) < |col|
  {
    var n := |col| - 1;
    if k < n {
      CountPresentBelow(col[..n], k);
    }
  }

  /** `col.notna().sum()`. */
  function CountPresent(col: Column): nat
  {
    |Present(col)|
  }

  /** pandas' NaN-skipping mean: NaN when no value is present. */
  function MeanPresent(col: Column): (r: Option<real>)
    ensures r.Some? <==> CountPresent(col) > 0
  {
    var p := Present(col);
    if |p| == 0 then None else Some(Mean(p))
  }

  /** `df[[a, b]].dropna()`: the rows where both columns are present, as two
      parallel vectors. */
  function Pairs(a: Column, b: Column): (r: (seq<real>, seq<real>))
    requires |a| == |b|
    ensures |r.0| == |r.1| <= |a|
  {
    if |a| == 0 then ([], [])
    else
      var n := |a| - 1;
      var prev := Pairs(a[..n], b[..n]);
      if a[n].Some? && b[n].Some? then (prev.0 + [a[n].value], prev.1 + [b[n].value]) else prev
  }

  /** `df[[a, b]].dropna()` holds the rows where both columns are present, in
      row order. */
  lemma PairsRows(a: Column, b: Column)
    requires |a| == |b|
    ensures |Pairs(a, b).0| == |Where(Both(a, b))|
    ensures forall k :: 0 <= k < |Pairs(a, b).0| ==>
      a[Where(Both(a, b))[k]] == Some(Pairs(a, b).0[k]) && b[Where(Both(a, b))[k]] == Some(Pairs(a, b).1[k])
  {
    PairsLength(a, b);
    forall k | 0 <= k < |Pairs(a, b).0|
      ensures a[Where(Both(a, b))[k]] == Some(Pairs(a, b).0[k]) && b[Where(Both(a, b))[k]] == Some(Pairs(a, b).1[k])
    {
      PairsRowAt(a, b, k);
    }
  }

  lemma {:induction false} PairsLength(a: Column, b: Column)
    requires |a| == |b|
    ensures |Pairs(a, b).0| == |Where(Both(a, b))|
  {
    if |a| > 0 {
      var n := |a| - 1;
      PairsLength(a[..n], b[..n]);
      assert Both(a, b)[..n] == Both(a[..n], b[..n]);
    }
  }

  lemma {:induction false} PairsRowAt(a: Column, b: Column, k: nat)
    requires |a| == |b| && k < |Pairs(a, b).0|
    ensures |Pairs(a, b).0| == |Where(Both(a, b))|
    ensures a[Where(Both(a, b))[k]] == Some(Pairs(a, b).0[k]) && b[Where(Both(a, b))[k]] == Some(Pairs(a, b).1[k])
  {
    PairsLength(a, b);
    var n := |a| - 1;
    var w := Where(Both(a[..n], b[..n]));
    var prev := Pairs(a[..n], b[..n]);
    PairsLength(a[..n], b[..n]);
    assert Both(a, b)[..n] == Both(a[..n], b[..n]);
    if k < |prev.0| {
      PairsRowAt(a[..n], b[..n], k);
      assert Where(Both(a, b))[k] == w[k];
      assert a[w[k]] == a[..n][w[k]] && b[w[k]] == b[..n][w[k]];
    }
  }

  /** The mask of rows where both columns are present. */
  function Both(a: Column, b: Column): seq<bool>
    requires |a| == |b|
  {
    seq(|a|, i requires 0 <= i < |a| => a[i].Some? && b[i].Some?)
  }

  /** A pandas data frame reduced to what the scripts use: a row count and named
      numeric columns, each with one entry per row. */
  datatype Frame = Frame(rows: nat, cols: map<string, Column>)
  {
    predicate WellFormed()
    {
      forall c :: c in cols ==> |cols[c]| == rows
    }
  }

  /** `p < t` in Python: false when `p` is NaN. */
  predicate Below(p: Option<real>, t: real)
  {
    p.Some? && p.value < t
  }

  /** The element-wise `a - b` of two pandas columns. */
  function Minus(a: Option<real>, b: Option<real>): (r: Option<real>)
    ensures r.Some? <==> a.Some? && b.Some?
    ensures r.Some? ==> r.value + b.value == a.value
  {
    if a.Some? && b.Some? then Some(a.value - b.value) else None
  }

  /** The outcome of `scipy.stats.spearmanr`: a coefficient and a two-sided
      p-value, either of which may be NaN (for a constant input, say). */
  datatype Corr = Corr(rho: Option<real>, p: Option<real>)

  predicate ValidP(p: Option<real>)
  {
    p.Some? ==> 0.0 <= p.value <= 1.0
  }

  /** SciPy is not modelled: the Spearman test is a parameter. All the model asks of
      it is that a p-value, when defined, is a probability. */
  type Spearman = (seq<real>, seq<real>) -> Corr

  ghost predicate ValidSpearman(sp: Spearman)
  {
    forall xs: seq<real>, ys: seq<real> :: ValidP(sp(xs, ys).p)
  }

  // Lemmas about sums used by the normalisations.

  lemma {:induction false} SumShift(xs: seq<real>, c: real)
    ensures Sum(seq(|xs|, i requires 0 <= i < |xs| => xs[i] - c)) == Sum(xs) - (|xs| as real) * c
  {
    var ys := seq(|xs|, i requires 0 <= i < |xs| => xs[i] - c);
    if |xs| > 0 {
      var n := |xs| - 1;
      assert ys[..n] == seq(n, i requires 0 <= i < n => xs[..n][i] - c);
      SumShift(xs[..n], c);
    }
  }

  lemma {:induction false} SumScale(xs: seq<real>, k: real)
    ensures Sum(seq(|xs|, i requires 0 <= i < |xs| => xs[i] * k)) == Sum(xs) * k
  {
    var ys := seq(|xs|, i requires 0 <= i < |xs| => xs[i] * k);
    if |xs| > 0 {
      var n := |xs| - 1;
      var zs := seq(n, i requires 0 <= i < n => xs[..n][i] * k);
      assert |ys[..n]| == |zs|;
      forall i | 0 <= i < n ensures ys[..n][i] == zs[i] {
        assert xs[..n][i] == xs[i];
      }
      assert ys[..n] == zs;
      SumScale(xs[..n], k);
    }
  }

  /** The deviations from the mean sum to zero. */
  lemma DeviationsSumToZero(xs: seq<real>)
    requires |xs| > 0
    ensures Sum(seq(|xs|, i requires 0 <= i < |xs| => xs[i] - Mean(xs))) == 0.0
  {
    SumShift(xs, Mean(xs));
  }

  lemma {:induction false} SumConstant(xs: seq<real>, c: real)
    requires forall i :: 0 <= i < |xs| ==> xs[i] == c
    ensures Sum(xs) == (|xs| as real) * c
  {
    if |xs| > 0 {
      SumConstant(xs[..|xs| - 1], c);
    }
  }
}
