/** The z-score tGJS of the nivolumab cohort: each GJS gene's expression vector
    is standardised with the sample (n - 1) deviation, a zero deviation giving all
    zeros, and the three z vectors are combined with the 0.4/0.3/0.3 weights. */
module RiazScore {
  import opened Wrappers
  import opened Stats
  import opened Gjs
  import opened Seqs

  /** `zscore(v)`. NumPy's `std(v, ddof=1)` is NaN for fewer than two values,
      and NaN is not 0, so such a vector becomes all NaN. From two values on, `sd`
      is the sample deviation of `v`. */
  function ZScore(v: seq<real>, sd: real): (r: Column)
    requires |v| >= 2 ==> IsSampleSd(sd, v)
    ensures |r| == |v|
    ensures forall i :: 0 <= i < |v| ==> (r[i].Some? <==> |v| >= 2)
    ensures |v| >= 2 && sd == 0.0 ==> forall i :: 0 <= i < |v| ==> r[i] == Some(0.0)
  {
    if |v| < 2 then seq(|v|, i requires 0 <= i < |v| => None)
    else if sd == 0.0 then seq(|v|, i requires 0 <= i < |v| => Some(0.0))
    else
      var m := Mean(v);
      seq(|v|, i requires 0 <= i < |v| => Some(Standardize(v[i], m, sd)))
  }

  /** The present values of a column without missing entries, position by position. */
  lemma {:induction false} PresentAll(col: Column)
    requires forall i :: 0 <= i < |col| ==> col[i].Some?
    ensures |Present(col)| == |col|
    ensures forall i :: 0 <= i < |col| ==> Present(col)[i] == col[i].value
  {
    if |col| > 0 {
      PresentAll(col[..|col| - 1]);
    }
  }

  /** The z-scores of two or more values sum to zero: their mean is zero. */
  lemma ZScoreSumsToZero(v: seq<real>, sd: real)
    requires |v| >= 2 && IsSampleSd(sd, v)
    ensures Sum(Present(ZScore(v, sd))) == 0.0
  {
    var z := ZScore(v, sd);
    PresentAll(z);
    var vals := Present(z);
    if sd == 0.0 {
      SumConstant(vals, 0.0);
    } else {
      assert vals == StandardizeAll(v, Mean(v), sd);
      StandardizedSumsToZero(v, sd);
    }
  }

  /** With a non-zero deviation the z-scores have sample variance 1, so the
      vector was divided by its (n - 1) deviation and not by anything else. */
  lemma ZScoreUnitVariance(v: seq<real>, sd: real)
    requires |v| >= 2 && IsSampleSd(sd, v) && sd != 0.0
    ensures |Present(ZScore(v, sd))| >= 2
    ensures SampleVariance(Present(ZScore(v, sd))) == 1.0
  {
    PresentAll(ZScore(v, sd));
    assert Present(ZScore(v, sd)) == StandardizeAll(v, Mean(v), sd);
    StandardizedUnitVariance(v, sd);
  }

  /** With a non-zero deviation, standardising keeps the strict order of values. */
  lemma ZScoreOrder(v: seq<real>, sd: real, i: int, j: int)
    requires |v| >= 2 && IsSampleSd(sd, v) && sd != 0.0
    requires 0 <= i < |v| && 0 <= j < |v| && v[i] < v[j]
    ensures ZScore(v, sd)[i].value < ZScore(v, sd)[j].value
  {
    StandardizeOrder(v[i], v[j], Mean(v), sd);
  }

  lemma {:induction false} SumSqAtConstant(v: seq<real>, c: real)
    requires forall i :: 0 <= i < |v| ==> v[i] == c
    ensures SumSq(v, c) == 0.0
  {
    if |v| > 0 {
      SumSqAtConstant(v[..|v| - 1], c);
    }
  }

  lemma MeanOfConstant(v: seq<real>, c: real)
    requires |v| > 0 && forall i :: 0 <= i < |v| ==> v[i] == c
    ensures Mean(v) == c
  {
    SumConstant(v, c);
    var n := |v| as real;
    assert Sum(v) == n * c;
    assert (n * c) / n == c;
  }

  /** A constant expression vector has deviation zero, so it standardises to all
      zeros rather than to NaN. */
  lemma ZScoreOfConstant(v: seq<real>, sd: real, c: real)
    requires |v| >= 2 && IsSampleSd(sd, v)
    requires forall i :: 0 <= i < |v| ==> v[i] == c
    ensures forall i :: 0 <= i < |v| ==> ZScore(v, sd)[i] == Some(0.0)
  {
    MeanOfConstant(v, c);
    SumSqAtConstant(v, c);
    assert SampleVariance(v) == 0.0;
  }

  /** `0.40 * hk2_z + 0.30 * bcl2l1_z + 0.30 * tspo_z`, element by element. */
  function Composite(h: Column, b: Column, t: Column): (r: Column)
    requires |h| == |b| == |t|
    ensures |r| == |h|
    ensures forall i :: 0 <= i < |r| ==> (r[i].Some? <==> h[i].Some? && b[i].Some? && t[i].Some?)
  {
    TgjsColumn(h, b, t)
  }

  /** The weighted sum commutes with summing over the cohort. */
  lemma {:induction false} SumOfTgjs(h: seq<real>, b: seq<real>, t: seq<real>)
    requires |h| == |b| == |t|
    ensures Sum(seq(|h|, i requires 0 <= i < |h| => Tgjs(h[i], b[i], t[i]))) == Tgjs(Sum(h), Sum(b), Sum(t))
  {
    var s := seq(|h|, i requires 0 <= i < |h| => Tgjs(h[i], b[i], t[i]));
    if |h| > 0 {
      var n := |h| - 1;
      assert s[..n] == seq(n, i requires 0 <= i < n => Tgjs(h[..n][i], b[..n][i], t[..n][i]));
      SumOfTgjs(h[..n], b[..n], t[..n]);
    }
  }

  /** The composite of three z-scored genes (two or more samples each) has mean
      zero across the cohort. */
  lemma CompositeSumsToZero(hv: seq<real>, hs: real, bv: seq<real>, bs: real, tv: seq<real>, ts: real)
    requires |hv| == |bv| == |tv| >= 2
    requires IsSampleSd(hs, hv) && IsSampleSd(bs, bv) && IsSampleSd(ts, tv)
    ensures Sum(Present(Composite(ZScore(hv, hs), ZScore(bv, bs), ZScore(tv, ts)))) == 0.0
  {
    var h := ZScore(hv, hs);
    var b := ZScore(bv, bs);
    var t := ZScore(tv, ts);
    var c := Composite(h, b, t);
    PresentAll(h);
    PresentAll(b);
    PresentAll(t);
    PresentAll(c);
    var hp, bp, tp := Present(h), Present(b), Present(t);
    assert Present(c) == seq(|hp|, i requires 0 <= i < |hp| => Tgjs(hp[i], bp[i], tp[i]));
    SumOfTgjs(hp, bp, tp);
    ZScoreSumsToZero(hv, hs);
    ZScoreSumsToZero(bv, bs);
    ZScoreSumsToZero(tv, ts);
  }

  /** `(tGJS > median).map({True: "High", False: "Low"})`: a missing score is
      not above anything, so it is "Low". */
  function HighLow(tgjs: Option<real>, median: Option<real>): (r: string)
    ensures r == "High" || r == "Low"
    ensures r == "High" <==> tgjs.Some? && median.Some? && tgjs.value > median.value
  {
    if tgjs.Some? && median.Some? && tgjs.value > median.value then "High" else "Low"
  }

  /** `(df['tGJS'] > median).map(...)` over the cohort. */
  function HighLowColumn(tgjs: Column, median: Option<real>): (r: seq<string>)
    ensures |r| == |tgjs|
    ensures forall i :: 0 <= i < |tgjs| ==> r[i] == HighLow(tgjs[i], median)
  {
    seq(|tgjs|, i requires 0 <= i < |tgjs| => HighLow(tgjs[i], median))
  }

  function CountAbove(xs: seq<real>, m: real): nat
  {
    if |xs| == 0 then 0 else CountAbove(xs[..|xs| - 1], m) + (if xs[|xs| - 1] > m then 1 else 0)
  }

  function CountAtMost(xs: seq<real>, m: real): nat
  {
    if |xs| == 0 then 0 else CountAtMost(xs[..|xs| - 1], m) + (if xs[|xs| - 1] <= m then 1 else 0)
  }

  function CountAtLeast(xs: seq<real>, m: real): nat
  {
    if |xs| == 0 then 0 else CountAtLeast(xs[..|xs| - 1], m) + (if xs[|xs| - 1] >= m then 1 else 0)
  }

  /** `m` is a median of `xs`: at least half the values lie at or below it and
      at least half at or above it. Both the middle value and the mean of the two
      middle values are medians in this sense. */
  predicate IsMedian(m: real, xs: seq<real>)
  {
    2 * CountAtMost(xs, m) >= |xs| && 2 * CountAtLeast(xs, m) >= |xs|
  }

  /** `df['tGJS'].median()`: NaN exactly when no score is present, and otherwise a
      median of the present scores. */
  predicate MedianOf(median: Option<real>, tgjs: Column)
  {
    (median.None? <==> CountPresent(tgjs) == 0)
    && (median.Some? ==> IsMedian(median.value, Present(tgjs)))
  }

  lemma {:induction false} AboveOrAtMost(xs: seq<real>, m: real)
    ensures CountAbove(xs, m) + CountAtMost(xs, m) == |xs|
  {
    if |xs| > 0 {
      AboveOrAtMost(xs[..|xs| - 1], m);
    }
  }

  /** The "High" labels are the present scores above the median. */
  lemma {:induction false} HighCount(tgjs: Column, median: Option<real>)
    ensures Count(HighLowColumn(tgjs, median), "High")
      == if median.Some? then CountAbove(Present(tgjs), median.value) else 0
  {
    if |tgjs| > 0 {
      var n := |tgjs| - 1;
      HighCount(tgjs[..n], median);
      assert HighLowColumn(tgjs, median)[..n] == HighLowColumn(tgjs[..n], median);
    }
  }

  /** At most half of the present scores are "High": the split is at the median,
      and ties with it go to "Low". */
  lemma HighAtMostHalf(tgjs: Column, median: Option<real>)
    requires MedianOf(median, tgjs)
    ensures 2 * Count(HighLowColumn(tgjs, median), "High") <= CountPresent(tgjs)
  {
    HighCount(tgjs, median);
    if median.Some? {
      AboveOrAtMost(Present(tgjs), median.value);
    }
  }
}
