/** The colorectal tGJS: each GJS gene is rank-normalised within the cohort
    (average rank of ties, divided by the number of rows) and the three
    normalised columns are combined with the 0.4/0.3/0.3 weights. */
module CoadreadScore {
  import opened Wrappers
  import opened Stats
  import opened Gjs

  /** How many of `xs` are strictly below `v`. */
  function CountLess(xs: seq<real>, v: real): (r: nat)
    ensures r <= |xs|
  {
    if |xs| == 0 then 0 else CountLess(xs[..|xs| - 1], v) + (if xs[|xs| - 1] < v then 1 else 0)
  }

  /** How many of `xs` equal `v`. */
  function CountEqual(xs: seq<real>, v: real): (r: nat)
    ensures r <= |xs|
  {
    if |xs| == 0 then 0 else CountEqual(xs[..|xs| - 1], v) + (if xs[|xs| - 1] == v then 1 else 0)
  }

  /** The values below `v` and the values equal to `v` are disjoint, and `v` itself
      is counted among the equal ones when it occurs. */
  lemma {:induction false} CountBounds(xs: seq<real>, v: real)
    ensures CountLess(xs, v) + CountEqual(xs, v) <= |xs|
    ensures v in xs ==> CountEqual(xs, v) >= 1
  {
    if |xs| > 0 {
      var n := |xs| - 1;
      CountBounds(xs[..n], v);
      if v in xs && xs[n] != v {
        var j :| 0 <= j < |xs| && xs[j] == v;
        assert xs[..n][j] == v;
      }
    }
  }

  /** Everything at or below `v` is strictly below a larger `w`. */
  lemma {:induction false} CountLessMonotone(xs: seq<real>, v: real, w: real)
    requires v < w
    ensures CountLess(xs, w) >= CountLess(xs, v) + CountEqual(xs, v)
  {
    if |xs| > 0 {
      CountLessMonotone(xs[..|xs| - 1], v, w);
    }
  }

  /** `Series.rank(method="average")` of a value among the present values `xs`:
      the positions 1..|xs| of the sorted values, ties sharing the mean of their
      positions. */
  function AverageRank(xs: seq<real>, v: real): real
  {
    CountLess(xs, v) as real + (CountEqual(xs, v) + 1) as real / 2.0
  }

  /** A present value's average rank lies between 1 and the number of present values. */
  lemma AverageRankBounds(xs: seq<real>, v: real)
    requires v in xs
    ensures 1.0 <= AverageRank(xs, v) <= |xs| as real
  {
    CountBounds(xs, v);
  }

  /** Average ranks keep the strict order of the values. */
  lemma AverageRankOrder(xs: seq<real>, v: real, w: real)
    requires v in xs && v < w
    ensures AverageRank(xs, v) < AverageRank(xs, w)
  {
    CountBounds(xs, v);
    CountLessMonotone(xs, v, w);
  }

  /** `col.rank(method="average") / n` with `n` the number of rows: NaN stays NaN,
      and a present value becomes its average rank among the present values over n. */
  function RankNormalize(col: Column): (r: Column)
    ensures |r| == |col|
    ensures forall i :: 0 <= i < |col| ==> (r[i].Some? <==> col[i].Some?)
    ensures forall i, j :: 0 <= i < |col| && 0 <= j < |col| && col[i] == col[j] ==> r[i] == r[j]
  {
    var p := Present(col);
    seq(|col|, i requires 0 <= i < |col| =>
      match col[i]
      case Some(v) => Some(AverageRank(p, v) / (|col| as real))
      case None => None)
  }

  lemma DivideBounds(a: real, b: real, n: real)
    requires n > 0.0 && 0.0 < a <= b <= n
    ensures 0.0 < a / n <= b / n <= 1.0
  {
  }

  /** A normalised value lies in (0, p/n] where p is the number of present values;
      with no missing values that is (0, 1]. */
  lemma RankNormalizeBounds(col: Column, i: int)
    requires 0 <= i < |col| && col[i].Some?
    ensures 0.0 < RankNormalize(col)[i].value <= CountPresent(col) as real / |col| as real <= 1.0
  {
    var p := Present(col);
    PresentMembers(col, col[i].value);
    AverageRankBounds(p, col[i].value);
    DivideBounds(AverageRank(p, col[i].value), |p| as real, |col| as real);
  }

  lemma DivideOrder(a: real, b: real, n: real)
    requires n > 0.0 && a < b
    ensures a / n < b / n
  {
  }

  /** Rank normalisation keeps the strict order of present values. */
  lemma RankNormalizeOrder(col: Column, i: int, j: int)
    requires 0 <= i < |col| && 0 <= j < |col| && col[i].Some? && col[j].Some?
    requires col[i].value < col[j].value
    ensures RankNormalize(col)[i].value < RankNormalize(col)[j].value
  {
    var p := Present(col);
    PresentMembers(col, col[i].value);
    AverageRankOrder(p, col[i].value, col[j].value);
    DivideOrder(AverageRank(p, col[i].value), AverageRank(p, col[j].value), |col| as real);
  }

  /** The first GJS gene missing from the columns. */
  function FirstMissing(cols: map<string, Column>): (g: string)
    requires exists g :: g in GJS_GENES && g !in cols
    ensures g in GJS_GENES && g !in cols
    ensures forall k :: 0 <= k < |GJS_GENES| && GJS_GENES[k] == g ==> forall j :: 0 <= j < k ==> GJS_GENES[j] in cols
  {
    if HK2 !in cols then HK2 else if BCL2L1 !in cols then BCL2L1 else TSPO
  }

  /** `compute_tgjs_coadread`: adds the normalised columns gene by gene, failing
      on the first GJS gene that is not a column, then adds the composite. */
  method ComputeTgjsCoadread(df: Frame) returns (res: Result<Frame, string>)
    requires df.WellFormed()
    ensures res.Err? <==> exists g :: g in GJS_GENES && g !in df.cols
    ensures res.Err? ==> res.error == "Missing GJS gene: " + FirstMissing(df.cols)
    ensures res.Ok? ==> res.value == Frame(df.rows, ScoredColumns(df.cols, RankNormalize))
  {
    var cols := df.cols;
    for k := 0 to |GJS_GENES|
      invariant forall j :: 0 <= j < k ==> GJS_GENES[j] in df.cols
      invariant cols == NormalizedUpTo(df.cols, k, RankNormalize)
    {
      var g := GJS_GENES[k];
      if g !in df.cols {
        return Err("Missing GJS gene: " + g);
      }
      NormalizedKeepsGenes(df.cols, k, g, RankNormalize);
      cols := cols[NormName(g) := RankNormalize(cols[g])];
    }
    assert HK2 == GJS_GENES[0] && BCL2L1 == GJS_GENES[1] && TSPO == GJS_GENES[2];
    NormalizedAll(df.cols, RankNormalize);
    cols := cols[TGJS := TgjsColumn(cols[NormName(HK2)], cols[NormName(BCL2L1)], cols[NormName(TSPO)])];
    res := Ok(Frame(df.rows, cols));
  }

  /** With no missing GJS values, every composite lies in (0, 1]. */
  lemma ScoredTgjsBounds(cols: map<string, Column>, i: int)
    requires HK2 in cols && BCL2L1 in cols && TSPO in cols
    requires |cols[HK2]| == |cols[BCL2L1]| == |cols[TSPO]|
    requires 0 <= i < |cols[HK2]|
    requires cols[HK2][i].Some? && cols[BCL2L1][i].Some? && cols[TSPO][i].Some?
    ensures ScoredColumns(cols, RankNormalize)[TGJS][i].Some?
    ensures 0.0 < ScoredColumns(cols, RankNormalize)[TGJS][i].value <= 1.0
  {
    var h := RankNormalize(cols[HK2]);
    var b := RankNormalize(cols[BCL2L1]);
    var t := RankNormalize(cols[TSPO]);
    RankNormalizeBounds(cols[HK2], i);
    RankNormalizeBounds(cols[BCL2L1], i);
    RankNormalizeBounds(cols[TSPO], i);
    var lo := Min3(h[i].value, b[i].value, t[i].value);
    TgjsBetween(h[i].value, b[i].value, t[i].value, lo, 1.0);
  }

  function Min3(a: real, b: real, c: real): (m: real)
    ensures m <= a && m <= b && m <= c
    ensures m == a || m == b || m == c
  {
    if a <= b && a <= c then a else if b <= c then b else c
  }
}
