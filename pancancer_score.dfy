/** The pan-cancer tGJS: samples missing any GJS gene are dropped, each gene is
    min-max normalised over the remaining cohort, and the normalised values are
    combined with the 0.4/0.3/0.3 weights. */
module PanCancerScore {
  import opened Wrappers
  import opened Stats
  import opened Gjs
  import opened Seqs

  // ---------------------------------------------------------------- dropping rows

  /** Row `i` has all three GJS genes. */
  predicate Complete(cols: map<string, Column>, i: int)
    requires HK2 in cols && BCL2L1 in cols && TSPO in cols
  {
    0 <= i < |cols[HK2]| && 0 <= i < |cols[BCL2L1]| && 0 <= i < |cols[TSPO]|
    && cols[HK2][i].Some? && cols[BCL2L1][i].Some? && cols[TSPO][i].Some?
  }

  function CountTrue(keep: seq<bool>): (r: nat)
    ensures r <= |keep|
  {
    if |keep| == 0 then 0 else CountTrue(keep[..|keep| - 1]) + (if keep[|keep| - 1] then 1 else 0)
  }

  /** The entries of `col` on the kept rows, in order. */
  function KeepRows(col: Column, keep: seq<bool>): (r: Column)
    requires |col| == |keep|
    ensures |r| == CountTrue(keep)
  {
    if |col| == 0 then []
    else
      var n := |col| - 1;
      KeepRows(col[..n], keep[..n]) + (if keep[n] then [col[n]] else [])
  }

  /** `col[keep]` holds the entries of the selected rows, in row order. */
  lemma {:induction false} KeepRowsRows(col: Column, keep: seq<bool>)
    requires |col| == |keep|
    ensures |KeepRows(col, keep)| == |Where(keep)|
    ensures forall k :: 0 <= k < |Where(keep)| ==> KeepRows(col, keep)[k] == col[Where(keep)[k]]
  {
    if |col| > 0 {
      var n := |col| - 1;
      KeepRowsRows(col[..n], keep[..n]);
    }
  }

  /** Keeping only rows whose entry is present leaves no missing entry. */
  lemma {:induction false} KeepRowsPresent(col: Column, keep: seq<bool>)
    requires |col| == |keep|
    requires forall i :: 0 <= i < |col| && keep[i] ==> col[i].Some?
    ensures forall i :: 0 <= i < |KeepRows(col, keep)| ==> KeepRows(col, keep)[i].Some?
  {
    if |col| > 0 {
      var n := |col| - 1;
      KeepRowsPresent(col[..n], keep[..n]);
    }
  }

  /** A kept row is one that the mask selects, and every selected row is kept. */
  lemma {:induction false} KeepRowsMembers(col: Column, keep: seq<bool>, v: Option<real>)
    requires |col| == |keep|
    ensures v in KeepRows(col, keep) <==> exists i :: 0 <= i < |col| && keep[i] && col[i] == v
  {
    if |col| > 0 {
      var n := |col| - 1;
      KeepRowsMembers(col[..n], keep[..n], v);
      if v in KeepRows(col[..n], keep[..n]) {
        var i :| 0 <= i < n && keep[..n][i] && col[..n][i] == v;
        assert keep[i] && col[i] == v;
      }
      if exists i :: 0 <= i < |col| && keep[i] && col[i] == v {
        var i :| 0 <= i < |col| && keep[i] && col[i] == v;
        if i < n {
          assert keep[..n][i] && col[..n][i] == v;
        }
      }
    }
  }

  /** The GJS genes that are not columns, in gene order. */
  function MissingGenes(cols: map<string, Column>): (r: seq<string>)
    ensures forall g :: g in r <==> g in GJS_GENES && g !in cols
  {
    (if HK2 in cols then [] else [HK2]) + (if BCL2L1 in cols then [] else [BCL2L1])
    + (if TSPO in cols then [] else [TSPO])
  }

  /** `expr.dropna(subset=GENES)`: every column keeps only the complete rows. */
  function DropIncomplete(df: Frame): (r: Frame)
    requires df.WellFormed() && HK2 in df.cols && BCL2L1 in df.cols && TSPO in df.cols
    ensures r.WellFormed()
    ensures r.cols.Keys == df.cols.Keys
  {
    var keep := CompleteRows(df);
    Frame(CountTrue(keep), map c | c in df.cols :: KeepRows(df.cols[c], keep))
  }

  /** The mask of the rows that have all three GJS genes. */
  function CompleteRows(df: Frame): (keep: seq<bool>)
    requires df.WellFormed() && HK2 in df.cols && BCL2L1 in df.cols && TSPO in df.cols
    ensures |keep| == df.rows
  {
    seq(df.rows, i requires 0 <= i < df.rows => Complete(df.cols, i))
  }

  /** The drop keeps whole rows: row `k` of every column after the drop is the
      `k`-th complete row of the input, so a sample's values stay together and the
      samples keep their order. */
  lemma DropIncompleteRows(df: Frame)
    requires df.WellFormed() && HK2 in df.cols && BCL2L1 in df.cols && TSPO in df.cols
    ensures DropIncomplete(df).rows == |Where(CompleteRows(df))|
    ensures forall c, k :: c in df.cols && 0 <= k < |Where(CompleteRows(df))| ==>
      DropIncomplete(df).cols[c][k] == df.cols[c][Where(CompleteRows(df))[k]]
  {
    var keep := CompleteRows(df);
    var d := DropIncomplete(df);
    forall c | c in df.cols
      ensures |d.cols[c]| == |Where(keep)|
      ensures forall k :: 0 <= k < |Where(keep)| ==> d.cols[c][k] == df.cols[c][Where(keep)[k]]
    {
      KeepRowsRows(df.cols[c], keep);
    }
    if HK2 in df.cols {
      assert d.rows == |d.cols[HK2]|;
    }
  }

  /** After the drop no GJS value is missing, so no composite can be a partial sum. */
  lemma DroppedComplete(df: Frame)
    requires df.WellFormed() && HK2 in df.cols && BCL2L1 in df.cols && TSPO in df.cols
    ensures var d := DropIncomplete(df);
      forall i :: 0 <= i < d.rows ==> Complete(d.cols, i)
  {
    var keep := CompleteRows(df);
    KeepRowsPresent(df.cols[HK2], keep);
    KeepRowsPresent(df.cols[BCL2L1], keep);
    KeepRowsPresent(df.cols[TSPO], keep);
  }

  // ---------------------------------------------------------------- min-max

  function MinOf(xs: seq<real>): (m: real)
    requires |xs| > 0
    ensures m in xs
    ensures forall x :: x in xs ==> m <= x
  {
    if |xs| == 1 then xs[0]
    else
      var rest := MinOf(xs[1..]);
      assert forall x :: x in xs ==> x == xs[0] || x in xs[1..];
      if xs[0] <= rest then xs[0] else rest
  }

  function MaxOf(xs: seq<real>): (m: real)
    requires |xs| > 0
    ensures m in xs
    ensures forall x :: x in xs ==> x <= m
  {
    if |xs| == 1 then xs[0]
    else
      var rest := MaxOf(xs[1..]);
      assert forall x :: x in xs ==> x == xs[0] || x in xs[1..];
      if rest <= xs[0] then xs[0] else rest
  }

  /** `(vals - vals.min()) / (vals.max() - vals.min())` with pandas' NaN-skipping
      minimum and maximum. The code has no guard for a constant gene: then every
      entry is 0/0, which is NaN. */
  function MinMaxNormalize(col: Column): (r: Column)
    ensures |r| == |col|
    ensures forall i :: 0 <= i < |col| && r[i].Some? ==> col[i].Some?
  {
    var p := Present(col);
    if |p| == 0 then seq(|col|, i requires 0 <= i < |col| => None)
    else
      var lo := MinOf(p);
      var hi := MaxOf(p);
      seq(|col|, i requires 0 <= i < |col| =>
        match col[i]
        case None => None
        case Some(v) => if hi == lo then None else Some(Scale(v, lo, hi)))
  }

  /** The position of `v` between `lo` and `hi`, as a fraction of the range. */
  function Scale(v: real, lo: real, hi: real): real
    requires lo != hi
  {
    (v - lo) / (hi - lo)
  }

  /** The present values of `col` are not all equal. */
  predicate Spread(col: Column)
  {
    |Present(col)| > 0 && MinOf(Present(col)) < MaxOf(Present(col))
  }

  lemma UnitScale(v: real, lo: real, hi: real)
    requires lo <= v <= hi && lo < hi
    ensures 0.0 <= Scale(v, lo, hi) <= 1.0
    ensures v == lo ==> Scale(v, lo, hi) == 0.0
    ensures v == hi ==> Scale(v, lo, hi) == 1.0
  {
    var a := v - lo;
    var d := hi - lo;
    DivideUnit(a, d);
  }

  lemma DivideUnit(a: real, d: real)
    requires 0.0 <= a <= d && 0.0 < d
    ensures 0.0 <= a / d <= 1.0
    ensures a == 0.0 ==> a / d == 0.0
    ensures a == d ==> a / d == 1.0
  {
  }

  /** A gene with some spread is mapped into [0, 1], its minimum to 0 and its
      maximum to 1. */
  lemma MinMaxBounds(col: Column, i: int)
    requires 0 <= i < |col| && col[i].Some? && Spread(col)
    ensures MinMaxNormalize(col)[i].Some?
    ensures 0.0 <= MinMaxNormalize(col)[i].value <= 1.0
    ensures col[i].value == MinOf(Present(col)) ==> MinMaxNormalize(col)[i].value == 0.0
    ensures col[i].value == MaxOf(Present(col)) ==> MinMaxNormalize(col)[i].value == 1.0
  {
    var p := Present(col);
    var v, lo, hi := col[i].value, MinOf(p), MaxOf(p);
    MinMaxAt(col, i);
    PresentMembers(col, v);
    UnitScale(v, lo, hi);
  }

  /** The value a present entry of a spread column is normalised to. */
  lemma MinMaxAt(col: Column, i: int)
    requires 0 <= i < |col| && col[i].Some? && Spread(col)
    ensures MinMaxNormalize(col)[i] == Some(Scale(col[i].value, MinOf(Present(col)), MaxOf(Present(col))))
  {
  }

  lemma ScaleOrder(v: real, w: real, lo: real, hi: real)
    requires v < w && lo < hi
    ensures Scale(v, lo, hi) < Scale(w, lo, hi)
  {
  }

  /** Min-max normalisation keeps the strict order of present values. */
  lemma MinMaxOrder(col: Column, i: int, j: int)
    requires 0 <= i < |col| && 0 <= j < |col| && col[i].Some? && col[j].Some?
    requires col[i].value < col[j].value
    ensures MinMaxNormalize(col)[i].Some? && MinMaxNormalize(col)[j].Some?
    ensures MinMaxNormalize(col)[i].value < MinMaxNormalize(col)[j].value
  {
    var p := Present(col);
    PresentMembers(col, col[i].value);
    PresentMembers(col, col[j].value);
    ScaleOrder(col[i].value, col[j].value, MinOf(p), MaxOf(p));
  }

  /** The unguarded case: a gene whose present values are all equal normalises to
      NaN everywhere. */
  lemma MinMaxConstant(col: Column)
    requires !Spread(col)
    ensures forall i :: 0 <= i < |col| ==> MinMaxNormalize(col)[i].None?
  {
    forall i | 0 <= i < |col| && col[i].Some?
      ensures MinMaxNormalize(col)[i].None?
    {
      PresentMembers(col, col[i].value);
    }
  }

  // ---------------------------------------------------------------- compute_tgjs

  /** The loop of `compute_tgjs` over the genes, then the composite, on a frame
      that has every GJS gene. */
  method NormalizeAndScore(expr: Frame) returns (scored: Frame)
    requires expr.WellFormed() && HK2 in expr.cols && BCL2L1 in expr.cols && TSPO in expr.cols
    ensures scored == Frame(expr.rows, ScoredColumns(expr.cols, MinMaxNormalize))
  {
    assert GJS_GENES[0] in expr.cols && GJS_GENES[1] in expr.cols && GJS_GENES[2] in expr.cols;
    var cols := expr.cols;
    for k := 0 to |GJS_GENES|
      invariant cols == NormalizedUpTo(expr.cols, k, MinMaxNormalize)
    {
      var g := GJS_GENES[k];
      NormalizedKeepsGenes(expr.cols, k, g, MinMaxNormalize);
      cols := cols[NormName(g) := MinMaxNormalize(cols[g])];
    }
    NormalizedAll(expr.cols, MinMaxNormalize);
    cols := cols[TGJS := TgjsColumn(cols[NormName(HK2)], cols[NormName(BCL2L1)], cols[NormName(TSPO)])];
    scored := Frame(expr.rows, cols);
  }

  /** `compute_tgjs`: a GJS gene absent from the pivoted frame makes the drop fail
      with the missing genes; otherwise the incomplete samples are dropped before
      the genes are normalised and combined. */
  method ComputeTgjs(df: Frame) returns (res: Result<Frame, seq<string>>)
    requires df.WellFormed()
    ensures res.Err? <==> exists g :: g in GJS_GENES && g !in df.cols
    ensures res.Err? ==> res.error == MissingGenes(df.cols)
    ensures res.Ok? ==> HK2 in df.cols && BCL2L1 in df.cols && TSPO in df.cols
    ensures res.Ok? ==> res.value == Frame(DropIncomplete(df).rows, ScoredColumns(DropIncomplete(df).cols, MinMaxNormalize))
  {
    var missing := MissingGenes(df.cols);
    if |missing| > 0 {
      return Err(missing);
    }
    assert HK2 in df.cols && BCL2L1 in df.cols && TSPO in df.cols;
    var expr := DropIncomplete(df);
    var scored := NormalizeAndScore(expr);
    res := Ok(scored);
  }

  /** Every sample left after the drop with all three genes spread gets a composite
      in [0, 1]. */
  lemma TgjsUnitInterval(df: Frame, i: int)
    requires df.WellFormed() && HK2 in df.cols && BCL2L1 in df.cols && TSPO in df.cols
    requires var d := DropIncomplete(df);
      Spread(d.cols[HK2]) && Spread(d.cols[BCL2L1]) && Spread(d.cols[TSPO])
    requires 0 <= i < DropIncomplete(df).rows
    ensures var tgjs := ScoredColumns(DropIncomplete(df).cols, MinMaxNormalize)[TGJS];
      i < |tgjs| && tgjs[i].Some? && 0.0 <= tgjs[i].value <= 1.0
  {
    var d := DropIncomplete(df);
    DroppedComplete(df);
    assert Complete(d.cols, i);
    MinMaxBounds(d.cols[HK2], i);
    MinMaxBounds(d.cols[BCL2L1], i);
    MinMaxBounds(d.cols[TSPO], i);
    var h := MinMaxNormalize(d.cols[HK2])[i].value;
    var b := MinMaxNormalize(d.cols[BCL2L1])[i].value;
    var t := MinMaxNormalize(d.cols[TSPO])[i].value;
    TgjsBetween(h, b, t, 0.0, 1.0);
  }

  /** A constant GJS gene leaves every composite missing. */
  lemma ConstantGeneNoScores(df: Frame, g: string)
    requires df.WellFormed() && HK2 in df.cols && BCL2L1 in df.cols && TSPO in df.cols
    requires g in GJS_GENES && !Spread(DropIncomplete(df).cols[g])
    ensures var tgjs := ScoredColumns(DropIncomplete(df).cols, MinMaxNormalize)[TGJS];
      forall i :: 0 <= i < |tgjs| ==> tgjs[i].None?
  {
    MinMaxConstant(DropIncomplete(df).cols[g]);
  }
}
