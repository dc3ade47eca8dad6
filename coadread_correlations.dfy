/** The stratified correlation table of the colorectal analysis: for every tested
    stratum present and every marker column, a Spearman test of tGJS against the
    marker, a per-stratum Bonferroni correction over the markers, and two
    significance flags. */
module CoadreadCorrelations {
  import opened Wrappers
  import opened Stats
  import opened Seqs
  import opened Gjs
  import opened CoadreadStrata

  /** Fewer jointly present rows than this and the test is not run. */
  const MIN_PAIRS: nat := 10
  const ALPHA: real := 0.05

  const IMMUNE_GENES: seq<string> := ["CD8A", "IFNG", "CXCL10", "GZMB", "PRF1"]
  const EXHAUST_GENES: seq<string> := ["HAVCR2", "LAG3", "PDCD1", "TIGIT"]
  const STING_MARKERS: seq<string> := ["ENPP1", "TREX1", "CD274", "CGAS", "STING1"]
  const SIGNATURES: seq<string> := ["acute_sting", "chronic_sting", "sting_ratio"]

  // ---------------------------------------------------------------- Bonferroni

  /** The uncorrected product `p * n`. */
  function Scaled(p: real, nTests: nat): real
  {
    p * (nTests as real)
  }

  /** `min(p * n, 1.0)` for one p-value. Python's `min` returns its first argument
      when the comparison is false, so a NaN p-value stays NaN. */
  function CorrectOne(p: Option<real>, nTests: nat): (r: Option<real>)
    ensures r.Some? <==> p.Some?
    ensures r.Some? ==> r.value <= 1.0
    ensures r.Some? ==> r.value == 1.0 || r.value == Scaled(p.value, nTests)
  {
    match p
    case None => None
    case Some(v) =>
      var scaled := Scaled(v, nTests);
      Some(if 1.0 < scaled then 1.0 else scaled)
  }

  /** `bonferroni_correct`: same length and order as the input, entry by entry. */
  function Bonferroni(ps: seq<Option<real>>, nTests: nat): (r: seq<Option<real>>)
    ensures |r| == |ps|
    ensures forall i :: 0 <= i < |ps| ==> r[i] == CorrectOne(ps[i], nTests)
  {
    seq(|ps|, i requires 0 <= i < |ps| => CorrectOne(ps[i], nTests))
  }

  lemma ScaleAtLeast(p: real, nTests: nat)
    requires 0.0 <= p && 1 <= nTests
    ensures p <= Scaled(p, nTests)
  {
    var e := (nTests - 1) as real;
    assert Scaled(p, nTests) == p + p * e;
    assert p * e >= 0.0;
  }

  lemma ScaleMonotone(p: real, q: real, nTests: nat)
    requires p <= q
    ensures Scaled(p, nTests) <= Scaled(q, nTests)
  {
    var d := q - p;
    assert Scaled(q, nTests) == Scaled(p, nTests) + d * (nTests as real);
    assert d * (nTests as real) >= 0.0;
  }

  /** With at least one test, a corrected probability lies between the raw value and one. */
  lemma CorrectionBounds(p: real, nTests: nat)
    requires nTests >= 1 && 0.0 <= p <= 1.0
    ensures p <= CorrectOne(Some(p), nTests).value <= 1.0
  {
    ScaleAtLeast(p, nTests);
  }

  /** The correction keeps the order of p-values. */
  lemma CorrectionMonotone(p: real, q: real, nTests: nat)
    requires p <= q
    ensures CorrectOne(Some(p), nTests).value <= CorrectOne(Some(q), nTests).value
  {
    ScaleMonotone(p, q, nTests);
  }

  /** A p-value significant after correction was significant before it. */
  lemma CorrectedSignificantIsRaw(p: Option<real>, nTests: nat)
    requires nTests >= 1 && ValidP(p)
    ensures Below(CorrectOne(p, nTests), ALPHA) ==> Below(p, ALPHA)
  {
    if p.Some? {
      CorrectionBounds(p.value, nTests);
    }
  }

  // ---------------------------------------------------------------- markers and strata

  /** The candidate markers, in the order the script lists them; the gene groups
      keep only the genes that are columns. */
  function CandidateMarkers(cols: set<string>): seq<string>
  {
    ["immune_proxy"] + FilterIn(IMMUNE_GENES, cols) + ["exhaustion_score", "ee_ratio"]
    + FilterIn(EXHAUST_GENES, cols) + STING_MARKERS + SIGNATURES
  }

  /** Every marker the script can test. */
  const ALL_MARKERS: seq<string> :=
    ["immune_proxy"] + IMMUNE_GENES + ["exhaustion_score", "ee_ratio"] + EXHAUST_GENES + STING_MARKERS + SIGNATURES

  /** The tested markers: present columns only, duplicates removed keeping the
      first occurrence. */
  function Markers(cols: set<string>): (r: seq<string>)
    ensures Distinct(r)
    ensures forall m :: m in r <==> m in cols && m in ALL_MARKERS
  {
    Dedup(FilterIn(CandidateMarkers(cols), cols))
  }

  /** The tested markers keep the order in which the script lists them. */
  lemma MarkersOrder(cols: set<string>)
    ensures var r := Markers(cols);
      forall i, j :: 0 <= i < j < |r| ==>
        FirstIndex(CandidateMarkers(cols), r[i]) < FirstIndex(CandidateMarkers(cols), r[j])
  {
    var xs := CandidateMarkers(cols);
    assert Markers(cols) == Dedup(FilterIn(xs, cols));
    DedupFilterOrder(xs, cols);
  }

  /** The strata tested: the fixed order, limited to those that occur. */
  function PresentStrata(strata: seq<Stratum>): (r: seq<Stratum>)
    ensures Distinct(r)
    ensures forall s :: s in r <==> s in strata && s != UnknownStratum
    ensures UnknownStratum !in r
  {
    assert Distinct(STRATA);
    assert forall s :: s in STRATA <==> s != UnknownStratum;
    FilterInDistinct(STRATA, Occurring(strata));
    FilterIn(STRATA, Occurring(strata))
  }

  function Occurring(strata: seq<Stratum>): set<Stratum>
  {
    set s | s in strata
  }

  /** The tested strata keep the fixed order. */
  lemma PresentStrataOrder(strata: seq<Stratum>)
    ensures var r := PresentStrata(strata);
      forall i, j :: 0 <= i < j < |r| ==> FirstIndex(STRATA, r[i]) < FirstIndex(STRATA, r[j])
  {
    assert Distinct(STRATA);
    assert PresentStrata(strata) == FilterIn(STRATA, Occurring(strata));
    FilterInOrderDistinct(STRATA, Occurring(strata));
  }

  // ---------------------------------------------------------------- one stratum

  /** The outcome for one marker before correction. */
  datatype MarkerTest = MarkerTest(rho: Option<real>, pRaw: Option<real>, n: nat)

  /** Below the pair threshold the coefficient is NaN and the p-value 1.0; the
      actual number of pairs is kept either way. */
  function TestPairs(x: seq<real>, y: seq<real>, sp: Spearman): (r: MarkerTest)
    ensures r.n == |x|
    ensures |x| < MIN_PAIRS ==> r.rho.None? && r.pRaw == Some(1.0)
    ensures |x| >= MIN_PAIRS ==> r.rho == sp(x, y).rho && r.pRaw == sp(x, y).p
  {
    if |x| < MIN_PAIRS then MarkerTest(None, Some(1.0), |x|)
    else
      var c := sp(x, y);
      MarkerTest(c.rho, c.p, |x|)
  }

  /** A row of the correlation table. */
  datatype CorrRow = CorrRow(
    stratum: Stratum,
    stratumLabel: string,
    marker: string,
    rho: Option<real>,
    pRaw: Option<real>,
    pBonferroni: Option<real>,
    n: nat,
    significantBonf: bool,
    significantRaw: bool)

  /** The frame the correlations read: a composite column and marker columns, all
      aligned with the stratum of each row. */
  predicate Aligned(df: Frame, strata: seq<Stratum>)
  {
    df.WellFormed() && TGJS in df.cols && |strata| == df.rows
  }

  /** `sdf[["tGJS", marker]].dropna()` for the rows of stratum `s`. */
  function StratumPairs(df: Frame, strata: seq<Stratum>, s: Stratum, marker: string): (r: (seq<real>, seq<real>))
    requires Aligned(df, strata) && marker in df.cols
    ensures |r.0| == |r.1|
  {
    Pairs(Select(df.cols[TGJS], strata, s), Select(df.cols[marker], strata, s))
  }

  /** The rows of stratum `s` where both the score and the marker are present. */
  function JointRows(df: Frame, strata: seq<Stratum>, s: Stratum, marker: string): seq<nat>
    requires Aligned(df, strata) && marker in df.cols
  {
    var x, y := df.cols[TGJS], df.cols[marker];
    Where(seq(df.rows, i requires 0 <= i < df.rows => strata[i] == s && x[i].Some? && y[i].Some?))
  }

  /** The pairs tested for a stratum are the score and the marker on the rows of
      that stratum where both are present, in row order. */
  lemma StratumPairsRows(df: Frame, strata: seq<Stratum>, s: Stratum, marker: string)
    requires Aligned(df, strata) && marker in df.cols
    ensures var r, rows := StratumPairs(df, strata, s, marker), JointRows(df, strata, s, marker);
      |r.0| == |rows|
      && forall k :: 0 <= k < |rows| ==>
           df.cols[TGJS][rows[k]] == Some(r.0[k]) && df.cols[marker][rows[k]] == Some(r.1[k])
  {
    var x, y := df.cols[TGJS], df.cols[marker];
    var sx, sy := Select(x, strata, s), Select(y, strata, s);
    SelectRows(x, strata, s);
    SelectRows(y, strata, s);
    PairsRows(sx, sy);
    var w1 := Where(InStratum(strata, s));
    var keep := seq(df.rows, i requires 0 <= i < df.rows => strata[i] == s && x[i].Some? && y[i].Some?);
    forall j | 0 <= j < |w1|
      ensures Both(sx, sy)[j] <==> keep[w1[j]]
    {
      assert InStratum(strata, s)[w1[j]];
    }
    WhereCompose(InStratum(strata, s), Both(sx, sy), keep);
  }

  function TestOf(df: Frame, strata: seq<Stratum>, s: Stratum, marker: string, sp: Spearman): MarkerTest
    requires Aligned(df, strata) && marker in df.cols
  {
    var xy := StratumPairs(df, strata, s, marker);
    TestPairs(xy.0, xy.1, sp)
  }

  /** The raw p-values of one stratum, one per marker. */
  function RawPValues(df: Frame, strata: seq<Stratum>, s: Stratum, markers: seq<string>, sp: Spearman): (r: seq<Option<real>>)
    requires Aligned(df, strata) && forall m :: m in markers ==> m in df.cols
    ensures |r| == |markers|
    ensures forall j :: 0 <= j < |markers| ==> r[j] == TestOf(df, strata, s, markers[j], sp).pRaw
  {
    seq(|markers|, j requires 0 <= j < |markers| => TestOf(df, strata, s, markers[j], sp).pRaw)
  }

  /** The table row for marker `j` of stratum `s`; the family size is the number
      of markers. */
  function RowOf(df: Frame, strata: seq<Stratum>, s: Stratum, markers: seq<string>, j: int, sp: Spearman): (r: CorrRow)
    requires Aligned(df, strata) && forall m :: m in markers ==> m in df.cols
    requires s != UnknownStratum && 0 <= j < |markers|
    ensures r.stratum == s && r.stratumLabel == s.Label() && r.marker == markers[j]
    ensures MarkerTest(r.rho, r.pRaw, r.n) == TestOf(df, strata, s, markers[j], sp)
    ensures r.pBonferroni == CorrectOne(r.pRaw, |markers|)
    ensures r.significantBonf <==> Below(r.pBonferroni, ALPHA)
    ensures r.significantRaw <==> Below(r.pRaw, ALPHA)
    ensures r.n < MIN_PAIRS ==> r.rho.None? && r.pRaw == Some(1.0)
  {
    var t := TestOf(df, strata, s, markers[j], sp);
    var pBonf := Bonferroni(RawPValues(df, strata, s, markers, sp), |markers|)[j];
    CorrRow(s, s.Label(), markers[j], t.rho, t.pRaw, pBonf, t.n, Below(pBonf, ALPHA), Below(t.pRaw, ALPHA))
  }

  /** All rows of one stratum, in marker order. */
  function StratumRows(df: Frame, strata: seq<Stratum>, s: Stratum, markers: seq<string>, sp: Spearman): (r: seq<CorrRow>)
    requires Aligned(df, strata) && forall m :: m in markers ==> m in df.cols
    requires s != UnknownStratum
    ensures |r| == |markers|
    ensures forall j :: 0 <= j < |markers| ==> r[j] == RowOf(df, strata, s, markers, j, sp)
  {
    seq(|markers|, j requires 0 <= j < |markers| => RowOf(df, strata, s, markers, j, sp))
  }

  /** The whole table: the strata in order, each with all its markers. */
  function StratifiedRows(df: Frame, strata: seq<Stratum>, tested: seq<Stratum>, markers: seq<string>, sp: Spearman): seq<CorrRow>
    requires Aligned(df, strata) && forall m :: m in markers ==> m in df.cols
    requires UnknownStratum !in tested
  {
    if |tested| == 0 then []
    else
      var n := |tested| - 1;
      StratifiedRows(df, strata, tested[..n], markers, sp) + StratumRows(df, strata, tested[n], markers, sp)
  }

  /** The inner loop of `run_stratified_correlations` for one stratum: the test of
      every marker, before correction. */
  method TestMarkers(df: Frame, strata: seq<Stratum>, s: Stratum, markers: seq<string>, sp: Spearman)
    returns (rhos: seq<Option<real>>, pRaw: seq<Option<real>>, ns: seq<nat>)
    requires Aligned(df, strata) && forall m :: m in markers ==> m in df.cols
    ensures |rhos| == |pRaw| == |ns| == |markers|
    ensures forall j :: 0 <= j < |markers| ==> MarkerTest(rhos[j], pRaw[j], ns[j]) == TestOf(df, strata, s, markers[j], sp)
  {
    rhos, pRaw, ns := [], [], [];
    for j := 0 to |markers|
      invariant |rhos| == |pRaw| == |ns| == j
      invariant forall i :: 0 <= i < j ==> MarkerTest(rhos[i], pRaw[i], ns[i]) == TestOf(df, strata, s, markers[i], sp)
    {
      var xy := Pairs(Select(df.cols[TGJS], strata, s), Select(df.cols[markers[j]], strata, s));
      if |xy.0| < MIN_PAIRS {
        rhos, pRaw, ns := rhos + [None], pRaw + [Some(1.0)], ns + [|xy.0|];
      } else {
        var c := sp(xy.0, xy.1);
        rhos, pRaw, ns := rhos + [c.rho], pRaw + [c.p], ns + [|xy.0|];
      }
    }
  }

  /** The rows of one stratum: correction over the whole marker family, then one
      row per marker. */
  method StratumTable(df: Frame, strata: seq<Stratum>, s: Stratum, markers: seq<string>, sp: Spearman)
    returns (rows: seq<CorrRow>)
    requires Aligned(df, strata) && forall m :: m in markers ==> m in df.cols
    requires s != UnknownStratum
    ensures rows == StratumRows(df, strata, s, markers, sp)
  {
    var rhos, pRaw, ns := TestMarkers(df, strata, s, markers, sp);
    assert pRaw == RawPValues(df, strata, s, markers, sp);
    var pBonf := Bonferroni(pRaw, |markers|);
    rows := [];
    for j := 0 to |markers|
      invariant |rows| == j
      invariant forall i :: 0 <= i < j ==> rows[i] == RowOf(df, strata, s, markers, i, sp)
    {
      rows := rows + [CorrRow(s, s.Label(), markers[j], rhos[j], pRaw[j], pBonf[j], ns[j],
                              Below(pBonf[j], ALPHA), Below(pRaw[j], ALPHA))];
    }
  }

  /** `run_stratified_correlations`: the rows of every present stratum, in the
      fixed stratum order. */
  method RunStratifiedCorrelations(df: Frame, strata: seq<Stratum>, sp: Spearman) returns (results: seq<CorrRow>)
    requires Aligned(df, strata)
    ensures results == StratifiedRows(df, strata, PresentStrata(strata), Markers(df.cols.Keys), sp)
  {
    var markers := Markers(df.cols.Keys);
    var tested := PresentStrata(strata);
    results := [];
    for k := 0 to |tested|
      invariant results == StratifiedRows(df, strata, tested[..k], markers, sp)
    {
      var rows := StratumTable(df, strata, tested[k], markers, sp);
      results := results + rows;
      assert tested[..k + 1][..k] == tested[..k];
    }
    assert tested[..|tested|] == tested;
  }

  // ---------------------------------------------------------------- table properties

  /** One row per (stratum, marker): the table has |strata| * |markers| rows. */
  lemma {:induction false} StratifiedRowsLength(df: Frame, strata: seq<Stratum>, tested: seq<Stratum>, markers: seq<string>, sp: Spearman)
    requires Aligned(df, strata) && forall m :: m in markers ==> m in df.cols
    requires UnknownStratum !in tested
    ensures |StratifiedRows(df, strata, tested, markers, sp)| == |tested| * |markers|
  {
    if |tested| > 0 {
      var n := |tested| - 1;
      StratifiedRowsLength(df, strata, tested[..n], markers, sp);
      Distribute(n, |markers|);
    }
  }

  lemma Distribute(n: nat, m: nat)
    ensures n * m + m == (n + 1) * m
  {
  }

  /** Row `k * |markers| + j` of the table is stratum `k`, marker `j`. */
  lemma {:induction false} StratifiedRowsIndex(df: Frame, strata: seq<Stratum>, tested: seq<Stratum>, markers: seq<string>, sp: Spearman, k: nat, j: nat)
    requires Aligned(df, strata) && forall m :: m in markers ==> m in df.cols
    requires UnknownStratum !in tested
    requires k < |tested| && j < |markers|
    ensures k * |markers| + j < |StratifiedRows(df, strata, tested, markers, sp)|
    ensures StratifiedRows(df, strata, tested, markers, sp)[k * |markers| + j] == RowOf(df, strata, tested[k], markers, j, sp)
  {
    var n := |tested| - 1;
    var pre := StratifiedRows(df, strata, tested[..n], markers, sp);
    StratifiedRowsLength(df, strata, tested[..n], markers, sp);
    StratifiedRowsLength(df, strata, tested, markers, sp);
    if k < n {
      IndexBelow(k, j, n, |markers|);
      StratifiedRowsIndex(df, strata, tested[..n], markers, sp, k, j);
      assert tested[..n][k] == tested[k];
    }
  }

  lemma IndexBelow(k: nat, j: nat, n: nat, m: nat)
    requires k < n && j < m
    ensures k * m + j < n * m
  {
    MulMonotone(k + 1, n, m);
    Distribute(k, m);
  }

  lemma {:induction false} MulMonotone(a: nat, b: nat, m: nat)
    requires a <= b
    ensures a * m <= b * m
    decreases b - a
  {
    if a < b {
      MulMonotone(a, b - 1, m);
      Distribute(b - 1, m);
    }
  }

  /** Every row of the table: a Bonferroni-significant row is significant before
      correction, and a row with too few pairs carries the fallback values. */
  lemma RowFlags(df: Frame, strata: seq<Stratum>, s: Stratum, markers: seq<string>, j: int, sp: Spearman)
    requires Aligned(df, strata) && forall m :: m in markers ==> m in df.cols
    requires s != UnknownStratum && 0 <= j < |markers|
    requires ValidSpearman(sp)
    ensures var r := RowOf(df, strata, s, markers, j, sp);
      (r.significantBonf ==> r.significantRaw) && !(r.n < MIN_PAIRS && r.significantBonf)
  {
    var r := RowOf(df, strata, s, markers, j, sp);
    var xy := StratumPairs(df, strata, s, markers[j]);
    assert ValidP(sp(xy.0, xy.1).p);
    CorrectedSignificantIsRaw(r.pRaw, |markers|);
  }
}
