/** The pan-cancer analysis around the score: the gene list and cancer-type id of
    each study, the correlations of tGJS with the immune markers, the acute and
    chronic STING signatures and their difference, and the verdict on the
    response-rate prediction. */
module PanCancer {
  import opened Wrappers
  import opened Text
  import opened Seqs
  import opened Stats
  import opened Gjs

  const IMMUNE_GENES: seq<string> := ["CD8A", "IFNG", "CXCL10", "GZMB", "PRF1"]
  const STING_GENES: seq<string> := ["CGAS", "STING1", "ENPP1", "TREX1", "CD274"]
  const ACUTE_STING: seq<string> := ["IFNB1", "CXCL10", "CCL5"]
  const CHRONIC_STING: seq<string> := ["IDO1", "TGFB1", "IL6", "ARG1", "NOS2"]

  // ---------------------------------------------------------------- genes and studies

  /** Every gene fetched, in the order the lists are concatenated. */
  const GENE_LISTS: seq<string> := GJS_GENES + IMMUNE_GENES + STING_GENES + ACUTE_STING + CHRONIC_STING

  /** `list(dict.fromkeys(all_genes))`. */
  function AllGenes(): (r: seq<string>)
    ensures Distinct(r)
    ensures forall g :: g in r <==> g in GENE_LISTS
  {
    Dedup(GENE_LISTS)
  }

  /** Each fetched gene is requested exactly once, CXCL10 included although two of
      the lists name it. */
  lemma AllGenesOnce(g: string)
    ensures Count(AllGenes(), g) == if g in GENE_LISTS then 1 else 0
  {
    CountDistinct(AllGenes(), g);
  }

  /** The genes keep the order of their first mention. */
  lemma AllGenesOrder(i: nat, j: nat)
    requires i < j < |AllGenes()|
    ensures FirstIndex(GENE_LISTS, AllGenes()[i]) < FirstIndex(GENE_LISTS, AllGenes()[j])
  {
    DedupOrder(GENE_LISTS, i, j);
  }

  const STUDY_SUFFIX := "_tcga_pan_can_atlas_2018"

  /** `sid.replace("_tcga_pan_can_atlas_2018", "").upper()`. */
  function CancerType(sid: string): (r: string)
    ensures |r| <= |sid|
  {
    RemoveAllShorter(sid, STUDY_SUFFIX);
    Upper(RemoveAll(sid, STUDY_SUFFIX))
  }

  lemma {:induction false} RemoveAllShorter(s: string, pat: string)
    requires |pat| > 0
    ensures |RemoveAll(s, pat)| <= |s|
    decreases |s|
  {
    if |s| >= |pat| {
      if s[..|pat|] == pat {
        RemoveAllShorter(s[|pat|..], pat);
      } else {
        RemoveAllShorter(s[1..], pat);
      }
    }
  }

  /** A study id made of a code without underscores and the suffix gives the code,
      upper-cased: "brca_tcga_pan_can_atlas_2018" gives "BRCA" and
      "coadread_tcga_pan_can_atlas_2018" gives "COADREAD". */
  lemma CancerTypeOfStudy(code: string)
    requires '_' !in code
    ensures CancerType(code + STUDY_SUFFIX) == Upper(code)
  {
    RemoveAllSkips(code, STUDY_SUFFIX, STUDY_SUFFIX);
    assert STUDY_SUFFIX[..|STUDY_SUFFIX|] == STUDY_SUFFIX;
    assert STUDY_SUFFIX[|STUDY_SUFFIX|..] == [];
    assert code + [] == code;
  }

  /** An id without an underscore is only upper-cased. */
  lemma CancerTypeNoSuffix(sid: string)
    requires '_' !in sid
    ensures CancerType(sid) == Upper(sid)
  {
    RemoveAllAbsent(sid, STUDY_SUFFIX);
  }

  // ---------------------------------------------------------------- immune correlations

  const MIN_PAIRS: nat := 10
  const IMMUNE_ALPHA: real := 0.01

  datatype ImmuneRow = ImmuneRow(marker: string, rho: Option<real>, p: Option<real>, n: nat, significant: bool)

  /** A frame with the composite column and one entry per row in every column. */
  predicate Scored(df: Frame)
  {
    df.WellFormed() && TGJS in df.cols
  }

  /** `df[["tGJS", col]].dropna()`. */
  function PairsWith(df: Frame, col: string): (r: (seq<real>, seq<real>))
    requires Scored(df) && col in df.cols
    ensures |r.0| == |r.1|
  {
    Pairs(df.cols[TGJS], df.cols[col])
  }

  /** A marker gets a row iff it is a column with at least ten pairs. */
  predicate ImmuneTested(df: Frame, g: string)
    requires Scored(df)
  {
    g in df.cols && |PairsWith(df, g).0| >= MIN_PAIRS
  }

  function ImmuneRowOf(df: Frame, g: string, sp: Spearman): (r: ImmuneRow)
    requires Scored(df) && g in df.cols
    ensures r.marker == g && r.n == |PairsWith(df, g).0|
    ensures r.rho == sp(PairsWith(df, g).0, PairsWith(df, g).1).rho
    ensures r.p == sp(PairsWith(df, g).0, PairsWith(df, g).1).p
    ensures r.significant <==> Below(r.p, IMMUNE_ALPHA)
  {
    var xy := PairsWith(df, g);
    var c := sp(xy.0, xy.1);
    ImmuneRow(g, c.rho, c.p, |xy.0|, Below(c.p, IMMUNE_ALPHA))
  }

  /** The rows for `genes`, in order, skipping untested markers. */
  function ImmuneRows(df: Frame, genes: seq<string>, sp: Spearman): (r: seq<ImmuneRow>)
    requires Scored(df)
    ensures |r| <= |genes|
    ensures forall i :: 0 <= i < |r| ==>
      r[i].marker in genes && ImmuneTested(df, r[i].marker) && r[i] == ImmuneRowOf(df, r[i].marker, sp)
  {
    if |genes| == 0 then []
    else
      var n := |genes| - 1;
      var g := genes[n];
      ImmuneRows(df, genes[..n], sp) + (if ImmuneTested(df, g) then [ImmuneRowOf(df, g, sp)] else [])
  }

  /** Every tested marker has a row. */
  lemma {:induction false} ImmuneRowsComplete(df: Frame, genes: seq<string>, sp: Spearman, g: string)
    requires Scored(df) && g in genes && ImmuneTested(df, g)
    ensures exists i :: 0 <= i < |ImmuneRows(df, genes, sp)| && ImmuneRows(df, genes, sp)[i].marker == g
  {
    var n := |genes| - 1;
    var rows := ImmuneRows(df, genes, sp);
    if genes[n] == g {
      assert rows[|rows| - 1].marker == g;
    } else {
      assert g in genes[..n];
      ImmuneRowsComplete(df, genes[..n], sp, g);
      var i :| 0 <= i < |ImmuneRows(df, genes[..n], sp)| && ImmuneRows(df, genes[..n], sp)[i].marker == g;
      assert rows[i] == ImmuneRows(df, genes[..n], sp)[i];
    }
  }

  /** Which genes of `genes` get a row. */
  function TestedMask(df: Frame, genes: seq<string>): (m: seq<bool>)
    requires Scored(df)
    ensures |m| == |genes|
    ensures forall i :: 0 <= i < |genes| ==> (m[i] <==> ImmuneTested(df, genes[i]))
  {
    seq(|genes|, i requires 0 <= i < |genes| => ImmuneTested(df, genes[i]))
  }

  /** The report has one row per tested gene, in the order of `genes`: row `k`
      is the `k`-th tested gene's. */
  lemma {:induction false} ImmuneRowsOrder(df: Frame, genes: seq<string>, sp: Spearman)
    requires Scored(df)
    ensures |ImmuneRows(df, genes, sp)| == |Where(TestedMask(df, genes))|
    ensures forall k :: 0 <= k < |Where(TestedMask(df, genes))| ==>
      ImmuneRows(df, genes, sp)[k] == ImmuneRowOf(df, genes[Where(TestedMask(df, genes))[k]], sp)
  {
    if |genes| > 0 {
      var n := |genes| - 1;
      ImmuneRowsOrder(df, genes[..n], sp);
      assert TestedMask(df, genes)[..n] == TestedMask(df, genes[..n]);
    }
  }

  /** `correlate_immune`. */
  method CorrelateImmune(df: Frame, sp: Spearman) returns (results: seq<ImmuneRow>)
    requires Scored(df)
    ensures results == ImmuneRows(df, IMMUNE_GENES, sp)
  {
    results := [];
    for k := 0 to |IMMUNE_GENES|
      invariant results == ImmuneRows(df, IMMUNE_GENES[..k], sp)
    {
      var gene := IMMUNE_GENES[k];
      assert IMMUNE_GENES[..k + 1][..k] == IMMUNE_GENES[..k];
      if gene !in df.cols {
        continue;
      }
      var subset := Pairs(df.cols[TGJS], df.cols[gene]);
      if |subset.0| < MIN_PAIRS {
        continue;
      }
      var c := sp(subset.0, subset.1);
      results := results + [ImmuneRow(gene, c.rho, c.p, |subset.0|, Below(c.p, IMMUNE_ALPHA))];
    }
    assert IMMUNE_GENES[..|IMMUNE_GENES|] == IMMUNE_GENES;
  }

  // ---------------------------------------------------------------- STING signatures

  /** A gene counts towards a signature when more than this many values are present. */
  const MIN_VALUES: nat := 100
  const MIN_GENES: nat := 2

  /** `[g for g in genes if g in df.columns and df[g].notna().sum() > 100]`. */
  function Available(genes: seq<string>, cols: map<string, Column>): (r: seq<string>)
    ensures |r| <= |genes|
    ensures forall g :: g in r <==> g in genes && g in cols && CountPresent(cols[g]) > MIN_VALUES
  {
    if |genes| == 0 then []
    else
      var n := |genes| - 1;
      var g := genes[n];
      Available(genes[..n], cols) + (if g in cols && CountPresent(cols[g]) > MIN_VALUES then [g] else [])
  }

  /** Too few usable genes on either side: nothing is computed. */
  predicate Gated(cols: map<string, Column>)
  {
    |Available(ACUTE_STING, cols)| < MIN_GENES || |Available(CHRONIC_STING, cols)| < MIN_GENES
  }

  function ZName(gene: string): string
  {
    gene + "_z"
  }

  /** The sample standard deviation (`Series.std`) needs a square root, which
      `real` does not have; it is a parameter, held to its definition by
      `SampleStd`. */
  type StdDev = seq<real> -> real

  /** The present values of `col`, each standardised with mean `m` and
      deviation `sd`; missing entries stay missing. */
  function ZEntries(col: Column, m: real, sd: real): Column
    requires sd != 0.0
  {
    seq(|col|, i requires 0 <= i < |col| =>
      match col[i]
      case None => None
      case Some(v) => Some(Standardize(v, m, sd)))
  }

  /** At least two values are present and they are not all equal. */
  predicate Varies(col: Column)
  {
    CountPresent(col) >= 2 && SampleVariance(Present(col)) != 0.0
  }

  /** `(df[gene] - vals.mean()) / vals.std()` over the present values `vals`.
      pandas' deviation of fewer than two values is NaN, and a zero deviation
      makes every present entry 0/0: either way the whole column is NaN. */
  function ZColumn(col: Column, std: StdDev): (r: Column)
    requires SampleStd(std)
    ensures |r| == |col|
    ensures forall i :: 0 <= i < |col| ==> (r[i].Some? <==> col[i].Some? && Varies(col))
  {
    var p := Present(col);
    if |p| < 2 then seq(|col|, i requires 0 <= i < |col| => None)
    else
      var sd := std(p);
      assert IsSampleSd(sd, p);
      if sd == 0.0 then seq(|col|, i requires 0 <= i < |col| => None)
      else ZEntries(col, Mean(p), sd)
  }

  /** The present standardised entries are the present values, standardised, in
      the same order. */
  lemma {:induction false} PresentZEntries(col: Column, m: real, sd: real)
    requires sd != 0.0
    ensures Present(ZEntries(col, m, sd)) == StandardizeAll(Present(col), m, sd)
  {
    if |col| > 0 {
      var n := |col| - 1;
      assert ZEntries(col, m, sd)[..n] == ZEntries(col[..n], m, sd);
      PresentZEntries(col[..n], m, sd);
    }
  }

  /** A z-scored column has mean zero over its present entries. */
  lemma ZColumnSumsToZero(col: Column, std: StdDev)
    requires SampleStd(std)
    ensures Sum(Present(ZColumn(col, std))) == 0.0
  {
    var p := Present(col);
    var r := ZColumn(col, std);
    if |p| < 2 || std(p) == 0.0 {
      PresentNone(r);
    } else {
      var sd := std(p);
      assert r == ZEntries(col, Mean(p), sd);
      PresentZEntries(col, Mean(p), sd);
      StandardizedSumsToZero(p, sd);
    }
  }

  /** A column that varies is z-scored to sample variance 1 over its present
      entries: `vals.std()` is the (n - 1) deviation. */
  lemma ZColumnUnitVariance(col: Column, std: StdDev)
    requires SampleStd(std) && Varies(col)
    ensures CountPresent(ZColumn(col, std)) >= 2
    ensures SampleVariance(Present(ZColumn(col, std))) == 1.0
  {
    var p := Present(col);
    var sd := std(p);
    assert IsSampleSd(sd, p);
    assert ZColumn(col, std) == ZEntries(col, Mean(p), sd);
    PresentZEntries(col, Mean(p), sd);
    StandardizedUnitVariance(p, sd);
  }

  /** z-scoring keeps the strict order of the values it standardises. */
  lemma ZColumnOrder(col: Column, std: StdDev, i: int, j: int)
    requires SampleStd(std)
    requires 0 <= i < |col| && 0 <= j < |col| && col[i].Some? && col[j].Some? && col[i].value < col[j].value
    requires ZColumn(col, std)[i].Some?
    ensures ZColumn(col, std)[j].Some? && ZColumn(col, std)[i].value < ZColumn(col, std)[j].value
  {
    var p := Present(col);
    assert IsSampleSd(std(p), p);
    StandardizeOrder(col[i].value, col[j].value, Mean(p), std(p));
  }

  /** The columns after the z-scoring loop over the first `k` of `genes`. */
  function ZScoredUpTo(cols: map<string, Column>, genes: seq<string>, k: nat, std: StdDev): map<string, Column>
    requires k <= |genes| && SampleStd(std)
    requires forall g :: g in genes ==> g in cols
  {
    if k == 0 then cols
    else ZScoredUpTo(cols, genes, k - 1, std)[ZName(genes[k - 1]) := ZColumn(cols[genes[k - 1]], std)]
  }

  /** The z-scoring loop writes only `_z` columns, so a column whose name has no
      underscore keeps its values. */
  lemma {:induction false} ZScoredKeeps(cols: map<string, Column>, genes: seq<string>, k: nat, std: StdDev, c: string)
    requires k <= |genes| && SampleStd(std)
    requires forall g :: g in genes ==> g in cols
    requires c in cols && '_' !in c
    ensures c in ZScoredUpTo(cols, genes, k, std) && ZScoredUpTo(cols, genes, k, std)[c] == cols[c]
  {
    if k > 0 {
      ZScoredKeeps(cols, genes, k - 1, std, c);
      assert ZName(genes[k - 1])[|genes[k - 1]|] == '_';
    }
  }

  /** The row-wise NaN-skipping mean of the named columns (`mean(axis=1)`). */
  function RowMean(cols: map<string, Column>, names: seq<string>, i: nat): Option<real>
    requires forall c :: c in names ==> c in cols && i < |cols[c]|
  {
    MeanPresent(RowValues(cols, names, i))
  }

  function ZNames(genes: seq<string>): (r: seq<string>)
    ensures |r| == |genes|
    ensures forall k :: 0 <= k < |genes| ==> r[k] == ZName(genes[k])
  {
    seq(|genes|, k requires 0 <= k < |genes| => ZName(genes[k]))
  }

  /** The named columns exist and have one entry per row. */
  predicate HasRows(cols: map<string, Column>, names: seq<string>, rows: nat)
  {
    forall c :: c in names ==> c in cols && |cols[c]| == rows
  }

  /** The entries of the named columns at row `i`. */
  function RowValues(cols: map<string, Column>, names: seq<string>, i: nat): Column
    requires forall c :: c in names ==> c in cols && i < |cols[c]|
  {
    seq(|names|, k requires 0 <= k < |names| => cols[names[k]][i])
  }

  /** The row mean is present exactly when one of the named columns is present in
      that row, and is then the mean of the present entries. */
  lemma RowMeanPresent(cols: map<string, Column>, names: seq<string>, i: nat)
    requires forall c :: c in names ==> c in cols && i < |cols[c]|
    ensures RowMean(cols, names, i).Some? <==> exists k :: 0 <= k < |names| && cols[names[k]][i].Some?
    ensures RowMean(cols, names, i).Some? ==>
      CountPresent(RowValues(cols, names, i)) > 0
      && RowMean(cols, names, i).value == Mean(Present(RowValues(cols, names, i)))
  {
    var vs := RowValues(cols, names, i);
    SomePresent(vs);
    if exists k :: 0 <= k < |names| && cols[names[k]][i].Some? {
      var k :| 0 <= k < |names| && cols[names[k]][i].Some?;
      assert vs[k].Some?;
    }
    if CountPresent(vs) > 0 {
      var k :| 0 <= k < |vs| && vs[k].Some?;
      assert cols[names[k]][i].Some?;
    }
  }

  /** A signature: the row-wise mean of its `_z` columns. */
  function SignatureColumn(z: map<string, Column>, names: seq<string>, rows: nat): (r: Column)
    requires HasRows(z, names, rows)
    ensures |r| == rows
  {
    seq(rows, i requires 0 <= i < rows => RowMean(z, names, i))
  }

  /** The z-scores of the given genes at row `i`. */
  function ZRow(cols: map<string, Column>, genes: seq<string>, std: StdDev, i: nat): Column
    requires SampleStd(std)
    requires forall g :: g in genes ==> g in cols && i < |cols[g]|
  {
    seq(|genes|, k requires 0 <= k < |genes| => ZColumn(cols[genes[k]], std)[i])
  }

  /** The mean of a row of z-scores is present exactly when one of the genes has
      a value in that row and varies across the samples. */
  lemma ZRowPresence(cols: map<string, Column>, genes: seq<string>, std: StdDev, i: nat)
    requires SampleStd(std)
    requires forall g :: g in genes ==> g in cols && i < |cols[g]|
    ensures MeanPresent(ZRow(cols, genes, std, i)).Some?
      <==> exists g :: g in genes && cols[g][i].Some? && Varies(cols[g])
  {
    var zs := ZRow(cols, genes, std, i);
    SomePresent(zs);
    if exists g :: g in genes && cols[g][i].Some? && Varies(cols[g]) {
      var g :| g in genes && cols[g][i].Some? && Varies(cols[g]);
      var k :| 0 <= k < |genes| && genes[k] == g;
      assert zs[k].Some?;
    }
    if CountPresent(zs) > 0 {
      var k :| 0 <= k < |zs| && zs[k].Some?;
      assert genes[k] in genes && cols[genes[k]][i].Some?;
    }
  }

  /** Read through the `_z` names, the row of a signature's columns after the loop
      is the row of its genes' z-scores. */
  lemma ZScoredRowValues(df: Frame, genes: seq<string>, sub: seq<string>, std: StdDev, i: nat)
    requires df.WellFormed() && SampleStd(std) && i < df.rows
    requires forall g :: g in genes ==> g in df.cols
    requires forall g :: g in sub ==> g in genes
    ensures HasRows(ZScoredUpTo(df.cols, genes, |genes|, std), ZNames(sub), df.rows)
    ensures RowValues(ZScoredUpTo(df.cols, genes, |genes|, std), ZNames(sub), i) == ZRow(df.cols, sub, std, i)
  {
    var z := ZScoredUpTo(df.cols, genes, |genes|, std);
    ZScoredRows(df, genes, std);
    ZNamesHaveRows(z, sub, df.rows);
    forall k | 0 <= k < |sub|
      ensures z[ZName(sub[k])] == ZColumn(df.cols[sub[k]], std)
    {
      assert sub[k] in genes;
      var j :| 0 <= j < |genes| && genes[j] == sub[k];
      ZScoredHasUpTo(df.cols, genes, |genes|, std, j);
    }
  }

  /** `df["acute_sting"] - df["chronic_sting"]`. */
  function RatioColumn(a: Column, c: Column): (r: Column)
    requires |a| == |c|
    ensures |r| == |a|
  {
    seq(|a|, i requires 0 <= i < |a| => Minus(a[i], c[i]))
  }

  /** The columns after z-scoring the `acute` and `chronic` genes and adding the
      two signatures and their difference. */
  function SignatureFrame(df: Frame, acute: seq<string>, chronic: seq<string>, std: StdDev): (cols: map<string, Column>)
    requires df.WellFormed() && SampleStd(std)
    requires forall g :: g in acute + chronic ==> g in df.cols
    ensures ACUTE_SIGNATURE in cols && CHRONIC_SIGNATURE in cols && RATIO in cols
    ensures |cols[ACUTE_SIGNATURE]| == |cols[CHRONIC_SIGNATURE]| == df.rows
    ensures cols[RATIO] == RatioColumn(cols[ACUTE_SIGNATURE], cols[CHRONIC_SIGNATURE])
    ensures Frame(df.rows, cols).WellFormed()
  {
    var z := ZScoredUpTo(df.cols, acute + chronic, |acute + chronic|, std);
    ZScoredRows(df, acute + chronic, std);
    ZScoredWellFormed(df, acute + chronic, |acute + chronic|, std);
    ZNamesHaveRows(z, acute, df.rows);
    ZNamesHaveRows(z, chronic, df.rows);
    var a := SignatureColumn(z, ZNames(acute), df.rows);
    var c := SignatureColumn(z, ZNames(chronic), df.rows);
    z[ACUTE_SIGNATURE := a][CHRONIC_SIGNATURE := c][RATIO := RatioColumn(a, c)]
  }

  /** The signature columns of `compute_sting_ratio` once the gate is passed. */
  function StingColumns(df: Frame, std: StdDev): (cols: map<string, Column>)
    requires df.WellFormed() && !Gated(df.cols) && SampleStd(std)
    ensures ACUTE_SIGNATURE in cols && CHRONIC_SIGNATURE in cols && RATIO in cols
    ensures |cols[ACUTE_SIGNATURE]| == |cols[CHRONIC_SIGNATURE]| == df.rows
    ensures cols[RATIO] == RatioColumn(cols[ACUTE_SIGNATURE], cols[CHRONIC_SIGNATURE])
    ensures Frame(df.rows, cols).WellFormed()
  {
    SignatureFrame(df, Available(ACUTE_STING, df.cols), Available(CHRONIC_STING, df.cols), std)
  }

  lemma ZNameInjective(g: string, h: string)
    requires ZName(g) == ZName(h)
    ensures g == h
  {
    assert |g| == |h|;
    assert g == ZName(g)[..|g|];
    assert h == ZName(h)[..|h|];
  }

  /** After the loop the `_z` column of every gene exists with one entry per row. */
  lemma ZScoredRows(df: Frame, genes: seq<string>, std: StdDev)
    requires df.WellFormed() && SampleStd(std)
    requires forall g :: g in genes ==> g in df.cols
    ensures forall g :: g in genes ==>
      ZName(g) in ZScoredUpTo(df.cols, genes, |genes|, std)
      && |ZScoredUpTo(df.cols, genes, |genes|, std)[ZName(g)]| == df.rows
  {
    forall g | g in genes
      ensures ZName(g) in ZScoredUpTo(df.cols, genes, |genes|, std)
      ensures |ZScoredUpTo(df.cols, genes, |genes|, std)[ZName(g)]| == df.rows
    {
      var k :| 0 <= k < |genes| && genes[k] == g;
      ZScoredHasUpTo(df.cols, genes, |genes|, std, k);
    }
  }

  /** The z-scored columns have one entry per row, like the rest of the frame. */
  lemma {:induction false} ZScoredWellFormed(df: Frame, genes: seq<string>, k: nat, std: StdDev)
    requires df.WellFormed() && k <= |genes| && SampleStd(std)
    requires forall g :: g in genes ==> g in df.cols
    ensures Frame(df.rows, ZScoredUpTo(df.cols, genes, k, std)).WellFormed()
  {
    if k > 0 {
      ZScoredWellFormed(df, genes, k - 1, std);
    }
  }

  lemma ZNamesHaveRows(z: map<string, Column>, sub: seq<string>, rows: nat)
    requires forall g :: g in sub ==> ZName(g) in z && |z[ZName(g)]| == rows
    ensures HasRows(z, ZNames(sub), rows)
  {
    forall c | c in ZNames(sub)
      ensures c in z && |z[c]| == rows
    {
      var k :| 0 <= k < |sub| && ZNames(sub)[k] == c;
      assert sub[k] in sub;
    }
  }

  /** After the loop, the `_z` column of each gene is that gene's z-scored column. */
  lemma {:induction false} ZScoredHasUpTo(cols: map<string, Column>, genes: seq<string>, n: nat, std: StdDev, k: nat)
    requires n <= |genes| && k < n && SampleStd(std)
    requires forall g :: g in genes ==> g in cols
    ensures ZName(genes[k]) in ZScoredUpTo(cols, genes, n, std)
    ensures ZScoredUpTo(cols, genes, n, std)[ZName(genes[k])] == ZColumn(cols[genes[k]], std)
  {
    var last := genes[n - 1];
    var prev := ZScoredUpTo(cols, genes, n - 1, std);
    assert ZScoredUpTo(cols, genes, n, std) == prev[ZName(last) := ZColumn(cols[last], std)];
    if k < n - 1 {
      if ZName(last) == ZName(genes[k]) {
        ZNameInjective(last, genes[k]);
      } else {
        ZScoredHasUpTo(cols, genes, n - 1, std, k);
      }
    }
  }

  const ACUTE_SIGNATURE := "acute_sting"
  const CHRONIC_SIGNATURE := "chronic_sting"
  const RATIO := "sting_ratio"

  /** The result of one signature or gene test. */
  datatype StingCorr = StingCorr(rho: Option<real>, p: Option<real>, n: nat)

  /** The tests of `compute_sting_ratio`, each a column and the label it is stored
      under: the three signatures, then the STING pathway genes. */
  const STING_TESTS: seq<(string, string)> := [
    (ACUTE_SIGNATURE, "Acute STING"),
    (CHRONIC_SIGNATURE, "Chronic STING"),
    (RATIO, "STING Ratio (acute-chronic)"),
    ("ENPP1", "ENPP1 (cGAMP eraser)"),
    ("TREX1", "TREX1 (DNA eraser)"),
    ("CD274", "CD274/PD-L1"),
    ("CGAS", "cGAS"),
    ("STING1", "STING1")]

  /** Unlike the immune table, a test here needs strictly more than ten pairs. */
  predicate StingTested(df: Frame, col: string)
    requires Scored(df)
  {
    col in df.cols && |PairsWith(df, col).0| > MIN_PAIRS
  }

  /** The results after the first `k` tests. */
  function StingResults(df: Frame, k: nat, sp: Spearman): (r: map<string, StingCorr>)
    requires Scored(df) && k <= |STING_TESTS|
    ensures forall name :: name in r ==> exists j :: 0 <= j < k && STING_TESTS[j].1 == name
  {
    if k == 0 then map[]
    else
      var (col, name) := STING_TESTS[k - 1];
      var prev := StingResults(df, k - 1, sp);
      if StingTested(df, col) then
        var xy := PairsWith(df, col);
        var c := sp(xy.0, xy.1);
        prev[name := StingCorr(c.rho, c.p, |xy.0|)]
      else prev
  }

  /** Every stored result comes from its own column with more than ten pairs. */
  lemma {:induction false} StingResultsTested(df: Frame, k: nat, sp: Spearman, j: nat)
    requires Scored(df) && j < k <= |STING_TESTS|
    ensures var (col, name) := STING_TESTS[j];
      name in StingResults(df, k, sp) <==> StingTested(df, col)
    ensures var (col, name) := STING_TESTS[j];
      name in StingResults(df, k, sp) ==> StingResults(df, k, sp)[name].n == |PairsWith(df, col).0| > MIN_PAIRS
    ensures var (col, name) := STING_TESTS[j];
      name in StingResults(df, k, sp) ==>
        StingResults(df, k, sp)[name].rho == sp(PairsWith(df, col).0, PairsWith(df, col).1).rho
        && StingResults(df, k, sp)[name].p == sp(PairsWith(df, col).0, PairsWith(df, col).1).p
  {
    if j < k - 1 {
      StingResultsTested(df, k - 1, sp, j);
      assert STING_TESTS[k - 1].1 != STING_TESTS[j].1;
    }
  }

  /** The z-scoring loop of `compute_sting_ratio` over the usable genes. */
  method ZScoreGenes(df: Frame, genes: seq<string>, std: StdDev) returns (cols: map<string, Column>)
    requires SampleStd(std)
    requires forall g :: g in genes ==> g in df.cols && '_' !in g
    ensures cols == ZScoredUpTo(df.cols, genes, |genes|, std)
  {
    cols := df.cols;
    for k := 0 to |genes|
      invariant cols == ZScoredUpTo(df.cols, genes, k, std)
    {
      var gene := genes[k];
      ZScoredKeeps(df.cols, genes, k, std, gene);
      var vals := Present(cols[gene]);
      var z: Column := seq(|cols[gene]|, i requires 0 <= i < |cols[gene]| => None);
      if |vals| >= 2 {
        var sd := std(vals);
        if sd != 0.0 {
          var m := Mean(vals);
          z := seq(|cols[gene]|, i requires 0 <= i < |cols[gene]| =>
            match cols[gene][i]
            case None => None
            case Some(v) => Some((v - m) / sd));
        }
      }
      assert z == ZColumn(df.cols[gene], std);
      cols := cols[ZName(gene) := z];
    }
  }

  /** `compute_sting_ratio`: with too few usable genes the frame comes back as it
      was and there are no results; otherwise the z-scores, the two signatures,
      their difference and the correlations. */
  method ComputeStingRatio(df: Frame, sp: Spearman, std: StdDev) returns (out: Frame, results: map<string, StingCorr>)
    requires Scored(df) && SampleStd(std)
    ensures Gated(df.cols) ==> out == df && results == map[]
    ensures !Gated(df.cols) ==> out == Frame(df.rows, StingColumns(df, std))
    ensures Scored(out) && results == (if Gated(df.cols) then map[] else StingResults(out, |STING_TESTS|, sp))
  {
    var acute := Available(ACUTE_STING, df.cols);
    var chronic := Available(CHRONIC_STING, df.cols);
    if |acute| < MIN_GENES || |chronic| < MIN_GENES {
      return df, map[];
    }
    out := AddSignatures(df, std);
    StingColumnsKeepScore(df, std);
    results := StingTests(out, sp);
  }

  /** The signature columns leave the score column as it was. */
  lemma StingColumnsKeepScore(df: Frame, std: StdDev)
    requires Scored(df) && !Gated(df.cols) && SampleStd(std)
    ensures TGJS in StingColumns(df, std) && StingColumns(df, std)[TGJS] == df.cols[TGJS]
  {
    var acute := Available(ACUTE_STING, df.cols);
    var chronic := Available(CHRONIC_STING, df.cols);
    NoUnderscore(acute + chronic);
    SignatureFrameKeeps(df, acute, chronic, std, TGJS);
  }

  /** A column whose name has no underscore is neither a `_z` column nor one of
      the three signature columns, so it keeps its values. */
  lemma SignatureFrameKeeps(df: Frame, acute: seq<string>, chronic: seq<string>, std: StdDev, c: string)
    requires df.WellFormed() && SampleStd(std)
    requires forall g :: g in acute + chronic ==> g in df.cols && '_' !in g
    requires c in df.cols && '_' !in c
    ensures c in SignatureFrame(df, acute, chronic, std) && SignatureFrame(df, acute, chronic, std)[c] == df.cols[c]
  {
    ZScoredKeeps(df.cols, acute + chronic, |acute + chronic|, std, c);
    SignatureNamesHaveUnderscore();
  }

  lemma SignatureNamesHaveUnderscore()
    ensures '_' in ACUTE_SIGNATURE && '_' in CHRONIC_SIGNATURE && '_' in RATIO
  {
    assert ACUTE_SIGNATURE[5] == '_';
    assert CHRONIC_SIGNATURE[7] == '_';
    assert RATIO[5] == '_';
  }

  /** The column assignments of `compute_sting_ratio` past the gate: the `_z`
      columns, the two signatures and their difference. */
  method AddSignatures(df: Frame, std: StdDev) returns (out: Frame)
    requires df.WellFormed() && !Gated(df.cols) && SampleStd(std)
    ensures out == Frame(df.rows, StingColumns(df, std))
  {
    var acute := Available(ACUTE_STING, df.cols);
    var chronic := Available(CHRONIC_STING, df.cols);
    NoUnderscore(acute + chronic);
    var cols := ZScoreGenes(df, acute + chronic, std);
    ZScoredRows(df, acute + chronic, std);
    ZNamesHaveRows(cols, acute, df.rows);
    ZNamesHaveRows(cols, chronic, df.rows);
    var acuteSting := SignatureColumn(cols, ZNames(acute), df.rows);
    var chronicSting := SignatureColumn(cols, ZNames(chronic), df.rows);
    cols := cols[ACUTE_SIGNATURE := acuteSting][CHRONIC_SIGNATURE := chronicSting];
    cols := cols[RATIO := RatioColumn(acuteSting, chronicSting)];
    out := Frame(df.rows, cols);
  }

  /** No signature gene has an underscore in its name, so no `_z` column can
      overwrite one. */
  lemma NoUnderscore(genes: seq<string>)
    requires forall g :: g in genes ==> g in ACUTE_STING || g in CHRONIC_STING
    ensures forall g :: g in genes ==> '_' !in g
  {
    assert forall g :: g in ACUTE_STING ==> '_' !in g;
    assert forall g :: g in CHRONIC_STING ==> '_' !in g;
  }

  /** The correlation loops of `compute_sting_ratio`. */
  method StingTests(out: Frame, sp: Spearman) returns (results: map<string, StingCorr>)
    requires Scored(out)
    ensures results == StingResults(out, |STING_TESTS|, sp)
  {
    results := map[];
    for k := 0 to |STING_TESTS|
      invariant results == StingResults(out, k, sp)
    {
      var (col, name) := STING_TESTS[k];
      if col in out.cols {
        var subset := Pairs(out.cols[TGJS], out.cols[col]);
        if |subset.0| > MIN_PAIRS {
          var corr := sp(subset.0, subset.1);
          results := results[name := StingCorr(corr.rho, corr.p, |subset.0|)];
        }
      }
    }
  }

  /** Each signature is the NaN-skipping mean of its usable genes' z-scores in that
      row: present exactly when one of those genes has a value there and varies
      across the samples. */
  lemma StingSignatureRows(df: Frame, std: StdDev, i: int)
    requires df.WellFormed() && !Gated(df.cols) && SampleStd(std) && 0 <= i < df.rows
    ensures var cols := StingColumns(df, std);
      var acute := Available(ACUTE_STING, df.cols);
      cols[ACUTE_SIGNATURE][i] == MeanPresent(ZRow(df.cols, acute, std, i))
      && (cols[ACUTE_SIGNATURE][i].Some? <==> exists g :: g in acute && df.cols[g][i].Some? && Varies(df.cols[g]))
    ensures var cols := StingColumns(df, std);
      var chronic := Available(CHRONIC_STING, df.cols);
      cols[CHRONIC_SIGNATURE][i] == MeanPresent(ZRow(df.cols, chronic, std, i))
      && (cols[CHRONIC_SIGNATURE][i].Some? <==> exists g :: g in chronic && df.cols[g][i].Some? && Varies(df.cols[g]))
  {
    var acute := Available(ACUTE_STING, df.cols);
    var chronic := Available(CHRONIC_STING, df.cols);
    SignatureFrameRows(df, acute, chronic, std, i);
  }

  /** Row `i` of both signatures, for any two gene lists. */
  lemma SignatureFrameRows(df: Frame, acute: seq<string>, chronic: seq<string>, std: StdDev, i: nat)
    requires df.WellFormed() && SampleStd(std) && i < df.rows
    requires forall g :: g in acute + chronic ==> g in df.cols
    ensures var cols := SignatureFrame(df, acute, chronic, std);
      cols[ACUTE_SIGNATURE][i] == MeanPresent(ZRow(df.cols, acute, std, i))
      && (cols[ACUTE_SIGNATURE][i].Some? <==> exists g :: g in acute && df.cols[g][i].Some? && Varies(df.cols[g]))
    ensures var cols := SignatureFrame(df, acute, chronic, std);
      cols[CHRONIC_SIGNATURE][i] == MeanPresent(ZRow(df.cols, chronic, std, i))
      && (cols[CHRONIC_SIGNATURE][i].Some? <==> exists g :: g in chronic && df.cols[g][i].Some? && Varies(df.cols[g]))
  {
    SignatureOfGenes(df, acute + chronic, acute, std, i);
    SignatureOfGenes(df, acute + chronic, chronic, std, i);
    ZRowPresence(df.cols, acute, std, i);
    ZRowPresence(df.cols, chronic, std, i);
  }

  /** One signature column after the loop, at row `i`. */
  lemma SignatureOfGenes(df: Frame, genes: seq<string>, sub: seq<string>, std: StdDev, i: nat)
    requires df.WellFormed() && SampleStd(std) && i < df.rows
    requires forall g :: g in genes ==> g in df.cols
    requires forall g :: g in sub ==> g in genes
    ensures HasRows(ZScoredUpTo(df.cols, genes, |genes|, std), ZNames(sub), df.rows)
    ensures SignatureColumn(ZScoredUpTo(df.cols, genes, |genes|, std), ZNames(sub), df.rows)[i]
      == MeanPresent(ZRow(df.cols, sub, std, i))
  {
    ZScoredRowValues(df, genes, sub, std, i);
  }

  /** The ratio is the acute signature minus the chronic one: present exactly when
      both are, and adding the chronic value back gives the acute value. */
  lemma StingRatioDifference(df: Frame, std: StdDev, i: int)
    requires df.WellFormed() && !Gated(df.cols) && SampleStd(std) && 0 <= i < df.rows
    ensures var cols := StingColumns(df, std);
      (cols[RATIO][i].Some? <==> cols[ACUTE_SIGNATURE][i].Some? && cols[CHRONIC_SIGNATURE][i].Some?)
      && (cols[RATIO][i].Some? ==> cols[RATIO][i].value + cols[CHRONIC_SIGNATURE][i].value == cols[ACUTE_SIGNATURE][i].value)
  {
  }

  // ---------------------------------------------------------------- response-rate verdict

  const MIN_CANCER_TYPES: nat := 5
  const RHO_THRESHOLD: real := -0.3
  const ICI_ALPHA: real := 0.05

  /** The `prediction` field of the summary. */
  function IciPrediction(rho: Option<real>, p: Option<real>): (r: string)
    ensures r == "CONFIRMED" <==> Below(rho, RHO_THRESHOLD) && Below(p, ICI_ALPHA)
    ensures r == "CONFIRMED" || r == "NOT CONFIRMED"
  {
    if Below(rho, RHO_THRESHOLD) && Below(p, ICI_ALPHA) then "CONFIRMED" else "NOT CONFIRMED"
  }

  /** The three-way message printed by the main routine. */
  datatype IciMessage = Confirmed | Trend | NotConfirmed

  function IciMessageOf(rho: Option<real>, p: Option<real>): (r: IciMessage)
    ensures r == Confirmed <==> IciPrediction(rho, p) == "CONFIRMED"
    ensures r == Trend <==> IciPrediction(rho, p) != "CONFIRMED" && Below(rho, 0.0)
    ensures r == NotConfirmed <==> !Below(rho, 0.0)
  {
    if Below(rho, RHO_THRESHOLD) && Below(p, ICI_ALPHA) then Confirmed
    else if Below(rho, 0.0) then Trend
    else NotConfirmed
  }

  datatype IciSummary = IciSummary(rho: Option<real>, p: Option<real>, nCancerTypes: nat, prediction: string)

  /** The cancer types with a known response rate: their mean scores and rates.
      A mean score is NaN for a cancer type none of whose samples has a score; the
      drop looks only at the rate, so such a mean is kept. */
  function WithRate(meanTgjs: Column, rates: Column): (r: (Column, seq<real>))
    requires |meanTgjs| == |rates|
    ensures |r.0| == |r.1| == CountPresent(rates)
    ensures r.1 == Present(rates)
  {
    if |rates| == 0 then ([], [])
    else
      var n := |rates| - 1;
      var prev := WithRate(meanTgjs[..n], rates[..n]);
      assert CountPresent(rates) == |Present(rates)|;
      PresentSnoc(rates);
      if rates[n].Some? then (prev.0 + [meanTgjs[n]], prev.1 + [rates[n].value]) else prev
  }

  /** The mean scores kept are those of the cancer types with a rate, in order. */
  lemma {:induction false} WithRateRows(meanTgjs: Column, rates: Column)
    requires |meanTgjs| == |rates|
    ensures var r := WithRate(meanTgjs, rates);
      |r.0| == |Where(Somes(rates))|
      && forall k :: 0 <= k < |r.0| ==> r.0[k] == meanTgjs[Where(Somes(rates))[k]]
  {
    PresentRows(rates);
    if |rates| > 0 {
      var n := |rates| - 1;
      WithRateRows(meanTgjs[..n], rates[..n]);
      PresentRows(rates[..n]);
      assert Somes(rates)[..n] == Somes(rates[..n]);
    }
  }

  lemma PresentSnoc(col: Column)
    requires |col| > 0
    ensures |Present(col)| == |Present(col[..|col| - 1])| + (if col[|col| - 1].Some? then 1 else 0)
  {
  }

  /** The correlation with the response rates, present only when at least five
      cancer types have a rate. A NaN mean among the kept cancer types makes both
      the coefficient and the p-value NaN, as the Spearman test propagates NaN. */
  function IciCorrelation(meanTgjs: Column, rates: Column, sp: Spearman): (r: Option<IciSummary>)
    requires |meanTgjs| == |rates|
    ensures r.Some? <==> CountPresent(rates) >= MIN_CANCER_TYPES
    ensures r.Some? ==> r.value.nCancerTypes == CountPresent(rates)
    ensures r.Some? && CountPresent(WithRate(meanTgjs, rates).0) == CountPresent(rates) ==>
      r.value.rho == sp(Present(WithRate(meanTgjs, rates).0), WithRate(meanTgjs, rates).1).rho
      && r.value.p == sp(Present(WithRate(meanTgjs, rates).0), WithRate(meanTgjs, rates).1).p
    ensures r.Some? && CountPresent(WithRate(meanTgjs, rates).0) < CountPresent(rates) ==>
      r.value.rho.None? && r.value.p.None?
    ensures r.Some? ==> (r.value.prediction == "CONFIRMED" <==> Below(r.value.rho, RHO_THRESHOLD) && Below(r.value.p, ICI_ALPHA))
  {
    var xy := WithRate(meanTgjs, rates);
    if |xy.0| < MIN_CANCER_TYPES then None
    else
      var c := if CountPresent(xy.0) == |xy.0| then sp(Present(xy.0), xy.1) else Corr(None, None);
      Some(IciSummary(c.rho, c.p, |xy.0|, IciPrediction(c.rho, c.p)))
  }

  /** A cancer type with a response rate but no scored sample leaves the ICI
      correlation NaN, and its prediction is then "NOT CONFIRMED". */
  lemma IciNoScoreNoCorrelation(meanTgjs: Column, rates: Column, sp: Spearman, i: nat)
    requires |meanTgjs| == |rates| && CountPresent(rates) >= MIN_CANCER_TYPES
    requires i < |rates| && rates[i].Some? && meanTgjs[i].None?
    ensures IciCorrelation(meanTgjs, rates, sp).Some?
    ensures IciCorrelation(meanTgjs, rates, sp).value.rho.None?
    ensures IciCorrelation(meanTgjs, rates, sp).value.prediction == "NOT CONFIRMED"
  {
    var xy := WithRate(meanTgjs, rates);
    WithRateRows(meanTgjs, rates);
    assert Somes(rates)[i];
    var k :| 0 <= k < |Where(Somes(rates))| && Where(Somes(rates))[k] == i;
    assert xy.0[k].None?;
    CountPresentBelow(xy.0, k);
  }
}
