/** The MSI x TP53 strata of the colorectal analysis: the decision table that
    places a sample, the left merge that brings clinical calls to the expression
    samples, and the per-stratum summary. */
module CoadreadStrata {
  import opened Wrappers
  import opened Stats
  import opened Seqs
  import opened CoadreadClinical

  datatype Stratum = MssTp53Wt | MssTp53Mut | MsihTp53Wt | MsihTp53Mut | UnknownStratum
  {
    /** The value stored in the `stratum` column. */
    function Key(): string
    {
      match this
      case MssTp53Wt => "MSS_TP53wt"
      case MssTp53Mut => "MSS_TP53mut"
      case MsihTp53Wt => "MSIH_TP53wt"
      case MsihTp53Mut => "MSIH_TP53mut"
      case UnknownStratum => "UNKNOWN"
    }

    /** The human-readable label of a tested stratum. */
    function Label(): string
      requires this != UnknownStratum
    {
      match this
      case MssTp53Wt => "MSS/MSI-L + TP53-wt"
      case MssTp53Mut => "MSS/MSI-L + TP53-mut"
      case MsihTp53Wt => "MSI-H + TP53-wt"
      case MsihTp53Mut => "MSI-H + TP53-mut"
    }

    predicate IsMsiHigh()
    {
      this == MsihTp53Wt || this == MsihTp53Mut
    }

    predicate IsMutant()
    {
      this == MssTp53Mut || this == MsihTp53Mut
    }
  }

  /** The tested strata in their fixed order; UNKNOWN is not among them. */
  const STRATA: seq<Stratum> := [MssTp53Wt, MssTp53Mut, MsihTp53Wt, MsihTp53Mut]

  /** `get_stratum`: a missing value (a sample without a clinical row) is neither
      "UNKNOWN", nor "MSI-H", nor "mutant". */
  function GetStratum(msi: Option<string>, tp53: Option<string>): (r: Stratum)
    ensures r == UnknownStratum <==> msi == Some("UNKNOWN")
    ensures r != UnknownStratum ==> r in STRATA
    ensures r != UnknownStratum ==> (r.IsMsiHigh() <==> msi == Some("MSI-H"))
    ensures r != UnknownStratum ==> (r.IsMutant() <==> tp53 == Some("mutant"))
  {
    if msi == Some("UNKNOWN") then UnknownStratum
    else
      var isMsiHigh := msi == Some("MSI-H");
      var isMutant := tp53 == Some("mutant");
      if !isMsiHigh && !isMutant then MssTp53Wt
      else if !isMsiHigh && isMutant then MssTp53Mut
      else if isMsiHigh && !isMutant then MsihTp53Wt
      else MsihTp53Mut
  }

  /** The stratum of an expression sample after the left merge on `sample_id`. */
  function StratumOf(sid: string, clinical: map<string, ClinicalRow>): (r: Stratum)
    ensures sid !in clinical ==> r == MssTp53Wt
    ensures r == UnknownStratum <==> sid in clinical && clinical[sid].msiStatus == "UNKNOWN"
    ensures sid in clinical ==> r == GetStratum(Some(clinical[sid].msiStatus), Some(clinical[sid].tp53Status))
  {
    if sid in clinical then GetStratum(Some(clinical[sid].msiStatus), Some(clinical[sid].tp53Status))
    else GetStratum(None, None)
  }

  function SampleIds(rows: seq<ClinicalRow>): seq<string>
  {
    seq(|rows|, i requires 0 <= i < |rows| => rows[i].sampleId)
  }

  /** The clinical table keyed by `sample_id`, as the left merge reads it. The
      merge repeats an expression row for every clinical row with its id; the
      model keeps the last one, which is the same thing when the ids are
      distinct. */
  function ClinicalIndex(rows: seq<ClinicalRow>): (r: map<string, ClinicalRow>)
    ensures forall sid :: sid in r <==> sid in SampleIds(rows)
  {
    if |rows| == 0 then map[]
    else
      var n := |rows| - 1;
      assert SampleIds(rows) == SampleIds(rows[..n]) + [rows[n].sampleId];
      ClinicalIndex(rows[..n])[rows[n].sampleId := rows[n]]
  }

  /** With distinct sample ids, the merge finds each sample's own clinical row. */
  lemma {:induction false} ClinicalIndexOf(rows: seq<ClinicalRow>, i: nat)
    requires Distinct(SampleIds(rows)) && i < |rows|
    ensures rows[i].sampleId in ClinicalIndex(rows) && ClinicalIndex(rows)[rows[i].sampleId] == rows[i]
  {
    var n := |rows| - 1;
    if i < n {
      assert SampleIds(rows[..n]) == SampleIds(rows)[..n];
      assert SampleIds(rows)[i] != SampleIds(rows)[n];
      ClinicalIndexOf(rows[..n], i);
    }
  }

  /** A clinical row built by the classifier lands in the stratum its two calls name. */
  lemma ClinicalRowStratum(rawId: string, recs: MsiRecords, mutants: set<string>, parse: Parser)
    ensures var row := ClinicalRowOf(rawId, recs, mutants, parse);
      var s := GetStratum(Some(row.msiStatus), Some(row.tp53Status));
      (s == UnknownStratum <==> row.msiStatus == "UNKNOWN")
      && (s != UnknownStratum ==>
            (s.IsMsiHigh() <==> row.msiStatus == "MSI-H") && (s.IsMutant() <==> SampleKey(rawId) in mutants))
  {
  }

  /** `assign_strata`: one stratum per expression sample, in order. */
  function AssignStrata(sampleIds: seq<string>, clinical: map<string, ClinicalRow>): (r: seq<Stratum>)
    ensures |r| == |sampleIds|
    ensures forall i :: 0 <= i < |r| ==> r[i] == StratumOf(sampleIds[i], clinical)
  {
    seq(|sampleIds|, i requires 0 <= i < |sampleIds| => StratumOf(sampleIds[i], clinical))
  }

  /** Through the merge, a sample whose id has a clinical row gets the stratum of
      that row's two calls. */
  lemma StrataFromClinical(sampleIds: seq<string>, rows: seq<ClinicalRow>, j: nat, i: nat)
    requires Distinct(SampleIds(rows)) && j < |sampleIds| && i < |rows| && sampleIds[j] == rows[i].sampleId
    ensures AssignStrata(sampleIds, ClinicalIndex(rows))[j]
      == GetStratum(Some(rows[i].msiStatus), Some(rows[i].tp53Status))
  {
    ClinicalIndexOf(rows, i);
  }

  // ---------------------------------------------------------------- summary

  /** The entries of `col` on the rows of stratum `s`, in order. */
  function Select(col: Column, strata: seq<Stratum>, s: Stratum): (r: Column)
    requires |col| == |strata|
    ensures |r| == Count(strata, s)
  {
    if |col| == 0 then []
    else
      var n := |col| - 1;
      Select(col[..n], strata[..n], s) + (if strata[n] == s then [col[n]] else [])
  }

  /** The mask `strata == s`. */
  function InStratum(strata: seq<Stratum>, s: Stratum): seq<bool>
  {
    seq(|strata|, i requires 0 <= i < |strata| => strata[i] == s)
  }

  /** `col[strata == s]` holds the entries of the rows of stratum `s`, in row order. */
  lemma {:induction false} SelectRows(col: Column, strata: seq<Stratum>, s: Stratum)
    requires |col| == |strata|
    ensures |Select(col, strata, s)| == |Where(InStratum(strata, s))|
    ensures forall k :: 0 <= k < |Select(col, strata, s)| ==>
      Select(col, strata, s)[k] == col[Where(InStratum(strata, s))[k]]
  {
    if |col| > 0 {
      var n := |col| - 1;
      SelectRows(col[..n], strata[..n], s);
      assert InStratum(strata, s)[..n] == InStratum(strata[..n], s);
    }
  }

  datatype StratumSummary = StratumSummary(stratumLabel: string, n: nat, meanTgjs: Option<real>)

  /** The summary entry of one tested stratum. The standard deviation is not
      modelled. */
  function SummaryOf(s: Stratum, strata: seq<Stratum>, tgjs: Column): StratumSummary
    requires s != UnknownStratum && |tgjs| == |strata|
  {
    var n := Count(strata, s);
    StratumSummary(s.Label(), n, if n > 0 then MeanPresent(Select(tgjs, strata, s)) else None)
  }

  /** The strata summary of `save_results`, stratum by stratum. */
  method SummarizeStrata(strata: seq<Stratum>, tgjs: Column) returns (summary: map<Stratum, StratumSummary>)
    requires |tgjs| == |strata|
    ensures summary.Keys == set s | s in STRATA
    ensures forall s :: s in summary ==> summary[s] == SummaryOf(s, strata, tgjs)
  {
    summary := map[];
    for k := 0 to |STRATA|
      invariant summary.Keys == set s | s in STRATA[..k]
      invariant forall s :: s in summary ==> s != UnknownStratum && summary[s] == SummaryOf(s, strata, tgjs)
    {
      var s := STRATA[k];
      summary := summary[s := SummaryOf(s, strata, tgjs)];
    }
    assert STRATA[..|STRATA|] == STRATA;
  }

  /** Every row is in exactly one stratum: the four tested counts and the UNKNOWN
      count add up to the number of rows. */
  lemma {:induction false} StrataPartition(strata: seq<Stratum>)
    ensures Count(strata, MssTp53Wt) + Count(strata, MssTp53Mut) + Count(strata, MsihTp53Wt)
      + Count(strata, MsihTp53Mut) + Count(strata, UnknownStratum) == |strata|
  {
    if |strata| > 0 {
      var n := |strata| - 1;
      StrataPartition(strata[..n]);
      forall s: Stratum
        ensures Count(strata, s) == Count(strata[..n], s) + (if strata[n] == s then 1 else 0)
      {
      }
    }
  }

  /** A summary mean is the mean of the present composites of that stratum, so a
      stratum of fully scored rows has a mean whenever it is non-empty. */
  lemma SummaryMeanDefined(s: Stratum, strata: seq<Stratum>, tgjs: Column)
    requires s != UnknownStratum && |tgjs| == |strata|
    requires forall i :: 0 <= i < |tgjs| ==> tgjs[i].Some?
    ensures SummaryOf(s, strata, tgjs).meanTgjs.Some? <==> Count(strata, s) > 0
  {
    SelectPresent(tgjs, strata, s);
  }

  lemma {:induction false} SelectPresent(col: Column, strata: seq<Stratum>, s: Stratum)
    requires |col| == |strata|
    requires forall i :: 0 <= i < |col| ==> col[i].Some?
    ensures CountPresent(Select(col, strata, s)) == Count(strata, s)
  {
    if |col| > 0 {
      var n := |col| - 1;
      SelectPresent(col[..n], strata[..n], s);
      PresentAppend(Select(col[..n], strata[..n], s), if strata[n] == s then [col[n]] else []);
    }
  }

  lemma {:induction false} PresentAppend(a: Column, b: Column)
    ensures Present(a + b) == Present(a) + Present(b)
    decreases |b|
  {
    if |b| > 0 {
      var n := |b| - 1;
      assert (a + b)[..|a + b| - 1] == a + b[..n];
      PresentAppend(a, b[..n]);
    } else {
      assert a + b == a;
    }
  }
}
