/** Clinical annotations of the colorectal (COADREAD) analysis: the MSI call of
    each sample, from a consensus label or, failing that, from two numeric scores;
    the set of TP53-mutant samples; and the per-sample clinical table. */
module CoadreadClinical {
  import opened Wrappers
  import opened Text

  // cBioPortal clinical attributes read for MSI status.
  const CONSENSUS_ATTR := "MSI_STATUS_7_CATEGORY_CONSENSUS_CALLS"
  const MANTIS_ATTR := "MSI_SCORE_MANTIS"
  const SENSOR_ATTR := "MSI_SENSOR_SCORE"
  const STRAND_BIAS_ATTR := "MICROSATELLITE_INSTABILITY_ADJ_STRAND_BIAS"
  const MSI_ATTRS: seq<string> := [CONSENSUS_ATTR, MANTIS_ATTR, SENSOR_ATTR, STRAND_BIAS_ATTR]

  const MANTIS_CUTOFF: real := 0.4
  const SENSOR_CUTOFF: real := 10.0

  /** TCGA sample barcodes are compared on their first 15 characters. */
  const SAMPLE_KEY_LENGTH := 15

  datatype MsiCall = MsiHigh | Stable | Unknown
  {
    /** The label stored in the `msi_status` column. */
    function Label(): string
    {
      match this
      case MsiHigh => "MSI-H"
      case Stable => "MSS"
      case Unknown => "UNKNOWN"
    }
  }

  /** `sid[:15]`: the first 15 characters, or the whole id when it is shorter. */
  function SampleKey(id: string): (r: string)
    ensures |r| <= SAMPLE_KEY_LENGTH
    ensures r <= id
    ensures |id| <= SAMPLE_KEY_LENGTH ==> r == id
    ensures |id| >= SAMPLE_KEY_LENGTH ==> |r| == SAMPLE_KEY_LENGTH
  {
    if |id| <= SAMPLE_KEY_LENGTH then id else id[..SAMPLE_KEY_LENGTH]
  }

  /** An upper-cased consensus label that reads as MSI-high. */
  predicate IsHighLabel(u: string)
  {
    Contains(u, "MSI-H") || u == "MSI_H" || u == "MSI-H" || u == "HIGH"
  }

  /** An upper-cased consensus label that reads as stable (MSI-low counts as stable). */
  predicate IsStableLabel(u: string)
  {
    u == "MSS" || u == "MSI-L" || u == "MSI_L" || u == "LOW"
  }

  /** A numeric score against its cutoff. A missing score (absent, NaN or not a
      number) compares false both ways and leaves the call open. */
  function ScoreCall(score: Option<real>, cutoff: real): (r: MsiCall)
    ensures r == Unknown <==> score.None?
    ensures r == MsiHigh <==> score.Some? && score.value > cutoff
  {
    match score
    case None => Unknown
    case Some(v) => if v > cutoff then MsiHigh else Stable
  }

  /** The MSI decision for one sample. A non-empty consensus label decides on its
      own; an empty one falls back to MANTIS, and only when MANTIS gives no answer
      to MSIsensor. */
  function ClassifyMsi(consensus: string, mantis: Option<real>, sensor: Option<real>): (r: MsiCall)
    // a non-empty consensus decides alone, with no numeric fallback
    ensures |consensus| > 0 ==> (r == MsiHigh <==> IsHighLabel(Upper(consensus)))
    ensures |consensus| > 0 ==> (r == Stable <==> !IsHighLabel(Upper(consensus)) && IsStableLabel(Upper(consensus)))
    // an empty consensus: MANTIS first
    ensures |consensus| == 0 && mantis.Some? ==> (r == MsiHigh <==> mantis.value > MANTIS_CUTOFF) && r != Unknown
    // then MSIsensor
    ensures |consensus| == 0 && mantis.None? && sensor.Some? ==> (r == MsiHigh <==> sensor.value > SENSOR_CUTOFF) && r != Unknown
    ensures r == Unknown <==>
      (|consensus| > 0 && !IsHighLabel(Upper(consensus)) && !IsStableLabel(Upper(consensus)))
      || (|consensus| == 0 && mantis.None? && sensor.None?)
  {
    if |consensus| > 0 then
      var u := Upper(consensus);
      if IsHighLabel(u) then MsiHigh
      else if IsStableLabel(u) then Stable
      else Unknown
    else
      var byMantis := ScoreCall(mantis, MANTIS_CUTOFF);
      if byMantis != Unknown then byMantis else ScoreCall(sensor, SENSOR_CUTOFF)
  }

  /** The consensus decides alone: the numeric scores are irrelevant once it is non-empty. */
  lemma ConsensusDecidesAlone(consensus: string, m1: Option<real>, s1: Option<real>, m2: Option<real>, s2: Option<real>)
    requires |consensus| > 0
    ensures ClassifyMsi(consensus, m1, s1) == ClassifyMsi(consensus, m2, s2)
  {
  }

  // ---------------------------------------------------------------- TP53

  /** One TP53 mutation record; `mutationType` may be absent from the record. */
  datatype Mutation = Mutation(sampleId: string, mutationType: Option<string>)

  const SILENT_TYPES: set<string> := {"silent", "synonymous_variant", "3'utr", "5'utr"}

  /** `m.get("mutationType", "").lower()` is one of the silent classes. A record
      without a type reads as "" and so counts as non-silent. */
  predicate IsSilent(m: Mutation)
  {
    Lower(m.mutationType.GetOr("")) in SILENT_TYPES
  }

  /** The sample keys with at least one non-silent TP53 mutation. */
  function Tp53Mutants(ms: seq<Mutation>): (r: set<string>)
    ensures forall k :: k in r <==> exists i :: 0 <= i < |ms| && !IsSilent(ms[i]) && SampleKey(ms[i].sampleId) == k
  {
    if |ms| == 0 then {}
    else
      var n := |ms| - 1;
      var prev := Tp53Mutants(ms[..n]);
      assert forall i :: 0 <= i < n ==> ms[..n][i] == ms[i];
      if IsSilent(ms[n]) then prev else prev + {SampleKey(ms[n].sampleId)}
  }

  /** Fills the `tp53_mutants` set mutation by mutation. */
  method CollectTp53Mutants(ms: seq<Mutation>) returns (mutants: set<string>)
    ensures mutants == Tp53Mutants(ms)
  {
    mutants := {};
    for i := 0 to |ms|
      invariant mutants == Tp53Mutants(ms[..i])
    {
      assert ms[..i + 1][..i] == ms[..i];
      if !IsSilent(ms[i]) {
        mutants := mutants + {SampleKey(ms[i].sampleId)};
      }
    }
    assert ms[..|ms|] == ms;
  }

  // ---------------------------------------------------------------- MSI records

  /** One clinical-data record returned for an attribute. */
  datatype ClinicalDatum = ClinicalDatum(sampleId: string, value: string)

  /** The records of one attribute, as fetched; a failed fetch contributes none. */
  datatype AttributeBatch = AttributeBatch(attr: string, data: seq<ClinicalDatum>)

  type MsiRecords = map<string, map<string, string>>

  /** `msi_records.setdefault(sid, {})[attr] = value`. */
  function Record(recs: MsiRecords, attr: string, d: ClinicalDatum): MsiRecords
  {
    var k := SampleKey(d.sampleId);
    var inner := if k in recs then recs[k] else map[];
    recs[k := inner[attr := d.value]]
  }

  /** The records of one batch, taken in order. */
  function RecordAll(recs: MsiRecords, attr: string, ds: seq<ClinicalDatum>): MsiRecords
  {
    if |ds| == 0 then recs else Record(RecordAll(recs, attr, ds[..|ds| - 1]), attr, ds[|ds| - 1])
  }

  /** `msi_records` after all batches. */
  function MsiRecordsOf(batches: seq<AttributeBatch>): MsiRecords
  {
    if |batches| == 0 then map[]
    else
      var b := batches[|batches| - 1];
      RecordAll(MsiRecordsOf(batches[..|batches| - 1]), b.attr, b.data)
  }

  /** Some record of `ds` has sample key `k`. */
  predicate HasKey(ds: seq<ClinicalDatum>, k: string)
  {
    exists j :: 0 <= j < |ds| && SampleKey(ds[j].sampleId) == k
  }

  /** Some batch for attribute `attr` holds a record whose sample key is `k`. */
  predicate Reported(batches: seq<AttributeBatch>, k: string, attr: string)
  {
    exists i :: 0 <= i < |batches| && batches[i].attr == attr && HasKey(batches[i].data, k)
  }

  /** A value is present for (k, a) in the records. */
  predicate HasValue(recs: MsiRecords, k: string, a: string)
  {
    k in recs && a in recs[k]
  }

  lemma HasKeySnoc(ds: seq<ClinicalDatum>, k: string)
    requires |ds| > 0
    ensures HasKey(ds, k) <==> HasKey(ds[..|ds| - 1], k) || SampleKey(ds[|ds| - 1].sampleId) == k
  {
    var n := |ds| - 1;
    if HasKey(ds, k) {
      var j :| 0 <= j < |ds| && SampleKey(ds[j].sampleId) == k;
      if j < n {
        assert ds[..n][j] == ds[j];
      }
    }
    if HasKey(ds[..n], k) {
      var j :| 0 <= j < n && SampleKey(ds[..n][j].sampleId) == k;
      assert ds[j] == ds[..n][j];
    }
  }

  lemma {:induction false} RecordAllEntries(recs: MsiRecords, attr: string, ds: seq<ClinicalDatum>, k: string, a: string)
    ensures HasValue(RecordAll(recs, attr, ds), k, a) <==> HasValue(recs, k, a) || (a == attr && HasKey(ds, k))
  {
    if |ds| > 0 {
      var n := |ds| - 1;
      RecordAllEntries(recs, attr, ds[..n], k, a);
      HasKeySnoc(ds, k);
    }
  }

  lemma ReportedSnoc(batches: seq<AttributeBatch>, k: string, a: string)
    requires |batches| > 0
    ensures Reported(batches, k, a) <==>
      Reported(batches[..|batches| - 1], k, a) || (batches[|batches| - 1].attr == a && HasKey(batches[|batches| - 1].data, k))
  {
    var n := |batches| - 1;
    if Reported(batches, k, a) {
      var i :| 0 <= i < |batches| && batches[i].attr == a && HasKey(batches[i].data, k);
      if i < n {
        assert batches[..n][i] == batches[i];
      }
    }
    if Reported(batches[..n], k, a) {
      var i :| 0 <= i < n && batches[..n][i].attr == a && HasKey(batches[..n][i].data, k);
      assert batches[i] == batches[..n][i];
    }
  }

  /** Sample `k` has a value for attribute `a` exactly when some batch for `a`
      reported a record for `k`. */
  lemma {:induction false} MsiRecordsEntries(batches: seq<AttributeBatch>, k: string, a: string)
    ensures HasValue(MsiRecordsOf(batches), k, a) <==> Reported(batches, k, a)
  {
    if |batches| > 0 {
      var n := |batches| - 1;
      var b := batches[n];
      MsiRecordsEntries(batches[..n], k, a);
      RecordAllEntries(MsiRecordsOf(batches[..n]), b.attr, b.data, k, a);
      ReportedSnoc(batches, k, a);
    }
  }

  /** Recording a batch for another attribute, or with no record for sample `k`,
      leaves the value for (k, a) as it was. */
  lemma {:induction false} RecordAllKeeps(recs: MsiRecords, attr: string, ds: seq<ClinicalDatum>, k: string, a: string)
    requires HasValue(recs, k, a) && !(a == attr && HasKey(ds, k))
    ensures HasValue(RecordAll(recs, attr, ds), k, a) && RecordAll(recs, attr, ds)[k][a] == recs[k][a]
  {
    if |ds| > 0 {
      var n := |ds| - 1;
      HasKeySnoc(ds, k);
      RecordAllKeeps(recs, attr, ds[..n], k, a);
    }
  }

  /** Within a batch the last record of a sample wins. */
  lemma {:induction false} RecordAllLast(recs: MsiRecords, attr: string, ds: seq<ClinicalDatum>, j: nat, k: string)
    requires j < |ds| && SampleKey(ds[j].sampleId) == k
    requires forall l :: j < l < |ds| ==> SampleKey(ds[l].sampleId) != k
    ensures HasValue(RecordAll(recs, attr, ds), k, attr) && RecordAll(recs, attr, ds)[k][attr] == ds[j].value
  {
    var n := |ds| - 1;
    if j < n {
      RecordAllLast(recs, attr, ds[..n], j, k);
    }
  }

  /** The value for (k, a) comes from the record with that key in batch `i` at
      position `j` when no later record in that batch, and no later batch for `a`,
      has key `k`. */
  predicate LastRecord(batches: seq<AttributeBatch>, i: nat, j: nat, k: string)
    requires i < |batches| && j < |batches[i].data|
  {
    var b := batches[i];
    SampleKey(b.data[j].sampleId) == k
    && (forall l :: j < l < |b.data| ==> SampleKey(b.data[l].sampleId) != k)
    && (forall i2 :: i < i2 < |batches| && batches[i2].attr == b.attr ==> !HasKey(batches[i2].data, k))
  }

  /** `msi_records[k][a] = value` is a dictionary write: the last record for
      (k, a), across batches and within one, is the value kept. */
  lemma {:induction false} MsiRecordsLastWins(batches: seq<AttributeBatch>, i: nat, j: nat, k: string)
    requires i < |batches| && j < |batches[i].data| && LastRecord(batches, i, j, k)
    ensures var a := batches[i].attr;
      HasValue(MsiRecordsOf(batches), k, a) && MsiRecordsOf(batches)[k][a] == batches[i].data[j].value
  {
    var n := |batches| - 1;
    var b := batches[n];
    var prev := MsiRecordsOf(batches[..n]);
    if i == n {
      RecordAllLast(prev, b.attr, b.data, j, k);
    } else {
      assert LastRecord(batches[..n], i, j, k);
      MsiRecordsLastWins(batches[..n], i, j, k);
      RecordAllKeeps(prev, b.attr, b.data, k, batches[i].attr);
    }
  }

  /** Fills `msi_records` attribute by attribute and record by record. */
  method BuildMsiRecords(batches: seq<AttributeBatch>) returns (recs: MsiRecords)
    ensures recs == MsiRecordsOf(batches)
  {
    recs := map[];
    for i := 0 to |batches|
      invariant recs == MsiRecordsOf(batches[..i])
    {
      assert batches[..i + 1][..i] == batches[..i];
      var b := batches[i];
      ghost var start := recs;
      for j := 0 to |b.data|
        invariant recs == RecordAll(start, b.attr, b.data[..j])
      {
        assert b.data[..j + 1][..j] == b.data[..j];
        recs := Record(recs, b.attr, b.data[j]);
      }
      assert b.data[..|b.data|] == b.data;
    }
    assert batches[..|batches|] == batches;
  }

  // ---------------------------------------------------------------- clinical table

  /** A row of the clinical table. The raw score strings are kept as fetched. */
  datatype ClinicalRow = ClinicalRow(
    sampleId: string,
    msiStatus: string,
    tp53Status: string,
    mantisScore: Option<string>,
    sensorScore: Option<string>)

  /** Python's `float()` on a fetched string; `None` for NaN and for text that is
      not a number. Parsing is not modelled and is a parameter. */
  type Parser = string -> Option<real>

  /** `mr.get(attr)` for a possibly absent record. */
  function Lookup(mr: map<string, string>, attr: string): Option<string>
  {
    if attr in mr then Some(mr[attr]) else None
  }

  /** `float(mr.get(attr, "nan"))`: an absent attribute reads as NaN. */
  function Score(mr: map<string, string>, attr: string, parse: Parser): (r: Option<real>)
    ensures attr !in mr ==> r.None?
  {
    if attr in mr then parse(mr[attr]) else None
  }

  /** `msi_records.get(sid, {})`. */
  function SampleRecord(recs: MsiRecords, sid: string): map<string, string>
  {
    if sid in recs then recs[sid] else map[]
  }

  /** The clinical row of one sample. */
  function ClinicalRowOf(rawId: string, recs: MsiRecords, mutants: set<string>, parse: Parser): (r: ClinicalRow)
    ensures r.sampleId == SampleKey(rawId)
    ensures var mr := SampleRecord(recs, SampleKey(rawId));
      r.msiStatus == ClassifyMsi(Lookup(mr, CONSENSUS_ATTR).GetOr(""), Score(mr, MANTIS_ATTR, parse), Score(mr, SENSOR_ATTR, parse)).Label()
    ensures r.mantisScore == Lookup(SampleRecord(recs, SampleKey(rawId)), MANTIS_ATTR)
    ensures r.sensorScore == Lookup(SampleRecord(recs, SampleKey(rawId)), SENSOR_ATTR)
    ensures r.tp53Status == "mutant" <==> SampleKey(rawId) in mutants
    ensures r.tp53Status == "mutant" || r.tp53Status == "wildtype"
    ensures r.msiStatus in {"MSI-H", "MSS", "UNKNOWN"}
    // a sample without any MSI record is UNKNOWN
    ensures SampleKey(rawId) !in recs ==> r.msiStatus == "UNKNOWN"
  {
    var sid := SampleKey(rawId);
    var mr := SampleRecord(recs, sid);
    var consensus := Lookup(mr, CONSENSUS_ATTR).GetOr("");
    var call := ClassifyMsi(consensus, Score(mr, MANTIS_ATTR, parse), Score(mr, SENSOR_ATTR, parse));
    ClinicalRow(sid, call.Label(), if sid in mutants then "mutant" else "wildtype",
                Lookup(mr, MANTIS_ATTR), Lookup(mr, SENSOR_ATTR))
  }

  /** Appends one clinical row per sample, in the order of the sample list. */
  method AssembleClinical(rawIds: seq<string>, recs: MsiRecords, mutants: set<string>, parse: Parser)
    returns (rows: seq<ClinicalRow>)
    ensures |rows| == |rawIds|
    ensures forall i :: 0 <= i < |rows| ==> rows[i] == ClinicalRowOf(rawIds[i], recs, mutants, parse)
  {
    rows := [];
    for i := 0 to |rawIds|
      invariant |rows| == i
      invariant forall j :: 0 <= j < i ==> rows[j] == ClinicalRowOf(rawIds[j], recs, mutants, parse)
    {
      rows := rows + [ClinicalRowOf(rawIds[i], recs, mutants, parse)];
    }
  }
}
