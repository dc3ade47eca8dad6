/** Aligning the columns of the nivolumab expression matrix to GEO samples: by
    exact sample title, then (when fewer than half matched) by a sample accession
    found inside the column name, and, when nothing matched at all, by position. */
module RiazColumns {
  import opened Wrappers
  import opened Text
  import opened Seqs
  import opened RiazClinical

  /** The insertion-ordered `matched` dictionary, column name to accession. */
  type Renaming = seq<(string, string)>

  function Cols(m: Renaming): (r: seq<string>)
    ensures |r| == |m|
    ensures forall i :: 0 <= i < |m| ==> r[i] == m[i].0
  {
    seq(|m|, i requires 0 <= i < |m| => m[i].0)
  }

  /** `matched[col] = gsm`: a known column keeps its place and takes the new
      accession; a new column goes to the end. */
  function Put(m: Renaming, col: string, gsm: string): (r: Renaming)
    requires Distinct(Cols(m))
    ensures Distinct(Cols(r))
    ensures col in Cols(m) ==> |r| == |m| && Cols(r) == Cols(m)
    ensures col !in Cols(m) ==> r == m + [(col, gsm)]
    ensures (col, gsm) in r
    ensures forall i :: 0 <= i < |m| && m[i].0 != col ==> r[i] == m[i]
  {
    if col in Cols(m) then
      var k := FirstIndex(Cols(m), col);
      var r := m[k := (col, gsm)];
      assert Cols(r) == Cols(m);
      r
    else
      var r := m + [(col, gsm)];
      assert Cols(r) == Cols(m) + [col];
      r
  }

  /** After `Put`, the entry of `col` holds `gsm` and every other entry is the one
      at the same place before. */
  lemma PutEntries(m: Renaming, col: string, gsm: string)
    requires Distinct(Cols(m))
    ensures var r := Put(m, col, gsm);
      forall i :: 0 <= i < |r| ==> (r[i].0 == col ==> r[i].1 == gsm) && (r[i].0 != col ==> i < |m| && r[i] == m[i])
  {
    var r := Put(m, col, gsm);
    forall i | 0 <= i < |r|
      ensures r[i].0 == col ==> r[i].1 == gsm
    {
      var j :| 0 <= j < |r| && r[j] == (col, gsm);
      assert Cols(r)[j] == col && Cols(r)[i] == r[i].0;
    }
  }

  /** `{row['title']: row['sample_id'] for row in clin}`: a title repeated by a
      later record maps to the later record's accession. */
  function TitleMap(records: seq<ClinicalRecord>): (r: map<string, string>)
    ensures forall t :: t in r <==> exists i :: 0 <= i < |records| && records[i].title == t
    ensures forall t :: t in r ==> exists i :: 0 <= i < |records| && records[i].title == t && records[i].sampleId == r[t]
  {
    if |records| == 0 then map[]
    else
      var n := |records| - 1;
      var r := TitleMap(records[..n]);
      assert forall i :: 0 <= i < n ==> records[..n][i] == records[i];
      r[records[n].title := records[n].sampleId]
  }

  /** No record after position `i` carries the same title. */
  predicate LastWithTitle(records: seq<ClinicalRecord>, i: nat)
    requires i < |records|
  {
    forall j :: i < j < |records| ==> records[j].title != records[i].title
  }

  /** Building the dictionary record by record, the last record with a title wins. */
  lemma {:induction false} TitleMapLastWins(records: seq<ClinicalRecord>, i: nat)
    requires i < |records| && LastWithTitle(records, i)
    ensures records[i].title in TitleMap(records) && TitleMap(records)[records[i].title] == records[i].sampleId
  {
    var n := |records| - 1;
    if i < n {
      assert LastWithTitle(records[..n], i);
      TitleMapLastWins(records[..n], i);
    }
  }

  /** The first stage: every column that is a sample title, in column order. */
  function TitleStage(cols: seq<string>, titles: map<string, string>): (r: Renaming)
    ensures Distinct(Cols(r))
    ensures forall c :: c in Cols(r) <==> c in cols && c in titles
    ensures forall i :: 0 <= i < |r| ==> r[i].0 in titles && r[i].1 == titles[r[i].0]
  {
    if |cols| == 0 then []
    else
      var n := |cols| - 1;
      var m := TitleStage(cols[..n], titles);
      assert forall c :: c in cols <==> c in cols[..n] || c == cols[n];
      if cols[n] in titles then Put(m, cols[n], titles[cols[n]]) else m
  }

  /** The first accession, in the iteration order `ids`, that occurs inside `col`. */
  function FirstContained(col: string, ids: seq<string>): (r: Option<string>)
    ensures r.Some? ==> r.value in ids && Contains(col, r.value)
    ensures r.None? <==> forall g :: g in ids ==> !Contains(col, g)
    ensures r.Some? ==> exists k :: 0 <= k < |ids| && ids[k] == r.value && forall j :: 0 <= j < k ==> !Contains(col, ids[j])
  {
    if |ids| == 0 then None
    else if Contains(col, ids[0]) then Some(ids[0])
    else
      var r := FirstContained(col, ids[1..]);
      assert forall g :: g in ids <==> g == ids[0] || g in ids[1..];
      assert r.Some? ==> exists k :: 0 < k < |ids| && ids[k] == r.value && forall j :: 0 <= j < k ==> !Contains(col, ids[j]) by {
        if r.Some? {
          var k :| 0 <= k < |ids| - 1 && ids[1..][k] == r.value && forall j :: 0 <= j < k ==> !Contains(col, ids[1..][j]);
          assert ids[k + 1] == r.value;
          assert forall j :: 0 < j < k + 1 ==> ids[j] == ids[1..][j - 1];
        }
      }
      r
  }

  /** The second stage, over every column, starting from the first stage's
      result: a column holding an accession is (re)mapped to the first one found. */
  function IdStage(cols: seq<string>, ids: seq<string>, m0: Renaming): (r: Renaming)
    requires Distinct(Cols(m0))
    ensures Distinct(Cols(r))
    ensures forall c :: c in Cols(r) <==> c in Cols(m0) || (c in cols && FirstContained(c, ids).Some?)
    ensures forall i :: 0 <= i < |r| ==> r[i] in m0 || (r[i].0 in cols && FirstContained(r[i].0, ids) == Some(r[i].1))
    ensures forall i :: 0 <= i < |r| && r[i].0 in cols && FirstContained(r[i].0, ids).Some? ==>
      r[i].1 == FirstContained(r[i].0, ids).value
  {
    if |cols| == 0 then m0
    else
      var n := |cols| - 1;
      var m := IdStage(cols[..n], ids, m0);
      assert forall c :: c in cols <==> c in cols[..n] || c == cols[n];
      match FirstContained(cols[n], ids)
      case None => m
      case Some(g) =>
        PutEntries(m, cols[n], g);
        Put(m, cols[n], g)
  }

  /** The accessions in GEO order, `list(gse.gsms.keys())`. */
  function GeoOrder(records: seq<ClinicalRecord>): (r: seq<string>)
    ensures |r| == |records|
  {
    seq(|records|, i requires 0 <= i < |records| => records[i].sampleId)
  }

  /** The columns renamed position by position. */
  function Zip(cols: seq<string>, ids: seq<string>): (r: Renaming)
    requires |cols| == |ids|
    ensures |r| == |cols|
  {
    seq(|cols|, i requires 0 <= i < |cols| => (cols[i], ids[i]))
  }

  /** Whether the accession search runs: `len(matched) < len(fpkm.columns) * 0.5`. */
  predicate FewTitleMatches(matchedCount: nat, colCount: nat)
  {
    2 * matchedCount < colCount
  }

  /** The `matched` dictionary after both stages. */
  function Matched(cols: seq<string>, records: seq<ClinicalRecord>, ids: seq<string>): Renaming
  {
    var m1 := TitleStage(cols, TitleMap(records));
    if FewTitleMatches(|m1|, |cols|) then IdStage(cols, ids, m1) else m1
  }

  const MISMATCH: string := "Column count mismatch. Cannot align."

  /** The renaming that aligns the matrix, or the fatal mismatch. */
  function Match(cols: seq<string>, records: seq<ClinicalRecord>, ids: seq<string>): Result<Renaming, string>
  {
    var m := Matched(cols, records, ids);
    if |m| > 0 then Ok(m)
    else if |records| == |cols| then Ok(Zip(cols, GeoOrder(records)))
    else Err(MISMATCH)
  }

  /** `ids` is an iteration order of the set of accessions. */
  predicate IsIdOrder(ids: seq<string>, records: seq<ClinicalRecord>)
  {
    Distinct(ids) && (forall g :: g in ids ==> g in GeoOrder(records))
    && (forall g :: g in GeoOrder(records) ==> g in ids)
  }

  /** The inner `for gsm in gsm_ids` loop, leaving at the first hit. */
  method FindId(col: string, ids: seq<string>) returns (r: Option<string>)
    ensures r == FirstContained(col, ids)
  {
    var k := 0;
    while k < |ids|
      invariant 0 <= k <= |ids|
      invariant FirstContained(col, ids) == FirstContained(col, ids[k..])
    {
      if Contains(col, ids[k]) {
        return Some(ids[k]);
      }
      assert ids[k..][1..] == ids[k + 1..];
      k := k + 1;
    }
    return None;
  }

  /** The first matching loop: each column that is a sample title is renamed to
      that title's accession. */
  method TitleLoop(cols: seq<string>, titles: map<string, string>) returns (matched: Renaming)
    ensures matched == TitleStage(cols, titles)
  {
    matched := [];
    for k := 0 to |cols|
      invariant matched == TitleStage(cols[..k], titles)
    {
      assert cols[..k + 1][..k] == cols[..k];
      if cols[k] in titles {
        matched := Put(matched, cols[k], titles[cols[k]]);
      }
    }
    assert cols[..|cols|] == cols;
  }

  /** The second matching loop: each column holding an accession is (re)mapped to
      the first one found. */
  method IdLoop(cols: seq<string>, ids: seq<string>, first: Renaming) returns (matched: Renaming)
    requires Distinct(Cols(first))
    ensures matched == IdStage(cols, ids, first)
  {
    matched := first;
    for k := 0 to |cols|
      invariant matched == IdStage(cols[..k], ids, first)
    {
      assert cols[..k + 1][..k] == cols[..k];
      var found := FindId(cols[k], ids);
      if found.Some? {
        matched := Put(matched, cols[k], found.value);
      }
    }
    assert cols[..|cols|] == cols;
  }

  /** Matching the expression columns to the clinical records. */
  method MatchColumns(cols: seq<string>, records: seq<ClinicalRecord>, ids: seq<string>)
    returns (res: Result<Renaming, string>)
    ensures res == Match(cols, records, ids)
  {
    var matched := TitleLoop(cols, TitleMap(records));
    if FewTitleMatches(|matched|, |cols|) {
      matched := IdLoop(cols, ids, matched);
    }
    if |matched| > 0 {
      res := Ok(matched);
    } else if |records| == |cols| {
      res := Ok(Zip(cols, GeoOrder(records)));
    } else {
      res := Err(MISMATCH);
    }
  }

  /** Every renamed column is a column of the matrix, renamed either to the
      accession of a record with that title or to an accession it contains;
      no column is renamed twice. */
  lemma MatchedJustified(cols: seq<string>, records: seq<ClinicalRecord>, ids: seq<string>)
    requires IsIdOrder(ids, records)
    ensures var m := Matched(cols, records, ids);
      Distinct(Cols(m))
      && forall i :: 0 <= i < |m| ==> m[i].0 in cols && m[i].1 in GeoOrder(records)
    ensures var m := Matched(cols, records, ids);
      forall i :: 0 <= i < |m| ==>
        (exists j :: 0 <= j < |records| && records[j].title == m[i].0 && records[j].sampleId == m[i].1)
        || Contains(m[i].0, m[i].1)
  {
    var titles := TitleMap(records);
    var m1 := TitleStage(cols, titles);
    var m := Matched(cols, records, ids);
    forall i | 0 <= i < |m1|
      ensures m1[i].0 in cols && m1[i].1 in GeoOrder(records)
      ensures exists j :: 0 <= j < |records| && records[j].title == m1[i].0 && records[j].sampleId == m1[i].1
    {
      assert m1[i].0 in Cols(m1);
      var j :| 0 <= j < |records| && records[j].title == m1[i].0 && records[j].sampleId == titles[m1[i].0];
      assert GeoOrder(records)[j] == records[j].sampleId;
    }
    if FewTitleMatches(|m1|, |cols|) {
      forall i | 0 <= i < |m|
        ensures m[i].0 in cols && m[i].1 in GeoOrder(records)
        ensures (exists j :: 0 <= j < |records| && records[j].title == m[i].0 && records[j].sampleId == m[i].1)
          || Contains(m[i].0, m[i].1)
      {
        if m[i] in m1 {
          var k :| 0 <= k < |m1| && m1[k] == m[i];
        }
      }
    }
  }

  /** A column equal to a sample title is always kept: the accession search may
      re-map it but never drops it. */
  lemma TitleColumnsKept(cols: seq<string>, records: seq<ClinicalRecord>, ids: seq<string>, c: string)
    requires c in cols && exists j :: 0 <= j < |records| && records[j].title == c
    ensures c in Cols(Matched(cols, records, ids))
  {
  }

  /** The accession search runs only when fewer than half of the columns are
      titles, and then every column holding an accession is matched. */
  lemma SearchOnlyWhenFew(cols: seq<string>, records: seq<ClinicalRecord>, ids: seq<string>, c: string)
    requires c in cols && FirstContained(c, ids).Some?
    ensures c !in Cols(Matched(cols, records, ids)) ==>
      !FewTitleMatches(|TitleStage(cols, TitleMap(records))|, |cols|)
  {
  }

  /** Positional alignment is the last resort: it happens exactly when neither
      stage matched a column and the counts agree; the run fails exactly when
      neither stage matched and the counts differ. */
  lemma MatchFallback(cols: seq<string>, records: seq<ClinicalRecord>, ids: seq<string>)
    ensures Match(cols, records, ids).Err? <==> |Matched(cols, records, ids)| == 0 && |records| != |cols|
    ensures Match(cols, records, ids).Ok? && |Matched(cols, records, ids)| == 0 ==>
      forall i :: 0 <= i < |cols| ==> Match(cols, records, ids).value[i] == (cols[i], records[i].sampleId)
  {
  }
}
