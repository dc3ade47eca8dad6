/** The clinical side of the nivolumab cohort: the `key: value` characteristic
    lines of each GEO sample, the clinical records built from them, the response
    codings, and the pre/on-treatment pairing of patients. */
module RiazClinical {
  import opened Wrappers
  import opened Text

  // ------------------------------------------------------- characteristics

  /** The stripped text before the first colon of a characteristic line. */
  function KeyOf(line: string): string
    requires ':' in line
  {
    Strip(SplitFirst(line, ':').0)
  }

  /** The stripped text after the first colon; it may itself hold colons. */
  function ValueOf(line: string): string
    requires ':' in line
  {
    Strip(SplitFirst(line, ':').1)
  }

  /** The `chars` dictionary after reading `lines` in order: a line with a colon
      sets its key, overwriting an earlier line with the same key; a line without
      one is skipped. */
  function Characteristics(lines: seq<string>): map<string, string>
  {
    if |lines| == 0 then map[]
    else
      var n := |lines| - 1;
      var chars := Characteristics(lines[..n]);
      if ':' in lines[n] then chars[KeyOf(lines[n]) := ValueOf(lines[n])] else chars
  }

  /** The characteristics loop of one sample. */
  method ParseCharacteristics(lines: seq<string>) returns (chars: map<string, string>)
    ensures chars == Characteristics(lines)
  {
    chars := map[];
    for k := 0 to |lines|
      invariant chars == Characteristics(lines[..k])
    {
      assert lines[..k + 1][..k] == lines[..k];
      var c := lines[k];
      if ':' in c {
        var parts := SplitFirst(c, ':');
        chars := chars[Strip(parts.0) := Strip(parts.1)];
      }
    }
    assert lines[..|lines|] == lines;
  }

  /** The line is a `key: value` line for `key`. */
  predicate Names(line: string, key: string)
  {
    ':' in line && KeyOf(line) == key
  }

  lemma CharacteristicsSnoc(lines: seq<string>, line: string)
    ensures Characteristics(lines + [line]) ==
      if ':' in line then Characteristics(lines)[KeyOf(line) := ValueOf(line)] else Characteristics(lines)
  {
    assert (lines + [line])[..|lines|] == lines;
  }

  /** A key is present exactly when some line with a colon names it. */
  lemma {:induction false} CharacteristicKeys(lines: seq<string>, key: string)
    ensures key in Characteristics(lines) <==> exists i :: 0 <= i < |lines| && Names(lines[i], key)
  {
    if |lines| > 0 {
      var n := |lines| - 1;
      var init := lines[..n];
      assert lines == init + [lines[n]];
      CharacteristicsSnoc(init, lines[n]);
      CharacteristicKeys(init, key);
      if exists i :: 0 <= i < |lines| && Names(lines[i], key) {
        var i :| 0 <= i < |lines| && Names(lines[i], key);
        if i < n {
          assert Names(init[i], key);
        }
      }
      if exists i :: 0 <= i < n && Names(init[i], key) {
        var i :| 0 <= i < n && Names(init[i], key);
        assert Names(lines[i], key);
      }
    }
  }

  /** The last line that names a key decides its value. */
  lemma {:induction false} CharacteristicLastWins(lines: seq<string>, i: int)
    requires 0 <= i < |lines| && ':' in lines[i]
    requires forall j :: i < j < |lines| ==> !Names(lines[j], KeyOf(lines[i]))
    ensures KeyOf(lines[i]) in Characteristics(lines)
    ensures Characteristics(lines)[KeyOf(lines[i])] == ValueOf(lines[i])
  {
    var n := |lines| - 1;
    var init := lines[..n];
    assert lines == init + [lines[n]];
    CharacteristicsSnoc(init, lines[n]);
    if i < n {
      assert init[i] == lines[i];
      forall j | i < j < n
        ensures !Names(init[j], KeyOf(init[i]))
      {
        assert init[j] == lines[j];
      }
      CharacteristicLastWins(init, i);
    }
  }

  lemma ContainedAvoids(s: string, r: string, c: char)
    requires Contains(s, r) && c !in s
    ensures c !in r
  {
    var i :| 0 <= i <= |s| && OccursAt(s, r, i);
  }

  /** A key never holds a colon: the line is split at its first one. */
  lemma KeyHasNoColon(line: string)
    requires ':' in line
    ensures ':' !in KeyOf(line)
  {
    var before := SplitFirst(line, ':').0;
    ContainedAvoids(before, Strip(before), ':');
  }

  // --------------------------------------------------------------- records

  datatype Gsm = Gsm(id: string, title: string, characteristics: seq<string>)

  datatype ClinicalRecord = ClinicalRecord(sampleId: string, title: string, response: string, visit: string, tissue: string)

  const RESPONSE_KEY: string := "response"
  const VISIT_KEY: string := "visit (pre or on treatment)"
  const TISSUE_KEY: string := "tissue"
  const MISSING: string := "NA"

  /** `chars.get(key, 'NA')`. */
  function Field(chars: map<string, string>, key: string): string
  {
    if key in chars then chars[key] else MISSING
  }

  /** The clinical record of one sample. */
  function RecordOf(g: Gsm): (r: ClinicalRecord)
    ensures r.sampleId == g.id && r.title == g.title
  {
    var chars := Characteristics(g.characteristics);
    ClinicalRecord(g.id, g.title, Field(chars, RESPONSE_KEY), Field(chars, VISIT_KEY), Field(chars, TISSUE_KEY))
  }

  /** A field no line names is "NA". */
  lemma FieldDefault(lines: seq<string>, key: string)
    requires forall i :: 0 <= i < |lines| ==> !Names(lines[i], key)
    ensures Field(Characteristics(lines), key) == MISSING
  {
    CharacteristicKeys(lines, key);
  }

  /** A field named by some line takes the value of the last such line. */
  lemma FieldFromLine(lines: seq<string>, i: int, key: string)
    requires 0 <= i < |lines| && Names(lines[i], key)
    requires forall j :: i < j < |lines| ==> !Names(lines[j], key)
    ensures Field(Characteristics(lines), key) == ValueOf(lines[i])
  {
    CharacteristicLastWins(lines, i);
  }

  /** The loop over the series' samples, one record each, in order. */
  method BuildRecords(gsms: seq<Gsm>) returns (records: seq<ClinicalRecord>)
    ensures |records| == |gsms|
    ensures forall i :: 0 <= i < |gsms| ==> records[i] == RecordOf(gsms[i])
  {
    records := [];
    for k := 0 to |gsms|
      invariant |records| == k
      invariant forall i :: 0 <= i < k ==> records[i] == RecordOf(gsms[i])
    {
      var g := gsms[k];
      var chars := ParseCharacteristics(g.characteristics);
      records := records + [ClinicalRecord(g.id, g.title, Field(chars, RESPONSE_KEY),
                                           Field(chars, VISIT_KEY), Field(chars, TISSUE_KEY))];
    }
  }

  // ------------------------------------------------------------ responses

  /** The response labels both codings map; every other label is missing. */
  const RECIST_LABELS: set<string> := {"CR", "PR", "PRCR", "SD", "PD"}
  const RESPONDERS: set<string> := {"CR", "PR", "PRCR"}

  /** `resp_bin`: CR, PR and the combined PRCR respond, SD and PD do not; any
      other label (including "NA") is missing. */
  function RespBin(response: string): (r: Option<int>)
    ensures r.Some? <==> response in RECIST_LABELS
    ensures r == Some(1) <==> response in RESPONDERS
    ensures r == Some(0) <==> response == "SD" || response == "PD"
  {
    if response == "CR" || response == "PR" || response == "PRCR" then Some(1)
    else if response == "SD" || response == "PD" then Some(0)
    else None
  }

  /** `resp_num`: the ordinal RECIST scale, PRCR at the CR/PR midpoint. */
  function RespNum(response: string): (r: Option<real>)
    ensures r.Some? <==> response in RECIST_LABELS
    ensures response == "CR" ==> r == Some(4.0)
    ensures response == "PR" ==> r == Some(3.0)
    ensures response == "PRCR" ==> r == Some(3.5)
    ensures response == "SD" ==> r == Some(2.0)
    ensures response == "PD" ==> r == Some(1.0)
  {
    if response == "CR" then Some(4.0)
    else if response == "PR" then Some(3.0)
    else if response == "PRCR" then Some(3.5)
    else if response == "SD" then Some(2.0)
    else if response == "PD" then Some(1.0)
    else None
  }

  /** The two codings cover the same labels, and the binary one is the ordinal
      one cut between SD (2) and PR (3). */
  lemma ResponseCodingsAgree(response: string)
    ensures RespBin(response).Some? <==> RespNum(response).Some?
    ensures RespBin(response) == Some(1) <==> RespNum(response).Some? && RespNum(response).value >= 3.0
    ensures RespBin(response) == Some(0) <==> RespNum(response).Some? && RespNum(response).value <= 2.0
  {
  }

  // ---------------------------------------------------------------- visits

  /** `visit_clean.map({'Pre': 'Pre', 'On': 'On'})` on the stripped visit. */
  function VisitShort(visit: string): (r: Option<string>)
    ensures r.Some? <==> Strip(visit) == "Pre" || Strip(visit) == "On"
    ensures r.Some? ==> r.value == Strip(visit)
  {
    var v := Strip(visit);
    if v == "Pre" || v == "On" then Some(v) else None
  }

  /** ASCII digits; the regular expression's `\d` also matches other Unicode digits. */
  predicate IsDigit(c: char)
  {
    '0' <= c <= '9'
  }

  /** `Pt` followed by at least one digit starts at `i`. */
  predicate PatientAt(s: string, i: int)
  {
    0 <= i && i + 3 <= |s| && s[i] == 'P' && s[i + 1] == 't' && IsDigit(s[i + 2])
  }

  /** The length of the maximal run of digits starting at `i`. */
  function DigitRun(s: string, i: nat): (n: nat)
    requires i <= |s|
    ensures i + n <= |s|
    ensures forall j :: i <= j < i + n ==> IsDigit(s[j])
    ensures i + n < |s| ==> !IsDigit(s[i + n])
    decreases |s| - i
  {
    if i < |s| && IsDigit(s[i]) then 1 + DigitRun(s, i + 1) else 0
  }

  /** The leftmost match position at or after `i`. */
  function FindPatient(s: string, i: nat): (r: Option<nat>)
    requires i <= |s|
    ensures r.Some? ==> i <= r.value && PatientAt(s, r.value)
    ensures r.Some? ==> forall j :: i <= j < r.value ==> !PatientAt(s, j)
    ensures r.None? ==> forall j :: i <= j < |s| ==> !PatientAt(s, j)
    decreases |s| - i
  {
    if i == |s| then None
    else if PatientAt(s, i) then Some(i)
    else FindPatient(s, i + 1)
  }

  /** `title.str.extract(r'(Pt\d+)')`: the leftmost `Pt` followed by digits,
      together with all the digits that follow it (the match is greedy). */
  function ExtractPatient(title: string): (r: Option<string>)
    ensures r.None? <==> forall j :: 0 <= j < |title| ==> !PatientAt(title, j)
    ensures r.Some? ==> |r.value| >= 3 && r.value[..2] == "Pt"
    ensures r.Some? ==> forall j :: 2 <= j < |r.value| ==> IsDigit(r.value[j])
    ensures r.Some? ==> Contains(title, r.value)
  {
    match FindPatient(title, 0)
    case None => None
    case Some(i) =>
      var n := DigitRun(title, i + 2);
      var p := title[i..i + 2 + n];
      assert OccursAt(title, p, i);
      Some(p)
  }

  lemma {:induction false} DigitRunOf(s: string, i: nat, digits: string, rest: string)
    requires |digits| <= i <= |s|
    requires s[..i] == s[..i - |digits|] + digits
    requires s == s[..i] + rest
    requires forall j :: 0 <= j < |digits| ==> IsDigit(digits[j])
    requires |rest| > 0 ==> !IsDigit(rest[0])
    ensures DigitRun(s, i - |digits|) == |digits|
    decreases |digits|
  {
    if |digits| > 0 {
      var k := i - |digits|;
      assert s[k] == digits[0] by {
        assert s[..i][k] == s[k];
      }
      var s2 := s[..k + 1] + digits[1..];
      assert s[..i] == s[..k + 1] + digits[1..];
      DigitRunOf(s, i, digits[1..], rest);
    } else {
      if i < |s| {
        assert s[i] == rest[0];
      }
    }
  }

  /** A title that starts with a patient code (`Pt` and its digits, then no
      further digit) yields exactly that code, whatever follows: "Pt12_Pre" and
      "Pt12_On" name the same patient. */
  lemma PatientOfTitle(digits: string, rest: string)
    requires |digits| > 0 && forall j :: 0 <= j < |digits| ==> IsDigit(digits[j])
    requires |rest| > 0 ==> !IsDigit(rest[0])
    ensures ExtractPatient("Pt" + digits + rest) == Some("Pt" + digits)
  {
    var s := "Pt" + digits + rest;
    var i := 2 + |digits|;
    assert s[..i] == "Pt" + digits;
    assert s[..i] == s[..i - |digits|] + digits;
    assert s == s[..i] + rest;
    assert PatientAt(s, 0);
    DigitRunOf(s, i, digits, rest);
    assert s[0..2 + |digits|] == "Pt" + digits;
  }

  // --------------------------------------------------------------- pairing

  /** One row of the analysis frame, reduced to what the pairing reads. */
  datatype Sample = Sample(patient: Option<string>, visitShort: Option<string>, tgjs: Option<real>, respBin: Option<int>)

  /** `dropna(subset=['patient', 'tGJS', 'resp_bin'])` keeps the row. */
  predicate Usable(s: Sample)
  {
    s.patient.Some? && s.tgjs.Some? && s.respBin.Some?
  }

  predicate OfPatient(s: Sample, p: string)
  {
    Usable(s) && s.patient == Some(p)
  }

  /** `set(x)` of one patient's group: its usable rows' short visits, a missing
      visit included as a member of its own. */
  function VisitSet(rows: seq<Sample>, p: string): set<Option<string>>
  {
    set i | 0 <= i < |rows| && OfPatient(rows[i], p) :: rows[i].visitShort
  }

  /** The patient has usable rows whose visits are exactly Pre and On. */
  predicate IsPaired(rows: seq<Sample>, p: string)
  {
    VisitSet(rows, p) == {Some("Pre"), Some("On")}
  }

  lemma VisitSetSnoc(rows: seq<Sample>, s: Sample, p: string)
    ensures VisitSet(rows + [s], p) == VisitSet(rows, p) + (if OfPatient(s, p) then {s.visitShort} else {})
  {
    var all := rows + [s];
    forall v | v in VisitSet(all, p)
      ensures v in VisitSet(rows, p) + (if OfPatient(s, p) then {s.visitShort} else {})
    {
      var i :| 0 <= i < |all| && OfPatient(all[i], p) && all[i].visitShort == v;
      if i < |rows| {
        assert all[i] == rows[i];
      }
    }
    forall v | v in VisitSet(rows, p)
      ensures v in VisitSet(all, p)
    {
      var i :| 0 <= i < |rows| && OfPatient(rows[i], p) && rows[i].visitShort == v;
      assert all[i] == rows[i];
    }
    if OfPatient(s, p) {
      assert all[|rows|] == s;
    }
  }

  /** The `groupby('patient')` step: each patient with a usable row, mapped to
      its set of visits. */
  method GroupVisits(rows: seq<Sample>) returns (groups: map<string, set<Option<string>>>)
    ensures forall p :: p in groups <==> exists i :: 0 <= i < |rows| && OfPatient(rows[i], p)
    ensures forall p :: p in groups ==> groups[p] == VisitSet(rows, p)
  {
    groups := map[];
    for k := 0 to |rows|
      invariant forall p :: p in groups <==> exists i :: 0 <= i < k && OfPatient(rows[i], p)
      invariant forall p :: p in groups ==> groups[p] == VisitSet(rows[..k], p)
    {
      var s := rows[k];
      assert rows[..k + 1] == rows[..k] + [s];
      forall p | p in groups
        ensures VisitSet(rows[..k + 1], p) == VisitSet(rows[..k], p) + (if OfPatient(s, p) then {s.visitShort} else {})
      {
        VisitSetSnoc(rows[..k], s, p);
      }
      if Usable(s) {
        var p := s.patient.value;
        VisitSetSnoc(rows[..k], s, p);
        if p in groups {
          groups := groups[p := groups[p] + {s.visitShort}];
        } else {
          assert VisitSet(rows[..k], p) == {};
          groups := groups[p := {s.visitShort}];
        }
      }
    }
    assert rows[..|rows|] == rows;
  }

  /** `paired_pts`: the patients whose visit set is exactly {Pre, On}. */
  method PairedPatients(rows: seq<Sample>) returns (paired: set<string>)
    ensures forall p :: p in paired <==> IsPaired(rows, p)
  {
    var groups := GroupVisits(rows);
    paired := set p | p in groups && groups[p] == {Some("Pre"), Some("On")};
    forall p | IsPaired(rows, p)
      ensures p in groups
    {
      assert Some("Pre") in VisitSet(rows, p);
    }
  }

  /** A patient is paired exactly when it has a usable Pre row and a usable On
      row and no usable row with any other visit, a missing one included. */
  lemma PairedMeansBothVisits(rows: seq<Sample>, p: string)
    ensures IsPaired(rows, p) <==>
      (exists i :: 0 <= i < |rows| && OfPatient(rows[i], p) && rows[i].visitShort == Some("Pre"))
      && (exists i :: 0 <= i < |rows| && OfPatient(rows[i], p) && rows[i].visitShort == Some("On"))
      && (forall i :: 0 <= i < |rows| && OfPatient(rows[i], p) ==>
            rows[i].visitShort == Some("Pre") || rows[i].visitShort == Some("On"))
  {
    var vs := VisitSet(rows, p);
    if IsPaired(rows, p) {
      assert Some("Pre") in vs;
      assert Some("On") in vs;
      forall i | 0 <= i < |rows| && OfPatient(rows[i], p)
        ensures rows[i].visitShort == Some("Pre") || rows[i].visitShort == Some("On")
      {
        assert rows[i].visitShort in vs;
      }
    }
  }
}
