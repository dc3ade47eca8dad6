/** Finding the three GJS genes in the row index of the nivolumab expression
    matrix: a case-insensitive exact name, else a name containing the gene, else
    the gene's Entrez identifier as a number, else as a string. */
module RiazGenes {
  import opened Wrappers
  import opened Text
  import opened Gjs

  /** A row label: the index may hold numbers (Entrez identifiers) or strings. */
  datatype IndexKey = IntKey(n: int) | StrKey(s: string)

  /** `str(idx)`. */
  function KeyText(k: IndexKey): string
  {
    match k
    case IntKey(n) => IntToDecimal(n)
    case StrKey(s) => s
  }

  /** `str(idx).upper() == gene.upper()` when `exact`, `gene.upper() in
      str(idx).upper()` otherwise. */
  predicate NameMatch(k: IndexKey, gene: string, exact: bool)
  {
    if exact then Upper(KeyText(k)) == Upper(gene) else Contains(Upper(KeyText(k)), Upper(gene))
  }

  /** Position `i` holds the first label that matches. */
  predicate FirstMatchAt(index: seq<IndexKey>, gene: string, exact: bool, i: int)
  {
    0 <= i < |index| && NameMatch(index[i], gene, exact)
    && forall j :: 0 <= j < i ==> !NameMatch(index[j], gene, exact)
  }

  /** `matches[0]` of the list comprehension: the first label in index order
      that matches. */
  function FirstMatch(index: seq<IndexKey>, gene: string, exact: bool): (r: Option<IndexKey>)
    ensures r.None? <==> forall k :: k in index ==> !NameMatch(k, gene, exact)
    ensures r.Some? ==> exists i :: FirstMatchAt(index, gene, exact, i) && index[i] == r.value
  {
    if |index| == 0 then None
    else if NameMatch(index[0], gene, exact) then
      assert FirstMatchAt(index, gene, exact, 0);
      Some(index[0])
    else
      var r := FirstMatch(index[1..], gene, exact);
      assert forall k :: k in index <==> k == index[0] || k in index[1..];
      assert r.Some? ==> exists i :: FirstMatchAt(index, gene, exact, i) && index[i] == r.value by {
        if r.Some? {
          var i :| FirstMatchAt(index[1..], gene, exact, i) && index[1..][i] == r.value;
          assert forall j :: 0 < j < i + 1 ==> index[j] == index[1..][j - 1];
          assert FirstMatchAt(index, gene, exact, i + 1);
        }
      }
      r
  }

  /** The name stage of one gene: an exact match, else a partial one. */
  function ByName(index: seq<IndexKey>, gene: string): Option<IndexKey>
  {
    var exact := FirstMatch(index, gene, true);
    if exact.Some? then exact else FirstMatch(index, gene, false)
  }

  /** `entrez_map`. */
  function Entrez(gene: string): int
  {
    if gene == HK2 then 3099 else if gene == BCL2L1 then 598 else 706
  }

  /** The Entrez stage: the identifier as a number, else as its decimal string. */
  function ByEntrez(index: seq<IndexKey>, gene: string): Option<IndexKey>
  {
    var eid := Entrez(gene);
    if IntKey(eid) in index then Some(IntKey(eid))
    else if StrKey(IntToDecimal(eid)) in index then Some(StrKey(IntToDecimal(eid)))
    else None
  }

  /** The label chosen for one gene, if any. */
  function Resolve(index: seq<IndexKey>, gene: string): (r: Option<IndexKey>)
    ensures r.Some? ==> r.value in index
  {
    var name := ByName(index, gene);
    if name.Some? then name else ByEntrez(index, gene)
  }

  /** `still_missing`, in the order HK2, BCL2L1, TSPO. */
  function Unresolved(index: seq<IndexKey>, genes: seq<string>): (r: seq<string>)
    ensures forall g :: g in r <==> g in genes && Resolve(index, g).None?
  {
    if |genes| == 0 then []
    else
      var rest := Unresolved(index, genes[1..]);
      assert forall g :: g in genes <==> g == genes[0] || g in genes[1..];
      if Resolve(index, genes[0]).None? then [genes[0]] + rest else rest
  }

  /** The resolution of each of the three genes. */
  function Resolutions(index: seq<IndexKey>): (r: map<string, Option<IndexKey>>)
    ensures forall g :: g in r <==> g in GJS_GENES
    ensures forall g :: g in r ==> r[g] == Resolve(index, g)
  {
    map g | g in GJS_GENES :: Resolve(index, g)
  }

  /** The label of every gene, or the fatal list of the genes not found. */
  function ResolveAll(index: seq<IndexKey>): Result<map<string, IndexKey>, seq<string>>
  {
    var still := Unresolved(index, GJS_GENES);
    if |still| > 0 then Err(still)
    else Ok(Labels(Resolutions(index)))
  }

  /** The genes of `names` whose entry in the `GENES` table is still empty, in order. */
  function Pending(table: map<string, Option<IndexKey>>, names: seq<string>): (r: seq<string>)
    requires forall g :: g in names ==> g in table
    ensures forall g :: g in r <==> g in names && table[g].None?
  {
    if |names| == 0 then []
    else
      var rest := Pending(table, names[1..]);
      assert forall g :: g in names <==> g == names[0] || g in names[1..];
      if table[names[0]].None? then [names[0]] + rest else rest
  }

  /** Once the table holds each gene's resolution, its empty entries are the
      unresolved genes, in the same order. */
  lemma {:induction false} PendingUnresolved(table: map<string, Option<IndexKey>>, index: seq<IndexKey>, names: seq<string>)
    requires forall g :: g in names ==> g in table && table[g] == Resolve(index, g)
    ensures Pending(table, names) == Unresolved(index, names)
  {
    if |names| > 0 {
      PendingUnresolved(table, index, names[1..]);
    }
  }

  /** `[g for g, v in GENES.items() if v is None]` over the three genes. */
  method MissingOf(table: map<string, Option<IndexKey>>) returns (missing: seq<string>)
    requires forall g :: g in GJS_GENES ==> g in table
    ensures missing == Pending(table, GJS_GENES)
  {
    missing := [];
    var i := |GJS_GENES|;
    while i > 0
      invariant 0 <= i <= |GJS_GENES|
      invariant missing == Pending(table, GJS_GENES[i..])
    {
      i := i - 1;
      var g := GJS_GENES[i];
      assert GJS_GENES[i..][1..] == GJS_GENES[i + 1..];
      if table[g].None? {
        missing := [g] + missing;
      }
    }
  }

  lemma GeneNamesDistinct()
    ensures HK2 != BCL2L1 && HK2 != TSPO && BCL2L1 != TSPO
  {
    assert HK2[0] != BCL2L1[0] && BCL2L1[0] != TSPO[0];
    assert |HK2| != |TSPO|;
  }

  /** `GENES` before either loop: every gene of `names` with no label. */
  function Unset(names: seq<string>): (r: map<string, Option<IndexKey>>)
    ensures forall g :: g in r <==> g in names
    ensures forall g :: g in r ==> r[g].None?
  {
    map g | g in names :: None
  }

  /** The table after the name loop has visited `done`: each visited gene
      takes its name match when there is one. */
  ghost function NameFill(index: seq<IndexKey>, done: seq<string>): map<string, Option<IndexKey>>
  {
    if |done| == 0 then Unset(GJS_GENES)
    else
      var table := NameFill(index, done[..|done| - 1]);
      var gene := done[|done| - 1];
      var matches := ByName(index, gene);
      if matches.Some? then table[gene := matches] else table
  }

  /** What the name loop leaves in each entry, whatever the order of the visits. */
  lemma {:induction false} NameFillEntries(index: seq<IndexKey>, done: seq<string>)
    requires forall g :: g in done ==> g in GJS_GENES
    ensures forall g :: g in NameFill(index, done) <==> g in GJS_GENES
    ensures forall g :: g in NameFill(index, done) ==>
      NameFill(index, done)[g] == if g in done then ByName(index, g) else None
  {
    if |done| > 0 {
      var prefix := done[..|done| - 1];
      assert forall g :: g in done <==> g in prefix || g == done[|done| - 1];
      NameFillEntries(index, prefix);
    }
  }

  /** The name loop: each gene's exact match, else its partial match. */
  method NameStage(index: seq<IndexKey>) returns (table: map<string, Option<IndexKey>>)
    ensures forall g :: g in table <==> g in GJS_GENES
    ensures forall g :: g in table ==> table[g] == ByName(index, g)
  {
    table := Unset(GJS_GENES);
    for i := 0 to |GJS_GENES|
      invariant table == NameFill(index, GJS_GENES[..i])
    {
      var gene := GJS_GENES[i];
      var matches := ByName(index, gene);
      assert GJS_GENES[..i + 1][..i] == GJS_GENES[..i];
      if matches.Some? {
        table := table[gene := matches];
      }
    }
    assert GJS_GENES[..|GJS_GENES|] == GJS_GENES;
    NameFillEntries(index, GJS_GENES);
  }

  /** The table after the Entrez loop has visited `done`: each visited gene
      takes its Entrez label when the index has one. */
  ghost function EntrezFill(index: seq<IndexKey>, named: map<string, Option<IndexKey>>, done: seq<string>): map<string, Option<IndexKey>>
  {
    if |done| == 0 then named
    else
      var table := EntrezFill(index, named, done[..|done| - 1]);
      var gene := done[|done| - 1];
      var found := ByEntrez(index, gene);
      if found.Some? then table[gene := found] else table
  }

  /** What the Entrez loop leaves in each entry, whatever the order of the visits. */
  lemma {:induction false} EntrezFillEntries(index: seq<IndexKey>, named: map<string, Option<IndexKey>>, done: seq<string>)
    requires forall g :: g in done ==> g in named
    ensures forall g :: g in EntrezFill(index, named, done) <==> g in named
    ensures forall g :: g in EntrezFill(index, named, done) ==>
      EntrezFill(index, named, done)[g] == if g in done && ByEntrez(index, g).Some? then ByEntrez(index, g) else named[g]
  {
    if |done| > 0 {
      var prefix := done[..|done| - 1];
      assert forall g :: g in done <==> g in prefix || g == done[|done| - 1];
      EntrezFillEntries(index, named, prefix);
    }
  }

  /** The Entrez loop over the genes the name loop left empty. */
  method EntrezStage(index: seq<IndexKey>, named: map<string, Option<IndexKey>>, missing: seq<string>)
    returns (table: map<string, Option<IndexKey>>)
    requires forall g :: g in named <==> g in GJS_GENES
    requires forall g :: g in named ==> named[g] == ByName(index, g)
    requires missing == Pending(named, GJS_GENES)
    ensures forall g :: g in table <==> g in GJS_GENES
    ensures forall g :: g in table ==> table[g] == Resolve(index, g)
  {
    table := named;
    for i := 0 to |missing|
      invariant table == EntrezFill(index, named, missing[..i])
    {
      var gene := missing[i];
      ghost var found := ByEntrez(index, gene);
      assert missing[..i + 1][..i] == missing[..i];
      assert EntrezFill(index, named, missing[..i + 1]) == if found.Some? then table[gene := found] else table;
      var eid := Entrez(gene);
      if IntKey(eid) in index {
        table := table[gene := Some(IntKey(eid))];
      } else if StrKey(IntToDecimal(eid)) in index {
        table := table[gene := Some(StrKey(IntToDecimal(eid)))];
      }
    }
    assert missing[..|missing|] == missing;
    EntrezFillEntries(index, named, missing);
    EntrezFilled(index, named, missing, table);
  }

  /** After the Entrez loop every entry is the gene's resolution: the name
      match where there was one, the Entrez label otherwise. */
  lemma EntrezFilled(index: seq<IndexKey>, named: map<string, Option<IndexKey>>, missing: seq<string>,
                     table: map<string, Option<IndexKey>>)
    requires forall g :: g in named ==> named[g] == ByName(index, g)
    requires forall g :: g in missing <==> g in named && named[g].None?
    requires forall g :: g in table <==> g in named
    requires forall g :: g in table ==> table[g] == if g in missing && ByEntrez(index, g).Some? then ByEntrez(index, g) else named[g]
    ensures forall g :: g in table ==> table[g] == Resolve(index, g)
  {
  }

  /** Step 4 of the analysis: the `GENES` table filled by the name loop and then,
      for the genes still missing, by the Entrez loop; the run stops when a gene
      stays missing. */
  method ResolveGenes(index: seq<IndexKey>) returns (res: Result<map<string, IndexKey>, seq<string>>)
    ensures res == ResolveAll(index)
  {
    var named := NameStage(index);
    var missing := MissingOf(named);
    var table := EntrezStage(index, named, missing);
    var still := MissingOf(table);
    PendingUnresolved(table, index, GJS_GENES);
    if |still| > 0 {
      res := Err(still);
    } else {
      ResolvedLabels(index, table);
      res := Ok(Labels(table));
    }
  }

  /** `GENES` once every gene has a label. */
  function Labels(table: map<string, Option<IndexKey>>): (r: map<string, IndexKey>)
    requires forall g :: g in GJS_GENES ==> g in table && table[g].Some?
    ensures forall g :: g in r <==> g in GJS_GENES
    ensures forall g :: g in r ==> table[g] == Some(r[g])
  {
    map g | g in GJS_GENES :: table[g].value
  }

  /** When no gene is left empty, the filled table gives the labels of `ResolveAll`. */
  lemma ResolvedLabels(index: seq<IndexKey>, table: map<string, Option<IndexKey>>)
    requires forall g :: g in table <==> g in GJS_GENES
    requires forall g :: g in table ==> table[g] == Resolve(index, g)
    requires Unresolved(index, GJS_GENES) == []
    ensures forall g :: g in GJS_GENES ==> g in table && table[g].Some?
    ensures ResolveAll(index) == Ok(Labels(table))
  {
    assert forall g :: g in GJS_GENES ==> Resolve(index, g).Some? by {
      forall g | g in GJS_GENES
        ensures Resolve(index, g).Some?
      {
        assert g !in Unresolved(index, GJS_GENES);
      }
    }
    assert table == Resolutions(index);
  }

  lemma ExactIsPartial(k: IndexKey, gene: string)
    requires NameMatch(k, gene, true)
    ensures NameMatch(k, gene, false)
  {
    assert OccursAt(Upper(KeyText(k)), Upper(gene), 0);
  }

  /** The first matching position determines `FirstMatch`. */
  lemma {:induction false} FirstMatchAtIs(index: seq<IndexKey>, gene: string, exact: bool, i: int)
    requires FirstMatchAt(index, gene, exact, i)
    ensures FirstMatch(index, gene, exact) == Some(index[i])
  {
    if i > 0 {
      assert !NameMatch(index[0], gene, exact);
      assert forall j :: 0 <= j < i - 1 ==> index[1..][j] == index[j + 1];
      assert FirstMatchAt(index[1..], gene, exact, i - 1);
      FirstMatchAtIs(index[1..], gene, exact, i - 1);
    }
  }

  /** An exact name wins over any partial one, wherever the partial one sits. */
  lemma ExactNameWins(index: seq<IndexKey>, gene: string, i: int)
    requires 0 <= i < |index| && NameMatch(index[i], gene, true)
    requires forall j :: 0 <= j < i ==> !NameMatch(index[j], gene, true)
    ensures Resolve(index, gene) == Some(index[i])
  {
    assert FirstMatchAt(index, gene, true, i);
    FirstMatchAtIs(index, gene, true, i);
    assert ByName(index, gene) == Some(index[i]);
  }

  /** The Entrez identifier is only used when no label contains the gene's name,
      and then the number wins over the string. */
  lemma EntrezOnlyWithoutName(index: seq<IndexKey>, gene: string)
    requires forall k :: k in index ==> !NameMatch(k, gene, false)
    ensures Resolve(index, gene) == ByEntrez(index, gene)
    ensures IntKey(Entrez(gene)) in index ==> Resolve(index, gene) == Some(IntKey(Entrez(gene)))
  {
    forall k | k in index
      ensures !NameMatch(k, gene, true)
    {
      if NameMatch(k, gene, true) {
        ExactIsPartial(k, gene);
      }
    }
  }

  /** A decimal Entrez label is never a name match for HK2, BCL2L1 or TSPO: the
      number and its string match only through the Entrez stage. */
  lemma EntrezLabelIsNoName(gene: string)
    requires gene in GJS_GENES
    ensures !NameMatch(IntKey(Entrez(gene)), gene, true)
    ensures !NameMatch(StrKey(IntToDecimal(Entrez(gene))), gene, true)
  {
    var text := IntToDecimal(Entrez(gene));
    assert '0' <= text[0] <= '9';
    assert Upper(text)[0] == text[0];
    assert Upper(gene)[0] == gene[0];
  }

  /** A map over exactly the three genes has them as its keys. */
  lemma GeneKeys(m: map<string, IndexKey>)
    requires forall g :: g in m <==> g in GJS_GENES
    ensures m.Keys == {HK2, BCL2L1, TSPO}
  {
    assert forall g :: g in GJS_GENES <==> g == HK2 || g == BCL2L1 || g == TSPO;
  }

  /** The run stops exactly when some gene resolves in neither stage, listing
      all such genes; otherwise every gene has a label from the index. */
  lemma ResolveAllLabels(index: seq<IndexKey>)
    ensures ResolveAll(index).Err? <==> exists g :: g in GJS_GENES && Resolve(index, g).None?
    ensures ResolveAll(index).Ok? ==>
      ResolveAll(index).value.Keys == {HK2, BCL2L1, TSPO}
      && forall g :: g in ResolveAll(index).value ==> ResolveAll(index).value[g] in index
  {
    var still := Unresolved(index, GJS_GENES);
    if |still| > 0 {
      assert still[0] in still;
    } else {
      var m := ResolveAll(index).value;
      assert forall g :: g in m <==> g in GJS_GENES;
      GeneKeys(m);
    }
  }
}
