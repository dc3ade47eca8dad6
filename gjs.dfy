/** The Gate-Jamming composite shared by the three scripts:
    tGJS = 0.4 * norm(HK2) + 0.3 * norm(BCL2L1) + 0.3 * norm(TSPO). */
module Gjs {
  import opened Wrappers
  import opened Stats

  const HK2 := "HK2"
  const BCL2L1 := "BCL2L1"
  const TSPO := "TSPO"
  const GJS_GENES: seq<string> := [HK2, BCL2L1, TSPO]

  /** The column holding the composite score. */
  const TGJS := "tGJS"

  /** The column holding a gene's normalised values, `f"{gene}_norm"`. */
  function NormName(gene: string): string
  {
    gene + "_norm"
  }

  const HK2_WEIGHT: real := 0.4
  const BCL2L1_WEIGHT: real := 0.3
  const TSPO_WEIGHT: real := 0.3

  /** The weights are non-negative and sum to one, so the composite is a convex
      combination: it lies between the smallest and largest normalised value. */
  lemma WeightsSumToOne()
    ensures HK2_WEIGHT >= 0.0 && BCL2L1_WEIGHT >= 0.0 && TSPO_WEIGHT >= 0.0
    ensures HK2_WEIGHT + BCL2L1_WEIGHT + TSPO_WEIGHT == 1.0
  {
  }

  /** The weighted sum of the three normalised values; equal values give that
      value back. */
  function Tgjs(h: real, b: real, t: real): (r: real)
    ensures h == b == t ==> r == h
  {
    HK2_WEIGHT * h + BCL2L1_WEIGHT * b + TSPO_WEIGHT * t
  }

  /** A composite of three values inside an interval stays inside it. */
  lemma TgjsBetween(h: real, b: real, t: real, lo: real, hi: real)
    requires lo <= h <= hi && lo <= b <= hi && lo <= t <= hi
    ensures lo <= Tgjs(h, b, t) <= hi
  {
  }

  /** The composite of one row with pandas' NaN propagation: missing as soon as any
      of the three normalised values is missing, never a partial sum. */
  function TgjsRow(h: Option<real>, b: Option<real>, t: Option<real>): (r: Option<real>)
    ensures r.Some? <==> h.Some? && b.Some? && t.Some?
    ensures r.Some? ==> r.value == Tgjs(h.value, b.value, t.value)
  {
    if h.Some? && b.Some? && t.Some? then Some(Tgjs(h.value, b.value, t.value)) else None
  }

  /** The composite column, element by element. */
  function TgjsColumn(h: seq<Option<real>>, b: seq<Option<real>>, t: seq<Option<real>>): (r: seq<Option<real>>)
    requires |h| == |b| == |t|
    ensures |r| == |h|
    ensures forall i :: 0 <= i < |r| ==> r[i] == TgjsRow(h[i], b[i], t[i])
  {
    seq(|h|, i requires 0 <= i < |h| => TgjsRow(h[i], b[i], t[i]))
  }

  // ---------------------------------------------------------------- scoring a frame

  /** A per-gene normalisation; each script has its own. */
  type Normalizer = Column -> Column

  /** The columns after normalising the first `k` GJS genes, in the order of the
      script's loop. */
  function NormalizedUpTo(cols: map<string, Column>, k: nat, norm: Normalizer): map<string, Column>
    requires k <= |GJS_GENES|
    requires forall j :: 0 <= j < k ==> GJS_GENES[j] in cols
  {
    if k == 0 then cols
    else
      var g := GJS_GENES[k - 1];
      NormalizedUpTo(cols, k - 1, norm)[NormName(g) := norm(cols[g])]
  }

  /** Normalising never touches a gene column itself. */
  lemma {:induction false} NormalizedKeepsGenes(cols: map<string, Column>, k: nat, g: string, norm: Normalizer)
    requires k <= |GJS_GENES|
    requires forall j :: 0 <= j < k ==> GJS_GENES[j] in cols
    requires g in GJS_GENES && g in cols
    ensures g in NormalizedUpTo(cols, k, norm) && NormalizedUpTo(cols, k, norm)[g] == cols[g]
  {
    if k > 0 {
      NormalizedKeepsGenes(cols, k - 1, g, norm);
      assert NormName(GJS_GENES[k - 1]) != g;
    }
  }

  /** The columns after scoring: three `_norm` columns and the composite. */
  function ScoredColumns(cols: map<string, Column>, norm: Normalizer): map<string, Column>
    requires HK2 in cols && BCL2L1 in cols && TSPO in cols
    requires |norm(cols[HK2])| == |norm(cols[BCL2L1])| == |norm(cols[TSPO])|
  {
    var h := norm(cols[HK2]);
    var b := norm(cols[BCL2L1]);
    var t := norm(cols[TSPO]);
    cols[NormName(HK2) := h][NormName(BCL2L1) := b][NormName(TSPO) := t][TGJS := TgjsColumn(h, b, t)]
  }

  /** After the loop over all three genes, the columns are those of `ScoredColumns`
      without the composite. */
  lemma NormalizedAll(cols: map<string, Column>, norm: Normalizer)
    requires HK2 in cols && BCL2L1 in cols && TSPO in cols
    ensures NormalizedUpTo(cols, 3, norm) == cols[NormName(HK2) := norm(cols[HK2])]
      [NormName(BCL2L1) := norm(cols[BCL2L1])][NormName(TSPO) := norm(cols[TSPO])]
  {
    assert NormalizedUpTo(cols, 1, norm) == cols[NormName(HK2) := norm(cols[HK2])];
    assert NormalizedUpTo(cols, 2, norm) == NormalizedUpTo(cols, 1, norm)[NormName(BCL2L1) := norm(cols[BCL2L1])];
  }

  /** Scoring keeps a frame well formed: every new column has one entry per row. */
  lemma ScoredWellFormed(df: Frame, norm: Normalizer)
    requires df.WellFormed() && HK2 in df.cols && BCL2L1 in df.cols && TSPO in df.cols
    requires |norm(df.cols[HK2])| == |norm(df.cols[BCL2L1])| == |norm(df.cols[TSPO])| == df.rows
    ensures Frame(df.rows, ScoredColumns(df.cols, norm)).WellFormed()
  {
  }
}
