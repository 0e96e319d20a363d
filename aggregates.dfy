/** The KPI cards: three column totals, one column maximum, and the country
    and year of the row with the largest revenue. */
module Aggregates {
  import opened Records

  /** `Series.sum()`: the total of a column, 0 for an empty column. */
  function Sum(xs: seq<real>): real
  {
    if xs == [] then 0.0 else xs[0] + Sum(xs[1..])
  }

  /** The total of two stretches of a column is the sum of their totals. */
  lemma {:induction false} SumAppend(a: seq<real>, b: seq<real>)
    ensures Sum(a + b) == Sum(a) + Sum(b)
  {
    if a == [] {
      assert a + b == b;
    } else {
      assert (a + b)[1..] == a[1..] + b;
      SumAppend(a[1..], b);
    }
  }

  /** A column whose values all lie in [lo, hi] totals between n * lo and
      n * hi, for n its number of rows. */
  lemma {:induction false} SumWithinBounds(xs: seq<real>, lo: real, hi: real)
    requires forall i :: 0 <= i < |xs| ==> lo <= xs[i] <= hi
    ensures |xs| as real * lo <= Sum(xs) <= |xs| as real * hi
  {
    if xs != [] {
      SumWithinBounds(xs[1..], lo, hi);
      assert |xs| as real * lo == lo + |xs[1..]| as real * lo;
      assert |xs| as real * hi == hi + |xs[1..]| as real * hi;
    }
  }

  /** In a column without negative values every value is at most the total. */
  lemma {:induction false} SumAtLeastEachNonNegative(xs: seq<real>, k: nat)
    requires forall i :: 0 <= i < |xs| ==> 0.0 <= xs[i]
    requires k < |xs|
    ensures 0.0 <= xs[k] <= Sum(xs)
  {
    if k > 0 {
      SumAtLeastEachNonNegative(xs[1..], k - 1);
    } else if |xs| > 1 {
      SumAtLeastEachNonNegative(xs[1..], 0);
    }
  }

  /** `Series.max()` on a non-empty column. */
  function Max(xs: seq<real>): (m: real)
    requires |xs| > 0
    ensures m in xs
    ensures forall i :: 0 <= i < |xs| ==> xs[i] <= m
  {
    if |xs| == 1 then xs[0]
    else
      var rest := Max(xs[1..]);
      if xs[0] >= rest then xs[0] else rest
  }

  /** `Series.idxmax()` on a non-empty column, as a position: the first
      position holding the largest value. */
  function IdxMax(xs: seq<real>): (k: nat)
    requires |xs| > 0
    ensures k < |xs|
    ensures forall i :: 0 <= i < |xs| ==> xs[i] <= xs[k]
    ensures forall i :: 0 <= i < k ==> xs[i] < xs[k]
  {
    if |xs| == 1 then 0
    else
      var k := IdxMax(xs[..|xs| - 1]);
      if xs[|xs| - 1] > xs[k] then |xs| - 1 else k
  }

  /** The values on the KPI cards. */
  datatype Kpis = Kpis(
    totalEjemplares: real,
    totalFacturacion: real,
    maxPerCapita: real,
    totalTitulos: real,
    paisLider: string,
    paisLiderAnio: int)

  /** The row of the view with the largest revenue, the first one on a tie. */
  function Lider(view: seq<Record>): (lider: Record)
    requires |view| > 0
    ensures exists i :: (
      && 0 <= i < |view| && view[i] == lider
      && (forall j :: 0 <= j < |view| ==> view[j].facturacionEstimadaMillonesUsd <= lider.facturacionEstimadaMillonesUsd)
      && (forall j :: 0 <= j < i ==> view[j].facturacionEstimadaMillonesUsd < lider.facturacionEstimadaMillonesUsd))
  {
    var col := Column(view, Facturacion);
    var k := IdxMax(col);
    assert forall j :: 0 <= j < |view| ==> view[j].facturacionEstimadaMillonesUsd == col[j];
    view[k]
  }

  /** The KPI cards of a non-empty view. Both leader fields are read from the
      one row `idxmax` points at. */
  function Summarize(view: seq<Record>): (k: Kpis)
    requires |view| > 0
    ensures forall r :: r in view ==> r.ejemplaresPerCapita <= k.maxPerCapita
    ensures exists r :: r in view && r.ejemplaresPerCapita == k.maxPerCapita
    ensures exists i :: (
      && 0 <= i < |view| && (view[i].pais, view[i].anio) == (k.paisLider, k.paisLiderAnio)
      && (forall j :: 0 <= j < |view| ==> view[j].facturacionEstimadaMillonesUsd <= view[i].facturacionEstimadaMillonesUsd)
      && (forall j :: 0 <= j < i ==> view[j].facturacionEstimadaMillonesUsd < view[i].facturacionEstimadaMillonesUsd))
  {
    var perCapita := Column(view, PerCapita);
    var maxPerCapita := Max(perCapita);
    assert exists i :: 0 <= i < |view| && perCapita[i] == maxPerCapita;
    var lider := Lider(view);
    Kpis(
      Sum(Column(view, Ejemplares)),
      Sum(Column(view, Facturacion)),
      maxPerCapita,
      Sum(Column(view, Titulos)),
      lider.pais,
      lider.anio)
  }

  /** A view of a single row shows that row's own values on every card. */
  lemma SummarizeSingleRow(r: Record)
    ensures Summarize([r]) == Kpis(
      r.ejemplaresProducidosMillones,
      r.facturacionEstimadaMillonesUsd,
      r.ejemplaresPerCapita,
      r.titulosRegistradosIsbn,
      r.pais,
      r.anio)
  {
    forall m: Measure ensures Sum(Column([r], m)) == Value(r, m) {
      assert Column([r], m) == [Value(r, m)];
      assert [Value(r, m)][1..] == [];
    }
  }

  /** Argentina with 100 and México with 250 in 2020: México leads, in 2020. */
  lemma LeaderExample(argentina: Record, mexico: Record)
    requires argentina.pais == "Argentina" && argentina.anio == 2020
    requires argentina.facturacionEstimadaMillonesUsd == 100.0
    requires mexico.pais == "México" && mexico.anio == 2020
    requires mexico.facturacionEstimadaMillonesUsd == 250.0
    ensures Summarize([argentina, mexico]).paisLider == "México"
    ensures Summarize([argentina, mexico]).paisLiderAnio == 2020
  {
  }

  /** On a revenue tie the earlier row of the view leads. */
  lemma LeaderTieGoesToFirst(first: Record, second: Record)
    requires first.facturacionEstimadaMillonesUsd == second.facturacionEstimadaMillonesUsd
    ensures Summarize([first, second]).paisLider == first.pais
    ensures Summarize([first, second]).paisLiderAnio == first.anio
  {
  }

  /** Appending rows to a view adds their totals to the card totals. */
  lemma {:induction false} SummarizeTotalsAppend(a: seq<Record>, b: seq<Record>, m: Measure)
    ensures Sum(Column(a + b, m)) == Sum(Column(a, m)) + Sum(Column(b, m))
  {
    assert Column(a + b, m) == Column(a, m) + Column(b, m);
    SumAppend(Column(a, m), Column(b, m));
  }
}
