/** The revenue heat map: a country-by-year table whose cells are the mean
    revenue of the rows of the view for that country and year. */
module Pivot {
  import opened Records
  import opened Views
  import opened Aggregates

  /** `Series.mean()` on a non-empty column. */
  function Mean(xs: seq<real>): real
    requires |xs| > 0
  {
    Sum(xs) / |xs| as real
  }

  /** The mean of values that all lie in [lo, hi] lies in [lo, hi]; in
      particular the mean of equal values is that value. */
  lemma MeanWithinBounds(xs: seq<real>, lo: real, hi: real)
    requires |xs| > 0
    requires forall i :: 0 <= i < |xs| ==> lo <= xs[i] <= hi
    ensures lo <= Mean(xs) <= hi
  {
    var n := |xs| as real;
    SumWithinBounds(xs, lo, hi);
    assert Mean(xs) * n == Sum(xs);
  }

  /** The (country, year) pairs that occur in the view. */
  function Pares(view: seq<Record>): set<(string, int)>
  {
    set r | r in view :: (r.pais, r.anio)
  }

  /** The rows of the view for one country and year. */
  function Grupo(view: seq<Record>, pais: string, anio: int): (rows: seq<Record>)
    ensures forall r :: r in rows <==> r in view && r.pais == pais && r.anio == anio
  {
    var m := And(PaisEquals(pais), AnioEquals(anio));
    assert forall r :: Holds(m, r) <==> r.pais == pais && r.anio == anio;
    Keep(view, m)
  }

  /** `pivot_table(index="pais", columns="anio",
      values="facturacion_estimada_millones_usd", aggfunc="mean")`, with a cell
      only for the pairs that occur in the view. */
  function PivotFacturacion(view: seq<Record>): (table: map<(string, int), real>)
    ensures forall k :: k in table <==> exists r :: r in view && (r.pais, r.anio) == k
  {
    map k | k in Pares(view) && Grupo(view, k.0, k.1) != [] :: Mean(Column(Grupo(view, k.0, k.1), Facturacion))
  }

  /** The cell of a row's (country, year) pair lies within any bounds that
      the revenue of every row with that pair respects. */
  lemma PivotCellWithinBounds(view: seq<Record>, i: nat, lo: real, hi: real)
    requires i < |view|
    requires forall r :: r in view && r.pais == view[i].pais && r.anio == view[i].anio ==>
      lo <= r.facturacionEstimadaMillonesUsd <= hi
    ensures (view[i].pais, view[i].anio) in PivotFacturacion(view)
    ensures lo <= PivotFacturacion(view)[(view[i].pais, view[i].anio)] <= hi
  {
    var g := Grupo(view, view[i].pais, view[i].anio);
    var col := Column(g, Facturacion);
    assert view[i] in g;
    assert forall j :: 0 <= j < |col| ==> g[j] in g && col[j] == g[j].facturacionEstimadaMillonesUsd;
    MeanWithinBounds(col, lo, hi);
  }

  /** When no other row of the view shares row `i`'s (country, year) pair,
      that row's revenue appears unchanged in the cell of its pair. */
  lemma PivotOneRowPerPair(view: seq<Record>, i: nat)
    requires i < |view|
    requires forall j :: 0 <= j < |view| && j != i ==> (view[j].pais, view[j].anio) != (view[i].pais, view[i].anio)
    ensures (view[i].pais, view[i].anio) in PivotFacturacion(view)
    ensures PivotFacturacion(view)[(view[i].pais, view[i].anio)] == view[i].facturacionEstimadaMillonesUsd
  {
    var r := view[i];
    var k := (r.pais, r.anio);
    var m := And(PaisEquals(r.pais), AnioEquals(r.anio));
    forall j | 0 <= j < |view| && j != i ensures !Holds(m, view[j]) {
      assert (view[j].pais, view[j].anio) != k;
    }
    KeepSingleMatch(view, m, i);
    var g := Grupo(view, r.pais, r.anio);
    assert g == [r];
    assert k in Pares(view);
    var col := Column(g, Facturacion);
    assert col == [r.facturacionEstimadaMillonesUsd];
    assert Sum(col) == r.facturacionEstimadaMillonesUsd by {
      assert col[1..] == [];
    }
    assert PivotFacturacion(view)[k] == Mean(col);
  }

  /** The number of rows of the view with pair `k`, counted row by row. */
  function PairCount(view: seq<Record>, k: (string, int)): nat
  {
    if view == [] then 0
    else (if (view[0].pais, view[0].anio) == k then 1 else 0) + PairCount(view[1..], k)
  }

  /** The total revenue of the rows of the view with pair `k`, row by row. */
  function PairTotal(view: seq<Record>, k: (string, int)): real
  {
    if view == [] then 0.0
    else
      var here := if (view[0].pais, view[0].anio) == k then view[0].facturacionEstimadaMillonesUsd else 0.0;
      here + PairTotal(view[1..], k)
  }

  /** The group of a pair has as many rows, and as much revenue, as the
      row-by-row walk finds. */
  lemma {:induction false} GrupoMatchesWalk(view: seq<Record>, k: (string, int))
    ensures |Grupo(view, k.0, k.1)| == PairCount(view, k)
    ensures Sum(Column(Grupo(view, k.0, k.1), Facturacion)) == PairTotal(view, k)
  {
    if view != [] {
      GrupoMatchesWalk(view[1..], k);
      var m := And(PaisEquals(k.0), AnioEquals(k.1));
      var head := if Holds(m, view[0]) then [view[0]] else [];
      assert Grupo(view, k.0, k.1) == head + Grupo(view[1..], k.0, k.1);
      SummarizeTotalsAppend(head, Grupo(view[1..], k.0, k.1), Facturacion);
      if head != [] {
        assert Column(head, Facturacion) == [view[0].facturacionEstimadaMillonesUsd];
        assert Column(head, Facturacion)[1..] == [];
      } else {
        assert Column(head, Facturacion) == [];
      }
    }
  }

  /** Every cell of the heat map is the mean revenue of its pair: the cell of
      row `i`'s (country, year) pair is the total revenue of the rows with
      that pair divided by their number, which is never zero. Every cell is
      reached this way, since each key is the pair of some row. */
  lemma PivotCellIsMean(view: seq<Record>, i: nat)
    requires i < |view|
    ensures (view[i].pais, view[i].anio) in PivotFacturacion(view)
    ensures PairCount(view, (view[i].pais, view[i].anio)) > 0
    ensures PivotFacturacion(view)[(view[i].pais, view[i].anio)]
      == PairTotal(view, (view[i].pais, view[i].anio)) / PairCount(view, (view[i].pais, view[i].anio)) as real
  {
    var k := (view[i].pais, view[i].anio);
    var g := Grupo(view, k.0, k.1);
    assert view[i] in g;
    assert k in Pares(view);
    assert PivotFacturacion(view)[k] == Mean(Column(g, Facturacion));
    GrupoMatchesWalk(view, k);
  }
}
