/** One pass of the page: the sidebar's values select the view; an empty view
    stops the page with a warning before anything is aggregated; otherwise the
    KPI cards and the revenue heat map are computed from the view. */
module Page {
  import opened Records
  import opened Views
  import opened Aggregates
  import opened Pivot

  datatype Page =
    | Stopped                         // st.warning(...) followed by st.stop()
    | Dashboard(view: seq<Record>, kpis: Kpis, heatmap: map<(string, int), real>)

  function Render(df: seq<Record>, anioMin: int, anioMax: int, paisesSel: seq<string>): (page: Page)
    ensures page.Stopped? <==>
      forall r :: r in df ==> !(anioMin <= r.anio <= anioMax && r.pais in paisesSel)
    ensures paisesSel == [] ==> page.Stopped?
    ensures page.Dashboard? ==>
      && page.view == Filter(df, anioMin, anioMax, paisesSel)
      && |page.view| > 0
      && |paisesSel| > 0
      && page.kpis == Summarize(page.view)
      && page.heatmap == PivotFacturacion(page.view)
  {
    var view := Filter(df, anioMin, anioMax, paisesSel);
    if view == [] then Stopped
    else
      assert view[0] in view;
      Dashboard(view, Summarize(view), PivotFacturacion(view))
  }

  predicate Selected(r: Record, anioMin: int, anioMax: int, paisesSel: seq<string>)
  {
    anioMin <= r.anio <= anioMax && r.pais in paisesSel
  }

  /** The total of measure `m` over the selected rows of the table, walking
      the table row by row. */
  function SelectedTotal(df: seq<Record>, anioMin: int, anioMax: int, paisesSel: seq<string>, m: Measure): real
  {
    if df == [] then 0.0
    else
      var here := if Selected(df[0], anioMin, anioMax, paisesSel) then Value(df[0], m) else 0.0;
      here + SelectedTotal(df[1..], anioMin, anioMax, paisesSel, m)
  }

  /** A column total over the filtered table is the total over the selected
      rows of the whole table. */
  lemma {:induction false} FilteredTotal(df: seq<Record>, anioMin: int, anioMax: int, paisesSel: seq<string>, m: Measure)
    ensures Sum(Column(Filter(df, anioMin, anioMax, paisesSel), m)) == SelectedTotal(df, anioMin, anioMax, paisesSel, m)
  {
    if df != [] {
      FilteredTotal(df[1..], anioMin, anioMax, paisesSel, m);
      var g := GlobalMask(anioMin, anioMax, paisesSel);
      var head := if Holds(g, df[0]) then [df[0]] else [];
      assert Filter(df, anioMin, anioMax, paisesSel) == head + Filter(df[1..], anioMin, anioMax, paisesSel);
      SummarizeTotalsAppend(head, Filter(df[1..], anioMin, anioMax, paisesSel), m);
      if head != [] {
        assert Column(head, m) == [Value(df[0], m)];
        assert Column(head, m)[1..] == [];
      } else {
        assert Column(head, m) == [];
      }
    }
  }

  /** On a rendered page the copies, revenue and titles cards are the totals
      over the selected rows of the table. */
  lemma CardTotals(df: seq<Record>, anioMin: int, anioMax: int, paisesSel: seq<string>)
    ensures var page := Render(df, anioMin, anioMax, paisesSel);
      page.Dashboard? ==>
        && page.kpis.totalEjemplares == SelectedTotal(df, anioMin, anioMax, paisesSel, Ejemplares)
        && page.kpis.totalFacturacion == SelectedTotal(df, anioMin, anioMax, paisesSel, Facturacion)
        && page.kpis.totalTitulos == SelectedTotal(df, anioMin, anioMax, paisesSel, Titulos)
  {
    FilteredTotal(df, anioMin, anioMax, paisesSel, Ejemplares);
    FilteredTotal(df, anioMin, anioMax, paisesSel, Facturacion);
    FilteredTotal(df, anioMin, anioMax, paisesSel, Titulos);
  }

  /** When a measure has no negative value in the view, no row's value exceeds
      the card total of that measure. */
  lemma CardTotalBoundsEachRow(view: seq<Record>, m: Measure, i: nat)
    requires i < |view|
    requires forall r :: r in view ==> 0.0 <= Value(r, m)
    ensures 0.0 <= Value(view[i], m) <= Sum(Column(view, m))
  {
    var col := Column(view, m);
    assert forall j :: 0 <= j < |col| ==> view[j] in view && col[j] == Value(view[j], m);
    SumAtLeastEachNonNegative(col, i);
  }
}
