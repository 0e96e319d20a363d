/** Boolean-mask selection on the table (`df[mask]`), the global filter of the
    sidebar, and the sub-views the page derives from the filtered table. */
module Views {
  import opened Records

  /** `rows[m]`: the rows for which mask `m` is true, in their original order. */
  function Keep(rows: seq<Record>, m: Mask): (kept: seq<Record>)
    ensures |kept| <= |rows|
    ensures forall r :: r in kept <==> r in rows && Holds(m, r)
  {
    if rows == [] then []
    else (if Holds(m, rows[0]) then [rows[0]] else []) + Keep(rows[1..], m)
  }

  /** `a` is obtained from `b` by deleting rows, without reordering. */
  predicate SubsequenceOf(a: seq<Record>, b: seq<Record>)
    decreases |b|
  {
    if a == [] then true
    else if b == [] then false
    else (a[0] == b[0] && SubsequenceOf(a[1..], b[1..])) || SubsequenceOf(a, b[1..])
  }

  /** Selection never reorders rows. */
  lemma {:induction false} KeepIsSubsequence(rows: seq<Record>, m: Mask)
    ensures SubsequenceOf(Keep(rows, m), rows)
  {
    if rows != [] {
      KeepIsSubsequence(rows[1..], m);
      var kept := Keep(rows, m);
      if Holds(m, rows[0]) {
        assert kept[0] == rows[0] && kept[1..] == Keep(rows[1..], m);
      } else {
        assert kept == Keep(rows[1..], m);
      }
    }
  }

  /** Selection distributes over concatenation; together with the one-row
      case this pins the result down completely. */
  lemma {:induction false} KeepAppend(a: seq<Record>, b: seq<Record>, m: Mask)
    ensures Keep(a + b, m) == Keep(a, m) + Keep(b, m)
  {
    if a == [] {
      assert a + b == b;
    } else {
      assert (a + b)[1..] == a[1..] + b;
      KeepAppend(a[1..], b, m);
    }
  }

  /** A row occurs in the selection exactly as often as in the table when the
      mask holds of it, and not at all otherwise. */
  lemma {:induction false} KeepMultiplicity(rows: seq<Record>, m: Mask, x: Record)
    ensures multiset(Keep(rows, m))[x] == if Holds(m, x) then multiset(rows)[x] else 0
  {
    if rows != [] {
      KeepMultiplicity(rows[1..], m, x);
      assert rows == [rows[0]] + rows[1..];
    }
  }

  /** Selecting twice is selecting once with the conjunction of the masks. */
  lemma {:induction false} KeepKeep(rows: seq<Record>, m1: Mask, m2: Mask)
    ensures Keep(Keep(rows, m1), m2) == Keep(rows, And(m1, m2))
  {
    if rows != [] {
      KeepKeep(rows[1..], m1, m2);
      var head := if Holds(m1, rows[0]) then [rows[0]] else [];
      KeepAppend(head, Keep(rows[1..], m1), m2);
    }
  }

  /** A mask that holds of every row selects the whole table, and only such a
      mask does. */
  lemma {:induction false} KeepAllIffAllHold(rows: seq<Record>, m: Mask)
    ensures Keep(rows, m) == rows <==> forall r :: r in rows ==> Holds(m, r)
  {
    if rows != [] {
      KeepAllIffAllHold(rows[1..], m);
      if forall r :: r in rows ==> Holds(m, r) {
        assert forall r :: r in rows[1..] ==> Holds(m, r);
      }
    }
  }

  /** Two masks that agree on every row of the table select the same rows. */
  lemma {:induction false} KeepCongruent(rows: seq<Record>, m1: Mask, m2: Mask)
    requires forall r :: r in rows ==> (Holds(m1, r) <==> Holds(m2, r))
    ensures Keep(rows, m1) == Keep(rows, m2)
  {
    if rows != [] {
      KeepCongruent(rows[1..], m1, m2);
    }
  }

  /** The selection is empty exactly when the mask holds of no row. */
  lemma {:induction false} KeepNoneIffNoneHold(rows: seq<Record>, m: Mask)
    ensures Keep(rows, m) == [] <==> forall r :: r in rows ==> !Holds(m, r)
  {
    if rows != [] {
      KeepNoneIffNoneHold(rows[1..], m);
    }
  }

  /** When the mask holds of exactly one position of the table, the
      selection is that one row. */
  lemma {:induction false} KeepSingleMatch(rows: seq<Record>, m: Mask, i: nat)
    requires i < |rows| && Holds(m, rows[i])
    requires forall j :: 0 <= j < |rows| && j != i ==> !Holds(m, rows[j])
    ensures Keep(rows, m) == [rows[i]]
  {
    if i > 0 {
      KeepSingleMatch(rows[1..], m, i - 1);
    } else {
      KeepNoneIffNoneHold(rows[1..], m);
    }
  }

  /** The mask of the sidebar: year range and selected countries. */
  function GlobalMask(anioMin: int, anioMax: int, paisesSel: seq<string>): (m: Mask)
    ensures forall r :: Holds(m, r) <==> anioMin <= r.anio <= anioMax && r.pais in paisesSel
  {
    var range := And(AnioAtLeast(anioMin), AnioAtMost(anioMax));
    assert forall r :: Holds(range, r) <==> anioMin <= r.anio <= anioMax;
    And(range, PaisIn(paisesSel))
  }

  /** `df_f`: the rows of the table within the selected years and countries,
      in table order. */
  function Filter(df: seq<Record>, anioMin: int, anioMax: int, paisesSel: seq<string>): (view: seq<Record>)
    ensures forall r :: r in view <==> r in df && anioMin <= r.anio <= anioMax && r.pais in paisesSel
    ensures paisesSel == [] ==> view == []
  {
    var view := Keep(df, GlobalMask(anioMin, anioMax, paisesSel));
    assert view != [] ==> view[0] in view;
    view
  }

  /** The filtered table is the table with rows deleted, never reordered. */
  lemma FilterIsSubsequence(df: seq<Record>, anioMin: int, anioMax: int, paisesSel: seq<string>)
    ensures SubsequenceOf(Filter(df, anioMin, anioMax, paisesSel), df)
  {
    KeepIsSubsequence(df, GlobalMask(anioMin, anioMax, paisesSel));
  }

  /** Filtering an already filtered table again with the same or a wider
      selection changes nothing. */
  lemma FilterAgainWider(df: seq<Record>, anioMin: int, anioMax: int, paisesSel: seq<string>,
                         anioMin': int, anioMax': int, paisesSel': seq<string>)
    requires anioMin' <= anioMin && anioMax <= anioMax'
    requires forall p :: p in paisesSel ==> p in paisesSel'
    ensures Filter(Filter(df, anioMin, anioMax, paisesSel), anioMin', anioMax', paisesSel')
            == Filter(df, anioMin, anioMax, paisesSel)
  {
    var view := Filter(df, anioMin, anioMax, paisesSel);
    KeepAllIffAllHold(view, GlobalMask(anioMin', anioMax', paisesSel'));
  }

  /** With the sidebar at its defaults (every available country, and a year
      range that covers the table) the filtered table is the whole table. */
  lemma FilterAtDefaultsIsWholeTable(df: seq<Record>, anioMin: int, anioMax: int, paisesSel: seq<string>)
    requires forall r :: r in df ==> anioMin <= r.anio <= anioMax && r.pais in paisesSel
    ensures Filter(df, anioMin, anioMax, paisesSel) == df
  {
    KeepAllIffAllHold(df, GlobalMask(anioMin, anioMax, paisesSel));
  }

  /** `df_anio`: the rows of the view for the comparison year. */
  function VistaAnio(view: seq<Record>, anioComp: int): (rows: seq<Record>)
    ensures forall r :: r in rows <==> r in view && r.anio == anioComp
  {
    Keep(view, AnioEquals(anioComp))
  }

  /** `df_pais`: the rows of the view for the country of the crisis chart. */
  function VistaPais(view: seq<Record>, paisCrisis: string): (rows: seq<Record>)
    ensures forall r :: r in rows <==> r in view && r.pais == paisCrisis
  {
    Keep(view, PaisEquals(paisCrisis))
  }

  /** `df_crisis`: the rows of a country's view whose `contexto` note is
      present and has at least one character that is not whitespace. */
  function VistaCrisis(vistaPais: seq<Record>): (rows: seq<Record>)
    ensures forall r :: r in rows <==>
      && r in vistaPais
      && r.contexto.Some?
      && exists i :: 0 <= i < |r.contexto.value| && !IsSpace(r.contexto.value[i])
  {
    var rows := Keep(vistaPais, ContextoNotBlank);
    forall r: Record | r.contexto.Some?
      ensures Strip(r.contexto.value) != "" <==>
        exists i :: 0 <= i < |r.contexto.value| && !IsSpace(r.contexto.value[i])
    {
      StripEmptyIffAllSpace(r.contexto.value);
    }
    rows
  }

  /** `df_dig`: the rows of the view that have a digital-format share. */
  function VistaDigital(view: seq<Record>): (rows: seq<Record>)
    ensures forall r :: r in rows <==> r in view && r.formatoDigitalPct.Some?
  {
    Keep(view, DigitalNotNa)
  }

  /** What the digital-adoption panel shows: a notice when no row of the view
      has a digital share, a line chart of those rows otherwise. */
  datatype DigitalPanel = SinDatosDigitales | GraficoDigital(rows: seq<Record>)

  function PanelDigital(view: seq<Record>): (panel: DigitalPanel)
    ensures panel.SinDatosDigitales? <==> forall r :: r in view ==> r.formatoDigitalPct.None?
    ensures panel.GraficoDigital? ==> |panel.rows| > 0 && panel.rows == VistaDigital(view)
  {
    var dig := VistaDigital(view);
    if dig == [] then SinDatosDigitales
    else assert dig[0] in dig; GraficoDigital(dig)
  }

  /** The comparison-year view of the filtered table is the filter narrowed
      to that single year (and is empty for a year outside the range). */
  lemma VistaAnioIsSingleYearFilter(df: seq<Record>, anioMin: int, anioMax: int, paisesSel: seq<string>, anioComp: int)
    ensures anioMin <= anioComp <= anioMax ==>
      VistaAnio(Filter(df, anioMin, anioMax, paisesSel), anioComp) == Filter(df, anioComp, anioComp, paisesSel)
    ensures !(anioMin <= anioComp <= anioMax) ==> VistaAnio(Filter(df, anioMin, anioMax, paisesSel), anioComp) == []
  {
    var g := GlobalMask(anioMin, anioMax, paisesSel);
    KeepKeep(df, g, AnioEquals(anioComp));
    var narrowed := Keep(df, And(g, AnioEquals(anioComp)));
    if anioMin <= anioComp <= anioMax {
      KeepCongruent(df, And(g, AnioEquals(anioComp)), GlobalMask(anioComp, anioComp, paisesSel));
    } else if narrowed != [] {
      assert narrowed[0] in narrowed;
    }
  }

  /** The crisis chart's country view is the filter narrowed to that one
      country, when the country is one of the selected ones. */
  lemma VistaPaisIsSingleCountryFilter(df: seq<Record>, anioMin: int, anioMax: int, paisesSel: seq<string>, paisCrisis: string)
    requires paisCrisis in paisesSel
    ensures VistaPais(Filter(df, anioMin, anioMax, paisesSel), paisCrisis) == Filter(df, anioMin, anioMax, [paisCrisis])
  {
    var g := GlobalMask(anioMin, anioMax, paisesSel);
    KeepKeep(df, g, PaisEquals(paisCrisis));
    KeepCongruent(df, And(g, PaisEquals(paisCrisis)), GlobalMask(anioMin, anioMax, [paisCrisis]));
  }
}
