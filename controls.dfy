/** The choices the widgets offer and their initial values: the sorted list
    of countries of the sidebar, and the years and initial year of the
    single-year comparison slider. */
module Controls {
  import opened Records
  import opened Views

  /** Python's `<` on `str`: lexicographic order by code point. */
  predicate Less(a: string, b: string)
    decreases |a|
  {
    if a == [] then b != []
    else if b == [] then false
    else if a[0] != b[0] then a[0] < b[0]
    else Less(a[1..], b[1..])
  }

  lemma {:induction false} LessIrreflexive(a: string)
    ensures !Less(a, a)
  {
    if a != [] {
      LessIrreflexive(a[1..]);
    }
  }

  lemma {:induction false} LessTransitive(a: string, b: string, c: string)
    requires Less(a, b) && Less(b, c)
    ensures Less(a, c)
    decreases |a|
  {
    if a != [] && b != [] && c != [] && a[0] == b[0] && b[0] == c[0] {
      LessTransitive(a[1..], b[1..], c[1..]);
    }
  }

  lemma {:induction false} LessTotal(a: string, b: string)
    requires a != b
    ensures Less(a, b) || Less(b, a)
    decreases |a|
  {
    if a != [] && b != [] && a[0] == b[0] {
      assert a == [a[0]] + a[1..] && b == [b[0]] + b[1..];
      LessTotal(a[1..], b[1..]);
    }
  }

  predicate StrictlySorted(xs: seq<string>)
  {
    forall i, j :: 0 <= i < j < |xs| ==> Less(xs[i], xs[j])
  }

  /** A strictly sorted list holds no name twice. */
  lemma StrictlySortedDistinct(xs: seq<string>, i: nat, j: nat)
    requires StrictlySorted(xs)
    requires i < j < |xs|
    ensures xs[i] != xs[j]
  {
    LessIrreflexive(xs[i]);
  }

  /** Adds `x` to a strictly sorted list, unless it is already there. */
  function Insert(xs: seq<string>, x: string): (r: seq<string>)
    requires StrictlySorted(xs)
    ensures StrictlySorted(r)
    ensures forall y :: y in r <==> y in xs || y == x
  {
    if xs == [] then [x]
    else if x == xs[0] then xs
    else if Less(x, xs[0]) then
      LessTransitiveInto(x, xs);
      [x] + xs
    else
      LessTotal(x, xs[0]);
      var rest := Insert(xs[1..], x);
      assert forall y :: y in rest ==> Less(xs[0], y);
      [xs[0]] + rest
  }

  /** Helper for Insert: a name below the head of a strictly sorted list is
      below every element of it. */
  lemma LessTransitiveInto(x: string, xs: seq<string>)
    requires StrictlySorted(xs) && xs != [] && Less(x, xs[0])
    ensures forall j :: 0 <= j < |xs| ==> Less(x, xs[j])
  {
    forall j | 0 < j < |xs| ensures Less(x, xs[j]) {
      LessTransitive(x, xs[0], xs[j]);
    }
  }

  /** `sorted(set(names))`: the distinct names, in increasing order. */
  function SortedUnique(names: seq<string>): (r: seq<string>)
    ensures StrictlySorted(r)
    ensures forall y :: y in r <==> y in names
  {
    if names == [] then []
    else Insert(SortedUnique(names[..|names| - 1]), names[|names| - 1])
  }

  lemma {:induction false} LessAsymmetric(a: string, b: string)
    ensures !(Less(a, b) && Less(b, a))
    decreases |a|
  {
    if a != [] && b != [] && a[0] == b[0] {
      LessAsymmetric(a[1..], b[1..]);
    }
  }

  /** The head of a strictly sorted list is below every other element.
      Stated on its own so that StrictlySortedUnique can apply it to each
      list's head without unfolding StrictlySorted there. */
  lemma SortedHeadIsLeast(xs: seq<string>, y: string)
    requires StrictlySorted(xs) && y in xs
    ensures y == xs[0] || Less(xs[0], y)
  {
  }

  lemma TailMembership(xs: seq<string>, y: string)
    requires StrictlySorted(xs) && xs != []
    ensures y in xs[1..] <==> y in xs && y != xs[0]
  {
    if y in xs[1..] {
      var i :| 0 <= i < |xs[1..]| && xs[1..][i] == y;
      StrictlySortedDistinct(xs, 0, i + 1);
    }
    if y in xs && y != xs[0] {
      var i :| 0 <= i < |xs| && xs[i] == y;
      assert xs[1..][i - 1] == y;
    }
  }

  /** Two strictly sorted lists with the same names are the same list: the
      sorted distinct list of a table does not depend on its row order. */
  lemma {:induction false} StrictlySortedUnique(a: seq<string>, b: seq<string>)
    requires StrictlySorted(a) && StrictlySorted(b)
    requires forall y :: y in a <==> y in b
    ensures a == b
  {
    if a != [] && b != [] {
      SortedHeadIsLeast(a, b[0]);
      SortedHeadIsLeast(b, a[0]);
      LessAsymmetric(a[0], b[0]);
      forall y ensures y in a[1..] <==> y in b[1..] {
        TailMembership(a, y);
        TailMembership(b, y);
      }
      StrictlySortedUnique(a[1..], b[1..]);
      assert a == [a[0]] + a[1..] && b == [b[0]] + b[1..];
    } else {
      HeadIsMember(a);
      HeadIsMember(b);
    }
  }

  /** Kept as a call rather than a local assert: in the branch of
      StrictlySortedUnique where only one list is empty the facts in scope
      already clash, and a checked index there would be reported as proved
      from contradictory assumptions. */
  lemma HeadIsMember(xs: seq<string>)
    ensures xs != [] ==> xs[0] in xs
  {
  }

  /** `sorted(df["pais"].unique())`: the country options of the sidebar. */
  function PaisesDisponibles(df: seq<Record>): (paises: seq<string>)
    ensures StrictlySorted(paises)
    ensures forall p :: p in paises <==> exists r :: r in df && r.pais == p
  {
    var names := seq(|df|, i requires 0 <= i < |df| => df[i].pais);
    assert forall p :: p in names <==> exists r :: r in df && r.pais == p by {
      forall p | exists r :: r in df && r.pais == p ensures p in names {
        var r :| r in df && r.pais == p;
        var i :| 0 <= i < |df| && df[i] == r;
        assert names[i] == p;
      }
    }
    SortedUnique(names)
  }

  /** With every available country selected (the sidebar's default) and a
      year range covering the table, the filtered table is the whole table. */
  lemma DefaultSelectionKeepsWholeTable(df: seq<Record>, anioMin: int, anioMax: int)
    requires forall r :: r in df ==> anioMin <= r.anio <= anioMax
    ensures Filter(df, anioMin, anioMax, PaisesDisponibles(df)) == df
  {
    FilterAtDefaultsIsWholeTable(df, anioMin, anioMax, PaisesDisponibles(df));
  }

  /** Strictly increasing years. */
  predicate Increasing(ys: seq<int>)
  {
    forall i, j :: 0 <= i < j < |ys| ==> ys[i] < ys[j]
  }

  /** Adds `y` to a strictly increasing list of years, unless it is there. */
  function InsertAnio(ys: seq<int>, y: int): (r: seq<int>)
    requires Increasing(ys)
    ensures Increasing(r)
    ensures forall z :: z in r <==> z in ys || z == y
  {
    if ys == [] then [y]
    else if y == ys[0] then ys
    else if y < ys[0] then [y] + ys
    else
      var rest := InsertAnio(ys[1..], y);
      assert forall z :: z in rest ==> ys[0] < z;
      assert forall k :: 0 <= k < |rest| ==> rest[k] in rest;
      [ys[0]] + rest
  }

  /** `sorted(df_f["anio"].unique())`: the years the comparison slider offers. */
  function AniosDisponibles(view: seq<Record>): (anios: seq<int>)
    ensures Increasing(anios)
    ensures forall a :: a in anios <==> exists r :: r in view && r.anio == a
  {
    if view == [] then []
    else
      var prefix := view[..|view| - 1];
      var rest := AniosDisponibles(prefix);
      assert forall r :: r in view <==> r in prefix || r == view[|view| - 1] by {
        assert view == prefix + [view[|view| - 1]];
      }
      InsertAnio(rest, view[|view| - 1].anio)
  }

  /** `df_f["anio"].max()` on a non-empty view. */
  function MaxAnio(view: seq<Record>): (m: int)
    requires |view| > 0
    ensures exists r :: r in view && r.anio == m
    ensures forall r :: r in view ==> r.anio <= m
  {
    if |view| == 1 then view[0].anio
    else
      var rest := MaxAnio(view[1..]);
      assert forall r :: r in view ==> r == view[0] || r in view[1..];
      if view[0].anio >= rest then view[0].anio else rest
  }

  /** The slider's initial year as the page computes it:
      `min(2024, df_f["anio"].max())`. */
  function AnioCompDefault(view: seq<Record>): (anio: int)
    requires |view| > 0
    ensures anio <= 2024 && anio <= MaxAnio(view)
    ensures anio == 2024 || anio == MaxAnio(view)
  {
    var latest := MaxAnio(view);
    if 2024 <= latest then 2024 else latest
  }

  /** The computed initial year is at most 2024 and at most the view's last
      year, and it is one of the offered years exactly when the view has a
      2024 row or ends before 2024. */
  lemma AnioCompDefaultOffered(view: seq<Record>)
    requires |view| > 0
    ensures AnioCompDefault(view) <= 2024 && AnioCompDefault(view) <= MaxAnio(view)
    ensures AnioCompDefault(view) in AniosDisponibles(view) <==>
      (exists r :: r in view && r.anio == 2024) || MaxAnio(view) < 2024
  {
  }

  /** A view holding only 2025 rows (the sidebar range set to 2025–2025)
      makes the computed initial year 2024, which the slider does not offer. */
  lemma AnioCompDefaultMissing2025(view: seq<Record>)
    requires |view| > 0
    requires forall r :: r in view ==> r.anio == 2025
    ensures AnioCompDefault(view) == 2024
    ensures AnioCompDefault(view) !in AniosDisponibles(view)
  {
    assert view[0] in view;
  }

  /** The slider's initial year as the page evidently means it: the latest
      offered year that is not an estimate (not after 2024), or, when every
      offered year is after 2024, the latest offered year. */
  function AnioCompInicial(view: seq<Record>): (anio: int)
    requires |view| > 0
    ensures anio in AniosDisponibles(view)
    ensures anio <= MaxAnio(view)
    ensures (exists r :: r in view && r.anio <= 2024) ==> anio <= 2024
    ensures forall r :: r in view && r.anio <= 2024 ==> r.anio <= anio
    ensures (forall r :: r in view ==> r.anio > 2024) ==> anio == MaxAnio(view)
  {
    var settled := Keep(view, AnioAtMost(2024));
    if settled == [] then
      KeepNoneIffNoneHold(view, AnioAtMost(2024));
      MaxAnio(view)
    else
      MaxAnio(settled)
  }

  /** `df_anio` at the slider's corrected initial year: never empty for a
      non-empty view. */
  function VistaAnioInicial(view: seq<Record>): (rows: seq<Record>)
    requires |view| > 0
    ensures |rows| > 0
    ensures forall r :: r in rows <==> r in view && r.anio == AnioCompInicial(view)
  {
    var anio := AnioCompInicial(view);
    var rows := VistaAnio(view, anio);
    var r :| r in view && r.anio == anio;
    assert r in rows;
    rows
  }

  /** Wherever the page's own initial year is an offered year, the corrected
      rule picks the same year. */
  lemma AnioCompInicialAgrees(view: seq<Record>)
    requires |view| > 0
    requires AnioCompDefault(view) in AniosDisponibles(view)
    ensures AnioCompInicial(view) == AnioCompDefault(view)
  {
    AnioCompDefaultOffered(view);
  }
}
