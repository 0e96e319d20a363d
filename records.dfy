/** The dataset of the dashboard: one row per country and year, the boolean
    masks the page builds over it, and the whitespace rule of Python's
    `str.strip()` that one of those masks relies on. */
module Records {

  datatype Option<T> = None | Some(value: T)

  /** One row of the publishing-industry table (a country-year observation).
      Numeric columns are exact reals; the columns that may be empty in the
      table (`variacion_anual_pct`, `formato_digital_pct` and the three text
      columns) are options. */
  datatype Record = Record(
    pais: string,
    anio: int,
    titulosRegistradosIsbn: real,
    ejemplaresProducidosMillones: real,
    facturacionEstimadaMillonesUsd: real,
    tiradaPromedioEjemplares: real,
    variacionAnualPct: Option<real>,
    formatoDigitalPct: Option<real>,
    ejemplaresPerCapita: real,
    contexto: Option<string>,
    fuentePrincipal: Option<string>,
    notas: Option<string>)

  /** The numeric columns that the page aggregates. */
  datatype Measure =
    | Ejemplares    // ejemplares_producidos_millones
    | Facturacion   // facturacion_estimada_millones_usd
    | Titulos       // titulos_registrados_isbn
    | PerCapita     // ejemplares_per_capita

  function Value(r: Record, m: Measure): real
  {
    match m
    case Ejemplares => r.ejemplaresProducidosMillones
    case Facturacion => r.facturacionEstimadaMillonesUsd
    case Titulos => r.titulosRegistradosIsbn
    case PerCapita => r.ejemplaresPerCapita
  }

  /** The column `m` of a table, row by row. */
  function Column(rows: seq<Record>, m: Measure): (col: seq<real>)
    ensures |col| == |rows|
    ensures forall i :: 0 <= i < |rows| ==> col[i] == Value(rows[i], m)
  {
    seq(|rows|, i requires 0 <= i < |rows| => Value(rows[i], m))
  }

  /** The boolean masks the page builds with comparisons on one column,
      combined with `&`. */
  datatype Mask =
    | AnioAtLeast(low: int)          // df["anio"] >= low
    | AnioAtMost(high: int)          // df["anio"] <= high
    | AnioEquals(anio: int)          // df["anio"] == anio
    | PaisIn(paises: seq<string>)    // df["pais"].isin(paises)
    | PaisEquals(pais: string)       // df["pais"] == pais
    | ContextoNotBlank               // df["contexto"].notna() & (df["contexto"].str.strip() != "")
    | DigitalNotNa                   // df["formato_digital_pct"].notna()
    | And(left: Mask, right: Mask)   // left & right

  /** Whether row `r` is kept by mask `m`. */
  predicate Holds(m: Mask, r: Record)
  {
    match m
    case AnioAtLeast(low) => r.anio >= low
    case AnioAtMost(high) => r.anio <= high
    case AnioEquals(a) => r.anio == a
    case PaisIn(ps) => r.pais in ps
    case PaisEquals(p) => r.pais == p
    case ContextoNotBlank => r.contexto.Some? && Strip(r.contexto.value) != ""
    case DigitalNotNa => r.formatoDigitalPct.Some?
    case And(a, b) => Holds(a, r) && Holds(b, r)
  }

  /** The characters Python's `str.isspace()` accepts, which are the ones
      `str.strip()` removes when called without arguments. */
  predicate IsSpace(c: char)
  {
    || ('\U{0009}' <= c <= '\U{000D}')
    || ('\U{001C}' <= c <= '\U{0020}')
    || c == '\U{0085}' || c == '\U{00A0}' || c == '\U{1680}'
    || ('\U{2000}' <= c <= '\U{200A}')
    || c == '\U{2028}' || c == '\U{2029}' || c == '\U{202F}' || c == '\U{205F}' || c == '\U{3000}'
  }

  /** `s.lstrip()` */
  function StripStart(s: string): (r: string)
    ensures |r| <= |s| && r == s[|s| - |r|..]
    ensures r == [] || !IsSpace(r[0])
    ensures forall i :: 0 <= i < |s| - |r| ==> IsSpace(s[i])
  {
    if s != [] && IsSpace(s[0]) then StripStart(s[1..]) else s
  }

  /** `s.rstrip()` */
  function StripEnd(s: string): (r: string)
    ensures |r| <= |s| && r == s[..|r|]
    ensures r == [] || !IsSpace(r[|r| - 1])
    ensures forall i :: |r| <= i < |s| ==> IsSpace(s[i])
  {
    if s != [] && IsSpace(s[|s| - 1]) then StripEnd(s[..|s| - 1]) else s
  }

  /** `s.strip()` */
  function Strip(s: string): string
  {
    StripEnd(StripStart(s))
  }

  /** A text is blank after stripping exactly when every character of it is
      whitespace. */
  lemma StripEmptyIffAllSpace(s: string)
    ensures Strip(s) == "" <==> forall i :: 0 <= i < |s| ==> IsSpace(s[i])
  {
    var t := StripStart(s);
    if Strip(s) == "" {
      forall i | 0 <= i < |s| ensures IsSpace(s[i]) {
        if i >= |s| - |t| {
          assert s[i] == t[i - (|s| - |t|)];
        }
      }
    } else {
      var r := Strip(s);
      assert r[0] == t[0];
      assert !IsSpace(s[|s| - |t|]);
    }
  }
}
