# Mercado Editorial LATAM dashboard — the filter-and-aggregate step

The dashboard (`app.py`) loads one table of publishing-industry statistics
(one row per country and year: copies produced, estimated revenue, ISBN
titles, average print run, copies per capita, an optional digital-format
share and optional text notes) and draws charts of it. The only part of the
page with behaviour of its own is the step between the widgets and the
charts, and that is what this project models:

- the sidebar filter `df_f` (year range and selected countries), which keeps
  the matching rows in table order;
- the guard that stops the page with a warning when `df_f` is empty, before
  anything is aggregated;
- the KPI cards: totals of copies, revenue and ISBN titles, the largest
  copies-per-capita value, and the country and year of the first row with
  the largest revenue (`idxmax`);
- the sub-views `df_anio` (one comparison year), `df_pais` (one country),
  `df_crisis` (rows with a non-blank `contexto` note) and `df_dig` (rows with
  a digital-format share, with a notice instead of a chart when there are
  none);
- the country-by-year revenue heat map (`pivot_table` with `aggfunc="mean"`);
- the widget choices: the sorted distinct country list of the sidebar, the
  sorted distinct years of the comparison slider and its initial year.

Modules: `Records` (the row type, the boolean masks, Python's whitespace
stripping), `Views` (selection by mask, the filter, the sub-views), `Aggregates`
(sum, max, idxmax, the KPI cards), `Pivot` (the heat map), `Controls` (widget
choices and initial values) and `Page` (one pass of the page). Everything is
pure functions over `seq<Record>` and lemmas about them, as the page itself is
a sequence of vectorised expressions bound once.

Three points of the source are easy to misread. The comment at app.py:299
and the warning at app.py:301 speak of deselecting every country, but the test
is `df_f.empty`, so the page stops on any empty view. The heat map
(app.py:447-450) is built for the revenue column only. `idxmax` returns a row
label that `.loc` looks up, and the model returns the position of that row in
the view instead: the table's labels are the unique positions given at load
time, and `df_f` keeps them.

## Model

| member | source | states |
|---|---|---|
| `Views.Filter` | app.py:293-297 | a row is in the filtered table exactly when it is in the table, its year is within [anio_min, anio_max] and its country is among the selected ones; no selected country gives an empty table |
| `Views.FilterIsSubsequence` | app.py:293-297 | the filtered table is the table with rows deleted, in the table's order |
| `Views.KeepAppend` | app.py:293-297 | boolean-mask selection distributes over concatenation, which with the one-row case determines the result completely |
| `Views.KeepMultiplicity` | app.py:293-297 | a row occurs in a selection as often as in the table when the mask holds of it and not at all otherwise |
| `Views.FilterAgainWider` | app.py:293-297 | filtering the filtered table again with the same or a wider year range and country list changes nothing (idempotence) |
| `Views.FilterAtDefaultsIsWholeTable` | app.py:293-297 | when every row's year is in range and every row's country is selected, the filtered table is the whole table |
| `Controls.DefaultSelectionKeepsWholeTable` | app.py:273-278 | with all available countries selected (the multiselect default) and a covering year range, the filter keeps the whole table |
| `Page.Render` | app.py:293-318 | the page stops exactly when no row of the table passes the filter (in particular when no country is selected); otherwise it shows a non-empty view, a non-empty country list, the cards and the heat map of that view |
| `Aggregates.Max` | app.py:315 | the per-capita maximum is a value of the column and no value exceeds it |
| `Aggregates.IdxMax` | app.py:317-318 | idxmax is the first position holding a value no other value exceeds |
| `Aggregates.Lider` | app.py:317-318 | the leading row is a row of the view whose revenue no row exceeds, and every earlier row has strictly less revenue |
| `Aggregates.Summarize` | app.py:313-318 | the per-capita card bounds every row and equals some row's value; leading country and year come from one row, the first with the largest revenue |
| `Aggregates.SummarizeSingleRow` | app.py:313-318 | a one-row view shows that row's own values on every card, and that row's country and year as the leader |
| `Aggregates.LeaderExample` | app.py:317-318 | Argentina 100 and México 250 in 2020 make México in 2020 the leader |
| `Aggregates.LeaderTieGoesToFirst` | app.py:317-318 | on a revenue tie the earlier row leads |
| `Aggregates.SumAppend` | app.py:313-316 | a column total over two stretches is the sum of their totals |
| `Aggregates.SumAtLeastEachNonNegative` | app.py:313-316 | in a column without negative values every value is at most the total |
| `Page.FilteredTotal` | app.py:313-316 | a column total over the filtered table equals the total over the rows of the whole table that pass the filter, walked row by row |
| `Page.CardTotals` | app.py:313-316 | on a rendered page the copies, revenue and titles cards equal the totals over the selected rows of the table |
| `Page.CardTotalBoundsEachRow` | app.py:313-316 | when a measure is never negative in the view, no row's value exceeds its card total |
| `Pivot.PivotFacturacion` | app.py:447-450 | the heat map has a cell for a (country, year) pair exactly when some row of the view has that pair; absent pairs are gaps, not zeros |
| `Pivot.MeanWithinBounds` | app.py:447-450 | a mean of values within [lo, hi] is within [lo, hi]; the mean of equal duplicates is their value |
| `Pivot.PivotCellWithinBounds` | app.py:447-450 | every row's (country, year) pair has a cell, and that cell lies within any bounds respected by the revenue of every row with that pair |
| `Pivot.GrupoMatchesWalk` | app.py:447-450 | the rows grouped under a (country, year) pair are as many, and total as much revenue, as a row-by-row walk of the view counts for that pair |
| `Pivot.PivotCellIsMean` | app.py:447-450 | every row's (country, year) pair has a cell, and that cell is the mean revenue of the pair: the row-by-row revenue total of that pair divided by its row count, which is never zero |
| `Pivot.PivotOneRowPerPair` | app.py:447-450 | when no other row shares a row's (country, year), that row's revenue appears unchanged in its cell |
| `Views.VistaAnio` | app.py:488 | the comparison-year view holds exactly the rows of the view with that year |
| `Views.VistaAnioIsSingleYearFilter` | app.py:488 | the comparison-year view equals the sidebar filter narrowed to that year, and is empty for a year outside the range |
| `Views.VistaPais` | app.py:540 | the country view holds exactly the rows of the view for that country |
| `Views.VistaPaisIsSingleCountryFilter` | app.py:538-540 | for a selected country, the country view equals the sidebar filter with only that country selected |
| `Views.VistaCrisis` | app.py:541 | a row is a crisis row exactly when it is in the country view and its `contexto` is present with a non-whitespace character |
| `Records.StripEmptyIffAllSpace` | app.py:541 | a note strips to the empty text exactly when all its characters are whitespace |
| `Views.VistaDigital` | app.py:609 | the digital view holds exactly the rows of the view with a digital-format share |
| `Views.PanelDigital` | app.py:609-621 | the notice is shown exactly when no row of the view has a digital share; otherwise the chart gets the non-empty digital view |
| `Views.KeepKeep` | app.py:540-541 | selecting twice (country, then non-blank note) is selecting once with both masks |
| `Controls.PaisesDisponibles` | app.py:273 | the country options are strictly sorted by Python's string order and are exactly the countries of the table |
| `Controls.StrictlySortedUnique` | app.py:273 | two strictly sorted lists with the same names are equal, so the options do not depend on row order |
| `Controls.LessTransitive` | app.py:273 | Python's string order is transitive |
| `Controls.LessTotal` | app.py:273 | Python's string order compares any two different strings |
| `Controls.AniosDisponibles` | app.py:483 | the slider's years are strictly increasing and exactly the years of the view |
| `Controls.MaxAnio` | app.py:484 | the latest year is a year of the view and no row is later |
| `Controls.AnioCompDefault` | app.py:484 | the page's initial comparison year is the smaller of 2024 and the view's latest year: it is one of those two and exceeds neither (whether it is offered is stated by AnioCompDefaultOffered) |
| `Controls.AnioCompDefaultOffered` | app.py:481-485 | the computed initial year is at most 2024 and at most the latest year, and is offered exactly when the view has a 2024 row or ends before 2024 |
| `Controls.AnioCompDefaultMissing2025` | app.py:481-485 | a view of 2025 rows only makes the computed initial year 2024, which is not offered |
| `Controls.AnioCompInicial` | app.py:481-485 | the corrected initial year is offered, at most the latest year, at most 2024 when any year up to 2024 is offered, and the latest such year; when every year is after 2024, the latest year |
| `Controls.AnioCompInicialAgrees` | app.py:481-485 | wherever the page's own initial year is offered, the corrected rule picks the same year |
| `Controls.VistaAnioInicial` | app.py:484-488 | at the corrected initial year the comparison view of a non-empty view is never empty |

## Findings

| source | as written | input that shows it | evidently intended | confidence | as-written member | corrected member |
|---|---|---|---|---|---|---|
| app.py:481-485 | the comparison slider starts at the smaller of 2024 and the view's latest year, whether or not that year is among the slider's options | sidebar range 2025–2025: the options are [2025] and the initial value is 2024, which the slider rejects | start at the latest offered year that is not an estimate, or at the latest offered year when all are after 2024 | medium (not executed) | `Controls.AnioCompDefault`, `Controls.AnioCompDefaultMissing2025` | `Controls.AnioCompInicial` |

## Left out

- Page layout, CSS, headers, tabs, metric formatting, warnings and notices as widgets: presentation; only the values they receive are modelled.
- Every Plotly figure and `apply_dark_theme` (app.py:203-234 and each `px.*` / `go.*` call): declarative calls into a plotting library that is not part of this model; the loop at app.py:566-574 only adds annotations to a figure.
- Loading the CSV with caching (app.py:171-177) and the CSV download (app.py:670-676): file I/O and a library serialiser; the table is a parameter of every function, and the export round trip is not modelled.
- The column-picker table (app.py:645-659): a library sort and display; it shows the filtered table ordered by (pais, anio).
- Floating point: every measure is an exact real, so sums, means and comparisons are exact; NaN values inside `sum`, `max`, `idxmax` and `mean` are not modelled, only the explicit `notna` tests are.
- The widgets' own ranges and choices are parameters: the year range, the selected countries, the comparison year and the crisis country are inputs; the selectbox's default of the first selected country is covered only by `Page.Render` guaranteeing a non-empty country list.
- Pivot.PivotFacturacion: the model is a map keyed by (country, year); the sorted row and column order of the pandas pivot table is not modelled.
- Aggregates.IdxMax: returns a position in the view rather than a row label; these pick the same row because the table's labels are unique.
