# Road-accident dashboard: the filter-and-aggregate pipeline

This project models the computational core of a single-page Streamlit
dashboard over the federal highway police's accident records
(`AcidentesStreamlit.py`). The script loads one table, lets the user filter
it by year, state (`uf`) and accident type, and draws charts from small count
tables computed on the filtered view. The model keeps that pipeline and
drops the widgets and the charting:

- **Records** (`records.dfy`): one immutable `Record` per row. Cells that
  pandas may coerce to NaN/NaT are `Option`s. The parsed hour of `horario`
  is an `Option<Hour>` with `Hour = 0..23`.
- **Filters** (`filters.dfy`): the three multiselect filters applied one
  after another. An empty selection does not restrict, and the selections
  combine by AND. A missing cell never passes `isin`.
- **Counting** (`tally.dfy`): `value_counts()` and `value_counts().head(n)`.
  Missing cells are dropped. There is one entry per distinct value, counts
  are exact and sorted largest first.
- **Time tables** (`time_tables.dfy`): the day-of-week table, reindexed to
  Sunday..Saturday with zero fill, and the hour table, holding only the
  hours that occur, in ascending order.
- **Top tables and the headline metric** (`top_tables.dfy`): the top-10
  charts, the five accident types used by the heat map, and the "state with
  most accidents" metric.
- **Map** (`map_sample.dfy`): the rows with both coordinates, capped at 5000.
- **Binning** (`binning.dfy`): victim-age and vehicle-age bands as `pd.cut`
  computes them. Intervals are closed on the right and the lowest edge is
  excluded. The tables list all six bands, because `value_counts` of a
  categorical column includes empty categories.
- **Heat map** (`crosstab.dfy`): the phase-of-day × accident-type crosstab,
  restricted to the top five types.

Ties in a count table follow first occurrence in the model. That is the
order pandas' hash table meets the values, and the stable insertion sort
keeps it. pandas' `sort_values` does not promise any tie order, so every
property about top-N tables is order-independent (`Tally.IsTopN`).

The model follows the script in three places where a reader might expect
otherwise:
- the hour table has no zero-filled slots, so it does not always have 24 entries;
- bins are `(a, b]`, not `[a, b)`, so 0 gets no band and a boundary value
  goes to the lower band;
- a non-empty view whose rows all lack a state makes the metric raise
  instead of reporting the sentinel (see Findings).

## Model

| member | source | states |
|---|---|---|
| Filters.Keep | AcidentesStreamlit.py:79 | a boolean mask keeps an order-preserving subsequence whose members are exactly the rows satisfying the criterion, each with its original multiplicity |
| Filters.ApplyFilters | AcidentesStreamlit.py:76-83 | the filtered view is an order-preserving subsequence of the base, no longer than it; a row is kept iff every non-empty selection contains its cell, with unchanged multiplicity; with no selection the base is returned unchanged |
| Filters.ApplyFiltersIsOnePass | AcidentesStreamlit.py:76-83 | the three successive stages equal one pass keeping the rows that pass all three filters (AND) |
| Filters.KeepKeep | AcidentesStreamlit.py:78-83 | filtering by one criterion and then another is filtering once by their conjunction |
| Filters.NullYearNeverPasses | AcidentesStreamlit.py:78-79 | a row whose date did not parse is never in the view when a year is selected |
| TimeTables.DayCounts | AcidentesStreamlit.py:128-130 | exactly 7 entries in the order domingo..sábado; each count is that day's occurrences; a count is 0 iff the day is absent from the view |
| TimeTables.DayCountsTotal | AcidentesStreamlit.py:130 | the seven counts sum to the rows whose day is one of the seven names, so other spellings and missing cells are dropped; the sum never exceeds the view's size |
| TimeTables.HourCounts | AcidentesStreamlit.py:141-142 | keys strictly ascending, exactly the hours that occur, each count positive and equal to its occurrences (no zero fill); counts sum to the rows with a parsed time |
| Tally.ValueCounts | AcidentesStreamlit.py:102 | one entry per distinct non-missing value, counts exact and non-increasing, as many entries as distinct values, counts summing to the non-missing cells |
| Tally.TopN | AcidentesStreamlit.py:174 | `head(n)` of the value counts has min(n, distinct values) entries with exact, non-increasing counts, and any value left out occurs no more often than every value kept |
| Tally.Distinct | AcidentesStreamlit.py:174 | the distinct non-missing values of a column, without repetition |
| Tally.SortDesc | AcidentesStreamlit.py:174 | the sorted table is a permutation of its input with non-increasing counts |
| Tally.TotalOfPairs | AcidentesStreamlit.py:130 | the counts of a list of distinct keys sum to the cells holding any of those keys |
| TopTables.TopStates | AcidentesStreamlit.py:174 | a top-10 table of the state column |
| TopTables.TopMunicipalities | AcidentesStreamlit.py:184 | a top-10 table of the municipality column |
| TopTables.TopHighways | AcidentesStreamlit.py:195 | a top-10 table of the highway column |
| TopTables.TopCauses | AcidentesStreamlit.py:210 | a top-10 table of the main-cause column |
| TopTables.TopAccidentTypes | AcidentesStreamlit.py:221 | a top-10 table of the accident-type column |
| TopTables.TopFiveTypes | AcidentesStreamlit.py:254 | at most five types, the values of a top-5 table of the accident-type column |
| TopTables.TopVehicleTypes | AcidentesStreamlit.py:303 | a top-10 table of the vehicle-type column |
| TopTables.FirstIsMax | AcidentesStreamlit.py:102 | the first entry of a value-count table has a count no value exceeds (what `idxmax` picks) |
| TopTables.BusiestStateAsWritten | AcidentesStreamlit.py:102 | "N/A" for an empty view; raises iff the view has rows but no state; otherwise a state no other state outnumbers |
| TopTables.BusiestStateRaisesWithoutStates | AcidentesStreamlit.py:102 | a one-row view whose state is missing makes the metric raise |
| TopTables.BusiestState | AcidentesStreamlit.py:102 | "N/A" when no state is present; otherwise a state with maximal count, equal to the first entry of the top-10 state chart |
| TopTables.BusiestStateAgrees | AcidentesStreamlit.py:102 | whenever the metric as written does not raise, it equals the corrected metric |
| MapSample.SampleMapPoints | AcidentesStreamlit.py:160-163 | the map points are candidate rows, at most 5000; all candidates when there are at most 5000, exactly 5000 otherwise |
| Binning.FindBand | AcidentesStreamlit.py:283-287 | finds an interval (edges[b], edges[b+1]] holding the value |
| Binning.Cut | AcidentesStreamlit.py:283-287 | a value gets a band iff it lies in (first edge, last edge], and the band is an interval closed on the right containing it |
| Binning.CutUnique | AcidentesStreamlit.py:283-287 | the intervals do not overlap: the interval containing a value is the one `Cut` returns |
| Binning.BoundaryGoesLower | AcidentesStreamlit.py:283-287 | a value on an edge goes to the lower band, the next integer to the band above, and the lowest edge gets no band |
| Binning.Band | AcidentesStreamlit.py:283-287 | a cell gets label j iff its value lies in (edges[j], edges[j+1]]; missing or out-of-range cells get no label |
| Binning.BandsNonNull | AcidentesStreamlit.py:283-287 | the number of labelled cells is the number of values in (first edge, last edge] |
| Binning.BandCounts | AcidentesStreamlit.py:289 | every label once, exact and non-increasing counts, summing to the values inside the outer edges |
| Binning.BandCountIsCountIn | AcidentesStreamlit.py:283-289 | the count of label j among the binned cells is the number of values in (edges[j], edges[j+1]] |
| Binning.AgeTable | AcidentesStreamlit.py:283-289 | six age bands, each counting exactly the ages in its interval (edges[j], edges[j+1]], in non-increasing order, summing to the ages in (0, 100] |
| Binning.AgeBandExamples | AcidentesStreamlit.py:285-286 | 18 → "0-18", 19 → "19-25", 100 → "60+", and 0 and 101 get no band |
| Binning.MaxYear | AcidentesStreamlit.py:316 | the latest year present, skipping missing years; missing iff no row has a year |
| Binning.Within | AcidentesStreamlit.py:320 | the kept cells are exactly the ages in [lo, hi], each with its original multiplicity; missing ages and ages outside the range are dropped |
| Binning.WithinCounts | AcidentesStreamlit.py:320 | the range check keeps as many cells as there are ages in [lo, hi], and loses none of the ages in any sub-interval (a, b] of it |
| Binning.VehicleBandCount | AcidentesStreamlit.py:320-329 | after the range check, vehicle-age band j counts exactly the ages in its interval |
| Binning.VehicleAgeTable | AcidentesStreamlit.py:316-329 | six vehicle-age bands over the ages (latest year minus manufacture year) kept by the 0..50 check, each counting exactly the ages in its interval, summing to the ages in (0, 50], so an age of 0 passes the check but is not counted |
| Binning.VehicleBandExamples | AcidentesStreamlit.py:324-326 | 5 → "0-5 anos", 6 → "6-10 anos", 50 → "31+ anos", 0 gets no band |
| CrossTab.CrossPhases | AcidentesStreamlit.py:251 | the crosstab rows: each phase seen together with a type, once |
| CrossTab.PhaseTypeTableAsWritten | AcidentesStreamlit.py:251-255 | succeeds iff every top-5 type occurs in some row with a phase; then the columns are the top-5 types, no phase is listed twice, and each cell counts its (phase, type) rows |
| CrossTab.PhaseTypeTableRaises | AcidentesStreamlit.py:251-255 | one row with a type and no phase makes the heat map raise |
| CrossTab.PhaseTypeTable | AcidentesStreamlit.py:251-255 | columns are always the top-5 types and rows the phases seen with a type; each cell counts its (phase, type) rows |
| CrossTab.CrossColumnTotals | AcidentesStreamlit.py:251 | each column sums to the rows that have a phase and that type |
| CrossTab.PhaseTypeTableAgrees | AcidentesStreamlit.py:251-255 | whenever the heat map as written does not raise, it equals the corrected table |

## Left out

- Page configuration, sidebar widgets and their defaults, tabs, metric display, caching, `st.stop`/`st.error` flow (lines 11-16, 22-54, 57-106, 346-374): UI framework behaviour.
- Loading (lines 18-19, 44-51): gzip, `read_csv` with Latin-1 and comma decimals, the fallback upload. The model starts from parsed records.
- Date and time parsing (`to_datetime` with `errors='coerce'`, `month_name`): parsed years and hours are given as `Option` values.
- The seeded random generator of `sample(5000, random_state=42)` (line 163): `MapSample.SampleMapPoints` may return any 5000 candidates. Reproducibility across runs is therefore not modelled.
- Coordinate coercion (lines 158-159) and the fatality and injury sums (lines 94-98): floating-point data. Only the presence of coordinates is modelled.
- The distinct-id count (line 90) and the monthly trend (line 112): they are not part of this model.
- Plotly, matplotlib and seaborn rendering, and the CSV export (lines 350-356).
- The `if '<column>' in filtered_df.columns` guards (lines 194, 271, 281, 302, 314, 338): the guards of the modelled charts are taken to hold, since `Record` carries those columns.
- The pie charts of lines 234, 243, 272 and 339 (accident classification, weather, victim sex, victim physical state): those four columns are not fields of `Record`. Each chart is a plain `value_counts()` table, the shape `Tally.ValueCounts` models.
- Binning.AgeTable: ages are integers. The source's age column may hold fractional values, for example 18.5, which would go to "19-25".
- CrossTab.PhaseTypeTable: rows are in first-occurrence order. pandas sorts the crosstab index.
- CrossTab.PhaseTypeTableAsWritten: rows are in first-occurrence order. pandas sorts the crosstab index.

## Findings

| source | as written | input that shows it | evidently intended | confidence | as-written member | corrected member |
|---|---|---|---|---|---|---|
| AcidentesStreamlit.py:102 | the sentinel is chosen only for an empty view; `value_counts().idxmax()` of a state column with no values raises ValueError | a non-empty view in which every row's `uf` is missing | report "N/A" whenever there is no state to report | medium, not executed | TopTables.BusiestStateAsWritten (TopTables.BusiestStateRaisesWithoutStates) | TopTables.BusiestState |
| AcidentesStreamlit.py:251-255 | the crosstab drops rows with a missing `fase_dia`, but the top five types are counted over all rows, so `cross_fase_tipo[top5_tipos]` raises KeyError | a view with one row whose type is present and whose `fase_dia` is missing | show every top-five type, with a column of zeros where it never occurs with a phase | medium, not executed | CrossTab.PhaseTypeTableAsWritten (CrossTab.PhaseTypeTableRaises) | CrossTab.PhaseTypeTable |
