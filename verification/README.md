# Vehicle registration dashboard: aggregation and growth model

This project models the computation behind the vehicle registration dashboard
in `dashboard/app.py`. It follows a loaded table of registration rows through
these steps:

1. **Derived columns** (lines 42-46). Each row gets a calendar year and a
   quarter label, and its registration count is parsed. A count that does not
   parse becomes missing (NaN).
2. **Sidebar filter** (lines 63-67). A row is kept when its year and vehicle
   category are selected. When the table has a `Manufacturer` column, its
   manufacturer must be selected too.
3. **Group-by-sum** (lines 72-74, 106 and 114). The kept rows are grouped by
   (time, category) or by (time, category, manufacturer), and registrations
   are summed within each group.
4. **Growth tables** (lines 89-91, 96-98, 107-109 and 115-117). The totals
   are sorted by (manufacturer, category, time). Each row gets the total of
   the previous row in its (manufacturer, category) partition, and the growth
   is `(cur - prev) / prev * 100`.

Modules follow these steps:

- `Options` holds the missing-value wrapper.
- `Lex` holds Python's code-point string order.
- `Records` covers dates, quarter labels and record derivation.
  `Records.Label` and `Records.QuarterLabel` are `to_period('Q').astype(str)`
  (line 44).
- `Keys` covers group keys, partitions and the two sort orders.
  `Keys.TimeOf` and `Keys.KeyOf` give a record's `groupby` key, or none when
  its NaN `Year` makes `groupby` drop it (lines 72, 74, 106 and 114).
  `Keys.KeyLess` is both row orders: the order `groupby` emits groups in
  (lines 72-74), and the `sort_values` order (lines 89, 96, 107 and 115).
- `Sorting` is an insertion sort of aggregate tables. It is not stable, which
  does not matter here because aggregate tables have unique keys. On unique
  keys its result is the one strictly ascending arrangement
  (`Sorting.SortedPermutationsEqual`).
- `Filtering` is the sidebar filter. `Filtering.Keeps` is the boolean mask of
  lines 63-67, and `Filtering.DefaultSelection` is the widgets' defaults
  (lines 54-61).
- `Aggregation` is group-by-sum.
- `Growth` covers the shift and the growth value. `Growth.LastTotalIn` is
  `groupby(...).shift(1)` (lines 90, 97, 108 and 116): the total of the
  nearest earlier row of the same partition. `Growth.GroupShift` is a
  one-pass formulation of the same shift, proved equal to it.
- `Dashboard` is the whole page computation and a worked example.
  `Dashboard.GroupingOf` is the branch `if manufacturers:` (lines 58, 66, 71,
  88 and 105): manufacturer mode exactly when the table has a `Manufacturer`
  column (lines 47-51). The two tests agree because line 40 only proceeds on
  a non-empty table, so `sorted(df['Manufacturer'].unique())` is non-empty
  whenever the column exists.

Modelling choices:

- **pandas version.** The model follows pandas 2.x: nanosecond timestamps,
  and `astype(str)` turning a missing value into text. pandas 3 behaves
  differently; see "## Left out".
- **Missing values.** A pandas missing value (NaN, NaT) is `Options.None`.
  `sum` skips missing counts, so they add 0.
- **Group order.** `groupby` returns its groups sorted by their key tuple.
  This is `Keys.GroupOrder`. The growth tables use `Keys.PartitionOrder`.
- **Quarter labels.** The label is the text of a pandas quarterly period,
  `"YYYYQn"`. A row with no date gets the label `"NaT"`.
- **Growth values.** A growth value is an exact rational. NaN is `Undefined`
  and `inf` is `Infinite`.

Three behaviours of the code are easy to miss:

- **Quarter label format.** `to_period('Q').astype(str)` writes `"2024Q1"`,
  with no space between year and quarter (line 44).
- **Zero previous total.** The division at lines 91, 98, 109 and 117 gives
  `inf` when the previous total is 0 and the current one positive, and NaN
  when both are 0. The model keeps these apart as `Infinite` and `Undefined`.
- **Undated rows.** A missing date gives a NaN `Year`, so the yearly
  `groupby` (lines 72 and 74) drops the row. Its `Quarter` is the text
  `"NaT"` (line 44), so the quarterly `groupby` (lines 106 and 114) keeps it
  in a bucket of its own, sorted after every dated quarter.
  `Aggregation.QuarterlyCountsUndated` states the difference. Because the
  `"NaT"` bucket sorts last, the shift at lines 108 and 116 gives it the
  total of its partition's latest dated quarter as `Prev_Registrations`, and
  it gets a growth figure against that total (`Growth.UndatedQuarterHasPrev`).
  For example, 10 in `"2024Q1"` followed by 5 undated gives -50%.

## Model

| member | source | states |
|---|---|---|
| Records.QuarterOf | dashboard/app.py:44 | the quarter number is 1..4 and is the one whose three months contain the given month |
| Records.Derive | dashboard/app.py:42-46 | category, manufacturer and count are carried over. An undated row gets no year and the "NaT" label. A dated row gets its calendar year and a label that parses back to (year, quarter of its month) |
| Records.LabelRoundTrip | dashboard/app.py:44 | parsing a quarter label gives back exactly the year and quarter it was made from |
| Records.MissingLabelIsNoQuarter | dashboard/app.py:44 | the "NaT" label of an undated row parses as no quarter, so it never collides with a real one |
| Records.LabelOrderIsChronological | dashboard/app.py:107 | for two quarter labels, string order holds exactly when the first quarter is earlier in time (both directions) |
| Records.LabelEarlier | dashboard/app.py:107 | a quarter of an earlier year, or an earlier quarter of the same year, has the smaller label |
| Records.LabelBeforeMissing | dashboard/app.py:115 | every real quarter label sorts before the "NaT" label of undated rows |
| Keys.QuarterKeysChronological | dashboard/app.py:107 | quarter keys of two dated records compare as their (year, quarter) pairs do |
| Keys.KeyTotal | dashboard/app.py:89 | any two distinct keys are ordered one way or the other under both sort orders |
| Keys.KeyTransitive | dashboard/app.py:89 | both sort orders are transitive |
| Sorting.Sort | dashboard/app.py:89 | the result is a permutation of the input with the same grand total. A table with unique keys comes out strictly sorted |
| Sorting.SortedPermutationsEqual | dashboard/app.py:89 | two strictly sorted tables with the same rows are equal, so the sort result does not depend on the input order |
| Filtering.Filter | dashboard/app.py:63-67 | the number of times each record occurs in the output is its input count if the selection keeps it, and 0 otherwise. The output is never longer than the input |
| Filtering.FilterAppend | dashboard/app.py:63-67 | filtering row by row keeps the input order (filtering a concatenation concatenates the results) |
| Filtering.FilterKeepsAll | dashboard/app.py:63-67 | when every record passes the selection, the filter returns its input unchanged |
| Filtering.DefaultDropsNothing | dashboard/app.py:54-67 | with the default selection (every year, category and manufacturer present), no row is filtered out |
| Aggregation.GroupSum | dashboard/app.py:72 | the keys are unique and are exactly the keys of the records. Each row's total equals the independent per-key sum of counts. The grand total equals the sum of counts of the keyed records |
| Aggregation.AddTo | dashboard/app.py:72 | adding a count to a key yields the old key set plus that key, and raises the grand total by the count |
| Aggregation.GroupSumNewKey | dashboard/app.py:72 | a record whose key is new adds one row with its own count at the end |
| Aggregation.GroupSumDistinct | dashboard/app.py:72 | when every record's key is distinct, grouping gives one row per record, in input order, with the record's own count |
| Aggregation.Aggregate | dashboard/app.py:72-74 | the totals table has unique keys, is sorted by (time, category, manufacturer), and has exactly the records' keys. Every row holds the sum for its key, and the grand total is preserved |
| Aggregation.QuarterlyCountsUndated | dashboard/app.py:106 | the quarterly grand total is the yearly one plus the counts of undated records |
| Growth.GrowthOf | dashboard/app.py:91 | no previous total gives NaN, 0 to 0 gives NaN, and 0 to a positive total gives inf. Otherwise the value times the previous total is (cur - prev) * 100 |
| Growth.GrowthMeaning | dashboard/app.py:98 | with a positive previous total: growth is at least -100; it is -100 iff the current total is 0, positive iff the total rose, and 0 iff it is unchanged. The current total can be recovered from the growth |
| Growth.LastTotalInMeaning | dashboard/app.py:90 | the shifted value is the total of the nearest earlier row of the same partition, and is missing exactly when there is none |
| Growth.GroupShift | dashboard/app.py:97 | a single pass with a per-partition memory computes, for every row, the nearest earlier total of its partition |
| Growth.ComputeGrowth | dashboard/app.py:89-91 | the output is a permutation of the totals with the same grand total. It is sorted by partition then time, and each row's growth is GrowthOf of its total and its shifted previous total |
| Growth.GrowthOfSorted | dashboard/app.py:96 | an already sorted table keeps its order, and row i is annotated in place |
| Growth.Contiguous | dashboard/app.py:89 | after the growth sort, the rows of one (manufacturer, category) partition are contiguous: a row lying between two rows of a partition belongs to it |
| Growth.SamePartitionOrder | dashboard/app.py:89 | after the growth sort, within one partition a row lies before another exactly when its time bucket is earlier (both directions) |
| Growth.PrevIsAdjacent | dashboard/app.py:108 | a row's previous total is that of the row just above it, when that row is in the same partition, and missing otherwise |
| Growth.PrevMissingIffEarliest | dashboard/app.py:116 | the previous total is missing exactly when no row of the same partition has an earlier time |
| Growth.PrevIsLatestEarlier | dashboard/app.py:90 | a present previous total comes from a row of the same partition with an earlier time, and no row of that partition falls strictly between the two |
| Growth.UndatedQuarterHasPrev | dashboard/app.py:115-117 | in a quarterly table, the undated "NaT" row of a partition that has a dated quarter gets a previous total, taken from a dated row of that partition, and a growth figure against it |
| Growth.GrowthIgnoresRowOrder | dashboard/app.py:89 | two tables with the same rows give identical growth tables |
| Dashboard.Run | dashboard/app.py:40-117 | there is no report iff the table is empty. Otherwise the report has unique, complete totals with the right grand total; a YoY table that is a permutation of the totals; and a QoQ table whose grand total counts every selected record |
| Dashboard.GrowthRowsAreSums | dashboard/app.py:89-117 | every row of either growth table holds the sum over exactly the selected records with its key |
| Dashboard.CountedDerived | dashboard/app.py:42-46 | after derivation, the yearly sums count the registrations of dated rows and the quarterly sums count those of all rows |
| Dashboard.DefaultSelectionConserves | dashboard/app.py:54-74 | under the default selection, totals and YoY sum to the dated rows' registrations, and QoQ sums to all registrations |
| Dashboard.YearOverYearScenario | dashboard/app.py:96-98 | one category with yearly totals 100, 150, 0 gives growth NaN, +50% and -100% |

## Left out

- **CSV loading and file lookup** (lines 1-38) are I/O. A missing file
  yields an empty table, which `Dashboard.Run` reports as no report
  (line 122).
- **Unparsable dates.** A date text that does not parse makes
  `pd.to_datetime` raise, so the page fails. The model takes dates as
  already parsed, or missing.
- **Day validity.** A day is not checked against the length of its month.
- **Registration counts** are non-negative integers. Counts of another shape
  (negative, fractional) are not modelled, and unparsable ones are missing.
- **Missing vehicle category.** A missing category is not modelled. A missing
  manufacturer is the text `"nan"` after pandas 2's `astype(str)` (line 48), which is
  what the model's string field holds.
- **Unused columns.** The State and RTO columns play no part in these tables.
- **Display.** Streamlit widgets, the `st.dataframe` display and the plotly
  charts are left out. The widgets' current selections are an input to
  `Dashboard.Run`.
- **The scraping module** is not part of this model.
- Growth.GrowthOf: the value is an exact rational. Python's float division
  and the `round(2)` of lines 91, 98, 109 and 117 are not modelled, so the
  contract fixes the value before rounding.
- Aggregation.GroupSum: totals are exact unbounded integers. pandas sums
  `Registrations` as int64, which wraps past 2^63 - 1, or as float64 once a
  count is NaN, which is inexact past 2^53. Neither limit is modelled.
- Aggregation.Aggregate: the same exact sums as `Aggregation.GroupSum`; the
  int64 and float64 limits of the pandas sum are not modelled.
- **pandas 3.** Three behaviours differ under pandas 3, and none of them is
  modelled. First, its default string dtype keeps missing values missing
  under `astype(str)`. An undated row's `Quarter` is then missing, so the
  quarterly `groupby` (lines 106 and 114) drops it. This breaks
  `Aggregation.QuarterlyCountsUndated`, `Growth.UndatedQuarterHasPrev`, and
  the claim of `Dashboard.DefaultSelectionConserves` that the QoQ table sums
  to all registrations. Second, a missing manufacturer stays missing, and
  `sorted(...)` at line 49 raises when it is mixed with strings. Third,
  `pd.to_datetime` may infer a coarser unit than nanoseconds, so the
  1677..2262 bound of `Records.TimestampYear` does not hold there.
- **Default sidebar values** (lines 54-61) are the sorted unique values
  present. The model represents them as the sets of present values; the
  order of the sidebar lists does not matter to the filter.
