# Bike-rental dashboard statistics, modelled in Dafny

The dashboard script `dashboard.py` loads an hourly bike-rental table. It
relabels the season and weather codes with Indonesian display names and
offers the distinct values of both columns in two select boxes. For the
chosen season and weather it keeps the matching rows and shows:

- the total rental count;
- the average rental count;
- a three-bar chart of the casual, registered and total sums, with a y-axis
  bound that leaves 10% headroom;
- the hour with the highest rental count.

This project models that pipeline and proves what it computes.

- `records.dfy` (module `Records`) holds the row type, the two label
  tables, and the relabelling. A cell is `Code(k)`, `Name(text)` or
  `Missing`, where `Missing` stands for NaN. The relabelling is a function on
  rows, plus methods that replace the two columns of an `array<Record>` in
  place, the way the script reassigns the columns.
- `options.dfy` (module `Options`) holds the order-preserving dedupe behind
  the select boxes and its first-occurrence index.
- `stats.dfy` (module `Stats`) holds the rest:
  - the filter and its subsequence relation;
  - the column sums and the total;
  - the bar series, the missing-value guard and the y bound;
  - the first-maximum peak search;
  - the average;
  - the whole view (`Dashboard`) and the script order (`RunDashboard`).

Modelling decisions:

- Element-wise `==` in a boolean mask is false for a missing value, even
  against a missing value. `Stats.Same` models that, so choosing the missing
  option selects no rows.
- A lookup in a label table turns anything that is not a key into a missing
  value, including a name that is already relabelled.
- `int(m * 1.1)` is modelled by the integer expression `(11 * m) / 10`
  (`Stats.Scaled`). Floating point is not modelled.
- The peak lookup fails on an empty table. `Stats.PeakOf` returns `None`
  there and has no precondition.
- A more general design would also allow an "all" choice per filter and
  grouped per-category aggregates. `dashboard.py` has neither: both filters
  are mandatory and it groups by no season or weather category. The model
  follows the code.
- On an empty table, the code's column sums are 0, not NaN. So the NaN
  guard on the maximum (lines 40-41) can only be reached through a missing
  maximum. It is modelled by `Stats.ScaleOrZero` on an optional maximum, and
  the bound is 0 for an empty result either way.

## Model

| member | source | states |
|---|---|---|
| Records.MapCell | dashboard.py:13-14 | a cell gets a name exactly when it is a code found in the table, and then the table's name for that code; anything else becomes missing; the result is never a code |
| Records.RelabelSeason | dashboard.py:13 | the season cell becomes its lookup in the season table; weather, hour, count, casual and registered are unchanged |
| Records.RelabelWeather | dashboard.py:14 | the weather cell becomes its lookup in the weather table; season, hour, count, casual and registered are unchanged |
| Records.RelabelRecord | dashboard.py:10-14 | the season and weather cells become their lookups in the two tables, a name exactly when the code is 1 to 4 (which name: `Records.SeasonLabels`, `Records.WeatherLabels`), missing otherwise; hour, count, casual and registered are unchanged |
| Records.RelabelRows | dashboard.py:13-14 | the relabelled table has the same length and each row is the relabelled input row |
| Records.SeasonLabels | dashboard.py:10 | codes 1, 2, 3, 4 get "Musim Semi", "Musim Panas", "Musim Gugur", "Musim Dingin"; every other code becomes missing |
| Records.WeatherLabels | dashboard.py:11 | codes 1, 2, 3, 4 get "Cerah", "Berawan", "Hujan Ringan", "Hujan Lebat"; every other code becomes missing |
| Records.LabelsInjective | dashboard.py:10-11 | two codes that get the same name are the same code |
| Records.RelabelTwiceLosesLabels | dashboard.py:13-14 | relabelling a relabelled table leaves every season and weather cell missing, so the relabelling is not idempotent and must run exactly once on the loaded table |
| Records.RelabelSeasonColumn | dashboard.py:13 | in place, every row's season is relabelled and every other field is kept |
| Records.RelabelWeatherColumn | dashboard.py:14 | in place, every row's weather is relabelled and every other field is kept |
| Records.Relabel | dashboard.py:13-14 | in place, the table becomes the relabelled copy of the old table |
| Options.FirstIndex | dashboard.py:18-19 | the result is a position of x with no earlier occurrence of x |
| Options.Unique | dashboard.py:18-19 | the result has no duplicates, holds exactly the values of the input, and is no longer than the input |
| Options.UniqueFirstSeenOrder | dashboard.py:18-19 | an option listed earlier first occurs earlier in the column (first-seen order) |
| Options.SeasonColumn | dashboard.py:18 | the column has one cell per row: that row's season |
| Options.WeatherColumn | dashboard.py:19 | the column has one cell per row: that row's weather |
| Options.SeasonOptions | dashboard.py:18 | the season choices have no duplicates; a value is a choice exactly when some row has it as its season; choices appear in the order of their first occurrence in the column |
| Options.WeatherOptions | dashboard.py:19 | the weather choices have no duplicates; a value is a choice exactly when some row has it as its weather; choices appear in the order of their first occurrence in the column |
| Options.RelabelledSeasonOptions | dashboard.py:13-18 | after relabelling, every season choice is one of the four season names or missing |
| Options.RelabelledWeatherOptions | dashboard.py:14-19 | after relabelling, every weather choice is one of the four weather names or missing |
| Stats.Same | dashboard.py:22 | a cell equals the chosen value only if they are equal; nothing equals a missing choice; an equal non-missing value does equal it |
| Stats.Matches | dashboard.py:22 | a row matches only if its season and weather are the chosen ones; no row matches a missing choice; a row with both chosen non-missing values matches |
| Stats.Filter | dashboard.py:22 | soundness: every kept row matches both choices; completeness: every matching row is kept; the result is a subsequence of the table |
| Stats.SubsequenceLength | dashboard.py:22 | a subsequence is no longer than the sequence it comes from |
| Stats.FilterLength | dashboard.py:22 | the filtered result is no longer than the table |
| Stats.FilterMultiplicity | dashboard.py:22 | a matching row occurs in the result as often as in the table; a non-matching row does not occur |
| Stats.FilterOnMissingIsEmpty | dashboard.py:22 | choosing the missing value for season or weather yields no rows |
| Stats.FilteredValuesAreOptions | dashboard.py:18-22 | if the result is non-empty, both chosen values are among the offered choices |
| Stats.SubsequenceMembers | dashboard.py:22 | every element of a subsequence is in the whole sequence |
| Stats.FilterByNameIsFilterByCode | dashboard.py:10-22 | filtering the relabelled table by two names equals relabelling the raw rows that have the corresponding codes |
| Stats.Sum | dashboard.py:33-47 | a column sum is at least every single value of the column, and is 0 exactly when every value is 0 |
| Stats.RelabelKeepsSums | dashboard.py:13-47 | relabelling the table leaves every column sum unchanged |
| Stats.SubsequenceSum | dashboard.py:22-33 | dropping rows never increases a column sum |
| Stats.Total | dashboard.py:33 | the total rentals over an empty filter result is 0 |
| Stats.TotalIsSumOfMatchingRows | dashboard.py:22-33 | the total equals the count summed over the table's matching rows, and is at most the table's total |
| Stats.BarData | dashboard.py:47 | exactly three bars, in the order casual, registered, cnt, each the sum of its column over the rows |
| Stats.MaxOf | dashboard.py:39 | the maximum is missing exactly for an empty series; otherwise it is an element of the series and no element exceeds it |
| Stats.Scaled | dashboard.py:43 | the scaled value is at least m and is the largest integer at most 1.1 * m |
| Stats.ScaleOrZero | dashboard.py:40-43 | a missing maximum gives 0; otherwise the bound is the truncation of 11/10 of the maximum: 10 * b <= 11 * m < 10 * b + 10, and at least the maximum |
| Stats.YBound | dashboard.py:39-43 | the y bound is the scaled maximum of the casual, registered and cnt sums, and at least each of the three |
| Stats.YBoundSpec | dashboard.py:39-53 | the y bound is the scaled maximum of the three sums, no bar is taller, it is 0 for no rows, and it is 0 exactly when all three sums are 0 |
| Stats.ConsistentCounts | dashboard.py:39-47 | if every row's count is casual plus registered, the cnt bar is the sum of the other two and sets the y bound |
| Stats.IdxMax | dashboard.py:76 | the result is the first position holding the largest count: no count is larger, and every earlier count is smaller |
| Stats.CntColumn | dashboard.py:77 | the count column has one entry per row: that row's count |
| Stats.PeakOf | dashboard.py:76-77 | missing exactly for no rows; otherwise the hour and count of the row at the first position of the largest count (such a position exists by `Stats.IdxMax`), and that count is at least every row's count |
| Stats.FirstMaxUnique | dashboard.py:76 | at most one position is the first maximum |
| Stats.PeakTieTakesFirst | dashboard.py:76-77 | counts 50, 120, 120 at hours 7, 8, 9 give peak hour 8 with count 120 |
| Stats.Average | dashboard.py:36 | the average is missing exactly for no rows; otherwise average times row count is the total |
| Stats.SumBelow | dashboard.py:36 | if every count is at most a bound, the total is at most the row count times that bound |
| Stats.QuotientBelow | dashboard.py:36 | a non-negative total at most n * c, divided by n > 0, lies between 0 and c |
| Stats.AverageAtMostPeak | dashboard.py:36-77 | on a non-empty result the average lies between 0 and the peak count |
| Stats.Dashboard | dashboard.py:18-77 | three bars with the cnt bar equal to the total; no bar above the y bound; the total is at most the table's total; the peak is missing exactly when no row matches; the average is missing exactly when the peak is |
| Stats.RunDashboard | dashboard.py:13-77 | the table is relabelled in place, then the view is computed from the relabelled table |

## Left out

- Loading the CSV file (line 7) is file I/O. The table is a parameter.
- The sidebar, titles, columns, metric widgets and text output are UI (lines 17-36, 62, 79-81). Only the option lists and the displayed values are modelled. The user's choice is a parameter of any category value.
- The bar plots, line plots, ticks, highlight bands, legend and the bar-label loop are plotting calls with no logic of their own (lines 46-74). The line plot (line 65) draws the per-hour mean of `cnt` with a confidence band. Both are computed inside the plotting library and are left out with the plotting.
- Stats.Average: rounding to two decimal places (line 36) is not modelled. The value is the exact rational total divided by the row count, and a NaN is `None`.
- Stats.Scaled: the IEEE floating-point product `m * 1.1` and its truncation (line 43) are replaced by the integer `(11 * m) / 10`. From about 7·10^14 the float result can exceed this stand-in by one. Above 2^53 (about 9·10^15) the conversion of the sum to a float already rounds, and the result can differ in either direction and by more than one. The column sums of this dataset are far below that range.
- Sums are unbounded naturals. 64-bit integer overflow of the column sums is not modelled.
- The filter compares row values, not index labels. The `.loc` lookup of the peak row (line 76) assumes the table's default unique row index.
