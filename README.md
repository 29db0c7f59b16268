# YouTube dashboard: loading, normalisation and aggregate tiles

This project models the data side of `streamlit_day3/youtube_dashboard.py`, a
Streamlit dashboard over a channel's per-video metrics export:

- `load_data` reads the aggregated-metrics export and drops its first data row
  (`iloc[1:]`). It parses each "Average view duration" with
  `strptime('%H:%M:%S')` and adds three columns: the duration in seconds,
  `Engagement_ratio` and `Views / sub gained`. It then sorts the table newest
  first, in place.
- The "engineer data" step takes a copy without Video and Video title. It
  computes the median of every column over the last 12 months before the
  latest publish date, boundary included. Every numeric cell becomes
  `(x - median) / median`.
- The "Aggregate Metrics" page takes ten tracked metrics. It computes their
  medians over the last 6 and the last 12 months and shows one tile per
  metric: the 6-month median and its change relative to the 12-month median.
  A counter walks the five page columns and wraps back to the first.

Modules:

| module | what it holds |
|---|---|
| `Wrappers` | `Option`/`Result`. `None` stands for pandas' NaN/NaT. |
| `Dates` | Calendar dates. `MonthsBack` is `pd.DateOffset(months = n)` subtracted from a date, with the day clamped to the month's length. |
| `Durations` | The `%H:%M:%S` parser, the conversion to seconds and its inverse. |
| `Statistics` | pandas' median, column medians of a table, and the relative difference `(x - m) / m`. |
| `Videos` | The rows of the export and of the loaded table, the derived columns, and `LoadData`. `LoadData` sorts an array in place with an insertion sort. |
| `Windows` | The latest publish date, the trailing-window threshold, the inclusive filter, and the 12-month baseline medians. |
| `Normalization` | The engineered table. `NormalizeInPlace` rewrites an array of rows. `EngineerData` builds the table and is proved equal to the specification function `Normalized`. |
| `Summary` | The tracked metrics, their 6- and 12-month medians, the deltas, and the tile loop `PlaceTiles` with its wrap-around counter. |

Division by zero:

- The code does not guard the divisions by a median (lines 39 and 67): pandas
  produces `inf` or `NaN`, and the model follows it. A relative difference
  from a zero median is `None`, the non-finite value. No cell is blanked and
  no delta is hidden.
- The two per-row ratios (lines 19-20) divide by Views and by Subscribers
  gained. These cells feed later medians, so they are not modelled as `None`.
  Instead, `LoadData` requires both counts to be non-zero.

## Model

| member | source | states |
|---|---|---|
| Dates.DaysInMonth | streamlit_day3/youtube_dashboard.py:33 | a month has 28 to 31 days, and 29 exactly for February of a leap year |
| Dates.MonthsBack | streamlit_day3/youtube_dashboard.py:33 | subtracting n months lands exactly n calendar months earlier, on the same day or, when that day does not exist, on the last day of the month |
| Dates.OrdinalOrder | streamlit_day3/youtube_dashboard.py:34 | comparing the date keys is the calendar order (year, month, day) in both directions, and the key is one-to-one |
| Dates.MonthsBackNotLater | streamlit_day3/youtube_dashboard.py:33 | the threshold is never after the date it is taken from, strictly before it for a positive offset, and the date itself for 0 months |
| Dates.MonthsBackAntitone | streamlit_day3/youtube_dashboard.py:56-57 | going back more months never gives a later threshold, so the 12-month threshold is not after the 6-month one |
| Dates.MonthsBackClampsDay | streamlit_day3/youtube_dashboard.py:33 | 2024-03-31 minus one month is 2024-02-29; 2024-02-29 minus 12 months is 2023-02-28; 2023-12-01 minus 12 months is 2022-12-01 |
| Durations.SplitJoin | streamlit_day3/youtube_dashboard.py:17 | cutting at ':' loses nothing: no field holds a ':' and joining the fields with ':' gives back the text |
| Durations.ParseField | streamlit_day3/youtube_dashboard.py:17 | an accepted strptime field is a one- or two-digit decimal spelling of the value it is read as, and that value is within its bound (23 for hours, 59 for minutes and seconds) |
| Durations.ParseFieldComplete | streamlit_day3/youtube_dashboard.py:17 | conversely, every one- or two-digit spelling of a value within the bound is accepted as that value |
| Durations.ParseDuration | streamlit_day3/youtube_dashboard.py:17 | a parsed duration is a valid time of day, and the text has exactly three ':'-separated fields that spell its hour, minute and second |
| Durations.ParseDurationSound | streamlit_day3/youtube_dashboard.py:17 | a text that parses is the spellings of the hour, minute and second joined by ':' |
| Durations.ParseDurationComplete | streamlit_day3/youtube_dashboard.py:17 | conversely, the spellings of any valid time's hour, minute and second joined by ':' parse as that time |
| Durations.ParseFormat | streamlit_day3/youtube_dashboard.py:17 | parsing the zero-padded HH:MM:SS spelling of any valid time gives that time back |
| Durations.ParseOneDigitFields | streamlit_day3/youtube_dashboard.py:17 | "0:4:9" is accepted as 00:04:09 |
| Durations.ParseHourOutOfRange | streamlit_day3/youtube_dashboard.py:17 | "24:00:00" is an error |
| Durations.ParseLeapSecond | streamlit_day3/youtube_dashboard.py:17 | "00:00:60" is an error |
| Durations.ParseThreeDigitField | streamlit_day3/youtube_dashboard.py:17 | "000:00:00" is an error |
| Durations.ParseMissingField | streamlit_day3/youtube_dashboard.py:17 | "00:00" is an error |
| Durations.ToSeconds | streamlit_day3/youtube_dashboard.py:18 | the duration in seconds lies in 0..86399 |
| Durations.FromSeconds | streamlit_day3/youtube_dashboard.py:18 | every second count under one day splits into a valid time of day |
| Durations.FromToSeconds | streamlit_day3/youtube_dashboard.py:18 | converting a time to seconds and back gives the same time, so no two durations share a second count |
| Durations.ToFromSeconds | streamlit_day3/youtube_dashboard.py:18 | every count in 0..86399 is the seconds of some valid time |
| Videos.EngagementRatio | streamlit_day3/youtube_dashboard.py:19 | the ratio times Views is comments + shares + dislikes + likes; it is non-negative for positive Views and non-negative counts |
| Videos.ViewsPerSubGained | streamlit_day3/youtube_dashboard.py:20 | the ratio times Subscribers gained is Views |
| Videos.WithDerivedColumns | streamlit_day3/youtube_dashboard.py:17-20 | the row keeps every original cell and gains the parsed duration, its seconds, and the two ratios, each of which times its denominator gives back its numerator |
| Videos.DurationTexts | streamlit_day3/youtube_dashboard.py:17 | the Average view duration column holds row i's duration text at position i, one per row |
| Videos.ApplyColumn | streamlit_day3/youtube_dashboard.py:17 | applying a raising function to a column succeeds exactly when every cell succeeds, maps cell by cell, and otherwise fails at the label of the first refused cell |
| Videos.DeriveColumns | streamlit_day3/youtube_dashboard.py:17-20 | loading succeeds exactly when every duration parses; then row i is row i of the input with its derived columns; otherwise the error names the first row whose duration is malformed |
| Videos.DropFirst | streamlit_day3/youtube_dashboard.py:12 | the first data row is left out and the others keep their order |
| Videos.SwapAdjacent | streamlit_day3/youtube_dashboard.py:21 | two neighbouring rows are exchanged and nothing else changes |
| Videos.InsertNewest | streamlit_day3/youtube_dashboard.py:21 | one insertion step extends the newest-first prefix by one row; the prefix keeps its rows as a multiset, the rows after it stay in place, and the array is a permutation of what it was |
| Videos.SortNewestFirst | streamlit_day3/youtube_dashboard.py:21 | the in-place sort leaves the rows in non-increasing publish order and is a permutation |
| Videos.LoadData | streamlit_day3/youtube_dashboard.py:11-21 | the loaded table holds exactly the derived rows (the input minus its first row), as a multiset, sorted newest first; a malformed duration is the error of DeriveColumns |
| Videos.NumericValues | streamlit_day3/youtube_dashboard.py:36 | a row has 18 numeric cells, with Views at position 9 |
| Statistics.Insert | streamlit_day3/youtube_dashboard.py:34 | inserting into an ascending sequence keeps it ascending and adds exactly the one value |
| Statistics.SortAscending | streamlit_day3/youtube_dashboard.py:34 | the sorted values are ascending and a permutation of the input |
| Statistics.Least | streamlit_day3/youtube_dashboard.py:34 | the column minimum is one of its values and no value is smaller |
| Statistics.Greatest | streamlit_day3/youtube_dashboard.py:34 | the column maximum is one of its values and no value is larger |
| Statistics.AscendingUnique | streamlit_day3/youtube_dashboard.py:34 | two ascending orderings of the same values are equal, so the median does not depend on how the sort orders them |
| Statistics.Median | streamlit_day3/youtube_dashboard.py:34 | the median lies between the column's minimum and maximum, and for an odd count it is one of the values |
| Statistics.MedianOrderFree | streamlit_day3/youtube_dashboard.py:34 | the median depends only on the multiset of values, not on the row order |
| Statistics.MedianOfAscending | streamlit_day3/youtube_dashboard.py:34 | for values already in order, the median is the middle value or the mean of the two middle ones |
| Statistics.MedianOfThree | streamlit_day3/youtube_dashboard.py:34 | the median of three values listed largest first is the middle one |
| Statistics.Column | streamlit_day3/youtube_dashboard.py:34 | a column holds the c-th cell of every row, in row order |
| Statistics.ColumnMedians | streamlit_day3/youtube_dashboard.py:34 | there is one median per column, each the median of that column |
| Statistics.RelativeDifference | streamlit_day3/youtube_dashboard.py:39 | `(x - m)/m` is non-finite exactly when m is 0; otherwise `m + m*n == x`, and n is 0 exactly when x equals m |
| Statistics.RelativeDifferenceSign | streamlit_day3/youtube_dashboard.py:67 | against a positive median the change is positive exactly when the value is above it and negative exactly when below |
| Windows.Latest | streamlit_day3/youtube_dashboard.py:33 | the latest publish date belongs to some row and no row is later |
| Windows.LatestOfNewestFirst | streamlit_day3/youtube_dashboard.py:33 | in the sorted table the latest date is the first row's |
| Windows.Threshold | streamlit_day3/youtube_dashboard.py:33 | the threshold is NaT exactly for an empty table, and otherwise no later than the latest date |
| Windows.OnOrAfter | streamlit_day3/youtube_dashboard.py:34 | the mask keeps exactly the rows published on or after the threshold, boundary included, each as many times as the table holds it, and drops every other row |
| Windows.Window | streamlit_day3/youtube_dashboard.py:33-34 | the window is no longer than the table, empty for an empty table, holds only rows of the table, and keeps each row on or after the threshold as often as the table holds it |
| Windows.WindowMembership | streamlit_day3/youtube_dashboard.py:33-34 | a row is in the n-month window exactly when it is in the table and its date is not before the latest date minus n months in calendar order |
| Windows.WindowHoldsLatest | streamlit_day3/youtube_dashboard.py:33-34 | the window holds the newest row, so it is non-empty whenever the table is |
| Windows.OnOrAfterNested | streamlit_day3/youtube_dashboard.py:56-59 | filtering at an earlier threshold and then at a later one is the same as filtering at the later one |
| Windows.WindowNested | streamlit_day3/youtube_dashboard.py:56-59 | a shorter window is the longer window filtered again, so every row of the shorter window is in the longer one |
| Windows.OnOrAfterKeepsAll | streamlit_day3/youtube_dashboard.py:34 | when no row is before the threshold, the whole table is kept |
| Windows.OnOrAfterPrefix | streamlit_day3/youtube_dashboard.py:34 | on the newest-first table, a window is a prefix of the table |
| Windows.NumericTable | streamlit_day3/youtube_dashboard.py:36 | the numeric cells of a table form one 18-cell row per table row |
| Windows.Baseline | streamlit_day3/youtube_dashboard.py:33-34 | the baseline is NaN exactly for an empty table, and otherwise has one median per numeric column |
| Windows.BaselineWithinWindow | streamlit_day3/youtube_dashboard.py:34 | each baseline median lies between its column's minimum and maximum over the 12-month window |
| Normalization.DropIdentity | streamlit_day3/youtube_dashboard.py:31-32 | dropping Video and Video title keeps the publish date, the duration and every numeric cell |
| Normalization.NormalizeCell | streamlit_day3/youtube_dashboard.py:39 | a finite cell becomes its relative difference from the median, and a NaN cell stays NaN |
| Normalization.NormalizeRow | streamlit_day3/youtube_dashboard.py:39 | normalising a row leaves its date columns untouched and keeps its number of cells |
| Normalization.Normalized | streamlit_day3/youtube_dashboard.py:31-39 | the engineered table has as many rows as the loaded table |
| Normalization.NormalizeInPlace | streamlit_day3/youtube_dashboard.py:39 | every row of the array is replaced by its normalised self |
| Normalization.EngineerData | streamlit_day3/youtube_dashboard.py:31-39 | the copy-and-normalise step computes exactly the engineered table `Normalized` |
| Normalization.NormalizedKeepsRows | streamlit_day3/youtube_dashboard.py:32-39 | row i of the engineered table is row i of the loaded table: same order, same date columns and 18 numeric cells |
| Normalization.NormalizedRoundTrip | streamlit_day3/youtube_dashboard.py:39 | each engineered cell is non-finite exactly when its baseline is 0; otherwise `m + m*norm` gives the loaded value back, and norm is 0 exactly when the value is the baseline |
| Normalization.ExampleWindow | streamlit_day3/youtube_dashboard.py:33-34 | rows published 2023-12-01, 2023-06-01 and 2023-01-01 all fall in their 12-month window |
| Normalization.WorkedExampleBaseline | streamlit_day3/youtube_dashboard.py:34 | with 300, 200 and 100 views on those dates, the 12-month Views median is 200 |
| Normalization.WorkedExample | streamlit_day3/youtube_dashboard.py:39 | the 100-view video is normalised to -0.5 |
| Summary.MetricValues | streamlit_day3/youtube_dashboard.py:48-54 | a row has ten tracked metrics, with Views first and equal to its Views numeric cell |
| Summary.MetricTable | streamlit_day3/youtube_dashboard.py:54 | the tracked-metric table has one ten-cell row per table row, row i being row i's metrics |
| Summary.MetricMedians | streamlit_day3/youtube_dashboard.py:56-59 | there are ten medians, NaN exactly for an empty table |
| Summary.MetricMediansWithinWindow | streamlit_day3/youtube_dashboard.py:58-59 | each metric median lies between that metric's minimum and maximum inside its window |
| Summary.SixMonthsInsideTwelve | streamlit_day3/youtube_dashboard.py:56-59 | the 6-month window is the 12-month window filtered again, so every 6-month row is a 12-month row |
| Summary.TwelveMonthViewsIsBaseline | streamlit_day3/youtube_dashboard.py:59 | the page's 12-month Views median is the Views baseline the engineered table is normalised by |
| Summary.Delta | streamlit_day3/youtube_dashboard.py:67 | the delta is the relative difference of the 6-month median from the 12-month median, and NaN when either median is NaN |
| Summary.TileFor | streamlit_day3/youtube_dashboard.py:67-68 | the tile for metric k shows its name and its 6-month median, and its delta is the relative difference from the 12-month median, or NaN when either median is NaN |
| Summary.NextTile | streamlit_day3/youtube_dashboard.py:69-71 | tile n goes to column n mod 5 at position n div 5, only that column grows, and the counter wraps from 4 to 0 |
| Summary.PlaceTiles | streamlit_day3/youtube_dashboard.py:64-71 | the counter ends at the number of metrics mod 5; metric k is shown in column k mod 5 at position k div 5; column c holds (n + 4 - c) div 5 tiles, one for each metric k with k mod 5 = c |
| Summary.AggregateMetrics | streamlit_day3/youtube_dashboard.py:48-71 | the ten metrics give two tiles in each of the five columns, the counter ends at 0, and every tile shows its metric's 6-month median and delta |

## Left out

- The Streamlit UI is not modelled: the sidebar, page text, `st.metric` rendering and the column objects. A page column is modelled as the list of tiles shown in it.
- Plotly is not modelled.
- Reading the CSV files and `st.cache_data` are not modelled. The export's rows are a parameter of `LoadData`.
- `df_agg_sub`, `df_comments` and `df_time`, and the date parsing of `df_time` (lines 22-25), are not modelled. No modelled computation uses them.
- Parsing the publish time with `%b %d, %Y` (line 16) is not modelled. A row carries its publish time as an already valid calendar date at midnight.
- Videos.LoadData: requires Views and Subscribers gained to be non-zero in every row. pandas would divide anyway and store `inf` or `NaN`.
- Videos.EngagementRatio: requires Views to be non-zero, for the same reason.
- Videos.ViewsPerSubGained: requires Subscribers gained to be non-zero, for the same reason.
- Videos.DeriveColumns: requires both counts to be non-zero in every row, for the same reason.
- Floating point is not modelled: reals are exact. Rounding the tile value to one decimal and formatting the delta as a percentage (line 68) are not modelled.
- `pd.to_numeric(errors='coerce')` (line 37) is not modelled. It is the identity on columns that are already numeric.
- Medians of the two datetime columns (publish time and the parsed duration) are not modelled, because they are never used.
- Medians skipping NaN cells are not modelled, because every numeric cell of the loaded table is finite.
- Durations.ParseField: strptime also accepts non-ASCII Unicode decimal digits. The model accepts only '0'-'9'.
- Videos.SortNewestFirst: pandas' sort is not stable. The model promises only the newest-first order and the permutation, not the relative order of rows published on the same day.
