# numerai_era_data in Dafny

A model of the core of `numerai_era_data`. The package builds two tables for
Numerai from public economic and market data:

- the era table: one row per weekly era since 2003-01-11, labelled with the
  zero-padded era number, holding the last known value of every feature column;
- the daily row: today's values of the same features, with era `"X"`.

Each table is cached on an `EraDataAPI` instance and rebuilt from every data
source when it is stale.

The model covers these parts:

- **Era arithmetic** (`DateUtils`, over a proleptic Gregorian calendar in
  `Civil`). Eras are 1-indexed, 7-day buckets counted from 2003-01-11. The
  "current date" is the UTC day, minus one while the hour is before noon. The
  clock is a pair of parameters: the UTC day number and the hour.
- **Date-keyed frames** (`Frames`). The pandas operations the sources use are
  modelled as functions on `seq<DatedRow>`:
  - `date_range`;
  - a left merge of date-shifted observations onto a day grid;
  - `ffill`;
  - per-column `shift`;
  - date filters;
  - the outer merge on the date column.

  Every source's alignment is proved to put, on day `d`, the value of the latest
  observation usable by `d` inside the padded window (`LatestValue`, which
  `LatestValueSpec` characterises).
- **The four data sources**:
  - `DsCalendar`: month, quarter and year per day.
  - `DsWei`: the Weekly Economic Index, dated six days later, with 13 days of
    padding.
  - `DsBls`: nine Bureau of Labor Statistics series. Each release date is parsed
    from a year and a period code. The series are padded by 184 days and each
    column is lagged by its publication delay.
  - `DsMarkets`: a class whose constructor builds sixteen S&P 500 columns over
    five windows. A trading day becomes usable the next day, with 300 days of
    padding and a cut at today in US/Eastern.

  Downloads are parameters: `None` stands for a request that raised.
- **The era table** (`EraTable`) and **the API** (`EraDataApi`).
  - `update_data` merges every source over the range from era 1 to the current
    era. A source that raises falls back to an all-missing frame. The merged
    days are labelled with `str(era).zfill(4)`, forward-filled and reduced to the
    last row of each era, and the columns are sorted.
  - `update_daily_data` merges every source over today. A source that raises
    falls back to the last row of the era table.
  - `get_all_eras` and `get_current_daily` update exactly when their cache is
    empty, lacks the current era or date, or lacks a column of some source.
  - `_get_data_sources` memoises the discovered classes.

  `EraDataAPI` is a class with the three caches as fields. Its methods are proved
  against the functions `UpdatedTable`, `UpdatedDaily`, `NeedsUpdate` and
  `DailyNeedsUpdate`, and the properties of the caches are lemmas about those
  functions.

Ten of the repository's tests (`tests/era_data_api_test.py`) disagree with the
code, and the model follows the code:
- The three `update_daily_data` tests (lines 121-161) expect the daily frame to
  have no era column. The code (`era_data_api.py` line 133) adds an era column
  of `"X"`.
- `test_update_data_with_exception` (lines 109-119) expects `column1` to survive
  an update whose only source raises. `update_data` rebuilds the table from the
  sources alone, so the table then has only the failing source's `column2` and
  `column3`.
- `test_get_all_eras_columns_changed` (lines 253-261) expects `get_all_eras` to
  keep the cached `column0` after the update that a new source column triggers.
  For the same reason the rebuilt table has only the sources' columns, so
  `column0` is dropped (`EraTable.TableColumns`, `EraDataApi.MergedColumns`).
- Five tests (lines 164-217), `test_get_current_era_columns_changed` among them,
  call a method `get_current_era` that `EraDataAPI` does not define.

## Model

| member | source | states |
|---|---|---|
| Civil.FromDayToDay | src/numerai_era_data/date_utils.py:3 | Converting a valid calendar date to its day number and back yields the same date, so `date(2003, 1, 11)` is a well-defined day |
| Civil.ToDayFromDay | src/numerai_era_data/data_sources/ds_calendar.py:19-22 | Every day number has a calendar date that converts back to it, so `dt.month` and `dt.year` are defined for every day of a `date_range` |
| Civil.FromDayValid | src/numerai_era_data/data_sources/ds_calendar.py:20-22 | The calendar date of any day has a month in 1..12 and a day within that month's length |
| DateUtils.EraForDate | src/numerai_era_data/date_utils.py:18-19 | The era of day `d` is the unique `e` with `d` in `[2003-01-11 + 7(e-1), 2003-01-11 + 7e)`: floor division, 1-indexed |
| DateUtils.CurrentDate | src/numerai_era_data/date_utils.py:10-15 | The current date is the UTC day minus one exactly when the hour is before 12, and the UTC day exactly when it is 12 or later |
| DateUtils.DateForEra | src/numerai_era_data/date_utils.py:22-23 | The first day of era `e` is in era `e`, and the day before it is in era `e - 1` |
| DateUtils.CurrentEra | src/numerai_era_data/date_utils.py:6-7 | The current era is the era whose seven days, from its first day, contain the current date |
| DateUtils.EraOneStartsOnJan11 | src/numerai_era_data/date_utils.py:22-23 | `get_date_for_era(1)` is 2003-01-11 |
| DateUtils.EraOfEraStart | src/numerai_era_data/date_utils.py:18-23 | `get_era_for_date(get_date_for_era(e)) == e` for every era, including eras below 1 |
| DateUtils.EraBucket | src/numerai_era_data/date_utils.py:18-23 | Every day lies in the 7 days that start on the first day of its era |
| DateUtils.ConsecutiveEras | src/numerai_era_data/date_utils.py:22-23 | Consecutive eras start exactly 7 days apart |
| DateUtils.EraMonotone | src/numerai_era_data/date_utils.py:18-19 | A later day never has an earlier era |
| DateUtils.EraPositiveIff | src/numerai_era_data/date_utils.py:18-19 | The era is at least 1 exactly when the day is on or after 2003-01-11 |
| DateUtils.SameEra | src/numerai_era_data/date_utils.py:18-23 | Two days share an era exactly when their eras start on the same day |
| DateUtils.EraAnchors | src/numerai_era_data/date_utils.py:18-23 | Era 1063 starts on 2023-05-20; 2023-05-26 is in era 1063 and 2023-05-27 in era 1064 |
| DateUtils.CurrentDateAnchors | src/numerai_era_data/date_utils.py:10-15 | At hour 11 of 2023-05-27 the current date is 2023-05-26; at hour 12 it is 2023-05-27 |
| Text.ZFill | src/numerai_era_data/era_data_api.py:100 | `zfill(w)` has length `max(len, w)` |
| Text.NatToStringDigits | src/numerai_era_data/era_data_api.py:100 | `str(n)` of a natural number is a non-empty digit string denoting `n` |
| Text.ParseZFill | src/numerai_era_data/era_data_api.py:100 | `int(str(i).zfill(w)) == i` for every integer, negative ones included |
| Text.StrLessOrder | src/numerai_era_data/era_data_api.py:103-104 | Python's string comparison is a strict total order |
| Text.SortColumns | src/numerai_era_data/era_data_api.py:103-104 | The result is strictly sorted in Python's string order and holds exactly the given names |
| Frames.DayRange | src/numerai_era_data/data_sources/ds_calendar.py:19 | `date_range(lo, hi)` has `hi - lo + 1` days (none when `hi < lo`), and day `i` is `lo + i` |
| Frames.LeftMergeShifted | src/numerai_era_data/data_sources/ds_wei.py:41-44 | The left merge keeps exactly the grid's days, in order |
| Frames.FFillLatest | src/numerai_era_data/data_sources/ds_wei.py:44 | After `ffill`, each cell holds the latest present value at or above its row, or is missing when there is none |
| Frames.LastPresentLatest | src/numerai_era_data/data_sources/ds_wei.py:44 | The backward scan from a row finds the latest present value of the column |
| Frames.IsLatestExtend | src/numerai_era_data/data_sources/ds_wei.py:44 | A row missing the column carries the previous row's filled value forward |
| Frames.LagColumns | src/numerai_era_data/data_sources/ds_bls.py:126-134 | Shifting keeps the row count and the dates |
| Frames.LaggedCell | src/numerai_era_data/data_sources/ds_bls.py:126-134 | After `shift(n)`, row `i` of the column holds row `i - n` of the input |
| Frames.AtOrAfterConsecutive | src/numerai_era_data/data_sources/ds_wei.py:46 | On consecutive days from `first`, the filter `date >= lo` drops exactly the first `lo - first` rows |
| Frames.AtOrAfterAll | src/numerai_era_data/data_sources/ds_wei.py:46 | The filter `date >= lo` keeps every row when all dates are at least `lo` |
| Frames.AtOrBeforeConsecutive | src/numerai_era_data/data_sources/ds_markets.py:72-75 | On consecutive days from `first`, the filter `date <= hi` keeps exactly the first `hi - first + 1` rows |
| Frames.LatestValueSpec | src/numerai_era_data/data_sources/ds_wei.py:41-46 | Scanning back from day `hi` to `lo` finds the value of the latest observation whose shifted date lies in `[lo, hi]`, or missing when there is none |
| Frames.LatestObservationUnique | src/numerai_era_data/data_sources/ds_wei.py:41-46 | The latest observation's value is unique |
| Frames.MergedLastPresent | src/numerai_era_data/data_sources/ds_wei.py:44 | Scanning the left merge back from row `m` finds the latest shifted observation up to day `first + m` |
| Frames.GridCell | src/numerai_era_data/data_sources/ds_bls.py:123-134 | In the merged, filled and lagged grid, row `i` of column `c` holds the latest observation usable by day `paddedStart + i - lag(c)` |
| Frames.AlignToDaysRows | src/numerai_era_data/data_sources/ds_bls.py:136 | The rows kept by `date >= start` are the grid's rows from `start` on |
| Frames.AlignToDaysSpec | src/numerai_era_data/data_sources/ds_bls.py:123-136 | The result is exactly the days from `start` to `end`, and on day `start + k` column `c` holds the latest observation usable by day `start + k - lag(c)` within the padding |
| Frames.AlignToDaysColumn | src/numerai_era_data/data_sources/ds_bls.py:123-136 | The same statement for one column and its lag |
| Frames.AlignToDaysUnlagged | src/numerai_era_data/data_sources/ds_wei.py:41-46 | The same statement for a column that is not shifted |
| Frames.AllMissing | src/numerai_era_data/era_data_api.py:96 | `data[columns] = None` leaves every cell missing |
| Frames.OuterMerge | src/numerai_era_data/era_data_api.py:98 | The outer merge has the columns of both frames, strictly increasing dates, and exactly the dates of either frame; each row holds the cells of the last row on its date in the first frame, overlaid by those of the second frame |
| EraTable.EraLabel | src/numerai_era_data/era_data_api.py:100 | The label `str(era).zfill(4)` has at least four characters |
| EraTable.EraLabelParses | src/numerai_era_data/era_data_api.py:100 | `astype(int)` reads every label back as its era |
| EraTable.EraLabelInjective | src/numerai_era_data/era_data_api.py:100 | Two eras share a label exactly when they are equal |
| EraTable.EraLabelWidth | src/numerai_era_data/era_data_api.py:100 | Eras 0 to 9999 get exactly four digits |
| EraTable.EraLabelAnchors | src/numerai_era_data/era_data_api.py:100 | Era 1063 is "1063", era 7 is "0007" and era -3 is "-003" |
| EraTable.LabelsIncrease | src/numerai_era_data/era_data_api.py:100 | Labels read back as integers compare like their eras |
| EraTable.KeptFrom | src/numerai_era_data/era_data_api.py:102 | `drop_duplicates(keep="last")` yields row indices in strictly increasing order, at most one per row |
| EraTable.KeptMembers | src/numerai_era_data/era_data_api.py:102 | The kept rows are exactly those that no later row shares an era with |
| EraTable.KeptNonempty | src/numerai_era_data/era_data_api.py:102 | Some row is kept exactly when there is a row |
| EraTable.Without | src/numerai_era_data/era_data_api.py:103-105 | Removing a column keeps exactly the other columns |
| EraTable.TableColumns | src/numerai_era_data/era_data_api.py:103-105 | The value columns are sorted in string order and are exactly the merged columns other than era and date |
| EraTable.Reshape | src/numerai_era_data/era_data_api.py:100-106 | The table's value columns are sorted and are exactly the merged columns other than era and date; it has at most as many rows as the merge, and a row exactly when the merge has one |
| EraTable.ReshapeRow | src/numerai_era_data/era_data_api.py:100-102 | Row `j` of the table is the `j`-th kept filled row, labelled with its day's era |
| EraTable.ReshapeKeepsLast | src/numerai_era_data/era_data_api.py:100-102 | Every row of the table is the forward-filled last merged day of its era, labelled with that era |
| EraTable.ReshapeErasDistinct | src/numerai_era_data/era_data_api.py:102 | No era label appears twice |
| EraTable.ReshapeCoversEras | src/numerai_era_data/era_data_api.py:100-102 | Every merged day's era has a row in the table |
| EraTable.ReshapeErasIncreasing | src/numerai_era_data/era_data_api.py:100-106 | When the merged dates increase, the table's eras, read back as integers, strictly increase |
| EraTable.LastRowLastDay | src/numerai_era_data/era_data_api.py:102 | The table's last row carries the era of the last merged day |
| EraTable.LastKept | src/numerai_era_data/era_data_api.py:102 | The last merged row is always kept, and it is kept last |
| EraDataApi.AnySourceMissing | src/numerai_era_data/era_data_api.py:46-51 | The loop with `break` reports a missing column exactly when some source has a column the cache lacks |
| EraDataApi.MaxEraSpec | src/numerai_era_data/era_data_api.py:43 | `astype(int).max()` exists exactly when every label is an integer; it is then at least every era and equal to one of them |
| EraDataApi.EraDataStale | src/numerai_era_data/era_data_api.py:42-44 | The era test raises exactly when some label is not an integer, and finds the table fresh exactly when every label is an integer and one of them reaches the current era |
| EraDataApi.NeedsUpdate | src/numerai_era_data/era_data_api.py:41-51 | `get_all_eras` raises exactly when some label is not an integer, and skips the update exactly when every label is an integer, one reaches the current era and every source column other than the era is a value column of the cache |
| EraDataApi.DailyNeedsUpdate | src/numerai_era_data/era_data_api.py:61-71 | `get_current_daily` updates exactly when the cache is empty, its first row is not dated today, or some source has a column, other than the date and the era, that the cache lacks |
| EraDataApi.ReshapeMaxEra | src/numerai_era_data/era_data_api.py:43 | The largest era of a freshly built table is the era of its last merged day |
| EraDataApi.FreshAfterUpdate | src/numerai_era_data/era_data_api.py:42-44 | After an update whose last merged day is in the current era, the era test no longer asks for an update |
| EraDataApi.DataSourcesMemoised | src/numerai_era_data/era_data_api.py:137-139 | Once the class cache is non-empty, later calls return it whatever discovery finds |
| EraDataApi.FallbackSpec | src/numerai_era_data/era_data_api.py:93-96 | The fallback of a failing source has its columns and one row per day of the range, with every cell missing |
| EraDataApi.FailingSourceFallsBack | src/numerai_era_data/era_data_api.py:87-96 | A source that raises contributes its fallback: its own columns over the whole range, all missing |
| EraDataApi.Merged | src/numerai_era_data/era_data_api.py:80-98 | The merge loop yields a frame exactly when there is a source |
| EraDataApi.UpdatedTable | src/numerai_era_data/era_data_api.py:78-106 | `update_data` produces a table exactly when there is a source; with none, reading the date column raises |
| EraDataApi.MergedDays | src/numerai_era_data/era_data_api.py:84-98 | The merged days are exactly the days of some source, a failing source's being the whole range |
| EraDataApi.MergedSorted | src/numerai_era_data/era_data_api.py:98 | When every source lists its days in increasing order, so does the merge |
| EraDataApi.UpdatedTableErasIncreasing | src/numerai_era_data/era_data_api.py:78-106 | When every source lists its days in increasing order, the stored table's eras, read back as integers, strictly increase |
| EraDataApi.UpdateLeavesFresh | src/numerai_era_data/era_data_api.py:78-106 | When the sources list their days in increasing order and one covers the last day of the range (a failing one always does), `update_data` leaves a table that the era test of `get_all_eras` finds fresh |
| EraDataApi.MergedColumns | src/numerai_era_data/era_data_api.py:84-98 | When every source contributes rows, the merge succeeds and its columns are every source's columns in order, a failing one included |
| EraDataApi.DailyFallbackSpec | src/numerai_era_data/era_data_api.py:118-128 | The daily fallback exists exactly when the era table has a row and holds the source's columns; it is then one row dated today, copying those columns from the table's last row |
| EraDataApi.DailyTableOf | src/numerai_era_data/era_data_api.py:133 | Adding the era column keeps the columns, dates and cells, and sets era "X" on every row |
| EraDataApi.UpdatedDailyEra | src/numerai_era_data/era_data_api.py:133-134 | Every row of a rebuilt daily table has era "X" |
| EraDataApi.MergedDailyOneDay | src/numerai_era_data/era_data_api.py:111-130 | When every source's contribution is dated today only, so is every row of the daily merge |
| EraDataApi.PrefixFails | src/numerai_era_data/era_data_api.py:116-130 | Once a source and its fallback both raise, the daily update raises |
| EraDataApi.EraDataAPI.constructor | src/numerai_era_data/era_data_api.py:18-36 | Each cache is what its file holds, or empty when there is no file; the class cache starts empty |
| EraDataApi.EraDataAPI.GetDataSources | src/numerai_era_data/era_data_api.py:137-157 | Returns the cached classes when there are any, else caches and returns the discovered ones; nothing else changes |
| EraDataApi.EraDataAPI.UpdateData | src/numerai_era_data/era_data_api.py:78-109 | The era table becomes the reshaped merge of every source over era 1 to the current era; it is unchanged when the update raises; the daily cache is unchanged |
| EraDataApi.EraDataAPI.UpdateDailyData | src/numerai_era_data/era_data_api.py:111-135 | The daily table becomes the merge of every source over today, with era "X"; it is unchanged when a fallback raises; the era table is unchanged |
| EraDataApi.EraDataAPI.GetAllEras | src/numerai_era_data/era_data_api.py:38-56 | Without the staleness check it returns the cache untouched. Otherwise it updates exactly when the cache is empty, lacks the current era or lacks a source's column, and raises when a label is not an integer |
| EraDataApi.EraDataAPI.GetCurrentDaily | src/numerai_era_data/era_data_api.py:58-76 | Without the staleness check it returns the cache untouched. Otherwise it updates exactly when the daily cache is empty, its first row is not dated today, or it lacks a source's column |
| DsCalendar.Quarter | src/numerai_era_data/data_sources/ds_calendar.py:21 | The quarter is in 1..4 and contains the month |
| DsCalendar.DayCellsSpec | src/numerai_era_data/data_sources/ds_calendar.py:20-22 | Each day carries its calendar month (1..12), that month's quarter and its year |
| DsCalendar.GetData | src/numerai_era_data/data_sources/ds_calendar.py:17-25 | One row per day from start to end in order, with that day's calendar cells and the three columns |
| DsCalendar.GetDataAnchors | src/numerai_era_data/data_sources/ds_calendar.py:17-25 | 2023-05-20 is month 5, quarter 2 of 2023; 2023-12-31 is month 12, quarter 4 |
| DsWei.GetData | src/numerai_era_data/data_sources/ds_wei.py:16-48 | `get_data` succeeds exactly when the download succeeds, and then its only column is the WEI column |
| DsWei.GetDataShape | src/numerai_era_data/data_sources/ds_wei.py:16-48 | A successful download gives the single WEI column and one row per day from start to end |
| DsWei.GetDataCells | src/numerai_era_data/data_sources/ds_wei.py:41-46 | On each day the cell is the latest observation whose date plus 6 lies between start minus 13 and that day |
| DsWei.FailedDownload | src/numerai_era_data/data_sources/ds_wei.py:28-29 | A failed request raises |
| DsWei.SingleDay | src/numerai_era_data/data_sources/ds_wei.py:18-46 | A one-day request returns exactly one row, dated that day |
| DsWei.VisibleOnReleaseDay | src/numerai_era_data/data_sources/ds_wei.py:40-44 | Six days after an observation's date, the frame holds exactly that observation |
| DsWei.MissingBeforeFirstRelease | src/numerai_era_data/data_sources/ds_wei.py:41-46 | Before any observation is usable, the cell is missing |
| DsBls.LagWithinPadding | src/numerai_era_data/data_sources/ds_bls.py:38 | Every column's lag (at most 134) is below the 184 days of padding |
| DsBls.ColumnFor | src/numerai_era_data/data_sources/ds_bls.py:107-116 | A requested series id is renamed to one of the nine columns |
| DsBls.PeriodMonth | src/numerai_era_data/data_sources/ds_bls.py:85-91 | A parsed period names a month in 1..12 |
| DsBls.PeriodMonthSpec | src/numerai_era_data/data_sources/ds_bls.py:85-91 | "Qn" parses exactly for n in 1..4, naming month 3n-2, whose quarter is n. A code with digits after the first character parses exactly for months 1..12, naming that month |
| DsBls.PeriodMonthExamples | src/numerai_era_data/data_sources/ds_bls.py:85-91 | Q1..Q4 name months 1, 4, 7 and 10; Q0, Q5, M13 and the empty code raise; M05 and M12 name 5 and 12 |
| DsBls.ReleaseDateSpec | src/numerai_era_data/data_sources/ds_bls.py:84-92 | A release date exists exactly when the year and the period parse, and it is the first day of that month |
| DsBls.CollectAllSpec | src/numerai_era_data/data_sources/ds_bls.py:77-98 | A loop that raises at the first failing element succeeds exactly when every element succeeds, and then collects every result in order |
| DsBls.SeriesDatesSpec | src/numerai_era_data/data_sources/ds_bls.py:83-92 | A series' dates resolve exactly when each data point's date parses, and then they are those dates in order |
| DsBls.ParseSeriesDates | src/numerai_era_data/data_sources/ds_bls.py:83-92 | The loop over data points computes `SeriesDates` |
| DsBls.AllSeriesSpec | src/numerai_era_data/data_sources/ds_bls.py:77-98 | All series resolve exactly when every series' dates parse, and then each keeps its id and is paired with its dates |
| DsBls.CollectSeries | src/numerai_era_data/data_sources/ds_bls.py:77-98 | The loop over the response's series computes `AllSeries` |
| DsBls.SeriesColumns | src/numerai_era_data/data_sources/ds_bls.py:107-116 | One column per series, in response order, each renamed |
| DsBls.PointOn | src/numerai_era_data/data_sources/ds_bls.py:95-96 | A series has a value on a day exactly when one of its points is dated that day, and the value is such a point's |
| DsBls.LastReporting | src/numerai_era_data/data_sources/ds_bls.py:101-116 | The index found is that of a series renamed to `c` with a point on day `d`, and no later series is one; -1 when there is none |
| DsBls.ValueOn | src/numerai_era_data/data_sources/ds_bls.py:95-116 | Column `c` has no value on day `d` exactly when no series renamed to `c` has a point on `d`; otherwise the value is the point of the last such series |
| DsBls.RowOn | src/numerai_era_data/data_sources/ds_bls.py:101-116 | The combined row of a day has, in each renamed column, that column's value on the day, and nothing in any other column |
| DsBls.Combine | src/numerai_era_data/data_sources/ds_bls.py:94-116 | The combined frame has a row exactly on the release dates of any series, and each cell of a renamed column holds that column's value on the row's day |
| DsBls.CombinedRelease | src/numerai_era_data/data_sources/ds_bls.py:94-116 | A value of column `c` on day `e` is a row of the combined frame, holding that value in `c` |
| DsBls.GetData | src/numerai_era_data/data_sources/ds_bls.py:73-138 | A status other than 200 raises, and a successful result has all nine columns |
| DsBls.GetDataFails | src/numerai_era_data/data_sources/ds_bls.py:73-134 | `get_data` succeeds exactly when the status is 200, every release date parses and all nine columns are present |
| DsBls.ErrorStatusRaises | src/numerai_era_data/data_sources/ds_bls.py:102-104 | A status other than 200 raises |
| DsBls.GetDataShape | src/numerai_era_data/data_sources/ds_bls.py:36-138 | A successful result has the renamed series as columns and one row per day from start to end |
| DsBls.GetDataCells | src/numerai_era_data/data_sources/ds_bls.py:122-136 | On each day, column `c` holds the latest release dated between start minus 184 and that day minus the column's lag |
| DsBls.VisibleAfterLag | src/numerai_era_data/data_sources/ds_bls.py:123-136 | The value a column takes on a release date shows in that column on the day its lag later, when that day is in the range |
| DsBls.AlignedRelease | src/numerai_era_data/data_sources/ds_bls.py:123-136 | After alignment, an observed cell of day `e` shows in its column on day `e` plus the column's lag |
| DsBls.ReleaseFound | src/numerai_era_data/data_sources/ds_bls.py:123 | The backward scan stops at once on an observed cell |
| DsMarkets.WindowColumns | src/numerai_era_data/data_sources/ds_markets.py:24-32 | One column per window, `prefix + str(w)`, in window order |
| DsMarkets.MarketsColumnsLiteral | src/numerai_era_data/data_sources/ds_markets.py:11-32 | The column list is the close and then the SMA, EMA and return columns for 10, 20, 50, 100 and 200: sixteen names, spelled out |
| DsMarkets.SmaNames | src/numerai_era_data/data_sources/ds_markets.py:24-26 | The five moving-average column names |
| DsMarkets.EmaNames | src/numerai_era_data/data_sources/ds_markets.py:27-29 | The five exponential-average column names |
| DsMarkets.ReturnNames | src/numerai_era_data/data_sources/ds_markets.py:30-32 | The five return column names |
| DsMarkets.DataSourceMarkets.constructor | src/numerai_era_data/data_sources/ds_markets.py:21-32 | `COLUMNS` is the sixteen-name list, and each `COLUMN_SPX_SMA<w>`, `COLUMN_SPX_EMA<w>` and `COLUMN_SPX_RETURN<w>` attribute names its column |
| DsMarkets.DataSourceMarkets.AddFamily | src/numerai_era_data/data_sources/ds_markets.py:24-26 | One loop appends the family's five columns and sets their attributes, leaving other families' attributes unchanged |
| DsMarkets.DataSourceMarkets.GetColumns | src/numerai_era_data/data_sources/ds_markets.py:83-84 | `get_columns` returns the instance's `COLUMNS` |
| DsMarkets.DataSourceMarkets.GetData | src/numerai_era_data/data_sources/ds_markets.py:34-81 | Succeeds exactly when the download succeeds, and then its columns are exactly `get_columns()` |
| DsMarkets.AlignMarkets | src/numerai_era_data/data_sources/ds_markets.py:72-75 | The rows are exactly the days from start to the earlier of end and today |
| DsMarkets.AlignMarketsCells | src/numerai_era_data/data_sources/ds_markets.py:66-75 | On each day the cell is the latest trading day's value whose day plus one lies between start minus 300 and that day |
| DsMarkets.VisibleNextDay | src/numerai_era_data/data_sources/ds_markets.py:64-69 | The day after a trading day, when in range and not after today, shows exactly that trading day's value |
| DsMarkets.GetDataSpec | src/numerai_era_data/data_sources/ds_markets.py:66-81 | A completed download gives the instance's columns, one row per day up to the earlier of end and today, each cell the latest usable trading-day value |

## Left out

- Floating point and the indicator arithmetic: the rolling mean, the exponential mean and `pct_change` (`ds_markets.py` lines 51-60) are not modelled. The downloaded trading days arrive with every column already computed, and cell values are an opaque type `V`.
- I/O: HTTP requests, CSV and JSON parsing, and parquet files. Responses and downloads are parameters, and the caches read at construction are constructor parameters. Writing the caches back to disk is not modelled.
- Logging of exceptions. On a BLS status other than 200, the `print` before the exception reads `series_id`, which is assigned only on the success path, so the print itself raises `UnboundLocalError`; either way `get_data` raises, which is all the model records.
- Discovery of data-source classes by `importlib`, `pkgutil` and `inspect`: the discovered classes are a parameter of each call. The class cache and its memoisation are modelled.
- Clocks: the UTC day, the hour and "today" in US/Eastern are parameters. The source compares the local clock's hour with noon while it takes the date in UTC; the model does not relate the two. Each call reads the clock once, whereas the source may read it more than once.
- Exceptions: an exception is modelled as `None` or `false`. The state left behind is the state before the failing step.
- Pandas merge suffixes: the outer merge assumes the sources have disjoint columns. When two sources share a column, pandas would add `_x`/`_y` suffixes; the model keeps the right-hand frame's cell.
- Frames.OuterMerge keeps one row per date. Pandas would pair every row of one frame with every row of the other on a repeated date; no source repeats a date.
- Text.ParseInt accepts an optional sign followed by decimal digits. Python's `int` also accepts surrounding whitespace and underscores, which era labels never contain.
- DsBls.PointOn / DsBls.ValueOn assume distinct series ids and, within a series, distinct periods, as the BLS API returns them. Otherwise the model keeps the last point dated a day and the last series with an id, whereas pandas raises in `concat(axis=1)` on a repeated date and keeps two columns under a repeated name (ds_bls.py lines 101-134).
- DsBls.ReleaseDate reads the year of a monthly period as an integer, whereas `pd.to_datetime` parses the joined `year-month` text itself. Other date formats accepted by `to_datetime` are not modelled.
- EraDataApi.EraDataAPI.GetCurrentDaily assumes the daily cache has a date column whenever it has rows.
- EraDataApi.DailyStale reads the first row of the daily cache, whereas the source reads the row labelled 0. `update_daily_data` does not reset the index, so after an update whose only source kept a filtered frame (a label other than 0), pandas raises `KeyError` there; the model does not.
- EraDataApi.UpdatedTableErasIncreasing and EraDataApi.UpdateLeavesFresh assume every source lists its days in increasing order. The outer merge sorts the days, but a lone source's frame is stored as it came, so a lone source with days out of order yields eras out of order.
- The `end` bound of the markets download (`yf.download` excludes its end date) belongs to the download parameter and is not modelled separately.
