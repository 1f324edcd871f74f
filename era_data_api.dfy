/**
  `EraDataAPI`: the era table and the daily row, each cached on the instance and
  rebuilt from every data source when stale.

  The disk, the logging and the discovery of data-source classes by reflection
  are not modelled: the caches read from disk are constructor parameters, the
  discovered classes are a parameter of each call, and so are a source's
  downloads (`fetch`, `None` when `get_data` raises) and the clock (the UTC day
  and the hour).
*/
module EraDataApi {
  import opened Wrappers
  import opened Frames
  import opened EraTable
  import Text
  import Sorting
  import DateUtils

  /** A data-source class as the API sees it: its name and `get_columns()`. */
  datatype SourceClass = SourceClass(name: string, columns: seq<Column>)

  /** A row of the daily cache: its date, its era label and its value cells. */
  datatype DailyRow<V> = DailyRow(date: int, era: string, cells: Cells<V>)

  /** The daily cache. `columns` are the value columns between the date and the era. */
  datatype DailyTable<V> = DailyTable(columns: seq<Column>, rows: seq<DailyRow<V>>)

  /** The era label of every daily row. */
  const DailyEra: string := "X"

  /** `data_cache.columns` */
  function DataCacheColumns<V>(t: Table<V>): seq<Column> {
    [EraColumn] + t.columns
  }

  /** `daily_cache.columns` */
  function DailyCacheColumns<V>(t: DailyTable<V>): seq<Column> {
    [DateColumn] + t.columns + [EraColumn]
  }

  /** `set(cols).issubset(set(present))` */
  predicate Covers(present: seq<Column>, cols: seq<Column>) {
    forall c :: c in cols ==> c in present
  }

  /** Some source has a column the cache lacks. */
  predicate SomeSourceMissing(sources: seq<SourceClass>, present: seq<Column>) {
    exists i :: 0 <= i < |sources| && !Covers(present, sources[i].columns)
  }

  /** The loop shared by `get_all_eras` and `get_current_daily`: stop at the first
      source whose columns are not all present. */
  method AnySourceMissing(sources: seq<SourceClass>, present: seq<Column>) returns (missing: bool)
    ensures missing <==> SomeSourceMissing(sources, present)
  {
    missing := false;
    var i := 0;
    while i < |sources|
      invariant 0 <= i <= |sources|
      invariant !missing
      invariant forall j :: 0 <= j < i ==> Covers(present, sources[j].columns)
    {
      var covered := true;
      var k := 0;
      while k < |sources[i].columns|
        invariant 0 <= k <= |sources[i].columns|
        invariant covered <==> forall n :: 0 <= n < k ==> sources[i].columns[n] in present
      {
        if sources[i].columns[k] !in present {
          covered := false;
        }
        k := k + 1;
      }
      if !covered {
        missing := true;
        return;
      }
      i := i + 1;
    }
  }

  /** `astype(int).max()` of the era labels: `None` when some label is not an
      integer (which raises). */
  function MaxEra<V>(rows: seq<EraRow<V>>): Option<int>
    requires |rows| > 0
    decreases |rows|
  {
    var last := Text.ParseInt(rows[|rows| - 1].era);
    if last.None? then None
    else if |rows| == 1 then last
    else match MaxEra(rows[..|rows| - 1])
      case None => None
      case Some(m) => Some(if m < last.value then last.value else m)
  }

  /** The maximum is the largest era read back, and it exists exactly when every
      label reads as an integer. */
  lemma {:induction false} MaxEraSpec<V>(rows: seq<EraRow<V>>)
    requires |rows| > 0
    ensures MaxEra(rows).Some? <==> forall i :: 0 <= i < |rows| ==> Text.ParseInt(rows[i].era).Some?
    ensures MaxEra(rows).Some? ==>
      && (forall i :: 0 <= i < |rows| ==> Text.ParseInt(rows[i].era).value <= MaxEra(rows).value)
      && (exists i :: 0 <= i < |rows| && Text.ParseInt(rows[i].era).value == MaxEra(rows).value)
    decreases |rows|
  {
    if |rows| > 1 {
      var init := rows[..|rows| - 1];
      MaxEraSpec(init);
      assert forall i :: 0 <= i < |init| ==> init[i] == rows[i];
      if MaxEra(rows).Some? {
        var j :| 0 <= j < |init| && Text.ParseInt(init[j].era).value == MaxEra(init).value;
        assert Text.ParseInt(rows[j].era) == Text.ParseInt(init[j].era);
      }
    }
  }

  /** The era test of `get_all_eras`: the cache is empty or lacks the current era;
      `None` when reading the eras raises. */
  function EraDataStale<V>(cache: Table<V>, currentEra: int): (stale: Option<bool>)
    ensures stale.None? <==> !ErasRead(cache.rows)
    ensures stale == Some(false) <==> ErasRead(cache.rows) && ReachesEra(cache.rows, currentEra)
  {
    if |cache.rows| == 0 then Some(true)
    else
      MaxEraSpec(cache.rows);
      match MaxEra(cache.rows)
      case None => None
      case Some(m) => Some(m < currentEra)
  }

  /** Every era label reads as an integer. */
  predicate ErasRead<V>(rows: seq<EraRow<V>>) {
    forall i :: 0 <= i < |rows| ==> Text.ParseInt(rows[i].era).Some?
  }

  /** Some era label reads as an era at or after `era`. */
  predicate ReachesEra<V>(rows: seq<EraRow<V>>, era: int) {
    exists i :: 0 <= i < |rows| && Text.ParseInt(rows[i].era).Some? && Text.ParseInt(rows[i].era).value >= era
  }

  /** The largest era of a table reshaped from days in increasing order is the era
      of the last day. */
  lemma ReshapeMaxEra<V>(merged: Frame<V>, last: int)
    requires last == |merged.rows| - 1 && last >= 0
    requires Sorting.StrictlySorted(Dates(merged.rows), IntLess)
    ensures |Reshape(merged).rows| > 0
    ensures MaxEra(Reshape(merged).rows) == Some(DateUtils.EraForDate(merged.rows[last].date))
  {
    var e := DateUtils.EraForDate(merged.rows[last].date);
    var n := LastRowLastDay(merged, last);
    EraLabelParses(e);
    ReshapeErasIncreasing(merged);
    ErasAtMostLast(Reshape(merged).rows, n, e);
    MaxEraOf(Reshape(merged).rows, e, n);
  }

  /** In a table whose eras increase, no era exceeds the last one. */
  lemma ErasAtMostLast<V>(rows: seq<EraRow<V>>, n: int, e: int)
    requires forall j, k :: 0 <= j < k < |rows| ==> ReadsBelow(rows[j].era, rows[k].era)
    requires n == |rows| - 1 && n >= 0 && Text.ParseInt(rows[n].era) == Some(e)
    ensures forall j :: 0 <= j < |rows| ==> ReadsAtMost(rows[j].era, e)
  {
    forall j | 0 <= j < |rows| ensures ReadsAtMost(rows[j].era, e) {
      if j < n {
        assert ReadsBelow(rows[j].era, rows[n].era);
      }
    }
  }

  /** The label reads as an integer no greater than `e`. */
  predicate ReadsAtMost(s: string, e: int) {
    Text.ParseInt(s).Some? && Text.ParseInt(s).value <= e
  }

  /** When every label reads at most `e` and the last reads `e`, the maximum is `e`. */
  lemma MaxEraOf<V>(rows: seq<EraRow<V>>, e: int, n: int)
    requires n == |rows| - 1 && n >= 0 && Text.ParseInt(rows[n].era) == Some(e)
    requires forall j :: 0 <= j < |rows| ==> ReadsAtMost(rows[j].era, e)
    ensures MaxEra(rows) == Some(e)
  {
    MaxEraSpec(rows);
  }

  /** After an update whose last merged day lies in the current era, the era test
      finds the table fresh. */
  lemma FreshAfterUpdate<V>(merged: Frame<V>, last: int, currentEra: int)
    requires last == |merged.rows| - 1 && last >= 0
    requires Sorting.StrictlySorted(Dates(merged.rows), IntLess)
    requires DateUtils.EraForDate(merged.rows[last].date) >= currentEra
    ensures EraDataStale(Reshape(merged), currentEra) == Some(false)
  {
    ReshapeMaxEra(merged, last);
  }

  /** Whether `get_all_eras` updates: stale eras or a missing source column. */
  function NeedsUpdate<V>(cache: Table<V>, currentEra: int, sources: seq<SourceClass>): (update: Option<bool>)
    ensures update.None? <==> !ErasRead(cache.rows)
    ensures update == Some(false) <==>
      && ErasRead(cache.rows)
      && ReachesEra(cache.rows, currentEra)
      && forall i, c :: 0 <= i < |sources| && c in sources[i].columns && c != EraColumn ==> c in cache.columns
  {
    match EraDataStale(cache, currentEra)
    case None => None
    case Some(stale) => Some(stale || SomeSourceMissing(sources, DataCacheColumns(cache)))
  }

  /** The date test of `get_current_daily`: the cache is empty or its first row is not
      dated today. */
  function DailyStale<V>(cache: DailyTable<V>, currentDate: int): bool {
    |cache.rows| == 0 || cache.rows[0].date != currentDate
  }

  /** Whether `get_current_daily` updates. */
  function DailyNeedsUpdate<V>(cache: DailyTable<V>, currentDate: int, sources: seq<SourceClass>): (update: bool)
    ensures update <==>
      || |cache.rows| == 0
      || cache.rows[0].date != currentDate
      || exists i, c :: 0 <= i < |sources| && c in sources[i].columns && c != DateColumn && c != EraColumn && c !in cache.columns
  {
    DailyStale(cache, currentDate) || SomeSourceMissing(sources, DailyCacheColumns(cache))
  }

  /** `_get_data_sources`: the cached classes when there are any, else the discovered ones. */
  function DataSources(cached: seq<SourceClass>, discovered: seq<SourceClass>): seq<SourceClass> {
    if |cached| > 0 then cached else discovered
  }

  /** Once some classes are cached, later calls return them whatever is discovered. */
  lemma DataSourcesMemoised(cached: seq<SourceClass>, d1: seq<SourceClass>, d2: seq<SourceClass>)
    requires DataSources(cached, d1) != []
    ensures DataSources(DataSources(cached, d1), d2) == DataSources(cached, d1)
  {
  }

  /** The frame `update_data` builds for a source that raised: every day of the range,
      every column of the source missing. */
  function Fallback<V>(columns: seq<Column>, start: int, end: int): Frame<V> {
    var days := DayRange(start, end);
    Frame(columns, seq(|days|, i requires 0 <= i < |days| => DatedRow(days[i], AllMissing(columns))))
  }

  /** The fallback has the source's columns and one row per day of the range, every
      cell missing. */
  lemma FallbackSpec<V>(columns: seq<Column>, start: int, end: int)
    ensures var f := Fallback<V>(columns, start, end);
      && f.columns == columns
      && |f.rows| == (if end < start then 0 else end - start + 1)
      && (forall i :: 0 <= i < |f.rows| ==> f.rows[i].date == start + i)
      && (forall i, c :: 0 <= i < |f.rows| ==> Cell(f.rows[i].cells, c) == None)
  {
    var f := Fallback<V>(columns, start, end);
    forall i, c | 0 <= i < |f.rows| ensures Cell(f.rows[i].cells, c) == None {
      assert f.rows[i].cells == AllMissing<V>(columns);
    }
  }

  /** What source `s` contributes to `update_data`. */
  function SourceData<V>(fetch: (SourceClass, int, int) -> Option<Frame<V>>, s: SourceClass, start: int, end: int): Frame<V> {
    match fetch(s, start, end)
    case None => Fallback(s.columns, start, end)
    case Some(f) => f
  }

  /** One step of the merge loop: the new frame replaces an empty accumulator (none
      yet, or no rows), and is outer-merged on the date otherwise. */
  function Accumulate<V>(acc: Option<Frame<V>>, data: Frame<V>): Frame<V> {
    if acc.None? || |acc.value.rows| == 0 then data else OuterMerge(acc.value, data)
  }

  /** The merge loop of `update_data` over `sources`; `None` before any source. */
  function Merged<V>(fetch: (SourceClass, int, int) -> Option<Frame<V>>, sources: seq<SourceClass>, start: int, end: int): (merged: Option<Frame<V>>)
    ensures merged.Some? <==> sources != []
    decreases |sources|
  {
    if sources == [] then None
    else Some(Accumulate(Merged(fetch, sources[..|sources| - 1], start, end),
                         SourceData(fetch, sources[|sources| - 1], start, end)))
  }

  /** The table `update_data` stores; `None` when there was no source (reading the
      date column then raises). */
  function UpdatedTable<V>(fetch: (SourceClass, int, int) -> Option<Frame<V>>, sources: seq<SourceClass>, start: int, end: int): (t: Option<Table<V>>)
    ensures t.Some? <==> sources != []
  {
    match Merged(fetch, sources, start, end)
    case None => None
    case Some(f) => Some(Reshape(f))
  }

  /** A source that raises does not stop the others: when every source contributes
      rows (a failing one contributes its fallback), the merged columns are every
      source's columns in order, a failing source's being its `get_columns()`. */
  lemma {:induction false} MergedColumns<V>(fetch: (SourceClass, int, int) -> Option<Frame<V>>, sources: seq<SourceClass>, start: int, end: int)
    requires start <= end
    requires forall i :: 0 <= i < |sources| ==> |SourceData(fetch, sources[i], start, end).rows| > 0
    ensures sources != [] ==> Merged(fetch, sources, start, end).Some?
    ensures sources != [] ==> |Merged(fetch, sources, start, end).value.rows| > 0
    ensures sources != [] ==> Merged(fetch, sources, start, end).value.columns == SourceColumns(fetch, sources, start, end)
    decreases |sources|
  {
    if sources != [] {
      var init := sources[..|sources| - 1];
      var data := SourceData(fetch, sources[|sources| - 1], start, end);
      MergedColumns(fetch, init, start, end);
      if init != [] {
        var acc := Merged(fetch, init, start, end).value;
        var m := OuterMerge(acc, data);
        assert data.rows[0].date in Dates(data.rows);
        var d := data.rows[0].date;
        assert d in Dates(m.rows);
      }
    }
  }

  /** The merged days are the days of every source, a failing source's being the
      whole range. */
  lemma {:induction false} MergedDays<V>(fetch: (SourceClass, int, int) -> Option<Frame<V>>, sources: seq<SourceClass>, start: int, end: int, d: int)
    requires sources != []
    ensures d in Dates(Merged(fetch, sources, start, end).value.rows) <==>
      exists i :: 0 <= i < |sources| && d in Dates(SourceData(fetch, sources[i], start, end).rows)
    decreases |sources|
  {
    var n := |sources| - 1;
    var init := sources[..n];
    assert forall i :: 0 <= i < n ==> init[i] == sources[i];
    var data := SourceData(fetch, sources[n], start, end);
    var acc := Merged(fetch, init, start, end);
    if init != [] {
      MergedDays(fetch, init, start, end, d);
      if |acc.value.rows| == 0 {
        forall i | 0 <= i < n ensures d !in Dates(SourceData(fetch, sources[i], start, end).rows) {
          assert d !in Dates(acc.value.rows);
        }
      }
    }
  }

  /** When every source lists its days in increasing order, so does the merge. */
  lemma MergedSorted<V>(fetch: (SourceClass, int, int) -> Option<Frame<V>>, sources: seq<SourceClass>, start: int, end: int)
    requires forall i :: 0 <= i < |sources| ==> Sorting.StrictlySorted(Dates(SourceData(fetch, sources[i], start, end).rows), IntLess)
    ensures sources != [] ==> Sorting.StrictlySorted(Dates(Merged(fetch, sources, start, end).value.rows), IntLess)
  {
  }

  /** When every source lists its days in increasing order, the eras of the stored
      table increase, read back as numbers. */
  lemma UpdatedTableErasIncreasing<V>(fetch: (SourceClass, int, int) -> Option<Frame<V>>, sources: seq<SourceClass>, start: int, end: int)
    requires sources != []
    requires forall i :: 0 <= i < |sources| ==> Sorting.StrictlySorted(Dates(SourceData(fetch, sources[i], start, end).rows), IntLess)
    ensures var t := UpdatedTable(fetch, sources, start, end).value;
      forall j, k :: 0 <= j < k < |t.rows| ==> ReadsBelow(t.rows[j].era, t.rows[k].era)
  {
    MergedSorted(fetch, sources, start, end);
    ReshapeErasIncreasing(Merged(fetch, sources, start, end).value);
  }

  /** `update_data` leaves the era table fresh: when the sources list their days in
      increasing order and one of them covers the end day (a failing source's fallback
      always does), the era test of `get_all_eras` then finds the current era. */
  lemma UpdateLeavesFresh<V>(fetch: (SourceClass, int, int) -> Option<Frame<V>>, sources: seq<SourceClass>,
                             utcToday: int, hour: int, s: int)
    requires forall i :: 0 <= i < |sources| ==>
      Sorting.StrictlySorted(Dates(SourceData(fetch, sources[i], UpdateStart, UpdateEnd(utcToday, hour)).rows), IntLess)
    requires 0 <= s < |sources|
    requires UpdateEnd(utcToday, hour) in Dates(SourceData(fetch, sources[s], UpdateStart, UpdateEnd(utcToday, hour)).rows)
    ensures UpdatedTable(fetch, sources, UpdateStart, UpdateEnd(utcToday, hour)).Some?
    ensures EraDataStale(UpdatedTable(fetch, sources, UpdateStart, UpdateEnd(utcToday, hour)).value,
                         DateUtils.CurrentEra(utcToday, hour)) == Some(false)
  {
    var end := UpdateEnd(utcToday, hour);
    var merged := Merged(fetch, sources, UpdateStart, end).value;
    MergedDays(fetch, sources, UpdateStart, end, end);
    MergedSorted(fetch, sources, UpdateStart, end);
    var k :| 0 <= k < |merged.rows| && merged.rows[k].date == end;
    var last := |merged.rows| - 1;
    if k < last {
      assert Dates(merged.rows)[k] == merged.rows[k].date && Dates(merged.rows)[last] == merged.rows[last].date;
    }
    DateUtils.EraMonotone(end, merged.rows[last].date);
    FreshAfterUpdate(merged, last, DateUtils.CurrentEra(utcToday, hour));
  }

  /** The first day `update_data` fetches: the first day of era 1. */
  const UpdateStart: int := DateUtils.DateForEra(1)

  /** The last day `update_data` fetches: the first day of the current era. */
  function UpdateEnd(utcToday: int, hour: int): int {
    DateUtils.DateForEra(DateUtils.CurrentEra(utcToday, hour))
  }

  /** The columns the sources contribute, in order. */
  function SourceColumns<V>(fetch: (SourceClass, int, int) -> Option<Frame<V>>, sources: seq<SourceClass>, start: int, end: int): seq<Column>
    decreases |sources|
  {
    if sources == [] then []
    else
      SourceColumns(fetch, sources[..|sources| - 1], start, end)
        + SourceData(fetch, sources[|sources| - 1], start, end).columns
  }

  /** A failing source's fallback covers the whole range, and its columns are the
      source's `get_columns()`. */
  lemma FailingSourceFallsBack<V>(fetch: (SourceClass, int, int) -> Option<Frame<V>>, s: SourceClass, start: int, end: int)
    requires fetch(s, start, end).None? && start <= end
    ensures var f := SourceData(fetch, s, start, end);
      && f.columns == s.columns
      && |f.rows| == end - start + 1
      && (forall i, c :: 0 <= i < |f.rows| ==> f.rows[i].date == start + i && Cell(f.rows[i].cells, c) == None)
  {
    FallbackSpec<V>(s.columns, start, end);
  }

  /** The frame `update_daily_data` builds for a source that raised: one row, dated
      `day`, copying the source's columns from the last row of the era table; `None`
      when that table is empty or lacks one of them (which raises). */
  function DailyFallback<V>(cache: Table<V>, columns: seq<Column>, day: int): Option<Frame<V>> {
    if |cache.rows| == 0 || !Covers(DataCacheColumns(cache), columns) then None
    else
      var last := cache.rows[|cache.rows| - 1];
      Some(Frame(columns, [DatedRow(day, map c | c in columns :: Cell(last.cells, c))]))
  }

  lemma DailyFallbackSpec<V>(cache: Table<V>, columns: seq<Column>, day: int)
    ensures DailyFallback(cache, columns, day).Some? <==> |cache.rows| > 0 && Covers(DataCacheColumns(cache), columns)
    ensures var f := DailyFallback(cache, columns, day);
      f.Some? ==>
        && f.value.columns == columns
        && |f.value.rows| == 1 && f.value.rows[0].date == day
        && forall c :: c in columns ==>
             Cell(f.value.rows[0].cells, c) == Cell(cache.rows[|cache.rows| - 1].cells, c)
  {
  }

  /** What source `s` contributes to `update_daily_data`; `None` when it raises and
      its fallback raises too. */
  function DailySourceData<V>(fetch: (SourceClass, int, int) -> Option<Frame<V>>, cache: Table<V>, s: SourceClass, day: int): Option<Frame<V>> {
    match fetch(s, day, day)
    case None => DailyFallback(cache, s.columns, day)
    case Some(f) => Some(f)
  }

  /** The merge loop of `update_daily_data`; `None` once a fallback raised. */
  function MergedDaily<V>(fetch: (SourceClass, int, int) -> Option<Frame<V>>, cache: Table<V>, sources: seq<SourceClass>, day: int): Option<Frame<V>>
    decreases |sources|
  {
    if sources == [] then Some(Frame([], []))
    else match MergedDaily(fetch, cache, sources[..|sources| - 1], day)
      case None => None
      case Some(acc) =>
        match DailySourceData(fetch, cache, sources[|sources| - 1], day)
        case None => None
        case Some(data) => Some(Accumulate(Some(acc), data))
  }

  /** `new_data[era] = "X"`. */
  function DailyTableOf<V>(f: Frame<V>): (t: DailyTable<V>)
    ensures t.columns == f.columns && |t.rows| == |f.rows|
    ensures forall i :: 0 <= i < |t.rows| ==>
      t.rows[i].era == DailyEra && t.rows[i].date == f.rows[i].date && t.rows[i].cells == f.rows[i].cells
  {
    DailyTable(f.columns, seq(|f.rows|, i requires 0 <= i < |f.rows| => DailyRow(f.rows[i].date, DailyEra, f.rows[i].cells)))
  }

  /** The daily table `update_daily_data` stores; `None` when it raises. */
  function UpdatedDaily<V>(fetch: (SourceClass, int, int) -> Option<Frame<V>>, cache: Table<V>, sources: seq<SourceClass>, day: int): Option<DailyTable<V>> {
    match MergedDaily(fetch, cache, sources, day)
    case None => None
    case Some(f) => Some(DailyTableOf(f))
  }

  /** The daily table's era is "X" on every row. */
  lemma UpdatedDailyEra<V>(fetch: (SourceClass, int, int) -> Option<Frame<V>>, cache: Table<V>, sources: seq<SourceClass>, day: int)
    ensures var t := UpdatedDaily(fetch, cache, sources, day);
      t.Some? ==> forall i :: 0 <= i < |t.value.rows| ==> t.value.rows[i].era == DailyEra
  {
  }

  /** When every source's contribution is dated `day` only, so is every daily row. */
  lemma {:induction false} MergedDailyOneDay<V>(fetch: (SourceClass, int, int) -> Option<Frame<V>>, cache: Table<V>, sources: seq<SourceClass>, day: int)
    requires forall i :: 0 <= i < |sources| && DailySourceData(fetch, cache, sources[i], day).Some? ==>
      forall k :: 0 <= k < |DailySourceData(fetch, cache, sources[i], day).value.rows| ==>
        DailySourceData(fetch, cache, sources[i], day).value.rows[k].date == day
    ensures var m := MergedDaily(fetch, cache, sources, day);
      m.Some? ==> forall k :: 0 <= k < |m.value.rows| ==> m.value.rows[k].date == day
    decreases |sources|
  {
    if sources != [] {
      var init := sources[..|sources| - 1];
      assert forall i :: 0 <= i < |init| ==> init[i] == sources[i];
      MergedDailyOneDay(fetch, cache, init, day);
      var m := MergedDaily(fetch, cache, sources, day);
      if m.Some? {
        var acc := MergedDaily(fetch, cache, init, day).value;
        var data := DailySourceData(fetch, cache, sources[|sources| - 1], day).value;
        if |acc.rows| > 0 {
          var merged := OuterMerge(acc, data);
          forall k | 0 <= k < |merged.rows| ensures merged.rows[k].date == day {
            assert Dates(merged.rows)[k] in Dates(merged.rows);
            var d := merged.rows[k].date;
            if d in Dates(data.rows) {
              var n :| 0 <= n < |data.rows| && Dates(data.rows)[n] == d;
            } else {
              var n :| 0 <= n < |acc.rows| && Dates(acc.rows)[n] == d;
            }
          }
        }
      }
    }
  }

  class EraDataAPI<V> {
    /** The era table (`data.parquet`). */
    var dataCache: Table<V>
    /** The daily row (`daily.parquet`). */
    var dailyCache: DailyTable<V>
    /** The data-source classes, once discovered. */
    var classCache: seq<SourceClass>

    /** `__init__`: each cache is what its file holds, or empty without one. */
    constructor(storedData: Option<Table<V>>, storedDaily: Option<DailyTable<V>>)
      ensures dataCache == if storedData.Some? then storedData.value else Table([], [])
      ensures dailyCache == if storedDaily.Some? then storedDaily.value else DailyTable([], [])
      ensures classCache == []
    {
      dataCache := if storedData.Some? then storedData.value else Table([], []);
      dailyCache := if storedDaily.Some? then storedDaily.value else DailyTable([], []);
      classCache := [];
    }

    /** `_get_data_sources`: the cached classes when there are any; otherwise the
        discovered classes, which are cached. */
    method GetDataSources(discovered: seq<SourceClass>) returns (sources: seq<SourceClass>)
      modifies this
      ensures sources == DataSources(old(classCache), discovered)
      ensures classCache == sources
      ensures dataCache == old(dataCache) && dailyCache == old(dailyCache)
    {
      if |classCache| > 0 {
        return classCache;
      }
      classCache := discovered;
      return discovered;
    }

    /** `update_data`: every source over the days from the start of era 1 to the start
        of the current era, merged and reshaped into the era table. Returns false when
        it raises, leaving the table as it was. */
    method UpdateData(utcToday: int, hour: int, discovered: seq<SourceClass>,
                      fetch: (SourceClass, int, int) -> Option<Frame<V>>) returns (ok: bool)
      modifies this
      ensures var sources := DataSources(old(classCache), discovered);
        var t := UpdatedTable(fetch, sources, UpdateStart, UpdateEnd(utcToday, hour));
        && classCache == sources
        && ok == t.Some?
        && dataCache == (if t.Some? then t.value else old(dataCache))
      ensures dailyCache == old(dailyCache)
    {
      var sources := GetDataSources(discovered);
      var start := UpdateStart;
      var end := UpdateEnd(utcToday, hour);
      var acc: Option<Frame<V>> := None;
      var i := 0;
      while i < |sources|
        invariant 0 <= i <= |sources|
        invariant acc == Merged(fetch, sources[..i], start, end)
      {
        var data := fetch(sources[i], start, end);
        var frame := if data.None? then Fallback(sources[i].columns, start, end) else data.value;
        acc := Some(Accumulate(acc, frame));
        assert sources[..i + 1][..i] == sources[..i];
        i := i + 1;
      }
      assert sources[..|sources|] == sources;
      if acc.None? {
        return false;
      }
      dataCache := Reshape(acc.value);
      return true;
    }

    /** `update_daily_data`: every source over the current date alone, merged, with
        era "X". Returns false when it raises, leaving the daily table as it was. */
    method UpdateDailyData(utcToday: int, hour: int, discovered: seq<SourceClass>,
                           fetch: (SourceClass, int, int) -> Option<Frame<V>>) returns (ok: bool)
      modifies this
      ensures var sources := DataSources(old(classCache), discovered);
        var t := UpdatedDaily(fetch, old(dataCache), sources, DateUtils.CurrentDate(utcToday, hour));
        && classCache == sources
        && ok == t.Some?
        && dailyCache == (if t.Some? then t.value else old(dailyCache))
      ensures dataCache == old(dataCache)
    {
      var sources := GetDataSources(discovered);
      var day := DateUtils.CurrentDate(utcToday, hour);
      var acc: Frame<V> := Frame([], []);
      var i := 0;
      while i < |sources|
        invariant 0 <= i <= |sources|
        invariant MergedDaily(fetch, dataCache, sources[..i], day) == Some(acc)
      {
        var data := fetch(sources[i], day, day);
        var frame: Frame<V>;
        if data.None? {
          var fallback := DailyFallback(dataCache, sources[i].columns, day);
          if fallback.None? {
            assert sources[..i + 1][..i] == sources[..i];
            PrefixFails(fetch, dataCache, sources, day, i + 1);
            return false;
          }
          frame := fallback.value;
        } else {
          frame := data.value;
        }
        acc := Accumulate(Some(acc), frame);
        assert sources[..i + 1][..i] == sources[..i];
        i := i + 1;
      }
      assert sources[..|sources|] == sources;
      dailyCache := DailyTableOf(acc);
      return true;
    }

    /** `get_all_eras`: when asked to update if stale, update exactly when the cache is
        empty, lacks the current era or lacks a source's column; return the table.
        `None` when it raises. */
    method GetAllEras(updateIfStale: bool, utcToday: int, hour: int, discovered: seq<SourceClass>,
                      fetch: (SourceClass, int, int) -> Option<Frame<V>>) returns (r: Option<Table<V>>)
      modifies this
      ensures !updateIfStale ==>
        r == Some(old(dataCache)) && dataCache == old(dataCache) && classCache == old(classCache)
      ensures updateIfStale ==>
        var sources := DataSources(old(classCache), discovered);
        var need := NeedsUpdate(old(dataCache), DateUtils.CurrentEra(utcToday, hour), sources);
        var t := UpdatedTable(fetch, sources, UpdateStart, UpdateEnd(utcToday, hour));
        && (need == None ==> r == None && dataCache == old(dataCache) && classCache == old(classCache))
        && (need == Some(false) ==> r == Some(old(dataCache)) && dataCache == old(dataCache) && classCache == sources)
        && (need == Some(true) ==>
              r == t && dataCache == (if t.Some? then t.value else old(dataCache)) && classCache == sources)
      ensures dailyCache == old(dailyCache)
    {
      var update := false;
      if updateIfStale {
        var stale := EraDataStale(dataCache, DateUtils.CurrentEra(utcToday, hour));
        if stale.None? {
          return None;
        }
        update := stale.value;
        var sources := GetDataSources(discovered);
        var missing := AnySourceMissing(sources, DataCacheColumns(dataCache));
        update := update || missing;
      }
      if update {
        var ok := UpdateData(utcToday, hour, discovered, fetch);
        if !ok {
          return None;
        }
      }
      return Some(dataCache);
    }

    /** `get_current_daily`: when asked to update if stale, update exactly when the daily
        cache is empty, is not dated today or lacks a source's column; return it.
        `None` when it raises. */
    method GetCurrentDaily(updateIfStale: bool, utcToday: int, hour: int, discovered: seq<SourceClass>,
                           fetch: (SourceClass, int, int) -> Option<Frame<V>>) returns (r: Option<DailyTable<V>>)
      modifies this
      ensures !updateIfStale ==>
        r == Some(old(dailyCache)) && dailyCache == old(dailyCache) && classCache == old(classCache)
      ensures updateIfStale ==>
        var sources := DataSources(old(classCache), discovered);
        var t := UpdatedDaily(fetch, old(dataCache), sources, DateUtils.CurrentDate(utcToday, hour));
        && classCache == sources
        && (!DailyNeedsUpdate(old(dailyCache), DateUtils.CurrentDate(utcToday, hour), sources) ==>
              r == Some(old(dailyCache)) && dailyCache == old(dailyCache))
        && (DailyNeedsUpdate(old(dailyCache), DateUtils.CurrentDate(utcToday, hour), sources) ==>
              r == t && dailyCache == (if t.Some? then t.value else old(dailyCache)))
      ensures dataCache == old(dataCache)
    {
      var update := false;
      if updateIfStale {
        update := DailyStale(dailyCache, DateUtils.CurrentDate(utcToday, hour));
        var sources := GetDataSources(discovered);
        var missing := AnySourceMissing(sources, DailyCacheColumns(dailyCache));
        update := update || missing;
      }
      if update {
        var ok := UpdateDailyData(utcToday, hour, discovered, fetch);
        if !ok {
          return None;
        }
      }
      return Some(dailyCache);
    }
  }

  /** Once a prefix of the sources raises, the whole daily merge does. */
  lemma {:induction false} PrefixFails<V>(fetch: (SourceClass, int, int) -> Option<Frame<V>>, cache: Table<V>,
                                          sources: seq<SourceClass>, day: int, n: int)
    requires 0 <= n <= |sources| && MergedDaily(fetch, cache, sources[..n], day).None?
    ensures MergedDaily(fetch, cache, sources, day).None?
    decreases |sources| - n
  {
    if n < |sources| {
      assert sources[..n + 1][..n] == sources[..n];
      PrefixFails(fetch, cache, sources, day, n + 1);
    } else {
      assert sources[..n] == sources;
    }
  }
}
