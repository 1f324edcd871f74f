/**
  The Bureau of Labor Statistics data source. Nine series arrive as releases
  dated by a year and a period code ("Qn" for a quarter, anything else followed
  by a month number); each release date becomes the first day of its month.
  The releases are laid on a daily grid padded 184 days before the requested
  start, forward-filled, lagged per column by the number of days the agency
  takes to publish, and trimmed to the requested start.

  The HTTP request is not modelled: the response (its status and its series,
  values already parsed) is a parameter.
*/
module DsBls {
  import opened Wrappers
  import opened Frames
  import Civil
  import Text

  const Prefix: string := "era_feature_bls_"
  const ColumnCpiU: Column := Prefix + "cpi_u"
  const ColumnCpiUAll: Column := Prefix + "cpi_u_all"
  const ColumnPpi: Column := Prefix + "ppi"
  const ColumnPpiAll: Column := Prefix + "ppi_all"
  const ColumnPpiFinished: Column := Prefix + "ppi_finished"
  const ColumnUnemployment: Column := Prefix + "unemployment"
  const ColumnWeeklyHours: Column := Prefix + "weekly_hours"
  const ColumnHourlyEarnings: Column := Prefix + "hourly_earnings"
  const ColumnOutput: Column := Prefix + "output"

  /** `COLUMNS`, which `get_columns` returns. */
  const Columns: seq<Column> := [ColumnCpiU, ColumnCpiUAll, ColumnPpi, ColumnPpiAll, ColumnPpiFinished,
                                 ColumnUnemployment, ColumnWeeklyHours, ColumnHourlyEarnings, ColumnOutput]

  /** The series identifiers requested from the agency, renamed to the columns above. */
  const SeriesColumn: map<string, Column> := map[
    "CUUR0000SA0L1E" := ColumnCpiU,
    "CUUR0000SA0" := ColumnCpiUAll,
    "WPSFD49104" := ColumnPpi,
    "WPSFD4" := ColumnPpiAll,
    "WPUFD49207" := ColumnPpiFinished,
    "LNS14000000" := ColumnUnemployment,
    "CES0500000002" := ColumnWeeklyHours,
    "CES0500000003" := ColumnHourlyEarnings,
    "PRS85006092" := ColumnOutput]

  /** Days of padding before the requested start. */
  const PaddingDays: int := 184

  /** The rows each column is shifted down by: its publication delay in days. */
  function Lag(c: Column): nat {
    if c == ColumnCpiU || c == ColumnCpiUAll then 48
    else if c == ColumnPpi || c == ColumnPpiAll || c == ColumnPpiFinished then 45
    else if c == ColumnUnemployment || c == ColumnWeeklyHours || c == ColumnHourlyEarnings then 38
    else if c == ColumnOutput then 134
    else 0
  }

  /** The padding covers the longest lag, so every kept row reads its lagged value
      from inside the grid. */
  lemma LagWithinPadding(c: Column)
    ensures Lag(c) <= 134 < PaddingDays
  {
  }

  /** The `rename` step: a requested series takes its column name, any other keeps its id. */
  function ColumnFor(seriesId: string): (c: Column)
    ensures seriesId in SeriesColumn ==> c in Columns
  {
    if seriesId in SeriesColumn then SeriesColumn[seriesId] else seriesId
  }

  datatype DataPoint<V> = DataPoint(year: string, period: string, value: V)
  datatype Series<V> = Series(seriesId: string, data: seq<DataPoint<V>>)
  datatype Response<V> = Response(status: int, series: seq<Series<V>>)

  /** A series with its release dates resolved to day numbers. */
  datatype DatedSeries<V> = DatedSeries(seriesId: string, points: seq<(int, V)>)

  /** The month a period code names: "Qn" names the first month of quarter `n`; any
      other code names the month its digits after the first character spell. An
      empty code, a non-number or a month outside 1..12 raises. */
  function PeriodMonth(period: string): (m: Option<int>)
    ensures m.Some? ==> 1 <= m.value <= 12
  {
    if |period| == 0 then None
    else if period[0] == 'Q' then
      match Text.ParseInt(period[1..])
      case None => None
      case Some(q) => if 1 <= (q - 1) * 3 + 1 <= 12 then Some((q - 1) * 3 + 1) else None
    else if |period| >= 2 && Text.AllDigits(period[1..]) && 1 <= Text.DigitsValue(period[1..]) <= 12 then
      Some(Text.DigitsValue(period[1..]))
    else None
  }

  /** A quarterly code names the first month of its quarter, and only quarters 1..4 are
      accepted; a monthly code "Mmm" names month `mm`. */
  lemma PeriodMonthSpec(period: string)
    requires |period| >= 1
    ensures period[0] == 'Q' ==>
      match Text.ParseInt(period[1..])
      case None => PeriodMonth(period) == None
      case Some(q) => (PeriodMonth(period).Some? <==> 1 <= q <= 4) &&
                      (1 <= q <= 4 ==> PeriodMonth(period) == Some(3 * q - 2) &&
                                       (PeriodMonth(period).value - 1) / 3 + 1 == q)
    ensures period[0] != 'Q' && |period| >= 2 && Text.AllDigits(period[1..]) ==>
      (PeriodMonth(period).Some? <==> 1 <= Text.DigitsValue(period[1..]) <= 12) &&
      (PeriodMonth(period).Some? ==> PeriodMonth(period).value == Text.DigitsValue(period[1..]))
  {
  }

  lemma PeriodMonthExamples()
    ensures PeriodMonth("Q1") == Some(1) && PeriodMonth("Q2") == Some(4)
    ensures PeriodMonth("Q3") == Some(7) && PeriodMonth("Q4") == Some(10)
    ensures PeriodMonth("Q5") == None && PeriodMonth("Q0") == None
    ensures PeriodMonth("M05") == Some(5) && PeriodMonth("M12") == Some(12)
    ensures PeriodMonth("M13") == None && PeriodMonth("") == None
  {
    assert Text.ParseInt("1") == Some(1) by { assert Text.DigitsValue("1") == 1 by { assert "1"[..0] == []; } }
    assert "Q1"[1..] == "1";
    assert Text.DigitsValue("2") == 2 by { assert "2"[..0] == []; }
    assert "Q2"[1..] == "2";
    assert Text.DigitsValue("3") == 3 by { assert "3"[..0] == []; }
    assert "Q3"[1..] == "3";
    assert Text.DigitsValue("4") == 4 by { assert "4"[..0] == []; }
    assert "Q4"[1..] == "4";
    assert Text.DigitsValue("5") == 5 by { assert "5"[..0] == []; }
    assert "Q5"[1..] == "5";
    assert Text.DigitsValue("0") == 0 by { assert "0"[..0] == []; }
    assert "Q0"[1..] == "0";
    assert Text.DigitsValue("05") == 5 by { assert "05"[..1] == "0"; assert "0"[..0] == []; }
    assert "M05"[1..] == "05";
    assert Text.DigitsValue("12") == 12 by { assert "12"[..1] == "1"; assert "1"[..0] == []; }
    assert "M12"[1..] == "12";
    assert Text.DigitsValue("13") == 13 by { assert "13"[..1] == "1"; assert "1"[..0] == []; }
    assert "M13"[1..] == "13";
  }

  /** The date of a release: the first day of the month its period names in its year
      (the year read as an integer). */
  function ReleaseDate<V>(p: DataPoint<V>): Option<int> {
    match (Text.ParseInt(p.year), PeriodMonth(p.period))
    case (Some(y), Some(m)) => Some(Civil.ToDay(Civil.Date(y, m, 1)))
    case _ => None
  }

  /** A release date exists exactly when the year and the period parse, and it is the
      first day of the named month of the named year. */
  lemma ReleaseDateSpec<V>(p: DataPoint<V>)
    ensures ReleaseDate(p).Some? <==> Text.ParseInt(p.year).Some? && PeriodMonth(p.period).Some?
    ensures ReleaseDate(p).Some? ==>
      Civil.FromDay(ReleaseDate(p).value) == Civil.Date(Text.ParseInt(p.year).value, PeriodMonth(p.period).value, 1)
  {
    if ReleaseDate(p).Some? {
      Civil.FromDayToDay(Civil.Date(Text.ParseInt(p.year).value, PeriodMonth(p.period).value, 1));
    }
  }

  /** A loop that appends `f(x)` for each `x` in order and raises (`None`) at the first
      `x` for which `f` raises. */
  function CollectAll<A, B>(xs: seq<A>, f: A -> Option<B>): Option<seq<B>>
    decreases |xs|
  {
    if xs == [] then Some([])
    else
      match (CollectAll(xs[..|xs| - 1], f), f(xs[|xs| - 1]))
      case (Some(done), Some(y)) => Some(done + [y])
      case _ => None
  }

  /** The collection succeeds exactly when `f` succeeds on every element, and then it
      holds `f`'s results in order. */
  lemma CollectAllSpec<A, B>(xs: seq<A>, f: A -> Option<B>)
    ensures CollectAll(xs, f).Some? <==> forall i :: 0 <= i < |xs| ==> f(xs[i]).Some?
    ensures CollectAll(xs, f).Some? ==>
      && |CollectAll(xs, f).value| == |xs|
      && forall i :: 0 <= i < |xs| ==> CollectAll(xs, f).value[i] == f(xs[i]).value
  {
    if CollectAll(xs, f).Some? {
      CollectAllValues(xs, f);
    } else {
      var i := CollectAllFailure(xs, f);
    }
  }

  lemma {:induction false} CollectAllValues<A, B>(xs: seq<A>, f: A -> Option<B>)
    requires CollectAll(xs, f).Some?
    ensures |CollectAll(xs, f).value| == |xs|
    ensures forall i :: 0 <= i < |xs| ==> f(xs[i]).Some? && CollectAll(xs, f).value[i] == f(xs[i]).value
    decreases |xs|
  {
    if xs != [] {
      var front := xs[..|xs| - 1];
      CollectAllValues(front, f);
      assert forall i :: 0 <= i < |front| ==> front[i] == xs[i];
    }
  }

  /** A failed collection names an element on which `f` raises. */
  lemma {:induction false} CollectAllFailure<A, B>(xs: seq<A>, f: A -> Option<B>) returns (i: int)
    requires CollectAll(xs, f).None?
    ensures 0 <= i < |xs| && f(xs[i]).None?
    decreases |xs|
  {
    var front := xs[..|xs| - 1];
    if CollectAll(front, f).None? {
      i := CollectAllFailure(front, f);
      assert front[i] == xs[i];
    } else {
      i := |xs| - 1;
    }
  }

  /** One more element extends the collected prefix, or fails it. */
  lemma CollectAllStep<A, B>(xs: seq<A>, f: A -> Option<B>, i: int, done: seq<B>)
    requires 0 <= i < |xs| && CollectAll(xs[..i], f) == Some(done)
    ensures CollectAll(xs[..i + 1], f) == if f(xs[i]).None? then None else Some(done + [f(xs[i]).value])
  {
    assert xs[..i + 1][..i] == xs[..i] && xs[..i + 1][i] == xs[i];
  }

  /** A failure in a prefix is a failure of the whole collection. */
  lemma CollectAllPrefix<A, B>(xs: seq<A>, f: A -> Option<B>, n: int)
    requires 0 <= n <= |xs| && CollectAll(xs[..n], f).None?
    ensures CollectAll(xs, f).None?
  {
    var i := CollectAllFailure(xs[..n], f);
    assert xs[..n][i] == xs[i];
    CollectAllSpec(xs, f);
  }

  /** The release dates of a series, or `None` when one of them fails to parse. */
  function SeriesDates<V>(points: seq<DataPoint<V>>): (r: Option<seq<int>>)
    ensures r.Some? ==> |r.value| == |points|
  {
    CollectAllSpec(points, ReleaseDate);
    CollectAll(points, ReleaseDate)
  }

  /** A series resolves exactly when each of its release dates parses, and then its
      dates are those release dates, in order. */
  lemma SeriesDatesSpec<V>(points: seq<DataPoint<V>>)
    ensures SeriesDates(points).Some? <==> forall j :: 0 <= j < |points| ==> ReleaseDate(points[j]).Some?
    ensures SeriesDates(points).Some? ==>
      && |SeriesDates(points).value| == |points|
      && forall j :: 0 <= j < |points| ==> SeriesDates(points).value[j] == ReleaseDate(points[j]).value
  {
    CollectAllSpec(points, ReleaseDate);
  }

  /** The loop that walks a series' data points and appends each release date. */
  method ParseSeriesDates<V>(points: seq<DataPoint<V>>) returns (dates: Option<seq<int>>)
    ensures dates == SeriesDates(points)
  {
    var ds: seq<int> := [];
    var j := 0;
    while j < |points|
      invariant 0 <= j <= |points|
      invariant CollectAll(points[..j], ReleaseDate) == Some(ds)
    {
      var d := ReleaseDate(points[j]);
      CollectAllStep(points, ReleaseDate, j, ds);
      if d.None? {
        CollectAllPrefix(points, ReleaseDate, j + 1);
        return None;
      }
      ds := ds + [d.value];
      j := j + 1;
    }
    assert points[..j] == points;
    return Some(ds);
  }

  function Dated<V>(s: Series<V>, dates: seq<int>): (r: DatedSeries<V>)
    requires |dates| == |s.data|
    ensures |r.points| == |s.data| && r.seriesId == s.seriesId
  {
    DatedSeries(s.seriesId, seq(|dates|, j requires 0 <= j < |dates| => (dates[j], s.data[j].value)))
  }

  /** One series with its dates resolved, or `None` when a release date fails to parse. */
  function DatedOf<V>(s: Series<V>): Option<DatedSeries<V>> {
    var ds := SeriesDates(s.data);
    if ds.None? then None else Some(Dated(s, ds.value))
  }

  /** Every series with its dates resolved, or `None` when a release date fails to parse. */
  function AllSeries<V>(series: seq<Series<V>>): Option<seq<DatedSeries<V>>> {
    CollectAll(series, DatedOf)
  }

  /** The series all resolve exactly when every release date parses, and then each
      entry carries its series' values on their resolved dates. */
  lemma AllSeriesSpec<V>(series: seq<Series<V>>)
    ensures AllSeries(series).Some? <==> forall i :: 0 <= i < |series| ==> SeriesDates(series[i].data).Some?
    ensures AllSeries(series).Some? ==> |AllSeries(series).value| == |series|
    ensures AllSeries(series).Some? ==> forall i :: 0 <= i < |series| ==>
              SeriesDates(series[i].data).Some? &&
              AllSeries(series).value[i] == Dated(series[i], SeriesDates(series[i].data).value)
  {
    CollectAllSpec(series, DatedOf);
  }

  /** The loop over the response's series that collects one dated series per entry. */
  method CollectSeries<V>(series: seq<Series<V>>) returns (r: Option<seq<DatedSeries<V>>>)
    ensures r == AllSeries(series)
  {
    var data: seq<DatedSeries<V>> := [];
    var i := 0;
    while i < |series|
      invariant 0 <= i <= |series|
      invariant CollectAll(series[..i], DatedOf) == Some(data)
    {
      var dates := ParseSeriesDates(series[i].data);
      CollectAllStep(series, DatedOf, i, data);
      if dates.None? {
        CollectAllPrefix(series, DatedOf, i + 1);
        return None;
      }
      data := data + [Dated(series[i], dates.value)];
      i := i + 1;
    }
    assert series[..i] == series;
    return Some(data);
  }

  /** The column names after the rename, in response order. */
  function SeriesColumns<V>(series: seq<DatedSeries<V>>): (cols: seq<Column>)
    ensures |cols| == |series| && forall i :: 0 <= i < |series| ==> cols[i] == ColumnFor(series[i].seriesId)
  {
    seq(|series|, i requires 0 <= i < |series| => ColumnFor(series[i].seriesId))
  }

  /** The value a series reports on day `d`. The BLS API lists each period of a
      series once, so at most one point is dated `d`; should several be, this takes
      the last, where `concat(axis=1)` would raise on the repeated index. */
  function PointOn<V>(points: seq<(int, V)>, d: int): (v: Option<V>)
    ensures v.None? <==> forall j :: 0 <= j < |points| ==> points[j].0 != d
    ensures v.Some? ==> exists j :: 0 <= j < |points| && points[j] == (d, v.value)
    decreases |points|
  {
    if points == [] then None
    else if points[|points| - 1].0 == d then Some(points[|points| - 1].1)
    else
      var front := points[..|points| - 1];
      assert forall j :: 0 <= j < |front| ==> front[j] == points[j];
      PointOn(front, d)
  }

  /** Series `s` is renamed to `c` and has a point dated `d`. */
  predicate Reports<V>(s: DatedSeries<V>, c: Column, d: int) {
    ColumnFor(s.seriesId) == c && PointOn(s.points, d).Some?
  }

  /** The index of the last series that reports column `c` on day `d`, or -1 when none does. */
  function LastReporting<V>(series: seq<DatedSeries<V>>, c: Column, d: int): (i: int)
    ensures -1 <= i < |series|
    ensures i >= 0 ==> Reports(series[i], c, d)
    ensures forall j :: i < j < |series| ==> !Reports(series[j], c, d)
    decreases |series|
  {
    if series == [] then -1
    else if Reports(series[|series| - 1], c, d) then |series| - 1
    else LastReporting(series[..|series| - 1], c, d)
  }

  /** The value column `c` takes on day `d` after `concat(axis=1)` and the rename,
      for series with distinct ids (as the request asks for each id once): the point
      dated `d` of the series renamed to `c`, missing when it has none. Should two
      series share an id, this takes the last one that reports on `d`, whereas pandas
      would keep both columns under the one name. */
  function ValueOn<V>(series: seq<DatedSeries<V>>, c: Column, d: int): (v: Option<V>)
    ensures v.None? <==> forall i :: 0 <= i < |series| ==> !Reports(series[i], c, d)
    ensures v.Some? ==>
      exists i :: 0 <= i < |series| && Reports(series[i], c, d) && PointOn(series[i].points, d) == v
        && forall j :: i < j < |series| ==> !Reports(series[j], c, d)
  {
    var i := LastReporting(series, c, d);
    if i < 0 then None else PointOn(series[i].points, d)
  }

  /** Every release date of any series. */
  function ReleaseDays<V>(series: seq<DatedSeries<V>>): set<int> {
    set i, j | 0 <= i < |series| && 0 <= j < |series[i].points| :: series[i].points[j].0
  }

  /** `concat(axis=1)` followed by the rename: one observation per release date, with
      a cell for every column. */
  function Combine<V>(series: seq<DatedSeries<V>>): (obs: Observations<V>)
    ensures forall d :: d in obs <==> d in ReleaseDays(series)
    ensures forall d, c :: d in obs ==>
      Cell(obs[d], c) == if c in SeriesColumns(series) then ValueOn(series, c, d) else None
  {
    var cols := SeriesColumns(series);
    map d | d in ReleaseDays(series) :: RowOn(series, cols, d)
  }

  /** The combined row of day `d`: a cell for each of `cols`. */
  function RowOn<V>(series: seq<DatedSeries<V>>, cols: seq<Column>, d: int): (cells: Cells<V>)
    ensures forall c :: Cell(cells, c) == if c in cols then ValueOn(series, c, d) else None
  {
    map c | c in cols :: ValueOn(series, c, d)
  }

  /** `get_data`: `None` when the response status is not 200, when a release date does
      not parse, or when one of the nine columns is absent (the shift raises). */
  function GetData<V>(start: int, end: int, response: Response<V>): (r: Option<Frame<V>>)
    ensures response.status != 200 ==> r.None?
    ensures r.Some? ==> forall c :: c in Columns ==> c in r.value.columns
  {
    if response.status != 200 then None
    else
      match AllSeries(response.series)
      case None => None
      case Some(series) =>
        var cols := SeriesColumns(series);
        if exists c :: c in Columns && c !in cols then None
        else Some(Frame(cols, AlignToDays(start - PaddingDays, start, end, Combine(series), 0, cols, Lag)))
  }

  /** `get_data` fails exactly on a non-200 status, an unparsable release or a missing
      column. */
  lemma GetDataFails<V>(start: int, end: int, response: Response<V>)
    ensures GetData(start, end, response).Some? <==>
      && response.status == 200
      && (forall i :: 0 <= i < |response.series| ==> SeriesDates(response.series[i].data).Some?)
      && (forall c :: AllSeries(response.series).Some? && c in Columns ==> c in SeriesColumns(AllSeries(response.series).value))
  {
    AllSeriesSpec(response.series);
  }

  /** On success the columns are the renamed series in response order and the rows are
      the days from `start` to `end`. */
  lemma GetDataShape<V>(start: int, end: int, response: Response<V>)
    requires GetData(start, end, response).Some?
    ensures var r := GetData(start, end, response).value;
      && r.columns == SeriesColumns(AllSeries(response.series).value)
      && |r.rows| == (if end < start then 0 else end - start + 1)
      && (forall k :: 0 <= k < |r.rows| ==> r.rows[k].date == start + k)
  {
    var series := AllSeries(response.series).value;
    AlignToDaysRows(start - PaddingDays, start, end, Combine(series), 0, SeriesColumns(series), Lag);
  }

  /** On success, on day `d` column `c` holds the latest release dated in
      `[start - 184, d - Lag(c)]` (`Frames.LatestValueSpec` characterises `LatestValue`). */
  lemma GetDataCells<V>(start: int, end: int, response: Response<V>, c: Column)
    requires GetData(start, end, response).Some?
    requires c in GetData(start, end, response).value.columns
    ensures var r := GetData(start, end, response).value;
      forall k :: 0 <= k < |r.rows| ==>
        Cell(r.rows[k].cells, c)
          == LatestValue(Combine(AllSeries(response.series).value), 0, c, start - PaddingDays, start + k - Lag(c))
  {
    var series := AllSeries(response.series).value;
    GetDataValue(start, end, response);
    AlignedColumn(start, end, Combine(series), SeriesColumns(series), c);
  }

  /** A release shows `Lag(c)` days after its date: when the last series renamed to
      `c` that has a point on day `e` has value `v` there, the row of day `e + Lag(c)`
      holds `v` in column `c`. */
  lemma VisibleAfterLag<V>(start: int, end: int, response: Response<V>, series: seq<DatedSeries<V>>, c: Column, e: int)
    requires GetData(start, end, response).Some? && AllSeries(response.series) == Some(series)
    requires c in Columns && start <= e + Lag(c) <= end
    requires ValueOn(series, c, e).Some?
    ensures var r := GetData(start, end, response).value;
      && e + Lag(c) - start < |r.rows|
      && r.rows[e + Lag(c) - start].date == e + Lag(c)
      && Cell(r.rows[e + Lag(c) - start].cells, c) == ValueOn(series, c, e)
  {
    GetDataValue(start, end, response);
    CombinedRelease(series, c, e);
    AlignedRelease(start, end, Combine(series), SeriesColumns(series), c, e);
  }

  /** The alignment shows an observed cell of day `e` in column `c` on day `e + Lag(c)`. */
  lemma AlignedRelease<V>(start: int, end: int, obs: Observations<V>, cols: seq<Column>, c: Column, e: int)
    requires c in cols && e in obs && Cell(obs[e], c) != None
    requires start <= e + Lag(c) <= end
    ensures var rows := AlignToDays(start - PaddingDays, start, end, obs, 0, cols, Lag);
      && e + Lag(c) - start < |rows|
      && rows[e + Lag(c) - start].date == e + Lag(c)
      && Cell(rows[e + Lag(c) - start].cells, c) == Cell(obs[e], c)
  {
    var k := e + Lag(c) - start;
    AlignToDaysRows(start - PaddingDays, start, end, obs, 0, cols, Lag);
    AlignedColumn(start, end, obs, cols, c);
    assert start + k - Lag(c) == e;
    LagWithinPadding(c);
    ReleaseFound(obs, c, start - PaddingDays, e);
  }

  /** A value of column `c` on day `e` is a combined observation of day `e`. */
  lemma CombinedRelease<V>(series: seq<DatedSeries<V>>, c: Column, e: int)
    requires ValueOn(series, c, e).Some?
    ensures e in Combine(series) && Cell(Combine(series)[e], c) == ValueOn(series, c, e)
  {
    var i :| 0 <= i < |series| && Reports(series[i], c, e);
    var j :| 0 <= j < |series[i].points| && series[i].points[j].0 == e;
    assert e in ReleaseDays(series);
    assert c in SeriesColumns(series);
  }

  /** The backward scan stops at once on an observed cell. */
  lemma ReleaseFound<V>(obs: Observations<V>, c: Column, lo: int, e: int)
    requires e in obs && Cell(obs[e], c) != None && lo <= e
    ensures LatestValue(obs, 0, c, lo, e) == Cell(obs[e], c)
  {
  }

  /** The alignment `get_data` performs, for one column of any observations. */
  lemma AlignedColumn<V>(start: int, end: int, obs: Observations<V>, cols: seq<Column>, c: Column)
    requires c in cols
    ensures var rows := AlignToDays(start - PaddingDays, start, end, obs, 0, cols, Lag);
      forall k :: 0 <= k < |rows| ==>
        Cell(rows[k].cells, c) == LatestValue(obs, 0, c, start - PaddingDays, start + k - Lag(c))
  {
    LagWithinPadding(c);
    AlignToDaysColumn(start - PaddingDays, start, end, obs, 0, cols, Lag, c, Lag(c));
  }

  /** On success the frame is the aligned combination of the parsed series. */
  lemma GetDataValue<V>(start: int, end: int, response: Response<V>)
    requires GetData(start, end, response).Some?
    ensures AllSeries(response.series).Some?
    ensures var series := AllSeries(response.series).value;
      GetData(start, end, response).value
        == Frame(SeriesColumns(series), AlignToDays(start - PaddingDays, start, end, Combine(series), 0, SeriesColumns(series), Lag))
  {
  }

  /** A non-200 response raises whatever else it holds. */
  lemma ErrorStatusRaises<V>(start: int, end: int, response: Response<V>)
    requires response.status != 200
    ensures GetData(start, end, response).None?
  {
  }
}
