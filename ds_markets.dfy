/**
  The S&P 500 markets data source. Its column list is built in the constructor
  from three families of indicator columns over five time windows. A trading
  day's values are final only around midnight Eastern time, so every trading
  date moves one day later before the rows are laid on a daily grid padded
  300 days before the requested start, forward-filled, cut at "today" and
  trimmed to the requested range.

  The download and the indicator arithmetic (rolling mean, exponential mean,
  percentage change) are not modelled: the downloaded trading days, with every
  column already computed, are a parameter (`None` when the download raised),
  and "today" in the Eastern time zone is a parameter.
*/
module DsMarkets {
  import opened Wrappers
  import opened Frames
  import Text

  const Prefix: string := "era_feature_markets_"
  const PrefixRaw: string := "era_feature_raw_markets_"
  const PrefixSpxSma: string := PrefixRaw + "spx_sma_"
  const PrefixSpxEma: string := PrefixRaw + "spx_ema_"
  const PrefixSpxReturn: string := Prefix + "spx_return_"

  /** The indicator windows, in trading days. */
  const TimeWindows: seq<nat> := [10, 20, 50, 100, 200]

  const ColumnSpxClose: Column := PrefixRaw + "spx_close"

  /** Days of padding before the requested start (room for the 200-day average). */
  const PaddingDays: int := 300

  /** Days from a trading date to the day its values are usable. */
  const AvailabilityShift: int := 1

  /** The stem every attribute name starts with; the character after it tells the
      three families apart. */
  const AttrStem: string := "COLUMN_SPX_"

  /** The attribute names `COLUMN_SPX_SMA<w>`, `COLUMN_SPX_EMA<w>`, `COLUMN_SPX_RETURN<w>`. */
  const AttrSma: string := AttrStem + "SMA"
  const AttrEma: string := AttrStem + "EMA"
  const AttrReturn: string := AttrStem + "RETURN"

  /** One column per window, `prefix + str(w)`, in window order. */
  function WindowColumns(prefix: string, windows: seq<nat>): (cols: seq<Column>)
    ensures |cols| == |windows|
    ensures forall i :: 0 <= i < |windows| ==> cols[i] == prefix + Text.NatToString(windows[i])
    decreases |windows|
  {
    if windows == [] then []
    else WindowColumns(prefix, windows[..|windows| - 1]) + [prefix + Text.NatToString(windows[|windows| - 1])]
  }

  /** The column list `__init__` builds: the close, then the moving averages, the
      exponential moving averages and the returns, each over every window. */
  function MarketsColumns(): seq<Column> {
    [ColumnSpxClose] + WindowColumns(PrefixSpxSma, TimeWindows) + WindowColumns(PrefixSpxEma, TimeWindows)
      + WindowColumns(PrefixSpxReturn, TimeWindows)
  }

  /** The sixteen columns, spelled out. */
  lemma MarketsColumnsLiteral()
    ensures |MarketsColumns()| == 16
    ensures MarketsColumns() == [
      "era_feature_raw_markets_spx_close",
      "era_feature_raw_markets_spx_sma_10", "era_feature_raw_markets_spx_sma_20",
      "era_feature_raw_markets_spx_sma_50", "era_feature_raw_markets_spx_sma_100",
      "era_feature_raw_markets_spx_sma_200",
      "era_feature_raw_markets_spx_ema_10", "era_feature_raw_markets_spx_ema_20",
      "era_feature_raw_markets_spx_ema_50", "era_feature_raw_markets_spx_ema_100",
      "era_feature_raw_markets_spx_ema_200",
      "era_feature_markets_spx_return_10", "era_feature_markets_spx_return_20",
      "era_feature_markets_spx_return_50", "era_feature_markets_spx_return_100",
      "era_feature_markets_spx_return_200"]
  {
    assert ColumnSpxClose == "era_feature_raw_markets_spx_close";
    SmaNames();
    EmaNames();
    ReturnNames();
  }

  /** The moving-average columns, spelled out. */
  lemma SmaNames()
    ensures WindowColumns(PrefixSpxSma, TimeWindows) == ["era_feature_raw_markets_spx_sma_10", "era_feature_raw_markets_spx_sma_20", "era_feature_raw_markets_spx_sma_50", "era_feature_raw_markets_spx_sma_100", "era_feature_raw_markets_spx_sma_200"]
  {
    assert PrefixSpxSma + "10" == "era_feature_raw_markets_spx_sma_10";
    assert PrefixSpxSma + "20" == "era_feature_raw_markets_spx_sma_20";
    assert PrefixSpxSma + "50" == "era_feature_raw_markets_spx_sma_50";
    assert PrefixSpxSma + "100" == "era_feature_raw_markets_spx_sma_100";
    assert PrefixSpxSma + "200" == "era_feature_raw_markets_spx_sma_200";
    WindowsNamed(PrefixSpxSma);
  }

  /** The exponential moving-average columns, spelled out. */
  lemma EmaNames()
    ensures WindowColumns(PrefixSpxEma, TimeWindows) == ["era_feature_raw_markets_spx_ema_10", "era_feature_raw_markets_spx_ema_20", "era_feature_raw_markets_spx_ema_50", "era_feature_raw_markets_spx_ema_100", "era_feature_raw_markets_spx_ema_200"]
  {
    assert PrefixSpxEma + "10" == "era_feature_raw_markets_spx_ema_10";
    assert PrefixSpxEma + "20" == "era_feature_raw_markets_spx_ema_20";
    assert PrefixSpxEma + "50" == "era_feature_raw_markets_spx_ema_50";
    assert PrefixSpxEma + "100" == "era_feature_raw_markets_spx_ema_100";
    assert PrefixSpxEma + "200" == "era_feature_raw_markets_spx_ema_200";
    WindowsNamed(PrefixSpxEma);
  }

  /** The return columns, spelled out. */
  lemma ReturnNames()
    ensures WindowColumns(PrefixSpxReturn, TimeWindows) == ["era_feature_markets_spx_return_10", "era_feature_markets_spx_return_20", "era_feature_markets_spx_return_50", "era_feature_markets_spx_return_100", "era_feature_markets_spx_return_200"]
  {
    assert PrefixSpxReturn + "10" == "era_feature_markets_spx_return_10";
    assert PrefixSpxReturn + "20" == "era_feature_markets_spx_return_20";
    assert PrefixSpxReturn + "50" == "era_feature_markets_spx_return_50";
    assert PrefixSpxReturn + "100" == "era_feature_markets_spx_return_100";
    assert PrefixSpxReturn + "200" == "era_feature_markets_spx_return_200";
    WindowsNamed(PrefixSpxReturn);
  }

  lemma WindowsNamed(prefix: string)
    ensures WindowColumns(prefix, TimeWindows)
      == [prefix + "10", prefix + "20", prefix + "50", prefix + "100", prefix + "200"]
  {
    assert Text.NatToString(10) == "10";
    assert Text.NatToString(20) == "20";
    assert Text.NatToString(50) == "50";
    assert Text.NatToString(100) == "100";
    assert Text.NatToString(200) == "200";
  }

  /** `get_data` after the download: the trading days moved one day later, aligned to
      every day from `start - 300` on and forward-filled, then only the days up to
      `today`, then only the days from `start` to `end`. */
  function AlignMarkets<V>(columns: seq<Column>, start: int, end: int, today: int, obs: Observations<V>): (r: seq<DatedRow<V>>)
    ensures var last := if today < end then today else end;
      && |r| == (if last < start then 0 else last - start + 1)
      && (forall k :: 0 <= k < |r| ==> r[k].date == start + k)
      && (forall k :: 0 <= k < |r| ==> start <= r[k].date <= end && r[k].date <= today)
  {
    var aligned := AlignToDays(start - PaddingDays, start, end, obs, AvailabilityShift, columns, NoLag);
    AlignToDaysRows(start - PaddingDays, start, end, obs, AvailabilityShift, columns, NoLag);
    assert Consecutive(aligned, start);
    AtOrBeforeConsecutive(aligned, start, today);
    var cut := AtOrBefore(aligned, today);
    assert Consecutive(cut, start);
    AtOrBeforeConsecutive(cut, start, end);
    AtOrBefore(cut, end)
  }

  /** Row `k` of the result is row `k` of the aligned days. */
  lemma AlignMarketsPrefix<V>(columns: seq<Column>, start: int, end: int, today: int, obs: Observations<V>)
    ensures var r := AlignMarkets(columns, start, end, today, obs);
      var aligned := AlignToDays(start - PaddingDays, start, end, obs, AvailabilityShift, columns, NoLag);
      |r| <= |aligned| && forall k :: 0 <= k < |r| ==> r[k] == aligned[k]
  {
    var aligned := AlignToDays(start - PaddingDays, start, end, obs, AvailabilityShift, columns, NoLag);
    AlignToDaysRows(start - PaddingDays, start, end, obs, AvailabilityShift, columns, NoLag);
    assert Consecutive(aligned, start);
    AtOrBeforeConsecutive(aligned, start, today);
    var cut := AtOrBefore(aligned, today);
    assert Consecutive(cut, start);
    AtOrBeforeConsecutive(cut, start, end);
  }

  /** On day `d` column `c` holds the latest trading day `t` with `t + 1` in
      `[start - 300, d]` (`Frames.LatestValueSpec` characterises `LatestValue`). */
  lemma AlignMarketsCells<V>(columns: seq<Column>, start: int, end: int, today: int, obs: Observations<V>, c: Column)
    requires c in columns
    ensures var r := AlignMarkets(columns, start, end, today, obs);
      forall k :: 0 <= k < |r| ==>
        Cell(r[k].cells, c) == LatestValue(obs, AvailabilityShift, c, start - PaddingDays, start + k)
  {
    var r := AlignMarkets(columns, start, end, today, obs);
    forall k | 0 <= k < |r|
      ensures Cell(r[k].cells, c) == LatestValue(obs, AvailabilityShift, c, start - PaddingDays, start + k)
    {
      AlignMarketsCell(columns, start, end, today, obs, c, k, start + k);
    }
  }

  /** A trading day's row is what the frame shows on the next day, when that day is
      within the range and not after today. */
  lemma VisibleNextDay<V>(columns: seq<Column>, start: int, end: int, today: int, obs: Observations<V>,
                          c: Column, t: int)
    requires c in columns && t in obs && Cell(obs[t], c) != None
    requires start <= t + AvailabilityShift <= end && t + AvailabilityShift <= today
    ensures var r := AlignMarkets(columns, start, end, today, obs);
      && t + AvailabilityShift - start < |r|
      && r[t + AvailabilityShift - start].date == t + AvailabilityShift
      && Cell(r[t + AvailabilityShift - start].cells, c) == Cell(obs[t], c)
  {
    var k := t + AvailabilityShift - start;
    AlignMarketsCell(columns, start, end, today, obs, c, k, t + AvailabilityShift);
    ReleasedCell(obs, c, start - PaddingDays, t);
  }

  /** `AlignMarketsCells` for day `hi = start + k`. */
  lemma AlignMarketsCell<V>(columns: seq<Column>, start: int, end: int, today: int, obs: Observations<V>,
                            c: Column, k: int, hi: int)
    requires c in columns && 0 <= k < |AlignMarkets(columns, start, end, today, obs)| && hi == start + k
    ensures Cell(AlignMarkets(columns, start, end, today, obs)[k].cells, c)
              == LatestValue(obs, AvailabilityShift, c, start - PaddingDays, hi)
  {
    AlignMarketsPrefix(columns, start, end, today, obs);
    AlignedCell(start - PaddingDays, start, end, obs, AvailabilityShift, columns, NoLag, k, c, hi);
  }

  /** On the day after a trading day the look-back finds that day's value. */
  lemma ReleasedCell<V>(obs: Observations<V>, c: Column, lo: int, t: int)
    requires t in obs && Cell(obs[t], c) != None && lo <= t + AvailabilityShift
    ensures LatestValue(obs, AvailabilityShift, c, lo, t + AvailabilityShift) == Cell(obs[t], c)
  {
  }

  /** `DataSourceMarkets`: the column list and the per-window attributes are built once,
      by the constructor. */
  class DataSourceMarkets {
    /** `COLUMNS` */
    var columns: seq<Column>
    /** The attributes `COLUMN_SPX_SMA<w>` and the like that `setattr` creates. */
    var attributes: map<string, Column>

    /** `__init__`: the close column, then one loop per indicator family over the
        windows. */
    constructor()
      ensures columns == MarketsColumns()
      ensures Holds(attributes, AttrSma, PrefixSpxSma, |TimeWindows|)
      ensures Holds(attributes, AttrEma, PrefixSpxEma, |TimeWindows|)
      ensures Holds(attributes, AttrReturn, PrefixSpxReturn, |TimeWindows|)
    {
      columns := [ColumnSpxClose];
      attributes := map[];
      new;
      AddFamily(AttrSma, PrefixSpxSma);
      ghost var withSma := attributes;
      AddFamily(AttrEma, PrefixSpxEma);
      OtherFamily(withSma, attributes, AttrSma, PrefixSpxSma, AttrEma);
      ghost var withEma := attributes;
      AddFamily(AttrReturn, PrefixSpxReturn);
      OtherFamily(withEma, attributes, AttrSma, PrefixSpxSma, AttrReturn);
      OtherFamily(withEma, attributes, AttrEma, PrefixSpxEma, AttrReturn);
      assert columns == [ColumnSpxClose] + WindowColumns(PrefixSpxSma, TimeWindows)
        + WindowColumns(PrefixSpxEma, TimeWindows) + WindowColumns(PrefixSpxReturn, TimeWindows);
    }

    /** One of the three loops of `__init__`: for each window `w`, set the attribute
        `attr + str(w)` to `prefix + str(w)` and append it to the columns. Attributes
        of other families are untouched. */
    method AddFamily(attr: string, prefix: string)
      modifies this
      ensures columns == old(columns) + WindowColumns(prefix, TimeWindows)
      ensures Holds(attributes, attr, prefix, |TimeWindows|)
      ensures forall k :: k in old(attributes) && !InFamily(k, attr) ==>
        k in attributes && attributes[k] == old(attributes)[k]
    {
      var i := 0;
      while i < |TimeWindows|
        invariant 0 <= i <= |TimeWindows|
        invariant columns == old(columns) + WindowColumns(prefix, TimeWindows[..i])
        invariant Holds(attributes, attr, prefix, i)
        invariant forall k :: k in old(attributes) && !InFamily(k, attr) ==>
          k in attributes && attributes[k] == old(attributes)[k]
      {
        var name := attr + Text.NatToString(TimeWindows[i]);
        var col := prefix + Text.NatToString(TimeWindows[i]);
        Keep(attributes, attr, prefix, i, name, col);
        assert name[..|attr|] == attr;
        attributes := attributes[name := col];
        columns := columns + [attributes[name]];
        WindowColumnsStep(prefix, TimeWindows, i);
        i := i + 1;
      }
      assert TimeWindows[..|TimeWindows|] == TimeWindows;
    }

    /** `get_columns` */
    function GetColumns(): (cols: seq<Column>)
      reads this
      ensures cols == columns
    {
      columns
    }

    /** `get_data`: `None` when the download raised; otherwise the date column and
        exactly `get_columns()`, over the aligned days. */
    function GetData<V>(start: int, end: int, today: int, download: Option<Observations<V>>): (r: Option<Frame<V>>)
      reads this
      ensures r.Some? <==> download.Some?
      ensures r.Some? ==> r.value.columns == GetColumns()
    {
      match download
      case None => None
      case Some(obs) => Some(Frame(columns, AlignMarkets(columns, start, end, today, obs)))
    }
  }

  /** One more window appends one more column. */
  lemma WindowColumnsStep(prefix: string, windows: seq<nat>, i: int)
    requires 0 <= i < |windows|
    ensures WindowColumns(prefix, windows[..i + 1])
      == WindowColumns(prefix, windows[..i]) + [prefix + Text.NatToString(windows[i])]
  {
    assert windows[..i + 1][..i] == windows[..i];
  }

  /** For every window index below `n`, attribute `attr + str(w)` holds `prefix + str(w)`. */
  ghost predicate Holds(attributes: map<string, Column>, attr: string, prefix: string, n: int)
    requires 0 <= n <= |TimeWindows|
  {
    forall j :: 0 <= j < n ==>
      attr + Text.NatToString(TimeWindows[j]) in attributes
      && attributes[attr + Text.NatToString(TimeWindows[j])] == prefix + Text.NatToString(TimeWindows[j])
  }

  /** Setting window `i`'s attribute keeps the attributes of the earlier windows: a
      name that collides with an earlier one denotes the same window text. */
  lemma Keep(attributes: map<string, Column>, attr: string, prefix: string, i: int, name: string, col: Column)
    requires 0 <= i < |TimeWindows| && Holds(attributes, attr, prefix, i)
    requires name == attr + Text.NatToString(TimeWindows[i]) && col == prefix + Text.NatToString(TimeWindows[i])
    ensures Holds(attributes[name := col], attr, prefix, i + 1)
  {
    forall j | 0 <= j < i && attr + Text.NatToString(TimeWindows[j]) == name
      ensures Text.NatToString(TimeWindows[j]) == Text.NatToString(TimeWindows[i])
    {
      AppendCancel(attr, Text.NatToString(TimeWindows[j]), Text.NatToString(TimeWindows[i]));
    }
  }

  /** The attribute name belongs to the family named `attr`. */
  predicate InFamily(name: string, attr: string) {
    |attr| <= |name| && name[..|attr|] == attr
  }

  /** Adding a family whose name differs from `attr` in the first character after the
      common stem keeps the completed family `attr`. */
  lemma OtherFamily(before: map<string, Column>, after: map<string, Column>, attr: string, prefix: string, other: string)
    requires Holds(before, attr, prefix, |TimeWindows|)
    requires forall k :: k in before && !InFamily(k, other) ==> k in after && after[k] == before[k]
    requires |attr| > |AttrStem| && |other| > |AttrStem| && attr[|AttrStem|] != other[|AttrStem|]
    ensures Holds(after, attr, prefix, |TimeWindows|)
  {
    forall j | 0 <= j < |TimeWindows|
      ensures !InFamily(attr + Text.NatToString(TimeWindows[j]), other)
    {
      var name := attr + Text.NatToString(TimeWindows[j]);
      assert name[|AttrStem|] == attr[|AttrStem|];
    }
  }

  lemma AppendCancel(a: string, x: string, y: string)
    requires a + x == a + y
    ensures x == y
  {
    assert x == (a + x)[|a|..];
  }

  /** The frame of a completed download: the columns are the instance's, and the
      rows are the days from `start` to the earlier of `end` and `today`, each column
      holding its latest trading-day value usable by that day. */
  lemma GetDataSpec<V>(m: DataSourceMarkets, start: int, end: int, today: int, obs: Observations<V>)
    ensures var r := m.GetData(start, end, today, Some(obs));
      var last := if today < end then today else end;
      && r.Some?
      && r.value.columns == m.columns
      && |r.value.rows| == (if last < start then 0 else last - start + 1)
      && (forall k :: 0 <= k < |r.value.rows| ==> r.value.rows[k].date == start + k)
      && (forall k, c :: 0 <= k < |r.value.rows| && c in m.columns ==>
            Cell(r.value.rows[k].cells, c) == LatestValue(obs, AvailabilityShift, c, start - PaddingDays, start + k))
  {
    forall c | c in m.columns {
      AlignMarketsCells(m.columns, start, end, today, obs, c);
    }
  }
}
