/**
  The Weekly Economic Index data source. Each weekly observation is dated to a
  Saturday but is published the following Thursday afternoon, so its date moves
  six days later before it is laid on a daily grid padded 13 days before the
  requested start, forward-filled and trimmed to the start.

  The download is not modelled: the parsed series (one value per observation
  date, or `None` when the request failed) is a parameter.
*/
module DsWei {
  import opened Wrappers
  import opened Frames

  const ColumnWei: Column := "era_feature_wei_wei"

  /** `COLUMNS`, which `get_columns` returns. */
  const Columns: seq<Column> := [ColumnWei]

  /** Days of padding before the requested start. */
  const PaddingDays: int := 13

  /** Days from an observation's date to the day it is usable. */
  const ReleaseShift: int := 6

  /** The series as observations of the single column. */
  function Observed<V>(series: map<int, Option<V>>): Observations<V> {
    map d | d in series :: map[ColumnWei := series[d]]
  }

  /** `get_data`: `None` when the download failed. */
  function GetData<V>(start: int, end: int, download: Option<map<int, Option<V>>>): (r: Option<Frame<V>>)
    ensures r.Some? <==> download.Some?
    ensures r.Some? ==> r.value.columns == Columns
  {
    match download
    case None => None
    case Some(series) =>
      Some(Frame(Columns, AlignToDays(start - PaddingDays, start, end, Observed(series), ReleaseShift, Columns, NoLag)))
  }

  /** The frame has the single WEI column and one row per day from `start` to `end`. */
  lemma GetDataShape<V>(start: int, end: int, series: map<int, Option<V>>)
    ensures var r := GetData(start, end, Some(series));
      && r.Some?
      && r.value.columns == Columns
      && |r.value.rows| == (if end < start then 0 else end - start + 1)
      && (forall k :: 0 <= k < |r.value.rows| ==> r.value.rows[k].date == start + k)
  {
    AlignToDaysUnlagged(start - PaddingDays, start, end, Observed(series), ReleaseShift, Columns, NoLag, ColumnWei);
  }

  /** On day `d` the frame holds the latest observation `e` with `e + 6` in
      `[start - 13, d]` (`Frames.LatestValueSpec` characterises `LatestValue`). */
  lemma GetDataCells<V>(start: int, end: int, series: map<int, Option<V>>)
    ensures var r := GetData(start, end, Some(series));
      forall k :: 0 <= k < |r.value.rows| ==>
        Cell(r.value.rows[k].cells, ColumnWei)
          == LatestValue(Observed(series), ReleaseShift, ColumnWei, start - PaddingDays, start + k)
  {
    AlignToDaysUnlagged(start - PaddingDays, start, end, Observed(series), ReleaseShift, Columns, NoLag, ColumnWei);
  }

  /** A failed download raises. */
  lemma FailedDownload<V>(start: int, end: int)
    ensures GetData<V>(start, end, None).None?
  {
  }

  /** A single-day request returns exactly one row, dated that day. */
  lemma SingleDay<V>(d: int, series: map<int, Option<V>>)
    ensures var r := GetData(d, d, Some(series));
      r.Some? && |r.value.rows| == 1 && r.value.rows[0].date == d
  {
    GetDataShape(d, d, series);
  }

  /** On the day an observation becomes usable (its date plus six) the frame holds
      exactly that observation's value. */
  lemma VisibleOnReleaseDay<V>(start: int, end: int, series: map<int, Option<V>>, e: int)
    requires e in series && series[e] != None
    requires start <= e + ReleaseShift <= end
    ensures var r := GetData(start, end, Some(series));
      && r.Some?
      && e + ReleaseShift - start < |r.value.rows|
      && Cell(r.value.rows[e + ReleaseShift - start].cells, ColumnWei) == series[e]
  {
    GetDataShape(start, end, series);
    GetDataCells(start, end, series);
    ReleasedValue(start, series, e);
  }

  lemma ReleasedValue<V>(start: int, series: map<int, Option<V>>, e: int)
    requires e in series && series[e] != None && start <= e + ReleaseShift
    ensures LatestValue(Observed(series), ReleaseShift, ColumnWei, start - PaddingDays, e + ReleaseShift) == series[e]
  {
    var obs := Observed(series);
    assert e in obs && Cell(obs[e], ColumnWei) == series[e];
  }

  /** Before the first observation is usable (and within the padding), the frame is
      missing. */
  lemma MissingBeforeFirstRelease<V>(start: int, end: int, series: map<int, Option<V>>, k: int)
    requires 0 <= k && start + k <= end
    requires forall e :: e in series && e + ReleaseShift <= start + k ==> series[e] == None
    ensures var r := GetData(start, end, Some(series));
      && r.Some?
      && k < |r.value.rows|
      && Cell(r.value.rows[k].cells, ColumnWei) == None
  {
    GetDataShape(start, end, series);
    GetDataCells(start, end, series);
    var obs := Observed(series);
    LatestValueSpec(obs, ReleaseShift, ColumnWei, start - PaddingDays, start + k);
  }
}
