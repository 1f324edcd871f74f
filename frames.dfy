/**
  Date-keyed tables and the pandas operations the data sources and the era
  table use: a daily date range, a left merge of shifted observations onto it,
  forward fill, a per-column shift by rows, date filters and an outer merge.

  A frame holds its value columns by name (the date column is the row's `date`);
  a cell is `None` when missing. A cell of a column that a row's map does not
  hold is missing too.
*/
module Frames {
  import opened Wrappers
  import Sorting

  type Column = string
  type Cells<V> = map<Column, Option<V>>

  datatype DatedRow<V> = DatedRow(date: int, cells: Cells<V>)

  /** A frame: its value columns in order, and its rows. */
  datatype Frame<V> = Frame(columns: seq<Column>, rows: seq<DatedRow<V>>)

  /** Observations keyed by their own date (a date-indexed series). */
  type Observations<V> = map<int, Cells<V>>

  function Cell<V>(cells: Cells<V>, c: Column): Option<V> {
    if c in cells then cells[c] else None
  }

  /** `pd.date_range(lo, hi)`: every day from `lo` to `hi` inclusive; none when `hi < lo`. */
  function DayRange(lo: int, hi: int): (days: seq<int>)
    ensures |days| == if hi < lo then 0 else hi - lo + 1
    ensures forall i :: 0 <= i < |days| ==> days[i] == lo + i
  {
    seq(if hi < lo then 0 else hi - lo + 1, i => lo + i)
  }

  /** The rows hold consecutive days starting at `first`. */
  predicate Consecutive<V>(rows: seq<DatedRow<V>>, first: int) {
    forall i :: 0 <= i < |rows| ==> rows[i].date == first + i
  }

  /** `pd.merge(days, obs, on=date, how="left")` after every observation date has been
      moved `shift` days later: day `d` takes the cells observed on `d - shift`. */
  function LeftMergeShifted<V>(days: seq<int>, obs: Observations<V>, shift: int): (rows: seq<DatedRow<V>>)
    ensures |rows| == |days|
    ensures forall i :: 0 <= i < |days| ==> rows[i].date == days[i]
  {
    seq(|days|, i requires 0 <= i < |days| =>
      DatedRow(days[i], if days[i] - shift in obs then obs[days[i] - shift] else map[]))
  }

  /** `v` is what forward fill leaves in column `c` of row `i`: the cell of the latest
      row at or before `i` where `c` is present, or missing when there is none. */
  ghost predicate IsLatest<V>(rows: seq<DatedRow<V>>, i: int, c: Column, v: Option<V>)
    requires 0 <= i < |rows|
  {
    && (v == None <==> forall j :: 0 <= j <= i ==> Cell(rows[j].cells, c) == None)
    && (v != None ==>
          exists j :: 0 <= j <= i && Cell(rows[j].cells, c) == v &&
            forall k :: j < k <= i ==> Cell(rows[k].cells, c) == None)
  }

  /** The last present value of column `c` at or above row `i`; missing when there is none. */
  function LastPresent<V>(rows: seq<DatedRow<V>>, i: int, c: Column): Option<V>
    requires i < |rows|
    decreases i
  {
    if i < 0 then None
    else if Cell(rows[i].cells, c) != None then Cell(rows[i].cells, c)
    else LastPresent(rows, i - 1, c)
  }

  /** `DataFrame.ffill()` over `columns`: a missing cell takes the last present value
      above it in the same column. */
  function FFill<V>(columns: seq<Column>, rows: seq<DatedRow<V>>): (r: seq<DatedRow<V>>)
    ensures |r| == |rows|
    ensures forall i :: 0 <= i < |rows| ==> r[i].date == rows[i].date
  {
    seq(|rows|, i requires 0 <= i < |rows| =>
      DatedRow(rows[i].date, map c | c in columns :: LastPresent(rows, i, c)))
  }

  /** Forward fill leaves in each cell the latest present value at or above it. */
  lemma FFillLatest<V>(columns: seq<Column>, rows: seq<DatedRow<V>>, i: int, c: Column)
    requires 0 <= i < |rows| && c in columns
    ensures IsLatest(rows, i, c, Cell(FFill(columns, rows)[i].cells, c))
  {
    LastPresentLatest(rows, i, c);
  }

  lemma {:induction false} LastPresentLatest<V>(rows: seq<DatedRow<V>>, i: int, c: Column)
    requires 0 <= i < |rows|
    ensures IsLatest(rows, i, c, LastPresent(rows, i, c))
    decreases i
  {
    var v := LastPresent(rows, i, c);
    if Cell(rows[i].cells, c) == None {
      if i == 0 {
        assert v == None;
      } else {
        LastPresentLatest(rows, i - 1, c);
        IsLatestExtend(rows, i, c, v);
      }
    }
  }

  /** A row missing `c` carries the previous row's forward-filled value on. */
  lemma {:induction false} IsLatestExtend<V>(rows: seq<DatedRow<V>>, i: int, c: Column, v: Option<V>)
    requires 0 < i < |rows| && IsLatest(rows, i - 1, c, v) && Cell(rows[i].cells, c) == None
    ensures IsLatest(rows, i, c, v)
  {
    if v != None {
      var j :| 0 <= j <= i - 1 && Cell(rows[j].cells, c) == v &&
        forall k :: j < k <= i - 1 ==> Cell(rows[k].cells, c) == None;
      assert forall k :: j < k <= i ==> Cell(rows[k].cells, c) == None;
    }
  }

  /** `column.shift(lag(c))` for every column: row `i` takes row `i - lag(c)`, and the
      first `lag(c)` rows become missing. */
  function LagColumns<V>(columns: seq<Column>, rows: seq<DatedRow<V>>, lag: Column -> nat): (r: seq<DatedRow<V>>)
    ensures |r| == |rows|
    ensures forall i :: 0 <= i < |rows| ==> r[i].date == rows[i].date
  {
    seq(|rows|, i requires 0 <= i < |rows| =>
      DatedRow(rows[i].date, map c | c in columns ::
        if i >= lag(c) then Cell(rows[i - lag(c)].cells, c) else None))
  }

  /** `rows[rows.date >= lo]`. */
  function AtOrAfter<V>(rows: seq<DatedRow<V>>, lo: int): seq<DatedRow<V>>
    decreases |rows|
  {
    if rows == [] then []
    else if rows[0].date >= lo then [rows[0]] + AtOrAfter(rows[1..], lo)
    else AtOrAfter(rows[1..], lo)
  }

  /** `rows[rows.date <= hi]`. */
  function AtOrBefore<V>(rows: seq<DatedRow<V>>, hi: int): seq<DatedRow<V>>
    decreases |rows|
  {
    if rows == [] then []
    else if rows[0].date <= hi then [rows[0]] + AtOrBefore(rows[1..], hi)
    else AtOrBefore(rows[1..], hi)
  }

  /** On consecutive days from `first <= lo`, keeping `date >= lo` drops the first `lo - first` rows. */
  lemma {:induction false} AtOrAfterConsecutive<V>(rows: seq<DatedRow<V>>, first: int, lo: int)
    requires Consecutive(rows, first) && first <= lo
    ensures AtOrAfter(rows, lo) == if lo - first <= |rows| then rows[lo - first..] else []
    decreases |rows|
  {
    if rows != [] {
      AtOrAfterConsecutive(rows[1..], first + 1, if first < lo then lo else first + 1);
      if first == lo {
        AtOrAfterAll(rows, lo);
      }
    }
  }

  lemma {:induction false} AtOrAfterAll<V>(rows: seq<DatedRow<V>>, lo: int)
    requires forall i :: 0 <= i < |rows| ==> rows[i].date >= lo
    ensures AtOrAfter(rows, lo) == rows
    decreases |rows|
  {
    if rows != [] {
      AtOrAfterAll(rows[1..], lo);
      assert rows == [rows[0]] + rows[1..];
    }
  }

  /** On consecutive days from `first`, keeping `date <= hi` keeps the first `hi - first + 1` rows. */
  lemma {:induction false} AtOrBeforeConsecutive<V>(rows: seq<DatedRow<V>>, first: int, hi: int)
    requires Consecutive(rows, first)
    ensures AtOrBefore(rows, hi) ==
      if hi < first then [] else if hi - first + 1 <= |rows| then rows[..hi - first + 1] else rows
    decreases |rows|
  {
    if rows != [] {
      AtOrBeforeConsecutive(rows[1..], first + 1, hi);
      if first <= hi {
        if hi - first + 1 <= |rows| {
          assert rows[..hi - first + 1] == [rows[0]] + rows[1..][..hi - first];
        } else {
          assert rows == [rows[0]] + rows[1..];
        }
      }
    }
  }

  /** `v` is the value of column `c` in the latest observation whose shifted date
      `e + shift` lies in `[lo, hi]` and holds `c`; missing when there is none. */
  ghost predicate LatestObservation<V>(obs: Observations<V>, shift: int, c: Column, lo: int, hi: int, v: Option<V>) {
    && (v == None <==> forall e :: e in obs && lo <= e + shift <= hi ==> Cell(obs[e], c) == None)
    && (v != None ==>
          exists e :: e in obs && lo <= e + shift <= hi && Cell(obs[e], c) == v &&
            forall e2 :: e2 in obs && e < e2 && e2 + shift <= hi ==> Cell(obs[e2], c) == None)
  }

  /** The same value computed by scanning back from day `hi` to day `lo`: the first day
      whose shifted observation holds `c` gives the value. */
  function LatestValue<V>(obs: Observations<V>, shift: int, c: Column, lo: int, hi: int): Option<V>
    decreases hi - lo
  {
    if hi < lo then None
    else if hi - shift in obs && Cell(obs[hi - shift], c) != None then Cell(obs[hi - shift], c)
    else LatestValue(obs, shift, c, lo, hi - 1)
  }

  /** The backward scan finds the latest observation. */
  lemma {:induction false} LatestValueSpec<V>(obs: Observations<V>, shift: int, c: Column, lo: int, hi: int)
    ensures LatestObservation(obs, shift, c, lo, hi, LatestValue(obs, shift, c, lo, hi))
    decreases hi - lo
  {
    var v := LatestValue(obs, shift, c, lo, hi);
    if hi >= lo && !(hi - shift in obs && Cell(obs[hi - shift], c) != None) {
      LatestValueSpec(obs, shift, c, lo, hi - 1);
      if v != None {
        var e :| e in obs && lo <= e + shift <= hi - 1 && Cell(obs[e], c) == v &&
          forall e2 :: e2 in obs && e < e2 && e2 + shift <= hi - 1 ==> Cell(obs[e2], c) == None;
        assert forall e2 :: e2 in obs && e < e2 && e2 + shift <= hi ==> Cell(obs[e2], c) == None;
      }
    }
  }

  /** At most one value is the latest observation. */
  lemma {:induction false} LatestObservationUnique<V>(obs: Observations<V>, shift: int, c: Column, lo: int, hi: int, v1: Option<V>, v2: Option<V>)
    requires LatestObservation(obs, shift, c, lo, hi, v1) && LatestObservation(obs, shift, c, lo, hi, v2)
    ensures v1 == v2
  {
    if v1 != None && v2 != None {
      var e1 :| e1 in obs && lo <= e1 + shift <= hi && Cell(obs[e1], c) == v1 &&
        forall e2 :: e2 in obs && e1 < e2 && e2 + shift <= hi ==> Cell(obs[e2], c) == None;
      var e2 :| e2 in obs && lo <= e2 + shift <= hi && Cell(obs[e2], c) == v2 &&
        forall e3 :: e3 in obs && e2 < e3 && e3 + shift <= hi ==> Cell(obs[e3], c) == None;
      assert e1 == e2;
    }
  }

  /** Scanning the left merge of shifted observations onto consecutive days back from
      row `m` finds the same value as scanning the observations back from day `first + m`. */
  lemma {:induction false} MergedLastPresent<V>(first: int, last: int, obs: Observations<V>, shift: int, m: int, c: Column)
    requires m < |DayRange(first, last)|
    ensures LastPresent(LeftMergeShifted(DayRange(first, last), obs, shift), m, c)
              == LatestValue(obs, shift, c, first, first + m)
    decreases m
  {
    var rows := LeftMergeShifted(DayRange(first, last), obs, shift);
    if m >= 0 {
      assert Cell(rows[m].cells, c) == if first + m - shift in obs then Cell(obs[first + m - shift], c) else None;
      MergedLastPresent(first, last, obs, shift, m - 1, c);
    }
  }

  /** The lag of a source whose columns are not shifted. */
  function NoLag(c: Column): nat {
    0
  }

  /** The forward-filled grid from `paddedStart` to `end` with every column `c`
      shifted down by `lag(c)` rows. */
  function Grid<V>(paddedStart: int, end: int, obs: Observations<V>, shift: int,
                   columns: seq<Column>, lag: Column -> nat): seq<DatedRow<V>>
  {
    LagColumns(columns, FFill(columns, LeftMergeShifted(DayRange(paddedStart, end), obs, shift)), lag)
  }

  /**
    The daily alignment every data source performs: lay a daily grid from
    `paddedStart` to `end`, left-merge the observations moved `shift` days later,
    forward-fill, shift each column down by `lag(c)` rows, and keep the days from
    `start` on.
  */
  function AlignToDays<V>(paddedStart: int, start: int, end: int, obs: Observations<V>, shift: int,
                          columns: seq<Column>, lag: Column -> nat): seq<DatedRow<V>>
  {
    AtOrAfter(Grid(paddedStart, end, obs, shift, columns, lag), start)
  }

  /** The aligned rows are exactly the days from `start` to `end`, and on day `d` column `c`
      holds the latest observation whose shifted date lies in `[paddedStart, d - lag(c)]`
      (`LatestValue`, characterised by `LatestValueSpec`), provided the padding covers
      every lag. */
  lemma {:induction false} AlignToDaysSpec<V>(paddedStart: int, start: int, end: int, obs: Observations<V>, shift: int,
                           columns: seq<Column>, lag: Column -> nat)
    requires paddedStart <= start
    requires forall c :: c in columns ==> lag(c) <= start - paddedStart
    ensures var r := AlignToDays(paddedStart, start, end, obs, shift, columns, lag);
      && |r| == (if end < start then 0 else end - start + 1)
      && (forall k :: 0 <= k < |r| ==> r[k].date == start + k)
      && (forall k, c :: 0 <= k < |r| && c in columns ==>
            Cell(r[k].cells, c) == LatestValue(obs, shift, c, paddedStart, start + k - lag(c)))
  {
    AlignToDaysRows(paddedStart, start, end, obs, shift, columns, lag);
    forall c | c in columns {
      AlignToDaysColumn(paddedStart, start, end, obs, shift, columns, lag, c, lag(c));
    }
  }

  /** `AlignToDaysSpec` for one column `c`, lagged by `d` rows. */
  lemma {:induction false} AlignToDaysColumn<V>(paddedStart: int, start: int, end: int, obs: Observations<V>, shift: int,
                             columns: seq<Column>, lag: Column -> nat, c: Column, d: int)
    requires paddedStart <= start && c in columns && d == lag(c) && d <= start - paddedStart
    ensures var r := AlignToDays(paddedStart, start, end, obs, shift, columns, lag);
      && |r| == (if end < start then 0 else end - start + 1)
      && (forall k :: 0 <= k < |r| ==> r[k].date == start + k)
      && (forall k :: 0 <= k < |r| ==> Cell(r[k].cells, c) == LatestValue(obs, shift, c, paddedStart, start + k - d))
  {
    AlignToDaysRows(paddedStart, start, end, obs, shift, columns, lag);
    var r := AlignToDays(paddedStart, start, end, obs, shift, columns, lag);
    forall k | 0 <= k < |r|
      ensures Cell(r[k].cells, c) == LatestValue(obs, shift, c, paddedStart, start + k - d)
    {
      AlignedCell(paddedStart, start, end, obs, shift, columns, lag, k, c, start + k - d);
    }
  }

  /** `AlignToDaysSpec` for one column `c` that is not lagged. */
  lemma {:induction false} AlignToDaysUnlagged<V>(paddedStart: int, start: int, end: int, obs: Observations<V>, shift: int,
                                                  columns: seq<Column>, lag: Column -> nat, c: Column)
    requires paddedStart <= start && c in columns && lag(c) == 0
    ensures var r := AlignToDays(paddedStart, start, end, obs, shift, columns, lag);
      && |r| == (if end < start then 0 else end - start + 1)
      && (forall k :: 0 <= k < |r| ==> r[k].date == start + k)
      && (forall k :: 0 <= k < |r| ==> Cell(r[k].cells, c) == LatestValue(obs, shift, c, paddedStart, start + k))
  {
    var r := AlignToDays(paddedStart, start, end, obs, shift, columns, lag);
    forall k | 0 <= k < |r|
      ensures Cell(r[k].cells, c) == LatestValue(obs, shift, c, paddedStart, start + k)
    {
      AlignedCell(paddedStart, start, end, obs, shift, columns, lag, k, c, start + k);
    }
    AlignToDaysRows(paddedStart, start, end, obs, shift, columns, lag);
  }

  /** Day `start + k` of column `c` looks back to day `hi`. */
  lemma {:induction false} AlignedCell<V>(paddedStart: int, start: int, end: int, obs: Observations<V>, shift: int,
                                          columns: seq<Column>, lag: Column -> nat, k: int, c: Column, hi: int)
    requires paddedStart <= start && c in columns && lag(c) <= start - paddedStart
    requires 0 <= k < |AlignToDays(paddedStart, start, end, obs, shift, columns, lag)|
    requires hi == start + k - lag(c)
    ensures Cell(AlignToDays(paddedStart, start, end, obs, shift, columns, lag)[k].cells, c)
              == LatestValue(obs, shift, c, paddedStart, hi)
  {
    AlignToDaysRows(paddedStart, start, end, obs, shift, columns, lag);
    GridCell(paddedStart, end, obs, shift, columns, lag, k + start - paddedStart, c);
  }

  /** The aligned rows are the grid's rows from `start` on. */
  lemma {:induction false} AlignToDaysRows<V>(paddedStart: int, start: int, end: int, obs: Observations<V>, shift: int,
                           columns: seq<Column>, lag: Column -> nat)
    requires paddedStart <= start
    ensures var r := AlignToDays(paddedStart, start, end, obs, shift, columns, lag);
      var grid := Grid(paddedStart, end, obs, shift, columns, lag);
      && |r| == (if end < start then 0 else end - start + 1)
      && (forall k :: 0 <= k < |r| ==> k + start - paddedStart < |grid| && r[k] == grid[k + start - paddedStart] && r[k].date == start + k)
  {
    var grid := Grid(paddedStart, end, obs, shift, columns, lag);
    assert Consecutive(grid, paddedStart);
    AtOrAfterConsecutive(grid, paddedStart, start);
  }

  /** Row `i` of column `c` in the grid holds the latest observation whose shifted date
      lies in `[paddedStart, paddedStart + i - lag(c)]`. */
  lemma {:induction false} GridCell<V>(paddedStart: int, end: int, obs: Observations<V>, shift: int,
                                       columns: seq<Column>, lag: Column -> nat, i: int, c: Column)
    requires 0 <= i < |Grid(paddedStart, end, obs, shift, columns, lag)| && c in columns && lag(c) <= i
    ensures Cell(Grid(paddedStart, end, obs, shift, columns, lag)[i].cells, c)
              == LatestValue(obs, shift, c, paddedStart, paddedStart + i - lag(c))
  {
    var m := GridLagged(paddedStart, end, obs, shift, columns, lag, i, c);
    FilledCell(paddedStart, end, obs, shift, columns, m, c, paddedStart + i - lag(c));
  }

  /** Row `i` of column `c` in the grid is row `m = i - lag(c)` of the filled grid. */
  lemma {:induction false} GridLagged<V>(paddedStart: int, end: int, obs: Observations<V>, shift: int,
                                         columns: seq<Column>, lag: Column -> nat, i: int, c: Column)
    returns (m: int)
    requires 0 <= i < |Grid(paddedStart, end, obs, shift, columns, lag)| && c in columns && lag(c) <= i
    ensures m == i - lag(c) && 0 <= m < |DayRange(paddedStart, end)|
    ensures Cell(Grid(paddedStart, end, obs, shift, columns, lag)[i].cells, c)
              == Cell(FFill(columns, LeftMergeShifted(DayRange(paddedStart, end), obs, shift))[m].cells, c)
  {
    m := i - lag(c);
    LaggedCell(columns, FFill(columns, LeftMergeShifted(DayRange(paddedStart, end), obs, shift)), lag, i, c);
  }

  /** Row `m` of column `c` in the filled grid holds the latest observation whose shifted
      date lies in `[paddedStart, paddedStart + m]`. */
  lemma {:induction false} FilledCell<V>(paddedStart: int, end: int, obs: Observations<V>, shift: int,
                                         columns: seq<Column>, m: int, c: Column, hi: int)
    requires 0 <= m < |DayRange(paddedStart, end)| && c in columns && hi == paddedStart + m
    ensures Cell(FFill(columns, LeftMergeShifted(DayRange(paddedStart, end), obs, shift))[m].cells, c)
              == LatestValue(obs, shift, c, paddedStart, hi)
  {
    MergedLastPresent(paddedStart, end, obs, shift, m, c);
  }

  /** Row `i` of a column lagged by `lag(c)` rows holds row `i - lag(c)` of the input. */
  lemma LaggedCell<V>(columns: seq<Column>, rows: seq<DatedRow<V>>, lag: Column -> nat, i: int, c: Column)
    requires 0 <= i < |rows| && c in columns && lag(c) <= i
    ensures Cell(LagColumns(columns, rows, lag)[i].cells, c) == Cell(rows[i - lag(c)].cells, c)
  {
  }

  /** A row is missing every column when its map holds none of them as present. */
  function AllMissing<V>(columns: seq<Column>): (cells: Cells<V>)
    ensures forall c :: Cell(cells, c) == None
  {
    map c | c in columns :: None
  }

  predicate IntLess(a: int, b: int) {
    a < b
  }

  lemma IntLessOrder()
    ensures Sorting.StrictTotalOrder(IntLess)
  {
  }

  function Dates<V>(rows: seq<DatedRow<V>>): (ds: seq<int>)
    ensures |ds| == |rows| && forall i :: 0 <= i < |rows| ==> ds[i] == rows[i].date
  {
    seq(|rows|, i requires 0 <= i < |rows| => rows[i].date)
  }

  /** The index of the last row dated `d`, or -1 when no row has that date. */
  function LastIndexOn<V>(rows: seq<DatedRow<V>>, d: int): (i: int)
    ensures -1 <= i < |rows|
    ensures i >= 0 ==> rows[i].date == d
    ensures forall j :: i < j < |rows| ==> rows[j].date != d
    decreases |rows|
  {
    if rows == [] then -1
    else if rows[|rows| - 1].date == d then |rows| - 1
    else LastIndexOn(rows[..|rows| - 1], d)
  }

  /** The cells of the last row dated `d`; none when no row has that date. */
  function CellsOn<V>(rows: seq<DatedRow<V>>, d: int): Cells<V> {
    var i := LastIndexOn(rows, d);
    if i < 0 then map[] else rows[i].cells
  }

  /** `pd.merge(a, b, on=date, how="outer")`: one row per date of either frame, in
      increasing date order, holding the cells of both frames on that date. */
  function OuterMerge<V>(a: Frame<V>, b: Frame<V>): (m: Frame<V>)
    ensures m.columns == a.columns + b.columns
    ensures Sorting.StrictlySorted(Dates(m.rows), IntLess)
    ensures forall d :: d in Dates(m.rows) <==> d in Dates(a.rows) || d in Dates(b.rows)
    ensures forall i :: 0 <= i < |m.rows| ==>
              m.rows[i].cells == CellsOn(a.rows, m.rows[i].date) + CellsOn(b.rows, m.rows[i].date)
  {
    IntLessOrder();
    var days := Sorting.SortUnique(Dates(a.rows) + Dates(b.rows), IntLess);
    var m := Frame(a.columns + b.columns, seq(|days|, i requires 0 <= i < |days| =>
      DatedRow(days[i], CellsOn(a.rows, days[i]) + CellsOn(b.rows, days[i]))));
    assert Dates(m.rows) == days;
    m
  }
}
