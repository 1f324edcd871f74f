/**
  The calendar data source: one row per day of the requested range, holding the
  month, quarter and year of that day.
*/
module DsCalendar {
  import opened Wrappers
  import opened Frames
  import Civil

  const Prefix: string := "era_feature_calendar_"
  const ColumnMonth: Column := Prefix + "month"
  const ColumnQuarter: Column := Prefix + "quarter"
  const ColumnYear: Column := Prefix + "year"

  /** `COLUMNS`, which `get_columns` returns. */
  const Columns: seq<Column> := [ColumnMonth, ColumnQuarter, ColumnYear]

  /** `dt.quarter`: the quarter that holds a month. */
  function Quarter(month: int): (q: int)
    requires 1 <= month <= 12
    ensures 1 <= q <= 4
    ensures 3 * (q - 1) < month <= 3 * q
  {
    (month - 1) / 3 + 1
  }

  /** The month, quarter and year cells of day `d`. */
  function DayCells(d: int): Cells<int> {
    var c := Civil.FromDay(d);
    Civil.FromDayValid(d);
    map[ColumnMonth := Some(c.month),
        ColumnQuarter := Some(Quarter(c.month)),
        ColumnYear := Some(c.year)]
  }

  /** Day `d` carries its calendar month (1..12), that month's quarter (1..4) and its
      calendar year. */
  lemma DayCellsSpec(d: int)
    ensures var c := Civil.FromDay(d);
      && 1 <= c.month <= 12
      && Cell(DayCells(d), ColumnMonth) == Some(c.month)
      && Cell(DayCells(d), ColumnQuarter) == Some((c.month - 1) / 3 + 1)
      && Cell(DayCells(d), ColumnYear) == Some(c.year)
  {
    Civil.FromDayValid(d);
  }

  /** `get_data`: every day of the inclusive range in order, one row each, with the
      calendar cells of its date; the columns are `get_columns()`. */
  function GetData(start: int, end: int): (f: Frame<int>)
    ensures f.columns == Columns
    ensures |f.rows| == (if end < start then 0 else end - start + 1)
    ensures forall i :: 0 <= i < |f.rows| ==> f.rows[i].date == start + i
    ensures forall i :: 0 <= i < |f.rows| ==> f.rows[i].cells == DayCells(f.rows[i].date)
  {
    var days := DayRange(start, end);
    var rows := seq(|days|, i requires 0 <= i < |days| => DatedRow(days[i], DayCells(days[i])));
    assert forall i :: 0 <= i < |rows| ==> rows[i].date == start + i;
    Frame(Columns, rows)
  }

  /** 2023-05-20 lies in month 5, quarter 2 of 2023; 2023-12-31 in month 12, quarter 4. */
  lemma GetDataAnchors()
    ensures var d := Civil.ToDay(Civil.Date(2023, 5, 20));
      DayCells(d) == map[ColumnMonth := Some(5), ColumnQuarter := Some(2), ColumnYear := Some(2023)]
    ensures var d := Civil.ToDay(Civil.Date(2023, 12, 31));
      DayCells(d) == map[ColumnMonth := Some(12), ColumnQuarter := Some(4), ColumnYear := Some(2023)]
  {
    Civil.FromDayToDay(Civil.Date(2023, 5, 20));
    Civil.FromDayToDay(Civil.Date(2023, 12, 31));
  }
}
