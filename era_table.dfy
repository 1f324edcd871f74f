/**
  The era table `update_data` builds from the merged sources: each day gets its
  era as a four-digit label, missing cells are forward-filled, only the last day
  of each era is kept, and the columns are the era, then the value columns in
  sorted order, without the date.
*/
module EraTable {
  import opened Wrappers
  import opened Frames
  import Sorting
  import Text
  import DateUtils

  const DateColumn: Column := "date"
  const EraColumn: Column := "era"

  /** A row of the era table: its era label and its value cells. */
  datatype EraRow<V> = EraRow(era: string, cells: Cells<V>)

  /** The era table. `columns` are the value columns that follow the era column. */
  datatype Table<V> = Table(columns: seq<Column>, rows: seq<EraRow<V>>)

  /** `str(era).zfill(4)`. */
  function EraLabel(era: int): (s: string)
    ensures |s| >= 4
  {
    Text.ZFill(Text.IntToString(era), 4)
  }

  /** `astype(int)` reads the era back from its label. */
  lemma EraLabelParses(era: int)
    ensures Text.ParseInt(EraLabel(era)) == Some(era)
  {
    Text.ParseZFill(era, 4);
  }

  /** Different eras get different labels. */
  lemma EraLabelInjective(a: int, b: int)
    ensures EraLabel(a) == EraLabel(b) <==> a == b
  {
    EraLabelParses(a);
    EraLabelParses(b);
  }

  /** Eras 0 to 9999 get exactly four digits. */
  lemma EraLabelWidth(era: int)
    requires 0 <= era < 10000
    ensures |EraLabel(era)| == 4 && Text.AllDigits(EraLabel(era))
  {
    NatToStringShort(era, 4);
    Text.NatToStringDigits(era);
    var s := Text.NatToString(era);
    assert Text.IntToString(era) == s;
    if |s| < 4 {
      assert EraLabel(era) == Text.Zeros(4 - |s|) + s;
      Text.LeadingZeros(4 - |s|, s);
    }
  }

  function Pow10(k: nat): (p: nat)
    ensures p >= 1
  {
    if k == 0 then 1 else 10 * Pow10(k - 1)
  }

  lemma {:induction false} NatToStringShort(n: nat, k: nat)
    requires n < Pow10(k) && k >= 1
    ensures |Text.NatToString(n)| <= k
    decreases k
  {
    if n >= 10 {
      NatToStringShort(n / 10, k - 1);
    }
  }

  lemma EraLabelAnchors()
    ensures EraLabel(1063) == "1063"
    ensures EraLabel(7) == "0007"
    ensures EraLabel(-3) == "-003"
  {
    assert Text.NatToString(1063) == "1063";
    assert Text.NatToString(7) == "7";
    assert Text.NatToString(3) == "3";
    assert Text.Zeros(3) == "000";
    assert Text.Zeros(2) == "00";
  }

  /** The era label of day `d`. */
  function EraOf(d: int): string {
    EraLabel(DateUtils.EraForDate(d))
  }

  /** No later row has the same era as row `i`. */
  predicate LastOfEra<V>(rows: seq<DatedRow<V>>, i: int)
    requires 0 <= i < |rows|
  {
    forall k :: i < k < |rows| ==> EraOf(rows[k].date) != EraOf(rows[i].date)
  }

  /** `drop_duplicates(subset=[era], keep="last")` from row `i` on: the indices of
      the rows kept, in order. */
  function KeptFrom<V>(rows: seq<DatedRow<V>>, i: int): (idx: seq<int>)
    requires 0 <= i <= |rows|
    ensures |idx| <= |rows| - i
    ensures forall j :: 0 <= j < |idx| ==> i <= idx[j] < |rows|
    ensures forall j, k :: 0 <= j < k < |idx| ==> idx[j] < idx[k]
    decreases |rows| - i
  {
    if i == |rows| then []
    else (if LastOfEra(rows, i) then [i] else []) + KeptFrom(rows, i + 1)
  }

  /** Exactly the last row of each era is kept. */
  lemma {:induction false} KeptMembers<V>(rows: seq<DatedRow<V>>, i: int)
    requires 0 <= i <= |rows|
    ensures forall n :: n in KeptFrom(rows, i) <==> i <= n < |rows| && LastOfEra(rows, n)
    decreases |rows| - i
  {
    if i < |rows| {
      KeptMembers(rows, i + 1);
      var head := if LastOfEra(rows, i) then [i] else [];
      var rest := KeptFrom(rows, i + 1);
      assert KeptFrom(rows, i) == head + rest;
      forall n ensures n in head + rest <==> i <= n < |rows| && LastOfEra(rows, n) {
        assert n in head + rest <==> n in head || n in rest;
      }
    }
  }

  /** `xs` without the element `x`. */
  function Without(xs: seq<Column>, x: Column): (r: seq<Column>)
    ensures forall y :: y in r <==> y in xs && y != x
  {
    if xs == [] then []
    else if xs[0] == x then Without(xs[1..], x)
    else [xs[0]] + Without(xs[1..], x)
  }

  lemma {:induction false} WithoutSorted(xs: seq<Column>, x: Column)
    requires Sorting.StrictlySorted(xs, Text.StrLess)
    ensures Sorting.StrictlySorted(Without(xs, x), Text.StrLess)
  {
    if xs != [] {
      assert Sorting.StrictlySorted(xs[1..], Text.StrLess);
      WithoutSorted(xs[1..], x);
      if xs[0] != x {
        var rest := Without(xs[1..], x);
        forall k | 0 <= k < |rest| ensures Text.StrLess(xs[0], rest[k]) {
          assert rest[k] in xs[1..];
        }
      }
    }
  }

  /** The value columns after `reindex` and `drop`: the merged columns plus the date,
      less the era (`Index.difference`, which sorts), then less the date. */
  function TableColumns(columns: seq<Column>): (r: seq<Column>)
    ensures Sorting.StrictlySorted(r, Text.StrLess)
    ensures forall c :: c in r <==> c in columns && c != EraColumn && c != DateColumn
  {
    var sorted := Text.SortColumns(Without([DateColumn] + columns + [EraColumn], EraColumn));
    WithoutSorted(sorted, DateColumn);
    Without(sorted, DateColumn)
  }

  /** Lines 100-106 of `update_data`: label, forward-fill, keep the last row of each
      era, order the columns and drop the date. */
  function Reshape<V>(merged: Frame<V>): (t: Table<V>)
    ensures Sorting.StrictlySorted(t.columns, Text.StrLess)
    ensures forall c :: c in t.columns <==> c in merged.columns && c != EraColumn && c != DateColumn
    ensures |t.rows| <= |merged.rows|
    ensures |t.rows| > 0 <==> |merged.rows| > 0
  {
    var filled := FFill(merged.columns, merged.rows);
    KeptNonempty(filled);
    var idx := KeptFrom(filled, 0);
    Table(TableColumns(merged.columns),
      seq(|idx|, j requires 0 <= j < |idx| => EraRow(EraOf(filled[idx[j]].date), filled[idx[j]].cells)))
  }

  /** Row `j` of the table comes from the `j`-th kept row of the filled days. */
  lemma ReshapeRow<V>(merged: Frame<V>, j: int) returns (i: int)
    requires 0 <= j < |Reshape(merged).rows|
    ensures var filled := FFill(merged.columns, merged.rows);
      && 0 <= i < |filled| && i == KeptFrom(filled, 0)[j] && LastOfEra(filled, i)
      && Reshape(merged).rows[j] == EraRow(EraOf(filled[i].date), filled[i].cells)
      && Reshape(merged).rows[j].era == EraOf(merged.rows[i].date)
  {
    var filled := FFill(merged.columns, merged.rows);
    var idx := KeptFrom(filled, 0);
    KeptMembers(filled, 0);
    i := idx[j];
    assert idx[j] in idx;
  }

  /** Every row of the table is the forward-filled last merged row of its era: its
      label is that day's era, zero-padded, and no later merged day is in that era. */
  lemma ReshapeKeepsLast<V>(merged: Frame<V>, j: int) returns (i: int)
    requires 0 <= j < |Reshape(merged).rows|
    ensures 0 <= i < |merged.rows|
    ensures Reshape(merged).rows[j].era == EraLabel(DateUtils.EraForDate(merged.rows[i].date))
    ensures Reshape(merged).rows[j].cells == FFill(merged.columns, merged.rows)[i].cells
    ensures forall k :: i < k < |merged.rows| ==>
      DateUtils.EraForDate(merged.rows[k].date) != DateUtils.EraForDate(merged.rows[i].date)
  {
    var filled := FFill(merged.columns, merged.rows);
    i := ReshapeRow(merged, j);
    forall k | i < k < |merged.rows|
      ensures DateUtils.EraForDate(merged.rows[k].date) != DateUtils.EraForDate(merged.rows[i].date)
    {
      assert EraOf(filled[k].date) != EraOf(filled[i].date);
    }
  }

  /** Each era appears at most once. */
  lemma ReshapeErasDistinct<V>(merged: Frame<V>)
    ensures var t := Reshape(merged);
      forall j, k :: 0 <= j < k < |t.rows| ==> t.rows[j].era != t.rows[k].era
  {
    var t := Reshape(merged);
    forall j, k | 0 <= j < k < |t.rows|
      ensures t.rows[j].era != t.rows[k].era
    {
      var a := ReshapeRow(merged, j);
      var b := ReshapeRow(merged, k);
    }
  }

  /** Every era of a merged day has its row in the table. */
  lemma ReshapeCoversEras<V>(merged: Frame<V>, i: int) returns (j: int)
    requires 0 <= i < |merged.rows|
    ensures 0 <= j < |Reshape(merged).rows| && Reshape(merged).rows[j].era == EraOf(merged.rows[i].date)
  {
    var filled := FFill(merged.columns, merged.rows);
    var idx := KeptFrom(filled, 0);
    var n := LastWithEra(filled, i);
    KeptMembers(filled, 0);
    assert n in idx;
    j :| 0 <= j < |idx| && idx[j] == n;
    var m := ReshapeRow(merged, j);
  }

  /** The last row with the era of row `i`. */
  lemma {:induction false} LastWithEra<V>(rows: seq<DatedRow<V>>, i: int) returns (n: int)
    requires 0 <= i < |rows|
    ensures i <= n < |rows| && LastOfEra(rows, n) && EraOf(rows[n].date) == EraOf(rows[i].date)
    decreases |rows| - i
  {
    if LastOfEra(rows, i) {
      n := i;
    } else {
      var k :| i < k < |rows| && EraOf(rows[k].date) == EraOf(rows[i].date);
      n := LastWithEra(rows, k);
    }
  }

  /** Both labels read as integers (`astype(int)`), the first below the second. */
  predicate ReadsBelow(a: string, b: string) {
    Text.ParseInt(a).Some? && Text.ParseInt(b).Some? && Text.ParseInt(a).value < Text.ParseInt(b).value
  }

  /** When the merged days increase, so do the eras of the table, read back as
      numbers. */
  lemma ReshapeErasIncreasing<V>(merged: Frame<V>)
    requires Sorting.StrictlySorted(Dates(merged.rows), IntLess)
    ensures var t := Reshape(merged);
      forall j, k :: 0 <= j < k < |t.rows| ==>
        ReadsBelow(t.rows[j].era, t.rows[k].era)
  {
    var t := Reshape(merged);
    forall j, k | 0 <= j < k < |t.rows|
      ensures ReadsBelow(t.rows[j].era, t.rows[k].era)
    {
      ErasIncreasingPair(merged, j, k);
    }
  }

  lemma ErasIncreasingPair<V>(merged: Frame<V>, j: int, k: int)
    requires Sorting.StrictlySorted(Dates(merged.rows), IntLess)
    requires 0 <= j < k < |Reshape(merged).rows|
    ensures var t := Reshape(merged);
      ReadsBelow(t.rows[j].era, t.rows[k].era)
  {
    var ea, eb := ErasOfPair(merged, j, k);
    LabelsIncrease(ea, eb);
  }

  /** Rows `j < k` of the table hold the labels of eras `ea < eb`. */
  lemma ErasOfPair<V>(merged: Frame<V>, j: int, k: int) returns (ea: int, eb: int)
    requires Sorting.StrictlySorted(Dates(merged.rows), IntLess)
    requires 0 <= j < k < |Reshape(merged).rows|
    ensures Reshape(merged).rows[j].era == EraLabel(ea) && Reshape(merged).rows[k].era == EraLabel(eb)
    ensures ea < eb
  {
    var filled := FFill(merged.columns, merged.rows);
    var a := ReshapeRow(merged, j);
    var b := ReshapeRow(merged, k);
    assert a < b;
    assert Dates(merged.rows)[a] == filled[a].date && Dates(merged.rows)[b] == filled[b].date;
    assert IntLess(filled[a].date, filled[b].date);
    assert EraOf(filled[b].date) != EraOf(filled[a].date);
    ErasApart(filled[a].date, filled[b].date);
    ea, eb := DateUtils.EraForDate(filled[a].date), DateUtils.EraForDate(filled[b].date);
  }

  /** A later day with another label is in a later era. */
  lemma ErasApart(d1: int, d2: int)
    requires d1 < d2 && EraOf(d1) != EraOf(d2)
    ensures DateUtils.EraForDate(d1) < DateUtils.EraForDate(d2)
  {
    DateUtils.EraMonotone(d1, d2);
  }

  /** Labels read back in the order of their eras. */
  lemma LabelsIncrease(ea: int, eb: int)
    requires ea < eb
    ensures ReadsBelow(EraLabel(ea), EraLabel(eb))
  {
    EraLabelParses(ea);
    EraLabelParses(eb);
  }

  /** The last row of the table is the last merged day's. */
  lemma LastRowLastDay<V>(merged: Frame<V>, last: int) returns (n: int)
    requires last == |merged.rows| - 1 && last >= 0
    ensures n == |Reshape(merged).rows| - 1 && n >= 0
    ensures Reshape(merged).rows[n].era == EraOf(merged.rows[last].date)
  {
    var filled := FFill(merged.columns, merged.rows);
    LastKept(filled, last);
    n := |KeptFrom(filled, 0)| - 1;
    var i := ReshapeRow(merged, n);
  }

  /** The last row is always kept, and kept last. */
  lemma LastKept<V>(rows: seq<DatedRow<V>>, last: int)
    requires last == |rows| - 1 && last >= 0
    ensures |KeptFrom(rows, 0)| > 0 && KeptFrom(rows, 0)[|KeptFrom(rows, 0)| - 1] == last
  {
    var idx := KeptFrom(rows, 0);
    KeptMembers(rows, 0);
    assert last in idx;
    var m :| 0 <= m < |idx| && idx[m] == last;
    var top := |idx| - 1;
    assert idx[top] < |rows|;
    assert idx[m] <= idx[top];
  }

  /** Some row is kept exactly when there is a row. */
  lemma KeptNonempty<V>(rows: seq<DatedRow<V>>)
    ensures |KeptFrom(rows, 0)| > 0 <==> |rows| > 0
  {
    if |rows| > 0 {
      LastKept(rows, |rows| - 1);
    }
  }
}
