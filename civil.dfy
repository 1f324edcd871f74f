/**
  The proleptic Gregorian calendar of Python's `datetime.date`, on day numbers.

  A day is an `int`: the proleptic ordinal of `date.toordinal()`, so 0001-01-01
  is day 1 and every later day adds one. Internally the conversion counts days
  from 0000-03-01 and splits a day count into 400-, 100-, 4- and 1-year cycles of
  March-based years (the leap day is then the last day of a year).
*/
module Civil {

  /** A calendar date: year, month (1..12) and day of month. */
  datatype Date = Date(year: int, month: int, day: int)

  predicate IsLeapYear(y: int) {
    y % 4 == 0 && (y % 100 != 0 || y % 400 == 0)
  }

  function DaysInMonth(y: int, m: int): (n: int)
    requires 1 <= m <= 12
    ensures 28 <= n <= 31
    ensures n == 29 <==> m == 2 && IsLeapYear(y)
  {
    if m == 2 then (if IsLeapYear(y) then 29 else 28)
    else if m == 4 || m == 6 || m == 9 || m == 11 then 30
    else 31
  }

  /** A date that exists in the calendar. */
  predicate Valid(c: Date) {
    1 <= c.month <= 12 && 1 <= c.day <= DaysInMonth(c.year, c.month)
  }

  /** Days from 0000-03-01 to 0001-01-01 (ordinal 1), minus one. */
  const MarchEpochOffset: int := 305

  /** Offset of the first day of March-based month `mp` (0 = March .. 11 = February). */
  function MonthOffset(mp: int): int
    requires 0 <= mp < 12
  {
    [0, 31, 61, 92, 122, 153, 184, 214, 245, 275, 306, 337][mp]
  }

  /** Days from 0000-03-01 to the first day of March-based year `y`. */
  function YearStart(y: int): int {
    365 * y + y / 4 - y / 100 + y / 400
  }

  /** `date.toordinal()`: the day number of a calendar date. */
  function ToDay(c: Date): int
    requires 1 <= c.month <= 12
  {
    var y := if c.month <= 2 then c.year - 1 else c.year;
    var mp := if c.month > 2 then c.month - 3 else c.month + 9;
    YearStart(y) + MonthOffset(mp) + c.day - 1 - MarchEpochOffset
  }

  /** The March-based month that holds day `doy` of a March-based year. */
  function MonthOfYearDay(doy: int): (mp: int)
    requires 0 <= doy <= 365
    ensures 0 <= mp < 12 && MonthOffset(mp) <= doy
    ensures mp < 11 ==> doy < MonthOffset(mp + 1)
  {
    if doy >= 337 then 11 else if doy >= 306 then 10 else if doy >= 275 then 9
    else if doy >= 245 then 8 else if doy >= 214 then 7 else if doy >= 184 then 6
    else if doy >= 153 then 5 else if doy >= 122 then 4 else if doy >= 92 then 3
    else if doy >= 61 then 2 else if doy >= 31 then 1 else 0
  }

  /** The cycle decomposition of a day count `z` from 0000-03-01. */
  datatype Cycles = Cycles(n400: int, n100: int, n4: int, n1: int, doy: int)

  function Decompose(z: int): (k: Cycles)
    ensures 0 <= k.n100 <= 3 && 0 <= k.n4 <= 24 && 0 <= k.n1 <= 3 && 0 <= k.doy <= 365
    ensures z == 146097 * k.n400 + 36524 * k.n100 + 1461 * k.n4 + 365 * k.n1 + k.doy
    ensures k.doy == 365 ==> k.n1 == 3 && (k.n4 < 24 || k.n100 == 3)
  {
    var n400 := z / 146097;
    var r400 := z % 146097;
    var n100 := if r400 / 36524 == 4 then 3 else r400 / 36524;
    var r100 := r400 - 36524 * n100;
    var n4 := r100 / 1461;
    var r4 := r100 % 1461;
    var n1 := if r4 / 365 == 4 then 3 else r4 / 365;
    Cycles(n400, n100, n4, n1, r4 - 365 * n1)
  }

  /** `date.fromordinal(n)`: the calendar date of a day number. */
  function FromDay(n: int): Date {
    var k := Decompose(n + MarchEpochOffset);
    var y := 400 * k.n400 + 100 * k.n100 + 4 * k.n4 + k.n1;
    var mp := MonthOfYearDay(k.doy);
    var month := if mp < 10 then mp + 3 else mp - 9;
    Date(if month <= 2 then y + 1 else y, month, k.doy - MonthOffset(mp) + 1)
  }

  lemma YearStartOfCycles(a: int, b: int, c: int, e: int)
    requires 0 <= b <= 3 && 0 <= c <= 24 && 0 <= e <= 3
    ensures YearStart(400 * a + 100 * b + 4 * c + e) == 146097 * a + 36524 * b + 1461 * c + 365 * e
  {
    var y := 400 * a + 100 * b + 4 * c + e;
    assert y == 4 * (100 * a + 25 * b + c) + e;
    assert y / 4 == 100 * a + 25 * b + c;
    assert y == 100 * (4 * a + b) + (4 * c + e);
    assert y / 100 == 4 * a + b;
    assert y == 400 * a + (100 * b + 4 * c + e);
    assert y / 400 == a;
  }

  /** Euclidean division by a positive literal, stated once for the proofs below. */
  lemma DivMod(x: int, d: int, q: int, r: int)
    requires d == 4 || d == 100 || d == 400
    requires x == d * q + r && 0 <= r < d
    ensures x / d == q && x % d == r
  {
  }

  /** February of March-based year `400a + 100b + 4c + e` (which falls in calendar year
      `400a + 100b + 4c + e + 1`) has 29 days exactly when the cycle decomposition
      gives that year a 366th day. */
  lemma LeapOfCycles(a: int, b: int, c: int, e: int)
    requires 0 <= b <= 3 && 0 <= c <= 24 && 0 <= e <= 3
    ensures IsLeapYear(400 * a + 100 * b + 4 * c + e + 1) <==> e == 3 && (c < 24 || b == 3)
  {
    var y1 := 400 * a + 100 * b + 4 * c + e + 1;
    if e < 3 {
      DivMod(y1, 4, 100 * a + 25 * b + c, e + 1);
    } else if c < 24 {
      DivMod(y1, 4, 100 * a + 25 * b + c + 1, 0);
      DivMod(y1, 100, 4 * a + b, 4 * c + 4);
    } else if b == 3 {
      DivMod(y1, 4, 100 * a + 100, 0);
      DivMod(y1, 400, a + 1, 0);
    } else {
      DivMod(y1, 4, 100 * a + 25 * b + 25, 0);
      DivMod(y1, 100, 4 * a + b + 1, 0);
      DivMod(y1, 400, a, 100 * b + 100);
    }
  }

  /** Every day number names a date that exists. */
  lemma FromDayValid(n: int)
    ensures Valid(FromDay(n))
  {
    var k := Decompose(n + MarchEpochOffset);
    var c := FromDay(n);
    var mp := MonthOfYearDay(k.doy);
    if mp == 11 && k.doy == 365 {
      LeapOfCycles(k.n400, k.n100, k.n4, k.n1);
    }
  }

  /** `toordinal(fromordinal(n)) == n`. */
  lemma ToDayFromDay(n: int)
    ensures ToDay(FromDay(n)) == n
  {
    var k := Decompose(n + MarchEpochOffset);
    YearStartOfCycles(k.n400, k.n100, k.n4, k.n1);
  }

  /** The March-based month and day offset of a date that exists. */
  lemma MonthOfDate(c: Date, mp: int)
    requires Valid(c)
    requires mp == if c.month > 2 then c.month - 3 else c.month + 9
    ensures 0 <= MonthOffset(mp) + c.day - 1 <= 365
    ensures MonthOfYearDay(MonthOffset(mp) + c.day - 1) == mp
    ensures MonthOffset(mp) + c.day - 1 == 365 ==> c.month == 2 && IsLeapYear(c.year)
  {
  }

  /** The four cycle counts of a March-based year. */
  lemma SplitYear(y: int) returns (a: int, b: int, c: int, e: int)
    ensures 0 <= b <= 3 && 0 <= c <= 24 && 0 <= e <= 3
    ensures y == 400 * a + 100 * b + 4 * c + e
  {
    var r400, r100;
    a, r400 := y / 400, y % 400;
    b, r100 := r400 / 100, r400 % 100;
    c, e := r100 / 4, r100 % 4;
  }

  /** `fromordinal(toordinal(c)) == c` for every date that exists. */
  lemma FromDayToDay(c: Date)
    requires Valid(c)
    ensures FromDay(ToDay(c)) == c
  {
    var mp := if c.month > 2 then c.month - 3 else c.month + 9;
    MonthOfDate(c, mp);
    var a, b, cc, e := DecomposeDate(c);
    var y := 400 * a + 100 * b + 4 * cc + e;
    assert y == if c.month <= 2 then c.year - 1 else c.year;
  }

  /** The cycle decomposition of a date's day count: the cycles of its March-based
      year and its day within that year. */
  lemma DecomposeDate(c: Date) returns (a: int, b: int, cc: int, e: int)
    requires Valid(c)
    ensures 400 * a + 100 * b + 4 * cc + e == if c.month <= 2 then c.year - 1 else c.year
    ensures var mp := if c.month > 2 then c.month - 3 else c.month + 9;
      Decompose(ToDay(c) + MarchEpochOffset) == Cycles(a, b, cc, e, MonthOffset(mp) + c.day - 1)
  {
    var y := if c.month <= 2 then c.year - 1 else c.year;
    var mp := if c.month > 2 then c.month - 3 else c.month + 9;
    MonthOfDate(c, mp);
    var doy := MonthOffset(mp) + c.day - 1;
    a, b, cc, e := SplitYear(y);
    var z := ToDay(c) + MarchEpochOffset;
    YearStartOfCycles(a, b, cc, e);
    LeapOfCycles(a, b, cc, e);
    assert z == 146097 * a + 36524 * b + 1461 * cc + 365 * e + doy;
    DecomposeUnique(z, Cycles(a, b, cc, e, doy), Decompose(z));
  }

  /** The cycle decomposition of a day count is unique. */
  lemma DecomposeUnique(z: int, j: Cycles, k: Cycles)
    requires 0 <= j.n100 <= 3 && 0 <= j.n4 <= 24 && 0 <= j.n1 <= 3 && 0 <= j.doy <= 365
    requires j.doy == 365 ==> j.n1 == 3 && (j.n4 < 24 || j.n100 == 3)
    requires 0 <= k.n100 <= 3 && 0 <= k.n4 <= 24 && 0 <= k.n1 <= 3 && 0 <= k.doy <= 365
    requires k.doy == 365 ==> k.n1 == 3 && (k.n4 < 24 || k.n100 == 3)
    requires z == 146097 * j.n400 + 36524 * j.n100 + 1461 * j.n4 + 365 * j.n1 + j.doy
    requires z == 146097 * k.n400 + 36524 * k.n100 + 1461 * k.n4 + 365 * k.n1 + k.doy
    ensures j == k
  {
    var rj := 36524 * j.n100 + 1461 * j.n4 + 365 * j.n1 + j.doy;
    var rk := 36524 * k.n100 + 1461 * k.n4 + 365 * k.n1 + k.doy;
    assert 0 <= rj < 146097 && 0 <= rk < 146097;
    assert j.n400 == k.n400;
    var sj := 1461 * j.n4 + 365 * j.n1 + j.doy;
    var sk := 1461 * k.n4 + 365 * k.n1 + k.doy;
    assert sj < 36524 || j.n100 == 3;
    assert sk < 36524 || k.n100 == 3;
    assert j.n100 == k.n100;
    var tj := 365 * j.n1 + j.doy;
    var tk := 365 * k.n1 + k.doy;
    assert j.n4 == k.n4;
    assert j.n1 == k.n1;
  }
}
