/**
  Era arithmetic: eras are 1-indexed, 7-day buckets of days counted from
  2003-01-11, and the "current date" rolls over at noon.

  Python's `//` floors; Dafny's `/` is Euclidean, which agrees with flooring for
  the positive divisor 7, so dates before era one fall in eras 0, -1, ...
*/
module DateUtils {
  import Civil

  /** Days per era. */
  const EraLength: int := 7

  /** 2003-01-11, the first day of era 1. */
  const EraOneStart: int := Civil.ToDay(Civil.Date(2003, 1, 11))

  /** `get_era_for_date`: the era that holds day `d`. */
  function EraForDate(d: int): (era: int)
    ensures EraOneStart + (era - 1) * EraLength <= d < EraOneStart + era * EraLength
  {
    (d - EraOneStart) / EraLength + 1
  }

  /** `get_date_for_era`: the first day of `era`; the day before it is in the previous era. */
  function DateForEra(era: int): (d: int)
    ensures EraForDate(d) == era && EraForDate(d - 1) == era - 1
  {
    EraOneStart + (era - 1) * EraLength
  }

  /** `get_current_date`: the UTC calendar day, minus one day while the clock's hour
      is before noon. */
  function CurrentDate(utcToday: int, hour: int): (d: int)
    ensures d == utcToday - 1 <==> hour < 12
    ensures d == utcToday <==> hour >= 12
  {
    utcToday - (if hour < 12 then 1 else 0)
  }

  /** `get_current_era`: the era whose seven days hold the current date. */
  function CurrentEra(utcToday: int, hour: int): (era: int)
    ensures DateForEra(era) <= CurrentDate(utcToday, hour) < DateForEra(era) + EraLength
  {
    EraForDate(CurrentDate(utcToday, hour))
  }

  /** Era 1 starts on 2003-01-11, and that day number is that calendar date. */
  lemma EraOneStartsOnJan11()
    ensures DateForEra(1) == EraOneStart
    ensures Civil.FromDay(DateForEra(1)) == Civil.Date(2003, 1, 11)
  {
    Civil.FromDayToDay(Civil.Date(2003, 1, 11));
  }

  /** The first day of an era lies in that era. */
  lemma EraOfEraStart(era: int)
    ensures EraForDate(DateForEra(era)) == era
  {
    var d := DateForEra(era);
    var e := EraForDate(d);
    assert EraOneStart + (e - 1) * EraLength <= EraOneStart + (era - 1) * EraLength;
    assert EraOneStart + (era - 1) * EraLength < EraOneStart + e * EraLength;
  }

  /** Every day lies in the 7-day bucket that starts on the first day of its era. */
  lemma EraBucket(d: int)
    ensures DateForEra(EraForDate(d)) <= d < DateForEra(EraForDate(d)) + EraLength
  {
  }

  /** Consecutive eras start exactly 7 days apart. */
  lemma ConsecutiveEras(era: int)
    ensures DateForEra(era + 1) == DateForEra(era) + EraLength
  {
  }

  /** The era of a day never decreases as the day increases. */
  lemma EraMonotone(d1: int, d2: int)
    requires d1 <= d2
    ensures EraForDate(d1) <= EraForDate(d2)
  {
  }

  /** Days before 2003-01-11 fall in eras 0, -1, ...; the rest in eras 1, 2, ... */
  lemma EraPositiveIff(d: int)
    ensures EraForDate(d) >= 1 <==> d >= EraOneStart
  {
  }

  /** Two days share an era exactly when they share its first day. */
  lemma SameEra(d1: int, d2: int)
    ensures EraForDate(d1) == EraForDate(d2) <==> DateForEra(EraForDate(d1)) == DateForEra(EraForDate(d2))
  {
  }

  /** Era 1063 starts on 2023-05-20; 2023-05-26 is its last day and 2023-05-27 opens era 1064. */
  lemma EraAnchors()
    ensures DateForEra(1063) == Civil.ToDay(Civil.Date(2023, 5, 20))
    ensures EraForDate(Civil.ToDay(Civil.Date(2023, 5, 26))) == 1063
    ensures EraForDate(Civil.ToDay(Civil.Date(2023, 5, 27))) == 1064
  {
  }

  /** At 11:59 on 2023-05-27 the current date is 2023-05-26; from noon on it is 2023-05-27. */
  lemma CurrentDateAnchors()
    ensures CurrentDate(Civil.ToDay(Civil.Date(2023, 5, 27)), 11) == Civil.ToDay(Civil.Date(2023, 5, 26))
    ensures CurrentDate(Civil.ToDay(Civil.Date(2023, 5, 27)), 12) == Civil.ToDay(Civil.Date(2023, 5, 27))
  {
  }
}
