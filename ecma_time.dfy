/** Time values as ECMAScript defines them (the Date objects chapter of ECMA-262): an integer number
    of milliseconds since 1970-01-01T00:00:00Z, on the proleptic Gregorian calendar.
    `Date.UTC(year, month, date)` is modelled through MakeDay, with 0-based months and
    out-of-range months and days rolling over into the next unit. */
module EcmaTime {

  const MsPerDay: int := 86_400_000

  predicate InLeapYear(y: int)
  {
    y % 4 == 0 && (y % 100 != 0 || y % 400 == 0)
  }

  function DaysInYear(y: int): int
  {
    if InLeapYear(y) then 366 else 365
  }

  /** Day number of 1 January of year `y` (the abstract operation DayFromYear). Dafny's `/`
      with a positive divisor is the floor the standard asks for. */
  function DayFromYear(y: int): int
  {
    365 * (y - 1970) + (y - 1969) / 4 - (y - 1901) / 100 + (y - 1601) / 400
  }

  /** Independent reference for DayFromYear: count the days of the whole years between
      1970 and `y`, one year at a time. */
  function DaysBeforeYear(y: int): int
    decreases if y >= 1970 then y - 1970 else 1970 - y
  {
    if y == 1970 then 0
    else if y > 1970 then DaysBeforeYear(y - 1) + DaysInYear(y - 1)
    else DaysBeforeYear(y + 1) - DaysInYear(y)
  }

  /** Length of the 0-based month `mn`. */
  function DaysInMonth(mn: int, leap: bool): int
    requires 0 <= mn < 12
  {
    if mn == 1 then (if leap then 29 else 28)
    else if mn == 3 || mn == 5 || mn == 8 || mn == 10 then 30
    else 31
  }

  /** Day within the year on which the 0-based month `mn` starts (the table behind
      the abstract operation MonthFromTime). */
  function MonthStart(mn: int, leap: bool): int
    requires 0 <= mn < 12
  {
    [0, 31, 59, 90, 120, 151, 181, 212, 243, 273, 304, 334][mn] + (if leap && mn >= 2 then 1 else 0)
  }

  /** The abstract operation MakeDay(year, month, date): the month is first normalised into a
      year and a 0-based month in [0, 12), then `date - 1` days are added to the first
      day of that month, whatever the month's length. */
  function MakeDay(year: int, month: int, date: int): int
  {
    var ym := year + month / 12;
    var mn := month % 12;
    DayFromYear(ym) + MonthStart(mn, InLeapYear(ym)) + date - 1
  }

  /** `Date.UTC(year, month, date)` with hours, minutes, seconds and
      milliseconds left at 0: a year in [0, 99] means 1900 + year. */
  function DateUtc(year: int, month: int, date: int): (t: int)
    ensures t % MsPerDay == 0
  {
    var yr := if 0 <= year <= 99 then 1900 + year else year;
    MakeDay(yr, month, date) * MsPerDay
  }

  /** A day of the calendar: a 0-based month and a day that exists in that month. */
  predicate IsCalendarDate(y: int, mn: int, d: int)
  {
    0 <= mn < 12 && 1 <= d <= DaysInMonth(mn, InLeapYear(y))
  }

  /** The day number of a calendar date, counted with the reference year count. */
  function CalendarDay(y: int, mn: int, d: int): int
    requires 0 <= mn < 12
  {
    DaysBeforeYear(y) + MonthStart(mn, InLeapYear(y)) + d - 1
  }

  // ---------------------------------------------------------------------------------
  // Properties of the calendar arithmetic

  lemma FloorStep(a: int, k: int)
    requires k == 4 || k == 100 || k == 400
    ensures (a + 1) / k - a / k == if (a + 1) % k == 0 then 1 else 0
  {
    var q, r := a / k, a % k;
    assert a == k * q + r && 0 <= r < k;
    if r == k - 1 {
      assert a + 1 == k * (q + 1);
    } else {
      assert a + 1 == k * q + (r + 1);
    }
  }

  /** Consecutive years are DaysInYear apart: the closed form counts a leap day exactly in
      the years the Gregorian rule names. */
  lemma DayFromYearStep(y: int)
    ensures DayFromYear(y + 1) == DayFromYear(y) + DaysInYear(y)
  {
    FloorStep(y - 1969, 4);
    FloorStep(y - 1901, 100);
    FloorStep(y - 1601, 400);
    assert (y - 1968) % 4 == 0 <==> y % 4 == 0;
    assert (y - 1900) % 100 == 0 <==> y % 100 == 0;
    assert (y - 1600) % 400 == 0 <==> y % 400 == 0;
  }

  /** The closed form of DayFromYear agrees with counting whole years from 1970. */
  lemma {:induction false} DayFromYearCountsYears(y: int)
    ensures DayFromYear(y) == DaysBeforeYear(y)
    decreases if y >= 1970 then y - 1970 else 1970 - y
  {
    if y > 1970 {
      DayFromYearCountsYears(y - 1);
      DayFromYearStep(y - 1);
    } else if y < 1970 {
      DayFromYearCountsYears(y + 1);
      DayFromYearStep(y);
    }
  }

  /** The month table: each month starts where the previous one ends, and the twelve
      months fill the year. */
  lemma MonthStartStep(mn: int, leap: bool)
    requires 0 <= mn < 12
    ensures mn < 11 ==> MonthStart(mn + 1, leap) == MonthStart(mn, leap) + DaysInMonth(mn, leap)
    ensures mn == 11 ==> MonthStart(mn, leap) + DaysInMonth(mn, leap) == (if leap then 366 else 365)
  {
  }

  /** For a month already in [0, 12), MakeDay is the calendar day number of the date. */
  lemma MakeDayIsCalendarDay(y: int, mn: int, d: int)
    requires 0 <= mn < 12
    ensures MakeDay(y, mn, d) == CalendarDay(y, mn, d)
  {
    assert mn / 12 == 0 && mn % 12 == mn;
    DayFromYearCountsYears(y);
  }

  /** Outside the two-digit year range, Date.UTC of a month in [0, 12) is midnight of the
      calendar day. */
  lemma DateUtcIsCalendarDay(y: int, mn: int, d: int)
    ensures 0 <= mn < 12 && !(0 <= y <= 99) ==> DateUtc(y, mn, d) == CalendarDay(y, mn, d) * MsPerDay
  {
    if 0 <= mn < 12 {
      MakeDayIsCalendarDay(y, mn, d);
    }
  }

  /** Date.UTC rolls days over: adding k to the day argument moves the result k whole days. */
  lemma DateUtcShiftDays(y: int, mn: int, d: int, k: int)
    ensures DateUtc(y, mn, d + k) == DateUtc(y, mn, d) + k * MsPerDay
  {
  }

  /** Within one month argument, a later day argument is a later time. */
  lemma DateUtcLaterDay(y: int, mn: int, d: int, e: int)
    requires d < e
    ensures DateUtc(y, mn, d) < DateUtc(y, mn, e)
  {
    DateUtcShiftDays(y, mn, d, e - d);
    assert (e - d) * MsPerDay >= MsPerDay;
  }

  /** Date.UTC rolls months over: twelve months more is one year more (for years outside
      the two-digit range that Date.UTC maps into the 1900s). */
  lemma MakeDayShiftYear(y: int, m: int, d: int)
    ensures MakeDay(y, m + 12, d) == MakeDay(y + 1, m, d)
  {
    assert (m + 12) / 12 == m / 12 + 1;
    assert (m + 12) % 12 == m % 12;
  }

  /** The day after the last day of a month is the first day of the next month, across
      the end of the year too. */
  lemma MakeDayEndOfMonth(y: int, mn: int)
    requires 0 <= mn < 12
    ensures MakeDay(y, mn, DaysInMonth(mn, InLeapYear(y)) + 1) == MakeDay(y, mn + 1, 1)
  {
    var last := DaysInMonth(mn, InLeapYear(y));
    MonthStartStep(mn, InLeapYear(y));
    MakeDayWithinYear(y, mn, last);
    if mn == 11 {
      MakeDayNewYear(y);
    } else {
      MakeDayWithinYear(y, mn + 1, 1);
    }
  }

  /** Month 12 of a year is January of the next. */
  lemma MakeDayNewYear(y: int)
    ensures MakeDay(y, 12, 1) == DayFromYear(y) + DaysInYear(y)
  {
    assert 12 / 12 == 1 && 12 % 12 == 0;
    DayFromYearStep(y);
  }

  /** A calendar date falls within its own year. */
  lemma MakeDayWithinYear(y: int, mn: int, d: int)
    requires IsCalendarDate(y, mn, d)
    ensures MakeDay(y, mn, d) == DayFromYear(y) + MonthStart(mn, InLeapYear(y)) + d - 1
    ensures DayFromYear(y) <= MakeDay(y, mn, d) < DayFromYear(y) + DaysInYear(y)
  {
    assert mn / 12 == 0 && mn % 12 == mn;
  }

  /** A later year starts after the whole of every earlier year. */
  lemma {:induction false} DayFromYearIncreasing(y1: int, y2: int)
    requires y1 < y2
    ensures DayFromYear(y1) + DaysInYear(y1) <= DayFromYear(y2)
    decreases y2 - y1
  {
    DayFromYearStep(y1);
    if y1 + 1 < y2 {
      DayFromYearIncreasing(y1 + 1, y2);
    }
  }

  /** A later month starts after the whole of every earlier month. */
  lemma MonthStartIncreasing(m1: int, m2: int, leap: bool)
    requires 0 <= m1 < m2 < 12
    ensures MonthStart(m1, leap) + DaysInMonth(m1, leap) <= MonthStart(m2, leap)
  {
  }

  /** Chronological order: on real calendar dates MakeDay is strictly increasing in
      (year, month, day) order, so distinct dates never share a day number. */
  lemma MakeDayOrdered(y1: int, m1: int, d1: int, y2: int, m2: int, d2: int)
    requires IsCalendarDate(y1, m1, d1) && IsCalendarDate(y2, m2, d2)
    requires y1 < y2 || (y1 == y2 && (m1 < m2 || (m1 == m2 && d1 < d2)))
    ensures MakeDay(y1, m1, d1) < MakeDay(y2, m2, d2)
  {
    MakeDayWithinYear(y1, m1, d1);
    MakeDayWithinYear(y2, m2, d2);
    if y1 < y2 {
      DayFromYearIncreasing(y1, y2);
    } else if m1 < m2 {
      MonthStartIncreasing(m1, m2, InLeapYear(y1));
    }
  }
}
