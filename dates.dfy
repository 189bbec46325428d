/**
 * The part of the JavaScript Date object that the monthly cap relies on:
 * calendar components in local time, the constructor `new Date(y, m, d)`
 * with its normalisation of out-of-range months and days, and the instant
 * (milliseconds since 1970-01-01 00:00 local time) on which the store
 * compares dates.
 */
module Dates {
  const MsPerDay: int := 86400000

  /** A date as its local calendar components; `month` is 0-based as `getMonth()` returns it. */
  datatype Date = Date(year: int, month: int, day: int, ms: int)

  /** Gregorian leap-year rule (divisibility does not depend on the sign convention of `%`). */
  predicate IsLeapYear(y: int) {
    y % 4 == 0 && (y % 100 != 0 || y % 400 == 0)
  }

  function DaysInMonth(y: int, m: int): (n: int)
    requires 0 <= m < 12
    ensures 28 <= n <= 31
    ensures n == 28 <==> m == 1 && !IsLeapYear(y)
    ensures n == 29 <==> m == 1 && IsLeapYear(y)
  {
    if m == 1 then (if IsLeapYear(y) then 29 else 28)
    else if m == 3 || m == 5 || m == 8 || m == 10 then 30
    else 31
  }

  function YearLength(y: int): int {
    if IsLeapYear(y) then 366 else 365
  }

  /** The components a JavaScript Date object can have: month in range, day within its month, time within the day. */
  predicate WellFormed(d: Date) {
    0 <= d.month < 12 && 1 <= d.day <= DaysInMonth(d.year, d.month) && 0 <= d.ms < MsPerDay
  }

  type CalendarDate = d: Date | WellFormed(d) witness Date(1970, 0, 1, 0)

  /** Days of the months of year `y` that come before month `m`. */
  function DaysBeforeMonth(y: int, m: int): (n: int)
    requires 0 <= m <= 12
    ensures 28 * m <= n <= 31 * m
  {
    if m == 0 then 0 else DaysBeforeMonth(y, m - 1) + DaysInMonth(y, m - 1)
  }

  /** The twelve month lengths add up to the length of the year. */
  lemma YearLengthIsSumOfMonths(y: int)
    ensures DaysBeforeMonth(y, 12) == YearLength(y)
  {
    var feb := DaysInMonth(y, 1);
    assert DaysBeforeMonth(y, 2) == 31 + feb;
    assert DaysBeforeMonth(y, 3) == 62 + feb;
    assert DaysBeforeMonth(y, 4) == 92 + feb;
    assert DaysBeforeMonth(y, 5) == 123 + feb;
    assert DaysBeforeMonth(y, 6) == 153 + feb;
    assert DaysBeforeMonth(y, 7) == 184 + feb;
    assert DaysBeforeMonth(y, 8) == 215 + feb;
    assert DaysBeforeMonth(y, 9) == 245 + feb;
    assert DaysBeforeMonth(y, 10) == 276 + feb;
    assert DaysBeforeMonth(y, 11) == 306 + feb;
  }

  lemma {:induction false} DaysBeforeMonthMonotone(y: int, m1: int, m2: int)
    requires 0 <= m1 < m2 <= 12
    ensures DaysBeforeMonth(y, m1) + DaysInMonth(y, m1) <= DaysBeforeMonth(y, m2)
    decreases m2
  {
    if m1 + 1 < m2 {
      DaysBeforeMonthMonotone(y, m1, m2 - 1);
    }
  }

  /** Days from 1970-01-01 to January 1 of year `y` (negative before 1970). */
  function DaysBeforeYear(y: int): int
    decreases if y >= 1970 then y - 1970 else 1970 - y
  {
    if y == 1970 then 0
    else if y > 1970 then DaysBeforeYear(y - 1) + YearLength(y - 1)
    else DaysBeforeYear(y + 1) - YearLength(y)
  }

  lemma NextYear(y: int)
    ensures DaysBeforeYear(y + 1) == DaysBeforeYear(y) + YearLength(y)
  {
  }

  lemma {:induction false} DaysBeforeYearMonotone(y1: int, y2: int)
    requires y1 < y2
    ensures DaysBeforeYear(y1) + YearLength(y1) <= DaysBeforeYear(y2)
    decreases y2 - y1
  {
    NextYear(y1);
    if y1 + 1 < y2 {
      DaysBeforeYearMonotone(y1 + 1, y2);
      NextYear(y2 - 1);
    }
  }

  /** Days from 1970-01-01 to the day of `d`. */
  function DayNumber(d: Date): int
    requires 0 <= d.month < 12
  {
    DaysBeforeYear(d.year) + DaysBeforeMonth(d.year, d.month) + d.day - 1
  }

  /** Milliseconds since 1970-01-01 00:00 local time: what the store compares. */
  function Instant(d: CalendarDate): int {
    DayNumber(d) * MsPerDay + d.ms
  }

  /** Calendar order: year, then month, then day, then time of day. */
  predicate AtOrBefore(a: Date, b: Date) {
    a.year < b.year || (a.year == b.year &&
      (a.month < b.month || (a.month == b.month &&
        (a.day < b.day || (a.day == b.day && a.ms <= b.ms)))))
  }

  lemma DayNumberStrictlyBefore(a: CalendarDate, b: CalendarDate)
    requires AtOrBefore(a, b) && (a.year, a.month, a.day) != (b.year, b.month, b.day)
    ensures DayNumber(a) < DayNumber(b)
  {
    if a.year < b.year {
      DaysBeforeYearMonotone(a.year, b.year);
      DaysBeforeMonthMonotone(a.year, a.month, 12);
      YearLengthIsSumOfMonths(a.year);
    } else if a.month < b.month {
      DaysBeforeMonthMonotone(a.year, a.month, b.month);
    }
  }

  lemma InstantOfEarlierDay(a: CalendarDate, b: CalendarDate)
    requires DayNumber(a) < DayNumber(b)
    ensures Instant(a) < Instant(b)
  {
    var da, db := DayNumber(a), DayNumber(b);
    assert (da + 1) * MsPerDay <= db * MsPerDay;
  }

  /** Comparing instants is comparing calendar components. */
  lemma InstantOrder(a: CalendarDate, b: CalendarDate)
    ensures Instant(a) <= Instant(b) <==> AtOrBefore(a, b)
  {
    if (a.year, a.month, a.day) == (b.year, b.month, b.day) {
    } else if AtOrBefore(a, b) {
      DayNumberStrictlyBefore(a, b);
      InstantOfEarlierDay(a, b);
    } else {
      DayNumberStrictlyBefore(b, a);
      InstantOfEarlierDay(b, a);
    }
  }

  /** The Date constructor reads a year 0..99 as 1900..1999. */
  function FullYear(y: int): int {
    if 0 <= y <= 99 then 1900 + y else y
  }

  /**
   * `new Date(y, m, d)`: midnight of day `d` of month `m` of year `y`, where a
   * month outside 0..11 carries into the year and a day outside the month
   * carries into the neighbouring months.
   */
  function LocalDate(y: int, m: int, d: int): (r: CalendarDate)
    ensures r.ms == 0
    ensures 0 <= m < 12 && 1 <= d <= DaysInMonth(FullYear(y), m) ==> r == Date(FullYear(y), m, d, 0)
  {
    NormalizeDay(FullYear(y) + m / 12, m % 12, d)
  }

  /** Midnight of day `d` counted from the first of month `m` of year `y`, for any integer `d`. */
  function NormalizeDay(y: int, m: int, d: int): (r: CalendarDate)
    requires 0 <= m < 12
    ensures r.ms == 0
    ensures 1 <= d <= DaysInMonth(y, m) ==> r == Date(y, m, d, 0)
    decreases if d < 1 then 1 else 0, if d < 1 then -d else d
  {
    if d < 1 then
      var py := if m == 0 then y - 1 else y;
      var pm := if m == 0 then 11 else m - 1;
      NormalizeDay(py, pm, d + DaysInMonth(py, pm))
    else if d > DaysInMonth(y, m) then
      var ny := if m == 11 then y + 1 else y;
      var nm := if m == 11 then 0 else m + 1;
      NormalizeDay(ny, nm, d - DaysInMonth(y, m))
    else
      Date(y, m, d, 0)
  }

  /** Normalisation moves the date without moving the day: the day count from 1970 is `d - 1` days after the first of the month. */
  lemma {:induction false} NormalizeDayNumber(y: int, m: int, d: int)
    requires 0 <= m < 12
    ensures DayNumber(NormalizeDay(y, m, d)) == DaysBeforeYear(y) + DaysBeforeMonth(y, m) + d - 1
    decreases if d < 1 then 1 else 0, if d < 1 then -d else d
  {
    if d < 1 {
      var py := if m == 0 then y - 1 else y;
      var pm := if m == 0 then 11 else m - 1;
      NormalizeDayNumber(py, pm, d + DaysInMonth(py, pm));
      if m == 0 {
        NextYear(py);
        YearLengthIsSumOfMonths(py);
      }
    } else if d > DaysInMonth(y, m) {
      var ny := if m == 11 then y + 1 else y;
      var nm := if m == 11 then 0 else m + 1;
      NormalizeDayNumber(ny, nm, d - DaysInMonth(y, m));
      if m == 11 {
        NextYear(y);
        YearLengthIsSumOfMonths(y);
      }
    }
  }

  /** `new Date(date.getFullYear(), date.getMonth(), 1)`. */
  function StartOfMonth(d: CalendarDate): (r: CalendarDate)
    ensures r == Date(FullYear(d.year), d.month, 1, 0)
  {
    var y := FullYear(d.year);
    assert d.month / 12 == 0 && d.month % 12 == d.month;
    assert NormalizeDay(y, d.month, 1) == Date(y, d.month, 1, 0);
    LocalDate(d.year, d.month, 1)
  }

  /** `new Date(date.getFullYear(), date.getMonth() + 1, 0)`: the last day of the month, at 00:00. */
  function EndOfMonth(d: CalendarDate): (r: CalendarDate)
    ensures r == Date(FullYear(d.year), d.month, DaysInMonth(FullYear(d.year), d.month), 0)
  {
    var y := FullYear(d.year);
    var ny := if d.month == 11 then y + 1 else y;
    var nm := if d.month == 11 then 0 else d.month + 1;
    assert ny == y + (d.month + 1) / 12 && nm == (d.month + 1) % 12;
    assert NormalizeDay(y, d.month, DaysInMonth(y, d.month)) == Date(y, d.month, DaysInMonth(y, d.month), 0);
    assert NormalizeDay(ny, nm, 0) == NormalizeDay(y, d.month, DaysInMonth(y, d.month));
    LocalDate(d.year, d.month + 1, 0)
  }
}
