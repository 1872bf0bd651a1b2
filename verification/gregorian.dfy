/**
 * The proleptic Gregorian calendar as Python's `datetime` and `calendar`
 * modules compute it: leap years, month lengths, day ordinals (day 1 is
 * 0001-01-01, a Monday) and weekdays counted from Monday = 0.
 */
module Gregorian {

  /** Python's `date` accepts exactly these years. */
  const MinYear := 1
  const MaxYear := 9999

  datatype Date = Date(year: int, month: int, day: int)

  predicate IsLeapYear(y: int) {
    y % 4 == 0 && (y % 100 != 0 || y % 400 == 0)
  }

  function DaysInYear(y: int): int {
    if IsLeapYear(y) then 366 else 365
  }

  function DaysInMonth(y: int, m: int): (n: int)
    requires 1 <= m <= 12
    ensures 28 <= n <= 31
    ensures n == 29 <==> m == 2 && IsLeapYear(y)
    ensures n == 28 <==> m == 2 && !IsLeapYear(y)
  {
    if m == 2 then (if IsLeapYear(y) then 29 else 28)
    else if m == 4 || m == 6 || m == 9 || m == 11 then 30
    else 31
  }

  predicate ValidMonth(y: int, m: int) {
    MinYear <= y <= MaxYear && 1 <= m <= 12
  }

  /** A day of an actual month, whatever the year. */
  predicate IsCalendarDay(d: Date) {
    1 <= d.month <= 12 && 1 <= d.day <= DaysInMonth(d.year, d.month)
  }

  /** A date Python's `date` constructor accepts. */
  predicate ValidDate(d: Date) {
    MinYear <= d.year <= MaxYear && IsCalendarDay(d)
  }

  /** Days of year `y` before the first of month `m` (Python's `_days_before_month`). */
  function DaysBeforeMonth(y: int, m: int): int
    requires 1 <= m <= 12
  {
    [0, 31, 59, 90, 120, 151, 181, 212, 243, 273, 304, 334][m - 1]
      + (if m > 2 && IsLeapYear(y) then 1 else 0)
  }

  /** Days before January 1 of year `y` (Python's `_days_before_year`). */
  function DaysBeforeYear(y: int): int {
    var p := y - 1;
    p * 365 + p / 4 - p / 100 + p / 400
  }

  /** Python's `date.toordinal()`. */
  function Ordinal(d: Date): int
    requires 1 <= d.month <= 12
  {
    DaysBeforeYear(d.year) + DaysBeforeMonth(d.year, d.month) + d.day
  }

  /** Weekday of a day ordinal, Monday = 0 .. Sunday = 6 (Python's `date.weekday()`). */
  function WeekdayOfOrdinal(n: int): (w: int)
    ensures 0 <= w < 7
  {
    (n + 6) % 7
  }

  function Weekday(d: Date): (w: int)
    requires 1 <= d.month <= 12
    ensures 0 <= w < 7
  {
    WeekdayOfOrdinal(Ordinal(d))
  }

  /** The calendar day after `d`. */
  function NextDate(d: Date): (e: Date)
    requires IsCalendarDay(d)
  {
    if d.day < DaysInMonth(d.year, d.month) then d.(day := d.day + 1)
    else if d.month < 12 then Date(d.year, d.month + 1, 1)
    else Date(d.year + 1, 1, 1)
  }

  /** The month that follows month `m` of year `y`. */
  function NextMonth(y: int, m: int): (r: (int, int))
    requires 1 <= m <= 12
    ensures 1 <= r.1 <= 12
    ensures MonthIndex(r.0, r.1) == MonthIndex(y, m) + 1
  {
    if m == 12 then (y + 1, 1) else (y, m + 1)
  }

  /** Months counted from a fixed origin, so that month order is integer order. */
  function MonthIndex(y: int, m: int): int {
    12 * y + m - 1
  }

  lemma DivisionStep4(x: int)
    ensures x / 4 - (x - 1) / 4 == if x % 4 == 0 then 1 else 0
  {
  }

  lemma DivisionStep100(x: int)
    ensures x / 100 - (x - 1) / 100 == if x % 100 == 0 then 1 else 0
  {
  }

  lemma DivisionStep400(x: int)
    ensures x / 400 - (x - 1) / 400 == if x % 400 == 0 then 1 else 0
  {
  }

  /** Consecutive January firsts are one year length apart. */
  lemma YearStep(y: int)
    ensures DaysBeforeYear(y + 1) == DaysBeforeYear(y) + DaysInYear(y)
  {
    DivisionStep4(y);
    DivisionStep100(y);
    DivisionStep400(y);
  }

  /** The day ordinal advances by exactly one from each date to the next. */
  lemma OrdinalOfNextDate(d: Date)
    requires IsCalendarDay(d)
    ensures IsCalendarDay(NextDate(d))
    ensures Ordinal(NextDate(d)) == Ordinal(d) + 1
  {
    if d.day == DaysInMonth(d.year, d.month) && d.month == 12 {
      YearStep(d.year);
    }
  }

  /** The first of the next month comes right after the last day of this one. */
  lemma OrdinalOfNextMonth(y: int, m: int)
    requires 1 <= m <= 12
    ensures var (y', m') := NextMonth(y, m);
      Ordinal(Date(y', m', 1)) == Ordinal(Date(y, m, 1)) + DaysInMonth(y, m)
  {
    if m == 12 {
      YearStep(y);
    }
  }

  /** A valid date lies strictly after the days before its year and within its year. */
  lemma OrdinalWithinYear(d: Date)
    requires IsCalendarDay(d)
    ensures DaysBeforeYear(d.year) < Ordinal(d) <= DaysBeforeYear(d.year + 1)
  {
    YearStep(d.year);
  }

  /** Day ordinals of January firsts increase with the year. */
  lemma {:induction false} DaysBeforeYearMonotone(a: int, b: int)
    requires a <= b
    ensures DaysBeforeYear(a) + 365 * (b - a) <= DaysBeforeYear(b)
    decreases b - a
  {
    if a < b {
      YearStep(a);
      DaysBeforeYearMonotone(a + 1, b);
    }
  }

  /** 0001-01-01 is day 1 and a Monday. */
  lemma OrdinalOrigin()
    ensures Ordinal(Date(1, 1, 1)) == 1
    ensures Weekday(Date(1, 1, 1)) == 0
  {
    assert DaysBeforeYear(1) == 0;
    assert DaysBeforeMonth(1, 1) == 0;
    assert Ordinal(Date(1, 1, 1)) == 1;
    assert WeekdayOfOrdinal(1) == 0;
  }

  /** A later month of the same year starts after every day of an earlier one. */
  lemma DaysBeforeLaterMonth(y: int, m: int, m': int)
    requires 1 <= m < m' <= 12
    ensures DaysBeforeMonth(y, m) + DaysInMonth(y, m) <= DaysBeforeMonth(y, m')
  {
  }

  /** The ordinal determines the calendar day: `date.fromordinal` inverts `toordinal`. */
  lemma OrdinalInjective(a: Date, b: Date)
    requires IsCalendarDay(a) && IsCalendarDay(b)
    requires Ordinal(a) == Ordinal(b)
    ensures a == b
  {
    OrdinalWithinYear(a);
    OrdinalWithinYear(b);
    if a.year < b.year {
      DaysBeforeYearMonotone(a.year + 1, b.year);
    } else if b.year < a.year {
      DaysBeforeYearMonotone(b.year + 1, a.year);
    }
    assert a.year == b.year;
    if a.month < b.month {
      DaysBeforeLaterMonth(a.year, a.month, b.month);
    } else if b.month < a.month {
      DaysBeforeLaterMonth(a.year, b.month, a.month);
    }
  }
}
