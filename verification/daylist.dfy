/**
 * The list of days `create_calendar_file` lays out: the first requested month
 * as `calendar.Calendar().itermonthdays` yields it (Monday first) with its
 * trailing padding dropped, then every later month up to the last requested
 * one without padding. Each entry is (year, month, day, week number); a
 * padding entry has day 0 and week 0.
 */
module DayList {
  import opened Gregorian
  import opened IsoWeek

  datatype DayEntry = DayEntry(year: int, month: int, day: int, week: int)

  /** The requested months, first and last inclusive. */
  datatype Span = Span(startMonth: int, startYear: int, endMonth: int, endYear: int)

  predicate ValidSpan(s: Span) {
    && ValidMonth(s.startYear, s.startMonth)
    && ValidMonth(s.endYear, s.endMonth)
    && MonthIndex(s.startYear, s.startMonth) <= MonthIndex(s.endYear, s.endMonth)
  }

  function DateOf(e: DayEntry): Date {
    Date(e.year, e.month, e.day)
  }

  predicate IsPadding(e: DayEntry) {
    e.day == 0
  }

  /** `get_week_number`: week 0 for a padding day, else the ISO week of the date. */
  function WeekNumber(y: int, m: int, day: int): (w: int)
    requires 1 <= m <= 12
    requires day == 0 || 1 <= day <= DaysInMonth(y, m)
    ensures day == 0 ==> w == 0
    ensures day != 0 ==> 1 <= w <= 53
  {
    if day == 0 then 0
    else
      IsoWeekRange(Date(y, m, day));
      IsoWeekNumber(Date(y, m, day))
  }

  function Zeros(n: nat): (r: seq<int>)
    ensures |r| == n && forall i :: 0 <= i < n ==> r[i] == 0
  {
    seq(n, _ => 0)
  }

  function Counting(n: nat): (r: seq<int>)
    ensures |r| == n && forall i :: 0 <= i < n ==> r[i] == i + 1
  {
    seq(n, i => i + 1)
  }

  /** Weekday of the first of the month, Monday = 0: the number of leading padding days. */
  function LeadingPadding(y: int, m: int): (k: int)
    requires 1 <= m <= 12
    ensures 0 <= k < 7
  {
    Weekday(Date(y, m, 1))
  }

  /**
   * `calendar.Calendar().itermonthdays(y, m)`: zeros back to Monday, the days
   * of the month, zeros on to Sunday. (Python's `%` and Dafny's agree for the
   * positive divisor 7.)
   */
  function IterMonthDays(y: int, m: int): (days: seq<int>)
    requires 1 <= m <= 12
    ensures var k := LeadingPadding(y, m);
      var n := DaysInMonth(y, m);
      && |days| % 7 == 0
      && k + n <= |days| < k + n + 7
      && (forall i :: 0 <= i < k ==> days[i] == 0)
      && (forall i :: k <= i < k + n ==> days[i] == i - k + 1)
      && (forall i :: k + n <= i < |days| ==> days[i] == 0)
  {
    var day1 := LeadingPadding(y, m);
    var ndays := DaysInMonth(y, m);
    var daysBefore := day1 % 7;
    var daysAfter := (0 - day1 - ndays) % 7;
    var days := Zeros(daysBefore) + Counting(ndays) + Zeros(daysAfter);
    days
  }

  predicate DaysOfMonth(y: int, m: int, days: seq<int>)
    requires 1 <= m <= 12
  {
    forall i :: 0 <= i < |days| ==> days[i] == 0 || 1 <= days[i] <= DaysInMonth(y, m)
  }

  /** The list comprehension that turns day numbers into entries. */
  function MonthEntries(y: int, m: int, days: seq<int>): (es: seq<DayEntry>)
    requires 1 <= m <= 12
    requires DaysOfMonth(y, m, days)
    ensures |es| == |days|
    ensures forall i :: 0 <= i < |es| ==>
      es[i].year == y && es[i].month == m && es[i].day == days[i]
      && es[i].week == WeekNumber(y, m, days[i])
  {
    seq(|days|, i requires 0 <= i < |days| => DayEntry(y, m, days[i], WeekNumber(y, m, days[i])))
  }

  /** The comprehension's filter `if weekday != 0`. */
  function NonZero(days: seq<int>): (r: seq<int>)
    ensures forall i :: 0 <= i < |r| ==> r[i] != 0
    ensures forall i :: 0 <= i < |r| ==> r[i] in days
  {
    if |days| == 0 then []
    else if days[0] == 0 then NonZero(days[1..])
    else [days[0]] + NonZero(days[1..])
  }

  function CountPadding(es: seq<DayEntry>): (c: nat)
    ensures c <= |es|
  {
    if |es| == 0 then 0 else (if IsPadding(es[0]) then 1 else 0) + CountPadding(es[1..])
  }

  /**
   * The trimming loop of the first month: it walks a copy of the entries from
   * position 7 on and, for every padding entry it meets there, removes the
   * last entry of the list.
   */
  function DropTrailingPadding(es: seq<DayEntry>): seq<DayEntry> {
    if |es| <= 7 then es else es[..|es| - CountPadding(es[7..])]
  }

  /** The entries of the first requested month. */
  function FirstMonth(y: int, m: int): seq<DayEntry>
    requires 1 <= m <= 12
  {
    DropTrailingPadding(MonthEntries(y, m, IterMonthDays(y, m)))
  }

  /** The entries of a later month: its real days only. */
  function LaterMonth(y: int, m: int): seq<DayEntry>
    requires 1 <= m <= 12
  {
    var days := NonZero(IterMonthDays(y, m));
    assert DaysOfMonth(y, m, days) by {
      forall i | 0 <= i < |days| ensures days[i] == 0 || 1 <= days[i] <= DaysInMonth(y, m) {
        assert days[i] in IterMonthDays(y, m);
      }
    }
    MonthEntries(y, m, days)
  }

  /**
   * The nested `while` loops over years and months: months from (y, m) up to
   * and including (ey, em), in calendar order.
   */
  function MonthsFrom(y: int, m: int, ey: int, em: int): seq<DayEntry>
    requires 1 <= m <= 12
    decreases MonthIndex(ey, em) - MonthIndex(y, m)
  {
    if MonthIndex(y, m) > MonthIndex(ey, em) then []
    else if y == ey && m == em then LaterMonth(y, m)
    else
      var (ny, nm) := NextMonth(y, m);
      LaterMonth(y, m) + MonthsFrom(ny, nm, ey, em)
  }

  /** `day_list` as `create_calendar_file` builds it. */
  function BuildDayList(s: Span): seq<DayEntry>
    requires ValidSpan(s)
  {
    var first := FirstMonth(s.startYear, s.startMonth);
    if s.startYear == s.endYear && s.startMonth == s.endMonth then first
    else
      var (ny, nm) := NextMonth(s.startYear, s.startMonth);
      first + MonthsFrom(ny, nm, s.endYear, s.endMonth)
  }
}
