/**
 * ISO 8601 week numbers (ISO 8601:2004 section 2.2.10: week 1 of a year is the
 * Monday-to-Sunday week that holds the year's first Thursday).
 *
 * `IsoWeekNumber` follows the steps of Python's `date.isocalendar()`;
 * `IsoWeekByThursday` states the standard's rule directly. The two are proved
 * equal for every calendar day.
 */
module IsoWeek {
  import opened Gregorian

  /** Day ordinal of January 1 of year `y`. */
  function JanFirst(y: int): int {
    DaysBeforeYear(y) + 1
  }

  /** Python's `_isoweek1monday`: the Monday that opens ISO week 1 of `y`. */
  function Week1Monday(y: int): int {
    MondayOfFirstWeek(JanFirst(y))
  }

  /** The Monday of week 1 for a year whose January 1 has ordinal `first`. */
  function MondayOfFirstWeek(first: int): int {
    var firstWeekday := (first + 6) % 7;
    var monday := first - firstWeekday;
    if firstWeekday > 3 then monday + 7 else monday
  }

  /**
   * The week number of `date.isocalendar()`, step by step as Python computes
   * it from the day ordinal and the week-1 Mondays of the previous, the same
   * and the next year.
   */
  function IsoWeekNumber(d: Date): int
    requires 1 <= d.month <= 12
  {
    WeekFromMondays(Ordinal(d), Week1Monday(d.year - 1), Week1Monday(d.year), Week1Monday(d.year + 1))
  }

  function WeekFromMondays(today: int, prevMonday: int, monday: int, nextMonday: int): int {
    var week := (today - monday) / 7;
    if week < 0 then (today - prevMonday) / 7 + 1
    else if week >= 52 && today >= nextMonday then 1
    else week + 1
  }

  /** The Thursday of the Monday-to-Sunday week holding day ordinal `n`. */
  function ThursdayOf(n: int): int {
    n - WeekdayOfOrdinal(n) + 3
  }

  /** The year, among `d`'s own and its two neighbours, whose days include `t`. */
  function YearAround(d: Date, t: int): int {
    if t < JanFirst(d.year) then d.year - 1
    else if t >= JanFirst(d.year + 1) then d.year + 1
    else d.year
  }

  /**
   * The standard's rule: a date belongs to the week of its Thursday, and that
   * Thursday's year counts its weeks from the week holding its first Thursday.
   */
  function IsoWeekByThursday(d: Date): int
    requires IsCalendarDay(d)
  {
    var t := ThursdayOf(Ordinal(d));
    (t - JanFirst(YearAround(d, t))) / 7 + 1
  }

  predicate IsMonday(n: int) {
    WeekdayOfOrdinal(n) == 0
  }

  lemma Week1MondayPlacement(y: int)
    ensures IsMonday(Week1Monday(y))
    ensures JanFirst(y) <= Week1Monday(y) + 3 <= JanFirst(y) + 6
  {
    FirstWeekMondayPlacement(JanFirst(y));
  }

  lemma FirstWeekMondayPlacement(first: int)
    ensures IsMonday(MondayOfFirstWeek(first))
    ensures first <= MondayOfFirstWeek(first) + 3 <= first + 6
  {
    var q := (first + 6) / 7;
    var w := (first + 6) % 7;
    assert first + 6 == 7 * q + w;
    var monday := first - w;
    assert monday + 6 == 7 * q;
    assert WeekdayOfOrdinal(monday) == 0;
    assert WeekdayOfOrdinal(monday + 7) == 0 by {
      assert monday + 7 + 6 == 7 * (q + 1);
    }
  }

  /** Counting whole weeks from a Monday is the same as counting from its Thursday. */
  lemma WeeksFromMonday(n: int, monday: int, first: int)
    requires IsMonday(monday)
    requires first <= monday + 3 <= first + 6
    ensures (ThursdayOf(n) - first) / 7 == (n - monday) / 7
  {
    var a := (n + 6) / 7;
    var b := (monday + 6) / 7;
    assert n + 6 == 7 * a + WeekdayOfOrdinal(n);
    assert monday + 6 == 7 * b;
    assert n - monday == 7 * (a - b) + WeekdayOfOrdinal(n);
    assert ThursdayOf(n) - first == 7 * (a - b) + (monday + 3 - first);
  }

  lemma MondaysWeeksApart(m1: int, m2: int)
    requires IsMonday(m1) && IsMonday(m2)
    ensures (m2 - m1) % 7 == 0
  {
    var a := (m1 + 6) / 7;
    var b := (m2 + 6) / 7;
    assert m2 - m1 == 7 * (b - a);
  }

  /** The year `YearAround` picks really holds the Thursday. */
  lemma ThursdayYear(d: Date)
    requires IsCalendarDay(d)
    ensures var t := ThursdayOf(Ordinal(d));
      JanFirst(YearAround(d, t)) <= t < JanFirst(YearAround(d, t) + 1)
  {
    var n := Ordinal(d);
    OrdinalWithinYear(d);
    YearStep(d.year - 1);
    YearStep(d.year);
    YearStep(d.year + 1);
  }

  /**
   * The standard's rule on plain integers: the week of ordinal `n` counted from
   * the January 1 (`f0`, `f1` or `f2`) of the year that holds its Thursday.
   */
  function WeekByThursday(n: int, f0: int, f1: int, f2: int): int {
    var t := ThursdayOf(n);
    var f := if t < f1 then f0 else if t >= f2 then f2 else f1;
    (t - f) / 7 + 1
  }

  /** The agreement on plain integers: ordinal `n` lies in the year starting at `f1`. */
  lemma MondayRuleIsThursdayRule(n: int, f0: int, f1: int, f2: int)
    requires f1 <= n < f2 && f1 - f0 >= 365 && f2 - f1 >= 365
    ensures WeekFromMondays(n, MondayOfFirstWeek(f0), MondayOfFirstWeek(f1), MondayOfFirstWeek(f2))
      == WeekByThursday(n, f0, f1, f2)
  {
    var t := ThursdayOf(n);
    var w0, w1, w2 := MondayOfFirstWeek(f0), MondayOfFirstWeek(f1), MondayOfFirstWeek(f2);
    FirstWeekMondayPlacement(f0);
    FirstWeekMondayPlacement(f1);
    FirstWeekMondayPlacement(f2);
    WeeksFromMonday(n, w0, f0);
    WeeksFromMonday(n, w1, f1);
    WeeksFromMonday(n, w2, f2);
    if t >= f2 {
      MondaysWeeksApart(w1, w2);
      assert w2 - w1 >= 364;
    }
  }

  /** The January 1 ordinals around a day's year meet the integer lemma's demands. */
  lemma YearsAroundDay(d: Date)
    requires IsCalendarDay(d)
    ensures var n, y := Ordinal(d), d.year;
      JanFirst(y) <= n < JanFirst(y + 1)
      && JanFirst(y) - JanFirst(y - 1) >= 365 && JanFirst(y + 1) - JanFirst(y) >= 365
  {
    OrdinalWithinYear(d);
    YearStep(d.year - 1);
    YearStep(d.year);
  }

  /** `IsoWeekByThursday` is the integer rule applied to the day's ordinal. */
  lemma ThursdayRuleOnOrdinals(d: Date)
    requires IsCalendarDay(d)
    ensures var y := d.year;
      IsoWeekByThursday(d) == WeekByThursday(Ordinal(d), JanFirst(y - 1), JanFirst(y), JanFirst(y + 1))
  {
    var y := d.year;
    var t := ThursdayOf(Ordinal(d));
    if t < JanFirst(y) {
      assert YearAround(d, t) == y - 1;
    } else if t >= JanFirst(y + 1) {
      assert YearAround(d, t) == y + 1;
    } else {
      assert YearAround(d, t) == y;
    }
  }

  /** `IsoWeekNumber` reads the week-1 Mondays off the January 1 ordinals. */
  lemma IsoWeekNumberOnOrdinals(d: Date)
    requires 1 <= d.month <= 12
    ensures var y := d.year;
      IsoWeekNumber(d) == WeekFromMondays(Ordinal(d),
        MondayOfFirstWeek(JanFirst(y - 1)), MondayOfFirstWeek(JanFirst(y)), MondayOfFirstWeek(JanFirst(y + 1)))
  {
  }

  /** `IsoWeekNumber` is the integer rule applied to the day's ordinal as well. */
  lemma MondayRuleOnOrdinals(d: Date)
    requires IsCalendarDay(d)
    ensures var y := d.year;
      IsoWeekNumber(d) == WeekByThursday(Ordinal(d), JanFirst(y - 1), JanFirst(y), JanFirst(y + 1))
  {
    var y := d.year;
    IsoWeekNumberOnOrdinals(d);
    YearsAroundDay(d);
    MondayRuleIsThursdayRule(Ordinal(d), JanFirst(y - 1), JanFirst(y), JanFirst(y + 1));
  }

  /** Python's step-by-step computation agrees with the standard's rule on every day. */
  lemma IsoWeekAgreesWithThursdayRule(d: Date)
    requires IsCalendarDay(d)
    ensures IsoWeekNumber(d) == IsoWeekByThursday(d)
  {
    MondayRuleOnOrdinals(d);
    ThursdayRuleOnOrdinals(d);
  }

  /** Every day gets a week number from 1 to 53. */
  lemma IsoWeekRange(d: Date)
    requires IsCalendarDay(d)
    ensures 1 <= IsoWeekNumber(d) <= 53
  {
    IsoWeekAgreesWithThursdayRule(d);
    ThursdayYear(d);
    YearStep(YearAround(d, ThursdayOf(Ordinal(d))));
  }

  /** January 4 always lies in week 1, the week of the year's first Thursday. */
  lemma JanuaryFourthInWeekOne(y: int)
    ensures IsoWeekNumber(Date(y, 1, 4)) == 1
  {
    IsoWeekAgreesWithThursdayRule(Date(y, 1, 4));
    YearStep(y);
  }

  /** The year holding a given day ordinal is unique. */
  lemma YearOfOrdinalUnique(t: int, y1: int, y2: int)
    requires JanFirst(y1) <= t < JanFirst(y1 + 1)
    requires JanFirst(y2) <= t < JanFirst(y2 + 1)
    ensures y1 == y2
  {
    if y1 < y2 {
      DaysBeforeYearMonotone(y1 + 1, y2);
    } else if y2 < y1 {
      DaysBeforeYearMonotone(y2 + 1, y1);
    }
  }

  /** Two days of the same Monday-to-Sunday week have the same week number. */
  lemma SameWeekSameNumber(a: Date, b: Date)
    requires IsCalendarDay(a) && IsCalendarDay(b)
    requires ThursdayOf(Ordinal(a)) == ThursdayOf(Ordinal(b))
    ensures IsoWeekNumber(a) == IsoWeekNumber(b)
  {
    var t := ThursdayOf(Ordinal(a));
    IsoWeekAgreesWithThursdayRule(a);
    IsoWeekAgreesWithThursdayRule(b);
    ThursdayYear(a);
    ThursdayYear(b);
    YearOfOrdinalUnique(t, YearAround(a, t), YearAround(b, t));
  }
}
