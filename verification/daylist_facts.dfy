/**
 * What the day list of `create_calendar_file` contains: leading padding back
 * to Monday, then every day from the first of the first month through the
 * last of the last month, consecutive, each with its ISO week.
 */
module DayListFacts {
  import opened Gregorian
  import opened IsoWeek
  import opened DayList

  /** Entry `e` is the real day with ordinal `n`, and carries that day's ISO week. */
  predicate DayAt(e: DayEntry, n: int) {
    ValidDate(DateOf(e)) && Ordinal(DateOf(e)) == n && e.week == IsoWeekNumber(DateOf(e))
  }

  /**
   * `k` padding entries tagged with month (y, m), then real days whose
   * ordinals count up one by one from `first`.
   */
  predicate Shaped(list: seq<DayEntry>, y: int, m: int, k: int, first: int) {
    && 0 <= k <= |list|
    && (forall i :: 0 <= i < k ==> list[i] == DayEntry(y, m, 0, 0))
    && (forall i :: k <= i < |list| ==> !IsPadding(list[i]) && DayAt(list[i], first + i - k))
  }

  /** Real days only, whose ordinals count up one by one from `first`. */
  predicate Consecutive(es: seq<DayEntry>, first: int) {
    forall j :: 0 <= j < |es| ==> !IsPadding(es[j]) && DayAt(es[j], first + j)
  }

  function FirstDayOrdinal(y: int, m: int): int
    requires 1 <= m <= 12
  {
    Ordinal(Date(y, m, 1))
  }

  function LastDayOrdinal(y: int, m: int): int
    requires 1 <= m <= 12
  {
    Ordinal(Date(y, m, DaysInMonth(y, m)))
  }

  /** The total number of days of months (y, m) through (ey, em). */
  function DaysInMonths(y: int, m: int, ey: int, em: int): nat
    requires 1 <= m <= 12
    decreases MonthIndex(ey, em) - MonthIndex(y, m)
  {
    if MonthIndex(y, m) > MonthIndex(ey, em) then 0
    else if y == ey && m == em then DaysInMonth(y, m)
    else
      var (ny, nm) := NextMonth(y, m);
      DaysInMonth(y, m) + DaysInMonths(ny, nm, ey, em)
  }

  // ------------------------------------------------------------ filtering

  lemma {:induction false} NonZeroAppend(a: seq<int>, b: seq<int>)
    ensures NonZero(a + b) == NonZero(a) + NonZero(b)
    decreases |a|
  {
    if |a| == 0 {
      assert a + b == b;
    } else {
      assert (a + b)[1..] == a[1..] + b;
      NonZeroAppend(a[1..], b);
    }
  }

  lemma {:induction false} NonZeroOfZeros(n: nat)
    ensures NonZero(Zeros(n)) == []
  {
    if n > 0 {
      assert Zeros(n)[1..] == Zeros(n - 1);
      NonZeroOfZeros(n - 1);
    }
  }

  lemma {:induction false} NonZeroKeepsNonZero(c: seq<int>)
    requires forall i :: 0 <= i < |c| ==> c[i] != 0
    ensures NonZero(c) == c
  {
    if |c| > 0 {
      NonZeroKeepsNonZero(c[1..]);
    }
  }

  /** Filtering zeros out of padded days 1..n leaves the days 1..n. */
  lemma NonZeroOfPadded(before: nat, n: nat, after: nat)
    ensures NonZero(Zeros(before) + Counting(n) + Zeros(after)) == Counting(n)
  {
    NonZeroAppend(Zeros(before) + Counting(n), Zeros(after));
    NonZeroAppend(Zeros(before), Counting(n));
    NonZeroOfZeros(before);
    NonZeroOfZeros(after);
    NonZeroKeepsNonZero(Counting(n));
  }

  /** Filtering the padding out of a month leaves exactly the days 1..n. */
  lemma RealDaysOfMonth(y: int, m: int)
    requires 1 <= m <= 12
    ensures NonZero(IterMonthDays(y, m)) == Counting(DaysInMonth(y, m))
  {
    var k := LeadingPadding(y, m);
    var n := DaysInMonth(y, m);
    assert k % 7 == k;
    NonZeroOfPadded(k, n, (0 - k - n) % 7);
  }

  /** The entry the comprehension builds for day `d` of a month is that real day. */
  lemma EntryOfDay(y: int, m: int, d: int)
    requires ValidMonth(y, m) && 1 <= d <= DaysInMonth(y, m)
    ensures DayAt(DayEntry(y, m, d, WeekNumber(y, m, d)), FirstDayOrdinal(y, m) + d - 1)
  {
  }

  /** A later month contributes its days 1..n, one ordinal after the other. */
  lemma LaterMonthShape(y: int, m: int)
    requires ValidMonth(y, m)
    ensures |LaterMonth(y, m)| == DaysInMonth(y, m)
    ensures forall j :: 0 <= j < |LaterMonth(y, m)| ==> LaterMonth(y, m)[j].day == j + 1
    ensures Consecutive(LaterMonth(y, m), FirstDayOrdinal(y, m))
  {
    RealDaysOfMonth(y, m);
    var es := LaterMonth(y, m);
    forall j | 0 <= j < |es|
      ensures es[j].day == j + 1 && !IsPadding(es[j]) && DayAt(es[j], FirstDayOrdinal(y, m) + j)
    {
      EntryOfDay(y, m, j + 1);
    }
  }

  // ------------------------------------------------------------ the first month

  lemma {:induction false} CountPaddingAppend(a: seq<DayEntry>, b: seq<DayEntry>)
    ensures CountPadding(a + b) == CountPadding(a) + CountPadding(b)
    decreases |a|
  {
    if |a| == 0 {
      assert a + b == b;
    } else {
      assert (a + b)[1..] == a[1..] + b;
      CountPaddingAppend(a[1..], b);
    }
  }

  lemma {:induction false} CountPaddingAll(es: seq<DayEntry>, padding: bool)
    requires forall i :: 0 <= i < |es| ==> IsPadding(es[i]) == padding
    ensures CountPadding(es) == if padding then |es| else 0
  {
    if |es| > 0 {
      CountPaddingAll(es[1..], padding);
    }
  }

  /** Padding only after position `r` (and none from 7 up to `r`): the loop drops exactly that tail. */
  lemma DropPaddedTail(es: seq<DayEntry>, r: int)
    requires 7 <= r <= |es|
    requires forall i :: 7 <= i < r ==> !IsPadding(es[i])
    requires forall i :: r <= i < |es| ==> IsPadding(es[i])
    ensures DropTrailingPadding(es) == es[..r]
  {
    assert es[7..] == es[7..r] + es[r..];
    CountPaddingAppend(es[7..r], es[r..]);
    CountPaddingAll(es[7..r], false);
    CountPaddingAll(es[r..], true);
  }

  /**
   * The first month keeps its leading padding (tagged with its own year and
   * month, week 0) and its days, and loses its trailing padding.
   */
  lemma FirstMonthShape(y: int, m: int)
    requires ValidMonth(y, m)
    ensures var es := FirstMonth(y, m);
      var k := LeadingPadding(y, m);
      && |es| == k + DaysInMonth(y, m)
      && SameMonthThroughout(es, m)
      && (forall i :: k <= i < |es| ==> es[i].day == i - k + 1)
      && Shaped(es, y, m, k, FirstDayOrdinal(y, m))
  {
    var k := LeadingPadding(y, m);
    var n := DaysInMonth(y, m);
    var all := MonthEntries(y, m, IterMonthDays(y, m));
    DropPaddedTail(all, k + n);
    forall i | k <= i < k + n
      ensures all[i].day == i - k + 1 && !IsPadding(all[i]) && DayAt(all[i], FirstDayOrdinal(y, m) + i - k)
    {
      EntryOfDay(y, m, i - k + 1);
    }
  }

  // ------------------------------------------------------------ later months

  /** Two runs of consecutive days, the second starting where the first ends, make one. */
  lemma ConsecutiveAppend(a: seq<DayEntry>, b: seq<DayEntry>, first: int, second: int)
    requires Consecutive(a, first) && Consecutive(b, second) && second == first + |a|
    ensures Consecutive(a + b, first)
  {
    forall j | |a| <= j < |a + b|
      ensures (a + b)[j] == b[j - |a|]
    {
    }
  }

  /** Months (y, m) through (ey, em) give their days in order, without gaps or padding. */
  lemma {:induction false} MonthsFromShape(y: int, m: int, ey: int, em: int)
    requires ValidMonth(y, m) && ValidMonth(ey, em)
    requires MonthIndex(y, m) <= MonthIndex(ey, em)
    ensures var es := MonthsFrom(y, m, ey, em);
      && |es| == DaysInMonths(y, m, ey, em)
      && |es| == LastDayOrdinal(ey, em) - FirstDayOrdinal(y, m) + 1
      && Consecutive(es, FirstDayOrdinal(y, m))
    decreases MonthIndex(ey, em) - MonthIndex(y, m)
  {
    LaterMonthShape(y, m);
    if !(y == ey && m == em) {
      var (ny, nm) := NextMonth(y, m);
      MonthsFromShape(ny, nm, ey, em);
      OrdinalOfNextMonth(y, m);
      var here := LaterMonth(y, m);
      var rest := MonthsFrom(ny, nm, ey, em);
      assert MonthsFrom(y, m, ey, em) == here + rest;
      ConsecutiveAppend(here, rest, FirstDayOrdinal(y, m), FirstDayOrdinal(ny, nm));
    }
  }

  // ------------------------------------------------------------ the whole list

  /**
   * The day list: `k` padding entries tagged with the first month, where `k`
   * is the weekday of its first day (Monday = 0), then every day from the
   * first of the first month to the last of the last month, consecutively,
   * each with its ISO week; so its length is `k` plus the days of the months.
   */
  lemma DayListShape(s: Span)
    requires ValidSpan(s)
    ensures var list := BuildDayList(s);
      var k := LeadingPadding(s.startYear, s.startMonth);
      var first := FirstDayOrdinal(s.startYear, s.startMonth);
      && |list| == k + DaysInMonths(s.startYear, s.startMonth, s.endYear, s.endMonth)
      && |list| == k + LastDayOrdinal(s.endYear, s.endMonth) - first + 1
      && Shaped(list, s.startYear, s.startMonth, k, first)
  {
    var y, m := s.startYear, s.startMonth;
    var k := LeadingPadding(y, m);
    var first := FirstDayOrdinal(y, m);
    var head := FirstMonth(y, m);
    FirstMonthShape(y, m);
    if !(y == s.endYear && m == s.endMonth) {
      var (ny, nm) := NextMonth(y, m);
      var rest := MonthsFrom(ny, nm, s.endYear, s.endMonth);
      MonthsFromShape(ny, nm, s.endYear, s.endMonth);
      OrdinalOfNextMonth(y, m);
      assert BuildDayList(s) == head + rest;
      AppendShape(head, rest, y, m, k, first, FirstDayOrdinal(ny, nm));
    }
  }

  /** Gluing the first month to the later ones keeps the ordinals consecutive. */
  lemma AppendShape(head: seq<DayEntry>, rest: seq<DayEntry>, y: int, m: int, k: int, first: int, second: int)
    requires Shaped(head, y, m, k, first)
    requires Consecutive(rest, second) && second == first + |head| - k
    ensures Shaped(head + rest, y, m, k, first)
  {
    forall i | k <= i < |head + rest|
      ensures !IsPadding((head + rest)[i]) && DayAt((head + rest)[i], first + i - k)
    {
      if i >= |head| {
        assert (head + rest)[i] == rest[i - |head|];
      }
    }
  }

  /** The day list opens with the first requested month: its padding, or else its 1st. */
  lemma DayListOpensWithStartMonth(s: Span)
    requires ValidSpan(s)
    ensures var list := BuildDayList(s);
      |list| > 0 && list[0].year == s.startYear && list[0].month == s.startMonth
  {
    var list := BuildDayList(s);
    var y, m := s.startYear, s.startMonth;
    DayListShape(s);
    if LeadingPadding(y, m) == 0 {
      assert DayAt(list[0], FirstDayOrdinal(y, m));
      OrdinalInjective(DateOf(list[0]), Date(y, m, 1));
    }
  }

  // ------------------------------------------------------------ weeks

  lemma WeekdayShift(first: int, k: int, i: int)
    requires WeekdayOfOrdinal(first) == k
    ensures WeekdayOfOrdinal(first + i - k) == i % 7
  {
    var q := (first + 6) / 7;
    assert first + 6 == 7 * q + k;
    assert first + i - k + 6 == 7 * q + i;
  }

  /** Entry `i` of a shaped list (padding aside) falls on weekday `i % 7`. */
  lemma ShapedWeekdays(list: seq<DayEntry>, y: int, m: int, k: int, first: int)
    requires Shaped(list, y, m, k, first) && WeekdayOfOrdinal(first) == k
    ensures forall i :: k <= i < |list| ==> ValidDate(DateOf(list[i])) && Weekday(DateOf(list[i])) == i % 7
  {
    forall i | k <= i < |list|
      ensures ValidDate(DateOf(list[i])) && Weekday(DateOf(list[i])) == i % 7
    {
      assert DayAt(list[i], first + i - k);
      WeekdayShift(first, k, i);
    }
  }

  /** Entry `i` of the day list (padding aside) falls on weekday `i % 7`: every seventh entry is a Monday. */
  lemma DayListWeekdays(s: Span)
    requires ValidSpan(s)
    ensures var list := BuildDayList(s);
      forall i :: LeadingPadding(s.startYear, s.startMonth) <= i < |list| ==>
        ValidDate(DateOf(list[i])) && Weekday(DateOf(list[i])) == i % 7
  {
    DayListShape(s);
    ShapedWeekdays(BuildDayList(s), s.startYear, s.startMonth,
      LeadingPadding(s.startYear, s.startMonth), FirstDayOrdinal(s.startYear, s.startMonth));
  }

  /** Positions `i` and `j` in the same run of seven entries fall in the same Monday-to-Sunday week. */
  lemma SameSevenSameThursday(first: int, k: int, i: int, j: int)
    requires WeekdayOfOrdinal(first) == k
    requires k <= i && k <= j && i / 7 == j / 7
    ensures ThursdayOf(first + i - k) == ThursdayOf(first + j - k)
  {
    WeekdayShift(first, k, i);
    WeekdayShift(first, k, j);
    assert ThursdayOf(first + i - k) == first - k + 7 * (i / 7) + 3;
    assert ThursdayOf(first + j - k) == first - k + 7 * (j / 7) + 3;
  }

  /** Entry `i` of a shaped list, past the padding, is the real day with ordinal `first + i - k`. */
  lemma ShapedAt(list: seq<DayEntry>, y: int, m: int, k: int, first: int, i: int)
    requires Shaped(list, y, m, k, first)
    requires k <= i < |list|
    ensures !IsPadding(list[i]) && DayAt(list[i], first + i - k)
  {
  }

  /** Two days at positions `i` and `j` of the same run of seven entries share their ISO week. */
  lemma SameSevenSameWeek(a: Date, b: Date, first: int, k: int, i: int, j: int)
    requires WeekdayOfOrdinal(first) == k
    requires k <= i && k <= j && i / 7 == j / 7
    requires IsCalendarDay(a) && IsCalendarDay(b)
    requires Ordinal(a) == first + i - k && Ordinal(b) == first + j - k
    ensures IsoWeekNumber(a) == IsoWeekNumber(b)
  {
    SameSevenSameThursday(first, k, i, j);
    SameWeekSameNumber(a, b);
  }

  /** Two real days in the same run of seven entries of a shaped list share their ISO week. */
  lemma ShapedSameSevenSameWeek(list: seq<DayEntry>, y: int, m: int, k: int, first: int, i: int, j: int)
    requires Shaped(list, y, m, k, first) && WeekdayOfOrdinal(first) == k
    requires k <= i < |list| && k <= j < |list| && i / 7 == j / 7
    ensures list[i].week == list[j].week
  {
    ShapedAt(list, y, m, k, first, i);
    ShapedAt(list, y, m, k, first, j);
    SameSevenSameWeek(DateOf(list[i]), DateOf(list[j]), first, k, i, j);
  }

  // ------------------------------------------------------------ months repeat weekly

  /** Every entry shares its month with the entry a week later or the entry a week earlier. */
  predicate MonthsRepeatWeekly(es: seq<DayEntry>) {
    forall i :: 0 <= i < |es| ==> MonthRecursAt(es, i)
  }

  predicate MonthRecursAt(es: seq<DayEntry>, i: int)
    requires 0 <= i < |es|
  {
    (i + 7 < |es| && es[i + 7].month == es[i].month) || (i >= 7 && es[i - 7].month == es[i].month)
  }

  predicate SameMonthThroughout(es: seq<DayEntry>, m: int) {
    forall i :: 0 <= i < |es| ==> es[i].month == m
  }

  /** Appending a block of one month that lasts at least two weeks keeps the property. */
  lemma WeeklyAppend(a: seq<DayEntry>, b: seq<DayEntry>, m: int)
    requires MonthsRepeatWeekly(a)
    requires |b| >= 14 && SameMonthThroughout(b, m)
    ensures MonthsRepeatWeekly(a + b)
  {
    var ab := a + b;
    forall i | 0 <= i < |ab|
      ensures MonthRecursAt(ab, i)
    {
      if i < |a| {
        assert MonthRecursAt(a, i);
        if i + 7 < |a| && a[i + 7].month == a[i].month {
          assert ab[i + 7] == a[i + 7];
        } else {
          assert ab[i - 7] == a[i - 7];
        }
      } else if i - |a| >= 7 {
        assert ab[i - 7] == b[i - 7 - |a|];
      } else {
        assert ab[i + 7] == b[i + 7 - |a|];
      }
    }
  }

  lemma LaterMonthBlock(y: int, m: int)
    requires 1 <= m <= 12
    ensures |LaterMonth(y, m)| >= 28 && SameMonthThroughout(LaterMonth(y, m), m)
  {
    RealDaysOfMonth(y, m);
  }

  lemma WeeklyRegroup(a: seq<DayEntry>, b: seq<DayEntry>, c: seq<DayEntry>)
    requires MonthsRepeatWeekly((a + b) + c)
    ensures MonthsRepeatWeekly(a + (b + c))
  {
    assert (a + b) + c == a + (b + c);
  }

  lemma {:induction false} WeeklyMonthsFrom(prefix: seq<DayEntry>, y: int, m: int, ey: int, em: int)
    requires MonthsRepeatWeekly(prefix)
    requires ValidMonth(y, m) && ValidMonth(ey, em)
    requires MonthIndex(y, m) <= MonthIndex(ey, em)
    ensures MonthsRepeatWeekly(prefix + MonthsFrom(y, m, ey, em))
    decreases MonthIndex(ey, em) - MonthIndex(y, m)
  {
    LaterMonthBlock(y, m);
    var here := LaterMonth(y, m);
    WeeklyAppend(prefix, here, m);
    if y == ey && m == em {
      assert MonthsFrom(y, m, ey, em) == here;
    } else {
      var (ny, nm) := NextMonth(y, m);
      var rest := MonthsFrom(ny, nm, ey, em);
      WeeklyMonthsFrom(prefix + here, ny, nm, ey, em);
      assert MonthsFrom(y, m, ey, em) == here + rest;
      WeeklyRegroup(prefix, here, rest);
    }
  }

  /** In the day list, every entry's month recurs one week before or one week after it. */
  lemma DayListMonthsRepeatWeekly(s: Span)
    requires ValidSpan(s)
    ensures MonthsRepeatWeekly(BuildDayList(s))
  {
    var y, m := s.startYear, s.startMonth;
    var head := FirstMonth(y, m);
    FirstMonthShape(y, m);
    assert head == [] + head;
    WeeklyAppend([], head, m);
    if !(y == s.endYear && m == s.endMonth) {
      var (ny, nm) := NextMonth(y, m);
      WeeklyMonthsFrom(head, ny, nm, s.endYear, s.endMonth);
    }
  }
}
