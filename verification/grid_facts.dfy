/**
 * What the placed grid means for a requested span: no month header stands
 * alone (so the merge walk never fails and never reuses a stale range end),
 * the week row of a column is the ISO week of each of its days, the grey
 * rows hold exactly the Saturdays and Sundays, and the days 1 to 7 of a
 * month are exactly those whose left neighbour shows no day of their month.
 */
module GridFacts {
  import opened Results
  import opened Gregorian
  import opened IsoWeek
  import opened DayList
  import opened DayListFacts
  import opened Grid
  import opened HeaderMerge
  import opened Painting

  /** Both entries are days of the same month of the same year. */
  predicate SameMonth(a: DayEntry, b: DayEntry) {
    a.year == b.year && a.month == b.month
  }

  /**
   * The entry a week before entry `i` (its left neighbour on the grid) is
   * missing, padding, or a day of another month.
   */
  predicate NoSameMonthWeekBefore(list: seq<DayEntry>, i: int)
    requires 0 <= i < |list|
  {
    i < 7 || IsPadding(list[i - 7]) || !SameMonth(list[i - 7], list[i])
  }

  /**
   * A sheet whose row-1 headers are the month names of the column's first
   * entries and that has nothing past the last column, as the placement loop
   * leaves it, has no lone header when every entry's month recurs a week
   * before or after it.
   */
  lemma NoLoneHeaderWhenMonthsRepeat(list: seq<DayEntry>, names: seq<string>, sheet: map<Cell, Content>)
    requires |names| == 12 && MonthsInRange(list) && |list| > 0
    requires MonthsRepeatWeekly(list)
    requires forall c :: c in sheet ==> c.col <= LastColumn(|list|)
    requires forall col :: FirstGridColumn <= col <= LastColumn(|list|) ==>
      0 <= ColumnStart(col) < |list| &&
      ValueAt(sheet, Cell(HeaderRow, col)) == Some(Label(names[list[ColumnStart(col)].month - 1]))
    ensures NoLoneHeader(sheet, LastColumn(|list|))
  {
    var n := |list|;
    var last := LastColumn(n);
    assert MonthRecursAt(list, 0);
    assert last > FirstGridColumn;
    forall c | FirstGridColumn <= c <= last
      ensures PairedAt(sheet, last, c)
    {
      var i := ColumnStart(c);
      assert MonthRecursAt(list, i);
      if i + 7 < n && list[i + 7].month == list[i].month {
        assert ColumnStart(c + 1) == i + 7;
        assert c + 1 <= last;
        assert Header(sheet, c + 1) == Header(sheet, c);
      } else {
        assert ColumnStart(c - 1) == i - 7;
        assert Header(sheet, c - 1) == Header(sheet, c);
      }
    }
    assert Cell(HeaderRow, last + 1) !in sheet;
  }

  /** A real day of the day list is not a leading padding entry. */
  lemma RealDaysFollowPadding(s: Span, i: int)
    requires ValidSpan(s)
    requires 0 <= i < |BuildDayList(s)| && !IsPadding(BuildDayList(s)[i])
    ensures var list := BuildDayList(s);
      var k := LeadingPadding(s.startYear, s.startMonth);
      k <= i && DayAt(list[i], FirstDayOrdinal(s.startYear, s.startMonth) + i - k)
  {
    DayListShape(s);
  }

  /** The week row of column `col` holds the week of its last real day, or nothing. */
  predicate WeekRowShowsLastDay(list: seq<DayEntry>, sheet: map<Cell, Content>, col: int)
    requires col >= FirstGridColumn
  {
    var w := LastDayInColumn(list, col, |list|);
    ValueAt(sheet, Cell(WeekRow, col)) == if w == -1 then None else Some(Number(list[w].week))
  }

  /**
   * On a sheet whose week row holds the week of the last real day of each
   * column, as the placement loop leaves it, the week row above every real
   * day of the day list shows that day's ISO week.
   */
  lemma WeekRowShowsIsoWeek(s: Span, sheet: map<Cell, Content>)
    requires ValidSpan(s)
    requires forall col :: FirstGridColumn <= col <= LastColumn(|BuildDayList(s)|) ==>
      WeekRowShowsLastDay(BuildDayList(s), sheet, col)
    ensures var list := BuildDayList(s);
      forall i :: 0 <= i < |list| && !IsPadding(list[i]) ==>
        ValidDate(DateOf(list[i])) &&
        ValueAt(sheet, Cell(WeekRow, CellOf(i).col)) == Some(Number(IsoWeekNumber(DateOf(list[i]))))
  {
    var list := BuildDayList(s);
    var k := LeadingPadding(s.startYear, s.startMonth);
    var first := FirstDayOrdinal(s.startYear, s.startMonth);
    DayListShape(s);
    assert Shaped(list, s.startYear, s.startMonth, k, first);
    assert WeekdayOfOrdinal(first) == k;
    ShapedWeekRow(list, s.startYear, s.startMonth, k, first, sheet);
  }

  lemma ShapedWeekRow(list: seq<DayEntry>, y: int, m: int, k: int, first: int, sheet: map<Cell, Content>)
    requires Shaped(list, y, m, k, first) && WeekdayOfOrdinal(first) == k
    requires forall col :: FirstGridColumn <= col <= LastColumn(|list|) ==> WeekRowShowsLastDay(list, sheet, col)
    ensures forall i :: 0 <= i < |list| && !IsPadding(list[i]) ==>
      ValidDate(DateOf(list[i])) &&
      ValueAt(sheet, Cell(WeekRow, CellOf(i).col)) == Some(Number(IsoWeekNumber(DateOf(list[i]))))
  {
    forall i | 0 <= i < |list| && !IsPadding(list[i])
      ensures ValidDate(DateOf(list[i])) &&
        ValueAt(sheet, Cell(WeekRow, CellOf(i).col)) == Some(Number(IsoWeekNumber(DateOf(list[i]))))
    {
      PlacementWithinColumns(|list|, i);
      WeekRowAt(list, y, m, k, first, sheet, i);
    }
  }

  /** The week row above one real day of a shaped list. */
  lemma WeekRowAt(list: seq<DayEntry>, y: int, m: int, k: int, first: int, sheet: map<Cell, Content>, i: int)
    requires Shaped(list, y, m, k, first) && WeekdayOfOrdinal(first) == k
    requires 0 <= i < |list| && !IsPadding(list[i])
    requires FirstGridColumn <= CellOf(i).col <= LastColumn(|list|)
    requires WeekRowShowsLastDay(list, sheet, CellOf(i).col)
    ensures ValueAt(sheet, Cell(WeekRow, CellOf(i).col)) == Some(Number(IsoWeekNumber(DateOf(list[i]))))
  {
    var n := |list|;
    var col := CellOf(i).col;
    var lo, hi := Min(ColumnStart(col), n), Min(ColumnStart(col) + 7, n);
    assert lo <= i < hi;
    var w := LastDayInColumn(list, col, n);
    assert w != -1;
    assert lo <= w < hi && !IsPadding(list[w]);
    assert w / 7 == i / 7;
    assert k <= i && k <= w;
    ShapedSameSevenSameWeek(list, y, m, k, first, i, w);
    assert DayAt(list[i], first + i - k);
  }

  /** The grey rows 7 and 8 hold exactly the Saturdays and Sundays of the day list. */
  lemma WeekendRowsHoldWeekends(s: Span)
    requires ValidSpan(s)
    ensures var list := BuildDayList(s);
      forall i :: 0 <= i < |list| && !IsPadding(list[i]) ==>
        ValidDate(DateOf(list[i])) &&
        (IsWeekendRow(CellOf(i).row) <==> Weekday(DateOf(list[i])) >= 5)
  {
    var list := BuildDayList(s);
    DayListWeekdays(s);
    forall i | 0 <= i < |list| && !IsPadding(list[i])
      ensures ValidDate(DateOf(list[i])) && (IsWeekendRow(CellOf(i).row) <==> Weekday(DateOf(list[i])) >= 5)
    {
      RealDaysFollowPadding(s, i);
    }
  }

  /**
   * A real day of the day list is one of the days 1 to 7 of its month exactly
   * when the entry a week earlier (its left neighbour on the grid) is missing,
   * padding, or a day of another month: the thin left edges drawn on days 1
   * to 7 trace the boundary between months.
   */
  lemma FirstWeekOfMonthMeetsBoundary(s: Span)
    requires ValidSpan(s)
    ensures var list := BuildDayList(s);
      forall i {:trigger NoSameMonthWeekBefore(list, i)} :: 0 <= i < |list| && !IsPadding(list[i]) ==>
        (list[i].day <= 7 <==> NoSameMonthWeekBefore(list, i))
  {
    var list := BuildDayList(s);
    forall i | 0 <= i < |list| && !IsPadding(list[i])
      ensures list[i].day <= 7 <==> NoSameMonthWeekBefore(list, i)
    {
      FirstWeekAt(s, i);
    }
  }

  lemma FirstWeekAt(s: Span, i: int)
    requires ValidSpan(s)
    requires 0 <= i < |BuildDayList(s)| && !IsPadding(BuildDayList(s)[i])
    ensures var list := BuildDayList(s);
      list[i].day <= 7 <==> NoSameMonthWeekBefore(list, i)
  {
    var list := BuildDayList(s);
    var y, m := s.startYear, s.startMonth;
    var k := LeadingPadding(y, m);
    var first := FirstDayOrdinal(y, m);
    DayListShape(s);
    RealDaysFollowPadding(s, i);
    var d := DateOf(list[i]);
    if i - 7 < k {
      var f := Date(y, m, i - k + 1);
      assert Ordinal(f) == first + i - k;
      OrdinalInjective(d, f);
      if i >= 7 {
        assert list[i - 7] == DayEntry(y, m, 0, 0);
      }
    } else {
      var e := DateOf(list[i - 7]);
      assert DayAt(list[i - 7], first + i - 7 - k);
      if d.day > 7 {
        var f := Date(d.year, d.month, d.day - 7);
        OrdinalInjective(e, f);
      }
    }
  }
}
