/**
 * `create_calendar_file` and `main` end to end: validated settings, the day
 * list, the placed grid, the header merges, fills and borders, and the
 * worksheet title. The workbook itself is returned as data.
 */
module Calendar {
  import opened Results
  import opened Gregorian
  import opened IsoWeek
  import opened DayList
  import opened DayListFacts
  import opened Options
  import opened Styles
  import opened Grid
  import opened HeaderMerge
  import opened Painting
  import opened GridFacts

  /** The planned worksheet: cell values, row-1 merges, fills and borders. */
  datatype Worksheet = Worksheet(
    title: string,
    lastColumn: int,
    values: map<Cell, Content>,
    merges: seq<Range>,
    headerBorders: map<int, Border>,
    fills: map<Cell, Fill>,
    borders: map<Cell, Border>)

  /**
   * The validator accepts any positive end year, but Python's `date` stops at
   * 9999: building the week numbers of a later year raises a value error.
   */
  datatype SheetError = YearPastCalendar

  /** What a run of the program ends with. */
  datatype Outcome =
    | Written(file: string, sheet: Worksheet)
    | VersionShown
    | HelpShown(error: OptionError)
    | Failed(reason: SheetError)

  /** The month names `-fnl` forces. */
  const DutchMonthNames := ["Januari", "Februari", "Maart", "April", "Mei", "Juni", "Juli",
    "Augustus", "September", "Oktober", "November", "December"]

  /**
   * `month_dict`: the Dutch table under `-fnl`, else the names of the OS
   * locale. The twelve Dutch names are distinct, so under `-fnl` no two
   * months of the year are labelled alike.
   */
  function MonthNames(forceDutch: bool, localeNames: seq<string>): (names: seq<string>)
    requires |localeNames| == 12
    ensures |names| == 12
    ensures forceDutch ==> forall i, j :: 0 <= i < j < 12 ==> names[i] != names[j]
    ensures !forceDutch ==> names == localeNames
  {
    if forceDutch then DutchMonthNames else localeNames
  }

  function SpanOf(s: Settings): Span {
    Span(s.startMonth, s.startYear, s.endMonth, s.endYear)
  }

  /**
   * Entry `i`, a real day, on the placed grid: its day number in its cell and
   * its ISO week in the week row of its column.
   */
  predicate ShowsValue(values: map<Cell, Content>, list: seq<DayEntry>, i: int)
    requires 0 <= i < |list| && !IsPadding(list[i])
  {
    && ValidDate(DateOf(list[i]))
    && ValueAt(values, CellOf(i)) == Some(Content.Number(list[i].day))
    && ValueAt(values, Cell(WeekRow, CellOf(i).col)) == Some(Content.Number(IsoWeekNumber(DateOf(list[i]))))
  }

  /**
   * The week grid as painted: every cell of rows 2 to 9 in the week columns
   * is filled, light grey exactly on rows 7 and 8; rows 2 to 8 of the last
   * column have a medium right edge; the week row has a medium bottom edge
   * throughout, with a medium right edge in the last column.
   */
  predicate GridPainted(fills: map<Cell, Fill>, borders: map<Cell, Border>, lastColumn: int) {
    && (forall row, col :: 2 <= row <= WeekRow && FirstGridColumn <= col <= lastColumn ==>
          Cell(row, col) in fills &&
          fills[Cell(row, col)] == if IsWeekendRow(row) then FillLightGrey else FillWhite)
    && (forall row :: 2 <= row <= 8 ==>
          Cell(row, lastColumn) in borders && borders[Cell(row, lastColumn)] == BorderR)
    && (forall col :: FirstGridColumn <= col <= lastColumn ==>
          Cell(WeekRow, col) in borders &&
          borders[Cell(WeekRow, col)] == if col == lastColumn then BorderlRtB else BorderlrtB)
  }

  /** Painting the headers leaves the week grid as it was painted. */
  lemma HeadersKeepGrid(gridFills: map<Cell, Fill>, gridBorders: map<Cell, Border>,
                        fills: map<Cell, Fill>, borders: map<Cell, Border>, lastColumn: int)
    requires lastColumn >= FirstGridColumn && GridPainted(gridFills, gridBorders, lastColumn)
    requires forall c :: c in fills <==> c in gridFills || IsHeaderCell(c, lastColumn)
    requires forall c :: c in fills ==>
      fills[c] == if IsHeaderCell(c, lastColumn) then FillWhite else gridFills[c]
    requires forall c :: c in borders <==> c in gridBorders || (c.col == 1 && HeaderRow <= c.row <= WeekRow)
    requires forall c :: c in borders ==>
      Some(borders[c]) ==
        if c.col == 1 && HeaderRow <= c.row <= WeekRow then RowHeaderBorder(c.row) else Some(gridBorders[c])
    ensures GridPainted(fills, borders, lastColumn)
  {
    forall row, col | 2 <= row <= WeekRow && FirstGridColumn <= col <= lastColumn
      ensures Cell(row, col) in fills
      ensures fills[Cell(row, col)] == if IsWeekendRow(row) then FillLightGrey else FillWhite
    {
      assert !IsHeaderCell(Cell(row, col), lastColumn);
    }
    forall row | 2 <= row <= WeekRow
      ensures Cell(row, lastColumn) in borders && borders[Cell(row, lastColumn)] == gridBorders[Cell(row, lastColumn)]
    {
      assert Cell(row, lastColumn).col != 1;
    }
    forall col | FirstGridColumn <= col <= lastColumn
      ensures Cell(WeekRow, col) in borders && borders[Cell(WeekRow, col)] == gridBorders[Cell(WeekRow, col)]
    {
      assert Cell(WeekRow, col).col != 1;
    }
  }

  /**
   * The header cells as painted: every one filled white, and each row of
   * column 1 bordered as its row demands.
   */
  predicate HeadersPainted(fills: map<Cell, Fill>, borders: map<Cell, Border>, lastColumn: int) {
    && (forall row :: HeaderRow <= row <= WeekRow ==>
          && Cell(row, 1) in fills && fills[Cell(row, 1)] == FillWhite
          && Cell(row, 1) in borders && Some(borders[Cell(row, 1)]) == RowHeaderBorder(row))
    && (forall col :: FirstGridColumn <= col <= lastColumn ==>
          Cell(HeaderRow, col) in fills && fills[Cell(HeaderRow, col)] == FillWhite)
  }

  /**
   * The cells the placement loop writes for a list of `n` entries: rows 1
   * to 9 of the week columns only, and no day cell past the last entry.
   */
  predicate ValuesWithin(values: map<Cell, Content>, n: nat) {
    forall c :: c in values ==>
      && HeaderRow <= c.row <= WeekRow && FirstGridColumn <= c.col <= LastColumn(n)
      && (IsDayCell(c) ==> EntryIndex(c) < n)
  }

  /**
   * The cells the painting touches: fills only on the week grid and the
   * header cells, borders only on the week grid and the row-header column,
   * and no border on a padding cell left of the last column.
   */
  predicate PaintWithin(fills: map<Cell, Fill>, borders: map<Cell, Border>, lastColumn: int, list: seq<DayEntry>) {
    && (forall c :: c in fills ==> InGrid(c, lastColumn) || IsHeaderCell(c, lastColumn))
    && (forall c :: c in borders ==> InGrid(c, lastColumn) || (c.col == 1 && HeaderRow <= c.row <= WeekRow))
    && (forall i :: 0 <= i < |list| && IsPadding(list[i]) && CellOf(i).col < lastColumn ==> CellOf(i) !in borders)
  }

  /**
   * Entry `i`, a real day, as painted: a grey background exactly on Saturday
   * and Sunday and, left of the last column, a border exactly when the cell
   * to its left shows no day of the same month: a thin left and top edge on
   * the 1st, a thin left edge on the 2nd to the 7th.
   */
  predicate ShowsStyle(fills: map<Cell, Fill>, borders: map<Cell, Border>, lastColumn: int, list: seq<DayEntry>, i: int)
    requires 0 <= i < |list| && !IsPadding(list[i]) && ValidDate(DateOf(list[i]))
  {
    var c := CellOf(i);
    && c in fills && (fills[c] == FillLightGrey <==> Weekday(DateOf(list[i])) >= 5)
    && (c.col < lastColumn ==> (c in borders <==> NoSameMonthWeekBefore(list, i)))
    && (c.col < lastColumn && c in borders ==> borders[c] == if list[i].day == 1 then Borderlt else Borderl)
  }

  /**
   * The values and header merges of the day list `list`: the header row cut
   * into boxed runs of one month name each, every column headed by the month
   * of its first entry, padding cells empty, every real day's number and ISO
   * week shown, and nothing written elsewhere.
   */
  predicate LaysOut(values: map<Cell, Content>, merges: seq<Range>, headerBorders: map<int, Border>,
                    list: seq<DayEntry>, names: seq<string>)
    requires |names| == 12 && MonthsInRange(list)
  {
    && IsRunPartition(values, merges, FirstGridColumn, LastColumn(|list|))
    && RunBorders(merges, headerBorders)
    && (forall col :: FirstGridColumn <= col <= LastColumn(|list|) ==>
          0 <= ColumnStart(col) < |list| &&
          Header(values, col) == Some(Label(names[list[ColumnStart(col)].month - 1])))
    && (forall i :: 0 <= i < |list| && IsPadding(list[i]) ==> ValueAt(values, CellOf(i)) == None)
    && (forall i :: 0 <= i < |list| && !IsPadding(list[i]) ==> ShowsValue(values, list, i))
    && ValuesWithin(values, |list|)
  }

  /**
   * The fills and borders of the day list `list`: every real day styled as
   * its weekday and month boundary demand, the week grid and the headers
   * painted, and nothing painted elsewhere.
   */
  predicate PaintsList(fills: map<Cell, Fill>, borders: map<Cell, Border>, lastColumn: int, list: seq<DayEntry>) {
    && (forall i :: 0 <= i < |list| && !IsPadding(list[i]) ==>
          ValidDate(DateOf(list[i])) && ShowsStyle(fills, borders, lastColumn, list, i))
    && GridPainted(fills, borders, lastColumn)
    && HeadersPainted(fills, borders, lastColumn)
    && PaintWithin(fills, borders, lastColumn, list)
  }

  /** Every entry of the day list, padding included, names a month 1 to 12. */
  lemma DayListMonths(s: Span)
    requires ValidSpan(s)
    ensures MonthsInRange(BuildDayList(s)) && |BuildDayList(s)| > 0
  {
    var list := BuildDayList(s);
    DayListShape(s);
    forall i | 0 <= i < |list| ensures 1 <= list[i].month <= 12 {
      if IsPadding(list[i]) {
        assert i < LeadingPadding(s.startYear, s.startMonth);
      } else {
        RealDaysFollowPadding(s, i);
      }
    }
  }

  /** The placement loop writes only day numbers into day cells. */
  lemma PlacedDayCellsHoldNumbers(list: seq<DayEntry>, values: map<Cell, Content>)
    requires forall i :: 0 <= i < |list| ==>
      ValueAt(values, CellOf(i)) == if IsPadding(list[i]) then None else Some(Content.Number(list[i].day))
    requires forall c :: IsDayCell(c) && EntryIndex(c) >= |list| ==> c !in values
    ensures DayCellsHoldNumbers(values)
  {
    forall c | c in values && IsDayCell(c) ensures values[c].Number? {
      PlacementRoundTrip(0, c);
      assert ValueAt(values, CellOf(EntryIndex(c))).Some?;
    }
  }

  /** The values of the placed grid for each real day, from the placement loop and the day list. */
  lemma PlacedValues(list: seq<DayEntry>, values: map<Cell, Content>)
    requires forall i :: 0 <= i < |list| ==>
      ValueAt(values, CellOf(i)) == if IsPadding(list[i]) then None else Some(Content.Number(list[i].day))
    requires forall i :: 0 <= i < |list| && !IsPadding(list[i]) ==>
      ValidDate(DateOf(list[i])) &&
      ValueAt(values, Cell(WeekRow, CellOf(i).col)) == Some(Content.Number(IsoWeekNumber(DateOf(list[i]))))
    ensures forall i :: 0 <= i < |list| && !IsPadding(list[i]) ==> ShowsValue(values, list, i)
  {
  }

  /** The day and week numbers the placement loop writes, read as calendar facts. */
  lemma PlacedValuesOfSpan(span: Span, values: map<Cell, Content>)
    requires ValidSpan(span)
    requires var list := BuildDayList(span);
      forall i :: 0 <= i < |list| ==>
        ValueAt(values, CellOf(i)) == if IsPadding(list[i]) then None else Some(Content.Number(list[i].day))
    requires var list := BuildDayList(span);
      forall col :: FirstGridColumn <= col <= LastColumn(|list|) ==>
        var w := LastDayInColumn(list, col, |list|);
        ValueAt(values, Cell(WeekRow, col)) == if w == -1 then None else Some(Content.Number(list[w].week))
    ensures var list := BuildDayList(span);
      forall i :: 0 <= i < |list| && !IsPadding(list[i]) ==> ShowsValue(values, list, i)
  {
    var list := BuildDayList(span);
    assert forall col :: FirstGridColumn <= col <= LastColumn(|list|) ==> WeekRowShowsLastDay(list, values, col);
    WeekRowShowsIsoWeek(span, values);
    PlacedValues(list, values);
  }

  /**
   * The placement loop on a day list whose months recur weekly: the headers,
   * day and week numbers it writes, and no header standing alone.
   */
  method PlaceList(list: seq<DayEntry>, names: seq<string>) returns (values: map<Cell, Content>)
    requires |names| == 12 && MonthsInRange(list) && |list| > 0 && MonthsRepeatWeekly(list)
    ensures NoLoneHeader(values, LastColumn(|list|))
    ensures forall col :: FirstGridColumn <= col <= LastColumn(|list|) ==>
      0 <= ColumnStart(col) < |list| &&
      Header(values, col) == Some(Label(names[list[ColumnStart(col)].month - 1]))
    ensures forall i :: 0 <= i < |list| ==>
      ValueAt(values, CellOf(i)) == if IsPadding(list[i]) then None else Some(Content.Number(list[i].day))
    ensures forall i :: 0 <= i < |list| && IsPadding(list[i]) ==> ValueAt(values, CellOf(i)) == None
    ensures forall col :: FirstGridColumn <= col <= LastColumn(|list|) ==>
      var w := LastDayInColumn(list, col, |list|);
      ValueAt(values, Cell(WeekRow, col)) == if w == -1 then None else Some(Content.Number(list[w].week))
    ensures DayCellsHoldNumbers(values)
    ensures ValuesWithin(values, |list|)
  {
    values := PlaceDays(list, names);
    NoLoneHeaderWhenMonthsRepeat(list, names, values);
    PlacedDayCellsHoldNumbers(list, values);
  }

  /** The placement loop on the day list of a valid span, as written. */
  method PlaceSpanList(span: Span, names: seq<string>) returns (values: map<Cell, Content>)
    requires ValidSpan(span) && |names| == 12
    ensures var list := BuildDayList(span);
      && MonthsInRange(list)
      && NoLoneHeader(values, LastColumn(|list|))
      && (forall col :: FirstGridColumn <= col <= LastColumn(|list|) ==>
            0 <= ColumnStart(col) < |list| &&
            Header(values, col) == Some(Label(names[list[ColumnStart(col)].month - 1])))
      && (forall i :: 0 <= i < |list| ==>
            ValueAt(values, CellOf(i)) == if IsPadding(list[i]) then None else Some(Content.Number(list[i].day)))
      && (forall i :: 0 <= i < |list| && IsPadding(list[i]) ==> ValueAt(values, CellOf(i)) == None)
      && (forall col :: FirstGridColumn <= col <= LastColumn(|list|) ==>
            var w := LastDayInColumn(list, col, |list|);
            ValueAt(values, Cell(WeekRow, col)) == if w == -1 then None else Some(Content.Number(list[w].week)))
      && DayCellsHoldNumbers(values)
      && ValuesWithin(values, |list|)
  {
    var list := BuildDayList(span);
    DayListMonths(span);
    DayListMonthsRepeatWeekly(span);
    values := PlaceList(list, names);
  }

  /**
   * The placement loop on the day list of a valid span: the headers, day and
   * week numbers it writes, and no header standing alone.
   */
  method PlaceSpan(span: Span, names: seq<string>) returns (values: map<Cell, Content>)
    requires ValidSpan(span) && |names| == 12
    ensures var list := BuildDayList(span);
      && MonthsInRange(list)
      && NoLoneHeader(values, LastColumn(|list|))
      && (forall col :: FirstGridColumn <= col <= LastColumn(|list|) ==>
            0 <= ColumnStart(col) < |list| &&
            Header(values, col) == Some(Label(names[list[ColumnStart(col)].month - 1])))
      && (forall i :: 0 <= i < |list| && IsPadding(list[i]) ==> ValueAt(values, CellOf(i)) == None)
      && (forall i :: 0 <= i < |list| && !IsPadding(list[i]) ==> ShowsValue(values, list, i))
      && DayCellsHoldNumbers(values)
      && ValuesWithin(values, |list|)
  {
    values := PlaceSpanList(span, names);
    PlacedValuesOfSpan(span, values);
  }

  /**
   * The placement loop and the merge walk on the day list of a valid span:
   * the merge never fails, and it cuts the header row into runs of one
   * month name each.
   */
  method LayOut(span: Span, names: seq<string>) returns (values: map<Cell, Content>, merged: Merged)
    requires ValidSpan(span) && |names| == 12
    ensures MonthsInRange(BuildDayList(span))
    ensures LaysOut(values, merged.ranges, merged.borders, BuildDayList(span), names)
    ensures DayCellsHoldNumbers(values)
  {
    values := PlaceSpan(span, names);
    var r := MergeHeaders(values, LastColumn(|BuildDayList(span)|));
    merged := r.value;
  }

  /** The style of one real day cell, from the fill and border loops and the day list. */
  lemma StyleAt(list: seq<DayEntry>, values: map<Cell, Content>, fills: map<Cell, Fill>,
                borders: map<Cell, Border>, lastColumn: int, i: int)
    requires 0 <= i < |list| && !IsPadding(list[i])
    requires ValidDate(DateOf(list[i]))
    requires lastColumn == LastColumn(|list|)
    requires ValueAt(values, CellOf(i)) == Some(Content.Number(list[i].day))
    requires CellOf(i) in fills <==> InGrid(CellOf(i), lastColumn)
    requires CellOf(i) in fills ==> (fills[CellOf(i)] == FillLightGrey <==> IsWeekendRow(CellOf(i).row))
    requires IsWeekendRow(CellOf(i).row) <==> Weekday(DateOf(list[i])) >= 5
    requires IsDayCell(CellOf(i)) && CellOf(i).col < lastColumn ==>
      (CellOf(i) in borders <==> exists d :: ValueAt(values, CellOf(i)) == Some(Content.Number(d)) && 1 <= d <= 7)
    requires IsDayCell(CellOf(i)) && CellOf(i).col < lastColumn && CellOf(i) in borders ==>
      borders[CellOf(i)] == if ValueAt(values, CellOf(i)) == Some(Content.Number(1)) then Borderlt else Borderl
    requires list[i].day <= 7 <==> NoSameMonthWeekBefore(list, i)
    ensures ShowsStyle(fills, borders, lastColumn, list, i)
  {
    var c := CellOf(i);
    PlacementWithinColumns(|list|, i);
    assert InGrid(c, lastColumn) && IsDayCell(c);
    if c.col < lastColumn && list[i].day <= 7 {
      assert ValueAt(values, c) == Some(Content.Number(list[i].day)) && 1 <= list[i].day <= 7;
    }
  }

  /** Every real day's style, from what the fill and border loops leave on the placed grid. */
  lemma GridStyles(span: Span, values: map<Cell, Content>, fills: map<Cell, Fill>, borders: map<Cell, Border>)
    requires ValidSpan(span)
    requires var list := BuildDayList(span);
      forall i :: 0 <= i < |list| && !IsPadding(list[i]) ==> ShowsValue(values, list, i)
    requires var last := LastColumn(|BuildDayList(span)|);
      && (forall c :: c in fills <==> InGrid(c, last))
      && (forall c :: c in fills ==> (fills[c] == FillLightGrey <==> IsWeekendRow(c.row)))
      && (forall c :: IsDayCell(c) && c.col < last ==>
            (c in borders <==> exists d :: ValueAt(values, c) == Some(Content.Number(d)) && 1 <= d <= 7))
      && (forall c :: IsDayCell(c) && c.col < last && c in borders ==>
            borders[c] == if ValueAt(values, c) == Some(Content.Number(1)) then Borderlt else Borderl)
    ensures var list := BuildDayList(span);
      forall i :: 0 <= i < |list| && !IsPadding(list[i]) ==>
        ValidDate(DateOf(list[i])) && ShowsStyle(fills, borders, LastColumn(|list|), list, i)
  {
    var list := BuildDayList(span);
    var last := LastColumn(|list|);
    WeekendRowsHoldWeekends(span);
    FirstWeekOfMonthMeetsBoundary(span);
    forall i | 0 <= i < |list| && !IsPadding(list[i])
      ensures ValidDate(DateOf(list[i])) && ShowsStyle(fills, borders, last, list, i)
    {
      assert ShowsValue(values, list, i);
      assert list[i].day <= 7 <==> NoSameMonthWeekBefore(list, i);
      StyleAt(list, values, fills, borders, last, i);
    }
  }

  /**
   * The fill and border loops on the placed grid: grey exactly on weekends,
   * left edges exactly along the month boundaries.
   */
  method PaintGrid(span: Span, values: map<Cell, Content>) returns (fills: map<Cell, Fill>, borders: map<Cell, Border>)
    requires ValidSpan(span) && DayCellsHoldNumbers(values)
    requires var list := BuildDayList(span);
      forall i :: 0 <= i < |list| && !IsPadding(list[i]) ==> ShowsValue(values, list, i)
    requires var list := BuildDayList(span);
      forall i :: 0 <= i < |list| && IsPadding(list[i]) ==> ValueAt(values, CellOf(i)) == None
    ensures var list := BuildDayList(span);
      forall i :: 0 <= i < |list| && !IsPadding(list[i]) ==>
        ValidDate(DateOf(list[i])) && ShowsStyle(fills, borders, LastColumn(|list|), list, i)
    ensures GridPainted(fills, borders, LastColumn(|BuildDayList(span)|))
    ensures forall c :: c in fills ==> InGrid(c, LastColumn(|BuildDayList(span)|))
    ensures forall c :: c in borders ==> InGrid(c, LastColumn(|BuildDayList(span)|))
    ensures var list := BuildDayList(span);
      forall i :: 0 <= i < |list| && IsPadding(list[i]) && CellOf(i).col < LastColumn(|list|) ==> CellOf(i) !in borders
  {
    var list := BuildDayList(span);
    var last := LastColumn(|list|);
    fills := PaintFills(last);
    borders := PaintBorders(values, last);
    GridStyles(span, values, fills, borders);
    DayListMonths(span);
    PlacementWithinColumns(|list|, 0);
  }

  /** The two maps agree on every day cell. */
  ghost predicate SameOnDayCells<T>(before: map<Cell, T>, after: map<Cell, T>) {
    forall c :: IsDayCell(c) ==> (c in after <==> c in before) && (c in after ==> after[c] == before[c])
  }

  /** The header painting: white headers and row-header borders, the week grid kept as painted. */
  method PaintHeaders(gridFills: map<Cell, Fill>, gridBorders: map<Cell, Border>, lastColumn: int)
    returns (fills: map<Cell, Fill>, borders: map<Cell, Border>)
    requires lastColumn >= FirstGridColumn && GridPainted(gridFills, gridBorders, lastColumn)
    ensures GridPainted(fills, borders, lastColumn)
    ensures HeadersPainted(fills, borders, lastColumn)
    ensures SameOnDayCells(gridFills, fills) && SameOnDayCells(gridBorders, borders)
    ensures forall c :: c in fills ==> c in gridFills || IsHeaderCell(c, lastColumn)
    ensures forall c :: c in borders ==> c in gridBorders || (c.col == 1 && HeaderRow <= c.row <= WeekRow)
  {
    fills := PaintHeaderFills(gridFills, lastColumn);
    borders := PaintRowHeaderBorders(gridBorders);
    HeadersKeepGrid(gridFills, gridBorders, fills, borders, lastColumn);
  }

  /** A day's style is read from its own cell only. */
  lemma ShowsStyleOnDayCell(fills0: map<Cell, Fill>, borders0: map<Cell, Border>,
                            fills: map<Cell, Fill>, borders: map<Cell, Border>,
                            lastColumn: int, list: seq<DayEntry>, i: int)
    requires 0 <= i < |list| && !IsPadding(list[i]) && ValidDate(DateOf(list[i]))
    requires SameOnDayCells(fills0, fills) && SameOnDayCells(borders0, borders)
    requires ShowsStyle(fills0, borders0, lastColumn, list, i)
    ensures ShowsStyle(fills, borders, lastColumn, list, i)
  {
    assert IsDayCell(CellOf(i));
  }

  /** The whole painting: the week grid, then the headers. */
  method Paint(span: Span, values: map<Cell, Content>) returns (fills: map<Cell, Fill>, borders: map<Cell, Border>)
    requires ValidSpan(span) && DayCellsHoldNumbers(values)
    requires var list := BuildDayList(span);
      forall i :: 0 <= i < |list| && !IsPadding(list[i]) ==> ShowsValue(values, list, i)
    requires var list := BuildDayList(span);
      forall i :: 0 <= i < |list| && IsPadding(list[i]) ==> ValueAt(values, CellOf(i)) == None
    ensures PaintsList(fills, borders, LastColumn(|BuildDayList(span)|), BuildDayList(span))
  {
    var list := BuildDayList(span);
    var last := LastColumn(|list|);
    var gridFills, gridBorders := PaintGrid(span, values);
    DayListMonths(span);
    PlacementWithinColumns(|list|, 0);
    fills, borders := PaintHeaders(gridFills, gridBorders, last);
    forall i | 0 <= i < |list| && !IsPadding(list[i])
      ensures ValidDate(DateOf(list[i])) && ShowsStyle(fills, borders, last, list, i)
    {
      ShowsStyleOnDayCell(gridFills, gridBorders, fills, borders, last, list, i);
    }
  }

  /** Column 3 opens the header row with the name of the first requested month. */
  lemma FirstHeaderNamesStartMonth(span: Span, names: seq<string>, values: map<Cell, Content>)
    requires ValidSpan(span) && |names| == 12
    requires var list := BuildDayList(span);
      && MonthsInRange(list)
      && forall col :: FirstGridColumn <= col <= LastColumn(|list|) ==>
        0 <= ColumnStart(col) < |list| &&
        Header(values, col) == Some(Label(names[list[ColumnStart(col)].month - 1]))
    ensures Header(values, FirstGridColumn) == Some(Label(names[span.startMonth - 1]))
  {
    DayListOpensWithStartMonth(span);
  }

  /**
   * The worksheet draws the day list of `span`: the week columns end at the
   * last entry, column 3 opens with the first requested month, the header
   * row is cut into runs of one month name each and boxed, every column is
   * headed by the month of its first entry, padding cells stay empty, and
   * every real day shows its number, ISO week, fill and border. Nothing is
   * written, filled or bordered outside the cells the program touches.
   */
  predicate DrawsSpan(w: Worksheet, span: Span, names: seq<string>)
    requires ValidSpan(span) && |names| == 12
  {
    var list := BuildDayList(span);
    && MonthsInRange(list)
    && w.lastColumn == LastColumn(|list|)
    && Header(w.values, FirstGridColumn) == Some(Label(names[span.startMonth - 1]))
    && LaysOut(w.values, w.merges, w.headerBorders, list, names)
    && PaintsList(w.fills, w.borders, w.lastColumn, list)
  }

  /** The worksheet of a valid span under a given title. */
  method SheetOfSpan(span: Span, title: string, names: seq<string>) returns (w: Worksheet)
    requires ValidSpan(span) && |names| == 12
    ensures w.title == title && DrawsSpan(w, span, names)
    ensures Header(w.values, FirstGridColumn) == Some(Label(names[span.startMonth - 1]))
  {
    var values, merged := LayOut(span, names);
    var fills, borders := Paint(span, values);
    var list := BuildDayList(span);
    FirstHeaderNamesStartMonth(span, names, values);
    w := Worksheet(title, LastColumn(|list|), values, merged.ranges, merged.borders, fills, borders);
  }

  /** The worksheet of an accepted span, or the error Python's `date` raises past year 9999. */
  method BuildSheet(settings: Settings, names: seq<string>) returns (r: Result<Worksheet, SheetError>)
    requires AcceptedSpan(settings) && |names| == 12
    ensures r.Err? <==> settings.endYear > MaxYear
    ensures r.Ok? ==>
      && ValidSpan(SpanOf(settings))
      && r.value.title == SheetTitle(settings)
      && DrawsSpan(r.value, SpanOf(settings), names)
    ensures r.Ok? ==> Header(r.value.values, FirstGridColumn) == Some(Label(names[settings.startMonth - 1]))
  {
    if settings.endYear > MaxYear {
      return Err(YearPastCalendar);
    }
    var span := SpanOf(settings);
    assert ValidSpan(span) && span.startMonth == settings.startMonth;
    var w := SheetOfSpan(span, SheetTitle(settings), names);
    r := Ok(w);
    assert r.value == w;
  }

  /** The generating half of `main`: the sheet for accepted settings, saved under their file name. */
  method WriteCalendar(s: Settings, localeNames: seq<string>) returns (o: Outcome)
    requires AcceptedSpan(s) && |localeNames| == 12
    ensures o.Written? || o.Failed?
    ensures o.Failed? <==> s.endYear > MaxYear
    ensures o.Written? ==>
      && o.file == s.outputFile && o.sheet.title == SheetTitle(s)
      && ValidSpan(SpanOf(s)) && DrawsSpan(o.sheet, SpanOf(s), MonthNames(s.forceDutch, localeNames))
    ensures o.Written? ==>
      Header(o.sheet.values, FirstGridColumn) == Some(Label(MonthNames(s.forceDutch, localeNames)[s.startMonth - 1]))
  {
    var r := BuildSheet(s, MonthNames(s.forceDutch, localeNames));
    match r {
      case Ok(w) => return Written(s.outputFile, w);
      case Err(e) => return Failed(e);
    }
  }

  /**
   * The generating half of `main` on the command line itself: the month
   * names are Dutch exactly when `-fnl` was given.
   */
  method GenerateCalendar(todayYear: int, opts: seq<CliOption>, localeNames: seq<string>) returns (o: Outcome)
    requires todayYear >= 1 && |localeNames| == 12 && Validate(todayYear, opts).Generate?
    ensures o.Written? || o.Failed?
    ensures o.Failed? <==> Validate(todayYear, opts).settings.endYear > MaxYear
    ensures o.Written? ==>
      var s := Validate(todayYear, opts).settings;
      && o.file == s.outputFile && o.sheet.title == SheetTitle(s)
      && (AsksForDutch(opts) ==>
            Header(o.sheet.values, FirstGridColumn) == Some(Label(DutchMonthNames[s.startMonth - 1])))
      && (!AsksForDutch(opts) ==>
            Header(o.sheet.values, FirstGridColumn) == Some(Label(localeNames[s.startMonth - 1])))
      && ValidSpan(SpanOf(s)) && DrawsSpan(o.sheet, SpanOf(s), MonthNames(AsksForDutch(opts), localeNames))
  {
    var s := Validate(todayYear, opts).settings;
    var dutch := AsksForDutch(opts);
    assert s.forceDutch == dutch;
    var names := MonthNames(dutch, localeNames);
    assert names == if dutch then DutchMonthNames else localeNames;
    o := WriteCalendar(s, localeNames);
    assert o.Written? ==> Header(o.sheet.values, FirstGridColumn) == Some(Label(names[s.startMonth - 1]));
  }

  /**
   * `main`: validate the options, then either stop (help or version) or
   * build the worksheet for the file the options name, with the month names
   * of the OS locale or, under `-fnl`, the Dutch ones.
   */
  method CreateCalendar(todayYear: int, opts: seq<CliOption>, localeNames: seq<string>) returns (o: Outcome)
    requires todayYear >= 1 && |localeNames| == 12
    ensures Validate(todayYear, opts) == ShowVersion <==> o == VersionShown
    ensures Validate(todayYear, opts).Reject? <==> o.HelpShown?
    ensures o.HelpShown? ==> o.error == Validate(todayYear, opts).error
    ensures o.Written? ==>
      var v := Validate(todayYear, opts);
      v.Generate? && o.file == v.settings.outputFile && o.sheet.title == SheetTitle(v.settings)
    ensures o.Written? ==>
      var s := Validate(todayYear, opts).settings;
      && (AsksForDutch(opts) ==>
            Header(o.sheet.values, FirstGridColumn) == Some(Label(DutchMonthNames[s.startMonth - 1])))
      && (!AsksForDutch(opts) ==>
            Header(o.sheet.values, FirstGridColumn) == Some(Label(localeNames[s.startMonth - 1])))
    ensures o.Written? ==>
      var s := Validate(todayYear, opts).settings;
      ValidSpan(SpanOf(s)) && DrawsSpan(o.sheet, SpanOf(s), MonthNames(AsksForDutch(opts), localeNames))
    ensures o.Failed? <==> Validate(todayYear, opts).Generate? && Validate(todayYear, opts).settings.endYear > MaxYear
  {
    var v := Validate(todayYear, opts);
    match v {
      case ShowVersion =>
        return VersionShown;
      case Reject(e) =>
        return HelpShown(e);
      case Generate(s) =>
        o := GenerateCalendar(todayYear, opts, localeNames);
    }
  }
}
