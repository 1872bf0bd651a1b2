/**
 * Placement of the day list on the worksheet (one column per week): entry
 * `i` goes to column `i / 7 + 3`, row `i % 7 + 2`; row 1 of a column holds the
 * month name of the column's first entry and row 9 the week number of its
 * last real day. Columns 1 and 2 hold the row headers.
 */
module Grid {
  import opened Results
  import opened DayList

  datatype Cell = Cell(row: int, col: int)

  /** A cell value: a month name, or a day or week number. */
  datatype Content = Label(text: string) | Number(value: int)

  const HeaderRow := 1
  const WeekRow := 9
  const FirstGridColumn := 3

  function ValueAt(sheet: map<Cell, Content>, c: Cell): Option<Content> {
    if c in sheet then Some(sheet[c]) else None
  }

  /** `ceil(len(day_list) / 7)`: the number of week columns. */
  function ColumnCount(n: nat): (c: nat)
    ensures 7 * c >= n && 7 * c < n + 7
  {
    (n + 6) / 7
  }

  /** `last_column`. */
  function LastColumn(n: nat): int {
    ColumnCount(n) + 2
  }

  /** The cell of entry `i`. */
  function CellOf(i: nat): Cell {
    Cell(i % 7 + 2, i / 7 + 3)
  }

  /** The entry shown in a day cell: the inverse of `CellOf`. */
  function EntryIndex(c: Cell): int {
    (c.col - 3) * 7 + (c.row - 2)
  }

  predicate IsDayCell(c: Cell) {
    2 <= c.row <= 8 && c.col >= FirstGridColumn
  }

  /** Entries and day cells correspond one to one. */
  lemma PlacementRoundTrip(i: nat, c: Cell)
    ensures IsDayCell(CellOf(i)) && EntryIndex(CellOf(i)) == i
    ensures IsDayCell(c) ==> EntryIndex(c) >= 0 && CellOf(EntryIndex(c)) == c
  {
  }

  /** Entry `i` of `n` lands in a grid column, and the last column is the one of the last entry. */
  lemma PlacementWithinColumns(n: nat, i: nat)
    requires i < n
    ensures FirstGridColumn <= CellOf(i).col <= LastColumn(n)
    ensures CellOf(n - 1).col == LastColumn(n)
  {
  }

  /** First entry of column `col`. */
  function ColumnStart(col: int): int {
    7 * (col - 3)
  }

  /** The last real day among entries `lo .. hi - 1`, or -1 when all are padding. */
  function LastDayBetween(list: seq<DayEntry>, lo: int, hi: int): (r: int)
    requires 0 <= lo <= hi <= |list|
    ensures r == -1 || (lo <= r < hi && !IsPadding(list[r]))
    ensures r == -1 ==> forall j :: lo <= j < hi ==> IsPadding(list[j])
    ensures r != -1 ==> forall j :: r < j < hi ==> IsPadding(list[j])
    decreases hi - lo
  {
    if lo == hi then -1
    else if !IsPadding(list[hi - 1]) then hi - 1
    else LastDayBetween(list, lo, hi - 1)
  }

  function Min(a: int, b: int): int {
    if a <= b then a else b
  }

  /** The last real day of column `col` among the first `done` entries, or -1. */
  function LastDayInColumn(list: seq<DayEntry>, col: int, done: int): int
    requires col >= FirstGridColumn && 0 <= done <= |list|
  {
    LastDayBetween(list, Min(ColumnStart(col), done), Min(ColumnStart(col) + 7, done))
  }

  predicate MonthsInRange(list: seq<DayEntry>) {
    forall i :: 0 <= i < |list| ==> 1 <= list[i].month <= 12
  }

  /**
   * The sheet once the first `done` entries are placed and the headers of
   * columns up to `headers` are written.
   */
  ghost function Expected(list: seq<DayEntry>, names: seq<string>, done: int, headers: int, c: Cell): Option<Content>
    requires |names| == 12 && MonthsInRange(list)
    requires 0 <= done <= |list|
    requires headers < FirstGridColumn || ColumnStart(headers) < |list|
  {
    if c.row == HeaderRow then
      if FirstGridColumn <= c.col <= headers then Some(Label(names[list[ColumnStart(c.col)].month - 1])) else None
    else if IsDayCell(c) then
      if EntryIndex(c) < done && !IsPadding(list[EntryIndex(c)]) then Some(Number(list[EntryIndex(c)].day)) else None
    else if c.row == WeekRow && c.col >= FirstGridColumn then
      var w := LastDayInColumn(list, c.col, done);
      if w == -1 then None else Some(Number(list[w].week))
    else None
  }

  /** The sheet holds exactly what the loop has written so far. */
  ghost predicate Matches(sheet: map<Cell, Content>, list: seq<DayEntry>, names: seq<string>, done: int, headers: int) {
    && |names| == 12 && MonthsInRange(list)
    && 0 <= done <= |list|
    && (headers < FirstGridColumn || ColumnStart(headers) < |list|)
    && forall c :: ValueAt(sheet, c) == Expected(list, names, done, headers, c)
  }

  /** Every written cell lies in rows 1..9 of columns `FirstGridColumn` to `last`. */
  predicate WithinColumns(sheet: map<Cell, Content>, last: int) {
    forall c :: c in sheet ==> 1 <= c.row <= 9 && FirstGridColumn <= c.col <= last
  }

  /** Writing the header of the next column. */
  lemma ExpectedAfterHeader(list: seq<DayEntry>, names: seq<string>, done: int, col: int, c: Cell)
    requires |names| == 12 && MonthsInRange(list)
    requires col >= FirstGridColumn && 0 <= done == ColumnStart(col) < |list|
    ensures Expected(list, names, done, col, c) ==
      if c == Cell(HeaderRow, col) then Some(Label(names[list[done].month - 1]))
      else Expected(list, names, done, col - 1, c)
  {
  }

  /** Placing entry `done`, which belongs to column `col`. */
  lemma ExpectedAfterEntry(list: seq<DayEntry>, names: seq<string>, done: int, col: int, c: Cell)
    requires |names| == 12 && MonthsInRange(list)
    requires col >= FirstGridColumn && ColumnStart(col) <= done < |list| && done < ColumnStart(col) + 7
    ensures Expected(list, names, done + 1, col, c) ==
      if !IsPadding(list[done]) && c == CellOf(done) then Some(Number(list[done].day))
      else if !IsPadding(list[done]) && c == Cell(WeekRow, col) then Some(Number(list[done].week))
      else Expected(list, names, done, col, c)
  {
    if c.row == WeekRow && c.col >= FirstGridColumn {
      if c.col == col {
        assert LastDayInColumn(list, col, done + 1) == LastDayBetween(list, ColumnStart(col), done + 1);
        assert LastDayInColumn(list, col, done) == LastDayBetween(list, ColumnStart(col), done);
      } else if c.col < col {
        assert ColumnStart(c.col) + 7 <= done;
      } else {
        assert ColumnStart(c.col) >= done + 1;
      }
    }
  }

  /** What the finished sheet holds, read off the placement state once every entry is placed. */
  lemma FinishedSheet(list: seq<DayEntry>, names: seq<string>, sheet: map<Cell, Content>)
    requires |names| == 12 && MonthsInRange(list)
    requires Matches(sheet, list, names, |list|, LastColumn(|list|))
    ensures forall col :: FirstGridColumn <= col <= LastColumn(|list|) ==>
      0 <= ColumnStart(col) < |list| &&
      ValueAt(sheet, Cell(HeaderRow, col)) == Some(Label(names[list[ColumnStart(col)].month - 1]))
    ensures forall i :: 0 <= i < |list| ==>
      ValueAt(sheet, CellOf(i)) == if IsPadding(list[i]) then None else Some(Number(list[i].day))
    ensures forall c :: IsDayCell(c) && EntryIndex(c) >= |list| ==> c !in sheet
    ensures forall col :: FirstGridColumn <= col <= LastColumn(|list|) ==>
      var w := LastDayInColumn(list, col, |list|);
      ValueAt(sheet, Cell(WeekRow, col)) == if w == -1 then None else Some(Number(list[w].week))
  {
    forall col | FirstGridColumn <= col <= LastColumn(|list|)
      ensures ValueAt(sheet, Cell(HeaderRow, col)) == Some(Label(names[list[ColumnStart(col)].month - 1]))
    {
      assert ValueAt(sheet, Cell(HeaderRow, col)) ==
        Expected(list, names, |list|, LastColumn(|list|), Cell(HeaderRow, col));
    }
    forall i | 0 <= i < |list|
      ensures ValueAt(sheet, CellOf(i)) == if IsPadding(list[i]) then None else Some(Number(list[i].day))
    {
      assert ValueAt(sheet, CellOf(i)) == Expected(list, names, |list|, LastColumn(|list|), CellOf(i));
    }
    forall c | IsDayCell(c) && EntryIndex(c) >= |list|
      ensures c !in sheet
    {
      assert ValueAt(sheet, c) == Expected(list, names, |list|, LastColumn(|list|), c);
    }
    forall col | FirstGridColumn <= col <= LastColumn(|list|)
      ensures var w := LastDayInColumn(list, col, |list|);
        ValueAt(sheet, Cell(WeekRow, col)) == if w == -1 then None else Some(Number(list[w].week))
    {
      assert ValueAt(sheet, Cell(WeekRow, col)) ==
        Expected(list, names, |list|, LastColumn(|list|), Cell(WeekRow, col));
    }
  }

  /** The inner loop's body: entry `dayIndex` goes into row `row` of column `col`, its week into row 9. */
  method PlaceEntry(list: seq<DayEntry>, names: seq<string>, sheet0: map<Cell, Content>,
                    col: int, row: int, dayIndex: int)
    returns (sheet: map<Cell, Content>)
    requires |names| == 12 && MonthsInRange(list)
    requires col >= FirstGridColumn && 2 <= row <= 8
    requires dayIndex == ColumnStart(col) + row - 2 < |list|
    requires WithinColumns(sheet0, col)
    requires Matches(sheet0, list, names, dayIndex, col)
    ensures WithinColumns(sheet, col)
    ensures Matches(sheet, list, names, dayIndex + 1, col)
  {
    sheet := sheet0;
    if !IsPadding(list[dayIndex]) {
      sheet := sheet[Cell(row, col) := Number(list[dayIndex].day)];
      sheet := sheet[Cell(WeekRow, col) := Number(list[dayIndex].week)];
    }
    forall c
      ensures ValueAt(sheet, c) == Expected(list, names, dayIndex + 1, col, c)
    {
      assert ValueAt(sheet0, c) == Expected(list, names, dayIndex, col, c);
      assert CellOf(dayIndex) == Cell(row, col);
      ExpectedAfterEntry(list, names, dayIndex, col, c);
    }
  }

  /** The header write at the top of the column loop: the month of the column's first entry. */
  method PlaceHeader(list: seq<DayEntry>, names: seq<string>, sheet0: map<Cell, Content>, col: int)
    returns (sheet: map<Cell, Content>)
    requires |names| == 12 && MonthsInRange(list)
    requires col >= FirstGridColumn && 0 <= ColumnStart(col) < |list|
    requires WithinColumns(sheet0, col - 1)
    requires Matches(sheet0, list, names, ColumnStart(col), col - 1)
    ensures WithinColumns(sheet, col)
    ensures Matches(sheet, list, names, ColumnStart(col), col)
  {
    var start := ColumnStart(col);
    sheet := sheet0[Cell(HeaderRow, col) := Label(names[list[start].month - 1])];
    forall c
      ensures ValueAt(sheet, c) == Expected(list, names, start, col, c)
    {
      assert ValueAt(sheet0, c) == Expected(list, names, start, col - 1, c);
      ExpectedAfterHeader(list, names, start, col, c);
    }
  }

  /**
   * The row loop from row `row` on: entries go down the column until row 8
   * is filled or the list runs out.
   */
  method PlaceRows(list: seq<DayEntry>, names: seq<string>, sheet0: map<Cell, Content>,
                   col: int, row: int, dayIndex: int)
    returns (sheet: map<Cell, Content>, next: int)
    requires |names| == 12 && MonthsInRange(list)
    requires col >= FirstGridColumn && 2 <= row <= 8
    requires dayIndex == ColumnStart(col) + row - 2 < |list|
    requires WithinColumns(sheet0, col)
    requires Matches(sheet0, list, names, dayIndex, col)
    ensures next == Min(ColumnStart(col) + 7, |list|)
    ensures WithinColumns(sheet, col)
    ensures Matches(sheet, list, names, next, col)
    decreases 9 - row
  {
    sheet := PlaceEntry(list, names, sheet0, col, row, dayIndex);
    next := dayIndex + 1;
    if next == |list| || row == 8 {
      return;
    }
    sheet, next := PlaceRows(list, names, sheet, col, row + 1, next);
  }

  /**
   * One pass of the column loop: the month header of column `col`, then its
   * seven rows, stopping early at the end of the list.
   */
  method PlaceColumn(list: seq<DayEntry>, names: seq<string>, sheet0: map<Cell, Content>, col: int)
    returns (sheet: map<Cell, Content>, dayIndex: int)
    requires |names| == 12 && MonthsInRange(list)
    requires col >= FirstGridColumn && 0 <= ColumnStart(col) < |list|
    requires WithinColumns(sheet0, col - 1)
    requires Matches(sheet0, list, names, ColumnStart(col), col - 1)
    ensures dayIndex == Min(ColumnStart(col) + 7, |list|)
    ensures WithinColumns(sheet, col)
    ensures Matches(sheet, list, names, dayIndex, col)
  {
    sheet := PlaceHeader(list, names, sheet0, col);
    sheet, dayIndex := PlaceRows(list, names, sheet, col, 2, ColumnStart(col));
  }

  /**
   * The loop that writes month headers, day numbers and week numbers. Day
   * cells of padding entries stay empty; so do cells past the last entry.
   */
  method PlaceDays(list: seq<DayEntry>, names: seq<string>) returns (sheet: map<Cell, Content>)
    requires |names| == 12 && MonthsInRange(list)
    ensures forall c :: c in sheet ==> 1 <= c.row <= 9 && FirstGridColumn <= c.col <= LastColumn(|list|)
    ensures forall col :: FirstGridColumn <= col <= LastColumn(|list|) ==>
      0 <= ColumnStart(col) < |list| &&
      ValueAt(sheet, Cell(HeaderRow, col)) == Some(Label(names[list[ColumnStart(col)].month - 1]))
    ensures forall i :: 0 <= i < |list| ==>
      ValueAt(sheet, CellOf(i)) == if IsPadding(list[i]) then None else Some(Number(list[i].day))
    ensures forall c :: IsDayCell(c) && EntryIndex(c) >= |list| ==> c !in sheet
    ensures forall col :: FirstGridColumn <= col <= LastColumn(|list|) ==>
      var w := LastDayInColumn(list, col, |list|);
      ValueAt(sheet, Cell(WeekRow, col)) == if w == -1 then None else Some(Number(list[w].week))
  {
    var n := |list|;
    var last := LastColumn(n);
    sheet := map[];
    var dayIndex := 0;
    var col := FirstGridColumn;
    while col <= last
      invariant FirstGridColumn <= col <= last + 1
      invariant dayIndex == Min(ColumnStart(col), n)
      invariant WithinColumns(sheet, col - 1)
      invariant Matches(sheet, list, names, dayIndex, col - 1)
    {
      if dayIndex == n {
        break;
      }
      sheet, dayIndex := PlaceColumn(list, names, sheet, col);
      col := col + 1;
    }
    FinishedSheet(list, names, sheet);
  }
}
