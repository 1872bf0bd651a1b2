/**
 * Background fills and borders of the week grid (rows 2 to 9 of the week
 * columns) and of the row-header column.
 */
module Painting {
  import opened Results
  import opened Styles
  import opened Grid

  /** Rows 7 and 8 hold Saturday and Sunday. */
  predicate IsWeekendRow(row: int) {
    row == 7 || row == 8
  }

  predicate InGrid(c: Cell, lastColumn: int) {
    2 <= c.row <= WeekRow && FirstGridColumn <= c.col <= lastColumn
  }

  /**
   * The fill loop: every grid cell from row 2 to the week row is filled,
   * light grey on the weekend rows and white elsewhere.
   */
  method PaintFills(lastColumn: int) returns (fills: map<Cell, Fill>)
    ensures forall c :: c in fills <==> InGrid(c, lastColumn)
    ensures forall c :: c in fills ==> (fills[c] == FillLightGrey <==> IsWeekendRow(c.row))
    ensures forall c :: c in fills ==> fills[c] == FillLightGrey || fills[c] == FillWhite
  {
    fills := map[];
    var col := FirstGridColumn;
    while col <= lastColumn
      invariant FirstGridColumn <= col <= if lastColumn >= FirstGridColumn then lastColumn + 1 else FirstGridColumn
      invariant forall c :: c in fills <==> 2 <= c.row <= WeekRow && FirstGridColumn <= c.col < col
      invariant forall c :: c in fills ==> fills[c] == if IsWeekendRow(c.row) then FillLightGrey else FillWhite
    {
      var row := 2;
      while row < 7
        invariant 2 <= row <= 7
        invariant forall c :: c in fills <==>
          (2 <= c.row <= WeekRow && FirstGridColumn <= c.col < col) || (c.col == col && 2 <= c.row < row)
        invariant forall c :: c in fills ==> fills[c] == if IsWeekendRow(c.row) then FillLightGrey else FillWhite
      {
        fills := fills[Cell(row, col) := FillWhite];
        row := row + 1;
      }
      fills := fills[Cell(7, col) := FillLightGrey];
      fills := fills[Cell(8, col) := FillLightGrey];
      fills := fills[Cell(WeekRow, col) := FillWhite];
      col := col + 1;
    }
  }

  /** Day cells hold day numbers or nothing, as the placement loop leaves them. */
  predicate DayCellsHoldNumbers(sheet: map<Cell, Content>) {
    forall c :: c in sheet && IsDayCell(c) ==> sheet[c].Number?
  }

  /** The border a day cell of a column before the last gets from its value. */
  function DayBorder(v: Option<Content>): Option<Border> {
    match v
    case Some(Number(d)) =>
      if d == 1 then Some(Borderlt)
      else if 2 <= d <= 7 then Some(Borderl)
      else None
    case _ => None
  }

  /** The first border loop: left edges on the days 1 to 7 in the columns before the last. */
  method PaintDayEdges(sheet: map<Cell, Content>, lastColumn: int) returns (borders: map<Cell, Border>)
    requires DayCellsHoldNumbers(sheet)
    ensures forall c :: c in borders <==> IsDayCell(c) && c.col < lastColumn && DayBorder(ValueAt(sheet, c)).Some?
    ensures forall c :: c in borders ==> Some(borders[c]) == DayBorder(ValueAt(sheet, c))
  {
    borders := map[];
    var col := FirstGridColumn;
    while col < lastColumn
      invariant FirstGridColumn <= col <= if lastColumn >= FirstGridColumn then lastColumn else FirstGridColumn
      invariant forall c :: c in borders <==> IsDayCell(c) && c.col < col && DayBorder(ValueAt(sheet, c)).Some?
      invariant forall c :: c in borders ==> Some(borders[c]) == DayBorder(ValueAt(sheet, c))
    {
      var row := 2;
      while row <= 8
        invariant 2 <= row <= 9
        invariant forall c :: c in borders <==>
          IsDayCell(c) && (c.col < col || (c.col == col && c.row < row)) && DayBorder(ValueAt(sheet, c)).Some?
        invariant forall c :: c in borders ==> Some(borders[c]) == DayBorder(ValueAt(sheet, c))
      {
        var v := ValueAt(sheet, Cell(row, col));
        if v.Some? && v.value.Number? && v.value.value != 0 {
          if v.value.value == 1 {
            borders := borders[Cell(row, col) := Borderlt];
          } else if 2 <= v.value.value <= 7 {
            borders := borders[Cell(row, col) := Borderl];
          }
        }
        row := row + 1;
      }
      col := col + 1;
    }
  }

  /** The second border loop: a medium right edge down rows 2 to 8 of the last column. */
  method PaintLastColumn(borders0: map<Cell, Border>, lastColumn: int) returns (borders: map<Cell, Border>)
    ensures forall c :: c in borders <==> c in borders0 || (c.col == lastColumn && 2 <= c.row <= 8)
    ensures forall c :: c in borders ==>
      borders[c] == if c.col == lastColumn && 2 <= c.row <= 8 then BorderR else borders0[c]
  {
    borders := borders0;
    var row := 2;
    while row <= 8
      invariant 2 <= row <= 9
      invariant forall c :: c in borders <==> c in borders0 || (c.col == lastColumn && 2 <= c.row < row)
      invariant forall c :: c in borders ==>
        borders[c] == if c.col == lastColumn && 2 <= c.row < row then BorderR else borders0[c]
    {
      borders := borders[Cell(row, lastColumn) := BorderR];
      row := row + 1;
    }
  }

  /** The week-row loop: thin edges and a medium bottom, a medium right edge as well in the last column. */
  method PaintWeekRow(borders0: map<Cell, Border>, lastColumn: int) returns (borders: map<Cell, Border>)
    ensures forall c :: c in borders <==>
      c in borders0 || (c.row == WeekRow && (FirstGridColumn <= c.col < lastColumn || c.col == lastColumn))
    ensures forall c :: c in borders ==>
      borders[c] ==
        if c.row == WeekRow && c.col == lastColumn then BorderlRtB
        else if c.row == WeekRow && FirstGridColumn <= c.col < lastColumn then BorderlrtB
        else borders0[c]
  {
    borders := borders0;
    var col := FirstGridColumn;
    while col < lastColumn
      invariant FirstGridColumn <= col <= if lastColumn >= FirstGridColumn then lastColumn else FirstGridColumn
      invariant forall c :: c in borders <==> c in borders0 || (c.row == WeekRow && FirstGridColumn <= c.col < col)
      invariant forall c :: c in borders ==>
        borders[c] == if c.row == WeekRow && FirstGridColumn <= c.col < col then BorderlrtB else borders0[c]
    {
      borders := borders[Cell(WeekRow, col) := BorderlrtB];
      col := col + 1;
    }
    borders := borders[Cell(WeekRow, lastColumn) := BorderlRtB];
  }

  /**
   * The border loops: in the columns before the last, the days 1 to 7 of a
   * month get a thin left edge, the 1st a thin top edge as well; the last
   * column gets a medium right edge; the week row gets a medium bottom edge,
   * with a medium right edge in the last column.
   */
  method PaintBorders(sheet: map<Cell, Content>, lastColumn: int) returns (borders: map<Cell, Border>)
    requires DayCellsHoldNumbers(sheet)
    ensures lastColumn >= FirstGridColumn ==> forall c :: c in borders ==> InGrid(c, lastColumn)
    ensures forall c :: IsDayCell(c) && c.col < lastColumn ==>
      (c in borders <==> exists d :: ValueAt(sheet, c) == Some(Number(d)) && 1 <= d <= 7)
    ensures forall c :: IsDayCell(c) && c.col < lastColumn && c in borders ==>
      borders[c].left == Thin && borders[c].right == NoLine && borders[c].bottom == NoLine &&
      (borders[c].top == Thin <==> ValueAt(sheet, c) == Some(Number(1)))
    ensures forall c :: IsDayCell(c) && c.col < lastColumn && c in borders ==>
      borders[c] == if ValueAt(sheet, c) == Some(Number(1)) then Borderlt else Borderl
    ensures forall row :: 2 <= row <= 8 ==>
      Cell(row, lastColumn) in borders && borders[Cell(row, lastColumn)] == BorderR
    ensures forall col :: FirstGridColumn <= col <= lastColumn ==>
      Cell(WeekRow, col) in borders &&
      var b := borders[Cell(WeekRow, col)];
      b.left == Thin && b.top == Thin && b.bottom == Medium &&
      b.right == (if col == lastColumn then Medium else Thin)
    ensures forall col :: FirstGridColumn <= col <= lastColumn ==>
      Cell(WeekRow, col) in borders &&
      borders[Cell(WeekRow, col)] == if col == lastColumn then BorderlRtB else BorderlrtB
  {
    var days := PaintDayEdges(sheet, lastColumn);
    var edged := PaintLastColumn(days, lastColumn);
    borders := PaintWeekRow(edged, lastColumn);
    forall c | IsDayCell(c) && c.col < lastColumn
      ensures c in borders <==> exists d :: ValueAt(sheet, c) == Some(Number(d)) && 1 <= d <= 7
    {
      var v := ValueAt(sheet, c);
      if v.Some? && v.value.Number? && 1 <= v.value.value <= 7 {
        assert DayBorder(v).Some?;
      }
    }
  }

  /**
   * The row-header column: the start year on top with a medium top edge, the
   * weekday names below, and a medium bottom edge under the week row; every
   * cell has a medium left edge.
   */
  function RowHeaderBorder(row: int): (b: Option<Border>)
    ensures b.Some? <==> 1 <= row <= WeekRow
    ensures b.Some? ==> b.value.left == Medium && b.value.right == Thin
    ensures b.Some? ==> (b.value.top == Medium <==> row == HeaderRow)
    ensures b.Some? ==> (b.value.bottom == Medium <==> row == WeekRow)
    ensures b.Some? ==> b.value.top == (if row == HeaderRow then Medium else if row == WeekRow then Thin else NoLine)
    ensures b.Some? ==> b.value.bottom == (if row == HeaderRow then Thin else if row == WeekRow then Medium else NoLine)
  {
    if row == HeaderRow then Some(BorderLrTb)
    else if 2 <= row <= 8 then Some(BorderLr)
    else if row == WeekRow then Some(BorderLrtB)
    else None
  }

  /** The header cells: column 1 from row 1 to the week row, and row 1 across the week columns. */
  predicate IsHeaderCell(c: Cell, lastColumn: int) {
    || (c.col == 1 && HeaderRow <= c.row <= WeekRow)
    || (c.row == HeaderRow && FirstGridColumn <= c.col <= lastColumn)
  }

  /** The header fills: every row-header cell and every month header is filled white. */
  method PaintHeaderFills(fills0: map<Cell, Fill>, lastColumn: int) returns (fills: map<Cell, Fill>)
    ensures forall c :: c in fills <==> c in fills0 || IsHeaderCell(c, lastColumn)
    ensures forall c :: c in fills ==> fills[c] == if IsHeaderCell(c, lastColumn) then FillWhite else fills0[c]
  {
    fills := fills0;
    var row := HeaderRow;
    while row <= WeekRow
      invariant HeaderRow <= row <= WeekRow + 1
      invariant forall c :: c in fills <==> c in fills0 || (c.col == 1 && HeaderRow <= c.row < row)
      invariant forall c :: c in fills ==>
        fills[c] == if c.col == 1 && HeaderRow <= c.row < row then FillWhite else fills0[c]
    {
      fills := fills[Cell(row, 1) := FillWhite];
      row := row + 1;
    }
    var col := FirstGridColumn;
    while col <= lastColumn
      invariant FirstGridColumn <= col <= if lastColumn >= FirstGridColumn then lastColumn + 1 else FirstGridColumn
      invariant forall c :: c in fills <==>
        || c in fills0
        || (c.col == 1 && HeaderRow <= c.row <= WeekRow)
        || (c.row == HeaderRow && FirstGridColumn <= c.col < col)
      invariant forall c :: c in fills ==>
        fills[c] ==
          if (c.col == 1 && HeaderRow <= c.row <= WeekRow) || (c.row == HeaderRow && FirstGridColumn <= c.col < col)
          then FillWhite else fills0[c]
    {
      fills := fills[Cell(HeaderRow, col) := FillWhite];
      col := col + 1;
    }
  }

  /** The row-header borders: each cell of column 1, rows 1 to 9, gets the border of its row. */
  method PaintRowHeaderBorders(borders0: map<Cell, Border>) returns (borders: map<Cell, Border>)
    ensures forall c :: c in borders <==> c in borders0 || (c.col == 1 && HeaderRow <= c.row <= WeekRow)
    ensures forall c :: c in borders ==>
      Some(borders[c]) ==
        if c.col == 1 && HeaderRow <= c.row <= WeekRow then RowHeaderBorder(c.row) else Some(borders0[c])
  {
    borders := borders0;
    var row := HeaderRow;
    while row <= WeekRow
      invariant HeaderRow <= row <= WeekRow + 1
      invariant forall c :: c in borders <==> c in borders0 || (c.col == 1 && HeaderRow <= c.row < row)
      invariant forall c :: c in borders ==>
        Some(borders[c]) == if c.col == 1 && HeaderRow <= c.row < row then RowHeaderBorder(c.row) else Some(borders0[c])
    {
      borders := borders[Cell(row, 1) := RowHeaderBorder(row).value];
      row := row + 1;
    }
  }
}
