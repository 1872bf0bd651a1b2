/**
 * The walk along row 1 that merges the header cells of consecutive week
 * columns showing the same month and draws the header borders. Merged ranges
 * are returned as data.
 */
module HeaderMerge {
  import opened Results
  import opened Styles
  import opened Grid

  /** A merge of row-1 columns `first .. last`. */
  datatype Range = Range(first: int, last: int)

  /**
   * The walk reads `merge_range_end` before any assignment when the first run
   * is a single column: the program stops with a name error.
   */
  datatype MergeError = UnboundRangeEnd

  /** The merges issued, in order, and the borders drawn on row 1 by column. */
  datatype Merged = Merged(ranges: seq<Range>, borders: map<int, Border>)

  function Header(sheet: map<Cell, Content>, col: int): Option<Content> {
    ValueAt(sheet, Cell(HeaderRow, col))
  }

  /** Column `c` shows the same header as a neighbour inside `3 .. last`. */
  predicate PairedAt(sheet: map<Cell, Content>, last: int, c: int) {
    (c > FirstGridColumn && Header(sheet, c - 1) == Header(sheet, c)) ||
    (c < last && Header(sheet, c + 1) == Header(sheet, c))
  }

  /**
   * No header stands alone in `3 .. last`, and the column after the last
   * shows something else: every run of equal headers is at least two long
   * and the final one ends at `last`.
   */
  predicate NoLoneHeader(sheet: map<Cell, Content>, last: int) {
    && last > FirstGridColumn
    && (forall c :: FirstGridColumn <= c <= last ==> PairedAt(sheet, last, c))
    && Header(sheet, last + 1) != Header(sheet, last)
  }

  /** `r` spans at least two columns, all showing the header of its first. */
  predicate IsRun(sheet: map<Cell, Content>, r: Range) {
    r.first < r.last && forall c :: r.first <= c <= r.last ==> Header(sheet, c) == Header(sheet, r.first)
  }

  /** `b` starts right after `a` with a different header. */
  predicate Follows(sheet: map<Cell, Content>, a: Range, b: Range) {
    b.first == a.last + 1 && Header(sheet, b.first) != Header(sheet, a.first)
  }

  /** `ranges` cut `lo .. hi` into maximal runs of equal headers. */
  predicate IsRunPartition(sheet: map<Cell, Content>, ranges: seq<Range>, lo: int, hi: int) {
    && |ranges| > 0
    && ranges[0].first == lo
    && ranges[|ranges| - 1].last == hi
    && (forall i :: 0 <= i < |ranges| ==> IsRun(sheet, ranges[i]))
    && (forall i :: 0 < i < |ranges| ==> Follows(sheet, ranges[i - 1], ranges[i]))
  }

  /**
   * Row 1 borders: the start of every run is boxed with a medium top; the
   * start of the last run has a medium right edge instead of a thin one.
   */
  predicate RunBorders(ranges: seq<Range>, borders: map<int, Border>) {
    && (forall i :: 0 <= i < |ranges| ==>
          ranges[i].first in borders &&
          borders[ranges[i].first] == if i == |ranges| - 1 then BorderlRTb else BorderlrTb)
    && (forall c :: c in borders ==> exists i :: 0 <= i < |ranges| && ranges[i].first == c)
  }

  /** Appending the run that starts right after a partition of `lo .. start - 1` extends it. */
  lemma ExtendPartition(sheet: map<Cell, Content>, ranges: seq<Range>, lo: int, run: Range)
    requires run.first == lo ==> ranges == []
    requires run.first > lo ==> IsRunPartition(sheet, ranges, lo, run.first - 1)
    requires run.first > lo ==> Header(sheet, run.first - 1) != Header(sheet, run.first)
    requires run.first >= lo && IsRun(sheet, run)
    ensures IsRunPartition(sheet, ranges + [run], lo, run.last)
  {
    var rs := ranges + [run];
    if run.first > lo {
      var a := ranges[|ranges| - 1];
      assert IsRun(sheet, a);
      assert Header(sheet, a.last) == Header(sheet, a.first);
      assert Follows(sheet, rs[|rs| - 2], rs[|rs| - 1]);
      forall i | 0 < i < |rs| ensures Follows(sheet, rs[i - 1], rs[i]) {
        if i < |ranges| {
          assert rs[i - 1] == ranges[i - 1] && rs[i] == ranges[i];
        }
      }
    }
  }

  /** Every closed run's start is boxed with a thin right edge, and nothing else is. */
  predicate BoxedStarts(ranges: seq<Range>, borders: map<int, Border>) {
    && (forall i :: 0 <= i < |ranges| ==> ranges[i].first in borders && borders[ranges[i].first] == BorderlrTb)
    && (forall c :: c in borders ==> exists i :: 0 <= i < |ranges| && ranges[i].first == c)
  }

  /** Closing a run that is not the last and boxing the start of the next. */
  lemma BoxNextRun(ranges: seq<Range>, borders: map<int, Border>, run: Range, next: int)
    requires BoxedStarts(ranges, borders - {run.first})
    requires run.first in borders && borders[run.first] == BorderlrTb
    requires forall i :: 0 <= i < |ranges| ==> ranges[i].first < run.first
    requires next > run.first
    ensures BoxedStarts(ranges + [run], borders[next := BorderlrTb] - {next})
  {
    var rs := ranges + [run];
    var bs := borders[next := BorderlrTb] - {next};
    assert bs == borders - {next};
    forall c | c in bs ensures exists i :: 0 <= i < |rs| && rs[i].first == c {
      if c != run.first {
        assert c in borders - {run.first};
        var i :| 0 <= i < |ranges| && ranges[i].first == c;
        assert rs[i].first == c;
      } else {
        assert rs[|rs| - 1].first == c;
      }
    }
    forall i | 0 <= i < |rs| ensures rs[i].first in bs && bs[rs[i].first] == BorderlrTb {
      if i < |ranges| {
        assert rs[i] == ranges[i];
        assert ranges[i].first in borders - {run.first};
      }
    }
  }

  /** Closing the last run: its start gets the medium right edge. */
  lemma CloseLastRun(ranges: seq<Range>, borders: map<int, Border>, run: Range)
    requires BoxedStarts(ranges, borders - {run.first})
    requires run.first in borders
    requires forall i :: 0 <= i < |ranges| ==> ranges[i].first < run.first
    ensures RunBorders(ranges + [run], borders[run.first := BorderlRTb])
  {
    var rs := ranges + [run];
    var bs := borders[run.first := BorderlRTb];
    forall c | c in bs ensures exists i :: 0 <= i < |rs| && rs[i].first == c {
      if c != run.first {
        assert c in borders - {run.first};
        var i :| 0 <= i < |ranges| && ranges[i].first == c;
        assert rs[i].first == c;
      } else {
        assert rs[|rs| - 1].first == c;
      }
    }
    forall i | 0 <= i < |rs| ensures rs[i].first in bs &&
      bs[rs[i].first] == if i == |rs| - 1 then BorderlRTb else BorderlrTb
    {
      if i < |ranges| {
        assert rs[i] == ranges[i];
        assert ranges[i].first in borders - {run.first};
      }
    }
  }

  /** The walk's state when the current run starts at `start`: the runs before it are closed and boxed. */
  predicate ClosedBefore(sheet: map<Cell, Content>, ranges: seq<Range>, borders: map<int, Border>, start: int) {
    && (start == FirstGridColumn ==> ranges == [] && borders == map[FirstGridColumn := BorderlrTb])
    && (start > FirstGridColumn ==>
          && IsRunPartition(sheet, ranges, FirstGridColumn, start - 1)
          && start in borders && borders[start] == BorderlrTb
          && BoxedStarts(ranges, borders - {start}))
  }

  /**
   * The merge walk over columns `4 .. lastColumn + 1`: a column equal to the
   * previous header extends the run; a different one merges the run so far
   * and starts a new one, except past the last column, where it only closes
   * the last run.
   */
  method MergeHeaders(sheet: map<Cell, Content>, lastColumn: int) returns (r: Result<Merged, MergeError>)
    ensures r.Err? <==> lastColumn >= FirstGridColumn && Header(sheet, 4) != Header(sheet, 3)
    ensures NoLoneHeader(sheet, lastColumn) ==>
      r.Ok? && IsRunPartition(sheet, r.value.ranges, FirstGridColumn, lastColumn) &&
      RunBorders(r.value.ranges, r.value.borders)
  {
    ghost var lone := NoLoneHeader(sheet, lastColumn);
    var prev := Header(sheet, 3);
    var start := 3;
    var end: Option<int> := None;
    var ranges: seq<Range> := [];
    var borders := map[3 := BorderlrTb];
    var col := 4;
    while col <= lastColumn + 1
      invariant 4 <= col && (lastColumn >= FirstGridColumn ==> col <= lastColumn + 2)
      invariant 3 <= start < col && prev == Header(sheet, start)
      invariant col <= lastColumn + 1 ==> forall c :: start <= c < col ==> Header(sheet, c) == prev
      invariant end.None? <==> col == 4
      invariant col <= lastColumn + 1 && start < col - 1 ==> end == Some(col - 1)
      invariant col > 4 && lastColumn >= FirstGridColumn ==> Header(sheet, 4) == Header(sheet, 3)
      invariant start > 3 ==> Header(sheet, start - 1) != Header(sheet, start)
      invariant lone && col <= lastColumn + 1 ==>
        ClosedBefore(sheet, ranges, borders, start)
      invariant lone && col == lastColumn + 2 ==>
        IsRunPartition(sheet, ranges, 3, lastColumn) && RunBorders(ranges, borders)
      invariant col <= lastColumn + 1 ==> forall i :: 0 <= i < |ranges| ==> ranges[i].first < start
    {
      if Header(sheet, col) == prev {
        end := Some(col);
      } else {
        if end.None? {
          assert col == 4 && !PairedAt(sheet, lastColumn, 3);
          return Err(UnboundRangeEnd);
        }
        if lone {
          assert PairedAt(sheet, lastColumn, start);
          ExtendPartition(sheet, ranges, 3, Range(start, end.value));
          if start > 3 {
            assert borders - {start} - {start} == borders - {start};
          }
        }
        if col == lastColumn + 1 {
          if lone {
            CloseLastRun(ranges, borders, Range(start, end.value));
          }
          borders := borders[start := BorderlRTb];
          ranges := ranges + [Range(start, end.value)];
        } else {
          if lone {
            BoxNextRun(ranges, borders, Range(start, end.value), col);
          }
          borders := borders[col := BorderlrTb];
          ranges := ranges + [Range(start, end.value)];
          prev := Header(sheet, col);
          start := col;
        }
      }
      col := col + 1;
    }
    return Ok(Merged(ranges, borders));
  }
}
