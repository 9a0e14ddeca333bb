/**
  The run-length encoder behind the heatmap of the optimization report: cells of one colour that
  sit side by side in a row become one rectangle.
  Source: frontend/src/utils/optimizationReport.js
*/
module Heatmap {
  import opened Wrappers
  import opened StableSort

  type Color = string

  datatype ColoredCell = ColoredCell(row: int, col: int, color: Color)

  datatype Rect = Rect(row: int, col: int, width: nat, color: Color)

  // ---------- What the encoder works on

  function RowCells(cells: seq<ColoredCell>, row: int): seq<ColoredCell> {
    if cells == [] then []
    else
      var last := cells[|cells| - 1];
      RowCells(cells[..|cells| - 1], row) + if last.row == row then [last] else []
  }

  function ColLeq(): (ColoredCell, ColoredCell) -> bool {
    (left: ColoredCell, right: ColoredCell) => left.col <= right.col
  }

  function SortedRow(cells: seq<ColoredCell>, row: int): seq<ColoredCell> {
    SortBy(RowCells(cells, row), ColLeq())
  }

  /** The cells of the first `rows` rows, row by row and by column within a row. */
  function RowMajor(cells: seq<ColoredCell>, rows: nat): seq<ColoredCell> {
    if rows == 0 then [] else RowMajor(cells, rows - 1) + SortedRow(cells, rows - 1)
  }

  // ---------- What a list of rectangles stands for

  function Strip(rect: Rect): seq<ColoredCell> {
    seq(rect.width, j => ColoredCell(rect.row, rect.col + j, rect.color))
  }

  function Expand(rects: seq<Rect>): seq<ColoredCell> {
    if rects == [] then [] else Expand(rects[..|rects| - 1]) + Strip(rects[|rects| - 1])
  }

  /** Two rectangles that touch in their row and share a colour. */
  predicate Mergeable(left: Rect, right: Rect) {
    left.row == right.row && left.col + left.width == right.col && left.color == right.color
  }

  /** The rectangles expand to the target, none is empty, and no rectangle continues the one before it. */
  ghost predicate Encodes(rects: seq<Rect>, target: seq<ColoredCell>) {
    && Expand(rects) == target
    && (forall i :: 0 <= i < |rects| ==> rects[i].width >= 1)
    && (forall i, j :: 0 <= i < |rects| && j == i + 1 && j < |rects| ==> !Mergeable(rects[i], rects[j]))
  }

  function RunAsList(run: Option<Rect>): seq<Rect> {
    if run.Some? then [run.value] else []
  }

  /** The merging loop of `gridSvg`. */
  method GridRects(cells: seq<ColoredCell>, rows: nat) returns (rects: seq<Rect>)
    ensures Encodes(rects, RowMajor(cells, rows))
  {
    hide Expand, SortBy, RowCells;
    rects := [];
    NothingEncoded();
    for row := 0 to rows
      invariant Encodes(rects, RowMajor(cells, row))
      invariant forall k :: 0 <= k < |rects| ==> rects[k].row < row
    {
      var rowCells := SortBy(RowCells(cells, row), ColLeq());
      SortedRowStaysInRow(cells, row);
      var run: Option<Rect> := None;
      assert rects + RunAsList(run) == rects;
      assert RowMajor(cells, row) + rowCells[..0] == RowMajor(cells, row);
      for i := 0 to |rowCells|
        invariant Encodes(rects + RunAsList(run), RowMajor(cells, row) + rowCells[..i])
        invariant forall k :: 0 <= k < |rects| ==> rects[k].row < row || (run.Some? && rects[k].row == row)
        invariant run.Some? ==> run.value.row == row
      {
        var cell := rowCells[i];
        ghost var before, painted := RowMajor(cells, row) + rowCells[..i], rects + RunAsList(run);
        assert RowMajor(cells, row) + rowCells[..i + 1] == before + [cell];
        if run.Some? && cell.col == run.value.col + run.value.width && cell.color == run.value.color {
          ExtendRun(rects, run.value, cell, before);
          run := Some(run.value.(width := run.value.width + 1));
        } else {
          StartRun(painted, cell, before);
          if run.Some? {
            rects := rects + [run.value];
          } else {
            assert painted == rects;
          }
          run := Some(Rect(row, cell.col, 1, cell.color));
        }
      }
      assert rowCells[..|rowCells|] == SortedRow(cells, row);
      if run.Some? {
        rects := rects + [run.value];
      } else {
        assert rects + RunAsList(run) == rects;
      }
    }
  }

  lemma NothingEncoded()
    ensures Encodes([], [])
  {
  }

  lemma ExtendRun(rects: seq<Rect>, run: Rect, cell: ColoredCell, target: seq<ColoredCell>)
    requires Encodes(rects + [run], target)
    requires cell == ColoredCell(run.row, run.col + run.width, run.color)
    ensures Encodes(rects + [run.(width := run.width + 1)], target + [cell])
  {
    var longer := run.(width := run.width + 1);
    assert (rects + [run])[..|rects|] == rects && (rects + [longer])[..|rects|] == rects;
    assert Strip(longer) == Strip(run) + [cell];
    forall i | 0 <= i < |rects + [longer]| ensures (rects + [longer])[i].width >= 1 {
      assert (rects + [run])[i].width >= 1;
    }
    forall i, j | 0 <= i < |rects| && j == i + 1
      ensures !Mergeable((rects + [longer])[i], (rects + [longer])[j])
    {
      assert !Mergeable((rects + [run])[i], (rects + [run])[j]);
    }
  }

  lemma StartRun(rects: seq<Rect>, cell: ColoredCell, target: seq<ColoredCell>)
    requires Encodes(rects, target)
    requires rects != [] ==> !Mergeable(rects[|rects| - 1], Rect(cell.row, cell.col, 1, cell.color))
    ensures Encodes(rects + [Rect(cell.row, cell.col, 1, cell.color)], target + [cell])
  {
    var fresh' := Rect(cell.row, cell.col, 1, cell.color);
    assert (rects + [fresh'])[..|rects|] == rects;
    assert Strip(fresh') == [cell];
  }

  lemma SortedRowStaysInRow(cells: seq<ColoredCell>, row: int)
    ensures forall i :: 0 <= i < |SortedRow(cells, row)| ==> SortedRow(cells, row)[i].row == row
    ensures Sorted(SortedRow(cells, row), ColLeq())
  {
    var unsorted := RowCells(cells, row);
    RowCellsInRow(cells, row);
    ColLeqTotal();
    SortIsSorted(unsorted, ColLeq());
    forall i | 0 <= i < |SortedRow(cells, row)| ensures SortedRow(cells, row)[i].row == row {
      assert SortedRow(cells, row)[i] in multiset(unsorted);
    }
  }

  lemma {:induction false} RowCellsInRow(cells: seq<ColoredCell>, row: int)
    ensures forall cell :: cell in RowCells(cells, row) ==> cell.row == row
  {
    if cells != [] {
      RowCellsInRow(cells[..|cells| - 1], row);
    }
  }

  lemma ColLeqTotal()
    ensures TotalPreorder(ColLeq())
  {
  }

  // ---------- Nothing is lost, nothing is added

  predicate InGrid(cell: ColoredCell, rows: nat) {
    0 <= cell.row < rows
  }

  /** How many rectangles of the colour lie on the position. */
  function TimesPainted(rects: seq<Rect>, row: int, col: int, color: Color): nat {
    CountIf(rects, (r: Rect) => r.row == row && r.col <= col < r.col + r.width && r.color == color)
  }

  /** How many cells of the colour were given for the position. */
  function TimesGiven(cells: seq<ColoredCell>, rows: nat, row: int, col: int, color: Color): nat {
    CountIf(cells, (c: ColoredCell) => InGrid(c, rows) && c == ColoredCell(row, col, color))
  }

  lemma {:induction false} CountAppend<T>(s: seq<T>, t: seq<T>, p: T -> bool)
    ensures CountIf(s + t, p) == CountIf(s, p) + CountIf(t, p)
  {
    if t == [] {
      assert s + t == s;
    } else {
      assert (s + t)[..|s + t| - 1] == s + t[..|t| - 1];
      CountAppend(s, t[..|t| - 1], p);
    }
  }

  lemma {:induction false} CountExpanded(rects: seq<Rect>, row: int, col: int, color: Color)
    ensures CountIf(Expand(rects), (c: ColoredCell) => c == ColoredCell(row, col, color)) == TimesPainted(rects, row, col, color)
  {
    if rects != [] {
      var rest, last := rects[..|rects| - 1], rects[|rects| - 1];
      CountExpanded(rest, row, col, color);
      CountAppend(Expand(rest), Strip(last), (c: ColoredCell) => c == ColoredCell(row, col, color));
      CountStrip(last, row, col, color);
    }
  }

  lemma {:induction false} CountStrip(rect: Rect, row: int, col: int, color: Color)
    ensures CountIf(Strip(rect), (c: ColoredCell) => c == ColoredCell(row, col, color))
         == if rect.row == row && rect.col <= col < rect.col + rect.width && rect.color == color then 1 else 0
    decreases rect.width
  {
    if rect.width > 0 {
      var shorter := rect.(width := rect.width - 1);
      CountStrip(shorter, row, col, color);
      assert Strip(rect)[..rect.width - 1] == Strip(shorter);
    }
  }

  lemma {:induction false} CountRow(cells: seq<ColoredCell>, row: int, p: ColoredCell -> bool)
    ensures CountIf(RowCells(cells, row), p) == CountIf(cells, (c: ColoredCell) => c.row == row && p(c))
  {
    if cells != [] {
      var rest, last := cells[..|cells| - 1], cells[|cells| - 1];
      CountRow(rest, row, p);
      if last.row == row {
        assert RowCells(cells, row)[..|RowCells(rest, row)|] == RowCells(rest, row);
      } else {
        assert RowCells(cells, row) == RowCells(rest, row);
      }
    }
  }

  lemma {:induction false} CountRowMajor(cells: seq<ColoredCell>, rows: nat, p: ColoredCell -> bool)
    ensures CountIf(RowMajor(cells, rows), p) == CountIf(cells, (c: ColoredCell) => InGrid(c, rows) && p(c))
    decreases rows
  {
    hide CountIf, SortBy, RowCells;
    if rows == 0 {
      CountNone(cells, p);
    } else {
      var row := rows - 1;
      CountRowMajor(cells, row, p);
      CountAppend(RowMajor(cells, row), SortedRow(cells, row), p);
      SortCount(RowCells(cells, row), ColLeq(), p);
      CountRow(cells, row, p);
      CountNextRow(cells, row, p);
    }
  }

  lemma {:induction false} CountNone(cells: seq<ColoredCell>, p: ColoredCell -> bool)
    ensures CountIf([], p) == 0 == CountIf(cells, (c: ColoredCell) => InGrid(c, 0) && p(c))
  {
    CountBounds(cells, (c: ColoredCell) => InGrid(c, 0) && p(c), 0);
  }

  lemma {:induction false} CountNextRow(cells: seq<ColoredCell>, row: nat, p: ColoredCell -> bool)
    ensures CountIf(cells, (c: ColoredCell) => InGrid(c, row + 1) && p(c))
         == CountIf(cells, (c: ColoredCell) => InGrid(c, row) && p(c)) + CountIf(cells, (c: ColoredCell) => c.row == row && p(c))
  {
    if cells != [] {
      CountNextRow(cells[..|cells| - 1], row, p);
    }
  }

  /**
    The encoding loses nothing and adds nothing: every position is painted in every colour exactly
    as often as a cell of that colour was given for it, whatever the list of cells.
  */
  lemma PaintedAsGiven(cells: seq<ColoredCell>, rows: nat, rects: seq<Rect>, row: int, col: int, color: Color)
    requires Encodes(rects, RowMajor(cells, rows))
    ensures TimesPainted(rects, row, col, color) == TimesGiven(cells, rows, row, col, color)
  {
    var p := (c: ColoredCell) => c == ColoredCell(row, col, color);
    CountExpanded(rects, row, col, color);
    CountRowMajor(cells, rows, p);
    CountSame(cells, (c: ColoredCell) => InGrid(c, rows) && p(c),
              (c: ColoredCell) => InGrid(c, rows) && c == ColoredCell(row, col, color));
    CountSame(Expand(rects), p, (c: ColoredCell) => c == ColoredCell(row, col, color));
  }

  // ---------- Cells on distinct positions

  ghost predicate DistinctPositions(cells: seq<ColoredCell>, rows: nat) {
    forall i, j :: 0 <= i < j < |cells| && InGrid(cells[i], rows) && InGrid(cells[j], rows) && cells[i].row == cells[j].row
      ==> cells[i].col != cells[j].col
  }

  predicate Overlap(a: Rect, b: Rect) {
    a.row == b.row && a.col < b.col + b.width && b.col < a.col + a.width
  }

  /** Strictly row by row, then column by column. */
  predicate Precedes(a: ColoredCell, b: ColoredCell) {
    a.row < b.row || (a.row == b.row && a.col < b.col)
  }

  ghost predicate InOrder(cells: seq<ColoredCell>) {
    forall i, j :: 0 <= i < j < |cells| ==> Precedes(cells[i], cells[j])
  }

  function At(row: int, col: int): ColoredCell -> bool {
    (c: ColoredCell) => c.row == row && c.col == col
  }

  /** Two hits count as two. */
  lemma {:induction false} CountTwo<T>(s: seq<T>, p: T -> bool, i: nat, j: nat)
    requires i < j < |s| && p(s[i]) && p(s[j])
    ensures CountIf(s, p) >= 2
  {
    var n := |s| - 1;
    if j < n {
      CountTwo(s[..n], p, i, j);
    } else {
      CountOne(s[..n], p, i);
    }
  }

  lemma {:induction false} CountOne<T>(s: seq<T>, p: T -> bool, i: nat)
    requires i < |s| && p(s[i])
    ensures CountIf(s, p) >= 1
  {
    var n := |s| - 1;
    if i < n {
      CountOne(s[..n], p, i);
    }
  }

  lemma {:induction false} FindOne<T>(s: seq<T>, p: T -> bool) returns (i: nat)
    requires CountIf(s, p) >= 1
    ensures i < |s| && p(s[i])
  {
    i := |s| - 1;
    if !p(s[i]) {
      i := FindOne(s[..|s| - 1], p);
    }
  }

  lemma {:induction false} FindTwo<T>(s: seq<T>, p: T -> bool) returns (i: nat, j: nat)
    requires CountIf(s, p) >= 2
    ensures i < j < |s| && p(s[i]) && p(s[j])
  {
    if p(s[|s| - 1]) {
      i := FindOne(s[..|s| - 1], p);
      j := |s| - 1;
    } else {
      i, j := FindTwo(s[..|s| - 1], p);
    }
  }

  /** Two places of the row-major list with one position come from two cells with that position. */
  lemma RowMajorDistinct(cells: seq<ColoredCell>, rows: nat, i: nat, j: nat)
    requires DistinctPositions(cells, rows) && i < j < |RowMajor(cells, rows)|
    ensures var s := RowMajor(cells, rows); !(s[i].row == s[j].row && s[i].col == s[j].col)
  {
    var s := RowMajor(cells, rows);
    if s[i].row == s[j].row && s[i].col == s[j].col {
      var p := At(s[i].row, s[i].col);
      CountTwo(s, p, i, j);
      CountRowMajor(cells, rows, p);
      var a, b := FindTwo(cells, (c: ColoredCell) => InGrid(c, rows) && p(c));
      assert false;
    }
  }

  lemma {:induction false} RowMajorInGrid(cells: seq<ColoredCell>, rows: nat)
    ensures forall i, j :: 0 <= i < j < |RowMajor(cells, rows)| ==>
              RowMajor(cells, rows)[i].row < RowMajor(cells, rows)[j].row
              || (RowMajor(cells, rows)[i].row == RowMajor(cells, rows)[j].row
                  && RowMajor(cells, rows)[i].col <= RowMajor(cells, rows)[j].col)
    ensures forall i :: 0 <= i < |RowMajor(cells, rows)| ==> InGrid(RowMajor(cells, rows)[i], rows)
    decreases rows
  {
    if rows > 0 {
      RowMajorInGrid(cells, rows - 1);
      SortedRowStaysInRow(cells, rows - 1);
      var early, late := RowMajor(cells, rows - 1), SortedRow(cells, rows - 1);
      forall i, j | 0 <= i < j < |late| ensures late[i].col <= late[j].col {
        assert ColLeq()(late[i], late[j]);
      }
    }
  }

  lemma RowMajorInOrder(cells: seq<ColoredCell>, rows: nat)
    requires DistinctPositions(cells, rows)
    ensures InOrder(RowMajor(cells, rows))
  {
    RowMajorInGrid(cells, rows);
    forall i: nat, j: nat | i < j < |RowMajor(cells, rows)|
      ensures Precedes(RowMajor(cells, rows)[i], RowMajor(cells, rows)[j])
    {
      RowMajorDistinct(cells, rows, i, j);
    }
  }

  function First(rect: Rect): ColoredCell {
    ColoredCell(rect.row, rect.col, rect.color)
  }

  function Last(rect: Rect): ColoredCell {
    ColoredCell(rect.row, rect.col + rect.width - 1, rect.color)
  }

  lemma {:induction false} EndsExpanded(rects: seq<Rect>, i: nat)
    requires i < |rects| && rects[i].width >= 1
    ensures First(rects[i]) in Expand(rects) && Last(rects[i]) in Expand(rects)
  {
    var n := |rects| - 1;
    if i < n {
      EndsExpanded(rects[..n], i);
    } else {
      assert Strip(rects[n])[0] == First(rects[n]) && Strip(rects[n])[rects[n].width - 1] == Last(rects[n]);
    }
  }

  lemma {:induction false} RectsInOrder(rects: seq<Rect>, i: nat, j: nat)
    requires i < j < |rects| && InOrder(Expand(rects))
    requires forall k :: 0 <= k < |rects| ==> rects[k].width >= 1
    ensures Precedes(Last(rects[i]), First(rects[j]))
  {
    var n := |rects| - 1;
    var early := Expand(rects[..n]);
    if j < n {
      forall a, b | 0 <= a < b < |early| ensures Precedes(early[a], early[b]) {
        assert early[a] == Expand(rects)[a] && early[b] == Expand(rects)[b];
      }
      RectsInOrder(rects[..n], i, j);
    } else {
      EndsExpanded(rects[..n], i);
      var a :| 0 <= a < |early| && early[a] == Last(rects[i]);
      assert Expand(rects)[|early|] == Strip(rects[n])[0] == First(rects[n]);
      assert Expand(rects)[a] == early[a];
    }
  }

  /**
    For cells on distinct positions the rectangles are as few as can be: they do not overlap, and
    two that touch in a row differ in colour, wherever they stand in the list.
  */
  lemma NoOverlapNoSeam(cells: seq<ColoredCell>, rows: nat, rects: seq<Rect>, i: nat, j: nat)
    requires Encodes(rects, RowMajor(cells, rows)) && DistinctPositions(cells, rows)
    requires i < |rects| && j < |rects| && i != j
    ensures !Overlap(rects[i], rects[j]) && !Mergeable(rects[i], rects[j])
  {
    hide RowMajor, Expand;
    RowMajorInOrder(cells, rows);
    if i < j {
      RectsInOrder(rects, i, j);
      if i + 1 < j {
        RectsInOrder(rects, i, i + 1);
        RectsInOrder(rects, i + 1, j);
      }
    } else {
      RectsInOrder(rects, j, i);
    }
  }

  /** Overlapping rectangles appear exactly when two cells of the grid share a position. */
  lemma DisjointIffDistinct(cells: seq<ColoredCell>, rows: nat, rects: seq<Rect>)
    requires Encodes(rects, RowMajor(cells, rows))
    ensures DistinctPositions(cells, rows)
        <==> (forall i, j :: 0 <= i < j < |rects| ==> !Overlap(rects[i], rects[j]))
  {
    if DistinctPositions(cells, rows) {
      forall i: nat, j: nat | i < j < |rects| ensures !Overlap(rects[i], rects[j]) {
        NoOverlapNoSeam(cells, rows, rects, i, j);
      }
    } else {
      var a, b :| 0 <= a < b < |cells| && InGrid(cells[a], rows) && InGrid(cells[b], rows)
                  && cells[a].row == cells[b].row && cells[a].col == cells[b].col;
      var i, j := SharedPositionOverlaps(cells, rows, rects, a, b);
    }
  }

  lemma SharedPositionOverlaps(cells: seq<ColoredCell>, rows: nat, rects: seq<Rect>, a: nat, b: nat)
    returns (i: nat, j: nat)
    requires Encodes(rects, RowMajor(cells, rows))
    requires a < b < |cells| && InGrid(cells[a], rows) && InGrid(cells[b], rows)
    requires cells[a].row == cells[b].row && cells[a].col == cells[b].col
    ensures i < j < |rects| && Overlap(rects[i], rects[j])
  {
    var row, col := cells[a].row, cells[a].col;
    var p := At(row, col);
    CountTwo(cells, (c: ColoredCell) => InGrid(c, rows) && p(c), a, b);
    CountRowMajor(cells, rows, p);
    CountPositions(rects, row, col);
    i, j := FindTwo(rects, (r: Rect) => r.row == row && r.col <= col < r.col + r.width);
  }

  lemma {:induction false} CountPositions(rects: seq<Rect>, row: int, col: int)
    ensures CountIf(Expand(rects), At(row, col))
         == CountIf(rects, (r: Rect) => r.row == row && r.col <= col < r.col + r.width)
  {
    if rects != [] {
      var rest, last := rects[..|rects| - 1], rects[|rects| - 1];
      CountPositions(rest, row, col);
      CountAppend(Expand(rest), Strip(last), At(row, col));
      CountStrip(last, row, col, last.color);
      CountSame(Strip(last), At(row, col), (c: ColoredCell) => c == ColoredCell(row, col, last.color));
    }
  }
}
