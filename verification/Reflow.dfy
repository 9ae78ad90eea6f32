/** Reflow: rows are joined into logical lines, and the lines cut again at a new width. */
module Reflow {
  import opened RenderModel
  import opened Text
  import opened Arith

  /** The cursor in the rows to reflow; `row` counts from the oldest row. */
  datatype CursorMark = CursorMark(row: nat, column: nat, pendingWrap: bool)

  datatype LogicalLine = LogicalLine(
    cells: seq<RenderCell>,
    handles: seq<RowHandle>,
    cursorOffset: Option<nat>,
    cursorPendingWrap: bool)

  const EMPTY_LINE := LogicalLine([], [], None, false)

  datatype Gathered = Gathered(lines: seq<LogicalLine>, current: LogicalLine)

  datatype CursorPlacement = CursorPlacement(row: nat, column: nat, pendingWrap: bool)

  datatype ReflowResult = ReflowResult(
    rows: seq<Row>,
    cursorRow: nat,
    cursorColumn: nat,
    pendingWrap: bool)

  /* ----- logical lines ----- */

  function CursorExtent(row: Row, index: nat, mark: CursorMark): (n: nat)
    ensures n <= |row.cells|
  {
    if index != mark.row then 0
    else if mark.pendingWrap then |row.cells|
    else Min(mark.column, |row.cells|)
  }

  function SegmentLen(row: Row, index: nat, mark: CursorMark, atLineStart: bool, columns: nat): (n: nat)
    ensures CursorExtent(row, index, mark) <= n <= |row.cells|
    ensures OccupiedCellCount(row.cells) <= n
    ensures row.wrapped ==> n == |row.cells|
  {
    if row.wrapped then |row.cells|
    else
      var preserved := if atLineStart then Min(|row.cells|, columns) else 0;
      Min(Max(Max(OccupiedCellCount(row.cells), preserved), CursorExtent(row, index, mark)), |row.cells|)
  }

  function CursorOffset(before: nat, row: Row, mark: CursorMark): nat {
    before + if mark.pendingWrap then Max(|row.cells| - 1, 0) else Min(mark.column, |row.cells|)
  }

  function AddRow(g: Gathered, row: Row, index: nat, mark: CursorMark, columns: nat): Gathered {
    var current := g.current;
    var segment := SegmentLen(row, index, mark, current.cells == [], columns);
    var here := index == mark.row;
    var next := LogicalLine(
      current.cells + row.cells[..segment],
      current.handles + [row.handle],
      if here then Some(CursorOffset(|current.cells|, row, mark)) else current.cursorOffset,
      if here then mark.pendingWrap else current.cursorPendingWrap);
    if row.wrapped then Gathered(g.lines, next) else Gathered(g.lines + [next], EMPTY_LINE)
  }

  function Gather(rows: seq<Row>, mark: CursorMark, columns: nat): Gathered {
    if rows == [] then Gathered([], EMPTY_LINE)
    else
      var n := |rows| - 1;
      AddRow(Gather(rows[..n], mark, columns), rows[n], n, mark, columns)
  }

  function Flush(g: Gathered): seq<LogicalLine> {
    if g.current.handles != [] || g.current.cells != [] then g.lines + [g.current] else g.lines
  }

  function GroupedLines(rows: seq<Row>, mark: CursorMark, columns: nat): seq<LogicalLine> {
    Flush(Gather(rows, mark, columns))
  }

  method LogicalLines(rows: seq<Row>, mark: CursorMark, columns: nat) returns (lines: seq<LogicalLine>)
    ensures lines == GroupedLines(rows, mark, columns)
  {
    lines := [];
    var current := EMPTY_LINE;
    for index := 0 to |rows|
      invariant Gathered(lines, current) == Gather(rows[..index], mark, columns)
    {
      assert rows[..index + 1][..index] == rows[..index];
      var row := rows[index];
      var segmentLen := SegmentLen(row, index, mark, current.cells == [], columns);
      if index == mark.row {
        current := current.(
          cursorOffset := Some(CursorOffset(|current.cells|, row, mark)),
          cursorPendingWrap := mark.pendingWrap);
      }
      current := current.(handles := current.handles + [row.handle]);
      current := current.(cells := current.cells + row.cells[..segmentLen]);
      if !row.wrapped {
        lines := lines + [current];
        current := EMPTY_LINE;
      }
    }
    assert rows[..|rows|] == rows;
    if current.handles != [] || current.cells != [] {
      lines := lines + [current];
    }
  }

  /* ----- blanks that keep a wide pair on one row ----- */

  predicate LastColumn(offset: nat, columns: nat)
    requires columns > 0
  {
    offset % columns == columns - 1
  }

  function Spaced(cells: seq<RenderCell>, columns: nat): (r: seq<RenderCell>)
    requires columns > 0
    ensures |cells| <= |r|
  {
    if cells == [] then []
    else
      var n := |cells| - 1;
      var front := Spaced(cells[..n], columns);
      if cells[n].width > 1 && LastColumn(|front|, columns)
      then front + [EMPTY_CELL, cells[n]]
      else front + [cells[n]]
  }

  function SpacedLine(line: LogicalLine, columns: nat): LogicalLine
    requires columns > 0
  {
    line.(
    cells := Spaced(line.cells, columns),
    cursorOffset :=
      if line.cursorOffset.Some? && line.cursorOffset.value <= |line.cells|
      then Some(|Spaced(line.cells[..line.cursorOffset.value], columns)|)
      else None)
  }

  method WithWideBoundarySpacers(line: LogicalLine, columns: nat) returns (spaced: LogicalLine)
    requires columns > 0
    ensures spaced == SpacedLine(line, columns)
  {
    var cursorOffset := None;
    var cells := [];
    for index := 0 to |line.cells|
      invariant cells == Spaced(line.cells[..index], columns)
      invariant cursorOffset ==
        if line.cursorOffset.Some? && line.cursorOffset.value < index
        then Some(|Spaced(line.cells[..line.cursorOffset.value], columns)|) else None
    {
      assert line.cells[..index + 1][..index] == line.cells[..index];
      var cell := line.cells[index];
      if line.cursorOffset == Some(index) {
        cursorOffset := Some(|cells|);
      }
      if cell.width > 1 && |cells| % columns == columns - 1 {
        cells := cells + [EMPTY_CELL];
      }
      cells := cells + [cell];
    }
    assert line.cells[..|line.cells|] == line.cells;
    if line.cursorOffset == Some(|line.cells|) {
      cursorOffset := Some(|cells|);
    }
    spaced := line.(cells := cells, cursorOffset := cursorOffset);
  }

  /* ----- cutting a line at the new width ----- */

  /** Rows needed for a line of `len` cells: at least one, and no more than it takes. */
  function VisualCount(len: nat, columns: nat): (n: nat)
    requires columns > 0
    ensures n >= 1
    ensures (n - 1) * columns < Max(len, 1) <= n * columns
  {
    (Max(len, 1) + columns - 1) / columns
  }

  function CutRow(line: LogicalLine, columns: nat, index: nat, nextRowId: nat): Row
    requires columns > 0
    requires index < VisualCount(|line.cells|, columns)
  {
    MulMono(index, VisualCount(|line.cells|, columns) - 1, columns);
    var start := index * columns;
    var end := Min(start + columns, |line.cells|);
    Row(
      if index < |line.handles| then NextGeneration(line.handles[index])
      else RowHandle(nextRowId + (index - |line.handles|), 0),
      Resized(line.cells[start..end], columns),
      end < |line.cells|)
  }

  function CutRows(line: LogicalLine, columns: nat, nextRowId: nat): (rows: seq<Row>)
    requires columns > 0
    ensures |rows| == VisualCount(|line.cells|, columns)
    ensures AllWidth(rows, columns)
  {
    var n := VisualCount(|line.cells|, columns);
    seq(n, i requires 0 <= i < n => CutRow(line, columns, i, nextRowId))
  }

  function IdAfterCut(line: LogicalLine, columns: nat, nextRowId: nat): (next: nat)
    requires columns > 0
    ensures next >= nextRowId
  {
    nextRowId + Max(VisualCount(|line.cells|, columns) - |line.handles|, 0)
  }

  method VisualRows(line: LogicalLine, columns: nat, nextRowId: nat) returns (rows: seq<Row>, next: nat)
    requires columns > 0
    ensures rows == CutRows(line, columns, nextRowId)
    ensures next == IdAfterCut(line, columns, nextRowId)
  {
    var visualCount := VisualCount(|line.cells|, columns);
    rows, next := [], nextRowId;
    for index := 0 to visualCount
      invariant rows == CutRows(line, columns, nextRowId)[..index]
      invariant next == nextRowId + Max(index - |line.handles|, 0)
    {
      MulMono(index, visualCount - 1, columns);
      var start := index * columns;
      var end := Min(start + columns, |line.cells|);
      var cells := Resized(line.cells[start..end], columns);
      var handle;
      if index < |line.handles| {
        handle := NextGeneration(line.handles[index]);
      } else {
        handle := RowHandle(next, 0);
        next := next + 1;
      }
      rows := rows + [Row(handle, cells, end < |line.cells|)];
    }
  }

  function PlaceCursor(offset: nat, lineLen: nat, columns: nat, pendingWrap: bool): CursorPlacement
    requires columns > 0
  {
    if pendingWrap then
      var column := Min(offset % columns, columns - 1);
      CursorPlacement(offset / columns, column, column == columns - 1)
    else if lineLen > 0 && offset >= lineLen && lineLen % columns == 0 then
      CursorPlacement(Max(lineLen / columns - 1, 0), columns - 1, true)
    else
      CursorPlacement(offset / columns, Min(offset % columns, columns - 1), false)
  }

  /* ----- the whole reflow ----- */

  datatype Progress = Progress(result: ReflowResult, nextRowId: nat)

  function AddLine(p: Progress, source: LogicalLine, columns: nat): Progress
    requires columns > 0
  {
    var line := SpacedLine(source, columns);
    var rows := p.result.rows + CutRows(line, columns, p.nextRowId);
    Progress(
      if line.cursorOffset.None? then p.result.(rows := rows)
      else
        var placement := PlaceCursor(line.cursorOffset.value, |line.cells|, columns, line.cursorPendingWrap);
        ReflowResult(rows, |p.result.rows| + placement.row, placement.column, placement.pendingWrap),
      IdAfterCut(line, columns, p.nextRowId))
  }

  function AddLines(lines: seq<LogicalLine>, columns: nat, nextRowId: nat): Progress
    requires columns > 0
  {
    if lines == [] then Progress(ReflowResult([], 0, 0, false), nextRowId)
    else AddLine(AddLines(lines[..|lines| - 1], columns, nextRowId), lines[|lines| - 1], columns)
  }

  function Reflowed(rows: seq<Row>, mark: CursorMark, columns: nat, nextRowId: nat): Progress
    requires columns > 0
  {
    var p := AddLines(GroupedLines(rows, mark, columns), columns, nextRowId);
    if p.result.rows == [] then
      Progress(p.result.(rows := [BlankRow(columns, p.nextRowId)]), p.nextRowId + 1)
    else p
  }

  method ReflowRows(rows: seq<Row>, mark: CursorMark, columns: nat, nextRowId: nat)
    returns (result: ReflowResult, next: nat)
    requires columns > 0
    ensures Progress(result, next) == Reflowed(rows, mark, columns, nextRowId)
  {
    var logicalLines := LogicalLines(rows, mark, columns);
    var output := [];
    var cursorRow: nat, cursorColumn: nat, pendingWrap := 0, 0, false;
    next := nextRowId;
    for k := 0 to |logicalLines|
      invariant Progress(ReflowResult(output, cursorRow, cursorColumn, pendingWrap), next) ==
        AddLines(logicalLines[..k], columns, nextRowId)
    {
      assert logicalLines[..k + 1][..k] == logicalLines[..k];
      var line := WithWideBoundarySpacers(logicalLines[k], columns);
      var lineStart := |output|;
      var visual;
      visual, next := VisualRows(line, columns, next);
      if line.cursorOffset.Some? {
        var placement := PlaceCursor(line.cursorOffset.value, |line.cells|, columns, line.cursorPendingWrap);
        cursorRow := lineStart + placement.row;
        cursorColumn := placement.column;
        pendingWrap := placement.pendingWrap;
      }
      output := output + visual;
    }
    assert logicalLines[..|logicalLines|] == logicalLines;
    if output == [] {
      output := output + [BlankRow(columns, next)];
      next := next + 1;
    }
    result := ReflowResult(output, cursorRow, cursorColumn, pendingWrap);
  }
}
