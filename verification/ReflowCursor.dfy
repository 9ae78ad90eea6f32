/** Reflow keeps the cursor at its place in the text. */
module ReflowCursor {
  import opened RenderModel
  import opened Text
  import opened Arith
  import opened Reflow
  import opened ReflowText

  /** The column the cursor stands on; while a wrap is pending, the last one of its row. */
  function CursorCell(rows: seq<Row>, mark: CursorMark): nat
    requires mark.row < |rows|
  {
    if mark.pendingWrap then Max(|rows[mark.row].cells| - 1, 0) else mark.column
  }

  ghost predicate MarkInside(rows: seq<Row>, mark: CursorMark) {
    mark.row < |rows| && mark.column < |rows[mark.row].cells|
  }

  /** Line `at` alone holds the cursor, at `offset`. */
  ghost predicate CursorOn(lines: seq<LogicalLine>, at: nat, offset: nat, pendingWrap: bool) {
    && at < |lines|
    && lines[at].cursorOffset == Some(offset)
    && lines[at].cursorPendingWrap == pendingWrap
    && offset <= |lines[at].cells|
    && (pendingWrap ==> offset < |lines[at].cells|)
    && forall k :: 0 <= k < |lines| && k != at ==> lines[k].cursorOffset.None?
  }

  ghost predicate NoCursor(lines: seq<LogicalLine>) {
    forall k :: 0 <= k < |lines| ==> lines[k].cursorOffset.None?
  }

  function LineAt(g: Gathered, k: nat): LogicalLine
    requires k <= |g.lines|
  {
    if k < |g.lines| then g.lines[k] else g.current
  }

  /** The same, counting the line still being gathered. */
  ghost predicate CursorIn(g: Gathered, at: nat, offset: nat, pendingWrap: bool) {
    && at <= |g.lines|
    && LineAt(g, at).cursorOffset == Some(offset)
    && LineAt(g, at).cursorPendingWrap == pendingWrap
    && offset <= |LineAt(g, at).cells|
    && (pendingWrap ==> offset < |LineAt(g, at).cells|)
    && forall k :: 0 <= k <= |g.lines| && k != at ==> LineAt(g, k).cursorOffset.None?
  }

  ghost predicate CursorNowhere(g: Gathered) {
    forall k :: 0 <= k <= |g.lines| ==> LineAt(g, k).cursorOffset.None?
  }

  lemma {:induction false} GatherNoCursor(rows: seq<Row>, mark: CursorMark, columns: nat)
    requires mark.row >= |rows|
    ensures CursorNowhere(Gather(rows, mark, columns))
  {
    if rows == [] {
    } else {
      var n := |rows| - 1;
      GatherNoCursor(rows[..n], mark, columns);
      var g := Gather(rows[..n], mark, columns);
      assert LineAt(g, |g.lines|) == g.current;
      assert forall k :: 0 <= k < |g.lines| ==> LineAt(g, k) == g.lines[k];
    }
  }

  lemma AddRowKeepsCursor(g: Gathered, row: Row, index: nat, mark: CursorMark, columns: nat, at: nat, offset: nat)
    requires CursorIn(g, at, offset, mark.pendingWrap) && index != mark.row
    ensures CursorIn(AddRow(g, row, index, mark, columns), at, offset, mark.pendingWrap)
  {
    var h := AddRow(g, row, index, mark, columns);
    assert LineAt(g, |g.lines|) == g.current;
    assert forall k :: 0 <= k < |g.lines| ==> LineAt(g, k) == g.lines[k] == LineAt(h, k);
  }

  lemma AddRowPutsCursor(g: Gathered, row: Row, mark: CursorMark, columns: nat)
    requires CursorNowhere(g) && mark.column < |row.cells|
    ensures CursorIn(AddRow(g, row, mark.row, mark, columns),
                     |g.lines|, CursorOffset(|g.current.cells|, row, mark), mark.pendingWrap)
  {
    var h := AddRow(g, row, mark.row, mark, columns);
    assert forall k :: 0 <= k < |g.lines| ==> LineAt(g, k) == g.lines[k] == LineAt(h, k);
  }

  lemma {:induction false} GatherCursor(rows: seq<Row>, mark: CursorMark, columns: nat)
    requires MarkInside(rows, mark)
    ensures var p := PositionOf(rows, mark.row, CursorCell(rows, mark));
            CursorIn(Gather(rows, mark, columns), p.line, p.offset, mark.pendingWrap)
  {
    hide AddRow, LineAt, SegmentLen, CursorIn, CursorNowhere;
    var n := |rows| - 1;
    var g := Gather(rows[..n], mark, columns);
    var p := PositionOf(rows, mark.row, CursorCell(rows, mark));
    assert rows[..mark.row] == rows[..n][..mark.row];
    if mark.row == n {
      GatherNoCursor(rows[..n], mark, columns);
      GatherIsJoin(rows[..n], mark, columns);
      AddRowPutsCursor(g, rows[n], mark, columns);
    } else {
      GatherCursor(rows[..n], mark, columns);
      AddRowKeepsCursor(g, rows[n], n, mark, columns, p.line, p.offset);
    }
  }

  lemma {:induction false} GroupedCursor(rows: seq<Row>, mark: CursorMark, columns: nat)
    requires MarkInside(rows, mark)
    ensures var p := PositionOf(rows, mark.row, CursorCell(rows, mark));
            CursorOn(GroupedLines(rows, mark, columns), p.line, p.offset, mark.pendingWrap)
  {
    GatherCursor(rows, mark, columns);
    GatherIsJoin(rows, mark, columns);
    var g := Gather(rows, mark, columns);
    var lines := GroupedLines(rows, mark, columns);
    assert LineAt(g, |g.lines|) == g.current;
    assert forall k :: 0 <= k < |lines| ==> LineAt(g, k) == lines[k];
  }

  /* ----- placing an offset on the grid ----- */

  /** The placed cell encodes the offset; past the end of a full line it is the last cell instead. */
  lemma {:induction false} PlacementEncodesOffset(offset: nat, lineLen: nat, columns: nat, pendingWrap: bool)
    requires columns > 0 && offset <= lineLen && (pendingWrap ==> offset < lineLen)
    ensures var c := PlaceCursor(offset, lineLen, columns, pendingWrap);
            && c.row < VisualCount(lineLen, columns)
            && c.column < columns
            && (c.pendingWrap ==> c.column == columns - 1)
            && c.row * columns + c.column == (if c.pendingWrap && !pendingWrap then offset - 1 else offset)
            && (c.pendingWrap <==>
                if pendingWrap then offset % columns == columns - 1
                else offset == lineLen && lineLen > 0 && lineLen % columns == 0)
  {
    var c := PlaceCursor(offset, lineLen, columns, pendingWrap);
    var n := VisualCount(lineLen, columns);
    assert offset == (offset / columns) * columns + offset % columns;
    assert lineLen == (lineLen / columns) * columns + lineLen % columns;
    if !pendingWrap && lineLen > 0 && offset >= lineLen && lineLen % columns == 0 {
      var q := lineLen / columns;
      assert q > 0;
      assert (q - 1) * columns + columns == q * columns;
      assert (q - 1) * columns + (columns - 1) < n * columns;
      DivUnique(q - 1, columns - 1, columns);
      DivBelow((q - 1) * columns + (columns - 1), n, columns);
    } else {
      if offset == lineLen && lineLen > 0 && offset == n * columns {
        DivUnique(n, 0, columns);
      }
      DivBelow(offset, n, columns);
    }
  }

  /* ----- the cursor in the output ----- */

  lemma {:induction false} AddLinesNoCursor(lines: seq<LogicalLine>, columns: nat, id: nat)
    requires columns > 0 && NoCursor(lines)
    ensures var r := AddLines(lines, columns, id).result;
            r.cursorRow == 0 && r.cursorColumn == 0 && !r.pendingWrap
  {
    if lines == [] {
    } else {
      AddLinesNoCursor(lines[..|lines| - 1], columns, id);
    }
  }

  lemma {:induction false} AddLinesPrefix(lines: seq<LogicalLine>, k: nat, columns: nat, id: nat)
    requires columns > 0 && k <= |lines|
    ensures AddLines(lines[..k], columns, id).result.rows <= AddLines(lines, columns, id).result.rows
    decreases |lines|
  {
    if k < |lines| {
      AddLinesPrefix(lines[..|lines| - 1], k, columns, id);
      assert lines[..|lines| - 1][..k] == lines[..k];
    } else {
      assert lines[..k] == lines;
    }
  }

  lemma {:induction false} AddLinesCursor(
    lines: seq<LogicalLine>, at: nat, offset: nat, pendingWrap: bool, columns: nat, id: nat)
    requires columns > 0 && CursorOn(lines, at, offset, pendingWrap)
    ensures var r := AddLines(lines, columns, id).result;
            var c := PlaceCursor(
                       |Spaced(lines[at].cells[..offset], columns)|, |Spaced(lines[at].cells, columns)|,
                       columns, pendingWrap);
            && r.cursorRow == |AddLines(lines[..at], columns, id).result.rows| + c.row
            && r.cursorColumn == c.column && r.pendingWrap == c.pendingWrap
    decreases |lines|
  {
    hide Spaced, CutRows, PlaceCursor;
    var n := |lines| - 1;
    if at == n {
      assert lines[..at] == lines[..n];
      AddLinesNoCursor(lines[..n], columns, id);
    } else {
      AddLinesCursor(lines[..n], at, offset, pendingWrap, columns, id);
      assert lines[..n][..at] == lines[..at];
      assert SpacedLine(lines[n], columns).cursorOffset.None?;
    }
  }

  lemma {:induction false} RowsOfLine(lines: seq<LogicalLine>, at: nat, columns: nat, id: nat, k: nat)
    requires columns > 0 && at < |lines|
    requires k < VisualCount(|Spaced(lines[at].cells, columns)|, columns)
    ensures var rows := AddLines(lines, columns, id).result.rows;
            var start := |AddLines(lines[..at], columns, id).result.rows|;
            && start + k < |rows|
            && PositionOf(rows, start + k, 0) == Position(at, k * columns)
  {
    hide Spaced, CutRows, PlaceCursor, JoinAll;
    var before := AddLines(lines[..at], columns, id);
    var start := |before.result.rows|;
    var line := SpacedLine(lines[at], columns);
    var cut := CutRows(line, columns, before.nextRowId);
    var upTo := AddLines(lines[..at + 1], columns, id).result.rows;
    assert upTo == before.result.rows + cut by {
      assert lines[..at + 1][..at] == lines[..at];
    }
    var rows := AddLines(lines, columns, id).result.rows;
    assert rows[..start + k] == before.result.rows + cut[..k] by {
      AddLinesPrefix(lines, at + 1, columns, id);
    }
    LineStart(before.result.rows, lines[..at], line, columns, id, before.nextRowId, k);
    assert start + k < |rows| by {
      AddLinesPrefix(lines, at + 1, columns, id);
    }
  }

  lemma {:induction false} LineStart(
    before: seq<Row>, lines: seq<LogicalLine>, line: LogicalLine, columns: nat, id: nat, next: nat,
    k: nat)
    requires columns > 0 && before == AddLines(lines, columns, id).result.rows
    requires k < VisualCount(|line.cells|, columns)
    ensures var j := JoinAll(NOTHING, before + CutRows(line, columns, next)[..k]);
            |j.closed| == |lines| && |j.open| == k * columns
  {
    var cut := CutRows(line, columns, next);
    JoinAllAppend(NOTHING, before, cut[..k]);
    AddLinesJoins(lines, columns, id);
    var j := JoinAll(NOTHING, before);
    CutJoinsPrefix(j.closed, line, columns, next, k);
  }

  lemma {:induction false} LinesKeepCursor(
    lines: seq<LogicalLine>, at: nat, offset: nat, pendingWrap: bool, columns: nat, id: nat)
    requires columns > 0 && CursorOn(lines, at, offset, pendingWrap)
    ensures var r := AddLines(lines, columns, id).result;
            var moved := |Spaced(lines[at].cells[..offset], columns)|;
            && r.cursorRow < |r.rows| && r.cursorColumn < columns
            && (r.pendingWrap ==> r.cursorColumn == columns - 1)
            && PositionOf(r.rows, r.cursorRow, r.cursorColumn) ==
               Position(at, if r.pendingWrap && !pendingWrap then moved - 1 else moved)
            && (r.pendingWrap <==>
                if pendingWrap then moved % columns == columns - 1
                else offset == |lines[at].cells| && moved > 0 && moved % columns == 0)
  {
    var cells := lines[at].cells;
    var moved, len := |Spaced(cells[..offset], columns)|, |Spaced(cells, columns)|;
    SpacedSplit(cells, offset, columns);
    assert offset == |cells| ==> cells[..offset] == cells;
    PlacementEncodesOffset(moved, len, columns, pendingWrap);
    AddLinesCursor(lines, at, offset, pendingWrap, columns, id);
    var c := PlaceCursor(moved, len, columns, pendingWrap);
    RowsOfLine(lines, at, columns, id, c.row);
  }

  /** Offset of `source` in its line, after the blanks inserted before it. */
  ghost function Moved(rows: seq<Row>, source: Position, columns: nat): nat
    requires columns > 0
    requires source.line < |Lines(rows)| && 0 <= source.offset <= |Lines(rows)[source.line]|
  {
    |Spaced(Lines(rows)[source.line][..source.offset], columns)|
  }

  /** The cursor stands right after the last cell that the reflow keeps of its line. */
  ghost predicate AtLineEnd(rows: seq<Row>, mark: CursorMark, columns: nat, source: Position) {
    var lines := GroupedLines(rows, mark, columns);
    source.line < |lines| && source.offset == |lines[source.line].cells|
  }

  lemma {:induction false} CursorLineExists(rows: seq<Row>, mark: CursorMark, columns: nat)
    requires MarkInside(rows, mark)
    ensures var source := PositionOf(rows, mark.row, CursorCell(rows, mark));
            var lines := GroupedLines(rows, mark, columns);
            && source.line < |Lines(rows)| && 0 <= source.offset <= |Lines(rows)[source.line]|
            && CursorOn(lines, source.line, source.offset, mark.pendingWrap)
            && lines[source.line].cells[..source.offset] == Lines(rows)[source.line][..source.offset]
  {
    GroupedCursor(rows, mark, columns);
    GroupedLinesAreLines(rows, mark, columns);
  }

  /** Where a reflow puts the cursor. The line is the same; the offset is the old one plus the
      blanks inserted before it, except that the end of an exactly full line becomes the last
      column with a wrap pending. */
  lemma {:induction false} ReflowKeepsCursor(rows: seq<Row>, mark: CursorMark, columns: nat, id: nat)
    requires columns > 0 && MarkInside(rows, mark)
    ensures var r := Reflowed(rows, mark, columns, id).result;
            && r.cursorRow < |r.rows| && r.cursorColumn < columns
            && (r.pendingWrap ==> r.cursorColumn == columns - 1)
    ensures var r := Reflowed(rows, mark, columns, id).result;
            var source := PositionOf(rows, mark.row, CursorCell(rows, mark));
            && source.line < |Lines(rows)| && 0 <= source.offset <= |Lines(rows)[source.line]|
            && var moved := Moved(rows, source, columns);
            && PositionOf(r.rows, r.cursorRow, r.cursorColumn) ==
               Position(source.line, if r.pendingWrap && !mark.pendingWrap then moved - 1 else moved)
            && (r.pendingWrap <==>
                if mark.pendingWrap then moved % columns == columns - 1
                else AtLineEnd(rows, mark, columns, source) && moved > 0 && moved % columns == 0)
  {
    var source := PositionOf(rows, mark.row, CursorCell(rows, mark));
    CursorLineExists(rows, mark, columns);
    LinesKeepCursor(GroupedLines(rows, mark, columns), source.line, source.offset, mark.pendingWrap, columns, id);
  }
}
