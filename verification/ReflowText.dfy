/** Reflow keeps the text: same lines, and at most a blank in front of a wide lead. */
module ReflowText {
  import opened RenderModel
  import opened Text
  import opened Arith
  import opened Reflow

  /** `short` is `full` without some of its empty tail. */
  ghost predicate Trimmed(short: seq<RenderCell>, full: seq<RenderCell>) {
    |short| <= |full| && short == full[..|short|] && AllEmpty(full[|short|..])
  }

  /* ----- grouping rows into lines ----- */

  /** Grouping agrees with joining, up to empty cells at the ends of lines. */
  ghost predicate GatherJoins(g: Gathered, j: Joined) {
    && g.current.cells == j.open
    && (j.isOpen <==> g.current.handles != [])
    && (!j.isOpen ==> g.current == EMPTY_LINE && j.open == [])
    && |g.lines| == |j.closed|
    && forall k :: 0 <= k < |g.lines| ==> Trimmed(g.lines[k].cells, j.closed[k])
  }

  lemma {:induction false} AddRowJoins(g: Gathered, j: Joined, row: Row, index: nat, mark: CursorMark, columns: nat)
    requires GatherJoins(g, j)
    ensures GatherJoins(AddRow(g, row, index, mark, columns), Join(j, row))
  {
    var n := SegmentLen(row, index, mark, g.current.cells == [], columns);
    var h := AddRow(g, row, index, mark, columns);
    if !row.wrapped {
      var short, full := g.current.cells + row.cells[..n], j.open + row.cells;
      assert full[|short|..] == row.cells[n..];
      assert short == full[..|short|];
      assert Trimmed(short, full);
      assert h.lines == g.lines + [h.lines[|g.lines|]] && h.lines[|g.lines|].cells == short;
    } else {
      assert row.cells[..n] == row.cells;
    }
  }

  lemma {:induction false} GatherIsJoin(rows: seq<Row>, mark: CursorMark, columns: nat)
    ensures GatherJoins(Gather(rows, mark, columns), JoinAll(NOTHING, rows))
  {
    if rows == [] {
    } else {
      var n := |rows| - 1;
      GatherIsJoin(rows[..n], mark, columns);
      AddRowJoins(Gather(rows[..n], mark, columns), JoinAll(NOTHING, rows[..n]), rows[n], n, mark, columns);
    }
  }

  lemma {:induction false} GroupedLinesAreLines(rows: seq<Row>, mark: CursorMark, columns: nat)
    ensures |GroupedLines(rows, mark, columns)| == |Lines(rows)|
    ensures forall k :: 0 <= k < |Lines(rows)| ==>
                          Trimmed(GroupedLines(rows, mark, columns)[k].cells, Lines(rows)[k])
  {
    GatherIsJoin(rows, mark, columns);
  }

  /* ----- boundary blanks ----- */

  ghost predicate NoWide(cells: seq<RenderCell>) {
    forall i :: 0 <= i < |cells| ==> cells[i].width <= 1
  }

  /** No lead in the last column of a row of width `columns`. */
  ghost predicate LeadsFit(cells: seq<RenderCell>, columns: nat)
    requires columns > 0
  {
    forall i :: 0 <= i < |cells| && cells[i].width > 1 ==> !LastColumn(i, columns)
  }

  /** `out` is `cells` plus empty cells, each put directly in front of a wide lead. */
  ghost predicate BlankInsertion(cells: seq<RenderCell>, out: seq<RenderCell>) {
    if cells == [] then out == []
    else
      var n, m := |cells| - 1, |out| - 1;
      && m >= 0
      && out[m] == cells[n]
      && (|| BlankInsertion(cells[..n], out[..m])
          || (m > 0 && cells[n].width > 1 && out[m - 1] == EMPTY_CELL && BlankInsertion(cells[..n], out[..m - 1])))
  }

  lemma {:induction false} SpacedInsertsBlanks(cells: seq<RenderCell>, columns: nat)
    requires columns > 0
    ensures BlankInsertion(cells, Spaced(cells, columns))
    ensures NoWide(cells) ==> Spaced(cells, columns) == cells
  {
    hide LastColumn, BlankInsertion;
    if cells == [] {
      NothingInserted();
    } else {
      var n := |cells| - 1;
      SpacedInsertsBlanks(cells[..n], columns);
      InsertsOneMore(cells, Spaced(cells[..n], columns), Spaced(cells, columns));
      assert cells == cells[..n] + [cells[n]];
    }
  }

  lemma NothingInserted()
    ensures BlankInsertion([], [])
  {
  }

  lemma InsertsOneMore(cells: seq<RenderCell>, front: seq<RenderCell>, out: seq<RenderCell>)
    requires cells != [] && BlankInsertion(cells[..|cells| - 1], front)
    requires var last := cells[|cells| - 1];
             out == front + [last] || (last.width > 1 && out == front + [EMPTY_CELL, last])
    ensures BlankInsertion(cells, out)
  {
    assert out[..|front|] == front;
  }

  /** Spacing leaves a line alone exactly when no wide lead would start in the last column. */
  lemma {:induction false} SpacedIsSameIff(cells: seq<RenderCell>, columns: nat)
    requires columns > 0
    ensures Spaced(cells, columns) == cells <==> LeadsFit(cells, columns)
    ensures Spaced(cells, columns) == cells <==> |Spaced(cells, columns)| == |cells|
  {
    hide LastColumn;
    if cells == [] {
    } else {
      var n := |cells| - 1;
      SpacedIsSameIff(cells[..n], columns);
      assert cells == cells[..n] + [cells[n]];
      LeadsFitOneMore(cells, columns);
    }
  }

  lemma LeadsFitOneMore(cells: seq<RenderCell>, columns: nat)
    requires columns > 0 && cells != []
    ensures var n := |cells| - 1;
            LeadsFit(cells, columns) <==>
            LeadsFit(cells[..n], columns) && (cells[n].width > 1 ==> !LastColumn(n, columns))
  {
    hide LastColumn;
    var front := cells[..|cells| - 1];
    assert forall i :: 0 <= i < |front| ==> front[i] == cells[i];
  }

  lemma {:induction false} SpacedSplit(cells: seq<RenderCell>, n: nat, columns: nat)
    requires columns > 0 && n <= |cells|
    ensures Spaced(cells[..n], columns) <= Spaced(cells, columns)
    ensures n < |cells| ==> |Spaced(cells[..n], columns)| < |Spaced(cells, columns)|
    decreases |cells| - n
  {
    if n == |cells| {
      assert cells[..n] == cells;
    } else {
      SpacedSplit(cells, n + 1, columns);
      assert cells[..n + 1][..n] == cells[..n];
    }
  }

  lemma {:induction false} SpacedKeepsTail(cells: seq<RenderCell>, tail: seq<RenderCell>, columns: nat)
    requires columns > 0 && NoWide(tail)
    ensures Spaced(cells + tail, columns) == Spaced(cells, columns) + tail
  {
    if tail == [] {
      assert cells + tail == cells;
    } else {
      var n := |tail| - 1;
      assert (cells + tail)[..|cells| + n] == cells + tail[..n];
      SpacedKeepsTail(cells, tail[..n], columns);
      assert tail == tail[..n] + [tail[n]];
    }
  }

  lemma {:induction false} StripSpaced(cells: seq<RenderCell>, columns: nat)
    requires columns > 0
    ensures Strip(Spaced(cells, columns)) == Spaced(Strip(cells), columns)
  {
    var s, n := Strip(cells), OccupiedCellCount(cells);
    var tail := cells[n..];
    assert cells == s + tail;
    SpacedKeepsTail(s, tail, columns);
    StripIgnoresEmptyTail(Spaced(s, columns), tail);
    var spaced := Spaced(s, columns);
    if n > 0 {
      assert spaced[|spaced| - 1] == s[n - 1] == cells[n - 1];
      assert OccupiedCellCount(spaced) == |spaced|;
    }
    assert Strip(spaced) == spaced;
  }

  lemma {:induction false} StripTrimmed(short: seq<RenderCell>, full: seq<RenderCell>)
    requires Trimmed(short, full)
    ensures Strip(short) == Strip(full)
  {
    assert full == short + full[|short|..];
    StripIgnoresEmptyTail(short, full[|short|..]);
  }

  /* ----- cutting lines into rows ----- */

  lemma LastRowStart(len: nat, columns: nat, n: nat, start: nat)
    requires columns > 0 && n + 1 == VisualCount(len, columns) && start == n * columns
    ensures start <= len <= start + columns == (n + 1) * columns
  {
    assert (n + 1) * columns == start + columns;
  }

  lemma RowContents(line: LogicalLine, columns: nat, id: nat, n: nat, start: nat)
    requires columns > 0 && n < VisualCount(|line.cells|, columns) && start == n * columns
    requires start <= |line.cells|
    ensures var row, end := CutRows(line, columns, id)[n], Min(start + columns, |line.cells|);
            row.cells == Resized(line.cells[start..end], columns) && (row.wrapped <==> end < |line.cells|)
  {
  }

  lemma JoinLast(j: Joined, rows: seq<Row>)
    requires rows != []
    ensures JoinAll(j, rows) == Join(JoinAll(j, rows[..|rows| - 1]), rows[|rows| - 1])
  {
  }


  /** Cell `start` is the first of row `k`. The product is kept out of the proofs below. */
  predicate StartsRow(start: nat, k: nat, columns: nat) {
    start == k * columns
  }

  lemma RowStart(len: nat, columns: nat, k: nat, start: nat)
    requires columns > 0 && k < VisualCount(len, columns) && StartsRow(start, k, columns)
    ensures start <= len
    ensures k > 0 ==> columns <= start && StartsRow(start - columns, k - 1, columns)
  {
    MulMono(k, VisualCount(len, columns) - 1, columns);
    assert k > 0 ==> (k - 1) * columns + columns == k * columns;
  }

  lemma RowContentsAt(line: LogicalLine, columns: nat, id: nat, k: nat, start: nat)
    requires columns > 0 && k < VisualCount(|line.cells|, columns) && StartsRow(start, k, columns)
    requires start + columns <= |line.cells|
    ensures CutRows(line, columns, id)[k].cells == Resized(line.cells[start..start + columns], columns)
  {
    RowContents(line, columns, id, k, start);
  }

  lemma {:induction false} CutJoinsFront(
    closed: seq<seq<RenderCell>>, line: LogicalLine, columns: nat, id: nat, k: nat, start: nat)
    requires columns > 0 && k < VisualCount(|line.cells|, columns) && StartsRow(start, k, columns)
    ensures start <= |line.cells| && (k == 0 ==> start == 0)
    ensures JoinAll(Joined(closed, [], false), CutRows(line, columns, id)[..k]) ==
            Joined(closed, line.cells[..start], k > 0)
  {
    hide CutRows, VisualCount, StartsRow, JoinAll, Resized;
    var rows := CutRows(line, columns, id);
    RowStart(|line.cells|, columns, k, start);
    if k == 0 {
      FirstRowStart(columns, start);
      JoinNothing(Joined(closed, [], false), rows[..k]);
      assert line.cells[..0] == [];
    } else {
      CutJoinsFront(closed, line, columns, id, k - 1, start - columns);
      RowContentsAt(line, columns, id, k - 1, start - columns);
      RowIsWrapped(line, columns, id, k - 1);
      assert rows[..k][..k - 1] == rows[..k - 1];
      JoinLast(Joined(closed, [], false), rows[..k]);
      FullRow(line.cells, start - columns, columns);
    }
  }

  lemma JoinNothing(j: Joined, rows: seq<Row>)
    requires rows == []
    ensures JoinAll(j, rows) == j
  {
  }

  lemma FirstRowStart(columns: nat, start: nat)
    requires StartsRow(start, 0, columns)
    ensures start == 0
  {
  }

  lemma RowIsWrapped(line: LogicalLine, columns: nat, id: nat, k: nat)
    requires columns > 0 && k + 1 < VisualCount(|line.cells|, columns)
    ensures CutRows(line, columns, id)[k].wrapped
  {
    MulMono(k + 2, VisualCount(|line.cells|, columns), columns);
    MulMono(k + 1, VisualCount(|line.cells|, columns) - 1, columns);
    assert (k + 1) * columns == k * columns + columns;
  }

  /** The first `k` rows cut from a line hold its first `k * columns` cells, still open. */
  lemma {:induction false} CutJoinsPrefix(
    closed: seq<seq<RenderCell>>, line: LogicalLine, columns: nat, id: nat, k: nat)
    requires columns > 0 && k < VisualCount(|line.cells|, columns)
    ensures k * columns <= |line.cells|
    ensures JoinAll(Joined(closed, [], false), CutRows(line, columns, id)[..k]) ==
            Joined(closed, line.cells[..k * columns], k > 0)
  {
    hide CutRows, VisualCount, JoinAll;
    CutJoinsFront(closed, line, columns, id, k, k * columns);
  }

  lemma FullRow(cells: seq<RenderCell>, start: nat, columns: nat)
    requires start + columns <= |cells|
    ensures cells[..start] + Resized(cells[start..start + columns], columns) == cells[..start + columns]
  {
  }

  /** The last row cut from a line holds what is left of it, and ends it. */
  lemma LastCutRow(line: LogicalLine, columns: nat, id: nat, n: nat, start: nat)
    requires columns > 0 && n + 1 == VisualCount(|line.cells|, columns) && start == n * columns
    ensures start <= |line.cells| <= start + columns == (n + 1) * columns
    ensures var row := CutRows(line, columns, id)[n];
            row.cells == line.cells[start..] + Blanks(start + columns - |line.cells|) && !row.wrapped
  {
    hide CutRows, VisualCount;
    LastRowStart(|line.cells|, columns, n, start);
    RowContents(line, columns, id, n, start);
    assert line.cells[start..|line.cells|] == line.cells[start..];
  }

  lemma LineCompleted(cells: seq<RenderCell>, start: nat, last: seq<RenderCell>, blanks: seq<RenderCell>)
    requires start <= |cells| && last == cells[start..] + blanks
    ensures cells[..start] + last == cells + blanks
  {
  }

  lemma {:induction false} CutJoinsLine(closed: seq<seq<RenderCell>>, line: LogicalLine, columns: nat, id: nat)
    requires columns > 0
    ensures var pad := VisualCount(|line.cells|, columns) * columns - |line.cells|;
            && pad >= 0
            && JoinAll(Joined(closed, [], false), CutRows(line, columns, id)) ==
               Joined(closed + [line.cells + Blanks(pad)], [], false)
  {
    hide CutRows, VisualCount, JoinAll;
    var rows := CutRows(line, columns, id);
    var n := |rows| - 1;
    var start := n * columns;
    CutJoinsPrefix(closed, line, columns, id, n);
    LastCutRow(line, columns, id, n, start);
    JoinLast(Joined(closed, [], false), rows);
    LineCompleted(line.cells, start, rows[n].cells, Blanks(start + columns - |line.cells|));
  }

  /* ----- the lines of the output ----- */

  ghost predicate Padded(cells: seq<RenderCell>, line: seq<RenderCell>) {
    cells <= line && AllEmpty(line[|cells|..])
  }

  lemma {:induction false} CutJoinsPadded(closed: seq<seq<RenderCell>>, line: LogicalLine, columns: nat, id: nat)
    requires columns > 0
    ensures var j := JoinAll(Joined(closed, [], false), CutRows(line, columns, id));
            && j.open == [] && !j.isOpen
            && |j.closed| == |closed| + 1 && j.closed[..|closed|] == closed
            && Padded(line.cells, j.closed[|closed|])
  {
    CutJoinsLine(closed, line, columns, id);
    var pad := VisualCount(|line.cells|, columns) * columns - |line.cells|;
    assert (line.cells + Blanks(pad))[|line.cells|..] == Blanks(pad);
  }

  /** The joined `lines` of an output: closed, and equal to the spaced lines up to padding. */
  ghost predicate OutputJoins(j: Joined, lines: seq<LogicalLine>, columns: nat)
    requires columns > 0
  {
    && j.open == [] && !j.isOpen
    && |j.closed| == |lines|
    && forall k :: 0 <= k < |lines| ==> Padded(Spaced(lines[k].cells, columns), j.closed[k])
  }

  lemma OutputJoinsOneMore(j: Joined, lines: seq<LogicalLine>, after: Joined, line: LogicalLine, columns: nat)
    requires columns > 0 && OutputJoins(j, lines, columns)
    requires after.open == [] && !after.isOpen && |after.closed| == |lines| + 1
    requires after.closed[..|lines|] == j.closed
    requires Padded(Spaced(line.cells, columns), after.closed[|lines|])
    ensures OutputJoins(after, lines + [line], columns)
  {
    assert forall k :: 0 <= k < |lines| ==> after.closed[k] == after.closed[..|lines|][k];
  }

  lemma {:induction false} AddLinesJoins(lines: seq<LogicalLine>, columns: nat, id: nat)
    requires columns > 0
    ensures OutputJoins(JoinAll(NOTHING, AddLines(lines, columns, id).result.rows), lines, columns)
  {
    if lines == [] {
    } else {
      hide Spaced, CutRows, Strip, VisualCount, IdAfterCut;
      var n := |lines| - 1;
      AddLinesJoins(lines[..n], columns, id);
      var p := AddLines(lines[..n], columns, id);
      var j := JoinAll(NOTHING, p.result.rows);
      var line := SpacedLine(lines[n], columns);
      JoinAllAppend(NOTHING, p.result.rows, CutRows(line, columns, p.nextRowId));
      CutJoinsPadded(j.closed, line, columns, p.nextRowId);
      var after := JoinAll(NOTHING, p.result.rows + CutRows(line, columns, p.nextRowId));
      OutputJoinsOneMore(j, lines[..n], after, lines[n], columns);
      assert lines == lines[..n] + [lines[n]];
    }
  }

  lemma {:induction false} LinesNotEmpty(rows: seq<Row>)
    ensures |Lines(rows)| > 0 <==> rows != []
  {
  }

  lemma SpacedLineText(cells: seq<RenderCell>, original: seq<RenderCell>, out: seq<RenderCell>, columns: nat)
    requires columns > 0 && Trimmed(cells, original) && Padded(Spaced(cells, columns), out)
    ensures Strip(out) == Spaced(Strip(original), columns)
  {
    hide Strip, Spaced;
    StripTrimmed(Spaced(cells, columns), out);
    StripSpaced(cells, columns);
    StripTrimmed(cells, original);
  }

  /** The text after a reflow is the text before with a blank in front of each wide lead that
      would have started in the last column. */
  lemma {:induction false} ReflowSpacesText(rows: seq<Row>, mark: CursorMark, columns: nat, id: nat)
    requires columns > 0 && rows != []
    ensures var out := TextOf(Reflowed(rows, mark, columns, id).result.rows);
            && |out| == |TextOf(rows)|
            && forall k :: 0 <= k < |out| ==> out[k] == Spaced(TextOf(rows)[k], columns)
  {
    hide Spaced, Strip, JoinAll, AddLines;
    var lines := GroupedLines(rows, mark, columns);
    GroupedLinesAreLines(rows, mark, columns);
    LinesNotEmpty(rows);
    AddLinesJoins(lines, columns, id);
    var p := AddLines(lines, columns, id);
    LinesNotEmpty(p.result.rows);
    var out := Lines(p.result.rows);
    forall k | 0 <= k < |out|
      ensures Strip(out[k]) == Spaced(Strip(Lines(rows)[k]), columns)
    {
      SpacedLineText(lines[k].cells, Lines(rows)[k], out[k], columns);
    }
  }

  /* ----- blank rows ----- */

  predicate Untouched(cells: seq<RenderCell>) {
    forall i :: 0 <= i < |cells| ==> cells[i] == EMPTY_CELL
  }

  predicate BlankFrom(rows: seq<Row>, n: nat) {
    forall i :: n <= i < |rows| ==> !rows[i].wrapped && Untouched(rows[i].cells)
  }

  function NoLines(n: nat): (lines: seq<seq<RenderCell>>)
    ensures |lines| == n
  {
    seq(n, _ => [])
  }

  lemma {:induction false} StripUntouched(cells: seq<RenderCell>)
    requires Untouched(cells)
    ensures Strip(cells) == []
  {
    StripIgnoresEmptyTail([], cells);
    assert [] + cells == cells;
  }

  lemma {:induction false} BlankRowsJoin(j: Joined, rows: seq<Row>)
    requires !j.isOpen && j.open == [] && BlankFrom(rows, 0)
    ensures var k := JoinAll(j, rows);
            && !k.isOpen && k.open == []
            && StripAll(k.closed) == StripAll(j.closed) + NoLines(|rows|)
  {
    if rows == [] {
    } else {
      var n := |rows| - 1;
      BlankRowsJoin(j, rows[..n]);
      StripUntouched(rows[n].cells);
      var k := JoinAll(j, rows[..n]);
      assert k.open + rows[n].cells == rows[n].cells;
      assert StripAll(k.closed + [rows[n].cells]) == StripAll(k.closed) + [[]];
    }
  }

  lemma {:induction false} JoinShape(rows: seq<Row>)
    ensures var j := JoinAll(NOTHING, rows); !j.isOpen ==> j.open == []
  {
  }
}
