/** A primary resize seen as a whole: the text and the cursor's place in it. */
module ResizeTheorems {
  import opened RenderModel
  import opened Text
  import opened History
  import opened Reflow
  import opened ReflowText
  import opened ReflowRuns
  import opened ReflowCursor
  import opened Ink
  import opened TerminalModel
  import opened TerminalResize

  /** Rows that a resize to `d` starts from: all but the oldest, which fall to the budgets. */
  function Survivors(s: Term, d: Dimensions): seq<Row>
    requires Grid(s) && Sized(d)
  {
    GridCursor(s);
    Lineage(s)[OldestDropped(s, d.rows)..]
  }

  /** The cursor in these rows. */
  function SurvivorMark(s: Term, d: Dimensions): CursorMark
    requires Grid(s) && Sized(d)
  {
    HeightMovesMark(s, d.rows);
    SourceMark(s).(row := SourceMark(s).row - OldestDropped(s, d.rows))
  }

  function ReflowedRows(s: Term, d: Dimensions): Progress
    requires Grid(s) && Sized(d)
  {
    GridCursor(s);
    ReflowedLineage(ResizePrimaryHeight(s, d.rows), d.columns)
  }

  /** History and viewport after the resize, before the budgets trim the history. */
  function Untrimmed(s: Term, d: Dimensions): seq<Row>
    requires Grid(s) && Sized(d)
  {
    var r := ReflowedRows(s, d).result;
    r.rows[..SplitAt(r, d.rows)] + ResizeActivePrimary(s, d).primary.rows
  }

  /** Rows of the old viewport that the new height has no place for. */
  function LostToHeight(s: Term, d: Dimensions): seq<Row> {
    Lineage(s)[RowsHeld(s, d.rows)..]
  }

  /** Reflowed rows below the new viewport. */
  function LostBelow(s: Term, d: Dimensions): seq<Row>
    requires Grid(s) && Sized(d)
  {
    var r := ReflowedRows(s, d).result;
    r.rows[Min(SplitAt(r, d.rows) + d.rows, |r.rows|)..]
  }

  /** The result is the reflowed rows without the lost ones, then blank rows; the cursor's row is
      never lost, and nothing is if all rows fit below it. */
  lemma UntrimmedRows(s: Term, d: Dimensions) returns (blanks: nat)
    requires Grid(s) && Sized(d)
    ensures var p := ReflowedRows(s, d);
            var kept := |p.result.rows| - |LostBelow(s, d)|;
            && p.result.cursorRow < kept
            && Untrimmed(s, d) == p.result.rows[..kept] + BlankRows(d.columns, p.nextRowId, blanks)
            && p.result.rows == p.result.rows[..kept] + LostBelow(s, d)
            && (|p.result.rows| <= p.result.cursorRow + d.rows ==> LostBelow(s, d) == [])
  {
    hide ReflowedLineage, ResizePrimaryHeight, ResizeActivePrimary, BlankRows, Retained;
    SplitConservesRows(s, d);
    var r := ReflowedRows(s, d).result;
    var k := SplitAt(r, d.rows);
    var kept := Min(k + d.rows, |r.rows|);
    blanks := k + d.rows - kept;
    assert r.rows == r.rows[..kept] + r.rows[kept..];
  }

  /** Where the viewport lies on the reflowed rows. Rows move to history only as far as they
      overflow the height, and never the cursor's row. */
  lemma ViewportAfterResize(s: Term, d: Dimensions)
    requires Grid(s) && Sized(d)
    ensures var p := ReflowedRows(s, d);
            var r, n, t := p.result, |p.result.rows|, ResizeActivePrimary(s, d);
            var top := r.cursorRow - t.primary.cursor.row;
            && t.primary.cursor.row == Max(r.cursorRow - Max(n - d.rows, 0), 0)
            && 0 <= top <= n && |t.primary.rows| == d.rows
            && (forall i :: 0 <= i < d.rows ==>
                  t.primary.rows[i] == if top + i < n then r.rows[top + i]
                                       else BlankRow(d.columns, p.nextRowId + (top + i - n)))
            && t.scrollback == Retained(s.setup.budget, r.rows[..top])
            && (n < top + d.rows ==> top == 0)
            && (top + d.rows < n ==> t.primary.cursor.row == 0)
            && (n <= d.rows ==> t.scrollback == [] && r.rows <= t.primary.rows)
  {
    hide ReflowedRows, ResizeActivePrimary, Retained, Grid, SplitAt, Visible, BlankRow, LostBelow, Untrimmed;
    SplitResults(s, d);
    var p := ReflowedRows(s, d);
    var r, n := p.result, |p.result.rows|;
    SplitPlace(r, d.rows);
    VisibleRowsAt(r, d, p.nextRowId);
    assert r.rows[..0] == [];
    NothingRetained(s);
    ViewportIsVisible(s, d);
  }

  lemma SplitResults(s: Term, d: Dimensions)
    requires Grid(s) && Sized(d)
    ensures var r, t := ReflowedRows(s, d).result, ResizeActivePrimary(s, d);
            && r.cursorRow < |r.rows| && SplitAt(r, d.rows) <= |r.rows|
            && t.primary.cursor.row == r.cursorRow - SplitAt(r, d.rows)
            && t.scrollback == Retained(s.setup.budget, r.rows[..SplitAt(r, d.rows)])
  {
    hide ReflowedLineage, ResizePrimaryHeight, Retained, Visible, SplitAt;
    GridCursor(s);
    SplitConservesRows(s, d);
  }

  lemma ViewportIsVisible(s: Term, d: Dimensions)
    requires Grid(s) && Sized(d)
    ensures s.primary.cursor.row < |s.primary.rows|
    ensures ResizeActivePrimary(s, d).primary.rows ==
            Visible(ReflowedRows(s, d).result, d, ReflowedRows(s, d).nextRowId)
  {
    hide ReflowedLineage, ResizePrimaryHeight, Visible, Retained;
    GridCursor(s);
  }

  lemma SplitPlace(r: ReflowResult, rows: nat)
    requires r.cursorRow < |r.rows| && rows > 0
    ensures var k, n := SplitAt(r, rows), |r.rows|;
            && r.cursorRow - k == Max(r.cursorRow - Max(n - rows, 0), 0)
            && (n < k + rows ==> k == 0) && (k + rows < n ==> k == r.cursorRow) && (n <= rows ==> k == 0)
  {
  }

  lemma VisibleRowsAt(r: ReflowResult, d: Dimensions, id: nat)
    ensures var k, n, rows := SplitAt(r, d.rows), |r.rows|, Visible(r, d, id);
            && |rows| == d.rows
            && (forall i :: 0 <= i < d.rows ==>
                  rows[i] == if k + i < n then r.rows[k + i] else BlankRow(d.columns, id + (k + i - n)))
            && (k == 0 && n <= d.rows ==> r.rows <= rows)
  {
    hide BlankRow, SplitAt;
    var k, n := SplitAt(r, d.rows), |r.rows|;
    var end := Min(k + d.rows, n);
    var kept, blanks := r.rows[k..end], BlankRows(d.columns, id, d.rows - (end - k));
    forall i | 0 <= i < d.rows
      ensures Visible(r, d, id)[i] == if k + i < n then r.rows[k + i] else BlankRow(d.columns, id + (k + i - n))
    {
      BlankRowAt(d.columns, id, d.rows - (end - k), i - (end - k));
      assert (kept + blanks)[i] == if i < |kept| then kept[i] else blanks[i - |kept|];
    }
    if k == 0 && n <= d.rows {
      assert kept == r.rows;
    }
  }

  lemma NothingRetained(s: Term)
    ensures Retained(s.setup.budget, []) == []
  {
  }

  lemma BlankRowAt(columns: nat, id: nat, n: nat, i: int)
    ensures 0 <= i < n ==> BlankRows(columns, id, n)[i] == BlankRow(columns, id + i)
  {
  }

  /** Rows that the spaced lines need at a width. */
  function RowsNeeded(lines: seq<LogicalLine>, columns: nat): nat
    requires columns > 0
  {
    if lines == [] then 0
    else
      var n := |lines| - 1;
      RowsNeeded(lines[..n], columns) + VisualCount(|Spaced(lines[n].cells, columns)|, columns)
  }

  lemma {:induction false} AddLinesTakesRowsNeeded(lines: seq<LogicalLine>, columns: nat, id: nat)
    requires columns > 0
    ensures |AddLines(lines, columns, id).result.rows| == RowsNeeded(lines, columns)
    ensures lines != [] ==> RowsNeeded(lines, columns) > 0
  {
    hide Spaced, VisualCount, CutRows, IdAfterCut, PlaceCursor;
    if lines == [] {
    } else {
      AddLinesTakesRowsNeeded(lines[..|lines| - 1], columns, id);
    }
  }

  /** The lines that a resize to `d` lays out again. */
  function SourceLines(s: Term, d: Dimensions): seq<LogicalLine>
    requires Grid(s) && Sized(d)
  {
    GridCursor(s);
    var h := ResizePrimaryHeight(s, d.rows);
    GroupedLines(Lineage(h), SourceMark(h), d.columns)
  }

  /** As many rows are lost below the viewport as the lines need beyond the cursor's row and the
      height: the viewport moves down only as far as the cursor allows. */
  lemma LostBelowSize(s: Term, d: Dimensions)
    requires Grid(s) && Sized(d)
    ensures var r := ReflowedRows(s, d).result;
            && |r.rows| == RowsNeeded(SourceLines(s, d), d.columns)
            && |LostBelow(s, d)| == Max(RowsNeeded(SourceLines(s, d), d.columns) - (r.cursorRow + d.rows), 0)
  {
    hide AddLines, RowsNeeded, GroupedLines, ResizePrimaryHeight;
    GridCursor(s);
    var h := ResizePrimaryHeight(s, d.rows);
    HeightMarkInside(s, d.rows);
    SomeLine(Lineage(h), SourceMark(h), d.columns);
    AddLinesTakesRowsNeeded(SourceLines(s, d), d.columns, h.nextRowId);
  }

  lemma SomeLine(rows: seq<Row>, mark: CursorMark, columns: nat)
    requires rows != []
    ensures GroupedLines(rows, mark, columns) != []
  {
    GroupedLinesAreLines(rows, mark, columns);
    LinesNotEmpty(rows);
  }

  /* ----- the cursor ----- */

  /** The line of row `m` begins with the cells joined so far and those of the row. */
  lemma {:induction false} LineBeginsWith(rows: seq<Row>, m: nat)
    requires m < |rows|
    ensures var j, all := JoinAll(NOTHING, rows[..m]), JoinAll(NOTHING, rows);
            || (|j.closed| < |all.closed| && j.open + rows[m].cells <= all.closed[|j.closed|])
            || (|j.closed| == |all.closed| && all.isOpen && j.open + rows[m].cells <= all.open)
  {
    var n := |rows| - 1;
    if m < n {
      LineBeginsWith(rows[..n], m);
      assert rows[..n][..m] == rows[..m];
    }
  }

  /** Rows that agree up to row `m` have the cursor on that row at the same place in the same text. */
  lemma SamePlace(a: seq<Row>, b: seq<Row>, mark: CursorMark)
    requires MarkInside(a, mark) && mark.row < |b| && a[..mark.row + 1] == b[..mark.row + 1]
    ensures MarkInside(b, mark)
    ensures var p := PositionOf(a, mark.row, CursorCell(a, mark));
            && PositionOf(b, mark.row, CursorCell(b, mark)) == p
            && p.line < |Lines(a)| && 0 <= p.offset <= |Lines(a)[p.line]|
            && p.line < |Lines(b)| && p.offset <= |Lines(b)[p.line]|
            && Lines(a)[p.line][..p.offset] == Lines(b)[p.line][..p.offset]
  {
    hide JoinAll;
    var m := mark.row;
    assert a[..m + 1][m] == a[m] && b[..m + 1][m] == b[m];
    assert a[..m + 1][..m] == a[..m] && b[..m + 1][..m] == b[..m];
    LineBeginsWith(a, m);
    LineBeginsWith(b, m);
    var j := JoinAll(NOTHING, a[..m]);
    var p := PositionOf(a, m, CursorCell(a, mark));
    assert Lines(a)[p.line][..p.offset] == (j.open + a[m].cells)[..p.offset];
    assert Lines(b)[p.line][..p.offset] == (j.open + a[m].cells)[..p.offset];
  }

  lemma SliceFront<T>(a: seq<T>, k: nat, end: nat, n: nat)
    requires k + n <= end <= |a|
    ensures a[k..end][..n] == a[k..][..n]
  {
  }

  /** The rows handed to the reflow agree with the surviving rows up to the cursor's. */
  lemma HeightKeepsPlace(s: Term, d: Dimensions)
    requires Grid(s) && Sized(d)
    ensures var h := ResizePrimaryHeight(s, d.rows);
            && s.primary.cursor.row < |s.primary.rows|
            && SourceMark(h) == SurvivorMark(s, d)
            && MarkInside(Lineage(h), SourceMark(h)) && MarkInside(Survivors(s, d), SurvivorMark(s, d))
            && Lineage(h)[..SourceMark(h).row + 1] == Survivors(s, d)[..SourceMark(h).row + 1]
  {
    hide Grid, Retained, BlankRows, ResizePrimaryHeight, OldestDropped;
    GridCursor(s);
    var h := ResizePrimaryHeight(s, d.rows);
    HeightMovesMark(s, d.rows);
    HeightMarkInside(s, d.rows);
    var k, end, blanks := HeightKeepsRows(s, d.rows);
    var m := SourceMark(h).row;
    assert k + m < end;
    assert Lineage(h)[..m + 1] == Lineage(s)[k..end][..m + 1];
    SliceFront(Lineage(s), k, end, m + 1);
    assert Lineage(h)[..m + 1][m] == Survivors(s, d)[..m + 1][m];
  }

  /** The cursor after a resize stands in the same logical line as before, as far into it as before
      plus the blanks inserted ahead of it; at the end of an exactly full line it stands on the last
      cell with a wrap pending. */
  lemma {:induction false} ResizeKeepsCursorPlace(s: Term, d: Dimensions)
    requires Grid(s) && Sized(d)
    ensures var t := ResizeActivePrimary(s, d);
            var rows, mark := Survivors(s, d), SurvivorMark(s, d);
            MarkInside(rows, mark) &&
            var source := PositionOf(rows, mark.row, CursorCell(rows, mark));
            && source.line < |Lines(rows)| && 0 <= source.offset <= |Lines(rows)[source.line]|
            && var row := |Untrimmed(s, d)| - d.rows + t.primary.cursor.row;
               var moved := Moved(rows, source, d.columns);
            && 0 <= row < |Untrimmed(s, d)|
            && PositionOf(Untrimmed(s, d), row, t.primary.cursor.column) ==
               Position(source.line, if t.primary.pendingWrap && !s.primary.pendingWrap then moved - 1 else moved)
  {
    hide Grid, ResizePrimaryHeight, Reflowed, Lines, JoinAll, Visible, BlankRows, Retained, GroupedLines, Survivors;
    GridCursor(s);
    var h := ResizePrimaryHeight(s, d.rows);
    HeightKeepsPlace(s, d);
    SamePlace(Lineage(h), Survivors(s, d), SourceMark(h));
    ReflowKeepsCursor(Lineage(h), SourceMark(h), d.columns, h.nextRowId);
    HeightKeepsCursorRow(s, d.rows);
    SplitConservesRows(s, d);
    var blanks := UntrimmedRows(s, d);
    var r := ReflowedRows(s, d).result;
    assert |Untrimmed(s, d)| == SplitAt(r, d.rows) + d.rows;
    assert Untrimmed(s, d)[..r.cursorRow] == r.rows[..r.cursorRow];
  }

  /* ----- the text ----- */

  lemma BlankRowsAreTextless(columns: nat, id: nat, n: nat)
    ensures Textless(BlankRows(columns, id, n))
  {
    var rows := BlankRows(columns, id, n);
    forall i | 0 <= i < n ensures AllEmpty(rows[i].cells) {
      assert rows[i] == BlankRow(columns, id + i);
    }
  }

  /** The height change keeps the text of the surviving rows exactly when the rows it drops at the
      bottom are empty; either way it only leaves out what these rows hold. */
  lemma HeightKeepsTextIff(s: Term, d: Dimensions)
    requires Grid(s) && Sized(d)
    ensures s.primary.cursor.row < |s.primary.rows|
    ensures var h := Lineage(ResizePrimaryHeight(s, d.rows));
            && RowsInk(h) + RowsInk(LostToHeight(s, d)) == RowsInk(Survivors(s, d))
            && (Textless(LostToHeight(s, d)) ==> Chopped(TextOf(h)) == Chopped(TextOf(Survivors(s, d))))
  {
    hide Grid, BlankRows, ResizePrimaryHeight, OldestDropped, TextOf, Textless, RowsInk, Retained;
    GridCursor(s);
    var k, end, blanks := HeightKeepsRows(s, d.rows);
    var kept, added := Lineage(s)[k..end], BlankRows(s.dims.columns, s.nextRowId, blanks);
    assert kept + LostToHeight(s, d) == Survivors(s, d);
    BlankRowsAreTextless(s.dims.columns, s.nextRowId, blanks);
    NoInkIffTextless(added);
    RowsInkConcat(kept, added);
    RowsInkConcat(kept, LostToHeight(s, d));
    DropKeepsTextIff(kept, added);
    DropKeepsTextIff(kept, LostToHeight(s, d));
  }

  /** The same for the reflow and the new split. */
  lemma SplitKeepsTextIff(s: Term, d: Dimensions)
    requires Grid(s) && Sized(d)
    ensures s.primary.cursor.row < |s.primary.rows|
    ensures var h := Lineage(ResizePrimaryHeight(s, d.rows));
            && RowsInk(Untrimmed(s, d)) + RowsInk(LostBelow(s, d)) == RowsInk(h)
            && (Textless(LostBelow(s, d)) ==>
                  Chopped(TextOf(Untrimmed(s, d))) == SpacedLines(Chopped(TextOf(h)), d.columns))
  {
    hide Grid, BlankRows, ResizePrimaryHeight, TextOf, Textless, RowsInk, Reflowed, Untrimmed, LostBelow, Chopped;
    GridCursor(s);
    var h := ResizePrimaryHeight(s, d.rows);
    var p := ReflowedRows(s, d);
    var blanks := UntrimmedRows(s, d);
    var kept := p.result.rows[..|p.result.rows| - |LostBelow(s, d)|];
    var added := BlankRows(d.columns, p.nextRowId, blanks);
    BlankRowsAreTextless(d.columns, p.nextRowId, blanks);
    NoInkIffTextless(added);
    RowsInkConcat(kept, added);
    RowsInkConcat(kept, LostBelow(s, d));
    DropKeepsTextIff(kept, added);
    DropKeepsTextIff(kept, LostBelow(s, d));
    HeightMarkInside(s, d.rows);
    ReflowGivesSpacedLines(Lineage(h), SourceMark(h), d.columns, h.nextRowId);
    ChoppedSpaced(TextOf(Lineage(h)), d.columns);
    TextKeepsInk(Lineage(h));
    TextKeepsInk(p.result.rows);
    SpacedLinesKeepInk(TextOf(Lineage(h)), d.columns);
  }

  /** A primary resize keeps the text of the rows that the budgets leave, up to empty lines at its
      end and blanks in front of wide leads, exactly when the rows it drops hold only empty cells:
      those without a place in the new height, and those below the new viewport. */
  lemma ResizeKeepsTextIff(s: Term, d: Dimensions)
    requires Grid(s) && Sized(d)
    ensures Chopped(TextOf(Untrimmed(s, d))) == Chopped(SpacedLines(TextOf(Survivors(s, d)), d.columns)) <==>
            Textless(LostToHeight(s, d)) && Textless(LostBelow(s, d))
    ensures TextFits(TextOf(Survivors(s, d)), d.columns) ==>
              SpacedLines(TextOf(Survivors(s, d)), d.columns) == TextOf(Survivors(s, d))
  {
    hide Grid, TextOf, Textless, RowsInk, Untrimmed, LostBelow, LostToHeight, Survivors, Chopped, SpacedLines;
    GridCursor(s);
    var h := Lineage(ResizePrimaryHeight(s, d.rows));
    var text := TextOf(Survivors(s, d));
    HeightKeepsTextIff(s, d);
    SplitKeepsTextIff(s, d);
    ChoppedSpaced(text, d.columns);
    SpacedLinesAreSameIff(text, d.columns);
    NoInkIffTextless(LostToHeight(s, d));
    NoInkIffTextless(LostBelow(s, d));
    TextKeepsInk(Untrimmed(s, d));
    TextKeepsInk(Survivors(s, d));
    ChoppedKeepsInk(TextOf(Untrimmed(s, d)));
    ChoppedKeepsInk(SpacedLines(text, d.columns));
    SpacedLinesKeepInk(text, d.columns);
  }
}
