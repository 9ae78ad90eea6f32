/** Resizing: height first, then reflow, then a new split into scrollback and viewport. */
module TerminalResize {
  import opened RenderModel
  import opened History
  import opened Reflow
  import opened ReflowCursor
  import opened TerminalModel

  /** All rows of the primary screen, oldest first. */
  function Lineage(s: Term): seq<Row> {
    s.scrollback + s.primary.rows
  }

  predicate Grid(s: Term) {
    && Fits(s)
    && SurfaceFits(s.primary, s.dims)
    && AllWidth(s.scrollback, s.dims.columns)
    && WithinBudget(s.setup.budget, s.scrollback)
  }

  /* ----- the primary screen ----- */

  /** Rows that must move to scrollback so that the cursor stays visible in `rows` rows. */
  function RequiredScrolling(f: Surface, rows: nat): nat {
    Max(f.cursor.row + 1 - rows, 0)
  }

  function WithCursorRow(f: Surface, rows: seq<Row>, cursorRow: nat): Surface {
    f.(rows := rows, cursor := f.cursor.(row := cursorRow))
  }

  function ShrinkHeight(s: Term, rows: nat): Term
    requires 0 < rows < |s.primary.rows| && s.primary.cursor.row < |s.primary.rows|
  {
    var f := s.primary;
    var k := RequiredScrolling(f, rows);
    s.(scrollback := Retained(s.setup.budget, s.scrollback + f.rows[..k]),
       primary := WithCursorRow(f, f.rows[k..k + rows], Min(Max(f.cursor.row - k, 0), rows - 1)))
  }

  function GrowHeight(s: Term, rows: nat): Term
    requires |s.primary.rows| < rows
  {
    var f := s.primary;
    var h := Min(rows - |f.rows|, |s.scrollback|);
    var n := |s.scrollback| - h;
    var missing := rows - |f.rows| - h;
    s.(scrollback := s.scrollback[..n],
       primary := WithCursorRow(
         f, s.scrollback[n..] + f.rows + BlankRows(s.dims.columns, s.nextRowId, missing),
         Min(f.cursor.row + h, rows - 1)),
       nextRowId := s.nextRowId + missing)
  }

  function ResizePrimaryHeight(s: Term, rows: nat): (t: Term)
    requires 0 < rows && s.primary.cursor.row < |s.primary.rows|
    ensures t.setup == s.setup && t.alternate == s.alternate && t.active == s.active
  {
    if rows < |s.primary.rows| then ShrinkHeight(s, rows)
    else if rows > |s.primary.rows| then GrowHeight(s, rows)
    else s
  }

  function SourceMark(s: Term): CursorMark {
    CursorMark(|s.scrollback| + s.primary.cursor.row, s.primary.cursor.column, s.primary.pendingWrap)
  }

  function ReflowedLineage(s: Term, columns: nat): Progress
    requires columns > 0
  {
    Reflowed(Lineage(s), SourceMark(s), columns, s.nextRowId)
  }

  /** Rows of the result that go to scrollback: as many as overflow the viewport, but never the
      cursor's row. */
  function SplitAt(r: ReflowResult, rows: nat): (k: nat)
    ensures k <= |r.rows| && k <= r.cursorRow
  {
    Min(Max(|r.rows| - rows, 0), r.cursorRow)
  }

  function Visible(r: ReflowResult, d: Dimensions, id: nat): (rows: seq<Row>)
    ensures |rows| == d.rows
  {
    var k := SplitAt(r, d.rows);
    var end := Min(k + d.rows, |r.rows|);
    r.rows[k..end] + BlankRows(d.columns, id, d.rows - (end - k))
  }

  /** Split reflowed rows into history and viewport. */
  function WithReflowed(s: Term, p: Progress, d: Dimensions): Term
    requires 0 < d.rows
  {
    var k := SplitAt(p.result, d.rows);
    var cursorRow := Min(Max(p.result.cursorRow - k, 0), d.rows - 1);
    var visible := Visible(p.result, d, p.nextRowId);
    s.(scrollback := Retained(s.setup.budget, p.result.rows[..k]),
       primary := Surface(visible, CursorState(cursorRow, p.result.cursorColumn, true), p.result.pendingWrap),
       nextRowId := p.nextRowId + Max(d.rows - (|p.result.rows| - k), 0))
  }

  function ResizeActivePrimary(s: Term, d: Dimensions): Term
    requires 0 < d.columns && 0 < d.rows && s.primary.cursor.row < |s.primary.rows|
  {
    var h := ResizePrimaryHeight(s, d.rows);
    WithReflowed(h, ReflowedLineage(h, d.columns), d)
  }

  /* ----- while the alternate screen is active: cut or pad, no reflow ----- */

  function ResizeVisible(f: Surface, d: Dimensions, id: nat): Surface
    requires 0 < d.columns && 0 < d.rows
  {
    var rows := ResizedRows(f.rows, d.columns);
    Surface(
      if d.rows <= |rows| then rows[..d.rows] else rows + BlankRows(d.columns, id, d.rows - |rows|),
      CursorState(Min(f.cursor.row, d.rows - 1), Min(f.cursor.column, d.columns - 1), f.cursor.visible),
      false)
  }

  function IdAfterVisible(f: Surface, d: Dimensions, id: nat): (next: nat)
    ensures next >= id
  {
    id + Max(d.rows - |f.rows|, 0)
  }

  function ResizeWhileAlternate(s: Term, d: Dimensions): Term
    requires 0 < d.columns && 0 < d.rows
  {
    var id := IdAfterVisible(s.primary, d, s.nextRowId);
    s.(primary := ResizeVisible(s.primary, d, s.nextRowId),
       scrollback := Retained(s.setup.budget, ResizedRows(s.scrollback, d.columns)),
       alternate := ResizeVisible(s.alternate, d, id),
       nextRowId := IdAfterVisible(s.alternate, d, id))
  }

  /* ----- the public operation ----- */

  function Rebuilt(s: Term, d: Dimensions): Term
    requires Fits(s) && SurfaceFits(s.primary, s.dims) && Sized(d)
  {
    if s.active.Primary? then ResizeActivePrimary(s, d) else ResizeWhileAlternate(s, d)
  }

  /** Invalid dimensions are refused, equal ones change nothing. */
  function Resize(s: Term, columns: nat, rows: nat): Term
    requires Fits(s) && SurfaceFits(s.primary, s.dims)
  {
    var d := Dimensions(columns, rows);
    if !DimensionsOk(d) || d == s.dims then s
    else
      var t := Rebuilt(s, d);
      t.(dims := d, damage := AllRows(rows), archived := t.scrollback)
  }

  /* ----- the height change ----- */

  lemma GridFits(s: Term)
    requires Grid(s)
    ensures Fits(s)
  {
  }

  lemma GridCursor(s: Term)
    requires Grid(s)
    ensures s.primary.cursor.row < |s.primary.rows|
    ensures s.primary.cursor.column < |s.primary.rows[s.primary.cursor.row].cells|
  {
  }

  lemma SliceAcross<T>(a: seq<T>, b: seq<T>, k: nat, n: nat, end: nat)
    requires n <= end <= |b| && k <= |a| + n
    ensures (a + b[..n])[k..] + b[n..end] == (a + b)[k..|a| + end]
  {
  }

  /** The oldest rows that fall to the budgets when the rows above the viewport are archived. */
  function OldestDropped(s: Term, rows: nat): nat
    requires 0 < rows && s.primary.cursor.row < |s.primary.rows|
  {
    var pushed := s.scrollback + s.primary.rows[..Max(s.primary.cursor.row + 1 - rows, 0)];
    |pushed| - |Retained(s.setup.budget, pushed)|
  }

  /** One past the last row that the new height still holds below the rows above the viewport. */
  function RowsHeld(s: Term, rows: nat): nat {
    Min(|Lineage(s)|, |s.scrollback| + Max(s.primary.cursor.row + 1, rows))
  }

  lemma {:induction false} ShrinkKeepsRows(s: Term, rows: nat) returns (k: nat, end: nat)
    requires Grid(s) && 0 < rows < |s.primary.rows|
    ensures k == OldestDropped(s, rows) && end == RowsHeld(s, rows)
    ensures k <= end <= |Lineage(s)|
    ensures Lineage(ShrinkHeight(s, rows)) == Lineage(s)[k..end]
  {
    hide Retained, AllWidth, WithinBudget;
    var f := s.primary;
    var n := RequiredScrolling(f, rows);
    var pushed := s.scrollback + f.rows[..n];
    var t := ShrinkHeight(s, rows);
    RetainedIsLongestFittingSuffix(s.setup.budget, pushed);
    k, end := |pushed| - |t.scrollback|, |pushed| + rows;
    SliceAcross(s.scrollback, f.rows, k, n, n + rows);
  }

  lemma Rejoin<T>(a: seq<T>, n: nat, b: seq<T>, c: seq<T>)
    requires n <= |a|
    ensures a[..n] + (a[n..] + b + c) == a + b + c
  {
  }

  lemma {:induction false} GrowKeepsRows(s: Term, rows: nat) returns (blanks: nat)
    requires Grid(s) && |s.primary.rows| < rows
    ensures var t := GrowHeight(s, rows);
            && Lineage(t) == Lineage(s) + BlankRows(s.dims.columns, s.nextRowId, blanks)
            && t.nextRowId == s.nextRowId + blanks
            && |t.primary.rows| == rows
            && blanks == Max(rows - |Lineage(s)|, 0)
  {
    hide Grid, BlankRows;
    var h := Min(rows - |s.primary.rows|, |s.scrollback|);
    blanks := rows - |s.primary.rows| - h;
    Rejoin(s.scrollback, |s.scrollback| - h, s.primary.rows, BlankRows(s.dims.columns, s.nextRowId, blanks));
  }

  /** What a height change does to the rows: the oldest fall to the budgets once the rows above the
      viewport are archived, rows that the new height has no place for are dropped at the bottom,
      blank rows make up a missing height; all others keep their order. */
  lemma {:induction false} HeightKeepsRows(s: Term, rows: nat) returns (k: nat, end: nat, blanks: nat)
    requires Grid(s) && 0 < rows
    ensures s.primary.cursor.row < |s.primary.rows|
    ensures k == OldestDropped(s, rows) && end == RowsHeld(s, rows) && blanks == Max(rows - |Lineage(s)|, 0)
    ensures k <= end <= |Lineage(s)|
    ensures var t := ResizePrimaryHeight(s, rows);
            && |t.primary.rows| == rows
            && Lineage(t) == Lineage(s)[k..end] + BlankRows(s.dims.columns, s.nextRowId, blanks)
            && t.nextRowId == s.nextRowId + blanks
  {
    hide Retained, WithinBudget, BlankRows, AllWidth;
    GridCursor(s);
    var all := Lineage(s);
    k, end, blanks := 0, |all|, 0;
    assert all[0..|all|] == all;
    if rows < |s.primary.rows| {
      k, end := ShrinkKeepsRows(s, rows);
    } else {
      NothingFallsWhenTaller(s, rows);
    }
    if rows > |s.primary.rows| {
      blanks := GrowKeepsRows(s, rows);
    }
    assert BlankRows(s.dims.columns, s.nextRowId, 0) == [];
  }

  lemma NothingFallsWhenTaller(s: Term, rows: nat)
    requires Grid(s) && |s.primary.rows| <= rows && 0 < rows
    ensures s.primary.cursor.row < |s.primary.rows|
    ensures OldestDropped(s, rows) == 0 && RowsHeld(s, rows) == |Lineage(s)|
  {
    assert s.scrollback + s.primary.rows[..0] == s.scrollback;
    FittingIsRetained(s.setup.budget, s.scrollback);
  }

  lemma IndexBetween<T>(a: seq<T>, b: seq<T>, c: seq<T>, i: nat)
    requires i < |b|
    ensures (a + b + c)[|a| + i] == b[i]
  {
  }

  lemma ShrinkKeepsCursorRow(s: Term, rows: nat)
    requires 0 < rows < |s.primary.rows| && s.primary.cursor.row < |s.primary.rows|
    ensures var f, g := s.primary, ShrinkHeight(s, rows).primary;
            && |g.rows| == rows
            && 0 <= f.cursor.row - RequiredScrolling(f, rows) < rows
            && g.cursor == f.cursor.(row := f.cursor.row - RequiredScrolling(f, rows))
            && g.rows[g.cursor.row] == f.rows[f.cursor.row]
            && g.pendingWrap == f.pendingWrap
  {
    hide Retained;
  }

  lemma GrowKeepsCursorRow(s: Term, rows: nat)
    requires |s.primary.rows| < rows && s.primary.cursor.row < |s.primary.rows|
    ensures var f, g := s.primary, GrowHeight(s, rows).primary;
            && |g.rows| == rows
            && g.cursor == f.cursor.(row := f.cursor.row + Min(rows - |f.rows|, |s.scrollback|))
            && g.cursor.row < rows
            && g.rows[g.cursor.row] == f.rows[f.cursor.row]
            && g.pendingWrap == f.pendingWrap
  {
    hide BlankRows;
    var f := s.primary;
    var h := Min(rows - |f.rows|, |s.scrollback|);
    var pulled := s.scrollback[|s.scrollback| - h..];
    IndexBetween(pulled, f.rows, BlankRows(s.dims.columns, s.nextRowId, rows - |f.rows| - h), f.cursor.row);
  }

  /** The cursor stays on its row and column: no clamp fires. */
  lemma {:induction false} HeightKeepsCursorRow(s: Term, rows: nat)
    requires Grid(s) && 0 < rows
    ensures var f, g := s.primary, ResizePrimaryHeight(s, rows).primary;
            && g.cursor.row < rows == |g.rows|
            && g.rows[g.cursor.row] == f.rows[f.cursor.row]
            && g.cursor.column == f.cursor.column
            && g.pendingWrap == f.pendingWrap
            && g.cursor.row == (if rows < |f.rows| then Min(f.cursor.row, rows - 1)
                                else f.cursor.row + Min(rows - |f.rows|, |s.scrollback|))
  {
    hide Grid, ShrinkHeight, GrowHeight;
    GridCursor(s);
    if rows < |s.primary.rows| {
      ShrinkKeepsCursorRow(s, rows);
    } else if rows > |s.primary.rows| {
      GrowKeepsCursorRow(s, rows);
    }
  }

  /** Counted from the oldest row, the cursor moves up by the rows that fell to the budgets. */
  lemma {:induction false} HeightMovesMark(s: Term, rows: nat)
    requires Grid(s) && 0 < rows
    ensures s.primary.cursor.row < |s.primary.rows|
    ensures var t := ResizePrimaryHeight(s, rows);
            && OldestDropped(s, rows) <= SourceMark(s).row
            && SourceMark(t) == SourceMark(s).(row := SourceMark(s).row - OldestDropped(s, rows))
  {
    hide Grid, Retained, BlankRows;
    GridCursor(s);
    if rows < |s.primary.rows| {
      ShrinkKeepsCursorRow(s, rows);
    } else {
      NothingFallsWhenTaller(s, rows);
      if rows > |s.primary.rows| {
        GrowKeepsCursorRow(s, rows);
      }
    }
  }

  lemma {:induction false} HeightMarkInside(s: Term, rows: nat)
    requires Grid(s) && 0 < rows
    ensures var t := ResizePrimaryHeight(s, rows); MarkInside(Lineage(t), SourceMark(t))
  {
    hide Grid, ResizePrimaryHeight;
    GridCursor(s);
    HeightKeepsCursorRow(s, rows);
    var t := ResizePrimaryHeight(s, rows);
    assert Lineage(t)[SourceMark(t).row] == t.primary.rows[t.primary.cursor.row];
  }

  /* ----- the new split ----- */

  lemma SplitRows(r: ReflowResult, d: Dimensions, id: nat)
    ensures var k := SplitAt(r, d.rows);
            var kept := Min(k + d.rows, |r.rows|);
            r.rows[..k] + Visible(r, d, id) ==
            r.rows[..kept] + BlankRows(d.columns, id, k + d.rows - kept)
  {
    var k := SplitAt(r, d.rows);
    var kept := Min(k + d.rows, |r.rows|);
    assert r.rows[..k] + r.rows[k..kept] == r.rows[..kept];
  }

  lemma SplitKeepsCursorRow(r: ReflowResult, d: Dimensions, id: nat)
    requires r.cursorRow < |r.rows| && d.rows > 0
    ensures var k := SplitAt(r, d.rows);
            && k <= r.cursorRow < Min(k + d.rows, |r.rows|)
            && Min(Max(r.cursorRow - k, 0), d.rows - 1) == r.cursorRow - k
            && Visible(r, d, id)[r.cursorRow - k] == r.rows[r.cursorRow]
  {
  }

  lemma {:induction false} ReflowedCursorInside(s: Term, d: Dimensions)
    requires Grid(s) && Sized(d)
    ensures var r := ReflowedLineage(ResizePrimaryHeight(s, d.rows), d.columns).result;
            && r.cursorRow < |r.rows| && r.cursorColumn < d.columns
            && (r.pendingWrap ==> r.cursorColumn == d.columns - 1)
  {
    var h := ResizePrimaryHeight(s, d.rows);
    HeightMarkInside(s, d.rows);
    ReflowKeepsCursor(Lineage(h), SourceMark(h), d.columns, h.nextRowId);
  }

  /** History and viewport are the reflowed rows in order, padded with blank rows; the viewport
      holds the cursor's row where the cursor points, no clamp fires, and only rows below the
      viewport are lost. */
  lemma {:induction false} SplitConservesRows(s: Term, d: Dimensions)
    requires Grid(s) && Sized(d)
    ensures var p := ReflowedLineage(ResizePrimaryHeight(s, d.rows), d.columns);
            var r := p.result;
            var t := ResizeActivePrimary(s, d);
            var k := SplitAt(r, d.rows);
            var kept := Min(k + d.rows, |r.rows|);
            && r.rows[..k] + t.primary.rows ==
               r.rows[..kept] + BlankRows(d.columns, p.nextRowId, k + d.rows - kept)
            && t.scrollback == Retained(s.setup.budget, r.rows[..k])
            && k <= r.cursorRow < kept
            && t.primary.cursor.row == r.cursorRow - k
            && t.primary.rows[t.primary.cursor.row] == r.rows[r.cursorRow]
            && t.primary.cursor.column == r.cursorColumn
            && t.primary.pendingWrap == r.pendingWrap
  {
    hide ResizePrimaryHeight, ReflowedLineage, Visible, Retained, BlankRows;
    HeightMarkInside(s, d.rows);
    var p := ReflowedLineage(ResizePrimaryHeight(s, d.rows), d.columns);
    ReflowedCursorInside(s, d);
    SplitRows(p.result, d, p.nextRowId);
    SplitKeepsCursorRow(p.result, d, p.nextRowId);
  }
}
