/** One screen: its rows, its cursor and the pending wrap. */
module Screen {
  import opened RenderModel
  import opened TerminalModel
  import opened History
  import Resizing = TerminalResize

  /** Push blank rows with fresh ids until there are `height` rows. */
  method PadRows(rows: seq<Row>, height: nat, columns: nat, nextRowId: nat) returns (padded: seq<Row>, next: nat)
    requires |rows| <= height
    ensures padded == rows + BlankRows(columns, nextRowId, height - |rows|)
    ensures next == nextRowId + (height - |rows|)
  {
    padded, next := rows, nextRowId;
    assert padded == rows + BlankRows(columns, nextRowId, 0);
    while |padded| < height
      invariant |rows| <= |padded| <= height
      invariant padded == rows + BlankRows(columns, nextRowId, |padded| - |rows|)
      invariant next == nextRowId + (|padded| - |rows|)
    {
      ghost var n := |padded| - |rows|;
      assert BlankRows(columns, nextRowId, n + 1) == BlankRows(columns, nextRowId, n) + [BlankRow(columns, next)];
      padded := padded + [BlankRow(columns, next)];
      next := next + 1;
    }
  }

  class Screen {
    var rows: seq<Row>
    var cursor: CursorState
    var pendingWrap: bool

    ghost function View(): Surface
      reads this
    {
      Surface(rows, cursor, pendingWrap)
    }

    constructor FromRows(rows: seq<Row>, cursor: CursorState, pendingWrap: bool)
      ensures View() == Surface(rows, cursor, pendingWrap)
    {
      this.rows, this.cursor, this.pendingWrap := rows, cursor, pendingWrap;
    }

    static method New(d: Dimensions, nextRowId: nat) returns (screen: Screen, next: nat)
      ensures fresh(screen) && screen.View() == FreshSurface(d, nextRowId)
      ensures next == nextRowId + d.rows
    {
      var rows;
      rows, next := PadRows([], d.rows, d.columns, nextRowId);
      assert [] + BlankRows(d.columns, nextRowId, d.rows) == BlankRows(d.columns, nextRowId, d.rows);
      screen := new Screen.FromRows(rows, CursorState(0, 0, true), false);
    }

    method Reset(d: Dimensions, nextRowId: nat) returns (next: nat)
      modifies this
      ensures View() == FreshSurface(d, nextRowId)
      ensures next == nextRowId + d.rows
    {
      var screen;
      screen, next := New(d, nextRowId);
      rows, cursor, pendingWrap := screen.rows, screen.cursor, screen.pendingWrap;
    }

    method ResizeRowWidths(columns: nat)
      modifies this
      ensures View() == old(View()).(rows := ResizedRows(old(rows), columns))
    {
      for i := 0 to |rows|
        invariant |rows| == |old(rows)| && cursor == old(cursor) && pendingWrap == old(pendingWrap)
        invariant forall k :: 0 <= k < i ==> rows[k] == old(rows)[k].ResizeWidth(columns)
        invariant forall k :: i <= k < |rows| ==> rows[k] == old(rows)[k]
      {
        rows := rows[i := rows[i].ResizeWidth(columns)];
      }
    }

    method DropRowsBelow(height: nat)
      modifies this
      ensures View() == old(View()).(rows := old(rows)[..Min(height, |old(rows)|)])
    {
      while |rows| > height
        invariant Min(height, |old(rows)|) <= |rows| <= |old(rows)| && rows == old(rows)[..|rows|]
        invariant cursor == old(cursor) && pendingWrap == old(pendingWrap)
      {
        rows := rows[..|rows| - 1];
      }
    }

    method ResizeVisible(d: Dimensions, nextRowId: nat) returns (next: nat)
      requires Sized(d)
      modifies this
      ensures View() == Resizing.ResizeVisible(old(View()), d, nextRowId)
      ensures next == Resizing.IdAfterVisible(old(View()), d, nextRowId)
    {
      hide BlankRows, ResizedRows;
      ResizeRowWidths(d.columns);
      ghost var resized := rows;
      DropRowsBelow(d.rows);
      rows, next := PadRows(rows, d.rows, d.columns, nextRowId);
      if d.rows <= |resized| {
        assert BlankRows(d.columns, nextRowId, 0) == [];
      }
      cursor := CursorState(Min(cursor.row, d.rows - 1), Min(cursor.column, d.columns - 1), cursor.visible);
      pendingWrap := false;
    }

    method SetCursor(row: nat, column: nat)
      modifies this
      ensures View() == MoveTo(old(View()), row, column, old(pendingWrap))
    {
      cursor := CursorState(row, column, cursor.visible);
    }

    method SetCursorVisible(visible: bool)
      modifies this
      ensures View() == SetVisible(old(View()), visible)
    {
      cursor := CursorState(cursor.row, cursor.column, visible);
    }

    /** Drop the top row and add one at the bottom; an empty screen gives the new row back. */
    method ScrollUp(newBottomRow: Row) returns (removed: Row)
      modifies this
      ensures removed == (old(rows) + [newBottomRow])[0]
      ensures View() == old(View()).(
                rows := if old(rows) == [] then [newBottomRow] else old(rows)[1..] + [newBottomRow])
    {
      if rows == [] {
        removed := newBottomRow;
      } else {
        removed := rows[0];
        rows := rows[1..];
      }
      rows := rows + [newBottomRow];
    }

    method PutCell(row: nat, column: nat, cell: RenderCell)
      requires row < |rows| && column < |rows[row].cells|
      modifies this
      ensures View() == SetCell(old(View()), row, column, cell)
    {
      rows := rows[row := rows[row].(cells := rows[row].cells[column := cell])];
    }
  }
}
