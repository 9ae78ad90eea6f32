/** Text of a list of rows: rows joined on their wrap flag, trailing empty cells stripped. */
module Text {
  import opened RenderModel

  /** `occupied_cell_count`: one past the last cell that is not empty. */
  function OccupiedCellCount(cells: seq<RenderCell>): (n: nat)
    ensures n <= |cells|
    ensures n > 0 ==> !CellIsEmpty(cells[n - 1])
    ensures forall i :: n <= i < |cells| ==> CellIsEmpty(cells[i])
  {
    if cells == [] then 0
    else if !CellIsEmpty(cells[|cells| - 1]) then |cells|
    else OccupiedCellCount(cells[..|cells| - 1])
  }

  function Strip(cells: seq<RenderCell>): seq<RenderCell> {
    cells[..OccupiedCellCount(cells)]
  }

  predicate AllEmpty(cells: seq<RenderCell>) {
    forall i :: 0 <= i < |cells| ==> CellIsEmpty(cells[i])
  }

  lemma {:induction false} StripIgnoresEmptyTail(cells: seq<RenderCell>, tail: seq<RenderCell>)
    requires AllEmpty(tail)
    ensures Strip(cells + tail) == Strip(cells)
  {
    if tail == [] {
      assert cells + tail == cells;
    } else {
      var front := tail[..|tail| - 1];
      assert (cells + tail)[..|cells + tail| - 1] == cells + front;
      assert (cells + tail)[|cells + tail| - 1] == tail[|tail| - 1];
      StripIgnoresEmptyTail(cells, front);
      assert OccupiedCellCount(cells + tail) == OccupiedCellCount(cells + front);
      assert Strip(cells + tail) == Strip(cells + front);
    }
  }

  /** Result of joining rows so far: the finished lines, and the cells of the line still open. */
  datatype Joined = Joined(closed: seq<seq<RenderCell>>, open: seq<RenderCell>, isOpen: bool)

  const NOTHING := Joined([], [], false)

  function Join(j: Joined, row: Row): Joined {
    if row.wrapped then Joined(j.closed, j.open + row.cells, true)
    else Joined(j.closed + [j.open + row.cells], [], false)
  }

  function JoinAll(j: Joined, rows: seq<Row>): Joined {
    if rows == [] then j else Join(JoinAll(j, rows[..|rows| - 1]), rows[|rows| - 1])
  }

  /** The logical lines of `rows`; a wrapped last row still ends a line. */
  function Lines(rows: seq<Row>): seq<seq<RenderCell>> {
    var j := JoinAll(NOTHING, rows);
    if j.isOpen then j.closed + [j.open] else j.closed
  }

  function StripAll(lines: seq<seq<RenderCell>>): seq<seq<RenderCell>> {
    seq(|lines|, i requires 0 <= i < |lines| => Strip(lines[i]))
  }

  function TextOf(rows: seq<Row>): seq<seq<RenderCell>> {
    StripAll(Lines(rows))
  }

  lemma {:induction false} JoinAllAppend(j: Joined, a: seq<Row>, b: seq<Row>)
    ensures JoinAll(j, a + b) == JoinAll(JoinAll(j, a), b)
    decreases |b|
  {
    if b == [] {
      assert a + b == a;
    } else {
      assert (a + b)[..|a + b| - 1] == a + b[..|b| - 1];
      JoinAllAppend(j, a, b[..|b| - 1]);
    }
  }

  /** Logical position of a cell: which line it is on, and its offset in that line. */
  datatype Position = Position(line: nat, offset: int)

  function PositionOf(rows: seq<Row>, row: nat, column: nat): Position
    requires row <= |rows|
  {
    var j := JoinAll(NOTHING, rows[..row]);
    Position(|j.closed|, |j.open| + column)
  }

  /* ----- what counts as empty ----- */

  /** A cell is empty exactly when it is a blank or a tab with the looks of an untouched cell: bold and
      italic do not show on it. */
  lemma EmptyCellsShowNothing(cell: RenderCell)
    ensures CellIsEmpty(cell) <==>
            && (cell.ch == ' ' || cell.ch == '\t')
            && cell.(ch := ' ', style := cell.style.(bold := false, italic := false)) == EMPTY_CELL
  {
    var style := cell.style;
    assert cell == RenderCell(cell.ch, cell.width, CellStyle(style.foreground, style.background, style.bold,
                                                             style.italic, style.underline, style.inverse),
                              cell.image);
  }

  /** A row is empty exactly when it ends its line and has no text. */
  lemma EmptyRowsHaveNoText(row: Row)
    ensures row.IsEmpty() <==> !row.wrapped && Strip(row.cells) == []
    ensures row.IsEmpty() ==> TextOf([row]) == [[]]
  {
    assert [row][..0] == [];
    assert JoinAll(NOTHING, [row]) == Join(NOTHING, row);
    assert [] + row.cells == row.cells;
    if row.IsEmpty() {
      assert Lines([row]) == [row.cells];
    }
  }
}
