/** The renderer-neutral values of the terminal: colours, styles, cells, row handles, rows. */
module RenderModel {

  datatype Option<+T> = None | Some(value: T)

  datatype Color = Indexed(index: nat) | Rgb(red: nat, green: nat, blue: nat)

  datatype CellStyle = CellStyle(
    foreground: Option<Color>,
    background: Option<Color>,
    bold: bool,
    italic: bool,
    underline: bool,
    inverse: bool)

  const DEFAULT_STYLE := CellStyle(None, None, false, false, false, false)

  /** One cell. Width 2 is a wide lead, width 0 the spacer that follows it. */
  datatype RenderCell = RenderCell(ch: char, width: nat, style: CellStyle, image: Option<string>)

  const EMPTY_CELL := RenderCell(' ', 1, DEFAULT_STYLE, None)

  function TextCell(ch: char, width: nat, style: CellStyle): RenderCell {
    RenderCell(ch, width, style, None)
  }

  /** `render_cell_is_empty`: a cell that a reflow may drop from the end of a line. */
  predicate CellIsEmpty(cell: RenderCell) {
    && (cell.ch == ' ' || cell.ch == '\t')
    && cell.width == 1
    && cell.style.foreground.None?
    && cell.style.background.None?
    && !cell.style.underline
    && !cell.style.inverse
    && cell.image.None?
  }

  datatype ScreenIdentity = Primary | Alternate

  datatype CursorState = CursorState(row: nat, column: nat, visible: bool)

  datatype RowHandle = RowHandle(id: nat, generation: nat)

  function NextGeneration(handle: RowHandle): RowHandle {
    handle.(generation := handle.generation + 1)
  }

  datatype Row = Row(handle: RowHandle, cells: seq<RenderCell>, wrapped: bool) {
    predicate IsEmpty() {
      !wrapped && forall i :: 0 <= i < |cells| ==> CellIsEmpty(cells[i])
    }

    /** `Row::resize_width`: cut or pad with empty cells, forget the wrap, start a new generation. */
    function ResizeWidth(columns: nat): Row {
      Row(NextGeneration(handle), Resized(cells, columns), false)
    }
  }

  function Blanks(n: nat): (cells: seq<RenderCell>)
    ensures |cells| == n
  {
    seq(n, _ => EMPTY_CELL)
  }

  /** `Vec::resize` with empty cells. */
  function Resized(cells: seq<RenderCell>, columns: nat): (r: seq<RenderCell>)
    ensures |r| == columns
    ensures forall i :: 0 <= i < columns ==> r[i] == if i < |cells| then cells[i] else EMPTY_CELL
  {
    if columns <= |cells| then cells[..columns] else cells + Blanks(columns - |cells|)
  }

  function BlankRow(columns: nat, id: nat): (row: Row)
    ensures |row.cells| == columns
  {
    Row(RowHandle(id, 0), Blanks(columns), false)
  }

  predicate AllWidth(rows: seq<Row>, columns: nat) {
    forall i :: 0 <= i < |rows| ==> |rows[i].cells| == columns
  }

  /** `n` blank rows with consecutive fresh ids. */
  function BlankRows(columns: nat, id: nat, n: nat): (rows: seq<Row>)
    ensures |rows| == n && AllWidth(rows, columns)
  {
    var rows := seq(n, i requires 0 <= i < n => BlankRow(columns, id + i));
    assert forall i :: 0 <= i < n ==> rows[i] == BlankRow(columns, id + i);
    rows
  }

  function Min(a: int, b: int): int {
    if a <= b then a else b
  }

  function Max(a: int, b: int): int {
    if a <= b then b else a
  }
}
