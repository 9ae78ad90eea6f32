/** The terminal state as a value, and what each action does to it. The contracts say what an action
    leaves alone: the grid, the screen behind, the handles, and every row that is not damaged. */
module TerminalModel {
  import opened RenderModel
  import opened Protocol
  import opened History
  import Sgr

  /* ----- configuration ----- */

  datatype Dimensions = Dimensions(columns: nat, rows: nat)

  const MAX_COLUMNS := 4096
  const MAX_ROWS := 4096
  const MAX_VIEWPORT_CELLS := 1_048_576

  predicate Sized(d: Dimensions) {
    0 < d.columns && 0 < d.rows
  }

  /** `Dimensions::new`: sizes that a terminal accepts. */
  predicate DimensionsOk(d: Dimensions) {
    && Sized(d)
    && d.columns <= MAX_COLUMNS
    && d.rows <= MAX_ROWS
    && d.columns * d.rows <= MAX_VIEWPORT_CELLS
  }

  /** Fixed for the life of a terminal: scrollback budgets, and the width of each character. */
  datatype Setup = Setup(budget: Budget, unicodeWidth: char -> Option<nat>)

  function PrintableWidth(setup: Setup, ch: char): (w: nat)
    ensures w <= 2
  {
    match setup.unicodeWidth(ch)
    case None => 0
    case Some(width) => Min(width, 2)
  }

  /* ----- state ----- */

  /** The contents of one screen. */
  datatype Surface = Surface(rows: seq<Row>, cursor: CursorState, pendingWrap: bool)

  datatype SavedCursor = SavedCursor(screen: ScreenIdentity, cursor: CursorState)

  /** `archived` (rows pushed to scrollback since the last resize, after what that resize left
      there) and `rendered` (the last viewport handed out) are history only. */
  datatype Term = Term(
    setup: Setup,
    dims: Dimensions,
    primary: Surface,
    alternate: Surface,
    active: ScreenIdentity,
    scrollback: seq<Row>,
    nextRowId: nat,
    damage: set<nat>,
    style: CellStyle,
    saved: Option<SavedCursor>,
    archived: seq<Row>,
    rendered: seq<Row>)

  function Active(s: Term): Surface {
    if s.active.Primary? then s.primary else s.alternate
  }

  function WithActive(s: Term, f: Surface): Term {
    if s.active.Primary? then s.(primary := f) else s.(alternate := f)
  }

  predicate SurfaceFits(f: Surface, d: Dimensions) {
    && |f.rows| == d.rows
    && AllWidth(f.rows, d.columns)
    && f.cursor.row < d.rows
    && f.cursor.column < d.columns
    && (f.pendingWrap ==> f.cursor.column == d.columns - 1)
  }

  /** The active screen has the size of the terminal; the cursor and the damage lie on it. */
  predicate Fits(s: Term) {
    && Sized(s.dims)
    && SurfaceFits(Active(s), s.dims)
    && forall row :: row in s.damage ==> row < s.dims.rows
  }

  /* ----- what an action leaves alone ----- */

  predicate SameButVisible(f: Surface, g: Surface) {
    && f.rows == g.rows
    && f.pendingWrap == g.pendingWrap
    && f.cursor.row == g.cursor.row
    && f.cursor.column == g.cursor.column
  }

  ghost predicate SameVisible(s: Term, t: Term) {
    && t.primary.cursor.visible == s.primary.cursor.visible
    && t.alternate.cursor.visible == s.alternate.cursor.visible
  }

  /** Nothing changes behind the active screen, and while the alternate screen is active the
      scrollback does not change either. Both cursors stay as visible as they are. */
  ghost predicate Framed(s: Term, t: Term) {
    && t.setup == s.setup && t.dims == s.dims && t.active == s.active && t.rendered == s.rendered && t.saved == s.saved
    && s.nextRowId <= t.nextRowId
    && SameVisible(s, t)
    && (s.active.Primary? ==> SameButVisible(s.alternate, t.alternate))
    && (s.active.Alternate? ==>
          && SameButVisible(s.primary, t.primary)
          && t.scrollback == s.scrollback && t.archived == s.archived)
  }

  ghost predicate RowsEdited(before: seq<Row>, after: seq<Row>, damage: set<nat>) {
    && |after| == |before|
    && (forall i :: 0 <= i < |before| ==> after[i].handle == before[i].handle)
    && (forall i :: 0 <= i < |before| && after[i] != before[i] ==> i in damage)
  }

  /** Rows of the active screen change in place, and every changed row is damaged. */
  ghost predicate Local(s: Term, t: Term) {
    && Framed(s, t)
    && t.scrollback == s.scrollback && t.archived == s.archived && t.nextRowId == s.nextRowId
    && RowsEdited(Active(s).rows, Active(t).rows, t.damage)
    && s.damage <= t.damage
  }

  /* ----- cursor and damage ----- */

  function MarkRow(s: Term, row: nat): Term {
    s.(damage := s.damage + {row})
  }

  function AllRows(n: nat): (rows: set<nat>)
    ensures forall row :: row in rows <==> 0 <= row < n
  {
    if n == 0 then {} else AllRows(n - 1) + {n - 1}
  }

  function MarkAll(s: Term): Term {
    s.(damage := s.damage + AllRows(s.dims.rows))
  }

  function MoveTo(f: Surface, row: nat, column: nat, pendingWrap: bool): Surface {
    f.(cursor := CursorState(row, column, f.cursor.visible), pendingWrap := pendingWrap)
  }

  /** Move the cursor of the active screen and forget a pending wrap; damage `row`. */
  function PlaceCursorAt(s: Term, row: nat, column: nat): (t: Term)
    requires Fits(s) && row < s.dims.rows && column < s.dims.columns
    ensures Fits(t) && Local(s, t)
  {
    MarkRow(WithActive(s, MoveTo(Active(s), row, column, false)), row)
  }

  function SetCursorPosition(s: Term, row: nat, column: nat): (t: Term)
    requires Fits(s) && row < s.dims.rows && column < s.dims.columns
    ensures Fits(t) && Local(s, t)
  {
    PlaceCursorAt(MarkRow(s, Active(s).cursor.row), row, column)
  }

  function SetVisible(f: Surface, visible: bool): Surface {
    f.(cursor := f.cursor.(visible := visible))
  }

  function SetCursorVisible(s: Term, visible: bool): Term {
    MarkRow(
      s.(primary := SetVisible(s.primary, visible), alternate := SetVisible(s.alternate, visible)),
      Active(s).cursor.row)
  }

  /* ----- C0 controls ----- */

  function StepBack(s: Term): (t: Term)
    requires Fits(s)
    ensures Fits(t) && Local(s, t)
  {
    var cursor := Active(s).cursor;
    PlaceCursorAt(s, cursor.row, Max(cursor.column - 1, 0))
  }

  function Tab(s: Term): (t: Term)
    requires Fits(s)
    ensures Fits(t) && Local(s, t)
  {
    var cursor := Active(s).cursor;
    PlaceCursorAt(s, cursor.row, Min((cursor.column / 8 + 1) * 8, s.dims.columns - 1))
  }

  function ReturnCarriage(s: Term): (t: Term)
    requires Fits(s)
    ensures Fits(t) && Local(s, t)
  {
    PlaceCursorAt(s, Active(s).cursor.row, 0)
  }

  /** Scroll the active screen by one row; on the primary the top row is archived. */
  function ScrollActiveUp(s: Term): (t: Term)
    requires Fits(s)
    ensures Fits(t) && Framed(s, t)
  {
    var f := Active(s);
    var scrolled := WithActive(s, f.(rows := f.rows[1..] + [BlankRow(s.dims.columns, s.nextRowId)]));
    var archived := if s.active.Primary? then [f.rows[0]] else [];
    MarkAll(scrolled.(
            nextRowId := s.nextRowId + 1,
            scrollback := if s.active.Primary? then Retained(s.setup.budget, s.scrollback + archived) else s.scrollback,
            archived := s.archived + archived))
  }

  function MoveDownOrScroll(s: Term): (t: Term)
    requires Fits(s) && !Active(s).pendingWrap
    ensures Fits(t) && Framed(s, t) && !Active(t).pendingWrap
    ensures Active(s).cursor.row + 1 < s.dims.rows ==> Local(s, t)
  {
    var cursor := Active(s).cursor;
    if cursor.row + 1 < s.dims.rows then
      PlaceCursorAt(MarkRow(s, cursor.row), cursor.row + 1, cursor.column)
    else
      ScrollActiveUp(s)
  }

  function ClearPending(s: Term): (t: Term)
    requires Fits(s)
    ensures Fits(t) && Local(s, t) && !Active(t).pendingWrap
  {
    WithActive(s, Active(s).(pendingWrap := false))
  }

  function FeedLine(s: Term): (t: Term)
    requires Fits(s)
    ensures Fits(t) && Framed(s, t)
  {
    MoveDownOrScroll(ClearPending(s))
  }

  function ApplyControl(s: Term, kind: C0ControlKind): (t: Term)
    requires Fits(s)
    ensures Fits(t) && Framed(s, t)
  {
    match kind
    case Backspace => StepBack(s)
    case HorizontalTab => Tab(s)
    case LineFeed | VerticalTab | FormFeed => FeedLine(s)
    case CarriageReturn => ReturnCarriage(s)
    case _ => s
  }

  /* ----- printing ----- */

  function SetCell(f: Surface, row: nat, column: nat, cell: RenderCell): Surface
    requires row < |f.rows| && column < |f.rows[row].cells|
  {
    f.(rows := f.rows[row := f.rows[row].(cells := f.rows[row].cells[column := cell])])
  }

  function WriteCell(s: Term, row: nat, column: nat, cell: RenderCell): (t: Term)
    requires Fits(s) && row < s.dims.rows && column < s.dims.columns
    ensures Fits(t) && Local(s, t)
    ensures Active(t) == SetCell(Active(s), row, column, cell)
  {
    MarkRow(WithActive(s, SetCell(Active(s), row, column, cell)), row)
  }

  /** The other half of the wide pair at `column`, if there is one. */
  function WidePartner(cells: seq<RenderCell>, column: nat): (p: Option<nat>)
    requires column < |cells|
    ensures p.Some? ==> p.value < |cells|
  {
    if cells[column].width > 1 && column + 1 < |cells| && cells[column + 1].width == 0 then Some(column + 1)
    else if cells[column].width == 0 && column > 0 && cells[column - 1].width > 1 then Some(column - 1)
    else None
  }

  /** A row's cells once the other half of the pair at `column` is blanked. */
  function Unpaired(cells: seq<RenderCell>, column: nat): (r: seq<RenderCell>)
    requires column < |cells|
    ensures |r| == |cells|
  {
    match WidePartner(cells, column)
    case None => cells
    case Some(partner) => cells[partner := TextCell(' ', 1, cells[partner].style)]
  }

  function WithCells(f: Surface, row: nat, cells: seq<RenderCell>): Surface
    requires row < |f.rows|
  {
    f.(rows := f.rows[row := f.rows[row].(cells := cells)])
  }

  function ClearWidePartner(s: Term, row: nat, column: nat): (t: Term)
    requires Fits(s)
    ensures Fits(t) && Local(s, t)
    ensures row < s.dims.rows && column < s.dims.columns ==>
              Active(t) == WithCells(Active(s), row, Unpaired(Active(s).rows[row].cells, column))
    ensures Active(t).cursor == Active(s).cursor && Active(t).pendingWrap == Active(s).pendingWrap
  {
    if row >= s.dims.rows || column >= s.dims.columns then s
    else
      var cells := Active(s).rows[row].cells;
      match WidePartner(cells, column)
      case None => s
      case Some(partner) => WriteCell(s, row, partner, TextCell(' ', 1, cells[partner].style))
  }

  function WrapPending(s: Term): (t: Term)
    requires Fits(s)
    ensures Fits(t) && Framed(s, t) && !Active(t).pendingWrap && Active(t).cursor.column == 0
  {
    var f := Active(s);
    var row := f.cursor.row;
    var wrapped := f.(rows := f.rows[row := f.rows[row].(wrapped := true)], pendingWrap := false);
    var down := MoveDownOrScroll(MarkRow(WithActive(s, wrapped), row));
    WithActive(down, MoveTo(Active(down), Active(down).cursor.row, 0, false))
  }

  /** No room for a wide character in the last column: blank it and wrap. */
  function WrapBeforeWide(s: Term): (t: Term)
    requires Fits(s)
    ensures Fits(t) && Framed(s, t) && !Active(t).pendingWrap && Active(t).cursor.column == 0
  {
    var cursor := Active(s).cursor;
    var cleared := ClearWidePartner(s, cursor.row, cursor.column);
    WrapPending(WriteCell(cleared, cursor.row, cursor.column, TextCell(' ', 1, s.style)))
  }

  /** Write a glyph over `width` cells, blanking halves of pairs that it overwrites. */
  function WriteGlyph(s: Term, row: nat, column: nat, ch: char, width: nat): (t: Term)
    requires Fits(s) && row < s.dims.rows && 1 <= width <= 2 && column + width <= s.dims.columns
    ensures Fits(t) && Local(s, t)
  {
    var first := ClearWidePartner(s, row, column);
    var cleared := if width > 1 then ClearWidePartner(first, row, column + 1) else first;
    var lead := WriteCell(cleared, row, column, TextCell(ch, width, s.style));
    if width > 1 then WriteCell(lead, row, column + 1, TextCell(' ', 0, s.style)) else lead
  }

  function PlaceGlyph(s: Term, ch: char, width: nat): (t: Term)
    requires Fits(s) && 1 <= width <= 2 && Active(s).cursor.column + width <= s.dims.columns
    requires !Active(s).pendingWrap
    ensures Fits(t) && Local(s, t)
  {
    var row, column := Active(s).cursor.row, Active(s).cursor.column;
    var glyph := WriteGlyph(s, row, column, ch, width);
    var end := column + width;
    if end >= s.dims.columns
    then WithActive(glyph, MoveTo(Active(glyph), row, s.dims.columns - 1, true))
    else WithActive(glyph, MoveTo(Active(glyph), row, end, Active(glyph).pendingWrap))
  }

  function GlyphWidth(s: Term, ch: char): nat {
    Min(PrintableWidth(s.setup, ch), Min(s.dims.columns, 2))
  }

  /** A pending wrap is carried out first, even when the character itself has no width. */
  function AfterPendingWrap(s: Term): (t: Term)
    requires Fits(s)
    ensures Fits(t) && Framed(s, t) && !Active(t).pendingWrap
  {
    if Active(s).pendingWrap then WrapPending(s) else s
  }

  function PrintChar(s: Term, ch: char): (t: Term)
    requires Fits(s)
    ensures Fits(t) && Framed(s, t)
  {
    var u := AfterPendingWrap(s);
    var width := GlyphWidth(s, ch);
    if width == 0 then u
    else if width > 1 && Active(u).cursor.column + width > s.dims.columns then
      PlaceGlyph(WrapBeforeWide(u), ch, width)
    else PlaceGlyph(u, ch, width)
  }

  /* ----- erasure ----- */

  function ErasedCell(background: Option<Color>): RenderCell {
    TextCell(' ', 1, CellStyle(None, background, false, false, false, false))
  }

  function EraseCells(cells: seq<RenderCell>, start: nat, end: nat, cell: RenderCell): (r: seq<RenderCell>)
    ensures |r| == |cells|
  {
    seq(|cells|, i requires 0 <= i < |cells| => if start <= i < end then cell else cells[i])
  }

  /** Erase columns `start..end` of a row. Erasing up to the last column also ends the line there. */
  function FillErased(s: Term, row: nat, start: nat, end: nat, background: Option<Color>): (t: Term)
    requires Fits(s)
    ensures Fits(t) && Local(s, t)
  {
    if row >= s.dims.rows || start >= s.dims.columns || start >= end then s
    else
      var f := Active(s);
      var source := f.rows[row];
      var erased := source.(
        cells := EraseCells(source.cells, start, end, ErasedCell(background)),
        wrapped := source.wrapped && end < s.dims.columns);
      MarkRow(WithActive(s, f.(rows := f.rows[row := erased])), row)
  }

  lemma LocalTransitive(s: Term, t: Term, u: Term)
    requires Local(s, t) && Local(t, u)
    ensures Local(s, u)
  {
  }

  /** Erase whole rows `from..end`. */
  function FillRows(s: Term, from: nat, end: nat, background: Option<Color>): (t: Term)
    requires Fits(s)
    ensures Fits(t) && Local(s, t)
    decreases end
  {
    if end <= from then s
    else
      var u := FillRows(s, from, end - 1, background);
      var t := FillErased(u, end - 1, 0, s.dims.columns, background);
      LocalTransitive(s, u, t);
      t
  }

  function EraseDisplayFromCursor(s: Term): (t: Term)
    requires Fits(s)
    ensures Fits(t) && Local(s, t)
  {
    var cursor := Active(s).cursor;
    var u := FillErased(s, cursor.row, cursor.column, s.dims.columns, s.style.background);
    var v := FillRows(u, cursor.row + 1, s.dims.rows, None);
    var t := ClearPending(v);
    LocalTransitive(s, u, v);
    LocalTransitive(s, v, t);
    t
  }

  function EraseDisplayToCursor(s: Term): (t: Term)
    requires Fits(s)
    ensures Fits(t) && Local(s, t)
  {
    var cursor := Active(s).cursor;
    var u := FillRows(s, 0, cursor.row, None);
    var v := FillErased(u, cursor.row, 0, Min(cursor.column + 1, s.dims.columns), s.style.background);
    var t := ClearPending(v);
    LocalTransitive(s, u, v);
    LocalTransitive(s, v, t);
    t
  }

  /** One past the last row that is not empty, but at least 1. */
  function OccupiedRows(rows: seq<Row>): (n: nat)
    ensures 1 <= n && (rows != [] ==> n <= |rows|)
    ensures n > 1 ==> n <= |rows| && !rows[n - 1].IsEmpty()
    ensures forall i :: n <= i < |rows| ==> rows[i].IsEmpty()
  {
    if |rows| <= 1 then 1
    else if !rows[|rows| - 1].IsEmpty() then |rows|
    else OccupiedRows(rows[..|rows| - 1])
  }

  function ScrollTimes(s: Term, n: nat): (t: Term)
    requires Fits(s)
    ensures Fits(t) && Framed(s, t)
  {
    if n == 0 then s else ScrollActiveUp(ScrollTimes(s, n - 1))
  }

  function ArchiveOccupied(s: Term): (t: Term)
    requires Fits(s)
    ensures Fits(t) && Framed(s, t)
  {
    if s.active.Primary? then ScrollTimes(s, OccupiedRows(s.primary.rows)) else s
  }

  function EraseDisplayAll(s: Term): (t: Term)
    requires Fits(s)
    ensures Fits(t) && Framed(s, t)
  {
    ClearPending(FillRows(ArchiveOccupied(s), 0, s.dims.rows, s.style.background))
  }

  function EraseThenClearPending(s: Term, start: nat, end: nat): (t: Term)
    requires Fits(s)
    ensures Fits(t) && Local(s, t)
  {
    var u := FillErased(s, Active(s).cursor.row, start, end, s.style.background);
    var t := ClearPending(u);
    LocalTransitive(s, u, t);
    t
  }

  function EraseLineFromCursor(s: Term): (t: Term)
    requires Fits(s)
    ensures Fits(t) && Local(s, t)
  {
    if Active(s).pendingWrap then s
    else EraseThenClearPending(s, Active(s).cursor.column, s.dims.columns)
  }

  function EraseLineToCursor(s: Term): (t: Term)
    requires Fits(s)
    ensures Fits(t) && Local(s, t)
  {
    EraseThenClearPending(s, 0, Min(Active(s).cursor.column + 1, s.dims.columns))
  }

  function EraseLineAll(s: Term): (t: Term)
    requires Fits(s)
    ensures Fits(t) && Local(s, t)
  {
    EraseThenClearPending(s, 0, s.dims.columns)
  }

  /* ----- CSI sequences ----- */

  function ParamOr(sequence: CsiSequence, index: nat, default: nat): nat {
    if index < |sequence.params| && sequence.params[index].subparameters != []
       && sequence.params[index].subparameters[0] != 0
    then sequence.params[index].subparameters[0]
    else default
  }

  function OneBasedToIndex(value: nat, extent: nat): (i: nat)
    requires extent > 0
    ensures i < extent
  {
    Min(Max(value - 1, 0), extent - 1)
  }

  function EraseCharacters(s: Term, sequence: CsiSequence): (t: Term)
    requires Fits(s)
    ensures Fits(t) && Local(s, t)
  {
    var column := Active(s).cursor.column;
    EraseThenClearPending(s, column, Min(column + ParamOr(sequence, 0, 1), s.dims.columns))
  }

  predicate IsCursorMove(action: char) {
    action in "ABCaDEFG`Hfd"
  }

  /** Row and column a cursor-moving sequence goes to. */
  function CursorTarget(s: Term, sequence: CsiSequence): (target: (nat, nat))
    requires Fits(s)
    ensures target.0 < s.dims.rows && target.1 < s.dims.columns
  {
    var cursor := Active(s).cursor;
    var count := ParamOr(sequence, 0, 1);
    var up, down := Max(cursor.row - count, 0), Min(cursor.row + count, s.dims.rows - 1);
    match sequence.action
    case 'A' => (up, cursor.column)
    case 'B' => (down, cursor.column)
    case 'C' => (cursor.row, Min(cursor.column + count, s.dims.columns - 1))
    case 'a' => (cursor.row, Min(cursor.column + count, s.dims.columns - 1))
    case 'D' => (cursor.row, Max(cursor.column - count, 0))
    case 'E' => (down, 0)
    case 'F' => (up, 0)
    case 'G' => (cursor.row, OneBasedToIndex(count, s.dims.columns))
    case '`' => (cursor.row, OneBasedToIndex(count, s.dims.columns))
    case 'd' => (OneBasedToIndex(count, s.dims.rows), cursor.column)
    case _ => (OneBasedToIndex(count, s.dims.rows), OneBasedToIndex(ParamOr(sequence, 1, 1), s.dims.columns))
  }

  function EraseInDisplay(s: Term, mode: nat): (t: Term)
    requires Fits(s)
    ensures Fits(t) && Framed(s, t)
    ensures mode != 2 ==> Local(s, t)
  {
    match mode
    case 0 => EraseDisplayFromCursor(s)
    case 1 => EraseDisplayToCursor(s)
    case 2 => EraseDisplayAll(s)
    case _ => s
  }

  function EraseInLine(s: Term, mode: nat): (t: Term)
    requires Fits(s)
    ensures Fits(t) && Local(s, t)
  {
    match mode
    case 0 => EraseLineFromCursor(s)
    case 1 => EraseLineToCursor(s)
    case 2 => EraseLineAll(s)
    case _ => s
  }

  predicate ErasesDisplay(sequence: CsiSequence) {
    sequence.action == 'J' && ParamOr(sequence, 0, 0) == 2
  }

  function ApplyPlainCsi(s: Term, sequence: CsiSequence): (t: Term)
    requires Fits(s)
    ensures Fits(t) && Framed(s, t)
    ensures if ErasesDisplay(sequence) && !IsCursorMove(sequence.action)
            then t == EraseDisplayAll(s) else Local(s, t)
  {
    if IsCursorMove(sequence.action) then
      var target := CursorTarget(s, sequence);
      SetCursorPosition(s, target.0, target.1)
    else
      match sequence.action
      case 'J' => EraseInDisplay(s, ParamOr(sequence, 0, 0))
      case 'K' => EraseInLine(s, ParamOr(sequence, 0, 0))
      case 'X' => EraseCharacters(s, sequence)
      case 'm' => s.(style := Sgr.Styled(s.style, Sgr.Flatten(sequence.params)))
      case _ => s
  }

  /* ----- DEC private modes ----- */

  function FreshSurface(d: Dimensions, id: nat): Surface {
    Surface(BlankRows(d.columns, id, d.rows), CursorState(0, 0, true), false)
  }

  function ResetAlternate(s: Term): Term {
    s.(alternate := FreshSurface(s.dims, s.nextRowId), nextRowId := s.nextRowId + s.dims.rows)
  }

  function EnterAlternate(s: Term, clear: bool): Term {
    MarkAll((if clear then ResetAlternate(s) else s).(active := Alternate))
  }

  function ExitAlternate(s: Term, clear: bool): Term {
    MarkAll((if clear && s.active.Alternate? then ResetAlternate(s) else s).(active := Primary))
  }

  function SaveCursor(s: Term): Term {
    s.(saved := Some(SavedCursor(s.active, Active(s).cursor)))
  }

  function RestoreCursor(s: Term): Term {
    if s.saved.None? || s.saved.value.screen != s.active then s
    else
      var row := Min(s.saved.value.cursor.row, Max(s.dims.rows - 1, 0));
      var column := Min(s.saved.value.cursor.column, Max(s.dims.columns - 1, 0));
      MarkRow(WithActive(s, MoveTo(Active(s), row, column, false)), row)
  }

  function DecMode(s: Term, mode: nat, enabled: bool): Term {
    match mode
    case 25 => SetCursorVisible(s, enabled)
    case 47 => if enabled then EnterAlternate(s, false) else ExitAlternate(s, false)
    case 1047 => if enabled then EnterAlternate(s, false) else ExitAlternate(s, true)
    case 1048 => if enabled then SaveCursor(s) else RestoreCursor(s)
    case 1049 =>
      if enabled then EnterAlternate(SaveCursor(s), true) else RestoreCursor(ExitAlternate(s, true))
    case _ => s
  }

  function DecParam(s: Term, param: CsiParam, enabled: bool): Term {
    if param.subparameters == [] then s else DecMode(s, param.subparameters[0], enabled)
  }

  function DecModes(s: Term, params: seq<CsiParam>, enabled: bool): Term {
    if params == [] then s
    else DecParam(DecModes(s, params[..|params| - 1], enabled), params[|params| - 1], enabled)
  }

  const QUESTION_MARK: seq<byte> := [0x3f]

  function ApplyCsi(s: Term, sequence: CsiSequence): Term
    requires Fits(s)
  {
    if sequence.ignored then s
    else if sequence.intermediates == [] then ApplyPlainCsi(s, sequence)
    else if sequence.intermediates == QUESTION_MARK && (sequence.action == 'h' || sequence.action == 'l') then
      DecModes(s, sequence.params, sequence.action == 'h')
    else s
  }

  /** What a sequence reports back as unsupported. */
  function Reported(sequence: CsiSequence): seq<TerminalAction> {
    if sequence.ignored then [Unsupported(ParserIgnored)]
    else if sequence.intermediates == [] && sequence.action in "JK" && ParamOr(sequence, 0, 0) > 2
    then [Unsupported(OtherUnsupported)]
    else []
  }

  function ApplyAction(s: Term, action: TerminalAction): Term
    requires Fits(s)
  {
    match action
    case Print(ch) => PrintChar(s, ch)
    case Control(b) => ApplyControl(s, ControlKind(b))
    case Csi(sequence) => ApplyCsi(s, sequence)
    case _ => s
  }
}
