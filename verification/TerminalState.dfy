/** The terminal state as the engine keeps it: screens, history and damage updated in place. Every
    method is proved to do what `TerminalModel` and `TerminalResize` say. */
module TerminalState {
  import opened RenderModel
  import opened Protocol
  import opened History
  import opened Snapshot
  import Model = TerminalModel
  import Resizing = TerminalResize
  import Runs = TerminalRuns
  import R = Reflow
  import Sgr
  import S = Screen
  import B = Scrollback
  import D = DamageTracker

  lemma TakesOneBack(history: seq<Row>, rows: seq<Row>, n: nat)
    requires n < |history|
    ensures [history[n]] + (history[n + 1..] + rows) == history[n..] + rows
    ensures history[..n + 1][..n] == history[..n]
  {
    assert history[n..] == [history[n]] + history[n + 1..];
  }

  class TerminalState {
    const setup: Model.Setup
    var dims: Model.Dimensions
    var primary: S.Screen
    var alternate: S.Screen
    var active: ScreenIdentity
    var scrollback: B.Scrollback
    var nextRowId: nat
    var damage: D.DamageTracker
    var style: CellStyle
    var saved: Option<Model.SavedCursor>
    ghost var archived: seq<Row>
    ghost var rendered: seq<Row>

    ghost predicate Valid()
      reads this, scrollback
    {
      primary != alternate && scrollback.Valid() && scrollback.budget == setup.budget
    }

    ghost function Repr(): set<object>
      reads this
    {
      {this, primary, alternate, scrollback, damage}
    }

    /** The state as a value. */
    ghost function View(): Model.Term
      reads this, primary, alternate, scrollback, damage
    {
      Model.Term(setup, dims, primary.View(), alternate.View(), active, scrollback.rows, nextRowId,
                 damage.rows, style, saved, archived, rendered)
    }

    twostate predicate SameObjects()
      reads this
    {
      && primary == old(primary) && alternate == old(alternate)
      && scrollback == old(scrollback) && damage == old(damage)
    }

    constructor (setup: Model.Setup, d: Model.Dimensions)
      ensures Valid() && fresh(Repr())
      ensures View() == Runs.Initial(setup, d)
    {
      this.setup := setup;
      this.dims := d;
      var id := 1;
      var first, second;
      first, id := S.Screen.New(d, id);
      second, id := S.Screen.New(d, id);
      primary, alternate := first, second;
      active := Primary;
      scrollback := new B.Scrollback(setup.budget);
      nextRowId := id;
      damage := new D.DamageTracker.DirtyAll(d.rows);
      style := DEFAULT_STYLE;
      saved := None;
      archived, rendered := [], [];
    }

    function ActiveScreen(): S.Screen
      reads this
    {
      if active.Primary? then primary else alternate
    }

    /* ----- cursor ----- */

    method PlaceCursorAt(row: nat, column: nat)
      requires Valid() && Model.Fits(View()) && row < dims.rows && column < dims.columns
      modifies Repr()
      ensures Valid() && SameObjects()
      ensures View() == Model.PlaceCursorAt(old(View()), row, column)
    {
      var screen := ActiveScreen();
      screen.pendingWrap := false;
      screen.SetCursor(row, column);
      damage.Mark(row);
    }

    method SetCursorPosition(row: nat, column: nat)
      requires Valid() && Model.Fits(View()) && row < dims.rows && column < dims.columns
      modifies Repr()
      ensures Valid() && SameObjects()
      ensures View() == Model.SetCursorPosition(old(View()), row, column)
    {
      var screen := ActiveScreen();
      var previousRow := screen.cursor.row;
      screen.pendingWrap := false;
      screen.SetCursor(row, column);
      damage.Mark(previousRow);
      damage.Mark(row);
    }

    method SetCursorVisible(visible: bool)
      requires Valid()
      modifies Repr()
      ensures Valid() && SameObjects()
      ensures View() == Model.SetCursorVisible(old(View()), visible)
    {
      var row := ActiveScreen().cursor.row;
      primary.SetCursorVisible(visible);
      alternate.SetCursorVisible(visible);
      damage.Mark(row);
    }

    method Backspace()
      requires Valid() && Model.Fits(View())
      modifies Repr()
      ensures Valid() && SameObjects()
      ensures View() == Model.StepBack(old(View()))
    {
      var cursor := ActiveScreen().cursor;
      PlaceCursorAt(cursor.row, Max(cursor.column - 1, 0));
    }

    method HorizontalTab()
      requires Valid() && Model.Fits(View())
      modifies Repr()
      ensures Valid() && SameObjects()
      ensures View() == Model.Tab(old(View()))
    {
      var cursor := ActiveScreen().cursor;
      var nextStop := (cursor.column / 8 + 1) * 8;
      PlaceCursorAt(cursor.row, Min(nextStop, dims.columns - 1));
    }

    method CarriageReturn()
      requires Valid() && Model.Fits(View())
      modifies Repr()
      ensures Valid() && SameObjects()
      ensures View() == Model.ReturnCarriage(old(View()))
    {
      PlaceCursorAt(ActiveScreen().cursor.row, 0);
    }

    /* ----- scrolling ----- */

    method ScrollActiveScreenUp()
      requires Valid() && Model.Fits(View())
      modifies Repr()
      ensures Valid() && SameObjects()
      ensures View() == Model.ScrollActiveUp(old(View()))
    {
      hide Retained, WithinBudget, Bytes, Model.RowsEdited;
      var newRow := BlankRow(dims.columns, nextRowId);
      nextRowId := nextRowId + 1;
      var screen := ActiveScreen();
      var removed := screen.ScrollUp(newRow);
      if active.Primary? {
        scrollback.Push(removed);
        archived := archived + [removed];
      }
      damage.MarkAll(dims.rows);
    }

    method MoveDownOrScroll()
      requires Valid() && Model.Fits(View()) && !ActiveScreen().pendingWrap
      modifies Repr()
      ensures Valid() && SameObjects()
      ensures View() == Model.MoveDownOrScroll(old(View()))
    {
      var screen := ActiveScreen();
      var currentRow, currentColumn := screen.cursor.row, screen.cursor.column;
      if currentRow + 1 < dims.rows {
        screen.SetCursor(currentRow + 1, currentColumn);
        damage.Mark(currentRow);
        damage.Mark(currentRow + 1);
      } else {
        ScrollActiveScreenUp();
        screen.SetCursor(dims.rows - 1, currentColumn);
      }
    }

    method LineFeed()
      requires Valid() && Model.Fits(View())
      modifies Repr()
      ensures Valid() && SameObjects()
      ensures View() == Model.FeedLine(old(View()))
    {
      ActiveScreen().pendingWrap := false;
      MoveDownOrScroll();
    }

    method WrapPending()
      requires Valid() && Model.Fits(View())
      modifies Repr()
      ensures Valid() && SameObjects()
      ensures View() == Model.WrapPending(old(View()))
    {
      var screen := ActiveScreen();
      var row := screen.cursor.row;
      screen.rows := screen.rows[row := screen.rows[row].(wrapped := true)];
      screen.pendingWrap := false;
      damage.Mark(row);
      MoveDownOrScroll();
      screen.SetCursor(screen.cursor.row, 0);
    }

    method ApplyControl(kind: C0ControlKind)
      requires Valid() && Model.Fits(View())
      modifies Repr()
      ensures Valid() && SameObjects()
      ensures View() == Model.ApplyControl(old(View()), kind)
    {
      match kind
      case Backspace => Backspace();
      case HorizontalTab => HorizontalTab();
      case LineFeed | VerticalTab | FormFeed => LineFeed();
      case CarriageReturn => CarriageReturn();
      case _ =>
    }

    /* ----- printing ----- */

    method ClearWidePartnerAt(row: nat, column: nat)
      requires Valid() && Model.Fits(View())
      modifies Repr()
      ensures Valid() && SameObjects()
      ensures View() == Model.ClearWidePartner(old(View()), row, column)
    {
      var columns := dims.columns;
      if row >= dims.rows || column >= columns {
        return;
      }
      var screen := ActiveScreen();
      var cells := screen.rows[row].cells;
      var width := cells[column].width;
      var partner: nat;
      if width > 1 && column + 1 < columns {
        partner := column + 1;
      } else if width == 0 && column > 0 {
        partner := column - 1;
      } else {
        return;
      }
      var isPair := (width > 1 && cells[partner].width == 0) || (width == 0 && cells[partner].width > 1);
      if !isPair {
        return;
      }
      screen.PutCell(row, partner, TextCell(' ', 1, cells[partner].style));
      damage.Mark(row);
    }

    /** Write one cell of the active screen and damage its row. */
    method WriteCell(row: nat, column: nat, cell: RenderCell)
      requires Valid() && Model.Fits(View()) && row < dims.rows && column < dims.columns
      modifies Repr()
      ensures Valid() && SameObjects()
      ensures View() == Model.WriteCell(old(View()), row, column, cell)
    {
      ActiveScreen().PutCell(row, column, cell);
      damage.Mark(row);
    }

    method WrapBeforeWide()
      requires Valid() && Model.Fits(View())
      modifies Repr()
      ensures Valid() && SameObjects()
      ensures View() == Model.WrapBeforeWide(old(View()))
    {
      var cursor := ActiveScreen().cursor;
      ClearWidePartnerAt(cursor.row, cursor.column);
      WriteCell(cursor.row, cursor.column, TextCell(' ', 1, style));
      WrapPending();
    }

    method WriteGlyph(row: nat, column: nat, ch: char, width: nat)
      requires Valid() && Model.Fits(View())
      requires row < dims.rows && 1 <= width <= 2 && column + width <= dims.columns
      modifies Repr()
      ensures Valid() && SameObjects()
      ensures View() == Model.WriteGlyph(old(View()), row, column, ch, width)
    {
      hide Model.SurfaceFits, Model.RowsEdited, Model.ClearWidePartner, Model.WriteCell;
      var glyphStyle := style;
      ClearWidePartnerAt(row, column);
      if width > 1 {
        ClearWidePartnerAt(row, column + 1);
      }
      WriteCell(row, column, TextCell(ch, width, glyphStyle));
      if width > 1 && column + 1 < dims.columns {
        WriteCell(row, column + 1, TextCell(' ', 0, glyphStyle));
      }
    }

    method PlaceGlyph(ch: char, width: nat)
      requires Valid() && Model.Fits(View()) && 1 <= width <= 2
      requires ActiveScreen().cursor.column + width <= dims.columns && !ActiveScreen().pendingWrap
      modifies Repr()
      ensures Valid() && SameObjects()
      ensures View() == Model.PlaceGlyph(old(View()), ch, width)
    {
      hide Model.WriteGlyph, Retained, WithinBudget, Bytes;
      var screen, columns := ActiveScreen(), dims.columns;
      var row, column := screen.cursor.row, screen.cursor.column;
      WriteGlyph(row, column, ch, width);
      if column + width >= columns {
        screen.pendingWrap := true;
        screen.SetCursor(row, columns - 1);
      } else {
        screen.SetCursor(row, column + width);
      }
    }

    method Print(ch: char)
      requires Valid() && Model.Fits(View())
      modifies Repr()
      ensures Valid() && SameObjects()
      ensures View() == Model.PrintChar(old(View()), ch)
    {
      hide Model.WrapPending, Model.PlaceGlyph, Model.WrapBeforeWide, Retained, WithinBudget, Bytes;
      if ActiveScreen().pendingWrap {
        WrapPending();
      }
      var columns := dims.columns;
      var width := Min(Model.PrintableWidth(setup, ch), Min(columns, 2));
      if width == 0 {
        return;
      }
      if width > 1 && ActiveScreen().cursor.column + width > columns {
        WrapBeforeWide();
      }
      PlaceGlyph(ch, width);
    }

    /* ----- erasure ----- */

    method FillErasedCells(row: nat, start: nat, end: nat, background: Option<Color>)
      requires Valid() && Model.Fits(View())
      modifies Repr()
      ensures Valid() && SameObjects()
      ensures View() == Model.FillErased(old(View()), row, start, end, background)
    {
      var columns := dims.columns;
      if row >= dims.rows || start >= columns || start >= end {
        return;
      }
      var stop := Min(end, columns);
      var erased := Model.ErasedCell(background);
      var screen := ActiveScreen();
      var source := screen.rows[row];
      var cells := source.cells;
      for i := start to stop
        invariant |cells| == columns
        invariant forall k :: 0 <= k < columns ==> cells[k] == if start <= k < i then erased else source.cells[k]
      {
        cells := cells[i := erased];
      }
      assert cells == Model.EraseCells(source.cells, start, end, erased);
      var wrapped := source.wrapped;
      if stop == columns {
        wrapped := false;
      }
      screen.rows := screen.rows[row := source.(cells := cells, wrapped := wrapped)];
      damage.Mark(row);
    }

    /** Erase the rows `from..end`. */
    method ClearRows(from: nat, end: nat, background: Option<Color>)
      requires Valid() && Model.Fits(View())
      modifies Repr()
      ensures Valid() && SameObjects()
      ensures View() == Model.FillRows(old(View()), from, end, background)
    {
      if from < end {
        for row := from to end
          invariant Valid() && SameObjects()
          invariant View() == Model.FillRows(old(View()), from, row, background)
        {
          FillErasedCells(row, 0, dims.columns, background);
        }
      }
    }

    method ClearPendingWrap()
      requires Valid() && Model.Fits(View())
      modifies Repr()
      ensures Valid() && SameObjects()
      ensures View() == Model.ClearPending(old(View()))
    {
      ActiveScreen().pendingWrap := false;
    }

    method EraseDisplayFromCursor()
      requires Valid() && Model.Fits(View())
      modifies Repr()
      ensures Valid() && SameObjects()
      ensures View() == Model.EraseDisplayFromCursor(old(View()))
    {
      hide Model.SurfaceFits, Model.RowsEdited, Model.FillErased, Model.FillRows, Model.ClearPending;
      var cursor := ActiveScreen().cursor;
      FillErasedCells(cursor.row, cursor.column, dims.columns, style.background);
      ClearRows(cursor.row + 1, dims.rows, None);
      ClearPendingWrap();
    }

    method EraseDisplayToCursor()
      requires Valid() && Model.Fits(View())
      modifies Repr()
      ensures Valid() && SameObjects()
      ensures View() == Model.EraseDisplayToCursor(old(View()))
    {
      hide Model.SurfaceFits, Model.RowsEdited, Model.FillErased, Model.FillRows, Model.ClearPending;
      var cursor, background := ActiveScreen().cursor, style.background;
      ClearRows(0, cursor.row, None);
      FillErasedCells(cursor.row, 0, Min(cursor.column + 1, dims.columns), background);
      ClearPendingWrap();
    }

    method EraseDisplayAll()
      requires Valid() && Model.Fits(View())
      modifies Repr()
      ensures Valid() && SameObjects()
      ensures View() == Model.EraseDisplayAll(old(View()))
    {
      hide Model.SurfaceFits, Model.RowsEdited, Model.FillRows, Model.ClearPending, Model.ScrollActiveUp;
      var background := style.background;
      if active.Primary? {
        var occupiedRows := Model.OccupiedRows(primary.rows);
        for k := 0 to occupiedRows
          invariant Valid() && SameObjects()
          invariant View() == Model.ScrollTimes(old(View()), k)
        {
          ScrollActiveScreenUp();
        }
      }
      ClearRows(0, dims.rows, background);
      ClearPendingWrap();
    }

    method EraseInActiveRow(start: nat, end: nat)
      requires Valid() && Model.Fits(View())
      modifies Repr()
      ensures Valid() && SameObjects()
      ensures View() == Model.EraseThenClearPending(old(View()), start, end)
    {
      FillErasedCells(ActiveScreen().cursor.row, start, end, style.background);
      ClearPendingWrap();
    }

    method EraseInDisplay(sequence: CsiSequence)
      requires Valid() && Model.Fits(View())
      modifies Repr()
      ensures Valid() && SameObjects()
      ensures View() == Model.EraseInDisplay(old(View()), Model.ParamOr(sequence, 0, 0))
    {
      match Model.ParamOr(sequence, 0, 0)
      case 0 => EraseDisplayFromCursor();
      case 1 => EraseDisplayToCursor();
      case 2 => EraseDisplayAll();
      case _ =>
    }

    method EraseInLine(sequence: CsiSequence)
      requires Valid() && Model.Fits(View())
      modifies Repr()
      ensures Valid() && SameObjects()
      ensures View() == Model.EraseInLine(old(View()), Model.ParamOr(sequence, 0, 0))
    {
      hide Model.SurfaceFits, Model.EraseThenClearPending, Model.RowsEdited, Retained, WithinBudget, Bytes;
      var cursor := ActiveScreen().cursor;
      match Model.ParamOr(sequence, 0, 0)
      case 0 =>
        if ActiveScreen().pendingWrap {
          return;
        }
        EraseInActiveRow(cursor.column, dims.columns);
      case 1 => EraseInActiveRow(0, Min(cursor.column + 1, dims.columns));
      case 2 => EraseInActiveRow(0, dims.columns);
      case _ =>
    }

    method EraseCharacters(sequence: CsiSequence)
      requires Valid() && Model.Fits(View())
      modifies Repr()
      ensures Valid() && SameObjects()
      ensures View() == Model.EraseCharacters(old(View()), sequence)
    {
      hide Model.SurfaceFits, Model.EraseThenClearPending, Model.RowsEdited, Retained, WithinBudget, Bytes;
      var column := ActiveScreen().cursor.column;
      EraseInActiveRow(column, Min(column + Model.ParamOr(sequence, 0, 1), dims.columns));
    }

    /* ----- CSI sequences ----- */

    method MoveCursor(sequence: CsiSequence)
      requires Valid() && Model.Fits(View()) && Model.IsCursorMove(sequence.action)
      modifies Repr()
      ensures Valid() && SameObjects()
      ensures View() == Model.ApplyPlainCsi(old(View()), sequence)
    {
      hide Model.SetCursorPosition, Retained, WithinBudget, Bytes;
      var cursor := ActiveScreen().cursor;
      var count := Model.ParamOr(sequence, 0, 1);
      var row, column := cursor.row, cursor.column;
      match sequence.action {
        case 'A' => row := Max(row - count, 0);
        case 'B' => row := Min(row + count, dims.rows - 1);
        case 'C' | 'a' => column := Min(column + count, dims.columns - 1);
        case 'D' => column := Max(column - count, 0);
        case 'E' => row, column := Min(row + count, dims.rows - 1), 0;
        case 'F' => row, column := Max(row - count, 0), 0;
        case 'G' | '`' => column := Model.OneBasedToIndex(count, dims.columns);
        case 'd' => row := Model.OneBasedToIndex(count, dims.rows);
        case _ =>
          row := Model.OneBasedToIndex(count, dims.rows);
          column := Model.OneBasedToIndex(Model.ParamOr(sequence, 1, 1), dims.columns);
      }
      assert (row, column) == Model.CursorTarget(View(), sequence);
      hide Model.CursorTarget, Model.IsCursorMove;
      SetCursorPosition(row, column);
    }

    method ApplyPlainCsi(sequence: CsiSequence)
      requires Valid() && Model.Fits(View())
      modifies Repr()
      ensures Valid() && SameObjects()
      ensures View() == Model.ApplyPlainCsi(old(View()), sequence)
    {
      if Model.IsCursorMove(sequence.action) {
        MoveCursor(sequence);
        return;
      }
      match sequence.action
      case 'J' => EraseInDisplay(sequence);
      case 'K' => EraseInLine(sequence);
      case 'X' => EraseCharacters(sequence);
      case 'm' => style := Sgr.ApplySgr(style, sequence.params);
      case _ =>
    }

    /* ----- DEC private modes ----- */

    method EnterAlternateScreen(clear: bool)
      requires Valid()
      modifies Repr()
      ensures Valid() && SameObjects()
      ensures View() == Model.EnterAlternate(old(View()), clear)
    {
      if clear {
        nextRowId := alternate.Reset(dims, nextRowId);
      }
      active := Alternate;
      damage.MarkAll(dims.rows);
    }

    method ExitAlternateScreen(clearAlternate: bool)
      requires Valid()
      modifies Repr()
      ensures Valid() && SameObjects()
      ensures View() == Model.ExitAlternate(old(View()), clearAlternate)
    {
      if clearAlternate && active.Alternate? {
        nextRowId := alternate.Reset(dims, nextRowId);
      }
      active := Primary;
      damage.MarkAll(dims.rows);
    }

    method SaveCursor()
      requires Valid()
      modifies Repr()
      ensures Valid() && SameObjects()
      ensures View() == Model.SaveCursor(old(View()))
    {
      saved := Some(Model.SavedCursor(active, ActiveScreen().cursor));
    }

    method RestoreCursor()
      requires Valid()
      modifies Repr()
      ensures Valid() && SameObjects()
      ensures View() == Model.RestoreCursor(old(View()))
    {
      if saved.None? || saved.value.screen != active {
        return;
      }
      var row := Min(saved.value.cursor.row, Max(dims.rows - 1, 0));
      var column := Min(saved.value.cursor.column, Max(dims.columns - 1, 0));
      var screen := ActiveScreen();
      screen.pendingWrap := false;
      screen.SetCursor(row, column);
      damage.Mark(row);
    }

    method ApplyDecMode(mode: nat, enabled: bool)
      requires Valid()
      modifies Repr()
      ensures Valid() && SameObjects()
      ensures View() == Model.DecMode(old(View()), mode, enabled)
    {
      match mode
      case 25 => SetCursorVisible(enabled);
      case 47 => if enabled { EnterAlternateScreen(false); } else { ExitAlternateScreen(false); }
      case 1047 => if enabled { EnterAlternateScreen(false); } else { ExitAlternateScreen(true); }
      case 1048 => if enabled { SaveCursor(); } else { RestoreCursor(); }
      case 1049 =>
        if enabled {
          SaveCursor();
          EnterAlternateScreen(true);
        } else {
          ExitAlternateScreen(true);
          RestoreCursor();
        }
      case _ =>
    }

    method ApplyDecPrivateMode(sequence: CsiSequence)
      requires Valid()
      modifies Repr()
      ensures Valid() && SameObjects()
      ensures View() == Model.DecModes(old(View()), sequence.params, sequence.action == 'h')
    {
      var enabled := sequence.action == 'h';
      var params := sequence.params;
      for k := 0 to |params|
        invariant Valid() && SameObjects()
        invariant View() == Model.DecModes(old(View()), params[..k], enabled)
      {
        assert params[..k + 1][..k] == params[..k];
        if params[k].subparameters != [] {
          ApplyDecMode(params[k].subparameters[0], enabled);
        }
      }
      assert params[..|params|] == params;
    }

    /* ----- actions, snapshots, resize ----- */

    method ApplyCsi(sequence: CsiSequence) returns (generated: seq<TerminalAction>)
      requires Valid() && Model.Fits(View())
      modifies Repr()
      ensures Valid() && SameObjects()
      ensures View() == Model.ApplyCsi(old(View()), sequence)
      ensures generated == Model.Reported(sequence)
    {
      generated := [];
      if sequence.ignored {
        return [Unsupported(ParserIgnored)];
      }
      if sequence.intermediates == [] {
        ApplyPlainCsi(sequence);
        if sequence.action in "JK" && Model.ParamOr(sequence, 0, 0) > 2 {
          generated := [Unsupported(OtherUnsupported)];
        }
      } else if sequence.intermediates == Model.QUESTION_MARK && (sequence.action == 'h' || sequence.action == 'l') {
        ApplyDecPrivateMode(sequence);
      }
    }

    method ApplyAction(action: TerminalAction) returns (generated: seq<TerminalAction>)
      requires Valid() && Model.Fits(View())
      modifies Repr()
      ensures Valid() && SameObjects()
      ensures View() == Model.ApplyAction(old(View()), action)
      ensures generated == if action.Csi? then Model.Reported(action.sequence) else []
    {
      generated := [];
      match action
      case Print(ch) => Print(ch);
      case Control(b) => ApplyControl(ControlKind(b));
      case Csi(sequence) => generated := ApplyCsi(sequence);
      case _ =>
    }

    method RenderSnapshot() returns (snapshot: RenderSnapshot)
      requires Valid() && Model.Fits(View())
      modifies Repr()
      ensures Valid() && SameObjects()
      ensures View() == Runs.Rendered(old(View()))
      ensures SnapshotOf(snapshot, old(View()))
    {
      var regions := damage.Take(dims.columns);
      var screen := ActiveScreen();
      var cursor := screen.cursor;
      var cursorRow := Min(cursor.row, |screen.rows| - 1);
      var cells := screen.rows[cursorRow].cells;
      var cursorColumn := Min(cursor.column, |cells| - 1);
      if cursorColumn > 0 && cells[cursorColumn].width == 0 {
        cursor := CursorState(cursorRow, cursorColumn - 1, cursor.visible);
      }
      var history := [];
      if active.Primary? {
        history := scrollback.rows;
      }
      snapshot := Snapshot.RenderSnapshot(dims.columns, dims.rows, active, cursor, screen.rows, history, regions);
      rendered := screen.rows;
    }

    method ScrollbackRow(handle: RowHandle) returns (row: Option<Row>)
      ensures row == Find(scrollback.rows, handle)
    {
      row := scrollback.RowFor(handle);
    }

    /* ----- resizing ----- */

    /** Move the top `count` rows of the primary screen to scrollback, one by one. */
    method ArchiveTopRows(count: nat)
      requires Valid() && count <= |primary.rows|
      modifies Repr()
      ensures Valid() && SameObjects()
      ensures View() == old(View()).(
                scrollback := Retained(setup.budget, old(scrollback.rows) + old(primary.rows)[..count]),
                primary := old(View()).primary.(rows := old(primary.rows)[count..]))
    {
      hide Retained, WithinBudget, Bytes;
      ghost var rows, history := primary.rows, scrollback.rows;
      assert rows[..0] == [] && history + [] == history && rows[0..] == rows;
      FittingIsRetained(setup.budget, history);
      for k := 0 to count
        invariant Valid() && SameObjects()
        invariant scrollback.rows == Retained(setup.budget, history + rows[..k]) && primary.rows == rows[k..]
        invariant View() == old(View()).(
                    scrollback := scrollback.rows, primary := old(View()).primary.(rows := primary.rows))
      {
        var removed := primary.rows[0];
        primary.rows := primary.rows[1..];
        RetainedStreams(setup.budget, history + rows[..k], [removed]);
        assert history + rows[..k] + [removed] == history + rows[..k + 1];
        scrollback.Push(removed);
      }
    }

    /** Discard the rows of the primary screen below `height`. */
    method DropBottomRows(height: nat)
      requires Valid() && height <= |primary.rows|
      modifies Repr()
      ensures Valid() && SameObjects()
      ensures View() == old(View()).(primary := old(View()).primary.(rows := old(primary.rows)[..height]))
    {
      hide Retained, WithinBudget, Bytes;
      ghost var rows := primary.rows;
      while |primary.rows| > height
        invariant Valid() && SameObjects()
        invariant height <= |primary.rows| <= |rows| && primary.rows == rows[..|primary.rows|]
        invariant View() == old(View()).(primary := old(View()).primary.(rows := primary.rows))
      {
        primary.rows := primary.rows[..|primary.rows| - 1];
      }
    }

    method ShrinkPrimaryHeight(height: nat)
      requires Valid() && 0 < height < |primary.rows| && primary.cursor.row < |primary.rows|
      modifies Repr()
      ensures Valid() && SameObjects()
      ensures View() == Resizing.ShrinkHeight(old(View()), height)
    {
      hide Retained, WithinBudget, Bytes;
      var cursorRow := primary.cursor.row;
      var requiredScrolling := Max(cursorRow + 1 - height, 0);
      ghost var rows := primary.rows;
      ArchiveTopRows(requiredScrolling);
      DropBottomRows(height);
      assert primary.rows == rows[requiredScrolling..requiredScrolling + height];
      primary.cursor := CursorState(
        Min(Max(cursorRow - requiredScrolling, 0), height - 1), primary.cursor.column, primary.cursor.visible);
    }

    /** Take the newest `count` scrollback rows back to the top of the primary screen. */
    method PullFromHistory(count: nat)
      requires Valid() && count <= |scrollback.rows|
      modifies Repr()
      ensures Valid() && SameObjects()
      ensures var n := |old(scrollback.rows)| - count;
              View() == old(View()).(
                scrollback := old(scrollback.rows)[..n],
                primary := old(View()).primary.(rows := old(scrollback.rows)[n..] + old(primary.rows)))
    {
      hide Retained, WithinBudget, Bytes;
      ghost var rows, history := primary.rows, scrollback.rows;
      ghost var all := |history|;
      assert history[..all] == history && history[all..] + rows == rows;
      for k := 0 to count
        invariant Valid() && SameObjects()
        invariant scrollback.rows == history[..all - k] && primary.rows == history[all - k..] + rows
        invariant View() == old(View()).(
                    scrollback := scrollback.rows, primary := old(View()).primary.(rows := primary.rows))
      {
        var row := scrollback.PopBack();
        assert row == Some(history[all - k - 1]);
        primary.rows := [row.value] + primary.rows;
        TakesOneBack(history, rows, all - k - 1);
      }
    }

    method GrowPrimaryHeight(height: nat)
      requires Valid() && |primary.rows| < height
      modifies Repr()
      ensures Valid() && SameObjects()
      ensures View() == Resizing.GrowHeight(old(View()), height)
    {
      hide BlankRows, WithinBudget, Bytes, AllWidth;
      var fromHistory := Min(height - |primary.rows|, |scrollback.rows|);
      PullFromHistory(fromHistory);
      ghost var u := View();
      var padded;
      padded, nextRowId := S.PadRows(primary.rows, height, dims.columns, nextRowId);
      primary.rows := padded;
      assert View() == u.(primary := u.primary.(rows := padded), nextRowId := nextRowId);
      primary.cursor := CursorState(
        Min(primary.cursor.row + fromHistory, height - 1), primary.cursor.column, primary.cursor.visible);
    }

    method ResizePrimaryHeight(height: nat)
      requires Valid() && 0 < height && primary.cursor.row < |primary.rows|
      modifies Repr()
      ensures Valid() && SameObjects()
      ensures View() == Resizing.ResizePrimaryHeight(old(View()), height)
    {
      var currentRows := |primary.rows|;
      if height < currentRows {
        ShrinkPrimaryHeight(height);
      } else if height > currentRows {
        GrowPrimaryHeight(height);
      }
    }

    /** Split reflowed rows into history and viewport. */
    method InstallReflowed(reflowed: R.ReflowResult, next: nat, d: Model.Dimensions)
      requires Valid() && Model.Sized(d)
      modifies Repr()
      ensures Valid() && fresh(Repr() - old(Repr()))
      ensures View() == Resizing.WithReflowed(old(View()), R.Progress(reflowed, next), d)
    {
      hide BlankRows, Retained, WithinBudget, Bytes, AllWidth;
      var bottomSplit := Max(|reflowed.rows| - d.rows, 0);
      var splitAt := Min(bottomSplit, reflowed.cursorRow);
      var cursorRow := Min(Max(reflowed.cursorRow - splitAt, 0), d.rows - 1);
      var end := Min(splitAt + d.rows, |reflowed.rows|);
      var visibleRows, id := S.PadRows(reflowed.rows[splitAt..end], d.rows, d.columns, next);
      assert splitAt == Resizing.SplitAt(reflowed, d.rows) && visibleRows == Resizing.Visible(reflowed, d, next);
      hide Resizing.SplitAt, Resizing.Visible;
      nextRowId := id;
      scrollback.ReplaceRows(reflowed.rows[..splitAt]);
      primary := new S.Screen.FromRows(
        visibleRows, CursorState(cursorRow, reflowed.cursorColumn, true), reflowed.pendingWrap);
    }

    method ResizeActivePrimary(d: Model.Dimensions)
      requires Valid() && Model.Sized(d) && primary.cursor.row < |primary.rows|
      modifies Repr()
      ensures Valid() && fresh(Repr() - old(Repr()))
      ensures View() == Resizing.ResizeActivePrimary(old(View()), d)
    {
      hide R.Reflowed, Resizing.WithReflowed, Resizing.ResizePrimaryHeight, Retained, WithinBudget, Bytes;
      ResizePrimaryHeight(d.rows);
      ghost var h := View();
      var mark := R.CursorMark(|scrollback.rows| + primary.cursor.row, primary.cursor.column, primary.pendingWrap);
      var sourceRows := scrollback.rows + primary.rows;
      var reflowed, next := R.ReflowRows(sourceRows, mark, d.columns, nextRowId);
      assert R.Progress(reflowed, next) == Resizing.ReflowedLineage(h, d.columns);
      InstallReflowed(reflowed, next, d);
    }

    method ResizeWhileAlternateActive(d: Model.Dimensions)
      requires Valid() && Model.Sized(d)
      modifies Repr()
      ensures Valid() && SameObjects()
      ensures View() == Resizing.ResizeWhileAlternate(old(View()), d)
    {
      nextRowId := primary.ResizeVisible(d, nextRowId);
      scrollback.ResizeWidth(d.columns);
      nextRowId := alternate.ResizeVisible(d, nextRowId);
    }

    /** Invalid dimensions are refused and leave the state alone. */
    method Resize(columns: nat, rows: nat) returns (ok: bool)
      requires Valid() && Model.Fits(View()) && Model.SurfaceFits(View().primary, dims)
      modifies Repr()
      ensures Valid() && fresh(Repr() - old(Repr()))
      ensures ok <==> Model.DimensionsOk(Model.Dimensions(columns, rows))
      ensures View() == Resizing.Resize(old(View()), columns, rows)
    {
      var d := Model.Dimensions(columns, rows);
      if !Model.DimensionsOk(d) {
        return false;
      }
      if d == dims {
        return true;
      }
      if active.Primary? {
        ResizeActivePrimary(d);
      } else {
        ResizeWhileAlternateActive(d);
      }
      dims := d;
      damage := new D.DamageTracker.DirtyAll(rows);
      archived := scrollback.rows;
      ok := true;
    }
  }
}
