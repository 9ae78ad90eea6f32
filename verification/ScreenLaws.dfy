/** What switching, saving and resizing do to the two screens. */
module ScreenLaws {
  import opened RenderModel
  import opened Protocol
  import opened History
  import opened TerminalModel
  import opened TerminalResize
  import opened TerminalRuns
  import opened RunTheorems
  import opened Isolation

  /* ----- switching ----- */

  /** A blank screen: every cell empty, nothing wrapped, the cursor home and visible. */
  ghost predicate BlankScreen(f: Surface, d: Dimensions) {
    && |f.rows| == d.rows
    && (forall i :: 0 <= i < |f.rows| ==> |f.rows[i].cells| == d.columns && !f.rows[i].wrapped)
    && (forall i, j :: 0 <= i < |f.rows| && 0 <= j < |f.rows[i].cells| ==> f.rows[i].cells[j] == EMPTY_CELL)
    && f.cursor == CursorState(0, 0, true) && !f.pendingWrap
  }

  lemma FreshIsBlank(d: Dimensions, id: nat)
    ensures BlankScreen(FreshSurface(d, id), d)
  {
    var rows := FreshSurface(d, id).rows;
    forall i | 0 <= i < |rows| ensures rows[i] == BlankRow(d.columns, id + i) {}
  }

  /** Setting 1049, on either screen: a blank alternate screen, the shown cursor saved, the primary
      screen and the history as they were, everything damaged. */
  lemma Set1049ShowsBlank(s: Term)
    requires Fits(s)
    ensures var t := ApplyAction(s, ModeChange(1049, 'h'));
            && t.active.Alternate? && BlankScreen(t.alternate, s.dims)
            && t.saved == Some(SavedCursor(s.active, Active(s).cursor))
            && t.primary == s.primary && t.scrollback == s.scrollback && t.archived == s.archived
            && t.style == s.style && t.dims == s.dims
            && t.damage == s.damage + AllRows(s.dims.rows)
  {
    OneMode(s, 1049, 'h');
    FreshIsBlank(s.dims, s.nextRowId);
  }

  /** Setting 47 or 1047 shows the alternate screen as it is; resetting 47 leaves it as it is. */
  lemma Mode47ShowsAsItIs(s: Term)
    requires Fits(s)
    ensures ApplyAction(s, ModeChange(47, 'h')) == s.(active := Alternate, damage := s.damage + AllRows(s.dims.rows))
    ensures ApplyAction(s, ModeChange(1047, 'h')) == ApplyAction(s, ModeChange(47, 'h'))
    ensures ApplyAction(s, ModeChange(47, 'l')) == s.(active := Primary, damage := s.damage + AllRows(s.dims.rows))
  {
    OneMode(s, 47, 'h');
    OneMode(s, 1047, 'h');
    OneMode(s, 47, 'l');
  }

  /** Resetting 1047 clears the alternate screen if it is shown, and only then. */
  lemma Reset1047ClearsWhatItLeaves(s: Term)
    requires Fits(s)
    ensures var t := ApplyAction(s, ModeChange(1047, 'l'));
            && t.active.Primary? && t.primary == s.primary && t.scrollback == s.scrollback
            && t.style == s.style && t.saved == s.saved && t.damage == s.damage + AllRows(s.dims.rows)
            && (s.active.Primary? ==> t.alternate == s.alternate && t.nextRowId == s.nextRowId)
            && (s.active.Alternate? ==> BlankScreen(t.alternate, s.dims))
  {
    OneMode(s, 1047, 'l');
    FreshIsBlank(s.dims, s.nextRowId);
  }

  function Modes(params: seq<CsiParam>, final: char): TerminalAction {
    Csi(CsiSequence(params, QUESTION_MARK, false, final))
  }

  /** Several modes in one sequence are one sequence for each, in order; of each parameter the first
      subparameter counts, and an empty one does nothing. */
  lemma ModesOneByOne(s: Term, params: seq<CsiParam>, param: CsiParam, final: char)
    requires Fits(s) && (final == 'h' || final == 'l')
    ensures ApplyAction(s, Modes([], final)) == s
    ensures var u, t := ApplyAction(s, Modes(params, final)), ApplyAction(s, Modes(params + [param], final));
            Fits(u) ==>
              t == if param.subparameters == [] then u else ApplyAction(u, ModeChange(param.subparameters[0], final))
  {
    hide Fits, DecMode;
    assert (params + [param])[..|params|] == params;
    var u := ApplyAction(s, Modes(params, final));
    if Fits(u) && param.subparameters != [] {
      OneMode(u, param.subparameters[0], final);
    }
  }

  /* ----- the saved cursor ----- */

  /** Mode 1048 set: the shown cursor is saved and nothing else happens. Reset: a cursor saved on the
      shown screen comes back, clamped to its size, with no wrap pending; one saved on the other
      screen does not. */
  lemma Mode1048SavesAndRestores(s: Term)
    requires Fits(s)
    ensures ApplyAction(s, ModeChange(1048, 'h')) == s.(saved := Some(SavedCursor(s.active, Active(s).cursor)))
    ensures var t, f := ApplyAction(s, ModeChange(1048, 'l')), Active(s);
            if s.saved.Some? && s.saved.value.screen == s.active then
              var row := Min(s.saved.value.cursor.row, s.dims.rows - 1);
              var column := Min(s.saved.value.cursor.column, s.dims.columns - 1);
              t == WithActive(s, Surface(f.rows, CursorState(row, column, f.cursor.visible), false)).(
                     damage := s.damage + {row})
            else t == s
  {
    OneMode(s, 1048, 'h');
    OneMode(s, 1048, 'l');
  }

  lemma ActionKeepsSaved(s: Term, action: TerminalAction)
    requires Fits(s) && !SetsModes(Act(action))
    ensures var t := ApplyAction(s, action);
            Fits(t) && t.saved == s.saved && t.active == s.active && t.dims == s.dims
  {
    hide PrintChar, ApplyControl, ApplyPlainCsi;
    assert Framed(s, ApplyAction(s, action)) && Fits(ApplyAction(s, action));
  }

  /** Nothing but mode changes and resizes between: what 1048 saved comes back. */
  ghost predicate OnlyContent(ops: seq<Op>) {
    forall i :: 0 <= i < |ops| ==> !SetsModes(ops[i]) && !ops[i].ResizeTo?
  }

  lemma {:induction false} ContentKeepsSaved(s: Term, ops: seq<Op>)
    requires Fits(s) && OnlyContent(ops) && Run(s, ops).Some?
    ensures var t := Run(s, ops).value;
            Fits(t) && t.saved == s.saved && t.active == s.active && t.dims == s.dims
  {
    hide Step, Grid, Admissible, Fits;
    if ops == [] {
      EmptyRun(s, ops);
    } else {
      var n := |ops| - 1;
      var u := Run(s, ops[..n]);
      RunStep(s, ops);
      ContentKeepsSaved(s, ops[..n]);
      StepKeepsSaved(u.value, ops[n]);
    }
  }

  lemma EmptyRun(s: Term, ops: seq<Op>)
    requires ops == []
    ensures Run(s, ops) == Some(s)
  {
  }

  lemma RunStep(s: Term, ops: seq<Op>)
    requires ops != [] && Run(s, ops).Some?
    ensures var n := |ops| - 1;
            Run(s, ops[..n]).Some? && Grid(Run(s, ops[..n]).value) &&
            Run(s, ops).value == Step(Run(s, ops[..n]).value, ops[n])
  {
  }

  lemma StepKeepsSaved(s: Term, op: Op)
    requires Grid(s) && Fits(s) && !SetsModes(op) && !op.ResizeTo?
    ensures var t := Step(s, op);
            Fits(t) && t.saved == s.saved && t.active == s.active && t.dims == s.dims
  {
    hide ApplyAction;
    match op
    case Act(action) => ActionKeepsSaved(s, action);
    case Render =>
  }

  /** Save, any output on the same screen, restore: the cursor is where it was. */
  lemma {:induction false} SaveThenRestore(s: Term, ops: seq<Op>)
    requires Fits(s) && OnlyContent(ops)
    requires Run(ApplyAction(s, ModeChange(1048, 'h')), ops).Some?
    ensures var u := Run(ApplyAction(s, ModeChange(1048, 'h')), ops).value;
            && Fits(u)
            && var t := ApplyAction(u, ModeChange(1048, 'l'));
            && Active(t).cursor.row == Active(s).cursor.row
            && Active(t).cursor.column == Active(s).cursor.column
            && !Active(t).pendingWrap && Active(t).rows == Active(u).rows
  {
    hide ApplyAction, Run;
    Mode1048SavesAndRestores(s);
    ContentKeepsSaved(ApplyAction(s, ModeChange(1048, 'h')), ops);
    Mode1048SavesAndRestores(Run(ApplyAction(s, ModeChange(1048, 'h')), ops).value);
  }

  /* ----- resizing while the alternate screen is shown ----- */

  /** `after` is `before` cut or padded to a width, one generation on, not wrapped. */
  ghost predicate RowCut(before: Row, after: Row, columns: nat) {
    && |after.cells| == columns && !after.wrapped
    && after.handle == RowHandle(before.handle.id, before.handle.generation + 1)
    && forall j :: 0 <= j < columns ==>
         after.cells[j] == if j < |before.cells| then before.cells[j] else EMPTY_CELL
  }

  /** The top rows stay, cut or padded, and blank rows make up a missing height; the cursor stays where
      it is or moves to the nearest cell of the new size, and no wrap is pending. */
  ghost predicate SurfaceCut(f: Surface, g: Surface, d: Dimensions)
    requires Sized(d)
  {
    && |g.rows| == d.rows
    && (forall i :: 0 <= i < d.rows && i < |f.rows| ==> RowCut(f.rows[i], g.rows[i], d.columns))
    && (forall i :: |f.rows| <= i < d.rows ==> !g.rows[i].wrapped && g.rows[i].cells == Blanks(d.columns))
    && g.cursor == CursorState(Min(f.cursor.row, d.rows - 1), Min(f.cursor.column, d.columns - 1), f.cursor.visible)
    && !g.pendingWrap
  }

  lemma ResizeVisibleCuts(f: Surface, d: Dimensions, id: nat)
    requires Sized(d)
    ensures SurfaceCut(f, ResizeVisible(f, d, id), d)
  {
    var g, rows := ResizeVisible(f, d, id), ResizedRows(f.rows, d.columns);
    forall i | 0 <= i < d.rows && i < |f.rows|
      ensures RowCut(f.rows[i], g.rows[i], d.columns)
    {
      assert g.rows[i] == rows[i] == f.rows[i].ResizeWidth(d.columns);
    }
    forall i | |f.rows| <= i < d.rows
      ensures g.rows[i] == BlankRow(d.columns, id + (i - |f.rows|))
    {
    }
  }

  /** A resize while the alternate screen is shown cuts or pads both screens and every history row; the
      budgets then keep what they can of the history. Pen, saved cursor and shown screen stay. */
  lemma ResizeCutsBothScreens(s: Term, columns: nat, rows: nat)
    requires Fits(s) && SurfaceFits(s.primary, s.dims) && s.active.Alternate?
    requires DimensionsOk(Dimensions(columns, rows)) && Dimensions(columns, rows) != s.dims
    ensures var t, d := Resize(s, columns, rows), Dimensions(columns, rows);
            && SurfaceCut(s.primary, t.primary, d) && SurfaceCut(s.alternate, t.alternate, d)
            && (exists cut: seq<Row> ::
                  && |cut| == |s.scrollback| && t.scrollback == Retained(s.setup.budget, cut)
                  && forall i :: 0 <= i < |cut| ==> RowCut(s.scrollback[i], cut[i], columns))
            && t.style == s.style && t.saved == s.saved && t.active == s.active
            && t.dims == d && t.damage == AllRows(rows)
  {
    hide Retained, ResizeVisible;
    var d := Dimensions(columns, rows);
    ResizeVisibleCuts(s.primary, d, s.nextRowId);
    ResizeVisibleCuts(s.alternate, d, IdAfterVisible(s.primary, d, s.nextRowId));
    var cut := ResizedRows(s.scrollback, columns);
    forall i | 0 <= i < |cut| ensures RowCut(s.scrollback[i], cut[i], columns) {
      assert cut[i] == s.scrollback[i].ResizeWidth(columns);
    }
    assert Resize(s, columns, rows).scrollback == Retained(s.setup.budget, cut);
  }

  /** A resize of the primary screen leaves the alternate screen, the pen and the saved cursor alone. */
  lemma PrimaryResizeLeavesTheRest(s: Term, columns: nat, rows: nat)
    requires Fits(s) && SurfaceFits(s.primary, s.dims) && s.active.Primary?
    requires DimensionsOk(Dimensions(columns, rows)) && Dimensions(columns, rows) != s.dims
    ensures var t := Resize(s, columns, rows);
            && t.alternate == s.alternate && t.style == s.style && t.saved == s.saved && t.active == s.active
            && t.setup == s.setup && t.dims == Dimensions(columns, rows) && t.damage == AllRows(rows)
            && t.primary.cursor.visible
  {
    hide ReflowedLineage, Visible, Retained;
  }

  /** Sizes within the limits are taken. */
  lemma SizesInLimitsAreTaken(s: Term, columns: nat, rows: nat)
    requires Fits(s) && SurfaceFits(s.primary, s.dims)
    requires 1 <= columns <= 4096 && 1 <= rows <= 4096 && columns * rows <= 1_048_576
    ensures Resize(s, columns, rows).dims == Dimensions(columns, rows)
  {
    hide ResizeActivePrimary, ResizeWhileAlternate;
  }

  /** Sizes outside the limits are refused, and the current size changes nothing. */
  lemma OtherSizesChangeNothing(s: Term, columns: nat, rows: nat)
    requires Fits(s) && SurfaceFits(s.primary, s.dims)
    requires columns == 0 || rows == 0 || columns > 4096 || rows > 4096 || columns * rows > 1_048_576
             || Dimensions(columns, rows) == s.dims
    ensures Resize(s, columns, rows) == s
  {
  }

  /* ----- reports ----- */

  /** What is reported as unsupported has changed nothing: a sequence that the parser gave up on, or
      an erasure of the display or the line in a mode above 2. Nothing else is reported. */
  lemma ReportedChangesNothing(s: Term, sequence: CsiSequence)
    requires Fits(s)
    ensures Reported(sequence) != [] ==> ApplyAction(s, Csi(sequence)) == s
    ensures Reported(sequence) == [Unsupported(ParserIgnored)] <==> sequence.ignored
    ensures Reported(sequence) == [Unsupported(OtherUnsupported)] <==>
            && !sequence.ignored && sequence.intermediates == []
            && (sequence.action == 'J' || sequence.action == 'K')
            && ParamOr(sequence, 0, 0) > 2
    ensures |Reported(sequence)| <= 1
  {
  }
}
