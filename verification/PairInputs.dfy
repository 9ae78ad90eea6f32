/** Reachable states in which an operation tears a wide pair. */
module PairInputs {
  import opened RenderModel
  import opened Protocol
  import opened History
  import opened Reflow
  import opened OneColumn
  import opened TerminalModel
  import opened TerminalResize
  import opened TerminalRuns
  import opened RunTheorems
  import opened Isolation
  import opened WidePairs
  import opened PairRuns

  /* ----- runs ----- */

  lemma RunOneMore(s: Term, ops: seq<Op>, op: Op)
    requires Run(s, ops).Some? && Grid(Run(s, ops).value) && Admissible(Run(s, ops).value, op)
    ensures Run(s, ops + [op]) == Some(Step(Run(s, ops).value, op))
  {
    assert (ops + [op])[..|ops|] == ops;
  }

  /** A run of three operations, state by state. */
  lemma ThreeSteps(s: Term, ops: seq<Op>, u: Term, t: Term)
    requires |ops| == 3 && Grid(s) && Grid(u) && Grid(t)
    requires Admissible(s, ops[0]) && Admissible(u, ops[1]) && Admissible(t, ops[2])
    requires u == Step(s, ops[0]) && t == Step(u, ops[1])
    ensures Run(s, ops[..2]) == Some(t) && Run(s, ops) == Some(Step(t, ops[2]))
  {
    hide Step, Admissible, Grid;
    assert Run(s, []) == Some(s);
    RunOneMore(s, [], ops[0]);
    assert [] + [ops[0]] == ops[..1];
    RunOneMore(s, ops[..1], ops[1]);
    assert ops[..1] + [ops[1]] == ops[..2];
    RunOneMore(s, ops[..2], ops[2]);
    assert ops[..2] + [ops[2]] == ops;
  }

  lemma InitialPairs(setup: Setup, d: Dimensions)
    ensures PairsWhole(Initial(setup, d))
  {
    BlankRowsHavePairs(d.columns, 1, d.rows);
    BlankRowsHavePairs(d.columns, 1 + d.rows, d.rows);
  }

  /* ----- erasure ----- */

  const ERASE_ONE := CsiSequence([], [], false, 'X')

  /** Print a wide character, step back onto its spacer, erase one character: the lead is torn off. */
  function TearingOps(ch: char): seq<Op> {
    [Act(Print(ch)), Act(Control(0x08)), Act(Csi(ERASE_ONE))]
  }

  lemma WidePrinted(s: Term, ch: char)
    requires Fits(s) && !Active(s).pendingWrap && Active(s).cursor.column == 0 && 2 < s.dims.columns
    requires PrintableWidth(s.setup, ch) == 2
    ensures var t := StepBack(PrintChar(s, ch));
            && Active(t).cursor.row == Active(s).cursor.row && Active(t).cursor.column == 1
            && CutsPair(CursorCells(t), 1)
  {
    hide PlaceGlyph;
    PlaceGlyphWrites(s, ch, 2);
    var t := PlaceGlyph(s, ch, 2);
    assert PrintChar(s, ch) == t;
    assert Active(StepBack(t)).rows == Active(t).rows;
  }

  /** A reachable state in which an erasure has torn a pair. */
  lemma ErasureTearsReachably(setup: Setup, ch: char)
    requires PrintableWidth(setup, ch) == 2
    ensures var s := Initial(setup, Dimensions(80, 24));
            && Run(s, TearingOps(ch)[..2]).Some? && PairsWhole(Run(s, TearingOps(ch)[..2]).value)
            && Run(s, TearingOps(ch)).Some? && !PairsWhole(Run(s, TearingOps(ch)).value)
  {
    hide PairsWhole, PrintChar, StepBack, Inv, Evolves, EraseCharacters, CutsPair;
    var d, ops := Dimensions(80, 24), TearingOps(ch);
    var s := Initial(setup, d);
    InitialInv(setup, d);
    InitialPairs(setup, d);
    InvGrid(s);
    var u := PrintChar(s, ch);
    var t := StepBack(u);
    WidePrinted(s, ch);
    PrintKeepsPairs(s, ch);
    StepKeeps(s, ops[0]);
    InvGrid(u);
    ControlKeepsPairs(u, Backspace);
    StepKeeps(u, ops[1]);
    InvGrid(t);
    ThreeSteps(s, ops, u, t);
    assert ParamOr(ERASE_ONE, 0, 1) == 1;
    StepKeepsPairsIff(t, ops[2]);
  }

  /* ----- a cut on the alternate screen ----- */

  /** On the alternate screen, print a wide character and resize to one column. */
  function CuttingOps(ch: char): seq<Op> {
    [Act(ModeChange(1049, 'h')), Act(Print(ch)), ResizeTo(1, 24)]
  }

  lemma WideAtStart(s: Term, ch: char)
    requires Fits(s) && !Active(s).pendingWrap && Active(s).cursor.column == 0 && 2 <= s.dims.columns
    requires PrintableWidth(s.setup, ch) == 2
    ensures var f := Active(PrintChar(s, ch));
            var row := Active(s).cursor.row;
            && f.cursor.row == row && |f.rows| == s.dims.rows
            && f.cursor.column == Min(2, s.dims.columns - 1) && (f.pendingWrap <==> s.dims.columns == 2)
            && f.rows[row].cells[0] == TextCell(ch, 2, s.style) && f.rows[row].cells[1] == TextCell(' ', 0, s.style)
            && f.rows[row].wrapped == Active(s).rows[row].wrapped
  {
    hide PlaceGlyph;
    PlaceGlyphWrites(s, ch, 2);
    assert PrintChar(s, ch) == PlaceGlyph(s, ch, 2);
  }

  lemma EnteredCleared(s: Term)
    requires Inv(s) && s.active.Primary? && PairsWhole(s)
    ensures var t := ApplyAction(s, ModeChange(1049, 'h'));
            && Inv(t) && PairsWhole(t) && t.setup == s.setup && t.dims == s.dims
            && t.active.Alternate? && Active(t).cursor == CursorState(0, 0, true) && !Active(t).pendingWrap
  {
    hide PairsWhole;
    InvGrid(s);
    OneMode(s, 1049, 'h');
    EnterIsolated(s);
    var params := [CsiParam([1049])];
    assert params[..|params| - 1] == [];
    CsiKeepsPairs(s, ModeChange(1049, 'h').sequence);
  }

  lemma EntersCleared(s: Term)
    requires Inv(s)
    ensures Admissible(s, Act(ModeChange(1049, 'h')))
  {
    var params := [CsiParam([1049])];
    assert params[..|params| - 1] == [];
  }

  /** A reachable state in which a resize on the alternate screen has torn a pair. */
  lemma CutTearsReachably(setup: Setup, ch: char)
    requires PrintableWidth(setup, ch) == 2
    ensures var s := Initial(setup, Dimensions(80, 24));
            && Run(s, CuttingOps(ch)[..2]).Some? && PairsWhole(Run(s, CuttingOps(ch)[..2]).value)
            && Run(s, CuttingOps(ch)).Some? && !PairsWhole(Run(s, CuttingOps(ch)).value)
  {
    hide PairsWhole, PrintChar, Inv, Evolves, DecModes, CutsPair, Resize;
    var d, ops := Dimensions(80, 24), CuttingOps(ch);
    var s := Initial(setup, d);
    InitialInv(setup, d);
    InitialPairs(setup, d);
    InvGrid(s);
    EnteredCleared(s);
    EntersCleared(s);
    var u := ApplyAction(s, ModeChange(1049, 'h'));
    InvGrid(u);
    var t := PrintChar(u, ch);
    WideAtStart(u, ch);
    PrintKeepsPairs(u, ch);
    StepKeeps(u, ops[1]);
    InvGrid(t);
    ThreeSteps(s, ops, u, t);
    CutsFirstRow(t);
    StepKeepsPairsIff(t, ops[2]);
  }

  lemma CutsFirstRow(t: Term)
    requires Grid(t) && t.active.Alternate? && t.dims == Dimensions(80, 24)
    requires t.alternate.rows[0].cells[1].width == 0
    ensures TearsPair(t, ResizeTo(1, 24))
  {
    var top := t.alternate.rows[..24];
    assert CutsPair(top[0].cells, 1);
    assert CutTears(top, 1);
  }

  /* ----- one column ----- */

  /** On a screen of 2 x 1, print a wide character and resize to one column. */
  function NarrowingOps(ch: char): seq<Op> {
    [Act(Print(ch)), ResizeTo(1, 1)]
  }

  /** A pair reflowed to one column: a blank, the lead, the spacer, and the cursor with the spacer. */
  lemma PairInOneColumn(row: Row, mark: CursorMark, id: nat)
    requires |row.cells| == 2 && row.cells[0].width == 2 && row.cells[1].width == 0 && !row.wrapped
    requires mark == CursorMark(0, 1, true)
    ensures var r := Reflowed([row], mark, 1, id).result;
            |r.rows| == 3 && r.cursorRow == 2 && r.rows[2].cells == [row.cells[1]]
  {
    var rows, lead, spacer := [row], row.cells[0], row.cells[1];
    assert rows[..0] == [] && row.cells[..2] == row.cells && row.cells == [lead, spacer];
    var line := LogicalLine(row.cells, [row.handle], Some(1), true);
    assert Gather(rows, mark, 1) == AddRow(Gather([], mark, 1), row, 0, mark, 1);
    assert SegmentLen(row, 0, mark, true, 1) == 2;
    assert [] + row.cells == row.cells && [] + [row.handle] == [row.handle];
    assert GroupedLines(rows, mark, 1) == [line];
    assert row.cells[..1] == [lead] && [lead][..0] == [];
    assert LastColumn(0, 1);
    assert Spaced([lead], 1) == [EMPTY_CELL, lead];
    assert Spaced(row.cells, 1) == [EMPTY_CELL, lead, spacer];
    var spaced := SpacedLine(line, 1);
    assert spaced.cursorOffset == Some(2);
    var cut := CutRows(spaced, 1, id);
    assert cut[2] == CutRow(spaced, 1, 2, id);
    assert spaced.cells[2..3] == [spacer];
    assert [line][..0] == [];
    assert AddLines([line], 1, id) == AddLine(AddLines([], 1, id), line, 1);
  }

  lemma PairTornInOneColumn(u: Term)
    requires Grid(u) && u.active.Primary? && u.dims == Dimensions(2, 1) && u.scrollback == []
    requires u.primary.cursor.column == 1 && u.primary.pendingWrap && !u.primary.rows[0].wrapped
    requires u.primary.rows[0].cells[0].width == 2 && u.primary.rows[0].cells[1].width == 0
    ensures TearsPair(u, ResizeTo(1, 1))
  {
    hide Reflowed, Retained;
    var d, row := Dimensions(1, 1), u.primary.rows[0];
    assert Lineage(u) == [row];
    PairInOneColumn(row, SourceMark(u), u.nextRowId);
    var r := ReflowedLineage(u, 1).result;
    var stay := RowsThatStay(u, d);
    assert stay[|stay| - 1] == r.rows[2];
    assert stay[|stay| - 1].cells[0].width == 0;
    assert !OnlyNarrow(stay[|stay| - 1].cells);
  }

  /** A reachable state in which a resize to one column has torn a pair. */
  lemma OneColumnTearsReachably(setup: Setup, ch: char)
    requires PrintableWidth(setup, ch) == 2
    ensures var s := Initial(setup, Dimensions(2, 1));
            && Run(s, NarrowingOps(ch)[..1]).Some? && PairsWhole(Run(s, NarrowingOps(ch)[..1]).value)
            && Run(s, NarrowingOps(ch)).Some? && !PairsWhole(Run(s, NarrowingOps(ch)).value)
  {
    hide PairsWhole, PrintChar, Inv, Evolves, Resize, TearsPair;
    var d, ops := Dimensions(2, 1), NarrowingOps(ch);
    var s := Initial(setup, d);
    InitialInv(setup, d);
    InitialPairs(setup, d);
    InvGrid(s);
    var u := PrintChar(s, ch);
    WideAtStart(s, ch);
    NothingScrolled(s, ch);
    PrintKeepsPairs(s, ch);
    StepKeeps(s, ops[0]);
    InvGrid(u);
    assert Run(s, []) == Some(s);
    RunOneMore(s, [], ops[0]);
    assert [] + [ops[0]] == ops[..1];
    RunOneMore(s, ops[..1], ops[1]);
    assert ops[..1] + [ops[1]] == ops;
    PairTornInOneColumn(u);
    StepKeepsPairsIff(u, ops[1]);
  }

  lemma NothingScrolled(s: Term, ch: char)
    requires Fits(s) && !Active(s).pendingWrap && Active(s).cursor.column == 0 && 2 <= s.dims.columns
    ensures PrintChar(s, ch).scrollback == s.scrollback
  {
    hide PlaceGlyph;
  }
}
