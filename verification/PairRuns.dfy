/** Exactly which operations tear a wide pair, and what that means for runs. */
module PairRuns {
  import opened RenderModel
  import opened Protocol
  import opened History
  import opened Reflow
  import opened ReflowHandles
  import opened ReflowPairs
  import opened OneColumn
  import opened TerminalModel
  import opened TerminalResize
  import opened TerminalRuns
  import opened RunTheorems
  import opened WidePairs

  /** A cut in front of column `i` falls between a lead and its spacer. */
  predicate CutsPair(cells: seq<RenderCell>, i: nat) {
    i < |cells| && cells[i].width == 0
  }

  function CursorCells(s: Term): seq<RenderCell>
    requires Fits(s)
  {
    Active(s).rows[Active(s).cursor.row].cells
  }

  /* ----- erasure ----- */

  /** One end of the erased range on the cursor row splits a pair. Rows erased as a whole, and ED 2,
      cannot tear one. */
  predicate ErasureTears(s: Term, sequence: CsiSequence)
    requires Fits(s)
  {
    var cells, column := CursorCells(s), Active(s).cursor.column;
    var mode := ParamOr(sequence, 0, 0);
    match sequence.action
    case 'J' => (mode == 0 && CutsPair(cells, column)) || (mode == 1 && CutsPair(cells, column + 1))
    case 'K' =>
      || (mode == 0 && !Active(s).pendingWrap && CutsPair(cells, column))
      || (mode == 1 && CutsPair(cells, column + 1))
    case 'X' => CutsPair(cells, column) || CutsPair(cells, column + ParamOr(sequence, 0, 1))
    case _ => false
  }

  /** Other cells in one row: pairs stay whole exactly when they are whole in those cells. */
  lemma RowKeepsPairsIff(s: Term, t: Term, row: nat)
    requires Fits(s) && PairsWhole(s) && Framed(s, t) && t.scrollback == s.scrollback && row < s.dims.rows
    requires |Active(t).rows| == |Active(s).rows|
    requires forall i :: 0 <= i < s.dims.rows && i != row ==> Active(t).rows[i].cells == Active(s).rows[i].cells
    ensures PairsWhole(t) <==> WholePairs(Active(t).rows[row].cells)
  {
    hide WholePairs;
    var before, after := Active(s).rows, Active(t).rows;
    if WholePairs(after[row].cells) {
      assert forall i :: 0 <= i < |after| && i != row ==> WholePairs(before[i].cells);
    } else {
      assert !RowsHavePairs(after);
    }
  }

  lemma FillKeepsPairsIff(s: Term, row: nat, start: nat, end: nat, background: Option<Color>)
    requires Fits(s) && PairsWhole(s) && row < s.dims.rows && start < end <= s.dims.columns
    ensures var cells := Active(s).rows[row].cells;
            PairsWhole(FillErased(s, row, start, end, background)) <==>
            !CutsPair(cells, start) && !CutsPair(cells, end)
  {
    hide EraseCells, WholePairs;
    var cells := Active(s).rows[row].cells;
    RowKeepsPairsIff(s, FillErased(s, row, start, end, background), row);
    EraseKeepsPairsIff(cells, start, end, background);
  }

  lemma FillElsewhere(s: Term, row: nat, start: nat, end: nat, background: Option<Color>)
    requires Fits(s)
    ensures Active(FillErased(s, row, start, end, background)).cursor == Active(s).cursor
    ensures forall i :: 0 <= i < s.dims.rows && i != row ==>
                          Active(FillErased(s, row, start, end, background)).rows[i] == Active(s).rows[i]
  {
  }

  /** The first column never holds a spacer. */
  lemma FirstColumnCutsNothing(cells: seq<RenderCell>)
    requires WholePairs(cells)
    ensures !CutsPair(cells, 0)
  {
    if cells != [] { assert PairAt(cells, 0); }
  }

  lemma {:induction false} FillRowsElsewhere(s: Term, from: nat, end: nat, background: Option<Color>)
    requires Fits(s) && end <= s.dims.rows
    ensures var t := FillRows(s, from, end, background);
            && Active(t).cursor == Active(s).cursor
            && forall i :: 0 <= i < s.dims.rows && (i < from || end <= i) ==> Active(t).rows[i] == Active(s).rows[i]
    decreases end
  {
    hide EraseCells, FillErased, RowsEdited;
    if end <= from {
    } else {
      FillRowsElsewhere(s, from, end - 1, background);
      FillElsewhere(FillRows(s, from, end - 1, background), end - 1, 0, s.dims.columns, background);
    }
  }

  /** Rows erased as a whole are whole, whatever they held. */
  lemma {:induction false} FillRowsClears(s: Term, from: nat, end: nat, background: Option<Color>)
    requires Fits(s) && end <= s.dims.rows
    ensures forall i :: from <= i < end ==> WholePairs(Active(FillRows(s, from, end, background)).rows[i].cells)
    decreases end
  {
    hide WholePairs, EraseCells;
    if end <= from {
    } else {
      FillRowsClears(s, from, end - 1, background);
      var u := FillRows(s, from, end - 1, background);
      ErasedRowIsWhole(Active(u).rows[end - 1].cells, s.dims.columns, background);
    }
  }

  lemma ErasedRowIsWhole(cells: seq<RenderCell>, columns: nat, background: Option<Color>)
    requires |cells| == columns
    ensures WholePairs(EraseCells(cells, 0, columns, ErasedCell(background)))
  {
  }

  lemma FillRowsKeepsPairs(s: Term, from: nat, end: nat, background: Option<Color>)
    requires Fits(s) && end <= s.dims.rows && PairsWhole(s)
    ensures PairsWhole(FillRows(s, from, end, background))
  {
    hide WholePairs, FillRows;
    FillRowsElsewhere(s, from, end, background);
    FillRowsClears(s, from, end, background);
    var t := FillRows(s, from, end, background);
    forall i | 0 <= i < s.dims.rows ensures WholePairs(Active(t).rows[i].cells) {
      if from <= i < end { } else { assert Active(t).rows[i] == Active(s).rows[i]; }
    }
  }

  lemma ClearPendingPairs(s: Term)
    requires Fits(s)
    ensures PairsWhole(ClearPending(s)) <==> PairsWhole(s)
  {
  }

  lemma {:induction false} ScrollTimesKeepsPairs(s: Term, n: nat)
    requires Fits(s) && PairsWhole(s)
    ensures PairsWhole(ScrollTimes(s, n))
  {
    hide ScrollActiveUp, PairsWhole;
    if n == 0 {
    } else {
      ScrollTimesKeepsPairs(s, n - 1);
      ScrollKeepsPairs(ScrollTimes(s, n - 1));
    }
  }

  lemma LineKeepsPairsIff(s: Term, start: nat, end: nat)
    requires Fits(s) && PairsWhole(s) && start < end <= s.dims.columns
    ensures PairsWhole(EraseThenClearPending(s, start, end)) <==>
            !CutsPair(CursorCells(s), start) && !CutsPair(CursorCells(s), end)
  {
    hide FillErased, PairsWhole;
    var row := Active(s).cursor.row;
    FillKeepsPairsIff(s, row, start, end, s.style.background);
    ClearPendingPairs(FillErased(s, row, start, end, s.style.background));
  }

  lemma DisplayBelowKeepsPairsIff(s: Term)
    requires Fits(s) && PairsWhole(s)
    ensures PairsWhole(EraseDisplayFromCursor(s)) <==> !CutsPair(CursorCells(s), Active(s).cursor.column)
  {
    hide FillErased, FillRows, PairsWhole, WholePairs;
    var cursor := Active(s).cursor;
    var u := FillErased(s, cursor.row, cursor.column, s.dims.columns, s.style.background);
    var v := FillRows(u, cursor.row + 1, s.dims.rows, None);
    FillKeepsPairsIff(s, cursor.row, cursor.column, s.dims.columns, s.style.background);
    FillRowsElsewhere(u, cursor.row + 1, s.dims.rows, None);
    if PairsWhole(u) {
      FillRowsKeepsPairs(u, cursor.row + 1, s.dims.rows, None);
    } else {
      FillElsewhere(s, cursor.row, cursor.column, s.dims.columns, s.style.background);
      TornRowStaysTorn(s, u, v, cursor.row);
    }
    ClearPendingPairs(v);
  }

  /** What tore a pair in one row is not undone by erasing other rows. */
  lemma TornRowStaysTorn(s: Term, u: Term, v: Term, row: nat)
    requires Fits(s) && Fits(u) && Fits(v) && PairsWhole(s) && !PairsWhole(u) && row < s.dims.rows
    requires Local(s, u) && v.dims == s.dims && u.dims == s.dims && Active(v).rows[row] == Active(u).rows[row]
    requires forall i :: 0 <= i < s.dims.rows && i != row ==> Active(u).rows[i].cells == Active(s).rows[i].cells
    ensures !PairsWhole(v)
  {
    hide WholePairs;
    RowKeepsPairsIff(s, u, row);
    assert !WholePairs(Active(v).rows[row].cells);
    assert !RowsHavePairs(Active(v).rows);
  }

  lemma DisplayAboveKeepsPairsIff(s: Term)
    requires Fits(s) && PairsWhole(s)
    ensures PairsWhole(EraseDisplayToCursor(s)) <==> !CutsPair(CursorCells(s), Active(s).cursor.column + 1)
  {
    hide FillErased, FillRows, PairsWhole, WholePairs;
    var cursor := Active(s).cursor;
    var end := Min(cursor.column + 1, s.dims.columns);
    var u := FillRows(s, 0, cursor.row, None);
    FillRowsElsewhere(s, 0, cursor.row, None);
    FillRowsKeepsPairs(s, 0, cursor.row, None);
    FillKeepsPairsIff(u, cursor.row, 0, end, s.style.background);
    CursorRowIsWhole(s);
    ClearPendingPairs(FillErased(u, cursor.row, 0, end, s.style.background));
  }

  lemma CursorRowIsWhole(s: Term)
    requires Fits(s) && PairsWhole(s)
    ensures WholePairs(CursorCells(s)) && !CutsPair(CursorCells(s), 0)
  {
    FirstColumnCutsNothing(CursorCells(s));
  }

  lemma DisplayAllKeepsPairs(s: Term)
    requires Fits(s) && PairsWhole(s)
    ensures PairsWhole(EraseDisplayAll(s))
  {
    hide PairsWhole, FillRows, ScrollTimes, OccupiedRows;
    ScrollTimesKeepsPairs(s, OccupiedRows(s.primary.rows));
    var u := ArchiveOccupied(s);
    FillRowsKeepsPairs(u, 0, s.dims.rows, s.style.background);
    ClearPendingPairs(FillRows(u, 0, s.dims.rows, s.style.background));
  }

  lemma DisplayKeepsPairsIff(s: Term, mode: nat)
    requires Fits(s) && PairsWhole(s)
    ensures var cells, column := CursorCells(s), Active(s).cursor.column;
            PairsWhole(EraseInDisplay(s, mode)) <==>
            !(mode == 0 && CutsPair(cells, column)) && !(mode == 1 && CutsPair(cells, column + 1))
  {
    hide PairsWhole, EraseDisplayFromCursor, EraseDisplayToCursor, EraseDisplayAll, CutsPair;
    DisplayBelowKeepsPairsIff(s);
    DisplayAboveKeepsPairsIff(s);
    DisplayAllKeepsPairs(s);
  }

  lemma InLineKeepsPairsIff(s: Term, mode: nat)
    requires Fits(s) && PairsWhole(s)
    ensures var cells, column := CursorCells(s), Active(s).cursor.column;
            PairsWhole(EraseInLine(s, mode)) <==>
            && !(mode == 0 && !Active(s).pendingWrap && CutsPair(cells, column))
            && !(mode == 1 && CutsPair(cells, column + 1))
  {
    hide PairsWhole, EraseThenClearPending;
    var column := Active(s).cursor.column;
    CursorRowIsWhole(s);
    LineKeepsPairsIff(s, column, s.dims.columns);
    LineKeepsPairsIff(s, 0, Min(column + 1, s.dims.columns));
    LineKeepsPairsIff(s, 0, s.dims.columns);
  }

  lemma CharactersKeepPairsIff(s: Term, sequence: CsiSequence)
    requires Fits(s) && PairsWhole(s)
    ensures var cells, column := CursorCells(s), Active(s).cursor.column;
            PairsWhole(EraseCharacters(s, sequence)) <==>
            !CutsPair(cells, column) && !CutsPair(cells, column + ParamOr(sequence, 0, 1))
  {
    hide PairsWhole, EraseThenClearPending;
    var column := Active(s).cursor.column;
    LineKeepsPairsIff(s, column, Min(column + ParamOr(sequence, 0, 1), s.dims.columns));
  }

  lemma ErasingSequence(s: Term, sequence: CsiSequence)
    requires Fits(s) && Erases(sequence)
    ensures sequence.action == 'J' || sequence.action == 'K' || sequence.action == 'X'
    ensures ApplyCsi(s, sequence) ==
            if sequence.action == 'J' then EraseInDisplay(s, ParamOr(sequence, 0, 0))
            else if sequence.action == 'K' then EraseInLine(s, ParamOr(sequence, 0, 0))
            else EraseCharacters(s, sequence)
  {
    hide EraseInDisplay, EraseInLine, EraseCharacters;
  }

  /** An erasing sequence keeps pairs exactly when no end of its range on the cursor row splits one. */
  lemma ErasureKeepsPairsIff(s: Term, sequence: CsiSequence)
    requires Fits(s) && PairsWhole(s) && Erases(sequence)
    ensures PairsWhole(ApplyCsi(s, sequence)) <==> !ErasureTears(s, sequence)
  {
    hide PairsWhole, ApplyCsi, EraseInDisplay, EraseInLine, EraseCharacters, CutsPair, CursorCells, Erases;
    ErasingSequence(s, sequence);
    DisplayKeepsPairsIff(s, ParamOr(sequence, 0, 0));
    InLineKeepsPairsIff(s, ParamOr(sequence, 0, 0));
    CharactersKeepPairsIff(s, sequence);
  }

  /* ----- resizing on the alternate screen ----- */

  /** Cutting rows to `columns` splits a pair of one of them. */
  predicate CutTears(rows: seq<Row>, columns: nat) {
    exists i :: 0 <= i < |rows| && CutsPair(rows[i].cells, columns)
  }

  /** The rows that stay: the top of both screens, and the history that the budgets still keep. */
  predicate AlternateResizeTears(s: Term, d: Dimensions) {
    var kept := |Retained(s.setup.budget, ResizedRows(s.scrollback, d.columns))|;
    || CutTears(s.primary.rows[..Min(d.rows, |s.primary.rows|)], d.columns)
    || CutTears(s.alternate.rows[..Min(d.rows, |s.alternate.rows|)], d.columns)
    || CutTears(s.scrollback[|s.scrollback| - kept..], d.columns)
  }

  lemma CutRowsKeepPairsIff(rows: seq<Row>, columns: nat)
    requires RowsHavePairs(rows)
    ensures RowsHavePairs(ResizedRows(rows, columns)) <==> !CutTears(rows, columns)
  {
    hide WholePairs;
    var out := ResizedRows(rows, columns);
    forall i | 0 <= i < |rows|
      ensures WholePairs(out[i].cells) <==> !CutsPair(rows[i].cells, columns)
    {
      ResizeWidthKeepsPairsIff(rows[i], columns);
      assert out[i] == rows[i].ResizeWidth(columns);
    }
    if CutTears(rows, columns) {
      var i :| 0 <= i < |rows| && CutsPair(rows[i].cells, columns);
      assert !WholePairs(out[i].cells);
    }
  }

  lemma VisibleKeepsPairsIff(f: Surface, d: Dimensions, id: nat)
    requires Sized(d) && RowsHavePairs(f.rows)
    ensures RowsHavePairs(ResizeVisible(f, d, id).rows) <==> !CutTears(f.rows[..Min(d.rows, |f.rows|)], d.columns)
  {
    hide WholePairs, CutTears, BlankRows;
    var top := f.rows[..Min(d.rows, |f.rows|)];
    CutRowsKeepPairsIff(top, d.columns);
    var blanks := BlankRows(d.columns, id, Max(d.rows - |f.rows|, 0));
    BlankRowsHavePairs(d.columns, id, Max(d.rows - |f.rows|, 0));
    ResizedPrefix(f.rows, d.columns, |top|);
    assert ResizeVisible(f, d, id).rows == ResizedRows(top, d.columns) + blanks;
    RowsConcatPairs(ResizedRows(top, d.columns), blanks);
  }

  lemma ResizedPrefix(rows: seq<Row>, columns: nat, n: nat)
    requires n <= |rows|
    ensures ResizedRows(rows, columns)[..n] == ResizedRows(rows[..n], columns)
    ensures ResizedRows(rows, columns)[n..] == ResizedRows(rows[n..], columns)
  {
  }

  lemma RowsConcatPairs(a: seq<Row>, b: seq<Row>)
    ensures RowsHavePairs(a + b) <==> RowsHavePairs(a) && RowsHavePairs(b)
  {
    hide WholePairs;
    if RowsHavePairs(a + b) {
      assert forall i :: 0 <= i < |a| ==> a[i] == (a + b)[i];
      assert forall i :: 0 <= i < |b| ==> b[i] == (a + b)[|a| + i];
    }
  }

  lemma HistoryKeepsPairsIff(s: Term, columns: nat)
    requires RowsHavePairs(s.scrollback)
    ensures var kept := |Retained(s.setup.budget, ResizedRows(s.scrollback, columns))|;
            RowsHavePairs(Retained(s.setup.budget, ResizedRows(s.scrollback, columns))) <==>
            !CutTears(s.scrollback[|s.scrollback| - kept..], columns)
  {
    hide WholePairs, CutTears, Retained, WithinBudget;
    var out := ResizedRows(s.scrollback, columns);
    RetainedIsLongestFittingSuffix(s.setup.budget, out);
    var n := |out| - |Retained(s.setup.budget, out)|;
    ResizedPrefix(s.scrollback, columns, n);
    CutRowsKeepPairsIff(s.scrollback[n..], columns);
  }

  /** A resize while the alternate screen is shown keeps pairs exactly when no row that stays is cut
      between a lead and its spacer. */
  lemma AlternateResizeKeepsPairsIff(s: Term, d: Dimensions)
    requires Sized(d) && PairsWhole(s)
    ensures PairsWhole(ResizeWhileAlternate(s, d)) <==> !AlternateResizeTears(s, d)
  {
    hide WholePairs, CutTears, Retained, ResizeVisible;
    VisibleKeepsPairsIff(s.primary, d, s.nextRowId);
    VisibleKeepsPairsIff(s.alternate, d, IdAfterVisible(s.primary, d, s.nextRowId));
    HistoryKeepsPairsIff(s, d.columns);
  }

  /* ----- resizing the primary screen to one column ----- */

  /** Reflowed rows that a primary resize leaves in history and viewport. */
  function RowsThatStay(s: Term, d: Dimensions): seq<Row>
    requires Grid(s) && Sized(d)
  {
    GridCursor(s);
    var r := ReflowedLineage(ResizePrimaryHeight(s, d.rows), d.columns).result;
    var k := SplitAt(r, d.rows);
    Retained(s.setup.budget, r.rows[..k]) + r.rows[k..Min(k + d.rows, |r.rows|)]
  }

  lemma SuffixKeepsWidth(s: Term, rows: seq<Row>, columns: nat)
    requires AllWidth(rows, columns)
    ensures AllWidth(Retained(s.setup.budget, rows), columns)
  {
    RetainedIsLongestFittingSuffix(s.setup.budget, rows);
  }

  /** One column cannot hold a pair: pairs stay whole exactly when no row that stays holds a half. */
  lemma OneColumnKeepsPairsIff(s: Term, d: Dimensions)
    requires Grid(s) && PairsWhole(s) && Sized(d) && d.columns == 1
    ensures s.primary.cursor.row < |s.primary.rows|
    ensures PairsWhole(ResizeActivePrimary(s, d)) <==> OnlyNarrowRows(RowsThatStay(s, d))
  {
    hide Retained, WholePairs, BlankRows, OnlyNarrowRows, ResizePrimaryHeight, Grid, RowsHavePairs, Gather;
    GridCursor(s);
    var h := ResizePrimaryHeight(s, d.rows);
    var p := ReflowedLineage(h, d.columns);
    var r, k := p.result, SplitAt(p.result, d.rows);
    var end := Min(k + d.rows, |r.rows|);
    AddLinesAllWidth(GroupedLines(Lineage(h), SourceMark(h), 1), 1, h.nextRowId);
    var older, shown := Retained(s.setup.budget, r.rows[..k]), r.rows[k..end];
    SuffixKeepsWidth(s, r.rows[..k], 1);
    OneColumnPairsIff(older + shown);
    RowsConcatPairs(older, shown);
    BlankRowsHavePairs(d.columns, p.nextRowId, d.rows - (end - k));
    RowsConcatPairs(shown, BlankRows(d.columns, p.nextRowId, d.rows - (end - k)));
  }

  /* ----- steps ----- */

  predicate TearsPair(s: Term, op: Op)
    requires Grid(s)
  {
    match op
    case Act(action) => action.Csi? && Erases(action.sequence) && ErasureTears(s, action.sequence)
    case ResizeTo(columns, rows) =>
      var d := Dimensions(columns, rows);
      && DimensionsOk(d) && d != s.dims
      && if s.active.Alternate? then AlternateResizeTears(s, d)
         else columns == 1 && !OnlyNarrowRows(RowsThatStay(s, d))
    case Render => false
  }

  /** The exact effect of one operation on wide pairs. */
  lemma StepKeepsPairsIff(s: Term, op: Op)
    requires Grid(s) && PairsWhole(s)
    ensures PairsWhole(Step(s, op)) <==> !TearsPair(s, op)
  {
    hide PairsWhole, PrintChar, ApplyControl, ApplyCsi, ErasureTears, AlternateResizeTears;
    match op {
      case Act(action) =>
        match action {
          case Print(ch) => PrintKeepsPairs(s, ch);
          case Control(b) => ControlKeepsPairs(s, ControlKind(b));
          case Csi(sequence) =>
            if Erases(sequence) {
              ErasureKeepsPairsIff(s, sequence);
            } else {
              CsiKeepsPairs(s, sequence);
            }
          case _ =>
        }
      case ResizeTo(columns, rows) => ResizeKeepsPairsIff(s, columns, rows);
      case Render => RenderKeepsPairs(s);
    }
  }

  lemma RenderKeepsPairs(s: Term)
    requires PairsWhole(s)
    ensures PairsWhole(Rendered(s))
  {
  }

  lemma ResizeKeepsPairsIff(s: Term, columns: nat, rows: nat)
    requires Grid(s) && PairsWhole(s)
    ensures PairsWhole(Resize(s, columns, rows)) <==> !TearsPair(s, ResizeTo(columns, rows))
  {
    hide ResizeActivePrimary, ResizeWhileAlternate, AlternateResizeTears, WholePairs, OnlyNarrowRows, RowsThatStay;
    var d := Dimensions(columns, rows);
    if DimensionsOk(d) && d != s.dims {
      if s.active.Primary? {
        if columns >= 2 { PrimaryResizeKeepsPairs(s, d); } else { OneColumnKeepsPairsIff(s, d); }
      } else {
        AlternateResizeKeepsPairsIff(s, d);
      }
    }
  }

  /* ----- runs ----- */

  /** No operation of the run tears a pair where it happens. */
  ghost predicate NeverTears(s: Term, ops: seq<Op>) {
    forall k :: 0 <= k < |ops| && Run(s, ops[..k]).Some? && Grid(Run(s, ops[..k]).value) ==>
                  !TearsPair(Run(s, ops[..k]).value, ops[k])
  }

  ghost predicate AlwaysWhole(s: Term, ops: seq<Op>) {
    forall k :: 0 <= k <= |ops| && Run(s, ops[..k]).Some? ==> PairsWhole(Run(s, ops[..k]).value)
  }

  lemma RunFront(s: Term, ops: seq<Op>)
    requires ops != [] && Run(s, ops).Some?
    ensures var n := |ops| - 1;
            && Run(s, ops[..n]).Some?
            && Grid(Run(s, ops[..n]).value) && Admissible(Run(s, ops[..n]).value, ops[n])
            && Run(s, ops).value == Step(Run(s, ops[..n]).value, ops[n])
  {
  }

  /** Along a run all wide pairs stay whole, in every state, exactly when no operation tears one. */
  lemma {:induction false} RunKeepsPairsIff(s: Term, ops: seq<Op>)
    requires PairsWhole(s) && Run(s, ops).Some?
    ensures AlwaysWhole(s, ops) <==> NeverTears(s, ops)
  {
    hide PairsWhole, TearsPair, Run, Step, Grid, Admissible;
    if ops == [] {
      EmptyRun(s, ops);
    } else {
      var n := |ops| - 1;
      RunFront(s, ops);
      var u := Run(s, ops[..n]).value;
      assert forall k :: 0 <= k <= n ==> ops[..n][..k] == ops[..k];
      assert forall k :: 0 <= k < n ==> ops[..n][k] == ops[k];
      assert ops[..|ops|] == ops;
      RunKeepsPairsIff(s, ops[..n]);
      if PairsWhole(u) {
        StepKeepsPairsIff(u, ops[n]);
      }
      if AlwaysWhole(s, ops) {
        assert AlwaysWhole(s, ops[..n]);
        assert PairsWhole(Run(s, ops[..n]).value) && PairsWhole(Run(s, ops[..|ops|]).value);
      }
      if NeverTears(s, ops) {
        assert NeverTears(s, ops[..n]);
        assert AlwaysWhole(s, ops[..n]);
        assert ops[..n][..n] == ops[..n];
      }
    }
  }

  lemma EmptyRun(s: Term, ops: seq<Op>)
    requires ops == [] && PairsWhole(s)
    ensures Run(s, ops) == Some(s) && AlwaysWhole(s, ops)
  {
    assert ops[..0] == [];
  }
}
