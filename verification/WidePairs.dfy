/** Wide pairs over runs: printing, wrapping, scrolling, moving and reflowing keep them whole. */
module WidePairs {
  import opened RenderModel
  import opened Protocol
  import opened History
  import opened Reflow
  import opened ReflowPairs
  import opened TerminalModel
  import opened TerminalResize

  /* ----- one row ----- */

  /** A row's cells after a glyph of width 1 or 2 is written at `column`. */
  function GlyphCells(cells: seq<RenderCell>, column: nat, lead: RenderCell, spacer: RenderCell): (r: seq<RenderCell>)
    requires column + Max(lead.width, 1) <= |cells| && 1 <= lead.width <= 2
    ensures |r| == |cells|
  {
    var first := Unpaired(cells, column);
    if lead.width > 1 then Unpaired(first, column + 1)[column := lead][column + 1 := spacer]
    else first[column := lead]
  }

  /** Blanking the other half frees `column`: everything else is whole, and no half pair points at it. */
  lemma {:induction false} UnpairedFrees(cells: seq<RenderCell>, column: nat)
    requires WholePairs(cells) && column < |cells|
    ensures var r := Unpaired(cells, column);
            && (forall i :: 0 <= i < |cells| && i != column ==> PairAt(r, i))
            && (column > 0 ==> r[column - 1].width <= 1)
            && (column + 1 < |cells| ==> r[column + 1].width != 0)
            && r[column] == cells[column]
  {
    var r := Unpaired(cells, column);
    assert PairAt(cells, column);
    if column > 0 { assert PairAt(cells, column - 1); }
    if column + 1 < |cells| { assert PairAt(cells, column + 1); }
    forall i | 0 <= i < |cells| && i != column ensures PairAt(r, i) {
      assert PairAt(cells, i);
    }
  }

  lemma {:induction false} NarrowKeepsPairs(cells: seq<RenderCell>, column: nat, cell: RenderCell)
    requires WholePairs(cells) && column < |cells| && cell.width == 1
    ensures WholePairs(Unpaired(cells, column)[column := cell])
  {
    UnpairedFrees(cells, column);
    var r, out := Unpaired(cells, column), Unpaired(cells, column)[column := cell];
    forall i | 0 <= i < |out| ensures PairAt(out, i) {
      assert i != column ==> PairAt(r, i);
    }
  }

  lemma {:induction false} WideKeepsPairs(cells: seq<RenderCell>, column: nat, lead: RenderCell, spacer: RenderCell)
    requires WholePairs(cells) && lead.width == 2 && spacer.width == 0 && column + 2 <= |cells|
    ensures WholePairs(GlyphCells(cells, column, lead, spacer))
  {
    var blank := TextCell(' ', 1, DEFAULT_STYLE);
    UnpairedFrees(cells, column);
    var first := Unpaired(cells, column);
    var mid := first[column := blank];
    NarrowKeepsPairs(cells, column, blank);
    UnpairedFrees(mid, column + 1);
    var freed := Unpaired(mid, column + 1);
    var out := GlyphCells(cells, column, lead, spacer);
    assert mid[column + 1].width != 0;
    assert out == freed[column := lead][column + 1 := spacer];
    assert freed[column] == blank;
    forall i | 0 <= i < |out| ensures PairAt(out, i) {
      assert i != column + 1 ==> PairAt(freed, i);
    }
  }

  lemma GlyphKeepsPairs(cells: seq<RenderCell>, column: nat, lead: RenderCell, spacer: RenderCell)
    requires WholePairs(cells) && 1 <= lead.width <= 2 && column + lead.width <= |cells|
    requires spacer.width == 0
    ensures WholePairs(GlyphCells(cells, column, lead, spacer))
  {
    if lead.width > 1 {
      WideKeepsPairs(cells, column, lead, spacer);
    } else {
      NarrowKeepsPairs(cells, column, lead);
    }
  }

  /* ----- erasure and cutting ----- */

  /** Erasing columns `start..end` keeps pairs exactly when neither end splits one. */
  lemma {:induction false} EraseKeepsPairsIff(cells: seq<RenderCell>, start: nat, end: nat, background: Option<Color>)
    requires WholePairs(cells) && start < end <= |cells|
    ensures WholePairs(EraseCells(cells, start, end, ErasedCell(background))) <==>
            cells[start].width != 0 && (end == |cells| || cells[end].width != 0)
  {
    var out := EraseCells(cells, start, end, ErasedCell(background));
    assert PairAt(cells, start);
    if end < |cells| { assert PairAt(cells, end); }
    if cells[start].width == 0 {
      assert out[start - 1] == cells[start - 1] && out[start].width == 1;
      assert !PairAt(out, start - 1);
    } else if end < |cells| && cells[end].width == 0 {
      assert out[end - 1].width == 1;
      assert !PairAt(out, end);
    } else {
      forall i | 0 <= i < |out| ensures PairAt(out, i) {
        assert PairAt(cells, i);
        assert i + 1 == start ==> PairAt(cells, i + 1);
      }
    }
  }

  /** Cutting or padding a row keeps pairs exactly when the cut does not split one. */
  lemma {:induction false} ResizeWidthKeepsPairsIff(row: Row, columns: nat)
    requires WholePairs(row.cells)
    ensures WholePairs(row.ResizeWidth(columns).cells) <==>
            columns >= |row.cells| || row.cells[columns].width != 0
  {
    var out := Resized(row.cells, columns);
    if columns <= |row.cells| {
      CutKeepsPairsIff(row.cells, columns);
      assert out == row.cells[..columns];
    } else {
      PairsConcat(row.cells, Blanks(columns - |row.cells|));
    }
  }

  /* ----- whole states ----- */

  ghost predicate PairsWhole(s: Term) {
    RowsHavePairs(s.scrollback) && RowsHavePairs(s.primary.rows) && RowsHavePairs(s.alternate.rows)
  }

  lemma PairsActive(s: Term, f: Surface)
    requires PairsWhole(s) && RowsHavePairs(f.rows)
    ensures RowsHavePairs(Active(s).rows) && PairsWhole(WithActive(s, f))
  {
  }

  lemma RetainedPairs(s: Term, rows: seq<Row>)
    requires RowsHavePairs(rows)
    ensures RowsHavePairs(Retained(s.setup.budget, rows))
  {
    RetainedIsLongestFittingSuffix(s.setup.budget, rows);
  }

  lemma ScrollKeepsPairs(s: Term)
    requires Fits(s) && PairsWhole(s)
    ensures PairsWhole(ScrollActiveUp(s))
  {
    RetainedPairs(s, s.scrollback + [Active(s).rows[0]]);
  }

  lemma MoveDownKeepsPairs(s: Term)
    requires Fits(s) && PairsWhole(s) && !Active(s).pendingWrap
    ensures PairsWhole(MoveDownOrScroll(s))
  {
    if Active(s).cursor.row + 1 >= s.dims.rows {
      ScrollKeepsPairs(s);
    }
  }

  lemma WrapPendingKeepsPairs(s: Term)
    requires Fits(s) && PairsWhole(s)
    ensures PairsWhole(WrapPending(s))
  {
    var f := Active(s);
    var row := f.cursor.row;
    var wrapped := f.(rows := f.rows[row := f.rows[row].(wrapped := true)], pendingWrap := false);
    PairsActive(s, wrapped);
    MoveDownKeepsPairs(MarkRow(WithActive(s, wrapped), row));
  }

  /** A row of the active screen gets other whole cells. */
  lemma CellsKeepPairs(s: Term, t: Term, row: nat, cells: seq<RenderCell>)
    requires Fits(s) && PairsWhole(s) && Local(s, t) && row < s.dims.rows && WholePairs(cells)
    requires Active(t).rows == WithCells(Active(s), row, cells).rows
    ensures PairsWhole(t)
  {
  }

  lemma WrapBeforeWideKeepsPairs(s: Term)
    requires Fits(s) && PairsWhole(s)
    ensures PairsWhole(WrapBeforeWide(s))
  {
    var cursor := Active(s).cursor;
    var cells := Active(s).rows[cursor.row].cells;
    var blank := TextCell(' ', 1, s.style);
    var u := ClearWidePartner(s, cursor.row, cursor.column);
    var v := WriteCell(u, cursor.row, cursor.column, blank);
    NarrowKeepsPairs(cells, cursor.column, blank);
    LocalTransitive(s, u, v);
    CellsKeepPairs(s, v, cursor.row, Unpaired(cells, cursor.column)[cursor.column := blank]);
    WrapPendingKeepsPairs(v);
  }

  lemma WithCellsTwice(f: Surface, row: nat, a: seq<RenderCell>, b: seq<RenderCell>)
    requires row < |f.rows|
    ensures WithCells(WithCells(f, row, a), row, b) == WithCells(f, row, b)
    ensures WithCells(f, row, a).rows[row].cells == a
  {
    var r := f.rows[row];
    assert f.rows[row := r.(cells := a)][row := r.(cells := b)] == f.rows[row := r.(cells := b)];
  }

  lemma ClearThenWrite(s: Term, row: nat, column: nat, cells: seq<RenderCell>, f: Surface)
    requires Fits(s) && row < s.dims.rows && column < s.dims.columns && |f.rows| == s.dims.rows
    requires Active(s) == WithCells(f, row, cells)
    ensures |cells| == s.dims.columns
    ensures Active(ClearWidePartner(s, row, column)) == WithCells(f, row, Unpaired(cells, column))
    ensures forall cell :: Active(WriteCell(s, row, column, cell)) == WithCells(f, row, cells[column := cell])
  {
    WithCellsTwice(f, row, cells, cells);
    assert Active(s).rows[row].cells == cells;
    WithCellsTwice(f, row, cells, Unpaired(cells, column));
    forall cell ensures Active(WriteCell(s, row, column, cell)) == WithCells(f, row, cells[column := cell]) {
      WithCellsTwice(f, row, cells, cells[column := cell]);
    }
  }

  lemma {:induction false} WriteGlyphWrites(s: Term, row: nat, column: nat, ch: char, width: nat)
    requires Fits(s) && row < s.dims.rows && 1 <= width <= 2 && column + width <= s.dims.columns
    ensures var cells := Active(s).rows[row].cells;
            Active(WriteGlyph(s, row, column, ch, width)) ==
            WithCells(Active(s), row,
                      GlyphCells(cells, column, TextCell(ch, width, s.style), TextCell(' ', 0, s.style)))
  {
    var f := Active(s);
    var cells := f.rows[row].cells;
    var lead := TextCell(ch, width, s.style);
    assert f.rows[row := f.rows[row].(cells := cells)] == f.rows;
    ClearThenWrite(s, row, column, cells, f);
    var first, freed := ClearWidePartner(s, row, column), Unpaired(cells, column);
    if width > 1 {
      ClearThenWrite(first, row, column + 1, freed, f);
      var cleared := ClearWidePartner(first, row, column + 1);
      ClearThenWrite(cleared, row, column, Unpaired(freed, column + 1), f);
      var written := WriteCell(cleared, row, column, lead);
      ClearThenWrite(written, row, column + 1, Unpaired(freed, column + 1)[column := lead], f);
    } else {
      ClearThenWrite(first, row, column, freed, f);
    }
  }

  /** Placing a glyph changes one row, as `GlyphCells` says, and moves the cursor behind it. */
  lemma {:induction false} PlaceGlyphWrites(s: Term, ch: char, width: nat)
    requires Fits(s) && 1 <= width <= 2 && Active(s).cursor.column + width <= s.dims.columns
    requires !Active(s).pendingWrap
    ensures var t := PlaceGlyph(s, ch, width);
            var row, column := Active(s).cursor.row, Active(s).cursor.column;
            var lead, spacer := TextCell(ch, width, s.style), TextCell(' ', 0, s.style);
            var cells := GlyphCells(Active(s).rows[row].cells, column, lead, spacer);
            Active(t) == MoveTo(WithCells(Active(s), row, cells), row,
                                Min(column + width, s.dims.columns - 1), column + width == s.dims.columns)
  {
    WriteGlyphWrites(s, Active(s).cursor.row, Active(s).cursor.column, ch, width);
  }

  lemma PrintKeepsPairs(s: Term, ch: char)
    requires Fits(s) && PairsWhole(s)
    ensures PairsWhole(PrintChar(s, ch))
  {
    hide WrapPending, WrapBeforeWide, PlaceGlyph;
    var u := AfterPendingWrap(s);
    if Active(s).pendingWrap {
      WrapPendingKeepsPairs(s);
    }
    var width := GlyphWidth(s, ch);
    if width > 0 {
      var v := u;
      if width > 1 && Active(u).cursor.column + width > s.dims.columns {
        v := WrapBeforeWide(u);
        WrapBeforeWideKeepsPairs(u);
      }
      PlaceGlyphWrites(v, ch, width);
      var row, column := Active(v).cursor.row, Active(v).cursor.column;
      var lead, spacer := TextCell(ch, width, v.style), TextCell(' ', 0, v.style);
      var cells := Active(v).rows[row].cells;
      GlyphKeepsPairs(cells, column, lead, spacer);
      CellsKeepPairs(v, PlaceGlyph(v, ch, width), row, GlyphCells(cells, column, lead, spacer));
    }
  }

  lemma ControlKeepsPairs(s: Term, kind: C0ControlKind)
    requires Fits(s) && PairsWhole(s)
    ensures PairsWhole(ApplyControl(s, kind))
  {
    match kind
    case LineFeed | VerticalTab | FormFeed => MoveDownKeepsPairs(ClearPending(s));
    case _ =>
  }

  lemma {:induction false} DecModesKeepPairs(s: Term, params: seq<CsiParam>, enabled: bool)
    requires PairsWhole(s)
    ensures PairsWhole(DecModes(s, params, enabled))
  {
    if params == [] {
    } else {
      var u := DecModes(s, params[..|params| - 1], enabled);
      DecModesKeepPairs(s, params[..|params| - 1], enabled);
      BlankRowsHavePairs(u.dims.columns, u.nextRowId, u.dims.rows);
    }
  }

  predicate Erases(sequence: CsiSequence) {
    !sequence.ignored && sequence.intermediates == [] && sequence.action in "JKX"
  }

  lemma CsiKeepsPairs(s: Term, sequence: CsiSequence)
    requires Fits(s) && PairsWhole(s) && !Erases(sequence)
    ensures PairsWhole(ApplyCsi(s, sequence))
  {
    if !sequence.ignored && sequence.intermediates == QUESTION_MARK &&
       (sequence.action == 'h' || sequence.action == 'l') {
      DecModesKeepPairs(s, sequence.params, sequence.action == 'h');
    }
  }

  /* ----- resizing the primary screen ----- */

  lemma HeightKeepsPairs(s: Term, rows: nat)
    requires Grid(s) && PairsWhole(s) && 0 < rows
    ensures RowsHavePairs(Lineage(ResizePrimaryHeight(s, rows)))
  {
    var k, end, blanks := HeightKeepsRows(s, rows);
    BlankRowsHavePairs(s.dims.columns, s.nextRowId, blanks);
  }

  lemma BlankRowsHavePairs(columns: nat, id: nat, n: nat)
    ensures RowsHavePairs(BlankRows(columns, id, n))
  {
    var rows := BlankRows(columns, id, n);
    forall i | 0 <= i < n ensures WholePairs(rows[i].cells) {
      assert rows[i] == BlankRow(columns, id + i);
    }
  }

  lemma {:induction false} PrimaryResizeKeepsPairs(s: Term, d: Dimensions)
    requires Grid(s) && PairsWhole(s) && Sized(d) && d.columns >= 2
    ensures PairsWhole(ResizeActivePrimary(s, d))
  {
    hide Retained, Reflowed, WholePairs, BlankRows, AllWidth;
    var h := ResizePrimaryHeight(s, d.rows);
    var p := ReflowedLineage(h, d.columns);
    var k := SplitAt(p.result, d.rows);
    HeightKeepsPairs(s, d.rows);
    ReflowKeepsPairs(Lineage(h), SourceMark(h), d.columns, h.nextRowId);
    BlankRowsHavePairs(d.columns, p.nextRowId, d.rows - (Min(k + d.rows, |p.result.rows|) - k));
    RetainedPairs(s, p.result.rows[..k]);
  }
}
