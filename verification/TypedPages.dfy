/** Pages of typed rows: what one character or line break does to history and viewport. */
module TypedPages {
  import opened RenderModel
  import opened Arith
  import opened Text
  import opened Reflow
  import opened ReflowText
  import opened TerminalModel
  import opened WidePairs
  import opened Printing

  /** Everything archived and shown, oldest row first. */
  function Page(s: Term): seq<Row> {
    s.archived + s.primary.rows
  }

  function CursorRow(s: Term): nat {
    |s.archived| + s.primary.cursor.row
  }

  /** Columns of the cursor's row that hold typed cells. */
  function Extent(s: Term): nat {
    if s.primary.pendingWrap then s.dims.columns else s.primary.cursor.column
  }

  /** `done` lines are finished; `current` has been typed on the line that row `g` is part of,
      up to column `extent`. */
  ghost predicate TypedPage(page: seq<Row>, g: nat, extent: nat, done: seq<seq<RenderCell>>, current: seq<RenderCell>) {
    && g < |page| && extent <= |page[g].cells|
    && var j := JoinAll(NOTHING, page[..g]);
    && StripAll(j.closed) == done
    && j.open + page[g].cells[..extent] == current
    && Untouched(page[g].cells[extent..])
    && Aligned(|j.open|, |page[g].cells|)
    && !page[g].wrapped
    && BlankFrom(page, g + 1)
  }

  ghost predicate Typed(s: Term, done: seq<seq<RenderCell>>, current: seq<RenderCell>) {
    && s.active.Primary? && Fits(s)
    && TypedPage(Page(s), CursorRow(s), Extent(s), done, current)
  }

  /* ----- what a line is made of ----- */

  function GlyphOf(ch: char, width: nat, style: CellStyle): seq<RenderCell>
    requires 1 <= width <= 2
  {
    if width == 1 then [TextCell(ch, 1, style)] else [TextCell(ch, 2, style), TextCell(' ', 0, style)]
  }

  /** Cells of one character: none, one, or a lead and its spacer. One column holds no pair. */
  function CellsOfChar(setup: Setup, columns: nat, style: CellStyle, ch: char): (cells: seq<RenderCell>) {
    var width := Min(PrintableWidth(setup, ch), Min(columns, 2));
    if width <= 0 then [] else GlyphOf(ch, width, style)
  }

  /** Cells as printing lays them out: with a blank before each lead that would start in the last
      column, in the style of the lead. */
  function Laid(cells: seq<RenderCell>, columns: nat): seq<RenderCell>
    requires columns > 0
  {
    if cells == [] then []
    else
      var n := |cells| - 1;
      var front, cell := Laid(cells[..n], columns), cells[n];
      if cell.width > 1 && LastColumn(|front|, columns) then front + [TextCell(' ', 1, cell.style), cell]
      else front + [cell]
  }

  /** Printing and reflow put the same blanks before the same leads; only the style differs: printing
      takes that of the lead, a reflow takes the default. */
  lemma {:induction false} LaidLikeSpaced(cells: seq<RenderCell>, columns: nat)
    requires columns > 0
    ensures var laid, spaced := Laid(cells, columns), Spaced(cells, columns);
            && |laid| == |spaced|
            && (forall i :: 0 <= i < |laid| && laid[i] != spaced[i] ==>
                              && spaced[i] == EMPTY_CELL
                              && i + 1 < |laid| && laid[i + 1].width > 1
                              && laid[i] == TextCell(' ', 1, laid[i + 1].style))
    ensures (forall i :: 0 <= i < |cells| && cells[i].width > 1 ==> cells[i].style == DEFAULT_STYLE) ==>
              Laid(cells, columns) == Spaced(cells, columns)
  {
    hide LastColumn;
    if cells == [] {
    } else {
      var n := |cells| - 1;
      LaidLikeSpaced(cells[..n], columns);
      var laid, spaced := Laid(cells[..n], columns), Spaced(cells[..n], columns);
      var wide := cells[n].width > 1 && LastColumn(|laid|, columns);
      assert Laid(cells, columns) == if wide then laid + [TextCell(' ', 1, cells[n].style), cells[n]]
                                     else laid + [cells[n]];
      assert Spaced(cells, columns) == if wide then spaced + [EMPTY_CELL, cells[n]] else spaced + [cells[n]];
    }
  }

  /* ----- one character ----- */

  /** Moving below the cursor's row: the page keeps its rows, and may gain a blank one. */
  lemma MoveDownPage(s: Term)
    requires Fits(s) && s.active.Primary? && !s.primary.pendingWrap
    ensures var t := MoveDownOrScroll(s);
            && t.active.Primary? && t.style == s.style && t.dims == s.dims && t.setup == s.setup
            && CursorRow(t) == CursorRow(s) + 1 && t.primary.cursor.column == s.primary.cursor.column
            && Page(s) <= Page(t)
            && (BlankFrom(Page(s), CursorRow(s) + 1) ==> BlankFrom(Page(t), CursorRow(s) + 1))
  {
    if s.primary.cursor.row + 1 >= s.dims.rows {
      var t := MoveDownOrScroll(s);
      assert Page(t) == Page(s) + [BlankRow(s.dims.columns, s.nextRowId)];
    }
  }

  /** A full row marked as wrapped becomes an open part of the line of the next row. */
  lemma {:induction false} WrapPage(
    page: seq<Row>, g: nat, done: seq<seq<RenderCell>>, current: seq<RenderCell>, after: seq<Row>)
    requires g < |page| && TypedPage(page, g, |page[g].cells|, done, current)
    requires g + 1 < |after| && 0 < |page[g].cells| == |after[g + 1].cells|
    requires after[..g + 1] == page[..g] + [page[g].(wrapped := true)]
    requires BlankFrom(after, g + 1)
    ensures TypedPage(after, g + 1, 0, done, current)
  {
    assert after[..g + 1][..g] == page[..g];
    assert page[g].cells[..|page[g].cells|] == page[g].cells;
    assert JoinAll(NOTHING, after[..g + 1]).open == current;
    AlignedNext(|JoinAll(NOTHING, page[..g]).open|, |page[g].cells|);
    assert current + after[g + 1].cells[..0] == current;
    assert after[g + 1].cells[0..] == after[g + 1].cells;
  }

  /** A pending wrap turns the full row into an open part of the line. */
  lemma {:induction false} WrapKeepsTyped(s: Term, done: seq<seq<RenderCell>>, current: seq<RenderCell>)
    requires Typed(s, done, current) && s.primary.pendingWrap
    ensures Typed(WrapPending(s), done, current) && !WrapPending(s).primary.pendingWrap
    ensures WrapPending(s).style == s.style
  {
    var g := CursorRow(s);
    WrapPendingPage(s);
    CursorRowWidth(s);
    CursorRowWidth(WrapPending(s));
    WrapPage(Page(s), g, done, current, Page(WrapPending(s)));
  }

  lemma WrapPendingPage(s: Term)
    requires Fits(s) && s.active.Primary?
    ensures var t := WrapPending(s);
            var g := CursorRow(s);
            && t.active.Primary? && t.style == s.style && CursorRow(t) == g + 1 && Extent(t) == 0
            && Page(t)[..g + 1] == Page(s)[..g] + [Page(s)[g].(wrapped := true)]
            && (BlankFrom(Page(s), g + 1) ==> BlankFrom(Page(t), g + 1))
  {
    var f, g := s.primary, CursorRow(s);
    var row := f.cursor.row;
    var marked := f.rows[row].(wrapped := true);
    var u := MarkRow(WithActive(s, f.(rows := f.rows[row := marked], pendingWrap := false)), row);
    assert Page(u) == Page(s)[g := marked];
    MoveDownPage(u);
    assert Page(WrapPending(s)) == Page(MoveDownOrScroll(u));
    assert Page(WrapPending(s))[..g + 1] == Page(u)[..g + 1];
  }

  lemma CursorRowWidth(s: Term)
    requires Fits(s) && s.active.Primary?
    ensures CursorRow(s) < |Page(s)| && 0 < |Page(s)[CursorRow(s)].cells| == s.dims.columns
    ensures Page(s)[CursorRow(s)] == s.primary.rows[s.primary.cursor.row]
  {
  }

  /** `n` cells fill whole rows. */
  predicate Aligned(n: nat, columns: nat) {
    columns > 0 && n % columns == 0
  }

  lemma AlignedNext(n: nat, columns: nat)
    requires Aligned(n, columns)
    ensures Aligned(n + columns, columns)
  {
    var q := n / columns;
    assert n == q * columns + n % columns;
    assert n + columns == (q + 1) * columns + 0;
    DivUnique(q + 1, 0, columns);
  }

  lemma LastColumnIff(n: nat, extent: nat, columns: nat)
    requires Aligned(n, columns) && extent < columns
    ensures LastColumn(n + extent, columns) <==> extent == columns - 1
  {
    var q := n / columns;
    assert n == q * columns + n % columns;
    DivUnique(q, extent, columns);
  }

  lemma UnpairedNarrow(cells: seq<RenderCell>, column: nat)
    requires column < |cells| && cells[column].width == 1
    ensures Unpaired(cells, column) == cells
  {
  }

  /** Written over untouched cells, a glyph fills them in order. */
  lemma GlyphFills(cells: seq<RenderCell>, column: nat, ch: char, width: nat, style: CellStyle)
    requires 1 <= width <= 2 && column + width <= |cells| && Untouched(cells[column..])
    ensures var lead, spacer := TextCell(ch, width, style), TextCell(' ', 0, style);
            var written := GlyphCells(cells, column, lead, spacer);
            && written[..column + width] == cells[..column] + GlyphOf(ch, width, style)
            && Untouched(written[column + width..])
  {
    assert cells[column] == cells[column..][0];
    UnpairedNarrow(cells, column);
    if width == 2 {
      assert cells[column + 1] == cells[column..][1];
      UnpairedNarrow(cells, column + 1);
    }
    forall i | column + width <= i < |cells| ensures cells[i] == EMPTY_CELL {
      assert cells[i] == cells[column..][i - column];
    }
  }

  lemma GlyphPage(
    page: seq<Row>, g: nat, extent: nat, done: seq<seq<RenderCell>>, current: seq<RenderCell>,
    written: seq<RenderCell>, glyph: seq<RenderCell>)
    requires TypedPage(page, g, extent, done, current) && |written| == |page[g].cells|
    requires extent + |glyph| <= |written| && Untouched(written[extent + |glyph|..])
    requires written[..extent + |glyph|] == page[g].cells[..extent] + glyph
    ensures TypedPage(page[g := page[g].(cells := written)], g, extent + |glyph|, done, current + glyph)
  {
    hide JoinAll, StripAll, Aligned;
    var after := page[g := page[g].(cells := written)];
    var open := JoinAll(NOTHING, page[..g]).open;
    assert after[..g] == page[..g];
    assert open + (page[g].cells[..extent] + glyph) == open + page[g].cells[..extent] + glyph;
  }

  lemma GlyphChangesPage(s: Term, ch: char, width: nat)
    requires Fits(s) && s.active.Primary? && !s.primary.pendingWrap
    requires 1 <= width <= 2 && s.primary.cursor.column + width <= s.dims.columns
    ensures var t := PlaceGlyph(s, ch, width);
            var f, g := s.primary, CursorRow(s);
            var lead, spacer := TextCell(ch, width, s.style), TextCell(' ', 0, s.style);
            var written := GlyphCells(f.rows[f.cursor.row].cells, f.cursor.column, lead, spacer);
            && t.active.Primary? && t.style == s.style && Fits(t)
            && g < |Page(s)| && Page(t) == Page(s)[g := Page(s)[g].(cells := written)]
            && CursorRow(t) == g && Extent(t) == f.cursor.column + width
  {
    hide GlyphCells, PlaceGlyph, GlyphInRow;
    var f, t := s.primary, PlaceGlyph(s, ch, width);
    PlaceGlyphWrites(s, ch, width);
    PlaceGlyphPrints(s, ch, width);
    assert t.archived == s.archived && t.primary.cursor.row == f.cursor.row;
    RowOnPage(s.archived, f.rows, f.cursor.row, t.primary.rows[f.cursor.row]);
  }

  lemma RowOnPage(archived: seq<Row>, rows: seq<Row>, row: nat, written: Row)
    requires row < |rows|
    ensures archived + rows[row := written] == (archived + rows)[|archived| + row := written]
    ensures (archived + rows)[|archived| + row] == rows[row]
  {
  }

  /** A glyph goes behind what is typed already. */
  lemma {:induction false} GlyphIsTyped(
    s: Term, done: seq<seq<RenderCell>>, current: seq<RenderCell>, ch: char, width: nat)
    requires Typed(s, done, current) && !s.primary.pendingWrap
    requires 1 <= width <= 2 && s.primary.cursor.column + width <= s.dims.columns
    ensures Typed(PlaceGlyph(s, ch, width), done, current + GlyphOf(ch, width, s.style))
    ensures PlaceGlyph(s, ch, width).style == s.style
  {
    hide TypedPage, PlaceGlyph, GlyphCells, Page;
    var column := s.primary.cursor.column;
    var cells := s.primary.rows[s.primary.cursor.row].cells;
    CursorRowWidth(s);
    TypedTail(Page(s), CursorRow(s), column, done, current);
    GlyphFills(cells, column, ch, width, s.style);
    GlyphChangesPage(s, ch, width);
    var lead, spacer := TextCell(ch, width, s.style), TextCell(' ', 0, s.style);
    GlyphPage(Page(s), CursorRow(s), column, done, current,
              GlyphCells(cells, column, lead, spacer), GlyphOf(ch, width, s.style));
  }

  lemma TypedTail(page: seq<Row>, g: nat, extent: nat, done: seq<seq<RenderCell>>, current: seq<RenderCell>)
    requires TypedPage(page, g, extent, done, current)
    ensures g < |page| && extent <= |page[g].cells| && Untouched(page[g].cells[extent..]) && BlankFrom(page, g + 1)
  {
  }

  /** Before a wide glyph that does not fit, the line gets a blank in the style of the pen. */
  lemma {:induction false} EarlyWrapIsTyped(s: Term, done: seq<seq<RenderCell>>, current: seq<RenderCell>)
    requires Typed(s, done, current) && !s.primary.pendingWrap && s.primary.cursor.column == s.dims.columns - 1
    ensures var t := WrapBeforeWide(s);
            Typed(t, done, current + [TextCell(' ', 1, s.style)]) && t.style == s.style
  {
    hide Typed, WrapPending, WrapBeforeWide;
    assert Fits(s) && s.active.Primary? by { TypedFits(s, done, current); }
    BlankThenWrap(s);
    GlyphIsTyped(s, done, current, ' ', 1);
    WrapKeepsTyped(PlaceGlyph(s, ' ', 1), done, current + [TextCell(' ', 1, s.style)]);
  }

  lemma TypedFits(s: Term, done: seq<seq<RenderCell>>, current: seq<RenderCell>)
    requires Typed(s, done, current)
    ensures Fits(s) && s.active.Primary?
  {
  }

  lemma LaidMore(raw: seq<RenderCell>, cell: RenderCell, columns: nat)
    requires columns > 0
    ensures Laid(raw + [cell], columns) ==
            if cell.width > 1 && LastColumn(|Laid(raw, columns)|, columns)
            then Laid(raw, columns) + [TextCell(' ', 1, cell.style), cell] else Laid(raw, columns) + [cell]
  {
    assert (raw + [cell])[..|raw|] == raw;
  }

  lemma LaidGlyph(raw: seq<RenderCell>, ch: char, width: nat, style: CellStyle, columns: nat)
    requires columns > 0 && 1 <= width <= 2
    ensures var before, glyph := Laid(raw, columns), GlyphOf(ch, width, style);
            Laid(raw + glyph, columns) ==
            (if width == 2 && LastColumn(|before|, columns) then before + [TextCell(' ', 1, style)] else before) + glyph
  {
    hide Laid, LastColumn;
    var lead, spacer := TextCell(ch, width, style), TextCell(' ', 0, style);
    LaidMore(raw, lead, columns);
    if width == 2 {
      LaidMore(raw + [lead], spacer, columns);
      assert raw + GlyphOf(ch, width, style) == raw + [lead] + [spacer];
    }
  }

  /** A character typed in any style behind laid-out cells leaves the longer line laid out. */
  lemma {:induction false} CharIsTyped(s: Term, done: seq<seq<RenderCell>>, raw: seq<RenderCell>, ch: char)
    requires s.dims.columns > 0 && Typed(s, done, Laid(raw, s.dims.columns))
    ensures var t, columns := PrintChar(s, ch), s.dims.columns;
            && Typed(t, done, Laid(raw + CellsOfChar(s.setup, columns, s.style, ch), columns))
            && t.style == s.style
  {
    hide Laid, LastColumn, WrapBeforeWide, PlaceGlyph, WrapPending, JoinAll, Aligned;
    var columns, current := s.dims.columns, Laid(raw, s.dims.columns);
    var u, width := AfterPendingWrap(s), GlyphWidth(s, ch);
    if s.primary.pendingWrap {
      WrapKeepsTyped(s, done, current);
    }
    if width == 0 {
      assert raw + [] == raw;
    } else {
      LaidGlyph(raw, ch, width, s.style, columns);
      TypedExtent(u, done, current);
      if width == 2 && u.primary.cursor.column + width > columns {
        EarlyWrapIsTyped(u, done, current);
        GlyphIsTyped(WrapBeforeWide(u), done, current + [TextCell(' ', 1, s.style)], ch, width);
      } else {
        GlyphIsTyped(u, done, current, ch, width);
      }
    }
  }

  /** The length of what is typed tells the column. */
  lemma TypedExtent(s: Term, done: seq<seq<RenderCell>>, current: seq<RenderCell>)
    requires Typed(s, done, current) && !s.primary.pendingWrap
    ensures LastColumn(|current|, s.dims.columns) <==> s.primary.cursor.column == s.dims.columns - 1
  {
    CursorRowWidth(s);
    LastColumnIff(|JoinAll(NOTHING, Page(s)[..CursorRow(s)]).open|, s.primary.cursor.column, s.dims.columns);
  }

  /* ----- a line break ----- */

  lemma {:induction false} LineBreakPage(
    page: seq<Row>, g: nat, extent: nat, done: seq<seq<RenderCell>>, current: seq<RenderCell>,
    after: seq<Row>)
    requires TypedPage(page, g, extent, done, current)
    requires g + 1 < |after| && after[..g + 1] == page[..g + 1] && BlankFrom(after, g + 1)
    requires 0 < |after[g + 1].cells|
    ensures TypedPage(after, g + 1, 0, done + [Strip(current)], [])
  {
    var row := page[g];
    var j := JoinAll(NOTHING, page[..g]);
    var tail := row.cells[extent..];
    assert after[..g + 1][..g] == page[..g];
    assert j.open + row.cells == current + tail;
    StripIgnoresEmptyTail(current, tail);
    var k := JoinAll(NOTHING, after[..g + 1]);
    assert k == Joined(j.closed + [j.open + row.cells], [], false);
    assert StripAll(k.closed) == done + [Strip(current)];
    assert [] + after[g + 1].cells[..0] == [];
    assert after[g + 1].cells[0..] == after[g + 1].cells;
  }

  lemma LineBreakMoves(s: Term)
    requires Fits(s) && s.active.Primary?
    ensures var t := FeedLine(ReturnCarriage(s));
            var g := CursorRow(s);
            && t.active.Primary? && t.style == s.style && CursorRow(t) == g + 1 && Extent(t) == 0
            && Page(t)[..g + 1] == Page(s)[..g + 1]
            && (BlankFrom(Page(s), g + 1) ==> BlankFrom(Page(t), g + 1))
  {
    var u := ClearPending(ReturnCarriage(s));
    assert Page(u) == Page(s);
    MoveDownPage(u);
  }

  lemma {:induction false} LineBreakIsTyped(s: Term, done: seq<seq<RenderCell>>, current: seq<RenderCell>)
    requires Typed(s, done, current)
    ensures Typed(FeedLine(ReturnCarriage(s)), done + [Strip(current)], [])
    ensures FeedLine(ReturnCarriage(s)).style == s.style
  {
    hide TypedPage, FeedLine, ReturnCarriage, Page;
    LineBreakMoves(s);
    TypedTail(Page(s), CursorRow(s), Extent(s), done, current);
    CursorRowWidth(FeedLine(ReturnCarriage(s)));
    LineBreakPage(Page(s), CursorRow(s), Extent(s), done, current, Page(FeedLine(ReturnCarriage(s))));
  }

  /* ----- reading the page back ----- */

  /** The text of the page: the finished lines, the current one, and empty lines. */
  lemma {:induction false} TypedText(
    page: seq<Row>, g: nat, extent: nat, done: seq<seq<RenderCell>>, current: seq<RenderCell>)
    requires TypedPage(page, g, extent, done, current)
    ensures TextOf(page) == done + [Strip(current)] + NoLines(|page| - g - 1)
  {
    var j := JoinAll(NOTHING, page[..g]);
    var row := page[g];
    var tail := row.cells[extent..];
    assert j.open + row.cells == current + tail;
    StripIgnoresEmptyTail(current, tail);
    var k := Join(j, row);
    assert StripAll(k.closed) == done + [Strip(current)];
    assert page[..g + 1][..g] == page[..g];
    BlankRowsJoin(k, page[g + 1..]);
    JoinAllAppend(NOTHING, page[..g + 1], page[g + 1..]);
    assert page[..g + 1] + page[g + 1..] == page;
  }

  lemma TypedPageFits(page: seq<Row>, g: nat, extent: nat, done: seq<seq<RenderCell>>, current: seq<RenderCell>)
    requires TypedPage(page, g, extent, done, current)
    ensures g < |page|
  {
  }
}
