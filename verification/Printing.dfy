/** What printing one character does to the shown screen, cell by cell. */
module Printing {
  import opened RenderModel
  import opened Protocol
  import opened History
  import opened TerminalModel
  import opened WidePairs

  /** Columns that a character takes: at most two, none if it has no width, one on a single column. */
  function ColumnsTaken(s: Term, ch: char): nat {
    match s.setup.unicodeWidth(ch)
    case None => 0
    case Some(0) => 0
    case Some(1) => 1
    case Some(_) => if s.dims.columns == 1 then 1 else 2
  }

  /** A wide lead with its spacer behind it. */
  predicate PairIn(cells: seq<RenderCell>, lead: int) {
    0 <= lead && lead + 1 < |cells| && cells[lead].width > 1 && cells[lead + 1].width == 0
  }

  /** Cell `j` of a row once a glyph of that width is written at `column`: the glyph, a blank of the
      same style for the half of a pair that is left standing beside it, or the cell as before. */
  function CellPrinted(before: seq<RenderCell>, column: nat, glyph: RenderCell, j: nat): RenderCell
    requires j < |before|
  {
    if j == column then glyph
    else if column < j < column + glyph.width then RenderCell(' ', 0, glyph.style, None)
    else if (j + 1 == column && PairIn(before, j)) || (j == column + glyph.width && PairIn(before, j - 1))
    then RenderCell(' ', 1, before[j].style, None)
    else before[j]
  }

  ghost predicate GlyphInRow(before: seq<RenderCell>, after: seq<RenderCell>, column: nat, glyph: RenderCell) {
    && |after| == |before| && column + glyph.width <= |before|
    && forall j :: 0 <= j < |before| ==> after[j] == CellPrinted(before, column, glyph, j)
  }

  /** The glyph is written at the cursor in the pen's style. The cursor goes behind it, or stays in
      the last column with a wrap pending. Only the cursor row is damaged; nothing else changes. */
  ghost predicate GlyphPrinted(s: Term, t: Term, ch: char, width: nat)
    requires Fits(s)
  {
    var f, g, columns := Active(s), Active(t), s.dims.columns;
    var row, column := f.cursor.row, f.cursor.column;
    && |g.rows| == |f.rows|
    && (forall i :: 0 <= i < |f.rows| && i != row ==> g.rows[i] == f.rows[i])
    && g.rows[row] == f.rows[row].(cells := g.rows[row].cells)
    && GlyphInRow(f.rows[row].cells, g.rows[row].cells, column, RenderCell(ch, width, s.style, None))
    && g.cursor == CursorState(row, Min(column + width, columns - 1), f.cursor.visible)
    && g.pendingWrap == (column + width == columns)
    && t == WithActive(s, g).(damage := s.damage + {row})
  }

  /** Blanking the other half of the pair at `column`, cell by cell. */
  lemma UnpairedAt(cells: seq<RenderCell>, column: nat, j: nat)
    requires column < |cells| && j < |cells|
    ensures Unpaired(cells, column)[j] ==
            if (j + 1 == column && PairIn(cells, j)) || (j == column + 1 && PairIn(cells, column))
            then RenderCell(' ', 1, cells[j].style, None) else cells[j]
  {
  }

  lemma GlyphCellsAt(cells: seq<RenderCell>, column: nat, lead: RenderCell, spacer: RenderCell)
    requires 1 <= lead.width <= 2 && column + lead.width <= |cells|
    requires lead.image.None? && spacer == RenderCell(' ', 0, lead.style, None)
    ensures GlyphInRow(cells, GlyphCells(cells, column, lead, spacer), column, lead)
  {
    hide Unpaired;
    var first := Unpaired(cells, column);
    forall j | 0 <= j < |cells|
      ensures GlyphCells(cells, column, lead, spacer)[j] == CellPrinted(cells, column, lead, j)
    {
      UnpairedAt(cells, column, j);
      if lead.width == 2 {
        UnpairedAt(first, column + 1, j);
        UnpairedAt(cells, column, column + 1);
      }
    }
  }

  lemma ClearedRest(s: Term, row: nat, column: nat)
    requires Fits(s)
    ensures var t := ClearWidePartner(s, row, column);
            t == WithActive(s, Active(t)).(damage := t.damage) && s.damage <= t.damage <= s.damage + {row}
  {
  }

  lemma GlyphRest(s: Term, row: nat, column: nat, ch: char, width: nat)
    requires Fits(s) && row < s.dims.rows && 1 <= width <= 2 && column + width <= s.dims.columns
    ensures var t := WriteGlyph(s, row, column, ch, width);
            t == WithActive(s, Active(t)).(damage := s.damage + {row})
  {
    ClearedRest(s, row, column);
    ClearedRest(ClearWidePartner(s, row, column), row, column + 1);
  }

  lemma PlaceGlyphPrints(s: Term, ch: char, width: nat)
    requires Fits(s) && !Active(s).pendingWrap
    requires 1 <= width <= 2 && Active(s).cursor.column + width <= s.dims.columns
    ensures GlyphPrinted(s, PlaceGlyph(s, ch, width), ch, width)
  {
    hide GlyphCells, GlyphInRow;
    var f := Active(s);
    PlaceGlyphWrites(s, ch, width);
    GlyphCellsAt(f.rows[f.cursor.row].cells, f.cursor.column,
                 TextCell(ch, width, s.style), TextCell(' ', 0, s.style));
    GlyphRest(s, f.cursor.row, f.cursor.column, ch, width);
  }

  lemma WidthIsTaken(s: Term, ch: char)
    requires Fits(s)
    ensures GlyphWidth(s, ch) == ColumnsTaken(s, ch) <= Min(2, s.dims.columns)
  {
  }

  /** With no wrap pending and room for it, a character is printed; without a width it does nothing. */
  lemma PrintingPrints(s: Term, ch: char)
    requires Fits(s) && !Active(s).pendingWrap
    ensures ColumnsTaken(s, ch) == 0 ==> PrintChar(s, ch) == s
    ensures 0 < ColumnsTaken(s, ch) && Active(s).cursor.column + ColumnsTaken(s, ch) <= s.dims.columns ==>
              GlyphPrinted(s, PrintChar(s, ch), ch, ColumnsTaken(s, ch))
  {
    hide PlaceGlyph, GlyphPrinted, GlyphWidth, ColumnsTaken;
    WidthIsTaken(s, ch);
    var width := ColumnsTaken(s, ch);
    if 0 < width && Active(s).cursor.column + width <= s.dims.columns {
      PlaceGlyphPrints(s, ch, width);
    }
  }

  lemma WrapIgnoresFlag(s: Term)
    requires Fits(s) && Active(s).cursor.column == s.dims.columns - 1
    ensures WrapPending(WithActive(s, Active(s).(pendingWrap := true))) == WrapPending(s)
  {
    hide MoveDownOrScroll;
  }

  lemma BlankThenWrap(s: Term)
    requires Fits(s) && !Active(s).pendingWrap && Active(s).cursor.column == s.dims.columns - 1
    ensures WrapBeforeWide(s) == WrapPending(PlaceGlyph(s, ' ', 1))
  {
    hide WrapPending, ClearWidePartner;
    var cursor := Active(s).cursor;
    var cleared := ClearWidePartner(s, cursor.row, cursor.column);
    var v := WriteCell(cleared, cursor.row, cursor.column, TextCell(' ', 1, s.style));
    WrapIgnoresFlag(v);
    assert PlaceGlyph(s, ' ', 1) == WithActive(v, Active(v).(pendingWrap := true));
  }

  /** A wide character in the last column: as if a blank had been printed there first. */
  lemma WideLeavesBlank(s: Term, ch: char) returns (u: Term)
    requires Fits(s) && !Active(s).pendingWrap
    requires Active(s).cursor.column + ColumnsTaken(s, ch) > s.dims.columns
    ensures Fits(u) && GlyphPrinted(s, u, ' ', 1) && Active(u).pendingWrap
    ensures PrintChar(s, ch) == PrintChar(u, ch)
  {
    hide GlyphInRow, ColumnsTaken, WrapPending, WrapBeforeWide, PlaceGlyph;
    WidthIsTaken(s, ch);
    u := PlaceGlyph(s, ' ', 1);
    PlaceGlyphPrints(s, ' ', 1);
    BlankThenWrap(s);
  }

  /** The cursor row marked as going on in the next one. */
  function Continued(s: Term): Term
    requires Fits(s)
  {
    var f := Active(s);
    WithActive(s, f.(rows := f.rows[f.cursor.row := f.rows[f.cursor.row].(wrapped := true)]))
  }

  function HomeColumn(s: Term): Term {
    WithActive(s, MoveTo(Active(s), Active(s).cursor.row, 0, false))
  }

  lemma DownThenHome(s: Term)
    requires Fits(s) && !Active(s).pendingWrap
    ensures MoveDownOrScroll(HomeColumn(s)) == HomeColumn(MoveDownOrScroll(s))
  {
    hide AllRows, BlankRow, Retained, AllWidth;
    if Active(s).cursor.row + 1 < s.dims.rows {
      assert MoveDownOrScroll(HomeColumn(s)).damage == HomeColumn(MoveDownOrScroll(s)).damage;
    }
  }

  lemma WrapIsNewLine(s: Term)
    requires Fits(s)
    ensures Fits(Continued(s)) && WrapPending(s) == FeedLine(ReturnCarriage(Continued(s)))
  {
    hide MoveDownOrScroll, AllRows;
    var f := Active(s);
    var marked := f.rows[f.cursor.row := f.rows[f.cursor.row].(wrapped := true)];
    var u := MarkRow(WithActive(s, f.(rows := marked, pendingWrap := false)), f.cursor.row);
    DownThenHome(u);
    assert ReturnCarriage(Continued(s)) == HomeColumn(u);
  }

  /** A pending wrap, before any character: the row is marked, then a carriage return and a line feed. */
  lemma PendingWrapIsNewLine(s: Term, ch: char)
    requires Fits(s) && Active(s).pendingWrap
    ensures Fits(Continued(s))
    ensures var next := ApplyControl(ApplyControl(Continued(s), CarriageReturn), LineFeed);
            !Active(next).pendingWrap && PrintChar(s, ch) == PrintChar(next, ch)
  {
    hide PlaceGlyph, WrapBeforeWide, WrapPending, FeedLine, ReturnCarriage, Continued;
    WrapIsNewLine(s);
  }
}
