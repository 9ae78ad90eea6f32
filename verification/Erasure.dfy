/** What ED, EL and ECH leave of the screen, cell by cell. */
module Erasure {
  import opened RenderModel
  import opened Protocol
  import opened History
  import opened TerminalModel
  import opened WidePairs

  /** A blank with a background and no other attribute. */
  function Blank(background: Option<Color>): RenderCell {
    RenderCell(' ', 1, CellStyle(None, background, false, false, false, false), None)
  }

  /** The cell at a row and column lies in the range that the sequence erases: in reading order for
      ED, in columns of the cursor row for EL and ECH. */
  predicate InRange(s: Term, sequence: CsiSequence, row: nat, column: nat) {
    var cursor, mode := Active(s).cursor, ParamOr(sequence, 0, 0);
    var before := row < cursor.row || (row == cursor.row && column <= cursor.column);
    var after := row > cursor.row || (row == cursor.row && column >= cursor.column);
    if sequence.action == 'J' then (mode == 0 && after) || (mode == 1 && before) || mode == 2
    else if sequence.action == 'K' then
      row == cursor.row &&
      ((mode == 0 && after && !Active(s).pendingWrap) || (mode == 1 && before) || mode == 2)
    else row == cursor.row && cursor.column <= column < cursor.column + ParamOr(sequence, 0, 1)
  }

  /** Rows that ED 0 and ED 1 erase as a whole get no background; all else gets the pen's. */
  function BackgroundFor(s: Term, sequence: CsiSequence, row: nat): Option<Color> {
    if sequence.action == 'J' && ParamOr(sequence, 0, 0) < 2 && row != Active(s).cursor.row then None
    else s.style.background
  }

  /** Nothing is erased and nothing changes: EL 0 while a wrap is pending, and unknown modes. */
  predicate ErasesNothing(s: Term, sequence: CsiSequence) {
    var mode := ParamOr(sequence, 0, 0);
    || (sequence.action == 'K' && mode == 0 && Active(s).pendingWrap)
    || (sequence.action != 'X' && mode > 2)
  }

  /** The shown screen after an erasure: exactly the cells in range are blank and all others as
      before; rows erased to the last column end their line there; the cursor stays, no wrap is
      pending; exactly the rows with an erased cell are damaged, and nothing else is different. */
  ghost predicate ScreenErased(s: Term, t: Term, sequence: CsiSequence)
    requires Fits(s)
  {
    var before, after, columns := Active(s).rows, Active(t).rows, s.dims.columns;
    && |after| == |before|
    && (forall i :: 0 <= i < |before| ==>
          && |after[i].cells| == columns
          && after[i].handle == before[i].handle
          && after[i].wrapped == (before[i].wrapped && !InRange(s, sequence, i, columns - 1)))
    && (forall i, j :: 0 <= i < |before| && 0 <= j < columns ==>
          after[i].cells[j] ==
          if InRange(s, sequence, i, j) then Blank(BackgroundFor(s, sequence, i)) else before[i].cells[j])
    && t == WithActive(s, Surface(after, Active(s).cursor, false)).(damage := t.damage)
    && (forall i :: i in t.damage <==> i in s.damage || (0 <= i < |before| && RowInRange(s, sequence, i)))
  }

  predicate RowInRange(s: Term, sequence: CsiSequence, row: nat) {
    exists j :: 0 <= j < s.dims.columns && InRange(s, sequence, row, j)
  }

  /* ----- one row, many rows ----- */

  /** One row erased in the columns `start..end`. */
  ghost predicate RowErased(before: Row, after: Row, start: nat, end: nat, background: Option<Color>) {
    && |after.cells| == |before.cells| && after.handle == before.handle
    && after.wrapped == (before.wrapped && end < |before.cells|)
    && forall j :: 0 <= j < |before.cells| ==>
         after.cells[j] == if start <= j < end then Blank(background) else before.cells[j]
  }

  lemma FillErases(s: Term, row: nat, start: nat, end: nat, background: Option<Color>)
    requires Fits(s) && row < s.dims.rows && start < end <= s.dims.columns
    ensures var t := FillErased(s, row, start, end, background);
            && |Active(t).rows| == s.dims.rows
            && RowErased(Active(s).rows[row], Active(t).rows[row], start, end, background)
            && (forall i :: 0 <= i < s.dims.rows && i != row ==> Active(t).rows[i] == Active(s).rows[i])
            && t == WithActive(s, Active(s).(rows := Active(t).rows)).(damage := s.damage + {row})
  {
  }

  lemma {:induction false} FillRowsErases(s: Term, from: nat, end: nat, background: Option<Color>)
    requires Fits(s) && end <= s.dims.rows
    ensures var t := FillRows(s, from, end, background);
            && |Active(t).rows| == s.dims.rows
            && (forall i :: from <= i < end ==>
                  RowErased(Active(s).rows[i], Active(t).rows[i], 0, s.dims.columns, background))
            && (forall i :: 0 <= i < s.dims.rows && !(from <= i < end) ==> Active(t).rows[i] == Active(s).rows[i])
            && t == WithActive(s, Active(s).(rows := Active(t).rows)).(damage := t.damage)
            && (forall i :: i in t.damage <==> i in s.damage || from <= i < end)
    decreases end
  {
    hide FillErased, RowErased, RowsEdited, Local;
    if end <= from {
    } else {
      FillRowsErases(s, from, end - 1, background);
      FillErases(FillRows(s, from, end - 1, background), end - 1, 0, s.dims.columns, background);
    }
  }

  /* ----- the sequences ----- */

  lemma LineErases(s: Term, start: nat, end: nat)
    requires Fits(s) && start < end <= s.dims.columns
    ensures var t, row := EraseThenClearPending(s, start, end), Active(s).cursor.row;
            && |Active(t).rows| == s.dims.rows
            && RowErased(Active(s).rows[row], Active(t).rows[row], start, end, s.style.background)
            && (forall i :: 0 <= i < s.dims.rows && i != row ==> Active(t).rows[i] == Active(s).rows[i])
            && t == WithActive(s, Surface(Active(t).rows, Active(s).cursor, false)).(damage := s.damage + {row})
  {
    hide FillErased, RowErased;
    FillErases(s, Active(s).cursor.row, start, end, s.style.background);
  }

  /** A range in the cursor row alone. */
  lemma LineIsErased(s: Term, t: Term, sequence: CsiSequence, start: nat, end: nat)
    requires Fits(s) && start < end <= s.dims.columns && t == EraseThenClearPending(s, start, end)
    requires forall i, j :: 0 <= i < s.dims.rows && 0 <= j < s.dims.columns ==>
                              (InRange(s, sequence, i, j) <==> i == Active(s).cursor.row && start <= j < end)
    requires BackgroundFor(s, sequence, Active(s).cursor.row) == s.style.background
    ensures ScreenErased(s, t, sequence)
  {
    hide EraseThenClearPending, InRange, BackgroundFor;
    LineErases(s, start, end);
    var row := Active(s).cursor.row;
    assert InRange(s, sequence, row, start);
    assert RowInRange(s, sequence, row);
  }

  lemma InLineErases(s: Term, sequence: CsiSequence)
    requires Fits(s) && sequence.action == 'K' && !ErasesNothing(s, sequence)
    ensures ScreenErased(s, EraseInLine(s, ParamOr(sequence, 0, 0)), sequence)
  {
    hide EraseThenClearPending, ScreenErased;
    var column, mode := Active(s).cursor.column, ParamOr(sequence, 0, 0);
    var t := EraseInLine(s, mode);
    if mode == 0 {
      LineIsErased(s, t, sequence, column, s.dims.columns);
    } else if mode == 1 {
      LineIsErased(s, t, sequence, 0, Min(column + 1, s.dims.columns));
    } else {
      LineIsErased(s, t, sequence, 0, s.dims.columns);
    }
  }

  lemma CharactersErases(s: Term, sequence: CsiSequence)
    requires Fits(s) && sequence.action == 'X'
    ensures ScreenErased(s, EraseCharacters(s, sequence), sequence)
  {
    hide EraseThenClearPending, ScreenErased;
    var column := Active(s).cursor.column;
    LineIsErased(s, EraseCharacters(s, sequence), sequence, column,
                 Min(column + ParamOr(sequence, 0, 1), s.dims.columns));
  }

  /** Rows above, below and at the cursor, each erased on its own terms. */
  lemma DisplayIsErased(s: Term, t: Term, sequence: CsiSequence)
    requires Fits(s) && sequence.action == 'J' && ParamOr(sequence, 0, 0) < 2
    requires |Active(t).rows| == s.dims.rows
    requires var mode, cursor := ParamOr(sequence, 0, 0), Active(s).cursor;
             && RowErased(Active(s).rows[cursor.row], Active(t).rows[cursor.row],
                          if mode == 0 then cursor.column else 0,
                          if mode == 0 then s.dims.columns else cursor.column + 1, s.style.background)
             && (forall i :: 0 <= i < s.dims.rows && i != cursor.row ==>
                   if (mode == 0) == (i > cursor.row)
                   then RowErased(Active(s).rows[i], Active(t).rows[i], 0, s.dims.columns, None)
                   else Active(t).rows[i] == Active(s).rows[i])
             && t == WithActive(s, Surface(Active(t).rows, cursor, false)).(damage := t.damage)
             && (forall i :: i in t.damage <==>
                   i in s.damage || (0 <= i < s.dims.rows && (i == cursor.row || (mode == 0) == (i > cursor.row))))
    ensures ScreenErased(s, t, sequence)
  {
    var mode, cursor := ParamOr(sequence, 0, 0), Active(s).cursor;
    forall i | 0 <= i < s.dims.rows
      ensures RowInRange(s, sequence, i) <==> i == cursor.row || (mode == 0) == (i > cursor.row)
    {
      if i == cursor.row {
        assert InRange(s, sequence, i, cursor.column);
      } else if (mode == 0) == (i > cursor.row) {
        assert InRange(s, sequence, i, 0);
      }
    }
  }

  lemma BelowErases(s: Term, sequence: CsiSequence)
    requires Fits(s) && sequence.action == 'J' && ParamOr(sequence, 0, 0) == 0
    ensures ScreenErased(s, EraseDisplayFromCursor(s), sequence)
  {
    hide FillErased, FillRows, RowErased, ScreenErased, Local;
    var cursor := Active(s).cursor;
    var u := FillErased(s, cursor.row, cursor.column, s.dims.columns, s.style.background);
    FillErases(s, cursor.row, cursor.column, s.dims.columns, s.style.background);
    FillRowsErases(u, cursor.row + 1, s.dims.rows, None);
    DisplayIsErased(s, EraseDisplayFromCursor(s), sequence);
  }

  lemma AboveErases(s: Term, sequence: CsiSequence)
    requires Fits(s) && sequence.action == 'J' && ParamOr(sequence, 0, 0) == 1
    ensures ScreenErased(s, EraseDisplayToCursor(s), sequence)
  {
    hide FillErased, FillRows, RowErased, ScreenErased, Local;
    var cursor := Active(s).cursor;
    var u := FillRows(s, 0, cursor.row, None);
    FillRowsErases(s, 0, cursor.row, None);
    FillErases(u, cursor.row, 0, Min(cursor.column + 1, s.dims.columns), s.style.background);
    DisplayIsErased(s, EraseDisplayToCursor(s), sequence);
  }

  /* ----- ED 2 ----- */

  /** All rows blank with the pen's background and unwrapped, the cursor where it was. */
  ghost predicate AllErased(s: Term, t: Term) {
    var g := Active(t);
    && |g.rows| == s.dims.rows
    && (forall i :: 0 <= i < s.dims.rows ==> |g.rows[i].cells| == s.dims.columns && !g.rows[i].wrapped)
    && (forall i, j :: 0 <= i < s.dims.rows && 0 <= j < s.dims.columns ==>
          g.rows[i].cells[j] == Blank(s.style.background))
    && g.cursor == Active(s).cursor && !g.pendingWrap
    && t.style == s.style && t.saved == s.saved && t.active == s.active && t.dims == s.dims
    && forall i :: i in t.damage <==> i in s.damage || 0 <= i < s.dims.rows
  }

  /** A scroll moves every row up by one; only the primary screen archives the row that leaves. */
  lemma ScrollMovesUp(s: Term)
    requires Fits(s)
    ensures var t, f := ScrollActiveUp(s), Active(s);
            && |Active(t).rows| == s.dims.rows
            && (forall i :: 0 <= i < s.dims.rows - 1 ==> Active(t).rows[i] == f.rows[i + 1])
            && Active(t).cursor == f.cursor && t.style == s.style && t.dims == s.dims && t.active == s.active
            && t.archived == s.archived + (if s.active.Primary? then [f.rows[0]] else [])
            && t.damage == s.damage + AllRows(s.dims.rows)
  {
    hide Retained;
  }

  lemma SizeOf(s: Term)
    requires Fits(s)
    ensures |Active(s).rows| == s.dims.rows > 0
  {
  }

  lemma {:induction false} ScrollTimesArchives(s: Term, n: nat)
    requires Fits(s) && n <= s.dims.rows
    ensures var t, f := ScrollTimes(s, n), Active(s);
            && |Active(t).rows| == s.dims.rows
            && (forall i :: 0 <= i < s.dims.rows - n ==> Active(t).rows[i] == f.rows[i + n])
            && Active(t).cursor == f.cursor && t.style == s.style && t.dims == s.dims && t.active == s.active
            && t.archived == s.archived + (if s.active.Primary? then f.rows[..n] else [])
            && (forall i :: i in t.damage <==> i in s.damage || (n > 0 && 0 <= i < s.dims.rows))
  {
    hide ScrollActiveUp, Fits, Framed;
    SizeOf(s);
    if n == 0 {
      assert Active(s).rows[..0] == [];
    } else {
      ScrollTimesArchives(s, n - 1);
      var u := ScrollTimes(s, n - 1);
      ScrollMovesUp(u);
      SizeOf(u);
      assert Active(u).rows[0] == Active(s).rows[n - 1];
      assert Active(s).rows[..n] == Active(s).rows[..n - 1] + [Active(s).rows[n - 1]];
    }
  }

  /** ED 2 blanks the whole screen. On the primary screen the rows down to the last one that is not
      empty, and at least one, go to history first, in order; on the alternate screen none does. */
  lemma EraseAllErases(s: Term)
    requires Fits(s)
    ensures AllErased(s, EraseDisplayAll(s))
    ensures var t := EraseDisplayAll(s);
            s.active.Primary? ==>
              var n := |t.archived| - |s.archived|;
              && 1 <= n <= s.dims.rows && t.archived == s.archived + s.primary.rows[..n]
              && (n > 1 ==> !s.primary.rows[n - 1].IsEmpty())
              && forall i :: n <= i < s.dims.rows ==> s.primary.rows[i].IsEmpty()
    ensures s.active.Alternate? ==>
              && EraseDisplayAll(s).archived == s.archived
              && forall i :: 0 <= i < s.dims.rows ==>
                   Active(EraseDisplayAll(s)).rows[i].handle == s.alternate.rows[i].handle
  {
    hide FillRows, ScrollTimes, RowErased, Local, Retained;
    var n := OccupiedRows(s.primary.rows);
    if s.active.Primary? {
      ScrollTimesArchives(s, n);
    }
    var u := ArchiveOccupied(s);
    FillRowsErases(u, 0, s.dims.rows, s.style.background);
    RowsAreBlank(u, FillRows(u, 0, s.dims.rows, s.style.background), s.style.background);
  }

  lemma RowsAreBlank(s: Term, t: Term, background: Option<Color>)
    requires Fits(s) && |Active(t).rows| == s.dims.rows
    requires forall i :: 0 <= i < s.dims.rows ==>
                           RowErased(Active(s).rows[i], Active(t).rows[i], 0, s.dims.columns, background)
    ensures forall i :: 0 <= i < s.dims.rows ==>
                          && |Active(t).rows[i].cells| == s.dims.columns && !Active(t).rows[i].wrapped
                          && Active(t).rows[i].handle == Active(s).rows[i].handle
    ensures forall i, j :: 0 <= i < s.dims.rows && 0 <= j < s.dims.columns ==>
                             Active(t).rows[i].cells[j] == Blank(background)
  {
  }

  /* ----- all of them ----- */

  /** What an erasing sequence does, cell by cell. */
  lemma ErasingErases(s: Term, sequence: CsiSequence)
    requires Fits(s) && Erases(sequence)
    ensures var t := ApplyAction(s, Csi(sequence));
            if ErasesNothing(s, sequence) then t == s
            else if sequence.action == 'J' && ParamOr(sequence, 0, 0) == 2 then AllErased(s, t)
            else ScreenErased(s, t, sequence)
  {
    hide ScreenErased, AllErased, EraseDisplayFromCursor, EraseDisplayToCursor, EraseDisplayAll;
    hide EraseCharacters, EraseThenClearPending;
    if ErasesNothing(s, sequence) {
    } else if sequence.action == 'J' {
      if ParamOr(sequence, 0, 0) == 0 {
        BelowErases(s, sequence);
      } else if ParamOr(sequence, 0, 0) == 1 {
        AboveErases(s, sequence);
      } else {
        EraseAllErases(s);
      }
    } else if sequence.action == 'K' {
      InLineErases(s, sequence);
    } else {
      CharactersErases(s, sequence);
    }
  }
}
