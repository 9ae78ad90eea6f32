/** Where the cursor goes: addresses, moves and controls. */
module CursorMoves {
  import opened RenderModel
  import opened Protocol
  import opened History
  import opened TerminalModel
  import opened Sgr
  import Folds

  /** A sequence without intermediates, its parameters plain numbers. */
  function Plain(params: seq<nat>, final: char): TerminalAction {
    Csi(CsiSequence(seq(|params|, i requires 0 <= i < |params| => CsiParam([params[i]])), [], false, final))
  }

  /** CUP to a one-based row and column. */
  function Cup(row: nat, column: nat): TerminalAction {
    Plain([row, column], 'H')
  }

  /** The cursor of the shown screen at a row and column, no wrap pending, both rows damaged, and
      nothing else different. */
  ghost predicate CursorPlaced(s: Term, t: Term, row: nat, column: nat) {
    var f := Active(s);
    t == WithActive(s, Surface(f.rows, CursorState(row, column, f.cursor.visible), false)).(
           damage := s.damage + {f.cursor.row, row})
  }

  lemma PlainParams(params: seq<nat>, final: char, index: nat, default: nat)
    ensures var sequence := Plain(params, final).sequence;
            && !sequence.ignored && sequence.intermediates == [] && sequence.action == final
            && ParamOr(sequence, index, default) ==
               if index < |params| && params[index] != 0 then params[index] else default
  {
  }

  /** A cursor-moving sequence places the cursor at its target. */
  lemma MovePlaces(s: Term, sequence: CsiSequence)
    requires Fits(s) && IsCursorMove(sequence.action) && !sequence.ignored && sequence.intermediates == []
    ensures var target := CursorTarget(s, sequence);
            && ApplyAction(s, Csi(sequence)) == SetCursorPosition(s, target.0, target.1)
            && CursorPlaced(s, ApplyAction(s, Csi(sequence)), target.0, target.1)
  {
    hide CursorTarget, Fits, ParamOr;
  }

  /* ----- absolute ----- */

  /** CUP and HVP: one-based, clamped to the screen; a missing or zero parameter counts as 1. */
  lemma CupPlaces(s: Term, params: seq<nat>, final: char)
    requires Fits(s) && (final == 'H' || final == 'f')
    ensures var row := if |params| > 0 then Max(params[0], 1) else 1;
            var column := if |params| > 1 then Max(params[1], 1) else 1;
            CursorPlaced(s, ApplyAction(s, Plain(params, final)),
                         Min(row, s.dims.rows) - 1, Min(column, s.dims.columns) - 1)
  {
    hide ApplyAction, SetCursorPosition, CursorPlaced, ParamOr;
    PlainParams(params, final, 0, 1);
    PlainParams(params, final, 1, 1);
    MovePlaces(s, Plain(params, final).sequence);
  }

  /** The screen position is its own one-based address. */
  lemma CupIsExact(s: Term, row: nat, column: nat)
    requires Fits(s) && row < s.dims.rows && column < s.dims.columns
    ensures CursorPlaced(s, ApplyAction(s, Cup(row + 1, column + 1)), row, column)
  {
    CupPlaces(s, [row + 1, column + 1], 'H');
  }

  /* ----- relative ----- */

  /** The one-based address that a move with count `n` is short for. */
  function AddressOf(s: Term, n: nat, final: char): (nat, nat)
    requires Fits(s)
  {
    var row, column := Active(s).cursor.row, Active(s).cursor.column;
    match final
    case 'A' => (Max(row - n, 0) + 1, column + 1)
    case 'B' => (row + n + 1, column + 1)
    case 'C' => (row + 1, column + n + 1)
    case 'a' => (row + 1, column + n + 1)
    case 'D' => (row + 1, Max(column - n, 0) + 1)
    case 'E' => (row + n + 1, 1)
    case 'F' => (Max(row - n, 0) + 1, 1)
    case 'G' => (row + 1, n)
    case '`' => (row + 1, n)
    case _ => (n, column + 1)
  }

  lemma TargetIsAddress(s: Term, sequence: CsiSequence, n: nat)
    requires Fits(s) && sequence.action in "ABCaDEFG`d" && ParamOr(sequence, 0, 1) == n && n > 0
    ensures var address := AddressOf(s, n, sequence.action);
            CursorTarget(s, sequence) == (Min(address.0, s.dims.rows) - 1, Min(address.1, s.dims.columns) - 1)
  {
    hide AllWidth, ParamOr;
  }

  /** CUU, CUD, CUF, HPR, CUB, CNL, CPL, CHA, HPA and VPA are short for CUP; a missing or zero count
      is 1. The address may lie beyond the screen: CUP clamps it. */
  lemma MovesAreShortForCup(s: Term, params: seq<nat>, final: char)
    requires Fits(s) && final in "ABCaDEFG`d"
    ensures var n := if |params| > 0 then Max(params[0], 1) else 1;
            var address := AddressOf(s, n, final);
            ApplyAction(s, Plain(params, final)) == ApplyAction(s, Cup(address.0, address.1))
  {
    hide ApplyAction, SetCursorPosition, CursorPlaced, ParamOr, CursorTarget;
    var n := if |params| > 0 then Max(params[0], 1) else 1;
    var address := AddressOf(s, n, final);
    PlainParams(params, final, 0, 1);
    TargetIsAddress(s, Plain(params, final).sequence, n);
    MovePlaces(s, Plain(params, final).sequence);
    CupTarget(s, address.0, address.1);
    MovePlaces(s, Cup(address.0, address.1).sequence);
  }

  lemma CupTarget(s: Term, row: nat, column: nat)
    requires Fits(s) && row > 0 && column > 0
    ensures CursorTarget(s, Cup(row, column).sequence) == (Min(row, s.dims.rows) - 1, Min(column, s.dims.columns) - 1)
  {
    PlainParams([row, column], 'H', 0, 1);
    PlainParams([row, column], 'H', 1, 1);
  }

  /** Where the screen leaves room, a move by `n` goes exactly `n` rows or columns. */
  lemma MovesWithRoomAreExact(s: Term, n: nat)
    requires Fits(s) && n > 0
    ensures n <= Active(s).cursor.row ==>
              CursorPlaced(s, ApplyAction(s, Plain([n], 'A')), Active(s).cursor.row - n, Active(s).cursor.column)
    ensures Active(s).cursor.row + n < s.dims.rows ==>
              CursorPlaced(s, ApplyAction(s, Plain([n], 'B')), Active(s).cursor.row + n, Active(s).cursor.column)
    ensures Active(s).cursor.column + n < s.dims.columns ==>
              CursorPlaced(s, ApplyAction(s, Plain([n], 'C')), Active(s).cursor.row, Active(s).cursor.column + n)
    ensures n <= Active(s).cursor.column ==>
              CursorPlaced(s, ApplyAction(s, Plain([n], 'D')), Active(s).cursor.row, Active(s).cursor.column - n)
  {
    hide CursorPlaced, ApplyAction;
    var row, column := Active(s).cursor.row, Active(s).cursor.column;
    MovesAreShortForCup(s, [n], 'A');
    MovesAreShortForCup(s, [n], 'B');
    MovesAreShortForCup(s, [n], 'C');
    MovesAreShortForCup(s, [n], 'D');
    if n <= row { CupIsExact(s, row - n, column); }
    if row + n < s.dims.rows { CupIsExact(s, row + n, column); }
    if column + n < s.dims.columns { CupIsExact(s, row, column + n); }
    if n <= column { CupIsExact(s, row, column - n); }
  }

  /* ----- controls ----- */

  /** The cursor at another column of its row, no wrap pending, its row damaged. */
  ghost predicate ColumnPlaced(s: Term, t: Term, column: nat) {
    var f := Active(s);
    t == WithActive(s, Surface(f.rows, CursorState(f.cursor.row, column, f.cursor.visible), false)).(
           damage := s.damage + {f.cursor.row})
  }

  /** BS steps back and CR to the first column. */
  lemma BackspaceAndReturn(s: Term)
    requires Fits(s)
    ensures ColumnPlaced(s, ApplyAction(s, Control(0x08)), Max(Active(s).cursor.column - 1, 0))
    ensures ColumnPlaced(s, ApplyAction(s, Control(0x0d)), 0)
  {
  }

  /** A tab goes to the next multiple of eight, or to the last column if there is none before it. */
  lemma TabGoesToNextStop(s: Term)
    requires Fits(s)
    ensures var column := Active(ApplyAction(s, Control(0x09))).cursor.column;
            && ColumnPlaced(s, ApplyAction(s, Control(0x09)), column)
            && column < s.dims.columns
            && (column == s.dims.columns - 1 || (column % 8 == 0 && Active(s).cursor.column < column))
            && forall stop :: Active(s).cursor.column < stop < column ==> stop % 8 != 0
  {
    var at := Active(s).cursor.column;
    forall stop | at < stop < (at / 8 + 1) * 8
      ensures stop % 8 != 0
    {
      assert stop / 8 == at / 8;
    }
  }

  /** VT and FF are line feeds; controls without a meaning change nothing. */
  lemma OtherControls(s: Term, b: byte)
    requires Fits(s)
    ensures b == 0x0b || b == 0x0c ==> ApplyAction(s, Control(b)) == ApplyAction(s, Control(0x0a))
    ensures !(0x08 <= b <= 0x0d) ==> ApplyAction(s, Control(b)) == s
  {
    hide FeedLine, Tab, StepBack, ReturnCarriage;
  }

  lemma FeedIsDown(s: Term)
    requires Fits(s)
    ensures ApplyAction(s, Control(0x0a)) == MoveDownOrScroll(ClearPending(s))
    ensures var c := ClearPending(s);
            Active(c) == Active(s).(pendingWrap := false) && c == WithActive(s, Active(c)) && Fits(c)
  {
    hide MoveDownOrScroll;
  }

  /** A line feed goes down in the same column, or scrolls at the bottom: every row moves up by one, a
      blank one comes in, and only the primary screen archives the row that leaves. */
  lemma LineFeedGoesDown(s: Term)
    requires Fits(s)
    ensures var f, t := Active(s), ApplyAction(s, Control(0x0a));
            var g, last := Active(t), s.dims.rows - 1;
            && g.cursor == f.cursor.(row := Min(f.cursor.row + 1, last)) && !g.pendingWrap
            && |g.rows| == s.dims.rows
            && (f.cursor.row < last ==> g.rows == f.rows && t.archived == s.archived && t.nextRowId == s.nextRowId
                                        && t.damage == s.damage + {f.cursor.row, f.cursor.row + 1})
            && (f.cursor.row == last ==>
                  && (forall i :: 0 <= i < last ==> g.rows[i] == f.rows[i + 1])
                  && g.rows[last] == Row(RowHandle(s.nextRowId, 0), Blanks(s.dims.columns), false)
                  && t.archived == (if s.active.Primary? then s.archived + [f.rows[0]] else s.archived)
                  && t.damage == s.damage + AllRows(s.dims.rows))
  {
    hide AllWidth, Retained, AllRows, BlankRows, ApplyAction, ClearPending;
    FeedIsDown(s);
  }

  /* ----- the pen ----- */

  /** SGR changes the pen and nothing else. */
  lemma SgrSetsThePen(s: Term, params: seq<nat>)
    requires Fits(s)
    ensures ApplyAction(s, Plain(params, 'm')) == s.(style := Styled(s.style, params))
  {
    PlainFlatten(params);
  }

  lemma {:induction false} PlainFlatten(params: seq<nat>)
    ensures Flatten(Plain(params, 'm').sequence.params) == params
  {
    if params == [] {
    } else {
      var n := |params| - 1;
      PlainFlatten(params[..n]);
      assert Plain(params, 'm').sequence.params[..n] == Plain(params[..n], 'm').sequence.params;
      assert params == params[..n] + [params[n]];
    }
  }

  /* ----- subparameters ----- */

  /** The first subparameters; none at all counts like a zero. */
  function Heads(params: seq<CsiParam>): (heads: seq<nat>)
    ensures |heads| == |params|
  {
    seq(|params|, i requires 0 <= i < |params| =>
      if params[i].subparameters == [] then 0 else params[i].subparameters[0])
  }

  /** Outside SGR only the first subparameter of each parameter counts. */
  lemma FirstSubparameterCounts(s: Term, params: seq<CsiParam>, final: char)
    requires Fits(s) && final != 'm'
    ensures ApplyAction(s, Csi(CsiSequence(params, [], false, final))) == ApplyAction(s, Plain(Heads(params), final))
  {
    hide Fits, SetCursorPosition, EraseInDisplay, EraseInLine, EraseThenClearPending;
    var sequence, plain := CsiSequence(params, [], false, final), Plain(Heads(params), final).sequence;
    SameParams(params, final, 0, 0);
    SameParams(params, final, 0, 1);
    SameParams(params, final, 1, 1);
    assert IsCursorMove(final) ==> CursorTarget(s, sequence) == CursorTarget(s, plain);
  }

  lemma SameParams(params: seq<CsiParam>, final: char, index: nat, default: nat)
    ensures ParamOr(CsiSequence(params, [], false, final), index, default) ==
            ParamOr(Plain(Heads(params), final).sequence, index, default)
  {
  }

  /** In SGR all subparameters count, as if they were parameters. */
  lemma SgrCountsAllSubparameters(s: Term, params: seq<CsiParam>)
    requires Fits(s)
    ensures var all := Folds.Flatten(seq(|params|, i requires 0 <= i < |params| => params[i].subparameters));
            ApplyAction(s, Csi(CsiSequence(params, [], false, 'm'))) == ApplyAction(s, Plain(all, 'm'))
  {
    hide Fits, Styled, CursorTarget, SetCursorPosition, FillErased, Framed, Local;
    var all := Folds.Flatten(seq(|params|, i requires 0 <= i < |params| => params[i].subparameters));
    FlattenIsFlat(params);
    PlainFlatten(all);
  }

  lemma {:induction false} FlattenIsFlat(params: seq<CsiParam>)
    ensures Flatten(params) == Folds.Flatten(seq(|params|, i requires 0 <= i < |params| => params[i].subparameters))
  {
    if params == [] {
    } else {
      var n := |params| - 1;
      FlattenIsFlat(params[..n]);
      var lists := seq(|params|, i requires 0 <= i < |params| => params[i].subparameters);
      assert lists[..n] == seq(n, i requires 0 <= i < n => params[..n][i].subparameters);
    }
  }
}
