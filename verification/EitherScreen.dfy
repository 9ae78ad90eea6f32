/** Both screens behave alike: what they show does not depend on which of them is active. */
module EitherScreen {
  import opened RenderModel
  import opened Folds
  import opened Protocol
  import opened History
  import opened Text
  import opened ReflowText
  import opened TerminalModel
  import opened TerminalRuns
  import opened WidePairs
  import opened RunTheorems
  import opened Isolation
  import opened CursorMoves
  import opened Erasure
  import opened Printing
  import opened ScreenLaws
  import opened AutoWrap
  import Sgr

  /** The same cells, wrap marks and cursor; the handles of the rows may differ. */
  ghost predicate SameShown(f: Surface, g: Surface) {
    && RowsAlike(f.rows, g.rows)
    && f.cursor == g.cursor && f.pendingWrap == g.pendingWrap
  }

  ghost predicate RowsAlike(a: seq<Row>, b: seq<Row>) {
    && |a| == |b|
    && forall i :: 0 <= i < |a| ==> a[i].cells == b[i].cells && a[i].wrapped == b[i].wrapped
  }

  /** Terminals that show the same and have the same pen, whichever screen is active. */
  ghost predicate Alike(s: Term, t: Term) {
    && s.setup == t.setup && s.dims == t.dims && s.style == t.style
    && SameShown(Active(s), Active(t))
  }

  /* ----- printing ----- */

  lemma GlyphAlike(s: Term, t: Term, ch: char, width: nat)
    requires Fits(s) && Fits(t) && Alike(s, t) && !Active(s).pendingWrap
    requires 1 <= width <= 2 && Active(s).cursor.column + width <= s.dims.columns
    ensures Alike(PlaceGlyph(s, ch, width), PlaceGlyph(t, ch, width))
  {
    hide PlaceGlyph, GlyphInRow;
    PlaceGlyphPrints(s, ch, width);
    PlaceGlyphPrints(t, ch, width);
    PlaceGlyphWrites(s, ch, width);
    PlaceGlyphWrites(t, ch, width);
  }

  lemma DownAlike(s: Term, t: Term)
    requires Fits(s) && Fits(t) && Alike(s, t) && !Active(s).pendingWrap
    ensures Alike(MoveDownOrScroll(s), MoveDownOrScroll(t))
  {
    hide Retained, AllRows;
  }

  lemma WrapAlike(s: Term, t: Term)
    requires Fits(s) && Fits(t) && Alike(s, t)
    ensures Alike(WrapPending(s), WrapPending(t))
  {
    hide MoveDownOrScroll, WrapPending, Continued, ReturnCarriage, Alike;
    WrapIsNewLine(s);
    WrapIsNewLine(t);
    StartOfLineAlike(s, t);
    FeedAlike(ReturnCarriage(Continued(s)), ReturnCarriage(Continued(t)));
  }

  lemma StartOfLineAlike(s: Term, t: Term)
    requires Fits(s) && Fits(t) && Alike(s, t)
    requires Fits(Continued(s)) && Fits(Continued(t))
    ensures Alike(ReturnCarriage(Continued(s)), ReturnCarriage(Continued(t)))
  {
    hide AllWidth;
  }

  lemma FeedAlike(s: Term, t: Term)
    requires Fits(s) && Fits(t) && Alike(s, t)
    ensures Alike(FeedLine(s), FeedLine(t))
  {
    hide MoveDownOrScroll;
    DownAlike(ClearPending(s), ClearPending(t));
  }

  lemma PrintAlike(s: Term, t: Term, ch: char)
    requires Fits(s) && Fits(t) && Alike(s, t)
    ensures Alike(PrintChar(s, ch), PrintChar(t, ch))
  {
    hide WrapPending, PlaceGlyph, WrapBeforeWide, SameShown;
    WrapAlike(s, t);
    var u, v, width := AfterPendingWrap(s), AfterPendingWrap(t), GlyphWidth(s, ch);
    assert Active(s).pendingWrap == Active(t).pendingWrap && Active(u).cursor == Active(v).cursor by {
      AlikeCursor(s, t);
      AlikeCursor(u, v);
    }
    if width == 0 {
    } else if Active(u).cursor.column + width > s.dims.columns {
      BlankThenWrap(u);
      BlankThenWrap(v);
      GlyphAlike(u, v, ' ', 1);
      WrapAlike(PlaceGlyph(u, ' ', 1), PlaceGlyph(v, ' ', 1));
      GlyphAlike(WrapBeforeWide(u), WrapBeforeWide(v), ch, width);
    } else {
      GlyphAlike(u, v, ch, width);
    }
  }

  lemma AlikeCursor(s: Term, t: Term)
    requires Alike(s, t)
    ensures Active(s).cursor == Active(t).cursor && Active(s).pendingWrap == Active(t).pendingWrap
  {
  }

  /* ----- controls and sequences ----- */

  lemma ControlAlike(s: Term, t: Term, kind: C0ControlKind)
    requires Fits(s) && Fits(t) && Alike(s, t)
    ensures Alike(ApplyControl(s, kind), ApplyControl(t, kind))
  {
    hide FeedLine;
    FeedAlike(s, t);
  }

  lemma MoveAlike(s: Term, t: Term, sequence: CsiSequence)
    requires Fits(s) && Fits(t) && Alike(s, t)
    requires IsCursorMove(sequence.action) && !sequence.ignored && sequence.intermediates == []
    ensures Alike(ApplyAction(s, Csi(sequence)), ApplyAction(t, Csi(sequence)))
  {
    hide ApplyAction, SetCursorPosition, CursorPlaced, CursorTarget, Alike;
    var target := CursorTarget(s, sequence);
    MovePlaces(s, sequence);
    MovePlaces(t, sequence);
    SameTarget(s, t, sequence);
    PlacedAlike(s, t, ApplyAction(s, Csi(sequence)), ApplyAction(t, Csi(sequence)), target.0, target.1);
  }

  lemma SameTarget(s: Term, t: Term, sequence: CsiSequence)
    requires Fits(s) && Fits(t) && Alike(s, t)
    ensures CursorTarget(s, sequence) == CursorTarget(t, sequence)
  {
    hide ParamOr;
  }

  lemma PlacedAlike(s: Term, t: Term, u: Term, v: Term, row: nat, column: nat)
    requires Alike(s, t) && CursorPlaced(s, u, row, column) && CursorPlaced(t, v, row, column)
    ensures Alike(u, v)
  {
  }

  /** Without DEC modes, what is neither an erasure nor a move sets at most the pen. */
  lemma OtherAlike(s: Term, t: Term, sequence: CsiSequence)
    requires Fits(s) && Fits(t) && Alike(s, t) && !Erases(sequence) && !SetsModes(Act(Csi(sequence)))
    requires IsCursorMove(sequence.action) ==> sequence.ignored || sequence.intermediates != []
    ensures Alike(ApplyAction(s, Csi(sequence)), ApplyAction(t, Csi(sequence)))
  {
    hide Fits, CursorTarget, Sgr.Styled, Sgr.Flatten;
  }

  lemma AllErasedAlike(s: Term, t: Term, u: Term, v: Term)
    requires Alike(s, t) && AllErased(s, u) && AllErased(t, v)
    requires u.setup == s.setup && v.setup == t.setup
    requires Fits(u) && Fits(v)
    ensures Alike(u, v)
  {
    var f, g := Active(u).rows, Active(v).rows;
    forall i | 0 <= i < |f| ensures f[i].cells == g[i].cells && f[i].wrapped == g[i].wrapped {
      assert forall j :: 0 <= j < |f[i].cells| ==> f[i].cells[j] == g[i].cells[j];
    }
  }

  lemma ScreenErasedAlike(s: Term, t: Term, u: Term, v: Term, sequence: CsiSequence)
    requires Fits(s) && Fits(t) && Alike(s, t)
    requires ScreenErased(s, u, sequence) && ScreenErased(t, v, sequence)
    ensures Alike(u, v)
  {
    var f, g := Active(u).rows, Active(v).rows;
    forall i | 0 <= i < |f| ensures f[i].cells == g[i].cells && f[i].wrapped == g[i].wrapped {
      assert forall j :: 0 <= j < |f[i].cells| ==> f[i].cells[j] == g[i].cells[j];
    }
  }

  lemma EraseAlike(s: Term, t: Term, sequence: CsiSequence)
    requires Fits(s) && Fits(t) && Alike(s, t) && Erases(sequence)
    ensures Alike(ApplyAction(s, Csi(sequence)), ApplyAction(t, Csi(sequence)))
  {
    hide ScreenErased, AllErased, Erases;
    var u, v := ApplyAction(s, Csi(sequence)), ApplyAction(t, Csi(sequence));
    AlikeCursor(s, t);
    ErasingErases(s, sequence);
    ErasingErases(t, sequence);
    if ErasesNothing(s, sequence) {
    } else if sequence.action == 'J' && ParamOr(sequence, 0, 0) == 2 {
      AllErasedAlike(s, t, u, v);
    } else {
      ScreenErasedAlike(s, t, u, v, sequence);
    }
  }

  /** Everything but DEC modes shows the same on either screen. */
  lemma ActionAlike(s: Term, t: Term, action: TerminalAction)
    requires Fits(s) && Fits(t) && Alike(s, t) && !SetsModes(Act(action))
    ensures Alike(ApplyAction(s, action), ApplyAction(t, action))
  {
    hide PrintChar, ApplyControl, ApplyCsi, Alike, IsCursorMove, SetsModes;
    match action
    case Print(ch) => PrintAlike(s, t, ch);
    case Control(b) => ControlAlike(s, t, ControlKind(b));
    case Csi(sequence) =>
      if Erases(sequence) {
        EraseAlike(s, t, sequence);
      } else if IsCursorMove(sequence.action) && !sequence.ignored && sequence.intermediates == [] {
        MoveAlike(s, t, sequence);
      } else {
        OtherAlike(s, t, sequence);
      }
    case _ =>
  }

  /* ----- runs ----- */

  /** Along any run of actions without DEC modes, alike states stay alike. */
  lemma {:induction false} RunAlike(s: Term, t: Term, ops: seq<Op>)
    requires Inv(s) && Inv(t) && Alike(s, t)
    requires forall i :: 0 <= i < |ops| ==> ops[i].Act? && !SetsModes(ops[i])
    ensures Run(s, ops).Some? && Run(t, ops).Some?
    ensures var u, v := Run(s, ops).value, Run(t, ops).value;
            Inv(u) && Inv(v) && Alike(u, v) && u.active == s.active && v.active == t.active
  {
    hide Inv, ApplyAction, Alike;
    if ops == [] {
    } else {
      var n := |ops| - 1;
      RunAlike(s, t, ops[..n]);
      var u, v, op := Run(s, ops[..n]).value, Run(t, ops[..n]).value, ops[n];
      InvGrid(u);
      InvGrid(v);
      StepKeeps(u, op);
      StepKeeps(v, op);
      ActionAlike(u, v, op.action);
      ActionKeepsActive(u, op.action);
      ActionKeepsActive(v, op.action);
    }
  }

  lemma ActionKeepsActive(s: Term, action: TerminalAction)
    requires Fits(s) && !SetsModes(Act(action))
    ensures ApplyAction(s, action).active == s.active
  {
  }

  lemma {:induction false} TypingSetsNoMode(lines: seq<seq<Key>>, i: nat)
    requires i < |Typing(lines)|
    ensures Typing(lines)[i].Act? && !SetsModes(Typing(lines)[i])
  {
    var n := |lines| - 1;
    if n == 0 {
    } else {
      var front := Typing(lines[..n]);
      if i < |front| {
        TypingSetsNoMode(lines[..n], i);
      } else if i >= |front| + 2 {
        assert Typing(lines)[i] == Keys(lines[n])[i - |front| - 2];
      }
    }
  }

  /* ----- the alternate screen ----- */

  lemma {:induction false} JoinAlike(j: Joined, a: seq<Row>, b: seq<Row>)
    requires RowsAlike(a, b)
    ensures JoinAll(j, a) == JoinAll(j, b)
  {
    if a == [] {
    } else {
      JoinAlike(j, a[..|a| - 1], b[..|b| - 1]);
    }
  }

  lemma TextAlike(front: seq<Row>, a: seq<Row>, b: seq<Row>)
    requires RowsAlike(a, b)
    ensures TextOf(front + a) == TextOf(front + b)
  {
    JoinAllAppend(NOTHING, front, a);
    JoinAllAppend(NOTHING, front, b);
    JoinAlike(JoinAll(NOTHING, front), a, b);
  }

  lemma BlanksAlike(f: Surface, g: Surface, d: Dimensions)
    requires BlankScreen(f, d) && BlankScreen(g, d)
    ensures SameShown(f, g)
  {
    forall i | 0 <= i < |f.rows| ensures f.rows[i].cells == g.rows[i].cells && f.rows[i].wrapped == g.rows[i].wrapped {
      assert forall j :: 0 <= j < |f.rows[i].cells| ==> f.rows[i].cells[j] == g.rows[i].cells[j];
    }
  }

  lemma EnteredAlike(setup: Setup, d: Dimensions)
    requires DimensionsOk(d)
    ensures var s := Initial(setup, d);
            var t := ApplyAction(s, ModeChange(1049, 'h'));
            && Inv(s) && Inv(t) && t.active.Alternate? && Alike(t, s)
            && Next(Some(s), Act(ModeChange(1049, 'h'))) == Some(t)
  {
    hide Inv, ApplyAction, BlankRows, BlankScreen, Evolves, HandlesOk, SameShown;
    var s, op := Initial(setup, d), Act(ModeChange(1049, 'h'));
    InitialInv(setup, d);
    InvGrid(s);
    Set1049ShowsBlank(s);
    EnteringIsAdmissible(s);
    StepKeeps(s, op);
    FreshIsBlank(d, 1);
    BlanksAlike(ApplyAction(s, op.action).alternate, s.primary, d);
    EnteringKeepsSetup(s);
  }

  lemma EnteringIsAdmissible(s: Term)
    ensures Admissible(s, Act(ModeChange(1049, 'h')))
  {
    var params := ModeChange(1049, 'h').sequence.params;
    assert params[..|params| - 1] == [];
  }

  lemma EnteringKeepsSetup(s: Term)
    requires Fits(s)
    ensures ApplyAction(s, ModeChange(1049, 'h')).setup == s.setup
  {
    OneMode(s, 1049, 'h');
  }

  /** Typed on a fresh alternate screen, the lines wrap and scroll as on a fresh primary one: the same
      viewport, and behind the rows that the primary archives the same text. */
  lemma {:induction false} AlternateLaysOut(setup: Setup, d: Dimensions, lines: seq<seq<Key>>) returns (blanks: nat)
    requires DimensionsOk(d) && lines != []
    ensures var p := Run(Initial(setup, d), Typing(lines));
            var a := Run(Initial(setup, d), [Act(ModeChange(1049, 'h'))] + Typing(lines));
            && p.Some? && a.Some? && a.value.active.Alternate? && p.value.active.Primary?
            && SameShown(a.value.alternate, p.value.primary)
            && TextOf(p.value.archived + a.value.alternate.rows) ==
               StrippedLines(setup, d.columns, lines, |lines|) + NoLines(blanks)
  {
    hide Inv, ApplyAction, Next, StrippedLines, TextOf;
    var s, enter := Initial(setup, d), Act(ModeChange(1049, 'h'));
    EnteredAlike(setup, d);
    forall i | 0 <= i < |Typing(lines)| ensures Typing(lines)[i].Act? && !SetsModes(Typing(lines)[i]) {
      TypingSetsNoMode(lines, i);
    }
    RunAlike(ApplyAction(s, enter.action), s, Typing(lines));
    FoldConcat(Next, Some(s), [enter], Typing(lines));
    FoldOne(Next, Some(s), enter);
    blanks := AutoWrapLaysOut(setup, d, lines);
    var p := Run(s, Typing(lines)).value;
    var a := Run(ApplyAction(s, enter.action), Typing(lines)).value;
    TextAlike(p.archived, a.alternate.rows, p.primary.rows);
  }
}
