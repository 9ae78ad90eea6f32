/** The alternate screen is isolated: what runs there leaves the primary screen and history alone. */
module Isolation {
  import opened RenderModel
  import opened Protocol
  import opened TerminalModel
  import opened TerminalRuns
  import opened RunTheorems

  /** What was on the primary screen when it was left. */
  datatype Kept = Kept(primary: Surface, scrollback: seq<Row>, archived: seq<Row>, dims: Dimensions)

  function KeptOf(s: Term): Kept {
    Kept(s.primary, s.scrollback, s.archived, s.dims)
  }

  /** On the alternate screen with everything else as it was. A saved primary cursor is the one
      that the primary screen still has. */
  ghost predicate Behind(s: Term, kept: Kept) {
    && s.active.Alternate? && s.dims == kept.dims
    && SameButVisible(kept.primary, s.primary)
    && s.scrollback == kept.scrollback && s.archived == kept.archived
    && (s.saved.Some? && s.saved.value.screen.Primary? ==>
          && s.saved.value.cursor.row == kept.primary.cursor.row
          && s.saved.value.cursor.column == kept.primary.cursor.column)
  }

  lemma FramedStaysBehind(s: Term, t: Term, kept: Kept)
    requires Behind(s, kept) && Framed(s, t)
    ensures Behind(t, kept)
  {
  }

  /** Once on the primary screen, resetting modes does not lead back. */
  lemma {:induction false} ResettingStaysOnPrimary(s: Term, params: seq<CsiParam>)
    requires DecModes(s, params, false).active.Alternate?
    ensures s.active.Alternate?
    ensures params != [] ==> DecModes(s, params[..|params| - 1], false).active.Alternate?
  {
    if params == [] {
    } else {
      ResettingStaysOnPrimary(s, params[..|params| - 1]);
    }
  }

  lemma {:induction false} DecModesStayBehind(s: Term, params: seq<CsiParam>, enabled: bool, kept: Kept)
    requires Behind(s, kept) && DecModes(s, params, enabled).active.Alternate?
    ensures Behind(DecModes(s, params, enabled), kept)
  {
    if params == [] {
    } else {
      var n := |params| - 1;
      if !enabled {
        ResettingStaysOnPrimary(s, params);
      } else {
        SettingStaysOnAlternate(s, params[..n]);
      }
      DecModesStayBehind(s, params[..n], enabled, kept);
    }
  }

  lemma {:induction false} SettingStaysOnAlternate(s: Term, params: seq<CsiParam>)
    requires s.active.Alternate?
    ensures DecModes(s, params, true).active.Alternate?
  {
    if params == [] {
    } else {
      SettingStaysOnAlternate(s, params[..|params| - 1]);
    }
  }

  lemma ActionStaysBehind(s: Term, action: TerminalAction, kept: Kept)
    requires Behind(s, kept) && Fits(s) && ApplyAction(s, action).active.Alternate?
    ensures Behind(ApplyAction(s, action), kept)
  {
    if action.Csi? && SetsModes(Act(action)) {
      DecModesStayBehind(s, action.sequence.params, action.sequence.action == 'h', kept);
    } else {
      FramedStaysBehind(s, ApplyAction(s, action), kept);
    }
  }

  lemma NextStaysBehind(run: Option<Term>, op: Op, kept: Kept)
    requires run.Some? && Behind(run.value, kept) && !op.ResizeTo?
    requires Next(run, op).Some? && Next(run, op).value.active.Alternate?
    ensures Behind(Next(run, op).value, kept)
  {
    if op.Act? {
      ActionStaysBehind(run.value, op.action, kept);
    }
  }

  /** Every state of the run is on the alternate screen, and nothing resizes. */
  ghost predicate StaysOnAlternate(s: Term, ops: seq<Op>) {
    && Run(s, ops).Some?
    && (forall k :: 0 <= k < |ops| ==> !ops[k].ResizeTo?)
    && forall k :: 0 <= k <= |ops| ==> Run(s, ops[..k]).Some? && Run(s, ops[..k]).value.active.Alternate?
  }

  lemma {:induction false} RunStaysBehind(s: Term, ops: seq<Op>, kept: Kept)
    requires Behind(s, kept) && StaysOnAlternate(s, ops)
    ensures Run(s, ops).Some? && Behind(Run(s, ops).value, kept)
  {
    hide Behind, Next;
    assert ops[..|ops|] == ops;
    if ops == [] {
    } else {
      var n := |ops| - 1;
      assert forall k :: 0 <= k <= n ==> ops[..n][..k] == ops[..k];
      RunStaysBehind(s, ops[..n], kept);
      assert Run(s, ops) == Next(Run(s, ops[..n]), ops[n]);
      NextStaysBehind(Run(s, ops[..n]), ops[n], kept);
    }
  }

  function ModeChange(mode: nat, final: char): TerminalAction {
    Csi(CsiSequence([CsiParam([mode])], QUESTION_MARK, false, final))
  }

  lemma OneMode(s: Term, mode: nat, final: char)
    requires Fits(s) && (final == 'h' || final == 'l')
    ensures ApplyAction(s, ModeChange(mode, final)) == DecMode(s, mode, final == 'h')
  {
    var params := [CsiParam([mode])];
    assert params[..|params| - 1] == [];
    assert DecModes(s, [], final == 'h') == s;
  }

  /** `?1049h`, anything that stays on the alternate screen and does not resize, `?1049l`: back on
      the primary screen with its rows, its history and its cursor. Only a pending wrap is lost,
      unless a nested save has replaced the saved cursor. */
  lemma {:induction false} AlternateScreenIsIsolated(s: Term, ops: seq<Op>)
    requires Inv(s) && s.active.Primary?
    requires StaysOnAlternate(ApplyAction(s, ModeChange(1049, 'h')), ops)
    ensures var u := Run(ApplyAction(s, ModeChange(1049, 'h')), ops).value;
            && Inv(u)
            && var t := ApplyAction(u, ModeChange(1049, 'l'));
            && t.active.Primary?
            && t.primary.rows == s.primary.rows
            && t.scrollback == s.scrollback
            && t.archived == s.archived
            && t.primary.cursor.row == s.primary.cursor.row
            && t.primary.cursor.column == s.primary.cursor.column
            && t.primary.pendingWrap ==
               (s.primary.pendingWrap && !(u.saved.Some? && u.saved.value.screen.Primary?))
  {
    var entered := ApplyAction(s, ModeChange(1049, 'h'));
    EnterIsolated(s);
    RunStaysBehind(entered, ops, KeptOf(s));
    RunKeeps(entered, ops);
    var u := Run(entered, ops).value;
    InvGrid(s);
    InvGrid(u);
    OneMode(u, 1049, 'l');
    LeaveRestores(u, KeptOf(s));
  }

  lemma EnterIsolated(s: Term)
    requires Inv(s) && s.active.Primary?
    ensures var t := ApplyAction(s, ModeChange(1049, 'h')); Inv(t) && Behind(t, KeptOf(s))
  {
    OneMode(s, 1049, 'h');
    var params := [CsiParam([1049])];
    assert params[..|params| - 1] == [];
    StepKeeps(s, Act(ModeChange(1049, 'h')));
  }

  lemma LeaveRestores(u: Term, kept: Kept)
    requires Fits(u) && Behind(u, kept) && SurfaceFits(u.primary, u.dims)
    ensures var t := DecMode(u, 1049, false);
            && t.active.Primary?
            && t.primary.rows == kept.primary.rows
            && t.scrollback == kept.scrollback && t.archived == kept.archived
            && t.primary.cursor.row == kept.primary.cursor.row
            && t.primary.cursor.column == kept.primary.cursor.column
            && t.primary.pendingWrap ==
               (kept.primary.pendingWrap && !(u.saved.Some? && u.saved.value.screen.Primary?))
  {
  }
}
