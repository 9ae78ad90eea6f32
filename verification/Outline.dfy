/** What the operations of a run alone determine, and when they show a stale screen. */
module Outline {
  import opened RenderModel
  import opened Protocol
  import opened TerminalModel
  import opened TerminalResize
  import opened TerminalRuns
  import opened ScreenSwitching
  import opened ResizeRuns
  import opened RunTheorems
  import opened Isolation

  /** `alternate` is the size of the alternate screen. */
  datatype Outline = Outline(
    dims: Dimensions,
    alternate: Dimensions,
    active: ScreenIdentity,
    primaryVisible: bool,
    alternateVisible: bool)

  function Begin(d: Dimensions): Outline {
    Outline(d, d, Primary, true, true)
  }

  /** Clearing the alternate screen gives it the current size. */
  function Cleared(o: Outline): Outline {
    o.(alternate := o.dims, alternateVisible := true)
  }

  function Left(o: Outline): Outline {
    (if o.active.Alternate? then Cleared(o) else o).(active := Primary)
  }

  function AfterMode(o: Outline, mode: nat, enabled: bool): Outline {
    match mode
    case 25 => o.(primaryVisible := enabled, alternateVisible := enabled)
    case 47 => o.(active := if enabled then Alternate else Primary)
    case 1047 => if enabled then o.(active := Alternate) else Left(o)
    case 1049 => if enabled then Cleared(o).(active := Alternate) else Left(o)
    case _ => o
  }

  function AfterModes(o: Outline, params: seq<CsiParam>, enabled: bool): Outline {
    if params == [] then o
    else
      var n := |params| - 1;
      var before := AfterModes(o, params[..n], enabled);
      if params[n].subparameters == [] then before
      else AfterMode(before, params[n].subparameters[0], enabled)
  }

  function AfterOp(o: Outline, op: Op): Outline {
    match op
    case Act(action) =>
      if SetsModes(op) then AfterModes(o, action.sequence.params, action.sequence.action == 'h') else o
    case ResizeTo(columns, rows) =>
      var d := Dimensions(columns, rows);
      if !DimensionsOk(d) || d == o.dims then o
      else if o.active.Primary? then o.(dims := d, primaryVisible := true)
      else o.(dims := d, alternate := d)
    case Render => o
  }

  function Trace(d: Dimensions, ops: seq<Op>): Outline {
    if ops == [] then Begin(d) else AfterOp(Trace(d, ops[..|ops| - 1]), ops[|ops| - 1])
  }

  /* ----- operations that show a screen of another size ----- */

  predicate ModeShowsStale(o: Outline, mode: nat, enabled: bool) {
    enabled && (mode == 47 || mode == 1047) && o.alternate != o.dims
  }

  predicate ModesShowStale(o: Outline, params: seq<CsiParam>, enabled: bool) {
    exists k :: 0 <= k < |params| && params[k].subparameters != [] &&
                ModeShowsStale(AfterModes(o, params[..k], enabled), params[k].subparameters[0], enabled)
  }

  predicate ShowsStale(o: Outline, op: Op) {
    SetsModes(op) && ModesShowStale(o, op.action.sequence.params, op.action.sequence.action == 'h')
  }

  /** Readable off the operations, without any terminal. */
  predicate NeverShowsStale(d: Dimensions, ops: seq<Op>) {
    forall k :: 0 <= k < |ops| ==> !ShowsStale(Trace(d, ops[..k]), ops[k])
  }

  /* ----- the outline of a state ----- */

  ghost predicate Matches(s: Term, o: Outline) {
    && s.dims == o.dims && s.active == o.active
    && Sized(o.alternate) && SurfaceFits(s.alternate, o.alternate)
    && (o.active.Alternate? ==> o.alternate == o.dims)
    && s.primary.cursor.visible == o.primaryVisible
    && s.alternate.cursor.visible == o.alternateVisible
  }

  /** The alternate screen has the current size exactly when the outline says so. */
  lemma AlternateFitsIff(s: Term, o: Outline)
    requires Matches(s, o)
    ensures SurfaceFits(s.alternate, s.dims) <==> o.alternate == o.dims
  {
    if SurfaceFits(s.alternate, s.dims) {
      assert |s.alternate.rows[0].cells| == s.dims.columns;
    }
  }

  lemma ActionMatches(s: Term, o: Outline, action: TerminalAction)
    requires Fits(s) && Matches(s, o) && !SetsModes(Act(action))
    ensures Matches(ApplyAction(s, action), o)
  {
    hide PrintChar, ApplyControl, ApplyPlainCsi;
    var t := ApplyAction(s, action);
    assert Framed(s, t) && Fits(t);
  }

  lemma SaveAndRestoreMatch(s: Term, o: Outline)
    requires Sized(s.dims) && Matches(s, o)
    ensures Matches(SaveCursor(s), o) && Matches(RestoreCursor(s), o)
  {
  }

  lemma EnterMatches(s: Term, o: Outline, clear: bool)
    requires Sized(s.dims) && Matches(s, o) && (clear || o.alternate == o.dims)
    ensures Matches(EnterAlternate(s, clear), (if clear then Cleared(o) else o).(active := Alternate))
  {
    FreshFits(s.dims, s.nextRowId);
  }

  lemma ExitMatches(s: Term, o: Outline, clear: bool)
    requires Sized(s.dims) && Matches(s, o)
    ensures Matches(ExitAlternate(s, clear), if clear then Left(o) else o.(active := Primary))
  {
    FreshFits(s.dims, s.nextRowId);
  }

  lemma VisibleMatches(s: Term, o: Outline, visible: bool)
    requires Matches(s, o)
    ensures Matches(SetCursorVisible(s, visible), o.(primaryVisible := visible, alternateVisible := visible))
  {
  }

  lemma ModeMatches(s: Term, o: Outline, mode: nat, enabled: bool)
    requires Sized(s.dims) && Matches(s, o) && !ModeShowsStale(o, mode, enabled)
    ensures Matches(DecMode(s, mode, enabled), AfterMode(o, mode, enabled))
  {
    hide Matches, SaveCursor, RestoreCursor, EnterAlternate, ExitAlternate, SetCursorVisible, Cleared, Left;
    SaveAndRestoreMatch(s, o);
    match mode
    case 25 => VisibleMatches(s, o, enabled);
    case 47 => if enabled { EnterMatches(s, o, false); } else { ExitMatches(s, o, false); }
    case 1047 => if enabled { EnterMatches(s, o, false); } else { ExitMatches(s, o, true); }
    case 1049 =>
      if enabled {
        SizeStays(s);
        EnterMatches(SaveCursor(s), o, true);
      } else {
        SizeStays(s);
        ExitMatches(s, o, true);
        SaveAndRestoreMatch(ExitAlternate(s, true), Left(o));
      }
    case _ =>
  }

  lemma SizeStays(s: Term)
    ensures SaveCursor(s).dims == s.dims && ExitAlternate(s, true).dims == s.dims
  {
  }

  lemma {:induction false} ModesMatch(s: Term, o: Outline, params: seq<CsiParam>, enabled: bool)
    requires Sized(s.dims) && Matches(s, o)
    ensures ModesAdmissible(s, params, enabled) <==> !ModesShowStale(o, params, enabled)
    ensures ModesAdmissible(s, params, enabled) ==>
              Matches(DecModes(s, params, enabled), AfterModes(o, params, enabled))
  {
    hide Matches, DecMode, AfterMode, ModesShowStale, SurfaceFits, ModeShowsStale;
    if params == [] {
      NoModesShowNothing(o, params, enabled);
    } else {
      var n := |params| - 1;
      ModesMatch(s, o, params[..n], enabled);
      ModesShowOneMore(o, params, enabled);
      var u, v := DecModes(s, params[..n], enabled), AfterModes(o, params[..n], enabled);
      if ModesAdmissible(s, params[..n], enabled) && params[n].subparameters != [] {
        StaleFollows(u, v, params[n].subparameters[0], enabled);
        ModesKeepSize(s, params[..n], enabled);
        if !ModeShowsStale(v, params[n].subparameters[0], enabled) {
          ModeMatches(u, v, params[n].subparameters[0], enabled);
        }
      }
    }
  }

  lemma {:induction false} ModesKeepSize(s: Term, params: seq<CsiParam>, enabled: bool)
    ensures DecModes(s, params, enabled).dims == s.dims
  {
    if params == [] {
    } else {
      ModesKeepSize(s, params[..|params| - 1], enabled);
    }
  }

  lemma StaleFollows(s: Term, o: Outline, mode: nat, enabled: bool)
    requires Matches(s, o)
    ensures EntersStale(s, mode, enabled) <==> ModeShowsStale(o, mode, enabled)
  {
    AlternateFitsIff(s, o);
  }

  lemma NoModesShowNothing(o: Outline, params: seq<CsiParam>, enabled: bool)
    requires params == []
    ensures !ModesShowStale(o, params, enabled)
  {
  }

  lemma ModesShowOneMore(o: Outline, params: seq<CsiParam>, enabled: bool)
    requires params != []
    ensures var n := |params| - 1;
            ModesShowStale(o, params, enabled) <==>
            || ModesShowStale(o, params[..n], enabled)
            || (params[n].subparameters != [] &&
                ModeShowsStale(AfterModes(o, params[..n], enabled), params[n].subparameters[0], enabled))
  {
    var n := |params| - 1;
    assert forall k :: 0 <= k < n ==> params[..n][..k] == params[..k] && params[..n][k] == params[k];
    if ModesShowStale(o, params[..n], enabled) {
      var k :| 0 <= k < n && params[..n][k].subparameters != [] &&
               ModeShowsStale(AfterModes(o, params[..n][..k], enabled), params[..n][k].subparameters[0], enabled);
      assert ModeShowsStale(AfterModes(o, params[..k], enabled), params[k].subparameters[0], enabled);
    }
  }

  lemma AlternateResizeSameVisible(s: Term, d: Dimensions)
    requires Sized(d)
    ensures SameVisible(s, ResizeWhileAlternate(s, d)) && ResizeWhileAlternate(s, d).active == s.active
  {
  }

  lemma PrimaryResizeShowsCursor(s: Term, d: Dimensions)
    requires Grid(s) && Sized(d)
    ensures var t := ResizeActivePrimary(s, d);
            t.primary.cursor.visible && t.alternate == s.alternate && t.active == s.active
  {
    hide ReflowedLineage, ResizePrimaryHeight, Visible;
  }

  lemma ResizeMatches(s: Term, o: Outline, columns: nat, rows: nat)
    requires Inv(s) && Matches(s, o)
    ensures Matches(Resize(s, columns, rows), AfterOp(o, ResizeTo(columns, rows)))
  {
    hide HandlesOk, HistoryOk, DamageComplete;
    var d := Dimensions(columns, rows);
    if DimensionsOk(d) && d != s.dims {
      if s.active.Alternate? {
        AlternateResizeRenews(s, d);
        AlternateResizeSameVisible(s, d);
      } else {
        PrimaryResizeShowsCursor(s, d);
      }
    }
  }

  /** A step is possible exactly when its operation shows no stale screen, and the outline follows. */
  lemma StepMatches(s: Term, o: Outline, op: Op)
    requires Inv(s) && Matches(s, o)
    ensures Admissible(s, op) <==> !ShowsStale(o, op)
    ensures Admissible(s, op) ==> Matches(Step(s, op), AfterOp(o, op))
  {
    hide Matches, HandlesOk, HistoryOk, DamageComplete, ApplyPlainCsi, PrintChar, ApplyControl, Resize;
    match op
    case Act(action) =>
      InvGrid(s);
      if SetsModes(op) {
        ModesMatch(s, o, action.sequence.params, action.sequence.action == 'h');
      } else {
        ActionMatches(s, o, action);
      }
    case ResizeTo(columns, rows) => ResizeMatches(s, o, columns, rows);
    case Render => RenderMatches(s, o);
  }

  lemma RenderMatches(s: Term, o: Outline)
    requires Matches(s, o)
    ensures Matches(Rendered(s), o)
  {
  }

  /* ----- runs ----- */

  lemma BeginMatches(setup: Setup, d: Dimensions)
    requires DimensionsOk(d)
    ensures Matches(Initial(setup, d), Begin(d))
  {
  }

  /** A run from a fresh terminal goes on to its end exactly when its operations never show a stale
      alternate screen; and then its sizes, its shown screen and the visibility of both cursors are
      what the operations alone say. */
  lemma {:induction false} RunGoesOnIff(setup: Setup, d: Dimensions, ops: seq<Op>)
    requires DimensionsOk(d)
    ensures Run(Initial(setup, d), ops).Some? <==> NeverShowsStale(d, ops)
    ensures Run(Initial(setup, d), ops).Some? ==> Matches(Run(Initial(setup, d), ops).value, Trace(d, ops))
  {
    hide Matches, Step, ShowsStale, Admissible, Inv, AfterOp;
    var s := Initial(setup, d);
    if ops == [] {
      BeginMatches(setup, d);
    } else {
      var n := |ops| - 1;
      RunGoesOnIff(setup, d, ops[..n]);
      assert forall k :: 0 <= k < n ==> ops[..n][..k] == ops[..k] && ops[..n][k] == ops[k];
      NeverShowsOneMore(d, ops);
      if Run(s, ops[..n]).Some? {
        var u := Run(s, ops[..n]).value;
        InitialInv(setup, d);
        RunKeeps(s, ops[..n]);
        InvGrid(u);
        StepMatches(u, Trace(d, ops[..n]), ops[n]);
      }
    }
  }

  lemma NeverShowsOneMore(d: Dimensions, ops: seq<Op>)
    requires ops != []
    ensures var n := |ops| - 1;
            NeverShowsStale(d, ops) <==> NeverShowsStale(d, ops[..n]) && !ShowsStale(Trace(d, ops[..n]), ops[n])
  {
    hide ShowsStale, Trace;
    var n := |ops| - 1;
    assert forall k :: 0 <= k < n ==> ops[..n][..k] == ops[..k] && ops[..n][k] == ops[k];
    if NeverShowsStale(d, ops) {
      assert !ShowsStale(Trace(d, ops[..n]), ops[n]);
    }
  }

  /** After any run, showing the alternate screen as it is keeps the grid exactly when the size it
      got at the start, at its last clear or at the last resize while it was shown is the current one. */
  lemma EnterKeepsGridIff(setup: Setup, d: Dimensions, ops: seq<Op>)
    requires DimensionsOk(d) && NeverShowsStale(d, ops)
    ensures Run(Initial(setup, d), ops).Some?
    ensures Grid(EnterAlternate(Run(Initial(setup, d), ops).value, false)) <==>
            Trace(d, ops).alternate == Trace(d, ops).dims
  {
    RunGoesOnIff(setup, d, ops);
    InitialInv(setup, d);
    RunKeeps(Initial(setup, d), ops);
    AlternateFitsIff(Run(Initial(setup, d), ops).value, Trace(d, ops));
  }

  /** A cursor is visible exactly when the operations say so: hidden by mode 25, and shown again by
      mode 25, by a resize of the primary screen, or by clearing the alternate one. */
  lemma VisibilityFollowsOperations(setup: Setup, d: Dimensions, ops: seq<Op>)
    requires DimensionsOk(d) && NeverShowsStale(d, ops)
    ensures Run(Initial(setup, d), ops).Some?
    ensures var t := Run(Initial(setup, d), ops).value;
            && t.primary.cursor.visible == Trace(d, ops).primaryVisible
            && t.alternate.cursor.visible == Trace(d, ops).alternateVisible
  {
    RunGoesOnIff(setup, d, ops);
  }

  /* ----- inputs ----- */

  /** Resize the primary screen, then mode 47: the alternate screen shown is still 80 x 24. */
  lemma StaleScreenIsReachable(setup: Setup)
    ensures var s := Initial(setup, Dimensions(80, 24));
            var ops := [ResizeTo(100, 30)];
            && Run(s, ops).Some?
            && Run(s, ops + [Act(ModeChange(47, 'h'))]).None?
            && !Grid(EnterAlternate(Run(s, ops).value, false))
  {
    var d, ops := Dimensions(80, 24), [ResizeTo(100, 30)];
    var shown := ModeChange(47, 'h');
    var more := ops + [Act(shown)];
    var params := shown.sequence.params;
    assert ops[..0] == [] && more[..1] == ops && params[..0] == [];
    assert Trace(d, ops) == AfterOp(Begin(d), ResizeTo(100, 30));
    RunGoesOnIff(setup, d, ops);
    RunGoesOnIff(setup, d, more);
    assert ModeShowsStale(AfterModes(Trace(d, ops), params[..0], true), params[0].subparameters[0], true);
    assert ShowsStale(Trace(d, more[..1]), more[1]);
    EnterKeepsGridIff(setup, d, ops);
  }

  /** A hidden cursor is visible again after a resize. */
  lemma HiddenCursorComesBack(setup: Setup)
    ensures var s := Initial(setup, Dimensions(80, 24));
            var ops := [Act(ModeChange(25, 'l')), ResizeTo(100, 30)];
            && Run(s, ops[..1]).Some? && !Run(s, ops[..1]).value.primary.cursor.visible
            && Run(s, ops).Some? && Run(s, ops).value.primary.cursor.visible
  {
    var d, ops := Dimensions(80, 24), [Act(ModeChange(25, 'l')), ResizeTo(100, 30)];
    var params := ModeChange(25, 'l').sequence.params;
    assert ops[..1][..0] == [] && params[..0] == [];
    assert AfterModes(Begin(d), params, false) == AfterMode(Begin(d), 25, false);
    assert Trace(d, ops[..1]) == AfterOp(Begin(d), ops[0]);
    assert Trace(d, ops) == AfterOp(Trace(d, ops[..1]), ops[1]);
    assert ops[..0] == [];
    VisibilityFollowsOperations(setup, d, ops[..1]);
    VisibilityFollowsOperations(setup, d, ops);
  }
}
