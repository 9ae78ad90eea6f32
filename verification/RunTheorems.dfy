/** What holds in every state that a run of the terminal can reach. */
module RunTheorems {
  import opened RenderModel
  import opened Folds
  import opened Protocol
  import opened History
  import opened ReflowHandles
  import opened TerminalModel
  import opened TerminalResize
  import opened TerminalRuns
  import opened ScreenSwitching
  import opened ResizeRuns

  function Next(before: Option<Term>, op: Op): Option<Term> {
    match before
    case None => None
    case Some(u) => if Grid(u) && Admissible(u, op) then Some(Step(u, op)) else None
  }

  /** A run; `None` once an action would show a stale alternate screen. */
  function Run(s: Term, ops: seq<Op>): Option<Term> {
    Fold(Next, Some(s), ops)
  }

  lemma ActionKeeps(s: Term, action: TerminalAction)
    requires Inv(s) && Admissible(s, Act(action))
    ensures Keeps(s, ApplyAction(s, action))
  {
    match action {
      case Print(ch) => PrintKeeps(s, ch);
      case Control(b) => ControlKeeps(s, ControlKind(b));
      case Csi(sequence) =>
        if !sequence.ignored && sequence.intermediates == [] {
          PlainCsiKeeps(s, sequence);
        } else if SetsModes(Act(action)) {
          DecModesKeep(s, sequence.params, sequence.action == 'h');
        } else {
          LocalKeeps(s, s);
        }
      case _ => LocalKeeps(s, s);
    }
  }

  lemma RenderKeeps(s: Term)
    requires Inv(s)
    ensures Keeps(s, Rendered(s))
  {
    var t := Rendered(s);
    assert Lineage(t) == Lineage(s);
    SameHandlesEvolve(s, t);
  }

  lemma StepKeeps(s: Term, op: Op)
    requires Inv(s) && Admissible(s, op)
    ensures Inv(Step(s, op)) && Evolves(s, Step(s, op))
  {
    match op
    case Act(action) => ActionKeeps(s, action);
    case ResizeTo(columns, rows) => ResizeKeeps(s, columns, rows);
    case Render => RenderKeeps(s);
  }

  lemma {:induction false} InitialInv(setup: Setup, d: Dimensions)
    requires DimensionsOk(d)
    ensures Inv(Initial(setup, d))
  {
    var s := Initial(setup, d);
    FreshFits(d, 1);
    BlankHandles(d.columns, 1, d.rows);
    BlankHandles(d.columns, 1 + d.rows, d.rows);
    assert Lineage(s) == s.primary.rows;
    DistinctExtend(HandlesOf(Lineage(s)), [], HandlesOf(s.alternate.rows), 1 + d.rows, 1 + d.rows + d.rows);
    assert HandlesOf(Lineage(s)) + [] == HandlesOf(Lineage(s));
  }

  /** The invariant holds after every admissible run. */
  lemma {:induction false} RunKeeps(s: Term, ops: seq<Op>)
    requires Inv(s) && Run(s, ops).Some?
    ensures Inv(Run(s, ops).value) && Evolves(s, Run(s, ops).value)
  {
    if ops == [] {
      SameHandlesEvolve(s, s);
    } else {
      var n := |ops| - 1;
      RunKeeps(s, ops[..n]);
      var u := Run(s, ops[..n]).value;
      StepKeeps(u, ops[n]);
      EvolvesTransitive(s, u, Step(u, ops[n]));
    }
  }

  lemma RunConcat(s: Term, a: seq<Op>, b: seq<Op>)
    requires Run(s, a).Some?
    ensures Run(s, a + b) == Run(Run(s, a).value, b)
  {
    FoldConcat(Next, Some(s), a, b);
  }

  /** From a state that satisfies the invariant, a run stops only where an action shows an
      alternate screen of another size. */
  lemma RunStopsOnlyOnStaleScreen(s: Term, ops: seq<Op>, op: Op)
    requires Inv(s) && Run(s, ops).Some?
    ensures Run(s, ops + [op]).Some? <==> Admissible(Run(s, ops).value, op)
  {
    RunKeeps(s, ops);
    assert (ops + [op])[..|ops|] == ops;
  }

  /** Grid, in every reachable state: the primary screen and an active alternate screen are
      exactly rows x columns, scrollback rows are as wide as the screen, the cursor is on the
      screen, a pending wrap means the last column, and damaged rows exist. */
  lemma ReachableGrid(setup: Setup, d: Dimensions, ops: seq<Op>)
    requires DimensionsOk(d) && Run(Initial(setup, d), ops).Some?
    ensures var t := Run(Initial(setup, d), ops).value;
            && DimensionsOk(t.dims)
            && SurfaceFits(t.primary, t.dims) && SurfaceFits(Active(t), t.dims)
            && AllWidth(t.scrollback, t.dims.columns)
            && forall row :: row in t.damage ==> row < t.dims.rows
  {
    InitialInv(setup, d);
    RunKeeps(Initial(setup, d), ops);
  }

  /** Scrollback, in every reachable state: the longest suffix of the archived rows that fits
      the line and byte budgets. */
  lemma ReachableScrollback(setup: Setup, d: Dimensions, ops: seq<Op>)
    requires DimensionsOk(d) && Run(Initial(setup, d), ops).Some?
    ensures var t := Run(Initial(setup, d), ops).value;
            && t.setup == setup
            && |t.scrollback| <= |t.archived|
            && t.scrollback == t.archived[|t.archived| - |t.scrollback|..]
            && WithinBudget(setup.budget, t.scrollback)
            && forall k :: 0 <= k < |t.archived| - |t.scrollback| ==> !WithinBudget(setup.budget, t.archived[k..])
  {
    InitialInv(setup, d);
    var t := Run(Initial(setup, d), ops).value;
    RunKeeps(Initial(setup, d), ops);
    RunKeepsSetup(Initial(setup, d), ops);
    RetainedIsLongestFittingSuffix(setup.budget, t.archived);
  }

  lemma {:induction false} DecModesKeepSetup(s: Term, params: seq<CsiParam>, enabled: bool)
    ensures DecModes(s, params, enabled).setup == s.setup
  {
    if params == [] {
    } else {
      DecModesKeepSetup(s, params[..|params| - 1], enabled);
    }
  }

  lemma {:induction false} RunKeepsSetup(s: Term, ops: seq<Op>)
    requires Run(s, ops).Some?
    ensures Run(s, ops).value.setup == s.setup
  {
    if ops == [] {
    } else {
      var n := |ops| - 1;
      RunKeepsSetup(s, ops[..n]);
      if SetsModes(ops[n]) {
        var sequence := ops[n].action.sequence;
        DecModesKeepSetup(Run(s, ops[..n]).value, sequence.params, sequence.action == 'h');
      }
    }
  }

  /* ----- row handles ----- */

  /** Looking a handle up at two times of a run never gives two different rows. */
  lemma {:induction false} HandleNamesOneRow(s: Term, first: seq<Op>, later: seq<Op>, handle: RowHandle)
    requires Inv(s) && Run(s, first + later).Some? && Run(s, first).Some?
    ensures var early := Find(Run(s, first).value.scrollback, handle);
            var late := Find(Run(s, first + later).value.scrollback, handle);
            early.Some? && late.Some? ==> early == late
  {
    RunConcat(s, first, later);
    RunKeeps(s, first);
    var u := Run(s, first).value;
    RunKeeps(u, later);
    var t := Run(u, later).value;
    var early, late := Find(u.scrollback, handle), Find(t.scrollback, handle);
    if early.Some? && late.Some? {
      var i :| 0 <= i < |u.scrollback| && u.scrollback[i] == early.value;
      var j :| 0 <= j < |t.scrollback| && t.scrollback[j] == late.value;
      assert Lineage(u)[i] == early.value && Lineage(t)[j] == late.value;
      assert Succeeds(u, i, t, j);
    }
  }

  /** A resize to other dimensions moves every surviving row of the buffers it rebuilds to a
      strictly later generation; ids are not reused. */
  lemma {:induction false} ResizeRaisesGenerations(s: Term, columns: nat, rows: nat)
    requires Inv(s) && DimensionsOk(Dimensions(columns, rows)) && Dimensions(columns, rows) != s.dims
    ensures RaisesGenerations(Lineage(s), Lineage(Resize(s, columns, rows)))
  {
    var d := Dimensions(columns, rows);
    RebuiltKeeps(s, d);
    assert Lineage(Resize(s, columns, rows)) == Lineage(Rebuilt(s, d));
    RenewedRaises(Lineage(s), Lineage(Rebuilt(s, d)), s.nextRowId, Rebuilt(s, d).nextRowId);
  }

  /** Rows with the id of an old row carry the next generation of its handle. */
  ghost predicate RaisesGenerations(before: seq<Row>, after: seq<Row>) {
    forall i, j :: 0 <= i < |before| && 0 <= j < |after| && before[i].handle.id == after[j].handle.id ==>
                     after[j].handle == NextGeneration(before[i].handle)
  }

  lemma RenewedRaises(before: seq<Row>, after: seq<Row>, lo: nat, hi: nat)
    requires Renewed(HandlesOf(after), HandlesOf(before), lo, hi)
    ensures RaisesGenerations(before, after)
  {
    assert forall i :: 0 <= i < |before| ==> HandlesOf(before)[i] == before[i].handle;
    assert forall j :: 0 <= j < |after| ==> HandlesOf(after)[j] == after[j].handle;
  }

  lemma {:induction false} AlternateResizeRaisesGenerations(s: Term, columns: nat, rows: nat)
    requires Inv(s) && DimensionsOk(Dimensions(columns, rows)) && Dimensions(columns, rows) != s.dims
    requires s.active.Alternate?
    ensures RaisesGenerations(s.alternate.rows, Resize(s, columns, rows).alternate.rows)
  {
    var d := Dimensions(columns, rows);
    AlternateResizeRenews(s, d);
    RenewedRaises(s.alternate.rows, ResizeWhileAlternate(s, d).alternate.rows,
                  IdAfterVisible(s.primary, d, s.nextRowId), ResizeWhileAlternate(s, d).nextRowId);
  }

  /* ----- the renderer ----- */

  /** A renderer that redraws only damaged rows of what it showed before. */
  function Repaint(canvas: seq<Row>, s: Term): seq<Row> {
    var rows := Active(s).rows;
    seq(|rows|, i requires 0 <= i < |rows| =>
      if i in s.damage || i >= |canvas| then rows[i] else canvas[i])
  }

  /** The same, but it never looks at an undamaged row: a missing one would stay missing. */
  predicate RepaintNeedsOnlyDamage(canvas: seq<Row>, s: Term) {
    forall i :: 0 <= i < |Active(s).rows| && i !in s.damage ==> i < |canvas|
  }

  /** What that renderer shows after a run that it started with an empty canvas. */
  function Canvas(s: Term, ops: seq<Op>): seq<Row> {
    if ops == [] then []
    else
      var n := |ops| - 1;
      if ops[n].Render? && Run(s, ops[..n]).Some? then Repaint(Canvas(s, ops[..n]), Run(s, ops[..n]).value)
      else Canvas(s, ops[..n])
  }

  lemma {:induction false} ApplyKeepsRendered(s: Term, action: TerminalAction)
    requires Fits(s)
    ensures ApplyAction(s, action).rendered == s.rendered
  {
    if action.Csi? && SetsModes(Act(action)) {
      DecModesKeepRendered(s, action.sequence.params, action.sequence.action == 'h');
    }
  }

  lemma {:induction false} DecModesKeepRendered(s: Term, params: seq<CsiParam>, enabled: bool)
    ensures DecModes(s, params, enabled).rendered == s.rendered
  {
    if params == [] {
    } else {
      DecModesKeepRendered(s, params[..|params| - 1], enabled);
    }
  }

  lemma {:induction false} CanvasIsRendered(s: Term, ops: seq<Op>)
    requires Inv(s) && s.rendered == [] && Run(s, ops).Some?
    ensures Canvas(s, ops) == Run(s, ops).value.rendered
  {
    if ops == [] {
    } else {
      var n := |ops| - 1;
      var u := Run(s, ops[..n]).value;
      CanvasIsRendered(s, ops[..n]);
      RunKeeps(s, ops[..n]);
      match ops[n] {
        case Render =>
          assert Repaint(u.rendered, u) == Active(u).rows;
        case Act(action) => ApplyKeepsRendered(u, action);
        case ResizeTo(columns, rows) =>
      }
    }
  }

  /** Damage is complete: after every snapshot of every run, the renderer that redrew only the
      damaged rows shows exactly the viewport. */
  lemma {:induction false} RendererShowsViewport(setup: Setup, d: Dimensions, ops: seq<Op>)
    requires DimensionsOk(d) && Run(Initial(setup, d), ops).Some?
    ensures var s := Initial(setup, d);
            var t := Run(s, ops).value;
            && Canvas(s, ops + [Render]) == Active(t).rows
            && RepaintNeedsOnlyDamage(Canvas(s, ops), t)
  {
    hide Grid, HandlesOk, HistoryOk, DimensionsOk, Next, Evolves;
    var s := Initial(setup, d);
    InitialInv(setup, d);
    RunKeeps(s, ops);
    CanvasIsRendered(s, ops);
    var t := Run(s, ops).value;
    assert (ops + [Render])[..|ops|] == ops;
    assert Repaint(t.rendered, t) == Active(t).rows;
  }
}
