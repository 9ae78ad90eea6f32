/** Runs of the terminal, and the invariant that every run keeps: the grid, handles that name one
    row each, the scrollback rule and complete damage. One lemma per operation shows that the
    operation keeps all of it. */
module TerminalRuns {
  import opened RenderModel
  import opened Protocol
  import opened History
  import opened ReflowHandles
  import opened TerminalModel
  import opened TerminalResize

  /* ----- runs ----- */

  datatype Op = Act(action: TerminalAction) | ResizeTo(columns: nat, rows: nat) | Render

  function Initial(setup: Setup, d: Dimensions): Term {
    var primary := FreshSurface(d, 1);
    Term(setup, d, primary, FreshSurface(d, 1 + d.rows), Primary, [], 1 + d.rows + d.rows,
         AllRows(d.rows), DEFAULT_STYLE, None, [], [])
  }

  /** A snapshot drains the damage. */
  function Rendered(s: Term): Term {
    s.(damage := {}, rendered := Active(s).rows)
  }

  function Step(s: Term, op: Op): Term
    requires Grid(s)
  {
    match op
    case Act(action) => ApplyAction(s, action)
    case ResizeTo(columns, rows) => Resize(s, columns, rows)
    case Render => Rendered(s)
  }

  /** Modes 47 and 1047 show the alternate screen as it is; a primary resize has not touched it. */
  predicate EntersStale(s: Term, mode: nat, enabled: bool) {
    enabled && (mode == 47 || mode == 1047) && !SurfaceFits(s.alternate, s.dims)
  }

  predicate ParamAdmissible(s: Term, param: CsiParam, enabled: bool) {
    param.subparameters == [] || !EntersStale(s, param.subparameters[0], enabled)
  }

  predicate ModesAdmissible(s: Term, params: seq<CsiParam>, enabled: bool) {
    if params == [] then true
    else
      var n := |params| - 1;
      ModesAdmissible(s, params[..n], enabled) &&
      ParamAdmissible(DecModes(s, params[..n], enabled), params[n], enabled)
  }

  predicate SetsModes(op: Op) {
    && op.Act? && op.action.Csi?
    && !op.action.sequence.ignored
    && op.action.sequence.intermediates == QUESTION_MARK
    && (op.action.sequence.action == 'h' || op.action.sequence.action == 'l')
  }

  predicate Admissible(s: Term, op: Op) {
    SetsModes(op) ==> ModesAdmissible(s, op.action.sequence.params, op.action.sequence.action == 'h')
  }

  /* ----- the invariant ----- */

  /** Row ids over scrollback, primary and alternate are pairwise distinct and already issued. */
  ghost predicate HandlesOk(s: Term) {
    var all := HandlesOf(Lineage(s)) + HandlesOf(s.alternate.rows);
    DistinctIds(all) && IdsBelow(all, s.nextRowId)
  }

  /** The scrollback is the longest suffix of everything archived that fits both budgets. */
  ghost predicate HistoryOk(s: Term) {
    s.scrollback == Retained(s.setup.budget, s.archived)
  }

  /** Every row that differs from the last rendered viewport is damaged. */
  ghost predicate DamageComplete(s: Term) {
    var rows := Active(s).rows;
    forall i :: 0 <= i < |rows| && i !in s.damage ==> i < |s.rendered| && s.rendered[i] == rows[i]
  }

  ghost predicate Inv(s: Term) {
    Grid(s) && HandlesOk(s) && HistoryOk(s) && DamageComplete(s) && DimensionsOk(s.dims)
  }

  lemma InvGrid(s: Term)
    requires Inv(s)
    ensures Grid(s) && Fits(s) && HandlesOk(s) && SurfaceFits(s.primary, s.dims)
    ensures s.primary.cursor.row < |s.primary.rows|
  {
  }

  /* ----- row handles from one state to a later one ----- */

  /** A row with the same id is a later generation, or the same generation; and a scrollback row
      of the same generation is the same row, still in scrollback. */
  ghost predicate Succeeds(s: Term, i: nat, t: Term, j: nat)
    requires i < |Lineage(s)| && j < |Lineage(t)|
  {
    var a, b := Lineage(s)[i], Lineage(t)[j];
    a.handle.id == b.handle.id ==>
      || a.handle.generation < b.handle.generation
      || (a.handle == b.handle && (i < |s.scrollback| ==> j < |t.scrollback| && a == b))
  }

  ghost predicate Evolves(s: Term, t: Term) {
    && s.nextRowId <= t.nextRowId
    && (forall i, j :: 0 <= i < |Lineage(s)| && 0 <= j < |Lineage(t)| ==> Succeeds(s, i, t, j))
    && (forall j :: 0 <= j < |Lineage(t)| ==>
                      Lineage(t)[j].handle.id >= s.nextRowId ||
                      HasId(HandlesOf(Lineage(s)), Lineage(t)[j].handle.id))
  }

  lemma {:induction false} EvolvesTransitive(s: Term, u: Term, t: Term)
    requires HandlesOk(s) && Evolves(s, u) && Evolves(u, t)
    ensures Evolves(s, t)
  {
    var hs := HandlesOf(Lineage(s));
    assert forall i :: 0 <= i < |hs| ==> (hs + HandlesOf(s.alternate.rows))[i] == hs[i];
    forall i, j | 0 <= i < |Lineage(s)| && 0 <= j < |Lineage(t)|
      ensures Succeeds(s, i, t, j)
    {
      if Lineage(s)[i].handle.id == Lineage(t)[j].handle.id {
        assert hs[i].id < s.nextRowId;
        var k :| 0 <= k < |Lineage(u)| && HandlesOf(Lineage(u))[k].id == Lineage(t)[j].handle.id;
        assert Succeeds(s, i, u, k) && Succeeds(u, k, t, j);
      }
    }
  }

  /** Renewed handles are later generations, so a rebuilt lineage evolves from the old one. */
  lemma RenewedEvolves(s: Term, t: Term)
    requires Renewed(HandlesOf(Lineage(t)), HandlesOf(Lineage(s)), s.nextRowId, t.nextRowId)
    ensures Evolves(s, t)
  {
    forall i, j | 0 <= i < |Lineage(s)| && 0 <= j < |Lineage(t)|
      ensures Succeeds(s, i, t, j)
    {
      assert HandlesOf(Lineage(s))[i] == Lineage(s)[i].handle;
      assert HandlesOf(Lineage(t))[j] == Lineage(t)[j].handle;
    }
    forall j | 0 <= j < |Lineage(t)|
      ensures Lineage(t)[j].handle.id >= s.nextRowId || HasId(HandlesOf(Lineage(s)), Lineage(t)[j].handle.id)
    {
      assert HandlesOf(Lineage(t))[j] == Lineage(t)[j].handle;
    }
  }

  lemma {:induction false} SameHandlesEvolve(s: Term, t: Term)
    requires HandlesOk(s) && t.nextRowId == s.nextRowId && t.scrollback == s.scrollback
    requires HandlesOf(Lineage(t)) == HandlesOf(Lineage(s))
    ensures Evolves(s, t)
  {
    var hs := HandlesOf(Lineage(s));
    var all := hs + HandlesOf(s.alternate.rows);
    assert forall i :: 0 <= i < |hs| ==> all[i] == hs[i];
    forall i, j | 0 <= i < |Lineage(s)| && 0 <= j < |Lineage(t)|
      ensures Succeeds(s, i, t, j)
    {
      assert HandlesOf(Lineage(t))[j] == Lineage(t)[j].handle;
      assert hs[i] == Lineage(s)[i].handle && hs[j] == Lineage(t)[j].handle;
      assert i != j ==> hs[i].id != hs[j].id;
    }
    forall j | 0 <= j < |Lineage(t)|
      ensures HasId(hs, Lineage(t)[j].handle.id)
    {
      assert hs[j].id == HandlesOf(Lineage(t))[j].id;
    }
  }

  /** A change that keeps the invariant and lets the row handles evolve. */
  ghost predicate Keeps(s: Term, t: Term) {
    Inv(s) ==> Inv(t) && Evolves(s, t)
  }

  lemma KeepsTransitive(s: Term, u: Term, t: Term)
    requires Keeps(s, u) && Keeps(u, t)
    ensures Keeps(s, t)
  {
    if Inv(s) {
      EvolvesTransitive(s, u, t);
    }
  }

  /* ----- changes in place ----- */

  lemma {:induction false} LocalKeepsHandles(s: Term, t: Term)
    requires Local(s, t)
    ensures HandlesOf(Lineage(t)) == HandlesOf(Lineage(s))
    ensures HandlesOf(t.alternate.rows) == HandlesOf(s.alternate.rows)
  {
    assert HandlesOf(Lineage(t)) == HandlesOf(t.scrollback) + HandlesOf(t.primary.rows);
    assert HandlesOf(Lineage(s)) == HandlesOf(s.scrollback) + HandlesOf(s.primary.rows);
  }

  lemma {:induction false} LocalKeeps(s: Term, t: Term)
    requires Fits(t) && Local(s, t)
    ensures Keeps(s, t)
  {
    if Inv(s) {
      LocalKeepsHandles(s, t);
      SameHandlesEvolve(s, t);
    }
  }

  /* ----- scrolling ----- */

  lemma DistinctInsert(a: seq<RowHandle>, b: seq<RowHandle>, newest: RowHandle, k: nat, bound: nat)
    requires DistinctIds(a + b) && IdsBelow(a + b, bound)
    requires k <= |a| && newest.id == bound
    ensures DistinctIds(a[k..] + [newest] + b) && IdsBelow(a[k..] + [newest] + b, bound + 1)
  {
    var all, out := a + b, a[k..] + [newest] + b;
    forall i | 0 <= i < |out|
      ensures out[i] == if i < |a| - k then all[i + k] else if i == |a| - k then newest else all[i + k - 1]
    {
    }
  }

  lemma {:induction false} ScrollPrimary(s: Term) returns (k: nat)
    requires Inv(s) && s.active.Primary?
    ensures var t := ScrollActiveUp(s);
            && k <= |s.scrollback| + 1
            && t.scrollback == (s.scrollback + [s.primary.rows[0]])[k..]
            && Lineage(t) == Lineage(s)[k..] + [BlankRow(s.dims.columns, s.nextRowId)]
            && HistoryOk(t) && AllWidth(t.scrollback, s.dims.columns)
            && t.alternate == s.alternate && t.nextRowId == s.nextRowId + 1
  {
    hide HandlesOk, DamageComplete, Retained, DistinctIds, IdsBelow, HandlesOf;
    var t := ScrollActiveUp(s);
    var top := s.primary.rows[0];
    var pushed := s.scrollback + [top];
    RetainedIsLongestFittingSuffix(s.setup.budget, pushed);
    k := |pushed| - |t.scrollback|;
    assert Lineage(s) == pushed + s.primary.rows[1..];
    RetainedStreams(s.setup.budget, s.archived, [top]);
  }

  lemma {:induction false} ScrollEvolves(s: Term, t: Term, k: nat)
    requires HandlesOk(s) && k <= |s.scrollback| + 1 <= |Lineage(s)| && t.nextRowId == s.nextRowId + 1
    requires |t.scrollback| == |s.scrollback| + 1 - k
    requires Lineage(t) == Lineage(s)[k..] + [BlankRow(s.dims.columns, s.nextRowId)]
    ensures Evolves(s, t)
  {
    var hs := HandlesOf(Lineage(s));
    var all := hs + HandlesOf(s.alternate.rows);
    assert forall i :: 0 <= i < |hs| ==> all[i] == hs[i] == Lineage(s)[i].handle;
    forall i, j | 0 <= i < |Lineage(s)| && 0 <= j < |Lineage(t)|
      ensures Succeeds(s, i, t, j)
    {
      if j + k < |hs| {
        assert Lineage(t)[j] == Lineage(s)[j + k];
        assert i != j + k ==> hs[i].id != hs[j + k].id;
      } else {
        assert Lineage(t)[j].handle.id == s.nextRowId;
        assert hs[i].id < s.nextRowId;
      }
    }
    forall j | 0 <= j < |Lineage(t)|
      ensures Lineage(t)[j].handle.id >= s.nextRowId || HasId(hs, Lineage(t)[j].handle.id)
    {
      if j + k < |hs| {
        assert hs[j + k].id == Lineage(t)[j].handle.id;
      }
    }
  }

  lemma {:induction false} ScrollKeepsHandles(s: Term)
    requires Inv(s)
    ensures HandlesOk(ScrollActiveUp(s)) && Evolves(s, ScrollActiveUp(s))
    ensures HistoryOk(ScrollActiveUp(s)) && AllWidth(ScrollActiveUp(s).scrollback, s.dims.columns)
  {
    if s.active.Primary? {
      PrimaryScrollKeepsHandles(s);
    } else {
      AlternateScrollKeepsHandles(s);
    }
  }

  lemma LineageSize(s: Term)
    requires Grid(s)
    ensures |s.scrollback| + 1 <= |Lineage(s)| && Fits(s)
  {
  }

  lemma HandlesDropAdd(rows: seq<Row>, k: nat, row: Row)
    requires k <= |rows|
    ensures HandlesOf(rows[k..] + [row]) == HandlesOf(rows)[k..] + [row.handle]
  {
  }

  lemma {:induction false} PrimaryScrollKeepsHandles(s: Term)
    requires Inv(s) && s.active.Primary?
    ensures HandlesOk(ScrollActiveUp(s)) && Evolves(s, ScrollActiveUp(s))
    ensures HistoryOk(ScrollActiveUp(s)) && AllWidth(ScrollActiveUp(s).scrollback, s.dims.columns)
  {
    hide DistinctIds, IdsBelow, Evolves, DamageComplete, ScrollActiveUp, Lineage, HandlesOf, HistoryOk, Grid;
    LineageSize(s);
    var t := ScrollActiveUp(s);
    var lineage, alternate := HandlesOf(Lineage(s)), HandlesOf(s.alternate.rows);
    var newest := RowHandle(s.nextRowId, 0);
    var k := ScrollPrimary(s);
    ScrollEvolves(s, t, k);
    DistinctInsert(lineage, alternate, newest, k, s.nextRowId);
    HandlesDropAdd(Lineage(s), k, BlankRow(s.dims.columns, s.nextRowId));
  }

  lemma {:induction false} AlternateScrollKeepsHandles(s: Term)
    requires Inv(s) && s.active.Alternate?
    ensures HandlesOk(ScrollActiveUp(s)) && Evolves(s, ScrollActiveUp(s))
    ensures HistoryOk(ScrollActiveUp(s)) && AllWidth(ScrollActiveUp(s).scrollback, s.dims.columns)
  {
    hide DistinctIds, IdsBelow, Retained, Evolves, DamageComplete;
    var t := ScrollActiveUp(s);
    var lineage, alternate := HandlesOf(Lineage(s)), HandlesOf(s.alternate.rows);
    var newest := RowHandle(s.nextRowId, 0);
    assert lineage + alternate == lineage + [s.alternate.rows[0].handle] + alternate[1..];
    DistinctDrop(lineage, s.alternate.rows[0].handle, alternate[1..], newest, s.nextRowId);
    assert HandlesOf(t.alternate.rows) == alternate[1..] + [newest];
    assert HandlesOf(Lineage(t)) + HandlesOf(t.alternate.rows) == lineage + alternate[1..] + [newest];
    SameHandlesEvolve(s, t.(nextRowId := s.nextRowId));
    EvolvesLater(s, t.(nextRowId := s.nextRowId), t);
  }

  lemma DistinctDrop(a: seq<RowHandle>, gone: RowHandle, b: seq<RowHandle>, newest: RowHandle, bound: nat)
    requires DistinctIds(a + [gone] + b) && IdsBelow(a + [gone] + b, bound) && newest.id == bound
    ensures DistinctIds(a + b + [newest]) && IdsBelow(a + b + [newest], bound + 1)
  {
    var all, out := a + [gone] + b, a + b + [newest];
    assert forall i :: 0 <= i < |a| ==> out[i] == all[i];
    assert forall i :: |a| <= i < |a| + |b| ==> out[i] == all[i + 1];
    assert out[|a| + |b|] == newest;
    forall i | 0 <= i < |out| ensures out[i].id < bound + 1 {}
    forall i, j | 0 <= i < j < |out| ensures out[i].id != out[j].id {}
  }

  lemma EvolvesLater(s: Term, u: Term, t: Term)
    requires Evolves(s, u) && Lineage(t) == Lineage(u) && t.scrollback == u.scrollback
    requires u.nextRowId <= t.nextRowId
    ensures Evolves(s, t)
  {
    forall i, j | 0 <= i < |Lineage(s)| && 0 <= j < |Lineage(t)|
      ensures Succeeds(s, i, t, j)
    {
      assert Succeeds(s, i, u, j);
    }
  }

  lemma {:induction false} ScrollKeeps(s: Term)
    requires Fits(s)
    ensures Keeps(s, ScrollActiveUp(s))
  {
    if Inv(s) {
      ScrollKeepsHandles(s);
    }
  }

  lemma MoveDownKeeps(s: Term)
    requires Fits(s) && !Active(s).pendingWrap
    ensures Keeps(s, MoveDownOrScroll(s))
  {
    if Active(s).cursor.row + 1 < s.dims.rows {
      LocalKeeps(s, MoveDownOrScroll(s));
    } else {
      ScrollKeeps(s);
    }
  }

  lemma LineFeedKeeps(s: Term)
    requires Fits(s)
    ensures Keeps(s, FeedLine(s))
  {
    var u := ClearPending(s);
    LocalKeeps(s, u);
    MoveDownKeeps(u);
    KeepsTransitive(s, u, FeedLine(s));
  }

  lemma ControlKeeps(s: Term, kind: C0ControlKind)
    requires Fits(s)
    ensures Keeps(s, ApplyControl(s, kind))
  {
    match kind
    case LineFeed | VerticalTab | FormFeed => LineFeedKeeps(s);
    case _ => LocalKeeps(s, ApplyControl(s, kind));
  }

  /* ----- printing ----- */

  lemma WrapPendingKeeps(s: Term)
    requires Fits(s)
    ensures Keeps(s, WrapPending(s))
  {
    var f := Active(s);
    var row := f.cursor.row;
    var wrapped := f.(rows := f.rows[row := f.rows[row].(wrapped := true)], pendingWrap := false);
    var u := MarkRow(WithActive(s, wrapped), row);
    var v := MoveDownOrScroll(u);
    LocalKeeps(s, u);
    MoveDownKeeps(u);
    KeepsTransitive(s, u, v);
    LocalKeeps(v, WrapPending(s));
    KeepsTransitive(s, v, WrapPending(s));
  }

  lemma WrapBeforeWideKeeps(s: Term)
    requires Fits(s)
    ensures Keeps(s, WrapBeforeWide(s))
  {
    var cursor := Active(s).cursor;
    var u := ClearWidePartner(s, cursor.row, cursor.column);
    var v := WriteCell(u, cursor.row, cursor.column, TextCell(' ', 1, s.style));
    LocalKeeps(s, u);
    LocalKeeps(u, v);
    KeepsTransitive(s, u, v);
    WrapPendingKeeps(v);
    KeepsTransitive(s, v, WrapBeforeWide(s));
  }

  lemma PrintKeeps(s: Term, ch: char)
    requires Fits(s)
    ensures Keeps(s, PrintChar(s, ch))
  {
    hide WrapPending, WrapBeforeWide, PlaceGlyph, Keeps;
    var u := AfterPendingWrap(s);
    if Active(s).pendingWrap {
      WrapPendingKeeps(s);
    } else {
      LocalKeeps(s, s);
    }
    var width := GlyphWidth(s, ch);
    if width > 0 {
      var v := u;
      if width > 1 && Active(u).cursor.column + width > s.dims.columns {
        v := WrapBeforeWide(u);
        WrapBeforeWideKeeps(u);
        KeepsTransitive(s, u, v);
      }
      LocalKeeps(v, PlaceGlyph(v, ch, width));
      KeepsTransitive(s, v, PrintChar(s, ch));
    }
  }

  /* ----- CSI sequences ----- */

  lemma {:induction false} ScrollTimesKeeps(s: Term, n: nat)
    requires Fits(s)
    ensures Keeps(s, ScrollTimes(s, n))
  {
    if n == 0 {
      LocalKeeps(s, s);
    } else {
      ScrollTimesKeeps(s, n - 1);
      ScrollKeeps(ScrollTimes(s, n - 1));
      KeepsTransitive(s, ScrollTimes(s, n - 1), ScrollTimes(s, n));
    }
  }

  lemma EraseDisplayAllKeeps(s: Term)
    requires Fits(s)
    ensures Keeps(s, EraseDisplayAll(s))
  {
    var u := ArchiveOccupied(s);
    if s.active.Primary? {
      ScrollTimesKeeps(s, OccupiedRows(s.primary.rows));
    } else {
      LocalKeeps(s, s);
    }
    var v := FillRows(u, 0, s.dims.rows, s.style.background);
    LocalKeeps(u, v);
    LocalKeeps(v, ClearPending(v));
    KeepsTransitive(s, u, v);
    KeepsTransitive(s, v, ClearPending(v));
  }

  lemma PlainCsiKeeps(s: Term, sequence: CsiSequence)
    requires Fits(s)
    ensures Keeps(s, ApplyPlainCsi(s, sequence))
  {
    hide ApplyPlainCsi, Keeps, Fits, Local;
    if ErasesDisplay(sequence) && !IsCursorMove(sequence.action) {
      EraseDisplayAllKeeps(s);
    } else {
      LocalKeeps(s, ApplyPlainCsi(s, sequence));
    }
  }
}
