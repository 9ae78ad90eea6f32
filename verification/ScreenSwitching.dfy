/** DEC private modes: cursor visibility, the saved cursor, and switching between the two screens.
    Each keeps the invariant of runs, except showing an alternate screen of another size. */
module ScreenSwitching {
  import opened RenderModel
  import opened Protocol
  import opened ReflowHandles
  import opened TerminalModel
  import opened TerminalResize
  import opened TerminalRuns

  lemma DistinctExtend(a: seq<RowHandle>, gone: seq<RowHandle>, b: seq<RowHandle>, bound: nat, next: nat)
    requires DistinctIds(a + gone) && IdsBelow(a + gone, bound) && bound <= next
    requires DistinctIds(b) && forall i :: 0 <= i < |b| ==> bound <= b[i].id < next
    ensures DistinctIds(a + b) && IdsBelow(a + b, next)
  {
    assert forall i :: 0 <= i < |a| ==> (a + gone)[i] == a[i] == (a + b)[i];
    assert forall i :: 0 <= i < |b| ==> (a + b)[|a| + i] == b[i];
    var out := a + b;
    forall i | 0 <= i < |out| ensures out[i].id < next && (i >= |a| ==> bound <= out[i].id) {
      if i >= |a| { assert out[i] == b[i - |a|]; }
    }
    forall i, j | 0 <= i < j < |out| ensures out[i].id != out[j].id {
      if i >= |a| { assert out[i] == b[i - |a|] && out[j] == b[j - |a|]; }
      else if j < |a| { assert (a + gone)[i] == out[i] && (a + gone)[j] == out[j]; }
    }
  }

  lemma ResetKeepsHandles(s: Term)
    requires HandlesOk(s)
    ensures HandlesOk(ResetAlternate(s))
  {
    var t := ResetAlternate(s);
    BlankHandles(s.dims.columns, s.nextRowId, s.dims.rows);
    DistinctExtend(HandlesOf(Lineage(s)), HandlesOf(s.alternate.rows), HandlesOf(t.alternate.rows),
                   s.nextRowId, t.nextRowId);
    assert Lineage(t) == Lineage(s);
  }

  /** Showing another screen: all rows are damaged and the primary rows do not move. */
  lemma SwitchKeeps(s: Term, t: Term)
    requires Fits(t) && HandlesOk(t) && AllRows(s.dims.rows) <= t.damage
    requires t.primary == s.primary && t.scrollback == s.scrollback && s.nextRowId <= t.nextRowId
    requires t.archived == s.archived && t.setup == s.setup && t.dims == s.dims
    ensures Keeps(s, t)
  {
    if Inv(s) {
      assert Lineage(t) == Lineage(s);
      SameHandlesEvolve(s, s);
      EvolvesLater(s, s, t);
    }
  }

  lemma FreshFits(d: Dimensions, id: nat)
    requires d.columns > 0 && d.rows > 0
    ensures SurfaceFits(FreshSurface(d, id), d)
  {
  }

  /** Entering keeps the invariant if the screen is cleared or has the right size. */
  lemma EnterKeeps(s: Term, clear: bool)
    requires Inv(s) && (clear || SurfaceFits(s.alternate, s.dims))
    ensures Keeps(s, EnterAlternate(s, clear))
  {
    var t := EnterAlternate(s, clear);
    assert Lineage(t) == Lineage(s);
    if clear {
      ResetKeepsHandles(s);
      FreshFits(s.dims, s.nextRowId);
    }
    assert HandlesOk(t);
    assert Fits(t);
    SwitchKeeps(s, t);
  }

  lemma ExitKeeps(s: Term, clear: bool)
    requires Inv(s)
    ensures Keeps(s, ExitAlternate(s, clear))
  {
    var t := ExitAlternate(s, clear);
    assert Lineage(t) == Lineage(s);
    if clear && s.active.Alternate? { ResetKeepsHandles(s); }
    assert HandlesOk(t);
    assert Fits(t);
    SwitchKeeps(s, t);
  }

  lemma SaveKeeps(s: Term)
    ensures Keeps(s, SaveCursor(s))
  {
    if Inv(s) {
      assert Lineage(SaveCursor(s)) == Lineage(s);
      SameHandlesEvolve(s, SaveCursor(s));
    }
  }

  lemma RestoreLocal(s: Term)
    requires Fits(s)
    ensures Fits(RestoreCursor(s)) && Local(s, RestoreCursor(s))
  {
  }

  /** Showing or hiding the cursor changes no row. */
  lemma VisibleKeeps(s: Term, visible: bool)
    requires Inv(s)
    ensures Keeps(s, SetCursorVisible(s, visible))
  {
    hide HandlesOk, HistoryOk, Evolves;
    var t := SetCursorVisible(s, visible);
    assert Lineage(t) == Lineage(s);
    SameHandlesEvolve(s, t);
    SameRowsSameHandles(s, t);
  }

  lemma SameRowsSameHandles(s: Term, t: Term)
    requires HandlesOk(s) && HistoryOk(s)
    requires Lineage(t) == Lineage(s) && t.alternate.rows == s.alternate.rows && t.nextRowId == s.nextRowId
    requires t.scrollback == s.scrollback && t.archived == s.archived && t.setup == s.setup
    ensures HandlesOk(t) && HistoryOk(t)
  {
  }

  lemma RestoreKeeps(s: Term)
    requires Inv(s)
    ensures Keeps(s, RestoreCursor(s))
  {
    hide RestoreCursor;
    RestoreLocal(s);
    LocalKeeps(s, RestoreCursor(s));
  }

  lemma DecModeKeeps(s: Term, mode: nat, enabled: bool)
    requires Inv(s) && !EntersStale(s, mode, enabled)
    ensures Keeps(s, DecMode(s, mode, enabled))
  {
    hide Keeps, SetCursorVisible, SaveCursor, RestoreCursor, EnterAlternate, ExitAlternate;
    match mode
    case 25 => VisibleKeeps(s, enabled);
    case 47 => if enabled { EnterKeeps(s, false); } else { ExitKeeps(s, false); }
    case 1047 => if enabled { EnterKeeps(s, false); } else { ExitKeeps(s, true); }
    case 1048 => if enabled { SaveKeeps(s); } else { RestoreKeeps(s); }
    case 1049 =>
      var u := if enabled then SaveCursor(s) else ExitAlternate(s, true);
      if enabled { SaveKeeps(s); } else { ExitKeeps(s, true); }
      KeepsInv(s, u);
      if enabled { EnterKeeps(u, true); } else { RestoreKeeps(u); }
      KeepsTransitive(s, u, DecMode(s, mode, enabled));
    case _ => LocalKeeps(s, s);
  }

  lemma KeepsInv(s: Term, t: Term)
    requires Inv(s) && Keeps(s, t)
    ensures Inv(t)
  {
  }

  lemma {:induction false} DecModesKeep(s: Term, params: seq<CsiParam>, enabled: bool)
    requires Inv(s) && ModesAdmissible(s, params, enabled)
    ensures Keeps(s, DecModes(s, params, enabled))
  {
    if params == [] {
      LocalKeeps(s, s);
    } else {
      var n := |params| - 1;
      var u := DecModes(s, params[..n], enabled);
      DecModesKeep(s, params[..n], enabled);
      if params[n].subparameters != [] {
        DecModeKeeps(u, params[n].subparameters[0], enabled);
        KeepsTransitive(s, u, DecModes(s, params, enabled));
      }
    }
  }
}
