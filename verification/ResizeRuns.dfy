/** A resize keeps the invariant of runs. Handles of surviving rows move one generation on, new rows
    get fresh ids, the buffers get the new size, and the history stays within its budgets. */
module ResizeRuns {
  import opened RenderModel
  import opened History
  import opened Reflow
  import opened ReflowHandles
  import opened TerminalModel
  import opened TerminalResize
  import opened TerminalRuns

  /* ----- renewed handles of parts ----- */

  lemma RenewedSlice(out: seq<RowHandle>, source: seq<RowHandle>, lo: nat, hi: nat, a: nat, b: nat)
    requires Renewed(out, source, lo, hi) && a <= b <= |out|
    ensures Renewed(out[a..b], source, lo, hi)
  {
  }

  /** Renewed from a slice of the old rows plus some fresh ones is renewed from the old rows. */
  lemma {:induction false} RenewedFromSlice(
    out: seq<RowHandle>, hs: seq<RowHandle>, added: seq<RowHandle>, k: nat, end: nat, lo: nat,
    mid: nat, hi: nat)
    requires k <= end <= |hs| && lo <= mid
    requires DistinctIds(hs) && IdsBelow(hs, lo)
    requires forall i :: 0 <= i < |added| ==> lo <= added[i].id < mid
    requires Renewed(out, hs[k..end] + added, mid, hi)
    ensures Renewed(out, hs, lo, hi)
  {
    var source := hs[k..end] + added;
    forall j | 0 <= j < |out|
      ensures HasId(hs, out[j].id) || lo <= out[j].id < hi
    {
      if HasId(source, out[j].id) {
        var i :| 0 <= i < |source| && source[i].id == out[j].id;
        if i < end - k { assert hs[k + i].id == out[j].id; }
      }
    }
    forall i, j | 0 <= i < |hs| && 0 <= j < |out| && hs[i].id == out[j].id
      ensures out[j] == NextGeneration(hs[i])
    {
      assert hs[i].id < lo;
      var m :| 0 <= m < |source| && source[m].id == out[j].id;
      assert m < end - k;
      assert source[m] == hs[k + m];
    }
  }

  lemma RenewedBlanks(columns: nat, id: nat, n: nat)
    ensures Renewed(HandlesOf(BlankRows(columns, id, n)), [], id, id + n)
  {
    BlankHandles(columns, id, n);
  }

  /** Rows kept, blank rows added below, and the oldest rows trimmed. */
  lemma {:induction false} RenewedLineage(
    all: seq<Row>, end: nat, columns: nat, mid: nat, m: nat, q: nat, hs: seq<RowHandle>, lo: nat,
    lineage: seq<Row>)
    requires end <= |all| && q <= end + m
    requires DistinctIds(hs) && IdsBelow(hs, lo)
    requires Renewed(HandlesOf(all), hs, lo, mid)
    requires lineage == (all[..end] + BlankRows(columns, mid, m))[q..]
    ensures Renewed(HandlesOf(lineage), hs, lo, mid + m)
  {
    var kept, blanks := HandlesOf(all)[0..end], HandlesOf(BlankRows(columns, mid, m));
    RenewedSlice(HandlesOf(all), hs, lo, mid, 0, end);
    RenewedBlanks(columns, mid, m);
    assert hs + [] == hs;
    RenewedConcat(kept, blanks, hs, [], lo, mid, mid + m);
    RenewedSlice(kept + blanks, hs, lo, mid + m, q, end + m);
    assert HandlesOf(lineage) == (kept + blanks)[q..end + m];
  }

  lemma {:induction false} RenewedApart(
    out: seq<RowHandle>, source: seq<RowHandle>, other: seq<RowHandle>, lo: nat, hi: nat)
    requires DistinctIds(source + other) && IdsBelow(source + other, lo)
    requires Renewed(out, source, lo, hi)
    ensures DistinctIds(out + other) && IdsBelow(out + other, hi)
  {
    var all := source + other;
    assert forall i :: 0 <= i < |source| ==> all[i] == source[i];
    assert forall i :: 0 <= i < |other| ==> all[|source| + i] == other[i];
    forall j | 0 <= j < |out| ensures out[j].id < hi {
      if HasId(source, out[j].id) {
        var i :| 0 <= i < |source| && source[i].id == out[j].id;
        assert all[i].id < lo;
      }
    }
    forall i, j | 0 <= i < |out| && 0 <= j < |other| ensures out[i].id != other[j].id {
      assert all[|source| + j].id < lo;
      if HasId(source, out[i].id) {
        var k :| 0 <= k < |source| && source[k].id == out[i].id;
        assert all[k].id != all[|source| + j].id;
      }
    }
    var joined := out + other;
    forall i, j | 0 <= i < j < |joined| ensures joined[i].id != joined[j].id {
      if i >= |out| { assert all[|source| + (i - |out|)].id != all[|source| + (j - |out|)].id; }
    }
    forall i | 0 <= i < |joined| ensures joined[i].id < hi {
      if i >= |out| { assert all[|source| + (i - |out|)].id < lo; }
    }
  }

  lemma LineageHandles(s: Term)
    requires HandlesOk(s)
    ensures DistinctIds(HandlesOf(Lineage(s))) && IdsBelow(HandlesOf(Lineage(s)), s.nextRowId)
    ensures DistinctIds(HandlesOf(s.alternate.rows)) && IdsBelow(HandlesOf(s.alternate.rows), s.nextRowId)
  {
    DistinctPrefix(HandlesOf(Lineage(s)), HandlesOf(s.alternate.rows), s.nextRowId);
  }

  lemma RetainedSuffix(s: Term, rows: seq<Row>, rest: seq<Row>) returns (q: nat)
    ensures q <= |rows| && Retained(s.setup.budget, rows) == rows[q..]
    ensures Retained(s.setup.budget, rows) + rest == (rows + rest)[q..]
  {
    RetainedIsLongestFittingSuffix(s.setup.budget, rows);
    q := |rows| - |Retained(s.setup.budget, rows)|;
  }

  /* ----- resizing the primary screen ----- */

  lemma HandlesConcat(a: seq<Row>, b: seq<Row>)
    ensures HandlesOf(a + b) == HandlesOf(a) + HandlesOf(b)
  {
  }

  lemma HandlesSlice(a: seq<Row>, k: nat, end: nat)
    requires k <= end <= |a|
    ensures HandlesOf(a[k..end]) == HandlesOf(a)[k..end]
  {
  }

  lemma SliceAndFresh(hs: seq<RowHandle>, k: nat, end: nat, added: seq<RowHandle>, lo: nat)
    requires DistinctIds(hs) && IdsBelow(hs, lo) && k <= end <= |hs|
    requires forall i :: 0 <= i < |added| ==> added[i] == RowHandle(lo + i, 0)
    ensures DistinctIds(hs[k..end] + added) && IdsBelow(hs[k..end] + added, lo + |added|)
  {
    var out, n := hs[k..end] + added, end - k;
    assert forall i :: 0 <= i < n ==> out[i] == hs[k + i];
    assert forall i :: n <= i < |out| ==> out[i] == added[i - n];
    forall i | 0 <= i < |out| ensures out[i].id < lo + |added| && (i >= n ==> out[i].id == lo + (i - n)) {}
    forall i, j | 0 <= i < j < |out| ensures out[i].id != out[j].id {
      if j < n { assert hs[k + i].id != hs[k + j].id; }
    }
  }

  lemma {:induction false} HeightHandles(s: Term, d: Dimensions) returns (k: nat, end: nat, added: seq<RowHandle>)
    requires Grid(s) && HandlesOk(s) && d.rows > 0
    ensures var h := ResizePrimaryHeight(s, d.rows);
            var hs := HandlesOf(Lineage(s));
            && k <= end <= |hs| && s.nextRowId <= h.nextRowId
            && (forall i :: 0 <= i < |added| ==> s.nextRowId <= added[i].id < h.nextRowId)
            && HandlesOf(Lineage(h)) == hs[k..end] + added
            && DistinctIds(hs[k..end] + added) && IdsBelow(hs[k..end] + added, h.nextRowId)
  {
    hide *;
    GridCursor(s);
    var blanks;
    k, end, blanks := HeightKeepsRows(s, d.rows);
    var rows := BlankRows(s.dims.columns, s.nextRowId, blanks);
    added := HandlesOf(rows);
    BlankHandles(s.dims.columns, s.nextRowId, blanks);
    LineageHandles(s);
    HandlesSlice(Lineage(s), k, end);
    HandlesConcat(Lineage(s)[k..end], rows);
    SliceAndFresh(HandlesOf(Lineage(s)), k, end, added, s.nextRowId);
  }

  lemma {:induction false} ReflowedRenews(s: Term, d: Dimensions)
    requires Inv(s) && Sized(d)
    ensures var p := ReflowedLineage(ResizePrimaryHeight(s, d.rows), d.columns);
            && AllWidth(p.result.rows, d.columns)
            && Renewed(HandlesOf(p.result.rows), HandlesOf(Lineage(s)), s.nextRowId, p.nextRowId)
  {
    var h := ResizePrimaryHeight(s, d.rows);
    var k, end, added := HeightHandles(s, d);
    LineageHandles(s);
    ReflowRenewsHandles(Lineage(h), SourceMark(h), d.columns, h.nextRowId);
    RenewedFromSlice(HandlesOf(ReflowedLineage(h, d.columns).result.rows), HandlesOf(Lineage(s)), added,
                     k, end, s.nextRowId, h.nextRowId, ReflowedLineage(h, d.columns).nextRowId);
  }

  /** History trimmed to its budgets, and the viewport below it. */
  lemma TrimmedRenews(
    s: Term, all: seq<Row>, older: seq<Row>, viewport: seq<Row>, end: nat, columns: nat, mid: nat,
    m: nat)
    requires HandlesOk(s) && end <= |all|
    requires older + viewport == all[..end] + BlankRows(columns, mid, m)
    requires Renewed(HandlesOf(all), HandlesOf(Lineage(s)), s.nextRowId, mid)
    ensures Renewed(HandlesOf(Retained(s.setup.budget, older) + viewport), HandlesOf(Lineage(s)), s.nextRowId, mid + m)
  {
    hide HandlesOk, Renewed, DistinctIds, IdsBelow, HandlesOf, Retained;
    LineageHandles(s);
    var q := RetainedSuffix(s, older, viewport);
    RenewedLineage(all, end, columns, mid, m, q, HandlesOf(Lineage(s)), s.nextRowId,
                   Retained(s.setup.budget, older) + viewport);
  }

  lemma {:induction false} PrimaryResizeRenews(s: Term, d: Dimensions)
    requires Inv(s) && Sized(d)
    ensures var t := ResizeActivePrimary(s, d);
            Renewed(HandlesOf(Lineage(t)), HandlesOf(Lineage(s)), s.nextRowId, t.nextRowId)
  {
    hide Inv, Grid, HandlesOk, Renewed, HandlesOf, Retained, ResizePrimaryHeight, Reflowed, Visible;
    InvGrid(s);
    var t := ResizeActivePrimary(s, d);
    var p := ReflowedLineage(ResizePrimaryHeight(s, d.rows), d.columns);
    var r := p.result;
    var k := SplitAt(r, d.rows);
    var kept := Min(k + d.rows, |r.rows|);
    ReflowedRenews(s, d);
    SplitConservesRows(s, d);
    TrimmedRenews(s, r.rows, r.rows[..k], t.primary.rows, kept, d.columns, p.nextRowId, k + d.rows - kept);
  }

  lemma AllWidthConcat(a: seq<Row>, b: seq<Row>, columns: nat)
    requires AllWidth(a, columns) && AllWidth(b, columns)
    ensures AllWidth(a + b, columns)
  {
  }

  lemma AllWidthSlice(a: seq<Row>, k: nat, end: nat, columns: nat)
    requires AllWidth(a, columns) && k <= end <= |a|
    ensures AllWidth(a[k..end], columns)
  {
  }

  lemma RetainedWidth(s: Term, rows: seq<Row>, columns: nat)
    requires AllWidth(rows, columns)
    ensures AllWidth(Retained(s.setup.budget, rows), columns)
  {
    var q := RetainedSuffix(s, rows, []);
    AllWidthSlice(rows, q, |rows|, columns);
    assert rows[q..|rows|] == rows[q..];
  }

  lemma VisibleWidth(r: ReflowResult, d: Dimensions, id: nat)
    requires AllWidth(r.rows, d.columns)
    ensures AllWidth(Visible(r, d, id), d.columns)
  {
    var k := SplitAt(r, d.rows);
    var end := Min(k + d.rows, |r.rows|);
    AllWidthSlice(r.rows, k, end, d.columns);
    AllWidthConcat(r.rows[k..end], BlankRows(d.columns, id, d.rows - (end - k)), d.columns);
  }

  lemma {:induction false} PrimaryResizeFits(s: Term, d: Dimensions)
    requires Inv(s) && Sized(d)
    ensures var t := ResizeActivePrimary(s, d);
            && SurfaceFits(t.primary, d) && AllWidth(t.scrollback, d.columns)
            && WithinBudget(s.setup.budget, t.scrollback)
  {
    ReflowedRenews(s, d);
    ReflowedCursorInside(s, d);
    var p := ReflowedLineage(ResizePrimaryHeight(s, d.rows), d.columns);
    var r := p.result;
    var k := SplitAt(r, d.rows);
    VisibleWidth(r, d, p.nextRowId);
    SplitKeepsCursorRow(r, d, p.nextRowId);
    AllWidthSlice(r.rows, 0, k, d.columns);
    assert r.rows[0..k] == r.rows[..k];
    RetainedWidth(s, r.rows[..k], d.columns);
  }

  /* ----- resizing while the alternate screen is active ----- */

  lemma {:induction false} ResizedRowsRenewed(rows: seq<Row>, columns: nat, id: nat)
    requires DistinctIds(HandlesOf(rows))
    ensures Renewed(HandlesOf(ResizedRows(rows, columns)), HandlesOf(rows), id, id)
  {
    var hs, out := HandlesOf(rows), HandlesOf(ResizedRows(rows, columns));
    forall i | 0 <= i < |rows| ensures out[i] == NextGeneration(hs[i]) && HasId(hs, out[i].id) {
      assert hs[i].id == out[i].id;
    }
  }

  lemma ResizedRowsConcat(a: seq<Row>, b: seq<Row>, columns: nat)
    ensures ResizedRows(a + b, columns) == ResizedRows(a, columns) + ResizedRows(b, columns)
  {
  }

  lemma {:induction false} VisibleRenews(f: Surface, d: Dimensions, id: nat)
    requires d.columns > 0 && d.rows > 0
    requires DistinctIds(HandlesOf(f.rows)) && IdsBelow(HandlesOf(f.rows), id)
    ensures SurfaceFits(ResizeVisible(f, d, id), d)
    ensures Renewed(HandlesOf(ResizeVisible(f, d, id).rows), HandlesOf(f.rows), id, IdAfterVisible(f, d, id))
  {
    var rows := ResizedRows(f.rows, d.columns);
    var end := Min(d.rows, |rows|);
    var t := ResizeVisible(f, d, id);
    ResizedRowsRenewed(f.rows, d.columns, id);
    assert t.rows == (rows[..end] + BlankRows(d.columns, id, d.rows - end))[0..];
    RenewedLineage(rows, end, d.columns, id, d.rows - end, 0, HandlesOf(f.rows), id, t.rows);
  }

  lemma {:induction false} AlternateResizeLineage(s: Term, d: Dimensions)
    requires HandlesOk(s) && Sized(d)
    ensures var t := ResizeWhileAlternate(s, d);
            Renewed(HandlesOf(Lineage(t)), HandlesOf(Lineage(s)), s.nextRowId,
                    IdAfterVisible(s.primary, d, s.nextRowId))
  {
    hide HandlesOk, Renewed, AllWidth, HandlesOf, Retained, ResizedRows, BlankRows;
    var history, rows := ResizedRows(s.scrollback, d.columns), ResizedRows(s.primary.rows, d.columns);
    var all := ResizedRows(Lineage(s), d.columns);
    LineageHandles(s);
    ResizedRowsConcat(s.scrollback, s.primary.rows, d.columns);
    ResizedRowsRenewed(Lineage(s), d.columns, s.nextRowId);
    var n := Min(d.rows, |rows|);
    var viewport := ResizeVisible(s.primary, d, s.nextRowId).rows;
    CutBelow(history, rows, n, BlankRows(d.columns, s.nextRowId, d.rows - n));
    VisibleRows(s.primary, d, s.nextRowId);
    TrimmedRenews(s, all, history, viewport, |history| + n, d.columns, s.nextRowId, d.rows - n);
  }

  lemma CutBelow<T>(a: seq<T>, b: seq<T>, n: nat, c: seq<T>)
    requires n <= |b|
    ensures a + (b[..n] + c) == (a + b)[..|a| + n] + c
  {
  }

  lemma VisibleRows(f: Surface, d: Dimensions, id: nat)
    requires d.columns > 0 && d.rows > 0
    ensures var rows := ResizedRows(f.rows, d.columns);
            var n := Min(d.rows, |rows|);
            ResizeVisible(f, d, id).rows == rows[..n] + BlankRows(d.columns, id, d.rows - n)
  {
    assert BlankRows(d.columns, id, 0) == [];
  }

  lemma {:induction false} AlternateResizeRenews(s: Term, d: Dimensions)
    requires Inv(s) && Sized(d)
    ensures var t := ResizeWhileAlternate(s, d);
            var id := IdAfterVisible(s.primary, d, s.nextRowId);
            && Renewed(HandlesOf(Lineage(t)), HandlesOf(Lineage(s)), s.nextRowId, id)
            && Renewed(HandlesOf(t.alternate.rows), HandlesOf(s.alternate.rows), id, t.nextRowId)
            && SurfaceFits(t.primary, d) && SurfaceFits(t.alternate, d) && AllWidth(t.scrollback, d.columns)
  {
    LineageHandles(s);
    AlternateResizeLineage(s, d);
    VisibleRenews(s.alternate, d, IdAfterVisible(s.primary, d, s.nextRowId));
    PrimaryVisibleFits(s, d);
    RetainedWidth(s, ResizedRows(s.scrollback, d.columns), d.columns);
  }

  lemma PrimaryVisibleFits(s: Term, d: Dimensions)
    requires HandlesOk(s) && Sized(d)
    ensures SurfaceFits(ResizeVisible(s.primary, d, s.nextRowId), d)
  {
    var hs := HandlesOf(Lineage(s));
    LineageHandles(s);
    assert hs == HandlesOf(s.scrollback) + HandlesOf(s.primary.rows);
    DistinctPrefix(HandlesOf(s.scrollback), HandlesOf(s.primary.rows), s.nextRowId);
    VisibleRenews(s.primary, d, s.nextRowId);
  }

  /* ----- the public operation ----- */

  lemma {:induction false} RebuiltKeeps(s: Term, d: Dimensions)
    requires Inv(s) && Sized(d)
    ensures var t := Rebuilt(s, d);
            && Renewed(HandlesOf(Lineage(t)), HandlesOf(Lineage(s)), s.nextRowId, t.nextRowId)
            && HandlesOk(t)
            && SurfaceFits(t.primary, d) && AllWidth(t.scrollback, d.columns)
            && (s.active.Alternate? ==> SurfaceFits(t.alternate, d))
            && WithinBudget(s.setup.budget, t.scrollback)
  {
    var t := Rebuilt(s, d);
    var lineage, alternate := HandlesOf(Lineage(s)), HandlesOf(s.alternate.rows);
    if s.active.Primary? {
      PrimaryResizeRenews(s, d);
      PrimaryResizeFits(s, d);
      RenewedApart(HandlesOf(Lineage(t)), lineage, alternate, s.nextRowId, t.nextRowId);
    } else {
      AlternateResizeRenews(s, d);
      var id := IdAfterVisible(s.primary, d, s.nextRowId);
      RenewedConcat(HandlesOf(Lineage(t)), HandlesOf(t.alternate.rows), lineage, alternate,
                    s.nextRowId, id, t.nextRowId);
      RenewedBelow(HandlesOf(Lineage(t)) + HandlesOf(t.alternate.rows), lineage + alternate, s.nextRowId, t.nextRowId);
    }
  }

  lemma RenewedBelow(out: seq<RowHandle>, source: seq<RowHandle>, lo: nat, hi: nat)
    requires Renewed(out, source, lo, hi) && IdsBelow(source, lo)
    ensures IdsBelow(out, hi)
  {
    forall j | 0 <= j < |out| ensures out[j].id < hi {
      if HasId(source, out[j].id) {
        var i :| 0 <= i < |source| && source[i].id == out[j].id;
      }
    }
  }

  /** A resize keeps the invariant: grid, handles, history and damage. */
  lemma {:induction false} ResizeKeeps(s: Term, columns: nat, rows: nat)
    requires Inv(s)
    ensures Inv(Resize(s, columns, rows)) && Evolves(s, Resize(s, columns, rows))
  {
    var d := Dimensions(columns, rows);
    var t := Resize(s, columns, rows);
    if !DimensionsOk(d) || d == s.dims {
      SameHandlesEvolve(s, s);
    } else {
      RebuiltKeeps(s, d);
      assert Lineage(t) == Lineage(Rebuilt(s, d));
      RenewedEvolves(s, t);
    }
  }
}
