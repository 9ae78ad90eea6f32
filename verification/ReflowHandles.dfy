/** Reflow keeps row handles apart and moves every surviving row to a later generation. */
module ReflowHandles {
  import opened RenderModel
  import opened Reflow

  function HandlesOf(rows: seq<Row>): (hs: seq<RowHandle>)
    ensures |hs| == |rows|
  {
    seq(|rows|, i requires 0 <= i < |rows| => rows[i].handle)
  }

  ghost predicate DistinctIds(hs: seq<RowHandle>) {
    forall i, j :: 0 <= i < j < |hs| ==> hs[i].id != hs[j].id
  }

  ghost predicate IdsBelow(hs: seq<RowHandle>, bound: nat) {
    forall i :: 0 <= i < |hs| ==> hs[i].id < bound
  }

  lemma BlankHandles(columns: nat, id: nat, n: nat)
    ensures var hs := HandlesOf(BlankRows(columns, id, n));
            && DistinctIds(hs) && IdsBelow(hs, id + n)
            && forall i :: 0 <= i < n ==> hs[i] == RowHandle(id + i, 0)
  {
    var rows := BlankRows(columns, id, n);
    forall i | 0 <= i < n ensures HandlesOf(rows)[i] == RowHandle(id + i, 0) {
      assert HandlesOf(rows)[i] == rows[i].handle;
    }
  }

  ghost predicate HasId(hs: seq<RowHandle>, id: nat) {
    exists i :: 0 <= i < |hs| && hs[i].id == id
  }

  /** `out` are later generations of handles in `source`, or fresh ones with ids in `lo..hi`. */
  ghost predicate Renewed(out: seq<RowHandle>, source: seq<RowHandle>, lo: nat, hi: nat) {
    && lo <= hi
    && DistinctIds(out)
    && (forall j :: 0 <= j < |out| ==> HasId(source, out[j].id) || lo <= out[j].id < hi)
    && (forall i, j :: 0 <= i < |source| && 0 <= j < |out| && source[i].id == out[j].id ==>
                         out[j] == NextGeneration(source[i]))
  }

  lemma {:induction false} RenewedConcat(
    a: seq<RowHandle>, b: seq<RowHandle>, s: seq<RowHandle>, t: seq<RowHandle>, lo: nat, mid: nat,
    hi: nat)
    requires Renewed(a, s, lo, mid) && Renewed(b, t, mid, hi)
    requires DistinctIds(s + t) && IdsBelow(s + t, lo)
    ensures Renewed(a + b, s + t, lo, hi)
  {
    var source := s + t;
    forall i, j | 0 <= i < |s| && 0 <= j < |t|
      ensures s[i].id != t[j].id && s[i].id < lo && t[j].id < lo
    {
      assert source[i] == s[i] && source[|s| + j] == t[j];
    }
    forall id | HasId(s, id) || HasId(t, id)
      ensures HasId(source, id)
    {
      if HasId(s, id) {
        var i :| 0 <= i < |s| && s[i].id == id;
        assert source[i].id == id;
      } else {
        var i :| 0 <= i < |t| && t[i].id == id;
        assert source[|s| + i].id == id;
      }
    }
  }

  lemma {:induction false} CutRenews(line: LogicalLine, columns: nat, id: nat)
    requires columns > 0 && DistinctIds(line.handles) && IdsBelow(line.handles, id)
    ensures Renewed(HandlesOf(CutRows(line, columns, id)), line.handles, id, IdAfterCut(line, columns, id))
  {
    var out := HandlesOf(CutRows(line, columns, id));
    forall j | 0 <= j < |out|
      ensures out[j] == if j < |line.handles| then NextGeneration(line.handles[j])
                        else RowHandle(id + (j - |line.handles|), 0)
    {
    }
    forall j | 0 <= j < |out| && j < |line.handles|
      ensures HasId(line.handles, out[j].id)
    {
      assert line.handles[j].id == out[j].id;
    }
  }

  function AllHandles(lines: seq<LogicalLine>): seq<RowHandle> {
    if lines == [] then [] else AllHandles(lines[..|lines| - 1]) + lines[|lines| - 1].handles
  }

  lemma AddRowKeepsHandles(g: Gathered, row: Row, index: nat, mark: CursorMark, columns: nat)
    ensures var h := AddRow(g, row, index, mark, columns);
            && AllHandles(h.lines) + h.current.handles ==
               AllHandles(g.lines) + g.current.handles + [row.handle]
            && (h.current.handles == [] ==> h.current.cells == [])
  {
    var h := AddRow(g, row, index, mark, columns);
    if !row.wrapped {
      assert h.lines[..|h.lines| - 1] == g.lines;
    }
  }

  lemma {:induction false} GatherKeepsHandles(rows: seq<Row>, mark: CursorMark, columns: nat)
    ensures var g := Gather(rows, mark, columns);
            && AllHandles(g.lines) + g.current.handles == HandlesOf(rows)
            && (g.current.handles == [] ==> g.current.cells == [])
  {
    if rows == [] {
    } else {
      var n := |rows| - 1;
      GatherKeepsHandles(rows[..n], mark, columns);
      AddRowKeepsHandles(Gather(rows[..n], mark, columns), rows[n], n, mark, columns);
      assert HandlesOf(rows) == HandlesOf(rows[..n]) + [rows[n].handle];
    }
  }

  lemma {:induction false} GroupedHandles(rows: seq<Row>, mark: CursorMark, columns: nat)
    ensures AllHandles(GroupedLines(rows, mark, columns)) == HandlesOf(rows)
  {
    GatherKeepsHandles(rows, mark, columns);
    var g := Gather(rows, mark, columns);
    assert (g.lines + [g.current])[..|g.lines|] == g.lines;
  }

  lemma DistinctPrefix(a: seq<RowHandle>, b: seq<RowHandle>, bound: nat)
    requires DistinctIds(a + b) && IdsBelow(a + b, bound)
    ensures DistinctIds(a) && DistinctIds(b) && IdsBelow(a, bound) && IdsBelow(b, bound)
  {
    forall i | 0 <= i < |a| ensures (a + b)[i] == a[i] {}
    forall i | 0 <= i < |b| ensures (a + b)[|a| + i] == b[i] {}
  }

  lemma {:induction false} AddLinesRenews(lines: seq<LogicalLine>, columns: nat, id: nat)
    requires columns > 0 && DistinctIds(AllHandles(lines)) && IdsBelow(AllHandles(lines), id)
    ensures var p := AddLines(lines, columns, id);
            Renewed(HandlesOf(p.result.rows), AllHandles(lines), id, p.nextRowId)
  {
    if lines == [] {
    } else {
      var n := |lines| - 1;
      var p := AddLines(lines[..n], columns, id);
      var line := SpacedLine(lines[n], columns);
      var cut := CutRows(line, columns, p.nextRowId);
      DistinctPrefix(AllHandles(lines[..n]), line.handles, id);
      AddLinesRenews(lines[..n], columns, id);
      CutRenews(line, columns, p.nextRowId);
      RenewedConcat(HandlesOf(p.result.rows), HandlesOf(cut), AllHandles(lines[..n]), line.handles,
                    id, p.nextRowId, IdAfterCut(line, columns, p.nextRowId));
      assert HandlesOf(p.result.rows + cut) == HandlesOf(p.result.rows) + HandlesOf(cut);
    }
  }

  lemma {:induction false} AddLinesAllWidth(lines: seq<LogicalLine>, columns: nat, id: nat)
    requires columns > 0
    ensures AllWidth(AddLines(lines, columns, id).result.rows, columns)
  {
    if lines == [] {
    } else {
      AddLinesAllWidth(lines[..|lines| - 1], columns, id);
    }
  }

  /** Handles of a reflow: distinct, later than their sources or fresh; all rows of the new width. */
  lemma {:induction false} ReflowRenewsHandles(rows: seq<Row>, mark: CursorMark, columns: nat, id: nat)
    requires columns > 0 && DistinctIds(HandlesOf(rows)) && IdsBelow(HandlesOf(rows), id)
    ensures var p := Reflowed(rows, mark, columns, id);
            && AllWidth(p.result.rows, columns)
            && p.result.rows != []
            && Renewed(HandlesOf(p.result.rows), HandlesOf(rows), id, p.nextRowId)
  {
    var lines := GroupedLines(rows, mark, columns);
    GroupedHandles(rows, mark, columns);
    AddLinesRenews(lines, columns, id);
    AddLinesAllWidth(lines, columns, id);
  }
}
