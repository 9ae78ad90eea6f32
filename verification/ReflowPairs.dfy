/** Wide pairs: a lead of width 2 and its width-0 spacer, side by side in one row. */
module ReflowPairs {
  import opened RenderModel
  import opened Arith
  import opened Reflow
  import opened ReflowText

  ghost predicate PairAt(cells: seq<RenderCell>, i: nat)
    requires i < |cells|
  {
    && (cells[i].width > 1 ==> i + 1 < |cells| && cells[i + 1].width == 0)
    && (cells[i].width == 0 ==> i > 0 && cells[i - 1].width > 1)
  }

  ghost predicate WholePairs(cells: seq<RenderCell>) {
    forall i :: 0 <= i < |cells| ==> PairAt(cells, i)
  }

  ghost predicate RowsHavePairs(rows: seq<Row>) {
    forall i :: 0 <= i < |rows| ==> WholePairs(rows[i].cells)
  }

  lemma {:induction false} PairsConcat(a: seq<RenderCell>, b: seq<RenderCell>)
    requires WholePairs(a) && WholePairs(b)
    ensures WholePairs(a + b)
  {
    forall i | 0 <= i < |a + b|
      ensures PairAt(a + b, i)
    {
      if i < |a| {
        assert PairAt(a, i);
      } else {
        assert PairAt(b, i - |a|);
      }
    }
  }

  /** A cut keeps pairs exactly when it does not fall in front of a spacer. */
  lemma {:induction false} CutKeepsPairsIff(cells: seq<RenderCell>, n: nat)
    requires WholePairs(cells) && n <= |cells|
    ensures WholePairs(cells[..n]) <==> (n == |cells| || cells[n].width != 0)
    ensures WholePairs(cells[n..]) <==> (n == |cells| || cells[n].width != 0)
  {
    if n < |cells| {
      assert PairAt(cells, n);
      if cells[n].width == 0 {
        assert !PairAt(cells[..n], n - 1);
        assert !PairAt(cells[n..], 0);
      } else {
        forall i | 0 <= i < n ensures PairAt(cells[..n], i) {
          assert PairAt(cells, i);
          assert i + 1 == n ==> PairAt(cells, n);
        }
        forall i | 0 <= i < |cells[n..]| ensures PairAt(cells[n..], i) {
          assert PairAt(cells, n + i);
        }
      }
    } else {
      assert cells[..n] == cells;
    }
  }

  lemma {:induction false} GatherKeepsPairs(rows: seq<Row>, mark: CursorMark, columns: nat)
    requires RowsHavePairs(rows)
    ensures var g := Gather(rows, mark, columns);
            && WholePairs(g.current.cells)
            && forall k :: 0 <= k < |g.lines| ==> WholePairs(g.lines[k].cells)
  {
    if rows == [] {
    } else {
      var n := |rows| - 1;
      GatherKeepsPairs(rows[..n], mark, columns);
      var g := Gather(rows[..n], mark, columns);
      var row := rows[n];
      var segment := SegmentLen(row, n, mark, g.current.cells == [], columns);
      assert segment < |row.cells| ==> CellIsEmpty(row.cells[segment]);
      CutKeepsPairsIff(row.cells, segment);
      PairsConcat(g.current.cells, row.cells[..segment]);
    }
  }

  /** Pairs of an unfinished line: only the last cell may still wait for its spacer. */
  ghost predicate PairSoFarAt(cells: seq<RenderCell>, i: nat)
    requires i < |cells|
  {
    && (cells[i].width > 1 && i + 1 < |cells| ==> cells[i + 1].width == 0)
    && (cells[i].width == 0 ==> i > 0 && cells[i - 1].width > 1)
  }

  ghost predicate PairsSoFar(cells: seq<RenderCell>) {
    forall i :: 0 <= i < |cells| ==> PairSoFarAt(cells, i)
  }

  lemma {:induction false} SpacedKeepsPairs(cells: seq<RenderCell>, columns: nat)
    requires columns >= 2 && PairsSoFar(cells)
    ensures PairsSoFar(Spaced(cells, columns)) && LeadsFit(Spaced(cells, columns), columns)
    ensures cells != [] ==> Spaced(cells, columns)[|Spaced(cells, columns)| - 1] == cells[|cells| - 1]
  {
    if cells == [] {
    } else {
      var n := |cells| - 1;
      var front, out := Spaced(cells[..n], columns), Spaced(cells, columns);
      forall i | 0 <= i < n ensures PairSoFarAt(cells[..n], i) {
        assert PairSoFarAt(cells, i);
      }
      SpacedKeepsPairs(cells[..n], columns);
      assert PairSoFarAt(cells, n) && (n > 0 ==> PairSoFarAt(cells, n - 1));
      if cells[n].width > 1 && |front| % columns == columns - 1 {
        NextColumn(|front|, columns);
      }
      forall i | 0 <= i < |out| ensures PairSoFarAt(out, i) {
        if i < |front| { assert PairSoFarAt(front, i); }
      }
    }
  }

  lemma {:induction false} SpacedWholePairs(cells: seq<RenderCell>, columns: nat)
    requires columns >= 2 && WholePairs(cells)
    ensures WholePairs(Spaced(cells, columns)) && LeadsFit(Spaced(cells, columns), columns)
  {
    forall i | 0 <= i < |cells|
      ensures PairSoFarAt(cells, i)
    {
      assert PairAt(cells, i);
    }
    SpacedKeepsPairs(cells, columns);
    var out := Spaced(cells, columns);
    assert cells != [] ==> PairAt(cells, |cells| - 1);
    forall i | 0 <= i < |out| ensures PairAt(out, i) {
      assert PairSoFarAt(out, i);
    }
  }

  lemma {:induction false} CutRowKeepsPairs(line: LogicalLine, columns: nat, index: nat, id: nat)
    requires columns >= 2 && index < VisualCount(|line.cells|, columns)
    requires WholePairs(line.cells) && LeadsFit(line.cells, columns)
    ensures WholePairs(CutRow(line, columns, index, id).cells)
  {
    MulMono(index, VisualCount(|line.cells|, columns) - 1, columns);
    var start := index * columns;
    var end := Min(start + columns, |line.cells|);
    CutAligned(line.cells, columns, index);
    CutAligned(line.cells[..end], columns, index);
    if end < |line.cells| {
      assert end == (index + 1) * columns;
      CutAligned(line.cells, columns, index + 1);
    } else {
      assert line.cells[..end] == line.cells;
    }
    var segment := line.cells[start..end];
    assert segment == line.cells[..end][start..];
    PairsConcat(segment, Blanks(columns - |segment|));
    assert Resized(segment, columns) == segment + Blanks(columns - |segment|);
  }

  lemma {:induction false} CutAligned(cells: seq<RenderCell>, columns: nat, k: nat)
    requires columns >= 2 && k * columns <= |cells|
    ensures WholePairs(cells) && LeadsFit(cells, columns) ==>
              WholePairs(cells[..k * columns]) && WholePairs(cells[k * columns..])
  {
    var n := k * columns;
    if WholePairs(cells) && LeadsFit(cells, columns) {
      if n < |cells| && k > 0 {
        assert PairAt(cells, n);
        assert n - 1 == (k - 1) * columns + (columns - 1);
        DivUnique(k - 1, columns - 1, columns);
      }
      if n < |cells| { assert PairAt(cells, n); }
      CutKeepsPairsIff(cells, n);
    }
  }

  lemma {:induction false} AddLinesKeepsPairs(lines: seq<LogicalLine>, columns: nat, id: nat)
    requires columns >= 2
    requires forall k :: 0 <= k < |lines| ==> WholePairs(lines[k].cells)
    ensures RowsHavePairs(AddLines(lines, columns, id).result.rows)
  {
    if lines == [] {
    } else {
      var n := |lines| - 1;
      AddLinesKeepsPairs(lines[..n], columns, id);
      var p := AddLines(lines[..n], columns, id);
      SpacedWholePairs(lines[n].cells, columns);
      var line := SpacedLine(lines[n], columns);
      forall i | 0 <= i < VisualCount(|line.cells|, columns)
        ensures WholePairs(CutRow(line, columns, i, p.nextRowId).cells)
      {
        CutRowKeepsPairs(line, columns, i, p.nextRowId);
      }
    }
  }

  /** Reflow to two columns or more keeps every wide pair in one row. */
  lemma {:induction false} ReflowKeepsPairs(rows: seq<Row>, mark: CursorMark, columns: nat, id: nat)
    requires columns >= 2 && RowsHavePairs(rows)
    ensures RowsHavePairs(Reflowed(rows, mark, columns, id).result.rows)
  {
    GatherKeepsPairs(rows, mark, columns);
    AddLinesKeepsPairs(GroupedLines(rows, mark, columns), columns, id);
  }
}
