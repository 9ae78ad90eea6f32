/** Reflow to a single column, which cannot hold a wide pair. */
module OneColumn {
  import opened RenderModel
  import opened Text
  import opened Reflow
  import opened ReflowText
  import opened ReflowRuns
  import opened ReflowHandles
  import opened ReflowPairs

  predicate OnlyNarrow(cells: seq<RenderCell>) {
    forall i :: 0 <= i < |cells| ==> cells[i].width == 1
  }

  predicate OnlyNarrowText(text: seq<seq<RenderCell>>) {
    forall k :: 0 <= k < |text| ==> OnlyNarrow(text[k])
  }

  predicate OnlyNarrowRows(rows: seq<Row>) {
    forall i :: 0 <= i < |rows| ==> OnlyNarrow(rows[i].cells)
  }

  lemma NarrowConcat(a: seq<RenderCell>, b: seq<RenderCell>)
    ensures OnlyNarrow(a + b) <==> OnlyNarrow(a) && OnlyNarrow(b)
  {
    if OnlyNarrow(a + b) {
      assert forall i :: 0 <= i < |a| ==> a[i] == (a + b)[i];
      assert forall i :: 0 <= i < |b| ==> b[i] == (a + b)[|a| + i];
    }
  }

  lemma StripIsNarrowIff(cells: seq<RenderCell>)
    ensures OnlyNarrow(Strip(cells)) <==> OnlyNarrow(cells)
  {
    var tail := cells[OccupiedCellCount(cells)..];
    assert cells == Strip(cells) + tail;
    NarrowConcat(Strip(cells), tail);
  }

  lemma NarrowTextConcat(text: seq<seq<RenderCell>>, line: seq<RenderCell>)
    ensures OnlyNarrowText(text + [line]) <==> OnlyNarrowText(text) && OnlyNarrow(line)
  {
    hide OnlyNarrow;
    if OnlyNarrowText(text + [line]) {
      assert forall k :: 0 <= k < |text| ==> text[k] == (text + [line])[k];
      assert line == (text + [line])[|text|];
    }
  }

  lemma {:induction false} JoinIsNarrowIff(rows: seq<Row>)
    ensures var j := JoinAll(NOTHING, rows);
            OnlyNarrowText(j.closed) && OnlyNarrow(j.open) <==> OnlyNarrowRows(rows)
  {
    hide OnlyNarrow, OnlyNarrowText;
    if rows == [] {
      NothingIsNarrow();
    } else {
      var n := |rows| - 1;
      JoinIsNarrowIff(rows[..n]);
      NothingIsNarrow();
      var j := JoinAll(NOTHING, rows[..n]);
      NarrowConcat(j.open, rows[n].cells);
      NarrowTextConcat(j.closed, j.open + rows[n].cells);
      assert forall i :: 0 <= i < n ==> rows[..n][i] == rows[i];
    }
  }

  lemma NothingIsNarrow()
    ensures OnlyNarrow([]) && OnlyNarrowText([])
  {
  }

  /** Stripping a text never hides a wide cell: empty cells are narrow. */
  lemma TextIsNarrowIff(rows: seq<Row>)
    ensures OnlyNarrowText(TextOf(rows)) <==> OnlyNarrowRows(rows)
  {
    hide OnlyNarrow, Strip, JoinAll;
    var j := JoinAll(NOTHING, rows);
    JoinIsNarrowIff(rows);
    JoinShape(rows);
    NothingIsNarrow();
    NarrowTextConcat(j.closed, j.open);
    forall k | 0 <= k < |Lines(rows)|
      ensures OnlyNarrow(TextOf(rows)[k]) <==> OnlyNarrow(Lines(rows)[k])
    {
      StripIsNarrowIff(Lines(rows)[k]);
    }
  }

  lemma {:induction false} SpacedIsNarrowIff(cells: seq<RenderCell>, columns: nat)
    requires columns > 0
    ensures OnlyNarrow(Spaced(cells, columns)) <==> OnlyNarrow(cells)
  {
    hide LastColumn, OnlyNarrow;
    if cells == [] {
    } else {
      var n := |cells| - 1;
      SpacedIsNarrowIff(cells[..n], columns);
      assert cells == cells[..n] + [cells[n]];
      var front := Spaced(cells[..n], columns);
      NarrowConcat(cells[..n], [cells[n]]);
      NarrowConcat(front, [cells[n]]);
      NarrowConcat(front, [EMPTY_CELL, cells[n]]);
      BlankIsNarrow(cells[n]);
    }
  }

  lemma BlankIsNarrow(cell: RenderCell)
    ensures OnlyNarrow([EMPTY_CELL, cell]) <==> OnlyNarrow([cell])
  {
    assert [EMPTY_CELL, cell][1] == cell && [cell][0] == cell;
  }

  lemma OneColumnPairsIff(rows: seq<Row>)
    requires AllWidth(rows, 1)
    ensures RowsHavePairs(rows) <==> OnlyNarrowRows(rows)
  {
    forall i | 0 <= i < |rows|
      ensures WholePairs(rows[i].cells) <==> OnlyNarrow(rows[i].cells)
    {
      assert |rows[i].cells| == 1;
      if WholePairs(rows[i].cells) { assert PairAt(rows[i].cells, 0); }
    }
  }

  /** Reflow to one column holds only narrow cells exactly when the rows did. */
  lemma OneColumnIsNarrowIff(rows: seq<Row>, mark: CursorMark, id: nat)
    requires rows != []
    ensures OnlyNarrowRows(Reflowed(rows, mark, 1, id).result.rows) <==> OnlyNarrowRows(rows)
  {
    hide OnlyNarrow, Reflowed, TextOf, Spaced;
    var out, text := Reflowed(rows, mark, 1, id).result.rows, TextOf(rows);
    ReflowGivesSpacedLines(rows, mark, 1, id);
    TextIsNarrowIff(rows);
    TextIsNarrowIff(out);
    forall k | 0 <= k < |text|
      ensures OnlyNarrow(SpacedLines(text, 1)[k]) <==> OnlyNarrow(text[k])
    {
      SpacedIsNarrowIff(text[k], 1);
    }
  }

  /** Reflow to one column keeps pairs exactly when there is none: no cell is wide, and none a spacer. */
  lemma ReflowToOneColumnIff(rows: seq<Row>, mark: CursorMark, id: nat)
    requires rows != []
    ensures RowsHavePairs(Reflowed(rows, mark, 1, id).result.rows) <==> OnlyNarrowRows(rows)
  {
    hide OnlyNarrowRows, RowsHavePairs;
    var lines := GroupedLines(rows, mark, 1);
    AddLinesAllWidth(lines, 1, id);
    OneColumnPairsIff(Reflowed(rows, mark, 1, id).result.rows);
    OneColumnIsNarrowIff(rows, mark, id);
  }
}
