/** The cells of rows and of text that are not empty. */
module Ink {
  import opened RenderModel
  import opened Text
  import opened Reflow
  import opened ReflowText
  import opened ReflowRuns

  /** Number of cells that are not empty. */
  function Ink(cells: seq<RenderCell>): nat {
    if cells == [] then 0
    else Ink(cells[..|cells| - 1]) + if CellIsEmpty(cells[|cells| - 1]) then 0 else 1
  }

  function TextInk(text: seq<seq<RenderCell>>): nat {
    if text == [] then 0 else TextInk(text[..|text| - 1]) + Ink(text[|text| - 1])
  }

  function RowsInk(rows: seq<Row>): nat {
    if rows == [] then 0 else RowsInk(rows[..|rows| - 1]) + Ink(rows[|rows| - 1].cells)
  }

  predicate Textless(rows: seq<Row>) {
    forall i :: 0 <= i < |rows| ==> AllEmpty(rows[i].cells)
  }

  /** Text without the empty lines at its end. */
  function Chopped(text: seq<seq<RenderCell>>): seq<seq<RenderCell>> {
    if text != [] && text[|text| - 1] == [] then Chopped(text[..|text| - 1]) else text
  }

  /* ----- counting ----- */

  lemma {:induction false} InkConcat(a: seq<RenderCell>, b: seq<RenderCell>)
    ensures Ink(a + b) == Ink(a) + Ink(b)
    decreases |b|
  {
    if b == [] {
      assert a + b == a;
    } else {
      assert (a + b)[..|a + b| - 1] == a + b[..|b| - 1];
      InkConcat(a, b[..|b| - 1]);
    }
  }

  lemma {:induction false} NoInkIffEmpty(cells: seq<RenderCell>)
    ensures Ink(cells) == 0 <==> AllEmpty(cells)
  {
    if cells == [] {
    } else {
      var front := cells[..|cells| - 1];
      NoInkIffEmpty(front);
      assert forall i :: 0 <= i < |front| ==> front[i] == cells[i];
    }
  }

  lemma StripKeepsInk(cells: seq<RenderCell>)
    ensures Ink(Strip(cells)) == Ink(cells)
  {
    var tail := cells[OccupiedCellCount(cells)..];
    assert cells == Strip(cells) + tail;
    InkConcat(Strip(cells), tail);
    NoInkIffEmpty(tail);
  }

  lemma {:induction false} StripAllKeepsInk(lines: seq<seq<RenderCell>>)
    ensures TextInk(StripAll(lines)) == TextInk(lines)
  {
    hide Strip;
    if lines == [] {
    } else {
      var n := |lines| - 1;
      StripAllKeepsInk(lines[..n]);
      StripKeepsInk(lines[n]);
      assert StripAll(lines)[..n] == StripAll(lines[..n]);
    }
  }

  lemma TextInkOneMore(text: seq<seq<RenderCell>>, line: seq<RenderCell>)
    ensures TextInk(text + [line]) == TextInk(text) + Ink(line)
  {
    assert (text + [line])[..|text|] == text;
  }

  lemma {:induction false} JoinKeepsInk(rows: seq<Row>)
    ensures var j := JoinAll(NOTHING, rows); TextInk(j.closed) + Ink(j.open) == RowsInk(rows)
  {
    if rows == [] {
    } else {
      var n := |rows| - 1;
      JoinKeepsInk(rows[..n]);
      var j := JoinAll(NOTHING, rows[..n]);
      InkConcat(j.open, rows[n].cells);
      TextInkOneMore(j.closed, j.open + rows[n].cells);
    }
  }

  /** The text of rows holds exactly their cells that are not empty. */
  lemma TextKeepsInk(rows: seq<Row>)
    ensures TextInk(TextOf(rows)) == RowsInk(rows)
  {
    var j := JoinAll(NOTHING, rows);
    JoinKeepsInk(rows);
    JoinShape(rows);
    TextInkOneMore(j.closed, j.open);
    StripAllKeepsInk(Lines(rows));
  }

  lemma {:induction false} ChoppedKeepsInk(text: seq<seq<RenderCell>>)
    ensures TextInk(Chopped(text)) == TextInk(text)
  {
    if text != [] && text[|text| - 1] == [] {
      ChoppedKeepsInk(text[..|text| - 1]);
    }
  }

  lemma {:induction false} SpacedKeepsInk(cells: seq<RenderCell>, columns: nat)
    requires columns > 0
    ensures Ink(Spaced(cells, columns)) == Ink(cells)
  {
    hide LastColumn;
    if cells == [] {
    } else {
      var n := |cells| - 1;
      var front := Spaced(cells[..n], columns);
      SpacedKeepsInk(cells[..n], columns);
      assert (front + [cells[n]])[..|front|] == front;
      assert (front + [EMPTY_CELL, cells[n]])[..|front| + 1] == front + [EMPTY_CELL];
      assert (front + [EMPTY_CELL])[..|front|] == front;
    }
  }

  lemma {:induction false} SpacedLinesKeepInk(text: seq<seq<RenderCell>>, columns: nat)
    requires columns > 0
    ensures TextInk(SpacedLines(text, columns)) == TextInk(text)
  {
    hide Spaced;
    if text == [] {
    } else {
      var n := |text| - 1;
      SpacedLinesKeepInk(text[..n], columns);
      SpacedKeepsInk(text[n], columns);
      assert SpacedLines(text, columns)[..n] == SpacedLines(text[..n], columns);
    }
  }

  lemma {:induction false} RowsInkConcat(a: seq<Row>, b: seq<Row>)
    ensures RowsInk(a + b) == RowsInk(a) + RowsInk(b)
    decreases |b|
  {
    if b == [] {
      assert a + b == a;
    } else {
      assert (a + b)[..|a + b| - 1] == a + b[..|b| - 1];
      RowsInkConcat(a, b[..|b| - 1]);
    }
  }

  lemma {:induction false} NoInkIffTextless(rows: seq<Row>)
    ensures RowsInk(rows) == 0 <==> Textless(rows)
  {
    if rows == [] {
    } else {
      var front := rows[..|rows| - 1];
      NoInkIffTextless(front);
      NoInkIffEmpty(rows[|rows| - 1].cells);
      assert forall i :: 0 <= i < |front| ==> front[i] == rows[i];
    }
  }

  /* ----- trailing rows ----- */

  lemma {:induction false} ChoppedSpaced(text: seq<seq<RenderCell>>, columns: nat)
    requires columns > 0
    ensures Chopped(SpacedLines(text, columns)) == SpacedLines(Chopped(text), columns)
  {
    if text == [] {
    } else {
      var n := |text| - 1;
      assert SpacedLines(text, columns)[..n] == SpacedLines(text[..n], columns);
      assert SpacedLines(text, columns)[n] == Spaced(text[n], columns);
      if text[n] == [] {
        ChoppedSpaced(text[..n], columns);
      }
    }
  }

  lemma ChoppedEmptyLine(text: seq<seq<RenderCell>>)
    ensures Chopped(text + [[]]) == Chopped(text)
  {
    assert (text + [[]])[..|text|] == text;
  }

  lemma TextlessRowAddsNothing(a: seq<Row>, row: Row)
    requires AllEmpty(row.cells)
    ensures Chopped(TextOf(a + [row])) == Chopped(TextOf(a))
  {
    var j := JoinAll(NOTHING, a);
    JoinShape(a);
    assert (a + [row])[..|a|] == a;
    assert JoinAll(NOTHING, a + [row]) == Join(j, row);
    StripIgnoresEmptyTail(j.open, row.cells);
    assert StripAll(j.closed + [j.open + row.cells]) == StripAll(j.closed) + [Strip(j.open)];
    assert StripAll(j.closed + [j.open]) == StripAll(j.closed) + [Strip(j.open)];
    ChoppedEmptyLine(StripAll(j.closed));
    assert j.open == [] ==> Strip(j.open) == [];
  }

  lemma {:induction false} TextlessRowsAddNothing(a: seq<Row>, b: seq<Row>)
    requires Textless(b)
    ensures Chopped(TextOf(a + b)) == Chopped(TextOf(a))
    decreases |b|
  {
    hide TextOf;
    if b == [] {
      assert a + b == a;
    } else {
      var n := |b| - 1;
      TextlessRowsAddNothing(a, b[..n]);
      TextlessRowAddsNothing(a + b[..n], b[n]);
      assert a + b[..n] + [b[n]] == a + b;
    }
  }

  /** Leaving out rows at the end keeps the text, up to empty lines at its end, exactly when they hold
      nothing but empty cells. */
  lemma DropKeepsTextIff(a: seq<Row>, b: seq<Row>)
    ensures Chopped(TextOf(a)) == Chopped(TextOf(a + b)) <==> Textless(b)
  {
    hide TextOf, Chopped, RowsInk, Textless;
    if Textless(b) {
      TextlessRowsAddNothing(a, b);
    } else {
      NoInkIffTextless(b);
      RowsInkConcat(a, b);
      TextKeepsInk(a);
      TextKeepsInk(a + b);
      ChoppedKeepsInk(TextOf(a));
      ChoppedKeepsInk(TextOf(a + b));
    }
  }
}
