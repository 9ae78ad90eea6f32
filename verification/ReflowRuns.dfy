/** Runs of reflows at changing widths, and the widths that leave the text alone. */
module ReflowRuns {
  import opened RenderModel
  import opened Text
  import opened Reflow
  import opened ReflowText

  datatype ReflowStep = ReflowStep(mark: CursorMark, columns: nat)

  ghost predicate StepsValid(steps: seq<ReflowStep>) {
    forall i :: 0 <= i < |steps| ==> steps[i].columns > 0
  }

  ghost function ReflowMany(rows: seq<Row>, steps: seq<ReflowStep>, id: nat): seq<Row>
    requires StepsValid(steps)
    decreases |steps|
  {
    if steps == [] then rows
    else
      var p := Reflowed(rows, steps[0].mark, steps[0].columns, id);
      ReflowMany(p.result.rows, steps[1..], p.nextRowId)
  }

  ghost predicate NoWideText(text: seq<seq<RenderCell>>) {
    forall k :: 0 <= k < |text| ==> NoWide(text[k])
  }

  /** In rows of width `columns` no line has a wide lead in the last column. */
  ghost predicate TextFits(text: seq<seq<RenderCell>>, columns: nat)
    requires columns > 0
  {
    forall k :: 0 <= k < |text| ==> LeadsFit(text[k], columns)
  }

  function SpacedLines(text: seq<seq<RenderCell>>, columns: nat): (spaced: seq<seq<RenderCell>>)
    requires columns > 0
    ensures |spaced| == |text|
  {
    seq(|text|, i requires 0 <= i < |text| => Spaced(text[i], columns))
  }

  /** The same lines, none of them shorter. */
  ghost predicate Outgrows(after: seq<seq<RenderCell>>, before: seq<seq<RenderCell>>) {
    |after| == |before| && forall k :: 0 <= k < |before| ==> |before[k]| <= |after[k]|
  }

  lemma SpacedLinesAreSameIff(text: seq<seq<RenderCell>>, columns: nat)
    requires columns > 0
    ensures Outgrows(SpacedLines(text, columns), text)
    ensures SpacedLines(text, columns) == text <==> TextFits(text, columns)
    ensures Outgrows(text, SpacedLines(text, columns)) ==> SpacedLines(text, columns) == text
  {
    hide Spaced, LeadsFit;
    var spaced := SpacedLines(text, columns);
    forall k | 0 <= k < |text|
      ensures spaced[k] == text[k] <==> LeadsFit(text[k], columns)
      ensures |spaced[k]| <= |text[k]| ==> spaced[k] == text[k]
    {
      SpacedIsSameIff(text[k], columns);
      assert spaced[k] == Spaced(text[k], columns);
    }
  }

  lemma ReflowGivesSpacedLines(rows: seq<Row>, mark: CursorMark, columns: nat, id: nat)
    requires columns > 0 && rows != []
    ensures var out := Reflowed(rows, mark, columns, id).result.rows;
            out != [] && TextOf(out) == SpacedLines(TextOf(rows), columns)
  {
    hide Spaced, Reflowed, Lines;
    ReflowSpacesText(rows, mark, columns, id);
    LinesNotEmpty(rows);
    LinesNotEmpty(Reflowed(rows, mark, columns, id).result.rows);
  }

  /** A reflow keeps the text exactly when no wide lead would start in the last column. */
  lemma ReflowKeepsTextIff(rows: seq<Row>, mark: CursorMark, columns: nat, id: nat)
    requires columns > 0 && rows != []
    ensures TextOf(Reflowed(rows, mark, columns, id).result.rows) == TextOf(rows) <==>
            TextFits(TextOf(rows), columns)
  {
    hide Reflowed, TextOf, TextFits;
    ReflowGivesSpacedLines(rows, mark, columns, id);
    SpacedLinesAreSameIff(TextOf(rows), columns);
  }

  lemma {:induction false} ReflowsOnlyGrow(rows: seq<Row>, steps: seq<ReflowStep>, id: nat)
    requires rows != [] && StepsValid(steps)
    ensures Outgrows(TextOf(ReflowMany(rows, steps, id)), TextOf(rows))
    decreases |steps|
  {
    hide Reflowed, TextOf, TextFits;
    if steps == [] {
    } else {
      var p := Reflowed(rows, steps[0].mark, steps[0].columns, id);
      ReflowGivesSpacedLines(rows, steps[0].mark, steps[0].columns, id);
      SpacedLinesAreSameIff(TextOf(rows), steps[0].columns);
      ReflowsOnlyGrow(p.result.rows, steps[1..], p.nextRowId);
    }
  }

  /** Any number of reflows keeps the text exactly when each width fits all its wide leads. A blank
      that one of them has inserted is never removed by a later one. */
  lemma {:induction false} ReflowsKeepTextIff(rows: seq<Row>, steps: seq<ReflowStep>, id: nat)
    requires rows != [] && StepsValid(steps)
    ensures TextOf(ReflowMany(rows, steps, id)) == TextOf(rows) <==>
            forall i :: 0 <= i < |steps| ==> TextFits(TextOf(rows), steps[i].columns)
    decreases |steps|
  {
    hide Reflowed, TextOf, TextFits;
    if steps == [] {
    } else {
      var p := Reflowed(rows, steps[0].mark, steps[0].columns, id);
      var rest := steps[1..];
      ReflowGivesSpacedLines(rows, steps[0].mark, steps[0].columns, id);
      SpacedLinesAreSameIff(TextOf(rows), steps[0].columns);
      ReflowsOnlyGrow(p.result.rows, rest, p.nextRowId);
      ReflowsKeepTextIff(p.result.rows, rest, p.nextRowId);
      assert forall i :: 0 <= i < |rest| ==> rest[i] == steps[i + 1];
      if forall i :: 0 <= i < |steps| ==> TextFits(TextOf(rows), steps[i].columns) {
        assert TextFits(TextOf(rows), steps[0].columns);
      } else if TextFits(TextOf(rows), steps[0].columns) {
        var i :| 0 <= i < |steps| && !TextFits(TextOf(rows), steps[i].columns);
        assert rest[i - 1] == steps[i];
      }
    }
  }

  /** Without wide cells any number of reflows, at any widths, leaves the text alone. */
  lemma ReflowsKeepText(rows: seq<Row>, steps: seq<ReflowStep>, id: nat)
    requires rows != [] && StepsValid(steps) && NoWideText(TextOf(rows))
    ensures TextOf(ReflowMany(rows, steps, id)) == TextOf(rows)
  {
    ReflowsKeepTextIff(rows, steps, id);
  }

  lemma OneRowText(row: Row)
    requires row.cells != [] && !CellIsEmpty(row.cells[|row.cells| - 1])
    ensures TextOf([row]) == [row.cells]
  {
    var rows := [row];
    assert rows[..0] == [] && JoinAll(NOTHING, rows) == Join(NOTHING, row);
    assert [] + row.cells == row.cells && Lines(rows) == [row.cells];
    assert Strip(row.cells) == row.cells;
  }

  /** `a`, then a wide character: at two columns the lead would start in the last one. The blank put
      before it is still there back at four columns. */
  lemma WideLineGainsBlank(lead: RenderCell, mark: CursorMark, id: nat)
    requires lead.width == 2
    ensures var a, spacer := TextCell('a', 1, DEFAULT_STYLE), TextCell(' ', 0, DEFAULT_STYLE);
            var rows := [Row(RowHandle(1, 0), [a, lead, spacer, a], false)];
            && TextOf(Reflowed(rows, mark, 2, id).result.rows) != TextOf(rows)
            && TextOf(ReflowMany(rows, [ReflowStep(mark, 2), ReflowStep(mark, 4)], id)) != TextOf(rows)
  {
    hide Reflowed, ReflowMany, TextOf, LeadsFit;
    var a, spacer := TextCell('a', 1, DEFAULT_STYLE), TextCell(' ', 0, DEFAULT_STYLE);
    var cells := [a, lead, spacer, a];
    var rows := [Row(RowHandle(1, 0), cells, false)];
    var steps := [ReflowStep(mark, 2), ReflowStep(mark, 4)];
    OneRowText(rows[0]);
    SecondLeadDoesNotFit(cells);
    assert !LeadsFit(TextOf(rows)[0], 2);
    ReflowKeepsTextIff(rows, mark, 2, id);
    ReflowsKeepTextIff(rows, steps, id);
    assert steps[0].columns == 2;
  }

  lemma SecondLeadDoesNotFit(cells: seq<RenderCell>)
    requires |cells| > 1 && cells[1].width > 1
    ensures !LeadsFit(cells, 2)
  {
    assert LastColumn(1, 2);
  }
}
