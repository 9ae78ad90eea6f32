/** Auto-wrap: what was typed is the text of the rows. */
module AutoWrap {
  import opened RenderModel
  import opened Folds
  import opened Protocol
  import opened Text
  import opened Reflow
  import opened ReflowText
  import opened ReflowRuns
  import opened TerminalModel
  import opened TerminalRuns
  import opened RunTheorems
  import opened CursorMoves
  import opened TypedPages
  import Sgr

  /* ----- runs ----- */

  /** What is typed: a character, or a change of the pen by SGR codes. */
  datatype Key = Glyph(ch: char) | Pen(codes: seq<nat>)

  const CARRIAGE_RETURN := Act(Control(0x0d))
  const LINE_FEED := Act(Control(0x0a))

  function KeyOp(key: Key): Op {
    match key
    case Glyph(ch) => Act(Print(ch))
    case Pen(codes) => Act(Plain(codes, 'm'))
  }

  function Keys(line: seq<Key>): (ops: seq<Op>)
    ensures |ops| == |line|
  {
    seq(|line|, i requires 0 <= i < |line| => KeyOp(line[i]))
  }

  /** Lines separated by CR LF. */
  function Typing(lines: seq<seq<Key>>): seq<Op> {
    if lines == [] then []
    else if |lines| == 1 then Keys(lines[0])
    else Typing(lines[..|lines| - 1]) + [CARRIAGE_RETURN, LINE_FEED] + Keys(lines[|lines| - 1])
  }

  /** The pen once the keys of a line are typed. */
  function PenAfter(style: CellStyle, line: seq<Key>): CellStyle {
    if line == [] then style
    else
      var pen, last := PenAfter(style, line[..|line| - 1]), line[|line| - 1];
      if last.Pen? then Sgr.Styled(pen, last.codes) else pen
  }

  /** The pen at the start of line `n`: it is carried over from line to line. */
  function PenAt(lines: seq<seq<Key>>, n: nat): CellStyle
    requires n <= |lines|
  {
    if n == 0 then DEFAULT_STYLE else PenAfter(PenAt(lines, n - 1), lines[n - 1])
  }

  /** The cells of a line's characters, each in the style of the pen at that point. */
  function CellsOf(setup: Setup, columns: nat, style: CellStyle, line: seq<Key>): seq<RenderCell> {
    if line == [] then []
    else
      var front, last := line[..|line| - 1], line[|line| - 1];
      CellsOf(setup, columns, style, front) +
      if last.Glyph? then CellsOfChar(setup, columns, PenAfter(style, front), last.ch) else []
  }

  /** A state reached by a run, with its pen, the finished lines and the cells of the current one. */
  ghost predicate TypedRun(
    run: Option<Term>, setup: Setup, columns: nat, style: CellStyle, done: seq<seq<RenderCell>>,
    raw: seq<RenderCell>) {
    && run.Some? && Inv(run.value)
    && run.value.setup == setup && run.value.dims.columns == columns && columns > 0
    && run.value.style == style
    && Typed(run.value, done, Laid(raw, columns))
  }

  lemma NextChar(
    run: Option<Term>, setup: Setup, columns: nat, style: CellStyle, done: seq<seq<RenderCell>>,
    raw: seq<RenderCell>, ch: char)
    requires TypedRun(run, setup, columns, style, done, raw)
    ensures TypedRun(Next(run, Act(Print(ch))), setup, columns, style, done,
                     raw + CellsOfChar(setup, columns, style, ch))
  {
    hide Typed, Laid, PrintChar;
    StepKeeps(run.value, Act(Print(ch)));
    InvGrid(run.value);
    CharIsTyped(run.value, done, raw, ch);
  }

  lemma NextPen(
    run: Option<Term>, setup: Setup, columns: nat, style: CellStyle, done: seq<seq<RenderCell>>,
    raw: seq<RenderCell>, codes: seq<nat>)
    requires TypedRun(run, setup, columns, style, done, raw)
    ensures TypedRun(Next(run, Act(Plain(codes, 'm'))), setup, columns, Sgr.Styled(style, codes), done, raw)
  {
    hide Inv, Laid, TypedPage, Sgr.Styled, ApplyAction;
    InvGrid(run.value);
    StepKeeps(run.value, Act(Plain(codes, 'm')));
    SgrSetsThePen(run.value, codes);
  }

  lemma NextControl(s: Term, b: byte)
    requires Inv(s)
    ensures var t := ApplyControl(s, ControlKind(b));
            Next(Some(s), Act(Control(b))) == Some(t) && Inv(t) && t.setup == s.setup && t.dims == s.dims
  {
    hide ApplyControl;
    InvGrid(s);
    StepKeeps(s, Act(Control(b)));
  }

  lemma NextLine(
    run: Option<Term>, setup: Setup, columns: nat, style: CellStyle, done: seq<seq<RenderCell>>, raw: seq<RenderCell>)
    requires TypedRun(run, setup, columns, style, done, raw)
    ensures TypedRun(Next(Next(run, CARRIAGE_RETURN), LINE_FEED), setup, columns, style,
                     done + [Strip(Laid(raw, columns))], [])
  {
    hide Inv, Typed, Next;
    var s := run.value;
    InvGrid(s);
    NextControl(s, 0x0d);
    NextControl(ReturnCarriage(s), 0x0a);
    LineBreakIsTyped(s, done, Laid(raw, columns));
    assert Laid([], columns) == [];
  }

  lemma NextKey(
    run: Option<Term>, setup: Setup, columns: nat, style: CellStyle, line: seq<Key>, done: seq<seq<RenderCell>>,
    key: Key)
    requires TypedRun(run, setup, columns, PenAfter(style, line), done, CellsOf(setup, columns, style, line))
    ensures TypedRun(Next(run, KeyOp(key)), setup, columns, PenAfter(style, line + [key]), done,
                     CellsOf(setup, columns, style, line + [key]))
  {
    hide TypedRun, Next;
    var pen, raw := PenAfter(style, line), CellsOf(setup, columns, style, line);
    assert (line + [key])[..|line|] == line;
    match key
    case Glyph(ch) => NextChar(run, setup, columns, pen, done, raw, ch);
    case Pen(codes) =>
      NextPen(run, setup, columns, pen, done, raw, codes);
      assert raw + [] == raw;
  }

  lemma {:induction false} KeysAreTyped(
    run: Option<Term>, setup: Setup, columns: nat, style: CellStyle, line: seq<Key>, done: seq<seq<RenderCell>>)
    requires TypedRun(run, setup, columns, style, done, [])
    ensures TypedRun(Fold(Next, run, Keys(line)), setup, columns, PenAfter(style, line), done,
                     CellsOf(setup, columns, style, line))
  {
    hide TypedRun, Next;
    if line == [] {
    } else {
      var n := |line| - 1;
      KeysAreTyped(run, setup, columns, style, line[..n], done);
      NextKey(Fold(Next, run, Keys(line[..n])), setup, columns, style, line[..n], done, line[n]);
      assert Keys(line)[..n] == Keys(line[..n]);
      assert line == line[..n] + [line[n]];
    }
  }

  lemma FoldTwo(run: Option<Term>, a: Op, b: Op)
    ensures Fold(Next, run, [a, b]) == Next(Next(run, a), b)
  {
    FoldConcat(Next, run, [a], [b]);
    FoldOne(Next, run, a);
    FoldOne(Next, Next(run, a), b);
    assert [a] + [b] == [a, b];
  }

  /** The first `n` lines as they are laid out, without trailing blanks. */
  function StrippedLines(setup: Setup, columns: nat, lines: seq<seq<Key>>, n: nat): seq<seq<RenderCell>>
    requires columns > 0 && n <= |lines|
  {
    seq(n, i requires 0 <= i < n => Strip(Laid(CellsOf(setup, columns, PenAt(lines, i), lines[i]), columns)))
  }

  /** After any lines, typed in any styles: the finished ones, the unfinished one, and the pen. */
  lemma {:induction false} TypingIsTyped(run: Option<Term>, setup: Setup, columns: nat, lines: seq<seq<Key>>, n: nat)
    requires columns > 0 && TypedRun(run, setup, columns, DEFAULT_STYLE, [], []) && n < |lines|
    ensures TypedRun(Fold(Next, run, Typing(lines[..n + 1])), setup, columns, PenAt(lines, n + 1),
                     StrippedLines(setup, columns, lines, n),
                     CellsOf(setup, columns, PenAt(lines, n), lines[n]))
  {
    hide TypedRun, Next, CellsOf, PenAfter, Laid, Strip;
    if n == 0 {
      KeysAreTyped(run, setup, columns, DEFAULT_STYLE, lines[0], []);
      assert lines[..1] == [lines[0]] && StrippedLines(setup, columns, lines, 0) == [];
    } else {
      TypingIsTyped(run, setup, columns, lines, n - 1);
      MoreTyping(run, setup, columns, lines, n);
    }
  }

  lemma {:induction false} MoreTyping(run: Option<Term>, setup: Setup, columns: nat, lines: seq<seq<Key>>, n: nat)
    requires columns > 0 && 0 < n < |lines|
    requires TypedRun(Fold(Next, run, Typing(lines[..n])), setup, columns, PenAt(lines, n),
                      StrippedLines(setup, columns, lines, n - 1),
                      CellsOf(setup, columns, PenAt(lines, n - 1), lines[n - 1]))
    ensures TypedRun(Fold(Next, run, Typing(lines[..n + 1])), setup, columns, PenAt(lines, n + 1),
                     StrippedLines(setup, columns, lines, n),
                     CellsOf(setup, columns, PenAt(lines, n), lines[n]))
  {
    hide TypedRun, Next, CellsOf, PenAfter, Laid, Strip, Typing;
    var done, pen := StrippedLines(setup, columns, lines, n), PenAt(lines, n);
    var last := CellsOf(setup, columns, PenAt(lines, n - 1), lines[n - 1]);
    var u := Fold(Next, run, Typing(lines[..n]));
    NextLine(u, setup, columns, pen, StrippedLines(setup, columns, lines, n - 1), last);
    assert StrippedLines(setup, columns, lines, n - 1) + [Strip(Laid(last, columns))] == done;
    KeysAreTyped(Next(Next(u, CARRIAGE_RETURN), LINE_FEED), setup, columns, pen, lines[n], done);
    TypingMore(run, lines[..n], lines[n]);
    assert lines[..n + 1] == lines[..n] + [lines[n]];
  }

  lemma TypingMore(run: Option<Term>, front: seq<seq<Key>>, line: seq<Key>)
    requires front != []
    ensures Fold(Next, run, Typing(front + [line])) ==
            Fold(Next, Next(Next(Fold(Next, run, Typing(front)), CARRIAGE_RETURN), LINE_FEED), Keys(line))
  {
    var lines := front + [line];
    assert lines[..|lines| - 1] == front;
    var breaks := [CARRIAGE_RETURN, LINE_FEED];
    FoldConcat(Next, run, Typing(front) + breaks, Keys(line));
    FoldConcat(Next, run, Typing(front), breaks);
    FoldTwo(Fold(Next, run, Typing(front)), CARRIAGE_RETURN, LINE_FEED);
  }

  /* ----- theorems ----- */

  lemma BlankPageIsTyped(columns: nat, id: nat, n: nat)
    requires columns > 0 && n > 0
    ensures TypedPage(BlankRows(columns, id, n), 0, 0, [], [])
  {
    var rows := BlankRows(columns, id, n);
    assert forall i :: 0 <= i < n ==> rows[i] == BlankRow(columns, id + i);
    assert rows[..0] == [] && rows[0].cells[..0] == [] && rows[0].cells[0..] == rows[0].cells;
    assert Aligned(0, columns);
  }

  lemma FreshIsTyped(setup: Setup, d: Dimensions)
    requires DimensionsOk(d)
    ensures Inv(Initial(setup, d)) && Typed(Initial(setup, d), [], [])
  {
    hide Inv, Evolves, TypedPage, BlankRows;
    InitialInv(setup, d);
    InvGrid(Initial(setup, d));
    BlankPageIsTyped(d.columns, 1, d.rows);
    assert Page(Initial(setup, d)) == BlankRows(d.columns, 1, d.rows);
  }

  lemma FreshTypedRun(setup: Setup, d: Dimensions)
    requires DimensionsOk(d)
    ensures TypedRun(Some(Initial(setup, d)), setup, d.columns, DEFAULT_STYLE, [], [])
  {
    hide Inv, Typed;
    FreshIsTyped(setup, d);
    assert Laid([], d.columns) == [];
  }

  lemma TypedRunText(
    run: Option<Term>, setup: Setup, columns: nat, style: CellStyle, done: seq<seq<RenderCell>>,
    raw: seq<RenderCell>) returns (blanks: nat)
    requires TypedRun(run, setup, columns, style, done, raw)
    ensures run.Some? && TextOf(Page(run.value)) == done + [Strip(Laid(raw, columns))] + NoLines(blanks)
  {
    hide Inv, TypedPage;
    var s := run.value;
    TypedText(Page(s), CursorRow(s), Extent(s), done, Laid(raw, columns));
    TypedPageFits(Page(s), CursorRow(s), Extent(s), done, Laid(raw, columns));
    blanks := |Page(s)| - CursorRow(s) - 1;
  }

  /** On a fresh screen of any size, whatever is typed in whatever styles: the text of all archived
      and visible rows is the typed lines as printing lays them out at that width, without trailing
      blanks, then empty lines. Wrapping and scrolling lose nothing and tear nothing. */
  lemma {:induction false} AutoWrapLaysOut(setup: Setup, d: Dimensions, lines: seq<seq<Key>>) returns (blanks: nat)
    requires DimensionsOk(d) && lines != []
    ensures var t := Run(Initial(setup, d), Typing(lines));
            && t.Some?
            && TextOf(Page(t.value)) == StrippedLines(setup, d.columns, lines, |lines|) + NoLines(blanks)
  {
    hide TypedRun, Typed, Inv, Next, TypedPage, CellsOf, PenAfter, PenAt;
    var n := |lines| - 1;
    var done := StrippedLines(setup, d.columns, lines, n);
    var raw := CellsOf(setup, d.columns, PenAt(lines, n), lines[n]);
    FreshTypedRun(setup, d);
    TypingIsTyped(Some(Initial(setup, d)), setup, d.columns, lines, n);
    assert lines[..n + 1] == lines;
    blanks := TypedRunText(Fold(Next, Some(Initial(setup, d)), Typing(lines)), setup, d.columns,
                           PenAt(lines, n + 1), done, raw);
    assert done + [Strip(Laid(raw, d.columns))] == StrippedLines(setup, d.columns, lines, |lines|);
  }

  /* ----- lines of narrow characters ----- */

  ghost predicate Narrow(setup: Setup, line: seq<Key>) {
    forall i :: 0 <= i < |line| && line[i].Glyph? ==> PrintableWidth(setup, line[i].ch) == 1
  }

  /** One cell for each character, in the style of the pen at that point. */
  function NarrowCells(style: CellStyle, line: seq<Key>): seq<RenderCell> {
    if line == [] then []
    else
      var front, last := line[..|line| - 1], line[|line| - 1];
      NarrowCells(style, front) + if last.Glyph? then [TextCell(last.ch, 1, PenAfter(style, front))] else []
  }

  /** Narrow characters are laid out as they are, at every width. */
  lemma {:induction false} NarrowIsItself(setup: Setup, columns: nat, style: CellStyle, line: seq<Key>)
    requires columns > 0 && Narrow(setup, line)
    ensures CellsOf(setup, columns, style, line) == NarrowCells(style, line)
    ensures Laid(NarrowCells(style, line), columns) == NarrowCells(style, line)
    ensures NoWide(NarrowCells(style, line))
  {
    hide LastColumn, PenAfter, Laid;
    if line == [] {
      assert Laid([], columns) == [] by { LaidNothing(columns); }
    } else {
      var n := |line| - 1;
      var front := NarrowCells(style, line[..n]);
      NarrowIsItself(setup, columns, style, line[..n]);
      match line[n]
      case Glyph(ch) =>
        var cell := TextCell(ch, 1, PenAfter(style, line[..n]));
        LaidMore(front, cell, columns);
        assert CellsOfChar(setup, columns, PenAfter(style, line[..n]), ch) == [cell];
        assert NarrowCells(style, line) == front + [cell];
      case Pen(_) =>
        assert front + [] == front;
        assert NarrowCells(style, line) == front;
    }
  }

  lemma LaidNothing(columns: nat)
    requires columns > 0
    ensures Laid([], columns) == []
  {
  }

  function NarrowLines(lines: seq<seq<Key>>): seq<seq<RenderCell>> {
    seq(|lines|, i requires 0 <= i < |lines| => Strip(NarrowCells(PenAt(lines, i), lines[i])))
  }

  /** For narrow characters the text does not depend on the width: it is the typed lines. */
  lemma AutoWrapRoundTrip(setup: Setup, d: Dimensions, lines: seq<seq<Key>>) returns (blanks: nat)
    requires DimensionsOk(d) && lines != []
    requires forall i :: 0 <= i < |lines| ==> Narrow(setup, lines[i])
    ensures var t := Run(Initial(setup, d), Typing(lines));
            t.Some? && TextOf(Page(t.value)) == NarrowLines(lines) + NoLines(blanks)
  {
    hide Run, TextOf, Strip, Laid, NarrowCells, Narrow, CellsOf, PenAt;
    blanks := AutoWrapLaysOut(setup, d, lines);
    forall i | 0 <= i < |lines|
      ensures Laid(CellsOf(setup, d.columns, PenAt(lines, i), lines[i]), d.columns) ==
              NarrowCells(PenAt(lines, i), lines[i])
    {
      NarrowIsItself(setup, d.columns, PenAt(lines, i), lines[i]);
    }
    assert StrippedLines(setup, d.columns, lines, |lines|) == NarrowLines(lines);
  }

  /** Any number of reflows of those rows, at any widths, still reads the same. */
  lemma {:induction false} AutoWrapThenReflow(
    setup: Setup, d: Dimensions, lines: seq<seq<Key>>, steps: seq<ReflowStep>,
    id: nat) returns (blanks: nat)
    requires DimensionsOk(d) && lines != [] && StepsValid(steps)
    requires forall i :: 0 <= i < |lines| ==> Narrow(setup, lines[i])
    ensures var t := Run(Initial(setup, d), Typing(lines));
            t.Some? && TextOf(ReflowMany(Page(t.value), steps, id)) == NarrowLines(lines) + NoLines(blanks)
  {
    hide NarrowCells, PenAt;
    blanks := AutoWrapRoundTrip(setup, d, lines);
    var t := Run(Initial(setup, d), Typing(lines)).value;
    var text := TextOf(Page(t));
    assert |text| > 0;
    forall k | 0 <= k < |text| ensures NoWide(text[k]) {
      if k < |lines| {
        NarrowIsItself(setup, d.columns, PenAt(lines, k), lines[k]);
        assert text[k] == Strip(NarrowCells(PenAt(lines, k), lines[k]));
      }
    }
    assert Page(t) != [] by { LinesNotEmpty(Page(t)); }
    ReflowsKeepText(Page(t), steps, id);
  }
}
