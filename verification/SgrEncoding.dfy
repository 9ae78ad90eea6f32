/** SGR as a code: every style has a parameter list that selects it, from any style. */
module SgrEncoding {
  import opened RenderModel
  import opened Sgr

  predicate ColourFits(colour: Option<Color>) {
    match colour
    case None => true
    case Some(Indexed(i)) => i < 256
    case Some(Rgb(red, green, blue)) => red < 256 && green < 256 && blue < 256
  }

  predicate StyleFits(style: CellStyle) {
    ColourFits(style.foreground) && ColourFits(style.background)
  }

  function Flag(on: bool, code: nat): seq<nat> {
    if on then [code] else []
  }

  /** A colour in its shortest form; `base` is 30 for the foreground, 40 for the background. */
  function ColourCodes(base: nat, colour: Option<Color>): seq<nat> {
    match colour
    case None => []
    case Some(Indexed(i)) =>
      if i < 8 then [base + i] else if i < 16 then [base + 60 + (i - 8)] else [base + 8, 5, i]
    case Some(Rgb(red, green, blue)) => [base + 8, 2, red, green, blue]
  }

  /** The same, always in its long form. */
  function LongCodes(base: nat, colour: Option<Color>): seq<nat> {
    match colour
    case None => []
    case Some(Indexed(i)) => [base + 8, 5, i]
    case Some(Rgb(red, green, blue)) => [base + 8, 2, red, green, blue]
  }

  /** A list that selects the style: a reset, the attributes that are on, and both colours. */
  function Encoded(style: CellStyle, long: bool): seq<nat> {
    var fore := if long then LongCodes(30, style.foreground) else ColourCodes(30, style.foreground);
    var back := if long then LongCodes(40, style.background) else ColourCodes(40, style.background);
    [0] + Flag(style.bold, 1) + Flag(style.italic, 3) + Flag(style.underline, 4) + Flag(style.inverse, 7) + fore + back
  }

  lemma OneCode(style: CellStyle, code: nat)
    requires !IsColourCode(code)
    ensures AllGroupsComplete([code]) && Scan(style, [code]) == SetCode(style, code)
  {
    assert [code][1..] == [] && [code][..1] == [code];
  }

  lemma NoCodes(style: CellStyle)
    ensures AllGroupsComplete([]) && Scan(style, []) == style
  {
  }

  lemma OneGroup(style: CellStyle, group: seq<nat>)
    requires group != [] && !Incomplete(group) && GroupLen(group) == |group|
    ensures AllGroupsComplete(group) && Scan(style, group) == SetGroup(style, group)
  {
    ScanOneGroup(style, group);
    assert group[|group|..] == [];
  }

  lemma FlagIsRead(style: CellStyle, on: bool, code: nat)
    requires code == 1 || code == 3 || code == 4 || code == 7
    ensures AllGroupsComplete(Flag(on, code))
    ensures Scan(style, Flag(on, code)) == if on then SetCode(style, code) else style
  {
    if on { OneCode(style, code); } else { NoCodes(style); }
  }

  /** What `colour` makes of a style when it is given for the foreground or the background. */
  function Coloured(style: CellStyle, base: nat, colour: Option<Color>): CellStyle {
    if colour.None? then style
    else if base == 30 then style.(foreground := colour)
    else style.(background := colour)
  }

  lemma ColourIsRead(style: CellStyle, base: nat, colour: Option<Color>)
    requires (base == 30 || base == 40) && ColourFits(colour)
    ensures AllGroupsComplete(ColourCodes(base, colour)) && AllGroupsComplete(LongCodes(base, colour))
    ensures Scan(style, ColourCodes(base, colour)) == Coloured(style, base, colour)
    ensures Scan(style, LongCodes(base, colour)) == Coloured(style, base, colour)
  {
    match colour
    case None => NoCodes(style);
    case Some(Indexed(i)) =>
      OneGroup(style, [base + 8, 5, i]);
      if i < 8 { OneCode(style, base + i); }
      else if i < 16 { OneCode(style, base + 60 + (i - 8)); }
    case Some(Rgb(red, green, blue)) => OneGroup(style, [base + 8, 2, red, green, blue]);
  }

  lemma CompleteConcat(p: seq<nat>, q: seq<nat>)
    requires AllGroupsComplete(p) && AllGroupsComplete(q)
    ensures AllGroupsComplete(p + q)
    decreases |p|
  {
    if p == [] {
      assert p + q == q;
    } else {
      var n := GroupLen(p);
      assert GroupLen(p + q) == n && (p + q)[n..] == p[n..] + q;
      CompleteConcat(p[n..], q);
    }
  }

  /** Every style is selected by its list, whatever the style before; in either form of its colours. */
  lemma {:induction false} EncodedSelects(before: CellStyle, style: CellStyle, long: bool)
    requires StyleFits(style)
    ensures Styled(before, Encoded(style, long)) == style && AllGroupsComplete(Encoded(style, long))
  {
    hide Scan, AllGroupsComplete, SetCode, ColourCodes, LongCodes, Flag;
    var fore := if long then LongCodes(30, style.foreground) else ColourCodes(30, style.foreground);
    var back := if long then LongCodes(40, style.background) else ColourCodes(40, style.background);
    var bold, italic := Flag(style.bold, 1), Flag(style.italic, 3);
    var underline, inverse := Flag(style.underline, 4), Flag(style.inverse, 7);
    var s0 := SetCode(before, 0);
    var s1 := if style.bold then SetCode(s0, 1) else s0;
    var s2 := if style.italic then SetCode(s1, 3) else s1;
    var s3 := if style.underline then SetCode(s2, 4) else s2;
    var s4 := if style.inverse then SetCode(s3, 7) else s3;
    var s5 := Coloured(s4, 30, style.foreground);
    OneCode(before, 0);
    Append(before, [0], bold);
    FlagIsRead(s0, style.bold, 1);
    Append(before, [0] + bold, italic);
    FlagIsRead(s1, style.italic, 3);
    Append(before, [0] + bold + italic, underline);
    FlagIsRead(s2, style.underline, 4);
    Append(before, [0] + bold + italic + underline, inverse);
    FlagIsRead(s3, style.inverse, 7);
    Append(before, [0] + bold + italic + underline + inverse, fore);
    ColourIsRead(s4, 30, style.foreground);
    Append(before, [0] + bold + italic + underline + inverse + fore, back);
    ColourIsRead(s5, 40, style.background);
    AllSet(before, style);
  }

  lemma Append(style: CellStyle, p: seq<nat>, q: seq<nat>)
    ensures AllGroupsComplete(p) ==> Scan(style, p + q) == Scan(Scan(style, p), q)
    ensures AllGroupsComplete(p) && AllGroupsComplete(q) ==> AllGroupsComplete(p + q)
  {
    if AllGroupsComplete(p) {
      ScanSplits(style, p, q);
      if AllGroupsComplete(q) {
        CompleteConcat(p, q);
      }
    }
  }

  lemma AllSet(before: CellStyle, style: CellStyle)
    ensures var s0 := SetCode(before, 0);
            var s1 := if style.bold then SetCode(s0, 1) else s0;
            var s2 := if style.italic then SetCode(s1, 3) else s1;
            var s3 := if style.underline then SetCode(s2, 4) else s2;
            var s4 := if style.inverse then SetCode(s3, 7) else s3;
            Coloured(Coloured(s4, 30, style.foreground), 40, style.background) == style
  {
  }

  /** The codes that undo: one attribute goes back to its default, the others stay. */
  lemma OffCodesUndo(style: CellStyle)
    ensures Styled(style, [22]) == style.(bold := false)
    ensures Styled(style, [23]) == style.(italic := false)
    ensures Styled(style, [24]) == style.(underline := false)
    ensures Styled(style, [27]) == style.(inverse := false)
    ensures Styled(style, [39]) == style.(foreground := None)
    ensures Styled(style, [49]) == style.(background := None)
    ensures Styled(style, []) == DEFAULT_STYLE && Styled(style, [0]) == DEFAULT_STYLE
  {
    OneCode(style, 22);
    OneCode(style, 23);
    OneCode(style, 24);
    OneCode(style, 27);
    OneCode(style, 39);
    OneCode(style, 49);
    OneCode(style, 0);
  }

  /** Larger colour components count as 255. */
  lemma LargeComponentsAreCut(style: CellStyle, i: nat, red: nat, green: nat, blue: nat)
    ensures Styled(style, [38, 5, i]) == style.(foreground := Some(Indexed(Min(i, 255))))
    ensures Styled(style, [48, 2, red, green, blue]) ==
            style.(background := Some(Rgb(Min(red, 255), Min(green, 255), Min(blue, 255))))
  {
    OneGroup(style, [38, 5, i]);
    OneGroup(style, [48, 2, red, green, blue]);
  }
}
