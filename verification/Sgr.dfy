/** Select Graphic Rendition: a style is updated group by group (ECMA-48 section 8.3.117). */
module Sgr {
  import opened RenderModel
  import opened Protocol

  function Flatten(params: seq<CsiParam>): seq<nat> {
    if params == [] then [] else Flatten(params[..|params| - 1]) + params[|params| - 1].subparameters
  }

  function Clamp8(value: nat): nat {
    Min(value, 255)
  }

  predicate IsColourCode(code: nat) {
    code == 38 || code == 48
  }

  /** Length of the group at the front: 3 or 5 for a whole colour group, else 1. */
  function GroupLen(params: seq<nat>): (n: nat)
    requires params != []
    ensures 1 <= n <= |params|
  {
    if IsColourCode(params[0]) && |params| > 2 && params[1] == 5 then 3
    else if IsColourCode(params[0]) && |params| > 4 && params[1] == 2 then 5
    else 1
  }

  function WithColour(style: CellStyle, code: nat, colour: Color): CellStyle {
    if code == 38 then style.(foreground := Some(colour)) else style.(background := Some(colour))
  }

  function SetCode(style: CellStyle, code: nat): CellStyle {
    if code == 0 then DEFAULT_STYLE
    else if code == 1 then style.(bold := true)
    else if code == 3 then style.(italic := true)
    else if code == 4 then style.(underline := true)
    else if code == 7 then style.(inverse := true)
    else if code == 22 then style.(bold := false)
    else if code == 23 then style.(italic := false)
    else if code == 24 then style.(underline := false)
    else if code == 27 then style.(inverse := false)
    else if 30 <= code <= 37 then style.(foreground := Some(Indexed(code - 30)))
    else if 40 <= code <= 47 then style.(background := Some(Indexed(code - 40)))
    else if 90 <= code <= 97 then style.(foreground := Some(Indexed(code - 90 + 8)))
    else if 100 <= code <= 107 then style.(background := Some(Indexed(code - 100 + 8)))
    else if code == 39 then style.(foreground := None)
    else if code == 49 then style.(background := None)
    else style
  }

  function SetGroup(style: CellStyle, group: seq<nat>): CellStyle
    requires group != []
  {
    if |group| == 3 then WithColour(style, group[0], Indexed(Clamp8(group[2])))
    else if |group| == 5 then
      WithColour(style, group[0], Rgb(Clamp8(group[2]), Clamp8(group[3]), Clamp8(group[4])))
    else SetCode(style, group[0])
  }

  function Scan(style: CellStyle, params: seq<nat>): CellStyle
    decreases |params|
  {
    if params == [] then style
    else
      var n := GroupLen(params);
      Scan(SetGroup(style, params[..n]), params[n..])
  }

  /** An empty parameter list means a single 0. */
  function Styled(style: CellStyle, params: seq<nat>): CellStyle {
    Scan(style, if params == [] then [0] else params)
  }

  /** One turn of the loop over the parameters: the code at `index` and what belongs to it. */
  method ApplyGroup(style: CellStyle, params: seq<nat>, index: nat) returns (r: CellStyle, step: nat)
    requires index < |params|
    ensures step == GroupLen(params[index..]) && r == SetGroup(style, params[index..index + step])
  {
    var code := params[index];
    var colour: Color;
    if IsColourCode(code) && index + 2 < |params| && params[index + 1] == 5 {
      colour := Indexed(Clamp8(params[index + 2]));
      step := 3;
    } else if IsColourCode(code) && index + 4 < |params| && params[index + 1] == 2 {
      colour := Rgb(Clamp8(params[index + 2]), Clamp8(params[index + 3]), Clamp8(params[index + 4]));
      step := 5;
    } else {
      r := ApplyCode(style, code);
      return r, 1;
    }
    if code == 38 {
      r := style.(foreground := Some(colour));
    } else {
      r := style.(background := Some(colour));
    }
  }

  /** A code that stands alone. */
  method ApplyCode(style: CellStyle, code: nat) returns (r: CellStyle)
    ensures r == SetCode(style, code)
  {
    var foreground, background := style.foreground, style.background;
    var bold, italic, underline, inverse := style.bold, style.italic, style.underline, style.inverse;
    match code {
      case 0 =>
        foreground, background := None, None;
        bold, italic, underline, inverse := false, false, false, false;
      case 1 => bold := true;
      case 3 => italic := true;
      case 4 => underline := true;
      case 7 => inverse := true;
      case 22 => bold := false;
      case 23 => italic := false;
      case 24 => underline := false;
      case 27 => inverse := false;
      case 39 => foreground := None;
      case 49 => background := None;
      case _ =>
        if 30 <= code <= 37 {
          foreground := Some(Indexed(code - 30));
        } else if 40 <= code <= 47 {
          background := Some(Indexed(code - 40));
        } else if 90 <= code <= 97 {
          foreground := Some(Indexed(code - 90 + 8));
        } else if 100 <= code <= 107 {
          background := Some(Indexed(code - 100 + 8));
        }
    }
    r := CellStyle(foreground, background, bold, italic, underline, inverse);
  }

  method ApplySgr(style: CellStyle, sequence: seq<CsiParam>) returns (r: CellStyle)
    ensures r == Styled(style, Flatten(sequence))
  {
    var params := Flatten(sequence);
    if params == [] { params := [0]; }
    var index := 0;
    r := style;
    while index < |params|
      invariant index <= |params|
      invariant Scan(r, params[index..]) == Scan(style, params)
    {
      ghost var rest := params[index..];
      var step;
      r, step := ApplyGroup(r, params, index);
      assert rest[..step] == params[index..index + step] && rest[step..] == params[index + step..];
      index := index + step;
    }
  }

  /* ----- splitting a sequence in two ----- */

  /** The front of `params` starts a 38/48 colour group that may need more parameters. */
  predicate Incomplete(params: seq<nat>)
    requires params != []
  {
    && IsColourCode(params[0])
    && (|| |params| == 1
        || (params[1] == 5 && |params| < 3)
        || (params[1] == 2 && |params| < 5))
  }

  /** Scanning `params` never meets an incomplete colour group. */
  predicate AllGroupsComplete(params: seq<nat>)
    decreases |params|
  {
    params == [] || (!Incomplete(params) && AllGroupsComplete(params[GroupLen(params)..]))
  }

  lemma {:induction false} ScanSplits(style: CellStyle, p: seq<nat>, q: seq<nat>)
    requires AllGroupsComplete(p)
    ensures Scan(style, p + q) == Scan(Scan(style, p), q)
    decreases |p|
  {
    if p == [] {
      assert p + q == q;
    } else {
      var n := GroupLen(p);
      assert GroupLen(p + q) == n;
      assert (p + q)[..n] == p[..n] && (p + q)[n..] == p[n..] + q;
      ScanSplits(SetGroup(style, p[..n]), p[n..], q);
    }
  }

  /** Codes without a meaning of their own. */
  predicate Ignorable(q: seq<nat>) {
    forall i :: 0 <= i < |q| ==> q[i] == 5 || q[i] == 60 || q[i] == 61
  }

  lemma {:induction false} ScanIgnores(style: CellStyle, q: seq<nat>)
    requires Ignorable(q)
    ensures Scan(style, q) == style
  {
    if q == [] {
    } else {
      ScanIgnores(style, q[1..]);
    }
  }

  lemma ScanOneGroup(style: CellStyle, params: seq<nat>)
    requires params != [] && GroupLen(params) == |params|
    ensures Scan(style, params) == SetGroup(style, params)
  {
    assert params[..|params|] == params && params[|params|..] == [];
  }

  /** After an incomplete group some continuation is read differently in one piece and in two. */
  lemma {:induction false} IncompleteSplitDiffers(style: CellStyle, p: seq<nat>) returns (q: seq<nat>)
    requires !AllGroupsComplete(p)
    ensures q != [] && Scan(style, p + q) != Scan(Scan(style, p), q)
    decreases |p|
  {
    if Incomplete(p) {
      q := ColourCompletion(p, Scan(style, p));
      ScanIgnores(Scan(style, p), q);
      ScanOneGroup(style, p + q);
    } else {
      var n := GroupLen(p);
      q := IncompleteSplitDiffers(SetGroup(style, p[..n]), p[n..]);
      assert GroupLen(p + q) == n;
      assert (p + q)[..n] == p[..n] && (p + q)[n..] == p[n..] + q;
    }
  }

  /** Parameters that complete the group and choose a colour that `apart` does not have. */
  lemma ColourCompletion(p: seq<nat>, apart: CellStyle) returns (q: seq<nat>)
    requires p != [] && Incomplete(p)
    ensures q != [] && Ignorable(q) && GroupLen(p + q) == |p + q|
    ensures forall style :: SetGroup(style, p + q) != apart
  {
    var target := if p[0] == 38 then apart.foreground else apart.background;
    if |p| == 1 {
      q := if target == Some(Indexed(60)) then [5, 61] else [5, 60];
    } else if p[1] == 5 {
      q := if target == Some(Indexed(60)) then [61] else [60];
    } else {
      var blue := if target.Some? && target.value.Rgb? && target.value.blue == 60 then 61 else 60;
      q := if |p| == 2 then [60, 60, blue] else if |p| == 3 then [60, blue] else [blue];
    }
  }

  /** A nonempty list can be applied in two pieces, whatever follows, exactly when its scan leaves
      no colour group incomplete. */
  lemma SplitIffComplete(p: seq<nat>)
    requires p != []
    ensures AllGroupsComplete(p) <==>
            forall style, q :: q != [] ==> Styled(style, p + q) == Styled(Styled(style, p), q)
  {
    if AllGroupsComplete(p) {
      forall style, q: seq<nat> | q != []
        ensures Styled(style, p + q) == Styled(Styled(style, p), q)
      {
        ScanSplits(style, p, q);
      }
    } else {
      var q := IncompleteSplitDiffers(DEFAULT_STYLE, p);
      assert Styled(DEFAULT_STYLE, p + q) != Styled(Styled(DEFAULT_STYLE, p), q);
    }
  }

  /* ----- what a group does ----- */

  datatype Attribute = Foreground | Background | Bold | Italic | Underline | Inverse

  /** The attribute that a group sets or clears; none for a reset and for codes without a meaning. */
  function AttributeOf(group: seq<nat>): Option<Attribute>
    requires group != []
  {
    var code := group[0];
    if |group| == 3 || |group| == 5 then Some(if code == 38 then Foreground else Background)
    else if code == 1 || code == 22 then Some(Bold)
    else if code == 3 || code == 23 then Some(Italic)
    else if code == 4 || code == 24 then Some(Underline)
    else if code == 7 || code == 27 then Some(Inverse)
    else if 30 <= code <= 37 || 90 <= code <= 97 || code == 39 then Some(Foreground)
    else if 40 <= code <= 47 || 100 <= code <= 107 || code == 49 then Some(Background)
    else None
  }

  /** `style` with one attribute taken from another style. */
  function With(style: CellStyle, attribute: Attribute, from: CellStyle): CellStyle {
    match attribute
    case Foreground => style.(foreground := from.foreground)
    case Background => style.(background := from.background)
    case Bold => style.(bold := from.bold)
    case Italic => style.(italic := from.italic)
    case Underline => style.(underline := from.underline)
    case Inverse => style.(inverse := from.inverse)
  }

  /** A group sets its attribute, to a value that does not depend on the style, and nothing else. */
  lemma GroupSetsItsAttribute(style: CellStyle, g: seq<nat>)
    requires g != []
    ensures AttributeOf(g).Some? ==> SetGroup(style, g) == With(style, AttributeOf(g).value, SetGroup(DEFAULT_STYLE, g))
    ensures AttributeOf(g).None? ==> SetGroup(style, g) == if g[0] == 0 then DEFAULT_STYLE else style
  {
    hide Clamp8;
  }

  lemma WithTwice(style: CellStyle, a: Attribute, x: CellStyle, y: CellStyle)
    ensures With(With(style, a, x), a, y) == With(style, a, y)
  {
  }

  lemma WithCommutes(style: CellStyle, a: Attribute, b: Attribute, x: CellStyle, y: CellStyle)
    requires a != b
    ensures With(With(style, a, x), b, y) == With(With(style, b, y), a, x)
  {
    match a
    case Foreground =>
    case Background =>
    case Bold =>
    case Italic =>
    case Underline =>
    case Inverse =>
  }

  /** Of two groups for one attribute the later wins; groups for different attributes commute. */
  lemma LaterGroupWins(style: CellStyle, g: seq<nat>, h: seq<nat>)
    requires g != [] && h != []
    ensures AttributeOf(g).Some? && AttributeOf(g) == AttributeOf(h) ==>
              SetGroup(SetGroup(style, g), h) == SetGroup(style, h)
    ensures AttributeOf(g).Some? && AttributeOf(h).Some? && AttributeOf(g) != AttributeOf(h) ==>
              SetGroup(SetGroup(style, g), h) == SetGroup(SetGroup(style, h), g)
  {
    hide SetGroup, AttributeOf, With;
    GroupSetsItsAttribute(style, g);
    GroupSetsItsAttribute(style, h);
    GroupSetsItsAttribute(SetGroup(style, g), h);
    GroupSetsItsAttribute(SetGroup(style, h), g);
    if AttributeOf(g).Some? && AttributeOf(h).Some? {
      var a, b := AttributeOf(g).value, AttributeOf(h).value;
      var x, y := SetGroup(DEFAULT_STYLE, g), SetGroup(DEFAULT_STYLE, h);
      if a == b {
        WithTwice(style, a, x, y);
      } else {
        WithCommutes(style, a, b, x, y);
      }
    }
  }

  /** A reset forgets everything before it. */
  lemma {:induction false} ResetForgets(style: CellStyle, p: seq<nat>, q: seq<nat>)
    requires AllGroupsComplete(p)
    ensures Scan(style, p + [0] + q) == Scan(DEFAULT_STYLE, q)
  {
    var rest := [0] + q;
    assert p + [0] + q == p + rest;
    ScanSplits(style, p, rest);
    assert rest[..1] == [0] && rest[1..] == q;
  }
}
