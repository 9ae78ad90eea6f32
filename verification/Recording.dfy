/** What the callbacks of the parser become. */
module Recording {
  import opened RenderModel
  import opened Folds
  import opened Protocol
  import opened ByteMachine

  const ST := OnEsc([], false, BACKSLASH)

  function Puts(bytes: seq<byte>): (calls: seq<Callback>)
    ensures |calls| == |bytes|
  {
    seq(|bytes|, i requires 0 <= i < |bytes| => OnPut(bytes[i]))
  }

  /** The callbacks of a whole device control string, up to its terminator. */
  function DcsCalls(
    params: seq<CsiParam>, intermediates: seq<byte>, ignored: bool, action: char,
    bytes: seq<byte>): seq<Callback>
  {
    [OnHook(params, intermediates, ignored, action)] + Puts(bytes) + [OnUnhook, ST]
  }

  lemma {:induction false} PutsFill(r: Recorder, dcs: DcsBuilder, bytes: seq<byte>)
    requires r.dcs == Some(dcs) && dcs.bytes == [] && dcs.originalLen == 0
    ensures Fold(Record, r, Puts(bytes)) ==
            r.(dcs := Some(dcs.(bytes := Take(bytes, PAYLOAD_LIMIT), originalLen := |bytes|)))
  {
    if bytes == [] {
      assert Take(bytes, PAYLOAD_LIMIT) == [];
    } else {
      var n := |bytes| - 1;
      PutsFill(r, dcs, bytes[..n]);
      assert Puts(bytes)[..n] == Puts(bytes[..n]);
      assert Take(bytes, PAYLOAD_LIMIT) == PushByte(Take(bytes[..n], PAYLOAD_LIMIT), bytes[n]);
    }
  }

  lemma RecordTwo(r: Recorder, a: Callback, b: Callback)
    ensures Fold(Record, r, [a, b]) == Record(Record(r, a), b)
  {
    FoldConcat(Record, r, [a], [b]);
    FoldOne(Record, r, a);
    FoldOne(Record, Record(r, a), b);
    assert [a] + [b] == [a, b];
  }

  /** A device control string is one action with its payload bounded, whatever its length. The
      terminator that ends it is not reported; one more terminator is. */
  lemma DcsIsOneAction(
    r: Recorder, params: seq<CsiParam>, intermediates: seq<byte>, ignored: bool, action: char,
    bytes: seq<byte>)
    ensures var done := Fold(Record, r, DcsCalls(params, intermediates, ignored, action, bytes));
            var dcs := Dcs(params, intermediates, ignored, action, Bounded(bytes, PAYLOAD_LIMIT));
            && done == Recorder(None, false, r.actions + [dcs])
            && Record(done, ST).actions == r.actions + [dcs, EscapeAction([], false, BACKSLASH)]
  {
    var hook := OnHook(params, intermediates, ignored, action);
    var hooked := Record(r, hook);
    FoldConcat(Record, r, [hook] + Puts(bytes), [OnUnhook, ST]);
    FoldConcat(Record, r, [hook], Puts(bytes));
    FoldOne(Record, r, hook);
    PutsFill(hooked, hooked.dcs.value, bytes);
    var filled := Fold(Record, hooked, Puts(bytes));
    RecordTwo(filled, OnUnhook, ST);
    var dcs := Dcs(params, intermediates, ignored, action, Bounded(bytes, PAYLOAD_LIMIT));
    assert r.actions + [dcs] + [EscapeAction([], false, BACKSLASH)] ==
           r.actions + [dcs, EscapeAction([], false, BACKSLASH)];
  }

  /** An operating system command that the parser reports is one action too. Ended by ST, it keeps
      that terminator private; ended by BEL, the next terminator is reported. */
  lemma OscIsOneAction(r: Recorder, parts: seq<seq<byte>>)
    ensures var payload := Bounded(JoinParts(parts, 0x3b), PAYLOAD_LIMIT);
            var done := Fold(Record, r, [OnOsc(parts, false), ST]);
            && done == r.(suppressNextSt := false, actions := r.actions + [Osc(payload, false)])
            && Record(done, ST).actions ==
               r.actions + [Osc(payload, false), EscapeAction([], false, BACKSLASH)]
            && Record(r, OnOsc(parts, true)) == r.(actions := r.actions + [Osc(payload, true)])
  {
    RecordTwo(r, OnOsc(parts, false), ST);
    var payload := Bounded(JoinParts(parts, 0x3b), PAYLOAD_LIMIT);
    assert r.actions + [Osc(payload, false)] + [EscapeAction([], false, BACKSLASH)] ==
           r.actions + [Osc(payload, false), EscapeAction([], false, BACKSLASH)];
  }

  predicate NoEscape(calls: seq<Callback>) {
    forall i :: 0 <= i < |calls| ==> !calls[i].OnEsc? && !calls[i].OnUnhook? && !calls[i].OnOsc?
  }

  /** A private terminator stays private whatever comes first, and any other escape sequence ends
      the wait and is reported. */
  lemma {:induction false} TerminatorStaysPrivate(r: Recorder, calls: seq<Callback>)
    requires r.suppressNextSt && NoEscape(calls)
    ensures var u := Fold(Record, r, calls);
            && u.suppressNextSt
            && Record(u, ST) == u.(suppressNextSt := false)
            && forall intermediates, ignored, b :: OnEsc(intermediates, ignored, b) != ST ==>
                 Record(u, OnEsc(intermediates, ignored, b)) ==
                 u.(suppressNextSt := false, actions := u.actions + [EscapeAction(intermediates, ignored, b)])
  {
    if calls == [] {
    } else {
      TerminatorStaysPrivate(r, calls[..|calls| - 1]);
    }
  }

  /** Characters, controls and CSI sequences are reported at once and in order, also inside a string. */
  lemma {:induction false} ReportedInOrder(r: Recorder, calls: seq<Callback>)
    requires forall i :: 0 <= i < |calls| ==> calls[i].OnPrint? || calls[i].OnExecute? || calls[i].OnCsi?
    ensures Fold(Record, r, calls) == r.(actions := r.actions + PlainActions(calls))
  {
    if calls == [] {
      assert r.actions + [] == r.actions;
    } else {
      var n := |calls| - 1;
      ReportedInOrder(r, calls[..n]);
      assert PlainActions(calls) == PlainActions(calls[..n]) + [PlainAction(calls[n])];
    }
  }

  function PlainAction(call: Callback): TerminalAction
    requires call.OnPrint? || call.OnExecute? || call.OnCsi?
  {
    if call.OnPrint? then Print(call.ch) else if call.OnExecute? then Control(call.byte) else Csi(call.sequence)
  }

  function PlainActions(calls: seq<Callback>): seq<TerminalAction>
    requires forall i :: 0 <= i < |calls| ==> calls[i].OnPrint? || calls[i].OnExecute? || calls[i].OnCsi?
  {
    seq(|calls|, i requires 0 <= i < |calls| => PlainAction(calls[i]))
  }

  /** Payload bytes and the end of a device control string that is not open change nothing. */
  lemma StrayCallsChangeNothing(r: Recorder, b: byte)
    requires r.dcs.None?
    ensures Fold(Record, r, [OnPut(b), OnUnhook]) == r
  {
    RecordTwo(r, OnPut(b), OnUnhook);
  }

  /* ----- the parts of an OSC ----- */

  /** Cut at every separator. */
  function Parts(bytes: seq<byte>, separator: byte): (parts: seq<seq<byte>>)
    ensures parts != []
  {
    if bytes == [] then [[]]
    else
      var front, last := Parts(bytes[..|bytes| - 1], separator), bytes[|bytes| - 1];
      var n := |front| - 1;
      if last == separator then front + [[]] else front[..n] + [front[n] + [last]]
  }

  /** The last part gets more bytes. */
  function Grown(parts: seq<seq<byte>>, more: seq<byte>): seq<seq<byte>>
    requires parts != []
  {
    parts[..|parts| - 1] + [parts[|parts| - 1] + more]
  }

  lemma GrowsByByte(before: seq<byte>, b: byte, separator: byte)
    requires b != separator
    ensures Parts(before + [b], separator) == Grown(Parts(before, separator), [b])
  {
    assert (before + [b])[..|before|] == before;
  }

  lemma GrownTwice(parts: seq<seq<byte>>, a: seq<byte>, b: seq<byte>)
    requires parts != []
    ensures Grown(parts, []) == parts && Grown(Grown(parts, a), b) == Grown(parts, a + b)
  {
    var last := parts[|parts| - 1];
    assert last + a + b == last + (a + b) && last + [] == last;
    assert Grown(parts, a)[..|parts| - 1] == parts[..|parts| - 1];
  }

  lemma {:induction false} PartGrows(before: seq<byte>, part: seq<byte>, separator: byte)
    requires separator !in part
    ensures Parts(before + part, separator) == Grown(Parts(before, separator), part)
  {
    hide Parts, Grown;
    if part == [] {
      assert before + part == before;
      GrownTwice(Parts(before, separator), [], []);
    } else {
      var n := |part| - 1;
      PartGrows(before, part[..n], separator);
      assert before + part == before + part[..n] + [part[n]] && part == part[..n] + [part[n]];
      GrowsByByte(before + part[..n], part[n], separator);
      GrownTwice(Parts(before, separator), part[..n], [part[n]]);
    }
  }

  lemma SeparatorStartsPart(before: seq<byte>, separator: byte)
    ensures Parts(before + [separator], separator) == Parts(before, separator) + [[]]
  {
    assert (before + [separator])[..|before|] == before;
  }

  lemma OnePartMore(parts: seq<seq<byte>>, separator: byte)
    requires |parts| > 1 && separator !in parts[|parts| - 1]
    ensures Parts(JoinParts(parts, separator), separator) ==
            Parts(JoinParts(parts[..|parts| - 1], separator), separator) + [parts[|parts| - 1]]
  {
    hide Parts;
    var n := |parts| - 1;
    var front := JoinParts(parts[..n], separator);
    SeparatorStartsPart(front, separator);
    PartGrows(front + [separator], parts[n], separator);
    assert [] + parts[n] == parts[n];
  }

  /** The parts of an OSC are joined so that cutting at the separator gives them back. */
  lemma {:induction false} JoinedPartsComeApart(parts: seq<seq<byte>>, separator: byte)
    requires parts != [] && forall i :: 0 <= i < |parts| ==> separator !in parts[i]
    ensures Parts(JoinParts(parts, separator), separator) == parts
  {
    hide Parts, JoinParts, Grown;
    if |parts| == 1 {
      OnePart(parts[0], separator);
      assert parts == [parts[0]];
    } else {
      var n := |parts| - 1;
      JoinedPartsComeApart(parts[..n], separator);
      OnePartMore(parts, separator);
      assert parts == parts[..n] + [parts[n]];
    }
  }

  lemma OnePart(part: seq<byte>, separator: byte)
    requires separator !in part
    ensures Parts(JoinParts([part], separator), separator) == [part]
  {
    PartGrows([], part, separator);
    assert [] + part == part;
  }
}
