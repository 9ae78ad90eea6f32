/** The adapter as it runs: whole slices go to the parser, strings are consumed in place. */
module VteAdapter {
  import opened RenderModel
  import opened Folds
  import opened Protocol
  import opened ByteMachine

  class ActionSink {
    var actions: seq<TerminalAction>

    constructor ()
      ensures actions == []
    {
      actions := [];
    }

    method PushAction(action: TerminalAction)
      modifies this
      ensures actions == old(actions) + [action]
    {
      actions := actions + [action];
    }
  }

  class ActionRecorder {
    const sink: ActionSink
    var dcs: Option<DcsBuilder>
    var suppressNextSt: bool

    ghost function View(): Recorder
      reads this, sink
    {
      Recorder(dcs, suppressNextSt, sink.actions)
    }

    constructor (sink: ActionSink, dcs: Option<DcsBuilder>, suppressNextSt: bool)
      ensures this.sink == sink && View() == Recorder(dcs, suppressNextSt, sink.actions)
    {
      this.sink, this.dcs, this.suppressNextSt := sink, dcs, suppressNextSt;
    }

    /** One parser callback. */
    method Perform(call: Callback)
      modifies this, sink
      ensures View() == Record(old(View()), call)
    {
      match call
      case OnPrint(ch) => sink.PushAction(Print(ch));
      case OnExecute(b) => sink.PushAction(Control(b));
      case OnHook(params, intermediates, ignored, action) =>
        dcs := Some(DcsBuilder(params, intermediates, ignored, action, [], 0));
      case OnPut(b) =>
        if dcs.Some? {
          var open := dcs.value;
          dcs := Some(open.(originalLen := open.originalLen + 1, bytes := PushByte(open.bytes, b)));
        }
      case OnUnhook =>
        if dcs.Some? {
          var open := dcs.value;
          dcs := None;
          sink.PushAction(FinishDcs(open));
          suppressNextSt := true;
        }
      case OnOsc(parts, bell) =>
        var payload := BoundedJoin(parts, 0x3b, PAYLOAD_LIMIT);
        sink.PushAction(Osc(payload, bell));
        if !bell {
          suppressNextSt := true;
        }
      case OnCsi(sequence) => sink.PushAction(Csi(sequence));
      case OnEsc(intermediates, ignored, b) =>
        if suppressNextSt && intermediates == [] && !ignored && b == BACKSLASH {
          suppressNextSt := false;
          return;
        }
        suppressNextSt := false;
        sink.PushAction(EscapeAction(intermediates, ignored, b));
    }
  }

  class StringControlBuilder {
    const target: StringTarget
    var bytes: seq<byte>
    var originalLen: nat
    var pendingEscape: bool

    ghost function View(): Builder
      reads this
    {
      Builder(target, bytes, originalLen, pendingEscape)
    }

    constructor (target: StringTarget)
      ensures View() == NewBuilder(target)
    {
      this.target := target;
      bytes, originalLen, pendingEscape := [], 0, false;
    }

    method PushPayloadByte(b: byte)
      modifies this
      ensures View() == PushPayload(old(View()), b)
    {
      originalLen := originalLen + 1;
      if |bytes| < PAYLOAD_LIMIT {
        bytes := bytes + [b];
      }
    }

    /** Consume up to the terminator, or everything. */
    method Consume(input: seq<byte>) returns (consumed: nat, action: Option<TerminalAction>)
      modifies this
      ensures consumed <= |input|
      ensures action.None? ==> consumed == |input| && EatAll(old(View()), input) == More(View())
      ensures action.Some? ==>
                && consumed > 0 && EatAll(old(View()), input[..consumed]) == Done(action.value)
                && EatAll(old(View()), input[..consumed - 1]).More?
    {
      for offset := 0 to |input|
        invariant EatAll(old(View()), input[..offset]) == More(View())
      {
        var b := input[offset];
        assert input[..offset + 1] == input[..offset] + [b];
        EatOneMore(old(View()), input[..offset], b);
        if pendingEscape {
          pendingEscape := false;
          if b == BACKSLASH {
            return offset + 1, Some(Finish(Builder(target, bytes, originalLen, false), false));
          }
          PushPayloadByte(ESC);
          PushPayloadByte(b);
        } else if target.OscTarget? && b == BEL {
          return offset + 1, Some(Finish(Builder(target, bytes, originalLen, pendingEscape), true));
        } else if b == ESC {
          pendingEscape := true;
        } else {
          PushPayloadByte(b);
        }
      }
      assert input[..|input|] == input;
      return |input|, None;
    }
  }

  /* ----- consuming a string is what the byte machine does ----- */

  function Eat(c: Consumed, b: byte): Consumed {
    if c.More? then ConsumeByte(c.builder, b) else c
  }

  function EatAll(s: Builder, bytes: seq<byte>): Consumed {
    Fold(Eat, More(s), bytes)
  }

  lemma EatOneMore(s: Builder, bytes: seq<byte>, b: byte)
    ensures EatAll(s, bytes + [b]) == Eat(EatAll(s, bytes), b)
  {
    FoldConcat(Eat, More(s), bytes, [b]);
    FoldOne(Eat, EatAll(s, bytes), b);
  }

  /** Where a string control has got to, as an adapter state. */
  function AfterEating<P>(a: Adapter<P>, c: Consumed): Adapter<P> {
    match c
    case More(builder) => a.(control := Some(builder))
    case Done(action) => a.(control := None, recorder := Emit(a.recorder, action))
  }

  lemma {:induction false} EatingIsByteRun<P>(step: ByteParser<P>, a: Adapter<P>, bytes: seq<byte>)
    requires a.control.Some?
    requires bytes != [] ==> EatAll(a.control.value, bytes[..|bytes| - 1]).More?
    ensures ByteRun(step, a, bytes) == AfterEating(a, EatAll(a.control.value, bytes))
  {
    if bytes == [] {
    } else {
      var n := |bytes| - 1;
      var front, b := bytes[..n], bytes[n];
      assert bytes == front + [b];
      EatMoreBefore(a.control.value, front);
      EatingIsByteRun(step, a, front);
      ByteRunConcat(step, a, front, [b]);
      ByteRunOne(step, ByteRun(step, a, front), b);
      EatOneMore(a.control.value, front, b);
    }
  }

  lemma EatMoreBefore(s: Builder, bytes: seq<byte>)
    requires EatAll(s, bytes).More?
    ensures bytes != [] ==> EatAll(s, bytes[..|bytes| - 1]).More?
  {
    if bytes != [] {
      var n := |bytes| - 1;
      assert bytes == bytes[..n] + [bytes[n]];
      EatOneMore(s, bytes[..n], bytes[n]);
    }
  }

  /* ----- the adapter ----- */

  class VteAdapter<P> {
    const step: ByteParser<P>
    var parser: P
    var pendingEscape: bool
    var stringControl: StringControlBuilder?
    var dcs: Option<DcsBuilder>
    var suppressNextSt: bool

    constructor (step: ByteParser<P>, parser: P)
      ensures this.step == step && stringControl == null
      ensures View([]) == Adapter(parser, false, None, Recorder(None, false, []))
    {
      this.step, this.parser := step, parser;
      pendingEscape, stringControl, dcs, suppressNextSt := false, null, None, false;
    }

    ghost function Control(): Option<Builder>
      reads this, stringControl
    {
      if stringControl == null then None else Some(stringControl.View())
    }

    /** The adapter between calls, with the actions emitted so far. */
    ghost function View(actions: seq<TerminalAction>): Adapter<P>
      reads this, stringControl
    {
      Adapter(parser, pendingEscape, Control(), Recorder(dcs, suppressNextSt, actions))
    }

    /** The adapter during a call, when the recorder holds the DCS. */
    ghost function During(recorder: ActionRecorder): Adapter<P>
      reads this, stringControl, recorder, recorder.sink
    {
      Adapter(parser, pendingEscape, Control(), recorder.View())
    }

    method AdvanceParser(bytes: seq<byte>, recorder: ActionRecorder)
      modifies this`parser, recorder, recorder.sink
      ensures During(recorder) == Feed(step, old(During(recorder)), bytes)
    {
      ghost var start := During(recorder);
      for i := 0 to |bytes|
        invariant During(recorder) == Feed(step, start, bytes[..i])
      {
        ghost var before := During(recorder);
        var parsed := step(parser, bytes[i]);
        parser := parsed.parser;
        for k := 0 to |parsed.calls|
          invariant During(recorder) ==
            before.(parser := parsed.parser, recorder := Fold(Record, before.recorder, parsed.calls[..k]))
        {
          assert parsed.calls[..k + 1] == parsed.calls[..k] + [parsed.calls[k]];
          FoldConcat(Record, before.recorder, parsed.calls[..k], [parsed.calls[k]]);
          FoldOne(Record, Fold(Record, before.recorder, parsed.calls[..k]), parsed.calls[k]);
          recorder.Perform(parsed.calls[k]);
        }
        assert parsed.calls[..|parsed.calls|] == parsed.calls;
        assert During(recorder) == FeedByte(step, before, bytes[i]);
        assert bytes[..i + 1] == bytes[..i] + [bytes[i]];
        FeedConcat(step, start, bytes[..i], [bytes[i]]);
        FeedOne(step, before, bytes[i]);
      }
      assert bytes[..|bytes|] == bytes;
    }

    /** Let the open string control take its share of `bytes[index..]`. */
    method ConsumeString(bytes: seq<byte>, index: nat, recorder: ActionRecorder) returns (next: nat)
      requires index < |bytes| && stringControl != null && !pendingEscape
      modifies this`stringControl, stringControl, recorder.sink
      ensures index < next <= |bytes|
      ensures During(recorder) == ByteRun(step, old(During(recorder)), bytes[index..next])
      ensures !pendingEscape && (stringControl == null || stringControl == old(stringControl))
      ensures stringControl != null ==> next == |bytes|
    {
      ghost var before := During(recorder);
      var consumed, control := stringControl.Consume(bytes[index..]);
      next := index + consumed;
      ghost var slice := bytes[index..next];
      assert bytes[index..][..consumed] == slice;
      if control.Some? {
        assert slice[..|slice| - 1] == bytes[index..][..consumed - 1];
        stringControl := null;
        recorder.sink.PushAction(control.value);
      } else {
        assert slice == bytes[index..];
        EatMoreBefore(before.control.value, slice);
      }
      EatingIsByteRun(step, before, slice);
    }

    method AdvanceWithoutPendingEscape(bytes: seq<byte>, recorder: ActionRecorder)
      requires !pendingEscape
      modifies this, stringControl, recorder, recorder.sink
      ensures During(recorder) == ByteRun(step, old(During(recorder)), bytes)
    {
      hide Behind, ByteStep, ByteRun, Feed, FeedByte;
      ghost var start := During(recorder);
      var chunkStart, index := 0, 0;
      assert bytes[..0] == [];
      NoBytes(step, start);
      CaughtUp(step, start, bytes, start, 0);
      while index < |bytes|
        invariant 0 <= chunkStart <= index <= |bytes| && !pendingEscape
        invariant Behind(step, start, bytes, During(recorder), chunkStart, index)
        invariant stringControl == null || stringControl == old(stringControl) || fresh(stringControl)
      {
        ghost var cur := During(recorder);
        if stringControl != null {
          ghost var from, parsed := index, chunkStart;
          index := ConsumeString(bytes, index, recorder);
          chunkStart := index;
          StringIsCaughtUp(step, start, bytes, cur, parsed, from, index);
          CaughtUp(step, start, bytes, During(recorder), index);
          continue;
        }
        if bytes[index] == ESC {
          EscapeByte(step, start, bytes, cur, chunkStart, index);
          if chunkStart < index {
            AdvanceParser(bytes[chunkStart..index], recorder);
            chunkStart := index;
          } else {
            assert bytes[chunkStart..index] == [];
            NoBytes(step, cur);
          }
          if index + 1 == |bytes| {
            pendingEscape := true;
            assert bytes[..index + 1] == bytes;
            return;
          }
          if recorder.dcs.None? && TargetOf(bytes[index + 1]).Some? {
            OpensString(step, start, bytes, During(recorder), index);
            stringControl := new StringControlBuilder(TargetOf(bytes[index + 1]).value);
            index := index + 2;
            chunkStart := index;
            CaughtUp(step, start, bytes, During(recorder), index);
            continue;
          }
          OpensNothing(step, start, bytes, During(recorder), index);
        } else {
          PlainByte(step, start, bytes, cur, chunkStart, index);
        }
        index := index + 1;
      }
      BehindEnd(step, start, bytes, During(recorder), chunkStart);
      if stringControl == null && chunkStart < |bytes| {
        AdvanceParser(bytes[chunkStart..], recorder);
      }
    }

    /** One chunk of input. */
    method Advance(bytes: seq<byte>, sink: ActionSink)
      requires Consistent(View(sink.actions))
      modifies this, stringControl, sink
      ensures View(sink.actions) == Advanced(step, old(View(sink.actions)), bytes)
    {
      if pendingEscape && bytes == [] {
        return;
      }
      hide Behind, Feed, FeedByte, ByteRun, ByteStep;
      var recorder := new ActionRecorder(sink, dcs, suppressNextSt);
      ghost var start := During(recorder);
      assert start == View(sink.actions);
      if pendingEscape {
        pendingEscape := false;
        ghost var open := During(recorder);
        FeedKeepsMode(step, open, [ESC, bytes[0]]);
        HeldEscapeJoins(step, start, bytes);
        if recorder.dcs.Some? {
          AdvanceParser([ESC, bytes[0]], recorder);
          AdvanceWithoutPendingEscape(bytes[1..], recorder);
        } else if TargetOf(bytes[0]).Some? {
          stringControl := new StringControlBuilder(TargetOf(bytes[0]).value);
          AdvanceWithoutPendingEscape(bytes[1..], recorder);
        } else {
          AdvanceParser([ESC, bytes[0]], recorder);
          AdvanceWithoutPendingEscape(bytes[1..], recorder);
        }
      } else {
        AdvanceWithoutPendingEscape(bytes, recorder);
      }
      dcs := recorder.dcs;
      suppressNextSt := recorder.suppressNextSt;
    }
  }
}
