/** Where strings start and end in the byte stream. */
module Framing {
  import opened RenderModel
  import opened Folds
  import opened Protocol
  import opened ByteMachine
  import opened Chunking

  /** A payload that does not end the string: no BEL in an OSC, and after each ESC one byte that is not
      a backslash; that byte is payload whatever it is, even another ESC. */
  predicate Unterminated(target: StringTarget, payload: seq<byte>) {
    if payload == [] then true
    else if payload[0] == ESC then
      |payload| > 1 && payload[1] != BACKSLASH && Unterminated(target, payload[2..])
    else !(target.OscTarget? && payload[0] == BEL) && Unterminated(target, payload[1..])
  }

  function Introducer(target: StringTarget): byte {
    match target
    case OscTarget => 0x5d
    case ApcTarget => 0x5f
    case PmTarget => 0x5e
  }

  function StringAction(target: StringTarget, payload: Payload, bell: bool): TerminalAction {
    match target
    case OscTarget => Osc(payload, bell)
    case ApcTarget => Str(ApplicationProgramCommand, payload)
    case PmTarget => Str(PrivacyMessage, payload)
  }

  /** ESC, the introducer, the payload, ESC, backslash (ECMA-48 sections 8.3.89, 8.3.2, 8.3.94, 8.3.143). */
  function Framed(target: StringTarget, payload: seq<byte>): seq<byte> {
    [ESC, Introducer(target)] + payload + [ESC, BACKSLASH]
  }

  /** No string open, no DCS open, no ESC held. */
  predicate Idle<P>(a: Adapter<P>) {
    a.control.None? && !a.pendingEscape && a.recorder.dcs.None?
  }

  function Filled(target: StringTarget, payload: seq<byte>): Builder {
    Builder(target, Take(payload, PAYLOAD_LIMIT), |payload|, false)
  }

  lemma PushFills(target: StringTarget, before: seq<byte>, b: byte)
    ensures PushPayload(Filled(target, before), b) == Filled(target, before + [b])
  {
  }

  lemma {:induction false} PayloadFills<P>(
    step: ByteParser<P>, a: Adapter<P>, target: StringTarget, before: seq<byte>, payload: seq<byte>)
    requires Unterminated(target, payload) && a.control == Some(Filled(target, before))
    ensures ByteRun(step, a, payload) == a.(control := Some(Filled(target, before + payload)))
    decreases |payload|
  {
    hide ByteRun, Filled;
    FilledIsOpen(target, before);
    if payload == [] {
      NoBytes(step, a);
      assert before + [] == before;
    } else if payload[0] == ESC {
      var b, rest := payload[1], payload[2..];
      var filled := before + [ESC, b];
      PushFills(target, before, ESC);
      PushFills(target, before + [ESC], b);
      assert before + [ESC] + [b] == filled && payload == [ESC, b] + rest && filled + rest == before + payload;
      EscapedByte(step, a, b);
      ByteRunConcat(step, a, [ESC, b], rest);
      PayloadFills(step, a.(control := Some(Filled(target, filled))), target, filled, rest);
    } else {
      var b, rest := payload[0], payload[1..];
      PushFills(target, before, b);
      assert payload == [b] + rest && before + [b] + rest == before + payload;
      ByteRunOne(step, a, b);
      ByteRunConcat(step, a, [b], rest);
      PayloadFills(step, a.(control := Some(Filled(target, before + [b]))), target, before + [b], rest);
    }
  }

  lemma FilledIsOpen(target: StringTarget, payload: seq<byte>)
    ensures Filled(target, payload).target == target && !Filled(target, payload).pendingEscape
  {
  }

  /** Inside a string, ESC and a byte that is not a backslash are both payload. */
  lemma EscapedByte<P>(step: ByteParser<P>, a: Adapter<P>, b: byte)
    requires a.control.Some? && !a.control.value.pendingEscape && b != BACKSLASH
    ensures ByteRun(step, a, [ESC, b]) ==
            a.(control := Some(PushPayload(PushPayload(a.control.value, ESC), b)))
  {
    ByteRunTwo(step, a, ESC, b);
  }

  lemma ByteRunTwo<P>(step: ByteParser<P>, a: Adapter<P>, b: byte, c: byte)
    ensures ByteRun(step, a, [b, c]) == ByteStep(step, ByteStep(step, a, b), c)
  {
    hide ByteRun, ByteStep;
    assert [b, c] == [b] + [c];
    ByteRunConcat(step, a, [b], [c]);
    ByteRunOne(step, a, b);
    ByteRunOne(step, ByteStep(step, a, b), c);
  }

  lemma OpenString<P>(step: ByteParser<P>, a: Adapter<P>, target: StringTarget)
    requires Idle(a)
    ensures ByteRun(step, a, [ESC, Introducer(target)]) == a.(control := Some(Filled(target, [])))
  {
    ByteRunTwo(step, a, ESC, Introducer(target));
  }

  lemma CloseString<P>(step: ByteParser<P>, a: Adapter<P>, target: StringTarget, payload: seq<byte>)
    requires a.control == Some(Filled(target, payload))
    ensures ByteRun(step, a, [ESC, BACKSLASH]) ==
            a.(control := None,
               recorder := Emit(a.recorder, StringAction(target, Bounded(payload, PAYLOAD_LIMIT), false)))
    ensures target.OscTarget? ==>
              ByteRun(step, a, [BEL]) ==
              a.(control := None, recorder := Emit(a.recorder, Osc(Bounded(payload, PAYLOAD_LIMIT), true)))
  {
    ByteRunTwo(step, a, ESC, BACKSLASH);
    ByteRunOne(step, a, BEL);
  }

  /** A framed string becomes exactly one action, with its payload bounded; the parser sees none
      of its bytes. An OSC may also end with BEL. */
  lemma {:induction false} FramedStringIsOneAction<P>(
    step: ByteParser<P>, a: Adapter<P>, target: StringTarget, payload: seq<byte>)
    requires Idle(a) && Unterminated(target, payload)
    ensures ByteRun(step, a, Framed(target, payload)) ==
            a.(recorder := Emit(a.recorder, StringAction(target, Bounded(payload, PAYLOAD_LIMIT), false)))
    ensures target.OscTarget? ==>
              ByteRun(step, a, [ESC, Introducer(target)] + payload + [BEL]) ==
              a.(recorder := Emit(a.recorder, Osc(Bounded(payload, PAYLOAD_LIMIT), true)))
  {
    var started := a.(control := Some(Filled(target, [])));
    var filled := a.(control := Some(Filled(target, payload)));
    var opening := [ESC, Introducer(target)];
    OpenString(step, a, target);
    ByteRunConcat(step, a, opening, payload);
    PayloadFills(step, started, target, [], payload);
    assert [] + payload == payload;
    ByteRunConcat(step, a, opening + payload, [ESC, BACKSLASH]);
    ByteRunConcat(step, a, opening + payload, [BEL]);
    CloseString(step, filled, target, payload);
  }

  /* ----- the same in chunks ----- */

  /** Until its terminator is complete, the string stays open. */
  lemma {:induction false} StaysOpen<P>(
    step: ByteParser<P>, a: Adapter<P>, target: StringTarget, before: seq<byte>, payload: seq<byte>, n: nat)
    requires Unterminated(target, payload) && a.control == Some(Filled(target, before)) && n <= |payload| + 1
    ensures ByteRun(step, a, (payload + [ESC])[..n]).control.Some?
    decreases |payload|
  {
    hide ByteRun;
    var bytes := payload + [ESC];
    NoBytes(step, a);
    ByteRunOne(step, a, bytes[0]);
    if n == 0 {
    } else if n == 1 {
      assert bytes[..1] == [bytes[0]];
    } else if payload[0] == ESC {
      PushFills(target, before, ESC);
      PushFills(target, before + [ESC], payload[1]);
      EscapedByte(step, a, payload[1]);
      var u := a.(control := Some(Filled(target, before + [ESC] + [payload[1]])));
      StaysOpen(step, u, target, before + [ESC] + [payload[1]], payload[2..], n - 2);
      assert bytes[..n] == [ESC, payload[1]] + (payload[2..] + [ESC])[..n - 2];
      ByteRunConcat(step, a, [ESC, payload[1]], (payload[2..] + [ESC])[..n - 2]);
    } else {
      PushFills(target, before, payload[0]);
      var u := a.(control := Some(Filled(target, before + [payload[0]])));
      StaysOpen(step, u, target, before + [payload[0]], payload[1..], n - 1);
      assert bytes[..n] == [payload[0]] + (payload[1..] + [ESC])[..n - 1];
      ByteRunConcat(step, a, [payload[0]], (payload[1..] + [ESC])[..n - 1]);
    }
  }

  /** Of a framed string, only its first ESC is ever held back. */
  lemma HeldOnlyAtStart<P>(
    step: ByteParser<P>, a: Adapter<P>, target: StringTarget, payload: seq<byte>, n: nat)
    requires Idle(a) && Unterminated(target, payload) && n <= |Framed(target, payload)| && n != 1
    ensures !ByteRun(step, a, Framed(target, payload)[..n]).pendingEscape
  {
    hide ByteRun, Unterminated;
    var bytes, opening := Framed(target, payload), [ESC, Introducer(target)];
    if n == 0 {
      NoBytes(step, a);
    } else if n == |bytes| {
      assert bytes[..n] == bytes;
      FramedStringIsOneAction(step, a, target, payload);
    } else {
      OpenString(step, a, target);
      StaysOpen(step, a.(control := Some(Filled(target, []))), target, [], payload, n - 2);
      assert bytes[..n] == opening + (payload + [ESC])[..n - 2];
      ByteRunConcat(step, a, opening, (payload + [ESC])[..n - 2]);
      ByteRunConsistent(step, a, bytes[..n]);
    }
  }

  lemma {:induction false} FrontInChunks<P>(
    step: ByteParser<P>, a: Adapter<P>, target: StringTarget, payload: seq<byte>, chunks: seq<seq<byte>>)
    requires Idle(a) && Unterminated(target, payload) && Flatten(chunks) <= Framed(target, payload)
    ensures RunChunks(step, a, chunks) == ByteRun(step, a, Flatten(chunks))
  {
    hide ByteRun, Unterminated;
    if chunks == [] {
      NoBytes(step, a);
    } else {
      var n := |chunks| - 1;
      var front := Flatten(chunks[..n]);
      FrontInChunks(step, a, target, payload, chunks[..n]);
      assert front == Framed(target, payload)[..|front|];
      if |front| == 1 && chunks[n] != [] {
        assert chunks[n][0] == Flatten(chunks)[1] == Introducer(target);
      } else if |front| != 1 {
        HeldOnlyAtStart(step, a, target, payload, |front|);
      }
      ByteRunConcat(step, a, front, chunks[n]);
    }
  }

  /** However it is cut into chunks, a framed string is the same one action. */
  lemma {:induction false} FramedStringInChunks<P>(
    step: ByteParser<P>, a: Adapter<P>, target: StringTarget, payload: seq<byte>, chunks: seq<seq<byte>>)
    requires Idle(a) && Unterminated(target, payload) && Flatten(chunks) == Framed(target, payload)
    ensures RunChunks(step, a, chunks) ==
            a.(recorder := Emit(a.recorder, StringAction(target, Bounded(payload, PAYLOAD_LIMIT), false)))
  {
    FrontInChunks(step, a, target, payload, chunks);
    FramedStringIsOneAction(step, a, target, payload);
  }

  /* ----- everything else ----- */

  /** No ESC is followed by an introducer, and none is last. */
  predicate OpensNothing(bytes: seq<byte>) {
    forall i :: 0 <= i < |bytes| && bytes[i] == ESC ==>
                  i + 1 < |bytes| && bytes[i + 1] != 0x5d && bytes[i + 1] != 0x5e && bytes[i + 1] != 0x5f
  }

  lemma {:induction false} FrontPassesThrough<P>(step: ByteParser<P>, a: Adapter<P>, bytes: seq<byte>, n: nat)
    requires a.control.None? && !a.pendingEscape && OpensNothing(bytes) && n <= |bytes|
    ensures ByteRun(step, a, bytes[..n]) ==
            if n > 0 && bytes[n - 1] == ESC then Feed(step, a, bytes[..n - 1]).(pendingEscape := true)
            else Feed(step, a, bytes[..n])
  {
    hide ByteRun, Feed, FeedByte;
    if n == 0 {
      NoBytes(step, a);
    } else {
      var b := bytes[n - 1];
      FrontPassesThrough(step, a, bytes, n - 1);
      ByteRunNext(step, a, bytes, n - 1);
      FeedKeepsMode(step, a, bytes[..n - 1]);
      assert bytes[..n] == bytes[..n - 1] + [b];
      FeedConcat(step, a, bytes[..n - 1], [b]);
      FeedOne(step, Feed(step, a, bytes[..n - 1]), b);
      if n > 1 && bytes[n - 2] == ESC {
        var u := Feed(step, a, bytes[..n - 2]);
        FeedKeepsMode(step, a, bytes[..n - 2]);
        assert bytes[..n - 1] == bytes[..n - 2] + [ESC];
        FeedConcat(step, a, bytes[..n - 2], [ESC]);
        FeedOne(step, u, ESC);
        assert [ESC, b] == [ESC] + [b];
        FeedConcat(step, u, [ESC], [b]);
      }
    }
  }

  /** Bytes that open no string all reach the parser, in order. */
  lemma {:induction false} OthersPassThrough<P>(step: ByteParser<P>, a: Adapter<P>, bytes: seq<byte>)
    requires a.control.None? && !a.pendingEscape && OpensNothing(bytes)
    ensures ByteRun(step, a, bytes) == Feed(step, a, bytes)
  {
    FrontPassesThrough(step, a, bytes, |bytes|);
    assert bytes[..|bytes|] == bytes;
  }

  /** Inside a device control string nothing is intercepted: ESC and an introducer reach the parser. */
  lemma DcsIsNotIntercepted<P>(step: ByteParser<P>, a: Adapter<P>, b: byte)
    requires a.control.None? && !a.pendingEscape && a.recorder.dcs.Some? && b != ESC
    ensures ByteRun(step, a, [ESC, b]) == Feed(step, a, [ESC, b])
  {
    ByteRunTwo(step, a, ESC, b);
  }
}
