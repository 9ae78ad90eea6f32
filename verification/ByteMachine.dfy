/** The chunked escape-stream adapter. OSC, APC and PM strings are intercepted before an external
    parser, which is a parameter: a step from one byte to callbacks. */
module ByteMachine {
  import opened RenderModel
  import opened Folds
  import opened Protocol

  /* ----- the external parser ----- */

  datatype Callback =
    | OnPrint(ch: char)
    | OnExecute(byte: byte)
    | OnHook(params: seq<CsiParam>, intermediates: seq<byte>, ignored: bool, action: char)
    | OnPut(byte: byte)
    | OnUnhook
    | OnOsc(parts: seq<seq<byte>>, bellTerminated: bool)
    | OnCsi(sequence: CsiSequence)
    | OnEsc(intermediates: seq<byte>, ignored: bool, byte: byte)

  datatype Parsed<P> = Parsed(parser: P, calls: seq<Callback>)

  type ByteParser<!P> = (P, byte) -> Parsed<P>

  /* ----- recording callbacks ----- */

  datatype DcsBuilder = DcsBuilder(
    params: seq<CsiParam>,
    intermediates: seq<byte>,
    ignored: bool,
    action: char,
    bytes: seq<byte>,
    originalLen: nat)

  /** What survives between calls: the open DCS, whether the next ST is private, the actions. */
  datatype Recorder = Recorder(dcs: Option<DcsBuilder>, suppressNextSt: bool, actions: seq<TerminalAction>)

  function PushByte(bytes: seq<byte>, b: byte): seq<byte> {
    if |bytes| < PAYLOAD_LIMIT then bytes + [b] else bytes
  }

  function FinishDcs(dcs: DcsBuilder): TerminalAction {
    Dcs(dcs.params, dcs.intermediates, dcs.ignored, dcs.action,
        FromLimitedBytes(dcs.bytes, dcs.originalLen, PAYLOAD_LIMIT))
  }

  function Emit(r: Recorder, action: TerminalAction): Recorder {
    r.(actions := r.actions + [action])
  }

  function Record(r: Recorder, call: Callback): Recorder {
    match call
    case OnPrint(ch) => Emit(r, Print(ch))
    case OnExecute(b) => Emit(r, Control(b))
    case OnHook(params, intermediates, ignored, action) =>
      r.(dcs := Some(DcsBuilder(params, intermediates, ignored, action, [], 0)))
    case OnPut(b) =>
      if r.dcs.None? then r
      else
        var dcs := r.dcs.value;
        r.(dcs := Some(dcs.(bytes := PushByte(dcs.bytes, b), originalLen := dcs.originalLen + 1)))
    case OnUnhook =>
      if r.dcs.None? then r
      else Emit(r, FinishDcs(r.dcs.value)).(dcs := None, suppressNextSt := true)
    case OnOsc(parts, bell) =>
      var e := Emit(r, Osc(Bounded(JoinParts(parts, 0x3b), PAYLOAD_LIMIT), bell));
      if bell then e else e.(suppressNextSt := true)
    case OnCsi(sequence) => Emit(r, Csi(sequence))
    case OnEsc(intermediates, ignored, b) =>
      if r.suppressNextSt && intermediates == [] && !ignored && b == BACKSLASH
      then r.(suppressNextSt := false)
      else Emit(r.(suppressNextSt := false), EscapeAction(intermediates, ignored, b))
  }

  /* ----- string controls ----- */

  datatype StringTarget = OscTarget | ApcTarget | PmTarget

  function TargetOf(b: byte): Option<StringTarget> {
    if b == 0x5d then Some(OscTarget)
    else if b == 0x5f then Some(ApcTarget)
    else if b == 0x5e then Some(PmTarget)
    else None
  }

  datatype Builder = Builder(target: StringTarget, bytes: seq<byte>, originalLen: nat, pendingEscape: bool)

  function NewBuilder(target: StringTarget): Builder {
    Builder(target, [], 0, false)
  }

  function PushPayload(s: Builder, b: byte): Builder {
    s.(bytes := PushByte(s.bytes, b), originalLen := s.originalLen + 1)
  }

  function Finish(s: Builder, bell: bool): TerminalAction {
    var payload := FromLimitedBytes(s.bytes, s.originalLen, PAYLOAD_LIMIT);
    match s.target
    case OscTarget => Osc(payload, bell)
    case ApcTarget => Str(ApplicationProgramCommand, payload)
    case PmTarget => Str(PrivacyMessage, payload)
  }

  datatype Consumed = More(builder: Builder) | Done(action: TerminalAction)

  function ConsumeByte(s: Builder, b: byte): Consumed {
    if s.pendingEscape then
      if b == BACKSLASH then Done(Finish(s.(pendingEscape := false), false))
      else More(PushPayload(PushPayload(s.(pendingEscape := false), ESC), b))
    else if s.target.OscTarget? && b == BEL then Done(Finish(s, true))
    else if b == ESC then More(s.(pendingEscape := true))
    else More(PushPayload(s, b))
  }

  /* ----- the adapter, one byte at a time ----- */

  datatype Adapter<P> = Adapter(parser: P, pendingEscape: bool, control: Option<Builder>, recorder: Recorder)

  function FeedByte<P>(step: ByteParser<P>, a: Adapter<P>, b: byte): Adapter<P> {
    var parsed := step(a.parser, b);
    a.(parser := parsed.parser, recorder := Fold(Record, a.recorder, parsed.calls))
  }

  function Feed<P>(step: ByteParser<P>, a: Adapter<P>, bytes: seq<byte>): Adapter<P> {
    Fold((x: Adapter<P>, b: byte) => FeedByte(step, x, b), a, bytes)
  }

  /** An ESC is held back until the next byte tells whether it opens a string control. */
  function ByteStep<P>(step: ByteParser<P>, a: Adapter<P>, b: byte): Adapter<P> {
    if a.control.Some? then
      match ConsumeByte(a.control.value, b)
      case More(builder) => a.(control := Some(builder))
      case Done(action) => a.(control := None, recorder := Emit(a.recorder, action))
    else if a.pendingEscape then
      if b == ESC then FeedByte(step, a.(pendingEscape := false), ESC).(pendingEscape := true)
      else if a.recorder.dcs.None? && TargetOf(b).Some? then
        a.(pendingEscape := false, control := Some(NewBuilder(TargetOf(b).value)))
      else Feed(step, a.(pendingEscape := false), [ESC, b])
    else if b == ESC then a.(pendingEscape := true)
    else FeedByte(step, a, b)
  }

  function ByteRun<P>(step: ByteParser<P>, a: Adapter<P>, bytes: seq<byte>): Adapter<P> {
    Fold((x: Adapter<P>, b: byte) => ByteStep(step, x, b), a, bytes)
  }

  /** What one call does: the byte machine, except that a chunk starting with ESC while an ESC is
      held passes both to the parser. */
  function Advanced<P>(step: ByteParser<P>, a: Adapter<P>, bytes: seq<byte>): Adapter<P> {
    if a.pendingEscape && bytes != [] && bytes[0] == ESC then
      ByteRun(step, Feed(step, a.(pendingEscape := false), [ESC, ESC]), bytes[1..])
    else ByteRun(step, a, bytes)
  }

  /** An ESC is never held inside a string control. */
  predicate Consistent<P>(a: Adapter<P>) {
    a.pendingEscape ==> a.control.None?
  }

  /* ----- facts about the byte machine ----- */

  lemma NoBytes<P>(step: ByteParser<P>, a: Adapter<P>)
    ensures Feed(step, a, []) == a && ByteRun(step, a, []) == a
  {
  }

  lemma FeedConcat<P>(step: ByteParser<P>, a: Adapter<P>, xs: seq<byte>, ys: seq<byte>)
    ensures Feed(step, a, xs + ys) == Feed(step, Feed(step, a, xs), ys)
  {
    FoldConcat((x: Adapter<P>, b: byte) => FeedByte(step, x, b), a, xs, ys);
  }

  lemma FeedOne<P>(step: ByteParser<P>, a: Adapter<P>, b: byte)
    ensures Feed(step, a, [b]) == FeedByte(step, a, b)
  {
    FoldOne((x: Adapter<P>, c: byte) => FeedByte(step, x, c), a, b);
  }

  lemma ByteRunConcat<P>(step: ByteParser<P>, a: Adapter<P>, xs: seq<byte>, ys: seq<byte>)
    ensures ByteRun(step, a, xs + ys) == ByteRun(step, ByteRun(step, a, xs), ys)
  {
    FoldConcat((x: Adapter<P>, b: byte) => ByteStep(step, x, b), a, xs, ys);
  }

  lemma ByteRunOne<P>(step: ByteParser<P>, a: Adapter<P>, b: byte)
    ensures ByteRun(step, a, [b]) == ByteStep(step, a, b)
  {
    FoldOne((x: Adapter<P>, c: byte) => ByteStep(step, x, c), a, b);
  }

  /** The adapter after a call has joined a held ESC with the first byte of its chunk. */
  function AfterHeldEscape<P>(step: ByteParser<P>, a: Adapter<P>, b: byte): Adapter<P> {
    var open := a.(pendingEscape := false);
    if open.recorder.dcs.None? && TargetOf(b).Some? then open.(control := Some(NewBuilder(TargetOf(b).value)))
    else Feed(step, open, [ESC, b])
  }

  lemma HeldEscapeJoins<P>(step: ByteParser<P>, a: Adapter<P>, bytes: seq<byte>)
    requires a.pendingEscape && a.control.None? && bytes != []
    ensures Advanced(step, a, bytes) == ByteRun(step, AfterHeldEscape(step, a, bytes[0]), bytes[1..])
  {
    hide Feed, FeedByte, ByteRun;
    assert bytes == [bytes[0]] + bytes[1..];
    ByteRunConcat(step, a, [bytes[0]], bytes[1..]);
    ByteRunOne(step, a, bytes[0]);
  }

  lemma {:induction false} FeedKeepsMode<P>(step: ByteParser<P>, a: Adapter<P>, bytes: seq<byte>)
    ensures Feed(step, a, bytes).pendingEscape == a.pendingEscape
    ensures Feed(step, a, bytes).control == a.control
  {
    if bytes == [] {
    } else {
      FeedKeepsMode(step, a, bytes[..|bytes| - 1]);
    }
  }

  lemma {:induction false} ByteRunConsistent<P>(step: ByteParser<P>, a: Adapter<P>, bytes: seq<byte>)
    requires Consistent(a)
    ensures Consistent(ByteRun(step, a, bytes))
  {
    if bytes == [] {
    } else {
      var n := |bytes| - 1;
      ByteRunConsistent(step, a, bytes[..n]);
      FeedKeepsMode(step, ByteRun(step, a, bytes[..n]).(pendingEscape := false), [ESC, bytes[n]]);
    }
  }

  lemma ByteRunNext<P>(step: ByteParser<P>, a: Adapter<P>, bytes: seq<byte>, i: nat)
    requires i < |bytes|
    ensures ByteRun(step, a, bytes[..i + 1]) == ByteStep(step, ByteRun(step, a, bytes[..i]), bytes[i])
  {
    assert bytes[..i + 1] == bytes[..i] + [bytes[i]];
    ByteRunConcat(step, a, bytes[..i], [bytes[i]]);
    ByteRunOne(step, ByteRun(step, a, bytes[..i]), bytes[i]);
  }

  /* ----- a call in progress: part of the chunk has not reached the parser yet ----- */

  /** The byte machine after `bytes[..index]`, seen from an adapter that has passed on everything
      before `chunkStart`: what is left is either plain bytes, or one ESC that opens nothing. */
  ghost predicate Behind<P>(
    step: ByteParser<P>, start: Adapter<P>, bytes: seq<byte>, cur: Adapter<P>, chunkStart: nat,
    index: nat) {
    && chunkStart <= index <= |bytes| && !cur.pendingEscape
    && var m := ByteRun(step, start, bytes[..index]);
    && (cur.control.Some? ==> chunkStart == index)
    && if chunkStart < index && bytes[index - 1] == ESC then
         && chunkStart == index - 1 && index < |bytes|
         && (cur.recorder.dcs.Some? || TargetOf(bytes[index]).None?)
         && m == cur.(pendingEscape := true)
       else m == Feed(step, cur, bytes[chunkStart..index])
  }

  /** A byte that is not an ESC joins the unparsed chunk. */
  lemma {:induction false} PlainByte<P>(
    step: ByteParser<P>, start: Adapter<P>, bytes: seq<byte>, cur: Adapter<P>, chunkStart: nat,
    index: nat)
    requires Behind(step, start, bytes, cur, chunkStart, index)
    requires cur.control.None? && index < |bytes| && bytes[index] != ESC
    ensures Behind(step, start, bytes, cur, chunkStart, index + 1)
  {
    var b := bytes[index];
    ByteRunNext(step, start, bytes, index);
    var chunk := bytes[chunkStart..index];
    assert bytes[chunkStart..index + 1] == chunk + [b];
    if chunkStart < index && bytes[index - 1] == ESC {
      assert bytes[chunkStart..index + 1] == [ESC, b];
    } else {
      FeedKeepsMode(step, cur, chunk);
      FeedConcat(step, cur, chunk, [b]);
      FeedOne(step, Feed(step, cur, chunk), b);
    }
  }

  /** At an ESC the chunk before it is parsed; then the machine holds the ESC. */
  lemma {:induction false} EscapeByte<P>(
    step: ByteParser<P>, start: Adapter<P>, bytes: seq<byte>, cur: Adapter<P>, chunkStart: nat,
    index: nat)
    requires Behind(step, start, bytes, cur, chunkStart, index)
    requires cur.control.None? && index < |bytes| && bytes[index] == ESC
    ensures var flushed := Feed(step, cur, bytes[chunkStart..index]);
            && !flushed.pendingEscape && flushed.control.None?
            && ByteRun(step, start, bytes[..index + 1]) == flushed.(pendingEscape := true)
  {
    var chunk := bytes[chunkStart..index];
    ByteRunNext(step, start, bytes, index);
    FeedKeepsMode(step, cur, chunk);
    if chunkStart < index && bytes[index - 1] == ESC {
      assert chunk == [ESC];
      FeedOne(step, cur, ESC);
    }
  }

  lemma CaughtUp<P>(step: ByteParser<P>, start: Adapter<P>, bytes: seq<byte>, cur: Adapter<P>, index: nat)
    requires index <= |bytes| && !cur.pendingEscape && cur == ByteRun(step, start, bytes[..index])
    ensures Behind(step, start, bytes, cur, index, index)
  {
    assert bytes[index..index] == [];
    NoBytes(step, cur);
  }

  /** While a string is open nothing is left unparsed. */
  lemma StringIsCaughtUp<P>(
    step: ByteParser<P>, start: Adapter<P>, bytes: seq<byte>, cur: Adapter<P>, chunkStart: nat,
    index: nat, next: nat)
    requires Behind(step, start, bytes, cur, chunkStart, index) && cur.control.Some?
    requires index <= next <= |bytes|
    ensures ByteRun(step, start, bytes[..next]) == ByteRun(step, cur, bytes[index..next])
  {
    assert bytes[index..index] == [];
    NoBytes(step, cur);
    assert bytes[..index] + bytes[index..next] == bytes[..next];
    ByteRunConcat(step, start, bytes[..index], bytes[index..next]);
  }

  /** The byte after a held ESC opens a string control. */
  lemma OpensString<P>(step: ByteParser<P>, start: Adapter<P>, bytes: seq<byte>, cur: Adapter<P>, index: nat)
    requires index + 1 < |bytes| && !cur.pendingEscape && cur.control.None?
    requires ByteRun(step, start, bytes[..index + 1]) == cur.(pendingEscape := true)
    requires cur.recorder.dcs.None? && TargetOf(bytes[index + 1]).Some?
    ensures ByteRun(step, start, bytes[..index + 2]) ==
            cur.(control := Some(NewBuilder(TargetOf(bytes[index + 1]).value)))
  {
    ByteRunNext(step, start, bytes, index + 1);
  }

  /** The byte after a held ESC opens nothing: the ESC stays in the chunk. */
  lemma OpensNothing<P>(step: ByteParser<P>, start: Adapter<P>, bytes: seq<byte>, cur: Adapter<P>, index: nat)
    requires index + 1 < |bytes| && !cur.pendingEscape && cur.control.None? && bytes[index] == ESC
    requires ByteRun(step, start, bytes[..index + 1]) == cur.(pendingEscape := true)
    requires cur.recorder.dcs.Some? || TargetOf(bytes[index + 1]).None?
    ensures Behind(step, start, bytes, cur, index, index + 1)
  {
  }

  lemma BehindEnd<P>(step: ByteParser<P>, start: Adapter<P>, bytes: seq<byte>, cur: Adapter<P>, chunkStart: nat)
    requires Behind(step, start, bytes, cur, chunkStart, |bytes|)
    ensures ByteRun(step, start, bytes) == Feed(step, cur, bytes[chunkStart..])
    ensures cur.control.Some? || chunkStart == |bytes| ==> ByteRun(step, start, bytes) == cur
  {
    assert bytes[..|bytes|] == bytes && bytes[chunkStart..|bytes|] == bytes[chunkStart..];
    NoBytes(step, cur);
  }
}
