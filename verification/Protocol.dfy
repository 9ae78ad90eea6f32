/** Parser actions and bounded payloads, the boundary between the parser and the terminal state. */
module Protocol {
  import opened RenderModel

  type byte = b: int | 0 <= b < 256

  const ESC: byte := 0x1b
  const BEL: byte := 0x07
  const BACKSLASH: byte := 0x5c
  const PAYLOAD_LIMIT: nat := 4096

  datatype C0ControlKind =
    | Null | Bell | Backspace | HorizontalTab | LineFeed | VerticalTab
    | FormFeed | CarriageReturn | Escape | Delete | Other

  function ControlKind(b: byte): C0ControlKind {
    match b
    case 0x00 => Null
    case 0x07 => Bell
    case 0x08 => Backspace
    case 0x09 => HorizontalTab
    case 0x0a => LineFeed
    case 0x0b => VerticalTab
    case 0x0c => FormFeed
    case 0x0d => CarriageReturn
    case 0x1b => Escape
    case 0x7f => Delete
    case _ => Other
  }

  /** One CSI parameter with its colon-separated subparameters. */
  datatype CsiParam = CsiParam(subparameters: seq<nat>)

  datatype CsiSequence = CsiSequence(
    params: seq<CsiParam>,
    intermediates: seq<byte>,
    ignored: bool,
    action: char)

  datatype StringControlKind = ApplicationProgramCommand | PrivacyMessage

  datatype UnsupportedKind = ParserIgnored | OtherUnsupported

  datatype TerminalAction =
    | Print(ch: char)
    | Control(byte: byte)
    | EscapeAction(intermediates: seq<byte>, ignored: bool, finalByte: byte)
    | Csi(sequence: CsiSequence)
    | Osc(payload: Payload, bellTerminated: bool)
    | Dcs(params: seq<CsiParam>, intermediates: seq<byte>, ignored: bool, action: char, payload: Payload)
    | Str(kind: StringControlKind, payload: Payload)
    | Unsupported(unsupported: UnsupportedKind)

  /* ----- bounded payloads ----- */

  datatype PayloadStatus = Complete | Truncated(originalLen: nat, retainedLen: nat, limit: nat)

  datatype Payload = Payload(bytes: seq<byte>, originalLen: nat, status: PayloadStatus)

  function Take(bytes: seq<byte>, limit: nat): (r: seq<byte>)
    ensures |r| == Min(|bytes|, limit)
  {
    bytes[..Min(|bytes|, limit)]
  }

  function FromLimitedBytes(bytes: seq<byte>, originalLen: nat, limit: nat): Payload {
    var kept := Take(bytes, limit);
    Payload(
      kept, originalLen,
      if originalLen > |kept| || originalLen > limit
      then Truncated(originalLen, |kept|, limit) else Complete)
  }

  /** `Payload::bounded`: status `Complete` exactly when no byte was lost. */
  function Bounded(bytes: seq<byte>, limit: nat): (p: Payload)
    ensures p.bytes <= bytes && p.originalLen == |bytes|
    ensures p.status.Complete? <==> p.bytes == bytes
    ensures p.status.Complete? <==> |bytes| <= limit
    ensures |bytes| > limit ==> p == Payload(bytes[..limit], |bytes|, Truncated(|bytes|, limit, limit))
  {
    FromLimitedBytes(Take(bytes, limit), |bytes|, limit)
  }

  function JoinParts(parts: seq<seq<byte>>, separator: byte): seq<byte> {
    if parts == [] then []
    else if |parts| == 1 then parts[0]
    else JoinParts(parts[..|parts| - 1], separator) + [separator] + parts[|parts| - 1]
  }

  /** Joining under the limit gives the payload of the full separator-joined bytes. */
  method BoundedJoin(parts: seq<seq<byte>>, separator: byte, limit: nat) returns (p: Payload)
    ensures p == Bounded(JoinParts(parts, separator), limit)
  {
    var bytes: seq<byte> := [];
    var originalLen: nat := 0;
    for index := 0 to |parts|
      invariant originalLen == |JoinParts(parts[..index], separator)|
      invariant bytes == Take(JoinParts(parts[..index], separator), limit)
    {
      ghost var joined := JoinParts(parts[..index], separator);
      var part := parts[index];
      assert parts[..index + 1][..index] == parts[..index];
      if index > 0 {
        originalLen := originalLen + 1;
        if |bytes| < limit {
          bytes := bytes + [separator];
        }
        joined := joined + [separator];
      }
      assert bytes == Take(joined, limit);
      originalLen := originalLen + |part|;
      var remaining := limit - |bytes|;
      bytes := bytes + part[..Min(|part|, remaining)];
      assert joined + part == JoinParts(parts[..index + 1], separator);
      assert bytes == Take(joined + part, limit);
    }
    assert parts[..|parts|] == parts;
    p := FromLimitedBytes(bytes, originalLen, limit);
  }
}
