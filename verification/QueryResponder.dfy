/** The cursor-position query, found in output that arrives in pieces. */
module QueryResponder {
  import opened RenderModel
  import opened Folds
  import opened Protocol

  const QUERY: seq<byte> := [0x1b, 0x5b, 0x36, 0x6e]

  predicate MatchesAt(haystack: seq<byte>, needle: seq<byte>, i: nat) {
    i + |needle| <= |haystack| && haystack[i..i + |needle|] == needle
  }

  predicate ContainsSubsequence(haystack: seq<byte>, needle: seq<byte>) {
    needle != [] && exists i :: 0 <= i <= |haystack| - |needle| && MatchesAt(haystack, needle, i)
  }

  function LastBytes(stream: seq<byte>, n: nat): seq<byte> {
    stream[Max(|stream| - n, 0)..]
  }

  /** Some occurrence of the query in the stream ends after position `from`. */
  predicate QueryEndsAfter(stream: seq<byte>, from: nat) {
    exists i :: 0 <= i <= |stream| - |QUERY| && MatchesAt(stream, QUERY, i) && from < i + |QUERY|
  }

  lemma TailOfTail(stream: seq<byte>, chunk: seq<byte>)
    ensures LastBytes(LastBytes(stream, 3) + chunk, 3) == LastBytes(stream + chunk, 3)
  {
  }

  lemma {:induction false} MatchInTail(stream: seq<byte>, chunk: seq<byte>, i: nat)
    ensures var k := Max(|stream| - 3, 0);
            MatchesAt(LastBytes(stream, 3) + chunk, QUERY, i) <==> MatchesAt(stream + chunk, QUERY, k + i)
  {
    var k := Max(|stream| - 3, 0);
    var combined, whole := LastBytes(stream, 3) + chunk, stream + chunk;
    assert whole[k..] == combined;
    if i + 4 <= |combined| {
      assert whole[k + i..k + i + 4] == combined[i..i + 4];
    }
  }

  /** Matches in tail and chunk are the matches in the stream that end inside the chunk. */
  lemma {:induction false} TailSuffices(stream: seq<byte>, chunk: seq<byte>)
    ensures ContainsSubsequence(LastBytes(stream, 3) + chunk, QUERY) <==> QueryEndsAfter(stream + chunk, |stream|)
    ensures LastBytes(LastBytes(stream, 3) + chunk, 3) == LastBytes(stream + chunk, 3)
  {
    hide MatchesAt;
    var k := Max(|stream| - 3, 0);
    var combined, whole := LastBytes(stream, 3) + chunk, stream + chunk;
    assert |whole| == k + |combined|;
    if ContainsSubsequence(combined, QUERY) {
      var i :| 0 <= i <= |combined| - |QUERY| && MatchesAt(combined, QUERY, i);
      MatchInTail(stream, chunk, i);
      assert MatchesAt(whole, QUERY, k + i);
    }
    if QueryEndsAfter(whole, |stream|) {
      var i :| 0 <= i <= |whole| - |QUERY| && MatchesAt(whole, QUERY, i) && |stream| < i + |QUERY|;
      MatchInTail(stream, chunk, i - k);
      assert MatchesAt(combined, QUERY, i - k);
    }
    TailOfTail(stream, chunk);
  }

  class TerminalQueryResponder {
    var tail: seq<byte>
    ghost var stream: seq<byte>

    ghost predicate Valid()
      reads this
    {
      tail == LastBytes(stream, |QUERY| - 1)
    }

    constructor ()
      ensures Valid() && stream == []
    {
      tail, stream := [], [];
    }

    /** Answers exactly when some occurrence of the query in the whole stream ends in this chunk. */
    method ResponseForOutput(bytes: seq<byte>, response: seq<byte>) returns (r: Option<seq<byte>>)
      requires Valid()
      modifies this
      ensures Valid() && stream == old(stream) + bytes
      ensures r == if QueryEndsAfter(stream, |old(stream)|) then Some(response) else None
    {
      var combined := tail + bytes;
      var found := ContainsSubsequence(combined, QUERY);
      var tailLen := Max(|QUERY| - 1, 0);
      var start := Max(|combined| - tailLen, 0);
      TailSuffices(stream, bytes);
      tail := combined[start..];
      stream := stream + bytes;
      r := if found then Some(response) else None;
    }
  }

  /* ----- whole streams ----- */

  datatype Session = Session(tail: seq<byte>, answers: seq<bool>)

  function Respond(s: Session, chunk: seq<byte>): Session {
    var combined := s.tail + chunk;
    Session(LastBytes(combined, 3), s.answers + [ContainsSubsequence(combined, QUERY)])
  }

  /** Which calls answered. */
  function RunChunks(chunks: seq<seq<byte>>): Session {
    if chunks == [] then Session([], []) else Respond(RunChunks(chunks[..|chunks| - 1]), chunks[|chunks| - 1])
  }

  /** The query in `stream` at `i` ends inside chunk `k`. */
  predicate EndsIn(chunks: seq<seq<byte>>, i: nat, k: nat)
    requires k < |chunks|
  {
    && MatchesAt(Flatten(chunks), QUERY, i)
    && |Flatten(chunks[..k])| < i + |QUERY| <= |Flatten(chunks[..k + 1])|
  }

  lemma {:induction false} SessionKeepsTail(chunks: seq<seq<byte>>)
    ensures RunChunks(chunks).tail == LastBytes(Flatten(chunks), 3) && |RunChunks(chunks).answers| == |chunks|
  {
    if chunks == [] {
    } else {
      var n := |chunks| - 1;
      SessionKeepsTail(chunks[..n]);
      TailSuffices(Flatten(chunks[..n]), chunks[n]);
    }
  }

  lemma {:induction false} AnswerOfChunk(chunks: seq<seq<byte>>, k: nat)
    requires k < |chunks|
    ensures |RunChunks(chunks).answers| == |chunks|
    ensures RunChunks(chunks).answers[k] <==> QueryEndsAfter(Flatten(chunks[..k + 1]), |Flatten(chunks[..k])|)
  {
    var n := |chunks| - 1;
    SessionKeepsTail(chunks);
    SessionKeepsTail(chunks[..n]);
    if k < n {
      AnswerOfChunk(chunks[..n], k);
      assert chunks[..n][..k] == chunks[..k] && chunks[..n][..k + 1] == chunks[..k + 1];
    } else {
      assert chunks[..k + 1] == chunks && chunks[..k + 1][..k] == chunks[..k];
      TailSuffices(Flatten(chunks[..n]), chunks[n]);
    }
  }

  /** A call answers exactly when some occurrence in the whole stream ends inside its chunk. */
  lemma {:induction false} StreamingIsOffline(chunks: seq<seq<byte>>, k: nat)
    requires k < |chunks|
    ensures |RunChunks(chunks).answers| == |chunks|
    ensures RunChunks(chunks).answers[k] <==> exists i :: 0 <= i < |Flatten(chunks)| && EndsIn(chunks, i, k)
  {
    AnswerOfChunk(chunks, k);
    FlattenPrefix(chunks, k + 1);
    var whole, upTo, from := Flatten(chunks), Flatten(chunks[..k + 1]), |Flatten(chunks[..k])|;
    if QueryEndsAfter(upTo, from) {
      var i :| 0 <= i <= |upTo| - |QUERY| && MatchesAt(upTo, QUERY, i) && from < i + |QUERY|;
      assert whole[i..i + 4] == upTo[i..i + 4];
      assert EndsIn(chunks, i, k);
    }
    if i :| 0 <= i < |whole| && EndsIn(chunks, i, k) {
      assert upTo[i..i + 4] == whole[i..i + 4];
      assert MatchesAt(upTo, QUERY, i);
    }
  }

  lemma {:induction false} ChunkOfPosition(chunks: seq<seq<byte>>, p: nat) returns (k: nat)
    requires 0 < p <= |Flatten(chunks)|
    ensures k < |chunks| && |Flatten(chunks[..k])| < p <= |Flatten(chunks[..k + 1])|
  {
    var n := |chunks| - 1;
    assert chunks[..n + 1] == chunks;
    if p <= |Flatten(chunks[..n])| {
      k := ChunkOfPosition(chunks[..n], p);
      assert chunks[..n][..k] == chunks[..k] && chunks[..n][..k + 1] == chunks[..k + 1];
    } else {
      k := n;
    }
  }

  /** The query occurs in the stream exactly when some call answered. */
  lemma {:induction false} QueryFoundIffAnswered(chunks: seq<seq<byte>>)
    ensures ContainsSubsequence(Flatten(chunks), QUERY) <==> true in RunChunks(chunks).answers
  {
    var whole, answers := Flatten(chunks), RunChunks(chunks).answers;
    SessionKeepsTail(chunks);
    if ContainsSubsequence(whole, QUERY) {
      var i :| 0 <= i <= |whole| - |QUERY| && MatchesAt(whole, QUERY, i);
      var k := ChunkOfPosition(chunks, i + 4);
      assert EndsIn(chunks, i, k);
      StreamingIsOffline(chunks, k);
      assert answers[k];
    }
    if true in answers {
      var k :| 0 <= k < |answers| && answers[k];
      StreamingIsOffline(chunks, k);
      var i :| 0 <= i < |whole| && EndsIn(chunks, i, k);
    }
  }

  /** No occurrence is answered twice. */
  lemma {:induction false} OccurrenceAnsweredOnce(chunks: seq<seq<byte>>, i: nat, j: nat, k: nat)
    requires j < |chunks| && k < |chunks| && EndsIn(chunks, i, j) && EndsIn(chunks, i, k)
    ensures j == k
  {
    if j < k {
      assert chunks[..k][..j + 1] == chunks[..j + 1];
      FlattenPrefix(chunks[..k], j + 1);
    } else if k < j {
      assert chunks[..j][..k + 1] == chunks[..k + 1];
      FlattenPrefix(chunks[..j], k + 1);
    }
  }
}
