/** Chunking does not matter, unless a cut puts a second ESC in front of a held one. */
module Chunking {
  import opened RenderModel
  import opened Folds
  import opened Protocol
  import opened ByteMachine

  /** One call per chunk. */
  function RunChunks<P>(step: ByteParser<P>, a: Adapter<P>, chunks: seq<seq<byte>>): Adapter<P> {
    if chunks == [] then a
    else Advanced(step, RunChunks(step, a, chunks[..|chunks| - 1]), chunks[|chunks| - 1])
  }

  /** The chunk puts a second ESC in front of a held one. */
  predicate CutsEscapes<P>(a: Adapter<P>, chunk: seq<byte>) {
    a.pendingEscape && chunk != [] && chunk[0] == ESC
  }

  ghost predicate CleanCuts<P>(step: ByteParser<P>, a: Adapter<P>, chunks: seq<seq<byte>>) {
    forall k :: 0 <= k < |chunks| ==> !CutsEscapes(RunChunks(step, a, chunks[..k]), chunks[k])
  }

  /** After every byte, the chunked run is where a run over the whole stream would be. */
  ghost predicate TracksEveryByte<P>(step: ByteParser<P>, a: Adapter<P>, chunks: seq<seq<byte>>) {
    forall k, j :: 0 <= k < |chunks| && 0 <= j <= |chunks[k]| ==>
      Advanced(step, RunChunks(step, a, chunks[..k]), chunks[k][..j]) ==
      ByteRun(step, a, Flatten(chunks[..k]) + chunks[k][..j])
  }

  lemma {:induction false} CleanRunIsByteRun<P>(step: ByteParser<P>, a: Adapter<P>, chunks: seq<seq<byte>>)
    requires CleanCuts(step, a, chunks)
    ensures RunChunks(step, a, chunks) == ByteRun(step, a, Flatten(chunks))
  {
    if chunks == [] {
    } else {
      var n := |chunks| - 1;
      var front := chunks[..n];
      assert forall k :: 0 <= k < n ==> front[..k] == chunks[..k] && front[k] == chunks[k];
      CleanRunIsByteRun(step, a, front);
      assert !CutsEscapes(RunChunks(step, a, front), chunks[n]);
      ByteRunConcat(step, a, Flatten(front), chunks[n]);
    }
  }

  lemma {:induction false} CleanRunTracks<P>(step: ByteParser<P>, a: Adapter<P>, chunks: seq<seq<byte>>)
    requires CleanCuts(step, a, chunks)
    ensures TracksEveryByte(step, a, chunks)
  {
    forall k, j | 0 <= k < |chunks| && 0 <= j <= |chunks[k]|
      ensures Advanced(step, RunChunks(step, a, chunks[..k]), chunks[k][..j]) ==
              ByteRun(step, a, Flatten(chunks[..k]) + chunks[k][..j])
    {
      assert forall i :: 0 <= i < k ==> chunks[..k][..i] == chunks[..i] && chunks[..k][i] == chunks[i];
      CleanRunIsByteRun(step, a, chunks[..k]);
      assert !CutsEscapes(RunChunks(step, a, chunks[..k]), chunks[k]);
      ByteRunConcat(step, a, Flatten(chunks[..k]), chunks[k][..j]);
    }
  }

  lemma DirtyCutShows<P>(step: ByteParser<P>, u: Adapter<P>)
    requires Consistent(u) && u.pendingEscape
    ensures !Advanced(step, u, [ESC]).pendingEscape && ByteStep(step, u, ESC).pendingEscape
  {
    FeedKeepsMode(step, u.(pendingEscape := false), [ESC, ESC]);
    NoBytes(step, Feed(step, u.(pendingEscape := false), [ESC, ESC]));
  }

  lemma {:induction false} TrackingIsClean<P>(step: ByteParser<P>, a: Adapter<P>, chunks: seq<seq<byte>>)
    requires Consistent(a) && TracksEveryByte(step, a, chunks)
    ensures CleanCuts(step, a, chunks)
  {
    forall k | 0 <= k < |chunks|
      ensures !CutsEscapes(RunChunks(step, a, chunks[..k]), chunks[k])
    {
      var u, before := RunChunks(step, a, chunks[..k]), Flatten(chunks[..k]);
      assert chunks[k][..0] == [] && before + [] == before;
      assert Advanced(step, u, chunks[k][..0]) == ByteRun(step, a, before + chunks[k][..0]);
      NoBytes(step, u);
      assert u == ByteRun(step, a, before);
      ByteRunConsistent(step, a, before);
      if CutsEscapes(u, chunks[k]) {
        assert chunks[k][..1] == [ESC];
        assert Advanced(step, u, chunks[k][..1]) == ByteRun(step, a, before + chunks[k][..1]);
        ByteRunConcat(step, a, before, [ESC]);
        ByteRunOne(step, u, ESC);
        DirtyCutShows(step, u);
      }
    }
  }

  /** Chunked calls follow the unsplit parse byte for byte exactly when no chunk puts a second ESC
      in front of a held one. */
  lemma ChunksTrackIffClean<P>(step: ByteParser<P>, a: Adapter<P>, chunks: seq<seq<byte>>)
    requires Consistent(a)
    ensures TracksEveryByte(step, a, chunks) <==> CleanCuts(step, a, chunks)
  {
    if CleanCuts(step, a, chunks) {
      CleanRunTracks(step, a, chunks);
    }
    if TracksEveryByte(step, a, chunks) {
      TrackingIsClean(step, a, chunks);
    }
  }

  lemma FeedTwo<P>(step: ByteParser<P>, a: Adapter<P>, x: byte, y: byte)
    ensures Feed(step, a, [x, y]) == FeedByte(step, FeedByte(step, a, x), y)
  {
    assert [x, y] == [x] + [y];
    FeedConcat(step, a, [x], [y]);
    FeedOne(step, a, x);
    FeedOne(step, FeedByte(step, a, x), y);
  }

  /* ----- the cuts that matter ----- */

  /** After ESC ESC the byte `b` leaves the second ESC to the parser: a DCS is open, or `b` does not
      introduce a string. `u` holds the first ESC. */
  predicate EscapePasses<P>(step: ByteParser<P>, u: Adapter<P>, b: byte) {
    FeedByte(step, u.(pendingEscape := false), ESC).recorder.dcs.Some? || TargetOf(b).None?
  }

  /** Chunk `k` puts a second ESC in front of a held one, and the stream then ends or goes on with
      the introducer of a string while no DCS is open. */
  predicate CutMatters<P>(step: ByteParser<P>, a: Adapter<P>, chunks: seq<seq<byte>>, k: nat)
    requires k < |chunks|
  {
    var u := RunChunks(step, a, chunks[..k]);
    var stream, next := Flatten(chunks), |Flatten(chunks[..k])| + 1;
    CutsEscapes(u, chunks[k]) && (next < |stream| ==> !EscapePasses(step, u, stream[next]))
  }

  /** The split run has passed on an ESC that the unsplit run still holds. */
  ghost predicate OneAhead<P>(step: ByteParser<P>, x: Adapter<P>, y: Adapter<P>) {
    y.pendingEscape && y.control.None? && x == FeedByte(step, y.(pendingEscape := false), ESC)
  }

  /** The two runs agree, or will with the next byte of the stream. */
  ghost predicate InStep<P>(step: ByteParser<P>, x: Adapter<P>, y: Adapter<P>, rest: seq<byte>) {
    x == y || (OneAhead(step, x, y) && rest != [] && (y.recorder.dcs.Some? || TargetOf(rest[0]).None?))
  }

  lemma CatchUp<P>(step: ByteParser<P>, x: Adapter<P>, y: Adapter<P>, bytes: seq<byte>)
    requires OneAhead(step, x, y) && bytes != [] && (y.recorder.dcs.Some? || TargetOf(bytes[0]).None?)
    ensures ByteRun(step, x, bytes) == ByteRun(step, y, bytes)
  {
    hide ByteRun, Feed;
    var b, rest := bytes[0], bytes[1..];
    assert bytes == [b] + rest;
    ByteRunConcat(step, x, [b], rest);
    ByteRunConcat(step, y, [b], rest);
    ByteRunOne(step, x, b);
    ByteRunOne(step, y, b);
    FeedTwo(step, y.(pendingEscape := false), ESC, b);
  }

  /** One chunk keeps the runs in step unless its cut matters. */
  lemma ChunkKeepsStep<P>(step: ByteParser<P>, x: Adapter<P>, y: Adapter<P>, chunk: seq<byte>, rest: seq<byte>)
    requires Consistent(y) && InStep(step, x, y, chunk + rest)
    requires CutsEscapes(x, chunk) ==> |chunk + rest| > 1 && EscapePasses(step, x, (chunk + rest)[1])
    ensures InStep(step, Advanced(step, x, chunk), ByteRun(step, y, chunk), rest)
  {
    hide ByteRun, Feed;
    if chunk == [] {
      assert chunk + rest == rest;
      NoBytes(step, x);
      NoBytes(step, y);
    } else if x != y {
      CatchUp(step, x, y, chunk);
    } else if CutsEscapes(x, chunk) {
      var more := chunk[1..];
      assert chunk == [ESC] + more;
      ByteRunConcat(step, y, [ESC], more);
      ByteRunOne(step, y, ESC);
      var ahead, behind := Feed(step, y.(pendingEscape := false), [ESC, ESC]), ByteStep(step, y, ESC);
      FeedTwo(step, y.(pendingEscape := false), ESC, ESC);
      assert OneAhead(step, ahead, behind);
      if more == [] {
        assert (chunk + rest)[1] == rest[0];
        NoBytes(step, ahead);
        NoBytes(step, behind);
      } else {
        CatchUp(step, ahead, behind, more);
      }
    }
  }

  lemma {:induction false} RunsKeepStep<P>(step: ByteParser<P>, a: Adapter<P>, chunks: seq<seq<byte>>, k: nat)
    requires Consistent(a) && k <= |chunks|
    requires forall i :: 0 <= i < k ==> !CutMatters(step, a, chunks, i)
    ensures Flatten(chunks[..k]) <= Flatten(chunks)
    ensures InStep(step, RunChunks(step, a, chunks[..k]), ByteRun(step, a, Flatten(chunks[..k])),
                   Flatten(chunks)[|Flatten(chunks[..k])|..])
  {
    hide Advanced, ByteRun, InStep, EscapePasses;
    FlattenPrefix(chunks, k);
    if k == 0 {
      SameIsInStep(step, a, Flatten(chunks));
      NoBytes(step, a);
    } else {
      RunsKeepStep(step, a, chunks, k - 1);
      FlattenPrefix(chunks, k - 1);
      FlattenNext(chunks, k - 1);
      assert chunks[..k][..k - 1] == chunks[..k - 1];
      var before, chunk := Flatten(chunks[..k - 1]), chunks[k - 1];
      var rest := Flatten(chunks)[|Flatten(chunks[..k])|..];
      assert Flatten(chunks)[|before|..] == chunk + rest;
      ByteRunConsistent(step, a, before);
      ByteRunConcat(step, a, before, chunk);
      assert !CutMatters(step, a, chunks, k - 1);
      ChunkKeepsStep(step, RunChunks(step, a, chunks[..k - 1]), ByteRun(step, a, before), chunk, rest);
    }
  }

  lemma SameIsInStep<P>(step: ByteParser<P>, a: Adapter<P>, rest: seq<byte>)
    ensures InStep(step, a, a, rest)
  {
  }

  /** For every parser: if no cut matters, the chunked calls emit the actions of the unsplit stream
      and end in its state. */
  lemma OtherCutsDoNotMatter<P>(step: ByteParser<P>, a: Adapter<P>, chunks: seq<seq<byte>>)
    requires Consistent(a) && forall k :: 0 <= k < |chunks| ==> !CutMatters(step, a, chunks, k)
    ensures RunChunks(step, a, chunks) == ByteRun(step, a, Flatten(chunks))
    ensures !a.pendingEscape ==> RunChunks(step, a, chunks) == Advanced(step, a, Flatten(chunks))
  {
    hide ByteRun;
    RunsKeepStep(step, a, chunks, |chunks|);
    assert chunks[..|chunks|] == chunks;
  }

  /* ----- a cut that matters changes the actions ----- */

  /** A parser that reports every byte it is given before anything else. */
  ghost predicate Echoes<P(!new)>(step: ByteParser<P>) {
    forall p: P, b: byte :: step(p, b).calls != [] && step(p, b).calls[0] == OnExecute(b)
  }

  lemma {:induction false} RecordingGrows(r: Recorder, calls: seq<Callback>)
    ensures r.actions <= Fold(Record, r, calls).actions
  {
    if calls == [] {
    } else {
      RecordingGrows(r, calls[..|calls| - 1]);
    }
  }

  lemma FeedGrows<P>(step: ByteParser<P>, a: Adapter<P>, b: byte)
    ensures a.recorder.actions <= FeedByte(step, a, b).recorder.actions
  {
    RecordingGrows(a.recorder, step(a.parser, b).calls);
  }

  lemma FeedEchoes<P(!new)>(step: ByteParser<P>, a: Adapter<P>, b: byte)
    requires Echoes(step)
    ensures a.recorder.actions + [Control(b)] <= FeedByte(step, a, b).recorder.actions
  {
    var calls := step(a.parser, b).calls;
    assert calls == [OnExecute(b)] + calls[1..];
    FoldConcat(Record, a.recorder, [OnExecute(b)], calls[1..]);
    FoldOne(Record, a.recorder, OnExecute(b));
    RecordingGrows(Record(a.recorder, OnExecute(b)), calls[1..]);
  }

  lemma StepGrows<P>(step: ByteParser<P>, a: Adapter<P>, b: byte)
    ensures a.recorder.actions <= ByteStep(step, a, b).recorder.actions
  {
    hide FeedByte, Feed;
    if a.control.None? {
      var open := a.(pendingEscape := false);
      FeedGrows(step, a, b);
      FeedGrows(step, open, ESC);
      FeedGrows(step, FeedByte(step, open, ESC), b);
      FeedTwo(step, open, ESC, b);
    }
  }

  lemma {:induction false} RunGrows<P>(step: ByteParser<P>, a: Adapter<P>, bytes: seq<byte>)
    ensures a.recorder.actions <= ByteRun(step, a, bytes).recorder.actions
  {
    hide ByteStep;
    if bytes == [] {
    } else {
      var n := |bytes| - 1;
      RunGrows(step, a, bytes[..n]);
      StepGrows(step, ByteRun(step, a, bytes[..n]), bytes[n]);
    }
  }

  lemma AdvanceGrows<P>(step: ByteParser<P>, a: Adapter<P>, chunk: seq<byte>)
    ensures a.recorder.actions <= Advanced(step, a, chunk).recorder.actions
  {
    hide ByteRun, Feed, FeedByte;
    RunGrows(step, a, chunk);
    if CutsEscapes(a, chunk) {
      var open := a.(pendingEscape := false);
      FeedGrows(step, open, ESC);
      FeedGrows(step, FeedByte(step, open, ESC), ESC);
      FeedTwo(step, open, ESC, ESC);
      RunGrows(step, Feed(step, open, [ESC, ESC]), chunk[1..]);
    }
  }

  lemma {:induction false} ChunksGrow<P>(step: ByteParser<P>, a: Adapter<P>, chunks: seq<seq<byte>>, k: nat)
    requires k <= |chunks|
    ensures RunChunks(step, a, chunks[..k]).recorder.actions <= RunChunks(step, a, chunks).recorder.actions
  {
    hide Advanced;
    if k == |chunks| {
      assert chunks[..k] == chunks;
    } else {
      var n := |chunks| - 1;
      ChunksGrow(step, a, chunks[..n], k);
      assert chunks[..n][..k] == chunks[..k];
      AdvanceGrows(step, RunChunks(step, a, chunks[..n]), chunks[n]);
    }
  }

  /** While a string is open, the next action can only be that string. */
  lemma {:induction false} StringComesNext<P>(step: ByteParser<P>, y: Adapter<P>, bytes: seq<byte>)
    requires y.control.Some?
    ensures var z := ByteRun(step, y, bytes);
            || (z.control.Some? && z.recorder.actions == y.recorder.actions)
            || (|z.recorder.actions| > |y.recorder.actions| && !z.recorder.actions[|y.recorder.actions|].Control?)
  {
    hide Feed, FeedByte;
    if bytes == [] {
    } else {
      var n := |bytes| - 1;
      StringComesNext(step, y, bytes[..n]);
      StepGrows(step, ByteRun(step, y, bytes[..n]), bytes[n]);
    }
  }

  /** The split run reports the second ESC; the unsplit one reports a string next, or nothing. */
  lemma {:induction false} MatteringCutShows<P(!new)>(
    step: ByteParser<P>, a: Adapter<P>, chunks: seq<seq<byte>>, k: nat)
    requires Consistent(a) && Echoes(step) && k < |chunks| && CutMatters(step, a, chunks, k)
    requires forall i :: 0 <= i < k ==> !CutMatters(step, a, chunks, i)
    ensures RunChunks(step, a, chunks).recorder.actions != ByteRun(step, a, Flatten(chunks)).recorder.actions
  {
    hide ByteRun, Feed, FeedByte, Echoes;
    var u, before := RunChunks(step, a, chunks[..k]), Flatten(chunks[..k]);
    RunsKeepStep(step, a, chunks, k);
    HeldMeansEqual(step, u, ByteRun(step, a, before), Flatten(chunks)[|before|..]);
    SplitReports(step, a, chunks, k, u);
    ByteRunConsistent(step, a, before);
    FlattenPrefix(chunks, k + 1);
    FlattenNext(chunks, k);
    assert Flatten(chunks)[..|before|] == before;
    UnsplitReports(step, a, Flatten(chunks), |before|, u);
  }

  lemma HeldMeansEqual<P>(step: ByteParser<P>, x: Adapter<P>, y: Adapter<P>, rest: seq<byte>)
    requires InStep(step, x, y, rest) && x.pendingEscape
    ensures x == y
  {
  }

  lemma SplitReports<P(!new)>(step: ByteParser<P>, a: Adapter<P>, chunks: seq<seq<byte>>, k: nat, u: Adapter<P>)
    requires Echoes(step) && k < |chunks| && u == RunChunks(step, a, chunks[..k]) && CutsEscapes(u, chunks[k])
    ensures FeedByte(step, u.(pendingEscape := false), ESC).recorder.actions + [Control(ESC)] <=
            RunChunks(step, a, chunks).recorder.actions
  {
    hide ByteRun, Feed, FeedByte, Echoes;
    var open := u.(pendingEscape := false);
    var once := FeedByte(step, open, ESC);
    FeedEchoes(step, once, ESC);
    FeedTwo(step, open, ESC, ESC);
    RunGrows(step, Feed(step, open, [ESC, ESC]), chunks[k][1..]);
    assert chunks[..k + 1][..k] == chunks[..k];
    ChunksGrow(step, a, chunks, k + 1);
  }

  lemma UnsplitReports<P>(step: ByteParser<P>, a: Adapter<P>, stream: seq<byte>, p: nat, u: Adapter<P>)
    requires p < |stream| && stream[p] == ESC && u == ByteRun(step, a, stream[..p])
    requires u.pendingEscape && u.control.None?
    requires p + 1 < |stream| ==> !EscapePasses(step, u, stream[p + 1])
    ensures var actions, once := ByteRun(step, a, stream).recorder.actions,
                                 FeedByte(step, u.(pendingEscape := false), ESC).recorder.actions;
            actions == once || (|actions| > |once| && !actions[|once|].Control?)
  {
    hide ByteRun, Feed, FeedByte;
    ByteRunNext(step, a, stream, p);
    if p + 1 < |stream| {
      ByteRunNext(step, a, stream, p + 1);
      var started := ByteRun(step, a, stream[..p + 2]);
      assert stream == stream[..p + 2] + stream[p + 2..];
      ByteRunConcat(step, a, stream[..p + 2], stream[p + 2..]);
      FeedByteKeepsMode(step, u.(pendingEscape := false), ESC);
      StringComesNext(step, started, stream[p + 2..]);
    } else {
      assert stream[..p + 1] == stream;
    }
  }

  lemma FeedByteKeepsMode<P>(step: ByteParser<P>, a: Adapter<P>, b: byte)
    ensures FeedByte(step, a, b).pendingEscape == a.pendingEscape && FeedByte(step, a, b).control == a.control
  {
  }

  lemma {:induction false} FirstMatters<P>(
    step: ByteParser<P>, a: Adapter<P>, chunks: seq<seq<byte>>, k: nat) returns (first: nat)
    requires k < |chunks| && CutMatters(step, a, chunks, k)
    ensures first <= k && CutMatters(step, a, chunks, first)
    ensures forall i :: 0 <= i < first ==> !CutMatters(step, a, chunks, i)
  {
    hide CutMatters;
    first := k;
    if i :| 0 <= i < k && CutMatters(step, a, chunks, i) {
      first := FirstMatters(step, a, chunks, i);
    }
  }

  /** The condition is exact. With a parser that reports its bytes, chunked calls emit the actions
      of the unsplit stream, and end in its state, exactly when no cut matters. */
  lemma OutcomeIffNoCutMatters<P(!new)>(step: ByteParser<P>, a: Adapter<P>, chunks: seq<seq<byte>>)
    requires Consistent(a) && Echoes(step)
    ensures RunChunks(step, a, chunks).recorder.actions == ByteRun(step, a, Flatten(chunks)).recorder.actions <==>
            forall k :: 0 <= k < |chunks| ==> !CutMatters(step, a, chunks, k)
    ensures RunChunks(step, a, chunks) == ByteRun(step, a, Flatten(chunks)) <==>
            forall k :: 0 <= k < |chunks| ==> !CutMatters(step, a, chunks, k)
  {
    hide CutMatters, Echoes, ByteRun;
    if k :| 0 <= k < |chunks| && CutMatters(step, a, chunks, k) {
      var first := FirstMatters(step, a, chunks, k);
      MatteringCutShows(step, a, chunks, first);
    } else {
      OtherCutsDoNotMatter(step, a, chunks);
    }
  }

  /** There is such a parser: report every byte and nothing else. */
  lemma SomeParserEchoes()
    ensures Echoes((p: int, b: byte) => Parsed(p, [OnExecute(b)]))
  {
  }

  /* ----- in terms of the bytes alone ----- */

  /** No cut separates two adjacent ESC bytes. */
  predicate KeepsEscapesTogether(chunks: seq<seq<byte>>) {
    forall k :: 0 <= k < |chunks| ==>
      var before := Flatten(chunks[..k]);
      !(before != [] && before[|before| - 1] == ESC && chunks[k] != [] && chunks[k][0] == ESC)
  }

  lemma {:induction false} HeldEscapeIsLast<P>(step: ByteParser<P>, a: Adapter<P>, bytes: seq<byte>)
    requires Consistent(a) && !a.pendingEscape && ByteRun(step, a, bytes).pendingEscape
    ensures bytes != [] && bytes[|bytes| - 1] == ESC
  {
    NoBytes(step, a);
    if bytes != [] {
      var n := |bytes| - 1;
      var u := ByteRun(step, a, bytes[..n]);
      ByteRunConsistent(step, a, bytes[..n]);
      assert bytes[..n + 1] == bytes;
      ByteRunNext(step, a, bytes, n);
      FeedKeepsMode(step, u.(pendingEscape := false), [ESC, bytes[n]]);
    }
  }

  lemma TogetherPrefix(chunks: seq<seq<byte>>, k: nat)
    requires KeepsEscapesTogether(chunks) && k <= |chunks|
    ensures KeepsEscapesTogether(chunks[..k])
  {
    assert forall i :: 0 <= i < k ==> chunks[..k][..i] == chunks[..i];
  }

  lemma {:induction false} TogetherNext<P>(step: ByteParser<P>, a: Adapter<P>, before: seq<byte>, chunk: seq<byte>)
    requires Consistent(a) && !a.pendingEscape
    requires !(before != [] && before[|before| - 1] == ESC && chunk != [] && chunk[0] == ESC)
    ensures !CutsEscapes(ByteRun(step, a, before), chunk)
    ensures Advanced(step, ByteRun(step, a, before), chunk) == ByteRun(step, a, before + chunk)
  {
    if ByteRun(step, a, before).pendingEscape {
      HeldEscapeIsLast(step, a, before);
    }
    ByteRunConcat(step, a, before, chunk);
  }

  lemma {:induction false} TogetherRuns<P>(step: ByteParser<P>, a: Adapter<P>, chunks: seq<seq<byte>>)
    requires Consistent(a) && !a.pendingEscape && KeepsEscapesTogether(chunks)
    ensures RunChunks(step, a, chunks) == ByteRun(step, a, Flatten(chunks))
  {
    hide Advanced, ByteRun;
    if chunks == [] {
      NoBytes(step, a);
    } else {
      var n := |chunks| - 1;
      TogetherPrefix(chunks, n);
      TogetherRuns(step, a, chunks[..n]);
      TogetherNext(step, a, Flatten(chunks[..n]), chunks[n]);
    }
  }

  /** So no cut matters, whatever the parser. */
  lemma TogetherCutsDoNotMatter<P>(step: ByteParser<P>, a: Adapter<P>, chunks: seq<seq<byte>>, k: nat)
    requires Consistent(a) && !a.pendingEscape && KeepsEscapesTogether(chunks) && k < |chunks|
    ensures !CutMatters(step, a, chunks, k)
  {
    hide Advanced, ByteRun, EscapePasses;
    TogetherPrefix(chunks, k);
    TogetherRuns(step, a, chunks[..k]);
    TogetherNext(step, a, Flatten(chunks[..k]), chunks[k]);
  }

  /** Any cutting that keeps adjacent ESC bytes together emits the actions of one call and ends in
      its state, whatever the parser. */
  lemma {:induction false} ChunkingDoesNotMatter<P>(step: ByteParser<P>, a: Adapter<P>, chunks: seq<seq<byte>>)
    requires Consistent(a) && !a.pendingEscape && KeepsEscapesTogether(chunks)
    ensures RunChunks(step, a, chunks) == Advanced(step, a, Flatten(chunks))
  {
    hide Advanced, ByteRun, CutMatters;
    forall k | 0 <= k < |chunks| ensures !CutMatters(step, a, chunks, k) {
      TogetherCutsDoNotMatter(step, a, chunks, k);
    }
    OtherCutsDoNotMatter(step, a, chunks);
  }

  /** With a parser that only logs its bytes, `ESC | ESC ]` reaches the parser as three bytes,
      while `ESC ESC ]` opens a string after one. */
  lemma {:induction false} SplitEscapesDiffer()
    ensures var log := (p: seq<byte>, b: byte) => Parsed(p + [b], []);
            var a := Adapter([], false, None, Recorder(None, false, []));
            && RunChunks(log, a, [[ESC], [ESC, 0x5d]]).parser == [ESC, ESC, 0x5d]
            && RunChunks(log, a, [[ESC], [ESC, 0x5d]]).control.None?
            && Advanced(log, a, [ESC, ESC, 0x5d]).parser == [ESC]
            && Advanced(log, a, [ESC, ESC, 0x5d]).control == Some(NewBuilder(OscTarget))
  {
    var log := (p: seq<byte>, b: byte) => Parsed(p + [b], []);
    var a: Adapter<seq<byte>> := Adapter([], false, None, Recorder(None, false, []));
    var chunks: seq<seq<byte>> := [[ESC], [ESC, 0x5d]];
    var held := a.(pendingEscape := true);
    ByteRunOne(log, a, ESC);
    assert chunks[..1] == [chunks[0]] && chunks[..1][..0] == [];
    assert RunChunks(log, a, chunks[..1]) == held;
    FeedTwo(log, a, ESC, ESC);
    assert [ESC, 0x5d][1..] == [0x5d];
    ByteRunOne(log, Feed(log, a, [ESC, ESC]), 0x5d);
    var whole: seq<byte> := [ESC, ESC, 0x5d];
    assert whole[..0] == [] && whole[..1] == [ESC] && whole[..3] == whole;
    ByteRunNext(log, a, whole, 1);
    ByteRunNext(log, a, whole, 2);
  }
}
