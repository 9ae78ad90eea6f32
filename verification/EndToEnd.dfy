/** The engine as an embedder sees it: bytes in, snapshots out. */
module EndToEnd {
  import opened RenderModel
  import opened Folds
  import opened Protocol
  import opened ByteMachine
  import opened Chunking
  import opened Snapshot
  import opened TerminalModel
  import opened TerminalRuns
  import opened RunTheorems

  function Ops(actions: seq<TerminalAction>): seq<Op> {
    seq(|actions|, i requires 0 <= i < |actions| => Act(actions[i]))
  }

  function FreshAdapter<P>(parser: P): Adapter<P> {
    Adapter(parser, false, None, Recorder(None, false, []))
  }

  /** The terminal after a fresh adapter has taken the chunks, one call each. */
  function AfterChunks<P>(step: ByteParser<P>, parser: P, s: Term, chunks: seq<seq<byte>>): Option<Term> {
    Run(s, Ops(RunChunks(step, FreshAdapter(parser), chunks).recorder.actions))
  }

  /** No cut of a stream given to a fresh adapter matters. */
  ghost predicate NoCutMatters<P>(step: ByteParser<P>, parser: P, chunks: seq<seq<byte>>) {
    forall k :: 0 <= k < |chunks| ==> !CutMatters(step, FreshAdapter(parser), chunks, k)
  }

  /** Two cuttings of the same bytes leave the same terminal, if no cut of either matters; in
      particular if both keep adjacent ESC bytes together. */
  lemma ScreenIgnoresChunks<P>(
    step: ByteParser<P>, parser: P, s: Term, chunks: seq<seq<byte>>, others: seq<seq<byte>>)
    requires Flatten(chunks) == Flatten(others)
    ensures NoCutMatters(step, parser, chunks) && NoCutMatters(step, parser, others) ==>
              AfterChunks(step, parser, s, chunks) == AfterChunks(step, parser, s, others)
    ensures KeepsEscapesTogether(chunks) ==> NoCutMatters(step, parser, chunks)
    ensures KeepsEscapesTogether(others) ==> NoCutMatters(step, parser, others)
  {
    hide Advanced, Run, CutMatters, KeepsEscapesTogether, ByteRun;
    var a := FreshAdapter(parser);
    if KeepsEscapesTogether(chunks) {
      forall k | 0 <= k < |chunks| ensures !CutMatters(step, a, chunks, k) {
        TogetherCutsDoNotMatter(step, a, chunks, k);
      }
    }
    if KeepsEscapesTogether(others) {
      forall k | 0 <= k < |others| ensures !CutMatters(step, a, others, k) {
        TogetherCutsDoNotMatter(step, a, others, k);
      }
    }
    if NoCutMatters(step, parser, chunks) && NoCutMatters(step, parser, others) {
      OtherCutsDoNotMatter(step, a, chunks);
      OtherCutsDoNotMatter(step, a, others);
    }
  }

  /** Every snapshot of every reachable state has the shape that the snapshot check requires. */
  lemma {:induction false} ReachableSnapshotHasShape(
    setup: Setup, d: Dimensions, ops: seq<Op>, snapshot: RenderSnapshot)
    requires DimensionsOk(d) && Run(Initial(setup, d), ops).Some?
    requires SnapshotOf(snapshot, Run(Initial(setup, d), ops).value)
    ensures ShapeOk(snapshot)
  {
    hide Run, Inv, Evolves, ShapeOk, SizeOk, SnapshotOf, DimensionsOk;
    InitialInv(setup, d);
    RunKeeps(Initial(setup, d), ops);
    SnapshotHasShape(snapshot, Run(Initial(setup, d), ops).value);
  }
}
