/** Left folds, for runs over actions, bytes and chunks. */
module Folds {

  function Fold<A, B>(f: (A, B) -> A, a: A, bs: seq<B>): A {
    if bs == [] then a else f(Fold(f, a, bs[..|bs| - 1]), bs[|bs| - 1])
  }

  lemma {:induction false} FoldConcat<A, B>(f: (A, B) -> A, a: A, bs: seq<B>, cs: seq<B>)
    ensures Fold(f, a, bs + cs) == Fold(f, Fold(f, a, bs), cs)
    decreases |cs|
  {
    if cs == [] {
      assert bs + cs == bs;
    } else {
      var n := |cs| - 1;
      assert (bs + cs)[..|bs| + n] == bs + cs[..n];
      FoldConcat(f, a, bs, cs[..n]);
    }
  }

  lemma FoldOne<A, B>(f: (A, B) -> A, a: A, b: B)
    ensures Fold(f, a, [b]) == f(a, b)
  {
    var bs := [b];
    assert bs[..|bs| - 1] == [];
  }

  /** What holds at the start and is passed on by every step holds at the end. */
  lemma {:induction false} FoldKeeps<A(!new), B>(f: (A, B) -> A, a: A, bs: seq<B>, p: (A, nat) -> bool)
    requires p(a, 0)
    requires forall x: A, i: nat :: i < |bs| && p(x, i) ==> p(f(x, bs[i]), i + 1)
    ensures p(Fold(f, a, bs), |bs|)
  {
    if bs == [] {
    } else {
      var n := |bs| - 1;
      FoldKeeps(f, a, bs[..n], p);
    }
  }

  /* ----- pieces of a stream ----- */

  function Flatten<T>(parts: seq<seq<T>>): seq<T> {
    if parts == [] then [] else Flatten(parts[..|parts| - 1]) + parts[|parts| - 1]
  }

  /** The first `k` parts are the front of the stream. */
  lemma {:induction false} FlattenPrefix<T>(parts: seq<seq<T>>, k: nat)
    requires k <= |parts|
    ensures Flatten(parts[..k]) <= Flatten(parts)
  {
    if k == |parts| {
      assert parts[..k] == parts;
    } else {
      var n := |parts| - 1;
      FlattenPrefix(parts[..n], k);
      assert parts[..n][..k] == parts[..k];
    }
  }

  lemma FlattenNext<T>(parts: seq<seq<T>>, k: nat)
    requires k < |parts|
    ensures Flatten(parts[..k + 1]) == Flatten(parts[..k]) + parts[k]
  {
    assert parts[..k + 1][..k] == parts[..k];
  }
}
