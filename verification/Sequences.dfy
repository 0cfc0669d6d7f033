/** Batches, chunks and buffers laid end to end. */
module Sequences {

  function Flatten<T>(batches: seq<seq<T>>): seq<T> {
    if batches == [] then [] else Flatten(batches[..|batches| - 1]) + batches[|batches| - 1]
  }

  lemma FlattenSnoc<T>(batches: seq<seq<T>>, b: seq<T>)
    ensures Flatten(batches + [b]) == Flatten(batches) + b
  {
    assert (batches + [b])[..|batches|] == batches;
  }

  lemma {:induction false} FlattenPrefix<T>(batches: seq<seq<T>>, n: nat)
    requires n <= |batches|
    ensures Flatten(batches[..n]) <= Flatten(batches)
    decreases |batches|
  {
    if n < |batches| {
      var shorter := batches[..|batches| - 1];
      FlattenPrefix(shorter, n);
      assert shorter[..n] == batches[..n];
    } else {
      assert batches[..n] == batches;
    }
  }

  lemma FlattenNext<T>(batches: seq<seq<T>>, n: nat)
    requires n < |batches|
    ensures Flatten(batches[..n + 1]) == Flatten(batches[..n]) + batches[n]
  {
    FlattenSnoc(batches[..n], batches[n]);
    assert batches[..n] + [batches[n]] == batches[..n + 1];
  }

  // Part of a batch is part of the whole.
  lemma FlattenPart<T>(batches: seq<seq<T>>, n: nat, k: nat)
    requires n < |batches| && k <= |batches[n]|
    ensures Flatten(batches[..n]) + batches[n][..k] <= Flatten(batches)
  {
    FlattenNext(batches, n);
    FlattenPrefix(batches, n + 1);
    var before, b := Flatten(batches[..n]), batches[n];
    assert before + b == (before + b[..k]) + b[k..];
  }

  lemma SliceOfRest<T>(s: seq<T>, at: nat, i: nat, j: nat)
    requires i <= j && at + j <= |s|
    ensures s[at..][i..j] == s[at + i..at + j] && s[at..][j..] == s[at + j..]
  {
  }

  lemma SliceOfSlice<T>(s: seq<T>, at: nat, n: nat, i: nat, j: nat)
    requires i <= j <= n && at + n <= |s|
    ensures s[at..at + n][i..j] == s[at + i..at + j]
  {
    var whole := s[at..at + n];
    forall k | 0 <= k < j - i ensures whole[i..j][k] == s[at + i..at + j][k] {
      assert whole[i + k] == s[at + (i + k)];
    }
  }

  lemma {:induction false} FlattenCons<T>(batches: seq<seq<T>>)
    requires batches != []
    ensures Flatten(batches) == batches[0] + Flatten(batches[1..])
    decreases |batches|
  {
    if |batches| > 1 {
      var shorter := batches[..|batches| - 1];
      FlattenCons(shorter);
      assert batches[1..][..|batches| - 2] == shorter[1..];
    }
  }
}
