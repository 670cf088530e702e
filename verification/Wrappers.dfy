// What several modules share.

module Wrappers {

  datatype Option<T> = None | Some(value: T)

  const TWO_TO_THE_32: nat := 0x1_0000_0000
  const TWO_TO_THE_64: nat := 0x1_0000_0000_0000_0000

  function Min(a: nat, b: nat): nat {
    if a < b then a else b
  }

  function Repeated<T>(value: T, n: nat): (r: seq<T>)
    ensures |r| == n
  {
    seq(n, _ => value)
  }

  // Sequences one after the other.
  function Concat<T>(runs: seq<seq<T>>): seq<T> {
    if runs == [] then [] else Concat(runs[..|runs| - 1]) + runs[|runs| - 1]
  }

  lemma ConcatSnoc<T>(runs: seq<seq<T>>, run: seq<T>)
    ensures Concat(runs + [run]) == Concat(runs) + run
  {
    assert (runs + [run])[..|runs|] == runs;
  }

  // Taking in a sequence, one element after the other: a checksum, for instance.
  function Fold<A, B>(step: (A, B) -> A, a: A, bs: seq<B>): A
    decreases |bs|
  {
    if bs == [] then a else Fold(step, step(a, bs[0]), bs[1..])
  }

  // A sequence that comes in pieces.
  lemma {:induction false} FoldConcat<A, B>(step: (A, B) -> A, a: A, bs: seq<B>, cs: seq<B>)
    ensures Fold(step, a, bs + cs) == Fold(step, Fold(step, a, bs), cs)
    decreases |bs|
  {
    if bs == [] {
      assert bs + cs == cs;
    } else {
      assert (bs + cs)[1..] == bs[1..] + cs;
      FoldConcat(step, step(a, bs[0]), bs[1..], cs);
    }
  }
}
