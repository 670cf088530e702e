// The history of an LZ decoder as an unbounded sequence, and copies from it.

module History {
  import opened Bits

  // An overlapping copy of `count` bytes from `distance` bytes back.
  function CopiedBack(history: seq<byte>, distance: nat, count: nat): (r: seq<byte>)
    requires 1 <= distance <= |history|
    ensures |r| == |history| + count
    decreases count
  {
    if count == 0 then history
    else CopiedBack(history + [history[|history| - distance]], distance, count - 1)
  }

  // Each copied byte equals the byte that far back, whether that is old or was just copied.
  lemma {:induction false} CopiedBackBytes(history: seq<byte>, distance: nat, count: nat)
    requires 1 <= distance <= |history|
    ensures CopiedBack(history, distance, count)[..|history|] == history
    ensures forall i | |history| <= i < |history| + count ::
              CopiedBack(history, distance, count)[i] == CopiedBack(history, distance, count)[i - distance]
    decreases count
  {
    if count > 0 {
      var next := history + [history[|history| - distance]];
      CopiedBackBytes(next, distance, count - 1);
      var r := CopiedBack(next, distance, count - 1);
      assert r[|history|] == next[|history|];
      assert r[|history| - distance] == r[..|next|][|history| - distance];
      assert r[..|history|] == r[..|next|][..|history|];
    }
  }

  // How many bytes ago position x of a wrapped buffer was written, when the next byte goes to `pos`.
  function Age(pos: nat, x: nat, size: nat): int {
    if x < pos then pos - x else pos + size - x
  }

  lemma CopiedNone(history: seq<byte>, distance: nat)
    requires 1 <= distance <= |history|
    ensures CopiedBack(history, distance, 0) == history
  {
  }

  lemma {:induction false} CopiedOneMore(history: seq<byte>, distance: nat, count: nat)
    requires 1 <= distance <= |history|
    ensures CopiedBack(history, distance, count + 1) == CopiedBack(CopiedBack(history, distance, count), distance, 1)
    decreases count
  {
    if count > 0 { CopiedOneMore(history + [history[|history| - distance]], distance, count - 1); }
  }
}
