// Reading codes with the -lh1- tree, and why an encoder that keeps the same tree is understood.

module Lh1Codes {
  import opened Bits
  import opened Lh1Tree
  import opened Lh1Words
  import opened Lh1Decoder
  import BitReader

  function CodeWord(t: Tree, code: nat): seq<bool>
    requires Walking(t, 0) && code < NUM_CODES
  {
    Path(t, t.leafNodes[code])
  }

  // Reading inverts writing: a code's word is read back as that code, and nothing after it is used.
  lemma CodeWordReadsBack(t: Tree, code: nat, rest: seq<bool>)
    requires Walking(t, 0) && code < NUM_CODES
    ensures Descend(t, 0, CodeWord(t, code) + rest) == Complete(code, rest)
  {
    PathLeadsThere(t, t.leafNodes[code], rest);
  }

  lemma PathStep(t: Tree, i: nat, bit: bool)
    requires Sized(t) && BranchLinks(t.nodes) && i < NUM_TREE_NODES && !t.nodes[i].leaf
    ensures var j := t.nodes[i].childIndex - BitOf(bit);
            i < j < NUM_TREE_NODES && Path(t, j) == Path(t, i) + [bit]
  {
    assert DownLink(t.nodes, i);
    var j := t.nodes[i].childIndex - BitOf(bit);
    assert j % 2 == 1 <==> bit;
  }

  lemma WalkingLinks(t: Tree, i: nat)
    requires Walking(t, 0) && i < NUM_TREE_NODES
    ensures Sized(t) && BranchLinks(t.nodes) && DownLink(t.nodes, i)
    ensures t.nodes[i].leaf ==> var c := t.nodes[i].childIndex; c < NUM_CODES && t.leafNodes[c] == i
  {
  }

  // And the other way round: what is read is a code, and its word was in the input.
  lemma {:induction false} ReadingWasWritten(t: Tree, i: nat, bits: seq<bool>)
    requires Walking(t, 0) && i < NUM_TREE_NODES && Descend(t, i, bits).Complete?
    ensures var r := Descend(t, i, bits);
            r.code < NUM_CODES && CodeWord(t, r.code) + r.rest == Path(t, i) + bits
    decreases NUM_TREE_NODES - i
  {
    hide Walking, BranchLinks;
    WalkingLinks(t, i);
    if !t.nodes[i].leaf {
      var j := t.nodes[i].childIndex - BitOf(bits[0]);
      PathStep(t, i, bits[0]);
      ReadingWasWritten(t, j, bits[1..]);
      assert Path(t, i) + [bits[0]] + bits[1..] == Path(t, i) + bits;
    }
  }

  // A run of the decoder: the tree before the first code, between codes, and after the last one.
  ghost predicate Run(trees: seq<Tree>, codes: seq<nat>)
  {
    && |trees| == |codes| + 1
    && (forall i | 0 <= i < |trees| :: Consistent(trees[i]))
    && (forall i | 0 <= i < |codes| :: codes[i] < NUM_CODES && Hit(trees[i], codes[i], trees[i + 1]))
  }

  // What an encoder keeping the same trees writes.
  ghost function Written(trees: seq<Tree>, codes: seq<nat>): seq<bool>
    requires Run(trees, codes)
  {
    if codes == [] then []
    else CodeWord(trees[0], codes[0]) + Written(trees[1..], codes[1..])
  }

  // Reading the first |codes| codes of the input while the tree follows the run.
  ghost predicate ReadsBack(trees: seq<Tree>, codes: seq<nat>, bits: seq<bool>, rest: seq<bool>)
    requires Run(trees, codes)
    decreases |codes|
  {
    if codes == [] then bits == rest
    else
      var r := Descend(trees[0], 0, bits);
      r.Complete? && r.code == codes[0] && ReadsBack(trees[1..], codes[1..], r.rest, rest)
  }

  // However the tree adapts, the decoder reads exactly the codes that were written.
  lemma {:induction false} RunReadsBack(trees: seq<Tree>, codes: seq<nat>, rest: seq<bool>)
    requires Run(trees, codes)
    ensures ReadsBack(trees, codes, Written(trees, codes) + rest, rest)
    decreases |codes|
  {
    hide Hit, CodeWord, Descend, Walking;
    if codes == [] {
      assert [] + rest == rest;
    } else {
      var tail := Written(trees[1..], codes[1..]) + rest;
      CodeWordReadsBack(trees[0], codes[0], tail);
      assert Written(trees, codes) + rest == CodeWord(trees[0], codes[0]) + tail;
      RunReadsBack(trees[1..], codes[1..], rest);
    }
  }

  // Read one code and adapt the tree to it; at the end of the input nothing changes.
  method ReadCode(decoder: Decoder, reader: BitReader.Reader) returns (ok: bool, code: nat)
    requires decoder.Allocated() && Consistent(decoder.View()) && reader.Valid()
    requires decoder.Apart({reader, reader.source})
    modifies reader, reader.source
    modifies decoder`numGroups, decoder.nodes, decoder.leafNodes, decoder.groups, decoder.groupLeader
    ensures reader.Valid() && Consistent(decoder.View())
    ensures ok ==>
              && code < NUM_CODES
              && Descend(old(decoder.View()), 0, old(reader.Unread())) == Complete(code, reader.Unread())
              && Hit(old(decoder.View()), code, decoder.View())
    ensures !ok ==>
              && Descend(old(decoder.View()), 0, old(reader.Unread())) == Incomplete
              && decoder.View() == old(decoder.View())
  {
    var nodeIndex := 0;
    while !decoder.nodes[nodeIndex].leaf
      invariant reader.Valid() && nodeIndex < NUM_TREE_NODES && decoder.View() == old(decoder.View())
      invariant Descend(decoder.View(), 0, old(reader.Unread())) == Descend(decoder.View(), nodeIndex, reader.Unread())
      decreases NUM_TREE_NODES - nodeIndex
    {
      assert DownLink(decoder.View().nodes, nodeIndex);
      var bit := reader.ReadBit();
      if bit < 0 {
        return false, 0;
      }
      nodeIndex := decoder.nodes[nodeIndex].childIndex - bit;
    }
    code := decoder.nodes[nodeIndex].childIndex;
    decoder.IncrementForCode(code);
    ok := true;
  }
}
