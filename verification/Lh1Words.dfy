// How the -lh1- tree is read: the descent along the bits, the bits that lead to a node, and the words that
// the codes have in a new tree (external/lhasa/lib/lh1_decoder.c).

module Lh1Words {
  import opened Bits
  import opened Lh1Tree

  datatype Reading = Complete(code: nat, rest: seq<bool>) | Incomplete

  // Descend from node i: a 0 bit leads to the child at the even index, a 1 bit to the one before it.
  function Descend(t: Tree, i: nat, bits: seq<bool>): Reading
    requires Sized(t) && BranchLinks(t.nodes) && i < NUM_TREE_NODES
    decreases NUM_TREE_NODES - i
  {
    assert DownLink(t.nodes, i);
    if t.nodes[i].leaf then Complete(t.nodes[i].childIndex, bits)
    else if bits == [] then Incomplete
    else Descend(t, t.nodes[i].childIndex - BitOf(bits[0]), bits[1..])
  }

  // The bits that lead from the root to node i.
  function Path(t: Tree, i: nat): seq<bool>
    requires Sized(t) && BranchLinks(t.nodes) && i < NUM_TREE_NODES
  {
    if i == 0 then []
    else
      assert UpLink(t.nodes, i);
      Path(t, t.nodes[i].parent) + [i % 2 == 1]
  }

  lemma {:induction false} PathLeadsThere(t: Tree, i: nat, rest: seq<bool>)
    requires Sized(t) && BranchLinks(t.nodes) && i < NUM_TREE_NODES
    ensures Descend(t, 0, Path(t, i) + rest) == Descend(t, i, rest)
    decreases i
  {
    if i == 0 {
      assert Path(t, 0) + rest == rest;
    } else {
      var p := t.nodes[i].parent;
      assert UpLink(t.nodes, i) && DownLink(t.nodes, p);
      var bit := i % 2 == 1;
      PathLeadsThere(t, p, [bit] + rest);
      assert Path(t, i) + rest == Path(t, p) + ([bit] + rest);
      assert ([bit] + rest)[1..] == rest;
    }
  }

  // ---------------------------------------------------------------------------------------------
  // The words of a new tree
  // ---------------------------------------------------------------------------------------------

  // The codes from 116 on have the 8-bit numbers from 0 on, and those below it the 9-bit numbers that are
  // left, from 396 on; a number comes highest bit first.
  const FIRST_SHORT: nat := 116

  function NewWord(code: nat): seq<bool> {
    if code < FIRST_SHORT then ToBits(396 + code, 9) else ToBits(code - FIRST_SHORT, 8)
  }

  // The tree is laid out as a heap, with the codes backwards at its end.
  ghost predicate Heaped(ns: seq<Node>, from: int)
    requires |ns| == NUM_TREE_NODES
  {
    && (forall j | from <= j < NUM_TREE_NODES - NUM_CODES && 0 <= j :: !ns[j].leaf && ns[j].childIndex == 2 * j + 2)
    && (forall j | NUM_TREE_NODES - NUM_CODES <= j < NUM_TREE_NODES ::
          ns[j].leaf && ns[j].childIndex == NUM_TREE_NODES - 1 - j)
  }

  lemma HeapStep(t: Tree, i: nat, bit: bool, rest: seq<bool>)
    requires Sized(t) && BranchLinks(t.nodes) && Heaped(t.nodes, 0) && i < NUM_TREE_NODES - NUM_CODES
    ensures 2 * i + 2 < NUM_TREE_NODES
    ensures Descend(t, i, [bit] + rest) == Descend(t, 2 * i + 2 - BitOf(bit), rest)
  {
    hide BranchLinks;
    assert ([bit] + rest)[1..] == rest;
  }

  lemma NoBits(rest: seq<bool>)
    ensures ToBits(0, 0) + rest == rest
  {
  }

  lemma LastBit(v: nat, n: nat, rest: seq<bool>)
    requires n > 0
    ensures ToBits(v, n) + rest == ToBits(v / 2, n - 1) + ([v % 2 == 1] + rest)
  {
    hide *;
    assert ToBits(v, n) == ToBits(v / 2, n - 1) + [v % 2 == 1] by { BitsSnoc(v, n); }
  }

  lemma BitsSnoc(v: nat, n: nat)
    requires n > 0
    ensures ToBits(v, n) == ToBits(v / 2, n - 1) + [v % 2 == 1]
  {
  }

  // After the n bits of the number v the descent is at node 2^(n + 1) - 2 - v.
  lemma {:induction false} HeapDescent(t: Tree, v: nat, n: nat, rest: seq<bool>)
    requires Sized(t) && BranchLinks(t.nodes) && Heaped(t.nodes, 0)
    requires v < Pow2(n) && 2 * Pow2(n) - 2 - v < NUM_TREE_NODES
    ensures Descend(t, 0, ToBits(v, n) + rest) == Descend(t, 2 * Pow2(n) - 2 - v, rest)
    decreases n
  {
    hide BranchLinks, Descend, Heaped, ToBits;
    if n == 0 {
      NoBits(rest);
    } else {
      var bit := v % 2 == 1;
      var i := 2 * Pow2(n - 1) - 2 - v / 2;
      HeapDescent(t, v / 2, n - 1, [bit] + rest);
      LastBit(v, n, rest);
      HeapStep(t, i, bit, rest);
    }
  }

  lemma LeafReads(t: Tree, i: nat, rest: seq<bool>)
    requires Sized(t) && BranchLinks(t.nodes) && Heaped(t.nodes, 0) && NUM_TREE_NODES - NUM_CODES <= i < NUM_TREE_NODES
    ensures Descend(t, i, rest) == Complete(NUM_TREE_NODES - 1 - i, rest)
  {
    hide BranchLinks;
  }

  lemma NewWordReads(t: Tree, code: nat, rest: seq<bool>)
    requires Sized(t) && BranchLinks(t.nodes) && Heaped(t.nodes, 0) && code < NUM_CODES
    ensures Descend(t, 0, NewWord(code) + rest) == Complete(code, rest)
  {
    SmallPowers();
    hide BranchLinks, ToBits, Descend, Heaped, Pow2;
    if code < FIRST_SHORT {
      HeapDescent(t, 396 + code, 9, rest);
    } else {
      HeapDescent(t, code - FIRST_SHORT, 8, rest);
    }
    LeafReads(t, NUM_TREE_NODES - 1 - code, rest);
  }

  lemma SmallPowers()
    ensures Pow2(8) == 256 && Pow2(9) == 512
  {
  }
}
