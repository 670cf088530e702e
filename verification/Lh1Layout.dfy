// The rebuilt tree of the -lh1- decoder (external/lhasa/lib/lh1_decoder.c) is determined by the order of the
// codes before and by their frequencies after the rebuild, so that a decoder and an encoder that
// keep the same counts go on with the same tree.

module Lh1Layout {
  import opened Lh1Tree
  import opened Lh1Rebuild
  import opened Lh1Decoder

  ghost predicate SameNode(ns: seq<Node>, us: seq<Node>, j: nat)
    requires j < |ns| == |us|
  {
    us[j].leaf == ns[j].leaf && us[j].childIndex == ns[j].childIndex && us[j].freq == ns[j].freq
  }

  // Two trees with the same frequencies for the codes, laid out by the same order.
  ghost predicate Twins(t: Tree, u: Tree, order: seq<nat>) {
    && Walking(t, 0) && Walking(u, 0) && |order| == NUM_CODES
    && Layout(t.nodes, order) && Layout(u.nodes, order)
    && (forall c | 0 <= c < NUM_CODES :: LeafFreq(t, c) == LeafFreq(u, c))
  }

  ghost predicate SameAbove(t: Tree, u: Tree, j: int)
    requires Sized(t) && Sized(u)
  {
    forall k: nat {:trigger SameNode(t.nodes, u.nodes, k)} | j < k < NUM_TREE_NODES :: SameNode(t.nodes, u.nodes, k)
  }

  lemma TwinsSwap(t: Tree, u: Tree, order: seq<nat>, j: int)
    requires Twins(t, u, order) && SameAbove(t, u, j)
    ensures Twins(u, t, order) && SameAbove(u, t, j)
  {
    forall k: nat | j < k < NUM_TREE_NODES ensures SameNode(u.nodes, t.nodes, k) {
      assert SameNode(t.nodes, u.nodes, k);
    }
  }

  lemma AboveAt(t: Tree, u: Tree, j: int, k: nat)
    requires Sized(t) && Sized(u) && SameAbove(t, u, j)
    ensures j < k < NUM_TREE_NODES ==> SameNode(t.nodes, u.nodes, k)
  {
  }

  lemma LaidOutAt(ns: seq<Node>, order: seq<nat>, i: nat, j: nat)
    requires |order| == NUM_CODES && Layout(ns, order)
    ensures i < j < |ns| ==> LaidOut(ns, order, i, j)
  {
  }

  // The code at j lies further left in the other tree, unless it is at j there too.
  lemma LeafElsewhere(t: Tree, u: Tree, order: seq<nat>, j: nat)
    requires Twins(t, u, order) && SameAbove(t, u, j) && j < NUM_TREE_NODES && t.nodes[j].leaf
    ensures var c := t.nodes[j].childIndex;
      && c < NUM_CODES && u.leafNodes[c] <= j && u.nodes[u.leafNodes[c]].leaf
      && u.nodes[u.leafNodes[c]].childIndex == c && u.nodes[u.leafNodes[c]].freq == t.nodes[j].freq
  {
    var c := t.nodes[j].childIndex;
    var i := u.leafNodes[c];
    assert t.leafNodes[c] == j;
    assert LeafFreq(t, c) == LeafFreq(u, c);
    AboveAt(t, u, j, i);
  }

  // So does the branch with the same children.
  lemma BranchElsewhere(t: Tree, u: Tree, order: seq<nat>, j: nat)
    requires Twins(t, u, order) && SameAbove(t, u, j) && j < NUM_TREE_NODES && !t.nodes[j].leaf
    ensures var m := t.nodes[j].childIndex;
      && j + 2 <= m < NUM_TREE_NODES && u.nodes[m].parent <= j && !u.nodes[u.nodes[m].parent].leaf
      && u.nodes[u.nodes[m].parent].childIndex == m && u.nodes[u.nodes[m].parent].freq == t.nodes[j].freq
  {
    var ns, us, m := t.nodes, u.nodes, t.nodes[j].childIndex;
    assert DownLink(ns, j);
    assert UpLink(us, m);
    var p := us[m].parent;
    AboveAt(t, u, j, p);
    assert p < |ns| ==> DownLink(ns, p);
    assert SameNode(ns, us, m) && SameNode(ns, us, m - 1);
    assert DownLink(us, p) && SumAt(ns, j, 0) && SumAt(us, p, 0);
  }

  lemma SameKind(t: Tree, u: Tree, order: seq<nat>, j: nat)
    requires Twins(t, u, order) && SameAbove(t, u, j) && j < NUM_TREE_NODES && t.nodes[j].leaf
    ensures u.nodes[j].leaf
  {
    LeafElsewhere(t, u, order, j);
    LaidOutAt(u.nodes, order, u.leafNodes[t.nodes[j].childIndex], j);
    TwinsSwap(t, u, order, j);
    if !u.nodes[j].leaf {
      BranchElsewhere(u, t, order, j);
    }
  }

  lemma SameAt(t: Tree, u: Tree, order: seq<nat>, j: nat)
    requires Twins(t, u, order) && SameAbove(t, u, j) && j < NUM_TREE_NODES
    ensures SameNode(t.nodes, u.nodes, j)
  {
    TwinsSwap(t, u, order, j);
    if t.nodes[j].leaf {
      SameKind(t, u, order, j);
      LeafElsewhere(t, u, order, j);
      LeafElsewhere(u, t, order, j);
      var c, d := t.nodes[j].childIndex, u.nodes[j].childIndex;
      LaidOutAt(u.nodes, order, u.leafNodes[c], j);
      LaidOutAt(t.nodes, order, t.leafNodes[d], j);
    } else {
      if u.nodes[j].leaf { SameKind(u, t, order, j); }
      BranchElsewhere(t, u, order, j);
      BranchElsewhere(u, t, order, j);
      var m, n := t.nodes[j].childIndex, u.nodes[j].childIndex;
      LaidOutAt(u.nodes, order, u.nodes[m].parent, j);
      LaidOutAt(t.nodes, order, t.nodes[n].parent, j);
    }
  }

  lemma {:induction false} SameFrom(t: Tree, u: Tree, order: seq<nat>, j: nat)
    requires Twins(t, u, order) && j <= NUM_TREE_NODES
    ensures SameAbove(t, u, j - 1)
    decreases NUM_TREE_NODES - j
  {
    if j < NUM_TREE_NODES {
      SameFrom(t, u, order, j + 1);
      SameAt(t, u, order, j);
    }
  }

  // Whatever the group numbers are, the rebuilt tree is the same: each position holds the same code or the
  // same children, with the same frequency and the same parent.
  lemma RebuiltIsDetermined(before: Tree, t: Tree, u: Tree, j: nat)
    requires Consistent(before) && Rebuilt(before, t) && Rebuilt(before, u) && j < NUM_TREE_NODES
    ensures SameNode(t.nodes, u.nodes, j) && (j > 0 ==> t.nodes[j].parent == u.nodes[j].parent)
    ensures t.leafNodes == u.leafNodes
  {
    assert Twins(t, u, before.leafNodes);
    SameFrom(t, u, before.leafNodes, 0);
    assert SameNode(t.nodes, u.nodes, j);
    if j > 0 {
      var p := t.nodes[j].parent;
      assert UpLink(t.nodes, j) && SameNode(t.nodes, u.nodes, p) && DownLink(u.nodes, p);
    }
    forall c | 0 <= c < NUM_CODES ensures t.leafNodes[c] == u.leafNodes[c] {
      assert SameNode(t.nodes, u.nodes, t.leafNodes[c]);
    }
  }
}
