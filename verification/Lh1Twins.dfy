// An encoder and a decoder of -lh1- each keep a tree of their own (external/lhasa/lib/lh1_decoder.c).  The
// numbers of the groups may differ, but they steer nothing: trees that are alike stay alike under every
// hit and every rebuild, and so what one writes the other reads.

module Lh1Twins {
  import opened Lh1Tree
  import opened Lh1Decoder
  import opened Lh1Layout
  import opened Lh1Codes
  import opened Lh1Words

  ghost predicate AlikeAt(ns: seq<Node>, us: seq<Node>, j: nat)
    requires j < |ns| == |us|
  {
    SameNode(ns, us, j) && (j > 0 ==> us[j].parent == ns[j].parent)
  }

  // The same tree up to the numbers of the groups.
  ghost predicate Alike(t: Tree, u: Tree) {
    && Sized(t) && Sized(u) && u.leafNodes == t.leafNodes
    && (forall j: nat {:trigger AlikeAt(t.nodes, u.nodes, j)} | j < NUM_TREE_NODES :: AlikeAt(t.nodes, u.nodes, j))
  }

  // ---------------------------------------------------------------------------------------------
  // Hits
  // ---------------------------------------------------------------------------------------------

  // The leader of a group is the first node of its frequency, whatever the group is called.
  lemma LeaderAlike(t: Tree, u: Tree, at: nat)
    requires Alike(t, u) && Walking(t, at) && Walking(u, at) && 0 < at
    ensures Leader(t, at) == Leader(u, at)
  {
    var l, m := Leader(t, at), Leader(u, at);
    LeaderFacts(t, at, l);
    LeaderFacts(u, at, m);
    assert Sorted(t.nodes);
    hide Walking, Sorted;
    assert AlikeAt(t.nodes, u.nodes, at) && AlikeAt(t.nodes, u.nodes, l) && AlikeAt(t.nodes, u.nodes, m);
    assert AlikeAt(t.nodes, u.nodes, l - 1) && AlikeAt(t.nodes, u.nodes, m - 1);
    LeftMost(t.nodes, at, l, m);
  }

  lemma LeftMost(ns: seq<Node>, at: nat, l: nat, m: nat)
    requires Sorted(ns) && at < |ns| && 0 < l <= at && 0 < m <= at
    requires ns[l].freq == ns[at].freq == ns[m].freq && ns[l - 1].freq > ns[at].freq && ns[m - 1].freq > ns[at].freq
    ensures l == m
  {
    SortedAt(ns, l, m - 1);
    SortedAt(ns, m, l - 1);
  }

  lemma SortedAt(ns: seq<Node>, i: nat, j: nat)
    requires Sorted(ns) && i < |ns| && j < |ns|
    ensures i <= j ==> ns[i].freq >= ns[j].freq
  {
  }

  lemma ExchangeAlike(t: Tree, u: Tree, a: nat, b: nat)
    requires Alike(t, u) && a < NUM_TREE_NODES && b < NUM_TREE_NODES
    ensures Alike(Exchanged(t, a, b), Exchanged(u, a, b))
  {
    forall j: nat | j < NUM_TREE_NODES ensures AlikeAt(Exchanged(t, a, b).nodes, Exchanged(u, a, b).nodes, j) {
      assert AlikeAt(t.nodes, u.nodes, j) && AlikeAt(t.nodes, u.nodes, Transposed(a, b, j));
    }
  }

  lemma IncrementAlike(t: Tree, u: Tree, i: nat)
    requires Alike(t, u) && 0 < i < NUM_TREE_NODES
    requires t.nodes[i].group < NUM_TREE_NODES && GroupRoom(t, i) && u.nodes[i].group < NUM_TREE_NODES
      && GroupRoom(u, i)
    ensures Alike(Incremented(t, i), Incremented(u, i))
  {
    forall j: nat | j < NUM_TREE_NODES ensures AlikeAt(Incremented(t, i).nodes, Incremented(u, i).nodes, j) {
      assert AlikeAt(t.nodes, u.nodes, j);
    }
  }

  lemma {:induction false} WalkAlike(t: Tree, u: Tree, at: nat)
    requires Alike(t, u) && Walking(t, at) && Walking(u, at)
    ensures Alike(Walk(t, at), Walk(u, at))
    decreases at
  {
    if at > 0 {
      hide Walking, Alike, Exchanged, Incremented, Walk;
      LeaderAlike(t, u, at);
      var l := WalkUnfolds(t, at);
      var m := WalkUnfolds(u, at);
      ExchangeAlike(t, u, l, at);
      IncrementAlike(Exchanged(t, l, at), Exchanged(u, l, at), l);
      var w, v := Incremented(Exchanged(t, l, at), l), Incremented(Exchanged(u, l, at), l);
      SameParent(w, v, l);
      WalkAlike(w, v, w.nodes[l].parent);
    }
  }

  lemma SameParent(t: Tree, u: Tree, j: nat)
    requires Alike(t, u) && 0 < j < NUM_TREE_NODES
    ensures t.nodes[j].parent == u.nodes[j].parent
  {
    assert AlikeAt(t.nodes, u.nodes, j);
  }

  lemma CountedAlike(t: Tree, u: Tree, code: nat)
    requires Alike(t, u) && Walking(t, 0) && Walking(u, 0) && code < NUM_CODES
    ensures Alike(Counted(t, code), Counted(u, code))
  {
    RootBumpStartsWalk(t, code);
    RootBumpStartsWalk(u, code);
    RootBumpedAlike(t, u);
    hide Walking, Alike, RootBumped, Walk;
    WalkAlike(RootBumped(t), RootBumped(u), t.leafNodes[code]);
  }

  lemma RootBumpedAlike(t: Tree, u: Tree)
    requires Alike(t, u)
    ensures Alike(RootBumped(t), RootBumped(u)) && u.leafNodes == t.leafNodes
  {
    forall j: nat | j < NUM_TREE_NODES ensures AlikeAt(RootBumped(t).nodes, RootBumped(u).nodes, j) {
      assert AlikeAt(t.nodes, u.nodes, j);
    }
  }

  // ---------------------------------------------------------------------------------------------
  // Rebuilds
  // ---------------------------------------------------------------------------------------------

  lemma SameLeafFreq(t: Tree, u: Tree, c: nat)
    requires Alike(t, u) && c < NUM_CODES && t.leafNodes[c] < NUM_TREE_NODES
    ensures LeafFreq(u, c) == LeafFreq(t, c)
  {
    assert AlikeAt(t.nodes, u.nodes, t.leafNodes[c]);
  }

  lemma RebuiltAlike(t: Tree, u: Tree, r: Tree, v: Tree)
    requires Consistent(t) && Consistent(u) && Alike(t, u) && Rebuilt(t, r) && Rebuilt(u, v)
    ensures Alike(r, v)
  {
    forall c | 0 <= c < NUM_CODES ensures LeafFreq(r, c) == LeafFreq(v, c) { SameLeafFreq(t, u, c); }
    assert Twins(r, v, t.leafNodes);
    TwinsAlike(r, v, t.leafNodes);
  }

  lemma TwinsAlike(t: Tree, u: Tree, order: seq<nat>)
    requires Twins(t, u, order)
    ensures Alike(t, u)
  {
    SameFrom(t, u, order, 0);
    forall j: nat | j < NUM_TREE_NODES ensures AlikeAt(t.nodes, u.nodes, j) {
      assert SameNode(t.nodes, u.nodes, j);
      if j > 0 {
        assert UpLink(t.nodes, j) && SameNode(t.nodes, u.nodes, t.nodes[j].parent)
          && DownLink(u.nodes, t.nodes[j].parent);
      }
    }
    forall c | 0 <= c < NUM_CODES ensures t.leafNodes[c] == u.leafNodes[c] {
      assert SameNode(t.nodes, u.nodes, t.leafNodes[c]);
    }
  }

  // One hit, with a rebuild or without, leaves trees that were alike alike.
  lemma HitAlike(t: Tree, u: Tree, code: nat, t': Tree, u': Tree)
    requires Consistent(t) && Consistent(u) && Alike(t, u) && code < NUM_CODES
    requires Hit(t, code, t') && Hit(u, code, u')
    ensures Alike(t', u')
  {
    assert AlikeAt(t.nodes, u.nodes, 0);
    if t.nodes[0].freq < TREE_REORDER_LIMIT {
      CountedAlike(t, u, code);
    } else {
      var r: Tree :| Rebuilt(t, r) && t' == Counted(r, code);
      var v: Tree :| Rebuilt(u, v) && u' == Counted(v, code);
      RebuiltAlike(t, u, r, v);
      CountedAlike(r, v, code);
    }
  }

  // ---------------------------------------------------------------------------------------------
  // Codewords
  // ---------------------------------------------------------------------------------------------

  lemma {:induction false} PathAlike(t: Tree, u: Tree, i: nat)
    requires Alike(t, u) && BranchLinks(t.nodes) && BranchLinks(u.nodes) && i < NUM_TREE_NODES
    ensures Path(t, i) == Path(u, i)
    decreases i
  {
    if i > 0 {
      assert UpLink(t.nodes, i) && AlikeAt(t.nodes, u.nodes, i);
      PathAlike(t, u, t.nodes[i].parent);
    }
  }

  lemma CodeWordAlike(t: Tree, u: Tree, code: nat)
    requires Alike(t, u) && Walking(t, 0) && Walking(u, 0) && code < NUM_CODES
    ensures CodeWord(t, code) == CodeWord(u, code)
  {
    PathAlike(t, u, t.leafNodes[code]);
  }

  // ---------------------------------------------------------------------------------------------
  // Runs
  // ---------------------------------------------------------------------------------------------

  lemma FirstHit(trees: seq<Tree>, codes: seq<nat>)
    requires Run(trees, codes)
    ensures Consistent(trees[0]) && Walking(trees[0], 0)
    ensures codes != [] ==>
      && codes[0] < NUM_CODES && Consistent(trees[1]) && Hit(trees[0], codes[0], trees[1])
      && Run(trees[1..], codes[1..]) && trees[1..][0] == trees[1]
  {
  }

  // Over the same codes, from trees that are alike, the same bits are written.
  lemma {:induction false} WrittenAlike(trees: seq<Tree>, others: seq<Tree>, codes: seq<nat>)
    requires Run(trees, codes) && Run(others, codes) && Alike(trees[0], others[0])
    ensures Written(trees, codes) == Written(others, codes)
    ensures Alike(trees[|codes|], others[|codes|])
    decreases |codes|
  {
    if codes != [] {
      hide Consistent, Walking, Hit, Alike, CodeWord, Run;
      FirstHit(trees, codes);
      FirstHit(others, codes);
      CodeWordAlike(trees[0], others[0], codes[0]);
      HitAlike(trees[0], others[0], codes[0], trees[1], others[1]);
      WrittenAlike(trees[1..], others[1..], codes[1..]);
    }
  }

  // What an encoder writes with its own trees, a decoder reads with its own.
  lemma OthersReadBack(trees: seq<Tree>, others: seq<Tree>, codes: seq<nat>, rest: seq<bool>)
    requires Run(trees, codes) && Run(others, codes) && Alike(trees[0], others[0])
    ensures ReadsBack(others, codes, Written(trees, codes) + rest, rest)
  {
    hide Run, Alike, ReadsBack;
    WrittenAlike(trees, others, codes);
    RunReadsBack(others, codes, rest);
  }
}
