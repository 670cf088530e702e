// The adaptive Huffman tree of the -lh1- decoder (external/lhasa/lib/lh1_decoder.c).
//
// The tree lives in an array that is kept in order of decreasing frequency.  Nodes of equal
// frequency share a group, and a table maps each group to its left-most node, so that a node can be
// moved to the front of its group without a scan.  This module states what a consistent tree is and
// proves that each step of the walk from a leaf to the root keeps it consistent.

module Lh1Tree {

  const NUM_CODES: nat := 314
  const NUM_TREE_NODES: nat := 2 * NUM_CODES - 1
  const TREE_REORDER_LIMIT: nat := 32 * 1024

  // `childIndex` is the code of a leaf; the children of a branch are childIndex and childIndex - 1.
  datatype Node = Node(leaf: bool, childIndex: nat, parent: nat, freq: nat, group: nat)

  // The decoder's tree fields, as one value.
  datatype Tree = Tree(nodes: seq<Node>, leafNodes: seq<nat>,
                       groups: seq<nat>, numGroups: nat, groupLeader: seq<nat>)

  // ---------------------------------------------------------------------------------------------
  // What a consistent tree is
  // ---------------------------------------------------------------------------------------------

  predicate Sized(t: Tree) {
    && |t.nodes| == |t.groups| == |t.groupLeader| == NUM_TREE_NODES
    && |t.leafNodes| == NUM_CODES
  }

  // Siblings sit next to each other; the right one has the even index.
  function RightSibling(i: nat): nat {
    if i % 2 == 0 then i else i + 1
  }

  ghost predicate LeafLinks(ns: seq<Node>, ln: seq<nat>)
    requires |ns| == NUM_TREE_NODES && |ln| == NUM_CODES
  {
    && (forall i | 0 <= i < NUM_TREE_NODES && ns[i].leaf ::
          ns[i].childIndex < NUM_CODES && ln[ns[i].childIndex] == i)
    && (forall c | 0 <= c < NUM_CODES ::
          ln[c] < NUM_TREE_NODES && ns[ln[c]].leaf && ns[ln[c]].childIndex == c)
  }

  // A branch points at two adjacent later nodes that point back at it.
  ghost predicate DownLink(ns: seq<Node>, i: nat)
    requires i < |ns|
  {
    !ns[i].leaf ==>
      && i + 2 <= ns[i].childIndex < |ns|
      && ns[i].childIndex % 2 == 0
      && ns[ns[i].childIndex].parent == i
      && ns[ns[i].childIndex - 1].parent == i
  }

  // Every node but the root has an earlier branch as its parent, which has it as a child.
  ghost predicate UpLink(ns: seq<Node>, i: nat)
    requires 1 <= i < |ns|
  {
    && ns[i].parent < i
    && !ns[ns[i].parent].leaf
    && ns[ns[i].parent].childIndex == RightSibling(i)
  }

  ghost predicate BranchLinks(ns: seq<Node>)
  {
    && (forall i: nat {:trigger DownLink(ns, i)} | i < |ns| :: DownLink(ns, i))
    && (forall i: nat {:trigger UpLink(ns, i)} | 1 <= i < |ns| :: UpLink(ns, i))
  }

  ghost predicate Sorted(ns: seq<Node>)
  {
    && (forall i, j | 0 <= i <= j < |ns| :: ns[i].freq >= ns[j].freq)
    && (forall i | 0 <= i < |ns| :: ns[i].freq >= 1)
  }

  // Each branch carries the sum of its children, with two exceptions while the walk stands on node
  // `at`: that node still lacks the increment its children already have, and the root already has an
  // increment that its children still lack.  At the root the two cancel.
  ghost predicate SumAt(ns: seq<Node>, i: nat, at: nat)
    requires i < |ns| && DownLink(ns, i)
  {
    !ns[i].leaf ==>
      ns[i].freq + (if i == at then 1 else 0) ==
      ns[ns[i].childIndex].freq + ns[ns[i].childIndex - 1].freq + (if i == 0 then 1 else 0)
  }

  ghost predicate Sums(ns: seq<Node>, at: nat)
    requires BranchLinks(ns)
  {
    forall i: nat {:trigger SumAt(ns, i, at)} | i < |ns| :: SumAt(ns, i, at)
  }

  // The leader of a node's group is the left-most node of the same frequency: in a sorted list, the
  // one whose left neighbour is heavier.
  ghost predicate LeaderAt(ns: seq<Node>, leader: seq<nat>, i: nat)
    requires i < |ns| == |leader|
  {
    && ns[i].group < |ns|
    && leader[ns[i].group] <= i
    && ns[leader[ns[i].group]].freq == ns[i].freq
    && (0 < leader[ns[i].group] ==> ns[leader[ns[i].group] - 1].freq > ns[i].freq)
  }

  // Groups are exactly the classes of equal frequency.
  ghost predicate SameGroup(ns: seq<Node>, i: nat, j: nat)
    requires i < |ns| && j < |ns|
  {
    ns[i].group == ns[j].group <==> ns[i].freq == ns[j].freq
  }

  ghost predicate Grouped(ns: seq<Node>, leader: seq<nat>)
    requires |ns| == |leader|
  {
    && (forall i | 0 <= i < |ns| :: ns[i].group < |ns| && leader[ns[i].group] < |ns|)
    && (forall i: nat {:trigger LeaderAt(ns, leader, i)} | i < |ns| :: LeaderAt(ns, leader, i))
    && (forall i: nat, j: nat {:trigger SameGroup(ns, i, j)} | i < |ns| && j < |ns| :: SameGroup(ns, i, j))
  }

  ghost function UsedGroups(ns: seq<Node>): set<nat> {
    set i | 0 <= i < |ns| :: ns[i].group
  }

  // The tail of the groups array lists each unused group once.
  ghost predicate FreeList(ns: seq<Node>, groups: seq<nat>, numGroups: nat)
    requires |groups| == NUM_TREE_NODES
  {
    && numGroups <= NUM_TREE_NODES
    && (forall k, l | numGroups <= k < l < NUM_TREE_NODES :: groups[k] != groups[l])
    && (forall k | numGroups <= k < NUM_TREE_NODES :: groups[k] < NUM_TREE_NODES)
    && (forall g: nat | g < NUM_TREE_NODES :: g in groups[numGroups..] <==> g !in UsedGroups(ns))
  }

  // Total frequency of the leaves among the first n nodes.
  function LeafWeight(ns: seq<Node>, n: nat): nat
    requires n <= |ns|
  {
    if n == 0 then 0
    else LeafWeight(ns, n - 1) + (if ns[n - 1].leaf then ns[n - 1].freq else 0)
  }

  // The state of the walk at node `at`; with at == 0 this is the resting state between codes.
  ghost predicate Walking(t: Tree, at: nat)
  {
    && Sized(t)
    && at < NUM_TREE_NODES
    && LeafLinks(t.nodes, t.leafNodes)
    && BranchLinks(t.nodes)
    && Sorted(t.nodes)
    && Sums(t.nodes, at)
    && Grouped(t.nodes, t.groupLeader)
    && FreeList(t.nodes, t.groups, t.numGroups)
  }

  ghost predicate Consistent(t: Tree)
  {
    && Walking(t, 0)
    && t.nodes[0].freq == LeafWeight(t.nodes, NUM_TREE_NODES) <= TREE_REORDER_LIMIT
  }

  function LeafFreq(t: Tree, c: nat): nat
    requires Sized(t) && c < NUM_CODES && t.leafNodes[c] < NUM_TREE_NODES
  {
    t.nodes[t.leafNodes[c]].freq
  }

  // ---------------------------------------------------------------------------------------------
  // One step: move the node to the front of its group
  // ---------------------------------------------------------------------------------------------

  // The transposition of positions a and b.
  function Transposed(a: nat, b: nat, k: nat): nat {
    if k == a then b else if k == b then a else k
  }

  // The tree with the subtrees at a and b exchanged; frequencies and groups belong to the positions.
  function Exchanged(t: Tree, a: nat, b: nat): Tree
    requires Sized(t) && a < NUM_TREE_NODES && b < NUM_TREE_NODES
  {
    t.(nodes := seq(NUM_TREE_NODES, k requires 0 <= k < NUM_TREE_NODES =>
                      var from := t.nodes[Transposed(a, b, k)];
                      t.nodes[k].(leaf := from.leaf, childIndex := from.childIndex,
                                  parent := if k == 0 then t.nodes[0].parent
                                            else Transposed(a, b, t.nodes[k].parent))),
       leafNodes := seq(NUM_CODES, c requires 0 <= c < NUM_CODES => Transposed(a, b, t.leafNodes[c])))
  }

  function Leader(t: Tree, i: nat): nat
    requires Sized(t) && i < NUM_TREE_NODES && t.nodes[i].group < NUM_TREE_NODES
  {
    t.groupLeader[t.nodes[i].group]
  }

  // A branch is strictly heavier than its children, unless it still lacks their increment.
  lemma ChildrenLighter(ns: seq<Node>, at: nat, i: nat)
    requires BranchLinks(ns) && Sorted(ns) && Sums(ns, at)
    requires i < |ns| && !ns[i].leaf && i != at
    ensures i + 2 <= ns[i].childIndex < |ns|
    ensures ns[i].freq > ns[ns[i].childIndex - 1].freq
    ensures ns[i].freq > ns[ns[i].childIndex].freq
  {
    assert DownLink(ns, i) && SumAt(ns, i, at);
  }

  lemma RootHeaviest(ns: seq<Node>, at: nat, i: nat)
    requires BranchLinks(ns) && Sorted(ns) && Sums(ns, at)
    requires 0 < at && 0 < i < |ns|
    ensures ns[0].freq > ns[i].freq
  {
    assert UpLink(ns, 1);
    ChildrenLighter(ns, at, 0);
  }

  lemma LeaderFacts(t: Tree, at: nat, l: nat)
    requires Walking(t, at) && 0 < at && l == Leader(t, at)
    ensures 0 < l <= at
    ensures t.nodes[l].freq == t.nodes[at].freq
    ensures t.nodes[l - 1].freq > t.nodes[at].freq
  {
    RootHeaviest(t.nodes, at, at);
    assert LeaderAt(t.nodes, t.groupLeader, at);
  }

  // Everything below the two nodes to be exchanged is to the right of both, and everything above is
  // to the left of both.
  lemma ExchangeInOrder(ns: seq<Node>, at: nat, l: nat)
    requires BranchLinks(ns) && Sorted(ns) && Sums(ns, at)
    requires 0 < l <= at < |ns| && ns[l].freq == ns[at].freq
    ensures l != at && !ns[l].leaf ==> at + 2 <= ns[l].childIndex
    ensures ns[at].parent < l
  {
    if l != at && !ns[l].leaf {
      ChildrenLighter(ns, at, l);
      assert ns[l].childIndex - 1 > at;
    }
    assert UpLink(ns, at);
    ChildrenLighter(ns, at, ns[at].parent);
  }

  lemma ExchangeLeafLinks(t: Tree, a: nat, b: nat)
    requires Sized(t) && a < NUM_TREE_NODES && b < NUM_TREE_NODES
    requires LeafLinks(t.nodes, t.leafNodes)
    ensures LeafLinks(Exchanged(t, a, b).nodes, Exchanged(t, a, b).leafNodes)
  {
    var u := Exchanged(t, a, b);
    forall i | 0 <= i < NUM_TREE_NODES && u.nodes[i].leaf
      ensures u.nodes[i].childIndex < NUM_CODES && u.leafNodes[u.nodes[i].childIndex] == i
    {
      assert t.nodes[Transposed(a, b, i)].leaf;
    }
    forall c | 0 <= c < NUM_CODES
      ensures u.leafNodes[c] < NUM_TREE_NODES
      ensures u.nodes[u.leafNodes[c]].leaf && u.nodes[u.leafNodes[c]].childIndex == c
    {
      assert Transposed(a, b, Transposed(a, b, t.leafNodes[c])) == t.leafNodes[c];
    }
  }

  lemma ExchangeBranchLinks(t: Tree, at: nat, l: nat)
    requires Sized(t) && 0 < l <= at < NUM_TREE_NODES && BranchLinks(t.nodes)
    requires t.nodes[at].parent < l
    requires l != at && !t.nodes[l].leaf ==> at + 2 <= t.nodes[l].childIndex
    ensures BranchLinks(Exchanged(t, l, at).nodes)
  {
    var ns, us := t.nodes, Exchanged(t, l, at).nodes;
    forall i: nat | i < NUM_TREE_NODES ensures DownLink(us, i) {
      assert DownLink(ns, Transposed(l, at, i));
    }
    forall i: nat | 1 <= i < NUM_TREE_NODES ensures UpLink(us, i) {
      assert UpLink(ns, i);
    }
  }

  lemma ExchangeSums(t: Tree, at: nat, l: nat)
    requires Sized(t) && 0 < l <= at < NUM_TREE_NODES && BranchLinks(t.nodes)
    requires t.nodes[l].freq == t.nodes[at].freq
    requires Sums(t.nodes, at)
    requires BranchLinks(Exchanged(t, l, at).nodes)
    ensures Sums(Exchanged(t, l, at).nodes, l)
  {
    var ns, us := t.nodes, Exchanged(t, l, at).nodes;
    forall i: nat | i < NUM_TREE_NODES ensures SumAt(us, i, l) {
      assert DownLink(us, i);
      if !us[i].leaf {
        var j := Transposed(l, at, i);
        assert DownLink(ns, j) && SumAt(ns, j, at);
        assert us[i].childIndex == ns[j].childIndex && us[i].freq == ns[j].freq;
        assert i == l <==> j == at;
      }
    }
  }

  // Predicates about frequencies and groups only see the positions, which an exchange leaves alone.
  lemma SameWeightsSameGroups(ns: seq<Node>, us: seq<Node>, t: Tree)
    requires |ns| == |us| == NUM_TREE_NODES && Sized(t)
    requires forall i | 0 <= i < NUM_TREE_NODES :: us[i].freq == ns[i].freq && us[i].group == ns[i].group
    requires Sorted(ns) && Grouped(ns, t.groupLeader) && FreeList(ns, t.groups, t.numGroups)
    ensures Sorted(us) && Grouped(us, t.groupLeader) && FreeList(us, t.groups, t.numGroups)
  {
    assert UsedGroups(us) == UsedGroups(ns);
    forall i: nat | i < NUM_TREE_NODES ensures LeaderAt(us, t.groupLeader, i) {
      assert LeaderAt(ns, t.groupLeader, i);
    }
    forall i: nat, j: nat | i < NUM_TREE_NODES && j < NUM_TREE_NODES ensures SameGroup(us, i, j) {
      assert SameGroup(ns, i, j);
    }
  }

  lemma {:induction false} ExchangeLeafWeight(t: Tree, a: nat, b: nat, n: nat)
    requires Sized(t) && a < NUM_TREE_NODES && b < NUM_TREE_NODES && n <= NUM_TREE_NODES
    requires t.nodes[a].freq == t.nodes[b].freq
    requires a < n && b < n
    ensures LeafWeight(Exchanged(t, a, b).nodes, n) == LeafWeight(t.nodes, n)
  {
    ExchangePartialWeight(t, a, b, n);
  }

  function LeafShare(n: Node): int {
    if n.leaf then n.freq else 0
  }

  lemma {:induction false} ExchangePartialWeight(t: Tree, a: nat, b: nat, n: nat)
    requires Sized(t) && a < NUM_TREE_NODES && b < NUM_TREE_NODES && n <= NUM_TREE_NODES
    requires t.nodes[a].freq == t.nodes[b].freq
    ensures LeafWeight(Exchanged(t, a, b).nodes, n) ==
            LeafWeight(t.nodes, n)
            + (if a < n then LeafShare(t.nodes[b]) - LeafShare(t.nodes[a]) else 0)
            + (if b < n && a != b then LeafShare(t.nodes[a]) - LeafShare(t.nodes[b]) else 0)
  {
    if n > 0 {
      ExchangePartialWeight(t, a, b, n - 1);
    }
  }

  lemma ExchangeKeepsLeafFreq(t: Tree, a: nat, b: nat, c: nat)
    requires Sized(t) && LeafLinks(t.nodes, t.leafNodes)
    requires a < NUM_TREE_NODES && b < NUM_TREE_NODES && t.nodes[a].freq == t.nodes[b].freq && c < NUM_CODES
    ensures LeafFreq(Exchanged(t, a, b), c) == LeafFreq(t, c)
  {
  }

  // Moving the node to the front of its group keeps the tree consistent, with the walk now standing
  // at the leader's place, and changes no code's frequency.
  lemma ExchangeKeepsWalking(t: Tree, at: nat)
    requires Walking(t, at) && 0 < at
    ensures var l := Leader(t, at);
            && Walking(Exchanged(t, l, at), l)
            && LeafWeight(Exchanged(t, l, at).nodes, NUM_TREE_NODES) == LeafWeight(t.nodes, NUM_TREE_NODES)
            && (forall c | 0 <= c < NUM_CODES :: LeafFreq(Exchanged(t, l, at), c) == LeafFreq(t, c))
  {
    var l := Leader(t, at);
    LeaderFacts(t, at, l);
    ExchangeInOrder(t.nodes, at, l);
    ExchangeLeafLinks(t, l, at);
    ExchangeBranchLinks(t, at, l);
    ExchangeSums(t, at, l);
    ExchangeLeafWeight(t, l, at, NUM_TREE_NODES);
    SameWeightsSameGroups(t.nodes, Exchanged(t, l, at).nodes, t);
    forall c | 0 <= c < NUM_CODES ensures LeafFreq(Exchanged(t, l, at), c) == LeafFreq(t, c) {
      ExchangeKeepsLeafFreq(t, l, at, c);
    }
  }

  // ---------------------------------------------------------------------------------------------
  // One step: count the node's hit and regroup it
  // ---------------------------------------------------------------------------------------------

  predicate SharesGroup(t: Tree, i: nat)
    requires Sized(t) && i < NUM_TREE_NODES
  {
    i < NUM_TREE_NODES - 1 && t.nodes[i].group == t.nodes[i + 1].group
  }

  // There is a group to allocate, or one to free.
  predicate GroupRoom(t: Tree, i: nat)
    requires Sized(t) && i < NUM_TREE_NODES
  {
    if SharesGroup(t, i) then t.numGroups < NUM_TREE_NODES && t.groups[t.numGroups] < NUM_TREE_NODES
    else 0 < t.numGroups <= NUM_TREE_NODES
  }

  // The tree after the front node of a group has gained one hit.
  function Incremented(t: Tree, i: nat): Tree
    requires Sized(t) && 0 < i < NUM_TREE_NODES
    requires t.nodes[i].group < NUM_TREE_NODES && GroupRoom(t, i)
  {
    var node, left := t.nodes[i], t.nodes[i - 1];
    var freq := node.freq + 1;
    if SharesGroup(t, i) then
      var leader := t.groupLeader[node.group := t.groupLeader[node.group] + 1];
      if freq == left.freq then
        t.(nodes := t.nodes[i := node.(freq := freq, group := left.group)], groupLeader := leader)
      else
        var group := t.groups[t.numGroups];
        t.(nodes := t.nodes[i := node.(freq := freq, group := group)],
           numGroups := t.numGroups + 1,
           groupLeader := leader[group := i])
    else if freq == left.freq then
      t.(nodes := t.nodes[i := node.(freq := freq, group := left.group)],
         numGroups := t.numGroups - 1,
         groups := t.groups[t.numGroups - 1 := node.group])
    else
      t.(nodes := t.nodes[i := node.(freq := freq)])
  }

  lemma {:induction false} UsedGroupsBound(ns: seq<Node>)
    ensures |UsedGroups(ns)| <= |ns|
  {
    if |ns| > 0 {
      var init := ns[..|ns| - 1];
      UsedGroupsBound(init);
      assert UsedGroups(ns) == UsedGroups(init) + {ns[|ns| - 1].group} by {
        assert forall i | 0 <= i < |init| :: ns[i] == init[i];
        forall g | g in UsedGroups(ns) ensures g in UsedGroups(init) + {ns[|ns| - 1].group} {
          var i :| 0 <= i < |ns| && ns[i].group == g;
          if i < |init| {
            assert init[i].group == g;
          }
        }
      }
    }
  }

  function Ids(n: nat): (s: set<nat>)
    ensures |s| == n
    ensures forall g: nat :: g in s <==> g < n
  {
    if n == 0 then {} else Ids(n - 1) + {n - 1}
  }

  // While two nodes share a group, some group id is free: allocating one never runs past the array.
  lemma FreeGroupExists(ns: seq<Node>, groups: seq<nat>, numGroups: nat, i: nat)
    requires |ns| == |groups| == NUM_TREE_NODES && FreeList(ns, groups, numGroups)
    requires i < NUM_TREE_NODES - 1 && ns[i].group == ns[i + 1].group
    ensures numGroups < NUM_TREE_NODES
  {
    if numGroups == NUM_TREE_NODES {
      var others := ns[..i] + ns[i + 1..];
      forall g | g in Ids(NUM_TREE_NODES) ensures g in UsedGroups(others) {
        assert g !in groups[numGroups..];
        var k :| 0 <= k < NUM_TREE_NODES && ns[k].group == g;
        if k <= i {
          assert others[if k < i then k else i].group == g;
        } else {
          assert others[k - 1].group == g;
        }
      }
      UsedGroupsBound(others);
      SubsetCard(Ids(NUM_TREE_NODES), UsedGroups(others));
    }
  }

  lemma {:induction false} SubsetCard(a: set<nat>, b: set<nat>)
    requires a <= b
    ensures |a| <= |b|
  {
    if a != {} {
      var x :| x in a;
      SubsetCard(a - {x}, b - {x});
    }
  }

  // A used group id is never on the free list, so the list is not full.
  lemma SomeGroupUsed(ns: seq<Node>, groups: seq<nat>, numGroups: nat, i: nat)
    requires |ns| == |groups| == NUM_TREE_NODES && FreeList(ns, groups, numGroups)
    requires i < NUM_TREE_NODES && ns[i].group < NUM_TREE_NODES
    ensures 0 < numGroups
  {
    if numGroups == 0 {
      assert ns[i].group in UsedGroups(ns);
      assert groups[0..] == groups;
      DistinctCover(groups, ns[i].group);
    }
  }

  function Elements(s: seq<nat>): set<nat> {
    set k | 0 <= k < |s| :: s[k]
  }

  // A list of n distinct ids below n holds every id below n.
  lemma DistinctCover(s: seq<nat>, x: nat)
    requires forall k, l | 0 <= k < l < |s| :: s[k] != s[l]
    requires forall k | 0 <= k < |s| :: s[k] < |s|
    requires x < |s|
    ensures x in s
  {
    if x !in s {
      DistinctCard(s);
      SubsetCard(Elements(s), Ids(|s|) - {x});
    }
  }

  lemma {:induction false} DistinctCard(s: seq<nat>)
    requires forall k, l | 0 <= k < l < |s| :: s[k] != s[l]
    ensures |Elements(s)| == |s|
  {
    if |s| > 0 {
      var init, last := s[..|s| - 1], s[|s| - 1];
      DistinctCard(init);
      assert last !in Elements(init);
      assert Elements(s) == Elements(init) + {last} by {
        forall g | g in Elements(s) ensures g in Elements(init) + {last} {
          var k :| 0 <= k < |s| && s[k] == g;
          if k < |init| {
            assert init[k] == g;
          }
        }
        forall g | g in Elements(init) ensures g in Elements(s) {
          var k :| 0 <= k < |init| && init[k] == g;
          assert s[k] == g;
        }
      }
    }
  }

  ghost predicate CanIncrement(t: Tree, i: nat) {
    && Walking(t, i) && 0 < i && Leader(t, i) == i
  }

  lemma IncrementDefined(t: Tree, i: nat)
    requires CanIncrement(t, i)
    ensures GroupRoom(t, i)
    ensures t.nodes[i - 1].freq > t.nodes[i].freq
  {
    LeaderFacts(t, i, i);
    if SharesGroup(t, i) {
      FreeGroupExists(t.nodes, t.groups, t.numGroups, i);
    } else {
      SomeGroupUsed(t.nodes, t.groups, t.numGroups, i);
    }
  }

  // The parts of the step seen only through the node list: node i becomes one heavier.
  ghost predicate Bumped(ns: seq<Node>, us: seq<Node>, i: nat) {
    && |ns| == |us| && i < |ns|
    && us == ns[i := ns[i].(freq := ns[i].freq + 1, group := us[i].group)]
  }

  lemma BumpKeepsShape(ns: seq<Node>, us: seq<Node>, i: nat)
    requires Bumped(ns, us, i) && 0 < i
    requires BranchLinks(ns) && Sorted(ns) && Sums(ns, i) && ns[i - 1].freq > ns[i].freq
    ensures BranchLinks(us) && Sorted(us) && us[i].parent < i && Sums(us, us[i].parent)
  {
    assert forall k | 0 <= k < |ns| :: us[k].leaf == ns[k].leaf && us[k].childIndex == ns[k].childIndex
                                       && us[k].parent == ns[k].parent;
    forall k: nat | k < |us| ensures DownLink(us, k) {
      assert DownLink(ns, k);
    }
    forall k: nat | 1 <= k < |us| ensures UpLink(us, k) {
      assert UpLink(ns, k);
    }
    BumpKeepsSums(ns, us, i);
  }

  lemma BumpKeepsSums(ns: seq<Node>, us: seq<Node>, i: nat)
    requires Bumped(ns, us, i) && 0 < i
    requires BranchLinks(ns) && Sums(ns, i) && BranchLinks(us)
    ensures us[i].parent < i && Sums(us, us[i].parent)
  {
    assert UpLink(ns, i);
    var p := ns[i].parent;
    forall k: nat | k < |us| ensures SumAt(us, k, p) {
      assert DownLink(ns, k) && DownLink(us, k) && SumAt(ns, k, i);
      if !ns[k].leaf && k != p {
        assert ns[k].childIndex != RightSibling(i);
      }
    }
  }

  lemma BumpKeepsLeaves(t: Tree, u: Tree, i: nat)
    requires Sized(t) && Sized(u) && LeafLinks(t.nodes, t.leafNodes)
    requires Bumped(t.nodes, u.nodes, i) && u.leafNodes == t.leafNodes
    ensures LeafLinks(u.nodes, u.leafNodes)
    ensures forall c | 0 <= c < NUM_CODES ::
              LeafFreq(u, c) == LeafFreq(t, c) + (if t.leafNodes[c] == i then 1 else 0)
  {
    assert forall k | 0 <= k < NUM_TREE_NODES ::
        u.nodes[k].leaf == t.nodes[k].leaf && u.nodes[k].childIndex == t.nodes[k].childIndex;
  }

  lemma {:induction false} BumpLeafWeight(ns: seq<Node>, us: seq<Node>, i: nat, n: nat)
    requires Bumped(ns, us, i) && n <= |ns|
    ensures LeafWeight(us, n) == LeafWeight(ns, n) + (if i < n && ns[i].leaf then 1 else 0)
  {
    if n > 0 {
      BumpLeafWeight(ns, us, i, n - 1);
    }
  }

  // Node i has left a group that node i + 1 now leads.
  lemma LeaveGroup(ns: seq<Node>, us: seq<Node>, leader: seq<nat>, i: nat)
    requires Bumped(ns, us, i) && |ns| == |leader| == NUM_TREE_NODES && 0 < i < NUM_TREE_NODES - 1
    requires Sorted(ns) && Grouped(ns, leader) && leader[ns[i].group] == i
    requires ns[i].group == ns[i + 1].group && ns[i - 1].freq > ns[i].freq
    requires us[i].group < NUM_TREE_NODES
    requires us[i].freq == ns[i - 1].freq ==> us[i].group == ns[i - 1].group
    requires us[i].freq != ns[i - 1].freq ==> us[i].group !in UsedGroups(ns)
    ensures us[i].freq == ns[i - 1].freq ==> Grouped(us, leader[ns[i].group := i + 1])
    ensures us[i].freq != ns[i - 1].freq ==> Grouped(us, leader[ns[i].group := i + 1][us[i].group := i])
  {
    var alone := us[i].freq != ns[i - 1].freq;
    var left := leader[ns[i].group := i + 1];
    var leader' := if alone then left[us[i].group := i] else left;
    assert SameGroup(ns, i, i - 1) && LeaderAt(ns, leader, i - 1);
    forall k: nat | k < NUM_TREE_NODES ensures LeaderAt(us, leader', k) {
      assert LeaderAt(ns, leader, k) && SameGroup(ns, k, i) && SameGroup(ns, k, i - 1);
      assert ns[k].group in UsedGroups(ns);
    }
    forall k: nat, l: nat | k < NUM_TREE_NODES && l < NUM_TREE_NODES ensures SameGroup(us, k, l) {
      assert SameGroup(ns, k, l) && SameGroup(ns, k, i - 1) && SameGroup(ns, l, i - 1);
      assert ns[k].group in UsedGroups(ns) && ns[l].group in UsedGroups(ns);
    }
  }

  // Node i was alone in its group.
  lemma LeaveOwnGroup(ns: seq<Node>, us: seq<Node>, leader: seq<nat>, i: nat)
    requires Bumped(ns, us, i) && |ns| == |leader| == NUM_TREE_NODES && 0 < i < NUM_TREE_NODES
    requires Sorted(ns) && Grouped(ns, leader) && leader[ns[i].group] == i
    requires i < NUM_TREE_NODES - 1 ==> ns[i].group != ns[i + 1].group
    requires ns[i - 1].freq > ns[i].freq
    requires us[i].group == if us[i].freq == ns[i - 1].freq then ns[i - 1].group else ns[i].group
    ensures Grouped(us, leader)
  {
    assert SameGroup(ns, i, i - 1) && LeaderAt(ns, leader, i - 1);
    if i < NUM_TREE_NODES - 1 {
      assert SameGroup(ns, i, i + 1);
    }
    forall k: nat | k < NUM_TREE_NODES ensures LeaderAt(us, leader, k) {
      assert LeaderAt(ns, leader, k) && SameGroup(ns, k, i) && SameGroup(ns, k, i - 1);
    }
    forall k: nat, l: nat | k < NUM_TREE_NODES && l < NUM_TREE_NODES ensures SameGroup(us, k, l) {
      assert SameGroup(ns, k, l) && SameGroup(ns, k, i - 1) && SameGroup(ns, l, i - 1);
      assert SameGroup(ns, k, i) && SameGroup(ns, l, i);
    }
  }

  lemma SameGroupsSameFree(ns: seq<Node>, us: seq<Node>, groups: seq<nat>, numGroups: nat)
    requires |groups| == NUM_TREE_NODES && FreeList(ns, groups, numGroups)
    requires UsedGroups(us) == UsedGroups(ns)
    ensures FreeList(us, groups, numGroups)
  {
  }

  lemma TakeFreeGroup(ns: seq<Node>, us: seq<Node>, groups: seq<nat>, numGroups: nat)
    requires |groups| == NUM_TREE_NODES && FreeList(ns, groups, numGroups) && numGroups < NUM_TREE_NODES
    requires UsedGroups(us) == UsedGroups(ns) + {groups[numGroups]}
    ensures FreeList(us, groups, numGroups + 1)
  {
    assert groups[numGroups..] == [groups[numGroups]] + groups[numGroups + 1..];
    assert groups[numGroups] !in groups[numGroups + 1..];
  }

  lemma ReturnGroup(ns: seq<Node>, us: seq<Node>, groups: seq<nat>, numGroups: nat, g: nat)
    requires |groups| == NUM_TREE_NODES && FreeList(ns, groups, numGroups) && 0 < numGroups
    requires g < NUM_TREE_NODES && g in UsedGroups(ns) && UsedGroups(us) == UsedGroups(ns) - {g}
    ensures FreeList(us, groups[numGroups - 1 := g], numGroups - 1)
  {
    var gs := groups[numGroups - 1 := g];
    assert gs[numGroups - 1..] == [g] + groups[numGroups..];
    assert g !in groups[numGroups..];
    assert forall k | numGroups <= k < NUM_TREE_NODES :: groups[k] in groups[numGroups..];
  }

  lemma BumpUsedGroups(ns: seq<Node>, us: seq<Node>, i: nat)
    requires Bumped(ns, us, i)
    ensures UsedGroups(us) <= UsedGroups(ns) + {us[i].group}
    ensures us[i].group in UsedGroups(us)
    ensures forall k | 0 <= k < |ns| && k != i :: ns[k].group in UsedGroups(us)
  {
    assert forall k | 0 <= k < |ns| && k != i :: us[k] == ns[k];
  }

  lemma LeaveOwnGroupUsed(ns: seq<Node>, us: seq<Node>, leader: seq<nat>, i: nat)
    requires Bumped(ns, us, i) && |ns| == |leader| == NUM_TREE_NODES && 0 < i < NUM_TREE_NODES
    requires Sorted(ns) && Grouped(ns, leader) && ns[i - 1].freq > ns[i].freq
    requires i < NUM_TREE_NODES - 1 ==> ns[i].group != ns[i + 1].group
    requires us[i].group == ns[i - 1].group
    ensures UsedGroups(us) == UsedGroups(ns) - {ns[i].group}
  {
    BumpUsedGroups(ns, us, i);
    forall k: nat | k < NUM_TREE_NODES && k != i ensures ns[k].group != ns[i].group {
      assert SameGroup(ns, i, k);
      if i < NUM_TREE_NODES - 1 {
        assert SameGroup(ns, i, i + 1);
      }
    }
  }

  lemma IncrementKeepsFreeList(t: Tree, i: nat)
    requires Sized(t) && 0 < i < NUM_TREE_NODES
    requires Sorted(t.nodes) && Grouped(t.nodes, t.groupLeader) && FreeList(t.nodes, t.groups, t.numGroups)
    requires GroupRoom(t, i) && t.nodes[i - 1].freq > t.nodes[i].freq
    ensures FreeList(Incremented(t, i).nodes, Incremented(t, i).groups, Incremented(t, i).numGroups)
  {
    var ns, us := t.nodes, Incremented(t, i).nodes;
    hide FreeList, Grouped, Sorted;
    BumpUsedGroups(ns, us, i);
    if SharesGroup(t, i) {
      if us[i].freq == ns[i - 1].freq {
        assert UsedGroups(us) == UsedGroups(ns);
        SameGroupsSameFree(ns, us, t.groups, t.numGroups);
      } else {
        assert UsedGroups(us) == UsedGroups(ns) + {t.groups[t.numGroups]};
        TakeFreeGroup(ns, us, t.groups, t.numGroups);
      }
    } else if us[i].freq == ns[i - 1].freq {
      LeaveOwnGroupUsed(ns, us, t.groupLeader, i);
      ReturnGroup(ns, us, t.groups, t.numGroups, ns[i].group);
    } else {
      assert UsedGroups(us) == UsedGroups(ns);
      SameGroupsSameFree(ns, us, t.groups, t.numGroups);
    }
  }

  lemma IncrementKeepsGrouped(t: Tree, i: nat)
    requires CanIncrement(t, i) && GroupRoom(t, i)
    ensures Grouped(Incremented(t, i).nodes, Incremented(t, i).groupLeader)
  {
    var u := Incremented(t, i);
    var ns, us := t.nodes, u.nodes;
    LeaderFacts(t, i, i);
    assert LeaderAt(ns, t.groupLeader, i) && LeaderAt(ns, t.groupLeader, i - 1);
    if SharesGroup(t, i) {
      assert t.groups[t.numGroups..][0] == t.groups[t.numGroups];
      LeaveGroup(ns, us, t.groupLeader, i);
    } else {
      LeaveOwnGroup(ns, us, t.groupLeader, i);
    }
  }

  // Counting a hit on the front node of a group moves the walk to the node's parent and raises the
  // frequency of exactly that node: of its code, when it is a leaf.
  lemma IncrementKeepsWalking(t: Tree, i: nat)
    requires CanIncrement(t, i)
    ensures GroupRoom(t, i)
    ensures var u := Incremented(t, i);
            && u.nodes[i].parent < i
            && Walking(u, u.nodes[i].parent)
            && !u.nodes[u.nodes[i].parent].leaf
            && u.leafNodes == t.leafNodes
            && LeafWeight(u.nodes, NUM_TREE_NODES) ==
               LeafWeight(t.nodes, NUM_TREE_NODES) + (if t.nodes[i].leaf then 1 else 0)
            && (forall c | 0 <= c < NUM_CODES ::
                  LeafFreq(u, c) == LeafFreq(t, c) + (if t.leafNodes[c] == i then 1 else 0))
  {
    IncrementDefined(t, i);
    var u := Incremented(t, i);
    BumpKeepsShape(t.nodes, u.nodes, i);
    assert UpLink(u.nodes, i);
    BumpLeafWeight(t.nodes, u.nodes, i, NUM_TREE_NODES);
    IncrementKeepsGrouped(t, i);
    IncrementKeepsFreeList(t, i);
    BumpKeepsLeaves(t, u, i);
  }

  // ---------------------------------------------------------------------------------------------
  // The walk to the root
  // ---------------------------------------------------------------------------------------------

  lemma LeaderLeadsItself(t: Tree, at: nat)
    requires Walking(t, at) && 0 < at
    ensures var l := Leader(t, at); CanIncrement(Exchanged(t, l, at), l)
  {
    var l := Leader(t, at);
    ExchangeKeepsWalking(t, at);
    LeaderFacts(t, at, l);
    assert SameGroup(t.nodes, l, at);
  }

  function Walk(t: Tree, at: nat): Tree
    requires Walking(t, at)
    decreases at
  {
    if at == 0 then t
    else
      LeaderFacts(t, at, Leader(t, at));
      ExchangeKeepsWalking(t, at);
      LeaderLeadsItself(t, at);
      var l := Leader(t, at);
      var u := Exchanged(t, l, at);
      IncrementKeepsWalking(u, l);
      var w := Incremented(u, l);
      Walk(w, w.nodes[l].parent)
  }

  lemma ExchangeMovesLeaf(t: Tree, at: nat, l: nat, c: nat)
    requires Sized(t) && at < NUM_TREE_NODES && l < NUM_TREE_NODES && c < NUM_CODES
    ensures Exchanged(t, l, at).leafNodes[c] == l <==> t.leafNodes[c] == at
    ensures Exchanged(t, l, at).nodes[l].leaf == t.nodes[at].leaf
    ensures Exchanged(t, l, at).nodes[0].freq == t.nodes[0].freq
  {
  }

  // What one step of the walk has done to the frequencies.
  ghost predicate HitCounted(t: Tree, at: nat, w: Tree)
    requires Sized(t) && Sized(w) && at < NUM_TREE_NODES
    requires LeafLinks(t.nodes, t.leafNodes) && LeafLinks(w.nodes, w.leafNodes)
  {
    && w.nodes[0].freq == t.nodes[0].freq
    && LeafWeight(w.nodes, NUM_TREE_NODES) ==
       LeafWeight(t.nodes, NUM_TREE_NODES) + (if t.nodes[at].leaf then 1 else 0)
    && forall c | 0 <= c < NUM_CODES ::
         LeafFreq(w, c) == LeafFreq(t, c) + (if t.leafNodes[c] == at then 1 else 0)
  }

  lemma ExchangeThenIncrement(t: Tree, at: nat, l: nat, w: Tree)
    requires Walking(t, at) && 0 < at && l == Leader(t, at)
    requires CanIncrement(Exchanged(t, l, at), l) && GroupRoom(Exchanged(t, l, at), l)
    requires w == Incremented(Exchanged(t, l, at), l)
    ensures Sized(w) && LeafLinks(w.nodes, w.leafNodes) && HitCounted(t, at, w)
  {
    ExchangeKeepsWalking(t, at);
    IncrementKeepsWalking(Exchanged(t, l, at), l);
    forall c | 0 <= c < NUM_CODES
      ensures LeafFreq(w, c) == LeafFreq(t, c) + (if t.leafNodes[c] == at then 1 else 0)
    {
      ExchangeMovesLeaf(t, at, l, c);
    }
    ExchangeMovesLeaf(t, at, l, 0);
  }

  // The walk repairs the tree and raises the frequency of the leaf it started from, and no other.
  lemma {:induction false} WalkEffect(t: Tree, at: nat)
    requires Walking(t, at)
    ensures Walking(Walk(t, at), 0)
    ensures Walk(t, at).nodes[0].freq == t.nodes[0].freq
    ensures LeafWeight(Walk(t, at).nodes, NUM_TREE_NODES) ==
            LeafWeight(t.nodes, NUM_TREE_NODES) + (if 0 < at && t.nodes[at].leaf then 1 else 0)
    ensures forall c | 0 <= c < NUM_CODES ::
              LeafFreq(Walk(t, at), c) == LeafFreq(t, c) + (if 0 < at && t.leafNodes[c] == at then 1 else 0)
    decreases at
  {
    if at > 0 {
      var l := Leader(t, at);
      LeaderFacts(t, at, l);
      LeaderLeadsItself(t, at);
      IncrementKeepsWalking(Exchanged(t, l, at), l);
      var w := Incremented(Exchanged(t, l, at), l);
      ExchangeThenIncrement(t, at, l, w);
      WalkEffect(w, w.nodes[l].parent);
    }
  }

  function RootBumped(t: Tree): Tree
    requires Sized(t)
  {
    t.(nodes := t.nodes[0 := t.nodes[0].(freq := t.nodes[0].freq + 1)])
  }

  lemma RootBumpStartsWalk(t: Tree, code: nat)
    requires Walking(t, 0) && code < NUM_CODES
    ensures t.leafNodes[code] > 0
    ensures Walking(RootBumped(t), t.leafNodes[code])
    ensures forall c | 0 <= c < NUM_CODES :: LeafFreq(RootBumped(t), c) == LeafFreq(t, c)
  {
    var ns, us, at := t.nodes, RootBumped(t).nodes, t.leafNodes[code];
    assert UpLink(ns, 1) && UpLink(ns, 2);
    assert DownLink(ns, 0) && SumAt(ns, 0, 0);
    RootBumpKeepsGroups(t);
    hide Grouped, FreeList;
    assert ns[at].leaf && at > 0;
    RootBumpKeepsLinks(ns, us, at);
  }

  lemma RootBumpKeepsLinks(ns: seq<Node>, us: seq<Node>, at: nat)
    requires |ns| == NUM_TREE_NODES && BranchLinks(ns) && Sums(ns, 0) && Sorted(ns)
    requires 0 < at < NUM_TREE_NODES && ns[at].leaf
    requires us == ns[0 := ns[0].(freq := ns[0].freq + 1)]
    ensures BranchLinks(us) && Sums(us, at) && Sorted(us)
  {
    assert forall k | 0 < k < NUM_TREE_NODES :: us[k] == ns[k];
    forall i: nat | i < NUM_TREE_NODES ensures DownLink(us, i) {
      assert DownLink(ns, i);
    }
    forall i: nat | 1 <= i < NUM_TREE_NODES ensures UpLink(us, i) {
      assert UpLink(ns, i);
    }
    forall i: nat | i < NUM_TREE_NODES ensures SumAt(us, i, at) {
      assert DownLink(ns, i) && SumAt(ns, i, 0);
    }
  }

  lemma RootBumpKeepsGroups(t: Tree)
    requires Walking(t, 0) && t.nodes[0].freq > t.nodes[1].freq
    ensures Grouped(RootBumped(t).nodes, t.groupLeader)
    ensures FreeList(RootBumped(t).nodes, t.groups, t.numGroups)
  {
    var ns, us := t.nodes, RootBumped(t).nodes;
    forall i: nat | i < NUM_TREE_NODES ensures LeaderAt(us, t.groupLeader, i) {
      assert LeaderAt(ns, t.groupLeader, i) && SameGroup(ns, 0, i);
    }
    forall i: nat, j: nat | i < NUM_TREE_NODES && j < NUM_TREE_NODES ensures SameGroup(us, i, j) {
      assert SameGroup(ns, i, j);
    }
    assert forall i | 0 <= i < NUM_TREE_NODES :: us[i].group == ns[i].group;
    assert UsedGroups(us) == UsedGroups(ns);
  }

  // The tree after one more hit for the code.
  function Counted(t: Tree, code: nat): Tree
    requires Walking(t, 0) && code < NUM_CODES
  {
    RootBumpStartsWalk(t, code);
    Walk(RootBumped(t), t.leafNodes[code])
  }

  // Counting a hit keeps the tree consistent, below the limit at which it has to be rebuilt, and
  // adds one to the frequency of that code alone.
  lemma CountedKeepsConsistent(t: Tree, code: nat)
    requires Consistent(t) && code < NUM_CODES && t.nodes[0].freq < TREE_REORDER_LIMIT
    ensures Consistent(Counted(t, code))
    ensures forall c | 0 <= c < NUM_CODES ::
              LeafFreq(Counted(t, code), c) == LeafFreq(t, c) + (if c == code then 1 else 0)
  {
    RootBumpStartsWalk(t, code);
    var u, at := RootBumped(t), t.leafNodes[code];
    WalkEffect(u, at);
    assert UpLink(t.nodes, 1);
    SameLeavesSameWeight(t.nodes, u.nodes, NUM_TREE_NODES);
  }

  lemma {:induction false} SameLeavesSameWeight(ns: seq<Node>, us: seq<Node>, n: nat)
    requires |ns| == |us| && n <= |ns|
    requires forall k | 0 <= k < |ns| :: us[k].leaf == ns[k].leaf && (ns[k].leaf ==> us[k].freq == ns[k].freq)
    ensures LeafWeight(us, n) == LeafWeight(ns, n)
  {
    if n > 0 {
      SameLeavesSameWeight(ns, us, n - 1);
    }
  }
}
