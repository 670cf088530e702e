// The -lh1- decoder's tree as the arrays the program keeps, and the operations that update them in
// place.

module Lh1Decoder {
  import opened Lh1Tree
  import opened Lh1Rebuild
  import opened Lh1Words

  class Decoder {
    const nodes: array<Node>
    const leafNodes: array<nat>
    const groups: array<nat>
    var numGroups: nat
    const groupLeader: array<nat>

    ghost predicate Allocated() {
      && nodes.Length == groups.Length == groupLeader.Length == NUM_TREE_NODES
      && leafNodes.Length == NUM_CODES
      && leafNodes != groups && leafNodes != groupLeader && groups != groupLeader
    }

    ghost predicate Apart(objects: set<object>) {
      this !in objects && nodes !in objects && leafNodes !in objects && groups !in objects && groupLeader !in objects
    }

    ghost function View(): Tree
      reads this, nodes, leafNodes, groups, groupLeader
    {
      Tree(nodes[..], leafNodes[..], groups[..], numGroups, groupLeader[..])
    }

    // lha_lh1_init, as far as the tree goes: whatever was in the arrays, the decoder starts from a consistent
    // tree in which every code has been hit once, and which reads the words of a new tree.
    constructor ()
      ensures Allocated() && Consistent(View()) && (forall c | 0 <= c < NUM_CODES :: LeafFreq(View(), c) == 1)
      ensures forall code: nat, rest: seq<bool> | code < NUM_CODES ::
                Descend(View(), 0, NewWord(code) + rest) == Complete(code, rest)
      ensures fresh(nodes) && fresh(leafNodes) && fresh(groups) && fresh(groupLeader)
    {
      nodes := new Node[NUM_TREE_NODES];
      leafNodes := new nat[NUM_CODES];
      groups := new nat[NUM_TREE_NODES];
      groupLeader := new nat[NUM_TREE_NODES];
      new;
      hide Consistent, LeafFreq, Descend, NewWord;
      InitGroups();
      InitTree();
    }

    method AllocGroup() returns (result: nat)
      requires Allocated() && numGroups < NUM_TREE_NODES
      modifies this`numGroups
      ensures result == groups[old(numGroups)] && numGroups == old(numGroups) + 1
    {
      result := groups[numGroups];
      numGroups := numGroups + 1;
    }

    method FreeGroup(group: nat)
      requires Allocated() && 0 < numGroups <= NUM_TREE_NODES
      modifies this`numGroups, groups
      ensures numGroups == old(numGroups) - 1
      ensures groups[..] == old(groups[..])[numGroups := group]
    {
      numGroups := numGroups - 1;
      groups[numGroups] := group;
    }

    method InitGroups()
      requires Allocated()
      modifies this`numGroups, groups
      ensures numGroups == 0
      ensures forall g | 0 <= g < NUM_TREE_NODES :: groups[g] == g
    {
      for i := 0 to NUM_TREE_NODES
        invariant forall g | 0 <= g < i :: groups[g] == g
      {
        groups[i] := i;
      }
      numGroups := 0;
    }

    // Point whatever hangs below node i back at it.
    method RelinkBelow(i: nat)
      requires Allocated() && i < NUM_TREE_NODES
      requires if nodes[i].leaf then nodes[i].childIndex < NUM_CODES else 0 < nodes[i].childIndex < NUM_TREE_NODES
      modifies nodes, leafNodes
      ensures nodes[..] == old(RelinkedNodes(nodes[..], i))
      ensures leafNodes[..] == old(RelinkedLeaves(nodes[..], leafNodes[..], i))
    {
      if nodes[i].leaf {
        leafNodes[nodes[i].childIndex] := i;
      } else {
        var child := nodes[i].childIndex;
        nodes[child] := nodes[child].(parent := i);
        nodes[child - 1] := nodes[child - 1].(parent := i);
      }
    }

    // Swap a node with the leader of its group, the left-most node of the same frequency.
    method MakeGroupLeader(nodeIndex: nat) returns (leaderIndex: nat)
      requires Allocated() && Walking(View(), nodeIndex) && 0 < nodeIndex
      modifies nodes, leafNodes
      ensures leaderIndex == old(Leader(View(), nodeIndex))
      ensures View() == old(Exchanged(View(), leaderIndex, nodeIndex))
    {
      hide Walking, LeafLinks, BranchLinks, SwapReady, Exchanged, Swapped, RelinkedNodes, RelinkedLeaves;
      ghost var t := View();
      LeaderIsReady(t, nodeIndex);
      leaderIndex := groupLeader[nodes[nodeIndex].group];
      if leaderIndex == nodeIndex {
        ExchangeWithSelf(t, nodeIndex);
        return;
      }
      RelinkedIsExchanged(t, nodeIndex, leaderIndex);
      SwapNodes(nodeIndex, leaderIndex);
    }

    // The contents of the two nodes are swapped, and what hangs below each is relinked.
    method SwapNodes(nodeIndex: nat, leaderIndex: nat)
      requires Allocated() && SwapReady(View(), nodeIndex, leaderIndex)
      modifies nodes, leafNodes
      ensures var ns1 := Swapped(old(nodes[..]), nodeIndex, leaderIndex);
        var ns2 := RelinkedNodes(ns1, nodeIndex);
        && nodes[..] == RelinkedNodes(ns2, leaderIndex)
        && leafNodes[..] == RelinkedLeaves(ns2, RelinkedLeaves(ns1, old(leafNodes[..]), nodeIndex), leaderIndex)
    {
      ghost var ns := nodes[..];
      var node, leader := nodes[nodeIndex], nodes[leaderIndex];
      nodes[leaderIndex] := leader.(leaf := node.leaf, childIndex := node.childIndex);
      nodes[nodeIndex] := node.(leaf := leader.leaf, childIndex := leader.childIndex);
      assert nodes[..] == Swapped(ns, nodeIndex, leaderIndex);
      RelinkBelow(nodeIndex);
      RelinkBelow(leaderIndex);
    }

    method IncrementNodeFreq(nodeIndex: nat)
      requires Allocated() && CanIncrement(View(), nodeIndex)
      modifies this`numGroups, nodes, groups, groupLeader
      ensures old((IncrementDefined(View(), nodeIndex); GroupRoom(View(), nodeIndex)))
      ensures View() == old(Incremented(View(), nodeIndex))
    {
      ghost var t := View();
      IncrementDefined(t, nodeIndex);
      assert LeaderAt(t.nodes, t.groupLeader, nodeIndex);
      var node := nodes[nodeIndex];
      var left := nodes[nodeIndex - 1];
      nodes[nodeIndex] := node.(freq := node.freq + 1);
      if nodeIndex < NUM_TREE_NODES - 1 && node.group == nodes[nodeIndex + 1].group {
        // The next node leads the group now; this one joins the group to its left or starts its own.
        groupLeader[node.group] := groupLeader[node.group] + 1;
        if node.freq + 1 == left.freq {
          nodes[nodeIndex] := nodes[nodeIndex].(group := left.group);
        } else {
          var group := AllocGroup();
          nodes[nodeIndex] := nodes[nodeIndex].(group := group);
          groupLeader[group] := nodeIndex;
        }
      } else {
        if node.freq + 1 == left.freq {
          FreeGroup(node.group);
          nodes[nodeIndex] := nodes[nodeIndex].(group := left.group);
        }
      }
      assert View().nodes == Incremented(t, nodeIndex).nodes;
    }

    // First part of the rebuild: gather the leaves at the start of the array, halving their
    // frequencies.
    method GatherLeaves()
      requires Allocated()
      modifies nodes
      ensures Gathered(old(nodes[..]), nodes[..])
    {
      ghost var ns := nodes[..];
      ghost var ps: seq<nat> := [];
      var leaf := 0;
      for i := 0 to NUM_TREE_NODES
        invariant ps == LeafPositions(ns, i) && leaf == |ps| <= i
        invariant forall k | i <= k < NUM_TREE_NODES :: nodes[k] == ns[k]
        invariant forall k | 0 <= k < leaf :: ps[k] < NUM_TREE_NODES && SameLeaf(nodes[k], ns[ps[k]])
      {
        if nodes[i].leaf {
          nodes[leaf] := nodes[leaf].(leaf := true, childIndex := nodes[i].childIndex,
                                      freq := (nodes[i].freq + 1) / 2);
          leaf := leaf + 1;
          ps := ps + [i];
        }
      }
    }

    // Copy the next unread leaf to position i.
    method CopyLeaf(i: nat, left: nat, ghost p: Plan, ghost child: int)
      requires Allocated() && 0 < left && Building(nodes[..], leafNodes[..], p, left, i, child)
      modifies nodes, leafNodes
      ensures Building(nodes[..], leafNodes[..], p, left - 1, i - 1, child)
      ensures nodes[..] == old(WithLeaf(nodes[..], left, i))
    {
      PlaceLeaf(nodes[..], leafNodes[..], p, left, i, child);
      leafNodes[nodes[left - 1].childIndex] := i;
      nodes[i] := nodes[left - 1];
    }

    // Insert a branch over the pair at `child` at position i.
    method InsertBranch(i: nat, child: nat, freq: nat, ghost p: Plan, ghost left: nat)
      requires Allocated() && Building(nodes[..], leafNodes[..], p, left, i, child)
      requires BranchFits(nodes[..], p, left, i, child) && freq == nodes[child].freq + nodes[child - 1].freq
      modifies nodes
      ensures Building(nodes[..], leafNodes[..], p, left, i - 1, child - 2)
      ensures BranchOnTop(nodes[..], left, i - 1, child - 2)
      ensures !nodes[i].leaf && nodes[i].childIndex == child
      ensures forall j | i < j < NUM_TREE_NODES :: nodes[j] == old(nodes[j]).(parent := nodes[j].parent)
    {
      hide Building;
      PlaceBranch(nodes[..], leafNodes[..], p, left, i, child);
      nodes[i] := nodes[i].(leaf := false, freq := freq, childIndex := child);
      nodes[child] := nodes[child].(parent := i);
      nodes[child - 1] := nodes[child - 1].(parent := i);
    }

    // A branch needs two nodes without a parent: copy leaves until there are.
    method CopyUntilPair(top: nat, count: nat, ghost p: Plan, child: nat) returns (i: nat, left: nat)
      requires Allocated() && count <= NUM_CODES && Building(nodes[..], leafNodes[..], p, count, top, child)
      requires BranchOnTop(nodes[..], count, top, child)
      modifies nodes, leafNodes
      ensures left <= NUM_CODES && i <= top && i + 2 <= child <= LAST
      ensures Building(nodes[..], leafNodes[..], p, left, i, child)
      ensures nodes[i + 1].freq <= nodes[child].freq + nodes[child - 1].freq
    {
      hide Building;
      i, left := top, count;
      BuildingCounts(nodes[..], leafNodes[..], p, left, i, child);
      while child - i < 2
        invariant Counts(left, i, child)
        invariant i <= top && i <= child && 2 <= child <= LAST && left <= NUM_CODES
        invariant Building(nodes[..], leafNodes[..], p, left, i, child)
        invariant (i == top && BranchOnTop(nodes[..], left, i, child)) || child - 2 <= i < child
      {
        CopyLeaf(i, left, p, child);
        i := i - 1;
        left := left - 1;
        BuildingCounts(nodes[..], leafNodes[..], p, left, i, child);
      }
      PairFits(nodes[..], leafNodes[..], p, left, i, child, top);
    }

    // Leaves that are not heavier than the branch to come go to its right.
    method CopyLightLeaves(top: nat, count: nat, ghost p: Plan, child: nat, freq: nat) returns (i: nat, left: nat)
      requires Allocated() && count <= NUM_CODES && Building(nodes[..], leafNodes[..], p, count, top, child)
      requires top + 2 <= child <= LAST
      requires nodes[top + 1].freq <= freq == nodes[child].freq + nodes[child - 1].freq
      modifies nodes, leafNodes
      ensures left <= NUM_CODES && i <= top && i + 2 <= child <= LAST
      ensures Building(nodes[..], leafNodes[..], p, left, i, child)
      ensures freq == nodes[child].freq + nodes[child - 1].freq
      ensures BranchFits(nodes[..], p, left, i, child)
    {
      hide Building;
      i, left := top, count;
      BuildingCounts(nodes[..], leafNodes[..], p, left, i, child);
      while 0 < left && freq >= nodes[left - 1].freq
        invariant Counts(left, i, child)
        invariant i <= top && i + 2 <= child <= LAST && left <= NUM_CODES
        invariant Building(nodes[..], leafNodes[..], p, left, i, child)
        invariant freq == nodes[child].freq + nodes[child - 1].freq && nodes[i + 1].freq <= freq
      {
        BuildingNextLeaf(nodes[..], leafNodes[..], p, left, i, child);
        CopyLeaf(i, left, p, child);
        i := i - 1;
        left := left - 1;
        BuildingCounts(nodes[..], leafNodes[..], p, left, i, child);
      }
      if 0 < left {
        BuildingNextLeaf(nodes[..], leafNodes[..], p, left, i, child);
      }
    }

    // One round of the build: enough leaves, and the branch over the next pair.
    method AddBranch(top: nat, count: nat, ghost p: Plan, child: nat) returns (i: int, left: nat)
      requires Allocated() && count <= NUM_CODES && Building(nodes[..], leafNodes[..], p, count, top, child)
      requires BranchOnTop(nodes[..], count, top, child)
      modifies nodes, leafNodes
      ensures left <= NUM_CODES && -1 <= i < top && i + 1 <= child - 2
      ensures Building(nodes[..], leafNodes[..], p, left, i, child - 2)
      ensures BranchOnTop(nodes[..], left, i, child - 2)
    {
      hide Building;
      i, left := CopyUntilPair(top, count, p, child);
      var freq := nodes[child].freq + nodes[child - 1].freq;
      i, left := CopyLightLeaves(i, left, p, child, freq);
      InsertBranch(i, child, freq, p, left);
      i := i - 1;
    }

    // Second part: grow the tree backwards from the end of the array.
    method RegrowTree(ghost p: Plan)
      requires Allocated() && ValidPlan(p) && Unread(nodes[..], p, NUM_CODES)
      modifies nodes, leafNodes
      ensures Building(nodes[..], leafNodes[..], p, 0, -1, 0)
    {
      hide Building, Unread, ValidPlan;
      var left: nat := NUM_CODES;
      var child: nat := NUM_TREE_NODES - 1;
      var i: int := NUM_TREE_NODES - 1;
      BuildStart(nodes[..], leafNodes[..], p);
      while i >= 0
        invariant -1 <= i <= child <= LAST && left <= NUM_CODES
        invariant Building(nodes[..], leafNodes[..], p, left, i, child)
        invariant BranchOnTop(nodes[..], left, i, child)
      {
        i, left := AddBranch(i, left, p, child);
        child := child - 2;
      }
      BuildingCounts(nodes[..], leafNodes[..], p, left, i, child);
    }

    // Node i joins the group of the node before it, or starts the next one.
    method NumberNode(i: nat)
      requires Allocated() && 0 < i < NUM_TREE_NODES && (forall g | 0 <= g < NUM_TREE_NODES :: groups[g] == g)
      requires Sorted(nodes[..]) && Numbered(nodes[..], groupLeader[..], numGroups, i)
      modifies this`numGroups, nodes, groupLeader
      ensures nodes[..] == old(nodes[..])[i := old(nodes[i]).(group := nodes[i].group)]
      ensures Sorted(nodes[..]) && Numbered(nodes[..], groupLeader[..], numGroups, i + 1)
    {
      hide Sorted, LeaderAt, SameGroup;
      ghost var ns, leader, n := nodes[..], groupLeader[..], numGroups;
      if nodes[i].freq == nodes[i - 1].freq {
        nodes[i] := nodes[i].(group := nodes[i - 1].group);
      } else {
        var group := AllocGroup();
        nodes[i] := nodes[i].(group := group);
        groupLeader[group] := i;
      }
      NumberNext(ns, nodes[..], leader, groupLeader[..], n, i);
    }

    // Third part: number the groups from left to right.
    method NumberGroups()
      requires Allocated() && Sorted(nodes[..])
      modifies this`numGroups, nodes, groups, groupLeader
      ensures forall j | 0 <= j < NUM_TREE_NODES :: nodes[j] == old(nodes[j]).(group := nodes[j].group)
      ensures Grouped(nodes[..], groupLeader[..]) && FreeList(nodes[..], groups[..], numGroups)
    {
      hide Grouped, FreeList, Numbered;
      InitGroups();
      var group := AllocGroup();
      nodes[0] := nodes[0].(group := group);
      groupLeader[group] := 0;
      NumberFirst(nodes[..], groupLeader[..]);
      for i := 1 to NUM_TREE_NODES
        invariant forall g | 0 <= g < NUM_TREE_NODES :: groups[g] == g
        invariant forall j | 0 <= j < NUM_TREE_NODES :: nodes[j] == old(nodes[j]).(group := nodes[j].group)
        invariant Sorted(nodes[..]) && Numbered(nodes[..], groupLeader[..], numGroups, i)
      {
        NumberNode(i);
      }
      NumberedIsGrouped(nodes[..], groups[..], groupLeader[..], numGroups);
    }

    // Rebuild the tree over the same codes with every frequency halved, rounding up.
    method ReconstructTree()
      requires Allocated() && Consistent(View())
      modifies this`numGroups, nodes, leafNodes, groups, groupLeader
      ensures Rebuilt(old(View()), View())
    {
      ghost var t := View();
      ghost var p := PlanOf(t);
      PlanOfIsPlan(t);
      hide Consistent, PlanFor, ValidPlan, Unread, Building, Layout, Gathered;
      hide Sums, BranchLinks, LeafLinks, Grouped, FreeList, Sorted, LeafFreq, Rebuilt;
      GatherLeaves();
      GatheredIsUnread(t, nodes[..]);
      RegrowTree(p);
      ghost var ns := nodes[..];
      BuiltSummary(t, ns, leafNodes[..], p);
      NumberGroups();
      RegroupedTree(ns, nodes[..], leafNodes[..]);
      RegroupedLayout(ns, nodes[..], t.leafNodes);
      RebuiltSummary(t, ns, View());
    }

    // Count one hit for the code, rebuilding the tree first when the root has reached the limit.
    method IncrementForCode(code: nat)
      requires Allocated() && Consistent(View()) && code < NUM_CODES
      modifies this`numGroups, nodes, leafNodes, groups, groupLeader
      ensures Hit(old(View()), code, View())
    {
      ghost var t := View();
      if nodes[0].freq >= TREE_REORDER_LIMIT {
        ReconstructTree();
      }
      ghost var r := View();
      CountHit(code);
      CountedKeepsConsistent(r, code);
      assert r == t || Rebuilt(t, r);
    }

    method CountHit(code: nat)
      requires Allocated() && Walking(View(), 0) && code < NUM_CODES
      modifies this`numGroups, nodes, leafNodes, groups, groupLeader
      ensures View() == old(Counted(View(), code))
    {
      ghost var t := View();
      RootBumpStartsWalk(t, code);
      nodes[0] := nodes[0].(freq := nodes[0].freq + 1);
      assert View() == RootBumped(t);
      WalkToRoot(leafNodes[code]);
    }

    // The loop from a node up to the root.
    method WalkToRoot(start: nat)
      requires Allocated() && Walking(View(), start)
      modifies this`numGroups, nodes, leafNodes, groups, groupLeader
      ensures View() == old(Walk(View(), start))
    {
      hide Walking, Exchanged, Incremented;
      var nodeIndex := start;
      while nodeIndex != 0
        invariant Walking(View(), nodeIndex)
        invariant Walk(View(), nodeIndex) == old(Walk(View(), start))
        decreases nodeIndex
      {
        ghost var t := View();
        ghost var l := WalkUnfolds(t, nodeIndex);
        nodeIndex := MakeGroupLeader(nodeIndex);
        IncrementNodeFreq(nodeIndex);
        nodeIndex := nodes[nodeIndex].parent;
      }
    }

    // The leaves of the initial tree, at the end of the table, each hit once.
    method InitLeaves()
      requires Allocated() && (forall g | 0 <= g < NUM_TREE_NODES :: groups[g] == g) && numGroups == 0
      modifies this`numGroups, nodes, leafNodes, groupLeader
      ensures numGroups == 1 && groupLeader[0] == NUM_TREE_NODES - NUM_CODES
      ensures forall c | 0 <= c < NUM_CODES :: leafNodes[c] == LAST - c
      ensures forall j | NUM_TREE_NODES - NUM_CODES <= j < NUM_TREE_NODES :: InitialLeaf(nodes[j], j)
    {
      var leafGroup := AllocGroup();
      for i := 0 to NUM_CODES
        invariant forall c | 0 <= c < i :: leafNodes[c] == LAST - c
        invariant forall j | LAST - i < j <= LAST :: InitialLeaf(nodes[j], j)
        invariant numGroups == 1 && leafGroup == 0
        invariant i > 0 ==> groupLeader[leafGroup] == NUM_TREE_NODES - i
      {
        var nodeIndex := LAST - i;
        nodes[nodeIndex] := nodes[nodeIndex].(leaf := true, childIndex := i, freq := 1, group := leafGroup);
        groupLeader[leafGroup] := nodeIndex;
        leafNodes[i] := nodeIndex;
      }
    }

    // The initial tree: every code has been hit once, and has its word of a new tree.
    method InitTree()
      requires Allocated() && (forall g | 0 <= g < NUM_TREE_NODES :: groups[g] == g) && numGroups == 0
      modifies this`numGroups, nodes, leafNodes, groupLeader
      ensures Consistent(View())
      ensures forall c | 0 <= c < NUM_CODES :: LeafFreq(View(), c) == 1
      ensures forall code: nat, rest: seq<bool> | code < NUM_CODES ::
                Descend(View(), 0, NewWord(code) + rest) == Complete(code, rest)
    {
      hide Building, NumberedFrom, Consistent, InitialPlan, Descend, NewWord, BranchLinks;
      InitLeaves();
      ghost var p := InitialPlan();
      InitialLeavesBuild(nodes[..], leafNodes[..]);
      InitialLeavesGroup(nodes[..], groupLeader[..]);
      var child: nat := LAST;
      var nodeIndex: int := LAST - NUM_CODES;
      while nodeIndex >= 0
        invariant -1 <= nodeIndex <= LAST - NUM_CODES && child == 2 * nodeIndex + 2
        invariant Building(nodes[..], leafNodes[..], p, 0, nodeIndex, child)
        invariant 0 <= nodeIndex ==> nodes[nodeIndex + 1].freq <= nodes[child].freq + nodes[child - 1].freq
        invariant NumberedFrom(nodes[..], groupLeader[..], numGroups, nodeIndex + 1)
        invariant forall g | 0 <= g < NUM_TREE_NODES :: groups[g] == g
        invariant Heaped(nodes[..], nodeIndex + 1)
      {
        AddInitialBranch(nodeIndex, child);
        nodeIndex := nodeIndex - 1;
        child := child - 2;
      }
      InitialTreeBuilt(nodes[..], leafNodes[..], groups[..], groupLeader[..], numGroups);
      InitialWords(View());
    }

    // One branch of the initial tree: take the next pair, and join or start a group.
    method AddInitialBranch(nodeIndex: nat, child: nat)
      requires Allocated() && nodeIndex < LAST - NUM_CODES + 1 && child == 2 * nodeIndex + 2
      requires Building(nodes[..], leafNodes[..], InitialPlan(), 0, nodeIndex, child)
      requires nodes[nodeIndex + 1].freq <= nodes[child].freq + nodes[child - 1].freq
      requires NumberedFrom(nodes[..], groupLeader[..], numGroups, nodeIndex + 1)
      requires forall g | 0 <= g < NUM_TREE_NODES :: groups[g] == g
      requires Heaped(nodes[..], nodeIndex + 1)
      modifies this`numGroups, nodes, groupLeader
      ensures Heaped(nodes[..], nodeIndex)
      ensures Building(nodes[..], leafNodes[..], InitialPlan(), 0, nodeIndex - 1, child - 2)
      ensures 0 < nodeIndex ==> nodes[nodeIndex].freq <= nodes[child - 2].freq + nodes[child - 3].freq
      ensures NumberedFrom(nodes[..], groupLeader[..], numGroups, nodeIndex)
    {
      hide Building, NumberedFrom;
      var freq := nodes[child].freq + nodes[child - 1].freq;
      ghost var before := nodes[..];
      InsertBranch(nodeIndex, child, freq, InitialPlan(), 0);
      ReparentedNumbering(before, nodes[..], groupLeader[..], numGroups, nodeIndex + 1);
      if 0 < nodeIndex {
        PairFits(nodes[..], leafNodes[..], InitialPlan(), 0, nodeIndex - 1, child - 2, nodeIndex - 1);
      }
      JoinOrStartGroup(nodeIndex, child - 2);
    }

    // Give a new branch the group of the node to its right, or a group of its own.
    method JoinOrStartGroup(nodeIndex: nat, ghost child: int)
      requires Allocated() && nodeIndex < LAST - NUM_CODES + 1 && child == 2 * nodeIndex
      requires Building(nodes[..], leafNodes[..], InitialPlan(), 0, nodeIndex - 1, child)
      requires NumberedFrom(nodes[..], groupLeader[..], numGroups, nodeIndex + 1)
      requires forall g | 0 <= g < NUM_TREE_NODES :: groups[g] == g
      modifies this`numGroups, nodes, groupLeader
      ensures Building(nodes[..], leafNodes[..], InitialPlan(), 0, nodeIndex - 1, child)
      ensures NumberedFrom(nodes[..], groupLeader[..], numGroups, nodeIndex)
      ensures forall j | 0 <= j < NUM_TREE_NODES :: nodes[j] == old(nodes[j]).(group := nodes[j].group)
    {
      hide Building, NumberedFrom, InitialPlan;
      NumberingRoom(nodes[..], groupLeader[..], numGroups, nodeIndex + 1);
      GroupJoined(nodes[..], leafNodes[..], groupLeader[..], numGroups, nodeIndex, child);
      var group;
      if nodes[nodeIndex].freq == nodes[nodeIndex + 1].freq {
        group := nodes[nodeIndex + 1].group;
      } else {
        group := AllocGroup();
      }
      nodes[nodeIndex] := nodes[nodeIndex].(group := group);
      groupLeader[group] := nodeIndex;
    }
  }

  lemma InitialWords(t: Tree)
    requires Consistent(t) && Heaped(t.nodes, 0)
    ensures forall code: nat, rest: seq<bool> | code < NUM_CODES ::
              Descend(t, 0, NewWord(code) + rest) == Complete(code, rest)
  {
    hide BranchLinks, Descend, NewWord, Heaped;
    forall code: nat, rest: seq<bool> | code < NUM_CODES
      ensures Descend(t, 0, NewWord(code) + rest) == Complete(code, rest)
    {
      NewWordReads(t, code, rest);
    }
  }

  // The group that a new branch at i takes.
  function GroupTaken(ns: seq<Node>, numGroups: nat, i: nat): nat
    requires i + 1 < |ns|
  {
    if ns[i].freq == ns[i + 1].freq then ns[i + 1].group else numGroups
  }

  lemma GroupJoined(ns: seq<Node>, ln: seq<nat>, leader: seq<nat>, numGroups: nat, i: nat, child: int)
    requires |ns| == |leader| == NUM_TREE_NODES && i + 1 < NUM_TREE_NODES
    requires Building(ns, ln, InitialPlan(), 0, i - 1, child) && NumberedFrom(ns, leader, numGroups, i + 1)
    ensures var g := GroupTaken(ns, numGroups, i);
            var us := ns[i := ns[i].(group := g)];
            && g < NUM_TREE_NODES
            && Building(us, ln, InitialPlan(), 0, i - 1, child)
            && NumberedFrom(us, leader[g := i], if ns[i].freq == ns[i + 1].freq then numGroups else numGroups + 1, i)
  {
    hide Building, NumberedFrom, InitialPlan;
    NumberingRoom(ns, leader, numGroups, i + 1);
    var g := GroupTaken(ns, numGroups, i);
    var us := ns[i := ns[i].(group := g)];
    BuildingSorted(ns, ln, InitialPlan(), 0, i - 1, child);
    RegroupedBuilding(ns, us, ln, InitialPlan(), 0, i - 1, child);
    NumberLeft(ns, us, leader, numGroups, i + 1);
  }

  lemma NumberingRoom(ns: seq<Node>, leader: seq<nat>, numGroups: nat, lo: nat)
    requires |ns| == |leader| == NUM_TREE_NODES && NumberedFrom(ns, leader, numGroups, lo) && 0 < lo
    ensures numGroups < NUM_TREE_NODES && lo < NUM_TREE_NODES && ns[lo].group < NUM_TREE_NODES
  {
  }

  // The codes run backwards through the initial leaves.
  predicate InitialLeaf(n: Node, j: nat) {
    j <= LAST && n.leaf && n.childIndex == LAST - j && n.freq == 1 && n.group == 0
  }

  ghost function InitialPlan(): (p: Plan)
    ensures ValidPlan(p)
  {
    Plan(seq(NUM_CODES, k requires 0 <= k < NUM_CODES => NUM_CODES - 1 - k),
         seq(NUM_CODES, k requires 0 <= k < NUM_CODES => NUM_CODES - 1 - k),
         seq(NUM_CODES, k requires 0 <= k < NUM_CODES => 1))
  }

  lemma {:induction false} OnesSum(s: seq<nat>)
    requires forall k | 0 <= k < |s| :: s[k] == 1
    ensures Sum(s) == |s|
  {
    if s != [] {
      OnesSum(s[..|s| - 1]);
    }
  }

  lemma {:induction false} OnesFreqSum(ns: seq<Node>, lo: nat, hi: nat)
    requires lo <= hi <= |ns|
    requires forall j | lo <= j < hi :: ns[j].leaf && ns[j].freq == 1
    ensures FreqSum(ns, lo, hi) == LeafSum(ns, lo, hi) == hi - lo
  {
    if lo < hi {
      OnesFreqSum(ns, lo, hi - 1);
    }
  }

  lemma InitialLeavesConserve(ns: seq<Node>)
    requires |ns| == NUM_TREE_NODES
    requires forall j | NUM_TREE_NODES - NUM_CODES <= j < NUM_TREE_NODES :: InitialLeaf(ns[j], j)
    ensures Conserved(ns, InitialPlan(), 0, LAST - NUM_CODES, LAST)
  {
    var p := InitialPlan();
    OnesSum(p.freqs);
    assert p.freqs[..0] == [];
    OnesFreqSum(ns, LAST - NUM_CODES + 1, LAST + 1);
  }

  // The initial leaves are where a build that placed every leaf first would have put them.
  lemma InitialLeavesBuild(ns: seq<Node>, ln: seq<nat>)
    requires |ns| == NUM_TREE_NODES && |ln| == NUM_CODES
    requires forall c | 0 <= c < NUM_CODES :: ln[c] == LAST - c
    requires forall j | NUM_TREE_NODES - NUM_CODES <= j < NUM_TREE_NODES :: InitialLeaf(ns[j], j)
    ensures Building(ns, ln, InitialPlan(), 0, LAST - NUM_CODES, LAST)
  {
    InitialLeavesConserve(ns);
    var p, top := InitialPlan(), LAST - NUM_CODES;
    forall j: nat | top < j <= LAST ensures LeafPlaced(ns, ln, p, 0, j) && BranchPlaced(ns, LAST, j) {
      assert InitialLeaf(ns[j], j);
    }
    forall k: nat | k < NUM_CODES ensures CodePlaced(ns, ln, p, top, k) {
      assert InitialLeaf(ns[LAST - p.codes[k]], LAST - p.codes[k]);
    }
    forall j: nat, k: nat | top < j < k <= LAST ensures InOrder(ns, p, j, k) {
      assert InitialLeaf(ns[j], j) && InitialLeaf(ns[k], k);
    }
    forall j | top < j <= LAST ensures ns[j].freq == 1 && ns[j].leaf {
      assert InitialLeaf(ns[j], j);
    }
  }

  // Groups numbered from right to left, for the nodes from lo on.
  ghost predicate LeaderFrom(ns: seq<Node>, leader: seq<nat>, lo: nat, j: nat)
    requires lo <= j < |ns| == |leader|
  {
    && ns[j].group < |ns|
    && lo <= leader[ns[j].group] <= j
    && ns[leader[ns[j].group]].freq == ns[j].freq
    && (lo < leader[ns[j].group] ==> ns[leader[ns[j].group] - 1].freq > ns[j].freq)
  }

  ghost predicate NumberedFrom(ns: seq<Node>, leader: seq<nat>, numGroups: nat, lo: nat)
    requires |ns| == |leader|
  {
    && lo < |ns| && ns[lo].group + 1 == numGroups && numGroups + lo <= |ns|
    && (forall j | lo <= j < |ns| :: ns[j].group < numGroups)
    && (forall g | 0 <= g < numGroups :: lo <= leader[g] < |ns| && ns[leader[g]].group == g)
    && (forall j: nat {:trigger LeaderFrom(ns, leader, lo, j)} | lo <= j < |ns| :: LeaderFrom(ns, leader, lo, j))
    && (forall j: nat, k: nat {:trigger SameGroup(ns, j, k)} | lo <= j < |ns| && lo <= k < |ns| :: SameGroup(ns, j, k))
  }

  lemma InitialLeavesGroup(ns: seq<Node>, leader: seq<nat>)
    requires |ns| == |leader| == NUM_TREE_NODES && leader[0] == NUM_TREE_NODES - NUM_CODES
    requires forall j | NUM_TREE_NODES - NUM_CODES <= j < NUM_TREE_NODES :: InitialLeaf(ns[j], j)
    ensures NumberedFrom(ns, leader, 1, NUM_TREE_NODES - NUM_CODES)
  {
    var lo := NUM_TREE_NODES - NUM_CODES;
    forall j: nat | lo <= j < |ns| ensures LeaderFrom(ns, leader, lo, j) {
      assert InitialLeaf(ns[j], j) && InitialLeaf(ns[lo], lo);
    }
    forall j: nat, k: nat | lo <= j < |ns| && lo <= k < |ns| ensures SameGroup(ns, j, k) {
      assert InitialLeaf(ns[j], j) && InitialLeaf(ns[k], k);
    }
    assert InitialLeaf(ns[lo], lo);
    forall j | lo <= j < |ns| ensures ns[j].group < 1 {
      assert InitialLeaf(ns[j], j);
    }
  }

  lemma NumberLeft(ns: seq<Node>, us: seq<Node>, leader: seq<nat>, numGroups: nat, lo: nat)
    requires |ns| == |us| == |leader| && 0 < lo < |ns| && NumberedFrom(ns, leader, numGroups, lo)
    requires forall j | lo <= j < |ns| :: ns[lo - 1].freq >= ns[j].freq
    requires us == ns[lo - 1 := ns[lo - 1].(group := us[lo - 1].group)]
    requires us[lo - 1].group == if ns[lo - 1].freq == ns[lo].freq then ns[lo].group else numGroups
    requires us[lo - 1].group < |leader|
    requires forall j | lo <= j < |ns| :: ns[lo].freq >= ns[j].freq
    ensures NumberedFrom(us, leader[us[lo - 1].group := lo - 1],
                         if ns[lo - 1].freq == ns[lo].freq then numGroups else numGroups + 1, lo - 1)
  {
    var i := lo - 1;
    var leader' := leader[us[i].group := i];
    assert forall j | 0 <= j < |ns| :: us[j].freq == ns[j].freq && (j != i ==> us[j] == ns[j]);
    forall j: nat | i <= j < |ns| ensures LeaderFrom(us, leader', i, j) {
      assert LeaderFrom(ns, leader, lo, if j == i then lo else j);
      assert SameGroup(ns, lo, if j == i then lo else j);
    }
    forall j: nat, k: nat | i <= j < |ns| && i <= k < |ns| ensures SameGroup(us, j, k) {
      assert SameGroup(ns, if j == i then lo else j, if k == i then lo else k);
    }
  }

  lemma ReparentedNumbering(ns: seq<Node>, us: seq<Node>, leader: seq<nat>, numGroups: nat, lo: nat)
    requires |ns| == |us| == |leader| && NumberedFrom(ns, leader, numGroups, lo)
    requires forall j | lo <= j < |ns| :: us[j] == ns[j].(parent := us[j].parent)
    ensures NumberedFrom(us, leader, numGroups, lo)
  {
    forall j: nat | lo <= j < |ns| ensures LeaderFrom(us, leader, lo, j) {
      assert LeaderFrom(ns, leader, lo, j);
    }
    forall j: nat, k: nat | lo <= j < |ns| && lo <= k < |ns| ensures SameGroup(us, j, k) {
      assert SameGroup(ns, j, k);
    }
  }

  lemma RegroupedBuilding(ns: seq<Node>, us: seq<Node>, ln: seq<nat>, p: Plan, left: nat, top: int, child: int)
    requires Building(ns, ln, p, left, top, child) && |us| == |ns|
    requires forall j | 0 <= j < |ns| :: us[j] == ns[j].(group := us[j].group)
    ensures Building(us, ln, p, left, top, child)
  {
    hide Filled, Ordered, ValidPlan;
    RegroupedFilled(ns, us, ln, p, left, top, child);
    RegroupedOrder(ns, us, p, left, top);
    SumsSame(ns, us, top + 1, child + 1);
    SumsSame(ns, us, top + 1, LAST + 1);
  }

  lemma RegroupedFilled(ns: seq<Node>, us: seq<Node>, ln: seq<nat>, p: Plan, left: nat, top: int, child: int)
    requires |ns| == |us| == NUM_TREE_NODES && |ln| == NUM_CODES && ValidPlan(p) && Counts(left, top, child)
    requires Filled(ns, ln, p, left, top, child)
    requires forall j | 0 <= j < |ns| :: us[j] == ns[j].(group := us[j].group)
    ensures Filled(us, ln, p, left, top, child)
  {
    forall j: nat | top < j <= LAST ensures LeafPlaced(us, ln, p, left, j) {
      assert LeafPlaced(ns, ln, p, left, j);
    }
    forall j: nat | top < j <= LAST ensures BranchPlaced(us, child, j) {
      assert BranchPlaced(ns, child, j);
    }
    forall j: nat | child < j <= LAST ensures Adopted(us, top, j) {
      assert Adopted(ns, top, j);
    }
    forall k: nat | left <= k < NUM_CODES ensures CodePlaced(us, ln, p, top, k) {
      assert CodePlaced(ns, ln, p, top, k);
    }
  }

  lemma RegroupedOrder(ns: seq<Node>, us: seq<Node>, p: Plan, left: nat, top: int)
    requires |ns| == |us| == NUM_TREE_NODES && ValidPlan(p) && left <= NUM_CODES && -1 <= top <= LAST
    requires forall j | 0 <= j < |ns| :: us[j] == ns[j].(group := us[j].group)
    requires Ordered(ns, p, left, top)
    ensures Ordered(us, p, left, top)
  {
    forall j: nat, k: nat | top < j < k <= LAST ensures InOrder(us, p, j, k) {
      assert InOrder(ns, p, j, k);
    }
  }

  lemma BuildingSorted(ns: seq<Node>, ln: seq<nat>, p: Plan, left: nat, top: int, child: int)
    requires Building(ns, ln, p, left, top, child)
    ensures forall j, k | top < j <= k <= LAST :: ns[j].freq >= ns[k].freq
  {
  }

  lemma InitialTreeBuilt(ns: seq<Node>, ln: seq<nat>, groups: seq<nat>, leader: seq<nat>, numGroups: nat)
    requires |ns| == |groups| == |leader| == NUM_TREE_NODES && |ln| == NUM_CODES
    requires Building(ns, ln, InitialPlan(), 0, -1, 0) && NumberedFrom(ns, leader, numGroups, 0)
    requires forall g | 0 <= g < NUM_TREE_NODES :: groups[g] == g
    ensures Consistent(Tree(ns, ln, groups, numGroups, leader))
    ensures forall c | 0 <= c < NUM_CODES :: LeafFreq(Tree(ns, ln, groups, numGroups, leader), c) == 1
  {
    var p := InitialPlan();
    BuiltTree(ns, ln, p, 0, 0);
    BuiltWeight(ns, p);
    OnesSum(p.freqs);
    forall c | 0 <= c < NUM_CODES ensures ns[ln[c]].freq == 1 {
      BuiltFreqs(ns, ln, p, c);
    }
    NumberedFromIsGrouped(ns, groups, leader, numGroups);
  }

  lemma NumberedFromIsGrouped(ns: seq<Node>, groups: seq<nat>, leader: seq<nat>, numGroups: nat)
    requires |ns| == |groups| == |leader| == NUM_TREE_NODES && NumberedFrom(ns, leader, numGroups, 0)
    requires forall g | 0 <= g < NUM_TREE_NODES :: groups[g] == g
    ensures Grouped(ns, leader) && FreeList(ns, groups, numGroups)
  {
    forall i: nat | i < |ns| ensures LeaderAt(ns, leader, i) {
      assert LeaderFrom(ns, leader, 0, i);
    }
    forall g: nat | g < NUM_TREE_NODES ensures g in groups[numGroups..] <==> g !in UsedGroups(ns) {
      if g < numGroups {
        assert ns[leader[g]].group == g;
      } else {
        assert groups[numGroups..][g - numGroups] == g;
      }
    }
  }

  // What rebuilding the tree does to it.
  ghost predicate Rebuilt(t: Tree, r: Tree)
    requires Consistent(t)
  {
    && Consistent(r) && r.nodes[0].freq < TREE_REORDER_LIMIT
    && (forall c | 0 <= c < NUM_CODES :: LeafFreq(r, c) == Halved(LeafFreq(t, c)))
    && Layout(r.nodes, t.leafNodes)
  }

  // What counting a hit does to the tree, whether or not the tree has to be rebuilt first.
  ghost predicate Hit(t: Tree, code: nat, u: Tree)
    requires Consistent(t) && code < NUM_CODES
  {
    && Consistent(u)
    && (t.nodes[0].freq < TREE_REORDER_LIMIT ==> u == Counted(t, code))
    && (t.nodes[0].freq >= TREE_REORDER_LIMIT ==> exists r: Tree :: Rebuilt(t, r) && u == Counted(r, code))
  }

  // For every sequence of codes: whichever way the tree was updated, the hit code gains one.
  lemma HitCountsCode(t: Tree, code: nat, u: Tree, c: nat)
    requires Consistent(t) && code < NUM_CODES && Hit(t, code, u) && c < NUM_CODES
    ensures LeafFreq(u, c) ==
            (if t.nodes[0].freq >= 0x8000 then (LeafFreq(t, c) + 1) / 2 else LeafFreq(t, c))
            + (if c == code then 1 else 0)
  {
    if t.nodes[0].freq < TREE_REORDER_LIMIT {
      CountedKeepsConsistent(t, code);
    } else {
      var r: Tree :| Rebuilt(t, r) && u == Counted(r, code);
      CountedKeepsConsistent(r, code);
    }
  }

  lemma WalkUnfolds(t: Tree, at: nat) returns (l: nat)
    requires Walking(t, at) && 0 < at
    ensures Sized(t) && t.nodes[at].group < NUM_TREE_NODES && l == Leader(t, at) && 0 < l <= at < NUM_TREE_NODES
    ensures CanIncrement(Exchanged(t, l, at), l) && GroupRoom(Exchanged(t, l, at), l)
    ensures var w := Incremented(Exchanged(t, l, at), l);
            && w.nodes[l].parent < l && Walking(w, w.nodes[l].parent)
            && Walk(t, at) == Walk(w, w.nodes[l].parent)
  {
    l := Leader(t, at);
    LeaderFacts(t, at, l);
    LeaderLeadsItself(t, at);
    IncrementKeepsWalking(Exchanged(t, l, at), l);
  }

  lemma NumberFirst(ns: seq<Node>, leader: seq<nat>)
    requires |ns| == |leader| == NUM_TREE_NODES && ns[0].group == 0 && leader[0] == 0
    ensures Numbered(ns, leader, 1, 1)
  {
  }

  lemma BuiltSummary(t: Tree, ns: seq<Node>, ln: seq<nat>, p: Plan)
    requires Consistent(t) && p == PlanOf(t) && PlanFor(t, p) && Building(ns, ln, p, 0, -1, 0)
    ensures LeafLinks(ns, ln) && BranchLinks(ns) && Sorted(ns) && Sums(ns, 0)
    ensures ns[0].freq == LeafWeight(ns, NUM_TREE_NODES) < TREE_REORDER_LIMIT
    ensures forall c | 0 <= c < NUM_CODES :: ns[ln[c]].freq == Halved(LeafFreq(t, c))
    ensures Layout(ns, t.leafNodes)
  {
    BuiltTree(ns, ln, p, 0, 0);
    BuiltWeight(ns, p);
    PlanWeight(t);
    BuiltLayout(t, ns, p);
    forall c | 0 <= c < NUM_CODES ensures ns[ln[c]].freq == Halved(LeafFreq(t, c)) {
      BuiltFreqs(ns, ln, p, c);
    }
  }

  lemma RebuiltSummary(t: Tree, ns: seq<Node>, u: Tree)
    requires Consistent(t) && Sized(u) && |ns| == NUM_TREE_NODES
    requires forall j | 0 <= j < |ns| :: u.nodes[j] == ns[j].(group := u.nodes[j].group)
    requires LeafLinks(u.nodes, u.leafNodes) && BranchLinks(u.nodes) && Sums(u.nodes, 0)
    requires Grouped(u.nodes, u.groupLeader) && FreeList(u.nodes, u.groups, u.numGroups)
    requires Sorted(ns) && Layout(u.nodes, t.leafNodes)
    requires ns[0].freq == LeafWeight(ns, NUM_TREE_NODES) < TREE_REORDER_LIMIT
    requires LeafWeight(u.nodes, NUM_TREE_NODES) == LeafWeight(ns, NUM_TREE_NODES)
    requires forall c | 0 <= c < NUM_CODES :: ns[u.leafNodes[c]].freq == Halved(LeafFreq(t, c))
    ensures Rebuilt(t, u)
  {
    hide BranchLinks, Sums, Grouped, FreeList, Layout;
    assert forall j | 0 <= j < |ns| :: u.nodes[j].freq == ns[j].freq;
    assert forall c | 0 <= c < NUM_CODES :: u.leafNodes[c] < NUM_TREE_NODES ==>
        u.nodes[u.leafNodes[c]].freq == ns[u.leafNodes[c]].freq;
  }

  lemma RegroupedLayout(ns: seq<Node>, us: seq<Node>, oldLeafNodes: seq<nat>)
    requires |ns| == |us| && |oldLeafNodes| == NUM_CODES && Layout(ns, oldLeafNodes)
    requires forall j | 0 <= j < |ns| :: us[j] == ns[j].(group := us[j].group)
    ensures Layout(us, oldLeafNodes)
  {
    forall j: nat, k: nat | j < k < |us| ensures LaidOut(us, oldLeafNodes, j, k) {
      assert LaidOut(ns, oldLeafNodes, j, k);
    }
  }

  predicate SameLeaf(n: Node, was: Node) {
    n.leaf && n.childIndex == was.childIndex && n.freq == Halved(was.freq)
  }

  // The leaves of ns stand at the start of us, in order and with their frequencies halved.
  ghost predicate Gathered(ns: seq<Node>, us: seq<Node>)
    requires |ns| == |us|
  {
    var ps := LeafPositions(ns, |ns|);
    forall k | 0 <= k < |ps| :: ps[k] < |ns| && SameLeaf(us[k], ns[ps[k]])
  }

  lemma GatheredIsUnread(t: Tree, us: seq<Node>)
    requires Sized(t) && LeafLinks(t.nodes, t.leafNodes) && |us| == NUM_TREE_NODES && Gathered(t.nodes, us)
    requires ValidPlan(PlanOf(t))
    ensures Unread(us, PlanOf(t), NUM_CODES)
  {
    LeafCount(t.nodes, t.leafNodes);
    LeafPositionsFacts(t.nodes, NUM_TREE_NODES);
  }

  lemma BuildStart(ns: seq<Node>, ln: seq<nat>, p: Plan)
    requires |ns| == NUM_TREE_NODES && |ln| == NUM_CODES && ValidPlan(p) && Unread(ns, p, NUM_CODES)
    ensures Building(ns, ln, p, NUM_CODES, LAST, LAST)
  {
    assert p.freqs[..NUM_CODES] == p.freqs;
  }

  // Between branches, the last node placed is the branch over the last pair used.
  ghost predicate BranchOnTop(ns: seq<Node>, left: nat, top: int, child: int)
    requires |ns| == NUM_TREE_NODES
  {
    if child == LAST then top == LAST && left == NUM_CODES
    else -1 <= top < child < LAST - 1 && ns[top + 1].freq == ns[child + 2].freq + ns[child + 1].freq
  }

  // The next branch is at least as heavy as the node it is placed in front of.
  lemma PairFits(ns: seq<Node>, ln: seq<nat>, p: Plan, left: nat, top: nat, child: nat, top0: int)
    requires Building(ns, ln, p, left, top, child) && top + 2 <= child
    requires (top == top0 && BranchOnTop(ns, left, top, child)) || child - 2 <= top < child
    ensures ns[top + 1].freq <= ns[child].freq + ns[child - 1].freq
  {
  }

  lemma BuildingNextLeaf(ns: seq<Node>, ln: seq<nat>, p: Plan, left: nat, top: int, child: int)
    requires Building(ns, ln, p, left, top, child) && 0 < left
    ensures ns[left - 1].freq == p.freqs[left - 1]
  {
    assert ns[left - 1].leaf;
  }

  lemma BuildingCounts(ns: seq<Node>, ln: seq<nat>, p: Plan, left: nat, top: int, child: int)
    requires Building(ns, ln, p, left, top, child)
    ensures Counts(left, top, child)
  {
  }

  function RelinkedNodes(ns: seq<Node>, i: nat): seq<Node>
    requires i < |ns| && (!ns[i].leaf ==> 0 < ns[i].childIndex < |ns|)
  {
    if ns[i].leaf then ns
    else ns[ns[i].childIndex := ns[ns[i].childIndex].(parent := i)]
           [ns[i].childIndex - 1 := ns[ns[i].childIndex - 1].(parent := i)]
  }

  function RelinkedLeaves(ns: seq<Node>, ln: seq<nat>, i: nat): seq<nat>
    requires i < |ns| && (ns[i].leaf ==> ns[i].childIndex < |ln|)
  {
    if ns[i].leaf then ln[ns[i].childIndex := i] else ln
  }

  lemma SwapChildrenInRange(t: Tree, at: nat, l: nat)
    requires Walking(t, at) && 0 < at && l == Leader(t, at)
    ensures l <= at
    ensures forall i | i == at || i == l ::
              if t.nodes[i].leaf then t.nodes[i].childIndex < NUM_CODES
              else at + 2 <= t.nodes[i].childIndex < NUM_TREE_NODES
  {
    LeaderFacts(t, at, l);
    ExchangeInOrder(t.nodes, at, l);
    assert DownLink(t.nodes, at) && DownLink(t.nodes, l);
  }

  lemma ExchangeWithSelf(t: Tree, i: nat)
    requires Sized(t) && i < NUM_TREE_NODES
    ensures Exchanged(t, i, i) == t
  {
    assert Exchanged(t, i, i).nodes == t.nodes;
    assert Exchanged(t, i, i).leafNodes == t.leafNodes;
  }

  lemma LeaderIsReady(t: Tree, at: nat)
    requires Walking(t, at) && 0 < at
    ensures Sized(t) && LeafLinks(t.nodes, t.leafNodes) && BranchLinks(t.nodes) && at < NUM_TREE_NODES
    ensures t.nodes[at].group < NUM_TREE_NODES && (Leader(t, at) == at || SwapReady(t, at, Leader(t, at)))
  {
    SwapChildrenInRange(t, at, Leader(t, at));
  }

  // The two nodes with their contents swapped, before anything is relinked.
  function Swapped(ns: seq<Node>, at: nat, l: nat): seq<Node>
    requires at < |ns| && l < |ns|
  {
    ns[l := ns[l].(leaf := ns[at].leaf, childIndex := ns[at].childIndex)]
      [at := ns[at].(leaf := ns[l].leaf, childIndex := ns[l].childIndex)]
  }

  ghost predicate SwapReady(t: Tree, at: nat, l: nat)
    requires Sized(t)
  {
    && l < at < NUM_TREE_NODES
    && forall i | i == at || i == l ::
         if t.nodes[i].leaf then t.nodes[i].childIndex < NUM_CODES
         else at + 2 <= t.nodes[i].childIndex < NUM_TREE_NODES
  }

  lemma RelinkedAt(ns: seq<Node>, i: nat, k: nat)
    requires i < |ns| && k < |ns| && (!ns[i].leaf ==> 0 < ns[i].childIndex < |ns| && ns[i].childIndex % 2 == 0)
    ensures RelinkedNodes(ns, i)[k] ==
            if !ns[i].leaf && k > 0 && RightSibling(k) == ns[i].childIndex then ns[k].(parent := i) else ns[k]
  {
  }

  lemma RelinkedNode(t: Tree, at: nat, l: nat, k: nat)
    requires Sized(t) && BranchLinks(t.nodes) && SwapReady(t, at, l) && k < NUM_TREE_NODES
    ensures RelinkedNodes(RelinkedNodes(Swapped(t.nodes, at, l), at), l)[k] == Exchanged(t, l, at).nodes[k]
  {
    hide BranchLinks, UpLink;
    var ns := t.nodes;
    var ns1 := Swapped(ns, at, l);
    var ns2 := RelinkedNodes(ns1, at);
    LinkedDown(ns, at);
    LinkedDown(ns, l);
    RelinkedAt(ns1, at, l);
    assert ns2[l] == ns1[l];
    RelinkedAt(ns1, at, k);
    RelinkedAt(ns2, l, k);
    if k > 0 {
      ParentIs(ns, at, k);
      ParentIs(ns, l, k);
    }
  }

  lemma LinkedDown(ns: seq<Node>, i: nat)
    requires BranchLinks(ns) && i < |ns|
    ensures DownLink(ns, i)
  {
  }

  lemma ParentIs(ns: seq<Node>, i: nat, k: nat)
    requires BranchLinks(ns) && i < |ns| && 0 < k < |ns|
    ensures ns[k].parent == i <==> !ns[i].leaf && RightSibling(k) == ns[i].childIndex
  {
    assert UpLink(ns, k) && DownLink(ns, i);
  }

  lemma LinkedLeaf(ns: seq<Node>, ln: seq<nat>, i: nat, c: nat)
    requires |ns| == NUM_TREE_NODES && |ln| == NUM_CODES && LeafLinks(ns, ln) && i < NUM_TREE_NODES && c < NUM_CODES
    ensures ln[c] < NUM_TREE_NODES && ns[ln[c]].leaf && ns[ln[c]].childIndex == c
    ensures ns[i].leaf ==> ns[i].childIndex < NUM_CODES && ln[ns[i].childIndex] == i
  {
  }

  lemma RelinkedLeaf(t: Tree, at: nat, l: nat, c: nat)
    requires Sized(t) && LeafLinks(t.nodes, t.leafNodes) && SwapReady(t, at, l) && c < NUM_CODES
    ensures var ns1 := Swapped(t.nodes, at, l);
            RelinkedLeaves(RelinkedNodes(ns1, at), RelinkedLeaves(ns1, t.leafNodes, at), l)[c]
            == Exchanged(t, l, at).leafNodes[c]
  {
    hide LeafLinks;
    LinkedLeaf(t.nodes, t.leafNodes, at, c);
    LinkedLeaf(t.nodes, t.leafNodes, l, c);
  }

  // The program relinks the children of the two nodes; that is all an exchange has to change.
  lemma RelinkedIsExchanged(t: Tree, at: nat, l: nat)
    requires Sized(t) && LeafLinks(t.nodes, t.leafNodes) && BranchLinks(t.nodes) && SwapReady(t, at, l)
    ensures var ns1 := Swapped(t.nodes, at, l);
            var ns2 := RelinkedNodes(ns1, at);
            t.(nodes := RelinkedNodes(ns2, l),
               leafNodes := RelinkedLeaves(ns2, RelinkedLeaves(ns1, t.leafNodes, at), l)) == Exchanged(t, l, at)
  {
    hide BranchLinks, LeafLinks;
    var ns1 := Swapped(t.nodes, at, l);
    var ns2 := RelinkedNodes(ns1, at);
    forall k | 0 <= k < NUM_TREE_NODES ensures RelinkedNodes(ns2, l)[k] == Exchanged(t, l, at).nodes[k] {
      RelinkedNode(t, at, l, k);
    }
    forall c | 0 <= c < NUM_CODES
      ensures RelinkedLeaves(ns2, RelinkedLeaves(ns1, t.leafNodes, at), l)[c] == Exchanged(t, l, at).leafNodes[c]
    {
      RelinkedLeaf(t, at, l, c);
    }
  }
}
