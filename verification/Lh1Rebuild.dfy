// The periodic rebuild of the -lh1- code tree, done in place: the leaves are gathered at the start of
// the array with their frequencies halved, and the new tree grows backwards from the end.

module Lh1Rebuild {
  import opened Lh1Tree

  // ---------------------------------------------------------------------------------------------
  // The leaves of a tree, from left to right
  // ---------------------------------------------------------------------------------------------

  function LeafPositions(ns: seq<Node>, n: nat): (ps: seq<nat>)
    requires n <= |ns|
    ensures |ps| <= n
  {
    if n == 0 then []
    else if ns[n - 1].leaf then LeafPositions(ns, n - 1) + [n - 1]
    else LeafPositions(ns, n - 1)
  }

  ghost predicate LeafSlots(ns: seq<Node>, n: nat, ps: seq<nat>)
    requires n <= |ns|
  {
    && (forall k | 0 <= k < |ps| :: ps[k] < n && ns[ps[k]].leaf)
    && (forall k, l | 0 <= k < l < |ps| :: ps[k] < ps[l])
    && (forall i | 0 <= i < n && ns[i].leaf :: i in ps)
  }

  lemma {:induction false} LeafPositionsFacts(ns: seq<Node>, n: nat)
    requires n <= |ns|
    ensures LeafSlots(ns, n, LeafPositions(ns, n))
  {
    if n > 0 {
      LeafPositionsFacts(ns, n - 1);
    }
  }

  // There is one leaf for each code.
  lemma LeafCount(ns: seq<Node>, ln: seq<nat>)
    requires |ns| == NUM_TREE_NODES && |ln| == NUM_CODES && LeafLinks(ns, ln)
    ensures |LeafPositions(ns, |ns|)| == NUM_CODES
  {
    var ps := LeafPositions(ns, |ns|);
    LeafPositionsFacts(ns, |ns|);
    assert forall k, l | 0 <= k < l < |ps| :: ps[k] < ps[l];
    DistinctCard(ps);
    DistinctCard(ln);
    assert Elements(ps) == Elements(ln) by {
      forall k | 0 <= k < |ps| ensures ps[k] in Elements(ln) {
        assert ln[ns[ps[k]].childIndex] == ps[k];
      }
      forall c | 0 <= c < |ln| ensures ln[c] in Elements(ps) {
        assert ln[c] in ps;
      }
    }
  }

  function Halved(f: nat): nat {
    (f + 1) / 2
  }

  function Sum(s: seq<nat>): nat {
    if s == [] then 0 else Sum(s[..|s| - 1]) + s[|s| - 1]
  }

  // What the rebuild works from: the codes from heaviest to lightest, the place of each code in that
  // order, and the halved frequencies in that order.
  datatype Plan = Plan(codes: seq<nat>, rank: seq<nat>, freqs: seq<nat>)

  ghost predicate ValidPlan(p: Plan) {
    && |p.codes| == |p.rank| == |p.freqs| == NUM_CODES
    && (forall k | 0 <= k < NUM_CODES :: p.codes[k] < NUM_CODES && p.rank[p.codes[k]] == k)
    && (forall c | 0 <= c < NUM_CODES :: p.rank[c] < NUM_CODES && p.codes[p.rank[c]] == c)
    && (forall k, l | 0 <= k <= l < NUM_CODES :: p.freqs[k] >= p.freqs[l])
    && (forall k | 0 <= k < NUM_CODES :: p.freqs[k] >= 1)
  }

  ghost predicate PlanFor(t: Tree, p: Plan)
    requires Sized(t) && LeafLinks(t.nodes, t.leafNodes)
  {
    && ValidPlan(p)
    && (forall c | 0 <= c < NUM_CODES :: p.freqs[p.rank[c]] == Halved(LeafFreq(t, c)))
    && (forall c, d | 0 <= c < NUM_CODES && 0 <= d < NUM_CODES ::
          p.rank[c] < p.rank[d] <==> t.leafNodes[c] < t.leafNodes[d])
  }

  ghost function IndexIn(s: seq<nat>, x: nat): (k: nat)
    requires x in s
    ensures k < |s| && s[k] == x
  {
    var k :| 0 <= k < |s| && s[k] == x; k
  }

  ghost function PlanOf(t: Tree): (p: Plan)
    requires Sized(t) && LeafLinks(t.nodes, t.leafNodes)
    ensures |p.codes| == |p.rank| == |p.freqs| == NUM_CODES
  {
    LeafCount(t.nodes, t.leafNodes);
    LeafPositionsFacts(t.nodes, NUM_TREE_NODES);
    var ps := LeafPositions(t.nodes, NUM_TREE_NODES);
    Plan(seq(NUM_CODES, k requires 0 <= k < NUM_CODES => t.nodes[ps[k]].childIndex),
         seq(NUM_CODES, c requires 0 <= c < NUM_CODES => IndexIn(ps, t.leafNodes[c])),
         seq(NUM_CODES, k requires 0 <= k < NUM_CODES => Halved(t.nodes[ps[k]].freq)))
  }

  lemma PlanOfPlaces(t: Tree, c: nat)
    requires Sized(t) && LeafLinks(t.nodes, t.leafNodes) && c < NUM_CODES
    ensures var p := PlanOf(t);
            && p.rank[c] < NUM_CODES && p.codes[p.rank[c]] == c
            && p.freqs[p.rank[c]] == Halved(LeafFreq(t, c))
            && p.rank[c] < |LeafPositions(t.nodes, NUM_TREE_NODES)|
            && LeafPositions(t.nodes, NUM_TREE_NODES)[p.rank[c]] == t.leafNodes[c]
  {
    LeafCount(t.nodes, t.leafNodes);
    LeafPositionsFacts(t.nodes, NUM_TREE_NODES);
    assert t.leafNodes[c] in LeafPositions(t.nodes, NUM_TREE_NODES);
  }

  lemma PlanOfOrders(t: Tree, k: nat, l: nat)
    requires Sized(t) && LeafLinks(t.nodes, t.leafNodes) && Sorted(t.nodes) && k <= l < NUM_CODES
    ensures var p := PlanOf(t);
            p.freqs[k] >= p.freqs[l] >= 1 && p.codes[k] < NUM_CODES && p.rank[p.codes[k]] == k
  {
    LeafCount(t.nodes, t.leafNodes);
    LeafPositionsFacts(t.nodes, NUM_TREE_NODES);
    var ps := LeafPositions(t.nodes, NUM_TREE_NODES);
    assert ps[k] <= ps[l];
    PlanOfPlaces(t, PlanOf(t).codes[k]);
  }

  lemma PlanOfIsPlan(t: Tree)
    requires Sized(t) && LeafLinks(t.nodes, t.leafNodes) && Sorted(t.nodes)
    ensures PlanFor(t, PlanOf(t))
  {
    var p := PlanOf(t);
    var ps := LeafPositions(t.nodes, NUM_TREE_NODES);
    LeafPositionsFacts(t.nodes, NUM_TREE_NODES);
    forall c | 0 <= c < NUM_CODES
      ensures p.rank[c] < NUM_CODES && p.codes[p.rank[c]] == c
      ensures p.freqs[p.rank[c]] == Halved(LeafFreq(t, c))
      ensures p.rank[c] < |ps| && ps[p.rank[c]] == t.leafNodes[c]
    {
      PlanOfPlaces(t, c);
    }
    forall k, l | 0 <= k <= l < NUM_CODES
      ensures p.freqs[k] >= p.freqs[l]
    {
      PlanOfOrders(t, k, l);
    }
    forall k | 0 <= k < NUM_CODES
      ensures p.freqs[k] >= 1 && p.codes[k] < NUM_CODES && p.rank[p.codes[k]] == k
    {
      PlanOfOrders(t, k, k);
    }
  }

  // Halving bounds the weight of the new tree.
  lemma {:induction false} HalvedWeight(ns: seq<Node>, n: nat)
    requires n <= |ns|
    ensures var ps := LeafPositions(ns, n);
            && (forall k | 0 <= k < |ps| :: ps[k] < |ns|)
            && 2 * Sum(seq(|ps|, k requires 0 <= k < |ps| => Halved(ns[ps[k]].freq)))
               <= LeafWeight(ns, n) + |ps|
  {
    LeafPositionsFacts(ns, n);
    if n > 0 {
      HalvedWeight(ns, n - 1);
      var ps, qs := LeafPositions(ns, n), LeafPositions(ns, n - 1);
      LeafPositionsFacts(ns, n - 1);
      var hs := seq(|ps|, k requires 0 <= k < |ps| => Halved(ns[ps[k]].freq));
      var gs := seq(|qs|, k requires 0 <= k < |qs| => Halved(ns[qs[k]].freq));
      if ns[n - 1].leaf {
        assert hs[..|hs| - 1] == gs;
      } else {
        assert hs == gs;
      }
    }
  }

  lemma PlanWeight(t: Tree)
    requires Consistent(t)
    ensures 2 * Sum(PlanOf(t).freqs) <= TREE_REORDER_LIMIT + NUM_CODES
  {
    HalvedWeight(t.nodes, NUM_TREE_NODES);
    LeafCount(t.nodes, t.leafNodes);
    var ps := LeafPositions(t.nodes, NUM_TREE_NODES);
    LeafPositionsFacts(t.nodes, NUM_TREE_NODES);
    assert PlanOf(t).freqs == seq(|ps|, k requires 0 <= k < |ps| => Halved(t.nodes[ps[k]].freq));
  }

  // ---------------------------------------------------------------------------------------------
  // The backward build
  // ---------------------------------------------------------------------------------------------
  //
  // The build has `left` unread leaves at the start of the array and has filled the positions above
  // `top`.  Of the filled positions, those above `child` already have a parent.

  ghost predicate LeafPlaced(ns: seq<Node>, ln: seq<nat>, p: Plan, left: nat, j: nat)
    requires j < |ns| && |ln| == NUM_CODES && ValidPlan(p)
  {
    ns[j].leaf ==>
      && ns[j].childIndex < NUM_CODES
      && left <= p.rank[ns[j].childIndex]
      && ln[ns[j].childIndex] == j
      && ns[j].freq == p.freqs[p.rank[ns[j].childIndex]]
  }

  ghost predicate CodePlaced(ns: seq<Node>, ln: seq<nat>, p: Plan, top: int, k: nat)
    requires |ln| == NUM_CODES && ValidPlan(p) && k < NUM_CODES
  {
    var c := p.codes[k];
    top < ln[c] < |ns| && ns[ln[c]].leaf && ns[ln[c]].childIndex == c
  }

  ghost predicate BranchPlaced(ns: seq<Node>, child: int, j: nat)
    requires j < |ns|
  {
    && (!ns[j].leaf ==> child < ns[j].childIndex)
    && DownLink(ns, j)
    && SumAt(ns, j, 0)
  }

  ghost predicate Adopted(ns: seq<Node>, top: int, j: nat)
    requires 1 <= j < |ns|
  {
    top < ns[j].parent && UpLink(ns, j)
  }

  // Leaves keep their order, branches are laid out in the order of their children, and a branch goes
  // to the left of every leaf that is not heavier.  Together these determine the tree (Lh1Layout).
  ghost predicate InOrder(ns: seq<Node>, p: Plan, j: nat, k: nat)
    requires j < k < |ns| && ValidPlan(p)
  {
    && (ns[j].leaf && ns[k].leaf && ns[j].childIndex < NUM_CODES && ns[k].childIndex < NUM_CODES ==>
          p.rank[ns[j].childIndex] < p.rank[ns[k].childIndex])
    && (!ns[j].leaf && !ns[k].leaf ==> ns[j].childIndex < ns[k].childIndex)
    && (ns[j].leaf && !ns[k].leaf ==> ns[j].freq > ns[k].freq)
  }

  function FreqSum(ns: seq<Node>, lo: int, hi: int): nat
    requires 0 <= lo && hi <= |ns|
    decreases hi - lo
  {
    if hi <= lo then 0 else FreqSum(ns, lo, hi - 1) + ns[hi - 1].freq
  }

  function LeafSum(ns: seq<Node>, lo: int, hi: int): nat
    requires 0 <= lo && hi <= |ns|
    decreases hi - lo
  {
    if hi <= lo then 0 else LeafSum(ns, lo, hi - 1) + (if ns[hi - 1].leaf then ns[hi - 1].freq else 0)
  }

  const LAST: nat := NUM_TREE_NODES - 1

  // The arithmetic that keeps the writer ahead of the reader: at most one free place per missing
  // branch separates them.
  predicate Counts(left: nat, top: int, child: int) {
    && left <= NUM_CODES
    && -1 <= top <= child <= LAST
    && 0 <= child && child % 2 == 0
    && 2 * (top - left) == 2 * (NUM_CODES - 2) - (LAST - child)
  }

  ghost predicate Unread(ns: seq<Node>, p: Plan, left: nat)
    requires left <= NUM_CODES <= |ns| && ValidPlan(p)
  {
    forall j | 0 <= j < left :: ns[j].leaf && ns[j].childIndex == p.codes[j] && ns[j].freq == p.freqs[j]
  }

  ghost predicate Filled(ns: seq<Node>, ln: seq<nat>, p: Plan, left: nat, top: int, child: int)
    requires |ns| == NUM_TREE_NODES && |ln| == NUM_CODES && ValidPlan(p) && Counts(left, top, child)
  {
    && (forall j: nat {:trigger LeafPlaced(ns, ln, p, left, j)} | top < j <= LAST :: LeafPlaced(ns, ln, p, left, j))
    && (forall j: nat {:trigger BranchPlaced(ns, child, j)} | top < j <= LAST :: BranchPlaced(ns, child, j))
    && (forall j: nat {:trigger Adopted(ns, top, j)} | child < j <= LAST :: Adopted(ns, top, j))
    && (forall k: nat {:trigger CodePlaced(ns, ln, p, top, k)} | left <= k < NUM_CODES :: CodePlaced(ns, ln, p, top, k))
  }

  ghost predicate Ordered(ns: seq<Node>, p: Plan, left: nat, top: int)
    requires |ns| == NUM_TREE_NODES && ValidPlan(p) && left <= NUM_CODES && -1 <= top <= LAST
  {
    && (forall j, k | top < j <= k <= LAST :: ns[j].freq >= ns[k].freq)
    && (forall j | top < j <= LAST :: ns[j].freq >= 1)
    && (forall j: nat, k: nat {:trigger InOrder(ns, p, j, k)} | top < j < k <= LAST :: InOrder(ns, p, j, k))
    && (0 < left && top < LAST ==> p.freqs[left - 1] >= ns[top + 1].freq)
    && (0 < left ==> forall j | top < j <= LAST && !ns[j].leaf :: p.freqs[left - 1] > ns[j].freq)
  }

  ghost predicate Conserved(ns: seq<Node>, p: Plan, left: nat, top: int, child: int)
    requires |ns| == NUM_TREE_NODES && ValidPlan(p) && Counts(left, top, child)
  {
    && FreqSum(ns, top + 1, child + 1) + Sum(p.freqs[..left]) == Sum(p.freqs)
    && LeafSum(ns, top + 1, LAST + 1) + Sum(p.freqs[..left]) == Sum(p.freqs)
  }

  ghost predicate Building(ns: seq<Node>, ln: seq<nat>, p: Plan, left: nat, top: int, child: int)
  {
    && |ns| == NUM_TREE_NODES && |ln| == NUM_CODES && ValidPlan(p) && Counts(left, top, child)
    && Unread(ns, p, left)
    && Filled(ns, ln, p, left, top, child)
    && Ordered(ns, p, left, top)
    && Conserved(ns, p, left, top, child)
  }

  lemma {:induction false} FreqSumFront(ns: seq<Node>, lo: int, hi: int)
    requires 0 <= lo < hi <= |ns|
    ensures FreqSum(ns, lo, hi) == ns[lo].freq + FreqSum(ns, lo + 1, hi)
    ensures LeafSum(ns, lo, hi) == (if ns[lo].leaf then ns[lo].freq else 0) + LeafSum(ns, lo + 1, hi)
    decreases hi
  {
    if lo + 1 < hi {
      FreqSumFront(ns, lo, hi - 1);
    }
  }

  lemma {:induction false} SumsSame(ns: seq<Node>, us: seq<Node>, lo: int, hi: int)
    requires |ns| == |us| && 0 <= lo && hi <= |ns|
    requires forall j | lo <= j < hi :: us[j].freq == ns[j].freq && us[j].leaf == ns[j].leaf
    ensures FreqSum(us, lo, hi) == FreqSum(ns, lo, hi)
    ensures LeafSum(us, lo, hi) == LeafSum(ns, lo, hi)
    decreases hi
  {
    if lo < hi {
      SumsSame(ns, us, lo, hi - 1);
    }
  }

  lemma PrefixSum(s: seq<nat>, k: nat)
    requires 0 < k <= |s|
    ensures Sum(s[..k]) == Sum(s[..k - 1]) + s[k - 1]
  {
    assert s[..k][..k - 1] == s[..k - 1];
  }

  // Copying the next unread leaf to position `top`.
  function WithLeaf(ns: seq<Node>, left: nat, top: nat): seq<Node>
    requires 0 < left <= |ns| && top < |ns|
  {
    ns[top := ns[left - 1]]
  }

  lemma PlaceLeafFills(ns: seq<Node>, ln: seq<nat>, p: Plan, left: nat, top: nat, child: int)
    requires Building(ns, ln, p, left, top, child) && 0 < left
    ensures left - 1 <= top
    ensures Filled(WithLeaf(ns, left, top), ln[p.codes[left - 1] := top], p, left - 1, top - 1, child)
  {
    hide Ordered, Conserved;
    var us, c := WithLeaf(ns, left, top), p.codes[left - 1];
    var ln', left', top' := ln[c := top], left - 1, top - 1;
    assert ns[left'].leaf;
    forall j: nat | top' < j <= LAST ensures LeafPlaced(us, ln', p, left', j) {
      if j > top {
        assert LeafPlaced(ns, ln, p, left, j);
      }
    }
    forall j: nat | top' < j <= LAST ensures BranchPlaced(us, child, j) {
      if j > top {
        assert BranchPlaced(ns, child, j);
      }
    }
    forall j: nat | child < j <= LAST ensures Adopted(us, top', j) {
      assert Adopted(ns, top, j);
    }
    forall k: nat | left' <= k < NUM_CODES ensures CodePlaced(us, ln', p, top', k) {
      if k >= left {
        assert CodePlaced(ns, ln, p, top, k);
      }
    }
  }

  lemma PlaceLeafOrders(ns: seq<Node>, ln: seq<nat>, p: Plan, left: nat, top: nat, child: int)
    requires Building(ns, ln, p, left, top, child) && 0 < left
    ensures Ordered(WithLeaf(ns, left, top), p, left - 1, top - 1)
  {
    var us := WithLeaf(ns, left, top);
    assert ns[left - 1].leaf;
    assert p.freqs[left - 1] == us[top].freq;
    forall j: nat, k: nat | top - 1 < j < k <= LAST ensures InOrder(us, p, j, k) {
      if j > top {
        assert InOrder(ns, p, j, k);
      } else {
        assert LeafPlaced(ns, ln, p, left, k);
      }
    }
  }

  lemma PlaceLeafConserves(ns: seq<Node>, p: Plan, left: nat, top: nat, child: int)
    requires |ns| == NUM_TREE_NODES && ValidPlan(p) && Counts(left, top, child) && 0 < left
    requires Unread(ns, p, left) && Conserved(ns, p, left, top, child)
    ensures Conserved(WithLeaf(ns, left, top), p, left - 1, top - 1, child)
  {
    var us := WithLeaf(ns, left, top);
    assert ns[left - 1].leaf;
    SumsSame(ns, us, top + 1, child + 1);
    SumsSame(ns, us, top + 1, LAST + 1);
    FreqSumFront(us, top, child + 1);
    FreqSumFront(us, top, LAST + 1);
    PrefixSum(p.freqs, left);
  }

  lemma PlaceLeaf(ns: seq<Node>, ln: seq<nat>, p: Plan, left: nat, top: nat, child: int)
    requires Building(ns, ln, p, left, top, child) && 0 < left
    ensures left - 1 <= top
    ensures Building(WithLeaf(ns, left, top), ln[p.codes[left - 1] := top], p, left - 1, top - 1, child)
  {
    PlaceLeafFills(ns, ln, p, left, top, child);
    PlaceLeafOrders(ns, ln, p, left, top, child);
    PlaceLeafConserves(ns, p, left, top, child);
  }

  // Inserting a branch at position `top` over the pair at `child`.
  function WithBranch(ns: seq<Node>, top: nat, child: nat): seq<Node>
    requires top + 2 <= child < |ns|
  {
    var branch := ns[top].(leaf := false, childIndex := child, freq := ns[child].freq + ns[child - 1].freq);
    ns[top := branch]
      [child := ns[child].(parent := top)]
      [child - 1 := ns[child - 1].(parent := top)]
  }

  ghost predicate BranchFits(ns: seq<Node>, p: Plan, left: nat, top: nat, child: nat)
    requires |ns| == NUM_TREE_NODES && ValidPlan(p) && left <= NUM_CODES
  {
    && top + 2 <= child <= LAST
    && (0 < left ==> p.freqs[left - 1] > ns[child].freq + ns[child - 1].freq)
    && ns[top + 1].freq <= ns[child].freq + ns[child - 1].freq
  }

  lemma PlaceBranchKeepsLeaves(ns: seq<Node>, ln: seq<nat>, p: Plan, left: nat, top: nat, child: nat)
    requires |ns| == NUM_TREE_NODES && |ln| == NUM_CODES && ValidPlan(p) && Counts(left, top, child)
    requires Filled(ns, ln, p, left, top, child) && top + 2 <= child
    ensures forall j: nat {:trigger LeafPlaced(WithBranch(ns, top, child), ln, p, left, j)} | top - 1 < j <= LAST ::
              LeafPlaced(WithBranch(ns, top, child), ln, p, left, j)
    ensures forall k: nat, top' {:trigger CodePlaced(WithBranch(ns, top, child), ln, p, top', k)} |
              top' == top - 1 && left <= k < NUM_CODES :: CodePlaced(WithBranch(ns, top, child), ln, p, top', k)
  {
    var us, top' := WithBranch(ns, top, child), top - 1;
    forall j: nat | top' < j <= LAST ensures LeafPlaced(us, ln, p, left, j) {
      if j > top {
        assert LeafPlaced(ns, ln, p, left, j);
      }
    }
    forall k: nat | left <= k < NUM_CODES ensures CodePlaced(us, ln, p, top', k) {
      assert CodePlaced(ns, ln, p, top, k);
    }
  }

  lemma PlaceBranchAdopts(ns: seq<Node>, ln: seq<nat>, p: Plan, left: nat, top: nat, child: nat, j: nat)
    requires |ns| == NUM_TREE_NODES && |ln| == NUM_CODES && ValidPlan(p) && Counts(left, top, child)
    requires Filled(ns, ln, p, left, top, child) && top + 2 <= child && top <= j <= LAST
    ensures BranchPlaced(WithBranch(ns, top, child), child - 2, j)
    ensures j > child - 2 ==> Adopted(WithBranch(ns, top, child), top - 1, j)
  {
    if j > top {
      assert BranchPlaced(ns, child, j);
    }
    if j > child {
      assert Adopted(ns, top, j);
    }
  }

  lemma PlaceBranchFills(ns: seq<Node>, ln: seq<nat>, p: Plan, left: nat, top: nat, child: nat)
    requires |ns| == NUM_TREE_NODES && |ln| == NUM_CODES && ValidPlan(p) && Counts(left, top, child)
    requires Filled(ns, ln, p, left, top, child) && top + 2 <= child
    ensures Filled(WithBranch(ns, top, child), ln, p, left, top - 1, child - 2)
  {
    var us, top', child' := WithBranch(ns, top, child), top - 1, child - 2;
    PlaceBranchKeepsLeaves(ns, ln, p, left, top, child);
    forall j: nat | top' < j <= LAST ensures BranchPlaced(us, child', j) {
      PlaceBranchAdopts(ns, ln, p, left, top, child, j);
    }
    forall j: nat | child' < j <= LAST ensures Adopted(us, top', j) {
      PlaceBranchAdopts(ns, ln, p, left, top, child, j);
    }
  }

  lemma PlaceBranchOrders(ns: seq<Node>, ln: seq<nat>, p: Plan, left: nat, top: nat, child: nat)
    requires Building(ns, ln, p, left, top, child) && BranchFits(ns, p, left, top, child)
    ensures Ordered(WithBranch(ns, top, child), p, left, top - 1)
  {
    hide Conserved, Unread;
    var us := WithBranch(ns, top, child);
    assert forall j | top < j <= LAST :: us[j].leaf == ns[j].leaf && us[j].freq == ns[j].freq
                                         && us[j].childIndex == ns[j].childIndex;
    forall j: nat, k: nat | top - 1 < j < k <= LAST ensures InOrder(us, p, j, k) {
      if j > top {
        assert InOrder(ns, p, j, k);
      } else {
        assert BranchPlaced(ns, child, k);
      }
    }
  }

  lemma PlaceBranchConserves(ns: seq<Node>, p: Plan, left: nat, top: nat, child: nat)
    requires |ns| == NUM_TREE_NODES && ValidPlan(p) && Counts(left, top, child)
    requires Conserved(ns, p, left, top, child) && BranchFits(ns, p, left, top, child)
    ensures Conserved(WithBranch(ns, top, child), p, left, top - 1, child - 2)
  {
    var us := WithBranch(ns, top, child);
    assert FreqSum(ns, top + 1, child + 1) == FreqSum(ns, top + 1, child - 1) + ns[child - 1].freq + ns[child].freq;
    SumsSame(ns, us, top + 1, child - 1);
    SumsSame(ns, us, top + 1, LAST + 1);
    FreqSumFront(us, top, child - 1);
    FreqSumFront(us, top, LAST + 1);
  }

  lemma PlaceBranch(ns: seq<Node>, ln: seq<nat>, p: Plan, left: nat, top: nat, child: nat)
    requires Building(ns, ln, p, left, top, child) && BranchFits(ns, p, left, top, child)
    ensures left <= top
    ensures Building(WithBranch(ns, top, child), ln, p, left, top - 1, child - 2)
  {
    var us := WithBranch(ns, top, child);
    PlaceBranchFills(ns, ln, p, left, top, child);
    PlaceBranchOrders(ns, ln, p, left, top, child);
    PlaceBranchConserves(ns, p, left, top, child);
  }

  lemma {:induction false} LeafSumIsWeight(ns: seq<Node>, n: nat)
    requires n <= |ns|
    ensures LeafSum(ns, 0, n) == LeafWeight(ns, n)
  {
    if n > 0 {
      LeafSumIsWeight(ns, n - 1);
    }
  }

  // When the writer has filled position 0 every leaf has been used, exactly one node has no parent,
  // and that node is the root.
  lemma BuiltTree(ns: seq<Node>, ln: seq<nat>, p: Plan, left: nat, child: int)
    requires Building(ns, ln, p, left, -1, child)
    ensures left == 0 && child == 0
    ensures LeafLinks(ns, ln) && BranchLinks(ns) && Sorted(ns) && Sums(ns, 0)
  {
    assert left == 0 && child == 0;
    forall i | 0 <= i < NUM_TREE_NODES && ns[i].leaf
      ensures ns[i].childIndex < NUM_CODES && ln[ns[i].childIndex] == i
    {
      assert LeafPlaced(ns, ln, p, 0, i);
    }
    forall c | 0 <= c < NUM_CODES
      ensures ln[c] < NUM_TREE_NODES && ns[ln[c]].leaf && ns[ln[c]].childIndex == c
    {
      assert CodePlaced(ns, ln, p, -1, p.rank[c]);
    }
    forall i: nat | i < NUM_TREE_NODES ensures DownLink(ns, i) && SumAt(ns, i, 0) {
      assert BranchPlaced(ns, 0, i);
    }
    forall i: nat | 1 <= i < NUM_TREE_NODES ensures UpLink(ns, i) {
      assert Adopted(ns, -1, i);
    }
  }

  lemma BuiltWeight(ns: seq<Node>, p: Plan)
    requires |ns| == NUM_TREE_NODES && ValidPlan(p) && Conserved(ns, p, 0, -1, 0)
    ensures ns[0].freq == LeafWeight(ns, NUM_TREE_NODES) == Sum(p.freqs)
  {
    assert p.freqs[..0] == [];
    assert FreqSum(ns, 0, 1) == ns[0].freq;
    LeafSumIsWeight(ns, LAST + 1);
  }

  // The frequency of a code in the rebuilt tree, and the order of the codes in it.
  lemma BuiltFreqs(ns: seq<Node>, ln: seq<nat>, p: Plan, c: nat)
    requires Building(ns, ln, p, 0, -1, 0) && c < NUM_CODES
    ensures ln[c] < NUM_TREE_NODES && ns[ln[c]].freq == p.freqs[p.rank[c]]
  {
    assert CodePlaced(ns, ln, p, -1, p.rank[c]);
    assert LeafPlaced(ns, ln, p, 0, ln[c]);
  }

  // The layout rules of the rebuilt tree, in terms of the codes' order in the old one.
  ghost predicate LaidOut(ns: seq<Node>, oldLeafNodes: seq<nat>, j: nat, k: nat)
    requires j < k < |ns| && |oldLeafNodes| == NUM_CODES
  {
    && (ns[j].leaf && ns[k].leaf && ns[j].childIndex < NUM_CODES && ns[k].childIndex < NUM_CODES ==>
          oldLeafNodes[ns[j].childIndex] < oldLeafNodes[ns[k].childIndex])
    && (!ns[j].leaf && !ns[k].leaf ==> ns[j].childIndex < ns[k].childIndex)
    && (ns[j].leaf && !ns[k].leaf ==> ns[j].freq > ns[k].freq)
  }

  ghost predicate Layout(ns: seq<Node>, oldLeafNodes: seq<nat>)
    requires |oldLeafNodes| == NUM_CODES
  {
    forall j: nat, k: nat {:trigger LaidOut(ns, oldLeafNodes, j, k)} | j < k < |ns| :: LaidOut(ns, oldLeafNodes, j, k)
  }

  lemma BuiltLayout(t: Tree, ns: seq<Node>, p: Plan)
    requires Sized(t) && LeafLinks(t.nodes, t.leafNodes) && PlanFor(t, p)
    requires |ns| == NUM_TREE_NODES && Ordered(ns, p, 0, -1)
    ensures Layout(ns, t.leafNodes)
  {
    forall j: nat, k: nat | j < k < |ns| ensures LaidOut(ns, t.leafNodes, j, k) {
      assert InOrder(ns, p, j, k);
    }
  }

  // ---------------------------------------------------------------------------------------------
  // Numbering the groups afresh
  // ---------------------------------------------------------------------------------------------

  // The first n nodes have been put in groups 0, 1, ..., numGroups - 1, from left to right.
  ghost predicate Numbered(ns: seq<Node>, leader: seq<nat>, numGroups: nat, n: nat)
    requires |ns| == |leader|
  {
    && 0 < n <= |ns| && numGroups <= n && ns[n - 1].group + 1 == numGroups
    && (forall j | 0 <= j < n :: ns[j].group < numGroups)
    && (forall g | 0 <= g < numGroups :: leader[g] < n && ns[leader[g]].group == g)
    && (forall j: nat {:trigger LeaderAt(ns, leader, j)} | j < n :: LeaderAt(ns, leader, j))
    && (forall j: nat, k: nat {:trigger SameGroup(ns, j, k)} | j < n && k < n :: SameGroup(ns, j, k))
  }

  lemma NumberNext(ns: seq<Node>, us: seq<Node>, leader: seq<nat>, leader': seq<nat>, numGroups: nat, n: nat)
    requires |ns| == |leader| && Sorted(ns) && Numbered(ns, leader, numGroups, n) && n < |ns|
    requires |us| == |ns| && us == ns[n := ns[n].(group := us[n].group)]
    requires if ns[n].freq == ns[n - 1].freq then us[n].group == ns[n - 1].group && leader' == leader
             else us[n].group == numGroups && leader' == leader[numGroups := n]
    ensures Sorted(us)
    ensures Numbered(us, leader', if ns[n].freq == ns[n - 1].freq then numGroups else numGroups + 1, n + 1)
  {
    assert forall j | 0 <= j < n :: us[j] == ns[j];
    assert forall j | 0 <= j < |ns| :: us[j].freq == ns[j].freq;
    forall j: nat | j < n + 1 ensures LeaderAt(us, leader', j) {
      if j < n {
        assert LeaderAt(ns, leader, j);
      } else {
        assert LeaderAt(ns, leader, n - 1);
      }
    }
    forall j: nat, k: nat | j < n + 1 && k < n + 1 ensures SameGroup(us, j, k) {
      assert SameGroup(ns, if j < n then j else n - 1, if k < n then k else n - 1);
    }
  }

  lemma NumberedIsGrouped(ns: seq<Node>, groups: seq<nat>, leader: seq<nat>, numGroups: nat)
    requires |ns| == |leader| == |groups| == NUM_TREE_NODES && Numbered(ns, leader, numGroups, NUM_TREE_NODES)
    requires forall g | 0 <= g < NUM_TREE_NODES :: groups[g] == g
    ensures Grouped(ns, leader) && FreeList(ns, groups, numGroups)
  {
    forall i: nat | i < |ns| ensures leader[ns[i].group] < |ns| {
      assert LeaderAt(ns, leader, i);
    }
    forall g: nat | g < NUM_TREE_NODES ensures g in groups[numGroups..] <==> g !in UsedGroups(ns) {
      if g < numGroups {
        assert ns[leader[g]].group == g;
      } else {
        assert groups[numGroups..][g - numGroups] == g;
      }
    }
  }

  // Grouping touches nothing that the links, sums and weights depend on.
  lemma {:induction false} RegroupedTree(ns: seq<Node>, us: seq<Node>, ln: seq<nat>)
    requires |ns| == |us| == NUM_TREE_NODES && |ln| == NUM_CODES
    requires forall j | 0 <= j < |ns| :: us[j] == ns[j].(group := us[j].group)
    requires LeafLinks(ns, ln) && BranchLinks(ns) && Sums(ns, 0)
    ensures LeafLinks(us, ln) && BranchLinks(us) && Sums(us, 0)
    ensures LeafWeight(us, NUM_TREE_NODES) == LeafWeight(ns, NUM_TREE_NODES)
  {
    forall i: nat | i < NUM_TREE_NODES ensures DownLink(us, i) && SumAt(us, i, 0) {
      assert DownLink(ns, i) && SumAt(ns, i, 0);
    }
    forall i: nat | 1 <= i < NUM_TREE_NODES ensures UpLink(us, i) {
      assert UpLink(ns, i);
    }
    SameLeavesSameWeight(ns, us, NUM_TREE_NODES);
  }
}
