// The table-built Huffman trees of the LHA decoders (external/lhasa/lib/tree_decode.c): a tree in an
// array that is rebuilt for every block without being cleared.

module TreeDecode {
  import opened Bits
  import opened Canonical
  import opened Wrappers
  import BitReader

  // ---------------------------------------------------------------------------------------------
  // Reading
  // ---------------------------------------------------------------------------------------------

  // A cell with the leaf bit set holds a code; any other cell holds the index of its first child.
  ghost predicate Safe(tree: seq<nat>, leafBit: nat) {
    && 0 < |tree| <= leafBit
    && (forall i | 0 <= i < |tree| :: tree[i] < leafBit ==> i < tree[i] && tree[i] + 1 < |tree|)
    && (forall i | 0 <= i < |tree| :: tree[i] < 2 * leafBit)
  }

  datatype Reading = Complete(code: nat, rest: seq<bool>) | Incomplete

  // Children come after their parents, so that every descent ends.
  function Descend(tree: seq<nat>, leafBit: nat, i: nat, bits: seq<bool>): Reading
    requires Safe(tree, leafBit) && i < |tree|
    decreases |tree| - i
  {
    if tree[i] >= leafBit then Complete(tree[i] - leafBit, bits)
    else if bits == [] then Incomplete
    else Descend(tree, leafBit, tree[i] + BitOf(bits[0]), bits[1..])
  }

  method ReadFromTree(reader: BitReader.Reader, tree: seq<nat>, leafBit: nat) returns (result: int)
    requires reader.Valid() && Safe(tree, leafBit)
    modifies reader, reader.source
    ensures reader.Valid()
    ensures result >= 0 ==> Descend(tree, leafBit, 0, old(reader.Unread())) == Complete(result, reader.Unread())
    ensures result < 0 ==> result == -1 && Descend(tree, leafBit, 0, old(reader.Unread())) == Incomplete
  {
    ghost var i := 0;
    var code := tree[0];
    while code < leafBit
      invariant reader.Valid() && i < |tree| && code == tree[i]
      invariant Descend(tree, leafBit, 0, old(reader.Unread())) == Descend(tree, leafBit, i, reader.Unread())
      decreases |tree| - i
    {
      var bit := reader.ReadBit();
      if bit < 0 {
        return -1;
      }
      i := code + bit;
      code := tree[code + bit];
    }
    result := code - leafBit;
  }

  // ---------------------------------------------------------------------------------------------
  // Where bits lead
  // ---------------------------------------------------------------------------------------------

  // The cell that bs leads to when only branches in the first `limit` cells are followed; -1 if none.
  function Reach(tree: seq<nat>, leafBit: nat, limit: nat, bs: seq<bool>): int
    requires limit <= |tree|
  {
    if bs == [] then 0
    else
      var p := Reach(tree, leafBit, limit, bs[..|bs| - 1]);
      if 0 <= p < limit && tree[p] < leafBit then tree[p] + BitOf(bs[|bs| - 1]) else -1
  }

  lemma {:induction false} ReachFurther(tree: seq<nat>, tree': seq<nat>, leafBit: nat, limit: nat, limit': nat,
                                        bs: seq<bool>)
    requires limit <= limit' <= |tree'| && limit <= |tree|
    requires forall i | 0 <= i < limit :: tree'[i] == tree[i]
    requires Reach(tree, leafBit, limit, bs) >= 0
    ensures Reach(tree', leafBit, limit', bs) == Reach(tree, leafBit, limit, bs)
  {
    if bs != [] {
      ReachFurther(tree, tree', leafBit, limit, limit', bs[..|bs| - 1]);
    }
  }

  // Reading bits that lead to a cell continues from that cell.
  lemma {:induction false} ReachThenDescend(tree: seq<nat>, leafBit: nat, limit: nat, bs: seq<bool>, rest: seq<bool>)
    requires Safe(tree, leafBit) && limit <= |tree|
    requires 0 <= Reach(tree, leafBit, limit, bs) < |tree|
    ensures Descend(tree, leafBit, 0, bs + rest) == Descend(tree, leafBit, Reach(tree, leafBit, limit, bs), rest)
    decreases |bs|
  {
    if bs == [] {
      assert bs + rest == rest;
    } else {
      var init, last := bs[..|bs| - 1], bs[|bs| - 1];
      ReachThenDescend(tree, leafBit, limit, init, [last] + rest);
      assert bs + rest == init + ([last] + rest);
      assert ([last] + rest)[1..] == rest;
    }
  }

  // ---------------------------------------------------------------------------------------------
  // The tree under construction
  // ---------------------------------------------------------------------------------------------

  // The cells from next to end - 1 wait to be filled: in order, they are where the bits of the
  // next codewords of length d lead.
  ghost predicate Queue(tree: seq<nat>, leafBit: nat, lens: seq<nat>, d: nat, i: nat, next: nat, end: nat)
    requires 1 <= d && i <= |lens| && next <= |tree|
  {
    && Code(lens, d, i) + (end - next) == Pow2(d)
    && forall u {:trigger Reach(tree, leafBit, next, u)} | |u| == d && Value(u) >= Code(lens, d, i) ::
         Reach(tree, leafBit, next, u) == next + (Value(u) - Code(lens, d, i))
  }

  // Each symbol that has been entered is where its codeword leads.
  ghost predicate Placed(tree: seq<nat>, leafBit: nat, lens: seq<nat>, next: nat, s: nat)
    requires s < |lens| && 1 <= lens[s] && next <= |tree|
  {
    var p := Reach(tree, leafBit, next, CodeWord(lens, s));
    0 <= p < next && tree[p] == leafBit + s
  }

  // Which symbols have been entered when the codes of length d are being entered up to symbol i.
  predicate Before(lens: seq<nat>, d: nat, i: nat, s: nat) {
    s < |lens| && (1 <= lens[s] < d || (lens[s] == d && s < i))
  }

  ghost predicate AllPlaced(tree: seq<nat>, leafBit: nat, lens: seq<nat>, d: nat, i: nat, next: nat)
    requires next <= |tree| && 1 <= d
  {
    forall s: nat {:trigger Placed(tree, leafBit, lens, next, s)} | Before(lens, d, i, s) ::
      Placed(tree, leafBit, lens, next, s)
  }

  // The number of symbols among the first n that are at most d bits long.
  function UsedUpTo(lens: seq<nat>, d: nat, n: nat): nat
    requires n <= |lens|
  {
    if n == 0 then 0 else UsedUpTo(lens, d, n - 1) + (if 1 <= lens[n - 1] <= d then 1 else 0)
  }

  function UsedAt(lens: seq<nat>, d: nat, n: nat): nat
    requires n <= |lens|
  {
    if n == 0 then 0 else UsedAt(lens, d, n - 1) + (if lens[n - 1] == d then 1 else 0)
  }

  // One cell for the root and two for each branch; every cell below next is a branch or a symbol.
  ghost predicate Counted(lens: seq<nat>, d: nat, i: nat, next: nat, end: nat)
    requires 1 <= d && i <= |lens|
  {
    end + 1 == 2 * (next + 1 - UsedUpTo(lens, d - 1, |lens|) - UsedAt(lens, d, i))
  }

  ghost predicate Growing(tree: seq<nat>, leafBit: nat, lens: seq<nat>, d: nat, i: nat, next: nat, end: nat)
  {
    && 1 <= d && i <= |lens| && next <= end <= |tree|
    && Queue(tree, leafBit, lens, d, i, next, end)
    && AllPlaced(tree, leafBit, lens, d, i, next)
    && Counted(lens, d, i, next, end)
  }

  lemma EnterKeepsQueue(tree: seq<nat>, leafBit: nat, lens: seq<nat>, d: nat, s: nat, next: nat, end: nat)
    requires s < |lens| && lens[s] == d
    requires 1 <= d && next < end <= |tree| && Queue(tree, leafBit, lens, d, s, next, end)
    ensures Queue(tree[next := leafBit + s], leafBit, lens, d, s + 1, next + 1, end)
  {
    var tree' := tree[next := leafBit + s];
    var k, next' := Code(lens, d, s), next + 1;
    assert Code(lens, d, s + 1) == k + 1;
    forall u | |u| == d && Value(u) >= k + 1
      ensures Reach(tree', leafBit, next', u) == next' + (Value(u) - (k + 1))
    {
      assert Reach(tree, leafBit, next, u) >= 0;
      ReachFurther(tree, tree', leafBit, next, next', u);
    }
  }

  lemma EnterPlaces(tree: seq<nat>, leafBit: nat, lens: seq<nat>, d: nat, s: nat, next: nat, end: nat, t: nat)
    requires Growing(tree, leafBit, lens, d, s, next, end) && s < |lens| && lens[s] == d && next < end
    requires Code(lens, d, s) < Pow2(d) && Before(lens, d, s + 1, t)
    ensures Placed(tree[next := leafBit + s], leafBit, lens, next + 1, t)
  {
    var tree' := tree[next := leafBit + s];
    if t != s {
      assert Placed(tree, leafBit, lens, next, t);
    } else {
      ValueOfToBits(Code(lens, d, s), d);
      assert Reach(tree, leafBit, next, CodeWord(lens, s)) == next;
    }
    ReachFurther(tree, tree', leafBit, next, next + 1, CodeWord(lens, t));
  }

  // Entering the next symbol of length d in the first waiting cell.
  lemma EnterSymbol(tree: seq<nat>, leafBit: nat, lens: seq<nat>, d: nat, s: nat, next: nat, end: nat)
    requires Growing(tree, leafBit, lens, d, s, next, end) && s < |lens| && lens[s] == d
    requires Code(lens, d, s) < Pow2(d)
    ensures next < end
    ensures Growing(tree[next := leafBit + s], leafBit, lens, d, s + 1, next + 1, end)
  {
    var tree', next' := tree[next := leafBit + s], next + 1;
    EnterKeepsQueue(tree, leafBit, lens, d, s, next, end);
    forall t: nat | Before(lens, d, s + 1, t) ensures Placed(tree', leafBit, lens, next', t) {
      EnterPlaces(tree, leafBit, lens, d, s, next, end, t);
    }
  }

  lemma SkipSymbol(tree: seq<nat>, leafBit: nat, lens: seq<nat>, d: nat, s: nat, next: nat, end: nat)
    requires Growing(tree, leafBit, lens, d, s, next, end) && s < |lens| && lens[s] != d
    ensures Growing(tree, leafBit, lens, d, s + 1, next, end)
  {
    forall t: nat | Before(lens, d, s + 1, t) ensures Placed(tree, leafBit, lens, next, t) {
      assert Before(lens, d, s, t);
    }
  }

  // Every waiting cell becomes a branch over two new cells.
  ghost predicate Expanded(tree: seq<nat>, tree': seq<nat>, next: nat, end: nat)
  {
    && |tree'| == |tree| && next <= end <= |tree|
    && (forall i | 0 <= i < next :: tree'[i] == tree[i])
    && (forall i | next <= i < end :: tree'[i] == end + 2 * (i - next))
  }

  lemma ExpandReach(tree: seq<nat>, tree': seq<nat>, leafBit: nat, lens: seq<nat>, d: nat, next: nat, end: nat,
                    u: seq<bool>)
    requires 1 <= d && Expanded(tree, tree', next, end) && Queue(tree, leafBit, lens, d, |lens|, next, end)
    requires end + 2 * (end - next) <= |tree| <= leafBit
    requires |u| == d + 1 && Value(u) >= 2 * Code(lens, d, |lens|)
    ensures Reach(tree', leafBit, end, u) == end + (Value(u) - 2 * Code(lens, d, |lens|))
  {
    var k, init, last := Code(lens, d, |lens|), u[..d], u[d];
    assert u[..|u| - 1] == init;
    assert Value(u) == 2 * Value(init) + BitOf(last);
    ValueBound(init);
    var p := Reach(tree, leafBit, next, init);
    assert p == next + (Value(init) - k);
    ReachFurther(tree, tree', leafBit, next, end, init);
    assert tree'[p] == end + 2 * (Value(init) - k);
  }

  lemma {:induction false} UsedNextLength(lens: seq<nat>, d: nat, n: nat)
    requires n <= |lens| && 1 <= d
    ensures UsedUpTo(lens, d, n) == UsedUpTo(lens, d - 1, n) + UsedAt(lens, d, n)
  {
    if n > 0 {
      UsedNextLength(lens, d, n - 1);
    }
  }

  lemma ExpandQueueGrows(tree: seq<nat>, tree': seq<nat>, leafBit: nat, lens: seq<nat>, d: nat, next: nat, end: nat)
    requires Growing(tree, leafBit, lens, d, |lens|, next, end) && Expanded(tree, tree', next, end)
    requires end + 2 * (end - next) <= |tree| <= leafBit
    ensures Growing(tree', leafBit, lens, d + 1, 0, end, end + 2 * (end - next))
  {
    assert Code(lens, d + 1, 0) == 2 * Code(lens, d, |lens|);
    forall u | |u| == d + 1 && Value(u) >= Code(lens, d + 1, 0)
      ensures Reach(tree', leafBit, end, u) == end + (Value(u) - Code(lens, d + 1, 0))
    {
      ExpandReach(tree, tree', leafBit, lens, d, next, end, u);
    }
    forall t: nat | Before(lens, d + 1, 0, t) ensures Placed(tree', leafBit, lens, end, t) {
      assert Before(lens, d, |lens|, t);
      assert Placed(tree, leafBit, lens, next, t);
      ReachFurther(tree, tree', leafBit, next, end, CodeWord(lens, t));
    }
    UsedNextLength(lens, d, |lens|);
  }

  // The root becomes a branch over the two cells of depth 1.
  lemma RootGrows(tree: seq<nat>, leafBit: nat, lens: seq<nat>)
    requires 3 <= |tree| <= leafBit && tree[0] == 1
    ensures Growing(tree, leafBit, lens, 1, 0, 1, 3)
  {
    assert Pow2(1) == 2;
    forall u: seq<bool> | |u| == 1 ensures Reach(tree, leafBit, 1, u) == 1 + Value(u) {
      assert u[..0] == [];
    }
    UsedNone(lens, |lens|);
  }

  lemma {:induction false} UsedNone(lens: seq<nat>, n: nat)
    requires n <= |lens|
    ensures UsedUpTo(lens, 0, n) == 0
  {
    if n > 0 {
      UsedNone(lens, n - 1);
    }
  }

  // ---------------------------------------------------------------------------------------------
  // A complete code fits
  // ---------------------------------------------------------------------------------------------

  predicate CompleteCode(lens: seq<nat>, m: nat) {
    1 <= m && Kraft(lens, m, m, |lens|) == Pow2(m)
  }

  // The symbols with longer codewords weigh at most half a cell of depth d each.
  lemma {:induction false} LongerWeight(lens: seq<nat>, m: nat, d: nat, n: nat)
    requires d < m && n <= |lens|
    ensures UsedUpTo(lens, d, n) <= UsedUpTo(lens, m, n)
    ensures Kraft(lens, m, m, n) <= Kraft(lens, m, d, n) + Shl(UsedUpTo(lens, m, n) - UsedUpTo(lens, d, n), m - d - 1)
  {
    if n == 0 {
    } else {
      LongerWeight(lens, m, d, n - 1);
      var l := lens[n - 1];
      if d < l <= m {
        Pow2Monotone(m - l, m - d - 1);
        ShlAdd(UsedUpTo(lens, m, n - 1) - UsedUpTo(lens, d, n - 1), 1, m - d - 1);
        ShlPow2(0, m - d - 1);
      }
    }
  }

  // The waiting cells weigh exactly as much as the codewords that are still to come, and there are at
  // least two of those for each cell.
  lemma QueueIsWanted(lens: seq<nat>, m: nat, d: nat, waiting: nat)
    requires CompleteCode(lens, m) && 1 <= d < m && Code(lens, d, |lens|) + waiting == Pow2(d)
    ensures Shl(waiting, m - d) == Kraft(lens, m, m, |lens|) - Kraft(lens, m, d, |lens|)
    ensures 2 * waiting <= UsedUpTo(lens, m, |lens|) - UsedUpTo(lens, d, |lens|)
  {
    var rest := UsedUpTo(lens, m, |lens|) - UsedUpTo(lens, d, |lens|);
    LongerWeight(lens, m, d, |lens|);
    PlaceIsKraft(lens, m, d);
    ShlAdd(Code(lens, d, |lens|), waiting, m - d);
    ShlPow2(d, m - d);
    assert Shl(waiting, m - d) == Shl(2 * waiting, m - d - 1);
    if rest < 2 * waiting {
      ShlStrict(rest, 2 * waiting, m - d - 1);
    }
  }

  // When no symbol has a longer codeword, no cell is waiting.
  lemma QueueIsUsedUp(lens: seq<nat>, m: nat, d: nat, waiting: nat)
    requires CompleteCode(lens, m) && 1 <= d <= m && Code(lens, d, |lens|) + waiting == Pow2(d)
    requires forall s | 0 <= s < |lens| :: lens[s] <= d
    ensures waiting == 0
  {
    if d < m {
      SameUsed(lens, d, m, |lens|);
      QueueIsWanted(lens, m, d, waiting);
    } else {
      PlaceIsKraft(lens, m, d);
    }
  }

  lemma {:induction false} SameUsed(lens: seq<nat>, d: nat, m: nat, n: nat)
    requires d <= m && n <= |lens| && (forall s | 0 <= s < |lens| :: lens[s] <= d)
    ensures UsedUpTo(lens, m, n) == UsedUpTo(lens, d, n)
  {
    if n > 0 {
      SameUsed(lens, d, m, n - 1);
    }
  }

  // ---------------------------------------------------------------------------------------------
  // The builder
  // ---------------------------------------------------------------------------------------------

  const MAX_LENGTH: nat := 255

  // The tree is big enough for one leaf per used symbol and the branches above them.
  predicate Roomy(lens: seq<nat>, treeLen: nat) {
    treeLen + 1 >= 2 * UsedUpTo(lens, MAX_LENGTH, |lens|)
  }

  // Any tree a decoder starts from: init_tree, or a tree set to decode to a single code.
  method InitTree(tree: array<nat>, leafBit: nat)
    requires 0 < tree.Length <= leafBit
    modifies tree
    ensures Safe(tree[..], leafBit)
    ensures forall j | 0 <= j < tree.Length :: tree[j] == leafBit
  {
    for i := 0 to tree.Length
      invariant forall j | 0 <= j < i :: tree[j] == leafBit
    {
      tree[i] := leafBit;
    }
  }

  // Every input, even an empty one, is read as the single code.
  method SetTreeSingle(tree: array<nat>, leafBit: nat, code: nat)
    requires Safe(tree[..], leafBit) && code < leafBit
    modifies tree
    ensures Safe(tree[..], leafBit)
    ensures forall bits :: Descend(tree[..], leafBit, 0, bits) == Complete(code, bits)
  {
    tree[0] := leafBit + code;
  }

  // The symbols below n whose codes have d bits.
  function CodesOf(lens: seq<nat>, d: nat, n: nat): seq<nat>
    requires n <= |lens|
  {
    if n == 0 then [] else CodesOf(lens, d, n - 1) + if lens[n - 1] == d then [n - 1] else []
  }

  // The codes have taken the entries from next on, in order; what did not fit below end went to the root.
  predicate Entered(before: seq<nat>, after: seq<nat>, leafBit: nat, codes: seq<nat>, next: nat, end: nat)
    requires next <= end <= |before|
  {
    && |after| == |before|
    && forall j | 0 <= j < |after| :: after[j] ==
         if j == 0 && |codes| > end - next then leafBit + codes[|codes| - 1]
         else if next <= j < Min(next + |codes|, end) then leafBit + codes[j - next]
         else before[j]
  }

  lemma EnterMore(before: seq<nat>, after: seq<nat>, leafBit: nat, codes: seq<nat>, next: nat, end: nat, code: nat)
    requires next <= end <= |before| && 0 < |before| && Entered(before, after, leafBit, codes, next, end)
    ensures var node := if next + |codes| < end then next + |codes| else 0;
      Entered(before, after[node := leafBit + code], leafBit, codes + [code], next, end)
  {
  }

  class TreeBuildData {
    const tree: array<nat>
    const leafBit: nat
    var treeAllocated: nat
    var nextEntry: nat

    ghost predicate Valid()
      reads this, tree
    {
      Safe(tree[..], leafBit) && nextEntry <= treeAllocated <= tree.Length
    }

    constructor (tree: array<nat>, leafBit: nat)
      requires Safe(tree[..], leafBit)
      ensures Valid() && this.tree == tree && this.leafBit == leafBit
      ensures nextEntry == 0 && treeAllocated == 1
    {
      this.tree := tree;
      this.leafBit := leafBit;
      nextEntry := 0;
      treeAllocated := 1;
    }

    // Give every waiting entry two children, if there is room for all of them.
    method ExpandQueue()
      requires Valid()
      modifies this`treeAllocated, this`nextEntry, tree
      ensures Valid()
      ensures var next, end := old(nextEntry), old(treeAllocated);
              if end + 2 * (end - next) > tree.Length then
                nextEntry == next && treeAllocated == end && tree[..] == old(tree[..])
              else
                nextEntry == end && treeAllocated == end + 2 * (end - next)
                && Expanded(old(tree[..]), tree[..], next, end)
    {
      var newNodes := (treeAllocated - nextEntry) * 2;
      if treeAllocated + newNodes > tree.Length {
        return;
      }
      ghost var next, end := nextEntry, treeAllocated;
      var endOffset := treeAllocated;
      while nextEntry < endOffset
        invariant next <= nextEntry <= end == endOffset && treeAllocated == end + 2 * (nextEntry - next)
        invariant Safe(tree[..], leafBit)
        invariant forall i | 0 <= i < next :: tree[i] == old(tree[i])
        invariant forall i | next <= i < nextEntry :: tree[i] == end + 2 * (i - next)
      {
        tree[nextEntry] := treeAllocated;
        treeAllocated := treeAllocated + 2;
        nextEntry := nextEntry + 1;
      }
    }

    // The next waiting entry, or the root when there is none.
    method ReadNextEntry() returns (result: nat)
      requires Valid()
      modifies this`nextEntry
      ensures Valid()
      ensures if old(nextEntry) < treeAllocated then result == old(nextEntry) && nextEntry == result + 1
              else result == 0 && nextEntry == old(nextEntry)
    {
      if nextEntry >= treeAllocated {
        return 0;
      }
      result := nextEntry;
      nextEntry := nextEntry + 1;
    }

    ghost predicate Grows(lens: seq<nat>, d: nat, i: nat)
      reads this, tree
    {
      Growing(tree[..], leafBit, lens, d, i, nextEntry, treeAllocated)
    }

    // The codes of the length below i have been entered.
    ghost predicate Added(before: seq<nat>, next: nat, lens: seq<nat>, codeLen: nat, i: nat)
      requires i <= |lens|
      reads this, tree
    {
      var codes := CodesOf(lens, codeLen, i);
      && next <= treeAllocated <= |before| == tree.Length && nextEntry == Min(next + |codes|, treeAllocated)
      && Entered(before, tree[..], leafBit, codes, next, treeAllocated)
    }

    // The next waiting entry becomes the leaf of symbol i.
    method AddCode(lens: seq<nat>, codeLen: nat, i: nat, ghost before: seq<nat>, ghost next: nat, ghost sound: bool)
      requires Valid() && i < |lens| <= leafBit && codeLen >= 1 && lens[i] == codeLen
      requires Added(before, next, lens, codeLen, i)
      requires sound ==> CompleteCode(lens, MAX_LENGTH) && codeLen <= MAX_LENGTH && Grows(lens, codeLen, i)
      modifies this`nextEntry, tree
      ensures Valid() && treeAllocated == old(treeAllocated)
      ensures Added(before, next, lens, codeLen, i + 1)
      ensures sound ==> Grows(lens, codeLen, i + 1)
    {
      hide Growing, Entered;
      EnterMore(before, tree[..], leafBit, CodesOf(lens, codeLen, i), next, treeAllocated, i);
      if sound {
        CompleteHasCode(lens, MAX_LENGTH, i);
        CodeInRange(lens, MAX_LENGTH, i);
        EnterSymbol(tree[..], leafBit, lens, codeLen, i, nextEntry, treeAllocated);
      }
      var node := ReadNextEntry();
      tree[node] := leafBit + i;
    }

    lemma AddNoCode(lens: seq<nat>, codeLen: nat, i: nat, before: seq<nat>, next: nat)
      requires i < |lens| && lens[i] != codeLen && Added(before, next, lens, codeLen, i)
      ensures Added(before, next, lens, codeLen, i + 1)
    {
    }

    // The codes of the length take the waiting entries in order, and the root when none is left; says
    // whether longer ones remain.
    method AddCodesWithLength(lens: seq<nat>, codeLen: nat) returns (codesRemaining: bool)
      requires Valid() && |lens| <= leafBit && codeLen >= 1
      modifies this`nextEntry, tree
      ensures Valid() && treeAllocated == old(treeAllocated)
      ensures codesRemaining <==> exists s :: 0 <= s < |lens| && lens[s] > codeLen
      ensures Added(old(tree[..]), old(nextEntry), lens, codeLen, |lens|)
      ensures CompleteCode(lens, MAX_LENGTH) && codeLen <= MAX_LENGTH && old(Grows(lens, codeLen, 0)) ==>
                Grows(lens, codeLen, |lens|)
    {
      codesRemaining := false;
      ghost var sound := CompleteCode(lens, MAX_LENGTH) && codeLen <= MAX_LENGTH && Grows(lens, codeLen, 0);
      ghost var before, next := tree[..], nextEntry;
      assert Added(before, next, lens, codeLen, 0);
      hide Growing, Safe, CompleteCode, Added, CodesOf;
      for i := 0 to |lens|
        invariant Valid() && treeAllocated == old(treeAllocated)
        invariant codesRemaining <==> exists s :: 0 <= s < i && lens[s] > codeLen
        invariant Added(before, next, lens, codeLen, i)
        invariant sound ==> Grows(lens, codeLen, i)
      {
        if lens[i] == codeLen {
          AddCode(lens, codeLen, i, before, next, sound);
        } else {
          AddNoCode(lens, codeLen, i, before, next);
          if sound {
            SkipSymbol(tree[..], leafBit, lens, codeLen, i, nextEntry, treeAllocated);
          }
          if lens[i] > codeLen {
            codesRemaining := true;
          }
        }
      }
    }
  }

  // Every used symbol is read back from its codeword, and nothing after the codeword is consumed.
  ghost predicate Decodes(tree: seq<nat>, leafBit: nat, lens: seq<nat>)
    requires Safe(tree, leafBit)
  {
    forall s: nat, rest: seq<bool> {:trigger Descend(tree, leafBit, 0, CodeWord(lens, s) + rest)} |
      s < |lens| && 1 <= lens[s] :: Descend(tree, leafBit, 0, CodeWord(lens, s) + rest) == Complete(s, rest)
  }

  lemma GrownDecodes(tree: seq<nat>, leafBit: nat, lens: seq<nat>, d: nat, next: nat, end: nat)
    requires Safe(tree, leafBit) && Growing(tree, leafBit, lens, d, |lens|, next, end)
    requires forall s | 0 <= s < |lens| :: lens[s] <= d
    ensures Decodes(tree, leafBit, lens)
  {
    forall s: nat, rest: seq<bool> | s < |lens| && 1 <= lens[s]
      ensures Descend(tree, leafBit, 0, CodeWord(lens, s) + rest) == Complete(s, rest)
    {
      assert Before(lens, d, |lens|, s);
      assert Placed(tree, leafBit, lens, next, s);
      ReachThenDescend(tree, leafBit, next, CodeWord(lens, s), rest);
    }
  }

  lemma RoomToExpand(tree: seq<nat>, leafBit: nat, lens: seq<nat>, d: nat, next: nat, end: nat)
    requires Growing(tree, leafBit, lens, d, |lens|, next, end) && d < MAX_LENGTH
    requires CompleteCode(lens, MAX_LENGTH) && Roomy(lens, |tree|)
    ensures end + 2 * (end - next) <= |tree|
  {
    QueueIsWanted(lens, MAX_LENGTH, d, end - next);
    UsedNextLength(lens, d, |lens|);
  }

  // Rebuild the tree for new code lengths.  Whatever they are, reading from the tree stays safe; if the
  // code is complete and the tree is big enough, every used symbol is read back and no entry is left.
  method BuildTree(tree: array<nat>, leafBit: nat, lens: seq<nat>)
    returns (ghost nextEntry: nat, ghost treeAllocated: nat)
    requires Safe(tree[..], leafBit) && |lens| <= leafBit && (forall s | 0 <= s < |lens| :: lens[s] <= MAX_LENGTH)
    modifies tree
    ensures Safe(tree[..], leafBit)
    ensures CompleteCode(lens, MAX_LENGTH) && Roomy(lens, tree.Length) ==>
      Decodes(tree[..], leafBit, lens) && nextEntry == treeAllocated
  {
    hide TreeBuildData.Added, Decodes, CompleteCode;
    var build := new TreeBuildData(tree, leafBit);
    ghost var sound := CompleteCode(lens, MAX_LENGTH) && Roomy(lens, tree.Length);
    var codeLen := 0;
    var more := true;
    while more
      invariant build.Valid() && build.tree == tree && build.leafBit == leafBit && fresh(build)
      invariant 0 <= codeLen <= MAX_LENGTH
      invariant more ==> codeLen < MAX_LENGTH
      invariant codeLen == 0 ==> more && build.nextEntry == 0 && build.treeAllocated == 1
      invariant sound && codeLen > 0 ==> build.Grows(lens, codeLen, |lens|)
      invariant !more ==> forall s | 0 <= s < |lens| :: lens[s] <= codeLen
      decreases MAX_LENGTH - codeLen, more
    {
      ghost var t, next, end := tree[..], build.nextEntry, build.treeAllocated;
      if sound {
        if codeLen == 0 {
          AtLeastTwo(lens, MAX_LENGTH);
        } else {
          RoomToExpand(t, leafBit, lens, codeLen, next, end);
        }
      }
      build.ExpandQueue();
      if sound {
        if codeLen == 0 {
          RootGrows(tree[..], leafBit, lens);
        } else {
          ExpandQueueGrows(t, tree[..], leafBit, lens, codeLen, next, end);
        }
      }
      codeLen := codeLen + 1;
      more := build.AddCodesWithLength(lens, codeLen);
    }
    if sound {
      QueueIsUsedUp(lens, MAX_LENGTH, codeLen, build.treeAllocated - build.nextEntry);
      GrownDecodes(tree[..], leafBit, lens, codeLen, build.nextEntry, build.treeAllocated);
    }
    nextEntry, treeAllocated := build.nextEntry, build.treeAllocated;
  }

  // A complete code has at least two symbols.
  lemma AtLeastTwo(lens: seq<nat>, m: nat)
    requires m > 0 && CompleteCode(lens, m)
    ensures UsedUpTo(lens, m, |lens|) >= 2
  {
    var used := UsedUpTo(lens, m, |lens|);
    LongerWeight(lens, m, 0, |lens|);
    KraftZero(lens, m, |lens|);
    UsedNone(lens, |lens|);
    ShlPow2(1, m - 1);
    if used < 2 {
      ShlStrict(used, 2, m - 1);
    }
  }

  lemma {:induction false} DescendMore(tree: seq<nat>, leafBit: nat, i: nat, bits: seq<bool>, more: seq<bool>)
    requires Safe(tree, leafBit) && i < |tree| && Descend(tree, leafBit, i, bits).Complete?
    ensures var r := Descend(tree, leafBit, i, bits);
            Descend(tree, leafBit, i, bits + more) == Complete(r.code, r.rest + more)
    decreases |tree| - i
  {
    if tree[i] < leafBit {
      assert (bits + more)[1..] == bits[1..] + more;
      DescendMore(tree, leafBit, tree[i] + BitOf(bits[0]), bits[1..], more);
    }
  }

  // Conversely, whatever is read from such a tree was the codeword of a used symbol.
  lemma ReadingIsCodeWord(tree: seq<nat>, leafBit: nat, lens: seq<nat>, bits: seq<bool>)
    requires Safe(tree, leafBit) && CompleteCode(lens, MAX_LENGTH) && Decodes(tree, leafBit, lens)
    requires Descend(tree, leafBit, 0, bits).Complete?
    ensures var r := Descend(tree, leafBit, 0, bits);
            r.code < |lens| && 1 <= lens[r.code] && CodeWord(lens, r.code) + r.rest == bits
  {
    var r := Descend(tree, leafBit, 0, bits);
    var more := Zeros(MAX_LENGTH);
    var w := bits + more;
    DescendMore(tree, leafBit, 0, bits, more);
    var s := SomeCodeWordStarts(lens, MAX_LENGTH, w[..MAX_LENGTH]);
    var rest := w[lens[s]..];
    assert w == CodeWord(lens, s) + rest;
    assert Descend(tree, leafBit, 0, CodeWord(lens, s) + rest) == Complete(s, rest);
    CutSameTail(bits, CodeWord(lens, s), r.rest, more);
  }

  lemma CutSameTail(bits: seq<bool>, c: seq<bool>, rest: seq<bool>, more: seq<bool>)
    requires bits + more == c + (rest + more)
    ensures bits == c + rest
  {
    var w := (c + rest) + more;
    assert w == bits + more;
    assert |c + rest| == |bits|;
    assert bits == w[..|bits|] == c + rest;
  }
}
