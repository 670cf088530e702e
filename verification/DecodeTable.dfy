// The two-level Huffman decode table of unlzx (external/unlzx/unlzx.c, make_decode_table and the walk
// in decrunch).
//
// The first 2^tableSize entries are indexed by the next tableSize bits of the input, first bit lowest.
// An entry below 2^(tableSize-1) is a symbol; a larger entry n is a node whose two children are the
// entries 2n and 2n+1.  The builder works with positions in the canonical order of codewords, most
// significant bit first, and reverses their bits to find the entries.

module DecodeTable {
  import opened Bits
  import opened Canonical

  const MAX_LENGTH: nat := 16

  // ---------------------------------------------------------------------------------------------
  // Bits as indices, first bit lowest
  // ---------------------------------------------------------------------------------------------

  function Index(bs: seq<bool>): nat {
    if bs == [] then 0 else BitOf(bs[0]) + 2 * Index(bs[1..])
  }

  function IndexBits(v: nat, n: nat): (bs: seq<bool>)
    ensures |bs| == n
  {
    if n == 0 then [] else [v % 2 == 1] + IndexBits(v / 2, n - 1)
  }

  lemma {:induction false} IndexBound(bs: seq<bool>)
    ensures Index(bs) < Pow2(|bs|)
  {
    if bs != [] {
      IndexBound(bs[1..]);
    }
  }

  lemma {:induction false} IndexOfIndexBits(v: nat, n: nat)
    requires v < Pow2(n)
    ensures Index(IndexBits(v, n)) == v
  {
    if n > 0 {
      IndexOfIndexBits(v / 2, n - 1);
      assert IndexBits(v, n)[1..] == IndexBits(v / 2, n - 1);
    }
  }

  lemma {:induction false} IndexBitsOfIndex(bs: seq<bool>)
    ensures IndexBits(Index(bs), |bs|) == bs
  {
    if bs != [] {
      IndexBitsOfIndex(bs[1..]);
      assert Index(bs) / 2 == Index(bs[1..]);
      assert bs == [bs[0]] + bs[1..];
    }
  }

  lemma IndexInjective(a: seq<bool>, b: seq<bool>)
    requires |a| == |b| && Index(a) == Index(b)
    ensures a == b
  {
    IndexBitsOfIndex(a);
    IndexBitsOfIndex(b);
  }

  lemma {:induction false} IndexConcat(a: seq<bool>, b: seq<bool>)
    ensures Index(a + b) == Index(a) + Shl(Index(b), |a|)
  {
    if a == [] {
      assert a + b == b;
    } else {
      assert (a + b)[1..] == a[1..] + b;
      IndexConcat(a[1..], b);
      var v, k := Index(b), |a| - 1;
      ShlTwice(v, k);
    }
  }

  lemma {:induction false} ShlTwice(v: nat, k: nat)
    ensures Shl(v, k + 1) == 2 * Shl(v, k)
    decreases k
  {
    if k > 0 {
      ShlTwice(2 * v, k - 1);
    }
  }

  // The loop that reverses the low n bits of a number.
  method Reverse(v: nat, n: nat) returns (leaf: nat)
    requires 1 <= n
    ensures leaf == Index(ToBits(v, n))
  {
    var reverse := v;
    leaf := 0;
    var fill := n;
    ghost var done: seq<bool> := [];
    while fill > 0
      invariant 0 <= fill <= n && leaf == Index(done)
      invariant ToBits(v, n) == ToBits(reverse, fill) + done
    {
      assert ToBits(reverse, fill) == ToBits(reverse / 2, fill - 1) + [reverse % 2 == 1];
      done := [reverse % 2 == 1] + done;
      assert done[1..] == done[1..];
      leaf := 2 * leaf + reverse % 2;
      reverse := reverse / 2;
      fill := fill - 1;
    }
    assert ToBits(reverse, 0) + done == done;
  }

  // ---------------------------------------------------------------------------------------------
  // Looking up a symbol
  // ---------------------------------------------------------------------------------------------

  function FirstNode(tableSize: nat): nat
    requires 1 <= tableSize
  {
    Pow2(tableSize - 1)
  }

  datatype Found = Symbol(symbol: nat, used: nat) | Lost

  // The decoder's walk over a window of bits, given that `used` of them led to the entry at slot.
  function Walk(table: seq<nat>, firstNode: nat, window: seq<bool>, used: nat, slot: nat): Found
    requires used <= |window|
    decreases |window| - used
  {
    if slot >= |table| then Lost
    else if table[slot] < firstNode then Symbol(table[slot], used)
    else if used == |window| then Lost
    else Walk(table, firstNode, window, used + 1, 2 * table[slot] + BitOf(window[used]))
  }

  function Lookup(table: seq<nat>, tableSize: nat, window: seq<bool>): Found
    requires 1 <= tableSize <= |window|
  {
    Walk(table, FirstNode(tableSize), window, tableSize, Index(window[..tableSize]))
  }

  // ---------------------------------------------------------------------------------------------
  // What the builder has established
  // ---------------------------------------------------------------------------------------------

  // The lowest 16-bit number that starts with u.
  function Low(u: seq<bool>): nat
    requires |u| <= MAX_LENGTH
  {
    Value(u + Zeros(MAX_LENGTH - |u|))
  }

  // All symbols whose codewords lie below place have been entered.
  ghost predicate Entered(lens: seq<nat>, place: nat, s: nat) {
    HasCode(lens, MAX_LENGTH, s) && Place(lens, MAX_LENGTH, lens[s], s) + Pow2(MAX_LENGTH - lens[s]) <= place
  }

  // The parts of the tree on or before the path to `place`, down to depth `depth`, exist.
  predicate Touched(u: seq<bool>, place: nat, depth: nat)
    requires |u| <= MAX_LENGTH
  {
    Low(u) < place || (Low(u) == place && |u| < depth)
  }

  // The bits that lead to a slot, where labels[j] are those that lead to the slot holding node number
  // first + j.
  function Label(tableSize: nat, labels: seq<seq<bool>>, slot: nat): seq<bool>
    requires 1 <= tableSize && slot < 2 * (FirstNode(tableSize) + |labels|)
  {
    if slot < Pow2(tableSize) then IndexBits(slot, tableSize)
    else labels[slot / 2 - FirstNode(tableSize)] + [slot % 2 == 1]
  }

  ghost predicate CellOk(lens: seq<nat>, tableSize: nat, table: seq<nat>, labels: seq<seq<bool>>, place: nat,
                         depth: nat, slot: nat)
    requires 1 <= tableSize <= MAX_LENGTH && slot < 2 * (FirstNode(tableSize) + |labels|) <= |table|
    requires |Label(tableSize, labels, slot)| <= MAX_LENGTH
  {
    var u, v, first := Label(tableSize, labels, slot), table[slot], FirstNode(tableSize);
    if Touched(u, place, depth) then
      if v < first then
        Entered(lens, place, v) && CodeWord(lens, v) <= u && (|u| == tableSize || |u| == lens[v])
      else v - first < |labels| && labels[v - first] == u
    else v == 0
  }

  // The node labels: distinct, no shorter than the first level, shorter than the codewords that are
  // being entered, and touched.
  ghost predicate LabelsOk(tableSize: nat, labels: seq<seq<bool>>, place: nat, depth: nat, length: nat)
  {
    && (forall j | 0 <= j < |labels| :: tableSize <= |labels[j]| < length <= MAX_LENGTH)
    && (forall j | 0 <= j < |labels| :: Touched(labels[j], place, depth))
    && (forall j, k | 0 <= j < k < |labels| :: labels[j] != labels[k])
  }

  ghost predicate Built(lens: seq<nat>, tableSize: nat, table: seq<nat>, labels: seq<seq<bool>>, place: nat,
                        depth: nat, length: nat)
  {
    && 1 <= tableSize < length <= MAX_LENGTH
    && LabelsOk(tableSize, labels, place, depth, length)
    && 2 * (FirstNode(tableSize) + |labels|) <= |table|
    && (forall slot: nat {:trigger CellOk(lens, tableSize, table, labels, place, depth, slot)} |
          slot < 2 * (FirstNode(tableSize) + |labels|) ::
          CellOk(lens, tableSize, table, labels, place, depth, slot))
  }

  lemma LabelLength(tableSize: nat, labels: seq<seq<bool>>, place: nat, depth: nat, length: nat, slot: nat)
    requires 1 <= tableSize < length <= MAX_LENGTH && LabelsOk(tableSize, labels, place, depth, length)
    requires slot < 2 * (FirstNode(tableSize) + |labels|)
    ensures tableSize <= |Label(tableSize, labels, slot)| <= length
    ensures slot < Pow2(tableSize) <==> |Label(tableSize, labels, slot)| == tableSize
  {
  }

  // ---------------------------------------------------------------------------------------------
  // A finished table decodes
  // ---------------------------------------------------------------------------------------------

  lemma LowBound(u: seq<bool>)
    requires |u| <= MAX_LENGTH
    ensures Low(u) < Pow2(MAX_LENGTH)
  {
    ValueBound(u + Zeros(MAX_LENGTH - |u|));
  }

  lemma ChildLabel(tableSize: nat, labels: seq<seq<bool>>, node: nat, bit: bool)
    requires 1 <= tableSize && FirstNode(tableSize) <= node < FirstNode(tableSize) + |labels|
    ensures var child := 2 * node + BitOf(bit);
            && Pow2(tableSize) <= child < 2 * (FirstNode(tableSize) + |labels|)
            && Label(tableSize, labels, child) == labels[node - FirstNode(tableSize)] + [bit]
  {
  }

  // What a lookup that starts in the middle of the tree has to return.
  ghost predicate Decodes(lens: seq<nat>, tableSize: nat, window: seq<bool>, r: Found) {
    && r.Symbol? && HasCode(lens, MAX_LENGTH, r.symbol)
    && CodeWord(lens, r.symbol) <= window
    && r.used == (if lens[r.symbol] <= tableSize then tableSize else lens[r.symbol])
  }

  // A cell of a finished table: a symbol whose codeword starts the label, or the node for the label.
  ghost predicate FullCell(lens: seq<nat>, tableSize: nat, table: seq<nat>, labels: seq<seq<bool>>, slot: nat)
    requires 1 <= tableSize && slot < 2 * (FirstNode(tableSize) + |labels|) <= |table|
  {
    var u, v, first := Label(tableSize, labels, slot), table[slot], FirstNode(tableSize);
    && tableSize <= |u|
    && if v < first then
         && HasCode(lens, MAX_LENGTH, v) && CodeWord(lens, v) <= u
         && |u| == (if lens[v] <= tableSize then tableSize else lens[v])
       else v - first < |labels| && labels[v - first] == u && |u| < MAX_LENGTH
  }

  ghost predicate Full(lens: seq<nat>, tableSize: nat, table: seq<nat>, labels: seq<seq<bool>>) {
    && 1 <= tableSize < MAX_LENGTH
    && 2 * (FirstNode(tableSize) + |labels|) <= |table|
    && (forall slot: nat {:trigger FullCell(lens, tableSize, table, labels, slot)} |
          slot < 2 * (FirstNode(tableSize) + |labels|) :: FullCell(lens, tableSize, table, labels, slot))
  }

  lemma BuiltIsFull(lens: seq<nat>, tableSize: nat, table: seq<nat>, labels: seq<seq<bool>>)
    requires Built(lens, tableSize, table, labels, Pow2(MAX_LENGTH), 0, MAX_LENGTH)
    ensures Full(lens, tableSize, table, labels)
  {
    forall slot: nat | slot < 2 * (FirstNode(tableSize) + |labels|)
      ensures FullCell(lens, tableSize, table, labels, slot)
    {
      LabelLength(tableSize, labels, Pow2(MAX_LENGTH), 0, MAX_LENGTH, slot);
      LowBound(Label(tableSize, labels, slot));
      assert CellOk(lens, tableSize, table, labels, Pow2(MAX_LENGTH), 0, slot);
    }
  }

  // From any slot whose label starts the window, the walk ends at a symbol whose codeword does.
  lemma {:induction false} WalkFinds(lens: seq<nat>, tableSize: nat, table: seq<nat>, labels: seq<seq<bool>>,
                                     window: seq<bool>, used: nat, slot: nat)
    requires Full(lens, tableSize, table, labels) && |window| >= MAX_LENGTH
    requires slot < 2 * (FirstNode(tableSize) + |labels|) && used <= |window|
    requires Label(tableSize, labels, slot) == window[..used]
    ensures Decodes(lens, tableSize, window, Walk(table, FirstNode(tableSize), window, used, slot))
    decreases |window| - used
  {
    hide HasCode, CodeWord, Pow2, Value, Index, IndexBits, Label, FirstNode;
    var v := table[slot];
    assert FullCell(lens, tableSize, table, labels, slot);
    if v >= FirstNode(tableSize) {
      ChildLabel(tableSize, labels, v, window[used]);
      WalkFinds(lens, tableSize, table, labels, window, used + 1, 2 * v + BitOf(window[used]));
    }
  }

  // On every window of bits the finished table finds a symbol whose codeword starts the window.
  lemma LookupFinds(lens: seq<nat>, tableSize: nat, table: seq<nat>, labels: seq<seq<bool>>, window: seq<bool>)
    requires Full(lens, tableSize, table, labels) && |window| >= MAX_LENGTH
    ensures Decodes(lens, tableSize, window, Lookup(table, tableSize, window))
  {
    var u := window[..tableSize];
    IndexBound(u);
    IndexBitsOfIndex(u);
    WalkFinds(lens, tableSize, table, labels, window, tableSize, Index(u));
  }

  // ---------------------------------------------------------------------------------------------
  // First level: the codewords that fit in the index
  // ---------------------------------------------------------------------------------------------

  // The entry for the index bits u is right, if a codeword below place starts u.
  ghost predicate FirstCell(lens: seq<nat>, tableSize: nat, table: seq<nat>, place: nat, u: seq<bool>)
    requires |u| == tableSize <= MAX_LENGTH && Pow2(tableSize) <= |table|
  {
    Low(u) < place ==>
      && Index(u) < |table|
      && Entered(lens, place, table[Index(u)])
      && CodeWord(lens, table[Index(u)]) <= u
  }

  ghost predicate FirstLevel(lens: seq<nat>, tableSize: nat, table: seq<nat>, place: nat)
    requires tableSize <= MAX_LENGTH && Pow2(tableSize) <= |table|
  {
    forall u {:trigger FirstCell(lens, tableSize, table, place, u)} | |u| == tableSize ::
      FirstCell(lens, tableSize, table, place, u)
  }

  lemma StepIndex(c: seq<bool>, k: nat, rest: nat)
    requires k < Pow2(rest)
    ensures Index(c + IndexBits(k, rest)) == Index(c) + Shl(k, |c|)
  {
    IndexConcat(c, IndexBits(k, rest));
    IndexOfIndexBits(k, rest);
  }

  // The k-th entry whose index starts with c, in the order of the bits after c.
  lemma EntryIndex(c: seq<bool>, k: nat, n: nat)
    requires |c| <= n && k < Pow2(n - |c|)
    ensures Index(c + IndexBits(k, n - |c|)) == Index(c) + Shl(k, |c|) < Pow2(n)
  {
    StepIndex(c, k, n - |c|);
    IndexBound(c + IndexBits(k, n - |c|));
  }

  lemma EntryIs(c: seq<bool>, k: nat, n: nat, u: seq<bool>)
    requires |c| <= n == |u| && k < Pow2(n - |c|)
    ensures Index(u) == Index(c) + Shl(k, |c|) <==> c <= u && Index(u[|c|..]) == k
  {
    var l := |c|;
    EntryIndex(c, k, n);
    var here := c + IndexBits(k, n - l);
    assert here[l..] == IndexBits(k, n - l) && here[..l] == c;
    IndexOfIndexBits(k, n - l);
    hide Index, Shl, Pow2, IndexBits;
    if Index(u) == Index(here) {
      IndexInjective(u, here);
      assert u == here;
    }
    if c <= u && Index(u[l..]) == k {
      IndexInjective(u[l..], here[l..]);
      assert u == u[..l] + u[l..] == here;
    }
  }

  lemma IndicesBound(n: nat)
    ensures forall u {:trigger Index(u)} | |u| == n :: Index(u) < Pow2(n)
  {
    forall u | |u| == n ensures Index(u) < Pow2(n) {
      IndexBound(u);
    }
  }

  // Store the symbol in every entry whose index starts with the codeword c.
  method FillEntries(table: array<nat>, tableSize: nat, length: nat, start: nat, symbol: nat, ghost c: seq<bool>)
    requires length == |c| <= tableSize && Pow2(tableSize) <= table.Length && start == Index(c)
    modifies table
    ensures forall u {:trigger Index(u)} | |u| == tableSize :: Index(u) < table.Length
    ensures forall u {:trigger Index(u)} | |u| == tableSize ::
              table[Index(u)] == if c <= u then symbol else old(table[..])[Index(u)]
  {
    hide Index, IndexBits, Shl, Pow2;
    ghost var l, t := |c|, table[..];
    IndicesBound(tableSize);
    var leaf := start;
    var nextSymbol := Pow2(length);
    var fill := Pow2(tableSize - length);
    ghost var k := 0;
    ShlZero(l);
    ShlOne(l);
    while fill > 0
      invariant k + fill == Pow2(tableSize - l) && leaf == Index(c) + Shl(k, l)
      invariant forall u {:trigger Index(u)} | |u| == tableSize ::
                  table[Index(u)] == if c <= u && Index(u[l..]) < k then symbol else t[Index(u)]
    {
      EntryIndex(c, k, tableSize);
      forall u | |u| == tableSize ensures Index(u) == leaf <==> c <= u && Index(u[l..]) == k {
        EntryIs(c, k, tableSize, u);
      }
      table[leaf] := symbol;
      leaf := leaf + nextSymbol;
      fill := fill - 1;
      ShlAdd(k, 1, l);
      k := k + 1;
    }
    forall u | |u| == tableSize && c <= u ensures Index(u[l..]) < k {
      IndexBound(u[l..]);
    }
  }

  lemma LowOfCodeWord(lens: seq<nat>, s: nat)
    requires HasCode(lens, MAX_LENGTH, s)
    ensures Low(CodeWord(lens, s)) == Place(lens, MAX_LENGTH, lens[s], s)
  {
    CodeInRange(lens, MAX_LENGTH, s);
    ShlBits(CodeWord(lens, s), MAX_LENGTH - lens[s]);
  }

  lemma {:induction false} IndexZeros(n: nat)
    ensures Index(Zeros(n)) == 0
  {
    if n > 0 {
      IndexZeros(n - 1);
      assert Zeros(n)[1..] == Zeros(n - 1);
    }
  }

  // Reversing the position of a codeword in the first level gives the codeword's index.
  lemma PositionIndex(lens: seq<nat>, tableSize: nat, s: nat)
    requires HasCode(lens, MAX_LENGTH, s) && lens[s] <= tableSize <= MAX_LENGTH
    ensures Index(ToBits(Place(lens, tableSize, lens[s], s), tableSize)) == Index(CodeWord(lens, s))
  {
    hide Value, Pow2, Zeros, Index, Shl;
    var c, k := CodeWord(lens, s), tableSize - lens[s];
    CodeInRange(lens, MAX_LENGTH, s);
    ShlBits(c, k);
    ToBitsOfValue(c + Zeros(k));
    IndexConcat(c, Zeros(k));
    IndexZeros(k);
    ShlZero(|c|);
  }

  lemma PrefixOfPadded(c: seq<bool>, u: seq<bool>, k: nat)
    requires |c| <= |u|
    ensures c <= u <==> c <= u + Zeros(k)
  {
    assert u == (u + Zeros(k))[..|u|];
  }

  lemma EnterShort(lens: seq<nat>, tableSize: nat, table: seq<nat>, table': seq<nat>, s: nat)
    requires HasCode(lens, MAX_LENGTH, s) && lens[s] <= tableSize <= MAX_LENGTH
    requires Pow2(tableSize) <= |table| == |table'|
    requires FirstLevel(lens, tableSize, table, Place(lens, MAX_LENGTH, lens[s], s))
    requires forall u {:trigger Index(u)} | |u| == tableSize :: Index(u) < |table|
    requires forall u {:trigger Index(u)} | |u| == tableSize ::
               table'[Index(u)] == if CodeWord(lens, s) <= u then s else table[Index(u)]
    ensures FirstLevel(lens, tableSize, table', Place(lens, MAX_LENGTH, lens[s], s + 1))
  {
    hide Value, Index, Place, Zeros, Pow2;
    var c := CodeWord(lens, s);
    var place, place' := Place(lens, MAX_LENGTH, lens[s], s), Place(lens, MAX_LENGTH, lens[s], s + 1);
    PlaceNextSymbol(lens, MAX_LENGTH, lens[s], s);
    LowOfCodeWord(lens, s);
    forall u | |u| == tableSize ensures FirstCell(lens, tableSize, table', place', u) {
      var w := u + Zeros(MAX_LENGTH - |u|);
      PrefixByRange(c, w);
      PrefixOfPadded(c, u, MAX_LENGTH - |u|);
      assert FirstCell(lens, tableSize, table, place, u);
    }
  }

  // The first loop: enter every codeword of at most tableSize bits.
  method EnterShortCodes(lens: seq<nat>, tableSize: nat, table: array<nat>) returns (abort: bool, pos: nat)
    requires 1 <= tableSize < MAX_LENGTH && Pow2(tableSize) <= table.Length
    modifies table
    ensures !abort ==> pos == Place(lens, tableSize, tableSize, |lens|) <= Pow2(tableSize)
    ensures !abort ==> FirstLevel(lens, tableSize, table[..], Place(lens, MAX_LENGTH, tableSize, |lens|))
    ensures abort ==> pos > Pow2(tableSize) && Place(lens, MAX_LENGTH, tableSize, |lens|) > Pow2(MAX_LENGTH)
  {
    abort := false;
    pos := 0;
    var bitMask := Pow2(tableSize - 1);
    var bitNum := 1;
    PlaceStart(lens, tableSize);
    PlaceStart(lens, MAX_LENGTH);
    while !abort && bitNum <= tableSize
      invariant 1 <= bitNum <= tableSize + 1
      invariant bitNum <= tableSize ==> bitMask == Pow2(tableSize - bitNum)
      invariant !abort ==> var (d, i) := Reached(lens, tableSize, bitNum);
                           && pos == Place(lens, tableSize, d, i) <= Pow2(tableSize)
                           && FirstLevel(lens, tableSize, table[..], Place(lens, MAX_LENGTH, d, i))
      invariant abort ==> pos > Pow2(tableSize) && Place(lens, MAX_LENGTH, tableSize, |lens|) > Pow2(MAX_LENGTH)
      decreases tableSize + 1 - bitNum
    {
      abort, pos := EnterShortLength(lens, tableSize, table, bitNum, bitMask, pos);
      if bitNum < tableSize {
        PlaceNextLength(lens, tableSize, bitNum);
        PlaceNextLength(lens, MAX_LENGTH, bitNum);
      }
      bitMask := bitMask / 2;
      bitNum := bitNum + 1;
    }
  }

  // Where the builder stands when it is about to enter the codewords of bitNum bits.
  function Reached(lens: seq<nat>, tableSize: nat, bitNum: nat): (nat, nat) {
    if bitNum <= tableSize then (bitNum, 0) else (tableSize, |lens|)
  }

  // The position after symbol s, in a table of width w and in one of 16 bits, and whether its codeword fits.
  lemma PositionStep(lens: seq<nat>, w: nat, d: nat, s: nat)
    requires 1 <= d <= MAX_LENGTH && d <= w && s < |lens|
    ensures Place(lens, w, d, s + 1) == Place(lens, w, d, s) + (if lens[s] == d then Pow2(w - d) else 0)
    ensures lens[s] != d ==> Place(lens, MAX_LENGTH, d, s + 1) == Place(lens, MAX_LENGTH, d, s)
    ensures lens[s] == d ==> (HasCode(lens, MAX_LENGTH, s) <==> Place(lens, w, d, s + 1) <= Pow2(w))
  {
    PlaceNextSymbol(lens, w, d, s);
    PlaceNextSymbol(lens, MAX_LENGTH, d, s);
    FitsAnyWidth(lens, w, d, s);
    FitsAnyWidth(lens, MAX_LENGTH, d, s);
  }

  // Once a codeword does not fit, the code is over-full.
  lemma OverFull(lens: seq<nat>, s: nat, top: nat)
    requires s < |lens| && 1 <= lens[s] <= top <= MAX_LENGTH && !HasCode(lens, MAX_LENGTH, s)
    ensures Place(lens, MAX_LENGTH, top, |lens|) > Pow2(MAX_LENGTH)
  {
    PlaceNextSymbol(lens, MAX_LENGTH, lens[s], s);
    PlaceMonotone(lens, MAX_LENGTH, lens[s], s + 1, top, |lens|);
  }

  // Enter one codeword that fits in the index.
  method EnterShortCode(lens: seq<nat>, tableSize: nat, table: array<nat>, symbol: nat, leaf: nat)
    requires 1 <= tableSize < MAX_LENGTH && Pow2(tableSize) <= table.Length
    requires HasCode(lens, MAX_LENGTH, symbol) && lens[symbol] <= tableSize
    requires leaf == Index(ToBits(Place(lens, tableSize, lens[symbol], symbol), tableSize))
    requires FirstLevel(lens, tableSize, table[..], Place(lens, MAX_LENGTH, lens[symbol], symbol))
    modifies table
    ensures FirstLevel(lens, tableSize, table[..], Place(lens, MAX_LENGTH, lens[symbol], symbol + 1))
  {
    hide FirstLevel;
    PositionIndex(lens, tableSize, symbol);
    ghost var before := table[..];
    FillEntries(table, tableSize, lens[symbol], leaf, symbol, CodeWord(lens, symbol));
    EnterShort(lens, tableSize, before, table[..], symbol);
  }

  // Enter every codeword of bitNum bits.
  method EnterShortLength(lens: seq<nat>, tableSize: nat, table: array<nat>, bitNum: nat, bitMask: nat, start: nat)
    returns (abort: bool, pos: nat)
    requires 1 <= bitNum <= tableSize < MAX_LENGTH && Pow2(tableSize) <= table.Length
    requires bitMask == Pow2(tableSize - bitNum)
    requires start == Place(lens, tableSize, bitNum, 0) <= Pow2(tableSize)
    requires FirstLevel(lens, tableSize, table[..], Place(lens, MAX_LENGTH, bitNum, 0))
    modifies table
    ensures !abort ==> pos == Place(lens, tableSize, bitNum, |lens|) <= Pow2(tableSize)
    ensures !abort ==> FirstLevel(lens, tableSize, table[..], Place(lens, MAX_LENGTH, bitNum, |lens|))
    ensures abort ==> pos > Pow2(tableSize) && Place(lens, MAX_LENGTH, tableSize, |lens|) > Pow2(MAX_LENGTH)
  {
    hide FirstLevel, Place, HasCode, Pow2;
    pos := start;
    for symbol := 0 to |lens|
      invariant pos == Place(lens, tableSize, bitNum, symbol) <= Pow2(tableSize)
      invariant FirstLevel(lens, tableSize, table[..], Place(lens, MAX_LENGTH, bitNum, symbol))
    {
      PositionStep(lens, tableSize, bitNum, symbol);
      if lens[symbol] == bitNum {
        var leaf := Reverse(pos, tableSize);
        pos := pos + bitMask;
        if pos > Pow2(tableSize) {
          OverFull(lens, symbol, tableSize);
          return true, pos;
        }
        EnterShortCode(lens, tableSize, table, symbol, leaf);
      }
    }
    abort := false;
  }

  // ---------------------------------------------------------------------------------------------
  // Second level: the longer codewords
  // ---------------------------------------------------------------------------------------------

  // Whether entering symbol s creates a node at the given depth: only when its codeword is the first
  // one below that node.  (A symbol whose codeword does not fit may create one at every depth before
  // the builder gives up.)
  function NewAt(lens: seq<nat>, s: nat, depth: nat): nat
    requires s < |lens| && 1 <= lens[s] <= MAX_LENGTH && depth <= lens[s]
  {
    var c := CodeWord(lens, s);
    if HasCode(lens, MAX_LENGTH, s) && Low(c[..depth]) != Low(c) then 0 else 1
  }

  // The nodes created by the first n steps of entering symbol s.
  function NewNodes(lens: seq<nat>, tableSize: nat, s: nat, n: nat): nat
    requires s < |lens| && 1 <= lens[s] <= MAX_LENGTH && tableSize + n <= lens[s]
  {
    if n == 0 then 0 else NewNodes(lens, tableSize, s, n - 1) + NewAt(lens, s, tableSize + n - 1)
  }

  // The nodes created by all the longer codewords with lengths below d, and by those of length d among
  // the first i symbols.
  function Nodes(lens: seq<nat>, tableSize: nat, d: nat, i: nat): nat
    requires 1 <= tableSize && d <= MAX_LENGTH && i <= |lens|
    decreases d, i
  {
    if d <= tableSize then 0
    else if i > 0 then
      Nodes(lens, tableSize, d, i - 1)
      + (if lens[i - 1] == d then NewNodes(lens, tableSize, i - 1, d - tableSize) else 0)
    else Nodes(lens, tableSize, d - 1, |lens|)
  }

  lemma {:induction false} NodesMonotone(lens: seq<nat>, tableSize: nat, d: nat, i: nat, d': nat, i': nat)
    requires 1 <= tableSize && d <= d' <= MAX_LENGTH && i <= |lens| && i' <= |lens| && (d < d' || i <= i')
    ensures Nodes(lens, tableSize, d, i) <= Nodes(lens, tableSize, d', i')
    decreases d', i'
  {
    if d' > tableSize && (d != d' || i != i') {
      if i' > 0 {
        NodesMonotone(lens, tableSize, d, i, d', i' - 1);
      } else {
        NodesMonotone(lens, tableSize, d, i, d' - 1, |lens|);
      }
    }
  }

  lemma LabelInjective(tableSize: nat, labels: seq<seq<bool>>, place: nat, depth: nat, length: nat, a: nat, b: nat)
    requires 1 <= tableSize < length <= MAX_LENGTH && LabelsOk(tableSize, labels, place, depth, length)
    requires a < 2 * (FirstNode(tableSize) + |labels|) && b < 2 * (FirstNode(tableSize) + |labels|)
    requires Label(tableSize, labels, a) == Label(tableSize, labels, b)
    ensures a == b
  {
    LabelLength(tableSize, labels, place, depth, length, a);
    LabelLength(tableSize, labels, place, depth, length, b);
    if a < Pow2(tableSize) {
      IndexOfIndexBits(a, tableSize);
      IndexOfIndexBits(b, tableSize);
    } else {
      var x, y := a / 2 - FirstNode(tableSize), b / 2 - FirstNode(tableSize);
      var la, lb := Label(tableSize, labels, a), Label(tableSize, labels, b);
      assert labels[x] == la[..|la| - 1] && labels[y] == lb[..|lb| - 1];
      assert x == y;
      assert la[|la| - 1] == lb[|lb| - 1];
    }
  }

  // The bits of a codeword's position, as the builder reads them off: 16 of them, then zeros.
  function PositionBits(c: seq<bool>): seq<bool>
    requires |c| <= MAX_LENGTH
  {
    c + Zeros(MAX_LENGTH - |c|)
  }

  // A prefix of the codeword lies at or before it; any other label of that length does not meet it.
  lemma OnPath(c: seq<bool>, u: seq<bool>)
    requires |u| <= |c| <= MAX_LENGTH
    ensures u <= c ==> Low(u) <= Low(c)
    ensures Low(u) == Low(c) ==> u <= c
  {
    PrefixByRange(u, PositionBits(c));
    assert u <= PositionBits(c) <==> u <= c;
  }

  // A symbol that has been entered is not on the way to a codeword whose place comes later.
  lemma EnteredOffPath(lens: seq<nat>, c: seq<bool>, u: seq<bool>, s: nat)
    requires |u| <= |c| <= MAX_LENGTH && u <= c && Entered(lens, Low(c), s)
    ensures !(CodeWord(lens, s) <= u)
  {
    if CodeWord(lens, s) <= u {
      LowOfCodeWord(lens, s);
      PrefixByRange(CodeWord(lens, s), PositionBits(c));
    }
  }

  // The walk stands at the slot whose label is the first `depth` bits of the codeword c.
  ghost predicate AtPrefix(lens: seq<nat>, tableSize: nat, table: seq<nat>, labels: seq<seq<bool>>,
                           c: seq<bool>, depth: nat, leaf: nat)
  {
    && tableSize < |c| <= MAX_LENGTH && tableSize <= depth <= |c|
    && Built(lens, tableSize, table, labels, Low(c), depth, |c|)
    && leaf < 2 * (FirstNode(tableSize) + |labels|)
    && Label(tableSize, labels, leaf) == c[..depth]
  }

  // An entry on the way is empty exactly when the part of the tree below it does not exist yet.
  lemma EmptyOrNode(lens: seq<nat>, tableSize: nat, table: seq<nat>, labels: seq<seq<bool>>,
                    c: seq<bool>, depth: nat, leaf: nat)
    requires AtPrefix(lens, tableSize, table, labels, c, depth, leaf)
    ensures Low(c[..depth]) <= Low(c)
    ensures if Low(c[..depth]) == Low(c) then table[leaf] == 0
            else && FirstNode(tableSize) <= table[leaf] < FirstNode(tableSize) + |labels|
                 && labels[table[leaf] - FirstNode(tableSize)] == c[..depth]
  {
    var u := c[..depth];
    OnPath(c, u);
    assert CellOk(lens, tableSize, table, labels, Low(c), depth, leaf);
    if Low(u) != Low(c) && table[leaf] < FirstNode(tableSize) {
      EnteredOffPath(lens, c, u, table[leaf]);
    }
  }

  // Going down through an existing node.
  lemma StepDown(lens: seq<nat>, tableSize: nat, table: seq<nat>, labels: seq<seq<bool>>,
                 c: seq<bool>, depth: nat, leaf: nat)
    requires AtPrefix(lens, tableSize, table, labels, c, depth, leaf) && depth < |c| && table[leaf] != 0
    ensures AtPrefix(lens, tableSize, table, labels, c, depth + 1, 2 * table[leaf] + BitOf(c[depth]))
  {
    hide Value, Pow2, Low, HasCode, CodeWord, Entered;
    EmptyOrNode(lens, tableSize, table, labels, c, depth, leaf);
    ChildLabel(tableSize, labels, table[leaf], c[depth]);
    assert c[..depth] + [c[depth]] == c[..depth + 1];
    forall slot: nat | slot < 2 * (FirstNode(tableSize) + |labels|)
      ensures |Label(tableSize, labels, slot)| <= MAX_LENGTH
      ensures CellOk(lens, tableSize, table, labels, Low(c), depth + 1, slot)
    {
      StepDownCell(lens, tableSize, table, labels, c, depth, leaf, slot);
    }
  }

  lemma StepDownCell(lens: seq<nat>, tableSize: nat, table: seq<nat>, labels: seq<seq<bool>>,
                     c: seq<bool>, depth: nat, leaf: nat, slot: nat)
    requires AtPrefix(lens, tableSize, table, labels, c, depth, leaf) && depth < |c| && table[leaf] != 0
    requires slot < 2 * (FirstNode(tableSize) + |labels|)
    ensures |Label(tableSize, labels, slot)| <= MAX_LENGTH
    ensures CellOk(lens, tableSize, table, labels, Low(c), depth + 1, slot)
  {
    hide Value, Pow2;
    EmptyOrNode(lens, tableSize, table, labels, c, depth, leaf);
    LabelLength(tableSize, labels, Low(c), depth, |c|, slot);
    var u := Label(tableSize, labels, slot);
    OnPath(c, u);
    assert u <= c && |u| == depth ==> u == c[..depth];
    assert Touched(u, Low(c), depth + 1) == Touched(u, Low(c), depth);
    assert CellOk(lens, tableSize, table, labels, Low(c), depth, slot);
  }

  // The table with a new, empty node hung below the slot `leaf`.
  function WithNode(table: seq<nat>, node: nat, leaf: nat): seq<nat>
    requires 2 * node + 1 < |table| && leaf < |table|
  {
    table[2 * node := 0][2 * node + 1 := 0][leaf := node]
  }

  lemma LabelExtends(tableSize: nat, labels: seq<seq<bool>>, u: seq<bool>, slot: nat)
    requires 1 <= tableSize && slot < 2 * (FirstNode(tableSize) + |labels|)
    ensures Label(tableSize, labels + [u], slot) == Label(tableSize, labels, slot)
  {
  }

  lemma LowAfter(u: seq<bool>, bit: bool)
    requires |u| < MAX_LENGTH
    ensures Low(u + [bit]) == Low(u) + (if bit then Pow2(MAX_LENGTH - |u| - 1) else 0)
  {
    hide *;
    var k := MAX_LENGTH - |u| - 1;
    LowIs(u, k + 1);
    LowIs(u + [bit], k);
    PadOne(u, k);
    ValueOfOne(u, k);
  }

  lemma LowIs(u: seq<bool>, k: nat)
    requires |u| + k == MAX_LENGTH
    ensures Low(u) == Value(u + Zeros(k))
  {
    hide Value, Pow2, Zeros;
  }

  lemma PadOne(u: seq<bool>, k: nat)
    ensures u + [false] + Zeros(k) == u + Zeros(k + 1)
  {
  }

  lemma NodeLabelsOk(tableSize: nat, labels: seq<seq<bool>>, c: seq<bool>, depth: nat)
    requires 1 <= tableSize <= depth < |c| <= MAX_LENGTH
    requires LabelsOk(tableSize, labels, Low(c), depth, |c|)
    requires Low(c[..depth]) == Low(c)
    ensures LabelsOk(tableSize, labels + [c[..depth]], Low(c), depth + 1, |c|)
  {
    var u := c[..depth];
    assert forall j | 0 <= j < |labels| :: labels[j] != u by {
      forall j | 0 <= j < |labels| ensures labels[j] != u {
        assert Touched(labels[j], Low(c), depth);
      }
    }
  }

  // Hanging a new node below an empty entry and going down through it.
  lemma StepNew(lens: seq<nat>, tableSize: nat, table: seq<nat>, labels: seq<seq<bool>>,
                c: seq<bool>, depth: nat, leaf: nat)
    requires AtPrefix(lens, tableSize, table, labels, c, depth, leaf) && depth < |c| && table[leaf] == 0
    requires 2 * (FirstNode(tableSize) + |labels| + 1) <= |table|
    ensures var node := FirstNode(tableSize) + |labels|;
            AtPrefix(lens, tableSize, WithNode(table, node, leaf), labels + [c[..depth]], c, depth + 1,
                     2 * node + BitOf(c[depth]))
  {
    hide Value, Pow2, Low, HasCode, CodeWord, Entered, Zeros;
    var node, u := FirstNode(tableSize) + |labels|, c[..depth];
    var table', labels' := WithNode(table, node, leaf), labels + [u];
    EmptyOrNode(lens, tableSize, table, labels, c, depth, leaf);
    NodeLabelsOk(tableSize, labels, c, depth);
    ChildLabel(tableSize, labels', node, c[depth]);
    assert u + [c[depth]] == c[..depth + 1];
    forall slot: nat | slot < 2 * (FirstNode(tableSize) + |labels'|)
      ensures |Label(tableSize, labels', slot)| <= MAX_LENGTH
      ensures CellOk(lens, tableSize, table', labels', Low(c), depth + 1, slot)
    {
      NewNodeCell(lens, tableSize, table, labels, c, depth, leaf, slot);
    }
  }

  lemma NewNodeCell(lens: seq<nat>, tableSize: nat, table: seq<nat>, labels: seq<seq<bool>>,
                    c: seq<bool>, depth: nat, leaf: nat, slot: nat)
    requires AtPrefix(lens, tableSize, table, labels, c, depth, leaf) && depth < |c| && Low(c[..depth]) == Low(c)
    requires 2 * (FirstNode(tableSize) + |labels| + 1) <= |table|
    requires slot < 2 * (FirstNode(tableSize) + |labels| + 1)
    ensures |Label(tableSize, labels + [c[..depth]], slot)| <= MAX_LENGTH
    ensures CellOk(lens, tableSize, WithNode(table, FirstNode(tableSize) + |labels|, leaf), labels + [c[..depth]],
                   Low(c), depth + 1, slot)
  {
    var node, u := FirstNode(tableSize) + |labels|, c[..depth];
    if slot >= 2 * node {
      assert Label(tableSize, labels + [u], slot) == u + [slot % 2 == 1];
      LowAfter(u, slot % 2 == 1);
    } else {
      OldCell(lens, tableSize, table, labels, c, depth, leaf, slot);
    }
  }

  lemma OldCell(lens: seq<nat>, tableSize: nat, table: seq<nat>, labels: seq<seq<bool>>,
                c: seq<bool>, depth: nat, leaf: nat, slot: nat)
    requires AtPrefix(lens, tableSize, table, labels, c, depth, leaf) && depth < |c| && Low(c[..depth]) == Low(c)
    requires 2 * (FirstNode(tableSize) + |labels| + 1) <= |table|
    requires slot < 2 * (FirstNode(tableSize) + |labels|)
    ensures |Label(tableSize, labels + [c[..depth]], slot)| <= MAX_LENGTH
    ensures CellOk(lens, tableSize, WithNode(table, FirstNode(tableSize) + |labels|, leaf), labels + [c[..depth]],
                   Low(c), depth + 1, slot)
  {
    hide Value, Pow2;
    var u := c[..depth];
    LabelExtends(tableSize, labels, u, slot);
    LabelLength(tableSize, labels, Low(c), depth, |c|, slot);
    var x := Label(tableSize, labels, slot);
    assert CellOk(lens, tableSize, table, labels, Low(c), depth, slot);
    if x == u {
      LabelInjective(tableSize, labels, Low(c), depth, |c|, slot, leaf);
    } else {
      OnPath(c, x);
      assert x <= c && |x| == depth ==> x == u;
      assert Touched(x, Low(c), depth + 1) == Touched(x, Low(c), depth);
    }
  }

  // Storing the symbol at the end of its path.
  lemma StepStore(lens: seq<nat>, tableSize: nat, table: seq<nat>, labels: seq<seq<bool>>, s: nat, leaf: nat)
    requires 1 <= tableSize && HasCode(lens, MAX_LENGTH, s) && s < FirstNode(tableSize)
    requires AtPrefix(lens, tableSize, table, labels, CodeWord(lens, s), lens[s], leaf)
    ensures Built(lens, tableSize, table[leaf := s], labels, Place(lens, MAX_LENGTH, lens[s], s + 1), 0, lens[s])
  {
    var c, place' := CodeWord(lens, s), Place(lens, MAX_LENGTH, lens[s], s + 1);
    assert c[..lens[s]] == c;
    LowOfCodeWord(lens, s);
    PlaceNextSymbol(lens, MAX_LENGTH, lens[s], s);
    forall slot: nat | slot < 2 * (FirstNode(tableSize) + |labels|)
      ensures |Label(tableSize, labels, slot)| <= MAX_LENGTH
      ensures CellOk(lens, tableSize, table[leaf := s], labels, place', 0, slot)
    {
      StoredCell(lens, tableSize, table, labels, s, leaf, slot);
    }
  }

  lemma PaddedPrefix(c: seq<bool>, u: seq<bool>)
    requires |u| <= |c| <= MAX_LENGTH && c <= PositionBits(u)
    ensures Low(c) == Low(u)
    ensures |u| == |c| ==> u == c
  {
    var x, gap := PositionBits(u), |c| - |u|;
    assert c == x[..|c|] == u + Zeros(gap);
    ZerosConcat(u, gap, MAX_LENGTH - |c|);
  }

  // A label that starts after the codeword starts does so after it ends.
  lemma NextAfter(c: seq<bool>, u: seq<bool>)
    requires |u| <= |c| <= MAX_LENGTH && u != c
    requires !Touched(u, Low(c), |c|)
    ensures Low(u) >= Low(c) + Pow2(MAX_LENGTH - |c|)
  {
    hide Value, Pow2;
    PrefixByRange(c, PositionBits(u));
    if c <= PositionBits(u) {
      PaddedPrefix(c, u);
    }
  }

  lemma StoredCell(lens: seq<nat>, tableSize: nat, table: seq<nat>, labels: seq<seq<bool>>, s: nat, leaf: nat,
                   slot: nat)
    requires 1 <= tableSize && HasCode(lens, MAX_LENGTH, s) && s < FirstNode(tableSize)
    requires AtPrefix(lens, tableSize, table, labels, CodeWord(lens, s), lens[s], leaf)
    requires slot < 2 * (FirstNode(tableSize) + |labels|)
    ensures |Label(tableSize, labels, slot)| <= MAX_LENGTH
    ensures CellOk(lens, tableSize, table[leaf := s], labels, Place(lens, MAX_LENGTH, lens[s], s + 1), 0, slot)
  {
    var c := CodeWord(lens, s);
    assert c[..lens[s]] == c;
    LowOfCodeWord(lens, s);
    PlaceNextSymbol(lens, MAX_LENGTH, lens[s], s);
    LabelLength(tableSize, labels, Low(c), |c|, |c|, slot);
    var u := Label(tableSize, labels, slot);
    assert CellOk(lens, tableSize, table, labels, Low(c), |c|, slot);
    if u == c {
      LabelInjective(tableSize, labels, Low(c), |c|, |c|, slot, leaf);
    } else if !Touched(u, Low(c), |c|) {
      NextAfter(c, u);
    }
  }

  // ---------------------------------------------------------------------------------------------
  // The second loop
  // ---------------------------------------------------------------------------------------------

  // The second loop counts positions in numbers of this many bits.
  function Wide(tableSize: nat): nat {
    MAX_LENGTH + tableSize
  }

  // Every entry in use is a symbol or an allocated node.
  predicate Bounded(table: seq<nat>, next: nat) {
    2 * next <= |table| && forall slot | 0 <= slot < 2 * next :: table[slot] < next
  }

  lemma BuiltIsBounded(lens: seq<nat>, tableSize: nat, table: seq<nat>, labels: seq<seq<bool>>, place: nat, length: nat)
    requires Built(lens, tableSize, table, labels, place, 0, length) && |lens| <= FirstNode(tableSize)
    ensures Bounded(table, FirstNode(tableSize) + |labels|)
  {
    forall slot: nat | slot < 2 * (FirstNode(tableSize) + |labels|)
      ensures table[slot] < FirstNode(tableSize) + |labels|
    {
      LabelLength(tableSize, labels, place, 0, length, slot);
      assert CellOk(lens, tableSize, table, labels, place, 0, slot);
    }
  }

  // The bits the second loop takes out of a position are those of the codeword.
  lemma WidePosition(lens: seq<nat>, tableSize: nat, s: nat)
    requires HasCode(lens, MAX_LENGTH, s) && 1 <= tableSize < lens[s]
    ensures Place(lens, Wide(tableSize), lens[s], s) == Value(CodeWord(lens, s) + Zeros(Wide(tableSize) - lens[s]))
  {
    CodeInRange(lens, MAX_LENGTH, s);
    ShlBits(CodeWord(lens, s), Wide(tableSize) - lens[s]);
  }

  lemma WideIndex(lens: seq<nat>, tableSize: nat, s: nat, pos: nat)
    requires HasCode(lens, MAX_LENGTH, s) && 1 <= tableSize < lens[s]
    requires pos == Place(lens, Wide(tableSize), lens[s], s)
    ensures ToBits(Shr(pos, MAX_LENGTH), tableSize) == CodeWord(lens, s)[..tableSize]
  {
    var c := CodeWord(lens, s);
    var bs := c + Zeros(Wide(tableSize) - lens[s]);
    WidePosition(lens, tableSize, s);
    ShrBits(bs, MAX_LENGTH);
    assert bs[..tableSize] == c[..tableSize];
    ToBitsOfValue(c[..tableSize]);
  }

  lemma WideBit(lens: seq<nat>, tableSize: nat, s: nat, pos: nat, fill: nat)
    requires HasCode(lens, MAX_LENGTH, s) && 1 <= tableSize < lens[s] && fill < lens[s] - tableSize
    requires pos == Place(lens, Wide(tableSize), lens[s], s)
    ensures Shr(pos, MAX_LENGTH - 1 - fill) % 2 == BitOf(CodeWord(lens, s)[tableSize + fill])
  {
    var c := CodeWord(lens, s);
    WidePosition(lens, tableSize, s);
    BitAt(c + Zeros(Wide(tableSize) - lens[s]), tableSize + fill);
  }

  lemma StartOfPath(lens: seq<nat>, tableSize: nat, table: seq<nat>, labels: seq<seq<bool>>, s: nat)
    requires HasCode(lens, MAX_LENGTH, s)
    requires Built(lens, tableSize, table, labels, Place(lens, MAX_LENGTH, lens[s], s), 0, lens[s])
    ensures AtPrefix(lens, tableSize, table, labels, CodeWord(lens, s), tableSize,
                     Index(CodeWord(lens, s)[..tableSize]))
  {
    var c := CodeWord(lens, s);
    LowOfCodeWord(lens, s);
    IndexBound(c[..tableSize]);
    IndexBitsOfIndex(c[..tableSize]);
    forall slot: nat | slot < 2 * (FirstNode(tableSize) + |labels|)
      ensures |Label(tableSize, labels, slot)| <= MAX_LENGTH
      ensures CellOk(lens, tableSize, table, labels, Low(c), tableSize, slot)
    {
      LabelLength(tableSize, labels, Low(c), 0, |c|, slot);
      assert CellOk(lens, tableSize, table, labels, Low(c), 0, slot);
    }
  }

  // The state of the inner loop that follows, and where it is missing creates, the path of a codeword.
  ghost predicate Following(lens: seq<nat>, tableSize: nat, table: seq<nat>, next: nat, labels: seq<seq<bool>>,
                            s: nat, depth: nat, leaf: nat)
  {
    && 1 <= tableSize && s < |lens| <= FirstNode(tableSize) <= next && leaf < 2 * next
    && Bounded(table, next)
    && (HasCode(lens, MAX_LENGTH, s) ==>
          && next == FirstNode(tableSize) + |labels|
          && AtPrefix(lens, tableSize, table, labels, CodeWord(lens, s), depth, leaf))
  }

  lemma FollowNew(lens: seq<nat>, tableSize: nat, table: seq<nat>, next: nat, labels: seq<seq<bool>>,
                  s: nat, depth: nat, leaf: nat, bit: nat)
    requires Following(lens, tableSize, table, next, labels, s, depth, leaf)
    requires tableSize <= depth < lens[s] && 2 * (next + 1) <= |table| && table[leaf] == 0 && bit < 2
    requires HasCode(lens, MAX_LENGTH, s) ==> bit == BitOf(CodeWord(lens, s)[depth])
    ensures var labels' := if HasCode(lens, MAX_LENGTH, s) then labels + [CodeWord(lens, s)[..depth]] else labels;
            Following(lens, tableSize, WithNode(table, next, leaf), next + 1, labels', s, depth + 1, 2 * next + bit)
  {
    hide HasCode, AtPrefix, Value, Pow2;
    if HasCode(lens, MAX_LENGTH, s) {
      StepNew(lens, tableSize, table, labels, CodeWord(lens, s), depth, leaf);
    }
  }

  lemma FollowOld(lens: seq<nat>, tableSize: nat, table: seq<nat>, next: nat, labels: seq<seq<bool>>,
                  s: nat, depth: nat, leaf: nat, bit: nat)
    requires Following(lens, tableSize, table, next, labels, s, depth, leaf)
    requires tableSize <= depth < lens[s] && table[leaf] != 0 && bit < 2
    requires HasCode(lens, MAX_LENGTH, s) ==> bit == BitOf(CodeWord(lens, s)[depth])
    ensures Following(lens, tableSize, table, next, labels, s, depth + 1, 2 * table[leaf] + bit)
  {
    if HasCode(lens, MAX_LENGTH, s) {
      StepDown(lens, tableSize, table, labels, CodeWord(lens, s), depth, leaf);
    }
  }

  // The first-level slot of a position.
  method FirstSlot(lens: seq<nat>, tableSize: nat, ghost table: seq<nat>, symbol: nat, pos: nat,
                   ghost labels: seq<seq<bool>>)
    returns (leaf: nat)
    requires symbol < |lens| && 1 <= tableSize < lens[symbol] <= MAX_LENGTH
    requires |lens| <= FirstNode(tableSize) && pos == Place(lens, Wide(tableSize), lens[symbol], symbol)
    requires Built(lens, tableSize, table, labels, Place(lens, MAX_LENGTH, lens[symbol], symbol), 0, lens[symbol])
    ensures Following(lens, tableSize, table, FirstNode(tableSize) + |labels|, labels, symbol, tableSize, leaf)
  {
    BuiltIsBounded(lens, tableSize, table, labels, Place(lens, MAX_LENGTH, lens[symbol], symbol), lens[symbol]);
    leaf := Reverse(Shr(pos, MAX_LENGTH), tableSize);
    IndexBound(ToBits(Shr(pos, MAX_LENGTH), tableSize));
    if HasCode(lens, MAX_LENGTH, symbol) {
      WideIndex(lens, tableSize, symbol, pos);
      StartOfPath(lens, tableSize, table, labels, symbol);
    }
  }

  // Enter one codeword of more than tableSize bits.  Each node it needs is allocated once.
  method EnterLong(lens: seq<nat>, tableSize: nat, table: array<nat>, symbol: nat, bitNum: nat, pos: nat,
                   nextSymbol: nat, ghost labels: seq<seq<bool>>)
    returns (next: nat, ghost labels': seq<seq<bool>>)
    requires symbol < |lens| && lens[symbol] == bitNum && 1 <= tableSize < bitNum <= MAX_LENGTH
    requires |lens| <= FirstNode(tableSize) && pos == Place(lens, Wide(tableSize), bitNum, symbol)
    requires nextSymbol == FirstNode(tableSize) + |labels|
    requires Built(lens, tableSize, table[..], labels, Place(lens, MAX_LENGTH, bitNum, symbol), 0, bitNum)
    requires 2 * (nextSymbol + NewNodes(lens, tableSize, symbol, bitNum - tableSize)) <= table.Length
    modifies table
    ensures nextSymbol <= next <= nextSymbol + NewNodes(lens, tableSize, symbol, bitNum - tableSize)
    ensures HasCode(lens, MAX_LENGTH, symbol) ==>
              && next == FirstNode(tableSize) + |labels'|
              && Built(lens, tableSize, table[..], labels', Place(lens, MAX_LENGTH, bitNum, symbol + 1), 0, bitNum)
  {
    hide Built, Place, CodeWord, HasCode, Following, NewAt, Kraft, Low, Shr, Value, Pow2, Index, Wide, FirstNode,
      Entered;
    next, labels' := nextSymbol, labels;
    var leaf := FirstSlot(lens, tableSize, table[..], symbol, pos, labels);
    for fill := 0 to bitNum - tableSize
      invariant nextSymbol <= next <= nextSymbol + NewNodes(lens, tableSize, symbol, fill)
      invariant Following(lens, tableSize, table[..], next, labels', symbol, tableSize + fill, leaf)
    {
      if HasCode(lens, MAX_LENGTH, symbol) {
        WideBit(lens, tableSize, symbol, pos, fill);
      }
      NewNodesMonotone(lens, tableSize, symbol, fill + 1, bitNum - tableSize);
      leaf, next, labels' :=
        FollowBit(lens, tableSize, table, next, labels', symbol, tableSize + fill, leaf,
                  Shr(pos, MAX_LENGTH - 1 - fill) % 2);
    }
    FollowEnd(lens, tableSize, table[..], next, labels', symbol, leaf);
    table[leaf] := symbol;
  }

  lemma {:induction false} NewNodesMonotone(lens: seq<nat>, tableSize: nat, s: nat, m: nat, n: nat)
    requires s < |lens| && 1 <= lens[s] <= MAX_LENGTH && m <= n && tableSize + n <= lens[s]
    ensures NewNodes(lens, tableSize, s, m) <= NewNodes(lens, tableSize, s, n)
  {
    if m < n {
      NewNodesMonotone(lens, tableSize, s, m, n - 1);
    }
  }

  // One step down the path, creating the node if it is missing.
  method FollowBit(lens: seq<nat>, tableSize: nat, table: array<nat>, next: nat, ghost labels: seq<seq<bool>>,
                   ghost s: nat, ghost depth: nat, leaf: nat, bit: nat)
    returns (leaf': nat, next': nat, ghost labels': seq<seq<bool>>)
    requires Following(lens, tableSize, table[..], next, labels, s, depth, leaf)
    requires tableSize <= depth < lens[s] <= MAX_LENGTH && bit < 2
    requires 2 * (next + NewAt(lens, s, depth)) <= table.Length
    requires HasCode(lens, MAX_LENGTH, s) ==> bit == BitOf(CodeWord(lens, s)[depth])
    modifies table
    ensures next <= next' <= next + NewAt(lens, s, depth)
    ensures Following(lens, tableSize, table[..], next', labels', s, depth + 1, leaf')
  {
    hide HasCode, AtPrefix, Value, Pow2;
    ghost var t := table[..];
    next', labels' := next, labels;
    assert leaf < 2 * next;
    if HasCode(lens, MAX_LENGTH, s) {
      EmptyOrNode(lens, tableSize, t, labels, CodeWord(lens, s), depth, leaf);
    }
    if table[leaf] == 0 {
      assert NewAt(lens, s, depth) == 1;
      FollowNew(lens, tableSize, t, next, labels, s, depth, leaf, bit);
      if HasCode(lens, MAX_LENGTH, s) {
        labels' := labels + [CodeWord(lens, s)[..depth]];
      }
      hide Following;
      table[2 * next] := 0;
      table[2 * next + 1] := 0;
      table[leaf] := next;
      next' := next + 1;
      assert table[..] == WithNode(t, next, leaf);
    } else {
      FollowOld(lens, tableSize, t, next, labels, s, depth, leaf, bit);
    }
    leaf' := 2 * table[leaf] + bit;
  }

  lemma FollowEnd(lens: seq<nat>, tableSize: nat, table: seq<nat>, next: nat, labels: seq<seq<bool>>, s: nat, leaf: nat)
    requires s < |lens| && Following(lens, tableSize, table, next, labels, s, lens[s], leaf)
    ensures leaf < |table|
    ensures HasCode(lens, MAX_LENGTH, s) ==>
              && next == FirstNode(tableSize) + |labels|
              && Built(lens, tableSize, table[leaf := s], labels, Place(lens, MAX_LENGTH, lens[s], s + 1), 0, lens[s])
  {
    if HasCode(lens, MAX_LENGTH, s) {
      StepStore(lens, tableSize, table, labels, s, leaf);
    }
  }

  // Enter every codeword of bitNum bits.
  method EnterLongLength(lens: seq<nat>, tableSize: nat, table: array<nat>, bitNum: nat, bitMask: nat, start: nat,
                         nextSymbol: nat, ghost labels: seq<seq<bool>>)
    returns (abort: bool, pos: nat, next: nat, ghost labels': seq<seq<bool>>)
    requires 1 <= tableSize < bitNum <= MAX_LENGTH && |lens| <= FirstNode(tableSize)
    requires bitMask == Pow2(Wide(tableSize) - bitNum)
    requires start == Place(lens, Wide(tableSize), bitNum, 0) <= Pow2(Wide(tableSize))
    requires nextSymbol == FirstNode(tableSize) + |labels|
    requires Built(lens, tableSize, table[..], labels, Place(lens, MAX_LENGTH, bitNum, 0), 0, bitNum)
    requires nextSymbol <= FirstNode(tableSize) + Nodes(lens, tableSize, bitNum, 0)
    requires 2 * (FirstNode(tableSize) + Nodes(lens, tableSize, MAX_LENGTH, |lens|)) <= table.Length
    modifies table
    ensures !abort ==>
              && pos == Place(lens, Wide(tableSize), bitNum, |lens|) <= Pow2(Wide(tableSize))
              && next == FirstNode(tableSize) + |labels'|
              && next <= FirstNode(tableSize) + Nodes(lens, tableSize, bitNum, |lens|)
              && Built(lens, tableSize, table[..], labels', Place(lens, MAX_LENGTH, bitNum, |lens|), 0, bitNum)
    ensures abort ==> pos > Pow2(Wide(tableSize)) && Place(lens, MAX_LENGTH, MAX_LENGTH, |lens|) > Pow2(MAX_LENGTH)
  {
    pos, next, labels' := start, nextSymbol, labels;
    hide Built, Place, HasCode, Pow2, NewNodes;
    for symbol := 0 to |lens|
      invariant pos == Place(lens, Wide(tableSize), bitNum, symbol) <= Pow2(Wide(tableSize))
      invariant next == FirstNode(tableSize) + |labels'|
      invariant next <= FirstNode(tableSize) + Nodes(lens, tableSize, bitNum, symbol)
      invariant Built(lens, tableSize, table[..], labels', Place(lens, MAX_LENGTH, bitNum, symbol), 0, bitNum)
    {
      PositionStep(lens, Wide(tableSize), bitNum, symbol);
      if lens[symbol] == bitNum {
        NodesMonotone(lens, tableSize, bitNum, symbol + 1, MAX_LENGTH, |lens|);
        next, labels' := EnterLong(lens, tableSize, table, symbol, bitNum, pos, next, labels');
        pos := pos + bitMask;
        if pos > Pow2(Wide(tableSize)) {
          OverFull(lens, symbol, MAX_LENGTH);
          return true, pos, next, labels';
        }
      }
    }
    abort := false;
  }

  lemma BuiltNextLength(lens: seq<nat>, tableSize: nat, table: seq<nat>, labels: seq<seq<bool>>, place: nat,
                        length: nat)
    requires Built(lens, tableSize, table, labels, place, 0, length) && length < MAX_LENGTH
    ensures Built(lens, tableSize, table, labels, place, 0, length + 1)
  {
  }

  // The second loop: enter every longer codeword.
  method EnterLongCodes(lens: seq<nat>, tableSize: nat, table: array<nat>, start: nat)
    returns (abort: bool, pos: nat, ghost labels: seq<seq<bool>>)
    requires 1 <= tableSize < MAX_LENGTH && |lens| <= FirstNode(tableSize)
    requires start == Place(lens, Wide(tableSize), tableSize, |lens|) <= Pow2(Wide(tableSize))
    requires Built(lens, tableSize, table[..], [], Place(lens, MAX_LENGTH, tableSize, |lens|), 0, tableSize + 1)
    requires 2 * (FirstNode(tableSize) + Nodes(lens, tableSize, MAX_LENGTH, |lens|)) <= table.Length
    modifies table
    ensures !abort ==>
              && pos == Place(lens, Wide(tableSize), MAX_LENGTH, |lens|)
              && Built(lens, tableSize, table[..], labels, Place(lens, MAX_LENGTH, MAX_LENGTH, |lens|), 0, MAX_LENGTH)
    ensures abort ==> pos > Pow2(Wide(tableSize)) && Place(lens, MAX_LENGTH, MAX_LENGTH, |lens|) > Pow2(MAX_LENGTH)
  {
    hide Built, Place, HasCode, Entered, Value;
    abort, pos, labels := false, start, [];
    var nextSymbol := FirstNode(tableSize);
    var bitMask := Pow2(MAX_LENGTH - 1);
    var bitNum := tableSize + 1;
    PlaceNextLength(lens, Wide(tableSize), tableSize);
    PlaceNextLength(lens, MAX_LENGTH, tableSize);
    while !abort && bitNum <= MAX_LENGTH
      invariant tableSize < bitNum <= MAX_LENGTH + 1
      invariant bitNum <= MAX_LENGTH ==> bitMask == Pow2(Wide(tableSize) - bitNum)
      invariant !abort ==>
                  var (d, i) := ReachedLong(lens, bitNum);
                  && pos == Place(lens, Wide(tableSize), d, i) <= Pow2(Wide(tableSize))
                  && nextSymbol == FirstNode(tableSize) + |labels|
                  && nextSymbol <= FirstNode(tableSize) + Nodes(lens, tableSize, d, i)
                  && Built(lens, tableSize, table[..], labels, Place(lens, MAX_LENGTH, d, i), 0, d)
      invariant abort ==> pos > Pow2(Wide(tableSize)) && Place(lens, MAX_LENGTH, MAX_LENGTH, |lens|) > Pow2(MAX_LENGTH)
      decreases MAX_LENGTH + 1 - bitNum
    {
      abort, pos, nextSymbol, labels :=
        EnterLongLength(lens, tableSize, table, bitNum, bitMask, pos, nextSymbol, labels);
      if !abort && bitNum < MAX_LENGTH {
        PlaceNextLength(lens, Wide(tableSize), bitNum);
        PlaceNextLength(lens, MAX_LENGTH, bitNum);
        BuiltNextLength(lens, tableSize, table[..], labels, Place(lens, MAX_LENGTH, bitNum, |lens|), bitNum);
      }
      bitMask := bitMask / 2;
      bitNum := bitNum + 1;
    }
  }

  function ReachedLong(lens: seq<nat>, bitNum: nat): (nat, nat) {
    if bitNum <= MAX_LENGTH then (bitNum, 0) else (MAX_LENGTH, |lens|)
  }

  // Clear the first-level entries that no short codeword has filled.
  method ClearRest(tableSize: nat, table: array<nat>, pos: nat)
    requires 1 <= tableSize && pos <= Pow2(tableSize) <= table.Length
    modifies table
    ensures forall u {:trigger Index(u)} | |u| == tableSize :: Index(u) < table.Length
    ensures forall u {:trigger Index(u)} | |u| == tableSize ::
              table[Index(u)] == if Value(u) >= pos then 0 else old(table[..])[Index(u)]
  {
    ghost var t := table[..];
    forall u | |u| == tableSize ensures Index(u) < Pow2(tableSize) && Value(u) < Pow2(tableSize) {
      IndexBound(u);
      ValueBound(u);
    }
    for symbol := pos to Pow2(tableSize)
      invariant forall u {:trigger Index(u)} | |u| == tableSize ::
                  table[Index(u)] == if pos <= Value(u) < symbol then 0 else t[Index(u)]
    {
      var leaf := Reverse(symbol, tableSize);
      ghost var here := ToBits(symbol, tableSize);
      ValueOfToBits(symbol, tableSize);
      IndexBound(here);
      forall u | |u| == tableSize ensures (Index(u) == leaf <==> u == here) && (Value(u) == symbol <==> u == here) {
        if Index(u) == leaf {
          IndexInjective(u, here);
        }
        if Value(u) == symbol {
          ValueInjective(u, here);
        }
      }
      table[leaf] := 0;
    }
  }

  // After the first loop, and with the rest cleared, the first level is built.
  lemma FirstLevelBuilt(lens: seq<nat>, tableSize: nat, table: seq<nat>, table': seq<nat>, pos: nat)
    requires 1 <= tableSize < MAX_LENGTH && |lens| <= FirstNode(tableSize) && Pow2(tableSize) <= |table| == |table'|
    requires pos == Place(lens, tableSize, tableSize, |lens|)
    requires FirstLevel(lens, tableSize, table, Place(lens, MAX_LENGTH, tableSize, |lens|))
    requires forall u {:trigger Index(u)} | |u| == tableSize :: Index(u) < |table|
    requires forall u {:trigger Index(u)} | |u| == tableSize ::
               table'[Index(u)] == if Value(u) >= pos then 0 else table[Index(u)]
    ensures Built(lens, tableSize, table', [], Place(lens, MAX_LENGTH, tableSize, |lens|), 0, tableSize + 1)
  {
    var place := Place(lens, MAX_LENGTH, tableSize, |lens|);
    ShlShl(Code(lens, tableSize, |lens|), 0, MAX_LENGTH - tableSize);
    assert pos == Code(lens, tableSize, |lens|);
    forall slot: nat | slot < 2 * FirstNode(tableSize)
      ensures CellOk(lens, tableSize, table', [], place, 0, slot)
    {
      FirstLevelCell(lens, tableSize, table, table', pos, place, slot);
    }
  }

  lemma FirstLevelCell(lens: seq<nat>, tableSize: nat, table: seq<nat>, table': seq<nat>, pos: nat, place: nat,
                       slot: nat)
    requires 1 <= tableSize < MAX_LENGTH && |lens| <= FirstNode(tableSize) && Pow2(tableSize) <= |table| == |table'|
    requires place == Shl(pos, MAX_LENGTH - tableSize) && FirstLevel(lens, tableSize, table, place)
    requires slot < 2 * FirstNode(tableSize)
    requires forall u {:trigger Index(u)} | |u| == tableSize :: Index(u) < |table|
    requires forall u {:trigger Index(u)} | |u| == tableSize ::
               table'[Index(u)] == if Value(u) >= pos then 0 else table[Index(u)]
    ensures CellOk(lens, tableSize, table', [], place, 0, slot)
  {
    hide Value, Shl, Code;
    var u := IndexBits(slot, tableSize);
    IndexOfIndexBits(slot, tableSize);
    assert FirstCell(lens, tableSize, table, place, u);
    ShlBits(u, MAX_LENGTH - tableSize);
    if Value(u) < pos {
      ShlStrict(Value(u), pos, MAX_LENGTH - tableSize);
    } else {
      ShlBound(Value(u), pos, MAX_LENGTH - tableSize);
    }
  }

  // ---------------------------------------------------------------------------------------------
  // The builder
  // ---------------------------------------------------------------------------------------------

  // The Kraft sum of the codewords of at most d bits, in units of 2^-16.
  function KraftUpTo(lens: seq<nat>, d: nat): nat
    requires d <= MAX_LENGTH
  {
    Kraft(lens, MAX_LENGTH, d, |lens|)
  }

  // The table has room for every second-level entry, and the nodes can be numbered in 16 bits.
  predicate Room(lens: seq<nat>, tableSize: nat, entries: nat)
    requires 1 <= tableSize
  {
    2 * (FirstNode(tableSize) + Nodes(lens, tableSize, MAX_LENGTH, |lens|)) <= entries <= 0x2_0000
  }

  // The finished table decodes every window of input.
  ghost predicate DecodesAll(lens: seq<nat>, tableSize: nat, table: seq<nat>)
    requires 1 <= tableSize <= MAX_LENGTH
  {
    forall window: seq<bool> {:trigger Lookup(table, tableSize, window)} | |window| >= MAX_LENGTH ::
      Decodes(lens, tableSize, window, Lookup(table, tableSize, window))
  }

  lemma FullDecodesAll(lens: seq<nat>, tableSize: nat, table: seq<nat>, labels: seq<seq<bool>>)
    requires Full(lens, tableSize, table, labels)
    ensures DecodesAll(lens, tableSize, table)
  {
    forall window: seq<bool> | |window| >= MAX_LENGTH
      ensures Decodes(lens, tableSize, window, Lookup(table, tableSize, window))
    {
      LookupFinds(lens, tableSize, table, labels, window);
    }
  }

  // When the short codewords alone fill the first level, it is a finished table by itself.
  lemma FirstLevelFull(lens: seq<nat>, tableSize: nat, table: seq<nat>)
    requires 1 <= tableSize < MAX_LENGTH && |lens| <= FirstNode(tableSize) && Pow2(tableSize) <= |table|
    requires FirstLevel(lens, tableSize, table, Pow2(MAX_LENGTH))
    ensures Full(lens, tableSize, table, [])
  {
    forall slot: nat | slot < 2 * FirstNode(tableSize) ensures FullCell(lens, tableSize, table, [], slot) {
      var u := IndexBits(slot, tableSize);
      IndexOfIndexBits(slot, tableSize);
      LowBound(u);
      assert FirstCell(lens, tableSize, table, Pow2(MAX_LENGTH), u);
    }
  }

  // The positions after the short codes and after all codes, in tables of any width, and the Kraft sums.
  lemma PlacesAndSums(lens: seq<nat>, tableSize: nat)
    requires 1 <= tableSize < MAX_LENGTH
    ensures var short, all := Place(lens, MAX_LENGTH, tableSize, |lens|), Place(lens, MAX_LENGTH, MAX_LENGTH, |lens|);
      && short == KraftUpTo(lens, tableSize) && all == KraftUpTo(lens, MAX_LENGTH) && short <= all
      && (short <= Pow2(MAX_LENGTH) <==> Place(lens, tableSize, tableSize, |lens|) <= Pow2(tableSize))
      && (short == Pow2(MAX_LENGTH) <==> Place(lens, tableSize, tableSize, |lens|) == Pow2(tableSize))
      && (short <= Pow2(MAX_LENGTH) <==> Place(lens, Wide(tableSize), tableSize, |lens|) <= Pow2(Wide(tableSize)))
      && (all == Pow2(MAX_LENGTH) <==> Place(lens, Wide(tableSize), MAX_LENGTH, |lens|) == Pow2(Wide(tableSize)))
  {
    hide Place, Kraft, Pow2, Code;
    PlaceIsKraft(lens, MAX_LENGTH, tableSize);
    PlaceIsKraft(lens, MAX_LENGTH, MAX_LENGTH);
    PlaceMonotone(lens, MAX_LENGTH, tableSize, |lens|, MAX_LENGTH, |lens|);
    FitsAnyWidth(lens, tableSize, tableSize, |lens|);
    FitsAnyWidth(lens, MAX_LENGTH, tableSize, |lens|);
    FitsAnyWidth(lens, Wide(tableSize), tableSize, |lens|);
    FitsAnyWidth(lens, MAX_LENGTH, MAX_LENGTH, |lens|);
    FitsAnyWidth(lens, Wide(tableSize), MAX_LENGTH, |lens|);
  }

  lemma RoomForIndex(lens: seq<nat>, tableSize: nat, entries: nat)
    requires 1 <= tableSize && Room(lens, tableSize, entries)
    ensures Pow2(tableSize) <= entries
  {
  }

  lemma FirstPlaceWide(lens: seq<nat>, tableSize: nat)
    requires 1 <= tableSize
    ensures Shl(Place(lens, tableSize, tableSize, |lens|), MAX_LENGTH)
         == Place(lens, Wide(tableSize), tableSize, |lens|)
  {
    ShlShl(Code(lens, tableSize, |lens|), 0, MAX_LENGTH);
  }

  // Build the table for the given code lengths.  It fails unless either the codewords that fit in the
  // index or all codewords together are complete; longer codewords are not looked at when the short
  // ones already are.
  method MakeDecodeTable(lens: seq<nat>, tableSize: nat, table: array<nat>) returns (abort: bool)
    requires 1 <= tableSize < MAX_LENGTH && |lens| <= FirstNode(tableSize)
    requires Room(lens, tableSize, table.Length)
    modifies table
    ensures !abort <==>
            KraftUpTo(lens, tableSize) == Pow2(MAX_LENGTH) || KraftUpTo(lens, MAX_LENGTH) == Pow2(MAX_LENGTH)
    ensures !abort ==> DecodesAll(lens, tableSize, table[..])
  {
    hide Built, FirstLevel, DecodesAll, Full, Place, HasCode, Value, Nodes, Pow2, Shl;
    RoomForIndex(lens, tableSize, table.Length);
    PlacesAndSums(lens, tableSize);
    var tableMask := Pow2(tableSize);
    var pos;
    abort, pos := EnterShortCodes(lens, tableSize, table);
    if !abort {
      if pos != tableMask {
        ghost var first := table[..];
        ClearRest(tableSize, table, pos);
        FirstLevelBuilt(lens, tableSize, first, table[..], pos);
        ghost var labels;
        tableMask := Shl(tableMask, MAX_LENGTH);
        ShlPow2(tableSize, MAX_LENGTH);
        FirstPlaceWide(lens, tableSize);
        abort, pos, labels := EnterLongCodes(lens, tableSize, table, Shl(pos, MAX_LENGTH));
        if !abort && pos == tableMask {
          BuiltIsFull(lens, tableSize, table[..], labels);
          FullDecodesAll(lens, tableSize, table[..], labels);
        }
      } else {
        FirstLevelFull(lens, tableSize, table[..]);
        FullDecodesAll(lens, tableSize, table[..], []);
      }
    }
    if pos != tableMask {
      abort := true;
    }
  }

  // A table that decodes returns the one symbol whose codeword starts the window.
  lemma DecodedSymbolIsUnique(lens: seq<nat>, tableSize: nat, table: seq<nat>, window: seq<bool>, s: nat)
    requires 1 <= tableSize < MAX_LENGTH && DecodesAll(lens, tableSize, table)
    requires |window| >= MAX_LENGTH && HasCode(lens, MAX_LENGTH, s) && CodeWord(lens, s) <= window
    ensures Lookup(table, tableSize, window).Symbol? && Lookup(table, tableSize, window).symbol == s
  {
    var r := Lookup(table, tableSize, window);
    assert Decodes(lens, tableSize, window, r);
    CodeWordsPrefixFree(lens, MAX_LENGTH, s, r.symbol, window[..MAX_LENGTH]);
  }
}
