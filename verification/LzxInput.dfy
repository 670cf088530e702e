// The bit register of unlzx (external/unlzx/unlzx.c): a 32-bit word that is refilled two bytes at a
// time, high byte first, and consumed from its low end.

module LzxInput {
  import opened Bits
  import opened Canonical
  import opened DecodeTable
  import opened Wrappers

  // The bits of the input in the order in which they are consumed: each pair of bytes is a 16-bit
  // word, high byte first, whose lowest bit comes first.
  function FlatBits(bytes: seq<byte>): seq<bool> {
    if |bytes| < 2 then []
    else IndexBits(bytes[1], 8) + IndexBits(bytes[0], 8) + FlatBits(bytes[2..])
  }

  // A pair of bytes is a number, the high one first, whose bits come lowest first.
  lemma PairIsNumber(high: byte, low: byte)
    ensures Index(FlatBits([high, low])) == 256 * high + low
  {
    hide Index, IndexBits;
    assert FlatBits([high, low]) == IndexBits(low, 8) + IndexBits(high, 8);
    IndexConcat(IndexBits(low, 8), IndexBits(high, 8));
    ByteIndex(high);
    ByteIndex(low);
    ShlBy256(high);
  }

  lemma ShlBy256(v: nat)
    ensures Shl(v, 8) == 256 * v
  {
    assert Shl(2 * v, 7) == Shl(4 * v, 6) == Shl(8 * v, 5) == Shl(16 * v, 4) == Shl(32 * v, 3) == Shl(64 * v, 2);
  }

  lemma {:induction false} FlatBitsLength(bytes: seq<byte>)
    requires |bytes| % 2 == 0
    ensures |FlatBits(bytes)| == 8 * |bytes|
  {
    if bytes != [] { FlatBitsLength(bytes[2..]); }
  }

  lemma IndexHalves(bs: seq<bool>)
    requires bs != []
    ensures Index(bs) / 2 == Index(bs[1..])
  {
  }

  lemma {:induction false} IndexDrop(bs: seq<bool>, n: nat)
    requires n <= |bs|
    ensures Shr(Index(bs), n) == Index(bs[n..])
    decreases n
  {
    hide Index;
    if n == 0 {
      assert bs[0..] == bs;
    } else {
      IndexHalves(bs);
      IndexDrop(bs[1..], n - 1);
      assert bs[1..][n - 1..] == bs[n..];
    }
  }

  // v & (2^n - 1)
  function LowBits(v: nat, n: nat): nat
    decreases n
  {
    if n == 0 then 0 else v % 2 + 2 * LowBits(v / 2, n - 1)
  }

  lemma {:induction false} IndexLow(bs: seq<bool>, n: nat)
    requires n <= |bs|
    ensures LowBits(Index(bs), n) == Index(bs[..n])
    decreases n
  {
    if n > 0 {
      IndexLow(bs[1..], n - 1);
      assert bs[..n][1..] == bs[1..][..n - 1];
      assert Index(bs) / 2 == Index(bs[1..]);
    }
  }

  // Two bytes come in above the waiting bits, the second one first.
  lemma RefilledIndex(waiting: seq<bool>, source: seq<byte>)
    requires |source| >= 2
    ensures var low, high := IndexBits(source[1], 8), IndexBits(source[0], 8);
      && |low| == 8 == |high|
      && Index(waiting + low + high) == Index(waiting) + Shl(source[0], 8 + |waiting|) + Shl(source[1], |waiting|)
      && waiting + FlatBits(source) == waiting + low + high + FlatBits(source[2..])
  {
    var low, high := IndexBits(source[1], 8), IndexBits(source[0], 8);
    FlatBitsAfter(waiting, source);
    hide *;
    ByteIndex(source[0]);
    ByteIndex(source[1]);
    IndexConcat(waiting, low);
    IndexConcat(waiting + low, high);
  }

  lemma FlatBitsAfter(waiting: seq<bool>, source: seq<byte>)
    requires |source| >= 2
    ensures waiting + FlatBits(source)
         == waiting + IndexBits(source[1], 8) + IndexBits(source[0], 8) + FlatBits(source[2..])
  {
    hide IndexBits;
    var low, high, rest := IndexBits(source[1], 8), IndexBits(source[0], 8), FlatBits(source[2..]);
    assert FlatBits(source) == low + high + rest;
    Regrouped(waiting, low, high, rest);
  }

  lemma Regrouped(a: seq<bool>, b: seq<bool>, c: seq<bool>, d: seq<bool>)
    ensures a + (b + c + d) == a + b + c + d
  {
  }

  class Register {
    var readBuffer: seq<byte>
    var source: seq<byte>      // the part of it that has not been taken in yet
    var control: nat
    var shift: int
    // The bits waiting in the register.
    ghost var waiting: seq<bool>

    ghost predicate InBuffer()
      reads this
    {
      && |source| <= |readBuffer| && (|readBuffer| - |source|) % 2 == 0
      && source == readBuffer[|readBuffer| - |source|..]
    }

    // Before the first read the register is empty; from then on it holds at least 16 bits.
    ghost predicate Valid()
      reads this
    {
      && InBuffer()
      && -16 <= shift <= 15
      && |waiting| == 16 + shift
      && control == Index(waiting)
    }

    ghost predicate Loaded()
      reads this
    {
      Valid() && 0 <= shift
    }

    ghost function Unread(): seq<bool>
      reads this
    {
      waiting + FlatBits(source)
    }

    // Nothing has been read into the buffer yet: all of it counts as used.
    constructor (readBuffer: seq<byte>)
      requires |readBuffer| % 2 == 0
      ensures Valid() && this.readBuffer == readBuffer && source == [] && Unread() == []
    {
      this.readBuffer := readBuffer;
      source := [];
      control := 0;
      shift := -16;
      waiting := [];
    }

    // Add the next two bytes of input above `at` waiting bits.
    method Refill(at: nat)
      requires |source| >= 2 && at == |waiting| <= 16 && control == Index(waiting) && InBuffer()
      modifies this`source, this`control, this`waiting
      ensures source == old(source)[2..] && |waiting| == at + 16 && InBuffer()
      ensures control == Index(waiting) < TWO_TO_THE_32 && Unread() == old(Unread())
    {
      RefilledIndex(waiting, source);
      hide Index, FlatBits;
      control := control + Shl(source[0], 8 + at);
      control := control + Shl(source[1], at);
      waiting := waiting + IndexBits(source[1], 8) + IndexBits(source[0], 8);
      source := source[2..];
      RegisterFits(waiting);
    }

    // The refill at the start of a block: the register may still be empty.
    method Begin()
      requires Valid() && |Unread()| >= 16
      modifies this`source, this`control, this`shift, this`waiting
      ensures Loaded() && Unread() == old(Unread())
    {
      if shift < 0 {
        shift := shift + 16;
        Refill(shift);
      }
    }

    // The low n bits of the register are the next n bits of input.
    method Peek(n: nat) returns (v: nat)
      requires Loaded() && n <= 16
      ensures |Unread()| >= 16 && v == Index(Unread()[..n])
    {
      IndexLow(waiting, n);
      assert Unread()[..n] == waiting[..n];
      v := LowBits(control, n);
    }

    // The bit that comes after the next n bits.
    method PeekAhead(n: nat) returns (bit: nat)
      requires Loaded() && n < 16
      ensures |Unread()| >= 16 && bit == BitOf(Unread()[n])
    {
      BitAhead(waiting, n);
      bit := LowBits(Shr(control, n), 1);
    }

    // Consume n bits; refill when fewer than 16 are left.
    method Drop(n: nat)
      requires Loaded() && n <= 16 && |Unread()| >= n + 16
      modifies this`source, this`control, this`shift, this`waiting
      ensures Loaded() && Unread() == old(Unread())[n..]
    {
      assert Unread()[n..] == waiting[n..] + FlatBits(source);
      IndexDrop(waiting, n);
      control := Shr(control, n);
      waiting := waiting[n..];
      shift := shift - n;
      if shift < 0 {
        shift := shift + 16;
        Refill(shift);
      }
    }

    // Consume one bit; here the refill comes before the shift.
    method DropOne()
      requires Loaded() && |Unread()| >= 17
      modifies this`source, this`control, this`shift, this`waiting
      ensures Loaded() && Unread() == old(Unread())[1..]
    {
      var empty := shift == 0;
      shift := shift - 1;
      if empty {
        shift := shift + 16;
        Refill(16);
      }
      assert Unread()[1..] == waiting[1..] + FlatBits(source);
      IndexDrop(waiting, 1);
      control := Shr(control, 1);
      waiting := waiting[1..];
    }
  }

  lemma ByteIndex(b: byte)
    ensures Index(IndexBits(b, 8)) == b
  {
    assert Pow2(8) == 256;
    IndexOfIndexBits(b, 8);
  }

  // The register never holds more than 32 bits.
  lemma RegisterFits(bs: seq<bool>)
    requires |bs| <= 32
    ensures Index(bs) < TWO_TO_THE_32
  {
    IndexBound(bs);
    Pow2Monotone(|bs|, 32);
    Pow2Of32();
  }

  // ---------------------------------------------------------------------------------------------
  // Reading a symbol through a decode table
  // ---------------------------------------------------------------------------------------------

  // The symbol was the next one in the input: its codeword, and nothing else, has been consumed.
  ghost predicate SymbolRead(lens: seq<nat>, symbol: nat, before: seq<bool>, after: seq<bool>) {
    HasCode(lens, MAX_LENGTH, symbol) && CodeWord(lens, symbol) + after == before
  }

  // Which entry the next bits select.  An entry is a node if it is no symbol of this table.
  ghost predicate Descending(table: seq<nat>, lens: seq<nat>, tableSize: nat, window: seq<bool>, used: nat, symbol: nat)
    requires 1 <= tableSize <= |window| && used <= |window|
  {
    && symbol >= |lens|
    && used < |window|
    && Walk(table, FirstNode(tableSize), window, used + 1, 2 * symbol + BitOf(window[used]))
       == Lookup(table, tableSize, window)
  }

  lemma FirstStep(table: seq<nat>, lens: seq<nat>, tableSize: nat, window: seq<bool>)
    requires 1 <= tableSize < MAX_LENGTH && |lens| <= FirstNode(tableSize)
    requires DecodesAll(lens, tableSize, table) && |window| >= MAX_LENGTH
    ensures var slot := Index(window[..tableSize]);
            && slot < |table|
            && (table[slot] < |lens| ==> Lookup(table, tableSize, window) == Symbol(table[slot], tableSize))
            && (table[slot] >= |lens| ==> Descending(table, lens, tableSize, window, tableSize, table[slot]))
  {
    assert Decodes(lens, tableSize, window, Lookup(table, tableSize, window));
  }

  lemma NextStep(table: seq<nat>, lens: seq<nat>, tableSize: nat, window: seq<bool>, used: nat, symbol: nat)
    requires 1 <= tableSize < MAX_LENGTH && |lens| <= FirstNode(tableSize)
    requires DecodesAll(lens, tableSize, table) && |window| >= MAX_LENGTH && tableSize <= used < |window|
    requires Descending(table, lens, tableSize, window, used, symbol)
    ensures used < MAX_LENGTH
    ensures var slot := 2 * symbol + BitOf(window[used]);
            && slot < |table|
            && (table[slot] < |lens| ==> Lookup(table, tableSize, window) == Symbol(table[slot], used + 1))
            && (table[slot] >= |lens| ==> Descending(table, lens, tableSize, window, used + 1, table[slot]))
  {
    var r := Lookup(table, tableSize, window);
    assert Decodes(lens, tableSize, window, r);
    WalkUses(table, FirstNode(tableSize), window, used + 1, 2 * symbol + BitOf(window[used]));
  }

  lemma {:induction false} WalkUses(table: seq<nat>, firstNode: nat, window: seq<bool>, used: nat, slot: nat)
    requires used <= |window|
    ensures var r := Walk(table, firstNode, window, used, slot); r.Symbol? ==> r.used >= used
    decreases |window| - used
  {
    if slot < |table| && table[slot] >= firstNode && used < |window| {
      WalkUses(table, firstNode, window, used + 1, 2 * table[slot] + BitOf(window[used]));
    }
  }

  lemma LookupIsRead(table: seq<nat>, lens: seq<nat>, tableSize: nat, window: seq<bool>)
    requires 1 <= tableSize < MAX_LENGTH && DecodesAll(lens, tableSize, table) && |window| >= MAX_LENGTH
    ensures var r := Lookup(table, tableSize, window);
            && r.Symbol? && r.symbol < |lens| && lens[r.symbol] <= |window|
            && SymbolRead(lens, r.symbol, window, window[lens[r.symbol]..])
            && r.used == (if lens[r.symbol] <= tableSize then tableSize else lens[r.symbol])
  {
    var r := Lookup(table, tableSize, window);
    assert Decodes(lens, tableSize, window, r);
    assert window == window[..lens[r.symbol]] + window[lens[r.symbol]..];
  }

  // Each further bit leads to the next entry, and is dropped.
  method WalkOn(reg: Register, lens: seq<nat>, tableSize: nat, table: seq<nat>, ghost w: seq<bool>, node: nat)
    returns (symbol: nat, ghost used: nat)
    requires 1 <= tableSize < MAX_LENGTH && |lens| <= FirstNode(tableSize) && DecodesAll(lens, tableSize, table)
    requires |w| >= 2 * MAX_LENGTH && Descending(table, lens, tableSize, w, tableSize, node) && node >= |lens|
    requires reg.Loaded() && reg.Unread() == w[tableSize..]
    modifies reg`source, reg`control, reg`shift, reg`waiting
    ensures reg.Loaded() && symbol < |lens| && tableSize < used <= MAX_LENGTH && reg.Unread() == w[used..]
    ensures Lookup(table, tableSize, w) == Symbol(symbol, used)
  {
    assert MAX_LENGTH == 16;
    hide *;
    symbol, used := node, tableSize;
    while symbol >= |lens|
      invariant tableSize <= used <= MAX_LENGTH && reg.Loaded() && reg.Unread() == w[used..]
      invariant symbol >= |lens| ==> Descending(table, lens, tableSize, w, used, symbol)
      invariant symbol < |lens| ==> Lookup(table, tableSize, w) == Symbol(symbol, used) && used > tableSize
      decreases MAX_LENGTH + 1 - used, symbol >= |lens|
    {
      NextStep(table, lens, tableSize, w, used, symbol);
      var bit := reg.Peek(1);
      FirstBit(reg.Unread());
      symbol := table[bit + 2 * symbol];
      reg.DropOne();
      used := used + 1;
    }
  }

  // The reading loop of decrunch: the index bits are dropped first, and then each further bit before
  // the next one is looked at.
  method ReadLiteral(reg: Register, lens: seq<nat>, tableSize: nat, table: seq<nat>) returns (symbol: nat)
    requires 1 <= tableSize < MAX_LENGTH && |lens| <= FirstNode(tableSize) && DecodesAll(lens, tableSize, table)
    requires reg.Loaded() && |reg.Unread()| >= 2 * MAX_LENGTH
    modifies reg`source, reg`control, reg`shift, reg`waiting
    ensures reg.Loaded() && SymbolRead(lens, symbol, old(reg.Unread()), reg.Unread())
  {
    ghost var w := reg.Unread();
    LookupIsRead(table, lens, tableSize, w);
    FirstStep(table, lens, tableSize, w);
    hide *;
    var index := reg.Peek(tableSize);
    symbol := table[index];
    if symbol >= |lens| {
      reg.Drop(tableSize);
      ghost var used: nat;
      symbol, used := WalkOn(reg, lens, tableSize, table, w, symbol);
    } else {
      reg.Drop(lens[symbol]);
    }
  }

  lemma FirstBit(bs: seq<bool>)
    requires bs != []
    ensures Index(bs[..1]) == BitOf(bs[0])
  {
    assert bs[..1][1..] == [];
  }

  lemma BitAhead(bs: seq<bool>, n: nat)
    requires n < |bs|
    ensures LowBits(Shr(Index(bs), n), 1) == BitOf(bs[n])
  {
    IndexDrop(bs, n);
    IndexLow(bs[n..], 1);
    FirstBit(bs[n..]);
  }

  // One further bit leads to the next entry.
  method StepAhead(reg: Register, lens: seq<nat>, tableSize: nat, table: seq<nat>, ghost w: seq<bool>, ghost used: nat,
                   symbol: nat)
    returns (symbol': nat)
    requires 1 <= tableSize < MAX_LENGTH && |lens| <= FirstNode(tableSize) && DecodesAll(lens, tableSize, table)
    requires |w| >= 2 * MAX_LENGTH && tableSize <= used <= MAX_LENGTH
      && Descending(table, lens, tableSize, w, used, symbol)
    requires reg.Loaded() && reg.Unread() == w[used - tableSize..]
    modifies reg`source, reg`control, reg`shift, reg`waiting
    ensures used < MAX_LENGTH && reg.Loaded() && reg.Unread() == w[used + 1 - tableSize..]
    ensures symbol' >= |lens| ==> Descending(table, lens, tableSize, w, used + 1, symbol')
    ensures symbol' < |lens| ==> Lookup(table, tableSize, w) == Symbol(symbol', used + 1)
  {
    NextStep(table, lens, tableSize, w, used, symbol);
    hide *;
    var bit := reg.PeekAhead(tableSize);
    symbol' := table[bit + 2 * symbol];
    reg.DropOne();
  }

  // The same walk with the index bits still in front.
  method WalkAhead(reg: Register, lens: seq<nat>, tableSize: nat, table: seq<nat>, ghost w: seq<bool>, node: nat)
    returns (symbol: nat, ghost used: nat)
    requires 1 <= tableSize < MAX_LENGTH && |lens| <= FirstNode(tableSize) && DecodesAll(lens, tableSize, table)
    requires |w| >= 2 * MAX_LENGTH && Descending(table, lens, tableSize, w, tableSize, node) && node >= |lens|
    requires reg.Loaded() && reg.Unread() == w
    modifies reg`source, reg`control, reg`shift, reg`waiting
    ensures reg.Loaded() && symbol < |lens| && tableSize < used <= MAX_LENGTH && reg.Unread() == w[used - tableSize..]
    ensures Lookup(table, tableSize, w) == Symbol(symbol, used)
  {
    hide *;
    symbol, used := node, tableSize;
    while symbol >= |lens|
      invariant tableSize <= used <= MAX_LENGTH && reg.Loaded() && reg.Unread() == w[used - tableSize..]
      invariant symbol >= |lens| ==> Descending(table, lens, tableSize, w, used, symbol)
      invariant symbol < |lens| ==> Lookup(table, tableSize, w) == Symbol(symbol, used) && used > tableSize
      decreases MAX_LENGTH + 1 - used, symbol >= |lens|
    {
      symbol := StepAhead(reg, lens, tableSize, table, w, used, symbol);
      used := used + 1;
    }
  }

  // The reading loop of read_literal_table: the further bits are looked at above the index bits, which
  // are dropped at the end.
  method ReadLength(reg: Register, lens: seq<nat>, tableSize: nat, table: seq<nat>) returns (symbol: nat)
    requires 1 <= tableSize < MAX_LENGTH && |lens| <= FirstNode(tableSize) && DecodesAll(lens, tableSize, table)
    requires reg.Loaded() && |reg.Unread()| >= 2 * MAX_LENGTH
    modifies reg`source, reg`control, reg`shift, reg`waiting
    ensures reg.Loaded() && SymbolRead(lens, symbol, old(reg.Unread()), reg.Unread())
  {
    ghost var w := reg.Unread();
    LookupIsRead(table, lens, tableSize, w);
    FirstStep(table, lens, tableSize, w);
    hide *;
    var index := reg.Peek(tableSize);
    symbol := table[index];
    var temp;
    if symbol >= |lens| {
      ghost var used: nat;
      symbol, used := WalkAhead(reg, lens, tableSize, table, w, symbol);
      temp := tableSize;
    } else {
      temp := lens[symbol];
    }
    reg.Drop(temp);
  }
}
