// The decrunch loop of unlzx (external/unlzx/unlzx.c): tokens are read through the bit register and
// the decode tables and written to a wrapped buffer whose edges are duplicated.  Against it stands a
// reference decoder that reads a flat bit string and appends to an unbounded history.

module LzxDecrunch {
  import opened Bits
  import opened Canonical
  import opened DecodeTable
  import opened History
  import opened LzxInput

  // ---------------------------------------------------------------------------------------------
  // The wrapped buffer
  // ---------------------------------------------------------------------------------------------

  const SPAN: nat := 65536
  const EDGE: nat := 258
  const DECRUNCH_BUFFER_SIZE: nat := EDGE + SPAN + EDGE

  // Every position that was written recently enough holds the byte of that age.
  ghost predicate Mirrors(buffer: seq<byte>, dest: nat, history: seq<byte>) {
    forall x: nat | x < |buffer| && (x < dest || x < SPAN + EDGE) && 0 < Age(dest, x, SPAN) <= |history| ::
      buffer[x] == history[|history| - Age(dest, x, SPAN)]
  }

  class Window {
    const buffer: array<byte>
    var destination: nat

    ghost predicate Valid()
      reads this
    {
      buffer.Length == DECRUNCH_BUFFER_SIZE && EDGE <= destination <= DECRUNCH_BUFFER_SIZE
    }

    ghost predicate Shows(history: seq<byte>)
      reads this, buffer
    {
      Mirrors(buffer[..], destination, history)
    }

    // A new stream starts with a full buffer of nothing, so that the first thing done is to wrap it.
    constructor ()
      ensures Valid() && Shows([]) && destination == EDGE + SPAN && fresh(buffer)
    {
      buffer := new byte[DECRUNCH_BUFFER_SIZE];
      destination := EDGE + SPAN;
    }

    method Put(b: byte, ghost history: seq<byte>)
      requires Valid() && destination < DECRUNCH_BUFFER_SIZE
      modifies this`destination, buffer
      ensures Valid() && destination == old(destination) + 1
      ensures old(Shows(history)) ==> Shows(history + [b])
    {
      buffer[destination] := b;
      destination := destination + 1;
    }

    lemma ShownByte(x: nat, history: seq<byte>)
      requires Shows(history) && x < buffer.Length && (x < destination || x < SPAN + EDGE)
      requires 0 < Age(destination, x, SPAN) <= |history|
      ensures buffer[x] == history[|history| - Age(destination, x, SPAN)]
    {
    }

    // Copy a match.  The source wraps around once, and may then run through the upper edge, which
    // duplicates the start of the buffer as it was one span ago.
    method Copy(lastOffset: nat, count: nat, ghost history: seq<byte>)
      requires Valid() && destination + count <= DECRUNCH_BUFFER_SIZE
      requires 1 <= lastOffset < SPAN && 1 <= count <= EDGE
      modifies this`destination, buffer
      ensures Valid() && destination == old(destination) + count
      ensures lastOffset <= |history| && old(Shows(history)) ==> Shows(CopiedBack(history, lastOffset, count))
    {
      hide Mirrors;
      var str: nat := if lastOffset < destination then destination - lastOffset else destination + SPAN - lastOffset;
      ghost var h := history;
      ghost var tracked := lastOffset <= |history| && Shows(history);
      var left := count;
      while left > 0
        invariant 0 <= left <= count && destination == old(destination) + (count - left) && Valid()
        invariant Age(destination, str, SPAN) == lastOffset
        invariant str < destination || str + left <= SPAN + EDGE
        invariant tracked ==>
                    && lastOffset <= |h| && Shows(h)
                    && CopiedBack(h, lastOffset, left) == CopiedBack(history, lastOffset, count)
      {
        ghost var b := buffer[str];
        if tracked {
          ShownByte(str, h);
        }
        Put(buffer[str], h);
        h := h + [b];
        str := str + 1;
        left := left - 1;
      }
    }

    // Once the buffer is full, move its upper part to the start; the rest of the last span stays.
    method Wrap(ghost history: seq<byte>)
      requires Valid() && destination >= EDGE + SPAN
      modifies this`destination, buffer
      ensures Valid() && destination == old(destination) - SPAN
      ensures old(Shows(history)) ==> Shows(history)
    {
      var count := destination - SPAN;
      for i := 0 to count
        invariant forall x | 0 <= x < buffer.Length ::
                    buffer[x] == if x < i then old(buffer[x + SPAN]) else old(buffer[x])
      {
        buffer[i] := buffer[SPAN + i];
      }
      destination := count;
    }
  }

  // ---------------------------------------------------------------------------------------------
  // The reference decoder
  // ---------------------------------------------------------------------------------------------

  const TABLE_ONE: seq<nat> :=
    [0, 0, 0, 0, 1, 1, 2, 2, 3, 3, 4, 4, 5, 5, 6, 6, 7, 7, 8, 8, 9, 9, 10, 10, 11, 11, 12, 12, 13, 13, 14, 14]

  const TABLE_TWO: seq<nat> :=
    [0, 1, 2, 3, 4, 6, 8, 12, 16, 24, 32, 48, 64, 96, 128, 192, 256, 384, 512, 768, 1024,
     1536, 2048, 3072, 4096, 6144, 8192, 12288, 16384, 24576, 32768, 49152]

  // The code lengths of a block; the literal ones are known once a header has announced some.
  datatype Codes = Codes(known: bool, aligned: bool, literalLens: seq<nat>, offsetLens: seq<nat>)

  // And the decode tables built from them.
  datatype Block = Block(codes: Codes, literalTable: seq<nat>, offsetTable: seq<nat>)

  const NUM_LITERALS: nat := 768
  const LITERAL_TABLE_SIZE: nat := 12
  const NUM_OFFSETS: nat := 8
  const OFFSET_TABLE_SIZE: nat := 7

  ghost predicate ValidBlock(b: Block) {
    var c := b.codes;
    && |c.literalLens| == NUM_LITERALS
    && DecodesAll(c.literalLens, LITERAL_TABLE_SIZE, b.literalTable)
    && (c.aligned ==>
          && |c.offsetLens| == NUM_OFFSETS && |b.offsetTable| == Pow2(OFFSET_TABLE_SIZE)
          && (forall s | 0 <= s < NUM_OFFSETS :: c.offsetLens[s] <= OFFSET_TABLE_SIZE)
          && DecodesAll(c.offsetLens, OFFSET_TABLE_SIZE, b.offsetTable))
  }

  datatype Token = Literal(value: nat) | Match(distance: nat, count: nat)

  // A number of n bits, lowest first, at the start of the input, and what follows it.
  function Field(bits: seq<bool>, n: nat): nat {
    if n <= |bits| then Index(bits[..n]) else 0
  }

  function Skip(bits: seq<bool>, n: nat): seq<bool> {
    if n <= |bits| then bits[n..] else []
  }

  // The symbol whose codeword starts the input.
  ghost predicate StartsWith(lens: seq<nat>, bits: seq<bool>, s: nat) {
    HasCode(lens, MAX_LENGTH, s) && CodeWord(lens, s) <= bits
  }

  ghost function NextSymbol(lens: seq<nat>, bits: seq<bool>): nat {
    if exists s: nat :: StartsWith(lens, bits, s) then
      var s: nat :| StartsWith(lens, bits, s); s
    else |lens|
  }

  ghost function AfterSymbol(lens: seq<nat>, bits: seq<bool>): seq<bool> {
    var s := NextSymbol(lens, bits);
    if s < |lens| then Skip(bits, lens[s]) else bits
  }

  lemma ReadIsNext(lens: seq<nat>, s: nat, before: seq<bool>, after: seq<bool>)
    requires SymbolRead(lens, s, before, after)
    ensures NextSymbol(lens, before) == s && AfterSymbol(lens, before) == after
  {
    hide Place;
    assert StartsWith(lens, before, s);
    var window := (before + Zeros(MAX_LENGTH))[..MAX_LENGTH];
    StartsWindow(lens, before, s);
    StartsWindow(lens, before, NextSymbol(lens, before));
    CodeWordsPrefixFree(lens, MAX_LENGTH, s, NextSymbol(lens, before), window);
    assert before[lens[s]..] == after;
  }

  lemma StartsWindow(lens: seq<nat>, bits: seq<bool>, s: nat)
    requires StartsWith(lens, bits, s)
    ensures CodeWord(lens, s) <= (bits + Zeros(MAX_LENGTH))[..MAX_LENGTH]
  {
    hide Place;
    var n := lens[s];
    assert |CodeWord(lens, s)| == n <= |bits|;
    assert (bits + Zeros(MAX_LENGTH))[..MAX_LENGTH][..n] == bits[..n];
  }

  datatype Parsed = Parsed(token: Token, rest: seq<bool>, lastOffset: nat)

  // The distance of a match: a base, then extra bits - the lowest three of them, in an aligned block,
  // as a codeword of their own.  Zero stands for the distance of the match before.
  ghost function ParseDistance(c: Codes, slot: nat, bits: seq<bool>, lastOffset: nat): (nat, seq<bool>)
    requires slot < 32
  {
    ParseSpread(c, TABLE_ONE[slot], TABLE_TWO[slot], bits, lastOffset)
  }

  ghost function ParseSpread(c: Codes, extra: nat, base: nat, bits: seq<bool>, lastOffset: nat): (nat, seq<bool>) {
    if extra >= 3 && c.aligned then
      var rest := Skip(bits, extra - 3);
      (base + 8 * Field(bits, extra - 3) + NextSymbol(c.offsetLens, rest), AfterSymbol(c.offsetLens, rest))
    else
      var d := base + Field(bits, extra);
      (if d == 0 then lastOffset else d, Skip(bits, extra))
  }

  ghost function ParseMatch(c: Codes, symbol: nat, bits: seq<bool>, lastOffset: nat): Parsed {
    var (distance, rest) := ParseDistance(c, symbol % 32, bits, lastOffset);
    var lenSlot := symbol / 32 % 16;
    var extra := TABLE_ONE[lenSlot];
    Parsed(Match(distance, TABLE_TWO[lenSlot] + 3 + Field(rest, extra)), Skip(rest, extra), distance)
  }

  ghost function ParseToken(c: Codes, bits: seq<bool>, lastOffset: nat): Parsed {
    var symbol, rest := NextSymbol(c.literalLens, bits), AfterSymbol(c.literalLens, bits);
    if symbol < 256 then Parsed(Literal(symbol), rest, lastOffset)
    else ParseMatch(c, symbol - 256, rest, lastOffset)
  }

  // No token has this many bits.
  const TOKEN_BITS: nat := 96

  // The reference decoder's state; it is lost when a match reaches back beyond the first byte.
  datatype Reference = Reference(history: seq<byte>, bits: seq<bool>, lastOffset: nat) | Broken

  ghost function DecodeOne(c: Codes, r: Reference): Reference {
    if r.Broken? then Broken
    else
      var p := ParseToken(c, r.bits, r.lastOffset);
      match p.token
      case Literal(v) => if v < 256 then Reference(r.history + [v], p.rest, p.lastOffset) else Broken
      case Match(d, n) =>
        if 1 <= d <= |r.history| then Reference(CopiedBack(r.history, d, n), p.rest, p.lastOffset) else Broken
  }

  ghost function DecodeMany(c: Codes, r: Reference, n: nat): Reference {
    if n == 0 then r else DecodeOne(c, DecodeMany(c, r, n - 1))
  }

  // ---------------------------------------------------------------------------------------------
  // The decrunch loop
  // ---------------------------------------------------------------------------------------------

  lemma SmallPowers()
    ensures Pow2(0) == 1 && Pow2(1) == 2 && Pow2(2) == 4 && Pow2(3) == 8 && Pow2(4) == 16 && Pow2(5) == 32
    ensures Pow2(6) == 64 && Pow2(7) == 128 && Pow2(8) == 256 && Pow2(9) == 512 && Pow2(10) == 1024
    ensures Pow2(11) == 2048 && Pow2(12) == 4096 && Pow2(13) == 8192 && Pow2(14) == 16384
  {
  }

  // The ranges of the slots follow one another: together they cover 0 to 65535 once.
  lemma SlotRange(slot: nat)
    requires slot < 32
    ensures TABLE_ONE[slot] <= 14
    ensures TABLE_TWO[slot] + Pow2(TABLE_ONE[slot]) == if slot < 31 then TABLE_TWO[slot + 1] else SPAN
    ensures slot < 16 ==> TABLE_ONE[slot] <= 6
  {
    SmallPowers();
  }

  lemma {:induction false} SlotBound(slot: nat)
    requires slot < 32
    ensures TABLE_TWO[slot] + Pow2(TABLE_ONE[slot]) <= SPAN
    ensures slot < 16 ==> TABLE_TWO[slot] + Pow2(TABLE_ONE[slot]) <= 256
    ensures TABLE_ONE[slot] >= 3 ==> TABLE_TWO[slot] >= 1
    decreases 32 - slot
  {
    SlotRange(slot);
    if slot != 31 && slot != 15 {
      SlotBound(slot + 1);
    }
  }

  lemma FieldBound(bits: seq<bool>, n: nat)
    requires n <= |bits|
    ensures Field(bits, n) < Pow2(n)
  {
    IndexBound(bits[..n]);
  }

  // A number of n bits.
  method ReadField(reg: Register, n: nat) returns (v: nat)
    requires reg.Loaded() && n <= 16 && |reg.Unread()| >= n + 16
    modifies reg`source, reg`control, reg`shift, reg`waiting
    ensures reg.Loaded() && v == Field(old(reg.Unread()), n) < Pow2(n)
    ensures reg.Unread() == Skip(old(reg.Unread()), n) && |reg.Unread()| == |old(reg.Unread())| - n
  {
    FieldBound(reg.Unread(), n);
    v := reg.Peek(n);
    reg.Drop(n);
  }

  // In a table whose codewords all fit in the index, the first entry is the symbol.
  lemma OffsetEntry(b: Block, w: seq<bool>)
    requires ValidBlock(b) && b.codes.aligned && |w| >= MAX_LENGTH
    ensures var i := Index(w[..OFFSET_TABLE_SIZE]);
            && i < |b.offsetTable| && b.offsetTable[i] == NextSymbol(b.codes.offsetLens, w) < NUM_OFFSETS
            && AfterSymbol(b.codes.offsetLens, w) == Skip(w, b.codes.offsetLens[b.offsetTable[i]])
  {
    SmallPowers();
    IndexBound(w[..OFFSET_TABLE_SIZE]);
    FirstStep(b.offsetTable, b.codes.offsetLens, OFFSET_TABLE_SIZE, w);
    LookupIsRead(b.offsetTable, b.codes.offsetLens, OFFSET_TABLE_SIZE, w);
    var i := Index(w[..OFFSET_TABLE_SIZE]);
    var s := Lookup(b.offsetTable, OFFSET_TABLE_SIZE, w).symbol;
    ReadIsNext(b.codes.offsetLens, s, w, w[b.codes.offsetLens[s]..]);
  }

  // The lowest three bits of a distance in an aligned block.
  method ReadOffsetSymbol(reg: Register, b: Block) returns (low: nat)
    requires ValidBlock(b) && b.codes.aligned && reg.Loaded() && |reg.Unread()| >= 32
    modifies reg`source, reg`control, reg`shift, reg`waiting
    ensures reg.Loaded() && |reg.Unread()| >= |old(reg.Unread())| - OFFSET_TABLE_SIZE
    ensures low == NextSymbol(b.codes.offsetLens, old(reg.Unread())) < NUM_OFFSETS
    ensures reg.Unread() == AfterSymbol(b.codes.offsetLens, old(reg.Unread()))
  {
    OffsetEntry(b, reg.Unread());
    var index := reg.Peek(OFFSET_TABLE_SIZE);
    low := b.offsetTable[index];
    assert b.codes.offsetLens[low] <= OFFSET_TABLE_SIZE;
    hide ValidBlock, NextSymbol, AfterSymbol;
    reg.Drop(b.codes.offsetLens[low]);
  }

  method ReadDistance(reg: Register, b: Block, slot: nat, lastOffset: nat) returns (count: nat)
    requires ValidBlock(b) && slot < 32 && 1 <= lastOffset < SPAN
    requires reg.Loaded() && |reg.Unread()| >= 64
    modifies reg`source, reg`control, reg`shift, reg`waiting
    ensures reg.Loaded() && |reg.Unread()| >= |old(reg.Unread())| - 18
    ensures (count, reg.Unread()) == ParseDistance(b.codes, slot, old(reg.Unread()), lastOffset)
    ensures 1 <= count < SPAN
  {
    SlotBound(slot);
    SlotRange(slot);
    hide ValidBlock, ParseSpread;
    count := ReadSpread(reg, b, TABLE_ONE[slot], TABLE_TWO[slot], lastOffset);
  }

  method ReadSpread(reg: Register, b: Block, temp: nat, base: nat, lastOffset: nat) returns (count: nat)
    requires ValidBlock(b) && 1 <= lastOffset < SPAN && reg.Loaded() && |reg.Unread()| >= 64
    requires temp <= 14 && base + Pow2(temp) <= SPAN && (temp >= 3 ==> base >= 1)
    modifies reg`source, reg`control, reg`shift, reg`waiting
    ensures reg.Loaded() && |reg.Unread()| >= |old(reg.Unread())| - 18
    ensures (count, reg.Unread()) == ParseSpread(b.codes, temp, base, old(reg.Unread()), lastOffset)
    ensures 1 <= count < SPAN
  {
    hide ValidBlock, NextSymbol, AfterSymbol, Field, Skip, Pow2;
    if temp >= 3 && b.codes.aligned {
      count := ReadAligned(reg, b, temp - 3);
      EightTimes(temp - 3);
      count := base + count;
    } else {
      var extra := ReadField(reg, temp);
      count := base + extra;
      if count == 0 {
        count := lastOffset;
      }
    }
  }

  lemma EightTimes(n: nat)
    ensures Pow2(n + 3) == 8 * Pow2(n)
  {
    assert Pow2(n + 2) == 2 * Pow2(n + 1);
  }

  // The extra bits of a distance in an aligned block.
  method ReadAligned(reg: Register, b: Block, temp: nat) returns (v: nat)
    requires ValidBlock(b) && b.codes.aligned && temp <= 11 && reg.Loaded() && |reg.Unread()| >= 64
    modifies reg`source, reg`control, reg`shift, reg`waiting
    ensures reg.Loaded() && |reg.Unread()| >= |old(reg.Unread())| - 18
    ensures v == 8 * Field(old(reg.Unread()), temp) + NextSymbol(b.codes.offsetLens, Skip(old(reg.Unread()), temp))
    ensures v < 8 * Pow2(temp)
    ensures reg.Unread() == AfterSymbol(b.codes.offsetLens, Skip(old(reg.Unread()), temp))
  {
    hide ValidBlock, NextSymbol, AfterSymbol;
    var high := ReadField(reg, temp);
    var low := ReadOffsetSymbol(reg, b);
    v := 8 * high + low;
  }

  // The distance and length of a match.
  method ReadMatch(reg: Register, b: Block, symbol: nat, last: nat) returns (distance: nat, count: nat)
    requires ValidBlock(b) && 1 <= last < SPAN && reg.Loaded() && |reg.Unread()| >= 80
    modifies reg`source, reg`control, reg`shift, reg`waiting
    ensures reg.Loaded()
    ensures Parsed(Match(distance, count), reg.Unread(), distance)
         == ParseMatch(b.codes, symbol, old(reg.Unread()), last)
    ensures 1 <= distance < SPAN && 1 <= count <= EDGE
  {
    hide ValidBlock, ParseDistance, Field, Skip;
    distance := ReadDistance(reg, b, symbol % 32, last);
    count := ReadCount(reg, symbol / 32 % 16);
  }

  method ReadCount(reg: Register, lenSlot: nat) returns (count: nat)
    requires lenSlot < 16 && reg.Loaded() && |reg.Unread()| >= 32
    modifies reg`source, reg`control, reg`shift, reg`waiting
    ensures reg.Loaded() && reg.Unread() == Skip(old(reg.Unread()), TABLE_ONE[lenSlot])
    ensures count == TABLE_TWO[lenSlot] + 3 + Field(old(reg.Unread()), TABLE_ONE[lenSlot]) <= EDGE
  {
    SlotRange(lenSlot);
    SlotBound(lenSlot);
    hide Field, Skip, Pow2;
    var extra := ReadField(reg, TABLE_ONE[lenSlot]);
    count := TABLE_TWO[lenSlot] + 3 + extra;
  }

  method ReadSymbol(reg: Register, b: Block) returns (symbol: nat)
    requires ValidBlock(b) && reg.Loaded() && |reg.Unread()| >= TOKEN_BITS
    modifies reg`source, reg`control, reg`shift, reg`waiting
    ensures reg.Loaded() && |reg.Unread()| >= 80
    ensures symbol == NextSymbol(b.codes.literalLens, old(reg.Unread()))
    ensures reg.Unread() == AfterSymbol(b.codes.literalLens, old(reg.Unread()))
  {
    ghost var bits := reg.Unread();
    SmallPowers();
    hide NextSymbol, AfterSymbol, DecodesAll;
    symbol := ReadLiteral(reg, b.codes.literalLens, LITERAL_TABLE_SIZE, b.literalTable);
    ReadIsNext(b.codes.literalLens, symbol, bits, reg.Unread());
  }

  lemma CopiedExtends(history: seq<byte>, distance: nat, count: nat)
    requires 1 <= distance <= |history|
    ensures history <= CopiedBack(history, distance, count)
  {
    CopiedBackBytes(history, distance, count);
  }

  // The reference decoder has put out n more bytes.
  ghost predicate Extends(r: Reference, r': Reference, n: int) {
    r'.Reference? ==> r.Reference? && |r'.history| == |r.history| + n && r.history <= r'.history
  }

  // There was more than enough input in front of every token.
  ghost predicate Ample(c: Codes, r: Reference, n: nat) {
    forall k: nat | k < n && DecodeMany(c, r, k).Reference? :: |DecodeMany(c, r, k).bits| >= TOKEN_BITS
  }

  // Until the last token there was something left of the `size` bytes that were wanted.
  ghost predicate Unfilled(c: Codes, r: Reference, n: nat, size: int) {
    r.Reference? ==>
      forall k: nat | 0 < k < n && DecodeMany(c, r, k).Reference? ::
        |DecodeMany(c, r, k).history| < |r.history| + size
  }

  // One round of the loop: read a literal or a match and write its bytes.
  method DecrunchOne(reg: Register, win: Window, b: Block, last: nat, ghost r: Reference) returns (lastOffset: nat)
    requires ValidBlock(b) && 1 <= last < SPAN
    requires reg.Loaded() && |reg.Unread()| >= TOKEN_BITS
    requires win.Valid() && win.destination < EDGE + SPAN
    requires Tracks(reg, win, last, r)
    modifies reg`source, reg`control, reg`shift, reg`waiting, win`destination, win.buffer
    ensures reg.Loaded() && win.Valid() && 1 <= lastOffset < SPAN
    ensures old(win.destination) < win.destination
    ensures Tracks(reg, win, lastOffset, DecodeOne(b.codes, r))
    ensures Extends(r, DecodeOne(b.codes, r), win.destination - old(win.destination))
  {
    hide ValidBlock, ParseMatch, NextSymbol, AfterSymbol, Mirrors, CopiedBack;
    ghost var history := if r.Reference? then r.history else [];
    var symbol := ReadSymbol(reg, b);
    lastOffset := last;
    if symbol < 256 {
      win.Put(symbol, history);
    } else {
      var count;
      lastOffset, count := ReadMatch(reg, b, symbol - 256, last);
      if 1 <= lastOffset <= |history| { CopiedExtends(history, lastOffset, count); }
      win.Copy(lastOffset, count, history);
    }
  }

  // The decoder's state agrees with the reference decoder's, as long as that is not lost.
  ghost predicate Tracks(reg: Register, win: Window, lastOffset: nat, r: Reference)
    reads reg, win, win.buffer
  {
    r.Reference? ==> r.bits == reg.Unread() && r.lastOffset == lastOffset && win.Shows(r.history)
  }

  const GUARD: nat := 1024

  // Run until the window or the input that has been buffered is used up.  It is the reference decoder,
  // run for some number of tokens: the bytes it wrote are the last bytes of the window.
  method Decrunch(reg: Register, win: Window, b: Block, last: nat, destinationEnd: nat, ghost r: Reference)
    returns (lastOffset: nat, ghost n: nat)
    requires ValidBlock(b) && 1 <= last < SPAN && destinationEnd <= EDGE + SPAN
    requires reg.Loaded() && |reg.Unread()| >= TOKEN_BITS
    requires win.Valid() && win.destination < EDGE + SPAN
    requires Tracks(reg, win, last, r)
    modifies reg`source, reg`control, reg`shift, reg`waiting, win`destination, win.buffer
    ensures reg.Loaded() && win.Valid() && 1 <= lastOffset < SPAN
    ensures 1 <= n && old(win.destination) < win.destination
    ensures win.destination >= destinationEnd || |reg.source| <= GUARD
    ensures Tracks(reg, win, lastOffset, DecodeMany(b.codes, r, n)) && Ample(b.codes, r, n)
    ensures Extends(r, DecodeMany(b.codes, r, n), win.destination - old(win.destination))
    ensures Unfilled(b.codes, r, n, destinationEnd - old(win.destination))
  {
    hide ValidBlock, DecodeOne;
    lastOffset := DecrunchOne(reg, win, b, last, r);
    n := 1;
    assert DecodeMany(b.codes, r, 1) == DecodeOne(b.codes, r);
    while win.destination < destinationEnd && |reg.source| > GUARD
      invariant reg.Loaded() && win.Valid() && 1 <= lastOffset < SPAN
      invariant 1 <= n && old(win.destination) < win.destination
      invariant Tracks(reg, win, lastOffset, DecodeMany(b.codes, r, n)) && Ample(b.codes, r, n)
      invariant Extends(r, DecodeMany(b.codes, r, n), win.destination - old(win.destination))
      invariant Unfilled(b.codes, r, n, destinationEnd - old(win.destination))
      decreases destinationEnd - win.destination
    {
      ManyBits(reg.source);
      lastOffset := DecrunchOne(reg, win, b, lastOffset, DecodeMany(b.codes, r, n));
      n := n + 1;
    }
  }

  lemma {:induction false} ManyBits(bytes: seq<byte>)
    ensures |FlatBits(bytes)| + 8 >= 8 * |bytes|
  {
    if |bytes| >= 2 {
      ManyBits(bytes[2..]);
    }
  }
}
