// The header of a block of unlzx (external/unlzx/unlzx.c, read_literal_table): how the block is coded, how
// long it is, and its code lengths.  Those of the literals are given as differences to the ones of the
// block before, in two parts, each with a code of its own.  Against the code stands a parser of a flat
// bit string.

module LzxHeader {
  import opened Bits
  import opened Canonical
  import opened DecodeTable
  import opened LzxInput
  import opened LzxDecrunch
  import opened Wrappers

  const NUM_LENGTHS: nat := 20
  const LENGTH_TABLE_SIZE: nat := 6

  // The entries of the three tables.
  const OFFSET_ENTRIES: nat := 128
  const LENGTH_ENTRIES: nat := 96
  const LITERAL_ENTRIES: nat := 5120

  // ---------------------------------------------------------------------------------------------
  // The parser
  // ---------------------------------------------------------------------------------------------

  // Corrupt: a code is not complete.  Outside: the code would leave one of its arrays, or what is there of
  // the input; nothing is claimed about what it does then.
  datatype Reading<T> = Reading(value: T, rest: seq<bool>) | Corrupt | Outside

  // Numbers of the same width, one after the other.
  function AfterFields(bits: seq<bool>, width: nat, n: nat): seq<bool> {
    if n == 0 then bits else Skip(AfterFields(bits, width, n - 1), width)
  }

  function Fields(bits: seq<bool>, width: nat, n: nat): (vs: seq<nat>)
    ensures |vs| == n
  {
    if n == 0 then [] else Fields(bits, width, n - 1) + [Field(AfterFields(bits, width, n - 1), width)]
  }

  // What make_decode_table accepts.
  predicate Buildable(lens: seq<nat>, tableSize: nat)
    requires tableSize <= MAX_LENGTH
  {
    KraftUpTo(lens, tableSize) == Pow2(MAX_LENGTH) || KraftUpTo(lens, MAX_LENGTH) == Pow2(MAX_LENGTH)
  }

  // The next so many lengths go down by a number, or are zero.
  datatype Stretch = Stretch(count: nat, down: Option<nat>, rest: seq<bool>)

  ghost function NextStretch(code: seq<nat>, fix: nat, bits: seq<bool>): (s: Stretch)
    requires fix <= 1
    ensures s.count >= 1 && |s.rest| <= |bits|
  {
    var symbol, rest := NextSymbol(code, bits), AfterSymbol(code, bits);
    if symbol == 17 then Stretch(3 + Field(rest, 4) + fix, None, Skip(rest, 4))
    else if symbol == 18 then Stretch(19 + Field(rest, 6 - fix) + fix, None, Skip(rest, 6 - fix))
    else if symbol == 19 then
      var again := Skip(rest, 1);
      Stretch(Field(rest, 1) + 3 + fix, Some(NextSymbol(code, again)), AfterSymbol(code, again))
    else Stretch(1, Some(symbol), rest)
  }

  // Lengths are numbers from 0 to 16, and going down starts over from 16.
  function Lowered(length: nat, down: nat): nat
    requires down <= length + 17
  {
    (length + 17 - down) % 17
  }

  function Filled(lens: seq<nat>, pos: nat, n: nat, length: nat): (r: seq<nat>)
    requires pos + n <= |lens|
    ensures |r| == |lens|
  {
    lens[..pos] + Repeated(length, n) + lens[pos + n..]
  }

  // The lengths from pos to max.  All of a stretch are set to what its first one becomes.
  ghost function ReadLengths(code: seq<nat>, fix: nat, pos: nat, max: nat, lens: seq<nat>, bits: seq<bool>)
    : (r: Reading<seq<nat>>)
    requires fix <= 1 && max <= |lens|
    ensures r.Reading? ==> |r.value| == |lens| && |r.rest| <= |bits|
    decreases max - pos
  {
    if pos >= max then Reading(lens, bits)
    else if |bits| < TOKEN_BITS then Outside
    else
      var s := NextStretch(code, fix, bits);
      if s.down.Some? && s.down.value > lens[pos] + 17 then Outside
      else
        var n := Min(s.count, max - pos);
        var length := if s.down.Some? then Lowered(lens[pos], s.down.value) else 0;
        ReadLengths(code, fix, pos + n, max, Filled(lens, pos, n, length), s.rest)
  }

  lemma StretchIsRead(code: seq<nat>, fix: nat, pos: nat, max: nat, lens: seq<nat>, bits: seq<bool>)
    requires fix <= 1 && pos < max <= |lens| && |bits| >= TOKEN_BITS
    ensures var s := NextStretch(code, fix, bits);
      var n := Min(s.count, max - pos);
      ReadLengths(code, fix, pos, max, lens, bits) ==
        if s.down.Some? && s.down.value > lens[pos] + 17 then Outside
        else
          var length := if s.down.Some? then Lowered(lens[pos], s.down.value) else 0;
          ReadLengths(code, fix, pos + n, max, Filled(lens, pos, n, length), s.rest)
  {
    hide NextStretch, Filled, Lowered;
  }

  // One part: the lengths of the code for the lengths, and then those.
  ghost function ReadPart(fix: nat, pos: nat, max: nat, lens: seq<nat>, bits: seq<bool>): (r: Reading<seq<nat>>)
    requires fix <= 1 && max <= |lens|
    ensures r.Reading? ==> |r.value| == |lens| && |r.rest| <= |bits|
  {
    if |bits| < TOKEN_BITS then Outside
    else
      var code, rest := Fields(bits, 4, NUM_LENGTHS), AfterFields(bits, 4, NUM_LENGTHS);
      FieldsLength(bits, 4, NUM_LENGTHS);
      if !Room(code, LENGTH_TABLE_SIZE, LENGTH_ENTRIES) then Outside
      else if !Buildable(code, LENGTH_TABLE_SIZE) then Corrupt
      else ReadLengths(code, fix, pos, max, lens, rest)
  }

  ghost function ReadLiterals(lens: seq<nat>, bits: seq<bool>): (r: Reading<seq<nat>>)
    requires |lens| == NUM_LITERALS
    ensures r.Reading? ==> |r.value| == NUM_LITERALS && |r.rest| <= |bits|
  {
    match ReadPart(1, 0, 256, lens, bits)
    case Reading(first, rest) =>
      (match ReadPart(0, 256, NUM_LITERALS, first, rest)
       case Reading(both, rest') =>
         if !Room(both, LITERAL_TABLE_SIZE, LITERAL_ENTRIES) then Outside
         else if !Buildable(both, LITERAL_TABLE_SIZE) then Corrupt
         else Reading(both, rest')
       case r => r)
    case r => r
  }

  datatype Announced = Announced(codes: Codes, length: nat)

  // The length of the block, its highest byte first, and the literal lengths; coded in way 1, the block has
  // those of the one before.
  ghost function ReadBlockCodes(c: Codes, way: nat, bits: seq<bool>): (r: Reading<Announced>)
    requires |c.literalLens| == NUM_LITERALS
    ensures r.Reading? ==> |r.value.codes.literalLens| == NUM_LITERALS && |r.rest| <= |bits|
  {
    var bytes, rest := Fields(bits, 8, 3), AfterFields(bits, 8, 3);
    var length := 65536 * bytes[0] + 256 * bytes[1] + bytes[2];
    AfterFieldsShrink(bits, 8, 3);
    if way == 1 then
      if c.known then Reading(Announced(c, length), rest) else Outside
    else
      match ReadLiterals(c.literalLens, rest)
      case Reading(lens, rest') => Reading(Announced(c.(known := true, literalLens := lens), length), rest')
      case Corrupt => Corrupt
      case Outside => Outside
  }

  // How the block is coded; only way 3 is aligned, and has a code for the lowest bits of a distance.
  ghost function ReadCodes(c: Codes, bits: seq<bool>): (r: Reading<Announced>)
    requires |c.literalLens| == NUM_LITERALS
    ensures r.Reading? ==> |r.value.codes.literalLens| == NUM_LITERALS && |r.rest| <= |bits|
  {
    var way, rest := Field(bits, 3), Skip(bits, 3);
    if way == 3 then
      var offsets := Fields(rest, 3, NUM_OFFSETS);
      AfterFieldsShrink(rest, 3, NUM_OFFSETS);
      if !Buildable(offsets, OFFSET_TABLE_SIZE) then Corrupt
      else ReadBlockCodes(c.(aligned := true, offsetLens := offsets), way, AfterFields(rest, 3, NUM_OFFSETS))
    else ReadBlockCodes(c.(aligned := false), way, rest)
  }

  // A header, with enough input behind it for a token.
  ghost function ParseHeader(c: Codes, bits: seq<bool>): (r: Reading<Announced>)
    requires |c.literalLens| == NUM_LITERALS
    ensures r.Reading? ==> |r.value.codes.literalLens| == NUM_LITERALS && TOKEN_BITS <= |r.rest| <= |bits|
  {
    if |bits| < TOKEN_BITS then Outside
    else
      var r := ReadCodes(c, bits);
      if r.Reading? && |r.rest| < TOKEN_BITS then Outside else r
  }

  lemma {:induction false} AfterFieldsShrink(bits: seq<bool>, width: nat, n: nat)
    ensures |AfterFields(bits, width, n)| <= |bits|
  {
    if n > 0 { AfterFieldsShrink(bits, width, n - 1); }
  }

  lemma {:induction false} FieldsLength(bits: seq<bool>, width: nat, n: nat)
    requires n * width <= |bits|
    ensures |AfterFields(bits, width, n)| == |bits| - n * width
  {
    if n > 0 {
      assert n * width == (n - 1) * width + width;
      FieldsLength(bits, width, n - 1);
    }
  }

  // ---------------------------------------------------------------------------------------------
  // The lengths are read back
  // ---------------------------------------------------------------------------------------------

  function Down(length: nat, to: nat): (d: nat)
    requires length <= 16 && to <= 16
    ensures d <= 16 && Lowered(length, d) == to
  {
    (length + 17 - to) % 17
  }

  predicate AreLengths(lens: seq<nat>) {
    forall s | 0 <= s < |lens| :: lens[s] <= 16
  }

  // A code that can say by how much any length goes down.
  predicate SaysAll(code: seq<nat>) {
    forall d: nat | d <= 16 :: HasCode(code, MAX_LENGTH, d)
  }

  function CodeAt(code: seq<nat>, lens: seq<nat>, wanted: seq<nat>, pos: nat): seq<bool>
    requires SaysAll(code) && pos < |lens| == |wanted| && AreLengths(lens) && AreLengths(wanted)
  {
    var d := Down(lens[pos], wanted[pos]);
    assert HasCode(code, MAX_LENGTH, d);
    CodeWord(code, d)
  }

  // One symbol for each length, from pos on.
  function WrittenLengths(code: seq<nat>, lens: seq<nat>, wanted: seq<nat>, pos: nat, max: nat): seq<bool>
    requires SaysAll(code) && max <= |lens| == |wanted| && AreLengths(lens) && AreLengths(wanted)
    decreases max - pos
  {
    if pos >= max then [] else CodeAt(code, lens, wanted, pos) + WrittenLengths(code, lens, wanted, pos + 1, max)
  }

  // Any lengths can be announced after any others: what is written is read back.
  lemma {:induction false} LengthsReadBack(code: seq<nat>, fix: nat, pos: nat, max: nat, lens: seq<nat>,
                                           wanted: seq<nat>, rest: seq<bool>)
    requires SaysAll(code) && fix <= 1 && pos <= max <= |lens| == |wanted| && |rest| >= TOKEN_BITS
    requires AreLengths(lens) && AreLengths(wanted)
    ensures ReadLengths(code, fix, pos, max, lens, WrittenLengths(code, lens, wanted, pos, max) + rest)
         == Reading(lens[..pos] + wanted[pos..max] + lens[max..], rest)
    decreases max - pos
  {
    hide SaysAll, CodeWord, ReadLengths, CodeAt, AreLengths;
    if pos == max {
      NothingToRead(code, fix, max, lens, wanted, rest);
    } else {
      var lens' := lens[pos := wanted[pos]];
      var after := WrittenLengths(code, lens, wanted, pos + 1, max) + rest;
      Regroup(CodeAt(code, lens, wanted, pos), WrittenLengths(code, lens, wanted, pos + 1, max), rest);
      LengthIsRead(code, fix, pos, max, lens, wanted, after);
      StillLengths(lens, wanted, pos);
      WrittenFrom(code, lens, lens', wanted, pos + 1, max);
      LengthsReadBack(code, fix, pos + 1, max, lens', wanted, rest);
      SplicedOn(lens, wanted, pos, max);
    }
  }

  lemma NothingToRead(code: seq<nat>, fix: nat, max: nat, lens: seq<nat>, wanted: seq<nat>, rest: seq<bool>)
    requires SaysAll(code) && fix <= 1 && max <= |lens| == |wanted| && AreLengths(lens) && AreLengths(wanted)
    ensures ReadLengths(code, fix, max, max, lens, WrittenLengths(code, lens, wanted, max, max) + rest)
         == Reading(lens[..max] + wanted[max..max] + lens[max..], rest)
  {
    assert lens[..max] + wanted[max..max] + lens[max..] == lens;
    assert [] + rest == rest;
  }

  lemma Regroup(a: seq<bool>, b: seq<bool>, c: seq<bool>)
    ensures a + b + c == a + (b + c)
  {
  }

  lemma StillLengths(lens: seq<nat>, wanted: seq<nat>, pos: nat)
    requires pos < |lens| == |wanted| && AreLengths(lens) && AreLengths(wanted)
    ensures AreLengths(lens[pos := wanted[pos]])
  {
  }

  lemma SplicedOn(lens: seq<nat>, wanted: seq<nat>, pos: nat, max: nat)
    requires pos < max <= |lens| == |wanted|
    ensures var lens' := lens[pos := wanted[pos]];
      lens'[..pos + 1] + wanted[pos + 1..max] + lens'[max..] == lens[..pos] + wanted[pos..max] + lens[max..]
  {
  }

  lemma LengthIsRead(code: seq<nat>, fix: nat, pos: nat, max: nat, lens: seq<nat>, wanted: seq<nat>, after: seq<bool>)
    requires SaysAll(code) && fix <= 1 && pos < max <= |lens| == |wanted| && |after| >= TOKEN_BITS
    requires AreLengths(lens) && AreLengths(wanted)
    ensures ReadLengths(code, fix, pos, max, lens, CodeAt(code, lens, wanted, pos) + after)
         == ReadLengths(code, fix, pos + 1, max, lens[pos := wanted[pos]], after)
  {
    hide HasCode, CodeWord, Lowered, ReadLengths, NextStretch, Filled;
    var d := Down(lens[pos], wanted[pos]);
    assert HasCode(code, MAX_LENGTH, d);
    SymbolIsStretch(code, fix, d, after);
    StretchIsRead(code, fix, pos, max, lens, CodeAt(code, lens, wanted, pos) + after);
    FillOne(lens, pos, wanted[pos]);
  }

  lemma FillOne(lens: seq<nat>, pos: nat, length: nat)
    requires pos < |lens|
    ensures Filled(lens, pos, 1, length) == lens[pos := length]
  {
  }

  lemma SymbolIsStretch(code: seq<nat>, fix: nat, d: nat, after: seq<bool>)
    requires HasCode(code, MAX_LENGTH, d) && d <= 16 && fix <= 1 && |after| >= MAX_LENGTH
    ensures NextStretch(code, fix, CodeWord(code, d) + after) == Stretch(1, Some(d), after)
  {
    hide CodeWord, NextSymbol, AfterSymbol;
    ReadIsNext(code, d, CodeWord(code, d) + after, after);
  }

  lemma {:induction false} WrittenFrom(code: seq<nat>, lens: seq<nat>, lens': seq<nat>, wanted: seq<nat>, pos: nat,
                                       max: nat)
    requires SaysAll(code) && max <= |lens| == |wanted| == |lens'|
    requires AreLengths(lens) && AreLengths(lens') && AreLengths(wanted)
    requires lens[Min(pos, max)..] == lens'[Min(pos, max)..]
    ensures WrittenLengths(code, lens, wanted, pos, max) == WrittenLengths(code, lens', wanted, pos, max)
    decreases max - pos
  {
    hide SaysAll, CodeWord;
    if pos < max {
      assert lens[pos] == lens[pos..][0] == lens'[pos..][0] == lens'[pos];
      assert lens[pos + 1..] == lens[pos..][1..] && lens'[pos + 1..] == lens'[pos..][1..];
      WrittenFrom(code, lens, lens', wanted, pos + 1, max);
    }
  }

  // ---------------------------------------------------------------------------------------------
  // Reading a header through the register
  // ---------------------------------------------------------------------------------------------

  datatype Verdict = Fine | Flawed | Beyond

  // The outcome, and what was read if it is fine, is what the parser says.
  ghost predicate Agrees<T>(v: Verdict, r: Reading<T>, value: T, rest: seq<bool>) {
    match v
    case Fine => r == Reading(value, rest)
    case Flawed => r.Corrupt?
    case Beyond => r.Outside?
  }

  ghost predicate Buffered(reg: Register)
    reads reg
  {
    reg.Loaded() && |reg.readBuffer| % 2 == 0
  }

  // Whether less than a token, or a stretch, is left.
  method IsShort(reg: Register) returns (short: bool)
    requires reg.Valid() && |reg.readBuffer| % 2 == 0
    ensures short <==> |reg.Unread()| < TOKEN_BITS
  {
    FlatBitsLength(reg.source);
    short := 16 + reg.shift + 8 * |reg.source| < TOKEN_BITS;
  }

  method ReadFields(reg: Register, width: nat, n: nat) returns (vs: seq<nat>)
    requires Buffered(reg) && width <= 8 && |reg.Unread()| >= n * width + 16
    modifies reg`source, reg`control, reg`shift, reg`waiting
    ensures Buffered(reg) && |reg.Unread()| == old(|reg.Unread()|) - n * width
    ensures vs == Fields(old(reg.Unread()), width, n) && reg.Unread() == AfterFields(old(reg.Unread()), width, n)
    ensures forall i | 0 <= i < n :: vs[i] < Pow2(width)
  {
    hide Field, Skip, Pow2;
    ghost var bits := reg.Unread();
    vs := [];
    for i := 0 to n
      invariant Buffered(reg) && vs == Fields(bits, width, i) && reg.Unread() == AfterFields(bits, width, i)
      invariant forall j | 0 <= j < i :: vs[j] < Pow2(width)
    {
      FieldsLeft(bits, width, n, i);
      var v := ReadField(reg, width);
      vs := vs + [v];
    }
    FieldsLength(bits, width, n);
  }

  lemma FieldsLeft(bits: seq<bool>, width: nat, n: nat, i: nat)
    requires i < n && |bits| >= n * width + 16
    ensures |AfterFields(bits, width, i)| >= width + 16
  {
    hide AfterFields;
    OneMoreFits(i, n, width);
    FieldsLength(bits, width, i);
  }

  lemma OneMoreFits(i: nat, n: nat, width: nat)
    requires i < n
    ensures i * width + width <= n * width
  {
    assert (n - i - 1) * width >= 0;
    assert n * width == i * width + width + (n - i - 1) * width;
  }

  // A new table; nothing is left of the old one when it is used.
  method BuildTable(lens: seq<nat>, tableSize: nat, entries: nat) returns (table: seq<nat>, abort: bool)
    requires 1 <= tableSize < MAX_LENGTH && |lens| <= FirstNode(tableSize) && Room(lens, tableSize, entries)
    ensures !abort <==> Buildable(lens, tableSize)
    ensures !abort ==> |table| == entries && DecodesAll(lens, tableSize, table)
  {
    hide DecodesAll, Room, FirstNode, KraftUpTo;
    var entry := new nat[entries];
    abort := MakeDecodeTable(lens, tableSize, entry);
    table := entry[..];
  }

  // The decode table of the code for the lengths is ready.
  ghost predicate Ready(code: seq<nat>, table: seq<nat>) {
    |code| == NUM_LENGTHS && DecodesAll(code, LENGTH_TABLE_SIZE, table)
  }

  method ReadDown(reg: Register, code: seq<nat>, table: seq<nat>) returns (symbol: nat)
    requires Buffered(reg) && Ready(code, table) && |reg.Unread()| >= 32
    modifies reg`source, reg`control, reg`shift, reg`waiting
    ensures Buffered(reg) && symbol == NextSymbol(code, old(reg.Unread()))
    ensures reg.Unread() == AfterSymbol(code, old(reg.Unread())) && |reg.Unread()| >= old(|reg.Unread()|) - MAX_LENGTH
  {
    ghost var bits := reg.Unread();
    SmallPowers();
    hide NextSymbol, AfterSymbol, DecodesAll;
    symbol := ReadLength(reg, code, LENGTH_TABLE_SIZE, table);
    ReadIsNext(code, symbol, bits, reg.Unread());
  }

  // One symbol and what belongs to it.
  method ReadStretch(reg: Register, code: seq<nat>, table: seq<nat>, fix: nat)
    returns (count: nat, down: Option<nat>)
    requires Buffered(reg) && Ready(code, table) && |reg.Unread()| >= TOKEN_BITS && fix <= 1
    modifies reg`source, reg`control, reg`shift, reg`waiting
    ensures Buffered(reg) && Stretch(count, down, reg.Unread()) == NextStretch(code, fix, old(reg.Unread()))
  {
    hide NextSymbol, AfterSymbol, Ready, Field, Skip, Pow2;
    var symbol := ReadDown(reg, code, table);
    if symbol == 17 || symbol == 18 {
      var temp: nat;
      if symbol == 17 {
        temp, count := 4, 3;
      } else {
        temp, count := 6 - fix, 19;
      }
      var more := ReadField(reg, temp);
      count, down := count + more + fix, None;
    } else if symbol == 19 {
      count, down := ReadRun(reg, code, table, fix);
    } else {
      count, down := 1, Some(symbol);
    }
  }

  // What follows symbol 19: how often, and by how much the first length goes down.
  method ReadRun(reg: Register, code: seq<nat>, table: seq<nat>, fix: nat) returns (count: nat, down: Option<nat>)
    requires Buffered(reg) && Ready(code, table) && |reg.Unread()| >= 64 && fix <= 1
    modifies reg`source, reg`control, reg`shift, reg`waiting
    ensures Buffered(reg) && count == Field(old(reg.Unread()), 1) + 3 + fix
    ensures var again := Skip(old(reg.Unread()), 1);
      down == Some(NextSymbol(code, again)) && reg.Unread() == AfterSymbol(code, again)
  {
    hide NextSymbol, AfterSymbol, Ready, Field, Skip, Pow2;
    var more := ReadField(reg, 1);
    count := more + 3 + fix;
    var symbol := ReadDown(reg, code, table);
    down := Some(symbol);
  }

  const TABLE_FOUR: seq<nat> := [0, 1, 2, 3, 4, 5, 6, 7, 8, 9, 10, 11, 12, 13, 14, 15, 16,
                                 0, 1, 2, 3, 4, 5, 6, 7, 8, 9, 10, 11, 12, 13, 14, 15, 16]

  lemma TableFour(i: nat)
    requires i < 34
    ensures |TABLE_FOUR| == 34 && TABLE_FOUR[i] == i % 17
  {
  }

  // Set the next lengths, as far as the part goes.
  method Fill(lens: array<nat>, pos: nat, max: nat, count: nat, length: nat) returns (end: nat)
    requires pos <= max <= lens.Length
    modifies lens
    ensures end == pos + Min(count, max - pos)
    ensures lens[..] == Filled(old(lens[..]), pos, Min(count, max - pos), length)
  {
    var left := count;
    end := pos;
    while end < max && left > 0
      invariant pos <= end <= max && left == count - (end - pos)
      invariant forall i | 0 <= i < lens.Length ::
                  lens[i] == if pos <= i < end then length else old(lens[i])
    {
      lens[end] := length;
      end, left := end + 1, left - 1;
    }
  }

  method ReadLengthsOf(reg: Register, code: seq<nat>, table: seq<nat>, fix: nat, start: nat, max: nat, lens: array<nat>)
    returns (v: Verdict)
    requires Buffered(reg) && Ready(code, table) && fix <= 1 && start <= max <= lens.Length && AreLengths(lens[..])
    modifies reg`source, reg`control, reg`shift, reg`waiting, lens
    ensures Buffered(reg) && AreLengths(lens[..]) && !v.Flawed?
    ensures Agrees(v, ReadLengths(code, fix, start, max, old(lens[..]), old(reg.Unread())), lens[..], reg.Unread())
  {
    hide Ready, NextStretch, Filled, Lowered, ReadLengths;
    ghost var r := ReadLengths(code, fix, start, max, lens[..], reg.Unread());
    var pos := start;
    while pos < max
      invariant start <= pos <= max && Buffered(reg) && AreLengths(lens[..])
      invariant ReadLengths(code, fix, pos, max, lens[..], reg.Unread()) == r
    {
      NothingLeft(code, fix, pos, max, lens[..], reg.Unread());
      var short := IsShort(reg);
      if short { return Beyond; }
      StretchIsRead(code, fix, pos, max, lens[..], reg.Unread());
      var count, down := ReadStretch(reg, code, table, fix);
      var length := 0;
      if down.Some? {
        if down.value > lens[pos] + 17 { return Beyond; }
        LoweredIs(lens[pos], down.value);
        length := TABLE_FOUR[lens[pos] + 17 - down.value];
      }
      FilledLengths(lens[..], pos, Min(count, max - pos), length);
      pos := Fill(lens, pos, max, count, length);
    }
    NothingLeft(code, fix, pos, max, lens[..], reg.Unread());
    v := Fine;
  }

  lemma NothingLeft(code: seq<nat>, fix: nat, pos: nat, max: nat, lens: seq<nat>, bits: seq<bool>)
    requires fix <= 1 && max <= |lens|
    ensures pos >= max ==> ReadLengths(code, fix, pos, max, lens, bits) == Reading(lens, bits)
    ensures pos < max && |bits| < TOKEN_BITS ==> ReadLengths(code, fix, pos, max, lens, bits).Outside?
  {
  }

  lemma LoweredIs(length: nat, down: nat)
    requires length <= 16 && down <= length + 17
    ensures length + 17 - down < |TABLE_FOUR| && TABLE_FOUR[length + 17 - down] == Lowered(length, down) <= 16
  {
    TableFour(length + 17 - down);
  }

  lemma FilledLengths(lens: seq<nat>, pos: nat, n: nat, length: nat)
    requires AreLengths(lens) && pos + n <= |lens| && length <= 16
    ensures AreLengths(Filled(lens, pos, n, length))
  {
  }

  method ReadPartOf(reg: Register, fix: nat, start: nat, max: nat, lens: array<nat>) returns (v: Verdict)
    requires Buffered(reg) && fix <= 1 && start <= max <= lens.Length && AreLengths(lens[..])
    modifies reg`source, reg`control, reg`shift, reg`waiting, lens
    ensures Buffered(reg) && AreLengths(lens[..])
    ensures Agrees(v, ReadPart(fix, start, max, old(lens[..]), old(reg.Unread())), lens[..], reg.Unread())
  {
    SmallPowers();
    hide ReadLengths, Field, Skip, KraftUpTo, Nodes, DecodesAll, Pow2;
    var short := IsShort(reg);
    if short { return Beyond; }
    var code := ReadFields(reg, 4, NUM_LENGTHS);
    if !Room(code, LENGTH_TABLE_SIZE, LENGTH_ENTRIES) { return Beyond; }
    var table, abort := BuildTable(code, LENGTH_TABLE_SIZE, LENGTH_ENTRIES);
    if abort { return Flawed; }
    v := ReadLengthsOf(reg, code, table, fix, start, max, lens);
  }

  // Both parts, over the lengths of the block before, and the table of the literals.
  method ReadLiteralsOf(reg: Register, before: seq<nat>) returns (v: Verdict, lens: seq<nat>, table: seq<nat>)
    requires Buffered(reg) && |before| == NUM_LITERALS && AreLengths(before)
    modifies reg`source, reg`control, reg`shift, reg`waiting
    ensures Buffered(reg) && Agrees(v, ReadLiterals(before, old(reg.Unread())), lens, reg.Unread())
    ensures v.Fine? ==> |lens| == NUM_LITERALS && AreLengths(lens) && DecodesAll(lens, LITERAL_TABLE_SIZE, table)
  {
    SmallPowers();
    hide ReadPart, KraftUpTo, Nodes, DecodesAll, Pow2;
    lens, table := [], [];
    var literalLen := new nat[NUM_LITERALS](i requires 0 <= i < |before| => before[i]);
    assert literalLen[..] == before;
    v := ReadPartOf(reg, 1, 0, 256, literalLen);
    if !v.Fine? { return; }
    v := ReadPartOf(reg, 0, 256, NUM_LITERALS, literalLen);
    if !v.Fine? { return; }
    lens := literalLen[..];
    if !Room(lens, LITERAL_TABLE_SIZE, LITERAL_ENTRIES) { return Beyond, lens, []; }
    var abort;
    table, abort := BuildTable(lens, LITERAL_TABLE_SIZE, LITERAL_ENTRIES);
    v := if abort then Flawed else Fine;
  }

  // What is known of the codes and tables between blocks.
  ghost predicate Kept(b: Block) {
    && |b.codes.literalLens| == NUM_LITERALS && AreLengths(b.codes.literalLens)
    && (b.codes.known ==> DecodesAll(b.codes.literalLens, LITERAL_TABLE_SIZE, b.literalTable))
  }

  ghost predicate OffsetsReady(b: Block) {
    var c := b.codes;
    c.aligned ==>
      && |c.offsetLens| == NUM_OFFSETS && |b.offsetTable| == OFFSET_ENTRIES
      && (forall s | 0 <= s < NUM_OFFSETS :: c.offsetLens[s] <= OFFSET_TABLE_SIZE)
      && DecodesAll(c.offsetLens, OFFSET_TABLE_SIZE, b.offsetTable)
  }

  // The codes of a block that way 1 repeats, or that are read.
  method ReadBlockCodesOf(reg: Register, b: Block, way: nat) returns (v: Verdict, b': Block, length: nat)
    requires Buffered(reg) && Kept(b) && OffsetsReady(b) && |reg.Unread()| >= 40
    modifies reg`source, reg`control, reg`shift, reg`waiting
    ensures Buffered(reg)
    ensures Agrees(v, ReadBlockCodes(b.codes, way, old(reg.Unread())), Announced(b'.codes, length), reg.Unread())
    ensures v.Fine? ==> Kept(b') && ValidBlock(b') && length < 0x100_0000
  {
    SmallPowers();
    hide ReadLiterals, DecodesAll, Field, Skip, Pow2;
    b' := b;
    var bytes := ReadFields(reg, 8, 3);
    length := 65536 * bytes[0] + 256 * bytes[1] + bytes[2];
    if way == 1 {
      v := if b.codes.known then Fine else Beyond;
    } else {
      var lens, table;
      v, lens, table := ReadLiteralsOf(reg, b.codes.literalLens);
      if v.Fine? { b' := b.(codes := b.codes.(known := true, literalLens := lens), literalTable := table); }
    }
  }

  // The lengths of all codewords fit in the index: there is no second level.
  lemma {:induction false} NoNodes(lens: seq<nat>, tableSize: nat, d: nat, i: nat)
    requires 1 <= tableSize && d <= MAX_LENGTH && i <= |lens| && (forall s | 0 <= s < |lens| :: lens[s] <= tableSize)
    ensures Nodes(lens, tableSize, d, i) == 0
    decreases d, i
  {
    if d > tableSize {
      if i > 0 { NoNodes(lens, tableSize, d, i - 1); } else { NoNodes(lens, tableSize, d - 1, |lens|); }
    }
  }

  method ReadCodesOf(reg: Register, b: Block) returns (v: Verdict, b': Block, length: nat)
    requires Buffered(reg) && Kept(b) && |reg.Unread()| >= TOKEN_BITS
    modifies reg`source, reg`control, reg`shift, reg`waiting
    ensures Buffered(reg)
    ensures Agrees(v, ReadCodes(b.codes, old(reg.Unread())), Announced(b'.codes, length), reg.Unread())
    ensures v.Fine? ==> Kept(b') && ValidBlock(b') && length < 0x100_0000
  {
    SmallPowers();
    hide ReadBlockCodes, DecodesAll, Field, Skip, Pow2, KraftUpTo, Nodes, ValidBlock;
    b', length := b, 0;
    var way := ReadField(reg, 3);
    var now := b.(codes := b.codes.(aligned := false));
    if way == 3 {
      var lens := ReadFields(reg, 3, NUM_OFFSETS);
      NoNodes(lens, OFFSET_TABLE_SIZE, MAX_LENGTH, |lens|);
      var table, abort := BuildTable(lens, OFFSET_TABLE_SIZE, OFFSET_ENTRIES);
      if abort { return Flawed, b, 0; }
      now := b.(codes := b.codes.(aligned := true, offsetLens := lens), offsetTable := table);
    }
    v, b', length := ReadBlockCodesOf(reg, now, way);
  }

  // A header is read as the parser reads the flat bit string, and the tables decode its codes.
  method ReadHeader(reg: Register, b: Block) returns (v: Verdict, b': Block, length: nat)
    requires reg.Valid() && |reg.readBuffer| % 2 == 0 && Kept(b)
    modifies reg`source, reg`control, reg`shift, reg`waiting
    ensures reg.Valid() && Agrees(v, ParseHeader(b.codes, old(reg.Unread())), Announced(b'.codes, length), reg.Unread())
    ensures v.Fine? ==> reg.Loaded() && Kept(b') && ValidBlock(b') && length < 0x100_0000
  {
    hide ReadCodes, Kept, ValidBlock;
    b', length := b, 0;
    var short := IsShort(reg);
    if short { return Beyond, b, 0; }
    reg.Begin();
    assert |b.codes.literalLens| == NUM_LITERALS by { KeptLengths(b); }
    v, b', length := ReadCodesOf(reg, b);
    short := IsShort(reg);
    if v.Fine? && short { v := Beyond; }
  }

  lemma KeptLengths(b: Block)
    requires Kept(b)
    ensures |b.codes.literalLens| == NUM_LITERALS
  {
  }
}
