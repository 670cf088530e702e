// What the headers of LZX blocks look like, and that they are read back (external/unlzx/unlzx.c,
// read_literal_table).

module LzxAnnounce {
  import opened Bits
  import opened Canonical
  import opened DecodeTable
  import opened LzxDecrunch
  import opened LzxHeader
  import opened LzxTokens
  import opened Wrappers

  // ---------------------------------------------------------------------------------------------
  // Pieces of the list of lengths
  // ---------------------------------------------------------------------------------------------

  // One length that goes down; a run of zeros, with a number of 4 bits, or of 5 or 6; and a run of one length,
  // with a number of one bit.
  datatype Piece = Lower(down: nat) | FewZeros(x: nat) | ManyZeros(x: nat) | Same(x: nat, down: nat)

  predicate HasPiece(code: seq<nat>, fix: nat, p: Piece)
    requires fix <= 1
  {
    match p
    case Lower(d) => d <= 16 && HasCode(code, MAX_LENGTH, d)
    case FewZeros(x) => x < 16 && HasCode(code, MAX_LENGTH, 17)
    case ManyZeros(x) => x < Pow2(6 - fix) && HasCode(code, MAX_LENGTH, 18)
    case Same(x, d) => x < 2 && HasCode(code, MAX_LENGTH, 19) && HasCode(code, MAX_LENGTH, d)
  }

  function PieceWord(code: seq<nat>, fix: nat, p: Piece): seq<bool>
    requires fix <= 1 && HasPiece(code, fix, p)
  {
    match p
    case Lower(d) => SymbolWord(code, d)
    case FewZeros(x) => SymbolWord(code, 17) + IndexBits(x, 4)
    case ManyZeros(x) => SymbolWord(code, 18) + IndexBits(x, 6 - fix)
    case Same(x, d) => SymbolWord(code, 19) + (IndexBits(x, 1) + SymbolWord(code, d))
  }

  // How many lengths a piece stands for; the first part counts one more in every run.
  function PieceCount(fix: nat, p: Piece): nat {
    match p
    case Lower(_) => 1
    case FewZeros(x) => 3 + fix + x
    case ManyZeros(x) => 19 + fix + x
    case Same(x, _) => 3 + fix + x
  }

  function PieceDown(p: Piece): Option<nat> {
    match p
    case Lower(d) => Some(d)
    case Same(_, d) => Some(d)
    case _ => None
  }

  lemma PieceReadsBack(code: seq<nat>, fix: nat, p: Piece, rest: seq<bool>)
    requires fix <= 1 && HasPiece(code, fix, p)
    ensures NextStretch(code, fix, PieceWord(code, fix, p) + rest) == Stretch(PieceCount(fix, p), PieceDown(p), rest)
  {
    SmallPowers();
    hide HasCode, SymbolWord, NextSymbol, AfterSymbol, IndexBits, Field, Skip, Pow2;
    match p {
      case Lower(d) => SymbolReadsBack(code, d, rest);
      case FewZeros(x) =>
        assert SymbolWord(code, 17) + IndexBits(x, 4) + rest == SymbolWord(code, 17) + (IndexBits(x, 4) + rest);
        SymbolReadsBack(code, 17, IndexBits(x, 4) + rest);
        NumberReadsBack(x, 4, rest);
      case ManyZeros(x) =>
        assert SymbolWord(code, 18) + IndexBits(x, 6 - fix) + rest
            == SymbolWord(code, 18) + (IndexBits(x, 6 - fix) + rest);
        SymbolReadsBack(code, 18, IndexBits(x, 6 - fix) + rest);
        NumberReadsBack(x, 6 - fix, rest);
      case Same(x, d) =>
        var again := SymbolWord(code, d) + rest;
        assert PieceWord(code, fix, p) + rest == SymbolWord(code, 19) + (IndexBits(x, 1) + again);
        SymbolReadsBack(code, 19, IndexBits(x, 1) + again);
        NumberReadsBack(x, 1, again);
        SymbolReadsBack(code, d, rest);
    }
  }

  // A piece sets the next lengths, as far as the part goes, to zero or to what the first of them becomes, and
  // leaves the others; reading goes on behind them.
  lemma PieceSets(code: seq<nat>, fix: nat, pos: nat, max: nat, lens: seq<nat>, p: Piece, rest: seq<bool>)
    returns (lens': seq<nat>)
    requires fix <= 1 && HasPiece(code, fix, p) && pos < max <= |lens| && |rest| >= TOKEN_BITS
    requires PieceDown(p).Some? ==> PieceDown(p).value <= lens[pos] + 17
    ensures |lens'| == |lens|
    ensures forall i | 0 <= i < |lens| ::
              lens'[i] == if i < pos || i >= pos + PieceCount(fix, p) || i >= max then lens[i]
                          else if PieceDown(p).None? then 0
                          else (lens[pos] + 17 - PieceDown(p).value) % 17
    ensures ReadLengths(code, fix, pos, max, lens, PieceWord(code, fix, p) + rest)
         == ReadLengths(code, fix, pos + Min(PieceCount(fix, p), max - pos), max, lens', rest)
  {
    hide HasPiece, PieceWord, NextStretch, ReadLengths;
    PieceReadsBack(code, fix, p, rest);
    StretchIsRead(code, fix, pos, max, lens, PieceWord(code, fix, p) + rest);
    var length := if PieceDown(p).Some? then Lowered(lens[pos], PieceDown(p).value) else 0;
    lens' := Filled(lens, pos, Min(PieceCount(fix, p), max - pos), length);
  }

  // ---------------------------------------------------------------------------------------------
  // Headers
  // ---------------------------------------------------------------------------------------------

  function WrittenFields(vs: seq<nat>, width: nat): seq<bool> {
    if vs == [] then [] else WrittenFields(vs[..|vs| - 1], width) + IndexBits(vs[|vs| - 1], width)
  }

  lemma {:induction false} FieldsReadBack(vs: seq<nat>, width: nat, rest: seq<bool>)
    requires forall i | 0 <= i < |vs| :: vs[i] < Pow2(width)
    ensures Fields(WrittenFields(vs, width) + rest, width, |vs|) == vs
    ensures AfterFields(WrittenFields(vs, width) + rest, width, |vs|) == rest
  {
    if vs == [] {
      assert WrittenFields(vs, width) + rest == rest;
    } else {
      hide Fields, AfterFields, WrittenFields, IndexBits, Pow2;
      var before, v := vs[..|vs| - 1], vs[|vs| - 1];
      var bits := WrittenFields(vs, width) + rest;
      FieldsBehind(vs, width, rest);
      FieldsReadBack(before, width, IndexBits(v, width) + rest);
      LastField(bits, width, before, v, rest);
      assert vs == before + [v];
    }
  }

  lemma LastField(bits: seq<bool>, width: nat, before: seq<nat>, v: nat, rest: seq<bool>)
    requires v < Pow2(width) && Fields(bits, width, |before|) == before
    requires AfterFields(bits, width, |before|) == IndexBits(v, width) + rest
    ensures Fields(bits, width, |before| + 1) == before + [v] && AfterFields(bits, width, |before| + 1) == rest
  {
    hide IndexBits, Field, Skip, Pow2;
    NumberReadsBack(v, width, rest);
  }

  lemma FieldsBehind(vs: seq<nat>, width: nat, rest: seq<bool>)
    requires vs != []
    ensures WrittenFields(vs, width) + rest
         == WrittenFields(vs[..|vs| - 1], width) + (IndexBits(vs[|vs| - 1], width) + rest)
  {
    hide IndexBits;
  }

  // The code lengths of a code for lengths, which must be able to say everything.
  ghost predicate LengthCode(code: seq<nat>) {
    && |code| == NUM_LENGTHS && (forall i | 0 <= i < NUM_LENGTHS :: code[i] < 16) && SaysAll(code)
    && Room(code, LENGTH_TABLE_SIZE, LENGTH_ENTRIES) && Buildable(code, LENGTH_TABLE_SIZE)
  }

  ghost function PartWord(code: seq<nat>, lens: seq<nat>, wanted: seq<nat>, pos: nat, max: nat): seq<bool>
    requires LengthCode(code) && max <= |lens| == |wanted| && AreLengths(lens) && AreLengths(wanted)
  {
    WrittenFields(code, 4) + WrittenLengths(code, lens, wanted, pos, max)
  }

  lemma PartReadsBack(code: seq<nat>, fix: nat, pos: nat, max: nat, lens: seq<nat>, wanted: seq<nat>, rest: seq<bool>)
    requires LengthCode(code) && fix <= 1 && pos <= max <= |lens| == |wanted| && |rest| >= TOKEN_BITS
    requires AreLengths(lens) && AreLengths(wanted)
    ensures ReadPart(fix, pos, max, lens, PartWord(code, lens, wanted, pos, max) + rest)
         == Reading(lens[..pos] + wanted[pos..max] + lens[max..], rest)
  {
    SmallPowers();
    hide SaysAll, AreLengths, Room, Buildable, Fields, AfterFields, WrittenFields, WrittenLengths, ReadLengths, Pow2;
    var behind := WrittenLengths(code, lens, wanted, pos, max) + rest;
    assert PartWord(code, lens, wanted, pos, max) + rest == WrittenFields(code, 4) + behind;
    FieldsReadBack(code, 4, behind);
    LengthsReadBack(code, fix, pos, max, lens, wanted, rest);
  }

  // The lengths that a block has, and the codes in which they are announced.
  datatype Literals = Literals(wanted: seq<nat>, first: seq<nat>, second: seq<nat>)

  ghost predicate HasLiterals(before: seq<nat>, l: Literals) {
    && |before| == |l.wanted| == NUM_LITERALS && AreLengths(before) && AreLengths(l.wanted)
    && LengthCode(l.first) && LengthCode(l.second)
    && Room(l.wanted, LITERAL_TABLE_SIZE, LITERAL_ENTRIES) && Buildable(l.wanted, LITERAL_TABLE_SIZE)
  }

  ghost function Halfway(before: seq<nat>, l: Literals): seq<nat>
    requires HasLiterals(before, l)
  {
    before[..0] + l.wanted[0..256] + before[256..]
  }

  lemma HalfwayAreLengths(before: seq<nat>, l: Literals)
    requires HasLiterals(before, l)
    ensures |Halfway(before, l)| == NUM_LITERALS && AreLengths(Halfway(before, l))
  {
  }

  ghost function LiteralsWord(before: seq<nat>, l: Literals): seq<bool>
    requires HasLiterals(before, l)
  {
    HalfwayAreLengths(before, l);
    PartWord(l.first, before, l.wanted, 0, 256) + PartWord(l.second, Halfway(before, l), l.wanted, 256, NUM_LITERALS)
  }

  lemma LiteralsReadBack(before: seq<nat>, l: Literals, rest: seq<bool>)
    requires HasLiterals(before, l) && |rest| >= TOKEN_BITS
    ensures ReadLiterals(before, LiteralsWord(before, l) + rest) == Reading(l.wanted, rest)
  {
    hide LengthCode, AreLengths, Room, Buildable, ReadPart, PartWord;
    var mid := Halfway(before, l);
    HalfwayAreLengths(before, l);
    var first := PartWord(l.first, before, l.wanted, 0, 256);
    var second := PartWord(l.second, mid, l.wanted, 256, NUM_LITERALS) + rest;
    assert LiteralsWord(before, l) + rest == first + second;
    PartReadsBack(l.first, 1, 0, 256, before, l.wanted, second);
    PartReadsBack(l.second, 0, 256, NUM_LITERALS, mid, l.wanted, rest);
    assert mid[..256] + l.wanted[256..NUM_LITERALS] + mid[NUM_LITERALS..] == l.wanted;
  }

  // Three bits say how the block is coded; in way 3 the code lengths of the offsets follow.  Then comes its
  // length, the highest byte first, and, but in way 1, the lengths of the literals.
  ghost predicate HasHeader(c: Codes, way: nat, offsets: seq<nat>, length: nat, l: Literals) {
    && way < 8 && length < 0x100_0000
    && (if way == 1 then c.known && |c.literalLens| == NUM_LITERALS else HasLiterals(c.literalLens, l))
    && (way == 3 ==> |offsets| == NUM_OFFSETS && (forall i | 0 <= i < NUM_OFFSETS :: offsets[i] < 8)
                     && Buildable(offsets, OFFSET_TABLE_SIZE))
  }

  function LengthWord(length: nat): seq<bool> {
    WrittenFields([length / 0x1_0000, length / 0x100 % 0x100, length % 0x100], 8)
  }

  ghost function BlockWord(c: Codes, way: nat, offsets: seq<nat>, length: nat, l: Literals): seq<bool>
    requires HasHeader(c, way, offsets, length, l)
  {
    LengthWord(length) + if way == 1 then [] else LiteralsWord(c.literalLens, l)
  }

  ghost function HeaderWord(c: Codes, way: nat, offsets: seq<nat>, length: nat, l: Literals): seq<bool>
    requires HasHeader(c, way, offsets, length, l)
  {
    IndexBits(way, 3)
    + ((if way == 3 then WrittenFields(offsets, 3) else []) + BlockWord(c, way, offsets, length, l))
  }

  function AnnouncedCodes(c: Codes, way: nat, offsets: seq<nat>, l: Literals): Codes {
    var aligned := if way == 3 then c.(aligned := true, offsetLens := offsets) else c.(aligned := false);
    if way == 1 then aligned else aligned.(known := true, literalLens := l.wanted)
  }

  lemma LengthBytes(length: nat)
    requires length < 0x100_0000
    ensures 0x1_0000 * (length / 0x1_0000) + 0x100 * (length / 0x100 % 0x100) + length % 0x100 == length
    ensures length / 0x1_0000 < 0x100
  {
    assert length / 0x100 == 0x100 * (length / 0x1_0000) + length / 0x100 % 0x100;
  }

  lemma LengthReadsBack(length: nat, rest: seq<bool>)
    requires length < 0x100_0000
    ensures var bytes := Fields(LengthWord(length) + rest, 8, 3);
      65536 * bytes[0] + 256 * bytes[1] + bytes[2] == length && AfterFields(LengthWord(length) + rest, 8, 3) == rest
  {
    SmallPowers();
    LengthBytes(length);
    hide Fields, AfterFields, WrittenFields, Pow2;
    FieldsReadBack([length / 0x1_0000, length / 0x100 % 0x100, length % 0x100], 8, rest);
  }

  lemma BlockReadsBack(c: Codes, way: nat, offsets: seq<nat>, length: nat, l: Literals, rest: seq<bool>, c': Codes)
    requires HasHeader(c, way, offsets, length, l) && |rest| >= TOKEN_BITS
    requires c'.known == c.known && c'.literalLens == c.literalLens && |c.literalLens| == NUM_LITERALS
    ensures ReadBlockCodes(c', way, BlockWord(c, way, offsets, length, l) + rest)
         == Reading(Announced(if way == 1 then c' else c'.(known := true, literalLens := l.wanted), length), rest)
  {
    hide HasLiterals, LiteralsWord, ReadLiterals, Fields, AfterFields, LengthWord, Buildable;
    if way == 1 {
      assert BlockWord(c, way, offsets, length, l) + rest == LengthWord(length) + rest;
      LengthReadsBack(length, rest);
    } else {
      var behind := LiteralsWord(c.literalLens, l) + rest;
      assert BlockWord(c, way, offsets, length, l) + rest == LengthWord(length) + behind;
      LengthReadsBack(length, behind);
      LiteralsReadBack(c.literalLens, l, rest);
    }
  }

  // Any block can be announced: what is written is read back, and what follows it is left.
  lemma HeaderReadsBack(c: Codes, way: nat, offsets: seq<nat>, length: nat, l: Literals, rest: seq<bool>)
    requires |c.literalLens| == NUM_LITERALS && HasHeader(c, way, offsets, length, l) && |rest| >= TOKEN_BITS
    ensures ParseHeader(c, HeaderWord(c, way, offsets, length, l) + rest)
         == Reading(Announced(AnnouncedCodes(c, way, offsets, l), length), rest)
  {
    SmallPowers();
    hide HasLiterals, BlockWord, ReadBlockCodes, Fields, AfterFields, WrittenFields, Buildable, IndexBits, Field, Skip;
    hide Pow2;
    var block := BlockWord(c, way, offsets, length, l) + rest;
    if way == 3 {
      assert HeaderWord(c, way, offsets, length, l) + rest == IndexBits(way, 3) + (WrittenFields(offsets, 3) + block);
      NumberReadsBack(way, 3, WrittenFields(offsets, 3) + block);
      FieldsReadBack(offsets, 3, block);
      BlockReadsBack(c, way, offsets, length, l, rest, c.(aligned := true, offsetLens := offsets));
    } else {
      assert [] + BlockWord(c, way, offsets, length, l) == BlockWord(c, way, offsets, length, l);
      assert HeaderWord(c, way, offsets, length, l) + rest == IndexBits(way, 3) + block;
      NumberReadsBack(way, 3, block);
      BlockReadsBack(c, way, offsets, length, l, rest, c.(aligned := false));
    }
  }
}
