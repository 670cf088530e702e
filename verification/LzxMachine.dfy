// The reference decoder for a whole packed entry of unlzx (external/unlzx/unlzx.c, stream_decrunch): a
// block header when the block is used up, and then a token, over and over.  What it does does not depend
// on the input behind, so that the program may take in the input piece by piece.

module LzxMachine {
  import opened Canonical
  import opened DecodeTable
  import opened History
  import opened LzxDecrunch
  import opened LzxHeader
  import opened Wrappers

  // ---------------------------------------------------------------------------------------------
  // Tokens
  // ---------------------------------------------------------------------------------------------

  lemma StartsMore(lens: seq<nat>, bits: seq<bool>, more: seq<bool>, s: nat)
    requires |bits| >= MAX_LENGTH
    ensures StartsWith(lens, bits + more, s) <==> StartsWith(lens, bits, s)
  {
    hide Place;
    if HasCode(lens, MAX_LENGTH, s) {
      var c := CodeWord(lens, s);
      assert |c| == lens[s] <= |bits|;
      assert (bits + more)[..|c|] == bits[..|c|];
    }
  }

  lemma OnlyOneStarts(lens: seq<nat>, bits: seq<bool>, s: nat, t: nat)
    requires |bits| >= MAX_LENGTH && StartsWith(lens, bits, s) && StartsWith(lens, bits, t)
    ensures s == t
  {
    hide Place, CodeWord;
    CodeLengths(lens, s, t);
    CodeWordsPrefixFree(lens, MAX_LENGTH, s, t, bits[..MAX_LENGTH]);
  }

  lemma CodeLengths(lens: seq<nat>, s: nat, t: nat)
    requires HasCode(lens, MAX_LENGTH, s) && HasCode(lens, MAX_LENGTH, t)
    ensures |CodeWord(lens, s)| == lens[s] <= MAX_LENGTH && |CodeWord(lens, t)| == lens[t] <= MAX_LENGTH
  {
  }

  lemma NextMore(lens: seq<nat>, bits: seq<bool>, more: seq<bool>)
    requires |bits| >= MAX_LENGTH
    ensures NextSymbol(lens, bits + more) == NextSymbol(lens, bits)
    ensures AfterSymbol(lens, bits + more) == AfterSymbol(lens, bits) + more
    ensures |AfterSymbol(lens, bits)| >= |bits| - MAX_LENGTH
  {
    var s := NextSymbol(lens, bits);
    if t: nat :| StartsWith(lens, bits, t) {
      StartsMore(lens, bits, more, s);
      var s' := NextSymbol(lens, bits + more);
      assert StartsWith(lens, bits + more, s');
      StartsMore(lens, bits, more, s');
      OnlyOneStarts(lens, bits, s, s');
      CodeLengths(lens, s, s);
      assert (bits + more)[lens[s]..] == bits[lens[s]..] + more;
    } else {
      forall t: nat ensures !StartsWith(lens, bits + more, t) { StartsMore(lens, bits, more, t); }
    }
  }

  lemma FieldMore(bits: seq<bool>, n: nat, more: seq<bool>)
    requires n <= |bits|
    ensures Field(bits + more, n) == Field(bits, n)
    ensures Skip(bits + more, n) == Skip(bits, n) + more && |Skip(bits, n)| == |bits| - n
  {
    hide Index;
    assert (bits + more)[..n] == bits[..n];
  }

  lemma SpreadMore(c: Codes, extra: nat, base: nat, bits: seq<bool>, last: nat, more: seq<bool>)
    requires extra <= 14 && |bits| >= 64
    ensures var (d, rest) := ParseSpread(c, extra, base, bits, last);
      ParseSpread(c, extra, base, bits + more, last) == (d, rest + more) && |rest| >= |bits| - 30
  {
    hide NextSymbol, AfterSymbol, Field, Skip;
    if extra >= 3 && c.aligned {
      FieldMore(bits, extra - 3, more);
      NextMore(c.offsetLens, Skip(bits, extra - 3), more);
    } else {
      FieldMore(bits, extra, more);
    }
  }

  // No token depends on the input behind it.
  lemma TokenMore(c: Codes, bits: seq<bool>, last: nat, more: seq<bool>)
    requires |bits| >= TOKEN_BITS
    ensures var p := ParseToken(c, bits, last);
      ParseToken(c, bits + more, last) == p.(rest := p.rest + more)
  {
    hide NextSymbol, AfterSymbol, ParseMatch;
    NextMore(c.literalLens, bits, more);
    var symbol, rest := NextSymbol(c.literalLens, bits), AfterSymbol(c.literalLens, bits);
    if symbol >= 256 { MatchMore(c, symbol - 256, rest, last, more); }
  }

  lemma MatchMore(c: Codes, symbol: nat, bits: seq<bool>, last: nat, more: seq<bool>)
    requires |bits| >= 64
    ensures var p := ParseMatch(c, symbol, bits, last);
      ParseMatch(c, symbol, bits + more, last) == p.(rest := p.rest + more)
  {
    hide Field, Skip, ParseSpread;
    var slot, lenSlot := symbol % 32, symbol / 32 % 16;
    SlotRange(slot);
    SlotRange(lenSlot);
    SpreadMore(c, TABLE_ONE[slot], TABLE_TWO[slot], bits, last, more);
    var rest := ParseSpread(c, TABLE_ONE[slot], TABLE_TWO[slot], bits, last).1;
    FieldMore(rest, TABLE_ONE[lenSlot], more);
  }

  // The same state with more input behind.
  function Behind(r: Reference, more: seq<bool>): Reference {
    if r.Broken? then Broken else r.(bits := r.bits + more)
  }

  lemma DecodeOneMore(c: Codes, r: Reference, more: seq<bool>)
    requires r.Reference? ==> |r.bits| >= TOKEN_BITS
    ensures DecodeOne(c, Behind(r, more)) == Behind(DecodeOne(c, r), more)
  {
    hide ParseToken, CopiedBack;
    if r.Reference? { TokenMore(c, r.bits, r.lastOffset, more); }
  }

  // ---------------------------------------------------------------------------------------------
  // Headers
  // ---------------------------------------------------------------------------------------------

  function After<T>(r: Reading<T>, more: seq<bool>): Reading<T> {
    if r.Reading? then r.(rest := r.rest + more) else r
  }

  lemma {:induction false} FieldsMore(bits: seq<bool>, width: nat, n: nat, more: seq<bool>)
    requires n * width <= |bits|
    ensures Fields(bits + more, width, n) == Fields(bits, width, n)
    ensures AfterFields(bits + more, width, n) == AfterFields(bits, width, n) + more
    ensures |AfterFields(bits, width, n)| == |bits| - n * width
  {
    hide Field, Skip;
    FieldsLength(bits, width, n);
    if n > 0 {
      OneMoreFits(n - 1, n, width);
      FieldsMore(bits, width, n - 1, more);
      FieldMore(AfterFields(bits, width, n - 1), width, more);
    }
  }

  lemma StretchMore(code: seq<nat>, fix: nat, bits: seq<bool>, more: seq<bool>)
    requires fix <= 1 && |bits| >= TOKEN_BITS
    ensures var s := NextStretch(code, fix, bits);
      NextStretch(code, fix, bits + more) == s.(rest := s.rest + more)
  {
    hide NextSymbol, AfterSymbol, Field, Skip;
    NextMore(code, bits, more);
    var symbol, rest := NextSymbol(code, bits), AfterSymbol(code, bits);
    FieldMore(rest, 4, more);
    FieldMore(rest, 6 - fix, more);
    FieldMore(rest, 1, more);
    NextMore(code, Skip(rest, 1), more);
  }

  lemma {:induction false} LengthsMore(code: seq<nat>, fix: nat, pos: nat, max: nat, lens: seq<nat>, bits: seq<bool>,
                                       more: seq<bool>)
    requires fix <= 1 && max <= |lens| && !ReadLengths(code, fix, pos, max, lens, bits).Outside?
    ensures ReadLengths(code, fix, pos, max, lens, bits + more)
         == After(ReadLengths(code, fix, pos, max, lens, bits), more)
    decreases max - pos
  {
    hide NextStretch, Filled, Lowered, ReadLengths;
    NothingLeft(code, fix, pos, max, lens, bits);
    NothingLeft(code, fix, pos, max, lens, bits + more);
    if pos < max {
      StretchIsRead(code, fix, pos, max, lens, bits);
      StretchIsRead(code, fix, pos, max, lens, bits + more);
      StretchMore(code, fix, bits, more);
      var s := NextStretch(code, fix, bits);
      var n := Min(s.count, max - pos);
      var length := if s.down.Some? then Lowered(lens[pos], s.down.value) else 0;
      LengthsMore(code, fix, pos + n, max, Filled(lens, pos, n, length), s.rest, more);
    }
  }

  lemma PartMore(fix: nat, pos: nat, max: nat, lens: seq<nat>, bits: seq<bool>, more: seq<bool>)
    requires fix <= 1 && max <= |lens| && !ReadPart(fix, pos, max, lens, bits).Outside?
    ensures ReadPart(fix, pos, max, lens, bits + more) == After(ReadPart(fix, pos, max, lens, bits), more)
  {
    hide ReadLengths, Fields, AfterFields, Room, Buildable;
    FieldsMore(bits, 4, NUM_LENGTHS, more);
    var code, rest := Fields(bits, 4, NUM_LENGTHS), AfterFields(bits, 4, NUM_LENGTHS);
    if !ReadLengths(code, fix, pos, max, lens, rest).Outside? { LengthsMore(code, fix, pos, max, lens, rest, more); }
  }

  lemma LiteralsMore(lens: seq<nat>, bits: seq<bool>, more: seq<bool>)
    requires |lens| == NUM_LITERALS && !ReadLiterals(lens, bits).Outside?
    ensures ReadLiterals(lens, bits + more) == After(ReadLiterals(lens, bits), more)
  {
    hide ReadPart, Room, Buildable;
    PartMore(1, 0, 256, lens, bits, more);
    var first := ReadPart(1, 0, 256, lens, bits);
    if first.Reading? { PartMore(0, 256, NUM_LITERALS, first.value, first.rest, more); }
  }

  lemma BlockCodesMore(c: Codes, way: nat, bits: seq<bool>, more: seq<bool>)
    requires |c.literalLens| == NUM_LITERALS && |bits| >= 24 && !ReadBlockCodes(c, way, bits).Outside?
    ensures ReadBlockCodes(c, way, bits + more) == After(ReadBlockCodes(c, way, bits), more)
  {
    hide ReadLiterals, Fields, AfterFields;
    FieldsMore(bits, 8, 3, more);
    if way != 1 { LiteralsMore(c.literalLens, AfterFields(bits, 8, 3), more); }
  }

  // No header depends on the input behind it.
  lemma HeaderMore(c: Codes, bits: seq<bool>, more: seq<bool>)
    requires |c.literalLens| == NUM_LITERALS && !ParseHeader(c, bits).Outside?
    ensures ParseHeader(c, bits + more) == After(ParseHeader(c, bits), more)
  {
    hide ReadBlockCodes, Fields, AfterFields, Field, Skip, Buildable;
    FieldMore(bits, 3, more);
    var way, rest := Field(bits, 3), Skip(bits, 3);
    if way == 3 {
      FieldsMore(rest, 3, NUM_OFFSETS, more);
      var offsets := Fields(rest, 3, NUM_OFFSETS);
      if Buildable(offsets, OFFSET_TABLE_SIZE) {
        BlockCodesMore(c.(aligned := true, offsetLens := offsets), way, AfterFields(rest, 3, NUM_OFFSETS), more);
      }
    } else {
      BlockCodesMore(c.(aligned := false), way, rest, more);
    }
  }

  // ---------------------------------------------------------------------------------------------
  // Headers that fit into what is there
  // ---------------------------------------------------------------------------------------------

  lemma {:induction false} LengthsFit(code: seq<nat>, fix: nat, pos: nat, max: nat, lens: seq<nat>, bits: seq<bool>,
                                      more: seq<bool>)
    requires fix <= 1 && max <= |lens| && |bits| >= TOKEN_BITS
    requires var r := ReadLengths(code, fix, pos, max, lens, bits + more);
      r.Corrupt? || (r.Reading? && |r.rest| >= |more| + TOKEN_BITS)
    ensures !ReadLengths(code, fix, pos, max, lens, bits).Outside?
    decreases max - pos
  {
    hide NextStretch, Filled, Lowered, ReadLengths;
    NothingLeft(code, fix, pos, max, lens, bits);
    if pos < max {
      StretchIsRead(code, fix, pos, max, lens, bits);
      StretchIsRead(code, fix, pos, max, lens, bits + more);
      StretchMore(code, fix, bits, more);
      var s := NextStretch(code, fix, bits);
      var n := Min(s.count, max - pos);
      var length := if s.down.Some? then Lowered(lens[pos], s.down.value) else 0;
      NeverCorrupt(code, fix, pos + n, max, Filled(lens, pos, n, length), s.rest + more);
      LengthsFit(code, fix, pos + n, max, Filled(lens, pos, n, length), s.rest, more);
    }
  }

  lemma {:induction false} NeverCorrupt(code: seq<nat>, fix: nat, pos: nat, max: nat, lens: seq<nat>, bits: seq<bool>)
    requires fix <= 1 && max <= |lens|
    ensures !ReadLengths(code, fix, pos, max, lens, bits).Corrupt?
    decreases max - pos
  {
    hide NextStretch, Filled, Lowered, ReadLengths;
    NothingLeft(code, fix, pos, max, lens, bits);
    if pos < max && |bits| >= TOKEN_BITS {
      StretchIsRead(code, fix, pos, max, lens, bits);
      var s := NextStretch(code, fix, bits);
      if s.down.None? || s.down.value <= lens[pos] + 17 {
        var n := Min(s.count, max - pos);
        var length := if s.down.Some? then Lowered(lens[pos], s.down.value) else 0;
        NeverCorrupt(code, fix, pos + n, max, Filled(lens, pos, n, length), s.rest);
      }
    }
  }

  // What a part, or a header, is with more behind, and how much that leaves.
  ghost predicate Leaves<T>(r: Reading<T>, more: seq<bool>) {
    r.Reading? && |r.rest| >= |more| + TOKEN_BITS
  }

  lemma PartFits(fix: nat, pos: nat, max: nat, lens: seq<nat>, bits: seq<bool>, more: seq<bool>)
    requires fix <= 1 && max <= |lens| && Leaves(ReadPart(fix, pos, max, lens, bits + more), more)
    ensures !ReadPart(fix, pos, max, lens, bits).Outside?
  {
    hide ReadLengths, Fields, AfterFields, Room, Buildable;
    FieldsMore(bits, 4, NUM_LENGTHS, more);
    var code, rest := Fields(bits, 4, NUM_LENGTHS), AfterFields(bits, 4, NUM_LENGTHS);
    LengthsFit(code, fix, pos, max, lens, rest, more);
  }

  lemma LiteralsFit(lens: seq<nat>, bits: seq<bool>, more: seq<bool>)
    requires |lens| == NUM_LITERALS && Leaves(ReadLiterals(lens, bits + more), more)
    ensures !ReadLiterals(lens, bits).Outside?
  {
    hide ReadPart, Room, Buildable;
    PartFits(1, 0, 256, lens, bits, more);
    PartMore(1, 0, 256, lens, bits, more);
    var first := ReadPart(1, 0, 256, lens, bits);
    PartFits(0, 256, NUM_LITERALS, first.value, first.rest, more);
    PartMore(0, 256, NUM_LITERALS, first.value, first.rest, more);
  }

  lemma BlockCodesFit(c: Codes, way: nat, bits: seq<bool>, more: seq<bool>)
    requires |c.literalLens| == NUM_LITERALS && |bits| >= 24 && Leaves(ReadBlockCodes(c, way, bits + more), more)
    ensures !ReadBlockCodes(c, way, bits).Outside?
  {
    hide ReadLiterals, Fields, AfterFields;
    FieldsMore(bits, 8, 3, more);
    if way != 1 { LiteralsFit(c.literalLens, AfterFields(bits, 8, 3), more); }
  }

  // A header that leaves enough of what is there is read, or found corrupt, without looking further.
  lemma HeaderFits(c: Codes, bits: seq<bool>, more: seq<bool>)
    requires |c.literalLens| == NUM_LITERALS && Leaves(ParseHeader(c, bits + more), more)
    ensures !ParseHeader(c, bits).Outside?
  {
    hide ReadBlockCodes, Fields, AfterFields, Field, Skip, Buildable;
    FieldMore(bits, 3, more);
    var way, rest := Field(bits, 3), Skip(bits, 3);
    if way == 3 {
      FieldsMore(rest, 3, NUM_OFFSETS, more);
      var c' := c.(aligned := true, offsetLens := Fields(rest, 3, NUM_OFFSETS));
      BlockCodesFit(c', way, AfterFields(rest, 3, NUM_OFFSETS), more);
      BlockCodesMore(c', way, AfterFields(rest, 3, NUM_OFFSETS), more);
    } else {
      BlockCodesFit(c.(aligned := false), way, rest, more);
      BlockCodesMore(c.(aligned := false), way, rest, more);
    }
  }

  // ---------------------------------------------------------------------------------------------
  // The machine
  // ---------------------------------------------------------------------------------------------

  // The decoder, the codes of the block, and how many bytes it has still to put out, in 32 bits.  It is
  // lost when the decoder is, or when a header cannot be read.
  datatype Machine = Machine(ref: Reference, codes: Codes, left: nat) | Halted

  ghost predicate Sane(m: Machine) {
    m.Machine? ==> m.ref.Reference? && |m.codes.literalLens| == NUM_LITERALS && m.left < TWO_TO_THE_32
  }

  ghost function At(r: Reference, codes: Codes, left: nat): Machine {
    if r.Broken? then Halted else Machine(r, codes, left)
  }

  function Start(bits: seq<bool>): (m: Machine)
    ensures Sane(m)
  {
    Machine(Reference([], bits, 1),
            Codes(false, false, Repeated(0, NUM_LITERALS), Repeated(0, NUM_OFFSETS)), 0)
  }

  // With the header read, if the block is used up.
  ghost function Opened(m: Machine): (o: Machine)
    requires Sane(m)
    ensures o.Machine? ==> o.ref.Reference? && |o.codes.literalLens| == NUM_LITERALS
  {
    if m.Halted? || m.left > 0 then m
    else
      match ParseHeader(m.codes, m.ref.bits)
      case Reading(a, rest) => Machine(m.ref.(bits := rest), a.codes, a.length)
      case _ => Halted
  }

  // What is left of a block when the decoder has gone on from r to r'.  A match may overshoot.
  function Less(left: nat, r: Reference, r': Reference): (n: nat)
    ensures n < TWO_TO_THE_32
  {
    if r.Broken? || r'.Broken? then 0 else (left - (|r'.history| - |r.history|)) % TWO_TO_THE_32
  }

  ghost function Step(m: Machine): (m': Machine)
    requires Sane(m)
    ensures Sane(m')
  {
    var o := Opened(m);
    if o.Halted? then Halted
    else
      var r := DecodeOne(o.codes, o.ref);
      At(r, o.codes, Less(o.left, o.ref, r))
  }

  ghost function Steps(m: Machine, n: nat): (m': Machine)
    requires Sane(m)
    ensures Sane(m')
  {
    if n == 0 then m else Step(Steps(m, n - 1))
  }

  lemma {:induction false} StepsSplit(m: Machine, n: nat, k: nat)
    requires Sane(m)
    ensures Steps(m, n + k) == Steps(Steps(m, n), k)
  {
    hide Step;
    if k > 0 { StepsSplit(m, n, k - 1); }
  }

  lemma DecodeOneGrows(c: Codes, r: Reference)
    ensures var r' := DecodeOne(c, r); r'.Reference? ==> r.Reference? && |r.history| <= |r'.history|
  {
    hide ParseToken, CopiedBack;
    if r.Reference? {
      var token := ParseToken(c, r.bits, r.lastOffset).token;
      if token.Match? && 1 <= token.distance <= |r.history| { CopiedExtends(r.history, token.distance, token.count); }
    }
  }

  lemma {:induction false} DecodeManyGrows(c: Codes, r: Reference, n: nat)
    ensures var r' := DecodeMany(c, r, n); r'.Reference? ==> r.Reference? && |r.history| <= |r'.history|
  {
    hide DecodeOne;
    if n > 0 {
      DecodeManyGrows(c, r, n - 1);
      DecodeOneGrows(c, DecodeMany(c, r, n - 1));
    }
  }

  lemma FirstStepIs(m: Machine)
    requires Sane(m) && Opened(m).Machine?
    ensures var o := Opened(m);
      var r := DecodeMany(o.codes, o.ref, 1);
      Steps(m, 1) == Step(m) == At(r, o.codes, Less(o.left, o.ref, r))
  {
    var o := Opened(m);
    hide DecodeOne, Opened;
    assert Steps(m, 0) == m;
    assert DecodeMany(o.codes, o.ref, 0) == o.ref;
  }

  lemma LessOn(left: nat, r: Reference, r': Reference, r'': Reference)
    requires r.Reference? && r'.Reference? && left < TWO_TO_THE_32
    requires |r.history| <= |r'.history| < |r.history| + left
    ensures Less(left, r, r') == left - (|r'.history| - |r.history|) > 0
    ensures r''.Reference? ==> Less(Less(left, r, r'), r', r'') == Less(left, r, r'')
  {
  }

  // Within a block no header is read.
  lemma StepOn(m: Machine)
    requires Sane(m) && m.Machine? && m.left > 0
    ensures var r := DecodeOne(m.codes, m.ref); Step(m) == At(r, m.codes, Less(m.left, m.ref, r))
  {
    hide DecodeOne;
  }

  // As long as a block is not used up, the machine is the decoder of the block.
  lemma {:induction false} BlockIsSteps(m: Machine, n: nat)
    requires Sane(m) && Opened(m).Machine? && n >= 1
    requires var o := Opened(m); o.left < TWO_TO_THE_32 && Unfilled(o.codes, o.ref, n, o.left)
    ensures var o := Opened(m);
      var r := DecodeMany(o.codes, o.ref, n);
      Steps(m, n) == At(r, o.codes, Less(o.left, o.ref, r))
  {
    hide DecodeOne, Opened, Less, Step, Unfilled;
    var o := Opened(m);
    if n == 1 {
      FirstStepIs(m);
    } else {
      UnfilledBefore(o.codes, o.ref, n, o.left);
      BlockIsSteps(m, n - 1);
      var r := DecodeMany(o.codes, o.ref, n - 1);
      if r.Reference? {
        LessOn(o.left, o.ref, r, DecodeOne(o.codes, r));
        StepOn(Steps(m, n - 1));
      } else {
        StepHalted();
        BrokenStays(o.codes);
      }
    }
  }

  lemma UnfilledBefore(c: Codes, r: Reference, n: nat, size: nat)
    requires Unfilled(c, r, n, size) && n > 1
    ensures Unfilled(c, r, n - 1, size)
    ensures var r' := DecodeMany(c, r, n - 1);
      r'.Reference? ==> r.Reference? && |r.history| <= |r'.history| < |r.history| + size
  {
    hide DecodeMany;
    DecodeManyGrows(c, r, n - 1);
  }

  lemma StepHalted()
    ensures Step(Halted) == Halted
  {
  }

  lemma BrokenStays(c: Codes)
    ensures DecodeOne(c, Broken) == Broken
  {
  }

  // ---------------------------------------------------------------------------------------------
  // More input changes nothing
  // ---------------------------------------------------------------------------------------------

  // There is enough input for the next step.
  ghost predicate HasInput(m: Machine)
    requires Sane(m)
  {
    m.Machine? ==> if m.left == 0 then ParseHeader(m.codes, m.ref.bits).Reading? else |m.ref.bits| >= TOKEN_BITS
  }

  ghost predicate FedFor(m: Machine, n: nat)
    requires Sane(m)
  {
    forall k: nat | k < n :: HasInput(Steps(m, k))
  }

  function MoreBehind(m: Machine, more: seq<bool>): Machine {
    if m.Halted? then Halted else m.(ref := Behind(m.ref, more))
  }

  lemma StepMore(m: Machine, more: seq<bool>)
    requires Sane(m) && HasInput(m)
    ensures Step(MoreBehind(m, more)) == MoreBehind(Step(m), more) && HasInput(MoreBehind(m, more))
  {
    hide DecodeOne, ParseHeader;
    if m.Machine? {
      if m.left == 0 { HeaderMore(m.codes, m.ref.bits, more); }
      var o := Opened(m);
      assert Opened(MoreBehind(m, more)) == MoreBehind(o, more);
      DecodeOneMore(o.codes, o.ref, more);
    }
  }

  lemma {:induction false} StepsMore(m: Machine, more: seq<bool>, n: nat)
    requires Sane(m) && FedFor(m, n)
    ensures Steps(MoreBehind(m, more), n) == MoreBehind(Steps(m, n), more) && FedFor(MoreBehind(m, more), n)
  {
    hide Step, HasInput;
    if n > 0 {
      StepsMore(m, more, n - 1);
      StepMore(Steps(m, n - 1), more);
    }
  }

  lemma UnfilledUpTo(c: Codes, r: Reference, n: nat, k: nat, size: nat)
    requires Unfilled(c, r, n, size) && k <= n
    ensures Unfilled(c, r, k, size)
  {
    hide DecodeMany;
  }

  lemma BlockHasInput(c: Codes, r: Reference, n: nat, k: nat, left: nat)
    requires Unfilled(c, r, n, left) && Ample(c, r, n) && 0 < k < n && left < TWO_TO_THE_32
    requires Sane(At(DecodeMany(c, r, k), c, Less(left, r, DecodeMany(c, r, k))))
    ensures HasInput(At(DecodeMany(c, r, k), c, Less(left, r, DecodeMany(c, r, k))))
  {
    hide DecodeMany, ParseHeader;
    DecodeManyGrows(c, r, k);
    if DecodeMany(c, r, k).Reference? { LessOn(left, r, DecodeMany(c, r, k), r); }
  }

  // The tokens of a block have the input they need.
  lemma BlockIsFed(m: Machine, n: nat)
    requires Sane(m) && HasInput(m)
    requires var o := Opened(m);
      o.Machine? ==> o.left < TWO_TO_THE_32 && Unfilled(o.codes, o.ref, n, o.left) && Ample(o.codes, o.ref, n)
    ensures FedFor(m, n)
  {
    var o := Opened(m);
    hide DecodeMany, ParseHeader, Opened, Step, Unfilled, Ample, Less, HasInput;
    forall k: nat | k < n ensures HasInput(Steps(m, k)) {
      if k > 0 {
        if o.Machine? {
          UnfilledUpTo(o.codes, o.ref, n, k, o.left);
          BlockIsSteps(m, k);
          BlockHasInput(o.codes, o.ref, n, k, o.left);
        } else {
          StaysHalted(m, k);
        }
      }
    }
  }

  lemma StepHalts(m: Machine)
    requires Sane(m) && Opened(m).Halted?
    ensures Step(m) == Halted
  {
  }

  lemma {:induction false} StaysHalted(m: Machine, n: nat)
    requires Sane(m) && Opened(m).Halted? && n >= 1
    ensures Steps(m, n) == Halted
  {
    hide Opened, Step;
    StepHalts(m);
    StepHalted();
    if n == 1 {
      assert Steps(m, 0) == m;
    } else {
      StaysHalted(m, n - 1);
    }
  }

  lemma FedOn(m: Machine, n: nat, k: nat)
    requires Sane(m) && FedFor(m, n) && FedFor(Steps(m, n), k)
    ensures FedFor(m, n + k)
  {
    hide HasInput, Steps;
    forall i: nat | i < n + k ensures HasInput(Steps(m, i)) {
      if i >= n {
        StepsSplit(m, n, i - n);
        assert HasInput(Steps(Steps(m, n), i - n));
      }
    }
  }
}
