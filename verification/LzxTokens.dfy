// What the tokens of an LZX block look like, and that they are read back (external/unlzx/unlzx.c, decrunch).
// A literal is a codeword.  A match is the codeword of a pair of slots, then the bits that say where in the
// range of the first slot its distance lies, then those for its length.

module LzxTokens {
  import opened Bits
  import opened Canonical
  import opened DecodeTable
  import opened History
  import opened LzxDecrunch

  lemma NumberReadsBack(v: nat, n: nat, rest: seq<bool>)
    requires v < Pow2(n)
    ensures Field(IndexBits(v, n) + rest, n) == v && Skip(IndexBits(v, n) + rest, n) == rest
  {
    hide Index, IndexBits;
    IndexOfIndexBits(v, n);
    assert (IndexBits(v, n) + rest)[..n] == IndexBits(v, n);
  }

  function SymbolWord(lens: seq<nat>, s: nat): seq<bool>
    requires HasCode(lens, MAX_LENGTH, s)
  {
    CodeWord(lens, s)
  }

  lemma SymbolReadsBack(lens: seq<nat>, s: nat, rest: seq<bool>)
    requires HasCode(lens, MAX_LENGTH, s)
    ensures NextSymbol(lens, SymbolWord(lens, s) + rest) == s && AfterSymbol(lens, SymbolWord(lens, s) + rest) == rest
  {
    ReadIsNext(lens, s, SymbolWord(lens, s) + rest, rest);
  }

  // ---------------------------------------------------------------------------------------------
  // Literals and matches
  // ---------------------------------------------------------------------------------------------

  lemma LiteralReadsBack(c: Codes, v: nat, rest: seq<bool>, last: nat)
    requires v < 256 && HasCode(c.literalLens, MAX_LENGTH, v)
    ensures ParseToken(c, SymbolWord(c.literalLens, v) + rest, last) == Parsed(Literal(v), rest, last)
  {
    SymbolReadsBack(c.literalLens, v, rest);
  }

  // The place in the range of a slot, which in an aligned block has its lowest three bits last, as a codeword.
  predicate HasPlace(c: Codes, slot: nat, x: nat) {
    && slot < 32 && x < Pow2(TABLE_ONE[slot])
    && (c.aligned && TABLE_ONE[slot] >= 3 ==> HasCode(c.offsetLens, MAX_LENGTH, x % 8))
  }

  function PlaceWord(c: Codes, slot: nat, x: nat): seq<bool>
    requires HasPlace(c, slot, x)
  {
    if c.aligned && TABLE_ONE[slot] >= 3
    then IndexBits(x / 8, TABLE_ONE[slot] - 3) + SymbolWord(c.offsetLens, x % 8)
    else IndexBits(x, TABLE_ONE[slot])
  }

  predicate HasMatch(c: Codes, slot: nat, lenSlot: nat, x: nat, y: nat) {
    && HasPlace(c, slot, x) && lenSlot < 16 && y < Pow2(TABLE_ONE[lenSlot])
    && HasCode(c.literalLens, MAX_LENGTH, 256 + slot + 32 * lenSlot)
  }

  function MatchWord(c: Codes, slot: nat, lenSlot: nat, x: nat, y: nat): seq<bool>
    requires HasMatch(c, slot, lenSlot, x, y)
  {
    SymbolWord(c.literalLens, 256 + slot + 32 * lenSlot) + (PlaceWord(c, slot, x) + IndexBits(y, TABLE_ONE[lenSlot]))
  }

  lemma PlaceReadsBack(c: Codes, slot: nat, x: nat, rest: seq<bool>, last: nat)
    requires HasPlace(c, slot, x)
    ensures var d := TABLE_TWO[slot] + x;
      ParseSpread(c, TABLE_ONE[slot], TABLE_TWO[slot], PlaceWord(c, slot, x) + rest, last)
      == (if d == 0 then last else d, rest)
  {
    hide HasCode, SymbolWord, IndexBits, Index, Field, Skip, NextSymbol, AfterSymbol, Pow2;
    SlotBound(slot);
    var n := TABLE_ONE[slot];
    if c.aligned && n >= 3 {
      EightTimes(n - 3);
      var low := SymbolWord(c.offsetLens, x % 8);
      NumberReadsBack(x / 8, n - 3, low + rest);
      SymbolReadsBack(c.offsetLens, x % 8, rest);
      assert PlaceWord(c, slot, x) + rest == IndexBits(x / 8, n - 3) + (low + rest);
    } else {
      NumberReadsBack(x, n, rest);
    }
  }

  // A match is read back whatever follows it; the distance zero stands for the one before.
  lemma MatchReadsBack(c: Codes, slot: nat, lenSlot: nat, x: nat, y: nat, rest: seq<bool>, last: nat)
    requires HasMatch(c, slot, lenSlot, x, y)
    ensures var d := if TABLE_TWO[slot] + x == 0 then last else TABLE_TWO[slot] + x;
      ParseToken(c, MatchWord(c, slot, lenSlot, x, y) + rest, last)
      == Parsed(Match(d, TABLE_TWO[lenSlot] + 3 + y), rest, d)
  {
    hide HasCode, SymbolWord, IndexBits, NextSymbol, AfterSymbol, Pow2, ParseMatch, PlaceWord;
    var symbol := 256 + slot + 32 * lenSlot;
    var length := IndexBits(y, TABLE_ONE[lenSlot]);
    var behind := PlaceWord(c, slot, x) + (length + rest);
    assert MatchWord(c, slot, lenSlot, x, y) + rest == SymbolWord(c.literalLens, symbol) + behind;
    SymbolReadsBack(c.literalLens, symbol, behind);
    PartsReadBack(c, slot, lenSlot, x, y, rest, last);
  }

  lemma PartsReadBack(c: Codes, slot: nat, lenSlot: nat, x: nat, y: nat, rest: seq<bool>, last: nat)
    requires HasPlace(c, slot, x) && lenSlot < 16 && y < Pow2(TABLE_ONE[lenSlot])
    ensures var d := if TABLE_TWO[slot] + x == 0 then last else TABLE_TWO[slot] + x;
      ParseMatch(c, slot + 32 * lenSlot, PlaceWord(c, slot, x) + (IndexBits(y, TABLE_ONE[lenSlot]) + rest), last)
      == Parsed(Match(d, TABLE_TWO[lenSlot] + 3 + y), rest, d)
  {
    hide HasCode, IndexBits, Field, Skip, Pow2, ParseSpread, PlaceWord;
    SlotsOf(slot, lenSlot);
    PlaceReadsBack(c, slot, x, IndexBits(y, TABLE_ONE[lenSlot]) + rest, last);
    NumberReadsBack(y, TABLE_ONE[lenSlot], rest);
  }

  lemma SlotsOf(slot: nat, lenSlot: nat)
    requires slot < 32 && lenSlot < 16
    ensures (slot + 32 * lenSlot) % 32 == slot && (slot + 32 * lenSlot) / 32 % 16 == lenSlot
  {
  }

  // ---------------------------------------------------------------------------------------------
  // Every token can be sent
  // ---------------------------------------------------------------------------------------------

  // Every number below 65536 lies in the range of a slot, and every one below 256 in that of a small one.
  lemma {:induction false} SlotFor(d: nat, from: nat) returns (slot: nat)
    requires from < 32 && TABLE_TWO[from] <= d < SPAN
    ensures from <= slot < 32 && TABLE_TWO[slot] <= d < TABLE_TWO[slot] + Pow2(TABLE_ONE[slot])
    ensures from < 16 && d < 256 ==> slot < 16
    decreases 32 - from
  {
    SlotRange(from);
    SlotBound(from);
    if d < TABLE_TWO[from] + Pow2(TABLE_ONE[from]) {
      slot := from;
    } else {
      slot := SlotFor(d, from + 1);
    }
  }

  // A block in which every symbol has a codeword.
  ghost predicate SendsAll(c: Codes) {
    && (forall s: nat | s < NUM_LITERALS :: HasCode(c.literalLens, MAX_LENGTH, s))
    && (c.aligned ==> forall s: nat | s < NUM_OFFSETS :: HasCode(c.offsetLens, MAX_LENGTH, s))
  }

  predicate IsToken(token: Token) {
    match token
    case Literal(v) => v < 256
    case Match(d, n) => 1 <= d < SPAN && 3 <= n <= EDGE
  }

  function LastAfter(token: Token, last: nat): nat {
    if token.Match? then token.distance else last
  }

  // Its word is read back whatever follows it.
  ghost predicate Sends(c: Codes, word: seq<bool>, token: Token) {
    forall rest: seq<bool>, last: nat ::
      ParseToken(c, word + rest, last) == Parsed(token, rest, LastAfter(token, last))
  }

  // Every literal, and every distance from 1 to 65535 with every length from 3 to 258, can be sent.
  lemma EveryTokenCanBeSent(c: Codes, token: Token) returns (word: seq<bool>)
    requires SendsAll(c) && IsToken(token)
    ensures Sends(c, word, token)
  {
    hide HasCode, SymbolWord, ParseToken, MatchWord, Pow2;
    match token {
      case Literal(v) =>
        word := SymbolWord(c.literalLens, v);
        forall rest: seq<bool>, last: nat
          ensures ParseToken(c, word + rest, last) == Parsed(token, rest, last)
        {
          LiteralReadsBack(c, v, rest, last);
        }
      case Match(d, n) =>
        var slot := SlotFor(d, 0);
        var lenSlot := SlotFor(n - 3, 0);
        var x, y := d - TABLE_TWO[slot], n - 3 - TABLE_TWO[lenSlot];
        word := MatchWord(c, slot, lenSlot, x, y);
        forall rest: seq<bool>, last: nat
          ensures ParseToken(c, word + rest, last) == Parsed(token, rest, d)
        {
          MatchReadsBack(c, slot, lenSlot, x, y, rest, last);
        }
    }
  }

  // What tokens stand for.
  ghost predicate CanExpand(history: seq<byte>, tokens: seq<Token>)
    decreases |tokens|, 0
  {
    tokens == [] ||
    (var before := tokens[..|tokens| - 1];
     var token := tokens[|tokens| - 1];
     && CanExpand(history, before) && IsToken(token)
     && (token.Match? ==> token.distance <= |Expanded(history, before)|))
  }

  ghost function Expanded(history: seq<byte>, tokens: seq<Token>): seq<byte>
    requires CanExpand(history, tokens)
    decreases |tokens|, 1
  {
    if tokens == [] then history
    else
      var sofar := Expanded(history, tokens[..|tokens| - 1]);
      match tokens[|tokens| - 1]
      case Literal(v) => sofar + [v]
      case Match(d, n) => CopiedBack(sofar, d, n)
  }

  ghost function LastOf(tokens: seq<Token>, last: nat): nat {
    if tokens == [] then last else LastAfter(tokens[|tokens| - 1], LastOf(tokens[..|tokens| - 1], last))
  }

  ghost predicate SendsThem(c: Codes, words: seq<bool>, history: seq<byte>, tokens: seq<Token>)
    requires CanExpand(history, tokens)
  {
    forall rest: seq<bool>, last: nat ::
      DecodeMany(c, Reference(history, words + rest, last), |tokens|)
      == Reference(Expanded(history, tokens), rest, LastOf(tokens, last))
  }

  // Any tokens can be sent one after the other: the reference decoder makes of them what they stand for.
  lemma {:induction false} TokensAreDecoded(c: Codes, history: seq<byte>, tokens: seq<Token>) returns (words: seq<bool>)
    requires SendsAll(c) && CanExpand(history, tokens)
    ensures SendsThem(c, words, history, tokens)
  {
    hide SendsAll, ParseToken, CopiedBack;
    words := [];
    if tokens == [] {
      forall rest: seq<bool> ensures [] + rest == rest { }
    } else {
      var before, token := tokens[..|tokens| - 1], tokens[|tokens| - 1];
      var first := TokensAreDecoded(c, history, before);
      var word := EveryTokenCanBeSent(c, token);
      words := first + word;
      forall rest: seq<bool>, last: nat
        ensures DecodeMany(c, Reference(history, words + rest, last), |tokens|)
             == Reference(Expanded(history, tokens), rest, LastOf(tokens, last))
      {
        assert words + rest == first + (word + rest);
        assert DecodeMany(c, Reference(history, first + (word + rest), last), |before|)
            == Reference(Expanded(history, before), word + rest, LastOf(before, last));
      }
    }
  }
}
