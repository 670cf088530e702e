// Canonical prefix codes: the codewords are determined by the code lengths alone, shorter ones first
// and equally long ones in the order of their symbols (as in section 3.2.2 of RFC 1951).

module Canonical {
  import opened Bits

  // The number of the next codeword of length d, when all shorter ones and those of length d for the
  // first i symbols have been handed out.  A length of 0 means that the symbol is not used.
  function Code(lens: seq<nat>, d: nat, i: nat): nat
    requires 1 <= d && i <= |lens|
    decreases d, i
  {
    if i > 0 then Code(lens, d, i - 1) + (if lens[i - 1] == d then 1 else 0)
    else if d == 1 then 0
    else 2 * Code(lens, d - 1, |lens|)
  }

  function CodeWord(lens: seq<nat>, s: nat): seq<bool>
    requires s < |lens| && 1 <= lens[s]
  {
    ToBits(Code(lens, lens[s], s), lens[s])
  }

  // The same position as a number of m bits: everything below it has been handed out.
  function Place(lens: seq<nat>, m: nat, d: nat, i: nat): nat
    requires 1 <= d <= m && i <= |lens|
  {
    Shl(Code(lens, d, i), m - d)
  }

  lemma PlaceNextLength(lens: seq<nat>, m: nat, d: nat)
    requires 1 <= d < m
    ensures Place(lens, m, d + 1, 0) == Place(lens, m, d, |lens|)
  {
  }

  lemma PlaceNextSymbol(lens: seq<nat>, m: nat, d: nat, i: nat)
    requires 1 <= d <= m && i < |lens|
    ensures Place(lens, m, d, i + 1) == Place(lens, m, d, i) + (if lens[i] == d then Pow2(m - d) else 0)
  {
    var c := Code(lens, d, i);
    assert Code(lens, d, i + 1) == c + (if lens[i] == d then 1 else 0);
    ShlAdd(c, 1, m - d);
    ShlPow2(0, m - d);
  }

  lemma PlaceStart(lens: seq<nat>, m: nat)
    requires 1 <= m
    ensures Place(lens, m, 1, 0) == 0
  {
    ShlAdd(0, 0, m - 1);
  }

  lemma {:induction false} PlaceMonotone(lens: seq<nat>, m: nat, d: nat, i: nat, d': nat, i': nat)
    requires 1 <= d <= d' <= m && i <= |lens| && i' <= |lens|
    requires d < d' || i <= i'
    ensures Place(lens, m, d, i) <= Place(lens, m, d', i')
    decreases d', i'
  {
    if d == d' && i == i' {
    } else if i' > 0 {
      PlaceNextSymbol(lens, m, d', i' - 1);
      PlaceMonotone(lens, m, d, i, d', i' - 1);
    } else {
      PlaceNextLength(lens, m, d' - 1);
      PlaceMonotone(lens, m, d, i, d' - 1, |lens|);
    }
  }

  // ---------------------------------------------------------------------------------------------
  // The Kraft sum
  // ---------------------------------------------------------------------------------------------

  // The Kraft sum of the codes of the first n symbols that are at most d bits long, in units of 2^-m.
  function Kraft(lens: seq<nat>, m: nat, d: nat, n: nat): nat
    requires d <= m && n <= |lens|
  {
    if n == 0 then 0
    else Kraft(lens, m, d, n - 1) + (if 1 <= lens[n - 1] <= d then Pow2(m - lens[n - 1]) else 0)
  }

  lemma {:induction false} KraftByLength(lens: seq<nat>, m: nat, d: nat, n: nat)
    requires 1 <= d <= m && n <= |lens|
    ensures Kraft(lens, m, d, n) == Kraft(lens, m, d - 1, n) + (Place(lens, m, d, n) - Place(lens, m, d, 0))
  {
    if n > 0 {
      KraftByLength(lens, m, d, n - 1);
      PlaceNextSymbol(lens, m, d, n - 1);
    }
  }

  lemma {:induction false} KraftZero(lens: seq<nat>, m: nat, n: nat)
    requires n <= |lens|
    ensures Kraft(lens, m, 0, n) == 0
  {
    if n > 0 {
      KraftZero(lens, m, n - 1);
    }
  }

  // The next free codeword is where the Kraft sum says it is.
  lemma {:induction false} PlaceIsKraft(lens: seq<nat>, m: nat, d: nat)
    requires 1 <= d <= m
    ensures Place(lens, m, d, |lens|) == Kraft(lens, m, d, |lens|)
  {
    KraftByLength(lens, m, d, |lens|);
    if d == 1 {
      PlaceStart(lens, m);
      KraftZero(lens, m, |lens|);
    } else {
      PlaceNextLength(lens, m, d - 1);
      PlaceIsKraft(lens, m, d - 1);
    }
  }

  // ---------------------------------------------------------------------------------------------
  // Codewords as ranges
  // ---------------------------------------------------------------------------------------------

  // The symbol has a codeword, and it fits below 2^m.
  predicate HasCode(lens: seq<nat>, m: nat, s: nat) {
    s < |lens| && 1 <= lens[s] <= m && Place(lens, m, lens[s], s) + Pow2(m - lens[s]) <= Pow2(m)
  }

  // Whether a codeword fits does not depend on the width of the numbers it is placed in.
  lemma FitsAnyWidth(lens: seq<nat>, m: nat, d: nat, i: nat)
    requires 1 <= d <= m && i <= |lens|
    ensures Place(lens, m, d, i) + Pow2(m - d) <= Pow2(m) <==> Code(lens, d, i) + 1 <= Pow2(d)
    ensures Place(lens, m, d, i) <= Pow2(m) <==> Code(lens, d, i) <= Pow2(d)
    ensures Place(lens, m, d, i) == Pow2(m) <==> Code(lens, d, i) == Pow2(d)
  {
    var c := Code(lens, d, i);
    ShlPow2(d, m - d);
    if c < Pow2(d) {
      ShlStrict(c, Pow2(d), m - d);
    }
    if c > Pow2(d) {
      ShlStrict(Pow2(d), c, m - d);
    }
  }

  lemma CodeInRange(lens: seq<nat>, m: nat, s: nat)
    requires HasCode(lens, m, s)
    ensures Code(lens, lens[s], s) < Pow2(lens[s])
    ensures Value(CodeWord(lens, s)) == Code(lens, lens[s], s)
  {
    var d, c := lens[s], Code(lens, lens[s], s);
    if c >= Pow2(d) {
      ShlBound(c, Pow2(d), m - d);
      ShlPow2(d, m - d);
    }
    ValueOfToBits(c, d);
  }

  // The m-bit numbers that start with a codeword are those from its place on.
  lemma CodeWordRange(lens: seq<nat>, m: nat, s: nat, r: seq<bool>)
    requires HasCode(lens, m, s) && |r| == m - lens[s]
    ensures Place(lens, m, lens[s], s) <= Value(CodeWord(lens, s) + r) < Place(lens, m, lens[s], s) + Pow2(m - lens[s])
  {
    CodeInRange(lens, m, s);
    ShlBits(CodeWord(lens, s), m - lens[s]);
    ValueRange(CodeWord(lens, s), r);
  }

  // No codeword is a prefix of another: at most one symbol's codeword starts any given bits.
  lemma CodeWordsPrefixFree(lens: seq<nat>, m: nat, s: nat, t: nat, w: seq<bool>)
    requires HasCode(lens, m, s) && HasCode(lens, m, t) && |w| == m
    requires CodeWord(lens, s) <= w && CodeWord(lens, t) <= w
    ensures s == t
  {
    CodeWordRange(lens, m, s, w[lens[s]..]);
    CodeWordRange(lens, m, t, w[lens[t]..]);
    assert CodeWord(lens, s) + w[lens[s]..] == w == CodeWord(lens, t) + w[lens[t]..];
    PlaceNextSymbol(lens, m, lens[s], s);
    PlaceNextSymbol(lens, m, lens[t], t);
    if lens[s] < lens[t] || (lens[s] == lens[t] && s < t) {
      PlaceMonotone(lens, m, lens[s], s + 1, lens[t], t);
    } else if s != t {
      PlaceMonotone(lens, m, lens[t], t + 1, lens[s], s);
    }
  }

  // When the code is complete every symbol that is used has a codeword.
  lemma CompleteHasCode(lens: seq<nat>, m: nat, s: nat)
    requires 1 <= m && Kraft(lens, m, m, |lens|) == Pow2(m) && s < |lens| && 1 <= lens[s] <= m
    ensures HasCode(lens, m, s)
  {
    PlaceIsKraft(lens, m, m);
    PlaceNextSymbol(lens, m, lens[s], s);
    PlaceMonotone(lens, m, lens[s], s + 1, m, |lens|);
  }

  // The symbol whose codeword covers the position v.
  lemma {:induction false} Covering(lens: seq<nat>, m: nat, d: nat, i: nat, v: nat) returns (s: nat)
    requires 1 <= d <= m && i <= |lens| && v < Place(lens, m, d, i)
    ensures s < |lens| && 1 <= lens[s] <= m
    ensures Place(lens, m, lens[s], s) <= v < Place(lens, m, lens[s], s) + Pow2(m - lens[s]) <= Place(lens, m, d, i)
    decreases d, i
  {
    if i == 0 {
      if d == 1 {
        PlaceStart(lens, m);
        assert false;
      } else {
        PlaceNextLength(lens, m, d - 1);
        s := Covering(lens, m, d - 1, |lens|, v);
      }
    } else {
      PlaceNextSymbol(lens, m, d, i - 1);
      if v < Place(lens, m, d, i - 1) {
        s := Covering(lens, m, d, i - 1, v);
      } else {
        s := i - 1;
      }
    }
  }

  // In a complete code some codeword starts any m bits.
  lemma SomeCodeWordStarts(lens: seq<nat>, m: nat, w: seq<bool>) returns (s: nat)
    requires 1 <= m && Kraft(lens, m, m, |lens|) == Pow2(m) && |w| == m
    ensures HasCode(lens, m, s) && CodeWord(lens, s) <= w
  {
    PlaceIsKraft(lens, m, m);
    ValueBound(w);
    s := Covering(lens, m, m, |lens|, Value(w));
    CompleteHasCode(lens, m, s);
    CodeInRange(lens, m, s);
    ShlBits(CodeWord(lens, s), m - lens[s]);
    PrefixByRange(CodeWord(lens, s), w);
  }

  // ---------------------------------------------------------------------------------------------
  // Where a codeword stands
  // ---------------------------------------------------------------------------------------------

  // The codewords that come before the one of length d at symbol i: the shorter ones, and those of the same
  // length for the symbols before i.
  predicate Precedes(lens: seq<nat>, t: nat, d: nat, i: nat)
    requires t < |lens|
  {
    1 <= lens[t] && (lens[t] < d || (lens[t] == d && t < i))
  }

  // What they weigh, over the first n symbols.
  function WeightBefore(lens: seq<nat>, m: nat, d: nat, i: nat, n: nat): nat
    requires d <= m && n <= |lens|
  {
    if n == 0 then 0
    else WeightBefore(lens, m, d, i, n - 1) + (if Precedes(lens, n - 1, d, i) then Pow2(m - lens[n - 1]) else 0)
  }

  lemma {:induction false} WeightNextSymbol(lens: seq<nat>, m: nat, d: nat, i: nat, n: nat)
    requires 1 <= d <= m && n <= |lens|
    ensures WeightBefore(lens, m, d, i + 1, n)
         == WeightBefore(lens, m, d, i, n) + (if i < n && lens[i] == d then Pow2(m - d) else 0)
  {
    hide Pow2;
    if n > 0 { WeightNextSymbol(lens, m, d, i, n - 1); }
  }

  lemma {:induction false} WeightNextLength(lens: seq<nat>, m: nat, d: nat, n: nat)
    requires 1 <= d < m && n <= |lens|
    ensures WeightBefore(lens, m, d + 1, 0, n) == WeightBefore(lens, m, d, |lens|, n)
  {
    hide Pow2;
    if n > 0 { WeightNextLength(lens, m, d, n - 1); }
  }

  lemma {:induction false} WeightAtFirst(lens: seq<nat>, m: nat, n: nat)
    requires 1 <= m && n <= |lens|
    ensures WeightBefore(lens, m, 1, 0, n) == 0
  {
    if n > 0 { WeightAtFirst(lens, m, n - 1); }
  }

  lemma {:induction false} PlaceIsWeight(lens: seq<nat>, m: nat, d: nat, i: nat)
    requires 1 <= d <= m && i <= |lens|
    ensures Place(lens, m, d, i) == WeightBefore(lens, m, d, i, |lens|)
    decreases d, i
  {
    hide Place, WeightBefore, Pow2;
    if i > 0 {
      PlaceIsWeight(lens, m, d, i - 1);
      PlaceNextSymbol(lens, m, d, i - 1);
      WeightNextSymbol(lens, m, d, i - 1, |lens|);
    } else if d > 1 {
      PlaceIsWeight(lens, m, d - 1, |lens|);
      PlaceNextLength(lens, m, d - 1);
      WeightNextLength(lens, m, d - 1, |lens|);
    } else {
      PlaceStart(lens, m);
      WeightAtFirst(lens, m, |lens|);
    }
  }

  // A codeword, as a number of m bits with zeros behind it, is the weight of the ones before it: shorter ones
  // come first, equally long ones in the order of their symbols, and there are no gaps.
  lemma CodeWordStands(lens: seq<nat>, m: nat, s: nat)
    requires HasCode(lens, m, s)
    ensures Value(CodeWord(lens, s) + Zeros(m - lens[s])) == WeightBefore(lens, m, lens[s], s, |lens|)
  {
    hide Place, WeightBefore, Pow2, CodeWord, Value;
    PlaceIsWeight(lens, m, lens[s], s);
    CodeWordPlaced(lens, m, s);
  }

  lemma CodeWordPlaced(lens: seq<nat>, m: nat, s: nat)
    requires HasCode(lens, m, s)
    ensures Value(CodeWord(lens, s) + Zeros(m - lens[s])) == Place(lens, m, lens[s], s)
  {
    CodeInRange(lens, m, s);
    ShlBits(CodeWord(lens, s), m - lens[s]);
  }
}
