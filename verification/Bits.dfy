// Bit strings and the numbers they spell, most significant bit first.

module Bits {
  import opened Wrappers

  type byte = b: int | 0 <= b < 256

  function Pow2(n: nat): (p: nat)
    ensures 0 < p
  {
    if n == 0 then 1 else 2 * Pow2(n - 1)
  }

  lemma {:induction false} Pow2Monotone(m: nat, n: nat)
    requires m <= n
    ensures Pow2(m) <= Pow2(n)
  {
    if m < n {
      Pow2Monotone(m, n - 1);
    }
  }

  function BitOf(b: bool): nat {
    if b then 1 else 0
  }

  function Value(bs: seq<bool>): (v: nat) {
    if bs == [] then 0 else 2 * Value(bs[..|bs| - 1]) + BitOf(bs[|bs| - 1])
  }

  lemma ValueSnoc(bs: seq<bool>, b: bool)
    ensures Value(bs + [b]) == 2 * Value(bs) + BitOf(b)
  {
    assert (bs + [b])[..|bs|] == bs;
  }

  // The n low bits of v.
  function ToBits(v: nat, n: nat): (bs: seq<bool>)
    ensures |bs| == n
  {
    if n == 0 then [] else ToBits(v / 2, n - 1) + [v % 2 == 1]
  }

  lemma {:induction false} ValueBound(bs: seq<bool>)
    ensures Value(bs) < Pow2(|bs|)
  {
    if bs != [] {
      ValueBound(bs[..|bs| - 1]);
    }
  }

  lemma {:induction false} ValueOfToBits(v: nat, n: nat)
    requires v < Pow2(n)
    ensures Value(ToBits(v, n)) == v
  {
    if n > 0 {
      ValueOfToBits(v / 2, n - 1);
      ValueSnoc(ToBits(v / 2, n - 1), v % 2 == 1);
    }
  }

  lemma {:induction false} ToBitsOfValue(bs: seq<bool>)
    ensures ToBits(Value(bs), |bs|) == bs
  {
    if bs != [] {
      var init, last := bs[..|bs| - 1], bs[|bs| - 1];
      ToBitsOfValue(init);
      assert Value(bs) / 2 == Value(init);
      assert bs == init + [last];
    }
  }

  // A bit string is determined by its length and value.
  lemma ValueInjective(a: seq<bool>, b: seq<bool>)
    requires |a| == |b| && Value(a) == Value(b)
    ensures a == b
  {
    ToBitsOfValue(a);
    ToBitsOfValue(b);
  }

  lemma {:induction false} ValueCons(b: bool, t: seq<bool>)
    ensures Value([b] + t) == (if b then Pow2(|t|) else 0) + Value(t)
  {
    var bs := [b] + t;
    if t == [] {
      assert bs[..0] == [];
    } else {
      ValueCons(b, t[..|t| - 1]);
      assert bs[..|bs| - 1] == [b] + t[..|t| - 1];
    }
  }

  function Zeros(n: nat): (bs: seq<bool>)
    ensures |bs| == n
  {
    seq(n, i => false)
  }

  lemma {:induction false} ValueZerosFirst(n: nat, bs: seq<bool>)
    ensures Value(Zeros(n) + bs) == Value(bs)
  {
    if n == 0 {
      assert Zeros(n) + bs == bs;
    } else {
      assert Zeros(n) + bs == [false] + (Zeros(n - 1) + bs);
      ValueCons(false, Zeros(n - 1) + bs);
      ValueZerosFirst(n - 1, bs);
    }
  }

  // v >> k
  function Shr(v: nat, k: nat): nat {
    if k == 0 then v else Shr(v / 2, k - 1)
  }

  lemma {:induction false} ShrBits(bs: seq<bool>, k: nat)
    requires k <= |bs|
    ensures Shr(Value(bs), k) == Value(bs[..|bs| - k])
  {
    if k == 0 {
      assert bs[..|bs|] == bs;
    } else {
      var init := bs[..|bs| - 1];
      ShrBits(init, k - 1);
      assert init[..|init| - (k - 1)] == bs[..|bs| - k];
    }
  }

  // v << k, without truncation
  function Shl(v: nat, k: nat): nat
    decreases k
  {
    if k == 0 then v else Shl(2 * v, k - 1)
  }

  lemma {:induction false} ShlAdd(a: nat, b: nat, k: nat)
    ensures Shl(a + b, k) == Shl(a, k) + Shl(b, k)
    decreases k
  {
    if k > 0 {
      ShlAdd(2 * a, 2 * b, k - 1);
    }
  }

  lemma {:induction false} ShlPow2(j: nat, k: nat)
    ensures Shl(Pow2(j), k) == Pow2(j + k)
    decreases k
  {
    if k > 0 {
      ShlPow2(j + 1, k - 1);
    }
  }

  lemma {:induction false} ShlZero(k: nat)
    ensures Shl(0, k) == 0
    decreases k
  {
    if k > 0 {
      ShlZero(k - 1);
    }
  }

  lemma ShlOne(k: nat)
    ensures Shl(1, k) == Pow2(k)
  {
    ShlPow2(0, k);
  }

  lemma {:induction false} ShlShl(v: nat, j: nat, k: nat)
    ensures Shl(Shl(v, j), k) == Shl(v, j + k)
    decreases j
  {
    if j > 0 {
      ShlShl(2 * v, j - 1, k);
    }
  }

  lemma {:induction false} ShlBits(bs: seq<bool>, k: nat)
    ensures Shl(Value(bs), k) == Value(bs + Zeros(k))
    decreases k
  {
    if k == 0 {
      assert bs + Zeros(0) == bs;
    } else {
      assert (bs + [false])[..|bs|] == bs;
      ShlBits(bs + [false], k - 1);
      assert bs + [false] + Zeros(k - 1) == bs + Zeros(k);
    }
  }

  lemma {:induction false} ShlBound(v: nat, w: nat, k: nat)
    requires v >= w
    ensures Shl(v, k) >= Shl(w, k)
    decreases k
  {
    if k > 0 {
      ShlBound(2 * v, 2 * w, k - 1);
    }
  }

  lemma {:induction false} ShlStrict(v: nat, w: nat, k: nat)
    requires v < w
    ensures Shl(v, k) + Pow2(k) <= Shl(w, k)
    decreases k
  {
    if k > 0 {
      ShlStrict(2 * v, 2 * w - 1, k - 1);
      ShlAdd(2 * w - 1, 1, k - 1);
      ShlPow2(0, k - 1);
    }
  }

  // Bit strings that extend bs to the right by k bits spell exactly the numbers from bs followed by
  // zeros up to, but not including, that plus 2^k.
  lemma {:induction false} ValueRange(bs: seq<bool>, r: seq<bool>)
    ensures Value(bs + Zeros(|r|)) <= Value(bs + r) < Value(bs + Zeros(|r|)) + Pow2(|r|)
  {
    if r == [] {
      assert bs + Zeros(0) == bs && bs + r == bs;
    } else {
      var k := |r| - 1;
      ValueRange(bs, r[..k]);
      assert (bs + r)[..|bs| + k] == bs + r[..k];
      assert (bs + Zeros(|r|))[..|bs| + k] == bs + Zeros(k);
    }
  }

  // The d-th bit of a number that is |bs| bits wide.
  lemma BitAt(bs: seq<bool>, d: nat)
    requires d < |bs|
    ensures Shr(Value(bs), |bs| - 1 - d) % 2 == BitOf(bs[d])
  {
    hide Shr, Pow2;
    var top := bs[..d + 1];
    ShrBits(bs, |bs| - 1 - d);
    assert top == bs[..d] + [bs[d]];
    ValueSnoc(bs[..d], bs[d]);
    hide Value;
    EvenOrOdd(Value(bs[..d]), bs[d]);
  }

  lemma EvenOrOdd(v: nat, b: bool)
    ensures (2 * v + BitOf(b)) % 2 == BitOf(b)
  {
  }

  lemma Pow2Of32()
    ensures Pow2(32) == TWO_TO_THE_32
  {
    assert Pow2(8) == 0x100;
    assert Pow2(16) == 0x1_0000;
    assert Pow2(24) == 0x100_0000;
  }

  // v << k in 32 bits
  function Shl32(v: nat, k: nat): nat
    decreases k
  {
    if k == 0 then v else Shl32(2 * v % TWO_TO_THE_32, k - 1)
  }

  lemma DoubledBits(bs: seq<bool>)
    requires |bs| == 32
    ensures 2 * Value(bs) % TWO_TO_THE_32 == Value(bs[1..] + [false])
  {
    hide Value, Pow2;
    var next := bs[1..] + [false];
    ValueSnoc(bs, false);
    assert bs + [false] == [bs[0]] + next;
    ValueCons(bs[0], next);
    ValueBound(next);
    Pow2Of32();
  }

  lemma {:induction false} Shl32Bits(bs: seq<bool>, k: nat)
    requires |bs| == 32 && k <= 32
    ensures Shl32(Value(bs), k) == Value(bs[k..] + Zeros(k))
    decreases k
  {
    if k == 0 {
      assert bs[0..] + Zeros(0) == bs;
    } else {
      var next := bs[1..] + [false];
      DoubledBits(bs);
      Shl32Bits(next, k - 1);
      assert next[k - 1..] + Zeros(k - 1) == bs[k..] + Zeros(k);
    }
  }

  // The bitwise or of two numbers.
  function Or(a: nat, b: nat): nat {
    if a == 0 then b
    else if b == 0 then a
    else 2 * Or(a / 2, b / 2) + (if a % 2 == 1 || b % 2 == 1 then 1 else 0)
  }

  lemma {:induction false} OrBits(x: seq<bool>, y: seq<bool>, z: seq<bool>)
    requires |x| == |y| == |z|
    requires forall i | 0 <= i < |x| :: z[i] == (x[i] || y[i])
    ensures Or(Value(x), Value(y)) == Value(z)
  {
    if x != [] {
      var n := |x| - 1;
      OrBits(x[..n], y[..n], z[..n]);
      assert Value(x) / 2 == Value(x[..n]) && Value(y) / 2 == Value(y[..n]);
      assert Value(x) % 2 == BitOf(x[n]) && Value(y) % 2 == BitOf(y[n]);
    }
  }

  // The bits of a run of bytes, in the order in which they are read.
  function BitsOf(bytes: seq<byte>): (bs: seq<bool>)
    ensures |bs| == 8 * |bytes|
  {
    if bytes == [] then [] else ToBits(bytes[0], 8) + BitsOf(bytes[1..])
  }

  lemma {:induction false} BitsOfConcat(a: seq<byte>, b: seq<byte>)
    ensures BitsOf(a + b) == BitsOf(a) + BitsOf(b)
  {
    if a == [] {
      assert a + b == b;
    } else {
      assert (a + b)[1..] == a[1..] + b;
      BitsOfConcat(a[1..], b);
    }
  }

  // Two bit strings of the same length leave disjoint ranges for what may follow them.
  lemma RangesApart(c: seq<bool>, x: seq<bool>, k: nat)
    requires |c| == |x| && c != x
    ensures var low, low' := Value(c + Zeros(k)), Value(x + Zeros(k)); low + Pow2(k) <= low' || low' + Pow2(k) <= low
  {
    ShlBits(x, k);
    ShlBits(c, k);
    if Value(x) < Value(c) {
      ShlStrict(Value(x), Value(c), k);
    } else if Value(c) < Value(x) {
      ShlStrict(Value(c), Value(x), k);
    } else {
      ValueInjective(x, c);
    }
  }

  lemma FrontRange(w: seq<bool>, n: nat)
    requires n <= |w|
    ensures var low := Value(w[..n] + Zeros(|w| - n)); low <= Value(w) < low + Pow2(|w| - n)
  {
    ValueRange(w[..n], w[n..]);
    assert w == w[..n] + w[n..];
  }

  // Among the numbers of a given width, those that start with c are those from c's place on.
  lemma PrefixByRange(c: seq<bool>, w: seq<bool>)
    requires |c| <= |w|
    ensures var k := |w| - |c|; var low := Value(c + Zeros(k));
            c <= w <==> low <= Value(w) < low + Pow2(k)
  {
    hide Value, Pow2, Zeros;
    var x := w[..|c|];
    assert c <= w <==> x == c;
    FrontRange(w, |c|);
    if x != c {
      RangesApart(c, x, |w| - |c|);
    }
  }

  lemma ValueOfOne(u: seq<bool>, k: nat)
    ensures Value(u + [true] + Zeros(k)) == Value(u + [false] + Zeros(k)) + Pow2(k)
  {
    hide Value, Pow2, Zeros, Shl;
    ValueSnoc(u, false);
    ShlBits(u + [false], k);
    ValueSnoc(u, true);
    ShlBits(u + [true], k);
    ShlAdd(2 * Value(u), 1, k);
    ShlOne(k);
  }

  lemma ZerosConcat(u: seq<bool>, m: nat, n: nat)
    ensures u + Zeros(m) + Zeros(n) == u + Zeros(m + n)
  {
  }
}
