// AES in counter mode, as libarchive uses it (external/libarchive/libarchive/archive_cryptor.c).  The block
// cipher is a parameter that does not fail.

module AesCtr {

  import opened Wrappers

  type Byte = bv8

  const BLOCK := 16
  const COUNTER := 8       // the bytes of the nonce that count

  // ---- the counter, least significant byte first ----

  function Number(digits: seq<Byte>): nat {
    if digits == [] then 0 else digits[0] as nat + 256 * Number(digits[1..])
  }

  function Pow256(n: nat): (p: nat)
    ensures p > 0
  {
    if n == 0 then 1 else 256 * Pow256(n - 1)
  }

  // The next one: bytes that overflow are carried over.
  function Increased(digits: seq<Byte>): (r: seq<Byte>)
    ensures |r| == |digits|
  {
    if digits == [] then []
    else if digits[0] == 255 then [0] + Increased(digits[1..])
    else [digits[0] + 1] + digits[1..]
  }

  lemma {:induction false} IncreasedCounts(digits: seq<Byte>)
    ensures Number(digits) < Pow256(|digits|)
    ensures Number(Increased(digits))
         == if Number(digits) + 1 == Pow256(|digits|) then 0 else Number(digits) + 1
  {
    if digits != [] {
      IncreasedCounts(digits[1..]);
      if digits[0] == 255 {
        assert Increased(digits)[1..] == Increased(digits[1..]);
      } else {
        assert Increased(digits)[1..] == digits[1..];
      }
    }
  }

  lemma CarryStep(digits: seq<Byte>)
    requires digits != []
    ensures Increased(digits) == [digits[0] + 1] + if digits[0] == 255 then Increased(digits[1..]) else digits[1..]
  {
  }

  lemma CarryOn(head: seq<Byte>, tail: seq<Byte>, rest: seq<Byte>)
    requires tail != []
    ensures var next := head + [tail[0] + 1];
      && head + Increased(tail) == next + (if tail[0] == 255 then Increased(tail[1..]) else tail[1..])
      && (tail + rest)[0] == tail[0]
      && head + [tail[0] + 1] + (tail + rest)[1..] == next + (tail[1..] + rest)
  {
    CarryStep(tail);
    hide Increased;
    var more := if tail[0] == 255 then Increased(tail[1..]) else tail[1..];
    assert head + ([tail[0] + 1] + more) == (head + [tail[0] + 1]) + more;
    assert (tail + rest)[1..] == tail[1..] + rest;
  }

  lemma CarryEnds(head: seq<Byte>, tail: seq<Byte>, rest: seq<Byte>)
    ensures tail == [] ==> Increased(tail) == tail
    ensures head + (tail + rest) == head + tail + rest
  {
  }

  function Nth(start: seq<Byte>, n: nat): (r: seq<Byte>)
    ensures |r| == |start|
  {
    if n == 0 then start else Increased(Nth(start, n - 1))
  }

  // ---- the cipher as a function ----

  // Byte p of the key stream: block p / 16 is the cipher of the counter after that many steps and one more.
  ghost function Key(cipher: seq<Byte> -> seq<Byte>, p: nat): Byte
    requires forall b :: |cipher(b)| == BLOCK
  {
    cipher(NonceAt(p / BLOCK + 1))[p % BLOCK]
  }

  function NonceAt(n: nat): seq<Byte> {
    Nth(Repeated<Byte>(0, COUNTER), n) + Repeated<Byte>(0, BLOCK - COUNTER)
  }

  lemma SplitNonce(n: nat, digits: seq<Byte>, rest: seq<Byte>)
    requires digits + rest == NonceAt(n) && |digits| == COUNTER
    ensures digits == Nth(Repeated<Byte>(0, COUNTER), n) && rest == Repeated<Byte>(0, BLOCK - COUNTER)
    ensures NonceAt(n + 1) == Increased(digits) + rest
  {
    assert digits == (digits + rest)[..COUNTER] == Nth(Repeated<Byte>(0, COUNTER), n);
    assert rest == (digits + rest)[COUNTER..];
  }

  ghost predicate Ciphered(cipher: seq<Byte> -> seq<Byte>, p: nat, data: seq<Byte>, out: seq<Byte>)
    requires forall b :: |cipher(b)| == BLOCK
  {
    |out| == |data| && forall i :: 0 <= i < |data| ==> out[i] == data[i] ^ Key(cipher, p + i)
  }

  // The counter of block n is n, modulo 2^64.
  lemma {:induction false} NthCounts(n: nat)
    ensures Number(Nth(Repeated<Byte>(0, COUNTER), n)) == n % TWO_TO_THE_64
  {
    assert Pow256(COUNTER) == TWO_TO_THE_64 by {
      assert Pow256(4) == 256 * Pow256(3) && Pow256(3) == 256 * Pow256(2) && Pow256(2) == 256 * Pow256(1);
      assert Pow256(8) == 256 * Pow256(7) && Pow256(7) == 256 * Pow256(6) && Pow256(6) == 256 * Pow256(5)
        && Pow256(5) == 256 * Pow256(4);
    }
    if n == 0 {
      ZeroNumber(COUNTER);
    } else {
      NthCounts(n - 1);
      IncreasedCounts(Nth(Repeated<Byte>(0, COUNTER), n - 1));
    }
  }

  lemma {:induction false} ZeroNumber(n: nat)
    ensures Number(Repeated<Byte>(0, n)) == 0
  {
    if n > 0 {
      ZeroNumber(n - 1);
      assert Repeated<Byte>(0, n)[1..] == Repeated<Byte>(0, n - 1);
    }
  }

  // A number in n bytes, the lowest first.
  function Digits(v: nat, n: nat): (r: seq<Byte>)
    ensures |r| == n
  {
    if n == 0 then [] else [(v % 256) as Byte] + Digits(v / 256, n - 1)
  }

  lemma {:induction false} DigitsOfNumber(digits: seq<Byte>)
    ensures Digits(Number(digits), |digits|) == digits
  {
    if digits != [] {
      DigitsOfNumber(digits[1..]);
      LowestDigit(digits[0], Number(digits[1..]));
      assert digits == [digits[0]] + digits[1..];
    }
  }

  lemma LowestDigit(d: Byte, rest: nat)
    ensures (d as nat + 256 * rest) / 256 == rest && ((d as nat + 256 * rest) % 256) as Byte == d
  {
  }

  // Byte p of the key stream comes from the block whose first eight bytes are the number p / 16 + 1: the
  // counter starts at one, and its lowest byte comes first.
  lemma KeyIsOfBlock(cipher: seq<Byte> -> seq<Byte>, p: nat)
    requires forall b :: |cipher(b)| == 16
    ensures var count := Digits((p / 16 + 1) % 0x1_0000_0000_0000_0000, 8);
      Key(cipher, p) == cipher(count + [0, 0, 0, 0, 0, 0, 0, 0])[p % 16]
  {
    NthCounts(p / 16 + 1);
    DigitsOfNumber(Nth(Repeated<Byte>(0, COUNTER), p / 16 + 1));
    assert Repeated<Byte>(0, 8) == [0, 0, 0, 0, 0, 0, 0, 0];
  }

  // Ciphering again gives the data back.
  lemma Twice(cipher: seq<Byte> -> seq<Byte>, p: nat, data: seq<Byte>, out: seq<Byte>, back: seq<Byte>)
    requires (forall b :: |cipher(b)| == BLOCK) && Ciphered(cipher, p, data, out) && Ciphered(cipher, p, out, back)
    ensures back == data
  {
    forall i | 0 <= i < |data| ensures back[i] == data[i] {
      XorTwice(data[i], Key(cipher, p + i));
    }
  }

  lemma XorTwice(x: Byte, k: Byte)
    ensures (x ^ k) ^ k == x
  {
  }

  lemma NothingYet(cipher: seq<Byte> -> seq<Byte>, p: nat, data: seq<Byte>)
    requires forall b :: |cipher(b)| == BLOCK
    ensures Ciphered(cipher, p, data[..0], [])
  {
  }

  lemma InPieces(cipher: seq<Byte> -> seq<Byte>, p: nat, a: seq<Byte>, b: seq<Byte>, out: seq<Byte>, out': seq<Byte>)
    requires (forall b :: |cipher(b)| == BLOCK) && Ciphered(cipher, p, a, out) && Ciphered(cipher, p + |a|, b, out')
    ensures Ciphered(cipher, p, a + b, out + out') && |out| == |a| && |out'| == |b|
  {
    forall i | 0 <= i < |a + b| ensures (out + out')[i] == (a + b)[i] ^ Key(cipher, p + i) {
      if i >= |a| { assert out'[i - |a|] == b[i - |a|] ^ Key(cipher, p + |a| + (i - |a|)); }
    }
  }

  class Context {
    const cipher: seq<Byte> -> seq<Byte>
    const nonce: array<Byte>
    var encrBuf: seq<Byte>
    var encrPos: nat
    ghost var steps: nat           // how often the counter has been increased
    ghost var done: nat            // how many bytes have been ciphered

    ghost predicate Counting()
      reads this, nonce
    {
      nonce.Length == BLOCK && nonce[..] == NonceAt(steps) && forall b :: |cipher(b)| == BLOCK
    }

    // Either the block in the buffer is used up, or it is the one for the next byte.
    ghost predicate Valid()
      reads this, nonce
    {
      && Counting() && encrPos <= BLOCK
      && if encrPos == BLOCK then done == steps * BLOCK
         else steps > 0 && done == (steps - 1) * BLOCK + encrPos && encrBuf == cipher(NonceAt(steps))
    }

    // aes_ctr_init
    constructor (cipher: seq<Byte> -> seq<Byte>)
      requires forall b :: |cipher(b)| == BLOCK
      ensures Valid() && done == 0 && fresh(nonce) && this.cipher == cipher
    {
      this.cipher := cipher;
      nonce := new Byte[BLOCK](_ => 0);
      encrBuf, encrPos, steps, done := [], BLOCK, 0, 0;
      new;
      assert nonce[..] == NonceAt(0);
    }

    // ++nonce[j], and whether it wrapped around
    method IncreaseByte(j: nat, ghost head: seq<Byte>, ghost tail: seq<Byte>) returns (carry: bool)
      requires j < nonce.Length && |head| == j && tail != [] && nonce[..] == head + tail
      modifies nonce
      ensures nonce[..] == head + [tail[0] + 1] + tail[1..] && (carry <==> tail[0] == 255)
    {
      assert nonce[j] == nonce[..][j] == tail[0];
      nonce[j] := nonce[j] + 1;
      carry := nonce[j] == 0;
    }

    // aes_ctr_increase_counter
    method IncreaseCounter()
      requires Counting()
      modifies this`steps, nonce
      ensures Counting() && steps == old(steps) + 1
    {
      ghost var digits, rest := nonce[..COUNTER], nonce[COUNTER..];
      assert digits + rest == nonce[..];
      SplitNonce(steps, digits, rest);
      hide Increased, NonceAt;
      var j := 0;
      var carry := true;
      ghost var head, tail: seq<Byte> := [], digits;
      while j < COUNTER && carry
        invariant 0 <= j <= COUNTER && |head| == j && |tail| == COUNTER - j && nonce[..] == head + (tail + rest)
        invariant Increased(digits) == head + if carry then Increased(tail) else tail
        invariant steps == old(steps)
        decreases COUNTER - j
      {
        CarryOn(head, tail, rest);
        carry := IncreaseByte(j, head, tail + rest);
        head, tail := head + [tail[0] + 1], tail[1..];
        j := j + 1;
      }
      CarryEnds(head, tail, rest);
      steps := steps + 1;
    }

    // A new block of the key stream.
    method NextBlock()
      requires Valid() && encrPos == BLOCK
      modifies this, nonce
      ensures Valid() && encrPos == 0 && done == old(done)
    {
      IncreaseCounter();
      encrBuf := cipher(nonce[..]);
      encrPos := 0;
    }

    lemma KeyIs(i: nat)
      requires Valid() && encrPos + i < BLOCK
      ensures |encrBuf| == BLOCK && Key(cipher, done + i) == encrBuf[encrPos + i]
    {
      assert done + i == (steps - 1) * BLOCK + (encrPos + i);
    }

    // The whole block in the buffer, put on a block of the data.
    method CipherBlock(block: seq<Byte>) returns (out: seq<Byte>)
      requires Valid() && encrPos == 0 && |block| == BLOCK
      ensures Ciphered(cipher, done, block, out)
    {
      hide Key;
      KeyIs(0);
      out := [];
      for k := 0 to BLOCK
        invariant Ciphered(cipher, done, block[..k], out)
      {
        KeyIs(k);
        hide Valid;
        out := out + [block[k] ^ encrBuf[k]];
      }
      assert block[..BLOCK] == block;
    }

    // Whole blocks; the block after them is prepared, whether it is needed or not.
    method CipherBlocks(data: seq<Byte>, i: nat, max: nat, sofar: seq<Byte>, ghost p: nat)
      returns (j: nat, out: seq<Byte>)
      requires Valid() && encrPos == 0 && i <= max <= |data| && done == p + i
      requires Ciphered(cipher, p, data[..i], sofar)
      modifies this, nonce
      ensures Valid() && encrPos == 0 && i <= j <= max && max - j < BLOCK && done == p + j
      ensures Ciphered(cipher, p, data[..j], out) && |out| == j
    {
      j, out := i, sofar;
      while max - j >= BLOCK
        invariant Valid() && encrPos == 0 && i <= j <= max && done == p + j
        invariant Ciphered(cipher, p, data[..j], out)
      {
        var block := CipherBlock(data[j..j + BLOCK]);
        InPieces(cipher, p, data[..j], data[j..j + BLOCK], out, block);
        assert data[..j] + data[j..j + BLOCK] == data[..j + BLOCK];
        out := out + block;
        j := j + BLOCK;
        encrPos, done := BLOCK, done + BLOCK;
        NextBlock();
      }
    }

    lemma Bounds()
      requires Valid()
      ensures encrPos <= BLOCK && forall b :: |cipher(b)| == BLOCK
    {
    }

    method CipherByte(b: Byte) returns (c: Byte)
      requires Valid() && encrPos < BLOCK
      modifies `encrPos, `done
      ensures Valid() && done == old(done) + 1 && encrPos == old(encrPos) + 1 && Ciphered(cipher, old(done), [b], [c])
    {
      KeyIs(0);
      c := b ^ encrBuf[encrPos];
      encrPos := encrPos + 1;
      done := done + 1;
    }

    // aes_ctr_update: however the data are cut into pieces, the same key stream is used once and in order.
    method Update(data: seq<Byte>, outLen: nat) returns (out: seq<Byte>)
      requires Valid()
      modifies this, nonce
      ensures Valid() && |out| == (if |data| < outLen then |data| else outLen) && done == old(done) + |out|
      ensures Ciphered(cipher, old(done), data[..|out|], out)
    {
      var max := if |data| < outLen then |data| else outLen;
      ghost var p := done;
      hide Valid, Ciphered, Key;
      Bounds();
      NothingYet(cipher, p, data);
      var i := 0;
      out := [];
      while i < max
        invariant Valid() && 0 <= i <= max && done == p + i && Ciphered(cipher, p, data[..i], out) && |out| == i
        invariant encrPos <= BLOCK && forall b :: |cipher(b)| == BLOCK
        decreases max - i, encrPos
      {
        if encrPos == BLOCK {
          NextBlock();
          i, out := CipherBlocks(data, i, max, out, p);
          if i >= max { break; }
        }
        var c := CipherByte(data[i]);
        InPieces(cipher, p, data[..i], [data[i]], out, [c]);
        assert data[..i] + [data[i]] == data[..i + 1];
        out := out + [c];
        i := i + 1;
      }
    }
  }
}
