// Streaming BLAKE2s (external/libarchive/libarchive/archive_blake2s_ref.c) against the one-shot hash of
// section 3.3 of RFC 7693.  The compression function is a parameter.

module Blake2s {

  import Bits
  import opened Wrappers

  type Byte = Bits.byte
  type Word = x: int | 0 <= x < 0x1_0000_0000 witness 0
  type Chain = h: seq<Word> | |h| == 8 witness [0, 0, 0, 0, 0, 0, 0, 0]

  const BLOCK := 64
  const OUT := 32

  // The parameters of a node of the hash tree.
  datatype Param = Param(digestLength: Byte, keyLength: Byte, fanout: Byte, depth: Byte, nodeOffset: Word,
                         nodeDepth: Byte, innerLength: Byte)

  // Its parameter block: a leaf length and an extended output length of zero, and no salt and no personal part.
  function ParamBlock(p: Param): (r: seq<Byte>)
    ensures |r| == 32
  {
    [p.digestLength, p.keyLength, p.fanout, p.depth] + Store32(0) + Store32(p.nodeOffset)
    + [0, 0, p.nodeDepth, p.innerLength] + Repeated<Byte>(0, 16)
  }

  // The initial chain value for a parameter block, and the compression of a block at a byte count with two flags.
  datatype Algorithm =
    Algorithm(init: seq<Byte> -> Chain, compress: (Chain, seq<Byte>, nat, bool, bool) -> Chain)
  {
    function start(p: Param): Chain {
      init(ParamBlock(p))
    }
  }

  function Store32(w: Word): (r: seq<Byte>)
    ensures |r| == 4
  {
    [w % 256, w / 0x100 % 256, w / 0x1_0000 % 256, w / 0x100_0000 % 256]
  }

  function Store(h: Chain): (r: seq<Byte>)
    ensures |r| == OUT
  {
    Store32(h[0]) + Store32(h[1]) + Store32(h[2]) + Store32(h[3])
    + Store32(h[4]) + Store32(h[5]) + Store32(h[6]) + Store32(h[7])
  }

  // The word is what its bytes say, the lowest first, and word i of the chain value stands at byte 4 * i.
  lemma StoredWord(h: Chain, i: nat)
    requires i < 8
    ensures var b: seq<int> := Store(h);
      b[4 * i] + 0x100 * b[4 * i + 1] + 0x1_0000 * b[4 * i + 2] + 0x100_0000 * b[4 * i + 3] == h[i]
  {
    hide Store, Store32;
    StoredAt(h, i);
    BytesAddUp(h[i]);
  }

  lemma StoredAt(h: Chain, i: nat)
    requires i < 8
    ensures forall k | 0 <= k < 4 :: Store(h)[4 * i + k] == Store32(h[i])[k]
  {
    hide Store32;
  }

  lemma BytesAddUp(w: Word)
    ensures var b: seq<int> := Store32(w); b[0] + 0x100 * b[1] + 0x1_0000 * b[2] + 0x100_0000 * b[3] == w
  {
    var q := w / 0x100;
    assert w == w % 0x100 + 0x100 * q && q == q % 0x100 + 0x100 * (q / 0x100);
    assert q / 0x100 == w / 0x1_0000 && w / 0x1_0000 == w / 0x1_0000 % 0x100 + 0x100 * (w / 0x100_0000);
    assert w / 0x100_0000 < 0x100;
  }

  // Addition of two words, modulo 2^32.
  function Wrap(sum: nat): (r: Word)
    requires sum < 2 * TWO_TO_THE_32
  {
    if sum < TWO_TO_THE_32 then sum else sum - TWO_TO_THE_32
  }

  lemma CountAdds(total: nat, count: nat, inc: Word)
    requires count == total % TWO_TO_THE_64
    ensures (total + inc) % TWO_TO_THE_64 == if count + inc < TWO_TO_THE_64 then count + inc
      else count + inc - TWO_TO_THE_64
  {
    var q := total / TWO_TO_THE_64;
    assert total + inc == q * TWO_TO_THE_64 + (count + inc);
  }

  // ---- the hash as the standard defines it ----

  // The chain value after the first n blocks of the data, none of which is the last.
  ghost function Absorbed(alg: Algorithm, start: Chain, data: seq<Byte>, n: nat): Chain
    requires n * BLOCK <= |data|
  {
    if n == 0 then start
    else alg.compress(Absorbed(alg, start, data, n - 1), data[(n - 1) * BLOCK..n * BLOCK], n * BLOCK % TWO_TO_THE_64,
                      false, false)
  }

  // The blocks before the last one, which is short or full, and empty only for no data at all.
  function Before(length: nat): (n: nat)
    ensures n * BLOCK <= length && length - n * BLOCK <= BLOCK
    ensures length > 0 ==> n * BLOCK < length
  {
    if length == 0 then 0 else (length - 1) / BLOCK
  }

  ghost function Digest(alg: Algorithm, start: Chain, lastNode: bool, data: seq<Byte>): (r: seq<Byte>)
    ensures |r| == OUT
  {
    var n := Before(|data|);
    var rest := data[n * BLOCK..];
    Store(alg.compress(Absorbed(alg, start, data, n), rest + Repeated<Byte>(0, BLOCK - |rest|),
      |data| % TWO_TO_THE_64, true, lastNode))
  }

  // At most one block: it is the last, padded, at the number of its bytes.
  lemma DigestOfOne(alg: Algorithm, start: Chain, lastNode: bool, data: seq<Byte>)
    requires |data| <= 64
    ensures Digest(alg, start, lastNode, data)
         == Store(alg.compress(start, data + Repeated<Byte>(0, 64 - |data|), |data|, true, lastNode))
  {
    assert data[0..] == data;
  }

  // More than one: the first is compressed at 64 bytes and is not the last, also when it ends the data but one.
  lemma DigestOfTwo(alg: Algorithm, start: Chain, lastNode: bool, data: seq<Byte>)
    requires 64 < |data| <= 128
    ensures Digest(alg, start, lastNode, data)
         == Store(alg.compress(alg.compress(start, data[..64], 64, false, false),
                               data[64..] + Repeated<Byte>(0, 128 - |data|), |data|, true, lastNode))
  {
    hide Absorbed, Store;
    AbsorbedOne(alg, start, data);
  }

  lemma AbsorbedOne(alg: Algorithm, start: Chain, data: seq<Byte>)
    requires 64 <= |data|
    ensures Absorbed(alg, start, data, 1) == alg.compress(start, data[..64], 64, false, false)
  {
    assert Absorbed(alg, start, data, 0) == start;
    assert data[0..64] == data[..64];
  }

  lemma {:induction false} AbsorbedOnly(alg: Algorithm, start: Chain, data: seq<Byte>, more: seq<Byte>, n: nat)
    requires n * BLOCK <= |data|
    ensures Absorbed(alg, start, data + more, n) == Absorbed(alg, start, data, n)
  {
    if n > 0 {
      AbsorbedOnly(alg, start, data, more, n - 1);
      assert (data + more)[(n - 1) * BLOCK..n * BLOCK] == data[(n - 1) * BLOCK..n * BLOCK];
    }
  }

  // ---- the streaming state ----

  class Blake2s {
    const alg: Algorithm
    const buf: array<Byte>
    var h: Chain
    var t0: Word
    var t1: Word
    var f0: bool
    var f1: bool
    var buflen: nat
    var outlen: nat
    var lastNode: bool
    ghost var start: Chain
    ghost var fed: seq<Byte>      // everything that has been put in

    ghost predicate Valid()
      reads this, buf
    {
      var n := Before(|fed|);
      && buf.Length == BLOCK && buflen <= BLOCK && !f0 && !f1
      && buflen == |fed| - n * BLOCK && buf[..buflen] == fed[n * BLOCK..]
      && h == Absorbed(alg, start, fed, n)
      && Count() == n * BLOCK % TWO_TO_THE_64
    }

    // blake2s_init_param
    constructor (alg: Algorithm, param: Param)
      ensures Valid() && fresh(buf) && this.alg == alg && start == alg.start(param) && fed == [] && !lastNode
      ensures outlen == param.digestLength
    {
      this.alg := alg;
      buf := new Byte[BLOCK](_ => 0);
      h, t0, t1, f0, f1, buflen := alg.start(param), 0, 0, false, false, 0;
      outlen, lastNode, start, fed := param.digestLength, false, alg.start(param), [];
    }

    method MarkLastNode(last: bool)
      requires Valid()
      modifies `lastNode
      ensures Valid() && lastNode == last
    {
      lastNode := last;
    }

    ghost function Count(): nat
      reads `t0, `t1
    {
      t0 + TWO_TO_THE_32 * t1
    }

    method IncrementCounter(inc: Word, ghost total: nat)
      requires Count() == total % TWO_TO_THE_64
      modifies `t0, `t1
      ensures Count() == (total + inc) % TWO_TO_THE_64
    {
      ghost var count := Count();
      t0 := Wrap(t0 + inc);
      t1 := Wrap(t1 + if t0 < inc then 1 else 0);
      CountAdds(total, count, inc);
    }

    // A block goes in that is known not to be the last; `done` is what has been compressed before it.
    method Compress(block: seq<Byte>, ghost done: seq<Byte>, ghost n: nat)
      requires |block| == BLOCK && |done| == n * BLOCK && !f0 && !f1
      requires h == Absorbed(alg, start, done, n) && Count() == |done| % TWO_TO_THE_64
      modifies `h, `t0, `t1
      ensures h == Absorbed(alg, start, done + block, n + 1)
      ensures Count() == |done + block| % TWO_TO_THE_64
    {
      IncrementCounter(BLOCK, |done|);
      h := alg.compress(h, block, t0 + TWO_TO_THE_32 * t1, f0, f1);
      AbsorbedOnly(alg, start, done, block, n);
      assert (done + block)[n * BLOCK..(n + 1) * BLOCK] == block;
    }

    // memcpy into the buffer
    method Append(bytes: seq<Byte>)
      requires buf.Length == BLOCK && buflen + |bytes| <= BLOCK
      modifies `buflen, buf
      ensures buflen == old(buflen) + |bytes| && buf[..buflen] == old(buf[..buflen]) + bytes
    {
      for i := 0 to |bytes|
        invariant buflen == old(buflen) && buf[..buflen + i] == old(buf[..buflen]) + bytes[..i]
      {
        buf[buflen + i] := bytes[i];
      }
      buflen := buflen + |bytes|;
    }

    // blake2s_update: however the input is cut into pieces, it is the same as putting it in at once.
    method Update(input: seq<Byte>)
      requires Valid()
      modifies this, buf
      ensures Valid() && fed == old(fed) + input
      ensures start == old(start) && outlen == old(outlen) && lastNode == old(lastNode)
    {
      if |input| == 0 {
        assert fed == fed + input;
        return;
      }
      var fill := BLOCK - buflen;
      if |input| > fill {
        UpdateFull(input);
      } else {
        ghost var n := Before(|fed|);
        AbsorbedOnly(alg, start, fed, input, n);
        assert Before(|fed + input|) == n;
        assert (fed + input)[n * BLOCK..] == fed[n * BLOCK..] + input;
        Append(input);
        fed := fed + input;
      }
    }

    // The first step of an update that fills the buffer.
    method FillBuffer(input: seq<Byte>) returns (ghost done: seq<Byte>, ghost n: nat)
      requires Valid() && |input| > BLOCK - buflen
      modifies `h, `t0, `t1, `buflen, buf
      ensures buflen == 0 && |done| == n * BLOCK && done == old(fed) + input[..BLOCK - old(buflen)]
      ensures h == Absorbed(alg, start, done, n) && Count() == |done| % TWO_TO_THE_64
    {
      n := Before(|fed|);
      done := fed[..n * BLOCK];
      assert done + fed[n * BLOCK..] == fed;
      AbsorbedOnly(alg, start, done, fed[n * BLOCK..], n);
      var fill := BLOCK - buflen;
      Append(input[..fill]);
      assert buf[..] == buf[..BLOCK] == fed[n * BLOCK..] + input[..fill];
      Compress(buf[..], done, n);
      assert done + buf[..] == fed + input[..fill];
      done, n := done + buf[..], n + 1;
      buflen := 0;
    }

    method UpdateFull(input: seq<Byte>)
      requires Valid() && |input| > BLOCK - buflen
      modifies this, buf
      ensures Valid() && fed == old(fed) + input
      ensures start == old(start) && outlen == old(outlen) && lastNode == old(lastNode)
    {
      hide Absorbed, Digest, Store;
      var pos := BLOCK - buflen;
      ghost var done, n := FillBuffer(input);
      while |input| - pos > BLOCK
        invariant 0 <= pos < |input| && buflen == 0 && !f0 && !f1
        invariant |done| == n * BLOCK && done == fed + input[..pos]
        invariant h == Absorbed(alg, start, done, n) && Count() == |done| % TWO_TO_THE_64
        invariant fed == old(fed) && start == old(start) && outlen == old(outlen) && lastNode == old(lastNode)
      {
        var block := input[pos..pos + BLOCK];
        Compress(block, done, n);
        assert done + block == fed + input[..pos + BLOCK];
        done, n, pos := done + block, n + 1, pos + BLOCK;
      }
      var rest := input[pos..];
      AbsorbedOnly(alg, start, done, rest, n);
      assert done + rest == fed + input && Before(|done + rest|) == n;
      assert (done + rest)[n * BLOCK..] == rest;
      Append(rest);
      assert buf[..buflen] == rest;
      fed := fed + input;
    }

    // memset of the rest of the buffer
    method Pad()
      requires buf.Length == BLOCK && buflen <= BLOCK
      modifies buf
      ensures buf[..] == old(buf[..buflen]) + Repeated<Byte>(0, BLOCK - buflen)
    {
      forall i | buflen <= i < BLOCK { buf[i] := 0; }
    }

    method CompressLast()
      requires Valid()
      modifies this, buf
      ensures f0 && Store(h) == Digest(alg, old(start), old(lastNode), old(fed))
    {
      hide Store;
      ghost var n := Before(|fed|);
      ghost var rest := fed[n * BLOCK..];
      ghost var chain := h;
      IncrementCounter(buflen, n * BLOCK);
      if lastNode { f1 := true; }
      f0 := true;
      Pad();
      assert buf[..] == rest + Repeated<Byte>(0, BLOCK - |rest|);
      assert chain == Absorbed(alg, start, fed, n) && Count() == |fed| % TWO_TO_THE_64;
      hide Absorbed, Repeated;
      h := alg.compress(h, buf[..], t0 + TWO_TO_THE_32 * t1, f0, f1);
    }

    // blake2s_final: the digest of everything that was put in; a state is finished once.  A caller who asks
    // for more than a digest gets one, followed by whatever lies behind it.
    method Final(outlen: nat) returns (out: seq<Byte>, ok: bool)
      requires Valid() || f0
      modifies this, buf
      ensures ok <==> outlen >= old(this.outlen) && !old(f0)
      ensures old(Valid()) ==> !old(f0)
      ensures ok ==>
        var n := Min(outlen, OUT);
        |out| == outlen && out[..n] == Digest(alg, old(start), old(lastNode), old(fed))[..n] && f0
    {
      hide Absorbed, Digest, Store;
      if outlen < this.outlen || f0 { return [], false; }
      CompressLast();
      var buffer := Store(h);
      if outlen <= OUT { return buffer[..outlen], true; }
      assert |Repeated<Byte>(0, outlen - OUT)| == outlen - OUT;
      var behind: seq<Byte> :| |behind| == outlen - OUT;
      out, ok := buffer + behind, true;
    }
  }
}
