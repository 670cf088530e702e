// The bit stream reader shared by the LHA decoders (external/lhasa/lib/bit_stream_reader.c): a 32-bit
// buffer, filled from a callback that may hand over any number of bytes at a time, read as one flat
// stream of bits.

module BitReader {
  import opened Bits

  // What the callback reads from.  It may return fewer bytes than it is asked for, and returns none
  // only at the end.
  class Source {
    var data: seq<byte>

    constructor (data: seq<byte>)
      ensures this.data == data
    {
      this.data := data;
    }

    method Callback(count: nat) returns (bytes: seq<byte>)
      modifies this
      ensures |bytes| <= count
      ensures old(data) == bytes + data
      ensures bytes == [] <==> count == 0 || old(data) == []
    {
      if count == 0 || data == [] {
        bytes := [];
      } else {
        var n: nat :| 1 <= n <= count && n <= |data|;
        bytes := data[..n];
        data := data[n..];
      }
    }
  }

  class Reader {
    const source: Source
    var bitBuffer: nat
    var bits: nat
    // The bits waiting in the buffer.
    ghost var waiting: seq<bool>

    // The waiting bits are the high bits of the 32-bit buffer; the rest of it is zero.
    ghost predicate Valid()
      reads this
    {
      && bits == |waiting| <= 32
      && bitBuffer == Value(waiting + Zeros(32 - bits))
    }

    // The bits that have not been read yet.
    ghost function Unread(): seq<bool>
      reads this, source
    {
      waiting + BitsOf(source.data)
    }

    constructor (source: Source)
      ensures Valid() && this.source == source && Unread() == BitsOf(source.data)
    {
      this.source := source;
      bitBuffer := 0;
      bits := 0;
      waiting := [];
      ValueZerosFirst(32, []);
      assert [] + Zeros(32) == Zeros(32) + [];
    }

    // Append one byte behind the waiting bits.
    method Fill(b: byte)
      requires Valid() && bits <= 24
      modifies this
      ensures Valid() && bits == old(bits) + 8 && waiting == old(waiting) + ToBits(b, 8)
    {
      FilledValue(waiting, b);
      bitBuffer := Or(bitBuffer, Shl32(b, 24 - bits));
      bits := bits + 8;
      waiting := waiting + ToBits(b, 8);
    }

    // Append the bytes of one callback.
    method FillFrom(buf: seq<byte>)
      requires Valid() && bits + 8 * |buf| <= 32
      modifies this
      ensures Valid() && waiting == old(waiting) + BitsOf(buf)
    {
      hide Value, Shl32, Or, BitsOf, Zeros, ToBits;
      NoBytes(buf);
      for i := 0 to |buf|
        invariant Valid() && waiting == old(waiting) + BitsOf(buf[..i])
      {
        OneMoreByte(buf, i);
        Regroup(old(waiting), BitsOf(buf[..i]), ToBits(buf[i], 8));
        Fill(buf[i]);
      }
      assert buf[..|buf|] == buf;
    }

    // The next n bits as a number, or -1 if the input ends before them.  Nothing is consumed.
    method PeekBits(n: nat) returns (result: int)
      requires Valid() && n <= 25
      modifies this, source
      ensures Valid() && Unread() == old(Unread())
      ensures result == if n <= |Unread()| then Value(Unread()[..n]) else -1
      ensures 0 <= result ==> n <= bits
    {
      hide Value, Pow2, Shr, Shl32, BitsOf;
      if n == 0 {
        NoBits(Unread());
        return 0;
      }
      while bits < n
        invariant Valid() && Unread() == old(Unread())
        decreases 32 - bits
      {
        var fillBytes := (32 - bits) / 8;
        ghost var before := waiting;
        var buf := source.Callback(fillBytes);
        if |buf| == 0 {
          return -1;
        }
        BitsOfConcat(buf, source.data);
        FillFrom(buf);
        Regroup(before, BitsOf(buf), BitsOf(source.data));
      }
      TopBits(waiting, n);
      assert Unread()[..n] == waiting[..n];
      result := Shr(bitBuffer, 32 - n);
    }

    // Read n bits, or fail without reading any.
    method ReadBits(n: nat) returns (result: int)
      requires Valid() && n <= 25
      modifies this, source
      ensures Valid()
      ensures n <= |old(Unread())| ==> result == Value(old(Unread())[..n]) && Unread() == old(Unread())[n..]
      ensures n > |old(Unread())| ==> result == -1 && Unread() == old(Unread())
    {
      hide Value, BitsOf, Shl32, Zeros;
      result := PeekBits(n);
      if result >= 0 {
        DroppedFront(waiting, BitsOf(source.data), n);
        DroppedValue(waiting, n);
        bitBuffer := Shl32(bitBuffer, n);
        bits := bits - n;
        waiting := waiting[n..];
      }
    }

    method ReadBit() returns (result: int)
      requires Valid()
      modifies this, source
      ensures Valid()
      ensures old(Unread()) != [] ==> result == BitOf(old(Unread())[0]) && Unread() == old(Unread())[1..]
      ensures old(Unread()) == [] ==> result == -1 && Unread() == []
    {
      result := ReadBits(1);
      if old(Unread()) != [] {
        assert old(Unread())[..1] == [old(Unread())[0]];
      }
    }
  }

  lemma NoBytes(buf: seq<byte>)
    ensures BitsOf(buf[..0]) == []
  {
  }

  lemma OneMoreByte(buf: seq<byte>, i: nat)
    requires i < |buf|
    ensures BitsOf(buf[..i + 1]) == BitsOf(buf[..i]) + ToBits(buf[i], 8)
  {
    assert buf[..i + 1] == buf[..i] + [buf[i]];
    BitsOfConcat(buf[..i], [buf[i]]);
  }

  lemma NoBits(bs: seq<bool>)
    ensures Value(bs[..0]) == 0
  {
  }

  lemma Regroup(a: seq<bool>, b: seq<bool>, c: seq<bool>)
    ensures a + b + c == a + (b + c)
  {
  }

  lemma TopBits(waiting: seq<bool>, n: nat)
    requires n <= |waiting| <= 32
    ensures Shr(Value(waiting + Zeros(32 - |waiting|)), 32 - n) == Value(waiting[..n])
  {
    var w := waiting + Zeros(32 - |waiting|);
    ShrBits(w, 32 - n);
    assert waiting[..n] == w[..n];
  }

  lemma DroppedFront(a: seq<bool>, b: seq<bool>, n: nat)
    requires n <= |a|
    ensures (a + b)[n..] == a[n..] + b
  {
  }

  lemma DroppedValue(waiting: seq<bool>, n: nat)
    requires n <= |waiting| <= 32
    ensures Shl32(Value(waiting + Zeros(32 - |waiting|)), n) == Value(waiting[n..] + Zeros(32 - (|waiting| - n)))
  {
    hide Value, Shl32;
    var w := waiting + Zeros(32 - |waiting|);
    Shl32Bits(w, n);
    assert w[n..] + Zeros(n) == waiting[n..] + Zeros(32 - (|waiting| - n));
  }

  lemma PlacedByte(b: byte, k: nat)
    requires k <= 24
    ensures Shl32(b, k) == Value(Zeros(24 - k) + ToBits(b, 8) + Zeros(k))
  {
    var low := Zeros(24) + ToBits(b, 8);
    assert Pow2(8) == 256;
    ValueOfToBits(b, 8);
    ValueZerosFirst(24, ToBits(b, 8));
    Shl32Bits(low, k);
    assert low[k..] == Zeros(24 - k) + ToBits(b, 8);
  }

  lemma OrBehind(w: seq<bool>, b: seq<bool>)
    requires |w| + |b| <= 32
    ensures Or(Value(w + Zeros(32 - |w|)), Value(Zeros(|w|) + b + Zeros(32 - |w| - |b|)))
            == Value(w + b + Zeros(32 - |w| - |b|))
  {
    OrBits(w + Zeros(32 - |w|), Zeros(|w|) + b + Zeros(32 - |w| - |b|), w + b + Zeros(32 - |w| - |b|));
  }

  // Or-ing in a byte at the right place appends its bits to the ones in the buffer.
  lemma FilledValue(w: seq<bool>, b: byte)
    requires |w| <= 24
    ensures Or(Value(w + Zeros(32 - |w|)), Shl32(b, 24 - |w|)) == Value(w + ToBits(b, 8) + Zeros(24 - |w|))
  {
    PlacedByte(b, 24 - |w|);
    OrBehind(w, ToBits(b, 8));
  }
}
