// The ring buffer of the lh4 to lh7 decoders (external/lhasa/lib/lh_new_decoder.c) against an unbounded
// history: RING_BUFFER_SIZE spaces, and then everything that was output.

module LhNewRing {
  import opened Bits
  import opened History

  const SPACE: byte := 32

  function Spaces(n: nat): seq<byte> {
    seq(n, _ => SPACE)
  }

  lemma NextIndex(x: nat, size: nat)
    requires size > 0
    ensures (x + 1) % size == if x % size + 1 == size then 0 else x % size + 1
  {
    var q, r := x / size, x % size;
    assert x == q * size + r;
    if r + 1 == size {
      assert x + 1 == (q + 1) * size;
      Quotient(x + 1, q + 1, 0, size);
    } else {
      Quotient(x + 1, q, r + 1, size);
    }
  }

  lemma Quotient(x: nat, q: nat, r: nat, size: nat)
    requires size > 0 && x == q * size + r && r < size
    ensures x % size == r
  {
    var p := x / size;
    assert x == p * size + x % size;
    if p < q {
      Distance(p, q, size);
    } else if q < p {
      Distance(q, p, size);
    }
  }

  lemma Distance(p: nat, q: nat, size: nat)
    requires p < q && size > 0
    ensures q * size >= p * size + size
  {
    assert q * size == p * size + size + (q - p - 1) * size;
  }

  class Ring {
    const ringbuf: array<byte>
    var ringbufPos: nat
    ghost var out: seq<byte>      // everything that was output

    ghost function History(): seq<byte>
      reads this
    {
      Spaces(ringbuf.Length) + out
    }

    // Each cell holds the byte of its age; these are the last RING_BUFFER_SIZE bytes of the history.
    ghost predicate Valid()
      reads this, ringbuf
    {
      && ringbufPos < ringbuf.Length
      && forall x :: 0 <= x < ringbuf.Length ==>
           ringbuf[x] == History()[|History()| - Age(ringbufPos, x, ringbuf.Length)]
    }

    // init_ring_buffer
    constructor (size: nat)
      requires size > 0
      ensures Valid() && fresh(ringbuf) && ringbuf.Length == size && out == []
    {
      ringbuf := new byte[size](_ => SPACE);
      ringbufPos, out := 0, [];
    }

    // output_byte
    method OutputByte(buf: seq<byte>, b: byte) returns (buf': seq<byte>)
      requires Valid()
      modifies this, ringbuf
      ensures Valid() && out == old(out) + [b] && buf' == buf + [b]
      ensures ringbufPos == (old(ringbufPos) + 1) % ringbuf.Length
    {
      buf' := buf + [b];
      ringbuf[ringbufPos] := b;
      ghost var pos := ringbufPos;
      ringbufPos := (ringbufPos + 1) % ringbuf.Length;
      out := out + [b];
      NextIndex(pos, ringbuf.Length);
      assert pos % ringbuf.Length == pos by { Quotient(pos, 0, pos, ringbuf.Length); }
    }

    // The byte from `distance` back, which is in cell x, is output.
    method CopyByte(buf: seq<byte>, x: nat, ghost distance: nat) returns (buf': seq<byte>)
      requires Valid() && x < ringbuf.Length && Age(ringbufPos, x, ringbuf.Length) == distance
      modifies this, ringbuf
      ensures Valid() && 0 < distance <= |old(History())| && ringbufPos == (old(ringbufPos) + 1) % ringbuf.Length
      ensures History() == CopiedBack(old(History()), distance, 1)
      ensures |buf'| == |buf| + 1 && buf'[..|buf|] == buf && out == old(out) + buf'[|buf|..]
    {
      CellAt(x);
      ghost var h := History();
      var b := ringbuf[x];
      buf' := OutputByte(buf, b);
      assert History() == h + [b];
      assert CopiedBack(h + [b], distance, 0) == h + [b];
    }

    // copy_from_history, once the offset is read: the copy may overlap what it writes.
    method CopyFromHistory(buf: seq<byte>, offset: nat, count: nat) returns (buf': seq<byte>)
      requires Valid() && offset < ringbuf.Length
      modifies this, ringbuf
      ensures Valid() && History() == CopiedBack(old(History()), offset + 1, count)
      ensures |buf'| == |buf| + count && buf'[..|buf|] == buf && out == old(out) + buf'[|buf|..]
    {
      hide Valid, Age, CopiedBack, Spaces;
      ghost var before := History();
      var size := ringbuf.Length;
      Bounds();
      var start := ringbufPos + size - offset - 1;
      buf' := buf;
      StartIsBack(ringbufPos, offset, size);
      CopiedNone(before, offset + 1);
      for i := 0 to count
        invariant Valid() && |buf'| == |buf| + i && buf'[..|buf|] == buf && out == old(out) + buf'[|buf|..]
        invariant ringbufPos < size && Age(ringbufPos, (start + i) % size, size) == offset + 1
        invariant History() == CopiedBack(before, offset + 1, i)
      {
        var x := (start + i) % size;
        BothAdvance(ringbufPos, start + i, size);
        CopiedOneMore(before, offset + 1, i);
        buf' := CopyByte(buf', x, offset + 1);
        Bounds();
      }
    }

    lemma Bounds()
      requires Valid()
      ensures ringbufPos < ringbuf.Length <= |History()|
    {
    }

    lemma CellAt(x: nat)
      requires Valid() && x < ringbuf.Length
      ensures var age := Age(ringbufPos, x, ringbuf.Length);
        0 < age <= |History()| && ringbuf[x] == History()[|History()| - age]
    {
    }
  }

  // The place that is read and the place that is written move on together, around the end.
  lemma BothAdvance(pos: nat, x: nat, size: nat)
    requires pos < size
    ensures Age((pos + 1) % size, (x + 1) % size, size) == Age(pos, x % size, size)
  {
    NextIndex(pos, size);
    Quotient(pos, 0, pos, size);
    NextIndex(x, size);
  }

  lemma StartIsBack(pos: nat, offset: nat, size: nat)
    requires pos < size && offset < size
    ensures Age(pos, (pos + size - offset - 1) % size, size) == offset + 1
  {
    var start := pos + size - offset - 1;
    if start < size { Quotient(start, 0, start, size); } else { Quotient(start, 1, start - size, size); }
  }

  // The copied bytes, by position in the output: each is the one `offset + 1` places before it.
  lemma CopiedOutput(out: seq<byte>, size: nat, offset: nat, count: nat, i: nat)
    requires offset < size && i < count
    ensures var history := Spaces(size) + out;
      var more := CopiedBack(history, offset + 1, count);
      var n := |out| + i;
      more[size + n] == if n >= offset + 1 then more[size + (n - offset - 1)] else SPACE
  {
    var history := Spaces(size) + out;
    CopiedBackBytes(history, offset + 1, count);
    var more := CopiedBack(history, offset + 1, count);
    var n := |out| + i;
    assert more[size + n] == more[size + n - (offset + 1)];
    if n < offset + 1 {
      assert more[..|history|][size + n - (offset + 1)] == history[size + n - (offset + 1)] == SPACE;
    }
  }
}
