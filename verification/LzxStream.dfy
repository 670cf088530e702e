// Reading an entry of an LZX archive in pieces (external/unlzx/unlzx.c, stream_read and crc_calc).
//
// The decoder below is any deterministic one that delivers at least one more byte or fails. LzxRounds composes
// the rounds of stream_decrunch and proves that they are such a decoder (RoundsAreProductive).

module LzxStream {
  import opened Bits
  import opened Wrappers

  type u32 = v: int | 0 <= v < TWO_TO_THE_32

  datatype Error = Eof | CorruptData

  datatype Round<S> = Delivered(next: S, bytes: seq<byte>) | Failed(error: Error)

  // How an entry is read: the decoder's rounds if it is packed, its bytes if it is not, and the
  // table-driven step of the checksum.
  datatype Entry<!S> = Entry(packed: bool, decrunch: S -> Round<S>, crcStep: (u32, byte) -> u32, crc: u32)

  ghost predicate Productive<S(!new)>(e: Entry<S>) {
    forall s :: e.decrunch(s).Delivered? ==> e.decrunch(s).bytes != []
  }

  // ---------------------------------------------------------------------------------------------
  // The checksum
  // ---------------------------------------------------------------------------------------------

  // ~v in 32 bits
  function Not(v: u32): u32 {
    TWO_TO_THE_32 - 1 - v
  }

  // The sum is kept complemented between calls.
  function Crc(step: (u32, byte) -> u32, sum: u32, bytes: seq<byte>): u32 {
    Not(Fold(step, Not(sum), bytes))
  }

  // The checksum of two pieces one after the other is the checksum of both together.
  lemma CrcConcat(step: (u32, byte) -> u32, sum: u32, a: seq<byte>, b: seq<byte>)
    ensures Crc(step, sum, a + b) == Crc(step, Crc(step, sum, a), b)
  {
    FoldConcat(step, Not(sum), a, b);
  }

  lemma CrcOfNone(step: (u32, byte) -> u32, sum: u32)
    ensures Crc(step, sum, []) == sum
  {
  }

  // Between calls the sum is the complement of the register, which starts from all ones.
  lemma CrcOfOne(step: (u32, byte) -> u32, b: byte)
    ensures Crc(step, 0, [b]) == 0xFFFF_FFFF - step(0xFFFF_FFFF, b)
  {
    var none: seq<byte> := [b][1..];
    assert none == [];
    assert Fold(step, Not(0), [b]) == Fold(step, step(Not(0), b), none);
  }

  method CrcCalc(step: (u32, byte) -> u32, sum: u32, memory: seq<byte>) returns (r: u32)
    ensures r == Crc(step, sum, memory)
  {
    r := sum;
    if |memory| > 0 {
      var temp := Not(sum);
      for i := 0 to |memory|
        invariant Fold(step, temp, memory[i..]) == Fold(step, Not(sum), memory)
      {
        temp := step(temp, memory[i]);
        assert memory[i..][1..] == memory[i + 1..];
      }
      r := Not(temp);
    }
  }

  // ---------------------------------------------------------------------------------------------
  // The byte stream behind an entry
  // ---------------------------------------------------------------------------------------------

  datatype Position<S> = Position(decoder: S, pending: seq<byte>)

  datatype Supply<S> = Supplied(bytes: seq<byte>, after: Position<S>) | Broken(error: Error)

  // The next n bytes, one at a time.  For an entry that is not packed, `pending` is all that is left.
  function Take<S(!new)>(e: Entry<S>, p: Position<S>, n: nat): Supply<S>
    decreases n, p.pending == []
  {
    if n == 0 then Supplied([], p)
    else if p.pending != [] then
      match Take(e, p.(pending := p.pending[1..]), n - 1)
      case Supplied(bytes, after) => Supplied([p.pending[0]] + bytes, after)
      case Broken(error) => Broken(error)
    else if !e.packed then Broken(Eof)
    else
      match e.decrunch(p.decoder)
      case Failed(error) => Broken(error)
      case Delivered(next, bytes) =>
        if bytes == [] then Broken(CorruptData) else Take(e, Position(next, bytes), n)
  }

  function Then<S>(a: Supply<S>, b: Supply<S>): Supply<S>
    requires a.Supplied?
  {
    match b
    case Supplied(bytes, after) => Supplied(a.bytes + bytes, after)
    case Broken(error) => Broken(error)
  }

  lemma {:induction false} TakeLength<S(!new)>(e: Entry<S>, p: Position<S>, n: nat)
    ensures Take(e, p, n).Supplied? ==> |Take(e, p, n).bytes| == n
    decreases n, p.pending == []
  {
    if n > 0 {
      if p.pending != [] {
        TakeLength(e, p.(pending := p.pending[1..]), n - 1);
      } else if e.packed && e.decrunch(p.decoder).Delivered? && e.decrunch(p.decoder).bytes != [] {
        TakeLength(e, Position(e.decrunch(p.decoder).next, e.decrunch(p.decoder).bytes), n);
      }
    }
  }

  // Taking bytes in two pieces is taking them at once.
  lemma {:induction false} TakeSplit<S(!new)>(e: Entry<S>, p: Position<S>, m: nat, n: nat)
    ensures Take(e, p, m + n) ==
            if Take(e, p, m).Broken? then Take(e, p, m)
            else Then(Take(e, p, m), Take(e, Take(e, p, m).after, n))
    decreases m, p.pending == []
  {
    if m == 0 {
      if Take(e, p, n).Supplied? {
        assert [] + Take(e, p, n).bytes == Take(e, p, n).bytes;
      }
    } else if p.pending != [] {
      var q := p.(pending := p.pending[1..]);
      TakeSplit(e, q, m - 1, n);
      if Take(e, q, m - 1).Supplied? && Take(e, Take(e, q, m - 1).after, n).Supplied? {
        var head, tail := Take(e, q, m - 1).bytes, Take(e, Take(e, q, m - 1).after, n).bytes;
        assert [p.pending[0]] + (head + tail) == [p.pending[0]] + head + tail;
      }
    } else if e.packed && e.decrunch(p.decoder).Delivered? && e.decrunch(p.decoder).bytes != [] {
      TakeSplit(e, Position(e.decrunch(p.decoder).next, e.decrunch(p.decoder).bytes), m, n);
    }
  }

  // A whole chunk of the pending bytes.
  lemma {:induction false} TakePending<S(!new)>(e: Entry<S>, p: Position<S>, n: nat)
    requires n <= |p.pending|
    ensures Take(e, p, n) == Supplied(p.pending[..n], p.(pending := p.pending[n..]))
    decreases n
  {
    if n > 0 {
      var q := p.(pending := p.pending[1..]);
      TakePending(e, q, n - 1);
      assert [p.pending[0]] + q.pending[..n - 1] == p.pending[..n];
      assert q.pending[n - 1..] == p.pending[n..];
    }
  }

  // ---------------------------------------------------------------------------------------------
  // Reading
  // ---------------------------------------------------------------------------------------------

  datatype Status = Ok | Sticky(error: Error)

  datatype State<S> = State(unpackLeft: nat, position: Position<S>, sum: u32, status: Status)

  datatype Outcome = Handed(bytes: seq<byte>) | Error(error: Error)

  // How many bytes come before the failure.  An entry that is not packed is read in one go or not at all.
  function TakenBefore<S(!new)>(e: Entry<S>, p: Position<S>, n: nat): (k: nat)
    requires Take(e, p, n).Broken?
    decreases n, p.pending == []
  {
    if !e.packed then 0
    else if p.pending != [] then 1 + TakenBefore(e, p.(pending := p.pending[1..]), n - 1)
    else
      match e.decrunch(p.decoder)
      case Failed(_) => 0
      case Delivered(next, bytes) => if bytes == [] then 0 else TakenBefore(e, Position(next, bytes), n)
  }

  lemma {:induction false} TakenIsSupplied<S(!new)>(e: Entry<S>, p: Position<S>, n: nat)
    requires Take(e, p, n).Broken?
    ensures TakenBefore(e, p, n) < n && Take(e, p, TakenBefore(e, p, n)).Supplied?
    decreases n, p.pending == []
  {
    if e.packed {
      if p.pending != [] {
        TakenIsSupplied(e, p.(pending := p.pending[1..]), n - 1);
      } else if e.decrunch(p.decoder).Delivered? && e.decrunch(p.decoder).bytes != [] {
        TakenIsSupplied(e, Position(e.decrunch(p.decoder).next, e.decrunch(p.decoder).bytes), n);
      }
    }
  }

  // After some bytes have come, the rest of what is asked for fails where it would have.
  lemma {:induction false} TakenSplit<S(!new)>(e: Entry<S>, p: Position<S>, m: nat, n: nat)
    requires e.packed && Take(e, p, m).Supplied? && Take(e, Take(e, p, m).after, n).Broken?
    ensures Take(e, p, m + n).Broken? && TakenBefore(e, p, m + n) == m + TakenBefore(e, Take(e, p, m).after, n)
    decreases m, p.pending == []
  {
    TakeSplit(e, p, m, n);
    if m > 0 {
      if p.pending != [] {
        TakenSplit(e, p.(pending := p.pending[1..]), m - 1, n);
      } else {
        TakenSplit(e, Position(e.decrunch(p.decoder).next, e.decrunch(p.decoder).bytes), m, n);
      }
    }
  }

  // The state when n bytes have come.
  function Advanced<S(!new)>(e: Entry<S>, st: State<S>, n: nat): State<S>
    requires n <= st.unpackLeft && Take(e, st.position, n).Supplied?
  {
    var s := Take(e, st.position, n);
    State(st.unpackLeft - n, s.after, Crc(e.crcStep, st.sum, s.bytes), st.status)
  }

  // One read: as many bytes as are asked for and left; the checksum is compared by the read that
  // leaves none.
  function ReadOnce<S(!new)>(e: Entry<S>, st: State<S>, size: nat): (State<S>, Outcome) {
    if st.status.Sticky? then (st, Error(st.status.error))
    else
      var n := Min(size, st.unpackLeft);
      match Take(e, st.position, n)
      case Broken(error) =>
        TakenIsSupplied(e, st.position, n);
        (Advanced(e, st, TakenBefore(e, st.position, n)).(status := Sticky(error)), Error(error))
      case Supplied(bytes, after) =>
        var st' := Advanced(e, st, n);
        if st'.unpackLeft == 0 && st'.sum != e.crc then (st'.(status := Sticky(CorruptData)), Error(CorruptData))
        else (st', Handed(bytes))
  }

  class Stream<S(!new)> {
    const entry: Entry<S>
    var unpackLeft: nat
    var decoder: S
    var pending: seq<byte>
    var sum: u32
    var status: Status

    function View(): State<S>
      reads this
    {
      State(unpackLeft, Position(decoder, pending), sum, status)
    }

    // A new stream: nothing has been handed out, and a packed entry has nothing decrunched yet.
    constructor (entry: Entry<S>, unpackSize: nat, decoder: S, stored: seq<byte>)
      ensures this.entry == entry
      ensures View() == State(unpackSize, Position(decoder, if entry.packed then [] else stored), 0, Ok)
    {
      this.entry := entry;
      unpackLeft := unpackSize;
      this.decoder := decoder;
      pending := if entry.packed then [] else stored;
      sum := 0;
      status := Ok;
    }

    // One chunk of at most `limit` bytes: what is already decrunched, or the next round if nothing is.
    method NextChunk(limit: nat) returns (result: Outcome)
      requires Productive(entry) && limit > 0
      modifies this`decoder, this`pending
      ensures result.Handed? ==>
                && 0 < |result.bytes| <= limit
                && Take(entry, old(View()).position, |result.bytes|) == Supplied(result.bytes, View().position)
                && (!entry.packed ==> |result.bytes| == limit)
      ensures result.Error? ==>
                && Take(entry, View().position, limit) == Broken(result.error) && View() == old(View())
                && TakenBefore(entry, View().position, limit) == 0
    {
      var count := limit;
      if entry.packed {
        if pending == [] {
          var round := entry.decrunch(decoder);
          if round.Failed? {
            return Error(round.error);
          }
          decoder, pending := round.next, round.bytes;
        }
        count := Min(count, |pending|);
      } else if count > |pending| {
        TakeTooMuch(entry, Position(decoder, pending), count);
        return Error(Eof);
      }
      TakePending(entry, Position(decoder, pending), count);
      result := Handed(pending[..count]);
      pending := pending[count..];
    }

    // Hand out up to size bytes.
    method Read(size: nat) returns (result: Outcome)
      requires Productive(entry)
      modifies this
      ensures (View(), result) == ReadOnce(entry, old(View()), size)
    {
      hide Fold, TakenBefore, Crc;
      assert Crc(entry.crcStep, sum, []) == sum by { CrcOfNone(entry.crcStep, sum); }
      if status.Sticky? {
        return Error(status.error);
      }
      ghost var st, want := View(), Min(size, unpackLeft);
      var done: seq<byte> := [];
      while |done| < size && unpackLeft > 0
        invariant |done| <= want && unpackLeft == st.unpackLeft - |done| && status.Ok?
        invariant sum == Crc(entry.crcStep, st.sum, done)
        invariant Take(entry, st.position, |done|) == Supplied(done, View().position)
        invariant !entry.packed ==> done == [] || |done| == want
      {
        var limit := Min(unpackLeft, size - |done|);
        var chunk := NextChunk(limit);
        if chunk.Error? {
          TakeSplit(entry, st.position, |done|, limit);
          if entry.packed { TakenSplit(entry, st.position, |done|, limit); }
          status := Sticky(chunk.error);
          return Error(chunk.error);
        }
        TakeSplit(entry, st.position, |done|, |chunk.bytes|);
        CrcConcat(entry.crcStep, st.sum, done, chunk.bytes);
        sum := CrcCalc(entry.crcStep, sum, chunk.bytes);
        done := done + chunk.bytes;
        unpackLeft := unpackLeft - |chunk.bytes|;
      }
      if unpackLeft == 0 && sum != entry.crc {
        status := Sticky(CorruptData);
        return Error(CorruptData);
      }
      result := Handed(done);
    }
  }

  lemma {:induction false} TakeTooMuch<S(!new)>(e: Entry<S>, p: Position<S>, n: nat)
    requires !e.packed && n > |p.pending|
    ensures Take(e, p, n) == Broken(Eof)
    decreases n
  {
    if p.pending != [] {
      TakeTooMuch(e, p.(pending := p.pending[1..]), n - 1);
    }
  }

  // ---------------------------------------------------------------------------------------------
  // Reading in pieces
  // ---------------------------------------------------------------------------------------------

  function Pieces<S(!new)>(e: Entry<S>, st: State<S>, sizes: seq<nat>): (State<S>, Outcome)
    decreases |sizes|
  {
    if sizes == [] then (st, Handed([]))
    else
      var (st1, o1) := ReadOnce(e, st, sizes[0]);
      if o1.Error? then (st1, o1)
      else
        var (st2, o2) := Pieces(e, st1, sizes[1..]);
        if o2.Error? then (st2, o2) else (st2, Handed(o1.bytes + o2.bytes))
  }

  function Total(sizes: seq<nat>): nat {
    if sizes == [] then 0 else sizes[0] + Total(sizes[1..])
  }

  // Every successful read hands out exactly what was asked for, up to the end of the entry.
  lemma ReadMakesProgress<S(!new)>(e: Entry<S>, st: State<S>, size: nat)
    ensures var (st', o) := ReadOnce(e, st, size);
            o.Handed? ==> |o.bytes| == Min(size, st.unpackLeft) && st'.unpackLeft == st.unpackLeft - |o.bytes|
  {
    TakeLength(e, st.position, Min(size, st.unpackLeft));
  }

  // What a caller sees who goes on reading whatever comes.
  function Outcomes<S(!new)>(e: Entry<S>, st: State<S>, sizes: seq<nat>): (os: seq<Outcome>)
    ensures |os| == |sizes|
    decreases |sizes|
  {
    if sizes == [] then []
    else
      var (st', o) := ReadOnce(e, st, sizes[0]);
      [o] + Outcomes(e, st', sizes[1..])
  }

  // The bytes that such a caller has got.
  function HandedOut(os: seq<Outcome>): seq<byte> {
    if os == [] then [] else (if os[0].Handed? then os[0].bytes else []) + HandedOut(os[1..])
  }

  lemma {:induction false} NothingAfterError<S(!new)>(e: Entry<S>, st: State<S>, sizes: seq<nat>)
    requires st.status.Sticky?
    ensures HandedOut(Outcomes(e, st, sizes)) == []
    decreases |sizes|
  {
    if sizes != [] {
      NothingAfterError(e, st, sizes[1..]);
      assert Outcomes(e, st, sizes)[1..] == Outcomes(e, st, sizes[1..]);
    }
  }

  // Once a read has failed every later one fails in the same way.
  lemma {:induction false} ErrorsStick<S(!new)>(e: Entry<S>, st: State<S>, sizes: seq<nat>, i: nat, j: nat)
    requires i < j < |sizes| && Outcomes(e, st, sizes)[i].Error?
    ensures Outcomes(e, st, sizes)[j] == Outcomes(e, st, sizes)[i]
    decreases |sizes|
  {
    var st' := ReadOnce(e, st, sizes[0]).0;
    if i > 0 {
      ErrorsStick(e, st', sizes[1..], i - 1, j - 1);
    } else {
      StaysFailed(e, st', sizes[1..], j - 1);
    }
  }

  lemma {:induction false} StaysFailed<S(!new)>(e: Entry<S>, st: State<S>, sizes: seq<nat>, j: nat)
    requires st.status.Sticky? && j < |sizes|
    ensures Outcomes(e, st, sizes)[j] == Error(st.status.error)
    decreases |sizes|
  {
    if j > 0 { StaysFailed(e, st, sizes[1..], j - 1); }
  }

  // What reading to the end comes to when the supply gives all the bytes: they are handed out if and only if
  // their checksum, on top of what was summed before, is that of the entry.
  lemma SumIsChecked<S(!new)>(e: Entry<S>, st: State<S>, sizes: seq<nat>)
    requires sizes != [] && Total(sizes) >= st.unpackLeft && st.status.Ok?
    requires Take(e, st.position, st.unpackLeft).Supplied?
    ensures var bytes := Take(e, st.position, st.unpackLeft).bytes;
      Pieces(e, st, sizes).1 == if Crc(e.crcStep, st.sum, bytes) == e.crc then Handed(bytes) else Error(CorruptData)
  {
    PiecesAreWhole(e, st, sizes);
  }

  // Of reads that go on whatever comes, those before the end succeed; the read that empties the entry
  // succeeds if and only if the checksum of all bytes is right, and fails with CorruptData otherwise.
  lemma {:induction false} SumIsCheckedAtTheEnd<S(!new)>(e: Entry<S>, st: State<S>, sizes: seq<nat>, i: nat)
    requires i < |sizes| && st.status.Ok? && Take(e, st.position, st.unpackLeft).Supplied?
    requires Total(sizes[..i]) < st.unpackLeft <= Total(sizes[..i + 1])
    ensures forall j | 0 <= j < i :: Outcomes(e, st, sizes)[j].Handed?
    ensures var sum := Crc(e.crcStep, st.sum, Take(e, st.position, st.unpackLeft).bytes);
      var o := Outcomes(e, st, sizes)[i];
      if sum == e.crc then o.Handed? else o == Error(CorruptData)
    decreases |sizes|
  {
    hide Crc;
    var n := Min(sizes[0], st.unpackLeft);
    var (st1, o1) := ReadOnce(e, st, sizes[0]);
    TakeSplit(e, st.position, n, st.unpackLeft - n);
    if i == 0 {
      assert sizes[..1][1..] == [];
    } else {
      assert sizes[..i][1..] == sizes[1..][..i - 1] && sizes[..i + 1][1..] == sizes[1..][..i];
      CrcConcat(e.crcStep, st.sum, Take(e, st.position, n).bytes, Take(e, st1.position, st1.unpackLeft).bytes);
      SumIsCheckedAtTheEnd(e, st1, sizes[1..], i - 1);
    }
  }

  // Reading to the end in any pieces has the same outcome - the same bytes, or the same error - as
  // reading the whole entry at once.
  lemma {:induction false} PiecesAreWhole<S(!new)>(e: Entry<S>, st: State<S>, sizes: seq<nat>)
    requires sizes != [] && Total(sizes) >= st.unpackLeft
    ensures Pieces(e, st, sizes).1 == ReadOnce(e, st, st.unpackLeft).1
    decreases |sizes|
  {
    if st.status.Ok? {
      var n := Min(sizes[0], st.unpackLeft);
      var (st1, o1) := ReadOnce(e, st, sizes[0]);
      TakeSplit(e, st.position, n, st.unpackLeft - n);
      ReadMakesProgress(e, st, sizes[0]);
      if sizes[1..] == [] {
        assert o1.Handed? ==> o1.bytes + [] == o1.bytes;
      } else if o1.Handed? {
        PiecesAreWhole(e, st1, sizes[1..]);
        var rest := Take(e, st1.position, st1.unpackLeft);
        if rest.Supplied? {
          CrcConcat(e.crcStep, st.sum, o1.bytes, rest.bytes);
        }
      }
    }
  }
}
