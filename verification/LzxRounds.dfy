// The rounds of unlzx (external/unlzx/unlzx.c, stream_decrunch): the read buffer is topped up, a block
// header is read when the last block is used up, the window is wrapped when it is full, and the decrunch
// loop runs.  Any number of rounds is one run of the reference decoder over all the input.

module LzxRounds {
  import opened Bits
  import opened LzxDecrunch
  import opened LzxHeader
  import opened LzxInput
  import opened LzxMachine
  import opened Wrappers
  import LzxStream

  const READ_BUFFER_SIZE: nat := 16384

  lemma {:induction false} FlatBitsConcat(a: seq<byte>, b: seq<byte>)
    requires |a| % 2 == 0
    ensures FlatBits(a + b) == FlatBits(a) + FlatBits(b)
  {
    if a == [] {
      assert a + b == b;
    } else {
      assert (a + b)[2..] == a[2..] + b;
      FlatBitsConcat(a[2..], b);
    }
  }

  // Astray: a header that the parser finds Outside; nothing is claimed of what the code does then.
  datatype Result = Run(bytes: seq<byte>) | Fails(error: LzxStream.Error) | Astray

  class Decruncher {
    const reg: Register
    const win: Window
    var data: seq<byte>            // the archive from here on
    var packLeft: nat
    var block: Block
    var lastOffset: nat
    var decrunchLength: nat
    // The archive, and what of it belongs to the entry.
    ghost const archive: seq<byte>
    ghost const packSize: nat
    // Every byte that was put into the read buffer, and the tokens there have been.
    ghost var fed: seq<byte>
    ghost var tokens: nat

    ghost function Ref(): (m: Machine)
      reads this
      ensures Sane(m)
    {
      Steps(Start(FlatBits(fed)), tokens)
    }

    // What was put in is the archive up to here, or all of the entry and whatever was in the buffer behind.
    ghost predicate Drawn()
      reads this
    {
      && packLeft <= packSize && packSize - packLeft <= |archive|
      && data == archive[packSize - packLeft..] && archive[..packSize - packLeft] <= fed
      && (packLeft > 0 ==> fed == archive[..packSize - packLeft])
    }

    // The decoder is where the machine is, as long as that goes on.
    ghost predicate Follows(m: Machine)
      reads this, reg, win, win.buffer
    {
      m.Machine? ==>
        m.codes == block.codes && m.left == decrunchLength && Tracks(reg, win, lastOffset, m.ref)
    }

    ghost predicate Valid()
      reads this, reg, win, win.buffer
    {
      && reg.Valid() && |reg.readBuffer| == READ_BUFFER_SIZE && win.Valid()
      && 1 <= lastOffset < SPAN && decrunchLength < TWO_TO_THE_32 && Kept(block)
      && (decrunchLength > 0 ==> reg.Loaded() && ValidBlock(block))
      && |fed| % 2 == 0 && Drawn() && FedFor(Start(FlatBits(fed)), tokens) && Follows(Ref())
    }

    // A new stream.  The window starts full of nothing, the read buffer used up, and no lengths are known.
    constructor (readBuffer: seq<byte>, data: seq<byte>, packSize: nat)
      requires |readBuffer| == READ_BUFFER_SIZE
      ensures Valid() && fresh(reg) && fresh(win) && fresh(win.buffer)
      ensures archive == data && this.packSize == packSize && fed == [] && tokens == 0 && Ref() == Start([])
    {
      hide ParseHeader, Mirrors;
      reg := new Register(readBuffer);
      win := new Window();
      this.data, packLeft, archive, this.packSize := data, packSize, data, packSize;
      block := Block(Start([]).codes, [], []);
      lastOffset, decrunchLength := 1, 0;
      fed, tokens := [], 0;
    }

    lemma FedMore(added: seq<byte>)
      requires Valid()
      ensures Steps(Start(FlatBits(fed + added)), tokens) == MoreBehind(Ref(), FlatBits(added))
      ensures FedFor(Start(FlatBits(fed + added)), tokens)
    {
      hide Steps, FedFor, Drawn, Follows, Kept, ValidBlock;
      FlatBitsConcat(fed, added);
      StepsMore(Start(FlatBits(fed)), FlatBits(added), tokens);
    }

    // The archive ends before the entry does, or the entry and the buffer are used up.
    ghost predicate Dry()
      reads this, reg
    {
      && |reg.source| <= GUARD
      && var count := Min(READ_BUFFER_SIZE - |reg.source|, packLeft); count > |data| || |reg.source| + count == 0
    }

    // Put what is left in front, and the next of the archive behind.
    method TakeIn(count: nat)
      requires Valid() && |reg.source| <= GUARD && count == Min(READ_BUFFER_SIZE - |reg.source|, packLeft) <= |data|
      modifies this`data, this`packLeft, this`fed, reg`readBuffer, reg`source
      ensures Valid() && |reg.source| > GUARD
      ensures exists more :: Ref() == MoreBehind(old(Ref()), more)
    {
      hide Steps, FedFor, FlatBits, Mirrors, ValidBlock, Kept;
      var kept := reg.source;
      ghost var added := data[..count] + reg.readBuffer[|kept| + count..];
      FedMore(added);
      DrawMore(archive, fed, packSize - packLeft, count, added);
      UnreadMore(reg.waiting, kept, added);
      var buffer := kept + data[..count] + reg.readBuffer[|kept| + count..];
      assert buffer == kept + added;
      data, packLeft := data[count..], packLeft - count;
      reg.readBuffer, reg.source, fed := buffer, buffer, fed + added;
      assert Ref() == MoreBehind(old(Ref()), FlatBits(added));
    }

    // Top up the read buffer when little is left of it.  What was behind stays behind when the input ends.
    method TopUp() returns (error: Option<LzxStream.Error>)
      requires Valid()
      modifies this`data, this`packLeft, this`fed, reg`readBuffer, reg`source
      ensures Drawn() && (error.Some? <==> old(Dry()))
      ensures error.Some? ==> error.value.Eof? && Dry() && Ref() == old(Ref())
      ensures error.None? ==> Valid() && |reg.source| > GUARD
      ensures error.None? ==> exists more :: Ref() == MoreBehind(old(Ref()), more)
    {
      hide Ref, Drawn, Follows, FedFor, FlatBits, ValidBlock, Kept;
      if |reg.source| > GUARD {
        NothingBehind(Ref());
        return None;
      }
      var count := Min(READ_BUFFER_SIZE - |reg.source|, packLeft);
      if count > |data| { return Some(LzxStream.Eof); }
      if |reg.source| + count == 0 { return Some(LzxStream.Eof); }
      TakeIn(count);
      error := None;
    }

    // Read a block header if the last block is used up.
    method NextBlock() returns (v: Verdict)
      requires Valid() && |reg.source| > GUARD
      modifies this`block, this`decrunchLength, reg`source, reg`control, reg`shift, reg`waiting
      ensures v.Fine? ==>
        && reg.Loaded() && |reg.Unread()| >= TOKEN_BITS && Kept(block) && ValidBlock(block)
        && decrunchLength < TWO_TO_THE_32 && HasInput(Ref()) && Follows(Opened(Ref()))
      ensures !v.Fine? ==> HeaderFails(v, Ref())
    {
      hide Steps, FedFor, FlatBits, Mirrors, ValidBlock, Kept, ParseHeader, Drawn;
      PlentyLeft(reg);
      v := Fine;
      if decrunchLength == 0 {
        ghost var m := Ref();
        KeptLengths(block);
        v, block, decrunchLength := ReadHeader(reg, block);
        if v.Fine? { HeaderIsRead(m, block.codes, decrunchLength, reg.Unread()); }
      }
    }

    // Wrap the window if it is full, clip the end, and decrunch.
    method RunBlock() returns (result: Result)
      requires reg.Loaded() && |reg.readBuffer| == READ_BUFFER_SIZE && win.Valid() && |reg.Unread()| >= TOKEN_BITS
      requires 1 <= lastOffset < SPAN && decrunchLength < TWO_TO_THE_32 && Kept(block) && ValidBlock(block)
      requires |fed| % 2 == 0 && Drawn() && FedFor(Start(FlatBits(fed)), tokens)
      requires HasInput(Ref()) && Follows(Opened(Ref()))
      modifies `lastOffset, `decrunchLength, `tokens, reg`source, reg`control, reg`shift, reg`waiting
      modifies win`destination, win.buffer
      ensures Valid() && result.Run? && result.bytes != [] && tokens > old(tokens)
      ensures Ref().Machine? ==>
        old(Ref()).Machine? && Ref().ref.history == old(Ref()).ref.history + result.bytes
    {
      hide Steps, FedFor, FlatBits, Mirrors, ValidBlock, Kept, DecodeMany, Ample, Unfilled, Less, HasInput;
      hide Opened;
      ghost var m, o := Ref(), Opened(Ref());
      ghost var r := if o.Machine? then o.ref else Broken;
      if win.destination >= EDGE + SPAN {
        win.Wrap(if r.Reference? then r.history else []);
      }
      var start := win.destination;
      var destinationEnd := Min(start + decrunchLength, EDGE + SPAN);
      ghost var left := decrunchLength;
      ghost var n;
      lastOffset, n := Decrunch(reg, win, block, lastOffset, destinationEnd, r);
      var count := win.destination - start;
      decrunchLength := (decrunchLength - count) % TWO_TO_THE_32;
      result := Run(win.buffer[start..win.destination]);
      ghost var before := tokens;
      tokens := tokens + n;
      LessIs(left, r, DecodeMany(block.codes, r, n), count);
      TurnIsSteps(m, Start(FlatBits(fed)), before, n, block.codes, left, destinationEnd - start);
      if Ref().Machine? { WindowHasRun(win, r.history, Ref().ref.history, start); }
    }

    // Once everything that was decrunched has been handed out: decrunch the next run of bytes.
    method Round() returns (result: Result)
      requires Valid()
      modifies this, reg, win, win.buffer
      ensures Drawn()
      ensures result.Run? ==> Valid() && result.bytes != [] && tokens > old(tokens)
      ensures Ref().Machine? ==>
        && old(Ref()).Machine?
        && Ref().ref.history == old(Ref()).ref.history + (if result.Run? then result.bytes else [])
      ensures result == Fails(LzxStream.Eof) <==> old(Dry())
      ensures result == Fails(LzxStream.Eof) ==> Dry()
      ensures result == Fails(LzxStream.CorruptData) ==> HeaderFails(Flawed, Ref())
      ensures result.Astray? ==> HeaderFails(Beyond, Ref())
    {
      hide Steps, FedFor, FlatBits, Mirrors, ValidBlock, Kept, ParseHeader, Opened, HasInput;
      var error := TopUp();
      if error.Some? { return Fails(error.value); }
      var v := NextBlock();
      match v {
        case Fine => result := RunBlock();
        case Flawed => result := Fails(LzxStream.CorruptData);
        case Beyond => result := Astray;
      }
    }
  }

  // The machine is at a header that is corrupt, or that is more than the code can deal with.
  ghost predicate HeaderFails(v: Verdict, m: Machine)
    requires Sane(m)
  {
    m.Machine? ==>
      && m.left == 0 && |m.ref.bits| >= 8 * GUARD
      && var r := ParseHeader(m.codes, m.ref.bits); if v.Flawed? then r.Corrupt? else r.Outside?
  }

  lemma HeaderIsRead(m: Machine, codes: Codes, length: nat, rest: seq<bool>)
    requires Sane(m)
    requires m.Machine? ==> m.left == 0 && ParseHeader(m.codes, m.ref.bits) == Reading(Announced(codes, length), rest)
    ensures HasInput(m)
    ensures Opened(m) == if m.Halted? then Halted else Machine(m.ref.(bits := rest), codes, length)
  {
    hide ParseHeader;
  }

  // What the loop has decoded of the block are the machine's next steps.
  lemma TurnIsSteps(m: Machine, start: Machine, tokens: nat, n: nat, codes: Codes, left: nat, size: int)
    requires Sane(start) && FedFor(start, tokens) && m == Steps(start, tokens) && HasInput(m) && n >= 1
    requires left < TWO_TO_THE_32 && size <= left
    requires var o := Opened(m); o.Machine? ==>
      o.codes == codes && o.left == left && Unfilled(codes, o.ref, n, size) && Ample(codes, o.ref, n)
    ensures var o := Opened(m);
      && (o.Machine? ==> m.Machine? && o.ref.Reference? && o.ref.history == m.ref.history)
      && FedFor(start, tokens + n)
      && Steps(start, tokens + n) ==
        if o.Halted? then Halted
        else At(DecodeMany(codes, o.ref, n), codes, Less(left, o.ref, DecodeMany(codes, o.ref, n)))
  {
    hide Steps, FedFor, HasInput, DecodeMany, Ample, Unfilled, Less, Opened;
    var o := Opened(m);
    OpenedKeeps(m);
    if o.Machine? {
      UnfilledWithin(codes, o.ref, n, size, left);
      BlockIsSteps(m, n);
    } else {
      StaysHalted(m, n);
    }
    BlockIsFed(m, n);
    StepsSplit(start, tokens, n);
    FedOn(start, tokens, n);
  }

  lemma OpenedKeeps(m: Machine)
    requires Sane(m)
    ensures var o := Opened(m); o.Machine? ==> m.Machine? && o.ref.Reference? && o.ref.history == m.ref.history
  {
    hide ParseHeader;
  }

  lemma LessIs(left: nat, r: Reference, r': Reference, count: nat)
    requires Extends(r, r', count)
    ensures r'.Reference? ==> Less(left, r, r') == (left - count) % TWO_TO_THE_32
  {
  }

  lemma UnfilledWithin(c: Codes, r: Reference, n: nat, size: int, size': int)
    requires Unfilled(c, r, n, size) && size <= size'
    ensures Unfilled(c, r, n, size')
  {
    hide DecodeMany;
  }

  // There is more than enough for a token in front of the guard.
  lemma PlentyLeft(reg: Register)
    requires reg.Valid() && |reg.source| > GUARD && |reg.readBuffer| == READ_BUFFER_SIZE
    ensures |reg.Unread()| >= 8 * GUARD
  {
    FlatBitsLength(reg.source);
  }

  // Taking `count` bytes of the archive into the buffer.
  lemma DrawMore(archive: seq<byte>, fed: seq<byte>, taken: nat, count: nat, added: seq<byte>)
    requires taken + count <= |archive| && archive[..taken] <= fed && archive[taken..][..count] <= added
    ensures archive[..taken] <= fed + added
    ensures fed == archive[..taken] ==> archive[..taken + count] <= fed + added
    ensures fed == archive[..taken] && |added| == count ==> fed + added == archive[..taken + count]
  {
    assert archive[..taken + count] == archive[..taken] + archive[taken..][..count];
  }

  // The bytes behind `start` are those that the history has got since.
  lemma WindowHasRun(win: Window, before: seq<byte>, after: seq<byte>, start: nat)
    requires win.Valid() && win.Shows(after) && start <= win.destination
    requires before <= after && |after| == |before| + (win.destination - start)
    ensures after == before + win.buffer[start..win.destination]
  {
    forall x: nat | start <= x < win.destination
      ensures win.buffer[x] == after[|before| + x - start]
    {
      win.ShownByte(x, after);
    }
  }

  lemma UnreadMore(waiting: seq<bool>, kept: seq<byte>, added: seq<byte>)
    requires |kept| % 2 == 0
    ensures waiting + FlatBits(kept + added) == waiting + FlatBits(kept) + FlatBits(added)
  {
    FlatBitsConcat(kept, added);
  }

  lemma NothingBehind(m: Machine)
    ensures MoreBehind(m, []) == m
  {
    if m.Machine? && m.ref.Reference? { assert m.ref.bits + [] == m.ref.bits; }
  }

  // ---------------------------------------------------------------------------------------------
  // Any number of rounds
  // ---------------------------------------------------------------------------------------------

  // Rounds until one fails, n at most.  Their bytes one after the other are what the reference decoder
  // puts out, from all of the input.
  method Rounds(d: Decruncher, n: nat) returns (runs: seq<seq<byte>>, end: Option<Result>)
    requires d.Valid()
    modifies d, d.reg, d.win, d.win.buffer
    ensures d.Drawn() && |runs| <= n && (forall run :: run in runs ==> run != [])
    ensures d.Ref().Machine? ==>
      old(d.Ref()).Machine? && d.Ref().ref.history == old(d.Ref()).ref.history + Concat(runs)
    ensures end.None? ==> |runs| == n && d.Valid()
    ensures end.Some? ==> !end.value.Run?
    ensures end == Some(Fails(LzxStream.Eof)) ==> d.Dry()
    ensures end == Some(Fails(LzxStream.CorruptData)) ==> HeaderFails(Flawed, d.Ref())
    ensures end == Some(Astray) ==> HeaderFails(Beyond, d.Ref())
  {
    hide Decruncher.Valid, Decruncher.Ref, Decruncher.Drawn, Decruncher.Dry, HeaderFails;
    runs, end := [], None;
    ghost var before := d.Ref();
    assert d.Drawn() by { IsDrawn(d); }
    while |runs| < n
      invariant d.Valid() && d.Drawn() && |runs| <= n && (forall run :: run in runs ==> run != [])
      invariant d.Ref().Machine? ==> before.Machine? && d.Ref().ref.history == before.ref.history + Concat(runs)
    {
      var result := d.Round();
      if !result.Run? { return runs, Some(result); }
      ConcatSnoc(runs, result.bytes);
      runs := runs + [result.bytes];
    }
  }

  lemma IsDrawn(d: Decruncher)
    requires d.Valid()
    ensures d.Drawn()
  {
  }

  // ---------------------------------------------------------------------------------------------
  // The rounds as the supply of a stream
  // ---------------------------------------------------------------------------------------------

  // An entry whose rounds are these, until one fails.
  function EntryOf(runs: seq<seq<byte>>, error: LzxStream.Error, crcStep: (LzxStream.u32, byte) -> LzxStream.u32,
                   crc: LzxStream.u32): LzxStream.Entry<int>
  {
    LzxStream.Entry(true,
                    (i: int) => if 0 <= i < |runs| then LzxStream.Delivered(i + 1, runs[i])
                      else LzxStream.Failed(error),
                    crcStep, crc)
  }

  lemma RoundsAreProductive(runs: seq<seq<byte>>, error: LzxStream.Error,
                            crcStep: (LzxStream.u32, byte) -> LzxStream.u32, crc: LzxStream.u32)
    requires forall run :: run in runs ==> run != []
    ensures LzxStream.Productive(EntryOf(runs, error, crcStep, crc))
  {
    var e := EntryOf(runs, error, crcStep, crc);
    forall i: int ensures e.decrunch(i).Delivered? ==> e.decrunch(i).bytes != [] {
      if 0 <= i < |runs| { assert runs[i] in runs; }
    }
  }

  // What is still to come when the first i rounds have been handed out.
  function From(runs: seq<seq<byte>>, i: nat): seq<byte>
    requires i <= |runs|
    decreases |runs| - i
  {
    if i == |runs| then [] else runs[i] + From(runs, i + 1)
  }

  lemma {:induction false} FromConcat(runs: seq<seq<byte>>, i: nat)
    requires i <= |runs|
    ensures Concat(runs[..i]) + From(runs, i) == Concat(runs)
    decreases |runs| - i
  {
    if i == |runs| {
      assert runs[..i] == runs;
    } else {
      FromConcat(runs, i + 1);
      assert runs[..i + 1][..i] == runs[..i];
      assert Concat(runs[..i]) + (runs[i] + From(runs, i + 1)) == Concat(runs[..i]) + runs[i] + From(runs, i + 1);
    }
  }

  // What is left of the rounds, and of the one that has been begun.
  function Left(runs: seq<seq<byte>>, p: LzxStream.Position<int>): seq<byte>
    requires 0 <= p.decoder <= |runs|
  {
    p.pending + From(runs, p.decoder)
  }

  lemma {:induction false} RunsSupply(e: LzxStream.Entry<int>, runs: seq<seq<byte>>, error: LzxStream.Error,
                                      p: LzxStream.Position<int>, n: nat)
    requires e == EntryOf(runs, error, e.crcStep, e.crc) && (forall run :: run in runs ==> run != [])
    requires 0 <= p.decoder <= |runs|
    ensures var s := LzxStream.Take(e, p, n);
      && (s.Supplied? <==> n <= |Left(runs, p)|)
      && (s.Supplied? ==>
            && s.bytes == Left(runs, p)[..n] && 0 <= s.after.decoder <= |runs|
            && Left(runs, s.after) == Left(runs, p)[n..])
    decreases n, |runs| - p.decoder
  {
    if n > 0 {
      if p.pending != [] {
        var q := p.(pending := p.pending[1..]);
        RunsSupply(e, runs, error, q, n - 1);
        assert Left(runs, p) == [p.pending[0]] + Left(runs, q);
      } else if p.decoder < |runs| {
        assert runs[p.decoder] in runs;
        RunsSupply(e, runs, error, LzxStream.Position(p.decoder + 1, runs[p.decoder]), n);
        assert [] + From(runs, p.decoder) == From(runs, p.decoder);
      }
    }
  }

  // Whatever is read, the bytes that are handed out are the next ones of the rounds.
  lemma {:induction false} HandedIsPrefix(e: LzxStream.Entry<int>, runs: seq<seq<byte>>, error: LzxStream.Error,
                                          st: LzxStream.State<int>, sizes: seq<nat>)
    requires e == EntryOf(runs, error, e.crcStep, e.crc) && (forall run :: run in runs ==> run != [])
    requires 0 <= st.position.decoder <= |runs|
    ensures LzxStream.HandedOut(LzxStream.Outcomes(e, st, sizes)) <= Left(runs, st.position)
    decreases |sizes|
  {
    hide LzxStream.Take, LzxStream.Crc, Left;
    if sizes != [] {
      var (st', o) := LzxStream.ReadOnce(e, st, sizes[0]);
      var n := Min(sizes[0], st.unpackLeft);
      assert LzxStream.Outcomes(e, st, sizes)[1..] == LzxStream.Outcomes(e, st', sizes[1..]);
      if o.Error? {
        LzxStream.NothingAfterError(e, st', sizes[1..]);
      } else {
        RunsSupply(e, runs, error, st.position, n);
        HandedIsPrefix(e, runs, error, st', sizes[1..]);
      }
    }
  }

  // The bytes that reads of these sizes hand out, from the start of the entry and going on whatever comes.
  function ReadsOf(runs: seq<seq<byte>>, error: LzxStream.Error, crcStep: (LzxStream.u32, byte) -> LzxStream.u32,
                   crc: LzxStream.u32, unpackSize: nat, sizes: seq<nat>): seq<byte>
  {
    var start := LzxStream.State(unpackSize, LzxStream.Position(0, []), 0, LzxStream.Ok);
    LzxStream.HandedOut(LzxStream.Outcomes(EntryOf(runs, error, crcStep, crc), start, sizes))
  }

  lemma ReadsArePrefix(runs: seq<seq<byte>>, error: LzxStream.Error, crcStep: (LzxStream.u32, byte) -> LzxStream.u32,
                       crc: LzxStream.u32, unpackSize: nat, sizes: seq<nat>)
    requires forall run :: run in runs ==> run != []
    ensures ReadsOf(runs, error, crcStep, crc, unpackSize, sizes) <= Concat(runs)
  {
    var start := LzxStream.State(unpackSize, LzxStream.Position(0, []), 0, LzxStream.Ok);
    HandedIsPrefix(EntryOf(runs, error, crcStep, crc), runs, error, start, sizes);
    FromConcat(runs, 0);
    assert Left(runs, start.position) == Concat(runs);
  }

  // A packed entry from the start, for n rounds at most: whatever reads there are, of whatever sizes, they
  // hand out a prefix of what the reference decoder makes of the bits of the entry.
  method Unpack(readBuffer: seq<byte>, data: seq<byte>, packSize: nat, n: nat)
    returns (d: Decruncher, runs: seq<seq<byte>>, end: Option<Result>)
    requires |readBuffer| == READ_BUFFER_SIZE
    ensures d.archive == data && d.packSize == packSize && d.Drawn() && (end.None? ==> |runs| == n)
    ensures end == Some(Fails(LzxStream.Eof)) ==> d.Dry()
    ensures end == Some(Fails(LzxStream.CorruptData)) ==> HeaderFails(Flawed, d.Ref())
    ensures end == Some(Astray) ==> HeaderFails(Beyond, d.Ref())
    ensures d.Ref().Machine? ==> d.Ref().ref.history == Concat(runs)
    ensures d.Ref().Machine? ==>
      forall error, crcStep, crc, unpackSize, sizes ::
        ReadsOf(runs, error, crcStep, crc, unpackSize, sizes) <= d.Ref().ref.history
  {
    hide Decruncher.Valid, Decruncher.Ref, Decruncher.Drawn, Decruncher.Dry, HeaderFails, ReadsOf;
    d := new Decruncher(readBuffer, data, packSize);
    runs, end := Rounds(d, n);
    assert [] + Concat(runs) == Concat(runs);
    forall error, crcStep, crc, unpackSize, sizes
      ensures ReadsOf(runs, error, crcStep, crc, unpackSize, sizes) <= Concat(runs)
    {
      ReadsArePrefix(runs, error, crcStep, crc, unpackSize, sizes);
    }
  }

  // Reads of any sizes, up to the end of an entry: they hand out what the rounds have decrunched, the history
  // of the reference decoder, if and only if its checksum is that of the entry, and fail as corrupt otherwise.
  lemma ReadsHandOutTheHistory(runs: seq<seq<byte>>, error: LzxStream.Error,
                               crcStep: (LzxStream.u32, byte) -> LzxStream.u32, crc: LzxStream.u32,
                               unpackSize: nat, sizes: seq<nat>)
    requires forall run :: run in runs ==> run != []
    requires sizes != [] && LzxStream.Total(sizes) >= unpackSize && unpackSize <= |Concat(runs)|
    ensures var content := Concat(runs)[..unpackSize];
      var start := LzxStream.State(unpackSize, LzxStream.Position(0, []), 0, LzxStream.Ok);
      LzxStream.Pieces(EntryOf(runs, error, crcStep, crc), start, sizes).1 ==
        if LzxStream.Crc(crcStep, 0, content) == crc then LzxStream.Handed(content)
        else LzxStream.Outcome.Error(LzxStream.CorruptData)
  {
    var e := EntryOf(runs, error, crcStep, crc);
    var start := LzxStream.State(unpackSize, LzxStream.Position(0, []), 0, LzxStream.Ok);
    FromConcat(runs, 0);
    RunsSupply(e, runs, error, start.position, unpackSize);
    assert Left(runs, start.position) == Concat(runs);
    LzxStream.SumIsChecked(e, start, sizes);
  }
}
