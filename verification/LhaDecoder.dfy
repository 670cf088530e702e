// Reading from an LHA decoder in pieces (external/lhasa/lib/lha_decoder.c): whatever the sizes of the
// reads and of the runs that the codec delivers, the pieces make up the codec's output, cut at the
// length of the stream.

module LhaDecoder {
  import opened Bits
  import opened Wrappers

  // What the codec delivers, run by run; an empty run is the end, or an error.
  function Output(runs: seq<seq<byte>>): (r: seq<byte>) {
    if runs == [] || runs[0] == [] then [] else runs[0] + Output(runs[1..])
  }

  class Decoder {
    const step: (nat, byte) -> nat
    const streamLength: nat
    const initialCrc: nat
    ghost const whole: seq<byte>         // all that the codec would deliver
    var runs: seq<seq<byte>>             // what it has still to deliver
    var outbuf: seq<byte>
    var outbufPos: nat
    var decoderFailed: bool
    var streamPos: nat
    var crc: nat

    constructor (step: (nat, byte) -> nat, crc: nat, streamLength: nat, runs: seq<seq<byte>>)
      ensures Valid() && whole == Output(runs) && streamPos == 0 && this.streamLength == streamLength
    {
      this.step, this.streamLength, this.initialCrc, this.runs := step, streamLength, crc, runs;
      whole := Output(runs);
      outbuf, outbufPos, decoderFailed, streamPos, this.crc := [], 0, false, 0, crc;
    }

    // What is left, in the buffer and in the codec; once the codec has failed it is not asked again.
    ghost function Left(): seq<byte>
      requires outbufPos <= |outbuf|
      reads this
    {
      outbuf[outbufPos..] + if decoderFailed then [] else Output(runs)
    }

    ghost predicate Valid()
      reads this
    {
      && outbufPos <= |outbuf| && streamPos <= streamLength && streamPos <= |whole|
      && Left() == whole[streamPos..]
      && crc == Fold(step, initialCrc, whole[..streamPos])
    }

    method NextRun() returns (run: seq<byte>)
      modifies `runs
      ensures run == (if old(runs) == [] then [] else old(runs)[0])
      ensures runs == if old(runs) == [] then [] else old(runs)[1..]
    {
      if runs == [] { return []; }
      run, runs := runs[0], runs[1..];
    }

    // Some of what is in the buffer is copied out.
    method Drain(size: nat) returns (piece: seq<byte>)
      requires outbufPos <= |outbuf|
      modifies `outbufPos
      ensures outbufPos <= |outbuf| && piece + Left() == old(Left())
      ensures |piece| == Min(|outbuf| - old(outbufPos), size) && outbufPos == old(outbufPos) + |piece|
    {
      hide Output;
      var bytes := Min(|outbuf| - outbufPos, size);
      piece := outbuf[outbufPos..outbufPos + bytes];
      ghost var coming := if decoderFailed then [] else Output(runs);
      assert outbuf[outbufPos..] == piece + outbuf[outbufPos + bytes..];
      assert piece + outbuf[outbufPos + bytes..] + coming == piece + (outbuf[outbufPos + bytes..] + coming);
      outbufPos := outbufPos + bytes;
    }

    // The empty buffer is filled by another run.
    method Refill()
      requires outbufPos == |outbuf| && !decoderFailed
      modifies `runs, `outbuf, `outbufPos, `decoderFailed
      ensures outbufPos == 0 && Left() == old(Left()) && (decoderFailed <==> outbuf == [])
      ensures !decoderFailed ==> |runs| < |old(runs)|
    {
      assert Left() == Output(runs);
      outbuf := NextRun();
      outbufPos := 0;
      if |outbuf| == 0 { decoderFailed := true; }
    }

    // The loop of lha_decoder_read.
    method Fill(bufLen: nat) returns (buf: seq<byte>)
      requires outbufPos <= |outbuf|
      modifies `runs, `outbuf, `outbufPos, `decoderFailed
      ensures outbufPos <= |outbuf| && |buf| == Min(bufLen, |old(Left())|)
      ensures buf + Left() == old(Left())
    {
      hide Output;
      buf := [];
      ghost var all := Left();
      var more := true;
      while |buf| < bufLen && more
        invariant outbufPos <= |outbuf| && |buf| <= bufLen && buf + Left() == all
        invariant !more ==> |buf| == bufLen || Left() == []
        decreases more, if decoderFailed then 0 else |runs| + 1, bufLen - |buf|
      {
        var piece := Drain(bufLen - |buf|);
        assert buf + (piece + Left()) == (buf + piece) + Left();
        buf := buf + piece;
        if decoderFailed {
          more := false;
        } else if outbufPos >= |outbuf| {
          Refill();
          if |outbuf| == 0 { more := false; }
        }
      }
    }

    // lha_decoder_read: as much as is asked for, unless the stream or the codec ends before that.
    method Read(size: nat) returns (buf: seq<byte>)
      requires Valid()
      modifies this
      ensures Valid()
      ensures |buf| == Min(size, Min(|whole|, streamLength) - old(streamPos))
      ensures streamPos == old(streamPos) + |buf| && buf == whole[old(streamPos)..streamPos]
    {
      var bufLen := if streamPos + size > streamLength then streamLength - streamPos else size;
      ghost var before := Left();
      buf := Fill(bufLen);
      ghost var p := streamPos;
      assert before == whole[p..];
      assert buf == (buf + Left())[..|buf|] == whole[p..p + |buf|];
      assert Left() == (buf + Left())[|buf|..] == whole[p + |buf|..];
      FoldConcat(step, initialCrc, whole[..p], buf);
      assert whole[..p] + buf == whole[..p + |buf|];
      crc := CrcOf(step, crc, buf);
      streamPos := streamPos + |buf|;
    }
  }

  // lha_crc16_buf; `step` takes one byte in.
  method CrcOf(step: (nat, byte) -> nat, crc: nat, data: seq<byte>) returns (r: nat)
    ensures r == Fold(step, crc, data)
  {
    r := crc;
    for i := 0 to |data|
      invariant Fold(step, crc, data) == Fold(step, r, data[i..])
    {
      assert data[i..][1..] == data[i + 1..];
      r := step(r, data[i]);
    }
  }

  // Reads of any sizes, one after the other, give what one read of their sum gives.
  function Sum(sizes: seq<nat>): nat {
    if sizes == [] then 0 else sizes[0] + Sum(sizes[1..])
  }

  method ReadAll(d: Decoder, sizes: seq<nat>) returns (data: seq<byte>)
    requires d.Valid()
    modifies d
    ensures d.Valid() && old(d.streamPos) <= d.streamPos && data == d.whole[old(d.streamPos)..d.streamPos]
    ensures |data| == Min(Sum(sizes), Min(|d.whole|, d.streamLength) - old(d.streamPos))
    ensures d.crc == Fold(d.step, d.initialCrc, d.whole[..d.streamPos])
    decreases |sizes|
  {
    if sizes == [] { return []; }
    var first := d.Read(sizes[0]);
    var rest := ReadAll(d, sizes[1..]);
    data := first + rest;
  }
}
