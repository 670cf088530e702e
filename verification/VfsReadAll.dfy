// The read-all job (src/vfs/vfs_ops.c): open, read the whole file, close, call back; and what is freed
// with its handle (src/vfs/vfs.c).  The plugin, the allocator and the callback answer as they like.
// The preconditions of CloseFile and Free forbid to close or free anything twice.

module VfsReadAll {

  import Bits
  import opened Wrappers

  type Byte = Bits.byte
  type BufferId = nat

  const MAX_READ_SIZE := 512 * 1024 * 1024
  const FIRST_CAPACITY := 64 * 1024

  datatype Status = Pending | Success | OpenFailed | ReadFailed | Canceled

  // The data of a result is our buffer, or something the callback put in its place.
  datatype Data = NoData | Ours(buffer: BufferId) | Foreign

  datatype Result = Result(struct: BufferId, data: Data, success: bool)

  // What a result keeps allocated.
  function Holds(r: Result): set<BufferId> {
    {r.struct} + if r.data.Ours? then {r.data.buffer} else {}
  }

  class ReadAll {
    const content: seq<Byte>         // the file, as the plugin would deliver it
    const hasCallback: bool

    var live: set<BufferId>          // allocated and not freed
    var nextBuffer: BufferId
    var isOpen: bool                 // the plugin's file
    var position: nat
    var opens: nat
    var closes: nat

    var result: Option<Result>       // the handle's fields
    var callbackOwnsData: bool
    var status: Status

    ghost var calls: seq<Option<seq<Byte>>>   // what the callback was given; None for a failure
    ghost var got: seq<Byte>                  // what a successful job read
    ghost var reported: int                   // the size the plugin gave
    ghost var troubled: bool                  // a plugin error or a failed allocation was met
    ghost var canceled: bool                  // the job was told to stop
    ghost var refused: bool                   // the file was not opened
    ghost var asked: seq<nat>                 // how many bytes each read asked for

    constructor (content: seq<Byte>, hasCallback: bool)
      ensures this.content == content && this.hasCallback == hasCallback && Unstarted()
    {
      this.content, this.hasCallback := content, hasCallback;
      live, nextBuffer, isOpen, position, opens, closes := {}, 0, false, 0, 0, 0;
      result, callbackOwnsData, status := None, false, Pending;
      calls, got, reported, asked := [], [], -1, [];
      troubled, canceled, refused := false, false, false;
    }

    ghost predicate Unstarted()
      reads this
    {
      live == {} && !isOpen && opens == 0 == closes && result.None? && !callbackOwnsData && calls == []
      && !troubled && !canceled && !refused && asked == []
    }

    // ---- the environment ----

    ghost predicate Allocator()
      reads this
    {
      forall b :: b in live ==> b < nextBuffer
    }

    method Malloc() returns (b: Option<BufferId>)
      requires Allocator()
      modifies `live, `nextBuffer, `troubled
      ensures Allocator() && (old(troubled) ==> troubled) && (b.Some? ==> troubled == old(troubled))
      ensures b.None? ==> live == old(live) && troubled
      ensures b.Some? ==> b.value !in old(live) && live == old(live) + {b.value}
    {
      if * { troubled := true; return None; }
      b := Some(nextBuffer);
      live := live + {nextBuffer};
      nextBuffer := nextBuffer + 1;
    }

    method Free(b: BufferId)
      requires b in live && Allocator()
      modifies `live
      ensures live == old(live) - {b} && Allocator()
    {
      live := live - {b};
    }

    // The old buffer is gone unless the call fails.
    method Realloc(b: BufferId) returns (r: Option<BufferId>)
      requires b in live && Allocator()
      modifies `live, `nextBuffer, `troubled
      ensures Allocator() && (old(troubled) ==> troubled) && (r.Some? ==> troubled == old(troubled))
      ensures r.None? ==> live == old(live) && troubled
      ensures r.Some? ==> r.value !in old(live) && live == old(live) - {b} + {r.value}
    {
      r := Malloc();
      if r.Some? { Free(b); }
    }

    method ShouldCancel() returns (yes: bool)
      modifies `canceled
      ensures canceled == (old(canceled) || yes)
    {
      yes := *;
      if yes { canceled := true; }
    }

    method OpenFile() returns (ok: bool)
      requires !isOpen
      modifies `isOpen, `opens, `position, `refused
      ensures if ok then isOpen && opens == old(opens) + 1 && position == 0 && refused == old(refused)
              else !isOpen && opens == old(opens) && refused
    {
      ok := *;
      if ok {
        isOpen, opens, position := true, opens + 1, 0;
      } else {
        refused := true;
      }
    }

    method GetSize() returns (size: int)
      requires isOpen
      modifies `reported, `troubled
      ensures reported == size && troubled == (old(troubled) || size < 0)
    {
      size := *;
      reported := size;
      if size < 0 { troubled := true; }
    }

    // A read delivers some of what is left, and nothing only at the end of the file.
    method Read(max: nat) returns (n: int, bytes: seq<Byte>)
      requires isOpen && position <= |content| && max > 0
      modifies `position, `troubled, `asked
      ensures position <= |content| && asked == old(asked) + [max]
      ensures n < 0 ==> troubled && position == old(position)
      ensures n >= 0 ==> troubled == old(troubled) && n <= max && position == old(position) + n
      ensures n >= 0 ==> bytes == content[old(position)..position]
      ensures n == 0 <==> n >= 0 && old(position) == |content|
    {
      asked := asked + [max];
      if * { troubled := true; return -1, []; }
      var left := |content| - position;
      n := *;
      if n < 1 { n := 1; }
      if n > max { n := max; }
      if n > left { n := left; }
      bytes := content[position..position + n];
      position := position + n;
    }

    method CloseFile()
      requires isOpen
      modifies `isOpen, `closes
      ensures !isOpen && closes == old(closes) + 1
    {
      isOpen := false;
      closes := closes + 1;
    }

    // ---- the job ----

    // What a job that has ended has done, whichever way it ended.
    ghost predicate Ended()
      reads this
    {
      && Allocator() && status != Pending
      && !isOpen && closes == opens <= 1
      && (if hasCallback then calls == [if status.Success? then Some(got) else None] else calls == [])
      && (status.Canceled? && result.None? ==> live == {})
      && (result.None? ==> status.Canceled?)
      && (result.Some? ==> live == Holds(result.value))
      && (result.Some? && result.value.data.Ours? ==> result.value.data.buffer != result.value.struct)
      && (result.Some? ==> (callbackOwnsData <==> result.value.data.Foreign?))
      && (result.None? ==> !callbackOwnsData)
      && (status.Success? <==> result.Some? && !result.value.data.NoData?)
    }

    // How it went: what happened decides the status, and a success has read the file as the plugin delivered
    // it, in one call for as many bytes as it said there are, or to its end when it did not know.
    ghost predicate Delivered()
      reads this
    {
      && (status.Canceled? <==> canceled) && (status.OpenFailed? <==> refused)
      && (status.ReadFailed? <==> !canceled && !refused && (troubled || TooLarge()))
      && (status.Success? ==> 0 <= reported <= MAX_READ_SIZE && got <= content)
      && (status.Success? && reported == 0 ==> got == content && |content| <= MAX_READ_SIZE)
      && (status.Success? && reported > 0 ==> |got| <= reported && asked == [reported] && |got| == position)
    }

    ghost predicate TooLarge()
      reads `reported
    {
      reported > MAX_READ_SIZE || (reported == 0 && |content| > MAX_READ_SIZE)
    }

    method NotifyFailure()
      modifies `calls
      ensures calls == if hasCallback then old(calls) + [None] else old(calls)
    {
      if hasCallback { calls := calls + [None]; }
    }

    // read_all_set_error
    method SetError(struct: BufferId, buffer: Option<BufferId>)
      requires Allocator() && isOpen && opens == 1 && closes == 0 && calls == [] && !callbackOwnsData
      requires live == {struct} + if buffer.Some? then {buffer.value} else {}
      requires buffer.Some? ==> buffer.value != struct
      modifies `live, `isOpen, `closes, `calls, `result, `status
      ensures Ended() && status == ReadFailed
    {
      if buffer.Some? { Free(buffer.value); }
      CloseFile();
      NotifyFailure();
      result := Some(Result(struct, NoData, false));
      status := ReadFailed;
    }

    ghost predicate Reading(struct: BufferId)
      reads this
    {
      && Allocator() && isOpen && opens == 1 && closes == 0 && calls == [] && !callbackOwnsData
      && struct in live && position <= |content| && !canceled && !refused
    }

    // What is held when a read goes wrong, or is to stop.
    ghost predicate Held(struct: BufferId, buffer: Option<BufferId>)
      reads this
    {
      && Allocator() && isOpen && opens == 1 && closes == 0 && calls == [] && !callbackOwnsData && !refused
      && live == {struct} + (if buffer.Some? then {buffer.value} else {})
      && (buffer.Some? ==> buffer.value != struct)
    }

    method GiveUp(struct: BufferId, buffer: Option<BufferId>)
      requires Held(struct, buffer) && !canceled && (troubled || TooLarge())
      modifies `live, `isOpen, `closes, `calls, `result, `status
      ensures GivenUp() && status == ReadFailed
    {
      SetError(struct, buffer);
    }

    method Stop(struct: BufferId, buffer: Option<BufferId>)
      requires Held(struct, buffer) && canceled
      modifies `live, `isOpen, `closes, `calls, `result, `status
      ensures GivenUp()
    {
      SetError(struct, buffer);
      status := Canceled;
    }

    // A failed read, or a canceled one, ends the job.
    ghost predicate GivenUp()
      reads this
    {
      Ended() && Delivered() && !status.Success?
    }

    ghost predicate ReadSoFar(struct: BufferId, buffer: BufferId, total: nat, capacity: nat)
      reads this
    {
      && Reading(struct) && buffer != struct && live == {struct, buffer}
      && total <= capacity <= MAX_READ_SIZE && 0 < capacity
      && position == total == |got| && got == content[..total]
    }

    // One turn of the loop: a full buffer doubles, up to the cap, before more is read.
    method ReadChunk(struct: BufferId, before: BufferId, total: nat, size: nat)
      returns (buffer: Option<BufferId>, capacity: nat, n: nat)
      requires ReadSoFar(struct, before, total, size) && total < MAX_READ_SIZE && reported == 0 && !troubled
      modifies `live, `nextBuffer, `position, `troubled, `canceled, `asked
      modifies `isOpen, `closes, `calls, `result, `status, `got
      ensures buffer.None? ==> GivenUp()
      ensures buffer.Some? ==> ReadSoFar(struct, buffer.value, total + n, capacity) && !troubled
      ensures buffer.Some? && n == 0 ==> total == |content|
    {
      hide Ended, Delivered, GivenUp;
      buffer, capacity, n := Some(before), size, 0;
      var cancel := ShouldCancel();
      if cancel { Stop(struct, buffer); return None, capacity, 0; }
      if capacity <= total {
        capacity := capacity * 2;
        if capacity > MAX_READ_SIZE { capacity := MAX_READ_SIZE; }
        var grown := Realloc(before);
        if grown.None? { GiveUp(struct, buffer); return None, capacity, 0; }
        buffer := grown;
      }
      var bytesRead, bytes := Read(capacity - total);
      if bytesRead < 0 { GiveUp(struct, buffer); return None, capacity, 0; }
      got := got + bytes;
      n := bytesRead;
    }

    // The chunked read of a file of unknown size.  A read that stops at the cap probes for one more byte.
    method ReadUnknown(struct: BufferId) returns (buffer: Option<BufferId>)
      requires Reading(struct) && live == {struct} && position == 0 && reported == 0 && !troubled
      modifies `live, `nextBuffer, `position, `troubled, `canceled, `asked
      modifies `isOpen, `closes, `calls, `result, `status, `got
      ensures buffer.None? ==> GivenUp()
      ensures buffer.Some? ==> Reading(struct) && !troubled && buffer.value != struct && live == {struct, buffer.value}
      ensures buffer.Some? ==> got == content && |content| <= MAX_READ_SIZE
    {
      hide Ended, Delivered, GivenUp;
      var capacity: nat := FIRST_CAPACITY;
      var total: nat := 0;
      got := [];
      buffer := Malloc();
      if buffer.None? { GiveUp(struct, None); return; }
      var reachedEnd := false;
      while total < MAX_READ_SIZE && !reachedEnd
        invariant buffer.Some? && ReadSoFar(struct, buffer.value, total, capacity)
        invariant !troubled
        invariant reachedEnd ==> total == |content|
        decreases MAX_READ_SIZE - total, !reachedEnd
      {
        var n: nat;
        buffer, capacity, n := ReadChunk(struct, buffer.value, total, capacity);
        if buffer.None? { return; }
        if n == 0 { reachedEnd := true; }
        total := total + n;
      }
      if !reachedEnd {
        var n, _ := Read(1);
        if n != 0 { GiveUp(struct, buffer); return None; }
      }
      assert got == content;
    }

    // The read of a file whose size the plugin gave: one call, and its result as it is.
    method ReadKnown(struct: BufferId, buffer: BufferId, size: nat) returns (ok: bool)
      requires Reading(struct) && buffer != struct && live == {struct, buffer} && position == 0
      requires 0 < size <= MAX_READ_SIZE && reported == size && asked == [] && !troubled
      modifies `live, `position, `troubled, `asked, `isOpen, `closes, `calls, `result, `status, `got
      ensures !ok ==> Ended() && Delivered() && status == ReadFailed
      ensures ok ==> Reading(struct) && !troubled && live == {struct, buffer}
      ensures ok ==> got <= content && |got| == position <= size
      ensures ok ==> asked == [size]
    {
      var n, bytes := Read(size);
      if n < 0 { GiveUp(struct, Some(buffer)); return false; }
      got := bytes;
      return true;
    }

    // The end of a read that went well: the callback may put data of its own in place of ours.
    method Deliver(struct: BufferId, buffer: BufferId)
      requires Reading(struct) && buffer != struct && live == {struct, buffer}
      requires got <= content && 0 <= reported <= MAX_READ_SIZE
      requires !troubled
      requires if reported == 0 then got == content && |content| <= MAX_READ_SIZE
               else |got| == position <= reported && asked == [reported]
      modifies `live, `isOpen, `closes, `calls, `result, `status, `callbackOwnsData
      ensures Ended() && Delivered() && status == Success
      ensures !hasCallback ==> result.value == Result(struct, Ours(buffer), true)
    {
      CloseFile();
      var data, success := Ours(buffer), true;
      if hasCallback {
        calls := calls + [Some(got)];
        var substitutes: bool := *;
        if substitutes {
          Free(buffer);
          data := Foreign;
          callbackOwnsData := true;
        }
        success := *;
      }
      result := Some(Result(struct, data, success));
      status := Success;
    }

    // The job once its file is open, up to the read.
    method ReadOpenFile(struct: BufferId)
      requires Reading(struct) && live == {struct} && position == 0 && !troubled && asked == []
      modifies this
      ensures Ended() && Delivered()
    {
      var size := GetSize();
      if size < 0 {
        GiveUp(struct, None);
        return;
      }
      if size > MAX_READ_SIZE { GiveUp(struct, None); return; }
      var buffer := Malloc();
      if buffer.None? { GiveUp(struct, None); return; }
      ReadAndDeliver(struct, buffer.value, size);
    }

    method ReadAndDeliver(struct: BufferId, first: BufferId, size: nat)
      requires Reading(struct) && first != struct && live == {struct, first} && position == 0
      requires reported == size <= MAX_READ_SIZE && !troubled && asked == []
      modifies this
      ensures Ended() && Delivered()
    {
      var buffer := Some(first);
      var cancel := ShouldCancel();
      if cancel { Stop(struct, buffer); return; }
      if size > 0 {
        var ok := ReadKnown(struct, first, size);
        if !ok { return; }
      } else {
        Free(first);
        buffer := ReadUnknown(struct);
        if buffer.None? { return; }
      }
      Deliver(struct, buffer.value);
    }

    // vfs_op_read_all
    method OpReadAll()
      requires Unstarted() && Allocator()
      modifies this
      ensures Ended() && Delivered()
    {
      var struct := nextBuffer;
      live := {struct};
      nextBuffer := nextBuffer + 1;
      var ok := OpenFile();
      if !ok {
        NotifyFailure();
        result, status := Some(Result(struct, NoData, false)), OpenFailed;
        return;
      }
      ReadOpenFile(struct);
    }

    // vfs_ops_execute: a job that is canceled before it starts does no work, but still calls back.
    method Execute()
      requires Unstarted() && Allocator()
      modifies this
      ensures Ended() && Delivered()
    {
      var cancel := ShouldCancel();
      if cancel {
        NotifyFailure();
        result, status := None, Canceled;
        return;
      }
      OpReadAll();
    }

    // vfs_free_handle_resources, for a read-all handle: nothing that the job allocated is left.
    method FreeHandle()
      requires Ended()
      modifies `live, `result
      ensures live == {} && result.None?
    {
      if result.Some? {
        var r := result.value;
        if !callbackOwnsData && r.data.Ours? { Free(r.data.buffer); }
        Free(r.struct);
        result := None;
      }
    }
  }
}
