// The locked sections of src/vfs/vfs.c that update the handle table in place, each proved to be the
// step of the protocol that stands for it.

module VfsHandles {

  import opened VfsState
  import opened VfsSound
  import opened Wrappers

  // Freeing handles one by one comes to the same as freeing them at once.
  lemma FreeOneMore(s: State, some: set<Address>, p: Address)
    requires p in s.handles && p !in some
    ensures FreeAll(FreeAll(s, some), {p}) == FreeAll(s, some + {p})
  {
    var s1 := FreeAll(s, some);
    assert s1.handles[p] == s.handles[p];
    assert s1.handles - {p} == s.handles - (some + {p});
    IdsOneMore(s.handles, s1.handles, some, p);
    assert s1.handleMap - {s.handles[p].id} == s.handleMap - IdsOf(s.handles, some + {p});
    ClosedOneMore(s.handles, s1.handles, some, p);
  }

  lemma IdsOneMore(handles: map<Address, Handle>, left: map<Address, Handle>, some: set<Address>, p: Address)
    requires p in handles && p in left && left[p] == handles[p]
    ensures IdsOf(left, {p}) == {handles[p].id}
    ensures IdsOf(handles, some + {p}) == IdsOf(handles, some) + {handles[p].id}
  {
  }

  lemma ClosedOneMore(handles: map<Address, Handle>, left: map<Address, Handle>, some: set<Address>, p: Address)
    requires p in handles && p !in some && p in left && left[p] == handles[p]
    ensures |ClosedAmong(handles, some + {p})| == |ClosedAmong(handles, some)| + |ClosedAmong(left, {p})|
  {
    var C := ClosedAmong(handles, some);
    assert ClosedAmong(left, {p}) == if handles[p].closed then {p} else {};
    assert p !in C;
    assert ClosedAmong(handles, some + {p}) == if handles[p].closed then C + {p} else C;
  }

  lemma FreeLeaves(s: State, some: set<Address>)
    ensures FreeAll(s, {}) == s
    ensures forall p :: p in FreeAll(s, some).handles <==> p in s.handles && p !in some
  {
    assert ClosedAmong(s.handles, {}) == {} && IdsOf(s.handles, {}) == {};
    assert s.handles - {} == s.handles && s.handleMap - {} == s.handleMap;
  }

  lemma StillMapped(s: State, some: set<Address>, id: Id)
    requires TableOk(s.handles, s.handleMap) && IdsDiffer(s.handles) && some <= s.handles.Keys
    ensures var s' := FreeAll(s, some);
      && (id in s'.handleMap <==> id in s.handleMap && s.handleMap[id] !in some)
      && (id in s'.handleMap ==> s'.handleMap[id] == s.handleMap[id] && s.handleMap[id] in s.handles)
  {
    if id in IdsOf(s.handles, some) {
      var p :| p in some && p in s.handles && s.handles[p].id == id;
    }
  }

  function ToSet(s: seq<Address>): set<Address> {
    set p | p in s
  }

  ghost predicate Distinct(s: seq<Address>) {
    forall i, j :: 0 <= i < j < |s| ==> s[i] != s[j]
  }

  // vfs_handle_jobs: the jobs that a handle names, without "no job" and each once.
  function HandleJobs(jobHandle: JobId, lastJob: JobId): seq<JobId> {
    (if jobHandle != 0 then [jobHandle] else []) + (if lastJob != 0 && lastJob != jobHandle then [lastJob] else [])
  }

  predicate JobsFinished(jobs: seq<Job>, some: seq<JobId>) {
    forall j :: j in some ==> Finished(jobs, j)
  }

  lemma HandleJobsFinished(jobs: seq<Job>, h: Handle)
    requires Finished(jobs, 0)
    ensures h.pendingDispatches == 0 && JobsFinished(jobs, HandleJobs(h.jobHandle, h.lastJob)) <==> Idle(jobs, h)
  {
    var some := HandleJobs(h.jobHandle, h.lastJob);
    assert h.jobHandle != 0 ==> h.jobHandle in some;
    assert h.lastJob != 0 ==> h.lastJob in some;
  }

  datatype Victim = Victim(id: Id, jobs: seq<JobId>)

  function VictimOf(h: Handle): Victim {
    Victim(h.id, HandleJobs(h.jobHandle, h.lastJob))
  }

  function IdsIn(victims: seq<Victim>): set<Id> {
    set v | v in victims :: v.id
  }

  lemma IdsInMore(victims: seq<Victim>, i: nat)
    requires i < |victims|
    ensures IdsIn(victims[..i + 1]) == IdsIn(victims[..i]) + {victims[i].id}
  {
    assert victims[..i + 1] == victims[..i] + [victims[i]];
  }

  // The jobs of a victim are those its handle names now, and none when it is gone.
  ghost predicate NamesJobs(s: State, v: Victim) {
    v.jobs == match Lookup(s, v.id)
              case None => []
              case Some(p) => HandleJobs(s.handles[p].jobHandle, s.handles[p].lastJob)
  }

  ghost predicate IsBusy(s: State, id: Id) {
    Lookup(s, id).Some? && !Idle(s.jobs, s.handles[Lookup(s, id).value])
  }

  lemma BusyIsNotIdle(s: State, victims: seq<Victim>)
    ensures VictimsIdle(s, IdsIn(victims)) <==> !exists k :: 0 <= k < |victims| && IsBusy(s, victims[k].id)
  {
    forall k | 0 <= k < |victims| ensures victims[k].id in IdsIn(victims) {
      assert victims[k] in victims;
    }
    if !VictimsIdle(s, IdsIn(victims)) {
      var id :| id in IdsIn(victims) && Lookup(s, id).Some? && !Idle(s.jobs, s.handles[Lookup(s, id).value]);
      var k :| 0 <= k < |victims| && victims[k].id == id;
      assert IsBusy(s, victims[k].id);
    }
  }

  class VfsTable {
    var handles: map<Address, Handle>
    var handleMap: map<Id, Address>
    var nextHandleId: Id
    var nextAddress: Address
    var closedCount: int
    var jobs: seq<Job>
    var mounts: map<MountId, MountStatus>
    ghost var threads: map<ThreadId, Activity>
    ghost var freed: set<Address>
    ghost var owed: set<Address>
    ghost var released: multiset<Address>

    ghost function View(): State
      reads this
    {
      State(handles, handleMap, nextHandleId, nextAddress, closedCount, jobs, threads, mounts, freed, owed, released)
    }

    ghost predicate Valid()
      reads this
    {
      TableOk(handles, handleMap) && IdsDiffer(handles) && Finished(jobs, 0)
    }

    // allocate_handle: the section under the lock, and the fields that are set after it.
    method AllocateHandle(op: Op, mount: MountId, reuse: Id) returns (p: Option<Address>)
      modifies this
      ensures p.None? <==> reuse != 0 && reuse in old(handleMap)
      ensures p.None? ==> View() == old(View())
      ensures p.Some? ==> p.value == old(nextAddress) && View() == Allocate(old(View()), op, mount, reuse)
    {
      var id := reuse;
      if reuse != 0 {
        if reuse in handleMap { return None; }
      } else {
        id := nextHandleId;
        nextHandleId := nextHandleId + 1;
      }
      p := Some(nextAddress);
      handles := handles[nextAddress := Handle(id, op, mount, 0, 0, 0, false)];
      nextAddress := nextAddress + 1;
    }

    // vfs_collect_handles_locked: a walk over the map that frees nothing.
    method CollectHandlesLocked(pred: Handle -> bool) returns (out: seq<Address>)
      requires Valid()
      ensures Distinct(out)
      ensures forall p :: p in out <==> IsPublished(View(), p) && pred(handles[p])
    {
      out := [];
      var table, all := handleMap, handles;
      var ids := table.Keys;
      while ids != {}
        invariant ids <= table.Keys && table == handleMap && all == handles
        invariant Distinct(out)
        invariant forall p :: p in out ==>
          p in all && all[p].id in table.Keys - ids && table[all[p].id] == p && pred(all[p])
        invariant forall id :: id in table.Keys - ids && pred(all[table[id]]) ==> table[id] in out
        decreases |ids|
      {
        var id :| id in ids;
        ids := ids - {id};
        var p := table[id];
        if pred(all[p]) {
          out := out + [p];
        }
      }
    }

    // vfs_free_handle_locked: the hook comes back to be run after the lock is let go.
    method FreeHandleLocked(p: Address)
      requires p in handles
      modifies this
      ensures View() == FreeAll(old(View()), {p})
    {
      if handles[p].closed {
        closedCount := closedCount - 1;
      }
      assert ClosedAmong(handles, {p}) == if handles[p].closed then {p} else {};
      assert IdsOf(handles, {p}) == {handles[p].id};
      handleMap := handleMap - {handles[p].id};
      handles := handles - {p};
      freed := freed + {p};
      owed := owed + {p};
    }

    // The second pass of a walk: nothing is looked up, so the order does not matter.
    method FreeHandlesLocked(some: seq<Address>)
      requires Distinct(some) && (forall p :: p in some ==> p in handles)
      modifies this
      ensures View() == FreeAll(old(View()), ToSet(some))
    {
      hide FreeAll;
      ghost var start := View();
      assert ToSet(some[..0]) == {};
      FreeLeaves(start, {});
      for i := 0 to |some|
        invariant View() == FreeAll(start, ToSet(some[..i]))
      {
        assert some[i] !in ToSet(some[..i]);
        FreeLeaves(start, ToSet(some[..i]));
        assert some[i] in View().handles;
        FreeOneMore(start, ToSet(some[..i]), some[i]);
        assert ToSet(some[..i + 1]) == ToSet(some[..i]) + {some[i]};
        FreeHandleLocked(some[i]);
      }
      assert some[..|some|] == some;
    }

    // vfs_release_list_run_all, with handle_lock let go.
    method RunReleases(some: seq<Address>)
      requires Distinct(some) && (forall p :: p in some ==> p in owed)
      modifies this`owed, this`released
      ensures owed == old(owed) - ToSet(some)
      ensures released == old(released) + multiset(ToSet(some))
    {
      ghost var was, ran := owed, released;
      assert ToSet(some[..0]) == {};
      for i := 0 to |some|
        invariant owed == was - ToSet(some[..i])
        invariant released == ran + multiset(ToSet(some[..i]))
      {
        assert some[i] !in ToSet(some[..i]);
        assert ToSet(some[..i + 1]) == ToSet(some[..i]) + {some[i]};
        owed := owed - {some[i]};
        released := released + multiset{some[i]};
      }
      assert some[..|some|] == some;
    }

    // vfs_reclaim_closed_handles: the sweep under the lock.
    method ReclaimClosedHandles() returns (releases: seq<Address>)
      requires Valid()
      modifies this
      ensures View() == ReclaimSection(old(View()))
      ensures Distinct(releases) && ToSet(releases) == old(View()).handles.Keys - handles.Keys
      ensures forall p :: p in releases ==> p in owed
    {
      releases := [];
      if closedCount == 0 { return; }
      var js := jobs;
      releases := CollectHandlesLocked((h: Handle) => h.closed && Idle(js, h));
      assert ToSet(releases) == Reclaimable(View()) by {
        forall p ensures p in ToSet(releases) <==> p in Reclaimable(View()) {
          if p in ToSet(releases) { assert handles[p].id in handleMap; }
        }
      }
      FreeHandlesLocked(releases);
    }

    // vfs_close: the section that decides, after the sweep and the wait.
    method Close(id: Id, mainThread: bool) returns (release: Option<Address>)
      requires Valid()
      modifies this
      ensures View() == CloseSection(old(View()), id, mainThread)
      ensures release.Some? ==> release.value in owed && release.value !in handles
    {
      if id !in handleMap || handles[handleMap[id]].closed { return None; }
      var p := handleMap[id];
      var h := handles[p];
      HandleJobsFinished(jobs, h);
      var finished := h.pendingDispatches == 0 && JobsFinished(jobs, HandleJobs(h.jobHandle, h.lastJob));
      if !finished {
        if !mainThread { return None; }
        if BorrowsCallerMemory(h.op) { return None; }
        handles := handles[p := h.(closed := true)];
        closedCount := closedCount + 1;
        return None;
      }
      FreeHandleLocked(p);
      return Some(p);
    }

    // vfs_publish_handle, with the fields that are set before it; the handle becomes visible.
    method PublishHandle(t: ThreadId, p: Address, job: Option<JobId>, inlined: bool)
      requires p in handles
      modifies this
      ensures View() == PublishSection(old(View()), t, p, job, inlined)
    {
      var r := Recorded(job, inlined);
      handles := handles[p := handles[p].(jobHandle := r, lastJob := r)];
      jobs := LeaveWindow(jobs, job);
      threads := threads - {t};
      handleMap := handleMap[handles[p].id := p];
    }

    // vfs_dispatch: the section before the job is created raises the guard.
    method BeginDispatch(t: ThreadId, id: Id)
      requires Valid()
      modifies this
      ensures View() == BeginDispatchSection(old(View()), t, id)
    {
      if id !in handleMap || handles[handleMap[id]].closed { return; }
      var p := handleMap[id];
      handles := handles[p := handles[p].(pendingDispatches := handles[p].pendingDispatches + 1)];
      threads := threads[t := Dispatching(p, id, None)];
    }

    // vfs_chain_file_op: the first section reads last_job and raises the guard on the file handle.
    method BeginChain(t: ThreadId, id: Id)
      requires Valid()
      modifies this
      ensures View() == BeginChainSection(old(View()), t, id)
    {
      if id !in handleMap || handles[handleMap[id]].closed || !handles[handleMap[id]].op.FileOpen? { return; }
      var f := handleMap[id];
      var h := handles[f];
      handles := handles[f := h.(pendingDispatches := h.pendingDispatches + 1)];
      threads := threads[t := Chaining(f, id, h.mount, h.lastJob, None, None, false)];
    }

    // vfs_dispatch: the section after the job has been created.
    method EndDispatch(t: ThreadId, p: Address, id: Id, job: Option<JobId>, inlined: bool)
      modifies this
      ensures View() == EndDispatchSection(old(View()), t, p, id, job, inlined)
    {
      jobs := LeaveWindow(jobs, job);
      threads := threads - {t};
      if id in handleMap && handleMap[id] in handles && handleMap[id] == p {
        var r := Recorded(job, inlined);
        var h := handles[p];
        handles := handles[p := h.(jobHandle := r, lastJob := r, pendingDispatches := h.pendingDispatches - 1)];
      }
    }

    // vfs_chain_file_op: the last section, which publishes the operation and lowers the guard.
    method EndChain(t: ThreadId, a: Activity)
      requires a.Chaining? && (a.op.Some? ==> a.op.value in handles)
      modifies this
      ensures View() == EndChainSection(old(View()), t, a)
    {
      jobs := LeaveWindow(jobs, a.job);
      threads := threads - {t};
      var r := Recorded(a.job, a.inlined);
      if a.id in handleMap && handleMap[a.id] in handles {
        var f := handleMap[a.id];
        var h := handles[f];
        handles := handles[f := h.(lastJob := if a.job.Some? then r else h.lastJob,
                                   pendingDispatches := h.pendingDispatches - 1)];
      }
      if a.op.Some? {
        var p := a.op.value;
        handles := handles[p := handles[p].(jobHandle := r, lastJob := r)];
        handleMap := handleMap[handles[p].id := p];
      }
    }

    // vfs_snapshot_mount_victims: ids and jobs are copied out, not the handles.
    method SnapshotMountVictims(mount: MountId) returns (victims: array<Victim>)
      requires Valid()
      ensures fresh(victims) && IdsIn(victims[..]) == IdsOnMount(View(), mount)
      ensures forall i, j :: 0 <= i < j < victims.Length ==> victims[i].id != victims[j].id
      ensures forall k :: 0 <= k < victims.Length ==> NamesJobs(View(), victims[k])
    {
      var found := CollectHandlesLocked((h: Handle) => h.mount == mount);
      victims := new Victim[|found|];
      for i := 0 to |found|
        invariant forall k :: 0 <= k < i ==> found[k] in handles && victims[k] == VictimOf(handles[found[k]])
      {
        assert found[i] in found;
        victims[i] := VictimOf(handles[found[i]]);
      }
      forall k | 0 <= k < |found| ensures IsPublished(View(), found[k]) && handles[found[k]].mount == mount {
        assert found[k] in found;
      }
      forall id | id in IdsOnMount(View(), mount) ensures id in IdsIn(victims[..]) {
        var k :| 0 <= k < |found| && found[k] == handleMap[id];
        assert victims[..][k].id == id;
      }
    }

    // vfs_refresh_mount_victims: the jobs are read again, in place, and so is whether all is done.
    method RefreshMountVictims(victims: array<Victim>) returns (outstanding: bool)
      requires Valid()
      modifies victims
      ensures outstanding <==> !VictimsIdle(View(), IdsIn(old(victims[..])))
      ensures forall k :: 0 <= k < victims.Length ==>
        victims[k].id == old(victims[k].id) && NamesJobs(View(), victims[k])
    {
      outstanding := false;
      ghost var before := victims[..];
      for i := 0 to victims.Length
        invariant forall k :: i <= k < victims.Length ==> victims[k] == before[k]
        invariant forall k :: 0 <= k < i ==> victims[k].id == before[k].id && NamesJobs(View(), victims[k])
        invariant outstanding <==> exists k :: 0 <= k < i && IsBusy(View(), before[k].id)
      {
        if victims[i].id !in handleMap {
          victims[i] := victims[i].(jobs := []);
        } else {
          var h := handles[handleMap[victims[i].id]];
          victims[i] := victims[i].(jobs := HandleJobs(h.jobHandle, h.lastJob));
          HandleJobsFinished(jobs, h);
          if h.pendingDispatches != 0 || !JobsFinished(jobs, victims[i].jobs) {
            outstanding := true;
          }
        }
      }
      BusyIsNotIdle(View(), before);
    }

    // vfs_free_mount_victims: every id is looked up again, since a close may have freed its handle.
    method FreeMountVictims(victims: seq<Victim>)
      requires Valid()
      modifies this
      ensures View() == FreeAll(old(View()), Victims(old(View()), IdsIn(victims)))
    {
      hide FreeAll;
      ghost var start := View();
      ghost var gone: set<Address> := {};
      FreeLeaves(start, {});
      assert IdsIn(victims[..0]) == {};
      for i := 0 to |victims|
        invariant gone == Victims(start, IdsIn(victims[..i]))
        invariant View() == FreeAll(start, gone)
      {
        var id := victims[i].id;
        IdsInMore(victims, i);
        StillMapped(start, gone, id);
        FreeLeaves(start, gone);
        assert handleMap == View().handleMap && handles == View().handles;
        if id in handleMap {
          var p := handleMap[id];
          FreeOneMore(start, gone, p);
          gone := gone + {p};
          FreeHandleLocked(p);
        }
      }
      assert victims[..|victims|] == victims;
    }
  }
}
