// What the operations of the virtual file system come to when nothing comes between their sections
// (src/vfs/vfs.c).  The other modules say that nothing goes wrong while a window is open; these say that a
// dispatch, an issue, a chain, a close and a mount close do their work, after every run.

module VfsEffects {

  import opened VfsState
  import opened VfsSound
  import opened VfsProtocol
  import opened Wrappers

  // The steps can be taken one after the other, and lead to s'.
  ghost predicate Comes(s: State, steps: seq<Step>, s': State) {
    IsRun(s, steps, DispatchOnce) && After(s, steps, DispatchOnce) == s'
  }

  lemma NoSteps(s: State)
    ensures Comes(s, [], s)
  {
  }

  lemma ThenStep(s0: State, steps: seq<Step>, s: State, step: Step, s': State, more: seq<Step>)
    requires Comes(s0, steps, s) && Allowed(s, step, DispatchOnce) && Apply(s, step) == s' && more == steps + [step]
    ensures Comes(s0, more, s')
  {
    hide Apply, Possible, Orderly, PreparedOnce;
    RunSnoc(s0, steps, step, DispatchOnce);
  }

  // What is new has not been there.
  lemma SoundFacts(s: State)
    requires Sound(s)
    ensures s.jobs != [] && 0 < s.nextHandleId && s.nextHandleId !in s.handleMap && s.nextAddress !in s.handles
    ensures forall id, p :: LookupOpen(s, id) == Some(p) ==>
              id != s.nextHandleId && p in s.handles && s.handles[p].id == id
  {
    forall p | p in s.handles ensures s.handles[p].id < s.nextHandleId && p < s.nextAddress { assert HandleOk(s, p); }
  }

  lemma NoWindow(jobs: seq<Job>, job: Job)
    ensures LeaveWindow(jobs + [job], Some(|jobs|)) == jobs + [job.(window := None)]
  {
  }

  // ---------------------------------------------------------------------------------------------
  // A dispatch
  // ---------------------------------------------------------------------------------------------

  // An open handle that was prepared: it is a read-all, and nothing works on it yet.
  ghost predicate Prepared(s: State, id: Id, p: Address) {
    && LookupOpen(s, id) == Some(p) && OnListedMount(s, p)
    && s.handles[p].op.ReadAll? && s.handles[p].pendingDispatches == 0 && HasNoJob(s, p)
  }

  // What a dispatch leaves: one more job, unfinished, which the handle names.
  function Dispatched(s: State, p: Address): State
    requires p in s.handles
  {
    s.(handles := s.handles[p := s.handles[p].(jobHandle := |s.jobs|, lastJob := |s.jobs|)],
       jobs := s.jobs + [Job(p, None, 0, false, None)])
  }

  lemma DispatchOpens(s: State, t: ThreadId, id: Id, p: Address)
    requires Prepared(s, id, p) && t !in s.threads
    ensures Allowed(s, BeginDispatch(t, id), DispatchOnce)
    ensures var h := s.handles[p].(pendingDispatches := 1);
      Apply(s, BeginDispatch(t, id))
      == s.(handles := s.handles[p := h], threads := s.threads[t := Dispatching(p, id, None)])
  {
  }

  lemma DispatchSchedules(s: State, t: ThreadId, id: Id, p: Address)
    requires t in s.threads && s.threads[t] == Dispatching(p, id, None) && s.jobs != []
    ensures Allowed(s, Schedule(t, 0), DispatchOnce)
    ensures Apply(s, Schedule(t, 0))
      == s.(jobs := s.jobs + [Job(p, None, 0, false, Some(t))],
            threads := s.threads[t := Dispatching(p, id, Some(|s.jobs|))])
  {
  }

  lemma DispatchRecords(s: State, t: ThreadId, id: Id, p: Address, j: JobId)
    requires t in s.threads && s.threads[t] == Dispatching(p, id, Some(j)) && Lookup(s, id) == Some(p)
    ensures Allowed(s, EndDispatch(t, false), DispatchOnce)
    ensures var h := s.handles[p];
      Apply(s, EndDispatch(t, false))
      == s.(handles := s.handles[p := h.(jobHandle := j, lastJob := j, pendingDispatches := h.pendingDispatches - 1)],
            jobs := LeaveWindow(s.jobs, Some(j)), threads := s.threads - {t})
  {
    hide LeaveWindow;
  }

  lemma DispatchFrom(s: State, t: ThreadId, id: Id, p: Address)
    requires Prepared(s, id, p) && t !in s.threads && s.jobs != []
    ensures Comes(s, [BeginDispatch(t, id), Schedule(t, 0), EndDispatch(t, false)], Dispatched(s, p))
    ensures LookupOpen(Dispatched(s, p), id) == Some(p)
  {
    DispatchOpens(s, t, id, p);
    var s1 := Apply(s, BeginDispatch(t, id));
    DispatchSchedules(s1, t, id, p);
    var s2 := Apply(s1, Schedule(t, 0));
    DispatchRecords(s2, t, id, p, |s.jobs|);
    NoWindow(s.jobs, Job(p, None, 0, false, Some(t)));
    var s3 := Apply(s2, EndDispatch(t, false));
    assert s3 == Dispatched(s, p);
    hide Apply, Allowed, Comes;
    NoSteps(s);
    ThenStep(s, [], s, BeginDispatch(t, id), s1, [BeginDispatch(t, id)]);
    ThenStep(s, [BeginDispatch(t, id)], s1, Schedule(t, 0), s2, [BeginDispatch(t, id), Schedule(t, 0)]);
    ThenStep(s, [BeginDispatch(t, id), Schedule(t, 0)], s2, EndDispatch(t, false), s3,
             [BeginDispatch(t, id), Schedule(t, 0), EndDispatch(t, false)]);
  }

  // vfs_dispatch of a prepared handle, by a thread that is doing nothing.
  lemma DispatchTakesEffect(steps: seq<Step>, t: ThreadId, id: Id, p: Address)
    requires IsRun(START, steps, Loose)
    requires var s := Reached(steps, Loose); Prepared(s, id, p) && t !in s.threads
    ensures var s := Reached(steps, Loose);
      && Comes(s, [BeginDispatch(t, id), Schedule(t, 0), EndDispatch(t, false)], Dispatched(s, p))
      && LookupOpen(Dispatched(s, p), id) == Some(p)
  {
    ReachedIsSound(steps, Loose);
    SoundFacts(Reached(steps, Loose));
    hide IsRun, Reached, Sound, Comes;
    DispatchFrom(Reached(steps, Loose), t, id, p);
  }

  // ---------------------------------------------------------------------------------------------
  // An issue
  // ---------------------------------------------------------------------------------------------

  // What it leaves: a handle with a new id in the map, and its job, which it names.
  function Issued(s: State, op: Op, mount: MountId, after: JobId): State {
    var p, id, j := s.nextAddress, s.nextHandleId, |s.jobs|;
    s.(handles := s.handles[p := Handle(id, op, mount, j, j, 0, false)], handleMap := s.handleMap[id := p],
       nextAddress := p + 1, nextHandleId := id + 1, jobs := s.jobs + [Job(p, None, after, false, None)])
  }

  lemma IssueBegins(s: State, t: ThreadId, op: Op, mount: MountId)
    requires t !in s.threads && !BorrowsCallerMemory(op) && mount in s.mounts && s.mounts[mount].Listed?
    ensures Allowed(s, BeginIssue(t, op, mount, 0), DispatchOnce)
    ensures var h := Handle(s.nextHandleId, op, mount, 0, 0, 0, false);
      Apply(s, BeginIssue(t, op, mount, 0))
      == s.(handles := s.handles[s.nextAddress := h], nextAddress := s.nextAddress + 1,
            nextHandleId := s.nextHandleId + 1, threads := s.threads[t := Issuing(s.nextAddress, None)])
  {
  }

  lemma IssueSchedules(s: State, t: ThreadId, p: Address, after: JobId)
    requires t in s.threads && s.threads[t] == Issuing(p, None) && after < |s.jobs|
    ensures Allowed(s, Schedule(t, after), DispatchOnce)
    ensures Apply(s, Schedule(t, after))
      == s.(jobs := s.jobs + [Job(p, None, after, false, Some(t))],
            threads := s.threads[t := Issuing(p, Some(|s.jobs|))])
  {
  }

  lemma IssuePublishes(s: State, t: ThreadId, p: Address, j: JobId)
    requires t in s.threads && s.threads[t] == Issuing(p, Some(j)) && p in s.handles
    ensures Allowed(s, Publish(t, false), DispatchOnce)
    ensures var h := s.handles[p].(jobHandle := j, lastJob := j);
      Apply(s, Publish(t, false))
      == s.(handles := s.handles[p := h], handleMap := s.handleMap[h.id := p], jobs := LeaveWindow(s.jobs, Some(j)),
            threads := s.threads - {t})
  {
    hide LeaveWindow;
  }

  lemma IssueFrom(s: State, t: ThreadId, op: Op, mount: MountId, after: JobId)
    requires t !in s.threads && !BorrowsCallerMemory(op) && mount in s.mounts && s.mounts[mount].Listed?
    requires after < |s.jobs|
    ensures Comes(s, [BeginIssue(t, op, mount, 0), Schedule(t, after), Publish(t, false)], Issued(s, op, mount, after))
  {
    var p, j := s.nextAddress, |s.jobs|;
    IssueBegins(s, t, op, mount);
    var s1 := Apply(s, BeginIssue(t, op, mount, 0));
    IssueSchedules(s1, t, p, after);
    var s2 := Apply(s1, Schedule(t, after));
    IssuePublishes(s2, t, p, j);
    NoWindow(s.jobs, Job(p, None, after, false, Some(t)));
    var s3 := Apply(s2, Publish(t, false));
    assert s3 == Issued(s, op, mount, after);
    hide Apply, Allowed, Comes;
    NoSteps(s);
    ThenStep(s, [], s, BeginIssue(t, op, mount, 0), s1, [BeginIssue(t, op, mount, 0)]);
    ThenStep(s, [BeginIssue(t, op, mount, 0)], s1, Schedule(t, after), s2,
             [BeginIssue(t, op, mount, 0), Schedule(t, after)]);
    ThenStep(s, [BeginIssue(t, op, mount, 0), Schedule(t, after)], s2, Publish(t, false), s3,
             [BeginIssue(t, op, mount, 0), Schedule(t, after), Publish(t, false)]);
  }

  // An operation that is issued on a listed mount, by a thread that is doing nothing.
  lemma IssueTakesEffect(steps: seq<Step>, t: ThreadId, op: Op, mount: MountId, after: JobId)
    requires IsRun(START, steps, Loose) && !BorrowsCallerMemory(op)
    requires var s := Reached(steps, Loose);
      t !in s.threads && mount in s.mounts && s.mounts[mount].Listed? && after < |s.jobs|
    ensures var s := Reached(steps, Loose);
      var s' := Issued(s, op, mount, after);
      && Comes(s, [BeginIssue(t, op, mount, 0), Schedule(t, after), Publish(t, false)], s')
      && LookupOpen(s, s.nextHandleId).None? && LookupOpen(s', s.nextHandleId) == Some(s.nextAddress)
      && (forall id, p :: LookupOpen(s, id) == Some(p) ==>
            LookupOpen(s', id) == Some(p) && s'.handles[p] == s.handles[p])
  {
    ReachedIsSound(steps, Loose);
    SoundFacts(Reached(steps, Loose));
    hide IsRun, Reached, Sound, Comes;
    IssueFrom(Reached(steps, Loose), t, op, mount, after);
  }

  // What a prepared read-all leaves: the handle is in the map and has no job.
  function PreparedOn(s: State, mount: MountId): State {
    var p, id := s.nextAddress, s.nextHandleId;
    s.(handles := s.handles[p := Handle(id, ReadAll, mount, 0, 0, 0, false)], handleMap := s.handleMap[id := p],
       nextAddress := p + 1, nextHandleId := id + 1)
  }

  lemma PreparePublishes(s: State, t: ThreadId, mount: MountId)
    requires t !in s.threads
    ensures var h := Handle(s.nextHandleId, ReadAll, mount, 0, 0, 0, false);
      var s1 := s.(handles := s.handles[s.nextAddress := h], nextAddress := s.nextAddress + 1,
                   nextHandleId := s.nextHandleId + 1, threads := s.threads[t := Issuing(s.nextAddress, None)]);
      Allowed(s1, Publish(t, false), DispatchOnce) && Apply(s1, Publish(t, false)) == PreparedOn(s, mount)
  {
    assert s.threads[t := Issuing(s.nextAddress, None)] - {t} == s.threads;
    hide LeaveWindow;
    LeavesNone(s.jobs);
  }

  lemma LeavesNone(jobs: seq<Job>)
    ensures LeaveWindow(jobs, None) == jobs
  {
  }

  lemma PrepareFrom(s: State, t: ThreadId, mount: MountId)
    requires t !in s.threads && mount in s.mounts && s.mounts[mount].Listed?
    ensures Comes(s, [BeginIssue(t, ReadAll, mount, 0), Publish(t, false)], PreparedOn(s, mount))
  {
    IssueBegins(s, t, ReadAll, mount);
    PreparePublishes(s, t, mount);
    var s1 := Apply(s, BeginIssue(t, ReadAll, mount, 0));
    hide Apply, Allowed, Comes, PreparedOn;
    NoSteps(s);
    ThenStep(s, [], s, BeginIssue(t, ReadAll, mount, 0), s1, [BeginIssue(t, ReadAll, mount, 0)]);
    ThenStep(s, [BeginIssue(t, ReadAll, mount, 0)], s1, Publish(t, false), PreparedOn(s, mount),
             [BeginIssue(t, ReadAll, mount, 0), Publish(t, false)]);
  }

  // A read-all that is only prepared gets no job yet, and is what a dispatch needs.
  lemma PrepareTakesEffect(steps: seq<Step>, t: ThreadId, mount: MountId)
    requires IsRun(START, steps, Loose)
    requires var s := Reached(steps, Loose); t !in s.threads && mount in s.mounts && s.mounts[mount].Listed?
    ensures var s := Reached(steps, Loose);
      && Comes(s, [BeginIssue(t, ReadAll, mount, 0), Publish(t, false)], PreparedOn(s, mount))
      && Prepared(PreparedOn(s, mount), s.nextHandleId, s.nextAddress)
  {
    ReachedIsSound(steps, Loose);
    var s := Reached(steps, Loose);
    NothingWorksOnNew(s);
    hide IsRun, Reached, Sound, Comes;
    PrepareFrom(s, t, mount);
  }

  lemma NothingWorksOnNew(s: State)
    requires Sound(s)
    ensures HasNoJob(s, s.nextAddress)
  {
  }

  // ---------------------------------------------------------------------------------------------
  // A chain
  // ---------------------------------------------------------------------------------------------

  // What it leaves: a handle for the operation, its job, which waits for the one that was last on the file,
  // and the file, which names that job now.
  function Chained(s: State, f: Address, op: Op): State
    requires f in s.handles
  {
    var p, id, j := s.nextAddress, s.nextHandleId, |s.jobs|;
    s.(handles := s.handles[f := s.handles[f].(lastJob := j)][p := Handle(id, op, s.handles[f].mount, j, j, 0, false)],
       handleMap := s.handleMap[id := p], nextAddress := p + 1, nextHandleId := id + 1,
       jobs := s.jobs + [Job(p, Some(f), s.handles[f].lastJob, false, None)])
  }

  ghost predicate OpenFile(s: State, id: Id, f: Address) {
    LookupOpen(s, id) == Some(f) && OnListedMount(s, f) && s.handles[f].op.FileOpen?
  }

  lemma ChainBegins(s: State, t: ThreadId, id: Id, f: Address)
    requires OpenFile(s, id, f) && t !in s.threads
    ensures Allowed(s, BeginChain(t, id), DispatchOnce)
    ensures var h := s.handles[f];
      Apply(s, BeginChain(t, id))
      == s.(handles := s.handles[f := h.(pendingDispatches := h.pendingDispatches + 1)],
            threads := s.threads[t := Chaining(f, id, h.mount, h.lastJob, None, None, false)])
  {
  }

  lemma ChainAllocates(s: State, t: ThreadId, op: Op)
    requires t in s.threads && s.threads[t].Chaining? && s.threads[t].op.None? && BorrowsCallerMemory(op)
    ensures Allowed(s, ChainAllocate(t, op), DispatchOnce)
    ensures var a := s.threads[t];
      Apply(s, ChainAllocate(t, op))
      == s.(handles := s.handles[s.nextAddress := Handle(s.nextHandleId, op, a.mount, 0, 0, 0, false)],
            nextAddress := s.nextAddress + 1, nextHandleId := s.nextHandleId + 1,
            threads := s.threads[t := a.(op := Some(s.nextAddress))])
  {
  }

  lemma ChainSchedules(s: State, t: ThreadId)
    requires t in s.threads && s.threads[t].Chaining? && s.threads[t].op.Some? && s.threads[t].job.None?
    ensures Allowed(s, ChainSchedule(t, false), DispatchOnce)
    ensures var a := s.threads[t];
      Apply(s, ChainSchedule(t, false))
      == s.(jobs := s.jobs + [Job(a.op.value, Some(a.file), a.chainAfter, false, Some(t))],
            threads := s.threads[t := a.(job := Some(|s.jobs|), inlined := false)])
  {
  }

  lemma ChainPublishes(s: State, t: ThreadId, f: Address, p: Address, j: JobId)
    requires t in s.threads && s.threads[t].Chaining? && s.threads[t].file == f && !s.threads[t].inlined
    requires s.threads[t].op == Some(p) && s.threads[t].job == Some(j) && p in s.handles && p != f
    requires Lookup(s, s.threads[t].id) == Some(f)
    ensures Allowed(s, EndChain(t), DispatchOnce)
    ensures var h := s.handles[f].(lastJob := j, pendingDispatches := s.handles[f].pendingDispatches - 1);
      Apply(s, EndChain(t))
      == s.(handles := s.handles[f := h][p := s.handles[p].(jobHandle := j, lastJob := j)],
            handleMap := s.handleMap[s.handles[p].id := p], jobs := LeaveWindow(s.jobs, Some(j)),
            threads := s.threads - {t})
  {
    hide LeaveWindow;
  }

  lemma ChainFrom(s: State, t: ThreadId, id: Id, f: Address, op: Op)
    requires OpenFile(s, id, f) && t !in s.threads && BorrowsCallerMemory(op) && s.nextAddress !in s.handles
    ensures Comes(s, [BeginChain(t, id), ChainAllocate(t, op), ChainSchedule(t, false), EndChain(t)], Chained(s, f, op))
  {
    var p, j := s.nextAddress, |s.jobs|;
    ChainBegins(s, t, id, f);
    var s1 := Apply(s, BeginChain(t, id));
    ChainAllocates(s1, t, op);
    var s2 := Apply(s1, ChainAllocate(t, op));
    ChainSchedules(s2, t);
    var s3 := Apply(s2, ChainSchedule(t, false));
    ChainPublishes(s3, t, f, p, j);
    NoWindow(s.jobs, Job(p, Some(f), s.handles[f].lastJob, false, Some(t)));
    var s4 := Apply(s3, EndChain(t));
    assert s4 == Chained(s, f, op);
    hide Apply, Allowed, Comes;
    NoSteps(s);
    ThenStep(s, [], s, BeginChain(t, id), s1, [BeginChain(t, id)]);
    ThenStep(s, [BeginChain(t, id)], s1, ChainAllocate(t, op), s2, [BeginChain(t, id), ChainAllocate(t, op)]);
    ThenStep(s, [BeginChain(t, id), ChainAllocate(t, op)], s2, ChainSchedule(t, false), s3,
             [BeginChain(t, id), ChainAllocate(t, op), ChainSchedule(t, false)]);
    ThenStep(s, [BeginChain(t, id), ChainAllocate(t, op), ChainSchedule(t, false)], s3, EndChain(t), s4,
             [BeginChain(t, id), ChainAllocate(t, op), ChainSchedule(t, false), EndChain(t)]);
  }

  // A read or write of an open file, by a thread that is doing nothing and does not run it inline.
  lemma ChainTakesEffect(steps: seq<Step>, t: ThreadId, id: Id, f: Address, op: Op)
    requires IsRun(START, steps, Loose) && BorrowsCallerMemory(op)
    requires var s := Reached(steps, Loose); OpenFile(s, id, f) && t !in s.threads
    ensures var s := Reached(steps, Loose);
      var s' := Chained(s, f, op);
      && Comes(s, [BeginChain(t, id), ChainAllocate(t, op), ChainSchedule(t, false), EndChain(t)], s')
      && LookupOpen(s', id) == Some(f) && LookupOpen(s', s.nextHandleId) == Some(s.nextAddress)
  {
    ReachedIsSound(steps, Loose);
    SoundFacts(Reached(steps, Loose));
    hide IsRun, Reached, Sound, Comes;
    ChainFrom(Reached(steps, Loose), t, id, f, op);
  }

  // ---------------------------------------------------------------------------------------------
  // Closes
  // ---------------------------------------------------------------------------------------------

  // The deciding section of a close: a handle whose work is done is freed and will be released; one whose
  // work goes on is marked by the main thread, unless it is a read or a write, and is left open otherwise.
  lemma CloseTakesEffect(steps: seq<Step>, id: Id, mainThread: bool)
    requires IsRun(START, steps, Loose)
    ensures var s := Reached(steps, Loose);
      Allowed(s, Close(id, mainThread), DispatchOnce) &&
      var s' := Apply(s, Close(id, mainThread));
      match LookupOpen(s, id)
      case None => s' == s
      case Some(p) =>
        if Idle(s.jobs, s.handles[p]) then
          && s'.handles == s.handles - {p} && s'.handleMap == s.handleMap - {id} && s'.closedCount == s.closedCount
          && s'.freed == s.freed + {p} && s'.owed == s.owed + {p}
        else if mainThread && !BorrowsCallerMemory(s.handles[p].op) then
          && s'.handles == s.handles[p := s.handles[p].(closed := true)] && s'.closedCount == s.closedCount + 1
          && LookupOpen(s', id).None? && Lookup(s', id) == Some(p) && s'.freed == s.freed
        else s' == s
  {
    ReachedIsSound(steps, Loose);
    var s := Reached(steps, Loose);
    SoundFacts(s);
    hide IsRun, Reached, Sound;
    CloseFrom(s, id, mainThread);
  }

  lemma CloseFrom(s: State, id: Id, mainThread: bool)
    requires LookupOpen(s, id).Some? ==> s.handles[LookupOpen(s, id).value].id == id
    ensures var s' := CloseSection(s, id, mainThread);
      match LookupOpen(s, id)
      case None => s' == s
      case Some(p) =>
        if Idle(s.jobs, s.handles[p]) then
          && s'.handles == s.handles - {p} && s'.handleMap == s.handleMap - {id} && s'.closedCount == s.closedCount
          && s'.freed == s.freed + {p} && s'.owed == s.owed + {p}
        else if mainThread && !BorrowsCallerMemory(s.handles[p].op) then
          && s'.handles == s.handles[p := s.handles[p].(closed := true)] && s'.closedCount == s.closedCount + 1
          && LookupOpen(s', id).None? && Lookup(s', id) == Some(p) && s'.freed == s.freed
        else s' == s
  {
    hide Idle, BorrowsCallerMemory;
    if LookupOpen(s, id).Some? {
      var p := LookupOpen(s, id).value;
      assert ClosedAmong(s.handles, {p}) == {};
      assert IdsOf(s.handles, {p}) == {id};
    }
  }

  // vfs_mount_close of a listed mount whose handles are published and have no work left.
  ghost predicate Quiet(s: State, mount: MountId) {
    && mount in s.mounts && s.mounts[mount].Listed?
    && (forall p :: p in s.handles && s.handles[p].mount == mount ==> IsPublished(s, p) && Idle(s.jobs, s.handles[p]))
    && (forall t :: t in s.threads && s.threads[t].Chaining? ==> s.threads[t].mount != mount)
  }

  lemma QuietVictims(s: State, mount: MountId)
    requires Quiet(s, mount)
    requires forall id :: id in s.handleMap ==> s.handleMap[id] in s.handles && s.handles[s.handleMap[id]].id == id
    ensures VictimsIdle(s, IdsOnMount(s, mount))
    ensures forall p :: p in s.handles ==> (p in Victims(s, IdsOnMount(s, mount)) <==> s.handles[p].mount == mount)
    ensures forall id :: id in IdsOnMount(s, mount) && Lookup(s, id).Some? ==>
      s.handles[Lookup(s, id).value].mount == mount
  {
    hide Idle;
    forall p | p in s.handles ensures p in Victims(s, IdsOnMount(s, mount)) <==> s.handles[p].mount == mount {
      if s.handles[p].mount == mount {
        assert s.handles[p].id in IdsOnMount(s, mount) && s.handleMap[s.handles[p].id] == p;
      }
    }
  }

  // The first two sections: the mount is no longer listed, and there is nothing to wait for.
  function Drained(s: State, t: ThreadId, mount: MountId): State {
    s.(threads := s.threads[t := Closing(mount, IdsOnMount(s, mount), true)], mounts := s.mounts[mount := Draining(t)])
  }

  lemma MountDrains(s: State, t: ThreadId, mount: MountId)
    requires Quiet(s, mount) && t !in s.threads && VictimsIdle(s, IdsOnMount(s, mount))
    ensures Comes(s, [MountSnapshot(t, mount), MountRefresh(t)], Drained(s, t, mount))
  {
    var ids := IdsOnMount(s, mount);
    var s1 := s.(threads := s.threads[t := Closing(mount, ids, false)], mounts := s.mounts[mount := Draining(t)]);
    assert Allowed(s, MountSnapshot(t, mount), DispatchOnce) && Apply(s, MountSnapshot(t, mount)) == s1;
    assert VictimsIdle(s1, ids);
    assert Allowed(s1, MountRefresh(t), DispatchOnce) && Apply(s1, MountRefresh(t)) == Drained(s, t, mount);
    hide Apply, Allowed, Comes, VictimsIdle, IdsOnMount, Quiet;
    NoSteps(s);
    ThenStep(s, [], s, MountSnapshot(t, mount), s1, [MountSnapshot(t, mount)]);
    ThenStep(s, [MountSnapshot(t, mount)], s1, MountRefresh(t), Drained(s, t, mount),
             [MountSnapshot(t, mount), MountRefresh(t)]);
  }

  lemma MountEnds(s: State, t: ThreadId, mount: MountId)
    requires t !in s.threads && mount in s.mounts
    requires forall p :: p in s.handles ==> (p in Victims(s, IdsOnMount(s, mount)) <==> s.handles[p].mount == mount)
    requires forall id :: id in IdsOnMount(s, mount) && Lookup(s, id).Some? ==>
      s.handles[Lookup(s, id).value].mount == mount
    ensures var s2 := Drained(s, t, mount);
      Allowed(s2, MountFree(t), DispatchOnce) &&
      var s' := Apply(s2, MountFree(t));
      && mount !in s'.mounts && s'.threads == s.threads && s'.jobs == s.jobs
      && s'.handles == (map p | p in s.handles && s.handles[p].mount != mount :: s.handles[p])
  {
    var s2 := Drained(s, t, mount);
    var ids := IdsOnMount(s, mount);
    hide IdsOnMount, ClosedAmong, IdsOf;
    assert Victims(s2, ids) == Victims(s, ids);
    assert Allowed(s2, MountFree(t), DispatchOnce);
    assert Apply(s2, MountFree(t)).handles == s.handles - Victims(s, ids);
  }

  lemma MountCloseTakesEffect(steps: seq<Step>, t: ThreadId, mount: MountId)
    requires IsRun(START, steps, Loose)
    requires var s := Reached(steps, Loose); Quiet(s, mount) && t !in s.threads
    ensures var s := Reached(steps, Loose);
      var s2 := Drained(s, t, mount);
      && Comes(s, [MountSnapshot(t, mount), MountRefresh(t)], s2) && Allowed(s2, MountFree(t), DispatchOnce)
      && var s' := Apply(s2, MountFree(t));
      && mount !in s'.mounts && s'.threads == s.threads && s'.jobs == s.jobs
      && s'.handles == (map p | p in s.handles && s.handles[p].mount != mount :: s.handles[p])
  {
    ReachedIsSound(steps, Loose);
    var s := Reached(steps, Loose);
    assert TableOk(s.handles, s.handleMap);
    hide IsRun, Reached, Sound, Apply, Allowed, Comes, Drained;
    QuietVictims(s, mount);
    MountDrains(s, t, mount);
    MountEnds(s, t, mount);
  }
}
