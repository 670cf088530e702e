// What every orderly run of the handle protocol keeps (src/vfs/vfs.c), whatever the callers' windows do:
// the tables, the counters, the release hooks and the closing of mounts.

module VfsSound {

  import opened VfsState
  import opened Wrappers

  ghost predicate HandleOk(s: State, p: Address)
    requires p in s.handles
  {
    var h := s.handles[p];
    && p < s.nextAddress && p !in s.freed
    && 0 < h.id < s.nextHandleId
    && h.mount in s.mounts
    && h.jobHandle < |s.jobs| && h.lastJob < |s.jobs|
    && (h.closed ==> IsPublished(s, p) && !BorrowsCallerMemory(h.op))
  }

  ghost predicate HandlesOk(s: State) {
    forall p :: p in s.handles ==> HandleOk(s, p)
  }

  ghost predicate TableOk(handles: map<Address, Handle>, handleMap: map<Id, Address>) {
    forall id :: id in handleMap ==> handleMap[id] in handles && handles[handleMap[id]].id == id
  }

  ghost predicate IdsDiffer(handles: map<Address, Handle>) {
    forall p, q :: p in handles && q in handles && p != q ==> handles[p].id != handles[q].id
  }

  ghost predicate JobsOk(jobs: seq<Job>, nextAddress: Address) {
    && 0 < |jobs| && jobs[0].finished
    && (forall j :: 0 < j < |jobs| ==> jobs[j].after < j && jobs[j].handle < nextAddress)
  }

  function Windows(threads: map<ThreadId, Activity>, p: Address): set<ThreadId> {
    set t | t in threads && OpensWindow(threads[t], p)
  }

  ghost predicate PendingOk(handles: map<Address, Handle>, threads: map<ThreadId, Activity>) {
    forall p :: p in handles ==> handles[p].pendingDispatches == |Windows(threads, p)|
  }

  // Every handle that was freed either still owes its hook or has had it run, once.
  ghost predicate HooksOk(owed: set<Address>, freed: set<Address>, released: multiset<Address>, nextAddress: Address) {
    && owed <= freed
    && (forall p :: p in freed ==> p < nextAddress)
    && (forall p :: released[p] == if p in freed && p !in owed then 1 else 0)
  }

  ghost predicate IsPrivate(s: State, p: Address) {
    p in s.handles && s.handles[p].id !in s.handleMap
  }

  // A mount that is being closed has only published handles, and those are among the victims.
  ghost predicate MountHandleOk(s: State, mount: MountId, victims: set<Id>, drained: bool, p: Address)
    requires p in s.handles
  {
    var h := s.handles[p];
    h.mount == mount ==> h.id in victims && IsPublished(s, p) && (drained ==> Idle(s.jobs, h))
  }

  ghost predicate CloserOk(s: State, t: ThreadId, mount: MountId, victims: set<Id>, drained: bool) {
    && mount in s.mounts && s.mounts[mount] == Draining(t)
    && (forall id :: id in victims ==> id < s.nextHandleId)
    && (forall p :: p in s.handles ==> MountHandleOk(s, mount, victims, drained, p))
  }

  ghost predicate ThreadOk(s: State, t: ThreadId)
    requires t in s.threads
  {
    match s.threads[t]
    case Issuing(p, job) => IsPrivate(s, p) && (job.Some? ==> 0 < job.value < |s.jobs|)
    case Dispatching(p, id, job) =>
      IsPublished(s, p) && s.handles[p].id == id && (job.Some? ==> 0 < job.value < |s.jobs|)
    case Chaining(f, id, mount, chainAfter, op, job, _) =>
      && IsPublished(s, f) && s.handles[f].id == id && s.handles[f].mount == mount
      && mount in s.mounts && s.mounts[mount].Listed?
      && chainAfter < |s.jobs|
      && (op.Some? ==> IsPrivate(s, op.value) && s.handles[op.value].mount == mount)
      && (job.Some? ==> op.Some? && 0 < job.value < |s.jobs|)
    case Closing(mount, victims, drained) => CloserOk(s, t, mount, victims, drained)
  }

  ghost predicate ThreadsOk(s: State) {
    forall t :: t in s.threads ==> ThreadOk(s, t)
  }

  // No two threads work on the same private handle.
  ghost predicate PrivateToOne(threads: map<ThreadId, Activity>) {
    forall t, u :: t in threads && u in threads && t != u && Own(threads[t]).Some? ==>
      Own(threads[t]) != Own(threads[u])
  }

  function Own(a: Activity): Option<Address> {
    match a
    case Issuing(p, _) => Some(p)
    case Chaining(_, _, _, _, op, _, _) => op
    case _ => None
  }

  ghost predicate Sound(s: State) {
    && 0 < s.nextHandleId
    && HandlesOk(s) && TableOk(s.handles, s.handleMap) && IdsDiffer(s.handles) && JobsOk(s.jobs, s.nextAddress)
    && PendingOk(s.handles, s.threads) && s.closedCount == |ClosedAmong(s.handles, s.handles.Keys)|
    && HooksOk(s.owed, s.freed, s.released, s.nextAddress)
    && ThreadsOk(s) && PrivateToOne(s.threads)
  }

  lemma StartIsSound()
    ensures Sound(START)
  {
    assert ClosedAmong(START.handles, START.handles.Keys) == {};
  }

  // -------------------------------------------------------------------------------------------
  // Steps
  // -------------------------------------------------------------------------------------------

  lemma WindowsAdd(threads: map<ThreadId, Activity>, t: ThreadId, a: Activity, p: Address)
    requires t !in threads
    ensures |Windows(threads[t := a], p)| == |Windows(threads, p)| + if OpensWindow(a, p) then 1 else 0
  {
    var W := Windows(threads, p);
    assert t !in W;
    assert Windows(threads[t := a], p) == if OpensWindow(a, p) then W + {t} else W;
  }

  lemma WindowsSet(threads: map<ThreadId, Activity>, t: ThreadId, a: Activity, p: Address)
    requires t in threads && OpensWindow(a, p) == OpensWindow(threads[t], p)
    ensures Windows(threads[t := a], p) == Windows(threads, p)
  {
  }

  lemma WindowsRemove(threads: map<ThreadId, Activity>, t: ThreadId, p: Address)
    requires t in threads
    ensures |Windows(threads - {t}, p)| == |Windows(threads, p)| - if OpensWindow(threads[t], p) then 1 else 0
  {
    var W := Windows(threads, p);
    assert Windows(threads - {t}, p) == if OpensWindow(threads[t], p) then W - {t} else W;
  }

  // A closing mount is not disturbed by a change that keeps, of every handle, what a close looks at.
  ghost predicate ClosersKeep(s: State, s': State, p: Address)
    requires p in s'.handles
  {
    && p in s.handles
    && s'.handles[p].id == s.handles[p].id && s'.handles[p].mount == s.handles[p].mount
    && (IsPublished(s, p) ==> IsPublished(s', p))
    && (Idle(s.jobs, s.handles[p]) ==> Idle(s'.jobs, s'.handles[p]))
  }

  lemma CloserKept(s: State, s': State, t: ThreadId, mount: MountId, victims: set<Id>, drained: bool)
    requires CloserOk(s, t, mount, victims, drained)
    requires s.nextHandleId <= s'.nextHandleId
    requires mount in s'.mounts && s'.mounts[mount] == s.mounts[mount]
    requires forall p :: p in s'.handles ==>
      ClosersKeep(s, s', p) || s'.handles[p].mount != mount
    ensures CloserOk(s', t, mount, victims, drained)
  {
    forall p | p in s'.handles ensures MountHandleOk(s', mount, victims, drained, p) {
      if ClosersKeep(s, s', p) {
        assert MountHandleOk(s, mount, victims, drained, p);
      }
    }
  }

  lemma NewMountIsSound(s: State, m: MountId)
    requires Sound(s) && m !in s.mounts
    ensures Sound(s.(mounts := s.mounts[m := Listed]))
  {
    var s' := s.(mounts := s.mounts[m := Listed]);
    forall t | t in s.threads ensures ThreadOk(s', t) {
      assert ThreadOk(s, t);
      match s.threads[t]
      case Closing(mount, victims, drained) => CloserKept(s, s', t, mount, victims, drained);
      case _ =>
    }
    forall p | p in s.handles ensures HandleOk(s', p) {
      assert HandleOk(s, p);
    }
  }

  // Finishing a job, and recording one, change nothing else.
  lemma JobUpdateIsSound(s: State, j: JobId, job: Job)
    requires Sound(s) && j < |s.jobs|
    requires job.handle == s.jobs[j].handle && job.after == s.jobs[j].after && (s.jobs[j].finished ==> job.finished)
    ensures Sound(s.(jobs := s.jobs[j := job]))
  {
    var s' := s.(jobs := s.jobs[j := job]);
    hide ThreadOk, TableOk, IdsDiffer, HooksOk, PendingOk, ClosedAmong, PrivateToOne, IsPublished;
    forall t | t in s.threads ensures ThreadOk(s', t) { JobUpdateKeepsThread(s, j, job, t); }
    forall p | p in s.handles ensures HandleOk(s', p) { JobUpdateKeepsHandle(s, j, job, p); }
  }

  lemma JobUpdateKeepsHandle(s: State, j: JobId, job: Job, p: Address)
    requires p in s.handles && HandleOk(s, p) && j < |s.jobs|
    ensures HandleOk(s.(jobs := s.jobs[j := job]), p)
  {
  }

  lemma JobUpdateKeepsThread(s: State, j: JobId, job: Job, t: ThreadId)
    requires t in s.threads && ThreadOk(s, t) && j < |s.jobs| && (s.jobs[j].finished ==> job.finished)
    ensures ThreadOk(s.(jobs := s.jobs[j := job]), t)
  {
    match s.threads[t]
    case Closing(mount, victims, drained) =>
      CloserKept(s, s.(jobs := s.jobs[j := job]), t, mount, victims, drained);
    case _ =>
  }

  lemma LeaveWindowIsSound(s: State, job: Option<JobId>)
    requires Sound(s)
    ensures Sound(s.(jobs := LeaveWindow(s.jobs, job)))
  {
    if job.Some? && job.value < |s.jobs| {
      JobUpdateIsSound(s, job.value, s.jobs[job.value].(window := None));
    } else {
      assert s.(jobs := s.jobs) == s;
    }
  }

  lemma NewJobKeepsThread(s: State, s': State, u: ThreadId)
    requires HandlesOk(s) && u in s.threads && ThreadOk(s, u) && |s.jobs| <= |s'.jobs| && s'.jobs[..|s.jobs|] == s.jobs
    requires u in s'.threads && s'.threads[u] == s.threads[u] && s' == s.(jobs := s'.jobs, threads := s'.threads)
    ensures ThreadOk(s', u)
  {
    forall j | 0 <= j < |s.jobs| ensures s'.jobs[j] == s.jobs[j] { assert s'.jobs[..|s.jobs|][j] == s'.jobs[j]; }
    match s.threads[u]
    case Closing(mount, victims, drained) =>
      forall p | p in s.handles ensures ClosersKeep(s, s', p) { assert HandleOk(s, p); }
      CloserKept(s, s', u, mount, victims, drained);
    case _ =>
  }

  lemma NewJobIsSound(s: State, t: ThreadId, a: Activity, job: Job)
    requires Sound(s) && t in s.threads
    requires job.handle < s.nextAddress && job.after < |s.jobs|
    requires Own(a) == Own(s.threads[t]) && (forall p :: OpensWindow(a, p) == OpensWindow(s.threads[t], p))
    requires ThreadOk(s.(jobs := s.jobs + [job], threads := s.threads[t := a]), t)
    ensures Sound(s.(jobs := s.jobs + [job], threads := s.threads[t := a]))
  {
    var s' := s.(jobs := s.jobs + [job], threads := s.threads[t := a]);
    hide TableOk, IdsDiffer, HooksOk, ThreadOk;
    forall p | p in s.handles ensures HandleOk(s', p) && s'.handles[p].pendingDispatches == |Windows(s'.threads, p)| {
      assert HandleOk(s, p);
      WindowsSet(s.threads, t, a, p);
    }
    hide HandleOk, Windows;
    forall u | u in s'.threads && u != t ensures ThreadOk(s', u) {
      NewJobKeepsThread(s, s', u);
    }
  }

  lemma AllocateKeepsHandles(s: State, op: Op, mount: MountId, reuse: Id)
    requires HandlesOk(s) && TableOk(s.handles, s.handleMap) && IdsDiffer(s.handles)
    requires mount in s.mounts && 0 < |s.jobs| && s.nextAddress !in s.freed && 0 < s.nextHandleId
    requires reuse != 0 ==> reuse !in s.handleMap && IsFree(s, reuse)
    ensures var s' := Allocate(s, op, mount, reuse);
      && HandlesOk(s') && TableOk(s'.handles, s'.handleMap) && IdsDiffer(s'.handles) && IsPrivate(s', s.nextAddress)
      && ClosedAmong(s'.handles, s'.handles.Keys) == ClosedAmong(s.handles, s.handles.Keys)
  {
    var s' := Allocate(s, op, mount, reuse);
    forall p | p in s'.handles ensures HandleOk(s', p) {
      if p != s.nextAddress { assert HandleOk(s, p); }
    }
    forall p, q | p in s'.handles && q in s'.handles && p != q ensures s'.handles[p].id != s'.handles[q].id {
      if p in s.handles { assert HandleOk(s, p); }
      if q in s.handles { assert HandleOk(s, q); }
    }
    forall id | id in s.handleMap ensures s.handleMap[id] != s.nextAddress {
      assert HandleOk(s, s.handleMap[id]);
    }
  }

  lemma AllocateKeepsThread(s: State, s': State, op: Op, mount: MountId, reuse: Id, u: ThreadId)
    requires HandlesOk(s) && u in s.threads && ThreadOk(s, u)
    requires u in s'.threads && s'.threads[u] == s.threads[u]
    requires mount in s.mounts && s.mounts[mount].Listed?
    requires reuse != 0 ==> reuse !in s.handleMap && IsFree(s, reuse)
    requires s' == Allocate(s, op, mount, reuse).(threads := s'.threads)
    ensures ThreadOk(s', u)
  {
    forall p | p in s.handles ensures p != s.nextAddress { assert HandleOk(s, p); }
    match s.threads[u]
    case Closing(m, victims, drained) =>
      forall p | p in s'.handles
        ensures ClosersKeep(s, s', p) || s'.handles[p].mount != m
      {
        if p != s.nextAddress { assert ClosersKeep(s, s', p); }
      }
      CloserKept(s, s', u, m, victims, drained);
    case _ =>
  }

  lemma NoWindowOnNew(s: State, p: Address)
    requires ThreadsOk(s) && p !in s.handles
    ensures Windows(s.threads, p) == {}
    ensures forall u :: u in s.threads ==> Own(s.threads[u]) != Some(p)
  {
    forall u | u in s.threads ensures !OpensWindow(s.threads[u], p) && Own(s.threads[u]) != Some(p) {
      assert ThreadOk(s, u);
    }
  }

  lemma AllocateIsSound(s: State, t: ThreadId, a: Activity, op: Op, mount: MountId, reuse: Id)
    requires Sound(s) && mount in s.mounts && s.mounts[mount].Listed?
    requires reuse != 0 ==> reuse !in s.handleMap && IsFree(s, reuse)
    requires Own(a) == Some(s.nextAddress)
    requires forall p :: OpensWindow(a, p) == (t in s.threads && OpensWindow(s.threads[t], p))
    requires ThreadOk(WithActivity(Allocate(s, op, mount, reuse), t, a), t)
    ensures Sound(WithActivity(Allocate(s, op, mount, reuse), t, a))
  {
    var s' := WithActivity(Allocate(s, op, mount, reuse), t, a);
    hide IsFree, ThreadOk;
    forall p | p in s.handles ensures p != s.nextAddress { assert HandleOk(s, p); }
    AllocateKeepsHandles(s, op, mount, reuse);
    NoWindowOnNew(s, s.nextAddress);
    forall p | p in s'.handles ensures HandleOk(s', p) {
      assert HandleOk(Allocate(s, op, mount, reuse), p);
    }
    forall p | p in s'.handles ensures s'.handles[p].pendingDispatches == |Windows(s'.threads, p)| {
      if t in s.threads { WindowsSet(s.threads, t, a, p); } else { WindowsAdd(s.threads, t, a, p); }
    }
    forall u | u in s'.threads && u != t ensures ThreadOk(s', u) {
      AllocateKeepsThread(s, s', op, mount, reuse, u);
    }
  }

  // One handle changes in place; `threads` and `handleMap` are then adjusted by the caller.
  ghost predicate SameIdentity(h: Handle, h': Handle) {
    h'.id == h.id && h'.op == h.op && h'.mount == h.mount
  }

  lemma SameHandlesOk(s: State, s': State)
    requires HandlesOk(s) && s' == s.(threads := s'.threads, closedCount := s'.closedCount)
    ensures HandlesOk(s')
  {
    forall p | p in s'.handles ensures HandleOk(s', p) { assert HandleOk(s, p); }
  }

  lemma UpdateKeepsHandles(s: State, p: Address, h: Handle)
    requires HandlesOk(s) && TableOk(s.handles, s.handleMap) && IdsDiffer(s.handles) && p in s.handles
    requires SameIdentity(s.handles[p], h) && h.jobHandle < |s.jobs| && h.lastJob < |s.jobs|
    requires h.closed ==> s.handles[p].closed || (IsPublished(s, p) && !BorrowsCallerMemory(h.op))
    ensures var s' := WithHandle(s, p, h); HandlesOk(s') && TableOk(s'.handles, s'.handleMap) && IdsDiffer(s'.handles)
  {
    var s' := WithHandle(s, p, h);
    forall q | q in s'.handles ensures HandleOk(s', q) {
      assert HandleOk(s, q);
    }
  }

  lemma UpdateKeepsThread(s: State, s': State, p: Address, h: Handle, u: ThreadId)
    requires u in s.threads && u in s'.threads && s'.threads[u] == s.threads[u] && ThreadOk(s, u)
    requires p in s.handles && SameIdentity(s.handles[p], h)
    requires OnListedMount(s, p) || (Idle(s.jobs, s.handles[p]) ==> Idle(s.jobs, h))
    requires s' == WithHandle(s, p, h).(threads := s'.threads, closedCount := s'.closedCount)
    ensures ThreadOk(s', u)
  {
    match s.threads[u]
    case Closing(m, victims, drained) =>
      forall q | q in s'.handles
        ensures ClosersKeep(s, s', q) || s'.handles[q].mount != m
      {
        assert MountHandleOk(s, m, victims, drained, q);
        if q != p { assert ClosersKeep(s, s', q); }
      }
      CloserKept(s, s', u, m, victims, drained);
    case _ =>
  }

  lemma RaisedPending(handles: map<Address, Handle>, threads: map<ThreadId, Activity>, t: ThreadId, a: Activity,
                      p: Address)
    requires PendingOk(handles, threads) && t !in threads && p in handles
    requires forall q :: OpensWindow(a, q) == (q == p)
    requires PrivateToOne(threads) && Own(a).None?
    ensures PrivateToOne(threads[t := a])
    ensures var handles' := handles[p := handles[p].(pendingDispatches := handles[p].pendingDispatches + 1)];
      && PendingOk(handles', threads[t := a])
      && ClosedAmong(handles', handles'.Keys) == ClosedAmong(handles, handles.Keys)
  {
    forall q | q in handles ensures |Windows(threads[t := a], q)| == |Windows(threads, q)| + if q == p then 1 else 0 {
      WindowsAdd(threads, t, a, q);
    }
  }

  lemma RaisedHandlesOk(s: State, p: Address, s': State)
    requires HandlesOk(s) && TableOk(s.handles, s.handleMap) && IdsDiffer(s.handles) && p in s.handles
    requires s' == Raised(s, p).(threads := s'.threads)
    ensures HandlesOk(s') && TableOk(s'.handles, s'.handleMap) && IdsDiffer(s'.handles)
  {
    hide TableOk, IdsDiffer;
    assert HandleOk(s, p);
    UpdateKeepsHandles(s, p, Raised(s, p).handles[p]);
    SameHandlesOk(Raised(s, p), s');
  }

  lemma OpenWindowIsSound(s: State, t: ThreadId, p: Address, a: Activity)
    requires Sound(s) && t !in s.threads && IsPublished(s, p) && OnListedMount(s, p)
    requires Own(a).None? && (forall q :: OpensWindow(a, q) == (q == p))
    requires ThreadOk(WithActivity(Raised(s, p), t, a), t)
    ensures Sound(WithActivity(Raised(s, p), t, a))
  {
    hide ThreadOk, JobsOk, HooksOk, PendingOk, ClosedAmong, PrivateToOne, OpensWindow, HandlesOk, TableOk, IdsDiffer;
    var s' := WithActivity(Raised(s, p), t, a);
    var h := s'.handles[p];
    RaisedHandlesOk(s, p, s');
    RaisedPending(s.handles, s.threads, t, a, p);
    forall u | u in s'.threads && u != t ensures ThreadOk(s', u) {
      UpdateKeepsThread(s, s', p, h, u);
    }
  }

  // A window holds the count above zero, so that its handle is not idle.
  lemma WindowCounts(s: State, t: ThreadId, p: Address)
    requires PendingOk(s.handles, s.threads) && t in s.threads && OpensWindow(s.threads[t], p) && p in s.handles
    ensures s.handles[p].pendingDispatches > 0
  {
    assert t in Windows(s.threads, p);
  }

  lemma LoweredPending(handles: map<Address, Handle>, threads: map<ThreadId, Activity>, t: ThreadId, p: Address,
                       h: Handle)
    requires PendingOk(handles, threads) && t in threads && p in handles
    requires forall q :: OpensWindow(threads[t], q) == (q == p)
    requires h.closed == handles[p].closed && h.pendingDispatches == handles[p].pendingDispatches - 1
    ensures PendingOk(handles[p := h], threads - {t})
    ensures ClosedAmong(handles[p := h], handles[p := h].Keys) == ClosedAmong(handles, handles.Keys)
  {
    forall q | q in handles ensures |Windows(threads - {t}, q)| == |Windows(threads, q)| - if q == p then 1 else 0 {
      WindowsRemove(threads, t, q);
    }
  }

  lemma CloseWindowIsSound(s: State, t: ThreadId, p: Address, h: Handle)
    requires Sound(s) && t in s.threads && Own(s.threads[t]).None? && p in s.handles
    requires forall q :: OpensWindow(s.threads[t], q) == (q == p)
    requires SameIdentity(s.handles[p], h) && h.jobHandle < |s.jobs| && h.lastJob < |s.jobs|
    requires h.closed == s.handles[p].closed && h.pendingDispatches == s.handles[p].pendingDispatches - 1
    ensures Sound(WithoutActivity(WithHandle(s, p, h), t))
  {
    var s' := WithoutActivity(WithHandle(s, p, h), t);
    hide ThreadOk, JobsOk, HooksOk, PendingOk, ClosedAmong;
    assert HandleOk(s, p);
    WindowCounts(s, t, p);
    UpdateKeepsHandles(s, p, h);
    SameHandlesOk(WithHandle(s, p, h), s');
    LoweredPending(s.handles, s.threads, t, p, h);
    hide HandlesOk, TableOk, IdsDiffer;
    forall u | u in s'.threads ensures ThreadOk(s', u) {
      UpdateKeepsThread(s, s', p, h, u);
    }
  }

  lemma DeferredCloseKeepsCounts(handles: map<Address, Handle>, threads: map<ThreadId, Activity>, p: Address)
    requires p in handles && !handles[p].closed && PendingOk(handles, threads)
    ensures var handles' := handles[p := handles[p].(closed := true)];
      && PendingOk(handles', threads)
      && |ClosedAmong(handles', handles'.Keys)| == |ClosedAmong(handles, handles.Keys)| + 1
  {
    var handles' := handles[p := handles[p].(closed := true)];
    var C := ClosedAmong(handles, handles.Keys);
    assert p !in C;
    assert ClosedAmong(handles', handles'.Keys) == C + {p};
  }

  lemma DeferredCloseIsSound(s: State, p: Address)
    requires Sound(s) && IsPublished(s, p) && !s.handles[p].closed && !BorrowsCallerMemory(s.handles[p].op)
    ensures Sound(WithHandle(s, p, s.handles[p].(closed := true)).(closedCount := s.closedCount + 1))
  {
    var h := s.handles[p].(closed := true);
    var s' := WithHandle(s, p, h).(closedCount := s.closedCount + 1);
    hide ThreadOk, PrivateToOne, HooksOk, JobsOk, PendingOk, ClosedAmong;
    assert HandleOk(s, p);
    UpdateKeepsHandles(s, p, h);
    SameHandlesOk(WithHandle(s, p, h), s');
    hide HandlesOk, TableOk, IdsDiffer;
    forall u | u in s'.threads ensures ThreadOk(s', u) {
      UpdateKeepsThread(s, s', p, h, u);
    }
    DeferredCloseKeepsCounts(s.handles, s.threads, p);
  }

  // Publishing takes the handle out of its thread's hands; the thread may go on without it.
  lemma PublishKeepsThread(s: State, s': State, t: ThreadId, p: Address, h: Handle, u: ThreadId)
    requires IsPrivate(s, p) && SameIdentity(s.handles[p], h) && PrivateToOne(s.threads) && IdsDiffer(s.handles)
    requires h.pendingDispatches == s.handles[p].pendingDispatches
    requires t in s.threads && Own(s.threads[t]) == Some(p) && u != t
    requires u in s.threads && u in s'.threads && s'.threads[u] == s.threads[u] && ThreadOk(s, u)
    requires s' == WithHandle(s, p, h).(handleMap := s.handleMap[h.id := p], threads := s'.threads)
    ensures ThreadOk(s', u)
  {
    assert Own(s.threads[u]) != Some(p);
    match s.threads[u]
    case Closing(m, victims, drained) =>
      assert MountHandleOk(s, m, victims, drained, p);
      forall q | q in s'.handles
        ensures ClosersKeep(s, s', q) || s'.handles[q].mount != m
      {
        if q != p { assert ClosersKeep(s, s', q); }
      }
      CloserKept(s, s', u, m, victims, drained);
    case _ =>
  }

  lemma PublishKeepsHandles(s: State, p: Address, h: Handle)
    requires HandlesOk(s) && TableOk(s.handles, s.handleMap) && IdsDiffer(s.handles) && IsPrivate(s, p)
    requires SameIdentity(s.handles[p], h) && h.jobHandle < |s.jobs| && h.lastJob < |s.jobs|
    requires h.closed == s.handles[p].closed
    ensures var s' := WithHandle(s, p, h).(handleMap := s.handleMap[h.id := p]);
      HandlesOk(s') && TableOk(s'.handles, s'.handleMap) && IdsDiffer(s'.handles)
  {
    var s' := WithHandle(s, p, h).(handleMap := s.handleMap[h.id := p]);
    forall q | q in s'.handles ensures HandleOk(s', q) {
      assert HandleOk(s, q);
    }
  }

  lemma SameWindows(threads: map<ThreadId, Activity>, threads': map<ThreadId, Activity>, t: ThreadId, p: Address)
    requires threads - {t} == threads' - {t} && t in threads
    requires OpensWindow(threads[t], p) == (t in threads' && OpensWindow(threads'[t], p))
    ensures Windows(threads, p) == Windows(threads', p)
  {
    forall u | u != t
      ensures u in threads <==> u in threads'
      ensures u in threads ==> threads[u] == threads'[u]
    {
      assert u in threads <==> u in threads - {t};
      assert u in threads' <==> u in threads' - {t};
      if u in threads { assert (threads - {t})[u] == (threads' - {t})[u]; }
    }
  }

  lemma PublishKeepsCounts(s: State, t: ThreadId, p: Address, h: Handle, threads: map<ThreadId, Activity>)
    requires PendingOk(s.handles, s.threads) && PrivateToOne(s.threads) && t in s.threads && p in s.handles
    requires h.closed == s.handles[p].closed && h.pendingDispatches == s.handles[p].pendingDispatches
    requires threads == s.threads - {t} || (t in threads && threads == s.threads[t := threads[t]]
      && Own(threads[t]).None?)
    requires forall q :: OpensWindow(s.threads[t], q) == (t in threads && OpensWindow(threads[t], q))
    ensures var handles' := s.handles[p := h];
      && PendingOk(handles', threads) && PrivateToOne(threads)
      && ClosedAmong(handles', handles'.Keys) == ClosedAmong(s.handles, s.handles.Keys)
  {
    var handles' := s.handles[p := h];
    assert threads - {t} == s.threads - {t};
    forall q | q in handles' ensures handles'[q].pendingDispatches == |Windows(threads, q)| {
      SameWindows(s.threads, threads, t, q);
    }
  }

  lemma PublishIsSound(s: State, t: ThreadId, p: Address, h: Handle, threads: map<ThreadId, Activity>)
    requires Sound(s) && t in s.threads && Own(s.threads[t]) == Some(p) && IsPrivate(s, p)
    requires SameIdentity(s.handles[p], h) && h.jobHandle < |s.jobs| && h.lastJob < |s.jobs|
    requires h.closed == s.handles[p].closed && h.pendingDispatches == s.handles[p].pendingDispatches
    requires threads == s.threads - {t} || (t in threads && threads == s.threads[t := threads[t]]
      && Own(threads[t]).None?)
    requires forall q :: OpensWindow(s.threads[t], q) == (t in threads && OpensWindow(threads[t], q))
    requires var s' := WithHandle(s, p, h).(handleMap := s.handleMap[h.id := p], threads := threads);
      t in threads ==> ThreadOk(s', t)
    ensures Sound(WithHandle(s, p, h).(handleMap := s.handleMap[h.id := p], threads := threads))
  {
    var s' := WithHandle(s, p, h).(handleMap := s.handleMap[h.id := p], threads := threads);
    hide ThreadOk, JobsOk, HooksOk, PendingOk, ClosedAmong;
    PublishKeepsHandles(s, p, h);
    assert HandlesOk(s') by {
      forall q | q in s'.handles ensures HandleOk(s', q) {
        assert HandleOk(WithHandle(s, p, h).(handleMap := s.handleMap[h.id := p]), q);
      }
    }
    forall u | u in threads && u != t ensures ThreadOk(s', u) {
      PublishKeepsThread(s, s', t, p, h, u);
    }
    PublishKeepsCounts(s, t, p, h, threads);
  }

  // A handle is freed only once it is published and no window is open on it.
  ghost predicate MayBeFreed(s: State, p: Address) {
    IsPublished(s, p) && s.handles[p].pendingDispatches == 0
  }

  lemma FreeKeepsHandles(s: State, some: set<Address>)
    requires HandlesOk(s) && TableOk(s.handles, s.handleMap) && IdsDiffer(s.handles)
    requires forall p :: p in some ==> MayBeFreed(s, p)
    ensures var s' := FreeAll(s, some);
      && HandlesOk(s') && TableOk(s'.handles, s'.handleMap) && IdsDiffer(s'.handles)
      && (forall p :: p in s'.handles ==>
          (IsPublished(s, p) <==> IsPublished(s', p)) && (IsPrivate(s, p) ==> IsPrivate(s', p)))
  {
    var s' := FreeAll(s, some);
    forall p | p in s'.handles ensures s'.handles[p].id in s.handleMap <==> s'.handles[p].id in s'.handleMap {
      forall q | q in some ensures s.handles[q].id != s.handles[p].id { assert MayBeFreed(s, q); }
    }
    forall p | p in s'.handles ensures HandleOk(s', p) { assert HandleOk(s, p); }
    forall id | id in s'.handleMap ensures s'.handleMap[id] in s'.handles {
      assert s.handleMap[id] in some ==> id in IdsOf(s.handles, some);
    }
  }

  lemma FreeKeepsThread(s: State, some: set<Address>, t: ThreadId)
    requires Sound(s) && t in s.threads && (forall p :: p in some ==> MayBeFreed(s, p))
    ensures ThreadOk(FreeAll(s, some), t)
  {
    var s' := FreeAll(s, some);
    FreeKeepsHandles(s, some);
    assert ThreadOk(s, t);
    match s.threads[t]
    case Closing(m, victims, drained) =>
      forall p | p in s'.handles ensures ClosersKeep(s, s', p) { }
      CloserKept(s, s', t, m, victims, drained);
    case Dispatching(p, _, _) =>
      WindowCounts(s, t, p);
      assert p in some ==> MayBeFreed(s, p);
    case Chaining(f, _, _, _, op, _, _) =>
      WindowCounts(s, t, f);
      assert f in some ==> MayBeFreed(s, f);
      assert op.Some? && op.value in some ==> MayBeFreed(s, op.value);
    case Issuing(p, _) =>
      assert p in some ==> MayBeFreed(s, p);
  }

  lemma FreeKeepsHooks(s: State, some: set<Address>)
    requires HandlesOk(s) && HooksOk(s.owed, s.freed, s.released, s.nextAddress) && some <= s.handles.Keys
    ensures var s' := FreeAll(s, some); HooksOk(s'.owed, s'.freed, s'.released, s'.nextAddress)
  {
    forall p | p in some ensures p !in s.freed && p < s.nextAddress { assert HandleOk(s, p); }
  }

  lemma FreeIsSound(s: State, some: set<Address>)
    requires Sound(s) && (forall p :: p in some ==> MayBeFreed(s, p))
    ensures Sound(FreeAll(s, some))
  {
    var s' := FreeAll(s, some);
    hide ThreadOk, HandleOk, JobsOk, HooksOk, PrivateToOne, IdsDiffer;
    forall p | p in some ensures p in s.handles { assert MayBeFreed(s, p); }
    FreeKeepsHandles(s, some);
    FreeKeepsHooks(s, some);
    forall t | t in s.threads ensures ThreadOk(s', t) { FreeKeepsThread(s, some, t); }
    ClosedAreFreed(s.handles, some);
  }

  lemma ClosedAreFreed(handles: map<Address, Handle>, some: set<Address>)
    requires some <= handles.Keys
    ensures |ClosedAmong(handles - some, (handles - some).Keys)|
         == |ClosedAmong(handles, handles.Keys)| - |ClosedAmong(handles, some)|
  {
    var rest := ClosedAmong(handles - some, (handles - some).Keys);
    var gone := ClosedAmong(handles, some);
    assert ClosedAmong(handles, handles.Keys) == rest + gone;
    assert rest !! gone;
  }

  // -------------------------------------------------------------------------------------------
  // Closing a mount
  // -------------------------------------------------------------------------------------------

  lemma SnapshotMakesVictims(s: State, mount: MountId, p: Address)
    requires TableOk(s.handles, s.handleMap) && IdsDiffer(s.handles) && p in s.handles
    requires s.handles[p].mount == mount ==> IsPublished(s, p)
    ensures MountHandleOk(s, mount, IdsOnMount(s, mount), false, p)
  {
  }

  lemma ThreadsPending(handles: map<Address, Handle>, threads: map<ThreadId, Activity>, t: ThreadId, a: Activity)
    requires PendingOk(handles, threads) && forall p :: !OpensWindow(a, p)
    requires t in threads ==> forall p :: !OpensWindow(threads[t], p)
    ensures PendingOk(handles, threads[t := a])
  {
    forall p | p in handles ensures handles[p].pendingDispatches == |Windows(threads[t := a], p)| {
      if t in threads { WindowsSet(threads, t, a, p); } else { WindowsAdd(threads, t, a, p); }
    }
  }

  lemma SnapshotKeepsThread(s: State, t: ThreadId, mount: MountId, u: ThreadId)
    requires u in s.threads && u != t && ThreadOk(s, u) && mount in s.mounts && s.mounts[mount].Listed?
    requires s.threads[u].Chaining? ==> s.threads[u].mount != mount
    ensures ThreadOk(MountSnapshotSection(s, t, mount), u)
  {
    match s.threads[u]
    case Closing(m, victims, drained) => CloserKept(s, MountSnapshotSection(s, t, mount), u, m, victims, drained);
    case _ =>
  }

  // Only threads and mounts change.
  lemma SoundAgain(s: State, s': State)
    requires Sound(s) && s' == s.(threads := s'.threads, mounts := s'.mounts)
    requires HandlesOk(s') && PendingOk(s'.handles, s'.threads) && ThreadsOk(s') && PrivateToOne(s'.threads)
    ensures Sound(s')
  {
    hide HandlesOk, PendingOk, ThreadsOk, PrivateToOne, TableOk, IdsDiffer, JobsOk, HooksOk, ClosedAmong;
  }

  lemma SnapshotKeepsHandle(s: State, t: ThreadId, mount: MountId, p: Address)
    requires HandlesOk(s) && mount in s.mounts && s.mounts[mount].Listed? && p in s.handles
    ensures HandleOk(MountSnapshotSection(s, t, mount), p)
  {
    assert HandleOk(s, p);
  }

  lemma SnapshotIsCloser(s: State, t: ThreadId, mount: MountId)
    requires Sound(s) && t !in s.threads && mount in s.mounts && s.mounts[mount].Listed?
    requires forall p :: p in s.handles && s.handles[p].mount == mount ==> IsPublished(s, p)
    ensures ThreadOk(MountSnapshotSection(s, t, mount), t)
  {
    var s' := MountSnapshotSection(s, t, mount);
    forall id | id in IdsOnMount(s, mount) ensures id < s.nextHandleId {
      assert HandleOk(s, s.handleMap[id]);
    }
    hide JobsOk, HooksOk, PendingOk, PrivateToOne, HandlesOk, ThreadsOk;
    forall p | p in s.handles ensures MountHandleOk(s', mount, IdsOnMount(s, mount), false, p) {
      SnapshotMakesVictims(s, mount, p);
    }
  }

  lemma SnapshotIsSound(s: State, t: ThreadId, mount: MountId)
    requires Sound(s) && t !in s.threads && mount in s.mounts && s.mounts[mount].Listed?
    requires Possible(s, MountSnapshot(t, mount)) && Orderly(s, MountSnapshot(t, mount))
    ensures Sound(MountSnapshotSection(s, t, mount))
  {
    hide HandleOk, ThreadOk, TableOk, IdsDiffer, JobsOk, HooksOk, IsPublished, PendingOk, ClosedAmong, IdsOnMount;
    var s' := MountSnapshotSection(s, t, mount);
    SnapshotIsCloser(s, t, mount);
    ThreadsPending(s.handles, s.threads, t, s'.threads[t]);
    forall u | u in s.threads ensures ThreadOk(s', u) { SnapshotKeepsThread(s, t, mount, u); }
    forall p | p in s.handles ensures HandleOk(s', p) { SnapshotKeepsHandle(s, t, mount, p); }
    hide Sound;
    SoundAgain(s, s');
  }

  function Refreshed(s: State, t: ThreadId): State
    requires t in s.threads && s.threads[t].Closing?
  {
    WithActivity(s, t, s.threads[t].(drained := VictimsIdle(s, s.threads[t].victims)))
  }

  lemma RefreshKeepsThread(s: State, t: ThreadId, u: ThreadId)
    requires u in s.threads && ThreadOk(s, u) && t in s.threads && s.threads[t].Closing?
    ensures ThreadOk(Refreshed(s, t), u)
  {
    hide VictimsIdle;
    if s.threads[u].Closing? {
      var a := s.threads[u];
      CloserKept(s, Refreshed(s, t), u, a.mount, a.victims, a.drained);
      if u == t {
        forall p | p in s.handles
          ensures MountHandleOk(Refreshed(s, t), a.mount, a.victims, VictimsIdle(s, a.victims), p)
        {
          RefreshedHandle(s, t, p);
        }
      }
    }
  }

  lemma RefreshedHandle(s: State, t: ThreadId, p: Address)
    requires t in s.threads && s.threads[t].Closing? && ThreadOk(s, t) && p in s.handles
    ensures var a := s.threads[t]; MountHandleOk(Refreshed(s, t), a.mount, a.victims, VictimsIdle(s, a.victims), p)
  {
    var a := s.threads[t];
    assert MountHandleOk(s, a.mount, a.victims, a.drained, p);
    if VictimsIdle(s, a.victims) && s.handles[p].mount == a.mount {
      assert Lookup(s, s.handles[p].id) == Some(p);
    }
  }

  lemma RefreshIsSound(s: State, t: ThreadId)
    requires Sound(s) && t in s.threads && s.threads[t].Closing?
    ensures Sound(Refreshed(s, t))
  {
    var s' := Refreshed(s, t);
    ThreadsPending(s.handles, s.threads, t, s'.threads[t]);
    hide ThreadOk, TableOk, IdsDiffer, JobsOk, HooksOk, IsPublished;
    forall u | u in s.threads ensures ThreadOk(s', u) { RefreshKeepsThread(s, t, u); }
    forall p | p in s.handles ensures HandleOk(s', p) { assert HandleOk(s, p); }
    hide Sound;
    SoundAgain(s, s');
  }

  // Once its handles are gone, nothing refers to the mount any more.
  lemma MountGoneIsSound(s: State, t: ThreadId, mount: MountId)
    requires Sound(s) && t in s.threads && s.threads[t].Closing? && s.threads[t].mount == mount
    requires forall p :: p in s.handles ==> s.handles[p].mount != mount
    ensures Sound(WithoutActivity(s, t).(mounts := s.mounts - {mount}))
  {
    hide JobsOk, HooksOk, TableOk, IdsDiffer, ThreadOk, ClosedAmong;
    var s' := WithoutActivity(s, t).(mounts := s.mounts - {mount});
    forall p | p in s.handles
      ensures HandleOk(s', p) && s'.handles[p].pendingDispatches == |Windows(s'.threads, p)|
    {
      assert HandleOk(s, p);
      WindowsRemove(s.threads, t, p);
    }
    hide HandleOk, PendingOk;
    forall u | u in s'.threads ensures ThreadOk(s', u) { MountGoneKeepsThread(s, t, mount, u); }
    SoundAgain(s, s');
  }

  lemma MountGoneKeepsThread(s: State, t: ThreadId, mount: MountId, u: ThreadId)
    requires t in s.threads && s.threads[t].Closing? && s.threads[t].mount == mount && ThreadOk(s, t)
    requires u in s.threads && u != t && ThreadOk(s, u)
    ensures ThreadOk(WithoutActivity(s, t).(mounts := s.mounts - {mount}), u)
  {
    match s.threads[u]
    case Closing(m, victims, drained) =>
      CloserKept(s, WithoutActivity(s, t).(mounts := s.mounts - {mount}), u, m, victims, drained);
    case _ =>
  }

  lemma VictimIsOnMount(s: State, t: ThreadId, p: Address)
    requires TableOk(s.handles, s.handleMap) && t in s.threads && s.threads[t].Closing? && OwnVictims(s, t)
    ensures p in Victims(s, s.threads[t].victims) ==> p in s.handles && s.handles[p].mount == s.threads[t].mount
  {
    if p in Victims(s, s.threads[t].victims) {
      var id :| id in s.threads[t].victims && Lookup(s, id) == Some(p);
    }
  }

  lemma MountFreeIsSound(s: State, t: ThreadId)
    requires Sound(s) && t in s.threads && s.threads[t].Closing? && s.threads[t].drained && OwnVictims(s, t)
    ensures var a := s.threads[t]; Sound(MountFreeSection(s, t, a.mount, a.victims))
    ensures forall p :: p in Victims(s, s.threads[t].victims) ==> MayBeFreed(s, p) && Idle(s.jobs, s.handles[p])
  {
    var a := s.threads[t];
    var some := Victims(s, a.victims);
    assert ThreadOk(s, t);
    forall p | p in s.handles
      ensures s.handles[p].mount == a.mount ==> p in some
      ensures p in some ==> MayBeFreed(s, p) && Idle(s.jobs, s.handles[p])
    {
      assert MountHandleOk(s, a.mount, a.victims, a.drained, p);
      VictimIsOnMount(s, t, p);
    }
    FreeIsSound(s, some);
    var left := FreeAll(s, some);
    hide Sound;
    MountGoneIsSound(left, t, a.mount);
    assert MountFreeSection(s, t, a.mount, a.victims) == WithoutActivity(left, t).(mounts := left.mounts - {a.mount});
  }

  // -------------------------------------------------------------------------------------------
  // Every step
  // -------------------------------------------------------------------------------------------

  lemma OpenIsPublished(s: State, id: Id)
    requires TableOk(s.handles, s.handleMap)
    ensures Lookup(s, id).Some? ==> IsPublished(s, Lookup(s, id).value) && s.handles[Lookup(s, id).value].id == id
  {
  }

  lemma PublishStepIsSound(s: State, t: ThreadId, inlined: bool)
    requires Sound(s) && Possible(s, Publish(t, inlined))
    ensures Sound(PublishSection(s, t, s.threads[t].handle, s.threads[t].job, inlined))
  {
    var a := s.threads[t];
    assert ThreadOk(s, t);
    LeaveWindowIsSound(s, a.job);
    var left := s.(jobs := LeaveWindow(s.jobs, a.job));
    var r := Recorded(a.job, inlined);
    var h := s.handles[a.handle].(jobHandle := r, lastJob := r);
    PublishIsSound(left, t, a.handle, h, left.threads - {t});
    assert PublishSection(s, t, a.handle, a.job, inlined)
        == WithHandle(left, a.handle, h).(handleMap := left.handleMap[h.id := a.handle], threads := left.threads - {t});
  }

  lemma EndDispatchStepIsSound(s: State, t: ThreadId, inlined: bool)
    requires Sound(s) && Possible(s, EndDispatch(t, inlined))
    ensures var a := s.threads[t]; Sound(EndDispatchSection(s, t, a.handle, a.id, a.job, inlined))
  {
    var a := s.threads[t];
    assert ThreadOk(s, t);
    LeaveWindowIsSound(s, a.job);
    var left := s.(jobs := LeaveWindow(s.jobs, a.job));
    var r := Recorded(a.job, inlined);
    var h := s.handles[a.handle];
    var h' := h.(jobHandle := r, lastJob := r, pendingDispatches := h.pendingDispatches - 1);
    CloseWindowIsSound(left, t, a.handle, h');
    assert EndDispatchSection(s, t, a.handle, a.id, a.job, inlined)
        == WithoutActivity(WithHandle(left, a.handle, h'), t);
  }

  function FileAfter(f: Handle, job: Option<JobId>, inlined: bool): Handle {
    f.(lastJob := if job.Some? then Recorded(job, inlined) else f.lastJob, pendingDispatches := f.pendingDispatches - 1)
  }

  lemma EndChainIs(s: State, t: ThreadId, left: State, a: Activity)
    requires t in s.threads && s.threads[t] == a && a.Chaining? && IsPublished(s, a.file)
      && s.handles[a.file].id == a.id
    requires left == s.(jobs := LeaveWindow(s.jobs, a.job))
    requires a.op.Some? ==> a.op.value in s.handles && a.op.value != a.file
    ensures var f := FileAfter(s.handles[a.file], a.job, a.inlined);
      match a.op
      case None => EndChainSection(s, t, a) == WithoutActivity(WithHandle(left, a.file, f), t)
      case Some(p) =>
        var r := Recorded(a.job, a.inlined);
        var h := s.handles[p].(jobHandle := r, lastJob := r);
        EndChainSection(s, t, a) == WithoutActivity(WithHandle(PublishedOp(left, t, p, h), a.file, f), t)
  {
    if a.op.Some? {
      var p := a.op.value;
      var r := Recorded(a.job, a.inlined);
      var h := s.handles[p].(jobHandle := r, lastJob := r);
      var f := FileAfter(s.handles[a.file], a.job, a.inlined);
      assert PublishedOp(left, t, p, h).threads - {t} == s.threads - {t};
      assert s.handles[a.file := f][p := h] == s.handles[p := h][a.file := f];
    }
  }

  function PublishedOp(s: State, t: ThreadId, p: Address, h: Handle): State
    requires t in s.threads && s.threads[t].Chaining?
  {
    WithHandle(s, p, h).(handleMap := s.handleMap[h.id := p],
                         threads := s.threads[t := s.threads[t].(op := None, job := None)])
  }

  // The operation's own handle is published ...
  lemma PublishedOpIsSound(s: State, t: ThreadId, r: JobId)
    requires Sound(s) && t in s.threads && s.threads[t].Chaining? && s.threads[t].op.Some? && r < |s.jobs|
    ensures var p := s.threads[t].op.value;
      && p in s.handles && p != s.threads[t].file
      && Sound(PublishedOp(s, t, p, s.handles[p].(jobHandle := r, lastJob := r)))
  {
    var a := s.threads[t];
    var p := a.op.value;
    assert ThreadOk(s, t);
    var h := s.handles[p].(jobHandle := r, lastJob := r);
    var s' := PublishedOp(s, t, p, h);
    assert ThreadOk(s', t);
    hide Sound, ThreadOk;
    PublishIsSound(s, t, p, h, s'.threads);
  }

  lemma ChainFacts(s: State, t: ThreadId)
    requires Sound(s) && t in s.threads && s.threads[t].Chaining?
    ensures var a := s.threads[t];
      && IsPublished(s, a.file) && s.handles[a.file].id == a.id
      && s.handles[a.file].jobHandle < |s.jobs| && s.handles[a.file].lastJob < |s.jobs|
      && Recorded(a.job, a.inlined) < |s.jobs| && a.chainAfter < |s.jobs|
  {
    assert ThreadOk(s, t) && HandleOk(s, s.threads[t].file);
  }

  // ... and the file handle is brought up to date.
  lemma EndChainStepIsSound(s: State, t: ThreadId)
    requires Sound(s) && Possible(s, EndChain(t))
    ensures Sound(EndChainSection(s, t, s.threads[t]))
  {
    hide Sound;
    var a := s.threads[t];
    var r := Recorded(a.job, a.inlined);
    var left := s.(jobs := LeaveWindow(s.jobs, a.job));
    ChainFacts(s, t);
    LeaveWindowIsSound(s, a.job);
    var mid := left;
    if a.op.Some? {
      PublishedOpIsSound(left, t, r);
      mid := PublishedOp(left, t, a.op.value, s.handles[a.op.value].(jobHandle := r, lastJob := r));
    }
    EndChainIs(s, t, left, a);
    CloseWindowIsSound(mid, t, a.file, FileAfter(s.handles[a.file], a.job, a.inlined));
  }

  lemma CloseStepIsSound(s: State, id: Id, mainThread: bool)
    requires Sound(s)
    ensures Sound(CloseSection(s, id, mainThread))
  {
    OpenIsPublished(s, id);
    if LookupOpen(s, id).Some? {
      var p := LookupOpen(s, id).value;
      if Idle(s.jobs, s.handles[p]) {
        assert MayBeFreed(s, p);
        FreeIsSound(s, {p});
      } else if mainThread && !BorrowsCallerMemory(s.handles[p].op) {
        DeferredCloseIsSound(s, p);
      }
    }
  }

  lemma ReclaimStepIsSound(s: State)
    requires Sound(s)
    ensures Sound(ReclaimSection(s))
    ensures forall p :: p in Reclaimable(s) ==> MayBeFreed(s, p) && Idle(s.jobs, s.handles[p])
  {
    FreeIsSound(s, Reclaimable(s));
  }

  lemma BeginIssueStepIsSound(s: State, t: ThreadId, op: Op, mount: MountId, reuse: Id)
    requires Sound(s) && t !in s.threads && mount in s.mounts && s.mounts[mount].Listed?
    requires reuse != 0 ==> IsFree(s, reuse)
    ensures Sound(BeginIssueSection(s, t, op, mount, reuse))
  {
    if reuse == 0 || reuse !in s.handleMap {
      AllocateKeepsHandles(s, op, mount, reuse);
      hide Sound, IsFree, HandlesOk, IdsDiffer, TableOk;
      AllocateIsSound(s, t, Issuing(s.nextAddress, None), op, mount, reuse);
    }
  }

  lemma BeginDispatchStepIsSound(s: State, t: ThreadId, id: Id)
    requires Sound(s) && t !in s.threads
    requires LookupOpen(s, id).Some? ==> OnListedMount(s, LookupOpen(s, id).value)
    ensures Sound(BeginDispatchSection(s, t, id))
  {
    OpenIsPublished(s, id);
    hide Sound;
    if LookupOpen(s, id).Some? {
      var p := LookupOpen(s, id).value;
      OpenWindowIsSound(s, t, p, Dispatching(p, id, None));
    }
  }

  lemma BeginChainStepIsSound(s: State, t: ThreadId, id: Id)
    requires Sound(s) && t !in s.threads
    requires LookupOpen(s, id).Some? ==> OnListedMount(s, LookupOpen(s, id).value)
    ensures Sound(BeginChainSection(s, t, id))
  {
    OpenIsPublished(s, id);
    if LookupOpen(s, id).Some? && s.handles[LookupOpen(s, id).value].op.FileOpen? {
      var f := LookupOpen(s, id).value;
      var h := s.handles[f];
      assert HandleOk(s, f);
      hide Sound;
      OpenWindowIsSound(s, t, f, Chaining(f, id, h.mount, h.lastJob, None, None, false));
    }
  }

  lemma ChainAllocateStepIsSound(s: State, t: ThreadId, op: Op)
    requires Sound(s) && t in s.threads && s.threads[t].Chaining? && s.threads[t].op.None?
    ensures var a := s.threads[t];
      Sound(WithActivity(Allocate(s, op, a.mount, 0), t, a.(op := Some(s.nextAddress))))
  {
    var a := s.threads[t];
    assert ThreadOk(s, t);
    AllocateKeepsHandles(s, op, a.mount, 0);
    hide Sound, HandlesOk, IdsDiffer, TableOk;
    AllocateIsSound(s, t, a.(op := Some(s.nextAddress)), op, a.mount, 0);
  }

  lemma JobStepIsSound(s: State, step: Step)
    requires Sound(s) && Possible(s, step)
    requires step.Schedule? || step.ChainSchedule? || step.Finish?
    ensures Sound(Apply(s, step))
  {
    match step
    case Schedule(t, after) =>
      var a := s.threads[t];
      assert ThreadOk(s, t) && HandleOk(s, a.handle);
      NewJobIsSound(s, t, WithJob(a, |s.jobs|), Job(a.handle, None, after, false, Some(t)));
    case ChainSchedule(t, inlined) =>
      var a := s.threads[t];
      assert ThreadOk(s, t) && HandleOk(s, a.op.value);
      NewJobIsSound(s, t, a.(job := Some(|s.jobs|), inlined := inlined),
                    Job(a.op.value, Some(a.file), a.chainAfter, false, Some(t)));
    case Finish(j) =>
      JobUpdateIsSound(s, j, s.jobs[j].(finished := true));
  }

  lemma ReleaseStepIsSound(s: State, p: Address)
    requires Sound(s) && p in s.owed
    ensures Sound(s.(owed := s.owed - {p}, released := s.released + multiset{p}))
  {
    var s' := s.(owed := s.owed - {p}, released := s.released + multiset{p});
    forall q | q in s.handles ensures HandleOk(s', q) { assert HandleOk(s, q); }
    hide HandleOk, IdsDiffer;
    forall t | t in s.threads ensures ThreadOk(s', t) {
      assert ThreadOk(s, t);
      match s.threads[t]
      case Closing(m, victims, drained) => CloserKept(s, s', t, m, victims, drained);
      case _ =>
    }
  }

  lemma StepIsSound(s: State, step: Step)
    requires Sound(s) && Possible(s, step) && Orderly(s, step)
    ensures Sound(Apply(s, step))
  {
    hide Sound, IsFree;
    match step
    case NewMount(m) => NewMountIsSound(s, m);
    case BeginIssue(t, op, mount, reuse) => BeginIssueStepIsSound(s, t, op, mount, reuse);
    case Schedule(_, _) => JobStepIsSound(s, step);
    case Publish(t, inlined) => PublishStepIsSound(s, t, inlined);
    case BeginDispatch(t, id) => BeginDispatchStepIsSound(s, t, id);
    case EndDispatch(t, inlined) => EndDispatchStepIsSound(s, t, inlined);
    case BeginChain(t, id) => BeginChainStepIsSound(s, t, id);
    case ChainAllocate(t, op) => ChainAllocateStepIsSound(s, t, op);
    case ChainSchedule(_, _) => JobStepIsSound(s, step);
    case EndChain(t) => EndChainStepIsSound(s, t);
    case Close(id, mainThread) => CloseStepIsSound(s, id, mainThread);
    case Reclaim => ReclaimStepIsSound(s);
    case Finish(_) => JobStepIsSound(s, step);
    case Release(p) => ReleaseStepIsSound(s, p);
    case MountSnapshot(t, mount) =>
      if mount in s.mounts && s.mounts[mount].Listed? { SnapshotIsSound(s, t, mount); }
    case MountRefresh(t) => RefreshIsSound(s, t);
    case MountFree(t) => MountFreeIsSound(s, t);
  }

  // A step keeps what every handle is; what is new has the next address.
  ghost predicate Named(s: State, s': State, p: Address) {
    && s.nextAddress <= s'.nextAddress
    && (p in s'.handles && p < s.nextAddress ==> p in s.handles && SameIdentity(s.handles[p], s'.handles[p]))
  }

  lemma StepKeepsNames(s: State, step: Step, p: Address)
    requires Possible(s, step)
    ensures Named(s, Apply(s, step), p)
  {
    hide Idle, BorrowsCallerMemory, Finished, ClosedAmong, VictimsIdle, JobDone;
  }
}
