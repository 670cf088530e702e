// The handle protocol of the virtual file system (src/vfs/vfs.c): its state and its atomic steps.
//
// Every section of the program that runs under handle_lock is one step, and so is every job that is
// created or finishes and every release hook that runs.  The steps of different threads interleave
// in any way.  A handle is identified by its address as well as by its id, because an id can be
// passed in again once its handle is gone.

module VfsState {

  import opened Wrappers

  type Address = nat
  type Id = nat        // 0 is no handle
  type JobId = nat     // 0 is no job
  type ThreadId = nat
  type MountId = nat

  datatype Op = Mount | MountList | FileOpen | FileRead | FileWrite | ReadAll

  datatype Handle = Handle(id: Id, op: Op, mount: MountId, jobHandle: JobId, lastJob: JobId,
                           pendingDispatches: int, closed: bool)

  // A job works on its handle through a raw pointer, and a read or write finds its file handle by id.
  // `window` is the thread that created the job, until that thread has recorded it.
  datatype Job = Job(handle: Address, file: Option<Address>, after: JobId, finished: bool,
                     window: Option<ThreadId>)

  // What a thread has begun under the lock and completes in a later section.
  datatype Activity =
    | Issuing(handle: Address, job: Option<JobId>)
    | Dispatching(handle: Address, id: Id, job: Option<JobId>)
    | Chaining(file: Address, id: Id, mount: MountId, chainAfter: JobId,
               op: Option<Address>, job: Option<JobId>, inlined: bool)
    | Closing(mount: MountId, victims: set<Id>, drained: bool)

  datatype MountStatus = Listed | Draining(closer: ThreadId)

  datatype State = State(
    handles: map<Address, Handle>,      // every handle that has been allocated and not freed
    handleMap: map<Id, Address>,        // the published ones
    nextHandleId: Id,
    nextAddress: Address,
    closedCount: int,
    jobs: seq<Job>,                     // a job is its position; position 0 stands for "no job"
    threads: map<ThreadId, Activity>,
    mounts: map<MountId, MountStatus>,  // the mounts that have not been destroyed
    freed: set<Address>,
    owed: set<Address>,                 // freed, but the release hook has still to be run
    released: multiset<Address>)        // the release hooks that have been run

  const NO_JOB := Job(0, None, 0, true, None)

  const START := State(map[], map[], 1, 0, 0, [NO_JOB], map[], map[], {}, {}, multiset{})

  // ---------------------------------------------------------------------------------------------
  // What the sections look at
  // ---------------------------------------------------------------------------------------------

  predicate Finished(jobs: seq<Job>, j: JobId) {
    j < |jobs| ==> jobs[j].finished
  }

  // No scheduling window is open on the handle, and its own job and the last one chained are done.
  predicate Idle(jobs: seq<Job>, h: Handle) {
    h.pendingDispatches == 0 && Finished(jobs, h.jobHandle) && Finished(jobs, h.lastJob)
  }

  predicate IsPublished(s: State, p: Address) {
    p in s.handles && s.handles[p].id in s.handleMap && s.handleMap[s.handles[p].id] == p
  }

  function Lookup(s: State, id: Id): Option<Address> {
    if id in s.handleMap && s.handleMap[id] in s.handles then Some(s.handleMap[id]) else None
  }

  // A closed handle reads as absent.
  function LookupOpen(s: State, id: Id): Option<Address> {
    if Lookup(s, id).Some? && !s.handles[s.handleMap[id]].closed then Lookup(s, id) else None
  }

  predicate BorrowsCallerMemory(op: Op) {
    op.FileRead? || op.FileWrite?
  }

  predicate OpensWindow(a: Activity, p: Address) {
    (a.Dispatching? && a.handle == p) || (a.Chaining? && a.file == p)
  }

  // ---------------------------------------------------------------------------------------------
  // The sections
  // ---------------------------------------------------------------------------------------------

  datatype Step =
    | NewMount(mount: MountId)
    | BeginIssue(t: ThreadId, op: Op, onMount: MountId, reuse: Id)
    | Schedule(t: ThreadId, after: JobId)
    | Publish(t: ThreadId, inlined: bool)
    | BeginDispatch(t: ThreadId, id: Id)
    | EndDispatch(t: ThreadId, inlined: bool)
    | BeginChain(t: ThreadId, id: Id)
    | ChainAllocate(t: ThreadId, op: Op)
    | ChainSchedule(t: ThreadId, inlined: bool)
    | EndChain(t: ThreadId)
    | Close(id: Id, mainThread: bool)
    | Reclaim
    | Finish(job: JobId)
    | Release(handle: Address)
    | MountSnapshot(t: ThreadId, mount: MountId)
    | MountRefresh(t: ThreadId)
    | MountFree(t: ThreadId)

  // A new handle that is in no map yet; its id is a new one unless an old one is passed in.
  function Allocate(s: State, op: Op, mount: MountId, reuse: Id): State {
    var id := if reuse != 0 then reuse else s.nextHandleId;
    s.(handles := s.handles[s.nextAddress := Handle(id, op, mount, 0, 0, 0, false)],
       nextAddress := s.nextAddress + 1,
       nextHandleId := if reuse != 0 then s.nextHandleId else s.nextHandleId + 1)
  }

  function WithActivity(s: State, t: ThreadId, a: Activity): State {
    s.(threads := s.threads[t := a])
  }

  function WithoutActivity(s: State, t: ThreadId): State {
    s.(threads := s.threads - {t})
  }

  function WithHandle(s: State, p: Address, h: Handle): State {
    s.(handles := s.handles[p := h])
  }

  // The creating thread has recorded the job, or found it done.
  function LeaveWindow(jobs: seq<Job>, job: Option<JobId>): seq<Job> {
    if job.Some? && job.value < |jobs| then jobs[job.value := jobs[job.value].(window := None)] else jobs
  }

  // What the scheduler returns: no job at all when the caller ran it inline.
  function Recorded(job: Option<JobId>, inlined: bool): JobId {
    if job.Some? && !inlined then job.value else 0
  }

  function BeginIssueSection(s: State, t: ThreadId, op: Op, mount: MountId, reuse: Id): State {
    if reuse != 0 && reuse in s.handleMap then s
    else WithActivity(Allocate(s, op, mount, reuse), t, Issuing(s.nextAddress, None))
  }

  function PublishSection(s: State, t: ThreadId, p: Address, job: Option<JobId>, inlined: bool): State
    requires p in s.handles
  {
    var r := Recorded(job, inlined);
    var h := s.handles[p].(jobHandle := r, lastJob := r);
    WithoutActivity(WithHandle(s, p, h), t)
      .(jobs := LeaveWindow(s.jobs, job), handleMap := s.handleMap[h.id := p])
  }

  function Raised(s: State, p: Address): State
    requires p in s.handles
  {
    WithHandle(s, p, s.handles[p].(pendingDispatches := s.handles[p].pendingDispatches + 1))
  }

  function BeginDispatchSection(s: State, t: ThreadId, id: Id): State {
    match LookupOpen(s, id)
    case None => s
    case Some(p) => WithActivity(Raised(s, p), t, Dispatching(p, id, None))
  }

  function EndDispatchSection(s: State, t: ThreadId, p: Address, id: Id, job: Option<JobId>, inlined: bool): State {
    var left := WithoutActivity(s, t).(jobs := LeaveWindow(s.jobs, job));
    if Lookup(s, id) == Some(p) then
      var r := Recorded(job, inlined);
      var h := s.handles[p];
      WithHandle(left, p, h.(jobHandle := r, lastJob := r, pendingDispatches := h.pendingDispatches - 1))
    else left
  }

  function BeginChainSection(s: State, t: ThreadId, id: Id): State {
    match LookupOpen(s, id)
    case None => s
    case Some(f) =>
      var h := s.handles[f];
      if h.op.FileOpen?
      then WithActivity(Raised(s, f), t, Chaining(f, id, h.mount, h.lastJob, None, None, false))
      else s
  }

  // The file handle gets the chained job as its last one, unless the chain was refused or never made;
  // the operation's own handle is published in the same section.
  function EndChainSection(s: State, t: ThreadId, a: Activity): State
    requires a.Chaining?
    requires a.op.Some? ==> a.op.value in s.handles
  {
    var left := WithoutActivity(s, t).(jobs := LeaveWindow(s.jobs, a.job));
    var r := Recorded(a.job, a.inlined);
    var lowered := match Lookup(s, a.id)
      case None => left
      case Some(f) =>
        var h := s.handles[f];
        WithHandle(left, f, h.(lastJob := if a.job.Some? then r else h.lastJob,
                               pendingDispatches := h.pendingDispatches - 1));
    match a.op
    case None => lowered
    case Some(p) =>
      var h := lowered.handles[p].(jobHandle := r, lastJob := r);
      WithHandle(lowered, p, h).(handleMap := s.handleMap[h.id := p])
  }

  function ClosedAmong(handles: map<Address, Handle>, some: set<Address>): set<Address> {
    set p | p in some && p in handles && handles[p].closed
  }

  function IdsOf(handles: map<Address, Handle>, some: set<Address>): set<Id> {
    set p | p in some && p in handles :: handles[p].id
  }

  // Free a set of handles; their release hooks are to be run after the lock is let go.
  function FreeAll(s: State, some: set<Address>): State {
    s.(handles := s.handles - some,
       handleMap := s.handleMap - IdsOf(s.handles, some),
       closedCount := s.closedCount - |ClosedAmong(s.handles, some)|,
       freed := s.freed + some,
       owed := s.owed + some)
  }

  // The last section of vfs_close; the sweep and the wait before it are steps of their own.
  function CloseSection(s: State, id: Id, mainThread: bool): State {
    match LookupOpen(s, id)
    case None => s
    case Some(p) =>
      var h := s.handles[p];
      if Idle(s.jobs, h) then FreeAll(s, {p})
      else if !mainThread || BorrowsCallerMemory(h.op) then s
      else WithHandle(s, p, h.(closed := true)).(closedCount := s.closedCount + 1)
  }

  function Reclaimable(s: State): set<Address> {
    set id | id in s.handleMap && s.handleMap[id] in s.handles && s.handles[s.handleMap[id]].closed
             && Idle(s.jobs, s.handles[s.handleMap[id]]) :: s.handleMap[id]
  }

  function ReclaimSection(s: State): State {
    if s.closedCount == 0 then s else FreeAll(s, Reclaimable(s))
  }

  function IdsOnMount(s: State, mount: MountId): set<Id> {
    set id | id in s.handleMap && s.handleMap[id] in s.handles && s.handles[s.handleMap[id]].mount == mount
  }

  function MountSnapshotSection(s: State, t: ThreadId, mount: MountId): State {
    if mount in s.mounts && s.mounts[mount].Listed?
    then WithActivity(s, t, Closing(mount, IdsOnMount(s, mount), false)).(mounts := s.mounts[mount := Draining(t)])
    else s
  }

  predicate VictimsIdle(s: State, victims: set<Id>) {
    forall id :: id in victims && Lookup(s, id).Some? ==> Idle(s.jobs, s.handles[Lookup(s, id).value])
  }

  function Victims(s: State, victims: set<Id>): set<Address> {
    set id | id in victims && id in s.handleMap && s.handleMap[id] in s.handles :: s.handleMap[id]
  }

  function MountFreeSection(s: State, t: ThreadId, mount: MountId, victims: set<Id>): State {
    var left := WithoutActivity(FreeAll(s, Victims(s, victims)), t);
    left.(mounts := s.mounts - {mount})
  }

  // ---------------------------------------------------------------------------------------------
  // Runs
  // ---------------------------------------------------------------------------------------------

  predicate Unscheduled(a: Activity) {
    (a.Issuing? || a.Dispatching?) && a.job.None?
  }

  function WithJob(a: Activity, j: JobId): Activity
    requires Unscheduled(a)
  {
    match a
    case Issuing(h, _) => Issuing(h, Some(j))
    case Dispatching(h, id, _) => Dispatching(h, id, Some(j))
  }

  predicate JobDone(s: State, job: Option<JobId>) {
    job.Some? && Finished(s.jobs, job.value)
  }

  // The program order of each thread, and what the job system allows.
  predicate Possible(s: State, step: Step) {
    match step
    case NewMount(m) => m !in s.mounts
    case BeginIssue(t, op, _, _) => t !in s.threads && !BorrowsCallerMemory(op)
    case Schedule(t, after) => t in s.threads && Unscheduled(s.threads[t]) && after < |s.jobs|
    case Publish(t, inlined) =>
      t in s.threads && s.threads[t].Issuing? && s.threads[t].handle in s.handles
      && (s.threads[t].job.None? ==> s.handles[s.threads[t].handle].op.ReadAll?)
      && (inlined ==> JobDone(s, s.threads[t].job))
    case BeginDispatch(t, _) => t !in s.threads
    case EndDispatch(t, inlined) =>
      t in s.threads && s.threads[t].Dispatching? && s.threads[t].job.Some?
      && (inlined ==> JobDone(s, s.threads[t].job))
    case BeginChain(t, _) => t !in s.threads
    case ChainAllocate(t, op) =>
      t in s.threads && s.threads[t].Chaining? && s.threads[t].op.None? && BorrowsCallerMemory(op)
    case ChainSchedule(t, inlined) =>
      t in s.threads && s.threads[t].Chaining? && s.threads[t].op.Some? && s.threads[t].job.None?
      && (inlined ==> Finished(s.jobs, s.threads[t].chainAfter))
    case EndChain(t) =>
      t in s.threads && s.threads[t].Chaining?
      && (s.threads[t].op.Some? ==> s.threads[t].op.value in s.handles)
      && (s.threads[t].inlined ==> JobDone(s, s.threads[t].job))
    case Close(_, _) => true
    case Reclaim => true
    case Finish(j) => j < |s.jobs| && !s.jobs[j].finished && Finished(s.jobs, s.jobs[j].after)
    case Release(p) => p in s.owed
    case MountSnapshot(t, _) => t !in s.threads
    case MountRefresh(t) => t in s.threads && s.threads[t].Closing? && !s.threads[t].drained
    case MountFree(t) => t in s.threads && s.threads[t].Closing? && s.threads[t].drained
  }

  function Apply(s: State, step: Step): State
    requires Possible(s, step)
  {
    match step
    case NewMount(m) => s.(mounts := s.mounts[m := Listed])
    case BeginIssue(t, op, mount, reuse) => BeginIssueSection(s, t, op, mount, reuse)
    case Schedule(t, after) =>
      var a := s.threads[t];
      WithActivity(s, t, WithJob(a, |s.jobs|))
        .(jobs := s.jobs + [Job(a.handle, None, after, false, Some(t))])
    case Publish(t, inlined) => PublishSection(s, t, s.threads[t].handle, s.threads[t].job, inlined)
    case BeginDispatch(t, id) => BeginDispatchSection(s, t, id)
    case EndDispatch(t, inlined) =>
      EndDispatchSection(s, t, s.threads[t].handle, s.threads[t].id, s.threads[t].job, inlined)
    case BeginChain(t, id) => BeginChainSection(s, t, id)
    case ChainAllocate(t, op) =>
      var a := s.threads[t];
      WithActivity(Allocate(s, op, a.mount, 0), t, a.(op := Some(s.nextAddress)))
    case ChainSchedule(t, inlined) =>
      var a := s.threads[t];
      WithActivity(s, t, a.(job := Some(|s.jobs|), inlined := inlined))
        .(jobs := s.jobs + [Job(a.op.value, Some(a.file), a.chainAfter, false, Some(t))])
    case EndChain(t) => EndChainSection(s, t, s.threads[t])
    case Close(id, mainThread) => CloseSection(s, id, mainThread)
    case Reclaim => ReclaimSection(s)
    case Finish(j) => s.(jobs := s.jobs[j := s.jobs[j].(finished := true)])
    case Release(p) => s.(owed := s.owed - {p}, released := s.released + multiset{p})
    case MountSnapshot(t, mount) => MountSnapshotSection(s, t, mount)
    case MountRefresh(t) =>
      var a := s.threads[t];
      WithActivity(s, t, a.(drained := VictimsIdle(s, a.victims)))
    case MountFree(t) => MountFreeSection(s, t, s.threads[t].mount, s.threads[t].victims)
  }

  predicate OnListedMount(s: State, p: Address) {
    p in s.handles && s.handles[p].mount in s.mounts && s.mounts[s.handles[p].mount].Listed?
  }

  // The id was issued earlier, and no other allocation that is under way has it.
  predicate IsFree(s: State, id: Id) {
    id < s.nextHandleId && forall p :: p in s.handles && s.handles[p].id == id ==> IsPublished(s, p)
  }

  // Every victim that is still in the map is on the mount: no victim's id has been given to a handle of
  // another mount (VfsReuse says exactly when that is so).
  predicate OwnVictims(s: State, t: ThreadId)
    requires t in s.threads && s.threads[t].Closing?
  {
    forall id :: id in s.threads[t].victims && Lookup(s, id).Some? ==>
      s.handles[Lookup(s, id).value].mount == s.threads[t].mount
  }

  // What callers owe the program: ids are reused one allocation at a time; while a mount is being closed
  // nothing is issued, dispatched or chained on it; and when it ends, no victim's id is in use elsewhere.
  predicate Orderly(s: State, step: Step)
    requires Possible(s, step)
  {
    match step
    case BeginIssue(_, _, mount, reuse) =>
      mount in s.mounts && s.mounts[mount].Listed? && (reuse != 0 ==> IsFree(s, reuse))
    case BeginDispatch(_, id) => LookupOpen(s, id).Some? ==> OnListedMount(s, LookupOpen(s, id).value)
    case BeginChain(_, id) => LookupOpen(s, id).Some? ==> OnListedMount(s, LookupOpen(s, id).value)
    case MountSnapshot(_, mount) =>
      (forall p :: p in s.handles && s.handles[p].mount == mount ==> IsPublished(s, p))
      && (forall t :: t in s.threads && s.threads[t].Chaining? ==> s.threads[t].mount != mount)
    case MountFree(t) => OwnVictims(s, t)
    case _ => true
  }

  predicate HasNoJob(s: State, p: Address) {
    forall j :: 0 < j < |s.jobs| ==> s.jobs[j].handle != p
  }

  // What they owe it for the jobs: only a prepared handle is dispatched, and only once.
  predicate PreparedOnce(s: State, step: Step) {
    step.BeginDispatch? && LookupOpen(s, step.id).Some? ==>
      var h := s.handles[LookupOpen(s, step.id).value];
      h.op.ReadAll? && h.pendingDispatches == 0 && HasNoJob(s, LookupOpen(s, step.id).value)
  }

  // And for the jobs chained onto a file handle: a chain that ends records its job over the one it was
  // chained after, or over one that has finished.
  predicate InTurn(s: State, step: Step)
    requires Possible(s, step)
  {
    step.EndChain? ==>
      var a := s.threads[step.t];
      a.job.Some? && Lookup(s, a.id).Some? ==>
        var last := s.handles[Lookup(s, a.id).value].lastJob;
        last == a.chainAfter || Finished(s.jobs, last)
  }

  // How far the callers of a run are relied on.
  datatype Care = Loose | DispatchOnce | ChainInTurn

  predicate Allowed(s: State, step: Step, care: Care) {
    && Possible(s, step) && Orderly(s, step)
    && (!care.Loose? ==> PreparedOnce(s, step))
    && (care.ChainInTurn? ==> InTurn(s, step))
  }

  // A run is the list of its steps.
  predicate IsRun(s: State, steps: seq<Step>, care: Care)
    decreases |steps|
  {
    steps == [] || (Allowed(s, steps[0], care) && IsRun(Apply(s, steps[0]), steps[1..], care))
  }

  function After(s: State, steps: seq<Step>, care: Care): State
    requires IsRun(s, steps, care)
    decreases |steps|
  {
    if steps == [] then s else After(Apply(s, steps[0]), steps[1..], care)
  }
}
