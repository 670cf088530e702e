// The main promise of the handle protocol (src/vfs/vfs.c): while a job runs, the handle it works on and
// the file handle it is chained onto stay alive.  `Linked` is what holds when a prepared handle is
// dispatched only once; `Kept`, that the file handle is alive too, takes chains that end in turn.

module VfsJobs {

  import opened VfsState
  import opened VfsSound
  import opened Wrappers

  // None of the jobs from `a` down its chain of dependencies to j has finished.
  ghost predicate Reaches(jobs: seq<Job>, a: JobId, j: JobId) {
    && 0 < a < |jobs| && !jobs[a].finished
    && (a == j || (jobs[a].after < a && Reaches(jobs, jobs[a].after, j)))
  }

  ghost predicate WorksOn(a: Activity, j: JobId, job: Job) {
    match a
    case Issuing(p, mine) => mine == Some(j) && job.handle == p && job.file.None?
    case Dispatching(p, _, mine) => mine == Some(j) && job.handle == p && job.file.None?
    case Chaining(f, _, _, chainAfter, op, mine, _) =>
      mine == Some(j) && op == Some(job.handle) && job.file == Some(f) && job.after == chainAfter
    case Closing(_, _, _) => false
  }

  // A job that is chained onto a file handle is younger than the job that opened the file.
  ghost predicate OpenedBefore(s: State, f: Address, j: JobId) {
    && f < s.nextAddress
    && (f in s.handles ==> IsPublished(s, f) && s.handles[f].op.FileOpen? && s.handles[f].jobHandle < j)
  }

  // A job whose window has closed can be found from its own handle.
  ghost predicate JobOk(s: State, j: JobId)
    requires j < |s.jobs|
  {
    var job := s.jobs[j];
    && (job.finished ==> Finished(s.jobs, job.after))
    && (job.window.Some? ==> job.window.value in s.threads && WorksOn(s.threads[job.window.value], j, job))
    && (job.window.None? && !job.finished ==> IsPublished(s, job.handle) && s.handles[job.handle].jobHandle == j)
    && (job.file.Some? ==> OpenedBefore(s, job.file.value, j))
  }

  ghost predicate OneJobEach(jobs: seq<Job>) {
    forall i, j :: 0 < i < |jobs| && 0 < j < |jobs| && i != j ==> jobs[i].handle != jobs[j].handle
  }

  function WorkedOn(a: Activity): Option<Address> {
    match a
    case Issuing(p, _) => Some(p)
    case Dispatching(p, _, _) => Some(p)
    case Chaining(_, _, _, _, op, _, _) => op
    case Closing(_, _, _) => None
  }

  function JobOf(a: Activity): Option<JobId> {
    if a.Closing? then None else a.job
  }

  ghost predicate ActivityOk(s: State, t: ThreadId)
    requires t in s.threads
  {
    var a := s.threads[t];
    && (a.Dispatching? ==> a.handle in s.handles && s.handles[a.handle].op.ReadAll?)
    && (a.Chaining? ==> a.file in s.handles && s.handles[a.file].op.FileOpen?)
    && (a.Chaining? && a.inlined ==> a.job.Some? && Finished(s.jobs, a.chainAfter))
    && (JobOf(a).None? && WorkedOn(a).Some? ==> HasNoJob(s, WorkedOn(a).value))
    && (JobOf(a).Some? ==>
          && JobOf(a).value < |s.jobs| && s.jobs[JobOf(a).value].window == Some(t)
          && WorksOn(a, JobOf(a).value, s.jobs[JobOf(a).value]))
  }

  function Target(a: Activity): Option<Address> {
    match a
    case Dispatching(p, _, _) => Some(p)
    case Chaining(f, _, _, _, _, _, _) => Some(f)
    case _ => None
  }

  // No two threads dispatch the same handle.
  ghost predicate OneDispatchEach(threads: map<ThreadId, Activity>) {
    forall t, u :: t in threads && u in threads && t != u && threads[t].Dispatching? && threads[u].Dispatching? ==>
      threads[t].handle != threads[u].handle
  }

  ghost predicate Linked(s: State) {
    && (forall j :: 0 < j < |s.jobs| ==> JobOk(s, j))
    && (forall t :: t in s.threads ==> ActivityOk(s, t))
    && OneJobEach(s.jobs)
    && OneDispatchEach(s.threads)
  }

  // A job that was chained onto a file handle can be found from it, once its window has closed.
  ghost predicate FileOk(s: State, j: JobId)
    requires j < |s.jobs|
  {
    var job := s.jobs[j];
    job.window.None? && !job.finished && job.file.Some? ==>
      && IsPublished(s, job.file.value)
      && Reaches(s.jobs, s.handles[job.file.value].lastJob, j)
  }

  ghost predicate Kept(s: State) {
    forall j :: 0 < j < |s.jobs| ==> FileOk(s, j)
  }

  // -------------------------------------------------------------------------------------------
  // Chains of dependencies
  // -------------------------------------------------------------------------------------------

  lemma {:induction false} ReachesAlike(jobs: seq<Job>, jobs': seq<Job>, a: JobId, j: JobId)
    requires Reaches(jobs, a, j) && |jobs| <= |jobs'|
    requires forall i :: 0 < i < |jobs| ==> jobs'[i].after == jobs[i].after && jobs'[i].finished == jobs[i].finished
    ensures Reaches(jobs', a, j)
  {
    if a != j { ReachesAlike(jobs, jobs', jobs[a].after, j); }
  }

  // A job can only finish when what it waits for has, so that it never leaves a chain from the middle.
  lemma {:induction false} FinishKeepsReach(jobs: seq<Job>, a: JobId, j: JobId, done: JobId)
    requires Reaches(jobs, a, j) && done < |jobs| && done != j && Finished(jobs, jobs[done].after)
    ensures Reaches(jobs[done := jobs[done].(finished := true)], a, j)
  {
    if a != j { FinishKeepsReach(jobs, jobs[a].after, j, done); }
  }

  // -------------------------------------------------------------------------------------------
  // Steps
  // -------------------------------------------------------------------------------------------

  // Handles that are published stay so and keep their recorded job; new ones have new addresses.
  ghost predicate RecordKept(s: State, s': State, p: Address) {
    && (IsPublished(s, p) ==>
          && IsPublished(s', p) && s'.handles[p].op == s.handles[p].op
          && s'.handles[p].jobHandle == s.handles[p].jobHandle)
    && (p in s'.handles ==> p in s.handles || s.nextAddress <= p)
  }

  lemma OpenedBeforeKept(s: State, s': State, f: Address, j: JobId)
    requires OpenedBefore(s, f, j) && RecordKept(s, s', f) && s.nextAddress <= s'.nextAddress
    ensures OpenedBefore(s', f, j)
  {
  }

  lemma SameTables(s: State, s': State, f: Address, j: JobId)
    requires s'.handles == s.handles && s'.handleMap == s.handleMap && s'.nextAddress == s.nextAddress
    requires OpenedBefore(s, f, j)
    ensures OpenedBefore(s', f, j)
  {
  }

  lemma SoundJobs(s: State)
    requires Sound(s)
    ensures JobsOk(s.jobs, s.nextAddress)
  {
  }

  lemma PublishedIsThere(s: State, p: Address)
    requires IsPublished(s, p)
    ensures p in s.handles
  {
  }

  lemma TargetIsPublished(s: State, u: ThreadId)
    requires Sound(s) && u in s.threads
    ensures Target(s.threads[u]).Some? ==> IsPublished(s, Target(s.threads[u]).value)
  {
    assert ThreadOk(s, u);
  }

  // A job keeps all there is to it when its thread keeps the work and its handles keep their records.
  lemma QuietJob(s: State, s': State, j: JobId)
    requires j < |s.jobs| && s'.jobs == s.jobs && JobOk(s, j) && s.nextAddress <= s'.nextAddress
    requires RecordKept(s, s', s.jobs[j].handle)
    requires s.jobs[j].file.Some? ==> RecordKept(s, s', s.jobs[j].file.value)
    requires forall u :: u in s.threads ==>
      (u in s'.threads && s'.threads[u] == s.threads[u]) || JobOf(s.threads[u]).None?
    ensures JobOk(s', j)
  {
    if s.jobs[j].file.Some? { OpenedBeforeKept(s, s', s.jobs[j].file.value, j); }
  }

  // Threads take up work that has no job yet, go on with it, or end it; recorded jobs stay on record.
  lemma QuietStep(s: State, s': State)
    requires Sound(s) && Linked(s) && s'.jobs == s.jobs && s.nextAddress <= s'.nextAddress
    requires forall p :: RecordKept(s, s', p)
    requires forall u :: u in s.threads ==>
      (u in s'.threads && s'.threads[u] == s.threads[u]) || JobOf(s.threads[u]).None?
    requires forall u :: u in s'.threads ==>
      (u in s.threads && s'.threads[u] == s.threads[u]) || (JobOf(s'.threads[u]).None? && ActivityOk(s', u))
    requires OneDispatchEach(s'.threads)
    ensures Linked(s')
  {
    hide Sound, JobOk;
    forall j | 0 < j < |s.jobs| ensures JobOk(s', j) {
      QuietJob(s, s', j);
    }
    forall u | u in s'.threads && u in s.threads && s'.threads[u] == s.threads[u] ensures ActivityOk(s', u) {
      assert ActivityOk(s, u);
      TargetIsPublished(s, u);
      if Target(s.threads[u]).Some? {
        assert RecordKept(s, s', Target(s.threads[u]).value);
        PublishedIsThere(s', Target(s.threads[u]).value);
      }
    }
  }

  lemma NewJobKeepsJob(s: State, s': State, j: JobId)
    requires 0 < j < |s.jobs| <= |s'.jobs| && JobOk(s, j) && s'.jobs[..|s.jobs|] == s.jobs
    requires s' == s.(jobs := s'.jobs, threads := s'.threads) && s.jobs[j].after < |s.jobs|
    requires forall u :: u in s.threads && WorksOn(s.threads[u], j, s.jobs[j]) ==>
      u in s'.threads && WorksOn(s'.threads[u], j, s.jobs[j])
    ensures JobOk(s', j)
  {
    forall i | 0 < i < |s.jobs| ensures s'.jobs[i] == s.jobs[i] {
      assert s'.jobs[..|s.jobs|][i] == s'.jobs[i];
    }
    if s.jobs[j].file.Some? { SameTables(s, s', s.jobs[j].file.value, j); }
  }

  lemma WorkDiffers(s: State, t: ThreadId, u: ThreadId)
    requires Sound(s) && OneDispatchEach(s.threads) && t in s.threads && u in s.threads && t != u
    requires WorkedOn(s.threads[t]).Some?
    ensures WorkedOn(s.threads[t]) != WorkedOn(s.threads[u])
  {
    assert ThreadOk(s, t) && ThreadOk(s, u);
  }

  lemma NewJobStep(s: State, t: ThreadId, a: Activity, job: Job)
    requires Sound(s) && Linked(s) && t in s.threads
    requires JobOf(s.threads[t]).None? && WorkedOn(s.threads[t]) == Some(job.handle)
    requires Target(a) == Target(s.threads[t]) && (a.Dispatching? <==> s.threads[t].Dispatching?)
    requires a.Dispatching? ==> a.handle == s.threads[t].handle
    requires !job.finished && job.window == Some(t) && WorksOn(a, |s.jobs|, job)
    requires job.file.Some? ==> OpenedBefore(s, job.file.value, |s.jobs|)
    requires a.Chaining? ==> s.threads[t].Chaining?
    requires a.Chaining? && a.inlined ==> a.chainAfter < |s.jobs| && Finished(s.jobs, a.chainAfter)
    ensures Linked(s.(jobs := s.jobs + [job], threads := s.threads[t := a]))
  {
    hide Sound, IsPublished;
    var s' := s.(jobs := s.jobs + [job], threads := s.threads[t := a]);
    assert ActivityOk(s, t);
    forall j | 0 < j < |s.jobs| ensures JobOk(s', j) {
      assert s.jobs[j].after < j by { SoundJobs(s); }
      NewJobKeepsJob(s, s', j);
    }
    assert JobOk(s', |s.jobs|) by {
      if job.file.Some? { SameTables(s, s', job.file.value, |s.jobs|); }
    }
    forall u | u in s'.threads && u != t ensures ActivityOk(s', u) {
      assert ActivityOk(s, u);
      WorkDiffers(s, t, u);
      if s.threads[u].Chaining? { ChainFacts(s, u); }
    }
    assert ActivityOk(s', t);
  }

  lemma FinishStep(s: State, j: JobId)
    requires Sound(s) && Linked(s) && Possible(s, Finish(j))
    ensures Linked(s.(jobs := s.jobs[j := s.jobs[j].(finished := true)]))
  {
    var s' := s.(jobs := s.jobs[j := s.jobs[j].(finished := true)]);
    hide Sound, JobOk, ActivityOk;
    forall i | 0 < i < |s.jobs| ensures JobOk(s', i) { FinishKeepsJob(s, j, i); }
    forall u | u in s.threads ensures ActivityOk(s', u) { FinishKeepsActivity(s, j, u); }
  }

  lemma FinishKeepsJob(s: State, j: JobId, i: JobId)
    requires 0 < i < |s.jobs| && JobOk(s, i) && Possible(s, Finish(j))
    ensures JobOk(s.(jobs := s.jobs[j := s.jobs[j].(finished := true)]), i)
  {
    hide OpenedBefore;
    if s.jobs[i].file.Some? {
      SameTables(s, s.(jobs := s.jobs[j := s.jobs[j].(finished := true)]), s.jobs[i].file.value, i);
    }
  }

  lemma FinishKeepsActivity(s: State, j: JobId, u: ThreadId)
    requires j < |s.jobs| && u in s.threads && ActivityOk(s, u)
    ensures ActivityOk(s.(jobs := s.jobs[j := s.jobs[j].(finished := true)]), u)
  {
  }

  lemma FreeKeepsJob(s: State, some: set<Address>, j: JobId)
    requires Sound(s) && 0 < j < |s.jobs| && JobOk(s, j)
    requires forall p :: p in some ==> MayBeFreed(s, p) && Idle(s.jobs, s.handles[p])
    ensures JobOk(FreeAll(s, some), j)
  {
    FreeKeepsHandles(s, some);
    hide Sound, MayBeFreed;
    if s.jobs[j].file.Some? { assert OpenedBefore(FreeAll(s, some), s.jobs[j].file.value, j); }
  }

  // Freeing idle handles takes nothing from an unfinished job.
  lemma FreeStep(s: State, some: set<Address>)
    requires Sound(s) && Linked(s)
    requires forall p :: p in some ==> MayBeFreed(s, p) && Idle(s.jobs, s.handles[p])
    ensures Linked(FreeAll(s, some))
  {
    var s' := FreeAll(s, some);
    hide JobOk;
    forall j | 0 < j < |s.jobs| ensures JobOk(s', j) {
      FreeKeepsJob(s, some, j);
    }
    forall u | u in s.threads ensures ActivityOk(s', u) {
      assert ActivityOk(s, u) && ThreadOk(s, u);
      if Target(s.threads[u]).Some? { WindowCounts(s, u, Target(s.threads[u]).value); }
    }
  }

  // When a thread's window closes, its own job must be on record, and the others must stay there.
  ghost predicate OnRecord(s: State, p: Address, j: JobId) {
    IsPublished(s, p) && s.handles[p].jobHandle == j
  }

  lemma LeaveWindowKeepsJob(s: State, s': State, t: ThreadId, j: JobId)
    requires 0 < j < |s.jobs| && JobOk(s, j) && t in s.threads && ActivityOk(s, t)
    requires s'.jobs == LeaveWindow(s.jobs, JobOf(s.threads[t])) && s'.threads == s.threads - {t}
    requires s.jobs[j].file.Some? ==> OpenedBefore(s', s.jobs[j].file.value, j)
    requires !s.jobs[j].finished && (JobOf(s.threads[t]) == Some(j) || s.jobs[j].window.None?) ==>
      OnRecord(s', s.jobs[j].handle, j)
    ensures JobOk(s', j)
  {
  }

  ghost predicate TargetKept(s: State, s': State, u: ThreadId)
    requires u in s.threads
  {
    Target(s.threads[u]).Some? ==>
      var p := Target(s.threads[u]).value;
      p in s.handles && p in s'.handles && s'.handles[p].op == s.handles[p].op
  }

  lemma LeaveWindowKeepsActivity(s: State, s': State, t: ThreadId, u: ThreadId)
    requires t in s.threads && u in s.threads && u != t && ActivityOk(s, t) && ActivityOk(s, u)
    requires s'.jobs == LeaveWindow(s.jobs, JobOf(s.threads[t]))
    requires u in s'.threads && s'.threads[u] == s.threads[u]
    requires TargetKept(s, s', u)
    ensures ActivityOk(s', u)
  {
  }

  lemma PublishRecords(s: State, t: ThreadId, inlined: bool, p: Address)
    requires Sound(s) && Possible(s, Publish(t, inlined))
    ensures var s' := PublishSection(s, t, s.threads[t].handle, s.threads[t].job, inlined);
      && RecordKept(s, s', p) && s'.nextAddress == s.nextAddress
      && OnRecord(s', s.threads[t].handle, Recorded(s.threads[t].job, inlined))
  {
    assert ThreadOk(s, t);
  }

  // A handle that is published gets its one job on record.
  lemma PublishKeepsJob(s: State, t: ThreadId, inlined: bool, j: JobId)
    requires Sound(s) && 0 < j < |s.jobs| && JobOk(s, j) && t in s.threads && ActivityOk(s, t)
    requires Possible(s, Publish(t, inlined))
    ensures JobOk(PublishSection(s, t, s.threads[t].handle, s.threads[t].job, inlined), j)
  {
    hide Sound, RecordKept;
    var a := s.threads[t];
    var s' := PublishSection(s, t, a.handle, a.job, inlined);
    var job := s.jobs[j];
    PublishRecords(s, t, inlined, job.handle);
    if job.file.Some? {
      PublishRecords(s, t, inlined, job.file.value);
      OpenedBeforeKept(s, s', job.file.value, j);
    }
    assert !job.finished && (a.job == Some(j) || job.window.None?) ==> OnRecord(s', job.handle, j) by {
      RecordedStays(s, s', job.handle, j);
    }
    LeaveWindowKeepsJob(s, s', t, j);
  }

  lemma RecordedStays(s: State, s': State, p: Address, j: JobId)
    requires RecordKept(s, s', p)
    ensures OnRecord(s, p, j) ==> OnRecord(s', p, j)
  {
  }

  lemma PublishStep(s: State, t: ThreadId, inlined: bool)
    requires Sound(s) && Linked(s) && Possible(s, Publish(t, inlined))
    ensures Linked(PublishSection(s, t, s.threads[t].handle, s.threads[t].job, inlined))
  {
    var a := s.threads[t];
    var s' := PublishSection(s, t, a.handle, a.job, inlined);
    hide JobOk;
    forall j | 0 < j < |s.jobs| ensures JobOk(s', j) {
      PublishKeepsJob(s, t, inlined, j);
    }
    assert ActivityOk(s, t) && ThreadOk(s, t);
    forall u | u in s'.threads ensures ActivityOk(s', u) {
      assert ActivityOk(s, u) && ThreadOk(s, u);
      LeaveWindowKeepsActivity(s, s', t, u);
    }
  }

  lemma EndDispatchRecords(s: State, t: ThreadId, inlined: bool, p: Address)
    requires Sound(s) && Possible(s, EndDispatch(t, inlined))
    ensures var a := s.threads[t];
      var s' := EndDispatchSection(s, t, a.handle, a.id, a.job, inlined);
      && (p != a.handle ==> RecordKept(s, s', p)) && s'.nextAddress == s.nextAddress
      && OnRecord(s', a.handle, Recorded(a.job, inlined))
      && a.handle in s.handles && s'.handles[a.handle].op == s.handles[a.handle].op
  {
    assert ThreadOk(s, t);
  }

  lemma EndDispatchKeepsJob(s: State, t: ThreadId, inlined: bool, j: JobId)
    requires Sound(s) && 0 < j < |s.jobs| && JobOk(s, j) && t in s.threads && ActivityOk(s, t) && OneJobEach(s.jobs)
    requires Possible(s, EndDispatch(t, inlined))
    ensures var a := s.threads[t]; JobOk(EndDispatchSection(s, t, a.handle, a.id, a.job, inlined), j)
  {
    var a := s.threads[t];
    var s' := EndDispatchSection(s, t, a.handle, a.id, a.job, inlined);
    var job := s.jobs[j];
    assert 0 < a.job.value by { assert ThreadOk(s, t); }
    hide Sound, RecordKept, IsPublished;
    EndDispatchRecords(s, t, inlined, job.handle);
    if job.file.Some? {
      EndDispatchRecords(s, t, inlined, job.file.value);
      OpenedBeforeKept(s, s', job.file.value, j);
    }
    assert !job.finished && (a.job == Some(j) || job.window.None?) ==> OnRecord(s', job.handle, j) by {
      if job.handle != a.handle { RecordedStays(s, s', job.handle, j); }
    }
    LeaveWindowKeepsJob(s, s', t, j);
  }

  lemma EndDispatchLeaves(s: State, t: ThreadId, inlined: bool)
    requires Possible(s, EndDispatch(t, inlined))
    ensures var a := s.threads[t];
      var s' := EndDispatchSection(s, t, a.handle, a.id, a.job, inlined);
      s'.jobs == LeaveWindow(s.jobs, a.job) && s'.threads == s.threads - {t} && |s'.jobs| == |s.jobs|
      && forall i :: 0 <= i < |s.jobs| ==> s'.jobs[i].handle == s.jobs[i].handle
  {
  }

  lemma LeftLinked(s: State, s': State, t: ThreadId)
    requires Linked(s) && s'.threads == s.threads - {t} && |s'.jobs| == |s.jobs|
    requires forall i :: 0 <= i < |s.jobs| ==> s'.jobs[i].handle == s.jobs[i].handle
    requires forall j :: 0 < j < |s'.jobs| ==> JobOk(s', j)
    requires forall u :: u in s'.threads ==> ActivityOk(s', u)
    ensures Linked(s')
  {
    hide JobOk, ActivityOk;
  }

  lemma EndDispatchStep(s: State, t: ThreadId, inlined: bool)
    requires Sound(s) && Linked(s) && Possible(s, EndDispatch(t, inlined))
    ensures var a := s.threads[t]; Linked(EndDispatchSection(s, t, a.handle, a.id, a.job, inlined))
  {
    var a := s.threads[t];
    var s' := EndDispatchSection(s, t, a.handle, a.id, a.job, inlined);
    assert forall u :: u in s.threads ==> ActivityOk(s, u);
    assert forall j :: 0 < j < |s.jobs| ==> JobOk(s, j);
    assert OneJobEach(s.jobs);
    hide Sound, Linked, JobOk, ActivityOk, OneJobEach;
    EndDispatchLeaves(s, t, inlined);
    hide EndDispatchSection, LeaveWindow;
    forall j | 0 < j < |s.jobs| ensures JobOk(s', j) {
      EndDispatchKeepsJob(s, t, inlined, j);
    }
    hide RecordKept;
    forall u | u in s'.threads ensures ActivityOk(s', u) {
      EndDispatchKeepsTarget(s, t, inlined, u);
      LeaveWindowKeepsActivity(s, s', t, u);
    }
    LeftLinked(s, s', t);
  }

  lemma EndDispatchKeepsTarget(s: State, t: ThreadId, inlined: bool, u: ThreadId)
    requires Sound(s) && Possible(s, EndDispatch(t, inlined)) && u in s.threads
    ensures var a := s.threads[t]; TargetKept(s, EndDispatchSection(s, t, a.handle, a.id, a.job, inlined), u)
  {
    TargetIsPublished(s, u);
    if Target(s.threads[u]).Some? { EndDispatchRecords(s, t, inlined, Target(s.threads[u]).value); }
  }


  lemma EndChainRecords(s: State, t: ThreadId, p: Address)
    requires Sound(s) && Possible(s, EndChain(t))
    ensures var a := s.threads[t];
      var s' := EndChainSection(s, t, a);
      && RecordKept(s, s', p) && s'.nextAddress == s.nextAddress
      && (IsPublished(s, p) && p != a.file ==> s'.handles[p] == s.handles[p])
  {
    assert ThreadOk(s, t);
  }

  lemma EndChainResult(s: State, t: ThreadId)
    requires Sound(s) && Possible(s, EndChain(t))
    ensures var a := s.threads[t];
      var s' := EndChainSection(s, t, a);
      && (a.op.Some? ==> OnRecord(s', a.op.value, Recorded(a.job, a.inlined)))
      && IsPublished(s', a.file) && a.file in s.handles
      && s'.handles[a.file] == FileAfter(s.handles[a.file], a.job, a.inlined)
  {
    assert ThreadOk(s, t);
  }

  lemma EndChainLeaves(s: State, t: ThreadId)
    requires Possible(s, EndChain(t))
    ensures var a := s.threads[t];
      var s' := EndChainSection(s, t, a);
      s'.jobs == LeaveWindow(s.jobs, a.job) && s'.threads == s.threads - {t} && |s'.jobs| == |s.jobs|
      && forall i :: 0 <= i < |s.jobs| ==> s'.jobs[i].handle == s.jobs[i].handle
  {
  }

  lemma EndChainKeepsJob(s: State, t: ThreadId, j: JobId)
    requires Sound(s) && 0 < j < |s.jobs| && JobOk(s, j) && t in s.threads && ActivityOk(s, t)
    requires Possible(s, EndChain(t))
    ensures JobOk(EndChainSection(s, t, s.threads[t]), j)
  {
    hide Sound, IsPublished, EndChainSection, LeaveWindow, RecordKept;
    var a := s.threads[t];
    var s' := EndChainSection(s, t, a);
    var job := s.jobs[j];
    EndChainRecords(s, t, job.handle);
    if job.file.Some? {
      EndChainRecords(s, t, job.file.value);
      OpenedBeforeKept(s, s', job.file.value, j);
    }
    assert !job.finished && (a.job == Some(j) || job.window.None?) ==> OnRecord(s', job.handle, j) by {
      EndChainResult(s, t);
      RecordedStays(s, s', job.handle, j);
    }
    EndChainLeaves(s, t);
    LeaveWindowKeepsJob(s, s', t, j);
  }

  lemma EndChainStep(s: State, t: ThreadId)
    requires Sound(s) && Linked(s) && Possible(s, EndChain(t))
    ensures Linked(EndChainSection(s, t, s.threads[t]))
  {
    var a := s.threads[t];
    var s' := EndChainSection(s, t, a);
    assert forall u :: u in s.threads ==> ActivityOk(s, u);
    assert forall j :: 0 < j < |s.jobs| ==> JobOk(s, j);
    assert OneJobEach(s.jobs);
    hide Sound, Linked, JobOk, ActivityOk, OneJobEach;
    EndChainLeaves(s, t);
    hide EndChainSection, LeaveWindow;
    forall j | 0 < j < |s.jobs| ensures JobOk(s', j) {
      EndChainKeepsJob(s, t, j);
    }
    hide RecordKept;
    forall u | u in s'.threads ensures ActivityOk(s', u) {
      EndChainKeepsTarget(s, t, u);
      LeaveWindowKeepsActivity(s, s', t, u);
    }
    LeftLinked(s, s', t);
  }

  lemma EndChainKeepsTarget(s: State, t: ThreadId, u: ThreadId)
    requires Sound(s) && Possible(s, EndChain(t)) && u in s.threads
    ensures TargetKept(s, EndChainSection(s, t, s.threads[t]), u)
  {
    TargetIsPublished(s, u);
    if Target(s.threads[u]).Some? { EndChainRecords(s, t, Target(s.threads[u]).value); }
  }

  // Closing a mount is no concern of the jobs, until its handles go.
  lemma ClosersStep(s: State, s': State)
    requires Sound(s) && Linked(s) && s'.jobs == s.jobs && s'.handles == s.handles && s'.handleMap == s.handleMap
    requires s'.nextAddress == s.nextAddress
    requires forall u :: u in s.threads && !s.threads[u].Closing? ==> u in s'.threads && s'.threads[u] == s.threads[u]
    requires forall u :: u in s'.threads && !s'.threads[u].Closing? ==> u in s.threads && s'.threads[u] == s.threads[u]
    ensures Linked(s')
  {
    assert forall p :: RecordKept(s, s', p);
    assert OneDispatchEach(s'.threads);
    hide Sound, Linked, OneDispatchEach, RecordKept;
    QuietStep(s, s');
  }

  lemma AllocateRecords(s: State, op: Op, mount: MountId, reuse: Id, p: Address)
    requires Sound(s)
    ensures RecordKept(s, Allocate(s, op, mount, reuse), p)
  {
    if p in s.handles { assert HandleOk(s, p); }
  }

  lemma AllocateIsLinked(s: State, t: ThreadId, a: Activity, op: Op, mount: MountId, reuse: Id)
    requires Sound(s) && Linked(s)
    requires JobOf(a).None? && WorkedOn(a) == Some(s.nextAddress)
    requires t in s.threads ==>
      JobOf(s.threads[t]).None? && s.threads[t].Chaining? && a == s.threads[t].(op := Some(s.nextAddress))
    requires t !in s.threads ==> a.Issuing?
    ensures Linked(WithActivity(Allocate(s, op, mount, reuse), t, a))
  {
    var s' := WithActivity(Allocate(s, op, mount, reuse), t, a);
    forall p ensures RecordKept(s, s', p) { AllocateRecords(s, op, mount, reuse, p); }
    if t in s.threads { assert ActivityOk(s, t); assert HandleOk(s, a.file) by { assert ThreadOk(s, t); } }
    assert HasNoJob(s', s.nextAddress);
    assert ActivityOk(s', t);
    hide Sound, RecordKept;
    QuietStep(s, s');
  }

  // Only the thread that opens it has a window on the handle.
  lemma NoOtherWindow(s: State, p: Address)
    requires Sound(s) && p in s.handles && s.handles[p].pendingDispatches == 0
    ensures forall u :: u in s.threads ==> Target(s.threads[u]) != Some(p)
  {
    forall u | u in s.threads ensures Target(s.threads[u]) != Some(p) {
      if Target(s.threads[u]) == Some(p) { WindowCounts(s, u, p); }
    }
  }

  lemma OpenWindowIsLinked(s: State, t: ThreadId, p: Address, a: Activity)
    requires Sound(s) && Linked(s) && t !in s.threads && IsPublished(s, p)
    requires Target(a) == Some(p) && JobOf(a).None?
    requires (a.Dispatching? && s.handles[p].pendingDispatches == 0 && s.handles[p].op.ReadAll? && HasNoJob(s, p))
          || (a.Chaining? && a.op.None? && !a.inlined && s.handles[p].op.FileOpen?)
    ensures Linked(WithActivity(Raised(s, p), t, a))
  {
    var s' := WithActivity(Raised(s, p), t, a);
    assert OneDispatchEach(s'.threads) by { if a.Dispatching? { NoOtherWindow(s, p); } }
    hide Sound, OneDispatchEach;
    assert forall q :: RecordKept(s, s', q);
    assert ActivityOk(s', t);
    hide RecordKept, ActivityOk, Linked;
    QuietStep(s, s');
  }

  lemma CloseIsLinked(s: State, id: Id, mainThread: bool)
    requires Sound(s) && Linked(s)
    ensures Linked(CloseSection(s, id, mainThread))
  {
    OpenIsPublished(s, id);
    if LookupOpen(s, id).Some? {
      var p := LookupOpen(s, id).value;
      if Idle(s.jobs, s.handles[p]) {
        assert MayBeFreed(s, p);
        FreeStep(s, {p});
      } else {
        var s' := CloseSection(s, id, mainThread);
        assert forall q :: RecordKept(s, s', q);
        hide Sound;
        QuietStep(s, s');
      }
    }
  }

  lemma FreeKeepsFiles(s: State, some: set<Address>)
    requires Sound(s) && Kept(s)
    requires forall p :: p in some ==> MayBeFreed(s, p) && Idle(s.jobs, s.handles[p])
    ensures Kept(FreeAll(s, some))
  {
    FreeKeepsHandles(s, some);
    hide Sound, MayBeFreed;
    forall j | 0 < j < |s.jobs| ensures FileOk(FreeAll(s, some), j) {
      assert FileOk(s, j);
    }
  }

  lemma MountGone(s: State, t: ThreadId, mount: MountId)
    requires Sound(s) && Linked(s) && t in s.threads && s.threads[t].Closing?
    ensures Linked(WithoutActivity(s, t).(mounts := s.mounts - {mount}))
    ensures Kept(s) ==> Kept(WithoutActivity(s, t).(mounts := s.mounts - {mount}))
  {
    var s' := WithoutActivity(s, t).(mounts := s.mounts - {mount});
    hide Sound, Linked, Reaches;
    ClosersStep(s, s');
    if Kept(s) {
      forall j | 0 < j < |s.jobs| ensures FileOk(s', j) { assert FileOk(s, j); }
    }
  }

  lemma MountFreeIs(s: State, t: ThreadId)
    requires t in s.threads && s.threads[t].Closing?
    ensures var a := s.threads[t];
      var freed := FreeAll(s, Victims(s, a.victims));
      && MountFreeSection(s, t, a.mount, a.victims) == WithoutActivity(freed, t).(mounts := freed.mounts - {a.mount})
      && freed.threads == s.threads
  {
  }

  lemma MountFreeIsLinked(s: State, t: ThreadId)
    requires t in s.threads && s.threads[t].Closing? && s.threads[t].drained && OwnVictims(s, t)
    requires Sound(s) && Linked(s)
    ensures var s' := MountFreeSection(s, t, s.threads[t].mount, s.threads[t].victims);
      Linked(s') && (Kept(s) ==> Kept(s'))
  {
    var some := Victims(s, s.threads[t].victims);
    MountFreeIs(s, t);
    hide *;
    MountFreeIsSound(s, t);
    FreeIsSound(s, some);
    FreeStep(s, some);
    if Kept(s) { FreeKeepsFiles(s, some); }
    MountGone(FreeAll(s, some), t, s.threads[t].mount);
  }

  lemma ChainJobIsYounger(s: State, t: ThreadId)
    requires Sound(s) && Linked(s) && t in s.threads && s.threads[t].Chaining?
    ensures OpenedBefore(s, s.threads[t].file, |s.jobs|)
  {
    ChainFacts(s, t);
    assert ActivityOk(s, t) && HandleOk(s, s.threads[t].file);
  }

  lemma JobStepIsLinked(s: State, step: Step)
    requires Sound(s) && Linked(s) && Possible(s, step)
    requires step.Schedule? || step.ChainSchedule? || step.Finish?
    ensures Linked(Apply(s, step))
  {
    match step
    case Schedule(t, after) =>
      var a := s.threads[t];
      NewJobStep(s, t, WithJob(a, |s.jobs|), Job(a.handle, None, after, false, Some(t)));
    case ChainSchedule(t, inlined) =>
      var a := s.threads[t];
      ChainFacts(s, t);
      ChainJobIsYounger(s, t);
      NewJobStep(s, t, a.(job := Some(|s.jobs|), inlined := inlined),
                 Job(a.op.value, Some(a.file), a.chainAfter, false, Some(t)));
    case Finish(j) => FinishStep(s, j);
  }

  lemma OtherStepIsLinked(s: State, step: Step)
    requires Sound(s) && Linked(s) && Possible(s, step)
    requires step.NewMount? || step.Release? || step.MountSnapshot? || step.MountRefresh?
    ensures Linked(Apply(s, step))
  {
    hide Sound, Linked;
    match step
    case NewMount(_) => ClosersStep(s, Apply(s, step));
    case Release(_) => ClosersStep(s, Apply(s, step));
    case MountSnapshot(_, _) => ClosersStep(s, Apply(s, step));
    case MountRefresh(_) => ClosersStep(s, Apply(s, step));
  }

  lemma ChainWithoutOp(s: State, t: ThreadId)
    requires Sound(s) && t in s.threads && s.threads[t].Chaining? && s.threads[t].op.None?
    ensures s.threads[t].job.None?
  {
    assert ThreadOk(s, t);
  }

  lemma StepIsLinked(s: State, step: Step)
    requires Sound(s) && Linked(s) && Allowed(s, step, DispatchOnce)
    ensures Linked(Apply(s, step))
  {
    assert TableOk(s.handles, s.handleMap);
    hide Sound, Linked;
    match step
    case BeginIssue(t, op, mount, reuse) =>
      if reuse == 0 || reuse !in s.handleMap {
        AllocateIsLinked(s, t, Issuing(s.nextAddress, None), op, mount, reuse);
      }
    case ChainAllocate(t, op) =>
      var a := s.threads[t];
      assert a.job.None? by { ChainWithoutOp(s, t); }
      AllocateIsLinked(s, t, a.(op := Some(s.nextAddress)), op, a.mount, 0);
    case BeginDispatch(t, id) =>
      OpenIsPublished(s, id);
      if LookupOpen(s, id).Some? {
        OpenWindowIsLinked(s, t, LookupOpen(s, id).value, Dispatching(LookupOpen(s, id).value, id, None));
      }
    case BeginChain(t, id) =>
      OpenIsPublished(s, id);
      if LookupOpen(s, id).Some? && s.handles[LookupOpen(s, id).value].op.FileOpen? {
        var f := LookupOpen(s, id).value;
        OpenWindowIsLinked(s, t, f, Chaining(f, id, s.handles[f].mount, s.handles[f].lastJob, None, None, false));
      }
    case Publish(t, inlined) => PublishStep(s, t, inlined);
    case EndDispatch(t, inlined) => EndDispatchStep(s, t, inlined);
    case EndChain(t) => EndChainStep(s, t);
    case Close(id, mainThread) => CloseIsLinked(s, id, mainThread);
    case Reclaim =>
      ReclaimStepIsSound(s);
      if s.closedCount != 0 { FreeStep(s, Reclaimable(s)); }
    case MountFree(t) => MountFreeIsLinked(s, t);
    case Schedule(_, _) => JobStepIsLinked(s, step);
    case ChainSchedule(_, _) => JobStepIsLinked(s, step);
    case Finish(_) => JobStepIsLinked(s, step);
    case _ => OtherStepIsLinked(s, step);
  }

  // -------------------------------------------------------------------------------------------
  // Chained jobs
  // -------------------------------------------------------------------------------------------

  ghost predicate JobAlike(job: Job, job': Job) {
    && job'.after == job.after && job'.finished == job.finished && job'.file == job.file
    && (job'.file.Some? && job'.window.None? ==> job.window.None?)
  }

  ghost predicate FileKept(s: State, s': State, f: Address) {
    IsPublished(s, f) && s.handles[f].op.FileOpen? ==>
      IsPublished(s', f) && s'.handles[f].lastJob == s.handles[f].lastJob
  }

  // No chain ends, no job finishes and no file handle goes.
  lemma FilesGoOn(s: State, s': State)
    requires Linked(s) && Kept(s) && |s.jobs| <= |s'.jobs|
    requires forall j :: 0 < j < |s.jobs| ==> JobAlike(s.jobs[j], s'.jobs[j])
    requires forall j :: |s.jobs| <= j < |s'.jobs| ==> s'.jobs[j].window.Some?
    requires forall f :: FileKept(s, s', f)
    ensures Kept(s')
  {
    hide IsPublished;
    forall j | 0 < j < |s'.jobs| ensures FileOk(s', j) {
      if j < |s.jobs| {
        assert JobOk(s, j) && FileOk(s, j) && JobAlike(s.jobs[j], s'.jobs[j]);
        var job := s'.jobs[j];
        if job.window.None? && !job.finished && job.file.Some? {
          assert FileKept(s, s', job.file.value);
          PublishedIsThere(s, job.file.value);
          ReachesAlike(s.jobs, s'.jobs, s.handles[job.file.value].lastJob, j);
        }
      }
    }
  }

  lemma FinishKeepsFiles(s: State, j: JobId)
    requires Kept(s) && Possible(s, Finish(j))
    ensures Kept(s.(jobs := s.jobs[j := s.jobs[j].(finished := true)]))
  {
    var s' := s.(jobs := s.jobs[j := s.jobs[j].(finished := true)]);
    forall i | 0 < i < |s.jobs| ensures FileOk(s', i) {
      assert FileOk(s, i);
      if i != j && s.jobs[i].window.None? && !s.jobs[i].finished && s.jobs[i].file.Some? {
        FinishKeepsReach(s.jobs, s.handles[s.jobs[i].file.value].lastJob, i, j);
      }
    }
  }

  lemma LeaveWindowAlike(jobs: seq<Job>, job: Option<JobId>)
    requires job.Some? && job.value < |jobs| ==> jobs[job.value].file.None?
    ensures |LeaveWindow(jobs, job)| == |jobs|
    ensures forall j :: 0 < j < |jobs| ==> JobAlike(jobs[j], LeaveWindow(jobs, job)[j])
  {
  }

  lemma PublishKeepsFile(s: State, t: ThreadId, inlined: bool, f: Address)
    requires Sound(s) && Possible(s, Publish(t, inlined))
    ensures FileKept(s, PublishSection(s, t, s.threads[t].handle, s.threads[t].job, inlined), f)
  {
    assert ThreadOk(s, t);
  }

  lemma PublishKeepsFiles(s: State, t: ThreadId, inlined: bool)
    requires Sound(s) && Linked(s) && Kept(s) && Possible(s, Publish(t, inlined))
    ensures Kept(PublishSection(s, t, s.threads[t].handle, s.threads[t].job, inlined))
  {
    var a := s.threads[t];
    var s' := PublishSection(s, t, a.handle, a.job, inlined);
    assert ActivityOk(s, t);
    hide Sound, Linked, Kept, FileKept, JobAlike, LeaveWindow;
    forall f ensures FileKept(s, s', f) { PublishKeepsFile(s, t, inlined, f); }
    LeaveWindowAlike(s.jobs, a.job);
    FilesGoOn(s, s');
  }

  lemma EndDispatchKeepsFile(s: State, t: ThreadId, inlined: bool, f: Address)
    requires Sound(s) && Linked(s) && Possible(s, EndDispatch(t, inlined))
    ensures var a := s.threads[t]; FileKept(s, EndDispatchSection(s, t, a.handle, a.id, a.job, inlined), f)
  {
    assert ThreadOk(s, t) && ActivityOk(s, t);
  }

  lemma EndDispatchKeepsFiles(s: State, t: ThreadId, inlined: bool)
    requires Sound(s) && Linked(s) && Kept(s) && Possible(s, EndDispatch(t, inlined))
    ensures var a := s.threads[t]; Kept(EndDispatchSection(s, t, a.handle, a.id, a.job, inlined))
  {
    var a := s.threads[t];
    var s' := EndDispatchSection(s, t, a.handle, a.id, a.job, inlined);
    assert ActivityOk(s, t);
    EndDispatchLeaves(s, t, inlined);
    hide Sound, Linked, Kept, FileKept, JobAlike, LeaveWindow, EndDispatchSection;
    forall f ensures FileKept(s, s', f) { EndDispatchKeepsFile(s, t, inlined, f); }
    LeaveWindowAlike(s.jobs, a.job);
    FilesGoOn(s, s');
  }

  // A chained job that is recorded over the one it waits for reaches all that this one did; over one that
  // has finished there was nothing to reach.
  lemma LastReaches(jobs: seq<Job>, last: JobId, k: JobId, inlined: bool, j: JobId)
    requires Reaches(jobs, last, j) && 0 < k < |jobs| && jobs[k].after < k
    requires jobs[k].finished ==> Finished(jobs, jobs[k].after)
    requires last == jobs[k].after || Finished(jobs, last)
    requires inlined ==> jobs[k].finished
    ensures Reaches(jobs, Recorded(Some(k), inlined), j)
  {
  }

  ghost predicate Chained(s: State, j: JobId, f: Address)
    requires j < |s.jobs|
  {
    s.jobs[j].file == Some(f) && !s.jobs[j].finished
  }

  lemma EndChainRecordsLast(s: State, t: ThreadId, j: JobId)
    requires Sound(s) && Linked(s) && Possible(s, EndChain(t)) && InTurn(s, EndChain(t))
    requires 0 < j < |s.jobs| && Chained(s, j, s.threads[t].file)
    requires s.threads[t].job == Some(j)
          || (s.threads[t].file in s.handles && Reaches(s.jobs, s.handles[s.threads[t].file].lastJob, j))
    ensures var a := s.threads[t];
      a.file in s.handles && Reaches(s.jobs, FileAfter(s.handles[a.file], a.job, a.inlined).lastJob, j)
  {
    var a := s.threads[t];
    ChainFacts(s, t);
    OpenIsPublished(s, a.id);
    if a.job.Some? {
      var k := a.job.value;
      assert ActivityOk(s, t) && ThreadOk(s, t);
      assert JobOk(s, k);
      hide Sound, Linked, ThreadOk, ActivityOk, JobOk;
      if k != j { LastReaches(s.jobs, s.handles[a.file].lastJob, k, a.inlined, j); }
    }
  }

  lemma OwnFile(s: State, t: ThreadId, j: JobId)
    requires Linked(s) && t in s.threads && s.threads[t].Chaining? && j < |s.jobs|
    ensures s.threads[t].job == Some(j) ==> s.jobs[j].file == Some(s.threads[t].file)
  {
    assert ActivityOk(s, t);
  }

  lemma EndChainKeepsPublished(s: State, t: ThreadId, f: Address)
    requires Sound(s) && Possible(s, EndChain(t)) && IsPublished(s, f)
    ensures var s' := EndChainSection(s, t, s.threads[t]);
      IsPublished(s', f) && (f != s.threads[t].file ==> s'.handles[f] == s.handles[f])
  {
    EndChainRecords(s, t, f);
  }

  lemma EndChainKeepsReach(s: State, t: ThreadId, j: JobId, f: Address)
    requires Sound(s) && Linked(s) && Possible(s, EndChain(t)) && InTurn(s, EndChain(t))
    requires 0 < j < |s.jobs| && Chained(s, j, f)
    requires s.threads[t].job != Some(j) ==> IsPublished(s, f) && Reaches(s.jobs, s.handles[f].lastJob, j)
    ensures var s' := EndChainSection(s, t, s.threads[t]);
      IsPublished(s', f) && Reaches(s.jobs, s'.handles[f].lastJob, j)
  {
    OwnFile(s, t, j);
    hide Sound, Linked, InTurn, EndChainSection, Reaches, FileAfter, RecordKept;
    EndChainResult(s, t);
    if IsPublished(s, f) { EndChainKeepsPublished(s, t, f); }
    if f == s.threads[t].file { EndChainRecordsLast(s, t, j); }
  }

  lemma LeaveWindowAt(jobs: seq<Job>, job: Option<JobId>, j: JobId)
    requires j < |jobs|
    ensures |LeaveWindow(jobs, job)| == |jobs|
    ensures LeaveWindow(jobs, job)[j] == jobs[j].(window := if job == Some(j) then None else jobs[j].window)
  {
  }

  lemma LeaveWindowReaches(jobs: seq<Job>, job: Option<JobId>, a: JobId, j: JobId)
    requires Reaches(jobs, a, j)
    ensures Reaches(LeaveWindow(jobs, job), a, j)
  {
    ReachesAlike(jobs, LeaveWindow(jobs, job), a, j);
  }

  lemma EndChainKeepsFile(s: State, t: ThreadId, j: JobId)
    requires Sound(s) && Linked(s) && Possible(s, EndChain(t)) && InTurn(s, EndChain(t))
    requires 0 < j < |s.jobs| && FileOk(s, j)
    ensures FileOk(EndChainSection(s, t, s.threads[t]), j)
  {
    var a := s.threads[t];
    var s' := EndChainSection(s, t, a);
    var job := s.jobs[j];
    EndChainLeaves(s, t);
    LeaveWindowAt(s.jobs, a.job, j);
    hide Sound, Linked, IsPublished, EndChainSection, LeaveWindow, InTurn, Reaches;
    if !job.finished && job.file.Some? && (a.job == Some(j) || job.window.None?) {
      EndChainKeepsReach(s, t, j, job.file.value);
      PublishedIsThere(s', job.file.value);
      LeaveWindowReaches(s.jobs, a.job, s'.handles[job.file.value].lastJob, j);
    }
  }

  lemma EndChainKeepsFiles(s: State, t: ThreadId)
    requires Sound(s) && Linked(s) && Kept(s) && Possible(s, EndChain(t)) && InTurn(s, EndChain(t))
    ensures Kept(EndChainSection(s, t, s.threads[t]))
  {
    EndChainLeaves(s, t);
    hide Sound, Linked, InTurn, EndChainSection, FileOk;
    forall j | 0 < j < |s.jobs| ensures FileOk(EndChainSection(s, t, s.threads[t]), j) {
      EndChainKeepsFile(s, t, j);
    }
  }

  predicate TouchesNoFile(step: Step) {
    step.NewMount? || step.Release? || step.MountSnapshot? || step.MountRefresh? || step.BeginIssue?
    || step.ChainAllocate? || step.BeginDispatch? || step.BeginChain? || step.Schedule? || step.ChainSchedule?
  }

  lemma AllocateKeepsFile(s: State, op: Op, mount: MountId, reuse: Id, f: Address)
    requires Sound(s)
    ensures FileKept(s, Allocate(s, op, mount, reuse), f)
  {
    if f in s.handles { assert HandleOk(s, f); }
  }

  lemma SameHandles(s: State, step: Step)
    requires Possible(s, step) && TouchesNoFile(step) && !step.BeginIssue? && !step.ChainAllocate?
    requires !step.BeginDispatch? && !step.BeginChain?
    ensures Apply(s, step).handles == s.handles && Apply(s, step).handleMap == s.handleMap
  {
  }

  lemma SameFile(s: State, s': State, f: Address)
    requires s'.handles == s.handles && s'.handleMap == s.handleMap
    ensures FileKept(s, s', f)
  {
  }

  lemma OtherStepKeepsFile(s: State, step: Step, f: Address)
    requires Sound(s) && Possible(s, step) && TouchesNoFile(step)
    ensures FileKept(s, Apply(s, step), f)
  {
    match step
    case BeginIssue(_, op, mount, reuse) => AllocateKeepsFile(s, op, mount, reuse, f);
    case ChainAllocate(t, op) => AllocateKeepsFile(s, op, s.threads[t].mount, 0, f);
    case BeginDispatch(_, _) => hide Sound;
    case BeginChain(_, _) => hide Sound;
    case _ =>
      SameHandles(s, step);
      hide *;
      SameFile(s, Apply(s, step), f);
  }

  lemma OtherStepKeepsJobs(s: State, step: Step)
    requires Possible(s, step) && TouchesNoFile(step)
    ensures var s' := Apply(s, step);
      && |s.jobs| <= |s'.jobs|
      && (forall j :: 0 < j < |s.jobs| ==> JobAlike(s.jobs[j], s'.jobs[j]))
      && (forall j :: |s.jobs| <= j < |s'.jobs| ==> s'.jobs[j].window.Some?)
  {
  }

  lemma OtherStepKeepsFiles(s: State, step: Step)
    requires Sound(s) && Linked(s) && Kept(s) && Possible(s, step) && TouchesNoFile(step)
    ensures Kept(Apply(s, step))
  {
    var s' := Apply(s, step);
    forall f ensures FileKept(s, s', f) { OtherStepKeepsFile(s, step, f); }
    OtherStepKeepsJobs(s, step);
    hide Sound, FileKept, Kept, Linked, Apply, JobAlike;
    FilesGoOn(s, s');
  }

  lemma CloseKeepsFiles(s: State, id: Id, mainThread: bool)
    requires Sound(s) && Linked(s) && Kept(s)
    ensures Kept(CloseSection(s, id, mainThread))
  {
    OpenIsPublished(s, id);
    var s' := CloseSection(s, id, mainThread);
    if LookupOpen(s, id).Some? && Idle(s.jobs, s.handles[LookupOpen(s, id).value]) {
      var p := LookupOpen(s, id).value;
      assert MayBeFreed(s, p);
      FreeKeepsFiles(s, {p});
    } else {
      forall f ensures FileKept(s, s', f) { }
      hide Sound, FileKept;
      FilesGoOn(s, s');
    }
  }

  lemma StepKeepsFiles(s: State, step: Step)
    requires Sound(s) && Linked(s) && Kept(s) && Allowed(s, step, ChainInTurn)
    ensures Kept(Apply(s, step))
  {
    hide Sound, Linked, Kept, InTurn;
    match step
    case Publish(t, inlined) => PublishKeepsFiles(s, t, inlined);
    case EndDispatch(t, inlined) => EndDispatchKeepsFiles(s, t, inlined);
    case EndChain(t) => EndChainKeepsFiles(s, t);
    case Close(id, mainThread) => CloseKeepsFiles(s, id, mainThread);
    case Reclaim =>
      ReclaimStepIsSound(s);
      if s.closedCount != 0 { FreeKeepsFiles(s, Reclaimable(s)); }
    case MountFree(t) => MountFreeIsLinked(s, t);
    case Finish(j) => FinishKeepsFiles(s, j);
    case _ => OtherStepKeepsFiles(s, step);
  }
}
