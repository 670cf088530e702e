// Exactly when a job that is chained onto a file handle can lose it (src/vfs/vfs.c): from every state that
// is not secure, this module makes the steps that free the file handle under the job.

module VfsLoss {

  import opened VfsState
  import opened VfsSound
  import opened VfsJobs
  import opened VfsProtocol
  import opened VfsSecure
  import opened Wrappers

  ghost predicate Goes(s: State, more: seq<Step>, s': State) {
    IsRun(s, more, DispatchOnce) && After(s, more, DispatchOnce) == s'
  }

  ghost predicate Live(s: State, f: Address, k: JobId) {
    Sound(s) && Linked(s) && IsChained(s, f, k) && f in s.handles && !RunsInline(s, k)
  }

  ghost predicate SameReach(jobs: seq<Job>, jobs': seq<Job>, k: JobId) {
    forall a :: Reaches(jobs, a, k) <==> Reaches(jobs', a, k)
  }

  // Every job that does not wait for k has finished.
  ghost predicate Settled(jobs: seq<Job>, k: JobId, n: nat) {
    forall i :: 0 < i < n && i < |jobs| && !jobs[i].finished ==> Reaches(jobs, i, k)
  }

  lemma TakeStep(s0: State, more: seq<Step>, s: State, step: Step) returns (more': seq<Step>)
    requires Goes(s0, more, s) && Sound(s) && Linked(s) && Allowed(s, step, DispatchOnce)
    ensures Goes(s0, more', Apply(s, step)) && Sound(Apply(s, step)) && Linked(Apply(s, step))
  {
    hide Sound, Linked, Apply, Possible, Orderly, PreparedOnce;
    StepIsSound(s, step);
    StepIsLinked(s, step);
    RunSnoc(s0, more, step, DispatchOnce);
    more' := more + [step];
  }

  // -------------------------------------------------------------------------------------------
  // Finishing the jobs that do not wait for k
  // -------------------------------------------------------------------------------------------

  lemma {:induction false} ReachesBefore(jobs: seq<Job>, jobs': seq<Job>, a: JobId, k: JobId)
    requires Reaches(jobs', a, k) && a < |jobs| <= |jobs'|
    requires forall i :: 0 < i < |jobs| ==> jobs'[i].after == jobs[i].after && (jobs[i].finished ==> jobs'[i].finished)
    ensures Reaches(jobs, a, k)
  {
    if a != k { ReachesBefore(jobs, jobs', jobs'[a].after, k); }
  }

  lemma {:induction false} ReachesDown(jobs: seq<Job>, a: JobId, k: JobId)
    requires Reaches(jobs, a, k)
    ensures k <= a
  {
    if a != k { ReachesDown(jobs, jobs[a].after, k); }
  }

  lemma FinishKeepsReaches(jobs: seq<Job>, j: JobId, k: JobId)
    requires 0 < j < |jobs| && Finished(jobs, jobs[j].after) && j != k
    ensures SameReach(jobs, jobs[j := jobs[j].(finished := true)], k)
  {
    var jobs' := jobs[j := jobs[j].(finished := true)];
    forall a ensures Reaches(jobs, a, k) <==> Reaches(jobs', a, k) {
      if Reaches(jobs, a, k) { FinishKeepsReach(jobs, a, k, j); }
      if Reaches(jobs', a, k) { ReachesBefore(jobs, jobs', a, k); }
    }
  }

  // Only the marks of some jobs differ.
  ghost predicate OnlyFinished(s: State, s': State, k: JobId) {
    && s' == s.(jobs := s'.jobs) && |s'.jobs| == |s.jobs| && SameReach(s.jobs, s'.jobs, k)
    && (forall i :: 0 <= i < |s.jobs| ==> s'.jobs[i] == s.jobs[i].(finished := s'.jobs[i].finished))
  }

  lemma FinishOne(s0: State, more: seq<Step>, s: State, f: Address, k: JobId, j: JobId)
    returns (more': seq<Step>, s': State)
    requires Goes(s0, more, s) && Live(s, f, k) && 0 < j < |s.jobs| && Settled(s.jobs, k, j)
    ensures Goes(s0, more', s') && Live(s', f, k) && OnlyFinished(s, s', k) && Settled(s'.jobs, k, j + 1)
  {
    if s.jobs[j].finished || Reaches(s.jobs, j, k) {
      return more, s;
    }
    SoundJobs(s);
    hide Sound, Linked;
    assert Finished(s.jobs, s.jobs[j].after);
    assert j != k;
    more' := TakeStep(s0, more, s, Finish(j));
    s' := Apply(s, Finish(j));
    hide IsRun, After;
    FinishKeepsReaches(s.jobs, j, k);
  }

  lemma {:induction false} FinishUpTo(s0: State, more: seq<Step>, s: State, f: Address, k: JobId, n: nat)
    returns (more': seq<Step>, s': State)
    requires Goes(s0, more, s) && Live(s, f, k) && 0 < n <= |s.jobs|
    ensures Goes(s0, more', s') && Live(s', f, k) && OnlyFinished(s, s', k) && Settled(s'.jobs, k, n)
  {
    if n == 1 {
      return more, s;
    }
    more', s' := FinishUpTo(s0, more, s, f, k, n - 1);
    var mid := s';
    hide Goes, Live, Settled;
    more', s' := FinishOne(s0, more', s', f, k, n - 1);
    OnlyFinishedMore(s, mid, s', k);
  }

  lemma OnlyFinishedMore(s: State, mid: State, s': State, k: JobId)
    requires OnlyFinished(s, mid, k) && OnlyFinished(mid, s', k)
    ensures OnlyFinished(s, s', k)
  {
    hide Reaches;
  }

  // -------------------------------------------------------------------------------------------
  // Ending the chains onto the file handle
  // -------------------------------------------------------------------------------------------

  lemma SettledIsFinished(s: State, a: JobId, k: JobId)
    requires Sound(s) && Settled(s.jobs, k, |s.jobs|) && !Reaches(s.jobs, a, k)
    ensures Finished(s.jobs, a)
  {
  }

  // A job that runs inline waited for one that has finished, so that it does not wait for k.
  lemma ChainMayEnd(s: State, u: ThreadId, f: Address, k: JobId)
    requires Live(s, f, k) && Settled(s.jobs, k, |s.jobs|) && u in s.threads && ChainsOnto(s.threads[u], f)
    ensures Allowed(s, EndChain(u), DispatchOnce)
  {
    assert ThreadOk(s, u) && ActivityOk(s, u);
    if s.threads[u].inlined {
      ChainJob(s, u);
      var i := s.threads[u].job.value;
      assert i != k;
      SettledIsFinished(s, i, k);
    }
  }

  // What is left when the chain of thread u has ended.
  ghost predicate Ended(s: State, s': State, u: ThreadId, f: Address, k: JobId)
    requires u in s.threads && s.threads[u].Chaining? && f in s.handles && f in s'.handles
  {
    && s'.threads == s.threads - {u} && SameReach(s.jobs, s'.jobs, k)
    && s'.handles[f] == FileAfter(s.handles[f], s.threads[u].job, s.threads[u].inlined)
  }

  lemma LeaveWindowSameReach(jobs: seq<Job>, job: Option<JobId>, k: JobId)
    ensures SameReach(jobs, LeaveWindow(jobs, job), k)
  {
    var jobs' := LeaveWindow(jobs, job);
    forall a ensures Reaches(jobs, a, k) <==> Reaches(jobs', a, k) {
      if Reaches(jobs, a, k) { ReachesAlike(jobs, jobs', a, k); }
      if Reaches(jobs', a, k) { ReachesBefore(jobs, jobs', a, k); }
    }
  }

  lemma LeaveWindowSettled(jobs: seq<Job>, job: Option<JobId>, k: JobId)
    requires Settled(jobs, k, |jobs|)
    ensures var jobs' := LeaveWindow(jobs, job); |jobs'| == |jobs| && Settled(jobs', k, |jobs'|)
  {
    LeaveWindowSameReach(jobs, job, k);
  }

  lemma StillNotInline(s: State, u: ThreadId, f: Address, k: JobId)
    requires Live(s, f, k) && Possible(s, EndChain(u))
    ensures var s' := Apply(s, EndChain(u)); IsChained(s', f, k) && !RunsInline(s', k)
  {
    EndChainLeaves(s, u);
    LeaveWindowAt(s.jobs, s.threads[u].job, k);
  }

  lemma EndOne(s0: State, more: seq<Step>, s: State, f: Address, k: JobId, u: ThreadId)
    returns (more': seq<Step>, s': State)
    requires Goes(s0, more, s) && Live(s, f, k) && Settled(s.jobs, k, |s.jobs|)
    requires u in s.threads && ChainsOnto(s.threads[u], f)
    ensures Goes(s0, more', s') && Live(s', f, k) && Settled(s'.jobs, k, |s'.jobs|) && Ended(s, s', u, f, k)
  {
    ChainMayEnd(s, u, f, k);
    more' := TakeStep(s0, more, s, EndChain(u));
    s' := Apply(s, EndChain(u));
    StillNotInline(s, u, f, k);
    EndedChainLast(s, u, f);
    EndChainLeaves(s, u);
    LeaveWindowSameReach(s.jobs, s.threads[u].job, k);
    LeaveWindowSettled(s.jobs, s.threads[u].job, k);
  }

  ghost predicate NoJobs(s: State, f: Address, keep: Option<ThreadId>) {
    forall u :: u in s.threads && ChainsOnto(s.threads[u], f) && keep != Some(u) ==> s.threads[u].job.None?
  }

  // What is left when all chains onto f but one have ended.
  ghost predicate OthersEnded(s: State, s': State, f: Address, k: JobId, keep: Option<ThreadId>)
    requires f in s.handles && f in s'.handles
  {
    && SameReach(s.jobs, s'.jobs, k)
    && (forall u :: u in s'.threads && ChainsOnto(s'.threads[u], f) ==> keep == Some(u))
    && (keep.Some? && keep.value in s.threads ==>
          keep.value in s'.threads && s'.threads[keep.value] == s.threads[keep.value])
    && (NoJobs(s, f, keep) ==> s'.handles[f].lastJob == s.handles[f].lastJob)
  }

  lemma {:induction false} EndOthers(s0: State, more: seq<Step>, s: State, f: Address, k: JobId, keep: Option<ThreadId>)
    returns (more': seq<Step>, s': State)
    requires Goes(s0, more, s) && Live(s, f, k) && Settled(s.jobs, k, |s.jobs|)
    ensures Goes(s0, more', s') && Live(s', f, k) && Settled(s'.jobs, k, |s'.jobs|) && OthersEnded(s, s', f, k, keep)
    decreases |s.threads|
  {
    hide Goes, Sound, Linked, IsChained, RunsInline, Settled, Reaches;
    if u :| u in s.threads && ChainsOnto(s.threads[u], f) && keep != Some(u) {
      var mid;
      more', mid := EndOne(s0, more, s, f, k, u);
      assert |mid.threads| < |s.threads| by {
        assert mid.threads.Keys == s.threads.Keys - {u};
      }
      more', s' := EndOthers(s0, more', mid, f, k, keep);
      assert NoJobs(s, f, keep) ==> NoJobs(mid, f, keep);
    } else {
      more', s' := more, s;
    }
  }

  // -------------------------------------------------------------------------------------------
  // Freeing the file handle
  // -------------------------------------------------------------------------------------------

  lemma NothingPends(s: State, f: Address, k: JobId)
    requires Live(s, f, k) && (forall u :: u in s.threads ==> !ChainsOnto(s.threads[u], f))
    ensures s.handles[f].pendingDispatches == 0
  {
    ChainedFacts(s, f, k);
    forall u | u in s.threads ensures !OpensWindow(s.threads[u], f) {
      assert ActivityOk(s, u);
    }
    assert Windows(s.threads, f) == {};
  }

  lemma FileIsIdle(s: State, f: Address, k: JobId)
    requires Live(s, f, k) && Settled(s.jobs, k, |s.jobs|) && Finished(s.jobs, s.handles[f].lastJob)
    requires forall u :: u in s.threads ==> !ChainsOnto(s.threads[u], f)
    ensures Idle(s.jobs, s.handles[f]) && IsPublished(s, f)
  {
    NothingPends(s, f, k);
    ChainedFacts(s, f, k);
    if Reaches(s.jobs, s.handles[f].jobHandle, k) { ReachesDown(s.jobs, s.handles[f].jobHandle, k); }
    SettledIsFinished(s, s.handles[f].jobHandle, k);
  }

  lemma CloseOrReclaim(s: State, f: Address) returns (step: Step)
    requires Sound(s) && IsPublished(s, f) && Idle(s.jobs, s.handles[f])
    ensures Allowed(s, step, DispatchOnce) && f !in Apply(s, step).handles && Apply(s, step).jobs == s.jobs
  {
    if s.handles[f].closed {
      step := Reclaim;
      assert f in ClosedAmong(s.handles, s.handles.Keys);
      assert f in Reclaimable(s) by { assert s.handleMap[s.handles[f].id] == f; }
    } else {
      step := Close(s.handles[f].id, true);
    }
  }

  ghost predicate Loses(s: State, more: seq<Step>, f: Address, k: JobId) {
    && IsRun(s, more, DispatchOnce)
    && var s' := After(s, more, DispatchOnce);
      k < |s'.jobs| && !s'.jobs[k].finished && f !in s'.handles
  }

  lemma FreeFile(s0: State, more: seq<Step>, s: State, f: Address, k: JobId) returns (more': seq<Step>)
    requires Goes(s0, more, s) && Live(s, f, k) && Settled(s.jobs, k, |s.jobs|)
    requires Finished(s.jobs, s.handles[f].lastJob)
    requires forall u :: u in s.threads ==> !ChainsOnto(s.threads[u], f)
    ensures Loses(s0, more', f, k)
  {
    FileIsIdle(s, f, k);
    var step := CloseOrReclaim(s, f);
    more' := TakeStep(s0, more, s, step);
  }

  // -------------------------------------------------------------------------------------------
  // A chain that does not wait for k gets a job that is done
  // -------------------------------------------------------------------------------------------

  // Thread w chains onto f a job that does not wait for k.
  ghost predicate Overtakes(s: State, w: ThreadId, f: Address, k: JobId) {
    && w in s.threads && ChainsOnto(s.threads[w], f)
    && s.threads[w].job != Some(k) && !Reaches(s.jobs, s.threads[w].chainAfter, k)
  }

  // It is the only one left.
  ghost predicate Alone(s: State, w: ThreadId, f: Address) {
    forall u :: u in s.threads && ChainsOnto(s.threads[u], f) ==> u == w
  }

  lemma AllocateForIt(s0: State, more: seq<Step>, s: State, f: Address, k: JobId, w: ThreadId)
    returns (more': seq<Step>, s': State)
    requires Goes(s0, more, s) && Live(s, f, k) && Settled(s.jobs, k, |s.jobs|)
    requires Overtakes(s, w, f, k) && Alone(s, w, f) && s.threads[w].job.None?
    ensures Goes(s0, more', s') && Live(s', f, k) && Settled(s'.jobs, k, |s'.jobs|)
    ensures Overtakes(s', w, f, k) && Alone(s', w, f) && s'.threads[w].job.None? && s'.threads[w].op.Some?
  {
    if s.threads[w].op.Some? { return more, s; }
    AllocatedForIt(s, f, k, w);
    hide Sound, Linked, Reaches, Goes, Settled, IsChained, RunsInline, Overtakes, Alone;
    more' := TakeStep(s0, more, s, ChainAllocate(w, FileRead));
    s' := Apply(s, ChainAllocate(w, FileRead));
  }

  lemma AllocatedForIt(s: State, f: Address, k: JobId, w: ThreadId)
    requires IsChained(s, f, k) && f in s.handles && !RunsInline(s, k)
    requires Overtakes(s, w, f, k) && Alone(s, w, f) && s.threads[w].job.None? && s.threads[w].op.None?
    ensures Allowed(s, ChainAllocate(w, FileRead), DispatchOnce)
    ensures var s' := Apply(s, ChainAllocate(w, FileRead));
      && IsChained(s', f, k) && f in s'.handles && !RunsInline(s', k) && s'.jobs == s.jobs
      && Overtakes(s', w, f, k) && Alone(s', w, f) && s'.threads[w].job.None? && s'.threads[w].op.Some?
  {
    hide Reaches;
    StillWindows(s, Apply(s, ChainAllocate(w, FileRead)), k, w);
  }

  lemma StillWindows(s: State, s': State, k: JobId, w: ThreadId)
    requires k < |s.jobs| && s'.jobs == s.jobs && w in s.threads && s.threads[w].Chaining? && w in s'.threads
    requires s'.threads[w].Chaining? && s'.threads[w].inlined == s.threads[w].inlined
    requires s'.threads == s.threads[w := s'.threads[w]] && !RunsInline(s, k)
    ensures !RunsInline(s', k)
  {
  }

  lemma NewJobSettled(jobs: seq<Job>, job: Job, k: JobId)
    requires Settled(jobs, k, |jobs|)
    ensures Settled(jobs + [job], k, |jobs|)
  {
    var jobs' := jobs + [job];
    forall i | 0 < i < |jobs| && !jobs'[i].finished ensures Reaches(jobs', i, k) {
      assert jobs'[i] == jobs[i];
      ReachesAlike(jobs, jobs', i, k);
    }
  }

  lemma ScheduleForIt(s0: State, more: seq<Step>, s: State, f: Address, k: JobId, w: ThreadId)
    returns (more': seq<Step>, s': State)
    requires Goes(s0, more, s) && Live(s, f, k) && Settled(s.jobs, k, |s.jobs|)
    requires Overtakes(s, w, f, k) && Alone(s, w, f) && s.threads[w].job.None? && s.threads[w].op.Some?
    ensures Goes(s0, more', s') && Live(s', f, k) && Settled(s'.jobs, k, |s.jobs|) && |s'.jobs| == |s.jobs| + 1
    ensures Overtakes(s', w, f, k) && Alone(s', w, f) && s'.threads[w].job == Some(|s.jobs|)
  {
    ChainFacts(s, w);
    assert !s.threads[w].inlined by { assert ActivityOk(s, w); }
    hide Sound, Linked, Goes;
    ScheduledForIt(s, f, k, w);
    hide IsChained, RunsInline, Overtakes, Alone;
    more' := TakeStep(s0, more, s, ChainSchedule(w, false));
    s' := Apply(s, ChainSchedule(w, false));
  }

  lemma ScheduledForIt(s: State, f: Address, k: JobId, w: ThreadId)
    requires IsChained(s, f, k) && f in s.handles && !RunsInline(s, k) && Settled(s.jobs, k, |s.jobs|)
    requires Overtakes(s, w, f, k) && Alone(s, w, f) && s.threads[w].job.None? && s.threads[w].op.Some?
    requires s.threads[w].chainAfter < |s.jobs| && !s.threads[w].inlined
    ensures Allowed(s, ChainSchedule(w, false), DispatchOnce)
    ensures var s' := Apply(s, ChainSchedule(w, false));
      && IsChained(s', f, k) && f in s'.handles && !RunsInline(s', k)
      && Settled(s'.jobs, k, |s.jobs|) && |s'.jobs| == |s.jobs| + 1
      && Overtakes(s', w, f, k) && Alone(s', w, f) && s'.threads[w].job == Some(|s.jobs|)
  {
    var s' := Apply(s, ChainSchedule(w, false));
    var a := s.threads[w];
    var job := Job(a.op.value, Some(a.file), a.chainAfter, false, Some(w));
    assert s'.jobs == s.jobs + [job] && s'.jobs[k] == s.jobs[k];
    NewJobSettled(s.jobs, job, k);
    if Reaches(s'.jobs, a.chainAfter, k) { ReachesBefore(s.jobs, s'.jobs, a.chainAfter, k); }
  }

  lemma RunForIt(s0: State, more: seq<Step>, s: State, f: Address, k: JobId, w: ThreadId)
    returns (more': seq<Step>, s': State)
    requires Goes(s0, more, s) && Live(s, f, k) && 0 < k < |s.jobs| - 1 && Settled(s.jobs, k, |s.jobs| - 1)
    requires Overtakes(s, w, f, k) && Alone(s, w, f) && s.threads[w].job == Some(|s.jobs| - 1)
    ensures Goes(s0, more', s') && Live(s', f, k) && Settled(s'.jobs, k, |s'.jobs|)
    ensures Overtakes(s', w, f, k) && Alone(s', w, f) && s'.threads[w].job.Some?
  {
    more', s' := FinishOne(s0, more, s, f, k, |s.jobs| - 1);
  }

  lemma JobForIt(s0: State, more: seq<Step>, s: State, f: Address, k: JobId, w: ThreadId)
    returns (more': seq<Step>, s': State)
    requires Goes(s0, more, s) && Live(s, f, k) && Settled(s.jobs, k, |s.jobs|)
    requires Overtakes(s, w, f, k) && Alone(s, w, f)
    ensures Goes(s0, more', s') && Live(s', f, k) && Settled(s'.jobs, k, |s'.jobs|)
    ensures Overtakes(s', w, f, k) && Alone(s', w, f) && s'.threads[w].job.Some?
  {
    if s.threads[w].job.Some? { return more, s; }
    more', s' := AllocateForIt(s0, more, s, f, k, w);
    more', s' := ScheduleForIt(s0, more', s', f, k, w);
    more', s' := RunForIt(s0, more', s', f, k, w);
  }

  // When that chain ends, the last job of the file handle is one that has finished.
  lemma LastIsFinished(s: State, s': State, f: Address, k: JobId, w: ThreadId)
    requires Live(s, f, k) && Overtakes(s, w, f, k) && s.threads[w].job.Some?
    requires Live(s', f, k) && Settled(s'.jobs, k, |s'.jobs|) && Ended(s, s', w, f, k)
    ensures Finished(s'.jobs, s'.handles[f].lastJob)
  {
    ChainJob(s, w);
    var i := s.threads[w].job.value;
    assert !Reaches(s.jobs, i, k);
    SettledIsFinished(s', Recorded(s.threads[w].job, s.threads[w].inlined), k);
  }

  lemma LoseToIt(s0: State, more: seq<Step>, s: State, f: Address, k: JobId, w: ThreadId) returns (more': seq<Step>)
    requires Goes(s0, more, s) && Live(s, f, k) && Overtakes(s, w, f, k)
    ensures Loses(s0, more', f, k)
  {
    var s1, s2, s3, s4;
    more', s1 := FinishUpTo(s0, more, s, f, k, |s.jobs|);
    more', s2 := EndOthers(s0, more', s1, f, k, Some(w));
    assert Overtakes(s2, w, f, k) && Alone(s2, w, f);
    hide Sound, Linked, Goes, Loses, IsChained, RunsInline, Reaches;
    more', s3 := JobForIt(s0, more', s2, f, k, w);
    more', s4 := EndOne(s0, more', s3, f, k, w);
    LastIsFinished(s3, s4, f, k, w);
    more' := FreeFile(s0, more', s4, f, k);
  }

  // -------------------------------------------------------------------------------------------
  // The cases
  // -------------------------------------------------------------------------------------------

  lemma FreshThread(threads: map<ThreadId, Activity>) returns (t: ThreadId)
    ensures t !in threads
  {
    t := Above(threads.Keys);
  }

  lemma {:induction false} Above(some: set<ThreadId>) returns (t: ThreadId)
    ensures forall u :: u in some ==> u < t
    decreases |some|
  {
    if u :| u in some {
      t := Above(some - {u});
      assert forall v :: v in some && v != u ==> v in some - {u};
      t := if u < t then t else u + 1;
    } else {
      t := 0;
    }
  }

  // As long as a chain can begin, one that waits for the last job overtakes a job that the last one does
  // not wait for.
  lemma LoseToANewChain(s: State, f: Address, k: JobId) returns (more: seq<Step>)
    requires Live(s, f, k) && !Sealed(s, f) && !Reaches(s.jobs, s.handles[f].lastJob, k)
    ensures Loses(s, more, f, k)
  {
    var t := FreshThread(s.threads);
    var id := s.handles[f].id;
    ChainedFacts(s, f, k);
    assert LookupOpen(s, id) == Some(f);
    more := TakeStep(s, [], s, BeginChain(t, id));
    var s' := Apply(s, BeginChain(t, id));
    assert JobOk(s, k);
    assert Live(s', f, k) && Overtakes(s', t, f, k);
    more := LoseToIt(s, more, s', f, k, t);
  }

  // When all chains wait for k but none has a job to record, they can all end without one.
  lemma AllGiveUp(s: State, f: Address, k: JobId)
    requires Live(s, f, k) && AllFollow(s, f, k) && (forall t :: t in s.threads ==> !WillRecord(s, t, f, k))
    ensures NoJobs(s, f, None)
  {
    forall u | u in s.threads && ChainsOnto(s.threads[u], f) ensures s.threads[u].job.None? {
      assert Follows(s, u, f, k) && !WillRecord(s, u, f, k) && ActivityOk(s, u);
      if s.threads[u].job.Some? {
        ChainJob(s, u);
        SoundJobs(s);
        if s.threads[u].job.value != k { WaiterReaches(s, s.threads[u].job.value, k); }
      }
    }
  }

  lemma LoseWhenAllGiveUp(s: State, f: Address, k: JobId) returns (more: seq<Step>)
    requires Live(s, f, k) && NoJobs(s, f, None) && !Reaches(s.jobs, s.handles[f].lastJob, k)
    ensures Loses(s, more, f, k)
  {
    var s1, s2;
    more, s1 := FinishUpTo(s, [], s, f, k, |s.jobs|);
    more, s2 := EndOthers(s, more, s1, f, k, None);
    SettledIsFinished(s2, s2.handles[f].lastJob, k);
    more := FreeFile(s, more, s2, f, k);
  }

  lemma LoseIt(s: State, f: Address, k: JobId) returns (more: seq<Step>)
    requires Sound(s) && Linked(s) && IsChained(s, f, k) && !Secure(s, f, k)
    ensures Loses(s, more, f, k)
  {
    if f !in s.handles { return []; }
    assert Live(s, f, k);
    if w :| w in s.threads && !Follows(s, w, f, k) {
      more := LoseToIt(s, [], s, f, k, w);
    } else if !Sealed(s, f) {
      more := LoseToANewChain(s, f, k);
    } else {
      AllGiveUp(s, f, k);
      more := LoseWhenAllGiveUp(s, f, k);
    }
  }

  lemma {:induction false} NeverLost(s: State, more: seq<Step>, f: Address, k: JobId)
    requires Sound(s) && Linked(s) && IsChained(s, f, k) && Secure(s, f, k)
    ensures !Loses(s, more, f, k)
    decreases |more|
  {
    if IsRun(s, more, DispatchOnce) && more != [] {
      var step := more[0];
      hide Sound, Linked, Secure, Apply, Possible, Orderly, PreparedOnce;
      StepIsSound(s, step);
      StepIsLinked(s, step);
      if step == Finish(k) {
        StaysFinished(Apply(s, step), more[1..], k);
      } else {
        SecureStays(s, step, f, k);
        NeverLost(Apply(s, step), more[1..], f, k);
      }
    }
  }

  lemma {:induction false} StaysFinished(s: State, more: seq<Step>, k: JobId)
    requires k < |s.jobs| && s.jobs[k].finished && IsRun(s, more, DispatchOnce)
    ensures var s' := After(s, more, DispatchOnce); k < |s'.jobs| && s'.jobs[k].finished
    decreases |more|
  {
    hide Apply, Possible, Orderly, PreparedOnce;
    if more != [] {
      JobsGoOn(s, more[0], k);
      StaysFinished(Apply(s, more[0]), more[1..], k);
    }
  }

  // Of every state that can be reached: a job chained onto a file handle that has not finished can lose the
  // handle, in one of the ways to go on, if and only if it is not secure.
  lemma LossIsPossible(steps: seq<Step>, f: Address, k: JobId)
    requires IsRun(START, steps, DispatchOnce) && IsChained(Reached(steps, DispatchOnce), f, k)
    ensures var s := Reached(steps, DispatchOnce);
      (exists more :: Loses(s, more, f, k)) <==> !Secure(s, f, k)
  {
    ReachedIsSound(steps, DispatchOnce);
    var s := Reached(steps, DispatchOnce);
    hide Sound, Linked, Secure, Loses, IsRun, After;
    if Secure(s, f, k) {
      forall more ensures !Loses(s, more, f, k) { NeverLost(s, more, f, k); }
    } else {
      var more := LoseIt(s, f, k);
    }
  }
}
