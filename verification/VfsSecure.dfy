// When a job that is chained onto a file handle can no longer lose it (src/vfs/vfs.c), however the
// threads go on.  VfsLoss shows that it can in every other case.

module VfsSecure {

  import opened VfsState
  import opened VfsSound
  import opened VfsJobs
  import opened Wrappers

  ghost predicate ChainsOnto(a: Activity, f: Address) {
    a.Chaining? && a.file == f
  }

  // No further chain onto the file handle can begin.
  ghost predicate Sealed(s: State, f: Address)
    requires f in s.handles
  {
    s.handles[f].closed || !OnListedMount(s, f)
  }

  // The job runs inline on the thread that chains it: the window stays open until it is done.
  ghost predicate RunsInline(s: State, k: JobId)
    requires k < |s.jobs|
  {
    s.jobs[k].window.Some? && s.jobs[k].window.value in s.threads
    && var a := s.threads[s.jobs[k].window.value]; a.Chaining? && a.inlined
  }

  // The chain will record a job that waits for job k, or k itself.
  ghost predicate WillRecord(s: State, t: ThreadId, f: Address, k: JobId)
    requires t in s.threads
  {
    var a := s.threads[t];
    ChainsOnto(a, f) && a.job.Some? && !a.inlined && Reaches(s.jobs, a.job.value, k)
  }

  // The job that the chain makes, or has made, waits for job k.
  ghost predicate Follows(s: State, t: ThreadId, f: Address, k: JobId)
    requires t in s.threads
  {
    var a := s.threads[t];
    ChainsOnto(a, f) && a.job != Some(k) ==> Reaches(s.jobs, a.chainAfter, k)
  }

  ghost predicate AllFollow(s: State, f: Address, k: JobId) {
    forall t :: t in s.threads ==> Follows(s, t, f, k)
  }

  // The last job of the file handle waits for job k; or none can be chained any more, and one of the
  // chains that are under way will make it so.
  ghost predicate LastFollows(s: State, f: Address, k: JobId)
    requires f in s.handles
  {
    Reaches(s.jobs, s.handles[f].lastJob, k) || (Sealed(s, f) && exists t :: t in s.threads && WillRecord(s, t, f, k))
  }

  ghost predicate Secure(s: State, f: Address, k: JobId)
    requires k < |s.jobs|
  {
    f in s.handles && (RunsInline(s, k) || (AllFollow(s, f, k) && LastFollows(s, f, k)))
  }

  // An unfinished job that is chained onto file handle f.
  ghost predicate IsChained(s: State, f: Address, k: JobId) {
    0 < k < |s.jobs| && !s.jobs[k].finished && s.jobs[k].file == Some(f)
  }

  lemma ChainedFacts(s: State, f: Address, k: JobId)
    requires Linked(s) && IsChained(s, f, k)
    ensures f < s.nextAddress
    ensures f in s.handles ==> IsPublished(s, f) && s.handles[f].op.FileOpen? && s.handles[f].jobHandle < k
    ensures RunsInline(s, k) ==>
      var a := s.threads[s.jobs[k].window.value]; ChainsOnto(a, f) && a.job == Some(k)
  {
    assert JobOk(s, k);
  }

  // A job that waits for an unfinished one is unfinished.
  lemma WaiterReaches(s: State, i: JobId, k: JobId)
    requires JobsOk(s.jobs, s.nextAddress) && 0 < i < |s.jobs| && JobOk(s, i) && Reaches(s.jobs, s.jobs[i].after, k)
    ensures Reaches(s.jobs, i, k)
  {
  }

  lemma ChainJob(s: State, t: ThreadId)
    requires Sound(s) && Linked(s) && t in s.threads && s.threads[t].Chaining? && s.threads[t].job.Some?
    ensures var i := s.threads[t].job.value;
      && 0 < i < |s.jobs| && JobOk(s, i) && s.jobs[i].after == s.threads[t].chainAfter
      && s.jobs[i].file == Some(s.threads[t].file) && s.jobs[i].window == Some(t)
  {
    assert ThreadOk(s, t) && ActivityOk(s, t);
  }

  // While it is secure, the file handle is busy: it is not freed.
  lemma SecureIsBusy(s: State, f: Address, k: JobId)
    requires Sound(s) && Linked(s) && IsChained(s, f, k) && Secure(s, f, k)
    ensures s.handles[f].pendingDispatches > 0 || !Idle(s.jobs, s.handles[f])
  {
    if RunsInline(s, k) {
      ChainedFacts(s, f, k);
      WindowCounts(s, s.jobs[k].window.value, f);
    } else if !Reaches(s.jobs, s.handles[f].lastJob, k) {
      var t :| t in s.threads && WillRecord(s, t, f, k);
      WindowCounts(s, t, f);
    }
  }

  // -------------------------------------------------------------------------------------------
  // Steps
  // -------------------------------------------------------------------------------------------

  lemma JobsGoOn(s: State, step: Step, i: JobId)
    requires Possible(s, step) && i < |s.jobs|
    ensures var s' := Apply(s, step);
      && |s.jobs| <= |s'.jobs| && s'.jobs[i].after == s.jobs[i].after && s'.jobs[i].file == s.jobs[i].file
      && (s'.jobs[i].finished <==> s.jobs[i].finished || step == Finish(i))
      && (s.jobs[i].window.None? ==> s'.jobs[i].window.None?)
  {
    hide ClosedAmong, IdsOnMount, IdsOf, VictimsIdle, Victims, Reclaimable, Idle, Lookup, LookupOpen, LeaveWindow;
    match step
    case Publish(t, _) => LeaveWindowAt(s.jobs, s.threads[t].job, i);
    case EndDispatch(t, _) => LeaveWindowAt(s.jobs, s.threads[t].job, i);
    case EndChain(t) => LeaveWindowAt(s.jobs, s.threads[t].job, i);
    case _ =>
  }

  lemma ReachGoesOn(s: State, step: Step, a: JobId, k: JobId)
    requires Possible(s, step) && Reaches(s.jobs, a, k) && step != Finish(k)
    ensures Reaches(Apply(s, step).jobs, a, k)
  {
    if step.Finish? {
      FinishKeepsReach(s.jobs, a, k, step.job);
    } else {
      forall i | 0 < i < |s.jobs|
        ensures |s.jobs| <= |Apply(s, step).jobs| && Apply(s, step).jobs[i].after == s.jobs[i].after
        ensures Apply(s, step).jobs[i].finished == s.jobs[i].finished
      {
        JobsGoOn(s, step, i);
      }
      hide Apply;
      ReachesAlike(s.jobs, Apply(s, step).jobs, a, k);
    }
  }

  // What frees handles frees only idle ones.
  lemma FileStays(s: State, step: Step, f: Address)
    requires Sound(s) && Possible(s, step) && Orderly(s, step) && f in s.handles && IsPublished(s, f)
    requires s.handles[f].pendingDispatches > 0 || !Idle(s.jobs, s.handles[f])
    ensures f in Apply(s, step).handles
  {
    hide HandlesOk, IdsDiffer, JobsOk, PendingOk, ClosedAmong, HooksOk, ThreadsOk, PrivateToOne, LeaveWindow, Recorded;
    match step
    case Close(id, _) => OpenIsPublished(s, id);
    case Reclaim => ReclaimStepIsSound(s);
    case MountFree(t) => MountFreeIsSound(s, t);
    case _ =>
  }

  // The steps that do not change the last job of the file handle.
  ghost predicate SameLast(h: Handle, h': Handle) {
    h'.jobHandle == h.jobHandle && h'.lastJob == h.lastJob && h'.mount == h.mount && (h.closed ==> h'.closed)
  }

  lemma PublishKeepsLast(s: State, t: ThreadId, inlined: bool, f: Address)
    requires Sound(s) && Possible(s, Publish(t, inlined)) && IsPublished(s, f)
    ensures f in Apply(s, Publish(t, inlined)).handles && Apply(s, Publish(t, inlined)).handles[f] == s.handles[f]
  {
    assert ThreadOk(s, t);
  }

  lemma EndDispatchKeepsLast(s: State, t: ThreadId, inlined: bool, f: Address)
    requires Linked(s) && Possible(s, EndDispatch(t, inlined)) && f in s.handles && s.handles[f].op.FileOpen?
    ensures var s' := Apply(s, EndDispatch(t, inlined)); f in s'.handles && s'.handles[f] == s.handles[f]
  {
    assert ActivityOk(s, t);
  }

  lemma QuietKeepsLast(s: State, step: Step, f: Address)
    requires Possible(s, step) && TouchesNoFile(step) && f in s.handles && f < s.nextAddress
    ensures f in Apply(s, step).handles && SameLast(s.handles[f], Apply(s, step).handles[f])
  {
  }

  lemma FreeingKeepsLast(s: State, step: Step, f: Address)
    requires Possible(s, step) && f in s.handles && f in Apply(s, step).handles
    requires step.Close? || step.Reclaim? || step.MountFree? || step.Finish?
    ensures SameLast(s.handles[f], Apply(s, step).handles[f])
  {
    hide Idle, ClosedAmong, IdsOf, Reclaimable, Victims;
  }

  lemma LastIsKept(s: State, step: Step, f: Address)
    requires Sound(s) && Linked(s) && Possible(s, step) && f in s.handles && f in Apply(s, step).handles
    requires IsPublished(s, f) && s.handles[f].op.FileOpen?
    requires step.EndChain? ==> s.threads[step.t].file != f
    ensures SameLast(s.handles[f], Apply(s, step).handles[f])
  {
    assert HandleOk(s, f);
    if step.Publish? { PublishKeepsLast(s, step.t, step.inlined, f); }
    else if step.EndDispatch? { EndDispatchKeepsLast(s, step.t, step.inlined, f); }
    else if step.EndChain? { EndChainKeepsLast(s, step.t, f); }
    else {
      hide Sound, Linked, Apply, SameLast;
      if TouchesNoFile(step) { QuietKeepsLast(s, step, f); } else { FreeingKeepsLast(s, step, f); }
    }
  }

  lemma EndChainKeepsLast(s: State, t: ThreadId, f: Address)
    requires Sound(s) && Possible(s, EndChain(t)) && IsPublished(s, f) && f != s.threads[t].file
    ensures f in Apply(s, EndChain(t)).handles && Apply(s, EndChain(t)).handles[f] == s.handles[f]
  {
    EndChainKeepsPublished(s, t, f);
  }

  lemma MountsShrink(s: State, step: Step, m: MountId)
    requires Possible(s, step) && m in s.mounts && m in Apply(s, step).mounts && Apply(s, step).mounts[m].Listed?
    ensures s.mounts[m].Listed?
  {
  }

  lemma SealedStays(s: State, step: Step, f: Address)
    requires Sound(s) && Possible(s, step) && f in s.handles && f in Apply(s, step).handles
    requires SameLast(s.handles[f], Apply(s, step).handles[f])
    ensures Sealed(s, f) ==> Sealed(Apply(s, step), f)
  {
    assert HandleOk(s, f);
    hide Sound, HandleOk, Apply;
    if OnListedMount(Apply(s, step), f) { MountsShrink(s, step, s.handles[f].mount); }
  }

  // A chain onto f goes on as it is, but for a job that it makes; and a new one waits for the last job.
  ghost predicate ChainGoesOn(s: State, s': State, t: ThreadId, f: Address)
    requires t in s'.threads
  {
    ChainsOnto(s'.threads[t], f) ==>
      var a' := s'.threads[t];
      && t in s.threads && ChainsOnto(s.threads[t], f) && a'.chainAfter == s.threads[t].chainAfter
      && (a'.job != s.threads[t].job ==> s.threads[t].job.None? && a'.job == Some(|s.jobs|))
  }

  lemma ChainsGoOn(s: State, step: Step, t: ThreadId, f: Address)
    requires Possible(s, step) && t in Apply(s, step).threads
    requires step.BeginChain? ==> LookupOpen(s, step.id) != Some(f)
    ensures ChainGoesOn(s, Apply(s, step), t, f)
  {
    hide ClosedAmong, IdsOnMount, IdsOf, VictimsIdle, Victims, Reclaimable, Idle, Finished, BorrowsCallerMemory,
      JobDone, Lookup, LookupOpen, LeaveWindow, Recorded;
  }

  lemma JobStaysInWindow(s: State, step: Step, t: ThreadId, f: Address)
    requires Possible(s, step) && t in s.threads && ChainsOnto(s.threads[t], f) && s.threads[t].job.Some?
    requires step.EndChain? ==> step.t != t
    ensures var s' := Apply(s, step);
      && t in s'.threads && ChainsOnto(s'.threads[t], f)
      && s'.threads[t].job == s.threads[t].job && s'.threads[t].inlined == s.threads[t].inlined
  {
    hide ClosedAmong, IdsOnMount, IdsOf, VictimsIdle, Victims, Reclaimable, Idle, Finished, BorrowsCallerMemory,
      JobDone, Lookup, LookupOpen, LeaveWindow, Recorded;
  }

  lemma FollowsStays(s: State, step: Step, t: ThreadId, f: Address, k: JobId)
    requires Possible(s, step) && IsChained(s, f, k) && step != Finish(k)
    requires AllFollow(s, f, k) && t in Apply(s, step).threads && ChainGoesOn(s, Apply(s, step), t, f)
    ensures Follows(Apply(s, step), t, f, k)
  {
    hide Apply, Reaches;
    if ChainsOnto(Apply(s, step).threads[t], f) && Apply(s, step).threads[t].job != Some(k) {
      assert Follows(s, t, f, k);
      ReachGoesOn(s, step, s.threads[t].chainAfter, k);
    }
  }

  lemma AllFollowStays(s: State, step: Step, f: Address, k: JobId)
    requires Possible(s, step) && IsChained(s, f, k) && step != Finish(k) && AllFollow(s, f, k)
    requires step.BeginChain? ==> LookupOpen(s, step.id) != Some(f)
    ensures AllFollow(Apply(s, step), f, k)
  {
    hide Apply, Follows, IsChained, ChainGoesOn;
    forall t | t in Apply(s, step).threads ensures Follows(Apply(s, step), t, f, k) {
      ChainsGoOn(s, step, t, f);
      FollowsStays(s, step, t, f, k);
    }
  }

  lemma WillRecordStays(s: State, step: Step, t: ThreadId, f: Address, k: JobId)
    requires Possible(s, step) && step != Finish(k) && t in s.threads && WillRecord(s, t, f, k)
    requires step.EndChain? ==> step.t != t
    ensures t in Apply(s, step).threads && WillRecord(Apply(s, step), t, f, k)
  {
    hide Apply, Reaches;
    JobStaysInWindow(s, step, t, f);
    ReachGoesOn(s, step, s.threads[t].job.value, k);
  }

  lemma LastFollowsStays(s: State, step: Step, f: Address, k: JobId)
    requires Sound(s) && Linked(s) && Possible(s, step) && IsChained(s, f, k) && step != Finish(k)
    requires f in s.handles && f in Apply(s, step).handles && LastFollows(s, f, k)
    requires step.EndChain? ==> s.threads[step.t].file != f
    ensures LastFollows(Apply(s, step), f, k)
  {
    ChainedFacts(s, f, k);
    LastIsKept(s, step, f);
    SealedStays(s, step, f);
    hide Sound, Linked, Apply, Sealed, IsPublished, Reaches;
    if Reaches(s.jobs, s.handles[f].lastJob, k) {
      ReachGoesOn(s, step, s.handles[f].lastJob, k);
    } else {
      var t :| t in s.threads && WillRecord(s, t, f, k);
      WillRecordStays(s, step, t, f, k);
    }
  }

  lemma OwnWindow(s: State, u: ThreadId, k: JobId)
    requires Linked(s) && u in s.threads && JobOf(s.threads[u]) == Some(k) && k < |s.jobs|
    ensures s.jobs[k].window == Some(u) && (s.jobs[k].file.Some? ==> s.threads[u].Chaining?)
  {
    assert ActivityOk(s, u);
  }

  lemma WindowStays(s: State, step: Step, f: Address, k: JobId)
    requires Linked(s) && Possible(s, step) && IsChained(s, f, k) && s.jobs[k].window.Some?
    requires step.EndChain? ==> s.jobs[k].window != Some(step.t)
    ensures k < |Apply(s, step).jobs| && Apply(s, step).jobs[k].window == s.jobs[k].window
  {
    hide ClosedAmong, IdsOnMount, IdsOf, VictimsIdle, Victims, Reclaimable, Idle, Lookup, LookupOpen, LeaveWindow;
    match step
    case Publish(u, _) =>
      if s.threads[u].job == Some(k) { OwnWindow(s, u, k); }
      LeaveWindowAt(s.jobs, s.threads[u].job, k);
    case EndDispatch(u, _) =>
      if s.threads[u].job == Some(k) { OwnWindow(s, u, k); }
      LeaveWindowAt(s.jobs, s.threads[u].job, k);
    case EndChain(u) =>
      if s.threads[u].job == Some(k) { OwnWindow(s, u, k); }
      LeaveWindowAt(s.jobs, s.threads[u].job, k);
    case _ =>
  }

  lemma RunsInlineStays(s: State, step: Step, f: Address, k: JobId)
    requires Linked(s) && Possible(s, step) && IsChained(s, f, k) && step != Finish(k) && RunsInline(s, k)
    ensures k < |Apply(s, step).jobs| && RunsInline(Apply(s, step), k)
  {
    ChainedFacts(s, f, k);
    hide Linked, Apply;
    WindowStays(s, step, f, k);
    JobStaysInWindow(s, step, s.jobs[k].window.value, f);
  }

  // A chain onto the file that ends while job k is safe records a job that waits for it.
  lemma EndedChainFollows(s: State, t: ThreadId, f: Address, k: JobId)
    requires Sound(s) && Linked(s) && Possible(s, EndChain(t)) && IsChained(s, f, k)
    requires s.threads[t].file == f && f in s.handles && !RunsInline(s, k) && Follows(s, t, f, k)
    ensures s.threads[t].job.Some? ==> Reaches(s.jobs, Recorded(s.threads[t].job, s.threads[t].inlined), k)
  {
    var a := s.threads[t];
    if a.job.Some? {
      ChainJob(s, t);
      SoundJobs(s);
      if a.job.value != k { WaiterReaches(s, a.job.value, k); }
    }
  }

  lemma EndedChainLast(s: State, t: ThreadId, f: Address)
    requires Sound(s) && Possible(s, EndChain(t)) && s.threads[t].file == f
    ensures var s' := Apply(s, EndChain(t));
      var a := s.threads[t];
      && f in s.handles && f in s'.handles && s'.handles[f] == FileAfter(s.handles[f], a.job, a.inlined)
      && (Sealed(s, f) ==> Sealed(s', f))
  {
    EndChainResult(s, t);
  }

  lemma EndChainKeepsFollower(s: State, t: ThreadId, f: Address, k: JobId)
    requires Sound(s) && Linked(s) && Possible(s, EndChain(t)) && IsChained(s, f, k)
    requires s.threads[t].file == f && f in s.handles && !RunsInline(s, k) && Follows(s, t, f, k)
      && LastFollows(s, f, k)
    ensures f in Apply(s, EndChain(t)).handles && LastFollows(Apply(s, EndChain(t)), f, k)
  {
    var a := s.threads[t];
    EndedChainFollows(s, t, f, k);
    EndedChainLast(s, t, f);
    hide Sound, Linked, Apply, Sealed, Follows, Reaches;
    if a.job.Some? {
      ReachGoesOn(s, EndChain(t), Recorded(a.job, a.inlined), k);
    } else if Reaches(s.jobs, s.handles[f].lastJob, k) {
      ReachGoesOn(s, EndChain(t), s.handles[f].lastJob, k);
    } else {
      var u :| u in s.threads && WillRecord(s, u, f, k);
      WillRecordStays(s, EndChain(t), u, f, k);
    }
  }

  // A chain that begins waits for the last job, which waits for job k: the file handle is not sealed.
  lemma BegunChainFollows(s: State, t: ThreadId, id: Id, f: Address, k: JobId)
    requires Possible(s, BeginChain(t, id)) && Orderly(s, BeginChain(t, id)) && LookupOpen(s, id) == Some(f)
    requires IsChained(s, f, k) && AllFollow(s, f, k) && LastFollows(s, f, k)
    ensures AllFollow(Apply(s, BeginChain(t, id)), f, k)
  {
    var s' := Apply(s, BeginChain(t, id));
    forall u | u in s'.threads ensures Follows(s', u, f, k) {
      if u in s.threads { assert Follows(s, u, f, k); }
    }
  }

  // Whatever step is taken, a job that cannot lose its file handle still cannot.
  lemma SecureStays(s: State, step: Step, f: Address, k: JobId)
    requires Sound(s) && Linked(s) && Allowed(s, step, DispatchOnce)
    requires IsChained(s, f, k) && step != Finish(k) && Secure(s, f, k)
    ensures IsChained(Apply(s, step), f, k) && Secure(Apply(s, step), f, k)
  {
    SecureIsBusy(s, f, k);
    ChainedFacts(s, f, k);
    FileStays(s, step, f);
    JobsGoOn(s, step, k);
    hide Sound, Linked, Apply, Orderly, Possible, PreparedOnce, LastFollows, AllFollow, RunsInline, LookupOpen;
    if RunsInline(s, k) {
      RunsInlineStays(s, step, f, k);
    } else if step.EndChain? && s.threads[step.t].file == f {
      assert Follows(s, step.t, f, k) by { ThreadFollows(s, step.t, f, k); }
      EndChainKeepsFollower(s, step.t, f, k);
      AllFollowStays(s, step, f, k);
    } else {
      LastFollowsStays(s, step, f, k);
      if step.BeginChain? && LookupOpen(s, step.id) == Some(f) {
        BegunChainFollows(s, step.t, step.id, f, k);
      } else {
        AllFollowStays(s, step, f, k);
      }
    }
  }

  lemma ThreadFollows(s: State, t: ThreadId, f: Address, k: JobId)
    requires AllFollow(s, f, k) && t in s.threads
    ensures Follows(s, t, f, k)
  {
  }
}
