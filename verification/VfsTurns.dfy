// Chains onto one file handle that end out of turn (src/vfs/vfs.c).  Chains whose windows do not overlap
// end in turn; a chain that ends out of turn overwrites a job that nothing else need wait for, so that the
// job can lose its file handle, but for one exception.

module VfsTurns {

  import opened VfsState
  import opened VfsSound
  import opened VfsJobs
  import opened VfsProtocol
  import opened VfsSecure
  import opened VfsLoss
  import opened Wrappers

  // -------------------------------------------------------------------------------------------
  // Chains that do not overlap
  // -------------------------------------------------------------------------------------------

  // A chain begins only when no window is open on the file handle.
  predicate Apart(s: State, step: Step) {
    step.BeginChain? && LookupOpen(s, step.id).Some? ==>
      s.handles[LookupOpen(s, step.id).value].pendingDispatches == 0
  }

  predicate AllApart(s: State, steps: seq<Step>)
    requires IsRun(s, steps, DispatchOnce)
    decreases |steps|
  {
    steps == [] || (Apart(s, steps[0]) && AllApart(Apply(s, steps[0]), steps[1..]))
  }

  // The only chain onto the file handle, and nothing has been recorded since it began.
  ghost predicate HasTurn(s: State, t: ThreadId)
    requires t in s.threads
  {
    var a := s.threads[t];
    a.Chaining? ==>
      && a.file in s.handles && s.handles[a.file].lastJob == a.chainAfter
      && (forall u :: u in s.threads && ChainsOnto(s.threads[u], a.file) ==> u == t)
  }

  ghost predicate AllHaveTurns(s: State) {
    forall t :: t in s.threads ==> HasTurn(s, t)
  }

  lemma TurnIsInTurn(s: State, step: Step)
    requires Sound(s) && Possible(s, step) && AllHaveTurns(s)
    ensures InTurn(s, step)
  {
    if step.EndChain? {
      assert ThreadOk(s, step.t) && HasTurn(s, step.t);
    }
  }

  lemma BegunHasTurn(s: State, t: ThreadId, id: Id, f: Address)
    requires Sound(s) && Possible(s, BeginChain(t, id)) && LookupOpen(s, id) == Some(f)
    requires s.handles[f].pendingDispatches == 0
    ensures var s' := Apply(s, BeginChain(t, id)); t in s'.threads ==> HasTurn(s', t)
  {
    forall u | u in s.threads ensures !ChainsOnto(s.threads[u], f) {
      if ChainsOnto(s.threads[u], f) { WindowCounts(s, u, f); }
    }
  }

  lemma ChainIsLive(s: State, t: ThreadId, f: Address)
    requires Sound(s) && Linked(s) && t in s.threads && ChainsOnto(s.threads[t], f)
    ensures IsPublished(s, f) && f in s.handles && s.handles[f].op.FileOpen? && s.handles[f].pendingDispatches > 0
  {
    assert ThreadOk(s, t) && ActivityOk(s, t);
    WindowCounts(s, t, f);
  }

  lemma TurnStays(s: State, step: Step, t: ThreadId)
    requires Sound(s) && Linked(s) && Possible(s, step) && Orderly(s, step) && AllHaveTurns(s) && Apart(s, step)
    requires t in Apply(s, step).threads
    ensures HasTurn(Apply(s, step), t)
  {
    var s' := Apply(s, step);
    hide Sound, Linked, Apply, Orderly, Possible;
    if s'.threads[t].Chaining? {
      var f := s'.threads[t].file;
      if step.BeginChain? && LookupOpen(s, step.id) == Some(f) {
        BeganBefore(s, step.t, step.id, t, f);
        BegunHasTurn(s, step.t, step.id, f);
      } else {
        TurnGoesOn(s, step, t, f);
      }
    }
  }

  lemma TurnGoesOn(s: State, step: Step, t: ThreadId, f: Address)
    requires Sound(s) && Linked(s) && Possible(s, step) && Orderly(s, step) && AllHaveTurns(s)
    requires t in Apply(s, step).threads && ChainsOnto(Apply(s, step).threads[t], f)
    requires step.BeginChain? ==> LookupOpen(s, step.id) != Some(f)
    ensures HasTurn(Apply(s, step), t)
  {
    var s' := Apply(s, step);
    hide Sound, Linked, Apply, Orderly, ChainGoesOn;
    forall u | u in s'.threads ensures ChainGoesOn(s, s', u, f) { ChainsGoOn(s, step, u, f); }
    WentOn(s, s', t, f);
    assert HasTurn(s, t);
    ChainIsLive(s, t, f);
    FileStays(s, step, f);
    if step.EndChain? { NotEnded(s, step, t, f); }
    LastIsKept(s, step, f);
    TurnFrom(s, s', t, f);
  }

  lemma WentOn(s: State, s': State, t: ThreadId, f: Address)
    requires t in s'.threads && ChainsOnto(s'.threads[t], f) && ChainGoesOn(s, s', t, f)
    ensures t in s.threads && ChainsOnto(s.threads[t], f)
  {
  }

  lemma TurnFrom(s: State, s': State, t: ThreadId, f: Address)
    requires t in s.threads && t in s'.threads && ChainsOnto(s'.threads[t], f) && ChainsOnto(s.threads[t], f)
    requires HasTurn(s, t) && (forall u :: u in s'.threads ==> ChainGoesOn(s, s', u, f))
    requires f in s.handles && f in s'.handles && SameLast(s.handles[f], s'.handles[f])
    ensures HasTurn(s', t)
  {
    assert ChainGoesOn(s, s', t, f);
  }

  lemma BeganBefore(s: State, t: ThreadId, id: Id, u: ThreadId, f: Address)
    requires Sound(s) && Possible(s, BeginChain(t, id)) && LookupOpen(s, id) == Some(f)
    requires s.handles[f].pendingDispatches == 0
    requires u in Apply(s, BeginChain(t, id)).threads && ChainsOnto(Apply(s, BeginChain(t, id)).threads[u], f)
    ensures u == t
  {
    if u in s.threads && ChainsOnto(s.threads[u], f) { WindowCounts(s, u, f); }
  }

  lemma NotEnded(s: State, step: Step, t: ThreadId, f: Address)
    requires Possible(s, step) && step.EndChain? && t in Apply(s, step).threads && t in s.threads
    requires HasTurn(s, t) && ChainsOnto(s.threads[t], f)
    ensures s.threads[step.t].file != f
  {
    assert t in s.threads - {step.t};
  }

  // A run whose chains do not overlap ends them in turn, so that every job keeps its file handle.
  lemma {:induction false} ApartIsInTurn(s: State, steps: seq<Step>)
    requires Sound(s) && Linked(s) && AllHaveTurns(s) && IsRun(s, steps, DispatchOnce) && AllApart(s, steps)
    ensures IsRun(s, steps, ChainInTurn)
    decreases |steps|
  {
    if steps != [] {
      var step := steps[0];
      hide Sound, Linked, AllHaveTurns, Apply, Possible, Orderly, PreparedOnce, InTurn, Apart;
      TurnIsInTurn(s, step);
      StepIsSound(s, step);
      StepIsLinked(s, step);
      TurnsStay(s, step);
      ApartIsInTurn(Apply(s, step), steps[1..]);
    }
  }

  lemma TurnsStay(s: State, step: Step)
    requires Sound(s) && Linked(s) && Possible(s, step) && Orderly(s, step) && AllHaveTurns(s) && Apart(s, step)
    ensures AllHaveTurns(Apply(s, step))
  {
    forall t | t in Apply(s, step).threads ensures HasTurn(Apply(s, step), t) { TurnStays(s, step, t); }
  }

  lemma RunsApartAreInTurn(steps: seq<Step>)
    requires IsRun(START, steps, DispatchOnce) && AllApart(START, steps)
    ensures IsRun(START, steps, ChainInTurn)
  {
    StartIsSound();
    ApartIsInTurn(START, steps);
  }

  // -------------------------------------------------------------------------------------------
  // Chains that end out of turn
  // -------------------------------------------------------------------------------------------

  // What can be the last job of a file handle: none, the one that opened the file, or one that is chained
  // onto it and has been recorded.
  ghost predicate Past(s: State, f: Address, x: JobId)
    requires f in s.handles
  {
    || x == 0 || x == s.handles[f].jobHandle
    || (x < |s.jobs| && s.jobs[x].file == Some(f) && s.jobs[x].window.None?)
  }

  ghost predicate JobIsPast(s: State, j: JobId)
    requires j < |s.jobs|
  {
    s.jobs[j].file.Some? && s.jobs[j].file.value in s.handles ==> Past(s, s.jobs[j].file.value, s.jobs[j].after)
  }

  ghost predicate LastIsPast(s: State, f: Address)
    requires f in s.handles
  {
    IsPublished(s, f) && s.handles[f].op.FileOpen? ==> Past(s, f, s.handles[f].lastJob)
  }

  // A job that was recorded since the chain began is none that the chain waits for.
  ghost predicate ChainIsPast(s: State, t: ThreadId)
    requires t in s.threads
  {
    var a := s.threads[t];
    a.Chaining? && a.file in s.handles ==>
      var last := s.handles[a.file].lastJob;
      && Past(s, a.file, a.chainAfter)
      && (last == a.chainAfter || Finished(s.jobs, last)
          || (!Reaches(s.jobs, a.chainAfter, last) && s.jobs[last].file == Some(a.file) && s.jobs[last].window.None?))
  }

  ghost predicate Ordered(s: State) {
    && (forall j :: 0 < j < |s.jobs| ==> JobIsPast(s, j))
    && (forall f :: f in s.handles ==> LastIsPast(s, f))
    && (forall t :: t in s.threads ==> ChainIsPast(s, t))
  }

  // Nothing that is past waits for a job whose window is still open.
  lemma {:induction false} PastMissesOpen(s: State, f: Address, x: JobId, j: JobId)
    requires Linked(s) && IsChained(s, f, j) && s.jobs[j].window.Some? && f in s.handles && Past(s, f, x)
    requires forall i :: 0 < i < |s.jobs| ==> JobIsPast(s, i)
    ensures !Reaches(s.jobs, x, j)
  {
    ChainedFacts(s, f, j);
    if Reaches(s.jobs, x, j) {
      ReachesDown(s.jobs, x, j);
      assert JobIsPast(s, x);
      PastMissesOpen(s, f, s.jobs[x].after, j);
    }
  }

  lemma PastStays(s: State, step: Step, f: Address, x: JobId)
    requires Possible(s, step) && f in s.handles && Past(s, f, x)
    requires f in Apply(s, step).handles && Apply(s, step).handles[f].jobHandle == s.handles[f].jobHandle
    ensures Past(Apply(s, step), f, x)
  {
    hide Apply;
    if x < |s.jobs| { JobsGoOn(s, step, x); }
  }

  // Of a file handle that stays, the step records a job or changes nothing.
  lemma FileGoesOn(s: State, step: Step, f: Address)
    requires Sound(s) && Linked(s) && Possible(s, step) && f in s.handles && f in Apply(s, step).handles
    requires IsPublished(s, f) && s.handles[f].op.FileOpen?
    ensures var h, h' := s.handles[f], Apply(s, step).handles[f];
      && h'.jobHandle == h.jobHandle
      && (h'.lastJob != h.lastJob ==>
            && step.EndChain? && s.threads[step.t].file == f && s.threads[step.t].job.Some?
            && h'.lastJob == Recorded(s.threads[step.t].job, s.threads[step.t].inlined))
  {
    if step.EndChain? && s.threads[step.t].file == f {
      EndedChainLast(s, step.t, f);
    } else {
      LastIsKept(s, step, f);
    }
  }

  lemma FreshlyPublished(s: State, step: Step, f: Address)
    requires Possible(s, step) && f in Apply(s, step).handles && IsPublished(Apply(s, step), f)
    ensures IsPublished(s, f) || Apply(s, step).handles[f].lastJob == Apply(s, step).handles[f].jobHandle
  {
    hide Idle, BorrowsCallerMemory, Finished, ClosedAmong, VictimsIdle, JobDone, LeaveWindow, OpensWindow;
  }

  lemma RecordedIsPast(s: State, t: ThreadId, f: Address)
    requires Sound(s) && Linked(s) && Possible(s, EndChain(t)) && s.threads[t].file == f && s.threads[t].job.Some?
    requires f in Apply(s, EndChain(t)).handles
    ensures Past(Apply(s, EndChain(t)), f, Recorded(s.threads[t].job, s.threads[t].inlined))
  {
    ChainJob(s, t);
    EndChainLeaves(s, t);
    LeaveWindowAt(s.jobs, s.threads[t].job, s.threads[t].job.value);
    hide Sound, Linked, Apply;
  }

  lemma LastStaysPast(s: State, step: Step, f: Address)
    requires Sound(s) && Linked(s) && Possible(s, step) && f in Apply(s, step).handles
    requires f in s.handles ==> LastIsPast(s, f)
    ensures LastIsPast(Apply(s, step), f)
  {
    var s' := Apply(s, step);
    if IsPublished(s', f) && s'.handles[f].op.FileOpen? {
      FreshlyPublished(s, step, f);
      if IsPublished(s, f) {
        assert f < s.nextAddress by { assert HandleOk(s, f); }
        StepKeepsNames(s, step, f);
        FileGoesOn(s, step, f);
        hide Sound, Linked, Apply, IsPublished;
        if s'.handles[f].lastJob == s.handles[f].lastJob {
          PastStays(s, step, f, s.handles[f].lastJob);
        } else {
          RecordedIsPast(s, step.t, f);
        }
      }
    }
  }

  lemma JobStaysPast(s: State, step: Step, j: JobId)
    requires Sound(s) && Linked(s) && Possible(s, step) && 0 < j < |s.jobs| && JobIsPast(s, j)
    ensures j < |Apply(s, step).jobs| && JobIsPast(Apply(s, step), j)
  {
    JobsGoOn(s, step, j);
    if s.jobs[j].file.Some? {
      var f := s.jobs[j].file.value;
      assert OpenedBefore(s, f, j) by { assert JobOk(s, j); }
      StepKeepsNames(s, step, f);
      if f in Apply(s, step).handles {
        FileGoesOn(s, step, f);
        hide Apply;
        PastStays(s, step, f, s.jobs[j].after);
      }
    }
  }

  lemma NewJobIsPast(s: State, t: ThreadId, inlined: bool)
    requires Sound(s) && Linked(s) && Possible(s, ChainSchedule(t, inlined)) && ChainIsPast(s, t)
    ensures JobIsPast(Apply(s, ChainSchedule(t, inlined)), |s.jobs|)
  {
    ChainFacts(s, t);
    var s' := Apply(s, ChainSchedule(t, inlined));
    assert s'.jobs[|s.jobs|] == Job(s.threads[t].op.value, Some(s.threads[t].file), s.threads[t].chainAfter, false,
      Some(t));
    hide Sound, Linked;
    PastStays(s, ChainSchedule(t, inlined), s.threads[t].file, s.threads[t].chainAfter);
  }

  lemma OnlyTheseMakeJobs(s: State, step: Step)
    requires Possible(s, step)
    ensures |Apply(s, step).jobs| <= |s.jobs| + 1
    ensures |Apply(s, step).jobs| == |s.jobs| + 1 ==>
      step.ChainSchedule? || (step.Schedule? && Apply(s, step).jobs[|s.jobs|].file.None?)
  {
    hide ClosedAmong, IdsOnMount, IdsOf, VictimsIdle, Victims, Reclaimable, Idle, Lookup, LookupOpen;
  }

  // A chain was under way before, or has just begun after the last job of its file handle.
  lemma ChainWasThere(s: State, step: Step, t: ThreadId)
    requires Sound(s) && Possible(s, step) && t in Apply(s, step).threads && Apply(s, step).threads[t].Chaining?
    ensures WasThere(s, step, t, Apply(s, step).threads[t])
  {
    if step.BeginChain? {
      OpenIsPublished(s, step.id);
    } else {
      hide Sound;
      ChainsGoOn(s, step, t, Apply(s, step).threads[t].file);
      hide Apply;
    }
  }

  ghost predicate WasThere(s: State, step: Step, t: ThreadId, a: Activity)
    requires a.Chaining?
  {
    || (t in s.threads && ChainsOnto(s.threads[t], a.file) && a.chainAfter == s.threads[t].chainAfter)
    || (IsPublished(s, a.file) && s.handles[a.file].op.FileOpen? && step.BeginChain?
        && a.chainAfter == s.handles[a.file].lastJob)
  }

  lemma ReachedBefore(s: State, step: Step, a: JobId, k: JobId)
    requires Possible(s, step) && a < |s.jobs| && Reaches(Apply(s, step).jobs, a, k)
    ensures Reaches(s.jobs, a, k)
  {
    var jobs' := Apply(s, step).jobs;
    JobsGoOn(s, step, a);
    forall i | 0 < i < |s.jobs|
      ensures jobs'[i].after == s.jobs[i].after && (s.jobs[i].finished ==> jobs'[i].finished)
    {
      JobsGoOn(s, step, i);
    }
    hide Apply;
    ReachesBefore(s.jobs, jobs', a, k);
  }

  // A chain that ends has a job that no other chain waits for.
  lemma RecordedIsUnreached(s: State, step: Step, t: ThreadId, f: Address)
    requires Sound(s) && Linked(s) && Ordered(s) && Possible(s, step) && step.EndChain?
    requires s.threads[step.t].file == f && s.threads[step.t].job.Some? && f in s.handles
    requires t in s.threads && ChainsOnto(s.threads[t], f)
    ensures var s' := Apply(s, step);
      var last := Recorded(s.threads[step.t].job, s.threads[step.t].inlined);
      && last < |s'.jobs|
      && (Finished(s'.jobs, last)
          || (!Reaches(s'.jobs, s.threads[t].chainAfter, last)
              && s'.jobs[last].file == Some(f) && s'.jobs[last].window.None?))
  {
    var i := s.threads[step.t].job.value;
    ChainJob(s, step.t);
    ChainFacts(s, t);
    SoundJobs(s);
    JobsGoOn(s, step, 0);
    JobsGoOn(s, step, i);
    EndChainLeaves(s, step.t);
    LeaveWindowAt(s.jobs, s.threads[step.t].job, i);
    assert ChainIsPast(s, t);
    hide Sound, Linked, Apply, EndChainSection, LeaveWindow;
    if !s.jobs[i].finished {
      PastMissesOpen(s, f, s.threads[t].chainAfter, i);
      if Reaches(Apply(s, step).jobs, s.threads[t].chainAfter, i) {
        ReachedBefore(s, step, s.threads[t].chainAfter, i);
      }
    }
  }

  lemma LastIsThere(s: State, t: ThreadId, f: Address)
    requires Sound(s) && Linked(s) && t in s.threads && ChainsOnto(s.threads[t], f)
    ensures IsPublished(s, f) && f in s.handles && s.handles[f].op.FileOpen? && f < s.nextAddress
    ensures s.handles[f].lastJob < |s.jobs| && s.threads[t].chainAfter < |s.jobs|
  {
    ChainFacts(s, t);
    assert ActivityOk(s, t) && HandleOk(s, f);
  }

  lemma UnreachedStays(s: State, step: Step, t: ThreadId, f: Address)
    requires Sound(s) && Linked(s) && Possible(s, step) && t in s.threads && ChainsOnto(s.threads[t], f)
    requires ChainIsPast(s, t) && f in s.handles
    ensures var last := s.handles[f].lastJob;
      var s' := Apply(s, step);
      last < |s.jobs| <= |s'.jobs|
      && (last == s.threads[t].chainAfter || Finished(s'.jobs, last)
          || (!Reaches(s'.jobs, s.threads[t].chainAfter, last)
              && s'.jobs[last].file == Some(f) && s'.jobs[last].window.None?))
  {
    var last := s.handles[f].lastJob;
    LastIsThere(s, t, f);
    JobsGoOn(s, step, last);
    hide Sound, Linked, Apply;
    if Reaches(Apply(s, step).jobs, s.threads[t].chainAfter, last) {
      ReachedBefore(s, step, s.threads[t].chainAfter, last);
    }
  }

  lemma ChainStaysPast(s: State, step: Step, t: ThreadId)
    requires Sound(s) && Linked(s) && Ordered(s) && Possible(s, step) && t in Apply(s, step).threads
    ensures ChainIsPast(Apply(s, step), t)
  {
    var s' := Apply(s, step);
    var a := s'.threads[t];
    if a.Chaining? && a.file in s'.handles {
      var f := a.file;
      ChainWasThere(s, step, t);
      if t in s.threads && ChainsOnto(s.threads[t], f) && a.chainAfter == s.threads[t].chainAfter {
        assert ChainIsPast(s, t);
        LastIsThere(s, t, f);
        FileGoesOn(s, step, f);
        PastStays(s, step, f, a.chainAfter);
        UnreachedStays(s, step, t, f);
        hide Sound, Linked, Ordered, Apply, Past;
        if s'.handles[f].lastJob != s.handles[f].lastJob { RecordedIsUnreached(s, step, t, f); }
      } else {
        BegunIsPast(s, step, t);
      }
    }
  }

  lemma BegunIsPast(s: State, step: Step, t: ThreadId)
    requires Sound(s) && Linked(s) && Ordered(s) && Possible(s, step) && step.BeginChain?
    requires t in Apply(s, step).threads && Apply(s, step).threads[t].Chaining?
    requires var a := Apply(s, step).threads[t];
      IsPublished(s, a.file) && s.handles[a.file].op.FileOpen? && a.chainAfter == s.handles[a.file].lastJob
    ensures ChainIsPast(Apply(s, step), t)
  {
    var f := Apply(s, step).threads[t].file;
    assert LastIsPast(s, f);
    if f in Apply(s, step).handles {
      FileGoesOn(s, step, f);
      hide Sound, Linked, Ordered, Apply;
      PastStays(s, step, f, s.handles[f].lastJob);
    }
  }

  lemma StepIsOrdered(s: State, step: Step)
    requires Sound(s) && Linked(s) && Ordered(s) && Possible(s, step)
    ensures Ordered(Apply(s, step))
  {
    var s' := Apply(s, step);
    OnlyTheseMakeJobs(s, step);
    assert step.ChainSchedule? ==> ChainIsPast(s, step.t);
    forall j | 0 < j < |s'.jobs| ensures JobIsPast(s', j) {
      if j < |s.jobs| {
        JobStaysPast(s, step, j);
      } else if step.ChainSchedule? {
        NewJobIsPast(s, step.t, step.inlined);
      }
    }
    forall f | f in s'.handles ensures LastIsPast(s', f) { LastStaysPast(s, step, f); }
    hide Apply, Sound, Linked;
    forall t | t in s'.threads ensures ChainIsPast(s', t) { ChainStaysPast(s, step, t); }
  }

  lemma {:induction false} RunIsOrdered(s: State, steps: seq<Step>)
    requires Sound(s) && Linked(s) && Ordered(s) && IsRun(s, steps, DispatchOnce)
    ensures Ordered(After(s, steps, DispatchOnce))
    decreases |steps|
  {
    hide Sound, Linked, Ordered, Apply, Possible, Orderly, PreparedOnce;
    if steps != [] {
      StepIsSound(s, steps[0]);
      StepIsLinked(s, steps[0]);
      StepIsOrdered(s, steps[0]);
      RunIsOrdered(Apply(s, steps[0]), steps[1..]);
    }
  }

  // A chain ends out of turn: over a last job that has not finished and is not the one it was chained after.
  // The overwritten job can then lose its file handle if and only if it is not so that no further chain can
  // begin, all chains under way wait for it, and one of them has a job to record.
  lemma OverwritingLoses(steps: seq<Step>, t: ThreadId)
    requires IsRun(START, steps, DispatchOnce)
    requires Possible(Reached(steps, DispatchOnce), EndChain(t)) && !InTurn(Reached(steps, DispatchOnce), EndChain(t))
    ensures var s := Reached(steps, DispatchOnce);
      var s' := Apply(s, EndChain(t));
      var f := s.threads[t].file;
      && f in s.handles && f in s'.handles
      && var last := s.handles[f].lastJob;
      && IsChained(s', f, last)
      && ((exists more :: Loses(s', more, f, last)) <==>
            !(Sealed(s', f) && AllFollow(s', f, last) && exists u :: u in s'.threads && WillRecord(s', u, f, last)))
  {
    StartIsSound();
    RunIsOrdered(START, steps);
    ReachedIsSound(steps, DispatchOnce);
    var s := Reached(steps, DispatchOnce);
    var f := s.threads[t].file;
    OverwrittenIsChained(s, t);
    ReachedOn(steps, EndChain(t));
    hide Sound, Linked, Ordered, Apply, IsRun, After;
    LossIsPossible(steps + [EndChain(t)], f, s.handles[f].lastJob);
  }

  lemma ReachedOn(steps: seq<Step>, step: Step)
    requires IsRun(START, steps, DispatchOnce) && Possible(Reached(steps, DispatchOnce), step) && step.EndChain?
    ensures IsRun(START, steps + [step], DispatchOnce)
    ensures Reached(steps + [step], DispatchOnce) == Apply(Reached(steps, DispatchOnce), step)
  {
    RunSnoc(START, steps, step, DispatchOnce);
  }

  lemma OverwrittenIsChained(s: State, t: ThreadId)
    requires Sound(s) && Linked(s) && Ordered(s) && Possible(s, EndChain(t)) && !InTurn(s, EndChain(t))
    ensures var s' := Apply(s, EndChain(t));
      var f := s.threads[t].file;
      && f in s.handles && f in s'.handles
      && var last := s.handles[f].lastJob;
      && IsChained(s', f, last) && !RunsInline(s', last)
      && !Reaches(s'.jobs, s'.handles[f].lastJob, last)
  {
    var s' := Apply(s, EndChain(t));
    var a := s.threads[t];
    var f := a.file;
    LastIsThere(s, t, f);
    OpenIsPublished(s, a.id);
    ChainFacts(s, t);
    assert ChainIsPast(s, t);
    var last := s.handles[f].lastJob;
    JobsGoOn(s, EndChain(t), last);
    EndedChainLast(s, t, f);
    ChainJob(s, t);
    SoundJobs(s);
    hide Sound, Linked, Ordered, Apply;
    var i := a.job.value;
    assert !Reaches(s.jobs, Recorded(a.job, a.inlined), last) by { assert s.jobs[last].window.None?; }
    if Reaches(s'.jobs, s'.handles[f].lastJob, last) { ReachedBefore(s, EndChain(t), s'.handles[f].lastJob, last); }
  }
}
