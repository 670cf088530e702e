// What the handle protocol promises of every run (src/vfs/vfs.c, src/vfs/vfs_internal.h).

module VfsProtocol {

  import opened VfsState
  import opened VfsSound
  import opened VfsJobs
  import opened Wrappers

  // What a run keeps, by how far its callers are relied on.
  ghost predicate Inv(s: State, care: Care) {
    Sound(s) && (!care.Loose? ==> Linked(s)) && (care.ChainInTurn? ==> Kept(s))
  }

  lemma StepKeepsInv(s: State, step: Step, care: Care)
    requires Inv(s, care) && Allowed(s, step, care)
    ensures Inv(Apply(s, step), care)
  {
    hide Sound, Linked, Kept, Apply, Possible, Orderly, PreparedOnce, InTurn;
    StepIsSound(s, step);
    if !care.Loose? { StepIsLinked(s, step); }
    if care.ChainInTurn? { StepKeepsFiles(s, step); }
  }

  lemma {:induction false} RunKeepsInv(s: State, steps: seq<Step>, care: Care)
    requires Inv(s, care) && IsRun(s, steps, care)
    ensures Inv(After(s, steps, care), care)
    decreases |steps|
  {
    hide Inv, Apply, Possible, Orderly, PreparedOnce, InTurn;
    if steps != [] {
      StepKeepsInv(s, steps[0], care);
      RunKeepsInv(Apply(s, steps[0]), steps[1..], care);
    }
  }

  lemma {:induction false} RunSnoc(s: State, steps: seq<Step>, step: Step, care: Care)
    requires IsRun(s, steps, care) && Allowed(After(s, steps, care), step, care)
    ensures IsRun(s, steps + [step], care)
    ensures After(s, steps + [step], care) == Apply(After(s, steps, care), step)
    decreases |steps|
  {
    hide Apply, Possible, Orderly, PreparedOnce, InTurn;
    if steps == [] {
      assert [step][1..] == [];
    } else {
      RunSnoc(Apply(s, steps[0]), steps[1..], step, care);
      assert (steps + [step])[1..] == steps[1..] + [step];
    }
  }

  ghost predicate Leads(steps: seq<Step>, s: State, care: Care) {
    IsRun(START, steps, care) && After(START, steps, care) == s
  }

  lemma LeadsOn(steps: seq<Step>, s: State, care: Care, step: Step, s': State)
    requires Leads(steps, s, care) && Allowed(s, step, care) && Apply(s, step) == s'
    ensures Leads(steps + [step], s', care)
  {
    RunSnoc(START, steps, step, care);
  }

  function Reached(steps: seq<Step>, care: Care): State
    requires IsRun(START, steps, care)
  {
    After(START, steps, care)
  }

  lemma ReachedIsSound(steps: seq<Step>, care: Care)
    requires IsRun(START, steps, care)
    ensures Inv(Reached(steps, care), care)
  {
    StartIsSound();
    RunKeepsInv(START, steps, care);
  }

  // No handle is freed while its own job is unfinished; nor, when chains end in turn, while a job that is
  // chained onto it is: that job still finds its file handle in the map.
  lemma JobsKeepTheirHandles(steps: seq<Step>, care: Care, j: JobId)
    requires !care.Loose? && IsRun(START, steps, care)
    requires 0 < j < |Reached(steps, care).jobs| && !Reached(steps, care).jobs[j].finished
    ensures var s := Reached(steps, care);
      var job := s.jobs[j];
      && job.handle in s.handles && job.handle !in s.freed
      && (care.ChainInTurn? && job.file.Some? ==>
            && job.file.value in s.handles && job.file.value !in s.freed
            && Lookup(s, s.handles[job.file.value].id) == job.file)
  {
    ReachedIsSound(steps, care);
    var s := Reached(steps, care);
    var job := s.jobs[j];
    assert JobOk(s, j);
    if job.window.Some? { assert ThreadOk(s, job.window.value); }
    assert HandleOk(s, job.handle);
    if care.ChainInTurn? && job.file.Some? {
      assert FileOk(s, j);
      assert HandleOk(s, job.file.value);
    }
  }

  // Nor while a scheduling window is open on it, whatever the callers' windows do; the count on the handle
  // is the number of open windows.
  lemma WindowsKeepTheirHandles(steps: seq<Step>, t: ThreadId, p: Address)
    requires IsRun(START, steps, Loose)
    requires t in Reached(steps, Loose).threads && OpensWindow(Reached(steps, Loose).threads[t], p)
    ensures var s := Reached(steps, Loose);
      && p in s.handles && p !in s.freed && Lookup(s, s.handles[p].id) == Some(p)
      && s.handles[p].pendingDispatches == |Windows(s.threads, p)| > 0
  {
    ReachedIsSound(steps, Loose);
    var s := Reached(steps, Loose);
    assert ThreadOk(s, t);
    assert HandleOk(s, p);
    WindowCounts(s, t, p);
  }

  lemma CountersAreExact(steps: seq<Step>)
    requires IsRun(START, steps, Loose)
    ensures var s := Reached(steps, Loose);
      && s.closedCount == |set p | p in s.handles && s.handles[p].closed|
      && (forall p :: p in s.handles ==> s.handles[p].pendingDispatches == |Windows(s.threads, p)|)
      && (forall p :: p in s.handles && s.handles[p].closed ==>
            IsPublished(s, p) && !s.handles[p].op.FileRead? && !s.handles[p].op.FileWrite?)
  {
    ReachedIsSound(steps, Loose);
    var s := Reached(steps, Loose);
    assert ClosedAmong(s.handles, s.handles.Keys) == set p | p in s.handles && s.handles[p].closed;
    forall p | p in s.handles ensures s.handles[p].closed ==>
      IsPublished(s, p) && !BorrowsCallerMemory(s.handles[p].op) {
      assert HandleOk(s, p);
    }
  }

  // A release hook runs only for a freed handle, at most once, and is owed until it has run.
  lemma HooksRunOnce(steps: seq<Step>, p: Address)
    requires IsRun(START, steps, Loose)
    ensures var s := Reached(steps, Loose);
      && s.released[p] <= 1
      && (p in s.freed <==> p in s.owed || s.released[p] == 1)
      && (p in s.owed ==> s.released[p] == 0)
      && (p in s.handles ==> p !in s.freed)
  {
    ReachedIsSound(steps, Loose);
    var s := Reached(steps, Loose);
    if p in s.handles { assert HandleOk(s, p); }
  }

  // By then the jobs that worked on the handle have finished, and so have those chained onto it when
  // chains end in turn.
  lemma HooksRunAfterJobs(steps: seq<Step>, care: Care, p: Address, j: JobId)
    requires !care.Loose? && IsRun(START, steps, care)
    requires p in Reached(steps, care).freed && 0 < j < |Reached(steps, care).jobs|
    requires Reached(steps, care).jobs[j].handle == p
          || (care.ChainInTurn? && Reached(steps, care).jobs[j].file == Some(p))
    ensures Reached(steps, care).jobs[j].finished
  {
    if !Reached(steps, care).jobs[j].finished { JobsKeepTheirHandles(steps, care, j); }
  }

  // A mount that is gone has no handle left on it.
  lemma DestroyedMountIsEmpty(steps: seq<Step>, p: Address)
    requires IsRun(START, steps, Loose) && p in Reached(steps, Loose).handles
    ensures Reached(steps, Loose).handles[p].mount in Reached(steps, Loose).mounts
  {
    ReachedIsSound(steps, Loose);
    assert HandleOk(Reached(steps, Loose), p);
  }

  // The last section of vfs_mount_close frees every handle on the mount, after its jobs, and no other.
  lemma MountCloseFreesItsHandles(steps: seq<Step>, t: ThreadId, p: Address)
    requires IsRun(START, steps, Loose)
    requires Possible(Reached(steps, Loose), MountFree(t)) && OwnVictims(Reached(steps, Loose), t)
    requires p in Reached(steps, Loose).handles
    ensures var s := Reached(steps, Loose);
      var s' := Apply(s, MountFree(t));
      && (p in s'.handles <==> s.handles[p].mount != s.threads[t].mount)
      && (p in s'.owed <==> p !in s'.handles)
      && (p !in s'.handles ==> Idle(s.jobs, s.handles[p]))
  {
    ReachedIsSound(steps, Loose);
    var s := Reached(steps, Loose);
    assert ThreadOk(s, t) && HandleOk(s, p);
    var a := s.threads[t];
    assert MountHandleOk(s, a.mount, a.victims, a.drained, p);
    VictimIsOnMount(s, t, p);
    assert p in Victims(s, a.victims) <==> s.handles[p].mount == a.mount;
    assert p !in s.owed;
  }

  // The sweep leaves no closed handle behind whose work is done.
  lemma SweepTakesEveryIdleHandle(steps: seq<Step>, p: Address)
    requires IsRun(START, steps, Loose) && p in Reached(steps, Loose).handles
    ensures var s := Reached(steps, Loose);
      p in ReclaimSection(s).handles <==> !(s.handles[p].closed && Idle(s.jobs, s.handles[p]))
  {
    ReachedIsSound(steps, Loose);
    var s := Reached(steps, Loose);
    assert HandleOk(s, p);
    var C := ClosedAmong(s.handles, s.handles.Keys);
    if s.closedCount == 0 {
      assert C == {};
      assert p !in C;
    } else if s.handles[p].closed && Idle(s.jobs, s.handles[p]) {
      assert s.handles[p].id in s.handleMap;
      assert p in Reclaimable(s);
    }
  }

  // After a close from the main thread, of a handle that is not a read or a write, the id reads as
  // absent; a handle whose work goes on is kept.
  lemma CloseHidesTheHandle(steps: seq<Step>, id: Id)
    requires IsRun(START, steps, Loose)
    ensures var s := Reached(steps, Loose);
      var s' := CloseSection(s, id, true);
      var found := LookupOpen(s, id);
      && (found.None? ==> s' == s)
      && (found.Some? && !BorrowsCallerMemory(s.handles[found.value].op) ==> LookupOpen(s', id).None?)
      && (found.Some? ==> (found.value in s'.handles <==> !Idle(s.jobs, s.handles[found.value])))
  {
    ReachedIsSound(steps, Loose);
    OpenIsPublished(Reached(steps, Loose), id);
  }
}
