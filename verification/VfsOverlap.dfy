// Two chains onto one file handle whose windows overlap (src/vfs/vfs.c).  The comment on pending_dispatches
// in src/vfs/vfs_internal.h says that they may: a count keeps the inner chain from clearing the outer one's
// guard.  But last_job is one field, and a chain that ends out of turn overwrites it: here is a run in which
// a job loses its file handle.  VfsTurns and VfsLoss say exactly when that can be.

module VfsOverlap {

  import opened VfsState
  import opened VfsProtocol
  import opened Wrappers

  const OPENED := Handle(1, FileOpen, 7, 1, 1, 0, false)
  const OPEN_JOB := Job(0, None, 0, true, None)
  const ONE_FILE := State(map[0 := OPENED], map[1 := 0], 2, 1, 0, [NO_JOB, OPEN_JOB], map[], map[7 := Listed],
                          {}, {}, multiset{})

  // A file is opened on a mount, and the open is done.
  lemma OpenOneFile() returns (steps: seq<Step>)
    ensures Leads(steps, ONE_FILE, DispatchOnce)
  {
    steps := [];
    var s := START;
    var s1 := s.(mounts := map[7 := Listed]);
    LeadsOn(steps, s, DispatchOnce, NewMount(7), s1);
    steps := steps + [NewMount(7)];
    var h := Handle(1, FileOpen, 7, 0, 0, 0, false);
    var s2 := s1.(handles := map[0 := h], nextAddress := 1, nextHandleId := 2, threads := map[1 := Issuing(0, None)]);
    LeadsOn(steps, s1, DispatchOnce, BeginIssue(1, FileOpen, 7, 0), s2);
    steps := steps + [BeginIssue(1, FileOpen, 7, 0)];
    var s3 := s2.(jobs := [NO_JOB, Job(0, None, 0, false, Some(1))], threads := map[1 := Issuing(0, Some(1))]);
    LeadsOn(steps, s2, DispatchOnce, Schedule(1, 0), s3);
    steps := steps + [Schedule(1, 0)];
    var s4 := s3.(handles := map[0 := OPENED], handleMap := map[1 := 0], jobs := [NO_JOB, Job(0, None, 0, false, None)],
                  threads := map[]);
    LeadsOn(steps, s3, DispatchOnce, Publish(1, false), s4);
    steps := steps + [Publish(1, false)];
    LeadsOn(steps, s4, DispatchOnce, Finish(1), ONE_FILE);
    steps := steps + [Finish(1)];
  }

  // Thread 1, the main thread, and thread 2, a worker, each chain a read onto it; the worker's runs
  // inline and ends last.
  const READ_ONE := Handle(2, FileRead, 7, 0, 0, 0, false)
  const READ_TWO := Handle(3, FileRead, 7, 0, 0, 0, false)

  function Chain(op: Option<Address>, job: Option<JobId>, inlined: bool): Activity {
    Chaining(0, 1, 7, 1, op, job, inlined)
  }

  const BOTH_OPEN := ONE_FILE.(
    handles := map[0 := OPENED.(pendingDispatches := 2), 1 := READ_ONE, 2 := READ_TWO], nextAddress := 3,
      nextHandleId := 4,
    threads := map[1 := Chain(Some(1), None, false), 2 := Chain(Some(2), None, false)])

  const BOTH_SCHEDULED := BOTH_OPEN.(
    jobs := [NO_JOB, OPEN_JOB, Job(1, Some(0), 1, false, Some(1)), Job(2, Some(0), 1, false, Some(2))],
    threads := map[1 := Chain(Some(1), Some(2), false), 2 := Chain(Some(2), Some(3), true)])

  const FIRST_ENDED := BOTH_SCHEDULED.(
    handles := map[0 := OPENED.(lastJob := 2, pendingDispatches := 1), 1 := READ_ONE.(jobHandle := 2, lastJob := 2),
      2 := READ_TWO],
    handleMap := map[1 := 0, 2 := 1],
    jobs := [NO_JOB, OPEN_JOB, Job(1, Some(0), 1, false, None), Job(2, Some(0), 1, true, Some(2))],
    threads := map[2 := Chain(Some(2), Some(3), true)])

  const BOTH_ENDED := FIRST_ENDED.(
    handles := map[0 := OPENED.(lastJob := 0), 1 := READ_ONE.(jobHandle := 2, lastJob := 2), 2 := READ_TWO],
    handleMap := map[1 := 0, 2 := 1, 3 := 2],
    jobs := [NO_JOB, OPEN_JOB, Job(1, Some(0), 1, false, None), Job(2, Some(0), 1, true, None)],
    threads := map[])

  const ONE_BEGUN := ONE_FILE.(handles := map[0 := OPENED.(pendingDispatches := 1)],
                               threads := map[1 := Chain(None, None, false)])

  const BOTH_BEGUN := ONE_FILE.(handles := map[0 := OPENED.(pendingDispatches := 2)],
                                threads := map[1 := Chain(None, None, false), 2 := Chain(None, None, false)])

  const ONE_ALLOCATED := BOTH_BEGUN.(handles := map[0 := OPENED.(pendingDispatches := 2), 1 := READ_ONE],
                                     nextAddress := 2, nextHandleId := 3,
                                     threads := map[1 := Chain(Some(1), None, false), 2 := Chain(None, None, false)])

  lemma FirstBegins()
    ensures Allowed(ONE_FILE, BeginChain(1, 1), DispatchOnce) && Apply(ONE_FILE, BeginChain(1, 1)) == ONE_BEGUN
  {
  }

  lemma SecondBegins()
    ensures Allowed(ONE_BEGUN, BeginChain(2, 1), DispatchOnce) && Apply(ONE_BEGUN, BeginChain(2, 1)) == BOTH_BEGUN
  {
  }

  lemma FirstAllocates()
    ensures Allowed(BOTH_BEGUN, ChainAllocate(1, FileRead), DispatchOnce)
    ensures Apply(BOTH_BEGUN, ChainAllocate(1, FileRead)) == ONE_ALLOCATED
  {
  }

  lemma SecondAllocates()
    ensures Allowed(ONE_ALLOCATED, ChainAllocate(2, FileRead), DispatchOnce)
    ensures Apply(ONE_ALLOCATED, ChainAllocate(2, FileRead)) == BOTH_OPEN
  {
  }

  lemma TwoChainsBegin(before: seq<Step>) returns (steps: seq<Step>)
    requires Leads(before, ONE_FILE, DispatchOnce)
    ensures Leads(steps, BOTH_OPEN, DispatchOnce)
  {
    hide *;
    FirstBegins();
    LeadsOn(before, ONE_FILE, DispatchOnce, BeginChain(1, 1), ONE_BEGUN);
    steps := before + [BeginChain(1, 1)];
    SecondBegins();
    LeadsOn(steps, ONE_BEGUN, DispatchOnce, BeginChain(2, 1), BOTH_BEGUN);
    steps := steps + [BeginChain(2, 1)];
    FirstAllocates();
    LeadsOn(steps, BOTH_BEGUN, DispatchOnce, ChainAllocate(1, FileRead), ONE_ALLOCATED);
    steps := steps + [ChainAllocate(1, FileRead)];
    SecondAllocates();
    LeadsOn(steps, ONE_ALLOCATED, DispatchOnce, ChainAllocate(2, FileRead), BOTH_OPEN);
    steps := steps + [ChainAllocate(2, FileRead)];
  }

  lemma TwoChainsSchedule(before: seq<Step>) returns (steps: seq<Step>)
    requires Leads(before, BOTH_OPEN, DispatchOnce)
    ensures Leads(steps, BOTH_SCHEDULED, DispatchOnce)
  {
    var s1 := BOTH_OPEN.(jobs := [NO_JOB, OPEN_JOB, Job(1, Some(0), 1, false, Some(1))],
                         threads := map[1 := Chain(Some(1), Some(2), false), 2 := Chain(Some(2), None, false)]);
    LeadsOn(before, BOTH_OPEN, DispatchOnce, ChainSchedule(1, false), s1);
    steps := before + [ChainSchedule(1, false)];
    LeadsOn(steps, s1, DispatchOnce, ChainSchedule(2, true), BOTH_SCHEDULED);
    steps := steps + [ChainSchedule(2, true)];
  }

  const FIRST_RECORDED := FIRST_ENDED.(
    jobs := [NO_JOB, OPEN_JOB, Job(1, Some(0), 1, false, None), Job(2, Some(0), 1, false, Some(2))])

  lemma FirstEnds()
    ensures Allowed(BOTH_SCHEDULED, EndChain(1), DispatchOnce)
    ensures Apply(BOTH_SCHEDULED, EndChain(1)) == FIRST_RECORDED
  {
    var s := BOTH_SCHEDULED;
    assert Lookup(s, 1) == Some(0);
    assert LeaveWindow(s.jobs, Some(2)) == FIRST_RECORDED.jobs;
    assert s.threads - {1} == FIRST_RECORDED.threads;
    hide LeaveWindow, Lookup;
    assert Apply(s, EndChain(1)).handles == FIRST_RECORDED.handles;
  }

  lemma InnerRuns()
    ensures Allowed(FIRST_RECORDED, Finish(3), DispatchOnce) && Apply(FIRST_RECORDED, Finish(3)) == FIRST_ENDED
  {
  }

  lemma TheFirstEnds(before: seq<Step>) returns (steps: seq<Step>)
    requires Leads(before, BOTH_SCHEDULED, DispatchOnce)
    ensures Leads(steps, FIRST_ENDED, DispatchOnce)
  {
    FirstEnds();
    InnerRuns();
    hide *;
    LeadsOn(before, BOTH_SCHEDULED, DispatchOnce, EndChain(1), FIRST_RECORDED);
    steps := before + [EndChain(1)];
    LeadsOn(steps, FIRST_RECORDED, DispatchOnce, Finish(3), FIRST_ENDED);
    steps := steps + [Finish(3)];
  }

  lemma SecondEnds()
    ensures Allowed(FIRST_ENDED, EndChain(2), DispatchOnce)
    ensures Apply(FIRST_ENDED, EndChain(2)) == BOTH_ENDED
  {
    var s := FIRST_ENDED;
    assert Lookup(s, 1) == Some(0);
    assert LeaveWindow(s.jobs, Some(3)) == BOTH_ENDED.jobs;
    assert s.threads - {2} == BOTH_ENDED.threads;
    hide LeaveWindow, Lookup;
    assert Apply(s, EndChain(2)).handles == BOTH_ENDED.handles;
  }

  lemma TheFileIsFreed()
    ensures Allowed(BOTH_ENDED, Close(1, true), DispatchOnce)
    ensures Apply(BOTH_ENDED, Close(1, true)) == FreeAll(BOTH_ENDED, {0})
  {
    assert LookupOpen(BOTH_ENDED, 1) == Some(0);
  }

  // Closing the file then frees it, although the main thread's read has not run.
  lemma OverlapLosesAJob() returns (steps: seq<Step>, j: JobId)
    ensures IsRun(START, steps, DispatchOnce)
    ensures var s := Reached(steps, DispatchOnce);
      0 < j < |s.jobs| && !s.jobs[j].finished && s.jobs[j].file.Some? && s.jobs[j].file.value in s.freed
  {
    steps := OpenOneFile();
    steps := TwoChainsBegin(steps);
    steps := TwoChainsSchedule(steps);
    steps := TheFirstEnds(steps);
    j := 2;
    assert BOTH_ENDED.jobs[j] == Job(1, Some(0), 1, false, None);
    SecondEnds();
    TheFileIsFreed();
    hide Apply, Possible, Orderly, PreparedOnce, IsRun, After;
    LeadsOn(steps, FIRST_ENDED, DispatchOnce, EndChain(2), BOTH_ENDED);
    steps := steps + [EndChain(2)];
    LeadsOn(steps, BOTH_ENDED, DispatchOnce, Close(1, true), FreeAll(BOTH_ENDED, {0}));
    steps := steps + [Close(1, true)];
  }
}
