// A chain that ends out of turn and loses nothing (src/vfs/vfs.c): the file is closed while another chain
// that waits for the overwritten job is under way, and that chain makes it the last job again.

module VfsSpared {

  import opened VfsState
  import opened VfsJobs
  import opened VfsProtocol
  import opened VfsOverlap
  import opened VfsSecure
  import opened VfsLoss
  import opened VfsTurns
  import opened Wrappers

  // Threads 1 and 2 chain reads onto the file as in VfsOverlap, none of them inline; thread 1 ends.
  const FIRST := Job(1, Some(0), 1, false, None)
  const SECOND := Job(2, Some(0), 1, false, Some(2))
  const THREAD_TWO := Chain(Some(2), Some(3), false)

  function StateOf(n: nat, handles: map<Address, Handle>, ids: map<Id, Address>, jobs: seq<Job>,
                   threads: map<ThreadId, Activity>): State {
    State(handles, ids, n + 1, n, 0, jobs, threads, map[7 := Listed], {}, {}, multiset{})
  }

  function FileHandle(last: JobId, windows: nat): Handle {
    Handle(1, FileOpen, 7, 1, last, windows, false)
  }

  function ReadHandle(id: Id, job: JobId): Handle {
    Handle(id, FileRead, 7, job, job, 0, false)
  }

  const ONE_SCHEDULED := StateOf(
    3, map[0 := FileHandle(1, 2), 1 := READ_ONE, 2 := READ_TWO], map[1 := 0],
    [NO_JOB, OPEN_JOB, Job(1, Some(0), 1, false, Some(1))],
    map[1 := Chain(Some(1), Some(2), false), 2 := Chain(Some(2), None, false)])

  const TWO_SCHEDULED := StateOf(
    3, map[0 := FileHandle(1, 2), 1 := READ_ONE, 2 := READ_TWO], map[1 := 0],
    [NO_JOB, OPEN_JOB, Job(1, Some(0), 1, false, Some(1)), SECOND],
    map[1 := Chain(Some(1), Some(2), false), 2 := THREAD_TWO])

  const ONE_RECORDED := StateOf(
    3, map[0 := FileHandle(2, 1), 1 := ReadHandle(2, 2), 2 := READ_TWO], map[1 := 0, 2 := 1],
    [NO_JOB, OPEN_JOB, FIRST, SECOND], map[2 := THREAD_TWO])

  // Thread 3 chains another read, after that of thread 1; then the file is closed, which is put off.
  const READ_THREE := Handle(4, FileRead, 7, 0, 0, 0, false)

  function ThirdChain(op: Option<Address>, job: Option<JobId>): Activity {
    Chaining(0, 1, 7, 2, op, job, false)
  }

  const THIRD_BEGUN := StateOf(
    3, map[0 := FileHandle(2, 2), 1 := ReadHandle(2, 2), 2 := READ_TWO], map[1 := 0, 2 := 1],
    [NO_JOB, OPEN_JOB, FIRST, SECOND], map[2 := THREAD_TWO, 3 := ThirdChain(None, None)])

  const THIRD_ALLOCATED := StateOf(
    4, map[0 := FileHandle(2, 2), 1 := ReadHandle(2, 2), 2 := READ_TWO, 3 := READ_THREE], map[1 := 0, 2 := 1],
    [NO_JOB, OPEN_JOB, FIRST, SECOND], map[2 := THREAD_TWO, 3 := ThirdChain(Some(3), None)])

  const THIRD_SCHEDULED := StateOf(
    4, map[0 := FileHandle(2, 2), 1 := ReadHandle(2, 2), 2 := READ_TWO, 3 := READ_THREE], map[1 := 0, 2 := 1],
    [NO_JOB, OPEN_JOB, FIRST, SECOND, Job(3, Some(0), 2, false, Some(3))],
    map[2 := THREAD_TWO, 3 := ThirdChain(Some(3), Some(4))])

  const FILE_CLOSED := StateOf(
    4, map[0 := FileHandle(2, 2).(closed := true), 1 := ReadHandle(2, 2), 2 := READ_TWO, 3 := READ_THREE],
    map[1 := 0, 2 := 1], [NO_JOB, OPEN_JOB, FIRST, SECOND, Job(3, Some(0), 2, false, Some(3))],
    map[2 := THREAD_TWO, 3 := ThirdChain(Some(3), Some(4))]).(closedCount := 1)

  lemma OneSchedules()
    ensures Allowed(BOTH_OPEN, ChainSchedule(1, false), DispatchOnce)
    ensures Apply(BOTH_OPEN, ChainSchedule(1, false)) == ONE_SCHEDULED
  {
  }

  lemma SecondSchedules()
    ensures Allowed(ONE_SCHEDULED, ChainSchedule(2, false), DispatchOnce)
    ensures Apply(ONE_SCHEDULED, ChainSchedule(2, false)) == TWO_SCHEDULED
  {
  }

  lemma OneEnds()
    ensures Allowed(TWO_SCHEDULED, EndChain(1), DispatchOnce) && Apply(TWO_SCHEDULED, EndChain(1)) == ONE_RECORDED
  {
    assert Lookup(TWO_SCHEDULED, 1) == Some(0);
  }

  lemma ThirdBegins()
    ensures Allowed(ONE_RECORDED, BeginChain(3, 1), DispatchOnce)
    ensures Apply(ONE_RECORDED, BeginChain(3, 1)) == THIRD_BEGUN
  {
    assert LookupOpen(ONE_RECORDED, 1) == Some(0);
  }

  lemma ThirdAllocates()
    ensures Allowed(THIRD_BEGUN, ChainAllocate(3, FileRead), DispatchOnce)
    ensures Apply(THIRD_BEGUN, ChainAllocate(3, FileRead)) == THIRD_ALLOCATED
  {
  }

  lemma ThirdSchedules()
    ensures Allowed(THIRD_ALLOCATED, ChainSchedule(3, false), DispatchOnce)
    ensures Apply(THIRD_ALLOCATED, ChainSchedule(3, false)) == THIRD_SCHEDULED
  {
  }

  lemma FileIsClosed()
    ensures Allowed(THIRD_SCHEDULED, Close(1, true), DispatchOnce)
    ensures Apply(THIRD_SCHEDULED, Close(1, true)) == FILE_CLOSED
  {
    hide FreeAll, ClosedAmong, IdsOf;
    assert LookupOpen(THIRD_SCHEDULED, 1) == Some(0);
  }

  lemma TwoSchedule(before: seq<Step>) returns (steps: seq<Step>)
    requires Leads(before, BOTH_OPEN, DispatchOnce)
    ensures Leads(steps, ONE_RECORDED, DispatchOnce)
  {
    hide *;
    OneSchedules();
    LeadsOn(before, BOTH_OPEN, DispatchOnce, ChainSchedule(1, false), ONE_SCHEDULED);
    steps := before + [ChainSchedule(1, false)];
    SecondSchedules();
    LeadsOn(steps, ONE_SCHEDULED, DispatchOnce, ChainSchedule(2, false), TWO_SCHEDULED);
    steps := steps + [ChainSchedule(2, false)];
    OneEnds();
    LeadsOn(steps, TWO_SCHEDULED, DispatchOnce, EndChain(1), ONE_RECORDED);
    steps := steps + [EndChain(1)];
  }

  lemma ThirdFollows(before: seq<Step>) returns (steps: seq<Step>)
    requires Leads(before, ONE_RECORDED, DispatchOnce)
    ensures Leads(steps, FILE_CLOSED, DispatchOnce)
  {
    hide *;
    ThirdBegins();
    LeadsOn(before, ONE_RECORDED, DispatchOnce, BeginChain(3, 1), THIRD_BEGUN);
    steps := before + [BeginChain(3, 1)];
    ThirdAllocates();
    LeadsOn(steps, THIRD_BEGUN, DispatchOnce, ChainAllocate(3, FileRead), THIRD_ALLOCATED);
    steps := steps + [ChainAllocate(3, FileRead)];
    ThirdSchedules();
    LeadsOn(steps, THIRD_ALLOCATED, DispatchOnce, ChainSchedule(3, false), THIRD_SCHEDULED);
    steps := steps + [ChainSchedule(3, false)];
    FileIsClosed();
    LeadsOn(steps, THIRD_SCHEDULED, DispatchOnce, Close(1, true), FILE_CLOSED);
    steps := steps + [Close(1, true)];
  }

  lemma SecondIsOutOfTurn()
    ensures Possible(FILE_CLOSED, EndChain(2)) && !InTurn(FILE_CLOSED, EndChain(2))
  {
    assert Lookup(FILE_CLOSED, 1) == Some(0);
  }

  // What is left when thread 2 has ended: the file is closed, and the chain of thread 3 is under way.
  ghost predicate ThirdIsLeft(s: State) {
    && 0 in s.handles && s.handles[0].closed
    && s.threads == map[3 := ThirdChain(Some(3), Some(4))]
    && |s.jobs| == 5 && s.jobs[2] == FIRST && s.jobs[4] == Job(3, Some(0), 2, false, Some(3))
  }

  lemma SecondLeavesThreads()
    requires Possible(FILE_CLOSED, EndChain(2))
    ensures Apply(FILE_CLOSED, EndChain(2)).threads == map[3 := ThirdChain(Some(3), Some(4))]
  {
    hide LeaveWindow, Lookup, Recorded;
    assert FILE_CLOSED.threads - {2} == map[3 := ThirdChain(Some(3), Some(4))];
  }

  lemma SecondLeavesJobs()
    requires Possible(FILE_CLOSED, EndChain(2))
    ensures Apply(FILE_CLOSED, EndChain(2)).jobs == LeaveWindow(FILE_CLOSED.jobs, Some(3))
  {
    hide LeaveWindow, Lookup, Recorded;
  }

  lemma SecondLeavesFile()
    requires Possible(FILE_CLOSED, EndChain(2))
    ensures var s' := Apply(FILE_CLOSED, EndChain(2)); 0 in s'.handles && s'.handles[0].closed
  {
    hide LeaveWindow, Recorded;
  }

  lemma OnlyThirdIsLeft()
    requires Possible(FILE_CLOSED, EndChain(2))
    ensures ThirdIsLeft(Apply(FILE_CLOSED, EndChain(2)))
  {
    hide Apply, Possible;
    SecondLeavesThreads();
    SecondLeavesJobs();
    SecondLeavesFile();
  }

  lemma ThirdWaits(s: State)
    requires ThirdIsLeft(s)
    ensures 0 in s.handles && Sealed(s, 0) && AllFollow(s, 0, 2) && 3 in s.threads && WillRecord(s, 3, 0, 2)
  {
    assert Reaches(s.jobs, 2, 2);
    assert Reaches(s.jobs, 4, 2);
  }

  // When thread 2 ends, job 2 is overwritten, unfinished and not what thread 2 was chained after; still it
  // cannot lose the file handle, however the threads go on.
  lemma OverwritingMayBeHarmless() returns (steps: seq<Step>, t: ThreadId)
    ensures IsRun(START, steps, DispatchOnce)
    ensures var s := Reached(steps, DispatchOnce);
      && Possible(s, EndChain(t)) && !InTurn(s, EndChain(t)) && s.threads[t].file in s.handles
      && var f := s.threads[t].file;
      !exists more :: Loses(Apply(s, EndChain(t)), more, f, s.handles[f].lastJob)
  {
    hide IsRun, After, Apply, Possible, Loses, Sealed, ThirdIsLeft, AllFollow, WillRecord;
    steps := OpenOneFile();
    steps := TwoChainsBegin(steps);
    steps := TwoSchedule(steps);
    steps := ThirdFollows(steps);
    t := 2;
    SecondIsOutOfTurn();
    OnlyThirdIsLeft();
    ThirdWaits(Apply(FILE_CLOSED, EndChain(2)));
    OverwritingLoses(steps, t);
  }
}
