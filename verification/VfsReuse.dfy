// When the last section of vfs_mount_close (src/vfs/vfs.c) frees a handle of another mount.  It looks its
// victims up by their ids again, long after it has collected them, and an id that is passed in again
// meanwhile names a new handle.

module VfsReuse {

  import opened VfsState
  import opened VfsSound
  import opened VfsProtocol
  import opened Wrappers

  // The step gives a new handle the id of a victim of the close that thread t is in.
  predicate Reuses(s: State, step: Step, t: ThreadId) {
    && step.BeginIssue? && step.reuse != 0 && step.reuse !in s.handleMap
    && t in s.threads && s.threads[t].Closing? && step.reuse in s.threads[t].victims
  }

  function RebornBy(s: State, step: Step, t: ThreadId, soFar: set<Address>): set<Address> {
    if step.MountSnapshot? && step.t == t then {}
    else if Reuses(s, step, t) then soFar + {s.nextAddress}
    else soFar
  }

  // The handles of a run that were given such an id since thread t last began to close a mount.
  function Reborn(s: State, steps: seq<Step>, t: ThreadId, soFar: set<Address>): set<Address>
    requires IsRun(s, steps, Loose)
    decreases |steps|
  {
    if steps == [] then soFar
    else Reborn(Apply(s, steps[0]), steps[1..], t, RebornBy(s, steps[0], t, soFar))
  }

  // They are the handles of other mounts that have an id of a victim.
  ghost predicate RebornOk(s: State, t: ThreadId, reborn: set<Address>) {
    t in s.threads && s.threads[t].Closing? ==>
      && (forall q :: q in reborn ==> q < s.nextAddress)
      && (forall p :: p in s.handles ==> (p in reborn <==> IsForeign(s, t, p)))
  }

  predicate IsForeign(s: State, t: ThreadId, p: Address)
    requires t in s.threads && s.threads[t].Closing? && p in s.handles
  {
    s.handles[p].id in s.threads[t].victims && s.handles[p].mount != s.threads[t].mount
  }

  lemma NoneAtFirst(s: State, t: ThreadId, mount: MountId)
    requires TableOk(s.handles, s.handleMap) && IdsDiffer(s.handles)
    ensures RebornOk(MountSnapshotSection(s, t, mount), t, {}) || t in s.threads
  {
  }

  lemma OthersAllocateNothing(s: State, step: Step, p: Address)
    requires Possible(s, step) && !step.BeginIssue? && !step.ChainAllocate?
    ensures p in Apply(s, step).handles ==> p in s.handles
  {
  }

  // A handle that is new is on a mount that is listed, and has a new id unless one was passed in.
  ghost predicate IsNew(s: State, step: Step, h: Handle) {
    && h.mount in s.mounts && s.mounts[h.mount].Listed?
    && (if step.BeginIssue? && step.reuse != 0 then h.id == step.reuse && step.reuse !in s.handleMap
        else h.id == s.nextHandleId)
  }

  lemma NewHandle(s: State, step: Step, p: Address)
    requires Sound(s) && Possible(s, step) && Orderly(s, step) && s.nextAddress <= p
    ensures var s' := Apply(s, step);
      p in s'.handles ==> p == s.nextAddress && s'.nextAddress == p + 1 && IsNew(s, step, s'.handles[p])
  {
    forall q | q in s.handles ensures q < s.nextAddress { assert HandleOk(s, q); }
    if step.ChainAllocate? {
      assert ThreadOk(s, step.t);
    } else if !step.BeginIssue? {
      OthersAllocateNothing(s, step, p);
    }
  }

  lemma CloserGoesOn(s: State, step: Step, t: ThreadId)
    requires Possible(s, step) && t in Apply(s, step).threads && Apply(s, step).threads[t].Closing?
    ensures !(step.MountSnapshot? && step.t == t) ==>
      var a := Apply(s, step).threads[t];
      t in s.threads && s.threads[t].Closing? && s.threads[t].mount == a.mount && s.threads[t].victims == a.victims
  {
    hide ClosedAmong, IdsOnMount, IdsOf, VictimsIdle, Victims, Reclaimable, Idle, Finished, Lookup, LookupOpen, JobDone,
      LeaveWindow, Recorded, BorrowsCallerMemory;
  }

  lemma SnapshotStarts(s: State, step: Step, t: ThreadId)
    requires Sound(s) && Possible(s, step) && step.MountSnapshot? && step.t == t
    ensures RebornOk(Apply(s, step), t, {})
  {
    NoneAtFirst(s, t, step.mount);
  }

  lemma CloserIsOk(s: State, t: ThreadId)
    requires Sound(s) && t in s.threads && s.threads[t].Closing?
    ensures s.threads[t].mount in s.mounts && s.mounts[s.threads[t].mount].Draining?
    ensures forall id :: id in s.threads[t].victims ==> id < s.nextHandleId
  {
    assert ThreadOk(s, t);
  }

  lemma StepKeepsReborn(s: State, step: Step, t: ThreadId, reborn: set<Address>)
    requires Sound(s) && Possible(s, step) && Orderly(s, step) && RebornOk(s, t, reborn)
    ensures RebornOk(Apply(s, step), t, RebornBy(s, step, t, reborn))
  {
    hide Apply, Sound, Possible, Orderly;
    var s' := Apply(s, step);
    var reborn' := RebornBy(s, step, t, reborn);
    if t in s'.threads && s'.threads[t].Closing? {
      if step.MountSnapshot? && step.t == t {
        SnapshotStarts(s, step, t);
      } else {
        CloserGoesOn(s, step, t);
        CloserIsOk(s, t);
        StepKeepsNames(s, step, s.nextAddress);
        forall p | p in s'.handles ensures p in reborn' <==> IsForeign(s', t, p) {
          StepKeepsNames(s, step, p);
          if s.nextAddress <= p { NewHandle(s, step, p); }
        }
        RebornIsNew(s, step, t);
      }
    }
  }

  lemma RebornIsNew(s: State, step: Step, t: ThreadId)
    requires Possible(s, step)
    ensures Reuses(s, step, t) ==> s.nextAddress < Apply(s, step).nextAddress
  {
  }

  lemma {:induction false} RunKeepsReborn(s: State, steps: seq<Step>, t: ThreadId, reborn: set<Address>)
    requires Sound(s) && IsRun(s, steps, Loose) && RebornOk(s, t, reborn)
    ensures RebornOk(After(s, steps, Loose), t, Reborn(s, steps, t, reborn))
    decreases |steps|
  {
    hide Sound, RebornOk, RebornBy, Apply, Possible, Orderly;
    if steps != [] {
      StepIsSound(s, steps[0]);
      StepKeepsReborn(s, steps[0], t, reborn);
      RunKeepsReborn(Apply(s, steps[0]), steps[1..], t, RebornBy(s, steps[0], t, reborn));
    }
  }

  // A mount close frees a handle of another mount if and only if a handle that was given a victim's id
  // since the victims were collected is in the map.
  lemma MountCloseFreesOthers(steps: seq<Step>, t: ThreadId)
    requires IsRun(START, steps, Loose) && Possible(Reached(steps, Loose), MountFree(t))
    ensures var s := Reached(steps, Loose);
      var s' := Apply(s, MountFree(t));
      (exists p :: p in s.handles && p !in s'.handles && s.handles[p].mount != s.threads[t].mount)
      <==> (exists q :: q in Reborn(START, steps, t, {}) && IsPublished(s, q))
  {
    StartIsSound();
    RunKeepsReborn(START, steps, t, {});
    ReachedIsSound(steps, Loose);
    var s := Reached(steps, Loose);
    var s' := Apply(s, MountFree(t));
    var reborn := Reborn(START, steps, t, {});
    hide IsRun, After, Reached, Reborn, Possible;
    forall p | p in s.handles
      ensures p !in s'.handles && s.handles[p].mount != s.threads[t].mount <==> p in reborn && IsPublished(s, p)
    {
      assert p !in s'.handles <==> p in Victims(s, s.threads[t].victims);
      assert p in reborn <==> IsForeign(s, t, p);
      VictimsArePublished(s, s.threads[t].victims, p);
    }
    if q :| q in reborn && IsPublished(s, q) {
      assert q in s.handles && q !in s'.handles;
    }
  }

  lemma VictimsArePublished(s: State, victims: set<Id>, p: Address)
    requires TableOk(s.handles, s.handleMap) && p in s.handles
    ensures p in Victims(s, victims) <==> IsPublished(s, p) && s.handles[p].id in victims
  {
  }

  // -------------------------------------------------------------------------------------------
  // A run in which it does: a handle on mount 7 is closed after the drain, and its id is passed in again
  // for a handle on mount 8, which has a job when the close of mount 7 ends.
  // -------------------------------------------------------------------------------------------

  const PREPARED := Handle(1, ReadAll, 7, 0, 0, 0, false)
  const READING := Handle(1, ReadAll, 8, 1, 1, 0, false)

  const TWO_MOUNTS := START.(mounts := map[7 := Listed, 8 := Listed])

  const ONE_PREPARED := TWO_MOUNTS.(handles := map[0 := PREPARED], handleMap := map[1 := 0],
                                    nextHandleId := 2, nextAddress := 1)

  const DRAINED := ONE_PREPARED.(threads := map[2 := Closing(7, {1}, true)],
                                 mounts := map[7 := Draining(2), 8 := Listed])

  const ID_FREE := DRAINED.(handles := map[], handleMap := map[], freed := {0}, owed := {0})

  const ID_TAKEN := ID_FREE.(handles := map[1 := READING], handleMap := map[1 := 1], nextAddress := 2,
                             jobs := [NO_JOB, Job(1, None, 0, false, None)])

  lemma Prepare() returns (steps: seq<Step>)
    ensures Leads(steps, ONE_PREPARED, ChainInTurn)
  {
    steps := [];
    var s1 := START.(mounts := map[7 := Listed]);
    LeadsOn(steps, START, ChainInTurn, NewMount(7), s1);
    steps := steps + [NewMount(7)];
    LeadsOn(steps, s1, ChainInTurn, NewMount(8), TWO_MOUNTS);
    steps := steps + [NewMount(8)];
    var s3 := TWO_MOUNTS.(handles := map[0 := PREPARED], nextHandleId := 2, nextAddress := 1,
                          threads := map[1 := Issuing(0, None)]);
    LeadsOn(steps, TWO_MOUNTS, ChainInTurn, BeginIssue(1, ReadAll, 7, 0), s3);
    steps := steps + [BeginIssue(1, ReadAll, 7, 0)];
    LeadsOn(steps, s3, ChainInTurn, Publish(1, false), ONE_PREPARED);
    steps := steps + [Publish(1, false)];
  }

  lemma Snapshot()
    ensures Allowed(ONE_PREPARED, MountSnapshot(2, 7), ChainInTurn)
    ensures Apply(ONE_PREPARED, MountSnapshot(2, 7)) == DRAINED.(threads := map[2 := Closing(7, {1}, false)])
  {
    assert IdsOnMount(ONE_PREPARED, 7) == {1};
  }

  lemma Refresh()
    ensures var s := DRAINED.(threads := map[2 := Closing(7, {1}, false)]);
      Allowed(s, MountRefresh(2), ChainInTurn) && Apply(s, MountRefresh(2)) == DRAINED
  {
  }

  lemma CloseIt()
    ensures Apply(DRAINED, Close(1, true)) == ID_FREE
  {
    assert IdsOf(DRAINED.handles, {0}) == {1};
    assert ClosedAmong(DRAINED.handles, {0}) == {};
  }

  lemma Drain(before: seq<Step>) returns (steps: seq<Step>)
    requires Leads(before, ONE_PREPARED, ChainInTurn)
    ensures Leads(steps, ID_FREE, ChainInTurn)
  {
    Snapshot();
    Refresh();
    CloseIt();
    hide Leads, Apply;
    LeadsOn(before, ONE_PREPARED, ChainInTurn, MountSnapshot(2, 7),
            DRAINED.(threads := map[2 := Closing(7, {1}, false)]));
    steps := before + [MountSnapshot(2, 7)];
    LeadsOn(steps, DRAINED.(threads := map[2 := Closing(7, {1}, false)]), ChainInTurn, MountRefresh(2), DRAINED);
    steps := steps + [MountRefresh(2)];
    LeadsOn(steps, DRAINED, ChainInTurn, Close(1, true), ID_FREE);
    steps := steps + [Close(1, true)];
  }

  const ISSUED := ID_FREE.(handles := map[1 := READING.(jobHandle := 0, lastJob := 0)], nextAddress := 2,
                           threads := DRAINED.threads[3 := Issuing(1, None)])

  const RESCHEDULED := ISSUED.(jobs := [NO_JOB, Job(1, None, 0, false, Some(3))],
                               threads := DRAINED.threads[3 := Issuing(1, Some(1))])

  lemma IssuedAgain()
    ensures Allowed(ID_FREE, BeginIssue(3, ReadAll, 8, 1), ChainInTurn)
    ensures Apply(ID_FREE, BeginIssue(3, ReadAll, 8, 1)) == ISSUED
  {
  }

  lemma ScheduledAgain()
    ensures Allowed(ISSUED, Schedule(3, 0), ChainInTurn) && Apply(ISSUED, Schedule(3, 0)) == RESCHEDULED
  {
  }

  lemma PublishedAgain()
    ensures Allowed(RESCHEDULED, Publish(3, false), ChainInTurn)
    ensures Apply(RESCHEDULED, Publish(3, false)) == ID_TAKEN
  {
  }

  lemma Reissue(before: seq<Step>) returns (steps: seq<Step>)
    requires Leads(before, ID_FREE, ChainInTurn)
    ensures Leads(steps, ID_TAKEN, ChainInTurn)
  {
    hide *;
    IssuedAgain();
    LeadsOn(before, ID_FREE, ChainInTurn, BeginIssue(3, ReadAll, 8, 1), ISSUED);
    steps := before + [BeginIssue(3, ReadAll, 8, 1)];
    ScheduledAgain();
    LeadsOn(steps, ISSUED, ChainInTurn, Schedule(3, 0), RESCHEDULED);
    steps := steps + [Schedule(3, 0)];
    PublishedAgain();
    LeadsOn(steps, RESCHEDULED, ChainInTurn, Publish(3, false), ID_TAKEN);
    steps := steps + [Publish(3, false)];
  }

  lemma MountCloseTakesAnothersHandle() returns (steps: seq<Step>, t: ThreadId, j: JobId)
    ensures IsRun(START, steps, ChainInTurn) && Possible(Reached(steps, ChainInTurn), MountFree(t))
    ensures var s := Reached(steps, ChainInTurn);
      && 0 < j < |s.jobs| && !s.jobs[j].finished && s.jobs[j].handle in s.handles
      && s.handles[s.jobs[j].handle].mount != s.threads[t].mount
      && s.jobs[j].handle in Apply(s, MountFree(t)).freed
  {
    steps := Prepare();
    steps := Drain(steps);
    steps := Reissue(steps);
    t, j := 2, 1;
    assert ID_TAKEN.jobs[1] == Job(1, None, 0, false, None);
    assert Lookup(ID_TAKEN, 1) == Some(1);
    assert 1 in Victims(ID_TAKEN, {1});
  }
}
