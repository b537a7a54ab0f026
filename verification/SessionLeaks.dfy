/** Runs that do leave a container behind: the last step of each is one of the dropping steps. */
module SessionLeaks {
  import opened Prelude
  import opened SessionProtocol
  import opened SessionInvariants
  import opened SessionTheorems

  lemma Extended(run: seq<Action>, a: Action) returns (run': seq<Action>)
    requires IsRun(INITIAL, run) && Enabled(Last(INITIAL, run), a)
    ensures run' == run + [a] && IsRun(INITIAL, run') && Last(INITIAL, run') == Step(Last(INITIAL, run), a)
  {
    run' := run + [a];
    RunJoin(INITIAL, run, a);
  }

  lemma {:induction false} RunJoin(s: State, run: seq<Action>, a: Action)
    requires IsRun(s, run) && Enabled(Last(s, run), a)
    ensures IsRun(s, run + [a]) && Last(s, run + [a]) == Step(Last(s, run), a)
    decreases |run|
  {
    if run == [] {
      assert run + [a] == [a] && [a][1..] == [];
    } else {
      RunJoin(Step(s, run[0]), run[1..], a);
      assert (run + [a])[1..] == run[1..] + [a];
    }
  }

  // ---------------------------------------------------------------- a failed start

  /** One tool task at `pc` in the only slot, before and after it has started a container. */
  function Empty(key: Key, job: Job, pc: Pc, holder: Option<TaskId>): State {
    State([Task(key, job, pc, false)], [Slot(key, 1, None, holder)], map[key := 0], [], {}, 0)
  }

  function Holding(key: Key, job: Job, pc: Pc, cancelled: bool): State {
    State([Task(key, job, pc, cancelled)], [Slot(key, 1, None, Some(0))], map[key := 0],
          [Session(key, false, None, Untouched, 0, 0)], {0}, 0)
  }

  lemma ReachWait(key: Key, job: Job) returns (run: seq<Action>)
    requires key.runId != "" && (job.Python? || job.Files?)
    ensures IsRun(INITIAL, run) && Last(INITIAL, run) == Empty(key, job, SlotWait(Fetch, 0), None)
  {
    run := Extended([], Spawn(key, job));
    run := Extended(run, Run(0, Proceed));
  }

  lemma ReachBody(key: Key, job: Job) returns (run: seq<Action>)
    requires key.runId != "" && (job.Python? || job.Files?)
    ensures IsRun(INITIAL, run) && Last(INITIAL, run) == Empty(key, job, Creating(0), Some(0))
  {
    run := ReachWait(key, job);
    run := Extended(run, Run(0, Proceed));
    assert Last(INITIAL, run) == Empty(key, job, SlotBody(Fetch, 0), Some(0));
    run := Extended(run, Run(0, Proceed));
  }

  lemma ReachLogs(key: Key, job: Job) returns (run: seq<Action>)
    requires key.runId != "" && (job.Python? || job.Files?)
    ensures IsRun(INITIAL, run) && Last(INITIAL, run) == Holding(key, job, ReadingLogs(0, 0), false)
  {
    run := ReachBody(key, job);
    run := Extended(run, Run(0, Proceed));
    assert Last(INITIAL, run) == Holding(key, job, Readying(0, 0), false);
    run := Extended(run, Run(0, Fails));
  }

  /** The container of a failed start is lost if the task is cancelled while it reads the boot logs. */
  lemma CancelledLogReadOrphans(key: Key, job: Job) returns (run: seq<Action>)
    requires key.runId != "" && (job.Python? || job.Files?)
    ensures IsRun(INITIAL, run) && !NoOrphan(Last(INITIAL, run))
  {
    run := ReachLogs(key, job);
    run := Extended(run, Cancel(0, false));
    var s := Last(INITIAL, run);
    assert s == Holding(key, job, SlotRelease(0, Emptied), true);
    assert Alive(s, 0) && !Owned(s, 0);
  }

  // ---------------------------------------------------------------- a clear that is cancelled

  /** A tool task at `pc` that has started a container, which its slot caches. */
  function Started(key: Key, job: Job, pc: Pc, users: nat, holder: Option<TaskId>, lock: Option<TaskId>): State {
    State([Task(key, job, pc, false)], [Slot(key, users, Some(0), holder)], map[key := 0],
          [Session(key, false, lock, Untouched, 0, 0)], {0}, 0)
  }

  /** Its cell is running while a clear at `pc` is in the slot. */
  function Clearing(key: Key, pc: Pc, cached: Option<Sid>, holder: Option<TaskId>, cancelled: bool): State {
    State([Task(key, Python(false), CellRunning(0), false), Task(key, Clear(true), pc, cancelled)],
          [Slot(key, 1, cached, holder)], map[key := 0],
          [Session(key, false, Some(0), Untouched, 0, 0)], {0}, 0)
  }

  lemma ReachCached(key: Key, job: Job) returns (run: seq<Action>)
    requires key.runId != "" && (job.Python? || job.Files?)
    ensures IsRun(INITIAL, run) && Last(INITIAL, run) == Started(key, job, SlotRelease(0, Use(0)), 1, Some(0), None)
  {
    run := ReachBody(key, job);
    run := Extended(run, Run(0, Proceed));
    assert Last(INITIAL, run) == Holding(key, job, Readying(0, 0), false);
    run := Extended(run, Run(0, Proceed));
  }

  lemma ReachStarted(key: Key, job: Job) returns (run: seq<Action>)
    requires key.runId != "" && (job.Python? || job.Files?)
    ensures IsRun(INITIAL, run) && Last(INITIAL, run) == Started(key, job, SlotLeave(0, Use(0)), 1, None, None)
  {
    run := ReachCached(key, job);
    run := Extended(run, Run(0, Proceed));
  }

  lemma ReachCellWait(key: Key) returns (run: seq<Action>)
    requires key.runId != ""
    ensures IsRun(INITIAL, run) && Last(INITIAL, run) == Started(key, Python(false), CellWait(0), 0, None, None)
  {
    run := ReachStarted(key, Python(false));
    run := Extended(run, Run(0, Proceed));
    assert Last(INITIAL, run) == Started(key, Python(false), CellLookup(0), 0, None, None);
    run := Extended(run, Run(0, Proceed));
  }

  lemma ReachCell(key: Key) returns (run: seq<Action>)
    requires key.runId != ""
    ensures IsRun(INITIAL, run) && Last(INITIAL, run) == Started(key, Python(false), CellRunning(0), 0, None, Some(0))
  {
    run := ReachCellWait(key);
    run := Extended(run, Run(0, Proceed));
    assert Last(INITIAL, run) == Started(key, Python(false), CellHeld(0), 0, None, Some(0));
    run := Extended(run, Run(0, Proceed));
  }

  lemma ReachClear(key: Key) returns (run: seq<Action>)
    requires key.runId != ""
    ensures IsRun(INITIAL, run) && Last(INITIAL, run) == Clearing(key, RemoveWait(0, InSlot(0)), None, Some(1), false)
  {
    run := ReachCell(key);
    run := Extended(run, Spawn(key, Clear(true)));
    run := Extended(run, Run(1, Proceed));
    assert Last(INITIAL, run) == Clearing(key, SlotWait(Wipe(true), 0), Some(0), None, false);
    run := Extended(run, Run(1, Proceed));
    assert Last(INITIAL, run) == Clearing(key, SlotBody(Wipe(true), 0), Some(0), Some(1), false);
    run := Extended(run, Run(1, Proceed));
    assert Last(INITIAL, run) == Clearing(key, RemoveLookup(0, InSlot(0)), None, Some(1), false);
    run := Extended(run, Run(1, Proceed));
  }

  /** The container is lost if the clear at the end of its run is cancelled while it waits for a cell. */
  lemma CancelledClearOrphans(key: Key) returns (run: seq<Action>)
    requires key.runId != ""
    ensures IsRun(INITIAL, run) && !NoOrphan(Last(INITIAL, run))
  {
    run := ReachClear(key);
    run := Extended(run, Cancel(1, false));
    var s := Last(INITIAL, run);
    assert s == Clearing(key, SlotRelease(0, Emptied), None, Some(1), true);
    assert Alive(s, 0) && !Owned(s, 0);
  }

  // ---------------------------------------------------------------- a reaper

  /** A file task has ended and left its session cached; a reaper at `pc` is about to remove that session. */
  function Reaping(key: Key, pc: Pc, session: Session): State {
    State([Task(key, Files, Finished, false), Task(key, Remover([0]), pc, false)],
          [Slot(key, 0, Some(0), None)], map[key := 0], [session], if session.destroyed then {} else {0}, 0)
  }

  lemma ReachReap(key: Key) returns (run: seq<Action>)
    requires key.runId != ""
    ensures IsRun(INITIAL, run)
    ensures Last(INITIAL, run)
         == Reaping(key, RemoveLookup(0, Alone([])), Session(key, false, None, Untouched, 0, 0))
  {
    run := ReachStarted(key, Files);
    run := Extended(run, Run(0, Proceed));
    run := Extended(run, Spawn(key, Remover([0])));
    assert [0][1..] == [];
  }

  lemma ReachReaper(key: Key) returns (run: seq<Action>)
    requires key.runId != ""
    ensures IsRun(INITIAL, run)
    ensures Last(INITIAL, run) == Reaping(key, RemoveHeld(0, Alone([])), Session(key, false, Some(1), Untouched, 0, 0))
  {
    run := ReachReap(key);
    run := Extended(run, Run(1, Proceed));
    run := Extended(run, Run(1, Proceed));
  }

  /** A reaped session stays cached, dead, until a cell comes across it: the run has come to its end. */
  lemma ReapedStaysCached(key: Key) returns (run: seq<Action>)
    requires key.runId != ""
    ensures IsRun(INITIAL, run)
    ensures Last(INITIAL, run) == Reaping(key, Finished, Session(key, true, None, Removed(false), 1, 1))
  {
    run := ReachReaper(key);
    run := Extended(run, Run(1, Proceed));
    assert Last(INITIAL, run)
        == Reaping(key, RemoveAwait(0, Alone([])), Session(key, true, Some(1), AtContainer, 0, 0));
    run := Extended(run, Worker(0, false));
    run := Extended(run, Worker(0, false));
    assert Last(INITIAL, run)
        == Reaping(key, RemoveAwait(0, Alone([])), Session(key, true, Some(1), Removed(false), 1, 1));
    run := Extended(run, Run(1, Proceed));
  }
}
