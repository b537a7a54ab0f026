/** The session protocol cannot deadlock and cannot run for ever on a finite set of tasks. */
module SessionProgress {
  import opened Prelude
  import opened SessionProtocol
  import opened SessionInvariants
  import opened SessionTheorems
  import opened HostDecode

  /** A step that needs no new task and no cancellation: Docker calls return, threads go on. */
  predicate Progress(a: Action) { a.Run? || a.Worker? }

  // ---------------------------------------------------------------- deadlock freedom

  /** A Docker call may return in any of its ways; this is one of them. */
  function SomeChoice(pc: Pc): Choice {
    if pc.CellRunning? then Replies(TransportFailed) else Proceed
  }

  /** Waiting for a lock, or for a removal thread. */
  predicate Blocked(s: State, pc: Pc) {
    match pc
    case SlotWait(_, i) => i < |s.slots| && s.slots[i].holder.Some?
    case RemoveWait(sid, _) => sid < |s.sessions| && s.sessions[sid].holder.Some?
    case CellWait(sid) => sid < |s.sessions| && s.sessions[sid].holder.Some?
    case RemoveAwait(sid, _) => sid < |s.sessions| && !s.sessions[sid].phase.Removed?
    case CellInvalidating(sid, _) => sid < |s.sessions| && !s.sessions[sid].phase.Removed?
    case _ => false
  }

  lemma UnblockedRuns(s: State, t: TaskId)
    requires LocalOk(s, t) && s.tasks[t].pc != Finished && !Blocked(s, s.tasks[t].pc)
    ensures Enabled(s, Run(t, SomeChoice(s.tasks[t].pc)))
  {
    RunBalanced(s, t, SomeChoice(s.tasks[t].pc));
  }

  lemma SlotHolder(s: State, i: SlotId)
    requires SlotLocksOk(s) && i < |s.slots|
    ensures s.slots[i].holder.Some? ==>
      var t := s.slots[i].holder.value; t < |s.tasks| && CritOf(s.tasks[t].pc) == Some(i)
  {
    assert SlotHolders(s.slots)[i] == s.slots[i].holder;
  }

  lemma LockHolder(s: State, sid: Sid)
    requires SessionLocksOk(s) && sid < |s.sessions|
    ensures s.sessions[sid].holder.Some? ==>
      var t := s.sessions[sid].holder.value; t < |s.tasks| && LockOf(s.tasks[t].pc) == Some(sid)
  {
    assert SessionHolders(s.sessions)[sid] == s.sessions[sid].holder;
  }

  /** The holder of a session lock waits for no lock: it can step, or a removal thread can. */
  lemma LockHolderMoves(s: State, t: TaskId) returns (a: Action)
    requires Inv(s) && t < |s.tasks| && LockOf(s.tasks[t].pc).Some?
    ensures Progress(a) && Enabled(s, a)
  {
    InvLocal(s, t);
    var sid := LockOf(s.tasks[t].pc).value;
    if Blocked(s, s.tasks[t].pc) {
      assert TeardownOk(s.sessions[sid]);
      a := Worker(sid, false);
    } else {
      UnblockedRuns(s, t);
      a := Run(t, SomeChoice(s.tasks[t].pc));
    }
  }

  /** A task that waits for a session lock waits for a task that can move. */
  lemma SessionWaiterMoves(s: State, t: TaskId) returns (a: Action)
    requires Inv(s) && t < |s.tasks| && s.tasks[t].pc != Finished && !s.tasks[t].pc.SlotWait?
    ensures Progress(a) && Enabled(s, a)
  {
    InvLocal(s, t);
    if LockOf(s.tasks[t].pc).Some? {
      a := LockHolderMoves(s, t);
    } else if Blocked(s, s.tasks[t].pc) {
      LockHolder(s, s.tasks[t].pc.sid);
      a := LockHolderMoves(s, s.sessions[s.tasks[t].pc.sid].holder.value);
    } else {
      UnblockedRuns(s, t);
      a := Run(t, SomeChoice(s.tasks[t].pc));
    }
  }

  /** While some task is unfinished, some task or removal thread can step. */
  lemma NoDeadlock(s: State, t: TaskId) returns (a: Action)
    requires Inv(s) && t < |s.tasks| && s.tasks[t].pc != Finished
    ensures Progress(a) && Enabled(s, a)
  {
    if s.tasks[t].pc.SlotWait? && Blocked(s, s.tasks[t].pc) {
      SlotHolder(s, s.tasks[t].pc.slot);
      a := SessionWaiterMoves(s, s.slots[s.tasks[t].pc.slot].holder.value);
    } else if s.tasks[t].pc.SlotWait? {
      InvLocal(s, t);
      UnblockedRuns(s, t);
      a := Run(t, SomeChoice(s.tasks[t].pc));
    } else {
      a := SessionWaiterMoves(s, t);
    }
  }

  // ---------------------------------------------------------------- termination

  function VisitRank(v: Visit): nat {
    match v
    case Fetch => 18
    case Forget(_) => 3
    case Wipe(_) => 9
  }

  function ReturnRank(ret: Return): nat {
    if ret.InSlot? then 2 else 7 * |ret.rest|
  }

  function AfterRank(after: After): nat { if after.Use? then 14 else 1 }

  /** How many steps of its own a task may still take, with room for the removal it may start. */
  function Rank(pc: Pc): nat {
    match pc
    case Outside(v) => VisitRank(v) + 2
    case SlotWait(v, _) => VisitRank(v) + 1
    case SlotBody(v, _) => VisitRank(v)
    case Creating(_) => 17
    case Readying(_, _) => 16
    case ReadingLogs(_, _) => 9
    case SlotRelease(_, after) => AfterRank(after) + 1
    case SlotLeave(_, after) => AfterRank(after)
    case RemoveLookup(_, ret) => ReturnRank(ret) + 6
    case RemoveWait(_, ret) => ReturnRank(ret) + 5
    case RemoveHeld(_, ret) => ReturnRank(ret) + 4
    case RemoveAwait(_, ret) => ReturnRank(ret) + 1
    case CellLookup(_) => 13
    case CellWait(_) => 12
    case CellHeld(_) => 11
    case CellRunning(_) => 10
    case CellMarking(_) => 10
    case CellInvalidating(_, _) => 7
    case CellReturning(_, _) => 6
    case Finished => 0
  }

  function TaskWeight(task: Task): nat { Rank(task.pc) + if task.cancelled then 0 else 1 }

  function SessionWeight(session: Session): nat {
    match session.phase
    case AtContainer => 2
    case AtVolume(_) => 1
    case _ => 0
  }

  function TaskSum(tasks: seq<Task>): nat {
    if tasks == [] then 0 else TaskSum(tasks[..|tasks| - 1]) + TaskWeight(tasks[|tasks| - 1])
  }

  function SessionSum(sessions: seq<Session>): nat {
    if sessions == [] then 0
    else SessionSum(sessions[..|sessions| - 1]) + SessionWeight(sessions[|sessions| - 1])
  }

  function Measure(s: State): nat { TaskSum(s.tasks) + SessionSum(s.sessions) }

  lemma {:induction false} TaskSumUpdate(tasks: seq<Task>, t: TaskId, task: Task)
    requires t < |tasks|
    ensures TaskSum(tasks[t := task]) == TaskSum(tasks) - TaskWeight(tasks[t]) + TaskWeight(task)
  {
    var n := |tasks| - 1;
    if t == n {
      assert tasks[t := task][..n] == tasks[..n];
    } else {
      assert tasks[t := task][..n] == tasks[..n][t := task];
      TaskSumUpdate(tasks[..n], t, task);
    }
  }

  lemma {:induction false} SessionSumUpdate(sessions: seq<Session>, sid: Sid, session: Session)
    requires sid < |sessions|
    ensures SessionSum(sessions[sid := session])
         == SessionSum(sessions) - SessionWeight(sessions[sid]) + SessionWeight(session)
  {
    var n := |sessions| - 1;
    if sid == n {
      assert sessions[sid := session][..n] == sessions[..n];
    } else {
      assert sessions[sid := session][..n] == sessions[..n][sid := session];
      SessionSumUpdate(sessions[..n], sid, session);
    }
  }

  /** Only marking a session for removal adds work for the threads. */
  lemma EffectWeight(s: State, t: TaskId, key: Key, e: Effect)
    requires TeardownsOk(s) && EffectDefined(s, e)
    ensures SessionSum(Apply(s, t, key, e).sessions) <= SessionSum(s.sessions) + if e.Destroy? then 2 else 0
  {
    var s' := Apply(s, t, key, e);
    match e
    case TakeLock(sid) => SessionSumUpdate(s.sessions, sid, s'.sessions[sid]);
    case FreeLock(sid) => SessionSumUpdate(s.sessions, sid, s'.sessions[sid]);
    case Destroy(sid) =>
      if !s.sessions[sid].destroyed { SessionSumUpdate(s.sessions, sid, s'.sessions[sid]); }
    case Register => assert s'.sessions[..|s.sessions|] == s.sessions;
    case _ =>
  }

  lemma RunRank(s: State, t: TaskId, c: Choice)
    requires Ready(s, t, c)
    ensures var (pc, e) := Move(s, t, c);
            Rank(pc) + (if e.Destroy? then 2 else 0) < Rank(s.tasks[t].pc)
  {
    if InCell(s.tasks[t].pc) { CellRank(s, t, c); } else { OtherRank(s, t, c); }
  }

  lemma CellRank(s: State, t: TaskId, c: Choice)
    requires Ready(s, t, c) && InCell(s.tasks[t].pc)
    ensures var (pc, e) := Move(s, t, c);
            Rank(pc) + (if e.Destroy? then 2 else 0) < Rank(s.tasks[t].pc)
  {
  }

  lemma OtherRank(s: State, t: TaskId, c: Choice)
    requires Ready(s, t, c) && !InCell(s.tasks[t].pc)
    ensures var (pc, e) := Move(s, t, c);
            Rank(pc) + (if e.Destroy? then 2 else 0) < Rank(s.tasks[t].pc)
  {
  }

  lemma CancelRank(s: State, t: TaskId, leaks: bool)
    requires Cancellable(s, t)
    ensures var (pc, e) := CancelMove(s, t, leaks);
            Rank(pc) + (if e.Destroy? then 2 else 0) <= Rank(s.tasks[t].pc)
  {
  }

  lemma StepDecreases(s: State, a: Action)
    requires TeardownsOk(s) && Enabled(s, a) && !a.Spawn?
    ensures Measure(Step(s, a)) < Measure(s)
  {
    match a
    case Run(t, c) =>
      var (pc, e) := Move(s, t, c);
      RunRank(s, t, c);
      EffectWeight(s, t, s.tasks[t].key, e);
      TaskSumUpdate(s.tasks, t, s.tasks[t].(pc := pc));
      assert s.tasks[t].(pc := pc, cancelled := s.tasks[t].cancelled) == s.tasks[t].(pc := pc);
    case Cancel(t, leaks) =>
      var (pc, e) := CancelMove(s, t, leaks);
      CancelRank(s, t, leaks);
      EffectWeight(s, t, s.tasks[t].key, e);
      TaskSumUpdate(s.tasks, t, s.tasks[t].(pc := pc, cancelled := true));
    case Worker(sid, fails) =>
      SessionSumUpdate(s.sessions, sid, Worked(s.sessions[sid], fails));
  }

  predicate NoSpawns(run: seq<Action>) { forall j | 0 <= j < |run| :: !run[j].Spawn? }

  /** Without new tasks, every run comes to an end: the measure bounds its length. */
  lemma {:induction false} RunsEnd(s: State, run: seq<Action>)
    requires Inv(s) && IsRun(s, run) && NoSpawns(run)
    ensures |run| <= Measure(s)
    decreases |run|
  {
    if run != [] {
      StepKeeps(s, run[0]);
      StepDecreases(s, run[0]);
      RunsEnd(Step(s, run[0]), run[1..]);
    }
  }

  ghost predicate Stuck(s: State) {
    forall a: Action | Progress(a) :: !Enabled(s, a)
  }

  /** Where a run ends, everything is cleaned up: every task is done, every lock is free, a slot is
      registered exactly if it caches a session, and every destroyed session had its container and its
      volume removed once each. */
  lemma StuckMeansClean(s: State)
    requires Inv(s) && Stuck(s)
    ensures forall t: TaskId | t < |s.tasks| :: s.tasks[t].pc == Finished
    ensures forall i: SlotId | i < |s.slots| ::
              s.slots[i].users == 0 && s.slots[i].holder == None && (Registered(s, i) <==> s.slots[i].cached.Some?)
    ensures forall sid: Sid | sid < |s.sessions| ::
              && s.sessions[sid].holder == None
              && (s.sessions[sid].destroyed ==>
                    s.sessions[sid].containerTries == s.sessions[sid].volumeTries == 1)
  {
    forall t: TaskId | t < |s.tasks| ensures s.tasks[t].pc == Finished {
      if s.tasks[t].pc != Finished {
        var a := NoDeadlock(s, t);
      }
    }
    forall i: SlotId | i < |s.slots|
      ensures s.slots[i].users == 0 && s.slots[i].holder == None && (Registered(s, i) <==> s.slots[i].cached.Some?)
    {
      IdleSlot(s, i);
    }
    forall sid: Sid | sid < |s.sessions|
      ensures s.sessions[sid].holder == None
      ensures s.sessions[sid].destroyed ==> s.sessions[sid].containerTries == s.sessions[sid].volumeTries == 1
    {
      assert TeardownOk(s.sessions[sid]);
      assert !Enabled(s, Worker(sid, false));
      LockHolder(s, sid);
    }
  }

  lemma IdleSlot(s: State, i: SlotId)
    requires Inv(s) && i < |s.slots|
    requires forall t: TaskId | t < |s.tasks| :: s.tasks[t].pc == Finished
    ensures s.slots[i].users == 0 && s.slots[i].holder == None && (Registered(s, i) <==> s.slots[i].cached.Some?)
  {
    CountNobody(Uses(s.tasks), i);
    assert InRegistry(s.slots, s.registry, i) <==> s.slots[i].cached.Some?;
    SlotHolder(s, i);
  }

  /** Where a run without dropping steps ends, the live containers are exactly the registered ones,
      and each is the one cached for its key. */
  lemma StuckLiveIsCached(s: State, sid: Sid)
    requires Inv(s) && Stuck(s) && NoOrphan(s) && Alive(s, sid)
    ensures var key := s.sessions[sid].key;
            && key in s.registry && s.registry[key] < |s.slots|
            && s.slots[s.registry[key]].cached == Some(sid) && sid in s.registered
  {
    StuckMeansClean(s);
    assert Owned(s, sid);
  }
}
