/** Removals are carried through: by a reaper for each session of its list, and by a cancelled cell. */
module SessionRemovals {
  import opened Prelude
  import opened SessionProtocol
  import opened SessionInvariants
  import opened SessionTheorems

  /** The dead stay dead, and a removal that raised stays one. */
  lemma DeadStay(s: State, a: Action, sid: Sid)
    requires Enabled(s, a) && Dead(s, sid)
    ensures Dead(Step(s, a), sid)
    ensures s.sessions[sid].phase == Removed(true) ==> Step(s, a).sessions[sid].phase == Removed(true)
  {
    StepOfSession(s, a, sid);
  }

  lemma OthersStand(s: State, a: Action, t: TaskId)
    requires Enabled(s, a) && t < |s.tasks| && !(a.Run? && a.t == t) && !(a.Cancel? && a.t == t)
    ensures t < |Step(s, a).tasks| && Step(s, a).tasks[t] == s.tasks[t]
  {
  }

  // ---------------------------------------------------------------- a reaper

  predicate AllDead(s: State, sids: seq<Sid>) { forall i | 0 <= i < |sids| :: Dead(s, sids[i]) }

  /** Every listed session is dead, or all up to one whose removal raised. */
  predicate Reaped(s: State, expired: seq<Sid>) {
    || AllDead(s, expired)
    || exists k: nat | k < |expired| ::
         AllDead(s, expired[..k + 1]) && s.sessions[expired[k]].phase == Removed(true)
  }

  /** The sessions of the list before `sid` are dead, and those after it are still to come. */
  predicate ReapFrom(s: State, expired: seq<Sid>, sid: Sid, ret: Return) {
    && ret.Alone? && |ret.rest| < |expired|
    && var k := |expired| - |ret.rest| - 1;
       expired[k] == sid && expired[k + 1..] == ret.rest && AllDead(s, expired[..k])
  }

  predicate Reaping(s: State, expired: seq<Sid>, pc: Pc) {
    match pc
    case RemoveLookup(sid, ret) => ReapFrom(s, expired, sid, ret)
    case RemoveWait(sid, ret) => ReapFrom(s, expired, sid, ret)
    case RemoveHeld(sid, ret) => ReapFrom(s, expired, sid, ret)
    case RemoveAwait(sid, ret) => ReapFrom(s, expired, sid, ret)
    case Finished => Reaped(s, expired)
    case _ => false
  }

  predicate AllKnown(s: State, sids: seq<Sid>) { forall i | 0 <= i < |sids| :: Known(s, sids[i]) }

  /** After a removal the reaper is done, or goes on to the next session. */
  lemma ReturnReaps(s: State, expired: seq<Sid>, sid: Sid, ret: Return, raises: bool)
    requires ReapFrom(s, expired, sid, ret) && Dead(s, sid)
    requires raises ==> s.sessions[sid].phase == Removed(true)
    ensures Reaping(s, expired, Returned(ret, raises))
  {
    var k := |expired| - |ret.rest| - 1;
    assert expired[..k + 1] == expired[..k] + [sid];
    assert AllDead(s, expired[..k + 1]);
    if ret.rest == [] {
      assert expired[..k + 1] == expired;
    } else {
      assert expired[k + 1..][0] == expired[k + 1] && expired[k + 1..][1..] == expired[k + 2..];
    }
  }

  lemma AllDeadStay(s: State, s': State, sids: seq<Sid>)
    requires AllDead(s, sids) && forall x: Sid | Dead(s, x) :: Dead(s', x)
    ensures AllDead(s', sids)
  {
    forall i | 0 <= i < |sids| ensures Dead(s', sids[i]) { assert Dead(s, sids[i]); }
  }

  lemma ReapFromStays(s: State, s': State, expired: seq<Sid>, sid: Sid, ret: Return)
    requires ReapFrom(s, expired, sid, ret) && forall x: Sid | Dead(s, x) :: Dead(s', x)
    ensures ReapFrom(s', expired, sid, ret)
  {
    AllDeadStay(s, s', expired[..|expired| - |ret.rest| - 1]);
  }

  lemma ReapedStays(s: State, a: Action, expired: seq<Sid>)
    requires Enabled(s, a) && Reaped(s, expired)
    ensures Reaped(Step(s, a), expired)
  {
    forall x: Sid | Dead(s, x) ensures Dead(Step(s, a), x) { DeadStay(s, a, x); }
    if AllDead(s, expired) {
      AllDeadStay(s, Step(s, a), expired);
    } else {
      var k: nat :| k < |expired| && AllDead(s, expired[..k + 1]) && s.sessions[expired[k]].phase == Removed(true);
      AllDeadStay(s, Step(s, a), expired[..k + 1]);
      assert Dead(s, expired[..k + 1][k]);
      DeadStay(s, a, expired[k]);
    }
  }

  lemma ReapingStays(s: State, a: Action, expired: seq<Sid>, pc: Pc)
    requires Enabled(s, a) && Reaping(s, expired, pc)
    ensures Reaping(Step(s, a), expired, pc)
  {
    forall x: Sid | Dead(s, x) ensures Dead(Step(s, a), x) { DeadStay(s, a, x); }
    match pc
    case RemoveLookup(sid, ret) => ReapFromStays(s, Step(s, a), expired, sid, ret);
    case RemoveWait(sid, ret) => ReapFromStays(s, Step(s, a), expired, sid, ret);
    case RemoveHeld(sid, ret) => ReapFromStays(s, Step(s, a), expired, sid, ret);
    case RemoveAwait(sid, ret) => ReapFromStays(s, Step(s, a), expired, sid, ret);
    case Finished => ReapedStays(s, a, expired);
  }

  /** Where a reaper's own step takes it. */
  lemma ReaperMoves(s: State, t: TaskId, c: Choice, expired: seq<Sid>)
    requires Inv(s) && Enabled(s, Run(t, c)) && AllKnown(s, expired) && Reaping(s, expired, s.tasks[t].pc)
    ensures Reaping(s, expired, Move(s, t, c).0)
  {
    var pc := s.tasks[t].pc;
    assert PcFacts(s, pc);
    var sid, ret := pc.sid, pc.ret;
    var k := |expired| - |ret.rest| - 1;
    assert Known(s, expired[k]);
    if pc.RemoveLookup? && sid !in s.registered { ReturnReaps(s, expired, sid, ret, false); }
    if pc.RemoveHeld? && Dead(s, sid) { ReturnReaps(s, expired, sid, ret, false); }
    if pc.RemoveAwait? { ReturnReaps(s, expired, sid, ret, s.sessions[sid].phase.raises); }
  }

  /** Task `t` reaps `expired`, unless it has been cancelled. */
  predicate Reaper(s: State, t: TaskId, expired: seq<Sid>) {
    && t < |s.tasks| && AllKnown(s, expired)
    && (s.tasks[t].cancelled || Reaping(s, expired, s.tasks[t].pc))
  }

  lemma KnownStay(s: State, a: Action, sids: seq<Sid>)
    requires Enabled(s, a) && AllKnown(s, sids)
    ensures AllKnown(Step(s, a), sids)
  {
    forall i | 0 <= i < |sids| ensures Known(Step(s, a), sids[i]) { StepOfSession(s, a, sids[i]); }
  }

  lemma ReaperGoesOn(s: State, a: Action, t: TaskId, expired: seq<Sid>)
    requires Inv(s) && Enabled(s, a) && Reaper(s, t, expired)
    ensures Reaper(Step(s, a), t, expired)
  {
    KnownStay(s, a, expired);
    if a.Run? && a.t == t {
      if !s.tasks[t].cancelled {
        ReaperMoves(s, t, a.choice, expired);
        ReapingStays(s, a, expired, Move(s, t, a.choice).0);
      }
    } else if a.Cancel? && a.t == t {
    } else {
      OthersStand(s, a, t);
      if !s.tasks[t].cancelled { ReapingStays(s, a, expired, s.tasks[t].pc); }
    }
  }

  lemma {:induction false} ReaperRuns(s: State, run: seq<Action>, t: TaskId, expired: seq<Sid>)
    requires Inv(s) && IsRun(s, run) && Reaper(s, t, expired)
    ensures Reaper(Last(s, run), t, expired)
    decreases |run|
  {
    if run != [] {
      StepKeeps(s, run[0]);
      ReaperGoesOn(s, run[0], t, expired);
      ReaperRuns(Step(s, run[0]), run[1..], t, expired);
    }
  }

  /** A reaper that comes to its end uncancelled leaves every session of its list dead, unless the
      removal of one of them raised; then it leaves those up to that one dead. */
  lemma ReaperReaps(s: State, key: Key, expired: seq<Sid>, run: seq<Action>)
    requires Inv(s) && AllKnown(s, expired) && IsRun(Step(s, Spawn(key, Remover(expired))), run)
    requires var task := Last(Step(s, Spawn(key, Remover(expired))), run).tasks;
             |s.tasks| < |task| && task[|s.tasks|].pc == Finished && !task[|s.tasks|].cancelled
    ensures Reaped(Last(Step(s, Spawn(key, Remover(expired))), run), expired)
  {
    var s1 := Step(s, Spawn(key, Remover(expired)));
    StepKeeps(s, Spawn(key, Remover(expired)));
    assert Reaping(s1, expired, Entry(key, Remover(expired)));
    ReaperRuns(s1, run, |s.tasks|, expired);
  }

  // ---------------------------------------------------------------- a cancelled cell

  /** The session of a cell that was cancelled is dead, or its task is about to mark it. */
  predicate Doomed(s: State, t: TaskId, sid: Sid) {
    t < |s.tasks| && Known(s, sid) && (Dead(s, sid) || (s.tasks[t].pc == CellMarking(sid) && s.tasks[t].cancelled))
  }

  lemma DoomedStays(s: State, a: Action, t: TaskId, sid: Sid)
    requires Enabled(s, a) && Doomed(s, t, sid)
    ensures Doomed(Step(s, a), t, sid)
  {
    StepOfSession(s, a, sid);
    if !(a.Run? && a.t == t) && !(a.Cancel? && a.t == t) { OthersStand(s, a, t); }
  }

  lemma {:induction false} DoomedRuns(s: State, run: seq<Action>, t: TaskId, sid: Sid)
    requires IsRun(s, run) && Doomed(s, t, sid)
    ensures Doomed(Last(s, run), t, sid)
    decreases |run|
  {
    if run != [] {
      DoomedStays(s, run[0], t, sid);
      DoomedRuns(Step(s, run[0]), run[1..], t, sid);
    }
  }

  /** A cell that is cancelled while it runs does not leave its session alive behind: whenever its task is
      past marking it, and so when it has ended, the session is dead. */
  lemma CancelledCellDies(s: State, t: TaskId, leaks: bool, sid: Sid, run: seq<Action>)
    requires Enabled(s, Cancel(t, leaks)) && s.tasks[t].pc == CellRunning(sid)
    requires IsRun(Step(s, Cancel(t, leaks)), run)
    ensures var s' := Last(Step(s, Cancel(t, leaks)), run);
            t < |s'.tasks| && (s'.tasks[t].pc != CellMarking(sid) ==> Dead(s', sid))
  {
    DoomedRuns(Step(s, Cancel(t, leaks)), run, t, sid);
  }

  // ---------------------------------------------------------------- which cells run

  /** Only the cell of a Python task with a good timeout gets past looking up its session. */
  predicate CellAllowed(task: Task) {
    InCell(task.pc) ==> task.job.Python? && (!task.pc.CellLookup? ==> !task.job.badTimeout)
  }

  lemma CellAllowedStays(s: State, a: Action, t: TaskId)
    requires Enabled(s, a) && t < |Step(s, a).tasks| && (t < |s.tasks| ==> CellAllowed(s.tasks[t]))
    ensures CellAllowed(Step(s, a).tasks[t])
  {
    if t < |s.tasks| && !(a.Run? && a.t == t) && !(a.Cancel? && a.t == t) { OthersStand(s, a, t); }
  }

  /** A cell whose timeout is refused is never run, and neither is one of another kind of task. */
  lemma {:induction false} CellsAreAllowed(s: State, run: seq<Action>, t: TaskId)
    requires IsRun(s, run) && t < |Last(s, run).tasks|
    requires forall u: TaskId | u < |s.tasks| :: CellAllowed(s.tasks[u])
    ensures CellAllowed(Last(s, run).tasks[t])
    decreases |run|
  {
    if run != [] {
      var s' := Step(s, run[0]);
      forall u: TaskId | u < |s'.tasks| ensures CellAllowed(s'.tasks[u]) { CellAllowedStays(s, run[0], u); }
      CellsAreAllowed(s', run[1..], t);
    }
  }
}
