/**
  The sandbox session life cycle as a step system: the run-scoped slot registry of
  `henry/sandbox/tools.py` on top of the container registry of `henry/sandbox/docker.py`.

  Any number of tool, clear, destroy and reap tasks run interleaved.  One action is one
  stretch of code between two suspension points (or a smaller piece of one), so every
  interleaving of the event loop is a run of this system.  Worker threads that remove a
  container are separate: they go on after the task that awaits them is cancelled.
 */
module SessionProtocol {
  import opened Prelude
  import opened HostDecode

  type TaskId = nat
  type SlotId = nat
  type Sid = nat

  /** `_session_key`: the sandbox object and the run that owns the session. */
  datatype Key = Key(sandbox: nat, runId: string)

  /** `_SessionSlot`; `holder` is the task inside `slot.lock`. */
  datatype Slot = Slot(key: Key, users: int, cached: Option<Sid>, holder: Option<TaskId>)

  /** Progress of `_remove` in its worker thread. */
  datatype Phase = Untouched | AtContainer | AtVolume(failed: bool) | Removed(raises: bool)

  /** `_Session`, with the key it was started for and the removal attempts made so far. */
  datatype Session = Session(
    key: Key, destroyed: bool, holder: Option<TaskId>, phase: Phase, containerTries: nat, volumeTries: nat)

  /** What a task is for.  A remover is `DockerSandbox.destroy` or `reap_expired`. */
  datatype Job =
    | Python(badTimeout: bool)
    | Files
    | Clear(destroy: bool)
    | Remover(expired: seq<Sid>)

  /** Why a task enters `_locked_slot`. */
  datatype Visit = Fetch | Forget(stale: Sid) | Wipe(destroy: bool)

  /** What follows `_locked_slot`: a session to use, or the end of the task.  `Emptied` is an
      end reached with nothing left in the slot's cache: a failed start, or a finished clear. */
  datatype After = Use(sid: Sid) | Quit | Emptied

  /** Where `_remove_session` returns to: a locked slot, or the remaining reap list. */
  datatype Return = InSlot(slot: SlotId) | Alone(rest: seq<Sid>)

  datatype Pc =
    | Outside(visit: Visit)
    | SlotWait(visit: Visit, slot: SlotId)
    | SlotBody(visit: Visit, slot: SlotId)
    | Creating(slot: SlotId)
    | Readying(slot: SlotId, sid: Sid)
    | ReadingLogs(slot: SlotId, sid: Sid)
    | SlotRelease(slot: SlotId, after: After)
    | SlotLeave(slot: SlotId, after: After)
    | RemoveLookup(sid: Sid, ret: Return)
    | RemoveWait(sid: Sid, ret: Return)
    | RemoveHeld(sid: Sid, ret: Return)
    | RemoveAwait(sid: Sid, ret: Return)
    | CellLookup(sid: Sid)
    | CellWait(sid: Sid)
    | CellHeld(sid: Sid)
    | CellRunning(sid: Sid)
    | CellMarking(sid: Sid)
    | CellInvalidating(sid: Sid, raising: bool)
    | CellReturning(sid: Sid, invalidated: bool)
    | Finished

  datatype Task = Task(key: Key, job: Job, pc: Pc, cancelled: bool)

  /** `leaked` counts containers created by a cancelled `start`, which no registry ever saw. */
  datatype State = State(
    tasks: seq<Task>, slots: seq<Slot>, registry: map<Key, SlotId>,
    sessions: seq<Session>, registered: set<Sid>, leaked: nat)

  /** How an awaited Docker call ends. */
  datatype Choice = Proceed | Fails | Replies(reply: DockerReply)

  datatype Action =
    | Spawn(key: Key, job: Job)
    | Run(t: TaskId, choice: Choice)
    | Cancel(t: TaskId, leaks: bool)
    | Worker(sid: Sid, fails: bool)

  /** What one step of a task does to the state it shares with the others. */
  datatype Effect =
    | Nothing
    | EnterSlot
    | TakeSlot(slot: SlotId)
    | FreeSlot(slot: SlotId)
    | LeaveSlot(slot: SlotId)
    | Cache(slot: SlotId, cached: Option<Sid>)
    | TakeLock(sid: Sid)
    | FreeLock(sid: Sid)
    | Destroy(sid: Sid)
    | Register
    | Leak

  const INITIAL := State([], [], map[], [], {}, 0)

  // ---------------------------------------------------------------- shared state

  /** The slot `setdefault` yields for a key: the registered one, or a new one. */
  function SlotFor(s: State, key: Key): SlotId {
    if key in s.registry then s.registry[key] else |s.slots|
  }

  predicate Registered(s: State, i: SlotId)
    requires i < |s.slots|
  {
    s.slots[i].key in s.registry && s.registry[s.slots[i].key] == i
  }

  /** The registry block on entry to `_locked_slot`. */
  function Entered(s: State, key: Key): State {
    var i := SlotFor(s, key);
    if i < |s.slots| then
      s.(slots := s.slots[i := s.slots[i].(users := s.slots[i].users + 1)])
    else
      s.(slots := s.slots + [Slot(key, 1, None, None)], registry := s.registry[key := |s.slots|])
  }

  /** The registry block in the `finally` of `_locked_slot`, with its `is slot` guard. */
  function Left(s: State, key: Key, i: SlotId): State
    requires i < |s.slots|
  {
    var slot := s.slots[i].(users := s.slots[i].users - 1);
    var s1 := s.(slots := s.slots[i := slot]);
    if slot.users == 0 && slot.cached.None? && key in s.registry && s.registry[key] == i
    then s1.(registry := s.registry - {key})
    else s1
  }

  /** The first stretch of `_remove_session_locked`: mark, pop, hand over to the thread. */
  function Marked(s: State, sid: Sid): State
    requires sid < |s.sessions|
  {
    if s.sessions[sid].destroyed then s
    else
      s.(sessions := s.sessions[sid := s.sessions[sid].(destroyed := true, phase := AtContainer)],
         registered := s.registered - {sid})
  }

  /** `_sessions[session] = _Session(...)` for a fresh container id. */
  function Started(s: State, key: Key): State {
    s.(sessions := s.sessions + [Session(key, false, None, Untouched, 0, 0)],
       registered := s.registered + {|s.sessions|})
  }

  predicate EffectDefined(s: State, e: Effect) {
    match e
    case TakeSlot(i) => i < |s.slots|
    case FreeSlot(i) => i < |s.slots|
    case LeaveSlot(i) => i < |s.slots|
    case Cache(i, _) => i < |s.slots|
    case TakeLock(sid) => sid < |s.sessions|
    case FreeLock(sid) => sid < |s.sessions|
    case Destroy(sid) => sid < |s.sessions|
    case _ => true
  }

  /** The effect `e` of task `t`, owner of `key`, on the shared state. */
  function Apply(s: State, t: TaskId, key: Key, e: Effect): State
    requires EffectDefined(s, e)
  {
    match e
    case Nothing => s
    case EnterSlot => Entered(s, key)
    case TakeSlot(i) => s.(slots := s.slots[i := s.slots[i].(holder := Some(t))])
    case FreeSlot(i) => s.(slots := s.slots[i := s.slots[i].(holder := None)])
    case LeaveSlot(i) => Left(s, key, i)
    case Cache(i, c) => s.(slots := s.slots[i := s.slots[i].(cached := c)])
    case TakeLock(sid) => s.(sessions := s.sessions[sid := s.sessions[sid].(holder := Some(t))])
    case FreeLock(sid) => s.(sessions := s.sessions[sid := s.sessions[sid].(holder := None)])
    case Destroy(sid) => Marked(s, sid)
    case Register => Started(s, key)
    case Leak => s.(leaked := s.leaked + 1)
  }

  // ---------------------------------------------------------------- control flow

  /** The body of `_session_for`, `_forget_session` or `clear_sandbox_session` under the slot lock. */
  function Body(cached: Option<Sid>, visit: Visit, i: SlotId): (Pc, Effect) {
    match visit
    case Fetch =>
      if cached.Some? then (SlotRelease(i, Use(cached.value)), Nothing) else (Creating(i), Nothing)
    case Forget(stale) =>
      (SlotRelease(i, Quit), if cached == Some(stale) then Cache(i, None) else Nothing)
    case Wipe(destroy) =>
      (if cached.Some? && destroy then RemoveLookup(cached.value, InSlot(i)) else SlotRelease(i, Emptied),
       Cache(i, None))
  }

  /** After `_remove_session`: a raised error ends the caller, a reaper goes on otherwise. */
  function Returned(ret: Return, raises: bool): Pc {
    match ret
    case InSlot(i) => SlotRelease(i, Emptied)
    case Alone(rest) => if raises || rest == [] then Finished else RemoveLookup(rest[0], Alone(rest[1..]))
  }

  function AfterSlot(job: Job, after: After): Pc {
    match after
    case Quit => Finished
    case Emptied => Finished
    case Use(sid) => if job.Python? then CellLookup(sid) else Finished
  }

  predicate Ready(s: State, t: TaskId, c: Choice) {
    && t < |s.tasks|
    && match s.tasks[t].pc
       case Outside(_) => true
       case SlotWait(_, i) => i < |s.slots| && s.slots[i].holder.None?
       case SlotBody(_, i) => i < |s.slots|
       case Creating(_) => !c.Replies?
       case Readying(i, _) => i < |s.slots| && !c.Replies?
       case ReadingLogs(_, _) => true
       case SlotRelease(i, _) => i < |s.slots|
       case SlotLeave(i, _) => i < |s.slots|
       case RemoveLookup(_, _) => true
       case RemoveWait(sid, _) => sid < |s.sessions| && s.sessions[sid].holder.None?
       case RemoveHeld(sid, _) => sid < |s.sessions|
       case RemoveAwait(sid, _) => sid < |s.sessions| && s.sessions[sid].phase.Removed?
       case CellLookup(_) => true
       case CellWait(sid) => sid < |s.sessions| && s.sessions[sid].holder.None?
       case CellHeld(sid) => sid < |s.sessions|
       case CellRunning(sid) => sid < |s.sessions| && c.Replies?
       case CellMarking(sid) => sid < |s.sessions|
       case CellInvalidating(sid, _) => sid < |s.sessions| && s.sessions[sid].phase.Removed?
       case CellReturning(sid, _) => sid < |s.sessions|
       case Finished => false
  }

  /** Where task `t` goes next, and what that does to the shared state. */
  function Move(s: State, t: TaskId, c: Choice): (Pc, Effect)
    requires Ready(s, t, c)
  {
    var Task(key, job, pc, _) := s.tasks[t];
    match pc
    case Outside(v) => (SlotWait(v, SlotFor(s, key)), EnterSlot)
    case SlotWait(v, i) => (SlotBody(v, i), TakeSlot(i))
    case SlotBody(v, i) => Body(s.slots[i].cached, v, i)
    case Creating(i) =>
      if c.Proceed? then (Readying(i, |s.sessions|), Register) else (SlotRelease(i, Emptied), Nothing)
    case Readying(i, sid) =>
      if c.Proceed? then (SlotRelease(i, Use(sid)), Cache(i, Some(sid))) else (ReadingLogs(i, sid), Nothing)
    case ReadingLogs(i, sid) => (RemoveLookup(sid, InSlot(i)), Nothing)
    case SlotRelease(i, after) => (SlotLeave(i, after), FreeSlot(i))
    case SlotLeave(i, after) => (AfterSlot(job, after), LeaveSlot(i))
    case RemoveLookup(sid, ret) =>
      (if sid in s.registered then RemoveWait(sid, ret) else Returned(ret, false), Nothing)
    case RemoveWait(sid, ret) => (RemoveHeld(sid, ret), TakeLock(sid))
    case RemoveHeld(sid, ret) =>
      if s.sessions[sid].destroyed then (Returned(ret, false), FreeLock(sid))
      else (RemoveAwait(sid, ret), Destroy(sid))
    case RemoveAwait(sid, ret) => (Returned(ret, s.sessions[sid].phase.raises), FreeLock(sid))
    case CellLookup(sid) =>
      (if sid !in s.registered then Outside(Forget(sid))
       else if job.Python? && job.badTimeout then Finished
       else CellWait(sid), Nothing)
    case CellWait(sid) => (CellHeld(sid), TakeLock(sid))
    case CellHeld(sid) =>
      if s.sessions[sid].destroyed then (Outside(Forget(sid)), FreeLock(sid)) else (CellRunning(sid), Nothing)
    case CellRunning(sid) =>
      if ExecCell(c.reply).sessionInvalidated then (CellInvalidating(sid, false), Destroy(sid))
      else (CellReturning(sid, false), Nothing)
    case CellMarking(sid) => (CellInvalidating(sid, true), Destroy(sid))
    case CellInvalidating(sid, raising) =>
      if raising then (Finished, FreeLock(sid)) else (CellReturning(sid, true), Nothing)
    case CellReturning(sid, invalidated) =>
      (if invalidated then Outside(Forget(sid)) else Finished, FreeLock(sid))
  }

  /** The suspension points at which a cancellation can be delivered. */
  predicate Cancellable(s: State, t: TaskId) {
    && t < |s.tasks|
    && !s.tasks[t].cancelled
    && match s.tasks[t].pc
       case SlotWait(_, _) => true
       case Creating(_) => true
       case Readying(_, _) => true
       case ReadingLogs(_, _) => true
       case RemoveWait(_, _) => true
       case RemoveHeld(_, _) => true
       case RemoveAwait(_, _) => true
       case CellWait(_) => true
       case CellRunning(sid) => sid < |s.sessions|
       case CellInvalidating(sid, raising) => sid < |s.sessions| && !raising
       case _ => false
  }

  /** Where a cancellation takes task `t`.  Shielded removals finish before it propagates; the one of a
      cell is a new task, which has yet to mark the session. */
  function CancelMove(s: State, t: TaskId, leaks: bool): (Pc, Effect)
    requires Cancellable(s, t)
  {
    match s.tasks[t].pc
    case SlotWait(_, i) => (SlotLeave(i, Quit), Nothing)
    case Creating(i) => (SlotRelease(i, Emptied), if leaks then Leak else Nothing)
    case Readying(i, sid) => (RemoveLookup(sid, InSlot(i)), Nothing)
    case ReadingLogs(i, _) => (SlotRelease(i, Emptied), Nothing)
    case RemoveWait(_, ret) => (Returned(ret, true), Nothing)
    case RemoveHeld(sid, ret) => (RemoveHeld(sid, if ret.InSlot? then ret else Alone([])), Nothing)
    case RemoveAwait(sid, ret) => (RemoveAwait(sid, if ret.InSlot? then ret else Alone([])), Nothing)
    case CellWait(_) => (Finished, Nothing)
    case CellRunning(sid) => (CellMarking(sid), Nothing)
    case CellInvalidating(sid, _) => (Finished, FreeLock(sid))
  }

  /** One step of the removal thread; the volume is tried whether or not the container went. */
  function Worked(session: Session, fails: bool): Session
    requires session.phase.AtContainer? || session.phase.AtVolume?
  {
    match session.phase
    case AtContainer => session.(phase := AtVolume(fails), containerTries := session.containerTries + 1)
    case AtVolume(failed) => session.(phase := Removed(failed || fails), volumeTries := session.volumeTries + 1)
  }

  /** First program counter of a job; `_session_for` refuses an empty run id. */
  function Entry(key: Key, job: Job): Pc {
    match job
    case Clear(destroy) => Outside(Wipe(destroy))
    case Remover(expired) => if expired == [] then Finished else RemoveLookup(expired[0], Alone(expired[1..]))
    case _ => if key.runId == "" then Finished else Outside(Fetch)
  }

  predicate Enabled(s: State, a: Action) {
    match a
    case Spawn(_, _) => true
    case Run(t, c) => Ready(s, t, c) && EffectDefined(s, Move(s, t, c).1)
    case Cancel(t, leaks) => Cancellable(s, t) && EffectDefined(s, CancelMove(s, t, leaks).1)
    case Worker(sid, _) =>
      sid < |s.sessions| && (s.sessions[sid].phase.AtContainer? || s.sessions[sid].phase.AtVolume?)
  }

  /** Task `t` moves to `pc` with effect `e`. */
  function Advanced(s: State, t: TaskId, pc: Pc, cancelled: bool, e: Effect): State
    requires t < |s.tasks| && EffectDefined(s, e)
  {
    var task := s.tasks[t];
    Apply(s, t, task.key, e).(tasks := s.tasks[t := task.(pc := pc, cancelled := cancelled)])
  }

  function Step(s: State, a: Action): State
    requires Enabled(s, a)
  {
    match a
    case Spawn(key, job) => s.(tasks := s.tasks + [Task(key, job, Entry(key, job), false)])
    case Run(t, c) =>
      var (pc, e) := Move(s, t, c);
      Advanced(s, t, pc, s.tasks[t].cancelled, e)
    case Cancel(t, leaks) =>
      var (pc, e) := CancelMove(s, t, leaks);
      Advanced(s, t, pc, true, e)
    case Worker(sid, fails) => s.(sessions := s.sessions[sid := Worked(s.sessions[sid], fails)])
  }

  /** `run` is a run from `s`: each action is enabled where it is taken. */
  predicate IsRun(s: State, run: seq<Action>)
    decreases |run|
  {
    run == [] || (Enabled(s, run[0]) && IsRun(Step(s, run[0]), run[1..]))
  }

  function Last(s: State, run: seq<Action>): State
    requires IsRun(s, run)
    decreases |run|
  {
    if run == [] then s else Last(Step(s, run[0]), run[1..])
  }
}
