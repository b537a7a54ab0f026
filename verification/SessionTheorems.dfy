/** Main results about the sandbox session life cycle. */
module SessionTheorems {
  import opened Prelude
  import opened SessionProtocol
  import opened SessionInvariants

  // ---------------------------------------------------------------- slots

  /** At most one task per key is inside the locked body, although slots come and go. */
  lemma OneInsidePerKey(s: State, t: TaskId, u: TaskId)
    requires Inv(s) && t < |s.tasks| && u < |s.tasks| && s.tasks[t].key == s.tasks[u].key
    requires CritOf(s.tasks[t].pc).Some? && CritOf(s.tasks[u].pc).Some?
    ensures t == u
  {
    InsideHolds(s, t);
    InsideHolds(s, u);
  }

  /** The task inside the body of its slot holds the lock of the slot registered for its key. */
  lemma InsideHolds(s: State, t: TaskId)
    requires RegistryOk(s) && SlotLocksOk(s) && t < |s.tasks| && CritOf(s.tasks[t].pc).Some?
    ensures s.tasks[t].key in s.registry && s.registry[s.tasks[t].key] < |s.slots|
    ensures s.slots[s.registry[s.tasks[t].key]].holder == Some(t)
  {
    SlotIsRegistered(s, t);
    var i := CritOf(s.tasks[t].pc).value;
    assert Crits(s.tasks)[t] == Some(i);
    assert SlotHolders(s.slots)[i] == s.slots[i].holder;
  }

  /** The slot a task uses is registered for its key, and `users` counts it. */
  lemma SlotIsRegistered(s: State, t: TaskId)
    requires RegistryOk(s) && t < |s.tasks| && SlotOf(s.tasks[t].pc).Some?
    ensures var i := SlotOf(s.tasks[t].pc).value;
            && i < |s.slots| && s.slots[i].users > 0 && s.slots[i].key == s.tasks[t].key
            && s.tasks[t].key in s.registry && s.registry[s.tasks[t].key] == i
  {
    assert Uses(s.tasks)[t] == SlotOf(s.tasks[t].pc);
    UsedSlotIsRegistered(s.slots, s.registry, Uses(s.tasks), Keys(s.tasks), t);
  }

  /** A slot outside the registry has no users, no cached session, and nobody inside. */
  lemma UnregisteredSlotIsDead(s: State, i: SlotId)
    requires Inv(s) && i < |s.slots| && !Registered(s, i)
    ensures s.slots[i].users == Count(Uses(s.tasks), i) == 0
    ensures s.slots[i].cached == None && s.slots[i].holder == None
  {
    assert !InRegistry(s.slots, s.registry, i);
    if s.slots[i].holder.Some? {
      var t := s.slots[i].holder.value;
      assert SlotHolders(s.slots)[i] == Some(t);
      assert Crits(s.tasks)[t] == Some(i);
      SlotIsRegistered(s, t);
    }
  }

  // ---------------------------------------------------------------- ownership of live containers

  /** The slot registered for the session's key caches it, or the task inside that slot handles it. */
  predicate Owned(s: State, sid: Sid)
    requires sid < |s.sessions|
  {
    var key := s.sessions[sid].key;
    && key in s.registry
    && s.registry[key] < |s.slots|
    && var slot := s.slots[s.registry[key]];
       || slot.cached == Some(sid)
       || (slot.holder.Some? && slot.holder.value < |s.tasks|
           && HandsOf(s.tasks[slot.holder.value].pc) == Some(sid))
  }

  ghost predicate NoOrphan(s: State) {
    && s.leaked == 0
    && forall sid: Sid | Alive(s, sid) :: Owned(s, sid)
  }

  /** The steps that let go of a live container: a cancellation while `start` creates the container,
      reads the logs of a failed start or waits for the lock of the session it removes, a cancellation
      while `clear` waits for that lock, and `clear` with `destroy=False`. */
  predicate Drops(s: State, a: Action) {
    match a
    case Run(t, _) =>
      && t < |s.tasks|
      && (match s.tasks[t].pc
          case SlotBody(v, i) =>
            v.Wipe? && !v.destroy && i < |s.slots| && s.slots[i].cached.Some? && Alive(s, s.slots[i].cached.value)
          case _ => false)
    case Cancel(t, leaks) =>
      && t < |s.tasks|
      && (match s.tasks[t].pc
          case Creating(_) => leaks
          case ReadingLogs(_, sid) => Alive(s, sid)
          case RemoveWait(sid, ret) => ret.InSlot? && Alive(s, sid)
          case _ => false)
    case _ => false
  }

  lemma HandsOwn(s: State, t: TaskId, sid: Sid)
    requires Inv(s) && t < |s.tasks| && HandsOf(s.tasks[t].pc) == Some(sid)
    ensures sid < |s.sessions| && Owned(s, sid)
  {
    assert HandlingOk(s, s.tasks[t].key, s.tasks[t].pc);
    SlotIsRegistered(s, t);
    assert Crits(s.tasks)[t] == CritOf(s.tasks[t].pc);
    var i := CritOf(s.tasks[t].pc).value;
    assert SlotHolders(s.slots)[i] == s.slots[i].holder;
  }

  lemma CachedOwn(s: State, i: SlotId, sid: Sid)
    requires Inv(s) && i < |s.slots| && s.slots[i].cached == Some(sid)
    ensures sid < |s.sessions| && Owned(s, sid)
  {
    assert InRegistry(s.slots, s.registry, i);
  }

  /** Task `t` moving to `pc` with effect `e` keeps hold of the session `sid`. */
  predicate HoldsOn(s: State, t: TaskId, pc: Pc, e: Effect, sid: Sid)
    requires t < |s.tasks| && EffectDefined(s, e)
  {
    var kept := HandsOf(pc) == Some(sid) || (e.Cache? && e.cached == Some(sid));
    && (HandsOf(s.tasks[t].pc) == Some(sid) ==> kept)
    && (e.Cache? && s.slots[e.slot].cached == Some(sid) ==> kept)
  }

  /** Who keeps the session after the step: task `t`, the slot it caches into, or whoever had it before. */
  lemma OwnerAfter(s: State, t: TaskId, pc: Pc, cancelled: bool, e: Effect, sid: Sid)
    requires t < |s.tasks| && EffectDefined(s, e) && sid < |s.sessions|
    requires Owned(s, sid) && HoldsOn(s, t, pc, e, sid)
    ensures var s' := Advanced(s, t, pc, cancelled, e);
            || (exists u: TaskId :: u < |s'.tasks| && HandsOf(s'.tasks[u].pc) == Some(sid))
            || (exists i: SlotId :: i < |s'.slots| && s'.slots[i].cached == Some(sid))
  {
    var s' := Advanced(s, t, pc, cancelled, e);
    var i := s.registry[s.sessions[sid].key];
    if HandsOf(pc) == Some(sid) {
      assert HandsOf(s'.tasks[t].pc) == Some(sid);
    } else if e.Cache? && e.cached == Some(sid) {
      assert s'.slots[e.slot].cached == Some(sid);
    } else if s.slots[i].cached == Some(sid) {
      assert s'.slots[i].cached == Some(sid);
    } else {
      var u := s.slots[i].holder.value;
      assert HandsOf(s'.tasks[u].pc) == Some(sid);
    }
  }

  lemma OwnedKept(s: State, t: TaskId, pc: Pc, cancelled: bool, e: Effect, sid: Sid)
    requires t < |s.tasks| && EffectDefined(s, e) && sid < |s.sessions|
    requires Owned(s, sid) && HoldsOn(s, t, pc, e, sid)
    requires Inv(Advanced(s, t, pc, cancelled, e))
    ensures sid < |Advanced(s, t, pc, cancelled, e).sessions| && Owned(Advanced(s, t, pc, cancelled, e), sid)
  {
    var s' := Advanced(s, t, pc, cancelled, e);
    OwnerAfter(s, t, pc, cancelled, e, sid);
    if u: TaskId :| u < |s'.tasks| && HandsOf(s'.tasks[u].pc) == Some(sid) {
      HandsOwn(s', u, sid);
    } else {
      var i: SlotId :| i < |s'.slots| && s'.slots[i].cached == Some(sid);
      CachedOwn(s', i, sid);
    }
  }

  lemma RunHoldsOn(s: State, t: TaskId, c: Choice, sid: Sid)
    requires LocalOk(s, t) && TeardownsOk(s) && HandlingOk(s, s.tasks[t].key, s.tasks[t].pc)
    requires Enabled(s, Run(t, c)) && !Drops(s, Run(t, c))
    requires Alive(Step(s, Run(t, c)), sid) && sid < |s.sessions|
    ensures var (pc, e) := Move(s, t, c); HoldsOn(s, t, pc, e, sid)
  {
  }

  lemma CancelHoldsOn(s: State, t: TaskId, leaks: bool, sid: Sid)
    requires LocalOk(s, t) && Enabled(s, Cancel(t, leaks)) && !Drops(s, Cancel(t, leaks))
    requires Alive(Step(s, Cancel(t, leaks)), sid) && sid < |s.sessions|
    ensures var (pc, e) := CancelMove(s, t, leaks); HoldsOn(s, t, pc, e, sid)
  {
  }

  lemma AliveBefore(s: State, a: Action, sid: Sid)
    requires Enabled(s, a) && sid < |s.sessions| && Alive(Step(s, a), sid)
    ensures Alive(s, sid)
  {
  }

  /** A session that is new after a step is in the hands of the task that started it. */
  lemma NewIsHandled(s: State, a: Action, sid: Sid)
    requires Enabled(s, a) && |s.sessions| <= sid < |Step(s, a).sessions|
    ensures a.Run? && HandsOf(Step(s, a).tasks[a.t].pc) == Some(sid)
  {
  }

  lemma StaysOwned(s: State, a: Action, sid: Sid)
    requires Inv(s) && NoOrphan(s) && Enabled(s, a) && !Drops(s, a) && Alive(Step(s, a), sid)
    ensures Owned(Step(s, a), sid)
  {
    StepKeeps(s, a);
    if sid >= |s.sessions| {
      NewIsHandled(s, a, sid);
      HandsOwn(Step(s, a), a.t, sid);
    } else {
      AliveBefore(s, a, sid);
      match a
      case Run(t, c) => RunStaysOwned(s, t, c, sid);
      case Cancel(t, leaks) => CancelStaysOwned(s, t, leaks, sid);
      case _ => OthersLeaveOwners(s, a, sid);
    }
  }

  lemma OthersLeaveOwners(s: State, a: Action, sid: Sid)
    requires Enabled(s, a) && (a.Spawn? || a.Worker?) && sid < |s.sessions| && Owned(s, sid)
    ensures sid < |Step(s, a).sessions| && Owned(Step(s, a), sid)
  {
  }

  lemma RunStaysOwned(s: State, t: TaskId, c: Choice, sid: Sid)
    requires Inv(s) && Enabled(s, Run(t, c)) && Inv(Step(s, Run(t, c))) && !Drops(s, Run(t, c))
    requires sid < |s.sessions| && Owned(s, sid) && Alive(Step(s, Run(t, c)), sid)
    ensures Owned(Step(s, Run(t, c)), sid)
  {
    InvLocal(s, t);
    RunHoldsOn(s, t, c, sid);
    var (pc, e) := Move(s, t, c);
    OwnedKept(s, t, pc, s.tasks[t].cancelled, e, sid);
  }

  lemma CancelStaysOwned(s: State, t: TaskId, leaks: bool, sid: Sid)
    requires Inv(s) && Enabled(s, Cancel(t, leaks)) && Inv(Step(s, Cancel(t, leaks)))
    requires !Drops(s, Cancel(t, leaks))
    requires sid < |s.sessions| && Owned(s, sid) && Alive(Step(s, Cancel(t, leaks)), sid)
    ensures Owned(Step(s, Cancel(t, leaks)), sid)
  {
    InvLocal(s, t);
    CancelHoldsOn(s, t, leaks, sid);
    var (pc, e) := CancelMove(s, t, leaks);
    OwnedKept(s, t, pc, true, e, sid);
  }

  lemma DropOrphans(s: State, a: Action)
    requires Inv(s) && NoOrphan(s) && Enabled(s, a) && Drops(s, a)
    ensures !NoOrphan(Step(s, a))
  {
    var t := a.t;
    InvLocal(s, t);
    if !s.tasks[t].pc.Creating? {
      CritKey(s, t);
      SlotIsRegistered(s, t);
      assert Crits(s.tasks)[t] == CritOf(s.tasks[t].pc);
      assert HandlingOk(s, s.tasks[t].key, s.tasks[t].pc);
      var sid := if s.tasks[t].pc.SlotBody? then s.slots[s.tasks[t].pc.slot].cached.value else s.tasks[t].pc.sid;
      Abandoned(s, a, t, sid);
    }
  }

  /** The session a dropping step lets go of is left alive with nobody to clean it up. */
  lemma Abandoned(s: State, a: Action, t: TaskId, sid: Sid)
    requires (a.Run? || a.Cancel?) && a.t == t && Enabled(s, a) && Drops(s, a) && !s.tasks[t].pc.Creating?
    requires CachedOk(s) && HandlingOk(s, s.tasks[t].key, s.tasks[t].pc)
    requires var i := CritOf(s.tasks[t].pc);
             && i.Some? && i.value < |s.slots| && SlotHolders(s.slots)[i.value] == Some(t)
             && s.slots[i.value].key == s.tasks[t].key
             && s.tasks[t].key in s.registry && s.registry[s.tasks[t].key] == i.value
             && (if s.tasks[t].pc.SlotBody? then s.slots[i.value].cached == Some(sid)
                 else HandsOf(s.tasks[t].pc) == Some(sid))
    ensures Alive(Step(s, a), sid) && !Owned(Step(s, a), sid)
  {
  }

  /** From a state without orphans, a step leaves one behind exactly if it is one of the dropping steps. */
  lemma OrphanExactly(s: State, a: Action)
    requires Inv(s) && NoOrphan(s) && Enabled(s, a)
    ensures NoOrphan(Step(s, a)) <==> !Drops(s, a)
  {
    if Drops(s, a) {
      DropOrphans(s, a);
    } else {
      OthersKeep(s, a);
    }
  }

  lemma OthersKeep(s: State, a: Action)
    requires Inv(s) && NoOrphan(s) && Enabled(s, a) && !Drops(s, a)
    ensures NoOrphan(Step(s, a))
  {
    NothingLeaks(s, a);
    forall sid: Sid | Alive(Step(s, a), sid) ensures Owned(Step(s, a), sid) {
      StaysOwned(s, a, sid);
    }
  }

  lemma NothingLeaks(s: State, a: Action)
    requires Enabled(s, a) && !Drops(s, a)
    ensures Step(s, a).leaked == s.leaked
  {
  }

  ghost predicate NeverOrphans(s: State, run: seq<Action>)
    requires IsRun(s, run)
    decreases |run|
  {
    NoOrphan(s) && (run == [] || NeverOrphans(Step(s, run[0]), run[1..]))
  }

  predicate NeverDrops(s: State, run: seq<Action>)
    requires IsRun(s, run)
    decreases |run|
  {
    run == [] || (!Drops(s, run[0]) && NeverDrops(Step(s, run[0]), run[1..]))
  }

  lemma {:induction false} NeverOrphansIff(s: State, run: seq<Action>)
    requires Inv(s) && NoOrphan(s) && IsRun(s, run)
    ensures NeverOrphans(s, run) <==> NeverDrops(s, run)
    decreases |run|
  {
    if run != [] {
      StepKeeps(s, run[0]);
      OrphanExactly(s, run[0]);
      if !Drops(s, run[0]) {
        NeverOrphansIff(Step(s, run[0]), run[1..]);
      }
    }
  }

  /** A run of the system never orphans a container if and only if it takes no dropping step. */
  lemma RunsNeverOrphan(run: seq<Action>)
    requires IsRun(INITIAL, run)
    ensures NeverOrphans(INITIAL, run) <==> NeverDrops(INITIAL, run)
  {
    NeverOrphansIff(INITIAL, run);
  }

  /** A run has at most one live container at a time. */
  lemma OneLiveSessionPerKey(s: State, sid: Sid, other: Sid)
    requires Inv(s) && NoOrphan(s) && Alive(s, sid) && Alive(s, other)
    requires s.sessions[sid].key == s.sessions[other].key
    ensures sid == other
  {
    var i := s.registry[s.sessions[sid].key];
    if s.slots[i].holder.Some? && HandsOf(s.tasks[s.slots[i].holder.value].pc).Some? {
      NothingCached(s, i);
    }
  }

  /** While the task inside a slot handles a session, the slot caches none. */
  lemma NothingCached(s: State, i: SlotId)
    requires SlotLocksOk(s) && HandsOk(s) && i < |s.slots| && s.slots[i].holder.Some?
    requires s.slots[i].holder.value < |s.tasks| && HandsOf(s.tasks[s.slots[i].holder.value].pc).Some?
    ensures s.slots[i].cached == None
  {
    var t := s.slots[i].holder.value;
    assert SlotHolders(s.slots)[i] == Some(t);
    assert Crits(s.tasks)[t] == Some(i) == CritOf(s.tasks[t].pc);
    assert HandlingOk(s, s.tasks[t].key, s.tasks[t].pc);
  }

  predicate Caches(s: State, i: SlotId, sid: Sid) { i < |s.slots| && s.slots[i].cached == Some(sid) }

  /** A slot's cached session is replaced or dropped only when it is dead, or by a clear: a late
      failure of an old session leaves its successor in place. */
  lemma OnlyClearEvictsLive(s: State, a: Action, i: SlotId, sid: Sid)
    requires Inv(s) && Enabled(s, a) && Caches(s, i, sid) && !Caches(Step(s, a), i, sid)
    ensures Dead(s, sid) || (a.Run? && s.tasks[a.t].pc.SlotBody? && s.tasks[a.t].pc.visit.Wipe?)
  {
    if a.Run? {
      InvLocal(s, a.t);
      RunEvicts(s, a.t, a.choice, i, sid);
    } else if a.Cancel? {
      CancelEvicts(s, a.t, a.leaks, i, sid);
    }
  }

  lemma RunEvicts(s: State, t: TaskId, c: Choice, i: SlotId, sid: Sid)
    requires LocalOk(s, t) && HandlingOk(s, s.tasks[t].key, s.tasks[t].pc) && Enabled(s, Run(t, c))
    requires Caches(s, i, sid) && !Caches(Step(s, Run(t, c)), i, sid)
    ensures Dead(s, sid) || (s.tasks[t].pc.SlotBody? && s.tasks[t].pc.visit.Wipe?)
  {
    var (_, e) := Move(s, t, c);
    assert e.Cache? && e.slot == i;
  }

  lemma CancelEvicts(s: State, t: TaskId, leaks: bool, i: SlotId, sid: Sid)
    requires Enabled(s, Cancel(t, leaks)) && Caches(s, i, sid)
    ensures Caches(Step(s, Cancel(t, leaks)), i, sid)
  {
  }

  // ---------------------------------------------------------------- after clear

  ghost predicate NoneLive(s: State, key: Key) {
    forall sid: Sid | Alive(s, sid) :: s.sessions[sid].key != key
  }

  /** The step registers a new container for `key`. */
  predicate Starts(s: State, a: Action, key: Key) {
    a.Run? && a.t < |s.tasks| && s.tasks[a.t].key == key && s.tasks[a.t].pc.Creating? && a.choice.Proceed?
  }

  predicate NeverStarts(s: State, run: seq<Action>, key: Key)
    requires IsRun(s, run)
    decreases |run|
  {
    run == [] || (!Starts(s, run[0], key) && NeverStarts(Step(s, run[0]), run[1..], key))
  }

  lemma NoneLiveKept(s: State, a: Action, key: Key)
    requires NoneLive(s, key) && Enabled(s, a) && !Starts(s, a, key)
    ensures NoneLive(Step(s, a), key)
  {
    forall sid: Sid | Alive(Step(s, a), sid) ensures Step(s, a).sessions[sid].key != key {
      if sid < |s.sessions| { AliveBefore(s, a, sid); }
    }
  }

  lemma {:induction false} NoneLiveRun(s: State, run: seq<Action>, key: Key)
    requires NoneLive(s, key) && IsRun(s, run) && NeverStarts(s, run, key)
    ensures NoneLive(Last(s, run), key)
    decreases |run|
  {
    if run != [] {
      NoneLiveKept(s, run[0], key);
      NoneLiveRun(Step(s, run[0]), run[1..], key);
    }
  }

  /** Once a clear has done its work, nothing is live for its run until something starts again. */
  lemma QuietAfterClear(s: State, t: TaskId, run: seq<Action>)
    requires Inv(s) && NoOrphan(s) && t < |s.tasks| && s.tasks[t].job.Clear?
    requires s.tasks[t].pc.SlotRelease? && s.tasks[t].pc.after.Emptied?
    requires IsRun(s, run) && NeverStarts(s, run, s.tasks[t].key)
    ensures NoneLive(Last(s, run), s.tasks[t].key)
  {
    var key := s.tasks[t].key;
    SlotIsRegistered(s, t);
    assert HandlingOk(s, key, s.tasks[t].pc);
    var i := CritOf(s.tasks[t].pc).value;
    assert Crits(s.tasks)[t] == Some(i);
    assert SlotHolders(s.slots)[i] == s.slots[i].holder;
    assert NoneLive(s, key);
    NoneLiveRun(s, run, key);
  }

  // ---------------------------------------------------------------- teardown

  /** What one step can do to one session. */
  predicate SessionStep(was: Session, now: Session) {
    || now == was.(holder := now.holder)
    || (!was.destroyed && now == was.(destroyed := true, phase := AtContainer))
    || ((was.phase.AtContainer? || was.phase.AtVolume?) && (now == Worked(was, true) || now == Worked(was, false)))
  }

  lemma StepOfSession(s: State, a: Action, sid: Sid)
    requires Enabled(s, a) && sid < |s.sessions|
    ensures sid < |Step(s, a).sessions| && SessionStep(s.sessions[sid], Step(s, a).sessions[sid])
  {
    match a
    case Run(t, c) => var (_, e) := Move(s, t, c); EffectOnSession(s, t, s.tasks[t].key, e, sid);
    case Cancel(t, leaks) => var (_, e) := CancelMove(s, t, leaks); EffectOnSession(s, t, s.tasks[t].key, e, sid);
    case _ =>
  }

  lemma EffectOnSession(s: State, t: TaskId, key: Key, e: Effect, sid: Sid)
    requires EffectDefined(s, e) && sid < |s.sessions|
    ensures sid < |Apply(s, t, key, e).sessions| && SessionStep(s.sessions[sid], Apply(s, t, key, e).sessions[sid])
    ensures !s.sessions[sid].destroyed && Apply(s, t, key, e).sessions[sid].destroyed ==> e == Destroy(sid)
  {
  }

  /** A session dies only at the hands of the task that holds its lock. */
  lemma OnlyHolderDestroys(s: State, a: Action, sid: Sid)
    requires Inv(s) && Enabled(s, a) && Alive(s, sid) && Dead(Step(s, a), sid)
    ensures (a.Run? || a.Cancel?) && s.sessions[sid].holder == Some(a.t)
  {
    match a
    case Run(t, c) =>
      var (pc, e) := Move(s, t, c);
      EffectOnSession(s, t, s.tasks[t].key, e, sid);
      InvLocal(s, t);
      RunBalanced(s, t, c);
      LockIsHeld(s, t, sid);
    case Cancel(t, leaks) =>
      var (pc, e) := CancelMove(s, t, leaks);
      EffectOnSession(s, t, s.tasks[t].key, e, sid);
      InvLocal(s, t);
      CancelBalanced(s, t, leaks);
      LockIsHeld(s, t, sid);
    case _ =>
  }

  lemma LockIsHeld(s: State, t: TaskId, sid: Sid)
    requires SessionLocksOk(s) && t < |s.tasks| && LockOf(s.tasks[t].pc) == Some(sid)
    ensures sid < |s.sessions| && s.sessions[sid].holder == Some(t)
  {
    assert Locks(s.tasks)[t] == Some(sid);
    assert SessionHolders(s.sessions)[sid] == Some(t);
  }

  /** The dead stay dead and unregistered; each removal is tried at most once, and exactly once in the end. */
  lemma TeardownIsFinal(s: State, a: Action, sid: Sid)
    requires Inv(s) && Enabled(s, a) && Dead(s, sid)
    ensures Dead(Step(s, a), sid) && sid !in Step(s, a).registered
    ensures var was, now := s.sessions[sid], Step(s, a).sessions[sid];
            && was.containerTries <= now.containerTries <= 1
            && was.volumeTries <= now.volumeTries <= 1
            && (now.phase.Removed? ==> now.containerTries == now.volumeTries == 1)
  {
    StepOfSession(s, a, sid);
    StepKeeps(s, a);
    StaysRemoved(s.sessions[sid], Step(s, a).sessions[sid]);
  }

  lemma StaysRemoved(was: Session, now: Session)
    requires TeardownOk(was) && was.destroyed && SessionStep(was, now)
    ensures TeardownOk(now) && now.destroyed
    ensures was.containerTries <= now.containerTries <= 1 && was.volumeTries <= now.volumeTries <= 1
    ensures now.phase.Removed? ==> now.containerTries == now.volumeTries == 1
  {
  }

  /** A cell starts, and runs, only on a live session whose lock its task holds. */
  lemma CellsRunOnLiveSessions(s: State, t: TaskId, sid: Sid)
    requires Inv(s) && t < |s.tasks| && s.tasks[t].pc == CellRunning(sid)
    ensures Alive(s, sid) && sid in s.registered && s.sessions[sid].holder == Some(t)
  {
    assert PcFacts(s, s.tasks[t].pc);
    LockIsHeld(s, t, sid);
  }

  /** When `exec_cell` returns, `session_invalidated` says whether the session is destroyed. */
  lemma VerdictIsExact(s: State, t: TaskId, c: Choice, sid: Sid, invalidated: bool)
    requires Inv(s) && Enabled(s, Run(t, c)) && s.tasks[t].pc == CellReturning(sid, invalidated)
    ensures var s' := Step(s, Run(t, c));
            sid < |s'.sessions| && (invalidated <==> s'.sessions[sid].destroyed)
  {
    assert PcFacts(s, s.tasks[t].pc);
  }
}
