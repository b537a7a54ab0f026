/** Dead sessions do not stay cached: whoever finds one dead forgets it. */
module SessionForgets {
  import opened Prelude
  import opened SessionProtocol
  import opened SessionInvariants
  import opened SessionTheorems
  import opened SessionProgress
  import opened LockTables

  // ---------------------------------------------------------------- one step

  /** Forgetting a session empties the slot that caches it, and leaves any other session cached. */
  lemma ForgetDrops(s: State, t: TaskId, c: Choice, sid: Sid, i: SlotId)
    requires Enabled(s, Run(t, c)) && s.tasks[t].pc == SlotBody(Forget(sid), i)
    ensures var s' := Step(s, Run(t, c));
            && |s'.slots| == |s.slots|
            && s'.slots[i].cached == (if s.slots[i].cached == Some(sid) then None else s.slots[i].cached)
            && (forall j | 0 <= j < |s.slots| && j != i :: s'.slots[j] == s.slots[j])
            && s'.tasks[t].pc == SlotRelease(i, Quit) && s'.sessions == s.sessions
  {
  }

  /** A cell that finds its session dead, before or after waiting for its lock, goes on to forget it. */
  lemma DeadCellForgets(s: State, t: TaskId, c: Choice, sid: Sid)
    requires Inv(s) && Enabled(s, Run(t, c)) && Dead(s, sid)
    requires s.tasks[t].pc == CellLookup(sid) || s.tasks[t].pc == CellHeld(sid)
    ensures Step(s, Run(t, c)).tasks[t].pc == Outside(Forget(sid))
  {
    assert sid !in s.registered;
  }

  // ---------------------------------------------------------------- the invariant

  /** The session a task has been given to use. */
  function UsedOf(pc: Pc): Option<Sid> {
    match pc
    case SlotRelease(_, Use(sid)) => Some(sid)
    case SlotLeave(_, Use(sid)) => Some(sid)
    case CellLookup(sid) => Some(sid)
    case CellWait(sid) => Some(sid)
    case CellHeld(sid) => Some(sid)
    case CellRunning(sid) => Some(sid)
    case CellMarking(sid) => Some(sid)
    case CellInvalidating(sid, _) => Some(sid)
    case CellReturning(sid, _) => Some(sid)
    case _ => None
  }

  /** On the way to forget a session that was found dead, or that was destroyed just now. */
  predicate Forgetting(pc: Pc, sid: Sid) {
    match pc
    case CellInvalidating(x, raising) => x == sid && !raising
    case CellReturning(x, invalidated) => x == sid && invalidated
    case Outside(v) => v == Forget(sid)
    case SlotWait(v, _) => v == Forget(sid)
    case SlotBody(v, _) => v == Forget(sid)
    case _ => false
  }

  /** What only a remover or a cancelled cell does. */
  predicate Extraordinary(pc: Pc) {
    match pc
    case RemoveLookup(_, ret) => ret.Alone?
    case RemoveWait(_, ret) => ret.Alone?
    case RemoveHeld(_, ret) => ret.Alone?
    case RemoveAwait(_, ret) => ret.Alone?
    case CellMarking(_) => true
    case CellInvalidating(_, raising) => raising
    case _ => false
  }

  /** A session is used under the key it was started for. */
  ghost predicate UsersKeyed(s: State) {
    forall t: TaskId | t < |s.tasks| && UsedOf(s.tasks[t].pc).Some? ::
      var sid := UsedOf(s.tasks[t].pc).value; Known(s, sid) && s.sessions[sid].key == s.tasks[t].key
  }

  ghost predicate Ordinary(s: State) {
    forall t: TaskId | t < |s.tasks| :: !Extraordinary(s.tasks[t].pc)
  }

  /** A session that is not ready yet is alive, and nobody uses it. */
  ghost predicate StartsPrivate(s: State) {
    forall t: TaskId | t < |s.tasks| && s.tasks[t].pc.Readying? ::
      Alive(s, s.tasks[t].pc.sid)
      && forall u: TaskId | u < |s.tasks| :: UsedOf(s.tasks[u].pc) != Some(s.tasks[t].pc.sid)
  }

  ghost predicate SomeoneForgets(s: State, key: Key, sid: Sid) {
    exists t: TaskId :: t < |s.tasks| && s.tasks[t].key == key && Forgetting(s.tasks[t].pc, sid)
  }

  /** A dead session that is cached has a task on its way to forget it. */
  ghost predicate DeadAreForgotten(s: State) {
    forall i: SlotId | i < |s.slots| && s.slots[i].cached.Some? && Dead(s, s.slots[i].cached.value) ::
      SomeoneForgets(s, s.slots[i].key, s.slots[i].cached.value)
  }

  ghost predicate ForgetInv(s: State) {
    Inv(s) && UsersKeyed(s) && Ordinary(s) && StartsPrivate(s) && DeadAreForgotten(s)
  }

  // ---------------------------------------------------------------- who has a session

  /** A session in a task's hands is cached nowhere. */
  lemma HandsNotCached(s: State, t: TaskId, i: SlotId, sid: Sid)
    requires Inv(s) && t < |s.tasks| && HandsOf(s.tasks[t].pc) == Some(sid) && i < |s.slots|
    ensures s.slots[i].cached != Some(sid)
  {
    assert HandlingOk(s, s.tasks[t].key, s.tasks[t].pc);
    if s.slots[i].cached.Some? && s.slots[i].key == s.tasks[t].key { SameSlot(s, t, i); }
  }

  /** A slot that caches something is the one that a task of its key uses. */
  lemma SameSlot(s: State, t: TaskId, i: SlotId)
    requires RegistryOk(s) && t < |s.tasks| && SlotOf(s.tasks[t].pc).Some?
    requires i < |s.slots| && s.slots[i].cached.Some? && s.slots[i].key == s.tasks[t].key
    ensures SlotOf(s.tasks[t].pc).value == i
  {
    SlotIsRegistered(s, t);
    assert InRegistry(s.slots, s.registry, i);
  }

  /** No session is in two hands. */
  lemma HandsDiffer(s: State, t: TaskId, u: TaskId, sid: Sid)
    requires Inv(s) && t < |s.tasks| && u < |s.tasks|
    requires HandsOf(s.tasks[t].pc) == Some(sid) == HandsOf(s.tasks[u].pc)
    ensures t == u
  {
    assert HandlingOk(s, s.tasks[t].key, s.tasks[t].pc) && HandlingOk(s, s.tasks[u].key, s.tasks[u].pc);
    OneInsidePerKey(s, t, u);
  }

  /** The session a task fetches from its slot is of its key. */
  lemma FetchedKey(s: State, t: TaskId, sid: Sid)
    requires Inv(s) && t < |s.tasks| && s.tasks[t].pc.SlotBody? && s.tasks[t].pc.slot < |s.slots|
    requires s.slots[s.tasks[t].pc.slot].cached == Some(sid)
    ensures Known(s, sid) && s.sessions[sid].key == s.tasks[t].key
  {
    CritKey(s, t);
  }

  // ---------------------------------------------------------------- what one move does

  /** A task is given a session by its slot, or by starting it. */
  lemma UsedFrom(s: State, t: TaskId, c: Choice, sid: Sid)
    requires LocalOk(s, t) && Ready(s, t, c) && UsedOf(Move(s, t, c).0) == Some(sid)
    ensures var pc := s.tasks[t].pc;
            || UsedOf(pc) == Some(sid)
            || (pc.SlotBody? && s.slots[pc.slot].cached == Some(sid))
            || (pc.Readying? && pc.sid == sid)
  {
  }

  lemma StaysOrdinary(s: State, t: TaskId, c: Choice)
    requires Ready(s, t, c) && !Extraordinary(s.tasks[t].pc)
    ensures !Extraordinary(Move(s, t, c).0)
  {
  }

  lemma ReadyingFrom(s: State, t: TaskId, c: Choice)
    requires Ready(s, t, c) && Move(s, t, c).0.Readying?
    ensures Move(s, t, c).0.sid == |s.sessions| && Move(s, t, c).1 == Register
  {
  }

  /** A session dies in the hands of a task, or by its own cell, which goes on to forget it. */
  lemma DestroyFrom(s: State, t: TaskId, c: Choice, sid: Sid)
    requires Ready(s, t, c) && !Extraordinary(s.tasks[t].pc) && Move(s, t, c).1 == Destroy(sid)
    ensures var pc := s.tasks[t].pc;
            || HandsOf(pc) == Some(sid)
            || (pc == CellRunning(sid) && Forgetting(Move(s, t, c).0, sid))
  {
  }

  lemma CacheFrom(s: State, t: TaskId, c: Choice, i: SlotId, sid: Sid)
    requires Ready(s, t, c) && Move(s, t, c).1 == Cache(i, Some(sid))
    ensures s.tasks[t].pc == Readying(i, sid)
  {
  }

  /** A task on its way to forget a session gets on, until its slot no longer caches that session. */
  lemma ForgettingGoesOn(s: State, t: TaskId, c: Choice, sid: Sid)
    requires Ready(s, t, c) && Forgetting(s.tasks[t].pc, sid) && !Forgetting(Move(s, t, c).0, sid)
    ensures var (pc, e) := (s.tasks[t].pc, Move(s, t, c).1);
            pc.SlotBody? && if s.slots[pc.slot].cached == Some(sid) then e == Cache(pc.slot, None) else e == Nothing
  {
  }

  // ---------------------------------------------------------------- what one effect does

  /** Sessions keep their keys, and die only of the effect that destroys them. */
  lemma EffectOnLife(s: State, t: TaskId, key: Key, e: Effect, sid: Sid)
    requires EffectDefined(s, e) && sid < |s.sessions|
    ensures var now := Apply(s, t, key, e).sessions;
            && sid < |now| && now[sid].key == s.sessions[sid].key
            && (now[sid].destroyed <==> s.sessions[sid].destroyed || e == Destroy(sid))
  {
  }

  /** A slot that is there caches what it did, or what the effect puts there; a new slot caches nothing. */
  lemma EffectOnCache(s: State, t: TaskId, key: Key, e: Effect, i: SlotId)
    requires EffectDefined(s, e) && i < |Apply(s, t, key, e).slots|
    ensures var now := Apply(s, t, key, e).slots[i];
            if i < |s.slots| then
              && now.key == s.slots[i].key
              && now.cached == (if e.Cache? && e.slot == i then e.cached else s.slots[i].cached)
            else now.cached == None
  {
  }

  // ---------------------------------------------------------------- every step keeps it

  lemma RunKeepsKeyed(s: State, t: TaskId, c: Choice)
    requires ForgetInv(s) && Enabled(s, Run(t, c))
    ensures UsersKeyed(Step(s, Run(t, c)))
  {
    var s' := Step(s, Run(t, c));
    var (pc, e) := Move(s, t, c);
    InvLocal(s, t);
    forall u: TaskId | u < |s'.tasks| && UsedOf(s'.tasks[u].pc).Some?
      ensures var sid := UsedOf(s'.tasks[u].pc).value; Known(s', sid) && s'.sessions[sid].key == s'.tasks[u].key
    {
      var sid := UsedOf(s'.tasks[u].pc).value;
      if u == t { MoverKeyed(s, t, c, sid); }
      EffectOnLife(s, t, s.tasks[t].key, e, sid);
    }
  }

  lemma MoverKeyed(s: State, t: TaskId, c: Choice, sid: Sid)
    requires Inv(s) && UsersKeyed(s) && Ready(s, t, c) && UsedOf(Move(s, t, c).0) == Some(sid)
    ensures Known(s, sid) && s.sessions[sid].key == s.tasks[t].key
  {
    InvLocal(s, t);
    UsedFrom(s, t, c, sid);
    assert HandlingOk(s, s.tasks[t].key, s.tasks[t].pc);
    if s.tasks[t].pc.SlotBody? && s.slots[s.tasks[t].pc.slot].cached == Some(sid) { FetchedKey(s, t, sid); }
  }

  lemma RunKeepsPrivate(s: State, t: TaskId, c: Choice)
    requires ForgetInv(s) && Enabled(s, Run(t, c))
    ensures StartsPrivate(Step(s, Run(t, c)))
  {
    var s' := Step(s, Run(t, c));
    forall u: TaskId | u < |s'.tasks| && s'.tasks[u].pc.Readying?
      ensures Alive(s', s'.tasks[u].pc.sid)
      ensures forall v: TaskId | v < |s'.tasks| :: UsedOf(s'.tasks[v].pc) != Some(s'.tasks[u].pc.sid)
    {
      if u == t { NewStartPrivate(s, t, c); } else { OldStartPrivate(s, t, c, u); }
    }
  }

  lemma NewStartPrivate(s: State, t: TaskId, c: Choice)
    requires ForgetInv(s) && Enabled(s, Run(t, c)) && Move(s, t, c).0.Readying?
    ensures var s' := Step(s, Run(t, c));
            Alive(s', Move(s, t, c).0.sid)
            && forall v: TaskId | v < |s'.tasks| :: UsedOf(s'.tasks[v].pc) != Some(Move(s, t, c).0.sid)
  {
    ReadyingFrom(s, t, c);
    var s' := Step(s, Run(t, c));
    forall v: TaskId | v < |s'.tasks| ensures UsedOf(s'.tasks[v].pc) != Some(|s.sessions|) {
      if v != t && UsedOf(s.tasks[v].pc).Some? { assert Known(s, UsedOf(s.tasks[v].pc).value); }
    }
  }

  lemma OldStartPrivate(s: State, t: TaskId, c: Choice, u: TaskId)
    requires ForgetInv(s) && Enabled(s, Run(t, c)) && u < |s.tasks| && u != t && s.tasks[u].pc.Readying?
    ensures var s', sid := Step(s, Run(t, c)), s.tasks[u].pc.sid;
            Alive(s', sid) && forall v: TaskId | v < |s'.tasks| :: UsedOf(s'.tasks[v].pc) != Some(sid)
  {
    var s', sid := Step(s, Run(t, c)), s.tasks[u].pc.sid;
    var (pc, e) := Move(s, t, c);
    InvLocal(s, t);
    EffectOnLife(s, t, s.tasks[t].key, e, sid);
    if e == Destroy(sid) {
      DestroyFrom(s, t, c, sid);
      if HandsOf(s.tasks[t].pc) == Some(sid) { HandsDiffer(s, t, u, sid); }
    }
    if UsedOf(pc) == Some(sid) {
      UsedFrom(s, t, c, sid);
      if s.tasks[t].pc.SlotBody? { HandsNotCached(s, u, s.tasks[t].pc.slot, sid); }
      if HandsOf(s.tasks[t].pc) == Some(sid) { HandsDiffer(s, t, u, sid); }
    }
  }

  lemma RunKeepsForgotten(s: State, t: TaskId, c: Choice)
    requires ForgetInv(s) && Enabled(s, Run(t, c))
    ensures DeadAreForgotten(Step(s, Run(t, c)))
  {
    var s' := Step(s, Run(t, c));
    forall i: SlotId | i < |s'.slots| && s'.slots[i].cached.Some? && Dead(s', s'.slots[i].cached.value)
      ensures SomeoneForgets(s', s'.slots[i].key, s'.slots[i].cached.value)
    {
      CachedIsForgotten(s, t, c, i, s'.slots[i].cached.value);
    }
  }

  lemma CachedIsForgotten(s: State, t: TaskId, c: Choice, i: SlotId, sid: Sid)
    requires ForgetInv(s) && Enabled(s, Run(t, c))
    requires var s' := Step(s, Run(t, c)); i < |s'.slots| && s'.slots[i].cached == Some(sid) && Dead(s', sid)
    ensures var s' := Step(s, Run(t, c)); SomeoneForgets(s', s'.slots[i].key, sid)
  {
    var s' := Step(s, Run(t, c));
    var (pc, e) := Move(s, t, c);
    InvLocal(s, t);
    EffectOnCache(s, t, s.tasks[t].key, e, i);
    if e == Cache(i, Some(sid)) {
      CacheFrom(s, t, c, i, sid);
    }
    assert Known(s, sid);
    EffectOnLife(s, t, s.tasks[t].key, e, sid);
    if s.slots[i].cached == Some(sid) {
      if Dead(s, sid) {
        StillForgotten(s, t, c, i, sid);
      } else {
        DestroyFrom(s, t, c, sid);
        if HandsOf(s.tasks[t].pc) == Some(sid) { HandsNotCached(s, t, i, sid); }
        assert s'.tasks[t].key == s'.slots[i].key && Forgetting(s'.tasks[t].pc, sid);
      }
    }
  }

  lemma StillForgotten(s: State, t: TaskId, c: Choice, i: SlotId, sid: Sid)
    requires ForgetInv(s) && Enabled(s, Run(t, c)) && i < |s.slots| && s.slots[i].cached == Some(sid) && Dead(s, sid)
    requires var s' := Step(s, Run(t, c)); i < |s'.slots| && s'.slots[i].cached == Some(sid)
    ensures SomeoneForgets(Step(s, Run(t, c)), s.slots[i].key, sid)
  {
    var s' := Step(s, Run(t, c));
    var u: TaskId :| u < |s.tasks| && s.tasks[u].key == s.slots[i].key && Forgetting(s.tasks[u].pc, sid);
    if u == t && s.tasks[t].pc.SlotBody? { SameSlot(s, t, i); }
    if u == t && !Forgetting(Move(s, t, c).0, sid) { ForgettingGoesOn(s, t, c, sid); }
    assert s'.tasks[u].key == s.slots[i].key && Forgetting(s'.tasks[u].pc, sid);
  }

  /** No cancellation, and no remover. */
  predicate Plain(a: Action) { !a.Cancel? && (a.Spawn? ==> !a.job.Remover?) }

  lemma ForgetInvKept(s: State, a: Action)
    requires ForgetInv(s) && Enabled(s, a) && Plain(a)
    ensures ForgetInv(Step(s, a))
  {
    StepKeeps(s, a);
    match a
    case Run(t, c) =>
      StaysOrdinary(s, t, c);
      RunKeepsKeyed(s, t, c);
      RunKeepsPrivate(s, t, c);
      RunKeepsForgotten(s, t, c);
    case Spawn(key, job) => SpawnForgetsNothing(s, key, job);
    case Worker(sid, fails) => WorkerForgetsNothing(s, sid, fails);
    case _ =>
  }

  lemma SpawnForgetsNothing(s: State, key: Key, job: Job)
    requires ForgetInv(s) && !job.Remover?
    ensures var s' := Step(s, Spawn(key, job));
            UsersKeyed(s') && Ordinary(s') && StartsPrivate(s') && DeadAreForgotten(s')
  {
    var s' := Step(s, Spawn(key, job));
    assert UsedOf(Entry(key, job)) == None && !Extraordinary(Entry(key, job)) && !Entry(key, job).Readying?;
    SameForgetters(s, s');
  }

  lemma WorkerForgetsNothing(s: State, sid: Sid, fails: bool)
    requires ForgetInv(s) && Enabled(s, Worker(sid, fails))
    ensures var s' := Step(s, Worker(sid, fails));
            UsersKeyed(s') && Ordinary(s') && StartsPrivate(s') && DeadAreForgotten(s')
  {
    var s' := Step(s, Worker(sid, fails));
    assert forall x: Sid :: Dead(s', x) <==> Dead(s, x);
    SameForgetters(s, s');
  }

  lemma SameForgetters(s: State, s': State)
    requires DeadAreForgotten(s) && s'.slots == s.slots && s.tasks <= s'.tasks
    requires forall x: Sid | Dead(s', x) :: Dead(s, x)
    ensures DeadAreForgotten(s')
  {
    forall i: SlotId | i < |s'.slots| && s'.slots[i].cached.Some? && Dead(s', s'.slots[i].cached.value)
      ensures SomeoneForgets(s', s'.slots[i].key, s'.slots[i].cached.value)
    {
      var sid := s'.slots[i].cached.value;
      assert SomeoneForgets(s, s.slots[i].key, sid);
      var u: TaskId :| u < |s.tasks| && s.tasks[u].key == s.slots[i].key && Forgetting(s.tasks[u].pc, sid);
      assert s'.tasks[u] == s.tasks[u];
    }
  }

  lemma {:induction false} ForgetInvRuns(s: State, run: seq<Action>)
    requires ForgetInv(s) && IsRun(s, run) && forall a <- run :: Plain(a)
    ensures ForgetInv(Last(s, run))
    decreases |run|
  {
    if run != [] {
      assert run[0] in run;
      ForgetInvKept(s, run[0]);
      ForgetInvRuns(Step(s, run[0]), run[1..]);
    }
  }

  /** Where a run without removers and cancellations ends, every cached session is alive: the next call
      of the tool does not find a dead one. */
  lemma StuckCachedIsAlive(run: seq<Action>, i: SlotId)
    requires IsRun(INITIAL, run) && (forall a <- run :: Plain(a)) && Stuck(Last(INITIAL, run))
    requires i < |Last(INITIAL, run).slots| && Last(INITIAL, run).slots[i].cached.Some?
    ensures Alive(Last(INITIAL, run), Last(INITIAL, run).slots[i].cached.value)
  {
    assert ForgetInv(INITIAL);
    ForgetInvRuns(INITIAL, run);
    CachedIsAlive(Last(INITIAL, run), i);
  }

  lemma CachedIsAlive(s: State, i: SlotId)
    requires ForgetInv(s) && Stuck(s) && i < |s.slots| && s.slots[i].cached.Some?
    ensures Alive(s, s.slots[i].cached.value)
  {
    StuckMeansClean(s);
    var sid := s.slots[i].cached.value;
    assert Dead(s, sid) ==> SomeoneForgets(s, s.slots[i].key, sid);
  }

  // ---------------------------------------------------------------- fetching

  /** A task leaving its slot with a session to use leaves that session cached there. */
  predicate LeavesCached(s: State, pc: Pc) {
    pc.SlotRelease? && pc.after.Use? ==> pc.slot < |s.slots| && s.slots[pc.slot].cached == Some(pc.after.sid)
  }

  ghost predicate FetchedCached(s: State) {
    forall t: TaskId | t < |s.tasks| :: LeavesCached(s, s.tasks[t].pc)
  }

  lemma MoverLeavesCached(s: State, t: TaskId, c: Choice)
    requires LocalOk(s, t) && Enabled(s, Run(t, c))
    ensures LeavesCached(Step(s, Run(t, c)), Move(s, t, c).0)
  {
  }

  lemma CancelLeavesNothing(s: State, t: TaskId, leaks: bool)
    requires Enabled(s, Cancel(t, leaks))
    ensures var (pc, e) := CancelMove(s, t, leaks); !(pc.SlotRelease? && pc.after.Use?) && !e.Cache?
  {
  }

  /** Nobody else changes the cache of the slot that a task is inside. */
  lemma InsideIsUndisturbed(s: State, t: TaskId, pc: Pc, cancelled: bool, e: Effect, u: TaskId)
    requires SlotLocksOk(s) && t < |s.tasks| && u < |s.tasks| && u != t && LeavesCached(s, s.tasks[u].pc)
    requires EffectDefined(s, e) && CritBalanced(s, t, pc, e)
    ensures LeavesCached(Advanced(s, t, pc, cancelled, e), s.tasks[u].pc)
  {
    if s.tasks[u].pc.SlotRelease? && s.tasks[u].pc.after.Use? {
      var i := s.tasks[u].pc.slot;
      NotItsCache(s, t, pc, e, u);
      EffectOnCache(s, t, s.tasks[t].key, e, i);
    }
  }

  lemma NotItsCache(s: State, t: TaskId, pc: Pc, e: Effect, u: TaskId)
    requires SlotLocksOk(s) && t < |s.tasks| && u < |s.tasks| && u != t && s.tasks[u].pc.SlotRelease?
    requires EffectDefined(s, e) && CritBalanced(s, t, pc, e)
    ensures e.Cache? ==> e.slot != s.tasks[u].pc.slot
  {
    if e.Cache? {
      var held := Crits(s.tasks);
      assert held[t] == Some(e.slot) && held[u] == Some(s.tasks[u].pc.slot);
      HoldersDiffer(held, SlotHolders(s.slots), t, u);
    }
  }

  lemma FetchedCachedKept(s: State, a: Action)
    requires Inv(s) && FetchedCached(s) && Enabled(s, a)
    ensures FetchedCached(Step(s, a))
  {
    var s' := Step(s, a);
    forall u: TaskId | u < |s'.tasks| ensures LeavesCached(s', s'.tasks[u].pc) {
      match a
      case Run(t, c) =>
        var (pc, e) := Move(s, t, c);
        InvLocal(s, t);
        RunBalanced(s, t, c);
        if u == t { MoverLeavesCached(s, t, c); }
        else { InsideIsUndisturbed(s, t, pc, s.tasks[t].cancelled, e, u); }
      case Cancel(t, leaks) =>
        var (pc, e) := CancelMove(s, t, leaks);
        InvLocal(s, t);
        CancelBalanced(s, t, leaks);
        CancelLeavesNothing(s, t, leaks);
        if u != t { InsideIsUndisturbed(s, t, pc, true, e, u); }
      case _ =>
    }
  }

  lemma {:induction false} FetchedCachedRuns(s: State, run: seq<Action>)
    requires Inv(s) && FetchedCached(s) && IsRun(s, run)
    ensures FetchedCached(Last(s, run))
    decreases |run|
  {
    if run != [] {
      StepKeeps(s, run[0]);
      FetchedCachedKept(s, run[0]);
      FetchedCachedRuns(Step(s, run[0]), run[1..]);
    }
  }

  /** Whoever comes out of `_session_for` with a session leaves it cached in the slot of its own key,
      whatever the interleaving and the cancellations. */
  lemma FetchedIsCached(run: seq<Action>, t: TaskId, i: SlotId, sid: Sid)
    requires IsRun(INITIAL, run) && t < |Last(INITIAL, run).tasks|
    requires Last(INITIAL, run).tasks[t].pc == SlotRelease(i, Use(sid))
    ensures var s := Last(INITIAL, run);
            i < |s.slots| && s.slots[i].cached == Some(sid) && s.slots[i].key == s.tasks[t].key
  {
    Reachable(run);
    FetchedCachedRuns(INITIAL, run);
    CritKey(Last(INITIAL, run), t);
  }
}
