/** What every step of the session protocol keeps, whatever the interleaving and the cancellations. */
module SessionInvariants {
  import opened Prelude
  import opened SessionProtocol
  import opened LockTables

  // ---------------------------------------------------------------- what a program counter holds

  /** The slot a task counts as a user of. */
  function SlotOf(pc: Pc): Option<SlotId> {
    match pc
    case SlotWait(_, i) => Some(i)
    case SlotLeave(i, _) => Some(i)
    case _ => CritOf(pc)
  }

  /** The slot whose lock a task holds. */
  function CritOf(pc: Pc): Option<SlotId> {
    match pc
    case SlotBody(_, i) => Some(i)
    case Creating(i) => Some(i)
    case Readying(i, _) => Some(i)
    case ReadingLogs(i, _) => Some(i)
    case SlotRelease(i, _) => Some(i)
    case RemoveLookup(_, ret) => SlotOfReturn(ret)
    case RemoveWait(_, ret) => SlotOfReturn(ret)
    case RemoveHeld(_, ret) => SlotOfReturn(ret)
    case RemoveAwait(_, ret) => SlotOfReturn(ret)
    case _ => None
  }

  function SlotOfReturn(ret: Return): Option<SlotId> {
    if ret.InSlot? then Some(ret.slot) else None
  }

  /** The session whose lock a task holds. */
  function LockOf(pc: Pc): Option<Sid> {
    match pc
    case RemoveHeld(sid, _) => Some(sid)
    case RemoveAwait(sid, _) => Some(sid)
    case CellHeld(sid) => Some(sid)
    case CellRunning(sid) => Some(sid)
    case CellMarking(sid) => Some(sid)
    case CellInvalidating(sid, _) => Some(sid)
    case CellReturning(sid, _) => Some(sid)
    case _ => None
  }

  /** The session a task is starting or clearing inside its slot. */
  function HandsOf(pc: Pc): Option<Sid> {
    match pc
    case Readying(_, sid) => Some(sid)
    case ReadingLogs(_, sid) => Some(sid)
    case RemoveLookup(sid, ret) => if ret.InSlot? then Some(sid) else None
    case RemoveWait(sid, ret) => if ret.InSlot? then Some(sid) else None
    case RemoveHeld(sid, ret) => if ret.InSlot? then Some(sid) else None
    case RemoveAwait(sid, ret) => if ret.InSlot? then Some(sid) else None
    case _ => None
  }

  /** Starting or clearing a session: the slot caches nothing meanwhile. */
  predicate EmptiesCache(pc: Pc) {
    pc.Creating? || HandsOf(pc).Some? || (pc.SlotRelease? && pc.after.Emptied?)
  }

  function Uses(tasks: seq<Task>): seq<Option<SlotId>> {
    seq(|tasks|, t requires 0 <= t < |tasks| => SlotOf(tasks[t].pc))
  }

  function Crits(tasks: seq<Task>): seq<Option<SlotId>> {
    seq(|tasks|, t requires 0 <= t < |tasks| => CritOf(tasks[t].pc))
  }

  function Locks(tasks: seq<Task>): seq<Option<Sid>> {
    seq(|tasks|, t requires 0 <= t < |tasks| => LockOf(tasks[t].pc))
  }

  function Keys(tasks: seq<Task>): seq<Key> {
    seq(|tasks|, t requires 0 <= t < |tasks| => tasks[t].key)
  }

  function SlotHolders(slots: seq<Slot>): seq<Option<TaskId>> {
    seq(|slots|, i requires 0 <= i < |slots| => slots[i].holder)
  }

  function SessionHolders(sessions: seq<Session>): seq<Option<TaskId>> {
    seq(|sessions|, i requires 0 <= i < |sessions| => sessions[i].holder)
  }

  /** How many tasks use slot `i`. */
  function Count(uses: seq<Option<SlotId>>, i: SlotId): nat {
    if uses == [] then 0
    else Count(uses[..|uses| - 1], i) + if uses[|uses| - 1] == Some(i) then 1 else 0
  }

  // ---------------------------------------------------------------- the invariant

  predicate InRegistry(slots: seq<Slot>, registry: map<Key, SlotId>, i: SlotId)
    requires i < |slots|
  {
    slots[i].key in registry && registry[slots[i].key] == i
  }

  ghost predicate RegistryFits(
    slots: seq<Slot>, registry: map<Key, SlotId>, uses: seq<Option<SlotId>>, keys: seq<Key>)
  {
    && |uses| == |keys|
    && (forall k <- registry :: registry[k] < |slots| && slots[registry[k]].key == k)
    && (forall i | 0 <= i < |slots| :: slots[i].users == Count(uses, i))
    // A slot outside the registry is dead; one inside it is in use or caches a session.
    && (forall i | 0 <= i < |slots| ::
          InRegistry(slots, registry, i) <==> slots[i].users > 0 || slots[i].cached.Some?)
    // The slot a task entered is one of its own key.
    && (forall t | 0 <= t < |uses| && uses[t].Some? ::
          uses[t].value < |slots| && slots[uses[t].value].key == keys[t])
  }

  ghost predicate RegistryOk(s: State) {
    RegistryFits(s.slots, s.registry, Uses(s.tasks), Keys(s.tasks))
  }

  /** `slot.lock`: held by exactly the task inside the slot body. */
  ghost predicate SlotLocksOk(s: State) { Matched(Crits(s.tasks), SlotHolders(s.slots)) }

  /** `state.lock`: held by exactly the task using or removing the session. */
  ghost predicate SessionLocksOk(s: State) { Matched(Locks(s.tasks), SessionHolders(s.sessions)) }

  /** Removal starts when the session is marked, and tries each resource once. */
  predicate TeardownOk(session: Session) {
    match session.phase
    case Untouched => !session.destroyed && session.containerTries == 0 && session.volumeTries == 0
    case AtContainer => session.destroyed && session.containerTries == 0 && session.volumeTries == 0
    case AtVolume(_) => session.destroyed && session.containerTries == 1 && session.volumeTries == 0
    case Removed(_) => session.destroyed && session.containerTries == 1 && session.volumeTries == 1
  }

  ghost predicate TeardownsOk(s: State) {
    && (forall sid: Sid | sid < |s.sessions| :: TeardownOk(s.sessions[sid]))
    && (forall sid: Sid :: sid in s.registered <==> sid < |s.sessions| && !s.sessions[sid].destroyed)
  }

  predicate Known(s: State, sid: Sid) { sid < |s.sessions| }

  predicate Dead(s: State, sid: Sid) { sid < |s.sessions| && s.sessions[sid].destroyed }

  predicate Alive(s: State, sid: Sid) { sid < |s.sessions| && !s.sessions[sid].destroyed }

  /** What a program counter says of the sessions it names. */
  predicate PcFacts(s: State, pc: Pc) {
    match pc
    case Outside(v) => v.Forget? ==> Dead(s, v.stale)
    case SlotWait(v, _) => v.Forget? ==> Dead(s, v.stale)
    case SlotBody(v, _) => v.Forget? ==> Dead(s, v.stale)
    case Readying(_, sid) => Known(s, sid)
    case ReadingLogs(_, sid) => Known(s, sid)
    case SlotRelease(_, after) => after.Use? ==> Known(s, after.sid)
    case SlotLeave(_, after) => after.Use? ==> Known(s, after.sid)
    case RemoveLookup(sid, ret) => ret.InSlot? ==> Known(s, sid)
    case RemoveWait(sid, _) => Known(s, sid)
    case RemoveHeld(sid, _) => Known(s, sid)
    case RemoveAwait(sid, _) => Dead(s, sid)
    case CellLookup(sid) => Known(s, sid)
    case CellWait(sid) => Known(s, sid)
    case CellHeld(sid) => Known(s, sid)
    case CellRunning(sid) => Alive(s, sid)
    case CellMarking(sid) => Alive(s, sid)
    case CellInvalidating(sid, _) => Dead(s, sid)
    case CellReturning(sid, invalidated) => if invalidated then Dead(s, sid) else Alive(s, sid)
    case _ => true
  }

  ghost predicate PcsOk(s: State) {
    forall t: TaskId | t < |s.tasks| :: PcFacts(s, s.tasks[t].pc)
  }

  /** A cached session was started for the slot's key. */
  ghost predicate CachedOk(s: State) {
    forall i: SlotId | i < |s.slots| && s.slots[i].cached.Some? ::
      Known(s, s.slots[i].cached.value) && s.sessions[s.slots[i].cached.value].key == s.slots[i].key
  }

  /** A session in a task's hands was started for the task's key, and the slot caches nothing meanwhile. */
  predicate HandlingOk(s: State, key: Key, pc: Pc) {
    && (HandsOf(pc).Some? ==> Known(s, HandsOf(pc).value) && s.sessions[HandsOf(pc).value].key == key)
    && (EmptiesCache(pc) ==>
          CritOf(pc).Some? && CritOf(pc).value < |s.slots| && s.slots[CritOf(pc).value].cached.None?)
  }

  ghost predicate HandsOk(s: State) {
    forall t: TaskId | t < |s.tasks| :: HandlingOk(s, s.tasks[t].key, s.tasks[t].pc)
  }

  ghost predicate Inv(s: State) {
    && RegistryOk(s)
    && SlotLocksOk(s)
    && SessionLocksOk(s)
    && TeardownsOk(s)
    && PcsOk(s)
    && CachedOk(s)
    && HandsOk(s)
  }

  // ---------------------------------------------------------------- which effects go with which moves

  /** The effect `e` accounts for the use of a slot that task `t` gains or gives up going to `pc`. */
  predicate UseBalanced(s: State, t: TaskId, pc: Pc, e: Effect)
    requires t < |s.tasks|
  {
    var was := SlotOf(s.tasks[t].pc);
    match e
    case EnterSlot => was == None && SlotOf(pc) == Some(SlotFor(s, s.tasks[t].key))
    case LeaveSlot(i) => was == Some(i) && SlotOf(pc) == None
    case Cache(i, _) => was == SlotOf(pc) == Some(i)
    case _ => was == SlotOf(pc)
  }

  /** The same for `slot.lock`. */
  predicate CritBalanced(s: State, t: TaskId, pc: Pc, e: Effect)
    requires t < |s.tasks| && EffectDefined(s, e)
  {
    var was := CritOf(s.tasks[t].pc);
    match e
    case TakeSlot(i) => s.slots[i].holder == None && was == None && CritOf(pc) == Some(i)
    case FreeSlot(i) => was == Some(i) && CritOf(pc) == None
    case Cache(i, _) => was == CritOf(pc) == Some(i)
    case _ => was == CritOf(pc)
  }

  /** The same for `state.lock`. */
  predicate LockBalanced(s: State, t: TaskId, pc: Pc, e: Effect)
    requires t < |s.tasks| && EffectDefined(s, e)
  {
    var was := LockOf(s.tasks[t].pc);
    match e
    case TakeLock(sid) => s.sessions[sid].holder == None && was == None && LockOf(pc) == Some(sid)
    case FreeLock(sid) => was == Some(sid) && LockOf(pc) == None
    case Destroy(sid) => was == LockOf(pc) == Some(sid)
    case _ => was == LockOf(pc)
  }

  predicate Balanced(s: State, t: TaskId, pc: Pc, e: Effect)
    requires t < |s.tasks|
  {
    EffectDefined(s, e) && UseBalanced(s, t, pc, e) && CritBalanced(s, t, pc, e) && LockBalanced(s, t, pc, e)
  }

  /** What the invariant says of one task. */
  predicate LocalOk(s: State, t: TaskId) {
    && t < |s.tasks|
    && PcFacts(s, s.tasks[t].pc)
    && (SlotOf(s.tasks[t].pc).Some? ==> SlotOf(s.tasks[t].pc).value < |s.slots|)
    && (LockOf(s.tasks[t].pc).Some? ==> LockOf(s.tasks[t].pc).value < |s.sessions|)
  }

  lemma InvLocal(s: State, t: TaskId)
    requires t < |s.tasks| && RegistryOk(s) && SessionLocksOk(s) && PcsOk(s)
    ensures LocalOk(s, t)
  {
    assert Uses(s.tasks)[t] == SlotOf(s.tasks[t].pc);
    assert Locks(s.tasks)[t] == LockOf(s.tasks[t].pc);
  }

  predicate InCell(pc: Pc) {
    || pc.CellLookup? || pc.CellWait? || pc.CellHeld? || pc.CellRunning?
    || pc.CellMarking? || pc.CellInvalidating? || pc.CellReturning?
  }

  predicate InRemoval(pc: Pc) { pc.RemoveLookup? || pc.RemoveWait? || pc.RemoveHeld? || pc.RemoveAwait? }

  lemma RunDefined(s: State, t: TaskId, c: Choice)
    requires LocalOk(s, t) && Ready(s, t, c)
    ensures EffectDefined(s, Move(s, t, c).1)
  {
  }

  lemma RunUse(s: State, t: TaskId, c: Choice)
    requires LocalOk(s, t) && Ready(s, t, c)
    ensures var (pc, e) := Move(s, t, c); UseBalanced(s, t, pc, e)
  {
    if InCell(s.tasks[t].pc) {
      CellUse(s, t, c);
    } else if InRemoval(s.tasks[t].pc) {
      RemovalUse(s, t, c);
    } else {
      SlotUse(s, t, c);
    }
  }

  lemma CellUse(s: State, t: TaskId, c: Choice)
    requires LocalOk(s, t) && Ready(s, t, c) && InCell(s.tasks[t].pc)
    ensures var (pc, e) := Move(s, t, c); UseBalanced(s, t, pc, e)
  {
  }

  lemma RemovalUse(s: State, t: TaskId, c: Choice)
    requires LocalOk(s, t) && Ready(s, t, c) && InRemoval(s.tasks[t].pc)
    ensures var (pc, e) := Move(s, t, c); UseBalanced(s, t, pc, e)
  {
  }

  lemma SlotUse(s: State, t: TaskId, c: Choice)
    requires LocalOk(s, t) && Ready(s, t, c) && !InCell(s.tasks[t].pc) && !InRemoval(s.tasks[t].pc)
    ensures var (pc, e) := Move(s, t, c); UseBalanced(s, t, pc, e)
  {
  }

  lemma RunCrit(s: State, t: TaskId, c: Choice)
    requires LocalOk(s, t) && Ready(s, t, c) && EffectDefined(s, Move(s, t, c).1)
    ensures var (pc, e) := Move(s, t, c); CritBalanced(s, t, pc, e)
  {
  }

  lemma RunLock(s: State, t: TaskId, c: Choice)
    requires LocalOk(s, t) && Ready(s, t, c) && EffectDefined(s, Move(s, t, c).1)
    ensures var (pc, e) := Move(s, t, c); LockBalanced(s, t, pc, e)
  {
  }

  lemma RunBalanced(s: State, t: TaskId, c: Choice)
    requires LocalOk(s, t) && Ready(s, t, c)
    ensures var (pc, e) := Move(s, t, c); Balanced(s, t, pc, e)
  {
    var (pc, e) := Move(s, t, c);
    RunDefined(s, t, c);
    RunUse(s, t, c);
    RunCrit(s, t, c);
    RunLock(s, t, c);
    AllBalanced(s, t, pc, e);
  }

  lemma AllBalanced(s: State, t: TaskId, pc: Pc, e: Effect)
    requires t < |s.tasks| && EffectDefined(s, e)
    requires UseBalanced(s, t, pc, e) && CritBalanced(s, t, pc, e) && LockBalanced(s, t, pc, e)
    ensures Balanced(s, t, pc, e)
  {
  }

  lemma CancelBalanced(s: State, t: TaskId, leaks: bool)
    requires LocalOk(s, t) && Cancellable(s, t)
    ensures var (pc, e) := CancelMove(s, t, leaks); Balanced(s, t, pc, e)
  {
  }

  // ---------------------------------------------------------------- users are counted exactly

  lemma {:induction false} CountUpdate(uses: seq<Option<SlotId>>, t: TaskId, use: Option<SlotId>, i: SlotId)
    requires t < |uses|
    ensures Count(uses[t := use], i)
         == Count(uses, i) - (if uses[t] == Some(i) then 1 else 0) + (if use == Some(i) then 1 else 0)
  {
    var n := |uses| - 1;
    if t == n {
      assert uses[t := use][..n] == uses[..n];
    } else {
      assert uses[t := use][..n] == uses[..n][t := use];
      CountUpdate(uses[..n], t, use, i);
    }
  }

  lemma {:induction false} CountPositive(uses: seq<Option<SlotId>>, t: TaskId, i: SlotId)
    requires t < |uses| && uses[t] == Some(i)
    ensures Count(uses, i) > 0
  {
    if t < |uses| - 1 {
      CountPositive(uses[..|uses| - 1], t, i);
    }
  }

  lemma {:induction false} CountNobody(uses: seq<Option<SlotId>>, i: SlotId)
    requires forall t | 0 <= t < |uses| :: uses[t] != Some(i)
    ensures Count(uses, i) == 0
  {
    if uses != [] {
      CountNobody(uses[..|uses| - 1], i);
    }
  }

  // ---------------------------------------------------------------- locks

  lemma SlotLocksKept(s: State, t: TaskId, pc: Pc, cancelled: bool, e: Effect)
    requires t < |s.tasks| && SlotLocksOk(s) && EffectDefined(s, e) && CritBalanced(s, t, pc, e)
    ensures SlotLocksOk(Advanced(s, t, pc, cancelled, e))
  {
    var s' := Advanced(s, t, pc, cancelled, e);
    var held, holders := Crits(s.tasks), SlotHolders(s.slots);
    assert Crits(s'.tasks) == held[t := CritOf(pc)];
    SlotHoldersAfter(s, t, s.tasks[t].key, e);
    match e
    case TakeSlot(i) =>
      MatchedTake(held, holders, t, i);
    case FreeSlot(i) =>
      MatchedFree(held, holders, t, i);
    case _ =>
      assert Crits(s'.tasks) == held;
  }

  lemma SlotHoldersAfter(s: State, t: TaskId, key: Key, e: Effect)
    requires EffectDefined(s, e)
    ensures var now, was := SlotHolders(Apply(s, t, key, e).slots), SlotHolders(s.slots);
            match e
            case TakeSlot(i) => now == was[i := Some(t)]
            case FreeSlot(i) => now == was[i := None]
            case EnterSlot => now == was || now == was + [None]
            case _ => now == was
  {
  }

  lemma SessionLocksKept(s: State, t: TaskId, pc: Pc, cancelled: bool, e: Effect)
    requires t < |s.tasks| && SessionLocksOk(s) && EffectDefined(s, e) && LockBalanced(s, t, pc, e)
    ensures SessionLocksOk(Advanced(s, t, pc, cancelled, e))
  {
    var s' := Advanced(s, t, pc, cancelled, e);
    var held, holders := Locks(s.tasks), SessionHolders(s.sessions);
    assert Locks(s'.tasks) == held[t := LockOf(pc)];
    HoldersAfter(s, t, s.tasks[t].key, e);
    match e
    case TakeLock(sid) => MatchedTake(held, holders, t, sid);
    case FreeLock(sid) => MatchedFree(held, holders, t, sid);
    case _ => assert Locks(s'.tasks) == held;
  }

  lemma HoldersAfter(s: State, t: TaskId, key: Key, e: Effect)
    requires EffectDefined(s, e)
    ensures SessionHolders(Apply(s, t, key, e).sessions)
         == match e
            case TakeLock(sid) => SessionHolders(s.sessions)[sid := Some(t)]
            case FreeLock(sid) => SessionHolders(s.sessions)[sid := None]
            case Register => SessionHolders(s.sessions) + [None]
            case _ => SessionHolders(s.sessions)
  {
  }

  // ---------------------------------------------------------------- the slot registry

  /** Slot `i` and the registry change; every other slot stays, and task `t` uses what `use` says. */
  lemma RegistryUpdated(
    slots: seq<Slot>, slots': seq<Slot>, registry: map<Key, SlotId>, registry': map<Key, SlotId>,
    uses: seq<Option<SlotId>>, keys: seq<Key>, t: TaskId, use: Option<SlotId>, i: SlotId)
    requires RegistryFits(slots, registry, uses, keys)
    requires t < |uses| && i < |slots| && |slots'| == |slots|
    requires forall j | 0 <= j < |slots| && j != i :: slots'[j] == slots[j]
    requires slots'[i].key == slots[i].key == keys[t]
    requires use == None || use == Some(i)
    requires uses[t] == None || uses[t] == Some(i)
    requires slots'[i].users
          == slots[i].users - (if uses[t] == None then 0 else 1) + (if use == None then 0 else 1)
    requires registry - {keys[t]} == registry' - {keys[t]}
    requires keys[t] in registry && registry[keys[t]] == i
    requires if slots'[i].users > 0 || slots'[i].cached.Some? then registry' == registry else keys[t] !in registry'
    ensures RegistryFits(slots', registry', uses[t := use], keys)
  {
    forall j | 0 <= j < |slots'|
      ensures slots'[j].users == Count(uses[t := use], j)
      ensures InRegistry(slots', registry', j) <==> slots'[j].users > 0 || slots'[j].cached.Some?
    {
      CountUpdate(uses, t, use, j);
      assert InRegistry(slots, registry, j) <==> slots[j].users > 0 || slots[j].cached.Some?;
      if j != i && slots[j].key != keys[t] {
        var k := slots[j].key;
        assert k in registry <==> k in registry - {keys[t]};
        assert k in registry' <==> k in registry' - {keys[t]};
      }
    }
    forall k <- registry'
      ensures registry'[k] < |slots'| && slots'[registry'[k]].key == k
    {
      if k != keys[t] {
        assert k in registry' - {keys[t]};
      }
    }
  }

  lemma RegistryGrown(
    slots: seq<Slot>, registry: map<Key, SlotId>, uses: seq<Option<SlotId>>, keys: seq<Key>, t: TaskId)
    requires RegistryFits(slots, registry, uses, keys)
    requires t < |uses| && uses[t] == None && keys[t] !in registry
    ensures RegistryFits(
      slots + [Slot(keys[t], 1, None, None)], registry[keys[t] := |slots|], uses[t := Some(|slots|)], keys)
  {
    var slots', registry' := slots + [Slot(keys[t], 1, None, None)], registry[keys[t] := |slots|];
    CountNobody(uses, |slots|);
    forall j | 0 <= j < |slots'|
      ensures slots'[j].users == Count(uses[t := Some(|slots|)], j)
      ensures InRegistry(slots', registry', j) <==> slots'[j].users > 0 || slots'[j].cached.Some?
    {
      CountUpdate(uses, t, Some(|slots|), j);
      if j < |slots| {
        assert InRegistry(slots, registry, j) <==> slots[j].users > 0 || slots[j].cached.Some?;
      }
    }
  }

  /** A task that uses a slot uses the one registered for its key: the `is slot` guard never fails. */
  lemma UsedSlotIsRegistered(
    slots: seq<Slot>, registry: map<Key, SlotId>, uses: seq<Option<SlotId>>, keys: seq<Key>, t: TaskId)
    requires RegistryFits(slots, registry, uses, keys) && t < |uses| && uses[t].Some?
    ensures var i := uses[t].value;
            i < |slots| && slots[i].users > 0 && keys[t] in registry && registry[keys[t]] == i
  {
    var i := uses[t].value;
    CountPositive(uses, t, i);
    assert InRegistry(slots, registry, i);
  }

  lemma RegistryHoldersOnly(
    slots: seq<Slot>, slots': seq<Slot>, registry: map<Key, SlotId>, uses: seq<Option<SlotId>>, keys: seq<Key>)
    requires RegistryFits(slots, registry, uses, keys) && |slots'| == |slots|
    requires forall j | 0 <= j < |slots| :: slots'[j] == slots[j].(holder := slots'[j].holder)
    ensures RegistryFits(slots', registry, uses, keys)
  {
    forall j | 0 <= j < |slots'|
      ensures slots'[j].users == Count(uses, j)
      ensures InRegistry(slots', registry, j) <==> slots'[j].users > 0 || slots'[j].cached.Some?
    {
      assert InRegistry(slots, registry, j) <==> slots[j].users > 0 || slots[j].cached.Some?;
    }
  }

  lemma RegistryKept(s: State, t: TaskId, pc: Pc, cancelled: bool, e: Effect)
    requires t < |s.tasks| && RegistryOk(s) && EffectDefined(s, e) && UseBalanced(s, t, pc, e)
    ensures RegistryOk(Advanced(s, t, pc, cancelled, e))
  {
    var s' := Advanced(s, t, pc, cancelled, e);
    var uses, keys := Uses(s.tasks), Keys(s.tasks);
    assert Uses(s'.tasks) == uses[t := SlotOf(pc)];
    assert Keys(s'.tasks) == keys;
    match e
    case EnterSlot => RegistryEntered(s, uses, keys, t);
    case LeaveSlot(i) => RegistryLeft(s, uses, keys, t, i);
    case Cache(i, c) => RegistryCached(s, uses, keys, t, i, c);
    case _ =>
      assert Uses(s'.tasks) == uses;
      RegistryHoldersOnly(s.slots, s'.slots, s.registry, uses, keys);
  }

  lemma RegistryEntered(s: State, uses: seq<Option<SlotId>>, keys: seq<Key>, t: TaskId)
    requires RegistryFits(s.slots, s.registry, uses, keys) && t < |uses| && uses[t] == None
    ensures var s' := Entered(s, keys[t]);
            RegistryFits(s'.slots, s'.registry, uses[t := Some(SlotFor(s, keys[t]))], keys)
  {
    var s', key := Entered(s, keys[t]), keys[t];
    if key in s.registry {
      var i := s.registry[key];
      RegistryUpdated(s.slots, s'.slots, s.registry, s'.registry, uses, keys, t, Some(i), i);
    } else {
      RegistryGrown(s.slots, s.registry, uses, keys, t);
    }
  }

  lemma RegistryLeft(s: State, uses: seq<Option<SlotId>>, keys: seq<Key>, t: TaskId, i: SlotId)
    requires RegistryFits(s.slots, s.registry, uses, keys) && t < |uses| && uses[t] == Some(i) && i < |s.slots|
    ensures var s' := Left(s, keys[t], i); RegistryFits(s'.slots, s'.registry, uses[t := None], keys)
  {
    var s' := Left(s, keys[t], i);
    UsedSlotIsRegistered(s.slots, s.registry, uses, keys, t);
    RegistryUpdated(s.slots, s'.slots, s.registry, s'.registry, uses, keys, t, None, i);
  }

  lemma RegistryCached(
    s: State, uses: seq<Option<SlotId>>, keys: seq<Key>, t: TaskId, i: SlotId, cached: Option<Sid>)
    requires RegistryFits(s.slots, s.registry, uses, keys) && t < |uses| && uses[t] == Some(i) && i < |s.slots|
    ensures RegistryFits(s.slots[i := s.slots[i].(cached := cached)], s.registry, uses[t := Some(i)], keys)
  {
    var slots' := s.slots[i := s.slots[i].(cached := cached)];
    UsedSlotIsRegistered(s.slots, s.registry, uses, keys, t);
    RegistryUpdated(s.slots, slots', s.registry, s.registry, uses, keys, t, uses[t], i);
  }

  lemma TeardownsKept(s: State, t: TaskId, pc: Pc, cancelled: bool, e: Effect)
    requires t < |s.tasks| && TeardownsOk(s) && EffectDefined(s, e)
    ensures TeardownsOk(Advanced(s, t, pc, cancelled, e))
  {
  }

  lemma RunFacts(s: State, t: TaskId, c: Choice)
    requires LocalOk(s, t) && TeardownsOk(s) && CachedOk(s) && Ready(s, t, c) && EffectDefined(s, Move(s, t, c).1)
    ensures var (pc, e) := Move(s, t, c); PcFacts(Advanced(s, t, pc, s.tasks[t].cancelled, e), pc)
  {
    if InCell(s.tasks[t].pc) {
      CellFacts(s, t, c);
    } else if InRemoval(s.tasks[t].pc) {
      RemovalFacts(s, t, c);
    } else {
      SlotFacts(s, t, c);
    }
  }

  lemma CellFacts(s: State, t: TaskId, c: Choice)
    requires LocalOk(s, t) && TeardownsOk(s) && Ready(s, t, c) && EffectDefined(s, Move(s, t, c).1)
    requires InCell(s.tasks[t].pc)
    ensures var (pc, e) := Move(s, t, c); PcFacts(Advanced(s, t, pc, s.tasks[t].cancelled, e), pc)
  {
  }

  lemma RemovalFacts(s: State, t: TaskId, c: Choice)
    requires LocalOk(s, t) && TeardownsOk(s) && Ready(s, t, c) && EffectDefined(s, Move(s, t, c).1)
    requires InRemoval(s.tasks[t].pc)
    ensures var (pc, e) := Move(s, t, c); PcFacts(Advanced(s, t, pc, s.tasks[t].cancelled, e), pc)
  {
  }

  lemma SlotFacts(s: State, t: TaskId, c: Choice)
    requires LocalOk(s, t) && CachedOk(s) && Ready(s, t, c) && EffectDefined(s, Move(s, t, c).1)
    requires !InCell(s.tasks[t].pc) && !InRemoval(s.tasks[t].pc)
    ensures var (pc, e) := Move(s, t, c); PcFacts(Advanced(s, t, pc, s.tasks[t].cancelled, e), pc)
  {
  }

  lemma CancelFacts(s: State, t: TaskId, leaks: bool)
    requires LocalOk(s, t) && TeardownsOk(s) && Cancellable(s, t)
    ensures var (pc, e) := CancelMove(s, t, leaks);
            EffectDefined(s, e) && PcFacts(Advanced(s, t, pc, true, e), pc)
  {
    CancelBalanced(s, t, leaks);
  }

  lemma FactsKept(s: State, t: TaskId, pc: Pc, cancelled: bool, e: Effect, u: TaskId)
    requires t < |s.tasks| && u < |s.tasks| && u != t && PcFacts(s, s.tasks[u].pc)
    requires SessionLocksOk(s) && EffectDefined(s, e) && LockBalanced(s, t, pc, e)
    ensures PcFacts(Advanced(s, t, pc, cancelled, e), s.tasks[u].pc)
  {
    if e.Destroy? {
      var held := Locks(s.tasks);
      assert held[t] == Some(e.sid);
      HoldersDiffer(held, SessionHolders(s.sessions), t, u);
      assert LockOf(s.tasks[u].pc) != Some(e.sid);
    }
  }

  lemma CachedKept(s: State, t: TaskId, pc: Pc, cancelled: bool, e: Effect)
    requires t < |s.tasks| && CachedOk(s) && EffectDefined(s, e)
    requires e.Cache? && e.cached.Some? ==>
      Known(s, e.cached.value) && s.sessions[e.cached.value].key == s.slots[e.slot].key
    ensures CachedOk(Advanced(s, t, pc, cancelled, e))
  {
  }

  lemma HandlingKept(s: State, t: TaskId, pc: Pc, cancelled: bool, e: Effect, u: TaskId)
    requires t < |s.tasks| && u < |s.tasks| && u != t && HandlingOk(s, s.tasks[u].key, s.tasks[u].pc)
    requires SlotLocksOk(s) && EffectDefined(s, e) && CritBalanced(s, t, pc, e)
    ensures HandlingOk(Advanced(s, t, pc, cancelled, e), s.tasks[u].key, s.tasks[u].pc)
  {
    var pcU := s.tasks[u].pc;
    if e.Cache? {
      var held := Crits(s.tasks);
      assert held[t] == Some(e.slot);
      HoldersDiffer(held, SlotHolders(s.slots), t, u);
      assert held[u] == CritOf(pcU) != Some(e.slot);
    }
    if EmptiesCache(pcU) { CacheUntouched(s, t, s.tasks[t].key, e, CritOf(pcU).value); }
    if HandsOf(pcU).Some? { KeyUntouched(s, t, s.tasks[t].key, e, HandsOf(pcU).value); }
  }

  lemma CacheUntouched(s: State, t: TaskId, key: Key, e: Effect, i: SlotId)
    requires EffectDefined(s, e) && i < |s.slots| && !(e.Cache? && e.slot == i)
    ensures i < |Apply(s, t, key, e).slots| && Apply(s, t, key, e).slots[i].cached == s.slots[i].cached
  {
  }

  lemma KeyUntouched(s: State, t: TaskId, key: Key, e: Effect, sid: Sid)
    requires EffectDefined(s, e) && sid < |s.sessions|
    ensures sid < |Apply(s, t, key, e).sessions| && Apply(s, t, key, e).sessions[sid].key == s.sessions[sid].key
  {
  }

  lemma RunHandling(s: State, t: TaskId, c: Choice)
    requires LocalOk(s, t) && CachedOk(s) && Ready(s, t, c) && EffectDefined(s, Move(s, t, c).1)
    requires HandlingOk(s, s.tasks[t].key, s.tasks[t].pc)
    requires CritOf(s.tasks[t].pc).Some? ==> s.slots[CritOf(s.tasks[t].pc).value].key == s.tasks[t].key
    ensures var (pc, e) := Move(s, t, c);
            && HandlingOk(Advanced(s, t, pc, s.tasks[t].cancelled, e), s.tasks[t].key, pc)
            && (e.Cache? && e.cached.Some? ==>
                  Known(s, e.cached.value) && s.sessions[e.cached.value].key == s.slots[e.slot].key)
  {
    if InCell(s.tasks[t].pc) {
      CellHandling(s, t, c);
    } else if InRemoval(s.tasks[t].pc) {
      RemovalHandling(s, t, c);
    } else {
      SlotHandling(s, t, c);
    }
  }

  lemma CellHandling(s: State, t: TaskId, c: Choice)
    requires LocalOk(s, t) && Ready(s, t, c) && EffectDefined(s, Move(s, t, c).1) && InCell(s.tasks[t].pc)
    ensures var (pc, e) := Move(s, t, c); !e.Cache? && HandsOf(pc).None? && !EmptiesCache(pc)
  {
  }

  lemma RemovalHandling(s: State, t: TaskId, c: Choice)
    requires LocalOk(s, t) && Ready(s, t, c) && EffectDefined(s, Move(s, t, c).1)
    requires HandlingOk(s, s.tasks[t].key, s.tasks[t].pc) && InRemoval(s.tasks[t].pc)
    ensures var (pc, e) := Move(s, t, c);
            !e.Cache? && HandlingOk(Advanced(s, t, pc, s.tasks[t].cancelled, e), s.tasks[t].key, pc)
  {
  }

  lemma SlotHandling(s: State, t: TaskId, c: Choice)
    requires LocalOk(s, t) && CachedOk(s) && Ready(s, t, c) && EffectDefined(s, Move(s, t, c).1)
    requires HandlingOk(s, s.tasks[t].key, s.tasks[t].pc) && !InCell(s.tasks[t].pc) && !InRemoval(s.tasks[t].pc)
    requires CritOf(s.tasks[t].pc).Some? ==> s.slots[CritOf(s.tasks[t].pc).value].key == s.tasks[t].key
    ensures var (pc, e) := Move(s, t, c);
            && HandlingOk(Advanced(s, t, pc, s.tasks[t].cancelled, e), s.tasks[t].key, pc)
            && (e.Cache? && e.cached.Some? ==>
                  Known(s, e.cached.value) && s.sessions[e.cached.value].key == s.slots[e.slot].key)
  {
  }

  lemma CancelHandling(s: State, t: TaskId, leaks: bool)
    requires LocalOk(s, t) && Cancellable(s, t) && HandlingOk(s, s.tasks[t].key, s.tasks[t].pc)
    ensures var (pc, e) := CancelMove(s, t, leaks);
            && EffectDefined(s, e) && !e.Cache?
            && HandlingOk(Advanced(s, t, pc, true, e), s.tasks[t].key, pc)
  {
    CancelBalanced(s, t, leaks);
  }

  // ---------------------------------------------------------------- every step keeps the invariant

  lemma AdvanceKeeps(s: State, t: TaskId, pc: Pc, cancelled: bool, e: Effect)
    requires Inv(s) && t < |s.tasks| && Balanced(s, t, pc, e)
    requires PcFacts(Advanced(s, t, pc, cancelled, e), pc)
    requires HandlingOk(Advanced(s, t, pc, cancelled, e), s.tasks[t].key, pc)
    requires e.Cache? && e.cached.Some? ==>
      Known(s, e.cached.value) && s.sessions[e.cached.value].key == s.slots[e.slot].key
    ensures Inv(Advanced(s, t, pc, cancelled, e))
  {
    var s' := Advanced(s, t, pc, cancelled, e);
    RegistryKept(s, t, pc, cancelled, e);
    SlotLocksKept(s, t, pc, cancelled, e);
    SessionLocksKept(s, t, pc, cancelled, e);
    TeardownsKept(s, t, pc, cancelled, e);
    CachedKept(s, t, pc, cancelled, e);
    forall u: TaskId | u < |s'.tasks|
      ensures PcFacts(s', s'.tasks[u].pc) && HandlingOk(s', s'.tasks[u].key, s'.tasks[u].pc)
    {
      if u != t {
        FactsKept(s, t, pc, cancelled, e, u);
        HandlingKept(s, t, pc, cancelled, e, u);
      }
    }
  }

  lemma CritKey(s: State, t: TaskId)
    requires RegistryOk(s) && t < |s.tasks| && CritOf(s.tasks[t].pc).Some?
    ensures var i := CritOf(s.tasks[t].pc).value; i < |s.slots| && s.slots[i].key == s.tasks[t].key
  {
    assert Uses(s.tasks)[t] == CritOf(s.tasks[t].pc);
  }

  lemma RunKeeps(s: State, t: TaskId, c: Choice)
    requires Inv(s) && Enabled(s, Run(t, c))
    ensures Inv(Step(s, Run(t, c)))
  {
    var (pc, e) := Move(s, t, c);
    InvLocal(s, t);
    RunBalanced(s, t, c);
    RunFacts(s, t, c);
    if CritOf(s.tasks[t].pc).Some? { CritKey(s, t); }
    RunHandling(s, t, c);
    AdvanceKeeps(s, t, pc, s.tasks[t].cancelled, e);
  }

  lemma CancelKeeps(s: State, t: TaskId, leaks: bool)
    requires Inv(s) && Enabled(s, Cancel(t, leaks))
    ensures Inv(Step(s, Cancel(t, leaks)))
  {
    var (pc, e) := CancelMove(s, t, leaks);
    InvLocal(s, t);
    CancelBalanced(s, t, leaks);
    CancelFacts(s, t, leaks);
    CancelHandling(s, t, leaks);
    AdvanceKeeps(s, t, pc, true, e);
  }

  lemma RegistryJoined(
    slots: seq<Slot>, registry: map<Key, SlotId>, uses: seq<Option<SlotId>>, keys: seq<Key>, key: Key)
    requires RegistryFits(slots, registry, uses, keys)
    ensures RegistryFits(slots, registry, uses + [None], keys + [key])
  {
    assert (uses + [None])[..|uses|] == uses;
  }

  /** A new task holds nothing. */
  lemma EntryIdle(s: State, key: Key, job: Job)
    ensures var pc := Entry(key, job);
            && SlotOf(pc) == CritOf(pc) == None && LockOf(pc) == None
            && PcFacts(s, pc) && HandlingOk(s, key, pc)
  {
  }

  lemma SpawnKeeps(s: State, key: Key, job: Job)
    requires Inv(s)
    ensures Inv(Step(s, Spawn(key, job)))
  {
    var s' := Step(s, Spawn(key, job));
    EntryIdle(s, key, job);
    assert RegistryOk(s') by {
      RegistryJoined(s.slots, s.registry, Uses(s.tasks), Keys(s.tasks), key);
      assert Uses(s'.tasks) == Uses(s.tasks) + [None];
      assert Keys(s'.tasks) == Keys(s.tasks) + [key];
    }
    assert SlotLocksOk(s') by {
      MatchedJoined(Crits(s.tasks), SlotHolders(s.slots));
      assert Crits(s'.tasks) == Crits(s.tasks) + [None];
    }
    assert SessionLocksOk(s') by {
      MatchedJoined(Locks(s.tasks), SessionHolders(s.sessions));
      assert Locks(s'.tasks) == Locks(s.tasks) + [None];
    }
    SpawnFacts(s, key, job);
  }

  lemma SpawnFacts(s: State, key: Key, job: Job)
    requires PcsOk(s) && HandsOk(s)
    ensures PcsOk(Step(s, Spawn(key, job))) && HandsOk(Step(s, Spawn(key, job)))
  {
    var s' := Step(s, Spawn(key, job));
    EntryIdle(s, key, job);
    forall t: TaskId | t < |s'.tasks|
      ensures PcFacts(s', s'.tasks[t].pc) && HandlingOk(s', s'.tasks[t].key, s'.tasks[t].pc)
    {
      if t < |s.tasks| {
        assert PcFacts(s, s.tasks[t].pc) && HandlingOk(s, s.tasks[t].key, s.tasks[t].pc);
      }
    }
  }

  lemma WorkerTeardowns(s: State, sid: Sid, fails: bool)
    requires TeardownsOk(s) && CachedOk(s) && Enabled(s, Worker(sid, fails))
    ensures TeardownsOk(Step(s, Worker(sid, fails))) && CachedOk(Step(s, Worker(sid, fails)))
  {
    assert TeardownOk(s.sessions[sid]);
  }

  lemma WorkerKeeps(s: State, sid: Sid, fails: bool)
    requires Inv(s) && Enabled(s, Worker(sid, fails))
    ensures Inv(Step(s, Worker(sid, fails)))
  {
    var s' := Step(s, Worker(sid, fails));
    assert SessionHolders(s'.sessions) == SessionHolders(s.sessions);
    WorkerTeardowns(s, sid, fails);
    forall t: TaskId | t < |s.tasks|
      ensures PcFacts(s', s.tasks[t].pc) && HandlingOk(s', s.tasks[t].key, s.tasks[t].pc)
    {
      assert PcFacts(s, s.tasks[t].pc) && HandlingOk(s, s.tasks[t].key, s.tasks[t].pc);
    }
  }

  lemma StepKeeps(s: State, a: Action)
    requires Inv(s) && Enabled(s, a)
    ensures Inv(Step(s, a))
  {
    match a
    case Spawn(key, job) => SpawnKeeps(s, key, job);
    case Run(t, c) => RunKeeps(s, t, c);
    case Cancel(t, leaks) => CancelKeeps(s, t, leaks);
    case Worker(sid, fails) => WorkerKeeps(s, sid, fails);
  }

  /** The invariant holds in every reachable state. */
  lemma {:induction false} RunsKeep(s: State, run: seq<Action>)
    requires Inv(s) && IsRun(s, run)
    ensures Inv(Last(s, run))
    decreases |run|
  {
    if run != [] {
      StepKeeps(s, run[0]);
      RunsKeep(Step(s, run[0]), run[1..]);
    }
  }

  lemma Reachable(run: seq<Action>)
    requires IsRun(INITIAL, run)
    ensures Inv(Last(INITIAL, run))
  {
    RunsKeep(INITIAL, run);
  }
}
