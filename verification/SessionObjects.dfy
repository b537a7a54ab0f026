/**
  The atomic stretches of the session protocol in the source's own form: objects whose fields are
  updated in place, in dictionaries that are shared.  Each method is proved to have, on the values
  of the objects, the effect that the step system gives it.
 */
module SessionObjects {
  import opened Prelude
  import opened SessionProtocol

  /** The registry with a slot for `key` in it. */
  function WithSlot(s: State, key: Key): State {
    if SlotFor(s, key) < |s.slots| then s
    else s.(slots := s.slots + [Slot(key, 0, None, None)], registry := s.registry[key := |s.slots|])
  }

  /** Entering is making sure of the slot, and counting one more user. */
  lemma EnteredTwoSteps(s: State, key: Key, s': State)
    requires s' == WithSlot(s, key) && SlotFor(s, key) <= |s.slots|
    ensures var i := SlotFor(s, key);
            && i < |s'.slots|
            && Entered(s, key) == s'.(slots := s'.slots[i := s'.slots[i].(users := s'.slots[i].users + 1)])
  {
  }

  /** `_SessionSlot`.  The number of a slot only serves to name it. */
  class SlotObject {
    ghost const number: SlotId
    const key: Key
    var users: int
    var cached: Option<Sid>
    var holder: Option<TaskId>

    constructor (key: Key, ghost number: SlotId)
      ensures this.key == key && this.number == number && users == 0 && cached == None && holder == None
    {
      this.key, this.number := key, number;
      users, cached, holder := 0, None, None;
    }

    ghost function Value(): Slot
      reads this
    {
      Slot(key, users, cached, holder)
    }
  }

  /** The slot registry of `tools.py`. */
  class SlotRegistry {
    var slots: map<Key, SlotObject>
    /** Every slot ever made, registered or not. */
    ghost var made: seq<SlotObject>

    constructor ()
      ensures Valid() && View() == INITIAL
    {
      slots, made := map[], [];
    }

    ghost predicate Made(slot: SlotObject)
      reads this
    {
      slot.number < |made| && made[slot.number] == slot
    }

    ghost predicate Valid()
      reads this, made
    {
      && (forall i | 0 <= i < |made| :: made[i].number == i)
      && (forall k <- slots :: Made(slots[k]))
    }

    ghost function View(): State
      reads this, made
    {
      State([], seq(|made|, i requires 0 <= i < |made| reads this, made => made[i].Value()),
            map k | k in slots :: slots[k].number, [], {}, 0)
    }

    /** `_session_slots.setdefault(key, _SessionSlot())`. */
    method SetDefault(key: Key) returns (slot: SlotObject)
      requires Valid()
      modifies this
      ensures Valid() && Made(slot) && slot.number == SlotFor(old(View()), key)
      ensures slot in old(slots.Values) || fresh(slot)
      ensures View() == WithSlot(old(View()), key)
    {
      if key in slots { return slots[key]; }
      slot := new SlotObject(key, |made|);
      slots := slots[key := slot];
      made := made + [slot];
    }

    /** The block on entry to `_locked_slot`: `setdefault`, and one more user. */
    method Enter(key: Key) returns (slot: SlotObject)
      requires Valid()
      modifies this, slots.Values
      ensures Valid() && Made(slot) && slot.number == SlotFor(old(View()), key)
      ensures View() == Entered(old(View()), key)
    {
      slot := SetDefault(key);
      ghost var before := View();
      slot.users := slot.users + 1;
      assert View().slots == before.slots[slot.number := slot.Value()];
      EnteredTwoSteps(old(View()), key, before);
    }

    /** The block in the `finally` of `_locked_slot`. */
    method Leave(key: Key, slot: SlotObject)
      requires Valid() && Made(slot)
      modifies this, slot
      ensures Valid() && made == old(made) && View() == Left(old(View()), key, slot.number)
    {
      slot.users := slot.users - 1;
      if slot.users == 0 && slot.cached == None && key in slots && slots[key] == slot {
        slots := slots - {key};
      }
    }

    /** `_session_for` under the slot's lock: the cached session, or none, and then it starts one. */
    method Cached(slot: SlotObject) returns (session: Option<Sid>)
      requires Valid() && Made(slot)
      ensures var (next, effect) := Body(slot.cached, Fetch, slot.number);
              && effect == Nothing
              && next == if session.Some? then SlotRelease(slot.number, Use(session.value)) else Creating(slot.number)
    {
      session := slot.cached;
    }

    /** `slot.cached = _CachedSession(...)` in `_session_for`. */
    method Keep(slot: SlotObject, session: Sid)
      requires Valid() && Made(slot)
      modifies slot
      ensures Valid() && View() == Apply(old(View()), 0, slot.key, Cache(slot.number, Some(session)))
    {
      slot.cached := Some(session);
      assert View().slots == old(View()).slots[slot.number := slot.Value()];
    }

    /** `_forget_session` under the slot's lock. */
    method Forget(slot: SlotObject, session: Sid)
      requires Valid() && Made(slot)
      modifies slot
      ensures Valid() && slot.cached == if old(slot.cached) == Some(session) then None else old(slot.cached)
      ensures var (next, effect) := Body(old(slot.cached), SessionProtocol.Forget(session), slot.number);
              && next == SlotRelease(slot.number, Quit)
              && EffectDefined(old(View()), effect)
              && View() == Apply(old(View()), 0, slot.key, effect)
    {
      if slot.cached.Some? && slot.cached.value == session {
        slot.cached := None;
      }
      assert View().slots == old(View()).slots[slot.number := slot.Value()];
    }

    /** `clear_sandbox_session` under the slot's lock: the session it goes on to destroy, if any. */
    method Wipe(slot: SlotObject, destroy: bool) returns (doomed: Option<Sid>)
      requires Valid() && Made(slot)
      modifies slot
      ensures Valid() && slot.cached == None && doomed == if destroy then old(slot.cached) else None
      ensures var (next, effect) := Body(old(slot.cached), SessionProtocol.Wipe(destroy), slot.number);
              && EffectDefined(old(View()), effect)
              && View() == Apply(old(View()), 0, slot.key, effect)
              && next == if doomed.Some? then RemoveLookup(doomed.value, InSlot(slot.number))
                         else SlotRelease(slot.number, Emptied)
    {
      var cached := slot.cached;
      slot.cached := None;
      doomed := if cached.Some? && destroy then cached else None;
      assert View().slots == old(View()).slots[slot.number := slot.Value()];
    }
  }

  /** `_Session`.  The attempts count what the removal thread asks of Docker. */
  class SessionObject {
    ghost const number: Sid
    ghost const key: Key
    var destroyed: bool
    var phase: Phase
    var containerTries: nat
    var volumeTries: nat

    constructor (ghost key: Key, ghost number: Sid)
      ensures this.key == key && this.number == number && Value() == Session(key, false, None, Untouched, 0, 0)
    {
      this.key, this.number := key, number;
      destroyed, phase, containerTries, volumeTries := false, Untouched, 0, 0;
    }

    ghost function Value(): Session
      reads this
    {
      Session(key, destroyed, None, phase, containerTries, volumeTries)
    }

    /** `_remove` in its worker thread: the volume is tried even if the container could not be removed,
        and either failure is raised in the end. */
    method Remove(containerFails: bool, volumeFails: bool) returns (raises: bool)
      requires phase.AtContainer?
      modifies this
      ensures Value() == Worked(Worked(old(Value()), containerFails), volumeFails)
      ensures phase == Removed(raises)
    {
      containerTries := containerTries + 1;
      phase := AtVolume(containerFails);
      volumeTries := volumeTries + 1;
      raises := containerFails || volumeFails;
      phase := Removed(raises);
    }
  }

  /** The session dictionary of `DockerSandbox`. */
  class SessionRegistry {
    var sessions: map<Sid, SessionObject>
    ghost var made: seq<SessionObject>

    constructor ()
      ensures Valid() && View() == INITIAL
    {
      sessions, made := map[], [];
    }

    ghost predicate Made(state: SessionObject)
      reads this
    {
      state.number < |made| && made[state.number] == state
    }

    ghost predicate Valid()
      reads this, made
    {
      && (forall i | 0 <= i < |made| :: made[i].number == i)
      && (forall sid <- sessions :: Made(sessions[sid]) && sessions[sid].number == sid)
    }

    ghost function View(): State
      reads this, made
    {
      State([], [], map[], seq(|made|, i requires 0 <= i < |made| reads this, made => made[i].Value()),
            sessions.Keys, 0)
    }

    /** `start` once Docker has made a container with a fresh id. */
    method Register(key: Key, containerId: Sid) returns (state: SessionObject)
      requires Valid() && containerId == |made|
      modifies this
      ensures Valid() && Made(state) && state.number == containerId && View() == Started(old(View()), key)
    {
      state := new SessionObject(key, containerId);
      sessions := sessions[containerId := state];
      made := made + [state];
    }

    /** The first stretch of `_remove_session_locked`; true if the removal thread is to start. */
    method Mark(sid: Sid, state: SessionObject) returns (starts: bool)
      requires Valid() && Made(state) && state.number == sid
      modifies this, state
      ensures Valid() && made == old(made) && View() == Marked(old(View()), sid)
      ensures starts <==> !old(state.destroyed)
    {
      if state.destroyed { return false; }
      state.destroyed := true;
      state.phase := AtContainer;
      if sid in sessions && sessions[sid] == state {
        sessions := sessions - {sid};
      }
      return true;
    }
  }
}
