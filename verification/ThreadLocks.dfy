/** `ThreadLocks`: one lock per Slack thread, and the requests that run under it. */
module ThreadLocks {
  import opened Prelude
  import opened LockTables

  /** The channel and thread of a request. */
  datatype Key = Key(channel: string, thread: string)

  class AsyncLock {
    constructor () {}
  }

  /** The registry in its own form: `_get_lock` fills `_locks` in place. */
  class Registry {
    var locks: map<Key, AsyncLock>

    constructor ()
      ensures locks == map[]
    {
      locks := map[];
    }

    /** `_get_lock`: the lock of a key is created once and is the same object ever after. */
    method GetLock(key: Key) returns (lock: AsyncLock)
      modifies this
      ensures key in locks && lock == locks[key] && locks == old(locks)[key := lock]
      ensures if key in old(locks) then lock == old(locks)[key] else fresh(lock)
    {
      if key in locks { return locks[key]; }
      lock := new AsyncLock();
      locks := locks[key := lock];
    }
  }

  // ---------------------------------------------------------------- requests as a step system

  datatype Pc = Arriving | Waiting(lock: nat) | Inside(lock: nat) | Done

  /** A `handle_request` call, with the registry it was given. */
  datatype Request = Request(registry: nat, key: Key, pc: Pc)

  /** A lock, the registry and the key it was created for, and the request that holds it. */
  datatype Lock = Lock(registry: nat, key: Key, holder: Option<nat>)

  datatype State = State(requests: seq<Request>, registries: seq<map<Key, nat>>, locks: seq<Lock>)

  /** `Arrive` without a shared registry gets one of its own: `locks or ThreadLocks()`. */
  datatype Action = NewRegistry | Arrive(shared: Option<nat>, key: Key) | Advance(t: nat) | Cancel(t: nat)

  const INITIAL := State([], [], [])

  predicate Enabled(s: State, a: Action) {
    match a
    case NewRegistry => true
    case Arrive(shared, _) => shared.Some? ==> shared.value < |s.registries|
    case Advance(t) =>
      && t < |s.requests|
      && (match s.requests[t].pc
          case Arriving => s.requests[t].registry < |s.registries|
          case Waiting(i) => i < |s.locks| && s.locks[i].holder.None?
          case Inside(i) => i < |s.locks|
          case Done => false)
    case Cancel(t) => t < |s.requests| && (s.requests[t].pc.Waiting? || s.requests[t].pc.Inside?)
                      && s.requests[t].pc.lock < |s.locks|
  }

  function At(s: State, t: nat, pc: Pc): seq<Request>
    requires t < |s.requests|
  {
    s.requests[t := s.requests[t].(pc := pc)]
  }

  function Step(s: State, a: Action): State
    requires Enabled(s, a)
  {
    match a
    case NewRegistry => s.(registries := s.registries + [map[]])
    case Arrive(Some(r), key) => s.(requests := s.requests + [Request(r, key, Arriving)])
    case Arrive(None, key) =>
      s.(requests := s.requests + [Request(|s.registries|, key, Arriving)], registries := s.registries + [map[]])
    case Advance(t) =>
      var Request(r, key, pc) := s.requests[t];
      (match pc
       case Arriving =>
         if key in s.registries[r] then s.(requests := At(s, t, Waiting(s.registries[r][key])))
         else
           var made: nat := |s.locks|;
           var registry: map<Key, nat> := s.registries[r][key := made];
           State(At(s, t, Waiting(made)), s.registries[r := registry], s.locks + [Lock(r, key, None)])
       case Waiting(i) => s.(requests := At(s, t, Inside(i)), locks := s.locks[i := s.locks[i].(holder := Some(t))])
       case Inside(i) => s.(requests := At(s, t, Done), locks := s.locks[i := s.locks[i].(holder := None)]))
    case Cancel(t) =>
      var i := s.requests[t].pc.lock;
      if s.requests[t].pc.Waiting? then s.(requests := At(s, t, Done))
      else s.(requests := At(s, t, Done), locks := s.locks[i := s.locks[i].(holder := None)])
  }

  predicate IsRun(s: State, run: seq<Action>)
    decreases |run|
  {
    run == [] || (Enabled(s, run[0]) && IsRun(Step(s, run[0]), run[1..]))
  }

  function Last(s: State, run: seq<Action>): State
    requires IsRun(s, run)
    decreases |run|
  {
    if run == [] then s else Last(Step(s, run[0]), run[1..])
  }

  // ---------------------------------------------------------------- invariant

  function Held(requests: seq<Request>): seq<Option<nat>> {
    seq(|requests|, t requires 0 <= t < |requests| =>
      if requests[t].pc.Inside? then Some(requests[t].pc.lock) else None)
  }

  function Holders(locks: seq<Lock>): seq<Option<nat>> {
    seq(|locks|, i requires 0 <= i < |locks| => locks[i].holder)
  }

  /** The lock a request waits for or holds is the one its registry has for its key. */
  predicate UsesItsLock(s: State, q: Request) {
    && q.registry < |s.registries|
    && (q.pc.Waiting? || q.pc.Inside? ==>
          && q.pc.lock < |s.locks| && q.key in s.registries[q.registry]
          && s.registries[q.registry][q.key] == q.pc.lock)
  }

  ghost predicate RegistriesOk(s: State) {
    forall r | 0 <= r < |s.registries| :: forall k <- s.registries[r] ::
      s.registries[r][k] < |s.locks|
      && s.locks[s.registries[r][k]].registry == r && s.locks[s.registries[r][k]].key == k
  }

  predicate RequestsOk(s: State) { forall t | 0 <= t < |s.requests| :: UsesItsLock(s, s.requests[t]) }

  ghost predicate Inv(s: State) {
    Matched(Held(s.requests), Holders(s.locks)) && RegistriesOk(s) && RequestsOk(s)
  }

  lemma HeldKept(s: State, a: Action)
    requires Inv(s) && Enabled(s, a)
    ensures Matched(Held(Step(s, a).requests), Holders(Step(s, a).locks))
  {
    var s', held, holders := Step(s, a), Held(s.requests), Holders(s.locks);
    match a
    case NewRegistry =>
    case Arrive(_, _) =>
      MatchedJoined(held, holders);
      assert Held(s'.requests) == held + [None];
    case Advance(t) => AdvanceHolds(s, t);
    case Cancel(t) =>
      HeldAt(s, t, Done);
      if s.requests[t].pc.Inside? { LockFreed(s, t, s.requests[t].pc.lock); }
  }

  lemma HeldAt(s: State, t: nat, pc: Pc)
    requires t < |s.requests|
    ensures Held(At(s, t, pc)) == Held(s.requests)[t := if pc.Inside? then Some(pc.lock) else None]
  {
  }

  lemma LockFreed(s: State, t: nat, i: nat)
    requires Matched(Held(s.requests), Holders(s.locks)) && t < |s.requests| && s.requests[t].pc == Inside(i)
    ensures i < |s.locks|
    ensures Matched(Held(s.requests)[t := None], Holders(s.locks[i := s.locks[i].(holder := None)]))
  {
    var held, holders := Held(s.requests), Holders(s.locks);
    assert held[t] == Some(i);
    MatchedFree(held, holders, t, i);
    assert Holders(s.locks[i := s.locks[i].(holder := None)]) == holders[i := None];
  }

  lemma AdvanceHolds(s: State, t: nat)
    requires Matched(Held(s.requests), Holders(s.locks)) && Enabled(s, Advance(t))
    ensures Matched(Held(Step(s, Advance(t)).requests), Holders(Step(s, Advance(t)).locks))
  {
    var s', held, holders := Step(s, Advance(t)), Held(s.requests), Holders(s.locks);
    match s.requests[t].pc
    case Arriving =>
      assert Held(s'.requests) == held;
      assert Holders(s'.locks) == holders || Holders(s'.locks) == holders + [None];
    case Waiting(i) =>
      HeldAt(s, t, Inside(i));
      MatchedTake(held, holders, t, i);
      assert Holders(s'.locks) == holders[i := Some(t)];
    case Inside(i) =>
      HeldAt(s, t, Done);
      LockFreed(s, t, i);
  }

  lemma RegistriesKept(s: State, a: Action)
    requires RegistriesOk(s) && Enabled(s, a)
    ensures RegistriesOk(Step(s, a))
  {
    if a.Advance? && s.requests[a.t].pc.Arriving? && s.requests[a.t].key !in s.registries[s.requests[a.t].registry] {
      MadeKept(s, s.requests[a.t].registry, s.requests[a.t].key, Step(s, a));
    }
  }

  /** A lock that is made is its registry's for the one key it was made for. */
  lemma MadeKept(s: State, r: nat, key: Key, s': State)
    requires RegistriesOk(s) && r < |s.registries| && s'.locks == s.locks + [Lock(r, key, None)]
    requires var made: nat := |s.locks|;
             var registry: map<Key, nat> := s.registries[r][key := made];
             s'.registries == s.registries[r := registry]
    ensures RegistriesOk(s')
  {
  }

  lemma RequestKept(s: State, a: Action, t: nat)
    requires RegistriesOk(s) && RequestsOk(s) && Enabled(s, a) && t < |Step(s, a).requests|
    ensures UsesItsLock(Step(s, a), Step(s, a).requests[t])
  {
    if t < |s.requests| { assert UsesItsLock(s, s.requests[t]); }
  }

  lemma StepKeeps(s: State, a: Action)
    requires Inv(s) && Enabled(s, a)
    ensures Inv(Step(s, a))
  {
    HeldKept(s, a);
    RegistriesKept(s, a);
    var s' := Step(s, a);
    forall t | 0 <= t < |s'.requests| ensures UsesItsLock(s', s'.requests[t]) {
      RequestKept(s, a, t);
    }
  }

  lemma {:induction false} RunsKeep(s: State, run: seq<Action>)
    requires Inv(s) && IsRun(s, run)
    ensures Inv(Last(s, run))
    decreases |run|
  {
    if run != [] {
      StepKeeps(s, run[0]);
      RunsKeep(Step(s, run[0]), run[1..]);
    }
  }

  /** In every reachable state, two requests are inside at once only if they are for different threads
      or were given different registries. */
  lemma NoOverlap(run: seq<Action>, t: nat, u: nat)
    requires IsRun(INITIAL, run)
    requires var s := Last(INITIAL, run);
             && t < |s.requests| && u < |s.requests| && t != u
             && s.requests[t].pc.Inside? && s.requests[u].pc.Inside?
    ensures var s := Last(INITIAL, run);
            s.requests[t].registry != s.requests[u].registry || s.requests[t].key != s.requests[u].key
  {
    RunsKeep(INITIAL, run);
    var s := Last(INITIAL, run);
    var held := Held(s.requests);
    assert UsesItsLock(s, s.requests[t]) && UsesItsLock(s, s.requests[u]);
    assert held[t] == Some(s.requests[t].pc.lock) && held[u] == Some(s.requests[u].pc.lock);
    HoldersDiffer(held, Holders(s.locks), t, u);
  }

  /** Requests that share no registry do overlap on one thread: each made a lock of its own. */
  lemma OwnRegistriesOverlap(key: Key) returns (run: seq<Action>)
    ensures IsRun(INITIAL, run)
    ensures var s := Last(INITIAL, run);
            |s.requests| == 2 && s.requests[0].key == s.requests[1].key == key
            && s.requests[0].pc.Inside? && s.requests[1].pc.Inside?
  {
    run := [];
    run := Extended(run, Arrive(None, key));
    run := Extended(run, Arrive(None, key));
    run := Extended(run, Advance(0));
    run := Extended(run, Advance(1));
    run := Extended(run, Advance(0));
    run := Extended(run, Advance(1));
  }

  lemma Extended(run: seq<Action>, a: Action) returns (run': seq<Action>)
    requires IsRun(INITIAL, run) && Enabled(Last(INITIAL, run), a)
    ensures run' == run + [a] && IsRun(INITIAL, run') && Last(INITIAL, run') == Step(Last(INITIAL, run), a)
  {
    run' := run + [a];
    RunJoin(INITIAL, run, a);
  }

  lemma {:induction false} RunJoin(s: State, run: seq<Action>, a: Action)
    requires IsRun(s, run) && Enabled(Last(s, run), a)
    ensures IsRun(s, run + [a]) && Last(s, run + [a]) == Step(Last(s, run), a)
    decreases |run|
  {
    if run == [] {
      assert run + [a] == [a] && [a][1..] == [];
    } else {
      RunJoin(Step(s, run[0]), run[1..], a);
      assert (run + [a])[1..] == run[1..] + [a];
    }
  }
}
