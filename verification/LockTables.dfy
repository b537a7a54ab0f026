/** Which task holds which lock, seen from the tasks and from the locks. */
module LockTables {
  import opened Prelude

  /** Lock `i` is held by task `t` exactly when `t` is where that lock is held. */
  ghost predicate Matched(held: seq<Option<nat>>, holders: seq<Option<nat>>) {
    && (forall i | 0 <= i < |holders| && holders[i].Some? ::
          holders[i].value < |held| && held[holders[i].value] == Some(i))
    && (forall t | 0 <= t < |held| && held[t].Some? ::
          held[t].value < |holders| && holders[held[t].value] == Some(t))
  }

  lemma MatchedTake(held: seq<Option<nat>>, holders: seq<Option<nat>>, t: nat, i: nat)
    requires Matched(held, holders) && t < |held| && i < |holders|
    requires held[t] == None && holders[i] == None
    ensures Matched(held[t := Some(i)], holders[i := Some(t)])
  {
  }

  lemma MatchedFree(held: seq<Option<nat>>, holders: seq<Option<nat>>, t: nat, i: nat)
    requires Matched(held, holders) && t < |held| && held[t] == Some(i)
    ensures i < |holders| && Matched(held[t := None], holders[i := None])
  {
  }

  lemma MatchedJoined(held: seq<Option<nat>>, holders: seq<Option<nat>>)
    requires Matched(held, holders)
    ensures Matched(held + [None], holders)
  {
  }

  /** Two tasks never hold the same lock. */
  lemma HoldersDiffer(held: seq<Option<nat>>, holders: seq<Option<nat>>, t: nat, u: nat)
    requires Matched(held, holders) && t < |held| && u < |held| && t != u && held[t].Some?
    ensures held[t] != held[u]
  {
  }
}
