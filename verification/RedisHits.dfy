/** That hits happen: a written value is there until its deadline, whatever is done to other keys. */
module RedisHits {
  import opened Wrappers
  import opened Values
  import opened Redis

  predicate Untouched(actions: seq<Action>, key: Key) {
    forall i :: 0 <= i < |actions| ==> actions[i].key != key
  }

  lemma {:induction false} OthersLeaveKey(actions: seq<Action>, more: seq<Action>, key: Key)
    requires Untouched(more, key)
    ensures key in Run(actions + more) <==> key in Run(actions)
    ensures key in Run(actions) ==> Run(actions + more)[key] == Run(actions)[key]
  {
    if more == [] {
      assert actions + more == actions;
    } else {
      var before := more[..|more| - 1];
      assert (actions + more)[..|actions + more| - 1] == actions + before;
      OthersLeaveKey(actions, before, key);
    }
  }

  /** When the server drops what a write stored: its own deadline, or the one that was there. */
  function DeadlineAfter(server: Server, a: Action): Option<int>
    requires a.Write?
  {
    if Ttl(a.value, a.tc).Some? then Some(Millis(a.te) + Ttl(a.value, a.tc).value * 1000)
    else if Live(server, a.key, a.th) then server[a.key].deadline
    else None
  }

  /**
   * A write that its key outlives is read back until its deadline and not after, whatever happens to
   * other keys: hits are not only right, they happen.
   */
  lemma {:induction false} WrittenIsReadUntilDeadline(actions: seq<Action>, a: Action, more: seq<Action>, t1: int,
          t2: int, t3: int)
    requires a.Write? && Untouched(more, a.key)
    requires
      var older := Run(actions);
      Live(older, a.key, a.th) && older[a.key].deadline.Some? ==> Millis(a.te) <= older[a.key].deadline.value
    ensures
      var deadline := DeadlineAfter(Run(actions), a);
      ReadAt(Run(actions + [a] + more), a.key, t1, t2, t3).Some? <==>
        (deadline.Some? ==> Millis(t1) <= deadline.value)
  {
    var wrote := actions + [a];
    assert wrote[..|wrote| - 1] == actions;
    OthersLeaveKey(wrote, more, a.key);
  }

  /** Once removed, a key is missed until it is written again. */
  lemma {:induction false} RemovedIsMissed(actions: seq<Action>, key: Key, t: int, more: seq<Action>, t1: int,
          t2: int, t3: int)
    requires Untouched(more, key)
    ensures ReadAt(Run(actions + [Remove(key, t)] + more), key, t1, t2, t3).None?
  {
    var removed := actions + [Remove(key, t)];
    assert removed[..|removed| - 1] == actions;
    OthersLeaveKey(removed, more, key);
  }
}
