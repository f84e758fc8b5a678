/**
 * How fresh a hit from Redis is judged, against the value as it was last written, over every run and at
 * every later instant.
 */
module RedisFreshness {
  import opened Wrappers
  import opened Values
  import opened Redis

  /**
   * Over every run, when the last write gave a stale mark: from that instant until the hit's own expiry
   * the hit is judged stale, and up to a millisecond before it actual; from its own expiry it is expired.
   */
  lemma {:induction false} HitGoesStale(actions: seq<Action>, key: Key, t1: int, t2: int, t3: int, at: int)
    requires Timely(actions) && After(actions, t1) && t1 <= t2 <= t3
    requires ReadAt(Run(actions), key, t1, t2, t3).Some?
    ensures LastWrite(actions, key).Some?
    ensures
      var stale := LastWrite(actions, key).value.value.stale;
      var hit := ReadAt(Run(actions), key, t1, t2, t3).value;
      && (Reached(hit.expire, at) ==> StateAt(hit, at) == Expired)
      && (stale.Some? && !Reached(hit.expire, at) ==>
            && (stale.value <= at ==> StateAt(hit, at) == Stale)
            && (at <= stale.value - NANOS_PER_MILLI ==> StateAt(hit, at) == Actual))
  {
    HitIsTheLastWrite(actions, key, t1, t2, t3);
    StateFollowsInstants(ReadAt(Run(actions), key, t1, t2, t3).value, at);
  }

  /** The last write gave no instant, or at least one whole second that the server still counts. */
  predicate Counted(actions: seq<Action>, key: Key, t2: int)
    requires LastWrite(actions, key).Some?
  {
    var a := LastWrite(actions, key).value;
    a.value.expire.Some? ==> Ttl(a.value, a.tc).Some? && PTtl(Run(actions), key, t2) > 0
  }

  predicate DriftAbsorbed(a: Action, t2: int, t3: int) {
    a.Write? && (Ttl(a.value, a.tc).Some? ==> Drift(a, t2, t3) <= Remainder(a.value, a.tc))
  }

  /**
   * Over every run, even when an older stale mark or deadline survived an overwrite: a counted hit
   * whose drift the truncation absorbs is never judged fresher than the value as it was written.
   */
  lemma {:induction false} HitIsNeverFresher(actions: seq<Action>, key: Key, t1: int, t2: int, t3: int, at: int)
    requires Timely(actions) && After(actions, t1) && t1 <= t2 <= t3
    requires ReadAt(Run(actions), key, t1, t2, t3).Some?
    ensures LastWrite(actions, key).Some?
    ensures
      var a := LastWrite(actions, key).value;
      Counted(actions, key, t2) && DriftAbsorbed(a, t2, t3) ==>
        StateAt(ReadAt(Run(actions), key, t1, t2, t3).value, at).Rank() <= StateAt(a.value, at).Rank()
  {
    HitIsTheLastWrite(actions, key, t1, t2, t3);
    var a := LastWrite(actions, key).value;
    if Counted(actions, key, t2) && DriftAbsorbed(a, t2, t3) {
      EarlierInstantsAreNoFresher(ReadAt(Run(actions), key, t1, t2, t3).value, a.value, at);
    }
  }

  function Slack(a: Action, t2: int, t3: int): int
    requires a.Write?
  {
    (a.te - a.tc) + (t3 - t2) + NANOS_PER_MILLI
  }

  /** The value as written, had it been given that much longer to live. */
  function Longer(v: Stored, slack: int): Stored {
    v.(expire := if v.expire.Some? then Some(v.expire.value + slack) else None)
  }

  lemma DriftedIsNoFresher(a: Action, hit: Stored, t2: int, t3: int, at: int)
    requires a.Write? && NoLater(hit.stale, a.value.stale)
    requires a.value.expire.Some? ==>
      && Ttl(a.value, a.tc).Some?
      && hit.expire == Some(a.value.expire.value + Drift(a, t2, t3) - Remainder(a.value, a.tc))
    ensures StateAt(hit, at).Rank() <= StateAt(Longer(a.value, Slack(a, t2, t3)), at).Rank()
  {
    DriftIsSmall(a, t2, t3);
    EarlierInstantsAreNoFresher(hit, Longer(a.value, Slack(a, t2, t3)), at);
  }

  /** Whatever the drift, freshness is off by no more than the latencies and one millisecond. */
  lemma {:induction false} HitIsFresherByDriftAtMost(actions: seq<Action>, key: Key, t1: int, t2: int, t3: int, at: int)
    requires Timely(actions) && After(actions, t1) && t1 <= t2 <= t3
    requires ReadAt(Run(actions), key, t1, t2, t3).Some?
    ensures LastWrite(actions, key).Some?
    ensures
      var a := LastWrite(actions, key).value;
      Counted(actions, key, t2) ==>
        StateAt(ReadAt(Run(actions), key, t1, t2, t3).value, at).Rank()
        <= StateAt(Longer(a.value, Slack(a, t2, t3)), at).Rank()
  {
    HitIsTheLastWrite(actions, key, t1, t2, t3);
    if Counted(actions, key, t2) {
      DriftedIsNoFresher(LastWrite(actions, key).value, ReadAt(Run(actions), key, t1, t2, t3).value, t2, t3, at);
    }
  }

  /**
   * When a hit expires in time: the value never does, or the server reports time left and that, counted
   * from the reading, ends no later.  For a time to live of its own that is absorbing the drift; for a
   * write with less than a second left it is up to the deadline of an older write.
   */
  predicate ExpiryCovered(actions: seq<Action>, key: Key, t2: int, t3: int)
    requires LastWrite(actions, key).Some?
  {
    var a := LastWrite(actions, key).value;
    var pttl := PTtl(Run(actions), key, t2);
    a.value.expire.Some? ==>
      && pttl > 0
      && if Ttl(a.value, a.tc).Some? then Drift(a, t2, t3) <= Remainder(a.value, a.tc)
         else t3 + pttl * NANOS_PER_MILLI <= a.value.expire.value
  }

  /** The expiry read back is no later than the one written exactly when it is covered. */
  lemma {:induction false} ExpiryIsKeptIff(actions: seq<Action>, key: Key, t1: int, t2: int, t3: int)
    requires Timely(actions) && After(actions, t1) && t1 <= t2 <= t3
    requires ReadAt(Run(actions), key, t1, t2, t3).Some?
    ensures LastWrite(actions, key).Some?
    ensures
      NoLater(ReadAt(Run(actions), key, t1, t2, t3).value.expire, LastWrite(actions, key).value.value.expire)
      <==> ExpiryCovered(actions, key, t2, t3)
  {
    HitIsTheLastWrite(actions, key, t1, t2, t3);
  }

  ghost predicate NeverFresher(hit: Stored, written: Stored) {
    forall at :: StateAt(hit, at).Rank() <= StateAt(written, at).Rank()
  }

  lemma NeverFresherIff(hit: Stored, written: Stored)
    requires NoLater(hit.stale, written.stale)
    ensures NeverFresher(hit, written) <==> NoLater(hit.expire, written.expire)
  {
    if NoLater(hit.expire, written.expire) {
      forall at
        ensures StateAt(hit, at).Rank() <= StateAt(written, at).Rank()
      {
        EarlierInstantsAreNoFresher(hit, written, at);
      }
    } else {
      assert StateAt(hit, written.expire.value).Rank() > StateAt(written, written.expire.value).Rank();
    }
  }

  /**
   * Over every run and for every hit: it is never judged fresher than the value as written, at any time,
   * if and only if its expiry is covered; unless the write had less than a second left, that is to be
   * counted down and to have the drift absorbed.
   */
  lemma {:induction false} FreshnessIsKeptIff(actions: seq<Action>, key: Key, t1: int, t2: int, t3: int)
    requires Timely(actions) && After(actions, t1) && t1 <= t2 <= t3
    requires ReadAt(Run(actions), key, t1, t2, t3).Some?
    ensures LastWrite(actions, key).Some?
    ensures
      NeverFresher(ReadAt(Run(actions), key, t1, t2, t3).value, LastWrite(actions, key).value.value)
      <==> ExpiryCovered(actions, key, t2, t3)
    ensures
      var a := LastWrite(actions, key).value;
      a.value.expire.None? || Ttl(a.value, a.tc).Some? ==>
        (ExpiryCovered(actions, key, t2, t3) <==> Counted(actions, key, t2) && DriftAbsorbed(a, t2, t3))
  {
    HitIsTheLastWrite(actions, key, t1, t2, t3);
    ExpiryIsKeptIff(actions, key, t1, t2, t3);
    NeverFresherIff(ReadAt(Run(actions), key, t1, t2, t3).value, LastWrite(actions, key).value.value);
  }

  /**
   * One second to live, read half a millisecond later on the same clock: the server still counts whole
   * milliseconds, and the hit is taken for fresh at the instant the value expires.
   */
  lemma DriftMakesFresher(key: Key)
    ensures
      var written := CacheValue([7], Some(NANOS_PER_SECOND), None);
      var actions := [Write(key, written, 0, 0, 0)];
      var hit := ReadAt(Run(actions), key, 500_001, 500_001, 500_001);
      && Timely(actions) && After(actions, 500_001) && LastWrite(actions, key) == Some(actions[0])
      && Counted(actions, key, 500_001) && !DriftAbsorbed(actions[0], 500_001, 500_001)
      && hit == Some(written.(expire := Some(NANOS_PER_SECOND + 500_001)))
      && StateAt(hit.value, NANOS_PER_SECOND) == Actual && StateAt(written, NANOS_PER_SECOND) == Expired
  {
    var written := CacheValue([7], Some(NANOS_PER_SECOND), None);
    var actions := [Write(key, written, 0, 0, 0)];
    assert actions[..0] == [];
    assert Run(actions) == WriteAt(map[], key, written, 0, 0, 0);
    assert Ttl(written, 0) == Some(1);
    assert Run(actions)[key] == Hash([7], None, Some(1000));
  }

  /** On a millisecond clock that stands still during each pipeline there is nothing to absorb. */
  lemma StillClocksAddNothing(a: Action, t2: int, t3: int)
    requires a.Write? && a.tc == a.te && t2 == t3
    requires a.tc % NANOS_PER_MILLI == 0 && t2 % NANOS_PER_MILLI == 0
    ensures Drift(a, t2, t3) == 0 && DriftAbsorbed(a, t2, t3)
  {
    if Ttl(a.value, a.tc).Some? {
      assert 0 <= Remainder(a.value, a.tc);
    }
  }
}
