/**
 * Values kept as Redis hashes.  The server counts milliseconds and keeps what a command does not
 * mention; the client truncates to whole seconds on the way in and rebuilds an instant on the way
 * out.  All instants are read off one clock, in nanoseconds, and commands of one pipeline may run
 * at different instants.
 */
module Redis {
  import opened Wrappers
  import opened Values

  /** The fields "d" and "s" of a hash, and when the server drops it, in milliseconds. */
  datatype Hash = Hash(d: Bytes, s: Option<int>, deadline: Option<int>)

  type Server = map<Key, Hash>

  type Stored = CacheValue<Bytes>

  function Millis(t: int): int {
    t / NANOS_PER_MILLI
  }

  lemma MillisAreBelow(t: int)
    ensures Millis(t) * NANOS_PER_MILLI <= t < (Millis(t) + 1) * NANOS_PER_MILLI
  {
  }

  // ----- server commands ------------------------------------------------------------------

  /** A hash is still there at its deadline and gone after it. */
  predicate Live(server: Server, key: Key, t: int) {
    key in server && (server[key].deadline.Some? ==> Millis(t) <= server[key].deadline.value)
  }

  function HSet(server: Server, key: Key, data: Bytes, stale: Option<int>, t: int): Server {
    if Live(server, key, t) then
      var was := server[key];
      server[key := Hash(data, if stale.Some? then stale else was.s, was.deadline)]
    else server[key := Hash(data, stale, None)]
  }

  function Expire(server: Server, key: Key, seconds: nat, t: int): Server {
    if Live(server, key, t) then server[key := server[key].(deadline := Some(Millis(t) + seconds * 1000))] else server
  }

  function HMGet(server: Server, key: Key, t: int): (Option<Bytes>, Option<int>) {
    if Live(server, key, t) then (Some(server[key].d), server[key].s) else (None, None)
  }

  function PTtl(server: Server, key: Key, t: int): int {
    if !Live(server, key, t) then -2
    else if server[key].deadline.None? then -1
    else server[key].deadline.value - Millis(t)
  }

  function Del(server: Server, key: Key, t: int): (Server, nat) {
    (server - {key}, if Live(server, key, t) then 1 else 0)
  }

  // ----- the client -----------------------------------------------------------------------

  function StaleMillis(v: Stored): Option<int> {
    if v.stale.Some? then Some(Millis(v.stale.value)) else None
  }

  /** The time to live is taken off the clock at `tc`; the server runs the two commands later. */
  function WriteAt(server: Server, key: Key, v: Stored, tc: int, th: int, te: int): Server {
    var set1 := HSet(server, key, v.data, StaleMillis(v), th);
    match Ttl(v, tc)
    case None => set1
    case Some(seconds) => Expire(set1, key, seconds, te)
  }

  function ReadAt(server: Server, key: Key, t1: int, t2: int, t3: int): Option<Stored> {
    var (data, staleMs) := HMGet(server, key, t1);
    var pttl := PTtl(server, key, t2);
    match data
    case None => None
    case Some(d) =>
      var stale := if staleMs.Some? then Some(staleMs.value * NANOS_PER_MILLI) else None;
      var expire := if pttl > 0 then Some(t3 + pttl * NANOS_PER_MILLI) else None;
      Some(CacheValue(d, expire, stale))
  }

  // ----- runs -----------------------------------------------------------------------------

  datatype Action =
    | Write(key: Key, value: Stored, tc: int, th: int, te: int)
    | Remove(key: Key, t: int)

  function Start(a: Action): int {
    if a.Write? then a.tc else a.t
  }

  function End(a: Action): int {
    if a.Write? then a.te else a.t
  }

  /** The clock never runs backwards, inside a pipeline or from one action to the next. */
  predicate Timely(actions: seq<Action>) {
    && (forall i :: 0 <= i < |actions| ==> actions[i].Write? ==> actions[i].tc <= actions[i].th <= actions[i].te)
    && (forall i, j :: 0 <= i < j < |actions| ==> End(actions[i]) <= Start(actions[j]))
  }

  predicate After(actions: seq<Action>, t: int) {
    forall i :: 0 <= i < |actions| ==> End(actions[i]) <= t
  }

  function Apply(server: Server, a: Action): Server {
    match a
    case Write(key, v, tc, th, te) => WriteAt(server, key, v, tc, th, te)
    case Remove(key, t) => Del(server, key, t).0
  }

  function Run(actions: seq<Action>): Server {
    if actions == [] then map[] else Apply(Run(actions[..|actions| - 1]), actions[|actions| - 1])
  }

  /** What was last done to the key, if that was a write. */
  function LastWrite(actions: seq<Action>, key: Key): (last: Option<Action>)
    ensures last.Some? ==> last.value.Write? && last.value.key == key && last.value in actions
  {
    if actions == [] then None
    else
      var a := actions[|actions| - 1];
      if a.key != key then LastWrite(actions[..|actions| - 1], key)
      else if a.Write? then Some(a) else None
  }

  /** What a hash owes to the write that was last, however old the rest of it is. */
  predicate HoldsWrite(h: Hash, a: Action) {
    && a.Write?
    && h.d == a.value.data
    && (a.value.stale.Some? ==> h.s == StaleMillis(a.value))
    && (Ttl(a.value, a.tc).Some? ==> h.deadline == Some(Millis(a.te) + Ttl(a.value, a.tc).value * 1000))
  }

  lemma LiveBefore(server: Server, key: Key, t: int, u: int)
    requires t <= u && Live(server, key, u)
    ensures Live(server, key, t)
  {
    MillisAreBelow(t);
    MillisAreBelow(u);
  }

  /** A write leaves its own fields behind, unless the key ran out between its two commands. */
  lemma WriteHolds(server: Server, a: Action, t: int)
    requires a.Write? && a.tc <= a.th <= a.te <= t
    requires Live(Apply(server, a), a.key, t)
    ensures HoldsWrite(Apply(server, a)[a.key], a)
  {
    var set1 := HSet(server, a.key, a.value.data, StaleMillis(a.value), a.th);
    if Ttl(a.value, a.tc).Some? && !Live(set1, a.key, a.te) {
      LiveBefore(set1, a.key, a.te, t);
    }
  }

  /** Over every run, a live key holds the last data written, with its own stale mark and deadline. */
  lemma {:induction false} LiveKeysHoldTheLastWrite(actions: seq<Action>, key: Key, t: int)
    requires Timely(actions) && After(actions, t) && Live(Run(actions), key, t)
    ensures LastWrite(actions, key).Some?
    ensures HoldsWrite(Run(actions)[key], LastWrite(actions, key).value)
  {
    var before, a := actions[..|actions| - 1], actions[|actions| - 1];
    assert End(a) <= t;
    if a.key == key {
      if a.Write? {
        WriteHolds(Run(before), a, t);
      }
    } else {
      assert Run(actions)[key] == Run(before)[key];
      LiveKeysHoldTheLastWrite(before, key, t);
    }
  }

  // ----- what a hit is worth --------------------------------------------------------------

  /** What truncating the time to live to whole seconds threw away. */
  function Remainder(v: Stored, tc: int): int
    requires Ttl(v, tc).Some?
  {
    v.expire.value - tc - Ttl(v, tc).value * NANOS_PER_SECOND
  }

  /** What the way in and the way out added: latencies, and the server's missing fractions. */
  function Drift(a: Action, t2: int, t3: int): int
    requires a.Write?
  {
    (Millis(a.te) * NANOS_PER_MILLI - a.tc) + (t3 - Millis(t2) * NANOS_PER_MILLI)
  }

  /** The drift is the two latencies and less than one millisecond either way. */
  lemma DriftIsSmall(a: Action, t2: int, t3: int)
    requires a.Write?
    ensures
      var latency := (a.te - a.tc) + (t3 - t2);
      latency - NANOS_PER_MILLI < Drift(a, t2, t3) < latency + NANOS_PER_MILLI
  {
    MillisAreBelow(a.te);
    MillisAreBelow(t2);
  }

  /** What reading gives of a hash that holds a write. */
  lemma HashReadsBack(server: Server, key: Key, a: Action, t1: int, t2: int, t3: int)
    requires Live(server, key, t1) && HoldsWrite(server[key], a)
    ensures ReadAt(server, key, t1, t2, t3).Some?
    ensures
      var hit := ReadAt(server, key, t1, t2, t3).value;
      && hit.data == a.value.data
      && NoLater(hit.stale, a.value.stale)
      && (a.value.stale.Some? ==> a.value.stale.value - hit.stale.value < NANOS_PER_MILLI)
      && (Ttl(a.value, a.tc).Some? && PTtl(server, key, t2) > 0 ==>
            hit.expire == Some(a.value.expire.value + Drift(a, t2, t3) - Remainder(a.value, a.tc)))
  {
    if a.value.stale.Some? {
      MillisAreBelow(a.value.stale.value);
    }
  }

  /**
   * Over every run: a hit gives the last data written, never a later stale instant, and, once the
   * last write gave a time to live and the server reports some of it left, exactly the instant
   * written plus the drift less the truncated remainder.
   */
  lemma {:induction false} HitIsTheLastWrite(actions: seq<Action>, key: Key, t1: int, t2: int, t3: int)
    requires Timely(actions) && After(actions, t1) && t1 <= t2 <= t3
    requires ReadAt(Run(actions), key, t1, t2, t3).Some?
    ensures LastWrite(actions, key).Some?
    ensures
      var a := LastWrite(actions, key).value;
      var hit := ReadAt(Run(actions), key, t1, t2, t3).value;
      && hit.data == a.value.data
      && NoLater(hit.stale, a.value.stale)
      && (a.value.stale.Some? ==> a.value.stale.value - hit.stale.value < NANOS_PER_MILLI)
      && (Ttl(a.value, a.tc).Some? && PTtl(Run(actions), key, t2) > 0 ==>
            hit.expire == Some(a.value.expire.value + Drift(a, t2, t3) - Remainder(a.value, a.tc)))
  {
    LiveKeysHoldTheLastWrite(actions, key, t1);
    HashReadsBack(Run(actions), key, LastWrite(actions, key).value, t1, t2, t3);
  }

  /**
   * With less than one whole second left no deadline is sent: on a key without one the value is
   * read back, at any later time and in particular once it has expired, as one that never expires.
   */
  lemma {:induction false} SubSecondExpiryIsLost(actions: seq<Action>, a: Action, t1: int, t2: int, t3: int)
    requires a.Write? && a.tc <= a.th <= a.te <= t1 <= t2 <= t3
    requires a.value.expire.Some? && Ttl(a.value, a.tc).None?
    requires Live(Run(actions), a.key, a.th) ==> Run(actions)[a.key].deadline.None?
    ensures
      var hit := ReadAt(Run(actions + [a]), a.key, t1, t2, t3);
      hit.Some? && hit.value.data == a.value.data && hit.value.expire.None?
    ensures
      forall at :: a.value.expire.value <= at ==>
        && StateAt(a.value, at) == Expired
        && StateAt(ReadAt(Run(actions + [a]), a.key, t1, t2, t3).value, at) != Expired
  {
    assert (actions + [a])[..|actions + [a]| - 1] == actions;
  }

  /**
   * With less than one whole second left over a live key that has a deadline, the older deadline stays:
   * the value is read back as living until then, or for ever once no time is reported left.
   */
  lemma {:induction false} SubSecondKeepsOlderDeadline(actions: seq<Action>, a: Action, deadline: int, t1: int,
          t2: int, t3: int)
    requires a.Write? && a.tc <= a.th <= a.te <= t1 <= t2 <= t3
    requires a.value.expire.Some? && Ttl(a.value, a.tc).None?
    requires Live(Run(actions), a.key, a.th) && Run(actions)[a.key].deadline == Some(deadline)
    ensures ReadAt(Run(actions + [a]), a.key, t1, t2, t3).Some? <==> Millis(t1) <= deadline
    ensures
      var hit := ReadAt(Run(actions + [a]), a.key, t1, t2, t3);
      hit.Some? ==>
        && hit.value.data == a.value.data
        && hit.value.expire ==
             if Millis(t2) < deadline then Some(t3 + (deadline - Millis(t2)) * NANOS_PER_MILLI) else None
  {
    assert (actions + [a])[..|actions + [a]| - 1] == actions;
  }

  /** An overwrite that carries neither instant keeps both of the value it replaces. */
  lemma OverwriteKeepsOldInstants(server: Server, a: Action)
    requires a.Write? && a.value.stale.None? && Ttl(a.value, a.tc).None? && Live(server, a.key, a.th)
    ensures Apply(server, a) == server[a.key := server[a.key].(d := a.value.data)]
  {
  }

  /** A key that is not there any more lends nothing to the value written over it. */
  lemma DeadKeysLendNothing(server: Server, a: Action)
    requires a.Write? && !Live(server, a.key, a.th)
    ensures
      var ttl := Ttl(a.value, a.tc);
      var deadline := if ttl.None? then None else Some(Millis(a.te) + ttl.value * 1000);
      Apply(server, a) == server[a.key := Hash(a.value.data, StaleMillis(a.value), deadline)]
  {
  }

  /** A write whose key runs out between its two commands is lost: the value is gone before it has a deadline. */
  lemma {:induction false} WriteLostAtOldDeadline(actions: seq<Action>, a: Action, deadline: int, t1: int, t2: int,
          t3: int)
    requires a.Write? && a.te <= t1 && Ttl(a.value, a.tc).Some?
    requires Live(Run(actions), a.key, a.th) && Run(actions)[a.key].deadline == Some(deadline)
    requires deadline < Millis(a.te)
    ensures ReadAt(Run(actions + [a]), a.key, t1, t2, t3).None?
  {
    var wrote := actions + [a];
    assert wrote[..|wrote| - 1] == actions;
    MillisAreBelow(a.te);
    MillisAreBelow(t1);
  }

  // ----- the backend as it runs -----------------------------------------------------------

  datatype Command =
    | HashSet(key: Key, data: Bytes, stale: Option<int>)
    | SetExpiry(key: Key, seconds: nat)

  class RedisBackend {
    var server: Server

    constructor ()
      ensures server == map[]
    {
      server := map[];
    }

    method Execute(command: Command, t: int)
      modifies this
      ensures server == match command
                        case HashSet(key, data, stale) => HSet(old(server), key, data, stale, t)
                        case SetExpiry(key, seconds) => Expire(old(server), key, seconds, t)
    {
      var key := command.key;
      match command {
        case HashSet(_, data, stale) =>
          var s, deadline := stale, None;
          if Live(server, key, t) {
            deadline := server[key].deadline;
            if s.None? {
              s := server[key].s;
            }
          }
          server := server[key := Hash(data, s, deadline)];
        case SetExpiry(_, seconds) =>
          if Live(server, key, t) {
            server := server[key := server[key].(deadline := Some(Millis(t) + seconds * 1000))];
          }
      }
    }

    method Write(key: Key, value: Stored, tc: int, th: int, te: int)
      modifies this
      ensures server == WriteAt(old(server), key, value, tc, th, te)
    {
      var cmd := HashSet(key, value.data, None);
      if value.stale.Some? {
        cmd := cmd.(stale := Some(Millis(value.stale.value)));
      }
      var pipe := [cmd];
      var ttl := Ttl(value, tc);
      if ttl.Some? {
        pipe := pipe + [SetExpiry(key, ttl.value)];
      }
      Execute(pipe[0], th);
      if |pipe| > 1 {
        Execute(pipe[1], te);
      }
    }

    method Read(key: Key, t1: int, t2: int, t3: int) returns (hit: Option<Stored>)
      ensures hit == ReadAt(server, key, t1, t2, t3)
    {
      var (data, staleMs) := HMGet(server, key, t1);
      var pttl := PTtl(server, key, t2);
      if data.None? {
        return None;
      }
      var stale, expire := None, None;
      if staleMs.Some? {
        stale := Some(staleMs.value * NANOS_PER_MILLI);
      }
      if pttl > 0 {
        expire := Some(t3 + pttl * NANOS_PER_MILLI);
      }
      hit := Some(CacheValue(data.value, expire, stale));
    }

    method Remove(key: Key, t: int) returns (status: DeleteStatus)
      modifies this
      ensures server == old(server) - {key}
      ensures status == if Live(old(server), key, t) then Deleted(1) else Missing
    {
      var (left, deleted) := Del(server, key, t);
      server := left;
      status := if deleted > 0 then Deleted(deleted) else Missing;
    }
  }
}
