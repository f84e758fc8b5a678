/**
 * Cached values: data with an optional expiry and staleness instant, and the clock
 * arithmetic on them.  Instants are counted in nanoseconds since the Unix epoch.
 */
module Values {
  import opened Wrappers

  newtype byte = x: int | 0 <= x < 256

  type Bytes = seq<byte>

  /** What entries are filed under; its text is the business of the key modules. */
  type Key(==, !new)

  datatype DeleteStatus = Deleted(count: nat) | Missing

  const NANOS_PER_SECOND := 1_000_000_000
  const NANOS_PER_MILLI := 1_000_000

  datatype CacheValue<+T> = CacheValue(data: T, expire: Option<int>, stale: Option<int>)

  /** What `cache_state` says of a value; a larger rank is fresher. */
  datatype CacheState = Expired | Stale | Actual {
    function Rank(): nat {
      match this
      case Expired => 0
      case Stale => 1
      case Actual => 2
    }
  }

  /** The truncation toward zero of `num_seconds` and `num_milliseconds`. */
  function Truncate(n: int, unit: int): (q: int)
    requires unit > 0
    ensures n >= 0 ==> q * unit <= n < (q + 1) * unit
    ensures n < 0 ==> (q - 1) * unit < n <= q * unit
  {
    if n >= 0 then n / unit else -((-n) / unit)
  }

  /** Remaining whole seconds, or nothing when fewer than one whole second is left. */
  function Ttl<T>(v: CacheValue<T>, now: int): (ttl: Option<nat>)
    ensures ttl.Some? <==> v.expire.Some? && v.expire.value - now >= NANOS_PER_SECOND
    ensures ttl.Some? ==> 1 <= ttl.value
    ensures ttl.Some? ==> now + ttl.value * NANOS_PER_SECOND <= v.expire.value
    ensures ttl.Some? ==> v.expire.value < now + (ttl.value + 1) * NANOS_PER_SECOND
  {
    match v.expire
    case None => None
    case Some(expire) =>
      var seconds := Truncate(expire - now, NANOS_PER_SECOND);
      if seconds > 0 then Some(seconds) else None
  }

  function StateAt<T>(v: CacheValue<T>, now: int): CacheState {
    if v.expire.Some? && v.expire.value <= now then Expired
    else if v.stale.Some? && v.stale.value <= now then Stale
    else Actual
  }

  predicate Reached(instant: Option<int>, now: int) {
    instant.Some? && instant.value <= now
  }

  /** Expired once the expiry is reached, actual before either instant is, and stale in between. */
  lemma StateFollowsInstants<T>(v: CacheValue<T>, now: int)
    ensures StateAt(v, now) == Expired <==> Reached(v.expire, now)
    ensures StateAt(v, now) == Stale <==> Reached(v.stale, now) && !Reached(v.expire, now)
    ensures StateAt(v, now) == Actual <==> !Reached(v.stale, now) && !Reached(v.expire, now)
  {
  }

  /** A value only ever ages. */
  lemma StatesOnlyAge<T>(v: CacheValue<T>, now: int, later: int)
    requires now <= later
    ensures StateAt(v, later).Rank() <= StateAt(v, now).Rank()
  {
  }

  /** `earlier` is no later than `later`, where no instant at all means never. */
  predicate NoLater(earlier: Option<int>, later: Option<int>) {
    later.Some? ==> earlier.Some? && earlier.value <= later.value
  }

  /** Moving both instants earlier can only lose freshness, at every clock reading. */
  lemma EarlierInstantsAreNoFresher<T, U>(v: CacheValue<T>, w: CacheValue<U>, now: int)
    requires NoLater(v.expire, w.expire) && NoLater(v.stale, w.stale)
    ensures StateAt(v, now).Rank() <= StateAt(w, now).Rank()
  {
  }
}
