/**
 * Read, write and refill policies of a composition.  A race's outcome is part of the policy
 * value: a statement for every policy is one for every outcome of every race.
 */
module Policies {
  import opened Wrappers
  import opened Values
  import opened Contexts

  type LeafId = nat

  datatype BackendError =
    | LeafFailed(leaf: LeafId)
    | BadEnvelope
    | FormatFailed
    | BothLayersFailed(l1: BackendError, l2: BackendError)

  /** Parallel carries the two clock readings its TTL comparison makes. */
  datatype ReadPolicy = Sequential | Race(l1Completes: bool) | Parallel(now1: int, now2: int)

  datatype LoserPolicy = Offload | Drop

  /**
   * `loserCompletes` says whether the losing write has taken effect by the time the next operation
   * starts: a dropped one may have, and an offloaded one may still be pending.
   */
  datatype WritePolicy =
    | InOrder
    | Optimistic
    | RaceWrite(loser: LoserPolicy, l1Completes: bool, loserCompletes: bool)
  {
    predicate LoserRuns()
      requires RaceWrite?
    {
      loserCompletes
    }

    /** Both layers are written, when neither fails, before anything else happens. */
    predicate WritesBoth() {
      RaceWrite? ==> LoserRuns()
    }
  }

  datatype RefillPolicy = Always | Never

  type Reply<T> = Result<Option<CacheValue<T>>, BackendError>

  datatype ReadResult<T> = ReadResult(value: Option<CacheValue<T>>, source: CompositionLayer, context: Context)

  predicate Found<T>(r: Reply<T>) {
    r.Ok? && r.value.Some?
  }

  /** Prefers the longer remaining TTL, no expiry above all, layer one on a tie. */
  predicate PrefersLayer2(ttl1: Option<nat>, ttl2: Option<nat>) {
    ttl1.Some? && (ttl2.None? || ttl2.value > ttl1.value)
  }

  function NoHit<T>(): ReadResult<T> {
    ReadResult(None, Layer2, DEFAULT_CONTEXT)
  }

  /** What remains once neither layer hit: an error only if both failed. */
  function NeitherHit<T>(r1: Reply<T>, r2: Reply<T>): Result<ReadResult<T>, BackendError> {
    if r1.Err? && r2.Err? then Err(r2.error) else Ok(NoHit())
  }

  function Select<T>(p: ReadPolicy, r1: Reply<T>, ctx1: Context, r2: Reply<T>, ctx2: Context)
    : Result<ReadResult<T>, BackendError>
  {
    match p
    case Sequential =>
      if Found(r1) then Ok(ReadResult(r1.value, Layer1, ctx1))
      else if r2.Ok? then Ok(ReadResult(r2.value, Layer2, ctx2))
      else Err(r2.error)
    case Race(l1Completes) =>
      if l1Completes && Found(r1) then Ok(ReadResult(r1.value, Layer1, ctx1))
      else if Found(r2) then Ok(ReadResult(r2.value, Layer2, ctx2))
      else if Found(r1) then Ok(ReadResult(r1.value, Layer1, ctx1))
      else NeitherHit(r1, r2)
    case Parallel(now1, now2) =>
      if Found(r1) && Found(r2) then
        if PrefersLayer2(Ttl(r1.value.value, now1), Ttl(r2.value.value, now2))
        then Ok(ReadResult(r2.value, Layer2, ctx2))
        else Ok(ReadResult(r1.value, Layer1, ctx1))
      else if Found(r1) then Ok(ReadResult(r1.value, Layer1, ctx1))
      else if Found(r2) then Ok(ReadResult(r2.value, Layer2, ctx2))
      else NeitherHit(r1, r2)
  }

  /** Two replies no policy can tell apart: same outcome, same instants. */
  predicate Alike<T, U>(r: Reply<T>, s: Reply<U>) {
    match (r, s)
    case (Err(e), Err(d)) => e == d
    case (Ok(None), Ok(None)) => true
    case (Ok(Some(v)), Ok(Some(w))) => v.expire == w.expire && v.stale == w.stale
    case _ => false
  }

  /** The layer a result came from decides which reply and which context it is. */
  ghost predicate TakenFrom<T>(result: Result<ReadResult<T>, BackendError>, r1: Reply<T>, ctx1: Context,
          r2: Reply<T>, ctx2: Context) {
    match result
    case Err(e) => r2 == Err(e) && !Found(r1)
    case Ok(ReadResult(Some(v), Layer1, ctx)) => r1 == Ok(Some(v)) && ctx == ctx1
    case Ok(ReadResult(Some(v), Layer2, ctx)) => r2 == Ok(Some(v)) && ctx == ctx2
    case Ok(ReadResult(None, _, _)) => !Found(r1) && !Found(r2) && (r1.Ok? || r2.Ok?)
  }

  /** Every policy returns one of its two replies with that reply's own context and layer tag. */
  lemma SelectReturnsAReply<T>(p: ReadPolicy, r1: Reply<T>, ctx1: Context, r2: Reply<T>, ctx2: Context)
    ensures TakenFrom(Select(p, r1, ctx1, r2, ctx2), r1, ctx1, r2, ctx2)
  {
  }

  /** A policy sees only outcomes and instants: alike replies are selected alike. */
  lemma SelectIsUniform<T, U>(p: ReadPolicy, r1: Reply<T>, r2: Reply<T>, s1: Reply<U>, s2: Reply<U>,
                              c1: Context, c2: Context, d1: Context, d2: Context)
    requires Alike(r1, s1) && Alike(r2, s2)
    ensures var r, s := Select(p, r1, c1, r2, c2), Select(p, s1, d1, s2, d2);
            && (r.Err? <==> s.Err?)
            && (r.Err? ==> r.error == s.error)
            && (r.Ok? ==> r.value.source == s.value.source && (r.value.value.Some? <==> s.value.value.Some?))
  {
  }

  /** Like `s`, except that a hit may have turned into a failure. */
  predicate Degraded<T, U>(r: Reply<T>, s: Reply<U>) {
    Alike(r, s) || (Found(s) && r.Err?)
  }

  /** As long as the reply that would be selected is intact, failures of the other do not matter. */
  lemma SelectSurvivesFailures<T, U>(p: ReadPolicy, r1: Reply<T>, r2: Reply<T>, s1: Reply<U>, s2: Reply<U>,
                                     c1: Context, c2: Context, d1: Context, d2: Context)
    requires Degraded(r1, s1) && Degraded(r2, s2)
    ensures var r, s := Select(p, r1, c1, r2, c2), Select(p, s1, d1, s2, d2);
            && (s.Err? ==> r.Err? && r.error == s.error)
            && (s.Ok? && s.value.value.None? ==> r.Ok? && r.value.value.None?)
            && ((s.Ok? && s.value.value.Some? && Found(if s.value.source == Layer1 then r1 else r2))
                ==> (r.Ok? && r.value.value.Some? && r.value.source == s.value.source))
  {
  }

  // ----- which of two hits --------------------------------------------------------------

  /** A finite life of which less than a whole second is left (or none). */
  predicate InLastSecond<T>(v: CacheValue<T>, now: int) {
    v.expire.Some? && v.expire.value - now < NANOS_PER_SECOND
  }

  /** `v` at `now` has at least a whole second more to live than `w` at `at`; no expiry is for ever. */
  predicate OutlivesBySecond<T, U>(v: CacheValue<T>, now: int, w: CacheValue<U>, at: int) {
    w.expire.Some? && (v.expire.Some? ==> v.expire.value - now >= w.expire.value - at + NANOS_PER_SECOND)
  }

  /**
   * Two hits in parallel, outside their last second: layer two is chosen exactly when it has more whole
   * seconds left, or is the only one without an expiry; so layer one is on equal whole seconds.
   */
  lemma ParallelComparesWholeSeconds<T>(now1: int, now2: int, v1: CacheValue<T>, v2: CacheValue<T>, c1: Context,
          c2: Context)
    requires !InLastSecond(v1, now1) && !InLastSecond(v2, now2)
    ensures
      var chosen := Select(Parallel(now1, now2), Ok(Some(v1)), c1, Ok(Some(v2)), c2);
      && chosen.Ok?
      && (chosen.value.source == Layer2 <==>
            && v1.expire.Some?
            && (v2.expire.Some? ==>
                  (v2.expire.value - now2) / NANOS_PER_SECOND > (v1.expire.value - now1) / NANOS_PER_SECOND))
  {
    if v1.expire.Some? {
      WholeSecondsLeft(v1.expire.value - now1, Ttl(v1, now1).value);
    }
    if v2.expire.Some? {
      WholeSecondsLeft(v2.expire.value - now2, Ttl(v2, now2).value);
    }
  }

  lemma WholeSecondsLeft(left: int, seconds: nat)
    requires seconds * NANOS_PER_SECOND <= left < (seconds + 1) * NANOS_PER_SECOND
    ensures left / NANOS_PER_SECOND == seconds
  {
  }

  /** When the comparison is misled: a hit in its last second counts as one without an expiry. */
  predicate MisleadsParallel<T>(v1: CacheValue<T>, now1: int, v2: CacheValue<T>, now2: int) {
    || (InLastSecond(v1, now1) && OutlivesBySecond(v2, now2, v1, now1))
    || (InLastSecond(v2, now2) && v1.expire.Some? && !InLastSecond(v1, now1) && OutlivesBySecond(v1, now1, v2, now2))
  }

  /**
   * Of two hits in parallel the one left behind does not outlive the chosen one by a second or more, if
   * and only if no hit in its last second misleads the comparison.
   */
  lemma ParallelChoosesLongerLifeIff<T>(now1: int, now2: int, v1: CacheValue<T>, v2: CacheValue<T>, c1: Context,
          c2: Context)
    ensures
      var chosen := Select(Parallel(now1, now2), Ok(Some(v1)), c1, Ok(Some(v2)), c2);
      && chosen.Ok?
      && ((if chosen.value.source == Layer1 then !OutlivesBySecond(v2, now2, v1, now1)
           else !OutlivesBySecond(v1, now1, v2, now2))
          <==> !MisleadsParallel(v1, now1, v2, now2))
  {
  }

  /** Half a second left is taken for ever: layer two answers though layer one has ten seconds. */
  lemma LastSecondWins<T>(data1: T, data2: T, c1: Context, c2: Context)
    ensures
      var v1 := CacheValue(data1, Some(10 * NANOS_PER_SECOND), None);
      var v2 := CacheValue(data2, Some(500_000_000), None);
      && MisleadsParallel(v1, 0, v2, 0)
      && Select(Parallel(0, 0), Ok(Some(v1)), c1, Ok(Some(v2)), c2) == Ok(ReadResult(Some(v2), Layer2, c2))
  {
  }

  /** A hit of the reply that comes first is the answer; with one hit, that one is, under every policy. */
  lemma FirstFinisherWins<T>(p: ReadPolicy, r1: Reply<T>, c1: Context, r2: Reply<T>, c2: Context)
    requires Found(r1) || Found(r2)
    ensures Select(p, r1, c1, r2, c2).Ok? && Select(p, r1, c1, r2, c2).value.value.Some?
    ensures
      var source := Select(p, r1, c1, r2, c2).value.source;
      && (!Found(r2) ==> source == Layer1)
      && (!Found(r1) ==> source == Layer2)
      && (p == Sequential || p == Race(true) ==> (source == Layer1 <==> Found(r1)))
      && (p == Race(false) ==> (source == Layer2 <==> Found(r2)))
  {
  }

  /** Without a hit: sequentially layer two's reply decides, otherwise only two failures are a failure. */
  lemma WithoutAHit<T>(p: ReadPolicy, r1: Reply<T>, c1: Context, r2: Reply<T>, c2: Context)
    requires !Found(r1) && !Found(r2)
    ensures
      var chosen := Select(p, r1, c1, r2, c2);
      if r2.Err? && (p == Sequential || r1.Err?) then chosen == Err(r2.error)
      else chosen.Ok? && chosen.value.value.None? && chosen.value.source == Layer2
  {
  }
}
