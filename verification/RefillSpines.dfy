/**
 * A refill all the way down: the recursion of a set in refill mode through layer two, what makes it
 * succeed, and what every composition it passed answers afterwards.
 */
module RefillSpines {
  import opened Wrappers
  import opened Values
  import opened Contexts
  import opened Policies
  import opened Backends
  import opened Reads
  import opened Writes
  import opened Sets
  import opened RoundTrips
  import opened Refills
  import G = Gets
  import F = Formats
  import E = Envelope

  // ----- a refill that meets no obstacle --------------------------------------------------

  /** Each layer one down the spine can be encoded, and every race in it is over when its write returns. */
  predicate SpineReady(b: Backend, v: Value) {
    b.Composition? && b.refill == Always ==>
      OwnPayload(b.l1, v).Some? && WritesEverywhere(b.l1) && SpineReady(b.l2, v)
  }

  lemma FirstLayerReached(b: Backend, key: Key, v: CacheValue<Value>, ctx: Context, st: Stores, down: set<LeafId>)
    requires Built(b) && b.Composition? && Separate(b) && RefillFits(b, v.data, ctx) && !F.RefillWrapper(ctx)
    requires OwnPayload(b.l1, v.data).Some? && WritesEverywhere(b.l1) && down !! b.l1.Leaves()
    ensures F.SerializeLayer1(b.format, v.data, ctx) == OwnPayload(b.l1, v.data)
    ensures
      var value := CacheValue(OwnPayload(b.l1, v.data).value, v.expire, v.stale);
      var first := RawWrite(b.l1, key, value, st, down);
      && first.0.Ok? && AllLanded(TargetsOf(b.l1, key, v.data, v.expire, v.stale), first.1)
      && Landed(TargetsOf(b.l1, key, v.data, v.expire, v.stale), st, first.1)
  {
    CoherentSerialization(b.l1, v.data, ctx);
    RawWriteDelivers(b.l1, key, v.data, CacheValue(OwnPayload(b.l1, v.data).value, v.expire, v.stale), st, down);
  }

  lemma AllLandedTogether(t1: Targets, t2: Targets, st: Stores, st': Stores)
    requires t1.Keys !! t2.Keys && AllLanded(t1, st) && Landed(t2, st, st') && AllLanded(t2, st')
    ensures AllLanded(t1 + t2, st')
  {
    forall s | s in t1 + t2
      ensures Holds(t1 + t2, st', s)
    {
      assert Same(st, st', s) || (s in t2 && Holds(t2, st', s));
      assert if s in t2 then Holds(t2, st', s) else Holds(t1, st, s);
    }
  }

  /**
   * From a context that is no wrapper, with nothing failing and every race over, a set in refill mode
   * succeeds and every refill target of the whole spine holds its leaf's own encoding.
   */
  lemma {:induction false} RefillReachesSpine(b: Backend, key: Key, v: CacheValue<Value>, ctx: Context, st: Stores,
          down: set<LeafId>)
    requires Built(b) && Separate(b) && ctx.ReadMode() == Refill && ctx.Plain?
    requires RefillFits(b, v.data, ctx) && SpineReady(b, v.data) && down !! b.Leaves()
    ensures
      var out := TypedSet(b, key, v, ctx, st, down);
      out.0.Ok? && AllLanded(RefillTargets(b, key, v), out.1)
  {
    if b.Composition? && b.refill == Always {
      FirstLayerReached(b, key, v, ctx, st, down);
      var value := CacheValue(OwnPayload(b.l1, v.data).value, v.expire, v.stale);
      var first := RawWrite(b.l1, key, value, st, down);
      RefillReachesSpine(b.l2, key, v, ctx, first.1, down);
      RefillLands(b.l2, key, v, ctx, first.1, down);
      TargetsAreTheLeaves(b.l1, key, v.data, v.expire, v.stale);
      RefillTargetsAreInside(b.l2, key, v);
      AllLandedTogether(TargetsOf(b.l1, key, v.data, v.expire, v.stale), RefillTargets(b.l2, key, v), first.1,
                        TypedSet(b.l2, key, v, ctx, first.1, down).1);
    }
  }

  // ----- what the compositions on the spine answer ----------------------------------------

  /** `n` is reached from `b` through layer two of compositions that refill. */
  ghost predicate OnSpine(b: Backend, n: Backend) {
    n == b || (b.Composition? && b.refill == Always && OnSpine(b.l2, n))
  }

  lemma {:induction false} SpineIsInside(b: Backend, n: Backend)
    requires OnSpine(b, n)
    ensures n.Leaves() <= b.Leaves()
  {
    if n != b {
      SpineIsInside(b.l2, n);
    }
  }

  lemma OutsideIsUntouched(b: Backend, n: Backend, key: Key, st: Stores, st': Stores)
    requires b.Leaves() !! n.Leaves() && OnlyIn(b, key, st, st')
    ensures forall id :: id in n.Leaves() ==> Same(st, st', Slot(id, key))
  {
  }

  lemma {:induction false} FitsDependsOnSlots(b: Backend, key: Key, st: Stores, st': Stores, room: int)
    requires StoredFits(b, key, st, room) && forall id :: id in b.Leaves() ==> Same(st, st', Slot(id, key))
    ensures StoredFits(b, key, st', room)
  {
    match b {
      case Simple(id, _, _, _) => assert id in b.Leaves() && Same(st, st', Slot(id, key));
      case Composition(l1, l2, _, _, _, _, _, _, _) =>
        FitsDependsOnSlots(l1, key, st, st', room - E.HEADER_SIZE);
        FitsDependsOnSlots(l2, key, st, st', room - E.HEADER_SIZE);
    }
  }

  /** What a typed get of one composition answers from its own layer one. */
  ghost predicate AnswersFirst(n: Backend, key: Key, v: Value, st: Stores)
    requires Built(n)
  {
    var got := TypedGet(n, key, DEFAULT_CONTEXT, st, {});
    && Found(got.reply) && got.reply.value.value.data == v
    && got.ctx.ReadMode() == Direct && got.ctx.Status() == Hit
  }

  /** The composition on the spine before the refill: sequential, refilling, empty in layer one. */
  ghost predicate AwaitsRefill(n: Backend, key: Key, st: Stores) {
    && n.Composition? && n.read == Sequential && n.refill == Always
    && Absent(n.l1, key, st) && G.Readable(n.l1, key, st)
  }

  lemma AwaitsAfterFirst(b: Backend, n: Backend, key: Key, st: Stores, st': Stores)
    requires b.Composition? && Separate(b) && OnSpine(b.l2, n) && n.Composition?
    requires OnlyIn(b.l1, key, st, st') && AwaitsRefill(n, key, st)
    ensures AwaitsRefill(n, key, st')
  {
    SpineIsInside(b.l2, n);
    OutsideIsUntouched(b.l1, n.l1, key, st, st');
    forall id | id in n.l1.Leaves()
      ensures Slot(id, key) !in st'
    {
      assert Same(st, st', Slot(id, key));
    }
    if n.l1.Composition? {
      FitsDependsOnSlots(n.l1, key, st, st', ROOT_ROOM);
    }
  }

  /**
   * After a refill that succeeded, every composition on the spine that waited for it answers the value
   * from its own layer one, at any depth: a get on layer two alone no longer goes further down.
   */
  lemma {:induction false} RefilledSpineAnswers(b: Backend, n: Backend, key: Key, v: CacheValue<Value>, ctx: Context,
          st: Stores)
    requires Built(b) && Separate(b) && LawfulLeaves(b) && OnSpine(b, n) && AwaitsRefill(n, key, st)
    requires ctx.ReadMode() == Refill && ctx.Plain? && RefillFits(b, v.data, ctx)
    requires TypedSet(b, key, v, ctx, st, {}).0.Ok?
    ensures Built(n) && AnswersFirst(n, key, v.data, TypedSet(b, key, v, ctx, st, {}).1)
  {
    if n == b {
      RefillLands(b, key, v, ctx, st, {});
      RefilledLayerIsReadable(b, key, v, ctx, st);
      RefilledLayerIsRead(b, key, v, st, TypedSet(b, key, v, ctx, st, {}).1);
    } else {
      var value := CacheValue(F.SerializeLayer1(b.format, v.data, ctx).value, v.expire, v.stale);
      var first := RawWrite(b.l1, key, value, st, {});
      RawWriteStaysInside(b.l1, key, value, st, {});
      AwaitsAfterFirst(b, n, key, st, first.1);
      RefilledSpineAnswers(b.l2, n, key, v, ctx, first.1);
    }
  }
}
