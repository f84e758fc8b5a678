/**
 * Refilling upper layers after a lower one answered.  A refill writes copies of a value that
 * lookups already find; here is what it may write and why no sequential lookup notices.
 */
module Refills {
  import opened Wrappers
  import opened Values
  import opened Contexts
  import opened Policies
  import opened Backends
  import opened Reads
  import opened Writes
  import opened Sets
  import opened RoundTrips
  import G = Gets
  import F = Formats

  // ----- sequential lookup ----------------------------------------------------------------

  /** The first entry in layer order: nothing, or its decoding at its leaf (which may fail). */
  function FirstHit(b: Backend, key: Key, st: Stores): Option<Option<Value>> {
    match b
    case Simple(id, _, _, _) =>
      if Slot(id, key) in st then Some(G.LeafDecoding(b, st[Slot(id, key)].data)) else None
    case Composition(l1, l2, _, _, _, _, _, _, _) =>
      if FirstHit(l1, key, st).Some? then FirstHit(l1, key, st) else FirstHit(l2, key, st)
  }

  predicate AllSequential(b: Backend) {
    b.Composition? ==> b.read == Sequential && AllSequential(b.l1) && AllSequential(b.l2)
  }

  lemma {:induction false} SequentialResolvesFirstHit(b: Backend, key: Key, st: Stores)
    requires AllSequential(b)
    ensures var r := Resolve(b, key, st, {});
            && r.Ok? && (Found(r) <==> FirstHit(b, key, st).Some?)
            && (Found(r) ==>
                  && IsPath(b, r.value.value.data.path)
                  && FirstHit(b, key, st) == Some(G.LeafDecoding(LeafAt(b, r.value.value.data.path),
                    r.value.value.data.data)))
  {
    if b.Composition? {
      SequentialResolvesFirstHit(b.l1, key, st);
      SequentialResolvesFirstHit(b.l2, key, st);
      var a1, a2 := Resolve(b.l1, key, st, {}), Resolve(b.l2, key, st, {});
      if Found(a1) { assert ([Layer1] + a1.value.value.data.path)[1..] == a1.value.value.data.path; }
      if Found(a2) { assert ([Layer2] + a2.value.value.data.path)[1..] == a2.value.value.data.path; }
    }
  }

  /** With every policy sequential and nothing failing, a get is the first-hit lookup. */
  lemma SequentialGetIsFirstHit(b: Backend, key: Key, ctx: Context, st: Stores)
    requires Built(b) && AllSequential(b) && StoredFits(b, key, st, ROOT_ROOM)
    ensures var reply := GenericGet(b, key, ctx, st, {}).reply;
            match FirstHit(b, key, st)
            case None => reply == Ok(None)
            case Some(None) => reply == Err(FormatFailed)
            case Some(Some(v)) => Found(reply) && reply.value.value.data == v
  {
    SequentialResolvesFirstHit(b, key, st);
    G.GenericGetAnswers(b, key, ctx, st, {});
  }

  // ----- what a refill may write ----------------------------------------------------------

  /** Layer one at every composition down the right spine, as far as the policy is Always. */
  function RefillTargets(b: Backend, key: Key, v: CacheValue<Value>): Targets {
    if b.Simple? || b.refill == Never then map[]
    else TargetsOf(b.l1, key, v.data, v.expire, v.stale) + RefillTargets(b.l2, key, v)
  }

  function LastLeaf(b: Backend): LeafId {
    if b.Simple? then b.id else LastLeaf(b.l2)
  }

  lemma {:induction false} RefillTargetsAreInside(b: Backend, key: Key, v: CacheValue<Value>)
    requires Separate(b)
    ensures forall s :: s in RefillTargets(b, key, v) ==> s.key == key && s.leaf in b.Leaves() && s.leaf != LastLeaf(b)
    ensures LastLeaf(b) in b.Leaves()
  {
    if b.Composition? {
      TargetsAreTheLeaves(b.l1, key, v.data, v.expire, v.stale);
      RefillTargetsAreInside(b.l2, key, v);
    }
  }

  /** What a wrapper from a lower layer makes the format send: the value for the first leaf only. */
  function FirstLeafSerial(b: Backend, v: Value): Option<Bytes> {
    match b
    case Simple(_, _, codec, _) => codec.encode(v)
    case Composition(l1, _, _, _, _, _, _, _, _) =>
      var inner :- FirstLeafSerial(l1, v);
      var first :- l1.ValueCompressor().Compress(inner);
      Some(F.PackFirst(first))
  }

  lemma {:induction false} WrapperSerialization(b: Backend, v: Value, ctx: Context)
    requires Built(b) && F.RefillWrapper(ctx)
    ensures F.Serialize(b.ValueFormat(), v, ctx) == FirstLeafSerial(b, v)
  {
    if b.Composition? {
      WrapperSerialization(b.l1, v, ctx);
      assert F.Serialize(b.format, v, ctx).Some? <==> F.SerializeLayer1(b.format, v, ctx).Some?;
    }
  }

  /** A write that lands in some targets of a tree, and in at least one when it reports success. */
  ghost predicate LandsInside(t: Targets, st: Stores, out: WriteOutcome) {
    Landed(t, st, out.1) && (out.0.Ok? ==> SomeLanded(t, out.1))
  }

  lemma {:induction false} FirstLeafWriteLands(b: Backend, key: Key, v: Value, ctx: Context, value: RawValue,
          st: Stores, down: set<LeafId>)
    requires Built(b) && Separate(b) && F.RefillWrapper(ctx) && F.Packable(b.ValueFormat(), v, ctx)
    requires FirstLeafSerial(b, v).Some? &&
      b.ValueCompressor().Compress(FirstLeafSerial(b, v).value) == Some(value.data)
    ensures LandsInside(TargetsOf(b, key, v, value.expire, value.stale), st, RawWrite(b, key, value, st, down))
  {
    match b {
      case Simple(id, _, _, _) =>
        var t := TargetsOf(b, key, v, value.expire, value.stale);
        var out := RawWrite(b, key, value, st, down);
        assert OwnPayload(b, v) == Some(value.data);
        if out.0.Ok? { assert Holds(t, out.1, Slot(id, key)); }
      case Composition(l1, l2, _, _, _, _, _, _, _) =>
        var first := l1.ValueCompressor().Compress(FirstLeafSerial(l1, v).value).value;
        WrapperSerialization(l1, v, ctx);
        assert F.SerializeLayer1(b.format, v, ctx) == Some(first);
        F.UnpackFirst(first);
        FirstLeafWriteLands(l1, key, v, ctx, F.Bare(first), st, down);
        TargetsAreTheLeaves(l1, key, v, None, None);
        TargetsAreTheLeaves(l2, key, v, None, None);
        LandedAlone(TargetsOf(l1, key, v, None, None), TargetsOf(l2, key, v, None, None), st,
                    RawWrite(b, key, value, st, down).1);
    }
  }

  /** The refill write of layer one, under either kind of refill context. */
  lemma Layer1RefillLands(b: Backend, key: Key, v: CacheValue<Value>, ctx: Context, st: Stores, down: set<LeafId>)
    requires Built(b) && b.Composition? && Separate(b) && CoherentOn(b.l1, v.data) && PayloadsFit(b.l1, v.data)
    requires F.Packable(b.l1.ValueFormat(), v.data, ctx)
    requires F.SerializeLayer1(b.format, v.data, ctx).Some?
    ensures var value := CacheValue(F.SerializeLayer1(b.format, v.data, ctx).value, v.expire, v.stale);
            LandsInside(TargetsOf(b.l1, key, v.data, v.expire, v.stale), st, RawWrite(b.l1, key, value, st, down))
  {
    var value := CacheValue(F.SerializeLayer1(b.format, v.data, ctx).value, v.expire, v.stale);
    if F.RefillWrapper(ctx) {
      WrapperSerialization(b.l1, v.data, ctx);
      FirstLeafWriteLands(b.l1, key, v.data, ctx, value, st, down);
    } else {
      CoherentSerialization(b.l1, v.data, ctx);
      RawWriteDelivers(b.l1, key, v.data, value, st, down);
    }
  }

  /** The layer-one trees a refill serializes for, all down the spine. */
  predicate RefillFits(b: Backend, v: Value, ctx: Context)
    requires Built(b)
  {
    b.Composition? ==>
      && CoherentOn(b.l1, v) && PayloadsFit(b.l1, v) && F.Packable(b.l1.ValueFormat(), v, ctx)
      && RefillFits(b.l2, v, ctx)
  }

  /** Layer one of every composition down the right spine, as far as the policy is Always, got the value. */
  predicate SpineLanded(b: Backend, key: Key, v: CacheValue<Value>, st: Stores) {
    b.Composition? && b.refill == Always ==>
      SomeLanded(TargetsOf(b.l1, key, v.data, v.expire, v.stale), st) && SpineLanded(b.l2, key, v, st)
  }

  lemma {:induction false} RefillSpreads(b: Backend, key: Key, v: CacheValue<Value>, ctx: Context, st: Stores,
          down: set<LeafId>)
    requires Built(b) && Separate(b) && ctx.ReadMode() == Refill && RefillFits(b, v.data, ctx)
    ensures
      var out := TypedSet(b, key, v, ctx, st, down);
      && Landed(RefillTargets(b, key, v), st, out.1)
      && (out.0.Ok? ==> SpineLanded(b, key, v, out.1))
  {
    if b.Composition? && b.refill == Always && F.SerializeLayer1(b.format, v.data, ctx).Some? {
      var value := CacheValue(F.SerializeLayer1(b.format, v.data, ctx).value, v.expire, v.stale);
      var t1, t2 := TargetsOf(b.l1, key, v.data, v.expire, v.stale), RefillTargets(b.l2, key, v);
      var first := RawWrite(b.l1, key, value, st, down);
      Layer1RefillLands(b, key, v, ctx, st, down);
      TargetsAreTheLeaves(b.l1, key, v.data, v.expire, v.stale);
      RefillTargetsAreInside(b.l2, key, v);
      LandedAlone(t1, t2, st, first.1);
      if first.0.Ok? {
        var second := TypedSet(b.l2, key, v, ctx, first.1, down);
        RefillSpreads(b.l2, key, v, ctx, first.1, down);
        LandedInTurn(t1, t2, st, first.1, second.1);
        LandedStays(t1, t2, first.1, second.1);
      }
    }
  }

  lemma LandedStays(t1: Targets, t2: Targets, st: Stores, st': Stores)
    requires t1.Keys !! t2.Keys && Landed(t2, st, st') && SomeLanded(t1, st)
    ensures SomeLanded(t1, st')
  {
    var s :| s in t1 && Holds(t1, st, s);
    assert Same(st, st', s) && Holds(t1, st', s);
  }

  /**
   * A set in refill mode writes at most each layer one down the spine with that tree's own encodings, and
   * when it succeeds has reached every one of them; it stops where the policy is Never and never reaches
   * the last leaf.
   */
  lemma RefillLands(b: Backend, key: Key, v: CacheValue<Value>, ctx: Context, st: Stores, down: set<LeafId>)
    requires Built(b) && Separate(b) && ctx.ReadMode() == Refill && RefillFits(b, v.data, ctx)
    ensures
      var out := TypedSet(b, key, v, ctx, st, down);
      && Landed(RefillTargets(b, key, v), st, out.1)
      && (out.0.Ok? ==> SpineLanded(b, key, v, out.1))
      && forall k :: Same(st, out.1, Slot(LastLeaf(b), k))
  {
    RefillSpreads(b, key, v, ctx, st, down);
    RefillTargetsAreInside(b, key, v);
  }

  // ----- why lookups do not notice --------------------------------------------------------

  /** Every target in the tree is its leaf's own encoding of `v`. */
  ghost predicate OwnTargets(b: Backend, key: Key, v: Value, t: Targets) {
    match b
    case Simple(id, _, _, _) => Slot(id, key) in t ==> Some(t[Slot(id, key)].data) == OwnPayload(b, v)
    case Composition(l1, l2, _, _, _, _, _, _, _) => OwnTargets(l1, key, v, t) && OwnTargets(l2, key, v, t)
  }

  lemma {:induction false} OwnTargetsDependOnSlots(b: Backend, key: Key, v: Value, t: Targets, u: Targets)
    requires OwnTargets(b, key, v, t)
    requires forall id :: id in b.Leaves() && Slot(id, key) in u ==>
      Slot(id, key) in t && u[Slot(id, key)] == t[Slot(id, key)]
    ensures OwnTargets(b, key, v, u)
  {
    if b.Composition? {
      OwnTargetsDependOnSlots(b.l1, key, v, t, u);
      OwnTargetsDependOnSlots(b.l2, key, v, t, u);
    } else {
      assert b.id in b.Leaves();
    }
  }

  lemma {:induction false} TargetsAreOwn(b: Backend, key: Key, v: Value, expire: Option<int>, stale: Option<int>)
    requires Separate(b)
    ensures OwnTargets(b, key, v, TargetsOf(b, key, v, expire, stale))
  {
    if b.Composition? {
      TargetsAreOwn(b.l1, key, v, None, None);
      TargetsAreOwn(b.l2, key, v, None, None);
      TargetsAreTheLeaves(b.l1, key, v, None, None);
      TargetsAreTheLeaves(b.l2, key, v, None, None);
      var t := TargetsOf(b, key, v, expire, stale);
      assert t == LayerTargets(b, key, v, None, None);
      OwnTargetsDependOnSlots(b.l1, key, v, TargetsOf(b.l1, key, v, None, None), t);
      OwnTargetsDependOnSlots(b.l2, key, v, TargetsOf(b.l2, key, v, None, None), t);
    }
  }

  lemma {:induction false} RefillTargetsAreOwn(b: Backend, key: Key, v: CacheValue<Value>)
    requires Separate(b)
    ensures OwnTargets(b, key, v.data, RefillTargets(b, key, v))
  {
    var t := RefillTargets(b, key, v);
    if b.Composition? {
      TargetsAreOwn(b.l1, key, v.data, v.expire, v.stale);
      RefillTargetsAreOwn(b.l2, key, v);
      TargetsAreTheLeaves(b.l1, key, v.data, v.expire, v.stale);
      RefillTargetsAreInside(b.l2, key, v);
      OwnTargetsDependOnSlots(b.l1, key, v.data, TargetsOf(b.l1, key, v.data, v.expire, v.stale), t);
      OwnTargetsDependOnSlots(b.l2, key, v.data, RefillTargets(b.l2, key, v), t);
    }
  }

  /** Landing copies of `v` leaves a lookup as it was or makes it find `v`. */
  lemma {:induction false} LandedLookup(b: Backend, key: Key, v: Value, t: Targets, st: Stores, st': Stores)
    requires LawfulLeaves(b) && OwnTargets(b, key, v, t) && Landed(t, st, st')
    ensures FirstHit(b, key, st') == FirstHit(b, key, st) || FirstHit(b, key, st') == Some(Some(v))
  {
    match b {
      case Simple(id, _, _, _) =>
        assert Same(st, st', Slot(id, key)) || (Slot(id, key) in t && Holds(t, st', Slot(id, key)));
        if OwnPayload(b, v).Some? { OwnPayloadDecodes(b, v); }
      case Composition(l1, l2, _, _, _, _, _, _, _) =>
        LandedLookup(l1, key, v, t, st, st');
        LandedLookup(l2, key, v, t, st, st');
    }
  }

  lemma {:induction false} FirstHitIffHeld(b: Backend, key: Key, st: Stores)
    ensures FirstHit(b, key, st).Some? <==> exists id :: id in b.Leaves() && Slot(id, key) in st
  {
    if b.Composition? {
      FirstHitIffHeld(b.l1, key, st);
      FirstHitIffHeld(b.l2, key, st);
    } else {
      assert b.id in b.Leaves();
    }
  }

  lemma {:induction false} LookupDependsOnSlots(b: Backend, key: Key, st: Stores, st': Stores)
    requires forall id :: id in b.Leaves() ==> Same(st, st', Slot(id, key))
    ensures FirstHit(b, key, st) == FirstHit(b, key, st')
  {
    if b.Composition? {
      LookupDependsOnSlots(b.l1, key, st, st');
      LookupDependsOnSlots(b.l2, key, st, st');
    } else {
      assert b.id in b.Leaves() && Same(st, st', Slot(b.id, key));
    }
  }

  /**
   * Refill is invisible to sequential lookup: if lookups of `key` find `v`, then after a set of `v` in
   * refill mode, failed halfway or not, lookups of every key find what they did.  When it succeeds under
   * Always after a layer-one miss, layer one answers `v` by itself.
   */
  lemma RefillIsInvisible(b: Backend, key: Key, v: CacheValue<Value>, ctx: Context, st: Stores,
          down: set<LeafId>, other: Key)
    requires Built(b) && b.Composition? && Separate(b) && LawfulLeaves(b)
    requires ctx.ReadMode() == Refill && RefillFits(b, v.data, ctx)
    requires FirstHit(b, key, st) == Some(Some(v.data))
    ensures var out := TypedSet(b, key, v, ctx, st, down);
            && FirstHit(b, other, out.1) == FirstHit(b, other, st)
            && (b.refill == Always && out.0.Ok? && FirstHit(b.l1, key, st).None? ==>
                  FirstHit(b.l1, key, out.1) == Some(Some(v.data)))
  {
    var out := TypedSet(b, key, v, ctx, st, down);
    var t := RefillTargets(b, key, v);
    RefillLands(b, key, v, ctx, st, down);
    RefillTargetsAreInside(b, key, v);
    if other == key {
      RefillTargetsAreOwn(b, key, v);
      LandedLookup(b, key, v.data, t, st, out.1);
    } else {
      LookupDependsOnSlots(b, other, st, out.1);
    }
    if b.refill == Always && out.0.Ok? && FirstHit(b.l1, key, st).None? {
      RefillTargetsAreOwn(b, key, v);
      LandedLookup(b.l1, key, v.data, t, st, out.1);
      TargetsAreTheLeaves(b.l1, key, v.data, v.expire, v.stale);
      FirstHitIffHeld(b.l1, key, out.1);
      var t1 := TargetsOf(b.l1, key, v.data, v.expire, v.stale);
      var s :| s in t1 && Holds(t1, out.1, s);
      assert s == Slot(s.leaf, key);
    }
  }

  // ----- get, refill, get -----------------------------------------------------------------

  lemma {:induction false} OwnTargetAt(b: Backend, path: Path, key: Key, v: Value, t: Targets)
    requires OwnTargets(b, key, v, t) && IsPath(b, path)
    ensures OwnTargets(LeafAt(b, path), key, v, t)
  {
    if b.Composition? {
      OwnTargetAt(Child(b, path[0]), path[1..], key, v, t);
    }
  }

  /** A layer that was empty under `key` answers the landed value, under any policies inside it. */
  lemma EmptyLayerAnswers(b: Backend, key: Key, v: Value, t: Targets, st: Stores, st': Stores)
    requires LawfulLeaves(b) && OwnTargets(b, key, v, t) && Landed(t, st, st')
    requires forall id :: id in b.Leaves() ==> Slot(id, key) !in st
    requires G.Available(b, key, st', {})
    ensures var found := Resolve(b, key, st', {});
            Found(found) && IsPath(b, found.value.value.data.path) &&
            G.LeafDecoding(LeafAt(b, found.value.value.data.path), found.value.value.data.data) == Some(v)
  {
    G.ResolveAnswersFromALeaf(b, key, st', {});
    var path := Resolve(b, key, st', {}).value.value.data.path;
    LawfulAt(b, path);
    OwnTargetAt(b, path, key, v, t);
    var s := Slot(LeafAt(b, path).id, key);
    assert Same(st, st', s) || (s in t && Holds(t, st', s));
    OwnPayloadDecodes(LeafAt(b, path), v);
  }

  lemma AnswerBelowEmptyLayer(b: Backend, path: Path, key: Key, st: Stores, down: set<LeafId>, value: CacheValue<Value>)
    requires b.Composition? && G.DecodedAt(b, path, key, st, down, value)
    requires forall id :: id in b.l1.Leaves() ==> Slot(id, key) !in st
    ensures path[0] == Layer2
  {
    if path[0] == Layer1 {
      LeafIsInside(b.l1, path[1..]);
    }
  }

  /** What a successful refill of layer one leaves readable, however long the entries elsewhere. */
  lemma RefilledLayerIsReadable(b: Backend, key: Key, v: CacheValue<Value>, ctx: Context, st: Stores)
    requires Built(b) && b.Composition? && Separate(b) && b.refill == Always && RefillFits(b, v.data, ctx)
    requires ctx.ReadMode() == Refill && ctx.Plain? && G.Readable(b.l1, key, st)
    requires TypedSet(b, key, v, ctx, st, {}).0.Ok?
    ensures G.Readable(b.l1, key, TypedSet(b, key, v, ctx, st, {}).1)
  {
    if b.l1.Composition? {
      var st' := TypedSet(b, key, v, ctx, st, {}).1;
      RefillLands(b, key, v, ctx, st, {});
      RefillTargetsAreInside(b.l2, key, v);
      CoherentSerialization(b.l1, v.data, ctx);
      assert F.SerializeLayer1(b.format, v.data, ctx).Some?;
      RefillLandsInLayer1(b, key, v, st, st');
      LandedKeepsStoredFits(b.l1, key, v.data, v.expire, v.stale, st, st');
    }
  }

  lemma RefillLandsInLayer1(b: Backend, key: Key, v: CacheValue<Value>, st: Stores, st': Stores)
    requires b.Composition? && Separate(b) && Landed(RefillTargets(b, key, v), st, st')
    ensures LandedIn(b.l1, key, TargetsOf(b.l1, key, v.data, v.expire, v.stale), st, st')
  {
    RefillTargetsAreInside(b.l2, key, v);
    TargetsAreTheLeaves(b.l1, key, v.data, v.expire, v.stale);
    var t, t1 := RefillTargets(b, key, v), TargetsOf(b.l1, key, v.data, v.expire, v.stale);
    forall id | id in b.l1.Leaves()
      ensures Same(st, st', Slot(id, key)) || (Slot(id, key) in t1 && Holds(t1, st', Slot(id, key)))
    {
      assert Same(st, st', Slot(id, key)) || (Slot(id, key) in t && Holds(t, st', Slot(id, key)));
    }
  }

  /**
   * The whole refill cycle: a typed get answered below an empty layer one leaves a refill context; the
   * set that context asks for, once it succeeds, makes the next typed get answer the same value from
   * layer one, in direct mode.
   */
  lemma GetRefillGet(b: Backend, key: Key, st: Stores)
    requires Built(b) && b.Composition? && Separate(b) && LawfulLeaves(b) && b.read == Sequential && b.refill == Always
    requires forall id :: id in b.l1.Leaves() ==> Slot(id, key) !in st
    requires G.LayersReadable(b, key, st)
    requires
      var got := TypedGet(b, key, DEFAULT_CONTEXT, st, {});
      && Found(got.reply) && RefillFits(b, got.reply.value.value.data, got.ctx)
      && TypedSet(b, key, got.reply.value.value, got.ctx, st, {}).0.Ok?
    ensures
      var got := TypedGet(b, key, DEFAULT_CONTEXT, st, {});
      var again := TypedGet(b, key, DEFAULT_CONTEXT, TypedSet(b, key, got.reply.value.value, got.ctx, st, {}).1, {});
      && got.ctx.ReadMode() == Refill
      && Found(again.reply) && again.reply.value.value.data == got.reply.value.value.data
      && again.ctx.ReadMode() == Direct && again.ctx.Status() == Hit
  {
    var got := TypedGet(b, key, DEFAULT_CONTEXT, st, {});
    var v := got.reply.value.value;
    G.TypedGetAnswers(b, key, DEFAULT_CONTEXT, st, {});
    var path :| G.DecodedAt(b, path, key, st, {}, v) && G.Reports(b, path, DEFAULT_CONTEXT, got.ctx);
    AnswerBelowEmptyLayer(b, path, key, st, {}, v);
    var st' := TypedSet(b, key, v, got.ctx, st, {}).1;
    RefillLands(b, key, v, got.ctx, st, {});
    RefilledLayerIsReadable(b, key, v, got.ctx, st);
    RefilledLayerIsRead(b, key, v, st, st');
  }

  lemma RefilledLayerIsRead(b: Backend, key: Key, v: CacheValue<Value>, st: Stores, st': Stores)
    requires Built(b) && b.Composition? && Separate(b) && LawfulLeaves(b) && b.read == Sequential && b.refill == Always
    requires forall id :: id in b.l1.Leaves() ==> Slot(id, key) !in st
    requires G.Readable(b.l1, key, st') && Landed(RefillTargets(b, key, v), st, st')
    requires SomeLanded(TargetsOf(b.l1, key, v.data, v.expire, v.stale), st')
    ensures
      var again := TypedGet(b, key, DEFAULT_CONTEXT, st', {});
      && Found(again.reply) && again.reply.value.value.data == v.data
      && again.ctx.ReadMode() == Direct && again.ctx.Status() == Hit
  {
    TargetsAreTheLeaves(b.l1, key, v.data, v.expire, v.stale);
    var t1 := TargetsOf(b.l1, key, v.data, v.expire, v.stale);
    var s :| s in t1 && Holds(t1, st', s);
    assert s == Slot(s.leaf, key) && G.Available(b.l1, key, st', {});
    RefillTargetsAreOwn(b, key, v);
    EmptyLayerAnswers(b.l1, key, v.data, RefillTargets(b, key, v), st, st');
    G.TypedLayerAnswers(b, Layer1, key, DEFAULT_CONTEXT, st', {});
    FirstLayerIsGot(b, key, v.data, st');
  }

  /** A sequential typed get whose first layer hits answers from it, leaving the read mode alone. */
  lemma FirstLayerIsGot(b: Backend, key: Key, v: Value, st: Stores)
    requires b.Composition? && b.format.CompositionFormat? && b.read == Sequential
    requires
      var (r, after) := TypedLayer(b, Layer1, key, DEFAULT_CONTEXT, st, {});
      Found(r) && r.value.value.data == v && after.Status() == Hit
    ensures
      var got := TypedGet(b, key, DEFAULT_CONTEXT, st, {});
      && Found(got.reply) && got.reply.value.value.data == v
      && got.ctx.ReadMode() == Direct && got.ctx.Status() == Hit
  {
    var after := TypedLayer(b, Layer1, key, DEFAULT_CONTEXT, st, {}).1;
    assert TypedGet(b, key, DEFAULT_CONTEXT, st, {}).ctx == Merge(DEFAULT_CONTEXT, after, b.name);
    MergedIsHit(DEFAULT_CONTEXT, after, b.name);
  }

  lemma MergedIsHit(ctx: Context, other: Context, prefix: Label)
    requires other.Status() == Hit
    ensures Merge(ctx, other, prefix).ReadMode() == ctx.ReadMode() && Merge(ctx, other, prefix).Status() == Hit
  {
    SettersReachTheRecord(ctx, Hit, Upstream, Direct);
    var merged := ctx.WithStatus(Hit);
    match other.Source() {
      case FromBackend(name) =>
        SettersReachTheRecord(merged, Hit, FromBackend(Compose(prefix, name)), Direct);
      case Upstream =>
    }
  }
}
