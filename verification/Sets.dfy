/** The two ways to put a value into a tree: what each leaves behind, and when they agree. */
module Sets {
  import opened Wrappers
  import opened Values
  import opened Contexts
  import opened Policies
  import opened Backends
  import opened Writes
  import F = Formats
  import E = Envelope

  // ----- when reusing layer one's bytes is harmless --------------------------------------

  /**
   * Wherever two layers report the same format identifier, their leaves would serialize `v` to the
   * same bytes.
   */
  predicate CoherentOn(b: Backend, v: Value)
    requires Built(b)
  {
    b.Composition? ==>
      && CoherentOn(b.l1, v)
      && if b.format.SameFormat() then OwnSerial(b.l1, v) == OwnSerial(b.l2, v) else CoherentOn(b.l2, v)
  }

  /** Same shape, same codecs and, below a composition, the same compressors. */
  ghost predicate EncodeAlike(b: Backend, c: Backend) {
    match (b, c)
    case (Simple(_, _, f, _), Simple(_, _, g, _)) => forall v :: f.encode(v) == g.encode(v)
    case (Composition(b1, b2, _, _, _, _, _, _, _), Composition(c1, c2, _, _, _, _, _, _, _)) =>
      EncodeAlike(b1, c1) && EncodeAlike(b2, c2) && CompressAlike(b1, c1) && CompressAlike(b2, c2)
    case _ => false
  }

  ghost predicate CompressAlike(b: Backend, c: Backend) {
    forall d :: b.ValueCompressor().Compress(d) == c.ValueCompressor().Compress(d)
  }

  /** What a deployment can check once: layers with one identifier have one encoding. */
  ghost predicate Admissible(b: Backend)
    requires Built(b)
  {
    b.Composition? ==> Admissible(b.l1) && Admissible(b.l2) && (b.format.SameFormat() ==> EncodeAlike(b.l1, b.l2))
  }

  lemma {:induction false} AlikeSerializeAlike(b: Backend, c: Backend, v: Value)
    requires EncodeAlike(b, c)
    ensures OwnSerial(b, v) == OwnSerial(c, v)
  {
    if b.Composition? {
      AlikeSerializeAlike(b.l1, c.l1, v);
      AlikeSerializeAlike(b.l2, c.l2, v);
    }
  }

  lemma {:induction false} AdmissibleIsCoherent(b: Backend, v: Value)
    requires Built(b) && Admissible(b)
    ensures CoherentOn(b, v)
  {
    if b.Composition? {
      AdmissibleIsCoherent(b.l1, v);
      AdmissibleIsCoherent(b.l2, v);
      if b.format.SameFormat() {
        AlikeSerializeAlike(b.l1, b.l2, v);
      }
    }
  }

  /** On a coherent tree the composed format produces every leaf's own encoding. */
  lemma {:induction false} CoherentSerialization(b: Backend, v: Value, ctx: Context)
    requires Built(b) && CoherentOn(b, v) && !F.RefillWrapper(ctx)
    ensures F.Serialize(b.ValueFormat(), v, ctx) == OwnSerial(b, v)
    ensures b.Composition? ==>
              F.SerializeParts(b.format, v, ctx) ==
                if OwnPayload(b.l1, v).None? || OwnPayload(b.l2, v).None? then None
                else Some((OwnPayload(b.l1, v).value, OwnPayload(b.l2, v).value))
  {
    if b.Composition? {
      CoherentSerialization(b.l1, v, ctx);
      if !b.format.SameFormat() {
        CoherentSerialization(b.l2, v, ctx);
      }
    }
  }

  // ----- what a set leaves behind ---------------------------------------------------------

  /** The generic set reaches exactly the leaves' own slots with their own encodings. */
  lemma GenericSetDelivers(b: Backend, key: Key, v: CacheValue<Value>, ctx: Context, st: Stores, down: set<LeafId>)
    requires Built(b) && Separate(b) && CoherentOn(b, v.data) && PayloadsFit(b, v.data) && ctx.ReadMode() == Direct
    ensures var out := GenericSet(b, key, v, ctx, st, down);
            if OwnPayload(b, v.data).None? then out == (Err(FormatFailed), st)
            else Delivers(b, TargetsOf(b, key, v.data, v.expire, v.stale), st, down, out)
  {
    CoherentSerialization(b, v.data, ctx);
    if OwnPayload(b, v.data).Some? {
      RawWriteDelivers(b, key, v.data, CacheValue(OwnPayload(b, v.data).value, v.expire, v.stale), st, down);
    }
  }

  /** So does the typed set, which also hands its direct layers the value's instants. */
  lemma TypedSetDelivers(b: Backend, key: Key, v: CacheValue<Value>, ctx: Context, st: Stores, down: set<LeafId>)
    requires Built(b) && b.Composition? && Separate(b) && CoherentOn(b, v.data)
    requires PayloadsFit(b.l1, v.data) && PayloadsFit(b.l2, v.data)
    requires ctx.ReadMode() == Direct
    ensures var out := TypedSet(b, key, v, ctx, st, down);
            if OwnPayload(b, v.data).None? then out == (Err(FormatFailed), st)
            else Delivers(b, LayerTargets(b, key, v.data, v.expire, v.stale), st, down, out)
  {
    CoherentSerialization(b, v.data, ctx);
    if OwnPayload(b, v.data).Some? {
      var first, second := OwnPayload(b.l1, v.data).value, OwnPayload(b.l2, v.data).value;
      WriteLayersDelivers(b, key, v.data, CacheValue(first, v.expire, v.stale),
        CacheValue(second, v.expire, v.stale), st, down);
    }
  }

  // ----- typed against untyped, whatever the formats --------------------------------------

  /** Same keys, same data; instants may differ. */
  ghost predicate SameBytes(st: Stores, st': Stores) {
    st.Keys == st'.Keys && forall s :: s in st ==> st[s].data == st'[s].data
  }

  lemma {:induction false} RawWriteIgnoresInstants(b: Backend, key: Key, v: RawValue, w: RawValue, st: Stores,
          st': Stores, down: set<LeafId>)
    requires v.data == w.data && SameBytes(st, st')
    ensures var o, o' := RawWrite(b, key, v, st, down), RawWrite(b, key, w, st', down);
            o.0 == o'.0 && SameBytes(o.1, o'.1)
    decreases b, 1
  {
    if b.Composition? {
      match E.Deserialize(v.data)
      case Err(_) =>
      case Ok(L1(only)) => RawWriteIgnoresInstants(b.l1, key, only, only, st, st', down);
      case Ok(L2(only)) => RawWriteIgnoresInstants(b.l2, key, only, only, st, st', down);
      case Ok(Both(v1, v2)) => WriteLayersIgnoreInstants(b, key, v1, v2, v1, v2, st, st', down);
    }
  }

  lemma {:induction false} WriteLayersIgnoreInstants(b: Backend, key: Key, v1: RawValue, v2: RawValue,
          w1: RawValue, w2: RawValue,
                                    st: Stores, st': Stores, down: set<LeafId>)
    requires b.Composition? && v1.data == w1.data && v2.data == w2.data && SameBytes(st, st')
    ensures var o, o' := WriteLayers(b, key, v1, v2, st, down), WriteLayers(b, key, w1, w2, st', down);
            o.0 == o'.0 && SameBytes(o.1, o'.1)
    decreases b, 0
  {
    WriteLayersSettles(b, key, v1, v2, st, down);
    WriteLayersSettles(b, key, w1, w2, st', down);
    if Layer2First(b.write) {
      RawWriteIgnoresInstants(b.l2, key, v2, w2, st, st', down);
      var o, o' := RawWrite(b.l2, key, v2, st, down), RawWrite(b.l2, key, w2, st', down);
      RawWriteIgnoresInstants(b.l1, key, v1, w1, o.1, o'.1, down);
    } else {
      RawWriteIgnoresInstants(b.l1, key, v1, w1, st, st', down);
      var o, o' := RawWrite(b.l1, key, v1, st, down), RawWrite(b.l1, key, w1, st', down);
      RawWriteIgnoresInstants(b.l2, key, v2, w2, o.1, o'.1, down);
    }
  }

  /** For every tree, coherent or not: both sets return the same result and store the same bytes. */
  lemma TypedSetMatchesGeneric(b: Backend, key: Key, v: CacheValue<Value>, ctx: Context, st: Stores, down: set<LeafId>)
    requires Built(b) && F.Packable(b.ValueFormat(), v.data, ctx) && ctx.ReadMode() == Direct
    ensures var typed, generic := TypedSet(b, key, v, ctx, st, down), GenericSet(b, key, v, ctx, st, down);
            typed.0 == generic.0 && SameBytes(typed.1, generic.1)
  {
    if b.Composition? {
      var parts := F.SerializeParts(b.format, v.data, ctx);
      if parts.Some? {
        var (first, second) := parts.value;
        F.UnpackBoth(first, second);
        WriteLayersIgnoreInstants(b, key, CacheValue(first, v.expire, v.stale), CacheValue(second, v.expire, v.stale),
                                  F.Bare(first), F.Bare(second), st, st, down);
      }
    }
  }
}
