/** Storing a value in a tree and reading it back, through any policies and failures. */
module RoundTrips {
  import opened Wrappers
  import opened Values
  import opened Contexts
  import opened Policies
  import opened Backends
  import opened Reads
  import opened Writes
  import opened Sets
  import G = Gets
  import F = Formats
  import E = Envelope

  /** Every leaf decodes and decompresses what it produced. */
  ghost predicate LawfulLeaves(b: Backend) {
    match b
    case Simple(_, _, codec, compressor) => F.LawfulCodec(codec) && compressor.Lawful()
    case Composition(l1, l2, _, _, _, _, _, _, _) => LawfulLeaves(l1) && LawfulLeaves(l2)
  }

  lemma {:induction false} LawfulAt(b: Backend, path: Path)
    requires LawfulLeaves(b) && IsPath(b, path)
    ensures LawfulLeaves(LeafAt(b, path))
    ensures LeafAt(b, path).id in b.Leaves()
  {
    if b.Composition? {
      LawfulAt(Child(b, path[0]), path[1..]);
    }
  }

  /** Along any route the target is the leaf's own encoding. */
  lemma {:induction false} TargetAt(b: Backend, path: Path, key: Key, v: Value, expire: Option<int>, stale: Option<int>)
    requires Separate(b) && IsPath(b, path) && OwnPayload(b, v).Some?
    ensures var s := Slot(LeafAt(b, path).id, key);
            && s in TargetsOf(b, key, v, expire, stale)
            && Some(TargetsOf(b, key, v, expire, stale)[s].data) == OwnPayload(LeafAt(b, path), v)
            && TargetsOf(b, key, v, expire, stale)[s].expire == (if path == [] then expire else None)
            && TargetsOf(b, key, v, expire, stale)[s].stale == (if path == [] then stale else None)
    ensures LeafAt(b, path).id in b.Leaves()
  {
    if b.Composition? {
      assert OwnSerial(b, v).Some?;
      TargetsAreTheLeaves(b.l1, key, v, None, None);
      TargetsAreTheLeaves(b.l2, key, v, None, None);
      TargetAt(Child(b, path[0]), path[1..], key, v, None, None);
    }
  }

  // ----- lengths stay readable ------------------------------------------------------------

  /** Landed, as far as one subtree's slots are concerned. */
  ghost predicate LandedIn(b: Backend, key: Key, t: Targets, st: Stores, st': Stores) {
    forall id :: id in b.Leaves() ==>
      Same(st, st', Slot(id, key)) || (Slot(id, key) in t && Writes.Holds(t, st', Slot(id, key)))
  }

  lemma PackedLength(first: Bytes, second: Bytes)
    ensures |F.PackBoth(first, second)| == E.HEADER_SIZE + |first| + |second|
  {
  }

  lemma {:induction false} LandedFits(b: Backend, key: Key, v: Value, expire: Option<int>, stale: Option<int>,
          st: Stores, st': Stores, room: int)
    requires Separate(b) && StoredFits(b, key, st, room)
    requires LandedIn(b, key, TargetsOf(b, key, v, expire, stale), st, st')
    requires OwnPayload(b, v).Some? && |OwnPayload(b, v).value| < room
    ensures StoredFits(b, key, st', room)
  {
    match b {
      case Simple(id, _, _, _) =>
        assert Same(st, st', Slot(id, key)) || Writes.Holds(TargetsOf(b, key, v, expire, stale), st', Slot(id, key));
      case Composition(l1, l2, _, _, _, _, _, _, _) =>
        assert OwnSerial(b, v).Some?;
        PackedLength(OwnPayload(l1, v).value, OwnPayload(l2, v).value);
        LandedInLayers(b, key, v, None, None, st, st');
        LandedFits(l1, key, v, None, None, st, st', room - E.HEADER_SIZE);
        LandedFits(l2, key, v, None, None, st, st', room - E.HEADER_SIZE);
    }
  }

  lemma LandedInLayers(b: Backend, key: Key, v: Value, expire: Option<int>, stale: Option<int>, st: Stores, st': Stores)
    requires b.Composition? && Separate(b)
    requires LandedIn(b, key, LayerTargets(b, key, v, expire, stale), st, st')
    ensures LandedIn(b.l1, key, TargetsOf(b.l1, key, v, expire, stale), st, st')
    ensures LandedIn(b.l2, key, TargetsOf(b.l2, key, v, expire, stale), st, st')
  {
    TargetsAreTheLeaves(b.l1, key, v, expire, stale);
    TargetsAreTheLeaves(b.l2, key, v, expire, stale);
  }

  lemma LandedKeepsStoredFits(b: Backend, key: Key, v: Value, expire: Option<int>, stale: Option<int>,
          st: Stores, st': Stores)
    requires b.Composition? && Separate(b) && PayloadsFit(b, v) && OwnPayload(b, v).Some?
    requires StoredFits(b, key, st, ROOT_ROOM) && LandedIn(b, key, TargetsOf(b, key, v, expire, stale), st, st')
    ensures StoredFits(b, key, st', ROOT_ROOM)
  {
    assert OwnSerial(b, v).Some?;
    LandedInLayers(b, key, v, None, None, st, st');
    LandedFits(b.l1, key, v, None, None, st, st', ROOT_ROOM - E.HEADER_SIZE);
    LandedFits(b.l2, key, v, None, None, st, st', ROOT_ROOM - E.HEADER_SIZE);
  }

  /** A set keeps every stored entry short enough to be wrapped on the way back up. */
  lemma SetKeepsStoredFits(b: Backend, key: Key, v: Value, expire: Option<int>, stale: Option<int>, st: Stores,
          st': Stores)
    requires b.Composition? && Separate(b) && PayloadsFit(b, v) && OwnPayload(b, v).Some?
    requires StoredFits(b, key, st, ROOT_ROOM) && Landed(TargetsOf(b, key, v, expire, stale), st, st')
    ensures StoredFits(b, key, st', ROOT_ROOM)
  {
    assert LandedIn(b, key, TargetsOf(b, key, v, expire, stale), st, st');
    LandedKeepsStoredFits(b, key, v, expire, stale, st, st');
  }

  // ----- the round trip -------------------------------------------------------------------

  /** `value` was already in a leaf before the set and still is. */
  ghost predicate StillThere(b: Backend, path: Path, key: Key, st: Stores, st': Stores, value: Value) {
    && IsPath(b, path)
    && var s := Slot(LeafAt(b, path).id, key);
    && s in st && Same(st, st', s) && G.LeafDecoding(LeafAt(b, path), st[s].data) == Some(value)
  }

  lemma OwnPayloadDecodes(leaf: Backend, v: Value)
    requires leaf.Simple? && LawfulLeaves(leaf) && OwnPayload(leaf, v).Some?
    ensures G.LeafDecoding(leaf, OwnPayload(leaf, v).value) == Some(v)
  {
    assert leaf.codec.encode(v).Some?;
  }

  /** A leaf that a set may have reached decodes to the new value or is untouched. */
  lemma LandedDecodes(b: Backend, path: Path, key: Key, v: Value, expire: Option<int>, stale: Option<int>,
          st: Stores, st': Stores)
    requires Separate(b) && LawfulLeaves(b) && IsPath(b, path) && OwnPayload(b, v).Some?
    requires Landed(TargetsOf(b, key, v, expire, stale), st, st')
    ensures var s := Slot(LeafAt(b, path).id, key);
            Same(st, st', s) || (s in st' && G.LeafDecoding(LeafAt(b, path), st'[s].data) == Some(v))
    ensures AllLanded(TargetsOf(b, key, v, expire, stale), st') ==>
              var s := Slot(LeafAt(b, path).id, key);
              s in st' && G.LeafDecoding(LeafAt(b, path), st'[s].data) == Some(v)
  {
    LawfulAt(b, path);
    TargetAt(b, path, key, v, expire, stale);
    OwnPayloadDecodes(LeafAt(b, path), v);
    var s := Slot(LeafAt(b, path).id, key);
    var t := TargetsOf(b, key, v, expire, stale);
    assert Same(st, st', s) || (s in t && Writes.Holds(t, st', s));
  }

  /**
   * The law of the untyped path.  Whatever leaves fail on either side, a value read after a set is the
   * one that was set or one a leaf already held; with no write failure it is the one that was set, and
   * with no read failure there is one.
   */
  lemma SetThenGet(b: Backend, key: Key, v: CacheValue<Value>, ctx: Context, reader: Context, st: Stores,
                   writesDown: set<LeafId>, readsDown: set<LeafId>)
    requires Built(b) && Separate(b) && CoherentOn(b, v.data) && LawfulLeaves(b) && ctx.ReadMode() == Direct
    requires PayloadsFit(b, v.data) && OwnPayload(b, v.data).Some?
    requires b.Composition? ==> StoredFits(b, key, st, ROOT_ROOM)
    ensures var st' := GenericSet(b, key, v, ctx, st, writesDown).1;
            var reply := GenericGet(b, key, reader, st', readsDown).reply;
            && (Found(reply) ==>
                  reply.value.value.data == v.data ||
                    exists path :: StillThere(b, path, key, st, st', reply.value.value.data))
            && (WritesEverywhere(b) && writesDown !! b.Leaves() ==>
                  && (reply.Ok? ==> Found(reply) && reply.value.value.data == v.data)
                  && (readsDown !! b.Leaves() ==> reply.Ok?))
  {
    GenericSetDelivers(b, key, v, ctx, st, writesDown);
    var st' := GenericSet(b, key, v, ctx, st, writesDown).1;
    if b.Composition? {
      SetKeepsStoredFits(b, key, v.data, v.expire, v.stale, st, st');
    }
    G.GenericGetAnswers(b, key, reader, st', readsDown);
    G.ResolveAnswersFromALeaf(b, key, st', readsDown);
    var found := Resolve(b, key, st', readsDown);
    if Found(found) {
      var path := found.value.value.data.path;
      LandedDecodes(b, path, key, v.data, v.expire, v.stale, st, st');
      var reply := GenericGet(b, key, reader, st', readsDown).reply;
      if Found(reply) && reply.value.value.data != v.data {
        assert StillThere(b, path, key, st, st', reply.value.value.data);
      }
    }
    if WritesEverywhere(b) && writesDown !! b.Leaves() {
      EveryLeafHolds(b, key, v.data, v.expire, v.stale, st');
      NoFailureNoError(b, key, st', readsDown);
    }
  }

  lemma EveryLeafHolds(b: Backend, key: Key, v: Value, expire: Option<int>, stale: Option<int>, st: Stores)
    requires OwnPayload(b, v).Some? && AllLanded(TargetsOf(b, key, v, expire, stale), st)
    ensures forall id :: id in b.Leaves() ==> Slot(id, key) in st
  {
    TargetsAreTheLeaves(b, key, v, expire, stale);
    forall id | id in b.Leaves()
      ensures Slot(id, key) in st
    {
      assert Writes.Holds(TargetsOf(b, key, v, expire, stale), st, Slot(id, key));
    }
  }

  /** Reads fail only when leaves do, and a read that does not fail misses only when some leaf lacks the key. */
  lemma {:induction false} NoFailureNoError(b: Backend, key: Key, st: Stores, down: set<LeafId>)
    ensures down !! b.Leaves() ==> Resolve(b, key, st, down).Ok?
    ensures (forall id :: id in b.Leaves() ==> Slot(id, key) in st) && Resolve(b, key, st, down).Ok? ==>
      Found(Resolve(b, key, st, down))
  {
    if b.Composition? {
      NoFailureNoError(b.l1, key, st, down);
      NoFailureNoError(b.l2, key, st, down);
    }
  }

  // ----- the round trip of the typed path -------------------------------------------------

  /** A leaf straight under the root keeps the given instants, one further down none. */
  predicate KeptInstants(path: Path, given: CacheValue<Value>, got: CacheValue<Value>) {
    && got.expire == (if |path| == 1 then given.expire else None)
    && got.stale == (if |path| == 1 then given.stale else None)
  }

  /** A leaf that a typed set may have reached holds the new value, with those instants, or is untouched. */
  lemma LayerLandedAt(b: Backend, path: Path, key: Key, v: CacheValue<Value>, st: Stores, st': Stores)
    requires b.Composition? && Separate(b) && LawfulLeaves(b) && IsPath(b, path) && OwnPayload(b, v.data).Some?
    requires Landed(LayerTargets(b, key, v.data, v.expire, v.stale), st, st')
    ensures
      var s := Slot(LeafAt(b, path).id, key);
      Same(st, st', s) || HoldsSet(b, path, key, v, st')
    ensures AllLanded(LayerTargets(b, key, v.data, v.expire, v.stale), st') ==> HoldsSet(b, path, key, v, st')
  {
    assert OwnSerial(b, v.data).Some?;
    var child := Child(b, path[0]);
    var s := Slot(LeafAt(b, path).id, key);
    var t := LayerTargets(b, key, v.data, v.expire, v.stale);
    TargetsAreTheLeaves(b.l1, key, v.data, v.expire, v.stale);
    TargetsAreTheLeaves(b.l2, key, v.data, v.expire, v.stale);
    TargetAt(child, path[1..], key, v.data, v.expire, v.stale);
    LawfulAt(child, path[1..]);
    OwnPayloadDecodes(LeafAt(b, path), v.data);
    assert s in t && (Same(st, st', s) || Writes.Holds(t, st', s));
  }

  ghost predicate HoldsSet(b: Backend, path: Path, key: Key, v: CacheValue<Value>, st: Stores)
    requires IsPath(b, path)
  {
    var s := Slot(LeafAt(b, path).id, key);
    && s in st
    && G.LeafDecoding(LeafAt(b, path), st[s].data) == Some(v.data)
    && KeptInstants(path, v, CacheValue(v.data, st[s].expire, st[s].stale))
  }

  lemma LandedKeepsLayersReadable(b: Backend, key: Key, v: CacheValue<Value>, st: Stores, st': Stores)
    requires b.Composition? && Separate(b) && OwnPayload(b, v.data).Some?
    requires PayloadsFit(b.l1, v.data) && PayloadsFit(b.l2, v.data) && G.LayersReadable(b, key, st)
    requires Landed(LayerTargets(b, key, v.data, v.expire, v.stale), st, st')
    ensures G.LayersReadable(b, key, st')
  {
    assert OwnSerial(b, v.data).Some?;
    assert LandedIn(b, key, LayerTargets(b, key, v.data, v.expire, v.stale), st, st');
    LandedInLayers(b, key, v.data, v.expire, v.stale, st, st');
    if b.l1.Composition? {
      LandedKeepsStoredFits(b.l1, key, v.data, v.expire, v.stale, st, st');
    }
    if b.l2.Composition? {
      LandedKeepsStoredFits(b.l2, key, v.data, v.expire, v.stale, st, st');
    }
  }

  /** The value set, with the instants its leaf keeps, reported along the path to that leaf. */
  ghost predicate GotSet(b: Backend, key: Key, v: CacheValue<Value>, reader: Context, got: GetOutcome) {
    && Found(got.reply) && got.reply.value.value.data == v.data
    && exists path ::
         && IsPath(b, path) && path != [] && G.Reports(b, path, reader, got.ctx)
         && KeptInstants(path, v, got.reply.value.value)
  }

  /** A value that some leaf held before the set and was not rid of by it. */
  ghost predicate GotOld(b: Backend, key: Key, st: Stores, st': Stores, got: GetOutcome) {
    Found(got.reply) && exists path :: StillThere(b, path, key, st, st', got.reply.value.value.data)
  }

  /**
   * The law of the typed path.  Whatever leaves fail on either side, a value got after a set is the one
   * set, with its instants if the answering leaf is a direct layer and without any if it is not, or one a
   * leaf already held.  When every race is over and no write fails it is the one set, and when no read
   * fails there is one.
   */
  lemma TypedSetThenGet(b: Backend, key: Key, v: CacheValue<Value>, ctx: Context, reader: Context, st: Stores,
          writesDown: set<LeafId>, readsDown: set<LeafId>)
    requires Built(b) && b.Composition? && Separate(b) && CoherentOn(b, v.data) && LawfulLeaves(b)
    requires PayloadsFit(b.l1, v.data) && PayloadsFit(b.l2, v.data) && OwnPayload(b, v.data).Some?
    requires G.LayersReadable(b, key, st) && ctx.ReadMode() == Direct && reader.Plain?
    ensures
      var set1 := TypedSet(b, key, v, ctx, st, writesDown);
      var got := TypedGet(b, key, reader, set1.1, readsDown);
      && (Found(got.reply) ==> GotSet(b, key, v, reader, got) || GotOld(b, key, st, set1.1, got))
      && (WritesEverywhere(b) && writesDown !! b.Leaves() ==>
            && set1.0.Ok?
            && (got.reply.Ok? ==> GotSet(b, key, v, reader, got))
            && (readsDown !! b.Leaves() ==> got.reply.Ok?))
  {
    TypedSetDelivers(b, key, v, ctx, st, writesDown);
    var st' := TypedSet(b, key, v, ctx, st, writesDown).1;
    LandedKeepsLayersReadable(b, key, v, st, st');
    LandedIsGot(b, key, v, reader, st, st', readsDown);
    if WritesEverywhere(b) && writesDown !! b.Leaves() {
      AllLandedIsGot(b, key, v, reader, st, st', readsDown);
    }
  }

  lemma LandedIsGot(b: Backend, key: Key, v: CacheValue<Value>, reader: Context, st: Stores, st': Stores,
          down: set<LeafId>)
    requires Built(b) && b.Composition? && Separate(b) && LawfulLeaves(b) && OwnPayload(b, v.data).Some?
    requires G.LayersReadable(b, key, st') && reader.Plain?
    requires Landed(LayerTargets(b, key, v.data, v.expire, v.stale), st, st')
    ensures
      var got := TypedGet(b, key, reader, st', down);
      Found(got.reply) ==>
        && (GotSet(b, key, v, reader, got) || GotOld(b, key, st, st', got))
        && (AllLanded(LayerTargets(b, key, v.data, v.expire, v.stale), st') ==> GotSet(b, key, v, reader, got))
  {
    G.TypedGetAnswers(b, key, reader, st', down);
    var got := TypedGet(b, key, reader, st', down);
    if Found(got.reply) {
      var path :| G.DecodedAt(b, path, key, st', down, got.reply.value.value) && G.Reports(b, path, reader, got.ctx);
      LayerLandedAt(b, path, key, v, st, st');
      if !HoldsSet(b, path, key, v, st') {
        assert StillThere(b, path, key, st, st', got.reply.value.value.data);
      }
    }
  }

  /** A layer all of whose targets landed answers, unless a read in it fails. */
  lemma LandedLayerAnswers(b: Backend, layer: CompositionLayer, key: Key, v: CacheValue<Value>, reader: Context,
          st: Stores, down: set<LeafId>)
    requires Built(b) && b.Composition? && Separate(b) && LawfulLeaves(b) && OwnPayload(b, v.data).Some?
    requires G.Readable(Child(b, layer), key, st)
    requires AllLanded(LayerTargets(b, key, v.data, v.expire, v.stale), st)
    ensures
      var r := TypedLayer(b, layer, key, reader, st, down).0;
      (r.Ok? ==> Found(r)) && (down !! b.Leaves() ==> r.Ok?)
  {
    var child := Child(b, layer);
    EveryLayerLeafHolds(b, key, v, st);
    NoFailureNoError(child, key, st, down);
    G.TypedLayerAnswers(b, layer, key, reader, st, down);
    var found := Resolve(child, key, st, down);
    if Found(found) {
      G.ResolveAnswersFromALeaf(child, key, st, down);
      var path := [layer] + found.value.value.data.path;
      assert path[1..] == found.value.value.data.path;
      LayerLandedAt(b, path, key, v, st, st);
    }
  }

  lemma AllLandedIsGot(b: Backend, key: Key, v: CacheValue<Value>, reader: Context, st: Stores, st': Stores,
          down: set<LeafId>)
    requires Built(b) && b.Composition? && Separate(b) && LawfulLeaves(b) && OwnPayload(b, v.data).Some?
    requires G.LayersReadable(b, key, st') && reader.Plain?
    requires Landed(LayerTargets(b, key, v.data, v.expire, v.stale), st, st')
    requires AllLanded(LayerTargets(b, key, v.data, v.expire, v.stale), st')
    ensures
      var got := TypedGet(b, key, reader, st', down);
      (got.reply.Ok? ==> GotSet(b, key, v, reader, got)) && (down !! b.Leaves() ==> got.reply.Ok?)
  {
    LandedLayerAnswers(b, Layer1, key, v, reader, st', down);
    LandedLayerAnswers(b, Layer2, key, v, reader, st', down);
    var c1, c2 := TypedLayer(b, Layer1, key, reader, st', down), TypedLayer(b, Layer2, key, reader, st', down);
    SelectReturnsAReply(b.read, c1.0, c1.1, c2.0, c2.1);
    LandedIsGot(b, key, v, reader, st, st', down);
  }

  lemma EveryLayerLeafHolds(b: Backend, key: Key, v: CacheValue<Value>, st: Stores)
    requires b.Composition? && OwnPayload(b, v.data).Some?
    requires AllLanded(LayerTargets(b, key, v.data, v.expire, v.stale), st)
    ensures forall id :: id in b.Leaves() ==> Slot(id, key) in st
  {
    assert OwnSerial(b, v.data).Some?;
    TargetsAreTheLeaves(b.l1, key, v.data, v.expire, v.stale);
    TargetsAreTheLeaves(b.l2, key, v.data, v.expire, v.stale);
    var t := LayerTargets(b, key, v.data, v.expire, v.stale);
    forall id | id in b.Leaves()
      ensures Slot(id, key) in st
    {
      assert Slot(id, key) in t && Writes.Holds(t, st, Slot(id, key));
    }
  }
}
