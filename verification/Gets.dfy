/** The two ways to get a value out of a tree, and how they compare. */
module Gets {
  import opened Wrappers
  import opened Values
  import opened Contexts
  import opened Policies
  import opened Backends
  import opened Reads
  import F = Formats
  import E = Envelope

  /** A leaf's own decoding of what it stored. */
  function LeafDecoding(leaf: Backend, data: Bytes): Option<Value>
    requires leaf.Simple?
  {
    var decompressed :- leaf.compressor.Decompress(data);
    leaf.codec.decode(decompressed)
  }

  /** The leaf at the end of `path` can be read and keeps `entry` under `key`. */
  predicate Keeps(b: Backend, path: Path, key: Key, st: Stores, down: set<LeafId>, entry: RawValue)
    requires IsPath(b, path)
  {
    var slot := Slot(LeafAt(b, path).id, key);
    slot.leaf !in down && slot in st && st[slot].data == entry.data && st[slot].expire == entry.expire &&
      st[slot].stale == entry.stale
  }

  /** Some leaf that can be read has an entry. */
  predicate Available(b: Backend, key: Key, st: Stores, down: set<LeafId>) {
    exists id :: id in b.Leaves() && id !in down && Slot(id, key) in st
  }

  /** Under every policy a read answers with an entry of a readable leaf, and finds one whenever there is one. */
  lemma {:induction false} ResolveAnswersFromALeaf(b: Backend, key: Key, st: Stores, down: set<LeafId>)
    ensures var r := Resolve(b, key, st, down);
            Found(r) ==>
              var v := r.value.value;
              IsPath(b, v.data.path) && Keeps(b, v.data.path, key, st, down, CacheValue(v.data.data, v.expire, v.stale))
    ensures Found(Resolve(b, key, st, down)) <==> Available(b, key, st, down)
  {
    match b {
      case Simple(id, _, _, _) =>
        assert id in b.Leaves();
      case Composition(l1, l2, _, read, _, _, _, _, _) =>
        ResolveAnswersFromALeaf(l1, key, st, down);
        ResolveAnswersFromALeaf(l2, key, st, down);
        assert Available(b, key, st, down) <==> Available(l1, key, st, down) || Available(l2, key, st, down);
        var a1, a2 := Resolve(l1, key, st, down), Resolve(l2, key, st, down);
        var t1, t2 := Routed(Layer1, a1), Routed(Layer2, a2);
        SelectReturnsAReply(read, t1, DEFAULT_CONTEXT, t2, DEFAULT_CONTEXT);
        if Found(a1) { assert t1.value.value.data.path[1..] == a1.value.value.data.path; }
        if Found(a2) { assert t2.value.value.data.path[1..] == a2.value.value.data.path; }
    }
  }

  // ----- the untyped get ----------------------------------------------------------------

  /** What an untyped get returns, said of the entry the simple read finds. */
  ghost predicate GenericGetMatches(b: Backend, ctx: Context, st: Stores, found: Reply<Answer>, out: GetOutcome) {
    match found
    case Err(e) => out == GetOutcome(Err(e), ctx, st)
    case Ok(None) => out == GetOutcome(Ok(None), ctx, st)
    case Ok(Some(answer)) =>
      && IsPath(b, answer.data.path)
      && var decoded := LeafDecoding(LeafAt(b, answer.data.path), answer.data.data);
         if decoded.None? then out == GetOutcome(Err(FormatFailed), ctx, st)
         else
           && out.reply == Ok(Some(CacheValue(decoded.value, answer.expire, answer.stale)))
           && Recorded(b, answer.data.path, ctx, out.ctx)
           && out.stores == st
  }

  /** A hit along `path` on the context: the route in wrappers, the backend as source. */
  predicate Recorded(b: Backend, path: Path, before: Context, after: Context) {
    && after.Layers() == path + before.Layers()
    && after.Status() == Hit && after.Source() == FromBackend(b.name)
    && after.ReadMode() == if path == [] then before.ReadMode() else if path[0] == Layer2 then Refill else Direct
  }

  /** The default get reaches the default set only in refill mode, where that set does nothing. */
  lemma GenericGetNeverWrites(b: Backend, key: Key, ctx: Context, st: Stores, down: set<LeafId>)
    ensures GenericGet(b, key, ctx, st, down).stores == st
  {
  }

  lemma HitIsRecorded(stack: Context, name: Label)
    ensures var after := stack.WithStatus(Hit).WithSource(FromBackend(name));
            && after.Layers() == stack.Layers() && after.ReadMode() == stack.ReadMode()
            && after.Status() == Hit && after.Source() == FromBackend(name)
            && after.Plain? == stack.Plain?
  {
    SettersReachTheRecord(stack, Hit, FromBackend(name), Direct);
    SettersReachTheRecord(stack.WithStatus(Hit), Hit, FromBackend(name), Direct);
  }

  /**
   * For every tree, policy and failure: the untyped get returns the leaf's own decoding with the
   * leaf's instants, the wrappers spell the route, and no store changes, refill mode or not.
   */
  lemma GenericGetAnswers(b: Backend, key: Key, ctx: Context, st: Stores, down: set<LeafId>)
    requires Built(b) && (b.Composition? ==> StoredFits(b, key, st, ROOT_ROOM))
    ensures GenericGetMatches(b, ctx, st, Resolve(b, key, st, down), GenericGet(b, key, ctx, st, down))
  {
    if b.Composition? {
      RawReadRefinesResolve(b, key, st, down, ROOT_ROOM);
    }
    GenericGetNeverWrites(b, key, ctx, st, down);
    var found := Resolve(b, key, st, down);
    if Found(found) {
      var path := found.value.value.data.path;
      assert DecodeRaw(b, RawRead(b, key, st, down).value.value.data, ctx) ==
        DecodeAnswer(b, found.value.value.data, ctx);
      StackSpellsTheRoute(b, path, ctx);
      HitIsRecorded(StackOf(b, path, ctx), b.name);
    }
  }

  // ----- the typed get ------------------------------------------------------------------

  /** A typed layer reply, said of the entry the simple read finds in that layer. */
  ghost predicate TypedLayerMatches(child: Backend, ctx: Context, found: Reply<Answer>, r: Reply<Value>,
          after: Context) {
    match found
    case Err(e) => r == Err(e)
    case Ok(None) => r == Ok(None)
    case Ok(Some(answer)) =>
      && IsPath(child, answer.data.path)
      && var decoded := LeafDecoding(LeafAt(child, answer.data.path), answer.data.data);
         if decoded.None? then r == Err(FormatFailed)
         else
           && r == Ok(Some(CacheValue(decoded.value, answer.expire, answer.stale)))
           && after.Status() == Hit
           && after.Source() == FromBackend(AnsweredBy(child, StackOf(child, answer.data.path, ctx)))
  }

  /** A composed layer's entries leave room for its own envelopes; a leaf layer is read without any. */
  predicate Readable(layer: Backend, key: Key, st: Stores) {
    layer.Composition? ==> StoredFits(layer, key, st, ROOT_ROOM)
  }

  predicate LayersReadable(b: Backend, key: Key, st: Stores) {
    b.Composition? ==> Readable(b.l1, key, st) && Readable(b.l2, key, st)
  }

  lemma {:induction false} MoreRoom(b: Backend, key: Key, st: Stores, room: int, more: int)
    requires StoredFits(b, key, st, room) && room <= more
    ensures StoredFits(b, key, st, more)
  {
    if b.Composition? {
      MoreRoom(b.l1, key, st, room - E.HEADER_SIZE, more - E.HEADER_SIZE);
      MoreRoom(b.l2, key, st, room - E.HEADER_SIZE, more - E.HEADER_SIZE);
    }
  }

  lemma FittingLayersAreReadable(b: Backend, key: Key, st: Stores)
    requires StoredFits(b, key, st, ROOT_ROOM)
    ensures LayersReadable(b, key, st)
  {
    if b.Composition? {
      MoreRoom(b.l1, key, st, ROOT_ROOM - E.HEADER_SIZE, ROOT_ROOM);
      MoreRoom(b.l2, key, st, ROOT_ROOM - E.HEADER_SIZE, ROOT_ROOM);
    }
  }

  lemma ReadableStandsFor(b: Backend, key: Key, st: Stores, down: set<LeafId>)
    requires Built(b) && Readable(b, key, st)
    ensures StandsFor(b, RawRead(b, key, st, down), Resolve(b, key, st, down))
  {
    if b.Composition? {
      RawReadRefinesResolve(b, key, st, down, ROOT_ROOM);
    }
  }

  /** One layer's typed reply is its resolved entry, decoded at the leaf. */
  lemma TypedLayerAnswers(b: Backend, layer: CompositionLayer, key: Key, ctx: Context, st: Stores, down: set<LeafId>)
    requires Built(b) && b.Composition? && Readable(Child(b, layer), key, st)
    ensures var (r, after) := TypedLayer(b, layer, key, ctx, st, down);
            TypedLayerMatches(Child(b, layer), ctx, Resolve(Child(b, layer), key, st, down), r, after)
  {
    var child := Child(b, layer);
    ReadableStandsFor(child, key, st, down);
    TypedReplyMatches(b, layer, RawRead(child, key, st, down), Resolve(child, key, st, down), ctx);
  }

  lemma TypedReplyMatches(b: Backend, layer: CompositionLayer, r: Reply<Bytes>, a: Reply<Answer>, ctx: Context)
    requires Built(b) && b.Composition? && StandsFor(Child(b, layer), r, a)
    ensures
      var typed := TypedReply(b, layer, r, ctx);
      TypedLayerMatches(Child(b, layer), ctx, a, typed.0, typed.1)
  {
    if Found(a) {
      LayerDecodesAnswer(b, layer, r, a, ctx);
      var stack := StackOf(Child(b, layer), a.value.value.data.path, ctx);
      HitIsRecorded(stack, AnsweredBy(Child(b, layer), stack));
    }
  }

  lemma LayerDecodesAnswer(b: Backend, layer: CompositionLayer, r: Reply<Bytes>, a: Reply<Answer>, ctx: Context)
    requires Built(b) && b.Composition? && StandsFor(Child(b, layer), r, a) && Found(a)
    ensures F.DeserializeLayer(b.format, layer, r.value.value.data, ctx)
            == DecodeAnswer(Child(b, layer), a.value.value.data, ctx)
  {
    LayerDecodesAsChild(b, layer, r.value.value.data, ctx);
  }

  /** The reported source: root, answering child and, below a composed child, its answering child. */
  function DottedPath(b: Backend, path: Path): Label
    requires IsPath(b, path) && path != []
  {
    var child := Child(b, path[0]);
    assert IsPath(child, path[1..]);
    b.name + "." + if child.Simple? then child.name else child.name + "." + Child(child, path[1]).name
  }

  lemma AnsweredByIsDotted(b: Backend, path: Path, ctx: Context)
    requires Built(b) && IsPath(b, path) && path != [] && ctx.Plain?
    ensures var child := Child(b, path[0]);
            Compose(b.name, AnsweredBy(child, StackOf(child, path[1..], ctx))) == DottedPath(b, path)
  {
    var child := Child(b, path[0]);
    if child.Composition? {
      assert path[1..][0] == path[1];
    }
  }

  /** `value` is the decoding, by the leaf at the end of `path`, of what that leaf keeps. */
  ghost predicate DecodedAt(b: Backend, path: Path, key: Key, st: Stores, down: set<LeafId>, value: CacheValue<Value>) {
    && IsPath(b, path) && path != []
    && var slot := Slot(LeafAt(b, path).id, key);
    && slot.leaf !in down && slot in st
    && LeafDecoding(LeafAt(b, path), st[slot].data) == Some(value.data)
    && st[slot].expire == value.expire && st[slot].stale == value.stale
  }

  /** The context a typed get leaves after an answer along `path`. */
  ghost predicate Reports(b: Backend, path: Path, before: Context, after: Context)
    requires IsPath(b, path) && path != []
  {
    && after.Plain? && after.Status() == Hit && after.Source() == FromBackend(DottedPath(b, path))
    && after.ReadMode() == if path[0] == Layer2 && b.refill == Always then Refill else before.ReadMode()
  }

  lemma HitReports(b: Backend, path: Path, ctx: Context, inner: Context)
    requires Built(b) && b.Composition? && IsPath(b, path) && path != [] && ctx.Plain?
    requires
      var child := Child(b, path[0]);
      inner.Status() == Hit && inner.Source() == FromBackend(AnsweredBy(child, StackOf(child, path[1..], ctx)))
    ensures Reports(b, path, ctx, AfterHit(b, path[0], ctx, inner))
  {
    AnsweredByIsDotted(b, path, ctx);
  }

  lemma LayerHitIsDecoded(b: Backend, layer: CompositionLayer, key: Key, ctx: Context, st: Stores, down: set<LeafId>,
          value: CacheValue<Value>, inner: Context) returns (path: Path)
    requires Built(b) && b.Composition? && Readable(Child(b, layer), key, st) && ctx.Plain?
    requires TypedLayer(b, layer, key, ctx, st, down) == (Ok(Some(value)), inner)
    ensures DecodedAt(b, path, key, st, down, value) && Reports(b, path, ctx, AfterHit(b, layer, ctx, inner))
  {
    var child := Child(b, layer);
    TypedLayerAnswers(b, layer, key, ctx, st, down);
    ResolveAnswersFromALeaf(child, key, st, down);
    var below := Resolve(child, key, st, down).value.value.data.path;
    path := [layer] + below;
    assert path[1..] == below;
    HitReports(b, path, ctx, inner);
  }

  /**
   * From a plain context, a hit of the typed get is some readable leaf's own entry; the source names
   * the route to it and refill mode is set exactly for a layer-two answer under Always.
   */
  lemma TypedGetAnswers(b: Backend, key: Key, ctx: Context, st: Stores, down: set<LeafId>)
    requires Built(b) && b.Composition? && LayersReadable(b, key, st) && ctx.Plain?
    ensures
      var out := TypedGet(b, key, ctx, st, down);
      && out.stores == st
      && (!Found(out.reply) ==> out.ctx == ctx)
      && (Found(out.reply) ==>
            exists path ::
              DecodedAt(b, path, key, st, down, out.reply.value.value) && Reports(b, path, ctx, out.ctx))
  {
    var (r1, ctx1) := TypedLayer(b, Layer1, key, ctx, st, down);
    var (r2, ctx2) := TypedLayer(b, Layer2, key, ctx, st, down);
    SelectReturnsAReply(b.read, r1, ctx1, r2, ctx2);
    var out := TypedGet(b, key, ctx, st, down);
    if Found(out.reply) {
      var chosen := Select(b.read, r1, ctx1, r2, ctx2).value;
      var path := LayerHitIsDecoded(b, chosen.source, key, ctx, st, down, out.reply.value.value, chosen.context);
    }
  }

  // ----- typed against untyped ----------------------------------------------------------

  /** Every stored entry decodes at its leaf. */
  predicate AllDecode(b: Backend, key: Key, st: Stores) {
    match b
    case Simple(id, _, _, _) => Slot(id, key) in st ==> LeafDecoding(b, st[Slot(id, key)].data).Some?
    case Composition(l1, l2, _, _, _, _, _, _, _) => AllDecode(l1, key, st) && AllDecode(l2, key, st)
  }

  lemma {:induction false} AllDecodeAt(b: Backend, path: Path, key: Key, st: Stores)
    requires AllDecode(b, key, st) && IsPath(b, path)
    ensures AllDecode(LeafAt(b, path), key, st)
  {
    if b.Composition? {
      AllDecodeAt(Child(b, path[0]), path[1..], key, st);
    }
  }

  /** A reply is the decoding of a routed entry, or its failure. */
  ghost predicate Rendered(b: Backend, r: Reply<Value>, t: Reply<Answer>) {
    && Degraded(r, t)
    && (Found(t) ==>
          && IsPath(b, t.value.value.data.path)
          && var decoded := LeafDecoding(LeafAt(b, t.value.value.data.path), t.value.value.data.data);
             if decoded.None? then r == Err(FormatFailed)
             else r == Ok(Some(CacheValue(decoded.value, t.value.value.expire, t.value.value.stale))))
  }

  /** A layer's typed reply against its resolved entry: only undecodable bytes separate them. */
  lemma TypedReplyDegrades(b: Backend, layer: CompositionLayer, key: Key, ctx: Context, st: Stores, down: set<LeafId>)
    requires Built(b) && b.Composition? && Readable(Child(b, layer), key, st)
    ensures var r := TypedLayer(b, layer, key, ctx, st, down).0;
            var t := Routed(layer, Resolve(Child(b, layer), key, st, down));
            Rendered(b, r, t) && (AllDecode(b, key, st) ==> Alike(r, t))
  {
    TypedLayerAnswers(b, layer, key, ctx, st, down);
    var child := Child(b, layer);
    var a := Resolve(child, key, st, down);
    if Found(a) {
      var path := a.value.value.data.path;
      assert ([layer] + path)[1..] == path;
      if AllDecode(b, key, st) {
        ResolveAnswersFromALeaf(child, key, st, down);
        AllDecodeAt(child, path, key, st);
      }
    }
  }

  lemma TypedSelectionRefines(b: Backend, ctx: Context, st: Stores, c1: (Reply<Value>, Context),
          c2: (Reply<Value>, Context), t1: Reply<Answer>, t2: Reply<Answer>, typed: Reply<Value>, generic: GetOutcome)
    requires b.Composition?
    requires typed == ValueOf(Select(b.read, c1.0, c1.1, c2.0, c2.1))
    requires GenericGetMatches(b, ctx, st, ValueOf(Select(b.read, t1, DEFAULT_CONTEXT, t2, DEFAULT_CONTEXT)), generic)
    requires Rendered(b, c1.0, t1) && Rendered(b, c2.0, t2)
    ensures typed == generic.reply || generic.reply == Err(FormatFailed)
    ensures Alike(c1.0, t1) && Alike(c2.0, t2) ==> typed == generic.reply
  {
    SelectReturnsAReply(b.read, t1, DEFAULT_CONTEXT, t2, DEFAULT_CONTEXT);
    SelectReturnsAReply(b.read, c1.0, c1.1, c2.0, c2.1);
    SelectSurvivesFailures(b.read, c1.0, c2.0, t1, t2, c1.1, c2.1, DEFAULT_CONTEXT, DEFAULT_CONTEXT);
  }

  /**
   * The envelope-free get refines the untyped one: they return the same value and instants, the same
   * miss or the same error, except that where the untyped get met bytes it cannot decode the typed one
   * may fall back to the other layer.
   */
  lemma TypedGetRefinesGeneric(b: Backend, key: Key, ctx: Context, st: Stores, down: set<LeafId>)
    requires Built(b) && StoredFits(b, key, st, ROOT_ROOM)
    ensures var typed, generic := TypedGet(b, key, ctx, st, down).reply, GenericGet(b, key, ctx, st, down).reply;
            (typed == generic || generic == Err(FormatFailed)) && (AllDecode(b, key, st) ==> typed == generic)
  {
    if b.Composition? {
      GenericGetAnswers(b, key, ctx, st, down);
      FittingLayersAreReadable(b, key, st);
      var t1, t2 := Routed(Layer1, Resolve(b.l1, key, st, down)), Routed(Layer2, Resolve(b.l2, key, st, down));
      TypedReplyDegrades(b, Layer1, key, ctx, st, down);
      TypedReplyDegrades(b, Layer2, key, ctx, st, down);
      var c1, c2 := TypedLayer(b, Layer1, key, ctx, st, down), TypedLayer(b, Layer2, key, ctx, st, down);
      TypedSelectionRefines(b, ctx, st, c1, c2, t1, t2,
                            TypedGet(b, key, ctx, st, down).reply, GenericGet(b, key, ctx, st, down));
    }
  }

  // ----- two leaves that both hit -------------------------------------------------------

  /** What a leaf keeps under the key, decoded. */
  ghost predicate LeafHolds(leaf: Backend, key: Key, st: Stores, v: CacheValue<Value>)
    requires leaf.Simple?
  {
    var s := Slot(leaf.id, key);
    s in st && LeafDecoding(leaf, st[s].data) == Some(v.data) && st[s].expire == v.expire && st[s].stale == v.stale
  }

  ghost predicate TwoHits(b: Backend, key: Key, st: Stores, v1: CacheValue<Value>, v2: CacheValue<Value>) {
    b.Composition? && b.l1.Simple? && b.l2.Simple? && LeafHolds(b.l1, key, st, v1) && LeafHolds(b.l2, key, st, v2)
  }

  lemma LeafLayerHits(b: Backend, layer: CompositionLayer, key: Key, ctx: Context, st: Stores, v: CacheValue<Value>)
    requires Built(b) && b.Composition? && Child(b, layer).Simple? && LeafHolds(Child(b, layer), key, st, v)
    ensures TypedLayer(b, layer, key, ctx, st, {}).0 == Ok(Some(v))
  {
    TypedLayerAnswers(b, layer, key, ctx, st, {});
  }

  /** What the policy makes of both leaves' entries; the contexts have no say in it. */
  function ChosenOf(p: ReadPolicy, v1: CacheValue<Value>, v2: CacheValue<Value>): Reply<Value> {
    ValueOf(Select(p, Ok(Some(v1)), DEFAULT_CONTEXT, Ok(Some(v2)), DEFAULT_CONTEXT))
  }

  lemma TwoHitsSelect(b: Backend, key: Key, ctx: Context, st: Stores, v1: CacheValue<Value>, v2: CacheValue<Value>)
    requires Built(b) && TwoHits(b, key, st, v1, v2)
    ensures TypedGet(b, key, ctx, st, {}).reply == ChosenOf(b.read, v1, v2)
  {
    LeafLayerHits(b, Layer1, key, ctx, st, v1);
    LeafLayerHits(b, Layer2, key, ctx, st, v2);
    var c1, c2 := TypedLayer(b, Layer1, key, ctx, st, {}).1, TypedLayer(b, Layer2, key, ctx, st, {}).1;
    var r1: Reply<Value>, r2: Reply<Value> := Ok(Some(v1)), Ok(Some(v2));
    SelectIsUniform(b.read, r1, r2, r1, r2, c1, c2, DEFAULT_CONTEXT, DEFAULT_CONTEXT);
    SelectReturnsAReply(b.read, r1, c1, r2, c2);
    SelectReturnsAReply(b.read, r1, DEFAULT_CONTEXT, r2, DEFAULT_CONTEXT);
    FirstFinisherWins(b.read, r1, c1, r2, c2);
  }

  /** A get in parallel from two leaves answers the longer life, unless a last second misleads it. */
  lemma ParallelLeavesAnswer(b: Backend, key: Key, ctx: Context, st: Stores, v1: CacheValue<Value>,
          v2: CacheValue<Value>)
    requires Built(b) && TwoHits(b, key, st, v1, v2) && b.read.Parallel?
    ensures
      var reply := TypedGet(b, key, ctx, st, {}).reply;
      var now1, now2 := b.read.now1, b.read.now2;
      || MisleadsParallel(v1, now1, v2, now2)
      || (reply == Ok(Some(v1)) && !OutlivesBySecond(v2, now2, v1, now1))
      || (reply == Ok(Some(v2)) && !OutlivesBySecond(v1, now1, v2, now2))
    ensures
      var now1, now2 := b.read.now1, b.read.now2;
      !InLastSecond(v1, now1) && !InLastSecond(v2, now2) ==>
        TypedGet(b, key, ctx, st, {}).reply ==
          Ok(Some(
            if v1.expire.Some?
               && (v2.expire.Some? ==>
                     (v2.expire.value - now2) / NANOS_PER_SECOND > (v1.expire.value - now1) / NANOS_PER_SECOND)
            then v2 else v1))
  {
    var c := DEFAULT_CONTEXT;
    TwoHitsSelect(b, key, ctx, st, v1, v2);
    ParallelChoosesLongerLifeIff(b.read.now1, b.read.now2, v1, v2, c, c);
    if !InLastSecond(v1, b.read.now1) && !InLastSecond(v2, b.read.now2) {
      ParallelComparesWholeSeconds(b.read.now1, b.read.now2, v1, v2, c, c);
    }
  }

  /** A race between two leaves answers the first to finish, and a sequential get layer one. */
  lemma RacingLeavesAnswer(b: Backend, key: Key, ctx: Context, st: Stores, v1: CacheValue<Value>, v2: CacheValue<Value>)
    requires Built(b) && TwoHits(b, key, st, v1, v2) && !b.read.Parallel?
    ensures TypedGet(b, key, ctx, st, {}).reply == Ok(Some(if b.read == Race(false) then v2 else v1))
  {
    TwoHitsSelect(b, key, ctx, st, v1, v2);
    FirstFinisherWins(b.read, Ok(Some(v1)), DEFAULT_CONTEXT, Ok(Some(v2)), DEFAULT_CONTEXT);
  }
}
