/**
 * What a read through any tree returns: the entry of one leaf, chosen by outcomes and
 * instants alone, decoded by that leaf's own codec, with the route to it on record.
 */
module Reads {
  import opened Wrappers
  import opened Values
  import opened Contexts
  import opened Policies
  import opened Backends
  import F = Formats
  import E = Envelope

  type Path = seq<CompositionLayer>

  function Child(b: Backend, layer: CompositionLayer): Backend
    requires b.Composition?
  {
    if layer == Layer1 then b.l1 else b.l2
  }

  predicate IsPath(b: Backend, path: Path) {
    if b.Simple? then path == [] else path != [] && IsPath(Child(b, path[0]), path[1..])
  }

  function LeafAt(b: Backend, path: Path): (leaf: Backend)
    requires IsPath(b, path)
    ensures leaf.Simple?
  {
    if b.Simple? then b else LeafAt(Child(b, path[0]), path[1..])
  }

  lemma {:induction false} LeafIsInside(b: Backend, path: Path)
    requires IsPath(b, path)
    ensures LeafAt(b, path).id in b.Leaves()
  {
    if b.Composition? {
      LeafIsInside(Child(b, path[0]), path[1..]);
    }
  }

  /** An entry and the route from the root to the leaf that keeps it. */
  datatype Answer = Answer(path: Path, data: Bytes)

  function Routed(layer: CompositionLayer, r: Reply<Answer>): Reply<Answer> {
    if Found(r) then
      var v := r.value.value;
      Ok(Some(CacheValue(Answer([layer] + v.data.path, v.data.data), v.expire, v.stale)))
    else r
  }

  /** The simple form of a read: no envelopes, only the policies choosing among leaf entries. */
  function Resolve(b: Backend, key: Key, st: Stores, down: set<LeafId>): Reply<Answer> {
    match b
    case Simple(id, _, _, _) =>
      if id in down then Err(LeafFailed(id))
      else if Slot(id, key) in st then
        var entry := st[Slot(id, key)];
        Ok(Some(CacheValue(Answer([], entry.data), entry.expire, entry.stale)))
      else Ok(None)
    case Composition(l1, l2, _, read, _, _, _, _, _) =>
      ValueOf(Select(read,
        Routed(Layer1, Resolve(l1, key, st, down)), DEFAULT_CONTEXT,
        Routed(Layer2, Resolve(l2, key, st, down)), DEFAULT_CONTEXT))
  }

  /** Every entry under `key` stays below `room` bytes, with a header's worth less at each level down. */
  predicate StoredFits(b: Backend, key: Key, st: Stores, room: int) {
    match b
    case Simple(id, _, _, _) => Slot(id, key) in st ==> |st[Slot(id, key)].data| < room
    case Composition(l1, l2, _, _, _, _, _, _, _) =>
      StoredFits(l1, key, st, room - E.HEADER_SIZE) && StoredFits(l2, key, st, room - E.HEADER_SIZE)
  }

  /** Room at a root that leaves 32-bit lengths below it. */
  const ROOT_ROOM: int := E.U32_CAPACITY + E.HEADER_SIZE

  /** The context after decoding along a route: one wrapper per composition passed. */
  function StackOf(b: Backend, path: Path, ctx: Context): Context
    requires IsPath(b, path)
  {
    if b.Simple? then ctx else Upgraded(StackOf(Child(b, path[0]), path[1..], ctx), path[0], b.format)
  }

  lemma {:induction false} StackSpellsTheRoute(b: Backend, path: Path, ctx: Context)
    requires IsPath(b, path)
    ensures StackOf(b, path, ctx).Layers() == path + ctx.Layers()
    ensures StackOf(b, path, ctx).Finalize() == ctx.Finalize()
  {
    if b.Composition? {
      StackSpellsTheRoute(Child(b, path[0]), path[1..], ctx);
      assert path == [path[0]] + path[1..];
    }
  }

  /** What decoding an answer at its own leaf gives, with the route recorded. */
  function DecodeAnswer(b: Backend, a: Answer, ctx: Context): Option<(Value, Context)>
    requires IsPath(b, a.path)
  {
    var leaf := LeafAt(b, a.path);
    var decompressed :- leaf.compressor.Decompress(a.data);
    var v :- leaf.codec.decode(decompressed);
    Some((v, StackOf(b, a.path, ctx)))
  }

  /** A raw reply stands for a resolved one: same outcome and instants, same decoding in every context. */
  ghost predicate StandsFor(b: Backend, r: Reply<Bytes>, a: Reply<Answer>) {
    && Alike(r, a)
    && (Found(a) ==>
          && IsPath(b, a.value.value.data.path)
          && forall ctx :: DecodeRaw(b, r.value.value.data, ctx) == DecodeAnswer(b, a.value.value.data, ctx))
  }

  lemma WrappedOpens(layer: CompositionLayer, raw: RawValue)
    requires |raw.data| < E.U32_CAPACITY
    ensures var wrapped := Wrapped(layer, Ok(Some(raw))).value.value.data;
            && |wrapped| == E.HEADER_SIZE + |raw.data|
            && E.Deserialize(wrapped).Ok?
            && E.Deserialize(wrapped).value.L2? == (layer == Layer2)
            && E.First(E.Deserialize(wrapped).value).data == raw.data
  {
    var envelope := if layer == Layer1 then E.L1(raw) else E.L2(raw);
    E.EnvelopeKeepsData(envelope, []);
    assert E.Serialize(envelope) + [] == E.Serialize(envelope);
  }

  lemma LayerDecodesAsChild(b: Backend, layer: CompositionLayer, data: Bytes, ctx: Context)
    requires Built(b) && b.Composition?
    ensures F.DeserializeLayer(b.format, layer, data, ctx) == DecodeRaw(Child(b, layer), data, ctx)
  {
  }

  lemma DecodeOpened(b: Backend, layer: CompositionLayer, wrapped: Bytes, data: Bytes, ctx: Context)
    requires Built(b) && b.Composition? && E.Deserialize(wrapped).Ok?
    requires E.Deserialize(wrapped).value.L2? == (layer == Layer2)
    requires E.First(E.Deserialize(wrapped).value).data == data
    ensures DecodeRaw(b, wrapped, ctx) ==
              match DecodeRaw(Child(b, layer), data, ctx)
              case None => None
              case Some((v, inner)) => Some((v, Upgraded(inner, layer, b.format)))
  {
    LayerDecodesAsChild(b, layer, data, ctx);
    F.OpenedDecodesLayer(b.format, wrapped, layer, data, ctx);
  }

  lemma RoutedDecodes(b: Backend, layer: CompositionLayer, a: Answer, ctx: Context)
    requires Built(b) && b.Composition? && IsPath(Child(b, layer), a.path)
    ensures IsPath(b, [layer] + a.path)
    ensures DecodeAnswer(b, Answer([layer] + a.path, a.data), ctx) ==
              match DecodeAnswer(Child(b, layer), a, ctx)
              case None => None
              case Some((v, inner)) => Some((v, Upgraded(inner, layer, b.format)))
  {
    var route := [layer] + a.path;
    assert route[0] == layer && route[1..] == a.path;
  }

  lemma StandsForChild(b: Backend, layer: CompositionLayer, r: Reply<Bytes>, a: Reply<Answer>)
    requires Built(b) && b.Composition?
    requires StandsFor(Child(b, layer), r, a)
    requires Found(r) ==> |r.value.value.data| < E.U32_CAPACITY
    ensures StandsFor(b, Wrapped(layer, r), Routed(layer, a))
  {
    if Found(a) {
      var answer := a.value.value.data;
      var wrapped := Wrapped(layer, r).value.value.data;
      WrappedOpens(layer, r.value.value);
      RoutedDecodes(b, layer, answer, DEFAULT_CONTEXT);
      forall ctx
        ensures DecodeRaw(b, wrapped, ctx) == DecodeAnswer(b, Answer([layer] + answer.path, answer.data), ctx)
      {
        DecodeOpened(b, layer, wrapped, r.value.value.data, ctx);
        RoutedDecodes(b, layer, answer, ctx);
      }
    }
  }

  lemma {:induction false} SelectedStandsFor(b: Backend, w1: Reply<Bytes>, w2: Reply<Bytes>, t1: Reply<Answer>,
          t2: Reply<Answer>)
    requires b.Composition? && StandsFor(b, w1, t1) && StandsFor(b, w2, t2)
    ensures
      var w := ValueOf(Select(b.read, w1, DEFAULT_CONTEXT, w2, DEFAULT_CONTEXT));
      var t := ValueOf(Select(b.read, t1, DEFAULT_CONTEXT, t2, DEFAULT_CONTEXT));
      && StandsFor(b, w, t)
      && (Found(w) ==> w == w1 || w == w2)
  {
    SelectIsUniform(b.read, w1, w2, t1, t2, DEFAULT_CONTEXT, DEFAULT_CONTEXT, DEFAULT_CONTEXT, DEFAULT_CONTEXT);
    SelectReturnsAReply(b.read, w1, DEFAULT_CONTEXT, w2, DEFAULT_CONTEXT);
    SelectReturnsAReply(b.read, t1, DEFAULT_CONTEXT, t2, DEFAULT_CONTEXT);
  }

  lemma {:induction false} RawReadRefinesResolve(b: Backend, key: Key, st: Stores, down: set<LeafId>, room: int)
    requires Built(b) && StoredFits(b, key, st, room) && room <= ROOT_ROOM
    ensures StandsFor(b, RawRead(b, key, st, down), Resolve(b, key, st, down))
    ensures Found(RawRead(b, key, st, down)) ==> |RawRead(b, key, st, down).value.value.data| < room
  {
    match b {
      case Simple(_, _, _, _) =>
      case Composition(l1, l2, _, _, _, _, _, _, _) =>
        var r1, r2 := RawRead(l1, key, st, down), RawRead(l2, key, st, down);
        var a1, a2 := Resolve(l1, key, st, down), Resolve(l2, key, st, down);
        RawReadRefinesResolve(l1, key, st, down, room - E.HEADER_SIZE);
        RawReadRefinesResolve(l2, key, st, down, room - E.HEADER_SIZE);
        StandsForChild(b, Layer1, r1, a1);
        StandsForChild(b, Layer2, r2, a2);
        if Found(r1) { WrappedOpens(Layer1, r1.value.value); }
        if Found(r2) { WrappedOpens(Layer2, r2.value.value); }
        SelectedStandsFor(b, Wrapped(Layer1, r1), Wrapped(Layer2, r2), Routed(Layer1, a1), Routed(Layer2, a2));
    }
  }
}
