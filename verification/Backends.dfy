/**
 * Trees of backends and the raw operations on them.  A leaf keeps one entry per key; a
 * composition forwards to its two layers through envelopes and policies.
 */
module Backends {
  import opened Wrappers
  import opened Values
  import opened Contexts
  import opened Policies
  import F = Formats
  import E = Envelope

  type RawValue = E.RawValue

  datatype Backend =
    | Simple(id: LeafId, name: Label, codec: Codec, compressor: Compressor)
    | Composition(l1: Backend, l2: Backend, format: Format, read: ReadPolicy, write: WritePolicy,
                  refill: RefillPolicy, name: Label, l1Label: Label, l2Label: Label)
  {
    function ValueFormat(): Format {
      if Simple? then LeafFormat(codec) else format
    }

    function ValueCompressor(): Compressor {
      if Simple? then compressor else Passthrough
    }

    function Leaves(): set<LeafId> {
      if Simple? then {id} else l1.Leaves() + l2.Leaves()
    }
  }

  /** One leaf's place for one key. */
  datatype Slot = Slot(leaf: LeafId, key: Key)

  type Stores = map<Slot, RawValue>

  // ----- construction -------------------------------------------------------------------

  function NewComposition(l1: Backend, l2: Backend): Backend {
    var name := "composition";
    var label1 := Compose(name, l1.name);
    var label2 := Compose(name, l2.name);
    var format := CompositionFormat(l1.ValueFormat(), l2.ValueFormat(), l1.ValueCompressor(), l2.ValueCompressor(),
                                    label1, label2);
    Composition(l1, l2, format, Sequential, Optimistic, Never, name, label1, label2)
  }

  /** Relabels a composition together with the labels its format reports. */
  function Relabel(b: Backend, name: Label): Backend
    requires b.Composition? && b.format.CompositionFormat?
  {
    var label1 := Compose(name, b.l1.name);
    var label2 := Compose(name, b.l2.name);
    b.(name := name, l1Label := label1, l2Label := label2,
       format := b.format.(l1Label := label1, l2Label := label2))
  }

  function WithPolicy(b: Backend, read: ReadPolicy, write: WritePolicy, refill: RefillPolicy): Backend
    requires b.Composition?
  {
    b.(read := read, write := write, refill := refill)
  }

  /**
   * The shape construction gives a tree: every composition's format mirrors its layers, its
   * labels are current, and no leaf format takes the identifier reserved for compositions.
   */
  ghost predicate Built(b: Backend) {
    match b
    case Simple(_, _, codec, _) => codec.typeId != COMPOSITION_ID
    case Composition(l1, l2, format, _, _, _, name, label1, label2) =>
      && Built(l1) && Built(l2)
      && label1 == Compose(name, l1.name) && label2 == Compose(name, l2.name)
      && format == CompositionFormat(l1.ValueFormat(), l2.ValueFormat(),
                                     l1.ValueCompressor(), l2.ValueCompressor(), label1, label2)
  }

  /** No leaf is reached twice. */
  predicate Separate(b: Backend) {
    b.Composition? ==> Separate(b.l1) && Separate(b.l2) && b.l1.Leaves() !! b.l2.Leaves()
  }

  /** New compositions read sequentially, write both layers and never refill, until told otherwise. */
  lemma ConstructionBuilds(l1: Backend, l2: Backend, name: Label, read: ReadPolicy, write: WritePolicy,
          refill: RefillPolicy)
    requires Built(l1) && Built(l2)
    ensures
      var b := NewComposition(l1, l2);
      && Built(b) && b.name == "composition" && b.l1 == l1 && b.l2 == l2
      && b.read == Sequential && b.write == Optimistic && b.refill == Never
    ensures Built(WithPolicy(Relabel(NewComposition(l1, l2), name), read, write, refill))
    ensures
      var b := Relabel(NewComposition(l1, l2), name);
      b.l1Label == name + "." + l1.name && b.l2Label == name + "." + l2.name
  {
  }

  /** Relabelling and policies keep a built tree built, and each changes nothing of the other. */
  lemma ReconfigurationKeepsBuilt(b: Backend, name: Label, read: ReadPolicy, write: WritePolicy, refill: RefillPolicy)
    requires b.Composition? && Built(b)
    ensures
      var relabelled := Relabel(b, name);
      && Built(relabelled) && relabelled.name == name
      && relabelled.l1 == b.l1 && relabelled.l2 == b.l2
      && relabelled.read == b.read && relabelled.write == b.write && relabelled.refill == b.refill
    ensures
      var steered := WithPolicy(b, read, write, refill);
      && Built(steered) && steered.name == b.name && steered.l1 == b.l1 && steered.l2 == b.l2
      && steered.read == read && steered.write == write && steered.refill == refill
    ensures Relabel(b, name).Leaves() == b.Leaves()
  {
  }

  // ----- raw read -----------------------------------------------------------------------

  /** A layer's reply wrapped for the composition's own caller. */
  function Wrapped(layer: CompositionLayer, r: Reply<Bytes>): Reply<Bytes> {
    if Found(r) then
      var raw := r.value.value;
      var envelope := if layer == Layer1 then E.L1(raw) else E.L2(raw);
      Ok(Some(CacheValue(E.Serialize(envelope), raw.expire, raw.stale)))
    else r
  }

  function ValueOf<T>(r: Result<ReadResult<T>, BackendError>): Reply<T> {
    match r
    case Ok(result) => Ok(result.value)
    case Err(e) => Err(e)
  }

  /** `down` are the leaves whose reads fail. */
  function RawRead(b: Backend, key: Key, st: Stores, down: set<LeafId>): Reply<Bytes> {
    match b
    case Simple(id, _, _, _) =>
      if id in down then Err(LeafFailed(id))
      else if Slot(id, key) in st then Ok(Some(st[Slot(id, key)]))
      else Ok(None)
    case Composition(l1, l2, _, read, _, _, _, _, _) =>
      ValueOf(Select(read,
        Wrapped(Layer1, RawRead(l1, key, st, down)), DEFAULT_CONTEXT,
        Wrapped(Layer2, RawRead(l2, key, st, down)), DEFAULT_CONTEXT))
  }

  // ----- raw write ----------------------------------------------------------------------

  type WriteOutcome = (Result<(), BackendError>, Stores)

  /** `down` are the leaves whose writes fail. */
  function RawWrite(b: Backend, key: Key, value: RawValue, st: Stores, down: set<LeafId>): WriteOutcome
    decreases b, 1
  {
    match b
    case Simple(id, _, _, _) =>
      if id in down then (Err(LeafFailed(id)), st) else (Ok(()), st[Slot(id, key) := value])
    case Composition(l1, l2, _, _, _, _, _, _, _) =>
      match E.Deserialize(value.data)
      case Err(_) => (Err(BadEnvelope), st)
      case Ok(L1(only)) => RawWrite(l1, key, only, st, down)
      case Ok(L2(only)) => RawWrite(l2, key, only, st, down)
      case Ok(Both(v1, v2)) => WriteLayers(b, key, v1, v2, st, down)
  }

  /** Both layers under the write policy. */
  function WriteLayers(b: Backend, key: Key, v1: RawValue, v2: RawValue, st: Stores, down: set<LeafId>): WriteOutcome
    requires b.Composition?
    decreases b, 0
  {
    match b.write
    case InOrder =>
      var (r1, st1) := RawWrite(b.l1, key, v1, st, down);
      if r1.Err? then (r1, st1) else RawWrite(b.l2, key, v2, st1, down)
    case Optimistic =>
      var (r1, st1) := RawWrite(b.l1, key, v1, st, down);
      var (r2, st2) := RawWrite(b.l2, key, v2, st1, down);
      (EitherOk(r1, r2), st2)
    case RaceWrite(_, true, _) =>
      var (r1, st1) := RawWrite(b.l1, key, v1, st, down);
      if r1.Ok? && !b.write.LoserRuns() then (r1, st1)
      else
        var (r2, st2) := RawWrite(b.l2, key, v2, st1, down);
        (EitherOk(r1, r2), st2)
    case RaceWrite(_, false, _) =>
      var (r2, st2) := RawWrite(b.l2, key, v2, st, down);
      if r2.Ok? && !b.write.LoserRuns() then (r2, st2)
      else
        var (r1, st1) := RawWrite(b.l1, key, v1, st2, down);
        (EitherOk(r1, r2), st1)
  }

  function EitherOk(r1: Result<(), BackendError>, r2: Result<(), BackendError>): Result<(), BackendError> {
    if r1.Err? && r2.Err? then Err(BothLayersFailed(r1.error, r2.error)) else Ok(())
  }

  // ----- removal ------------------------------------------------------------------------

  type RemoveOutcome = (Result<DeleteStatus, BackendError>, Stores)

  function Combine(r1: Result<DeleteStatus, BackendError>, r2: Result<DeleteStatus,
          BackendError>): Result<DeleteStatus, BackendError> {
    match (r1, r2)
    case (Err(e1), Err(e2)) => Err(BothLayersFailed(e1, e2))
    case (Err(_), Ok(status)) => Ok(status)
    case (Ok(status), Err(_)) => Ok(status)
    case (Ok(Deleted(n1)), Ok(Deleted(n2))) => Ok(Deleted(n1 + n2))
    case (Ok(Deleted(n)), Ok(Missing)) => Ok(Deleted(n))
    case (Ok(Missing), Ok(Deleted(n))) => Ok(Deleted(n))
    case (Ok(Missing), Ok(Missing)) => Ok(Missing)
  }

  function Remove(b: Backend, key: Key, st: Stores, down: set<LeafId>): RemoveOutcome {
    match b
    case Simple(id, _, _, _) =>
      if id in down then (Err(LeafFailed(id)), st)
      else if Slot(id, key) in st then (Ok(Deleted(1)), st - {Slot(id, key)})
      else (Ok(Missing), st)
    case Composition(l1, l2, _, _, _, _, _, _, _) =>
      var (r1, st1) := Remove(l1, key, st, down);
      var (r2, st2) := Remove(l2, key, st1, down);
      (Combine(r1, r2), st2)
  }

  // ----- the untyped path: default get and set ------------------------------------------

  /** `set` as every backend has it by default: a refill never reaches the store. */
  function GenericSet(b: Backend, key: Key, v: CacheValue<Value>, ctx: Context, st: Stores,
          down: set<LeafId>): WriteOutcome {
    if ctx.ReadMode() == Refill then (Ok(()), st)
    else
      match F.Serialize(b.ValueFormat(), v.data, ctx)
      case None => (Err(FormatFailed), st)
      case Some(serialized) =>
        match b.ValueCompressor().Compress(serialized)
        case None => (Err(FormatFailed), st)
        case Some(compressed) => RawWrite(b, key, CacheValue(compressed, v.expire, v.stale), st, down)
  }

  /** Decompresses and decodes what a backend stored or wrapped. */
  function DecodeRaw(b: Backend, data: Bytes, ctx: Context): Option<(Value, Context)> {
    var decompressed :- b.ValueCompressor().Decompress(data);
    F.Deserialize(b.ValueFormat(), decompressed, ctx)
  }

  datatype GetOutcome = GetOutcome(reply: Reply<Value>, ctx: Context, stores: Stores)

  /** `get` as every backend has it by default. */
  function GenericGet(b: Backend, key: Key, ctx: Context, st: Stores, down: set<LeafId>): GetOutcome {
    match RawRead(b, key, st, down)
    case Err(e) => GetOutcome(Err(e), ctx, st)
    case Ok(None) => GetOutcome(Ok(None), ctx, st)
    case Ok(Some(raw)) =>
      match DecodeRaw(b, raw.data, ctx)
      case None => GetOutcome(Err(FormatFailed), ctx, st)
      case Some((v, ctx1)) =>
        var value := CacheValue(v, raw.expire, raw.stale);
        var st1 := if ctx1.ReadMode() == Refill then GenericSet(b, key, value, ctx1, st, down).1 else st;
        GetOutcome(Ok(Some(value)), ctx1.WithStatus(Hit).WithSource(FromBackend(b.name)), st1)
  }

  // ----- the typed path of a composition ------------------------------------------------

  /** One layer's part of a typed get: raw read, then decoding without an envelope of its own. */
  function TypedLayer(b: Backend, layer: CompositionLayer, key: Key, ctx: Context, st: Stores,
          down: set<LeafId>): (Reply<Value>, Context)
    requires b.Composition? && b.format.CompositionFormat?
  {
    TypedReply(b, layer, RawRead(if layer == Layer1 then b.l1 else b.l2, key, st, down), ctx)
  }

  /** What a layer's raw reply is once decoded, on a context of its own. */
  function TypedReply(b: Backend, layer: CompositionLayer, r: Reply<Bytes>, ctx: Context): (Reply<Value>, Context)
    requires b.Composition? && b.format.CompositionFormat?
  {
    var child := if layer == Layer1 then b.l1 else b.l2;
    match r
    case Err(e) => (Err(e), ctx)
    case Ok(None) => (Ok(None), ctx)
    case Ok(Some(raw)) =>
      match F.DeserializeLayer(b.format, layer, raw.data, ctx)
      case None => (Err(FormatFailed), ctx)
      case Some((v, ctx1)) =>
        var source := FromBackend(AnsweredBy(child, ctx1));
        (Ok(Some(CacheValue(v, raw.expire, raw.stale))), ctx1.WithStatus(Hit).WithSource(source))
  }

  /** The label under which a layer's answer is reported before the composition adds its own. */
  function AnsweredBy(child: Backend, ctx: Context): Label {
    if ctx.Upgraded? && ctx.format.CompositionFormat? then ctx.format.LabelForLayer(ctx.layer) else child.name
  }

  /** The caller's context once a layer answered: that layer's status and source, and whether to refill. */
  function AfterHit(b: Backend, source: CompositionLayer, ctx: Context, inner: Context): Context
    requires b.Composition?
  {
    var merged := Merge(ctx, inner, b.name);
    if source == Layer2 && b.refill == Always then merged.WithReadMode(Refill) else merged
  }

  function TypedGet(b: Backend, key: Key, ctx: Context, st: Stores, down: set<LeafId>): GetOutcome
    requires b.Composition? ==> b.format.CompositionFormat?
  {
    match b
    case Simple(_, _, _, _) => GenericGet(b, key, ctx, st, down)
    case Composition(_, _, _, read, _, _, _, _, _) =>
      var (r1, ctx1) := TypedLayer(b, Layer1, key, ctx, st, down);
      var (r2, ctx2) := TypedLayer(b, Layer2, key, ctx, st, down);
      match Select(read, r1, ctx1, r2, ctx2)
      case Err(e) => GetOutcome(Err(e), ctx, st)
      case Ok(result) =>
        if result.value.None? then GetOutcome(Ok(None), ctx, st)
        else
          GetOutcome(Ok(result.value), AfterHit(b, result.source, ctx, result.context), st)
  }

  /** Refill mode fills layer one and passes on to layer two; otherwise both layers are written. */
  function TypedSet(b: Backend, key: Key, v: CacheValue<Value>, ctx: Context, st: Stores,
          down: set<LeafId>): WriteOutcome
    requires Built(b)
  {
    match b
    case Simple(_, _, _, _) => GenericSet(b, key, v, ctx, st, down)
    case Composition(l1, l2, format, _, _, refill, _, _, _) =>
      if ctx.ReadMode() == Refill then
        if refill == Never then (Ok(()), st)
        else
          match F.SerializeLayer1(format, v.data, ctx)
          case None => (Err(FormatFailed), st)
          case Some(first) =>
            var (r1, st1) := RawWrite(l1, key, CacheValue(first, v.expire, v.stale), st, down);
            if r1.Err? then (r1, st1) else TypedSet(l2, key, v, ctx, st1, down)
      else
        match F.SerializeParts(format, v.data, ctx)
        case None => (Err(FormatFailed), st)
        case Some((first, second)) =>
          WriteLayers(b, key, CacheValue(first, v.expire, v.stale), CacheValue(second, v.expire, v.stale), st, down)
  }
}
