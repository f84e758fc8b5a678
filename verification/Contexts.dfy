/**
 * Value formats and compressors as abstract codecs, and the operation context that travels
 * with a request: a plain record, wrapped once per composition that decoded the data.
 */
module Contexts {
  import opened Wrappers
  import opened Values

  /** The application's cached type; nothing is assumed about it. */
  type Value(!new)

  type Label = string

  datatype FormatTypeId = Json | Bincode | Ron | Rkyv | Custom(name: string)

  const COMPOSITION_ID := Custom("composition")

  /** A leaf format; either direction may fail. */
  datatype Codec = Codec(typeId: FormatTypeId, encode: Value -> Option<Bytes>, decode: Bytes -> Option<Value>)

  datatype Compressor =
    | Passthrough
    | Compressing(deflate: Bytes -> Option<Bytes>, inflate: Bytes -> Option<Bytes>)
  {
    function Compress(b: Bytes): Option<Bytes> {
      if Passthrough? then Some(b) else deflate(b)
    }

    function Decompress(b: Bytes): Option<Bytes> {
      if Passthrough? then Some(b) else inflate(b)
    }

    ghost predicate Lawful() {
      forall b :: Compress(b).Some? ==> Decompress(Compress(b).value) == Some(b)
    }
  }

  /** The format of a backend; the composed one captures those of both layers. */
  datatype Format =
    | LeafFormat(codec: Codec)
    | CompositionFormat(l1Format: Format, l2Format: Format,
                        l1Compressor: Compressor, l2Compressor: Compressor,
                        l1Label: Label, l2Label: Label)
  {
    function TypeId(): FormatTypeId {
      if LeafFormat? then codec.typeId else COMPOSITION_ID
    }

    /** Compares identifiers only, never the codecs behind them. */
    predicate SameFormat()
      requires CompositionFormat?
    {
      l1Format.TypeId() == l2Format.TypeId()
    }

    function LabelForLayer(layer: CompositionLayer): Label
      requires CompositionFormat?
    {
      if layer == Layer1 then l1Label else l2Label
    }
  }

  datatype CompositionLayer = Layer1 | Layer2

  datatype CacheStatus = Hit | Miss | StaleHit

  datatype ResponseSource = Upstream | FromBackend(name: Label)

  datatype ReadMode = Direct | Refill

  /** `Upgraded` is the composition context: it reports its own read mode and delegates the rest. */
  datatype Context =
    | Plain(status: CacheStatus, mode: ReadMode, source: ResponseSource)
    | Upgraded(inner: Context, layer: CompositionLayer, format: Format)
  {
    function Status(): CacheStatus {
      if Plain? then status else inner.Status()
    }

    function Source(): ResponseSource {
      if Plain? then source else inner.Source()
    }

    function ReadMode(): ReadMode {
      if Plain? then mode else if layer == Layer2 then Refill else Direct
    }

    function WithStatus(s: CacheStatus): Context {
      if Plain? then this.(status := s) else this.(inner := inner.WithStatus(s))
    }

    function WithSource(s: ResponseSource): Context {
      if Plain? then this.(source := s) else this.(inner := inner.WithSource(s))
    }

    function WithReadMode(m: ReadMode): Context {
      if Plain? then this.(mode := m) else this.(inner := inner.WithReadMode(m))
    }

    /** The record that is left when the request is over. */
    function Finalize(): Context {
      if Plain? then this else inner.Finalize()
    }

    /** Layers from the outermost wrapper inwards. */
    function Layers(): seq<CompositionLayer> {
      if Plain? then [] else [layer] + inner.Layers()
    }
  }

  const DEFAULT_CONTEXT := Plain(Miss, Direct, Upstream)

  function Compose(prefix: Label, suffix: Label): Label {
    prefix + "." + suffix
  }

  /** Takes over a hit's status and its source, prefixed. */
  function Merge(ctx: Context, other: Context, prefix: Label): Context {
    var merged := if other.Status() == Miss then ctx else ctx.WithStatus(other.Status());
    match other.Source()
    case FromBackend(name) => merged.WithSource(FromBackend(Compose(prefix, name)))
    case Upstream => merged
  }

  /** What a setter writes is what a getter and the finished record show, under any wrappers. */
  lemma {:induction false} SettersReachTheRecord(ctx: Context, s: CacheStatus, src: ResponseSource, m: ReadMode)
    ensures ctx.WithStatus(s).Status() == s && ctx.WithStatus(s).Source() == ctx.Source()
    ensures ctx.WithSource(src).Source() == src && ctx.WithSource(src).Status() == ctx.Status()
    ensures ctx.WithReadMode(m).Status() == ctx.Status() && ctx.WithReadMode(m).Source() == ctx.Source()
    ensures ctx.Finalize().Plain? && ctx.Finalize().Status() == ctx.Status() && ctx.Finalize().Source() == ctx.Source()
    ensures ctx.WithReadMode(m).Finalize().ReadMode() == m
    ensures ctx.WithStatus(s).Layers() == ctx.Layers() && ctx.WithSource(src).Layers() == ctx.Layers()
    ensures ctx.WithReadMode(m).Layers() == ctx.Layers()
  {
    if ctx.Upgraded? {
      SettersReachTheRecord(ctx.inner, s, src, m);
    }
  }

  /** A merge takes over any hit, stale or not, and any backend, prefixed; under any wrappers on either side. */
  lemma MergeTakesOver(ctx: Context, other: Context, prefix: Label)
    ensures
      var merged := Merge(ctx, other, prefix);
      && merged.Status() == (if other.Status() == Miss then ctx.Status() else other.Status())
      && merged.Source() == (if other.Source().Upstream? then ctx.Source()
                             else FromBackend(prefix + "." + other.Source().name))
      && merged.Layers() == ctx.Layers() && merged.ReadMode() == ctx.ReadMode()
  {
    SettersReachTheRecord(ctx, other.Status(), ctx.Source(), Direct);
    var merged := if other.Status() == Miss then ctx else ctx.WithStatus(other.Status());
    match other.Source() {
      case FromBackend(name) => SettersReachTheRecord(merged, Hit, FromBackend(Compose(prefix, name)), Direct);
      case Upstream =>
    }
  }

  /** The mutable box operations hold: its setters write through, an upgrade swaps it for a wrapper. */
  class BoxContext {
    var held: Context

    constructor (ctx: Context)
      ensures held == ctx
    {
      held := ctx;
    }

    method SetStatus(s: CacheStatus)
      modifies this
      ensures held == old(held).WithStatus(s)
    {
      held := held.WithStatus(s);
    }

    method SetSource(s: ResponseSource)
      modifies this
      ensures held == old(held).WithSource(s)
    {
      held := held.WithSource(s);
    }

    method SetReadMode(m: ReadMode)
      modifies this
      ensures held == old(held).WithReadMode(m)
      ensures held.Finalize().ReadMode() == m && held.Layers() == old(held.Layers())
      ensures held.Status() == old(held.Status()) && held.Source() == old(held.Source())
      ensures held.ReadMode() == if old(held).Plain? then m else old(held.ReadMode())
    {
      SettersReachTheRecord(held, Hit, Upstream, m);
      held := held.WithReadMode(m);
    }

    method MergeFrom(other: Context, prefix: Label)
      modifies this
      ensures held == Merge(old(held), other, prefix)
    {
      var innerStatus := other.Status();
      if innerStatus == Hit || innerStatus == StaleHit {
        SetStatus(innerStatus);
      }
      match other.Source() {
        case FromBackend(name) => SetSource(FromBackend(Compose(prefix, name)));
        case Upstream =>
      }
    }

    method Upgrade(layer: CompositionLayer, format: Format)
      modifies this
      ensures held == Upgraded(old(held), layer, format)
    {
      var inner := held;
      held := DEFAULT_CONTEXT;
      held := Upgraded(inner, layer, format);
    }
  }
}
