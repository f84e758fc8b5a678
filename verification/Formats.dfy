/**
 * The composed format: a value is serialized once per layer and packed into an envelope;
 * reading unpacks one level, descends into the layer's own format and records the layer.
 */
module Formats {
  import opened Wrappers
  import opened Values
  import opened Contexts
  import E = Envelope

  function Bare(data: Bytes): E.RawValue {
    CacheValue(data, None, None)
  }

  function PackBoth(first: Bytes, second: Bytes): Bytes {
    E.Serialize(E.Both(Bare(first), Bare(second)))
  }

  function PackFirst(first: Bytes): Bytes {
    E.Serialize(E.L1(Bare(first)))
  }

  /** A wrapper says its data came from layer two: only layer one is to be filled. */
  predicate RefillWrapper(ctx: Context) {
    ctx.Upgraded? && ctx.ReadMode() == Refill
  }

  /** Nothing when some format or compressor fails. */
  function Serialize(f: Format, v: Value, ctx: Context): Option<Bytes>
    decreases f, 1
  {
    match f
    case LeafFormat(codec) => codec.encode(v)
    case CompositionFormat(_, _, _, _, _, _) =>
      if RefillWrapper(ctx) then
        var first :- SerializeLayer1(f, v, ctx);
        Some(PackFirst(first))
      else
        var (first, second) :- SerializeParts(f, v, ctx);
        Some(PackBoth(first, second))
  }

  /** The bytes for layer one alone. */
  function SerializeLayer1(f: Format, v: Value, ctx: Context): Option<Bytes>
    requires f.CompositionFormat?
    decreases f, 0
  {
    var serialized :- Serialize(f.l1Format, v, ctx);
    f.l1Compressor.Compress(serialized)
  }

  /** The bytes for both layers; equal format identifiers let layer two reuse layer one's serialization. */
  function SerializeParts(f: Format, v: Value, ctx: Context): Option<(Bytes, Bytes)>
    requires f.CompositionFormat?
    decreases f, 0
  {
    var serialized1 :- Serialize(f.l1Format, v, ctx);
    var first :- f.l1Compressor.Compress(serialized1);
    var serialized2 :- if f.SameFormat() then Some(serialized1) else Serialize(f.l2Format, v, ctx);
    var second :- f.l2Compressor.Compress(serialized2);
    Some((first, second))
  }

  /** The decoded value and the context, wrapped once per composed format on the way out. */
  function Deserialize(f: Format, data: Bytes, ctx: Context): Option<(Value, Context)>
    decreases f, 1
  {
    match f
    case LeafFormat(codec) =>
      var v :- codec.decode(data);
      Some((v, ctx))
    case CompositionFormat(_, _, _, _, _, _) =>
      match E.Deserialize(data)
      case Err(_) => None
      case Ok(envelope) =>
        var layer := if envelope.L2? then Layer2 else Layer1;
        var (v, inner) :- DeserializeLayer(f, layer, E.First(envelope).data, ctx);
        Some((v, Upgraded(inner, layer, f)))
  }

  /** Decompresses and decodes one layer's bytes, without an envelope and without a wrapper of its own. */
  function DeserializeLayer(f: Format, layer: CompositionLayer, data: Bytes, ctx: Context): Option<(Value, Context)>
    requires f.CompositionFormat?
    decreases f, 0
  {
    match layer
    case Layer1 =>
      var d :- f.l1Compressor.Decompress(data);
      Deserialize(f.l1Format, d, ctx)
    case Layer2 =>
      var d :- f.l2Compressor.Decompress(data);
      Deserialize(f.l2Format, d, ctx)
  }

  ghost predicate LawfulCodec(c: Codec) {
    forall v :: c.encode(v).Some? ==> c.decode(c.encode(v).value) == Some(v)
  }

  /** Every codec and compressor in the format decodes what it encoded. */
  ghost predicate Lawful(f: Format) {
    match f
    case LeafFormat(codec) => LawfulCodec(codec)
    case CompositionFormat(f1, f2, c1, c2, _, _) => Lawful(f1) && Lawful(f2) && c1.Lawful() && c2.Lawful()
  }

  lemma UnpackBoth(first: Bytes, second: Bytes)
    requires |first| < E.U32_CAPACITY && |second| < E.U32_CAPACITY
    ensures E.Deserialize(PackBoth(first, second)).Ok?
    ensures var e := E.Deserialize(PackBoth(first, second)).value;
            e.Both? && e.l1 == Bare(first) && e.l2 == Bare(second)
  {
    E.EnvelopeRoundTrip(E.Both(Bare(first), Bare(second)));
  }

  lemma UnpackFirst(first: Bytes)
    requires |first| < E.U32_CAPACITY
    ensures E.Deserialize(PackFirst(first)) == Ok(E.L1(Bare(first)))
  {
    E.EnvelopeRoundTrip(E.L1(Bare(first)));
  }

  /** Every compressed layer of the value fits the envelope's length fields. */
  predicate Packable(f: Format, v: Value, ctx: Context) {
    match f
    case LeafFormat(_) => true
    case CompositionFormat(f1, f2, _, _, _, _) =>
      && Packable(f1, v, ctx) && Packable(f2, v, ctx)
      && (var first := SerializeLayer1(f, v, ctx); first.Some? ==> |first.value| < E.U32_CAPACITY)
      && (var parts := SerializeParts(f, v, ctx); parts.Some? ==> |parts.value.1| < E.U32_CAPACITY)
  }

  /** The first layer all the way down: what reading a freshly serialized value records. */
  function FirstLayerStack(f: Format, ctx: Context): Context {
    match f
    case LeafFormat(_) => ctx
    case CompositionFormat(f1, _, _, _, _, _) => Upgraded(FirstLayerStack(f1, ctx), Layer1, f)
  }

  /** Decoding an opened envelope is decoding the layer it holds. */
  lemma OpenedDecodesLayer(f: Format, packed: Bytes, layer: CompositionLayer, data: Bytes, ctx: Context)
    requires f.CompositionFormat? && E.Deserialize(packed).Ok?
    requires E.Deserialize(packed).value.L2? == (layer == Layer2)
    requires E.First(E.Deserialize(packed).value).data == data
    ensures var inner := DeserializeLayer(f, layer, data, ctx);
            Deserialize(f, packed, ctx) == if inner.None? then None
              else Some((inner.value.0, Upgraded(inner.value.1, layer, f)))
  {
  }

  lemma FirstLayerOpens(f: Format, v: Value, ctx: Context, packed: Bytes, first: Bytes)
    requires f.CompositionFormat? && Packable(f, v, ctx)
    requires Serialize(f, v, ctx) == Some(packed) && SerializeLayer1(f, v, ctx) == Some(first)
    ensures E.Deserialize(packed).Ok? && !E.Deserialize(packed).value.L2?
    ensures E.First(E.Deserialize(packed).value).data == first
  {
    if RefillWrapper(ctx) {
      UnpackFirst(first);
    } else {
      UnpackBoth(first, SerializeParts(f, v, ctx).value.1);
    }
  }

  /** A value serialized under any context, refilling or not, is read back from the first layers. */
  lemma {:induction false} FormatRoundTrip(f: Format, v: Value, ctx: Context, reader: Context)
    requires Lawful(f) && Packable(f, v, ctx)
    requires Serialize(f, v, ctx).Some?
    ensures Deserialize(f, Serialize(f, v, ctx).value, reader) == Some((v, FirstLayerStack(f, reader)))
  {
    if f.CompositionFormat? {
      FormatRoundTrip(f.l1Format, v, ctx, reader);
      var packed := Serialize(f, v, ctx).value;
      var first := SerializeLayer1(f, v, ctx).value;
      FirstLayerOpens(f, v, ctx, packed, first);
      OpenedDecodesLayer(f, packed, Layer1, first, reader);
      assert f.l1Compressor.Decompress(first) == Serialize(f.l1Format, v, ctx);
    }
  }
}
