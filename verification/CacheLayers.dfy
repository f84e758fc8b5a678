/**
 * The operations as they run: stores and the request's context are updated in place, one layer
 * after the other.  Each method is tied to the function of the same operation.
 */
module CacheLayers {
  import opened Wrappers
  import opened Values
  import opened Contexts
  import opened Policies
  import opened Backends
  import W = Writes
  import S = Sets
  import D = Deletes
  import R = Refills
  import F = Formats
  import E = Envelope

  lemma SetDelivers(b: Backend, key: Key, v: CacheValue<Value>, ctx: Context, st: Stores, down: set<LeafId>)
    ensures
      Built(b) && Separate(b) && S.CoherentOn(b, v.data) && W.PayloadsFit(b, v.data)
      && ctx.ReadMode() == Direct && W.OwnPayload(b, v.data).Some? ==>
        W.Delivers(b, W.TargetsOf(b, key, v.data, v.expire, v.stale), st, down, GenericSet(b, key, v, ctx, st, down))
  {
    if Built(b) && Separate(b) && S.CoherentOn(b, v.data) && W.PayloadsFit(b, v.data) && ctx.ReadMode() == Direct {
      S.GenericSetDelivers(b, key, v, ctx, st, down);
    }
  }

  lemma DeleteReports(b: Backend, key: Key, st: Stores, down: set<LeafId>)
    ensures
      var (r, st') := Remove(b, key, st, down);
      Separate(b) ==>
        && D.Removed(b, key, st, st', down)
        && D.Reported(r, b.Leaves() <= down, |D.Holders(b, key, st, down)|)
  {
    if Separate(b) {
      D.DeleteCountsHolders(b, key, st, down);
    }
  }

  lemma RefillReports(b: Backend, key: Key, v: CacheValue<Value>, ctx: Context, st: Stores, down: set<LeafId>)
    requires Built(b)
    ensures
      var out := TypedSet(b, key, v, ctx, st, down);
      Separate(b) && ctx.ReadMode() == Refill && R.RefillFits(b, v.data, ctx) ==>
        && W.Landed(R.RefillTargets(b, key, v), st, out.1)
        && (out.0.Ok? ==> R.SpineLanded(b, key, v, out.1))
  {
    if Separate(b) && ctx.ReadMode() == Refill && R.RefillFits(b, v.data, ctx) {
      R.RefillLands(b, key, v, ctx, st, down);
    }
  }

  class Layers {
    var stores: Stores

    constructor ()
      ensures stores == map[]
    {
      stores := map[];
    }

    // ----- the backend interface --------------------------------------------------------

    method Read(b: Backend, key: Key, down: set<LeafId>) returns (reply: Reply<Bytes>)
      ensures reply == RawRead(b, key, stores, down)
      decreases b
    {
      match b {
        case Simple(id, _, _, _) =>
          if id in down {
            return Err(LeafFailed(id));
          }
          reply := Ok(if Slot(id, key) in stores then Some(stores[Slot(id, key)]) else None);
        case Composition(l1, l2, _, read, _, _, _, _, _) =>
          var r1 := Read(l1, key, down);
          var w1 := Wrapped(Layer1, r1);
          if read == Sequential && Found(w1) {
            return w1;
          }
          var r2 := Read(l2, key, down);
          var w2 := Wrapped(Layer2, r2);
          reply := ValueOf(Select(read, w1, DEFAULT_CONTEXT, w2, DEFAULT_CONTEXT));
      }
    }

    method Write(b: Backend, key: Key, value: RawValue, down: set<LeafId>) returns (result: Result<(), BackendError>)
      modifies this
      ensures (result, stores) == RawWrite(b, key, value, old(stores), down)
      decreases b, 1
    {
      match b {
        case Simple(id, _, _, _) =>
          if id in down {
            return Err(LeafFailed(id));
          }
          stores := stores[Slot(id, key) := value];
          result := Ok(());
        case Composition(l1, l2, _, _, _, _, _, _, _) =>
          match E.Deserialize(value.data) {
            case Err(_) => result := Err(BadEnvelope);
            case Ok(L1(only)) => result := Write(l1, key, only, down);
            case Ok(L2(only)) => result := Write(l2, key, only, down);
            case Ok(Both(v1, v2)) => result := WriteBoth(b, key, v1, v2, down);
          }
      }
    }

    method WriteBoth(b: Backend, key: Key, v1: RawValue, v2: RawValue,
            down: set<LeafId>) returns (result: Result<(), BackendError>)
      requires b.Composition?
      modifies this
      ensures (result, stores) == WriteLayers(b, key, v1, v2, old(stores), down)
      decreases b, 0
    {
      if W.Layer2First(b.write) {
        var r2 := Write(b.l2, key, v2, down);
        if r2.Ok? && !b.write.LoserRuns() {
          return r2;
        }
        var r1 := Write(b.l1, key, v1, down);
        return EitherOk(r1, r2);
      }
      var r1 := Write(b.l1, key, v1, down);
      if b.write == InOrder && r1.Err? {
        return r1;
      }
      if b.write.RaceWrite? && r1.Ok? && !b.write.LoserRuns() {
        return r1;
      }
      var r2 := Write(b.l2, key, v2, down);
      result := if b.write == InOrder then r2 else EitherOk(r1, r2);
    }

    method Delete(b: Backend, key: Key, down: set<LeafId>) returns (result: Result<DeleteStatus, BackendError>)
      modifies this
      ensures (result, stores) == Remove(b, key, old(stores), down)
      ensures Separate(b) ==>
        D.Removed(b, key, old(stores), stores, down)
        && D.Reported(result, b.Leaves() <= down, |D.Holders(b, key, old(stores), down)|)
      decreases b
    {
      DeleteReports(b, key, stores, down);
      match b {
        case Simple(id, _, _, _) =>
          if id in down {
            return Err(LeafFailed(id));
          }
          if Slot(id, key) !in stores {
            return Ok(Missing);
          }
          stores := stores - {Slot(id, key)};
          result := Ok(Deleted(1));
        case Composition(l1, l2, _, _, _, _, _, _, _) =>
          var r1 := Delete(l1, key, down);
          var r2 := Delete(l2, key, down);
          result := Combine(r1, r2);
      }
    }

    // ----- the untyped path -------------------------------------------------------------

    method Set(b: Backend, key: Key, v: CacheValue<Value>, ctx: BoxContext,
            down: set<LeafId>) returns (result: Result<(), BackendError>)
      modifies this
      ensures (result, stores) == GenericSet(b, key, v, ctx.held, old(stores), down)
      ensures
        Built(b) && Separate(b) && S.CoherentOn(b, v.data) && W.PayloadsFit(b, v.data)
        && ctx.held.ReadMode() == Direct && W.OwnPayload(b, v.data).Some? ==>
          W.Delivers(b, W.TargetsOf(b, key, v.data, v.expire, v.stale), old(stores), down, (result, stores))
    {
      SetDelivers(b, key, v, ctx.held, stores, down);
      if ctx.held.ReadMode() == Refill {
        return Ok(());
      }
      var serialized := F.Serialize(b.ValueFormat(), v.data, ctx.held);
      if serialized.None? {
        return Err(FormatFailed);
      }
      var compressed := b.ValueCompressor().Compress(serialized.value);
      if compressed.None? {
        return Err(FormatFailed);
      }
      result := Write(b, key, CacheValue(compressed.value, v.expire, v.stale), down);
    }

    method Get(b: Backend, key: Key, ctx: BoxContext, down: set<LeafId>) returns (reply: Reply<Value>)
      modifies this, ctx
      ensures GetOutcome(reply, ctx.held, stores) == GenericGet(b, key, old(ctx.held), old(stores), down)
    {
      var raw := Read(b, key, down);
      if raw.Err? {
        return Err(raw.error);
      }
      if raw.value.None? {
        return Ok(None);
      }
      var decoded := DecodeRaw(b, raw.value.value.data, ctx.held);
      if decoded.None? {
        return Err(FormatFailed);
      }
      ctx.held := decoded.value.1;
      var value := CacheValue(decoded.value.0, raw.value.value.expire, raw.value.value.stale);
      if ctx.held.ReadMode() == Refill {
        var _ := Set(b, key, value, ctx, down);
      }
      ctx.SetStatus(Hit);
      ctx.SetSource(FromBackend(b.name));
      reply := Ok(Some(value));
    }

    // ----- the typed path ---------------------------------------------------------------

    /** One layer's read on a private copy of the caller's context. */
    method ReadTypedLayer(b: Backend, layer: CompositionLayer, key: Key, outer: Context, down: set<LeafId>)
      returns (reply: Reply<Value>, inner: BoxContext)
      requires b.Composition? && b.format.CompositionFormat?
      ensures fresh(inner)
      ensures (reply, inner.held) == TypedLayer(b, layer, key, outer, stores, down)
    {
      inner := new BoxContext(outer);
      var child := if layer == Layer1 then b.l1 else b.l2;
      var raw := Read(child, key, down);
      if raw.Err? {
        reply := Err(raw.error);
      } else if raw.value.None? {
        reply := Ok(None);
      } else {
        var decoded := F.DeserializeLayer(b.format, layer, raw.value.value.data, inner.held);
        if decoded.None? {
          reply := Err(FormatFailed);
        } else {
          inner.held := decoded.value.1;
          var source := AnsweredBy(child, inner.held);
          inner.SetStatus(Hit);
          inner.SetSource(FromBackend(source));
          reply := Ok(Some(CacheValue(decoded.value.0, raw.value.value.expire, raw.value.value.stale)));
        }
      }
    }

    method GetTyped(b: Backend, key: Key, ctx: BoxContext, down: set<LeafId>) returns (reply: Reply<Value>)
      requires b.Composition? ==> b.format.CompositionFormat?
      modifies this, ctx
      ensures GetOutcome(reply, ctx.held, stores) == TypedGet(b, key, old(ctx.held), old(stores), down)
    {
      if b.Simple? {
        reply := Get(b, key, ctx, down);
        return;
      }
      var r1, ctx1 := ReadTypedLayer(b, Layer1, key, ctx.held, down);
      var r2, ctx2 := ReadTypedLayer(b, Layer2, key, ctx.held, down);
      var selected := Select(b.read, r1, ctx1.held, r2, ctx2.held);
      if selected.Err? {
        return Err(selected.error);
      }
      var result := selected.value;
      if result.value.Some? {
        ctx.MergeFrom(result.context, b.name);
        if result.source == Layer2 && b.refill == Always {
          ctx.SetReadMode(Refill);
        }
      }
      reply := Ok(result.value);
    }

    method SetTyped(b: Backend, key: Key, v: CacheValue<Value>, ctx: BoxContext,
            down: set<LeafId>) returns (result: Result<(), BackendError>)
      requires Built(b)
      modifies this
      ensures (result, stores) == TypedSet(b, key, v, ctx.held, old(stores), down)
      ensures
        Separate(b) && ctx.held.ReadMode() == Refill && R.RefillFits(b, v.data, ctx.held) ==>
          && W.Landed(R.RefillTargets(b, key, v), old(stores), stores)
          && (result.Ok? ==> R.SpineLanded(b, key, v, stores))
      decreases b
    {
      RefillReports(b, key, v, ctx.held, stores, down);
      if b.Simple? {
        result := Set(b, key, v, ctx, down);
        return;
      }
      if ctx.held.ReadMode() == Refill {
        if b.refill == Never {
          return Ok(());
        }
        var first := F.SerializeLayer1(b.format, v.data, ctx.held);
        if first.None? {
          return Err(FormatFailed);
        }
        result := Write(b.l1, key, CacheValue(first.value, v.expire, v.stale), down);
        if result.Ok? {
          result := SetTyped(b.l2, key, v, ctx, down);
        }
        return;
      }
      var parts := F.SerializeParts(b.format, v.data, ctx.held);
      if parts.None? {
        return Err(FormatFailed);
      }
      var (first, second) := parts.value;
      result := WriteBoth(b, key, CacheValue(first, v.expire, v.stale), CacheValue(second, v.expire, v.stale), down);
    }
  }
}
