/**
 * Reusing layer one's serialization for layer two compares format identifiers only, and every
 * composition reports the same one.  Here: exactly when that misplaces bytes.
 */
module Coherence {
  import opened Wrappers
  import opened Values
  import opened Contexts
  import opened Policies
  import opened Backends
  import opened Writes
  import opened Sets
  import opened RoundTrips
  import F = Formats
  import E = Envelope

  /** A payload as the envelopes in it nest. */
  datatype Packet = Raw(bytes: Bytes) | Pair(first: Packet, second: Packet)

  function Flatten(p: Packet): Bytes {
    match p
    case Raw(bytes) => bytes
    case Pair(first, second) => F.PackBoth(Flatten(first), Flatten(second))
  }

  /** Inner lengths fit the header, and no leaf's bytes can be taken for an envelope. */
  predicate Clean(p: Packet) {
    match p
    case Raw(bytes) => E.Deserialize(bytes).Err?
    case Pair(first, second) =>
      && Clean(first) && Clean(second)
      && |Flatten(first)| < E.U32_CAPACITY && |Flatten(second)| < E.U32_CAPACITY
  }

  /** The packet a format and compressor send for `v` outside refills. */
  function Sent(f: Format, c: Compressor, v: Value): Option<Packet> {
    if f.LeafFormat? || !c.Passthrough? then
      var serialized :- F.Serialize(f, v, DEFAULT_CONTEXT);
      var bytes :- c.Compress(serialized);
      Some(Raw(bytes))
    else
      var first :- Sent(f.l1Format, f.l1Compressor, v);
      var second :- Sent(if f.SameFormat() then f.l1Format else f.l2Format, f.l2Compressor, v);
      Some(Pair(first, second))
  }

  lemma {:induction false} SentIsSerialized(f: Format, c: Compressor, v: Value)
    ensures var serialized := F.Serialize(f, v, DEFAULT_CONTEXT);
            var bytes := if serialized.None? then None else c.Compress(serialized.value);
            (Sent(f, c, v).Some? <==> bytes.Some?) && (bytes.Some? ==> Flatten(Sent(f, c, v).value) == bytes.value)
  {
    if f.CompositionFormat? && c.Passthrough? {
      SentIsSerialized(f.l1Format, f.l1Compressor, v);
      SentIsSerialized(if f.SameFormat() then f.l1Format else f.l2Format, f.l2Compressor, v);
      assert F.Serialize(f, v, DEFAULT_CONTEXT).Some? <==> F.SerializeParts(f, v, DEFAULT_CONTEXT).Some?;
    }
  }

  /** Each leaf holds its own encoding of `v`, whatever the instants. */
  predicate AllOwn(b: Backend, key: Key, v: Value, st: Stores) {
    match b
    case Simple(id, _, _, _) => Slot(id, key) in st && Some(st[Slot(id, key)].data) == OwnPayload(b, v)
    case Composition(l1, l2, _, _, _, _, _, _, _) => AllOwn(l1, key, v, st) && AllOwn(l2, key, v, st)
  }

  lemma {:induction false} AllOwnNeedsAllSlots(b: Backend, key: Key, v: Value, st: Stores)
    requires AllOwn(b, key, v, st)
    ensures forall id :: id in b.Leaves() ==> Slot(id, key) in st
    ensures OwnPayload(b, v).Some?
    ensures b.Leaves() != {}
  {
    if b.Composition? {
      AllOwnNeedsAllSlots(b.l1, key, v, st);
      AllOwnNeedsAllSlots(b.l2, key, v, st);
    }
  }

  lemma {:induction false} AllOwnDependsOnSlots(b: Backend, key: Key, v: Value, st: Stores, st': Stores)
    requires forall id :: id in b.Leaves() ==> Same(st, st', Slot(id, key))
    ensures AllOwn(b, key, v, st) <==> AllOwn(b, key, v, st')
  {
    match b {
      case Simple(id, _, _, _) => assert id in b.Leaves() && Same(st, st', Slot(id, key));
      case Composition(l1, l2, _, _, _, _, _, _, _) =>
        AllOwnDependsOnSlots(l1, key, v, st, st');
        AllOwnDependsOnSlots(l2, key, v, st, st');
    }
  }

  lemma RawWriteUnpacks(b: Backend, key: Key, first: Bytes, second: Bytes, value: RawValue, st: Stores,
          down: set<LeafId>)
    requires b.Composition? && |first| < E.U32_CAPACITY && |second| < E.U32_CAPACITY
    requires value.data == F.PackBoth(first, second)
    ensures RawWrite(b, key, value, st, down) == WriteLayers(b, key, F.Bare(first), F.Bare(second), st, down)
  {
    F.UnpackBoth(first, second);
  }

  lemma UnopenedPayloadIsLost(b: Backend, key: Key, v: Value, value: RawValue, st: Stores)
    requires b.Composition? && E.Deserialize(value.data).Err? && Absent(b, key, st)
    ensures !AllOwn(b, key, v, RawWrite(b, key, value, st, {}).1)
  {
    LeavesExist(b);
    var some :| some in b.Leaves();
    assert Slot(some, key) !in st;
    if AllOwn(b, key, v, st) {
      AllOwnNeedsAllSlots(b, key, v, st);
    }
  }

  /** If a packet put every leaf's own encoding in place, it was the tree's own payload. */
  lemma {:induction false} OnlyOwnPayloadDelivers(b: Backend, key: Key, v: Value, p: Packet, value: RawValue,
          st: Stores)
    requires Separate(b) && Clean(p) && value.data == Flatten(p) && Absent(b, key, st)
    requires AllOwn(b, key, v, RawWrite(b, key, value, st, {}).1)
    ensures OwnPayload(b, v) == Some(Flatten(p))
    decreases b, 1
  {
    if b.Composition? {
      match p {
        case Raw(_) => UnopenedPayloadIsLost(b, key, v, value, st);
        case Pair(p1, p2) =>
          RawWriteUnpacks(b, key, Flatten(p1), Flatten(p2), value, st, {});
          PairDelivers(b, key, v, p1, p2, F.Bare(Flatten(p1)), F.Bare(Flatten(p2)), st);
      }
    }
  }

  lemma {:induction false} PairDelivers(b: Backend, key: Key, v: Value, p1: Packet, p2: Packet, v1: RawValue,
          v2: RawValue, st: Stores)
    requires b.Composition? && Separate(b) && Clean(p1) && Clean(p2) && Absent(b, key, st)
    requires v1.data == Flatten(p1) && v2.data == Flatten(p2)
    requires AllOwn(b, key, v, WriteLayers(b, key, v1, v2, st, {}).1)
    ensures OwnPayload(b.l1, v) == Some(Flatten(p1)) && OwnPayload(b.l2, v) == Some(Flatten(p2))
    decreases b, 0
  {
    WriteLayersSettles(b, key, v1, v2, st, {});
    if Layer2First(b.write) {
      var first := RawWrite(b.l2, key, v2, st, {});
      SecondWriteHappened(b, b.l2, b.l1, key, v, v2, v1, st);
      OnlyOwnPayloadDelivers(b.l2, key, v, p2, v2, st);
      OnlyOwnPayloadDelivers(b.l1, key, v, p1, v1, first.1);
    } else {
      var first := RawWrite(b.l1, key, v1, st, {});
      SecondWriteHappened(b, b.l1, b.l2, key, v, v1, v2, st);
      OnlyOwnPayloadDelivers(b.l1, key, v, p1, v1, st);
      OnlyOwnPayloadDelivers(b.l2, key, v, p2, v2, first.1);
    }
  }

  /** Every leaf can only have its own encoding if both writes happened, each in its own layer. */
  lemma SecondWriteHappened(b: Backend, a: Backend, c: Backend, key: Key, v: Value, va: RawValue, vc: RawValue,
          st: Stores)
    requires b.Composition? && a.Leaves() !! c.Leaves() && Absent(c, key, st)
    requires
      var first := RawWrite(a, key, va, st, {});
      var out := Settled(b.write, first, RawWrite(c, key, vc, first.1, {})).1;
      AllOwn(a, key, v, out) && AllOwn(c, key, v, out)
    ensures
      var first := RawWrite(a, key, va, st, {});
      && Absent(c, key, first.1)
      && AllOwn(a, key, v, first.1) && AllOwn(c, key, v, RawWrite(c, key, vc, first.1, {}).1)
  {
    var first := RawWrite(a, key, va, st, {});
    var second := RawWrite(c, key, vc, first.1, {});
    RawWriteStaysInside(a, key, va, st, {});
    RawWriteStaysInside(c, key, vc, first.1, {});
    forall id | id in c.Leaves()
      ensures Slot(id, key) !in first.1
    {
      assert Same(st, first.1, Slot(id, key));
    }
    LeavesExist(c);
    AllOwnNeedsAllSlots(c, key, v, Settled(b.write, first, second).1);
    var some :| some in c.Leaves();
    assert Slot(some, key) !in first.1;
    forall id | id in a.Leaves()
      ensures Same(first.1, second.1, Slot(id, key))
    {
    }
    AllOwnDependsOnSlots(a, key, v, first.1, second.1);
  }

  // ----- exactly when reuse is harmless ---------------------------------------------------

  lemma PackBothInjective(a1: Bytes, a2: Bytes, c1: Bytes, c2: Bytes)
    requires |a1| < E.U32_CAPACITY && |a2| < E.U32_CAPACITY && |c1| < E.U32_CAPACITY && |c2| < E.U32_CAPACITY
    ensures F.PackBoth(a1, a2) == F.PackBoth(c1, c2) <==> a1 == c1 && a2 == c2
  {
    F.UnpackBoth(a1, a2);
    F.UnpackBoth(c1, c2);
  }

  ghost predicate LawfulCompressors(b: Backend) {
    b.ValueCompressor().Lawful() && (b.Composition? ==> LawfulCompressors(b.l1) && LawfulCompressors(b.l2))
  }

  lemma OwnBytesAreOwnParts(b: Backend, v: Value)
    requires Built(b) && b.Composition? && OwnPayload(b, v).Some? && PayloadsFit(b, v)
    requires F.Packable(b.format, v, DEFAULT_CONTEXT)
    ensures OwnPayload(b.l1, v).Some? && OwnPayload(b.l2, v).Some?
    ensures F.Serialize(b.format, v, DEFAULT_CONTEXT) == OwnSerial(b, v) <==>
            F.SerializeParts(b.format, v, DEFAULT_CONTEXT) ==
              Some((OwnPayload(b.l1, v).value, OwnPayload(b.l2, v).value))
  {
    assert OwnSerial(b, v).Some?;
    var parts := F.SerializeParts(b.format, v, DEFAULT_CONTEXT);
    if parts.Some? {
      PackBothInjective(parts.value.0, parts.value.1, OwnPayload(b.l1, v).value, OwnPayload(b.l2, v).value);
    }
  }

  /** The composed format produces the leaves' own encodings if and only if the tree is coherent on the value. */
  lemma {:induction false} OwnBytesIffCoherent(b: Backend, v: Value)
    requires Built(b) && LawfulCompressors(b) && OwnPayload(b, v).Some? && PayloadsFit(b, v)
    requires F.Packable(b.ValueFormat(), v, DEFAULT_CONTEXT)
    ensures F.Serialize(b.ValueFormat(), v, DEFAULT_CONTEXT) == OwnSerial(b, v) <==> CoherentOn(b, v)
    decreases b, 1
  {
    if CoherentOn(b, v) {
      CoherentSerialization(b, v, DEFAULT_CONTEXT);
    } else {
      OwnBytesAreOwnParts(b, v);
      if F.Serialize(b.ValueFormat(), v, DEFAULT_CONTEXT) == OwnSerial(b, v) {
        assert F.Packable(b.format.l1Format, v, DEFAULT_CONTEXT) && F.Packable(b.format.l2Format, v, DEFAULT_CONTEXT);
        OwnPartsMeanCoherent(b, v);
      }
    }
  }

  /** What layer two's compressor is fed. */
  function SecondSerial(f: Format, v: Value): Option<Bytes>
    requires f.CompositionFormat?
  {
    F.Serialize(if f.SameFormat() then f.l1Format else f.l2Format, v, DEFAULT_CONTEXT)
  }

  lemma PartsAreCompressed(f: Format, v: Value, first: Bytes, second: Bytes)
    requires f.CompositionFormat? && F.SerializeParts(f, v, DEFAULT_CONTEXT) == Some((first, second))
    ensures F.Serialize(f.l1Format, v, DEFAULT_CONTEXT).Some? && SecondSerial(f, v).Some?
    ensures f.l1Compressor.Compress(F.Serialize(f.l1Format, v, DEFAULT_CONTEXT).value) == Some(first)
    ensures f.l2Compressor.Compress(SecondSerial(f, v).value) == Some(second)
  {
  }

  lemma OwnPayloadIsCompressed(b: Backend, v: Value, sent: Bytes)
    requires LawfulCompressors(b) && OwnPayload(b, v).Some? && b.ValueCompressor().Compress(sent) == OwnPayload(b, v)
    ensures OwnSerial(b, v) == Some(sent)
  {
    CompressInjective(b.ValueCompressor(), sent, OwnSerial(b, v).value);
  }

  lemma {:induction false} OwnPartsMeanCoherent(b: Backend, v: Value)
    requires Built(b) && LawfulCompressors(b) && PayloadsFit(b, v) && b.Composition?
    requires F.Packable(b.format.l1Format, v, DEFAULT_CONTEXT) && F.Packable(b.format.l2Format, v, DEFAULT_CONTEXT)
    requires OwnPayload(b.l1, v).Some? && OwnPayload(b.l2, v).Some?
    requires F.SerializeParts(b.format, v, DEFAULT_CONTEXT) ==
      Some((OwnPayload(b.l1, v).value, OwnPayload(b.l2, v).value))
    ensures CoherentOn(b, v)
    decreases b, 0
  {
    PartsAreCompressed(b.format, v, OwnPayload(b.l1, v).value, OwnPayload(b.l2, v).value);
    OwnPayloadIsCompressed(b.l1, v, F.Serialize(b.format.l1Format, v, DEFAULT_CONTEXT).value);
    OwnPayloadIsCompressed(b.l2, v, SecondSerial(b.format, v).value);
    OwnBytesIffCoherent(b.l1, v);
    if !b.format.SameFormat() {
      OwnBytesIffCoherent(b.l2, v);
    }
  }

  lemma CompressInjective(c: Compressor, d: Bytes, e: Bytes)
    requires c.Lawful() && c.Compress(d).Some? && c.Compress(d) == c.Compress(e)
    ensures d == e
  {
    assert c.Decompress(c.Compress(d).value) == Some(d) && c.Decompress(c.Compress(e).value) == Some(e);
  }

  lemma {:induction false} SerializationIgnoresPlainContexts(f: Format, v: Value, ctx: Context)
    requires !F.RefillWrapper(ctx)
    ensures F.Serialize(f, v, ctx) == F.Serialize(f, v, DEFAULT_CONTEXT)
    ensures f.CompositionFormat? ==> F.SerializeParts(f, v, ctx) == F.SerializeParts(f, v, DEFAULT_CONTEXT)
  {
    if f.CompositionFormat? {
      SerializationIgnoresPlainContexts(f.l1Format, v, ctx);
      SerializationIgnoresPlainContexts(f.l2Format, v, ctx);
    }
  }

  lemma {:induction false} AllLandedIsAllOwn(b: Backend, key: Key, v: Value, expire: Option<int>,
          stale: Option<int>, st: Stores)
    requires Separate(b) && OwnPayload(b, v).Some? && AllLanded(TargetsOf(b, key, v, expire, stale), st)
    ensures AllOwn(b, key, v, st)
  {
    match b {
      case Simple(id, _, _, _) =>
        assert Holds(TargetsOf(b, key, v, expire, stale), st, Slot(id, key));
      case Composition(l1, l2, _, _, _, _, _, _, _) =>
        assert OwnSerial(b, v).Some?;
        TargetsAreTheLeaves(l1, key, v, None, None);
        TargetsAreTheLeaves(l2, key, v, None, None);
        var t, t1, t2 := TargetsOf(b, key, v, expire, stale), TargetsOf(l1, key, v, None, None),
          TargetsOf(l2, key, v, None, None);
        assert t == LayerTargets(b, key, v, None, None) == t1 + t2;
        assert t1.Keys !! t2.Keys;
        forall s | s in t1
          ensures Holds(t1, st, s)
        {
          assert Holds(t, st, s);
        }
        forall s | s in t2
          ensures Holds(t2, st, s)
        {
          assert Holds(t, st, s);
        }
        AllLandedIsAllOwn(l1, key, v, None, None, st);
        AllLandedIsAllOwn(l2, key, v, None, None, st);
    }
  }

  /**
   * With nothing failing and no leaf bytes that pass for an envelope, a generic set gives every leaf its
   * own encoding if and only if the tree is coherent on the value.
   */
  lemma OwnEncodingsIffCoherent(b: Backend, key: Key, v: CacheValue<Value>, ctx: Context, st: Stores)
    requires Built(b) && Separate(b) && b.Composition? && WritesEverywhere(b) && LawfulCompressors(b)
    requires ctx.ReadMode() == Direct && Absent(b, key, st)
    requires OwnPayload(b, v.data).Some? && PayloadsFit(b, v.data) && F.Packable(b.format, v.data, DEFAULT_CONTEXT)
    requires Sent(b.format, Passthrough, v.data).Some? ==> Clean(Sent(b.format, Passthrough, v.data).value)
    ensures AllOwn(b, key, v.data, GenericSet(b, key, v, ctx, st, {}).1) <==> CoherentOn(b, v.data)
  {
    SerializationIgnoresPlainContexts(b.format, v.data, ctx);
    SentIsSerialized(b.format, Passthrough, v.data);
    OwnBytesIffCoherent(b, v.data);
    var st' := GenericSet(b, key, v, ctx, st, {}).1;
    if CoherentOn(b, v.data) {
      GenericSetDelivers(b, key, v, ctx, st, {});
      AllLandedIsAllOwn(b, key, v.data, v.expire, v.stale, st');
    } else if AllOwn(b, key, v.data, st') {
      LeavesExist(b);
      var some :| some in b.Leaves();
      AllOwnNeedsAllSlots(b, key, v.data, st');
      assert Slot(some, key) in st' && Slot(some, key) !in st;
      var p := Sent(b.format, Passthrough, v.data).value;
      OnlyOwnPayloadDelivers(b, key, v.data, p, CacheValue(Flatten(p), v.expire, v.stale), st);
    }
  }

  // ----- a tree on which it goes wrong ----------------------------------------------------

  /** A codec that knows one value and writes it as one byte. */
  ghost function OneByte(id: FormatTypeId, mark: byte, v: Value): Codec {
    Codec(id, x => if x == v then Some([mark]) else None, d => if d == [mark] then Some(v) else None)
  }

  ghost function OneByteLeaf(id: LeafId, name: Label, format: FormatTypeId, mark: byte, v: Value): Backend {
    Simple(id, name, OneByte(format, mark, v), Passthrough)
  }

  ghost function Tier(first: LeafId, id: FormatTypeId, mark: byte, v: Value): Backend {
    NewComposition(OneByteLeaf(first, "a", id, mark, v), OneByteLeaf(first + 1, "b", id, mark, v))
  }

  lemma TierSerialization(first: LeafId, id: FormatTypeId, mark: byte, v: Value)
    requires id != COMPOSITION_ID
    ensures var b := Tier(first, id, mark, v);
            && Built(b) && Separate(b) && LawfulLeaves(b) && b.Leaves() == {first, first + 1}
            && F.Serialize(b.format, v, DEFAULT_CONTEXT) == Some(F.PackBoth([mark], [mark]))
  {
    var b := Tier(first, id, mark, v);
    assert F.SerializeParts(b.format, v, DEFAULT_CONTEXT) == Some(([mark], [mark]));
  }

  lemma TierWrite(first: LeafId, id: FormatTypeId, own: byte, sent: byte, v: Value, key: Key, st: Stores)
    ensures var out := RawWrite(Tier(first, id, own, v), key, F.Bare(F.PackBoth([sent], [sent])), st, {});
            && out.0.Ok?
            && out.1 == st[Slot(first, key) := F.Bare([sent])][Slot(first + 1, key) := F.Bare([sent])]
  {
    RawWriteUnpacks(Tier(first, id, own, v), key, [sent], [sent], F.Bare(F.PackBoth([sent], [sent])), st, {});
  }

  lemma TiersSend(l1: Backend, l2: Backend, key: Key, v: CacheValue<Value>, inner: Bytes)
    requires Built(l1) && Built(l2) && l1.Composition? && l2.Composition?
    requires F.Serialize(l1.format, v.data, DEFAULT_CONTEXT) == Some(inner) && |inner| < E.U32_CAPACITY
    ensures GenericSet(NewComposition(l1, l2), key, v, DEFAULT_CONTEXT, map[], {}).1
            == RawWrite(l2, key, F.Bare(inner), RawWrite(l1, key, F.Bare(inner), map[], {}).1, {}).1
  {
    var b := NewComposition(l1, l2);
    assert F.SerializeParts(b.format, v.data, DEFAULT_CONTEXT) == Some((inner, inner));
    RawWriteUnpacks(b, key, inner, inner, CacheValue(F.PackBoth(inner, inner), v.expire, v.stale), map[], {});
    WriteLayersSettles(b, key, F.Bare(inner), F.Bare(inner), map[], {});
  }

  lemma PackedOnes()
    ensures |F.PackBoth([1], [1])| == E.HEADER_SIZE + 2
  {
  }

  lemma SecondTierHolds(l1: Backend, key: Key, v: Value, mark: byte, sent: byte)
    ensures
      var st := RawWrite(l1, key, F.Bare(F.PackBoth([sent], [sent])), map[], {}).1;
      var out := RawWrite(Tier(2, Bincode, mark, v), key, F.Bare(F.PackBoth([sent], [sent])), st, {}).1;
      Slot(2, key) in out && out[Slot(2, key)].data == [sent]
  {
    var st := RawWrite(l1, key, F.Bare(F.PackBoth([sent], [sent])), map[], {}).1;
    TierWrite(2, Bincode, mark, sent, v, key, st);
  }

  /** Two composed tiers with different leaf formats: the second tier is given the first one's bytes. */
  lemma ComposedTiersMisplaceBytes(key: Key, v: Value)
    ensures var l1, l2 := Tier(0, Json, 1, v), Tier(2, Bincode, 2, v);
            var st' := GenericSet(NewComposition(l1, l2), key, CacheValue(v, None, None), DEFAULT_CONTEXT, map[], {}).1;
            && Built(l1) && Built(l2) && LawfulLeaves(l1) && LawfulLeaves(l2) && Slot(2, key) in st' &&
              st'[Slot(2, key)].data == [1]
            && l2.l1.codec.encode(v) == Some([2]) && l2.l1.codec.decode([1]) == None
  {
    var l1, l2 := Tier(0, Json, 1, v), Tier(2, Bincode, 2, v);
    TierSerialization(0, Json, 1, v);
    TierSerialization(2, Bincode, 2, v);
    PackedOnes();
    TiersSend(l1, l2, key, CacheValue(v, None, None), F.PackBoth([1], [1]));
    SecondTierHolds(l1, key, v, 2, 1);
  }
}
