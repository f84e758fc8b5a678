/**
 * What a write through any tree leaves in the leaves.  The bytes that reach a composition are
 * its layers' bytes in one envelope, and so on down; each leaf should end up with its own
 * encoding of the value and nothing else should change.
 */
module Writes {
  import opened Wrappers
  import opened Values
  import opened Contexts
  import opened Policies
  import opened Backends
  import F = Formats
  import E = Envelope

  // ----- the bytes each leaf should get --------------------------------------------------

  /** The value serialized in the shape of the tree, each leaf with its own codec and compressor. */
  function OwnSerial(b: Backend, v: Value): Option<Bytes>
    decreases b, 0
  {
    match b
    case Simple(_, _, codec, _) => codec.encode(v)
    case Composition(l1, l2, _, _, _, _, _, _, _) =>
      var first :- OwnPayload(l1, v);
      var second :- OwnPayload(l2, v);
      Some(F.PackBoth(first, second))
  }

  function OwnPayload(b: Backend, v: Value): Option<Bytes>
    decreases b, 1
  {
    var serialized :- OwnSerial(b, v);
    b.ValueCompressor().Compress(serialized)
  }

  type Targets = map<Slot, RawValue>

  /**
   * Each leaf's slot with that leaf's own encoding.  A leaf written directly keeps the instants it is
   * given; below a composition the envelope carries none.
   */
  function TargetsOf(b: Backend, key: Key, v: Value, expire: Option<int>, stale: Option<int>): Targets
    decreases b, 1
  {
    match b
    case Simple(id, _, _, _) =>
      var payload := OwnPayload(b, v);
      if payload.Some? then map[Slot(id, key) := CacheValue(payload.value, expire, stale)] else map[]
    case Composition(_, _, _, _, _, _, _, _, _) => LayerTargets(b, key, v, None, None)
  }

  /** The targets of both layers when each is written with the given instants. */
  function LayerTargets(b: Backend, key: Key, v: Value, expire: Option<int>, stale: Option<int>): Targets
    requires b.Composition?
    decreases b, 0
  {
    TargetsOf(b.l1, key, v, expire, stale) + TargetsOf(b.l2, key, v, expire, stale)
  }

  predicate Same(st: Stores, st': Stores, s: Slot) {
    (s in st <==> s in st') && (s in st ==> st[s] == st'[s])
  }

  predicate Holds(t: Targets, st: Stores, s: Slot)
    requires s in t
  {
    s in st && st[s] == t[s]
  }

  /** Targets are each reached or left as they were; everything else is left as it was. */
  ghost predicate Landed(t: Targets, st: Stores, st': Stores) {
    forall s :: Same(st, st', s) || (s in t && Holds(t, st', s))
  }

  predicate AllLanded(t: Targets, st: Stores) {
    forall s :: s in t ==> Holds(t, st, s)
  }

  predicate SomeLanded(t: Targets, st: Stores) {
    exists s :: s in t && Holds(t, st, s)
  }

  lemma LandedInTurn(t1: Targets, t2: Targets, st: Stores, st1: Stores, st2: Stores)
    requires t1.Keys !! t2.Keys
    requires Landed(t1, st, st1) && Landed(t2, st1, st2)
    ensures Landed(t1 + t2, st, st2) && Landed(t2 + t1, st, st2)
    ensures AllLanded(t1, st1) && AllLanded(t2, st2) ==> AllLanded(t1 + t2, st2) && AllLanded(t2 + t1, st2)
    ensures SomeLanded(t1, st1) || SomeLanded(t2, st2) ==> SomeLanded(t1 + t2, st2) && SomeLanded(t2 + t1, st2)
  {
    forall s
      ensures Same(st, st2, s) || (s in t1 && Holds(t1, st2, s)) || (s in t2 && Holds(t2, st2, s))
    {
      assert Same(st, st1, s) || (s in t1 && Holds(t1, st1, s));
      assert Same(st1, st2, s) || (s in t2 && Holds(t2, st2, s));
    }
    forall s | s in t1
      ensures Holds(t1, st2, s) <==> Holds(t1, st1, s)
    {
      assert Same(st1, st2, s);
    }
    if SomeLanded(t1, st1) {
      var s :| s in t1 && Holds(t1, st1, s);
      assert Holds(t1 + t2, st2, s) && Holds(t2 + t1, st2, s);
    } else if SomeLanded(t2, st2) {
      var s :| s in t2 && Holds(t2, st2, s);
      assert Holds(t1 + t2, st2, s) && Holds(t2 + t1, st2, s);
    }
  }

  lemma LandedAlone(t1: Targets, t2: Targets, st: Stores, st1: Stores)
    requires t1.Keys !! t2.Keys && Landed(t1, st, st1)
    ensures Landed(t1 + t2, st, st1)
    ensures SomeLanded(t1, st1) ==> SomeLanded(t1 + t2, st1)
  {
    forall s
      ensures Same(st, st1, s) || (s in t1 + t2 && Holds(t1 + t2, st1, s))
    {
      assert Same(st, st1, s) || (s in t1 && Holds(t1, st1, s));
    }
    if SomeLanded(t1, st1) {
      var s :| s in t1 && Holds(t1, st1, s);
      assert Holds(t1 + t2, st1, s);
    }
  }

  lemma {:induction false} TargetsAreTheLeaves(b: Backend, key: Key, v: Value, expire: Option<int>, stale: Option<int>)
    ensures forall s :: s in TargetsOf(b, key, v, expire, stale) ==> s.key == key && s.leaf in b.Leaves()
    ensures OwnPayload(b, v).Some? ==>
              forall id :: id in b.Leaves() ==> Slot(id, key) in TargetsOf(b, key, v, expire, stale)
  {
    if b.Composition? {
      TargetsAreTheLeaves(b.l1, key, v, None, None);
      TargetsAreTheLeaves(b.l2, key, v, None, None);
      assert OwnPayload(b, v).Some? ==> OwnSerial(b, v).Some?;
    }
  }

  /** No payload on the way down is too long for its envelope. */
  predicate PayloadsFit(b: Backend, v: Value) {
    b.Composition? ==>
      && PayloadsFit(b.l1, v) && PayloadsFit(b.l2, v)
      && (OwnPayload(b.l1, v).Some? ==> |OwnPayload(b.l1, v).value| < E.U32_CAPACITY)
      && (OwnPayload(b.l2, v).Some? ==> |OwnPayload(b.l2, v).value| < E.U32_CAPACITY)
  }

  /** Whether a write succeeds, from the failing leaves and the policies alone. */
  predicate Succeeds(b: Backend, down: set<LeafId>) {
    match b
    case Simple(id, _, _, _) => id !in down
    case Composition(l1, l2, _, _, write, _, _, _, _) =>
      if write == InOrder then Succeeds(l1, down) && Succeeds(l2, down)
      else Succeeds(l1, down) || Succeeds(l2, down)
  }

  predicate WritesEverywhere(b: Backend) {
    b.Composition? ==> b.write.WritesBoth() && WritesEverywhere(b.l1) && WritesEverywhere(b.l2)
  }

  /** What a write outcome promises about the targets. */
  ghost predicate Delivers(b: Backend, t: Targets, st: Stores, down: set<LeafId>, out: WriteOutcome) {
    && Landed(t, st, out.1)
    && (out.0.Ok? <==> Succeeds(b, down))
    && (out.0.Ok? ==> SomeLanded(t, out.1))
    && (WritesEverywhere(b) && down !! b.Leaves() ==> out.0.Ok? && AllLanded(t, out.1))
  }

  predicate Layer2First(write: WritePolicy) {
    write.RaceWrite? && !write.l1Completes
  }

  /** The outcome of two writes done one after the other, as far as the policy lets the second happen. */
  function Settled(write: WritePolicy, first: WriteOutcome, second: WriteOutcome): WriteOutcome {
    if write == InOrder && first.0.Err? then first
    else if write == InOrder then second
    else if write.RaceWrite? && first.0.Ok? && !write.LoserRuns() then first
    else (if Layer2First(write) then EitherOk(second.0, first.0) else EitherOk(first.0, second.0), second.1)
  }

  lemma WriteLayersSettles(b: Backend, key: Key, v1: RawValue, v2: RawValue, st: Stores, down: set<LeafId>)
    requires b.Composition?
    ensures var first := if Layer2First(b.write) then RawWrite(b.l2, key, v2, st, down)
      else RawWrite(b.l1, key, v1, st, down);
            var second := if Layer2First(b.write) then RawWrite(b.l1, key, v1, first.1, down)
              else RawWrite(b.l2, key, v2, first.1, down);
            WriteLayers(b, key, v1, v2, st, down) == Settled(b.write, first, second)
  {
  }

  lemma SettledDelivers(b: Backend, a: Backend, c: Backend, ta: Targets, tc: Targets,
                        st: Stores, down: set<LeafId>, first: WriteOutcome, second: WriteOutcome)
    requires b.Composition? && (if Layer2First(b.write) then a == b.l2 && c == b.l1 else a == b.l1 && c == b.l2)
    requires ta.Keys !! tc.Keys
    requires Delivers(a, ta, st, down, first) && Delivers(c, tc, first.1, down, second)
    ensures Delivers(b, ta + tc, st, down, Settled(b.write, first, second))
  {
    LandedInTurn(ta, tc, st, first.1, second.1);
    LandedAlone(ta, tc, st, first.1);
  }

  /** Writing a tree's own payload delivers, whatever fails and whichever race is won. */
  lemma {:induction false} RawWriteDelivers(b: Backend, key: Key, v: Value, value: RawValue, st: Stores,
          down: set<LeafId>)
    requires Separate(b) && PayloadsFit(b, v) && OwnPayload(b, v) == Some(value.data)
    ensures Delivers(b, TargetsOf(b, key, v, value.expire, value.stale), st, down, RawWrite(b, key, value, st, down))
    decreases b, 1
  {
    match b {
      case Simple(id, _, _, _) =>
        var targets := TargetsOf(b, key, v, value.expire, value.stale);
        var out := RawWrite(b, key, value, st, down);
        if out.0.Ok? { assert Holds(targets, out.1, Slot(id, key)); }
      case Composition(l1, l2, _, _, _, _, _, _, _) =>
        var p1, p2 := OwnPayload(l1, v).value, OwnPayload(l2, v).value;
        F.UnpackBoth(p1, p2);
        WriteLayersDelivers(b, key, v, F.Bare(p1), F.Bare(p2), st, down);
    }
  }

  lemma {:induction false} WriteLayersDelivers(b: Backend, key: Key, v: Value, v1: RawValue, v2: RawValue,
          st: Stores, down: set<LeafId>)
    requires b.Composition? && Separate(b) && PayloadsFit(b.l1, v) && PayloadsFit(b.l2, v)
    requires OwnPayload(b.l1, v) == Some(v1.data) && OwnPayload(b.l2, v) == Some(v2.data)
    requires v1.expire == v2.expire && v1.stale == v2.stale
    ensures Delivers(b, LayerTargets(b, key, v, v1.expire, v1.stale), st, down, WriteLayers(b, key, v1, v2, st, down))
    decreases b, 0
  {
    var t1, t2 := TargetsOf(b.l1, key, v, v1.expire, v1.stale), TargetsOf(b.l2, key, v, v1.expire, v1.stale);
    TargetsAreTheLeaves(b.l1, key, v, v1.expire, v1.stale);
    TargetsAreTheLeaves(b.l2, key, v, v1.expire, v1.stale);
    assert t1 + t2 == t2 + t1;
    WriteLayersSettles(b, key, v1, v2, st, down);
    if Layer2First(b.write) {
      var first := RawWrite(b.l2, key, v2, st, down);
      RawWriteDelivers(b.l2, key, v, v2, st, down);
      RawWriteDelivers(b.l1, key, v, v1, first.1, down);
      SettledDelivers(b, b.l2, b.l1, t2, t1, st, down, first, RawWrite(b.l1, key, v1, first.1, down));
    } else {
      var first := RawWrite(b.l1, key, v1, st, down);
      RawWriteDelivers(b.l1, key, v, v1, st, down);
      RawWriteDelivers(b.l2, key, v, v2, first.1, down);
      SettledDelivers(b, b.l1, b.l2, t1, t2, st, down, first, RawWrite(b.l2, key, v2, first.1, down));
    }
  }

  // ----- which writes reach every leaf ----------------------------------------------------

  /** No leaf has an entry under the key. */
  predicate Absent(b: Backend, key: Key, st: Stores) {
    forall id :: id in b.Leaves() ==> Slot(id, key) !in st
  }

  /** Whatever is written, only the tree's own slots of that key can change. */
  ghost predicate OnlyIn(b: Backend, key: Key, st: Stores, st': Stores) {
    forall s :: Same(st, st', s) || (s.key == key && s.leaf in b.Leaves())
  }

  lemma {:induction false} RawWriteStaysInside(b: Backend, key: Key, value: RawValue, st: Stores, down: set<LeafId>)
    ensures OnlyIn(b, key, st, RawWrite(b, key, value, st, down).1)
    decreases b, 1
  {
    if b.Composition? {
      match E.Deserialize(value.data)
      case Err(_) =>
      case Ok(L1(only)) => RawWriteStaysInside(b.l1, key, only, st, down);
      case Ok(L2(only)) => RawWriteStaysInside(b.l2, key, only, st, down);
      case Ok(Both(v1, v2)) =>
        WriteLayersSettles(b, key, v1, v2, st, down);
        if Layer2First(b.write) {
          RawWriteStaysInside(b.l2, key, v2, st, down);
          RawWriteStaysInside(b.l1, key, v1, RawWrite(b.l2, key, v2, st, down).1, down);
        } else {
          RawWriteStaysInside(b.l1, key, v1, st, down);
          RawWriteStaysInside(b.l2, key, v2, RawWrite(b.l1, key, v1, st, down).1, down);
        }
    }
  }

  lemma {:induction false} LeavesExist(b: Backend)
    ensures b.Leaves() != {}
  {
    if b.Composition? {
      LeavesExist(b.l1);
    }
  }

  /** Some leaf of the tree has no entry under the key. */
  predicate SomeMissing(b: Backend, key: Key, st: Stores) {
    exists id :: id in b.Leaves() && Slot(id, key) !in st
  }

  lemma SomeMissingStays(b: Backend, a: Backend, key: Key, st: Stores, st': Stores)
    requires a.Leaves() !! b.Leaves() && OnlyIn(a, key, st, st') && SomeMissing(b, key, st)
    ensures SomeMissing(b, key, st')
  {
    var id :| id in b.Leaves() && Slot(id, key) !in st;
    assert Same(st, st', Slot(id, key));
  }

  lemma AbsentStays(b: Backend, a: Backend, key: Key, st: Stores, st': Stores)
    requires a.Leaves() !! b.Leaves() && OnlyIn(a, key, st, st') && Absent(b, key, st)
    ensures Absent(b, key, st')
  {
    forall id | id in b.Leaves()
      ensures Slot(id, key) !in st'
    {
      assert Same(st, st', Slot(id, key));
    }
  }

  /** Two writes in turn, of which the second may not happen, and what they leave missing. */
  lemma SettledMisses(write: WritePolicy, a: Backend, c: Backend, key: Key, va: RawValue, vc: RawValue, st: Stores)
    requires a.Leaves() !! c.Leaves() && Absent(c, key, st)
    requires
      var first := RawWrite(a, key, va, st, {});
      var second := RawWrite(c, key, vc, first.1, {});
      first.0.Ok? && (!write.WritesBoth() || SomeMissing(a, key, first.1) || SomeMissing(c, key, second.1))
    ensures
      var first := RawWrite(a, key, va, st, {});
      var out := Settled(write, first, RawWrite(c, key, vc, first.1, {}));
      SomeMissing(a, key, out.1) || SomeMissing(c, key, out.1)
  {
    var first := RawWrite(a, key, va, st, {});
    RawWriteStaysInside(a, key, va, st, {});
    RawWriteStaysInside(c, key, vc, first.1, {});
    AbsentStays(c, a, key, st, first.1);
    if !write.WritesBoth() {
      LeavesExist(c);
      var id :| id in c.Leaves();
      assert Slot(id, key) !in first.1;
    } else if SomeMissing(a, key, first.1) {
      SomeMissingStays(a, c, key, first.1, RawWrite(c, key, vc, first.1, {}).1);
    }
  }

  /** A race whose loser is pending or gone leaves a leaf without an entry, however deep it is. */
  lemma {:induction false} PendingWriteMisses(b: Backend, key: Key, v: Value, value: RawValue, st: Stores)
    requires Separate(b) && PayloadsFit(b, v) && OwnPayload(b, v) == Some(value.data)
    requires Absent(b, key, st) && !WritesEverywhere(b)
    ensures SomeMissing(b, key, RawWrite(b, key, value, st, {}).1)
    decreases b, 1
  {
    assert OwnSerial(b, v).Some?;
    var p1, p2 := OwnPayload(b.l1, v).value, OwnPayload(b.l2, v).value;
    F.UnpackBoth(p1, p2);
    var v1, v2 := F.Bare(p1), F.Bare(p2);
    WriteLayersSettles(b, key, v1, v2, st, {});
    if Layer2First(b.write) {
      PendingPairMisses(b, b.l2, b.l1, key, v, v2, v1, st);
    } else {
      PendingPairMisses(b, b.l1, b.l2, key, v, v1, v2, st);
    }
    var out := WriteLayers(b, key, v1, v2, st, {}).1;
    assert SomeMissing(b.l1, key, out) || SomeMissing(b.l2, key, out);
  }

  lemma {:induction false} PendingPairMisses(b: Backend, a: Backend, c: Backend, key: Key, v: Value,
          va: RawValue, vc: RawValue, st: Stores)
    requires b.Composition? && ((a == b.l1 && c == b.l2) || (a == b.l2 && c == b.l1))
    requires Separate(b) && PayloadsFit(b, v) && Absent(b, key, st) && !WritesEverywhere(b)
    requires OwnPayload(a, v) == Some(va.data) && OwnPayload(c, v) == Some(vc.data)
    ensures
      var first := RawWrite(a, key, va, st, {});
      var out := Settled(b.write, first, RawWrite(c, key, vc, first.1, {}));
      SomeMissing(a, key, out.1) || SomeMissing(c, key, out.1)
    decreases b, 0
  {
    var first := RawWrite(a, key, va, st, {});
    RawWriteDelivers(a, key, v, va, st, {});
    AlwaysSucceeds(a);
    RawWriteStaysInside(a, key, va, st, {});
    AbsentStays(c, a, key, st, first.1);
    if !WritesEverywhere(a) {
      PendingWriteMisses(a, key, v, va, st);
    } else if !WritesEverywhere(c) {
      PendingWriteMisses(c, key, v, vc, first.1);
    }
    SettledMisses(b.write, a, c, key, va, vc, st);
  }

  lemma {:induction false} AlwaysSucceeds(b: Backend)
    ensures Succeeds(b, {})
  {
    if b.Composition? {
      AlwaysSucceeds(b.l1);
      AlwaysSucceeds(b.l2);
    }
  }

  /**
   * With nothing failing, a first write of the tree's own payload has reached every leaf by the time the
   * next operation starts if and only if no race anywhere in the tree left its loser behind.
   */
  lemma WriteReachesAllIff(b: Backend, key: Key, v: Value, value: RawValue, st: Stores)
    requires Separate(b) && PayloadsFit(b, v) && OwnPayload(b, v) == Some(value.data) && Absent(b, key, st)
    ensures
      AllLanded(TargetsOf(b, key, v, value.expire, value.stale), RawWrite(b, key, value, st, {}).1)
      <==> WritesEverywhere(b)
  {
    RawWriteDelivers(b, key, v, value, st, {});
    if !WritesEverywhere(b) {
      PendingWriteMisses(b, key, v, value, st);
      TargetsAreTheLeaves(b, key, v, value.expire, value.stale);
      var out := RawWrite(b, key, value, st, {}).1;
      var id :| id in b.Leaves() && Slot(id, key) !in out;
      assert !Holds(TargetsOf(b, key, v, value.expire, value.stale), out, Slot(id, key));
    }
  }

  // ----- envelopes written as they come ---------------------------------------------------

  /**
   * Writing any envelope that keeps its contents writes each layer it holds with that layer's own bytes
   * and instants, and no other: layer one alone, layer two alone, or both under the policy.
   */
  lemma EnvelopeReachesItsLayers(b: Backend, key: Key, e: E.CompositionEnvelope, expire: Option<int>,
          stale: Option<int>, st: Stores, down: set<LeafId>)
    requires b.Composition? && E.RoundTrips(e)
    ensures
      var out := RawWrite(b, key, CacheValue(E.Serialize(e), expire, stale), st, down);
      && (e.L1? ==> out == RawWrite(b.l1, key, e.only, st, down))
      && (e.L2? ==> out == RawWrite(b.l2, key, e.only, st, down))
      && (e.Both? ==> out == WriteLayers(b, key, e.l1, e.l2, st, down))
  {
    E.EnvelopeRoundTrip(e);
  }

  /** Bytes that are no envelope are refused by a composition, and nothing is stored. */
  lemma OtherBytesAreRefused(b: Backend, key: Key, value: RawValue, st: Stores, down: set<LeafId>)
    requires b.Composition? && E.Deserialize(value.data).Err?
    ensures
      var out := RawWrite(b, key, value, st, down);
      out.0.Err? && out.0.error == BadEnvelope && out.1 == st
  {
  }
}
