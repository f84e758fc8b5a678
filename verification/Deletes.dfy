/** Deleting a key from every layer: what is counted, what fails and what is left. */
module Deletes {
  import opened Wrappers
  import opened Values
  import opened Contexts
  import opened Policies
  import opened Backends
  import opened Reads
  import W = Writes
  import G = Gets
  import R = RoundTrips
  import E = Envelope

  /** The leaves that answer and have the key. */
  function Holders(b: Backend, key: Key, st: Stores, down: set<LeafId>): set<LeafId> {
    set id | id in b.Leaves() && id !in down && Slot(id, key) in st
  }

  predicate RemovedAt(b: Backend, key: Key, st: Stores, st': Stores, down: set<LeafId>, s: Slot) {
    if s.key == key && s.leaf in b.Leaves() && s.leaf !in down then s !in st' else W.Same(st, st', s)
  }

  /** Exactly the answering leaves' entries of the key are gone. */
  ghost predicate Removed(b: Backend, key: Key, st: Stores, st': Stores, down: set<LeafId>) {
    forall s :: RemovedAt(b, key, st, st', down, s)
  }

  /**
   * On every tree and every subset of failing leaves: an error exactly when all leaves failed, missing
   * exactly when some answered and none had the key, and otherwise the number of leaves that removed it.
   */
  lemma {:induction false} DeleteCountsHolders(b: Backend, key: Key, st: Stores, down: set<LeafId>)
    requires Separate(b)
    ensures var (r, st') := Remove(b, key, st, down);
            var holders := Holders(b, key, st, down);
            && (r.Err? <==> b.Leaves() <= down)
            && (r == Ok(Missing) <==> !(b.Leaves() <= down) && holders == {})
            && (r.Ok? && r.value.Deleted? ==> r.value.count == |holders| > 0)
            && Removed(b, key, st, st', down)
  {
    match b {
      case Simple(id, _, _, _) =>
        assert Holders(b, key, st, down) == if id !in down && Slot(id, key) in st then {id} else {};
      case Composition(l1, l2, _, _, _, _, _, _, _) =>
        var (r1, st1) := Remove(l1, key, st, down);
        var (r2, st2) := Remove(l2, key, st1, down);
        DeleteCountsHolders(l1, key, st, down);
        DeleteCountsHolders(l2, key, st1, down);
        HoldersAddUp(b, key, st, st1, down);
        RemovedInTurn(b, key, st, st1, st2, down);
        assert b.Leaves() <= down <==> l1.Leaves() <= down && l2.Leaves() <= down;
    }
  }

  /** What the first layer's removal did is nothing to the second layer's holders. */
  lemma HoldersAddUp(b: Backend, key: Key, st: Stores, st1: Stores, down: set<LeafId>)
    requires b.Composition? && Separate(b) && Removed(b.l1, key, st, st1, down)
    ensures
      var h, h1, h2 := Holders(b, key, st, down), Holders(b.l1, key, st, down), Holders(b.l2, key, st1, down);
      h == h1 + h2 && |h| == |h1| + |h2|
  {
    var h1, h2 := Holders(b.l1, key, st, down), Holders(b.l2, key, st, down);
    forall id | id in b.l2.Leaves()
      ensures W.Same(st, st1, Slot(id, key))
    {
      assert RemovedAt(b.l1, key, st, st1, down, Slot(id, key));
    }
    assert Holders(b.l2, key, st1, down) == h2;
    assert h1 !! h2;
  }

  lemma RemovedInTurn(b: Backend, key: Key, st: Stores, st1: Stores, st2: Stores, down: set<LeafId>)
    requires b.Composition? && Separate(b)
    requires Removed(b.l1, key, st, st1, down) && Removed(b.l2, key, st1, st2, down)
    ensures Removed(b, key, st, st2, down)
  {
    forall s
      ensures RemovedAt(b, key, st, st2, down, s)
    {
      assert RemovedAt(b.l1, key, st, st1, down, s) && RemovedAt(b.l2, key, st1, st2, down, s);
    }
  }

  function SlotsOf(ids: set<LeafId>, key: Key): set<Slot> {
    set id | id in ids :: Slot(id, key)
  }

  lemma StoreShrinks(st: Stores, st': Stores, gone: set<Slot>)
    requires st.Keys == st'.Keys + gone && st'.Keys !! gone
    ensures |st| == |st'| + |gone|
  {
    assert |st.Keys| == |st'.Keys| + |gone|;
  }

  lemma RemovedSlots(b: Backend, key: Key, st: Stores, st': Stores, down: set<LeafId>)
    requires Removed(b, key, st, st', down)
    ensures var gone := SlotsOf(Holders(b, key, st, down), key);
            st.Keys == st'.Keys + gone && st'.Keys !! gone
  {
    var gone := SlotsOf(Holders(b, key, st, down), key);
    forall s
      ensures s in st.Keys <==> s in st'.Keys || s in gone
      ensures !(s in st'.Keys && s in gone)
    {
      assert RemovedAt(b, key, st, st', down, s);
      if s.key == key && s.leaf in Holders(b, key, st, down) {
        assert s == Slot(s.leaf, key);
      }
    }
  }

  /** What a delete says when all leaves failed or when this many removed the key. */
  predicate Reported(r: Result<DeleteStatus, BackendError>, allFailed: bool, removed: nat) {
    match r
    case Err(_) => allFailed
    case Ok(Missing) => !allFailed && removed == 0
    case Ok(Deleted(n)) => !allFailed && removed == n > 0
  }

  lemma ShrinksByHolders(b: Backend, key: Key, st: Stores, st': Stores, down: set<LeafId>)
    requires Removed(b, key, st, st', down)
    ensures |st| == |st'| + |Holders(b, key, st, down)|
  {
    var holders := Holders(b, key, st, down);
    RemovedSlots(b, key, st, st', down);
    StoreShrinks(st, st', SlotsOf(holders, key));
    SlotCount(holders, key);
  }

  function Counted(r: Result<DeleteStatus, BackendError>): nat {
    if r.Ok? && r.value.Deleted? then r.value.count else 0
  }

  lemma CountedIsHolders(b: Backend, key: Key, st: Stores, down: set<LeafId>, r: Result<DeleteStatus, BackendError>)
    requires r.Err? ==> b.Leaves() <= down
    requires r == Ok(Missing) ==> Holders(b, key, st, down) == {}
    requires r.Ok? && r.value.Deleted? ==> r.value.count == |Holders(b, key, st, down)|
    ensures Counted(r) == |Holders(b, key, st, down)|
  {
    if r.Err? {
      assert Holders(b, key, st, down) == {};
    }
  }

  /** A remove conserves entries: what is gone from the stores is what was counted. */
  lemma {:induction false} DeleteConservesEntries(b: Backend, key: Key, st: Stores, down: set<LeafId>)
    requires Separate(b)
    ensures var (r, st') := Remove(b, key, st, down);
            |st| == |st'| + Counted(r)
  {
    var (r, st') := Remove(b, key, st, down);
    DeleteCountsHolders(b, key, st, down);
    CountedIsHolders(b, key, st, down, r);
    ShrinksByHolders(b, key, st, st', down);
  }

  lemma {:induction false} SlotCount(ids: set<LeafId>, key: Key)
    ensures |SlotsOf(ids, key)| == |ids|
  {
    if ids != {} {
      var some :| some in ids;
      SlotCount(ids - {some}, key);
      assert SlotsOf(ids, key) == SlotsOf(ids - {some}, key) + {Slot(some, key)};
    }
  }

  /** After a delete, only a leaf whose delete failed can still answer. */
  lemma DeletedLeavesAreSilent(b: Backend, key: Key, st: Stores, deletesDown: set<LeafId>, readsDown: set<LeafId>)
    requires Separate(b)
    ensures var st' := Remove(b, key, st, deletesDown).1;
            var found := Resolve(b, key, st', readsDown);
            && (Found(found) ==>
                  && IsPath(b, found.value.value.data.path)
                  && LeafAt(b, found.value.value.data.path).id in deletesDown)
            && (deletesDown !! b.Leaves() && readsDown !! b.Leaves() ==> found == Ok(None))
  {
    DeleteCountsHolders(b, key, st, deletesDown);
    var st' := Remove(b, key, st, deletesDown).1;
    G.ResolveAnswersFromALeaf(b, key, st', readsDown);
    R.NoFailureNoError(b, key, st', readsDown);
    var found := Resolve(b, key, st', readsDown);
    if Found(found) {
      var path := found.value.value.data.path;
      LeafIsInside(b, path);
      assert RemovedAt(b, key, st, st', deletesDown, Slot(LeafAt(b, path).id, key));
    }
  }

  /** When no delete and no read fails, a get after a delete misses. */
  lemma DeleteThenGet(b: Backend, key: Key, ctx: Context, st: Stores, deletesDown: set<LeafId>, readsDown: set<LeafId>)
    requires Built(b) && Separate(b)
    requires deletesDown !! b.Leaves() && readsDown !! b.Leaves()
    ensures GenericGet(b, key, ctx, Remove(b, key, st, deletesDown).1, readsDown).reply == Ok(None)
  {
    DeletedLeavesAreSilent(b, key, st, deletesDown, readsDown);
    DeleteCountsHolders(b, key, st, deletesDown);
    var st' := Remove(b, key, st, deletesDown).1;
    forall id | id in b.Leaves()
      ensures Slot(id, key) !in st'
    {
      assert RemovedAt(b, key, st, st', deletesDown, Slot(id, key));
    }
    NothingStoredFits(b, key, st', ROOT_ROOM);
    G.GenericGetAnswers(b, key, ctx, st', readsDown);
  }

  lemma {:induction false} NothingStoredFits(b: Backend, key: Key, st: Stores, room: int)
    requires forall id :: id in b.Leaves() ==> Slot(id, key) !in st
    ensures StoredFits(b, key, st, room)
  {
    if b.Composition? {
      NothingStoredFits(b.l1, key, st, room - E.HEADER_SIZE);
      NothingStoredFits(b.l2, key, st, room - E.HEADER_SIZE);
    } else {
      assert b.id in b.Leaves();
    }
  }

  /** What is reported when every leaf failed: the failures of all leaves, in the shape of the tree. */
  function AllFailures(b: Backend): BackendError {
    if b.Simple? then LeafFailed(b.id) else BothLayersFailed(AllFailures(b.l1), AllFailures(b.l2))
  }

  lemma {:induction false} FailedDeleteNamesAllLeaves(b: Backend, key: Key, st: Stores, down: set<LeafId>)
    requires Separate(b) && b.Leaves() <= down
    ensures Remove(b, key, st, down) == (Err(AllFailures(b)), st)
  {
    if b.Composition? {
      FailedDeleteNamesAllLeaves(b.l1, key, st, down);
      FailedDeleteNamesAllLeaves(b.l2, key, st, down);
    }
  }
}
