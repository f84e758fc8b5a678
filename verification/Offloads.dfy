/**
 * What a race leaves to the background.  A set that wins with one layer returns at once; the other
 * layer's write is a job that runs later, among others and in any order, and may itself leave jobs.
 */
module Offloads {
  import opened Wrappers
  import opened Values
  import opened Contexts
  import opened Policies
  import opened Backends
  import opened Reads
  import opened Writes
  import opened Sets
  import opened RoundTrips
  import R = Refills
  import G = Gets
  import F = Formats
  import E = Envelope

  /** A whole subtree still to be written. */
  datatype Job = Job(target: Backend, value: RawValue)

  function Size(b: Backend): (n: nat)
    ensures n >= 1
  {
    if b.Simple? then 1 else Size(b.l1) + Size(b.l2)
  }

  function Total(jobs: seq<Job>): nat {
    if jobs == [] then 0 else Size(jobs[0].target) + Total(jobs[1..])
  }

  /** The jobs a write leaves behind, its layers' own jobs included. */
  function Left(b: Backend, key: Key, value: RawValue, st: Stores, down: set<LeafId>): seq<Job>
    decreases b, 1
  {
    match b
    case Simple(_, _, _, _) => []
    case Composition(l1, l2, _, _, _, _, _, _, _) =>
      match E.Deserialize(value.data)
      case Err(_) => []
      case Ok(L1(only)) => Left(l1, key, only, st, down)
      case Ok(L2(only)) => Left(l2, key, only, st, down)
      case Ok(Both(v1, v2)) =>
        if Layer2First(b.write) then LeftInTurn(b, l2, l1, key, v2, v1, st, down)
        else LeftInTurn(b, l1, l2, key, v1, v2, st, down)
  }

  function LeftInTurn(b: Backend, a: Backend, c: Backend, key: Key, va: RawValue, vc: RawValue, st: Stores,
          down: set<LeafId>): seq<Job>
    requires b.Composition? && ((a == b.l1 && c == b.l2) || (a == b.l2 && c == b.l1))
    decreases b, 0
  {
    var first := RawWrite(a, key, va, st, down);
    LeftAfter(b.write, first.0.Ok?, Left(a, key, va, st, down), Left(c, key, vc, first.1, down), Job(c, vc))
  }

  /** What the policy makes of the jobs of its first write, those of its second and the second itself. */
  function LeftAfter(write: WritePolicy, firstOk: bool, first: seq<Job>, second: seq<Job>, loser: Job): seq<Job> {
    if write == InOrder && !firstOk then first
    else if write.RaceWrite? && firstOk && !write.LoserRuns() then
      first + if write.loser == Offload then [loser] else []
    else first + second
  }

  lemma {:induction false} TotalAdds(a: seq<Job>, b: seq<Job>)
    ensures Total(a + b) == Total(a) + Total(b)
  {
    if a == [] {
      assert a + b == b;
    } else {
      assert (a + b)[1..] == a[1..] + b;
      TotalAdds(a[1..], b);
    }
  }

  lemma {:induction false} LeftIsSmaller(b: Backend, key: Key, value: RawValue, st: Stores, down: set<LeafId>)
    ensures Total(Left(b, key, value, st, down)) < Size(b)
    decreases b, 1
  {
    if b.Composition? {
      match E.Deserialize(value.data)
      case Err(_) =>
      case Ok(L1(only)) => LeftIsSmaller(b.l1, key, only, st, down);
      case Ok(L2(only)) => LeftIsSmaller(b.l2, key, only, st, down);
      case Ok(Both(v1, v2)) =>
        if Layer2First(b.write) {
          LeftInTurnIsSmaller(b, b.l2, b.l1, key, v2, v1, st, down);
        } else {
          LeftInTurnIsSmaller(b, b.l1, b.l2, key, v1, v2, st, down);
        }
    }
  }

  lemma AfterIsSmaller(write: WritePolicy, firstOk: bool, first: seq<Job>, second: seq<Job>, loser: Job, size: nat)
    requires Total(first) < size && Total(second) < Size(loser.target)
    ensures Total(LeftAfter(write, firstOk, first, second, loser)) < size + Size(loser.target)
  {
    TotalAdds(first, [loser]);
    TotalAdds(first, []);
    TotalAdds(first, second);
    assert Total([loser]) == Size(loser.target);
  }

  lemma {:induction false} LeftInTurnIsSmaller(b: Backend, a: Backend, c: Backend, key: Key, va: RawValue, vc: RawValue,
          st: Stores, down: set<LeafId>)
    requires b.Composition? && ((a == b.l1 && c == b.l2) || (a == b.l2 && c == b.l1))
    ensures Total(LeftInTurn(b, a, c, key, va, vc, st, down)) < Size(b)
    decreases b, 0
  {
    var first := RawWrite(a, key, va, st, down);
    var left := Left(a, key, va, st, down);
    LeftIsSmaller(a, key, va, st, down);
    LeftIsSmaller(c, key, vc, first.1, down);
    AfterIsSmaller(b.write, first.0.Ok?, left, Left(c, key, vc, first.1, down), Job(c, vc), Size(a));
  }

  function Without(jobs: seq<Job>, i: nat): seq<Job>
    requires i < |jobs|
  {
    jobs[..i] + jobs[i + 1..]
  }

  lemma TotalOfFirst(job: Job, others: seq<Job>)
    ensures Total([job] + others) == Size(job.target) + Total(others)
  {
    assert ([job] + others)[1..] == others;
  }

  lemma TotalWithout(jobs: seq<Job>, i: nat)
    requires i < |jobs|
    ensures Total(jobs) == Total(Without(jobs, i)) + Size(jobs[i].target)
  {
    var before, after := jobs[..i], jobs[i + 1..];
    assert jobs == before + ([jobs[i]] + after);
    TotalAdds(before, [jobs[i]] + after);
    TotalOfFirst(jobs[i], after);
    TotalAdds(before, after);
  }

  /** One job runs, whichever; what it leaves joins the rest. */
  function Rest(jobs: seq<Job>, i: nat, key: Key, st: Stores): seq<Job>
    requires i < |jobs|
    ensures Total(Rest(jobs, i, key, st)) < Total(jobs)
  {
    var more := Left(jobs[i].target, key, jobs[i].value, st, {});
    LeftIsSmaller(jobs[i].target, key, jobs[i].value, st, {});
    TotalWithout(jobs, i);
    TotalAdds(Without(jobs, i), more);
    Without(jobs, i) + more
  }

  /** All jobs run, one at a time, in the order `pick` chooses; nothing fails. */
  function RunJobs(jobs: seq<Job>, key: Key, st: Stores, pick: nat -> nat): Stores
    decreases Total(jobs)
  {
    if jobs == [] then st
    else
      var i := pick(Total(jobs)) % |jobs|;
      RunJobs(Rest(jobs, i, key, st), key, RawWrite(jobs[i].target, key, jobs[i].value, st, {}).1, pick)
  }

  // ----- everything arrives ---------------------------------------------------------------

  /** No race anywhere gives its loser up. */
  predicate NoDrops(b: Backend) {
    b.Composition? ==>
      NoDrops(b.l1) && NoDrops(b.l2) && (b.write.RaceWrite? ==> b.write.loser == Offload || b.write.loserCompletes)
  }

  function TargetsOfJob(job: Job, key: Key, v: Value): Targets {
    TargetsOf(job.target, key, v, job.value.expire, job.value.stale)
  }

  /** The job writes its subtree's own payload of `v`, to slots of `t` only and as `t` says. */
  ghost predicate GoodJob(t: Targets, job: Job, key: Key, v: Value) {
    && Separate(job.target) && PayloadsFit(job.target, v) && NoDrops(job.target)
    && OwnPayload(job.target, v) == Some(job.value.data)
    && (forall s :: s in TargetsOfJob(job, key, v) ==> s in t && t[s] == TargetsOfJob(job, key, v)[s])
  }

  predicate Awaited(jobs: seq<Job>, key: Key, v: Value, s: Slot) {
    exists i :: 0 <= i < |jobs| && s in TargetsOfJob(jobs[i], key, v)
  }

  /** Every target has landed or some job will write it. */
  ghost predicate Covered(t: Targets, jobs: seq<Job>, key: Key, v: Value, st: Stores) {
    && (forall i :: 0 <= i < |jobs| ==> GoodJob(t, jobs[i], key, v))
    && (forall s :: s in t ==> Holds(t, st, s) || Awaited(jobs, key, v, s))
  }

  lemma CoveredJoin(ta: Targets, tc: Targets, ja: seq<Job>, jc: seq<Job>, key: Key, v: Value, st: Stores, st': Stores)
    requires ta.Keys !! tc.Keys
    requires Covered(ta, ja, key, v, st) && Landed(tc, st, st') && Covered(tc, jc, key, v, st')
    ensures Covered(ta + tc, ja + jc, key, v, st')
  {
    var t, jobs := ta + tc, ja + jc;
    forall i | 0 <= i < |jobs|
      ensures GoodJob(t, jobs[i], key, v)
    {
      assert if i < |ja| then GoodJob(ta, ja[i], key, v) else GoodJob(tc, jc[i - |ja|], key, v);
    }
    forall s | s in t
      ensures Holds(t, st', s) || Awaited(jobs, key, v, s)
    {
      if s in tc {
        if !Holds(tc, st', s) {
          var i :| 0 <= i < |jc| && s in TargetsOfJob(jc[i], key, v);
          assert jobs[|ja| + i] == jc[i];
        }
      } else {
        assert Same(st, st', s);
        if !Holds(ta, st, s) {
          var i :| 0 <= i < |ja| && s in TargetsOfJob(ja[i], key, v);
          assert jobs[i] == ja[i];
        }
      }
    }
  }

  lemma OneJobCovers(c: Backend, vc: RawValue, key: Key, v: Value, st: Stores)
    requires Separate(c) && PayloadsFit(c, v) && NoDrops(c) && OwnPayload(c, v) == Some(vc.data)
    ensures Covered(TargetsOf(c, key, v, vc.expire, vc.stale), [Job(c, vc)], key, v, st)
  {
    var t := TargetsOf(c, key, v, vc.expire, vc.stale);
    var jobs := [Job(c, vc)];
    assert TargetsOfJob(jobs[0], key, v) == t;
  }

  /** A write covers its targets: what it has not written it has left to a job. */
  lemma {:induction false} WriteCovers(b: Backend, key: Key, v: Value, value: RawValue, st: Stores)
    requires Separate(b) && PayloadsFit(b, v) && NoDrops(b) && OwnPayload(b, v) == Some(value.data)
    ensures Covered(TargetsOf(b, key, v, value.expire, value.stale), Left(b, key, value, st, {}), key, v,
                    RawWrite(b, key, value, st, {}).1)
    decreases b, 1
  {
    match b {
      case Simple(_, _, _, _) =>
        RawWriteDelivers(b, key, v, value, st, {});
      case Composition(l1, l2, _, _, _, _, _, _, _) =>
        assert OwnSerial(b, v).Some?;
        var p1, p2 := OwnPayload(l1, v).value, OwnPayload(l2, v).value;
        F.UnpackBoth(p1, p2);
        var v1, v2 := F.Bare(p1), F.Bare(p2);
        TargetsAreTheLeaves(l1, key, v, None, None);
        TargetsAreTheLeaves(l2, key, v, None, None);
        var t1, t2 := TargetsOf(l1, key, v, None, None), TargetsOf(l2, key, v, None, None);
        assert t1 + t2 == t2 + t1 == TargetsOf(b, key, v, value.expire, value.stale);
        WriteLayersSettles(b, key, v1, v2, st, {});
        if Layer2First(b.write) {
          TurnsCover(b, l2, l1, key, v, v2, v1, st);
        } else {
          TurnsCover(b, l1, l2, key, v, v1, v2, st);
        }
    }
  }

  lemma {:induction false} TurnsCover(b: Backend, a: Backend, c: Backend, key: Key, v: Value, va: RawValue,
          vc: RawValue, st: Stores)
    requires b.Composition? && ((a == b.l1 && c == b.l2) || (a == b.l2 && c == b.l1))
    requires Separate(b) && PayloadsFit(b, v) && NoDrops(b)
    requires OwnPayload(a, v) == Some(va.data) && OwnPayload(c, v) == Some(vc.data)
    ensures
      var first := RawWrite(a, key, va, st, {});
      var out := Settled(b.write, first, RawWrite(c, key, vc, first.1, {}));
      Covered(TargetsOf(a, key, v, va.expire, va.stale) + TargetsOf(c, key, v, vc.expire, vc.stale),
              LeftInTurn(b, a, c, key, va, vc, st, {}), key, v, out.1)
    decreases b, 0
  {
    var first := RawWrite(a, key, va, st, {});
    var ta, tc := TargetsOf(a, key, v, va.expire, va.stale), TargetsOf(c, key, v, vc.expire, vc.stale);
    TargetsAreTheLeaves(a, key, v, va.expire, va.stale);
    TargetsAreTheLeaves(c, key, v, vc.expire, vc.stale);
    RawWriteDelivers(a, key, v, va, st, {});
    AlwaysSucceeds(a);
    WriteCovers(a, key, v, va, st);
    RawWriteDelivers(c, key, v, vc, first.1, {});
    WriteCovers(c, key, v, vc, first.1);
    OneJobCovers(c, vc, key, v, first.1);
    SettledCovers(b.write, ta, tc, first, RawWrite(c, key, vc, first.1, {}), Left(a, key, va, st, {}),
                  Left(c, key, vc, first.1, {}), Job(c, vc), key, v);
  }

  lemma SettledCovers(write: WritePolicy, ta: Targets, tc: Targets, first: WriteOutcome, second: WriteOutcome,
          la: seq<Job>, lc: seq<Job>, loser: Job, key: Key, v: Value)
    requires ta.Keys !! tc.Keys && first.0.Ok?
    requires write.RaceWrite? ==> write.loser == Offload || write.loserCompletes
    requires Covered(ta, la, key, v, first.1)
    requires Landed(tc, first.1, second.1) && Covered(tc, lc, key, v, second.1)
    requires Covered(tc, [loser], key, v, first.1)
    ensures Covered(ta + tc, LeftAfter(write, true, la, lc, loser), key, v, Settled(write, first, second).1)
  {
    if write.RaceWrite? && !write.LoserRuns() {
      CoveredJoin(ta, tc, la, [loser], key, v, first.1, first.1);
    } else {
      CoveredJoin(ta, tc, la, lc, key, v, first.1, second.1);
    }
  }

  /** Running any one of the jobs keeps the targets covered, by what it writes and what it leaves. */
  lemma JobKeepsCover(t: Targets, jobs: seq<Job>, i: nat, key: Key, v: Value, st: Stores)
    requires i < |jobs| && Covered(t, jobs, key, v, st)
    ensures
      var out := RawWrite(jobs[i].target, key, jobs[i].value, st, {}).1;
      Covered(t, Rest(jobs, i, key, st), key, v, out) && Landed(t, st, out)
  {
    var job := jobs[i];
    var u := TargetsOfJob(job, key, v);
    var out := RawWrite(job.target, key, job.value, st, {}).1;
    var more := Left(job.target, key, job.value, st, {});
    assert GoodJob(t, job, key, v);
    WriteCovers(job.target, key, v, job.value, st);
    RawWriteDelivers(job.target, key, v, job.value, st, {});
    LandedWider(u, t, st, out);
    RestIsGood(t, u, jobs, i, more, key, v, out);
    forall s | s in t
      ensures Holds(t, out, s) || Awaited(Without(jobs, i) + more, key, v, s)
    {
      StillCovered(t, u, jobs, i, more, key, v, st, out, s);
    }
  }

  lemma LandedWider(u: Targets, t: Targets, st: Stores, st': Stores)
    requires Landed(u, st, st') && forall s :: s in u ==> s in t && t[s] == u[s]
    ensures Landed(t, st, st')
  {
    forall s
      ensures Same(st, st', s) || (s in t && Holds(t, st', s))
    {
      assert Same(st, st', s) || (s in u && Holds(u, st', s));
    }
  }

  lemma RestIsGood(t: Targets, u: Targets, jobs: seq<Job>, i: nat, more: seq<Job>, key: Key, v: Value, st: Stores)
    requires i < |jobs| && forall k :: 0 <= k < |jobs| ==> GoodJob(t, jobs[k], key, v)
    requires Covered(u, more, key, v, st) && forall s :: s in u ==> s in t && t[s] == u[s]
    ensures
      var rest := Without(jobs, i) + more;
      forall k :: 0 <= k < |rest| ==> GoodJob(t, rest[k], key, v)
  {
    var rest := Without(jobs, i) + more;
    forall k | 0 <= k < |rest|
      ensures GoodJob(t, rest[k], key, v)
    {
      if k < i {
        assert rest[k] == jobs[k];
      } else if k < |jobs| - 1 {
        assert rest[k] == jobs[k + 1];
      } else {
        assert GoodJob(u, more[k - (|jobs| - 1)], key, v);
      }
    }
  }

  lemma StillCovered(t: Targets, u: Targets, jobs: seq<Job>, i: nat, more: seq<Job>, key: Key, v: Value,
          st: Stores, st': Stores, s: Slot)
    requires i < |jobs| && u == TargetsOfJob(jobs[i], key, v) && s in t
    requires Holds(t, st, s) || Awaited(jobs, key, v, s)
    requires Landed(t, st, st') && Covered(u, more, key, v, st')
    requires s in u ==> t[s] == u[s]
    ensures Holds(t, st', s) || Awaited(Without(jobs, i) + more, key, v, s)
  {
    var rest := Without(jobs, i) + more;
    assert Same(st, st', s) || Holds(t, st', s);
    if !Holds(t, st', s) {
      assert Awaited(jobs, key, v, s) by {
        assert !Holds(t, st, s);
      }
      var k :| 0 <= k < |jobs| && s in TargetsOfJob(jobs[k], key, v);
      if k < i {
        assert rest[k] == jobs[k];
      } else if k > i {
        assert rest[k - 1] == jobs[k];
      } else {
        assert !Holds(u, st', s);
        var j :| 0 <= j < |more| && s in TargetsOfJob(more[j], key, v);
        assert rest[|jobs| - 1 + j] == more[j];
      }
    }
  }

  lemma LandedTwice(t: Targets, st: Stores, st1: Stores, st2: Stores)
    requires Landed(t, st, st1) && Landed(t, st1, st2)
    ensures Landed(t, st, st2)
  {
    forall s
      ensures Same(st, st2, s) || (s in t && Holds(t, st2, s))
    {
      assert Same(st, st1, s) || (s in t && Holds(t, st1, s));
      assert Same(st1, st2, s) || (s in t && Holds(t, st2, s));
    }
  }

  lemma {:induction false} JobsDeliver(t: Targets, jobs: seq<Job>, key: Key, v: Value, st: Stores, pick: nat -> nat)
    requires Covered(t, jobs, key, v, st)
    ensures AllLanded(t, RunJobs(jobs, key, st, pick)) && Landed(t, st, RunJobs(jobs, key, st, pick))
    decreases Total(jobs)
  {
    if jobs == [] {
      forall s | s in t
        ensures Holds(t, st, s)
      {
        assert !Awaited(jobs, key, v, s);
      }
    } else {
      var i := pick(Total(jobs)) % |jobs|;
      var out := RawWrite(jobs[i].target, key, jobs[i].value, st, {}).1;
      JobKeepsCover(t, jobs, i, key, v, st);
      JobsDeliver(t, Rest(jobs, i, key, st), key, v, out, pick);
      LandedTwice(t, st, out, RunJobs(jobs, key, st, pick));
    }
  }

  /**
   * Offloaded writes arrive: however races went and in whatever order the background runs the jobs, once
   * they are done every leaf holds its own encoding and nothing else has changed.
   */
  lemma OffloadedWritesArrive(b: Backend, key: Key, v: Value, value: RawValue, st: Stores, pick: nat -> nat)
    requires Separate(b) && PayloadsFit(b, v) && NoDrops(b) && OwnPayload(b, v) == Some(value.data)
    ensures
      var t := TargetsOf(b, key, v, value.expire, value.stale);
      var done := RunJobs(Left(b, key, value, st, {}), key, RawWrite(b, key, value, st, {}).1, pick);
      AllLanded(t, done) && Landed(t, st, done)
  {
    var t := TargetsOf(b, key, v, value.expire, value.stale);
    var out := RawWrite(b, key, value, st, {}).1;
    RawWriteDelivers(b, key, v, value, st, {});
    WriteCovers(b, key, v, value, st);
    JobsDeliver(t, Left(b, key, value, st, {}), key, v, out, pick);
    LandedTwice(t, st, out, RunJobs(Left(b, key, value, st, {}), key, out, pick));
  }

  /** A set, then its background jobs in any order, then a get: the value set, under every read policy. */
  lemma SetSettleGet(b: Backend, key: Key, v: CacheValue<Value>, ctx: Context, reader: Context, st: Stores,
          pick: nat -> nat)
    requires Built(b) && Separate(b) && CoherentOn(b, v.data) && LawfulLeaves(b) && NoDrops(b) &&
      ctx.ReadMode() == Direct
    requires PayloadsFit(b, v.data) && OwnPayload(b, v.data).Some?
    requires b.Composition? ==> StoredFits(b, key, st, ROOT_ROOM)
    ensures
      var value := CacheValue(OwnPayload(b, v.data).value, v.expire, v.stale);
      var now := GenericSet(b, key, v, ctx, st, {}).1;
      var done := RunJobs(Left(b, key, value, st, {}), key, now, pick);
      var reply := GenericGet(b, key, reader, done, {}).reply;
      Found(reply) && reply.value.value.data == v.data
  {
    var value := CacheValue(OwnPayload(b, v.data).value, v.expire, v.stale);
    SetIsWrite(b, key, v, ctx, st);
    OffloadedWritesArrive(b, key, v.data, value, st, pick);
    var done := RunJobs(Left(b, key, value, st, {}), key, RawWrite(b, key, value, st, {}).1, pick);
    ArrivedIsGot(b, key, v, reader, st, done);
  }

  lemma ArrivedIsGot(b: Backend, key: Key, v: CacheValue<Value>, reader: Context, st: Stores, st': Stores)
    requires Built(b) && Separate(b) && LawfulLeaves(b) && PayloadsFit(b, v.data) && OwnPayload(b, v.data).Some?
    requires b.Composition? ==> StoredFits(b, key, st, ROOT_ROOM)
    requires
      var t := TargetsOf(b, key, v.data, v.expire, v.stale);
      AllLanded(t, st') && Landed(t, st, st')
    ensures
      var reply := GenericGet(b, key, reader, st', {}).reply;
      Found(reply) && reply.value.value.data == v.data
  {
    if b.Composition? {
      SetKeepsStoredFits(b, key, v.data, v.expire, v.stale, st, st');
    }
    G.GenericGetAnswers(b, key, reader, st', {});
    G.ResolveAnswersFromALeaf(b, key, st', {});
    EveryLeafHolds(b, key, v.data, v.expire, v.stale, st');
    NoFailureNoError(b, key, st', {});
    LandedDecodes(b, Resolve(b, key, st', {}).value.value.data.path, key, v.data, v.expire, v.stale, st, st');
  }

  // ----- and until then -------------------------------------------------------------------

  /** A race that layer two won, with layer one's write still to come. */
  predicate Layer1Pending(b: Backend) {
    b.Composition? && b.write == RaceWrite(Offload, false, false)
  }

  lemma Layer2Wins(b: Backend, key: Key, v: Value, value: RawValue, st: Stores)
    requires Layer1Pending(b) && Separate(b) && PayloadsFit(b, v) && OwnPayload(b, v) == Some(value.data)
    ensures OwnPayload(b.l1, v).Some? && OwnPayload(b.l2, v).Some?
    ensures RawWrite(b, key, value, st, {}) == RawWrite(b.l2, key, F.Bare(OwnPayload(b.l2, v).value), st, {})
    ensures Job(b.l1, F.Bare(OwnPayload(b.l1, v).value)) in Left(b, key, value, st, {})
  {
    assert OwnSerial(b, v).Some?;
    var p1, p2 := OwnPayload(b.l1, v).value, OwnPayload(b.l2, v).value;
    F.UnpackBoth(p1, p2);
    RawWriteDelivers(b.l2, key, v, F.Bare(p2), st, {});
    AlwaysSucceeds(b.l2);
    var left := Left(b.l2, key, F.Bare(p2), st, {});
    assert Left(b, key, value, st, {}) == left + [Job(b.l1, F.Bare(p1))];
  }

  /** Until the job runs, a sequential get goes on answering what layer one held before the set. */
  lemma PendingLayerAnswersOld(b: Backend, key: Key, v: CacheValue<Value>, ctx: Context, reader: Context,
          st: Stores, was: Value)
    requires Built(b) && Separate(b) && CoherentOn(b, v.data) && Layer1Pending(b) && R.AllSequential(b)
    requires PayloadsFit(b, v.data) && OwnPayload(b, v.data).Some? && StoredFits(b, key, st, ROOT_ROOM)
    requires ctx.ReadMode() == Direct && R.FirstHit(b.l1, key, st) == Some(Some(was))
    ensures
      var out := GenericSet(b, key, v, ctx, st, {});
      var reply := GenericGet(b, key, reader, out.1, {}).reply;
      out.0.Ok? && Found(reply) && reply.value.value.data == was
  {
    var value := CacheValue(OwnPayload(b, v.data).value, v.expire, v.stale);
    SetIsWrite(b, key, v, ctx, st);
    PendingWriteAnswersOld(b, key, v.data, value, reader, st, was);
  }

  lemma SetIsWrite(b: Backend, key: Key, v: CacheValue<Value>, ctx: Context, st: Stores)
    requires Built(b) && CoherentOn(b, v.data) && OwnPayload(b, v.data).Some? && ctx.ReadMode() == Direct
    ensures
      var value := CacheValue(OwnPayload(b, v.data).value, v.expire, v.stale);
      GenericSet(b, key, v, ctx, st, {}) == RawWrite(b, key, value, st, {})
  {
    CoherentSerialization(b, v.data, ctx);
  }

  lemma PendingWriteAnswersOld(b: Backend, key: Key, v: Value, value: RawValue, reader: Context, st: Stores, was: Value)
    requires Built(b) && Separate(b) && Layer1Pending(b) && R.AllSequential(b)
    requires PayloadsFit(b, v) && OwnPayload(b, v) == Some(value.data) && StoredFits(b, key, st, ROOT_ROOM)
    requires R.FirstHit(b.l1, key, st) == Some(Some(was))
    ensures
      var out := RawWrite(b, key, value, st, {});
      var reply := GenericGet(b, key, reader, out.1, {}).reply;
      out.0.Ok? && Found(reply) && reply.value.value.data == was
  {
    var out := RawWrite(b, key, value, st, {});
    PendingLayerIsUntouched(b, key, v, value, st);
    WriteSucceedsAndFits(b, key, v, value, st);
    OldIsFirst(b, key, reader, st, out.1, was);
  }

  lemma WriteSucceedsAndFits(b: Backend, key: Key, v: Value, value: RawValue, st: Stores)
    requires Separate(b) && b.Composition? && StoredFits(b, key, st, ROOT_ROOM)
    requires PayloadsFit(b, v) && OwnPayload(b, v) == Some(value.data)
    ensures
      var out := RawWrite(b, key, value, st, {});
      out.0.Ok? && StoredFits(b, key, out.1, ROOT_ROOM)
  {
    RawWriteDelivers(b, key, v, value, st, {});
    DeliveredFits(b, key, v, value, st, RawWrite(b, key, value, st, {}));
  }

  lemma DeliveredFits(b: Backend, key: Key, v: Value, value: RawValue, st: Stores, out: WriteOutcome)
    requires Separate(b) && b.Composition? && StoredFits(b, key, st, ROOT_ROOM)
    requires PayloadsFit(b, v) && OwnPayload(b, v).Some?
    requires Delivers(b, TargetsOf(b, key, v, value.expire, value.stale), st, {}, out)
    ensures out.0.Ok? && StoredFits(b, key, out.1, ROOT_ROOM)
  {
    AlwaysSucceeds(b);
    SetKeepsStoredFits(b, key, v, value.expire, value.stale, st, out.1);
  }

  lemma PendingLayerIsUntouched(b: Backend, key: Key, v: Value, value: RawValue, st: Stores)
    requires Layer1Pending(b) && Separate(b) && PayloadsFit(b, v) && OwnPayload(b, v) == Some(value.data)
    ensures R.FirstHit(b.l1, key, RawWrite(b, key, value, st, {}).1) == R.FirstHit(b.l1, key, st)
  {
    Layer2Wins(b, key, v, value, st);
    var raw := F.Bare(OwnPayload(b.l2, v).value);
    var st' := RawWrite(b.l2, key, raw, st, {}).1;
    RawWriteStaysInside(b.l2, key, raw, st, {});
    forall id | id in b.l1.Leaves()
      ensures Same(st, st', Slot(id, key))
    {
    }
    R.LookupDependsOnSlots(b.l1, key, st, st');
  }

  lemma OldIsFirst(b: Backend, key: Key, reader: Context, st: Stores, st': Stores, was: Value)
    requires Built(b) && b.Composition? && R.AllSequential(b) && StoredFits(b, key, st', ROOT_ROOM)
    requires R.FirstHit(b.l1, key, st) == R.FirstHit(b.l1, key, st') == Some(Some(was))
    ensures
      var reply := GenericGet(b, key, reader, st', {}).reply;
      Found(reply) && reply.value.value.data == was
  {
    assert R.FirstHit(b, key, st') == Some(Some(was));
    R.SequentialGetIsFirstHit(b, key, reader, st');
  }

  /**
   * Whatever was stored in the meantime, a newer value of the same key included, the job puts its own
   * value back in front of every sequential lookup.
   */
  lemma LateLoserOverwrites(b: Backend, key: Key, v: Value, value: RawValue, st: Stores, later: Stores)
    requires Layer1Pending(b) && Separate(b) && LawfulLeaves(b) && WritesEverywhere(b.l1)
    requires PayloadsFit(b, v) && OwnPayload(b, v) == Some(value.data)
    ensures OwnPayload(b.l1, v).Some?
    ensures
      var job := Job(b.l1, F.Bare(OwnPayload(b.l1, v).value));
      && job in Left(b, key, value, st, {})
      && R.FirstHit(b, key, RawWrite(job.target, key, job.value, later, {}).1) == Some(Some(v))
  {
    Layer2Wins(b, key, v, value, st);
    var raw := F.Bare(OwnPayload(b.l1, v).value);
    RawWriteDelivers(b.l1, key, v, raw, later, {});
    AllLandedLookup(b.l1, key, v, None, None, RawWrite(b.l1, key, raw, later, {}).1);
  }

  lemma {:induction false} AllLandedLookup(b: Backend, key: Key, v: Value, expire: Option<int>, stale: Option<int>,
          st: Stores)
    requires Separate(b) && LawfulLeaves(b) && OwnPayload(b, v).Some?
    requires AllLanded(TargetsOf(b, key, v, expire, stale), st)
    ensures R.FirstHit(b, key, st) == Some(Some(v))
  {
    match b {
      case Simple(id, _, _, _) =>
        OwnPayloadDecodes(b, v);
        assert Holds(TargetsOf(b, key, v, expire, stale), st, Slot(id, key));
      case Composition(l1, l2, _, _, _, _, _, _, _) =>
        assert OwnSerial(b, v).Some?;
        TargetsAreTheLeaves(l1, key, v, None, None);
        TargetsAreTheLeaves(l2, key, v, None, None);
        var t1, t2 := TargetsOf(l1, key, v, None, None), TargetsOf(l2, key, v, None, None);
        assert TargetsOf(b, key, v, expire, stale) == t1 + t2 && t1.Keys !! t2.Keys;
        forall s | s in t1
          ensures Holds(t1, st, s)
        {
          assert Holds(TargetsOf(b, key, v, expire, stale), st, s);
        }
        AllLandedLookup(l1, key, v, None, None, st);
    }
  }

  /** Nothing is offloaded anywhere. */
  predicate NoOffloads(b: Backend) {
    b.Composition? ==>
      NoOffloads(b.l1) && NoOffloads(b.l2) && (b.write.RaceWrite? ==> b.write.loser == Drop || b.write.loserCompletes)
  }

  /** A dropped loser is gone for good: it leaves no job. */
  lemma {:induction false} DroppedLosersLeaveNothing(b: Backend, key: Key, value: RawValue, st: Stores,
          down: set<LeafId>)
    requires NoOffloads(b)
    ensures Left(b, key, value, st, down) == []
    decreases b
  {
    if b.Composition? {
      match E.Deserialize(value.data)
      case Err(_) =>
      case Ok(L1(only)) => DroppedLosersLeaveNothing(b.l1, key, only, st, down);
      case Ok(L2(only)) => DroppedLosersLeaveNothing(b.l2, key, only, st, down);
      case Ok(Both(v1, v2)) =>
        if Layer2First(b.write) {
          DroppedLosersLeaveNothing(b.l2, key, v2, st, down);
          DroppedLosersLeaveNothing(b.l1, key, v1, RawWrite(b.l2, key, v2, st, down).1, down);
        } else {
          DroppedLosersLeaveNothing(b.l1, key, v1, st, down);
          DroppedLosersLeaveNothing(b.l2, key, v2, RawWrite(b.l1, key, v1, st, down).1, down);
        }
    }
  }
}
