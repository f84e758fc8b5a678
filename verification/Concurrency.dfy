/**
 * Dogpile prevention: one generation per key at a time, with a semaphore for the requests that go
 * upstream and a one-shot broadcast for those that wait.  Every atomic step of every request is an
 * action, so a sequence of actions is one interleaving.
 */
module Concurrency {
  import opened Wrappers
  import opened Values

  type Val(!new)

  type GenerationId = nat

  type RequestId = nat

  type Limit = n: nat | 1 <= n <= 255 witness 1

  const CHANNEL_CAPACITY := 1

  /** A broadcast channel: everything ever sent, and whether its only sender is gone. */
  datatype Channel = Channel(sent: seq<Val>, closed: bool)

  /** Where a generation is on its way out of the map. */
  datatype Phase = InMap | AboutToSend(value: Val) | Resolved(value: Val) | CleanedUp

  datatype Generation = Generation(key: Key, limit: Limit, free: nat, holders: set<RequestId>, channel: Channel,
    phase: Phase)

  datatype Outcome = Pending | Received(value: Val) | Lagged(missed: nat) | Closed

  /** A subscriber: its generation, the next message it would read, and what it got. */
  datatype Waiter = Waiter(generation: GenerationId, next: nat, outcome: Outcome)

  datatype State = State(
    inFlight: map<Key, GenerationId>,
    generations: map<GenerationId, Generation>,
    waiters: map<RequestId, Waiter>,
    counter: nat)

  datatype Decision = Proceed(generation: GenerationId) | Await(generation: GenerationId)

  datatype Action =
    | Check(key: Key, limit: Limit)
    | ResolveRemove(key: Key, value: Val)
    | ResolveSend(generation: GenerationId)
    | ResolveDrop(generation: GenerationId)
    | Cleanup(key: Key)
    | ReleasePermit(generation: GenerationId, request: RequestId)
    | Receive(request: RequestId)

  const Initial := State(map[], map[], map[], 0)

  // ----- steps ----------------------------------------------------------------------------

  function NewGeneration(key: Key, limit: Limit, request: RequestId): Generation {
    Generation(key, limit, limit - 1, {request}, Channel([], false), InMap)
  }

  /** What `check` answers; the request and, if needed, the generation take the next number. */
  function Decide(s: State, key: Key): Decision {
    if key !in s.inFlight then Proceed(s.counter)
    else
      var g := s.inFlight[key];
      if g in s.generations && s.generations[g].free > 0 then Proceed(g) else Await(g)
  }

  function CheckStep(s: State, key: Key, limit: Limit): State {
    var request := s.counter;
    match Decide(s, key)
    case Await(g) =>
      var next := if g in s.generations then |s.generations[g].channel.sent| else 0;
      s.(waiters := s.waiters[request := Waiter(g, next, Pending)], counter := s.counter + 1)
    case Proceed(g) =>
      if key !in s.inFlight then
        s.(inFlight := s.inFlight[key := g],
           generations := s.generations[g := NewGeneration(key, limit, request)],
           counter := s.counter + 1)
      else if g in s.generations && s.generations[g].free > 0 then
        var gen := s.generations[g];
        s.(generations := s.generations[g := gen.(free := gen.free - 1, holders := gen.holders + {request})],
           counter := s.counter + 1)
      else s
  }

  /** Takes the generation out of the map, for the given reason. */
  function Removed(s: State, key: Key, phase: Phase, closed: bool): State {
    if key in s.inFlight && s.inFlight[key] in s.generations then
      var g := s.inFlight[key];
      var gen := s.generations[g];
      s.(inFlight := s.inFlight - {key},
         generations := s.generations[g := gen.(phase := phase, channel := gen.channel.(closed := closed))])
    else s
  }

  function SendStep(s: State, g: GenerationId): State {
    if g in s.generations && s.generations[g].phase.AboutToSend? then
      var gen := s.generations[g];
      var v := gen.phase.value;
      var channel := gen.channel.(sent := gen.channel.sent + [v]);
      s.(generations := s.generations[g := gen.(phase := Resolved(v), channel := channel)])
    else s
  }

  function DropStep(s: State, g: GenerationId): State {
    if g in s.generations && s.generations[g].phase.Resolved? then
      var gen := s.generations[g];
      s.(generations := s.generations[g := gen.(channel := gen.channel.(closed := true))])
    else s
  }

  function ReleaseStep(s: State, g: GenerationId, request: RequestId): State {
    if g in s.generations && request in s.generations[g].holders then
      var gen := s.generations[g];
      s.(generations := s.generations[g := gen.(free := gen.free + 1, holders := gen.holders - {request})])
    else s
  }

  /** What polling a subscription gives: the next message kept, a lag, the end, or nothing yet. */
  function Poll(c: Channel, next: nat): Outcome {
    if next < |c.sent| then
      if |c.sent| - next > CHANNEL_CAPACITY then Lagged(|c.sent| - next - CHANNEL_CAPACITY) else Received(c.sent[next])
    else if c.closed then Closed
    else Pending
  }

  function ReceiveStep(s: State, request: RequestId): State {
    if request in s.waiters && s.waiters[request].outcome == Pending &&
      s.waiters[request].generation in s.generations then
      var w := s.waiters[request];
      s.(waiters := s.waiters[request := w.(outcome := Poll(s.generations[w.generation].channel, w.next))])
    else s
  }

  function Step(s: State, a: Action): State {
    match a
    case Check(key, limit) => CheckStep(s, key, limit)
    case ResolveRemove(key, value) => Removed(s, key, AboutToSend(value), false)
    case ResolveSend(g) => SendStep(s, g)
    case ResolveDrop(g) => DropStep(s, g)
    case Cleanup(key) => Removed(s, key, CleanedUp, true)
    case ReleasePermit(g, request) => ReleaseStep(s, g, request)
    case Receive(request) => ReceiveStep(s, request)
  }

  function Run(actions: seq<Action>): State {
    if actions == [] then Initial else Step(Run(actions[..|actions| - 1]), actions[|actions| - 1])
  }

  // ----- invariant ------------------------------------------------------------------------

  /** The channel and the map agree with the phase, and permits add up. */
  ghost predicate GenerationOk(s: State, g: GenerationId)
    requires g in s.generations
  {
    var gen := s.generations[g];
    && g < s.counter
    && |gen.holders| + gen.free == gen.limit
    && (forall r :: r in gen.holders ==> r < s.counter)
    && (gen.phase.InMap? <==> gen.key in s.inFlight && s.inFlight[gen.key] == g)
    && match gen.phase
       case InMap => gen.channel == Channel([], false)
       case AboutToSend(_) => gen.channel == Channel([], false)
       case Resolved(v) => gen.channel.sent == [v]
       case CleanedUp => gen.channel == Channel([], true)
  }

  ghost predicate WaiterOk(s: State, r: RequestId)
    requires r in s.waiters
  {
    var w := s.waiters[r];
    && r < s.counter && w.generation in s.generations && w.next == 0
    && match w.outcome
       case Pending => true
       case Received(v) => s.generations[w.generation].phase == Resolved(v)
       case Closed => s.generations[w.generation].phase == CleanedUp
       case Lagged(_) => false
  }

  ghost predicate Inv(s: State) {
    && (forall k :: k in s.inFlight ==> s.inFlight[k] in s.generations && s.generations[s.inFlight[k]].key == k)
    && (forall g :: g in s.generations ==> GenerationOk(s, g))
    && (forall r :: r in s.waiters ==> WaiterOk(s, r))
  }

  lemma CheckAwaitKeepsInv(s: State, key: Key, limit: Limit)
    requires Inv(s) && key in s.inFlight && Decide(s, key).Await?
    ensures Inv(CheckStep(s, key, limit))
  {
    var t := CheckStep(s, key, limit);
    assert GenerationOk(s, s.inFlight[key]);
    assert t.generations == s.generations && t.inFlight == s.inFlight;
    forall g | g in t.generations
      ensures GenerationOk(t, g)
    {
      assert GenerationOk(s, g);
    }
    forall r | r in t.waiters
      ensures WaiterOk(t, r)
    {
      if r in s.waiters { assert WaiterOk(s, r); }
    }
  }

  lemma CheckAcquireKeepsInv(s: State, key: Key, limit: Limit)
    requires Inv(s) && key in s.inFlight && Decide(s, key).Proceed?
    ensures Inv(CheckStep(s, key, limit))
  {
    var t := CheckStep(s, key, limit);
    forall g | g in t.generations
      ensures GenerationOk(t, g)
    {
      assert GenerationOk(s, g);
    }
    forall r | r in t.waiters
      ensures WaiterOk(t, r)
    {
      assert WaiterOk(s, r);
    }
  }

  lemma CheckVacantKeepsInv(s: State, key: Key, limit: Limit)
    requires Inv(s) && key !in s.inFlight
    ensures Inv(CheckStep(s, key, limit))
  {
    var t := CheckStep(s, key, limit);
    forall g | g in t.generations
      ensures GenerationOk(t, g)
    {
      if g in s.generations { assert GenerationOk(s, g); }
    }
    forall r | r in t.waiters
      ensures WaiterOk(t, r)
    {
      assert WaiterOk(s, r);
      assert GenerationOk(s, s.waiters[r].generation);
    }
  }

  lemma CheckKeepsInv(s: State, key: Key, limit: Limit)
    requires Inv(s)
    ensures Inv(CheckStep(s, key, limit))
  {
    if key !in s.inFlight {
      CheckVacantKeepsInv(s, key, limit);
    } else if Decide(s, key).Await? {
      CheckAwaitKeepsInv(s, key, limit);
    } else {
      CheckAcquireKeepsInv(s, key, limit);
    }
  }

  lemma RemovedKeepsInv(s: State, key: Key, phase: Phase, closed: bool)
    requires Inv(s) && !phase.InMap? && !phase.Resolved? && (closed <==> phase.CleanedUp?)
    ensures Inv(Removed(s, key, phase, closed))
  {
    var t := Removed(s, key, phase, closed);
    forall g | g in t.generations
      ensures GenerationOk(t, g)
    {
      assert GenerationOk(s, g);
      if key in s.inFlight { assert GenerationOk(s, s.inFlight[key]); }
    }
    forall r | r in t.waiters
      ensures WaiterOk(t, r)
    {
      assert WaiterOk(s, r);
      assert GenerationOk(s, s.waiters[r].generation);
      if key in s.inFlight { assert GenerationOk(s, s.inFlight[key]); }
    }
  }

  lemma GenerationStepKeepsInv(s: State, a: Action)
    requires Inv(s) && (a.ResolveSend? || a.ResolveDrop? || a.ReleasePermit?)
    ensures Inv(Step(s, a))
  {
    var t := Step(s, a);
    forall g | g in t.generations
      ensures GenerationOk(t, g)
    {
      assert GenerationOk(s, g);
    }
    forall r | r in t.waiters
      ensures WaiterOk(t, r)
    {
      assert WaiterOk(s, r);
    }
  }

  lemma ReceiveKeepsInv(s: State, request: RequestId)
    requires Inv(s)
    ensures Inv(ReceiveStep(s, request))
  {
    var t := ReceiveStep(s, request);
    forall g | g in t.generations
      ensures GenerationOk(t, g)
    {
      assert GenerationOk(s, g);
    }
    forall r | r in t.waiters
      ensures WaiterOk(t, r)
    {
      assert WaiterOk(s, r);
      assert GenerationOk(s, s.waiters[r].generation);
    }
  }

  lemma StepKeepsInv(s: State, a: Action)
    requires Inv(s)
    ensures Inv(Step(s, a))
  {
    match a {
      case Check(key, limit) => CheckKeepsInv(s, key, limit);
      case ResolveRemove(key, value) => RemovedKeepsInv(s, key, AboutToSend(value), false);
      case Cleanup(key) => RemovedKeepsInv(s, key, CleanedUp, true);
      case Receive(request) => ReceiveKeepsInv(s, request);
      case _ => GenerationStepKeepsInv(s, a);
    }
  }

  /** Every interleaving keeps the invariant. */
  lemma {:induction false} RunKeepsInv(actions: seq<Action>)
    ensures Inv(Run(actions))
  {
    if actions != [] {
      RunKeepsInv(actions[..|actions| - 1]);
      StepKeepsInv(Run(actions[..|actions| - 1]), actions[|actions| - 1]);
    }
  }

  // ----- what never changes back ----------------------------------------------------------

  predicate KeepsPromise(p: Phase, q: Phase) {
    match p
    case InMap => true
    case AboutToSend(v) => q == AboutToSend(v) || q == Resolved(v)
    case Resolved(v) => q == Resolved(v)
    case CleanedUp => q == CleanedUp
  }

  ghost predicate GenerationEvolves(s: State, t: State, g: GenerationId)
    requires g in s.generations
  {
    && g in t.generations
    && t.generations[g].key == s.generations[g].key
    && t.generations[g].limit == s.generations[g].limit
    && KeepsPromise(s.generations[g].phase, t.generations[g].phase)
  }

  ghost predicate WaiterEvolves(s: State, t: State, r: RequestId)
    requires r in s.waiters
  {
    && r in t.waiters
    && t.waiters[r].generation == s.waiters[r].generation
    && (s.waiters[r].outcome.Pending? || t.waiters[r].outcome == s.waiters[r].outcome)
  }

  ghost predicate Evolves(s: State, t: State) {
    && s.counter <= t.counter
    && (forall g :: g in s.generations ==> GenerationEvolves(s, t, g))
    && (forall r :: r in s.waiters ==> WaiterEvolves(s, t, r))
  }

  /** One step on one generation; leaving the map takes a resolve or a cleanup of its own key. */
  lemma GenerationStep(s: State, a: Action, g: GenerationId)
    requires Inv(s) && g in s.generations
    ensures GenerationEvolves(s, Step(s, a), g)
    ensures
      var p := s.generations[g].phase;
      var q := Step(s, a).generations[g].phase;
      var key := s.generations[g].key;
      p.InMap? && !q.InMap? ==>
        && key in s.inFlight && s.inFlight[key] == g
        && match a
           case ResolveRemove(k, v) => k == key && q == AboutToSend(v)
           case Cleanup(k) => k == key && q == CleanedUp
           case _ => false
  {
    assert GenerationOk(s, g);
    match a {
      case Check(key, limit) =>
      case ResolveRemove(key, value) =>
        if key in s.inFlight { assert GenerationOk(s, s.inFlight[key]); }
      case Cleanup(key) =>
        if key in s.inFlight { assert GenerationOk(s, s.inFlight[key]); }
      case _ =>
    }
  }

  lemma WaiterStep(s: State, a: Action, r: RequestId)
    requires Inv(s) && r in s.waiters
    ensures WaiterEvolves(s, Step(s, a), r)
  {
    assert WaiterOk(s, r);
  }

  lemma StepEvolves(s: State, a: Action)
    requires Inv(s)
    ensures Evolves(s, Step(s, a))
  {
    var t := Step(s, a);
    forall g | g in s.generations
      ensures GenerationEvolves(s, t, g)
    {
      GenerationStep(s, a, g);
    }
    forall r | r in s.waiters
      ensures WaiterEvolves(s, t, r)
    {
      WaiterStep(s, a, r);
    }
  }

  lemma EvolvesIsTransitive(s: State, t: State, u: State)
    requires Evolves(s, t) && Evolves(t, u)
    ensures Evolves(s, u)
  {
    forall g | g in s.generations
      ensures GenerationEvolves(s, u, g)
    {
      assert GenerationEvolves(s, t, g);
      assert GenerationEvolves(t, u, g);
    }
    forall r | r in s.waiters
      ensures WaiterEvolves(s, u, r)
    {
      assert WaiterEvolves(s, t, r);
      assert WaiterEvolves(t, u, r);
    }
  }

  lemma EvolvesIsReflexive(s: State)
    ensures Evolves(s, s)
  {
    forall g | g in s.generations
      ensures GenerationEvolves(s, s, g)
    {
    }
  }

  /** Along a run a generation never changes its mind and an outcome is never replaced. */
  lemma {:induction false} RunEvolves(actions: seq<Action>, n: nat)
    requires n <= |actions|
    ensures Evolves(Run(actions[..n]), Run(actions))
  {
    if n == |actions| {
      assert actions[..n] == actions;
      EvolvesIsReflexive(Run(actions));
    } else {
      var before := actions[..|actions| - 1];
      assert before[..n] == actions[..n];
      RunEvolves(before, n);
      RunKeepsInv(before);
      StepEvolves(Run(before), actions[|actions| - 1]);
      EvolvesIsTransitive(Run(actions[..n]), Run(before), Run(actions));
    }
  }

  // ----- what waiters get -----------------------------------------------------------------

  /** The answer a generation in this phase owes to each of its waiters. */
  function Owed(p: Phase): Outcome {
    match p
    case InMap => Pending
    case AboutToSend(_) => Pending
    case Resolved(v) => Received(v)
    case CleanedUp => Closed
  }

  /**
   * A waiter that polls gets exactly what its generation owes: nothing while the generation is in
   * the map or about to send, the one value sent, or the end after a cleanup.  It never lags.
   */
  lemma WaiterGetsWhatIsOwed(actions: seq<Action>, r: RequestId)
    requires r in Run(actions).waiters
    ensures
      var s := Run(actions);
      var w := s.waiters[r];
      && w.generation in s.generations
      && !w.outcome.Lagged?
      && (w.outcome == Pending || w.outcome == Owed(s.generations[w.generation].phase))
      && Step(s, Receive(r)).waiters[r].outcome == Owed(s.generations[w.generation].phase)
  {
    RunKeepsInv(actions);
    var s := Run(actions);
    assert WaiterOk(s, r);
    assert GenerationOk(s, s.waiters[r].generation);
  }

  /** At any two moments of a run, what two waiters of one generation have is one and the same. */
  lemma OneAnswerPerGeneration(actions: seq<Action>, n: nat, r1: RequestId, r2: RequestId)
    requires n <= |actions|
    requires r1 in Run(actions[..n]).waiters && r2 in Run(actions).waiters
    requires Run(actions[..n]).waiters[r1].generation == Run(actions).waiters[r2].generation
    requires !Run(actions[..n]).waiters[r1].outcome.Pending? && !Run(actions).waiters[r2].outcome.Pending?
    ensures Run(actions[..n]).waiters[r1].outcome == Run(actions).waiters[r2].outcome
  {
    RunEvolves(actions, n);
    WaiterGetsWhatIsOwed(actions[..n], r1);
    WaiterGetsWhatIsOwed(actions, r2);
  }

  /** Once its generation is out of the map, two more steps give a waiter its outcome. */
  lemma NoWaiterIsStuck(actions: seq<Action>, r: RequestId)
    requires r in Run(actions).waiters
    ensures
      var s := Run(actions);
      var g := s.waiters[r].generation;
      var t := Step(Step(s, ResolveSend(g)), Receive(r));
      && g in s.generations
      && (t.waiters[r].outcome == Pending <==>
        s.generations[g].key in s.inFlight && s.inFlight[s.generations[g].key] == g)
  {
    RunKeepsInv(actions);
    var s := Run(actions);
    var g := s.waiters[r].generation;
    assert WaiterOk(s, r);
    assert GenerationOk(s, g);
    var sent := Step(s, ResolveSend(g));
    StepKeepsInv(s, ResolveSend(g));
    assert WaiterOk(sent, r);
    assert GenerationOk(sent, g);
  }

  /**
   * Whatever runs between the two halves of a resolve and the poll, the value of the resolve that
   * took the generation out of the map is the value its waiters get.
   */
  lemma ResolveReachesItsWaiters(actions: seq<Action>, key: Key, value: Val, between: seq<Action>, r: RequestId)
    requires key in Run(actions).inFlight
    requires r in Run(actions).waiters && Run(actions).waiters[r].generation == Run(actions).inFlight[key]
    ensures
      var s := Run(actions + [ResolveRemove(key, value)] + between);
      var t := Step(Step(s, ResolveSend(Run(actions).inFlight[key])), Receive(r));
      r in t.waiters && t.waiters[r].outcome == Received(value)
  {
    var g := Run(actions).inFlight[key];
    var removed := actions + [ResolveRemove(key, value)];
    var all := removed + between;
    assert removed[..|actions|] == actions && all[..|removed|] == removed && all[..|actions|] == actions;
    RunKeepsInv(actions);
    RunKeepsInv(all);
    RunEvolves(all, |removed|);
    RunEvolves(all, |actions|);
    assert Run(removed) == Step(Run(actions), ResolveRemove(key, value));
    TakenEntryIsPromised(Run(actions), key, value);
    assert WaiterEvolves(Run(actions), Run(all), r);
    assert GenerationEvolves(Run(removed), Run(all), g);
    PromiseIsKept(Run(all), g, value, r);
  }

  lemma TakenEntryIsPromised(s: State, key: Key, value: Val)
    requires Inv(s) && key in s.inFlight
    ensures
      var t := Step(s, ResolveRemove(key, value));
      s.inFlight[key] in t.generations && t.generations[s.inFlight[key]].phase == AboutToSend(value)
  {
  }

  lemma {:induction false} PromiseIsKept(s: State, g: GenerationId, value: Val, r: RequestId)
    requires Inv(s) && g in s.generations && KeepsPromise(AboutToSend(value), s.generations[g].phase)
    requires r in s.waiters && s.waiters[r].generation == g
    ensures
      var t := Step(Step(s, ResolveSend(g)), Receive(r));
      r in t.waiters && t.waiters[r].outcome == Received(value)
  {
    assert WaiterOk(s, r) && GenerationOk(s, g);
    var sent := Step(s, ResolveSend(g));
    assert sent.generations[g].channel.sent == [value];
    assert sent.waiters == s.waiters;
  }

  /** Once the sender of a resolved generation is dropped its channel is closed, the value still in it. */
  lemma SenderIsGone(actions: seq<Action>, g: GenerationId)
    requires g in Run(actions).generations && Run(actions).generations[g].phase.Resolved?
    ensures
      var channel := Step(Run(actions), ResolveDrop(g)).generations[g].channel;
      channel == Channel([Run(actions).generations[g].phase.value], true)
  {
    RunKeepsInv(actions);
    assert GenerationOk(Run(actions), g);
  }

  // ----- who gave what --------------------------------------------------------------------

  /** At moment `i` generation `g` was the one in the map for the key. */
  ghost predicate Current(actions: seq<Action>, i: nat, key: Key, g: GenerationId) {
    && i < |actions|
    && key in Run(actions[..i]).inFlight
    && Run(actions[..i]).inFlight[key] == g
  }

  ghost predicate ResolvedAt(actions: seq<Action>, i: nat, key: Key, g: GenerationId, value: Val) {
    Current(actions, i, key, g) && actions[i] == ResolveRemove(key, value)
  }

  ghost predicate CleanedAt(actions: seq<Action>, i: nat, key: Key, g: GenerationId) {
    Current(actions, i, key, g) && actions[i] == Cleanup(key)
  }

  /** Step `i` made the generation, for a request asking for that limit, when none was in the map. */
  ghost predicate CreatedAt(actions: seq<Action>, i: nat, key: Key, g: GenerationId, limit: Limit) {
    && i < |actions|
    && actions[i] == Check(key, limit)
    && key !in Run(actions[..i]).inFlight
    && Run(actions[..i]).counter == g
  }

  /** Step `i` told the request to wait, at an instant when every permit was held. */
  ghost predicate ToldToWaitAt(actions: seq<Action>, i: nat, r: RequestId, key: Key, g: GenerationId) {
    var s := Run(if i < |actions| then actions[..i] else []);
    && Current(actions, i, key, g)
    && actions[i].Check? && actions[i].key == key
    && s.counter == r
    && g in s.generations
    && s.generations[g].free == 0
    && |s.generations[g].holders| == s.generations[g].limit
  }

  ghost predicate PhaseExplained(actions: seq<Action>, key: Key, g: GenerationId, p: Phase) {
    match p
    case InMap => true
    case AboutToSend(v) => exists i: nat :: ResolvedAt(actions, i, key, g, v)
    case Resolved(v) => exists i: nat :: ResolvedAt(actions, i, key, g, v)
    case CleanedUp => exists i: nat :: CleanedAt(actions, i, key, g)
  }

  lemma ExplanationsLast(actions: seq<Action>, a: Action, key: Key, g: GenerationId, p: Phase)
    requires PhaseExplained(actions, key, g, p)
    ensures PhaseExplained(actions + [a], key, g, p)
  {
    var more := actions + [a];
    forall i: nat | i < |actions|
      ensures more[..i] == actions[..i]
    {
    }
    match p {
      case InMap =>
      case AboutToSend(v) =>
        var i: nat :| ResolvedAt(actions, i, key, g, v);
        assert ResolvedAt(more, i, key, g, v);
      case Resolved(v) =>
        var i: nat :| ResolvedAt(actions, i, key, g, v);
        assert ResolvedAt(more, i, key, g, v);
      case CleanedUp =>
        var i: nat :| CleanedAt(actions, i, key, g);
        assert CleanedAt(more, i, key, g);
    }
  }

  /** A generation leaves the map only by a resolve or a cleanup of its own key. */
  lemma {:induction false} PhasesAreExplained(actions: seq<Action>, g: GenerationId)
    requires g in Run(actions).generations
    ensures PhaseExplained(actions, Run(actions).generations[g].key, g, Run(actions).generations[g].phase)
  {
    var n := |actions| - 1;
    var before := actions[..n];
    var a := actions[n];
    var s := Run(before);
    RunKeepsInv(before);
    if g in s.generations {
      var gen := s.generations[g];
      GenerationStep(s, a, g);
      assert Step(s, a) == Run(actions);
      PhasesAreExplained(before, g);
      ExplanationsLast(before, a, gen.key, g, gen.phase);
      assert before + [a] == actions;
      PhaseStepExplained(actions, gen.key, g, gen.phase, Run(actions).generations[g].phase);
    } else {
      NewGenerationStep(s, a, g);
    }
  }

  lemma PhaseStepExplained(actions: seq<Action>, key: Key, g: GenerationId, p: Phase, q: Phase)
    requires actions != [] && KeepsPromise(p, q) && PhaseExplained(actions, key, g, p)
    requires
      var n := |actions| - 1;
      p.InMap? && !q.InMap? ==>
        && Current(actions, n, key, g)
        && match actions[n]
           case ResolveRemove(k, v) => k == key && q == AboutToSend(v)
           case Cleanup(k) => k == key && q == CleanedUp
           case _ => false
    ensures PhaseExplained(actions, key, g, q)
  {
    var n := |actions| - 1;
    if p.InMap? && !q.InMap? {
      match actions[n] {
        case ResolveRemove(_, v) =>
          assert ResolvedAt(actions, n, key, g, v);
        case Cleanup(_) =>
          assert CleanedAt(actions, n, key, g);
        case _ =>
      }
    }
  }

  lemma NewGenerationStep(s: State, a: Action, g: GenerationId)
    requires g !in s.generations && g in Step(s, a).generations
    ensures a.Check? && a.key !in s.inFlight && g == s.counter
    ensures Step(s, a).generations[g] == NewGeneration(a.key, a.limit, s.counter)
  {
  }

  lemma NewWaiterStep(s: State, a: Action, r: RequestId)
    requires Inv(s) && r !in s.waiters && r in Step(s, a).waiters
    ensures
      var g := Step(s, a).waiters[r].generation;
      && a.Check? && r == s.counter && a.key in s.inFlight && s.inFlight[a.key] == g
      && g in s.generations && s.generations[g].key == a.key && s.generations[g].free == 0
      && |s.generations[g].holders| == s.generations[g].limit
  {
    assert GenerationOk(s, s.inFlight[a.key]);
  }

  /** Every generation was made by one check, whose limit is the limit it keeps. */
  lemma {:induction false} GenerationsAreCreated(actions: seq<Action>, g: GenerationId)
    requires g in Run(actions).generations
    ensures
      var gen := Run(actions).generations[g];
      exists i: nat :: CreatedAt(actions, i, gen.key, g, gen.limit)
  {
    var n := |actions| - 1;
    var before := actions[..n];
    var s := Run(before);
    if g in s.generations {
      RunKeepsInv(before);
      StepEvolves(s, actions[n]);
      GenerationsAreCreated(before, g);
      var i: nat :| CreatedAt(before, i, s.generations[g].key, g, s.generations[g].limit);
      assert before[..i] == actions[..i];
      assert CreatedAt(actions, i, s.generations[g].key, g, s.generations[g].limit);
    } else {
      var a := actions[n];
      NewGenerationStep(s, a, g);
      assert CreatedAt(actions, n, a.key, g, a.limit);
    }
  }

  /** Every waiter was told to wait for its generation, with all its permits held at that instant. */
  lemma {:induction false} WaitersWereTold(actions: seq<Action>, r: RequestId)
    requires r in Run(actions).waiters
    ensures Run(actions).waiters[r].generation in Run(actions).generations
    ensures
      var g := Run(actions).waiters[r].generation;
      exists i: nat :: ToldToWaitAt(actions, i, r, Run(actions).generations[g].key, g)
  {
    var n := |actions| - 1;
    var before := actions[..n];
    var s := Run(before);
    RunKeepsInv(before);
    var g := Run(actions).waiters[r].generation;
    assert Run(actions) == Step(s, actions[n]);
    if r in s.waiters {
      WaiterStep(s, actions[n], r);
      WaitersWereTold(before, r);
      GenerationStep(s, actions[n], g);
      var i: nat :| ToldToWaitAt(before, i, r, s.generations[g].key, g);
      assert before[..i] == actions[..i];
      assert ToldToWaitAt(actions, i, r, s.generations[g].key, g);
    } else {
      var a := actions[n];
      NewWaiterStep(s, a, r);
      GenerationStep(s, a, g);
      assert ToldToWaitAt(actions, n, r, a.key, g);
    }
  }

  /** Out of the map is out for good: whoever is current later was still there before. */
  lemma CurrentMeansInMap(actions: seq<Action>, i: nat, j: nat, key: Key, g: GenerationId)
    requires i <= j && Current(actions, j, key, g)
    ensures g in Run(actions[..i]).generations ==> Run(actions[..i]).generations[g].phase.InMap?
  {
    assert actions[..j][..i] == actions[..i];
    RunEvolves(actions[..j], i);
    RunKeepsInv(actions[..j]);
    RunKeepsInv(actions[..i]);
    assert GenerationOk(Run(actions[..j]), g);
    if g in Run(actions[..i]).generations {
      assert GenerationOk(Run(actions[..i]), g);
    }
  }

  lemma RemovalEndsCurrent(actions: seq<Action>, i: nat, j: nat, key: Key, g: GenerationId)
    requires i <= j && Current(actions, i, key, g) && Current(actions, j, key, g)
    requires (actions[i].ResolveRemove? || actions[i].Cleanup?) && actions[i].key == key
    ensures i == j
  {
    if i < j {
      var prefix := actions[..i + 1];
      assert prefix[..i] == actions[..i];
      RunKeepsInv(actions[..i]);
      assert GenerationOk(Run(actions[..i]), g);
      CurrentMeansInMap(actions, i + 1, j, key, g);
    }
  }

  /**
   * The fate of a waiter, over every interleaving.  It was told to wait when all permits of its
   * generation were held; what it received is the value a later resolve of its own key gave, and
   * it saw the channel closed only after a later cleanup of its own key.
   */
  lemma WaiterFate(actions: seq<Action>, r: RequestId)
    requires r in Run(actions).waiters
    ensures
      var s := Run(actions);
      var w := s.waiters[r];
      && w.generation in s.generations
      && exists told: nat ::
           && ToldToWaitAt(actions, told, r, s.generations[w.generation].key, w.generation)
           && FateExplained(actions, told, s.generations[w.generation].key, w.generation, w.outcome)
  {
    WaiterGetsWhatIsOwed(actions, r);
    WaitersWereTold(actions, r);
    var s := Run(actions);
    var w := s.waiters[r];
    var g := w.generation;
    var key := s.generations[g].key;
    PhasesAreExplained(actions, g);
    var told: nat :| ToldToWaitAt(actions, told, r, key, g);
    match w.outcome {
      case Received(v) =>
        var j: nat :| ResolvedAt(actions, j, key, g, v);
        if j <= told { RemovalEndsCurrent(actions, j, told, key, g); }
        assert told < j && ResolvedAt(actions, j, key, g, v);
      case Closed =>
        var j: nat :| CleanedAt(actions, j, key, g);
        if j <= told { RemovalEndsCurrent(actions, j, told, key, g); }
        assert told < j && CleanedAt(actions, j, key, g);
      case _ =>
    }
    assert FateExplained(actions, told, key, g, w.outcome);
  }

  ghost predicate FateExplained(actions: seq<Action>, told: nat, key: Key, g: GenerationId, o: Outcome) {
    match o
    case Pending => true
    case Received(v) => exists j: nat :: told < j && ResolvedAt(actions, j, key, g, v)
    case Closed => exists j: nat :: told < j && CleanedAt(actions, j, key, g)
    case Lagged(_) => false
  }

  /** A generation's permits add up to the limit of the request that made it, at every moment. */
  lemma PermitsAreConserved(actions: seq<Action>, g: GenerationId)
    requires g in Run(actions).generations
    ensures
      var gen := Run(actions).generations[g];
      && |gen.holders| + gen.free == gen.limit
      && exists i: nat :: CreatedAt(actions, i, gen.key, g, gen.limit)
  {
    RunKeepsInv(actions);
    assert GenerationOk(Run(actions), g);
    GenerationsAreCreated(actions, g);
  }

  // ----- who holds a permit ---------------------------------------------------------------

  /** Step `i` let the request proceed with a permit of this generation. */
  ghost predicate ProceededAt(actions: seq<Action>, i: nat, r: RequestId, g: GenerationId) {
    && i < |actions|
    && actions[i].Check?
    && Run(actions[..i]).counter == r
    && Decide(Run(actions[..i]), actions[i].key) == Proceed(g)
  }

  /** Let through by some step and not releasing since. */
  ghost predicate HoldsPermit(actions: seq<Action>, r: RequestId, g: GenerationId) {
    exists i: nat :: ProceededAt(actions, i, r, g) && NotReleasedSince(actions, i, r, g)
  }

  ghost predicate NotReleasedSince(actions: seq<Action>, i: nat, r: RequestId, g: GenerationId) {
    forall j :: i < j < |actions| ==> actions[j] != ReleasePermit(g, r)
  }

  /** How one step changes who holds a permit: its check lets one in, its release lets one out. */
  lemma HoldersStep(s: State, a: Action, g: GenerationId, r: RequestId)
    requires Inv(s) && g in Step(s, a).generations
    ensures
      r in Step(s, a).generations[g].holders <==>
        || (a.Check? && Decide(s, a.key) == Proceed(g) && r == s.counter)
        || (g in s.generations && r in s.generations[g].holders && a != ReleasePermit(g, r))
  {
    if g in s.generations {
      assert GenerationOk(s, g);
    }
    match a {
      case Check(key, _) => if key in s.inFlight { assert GenerationOk(s, s.inFlight[key]); }
      case _ =>
    }
  }

  lemma HoldsPermitStep(actions: seq<Action>, a: Action, g: GenerationId, r: RequestId)
    ensures
      HoldsPermit(actions + [a], r, g) <==>
        || (a.Check? && Decide(Run(actions), a.key) == Proceed(g) && r == Run(actions).counter)
        || (HoldsPermit(actions, r, g) && a != ReleasePermit(g, r))
  {
    var more := actions + [a];
    forall i: nat | i <= |actions|
      ensures more[..i] == actions[..i]
    {
    }
    if HoldsPermit(actions, r, g) && a != ReleasePermit(g, r) {
      var i: nat :| ProceededAt(actions, i, r, g) && NotReleasedSince(actions, i, r, g);
      assert ProceededAt(more, i, r, g) && NotReleasedSince(more, i, r, g);
    }
    assert actions[..|actions|] == actions;
    if a.Check? && Decide(Run(actions), a.key) == Proceed(g) && r == Run(actions).counter {
      assert ProceededAt(more, |actions|, r, g) && NotReleasedSince(more, |actions|, r, g);
    }
    if HoldsPermit(more, r, g) {
      var i: nat :| ProceededAt(more, i, r, g) && NotReleasedSince(more, i, r, g);
      if i < |actions| {
        assert more[|actions|] == a;
        assert NotReleasedSince(actions, i, r, g) by {
          assert forall j :: i < j < |actions| ==> more[j] == actions[j];
        }
        assert ProceededAt(actions, i, r, g);
      }
    }
  }

  /**
   * Over every run: the requests holding a permit of a generation are exactly those that a check let
   * through with it and that have not released it since.
   */
  lemma {:induction false} HoldersAreThoseWhoProceeded(actions: seq<Action>, g: GenerationId, r: RequestId)
    ensures
      g in Run(actions).generations && r in Run(actions).generations[g].holders <==> HoldsPermit(actions, r, g)
  {
    if actions != [] {
      var before, a := actions[..|actions| - 1], actions[|actions| - 1];
      assert before + [a] == actions;
      RunKeepsInv(before);
      HoldersAreThoseWhoProceeded(before, g, r);
      HoldsPermitStep(before, a, g, r);
      if g in Run(actions).generations {
        HoldersStep(Run(before), a, g, r);
      } else {
        ProceedingGenerationExists(Run(before), a, g);
      }
    }
  }

  lemma ProceedingGenerationExists(s: State, a: Action, g: GenerationId)
    requires Inv(s) && g !in Step(s, a).generations
    ensures g !in s.generations
    ensures !(a.Check? && Decide(s, a.key) == Proceed(g))
  {
    if g in s.generations {
      GenerationStep(s, a, g);
    }
  }

  /** A dropped permit comes back: after a holder of the current generation lets go, the next check proceeds. */
  lemma ReleasedPermitIsTakenAgain(actions: seq<Action>, key: Key, r: RequestId, limit: Limit)
    requires key in Run(actions).inFlight
    requires HoldsPermit(actions, r, Run(actions).inFlight[key])
    ensures
      var g := Run(actions).inFlight[key];
      var released := actions + [ReleasePermit(g, r)];
      var checked := released + [Check(key, limit)];
      && Decide(Run(released), key) == Proceed(g)
      && HoldsPermit(checked, Run(released).counter, g)
      && !HoldsPermit(checked, r, g)
  {
    var s := Run(actions);
    var g := s.inFlight[key];
    var release, check := ReleasePermit(g, r), Check(key, limit);
    var released := actions + [release];
    var checked := released + [check];
    RunKeepsInv(actions);
    HoldersAreThoseWhoProceeded(actions, g, r);
    assert GenerationOk(s, g);
    assert released[..|actions|] == actions && checked[..|released|] == released;
    assert Run(released) == Step(s, release);
    assert r != Run(released).counter;
    HoldsPermitStep(actions, release, g, r);
    HoldsPermitStep(released, check, g, r);
    HoldsPermitStep(released, check, g, Run(released).counter);
  }

  /** A check proceeds exactly when no generation is current or the current one has a permit nobody holds. */
  lemma CheckProceedsIff(actions: seq<Action>, key: Key)
    ensures
      var s := Run(actions);
      Decide(s, key).Proceed? <==>
        (key in s.inFlight ==>
           s.inFlight[key] in s.generations
           && |s.generations[s.inFlight[key]].holders| < s.generations[s.inFlight[key]].limit)
  {
    var s := Run(actions);
    RunKeepsInv(actions);
    if key in s.inFlight {
      assert GenerationOk(s, s.inFlight[key]);
    }
  }

  /**
   * The bound is per generation only: once an entry is out of the map, a new one for the same key
   * starts with a whole set of permits beside the holders of the old one.
   */
  lemma OldHoldersMayStillRun(key: Key, value: Val)
    ensures
      var s := Run([Check(key, 1), ResolveRemove(key, value), Check(key, 1)]);
      && s.generations.Keys == {0, 1}
      && s.generations[0].key == key == s.generations[1].key
      && s.generations[0].holders == {0} && s.generations[1].holders == {1}
  {
    var first := [Check(key, 1)];
    var second := [Check(key, 1), ResolveRemove(key, value)];
    var third := [Check(key, 1), ResolveRemove(key, value), Check(key, 1)];
    assert first[..0] == [] && second[..1] == first && third[..2] == second;
    assert Run(first) == Step(Initial, Check(key, 1));
    assert Run(second) == Step(Run(first), ResolveRemove(key, value));
    assert Run(third) == Step(Run(second), Check(key, 1));
  }

  // ----- the manager itself ---------------------------------------------------------------

  /** The shared manager; each method is one atomic step, except `Resolve`, which is three. */
  class BroadcastConcurrencyManager {
    var inFlight: map<Key, GenerationId>
    var generations: map<GenerationId, Generation>
    var waiters: map<RequestId, Waiter>
    var counter: nat

    function Snapshot(): State
      reads this
    {
      State(inFlight, generations, waiters, counter)
    }

    constructor ()
      ensures Snapshot() == Initial
    {
      inFlight, generations, waiters, counter := map[], map[], map[], 0;
    }

    method Check(key: Key, limit: Limit) returns (decision: Decision)
      requires Inv(Snapshot())
      modifies this
      ensures Snapshot() == Step(old(Snapshot()), Action.Check(key, limit)) && Inv(Snapshot())
      ensures decision == Decide(old(Snapshot()), key)
    {
      StepKeepsInv(Snapshot(), Action.Check(key, limit));
      var request := counter;
      if key in inFlight {
        var g := inFlight[key];
        var gen := generations[g];
        if gen.free > 0 {
          generations := generations[g := gen.(free := gen.free - 1, holders := gen.holders + {request})];
          decision := Proceed(g);
        } else {
          waiters := waiters[request := Waiter(g, |gen.channel.sent|, Pending)];
          decision := Await(g);
        }
      } else {
        generations := generations[request := Generation(key, limit, limit - 1, {request}, Channel([], false), InMap)];
        inFlight := inFlight[key := request];
        decision := Proceed(request);
      }
      counter := counter + 1;
    }

    /** First half of a resolve: the entry leaves the map, its sender is now private to the caller. */
    method TakeEntry(key: Key, value: Val) returns (taken: Option<GenerationId>)
      requires Inv(Snapshot())
      modifies this
      ensures Snapshot() == Step(old(Snapshot()), ResolveRemove(key, value)) && Inv(Snapshot())
      ensures taken == if key in old(inFlight) then Some(old(inFlight)[key]) else None
      ensures taken.Some? ==> taken.value in generations && generations[taken.value].phase == AboutToSend(value)
    {
      StepKeepsInv(Snapshot(), ResolveRemove(key, value));
      if key !in inFlight {
        return None;
      }
      var g := inFlight[key];
      inFlight := inFlight - {key};
      generations := generations[g := generations[g].(phase := AboutToSend(value))];
      taken := Some(g);
    }

    /** Second half: the value is sent to whoever subscribed. */
    method Send(g: GenerationId)
      requires Inv(Snapshot()) && g in generations && generations[g].phase.AboutToSend?
      modifies this
      ensures Snapshot() == Step(old(Snapshot()), ResolveSend(g)) && Inv(Snapshot())
      ensures g in generations && generations[g].phase == Resolved(old(generations)[g].phase.value)
    {
      StepKeepsInv(Snapshot(), ResolveSend(g));
      var gen := generations[g];
      var value := gen.phase.value;
      var sent := gen.channel.sent + [value];
      generations := generations[g := gen.(phase := Resolved(value), channel := gen.channel.(sent := sent))];
    }

    method DropSender(g: GenerationId)
      requires Inv(Snapshot()) && g in generations && generations[g].phase.Resolved?
      modifies this
      ensures Snapshot() == Step(old(Snapshot()), ResolveDrop(g)) && Inv(Snapshot())
    {
      StepKeepsInv(Snapshot(), ResolveDrop(g));
      var gen := generations[g];
      generations := generations[g := gen.(channel := gen.channel.(closed := true))];
    }

    /** A resolve that nothing interrupts. */
    method Resolve(key: Key, value: Val)
      requires Inv(Snapshot())
      modifies this
      ensures Inv(Snapshot())
      ensures
        var removed := Step(old(Snapshot()), ResolveRemove(key, value));
        Snapshot() ==
          if key in old(inFlight) then
            var g := old(inFlight)[key];
            Step(Step(removed, ResolveSend(g)), ResolveDrop(g))
          else removed
    {
      var taken := TakeEntry(key, value);
      if taken.Some? {
        Send(taken.value);
        DropSender(taken.value);
      }
    }

    method Cleanup(key: Key)
      requires Inv(Snapshot())
      modifies this
      ensures Snapshot() == Step(old(Snapshot()), Action.Cleanup(key)) && Inv(Snapshot())
    {
      StepKeepsInv(Snapshot(), Action.Cleanup(key));
      if key in inFlight {
        var g := inFlight[key];
        var gen := generations[g];
        inFlight := inFlight - {key};
        generations := generations[g := gen.(phase := CleanedUp, channel := gen.channel.(closed := true))];
      }
    }

    method ReleasePermit(g: GenerationId, request: RequestId)
      requires Inv(Snapshot()) && g in generations && request in generations[g].holders
      modifies this
      ensures Snapshot() == Step(old(Snapshot()), Action.ReleasePermit(g, request)) && Inv(Snapshot())
    {
      StepKeepsInv(Snapshot(), Action.ReleasePermit(g, request));
      var gen := generations[g];
      generations := generations[g := gen.(free := gen.free + 1, holders := gen.holders - {request})];
    }

    /** One poll of the future that a waiter was given. */
    method Receive(request: RequestId) returns (outcome: Outcome)
      requires Inv(Snapshot()) && request in waiters && waiters[request].outcome.Pending?
      modifies this
      ensures Snapshot() == Step(old(Snapshot()), Action.Receive(request)) && Inv(Snapshot())
      ensures waiters[request].outcome == outcome
      ensures outcome == Owed(old(generations)[old(waiters)[request].generation].phase)
    {
      StepKeepsInv(Snapshot(), Action.Receive(request));
      var w := waiters[request];
      assert WaiterOk(Snapshot(), request) && GenerationOk(Snapshot(), w.generation);
      outcome := Poll(generations[w.generation].channel, w.next);
      waiters := waiters[request := w.(outcome := outcome)];
    }
  }
}
