/** Collecting a whole body, and the trailers an inspection passes over. */
module BodyCollect {
  import opened Wrappers
  import opened Values
  import opened Bodies

  /** All data of a stream, or its first error. */
  function CollectStream(events: seq<Event>): Result<Bytes, StreamError> {
    var drained := DrainEvents(events);
    if drained.error.Some? then Err(drained.error.value) else Ok(drained.data)
  }

  /** The whole body, or a body that still carries the buffered prefix and the error. */
  function Collect(b: BufferedBody): Result<Bytes, BufferedBody> {
    match b
    case Complete(data) => Ok(OrEmpty(data))
    case Passthrough(stream) =>
      match CollectStream(stream.events) {
        case Ok(bytes) => Ok(bytes)
        case Err(e) => Err(Partial(None, Error(Some(e))))
      }
    case Partial(prefix, Body(stream)) =>
      match CollectStream(stream.events) {
        case Ok(bytes) => Ok(OrEmpty(prefix) + bytes)
        case Err(e) => Err(Partial(prefix, Error(Some(e))))
      }
    case Partial(prefix, Error(stored)) => Err(Partial(prefix, Error(stored)))
  }

  /** The body's stored error was handed out by an earlier poll. */
  predicate ErrorTaken(b: BufferedBody) {
    b.Partial? && b.remaining == Error(None)
  }

  /** What the body had buffered before collecting. */
  function Buffered(b: BufferedBody): Bytes {
    match b
    case Complete(data) => OrEmpty(data)
    case Partial(prefix, _) => OrEmpty(prefix)
    case Passthrough(_) => []
  }

  /**
   * Collecting succeeds exactly when draining ends cleanly and no stored error was already taken, and then
   * yields everything drained; on failure the body replays what was buffered and then the same error.
   */
  lemma CollectMatchesDrain(b: BufferedBody)
    ensures Collect(b).Ok? <==> Drain(b).error.None? && !ErrorTaken(b)
    ensures Collect(b).Ok? ==> Collect(b).value == Drain(b).data
    ensures Collect(b).Err? ==> Drain(Collect(b).error) == Drained(Buffered(b), Drain(b).error)
  {
    DrainClosedForm(b);
    if Collect(b).Err? {
      DrainClosedForm(Collect(b).error);
      assert Buffered(b) + [] == Buffered(b);
    }
  }

  /** The events a body has not read yet. */
  function EventsOf(b: BufferedBody): seq<Event> {
    match b
    case Passthrough(stream) => stream.events
    case Partial(_, Body(stream)) => stream.events
    case _ => []
  }

  /** No data frame with a byte in it comes before the first failure or the end. */
  predicate NoDataBeforeFailure(events: seq<Event>) {
    || events == []
    || events[0].Failure?
    || (!(events[0].Data? && events[0].bytes != []) && NoDataBeforeFailure(events[1..]))
  }

  lemma {:induction false} NothingDrainedIff(events: seq<Event>)
    ensures DrainEvents(events).data == [] <==> NoDataBeforeFailure(events)
  {
    if events != [] {
      NothingDrainedIff(events[1..]);
      if events[0].Data? {
        assert DrainEvents(events).data == events[0].bytes + DrainEvents(events[1..]).data;
      }
    }
  }

  /** A failed collect is transparent if and only if the stream's failure is not behind any data. */
  lemma FailedCollectTransparency(b: BufferedBody)
    requires Collect(b).Err?
    ensures Drain(Collect(b).error) == Drain(b) <==> NoDataBeforeFailure(EventsOf(b))
  {
    CollectMatchesDrain(b);
    DrainClosedForm(b);
    NothingDrainedIff(EventsOf(b));
    var read := DrainEvents(EventsOf(b)).data;
    assert Drain(b).data == Buffered(b) + read;
    assert |Buffered(b) + read| == |Buffered(b)| + |read|;
  }

  /** One byte and then a failure: the body a failed collect returns has lost the byte. */
  lemma FailedCollectLosesData(s: Stream, e: StreamError)
    requires s.events == [Data([1]), Failure(e)]
    ensures Drain(Passthrough(s)) == Drained([1], Some(e))
    ensures Collect(Passthrough(s)).Err?
    ensures Drain(Collect(Passthrough(s)).error) == Drained([], Some(e))
  {
    var one: Bytes := [1];
    assert s.events[1..] == [Failure(e)];
    assert DrainEvents(s.events[1..]) == Drained([], Some(e));
    assert one + [] == one;
    assert DrainEvents(s.events) == Drained(one, Some(e));
    DrainStream(s);
    CollectMatchesDrain(Passthrough(s));
  }

  // ----- trailers ---------------------------------------------------------------------------

  /** Trailer frames before the first error or the end. */
  function TrailerCount(events: seq<Event>): nat {
    if events == [] || events[0].Failure? then 0
    else (if events[0].Trailers? then 1 else 0) + TrailerCount(events[1..])
  }

  function TrailersLeft(b: BufferedBody): nat {
    TrailerCount(EventsOf(b))
  }

  /** The events an inspection takes off the stream before it is satisfied, or before the end or an error. */
  function Consumed(events: seq<Event>, limit: nat, have: nat): nat {
    if have >= limit || events == [] || events[0].Failure? then 0
    else 1 + Consumed(events[1..], limit, have + if events[0].Data? then |events[0].bytes| else 0)
  }

  lemma {:induction false} TakeFromLosesTrailers(s: Stream, limit: nat, buffer: Bytes)
    ensures Consumed(s.events, limit, |buffer|) <= |s.events|
    ensures
      var passed := s.events[..Consumed(s.events, limit, |buffer|)];
      TrailersLeft(IntoBufferedBody(TakeFrom(s, limit, buffer))) + TrailerCount(passed) == TrailerCount(s.events)
    decreases |s.events|
  {
    var events := s.events;
    var n := Consumed(events, limit, |buffer|);
    if n == 0 {
      assert events[..0] == [];
    } else {
      var next := if events[0].Data? then buffer + events[0].bytes else buffer;
      TakeFromLosesTrailers(s.Advance(), limit, next);
      assert events[..n][1..] == events[1..][..n - 1];
    }
  }

  /** The events that inspecting this body takes off its stream. */
  function ConsumedFrom(b: BufferedBody, limit: nat): nat {
    match b
    case Passthrough(stream) => Consumed(stream.events, limit, 0)
    case Partial(prefix, Body(stream)) =>
      if prefix.Some? && |prefix.value| >= limit then 0 else Consumed(stream.events, limit - |OrEmpty(prefix)|, 0)
    case _ => 0
  }

  /** The trailers among them: the frames an inspection reads past and does not keep. */
  function TrailersPassed(b: BufferedBody, limit: nat): nat
    requires ConsumedFrom(b, limit) <= |EventsOf(b)|
  {
    TrailerCount(EventsOf(b)[..ConsumedFrom(b, limit)])
  }

  lemma InspectionSplitsTrailers(b: BufferedBody, limit: nat)
    ensures ConsumedFrom(b, limit) <= |EventsOf(b)|
    ensures TrailersLeft(Inspect(b, limit)) + TrailersPassed(b, limit) == TrailersLeft(b)
  {
    match b {
      case Passthrough(stream) => TakeFromLosesTrailers(stream, limit, []);
      case Partial(prefix, Body(stream)) =>
        if !(prefix.Some? && |prefix.value| >= limit) {
          var taken := TakeFrom(stream, limit - |OrEmpty(prefix)|, []);
          TakeFromLosesTrailers(stream, limit - |OrEmpty(prefix)|, []);
          assert TrailersLeft(IntoBufferedBody(WithPrefix(prefix, taken))) == TrailersLeft(IntoBufferedBody(taken));
        }
      case _ =>
    }
  }

  /** Inspecting a body keeps its trailers if and only if it read past none of them. */
  lemma TrailersSurviveIffNotRead(b: BufferedBody, limit: nat)
    ensures ConsumedFrom(b, limit) <= |EventsOf(b)|
    ensures TrailersLeft(Inspect(b, limit)) == TrailersLeft(b) <==> TrailersPassed(b, limit) == 0
  {
    InspectionSplitsTrailers(b, limit);
  }

  /** The trailers a reader gets who mixes inspections with reads and then reads on to the end or an error. */
  function TrailersSeen(b: BufferedBody, actions: seq<Action>): nat
    decreases |actions|
  {
    if actions == [] then TrailersLeft(b)
    else
      match actions[0]
      case Look(limit) => TrailersSeen(Inspect(b, limit), actions[1..])
      case Read =>
        match Poll(b)
        case (None, _) => 0
        case (Some(Failure(_)), _) => 0
        case (Some(Trailers), rest) => 1 + TrailersSeen(rest, actions[1..])
        case (Some(Data(_)), rest) => TrailersSeen(rest, actions[1..])
  }

  /** The trailers the same reader's inspections read past. */
  function TrailersLost(b: BufferedBody, actions: seq<Action>): nat
    decreases |actions|
  {
    if actions == [] then 0
    else
      match actions[0]
      case Look(limit) =>
        InspectionSplitsTrailers(b, limit);
        TrailersPassed(b, limit) + TrailersLost(Inspect(b, limit), actions[1..])
      case Read =>
        match Poll(b)
        case (None, _) => 0
        case (Some(Failure(_)), _) => 0
        case (Some(_), rest) => TrailersLost(rest, actions[1..])
  }

  /** Over any mixture of inspections and reads, every trailer is either seen or was read past by a look. */
  lemma {:induction false} TrailersAreSeenOrLost(b: BufferedBody, actions: seq<Action>)
    ensures TrailersSeen(b, actions) + TrailersLost(b, actions) == TrailersLeft(b)
    decreases |actions|
  {
    if actions != [] {
      match actions[0] {
        case Look(limit) =>
          InspectionSplitsTrailers(b, limit);
          TrailersAreSeenOrLost(Inspect(b, limit), actions[1..]);
        case Read =>
          TrailersAreSeenOrLost(Poll(b).1, actions[1..]);
      }
    }
  }

  /** An inspection that runs to the end of a body drops its trailers. */
  lemma TrailersCanBeLost(s: Stream)
    requires s.events == [Data([1]), Trailers]
    ensures TrailersLeft(Passthrough(s)) == 1 && TrailersLeft(Inspect(Passthrough(s), 2)) == 0
  {
    var t := s.Advance();
    var one: Bytes := [1];
    assert t.events == [Trailers] && t.Advance().events == [];
    assert TrailerCount(s.events) == TrailerCount(t.events) == 1;
    assert [] + one == one && s.events[0] == Data(one);
    assert TakeFrom(s, 2, []) == TakeFrom(t, 2, one);
    assert TakeFrom(t, 2, one) == TakeFrom(t.Advance(), 2, one) == Incomplete(Some(one), None);
  }

  // ----- inspecting and then collecting ---------------------------------------------------

  lemma {:induction false} TakeFromTakesNoError(s: Stream, limit: nat, buffer: Bytes)
    ensures
      var r := TakeFrom(s, limit, buffer);
      r.AtLeast? ==> r.rest.Some? && r.rest.value.Body?
    decreases |s.events|
  {
    if |buffer| < limit && s.events != [] && !s.events[0].Failure? {
      TakeFromTakesNoError(s.Advance(), limit, if s.events[0].Data? then buffer + s.events[0].bytes else buffer);
    }
  }

  /** Inspecting never makes a body look as if its error had been handed out. */
  lemma InspectionTakesNoError(b: BufferedBody, limit: nat)
    requires !ErrorTaken(b)
    ensures !ErrorTaken(Inspect(b, limit))
  {
    match b {
      case Passthrough(stream) => TakeFromTakesNoError(stream, limit, []);
      case Partial(prefix, Body(stream)) =>
        if !(prefix.Some? && |prefix.value| >= limit) {
          TakeFromTakesNoError(stream, limit - |OrEmpty(prefix)|, []);
        }
      case _ =>
    }
  }

  /** So a body collects after an inspection exactly when it did before, and to the same bytes. */
  lemma CollectAfterInspection(b: BufferedBody, limit: nat)
    requires !ErrorTaken(b)
    ensures Collect(Inspect(b, limit)).Ok? <==> Collect(b).Ok?
    ensures Collect(b).Ok? ==> Collect(Inspect(b, limit)) == Collect(b)
  {
    InspectionTakesNoError(b, limit);
    InspectionIsTransparent(b, limit);
    CollectMatchesDrain(b);
    CollectMatchesDrain(Inspect(b, limit));
  }
}
