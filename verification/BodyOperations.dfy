/** Bodies as they are used: polled in place, and read frame by frame into a growing buffer. */
module BodyOperations {
  import opened Wrappers
  import opened Values
  import opened Bodies
  import opened BodyCollect

  class LiveBody {
    var state: BufferedBody

    constructor (initial: BufferedBody)
      ensures state == initial
    {
      state := initial;
    }

    /** One frame: a buffered part is taken out of its field, a stream advances, an error is given once. */
    method PollFrame() returns (frame: Option<Event>)
      modifies this
      ensures (frame, state) == Poll(old(state))
    {
      match state {
        case Complete(data) =>
          state := Complete(None);
          frame := if data.Some? then Some(Data(data.value)) else None;
        case Passthrough(stream) =>
          var (event, rest) := PollStream(stream);
          state := Passthrough(rest);
          frame := event;
        case Partial(prefix, remaining) =>
          if prefix.Some? {
            state := Partial(None, remaining);
            frame := Some(Data(prefix.value));
          } else {
            var (event, rest) := PollRemaining(remaining);
            state := Partial(None, rest);
            frame := event;
          }
      }
    }

    /** Reads to the first error or the end. */
    method ReadAll() returns (drained: Drained)
      modifies this
      ensures drained == Drain(old(state))
    {
      var data: Bytes := [];
      ghost var before := state;
      while true
        invariant Before(data, Drain(state)) == Drain(before)
        decreases PollsLeft(state)
      {
        PollMakesProgress(state);
        ghost var rest := Drain(Poll(state).1);
        var frame := PollFrame();
        match frame {
          case None => return Drained(data, None);
          case Some(Failure(e)) => return Drained(data, Some(e));
          case Some(Trailers) =>
          case Some(Data(d)) =>
            assert data + (d + rest.data) == data + d + rest.data;
            data := data + d;
        }
      }
    }
  }

  /** Reads frames into the buffer while it is short of the limit. */
  method CollectExactFromStream(stream: Stream, limit: nat) returns (r: CollectExactResult)
    ensures r == TakeFrom(stream, limit, [])
  {
    var rest := stream;
    var buffer: Bytes := [];
    while |buffer| < limit
      invariant TakeFrom(rest, limit, buffer) == TakeFrom(stream, limit, [])
      decreases |rest.events|
    {
      var (event, next) := PollStream(rest);
      match event {
        case Some(Data(d)) => buffer := buffer + d;
        case Some(Trailers) =>
        case Some(Failure(e)) => return Incomplete(NonEmpty(buffer), Some(e));
        case None => return Incomplete(NonEmpty(buffer), None);
      }
      rest := next;
    }
    r := AtLeast(buffer, Some(Body(rest)));
  }

  /** The inspection by cases, reading from the stream only when the buffered prefix is too short. */
  method CollectExactly(b: BufferedBody, limit: nat) returns (r: CollectExactResult)
    ensures r == CollectExact(b, limit)
    ensures Drain(IntoBufferedBody(r)) == Drain(b)
    ensures r.AtLeast? <==> |Drain(b).data| >= limit && !(limit == 0 && NothingBuffered(b))
  {
    InspectionIsTransparent(b, limit);
    CollectExactReports(b, limit);
    match b {
      case Complete(data) =>
        if data.Some? && |data.value| >= limit {
          return AtLeast(data.value, None);
        }
        return Incomplete(data, None);
      case Passthrough(stream) => r := CollectExactFromStream(stream, limit);
      case Partial(prefix, remaining) =>
        if prefix.Some? && |prefix.value| >= limit {
          return AtLeast(prefix.value, Some(remaining));
        }
        match remaining {
          case Error(stored) => r := Incomplete(prefix, stored);
          case Body(stream) =>
            var taken := CollectExactFromStream(stream, limit - |OrEmpty(prefix)|);
            r := WithPrefix(prefix, taken);
        }
    }
  }
}
