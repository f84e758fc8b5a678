/**
 * Buffered HTTP bodies: a stream that can be inspected from the front and replayed unchanged.
 */
module Bodies {
  import opened Wrappers
  import opened Values

  type StreamError(!new)

  /** What one poll of a stream can yield. */
  datatype Event = Data(bytes: Bytes) | Trailers | Failure(error: StreamError)

  /** What a stream says about itself; `upper` may be unknown. */
  datatype Hint = Hint(lower: nat, upper: Option<nat>, ended: bool)

  /** The events still to come, and the stream's own hint for each number of remaining events. */
  datatype Stream = Stream(events: seq<Event>, hints: nat -> Hint) {
    function SizeHint(): Hint { hints(|events|) }

    function Advance(): Stream
      requires events != []
    {
      this.(events := events[1..])
    }
  }

  datatype Remaining = Body(stream: Stream) | Error(stored: Option<StreamError>)

  datatype BufferedBody =
    | Complete(data: Option<Bytes>)
    | Partial(prefix: Option<Bytes>, remaining: Remaining)
    | Passthrough(stream: Stream)

  // ----- polling --------------------------------------------------------------------------

  function PollStream(s: Stream): (Option<Event>, Stream) {
    if s.events == [] then (None, s) else (Some(s.events[0]), s.Advance())
  }

  function PollRemaining(r: Remaining): (Option<Event>, Remaining) {
    match r
    case Body(stream) =>
      var (event, rest) := PollStream(stream);
      (event, Body(rest))
    case Error(Some(e)) => (Some(Failure(e)), Error(None))
    case Error(None) => (None, r)
  }

  /** Buffered bytes first, as one frame; then the stream or the stored error, once. */
  function Poll(b: BufferedBody): (Option<Event>, BufferedBody) {
    match b
    case Complete(Some(bytes)) => (Some(Data(bytes)), Complete(None))
    case Complete(None) => (None, b)
    case Partial(Some(bytes), remaining) => (Some(Data(bytes)), Partial(None, remaining))
    case Partial(None, remaining) =>
      var (event, rest) := PollRemaining(remaining);
      (event, Partial(None, rest))
    case Passthrough(stream) =>
      var (event, rest) := PollStream(stream);
      (event, Passthrough(rest))
  }

  /** Polls left before the body is exhausted. */
  function PollsLeft(b: BufferedBody): nat {
    match b
    case Complete(data) => if data.Some? then 1 else 0
    case Partial(prefix, remaining) =>
      (if prefix.Some? then 1 else 0)
      + match remaining { case Body(stream) => |stream.events| case Error(stored) => if stored.Some? then 1 else 0 }
    case Passthrough(stream) => |stream.events|
  }

  lemma PollMakesProgress(b: BufferedBody)
    ensures Poll(b).0.Some? ==> PollsLeft(Poll(b).1) < PollsLeft(b)
    ensures Poll(b).0.None? ==> Poll(b).1 == b
  {
  }

  /** What a reader gets: the data bytes, then the first error or a clean end. */
  datatype Drained = Drained(data: Bytes, error: Option<StreamError>)

  /** A body read to its first error or its end, frame by frame. */
  function Drain(b: BufferedBody): Drained
    decreases PollsLeft(b)
  {
    PollMakesProgress(b);
    match Poll(b)
    case (None, _) => Drained([], None)
    case (Some(Failure(e)), _) => Drained([], Some(e))
    case (Some(Trailers), rest) => Drain(rest)
    case (Some(Data(d)), rest) => Before(d, Drain(rest))
  }

  function Before(d: Bytes, rest: Drained): Drained {
    Drained(d + rest.data, rest.error)
  }

  /** The same for the bare events of a stream. */
  function DrainEvents(events: seq<Event>): Drained {
    if events == [] then Drained([], None)
    else
      match events[0]
      case Failure(e) => Drained([], Some(e))
      case Trailers => DrainEvents(events[1..])
      case Data(d) => Before(d, DrainEvents(events[1..]))
  }

  function DrainRemaining(r: Remaining): Drained {
    match r
    case Body(stream) => DrainEvents(stream.events)
    case Error(stored) => Drained([], stored)
  }

  function OrEmpty(bytes: Option<Bytes>): Bytes {
    if bytes.Some? then bytes.value else []
  }

  lemma {:induction false} DrainStream(s: Stream)
    ensures Drain(Passthrough(s)) == DrainEvents(s.events) == Drain(Partial(None, Body(s)))
    decreases |s.events|
  {
    if s.events != [] {
      DrainStream(s.Advance());
    }
  }

  /** A drain is the buffered bytes followed by what remains. */
  lemma DrainClosedForm(b: BufferedBody)
    ensures Drain(b) ==
              match b
              case Complete(data) => Drained(OrEmpty(data), None)
              case Partial(prefix, remaining) => Before(OrEmpty(prefix), DrainRemaining(remaining))
              case Passthrough(stream) => DrainEvents(stream.events)
  {
    match b {
      case Complete(data) =>
        if data.Some? { assert Drain(Complete(None)) == Drained([], None); }
      case Partial(prefix, remaining) =>
        match remaining {
          case Body(stream) => DrainStream(stream);
          case Error(stored) =>
            assert Drain(Partial(None, Error(None))) == Drained([], None);
        }
        assert Drain(Partial(None, remaining)) == DrainRemaining(remaining);
        assert Before([], DrainRemaining(remaining)) == DrainRemaining(remaining);
      case Passthrough(stream) => DrainStream(stream);
    }
  }

  // ----- inspecting a prefix --------------------------------------------------------------

  datatype CollectExactResult =
    | AtLeast(buffered: Bytes, rest: Option<Remaining>)
    | Incomplete(read: Option<Bytes>, error: Option<StreamError>)

  function NonEmpty(buffer: Bytes): Option<Bytes> {
    if buffer == [] then None else Some(buffer)
  }

  /** Reads frames until the buffer holds `limit` bytes. */
  function TakeFrom(s: Stream, limit: nat, buffer: Bytes): CollectExactResult
    decreases |s.events|
  {
    if |buffer| >= limit then AtLeast(buffer, Some(Body(s)))
    else if s.events == [] then Incomplete(NonEmpty(buffer), None)
    else
      match s.events[0]
      case Failure(e) => Incomplete(NonEmpty(buffer), Some(e))
      case Trailers => TakeFrom(s.Advance(), limit, buffer)
      case Data(d) => TakeFrom(s.Advance(), limit, buffer + d)
  }

  function CombineBytes(prefix: Option<Bytes>, data: Bytes): Bytes {
    match prefix
    case Some(p) => if data != [] then p + data else p
    case None => data
  }

  function CollectExact(b: BufferedBody, limit: nat): CollectExactResult {
    match b
    case Complete(Some(data)) => if |data| >= limit then AtLeast(data, None) else Incomplete(Some(data), None)
    case Complete(None) => Incomplete(None, None)
    case Partial(prefix, remaining) =>
      if prefix.Some? && |prefix.value| >= limit then AtLeast(prefix.value, Some(remaining))
      else
        match remaining {
          case Error(stored) => Incomplete(prefix, stored)
          case Body(stream) => WithPrefix(prefix, TakeFrom(stream, limit - |OrEmpty(prefix)|, []))
        }
    case Passthrough(stream) => TakeFrom(stream, limit, [])
  }

  function WithPrefix(prefix: Option<Bytes>, r: CollectExactResult): CollectExactResult {
    match r
    case AtLeast(buffered, rest) => AtLeast(CombineBytes(prefix, buffered), rest)
    case Incomplete(read, error) =>
      Incomplete(if read.Some? then Some(CombineBytes(prefix, read.value)) else prefix, error)
  }

  function IntoBufferedBody(r: CollectExactResult): BufferedBody {
    match r
    case AtLeast(buffered, Some(rest)) => Partial(Some(buffered), rest)
    case AtLeast(buffered, None) => Complete(Some(buffered))
    case Incomplete(read, Some(e)) => Partial(read, Error(Some(e)))
    case Incomplete(read, None) => Complete(read)
  }

  /** Looking at the first bytes and putting the body back together. */
  function Inspect(b: BufferedBody, limit: nat): BufferedBody {
    IntoBufferedBody(CollectExact(b, limit))
  }

  /** The drain of a collected result, put back together. */
  lemma {:induction false} TakeFromKeepsDrain(s: Stream, limit: nat, buffer: Bytes)
    ensures Drain(IntoBufferedBody(TakeFrom(s, limit, buffer))) == Before(buffer, DrainEvents(s.events))
    decreases |s.events|
  {
    DrainClosedForm(IntoBufferedBody(TakeFrom(s, limit, buffer)));
    if |buffer| < limit && s.events != [] {
      match s.events[0] {
        case Failure(_) =>
        case Trailers => TakeFromKeepsDrain(s.Advance(), limit, buffer);
        case Data(d) =>
          TakeFromKeepsDrain(s.Advance(), limit, buffer + d);
          var rest := DrainEvents(s.events[1..]);
          assert buffer + d + rest.data == buffer + (d + rest.data);
      }
    }
  }

  lemma WithPrefixPrepends(prefix: Option<Bytes>, r: CollectExactResult)
    ensures Drain(IntoBufferedBody(WithPrefix(prefix, r))) == Before(OrEmpty(prefix), Drain(IntoBufferedBody(r)))
  {
    var p := OrEmpty(prefix);
    DrainClosedForm(IntoBufferedBody(r));
    DrainClosedForm(IntoBufferedBody(WithPrefix(prefix, r)));
    match r {
      case AtLeast(buffered, rest) =>
        assert CombineBytes(prefix, buffered) == p + buffered;
        if rest.Some? {
          assert p + buffered + DrainRemaining(rest.value).data == p + (buffered + DrainRemaining(rest.value).data);
        }
      case Incomplete(read, error) =>
        assert OrEmpty(if read.Some? then Some(CombineBytes(prefix, read.value)) else prefix) == p + OrEmpty(read);
        assert p + OrEmpty(read) + [] == p + (OrEmpty(read) + []);
    }
  }

  /** An inspection never changes what a reader gets: same bytes, same first error or clean end. */
  lemma InspectionIsTransparent(b: BufferedBody, limit: nat)
    ensures Drain(Inspect(b, limit)) == Drain(b)
  {
    DrainClosedForm(b);
    DrainClosedForm(Inspect(b, limit));
    match b {
      case Complete(_) =>
      case Partial(prefix, remaining) =>
        if !(prefix.Some? && |prefix.value| >= limit) && remaining.Body? {
          var taken := TakeFrom(remaining.stream, limit - |OrEmpty(prefix)|, []);
          TakeFromKeepsDrain(remaining.stream, limit - |OrEmpty(prefix)|, []);
          WithPrefixPrepends(prefix, taken);
          assert Before([], DrainRemaining(remaining)) == DrainRemaining(remaining);
        }
      case Passthrough(stream) =>
        TakeFromKeepsDrain(stream, limit, []);
        assert Before([], DrainEvents(stream.events)) == DrainEvents(stream.events);
    }
  }

  // ----- any mixture of inspecting and reading --------------------------------------------

  datatype Action = Look(limit: nat) | Read

  /** Bytes handed out so far, and the body left; nothing more is handed out after an error or the end. */
  function Use(b: BufferedBody, actions: seq<Action>): Drained
    decreases |actions|
  {
    if actions == [] then Drain(b)
    else
      match actions[0]
      case Look(limit) => Use(Inspect(b, limit), actions[1..])
      case Read =>
        match Poll(b)
        case (None, _) => Drained([], None)
        case (Some(Failure(e)), _) => Drained([], Some(e))
        case (Some(Trailers), rest) => Use(rest, actions[1..])
        case (Some(Data(d)), rest) => Before(d, Use(rest, actions[1..]))
  }

  /** However inspections are interleaved with reads, the reader gets the original body. */
  lemma {:induction false} UseIsTransparent(b: BufferedBody, actions: seq<Action>)
    ensures Use(b, actions) == Drain(b)
    decreases |actions|
  {
    if actions != [] {
      match actions[0] {
        case Look(limit) =>
          InspectionIsTransparent(b, limit);
          UseIsTransparent(Inspect(b, limit), actions[1..]);
        case Read =>
          UseIsTransparent(Poll(b).1, actions[1..]);
      }
    }
  }

  // ----- what an inspection sees ----------------------------------------------------------

  predicate IsPrefixOf(p: Bytes, s: Bytes) {
    |p| <= |s| && s[..|p|] == p
  }

  /** What a result says of the body it came from. */
  ghost predicate Reports(r: CollectExactResult, limit: nat, drained: Drained) {
    match r
    case AtLeast(buffered, _) => |buffered| >= limit && IsPrefixOf(buffered, drained.data)
    case Incomplete(read, error) => drained == Drained(OrEmpty(read), error)
  }

  lemma {:induction false} TakeFromReports(s: Stream, limit: nat, buffer: Bytes)
    ensures var r := TakeFrom(s, limit, buffer);
            && Reports(r, limit, Before(buffer, DrainEvents(s.events)))
            && (r.Incomplete? ==> |OrEmpty(r.read)| < limit)
    decreases |s.events|
  {
    if |buffer| < limit && s.events != [] {
      match s.events[0] {
        case Failure(_) =>
        case Trailers => TakeFromReports(s.Advance(), limit, buffer);
        case Data(d) =>
          TakeFromReports(s.Advance(), limit, buffer + d);
          var rest := DrainEvents(s.events[1..]);
          assert buffer + d + rest.data == buffer + (d + rest.data);
      }
    }
  }

  /** The bodies that report nothing buffered even when nothing was asked for. */
  predicate NothingBuffered(b: BufferedBody) {
    b == Complete(None) || (b.Partial? && b.prefix.None? && b.remaining.Error?)
  }

  /**
   * An inspection succeeds exactly when the body delivers that many bytes before its end or first error;
   * then it shows a front of them, and otherwise all of them with the error.
   */
  lemma CollectExactReports(b: BufferedBody, limit: nat)
    ensures var r := CollectExact(b, limit);
            && Reports(r, limit, Drain(b))
            && (r.AtLeast? <==> |Drain(b).data| >= limit && !(limit == 0 && NothingBuffered(b)))
            && (limit >= 1 && r.Incomplete? ==> |OrEmpty(r.read)| < limit)
  {
    DrainClosedForm(b);
    match b {
      case Complete(_) =>
      case Partial(prefix, remaining) =>
        if !(prefix.Some? && |prefix.value| >= limit) && remaining.Body? {
          TakeFromReports(remaining.stream, limit - |OrEmpty(prefix)|, []);
          assert Before([], DrainRemaining(remaining)) == DrainRemaining(remaining);
        }
      case Passthrough(stream) =>
        TakeFromReports(stream, limit, []);
        assert Before([], DrainEvents(stream.events)) == DrainEvents(stream.events);
    }
  }

  /** What a body has buffered, if anything. */
  function BufferedPart(b: BufferedBody): Option<Bytes> {
    match b
    case Complete(data) => data
    case Partial(prefix, _) => prefix
    case Passthrough(_) => None
  }

  lemma {:induction false} TakeFromReadsSomething(s: Stream, limit: nat, buffer: Bytes)
    ensures var r := TakeFrom(s, limit, buffer); r.Incomplete? ==> r.read != Some([])
    decreases |s.events|
  {
    if |buffer| < limit && s.events != [] && !s.events[0].Failure? {
      TakeFromReadsSomething(s.Advance(), limit, if s.events[0].Data? then buffer + s.events[0].bytes else buffer);
    }
  }

  /** An inspection that ran short buffers an empty frame only if the body had one buffered before. */
  lemma ShortInspectionAddsNoEmptyFrame(b: BufferedBody, limit: nat)
    ensures var r := CollectExact(b, limit);
            r.Incomplete? && r.read == Some([]) ==> BufferedPart(b) == Some([])
  {
    match b {
      case Complete(_) =>
      case Partial(prefix, remaining) =>
        if !(prefix.Some? && |prefix.value| >= limit) && remaining.Body? {
          TakeFromReadsSomething(remaining.stream, limit - |OrEmpty(prefix)|, []);
        }
      case Passthrough(stream) => TakeFromReadsSomething(stream, limit, []);
    }
  }

  /** Data bytes of a run of events, trailers and failures aside. */
  function DataOf(events: seq<Event>): Bytes {
    if events == [] then []
    else (if events[0].Data? then events[0].bytes else []) + DataOf(events[1..])
  }

  /** Frames are read up to the first boundary that reaches the limit and no further. */
  lemma {:induction false} StopsAtFirstBoundary(s: Stream, limit: nat, buffer: Bytes) returns (k: nat)
    requires TakeFrom(s, limit, buffer).AtLeast?
    ensures k <= |s.events|
    ensures TakeFrom(s, limit, buffer) ==
      AtLeast(buffer + DataOf(s.events[..k]), Some(Body(s.(events := s.events[k..]))))
    ensures k > 0 ==> |buffer + DataOf(s.events[..k - 1])| < limit
    decreases |s.events|
  {
    if |buffer| >= limit {
      k := 0;
      assert s.(events := s.events[0..]) == s && buffer + DataOf(s.events[..0]) == buffer;
    } else {
      var d := if s.events[0].Data? then s.events[0].bytes else [];
      assert buffer + [] == buffer;
      var j := StopsAtFirstBoundary(s.Advance(), limit, buffer + d);
      k := j + 1;
      assert s.events[..k][1..] == s.events[1..][..j] && s.events[1..][j..] == s.events[k..];
      assert buffer + d + DataOf(s.events[1..][..j]) == buffer + DataOf(s.events[..k]);
      if j > 0 {
        assert s.events[..k - 1][1..] == s.events[1..][..j - 1];
        assert buffer + d + DataOf(s.events[1..][..j - 1]) == buffer + DataOf(s.events[..k - 1]);
      } else {
        assert buffer + DataOf(s.events[..0]) == buffer;
      }
    }
  }
}
