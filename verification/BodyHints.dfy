/** Size hints and end-of-stream flags of buffered bodies, with the saturating 64-bit arithmetic. */
module BodyHints {
  import opened Wrappers
  import opened Values
  import opened Bodies

  const U64_MAX := 0xFFFF_FFFF_FFFF_FFFF

  function SaturatingAdd(a: nat, b: nat): nat {
    if a + b > U64_MAX then U64_MAX else a + b
  }

  function Max(a: nat, b: nat): nat {
    if a >= b then a else b
  }

  function Exactly(n: nat, ended: bool): Hint {
    Hint(n, Some(n), ended)
  }

  /** The size hint together with the end-of-stream flag. */
  function BodyHint(b: BufferedBody): Hint {
    match b
    case Complete(data) => Exactly(|OrEmpty(data)|, data.None?)
    case Partial(prefix, Error(stored)) => Exactly(|OrEmpty(prefix)|, prefix.None? && stored.None?)
    case Partial(prefix, Body(stream)) =>
      var inner := stream.SizeHint();
      var lower := SaturatingAdd(inner.lower, |OrEmpty(prefix)|);
      var upper := if inner.upper.None? then None
        else Some(Max(SaturatingAdd(inner.upper.value, |OrEmpty(prefix)|), lower));
      Hint(lower, upper, prefix.None? && inner.ended)
    case Passthrough(stream) => stream.SizeHint()
  }

  predicate Brackets(h: Hint, n: nat) {
    h.lower <= n && (h.upper.Some? ==> n <= h.upper.value)
  }

  /** The stream's own hints are right for every number of events still to come. */
  ghost predicate Sound(s: Stream) {
    forall k :: 0 <= k <= |s.events| ==> SoundAt(s, k)
  }

  predicate SoundAt(s: Stream, k: nat)
    requires k <= |s.events|
  {
    var rest := s.events[|s.events| - k..];
    Brackets(s.hints(k), |DrainEvents(rest).data|) && (s.hints(k).ended ==> rest == [])
  }

  ghost predicate SoundBody(b: BufferedBody) {
    match b
    case Passthrough(stream) => Sound(stream)
    case Partial(_, Body(stream)) => Sound(stream)
    case _ => true
  }

  lemma AdvanceKeepsSound(s: Stream)
    requires Sound(s) && s.events != []
    ensures Sound(s.Advance())
  {
    var t := s.Advance();
    forall k | 0 <= k <= |t.events|
      ensures SoundAt(t, k)
    {
      assert SoundAt(s, k);
      assert t.events[|t.events| - k..] == s.events[|s.events| - k..];
    }
  }

  lemma {:induction false} TakeFromKeepsSound(s: Stream, limit: nat, buffer: Bytes)
    requires Sound(s)
    ensures SoundBody(IntoBufferedBody(TakeFrom(s, limit, buffer)))
    decreases |s.events|
  {
    if |buffer| < limit && s.events != [] && !s.events[0].Failure? {
      AdvanceKeepsSound(s);
      TakeFromKeepsSound(s.Advance(), limit, if s.events[0].Data? then buffer + s.events[0].bytes else buffer);
    }
  }

  /** One poll or one inspection keeps sound stream hints. */
  lemma StepKeepsSound(b: BufferedBody, limit: nat)
    requires SoundBody(b)
    ensures SoundBody(Poll(b).1) && SoundBody(Inspect(b, limit))
  {
    match b {
      case Complete(_) =>
      case Passthrough(stream) =>
        if stream.events != [] { AdvanceKeepsSound(stream); }
        TakeFromKeepsSound(stream, limit, []);
      case Partial(prefix, remaining) =>
        if remaining.Body? {
          if remaining.stream.events != [] { AdvanceKeepsSound(remaining.stream); }
          if !(prefix.Some? && |prefix.value| >= limit) {
            TakeFromKeepsSound(remaining.stream, limit - |OrEmpty(prefix)|, []);
          }
        }
    }
  }

  /** The bounds never cross, however wrong the stream's own hint is, so building the hint cannot fail. */
  lemma BufferedBoundsNeverCross(b: BufferedBody)
    requires !b.Passthrough?
    ensures BodyHint(b).upper.Some? ==> BodyHint(b).lower <= BodyHint(b).upper.value
  {
  }

  /**
   * With a sound stream and less than 2^64 bytes to come, the hint brackets the data still to be read
   * before the end or an error, and an end-of-stream flag means the next poll is the end.
   */
  lemma HintsAreSound(b: BufferedBody)
    requires SoundBody(b) && |Drain(b).data| <= U64_MAX
    ensures Brackets(BodyHint(b), |Drain(b).data|)
    ensures BodyHint(b).upper.Some? ==> BodyHint(b).lower <= BodyHint(b).upper.value
    ensures BodyHint(b).ended ==> Poll(b).0.None?
  {
    DrainClosedForm(b);
    match b {
      case Complete(_) =>
      case Passthrough(stream) => assert SoundAt(stream, |stream.events|);
      case Partial(prefix, remaining) =>
        if remaining.Body? {
          assert SoundAt(remaining.stream, |remaining.stream.events|);
        }
    }
  }

  // ----- every state reached --------------------------------------------------------------

  /** The body after these polls and inspections, errors and the end notwithstanding. */
  function After(b: BufferedBody, actions: seq<Action>): BufferedBody
    decreases |actions|
  {
    if actions == [] then b
    else After(if actions[0].Read? then Poll(b).1 else Inspect(b, actions[0].limit), actions[1..])
  }

  /** All data bytes a body holds, those behind a failure included. */
  function AllData(b: BufferedBody): nat {
    match b
    case Complete(data) => |OrEmpty(data)|
    case Partial(prefix, Body(stream)) => |OrEmpty(prefix)| + |DataOf(stream.events)|
    case Partial(prefix, Error(_)) => |OrEmpty(prefix)|
    case Passthrough(stream) => |DataOf(stream.events)|
  }

  lemma {:induction false} DrainedIsSomeData(events: seq<Event>)
    ensures |DrainEvents(events).data| <= |DataOf(events)|
  {
    if events != [] {
      DrainedIsSomeData(events[1..]);
    }
  }

  lemma {:induction false} TakeFromAddsNoData(s: Stream, limit: nat, buffer: Bytes)
    ensures AllData(IntoBufferedBody(TakeFrom(s, limit, buffer))) <= |buffer| + |DataOf(s.events)|
    decreases |s.events|
  {
    if |buffer| < limit && s.events != [] && !s.events[0].Failure? {
      TakeFromAddsNoData(s.Advance(), limit, if s.events[0].Data? then buffer + s.events[0].bytes else buffer);
    }
  }

  lemma PrefixAddsItself(prefix: Option<Bytes>, r: CollectExactResult)
    ensures
      AllData(IntoBufferedBody(WithPrefix(prefix, r))) == |OrEmpty(prefix)| + AllData(IntoBufferedBody(r))
  {
  }

  lemma PollAddsNoData(b: BufferedBody)
    ensures AllData(Poll(b).1) <= AllData(b)
  {
  }

  lemma InspectAddsNoData(b: BufferedBody, limit: nat)
    ensures AllData(Inspect(b, limit)) <= AllData(b)
  {
    match b {
      case Complete(_) =>
      case Passthrough(stream) => TakeFromAddsNoData(stream, limit, []);
      case Partial(prefix, Error(_)) =>
      case Partial(prefix, Body(stream)) =>
        if !(prefix.Some? && |prefix.value| >= limit) {
          var left := limit - |OrEmpty(prefix)|;
          TakeFromAddsNoData(stream, left, []);
          PrefixAddsItself(prefix, TakeFrom(stream, left, []));
        }
    }
  }

  lemma DrainIsSomeData(b: BufferedBody)
    ensures |Drain(b).data| <= AllData(b)
  {
    DrainClosedForm(b);
    match b {
      case Passthrough(stream) => DrainedIsSomeData(stream.events);
      case Partial(_, Body(stream)) => DrainedIsSomeData(stream.events);
      case _ =>
    }
  }

  /** Every state reached by any polls and inspections keeps sound stream hints and holds no more data. */
  lemma {:induction false} SoundnessIsKept(b: BufferedBody, actions: seq<Action>)
    requires SoundBody(b)
    ensures SoundBody(After(b, actions)) && AllData(After(b, actions)) <= AllData(b)
    decreases |actions|
  {
    if actions != [] {
      var limit := if actions[0].Look? then actions[0].limit else 0;
      StepKeepsSound(b, limit);
      PollAddsNoData(b);
      InspectAddsNoData(b, limit);
      SoundnessIsKept(if actions[0].Read? then Poll(b).1 else Inspect(b, limit), actions[1..]);
    }
  }

  /**
   * With a sound stream of less than 2^64 data bytes, the hint is right in every state reached: it
   * brackets what is still to be read, its bounds do not cross, and its end flag means the end.
   */
  lemma HintsStaySound(b: BufferedBody, actions: seq<Action>)
    requires SoundBody(b) && AllData(b) <= U64_MAX
    ensures
      var now := After(b, actions);
      && Brackets(BodyHint(now), |Drain(now).data|)
      && (BodyHint(now).upper.Some? ==> BodyHint(now).lower <= BodyHint(now).upper.value)
      && (BodyHint(now).ended ==> Poll(now).0.None?)
  {
    SoundnessIsKept(b, actions);
    DrainIsSomeData(After(b, actions));
    HintsAreSound(After(b, actions));
  }

  // ----- how much the hint says -----------------------------------------------------------

  function StreamOf(b: BufferedBody): Option<Stream> {
    match b
    case Passthrough(stream) => Some(stream)
    case Partial(_, Body(stream)) => Some(stream)
    case _ => None
  }

  /** Without a stream the size is known exactly, and the end is announced exactly when it is reached. */
  lemma BufferedHintIsExact(b: BufferedBody)
    requires StreamOf(b).None?
    ensures BodyHint(b).lower == |Drain(b).data| && BodyHint(b).upper == Some(|Drain(b).data|)
    ensures BodyHint(b).ended <==> Poll(b).0.None?
  {
    DrainClosedForm(b);
  }

  /** What is buffered before the stream. */
  function Ahead(b: BufferedBody): Option<Bytes> {
    if b.Partial? then b.prefix else None
  }

  /**
   * With a stream, both bounds are the stream's own shifted by what is buffered, as long as 64 bits hold
   * them; and the end is announced exactly when nothing is buffered and the stream announces it.
   */
  lemma StreamHintIsShifted(b: BufferedBody)
    requires StreamOf(b).Some?
    ensures
      var inner, more := StreamOf(b).value.SizeHint(), |OrEmpty(Ahead(b))|;
      && (inner.lower + more <= U64_MAX ==> BodyHint(b).lower == inner.lower + more)
      && (inner.upper.None? ==> BodyHint(b).upper.None?)
      && (inner.upper.Some? && inner.lower <= inner.upper.value && inner.upper.value + more <= U64_MAX ==>
            BodyHint(b).upper == Some(inner.upper.value + more))
      && (BodyHint(b).ended <==> Ahead(b).None? && inner.ended)
  {
  }

  /** The stream knows how much data it has left, at every point. */
  ghost predicate ExactStream(s: Stream) {
    forall k :: 0 <= k <= |s.events| ==> ExactAt(s, k)
  }

  predicate ExactAt(s: Stream, k: nat)
    requires k <= |s.events|
  {
    var left := |DrainEvents(s.events[|s.events| - k..]).data|;
    s.hints(k).lower == left && s.hints(k).upper == Some(left)
  }

  lemma ExactStreamGivesExactHint(b: BufferedBody)
    requires StreamOf(b).Some? && ExactStream(StreamOf(b).value) && |Drain(b).data| <= U64_MAX
    ensures BodyHint(b).lower == |Drain(b).data| && BodyHint(b).upper == Some(|Drain(b).data|)
  {
    var s := StreamOf(b).value;
    assert ExactAt(s, |s.events|);
    assert s.events[0..] == s.events;
    DrainClosedForm(b);
    StreamHintIsShifted(b);
  }

  /** `t` is what is left of `s`: fewer events, the same hints. */
  ghost predicate IsRestOf(t: Option<Stream>, s: Option<Stream>) {
    t.Some? ==>
      && s.Some? && t.value.hints == s.value.hints && |t.value.events| <= |s.value.events|
      && t.value.events == s.value.events[|s.value.events| - |t.value.events|..]
  }

  lemma RestOfRest(s: Option<Stream>, t: Option<Stream>, u: Option<Stream>)
    requires IsRestOf(t, s) && IsRestOf(u, t)
    ensures IsRestOf(u, s)
  {
  }

  lemma {:induction false} TakeFromLeavesRest(s: Stream, limit: nat, buffer: Bytes)
    ensures IsRestOf(StreamOf(IntoBufferedBody(TakeFrom(s, limit, buffer))), Some(s))
    decreases |s.events|
  {
    if |buffer| < limit && s.events != [] && !s.events[0].Failure? {
      var next := if s.events[0].Data? then buffer + s.events[0].bytes else buffer;
      TakeFromLeavesRest(s.Advance(), limit, next);
      RestOfRest(Some(s), Some(s.Advance()), StreamOf(IntoBufferedBody(TakeFrom(s.Advance(), limit, next))));
    }
  }

  lemma InspectLeavesRest(b: BufferedBody, limit: nat)
    ensures IsRestOf(StreamOf(Inspect(b, limit)), StreamOf(b))
  {
    match b {
      case Complete(_) =>
      case Passthrough(stream) => TakeFromLeavesRest(stream, limit, []);
      case Partial(prefix, Error(_)) =>
      case Partial(prefix, Body(stream)) =>
        if !(prefix.Some? && |prefix.value| >= limit) {
          TakeFromLeavesRest(stream, limit - |OrEmpty(prefix)|, []);
        }
    }
  }

  lemma StepLeavesRest(b: BufferedBody, a: Action)
    ensures IsRestOf(StreamOf(if a.Read? then Poll(b).1 else Inspect(b, a.limit)), StreamOf(b))
  {
    if a.Look? {
      InspectLeavesRest(b, a.limit);
    }
  }

  lemma {:induction false} UseLeavesRest(b: BufferedBody, actions: seq<Action>)
    ensures IsRestOf(StreamOf(After(b, actions)), StreamOf(b))
    decreases |actions|
  {
    if actions != [] {
      var next := if actions[0].Read? then Poll(b).1 else Inspect(b, actions[0].limit);
      var rest := actions[1..];
      StepLeavesRest(b, actions[0]);
      UseLeavesRest(next, rest);
      RestOfRest(StreamOf(b), StreamOf(next), StreamOf(After(next, rest)));
    }
  }

  lemma RestStaysExact(s: Stream, t: Stream)
    requires ExactStream(s) && IsRestOf(Some(t), Some(s))
    ensures ExactStream(t)
  {
    forall k | 0 <= k <= |t.events|
      ensures ExactAt(t, k)
    {
      assert ExactAt(s, k);
      assert t.events[|t.events| - k..] == s.events[|s.events| - k..];
    }
  }

  /**
   * In every state reached by polls and inspections, a body over a stream that knows its size, or over
   * none, states exactly how much data a reader will get.
   */
  lemma HintsStayExact(b: BufferedBody, actions: seq<Action>)
    requires StreamOf(b).Some? ==> ExactStream(StreamOf(b).value)
    requires AllData(b) <= U64_MAX
    ensures
      var now := After(b, actions);
      && BodyHint(now).lower == |Drain(now).data| && BodyHint(now).upper == Some(|Drain(now).data|)
      && (StreamOf(now).None? ==> (BodyHint(now).ended <==> Poll(now).0.None?))
      && (StreamOf(now).Some? ==>
            (BodyHint(now).ended <==> Ahead(now).None? && StreamOf(now).value.SizeHint().ended))
  {
    var now := After(b, actions);
    UseLeavesRest(b, actions);
    UseAddsNoData(b, actions);
    DrainIsSomeData(now);
    if StreamOf(now).Some? {
      RestStaysExact(StreamOf(b).value, StreamOf(now).value);
      ExactStreamGivesExactHint(now);
      StreamHintIsShifted(now);
    } else {
      BufferedHintIsExact(now);
    }
  }

  lemma {:induction false} UseAddsNoData(b: BufferedBody, actions: seq<Action>)
    ensures AllData(After(b, actions)) <= AllData(b)
    decreases |actions|
  {
    if actions != [] {
      PollAddsNoData(b);
      InspectAddsNoData(b, if actions[0].Look? then actions[0].limit else 0);
      UseAddsNoData(if actions[0].Read? then Poll(b).1 else Inspect(b, actions[0].limit), actions[1..]);
    }
  }
}
