/**
 * The byte envelope that carries one layer's, or both layers', serialized data through the
 * untyped backend interface: a 48-byte header followed by the payloads.
 */
module Envelope {
  import opened Wrappers
  import opened Values

  // ----- fixed-width little-endian integers ---------------------------------------------

  /** How many values fit in `width` bytes. */
  function Capacity(width: nat): (c: nat)
    ensures c >= 1
  {
    if width == 0 then 1 else 256 * Capacity(width - 1)
  }

  function ToLittleEndian(n: nat, width: nat): (b: Bytes)
    ensures |b| == width
  {
    if width == 0 then [] else [(n % 256) as byte] + ToLittleEndian(n / 256, width - 1)
  }

  function FromLittleEndian(b: Bytes): (n: nat)
    ensures n < Capacity(|b|)
  {
    if b == [] then 0 else b[0] as nat + 256 * FromLittleEndian(b[1..])
  }

  lemma {:induction false} LittleEndianRoundTrip(n: nat, width: nat)
    requires n < Capacity(width)
    ensures FromLittleEndian(ToLittleEndian(n, width)) == n
  {
    if width > 0 {
      LittleEndianRoundTrip(n / 256, width - 1);
      assert ToLittleEndian(n, width)[1..] == ToLittleEndian(n / 256, width - 1);
    }
  }

  const U32_CAPACITY := 0x1_0000_0000
  const I64_CAPACITY := 0x1_0000_0000_0000_0000

  lemma Capacities()
    ensures Capacity(4) == U32_CAPACITY && Capacity(8) == I64_CAPACITY
  {
    assert Capacity(1) == 256 && Capacity(2) == 0x1_0000 && Capacity(3) == 0x100_0000;
    assert Capacity(4) == 0x1_0000_0000;
    assert Capacity(5) == 0x100_0000_0000 && Capacity(6) == 0x1_0000_0000_0000;
    assert Capacity(7) == 0x100_0000_0000_0000;
  }

  /** `as u32` on a length. */
  function AsU32(n: nat): nat { n % U32_CAPACITY }

  /** Two's complement. */
  function FromI64(raw: nat): int {
    if raw < I64_CAPACITY / 2 then raw else raw - I64_CAPACITY
  }

  // ----- timestamps ---------------------------------------------------------------------

  /** The seconds a calendar instant can have: years -262143 to 262142. */
  const MIN_SECONDS := -8334601228800
  const MAX_SECONDS := 8210266876799

  /** Seconds and nanoseconds of a timestamp; an absent one is written as zeros. */
  function EncodeTimestamp(t: Option<int>): (int, nat) {
    match t
    case Some(ns) => (ns / NANOS_PER_SECOND, ns % NANOS_PER_SECOND)
    case None => (0, 0)
  }

  function DecodeTimestamp(seconds: int, nanos: nat): Option<int> {
    if seconds == 0 && nanos == 0 then None
    else if MIN_SECONDS <= seconds <= MAX_SECONDS && nanos < NANOS_PER_SECOND then
      Some(seconds * NANOS_PER_SECOND + nanos)
    else None
  }

  /** Instants a calendar date can hold. */
  predicate Representable(t: Option<int>) {
    t.Some? ==> MIN_SECONDS <= t.value / NANOS_PER_SECOND <= MAX_SECONDS
  }

  /** The one representable instant the header cannot tell from no instant: the epoch itself. */
  predicate Keepable(t: Option<int>) {
    t != Some(0)
  }

  // ----- header -------------------------------------------------------------------------

  const HEADER_SIZE := 48

  datatype Header = Header(
    discriminant: byte, l1Len: nat, l2Len: nat,
    expireSeconds: int, expireNanos: nat, staleSeconds: int, staleNanos: nat)

  const PAD3: Bytes := [0, 0, 0]
  const PAD4: Bytes := [0, 0, 0, 0]

  function U32Bytes(n: nat): (b: Bytes)
    ensures |b| == 4
  {
    ToLittleEndian(n % U32_CAPACITY, 4)
  }

  function I64Bytes(i: int): (b: Bytes)
    ensures |b| == 8
  {
    ToLittleEndian(i % I64_CAPACITY, 8)
  }

  function U32At(b: Bytes, at: nat): nat
    requires at + 4 <= |b|
  {
    FromLittleEndian(b[at..at + 4])
  }

  function I64At(b: Bytes, at: nat): int
    requires at + 8 <= |b|
  {
    FromI64(FromLittleEndian(b[at..at + 8]))
  }

  function HeaderBytes(h: Header): (b: Bytes)
    ensures |b| == HEADER_SIZE
  {
    [h.discriminant] + PAD3 + U32Bytes(h.l1Len) + U32Bytes(h.l2Len) + PAD4
    + I64Bytes(h.expireSeconds) + U32Bytes(h.expireNanos) + PAD4
    + I64Bytes(h.staleSeconds) + U32Bytes(h.staleNanos) + PAD4
  }

  function HeaderFrom(b: Bytes): Header
    requires |b| >= HEADER_SIZE
  {
    Header(b[0], U32At(b, 4), U32At(b, 8), I64At(b, 16), U32At(b, 24), I64At(b, 32), U32At(b, 40))
  }

  /** Every field fits the width the header gives it. */
  predicate Fits(h: Header) {
    && h.l1Len < U32_CAPACITY && h.l2Len < U32_CAPACITY
    && h.expireNanos < U32_CAPACITY && h.staleNanos < U32_CAPACITY
    && -(I64_CAPACITY / 2) <= h.expireSeconds < I64_CAPACITY / 2
    && -(I64_CAPACITY / 2) <= h.staleSeconds < I64_CAPACITY / 2
  }

  lemma FieldRoundTrip(n: nat, width: nat, field: Bytes)
    requires n < Capacity(width) && field == ToLittleEndian(n, width)
    ensures FromLittleEndian(field) == n
  {
    LittleEndianRoundTrip(n, width);
  }

  lemma U32RoundTrip(n: nat, b: Bytes, at: nat)
    requires n < U32_CAPACITY && at + 4 <= |b| && b[at..at + 4] == U32Bytes(n)
    ensures U32At(b, at) == n
  {
    Capacities();
    FieldRoundTrip(n, 4, b[at..at + 4]);
  }

  lemma I64RoundTrip(i: int, b: Bytes, at: nat)
    requires -(I64_CAPACITY / 2) <= i < I64_CAPACITY / 2
    requires at + 8 <= |b| && b[at..at + 8] == I64Bytes(i)
    ensures I64At(b, at) == i
  {
    Capacities();
    FieldRoundTrip(i % I64_CAPACITY, 8, b[at..at + 8]);
    assert i % I64_CAPACITY == if i >= 0 then i else i + I64_CAPACITY;
  }

  lemma HeaderLengthsRoundTrip(h: Header, rest: Bytes)
    requires h.l1Len < U32_CAPACITY && h.l2Len < U32_CAPACITY
    ensures |HeaderBytes(h) + rest| >= HEADER_SIZE
    ensures var got := HeaderFrom(HeaderBytes(h) + rest);
            got.discriminant == h.discriminant && got.l1Len == h.l1Len && got.l2Len == h.l2Len
  {
    var b := HeaderBytes(h) + rest;
    assert b[4..8] == U32Bytes(h.l1Len);
    U32RoundTrip(h.l1Len, b, 4);
    assert b[8..12] == U32Bytes(h.l2Len);
    U32RoundTrip(h.l2Len, b, 8);
  }

  lemma HeaderRoundTrip(h: Header, rest: Bytes)
    requires Fits(h)
    ensures |HeaderBytes(h) + rest| >= HEADER_SIZE
    ensures HeaderFrom(HeaderBytes(h) + rest) == h
  {
    HeaderLengthsRoundTrip(h, rest);
    var b := HeaderBytes(h) + rest;
    assert b[16..24] == I64Bytes(h.expireSeconds);
    I64RoundTrip(h.expireSeconds, b, 16);
    assert b[24..28] == U32Bytes(h.expireNanos);
    U32RoundTrip(h.expireNanos, b, 24);
    assert b[32..40] == I64Bytes(h.staleSeconds);
    I64RoundTrip(h.staleSeconds, b, 32);
    assert b[40..44] == U32Bytes(h.staleNanos);
    U32RoundTrip(h.staleNanos, b, 40);
  }

  // ----- envelopes ----------------------------------------------------------------------

  type RawValue = CacheValue<Bytes>

  datatype CompositionEnvelope =
    | L1(only: RawValue)
    | L2(only: RawValue)
    | Both(l1: RawValue, l2: RawValue)

  datatype EnvelopeError = HeaderTooShort | DataTooShort(expected: nat) | InvalidDiscriminant(found: byte)

  /** The header written for an envelope: lengths cut to 32 bits, timestamps of the first value. */
  function HeaderOf(e: CompositionEnvelope): Header {
    match e
    case L1(v) =>
      var (es, en) := EncodeTimestamp(v.expire);
      var (ss, sn) := EncodeTimestamp(v.stale);
      Header(0, AsU32(|v.data|), 0, es, en, ss, sn)
    case L2(v) =>
      var (es, en) := EncodeTimestamp(v.expire);
      var (ss, sn) := EncodeTimestamp(v.stale);
      Header(1, 0, AsU32(|v.data|), es, en, ss, sn)
    case Both(v1, v2) =>
      var (es, en) := EncodeTimestamp(v1.expire);
      var (ss, sn) := EncodeTimestamp(v1.stale);
      Header(2, AsU32(|v1.data|), AsU32(|v2.data|), es, en, ss, sn)
  }

  function Payload(e: CompositionEnvelope): Bytes {
    match e
    case L1(v) => v.data
    case L2(v) => v.data
    case Both(v1, v2) => v1.data + v2.data
  }

  function Serialize(e: CompositionEnvelope): (b: Bytes)
    ensures |b| == HEADER_SIZE + |Payload(e)|
  {
    HeaderBytes(HeaderOf(e)) + Payload(e)
  }

  /** Serialization as the buffer is filled: header first, then each payload. */
  method WriteEnvelope(e: CompositionEnvelope) returns (buf: Bytes)
    ensures buf == Serialize(e)
    ensures |buf| == HEADER_SIZE + |Payload(e)|
  {
    buf := HeaderBytes(HeaderOf(e));
    buf := AppendPayload(buf, e);
  }

  method AppendPayload(header: Bytes, e: CompositionEnvelope) returns (buf: Bytes)
    ensures buf == header + Payload(e)
  {
    buf := header;
    match e {
      case L1(v) => buf := buf + v.data;
      case L2(v) => buf := buf + v.data;
      case Both(v1, v2) =>
        buf := buf + v1.data;
        buf := buf + v2.data;
    }
  }

  function Deserialize(b: Bytes): Result<CompositionEnvelope, EnvelopeError> {
    if |b| < HEADER_SIZE then Err(HeaderTooShort) else CutPayload(HeaderFrom(b), b)
  }

  /** The payload slices a header asks for, once the header itself has been read. */
  function CutPayload(h: Header, b: Bytes): Result<CompositionEnvelope, EnvelopeError>
    requires |b| >= HEADER_SIZE
  {
    var expire := DecodeTimestamp(h.expireSeconds, h.expireNanos);
    var stale := DecodeTimestamp(h.staleSeconds, h.staleNanos);
    var l1End := HEADER_SIZE + h.l1Len;
    var l2Only := HEADER_SIZE + h.l2Len;
    var l2End := l1End + h.l2Len;
    if h.discriminant == 0 then
      if |b| < l1End then Err(DataTooShort(l1End))
      else Ok(L1(CacheValue(b[HEADER_SIZE..l1End], expire, stale)))
    else if h.discriminant == 1 then
      if |b| < l2Only then Err(DataTooShort(l2Only))
      else Ok(L2(CacheValue(b[HEADER_SIZE..l2Only], expire, stale)))
    else if h.discriminant == 2 then
      if |b| < l2End then Err(DataTooShort(l2End))
      else Ok(Both(CacheValue(b[HEADER_SIZE..l1End], expire, stale),
                   CacheValue(b[l1End..l2End], expire, stale)))
    else Err(InvalidDiscriminant(h.discriminant))
  }

  // ----- what the envelope keeps --------------------------------------------------------

  /** Payload lengths the 32-bit fields hold without truncation. */
  predicate LengthsFit(e: CompositionEnvelope) {
    match e
    case L1(v) => |v.data| < U32_CAPACITY
    case L2(v) => |v.data| < U32_CAPACITY
    case Both(v1, v2) => |v1.data| < U32_CAPACITY && |v2.data| < U32_CAPACITY
  }

  function First(e: CompositionEnvelope): RawValue {
    if e.Both? then e.l1 else e.only
  }

  /** The length a reader of the header expects the whole envelope to have. */
  function DeclaredLength(e: CompositionEnvelope): nat {
    HEADER_SIZE + HeaderOf(e).l1Len + HeaderOf(e).l2Len
  }

  /** The same payloads in the same layers, whatever the timestamps. */
  predicate SameData(d: CompositionEnvelope, e: CompositionEnvelope) {
    match e
    case L1(v) => d.L1? && d.only.data == v.data
    case L2(v) => d.L2? && d.only.data == v.data
    case Both(v1, v2) => d.Both? && d.l1.data == v1.data && d.l2.data == v2.data
  }

  /** The envelope a reader gets when no length is truncated: both layers share one pair of instants. */
  function AsRead(e: CompositionEnvelope, expire: Option<int>, stale: Option<int>): CompositionEnvelope {
    match e
    case L1(v) => L1(CacheValue(v.data, expire, stale))
    case L2(v) => L2(CacheValue(v.data, expire, stale))
    case Both(v1, v2) => Both(CacheValue(v1.data, expire, stale), CacheValue(v2.data, expire, stale))
  }

  lemma PayloadSlices(header: Bytes, first: Bytes, second: Bytes, rest: Bytes)
    requires |header| == HEADER_SIZE
    ensures var b := header + (first + second) + rest;
            && b == header + (first + second + rest)
            && |b| >= HEADER_SIZE + |first| + |second|
            && b[HEADER_SIZE..HEADER_SIZE + |first|] == first
            && b[HEADER_SIZE + |first|..HEADER_SIZE + |first| + |second|] == second
  {
  }

  lemma CutSerialized(e: CompositionEnvelope, header: Bytes, h: Header, rest: Bytes)
    requires LengthsFit(e) && |header| == HEADER_SIZE
    requires h.discriminant == HeaderOf(e).discriminant
    requires h.l1Len == HeaderOf(e).l1Len && h.l2Len == HeaderOf(e).l2Len
    ensures CutPayload(h, header + Payload(e) + rest)
            == Ok(AsRead(e, DecodeTimestamp(h.expireSeconds, h.expireNanos),
                         DecodeTimestamp(h.staleSeconds, h.staleNanos)))
  {
    var second := if e.Both? then e.l2.data else [];
    assert Payload(e) == First(e).data + second;
    PayloadSlices(header, First(e).data, second, rest);
  }

  lemma DeserializeSerialized(e: CompositionEnvelope, rest: Bytes)
    requires LengthsFit(e)
    ensures var h := HeaderFrom(HeaderBytes(HeaderOf(e)) + (Payload(e) + rest));
            Deserialize(Serialize(e) + rest)
            == Ok(AsRead(e, DecodeTimestamp(h.expireSeconds, h.expireNanos),
                         DecodeTimestamp(h.staleSeconds, h.staleNanos)))
  {
    var header := HeaderBytes(HeaderOf(e));
    HeaderLengthsRoundTrip(HeaderOf(e), Payload(e) + rest);
    PayloadSlices(header, Payload(e), [], rest);
    assert Payload(e) + [] == Payload(e);
    CutSerialized(e, header, HeaderFrom(header + (Payload(e) + rest)), rest);
  }

  /** Payloads always survive, even with bytes appended behind them. */
  lemma EnvelopeKeepsData(e: CompositionEnvelope, rest: Bytes)
    requires LengthsFit(e)
    ensures Deserialize(Serialize(e) + rest).Ok?
    ensures SameData(Deserialize(Serialize(e) + rest).value, e)
  {
    DeserializeSerialized(e, rest);
  }

  lemma TimestampRoundTrip(t: Option<int>)
    ensures var (seconds, nanos) := EncodeTimestamp(t);
            Representable(t) ==> DecodeTimestamp(seconds, nanos) == if Keepable(t) then t else None
    ensures var (_, nanos) := EncodeTimestamp(t); nanos < NANOS_PER_SECOND
  {
  }

  /** What a whole envelope must satisfy to come back unchanged. */
  predicate RoundTrips(e: CompositionEnvelope) {
    && LengthsFit(e)
    && Keepable(First(e).expire) && Keepable(First(e).stale)
    && Representable(First(e).expire) && Representable(First(e).stale)
    && (e.Both? ==> e.l2.expire == e.l1.expire && e.l2.stale == e.l1.stale)
  }

  /** Reading never yields a payload longer than the 32-bit fields can say. */
  lemma DeserializedFits(b: Bytes)
    requires Deserialize(b).Ok?
    ensures var e := Deserialize(b).value; LengthsFit(e)
    ensures var e := Deserialize(b).value; Keepable(First(e).expire) && Keepable(First(e).stale)
    ensures var e := Deserialize(b).value; Representable(First(e).expire) && Representable(First(e).stale)
    ensures var e := Deserialize(b).value; e.Both? ==> e.l2.expire == e.l1.expire && e.l2.stale == e.l1.stale
  {
    Capacities();
  }

  /** An envelope comes back exactly as written if and only if it meets RoundTrips. */
  lemma EnvelopeRoundTrip(e: CompositionEnvelope)
    ensures Deserialize(Serialize(e)) == Ok(e) <==> RoundTrips(e)
  {
    if RoundTrips(e) {
      TimestampRoundTrip(First(e).expire);
      TimestampRoundTrip(First(e).stale);
      assert Payload(e) + [] == Payload(e) && Serialize(e) + [] == Serialize(e);
      HeaderRoundTrip(HeaderOf(e), Payload(e));
      DeserializeSerialized(e, []);
    } else if Deserialize(Serialize(e)) == Ok(e) {
      DeserializedFits(Serialize(e));
    }
  }

  /** Without the epoch instant in play, timestamps also survive for Both, taken from layer one. */
  lemma EnvelopeTimestamps(e: CompositionEnvelope)
    requires LengthsFit(e) && Representable(First(e).expire) && Representable(First(e).stale)
    requires Keepable(First(e).expire) && Keepable(First(e).stale)
    ensures Deserialize(Serialize(e)) == Ok(AsRead(e, First(e).expire, First(e).stale))
  {
    EnvelopeRoundTrip(AsRead(e, First(e).expire, First(e).stale));
    assert Serialize(AsRead(e, First(e).expire, First(e).stale)) == Serialize(e);
  }

  /** Bytes behind an accepted envelope never change what is read from it. */
  lemma TrailingBytesAreIgnored(b: Bytes, rest: Bytes)
    requires Deserialize(b).Ok?
    ensures Deserialize(b + rest) == Deserialize(b)
  {
    var c := b + rest;
    assert c[4..8] == b[4..8] && c[8..12] == b[8..12] && c[16..24] == b[16..24];
    assert c[24..28] == b[24..28] && c[32..40] == b[32..40] && c[40..44] == b[40..44];
    var h := HeaderFrom(b);
    assert HeaderFrom(c) == h;
    var l1End := HEADER_SIZE + h.l1Len;
    if h.discriminant == 0 {
      assert c[HEADER_SIZE..l1End] == b[HEADER_SIZE..l1End];
    } else if h.discriminant == 1 {
      var l2End := HEADER_SIZE + h.l2Len;
      assert c[HEADER_SIZE..l2End] == b[HEADER_SIZE..l2End];
    } else {
      var l2End := l1End + h.l2Len;
      assert c[HEADER_SIZE..l1End] == b[HEADER_SIZE..l1End] && c[l1End..l2End] == b[l1End..l2End];
    }
  }

  /** A cut envelope is accepted exactly from the length its header declares. */
  lemma PrefixAcceptance(e: CompositionEnvelope, n: nat)
    requires n <= |Serialize(e)|
    ensures Deserialize(Serialize(e)[..n]).Ok? <==> n >= DeclaredLength(e)
  {
    var b := Serialize(e)[..n];
    if n >= HEADER_SIZE {
      assert b == HeaderBytes(HeaderOf(e)) + Payload(e)[..n - HEADER_SIZE];
      HeaderLengthsRoundTrip(HeaderOf(e), Payload(e)[..n - HEADER_SIZE]);
    }
  }

  lemma LengthField(n: nat)
    ensures AsU32(n) <= n && (AsU32(n) == n <==> n < U32_CAPACITY)
  {
  }

  lemma DeclaredLengthIsActual(e: CompositionEnvelope)
    ensures DeclaredLength(e) <= HEADER_SIZE + |Payload(e)|
    ensures DeclaredLength(e) == HEADER_SIZE + |Payload(e)| <==> LengthsFit(e)
  {
    LengthField(|First(e).data|);
    if e.Both? {
      LengthField(|e.l2.data|);
    }
  }

  lemma FittingPrefixesAreRejected(e: CompositionEnvelope)
    requires LengthsFit(e)
    ensures forall n: nat :: n < |Serialize(e)| ==> Deserialize(Serialize(e)[..n]).Err?
  {
    DeclaredLengthIsActual(e);
    forall n: nat | n < |Serialize(e)|
      ensures Deserialize(Serialize(e)[..n]).Err?
    {
      PrefixAcceptance(e, n);
    }
  }

  /** Every strict prefix is rejected if and only if no payload length was truncated. */
  lemma StrictPrefixesAreRejected(e: CompositionEnvelope)
    ensures (forall n: nat :: n < |Serialize(e)| ==> Deserialize(Serialize(e)[..n]).Err?) <==> LengthsFit(e)
  {
    if LengthsFit(e) {
      FittingPrefixesAreRejected(e);
    } else {
      DeclaredLengthIsActual(e);
      PrefixAcceptance(e, DeclaredLength(e));
    }
  }

  // ----- the bytes themselves -------------------------------------------------------------

  /** The least significant byte comes first. */
  lemma {:induction false} LittleEndianDigits(n: nat, width: nat, i: nat)
    requires i < width
    ensures ToLittleEndian(n, width)[i] as int == n / Capacity(i) % 256
  {
    if i > 0 {
      LittleEndianDigits(n / 256, width - 1, i - 1);
      DivideTwice(n, Capacity(i - 1));
    }
  }

  lemma DivideTwice(n: nat, c: nat)
    requires c >= 1
    ensures n / 256 / c == n / (256 * c)
  {
    var q := n / 256 / c;
    var r := n - 256 * c * q;
    assert n == 256 * (n / 256) + n % 256;
    assert n / 256 == c * q + (n / 256) % c;
    assert r == 256 * ((n / 256) % c) + n % 256;
    assert (n / 256) % c <= c - 1;
    assert 0 <= r < 256 * c;
    Quotient(n, 256 * c, q, r);
  }

  lemma ProductAtLeast(d: nat, x: nat)
    requires x >= 1
    ensures d * x >= d
  {
  }

  lemma Quotient(n: nat, d: nat, q: nat, r: nat)
    requires d >= 1 && n == d * q + r && r < d
    ensures n / d == q
  {
    var m := n / d;
    assert n == d * m + n % d;
    assert d * (q - m) == n % d - r;
    if m < q {
      ProductAtLeast(d, q - m);
    } else if q < m {
      ProductAtLeast(d, m - q);
    }
  }

  /** Where each field lies, with zeros between. */
  lemma HeaderLayout(h: Header)
    ensures
      var b := HeaderBytes(h);
      && b[0] == h.discriminant && b[1..4] == [0, 0, 0]
      && b[4..8] == U32Bytes(h.l1Len) && b[8..12] == U32Bytes(h.l2Len) && b[12..16] == [0, 0, 0, 0]
      && b[16..24] == I64Bytes(h.expireSeconds) && b[24..28] == U32Bytes(h.expireNanos)
      && b[28..32] == [0, 0, 0, 0]
      && b[32..40] == I64Bytes(h.staleSeconds) && b[40..44] == U32Bytes(h.staleNanos)
      && b[44..48] == [0, 0, 0, 0]
  {
  }

  /** The first byte says which layers follow, and the payloads follow the header in layer order. */
  lemma SerializedForm(e: CompositionEnvelope)
    ensures Serialize(e)[0] as int == (if e.L1? then 0 else if e.L2? then 1 else 2)
    ensures Serialize(e)[HEADER_SIZE..] == if e.Both? then e.l1.data + e.l2.data else e.only.data
  {
  }

  /** Acceptance, from the raw bytes alone: a whole header, a known first byte, and the lengths it gives. */
  lemma AcceptedIff(b: Bytes)
    ensures Deserialize(b).Ok? <==>
      && |b| >= HEADER_SIZE
      && b[0] <= 2
      && |b| >= HEADER_SIZE + (if b[0] == 1 then 0 else FromLittleEndian(b[4..8]))
                            + (if b[0] == 0 then 0 else FromLittleEndian(b[8..12]))
  {
  }

  /** Every instant of the years 1 to 9999 comes back to the nanosecond, the epoch alone excepted. */
  lemma FourDigitYearsAreKept(ns: int)
    requires -62_135_596_800 * NANOS_PER_SECOND <= ns < 253_402_300_800 * NANOS_PER_SECOND
    ensures
      var (seconds, nanos) := EncodeTimestamp(Some(ns));
      && Representable(Some(ns))
      && DecodeTimestamp(seconds, nanos) == if ns == 0 then None else Some(ns)
  {
  }

  /** Why bytes are refused: no whole header, an unknown first byte, or fewer bytes than the lengths ask for. */
  lemma RefusalReasons(b: Bytes)
    requires Deserialize(b).Err?
    ensures Deserialize(b) == Err(HeaderTooShort) <==> |b| < HEADER_SIZE
    ensures |b| >= HEADER_SIZE ==> (Deserialize(b) == Err(InvalidDiscriminant(b[0])) <==> b[0] > 2)
    ensures |b| >= HEADER_SIZE && b[0] <= 2 ==>
      var needed := HEADER_SIZE + (if b[0] == 1 then 0 else FromLittleEndian(b[4..8]))
                                + (if b[0] == 0 then 0 else FromLittleEndian(b[8..12]));
      Deserialize(b) == Err(DataTooShort(needed)) && |b| < needed
  {
  }

  /** A length that does not fit 32 bits is cut to its low ones. */
  lemma LengthsWrap(e: CompositionEnvelope)
    ensures
      var h := HeaderOf(e);
      && h.l1Len == (if e.L2? then 0 else |First(e).data| % 0x1_0000_0000)
      && h.l2Len == (if e.L1? then 0 else if e.L2? then |e.only.data| % 0x1_0000_0000
                     else |e.l2.data| % 0x1_0000_0000)
  {
  }
}
