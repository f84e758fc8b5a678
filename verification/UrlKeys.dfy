/**
 * The url-encoded form of a cache key: prefix and version go first under reserved names, then the
 * parts, an absent value being written like an empty one.
 */
module UrlKeys {
  import opened Wrappers
  import opened Values
  import opened Keys
  import opened UrlEncoding
  import Utf8

  /** The bytes of "_prefix" and "_version". */
  const PREFIX_KEY: Bytes := [0x5F, 0x70, 0x72, 0x65, 0x66, 0x69, 0x78]
  const VERSION_KEY: Bytes := [0x5F, 0x76, 0x65, 0x72, 0x73, 0x69, 0x6F, 0x6E]

  datatype KeyError = NotUtf8 | BadVersion

  // ----- version numbers ------------------------------------------------------------------

  function Digit(d: nat): byte
    requires d < 10
  {
    (0x30 + d) as byte
  }

  predicate AllDigits(s: Bytes) {
    forall i :: 0 <= i < |s| ==> 0x30 <= s[i] <= 0x39
  }

  function Decimal(n: nat): (s: Bytes)
    ensures s != [] && AllDigits(s)
  {
    if n < 10 then [Digit(n)] else Decimal(n / 10) + [Digit(n % 10)]
  }

  function NumberOf(s: Bytes): nat
    requires AllDigits(s)
  {
    if s == [] then 0 else NumberOf(s[..|s| - 1]) * 10 + (s[|s| - 1] as int - 0x30)
  }

  /** One optional plus sign, then at least one digit, and no overflow. */
  function ParseU32(s: Bytes): Option<u32> {
    var digits := if s != [] && s[0] == PLUS then s[1..] else s;
    if digits != [] && AllDigits(digits) && NumberOf(digits) < 0x1_0000_0000 then Some(NumberOf(digits)) else None
  }

  lemma {:induction false} NumberOfDecimal(n: nat)
    ensures NumberOf(Decimal(n)) == n
  {
    if n >= 10 {
      NumberOfDecimal(n / 10);
      assert Decimal(n)[..|Decimal(n)| - 1] == Decimal(n / 10);
    }
  }

  lemma VersionRoundTrip(version: u32)
    ensures ParseU32(Decimal(version)) == Some(version)
  {
    NumberOfDecimal(version);
  }

  // ----- serialize ------------------------------------------------------------------------

  function PartPair(p: KeyPart): Pair {
    (p.key, if p.value.Some? then p.value.value else [])
  }

  function PartPairs(parts: seq<KeyPart>): seq<Pair> {
    seq(|parts|, i requires 0 <= i < |parts| => PartPair(parts[i]))
  }

  function Pairs(k: CacheKey): seq<Pair> {
    [(PREFIX_KEY, k.prefix), (VERSION_KEY, Decimal(k.version))] + PartPairs(k.parts)
  }

  function SerializeKey(k: CacheKey): Bytes {
    UrlEncoding.Serialize(Pairs(k))
  }

  // ----- deserialize ----------------------------------------------------------------------

  datatype Fields = Fields(prefix: Bytes, version: u32, parts: seq<KeyPart>)

  const NO_FIELDS := Fields([], 0, [])

  function Absorb(f: Fields, p: Pair): Result<Fields, KeyError> {
    if p.0 == PREFIX_KEY then Ok(f.(prefix := p.1))
    else if p.0 == VERSION_KEY then
      match ParseU32(p.1)
      case None => Err(BadVersion)
      case Some(version) => Ok(f.(version := version))
    else Ok(f.(parts := f.parts + [KeyPart(p.0, if p.1 == [] then None else Some(p.1))]))
  }

  function AbsorbAll(f: Fields, pairs: seq<Pair>): Result<Fields, KeyError>
    decreases |pairs|
  {
    if pairs == [] then Ok(f)
    else
      match Absorb(f, pairs[0])
      case Err(e) => Err(e)
      case Ok(next) => AbsorbAll(next, pairs[1..])
  }

  function DeserializeKey(data: Bytes): Result<CacheKey, KeyError> {
    if !Utf8.WellFormed(data) then Err(NotUtf8)
    else
      match AbsorbAll(NO_FIELDS, Parse(data))
      case Err(e) => Err(e)
      case Ok(f) => Ok(New(f.prefix, f.version, f.parts))
  }

  /** The parser's loop, which stops at the first version it cannot read. */
  method Deserialize(data: Bytes) returns (r: Result<CacheKey, KeyError>)
    ensures r == DeserializeKey(data)
  {
    if !Utf8.WellFormed(data) {
      return Err(NotUtf8);
    }
    var pairs := Parse(data);
    var prefix: Bytes, version: u32, parts: seq<KeyPart> := [], 0, [];
    for i := 0 to |pairs|
      invariant AbsorbAll(NO_FIELDS, pairs) == AbsorbAll(Fields(prefix, version, parts), pairs[i..])
    {
      var (key, value) := pairs[i];
      assert pairs[i..][1..] == pairs[i + 1..];
      if key == PREFIX_KEY {
        prefix := value;
      } else if key == VERSION_KEY {
        var parsed := ParseU32(value);
        if parsed.None? {
          return Err(BadVersion);
        }
        version := parsed.value;
      } else {
        var v := if value == [] then None else Some(value);
        parts := parts + [KeyPart(key, v)];
      }
    }
    r := Ok(New(prefix, version, parts));
  }

  // ----- round trip -----------------------------------------------------------------------

  predicate Reserved(name: Bytes) {
    name == PREFIX_KEY || name == VERSION_KEY
  }

  predicate NoReservedNames(parts: seq<KeyPart>) {
    forall i :: 0 <= i < |parts| ==> !Reserved(parts[i].key)
  }

  predicate NoEmptyValues(parts: seq<KeyPart>) {
    forall i :: 0 <= i < |parts| ==> parts[i].value != Some([])
  }

  /** Strings are well-formed UTF-8, and the size is the one constructors compute. */
  predicate Proper(k: CacheKey) {
    && WellMade(k)
    && Utf8.WellFormed(k.prefix)
    && forall i :: 0 <= i < |k.parts| ==>
         Utf8.WellFormed(k.parts[i].key) && (k.parts[i].value.Some? ==> Utf8.WellFormed(k.parts[i].value.value))
  }

  function NormalPart(p: KeyPart): KeyPart {
    KeyPart(p.key, if p.value == Some([]) then None else p.value)
  }

  function NormalParts(parts: seq<KeyPart>): seq<KeyPart> {
    seq(|parts|, i requires 0 <= i < |parts| => NormalPart(parts[i]))
  }

  /** The same key with every empty value read as absent. */
  function Normalize(k: CacheKey): CacheKey {
    New(k.prefix, k.version, NormalParts(k.parts))
  }

  lemma ReservedNamesAreStrings()
    ensures Utf8.WellFormed(PREFIX_KEY) && Utf8.WellFormed(VERSION_KEY)
  {
    Utf8.AsciiIsWellFormed(PREFIX_KEY);
    Utf8.AsciiIsWellFormed(VERSION_KEY);
  }

  predicate StringPair(p: Pair) {
    Utf8.WellFormed(p.0) && Utf8.WellFormed(p.1)
  }

  lemma PartPairsAreWellFormed(k: CacheKey, i: nat)
    requires Proper(k) && i < |k.parts|
    ensures StringPair(PartPair(k.parts[i]))
  {
    Utf8.AsciiIsWellFormed([]);
  }

  lemma PairsAreWellFormed(k: CacheKey)
    requires Proper(k)
    ensures AllWellFormed(Pairs(k))
  {
    var pairs := Pairs(k);
    ReservedNamesAreStrings();
    Utf8.AsciiIsWellFormed(Decimal(k.version));
    forall i | 0 <= i < |pairs|
      ensures StringPair(pairs[i])
    {
      if i >= 2 {
        PartPairsAreWellFormed(k, i - 2);
        assert pairs[i] == PartPair(k.parts[i - 2]);
      }
    }
  }

  lemma ParseUndoesPairs(k: CacheKey)
    requires Proper(k)
    ensures Utf8.WellFormed(SerializeKey(k)) && Parse(SerializeKey(k)) == Pairs(k)
  {
    PairsAreWellFormed(k);
    ParseUndoesSerialize(Pairs(k));
    SerializedIsAscii(Pairs(k));
    Utf8.AsciiIsWellFormed(SerializeKey(k));
  }

  /** Parts without reserved names are absorbed one by one. */
  lemma {:induction false} AbsorbParts(f: Fields, parts: seq<KeyPart>)
    requires NoReservedNames(parts)
    ensures AbsorbAll(f, PartPairs(parts)) == Ok(f.(parts := f.parts + NormalParts(parts)))
    decreases |parts|
  {
    if parts == [] {
      assert f.parts + NormalParts(parts) == f.parts;
    } else {
      var next := f.(parts := f.parts + [NormalPart(parts[0])]);
      assert PartPairs(parts)[1..] == PartPairs(parts[1..]);
      assert Absorb(f, PartPairs(parts)[0]) == Ok(next);
      AbsorbParts(next, parts[1..]);
      assert f.parts + [NormalPart(parts[0])] + NormalParts(parts[1..]) == f.parts + NormalParts(parts);
    }
  }

  /** No pair adds more than one part, and one with a reserved name adds none. */
  lemma {:induction false} ReservedNamesLoseParts(f: Fields, parts: seq<KeyPart>)
    requires AbsorbAll(f, PartPairs(parts)).Ok?
    ensures |AbsorbAll(f, PartPairs(parts)).value.parts| <= |f.parts| + |parts|
    ensures !NoReservedNames(parts) ==> |AbsorbAll(f, PartPairs(parts)).value.parts| < |f.parts| + |parts|
    decreases |parts|
  {
    if parts != [] {
      assert PartPairs(parts)[1..] == PartPairs(parts[1..]);
      ReservedNamesLoseParts(Absorb(f, PartPairs(parts)[0]).value, parts[1..]);
      assert NoReservedNames(parts) <==> !Reserved(parts[0].key) && NoReservedNames(parts[1..]) by {
        assert parts == [parts[0]] + parts[1..];
      }
    }
  }

  lemma AbsorbKey(k: CacheKey)
    ensures AbsorbAll(NO_FIELDS, Pairs(k)) == AbsorbAll(Fields(k.prefix, k.version, []), PartPairs(k.parts))
  {
    VersionRoundTrip(k.version);
    var pairs := Pairs(k);
    assert pairs[1..] == [(VERSION_KEY, Decimal(k.version))] + PartPairs(k.parts);
    assert pairs[1..][1..] == PartPairs(k.parts);
    assert Absorb(NO_FIELDS, pairs[0]) == Ok(Fields(k.prefix, 0, []));
    assert Absorb(Fields(k.prefix, 0, []), pairs[1]) == Ok(Fields(k.prefix, k.version, []));
  }

  /** What a serialized key is read back as. */
  lemma ReadBack(k: CacheKey)
    requires Proper(k)
    ensures NoReservedNames(k.parts) ==> DeserializeKey(SerializeKey(k)) == Ok(Normalize(k))
    ensures !NoReservedNames(k.parts) && DeserializeKey(SerializeKey(k)).Ok? ==>
      |DeserializeKey(SerializeKey(k)).value.parts| < |k.parts|
  {
    ParseUndoesPairs(k);
    AbsorbKey(k);
    var start := Fields(k.prefix, k.version, []);
    if NoReservedNames(k.parts) {
      AbsorbParts(start, k.parts);
      assert [] + NormalParts(k.parts) == NormalParts(k.parts);
    } else if AbsorbAll(start, PartPairs(k.parts)).Ok? {
      ReservedNamesLoseParts(start, k.parts);
    }
  }

  /** A key comes back, with empty values read as absent, exactly when no part has a reserved name. */
  lemma KeyRoundTrip(k: CacheKey)
    requires Proper(k)
    ensures DeserializeKey(SerializeKey(k)) == Ok(Normalize(k)) <==> NoReservedNames(k.parts)
  {
    ReadBack(k);
    assert |Normalize(k).parts| == |k.parts|;
  }

  lemma NormalKeys(k: CacheKey)
    requires WellMade(k)
    ensures Normalize(k) == k <==> NoEmptyValues(k.parts)
  {
    var n := NormalParts(k.parts);
    if NoEmptyValues(k.parts) {
      assert n == k.parts;
    } else {
      var i :| 0 <= i < |k.parts| && k.parts[i].value == Some([]);
      assert n[i] != k.parts[i];
    }
  }

  /** It comes back as the very same key exactly when, besides, no part has an empty value. */
  lemma ExactKeyRoundTrip(k: CacheKey)
    requires Proper(k)
    ensures DeserializeKey(SerializeKey(k)) == Ok(k) <==> NoReservedNames(k.parts) && NoEmptyValues(k.parts)
  {
    ReadBack(k);
    NormalKeys(k);
  }

  /** A part named like the prefix is read back as the prefix, in place of the key's own. */
  lemma ReservedNameIsLost(k: CacheKey, value: Bytes)
    requires Proper(k) && k.parts == [KeyPart(PREFIX_KEY, Some(value))]
    ensures DeserializeKey(SerializeKey(k)) == Ok(New(value, k.version, []))
  {
    var start := Fields(k.prefix, k.version, []);
    ParseUndoesPairs(k);
    AbsorbKey(k);
    assert PartPairs(k.parts) == [(PREFIX_KEY, value)];
    ReservedPairIsAbsorbed(start, value, PartPairs(k.parts));
  }

  /** Such keys are ordinary ones: any prefix, version and value will do. */
  lemma ReservedNamesAreProper(prefix: Bytes, version: u32, value: Bytes)
    requires Utf8.WellFormed(prefix) && Utf8.WellFormed(value)
    ensures Proper(New(prefix, version, [KeyPart(PREFIX_KEY, Some(value))]))
  {
    Utf8.AsciiIsWellFormed(PREFIX_KEY);
  }

  lemma ReservedPairIsAbsorbed(f: Fields, value: Bytes, pairs: seq<Pair>)
    requires pairs == [(PREFIX_KEY, value)]
    ensures AbsorbAll(f, pairs) == Ok(f.(prefix := value))
  {
    assert pairs[1..] == [];
    assert AbsorbAll(f.(prefix := value), []) == Ok(f.(prefix := value));
  }

  /** A part with an empty value is read back as one without a value. */
  lemma EmptyValueIsLost(k: CacheKey, name: Bytes)
    requires Proper(k) && k.parts == [KeyPart(name, Some([]))] && !Reserved(name)
    ensures DeserializeKey(SerializeKey(k)) == Ok(New(k.prefix, k.version, [KeyPart(name, None)]))
    ensures DeserializeKey(SerializeKey(k)) != Ok(k)
  {
    KeyRoundTrip(k);
    assert NormalParts(k.parts) == [KeyPart(name, None)];
  }

  /** Two keys share their url-encoded form exactly when they agree up to empty values. */
  lemma SameFormIffSameNormalKey(j: CacheKey, k: CacheKey)
    requires Proper(j) && Proper(k)
    ensures SerializeKey(j) == SerializeKey(k) <==> Normalize(j) == Normalize(k)
  {
    ParseUndoesPairs(j);
    ParseUndoesPairs(k);
    if Pairs(j) == Pairs(k) {
      PairsDetermineKey(j, k);
    }
    if Normalize(j) == Normalize(k) {
      KeyDeterminesPairs(j, k);
    }
  }

  lemma KeyDeterminesPairs(j: CacheKey, k: CacheKey)
    requires Normalize(j) == Normalize(k)
    ensures Pairs(j) == Pairs(k)
  {
    assert |j.parts| == |NormalParts(j.parts)| == |NormalParts(k.parts)| == |k.parts|;
    forall i | 0 <= i < |j.parts|
      ensures PartPair(j.parts[i]) == PartPair(k.parts[i])
    {
      assert NormalParts(j.parts)[i] == NormalParts(k.parts)[i];
    }
    assert PartPairs(j.parts) == PartPairs(k.parts);
  }

  lemma PairsDetermineKey(j: CacheKey, k: CacheKey)
    requires Pairs(j) == Pairs(k)
    ensures Normalize(j) == Normalize(k)
  {
    assert Pairs(j)[0] == Pairs(k)[0] && Pairs(j)[1] == Pairs(k)[1];
    VersionRoundTrip(j.version);
    VersionRoundTrip(k.version);
    assert PartPairs(j.parts) == Pairs(j)[2..] == Pairs(k)[2..] == PartPairs(k.parts);
    assert |j.parts| == |PartPairs(j.parts)| == |k.parts|;
    forall i | 0 <= i < |j.parts|
      ensures NormalPart(j.parts[i]) == NormalPart(k.parts[i])
    {
      assert PartPairs(j.parts)[i] == PartPairs(k.parts)[i];
    }
    assert NormalParts(j.parts) == NormalParts(k.parts);
  }

  /** On any input: an accepted key is proper, has no reserved names and no empty values. */
  lemma AcceptedKeysAreProper(data: Bytes)
    requires DeserializeKey(data).Ok?
    ensures
      var k := DeserializeKey(data).value;
      && Proper(k) && NoReservedNames(k.parts) && NoEmptyValues(k.parts)
      && DeserializeKey(SerializeKey(k)) == Ok(k)
  {
    ParsedIsWellFormed(data);
    Utf8.AsciiIsWellFormed([]);
    AbsorbedIsProper(NO_FIELDS, Parse(data));
    ExactKeyRoundTrip(DeserializeKey(data).value);
  }

  predicate ProperFields(f: Fields) {
    Proper(New(f.prefix, f.version, f.parts)) && NoReservedNames(f.parts) && NoEmptyValues(f.parts)
  }

  lemma AbsorbKeepsProper(f: Fields, p: Pair)
    requires ProperFields(f) && Utf8.WellFormed(p.0) && Utf8.WellFormed(p.1) && Absorb(f, p).Ok?
    ensures ProperFields(Absorb(f, p).value)
  {
  }

  lemma {:induction false} AbsorbedIsProper(f: Fields, pairs: seq<Pair>)
    requires ProperFields(f) && AllWellFormed(pairs) && AbsorbAll(f, pairs).Ok?
    ensures ProperFields(AbsorbAll(f, pairs).value)
    decreases |pairs|
  {
    if pairs != [] {
      AbsorbKeepsProper(f, pairs[0]);
      AbsorbedIsProper(Absorb(f, pairs[0]).value, pairs[1..]);
    }
  }

  // ----- the text of a key ----------------------------------------------------------------

  function PartsText(parts: seq<KeyPart>): Bytes {
    if parts == [] then []
    else [AMPERSAND] + EncodePair(PartPair(parts[0])) + PartsText(parts[1..])
  }

  lemma {:induction false} PartsFollow(p: Pair, parts: seq<KeyPart>)
    ensures UrlEncoding.Serialize([p] + PartPairs(parts)) == EncodePair(p) + PartsText(parts)
    decreases |parts|
  {
    var pairs := [p] + PartPairs(parts);
    if parts == [] {
      assert pairs == [p];
    } else {
      assert pairs[1..] == [PartPair(parts[0])] + PartPairs(parts[1..]);
      PartsFollow(PartPair(parts[0]), parts[1..]);
    }
  }

  lemma DigitsStay(n: nat)
    ensures Encode(Decimal(n)) == Decimal(n)
  {
    UnreservedStays(Decimal(n));
  }

  lemma NamesStay()
    ensures Encode(PREFIX_KEY) == PREFIX_KEY && Encode(VERSION_KEY) == VERSION_KEY
  {
    UnreservedStays(PREFIX_KEY);
    UnreservedStays(VERSION_KEY);
  }

  /** A key reads `_prefix=...&_version=...` and then `&name=value` for each part in order. */
  lemma KeyText(k: CacheKey)
    ensures
      var prefix := PREFIX_KEY + [EQUALS] + Encode(k.prefix);
      var version := VERSION_KEY + [EQUALS] + Decimal(k.version);
      SerializeKey(k) == prefix + [AMPERSAND] + (version + PartsText(k.parts))
  {
    ReservedPairsText(k.prefix, k.version);
    FrontOfKey((PREFIX_KEY, k.prefix), (VERSION_KEY, Decimal(k.version)), k.parts, Pairs(k));
  }

  lemma ReservedPairsText(prefix: Bytes, version: u32)
    ensures EncodePair((PREFIX_KEY, prefix)) == PREFIX_KEY + [EQUALS] + Encode(prefix)
    ensures EncodePair((VERSION_KEY, Decimal(version))) == VERSION_KEY + [EQUALS] + Decimal(version)
  {
    NamesStay();
    DigitsStay(version);
  }

  lemma FrontOfKey(first: Pair, second: Pair, parts: seq<KeyPart>, pairs: seq<Pair>)
    requires pairs == [first, second] + PartPairs(parts)
    ensures UrlEncoding.Serialize(pairs) == EncodePair(first) + [AMPERSAND] + (EncodePair(second) + PartsText(parts))
  {
    assert pairs[1..] == [second] + PartPairs(parts);
    PartsFollow(second, parts);
  }

  // ----- version numerals -----------------------------------------------------------------

  function Zeros(n: nat): (s: Bytes)
    ensures AllDigits(s)
  {
    if n == 0 then [] else Zeros(n - 1) + [0x30]
  }

  lemma {:induction false} ZerosAreNothing(n: nat)
    ensures NumberOf(Zeros(n)) == 0
  {
    if n > 0 {
      ZerosAreNothing(n - 1);
      assert Zeros(n)[..|Zeros(n)| - 1] == Zeros(n - 1);
    }
  }

  lemma {:induction false} LeadingZeros(n: nat, s: Bytes)
    requires AllDigits(s)
    ensures AllDigits(Zeros(n) + s) && NumberOf(Zeros(n) + s) == NumberOf(s)
  {
    var padded := Zeros(n) + s;
    if s == [] {
      assert padded == Zeros(n);
      ZerosAreNothing(n);
    } else {
      assert padded[..|padded| - 1] == Zeros(n) + s[..|s| - 1];
      LeadingZeros(n, s[..|s| - 1]);
    }
  }

  /** Any decimal numeral is read, padded with zeros or signed with a plus, up to the largest 32-bit one. */
  lemma NumeralsAreRead(n: nat, zeros: nat)
    ensures
      var numeral := Zeros(zeros) + Decimal(n);
      var version := if n < 0x1_0000_0000 then Some(n) else None;
      ParseU32(numeral) == version && ParseU32([PLUS] + numeral) == version
  {
    NumberOfDecimal(n);
    LeadingZeros(zeros, Decimal(n));
    var numeral := Zeros(zeros) + Decimal(n);
    assert ([PLUS] + numeral)[1..] == numeral;
  }

  /** Nothing else is: no empty text, no lone or second sign, no other byte. */
  lemma OtherTextIsNoVersion(s: Bytes)
    requires s == [] || s == [PLUS] || exists i :: 0 <= i < |s| && !(0x30 <= s[i] <= 0x39) && (i > 0 || s[i] != PLUS)
    ensures ParseU32(s) == None
  {
    if s != [] && s[0] == PLUS && |s| > 1 {
      var i :| 0 <= i < |s| && !(0x30 <= s[i] <= 0x39) && (i > 0 || s[i] != PLUS);
      assert s[1..][i - 1] == s[i];
    }
  }

  // ----- what any list of pairs is read as ------------------------------------------------

  /** The last value given under a name. */
  function LastNamed(pairs: seq<Pair>, name: Bytes): Option<Bytes> {
    if pairs == [] then None
    else if pairs[|pairs| - 1].0 == name then Some(pairs[|pairs| - 1].1)
    else LastNamed(pairs[..|pairs| - 1], name)
  }

  function OtherParts(pairs: seq<Pair>): seq<KeyPart> {
    if pairs == [] then []
    else
      var last := pairs[|pairs| - 1];
      OtherParts(pairs[..|pairs| - 1])
      + if Reserved(last.0) then [] else [KeyPart(last.0, if last.1 == [] then None else Some(last.1))]
  }

  predicate VersionsAreNumerals(pairs: seq<Pair>) {
    forall i :: 0 <= i < |pairs| && pairs[i].0 == VERSION_KEY ==> ParseU32(pairs[i].1).Some?
  }

  lemma {:induction false} AbsorbLast(f: Fields, pairs: seq<Pair>, p: Pair)
    ensures AbsorbAll(f, pairs + [p]) ==
      match AbsorbAll(f, pairs)
      case Err(e) => Err(e)
      case Ok(next) => Absorb(next, p)
    decreases |pairs|
  {
    var more := pairs + [p];
    if pairs == [] {
      assert more == [p] && more[1..] == [];
    } else {
      assert more[0] == pairs[0] && more[1..] == pairs[1..] + [p];
      var first := Absorb(f, pairs[0]);
      if first.Ok? {
        AbsorbLast(first.value, pairs[1..], p);
      }
    }
  }

  /** What the fields are after these pairs. */
  ghost predicate ReadAs(pairs: seq<Pair>, r: Result<Fields, KeyError>) {
    && (r.Ok? <==> VersionsAreNumerals(pairs))
    && (r.Err? ==> r.error == BadVersion)
    && (r.Ok? ==>
          && r.value.prefix == LastNamed(pairs, PREFIX_KEY).GetOr([])
          && Some(r.value.version) == (if LastNamed(pairs, VERSION_KEY).None? then Some(0)
                                       else ParseU32(LastNamed(pairs, VERSION_KEY).value))
          && r.value.parts == OtherParts(pairs))
  }

  lemma ReadAsLast(pairs: seq<Pair>, p: Pair, r: Result<Fields, KeyError>)
    requires ReadAs(pairs, r)
    ensures ReadAs(pairs + [p], match r case Err(e) => Err(e) case Ok(next) => Absorb(next, p))
  {
    var more := pairs + [p];
    assert more[..|more| - 1] == pairs;
    assert VersionsAreNumerals(more) <==>
      VersionsAreNumerals(pairs) && (p.0 == VERSION_KEY ==> ParseU32(p.1).Some?) by {
      assert more[|pairs|] == p;
      assert forall i :: 0 <= i < |pairs| ==> more[i] == pairs[i];
    }
  }

  /**
   * Any list of pairs is read as the last prefix and the last version given, empty and zero by default, and
   * the other pairs as parts in their order; and it is refused exactly if some version is no numeral.
   */
  lemma {:induction false} PairsAreReadAs(pairs: seq<Pair>)
    ensures ReadAs(pairs, AbsorbAll(NO_FIELDS, pairs))
  {
    if pairs != [] {
      var before, p := pairs[..|pairs| - 1], pairs[|pairs| - 1];
      assert pairs == before + [p];
      PairsAreReadAs(before);
      AbsorbLast(NO_FIELDS, before, p);
      ReadAsLast(before, p, AbsorbAll(NO_FIELDS, before));
    }
  }

  /** The same of raw bytes: what is not UTF-8 is refused, and the size is recomputed. */
  lemma AnyInputIsReadAs(data: Bytes)
    ensures DeserializeKey(data).Ok? <==> Utf8.WellFormed(data) && VersionsAreNumerals(Parse(data))
    ensures DeserializeKey(data).Ok? ==>
      var k, pairs := DeserializeKey(data).value, Parse(data);
      && WellMade(k) && k.prefix == LastNamed(pairs, PREFIX_KEY).GetOr([]) && k.parts == OtherParts(pairs)
      && Some(k.version) == (if LastNamed(pairs, VERSION_KEY).None? then Some(0)
                             else ParseU32(LastNamed(pairs, VERSION_KEY).value))
  {
    PairsAreReadAs(Parse(data));
  }
}
