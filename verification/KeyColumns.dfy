/**
 * The columnar key codec.  A list of keys is written column by column, with no counts between the
 * columns: the decoder recovers each count from what it has already read, and then takes the
 * columns apart again with one cursor per column.
 */
module KeyColumns {
  import opened Wrappers
  import opened Values
  import opened Keys

  /** One entry of some column on the wire. */
  datatype Cell = Length(n: nat) | Text(text: Bytes) | Flag(present: bool) | Word(word: u32)

  /** What the part codec holds: written so far, or still ahead of the cursors. */
  datatype PartColumns = PartColumns(key: seq<Bytes>, present: seq<bool>, values: seq<Bytes>)

  datatype Columns = Columns(lengths: seq<nat>, parts: PartColumns, version: seq<u32>, prefix: seq<Bytes>)

  datatype ColumnError = Malformed

  const NO_PARTS := PartColumns([], [], [])
  const NO_KEYS := Columns([], NO_PARTS, [], [])

  // ----- encoding -------------------------------------------------------------------------

  function JoinParts(a: PartColumns, b: PartColumns): PartColumns {
    PartColumns(a.key + b.key, a.present + b.present, a.values + b.values)
  }

  function Join(a: Columns, b: Columns): Columns {
    Columns(a.lengths + b.lengths, JoinParts(a.parts, b.parts), a.version + b.version, a.prefix + b.prefix)
  }

  function PartColumn(p: KeyPart): PartColumns {
    PartColumns([p.key], [p.value.Some?], if p.value.Some? then [p.value.value] else [])
  }

  function PartsColumns(parts: seq<KeyPart>): PartColumns {
    if parts == [] then NO_PARTS else JoinParts(PartColumn(parts[0]), PartsColumns(parts[1..]))
  }

  function KeyColumn(k: CacheKey): Columns {
    Columns([|k.parts|], PartsColumns(k.parts), [k.version], [k.prefix])
  }

  function ColumnsOf(keys: seq<CacheKey>): Columns {
    if keys == [] then NO_KEYS else Join(KeyColumn(keys[0]), ColumnsOf(keys[1..]))
  }

  function Texts(column: seq<Bytes>): seq<Cell> {
    seq(|column|, i requires 0 <= i < |column| => Text(column[i]))
  }

  function Flags(column: seq<bool>): seq<Cell> {
    seq(|column|, i requires 0 <= i < |column| => Flag(column[i]))
  }

  function Lengths(column: seq<nat>): seq<Cell> {
    seq(|column|, i requires 0 <= i < |column| => Length(column[i]))
  }

  function Words(column: seq<u32>): seq<Cell> {
    seq(|column|, i requires 0 <= i < |column| => Word(column[i]))
  }

  function PartsWire(c: PartColumns): seq<Cell> {
    Texts(c.key) + Flags(c.present) + Texts(c.values)
  }

  /** The columns back to back, in the order `collect_into` writes them. */
  function Wire(c: Columns): seq<Cell> {
    Lengths(c.lengths) + PartsWire(c.parts) + Words(c.version) + Texts(c.prefix)
  }

  // ----- populating -----------------------------------------------------------------------

  function TakeTexts(input: seq<Cell>, n: nat): (r: Result<(seq<Bytes>, seq<Cell>), ColumnError>)
    ensures r.Ok? ==> |r.value.0| == n && Texts(r.value.0) + r.value.1 == input
  {
    if n <= |input| && forall i :: 0 <= i < n ==> input[i].Text?
    then Ok((seq(n, i requires 0 <= i < n => input[i].text), input[n..])) else Err(Malformed)
  }

  lemma TextsTaken(column: seq<Bytes>, tail: seq<Cell>)
    ensures TakeTexts(Texts(column) + tail, |column|) == Ok((column, tail))
  {
    var input := Texts(column) + tail;
    assert input[|column|..] == tail;
    assert TakeTexts(input, |column|).value.0 == column;
  }

  function TakeFlags(input: seq<Cell>, n: nat): (r: Result<(seq<bool>, seq<Cell>), ColumnError>)
    ensures r.Ok? ==> |r.value.0| == n && Flags(r.value.0) + r.value.1 == input
  {
    if n <= |input| && forall i :: 0 <= i < n ==> input[i].Flag?
    then Ok((seq(n, i requires 0 <= i < n => input[i].present), input[n..])) else Err(Malformed)
  }

  lemma FlagsTaken(column: seq<bool>, tail: seq<Cell>)
    ensures TakeFlags(Flags(column) + tail, |column|) == Ok((column, tail))
  {
    var input := Flags(column) + tail;
    assert input[|column|..] == tail;
    assert TakeFlags(input, |column|).value.0 == column;
  }

  function TakeLengths(input: seq<Cell>, n: nat): (r: Result<(seq<nat>, seq<Cell>), ColumnError>)
    ensures r.Ok? ==> |r.value.0| == n && Lengths(r.value.0) + r.value.1 == input
  {
    if n <= |input| && forall i :: 0 <= i < n ==> input[i].Length?
    then Ok((seq(n, i requires 0 <= i < n => input[i].n), input[n..])) else Err(Malformed)
  }

  lemma LengthsTaken(column: seq<nat>, tail: seq<Cell>)
    ensures TakeLengths(Lengths(column) + tail, |column|) == Ok((column, tail))
  {
    var input := Lengths(column) + tail;
    assert input[|column|..] == tail;
    assert TakeLengths(input, |column|).value.0 == column;
  }

  function TakeWords(input: seq<Cell>, n: nat): (r: Result<(seq<u32>, seq<Cell>), ColumnError>)
    ensures r.Ok? ==> |r.value.0| == n && Words(r.value.0) + r.value.1 == input
  {
    if n <= |input| && forall i :: 0 <= i < n ==> input[i].Word?
    then Ok((seq(n, i requires 0 <= i < n => input[i].word), input[n..])) else Err(Malformed)
  }

  lemma WordsTaken(column: seq<u32>, tail: seq<Cell>)
    ensures TakeWords(Words(column) + tail, |column|) == Ok((column, tail))
  {
    var input := Words(column) + tail;
    assert input[|column|..] == tail;
    assert TakeWords(input, |column|).value.0 == column;
  }

  function Total(lengths: seq<nat>): nat {
    if lengths == [] then 0 else lengths[0] + Total(lengths[1..])
  }

  function CountPresent(flags: seq<bool>): nat {
    if flags == [] then 0 else (if flags[0] then 1 else 0) + CountPresent(flags[1..])
  }

  /** The number of value strings is not on the wire: it is the number of present flags. */
  function PopulateParts(input: seq<Cell>, n: nat): Result<(PartColumns, seq<Cell>), ColumnError> {
    var (key, afterKey) :- TakeTexts(input, n);
    var (present, afterFlags) :- TakeFlags(afterKey, n);
    var (values, rest) :- TakeTexts(afterFlags, CountPresent(present));
    Ok((PartColumns(key, present, values), rest))
  }

  function Populate(input: seq<Cell>, n: nat): Result<(Columns, seq<Cell>), ColumnError> {
    var (lengths, afterLengths) :- TakeLengths(input, n);
    var (parts, afterParts) :- PopulateParts(afterLengths, Total(lengths));
    var (version, afterVersion) :- TakeWords(afterParts, n);
    var (prefix, rest) :- TakeTexts(afterVersion, n);
    Ok((Columns(lengths, parts, version, prefix), rest))
  }

  // ----- decoding -------------------------------------------------------------------------

  /** Enough is ahead of every cursor to decode `n` parts. */
  predicate PartsReady(c: PartColumns, n: nat) {
    n <= |c.key| && n <= |c.present| && CountPresent(c.present[..n]) <= |c.values|
  }

  function DecodePart(c: PartColumns): (KeyPart, PartColumns)
    requires |c.key| > 0 && |c.present| > 0 && (c.present[0] ==> |c.values| > 0)
  {
    var value := if c.present[0] then Some(c.values[0]) else None;
    var values := if c.present[0] then c.values[1..] else c.values;
    (KeyPart(c.key[0], value), PartColumns(c.key[1..], c.present[1..], values))
  }

  lemma NextPartIsReady(c: PartColumns, n: nat)
    requires n > 0 && PartsReady(c, n)
    ensures c.present[0] ==> |c.values| > 0
    ensures PartsReady(DecodePart(c).1, n - 1)
  {
    assert c.present[..n][1..] == c.present[1..][..n - 1];
  }

  function DecodeParts(c: PartColumns, n: nat): (seq<KeyPart>, PartColumns)
    requires PartsReady(c, n)
    decreases n
  {
    if n == 0 then ([], c)
    else
      NextPartIsReady(c, n);
      var (part, next) := DecodePart(c);
      var (others, rest) := DecodeParts(next, n - 1);
      ([part] + others, rest)
  }

  /** Enough is ahead of every cursor to decode `n` keys. */
  predicate Ready(c: Columns, n: nat) {
    && n <= |c.lengths| && n <= |c.version| && n <= |c.prefix|
    && PartsReady(c.parts, Total(c.lengths[..n]))
  }

  function DecodeKey(c: Columns): (CacheKey, Columns)
    requires |c.lengths| > 0 && |c.version| > 0 && |c.prefix| > 0 && PartsReady(c.parts, c.lengths[0])
  {
    var (parts, rest) := DecodeParts(c.parts, c.lengths[0]);
    var size := ContentSize(c.prefix[0], parts);
    (CacheKey(parts, c.version[0], c.prefix[0], size), Columns(c.lengths[1..], rest, c.version[1..], c.prefix[1..]))
  }

  function DecodeAll(c: Columns, n: nat): (seq<CacheKey>, Columns)
    requires Ready(c, n)
    decreases n
  {
    if n == 0 then ([], c)
    else
      NextKeyIsReady(c, n);
      var (key, next) := DecodeKey(c);
      var (others, rest) := DecodeAll(next, n - 1);
      ([key] + others, rest)
  }

  // ----- cursors never overrun ------------------------------------------------------------

  lemma {:induction false} CountIsAdditive(a: seq<bool>, b: seq<bool>)
    ensures CountPresent(a + b) == CountPresent(a) + CountPresent(b)
  {
    if a == [] {
      assert a + b == b;
    } else {
      assert (a + b)[1..] == a[1..] + b;
      CountIsAdditive(a[1..], b);
    }
  }

  lemma SplitFirst<T>(s: seq<T>)
    requires s != []
    ensures [s[0]] + s[1..] == s
  {
  }

  lemma DecodePartJoins(c: PartColumns, part: KeyPart, next: PartColumns)
    requires |c.key| > 0 && |c.present| > 0 && (c.present[0] ==> |c.values| > 0)
    requires DecodePart(c) == (part, next)
    ensures JoinParts(PartColumn(part), next) == c
  {
    SplitFirst(c.key);
    SplitFirst(c.present);
    if c.present[0] {
      SplitFirst(c.values);
    }
  }

  lemma PartThenParts(part: KeyPart, others: seq<KeyPart>)
    ensures PartsColumns([part] + others) == JoinParts(PartColumn(part), PartsColumns(others))
  {
    assert ([part] + others)[1..] == others;
  }

  lemma {:induction false} DecodePartsJoin(c: PartColumns, m: nat)
    requires PartsReady(c, m)
    ensures |DecodeParts(c, m).0| == m
    ensures JoinParts(PartsColumns(DecodeParts(c, m).0), DecodeParts(c, m).1) == c
    decreases m
  {
    if m > 0 {
      NextPartIsReady(c, m);
      var (part, next) := DecodePart(c);
      DecodePartsJoin(next, m - 1);
      var others, rest := DecodeParts(next, m - 1).0, DecodeParts(next, m - 1).1;
      assert DecodeParts(c, m) == ([part] + others, rest);
      DecodePartJoins(c, part, next);
      PartThenParts(part, others);
      JoinPartsIsAssociative(PartColumn(part), PartsColumns(others), rest);
    } else {
      assert JoinParts(NO_PARTS, c) == c;
    }
  }

  /** Decoding `m` parts moves each cursor by what those parts used, and no further. */
  lemma {:induction false} DecodePartsAdvances(c: PartColumns, m: nat)
    requires PartsReady(c, m)
    ensures
      var (parts, rest) := DecodeParts(c, m);
      && |parts| == m
      && rest == PartColumns(c.key[m..], c.present[m..], c.values[CountPresent(c.present[..m])..])
      && JoinParts(PartsColumns(parts), rest) == c
    decreases m
  {
    DecodePartsJoin(c, m);
    if m > 0 {
      NextPartIsReady(c, m);
      DecodePartsAdvances(DecodePart(c).1, m - 1);
      assert c.present[..m][1..] == c.present[1..][..m - 1];
    }
  }

  lemma JoinPartsIsAssociative(a: PartColumns, b: PartColumns, c: PartColumns)
    ensures JoinParts(JoinParts(a, b), c) == JoinParts(a, JoinParts(b, c))
  {
    assert (a.key + b.key) + c.key == a.key + (b.key + c.key);
    assert (a.present + b.present) + c.present == a.present + (b.present + c.present);
    assert (a.values + b.values) + c.values == a.values + (b.values + c.values);
  }

  lemma JoinIsAssociative(a: Columns, b: Columns, c: Columns)
    ensures Join(Join(a, b), c) == Join(a, Join(b, c))
  {
    JoinPartsIsAssociative(a.parts, b.parts, c.parts);
    assert (a.lengths + b.lengths) + c.lengths == a.lengths + (b.lengths + c.lengths);
    assert (a.version + b.version) + c.version == a.version + (b.version + c.version);
    assert (a.prefix + b.prefix) + c.prefix == a.prefix + (b.prefix + c.prefix);
  }

  /** Parts taken from the front leave the others ready. */
  lemma RestIsReady(c: PartColumns, m: nat, total: nat)
    requires m <= total && PartsReady(c, total)
    ensures PartsReady(c, m) && PartsReady(DecodeParts(c, m).1, total - m)
  {
    assert c.present[..total] == c.present[..m] + c.present[m..][..total - m];
    CountIsAdditive(c.present[..m], c.present[m..][..total - m]);
    DecodePartsAdvances(c, m);
  }

  lemma NextKeyIsReady(c: Columns, n: nat)
    requires n > 0 && Ready(c, n)
    ensures PartsReady(c.parts, c.lengths[0])
    ensures Ready(DecodeKey(c).1, n - 1)
  {
    assert c.lengths[..n][1..] == c.lengths[1..][..n - 1];
    RestIsReady(c.parts, c.lengths[0], Total(c.lengths[..n]));
  }

  /** Every column holds exactly what `n` keys need. */
  predicate Full(c: Columns, n: nat) {
    && |c.lengths| == n && |c.version| == n && |c.prefix| == n
    && |c.parts.key| == Total(c.lengths) && |c.parts.present| == Total(c.lengths)
    && |c.parts.values| == CountPresent(c.parts.present)
  }

  lemma FullIsReady(c: Columns, n: nat)
    requires Full(c, n)
    ensures Ready(c, n)
  {
    assert c.lengths[..n] == c.lengths;
    assert c.parts.present[..Total(c.lengths)] == c.parts.present;
  }

  lemma FullAfterKey(c: Columns, n: nat)
    requires n > 0 && Full(c, n)
    ensures Ready(c, n) && PartsReady(c.parts, c.lengths[0])
    ensures Full(DecodeKey(c).1, n - 1)
  {
    FullIsReady(c, n);
    NextKeyIsReady(c, n);
    var m := c.lengths[0];
    var p := c.parts.present;
    assert p == p[..m] + p[m..];
    CountIsAdditive(p[..m], p[m..]);
    DecodePartsAdvances(c.parts, m);
  }

  lemma DecodeKeyReads(c: Columns, key: CacheKey, next: Columns)
    requires |c.lengths| > 0 && |c.version| > 0 && |c.prefix| > 0 && PartsReady(c.parts, c.lengths[0])
    requires DecodeKey(c) == (key, next)
    ensures WellMade(key) && Join(KeyColumn(key), next) == c
  {
    DecodePartsAdvances(c.parts, c.lengths[0]);
    assert JoinParts(PartsColumns(key.parts), next.parts) == c.parts;
    SplitFirst(c.lengths);
    SplitFirst(c.version);
    SplitFirst(c.prefix);
  }

  /** Decoding from full columns stops with every cursor at the end, having read every cell. */
  lemma {:induction false} FullColumnsAreUsedUp(c: Columns, n: nat)
    requires Full(c, n)
    ensures Ready(c, n)
    ensures
      var (keys, rest) := DecodeAll(c, n);
      |keys| == n && AllWellMade(keys) && rest == NO_KEYS && ColumnsOf(keys) == c
    decreases n
  {
    FullIsReady(c, n);
    if n > 0 {
      FullAfterKey(c, n);
      var (key, next) := DecodeKey(c);
      FullColumnsAreUsedUp(next, n - 1);
      DecodeKeyReads(c, key, next);
      assert DecodeAll(c, n) == ([key] + DecodeAll(next, n - 1).0, DecodeAll(next, n - 1).1);
    }
  }

  // ----- the columns of a list ------------------------------------------------------------

  lemma {:induction false} PartsColumnsFit(parts: seq<KeyPart>)
    ensures
      var c := PartsColumns(parts);
      |c.key| == |parts| && |c.present| == |parts| && |c.values| == CountPresent(c.present)
  {
    if parts != [] {
      PartsColumnsFit(parts[1..]);
      CountIsAdditive(PartColumn(parts[0]).present, PartsColumns(parts[1..]).present);
    }
  }

  /** As many value strings as present flags, as many flags as parts, as many lengths as keys. */
  lemma {:induction false} ColumnsAreFull(keys: seq<CacheKey>)
    ensures Full(ColumnsOf(keys), |keys|)
  {
    if keys != [] {
      ColumnsAreFull(keys[1..]);
      PartsColumnsFit(keys[0].parts);
      var a, b := KeyColumn(keys[0]), ColumnsOf(keys[1..]);
      CountIsAdditive(a.parts.present, b.parts.present);
      assert (a.lengths + b.lengths)[1..] == b.lengths;
    }
  }

  lemma DecodePartUndoes(p: KeyPart, ahead: PartColumns)
    requires var c := JoinParts(PartColumn(p), ahead); c.present[0] ==> |c.values| > 0
    ensures DecodePart(JoinParts(PartColumn(p), ahead)) == (p, ahead)
  {
    var c := JoinParts(PartColumn(p), ahead);
    assert c.key[1..] == ahead.key && c.present[1..] == ahead.present;
    if p.value.Some? {
      assert c.values[1..] == ahead.values;
    } else {
      assert c.values == ahead.values;
    }
  }

  lemma {:induction false} DecodePartsUndoes(parts: seq<KeyPart>, ahead: PartColumns)
    ensures PartsReady(JoinParts(PartsColumns(parts), ahead), |parts|)
    ensures DecodeParts(JoinParts(PartsColumns(parts), ahead), |parts|) == (parts, ahead)
  {
    var c := JoinParts(PartsColumns(parts), ahead);
    PartsColumnsFit(parts);
    assert c.present[..|parts|] == PartsColumns(parts).present;
    if parts == [] {
      assert c == ahead;
    } else {
      var next := JoinParts(PartsColumns(parts[1..]), ahead);
      JoinPartsIsAssociative(PartColumn(parts[0]), PartsColumns(parts[1..]), ahead);
      assert c == JoinParts(PartColumn(parts[0]), next);
      NextPartIsReady(c, |parts|);
      DecodePartUndoes(parts[0], next);
      DecodePartsUndoes(parts[1..], ahead);
      assert [parts[0]] + parts[1..] == parts;
    }
  }

  lemma {:induction false} DecodeAllUndoes(keys: seq<CacheKey>)
    requires AllWellMade(keys)
    ensures Ready(ColumnsOf(keys), |keys|)
    ensures DecodeAll(ColumnsOf(keys), |keys|) == (keys, NO_KEYS)
  {
    var c := ColumnsOf(keys);
    ColumnsAreFull(keys);
    FullIsReady(c, |keys|);
    if keys != [] {
      var next := ColumnsOf(keys[1..]);
      FullAfterKey(c, |keys|);
      assert DecodeKey(c) == (keys[0], next) by {
        DecodePartsUndoes(keys[0].parts, next.parts);
        assert WellMade(keys[0]);
        assert c.lengths[1..] == next.lengths && c.version[1..] == next.version && c.prefix[1..] == next.prefix;
      }
      forall i | 0 <= i < |keys| - 1
        ensures WellMade(keys[1..][i])
      {
        assert WellMade(keys[i + 1]);
      }
      DecodeAllUndoes(keys[1..]);
      assert [keys[0]] + keys[1..] == keys;
    }
  }

  // ----- the wire -------------------------------------------------------------------------

  lemma PopulatePartsTakes(c: PartColumns, n: nat, tail: seq<Cell>)
    requires |c.key| == n && |c.present| == n && |c.values| == CountPresent(c.present)
    ensures PopulateParts(PartsWire(c) + tail, n) == Ok((c, tail))
  {
    var afterFlags := Texts(c.values) + tail;
    var afterKey := Flags(c.present) + afterFlags;
    assert PartsWire(c) + tail == Texts(c.key) + afterKey;
    TextsTaken(c.key, afterKey);
    FlagsTaken(c.present, afterFlags);
    TextsTaken(c.values, tail);
  }

  lemma PopulateTakes(c: Columns, n: nat, tail: seq<Cell>)
    requires Full(c, n)
    ensures Populate(Wire(c) + tail, n) == Ok((c, tail))
  {
    var afterVersion := Texts(c.prefix) + tail;
    var afterParts := Words(c.version) + afterVersion;
    var afterLengths := PartsWire(c.parts) + afterParts;
    assert Wire(c) + tail == Lengths(c.lengths) + afterLengths;
    LengthsTaken(c.lengths, afterLengths);
    PopulatePartsTakes(c.parts, Total(c.lengths), afterParts);
    WordsTaken(c.version, afterVersion);
    TextsTaken(c.prefix, tail);
  }

  lemma ConcatIsAssociative<T>(a: seq<T>, b: seq<T>, c: seq<T>)
    ensures (a + b) + c == a + (b + c)
  {
  }

  lemma PopulatePartsReads(input: seq<Cell>, n: nat)
    requires PopulateParts(input, n).Ok?
    ensures
      var (c, rest) := PopulateParts(input, n).value;
      && PartsWire(c) + rest == input
      && |c.key| == n && |c.present| == n && |c.values| == CountPresent(c.present)
  {
    var (c, rest) := PopulateParts(input, n).value;
    ConcatIsAssociative(Texts(c.key), Flags(c.present), Texts(c.values));
    ConcatIsAssociative(Texts(c.key), Flags(c.present) + Texts(c.values), rest);
    ConcatIsAssociative(Flags(c.present), Texts(c.values), rest);
  }

  lemma PopulateReads(input: seq<Cell>, n: nat)
    requires Populate(input, n).Ok?
    ensures
      var (c, rest) := Populate(input, n).value;
      Full(c, n) && Wire(c) + rest == input
  {
    var (c, rest) := Populate(input, n).value;
    PopulatePartsReads(TakeLengths(input, n).value.1, Total(c.lengths));
    var parts, version, prefix := PartsWire(c.parts), Words(c.version), Texts(c.prefix);
    ConcatIsAssociative(version, prefix, rest);
    ConcatIsAssociative(parts, version + prefix, rest);
    ConcatIsAssociative(Lengths(c.lengths), parts + (version + prefix), rest);
    ConcatIsAssociative(parts, version, prefix);
    ConcatIsAssociative(Lengths(c.lengths), parts, version);
    ConcatIsAssociative(Lengths(c.lengths), parts + version, prefix);
    ConcatIsAssociative(parts, version, prefix + rest);
    ConcatIsAssociative(Lengths(c.lengths), parts, version + (prefix + rest));
  }

  // ----- the codec laws -------------------------------------------------------------------

  type Populated = Result<(Columns, seq<Cell>), ColumnError>

  function DecodePopulated(p: Populated, n: nat): Result<(seq<CacheKey>, seq<Cell>), ColumnError>
    requires p.Ok? ==> Full(p.value.0, n)
  {
    match p
    case Err(e) => Err(e)
    case Ok((c, rest)) =>
      FullIsReady(c, n);
      Ok((DecodeAll(c, n).0, rest))
  }

  lemma DecodedColumns(p: Populated, n: nat, keys: seq<CacheKey>, rest: seq<Cell>)
    requires p.Ok? ==> Full(p.value.0, n)
    requires DecodePopulated(p, n) == Ok((keys, rest))
    ensures |keys| == n && AllWellMade(keys) && p == Ok((ColumnsOf(keys), rest))
  {
    FullColumnsAreUsedUp(p.value.0, n);
  }

  lemma PopulatedIsFull(input: seq<Cell>, n: nat)
    ensures Populate(input, n).Ok? ==> Full(Populate(input, n).value.0, n)
  {
    if Populate(input, n).Ok? {
      PopulateReads(input, n);
    }
  }

  /** The whole decoder: populate the columns, then decode as many keys, or refuse the input. */
  function DecodeList(input: seq<Cell>, n: nat): Result<(seq<CacheKey>, seq<Cell>), ColumnError> {
    PopulatedIsFull(input, n);
    DecodePopulated(Populate(input, n), n)
  }

  /** Decoding what was encoded gives the same list, sizes included, and leaves the rest alone. */
  lemma ListRoundTrip(keys: seq<CacheKey>, tail: seq<Cell>)
    requires AllWellMade(keys)
    ensures DecodeList(Wire(ColumnsOf(keys)) + tail, |keys|) == Ok((keys, tail))
  {
    ColumnsAreFull(keys);
    PopulateTakes(ColumnsOf(keys), |keys|, tail);
    DecodeAllUndoes(keys);
  }

  /**
   * On any input at all, an accepted list is well made, used every cell it populated, and is the
   * only list that encodes to that input.
   */
  lemma AcceptedInputIsCanonical(input: seq<Cell>, n: nat, keys: seq<CacheKey>, rest: seq<Cell>)
    ensures DecodeList(input, n) == Ok((keys, rest)) ==>
      |keys| == n && AllWellMade(keys) && Wire(ColumnsOf(keys)) + rest == input
  {
    if DecodeList(input, n) == Ok((keys, rest)) {
      PopulatedIsFull(input, n);
      DecodedColumns(Populate(input, n), n, keys, rest);
      PopulateReads(input, n);
    }
  }

  /** Lists of equally many keys share an encoding exactly when they are the same list. */
  lemma EncodingIsInjective(a: seq<CacheKey>, b: seq<CacheKey>)
    requires AllWellMade(a) && AllWellMade(b) && |a| == |b|
    ensures Wire(ColumnsOf(a)) == Wire(ColumnsOf(b)) <==> a == b
  {
    ListRoundTrip(a, []);
    ListRoundTrip(b, []);
  }
}
