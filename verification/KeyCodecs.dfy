/** The key encoder and decoder as they run, one buffer or one cursor per column. */
module KeyCodecs {
  import opened Wrappers
  import opened Values
  import opened Keys
  import opened KeyColumns

  lemma {:induction false} PartsColumnsAppend(parts: seq<KeyPart>, p: KeyPart)
    ensures PartsColumns(parts + [p]) == JoinParts(PartsColumns(parts), PartColumn(p))
  {
    if parts == [] {
      assert parts + [p] == [p];
      assert JoinParts(PartColumn(p), NO_PARTS) == PartColumn(p) == JoinParts(NO_PARTS, PartColumn(p));
    } else {
      assert (parts + [p])[1..] == parts[1..] + [p];
      PartsColumnsAppend(parts[1..], p);
      JoinPartsIsAssociative(PartColumn(parts[0]), PartsColumns(parts[1..]), PartColumn(p));
    }
  }

  lemma {:induction false} ColumnsAppend(keys: seq<CacheKey>, k: CacheKey)
    ensures ColumnsOf(keys + [k]) == Join(ColumnsOf(keys), KeyColumn(k))
  {
    if keys == [] {
      assert keys + [k] == [k];
      assert Join(KeyColumn(k), NO_KEYS) == KeyColumn(k) == Join(NO_KEYS, KeyColumn(k));
    } else {
      assert (keys + [k])[1..] == keys[1..] + [k];
      ColumnsAppend(keys[1..], k);
      JoinIsAssociative(KeyColumn(keys[0]), ColumnsOf(keys[1..]), KeyColumn(k));
    }
  }

  class KeyPartEncoder {
    var key: seq<Bytes>
    var valueVariant: seq<bool>
    var valueStr: seq<Bytes>

    function Contents(): PartColumns
      reads this
    {
      PartColumns(key, valueVariant, valueStr)
    }

    constructor ()
      ensures Contents() == NO_PARTS
    {
      key, valueVariant, valueStr := [], [], [];
    }

    method Encode(part: KeyPart)
      modifies this
      ensures Contents() == JoinParts(old(Contents()), PartColumn(part))
    {
      key := key + [part.key];
      valueVariant := valueVariant + [part.value.Some?];
      if part.value.Some? {
        valueStr := valueStr + [part.value.value];
      }
    }

    method CollectInto(written: seq<Cell>) returns (out: seq<Cell>)
      ensures out == written + PartsWire(Contents())
    {
      out := written + Texts(key);
      out := out + Flags(valueVariant);
      out := out + Texts(valueStr);
    }
  }

  class CacheKeyEncoder {
    const parts: KeyPartEncoder
    var lengths: seq<nat>
    var version: seq<u32>
    var prefix: seq<Bytes>

    function Contents(): Columns
      reads this, parts
    {
      Columns(lengths, parts.Contents(), version, prefix)
    }

    constructor ()
      ensures Contents() == NO_KEYS && fresh(parts)
    {
      parts := new KeyPartEncoder();
      lengths, version, prefix := [], [], [];
    }

    method Encode(k: CacheKey)
      modifies this, parts
      ensures Contents() == Join(old(Contents()), KeyColumn(k))
    {
      ghost var before := parts.Contents();
      lengths := lengths + [|k.parts|];
      assert JoinParts(before, NO_PARTS) == before;
      for i := 0 to |k.parts|
        invariant lengths == old(lengths) + [|k.parts|] && version == old(version) && prefix == old(prefix)
        invariant parts.Contents() == JoinParts(before, PartsColumns(k.parts[..i]))
      {
        PartsColumnsAppend(k.parts[..i], k.parts[i]);
        assert k.parts[..i + 1] == k.parts[..i] + [k.parts[i]];
        JoinPartsIsAssociative(before, PartsColumns(k.parts[..i]), PartColumn(k.parts[i]));
        parts.Encode(k.parts[i]);
      }
      assert k.parts[..|k.parts|] == k.parts;
      version := version + [k.version];
      prefix := prefix + [k.prefix];
    }

    method CollectInto(written: seq<Cell>) returns (out: seq<Cell>)
      ensures out == written + Wire(Contents())
    {
      out := written + Lengths(lengths);
      out := parts.CollectInto(out);
      out := out + Words(version);
      out := out + Texts(prefix);
    }
  }

  method EncodeKeys(keys: seq<CacheKey>) returns (wire: seq<Cell>)
    ensures wire == Wire(ColumnsOf(keys))
  {
    var encoder := new CacheKeyEncoder();
    for i := 0 to |keys|
      invariant fresh(encoder) && fresh(encoder.parts)
      invariant encoder.Contents() == ColumnsOf(keys[..i])
    {
      ColumnsAppend(keys[..i], keys[i]);
      assert keys[..i + 1] == keys[..i] + [keys[i]];
      encoder.Encode(keys[i]);
    }
    assert keys[..|keys|] == keys;
    wire := encoder.CollectInto([]);
  }

  class KeyPartDecoder {
    var key: seq<Bytes>
    var valueVariant: seq<bool>
    var valueStr: seq<Bytes>

    function Ahead(): PartColumns
      reads this
    {
      PartColumns(key, valueVariant, valueStr)
    }

    constructor ()
      ensures Ahead() == NO_PARTS
    {
      key, valueVariant, valueStr := [], [], [];
    }

    method Populate(input: seq<Cell>, n: nat) returns (r: Result<seq<Cell>, ColumnError>)
      modifies this
      ensures r.Err? ==> PopulateParts(input, n) == Err(r.error)
      ensures r.Ok? ==> PopulateParts(input, n) == Ok((Ahead(), r.value))
    {
      var taken :- TakeTexts(input, n);
      var flags :- TakeFlags(taken.1, n);
      var someCount := CountPresent(flags.0);
      var strings :- TakeTexts(flags.1, someCount);
      key, valueVariant, valueStr := taken.0, flags.0, strings.0;
      r := Ok(strings.1);
    }

    method Decode() returns (part: KeyPart)
      requires PartsReady(Ahead(), 1)
      modifies this
      ensures old(Ahead()).present[0] ==> |old(Ahead()).values| > 0
      ensures (part, Ahead()) == DecodePart(old(Ahead()))
    {
      NextPartIsReady(Ahead(), 1);
      var name := key[0];
      key := key[1..];
      var present := valueVariant[0];
      valueVariant := valueVariant[1..];
      var value := None;
      if present {
        value := Some(valueStr[0]);
        valueStr := valueStr[1..];
      }
      part := KeyPart(name, value);
    }
  }

  lemma OnePartIsReady(c: PartColumns, n: nat)
    requires n > 0 && PartsReady(c, n)
    ensures PartsReady(c, 1)
  {
    assert c.present[..1] + c.present[..n][1..] == c.present[..n];
    CountIsAdditive(c.present[..1], c.present[..n][1..]);
  }

  class CacheKeyDecoder {
    const parts: KeyPartDecoder
    var lengths: seq<nat>
    var version: seq<u32>
    var prefix: seq<Bytes>

    function Ahead(): Columns
      reads this, parts
    {
      Columns(lengths, parts.Ahead(), version, prefix)
    }

    constructor ()
      ensures Ahead() == NO_KEYS && fresh(parts)
    {
      parts := new KeyPartDecoder();
      lengths, version, prefix := [], [], [];
    }

    method Populate(input: seq<Cell>, n: nat) returns (r: Result<seq<Cell>, ColumnError>)
      modifies this, parts
      ensures r.Err? ==> KeyColumns.Populate(input, n) == Err(r.error)
      ensures r.Ok? ==> KeyColumns.Populate(input, n) == Ok((Ahead(), r.value))
    {
      var counts :- TakeLengths(input, n);
      var afterParts :- parts.Populate(counts.1, Total(counts.0));
      var versions :- TakeWords(afterParts, n);
      var prefixes :- TakeTexts(versions.1, n);
      lengths, version, prefix := counts.0, versions.0, prefixes.0;
      r := Ok(prefixes.1);
    }

    method DecodeVec() returns (decoded: seq<KeyPart>)
      requires |lengths| > 0 && PartsReady(parts.Ahead(), lengths[0])
      modifies this, parts
      ensures lengths == old(lengths)[1..] && version == old(version) && prefix == old(prefix)
      ensures (decoded, parts.Ahead()) == DecodeParts(old(parts.Ahead()), old(lengths)[0])
    {
      var n := lengths[0];
      ghost var start := parts.Ahead();
      lengths := lengths[1..];
      decoded := [];
      assert start == old(parts.Ahead());
      for i := 0 to n
        invariant lengths == old(lengths)[1..] && version == old(version) && prefix == old(prefix)
        invariant PartsReady(start, n) && PartsReady(parts.Ahead(), n - i)
        invariant DecodeParts(start, n).0 == decoded + DecodeParts(parts.Ahead(), n - i).0
        invariant DecodeParts(start, n).1 == DecodeParts(parts.Ahead(), n - i).1
      {
        OnePartIsReady(parts.Ahead(), n - i);
        NextPartIsReady(parts.Ahead(), n - i);
        ghost var later := DecodeParts(DecodePart(parts.Ahead()).1, n - i - 1).0;
        var part := parts.Decode();
        assert decoded + ([part] + later) == (decoded + [part]) + later;
        decoded := decoded + [part];
      }
      assert decoded + [] == decoded;
    }

    method Decode() returns (k: CacheKey)
      requires Ready(Ahead(), 1)
      modifies this, parts
      ensures PartsReady(old(Ahead()).parts, old(Ahead()).lengths[0])
      ensures (k, Ahead()) == DecodeKey(old(Ahead()))
      ensures WellMade(k)
    {
      NextKeyIsReady(Ahead(), 1);
      var name := prefix[0];
      prefix := prefix[1..];
      var decoded := DecodeVec();
      var size := ContentSize(name, decoded);
      var number := version[0];
      version := version[1..];
      k := CacheKey(decoded, number, name, size);
    }
  }

  lemma OneKeyIsReady(c: Columns, n: nat)
    requires n > 0 && Ready(c, n)
    ensures Ready(c, 1)
  {
    NextKeyIsReady(c, n);
    assert c.lengths[..1][1..] == [];
    assert Total(c.lengths[..1]) == c.lengths[0];
  }

  method DecodeSome(decoder: CacheKeyDecoder, n: nat) returns (keys: seq<CacheKey>)
    requires Ready(decoder.Ahead(), n)
    modifies decoder, decoder.parts
    ensures (keys, decoder.Ahead()) == DecodeAll(old(decoder.Ahead()), n)
  {
    ghost var start := decoder.Ahead();
    keys := [];
    for i := 0 to n
      invariant Ready(start, n) && Ready(decoder.Ahead(), n - i)
      invariant DecodeAll(start, n).0 == keys + DecodeAll(decoder.Ahead(), n - i).0
      invariant DecodeAll(start, n).1 == DecodeAll(decoder.Ahead(), n - i).1
    {
      OneKeyIsReady(decoder.Ahead(), n - i);
      NextKeyIsReady(decoder.Ahead(), n - i);
      ghost var later := DecodeAll(DecodeKey(decoder.Ahead()).1, n - i - 1).0;
      var k := decoder.Decode();
      assert keys + ([k] + later) == (keys + [k]) + later;
      keys := keys + [k];
    }
    assert keys + [] == keys;
  }

  method DecodeKeys(input: seq<Cell>, n: nat) returns (r: Result<(seq<CacheKey>, seq<Cell>), ColumnError>)
    ensures r == DecodeList(input, n)
  {
    var decoder := new CacheKeyDecoder();
    var rest := decoder.Populate(input, n);
    PopulatedIsFull(input, n);
    if rest.Err? {
      return Err(rest.error);
    }
    FullIsReady(decoder.Ahead(), n);
    var keys := DecodeSome(decoder, n);
    r := Ok((keys, rest.value));
  }
}
