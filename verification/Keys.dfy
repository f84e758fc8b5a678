/**
 * Cache keys: prefix, version and parts, with the precomputed size of their heap-allocated text.
 * Strings are sequences of UTF-8 bytes.
 */
module Keys {
  import opened Wrappers
  import opened Values

  type u32 = n: nat | n < 0x1_0000_0000

  /** Strings up to this length are stored inline. */
  const INLINE := 23

  datatype KeyPart = KeyPart(key: Bytes, value: Option<Bytes>)

  datatype CacheKey = CacheKey(parts: seq<KeyPart>, version: u32, prefix: Bytes, contentSize: nat)

  function HeapSize(len: nat): nat {
    if len > INLINE then len - INLINE else 0
  }

  function PartSize(p: KeyPart): nat {
    HeapSize(|p.key|) + if p.value.Some? then HeapSize(|p.value.value|) else 0
  }

  function PartsSize(parts: seq<KeyPart>): nat {
    if parts == [] then 0 else PartSize(parts[0]) + PartsSize(parts[1..])
  }

  function ContentSize(prefix: Bytes, parts: seq<KeyPart>): nat {
    HeapSize(|prefix|) + PartsSize(parts)
  }

  /** What every constructor and every decoder leaves behind. */
  predicate WellMade(k: CacheKey) {
    k.contentSize == ContentSize(k.prefix, k.parts)
  }

  predicate AllWellMade(keys: seq<CacheKey>) {
    forall i :: 0 <= i < |keys| ==> WellMade(keys[i])
  }

  function New(prefix: Bytes, version: u32, parts: seq<KeyPart>): (k: CacheKey)
    ensures WellMade(k)
  {
    CacheKey(parts, version, prefix, ContentSize(prefix, parts))
  }

  function FromSlice(pairs: seq<(Bytes, Option<Bytes>)>): (k: CacheKey)
    ensures WellMade(k) && k.version == 0 && k.prefix == [] && |k.parts| == |pairs|
    ensures forall i :: 0 <= i < |pairs| ==> k.parts[i].key == pairs[i].0 && k.parts[i].value == pairs[i].1
  {
    var parts := seq(|pairs|, i requires 0 <= i < |pairs| => KeyPart(pairs[i].0, pairs[i].1));
    CacheKey(parts, 0, [], ContentSize([], parts))
  }

  function FromStr(key: Bytes, value: Bytes): (k: CacheKey)
    ensures WellMade(k) && k == FromSlice([(key, Some(value))])
  {
    assert FromSlice([(key, Some(value))]).parts == [KeyPart(key, Some(value))];
    CacheKey([KeyPart(key, Some(value))], 0, [], ContentSize([], [KeyPart(key, Some(value))]))
  }

  /** The stored size never separates two keys that a user could not tell apart. */
  lemma EqualityIsOfPrefixVersionParts(j: CacheKey, k: CacheKey)
    requires WellMade(j) && WellMade(k)
    ensures j == k <==> j.prefix == k.prefix && j.version == k.version && j.parts == k.parts
  {
  }

  /** All the text of a key: prefix, names, and the values there are. */
  function KeyTexts(prefix: Bytes, parts: seq<KeyPart>): seq<Bytes> {
    [prefix] + PartTexts(parts)
  }

  function PartTexts(parts: seq<KeyPart>): seq<Bytes> {
    if parts == [] then []
    else [parts[0].key] + (if parts[0].value.Some? then [parts[0].value.value] else []) + PartTexts(parts[1..])
  }

  /** The bytes of the texts that have no room inline, end to end. */
  function OnHeap(texts: seq<Bytes>): Bytes {
    if texts == [] then []
    else (if |texts[0]| > INLINE then texts[0][INLINE..] else []) + OnHeap(texts[1..])
  }

  lemma {:induction false} OnHeapAdds(a: seq<Bytes>, b: seq<Bytes>)
    ensures OnHeap(a + b) == OnHeap(a) + OnHeap(b)
  {
    if a == [] {
      assert a + b == b;
    } else {
      assert (a + b)[1..] == a[1..] + b;
      OnHeapAdds(a[1..], b);
    }
  }

  lemma {:induction false} PartsSizeIsHeap(parts: seq<KeyPart>)
    ensures PartsSize(parts) == |OnHeap(PartTexts(parts))|
  {
    if parts != [] {
      var p := parts[0];
      var value := if p.value.Some? then [p.value.value] else [];
      PartsSizeIsHeap(parts[1..]);
      OnHeapAdds([p.key] + value, PartTexts(parts[1..]));
      OnHeapAdds([p.key], value);
      assert |OnHeap([p.key])| == HeapSize(|p.key|);
      assert |OnHeap(value)| == if p.value.Some? then HeapSize(|p.value.value|) else 0;
    }
  }

  /** The stored size is the number of bytes beyond the first 23 of prefix, names and present values. */
  lemma SizeIsHeapBytes(k: CacheKey)
    ensures WellMade(k) <==> k.contentSize == |OnHeap(KeyTexts(k.prefix, k.parts))|
  {
    PartsSizeIsHeap(k.parts);
    OnHeapAdds([k.prefix], PartTexts(k.parts));
    assert |OnHeap([k.prefix])| == HeapSize(|k.prefix|);
  }

  /** The builder that extractors fill one after the other. */
  class KeyParts<T> {
    const subject: T
    var parts: seq<KeyPart>

    constructor (subject: T)
      ensures this.subject == subject && parts == []
    {
      this.subject := subject;
      parts := [];
    }

    method Push(part: KeyPart)
      modifies this
      ensures parts == old(parts) + [part]
    {
      parts := parts + [part];
    }

    /** Moves every part out of the given vector. */
    method Append(more: seq<KeyPart>) returns (left: seq<KeyPart>)
      modifies this
      ensures parts == old(parts) + more && left == []
    {
      parts, left := parts + more, [];
    }

    method IntoCacheKey() returns (subject: T, k: CacheKey)
      ensures subject == this.subject
      ensures WellMade(k) && k == New([], 0, parts)
    {
      subject := this.subject;
      k := CacheKey(parts, 0, [], ContentSize([], parts));
    }
  }
}
