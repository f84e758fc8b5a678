/**
 * The application/x-www-form-urlencoded serializer and parser, sections 5.1 and 5.2 of the WHATWG
 * URL Standard, byte by byte.
 */
module UrlEncoding {
  import opened Values
  import Utf8

  const SPACE: byte := 0x20
  const PERCENT: byte := 0x25
  const AMPERSAND: byte := 0x26
  const PLUS: byte := 0x2B
  const EQUALS: byte := 0x3D

  type Pair = (Bytes, Bytes)

  // ----- serializing ----------------------------------------------------------------------

  predicate Unreserved(b: byte) {
    || b == 0x2A || b == 0x2D || b == 0x2E || b == 0x5F
    || 0x30 <= b <= 0x39 || 0x41 <= b <= 0x5A || 0x61 <= b <= 0x7A
  }

  function HexDigit(n: int): byte
    requires 0 <= n < 16
  {
    (if n < 10 then 0x30 + n else 0x41 + n - 10) as byte
  }

  function EncodeByte(b: byte): Bytes {
    if Unreserved(b) then [b]
    else if b == SPACE then [PLUS]
    else [PERCENT, HexDigit(b as int / 16), HexDigit(b as int % 16)]
  }

  function Encode(s: Bytes): Bytes {
    if s == [] then [] else EncodeByte(s[0]) + Encode(s[1..])
  }

  function EncodePair(p: Pair): Bytes {
    Encode(p.0) + [EQUALS] + Encode(p.1)
  }

  function Serialize(pairs: seq<Pair>): Bytes {
    if pairs == [] then []
    else if |pairs| == 1 then EncodePair(pairs[0])
    else EncodePair(pairs[0]) + [AMPERSAND] + Serialize(pairs[1..])
  }

  // ----- parsing --------------------------------------------------------------------------

  /** The first place of a byte, or the length when it does not occur. */
  function Find(s: Bytes, b: byte): (i: nat)
    ensures i <= |s| && b !in s[..i]
    ensures i < |s| ==> s[i] == b
  {
    if s == [] || s[0] == b then 0 else 1 + Find(s[1..], b)
  }

  function After(s: Bytes, i: nat): Bytes {
    if i < |s| then s[i + 1..] else []
  }

  function PlusToSpace(s: Bytes): (r: Bytes)
    ensures |r| == |s|
  {
    if s == [] then [] else [if s[0] == PLUS then SPACE else s[0]] + PlusToSpace(s[1..])
  }

  predicate IsHex(b: byte) {
    0x30 <= b <= 0x39 || 0x41 <= b <= 0x46 || 0x61 <= b <= 0x66
  }

  function HexValue(b: byte): int
    requires IsHex(b)
  {
    if b <= 0x39 then b as int - 0x30 else if b <= 0x46 then b as int - 0x41 + 10 else b as int - 0x61 + 10
  }

  /** A percent sign without two hexadecimal digits after it stays as it is. */
  function PercentDecode(s: Bytes): Bytes {
    if s == [] then []
    else if s[0] == PERCENT && |s| >= 3 && IsHex(s[1]) && IsHex(s[2]) then
      [(HexValue(s[1]) * 16 + HexValue(s[2])) as byte] + PercentDecode(s[3..])
    else [s[0]] + PercentDecode(s[1..])
  }

  function Decode(s: Bytes): Bytes {
    Utf8.Lossy(PercentDecode(PlusToSpace(s)))
  }

  function DecodePair(piece: Bytes): Pair {
    var i := Find(piece, EQUALS);
    (Decode(piece[..i]), Decode(After(piece, i)))
  }

  function Parse(input: Bytes): seq<Pair>
    decreases |input|
  {
    if input == [] then []
    else
      var i := Find(input, AMPERSAND);
      var rest := Parse(After(input, i));
      if i == 0 then rest else [DecodePair(input[..i])] + rest
  }

  // ----- the codec laws -------------------------------------------------------------------

  lemma {:induction false} PlusToSpaceSplits(a: Bytes, b: Bytes)
    ensures PlusToSpace(a + b) == PlusToSpace(a) + PlusToSpace(b)
  {
    if a == [] {
      assert a + b == b;
    } else {
      assert (a + b)[1..] == a[1..] + b;
      PlusToSpaceSplits(a[1..], b);
    }
  }

  lemma HexRoundTrip(n: int)
    requires 0 <= n < 16
    ensures IsHex(HexDigit(n)) && HexValue(HexDigit(n)) == n && HexDigit(n) != PLUS
  {
  }

  lemma ByteRoundTrip(b: byte, rest: Bytes)
    ensures PercentDecode(PlusToSpace(EncodeByte(b)) + rest) == [b] + PercentDecode(rest)
  {
    var hi, lo := b as int / 16, b as int % 16;
    HexRoundTrip(hi);
    HexRoundTrip(lo);
    var e := EncodeByte(b);
    var spaced := PlusToSpace(e);
    if |e| == 1 {
      assert spaced == [b];
      assert ([b] + rest)[1..] == rest;
    } else {
      assert e[1..] == [HexDigit(hi), HexDigit(lo)] && e[2..] == [HexDigit(lo)];
      assert e[1..][1..] == e[2..];
      assert PlusToSpace(e[2..]) == e[2..];
      assert PlusToSpace(e[1..]) == e[1..];
      assert spaced == e;
      assert (spaced + rest)[3..] == rest;
      assert hi * 16 + lo == b as int;
    }
  }

  lemma {:induction false} BytesRoundTrip(s: Bytes)
    ensures PercentDecode(PlusToSpace(Encode(s))) == s
  {
    if s != [] {
      PlusToSpaceSplits(EncodeByte(s[0]), Encode(s[1..]));
      ByteRoundTrip(s[0], PlusToSpace(Encode(s[1..])));
      BytesRoundTrip(s[1..]);
    }
  }

  /** Decoding undoes encoding on exactly the byte sequences that are strings. */
  lemma DecodeUndoesEncode(s: Bytes)
    ensures Decode(Encode(s)) == s <==> Utf8.WellFormed(s)
  {
    BytesRoundTrip(s);
    Utf8.LossyIsIdentityIffWellFormed(s);
  }

  predicate Plain(s: Bytes) {
    forall i :: 0 <= i < |s| ==> s[i] < 0x80 && s[i] != AMPERSAND && s[i] != EQUALS && s[i] != SPACE
  }

  lemma {:induction false} EncodedIsPlain(s: Bytes)
    ensures Plain(Encode(s))
  {
    if s != [] {
      HexRoundTrip(s[0] as int / 16);
      HexRoundTrip(s[0] as int % 16);
      EncodedIsPlain(s[1..]);
    }
  }

  lemma {:induction false} FindInMiddle(a: Bytes, b: byte, rest: Bytes)
    requires b !in a
    ensures Find(a + [b] + rest, b) == |a|
    ensures Find(a, b) == |a|
  {
    var s := a + [b] + rest;
    if a != [] {
      FindInMiddle(a[1..], b, rest);
      assert s[1..] == a[1..] + [b] + rest;
    }
  }

  predicate AllWellFormed(pairs: seq<Pair>) {
    forall i :: 0 <= i < |pairs| ==> Utf8.WellFormed(pairs[i].0) && Utf8.WellFormed(pairs[i].1)
  }

  lemma PairRoundTrip(p: Pair)
    requires Utf8.WellFormed(p.0) && Utf8.WellFormed(p.1)
    ensures DecodePair(EncodePair(p)) == p
    ensures EncodePair(p) != [] && AMPERSAND !in EncodePair(p)
  {
    EncodedIsPlain(p.0);
    EncodedIsPlain(p.1);
    var piece := EncodePair(p);
    FindInMiddle(Encode(p.0), EQUALS, Encode(p.1));
    assert piece[..|Encode(p.0)|] == Encode(p.0);
    assert After(piece, |Encode(p.0)|) == Encode(p.1);
    DecodeUndoesEncode(p.0);
    DecodeUndoesEncode(p.1);
  }

  lemma ParsePiece(piece: Bytes, rest: Bytes)
    requires piece != [] && AMPERSAND !in piece
    ensures Parse(piece) == [DecodePair(piece)]
    ensures Parse(piece + [AMPERSAND] + rest) == [DecodePair(piece)] + Parse(rest)
  {
    var input := piece + [AMPERSAND] + rest;
    FindInMiddle(piece, AMPERSAND, rest);
    assert input[..|piece|] == piece && piece[..|piece|] == piece;
    assert After(input, |piece|) == rest;
  }

  lemma FirstPairParses(p: Pair, rest: Bytes)
    requires Utf8.WellFormed(p.0) && Utf8.WellFormed(p.1)
    ensures Parse(EncodePair(p)) == [p]
    ensures Parse(EncodePair(p) + [AMPERSAND] + rest) == [p] + Parse(rest)
  {
    PairRoundTrip(p);
    ParsePiece(EncodePair(p), rest);
  }

  lemma ParseFirst(p: Pair, others: seq<Pair>, rest: Bytes)
    requires Utf8.WellFormed(p.0) && Utf8.WellFormed(p.1)
    requires rest == Serialize(others) && Parse(rest) == others
    ensures Parse(Serialize([p] + others)) == [p] + others
  {
    var pairs := [p] + others;
    FirstPairParses(p, rest);
    assert pairs[1..] == others;
    if others == [] {
      assert pairs == [p];
    }
  }

  /** Parsing undoes serializing, for any list of pairs of strings. */
  lemma {:induction false} ParseUndoesSerialize(pairs: seq<Pair>)
    requires AllWellFormed(pairs)
    ensures Parse(Serialize(pairs)) == pairs
  {
    if pairs != [] {
      var others := pairs[1..];
      ParseUndoesSerialize(others);
      ParseFirst(pairs[0], others, Serialize(others));
      assert pairs == [pairs[0]] + others;
    }
  }

  lemma {:induction false} SerializedIsAscii(pairs: seq<Pair>)
    ensures forall i :: 0 <= i < |Serialize(pairs)| ==> Serialize(pairs)[i] < 0x80
  {
    if pairs != [] {
      EncodedIsPlain(pairs[0].0);
      EncodedIsPlain(pairs[0].1);
      SerializedIsAscii(pairs[1..]);
    }
  }

  /** Whatever the input, what is parsed out of it are strings. */
  lemma {:induction false} ParsedIsWellFormed(input: Bytes)
    ensures AllWellFormed(Parse(input))
    decreases |input|
  {
    if input != [] {
      var i := Find(input, AMPERSAND);
      ParsedIsWellFormed(After(input, i));
      var piece := input[..i];
      Utf8.LossyIsWellFormed(PercentDecode(PlusToSpace(piece[..Find(piece, EQUALS)])));
      Utf8.LossyIsWellFormed(PercentDecode(PlusToSpace(After(piece, Find(piece, EQUALS)))));
    }
  }

  // ----- the printed form -----------------------------------------------------------------

  const HEX := "0123456789ABCDEF"

  predicate StandsForItself(c: char) {
    c == '*' || c == '-' || c == '.' || c == '_' || '0' <= c <= '9' || 'A' <= c <= 'Z' || 'a' <= c <= 'z'
  }

  /** Letters, digits and four marks stand for themselves, a space is a plus, the rest is upper-case hex. */
  lemma PrintedByte(b: byte)
    ensures EncodeByte(b) ==
      if StandsForItself(b as char) then [b]
      else if b as char == ' ' then ['+' as byte]
      else ['%' as byte, HEX[b as int / 16] as byte, HEX[b as int % 16] as byte]
  {
    HexTable(b as int / 16);
    HexTable(b as int % 16);
  }

  lemma HexTable(n: int)
    requires 0 <= n < 16
    ensures HexDigit(n) as char == HEX[n]
  {
  }

  /** Bytes that take three: neither plain nor a space. */
  function Escaped(s: Bytes): nat {
    if s == [] then 0 else (if Unreserved(s[0]) || s[0] == SPACE then 0 else 1) + Escaped(s[1..])
  }

  lemma PrintedByteCounts(b: byte)
    ensures |EncodeByte(b)| == if Unreserved(b) || b == SPACE then 1 else 3
    ensures multiset(EncodeByte(b))[PLUS] == if b == SPACE then 1 else 0
    ensures multiset(EncodeByte(b))[PERCENT] == if Unreserved(b) || b == SPACE then 0 else 1
  {
    HexRoundTrip(b as int / 16);
    HexRoundTrip(b as int % 16);
  }

  /** Pluses are exactly the spaces, percent signs exactly the escapes, and nothing else is added. */
  lemma {:induction false} PrintedForm(s: Bytes)
    ensures |Encode(s)| == |s| + 2 * Escaped(s)
    ensures multiset(Encode(s))[PLUS] == multiset(s)[SPACE]
    ensures multiset(Encode(s))[PERCENT] == Escaped(s)
  {
    if s != [] {
      PrintedForm(s[1..]);
      PrintedByteCounts(s[0]);
      CountsAdd(EncodeByte(s[0]), Encode(s[1..]));
      CountsAdd([s[0]], s[1..]);
      assert s == [s[0]] + s[1..];
    }
  }

  lemma CountsAdd(a: Bytes, b: Bytes)
    ensures multiset(a + b) == multiset(a) + multiset(b)
  {
  }

  lemma {:induction false} UnreservedStays(s: Bytes)
    requires forall i :: 0 <= i < |s| ==> Unreserved(s[i])
    ensures Encode(s) == s
  {
    if s != [] {
      UnreservedStays(s[1..]);
      assert s == [s[0]] + s[1..];
    }
  }

  // ----- reading any input ----------------------------------------------------------------

  /** What one piece of the input contributes. */
  function PiecePairs(piece: Bytes): seq<Pair> {
    if piece == [] then [] else [DecodePair(piece)]
  }

  lemma ParseHead(front: Bytes, rest: Bytes)
    requires AMPERSAND !in front
    ensures Parse(front) == PiecePairs(front)
    ensures Parse(front + [AMPERSAND] + rest) == PiecePairs(front) + Parse(rest)
  {
    if front == [] {
      var input := front + [AMPERSAND] + rest;
      assert Find(input, AMPERSAND) == 0 && After(input, 0) == rest;
    } else {
      ParsePiece(front, rest);
    }
  }

  /** Parsing splits at every ampersand, wherever it is; empty pieces count for nothing. */
  lemma {:induction false} ParseSplits(a: Bytes, b: Bytes)
    ensures Parse(a + [AMPERSAND] + b) == Parse(a) + Parse(b)
    decreases |a|
  {
    if AMPERSAND in a {
      var i := Find(a, AMPERSAND);
      var front, rest := a[..i], a[i + 1..];
      assert a == front + [AMPERSAND] + rest;
      var more := rest + [AMPERSAND] + b;
      assert a + [AMPERSAND] + b == front + [AMPERSAND] + more;
      ParseHead(front, rest);
      ParseHead(front, more);
      ParseSplits(rest, b);
    } else {
      ParseHead(a, b);
    }
  }

  /** A pair splits at its first equals sign; without one the value is empty. */
  lemma PairSplitsOnce(name: Bytes, value: Bytes)
    requires EQUALS !in name
    ensures DecodePair(name + [EQUALS] + value) == (Decode(name), Decode(value))
    ensures DecodePair(name) == (Decode(name), [])
  {
    var piece := name + [EQUALS] + value;
    FindInMiddle(name, EQUALS, value);
    assert piece[..|name|] == name && After(piece, |name|) == value && name[..|name|] == name;
  }

  /** A percent sign is kept, with what follows it, unless two hexadecimal digits do. */
  lemma {:induction false} StrayPercentStays(s: Bytes)
    requires forall i :: 0 <= i < |s| - 2 && s[i] == PERCENT ==> !(IsHex(s[i + 1]) && IsHex(s[i + 2]))
    ensures PercentDecode(s) == s
  {
    if s != [] {
      var rest := s[1..];
      forall i | 0 <= i < |rest| - 2 && rest[i] == PERCENT
        ensures !(IsHex(rest[i + 1]) && IsHex(rest[i + 2]))
      {
        assert s[i + 1] == PERCENT;
      }
      if |s| >= 3 { assert s[0] == PERCENT ==> !(IsHex(s[0 + 1]) && IsHex(s[0 + 2])); }
      StrayPercentStays(rest);
      assert s == [s[0]] + rest;
    }
  }

  const LOWER_HEX := "0123456789abcdef"

  /** Either case of hexadecimal digit is read, whatever the byte. */
  lemma EitherCaseIsRead(b: byte, hi: byte, lo: byte, rest: Bytes)
    requires hi as char == HEX[b as int / 16] || hi as char == LOWER_HEX[b as int / 16]
    requires lo as char == HEX[b as int % 16] || lo as char == LOWER_HEX[b as int % 16]
    ensures PercentDecode([PERCENT, hi, lo] + rest) == [b] + PercentDecode(rest)
  {
    HexDigitIsRead(b as int / 16, hi);
    HexDigitIsRead(b as int % 16, lo);
    var s := [PERCENT, hi, lo] + rest;
    assert s[3..] == rest;
  }

  lemma HexDigitIsRead(n: int, digit: byte)
    requires 0 <= n < 16 && (digit as char == HEX[n] || digit as char == LOWER_HEX[n])
    ensures IsHex(digit) && HexValue(digit) == n
  {
  }
}
