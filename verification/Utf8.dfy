/**
 * UTF-8 as Rust strings use it: which byte sequences are well formed, and the lossy decoding that
 * puts U+FFFD for every maximal ill-formed piece.
 */
module Utf8 {
  import opened Values

  const REPLACEMENT: Bytes := [0xEF, 0xBF, 0xBD]

  predicate Continuation(b: byte) {
    0x80 <= b <= 0xBF
  }

  /** The length announced by a first byte, or 0 if no scalar starts with it. */
  function Width(b: byte): nat {
    if b < 0x80 then 1
    else if 0xC2 <= b <= 0xDF then 2
    else if 0xE0 <= b <= 0xEF then 3
    else if 0xF0 <= b <= 0xF4 then 4
    else 0
  }

  /** No overlong forms, no surrogates, nothing above U+10FFFF. */
  predicate SecondFits(first: byte, second: byte) {
    && Continuation(second)
    && (first == 0xE0 ==> 0xA0 <= second)
    && (first == 0xED ==> second <= 0x9F)
    && (first == 0xF0 ==> 0x90 <= second)
    && (first == 0xF4 ==> second <= 0x8F)
  }

  /** The length of the first scalar, or of the ill-formed piece that stands in its place. */
  function FirstPiece(s: Bytes): (piece: (nat, bool))
    requires s != []
    ensures 1 <= piece.0 <= |s|
  {
    var width := Width(s[0]);
    if width == 0 then (1, false)
    else if width == 1 then (1, true)
    else if |s| < 2 || !SecondFits(s[0], s[1]) then (1, false)
    else if width == 2 then (2, true)
    else if |s| < 3 || !Continuation(s[2]) then (2, false)
    else if width == 3 then (3, true)
    else if |s| < 4 || !Continuation(s[3]) then (3, false)
    else (4, true)
  }

  predicate WellFormed(s: Bytes) {
    s == [] || var (n, ok) := FirstPiece(s); ok && WellFormed(s[n..])
  }

  function Lossy(s: Bytes): Bytes {
    if s == [] then []
    else
      var (n, ok) := FirstPiece(s);
      (if ok then s[..n] else REPLACEMENT) + Lossy(s[n..])
  }

  lemma {:induction false} LossyKeepsWellFormed(s: Bytes)
    requires WellFormed(s)
    ensures Lossy(s) == s
  {
    if s != [] {
      LossyKeepsWellFormed(s[FirstPiece(s).0..]);
    }
  }

  lemma ScalarThenWellFormed(scalar: Bytes, rest: Bytes)
    requires scalar != [] && FirstPiece(scalar) == (|scalar|, true) && WellFormed(rest)
    ensures WellFormed(scalar + rest)
  {
    var s := scalar + rest;
    assert FirstPiece(s) == (|scalar|, true);
    assert s[|scalar|..] == rest;
  }

  lemma {:induction false} LossyIsWellFormed(s: Bytes)
    ensures WellFormed(Lossy(s))
  {
    if s != [] {
      var (n, ok) := FirstPiece(s);
      LossyIsWellFormed(s[n..]);
      if ok {
        assert FirstPiece(s[..n]) == (n, true);
        ScalarThenWellFormed(s[..n], Lossy(s[n..]));
      } else {
        ScalarThenWellFormed(REPLACEMENT, Lossy(s[n..]));
      }
    }
  }

  /** Lossy decoding leaves exactly the well-formed sequences as they are. */
  lemma {:induction false} LossyIsIdentityIffWellFormed(s: Bytes)
    ensures Lossy(s) == s <==> WellFormed(s)
  {
    LossyIsWellFormed(s);
    if WellFormed(s) {
      LossyKeepsWellFormed(s);
    }
  }

  lemma {:induction false} AsciiIsWellFormed(s: Bytes)
    requires forall i :: 0 <= i < |s| ==> s[i] < 0x80
    ensures WellFormed(s)
  {
    if s != [] {
      AsciiIsWellFormed(s[1..]);
    }
  }

  // ----- what well formed means -----------------------------------------------------------

  /** A Unicode scalar value: any code point but the surrogates. */
  predicate IsScalar(c: int) {
    0 <= c < 0xD800 || 0xE000 <= c < 0x11_0000
  }

  /** The encoding of one scalar value, the shortest that holds its bits. */
  function EncodeScalar(c: int): (s: Bytes)
    requires IsScalar(c)
    ensures s != []
  {
    if c < 0x80 then [c as byte]
    else if c < 0x800 then [(0xC0 + c / 0x40) as byte, (0x80 + c % 0x40) as byte]
    else if c < 0x1_0000 then
      [(0xE0 + c / 0x1000) as byte, (0x80 + c / 0x40 % 0x40) as byte, (0x80 + c % 0x40) as byte]
    else
      [(0xF0 + c / 0x4_0000) as byte, (0x80 + c / 0x1000 % 0x40) as byte, (0x80 + c / 0x40 % 0x40) as byte,
       (0x80 + c % 0x40) as byte]
  }

  predicate AllScalars(text: seq<int>) {
    forall i :: 0 <= i < |text| ==> IsScalar(text[i])
  }

  function EncodeText(text: seq<int>): Bytes
    requires AllScalars(text)
  {
    if text == [] then [] else EncodeScalar(text[0]) + EncodeText(text[1..])
  }

  lemma TwoBytesAreOnePiece(c: int, rest: Bytes)
    requires 0x80 <= c < 0x800
    ensures FirstPiece(EncodeScalar(c) + rest) == (2, true)
  {
    var s := EncodeScalar(c) + rest;
    assert 2 <= c / 0x40 < 0x20;
    assert s[0] as int == 0xC0 + c / 0x40 && s[1] as int == 0x80 + c % 0x40;
  }

  lemma ThreeBytesAreOnePiece(c: int, rest: Bytes)
    requires 0x800 <= c < 0xD800 || 0xE000 <= c < 0x1_0000
    ensures FirstPiece(EncodeScalar(c) + rest) == (3, true)
  {
    var s := EncodeScalar(c) + rest;
    var top, mid := c / 0x1000, c / 0x40 % 0x40;
    assert 0 <= top < 0x10;
    assert c / 0x40 == top * 0x40 + mid;
    assert s[0] as int == 0xE0 + top && s[1] as int == 0x80 + mid && s[2] as int == 0x80 + c % 0x40;
  }

  lemma FourBytesAreOnePiece(c: int, rest: Bytes)
    requires 0x1_0000 <= c < 0x11_0000
    ensures FirstPiece(EncodeScalar(c) + rest) == (4, true)
  {
    var s := EncodeScalar(c) + rest;
    var top, high := c / 0x4_0000, c / 0x1000 % 0x40;
    assert 0 <= top <= 4;
    assert c / 0x1000 == top * 0x40 + high;
    assert s[0] as int == 0xF0 + top && s[1] as int == 0x80 + high;
    assert s[2] as int == 0x80 + c / 0x40 % 0x40 && s[3] as int == 0x80 + c % 0x40;
  }

  lemma ScalarIsOnePiece(c: int, rest: Bytes)
    requires IsScalar(c)
    ensures FirstPiece(EncodeScalar(c) + rest) == (|EncodeScalar(c)|, true)
  {
    if c >= 0x1_0000 {
      FourBytesAreOnePiece(c, rest);
    } else if c >= 0x800 {
      ThreeBytesAreOnePiece(c, rest);
    } else if c >= 0x80 {
      TwoBytesAreOnePiece(c, rest);
    }
  }

  /** The six bits of a continuation byte. */
  function Bits(b: byte): (n: int)
    requires Continuation(b)
    ensures 0 <= n < 0x40
  {
    b as int - 0x80
  }

  lemma ThreeBytesAreOneScalar(s: Bytes) returns (c: int)
    requires |s| == 3 && FirstPiece(s) == (3, true)
    ensures IsScalar(c) && EncodeScalar(c) == s
  {
    var top, mid, low := s[0] as int - 0xE0, Bits(s[1]), Bits(s[2]);
    c := top * 0x1000 + mid * 0x40 + low;
    assert c / 0x40 == top * 0x40 + mid && c % 0x40 == low;
    assert c / 0x1000 == top;
  }

  lemma FourBytesAreOneScalar(s: Bytes) returns (c: int)
    requires |s| == 4 && FirstPiece(s) == (4, true)
    ensures IsScalar(c) && EncodeScalar(c) == s
  {
    var top, high, mid, low := s[0] as int - 0xF0, Bits(s[1]), Bits(s[2]), Bits(s[3]);
    c := top * 0x4_0000 + high * 0x1000 + mid * 0x40 + low;
    assert c / 0x40 == top * 0x1000 + high * 0x40 + mid && c % 0x40 == low;
    assert c / 0x1000 == top * 0x40 + high;
    assert c / 0x4_0000 == top;
  }

  lemma PieceIsOneScalar(s: Bytes) returns (c: int)
    requires s != [] && FirstPiece(s).1
    ensures IsScalar(c) && EncodeScalar(c) == s[..FirstPiece(s).0]
  {
    var n := FirstPiece(s).0;
    if n == 1 {
      c := s[0] as int;
    } else if n == 2 {
      c := (s[0] as int - 0xC0) * 0x40 + Bits(s[1]);
    } else if n == 3 {
      c := ThreeBytesAreOneScalar(s[..3]);
    } else {
      c := FourBytesAreOneScalar(s[..4]);
    }
  }

  lemma {:induction false} TextIsWellFormed(text: seq<int>)
    requires AllScalars(text)
    ensures WellFormed(EncodeText(text))
  {
    if text != [] {
      TextIsWellFormed(text[1..]);
      ScalarIsOnePiece(text[0], []);
      assert EncodeScalar(text[0]) + [] == EncodeScalar(text[0]);
      ScalarThenWellFormed(EncodeScalar(text[0]), EncodeText(text[1..]));
    }
  }

  lemma {:induction false} WellFormedIsText(s: Bytes) returns (text: seq<int>)
    requires WellFormed(s)
    ensures AllScalars(text) && EncodeText(text) == s
  {
    if s == [] {
      text := [];
    } else {
      var n := FirstPiece(s).0;
      var c := PieceIsOneScalar(s);
      var others := WellFormedIsText(s[n..]);
      text := [c] + others;
      assert text[1..] == others && s == s[..n] + s[n..];
    }
  }

  ghost predicate IsText(s: Bytes) {
    exists text :: AllScalars(text) && EncodeText(text) == s
  }

  /** Well formed is exactly what encodes some sequence of Unicode scalar values. */
  lemma WellFormedIffText(s: Bytes)
    ensures WellFormed(s) <==> IsText(s)
  {
    if WellFormed(s) {
      var text := WellFormedIsText(s);
    } else if IsText(s) {
      var text :| AllScalars(text) && EncodeText(text) == s;
      TextIsWellFormed(text);
    }
  }

  lemma LossyKeepsScalar(c: int, rest: Bytes)
    requires IsScalar(c)
    ensures Lossy(EncodeScalar(c) + rest) == EncodeScalar(c) + Lossy(rest)
  {
    var scalar := EncodeScalar(c);
    var s := scalar + rest;
    ScalarIsOnePiece(c, rest);
    assert s[..|scalar|] == scalar && s[|scalar|..] == rest;
  }

  lemma ThreeParts(a: Bytes, b: Bytes, c: Bytes)
    ensures (a + b) + c == a + (b + c)
  {
  }

  lemma LossyKeepsScalarAnd(c: int, others: Bytes, rest: Bytes, decoded: Bytes)
    requires IsScalar(c) && Lossy(others + rest) == others + decoded
    ensures Lossy((EncodeScalar(c) + others) + rest) == (EncodeScalar(c) + others) + decoded
  {
    ThreeParts(EncodeScalar(c), others, rest);
    ThreeParts(EncodeScalar(c), others, decoded);
    LossyKeepsScalar(c, others + rest);
  }

  lemma {:induction false} LossyKeepsText(text: seq<int>, rest: Bytes)
    requires AllScalars(text)
    ensures Lossy(EncodeText(text) + rest) == EncodeText(text) + Lossy(rest)
  {
    if text == [] {
      assert EncodeText(text) + rest == rest;
    } else {
      LossyKeepsText(text[1..], rest);
      LossyKeepsScalarAnd(text[0], EncodeText(text[1..]), rest, Lossy(rest));
    }
  }

  /** Decoding keeps a well-formed front and goes on behind it. */
  lemma LossyKeepsFront(a: Bytes, b: Bytes)
    requires WellFormed(a)
    ensures Lossy(a + b) == a + Lossy(b)
  {
    var text := WellFormedIsText(a);
    LossyKeepsText(text, b);
  }

  /** A byte that starts no scalar value is one U+FFFD, and so is each cut that ends in a wrong byte. */
  lemma WrongByteIsReplaced(bad: byte, rest: Bytes)
    requires Width(bad) == 0 || (Width(bad) > 1 && (rest == [] || !SecondFits(bad, rest[0])))
    ensures Lossy([bad] + rest) == REPLACEMENT + Lossy(rest)
  {
    var s := [bad] + rest;
    assert s[1..] == rest;
    assert FirstPiece(s) == (1, false);
  }

  /** Any front of a scalar's encoding that is not followed by a continuation is one U+FFFD as a whole. */
  lemma CutScalarIsReplacedOnce(c: int, m: nat, rest: Bytes)
    requires IsScalar(c) && 0 < m < |EncodeScalar(c)| && (rest == [] || !Continuation(rest[0]))
    ensures Lossy(EncodeScalar(c)[..m] + rest) == REPLACEMENT + Lossy(rest)
  {
    var s := EncodeScalar(c)[..m] + rest;
    CutScalarIsOnePiece(c, m, rest);
    assert s[m..] == rest;
  }

  lemma CutScalarIsOnePiece(c: int, m: nat, rest: Bytes)
    requires IsScalar(c) && 0 < m < |EncodeScalar(c)| && (rest == [] || !Continuation(rest[0]))
    ensures FirstPiece(EncodeScalar(c)[..m] + rest) == (m, false)
  {
    var whole := EncodeScalar(c);
    var s := whole[..m] + rest;
    ScalarIsOnePiece(c, []);
    assert whole + [] == whole;
    assert forall i :: 0 <= i < m ==> s[i] == whole[i];
    assert |s| > m ==> s[m] == rest[0];
  }
}
