/**
 * Unicode text: scalar values, their UTF-8 form as section 3 of RFC 3629 builds it and section 4
 * recognizes it, and their UTF-16 form.
 */
module Unicode {
  import opened Bytes

  type scalar = x: int | 0 <= x < 0xD800 || 0xE000 <= x < 0x11_0000
  type text = seq<scalar>

  const REPLACEMENT_CHARACTER: scalar := 0xFFFD

  // ---- UTF-8 ----

  function Utf8(c: scalar): (r: bytes)
    ensures 1 <= |r| <= 4
    ensures c < 0x80 ==> r == [c]
    ensures c >= 0x80 ==> forall i :: 0 <= i < |r| ==> r[i] >= 0x80
  {
    if c < 0x80 then [c]
    else if c < 0x800 then [0xC0 + c / 64, 0x80 + c % 64]
    else if c < 0x1_0000 then [0xE0 + c / 4096, 0x80 + c / 64 % 64, 0x80 + c % 64]
    else [0xF0 + c / 262144, 0x80 + c / 4096 % 64, 0x80 + c / 64 % 64, 0x80 + c % 64]
  }

  function Utf8All(t: text): bytes {
    if t == [] then [] else Utf8(t[0]) + Utf8All(t[1..])
  }

  predicate IsTail(b: byte) { 0x80 <= b <= 0xBF }

  /** Length of the character at the start of `s`, by the byte ranges of section 4; 0 if there is none. */
  function CharLength(s: bytes): (n: nat)
    ensures n <= 4 && n <= |s|
  {
    if |s| >= 1 && s[0] <= 0x7F then 1
    else if |s| >= 2 && 0xC2 <= s[0] <= 0xDF && IsTail(s[1]) then 2
    else if |s| >= 3 && IsTail(s[2]) && IsSecondOfThree(s[0], s[1]) then 3
    else if |s| >= 4 && IsTail(s[2]) && IsTail(s[3]) && IsSecondOfFour(s[0], s[1]) then 4
    else 0
  }

  predicate IsSecondOfThree(b0: byte, b1: byte) {
    || (b0 == 0xE0 && 0xA0 <= b1 <= 0xBF)
    || (0xE1 <= b0 <= 0xEC && IsTail(b1))
    || (b0 == 0xED && 0x80 <= b1 <= 0x9F)
    || (0xEE <= b0 <= 0xEF && IsTail(b1))
  }

  predicate IsSecondOfFour(b0: byte, b1: byte) {
    || (b0 == 0xF0 && 0x90 <= b1 <= 0xBF)
    || (0xF1 <= b0 <= 0xF3 && IsTail(b1))
    || (b0 == 0xF4 && 0x80 <= b1 <= 0x8F)
  }

  /** The `UTF8-octets` of section 4. */
  predicate WellFormed(s: bytes) {
    s == [] || (CharLength(s) > 0 && WellFormed(s[CharLength(s)..]))
  }

  // The payload bits of a multi-byte character, most significant byte first.
  function Value2(b0: int, b1: int): int { b0 % 32 * 64 + b1 % 64 }
  function Value3(b0: int, b1: int, b2: int): int { b0 % 16 * 4096 + b1 % 64 * 64 + b2 % 64 }
  function Value4(b0: int, b1: int, b2: int, b3: int): int {
    b0 % 8 * 262144 + b1 % 64 * 4096 + b2 % 64 * 64 + b3 % 64
  }

  // Without their masks, the same values as sums; they are scalar values, in the range for their length.

  lemma Masked(b: byte)
    ensures IsTail(b) ==> b % 64 == b - 0x80
    ensures 0xC0 <= b < 0xE0 ==> b % 32 == b - 0xC0
    ensures 0xE0 <= b < 0xF0 ==> b % 16 == b - 0xE0
    ensures 0xF0 <= b < 0xF8 ==> b % 8 == b - 0xF0
  {
  }

  lemma ValueOfTwo(b0: byte, b1: byte)
    requires 0xC2 <= b0 <= 0xDF && IsTail(b1)
    ensures Value2(b0, b1) == (b0 - 0xC0) * 64 + (b1 - 0x80)
    ensures 0x80 <= (b0 - 0xC0) * 64 + (b1 - 0x80) < 0x800
  {
    Masked(b0);
    Masked(b1);
  }

  lemma ValueOfThree(b0: byte, b1: byte, b2: byte)
    requires IsSecondOfThree(b0, b1) && IsTail(b2)
    ensures Value3(b0, b1, b2) == (b0 - 0xE0) * 4096 + (b1 - 0x80) * 64 + (b2 - 0x80)
    ensures var v := (b0 - 0xE0) * 4096 + (b1 - 0x80) * 64 + (b2 - 0x80);
            0x800 <= v < 0x1_0000 && !(0xD800 <= v <= 0xDFFF)
    ensures 0xE0 <= b0 < 0xF0 && IsTail(b1)
  {
    Masked(b0);
    Masked(b1);
    Masked(b2);
  }

  lemma ValueOfFour(b0: byte, b1: byte, b2: byte, b3: byte)
    requires IsSecondOfFour(b0, b1) && IsTail(b2) && IsTail(b3)
    ensures Value4(b0, b1, b2, b3) == (b0 - 0xF0) * 262144 + (b1 - 0x80) * 4096 + (b2 - 0x80) * 64 + (b3 - 0x80)
    ensures var v := (b0 - 0xF0) * 262144 + (b1 - 0x80) * 4096 + (b2 - 0x80) * 64 + (b3 - 0x80);
            0x1_0000 <= v < 0x11_0000
    ensures 0xF0 <= b0 < 0xF8 && IsTail(b1)
  {
    Masked(b0);
    Masked(b1);
    Masked(b2);
    Masked(b3);
  }

  /** The value of the character at the start of `s`. */
  function CharValue(s: bytes): scalar
    requires CharLength(s) > 0
  {
    hide Value2, Value3, Value4;
    if CharLength(s) == 1 then s[0]
    else if CharLength(s) == 2 then
      ValueOfTwo(s[0], s[1]);
      Value2(s[0], s[1])
    else if CharLength(s) == 3 then
      ValueOfThree(s[0], s[1], s[2]);
      Value3(s[0], s[1], s[2])
    else
      ValueOfFour(s[0], s[1], s[2], s[3]);
      Value4(s[0], s[1], s[2], s[3])
  }

  lemma Digits(c: nat)
    ensures c / 64 / 64 == c / 4096 && c / 4096 / 64 == c / 262144
    ensures c == c / 64 * 64 + c % 64
    ensures c / 64 == c / 4096 * 64 + c / 64 % 64
    ensures c / 4096 == c / 262144 * 64 + c / 4096 % 64
  {
  }

  lemma Digits2(x0: nat, x1: nat)
    requires x1 < 64
    ensures var c := x0 * 64 + x1; c / 64 == x0 && c % 64 == x1
  {
  }

  lemma Digits3(x0: nat, x1: nat, x2: nat)
    requires x1 < 64 && x2 < 64
    ensures var c := x0 * 4096 + x1 * 64 + x2; c / 4096 == x0 && c / 64 % 64 == x1 && c % 64 == x2
  {
    Digits2(x0 * 64 + x1, x2);
    Digits2(x0, x1);
    Digits(x0 * 4096 + x1 * 64 + x2);
  }

  lemma Digits4(x0: nat, x1: nat, x2: nat, x3: nat)
    requires x1 < 64 && x2 < 64 && x3 < 64
    ensures var c := x0 * 262144 + x1 * 4096 + x2 * 64 + x3;
            c / 262144 == x0 && c / 4096 % 64 == x1 && c / 64 % 64 == x2 && c % 64 == x3
  {
    Digits2(x0 * 4096 + x1 * 64 + x2, x3);
    Digits3(x0, x1, x2);
    Digits(x0 * 262144 + x1 * 4096 + x2 * 64 + x3);
  }

  lemma CharRead(c: scalar, rest: bytes)
    ensures CharLength(Utf8(c) + rest) == |Utf8(c)| && CharValue(Utf8(c) + rest) == c
  {
    Digits(c);
    if c >= 0x1_0000 {
      FourRead(c, rest);
    } else if c >= 0x800 {
      ThreeRead(c, rest);
    }
  }

  lemma ThreeRead(c: scalar, rest: bytes)
    requires 0x800 <= c < 0x1_0000
    ensures CharLength(Utf8(c) + rest) == 3 && CharValue(Utf8(c) + rest) == c
  {
    Digits(c);
    var s := Utf8(c) + rest;
    var x0, x1, x2 := c / 4096, c / 64 % 64, c % 64;
    assert s[0] == 0xE0 + x0 && s[1] == 0x80 + x1 && s[2] == 0x80 + x2;
    assert CharLength(s) == 3;
    assert s[0] % 16 == x0 && s[1] % 64 == x1 && s[2] % 64 == x2;
  }

  lemma FourRead(c: scalar, rest: bytes)
    requires 0x1_0000 <= c
    ensures CharLength(Utf8(c) + rest) == 4 && CharValue(Utf8(c) + rest) == c
  {
    Digits(c);
    var s := Utf8(c) + rest;
    var x0, x1, x2, x3 := c / 262144, c / 4096 % 64, c / 64 % 64, c % 64;
    assert s[0] == 0xF0 + x0 && s[1] == 0x80 + x1 && s[2] == 0x80 + x2 && s[3] == 0x80 + x3;
    assert CharLength(s) == 4;
    assert s[0] % 8 == x0 && s[1] % 64 == x1 && s[2] % 64 == x2 && s[3] % 64 == x3;
  }

  lemma CharWritten(s: bytes)
    requires CharLength(s) > 0
    ensures Utf8(CharValue(s)) == s[..CharLength(s)]
  {
    if CharLength(s) == 2 {
      TwoWritten(s);
    } else if CharLength(s) == 3 {
      ThreeWritten(s);
    } else if CharLength(s) == 4 {
      FourWritten(s);
    }
  }

  // The form of a value, given its parts.

  lemma Utf8OfTwo(c: scalar, x0: nat, x1: nat)
    requires 0x80 <= c < 0x800 && c == x0 * 64 + x1 && x1 < 64
    ensures Utf8(c) == [0xC0 + x0, 0x80 + x1]
  {
    Digits2(x0, x1);
  }

  lemma Utf8IsThree(c: scalar, x0: nat, x1: nat, x2: nat)
    requires 0x800 <= c < 0x1_0000 && c / 4096 == x0 && c / 64 % 64 == x1 && c % 64 == x2
    ensures Utf8(c) == [0xE0 + x0, 0x80 + x1, 0x80 + x2]
  {
  }

  lemma Utf8OfThree(c: scalar, x0: nat, x1: nat, x2: nat)
    requires 0x800 <= c < 0x1_0000 && c == x0 * 4096 + x1 * 64 + x2 && x1 < 64 && x2 < 64 && x0 < 16
    ensures Utf8(c) == [0xE0 + x0, 0x80 + x1, 0x80 + x2]
  {
    hide Utf8;
    Digits3(x0, x1, x2);
    Utf8IsThree(c, x0, x1, x2);
  }

  lemma Utf8IsFour(c: scalar, x0: nat, x1: nat, x2: nat, x3: nat)
    requires 0x1_0000 <= c && c / 262144 == x0 && c / 4096 % 64 == x1 && c / 64 % 64 == x2 && c % 64 == x3
    ensures Utf8(c) == [0xF0 + x0, 0x80 + x1, 0x80 + x2, 0x80 + x3]
  {
  }

  lemma Utf8OfFour(c: scalar, x0: nat, x1: nat, x2: nat, x3: nat)
    requires 0x1_0000 <= c && c == x0 * 262144 + x1 * 4096 + x2 * 64 + x3 && x1 < 64 && x2 < 64 && x3 < 64 && x0 < 8
    ensures Utf8(c) == [0xF0 + x0, 0x80 + x1, 0x80 + x2, 0x80 + x3]
  {
    hide Utf8;
    Digits4(x0, x1, x2, x3);
    Utf8IsFour(c, x0, x1, x2, x3);
  }

  lemma TwoParts(s: bytes)
    requires CharLength(s) == 2
    ensures 0xC2 <= s[0] <= 0xDF && IsTail(s[1]) && CharValue(s) == Value2(s[0], s[1])
    ensures s[..2] == [s[0], s[1]]
  {
    hide Value2;
  }

  lemma ThreeParts(s: bytes)
    requires CharLength(s) == 3
    ensures IsSecondOfThree(s[0], s[1]) && IsTail(s[2]) && CharValue(s) == Value3(s[0], s[1], s[2])
    ensures s[..3] == [s[0], s[1], s[2]]
  {
    hide Value3, IsSecondOfThree;
  }

  lemma FourParts(s: bytes)
    requires CharLength(s) == 4
    ensures IsSecondOfFour(s[0], s[1]) && IsTail(s[2]) && IsTail(s[3])
    ensures CharValue(s) == Value4(s[0], s[1], s[2], s[3])
    ensures s[..4] == [s[0], s[1], s[2], s[3]]
  {
    hide Value4, IsSecondOfFour;
  }

  lemma TwoWritten(s: bytes)
    requires CharLength(s) == 2
    ensures Utf8(CharValue(s)) == s[..2]
  {
    hide CharLength, CharValue, Value2, Utf8;
    TwoParts(s);
    var b0: int, b1: int := s[0], s[1];
    ValueOfTwo(b0, b1);
    Utf8OfTwo(CharValue(s), b0 - 0xC0, b1 - 0x80);
  }

  lemma ThreeWritten(s: bytes)
    requires CharLength(s) == 3
    ensures Utf8(CharValue(s)) == s[..3]
  {
    hide CharLength, CharValue, Value3, Utf8, IsSecondOfThree;
    ThreeParts(s);
    var b0: int, b1: int, b2: int := s[0], s[1], s[2];
    ValueOfThree(b0, b1, b2);
    Utf8OfThree(CharValue(s), b0 - 0xE0, b1 - 0x80, b2 - 0x80);
  }

  lemma FourWritten(s: bytes)
    requires CharLength(s) == 4
    ensures Utf8(CharValue(s)) == s[..4]
  {
    hide CharLength, CharValue, Value4, Utf8, IsSecondOfFour;
    FourParts(s);
    var b0: int, b1: int, b2: int, b3: int := s[0], s[1], s[2], s[3];
    ValueOfFour(b0, b1, b2, b3);
    Utf8OfFour(CharValue(s), b0 - 0xF0, b1 - 0x80, b2 - 0x80, b3 - 0x80);
  }

  /** Greedy decoding: a well-formed character where there is one, else one byte as Latin-1. */
  function Decode(s: bytes): text {
    if s == [] then []
    else if CharLength(s) > 0 then [CharValue(s)] + Decode(s[CharLength(s)..])
    else [s[0] as scalar] + Decode(s[1..])
  }

  lemma {:induction false} DecodeInvertsUtf8(t: text)
    ensures Decode(Utf8All(t)) == t && WellFormed(Utf8All(t))
  {
    hide CharLength, CharValue, Utf8;
    if t != [] {
      CharRead(t[0], Utf8All(t[1..]));
      assert Utf8All(t)[|Utf8(t[0])|..] == Utf8All(t[1..]);
      DecodeInvertsUtf8(t[1..]);
    }
  }

  /** Well-formed bytes, and only they, are the UTF-8 form of what they decode to. */
  lemma WellFormedUnchanged(s: bytes)
    ensures WellFormed(s) <==> Utf8All(Decode(s)) == s
  {
    hide CharLength, CharValue, Utf8;
    if Utf8All(Decode(s)) == s {
      DecodeInvertsUtf8(Decode(s));
    }
    if WellFormed(s) {
      Unchanged(s);
    }
  }

  lemma {:induction false} Unchanged(s: bytes)
    requires WellFormed(s)
    ensures Utf8All(Decode(s)) == s
  {
    hide CharLength, CharValue, Utf8;
    if s != [] {
      CharWritten(s);
      Unchanged(s[CharLength(s)..]);
    }
  }

  lemma {:induction false} DecodeSplit(s: bytes, k: nat)
    requires k <= |s| && WellFormed(s[..k])
    ensures Decode(s) == Decode(s[..k]) + Decode(s[k..])
    decreases k
  {
    hide CharLength, CharValue;
    if k == 0 {
      assert s[0..] == s;
    } else {
      var n := CharLength(s[..k]);
      PrefixChar(s, k);
      assert s[..k][n..] == s[n..][..k - n];
      assert s[n..][k - n..] == s[k..];
      DecodeSplit(s[n..], k - n);
    }
  }

  lemma PrefixChar(s: bytes, k: nat)
    requires k <= |s| && CharLength(s[..k]) > 0
    ensures CharLength(s) == CharLength(s[..k]) && CharValue(s) == CharValue(s[..k])
  {
  }

  lemma {:induction false} Utf8Append(a: text, b: text)
    ensures Utf8All(a + b) == Utf8All(a) + Utf8All(b)
  {
    hide Utf8;
    if a == [] {
      assert a + b == b;
    } else {
      Utf8Append(a[1..], b);
      assert (a + b)[1..] == a[1..] + b;
    }
  }

  lemma WellFormedAppend(a: bytes, b: bytes)
    requires WellFormed(a) && WellFormed(b)
    ensures WellFormed(a + b)
  {
    WellFormedUnchanged(a);
    WellFormedUnchanged(b);
    Utf8Append(Decode(a), Decode(b));
    DecodeInvertsUtf8(Decode(a) + Decode(b));
  }

  // ---- UTF-16 ----

  predicate IsHighSurrogate(u: u16) { 0xD800 <= u <= 0xDBFF }
  predicate IsLowSurrogate(u: u16) { 0xDC00 <= u <= 0xDFFF }

  function Pair(high: u16, low: u16): (r: scalar)
    requires IsHighSurrogate(high) && IsLowSurrogate(low)
    ensures r >= 0x1_0000
  {
    (high - 0xD800) * 1024 + (low - 0xDC00) + 0x1_0000
  }

  /** Code units to text: a surrogate that is not half of a pair becomes the replacement character. */
  function DecodeUnits(units: seq<u16>): text {
    if units == [] then []
    else if !IsHighSurrogate(units[0]) && !IsLowSurrogate(units[0]) then
      [units[0] as scalar] + DecodeUnits(units[1..])
    else if IsHighSurrogate(units[0]) && |units| > 1 && IsLowSurrogate(units[1]) then
      [Pair(units[0], units[1])] + DecodeUnits(units[2..])
    else [REPLACEMENT_CHARACTER] + DecodeUnits(units[1..])
  }

  function Units(c: scalar): seq<u16> {
    if c < 0x1_0000 then [c] else [0xD800 + (c - 0x1_0000) / 1024, 0xDC00 + (c - 0x1_0000) % 1024]
  }

  function UnitsAll(t: text): seq<u16> {
    if t == [] then [] else Units(t[0]) + UnitsAll(t[1..])
  }

  lemma {:induction false} DecodeInvertsUnits(t: text)
    ensures DecodeUnits(UnitsAll(t)) == t
  {
    if t != [] {
      DecodeInvertsUnits(t[1..]);
      assert UnitsAll(t)[|Units(t[0])|..] == UnitsAll(t[1..]);
    }
  }

  /** The code units stored in `s`; an odd last byte is no unit. */
  function UnitsOf(bigEndian: bool, s: bytes): seq<u16> {
    if |s| < 2 then [] else [ReadU16(bigEndian, s, 0)] + UnitsOf(bigEndian, s[2..])
  }

  function Latin1(s: bytes): text {
    if s == [] then [] else [s[0] as scalar] + Latin1(s[1..])
  }
}
