/**
 * The text decoders: Latin-1, UTF-8 with Latin-1 as fallback, UTF-16 and UTF-32, each writing into
 * a filter. Whatever runs they flush, the output is the filter's image of the decoded text.
 */
module CharConversion {
  import opened Bytes
  import opened Unicode
  import opened TextFilters

  lemma {:induction false} Latin1Split(s: bytes, k: nat)
    requires k <= |s|
    ensures Latin1(s) == Latin1(s[..k]) + Latin1(s[k..])
  {
    if k == 0 {
      assert s[0..] == s;
    } else {
      Latin1Split(s[1..], k - 1);
      assert s[1..][..k - 1] == s[..k][1..] && s[1..][k - 1..] == s[k..];
    }
  }

  /** ASCII is its own UTF-8, and decodes as Latin-1 does. */
  lemma {:induction false} AsciiRun(s: bytes)
    requires forall i :: 0 <= i < |s| ==> s[i] <= 0x7F
    ensures WellFormed(s) && Decode(s) == Latin1(s)
  {
    if s != [] {
      AsciiRun(s[1..]);
    }
  }

  method WriteLatin1(s: bytes, filter: Filter)
    modifies filter.lower
    ensures filter.lower.out == old(filter.lower.out) + Written(filter.mode, Latin1(s))
  {
    hide WellFormed, Decode, Latin1, Written, Utf8;
    var writtenPos := 0;
    ghost var done: text := [];
    DoneEmpty(filter.mode, s);
    for pos := 0 to |s|
      invariant 0 <= writtenPos <= pos
      invariant forall i :: writtenPos <= i < pos ==> s[i] <= 0x7F
      invariant Latin1(s) == done + Latin1(s[writtenPos..])
      invariant filter.lower.out == old(filter.lower.out) + Written(filter.mode, done)
    {
      var b := s[pos];
      if b > 0x7F {
        AsciiRun(s[writtenPos..pos]);
        Latin1Next(s, writtenPos, pos);
        WrittenAppend(filter.mode, done, Decode(s[writtenPos..pos]));
        WrittenAppend(filter.mode, done + Decode(s[writtenPos..pos]), [b]);
        WrittenHigh(filter.mode, b);
        RunEmpty(filter.mode, s, writtenPos);
        if writtenPos < pos {
          filter.WriteStr(s[writtenPos..pos]);
        }
        filter.WriteNonAscii(b);
        done := done + Decode(s[writtenPos..pos]) + [b];
        writtenPos := pos + 1;
      }
    }
    AsciiRun(s[writtenPos..]);
    WrittenAppend(filter.mode, done, Latin1(s[writtenPos..]));
    LastEmpty(filter.mode, s, writtenPos);
    if writtenPos < |s| {
      filter.WriteStr(s[writtenPos..]);
    }
  }

  lemma DoneEmpty(mode: Mode, s: bytes)
    ensures Written(mode, []) == [] && s[0..] == s
    ensures Latin1(s) == [] + Latin1(s[0..]) && Decode(s) == [] + Decode(s[0..])
    ensures WellFormed(s[0..0])
  {
    assert s[0..] == s;
  }

  lemma RunEmpty(mode: Mode, s: bytes, at: nat)
    requires at <= |s|
    ensures Decode(s[at..at]) == [] && Written(mode, []) == []
  {
  }

  lemma LastEmpty(mode: Mode, s: bytes, at: nat)
    requires at <= |s|
    ensures at == |s| ==> Written(mode, Latin1(s[at..])) == [] && Written(mode, Decode(s[at..])) == []
  {
  }

  lemma Latin1Next(s: bytes, from: nat, pos: nat)
    requires from <= pos < |s|
    ensures Latin1(s[from..]) == Latin1(s[from..pos]) + [s[pos] as scalar] + Latin1(s[pos + 1..])
  {
    Latin1Split(s[from..], pos - from);
    Slices(s, from, pos);
  }

  lemma WrittenHigh(mode: Mode, c: scalar)
    requires c >= 0x80
    ensures Written(mode, [c]) == Utf8(c)
  {
    assert ImageAll(mode, [c]) == Image(mode, c) + ImageAll(mode, []);
    assert Utf8All([c]) == Utf8(c) + Utf8All([]);
  }

  // ---- UTF-8 with Latin-1 fallback ----

  /** `b & 0xC0 == 0x80` */
  predicate IsContinuation(b: byte) { b / 64 == 2 }

  /**
   * The test of the loop in `write_utf8_with_latin1_fallback_to`, by values and not by byte ranges.
   * It accepts exactly the characters of section 4 of RFC 3629.
   */
  method ValidLength(s: bytes, pos: nat) returns (n: nat)
    requires pos < |s|
    ensures n == CharLength(s[pos..])
  {
    var b0 := s[pos];
    var len := |s|;
    n := 0;
    if b0 <= 0x7F {
      n := 1;
    } else if b0 <= 0xBF {
    } else if b0 <= 0xDF {
      if len - pos >= 2 {
        TwoByteTest(s[pos..]);
        if IsContinuation(s[pos + 1]) && 0x80 <= Value2(b0, s[pos + 1]) {
          n := 2;
        }
      }
    } else if b0 <= 0xEF {
      if len - pos >= 3 {
        ThreeByteTest(s[pos..]);
        if IsContinuation(s[pos + 1]) && IsContinuation(s[pos + 2]) {
          var ch := Value3(b0, s[pos + 1], s[pos + 2]);
          if 0x800 <= ch && !(0xD800 <= ch <= 0xDFFF) {
            n := 3;
          }
        }
      }
    } else if b0 <= 0xF4 {
      if len - pos >= 4 {
        FourByteTest(s[pos..]);
        if IsContinuation(s[pos + 1]) && IsContinuation(s[pos + 2]) && IsContinuation(s[pos + 3]) {
          var ch := Value4(b0, s[pos + 1], s[pos + 2], s[pos + 3]);
          if 0x1_0000 <= ch <= 0x10_FFFF {
            n := 4;
          }
        }
      }
    }
  }

  lemma TwoByteTest(s: bytes)
    requires |s| >= 2 && 0xC0 <= s[0] <= 0xDF
    ensures CharLength(s) == if IsContinuation(s[1]) && 0x80 <= Value2(s[0], s[1]) then 2 else 0
  {
    var b0: int, b1: int := s[0], s[1];
    assert b0 % 32 == b0 - 0xC0;
    assert IsContinuation(s[1]) ==> b1 % 64 == b1 - 0x80;
  }

  lemma ThreeByteTest(s: bytes)
    requires |s| >= 3 && 0xE0 <= s[0] <= 0xEF
    ensures var ch := Value3(s[0], s[1], s[2]);
            CharLength(s)
            == if IsContinuation(s[1]) && IsContinuation(s[2]) && 0x800 <= ch && !(0xD800 <= ch <= 0xDFFF) then 3 else 0
  {
    var b0: int, b1: int, b2: int := s[0], s[1], s[2];
    assert b0 % 16 == b0 - 0xE0;
    if IsContinuation(s[1]) && IsContinuation(s[2]) {
      assert b1 % 64 == b1 - 0x80 && b2 % 64 == b2 - 0x80;
    }
  }

  lemma FourByteTest(s: bytes)
    requires |s| >= 4 && 0xF0 <= s[0] <= 0xF4
    ensures var ch := Value4(s[0], s[1], s[2], s[3]);
            CharLength(s)
            == if IsContinuation(s[1]) && IsContinuation(s[2]) && IsContinuation(s[3]) && 0x1_0000 <= ch <= 0x10_FFFF
               then 4 else 0
  {
    var b0: int, b1: int, b2: int, b3: int := s[0], s[1], s[2], s[3];
    assert b0 % 8 == b0 - 0xF0;
    if IsContinuation(s[1]) && IsContinuation(s[2]) && IsContinuation(s[3]) {
      assert b1 % 64 == b1 - 0x80 && b2 % 64 == b2 - 0x80 && b3 % 64 == b3 - 0x80;
    }
  }

  lemma RunGrows(s: bytes, from: nat, pos: nat, n: nat)
    requires from <= pos < |s| && WellFormed(s[from..pos]) && n == CharLength(s[pos..]) > 0
    ensures pos + n <= |s| && WellFormed(s[from..pos + n])
  {
    var next := s[pos..pos + n];
    assert s[pos..][..n] == next;
    assert CharLength(next) == n;
    assert next[n..] == [];
    WellFormedAppend(s[from..pos], next);
    assert s[from..pos] + next == s[from..pos + n];
  }

  lemma Slices(s: bytes, from: nat, pos: nat)
    requires from <= pos < |s|
    ensures s[from..][..pos - from] == s[from..pos] && s[from..][pos - from..] == s[pos..]
    ensures s[pos..] == [s[pos]] + s[pos + 1..]
  {
  }

  lemma FallbackOne(b: byte, rest: bytes)
    requires CharLength([b] + rest) == 0
    ensures b >= 0x80 && Decode([b] + rest) == [b as scalar] + Decode(rest)
  {
    assert ([b] + rest)[1..] == rest;
  }

  lemma FallbackNext(s: bytes, from: nat, pos: nat)
    requires from <= pos < |s| && WellFormed(s[from..pos]) && CharLength(s[pos..]) == 0
    ensures s[pos] >= 0x80
    ensures Decode(s[from..]) == Decode(s[from..pos]) + [s[pos] as scalar] + Decode(s[pos + 1..])
  {
    hide WellFormed, Decode, CharLength;
    Slices(s, from, pos);
    DecodeSplit(s[from..], pos - from);
    FallbackOne(s[pos], s[pos + 1..]);
  }

  /**
   * Writes the greedy decoding of any bytes. Every run handed on is well-formed; the bytes written
   * one at a time as Latin-1 are exactly those that start no well-formed character.
   */
  method WriteUtf8WithLatin1Fallback(s: bytes, filter: Filter)
    modifies filter.lower
    ensures filter.lower.out == old(filter.lower.out) + Written(filter.mode, Decode(s))
  {
    hide WellFormed, CharLength, Decode, Written, Utf8, Latin1;
    var writtenPos := 0;
    var pos := 0;
    ghost var done: text := [];
    DoneEmpty(filter.mode, s);
    while pos < |s|
      invariant 0 <= writtenPos <= pos <= |s|
      invariant WellFormed(s[writtenPos..pos])
      invariant Decode(s) == done + Decode(s[writtenPos..])
      invariant filter.lower.out == old(filter.lower.out) + Written(filter.mode, done)
    {
      var n := ValidLength(s, pos);
      if n > 0 {
        RunGrows(s, writtenPos, pos, n);
        pos := pos + n;
      } else {
        var b0 := s[pos];
        FallbackNext(s, writtenPos, pos);
        WrittenAppend(filter.mode, done, Decode(s[writtenPos..pos]));
        WrittenAppend(filter.mode, done + Decode(s[writtenPos..pos]), [b0]);
        WrittenHigh(filter.mode, b0);
        RunEmpty(filter.mode, s, writtenPos);
        if writtenPos < pos {
          filter.WriteStr(s[writtenPos..pos]);
        }
        filter.WriteNonAscii(b0);
        done := done + Decode(s[writtenPos..pos]) + [b0];
        writtenPos := pos + 1;
        pos := writtenPos;
        EmptyRun(s, pos);
      }
    }
    assert s[writtenPos..pos] == s[writtenPos..];
    WrittenAppend(filter.mode, done, Decode(s[writtenPos..]));
    LastEmpty(filter.mode, s, writtenPos);
    if writtenPos < |s| {
      filter.WriteStr(s[writtenPos..]);
    }
  }

  lemma EmptyRun(s: bytes, pos: nat)
    requires pos <= |s|
    ensures WellFormed(s[pos..pos])
  {
  }

  // ---- UTF-16 ----

  lemma UnitsHere(bigEndian: bool, s: bytes, pos: nat)
    requires pos + 2 <= |s|
    ensures UnitsOf(bigEndian, s[pos..]) == [ReadU16(bigEndian, s, pos)] + UnitsOf(bigEndian, s[pos + 2..])
  {
    assert s[pos..][2..] == s[pos + 2..];
  }

  lemma UnitsEnd(bigEndian: bool, s: bytes, pos: nat)
    requires pos <= |s| < pos + 2
    ensures UnitsOf(bigEndian, s[pos..]) == [] && DecodeUnits(UnitsOf(bigEndian, s[pos..])) == []
  {
  }

  lemma DecodeOneUnit(units: seq<u16>)
    requires |units| >= 1
    ensures !IsHighSurrogate(units[0]) && !IsLowSurrogate(units[0]) ==>
              DecodeUnits(units) == [units[0] as scalar] + DecodeUnits(units[1..])
    ensures IsLowSurrogate(units[0]) || (IsHighSurrogate(units[0]) && (|units| == 1 || !IsLowSurrogate(units[1]))) ==>
              DecodeUnits(units) == [REPLACEMENT_CHARACTER] + DecodeUnits(units[1..])
    ensures |units| > 1 && IsHighSurrogate(units[0]) && IsLowSurrogate(units[1]) ==>
              DecodeUnits(units) == [Pair(units[0], units[1])] + DecodeUnits(units[2..])
  {
  }

  /** One character at `pos`, and where the next one starts. */
  method ReadUtf16(bigEndian: bool, s: bytes, pos: nat) returns (ch: scalar, next: nat)
    requires pos + 2 <= |s|
    ensures pos < next <= |s|
    ensures DecodeUnits(UnitsOf(bigEndian, s[pos..])) == [ch] + DecodeUnits(UnitsOf(bigEndian, s[next..]))
  {
    hide DecodeUnits, UnitsOf, ReadU16;
    var high := ReadU16(bigEndian, s, pos);
    ghost var units := UnitsOf(bigEndian, s[pos..]);
    UnitsHere(bigEndian, s, pos);
    DecodeOneUnit(units);
    next := pos + 2;
    assert units[1..] == UnitsOf(bigEndian, s[next..]);
    if |s| - next >= 2 {
      UnitsHere(bigEndian, s, next);
    } else {
      UnitsEnd(bigEndian, s, next);
    }
    if !(0xD800 <= high <= 0xDFFF) {
      ch := high;
    } else if high >= 0xDC00 || |s| - next < 2 {
      ch := REPLACEMENT_CHARACTER;
    } else {
      var low := ReadU16(bigEndian, s, next);
      if !(0xDC00 <= low <= 0xDFFF) {
        ch := REPLACEMENT_CHARACTER;
      } else {
        assert units[2..] == UnitsOf(bigEndian, s[next + 2..]);
        next := next + 2;
        ch := Pair(high, low);
      }
    }
  }

  method WriteUtf16(bigEndian: bool, s: bytes, filter: Filter)
    modifies filter.lower
    ensures filter.lower.out == old(filter.lower.out) + Written(filter.mode, DecodeUnits(UnitsOf(bigEndian, s)))
  {
    hide DecodeUnits, UnitsOf, Written, Utf8, Utf8All, Image;
    var pos := 0;
    ghost var done: text := [];
    DoneEmpty(filter.mode, s);
    while |s| - pos >= 2
      invariant 0 <= pos <= |s|
      invariant DecodeUnits(UnitsOf(bigEndian, s)) == done + DecodeUnits(UnitsOf(bigEndian, s[pos..]))
      invariant filter.lower.out == old(filter.lower.out) + Written(filter.mode, done)
      decreases |s| - pos
    {
      var ch;
      ch, pos := ReadUtf16(bigEndian, s, pos);
      WrittenAppend(filter.mode, done, [ch]);
      WrittenOne(filter.mode, ch);
      if ch <= 0x7F {
        filter.WriteAscii(ch);
      } else {
        filter.WriteNonAscii(ch);
      }
      done := done + [ch];
    }
    UnitsEnd(bigEndian, s, pos);
    assert done + [] == done;
  }

  lemma WrittenOne(mode: Mode, c: scalar)
    ensures Written(mode, [c]) == Utf8All(Image(mode, c))
    ensures c >= 0x80 ==> Written(mode, [c]) == Utf8(c)
  {
    assert ImageAll(mode, [c]) == Image(mode, c) + ImageAll(mode, []) == Image(mode, c);
    if c >= 0x80 {
      WrittenHigh(mode, c);
    }
  }

  /** Two bytes per unit, as UTF-16 in either byte order stores them. */
  function UnitBytes(bigEndian: bool, units: seq<u16>): bytes {
    if units == [] then [] else WriteU16(bigEndian, units[0]) + UnitBytes(bigEndian, units[1..])
  }

  /** Any text survives being stored as UTF-16, in either byte order, and read back. */
  lemma Utf16RoundTrip(bigEndian: bool, t: text)
    ensures DecodeUnits(UnitsOf(bigEndian, UnitBytes(bigEndian, UnitsAll(t)))) == t
  {
    UnitBytesRead(bigEndian, UnitsAll(t));
    DecodeInvertsUnits(t);
  }

  lemma {:induction false} UnitBytesRead(bigEndian: bool, units: seq<u16>)
    ensures UnitsOf(bigEndian, UnitBytes(bigEndian, units)) == units
  {
    hide ReadU16;
    if units != [] {
      var s := UnitBytes(bigEndian, units);
      UnitBytesRead(bigEndian, units[1..]);
      assert s[2..] == UnitBytes(bigEndian, units[1..]);
      assert s[0..2] == WriteU16(bigEndian, units[0]);
      ReadWritten(bigEndian, s, 0, units[0]);
    }
  }

  // ---- UTF-32 ----

  function ReadU32(bigEndian: bool, s: bytes, pos: nat): (r: nat)
    requires pos + 4 <= |s|
  {
    var first, second := ReadU16(bigEndian, s, pos), ReadU16(bigEndian, s, pos + 2);
    if bigEndian then first * 65536 + second else second * 65536 + first
  }

  /** `char::from_u32`, with the replacement character for what is no scalar value. */
  function FromU32(v: nat): scalar {
    if v < 0xD800 || 0xE000 <= v < 0x11_0000 then v else REPLACEMENT_CHARACTER
  }

  function DecodeUtf32(bigEndian: bool, s: bytes): text {
    if |s| < 4 then [] else [FromU32(ReadU32(bigEndian, s, 0))] + DecodeUtf32(bigEndian, s[4..])
  }

  lemma Utf32Here(bigEndian: bool, s: bytes, pos: nat)
    requires pos <= |s|
    ensures |s| - pos < 4 ==> DecodeUtf32(bigEndian, s[pos..]) == []
    ensures |s| - pos >= 4 ==>
              DecodeUtf32(bigEndian, s[pos..])
              == [FromU32(ReadU32(bigEndian, s, pos))] + DecodeUtf32(bigEndian, s[pos + 4..])
  {
    if |s| - pos >= 4 {
      assert s[pos..][4..] == s[pos + 4..];
    }
  }

  /** Every character, ASCII or not, goes through `write_non_ascii`, which no filter changes. */
  method WriteUtf32(bigEndian: bool, s: bytes, filter: Filter)
    modifies filter.lower
    ensures filter.lower.out == old(filter.lower.out) + Utf8All(DecodeUtf32(bigEndian, s))
  {
    hide Utf8, Utf8All, DecodeUtf32, ReadU32, FromU32;
    Utf8AllEmpty();
    var pos := 0;
    ghost var done: text := [];
    assert s[0..] == s;
    while |s| - pos >= 4
      invariant 0 <= pos <= |s|
      invariant DecodeUtf32(bigEndian, s) == done + DecodeUtf32(bigEndian, s[pos..])
      invariant filter.lower.out == old(filter.lower.out) + Utf8All(done)
      decreases |s| - pos
    {
      var ch := FromU32(ReadU32(bigEndian, s, pos));
      Utf32Here(bigEndian, s, pos);
      Utf8Append(done, [ch]);
      Utf8One(ch);
      filter.WriteNonAscii(ch);
      done := done + [ch];
      pos := pos + 4;
    }
    Utf32Here(bigEndian, s, pos);
    assert done + [] == done;
  }

  lemma Utf8One(c: scalar)
    ensures Utf8All([c]) == Utf8(c)
  {
  }

  /**
   * UTF-32 reaches the JSON filter unescaped; that is right exactly for text without control characters,
   * quotation marks and backslashes.
   */
  lemma Utf32EscapedIff(t: text)
    ensures Utf8All(t) == Written(Escaping(false), t)
            <==> forall i :: 0 <= i < |t| ==> t[i] >= 0x20 && t[i] != QUOTE && t[i] != BACKSLASH
  {
    forall i | 0 <= i < |t|
      ensures Escape(false, t[i]) == [t[i]] <==> t[i] >= 0x20 && t[i] != QUOTE && t[i] != BACKSLASH
    {
      EscapedIff(t[i]);
    }
    hide Escape;
    if forall i :: 0 <= i < |t| ==> Escape(false, t[i]) == [t[i]] {
      ImageIsItself(t);
    } else if Utf8All(t) == Written(Escaping(false), t) {
      DecodeInvertsUtf8(t);
      DecodeInvertsUtf8(ImageAll(Escaping(false), t));
      ImageGrows(t);
    }
  }

  /** One quotation mark in UTF-32: what is written is not what JSON asks for. */
  lemma QuoteGoesUnescaped()
    ensures DecodeUtf32(false, [0x22, 0, 0, 0]) == [QUOTE]
    ensures Utf8All([QUOTE]) != Written(Escaping(false), [QUOTE])
  {
    Utf32Here(false, [0x22, 0, 0, 0], 0);
    assert [0x22, 0, 0, 0][0..] == [0x22, 0, 0, 0];
    assert DecodeUtf32(false, [0x22, 0, 0, 0][4..]) == [];
    Utf32EscapedIff([QUOTE]);
    assert [QUOTE][0] == QUOTE;
  }

  lemma EscapedIff(c: scalar)
    ensures Escape(false, c) == [c] <==> c >= 0x20 && c != QUOTE && c != BACKSLASH
  {
  }

  lemma {:induction false} ImageIsItself(t: text)
    requires forall i :: 0 <= i < |t| ==> Escape(false, t[i]) == [t[i]]
    ensures ImageAll(Escaping(false), t) == t
  {
    hide Escape;
    if t != [] {
      ImageIsItself(t[1..]);
    }
  }

  lemma {:induction false} ImageGrows(t: text)
    ensures |ImageAll(Escaping(false), t)| >= |t|
    ensures (exists i :: 0 <= i < |t| && Escape(false, t[i]) != [t[i]]) ==> |ImageAll(Escaping(false), t)| > |t|
  {
    if t != [] {
      ImageGrows(t[1..]);
      if i :| 0 <= i < |t| && Escape(false, t[i]) != [t[i]] {
        if i > 0 {
          assert t[1..][i - 1] == t[i];
        }
      }
    }
  }
}
