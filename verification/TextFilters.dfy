/**
 * The filters between text decoders and the output: pass everything, turn control characters into
 * spaces, or escape for JSON. Each writes whole runs at once; each is proved to write the image of
 * every character on its own. Unescaping by section 7 of RFC 8259 undoes the JSON filter.
 */
module TextFilters {
  import opened Bytes
  import opened Unicode

  datatype Mode = Plain | Spaces | Escaping(controlCharsOnly: bool)

  const QUOTE: scalar := '"' as int
  const BACKSLASH: scalar := '\\' as int
  const SPACE: scalar := ' ' as int

  function HexUppercase(nibble: nat): scalar
    requires nibble < 16
  {
    if nibble <= 9 then '0' as int + nibble else 'A' as int + nibble - 10
  }

  function Escape(controlCharsOnly: bool, c: scalar): (r: text)
    ensures |r| >= 1
  {
    if c == QUOTE && !controlCharsOnly then [BACKSLASH, QUOTE]
    else if c == BACKSLASH && !controlCharsOnly then [BACKSLASH, BACKSLASH]
    else if c == 0x08 then [BACKSLASH, 'b' as int]
    else if c == 0x0C then [BACKSLASH, 'f' as int]
    else if c == 0x0A then [BACKSLASH, 'n' as int]
    else if c == 0x0D then [BACKSLASH, 'r' as int]
    else if c == 0x09 then [BACKSLASH, 't' as int]
    else if c <= 0x1F then
      [BACKSLASH, 'u' as int, '0' as int, '0' as int, if c < 0x10 then '0' as int else '1' as int, HexUppercase(c % 16)]
    else [c]
  }

  /** What a filter makes of one character. */
  function Image(mode: Mode, c: scalar): (r: text)
    ensures |r| >= 1
    ensures c >= 0x80 ==> r == [c]
  {
    match mode
    case Plain => [c]
    case Spaces => if c < SPACE then [SPACE] else [c]
    case Escaping(controlCharsOnly) => Escape(controlCharsOnly, c)
  }

  function ImageAll(mode: Mode, t: text): text {
    if t == [] then [] else Image(mode, t[0]) + ImageAll(mode, t[1..])
  }

  /** The bytes a filter writes for a text. */
  function Written(mode: Mode, t: text): bytes { Utf8All(ImageAll(mode, t)) }

  lemma {:induction false} WrittenAppend(mode: Mode, a: text, b: text)
    ensures Written(mode, a + b) == Written(mode, a) + Written(mode, b)
  {
    hide Image, Utf8All;
    if a == [] {
      assert a + b == b;
      Utf8AllEmpty();
    } else {
      assert (a + b)[1..] == a[1..] + b;
      WrittenAppend(mode, a[1..], b);
      Utf8Append(Image(mode, a[0]), ImageAll(mode, a[1..] + b));
      Utf8Append(Image(mode, a[0]), ImageAll(mode, a[1..]));
    }
  }

  lemma Utf8AllEmpty()
    ensures Utf8All([]) == []
  {
  }

  // ---- bytes instead of characters ----

  /** What a filter makes of one byte of UTF-8: bytes of multi-byte characters pass. */
  function ByteImage(mode: Mode, b: byte): bytes {
    if b < 0x80 then Utf8All(Image(mode, b)) else [b]
  }

  function BytesImage(mode: Mode, s: bytes): bytes {
    if s == [] then [] else ByteImage(mode, s[0]) + BytesImage(mode, s[1..])
  }

  lemma {:induction false} BytesImageAppend(mode: Mode, a: bytes, b: bytes)
    ensures BytesImage(mode, a + b) == BytesImage(mode, a) + BytesImage(mode, b)
  {
    hide ByteImage;
    if a == [] {
      assert a + b == b;
    } else {
      assert (a + b)[1..] == a[1..] + b;
      BytesImageAppend(mode, a[1..], b);
    }
  }

  lemma {:induction false} HighBytesPass(mode: Mode, s: bytes)
    requires forall i :: 0 <= i < |s| ==> s[i] >= 0x80
    ensures BytesImage(mode, s) == s
  {
    if s != [] {
      HighBytesPass(mode, s[1..]);
    }
  }

  lemma CharImage(mode: Mode, c: scalar)
    ensures BytesImage(mode, Utf8(c)) == Utf8All(Image(mode, c))
  {
    if c < 0x80 {
      assert Utf8(c)[1..] == [];
    } else {
      HighBytesPass(mode, Utf8(c));
      assert Utf8All([c]) == Utf8(c);
    }
  }

  /** Working byte by byte on UTF-8 is working character by character on the text. */
  lemma {:induction false} BytewiseIsCharwise(mode: Mode, t: text)
    ensures BytesImage(mode, Utf8All(t)) == Written(mode, t)
  {
    hide Image, Utf8, ByteImage;
    if t != [] {
      CharImage(mode, t[0]);
      BytewiseIsCharwise(mode, t[1..]);
      BytesImageAppend(mode, Utf8(t[0]), Utf8All(t[1..]));
      Utf8Append(Image(mode, t[0]), ImageAll(mode, t[1..]));
    }
  }

  /** An ASCII byte in well-formed UTF-8 is a character of its own. */
  lemma {:induction false} AsciiSplits(s: bytes, pos: nat)
    requires WellFormed(s) && pos < |s| && s[pos] < 0x80
    ensures WellFormed(s[..pos]) && WellFormed(s[pos + 1..])
  {
    var n := CharLength(s);
    if pos > 0 {
      assert n <= pos;
      AsciiSplits(s[n..], pos - n);
      assert s[n..][..pos - n] == s[..pos][n..];
      assert s[n..][pos - n + 1..] == s[pos + 1..];
      assert CharLength(s[..pos]) == n;
    } else {
      assert s[1..] == s[n..];
    }
  }

  // ---- the writer and the filters ----

  /** The underlying writer: text as UTF-8. It is only ever handed well-formed UTF-8. */
  class Writer {
    var out: bytes

    constructor ()
      ensures out == []
    {
      out := [];
    }

    method WriteStr(value: bytes)
      requires WellFormed(value)
      modifies this
      ensures out == old(out) + value
    {
      out := out + value;
    }

    method WriteChar(value: scalar)
      modifies this
      ensures out == old(out) + Utf8(value)
    {
      out := out + Utf8(value);
    }
  }

  class Filter {
    const mode: Mode
    const lower: Writer

    constructor (mode: Mode, lower: Writer)
      ensures this.mode == mode && this.lower == lower
    {
      this.mode := mode;
      this.lower := lower;
    }

    method WriteNonAscii(value: scalar)
      modifies lower
      ensures lower.out == old(lower.out) + Utf8(value)
    {
      lower.WriteChar(value);
    }

    method WriteAscii(value: byte)
      requires value < 0x80
      modifies lower
      ensures lower.out == old(lower.out) + Utf8All(Image(mode, value))
    {
      hide Escape;
      DecodeInvertsUtf8(Image(mode, value));
      lower.WriteStr(Utf8All(Image(mode, value)));
    }

    /** Bytes up to this one have an image of their own; all above pass. */
    function CheckByte(): int {
      match mode
      case Plain => -1
      case Spaces => SPACE - 1
      case Escaping(controlCharsOnly) => if controlCharsOnly then 0x1F else BACKSLASH
    }

    /** Flushes the longest runs that need no change. */
    method WriteStr(value: bytes)
      requires WellFormed(value)
      modifies lower
      ensures lower.out == old(lower.out) + Written(mode, Decode(value))
    {
      hide WellFormed, CharLength, Utf8All, Image, Decode, ByteImage, BytesImage;
      var writtenPos := 0;
      var pos := 0;
      ghost var done := [];
      assert value[0..] == value && value[0..0] == [];
      BytesImageEmpty(mode);
      while pos < |value|
        invariant 0 <= writtenPos <= pos <= |value|
        invariant forall i :: writtenPos <= i < pos ==> value[i] > CheckByte()
        invariant WellFormed(value[writtenPos..])
        invariant lower.out == old(lower.out) + done && done == BytesImage(mode, value[..writtenPos])
      {
        var b := value[pos];
        if b <= CheckByte() {
          Flushable(value, writtenPos, pos);
          RunPasses(mode, value[writtenPos..pos], CheckByte());
          if writtenPos < pos {
            lower.WriteStr(value[writtenPos..pos]);
          }
          WriteAscii(b);
          RunDone(mode, value, writtenPos, pos);
          done := done + value[writtenPos..pos] + Utf8All(Image(mode, b));
          writtenPos := pos + 1;
        }
        pos := pos + 1;
      }
      RunPasses(mode, value[writtenPos..], CheckByte());
      if writtenPos < |value| {
        lower.WriteStr(value[writtenPos..]);
      }
      assert value == value[..writtenPos] + value[writtenPos..];
      BytesImageAppend(mode, value[..writtenPos], value[writtenPos..]);
      WellFormedUnchanged(value);
      BytewiseIsCharwise(mode, Decode(value));
    }
  }

  lemma BytesImageEmpty(mode: Mode)
    ensures BytesImage(mode, []) == []
  {
  }

  lemma Flushable(value: bytes, from: nat, pos: nat)
    requires from <= pos < |value| && WellFormed(value[from..]) && value[pos] < 0x80
    ensures WellFormed(value[from..pos]) && WellFormed(value[pos + 1..])
  {
    AsciiSplits(value[from..], pos - from);
    assert value[from..][..pos - from] == value[from..pos];
    assert value[from..][pos - from + 1..] == value[pos + 1..];
  }

  /** Bytes above the filter's check byte pass. */
  lemma {:induction false} RunPasses(mode: Mode, s: bytes, check: int)
    requires check == match mode
                      case Plain => -1
                      case Spaces => SPACE - 1
                      case Escaping(controlCharsOnly) => if controlCharsOnly then 0x1F else BACKSLASH
    requires forall i :: 0 <= i < |s| ==> s[i] > check
    ensures BytesImage(mode, s) == s
  {
    if s != [] {
      BytePasses(mode, s[0], check);
      hide ByteImage;
      RunPasses(mode, s[1..], check);
    }
  }

  lemma BytePasses(mode: Mode, b: byte, check: int)
    requires check == match mode
                      case Plain => -1
                      case Spaces => SPACE - 1
                      case Escaping(controlCharsOnly) => if controlCharsOnly then 0x1F else BACKSLASH
    requires b > check
    ensures ByteImage(mode, b) == [b]
  {
    if b < 0x80 {
      assert Image(mode, b) == [b as scalar];
      assert Utf8All([b as scalar]) == [b];
    }
  }

  lemma RunDone(mode: Mode, value: bytes, from: nat, pos: nat)
    requires from <= pos < |value| && value[pos] < 0x80
    requires BytesImage(mode, value[from..pos]) == value[from..pos]
    ensures BytesImage(mode, value[..pos + 1])
         == BytesImage(mode, value[..from]) + value[from..pos] + Utf8All(Image(mode, value[pos]))
  {
    hide Image, Utf8All;
    assert value[..pos + 1] == value[..from] + value[from..pos] + [value[pos]];
    BytesImageAppend(mode, value[..from] + value[from..pos], [value[pos]]);
    BytesImageAppend(mode, value[..from], value[from..pos]);
    assert BytesImage(mode, [value[pos]]) == ByteImage(mode, value[pos]) + BytesImage(mode, []);
  }

  // ---- unescaping ----

  function HexValue(c: scalar): (r: int)
    ensures -1 <= r < 16
  {
    if '0' as int <= c <= '9' as int then c - '0' as int
    else if 'A' as int <= c <= 'F' as int then c - 'A' as int + 10
    else if 'a' as int <= c <= 'f' as int then c - 'a' as int + 10
    else -1
  }

  /** The code unit that four hexadecimal digits at `s[pos..]` name, or -1. */
  function UnitAt(s: text, pos: nat): (r: int)
    ensures -1 <= r < 0x1_0000
  {
    if pos + 4 > |s| then -1
    else
      var h0, h1, h2, h3 := HexValue(s[pos]), HexValue(s[pos + 1]), HexValue(s[pos + 2]), HexValue(s[pos + 3]);
      if h0 < 0 || h1 < 0 || h2 < 0 || h3 < 0 then -1 else h0 * 4096 + h1 * 256 + h2 * 16 + h3
  }

  datatype Unescaped = Invalid | Text(value: text)

  function Prepend(c: scalar, rest: Unescaped): Unescaped {
    if rest.Invalid? then Invalid else Text([c] + rest.value)
  }

  /** The character a two-character escape stands for, or -1. */
  function ShortEscape(c: scalar): int {
    if c == QUOTE || c == BACKSLASH || c == '/' as int then c
    else if c == 'b' as int then 0x08
    else if c == 'f' as int then 0x0C
    else if c == 'n' as int then 0x0A
    else if c == 'r' as int then 0x0D
    else if c == 't' as int then 0x09
    else -1
  }

  /** The contents of a JSON string: `Invalid` if they could not stand between quotation marks. */
  function Unescape(s: text): Unescaped {
    if s == [] then Text([])
    else if s[0] < 0x20 || s[0] == QUOTE then Invalid
    else if s[0] != BACKSLASH then Prepend(s[0], Unescape(s[1..]))
    else if |s| < 2 then Invalid
    else if s[1] != 'u' as int then
      if ShortEscape(s[1]) < 0 then Invalid else Prepend(ShortEscape(s[1]), Unescape(s[2..]))
    else
      var unit := UnitAt(s, 2);
      if unit < 0 || IsLowSurrogate(unit) then Invalid
      else if !IsHighSurrogate(unit) then Prepend(unit, Unescape(s[6..]))
      else if |s| < 12 || s[6] != BACKSLASH || s[7] != 'u' as int then Invalid
      else
        var low := UnitAt(s, 8);
        if low < 0 || !IsLowSurrogate(low) then Invalid
        else Prepend(Pair(unit, low), Unescape(s[12..]))
  }

  lemma EscapedCharRead(c: scalar, rest: text)
    ensures Unescape(Escape(false, c) + rest) == Prepend(c, Unescape(rest))
  {
    var s := Escape(false, c) + rest;
    if c == QUOTE || c == BACKSLASH || c == 0x08 || c == 0x0C || c == 0x0A || c == 0x0D || c == 0x09 {
      assert s[2..] == rest;
    } else if c <= 0x1F {
      assert s[6..] == rest;
      assert UnitAt(s, 2) == c;
    } else {
      assert s[1..] == rest;
    }
  }

  /**
   * Escaped text is the contents of a valid JSON string, with no bare control character, quotation
   * mark or backslash, and it unescapes to the text.
   */
  lemma {:induction false} UnescapeInvertsEscape(t: text)
    ensures Unescape(ImageAll(Escaping(false), t)) == Text(t)
  {
    hide Escape, Unescape;
    if t == [] {
      UnescapeEmpty();
    } else {
      EscapedCharRead(t[0], ImageAll(Escaping(false), t[1..]));
      UnescapeInvertsEscape(t[1..]);
    }
  }

  lemma UnescapeEmpty()
    ensures Unescape([]) == Text([])
  {
  }

  /** Reading the bytes written for JSON as UTF-8 and unescaping them gives the text back. */
  lemma EscapedTextRecovered(t: text)
    ensures WellFormed(Written(Escaping(false), t))
    ensures Unescape(Decode(Written(Escaping(false), t))) == Text(t)
  {
    DecodeInvertsUtf8(ImageAll(Escaping(false), t));
    UnescapeInvertsEscape(t);
  }

  lemma NoControlCharacterLeft(mode: Mode, c: scalar)
    requires mode != Plain
    ensures forall i :: 0 <= i < |Image(mode, c)| ==> Image(mode, c)[i] >= 0x20
    ensures mode != Escaping(false) && c >= 0x20 ==> Image(mode, c) == [c]
  {
  }

  /** With control characters only, or replaced by spaces, none is left and other text is unchanged. */
  lemma {:induction false} NoControlCharactersLeft(mode: Mode, t: text)
    requires mode != Plain
    ensures forall i :: 0 <= i < |ImageAll(mode, t)| ==> ImageAll(mode, t)[i] >= 0x20
    ensures mode != Escaping(false) && (forall i :: 0 <= i < |t| ==> t[i] >= 0x20) ==> ImageAll(mode, t) == t
  {
    hide Image;
    if t != [] {
      NoControlCharacterLeft(mode, t[0]);
      NoControlCharactersLeft(mode, t[1..]);
    }
  }
}
