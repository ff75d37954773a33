/** Scanning the text of tracefs "format" files: runs of characters, quoted values and numbers. */
module FormatText {
  import opened Wrappers

  type u32 = x: int | 0 <= x < 0x1_0000_0000

  predicate IsEol(c: char) { c == '\r' || c == '\n' }
  predicate NotEol(c: char) { !IsEol(c) }
  predicate IsSpace(c: char) { c == ' ' || c == '\t' }
  predicate IsSpaceOrSemicolon(c: char) { IsSpace(c) || c == ';' }
  predicate NotColon(c: char) { c != ':' }
  predicate NotSemicolon(c: char) { c != ';' }
  predicate NotColonNorEol(c: char) { c != ':' && !IsEol(c) }

  ghost predicate All(t: string, p: char -> bool) { forall i :: 0 <= i < |t| ==> p(t[i]) }

  /** Length of the longest run of such characters at the start of `t`. */
  function Span(t: string, p: char -> bool): (n: nat)
    ensures n <= |t| && (n < |t| ==> !p(t[n]))
    ensures All(t[..n], p)
  {
    if t == "" || !p(t[0]) then 0 else
      assert t[..1 + Span(t[1..], p)] == [t[0]] + t[1..][..Span(t[1..], p)];
      1 + Span(t[1..], p)
  }

  lemma {:induction false} SpanIs(a: string, rest: string, p: char -> bool)
    requires All(a, p) && (rest == "" || !p(rest[0]))
    ensures Span(a + rest, p) == |a|
  {
    if a == "" {
      assert a + rest == rest;
    } else {
      assert (a + rest)[1..] == a[1..] + rest;
      SpanIs(a[1..], rest, p);
    }
  }

  lemma SpanCuts(a: string, rest: string, p: char -> bool)
    requires All(a, p) && (rest == "" || !p(rest[0]))
    ensures Span(a + rest, p) == |a|
    ensures (a + rest)[..|a|] == a && (a + rest)[|a|..] == rest
  {
    hide Span;
    SpanIs(a, rest, p);
  }

  method ScanWhile(t: string, p: char -> bool) returns (pos: nat)
    ensures pos == Span(t, p)
  {
    pos := 0;
    assert t[0..] == t;
    while pos < |t| && p(t[pos])
      invariant 0 <= pos <= |t|
      invariant Span(t, p) == pos + Span(t[pos..], p)
    {
      assert t[pos..][1..] == t[pos + 1..];
      pos := pos + 1;
    }
  }

  // ---- quoted strings ----

  /** How much of `t`, which follows an opening quote, belongs to the string, closing quote included. */
  function StringLength(t: string, quote: char): (n: nat)
    ensures n <= |t|
  {
    if t == "" then 0
    else if t[0] == quote then 1
    else if t[0] == '\\' then (if |t| == 1 then 1 else 2 + StringLength(t[2..], quote))
    else 1 + StringLength(t[1..], quote)
  }

  /** The string that starts in `t` ends in it. */
  predicate Closes(t: string, quote: char) {
    if t == "" then false
    else if t[0] == quote then true
    else if t[0] == '\\' then |t| > 1 && Closes(t[2..], quote)
    else Closes(t[1..], quote)
  }

  method ConsumeString(start: nat, text: string, quote: char) returns (pos: nat)
    requires start <= |text|
    ensures pos == start + StringLength(text[start..], quote)
  {
    pos := start;
    while pos < |text|
      invariant start <= pos <= |text|
      invariant StringLength(text[start..], quote) == pos - start + StringLength(text[pos..], quote)
    {
      var consumed := text[pos];
      assert text[pos..][1..] == text[pos + 1..];
      assert pos + 2 <= |text| ==> text[pos..][2..] == text[pos + 2..];
      pos := pos + 1;
      if consumed == quote {
        return;
      } else if consumed == '\\' {
        if pos >= |text| {
          return;
        }
        pos := pos + 1;
      }
    }
  }

  /** Length of a property's value: up to the end of the line, but not inside double quotes. */
  function ValueLength(t: string): (n: nat)
    ensures n <= |t| && (n < |t| ==> IsEol(t[n]))
  {
    if t == "" || IsEol(t[0]) then 0
    else if t[0] == '"' then
      var k := 1 + StringLength(t[1..], '"');
      k + ValueLength(t[k..])
    else 1 + ValueLength(t[1..])
  }

  /** A value that ends where it ends: every quote is closed, and no line end is outside quotes. */
  predicate Balanced(t: string) {
    if t == "" then true
    else if IsEol(t[0]) then false
    else if t[0] == '"' then Closes(t[1..], '"') && Balanced(t[1 + StringLength(t[1..], '"')..])
    else Balanced(t[1..])
  }

  method ScanValue(t: string) returns (pos: nat)
    ensures pos == ValueLength(t)
  {
    pos := 0;
    assert t[0..] == t;
    while pos < |t| && !IsEol(t[pos])
      invariant 0 <= pos <= |t|
      invariant ValueLength(t) == pos + ValueLength(t[pos..])
      decreases |t| - pos
    {
      ghost var here := pos;
      var consumed := t[pos];
      assert t[pos..][1..] == t[pos + 1..];
      pos := pos + 1;
      if consumed == '"' {
        pos := ConsumeString(pos, t, '"');
        assert t[here..][pos - here..] == t[pos..];
      }
    }
  }

  lemma {:induction false} ClosedLength(t: string, rest: string, quote: char)
    requires Closes(t, quote)
    ensures StringLength(t + rest, quote) == StringLength(t, quote)
  {
    if t[0] != quote {
      if t[0] == '\\' {
        assert (t + rest)[2..] == t[2..] + rest;
        ClosedLength(t[2..], rest, quote);
      } else {
        assert (t + rest)[1..] == t[1..] + rest;
        ClosedLength(t[1..], rest, quote);
      }
    }
  }

  /** A balanced value, put at the end of a line, is read back whole. */
  lemma {:induction false} BalancedLength(t: string, rest: string)
    requires Balanced(t) && (rest == "" || IsEol(rest[0]))
    ensures ValueLength(t + rest) == |t|
  {
    if t == "" {
      assert t + rest == rest;
    } else if t[0] == '"' {
      var k := 1 + StringLength(t[1..], '"');
      ClosedLength(t[1..], rest, '"');
      assert (t + rest)[1..] == t[1..] + rest;
      assert (t + rest)[k..] == t[k..] + rest;
      BalancedLength(t[k..], rest);
    } else {
      assert (t + rest)[1..] == t[1..] + rest;
      BalancedLength(t[1..], rest);
    }
  }

  lemma PrefixDrop(t: string, m: nat, k: nat)
    requires k <= m <= |t|
    ensures t[..m][k..] == t[k..][..m - k]
  {
  }

  lemma {:induction false} StringPrefix(t: string, quote: char, m: nat)
    requires StringLength(t, quote) <= m <= |t|
    ensures StringLength(t[..m], quote) == StringLength(t, quote)
  {
    if t != "" && t[0] != quote && m > 0 {
      if t[0] == '\\' {
        if |t| > 1 {
          PrefixDrop(t, m, 2);
          StringPrefix(t[2..], quote, m - 2);
        }
      } else {
        PrefixDrop(t, m, 1);
        StringPrefix(t[1..], quote, m - 1);
      }
    }
  }

  lemma ValueUnfolds(t: string)
    requires t != "" && !IsEol(t[0])
    ensures t[0] != '"' ==> ValueLength(t) == 1 + ValueLength(t[1..])
    ensures t[0] == '"' ==>
              var k := 1 + StringLength(t[1..], '"');
              k <= |t| && ValueLength(t) == k + ValueLength(t[k..])
  {
    hide StringLength;
  }

  lemma PlainPrefix(t: string, n: nat)
    requires 0 < n <= |t| && !IsEol(t[0]) && t[0] != '"' && ValueLength(t[1..][..n - 1]) == n - 1
    ensures ValueLength(t[..n]) == n
  {
    hide ValueLength;
    PrefixDrop(t, n, 1);
    ValueUnfolds(t[..n]);
  }

  lemma QuotedPrefix(t: string, n: nat, k: nat)
    requires 0 < n <= |t| && t[0] == '"' && k == 1 + StringLength(t[1..], '"') <= n
    requires ValueLength(t[k..][..n - k]) == n - k
    ensures ValueLength(t[..n]) == n
  {
    hide ValueLength, StringLength;
    PrefixDrop(t, n, 1);
    PrefixDrop(t, n, k);
    StringPrefix(t[1..], '"', n - 1);
    ValueUnfolds(t[..n]);
  }

  /** A value, cut out of its text, ends where the text of it ends. */
  lemma {:induction false} ValuePrefix(t: string)
    ensures ValueLength(t[..ValueLength(t)]) == ValueLength(t)
  {
    var n := ValueLength(t);
    if n > 0 {
      ValueStarts(t);
      ValueUnfolds(t);
      hide ValueLength, StringLength;
      if t[0] == '"' {
        var k := 1 + StringLength(t[1..], '"');
        ValuePrefix(t[k..]);
        QuotedPrefix(t, n, k);
      } else {
        ValuePrefix(t[1..]);
        PlainPrefix(t, n);
      }
    }
  }

  lemma ValueStarts(t: string)
    ensures ValueLength(t) > 0 ==> t != "" && !IsEol(t[0])
  {
  }

  /** Text in which no string ends and nothing is escaped. */
  ghost predicate Plain(t: string) { forall i :: 0 <= i < |t| ==> t[i] != '"' && t[i] != '\\' }

  lemma {:induction false} PlainTaken(plain: string, rest: string)
    requires Plain(plain)
    ensures StringLength(plain + rest, '"') >= |plain|
  {
    if plain != "" {
      assert (plain + rest)[1..] == plain[1..] + rest;
      PlainTaken(plain[1..], rest);
    }
  }

  lemma {:induction false} UnclosedTakes(t: string, plain: string, rest: string)
    requires !Closes(t, '"') && Plain(plain)
    ensures StringLength(t + (plain + rest), '"') >= |t| + |plain|
  {
    var after := plain + rest;
    if t == "" {
      PlainTaken(plain, rest);
      assert t + after == after;
    } else if t[0] == '\\' {
      if |t| > 1 {
        assert (t + after)[2..] == t[2..] + after;
        UnclosedTakes(t[2..], plain, rest);
      } else if plain != "" {
        PlainTaken(plain[1..], rest);
        assert (t + after)[2..] == plain[1..] + rest;
      }
    } else {
      assert (t + after)[1..] == t[1..] + after;
      UnclosedTakes(t[1..], plain, rest);
    }
  }

  /** An unbalanced value with no line end outside quotes takes plain text after it with it, line ends included. */
  lemma {:induction false} UnbalancedLength(t: string, plain: string, rest: string)
    requires !Balanced(t) && ValueLength(t) == |t| && Plain(plain)
    ensures ValueLength(t + (plain + rest)) >= |t| + |plain|
  {
    var after := plain + rest;
    if t[0] == '"' {
      var k := 1 + StringLength(t[1..], '"');
      assert (t + after)[1..] == t[1..] + after;
      if Closes(t[1..], '"') {
        ClosedLength(t[1..], after, '"');
        assert (t + after)[k..] == t[k..] + after;
        UnbalancedLength(t[k..], plain, rest);
      } else {
        UnclosedTakes(t[1..], plain, rest);
      }
    } else {
      assert (t + after)[1..] == t[1..] + after;
      UnbalancedLength(t[1..], plain, rest);
    }
  }

  // ---- numbers ----

  predicate IsDecimal(c: char) { '0' <= c <= '9' }
  predicate IsHex(c: char) { IsDecimal(c) || 'a' <= c <= 'f' || 'A' <= c <= 'F' }

  function DigitOf(c: char): (d: nat)
    requires IsHex(c)
    ensures d < 16 && (IsDecimal(c) ==> d < 10)
  {
    if IsDecimal(c) then c as int - '0' as int
    else if 'a' <= c <= 'f' then c as int - 'a' as int + 10
    else c as int - 'A' as int + 10
  }

  /** Digits after `v`; the result wraps around at 32 bits. */
  function Accumulate(t: string, base: nat, v: u32): u32
    requires forall i :: 0 <= i < |t| ==> IsHex(t[i])
  {
    if t == "" then v else Accumulate(t[1..], base, (v * base + DigitOf(t[0])) % 0x1_0000_0000)
  }

  function Digits(t: string, base: nat, p: char -> bool): Option<u32>
    requires forall c :: p(c) ==> IsHex(c)
  {
    var n := Span(t, p);
    if n == 0 then None else Some(Accumulate(t[..n], base, 0))
  }

  /** `ascii_to_u32`: hexadecimal after `0x`, else decimal; `None` without digits. */
  function AsciiToU32(t: string): Option<u32> {
    var d := t[Span(t, IsSpace)..];
    if |d| > 2 && d[0] == '0' && (d[1] == 'x' || d[1] == 'X') then Digits(d[2..], 16, IsHex)
    else Digits(d, 10, IsDecimal)
  }

  method ReadDigits(text: string, start: nat, base: nat, p: char -> bool) returns (r: Option<u32>)
    requires start <= |text| && forall c :: p(c) ==> IsHex(c)
    ensures r == Digits(text[start..], base, p)
  {
    hide Accumulate, DigitOf;
    var pos := start;
    var anyDigits := false;
    var value: u32 := 0;
    NoDigits(text[start..start], base);
    while pos < |text| && p(text[pos])
      invariant start <= pos <= |text| && anyDigits == (pos > start)
      invariant forall i :: start <= i < pos ==> p(text[i])
      invariant value == Accumulate(text[start..pos], base, 0)
    {
      AccumulateAppend(text[start..pos], base, 0, text[pos]);
      OneMore(text, start, pos);
      value := (value * base + DigitOf(text[pos])) % 0x1_0000_0000;
      pos := pos + 1;
      anyDigits := true;
    }
    CutAt(text, start, pos);
    SpanIs(text[start..pos], text[pos..], p);
    return if anyDigits then Some(value) else None;
  }

  method ReadU32(text: string) returns (r: Option<u32>)
    ensures r == AsciiToU32(text)
  {
    var pos := ScanWhile(text, IsSpace);
    if |text| - pos > 2 && text[pos] == '0' && (text[pos + 1] == 'x' || text[pos + 1] == 'X') {
      assert text[pos..][2..] == text[pos + 2..];
      r := ReadDigits(text, pos + 2, 16, IsHex);
    } else {
      r := ReadDigits(text, pos, 10, IsDecimal);
    }
  }

  lemma NoDigits(t: string, base: nat)
    requires t == ""
    ensures Accumulate(t, base, 0) == 0
  {
  }

  lemma OneMore(text: string, start: nat, pos: nat)
    requires start <= pos < |text|
    ensures text[start..pos + 1] == text[start..pos] + [text[pos]]
  {
  }

  lemma CutAt(text: string, start: nat, pos: nat)
    requires start <= pos <= |text|
    ensures text[start..] == text[start..pos] + text[pos..]
    ensures text[start..][..pos - start] == text[start..pos]
  {
  }

  lemma {:induction false} AccumulateAppend(t: string, base: nat, v: u32, c: char)
    requires (forall i :: 0 <= i < |t| ==> IsHex(t[i])) && IsHex(c)
    ensures Accumulate(t + [c], base, v) == (Accumulate(t, base, v) * base + DigitOf(c)) % 0x1_0000_0000
  {
    if t != "" {
      assert (t + [c])[1..] == t[1..] + [c];
      AccumulateAppend(t[1..], base, (v * base + DigitOf(t[0])) % 0x1_0000_0000, c);
    }
  }

  /** Decimal digits. */
  function Dec(n: nat): (t: string)
    ensures t != "" && forall i :: 0 <= i < |t| ==> IsDecimal(t[i])
  {
    if n < 10 then [('0' as int + n) as char] else Dec(n / 10) + [('0' as int + n % 10) as char]
  }

  lemma {:induction false} DecAccumulates(n: u32)
    ensures Accumulate(Dec(n), 10, 0) == n
  {
    hide Accumulate, DigitOf;
    var last := ('0' as int + n % 10) as char;
    LastDigit(n);
    AccumulateNone();
    if n >= 10 {
      DecAccumulates(n / 10);
      AccumulateAppend(Dec(n / 10), 10, 0, last);
    } else {
      AccumulateAppend("", 10, 0, last);
      assert "" + [last] == [last] == Dec(n);
    }
  }

  lemma AccumulateNone()
    ensures Accumulate("", 10, 0) == 0
  {
  }

  lemma LastDigit(n: u32)
    ensures IsHex(('0' as int + n % 10) as char) && DigitOf(('0' as int + n % 10) as char) == n % 10
    ensures (n / 10 * 10 + n % 10) % 0x1_0000_0000 == n
    ensures n < 10 ==> n / 10 == 0
  {
  }

  lemma DecReads(n: u32)
    ensures AsciiToU32(Dec(n)) == Some(n)
  {
    DecAccumulates(n);
    assert Dec(n) + "" == Dec(n);
    SpanIs(Dec(n), "", IsDecimal);
    SpanIs("", Dec(n), IsSpace);
    assert "" + Dec(n) == Dec(n);
    assert Dec(n)[0..] == Dec(n) && Dec(n)[..|Dec(n)|] == Dec(n);
  }
}
