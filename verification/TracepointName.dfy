/**
 * Tracepoint names: `CommandString::format` writes `ProviderName_LnKnOptions` for the kernel, the
 * decoder reads level, keyword, provider name and options back from it.
 */
module TracepointName {
  import opened Bytes

  const UNDERSCORE: byte := '_' as int
  const LEVEL_MARK: byte := 'L' as int
  const KEYWORD_MARK: byte := 'K' as int
  const GROUP_MARK: byte := 'G' as int
  const SPACE: byte := ' ' as int

  const NAME_MAX: nat := 256
  const COMMAND_TYPES_LEN: nat := 70
  const COMMAND_MAX: nat := NAME_MAX + 1 + COMMAND_TYPES_LEN

  /** `EVENTHEADER_NAME_MAX - "_LffKffffffffffffffffG".len()` */
  const NAMES_MAX: nat := NAME_MAX - 22

  predicate IsDigit(ch: byte) { '0' as int <= ch <= '9' as int }
  predicate IsLower(ch: byte) { 'a' as int <= ch <= 'z' as int }
  predicate IsUpper(ch: byte) { 'A' as int <= ch <= 'Z' as int }
  predicate IsHexDigit(ch: byte) { IsDigit(ch) || 'a' as int <= ch <= 'f' as int }
  predicate IsOptionChar(ch: byte) { IsDigit(ch) || IsLower(ch) }

  predicate Printable(s: string) { forall i :: 0 <= i < |s| ==> ' ' <= s[i] <= '~' }

  function Ascii(s: string): (r: bytes)
    requires Printable(s)
    ensures |r| == |s| && forall i :: 0 <= i < |r| ==> r[i] == s[i] as int != 0
  {
    seq(|s|, i requires 0 <= i < |s| => s[i] as int)
  }

  /** `EVENTHEADER_COMMAND_TYPES` */
  function CommandTypes(): (r: bytes)
    ensures |r| == COMMAND_TYPES_LEN && forall i :: 0 <= i < |r| ==> r[i] != 0
  {
    Ascii("u8 eventheader_flags; ") + Ascii("u8 version; ") + Ascii("u16 id; ")
    + Ascii("u16 tag; ") + Ascii("u8 opcode; ") + Ascii("u8 level")
  }

  // ---- hexadecimal ----

  function Nibble(ch: byte): (r: nat)
    requires IsHexDigit(ch)
    ensures r < 16
  {
    if IsDigit(ch) then ch - '0' as int else ch - 'a' as int + 10
  }

  function HexDigit(n: nat): (r: byte)
    requires n < 16
    ensures IsHexDigit(r) && Nibble(r) == n
  {
    if n < 10 then '0' as int + n else 'a' as int + n - 10
  }

  /** `{:x}`: lowercase hexadecimal without leading zeros. */
  function Hex(v: nat): bytes {
    if v < 16 then [HexDigit(v)] else Hex(v / 16) + [HexDigit(v % 16)]
  }

  /** One digit into a 64-bit accumulator; the top four bits are shifted out. */
  function ShiftIn(v: u64, ch: byte): u64
    requires IsHexDigit(ch)
  {
    v % 0x1000_0000_0000_0000 * 16 + Nibble(ch)
  }

  /** The digits from `pos` on, shifted into `v`, and where they end. */
  function HexRun(s: bytes, pos: nat, v: u64): (r: (u64, nat))
    requires pos <= |s|
    ensures pos <= r.1 <= |s|
    decreases |s| - pos
  {
    if pos < |s| && IsHexDigit(s[pos]) then HexRun(s, pos + 1, ShiftIn(v, s[pos])) else (v, pos)
  }

  method LowercaseHexToInt(s: bytes, startPos: nat) returns (v: u64, pos: nat)
    requires startPos <= |s|
    ensures (v, pos) == HexRun(s, startPos, 0)
    ensures startPos <= pos <= |s| && (pos < |s| ==> !IsHexDigit(s[pos]))
    ensures forall i :: startPos <= i < pos ==> IsHexDigit(s[i])
  {
    v := 0;
    pos := startPos;
    while pos < |s|
      invariant startPos <= pos <= |s|
      invariant HexRun(s, startPos, 0) == HexRun(s, pos, v)
      invariant forall i :: startPos <= i < pos ==> IsHexDigit(s[i])
    {
      if !IsHexDigit(s[pos]) {
        break;
      }
      v := ShiftIn(v, s[pos]);
      pos := pos + 1;
    }
  }

  lemma {:induction false} HexShape(v: nat)
    ensures |Hex(v)| >= 1 && forall i :: 0 <= i < |Hex(v)| ==> IsHexDigit(Hex(v)[i])
  {
    if v >= 16 {
      HexShape(v / 16);
    }
  }

  lemma {:induction false} HexShifts(s: bytes, pos: nat, v: u64)
    requires At(s, pos, Hex(v))
    ensures HexRun(s, pos, 0) == HexRun(s, pos + |Hex(v)|, v)
  {
    hide HexRun, ShiftIn;
    ShiftDigit(v);
    if v >= 16 {
      AtSplit(s, pos, Hex(v / 16), [HexDigit(v % 16)]);
      HexShifts(s, pos, v / 16);
      HexRunOne(s, pos + |Hex(v / 16)|, v / 16, HexDigit(v % 16));
    } else {
      HexRunOne(s, pos, 0, HexDigit(v));
    }
  }

  lemma HexRunOne(s: bytes, pos: nat, v: u64, digit: byte)
    requires At(s, pos, [digit]) && IsHexDigit(digit)
    ensures HexRun(s, pos, v) == HexRun(s, pos + 1, ShiftIn(v, digit))
  {
    AtIndex(s, pos, [digit], 0);
  }

  lemma ShiftDigit(v: u64)
    ensures ShiftIn(v / 16, HexDigit(v % 16)) == v
  {
  }

  /** Every 64-bit number is read back from its digits, up to the first character that is not one. */
  lemma HexReads(s: bytes, pos: nat, v: u64)
    requires At(s, pos, Hex(v))
    requires pos + |Hex(v)| < |s| ==> !IsHexDigit(s[pos + |Hex(v)|])
    ensures HexRun(s, pos, 0) == (v, pos + |Hex(v)|)
  {
    HexShifts(s, pos, v);
  }

  function Power16(n: nat): nat { if n == 0 then 1 else 16 * Power16(n - 1) }

  lemma {:induction false} HexLength(v: nat, n: nat)
    requires n > 0 && v < Power16(n)
    ensures |Hex(v)| <= n
    ensures v >= Power16(n - 1) ==> |Hex(v)| == n
  {
    if v >= 16 {
      HexLength(v / 16, n - 1);
    } else if n > 1 {
      assert Power16(n - 1) >= 16;
    }
  }

  // ---- writing names ----

  /** The characters allowed in a provider name: not the ones that separate fields of the command. */
  ghost predicate ProviderNameOk(name: bytes) {
    forall i :: 0 <= i < |name| ==> name[i] != 0 && name[i] != SPACE && name[i] != ':' as int
  }

  ghost predicate GroupNameOk(group: bytes) {
    forall i :: 0 <= i < |group| ==> IsOptionChar(group[i])
  }

  /** What `Provider::new` accepts. */
  ghost predicate ProviderOk(name: bytes, group: bytes) {
    ProviderNameOk(name) && GroupNameOk(group) && |name| + |group| < NAMES_MAX
  }

  function OptionsFor(group: bytes): bytes {
    if group == [] then [] else [GROUP_MARK] + group
  }

  function Attributes(level: byte, keyword: u64): bytes {
    [UNDERSCORE, LEVEL_MARK] + Hex(level) + [KEYWORD_MARK] + Hex(keyword)
  }

  function NameFor(provider: bytes, options: bytes, level: byte, keyword: u64): bytes {
    provider + Attributes(level, keyword) + options
  }

  function CommandFor(provider: bytes, options: bytes, level: byte, keyword: u64): bytes {
    NameFor(provider, options, level, keyword) + [SPACE] + CommandTypes() + [0]
  }

  class CommandString {
    const buf: array<byte>
    var pos: nat

    constructor ()
      ensures buf.Length == COMMAND_MAX && fresh(buf) && pos == 0
    {
      buf := new byte[COMMAND_MAX](_ => 0);
      pos := 0;
    }

    method Write(part: bytes)
      requires pos + |part| <= buf.Length
      modifies buf, `pos
      ensures pos == old(pos) + |part|
      ensures buf[..pos] == old(buf[..pos]) + part
    {
      forall i | 0 <= i < |part| {
        buf[pos + i] := part[i];
      }
      pos := pos + |part|;
    }

    method WriteName(provider: bytes, options: bytes, level: byte, keyword: u64)
      requires pos == 0 && |NameFor(provider, options, level, keyword)| <= buf.Length
      modifies buf, `pos
      ensures pos == |NameFor(provider, options, level, keyword)|
      ensures buf[..pos] == NameFor(provider, options, level, keyword)
    {
      hide Hex;
      Write(provider);
      Write([UNDERSCORE, LEVEL_MARK]);
      Write(Hex(level));
      Write([KEYWORD_MARK]);
      Write(Hex(keyword));
      Write(options);
      NameParts(provider, options, level, keyword);
    }

    /** The command for any provider that `Provider::new` accepts; it never runs past the buffer. */
    method Format(provider: bytes, group: bytes, level: byte, keyword: u64) returns (command: bytes)
      requires buf.Length == COMMAND_MAX && ProviderOk(provider, group)
      modifies buf, `pos
      ensures command == CommandFor(provider, OptionsFor(group), level, keyword)
      ensures forall i :: 0 <= i < |command| ==> (command[i] == 0 <==> i == |command| - 1)
    {
      hide Hex, Attributes, CommandTypes, NameFor, OptionsFor;
      CommandFits(provider, group, level, keyword);
      OneTerminator(provider, group, level, keyword);
      pos := 0;
      WriteName(provider, OptionsFor(group), level, keyword);
      Write([SPACE]);
      Write(CommandTypes());
      Write([0]);
      command := buf[..pos];
    }
  }

  lemma NameParts(provider: bytes, options: bytes, level: byte, keyword: u64)
    ensures NameFor(provider, options, level, keyword)
         == [] + provider + [UNDERSCORE, LEVEL_MARK] + Hex(level) + [KEYWORD_MARK] + Hex(keyword) + options
  {
    hide Hex;
  }

  lemma OneTerminator(provider: bytes, group: bytes, level: byte, keyword: u64)
    requires ProviderOk(provider, group)
    ensures var command := CommandFor(provider, OptionsFor(group), level, keyword);
            forall i :: 0 <= i < |command| ==> (command[i] == 0 <==> i == |command| - 1)
  {
    hide Hex, CommandTypes, IsHexDigit, IsOptionChar;
    HexShape(level);
    HexShape(keyword);
    NoZeroDigits(Hex(level));
    NoZeroDigits(Hex(keyword));
    assert forall i :: 0 <= i < |group| ==> group[i] != 0 by { NoZeroOptions(group); }
    var name := NameFor(provider, OptionsFor(group), level, keyword);
    assert forall i :: 0 <= i < |name| ==> name[i] != 0;
  }

  lemma NoZeroDigits(s: bytes)
    requires forall i :: 0 <= i < |s| ==> IsHexDigit(s[i])
    ensures forall i :: 0 <= i < |s| ==> s[i] != 0
  {
  }

  lemma NoZeroOptions(s: bytes)
    requires GroupNameOk(s)
    ensures forall i :: 0 <= i < |s| ==> s[i] != 0
  {
  }

  lemma LevelDigits(level: byte)
    ensures |Hex(level)| <= 2 && (level >= 16 ==> |Hex(level)| == 2)
  {
    assert Power16(1) == 16 && Power16(2) == 256;
    HexLength(level, 2);
  }

  lemma KeywordDigits(keyword: u64)
    ensures |Hex(keyword)| <= 16
    ensures keyword >= 0x1000_0000_0000_0000 ==> |Hex(keyword)| == 16
  {
    Power16Of16();
    HexLength(keyword, 16);
  }

  lemma Power16Of16()
    ensures Power16(15) == 0x1000_0000_0000_0000 && Power16(16) == 0x1_0000_0000_0000_0000
  {
    assert Power16(4) == 0x1_0000;
    assert Power16(8) == 0x1_0000_0000;
    assert Power16(12) == 0x1_0000_0000_0000;
  }

  /**
   * The length check of `Provider::new` keeps every name below the limit of the decoder and every
   * command inside its buffer; and it cannot be relaxed, because some commands fill the buffer.
   */
  lemma CommandFits(provider: bytes, group: bytes, level: byte, keyword: u64)
    requires |provider| + |group| < NAMES_MAX
    ensures |NameFor(provider, OptionsFor(group), level, keyword)| < NAME_MAX
    ensures |CommandFor(provider, OptionsFor(group), level, keyword)| <= COMMAND_MAX
    ensures |provider| + |group| == NAMES_MAX - 1 && group != [] && level >= 16 && keyword >= 0x1000_0000_0000_0000 ==>
              |CommandFor(provider, OptionsFor(group), level, keyword)| == COMMAND_MAX
  {
    LevelDigits(level);
    KeywordDigits(keyword);
  }

  // ---- reading names ----

  /** The offset after the last underscore at or before `pos`, or 0. */
  function AfterUnderscore(s: bytes, pos: nat): (r: nat)
    requires pos <= |s|
    ensures r <= pos
    ensures r > 0 ==> s[r - 1] == UNDERSCORE
    ensures forall i :: r <= i < pos ==> s[i] != UNDERSCORE
  {
    if pos == 0 || s[pos - 1] == UNDERSCORE then pos else AfterUnderscore(s, pos - 1)
  }

  function OptionEnd(s: bytes, pos: nat): (r: nat)
    requires pos <= |s|
    ensures pos <= r <= |s|
    decreases |s| - pos
  {
    if pos < |s| && IsOptionChar(s[pos]) then OptionEnd(s, pos + 1) else pos
  }

  /** Further attributes: each an uppercase letter and any number of option characters. */
  predicate AttributesOk(s: bytes, pos: nat)
    requires pos <= |s|
    decreases |s| - pos
  {
    pos == |s| || (IsUpper(s[pos]) && AttributesOk(s, OptionEnd(s, pos + 1)))
  }

  datatype NameResult = NotSupported | Accepted(keyword: u64)

  /** What the decoder makes of a name, given the level in the event's header. */
  function ParseName(s: bytes, level: byte): NameResult {
    var pos := AfterUnderscore(s, |s|);
    if pos == 0 || pos == |s| || s[pos] != LEVEL_MARK then NotSupported
    else
      var (named, levelEnd) := HexRun(s, pos + 1, 0);
      if named != level || levelEnd == |s| || s[levelEnd] != KEYWORD_MARK then NotSupported
      else
        var (keyword, keywordEnd) := HexRun(s, levelEnd + 1, 0);
        if AttributesOk(s, keywordEnd) then Accepted(keyword) else NotSupported
  }

  function ProviderName(s: bytes): bytes {
    var pos := AfterUnderscore(s, |s|);
    if pos == 0 then s else s[..pos - 1]
  }

  /** The first attribute after the underscore that is neither level nor keyword, and all after it. */
  function OptionsFrom(s: bytes, pos: nat): bytes
    requires pos <= |s|
    decreases |s| - pos
  {
    if pos == |s| then []
    else if IsUpper(s[pos]) && s[pos] != LEVEL_MARK && s[pos] != KEYWORD_MARK then s[pos..]
    else OptionsFrom(s, pos + 1)
  }

  function Options(s: bytes): bytes {
    var pos := AfterUnderscore(s, |s|);
    if pos == 0 then [] else OptionsFrom(s, pos)
  }

  lemma {:induction false} FindsUnderscore(s: bytes, at: nat, pos: nat)
    requires at < pos <= |s| && s[at] == UNDERSCORE && forall i :: at < i < pos ==> s[i] != UNDERSCORE
    ensures AfterUnderscore(s, pos) == at + 1
  {
    if pos > at + 1 {
      FindsUnderscore(s, at, pos - 1);
    }
  }

  lemma {:induction false} FindsOptions(s: bytes, pos: nat, at: nat)
    requires pos <= at <= |s|
    requires forall i :: pos <= i < at ==> !IsUpper(s[i]) || s[i] == LEVEL_MARK || s[i] == KEYWORD_MARK
    requires at < |s| ==> IsUpper(s[at]) && s[at] != LEVEL_MARK && s[at] != KEYWORD_MARK
    ensures OptionsFrom(s, pos) == s[at..]
    decreases at - pos
  {
    if pos < at {
      FindsOptions(s, pos + 1, at);
    }
  }

  lemma {:induction false} OptionRuns(s: bytes, pos: nat)
    requires pos <= |s| && forall i :: pos <= i < |s| ==> IsOptionChar(s[i])
    ensures OptionEnd(s, pos) == |s|
    decreases |s| - pos
  {
    if pos < |s| {
      OptionRuns(s, pos + 1);
    }
  }

  /** Where the parts of a written name lie, and that no underscore follows the one before the level. */
  lemma NameLayout(provider: bytes, group: bytes, level: byte, keyword: u64)
    requires GroupNameOk(group)
    ensures var s := NameFor(provider, OptionsFor(group), level, keyword);
            var mark := |provider| + 1;
            var k := mark + 1 + |Hex(level)|;
            var end := k + 1 + |Hex(keyword)|;
            && end + |OptionsFor(group)| == |s|
            && s[..|provider|] == provider
            && s[mark - 1] == UNDERSCORE && s[mark] == LEVEL_MARK && s[k] == KEYWORD_MARK
            && At(s, mark + 1, Hex(level)) && At(s, k + 1, Hex(keyword))
            && s[end..] == OptionsFor(group)
  {
  }

  lemma NoMoreUnderscores(provider: bytes, group: bytes, level: byte, keyword: u64)
    requires GroupNameOk(group)
    ensures var s := NameFor(provider, OptionsFor(group), level, keyword);
            var mark := |provider| + 1;
            var end := mark + 2 + |Hex(level)| + |Hex(keyword)|;
            && end <= |s|
            && (forall i :: mark <= i < |s| ==> s[i] != UNDERSCORE)
            && (forall i :: mark <= i < end ==> !IsUpper(s[i]) || s[i] == LEVEL_MARK || s[i] == KEYWORD_MARK)
  {
    HexShape(level);
    HexShape(keyword);
  }

  /** Level and keyword are read back from where `NameLayout` puts them. */
  lemma AttributesRead(s: bytes, mark: nat, level: byte, keyword: u64)
    requires var k := mark + 1 + |Hex(level)|;
             var end := k + 1 + |Hex(keyword)|;
             && end <= |s|
             && s[k] == KEYWORD_MARK
             && At(s, mark + 1, Hex(level)) && At(s, k + 1, Hex(keyword))
             && (end < |s| ==> s[end] == GROUP_MARK)
    ensures var k := mark + 1 + |Hex(level)|;
            && HexRun(s, mark + 1, 0) == (level, k)
            && HexRun(s, k + 1, 0) == (keyword, k + 1 + |Hex(keyword)|)
  {
    hide Hex, HexRun;
    HexReads(s, mark + 1, level);
    HexReads(s, mark + 2 + |Hex(level)|, keyword);
  }

  /**
   * Every name that a provider can be registered under is accepted with exactly its own level, and
   * gives back its keyword, provider name and options, underscores in the provider name or not.
   */
  lemma NameRoundTrip(provider: bytes, group: bytes, level: byte, keyword: u64, headerLevel: byte)
    requires ProviderOk(provider, group)
    ensures var s := NameFor(provider, OptionsFor(group), level, keyword);
            && |s| < NAME_MAX
            && ParseName(s, headerLevel) == (if headerLevel == level then Accepted(keyword) else NotSupported)
            && ProviderName(s) == provider
            && Options(s) == OptionsFor(group)
  {
    hide Hex, HexRun, NameFor, AttributesOk, ProviderNameOk, OptionsFrom, At;
    var s := NameFor(provider, OptionsFor(group), level, keyword);
    var mark := |provider| + 1;
    var end := mark + 2 + |Hex(level)| + |Hex(keyword)|;
    CommandFits(provider, group, level, keyword);
    NameLayout(provider, group, level, keyword);
    NoMoreUnderscores(provider, group, level, keyword);
    FindsUnderscore(s, mark - 1, |s|);
    GroupAccepted(s, end, group);
    AttributesRead(s, mark, level, keyword);
    FindsOptions(s, mark, end);
  }

  lemma GroupAccepted(s: bytes, pos: nat, group: bytes)
    requires pos <= |s| && s[pos..] == OptionsFor(group) && GroupNameOk(group)
    ensures AttributesOk(s, pos)
    ensures pos < |s| ==> s[pos] == GROUP_MARK
  {
    if pos < |s| {
      assert s[pos] == s[pos..][0];
      forall i | pos + 1 <= i < |s| ensures IsOptionChar(s[i]) {
        assert s[i] == s[pos..][i - pos];
      }
      OptionRuns(s, pos + 1);
    }
  }
}
