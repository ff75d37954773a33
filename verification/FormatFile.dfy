/**
 * The tracefs "format" file: its parser and its printer, and for which formats the text that is
 * printed for them is parsed to the same format.
 */
module FormatFile {
  import opened FormatText
  import opened Wrappers

  type u16 = x: int | 0 <= x < 65536

  /** A line of the "format:" section; everything else about a field is computed from these. */
  datatype Field = Field(text: string, offset: u16, size: u16, isSigned: Option<bool>)

  datatype EventFormat = EventFormat(
    name: string,
    printFmt: string,
    fields: seq<Field>,
    id: u32,
    commonCount: u16,
    commonSize: u16,
    isEventHeader: bool)

  datatype ParseResult = NoFormat | Parsed(format: EventFormat) | Panics

  // ---- field lines ----

  datatype FieldState = FieldState(text: string, offset: Option<u16>, size: Option<u16>, isSigned: Option<bool>)

  const NO_FIELD := FieldState("", None, None, None)

  function ToU16(v: Option<u32>): Option<u16> {
    if v.None? then None else Some(v.value % 65536)
  }

  /** One ` NAME: VALUE;` of a line. A number counts only where a semicolon ends it. */
  function WithProperty(st: FieldState, name: string, value: string, ended: bool): FieldState {
    if name == "field" || name == "field special" then st.(text := value)
    else if name == "offset" && ended then st.(offset := ToU16(AsciiToU32(value)))
    else if name == "size" && ended then st.(size := ToU16(AsciiToU32(value)))
    else if name == "signed" && ended then
      st.(isSigned := if AsciiToU32(value).None? then None else Some(AsciiToU32(value).value != 0))
    else st
  }

  /** A ` NAME: VALUE` cut from a text, or a line without one, or nothing. */
  datatype Piece = NoPiece | Skipped(rest: string) | Piece(name: string, value: string, rest: string)

  function FieldPiece(t: string): (r: Piece)
    ensures !r.Skipped? && (r.Piece? ==> |r.rest| < |t|)
  {
    var t1 := t[Span(t, IsSpaceOrSemicolon)..];
    var colon := Span(t1, NotColon);
    if colon == |t1| then NoPiece
    else
      var t2 := t1[colon + 1..];
      var t3 := t2[Span(t2, IsSpace)..];
      var end := Span(t3, NotSemicolon);
      Piece(t1[..colon], t3[..end], t3[end..])
  }

  function FieldProperties(t: string, st: FieldState): FieldState
    decreases |t|
  {
    match FieldPiece(t)
    case Piece(name, value, rest) => FieldProperties(rest, WithProperty(st, name, value, rest != ""))
    case _ => st
  }

  function FieldOf(st: FieldState): Option<Field> {
    if st.offset.Some? && st.size.Some? && st.text != "" then
      Some(Field(st.text, st.offset.value, st.size.value, st.isSigned))
    else None
  }

  function ParseField(line: string): Option<Field> { FieldOf(FieldProperties(line, NO_FIELD)) }

  method CutField(t: string) returns (r: Piece)
    ensures r == FieldPiece(t)
  {
    hide Span;
    var n := ScanWhile(t, IsSpaceOrSemicolon);
    var t1 := t[n..];
    var colon := ScanWhile(t1, NotColon);
    if colon >= |t1| {
      return NoPiece;
    }
    var t2 := t1[colon + 1..];
    n := ScanWhile(t2, IsSpace);
    var t3 := t2[n..];
    var end := ScanWhile(t3, NotSemicolon);
    r := Piece(t1[..colon], t3[..end], t3[end..]);
  }

  method ReadField(line: string) returns (r: Option<Field>)
    ensures r == ParseField(line)
  {
    hide FieldPiece, WithProperty;
    var st := NO_FIELD;
    var rest := line;
    while rest != ""
      invariant FieldProperties(line, NO_FIELD) == FieldProperties(rest, st)
      decreases |rest|
    {
      var piece := CutField(rest);
      if piece.NoPiece? {
        return FieldOf(st);
      }
      st := WithProperty(st, piece.name, piece.value, piece.rest != "");
      rest := piece.rest;
    }
    NoMoreProperties(rest, st);
    return FieldOf(st);
  }

  lemma NoMoreProperties(t: string, st: FieldState)
    requires t == ""
    ensures FieldProperties(t, st) == st
  {
  }

  // ---- the file ----

  datatype FormatState = FormatState(name: string, printFmt: string, fields: seq<Field>, id: Option<u32>,
      commonCount: u16)

  const NO_FORMAT := FormatState("", "", [], None, 0)

  /** The next line of a text that is at the end of a line, and what follows it. */
  function NextLine(t: string): (r: (string, string))
    requires t != ""
    ensures |r.1| < |t|
  {
    var t1 := if |t| >= 2 && t[0] == '\r' && t[1] == '\n' then t[2..] else t[1..];
    var n := Span(t1, NotEol);
    (t1[..n], t1[n..])
  }

  /** The section after "format:", `t` being at the end of a line: fields, common count, and what follows. */
  function Section(t: string, fields: seq<Field>, commonCount: u16, common: bool): (r: (seq<Field>, u16, string))
    ensures |r.2| <= |t|
    decreases |t|
  {
    if t == "" then (fields, commonCount, t)
    else
      var (line, rest) := NextLine(t);
      if line == "" then
        if common then Section(rest, fields, commonCount, false) else (fields, commonCount, rest)
      else
        match ParseField(line)
        case Some(f) => Section(rest, fields + [f], if common then (commonCount + 1) % 65536 else commonCount, common)
        case None => Section(rest, fields, commonCount, common)
  }

  /** A property whose value has been read, `rest` being what follows it. */
  function WithLine(st: FormatState, property: string, value: string, rest: string): (r: (FormatState, string))
    ensures |r.1| <= |rest|
  {
    if property == "name" then (st.(name := value), rest)
    else if property == "ID" && rest != "" then (st.(id := AsciiToU32(value)), rest)
    else if property == "print fmt" then (st.(printFmt := value), rest)
    else if property == "format" then
      var (fields, commonCount, rest') := Section(rest, [], st.commonCount, true);
      (st.(fields := fields, commonCount := commonCount), rest')
    else (st, rest)
  }

  function PropertyPiece(t: string): (r: Piece)
    ensures !r.NoPiece? ==> |r.rest| < |t|
  {
    var t1 := t[Span(t, IsEol)..];
    var t2 := t1[Span(t1, IsSpace)..];
    var n := Span(t2, NotColonNorEol);
    if n == |t2| then NoPiece
    else if IsEol(t2[n]) then
      ColonOrProgress(t);
      Skipped(t2[n..])
    else
      var t3 := t2[n + 1..];
      var t4 := t3[Span(t3, IsSpace)..];
      var end := ValueLength(t4);
      Piece(t2[..n], t4[..end], t4[end..])
  }

  function Properties(t: string, st: FormatState): FormatState
    decreases |t|
  {
    match PropertyPiece(t)
    case NoPiece => st
    case Skipped(rest) => Properties(rest, st)
    case Piece(name, value, rest) =>
      var (st', rest') := WithLine(st, name, value, rest);
      Properties(rest', st')
  }

  lemma ColonOrProgress(t: string)
    ensures var t1 := t[Span(t, IsEol)..];
            var t2 := t1[Span(t1, IsSpace)..];
            var n := Span(t2, NotColonNorEol);
            n < |t2| && IsEol(t2[n]) ==> |t2[n..]| < |t|
  {
    var t1 := t[Span(t, IsEol)..];
    var t2 := t1[Span(t1, IsSpace)..];
    var n := Span(t2, NotColonNorEol);
    if n < |t2| && IsEol(t2[n]) && |t2| == |t| {
      assert t2 == t1 == t;
    }
  }

  /** Where the last common field ends, in 16 bits. */
  function CommonSize(fields: seq<Field>, commonCount: u16): u16
    requires commonCount <= |fields|
  {
    if commonCount == 0 then 0
    else (fields[commonCount - 1].offset + fields[commonCount - 1].size) % 65536
  }

  /** `nameOf` is the name that a field's declaration gives it. */
  function FormatOf(st: FormatState, nameOf: Field -> string): ParseResult {
    if st.id.None? || st.name == "" then NoFormat
    else if st.commonCount > |st.fields| then Panics
    else
      Parsed(EventFormat(st.name, st.printFmt, st.fields, st.id.value, st.commonCount,
                         CommonSize(st.fields, st.commonCount),
                         |st.fields| > st.commonCount && nameOf(st.fields[st.commonCount]) == "eventheader_flags"))
  }

  function Parse(t: string, nameOf: Field -> string): ParseResult { FormatOf(Properties(t, NO_FORMAT), nameOf) }

  method CutLine(t: string) returns (line: string, rest: string)
    requires t != ""
    ensures (line, rest) == NextLine(t)
  {
    hide Span;
    var t1 := t[(if |t| >= 2 && t[0] == '\r' && t[1] == '\n' then 2 else 1)..];
    var n := ScanWhile(t1, NotEol);
    line, rest := t1[..n], t1[n..];
  }

  method ReadSection(t: string, commonCount: u16) returns (fields: seq<Field>, count: u16, rest: string)
    ensures (fields, count, rest) == Section(t, [], commonCount, true)
  {
    hide NextLine, ParseField;
    fields, count, rest := [], commonCount, t;
    var common := true;
    while rest != ""
      invariant Section(t, [], commonCount, true) == Section(rest, fields, count, common)
      decreases |rest|
    {
      var line;
      line, rest := CutLine(rest);
      if line == "" {
        if common {
          common := false;
        } else {
          return;
        }
      } else {
        var field := ReadField(line);
        if field.Some? {
          fields := fields + [field.value];
          if common {
            count := (count + 1) % 65536;
          }
        }
      }
    }
  }

  method CutProperty(t: string) returns (r: Piece)
    ensures r == PropertyPiece(t)
  {
    hide Span, ValueLength;
    var n := ScanWhile(t, IsEol);
    var t1 := t[n..];
    n := ScanWhile(t1, IsSpace);
    var t2 := t1[n..];
    n := ScanWhile(t2, NotColonNorEol);
    if n >= |t2| {
      return NoPiece;
    }
    if IsEol(t2[n]) {
      return Skipped(t2[n..]);
    }
    var t3 := t2[n + 1..];
    var spaces := ScanWhile(t3, IsSpace);
    var t4 := t3[spaces..];
    var end := ScanValue(t4);
    r := Piece(t2[..n], t4[..end], t4[end..]);
  }

  method ReadProperties(t: string) returns (st: FormatState)
    ensures st == Properties(t, NO_FORMAT)
  {
    hide PropertyPiece, WithLine;
    st := NO_FORMAT;
    var rest := t;
    while rest != ""
      invariant Properties(t, NO_FORMAT) == Properties(rest, st)
      decreases |rest|
    {
      var piece := CutProperty(rest);
      match piece
      case NoPiece => return;
      case Skipped(next) => rest := next;
      case Piece(name, value, next) => st, rest := ReadLine(next, st, name, value);
    }
    NoProperties(rest, st);
  }

  lemma NoProperties(t: string, st: FormatState)
    requires t == ""
    ensures Properties(t, st) == st
  {
  }

  method ReadLine(next: string, before: FormatState, property: string, value: string)
    returns (st: FormatState, rest: string)
    ensures (st, rest) == WithLine(before, property, value, next)
  {
    hide Section, AsciiToU32;
    st, rest := before, next;
    if property == "name" {
      st := st.(name := value);
    } else if property == "ID" && next != "" {
      var id := ReadU32(value);
      st := st.(id := id);
    } else if property == "print fmt" {
      st := st.(printFmt := value);
    } else if property == "format" {
      var fields, count;
      fields, count, rest := ReadSection(next, st.commonCount);
      st := st.(fields := fields, commonCount := count);
    }
  }

  /** `PerfEventFormat::parse` */
  method ParseFormat(t: string, nameOf: Field -> string) returns (r: ParseResult)
    ensures r == Parse(t, nameOf)
  {
    var st := ReadProperties(t);
    r := FormatOf(st, nameOf);
  }

  // ---- printing ----

  function SignedText(isSigned: Option<bool>): string {
    if isSigned.None? then ";" else ";\t" + "signed" + ":" + (if isSigned.value then "1" else "0") + ";"
  }

  /** A field's line. */
  function LineText(f: Field): string {
    "\t" + "field" + ":" + f.text
    + (";\t" + "offset" + ":" + Dec(f.offset) + (";\t" + "size" + ":" + Dec(f.size) + SignedText(f.isSigned)))
  }

  /** The field lines, with a blank line after the last common one. */
  function Lines(fields: seq<Field>, commonLeft: nat): string {
    if fields == [] then ""
    else
      LineText(fields[0]) + "\n" + (if commonLeft == 1 then "\n" else "")
      + Lines(fields[1..], if commonLeft == 0 then 0 else commonLeft - 1)
  }

  function PropertyText(gap: string, name: string, space: string, value: string, rest: string): string {
    gap + (name + (":" + (space + (value + rest))))
  }

  function PrintFmtText(printFmt: string): string { PropertyText("\n", "print fmt", " ", printFmt, "\n") }

  /** A section from the line break before these fields on. */
  function RestText(fields: seq<Field>, left: nat, printFmt: string): (s: string)
    ensures s != "" && IsEol(s[0])
  {
    "\n" + Lines(fields, left) + PrintFmtText(printFmt)
  }

  function SectionText(f: EventFormat): string { RestText(f.fields, f.commonCount, f.printFmt) }

  function AfterNameText(f: EventFormat): string {
    PropertyText("\n", "ID", " ", Dec(f.id), PropertyText("\n", "format", "", "", SectionText(f)))
  }

  function Print(f: EventFormat): string { PropertyText("", "name", " ", f.name, AfterNameText(f)) }

  /** `write_to`, one `write!` after the other. */
  method WriteTo(f: EventFormat) returns (s: string)
    ensures s == Print(f)
  {
    hide LineText, Lines, Dec;
    s := "name: " + f.name + "\n";
    s := s + "ID: " + Dec(f.id) + "\n";
    s := s + "format:\n";
    ghost var head := s;
    LinesNone(f.fields, f.commonCount);
    for i := 0 to |f.fields|
      invariant s + Lines(f.fields[i..], if f.commonCount >= i then f.commonCount - i else 0)
             == head + Lines(f.fields, f.commonCount)
    {
      LinesHere(f.fields, i, f.commonCount);
      ghost var before := s;
      s := WriteField(s, f.fields[i]);
      if i + 1 == f.commonCount {
        s := s + "\n";
      }
      WrittenSoFar(before, LineText(f.fields[i]), i + 1 == f.commonCount,
                   Lines(f.fields[i + 1..], if f.commonCount >= i + 1 then f.commonCount - i - 1 else 0));
    }
    LinesNone(f.fields, f.commonCount);
    s := s + "\nprint fmt: " + f.printFmt + "\n";
    PrintParts(f);
  }

  method WriteField(start: string, f: Field) returns (s: string)
    ensures s == start + (LineText(f) + "\n")
  {
    hide Dec, LineText;
    s := start;
    s := s + ("\tfield:" + f.text + ";\toffset:" + Dec(f.offset) + ";\tsize:" + Dec(f.size) + ";");
    if f.isSigned.Some? {
      s := s + ("\tsigned:" + (if f.isSigned.value then "1" else "0") + ";\n");
    } else {
      s := s + "\n";
    }
    LineParts(f);
  }

  lemma LineParts(f: Field)
    ensures LineText(f) + "\n"
         == "\tfield:" + f.text + ";\toffset:" + Dec(f.offset) + ";\tsize:" + Dec(f.size) + ";"
            + (if f.isSigned.Some? then "\tsigned:" + (if f.isSigned.value then "1" else "0") + ";\n" else "\n")
  {
    hide Dec, SignedText;
    var signed := if f.isSigned.Some? then "\tsigned:" + (if f.isSigned.value then "1" else "0") + ";\n" else "\n";
    assert "\t" + "field" + ":" == "\tfield:";
    assert ";\t" + "offset" + ":" == ";\toffset:";
    assert ";\t" + "size" + ":" == ";\tsize:";
    SignedParts(f.isSigned);
    Regrouped("\tfield:", f.text, ";\toffset:", Dec(f.offset), ";\tsize:", Dec(f.size), SignedText(f.isSigned), "\n",
              ";", signed);
  }

  lemma Regrouped(a: string, b: string, c: string, d: string, e: string, f: string, g: string, h: string,
                  g': string, h': string)
    requires g + h == g' + h'
    ensures a + b + (c + d + (e + f + g)) + h == a + b + c + d + e + f + g' + h'
  {
    assert a + b + (c + d + (e + f + g)) + h == a + b + c + d + e + f + (g + h);
  }

  lemma SignedParts(isSigned: Option<bool>)
    ensures SignedText(isSigned) + "\n"
         == ";" + (if isSigned.Some? then "\tsigned:" + (if isSigned.value then "1" else "0") + ";\n" else "\n")
  {
  }

  lemma WrittenSoFar(before: string, line: string, blank: bool, rest: string)
    ensures before + (line + "\n" + (if blank then "\n" else "") + rest)
         == before + (line + "\n") + (if blank then "\n" else "") + rest
  {
  }

  lemma LinesNone(fields: seq<Field>, commonCount: nat)
    ensures fields[0..] == fields && (forall n: nat :: Lines(fields[|fields|..], n) == "")
  {
  }

  lemma LinesHere(fields: seq<Field>, i: nat, commonCount: nat)
    requires i < |fields|
    ensures Lines(fields[i..], if commonCount >= i then commonCount - i else 0)
         == LineText(fields[i]) + "\n" + (if i + 1 == commonCount then "\n" else "")
            + Lines(fields[i + 1..], if commonCount >= i + 1 then commonCount - i - 1 else 0)
  {
    hide LineText;
    assert fields[i..][1..] == fields[i + 1..];
  }

  lemma PropertyJoined(gap: string, name: string, space: string, value: string, rest: string, head: string)
    requires head == gap + name + ":" + space
    ensures PropertyText(gap, name, space, value, rest) == head + value + rest
  {
    assert gap + (name + (":" + (space + (value + rest)))) == gap + name + ":" + space + value + rest;
  }

  lemma PrintParts(f: EventFormat)
    ensures Print(f)
         == "name: " + f.name + "\n" + "ID: " + Dec(f.id) + "\n" + "format:\n" + Lines(f.fields, f.commonCount)
            + "\nprint fmt: " + f.printFmt + "\n"
  {
    hide Lines, Dec, PropertyText;
    var id, lines := Dec(f.id), Lines(f.fields, f.commonCount);
    PropertyJoined("\n", "print fmt", " ", f.printFmt, "\n", "\nprint fmt: ");
    PropertyJoined("\n", "format", "", "", SectionText(f), "\nformat:");
    PropertyJoined("\n", "ID", " ", id, PropertyText("\n", "format", "", "", SectionText(f)), "\nID: ");
    PropertyJoined("", "name", " ", f.name, AfterNameText(f), "name: ");
    PartsJoined(f.name, id, lines, "\nprint fmt: ", f.printFmt);
  }

  lemma PartsJoined(name: string, id: string, lines: string, mark: string, printFmt: string)
    ensures "name: " + name + ("\nID: " + id + ("\nformat:" + "" + ("\n" + lines + (mark + printFmt + "\n"))))
         == "name: " + name + "\n" + "ID: " + id + "\n" + "format:\n" + lines + mark + printFmt + "\n"
  {
    assert "\nID: " == "\n" + "ID: ";
    assert "\nformat:" + "" + "\n" == "\n" + "format:\n";
    var tail := lines + mark + printFmt + "\n";
    assert "\n" + lines + (mark + printFmt + "\n") == "\n" + tail;
  }

  // ---- reading what was printed ----

  /** No space in front. */
  predicate TextOk(s: string) { s == "" || !IsSpace(s[0]) }

  /** A property's value as the parser finds it: cut off where it ends. */
  predicate ValueOk(s: string) { TextOk(s) && ValueLength(s) == |s| }

  ghost predicate FieldOk(f: Field) {
    f.text != "" && TextOk(f.text) && All(f.text, NotSemicolon) && All(f.text, NotEol)
  }

  lemma FieldPieceReads(gap: string, name: string, value: string, rest: string)
    requires All(gap, IsSpaceOrSemicolon)
    requires name != "" && All(name, NotColon) && !IsSpaceOrSemicolon(name[0])
    requires value != "" && TextOk(value) && All(value, NotSemicolon)
    requires rest != "" && rest[0] == ';'
    ensures FieldPiece(gap + name + ":" + value + rest) == Piece(name, value, rest)
  {
    hide Span;
    var t := gap + name + ":" + value + rest;
    assert t == gap + (name + ":" + value + rest);
    SpanIs(gap, name + ":" + value + rest, IsSpaceOrSemicolon);
    var t1 := name + ":" + value + rest;
    assert t[|gap|..] == t1;
    assert t1 == name + (":" + value + rest);
    SpanIs(name, ":" + value + rest, NotColon);
    var t2 := value + rest;
    assert t1[|name| + 1..] == t2;
    assert t2 == "" + t2;
    SpanIs("", t2, IsSpace);
    SpanIs(value, rest, NotSemicolon);
    assert t2[0..] == t2;
  }

  lemma DecPlain(n: nat)
    ensures Dec(n) != "" && TextOk(Dec(n)) && All(Dec(n), NotSemicolon) && All(Dec(n), NotEol) && Balanced(Dec(n))
  {
    PlainBalanced(Dec(n));
  }

  lemma {:induction false} PlainBalanced(s: string)
    requires forall i :: 0 <= i < |s| ==> s[i] != '"' && !IsEol(s[i])
    ensures Balanced(s)
  {
    if s != "" {
      PlainBalanced(s[1..]);
    }
  }

  /** The end of a line holds no more properties. */
  lemma LineEnds(st: FieldState)
    ensures FieldProperties(";", st) == st
  {
    assert ";" == ";" + "";
    SpanIs(";", "", IsSpaceOrSemicolon);
    assert ";"[1..] == "";
  }

  lemma SignedReads(st: FieldState, isSigned: Option<bool>)
    requires st.isSigned == None
    ensures FieldProperties(SignedText(isSigned), st) == st.(isSigned := isSigned)
    ensures SignedText(isSigned) != "" && SignedText(isSigned)[0] == ';'
  {
    hide FieldPiece, FieldProperties, AsciiToU32, Dec;
    LineEnds(st);
    if isSigned.Some? {
      var v := if isSigned.value then "1" else "0";
      FieldPieceReads(";\t", "signed", v, ";");
      OneDigit();
      DecReads(if isSigned.value then 1 else 0);
      PieceTaken(SignedText(isSigned), "signed", v, ";", st);
      LineEnds(st.(isSigned := isSigned));
    }
  }

  lemma OneDigit()
    ensures Dec(0) == "0" && Dec(1) == "1"
  {
  }

  lemma PieceTaken(t: string, name: string, value: string, rest: string, st: FieldState)
    requires FieldPiece(t) == Piece(name, value, rest)
    ensures FieldProperties(t, st) == FieldProperties(rest, WithProperty(st, name, value, rest != ""))
  {
    hide FieldPiece, WithProperty;
  }

  /** A printed line is read back as the field it was printed for. */
  lemma LineReads(f: Field)
    requires FieldOk(f)
    ensures ParseField(LineText(f)) == Some(f)
  {
    hide FieldPiece, FieldProperties, AsciiToU32, Dec, SignedText, All, TextOk;
    var tail := SignedText(f.isSigned);
    var sizePart := ";\t" + "size" + ":" + Dec(f.size) + tail;
    var offsetPart := ";\t" + "offset" + ":" + Dec(f.offset) + sizePart;
    var st1 := NO_FIELD.(text := f.text);
    var st2 := st1.(offset := Some(f.offset));
    var st3 := st2.(size := Some(f.size));
    SignedReads(st3, f.isSigned);
    DecPlain(f.offset);
    DecPlain(f.size);
    DecReads(f.offset);
    DecReads(f.size);
    NamesPlain();
    FieldPieceReads("\t", "field", f.text, offsetPart);
    FieldPieceReads(";\t", "offset", Dec(f.offset), sizePart);
    FieldPieceReads(";\t", "size", Dec(f.size), tail);
    PieceTaken(LineText(f), "field", f.text, offsetPart, NO_FIELD);
    PieceTaken(offsetPart, "offset", Dec(f.offset), sizePart, st1);
    PieceTaken(sizePart, "size", Dec(f.size), tail, st2);
  }

  lemma NamesPlain()
    ensures All("\t", IsSpaceOrSemicolon) && All(";\t", IsSpaceOrSemicolon)
    ensures All("field", NotColon) && All("offset", NotColon) && All("size", NotColon)
  {
  }

  lemma LineIsOneLine(f: Field)
    requires FieldOk(f)
    ensures All(LineText(f), NotEol) && LineText(f) != ""
  {
    DecPlain(f.offset);
    DecPlain(f.size);
    hide Dec;
    SignedIsOneLine(f.isSigned);
    hide SignedText;
    assert All("\t" + "field" + ":" + f.text, NotEol);
    assert All(";\t" + "size" + ":" + Dec(f.size) + SignedText(f.isSigned), NotEol);
    assert All(";\t" + "offset" + ":" + Dec(f.offset), NotEol);
  }

  lemma SignedIsOneLine(isSigned: Option<bool>)
    ensures All(SignedText(isSigned), NotEol)
  {
  }

  lemma NextLineReads(line: string, rest: string)
    requires All(line, NotEol) && rest != "" && IsEol(rest[0])
    ensures NextLine("\n" + line + rest) == (line, rest)
  {
    hide Span;
    var t := "\n" + line + rest;
    assert t[1..] == line + rest;
    SpanIs(line, rest, NotEol);
  }

  /** The section reads back all lines, and tells the common fields by the blank line after them. */
  lemma {:induction false} SectionReads(fields: seq<Field>, left: nat, done: seq<Field>, count: u16, tail: string)
    requires (forall f :: f in fields ==> FieldOk(f)) && left <= |fields| && count + left < 65536
    requires |tail| > 1 && tail[0] == '\n'
    ensures Section("\n" + Lines(fields, left) + tail, done, count, left > 0) == (done + fields, count + left, tail)
    decreases |fields|
  {
    hide LineText, NextLine, ParseField, FieldOk;
    var t := "\n" + Lines(fields, left) + tail;
    if fields == [] {
      assert t == "\n" + "" + tail;
      NextLineReads("", tail);
      assert done + fields == done;
    } else {
      var f := fields[0];
      LineReads(f);
      LineIsOneLine(f);
      var left' := if left == 0 then 0 else left - 1;
      var after := "\n" + Lines(fields[1..], left') + tail;
      var rest := (if left == 1 then "\n" else "") + after;
      assert t == "\n" + LineText(f) + rest;
      NextLineReads(LineText(f), rest);
      if left == 1 {
        assert rest == "\n" + "" + after;
        NextLineReads("", after);
      } else {
        assert rest == after;
      }
      SectionReads(fields[1..], left', done + [f], if left > 0 then count + 1 else count, tail);
      assert done + [f] + fields[1..] == done + fields;
    }
  }

  lemma PropertyPieceIs(t: string, t1: string, t2: string, n: nat, t3: string, t4: string)
    requires t1 == t[Span(t, IsEol)..] && t2 == t1[Span(t1, IsSpace)..] && n == Span(t2, NotColonNorEol) < |t2|
    requires t2[n] == ':' && t3 == t2[n + 1..] && t4 == t3[Span(t3, IsSpace)..]
    ensures PropertyPiece(t) == Piece(t2[..n], t4[..ValueLength(t4)], t4[ValueLength(t4)..])
  {
    hide ValueLength, Span;
  }

  lemma AfterName(name: string, t3: string)
    ensures (name + (":" + t3))[|name| + 1..] == t3
    ensures "" + (name + (":" + t3)) == name + (":" + t3)
    ensures |name| < |name + (":" + t3)| && (name + (":" + t3))[|name|] == ':'
    ensures name != "" ==> (name + (":" + t3))[0] == name[0]
    ensures (name + (":" + t3))[..|name|] == name
  {
  }

  /** The name is cut off as printed, whatever the value. */
  lemma IndentedPieceReads(gap: string, indent: string, name: string, space: string, t4: string)
    requires All(gap, IsEol) && All(indent, IsSpace)
    requires name != "" && All(name, NotColonNorEol) && !IsSpace(name[0])
    requires All(space, IsSpace) && TextOk(t4)
    ensures PropertyPiece(gap + (indent + (name + (":" + (space + t4)))))
         == Piece(name, t4[..ValueLength(t4)], t4[ValueLength(t4)..])
  {
    assert NotColonNorEol(name[0]);
    assert indent != "" ==> IsSpace(indent[0]) && !IsEol(indent[0]);
    assert indent + (name + (":" + (space + t4))) != "";
    assert !IsEol((indent + (name + (":" + (space + t4))))[0]);
    hide Span, ValueLength, PropertyPiece, All;
    var t3 := space + t4;
    var t2 := name + (":" + t3);
    AfterName(name, t3);
    SpanCuts(gap, indent + t2, IsEol);
    SpanCuts(indent, t2, IsSpace);
    SpanCuts(name, ":" + t3, NotColonNorEol);
    SpanCuts(space, t4, IsSpace);
    PropertyPieceIs(gap + (indent + t2), indent + t2, t2, |name|, t3, t4);
  }

  lemma ValuePieceReads(gap: string, name: string, space: string, t4: string)
    requires All(gap, IsEol)
    requires name != "" && All(name, NotColonNorEol) && !IsSpace(name[0])
    requires All(space, IsSpace) && TextOk(t4)
    ensures PropertyPiece(gap + (name + (":" + (space + t4))))
         == Piece(name, t4[..ValueLength(t4)], t4[ValueLength(t4)..])
  {
    NoneOf(IsSpace);
    hide PropertyPiece, ValueLength, All;
    IndentedPieceReads(gap, "", name, space, t4);
    assert "" + (name + (":" + (space + t4))) == name + (":" + (space + t4));
  }

  lemma NoneOf(p: char -> bool)
    ensures All("", p)
  {
  }

  lemma PropertyPieceReads(gap: string, name: string, space: string, value: string, rest: string)
    requires All(gap, IsEol)
    requires name != "" && All(name, NotColonNorEol) && !IsSpace(name[0])
    requires All(space, IsSpace) && TextOk(value) && Balanced(value)
    requires rest != "" && IsEol(rest[0])
    ensures PropertyPiece(PropertyText(gap, name, space, value, rest)) == Piece(name, value, rest)
  {
    BalancedLength(value, rest);
    hide PropertyPiece, Balanced, ValueLength, All;
    ValuePieceReads(gap, name, space, value + rest);
    assert (value + rest)[..|value|] == value && (value + rest)[|value|..] == rest;
  }

  lemma PropertyTaken(t: string, name: string, value: string, rest: string, st: FormatState)
    requires PropertyPiece(t) == Piece(name, value, rest)
    ensures var (st', rest') := WithLine(st, name, value, rest);
            Properties(t, st) == Properties(rest', st')
  {
    hide PropertyPiece, WithLine;
  }

  /** What every parsed format satisfies. */
  ghost predicate FormatOk(f: EventFormat) {
    && f.name != "" && ValueOk(f.name) && ValueOk(f.printFmt)
    && (forall g :: g in f.fields ==> FieldOk(g))
    && f.commonCount <= |f.fields|
  }

  lemma PropertyNames()
    ensures All("", IsEol) && All("\n", IsEol) && All("", IsSpace) && All(" ", IsSpace)
    ensures All("name", NotColonNorEol) && All("ID", NotColonNorEol) && All("format", NotColonNorEol)
    ensures All("print fmt", NotColonNorEol)
  {
  }

  lemma TextsStart(f: EventFormat)
    ensures AfterNameText(f) != "" && AfterNameText(f)[0] == '\n'
    ensures SectionText(f) != "" && SectionText(f)[0] == '\n'
    ensures PropertyText("\n", "format", "", "", SectionText(f))[0] == '\n'
    ensures |PrintFmtText(f.printFmt)| > 1 && PrintFmtText(f.printFmt)[0] == '\n'
  {
    hide Lines, Dec;
  }

  lemma LastNewline(st: FormatState)
    ensures Properties("\n", st) == st
  {
    assert "\n" == "\n" + "";
    SpanCuts("\n", "", IsEol);
  }

  /** The properties read back from a printed format, down to its section. */
  lemma SectionReached(f: EventFormat)
    requires FormatOk(f) && Balanced(f.name)
    ensures var (fields, count, rest) := Section(SectionText(f), [], 0, true);
            Properties(Print(f), NO_FORMAT) == Properties(rest, FormatState(f.name, "", fields, Some(f.id), count))
  {
    hide PropertyPiece, Properties, Section, AsciiToU32, Dec, Balanced, All, Lines, FieldOk, ValueLength;
    var st1 := NO_FORMAT.(name := f.name);
    var st2 := st1.(id := Some(f.id));
    var afterId := PropertyText("\n", "format", "", "", SectionText(f));
    PropertyNames();
    NothingBalanced();
    TextsStart(f);
    DecPlain(f.id);
    DecReads(f.id);
    hide PropertyText, AfterNameText, SectionText, PrintFmtText;
    PropertyPieceReads("", "name", " ", f.name, AfterNameText(f));
    PropertyTaken(Print(f), "name", f.name, AfterNameText(f), NO_FORMAT);
    PropertyPieceReads("\n", "ID", " ", Dec(f.id), afterId);
    AfterNameIs(f);
    PropertyTaken(AfterNameText(f), "ID", Dec(f.id), afterId, st1);
    PropertyPieceReads("\n", "format", "", "", SectionText(f));
    PropertyTaken(afterId, "format", "", SectionText(f), st2);
  }

  /** And down to the print format. */
  lemma PropertiesRead(f: EventFormat)
    requires FormatOk(f) && f.commonCount > 0 && Balanced(f.name)
    ensures Properties(Print(f), NO_FORMAT)
         == Properties(PrintFmtText(f.printFmt), FormatState(f.name, "", f.fields, Some(f.id), f.commonCount))
  {
    hide Properties, Section, Print, Balanced, Lines, FieldOk, ValueLength;
    TextsStart(f);
    hide SectionText, PrintFmtText;
    SectionReached(f);
    SectionReads(f.fields, f.commonCount, [], 0, PrintFmtText(f.printFmt));
    SectionIs(f);
    assert [] + f.fields == f.fields;
  }

  /** The print format is read back exactly if its quotes are balanced. */
  lemma PrintFmtReads(printFmt: string, st: FormatState)
    requires ValueOk(printFmt)
    ensures Properties(PrintFmtText(printFmt), st).name == st.name
    ensures Balanced(printFmt) ==> Properties(PrintFmtText(printFmt), st) == st.(printFmt := printFmt)
    ensures !Balanced(printFmt) ==> Properties(PrintFmtText(printFmt), st).printFmt != printFmt
  {
    hide PropertyPiece, Properties, Balanced, All;
    PropertyNames();
    if Balanced(printFmt) {
      PropertyPieceReads("\n", "print fmt", " ", printFmt, "\n");
      PropertyTaken(PrintFmtText(printFmt), "print fmt", printFmt, "\n", st);
      LastNewline(st.(printFmt := printFmt));
    } else {
      UnbalancedLength(printFmt, "\n", "");
      var t := printFmt + "\n";
      assert "\n" + "" == "\n";
      ValuePieceReads("\n", "print fmt", " ", t);
      var value := t[..ValueLength(t)];
      assert |value| == |printFmt| + 1;
      PropertyTaken(PrintFmtText(printFmt), "print fmt", value, t[ValueLength(t)..], st);
      NoProperties(t[ValueLength(t)..], st.(printFmt := value));
    }
  }

  lemma NothingBalanced()
    ensures Balanced("")
  {
  }

  lemma AfterNameIs(f: EventFormat)
    ensures AfterNameText(f)
         == PropertyText("\n", "ID", " ", Dec(f.id), PropertyText("\n", "format", "", "", SectionText(f)))
  {
  }

  lemma SectionIs(f: EventFormat)
    ensures SectionText(f) == "\n" + Lines(f.fields, f.commonCount) + PrintFmtText(f.printFmt)
  {
  }

  // ---- every parsed format can be printed ----

  ghost predicate StateOk(st: FormatState) {
    && ValueOk(st.name) && ValueOk(st.printFmt) && forall g :: g in st.fields ==> FieldOk(g)
  }

  ghost predicate FieldStateOk(st: FieldState) {
    TextOk(st.text) && All(st.text, NotSemicolon) && All(st.text, NotEol)
  }

  lemma DropAll(t: string, n: nat, p: char -> bool)
    requires All(t, p) && n <= |t|
    ensures All(t[n..], p) && All(t[..n], p)
  {
  }

  lemma TrimmedOk(t: string, n: nat)
    requires n <= |t[Span(t, IsSpace)..]|
    ensures TextOk(t[Span(t, IsSpace)..][..n])
  {
    hide Span;
  }

  lemma FieldPieceOk(t: string)
    requires All(t, NotEol)
    ensures var p := FieldPiece(t);
            p.Piece? ==> All(p.value, NotEol) && All(p.rest, NotEol) && All(p.value, NotSemicolon) && TextOk(p.value)
  {
    hide Span, All, TextOk;
    var n := Span(t, IsSpaceOrSemicolon);
    DropAll(t, n, NotEol);
    var t1 := t[n..];
    var colon := Span(t1, NotColon);
    if colon != |t1| {
      DropAll(t1, colon + 1, NotEol);
      var t2 := t1[colon + 1..];
      DropAll(t2, Span(t2, IsSpace), NotEol);
      var t3 := t2[Span(t2, IsSpace)..];
      var end := Span(t3, NotSemicolon);
      DropAll(t3, end, NotEol);
      TrimmedOk(t2, end);
    }
  }

  lemma {:induction false} FieldPropertiesOk(t: string, st: FieldState)
    requires All(t, NotEol) && FieldStateOk(st)
    ensures FieldStateOk(FieldProperties(t, st))
    decreases |t|
  {
    hide FieldPiece, AsciiToU32, All;
    FieldPieceOk(t);
    var p := FieldPiece(t);
    if p.Piece? {
      FieldPropertiesOk(p.rest, WithProperty(st, p.name, p.value, p.rest != ""));
    }
  }

  lemma ParsedFieldOk(line: string)
    requires All(line, NotEol)
    ensures ParseField(line).Some? ==> FieldOk(ParseField(line).value)
  {
    hide FieldProperties;
    FieldPropertiesOk(line, NO_FIELD);
  }

  lemma NextLineOk(t: string)
    requires t != ""
    ensures All(NextLine(t).0, NotEol)
  {
    hide Span;
  }

  lemma {:induction false} SectionOk(t: string, fields: seq<Field>, commonCount: u16, common: bool)
    requires forall g :: g in fields ==> FieldOk(g)
    ensures forall g :: g in Section(t, fields, commonCount, common).0 ==> FieldOk(g)
    decreases |t|
  {
    hide NextLine, ParseField, FieldOk;
    if t != "" {
      NextLineOk(t);
      var (line, rest) := NextLine(t);
      ParsedFieldOk(line);
      if line == "" {
        if common {
          SectionOk(rest, fields, commonCount, false);
        }
      } else {
        match ParseField(line)
        case Some(f) =>
          SectionOk(rest, fields + [f], if common then (commonCount + 1) % 65536 else commonCount, common);
        case None => SectionOk(rest, fields, commonCount, common);
      }
    }
  }

  lemma CutValueOk(t3: string)
    ensures var t4 := t3[Span(t3, IsSpace)..];
            ValueOk(t4[..ValueLength(t4)])
  {
    hide Span, ValueLength;
    var t4 := t3[Span(t3, IsSpace)..];
    TrimmedOk(t3, ValueLength(t4));
    ValuePrefix(t4);
  }

  lemma PropertyPieceOk(t: string)
    ensures PropertyPiece(t).Piece? ==> ValueOk(PropertyPiece(t).value)
  {
    hide Span, ValueLength, ValueOk;
    var t1 := t[Span(t, IsEol)..];
    var t2 := t1[Span(t1, IsSpace)..];
    var n := Span(t2, NotColonNorEol);
    if n < |t2| {
      CutValueOk(t2[n + 1..]);
    }
  }

  lemma {:induction false} PropertiesOk(t: string, st: FormatState)
    requires StateOk(st)
    ensures StateOk(Properties(t, st))
    decreases |t|
  {
    hide PropertyPiece, Section, FieldOk, ValueOk, AsciiToU32;
    PropertyPieceOk(t);
    match PropertyPiece(t)
    case NoPiece =>
    case Skipped(rest) => PropertiesOk(rest, st);
    case Piece(name, value, rest) =>
      SectionOk(rest, [], st.commonCount, true);
      var (st', rest') := WithLine(st, name, value, rest);
      PropertiesOk(rest', st');
  }

  // ---- what is read back of any printed format ----

  /** One line of the section. */
  lemma SectionOnce(t: string, fields: seq<Field>, count: u16, common: bool)
    requires t != ""
    ensures var (line, rest) := NextLine(t);
            && (line == "" && !common ==> Section(t, fields, count, common) == (fields, count, rest))
            && (line == "" && common ==> Section(t, fields, count, common) == Section(rest, fields, count, false))
            && (line != "" && ParseField(line).None? ==>
                  Section(t, fields, count, common) == Section(rest, fields, count, common))
            && (line != "" && ParseField(line).Some? ==>
                  Section(t, fields, count, common)
                  == Section(rest, fields + [ParseField(line).value], if common then (count + 1) % 65536 else count,
                       common))
  {
    hide NextLine, ParseField;
  }

  /** A line read as `common` adds to the common count, whether or not it was printed as a common one. */
  lemma {:induction false} CommonLinesRead(fields: seq<Field>, done: seq<Field>, count: u16, tail: string)
    requires forall f :: f in fields ==> FieldOk(f)
    requires tail != "" && tail[0] == '\n'
    ensures Section("\n" + Lines(fields, 0) + tail, done, count, true)
         == Section("\n" + tail, done + fields, (count + |fields|) % 65536, true)
    decreases |fields|
  {
    hide LineText, NextLine, ParseField, FieldOk, Section;
    if fields == [] {
      assert "\n" + "" + tail == "\n" + tail;
      assert done + fields == done;
    } else {
      var f := fields[0];
      LineReads(f);
      LineIsOneLine(f);
      var after := "\n" + Lines(fields[1..], 0) + tail;
      assert "\n" + Lines(fields, 0) + tail == "\n" + LineText(f) + after;
      NextLineReads(LineText(f), after);
      SectionOnce("\n" + Lines(fields, 0) + tail, done, count, true);
      CommonLinesRead(fields[1..], done + [f], (count + 1) % 65536, tail);
      assert done + [f] + fields[1..] == done + fields;
    }
  }

  /** Two lines on, the section is inside the print format. */
  lemma SwallowedLines(printFmt: string, fields: seq<Field>, count: u16)
    ensures |Section("\n" + PrintFmtText(printFmt), fields, count, true).2| <= |printFmt| + 1
    ensures Section("\n" + PrintFmtText(printFmt), fields, count, true).1 == count
  {
    hide ParseField;
    var t := PrintFmtText(printFmt);
    assert "\n" + t == "\n" + "" + t;
    NextLineReads("", t);
    var name := "print fmt: ";
    assert t == "\n" + (name + (printFmt + "\n"));
    AtLeast(name, printFmt + "\n");
    assert |NextLine(t).1| <= |printFmt| + 1;
    SectionCount(NextLine(t).1, fields, count);
    var line := NextLine(t).0;
    if ParseField(line).Some? {
      SectionCount(NextLine(t).1, fields + [ParseField(line).value], count);
    }
  }

  lemma AtLeast(line: string, rest: string)
    requires All(line, NotEol) && line != ""
    ensures NextLine("\n" + (line + rest)).0 != "" && |NextLine("\n" + (line + rest)).1| <= |rest|
  {
    var t1 := line + rest;
    assert ("\n" + t1)[1..] == t1;
    SpanAtLeast(line, rest, NotEol);
  }

  lemma {:induction false} SpanAtLeast(a: string, rest: string, p: char -> bool)
    requires All(a, p)
    ensures Span(a + rest, p) >= |a|
  {
    if a != "" {
      assert (a + rest)[1..] == a[1..] + rest;
      SpanAtLeast(a[1..], rest, p);
    }
  }

  /** After the first blank line no more fields are counted as common. */
  lemma {:induction false} SectionCount(t: string, fields: seq<Field>, count: u16)
    ensures Section(t, fields, count, false).1 == count
    decreases |t|
  {
    hide NextLine, ParseField;
    if t != "" {
      var (line, rest) := NextLine(t);
      SectionCount(rest, fields, count);
      if ParseField(line).Some? {
        SectionCount(rest, fields + [ParseField(line).value], count);
      }
    }
  }

  /** A print format read from a text is shorter than the text by its name and colon at least. */
  lemma {:induction false} PrintFmtIsShort(t: string, st: FormatState)
    ensures var printFmt := Properties(t, st).printFmt;
            printFmt == st.printFmt || |printFmt| + 10 <= |t|
    decreases |t|
  {
    hide PropertyPiece, Section, AsciiToU32;
    PieceIsShort(t);
    match PropertyPiece(t)
    case NoPiece =>
    case Skipped(rest) => PrintFmtIsShort(rest, st);
    case Piece(name, value, rest) =>
      var (st', rest') := WithLine(st, name, value, rest);
      PrintFmtIsShort(rest', st');
  }

  lemma PieceIsShort(t: string)
    ensures var p := PropertyPiece(t);
            p.Piece? ==> |p.name| + 1 + |p.value| + |p.rest| <= |t|
  {
    hide Span, ValueLength;
  }

  /** What follows the blank line is lost: without common fields nothing is left of the print format. */
  lemma NoCommonReads(f: EventFormat, st: FormatState)
    requires FormatOk(f) && f.commonCount == 0 && st.commonCount == 0 && st.printFmt == ""
    ensures var (fields, count, rest) := Section(SectionText(f), [], 0, true);
            var st' := Properties(rest, st.(fields := fields, commonCount := count));
            && (f.printFmt != "" ==> st'.printFmt != f.printFmt)
            && (f.printFmt == "" ==> st' == st.(fields := f.fields, commonCount := |f.fields| % 65536))
  {
    hide Section, Properties, PrintFmtText, Lines, FieldOk, ValueOk;
    var tail := PrintFmtText(f.printFmt);
    TextsStart(f);
    CommonLinesRead(f.fields, [], 0, tail);
    SectionIs(f);
    assert [] + f.fields == f.fields;
    SwallowedLines(f.printFmt, f.fields, |f.fields| % 65536);
    var (fields, count, rest) := Section(SectionText(f), [], 0, true);
    PrintFmtIsShort(rest, st.(fields := fields, commonCount := count));
    if f.printFmt == "" {
      NothingToPrint(f.fields, |f.fields| % 65536);
      NoProperties(rest, st.(fields := fields, commonCount := count));
    }
  }

  lemma NothingToPrint(fields: seq<Field>, count: u16)
    ensures Section("\n" + PrintFmtText(""), fields, count, true) == (fields, count, "")
  {
    hide NextLine, ParseField, Section, PropertyText;
    var t := PrintFmtText("");
    EmptyPrintFmt();
    NotAField();
    SectionOnce(t, fields, count, false);
    SectionOnce("\n", fields, count, false);
    SectionOnce("\n" + t, fields, count, true);
  }

  /** The lines of a section without fields. */
  lemma EmptyPrintFmt()
    ensures PrintFmtText("") != ""
    ensures NextLine("\n" + PrintFmtText("")) == ("", PrintFmtText(""))
    ensures NextLine(PrintFmtText("")) == ("print fmt: ", "\n")
    ensures NextLine("\n") == ("", "")
  {
    hide NextLine;
    var t := PrintFmtText("");
    var line := "print fmt: ";
    assert t == "\n" + line + "\n";
    NextLineReads(line, "\n");
    assert "\n" + t == "\n" + "" + t;
    NextLineReads("", t);
    LastLine();
  }

  lemma LastLine()
    ensures NextLine("\n") == ("", "")
  {
    SpanCuts("", "", NotEol);
  }

  lemma NotAField()
    ensures ParseField("print fmt: ") == None
  {
    hide Span;
    var t := "print fmt: ";
    assert "" + t == t;
    SpanCuts("", t, IsSpaceOrSemicolon);
    assert t == "print fmt" + ": ";
    SpanCuts("print fmt", ": ", NotColon);
    assert " " == " " + "" && "" == "" + "";
    SpanCuts(" ", "", IsSpace);
    SpanCuts("", "", NotSemicolon);
    assert FieldPiece(t) == Piece("print fmt", "", "");
    hide FieldPiece;
    PieceTaken(t, "print fmt", "", "", NO_FIELD);
    NoMoreProperties("", NO_FIELD);
  }

  lemma GapIsLonger(t: string)
    ensures ("\n" + t)[Span("\n" + t, IsEol)..] == t[Span(t, IsEol)..]
  {
    assert ("\n" + t)[1..] == t;
    assert Span("\n" + t, IsEol) == 1 + Span(t, IsEol);
    hide Span;
    assert ("\n" + t)[1 + Span(t, IsEol)..] == t[Span(t, IsEol)..];
  }

  lemma PieceAfterGap(t: string, u: string)
    requires t[Span(t, IsEol)..] == u[Span(u, IsEol)..]
    ensures PropertyPiece(t) == PropertyPiece(u)
  {
    hide Span, ValueLength;
  }

  /** One line end more before a property makes no difference. */
  lemma GapSkips(t: string, st: FormatState)
    ensures Properties("\n" + t, st) == Properties(t, st)
  {
    GapIsLonger(t);
    PieceAfterGap("\n" + t, t);
    hide PropertyPiece, WithLine, Span;
  }

  /** A field's line after the field's text. */
  function NumbersText(f: Field): string {
    ";\t" + "offset" + ":" + Dec(f.offset) + (";\t" + "size" + ":" + Dec(f.size) + SignedText(f.isSigned))
  }

  lemma Regroup(a: string, b: string, c: string, text: string, numbers: string, after: string)
    ensures "\n" + (a + b + c + text + numbers + after) == "\n" + (a + (b + (c + ("" + (text + numbers + after)))))
  {
    var t4 := text + numbers + after;
    assert a + b + c + text + numbers + after == a + b + c + t4;
    assert "" + t4 == t4;
    assert a + b + c + t4 == a + (b + (c + t4));
  }

  lemma LineAsProperty(f: Field, t4: string, after: string)
    requires t4 == f.text + NumbersText(f) + after
    ensures "\n" + (LineText(f) + after) == "\n" + ("\t" + ("field" + (":" + ("" + t4))))
  {
    hide Dec, SignedText;
    Regroup("\t", "field", ":", f.text, NumbersText(f), after);
  }

  lemma FieldHead(t4: string)
    ensures "\n" + ("\t" + ("field" + (":" + ("" + t4)))) == "\n\tfield:" + t4
  {
    assert "" + t4 == t4;
    assert "\n\tfield:" == "\n" + ("\t" + ("field" + ":"));
  }

  /** A field line read as a property says nothing. */
  lemma LineIgnored(f: Field, after: string, st: FormatState) returns (rest: string)
    requires FieldOk(f)
    ensures var t := "\n" + (LineText(f) + after);
            && |rest| < |t| && rest == t[|t| - |rest|..] && (rest == "" || IsEol(rest[0]))
            && Properties(t, st) == Properties(rest, st)
  {
    hide PropertyPiece, Properties, Section, AsciiToU32, LineText, NumbersText, ValueLength, All;
    var t := "\n" + (LineText(f) + after);
    var t4 := f.text + NumbersText(f) + after;
    LineAsProperty(f, t4, after);
    FieldHead(t4);
    PropertyNames();
    FieldPlain();
    IndentedPieceReads("\n", "\t", "field", "", t4);
    ValueEnds(t4);
    rest := t4[ValueLength(t4)..];
    PropertyTaken(t, "field", t4[..ValueLength(t4)], rest, st);
    SuffixOf("\n\tfield:", t4, ValueLength(t4));
  }

  lemma FieldPlain()
    ensures All("field", NotColonNorEol) && All("\t", IsSpace)
  {
  }

  lemma SuffixOf(head: string, t: string, k: nat)
    requires k <= |t|
    ensures t[k..] == (head + t)[|head + t| - |t[k..]|..]
  {
  }

  /** Read from a line end in the section, or from its end, the text leaves the name alone or loses the print format. */
  lemma RestAtEnd(left: nat, printFmt: string)
    ensures RestText([], left, printFmt) == "\n" + PrintFmtText(printFmt)
  {
    hide PrintFmtText;
    assert Lines([], left) == "";
  }

  /** The lines from the first field on. */
  lemma RestUnfolds(fields: seq<Field>, left: nat, printFmt: string)
    requires fields != []
    ensures var left' := if left == 0 then 0 else left - 1;
            RestText(fields, left, printFmt)
            == "\n" + (LineText(fields[0])
                       + ((if left == 1 then "\n" else "") + RestText(fields[1..], left', printFmt)))
  {
    hide LineText, PrintFmtText;
  }

  lemma AfterLine(line: string, after: string, k: nat)
    requires 1 + |line| <= k <= |"\n" + (line + after)|
    ensures var k' := k - 1 - |line|;
            && k' <= |after|
            && ("\n" + (line + after))[k..] == after[k'..]
            && (k' < |after| ==> ("\n" + (line + after))[k] == after[k'])
  {
  }

  lemma {:induction false} RestReads(fields: seq<Field>, left: nat, printFmt: string, k: nat, st: FormatState)
    requires (forall f :: f in fields ==> FieldOk(f)) && ValueOk(printFmt) && st.printFmt == ""
    requires var s := RestText(fields, left, printFmt);
             k <= |s| && (k < |s| ==> IsEol(s[k]))
    ensures var st' := Properties(RestText(fields, left, printFmt)[k..], st);
            st'.name == st.name || st'.printFmt != printFmt
    decreases |RestText(fields, left, printFmt)| - k, |fields|, 0
  {
    hide LineText, Properties, FieldOk, ValueOk, PrintFmtText, RestText, All, NotEol;
    var s := RestText(fields, left, printFmt);
    if fields == [] {
      RestAtEnd(left, printFmt);
      TailReads(printFmt, k, st);
    } else {
      var f := fields[0];
      RestUnfolds(fields, left, printFmt);
      var left' := if left == 0 then 0 else left - 1;
      var s' := RestText(fields[1..], left', printFmt);
      var after := (if left == 1 then "\n" else "") + s';
      if k == 0 {
        var rest := LineIgnored(f, after, st);
        assert s[0..] == s;
        RestReads(fields, left, printFmt, |s| - |rest|, st);
      } else {
        LineIsOneLine(f);
        InsideLine(LineText(f), after, k);
        AfterLine(LineText(f), after, k);
        RestAfterLine(fields, left, printFmt, k - 1 - |LineText(f)|, st, after);
      }
    }
  }

  /** The same from the end of the first field's line on, over the blank line after the common fields. */
  lemma {:induction false} RestAfterLine(fields: seq<Field>, left: nat, printFmt: string, k: nat, st: FormatState,
      after: string)
    requires fields != []
    requires (forall f :: f in fields ==> FieldOk(f)) && ValueOk(printFmt) && st.printFmt == ""
    requires after == (if left == 1 then "\n" else "")
                      + RestText(fields[1..], if left == 0 then 0 else left - 1, printFmt)
    requires k <= |after| && (k < |after| ==> IsEol(after[k]))
    ensures var st' := Properties(after[k..], st);
            st'.name == st.name || st'.printFmt != printFmt
    decreases |after| - k, |fields| - 1, 1
  {
    hide LineText, Properties, FieldOk, ValueOk, PrintFmtText, RestText;
    var left' := if left == 0 then 0 else left - 1;
    var s' := RestText(fields[1..], left', printFmt);
    if left != 1 {
      assert after == s';
      RestReads(fields[1..], left', printFmt, k, st);
    } else if k == 0 {
      GapSkips(s', st);
      assert s'[0..] == s' && after[0..] == "\n" + s';
      RestReads(fields[1..], left', printFmt, 0, st);
    } else {
      assert after[k..] == s'[k - 1..];
      RestReads(fields[1..], left', printFmt, k - 1, st);
    }
  }

  lemma InsideLine(line: string, after: string, k: nat)
    requires All(line, NotEol) && 0 < k <= |"\n" + (line + after)|
    requires k < |"\n" + (line + after)| ==> IsEol(("\n" + (line + after))[k])
    ensures k >= 1 + |line|
  {
    assert forall i :: 0 <= i < |line| ==> ("\n" + (line + after))[1 + i] == line[i];
  }

  lemma TailReads(printFmt: string, k: nat, st: FormatState)
    requires ValueOk(printFmt) && st.printFmt == ""
    requires var s := "\n" + PrintFmtText(printFmt); k <= |s| && (k < |s| ==> IsEol(s[k]))
    ensures var st' := Properties(("\n" + PrintFmtText(printFmt))[k..], st);
            st'.name == st.name || st'.printFmt != printFmt
  {
    hide Properties, ValueOk;
    var tail := PrintFmtText(printFmt);
    var s := "\n" + tail;
    assert s[0..] == s && s[1..] == tail;
    if k <= 1 {
      hide PrintFmtText;
      GapSkips(tail, st);
      PrintFmtReads(printFmt, st);
    } else {
      var name := "\nprint fmt: ";
      assert s == "\n" + (name + (printFmt + "\n"));
      assert forall i :: 1 <= i < |name| ==> !IsEol(name[i]);
      assert forall i :: 2 <= i < 1 + |name| ==> s[i] == name[i - 1];
      assert |s[k..]| <= |printFmt| + 1;
      hide PrintFmtText;
      PrintFmtIsShort(s[k..], st);
      if printFmt == "" {
        if k < |s| {
          assert s[k..] == "\n";
          LastNewline(st);
        } else {
          NoProperties(s[k..], st);
        }
      }
    }
  }

  /** How much the name takes with it. */
  lemma OpenNameLength(f: EventFormat) returns (k: nat)
    requires FormatOk(f) && !Balanced(f.name)
    ensures k <= |SectionText(f)| && (k < |SectionText(f)| ==> IsEol(SectionText(f)[k]))
    ensures var t4 := f.name + AfterNameText(f);
            && ValueLength(t4) > |f.name|
            && SectionText(f)[k..] == t4[ValueLength(t4)..]
  {
    var plain := "\nID: " + Dec(f.id) + "\nformat:";
    NoQuoteInNumber(f.id);
    AfterNameParts(f, plain);
    hide Balanced, ValueLength, Dec, AfterNameText, SectionText, FieldOk, TextOk, Plain;
    UnbalancedLength(f.name, plain, SectionText(f));
    var n := ValueLength(f.name + (plain + SectionText(f)));
    k := n - |f.name| - |plain|;
    ValueEnds(f.name + (plain + SectionText(f)));
    CutBehind(f.name, plain, SectionText(f), n);
  }

  /** An open quote in the name takes the text up to the section with it. */
  lemma OpenNameTakes(f: EventFormat) returns (value: string, k: nat)
    requires FormatOk(f) && !Balanced(f.name)
    ensures |value| > |f.name| && k <= |SectionText(f)| && (k < |SectionText(f)| ==> IsEol(SectionText(f)[k]))
    ensures Properties(Print(f), NO_FORMAT) == Properties(SectionText(f)[k..], NO_FORMAT.(name := value))
  {
    PropertyNames();
    NamedFirst(f);
    hide Properties, PropertyPiece, Balanced, ValueLength, Section, AsciiToU32, AfterNameText, SectionText,
      FieldOk, All, Print;
    k := OpenNameLength(f);
    var t4 := f.name + AfterNameText(f);
    var n := ValueLength(t4);
    NameFirst(f, t4);
    value := t4[..n];
    ValuePieceReads("", "name", " ", t4);
    PropertyTaken(Print(f), "name", value, t4[n..], NO_FORMAT);
  }

  lemma NamedFirst(f: EventFormat)
    requires FormatOk(f)
    ensures TextOk(f.name + AfterNameText(f))
  {
    hide ValueLength, AfterNameText;
  }

  lemma NameFirst(f: EventFormat, t4: string)
    requires t4 == f.name + AfterNameText(f)
    ensures Print(f) == "" + ("name" + (":" + (" " + t4)))
  {
    hide AfterNameText;
  }

  lemma CutBehind(a: string, b: string, c: string, n: nat)
    requires |a| + |b| <= n <= |a + (b + c)|
    ensures (a + (b + c))[n..] == c[n - |a| - |b|..]
    ensures n < |a + (b + c)| ==> (a + (b + c))[n] == c[n - |a| - |b|]
  {
  }

  /** A name with an open quote is read back too long, and nothing that follows can make up for it. */
  lemma OpenNameIsLost(f: EventFormat)
    requires FormatOk(f) && !Balanced(f.name)
    ensures var st := Properties(Print(f), NO_FORMAT);
            st.name != f.name || st.printFmt != f.printFmt
  {
    hide Properties, Balanced, Print, Lines, PrintFmtText, FieldOk, ValueOk;
    var value, k := OpenNameTakes(f);
    SectionIs(f);
    hide SectionText;
    RestReads(f.fields, f.commonCount, f.printFmt, k, NO_FORMAT.(name := value));
  }

  lemma ValueEnds(t: string)
    ensures ValueLength(t) < |t| ==> IsEol(t[ValueLength(t)])
  {
  }

  lemma NoQuoteInNumber(n: u32)
    ensures Plain("\nID: " + Dec(n) + "\nformat:")
  {
    assert forall i :: 0 <= i < |Dec(n)| ==> IsDecimal(Dec(n)[i]);
    hide Dec;
  }

  lemma AfterNameParts(f: EventFormat, plain: string)
    requires plain == "\nID: " + Dec(f.id) + "\nformat:"
    ensures AfterNameText(f) == plain + SectionText(f)
  {
    hide Dec, SectionText;
  }

  /** What printing loses, if the format parses at all. */
  predicate Reprints(f: EventFormat) {
    Balanced(f.name)
    && if f.commonCount > 0 then Balanced(f.printFmt) else f.printFmt == "" && |f.fields| % 65536 == 0
  }

  /**
   * Whatever the text it was parsed from: a format, printed and parsed again, is the same format exactly
   * if the quotes in its name are balanced, and those in its print format too where there is a common
   * field; without a common field only if there is neither a print format nor, short of 65536, a field.
   */
  lemma FormatRoundTrip(t: string, nameOf: Field -> string)
    requires Parse(t, nameOf).Parsed?
    ensures var f := Parse(t, nameOf).format;
            Parse(Print(f), nameOf) == Parsed(f) <==> Reprints(f)
  {
    hide Properties, Print, Balanced, FieldOk, ValueLength, PrintFmtText;
    var f := Parse(t, nameOf).format;
    NothingWhole();
    PropertiesOk(t, NO_FORMAT);
    if !Balanced(f.name) {
      OpenNameIsLost(f);
    } else if f.commonCount > 0 {
      PropertiesRead(f);
      PrintFmtReads(f.printFmt, FormatState(f.name, "", f.fields, Some(f.id), f.commonCount));
    } else {
      SectionReached(f);
      NoCommonReads(f, FormatState(f.name, "", [], Some(f.id), 0));
    }
  }

  lemma NothingWhole()
    ensures ValueOk("")
  {
  }
}
