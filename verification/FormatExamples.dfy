/** Texts that are parsed to a format which, printed, is not parsed to the same format: one for each reason. */
module FormatExamples {
  import opened FormatText
  import opened FormatFile
  import opened Wrappers

  /** The text is parsed to a format that does not come back. */
  predicate Lost(t: string, nameOf: Field -> string) {
    var r := Parse(t, nameOf);
    r.Parsed? && !Reprints(r.format) && Parse(Print(r.format), nameOf) != r
  }

  lemma StateDecides(t: string, nameOf: Field -> string, st: FormatState)
    requires Properties(t, NO_FORMAT) == st
    requires st.id.Some? && st.name != "" && st.commonCount <= |st.fields|
    requires !Balanced(st.name) || (if st.commonCount > 0 then !Balanced(st.printFmt) else st.printFmt != "")
    ensures Lost(t, nameOf)
  {
    hide Properties, Print, Balanced;
    FormatRoundTrip(t, nameOf);
  }

  // ---- reading the texts ----

  /** A property's line at the end of a text. */
  function LastText(name: string, value: string): string { PropertyText("\n", name, " ", value, "") }

  lemma LastStarts(name: string, value: string)
    ensures LastText(name, value) != "" && LastText(name, value)[0] == '\n' && |LastText(name, value)| > 1
  {
  }

  lemma LastReads(name: string, value: string, st: FormatState)
    requires name == "name" || name == "print fmt"
    requires ValueOk(value)
    ensures Properties(LastText(name, value), st)
         == if name == "name" then st.(name := value) else st.(printFmt := value)
  {
    PropertyNames();
    hide PropertyPiece, Properties, Section, AsciiToU32, ValueLength, All;
    assert value + "" == value && value[..|value|] == value && value[|value|..] == "";
    ValuePieceReads("\n", name, " ", value);
    PropertyTaken(LastText(name, value), name, value, "", st);
    NoProperties("", WithLine(st, name, value, "").0);
  }

  lemma PlainN()
    ensures Balanced("n") && TextOk("n")
  {
    PlainBalanced("n");
  }

  /** The text of name and ID, and what follows. */
  function Started(rest: string): string {
    PropertyText("", "name", " ", "n", PropertyText("\n", "ID", " ", Dec(1), rest))
  }

  const STARTED := NO_FORMAT.(name := "n", id := Some(1))

  lemma PropertyStarts(name: string, space: string, value: string, rest: string)
    ensures var t := PropertyText("\n", name, space, value, rest);
            t != "" && t[0] == '\n'
  {
  }

  lemma StartReads(rest: string)
    requires rest != "" && rest[0] == '\n'
    ensures Properties(Started(rest), NO_FORMAT) == Properties(rest, STARTED)
  {
    var afterName := PropertyText("\n", "ID", " ", Dec(1), rest);
    PropertyStarts("ID", " ", Dec(1), rest);
    PropertyNames();
    DecPlain(1);
    DecReads(1);
    PlainN();
    hide PropertyPiece, Properties, Section, AsciiToU32, Dec, Balanced, All, PropertyText, TextOk;
    PropertyPieceReads("", "name", " ", "n", afterName);
    PropertyTaken(Started(rest), "name", "n", afterName, NO_FORMAT);
    PropertyPieceReads("\n", "ID", " ", Dec(1), rest);
    PropertyTaken(afterName, "ID", Dec(1), rest, NO_FORMAT.(name := "n"));
  }

  // ---- a print format without a common field ----

  lemma NoCommonIsLost(printFmt: string, nameOf: Field -> string)
    requires ValueOk(printFmt) && printFmt != ""
    ensures Lost(Started(LastText("print fmt", printFmt)), nameOf)
  {
    hide Properties, Lost, LastText, Started, ValueOk, Balanced;
    LastStarts("print fmt", printFmt);
    StartReads(LastText("print fmt", printFmt));
    LastReads("print fmt", printFmt, STARTED);
    StateDecides(Started(LastText("print fmt", printFmt)), nameOf, STARTED.(printFmt := printFmt));
  }

  // ---- an open quote in the print format ----

  /** A section of one common field. */
  function WithField(f: Field, rest: string): string {
    PropertyText("\n", "format", "", "", "\n" + Lines([f], 1) + rest)
  }

  lemma SectionTaken(lines: string)
    requires lines != "" && IsEol(lines[0])
    ensures var (fields, count, rest) := Section(lines, [], 0, true);
            Properties(PropertyText("\n", "format", "", "", lines), STARTED)
            == Properties(rest, STARTED.(fields := fields, commonCount := count))
  {
    PropertyNames();
    NothingBalanced();
    hide PropertyPiece, Properties, Section, AsciiToU32, Balanced, All, PropertyText;
    PropertyPieceReads("\n", "format", "", "", lines);
    PropertyTaken(PropertyText("\n", "format", "", "", lines), "format", "", lines, STARTED);
  }

  lemma WithFieldReads(f: Field, rest: string)
    requires FieldOk(f) && |rest| > 1 && rest[0] == '\n'
    ensures WithField(f, rest) != "" && WithField(f, rest)[0] == '\n'
    ensures Properties(WithField(f, rest), STARTED) == Properties(rest, STARTED.(fields := [f], commonCount := 1))
  {
    hide Properties, Section, Lines, PropertyText, FieldOk;
    var lines := "\n" + Lines([f], 1) + rest;
    assert IsEol(lines[0]);
    PropertyStarts("format", "", "", lines);
    SectionTaken(lines);
    SectionReads([f], 1, [], 0, rest);
    assert [] + [f] == [f];
  }

  lemma OpenPrintFmtIsLost(f: Field, printFmt: string, nameOf: Field -> string)
    requires FieldOk(f) && ValueOk(printFmt) && !Balanced(printFmt)
    ensures Lost(Started(WithField(f, LastText("print fmt", printFmt))), nameOf)
  {
    hide Properties, Lost, LastText, Started, WithField, ValueOk, FieldOk, Balanced;
    var last := LastText("print fmt", printFmt);
    var st := STARTED.(fields := [f], commonCount := 1);
    LastStarts("print fmt", printFmt);
    WithFieldReads(f, last);
    StartReads(WithField(f, last));
    LastReads("print fmt", printFmt, st);
    StateDecides(Started(WithField(f, last)), nameOf, st.(printFmt := printFmt));
  }

  // ---- an open quote in the name ----

  lemma OpenNameIsLost(name: string, nameOf: Field -> string)
    requires ValueOk(name) && !Balanced(name)
    ensures Lost(Started(LastText("name", name)), nameOf)
  {
    NothingBalanced();
    hide Properties, Lost, LastText, Started, ValueOk, Balanced;
    LastStarts("name", name);
    StartReads(LastText("name", name));
    LastReads("name", name, STARTED);
    StateDecides(Started(LastText("name", name)), nameOf, STARTED.(name := name));
  }

  // ---- the shortest of each ----

  lemma OpenQuote()
    ensures !Balanced("\"") && ValueOk("\"") && ValueOk("x")
  {
    assert "\""[1..] == "" && "x"[1..] == "";
  }

  lemma SmallField()
    ensures FieldOk(Field("a", 0, 1, None))
  {
  }

  /** A print format `x`, a print format of one quote, and a name of one quote. */
  lemma EachIsLost(nameOf: Field -> string)
    ensures Lost(Started(LastText("print fmt", "x")), nameOf)
    ensures Lost(Started(WithField(Field("a", 0, 1, None), LastText("print fmt", "\""))), nameOf)
    ensures Lost(Started(LastText("name", "\"")), nameOf)
  {
    hide Lost, Started, LastText, WithField, Balanced, ValueOk, FieldOk;
    OpenQuote();
    SmallField();
    NoCommonIsLost("x", nameOf);
    OpenPrintFmtIsLost(Field("a", 0, 1, None), "\"", nameOf);
    OpenNameIsLost("\"", nameOf);
  }

  /** The first of them in full. */
  lemma FirstInFull()
    ensures Started(LastText("print fmt", "x")) == "name: n" + ("\nID: 1" + "\nprint fmt: x")
  {
    OneDigit();
    hide Dec;
    assert LastText("print fmt", "x") == "\nprint fmt: x";
    hide LastText;
    assert PropertyText("\n", "ID", " ", "1", "\nprint fmt: x") == "\nID: 1" + "\nprint fmt: x";
  }
}
