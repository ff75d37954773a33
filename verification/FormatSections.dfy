/**
 * "format" files with several sections. The common fields of all of them are counted together, but only
 * the fields of the last are kept: where the count is larger than the list the parser indexes past its end.
 */
module FormatSections {
  import opened FormatText
  import opened FormatFile
  import opened Wrappers

  /** How many fields a section lists, and how many of them before its first blank line. */
  datatype Listing = Listing(common: nat, all: nat)

  /** What the lines of a section list, `t` being at the end of a line. */
  function Listed(t: string, common: bool): (r: Listing)
    ensures r.common <= r.all
    decreases |t|
  {
    if t == "" then Listing(0, 0)
    else
      var (line, rest) := NextLine(t);
      if line == "" then (if common then Listed(rest, false) else Listing(0, 0))
      else
        var l := Listed(rest, common);
        if ParseField(line).None? then l else Listing(l.common + (if common then 1 else 0), l.all + 1)
  }

  /** The sections that the parser meets in a file, in order. */
  function Sections(t: string): (r: seq<Listing>)
    ensures forall l :: l in r ==> l.common <= l.all
    decreases |t|
  {
    match PropertyPiece(t)
    case NoPiece => []
    case Skipped(rest) => Sections(rest)
    case Piece(name, _, rest) =>
      if name == "format" then [Listed(rest, true)] + Sections(Section(rest, [], 0, true).2) else Sections(rest)
  }

  function CommonIn(sections: seq<Listing>): nat {
    if sections == [] then 0 else sections[0].common + CommonIn(sections[1..])
  }

  lemma ListedOnce(t: string, common: bool)
    ensures t == "" ==> Listed(t, common) == Listing(0, 0)
    ensures t != "" ==>
              var (line, rest) := NextLine(t);
              && (line == "" && common ==> Listed(t, common) == Listed(rest, false))
              && (line == "" && !common ==> Listed(t, common) == Listing(0, 0))
              && (line != "" ==>
                    var l := Listed(rest, common);
                    Listed(t, common)
                    == if ParseField(line).None? then l else Listing(l.common + (if common then 1 else 0), l.all + 1))
  {
    hide NextLine, ParseField;
  }

  lemma SectionNone(fields: seq<Field>, count: u16, common: bool)
    ensures Section("", fields, count, common) == (fields, count, "")
  {
  }

  lemma OneCounted(count: nat, more: nat)
    ensures ((count + 1) % 65536 + more) % 65536 == (count + (more + 1)) % 65536
  {
  }

  lemma {:induction false} SectionLists(t: string, fields: seq<Field>, commonCount: u16, common: bool)
    ensures var (fields', commonCount', rest) := Section(t, fields, commonCount, common);
            && |fields'| == |fields| + Listed(t, common).all
            && commonCount' == (commonCount + Listed(t, common).common) % 65536
            && rest == Section(t, [], 0, common).2
    decreases |t|
  {
    hide NextLine, ParseField, Section, Listed;
    ListedOnce(t, common);
    if t == "" {
      SectionNone(fields, commonCount, common);
      SectionNone([], 0, common);
    } else {
      var (line, rest) := NextLine(t);
      SectionOnce(t, fields, commonCount, common);
      SectionOnce(t, [], 0, common);
      if line == "" {
        if common {
          SectionLists(rest, fields, commonCount, false);
        }
      } else if ParseField(line).Some? {
        var f := ParseField(line).value;
        OneCounted(commonCount, Listed(rest, common).common);
        SectionLists(rest, fields + [f], if common then (commonCount + 1) % 65536 else commonCount, common);
        SectionLists(rest, [] + [f], if common then 1 else 0, common);
      } else {
        SectionLists(rest, fields, commonCount, common);
      }
    }
  }

  /** What one property does to count and list. */
  lemma LineLists(st: FormatState, name: string, value: string, rest: string)
    ensures var (st', rest') := WithLine(st, name, value, rest);
            if name == "format" then
              && st'.commonCount == (st.commonCount + Listed(rest, true).common) % 65536
              && |st'.fields| == Listed(rest, true).all
              && rest' == Section(rest, [], 0, true).2
            else st'.commonCount == st.commonCount && st'.fields == st.fields && rest' == rest
  {
    hide Section, Listed, AsciiToU32;
    SectionLists(rest, [], st.commonCount, true);
  }

  /** The parser's count adds up over the sections, and its list is that of the last. */
  lemma {:induction false} PropertiesList(t: string, st: FormatState)
    ensures var st' := Properties(t, st);
            var sections := Sections(t);
            && st'.commonCount == (st.commonCount + CommonIn(sections)) % 65536
            && |st'.fields| == if sections == [] then |st.fields| else sections[|sections| - 1].all
    decreases |t|
  {
    hide PropertyPiece, Section, Listed, WithLine, CommonIn;
    NothingIn(st.commonCount);
    match PropertyPiece(t)
    case NoPiece =>
    case Skipped(rest) => PropertiesList(rest, st);
    case Piece(name, value, rest) =>
      LineLists(st, name, value, rest);
      var (st', rest') := WithLine(st, name, value, rest);
      PropertiesList(rest', st');
      if name == "format" {
        CommonAdds(Listed(rest, true), Sections(rest'), st.commonCount);
      }
  }

  lemma NothingIn(count: u16)
    ensures CommonIn([]) == 0 && count % 65536 == count
  {
  }

  lemma CommonAdds(l: Listing, sections: seq<Listing>, count: nat)
    ensures CommonIn([l] + sections) == l.common + CommonIn(sections)
    ensures ((count + l.common) % 65536 + CommonIn(sections)) % 65536 == (count + CommonIn([l] + sections)) % 65536
  {
    assert ([l] + sections)[1..] == sections;
  }

  /** The file has a number as its ID, and a name: without them nothing is made of it. */
  predicate Usable(t: string) {
    var st := Properties(t, NO_FORMAT);
    st.id.Some? && st.name != ""
  }

  /**
   * The parser indexes past the end of its list if and only if the common fields of all sections, counted
   * in 16 bits, are more than the fields of the last.
   */
  lemma PanicsExactly(t: string, nameOf: Field -> string)
    ensures Parse(t, nameOf).Panics? <==>
              var sections := Sections(t);
              Usable(t) && sections != [] && CommonIn(sections) % 65536 > sections[|sections| - 1].all
  {
    hide Properties, Sections;
    PropertiesList(t, NO_FORMAT);
  }

  /** A file with at most one section, as the kernel writes them, is safe. */
  lemma OneSectionIsSafe(t: string, nameOf: Field -> string)
    requires |Sections(t)| <= 1
    ensures !Parse(t, nameOf).Panics?
  {
    hide Properties, Sections, Parse;
    PanicsExactly(t, nameOf);
    var sections := Sections(t);
    if sections != [] {
      assert sections[1..] == [];
      assert CommonIn(sections) == sections[0].common <= sections[0].all;
    }
  }

  /** One common field, and a second section that lists none. */
  const TWO_SECTIONS := 
    "name: n" + "\nID: 1" + "\nformat:" + "\n\tfield:a;\toffset:0;\tsize:1;\n\n" + "\nformat:\n"

  lemma TwoSectionsPanic(nameOf: Field -> string)
    ensures Parse(TWO_SECTIONS, nameOf).Panics?
  {
    hide PropertyPiece, Properties, Section, AsciiToU32, Dec, Balanced, All, ValueLength, ParseField, LineText;
    var f := Field("a", 0, 1, None);
    var last := PropertyText("\n", "format", "", "", "\n");
    var lines := "\n" + Lines([f], 1) + last;
    var afterId := PropertyText("\n", "format", "", "", lines);
    var afterName := PropertyText("\n", "ID", " ", "1", afterId);
    TwoSectionsText(f);
    PropertyNames();
    NothingBalanced();
    OneDigit();
    DecPlain(1);
    DecReads(1);
    NameBalanced();
    FieldIsOk(f);
    var st1 := NO_FORMAT.(name := "n");
    var st2 := st1.(id := Some(1));
    var st3 := st2.(fields := [f], commonCount := 1);
    PropertyPieceReads("", "name", " ", "n", afterName);
    PropertyTaken(TWO_SECTIONS, "name", "n", afterName, NO_FORMAT);
    PropertyPieceReads("\n", "ID", " ", "1", afterId);
    PropertyTaken(afterName, "ID", "1", afterId, st1);
    PropertyPieceReads("\n", "format", "", "", lines);
    PropertyTaken(afterId, "format", "", lines, st2);
    SectionReads([f], 1, [], 0, last);
    assert [] + [f] == [f];
    PropertyPieceReads("\n", "format", "", "", "\n");
    PropertyTaken(last, "format", "", "\n", st3);
    LastBlank();
    NoProperties("", st3.(fields := []));
  }

  lemma TwoSectionsText(f: Field)
    requires f == Field("a", 0, 1, None)
    ensures TWO_SECTIONS
         == PropertyText("", "name", " ", "n",
              PropertyText("\n", "ID", " ", "1",
                PropertyText("\n", "format", "", "",
                  "\n" + Lines([f], 1) + PropertyText("\n", "format", "", "", "\n"))))
  {
    OneLine(f);
    hide LineText, Lines;
    var lines := "\n" + Lines([f], 1);
    assert lines == "\n\tfield:a;\toffset:0;\tsize:1;\n\n";
    FirstTexts("\n");
    FirstTexts(lines + "\nformat:\n");
    assert "\nformat:" + "\n" == "\nformat:\n";
    hide PropertyText;
    Nested("name: n", "\nID: 1", "\nformat:", lines, "\nformat:\n");
  }

  lemma Nested(a: string, b: string, c: string, d: string, e: string)
    ensures a + b + c + d + e == a + (b + (c + (d + e)))
  {
  }

  lemma FirstTexts(rest: string)
    ensures PropertyText("\n", "format", "", "", rest) == "\nformat:" + rest
    ensures forall r :: PropertyText("\n", "ID", " ", "1", r) == "\nID: 1" + r
    ensures forall r :: PropertyText("", "name", " ", "n", r) == "name: n" + r
  {
  }

  lemma OneLine(f: Field)
    requires f == Field("a", 0, 1, None)
    ensures Lines([f], 1) == "\tfield:a;\toffset:0;\tsize:1;\n\n"
  {
    OneDigit();
    hide Dec;
    assert LineText(f) == "\tfield:a;\toffset:0;\tsize:1;";
    hide LineText;
    assert [f][1..] == [];
    assert Lines([], 0) == "";
  }

  lemma NameBalanced()
    ensures Balanced("n")
  {
    PlainBalanced("n");
  }

  lemma FieldIsOk(f: Field)
    requires f == Field("a", 0, 1, None)
    ensures FieldOk(f)
  {
  }

  /** A section of one blank line. */
  lemma LastBlank()
    ensures Section("\n", [], 1, true) == ([], 1, "")
  {
    assert "\n" == "\n" + "";
    SpanCuts("", "", NotEol);
    assert NextLine("\n") == ("", "");
    hide NextLine, ParseField;
    SectionOnce("\n", [], 1, true);
  }
}
