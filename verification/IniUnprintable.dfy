/** Texts that are read without an exception and do not come back from their own printed store:
    one for each thing the printer cannot put back. */
module IniUnprintable {
  import opened Text
  import opened IniStore
  import opened IniParse
  import opened IniTwoPhase
  import opened IniPrint
  import opened IniNormal
  import opened IniLines
  import opened IniRoundTrip
  import opened IniExact

  /** A section text without a blank line behind it. */
  lemma SectionTextReads(o: ParseOptions, s: Section)
    requires Standard(o) && NormalSection(o, s) && PlainItems(s.items) && SectionLacks(s)
    ensures ReadString(o, EMPTY_STORE, Unlines([HeaderLine(s.name)] + BodyLines(s.items, "=", true))) ==
            Outcome(Store([], [s]), None)
  {
    hide *;
    var body := BodyLines(s.items, "=", true);
    var ls := [HeaderLine(s.name)] + body;
    StandardFacts(o);
    SectionParts(s);
    HeaderLacks(s.name);
    GapIsStandard();
    BodyLinesLack(s.items, "=", true);
    AllLackConcat([HeaderLine(s.name)], body);
    LinesOfUnlines(ls);
    ReadIsTwoPhase(o, EMPTY_STORE, Unlines(ls));
    CalmNil(o);
    SegHeader(o, s.name, body, 1);
    NilConcat(body);
    var its := SegBody(o, s.items, "=", [], 2);
    NothingMore(o, Store([], [s]), s.name, 2 + |body|);
    StartsEmpty(s);
    ApplySection(o, EMPTY_STORE, "", s, Item(1, HeaderLine(s.name), Header(s.name), []), its, []);
    NilConcat(its);
  }

  lemma SectionParts(s: Section)
    requires SectionLacks(s)
    ensures Lacks(s.name, '\n') && KeysLack(s.items)
  {}

  lemma GapIsStandard()
    ensures StandardGap("=") && Lacks("=", '\n')
  {}

  lemma NothingMore(o: ParseOptions, st: Store, section: string, n: nat)
    ensures Segment(o, [], n) == [] && Interpret(o, st, section, [], []) == Outcome(st, None)
  {}

  lemma StartsEmpty(s: Section)
    ensures !HasStored(EMPTY_STORE, s.name) && EMPTY_STORE.(sections := EMPTY_STORE.sections + [s]) == Store([], [s])
  {}

  /** A DEFAULT text whose values may go on over tabbed lines. */
  lemma DefaultTextReads(o: ParseOptions, items: Items)
    requires Standard(o) && NormalItems(items) && PlainItems(items) && KeysLack(items)
    ensures ReadString(o, EMPTY_STORE, Unlines([HeaderLine(o.defaultSection)] + BodyLines(items, "=", true))) ==
            Outcome(Store(items, []), None)
  {
    hide *;
    var d, body := o.defaultSection, BodyLines(items, "=", true);
    var ls := [HeaderLine(d)] + body;
    StandardFacts(o);
    HeaderLacks(d);
    GapIsStandard();
    BodyLinesLack(items, "=", true);
    AllLackConcat([HeaderLine(d)], body);
    LinesOfUnlines(ls);
    ReadIsTwoPhase(o, EMPTY_STORE, Unlines(ls));
    CalmNil(o);
    SegHeader(o, d, body, 1);
    NilConcat(body);
    var its := SegBody(o, items, "=", [], 2);
    NothingMore(o, Store(items, []), d, 2 + |body|);
    var item := Item(1, HeaderLine(d), Header(d), []);
    DefaultsOpen(o, item, items);
    NilConcat(its);
    InterpretCons(o, EMPTY_STORE, "", [], item, its);
    InterpretBody(o, EMPTY_STORE, d, its, items, []);
    NilConcat(items);
  }

  // ---------------------------------------------------------------- a section named with the unnamed marker

  /** "[<UNNAMED_SECTION>]": the section is printed without its header, and so is not there when read again. */
  lemma MarkerIsLost(o: ParseOptions, spaced: bool)
    requires Standard(o) && o.delimiters != [] && o.defaultSection != UNNAMED_SECTION
    ensures var r := ReadString(o, EMPTY_STORE, Unlines([HeaderLine(UNNAMED_SECTION)]));
            r == Outcome(Store([], [Section(UNNAMED_SECTION, [])]), None) && !Survives(o, r.store, spaced)
  {
    var s := Section(UNNAMED_SECTION, []);
    EmptySection(o, s);
    hide *;
    SectionTextReads(o, s);
    NilConcat([HeaderLine(UNNAMED_SECTION)]);
    MarkedNotPrintable(o);
    RoundTripExactly(o, Store([], [s]), spaced);
    MarkedStore();
  }

  lemma EmptySection(o: ParseOptions, s: Section)
    requires s == Section(UNNAMED_SECTION, []) && o.defaultSection != UNNAMED_SECTION
    ensures NormalSection(o, s) && PlainItems(s.items) && SectionLacks(s) && BodyLines(s.items, "=", true) == []
    ensures s.name == UNNAMED_SECTION
  {}

  lemma MarkedNotPrintable(o: ParseOptions)
    ensures !Printable(o, Store([], [Section(UNNAMED_SECTION, [])]))
  {
    assert Store([], [Section(UNNAMED_SECTION, [])]).sections[0].name == UNNAMED_SECTION;
    hide Normal, NoBracketKeys;
  }

  lemma MarkedStore()
    ensures Store([], [Section(UNNAMED_SECTION, [])]).sections == [Section(UNNAMED_SECTION, [])]
  {}

  // ---------------------------------------------------------------- a DEFAULT value of two lines

  const TWO_LINES := [Entry("k", Some("a" + "\n" + "b"))]

  /** "[DEFAULT]", "k=a", a tab and "b": DEFAULT values are printed unfolded, so the second line comes back as a line
      of its own, without a delimiter. */
  lemma DefaultIsCut(o: ParseOptions, spaced: bool)
    requires Standard(o) && o.delimiters != []
    ensures var r := ReadString(o, EMPTY_STORE, Unlines([HeaderLine(o.defaultSection), "k=a", "\tb"]));
            r == Outcome(Store(TWO_LINES, []), None) && !Survives(o, r.store, spaced)
  {
    TwoLinesOk(o);
    TwoLinesBody();
    hide *;
    DefaultTextReads(o, TWO_LINES);
    assert [HeaderLine(o.defaultSection)] + ["k=a", "\tb"] == [HeaderLine(o.defaultSection), "k=a", "\tb"];
    RoundTripExactly(o, Store(TWO_LINES, []), spaced);
  }

  lemma TwoLinesSplit()
    ensures Split("a" + "\n" + "b") == ["a", "b"]
  {
    assert ["a", "b"][1..] == ["b"];
    assert Join(["a", "b"]) == "a" + "\n" + "b";
    SplitOfJoin(["a", "b"]);
  }

  lemma TwoLinesBody()
    ensures BodyLines(TWO_LINES, "=", true) == ["k=a", "\tb"]
  {
    TwoLinesSplit();
    hide Split;
    assert Tabbed(["b"])[0] == "\t" + "b" == "\tb" && ["a", "b"][1..] == ["b"];
    assert "k" + "=" + "a" == "k=a";
    assert EntryLines("k", "=", "a" + "\n" + "b", true) == ["k=a", "\tb"];
    assert TWO_LINES[1..] == [];
  }

  lemma TwoLinesOk(o: ParseOptions)
    ensures NormalItems(TWO_LINES) && PlainItems(TWO_LINES) && KeysLack(TWO_LINES)
    ensures !Printable(o, Store(TWO_LINES, []))
  {
    TwoLinesSplit();
    hide Split;
    var v := "a" + "\n" + "b";
    assert v[1] == '\n' && v[|v| - 1] == 'b';
    assert NormalLines(["a", "b"]);
    assert TWO_LINES[0].value == Some(v) && !Lacks(v, '\n');
  }

  // ---------------------------------------------------------------- a key that looks like a header

  const BRACKET := [Entry("[k", Some("1"))]

  /** "[s]", "[k=1": no header, since it does not end with a bracket, but the printer refuses the key. */
  lemma BracketIsRefused(o: ParseOptions, name: string, spaced: bool)
    requires Standard(o) && o.delimiters != [] && NormalName(o, name)
    ensures var r := ReadString(o, EMPTY_STORE, Unlines([HeaderLine(name), "[k=1"]));
            && r == Outcome(Store([], [Section(name, BRACKET)]), None)
            && Write(o, r.store, spaced) == Err(InvalidWrite) && !Survives(o, r.store, spaced)
  {
    var s := Section(name, BRACKET);
    BracketSection(o, s, spaced);
    hide *;
    var ls := [HeaderLine(name)] + ["[k=1"];
    assert ls == [HeaderLine(name), "[k=1"];
    StandardFacts(o);
    HeaderLacks(name);
    AllLackConcat([HeaderLine(name)], ["[k=1"]);
    LinesOfUnlines(ls);
    ReadIsTwoPhase(o, EMPTY_STORE, Unlines(ls));
    SegHeader(o, name, ["[k=1"], 1);
    BracketItem(o);
    var item := Item(2, "[k=1", Assign("[k", "1"), []);
    NothingMore(o, Store([], [s]), name, 3);
    StartsEmpty(s);
    NilConcat([item]);
    ApplySection(o, EMPTY_STORE, "", s, Item(1, HeaderLine(name), Header(name), []), [item], []);
    RefusedIsLost(o, Store([], [s]), spaced);
  }

  lemma RefusedIsLost(o: ParseOptions, st: Store, spaced: bool)
    requires o.delimiters != [] && Write(o, st, spaced) == Err(InvalidWrite)
    ensures !Survives(o, st, spaced)
  {
    hide Write;
  }

  lemma BracketLine(o: ParseOptions)
    requires Standard(o)
    ensures StripComment(o, "[k=1") == "[k=1" && Classify(o, "[k=1") == Assign("[k", "1")
  {
    hide StripComment, Classify, Trim;
    var c := "[k=1";
    TrimFixed(c);
    StandardStrip(o, c);
    PairLine(o, "", "[k", "", '=', "", "1", "");
    assert "" + "[k" + "" + ['='] + "" + "1" + "" == c;
  }

  lemma BracketItem(o: ParseOptions)
    requires Standard(o)
    ensures Segment(o, ["[k=1"], 2) == [Item(2, "[k=1", Assign("[k", "1"), [])]
  {
    BracketLine(o);
    hide StripComment, Classify;
    var lines := ["[k=1"];
    assert lines[1..] == [] && lines[1..][..0] == [] && lines[1..][0..] == [];
    CleanedNil(o);
    SegmentStep(o, lines, 2);
  }

  lemma BracketGives()
    ensures AllGive([Item(2, "[k=1", Assign("[k", "1"), [])], BRACKET)
  {
    var item := Item(2, "[k=1", Assign("[k", "1"), []);
    assert ToLower("[k") == "[k";
    assert ["1"] + [] == ["1"];
    assert TrimRight("1") == "1";
    assert ItemValue(item) == Some("1");
  }

  lemma BracketNormal()
    ensures NormalItems(BRACKET) && BRACKET[0].key[0] == '[' && BRACKET[0].value.Some?
  {
    NewlineAtUnique("1", "");
    hide NewlineAt;
    assert Split("1") == ["1"];
    assert NormalValue("1");
    assert NormalKey("[k");
  }

  lemma BracketSection(o: ParseOptions, s: Section, spaced: bool)
    requires o.delimiters != [] && NormalName(o, s.name) && s.items == BRACKET
    ensures NormalSection(o, s) && AllGive([Item(2, "[k=1", Assign("[k", "1"), [])], s.items) && AllLack(["[k=1"])
    ensures Write(o, Store([], [s]), spaced) == Err(InvalidWrite)
  {
    BracketGives();
    BracketNormal();
    hide AllGive, NormalItems, SectionsText, DefaultsText;
    assert !Writable(o, s.items);
    assert Store([], [s]).sections[0] == s;
  }
}
