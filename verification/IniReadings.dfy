/** Which exception a reading throws, and at which line; and what the smallest texts store. */
module IniReadings {
  import opened Text
  import opened IniStore
  import opened IniParse
  import opened IniTwoPhase
  import opened IniMeaning
  import opened IniOps
  import opened IniPrint
  import opened IniNormal
  import opened IniLines

  // ---------------------------------------------------------------- exceptions

  /** What stops the reading at an item, given where it stands: in a strict parser a section or an option that is
      there already, and without the unnamed section anything but a header that comes before all headers. */
  function ItemThrows(o: ParseOptions, st: Store, section: string, item: Item): Option<Error> {
    if item.logical.Header? then
      if o.strict && item.logical.name != "" && item.logical.name != o.defaultSection
         && HasStored(st, item.logical.name)
      then Some(Located(DuplicateSection, item.line)) else None
    else if section == "" && !o.allowUnnamedSection then Some(Located(MissingSectionHeader, item.line))
    else if item.logical.Junk? then None
    else if o.strict && StoredValue(o, st, if section == "" then UNNAMED_SECTION else section,
                                    ToLower(item.logical.key)).Some?
    then Some(Located(DuplicateOption, item.line)) else None
  }

  /** The section being read is there. */
  predicate Known(o: ParseOptions, st: Store, section: string) {
    section == "" || HasSection(o, st, section)
  }

  lemma AppendHas(o: ParseOptions, st: Store, name: string)
    ensures HasStored(AppendSection(st, name), name)
  {
    var r := AppendSection(st, name).sections;
    assert r[|st.sections|].name == name;
  }

  lemma PutKnown(o: ParseOptions, st: Store, section: string, key: string, value: OptionValue, line: nat)
    requires HasSection(o, st, section)
    ensures var r := PutOption(o, st, section, key, value, line);
            && r.thrown == (if o.strict && StoredValue(o, st, section, key).Some?
                            then Some(Located(DuplicateOption, line)) else None)
            && HasSection(o, r.store, section)
  {
    hide PutItem, WithItems, FindKey, FindSection;
    var slot := SlotOf(o, st, section);
    NamesSame(o, st, section, PutItem(ItemsAt(st, slot), key, value), section);
  }

  /** Where the section of an option line is entered. */
  lemma EnsureKnown(o: ParseOptions, st: Store, section: string, line: nat)
    requires Known(o, st, section)
    ensures var e := EnsureSection(o, st, section, line);
            && e.thrown == (if section == "" && !o.allowUnnamedSection
                            then Some(Located(MissingSectionHeader, line)) else None)
            && (e.thrown.None? ==> HasSection(o, e.store, ImplicitSection(o, section)))
            && (e.thrown.None? ==> ImplicitSection(o, section) == if section == "" then UNNAMED_SECTION else section)
            && forall s, key :: StoredValue(o, e.store, s, key) == StoredValue(o, st, s, key)
  {
    hide StoredValue, AppendSection;
    var e := EnsureSection(o, st, section, line);
    if section == "" && o.allowUnnamedSection && !HasStored(st, UNNAMED_SECTION) {
      AppendHas(o, st, UNNAMED_SECTION);
      forall s, key
        ensures StoredValue(o, e.store, s, key) == StoredValue(o, st, s, key)
      {
        AppendKeeps(o, st, UNNAMED_SECTION, s, key);
      }
    }
  }

  /** An item throws exactly that, and the section it leaves the reading in is there. */
  lemma ApplyThrows(o: ParseOptions, st: Store, section: string, errors: seq<LineError>, item: Item)
    requires Known(o, st, section)
    ensures var p := ApplyItem(o, st, section, errors, item);
            && p.thrown == ItemThrows(o, st, section, item)
            && (p.thrown.None? ==> Known(o, p.store, p.section))
  {
    hide StoredValue, PutOption, AppendSection, EnsureSection, ImplicitSection, ToLower, ItemValue, HasStored;
    if item.logical.Header? {
      AppendHas(o, st, item.logical.name);
    } else {
      EnsureKnown(o, st, section, item.line);
      var e := EnsureSection(o, st, section, item.line);
      if e.thrown.None? && !item.logical.Junk? {
        PutKnown(o, e.store, ImplicitSection(o, section), ToLower(item.logical.key), ItemValue(item), item.line);
      }
    }
  }

  /** The exception of the first item that throws. */
  function FirstThrow(o: ParseOptions, st: Store, section: string, items: seq<Item>): Option<Error>
    decreases |items|
  {
    if items == [] then None
    else
      var e := ItemThrows(o, st, section, items[0]);
      if e.Some? then e
      else
        var p := ApplyItem(o, st, section, [], items[0]);
        FirstThrow(o, p.store, p.section, items[1..])
  }

  /** Is this item a line in error? */
  predicate BadItem(item: Item) {
    item.logical.Junk? || item.logical == Header("")
  }

  /** The lines in error, in order, each with its number and its text. */
  function Report(items: seq<Item>): seq<LineError> {
    if items == [] then []
    else (if BadItem(items[0]) then [LineError(items[0].line, items[0].original)] else []) + Report(items[1..])
  }

  /** The errors gathered so far decide nothing, and an item adds one exactly when its line is in error. */
  lemma ApplyReports(o: ParseOptions, st: Store, section: string, errors: seq<LineError>, item: Item)
    ensures var p, q := ApplyItem(o, st, section, errors, item), ApplyItem(o, st, section, [], item);
            && p.store == q.store && p.section == q.section && p.thrown == q.thrown
            && (p.thrown.None? ==> p.errors == errors + Report([item]))
  {
    hide PutOption, EnsureSection, EnterSection, ToLower, ItemValue;
    assert [item][1..] == [] && errors + [] == errors;
  }

  lemma ReportCons(items: seq<Item>)
    requires items != []
    ensures Report(items) == Report([items[0]]) + Report(items[1..])
  {
    assert [items[0]][1..] == [];
  }

  lemma {:induction false} InterpretThrows(o: ParseOptions, st: Store, section: string, errors: seq<LineError>,
                                           items: seq<Item>)
    requires Known(o, st, section)
    ensures var first, all := FirstThrow(o, st, section, items), errors + Report(items);
            Interpret(o, st, section, errors, items).thrown ==
            if first.Some? then first else if all == [] then None else Some(Combined(all))
    decreases |items|
  {
    hide ApplyItem, ItemThrows, Known, Report;
    if items == [] {
      assert errors + Report([]) == errors by { NoReport(); }
    } else {
      ApplyThrows(o, st, section, errors, items[0]);
      ApplyReports(o, st, section, errors, items[0]);
      ReportCons(items);
      Assoc(errors, Report([items[0]]), Report(items[1..]));
      var p := ApplyItem(o, st, section, errors, items[0]);
      if p.thrown.None? {
        InterpretThrows(o, p.store, p.section, p.errors, items[1..]);
      }
    }
  }

  lemma NoReport()
    ensures Report([]) == []
  {}

  /** Main result: a reading throws what the first item that stops it throws, located at that item's line; if none
      does, it reports exactly the lines in error, in order; and if there are none, it throws nothing. */
  lemma ThrowsExactly(o: ParseOptions, st: Store, text: string)
    ensures var items := Segment(o, Lines(text), 1);
            var first := FirstThrow(o, st, "", items);
            ReadString(o, st, text).thrown ==
            if first.Some? then first else if Report(items) == [] then None else Some(Combined(Report(items)))
  {
    hide *;
    ReadIsTwoPhase(o, st, text);
    var items := Segment(o, Lines(text), 1);
    NoSectionYet(o, st);
    InterpretThrows(o, st, "", [], items);
    NilConcat(Report(items));
  }

  lemma NoSectionYet(o: ParseOptions, st: Store)
    ensures Known(o, st, "")
  {}

  lemma {:induction false} SkipBlankLines(o: ParseOptions, lines: seq<string>, n: nat, at: nat)
    requires at <= |lines| && forall i :: 0 <= i < at ==> StripComment(o, lines[i]) == ""
    ensures Segment(o, lines, n) == Segment(o, lines[at..], n + at)
    decreases at
  {
    hide StripComment, Segment;
    if at == 0 {
      assert lines[0..] == lines;
    } else {
      SegmentSkips(o, lines, n);
      SkipBlankLines(o, lines[1..], n + 1, at - 1);
      assert lines[1..][at - 1..] == lines[at..];
    }
  }

  /** A text whose first line that is not blank is no header: without the unnamed section it is refused at that line,
      and nothing is stored. */
  lemma MissingHeader(o: ParseOptions, st: Store, text: string, at: nat)
    requires !o.allowUnnamedSection && at < |Lines(text)|
    requires forall i :: 0 <= i < at ==> StripComment(o, Lines(text)[i]) == ""
    requires var c := StripComment(o, Lines(text)[at]); c != "" && !Classify(o, c).Header?
    ensures ReadString(o, st, text) == Outcome(st, Some(Located(MissingSectionHeader, at + 1)))
  {
    hide ReadString, Lines, StripComment, Classify, Segment, Conts, ContLen, ToLower, PutOption;
    ReadIsTwoPhase(o, st, text);
    var lines := Lines(text);
    SkipBlankLines(o, lines, 1, at);
    SegmentStep(o, lines[at..], 1 + at);
  }

  // ---------------------------------------------------------------- the smallest texts

  /** The store that holds one entry. */
  function OneEntry(o: ParseOptions, name: string, e: Entry): Store {
    if name == o.defaultSection then Store([e], []) else Store([], [Section(name, [e])])
  }

  function NoEntry(o: ParseOptions, name: string): Store {
    if name == o.defaultSection then EMPTY_STORE else Store([], [Section(name, [])])
  }

  /** What a header and one more line that is no header leave. */
  function Leaves(o: ParseOptions, name: string, line: string, n: nat, logical: Logical): Outcome
    requires !logical.Header?
  {
    match logical
    case Assign(key, v) => Outcome(OneEntry(o, name, Entry(ToLower(key), Some(v))), None)
    case Bare(key) => Outcome(OneEntry(o, name, Entry(ToLower(key), None)), None)
    case Junk => Outcome(NoEntry(o, name), Some(Combined([LineError(n, line)])))
  }

  lemma PutFirst(o: ParseOptions, name: string, key: string, value: OptionValue, line: nat)
    ensures PutOption(o, NoEntry(o, name), name, key, value, line) ==
            Outcome(OneEntry(o, name, Entry(key, value)), None)
  {
    var st := NoEntry(o, name);
    assert [] + [Entry(key, value)] == [Entry(key, value)];
    if name != o.defaultSection {
      assert FindSection(st.sections, name) == 0;
      assert st.sections[0 := Section(name, [Entry(key, value)])] == [Section(name, [Entry(key, value)])];
    }
  }

  lemma EnterFirst(o: ParseOptions, name: string, line: nat)
    ensures EnterSection(o, EMPTY_STORE, name, line) == Outcome(NoEntry(o, name), None)
  {
    assert [] + [Section(name, [])] == [Section(name, [])];
  }

  lemma HeaderApplies(o: ParseOptions, item: Item, name: string)
    requires name != "" && item.logical == Header(name)
    ensures ApplyItem(o, EMPTY_STORE, "", [], item) == Phase(NoEntry(o, name), name, [], None)
  {
    hide EnterSection, NoEntry;
    EnterFirst(o, name, item.line);
  }

  lemma ItemApplies(o: ParseOptions, name: string, item: Item)
    requires name != "" && !item.logical.Header? && item.conts == []
    requires item.logical.Assign? ==> JoinLines([item.logical.text] + []) == item.logical.text
    ensures var p := ApplyItem(o, NoEntry(o, name), name, [], item);
            var r := Leaves(o, name, item.original, item.line, item.logical);
            && p.thrown == None && p.store == r.store
            && r.thrown == if p.errors == [] then None else Some(Combined(p.errors))
  {
    hide PutOption, NoEntry, OneEntry, ToLower, JoinLines;
    if !item.logical.Junk? {
      PutFirst(o, name, ToLower(item.logical.key), ItemValue(item), item.line);
    }
    assert [] + [LineError(item.line, item.original)] == [LineError(item.line, item.original)];
  }

  lemma TwoLines(o: ParseOptions, first: string, line: string)
    requires StripComment(o, first) != "" && !Classify(o, StripComment(o, first)).Assign? && StripComment(o, line) != ""
    ensures Segment(o, [first, line], 1) ==
            [Item(1, first, Classify(o, StripComment(o, first)), []),
             Item(2, line, Classify(o, StripComment(o, line)), [])]
  {
    hide Classify, StripComment, Segment;
    var lines := [first, line];
    SegmentStep(o, lines, 1);
    assert lines[1..] == [line] && [line][0..] == [line] && [line][..0] == [];
    SegmentStep(o, [line], 2);
    NothingAfterLine(line);
    NoConts(o, [line]);
    NoConts(o, []);
    SegmentSkips(o, [], 3);
  }

  lemma NothingAfterLine(line: string)
    ensures [line][1..] == [] && [line][1..][0..] == []
  {}

  lemma NoConts(o: ParseOptions, lines: seq<string>)
    ensures Conts(o, lines, 0) == [] && ContLen(o, []) == 0
  {
    hide StripComment;
    assert Cleaned(o, lines[..0]) == [];
  }

  lemma TwoItems(o: ParseOptions, a: Item, b: Item)
    requires a.logical.Header? && a.logical.name != "" && !b.logical.Header? && b.conts == []
    requires b.logical.Assign? ==> JoinLines([b.logical.text] + []) == b.logical.text
    ensures Interpret(o, EMPTY_STORE, "", [], [a, b]) == Leaves(o, a.logical.name, b.original, b.line, b.logical)
  {
    hide *;
    assert [a, b] == [a] + [b] && [b] == [b] + [];
    HeaderApplies(o, a, a.logical.name);
    ItemApplies(o, a.logical.name, b);
    InterpretCons(o, EMPTY_STORE, "", [], a, [b]);
    InterpretCons(o, NoEntry(o, a.logical.name), a.logical.name, [], b, []);
    var p := ApplyItem(o, NoEntry(o, a.logical.name), a.logical.name, [], b);
    NothingLeft(o, p);
  }

  lemma NothingLeft(o: ParseOptions, p: Phase)
    ensures Interpret(o, p.store, p.section, p.errors, []) ==
            Outcome(p.store, if p.errors == [] then None else Some(Combined(p.errors)))
  {}

  lemma HeaderLines(o: ParseOptions, name: string)
    requires Shipped(o)
    ensures StripComment(o, HeaderLine(name)) == HeaderLine(name) && HeaderLine(name) != ""
    ensures Classify(o, HeaderLine(name)) == Header(name)
  {
    hide StripComment, Classify;
    NoSpace();
    SectionLine(o, "", name, "");
    assert "" + HeaderLine(name) + "" == HeaderLine(name);
  }

  /** A header and one line that is no header. */
  lemma TwoLineText(o: ParseOptions, name: string, line: string)
    requires Shipped(o) && name != "" && Lacks(name, '\n') && Lacks(line, '\n')
    requires StripComment(o, line) != "" && !Classify(o, StripComment(o, line)).Header?
    ensures ReadString(o, EMPTY_STORE, Unlines([HeaderLine(name), line])) ==
            Leaves(o, name, line, 2, Classify(o, StripComment(o, line)))
  {
    hide ReadString, Shipped, StripComment, Classify, Segment, Interpret, Leaves, Unlines, Lines, JoinLines;
    var lines := [HeaderLine(name), line];
    LinesOfUnlines(lines);
    ReadIsTwoPhase(o, EMPTY_STORE, Unlines(lines));
    HeaderLines(o, name);
    TwoLines(o, lines[0], line);
    var c := StripComment(o, line);
    if Classify(o, c).Assign? {
      AssignKey(o, c);
    }
    TwoItems(o, Item(1, lines[0], Header(name), []), Item(2, line, Classify(o, c), []));
  }

  /** A section with one option, with either delimiter, any letter case of the key and any white space: read, it is
      exactly the one entry, its key in lower case. */
  lemma PairIsStored(o: ParseOptions, name: string, before: string, key: string, gap: string, d: char, gap2: string,
                     v: string, after: string)
    requires Shipped(o) && name != "" && Lacks(name, '\n') && RawKey(key) && IsTrimmed(v) && (d == '=' || d == ':')
    requires AllSpace(before) && AllSpace(gap) && AllSpace(gap2) && AllSpace(after)
    requires key[0] != '[' || v == "" || v[|v| - 1] != ']'
    requires Lacks(before + key + gap + [d] + gap2 + v + after, '\n')
    ensures ReadString(o, EMPTY_STORE, Unlines([HeaderLine(name), before + key + gap + [d] + gap2 + v + after])) ==
            Outcome(OneEntry(o, name, Entry(ToLower(key), Some(v))), None)
  {
    hide ReadString, Shipped, StripComment, Classify, Unlines, Lacks, AllSpace, RawKey, IsTrimmed;
    PairLine(o, before, key, gap, d, gap2, v, after);
    TwoLineText(o, name, before + key + gap + [d] + gap2 + v + after);
  }

  /** A line without a delimiter: an option without a value where those are allowed, and otherwise reported. */
  lemma BareIsStored(o: ParseOptions, name: string, before: string, t: string, after: string)
    requires Shipped(o) && name != "" && Lacks(name, '\n') && RawKey(t) && !Bracketed(t)
    requires AllSpace(before) && AllSpace(after) && Lacks(before + t + after, '\n')
    ensures ReadString(o, EMPTY_STORE, Unlines([HeaderLine(name), before + t + after])) ==
            if o.allowNoValue then Outcome(OneEntry(o, name, Entry(ToLower(t), None)), None)
            else Outcome(NoEntry(o, name), Some(Combined([LineError(2, before + t + after)])))
  {
    hide ReadString, Shipped, StripComment, Classify, Unlines, Lacks, AllSpace, IsTrimmed;
    BareLine(o, before, t, after);
    TwoLineText(o, name, before + t + after);
  }

  /** A line that begins with a delimiter is reported, with its number and its text. */
  lemma NoKeyIsReported(o: ParseOptions, name: string, before: string, d: char, rest: string)
    requires Shipped(o) && name != "" && Lacks(name, '\n') && (d == '=' || d == ':')
    requires AllSpace(before) && Lacks(before + [d] + rest, '\n')
    ensures ReadString(o, EMPTY_STORE, Unlines([HeaderLine(name), before + [d] + rest])) ==
            Outcome(NoEntry(o, name), Some(Combined([LineError(2, before + [d] + rest)])))
  {
    hide ReadString, Shipped, StripComment, Classify, Unlines, Lacks, AllSpace;
    NoKeyLine(o, before, d, rest);
    TwoLineText(o, name, before + [d] + rest);
  }

  lemma OneItem(o: ParseOptions, item: Item)
    requires o.allowUnnamedSection && Benign(o) && item.logical.Assign? && item.conts == []
    requires JoinLines([item.logical.text] + []) == item.logical.text
    ensures Interpret(o, EMPTY_STORE, "", [], [item]) ==
            Outcome(OneEntry(o, UNNAMED_SECTION, Entry(ToLower(item.logical.key), Some(item.logical.text))), None)
  {
    hide ToLower, JoinLines, PutOption, Interpret;
    var v := ItemValue(item);
    assert AppendSection(EMPTY_STORE, UNNAMED_SECTION) == NoEntry(o, UNNAMED_SECTION);
    PutFirst(o, UNNAMED_SECTION, ToLower(item.logical.key), v, item.line);
    assert [item] == [item] + [];
    InterpretCons(o, EMPTY_STORE, "", [], item, []);
    NothingLeft(o, ApplyItem(o, EMPTY_STORE, "", [], item));
  }

  /** Without a header an option goes to the unnamed section where that is allowed, and is refused where not. */
  lemma HeaderlessPair(o: ParseOptions, key: string, d: char, v: string)
    requires Shipped(o) && Benign(o) && RawKey(key) && IsTrimmed(v) && (d == '=' || d == ':')
    requires key[0] != '[' || v == "" || v[|v| - 1] != ']'
    requires Lacks(key + [d] + v, '\n')
    ensures ReadString(o, EMPTY_STORE, Unlines([key + [d] + v])) ==
            if o.allowUnnamedSection then Outcome(OneEntry(o, UNNAMED_SECTION, Entry(ToLower(key), Some(v))), None)
            else Outcome(EMPTY_STORE, Some(Located(MissingSectionHeader, 1)))
  {
    hide ReadString, Shipped, StripComment, Classify, Unlines, Lines, Lacks, RawKey, IsTrimmed, Segment, Interpret,
      JoinLines, ToLower, Benign;
    var line := key + [d] + v;
    LinesOfUnlines([line]);
    NoSpace();
    PairLine(o, "", key, "", d, "", v, "");
    assert "" + key + "" + [d] + "" + v + "" == line;
    var c := StripComment(o, line);
    if o.allowUnnamedSection {
      ReadIsTwoPhase(o, EMPTY_STORE, Unlines([line]));
      SegmentStep(o, [line], 1);
      NothingAfterLine(line);
      NoConts(o, []);
      SegmentSkips(o, [], 2);
      AssignKey(o, c);
      NilConcat([Item(1, line, Assign(key, v), [])]);
      OneItem(o, Item(1, line, Assign(key, v), []));
    } else {
      MissingHeader(o, EMPTY_STORE, Unlines([line]), 0);
    }
  }

  // ---------------------------------------------------------------- where blank lines end a value

  /** A line that goes on a value. */
  function Cont(w: string): string {
    "\t" + w
  }

  lemma ContReads(o: ParseOptions, w: string)
    requires Shipped(o) && w != "" && IsTrimmed(w) && !CommentStart(w)
    ensures StripComment(o, Cont(w)) == w && Continues(o, Cont(w))
  {
    hide StripComment, Trim;
    assert "\t" + w + "" == Cont(w);
    TrimUnique("\t", w, "");
    ShippedStrip(o, Cont(w));
  }

  lemma OneCont(o: ParseOptions, w: string, rest: seq<string>)
    requires Shipped(o) && w != "" && IsTrimmed(w) && !CommentStart(w) && !o.emptyLinesInValues
    requires rest == [] || StripComment(o, rest[0]) == ""
    ensures ContLen(o, [Cont(w)] + rest) == 1
    ensures Conts(o, [Cont(w)] + rest, 1) == if rest == [] then [w] else []
  {
    hide StripComment, Shipped, IsTrimmed;
    ContReads(o, w);
    var lines := [Cont(w)] + rest;
    assert lines[1..] == rest && lines[0] == Cont(w) && lines[..1] == [Cont(w)];
    assert ContLen(o, rest) == 0;
    assert Cleaned(o, [Cont(w)]) == [w];
  }

  /** The items of a header, a pair, one line that goes on its value, and no more or one blank line. */
  lemma FourLines(o: ParseOptions, name: string, line: string, key: string, v: string, w: string, rest: seq<string>)
    requires Shipped(o) && w != "" && IsTrimmed(w) && !CommentStart(w) && !o.emptyLinesInValues
    requires rest == [] || (|rest| == 1 && StripComment(o, rest[0]) == "")
    requires StripComment(o, line) != "" && Classify(o, StripComment(o, line)) == Assign(key, v)
    ensures Segment(o, [HeaderLine(name), line] + ([Cont(w)] + rest), 1) ==
            [Item(1, HeaderLine(name), Header(name), []),
             Item(2, line, Assign(key, v), if rest == [] then [w] else [])]
  {
    hide *;
    var tail := [Cont(w)] + rest;
    Assoc([HeaderLine(name)], [line], tail);
    assert [HeaderLine(name), line] == [HeaderLine(name)] + [line];
    HeaderThen(o, name, [line] + tail);
    ConsTail(line, tail);
    SegmentStep(o, [line] + tail, 2);
    OneCont(o, w, rest);
    ConsTail(Cont(w), rest);
    BlankRest(o, rest, 4);
    NilConcat([Item(2, line, Assign(key, v), if rest == [] then [w] else [])]);
  }

  lemma HeaderThen(o: ParseOptions, name: string, more: seq<string>)
    requires Shipped(o)
    ensures Segment(o, [HeaderLine(name)] + more, 1) ==
            [Item(1, HeaderLine(name), Header(name), [])] + Segment(o, more, 2)
  {
    hide *;
    ConsTail(HeaderLine(name), more);
    HeaderLines(o, name);
    SegmentStep(o, [HeaderLine(name)] + more, 1);
    NoConts(o, more);
    assert more[0..] == more;
  }

  lemma BlankRest(o: ParseOptions, rest: seq<string>, n: nat)
    requires rest == [] || (|rest| == 1 && StripComment(o, rest[0]) == "")
    ensures Segment(o, rest, n) == []
  {
    hide StripComment, Segment;
    SegmentSkips(o, rest, n);
    if rest != [] {
      assert rest[1..] == [];
      SegmentSkips(o, [], n + 1);
    }
  }

  lemma TwoItemsStore(o: ParseOptions, a: Item, b: Item)
    requires a.logical.Header? && a.logical.name != "" && b.logical.Assign?
    ensures Interpret(o, EMPTY_STORE, "", [], [a, b]) ==
            Outcome(OneEntry(o, a.logical.name, Entry(ToLower(b.logical.key), ItemValue(b))), None)
  {
    hide *;
    assert [a, b] == [a] + [b] && [b] == [b] + [];
    var name := a.logical.name;
    HeaderApplies(o, a, name);
    InterpretCons(o, EMPTY_STORE, "", [], a, [b]);
    InterpretCons(o, NoEntry(o, name), name, [], b, []);
    PutFirst(o, name, ToLower(b.logical.key), ItemValue(b), b.line);
    PairApplies(o, NoEntry(o, name), name, b);
    NothingLeft(o, ApplyItem(o, NoEntry(o, name), name, [], b));
  }

  lemma PairApplies(o: ParseOptions, st: Store, name: string, b: Item)
    requires name != "" && b.logical.Assign?
    ensures var r, p := PutOption(o, st, name, ToLower(b.logical.key), ItemValue(b), b.line),
                        ApplyItem(o, st, name, [], b);
            p.store == r.store && p.thrown == r.thrown && p.errors == []
  {
    hide PutOption, ToLower, ItemValue;
  }

  lemma JoinsTwo(v: string, w: string)
    requires w != "" && IsTrimmed(w) && IsTrimmed(v)
    ensures JoinLines([v] + [w]) == v + "\n" + w && JoinLines([v] + []) == v
  {
    hide TrimRight;
    var t := v + "\n" + w;
    assert [v] + [w] == [v, w] && [v] + [] == [v];
    assert Join([v, w]) == t by { assert [v, w][1..] == [w]; }
    assert t[|t| - 1] == w[|w| - 1] && t + "" == t && v + "" == v;
    TrimRightUnique(t, "");
    TrimRightUnique(v, "");
  }

  lemma NoNewlines(name: string, line: string, w: string, rest: seq<string>)
    requires Lacks(name, '\n') && Lacks(line, '\n') && Lacks(w, '\n') && AllLack(rest)
    ensures AllLack([HeaderLine(name), line] + ([Cont(w)] + rest))
  {}

  /** Where blank lines end a value, a blank line after it, or a comment, loses the lines that went on it: the value
      read is its first line only. Without one it is whole. */
  lemma BlankLosesLines(o: ParseOptions, name: string, line: string, key: string, v: string, w: string,
                        rest: seq<string>)
    requires Shipped(o) && !o.emptyLinesInValues && name != "" && Lacks(name, '\n') && Lacks(line, '\n')
    requires StripComment(o, line) != "" && Classify(o, StripComment(o, line)) == Assign(key, v)
    requires w != "" && IsTrimmed(w) && !CommentStart(w) && Lacks(w, '\n')
    requires rest == [] || (|rest| == 1 && StripComment(o, rest[0]) == "" && Lacks(rest[0], '\n'))
    ensures ReadString(o, EMPTY_STORE, Unlines([HeaderLine(name), line] + ([Cont(w)] + rest))) ==
            Outcome(OneEntry(o, name, Entry(ToLower(key), Some(if rest == [] then v + "\n" + w else v))), None)
  {
    hide ReadString, StripComment, Classify, Segment, Interpret, Unlines, Lines, JoinLines, Lacks, IsTrimmed, Shipped,
      ToLower, OneEntry, CommentStart;
    var lines := [HeaderLine(name), line] + ([Cont(w)] + rest);
    NoNewlines(name, line, w, rest);
    LinesOfUnlines(lines);
    ReadIsTwoPhase(o, EMPTY_STORE, Unlines(lines));
    FourLines(o, name, line, key, v, w, rest);
    ValueTrimmed(o, line, key, v);
    JoinsTwo(v, w);
    TwoItemsStore(o, Item(1, HeaderLine(name), Header(name), []),
                  Item(2, line, Assign(key, v), if rest == [] then [w] else []));
  }

  lemma ValueTrimmed(o: ParseOptions, line: string, key: string, v: string)
    requires StripComment(o, line) != "" && Classify(o, StripComment(o, line)) == Assign(key, v)
    ensures IsTrimmed(v)
  {
    hide StripComment, FirstDelimiter;
  }
}
