/** The round trip holds of exactly the printable stores. */
module IniExact {
  import opened Text
  import opened IniStore
  import opened IniParse
  import opened IniTwoPhase
  import opened IniPrint
  import opened IniNormal
  import opened IniRoundTrip
  import opened IniNormalForm

  // ---------------------------------------------------------------- counting values with a newline

  /** 1 for an item that owns a continuation line that is not blank. */
  function LongItem(item: Item): nat {
    if item.logical.Assign? && !AllEmpty(item.conts) then 1 else 0
  }

  function LongItems(items: seq<Item>): nat {
    if items == [] then 0 else LongItem(items[0]) + LongItems(items[1..])
  }

  function LongEntry(e: Entry): nat {
    if Lacks(Shown(e), '\n') then 0 else 1
  }

  function LongEntries(items: Items): nat {
    if items == [] then 0 else LongEntry(items[0]) + LongEntries(items[1..])
  }

  function LongSections(sections: seq<Section>): nat {
    if sections == [] then 0 else LongEntries(sections[0].items) + LongSections(sections[1..])
  }

  function LongStore(st: Store): nat {
    LongEntries(st.defaults) + LongSections(st.sections)
  }

  lemma {:induction false} LongConcat(a: seq<Item>, b: seq<Item>)
    ensures LongItems(a + b) == LongItems(a) + LongItems(b)
  {
    hide LongItem;
    if a == [] {
      NilConcat(b);
    } else {
      assert (a + b)[1..] == a[1..] + b;
      LongConcat(a[1..], b);
    }
  }

  lemma {:induction false} LongUpdate(items: Items, i: nat, e: Entry)
    requires i < |items|
    ensures LongEntries(items[i := e]) + LongEntry(items[i]) == LongEntries(items) + LongEntry(e)
  {
    hide LongEntry;
    if i > 0 {
      assert items[i := e][1..] == items[1..][i - 1 := e];
      LongUpdate(items[1..], i - 1, e);
    }
  }

  lemma {:induction false} LongAppend(items: Items, e: Entry)
    ensures LongEntries(items + [e]) == LongEntries(items) + LongEntry(e)
  {
    hide LongEntry;
    if items == [] {
      assert items + [e] == [e] && [e][1..] == [];
    } else {
      assert (items + [e])[1..] == items[1..] + [e];
      LongAppend(items[1..], e);
    }
  }

  lemma LongPut(items: Items, e: Entry)
    ensures LongEntries(PutItem(items, e.key, e.value)) <= LongEntries(items) + LongEntry(e)
  {
    hide LongEntry, LongEntries;
    var i := FindKey(items, e.key);
    assert Entry(e.key, e.value) == e;
    if i < |items| {
      LongUpdate(items, i, e);
    } else {
      LongAppend(items, e);
    }
  }

  lemma {:induction false} LongSectionUpdate(sections: seq<Section>, i: nat, s: Section)
    requires i < |sections|
    ensures LongSections(sections[i := s]) + LongEntries(sections[i].items) ==
            LongSections(sections) + LongEntries(s.items)
  {
    hide LongEntries;
    if i > 0 {
      assert sections[i := s][1..] == sections[1..][i - 1 := s];
      LongSectionUpdate(sections[1..], i - 1, s);
    }
  }

  lemma {:induction false} LongSectionAppend(sections: seq<Section>, name: string)
    ensures LongSections(sections + [Section(name, [])]) == LongSections(sections)
  {
    var s := Section(name, []);
    if sections == [] {
      assert sections + [s] == [s] && [s][1..] == [];
    } else {
      assert (sections + [s])[1..] == sections[1..] + [s];
      LongSectionAppend(sections[1..], name);
    }
  }

  lemma LongWith(st: Store, slot: Slot, items: Items)
    requires ValidSlot(st, slot)
    ensures LongStore(WithItems(st, slot, items)) + LongEntries(ItemsAt(st, slot)) == LongStore(st) + LongEntries(items)
  {
    hide LongEntries, LongSections;
    if slot.Stored? {
      LongSectionUpdate(st.sections, slot.index, st.sections[slot.index].(items := items));
    }
  }

  /** A value with a newline can only come from a continuation line. */
  lemma LongValue(item: Item)
    requires NormalItem(item) && item.logical.Assign?
    ensures LongEntry(Entry(ToLower(item.logical.key), ItemValue(item))) <= LongItem(item)
  {
    hide RawKey, AllClean, Join, TrimRight;
    var text := item.logical.text;
    if AllEmpty(item.conts) {
      var n := |item.conts|;
      assert item.conts == Blanks(n);
      var nl := JoinBlanks([text], n);
      JoinOne(text);
      TrimRightUnique(text, nl);
    }
  }

  lemma JoinOne(l: string)
    ensures Join([l]) == l
  {}

  lemma LongApply(o: ParseOptions, st: Store, section: string, errors: seq<LineError>, item: Item)
    requires Standard(o) && NormalItem(item)
    ensures LongStore(ApplyItem(o, st, section, errors, item).store) <= LongStore(st) + LongItem(item)
  {
    hide NormalItem, SlotOf, HasStored, HasKey, ItemValue, PutItem, LongStore, LongEntry, LongItem, LongEntries,
      WithItems;
    if item.logical.Header? {
      hide LongEntry;
      LongOpen(st, item.logical.name);
    } else if item.logical.Assign? && !SlotOf(o, st, section).Missing? {
      var slot := SlotOf(o, st, section);
      var e := Entry(ToLower(item.logical.key), ItemValue(item));
      LongValue(item);
      LongPut(ItemsAt(st, slot), e);
      LongWith(st, slot, PutItem(ItemsAt(st, slot), e.key, e.value));
    } else {
      BareIsAbsent(item);
    }
  }

  lemma BareIsAbsent(item: Item)
    requires NormalItem(item)
    ensures !item.logical.Bare?
  {}

  lemma LongOpen(st: Store, name: string)
    ensures LongStore(AppendSection(st, name)) == LongStore(st)
  {
    hide LongEntries, LongSections;
    LongSectionAppend(st.sections, name);
  }

  lemma {:induction false} LongInterpret(o: ParseOptions, st: Store, section: string, errors: seq<LineError>,
                                         items: seq<Item>)
    requires Standard(o) && AllNormal(items)
    ensures LongStore(Interpret(o, st, section, errors, items).store) <= LongStore(st) + LongItems(items)
    decreases |items|
  {
    hide Standard, NormalItem, AllNormal, ApplyItem, LongStore, LongItem;
    if items != [] {
      AllNormalTail(items);
      LongApply(o, st, section, errors, items[0]);
      var p := ApplyItem(o, st, section, errors, items[0]);
      if p.thrown.None? {
        LongInterpret(o, p.store, p.section, p.errors, items[1..]);
      }
    }
  }

  // ---------------------------------------------------------------- counting sections

  /** 1 for a header that can open a section. */
  function OpensSection(o: ParseOptions, item: Item): nat {
    if item.logical.Header? && item.logical.name != o.defaultSection then 1 else 0
  }

  function Openings(o: ParseOptions, items: seq<Item>): nat {
    if items == [] then 0 else OpensSection(o, items[0]) + Openings(o, items[1..])
  }

  lemma {:induction false} OpeningsConcat(o: ParseOptions, a: seq<Item>, b: seq<Item>)
    ensures Openings(o, a + b) == Openings(o, a) + Openings(o, b)
  {
    hide OpensSection;
    if a == [] {
      NilConcat(b);
    } else {
      assert (a + b)[1..] == a[1..] + b;
      OpeningsConcat(o, a[1..], b);
    }
  }

  lemma SectionsApply(o: ParseOptions, st: Store, section: string, errors: seq<LineError>, item: Item)
    requires Standard(o)
    ensures |ApplyItem(o, st, section, errors, item).store.sections| <= |st.sections| + OpensSection(o, item)
  {
    hide ItemValue, PutItem, HasKey, HasStored, ToLower;
  }

  lemma {:induction false} SectionsInterpret(o: ParseOptions, st: Store, section: string, errors: seq<LineError>,
                                             items: seq<Item>)
    requires Standard(o)
    ensures |Interpret(o, st, section, errors, items).store.sections| <= |st.sections| + Openings(o, items)
    decreases |items|
  {
    hide Standard, ApplyItem, OpensSection;
    if items != [] {
      SectionsApply(o, st, section, errors, items[0]);
      var p := ApplyItem(o, st, section, errors, items[0]);
      if p.thrown.None? {
        SectionsInterpret(o, p.store, p.section, p.errors, items[1..]);
      }
    }
  }

  function Named(sections: seq<Section>): nat {
    if sections == [] then 0 else (if sections[0].name == UNNAMED_SECTION then 0 else 1) + Named(sections[1..])
  }

  lemma {:induction false} NamedAll(sections: seq<Section>)
    ensures Named(sections) <= |sections|
    ensures Named(sections) == |sections| ==> forall i :: 0 <= i < |sections| ==> sections[i].name != UNNAMED_SECTION
  {
    if sections != [] {
      NamedAll(sections[1..]);
    }
  }

  // ---------------------------------------------------------------- what printed lines are cut into

  lemma {:induction false} GivenCounts(o: ParseOptions, its: seq<Item>, items: Items)
    requires AllGive(its, items)
    ensures LongItems(its) <= LongEntries(items) && Openings(o, its) == 0
    decreases |its|
  {
    hide Gives, AllGive, LongItem, LongEntry, OpensSection;
    GivenNil(its, items);
    if its != [] {
      GivenCount(o, its, items);
      AllGiveTail(its, items);
      GivenCounts(o, its[1..], items[1..]);
    }
  }

  lemma GivenNil(its: seq<Item>, items: Items)
    requires AllGive(its, items)
    ensures |its| == |items|
  {}

  lemma GivenCount(o: ParseOptions, its: seq<Item>, items: Items)
    requires AllGive(its, items) && its != []
    ensures |items| > 0 && LongItem(its[0]) <= LongEntry(items[0]) && OpensSection(o, its[0]) == 0
  {
    hide ItemValue, ToLower, Lacks, AllEmpty;
    assert Gives(its[0], items[0]);
  }

  predicate AllPlain(sections: seq<Section>) {
    forall i :: 0 <= i < |sections| ==> PlainItems(sections[i].items)
  }

  /** One printed section's lines, header or not, as items; `k` counts the lines consumed. */
  lemma SegSection(o: ParseOptions, s: Section, delim: string, rest: seq<string>, n: nat)
    returns (its: seq<Item>, m: nat)
    requires Standard(o) && StandardGap(delim) && Calm(o, rest) && PlainItems(s.items) && s.name != o.defaultSection
    ensures Segment(o, SectionHead(s) + (BodyLines(s.items, delim, true) + ([""] + rest)), n) ==
            its + Segment(o, rest, m)
    ensures LongItems(its) <= LongEntries(s.items)
    ensures Openings(o, its) == if s.name == UNNAMED_SECTION then 0 else 1
  {
    hide *;
    var body := BodyLines(s.items, delim, true);
    CalmBlank(o, rest);
    SectionHeadIs(s);
    if s.name == UNNAMED_SECTION {
      NilConcat(body + ([""] + rest));
      its := SegBody(o, s.items, delim, [""] + rest, n);
      SegBlankFirst(o, rest, n + |body|);
      m := n + |body| + 1;
      GivenCounts(o, its, s.items);
    } else {
      SegHeader(o, s.name, body + ([""] + rest), n);
      var more := SegBody(o, s.items, delim, [""] + rest, n + 1);
      SegBlankFirst(o, rest, n + 1 + |body|);
      m := n + 1 + |body| + 1;
      GivenCounts(o, more, s.items);
      var head := Item(n, HeaderLine(s.name), Header(s.name), []);
      Assoc([head], more, Segment(o, rest, m));
      HeaderCounts(o, head, more);
      its := [head] + more;
    }
  }

  lemma SectionHeadIs(s: Section)
    ensures SectionHead(s) == if s.name == UNNAMED_SECTION then [] else [HeaderLine(s.name)]
  {}

  lemma HeaderCounts(o: ParseOptions, head: Item, more: seq<Item>)
    requires head.logical.Header?
    ensures LongItems([head] + more) == LongItems(more)
    ensures Openings(o, [head] + more) == Openings(o, more) + if head.logical.name == o.defaultSection then 0 else 1
  {
    assert ([head] + more)[1..] == more;
  }

  lemma {:induction false} SegSections(o: ParseOptions, sections: seq<Section>, delim: string, n: nat)
    returns (its: seq<Item>)
    requires Standard(o) && StandardGap(delim) && AllPlain(sections)
    requires forall i :: 0 <= i < |sections| ==> sections[i].name != o.defaultSection
    ensures Segment(o, SectionLines(sections, delim), n) == its
    ensures LongItems(its) <= LongSections(sections) && Openings(o, its) == Named(sections)
    decreases |sections|
  {
    hide *;
    if sections == [] {
      SectionLinesNil(delim);
      CountsNil(o, n);
      its := [];
    } else {
      AllPlainTail(sections);
      var rest := SectionLines(sections[1..], delim);
      SectionLinesCons(sections, delim);
      SectionHeadIs(sections[0]);
      assert forall i :: 0 <= i < |sections[1..]| ==> sections[1..][i] == sections[i + 1];
      CalmSections(o, sections[1..], delim);
      var first, m := SegSection(o, sections[0], delim, rest, n);
      var more := SegSections(o, sections[1..], delim, m);
      its := first + more;
      LongConcat(first, more);
      OpeningsConcat(o, first, more);
      CountsCons(sections);
    }
  }

  lemma CountsNil(o: ParseOptions, n: nat)
    ensures Segment(o, [], n) == [] && LongItems([]) == 0 && LongSections([]) == 0
    ensures Openings(o, []) == 0 && Named([]) == 0
  {}

  lemma CountsCons(sections: seq<Section>)
    requires sections != []
    ensures LongSections(sections) == LongEntries(sections[0].items) + LongSections(sections[1..])
    ensures Named(sections) == (if sections[0].name == UNNAMED_SECTION then 0 else 1) + Named(sections[1..])
  {}

  lemma AllPlainTail(sections: seq<Section>)
    requires AllPlain(sections) && sections != []
    ensures PlainItems(sections[0].items) && AllPlain(sections[1..])
    ensures forall i :: 0 <= i < |sections[1..]| ==> PlainItems(sections[1..][i].items)
  {
    hide PlainItems;
  }

  // ---------------------------------------------------------------- the raw DEFAULT block

  /** A line that continues a value only when it is blank. */
  predicate Flat(o: ParseOptions, line: string) {
    Indented(line) ==> Blank(o, line)
  }

  predicate AllFlat(o: ParseOptions, lines: seq<string>) {
    forall i :: 0 <= i < |lines| ==> Flat(o, lines[i])
  }

  lemma AllFlatTail(o: ParseOptions, lines: seq<string>)
    requires AllFlat(o, lines) && lines != []
    ensures Flat(o, lines[0]) && AllFlat(o, lines[1..])
  {
    hide Flat;
  }

  lemma AllFlatConcat(o: ParseOptions, a: seq<string>, b: seq<string>)
    requires AllFlat(o, a) && AllFlat(o, b)
    ensures AllFlat(o, a + b)
  {
    hide Flat;
    forall i | 0 <= i < |a + b|
      ensures Flat(o, (a + b)[i])
    {
      assert (a + b)[i] == if i < |a| then a[i] else b[i - |a|];
    }
  }

  lemma {:induction false} CalmFlat(o: ParseOptions, block: seq<string>, rest: seq<string>)
    requires AllFlat(o, block) && Calm(o, rest)
    ensures Calm(o, block + rest)
    decreases |block|
  {
    hide *;
    if block == [] {
      NilConcat(rest);
    } else {
      var l, tail := block[0], block[1..] + rest;
      AllFlatTail(o, block);
      CalmFlat(o, block[1..], rest);
      HeadTail(block);
      Assoc([l], block[1..], rest);
      CalmCons(o, l, tail);
    }
  }

  lemma CalmCons(o: ParseOptions, l: string, tail: seq<string>)
    requires Flat(o, l) && Calm(o, tail)
    ensures Calm(o, [l] + tail)
  {
    hide StripComment, Indented;
    var lines := [l] + tail;
    assert lines[0] == l && lines[1..] == tail;
    if Continues(o, l) {
      assert Blank(o, l);
      hide Blank;
      forall i | 0 <= i < ContLen(o, lines)
        ensures Blank(o, lines[i])
      {
        if i > 0 {
          assert lines[i] == tail[i - 1];
        }
      }
    }
  }

  /** Before a calm tail a line adds no value with a newline. */
  lemma LongStep(o: ParseOptions, l: string, tail: seq<string>, n: nat)
    requires Flat(o, l) && Calm(o, tail) && o.emptyLinesInValues
    ensures LongItems(Segment(o, [l] + tail, n)) == LongItems(Segment(o, tail, n + 1))
  {
    hide *;
    var lines := [l] + tail;
    assert lines[0] == l && lines[1..] == tail;
    if Blank(o, l) {
      SegmentBlank(o, lines, n);
    } else {
      NotBlank(o, l);
      SegmentStep(o, lines, n);
      var logical := Classify(o, StripComment(o, l));
      var k := if logical.Assign? then ContLen(o, tail) else 0;
      var item := Item(n, l, logical, Cleaned(o, tail[..k]));
      ContsKept(o, tail, k);
      if logical.Assign? {
        SkipCalm(o, tail, n + 1);
        CleanedCalm(o, tail);
        BlanksEmpty(k);
      } else {
        assert tail[0..] == tail;
      }
      LongItemZero(item, Segment(o, tail[k..], n + 1 + k));
    }
  }

  lemma NotBlank(o: ParseOptions, l: string)
    requires !Blank(o, l)
    ensures StripComment(o, l) != ""
  {}

  lemma BlanksEmpty(k: nat)
    ensures AllEmpty(Blanks(k))
  {}

  lemma LongItemZero(item: Item, rest: seq<Item>)
    requires item.logical.Assign? ==> AllEmpty(item.conts)
    ensures LongItems([item] + rest) == LongItems(rest)
  {
    assert ([item] + rest)[1..] == rest;
  }

  lemma {:induction false} LongBlock(o: ParseOptions, block: seq<string>, rest: seq<string>, n: nat)
    requires AllFlat(o, block) && Calm(o, rest) && o.emptyLinesInValues
    ensures LongItems(Segment(o, block + rest, n)) == LongItems(Segment(o, rest, n + |block|))
    decreases |block|
  {
    hide *;
    if block == [] {
      NilConcat(rest);
    } else {
      var tail := block[1..] + rest;
      AllFlatTail(o, block);
      CalmFlat(o, block[1..], rest);
      HeadTail(block);
      Assoc([block[0]], block[1..], rest);
      LongStep(o, block[0], tail, n);
      LongBlock(o, block[1..], rest, n + 1);
    }
  }

  lemma FlatTrimmed(o: ParseOptions, l: string)
    requires Standard(o) && IsTrimmed(l)
    ensures Flat(o, l)
  {
    hide StripComment;
    BlankReads(o);
  }

  lemma EntryLinesFlat(o: ParseOptions, e: Entry, delim: string)
    requires Standard(o) && NormalEntry(e)
    ensures AllFlat(o, EntryLines(e.key, delim, Shown(e), false))
  {
    hide Flat, Split, DelimiterFree, CommentStart, Standard, IsLower, Lacks;
    var vs := Split(Shown(e));
    var lines := EntryLines(e.key, delim, Shown(e), false);
    forall i | 0 <= i < |lines|
      ensures Flat(o, lines[i])
    {
      if i == 0 {
        assert lines[0][0] == e.key[0];
        FlatStart(o, lines[0]);
      } else {
        assert lines[i] == vs[i];
        FlatTrimmed(o, vs[i]);
      }
    }
  }

  lemma FlatStart(o: ParseOptions, l: string)
    requires l != "" && !IsSpace(l[0])
    ensures Flat(o, l)
  {}

  lemma {:induction false} BodyLinesFlat(o: ParseOptions, items: Items, delim: string)
    requires Standard(o) && forall i :: 0 <= i < |items| ==> NormalEntry(items[i])
    ensures AllFlat(o, BodyLines(items, delim, false))
  {
    hide NormalEntry, AllFlat, Standard, EntryLines;
    if items == [] {
      AllFlatNil(o);
    } else {
      EntryLinesFlat(o, items[0], delim);
      BodyLinesFlat(o, items[1..], delim);
      AllFlatConcat(o, EntryLines(items[0].key, delim, Shown(items[0]), false), BodyLines(items[1..], delim, false));
    }
  }

  lemma AllFlatNil(o: ParseOptions)
    ensures AllFlat(o, []) && AllFlat(o, [""])
  {}

  lemma DefaultLinesFlat(o: ParseOptions, defaults: Items, delim: string)
    requires Standard(o) && NormalItems(defaults)
    ensures AllFlat(o, DefaultLines(o, defaults, delim))
  {
    hide AllFlat, Standard, BodyLines, NormalEntry, DistinctKeys;
    AllFlatNil(o);
    BodyLinesFlat(o, defaults, delim);
    HeaderFlat(o, o.defaultSection);
    AllFlatConcat(o, [HeaderLine(o.defaultSection)], BodyLines(defaults, delim, false));
    AllFlatConcat(o, [HeaderLine(o.defaultSection)] + BodyLines(defaults, delim, false), [""]);
  }

  lemma HeaderFlat(o: ParseOptions, name: string)
    ensures AllFlat(o, [HeaderLine(name)])
  {
    FlatStart(o, HeaderLine(name));
  }

  // ---------------------------------------------------------------- the converse

  lemma {:induction false} NoLongEntries(items: Items)
    requires LongEntries(items) == 0
    ensures SingleLine(items)
  {
    if items != [] {
      NoLongEntries(items[1..]);
      var tail := items[1..];
      forall i | 0 <= i < |items| && items[i].value.Some?
        ensures Lacks(items[i].value.value, '\n')
      {
        if i > 0 {
          assert tail[i - 1] == items[i];
        }
      }
    }
  }

  lemma WritableNoBrackets(o: ParseOptions, items: Items)
    requires Standard(o) && NormalItems(items) && Writable(o, items)
    ensures NoBracketKeys(items)
  {
    hide NormalKey, NormalValue, DistinctKeys;
    forall i | 0 <= i < |items|
      ensures items[i].key == "" || items[i].key[0] != '['
    {
      assert NormalEntry(items[i]);
      assert PrintsBare(o, items[i]) || WritableKey(o, items[i].key);
    }
  }

  /** A store that can be written has no bracketed key. */
  lemma WriteNoBrackets(o: ParseOptions, st: Store, spaced: bool)
    requires Standard(o) && Normal(o, st) && o.delimiters != [] && Write(o, st, spaced).Ok?
    ensures NoBracketKeys(st.defaults) && PlainItems(st.defaults)
    ensures forall i :: 0 <= i < |st.sections| ==> NoBracketKeys(st.sections[i].items)
    ensures AllPlain(st.sections)
  {
    hide Standard, Writable, NormalItems, NoBracketKeys, PlainItems, NormalName, DefaultsText, SectionsText;
    WritableNoBrackets(o, st.defaults);
    PlainFrom(st.defaults);
    forall i | 0 <= i < |st.sections|
      ensures NoBracketKeys(st.sections[i].items) && PlainItems(st.sections[i].items)
    {
      assert NormalSection(o, st.sections[i]);
      WritableNoBrackets(o, st.sections[i].items);
      PlainFrom(st.sections[i].items);
    }
  }

  lemma NormalParts(o: ParseOptions, st: Store)
    requires Normal(o, st)
    ensures NormalItems(st.defaults)
    ensures forall i :: 0 <= i < |st.sections| ==> st.sections[i].name != o.defaultSection
  {
    forall i | 0 <= i < |st.sections|
      ensures st.sections[i].name != o.defaultSection
    {
      assert NormalSection(o, st.sections[i]);
    }
  }

  lemma WriteLinesParts(o: ParseOptions, st: Store, delim: string)
    ensures WriteLines(o, st, delim) == DefaultLines(o, st.defaults, delim) + SectionLines(st.sections, delim)
  {}

  lemma EmptyCounts()
    ensures LongStore(EMPTY_STORE) == 0 && EMPTY_STORE.sections == []
  {}

  lemma LongStoreIs(st: Store)
    ensures LongStore(st) == LongEntries(st.defaults) + LongSections(st.sections)
  {}

  /** If the printed lines read back as the store, DEFAULT holds no value with a newline. */
  lemma DefaultsSingle(o: ParseOptions, st: Store, delim: string)
    requires Standard(o) && Normal(o, st) && StandardGap(delim) && AllPlain(st.sections)
    requires Interpret(o, EMPTY_STORE, "", [], Segment(o, WriteLines(o, st, delim), 1)) == Outcome(st, None)
    requires AllLack(WriteLines(o, st, delim))
    ensures SingleLine(st.defaults)
  {
    hide *;
    NormalParts(o, st);
    WriteLinesParts(o, st, delim);
    var block, rest := DefaultLines(o, st.defaults, delim), SectionLines(st.sections, delim);
    DefaultLinesFlat(o, st.defaults, delim);
    AllPlainUnfold(st.sections);
    CalmSections(o, st.sections, delim);
    StandardFacts(o);
    LongBlock(o, block, rest, 1);
    var its := SegSections(o, st.sections, delim, 1 + |block|);
    SegmentNormal(o, WriteLines(o, st, delim), 1);
    LongInterpret(o, EMPTY_STORE, "", [], Segment(o, WriteLines(o, st, delim), 1));
    EmptyCounts();
    LongStoreIs(st);
    NoLongEntries(st.defaults);
  }

  lemma AllPlainUnfold(sections: seq<Section>)
    requires AllPlain(sections)
    ensures forall i :: 0 <= i < |sections| ==> PlainItems(sections[i].items)
  {}

  /** If they do, no section carries the unnamed marker, whose header is not printed. */
  lemma AllNamed(o: ParseOptions, st: Store, delim: string)
    requires Standard(o) && Normal(o, st) && StandardGap(delim) && AllPlain(st.sections)
    requires PlainItems(st.defaults) && SingleLine(st.defaults)
    requires Interpret(o, EMPTY_STORE, "", [], Segment(o, WriteLines(o, st, delim), 1)) == Outcome(st, None)
    ensures forall i :: 0 <= i < |st.sections| ==> st.sections[i].name != UNNAMED_SECTION
  {
    hide *;
    NormalParts(o, st);
    WriteLinesAre(o, st, delim);
    var rest := SectionLines(st.sections, delim);
    var all := Segment(o, WriteLines(o, st, delim), 1);
    if st.defaults == [] {
      NilConcat(rest);
      var its := SegSections(o, st.sections, delim, 1);
    } else {
      var body := BodyLines(st.defaults, delim, true);
      UnfoldedBody(st.defaults, delim);
      AllPlainUnfold(st.sections);
      CalmSections(o, st.sections, delim);
      CalmBlank(o, rest);
      SegHeader(o, o.defaultSection, body + ([""] + rest), 1);
      var its := SegBody(o, st.defaults, delim, [""] + rest, 2);
      SegBlankFirst(o, rest, 2 + |body|);
      var more := SegSections(o, st.sections, delim, 3 + |body|);
      HeaderCounts(o, Item(1, HeaderLine(o.defaultSection), Header(o.defaultSection), []), its + more);
      OpeningsConcat(o, its, more);
      GivenCounts(o, its, st.defaults);
    }
    SectionsInterpret(o, EMPTY_STORE, "", [], all);
    EmptyCounts();
    NamedAll(st.sections);
  }

  lemma PrintableFrom(o: ParseOptions, st: Store)
    requires Normal(o, st) && SingleLine(st.defaults) && NoBracketKeys(st.defaults)
    requires forall i :: 0 <= i < |st.sections| ==> NoBracketKeys(st.sections[i].items)
    requires forall i :: 0 <= i < |st.sections| ==> st.sections[i].name != UNNAMED_SECTION
    ensures Printable(o, st)
  {
    hide Normal, NoBracketKeys, SingleLine;
  }

  lemma OnlyPrintable(o: ParseOptions, st: Store, spaced: bool)
    requires Standard(o) && o.delimiters != [] && Write(o, st, spaced).Ok?
    requires ReadString(o, EMPTY_STORE, Write(o, st, spaced).value) == Outcome(st, None)
    ensures Printable(o, st)
  {
    hide *;
    ReadNormal(o, Write(o, st, spaced).value);
    StandardDelimiterText(o, spaced);
    StandardFacts(o);
    WriteNoBrackets(o, st, spaced);
    NormalLacks(o, st);
    ReadWrite(o, st, spaced);
    WriteLinesLack(o, st, Delimiter(o, spaced));
    DefaultsSingle(o, st, Delimiter(o, spaced));
    AllNamed(o, st, Delimiter(o, spaced));
    PrintableFrom(o, st);
  }

  /** Printing the store works, and reading the text raises nothing and gives the store back. */
  predicate Survives(o: ParseOptions, st: Store, spaced: bool)
    requires o.delimiters != []
  {
    Write(o, st, spaced).Ok? && ReadString(o, EMPTY_STORE, Write(o, st, spaced).value) == Outcome(st, None)
  }

  /** Main result: of all stores whatsoever, exactly the printable ones come back from their own printed text. */
  lemma RoundTripExactly(o: ParseOptions, st: Store, spaced: bool)
    requires Standard(o) && o.delimiters != []
    ensures Printable(o, st) <==> Survives(o, st, spaced)
  {
    hide Printable, Write, ReadString, Standard;
    if Printable(o, st) {
      PrintThenParse(o, st, spaced);
    } else if Survives(o, st, spaced) {
      OnlyPrintable(o, st, spaced);
    }
  }

  /** The store any text leaves, even when reading it throws, survives print and read exactly when it holds no key
      that starts with '[', no section named with the unnamed marker, and no DEFAULT value with a newline. */
  lemma ReadPrintRead(o: ParseOptions, text: string, spaced: bool)
    requires Standard(o) && o.delimiters != []
    ensures var st := ReadString(o, EMPTY_STORE, text).store;
            Survives(o, st, spaced) <==>
            (&& SingleLine(st.defaults) && NoBracketKeys(st.defaults)
             && forall i :: 0 <= i < |st.sections| ==>
                  st.sections[i].name != UNNAMED_SECTION && NoBracketKeys(st.sections[i].items))
  {
    hide Normal, ReadString, Survives, Standard, SingleLine, NoBracketKeys;
    var st := ReadString(o, EMPTY_STORE, text).store;
    ReadNormal(o, text);
    RoundTripExactly(o, st, spaced);
  }
}
