/** Printing a printable store and reading the text back is the identity. */
module IniRoundTrip {
  import opened Text
  import opened IniStore
  import opened IniParse
  import opened IniTwoPhase
  import opened IniPrint
  import opened IniNormal
  import opened IniLines

  // ---------------------------------------------------------------- values

  /** n empty lines. */
  function Blanks(n: nat): (r: seq<string>)
    ensures |r| == n
  {
    seq(n, _ => "")
  }

  lemma {:induction false} JoinBlanks(ls: seq<string>, n: nat) returns (nl: string)
    requires ls != []
    ensures AllSpace(nl) && Join(ls + Blanks(n)) == Join(ls) + nl
  {
    nl := "";
    if n == 0 {
      assert ls + Blanks(0) == ls;
    } else {
      var m := JoinBlanks(ls, n - 1);
      var shorter := ls + Blanks(n - 1);
      assert ls + Blanks(n) == shorter + [""];
      JoinAppend(shorter, [""]);
      nl := m + "\n";
      assert Join(shorter) + "\n" + "" == Join(ls) + nl;
    }
  }

  /** Blank lines after a value are given up again when its lines are joined. */
  lemma JoinLinesBack(v: string, n: nat)
    requires v != "" ==> !IsSpace(v[|v| - 1])
    ensures JoinLines(Split(v) + Blanks(n)) == v
  {
    var nl := JoinBlanks(Split(v), n);
    JoinOfSplit(v);
    TrimRightUnique(v, nl);
    hide Join, Split, TrimRight, AllSpace;
  }

  lemma SplitSingle(v: string)
    requires Lacks(v, '\n')
    ensures Split(v) == [v]
  {
    NewlineAtUnique(v, "");
  }

  // ---------------------------------------------------------------- cutting printed lines

  predicate Blank(o: ParseOptions, line: string) {
    StripComment(o, line) == ""
  }

  predicate BlankRun(o: ParseOptions, lines: seq<string>, k: nat)
    requires k <= |lines|
  {
    forall i :: 0 <= i < k ==> Blank(o, lines[i])
  }

  /** The lines continuing whatever came before are all blank. */
  predicate Calm(o: ParseOptions, lines: seq<string>) {
    BlankRun(o, lines, ContLen(o, lines))
  }

  lemma {:induction false} SkipBlanks(o: ParseOptions, lines: seq<string>, k: nat, n: nat)
    requires k <= |lines| && BlankRun(o, lines, k)
    ensures Segment(o, lines, n) == Segment(o, lines[k..], n + k)
    decreases k
  {
    hide *;
    if k == 0 {
      assert lines[0..] == lines;
    } else {
      BlankRunTail(o, lines, k);
      SegmentBlank(o, lines, n);
      SkipBlanks(o, lines[1..], k - 1, n + 1);
      DropTail(lines, k);
    }
  }

  lemma BlankRunTail(o: ParseOptions, lines: seq<string>, k: nat)
    requires 1 <= k <= |lines| && BlankRun(o, lines, k)
    ensures Blank(o, lines[0]) && BlankRun(o, lines[1..], k - 1)
  {
    hide Blank;
  }

  lemma SegmentBlank(o: ParseOptions, lines: seq<string>, n: nat)
    requires lines != [] && Blank(o, lines[0])
    ensures Segment(o, lines, n) == Segment(o, lines[1..], n + 1)
  {
    hide StripComment;
  }

  lemma {:induction false} ContLenConcat(o: ParseOptions, a: seq<string>, b: seq<string>)
    requires forall i :: 0 <= i < |a| ==> Continues(o, a[i])
    ensures ContLen(o, a + b) == |a| + ContLen(o, b)
  {
    hide Continues;
    if a == [] {
      assert a + b == b;
    } else {
      assert (a + b)[1..] == a[1..] + b;
      ContLenConcat(o, a[1..], b);
    }
  }

  lemma CalmBlank(o: ParseOptions, rest: seq<string>)
    requires Standard(o) && Calm(o, rest)
    ensures Calm(o, [""] + rest)
  {
    BlankReads(o);
    var lines := [""] + rest;
    assert Blank(o, "");
    ContLenConcat(o, [""], rest);
    hide Blank, ContLen;
    forall i | 0 <= i < ContLen(o, lines)
      ensures Blank(o, lines[i])
    {
      if i > 0 {
        assert lines[i] == rest[i - 1];
      }
    }
  }

  lemma CalmFirst(o: ParseOptions, first: string, rest: seq<string>)
    requires !Continues(o, first)
    ensures Calm(o, [first] + rest)
  {
    hide Continues, Blank;
  }

  predicate PlainEntry(e: Entry) {
    NormalEntry(e) && e.key[0] != '['
  }

  /** The tabbed lines of a value come back cleaned as they were. */
  lemma TabbedReads(o: ParseOptions, ls: seq<string>)
    requires Standard(o) && forall i :: 0 <= i < |ls| ==> IsTrimmed(ls[i]) && !CommentStart(ls[i])
    ensures forall i :: 0 <= i < |ls| ==> Continues(o, Tabbed(ls)[i])
    ensures Cleaned(o, Tabbed(ls)) == ls
  {
    forall i | 0 <= i < |ls|
      ensures Continues(o, Tabbed(ls)[i]) && StripComment(o, Tabbed(ls)[i]) == ls[i]
    {
      TabLineReads(o, ls[i]);
    }
    hide StripComment, Continues;
  }

  lemma CleanedConcat(o: ParseOptions, a: seq<string>, b: seq<string>)
    ensures Cleaned(o, a + b) == Cleaned(o, a) + Cleaned(o, b)
  {
    hide StripComment;
  }

  lemma CleanedCalm(o: ParseOptions, rest: seq<string>)
    requires Calm(o, rest)
    ensures Cleaned(o, rest[..ContLen(o, rest)]) == Blanks(ContLen(o, rest))
  {
    hide StripComment, ContLen;
  }

  lemma EntryParts(e: Entry)
    requires PlainEntry(e)
    ensures NormalKey(e.key) && e.key[0] != '[' && e.value.Some? && Shown(e) == e.value.value
    ensures var vs := Split(e.value.value);
            IsTrimmed(vs[0]) && forall i :: 0 <= i < |vs[1..]| ==> IsTrimmed(vs[1..][i]) && !CommentStart(vs[1..][i])
  {
    hide NormalKey, Split, IsTrimmed, CommentStart;
    var vs := Split(e.value.value);
    assert forall i :: 0 <= i < |vs[1..]| ==> vs[1..][i] == vs[i + 1];
  }

  lemma EntryLinesAre(key: string, delim: string, v: string)
    ensures EntryLines(key, delim, v, true) == [key + delim + Split(v)[0]] + Tabbed(Split(v)[1..])
  {}

  /** The item a printed entry is cut into, when k blank lines follow it. */
  function EntryItem(e: Entry, delim: string, k: nat, n: nat): Item
    requires e.value.Some?
  {
    var vs := Split(e.value.value);
    Item(n, e.key + delim + vs[0], Assign(e.key, vs[0]), vs[1..] + Blanks(k))
  }

  lemma EntryConts(o: ParseOptions, e: Entry, rest: seq<string>)
    requires e.value.Some?
    requires Standard(o) && PlainEntry(e) && Calm(o, rest)
    ensures var vs, k := Split(e.value.value), ContLen(o, rest);
            && ContLen(o, Tabbed(vs[1..]) + rest) == |vs| - 1 + k
            && Cleaned(o, Tabbed(vs[1..]) + rest[..k]) == vs[1..] + Blanks(k)
  {
    EntryParts(e);
    hide *;
    var vs, k := Split(e.value.value), ContLen(o, rest);
    TabbedReads(o, vs[1..]);
    ContLenConcat(o, Tabbed(vs[1..]), rest);
    CleanedConcat(o, Tabbed(vs[1..]), rest[..k]);
    CleanedCalm(o, rest);
  }

  lemma EntryHead(o: ParseOptions, e: Entry, delim: string)
    requires e.value.Some?
    requires Standard(o) && PlainEntry(e) && StandardGap(delim)
    ensures var vs := Split(e.value.value);
            var c := StripComment(o, e.key + delim + vs[0]);
            c != "" && Classify(o, c) == Assign(e.key, vs[0])
  {
    EntryParts(e);
    KeyLineReads(o, e.key, delim, Split(e.value.value)[0]);
    hide *;
  }

  lemma CalmIs(o: ParseOptions, rest: seq<string>)
    requires Calm(o, rest)
    ensures BlankRun(o, rest, ContLen(o, rest))
  {}

  lemma SkipCalm(o: ParseOptions, rest: seq<string>, n: nat)
    requires Calm(o, rest)
    ensures Segment(o, rest[ContLen(o, rest)..], n + ContLen(o, rest)) == Segment(o, rest, n)
  {
    hide *;
    CalmIs(o, rest);
    SkipBlanks(o, rest, ContLen(o, rest), n);
  }

  /** A key line, the lines continuing it, and a calm rest. */
  lemma EntrySegment(o: ParseOptions, first: string, logical: Logical, tabs: seq<string>, rest: seq<string>, n: nat)
    requires StripComment(o, first) != "" && Classify(o, StripComment(o, first)) == logical && logical.Assign?
    requires ContLen(o, tabs + rest) == |tabs| + ContLen(o, rest) && Calm(o, rest) && o.emptyLinesInValues
    ensures var k := ContLen(o, rest);
            Segment(o, [first] + tabs + rest, n) ==
            [Item(n, first, logical, Cleaned(o, tabs + rest[..k]))] + Segment(o, rest, n + 1 + |tabs|)
  {
    hide *;
    var k, tail := ContLen(o, rest), tabs + rest;
    Assoc([first], tabs, rest);
    var lines := [first] + tail;
    assert lines[0] == first && lines[1..] == tail;
    SegmentStep(o, lines, n);
    SliceTail(tabs, rest, k);
    ContsKept(o, tail, |tabs| + k);
    SkipCalm(o, rest, n + 1 + |tabs|);
  }

  /** One printed entry is one item. */
  lemma SegEntry(o: ParseOptions, e: Entry, delim: string, rest: seq<string>, n: nat)
    requires e.value.Some?
    requires Standard(o) && PlainEntry(e) && StandardGap(delim) && Calm(o, rest)
    ensures var ls := EntryLines(e.key, delim, e.value.value, true);
            Segment(o, ls + rest, n) == [EntryItem(e, delim, ContLen(o, rest), n)] + Segment(o, rest, n + |ls|)
  {
    hide *;
    EntryHead(o, e, delim);
    EntryConts(o, e, rest);
    EntryItemIs(e, delim, ContLen(o, rest), n);
    var vs := Split(e.value.value);
    EntryLinesAre(e.key, delim, e.value.value);
    StandardFacts(o);
    EntrySegment(o, e.key + delim + vs[0], Assign(e.key, vs[0]), Tabbed(vs[1..]), rest, n);
  }

  lemma EntryItemIs(e: Entry, delim: string, k: nat, n: nat)
    requires e.value.Some?
    ensures var vs := Split(e.value.value);
            EntryItem(e, delim, k, n) == Item(n, e.key + delim + vs[0], Assign(e.key, vs[0]), vs[1..] + Blanks(k))
  {}

  /** An item that stores exactly this entry. */
  predicate Gives(item: Item, e: Entry) {
    && item.logical.Assign? && ToLower(item.logical.key) == e.key && ItemValue(item) == e.value
    && (Lacks(Shown(e), '\n') ==> AllEmpty(item.conts))
  }

  predicate AllEmpty(ls: seq<string>) {
    forall i :: 0 <= i < |ls| ==> ls[i] == ""
  }

  /** That item gives the entry back. */
  lemma EntryGives(e: Entry, delim: string, k: nat, n: nat)
    requires PlainEntry(e)
    ensures Gives(EntryItem(e, delim, k, n), e)
  {
    hide JoinLines, Split, NormalLines, DelimiterFree, CommentStart, IsLower, ToLower, IsTrimmed, Lacks;
    var vs := Split(e.value.value);
    LowerKey(e.key);
    Assoc([vs[0]], vs[1..], Blanks(k));
    HeadTail(vs);
    JoinLinesBack(e.value.value, k);
    if Lacks(Shown(e), '\n') {
      SplitSingle(e.value.value);
      assert vs[1..] + Blanks(k) == Blanks(k);
    }
  }

  lemma LowerKey(key: string)
    requires NormalKey(key)
    ensures ToLower(key) == key
  {
    LowerFixed(key);
  }

  predicate AllGive(its: seq<Item>, items: Items) {
    |its| == |items| && forall i :: 0 <= i < |its| ==> Gives(its[i], items[i])
  }

  predicate PlainItems(items: Items) {
    forall i :: 0 <= i < |items| ==> PlainEntry(items[i])
  }

  lemma CalmBody(o: ParseOptions, items: Items, delim: string, rest: seq<string>)
    requires Standard(o) && PlainItems(items) && StandardGap(delim) && Calm(o, rest)
    ensures Calm(o, BodyLines(items, delim, true) + rest)
  {
    var lines := BodyLines(items, delim, true);
    if items == [] {
      NilConcat(rest);
    } else {
      BodyStart(o, items, delim);
      hide *;
      HeadTail(lines);
      Assoc([lines[0]], lines[1..], rest);
      CalmFirst(o, lines[0], lines[1..] + rest);
    }
  }

  /** A body begins with a key line, which continues nothing. */
  lemma BodyStart(o: ParseOptions, items: Items, delim: string)
    requires Standard(o) && PlainItems(items) && StandardGap(delim) && items != []
    ensures var lines := BodyLines(items, delim, true);
            lines != [] && !Continues(o, lines[0])
  {
    var e := items[0];
    assert PlainEntry(e);
    EntryParts(e);
    EntryLinesAre(e.key, delim, Shown(e));
    KeyLineReads(o, e.key, delim, Split(Shown(e))[0]);
    hide StripComment, Classify, PlainEntry, Split, StandardGap, NormalKey, EntryLines;
    assert BodyLines(items, delim, true)[0] == e.key + delim + Split(Shown(e))[0];
  }

  /** A printed section body is cut into exactly its entries. */
  lemma {:induction false} SegBody(o: ParseOptions, items: Items, delim: string, rest: seq<string>, n: nat)
    returns (its: seq<Item>)
    requires Standard(o) && PlainItems(items) && StandardGap(delim) && Calm(o, rest)
    ensures var ls := BodyLines(items, delim, true);
            Segment(o, ls + rest, n) == its + Segment(o, rest, n + |ls|)
    ensures AllGive(its, items)
  {
    hide Segment, Calm, PlainEntry, EntryLines, StandardGap, Gives, Standard, EntryItem, ContLen;
    its := [];
    if items == [] {
      assert BodyLines(items, delim, true) + rest == rest;
    } else {
      var more := BodyLines(items[1..], delim, true);
      var ls := EntryLines(items[0].key, delim, Shown(items[0]), true);
      assert PlainEntry(items[0]);
      CalmBody(o, items[1..], delim, rest);
      EntryParts(items[0]);
      var item := EntryItem(items[0], delim, ContLen(o, more + rest), n);
      SegEntry(o, items[0], delim, more + rest, n);
      EntryGives(items[0], delim, ContLen(o, more + rest), n);
      var tail := SegBody(o, items[1..], delim, rest, n + |ls|);
      its := [item] + tail;
      assert BodyLines(items, delim, true) + rest == ls + (more + rest);
    }
  }

  // ---------------------------------------------------------------- applying the items

  lemma PutAppend(items: Items, e: Entry)
    requires !HasKey(items, e.key)
    ensures PutItem(items, e.key, e.value) == items + [e]
  {}

  predicate Fresh(have: Items, more: Items) {
    && DistinctKeys(more)
    && forall i :: 0 <= i < |more| ==> !HasKey(have, more[i].key)
  }

  lemma FreshStep(have: Items, more: Items)
    requires Fresh(have, more) && more != []
    ensures !HasKey(have, more[0].key) && Fresh(have + [more[0]], more[1..])
  {
    var e := more[0];
    forall i | 0 <= i < |more[1..]|
      ensures !HasKey(have + [e], more[1..][i].key)
    {
      assert more[1..][i] == more[i + 1];
      var k := more[i + 1].key;
      assert !HasKey(have, k) && k != e.key;
      assert forall j :: 0 <= j < |have| ==> (have + [e])[j] == have[j];
    }
  }

  /** An item that gives an entry the section does not have yet appends it. */
  lemma GiveAppends(o: ParseOptions, st: Store, section: string, item: Item, e: Entry)
    requires section != "" && !SlotOf(o, st, section).Missing? && Gives(item, e)
    requires !HasKey(ItemsAt(st, SlotOf(o, st, section)), e.key)
    ensures var slot := SlotOf(o, st, section);
            ApplyItem(o, st, section, [], item) ==
            Phase(WithItems(st, slot, ItemsAt(st, slot) + [e]), section, [], None)
  {
    PutAppend(ItemsAt(st, SlotOf(o, st, section)), e);
    hide PutItem, HasKey, SlotOf, ItemValue, ToLower;
  }

  lemma WithItemsTwice(o: ParseOptions, st: Store, section: string, a: Items, b: Items)
    requires !SlotOf(o, st, section).Missing?
    ensures var slot := SlotOf(o, st, section);
            var s1 := WithItems(st, slot, a);
            && SlotOf(o, s1, section) == slot && ItemsAt(s1, slot) == a
            && WithItems(s1, slot, b) == WithItems(st, slot, b)
  {
    SlotStays(o, st, section, a);
    hide SlotOf;
  }

  /** Items that give fresh entries extend the current section by exactly those entries. */
  lemma {:induction false} InterpretBody(o: ParseOptions, st: Store, section: string, its: seq<Item>, items: Items,
                                         more: seq<Item>)
    requires section != "" && !SlotOf(o, st, section).Missing?
    requires AllGive(its, items) && Fresh(ItemsAt(st, SlotOf(o, st, section)), items)
    ensures var slot := SlotOf(o, st, section);
            Interpret(o, st, section, [], its + more) ==
            Interpret(o, WithItems(st, slot, ItemsAt(st, slot) + items), section, [], more)
    decreases |items|
  {
    var slot := SlotOf(o, st, section);
    var have := ItemsAt(st, slot);
    if items == [] {
      hide Interpret, SlotOf;
      NilConcat(more);
      NilConcat(have);
      assert its == [];
      WithItemsSame(st, slot);
    } else {
      assert Gives(its[0], items[0]);
      FreshStep(have, items);
      GiveAppends(o, st, section, its[0], items[0]);
      WithItemsTwice(o, st, section, have + [items[0]], have + [items[0]] + items[1..]);
      AllGiveTail(its, items);
      hide *;
      var s1 := WithItems(st, slot, have + [items[0]]);
      HeadTail(its);
      HeadTail(items);
      Assoc([its[0]], its[1..], more);
      Assoc(have, [items[0]], items[1..]);
      InterpretCons(o, st, section, [], its[0], its[1..] + more);
      InterpretBody(o, s1, section, its[1..], items[1..], more);
    }
  }

  lemma AllGiveTail(its: seq<Item>, items: Items)
    requires AllGive(its, items) && items != []
    ensures AllGive(its[1..], items[1..])
  {
    hide Gives;
  }

  // ---------------------------------------------------------------- whole texts

  lemma CalmSections(o: ParseOptions, sections: seq<Section>, delim: string)
    requires Standard(o) && StandardGap(delim)
    requires forall i :: 0 <= i < |sections| ==> PlainItems(sections[i].items)
    ensures Calm(o, SectionLines(sections, delim))
  {
    hide *;
    var lines := SectionLines(sections, delim);
    if sections == [] {
      SectionLinesNil(delim);
      CalmNil(o);
    } else {
      var s := sections[0];
      var body, rest := BodyLines(s.items, delim, true), SectionLines(sections[1..], delim);
      assert forall i :: 0 <= i < |sections[1..]| ==> sections[1..][i] == sections[i + 1];
      CalmSections(o, sections[1..], delim);
      SectionLinesCons(sections, delim);
      CalmBlank(o, rest);
      CalmBody(o, s.items, delim, [""] + rest);
      if s.name != UNNAMED_SECTION {
        HeaderLineReads(o, s.name);
        HeadContinues(o, s.name);
        CalmFirst(o, HeaderLine(s.name), body + ([""] + rest));
      } else {
        NilConcat(body + ([""] + rest));
      }
    }
  }

  lemma SectionLinesNil(delim: string)
    ensures SectionLines([], delim) == []
  {}

  lemma CalmNil(o: ParseOptions)
    ensures Calm(o, [])
  {}

  lemma SectionLinesCons(sections: seq<Section>, delim: string)
    requires sections != []
    ensures var s := sections[0];
            SectionLines(sections, delim) ==
            (if s.name != UNNAMED_SECTION then [HeaderLine(s.name)] else [])
            + (BodyLines(s.items, delim, true) + ([""] + SectionLines(sections[1..], delim)))
  {
    hide BodyLines, HeaderLine;
    var s := sections[0];
    var body, rest := BodyLines(s.items, delim, true), SectionLines(sections[1..], delim);
    Assoc(SectionHead(s) + body, [""], rest);
    Assoc(SectionHead(s), body, [""] + rest);
  }

  lemma HeadContinues(o: ParseOptions, name: string)
    requires Standard(o)
    ensures !Continues(o, HeaderLine(name))
  {
    HeaderLineReads(o, name);
    hide StripComment;
  }

  /** A printed header is one item. */
  lemma SegHeader(o: ParseOptions, name: string, rest: seq<string>, n: nat)
    requires Standard(o)
    ensures Segment(o, [HeaderLine(name)] + rest, n) ==
            [Item(n, HeaderLine(name), Header(name), [])] + Segment(o, rest, n + 1)
  {
    var lines := [HeaderLine(name)] + rest;
    HeaderLineReads(o, name);
    HeaderLineSome(name);
    hide *;
    assert lines[0] == HeaderLine(name) && lines[1..] == rest;
    SegmentStep(o, lines, n);
    assert rest[0..] == rest && rest[..0] == [];
    CleanedNil(o);
  }

  lemma HeaderLineSome(name: string)
    ensures HeaderLine(name) != ""
  {}

  lemma CleanedNil(o: ParseOptions)
    ensures Cleaned(o, []) == []
  {}

  lemma SegBlankFirst(o: ParseOptions, rest: seq<string>, n: nat)
    requires Standard(o)
    ensures Segment(o, [""] + rest, n) == Segment(o, rest, n + 1)
  {
    BlankReads(o);
    var lines := [""] + rest;
    assert lines[0] == "" && lines[1..] == rest;
    assert Blank(o, "");
    hide StripComment, Segment;
    SegmentBlank(o, lines, n);
  }

  /** A header of a name not stored yet opens an empty section at the end. */
  lemma HeaderOpens(o: ParseOptions, st: Store, section: string, item: Item, name: string)
    requires item.logical == Header(name) && NormalName(o, name) && !HasStored(st, name)
    ensures ApplyItem(o, st, section, [], item) == Phase(AppendSection(st, name), name, [], None)
    ensures SlotOf(o, AppendSection(st, name), name) == Stored(|st.sections|)
  {
    var s1 := AppendSection(st, name);
    assert forall i :: 0 <= i < |st.sections| ==> s1.sections[i] == st.sections[i];
    assert s1.sections[|st.sections|].name == name;
  }

  /** One printed section, read with the sections before it already stored. */
  lemma ReadSection(o: ParseOptions, st: Store, section: string, s: Section, delim: string, rest: seq<string>, n: nat)
    returns (m: nat)
    requires Standard(o) && StandardGap(delim) && Calm(o, rest)
    requires NormalSection(o, s) && PlainItems(s.items) && !HasStored(st, s.name)
    ensures var ls := [HeaderLine(s.name)] + (BodyLines(s.items, delim, true) + ([""] + rest));
            Interpret(o, st, section, [], Segment(o, ls, n)) ==
            Interpret(o, st.(sections := st.sections + [s]), s.name, [], Segment(o, rest, m))
  {
    hide *;
    var body := BodyLines(s.items, delim, true);
    NormalNameSome(o, s);
    SegHeader(o, s.name, body + ([""] + rest), n);
    CalmBlank(o, rest);
    var its := SegBody(o, s.items, delim, [""] + rest, n + 1);
    SegBlankFirst(o, rest, n + 1 + |body|);
    m := n + 2 + |body|;
    ApplySection(o, st, section, s, Item(n, HeaderLine(s.name), Header(s.name), []), its, Segment(o, rest, m));
  }

  lemma ApplySection(o: ParseOptions, st: Store, section: string, s: Section, item: Item, its: seq<Item>,
                     more: seq<Item>)
    requires NormalSection(o, s) && !HasStored(st, s.name)
    requires item.logical == Header(s.name) && AllGive(its, s.items)
    ensures Interpret(o, st, section, [], [item] + (its + more)) ==
            Interpret(o, st.(sections := st.sections + [s]), s.name, [], more)
  {
    hide *;
    var st1 := AppendSection(st, s.name);
    NormalNameSome(o, s);
    HeaderOpens(o, st, section, item, s.name);
    FreshNil(o, s);
    AppendFill(st, s);
    InterpretCons(o, st, section, [], item, its + more);
    NilConcat(s.items);
    InterpretBody(o, st1, s.name, its, s.items, more);
  }

  lemma FreshNil(o: ParseOptions, s: Section)
    requires NormalSection(o, s)
    ensures Fresh([], s.items)
  {
    hide NormalEntry;
  }

  lemma NormalNameSome(o: ParseOptions, s: Section)
    requires NormalSection(o, s)
    ensures NormalName(o, s.name) && s.name != ""
  {}

  lemma AppendFill(st: Store, s: Section)
    ensures var st1 := AppendSection(st, s.name);
            var slot := Stored(|st.sections|);
            && ValidSlot(st1, slot) && ItemsAt(st1, slot) == []
            && WithItems(st1, slot, s.items) == st.(sections := st.sections + [s])
  {
    var st1 := AppendSection(st, s.name);
    assert st1.sections[|st.sections| := s] == st.sections + [s];
  }

  predicate FreshNames(have: seq<Section>, more: seq<Section>) {
    DistinctNames(have + more)
  }

  lemma FreshNamesStep(st: Store, more: seq<Section>)
    requires FreshNames(st.sections, more) && more != []
    ensures !HasStored(st, more[0].name) && FreshNames(st.sections + [more[0]], more[1..])
  {
    var all := st.sections + more;
    assert all[|st.sections|] == more[0];
    assert forall i :: 0 <= i < |st.sections| ==> all[i] == st.sections[i];
    HeadTail(more);
    Assoc(st.sections, [more[0]], more[1..]);
  }

  predicate PlainSections(o: ParseOptions, sections: seq<Section>) {
    forall i :: 0 <= i < |sections| ==>
      NormalSection(o, sections[i]) && PlainItems(sections[i].items) && sections[i].name != UNNAMED_SECTION
  }

  lemma PlainSectionsStep(o: ParseOptions, sections: seq<Section>)
    requires PlainSections(o, sections) && sections != []
    ensures PlainSections(o, sections[1..])
    ensures forall i :: 0 <= i < |sections| ==> PlainItems(sections[i].items)
  {
    hide NormalSection, PlainItems;
  }

  lemma {:induction false} ReadSections(o: ParseOptions, st: Store, section: string, sections: seq<Section>,
                                        delim: string, n: nat)
    requires Standard(o) && StandardGap(delim)
    requires PlainSections(o, sections) && FreshNames(st.sections, sections)
    ensures Interpret(o, st, section, [], Segment(o, SectionLines(sections, delim), n)) ==
            Outcome(st.(sections := st.sections + sections), None)
    decreases |sections|
  {
    if sections == [] {
      NilConcat(st.sections);
    } else {
      var s := sections[0];
      assert NormalSection(o, s) && PlainItems(s.items) && s.name != UNNAMED_SECTION;
      hide *;
      var rest := SectionLines(sections[1..], delim);
      PlainSectionsStep(o, sections);
      SectionLinesCons(sections, delim);
      FreshNamesStep(st, sections);
      assert forall i :: 0 <= i < |sections[1..]| ==> sections[1..][i] == sections[i + 1];
      CalmSections(o, sections[1..], delim);
      var m := ReadSection(o, st, section, s, delim, rest, n);
      HeadTail(sections);
      Assoc(st.sections, [s], sections[1..]);
      ReadSections(o, st.(sections := st.sections + [s]), s.name, sections[1..], delim, m);
    }
  }

  lemma {:induction false} UnfoldedBody(items: Items, delim: string)
    requires SingleLine(items)
    ensures BodyLines(items, delim, false) == BodyLines(items, delim, true)
  {
    if items != [] {
      if items[0].value.Some? {
        SplitSingle(Shown(items[0]));
      } else {
        SplitSingle("");
      }
      UnfoldedBody(items[1..], delim);
    }
  }

  /** The DEFAULT block and the sections after it. */
  lemma ReadAll(o: ParseOptions, st: Store, delim: string)
    requires Standard(o) && StandardGap(delim) && Printable(o, st)
    ensures Interpret(o, EMPTY_STORE, "", [], Segment(o, WriteLines(o, st, delim), 1)) == Outcome(st, None)
  {
    hide *;
    PrintableParts(o, st);
    StartNames(st);
    var rest := SectionLines(st.sections, delim);
    WriteLinesAre(o, st, delim);
    if st.defaults == [] {
      NilConcat(rest);
      EmptyIs(st);
      ReadSections(o, EMPTY_STORE, "", st.sections, delim, 1);
      NilConcat(st.sections);
    } else {
      var d, body := o.defaultSection, BodyLines(st.defaults, delim, true);
      UnfoldedBody(st.defaults, delim);
      CalmSections(o, st.sections, delim);
      CalmBlank(o, rest);
      SegHeader(o, d, body + ([""] + rest), 1);
      var its := SegBody(o, st.defaults, delim, [""] + rest, 2);
      SegBlankFirst(o, rest, 2 + |body|);
      var more := Segment(o, rest, 3 + |body|);
      var item := Item(1, HeaderLine(d), Header(d), []);
      InterpretCons(o, EMPTY_STORE, "", [], item, its + more);
      DefaultsOpen(o, item, st.defaults);
      InterpretBody(o, EMPTY_STORE, d, its, st.defaults, more);
      NilConcat(st.defaults);
      ReadSections(o, Store(st.defaults, []), d, st.sections, delim, 3 + |body|);
      NilConcat(st.sections);
    }
  }

  lemma WriteLinesAre(o: ParseOptions, st: Store, delim: string)
    ensures WriteLines(o, st, delim) ==
            (if st.defaults == [] then []
             else [HeaderLine(o.defaultSection)] + (BodyLines(st.defaults, delim, false) + [""]))
            + SectionLines(st.sections, delim)
    ensures st.defaults != [] ==>
              WriteLines(o, st, delim) ==
              [HeaderLine(o.defaultSection)]
              + (BodyLines(st.defaults, delim, false) + ([""] + SectionLines(st.sections, delim)))
  {
    hide BodyLines, SectionLines, HeaderLine;
    var head, body, rest := [HeaderLine(o.defaultSection)], BodyLines(st.defaults, delim, false),
        SectionLines(st.sections, delim);
    Assoc(head, body, [""]);
    Assoc(head + body, [""], rest);
    Assoc(head, body, [""] + rest);
  }

  lemma EmptyIs(st: Store)
    requires st.defaults == []
    ensures EMPTY_STORE.(sections := [] + st.sections) == st
  {
    NilConcat(st.sections);
  }

  lemma StartNames(st: Store)
    requires DistinctNames(st.sections)
    ensures FreshNames([], st.sections)
    ensures EMPTY_STORE.sections == [] && EMPTY_STORE.defaults == []
    ensures EMPTY_STORE == Store([], [])
  {
    NilConcat(st.sections);
  }

  lemma DefaultsOpen(o: ParseOptions, item: Item, defaults: Items)
    requires Standard(o) && NormalItems(defaults) && item.logical == Header(o.defaultSection)
    ensures ApplyItem(o, EMPTY_STORE, "", [], item) == Phase(EMPTY_STORE, o.defaultSection, [], None)
    ensures o.defaultSection != "" && SlotOf(o, EMPTY_STORE, o.defaultSection) == Defaults
    ensures ItemsAt(EMPTY_STORE, Defaults) == [] && Fresh([], defaults)
    ensures WithItems(EMPTY_STORE, Defaults, defaults) == Store(defaults, [])
  {
    hide NormalEntry;
  }

  lemma PlainFrom(items: Items)
    requires NormalItems(items) && NoBracketKeys(items)
    ensures PlainItems(items)
  {
    hide NormalKey, NormalValue;
    forall i | 0 <= i < |items|
      ensures PlainEntry(items[i])
    {
      assert NormalEntry(items[i]);
      KeySome(items[i].key);
    }
  }

  lemma KeySome(key: string)
    requires NormalKey(key)
    ensures key != ""
  {}

  lemma PrintableParts(o: ParseOptions, st: Store)
    requires Printable(o, st)
    ensures NormalItems(st.defaults) && PlainItems(st.defaults) && SingleLine(st.defaults)
    ensures DistinctNames(st.sections) && PlainSections(o, st.sections)
    ensures forall i :: 0 <= i < |st.sections| ==> PlainItems(st.sections[i].items)
  {
    hide NormalItems, PlainItems, NoBracketKeys, NormalName;
    PlainFrom(st.defaults);
    forall i | 0 <= i < |st.sections|
      ensures PlainItems(st.sections[i].items)
    {
      assert NormalSection(o, st.sections[i]);
      PlainFrom(st.sections[i].items);
    }
  }

  // ---------------------------------------------------------------- the text has these lines

  lemma LackConcat(a: string, b: string)
    requires Lacks(a, '\n') && Lacks(b, '\n')
    ensures Lacks(a + b, '\n')
  {}

  lemma AllLackConcat(a: seq<string>, b: seq<string>)
    requires AllLack(a) && AllLack(b)
    ensures AllLack(a + b)
  {
    hide Lacks;
    forall i | 0 <= i < |a + b|
      ensures Lacks((a + b)[i], '\n')
    {
      assert (a + b)[i] == if i < |a| then a[i] else b[i - |a|];
    }
  }

  lemma AllLackOne(l: string)
    requires Lacks(l, '\n')
    ensures AllLack([l])
  {}

  lemma AllLackSplit(v: string)
    ensures AllLack([Split(v)[0]]) && Lacks(Split(v)[0], '\n')
    ensures AllLack(Split(v)[1..]) && AllLack(Tabbed(Split(v)[1..]))
  {
    SplitLack(v);
    var vs := Split(v);
    hide Split, Lacks;
    forall i | 0 <= i < |vs[1..]|
      ensures Lacks(vs[1..][i], '\n') && Lacks(Tabbed(vs[1..])[i], '\n')
    {
      assert vs[1..][i] == vs[i + 1];
      assert Lacks(vs[i + 1], '\n');
      TabLacks(vs[i + 1]);
    }
  }

  lemma TabLacks(l: string)
    requires Lacks(l, '\n')
    ensures Lacks("\t" + l, '\n')
  {}

  lemma GapLacks(delim: string)
    requires StandardGap(delim)
    ensures Lacks(delim, '\n')
  {}

  predicate KeysLack(items: Items) {
    forall i :: 0 <= i < |items| ==> Lacks(items[i].key, '\n')
  }

  lemma EntryLinesLack(key: string, delim: string, v: string, fold: bool)
    requires Lacks(key, '\n') && StandardGap(delim)
    ensures AllLack(EntryLines(key, delim, v, fold))
  {
    hide Split, Lacks, AllLack, StandardGap;
    AllLackSplit(v);
    GapLacks(delim);
    LackConcat(key, delim);
    LackConcat(key + delim, Split(v)[0]);
    AllLackOne(key + delim + Split(v)[0]);
    AllLackConcat([key + delim + Split(v)[0]], if fold then Tabbed(Split(v)[1..]) else Split(v)[1..]);
  }

  lemma {:induction false} BodyLinesLack(items: Items, delim: string, fold: bool)
    requires KeysLack(items) && StandardGap(delim)
    ensures AllLack(BodyLines(items, delim, fold))
  {
    hide Lacks, AllLack, EntryLines, StandardGap;
    if items == [] {
      AllLackNil();
    } else {
      EntryLinesLack(items[0].key, delim, Shown(items[0]), fold);
      BodyLinesLack(items[1..], delim, fold);
      AllLackConcat(EntryLines(items[0].key, delim, Shown(items[0]), fold), BodyLines(items[1..], delim, fold));
    }
  }

  lemma AllLackNil()
    ensures AllLack([]) && AllLack([""])
  {}

  lemma HeaderLacks(name: string)
    requires Lacks(name, '\n')
    ensures AllLack([HeaderLine(name)])
  {}

  predicate SectionLacks(s: Section) {
    Lacks(s.name, '\n') && KeysLack(s.items)
  }

  lemma {:induction false} SectionLinesLack(sections: seq<Section>, delim: string)
    requires StandardGap(delim) && forall i :: 0 <= i < |sections| ==> SectionLacks(sections[i])
    ensures AllLack(SectionLines(sections, delim))
    decreases |sections|
  {
    hide Lacks, AllLack, BodyLines, KeysLack, HeaderLine, StandardGap;
    AllLackNil();
    if sections != [] {
      var s := sections[0];
      assert SectionLacks(s);
      var body := BodyLines(s.items, delim, true);
      HeaderLacks(s.name);
      BodyLinesLack(s.items, delim, true);
      SectionLinesLack(sections[1..], delim);
      AllLackConcat(SectionHead(s), body);
      AllLackConcat(SectionHead(s) + body, [""]);
      AllLackConcat(SectionHead(s) + body + [""], SectionLines(sections[1..], delim));
    }
  }

  lemma WriteLinesLack(o: ParseOptions, st: Store, delim: string)
    requires StandardGap(delim) && Lacks(o.defaultSection, '\n')
    requires KeysLack(st.defaults) && forall i :: 0 <= i < |st.sections| ==> SectionLacks(st.sections[i])
    ensures AllLack(WriteLines(o, st, delim))
  {
    hide Lacks, AllLack, BodyLines, KeysLack, HeaderLine, StandardGap, SectionLines;
    AllLackNil();
    var body := BodyLines(st.defaults, delim, false);
    HeaderLacks(o.defaultSection);
    BodyLinesLack(st.defaults, delim, false);
    SectionLinesLack(st.sections, delim);
    AllLackConcat([HeaderLine(o.defaultSection)], body);
    AllLackConcat([HeaderLine(o.defaultSection)] + body, [""]);
    AllLackConcat(DefaultLines(o, st.defaults, delim), SectionLines(st.sections, delim));
  }

  lemma NormalLacks(o: ParseOptions, st: Store)
    requires Normal(o, st)
    ensures KeysLack(st.defaults) && forall i :: 0 <= i < |st.sections| ==> SectionLacks(st.sections[i])
  {
    hide Lacks, DistinctKeys, DistinctNames, NormalValue, DelimiterFree, IsLower, IsTrimmed, CommentStart;
    forall i | 0 <= i < |st.sections|
      ensures SectionLacks(st.sections[i])
    {
      assert NormalSection(o, st.sections[i]);
    }
  }

  lemma StandardDelimiterText(o: ParseOptions, spaced: bool)
    requires Standard(o)
    ensures o.delimiters != [] && StandardGap(Delimiter(o, spaced))
  {}

  lemma PlainWritable(o: ParseOptions, items: Items)
    requires Standard(o) && PlainItems(items)
    ensures Writable(o, items)
  {
    forall i | 0 <= i < |items|
      ensures WritableKey(o, items[i].key)
    {
      assert PlainEntry(items[i]);
      KeyWritable(o, items[i].key);
    }
  }

  lemma KeyWritable(o: ParseOptions, key: string)
    requires Standard(o) && DelimiterFree(key) && key != "" && key[0] != '['
    ensures WritableKey(o, key)
  {
    forall d | d in o.delimiters
      ensures Find(key, d, 0).None?
    {
      assert |d| == 1 && d == [d[0]];
      if Find(key, d, 0).Some? {
        MatchOne(key, d[0], Find(key, d, 0).value);
      }
    }
  }

  /** Reading what was written, for any store whose keys and names hold no newline, is reading its lines. */
  lemma ReadWrite(o: ParseOptions, st: Store, spaced: bool)
    requires Standard(o) && o.delimiters != [] && Write(o, st, spaced).Ok?
    requires KeysLack(st.defaults) && forall i :: 0 <= i < |st.sections| ==> SectionLacks(st.sections[i])
    ensures ReadString(o, EMPTY_STORE, Write(o, st, spaced).value) ==
            Interpret(o, EMPTY_STORE, "", [], Segment(o, WriteLines(o, st, Delimiter(o, spaced)), 1))
  {
    hide *;
    StandardFacts(o);
    StandardDelimiterText(o, spaced);
    var delim := Delimiter(o, spaced);
    WriteTextLines(o, st, spaced);
    WriteLinesLack(o, st, delim);
    LinesOfUnlines(WriteLines(o, st, delim));
    ReadIsTwoPhase(o, EMPTY_STORE, Write(o, st, spaced).value);
  }

  /** Main result: print, then parse, is the identity on every printable store, for either spacing. */
  lemma PrintThenParse(o: ParseOptions, st: Store, spaced: bool)
    requires Standard(o) && Printable(o, st)
    ensures o.delimiters != [] && Write(o, st, spaced).Ok?
    ensures ReadString(o, EMPTY_STORE, Write(o, st, spaced).value) == Outcome(st, None)
  {
    hide *;
    PrintableParts(o, st);
    PrintableNormal(o, st);
    NormalLacks(o, st);
    StandardDelimiterText(o, spaced);
    WriteSucceeds(o, st, spaced);
    ReadWrite(o, st, spaced);
    ReadAll(o, st, Delimiter(o, spaced));
  }

  lemma PrintableNormal(o: ParseOptions, st: Store)
    requires Printable(o, st)
    ensures Normal(o, st)
  {}

  lemma WriteSucceeds(o: ParseOptions, st: Store, spaced: bool)
    requires Standard(o) && PlainItems(st.defaults)
    requires forall i :: 0 <= i < |st.sections| ==> PlainItems(st.sections[i].items)
    ensures o.delimiters != [] && Write(o, st, spaced).Ok?
  {
    hide PlainItems, Writable, DefaultsText, SectionsText;
    PlainWritable(o, st.defaults);
    forall i | 0 <= i < |st.sections|
      ensures Writable(o, st.sections[i].items)
    {
      PlainWritable(o, st.sections[i].items);
    }
  }
}
