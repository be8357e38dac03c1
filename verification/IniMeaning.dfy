/** What a text means, option by option: the last assignment in its section wins,
    and strict reading is non-strict reading of texts without repetitions. */
module IniMeaning {
  import opened Text
  import opened IniStore
  import opened IniParse
  import opened IniTwoPhase

  /** The value stored for a lower-case key in a section's own entries. */
  function StoredValue(o: ParseOptions, st: Store, section: string, key: string): Option<OptionValue> {
    var slot := SlotOf(o, st, section);
    if slot.Missing? then None else Lookup(ItemsAt(st, slot), key)
  }

  /** Does this item, read in this section, assign the key of section s? */
  predicate Assigns(o: ParseOptions, section: string, item: Item, s: string, key: string) {
    && (item.logical.Assign? || item.logical.Bare?)
    && ImplicitSection(o, section) == s && ToLower(item.logical.key) == key
  }

  function SectionAfter(o: ParseOptions, section: string, item: Item): string {
    if item.logical.Header? then item.logical.name else ImplicitSection(o, section)
  }

  /** The value the last assigning item gives, found without any store. */
  function LastValue(o: ParseOptions, section: string, items: seq<Item>, s: string, key: string): Option<OptionValue>
    decreases |items|
  {
    if items == [] then None
    else
      var later := LastValue(o, SectionAfter(o, section, items[0]), items[1..], s, key);
      if later.Some? then later
      else if Assigns(o, section, items[0], s, key) then Some(ItemValue(items[0]))
      else None
  }

  lemma AppendKeeps(o: ParseOptions, st: Store, name: string, s: string, key: string)
    requires !HasStored(st, name)
    ensures StoredValue(o, AppendSection(st, name), s, key) == StoredValue(o, st, s, key)
  {
    var a, b := st.sections, AppendSection(st, name).sections;
    assert forall i :: 0 <= i < |a| ==> b[i] == a[i];
    assert b[|a|] == Section(name, []);
    var i, j := FindSection(a, s), FindSection(b, s);
    if s == name {
      assert i == |a| && j == |a|;
    } else if i < |a| {
      assert j == i;
    } else {
      assert j == |b|;
    }
  }

  lemma NamesSame(o: ParseOptions, st: Store, section: string, items: Items, s: string)
    requires !SlotOf(o, st, section).Missing?
    ensures SlotOf(o, WithItems(st, SlotOf(o, st, section), items), s) == SlotOf(o, st, s)
  {
    var slot := SlotOf(o, st, section);
    var st1 := WithItems(st, slot, items);
    if slot.Stored? {
      assert forall i :: 0 <= i < |st.sections| ==> st1.sections[i].name == st.sections[i].name;
      var i, j := FindSection(st.sections, s), FindSection(st1.sections, s);
      assert i == j;
    }
  }

  lemma ReplaceLookup(o: ParseOptions, st: Store, section: string, items: Items, s: string, key: string)
    requires !SlotOf(o, st, section).Missing?
    ensures StoredValue(o, WithItems(st, SlotOf(o, st, section), items), s, key) ==
            if s == section then Lookup(items, key) else StoredValue(o, st, s, key)
  {
    hide FindSection, FindKey;
    NamesSame(o, st, section, items, s);
  }

  lemma PutOptionStores(o: ParseOptions, st: Store, section: string, k: string, value: OptionValue, line: nat,
                        s: string, key: string)
    requires PutOption(o, st, section, k, value, line).thrown.None?
    ensures StoredValue(o, PutOption(o, st, section, k, value, line).store, s, key) ==
            if s == section && k == key then Some(value) else StoredValue(o, st, s, key)
  {
    hide PutItem, HasKey, WithItems, Lookup, HasStored;
    var slot := SlotOf(o, st, section);
    ReplaceLookup(o, st, section, PutItem(ItemsAt(st, slot), k, value), s, key);
    PutItemLookup(ItemsAt(st, slot), k, value, key);
  }

  lemma ApplyStores(o: ParseOptions, st: Store, section: string, errors: seq<LineError>, item: Item, s: string,
                    key: string)
    requires ApplyItem(o, st, section, errors, item).thrown.None?
    ensures var p := ApplyItem(o, st, section, errors, item);
            && p.section == SectionAfter(o, section, item)
            && StoredValue(o, p.store, s, key) ==
               if Assigns(o, section, item, s, key) then Some(ItemValue(item)) else StoredValue(o, st, s, key)
  {
    hide StoredValue, PutOption, HasStored, ToLower, ItemValue, AppendSection;
    if item.logical.Header? {
      if !HasStored(st, item.logical.name) {
        AppendKeeps(o, st, item.logical.name, s, key);
      }
    } else {
      if !HasStored(st, UNNAMED_SECTION) {
        AppendKeeps(o, st, UNNAMED_SECTION, s, key);
      }
      var e := EnsureSection(o, st, section, item.line);
      if !item.logical.Junk? {
        PutOptionStores(o, e.store, ImplicitSection(o, section), ToLower(item.logical.key), ItemValue(item), item.line,
            s, key);
      }
    }
  }

  /** Did the whole text get applied? Only a combined report of bad lines comes after the last item. */
  predicate Completed(r: Outcome) {
    r.thrown.None? || r.thrown.value.Combined?
  }

  lemma ThrowStops(o: ParseOptions, st: Store, section: string, errors: seq<LineError>, item: Item)
    ensures var p := ApplyItem(o, st, section, errors, item);
            p.thrown.Some? ==> !p.thrown.value.Combined?
  {
    hide ToLower, ItemValue, HasStored, PutItem, HasKey;
  }

  lemma {:induction false} LastWins(o: ParseOptions, st: Store, section: string, errors: seq<LineError>,
                                    items: seq<Item>, s: string, key: string)
    requires Completed(Interpret(o, st, section, errors, items))
    ensures StoredValue(o, Interpret(o, st, section, errors, items).store, s, key) ==
            var last := LastValue(o, section, items, s, key);
            if last.Some? then last else StoredValue(o, st, s, key)
    decreases |items|
  {
    hide ApplyItem, StoredValue, Assigns, ItemValue, SectionAfter;
    if items != [] {
      ThrowStops(o, st, section, errors, items[0]);
      ApplyStores(o, st, section, errors, items[0], s, key);
      var p := ApplyItem(o, st, section, errors, items[0]);
      LastWins(o, p.store, p.section, p.errors, items[1..], s, key);
    }
  }

  /** Main result: once a text has been read to its end, every option of every section holds the value
      of the last item of the text that assigns it there, or what it held before. */
  lemma LastReadWins(o: ParseOptions, st: Store, text: string, s: string, key: string)
    requires Completed(ReadString(o, st, text))
    ensures StoredValue(o, ReadString(o, st, text).store, s, key) ==
            var last := LastValue(o, "", Segment(o, Lines(text), 1), s, key);
            if last.Some? then last else StoredValue(o, st, s, key)
  {
    hide ReadString, StoredValue, LastValue, Segment, Lines, Interpret;
    ReadIsTwoPhase(o, st, text);
    LastWins(o, st, "", [], Segment(o, Lines(text), 1), s, key);
  }

  // ---------------------------------------------------------------- strict and non-strict

  function Lenient(o: ParseOptions): ParseOptions {
    o.(strict := false)
  }

  lemma {:induction false} SegmentLenient(o: ParseOptions, lines: seq<string>, n: nat)
    ensures Segment(Lenient(o), lines, n) == Segment(o, lines, n)
    decreases |lines|
  {
    hide *;
    if lines == [] || StripComment(o, lines[0]) == "" {
      if lines != [] {
        StripLenient(o, lines[0]);
        SegmentLenient(o, lines[1..], n + 1);
      }
      SegmentSkips(o, lines, n);
      SegmentSkips(Lenient(o), lines, n);
    } else {
      StripLenient(o, lines[0]);
      var c, tail := StripComment(o, lines[0]), lines[1..];
      ClassifyLenient(o, c);
      ContLenLenient(o, tail);
      var k := if Classify(o, c).Assign? then ContLen(o, tail) else 0;
      ContsLenient(o, tail, k);
      SegmentLenient(o, tail[k..], n + 1 + k);
      SegmentStep(o, lines, n);
      SegmentStep(Lenient(o), lines, n);
    }
  }

  lemma StripLenient(o: ParseOptions, line: string)
    ensures StripComment(Lenient(o), line) == StripComment(o, line)
  {
    hide HasCommentPrefix, CutAllInline, Trim;
  }

  lemma ClassifyLenient(o: ParseOptions, c: string)
    requires c != ""
    ensures Classify(Lenient(o), c) == Classify(o, c)
  {
    hide FirstDelimiter, Trim;
  }

  lemma {:induction false} ContLenLenient(o: ParseOptions, lines: seq<string>)
    ensures ContLen(Lenient(o), lines) == ContLen(o, lines)
  {
    hide StripComment, Indented;
    if lines != [] {
      StripLenient(o, lines[0]);
      ContLenLenient(o, lines[1..]);
    }
  }

  lemma ContsLenient(o: ParseOptions, lines: seq<string>, k: nat)
    requires k <= |lines|
    ensures Conts(Lenient(o), lines, k) == Conts(o, lines, k)
  {
    hide StripComment, Cleaned;
    CleanedLenient(o, lines[..k]);
    if k < |lines| {
      StripLenient(o, lines[k]);
    }
  }

  lemma CleanedLenient(o: ParseOptions, lines: seq<string>)
    ensures Cleaned(Lenient(o), lines) == Cleaned(o, lines)
  {
    hide StripComment, Lenient;
    forall i | 0 <= i < |lines|
      ensures Cleaned(Lenient(o), lines)[i] == Cleaned(o, lines)[i]
    {
      StripLenient(o, lines[i]);
    }
  }

  lemma SlotLenient(o: ParseOptions, st: Store, name: string)
    ensures SlotOf(Lenient(o), st, name) == SlotOf(o, st, name)
  {}

  lemma ApplyLenient(o: ParseOptions, st: Store, section: string, errors: seq<LineError>, item: Item)
    ensures var p := ApplyItem(o, st, section, errors, item);
            p.thrown.None? || !(p.thrown.value.Located? && p.thrown.value.code in {DuplicateSection, DuplicateOption})
            ==> ApplyItem(Lenient(o), st, section, errors, item) == p
  {
    hide ToLower, ItemValue, HasStored, PutItem, HasKey, AppendSection, SlotOf;
    SlotLenient(o, EnsureSection(o, st, section, item.line).store, ImplicitSection(o, section));
  }

  predicate DuplicateThrown(r: Outcome) {
    r.thrown.Some? && r.thrown.value.Located? && r.thrown.value.code in {DuplicateSection, DuplicateOption}
  }

  lemma {:induction false} InterpretLenient(o: ParseOptions, st: Store, section: string, errors: seq<LineError>,
                                            items: seq<Item>)
    requires !DuplicateThrown(Interpret(o, st, section, errors, items))
    ensures Interpret(Lenient(o), st, section, errors, items) == Interpret(o, st, section, errors, items)
    decreases |items|
  {
    hide ApplyItem, Lenient;
    if items != [] {
      ApplyLenient(o, st, section, errors, items[0]);
      var p := ApplyItem(o, st, section, errors, items[0]);
      if p.thrown.None? {
        InterpretLenient(o, p.store, p.section, p.errors, items[1..]);
      }
    }
  }

  /** Unless strict reading stops at a repetition, it does exactly what non-strict reading does. */
  lemma StrictAgrees(o: ParseOptions, st: Store, text: string)
    requires !DuplicateThrown(ReadString(o, st, text))
    ensures ReadString(Lenient(o), st, text) == ReadString(o, st, text)
  {
    hide ReadString, DuplicateThrown, Segment, Lines, Interpret;
    ReadIsTwoPhase(o, st, text);
    ReadIsTwoPhase(Lenient(o), st, text);
    SegmentLenient(o, Lines(text), 1);
    InterpretLenient(o, st, "", [], Segment(o, Lines(text), 1));
  }

  /** The item opens a section that is stored already, or assigns a key its section holds already. */
  predicate Repeats(o: ParseOptions, st: Store, section: string, item: Item) {
    if item.logical.Header? then
      item.logical.name != "" && item.logical.name != o.defaultSection && HasStored(st, item.logical.name)
    else
      && (item.logical.Assign? || item.logical.Bare?)
      && EnsureSection(o, st, section, item.line).thrown.None?
      && StoredValue(o, EnsureSection(o, st, section, item.line).store, ImplicitSection(o, section),
                     ToLower(item.logical.key)).Some?
  }

  /** Where reading stands after these items, or the exception that stopped it. */
  function After(o: ParseOptions, p: Phase, items: seq<Item>): Phase
    decreases |items|
  {
    if items == [] || p.thrown.Some? then p
    else After(o, ApplyItem(o, p.store, p.section, p.errors, items[0]), items[1..])
  }

  /** Item i repeats what the items before it, none of which threw, have left. */
  predicate RepeatsAt(o: ParseOptions, p: Phase, items: seq<Item>, i: nat) {
    && i < |items|
    && var q := After(o, p, items[..i]);
    && q.thrown.None? && Repeats(o, q.store, q.section, items[i])
  }

  /** A strict parser throws at an item exactly for a repetition. */
  lemma ThrowsForRepeat(o: ParseOptions, st: Store, section: string, errors: seq<LineError>, item: Item)
    ensures var p := ApplyItem(o, st, section, errors, item);
            DuplicateThrown(Outcome(p.store, p.thrown)) <==> o.strict && Repeats(o, st, section, item)
  {
    hide ToLower, ItemValue, HasStored, PutItem, FindKey, AppendSection;
  }

  lemma RepeatsFirst(o: ParseOptions, p: Phase, items: seq<Item>)
    requires p.thrown.None? && items != []
    ensures RepeatsAt(o, p, items, 0) <==> Repeats(o, p.store, p.section, items[0])
  {
    hide Repeats;
    assert items[..0] == [];
  }

  lemma RepeatsLater(o: ParseOptions, p: Phase, items: seq<Item>, i: nat)
    requires p.thrown.None? && items != []
    ensures var q := ApplyItem(o, p.store, p.section, p.errors, items[0]);
            RepeatsAt(o, p, items, i + 1) <==> RepeatsAt(o, q, items[1..], i)
  {
    hide Repeats, ApplyItem;
    if i + 1 < |items| {
      assert items[..i + 1][1..] == items[1..][..i];
    }
  }

  lemma StoppedStays(o: ParseOptions, p: Phase, items: seq<Item>)
    requires p.thrown.Some?
    ensures After(o, p, items) == p
  {}

  lemma {:induction false} InterpretStops(o: ParseOptions, p: Phase, items: seq<Item>)
    requires p.thrown.None?
    ensures DuplicateThrown(Interpret(o, p.store, p.section, p.errors, items)) <==>
            o.strict && exists i: nat :: RepeatsAt(o, p, items, i)
    decreases |items|
  {
    hide ApplyItem, Repeats, RepeatsAt, After;
    if items == [] {
      NoneRepeats(o, p);
    } else {
      var q := ApplyItem(o, p.store, p.section, p.errors, items[0]);
      ThrowsForRepeat(o, p.store, p.section, p.errors, items[0]);
      RepeatsFirst(o, p, items);
      forall i: nat
        ensures RepeatsAt(o, p, items, i + 1) <==> RepeatsAt(o, q, items[1..], i)
      {
        RepeatsLater(o, p, items, i);
      }
      if q.thrown.None? {
        InterpretStops(o, q, items[1..]);
      } else {
        NothingAfter(o, q, items[1..]);
      }
      ShiftExists(o, p, q, items);
    }
  }

  lemma NoneRepeats(o: ParseOptions, p: Phase)
    ensures forall i: nat :: !RepeatsAt(o, p, [], i)
  {}

  lemma NothingAfter(o: ParseOptions, p: Phase, items: seq<Item>)
    requires p.thrown.Some?
    ensures forall i: nat :: !RepeatsAt(o, p, items, i)
  {
    hide Repeats;
    forall i: nat
      ensures !RepeatsAt(o, p, items, i)
    {
      if i < |items| {
        StoppedStays(o, p, items[..i]);
      }
    }
  }

  /** Some item repeats when the first does or one of the others. */
  lemma ShiftExists(o: ParseOptions, p: Phase, q: Phase, items: seq<Item>)
    requires items != [] && forall i: nat :: RepeatsAt(o, p, items, i + 1) <==> RepeatsAt(o, q, items[1..], i)
    ensures (exists i: nat :: RepeatsAt(o, p, items, i)) <==>
            RepeatsAt(o, p, items, 0) || exists i: nat :: RepeatsAt(o, q, items[1..], i)
  {
    hide RepeatsAt;
    if exists i: nat :: RepeatsAt(o, p, items, i) {
      var i: nat :| RepeatsAt(o, p, items, i);
      if i > 0 {
        var k: nat := i - 1;
        assert RepeatsAt(o, p, items, k + 1);
        assert RepeatsAt(o, q, items[1..], k);
      }
    }
    if exists i: nat :: RepeatsAt(o, q, items[1..], i) {
      var i: nat :| RepeatsAt(o, q, items[1..], i);
      assert RepeatsAt(o, p, items, i + 1);
    }
  }

  /** When strict reading is stopped by a repetition: exactly when the parser is strict and some item, reached
      without any other exception, opens a stored section again or assigns a key its section already holds. */
  lemma StrictStopsExactly(o: ParseOptions, st: Store, text: string)
    ensures DuplicateThrown(ReadString(o, st, text)) <==>
            o.strict && exists i: nat :: RepeatsAt(o, Phase(st, "", [], None), Segment(o, Lines(text), 1), i)
  {
    hide *;
    ReadIsTwoPhase(o, st, text);
    InterpretStops(o, Phase(st, "", [], None), Segment(o, Lines(text), 1));
  }
}
