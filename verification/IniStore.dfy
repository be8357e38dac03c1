/** The data an ini::Parser holds and the pure meaning of its store operations:
    ordered sections of ordered options, looked up by linear search. */
module IniStore {
  import opened Text

  const UNNAMED_SECTION := "<UNNAMED_SECTION>"

  datatype InterpolationMode = NoInterpolation | Basic | Extended

  datatype ParseOptions = ParseOptions(
    allowNoValue: bool,
    strict: bool,
    emptyLinesInValues: bool,
    allowUnnamedSection: bool,
    defaultSection: string,
    delimiters: seq<string>,
    commentPrefixes: seq<string>,
    inlineCommentPrefixes: seq<string>,
    interpolation: InterpolationMode,
    maxInterpolationDepth: int)

  /** The defaults declared with struct ParseOptions. */
  const DEFAULT_OPTIONS := ParseOptions(
    false, true, true, false, "DEFAULT", ["=", ":"], ["#", ";"], [], Basic, 10)

  datatype ErrorCode =
    | NoSection
    | NoOption
    | DuplicateSection
    | DuplicateOption
    | MissingSectionHeader
    | InterpolationSyntax
    | InterpolationDepth
    | InvalidWrite
    | Parsing

  datatype LineError = LineError(line: nat, text: string)

  /** An exception: its code, and the line(s) it is located at when it has any. */
  datatype Error =
    | Plain(code: ErrorCode)
    | Located(code: ErrorCode, line: nat)
    | Combined(entries: seq<LineError>)

  type OptionValue = Option<string>
  datatype Entry = Entry(key: string, value: OptionValue)
  type Items = seq<Entry>
  datatype Section = Section(name: string, items: Items)
  datatype Store = Store(defaults: Items, sections: seq<Section>)

  const EMPTY_STORE := Store([], [])

  // ---------------------------------------------------------------- linear search

  /** The first entry with this key, or the length. */
  function FindKey(items: Items, key: string): (r: nat)
    ensures r <= |items|
    ensures r < |items| ==> items[r].key == key
    ensures forall i :: 0 <= i < r ==> items[i].key != key
  {
    if items == [] || items[0].key == key then 0 else 1 + FindKey(items[1..], key)
  }

  predicate HasKey(items: Items, key: string) {
    FindKey(items, key) < |items|
  }

  function Lookup(items: Items, key: string): Option<OptionValue> {
    var i := FindKey(items, key);
    if i < |items| then Some(items[i].value) else None
  }

  /** Overwrite the first entry with this key, or append a new one. */
  function PutItem(items: Items, key: string, value: OptionValue): Items {
    var i := FindKey(items, key);
    if i < |items| then items[i := Entry(key, value)] else items + [Entry(key, value)]
  }

  /** The entries whose key differs from the given one, in order. */
  function Without(items: Items, key: string): (r: Items)
    ensures forall e :: e in r ==> e in items && e.key != key
    ensures |r| <= |items|
    ensures |r| < |items| <==> HasKey(items, key)
  {
    if items == [] then []
    else if items[0].key == key then Without(items[1..], key)
    else [items[0]] + Without(items[1..], key)
  }

  function FindSection(sections: seq<Section>, name: string): (r: nat)
    ensures r <= |sections|
    ensures r < |sections| ==> sections[r].name == name
    ensures forall i :: 0 <= i < r ==> sections[i].name != name
  {
    if sections == [] || sections[0].name == name then 0 else 1 + FindSection(sections[1..], name)
  }

  predicate HasStored(st: Store, name: string) {
    FindSection(st.sections, name) < |st.sections|
  }

  /** What find_section_items points at. */
  datatype Slot = Missing | Defaults | Stored(index: nat)

  function SlotOf(o: ParseOptions, st: Store, name: string): (r: Slot)
    ensures r.Stored? ==> r.index < |st.sections| && st.sections[r.index].name == name
  {
    if name == o.defaultSection then Defaults
    else if HasStored(st, name) then Stored(FindSection(st.sections, name))
    else Missing
  }

  predicate ValidSlot(st: Store, slot: Slot) {
    slot.Defaults? || (slot.Stored? && slot.index < |st.sections|)
  }

  function ItemsAt(st: Store, slot: Slot): Items
    requires ValidSlot(st, slot)
  {
    if slot.Defaults? then st.defaults else st.sections[slot.index].items
  }

  function WithItems(st: Store, slot: Slot, items: Items): Store
    requires ValidSlot(st, slot)
  {
    if slot.Defaults? then st.(defaults := items)
    else st.(sections := st.sections[slot.index := st.sections[slot.index].(items := items)])
  }

  function SectionNames(sections: seq<Section>): (r: seq<string>)
    ensures |r| == |sections| && forall i :: 0 <= i < |r| ==> r[i] == sections[i].name
  {
    seq(|sections|, i requires 0 <= i < |sections| => sections[i].name)
  }

  // ---------------------------------------------------------------- invariant

  predicate DistinctKeys(items: Items) {
    forall i, j :: 0 <= i < j < |items| ==> items[i].key != items[j].key
  }

  predicate LowerKeys(items: Items) {
    forall i :: 0 <= i < |items| ==> IsLower(items[i].key)
  }

  predicate ItemsOk(items: Items) {
    DistinctKeys(items) && LowerKeys(items)
  }

  predicate DistinctNames(sections: seq<Section>) {
    forall i, j :: 0 <= i < j < |sections| ==> sections[i].name != sections[j].name
  }

  /** The unnamed section may be created although it is the default section's name; nothing else can. */
  predicate Benign(o: ParseOptions) {
    !(o.allowUnnamedSection && o.defaultSection == UNNAMED_SECTION)
  }

  /** What every operation keeps: distinct section names, none of them the default section's,
      and in every section distinct keys that option_xform leaves alone. */
  predicate StoreOk(o: ParseOptions, st: Store) {
    && DistinctNames(st.sections)
    && ItemsOk(st.defaults)
    && (forall i :: 0 <= i < |st.sections| ==> ItemsOk(st.sections[i].items))
    && (Benign(o) ==> forall i :: 0 <= i < |st.sections| ==> st.sections[i].name != o.defaultSection)
  }

  lemma FindKeyAt(items: Items, i: nat)
    requires DistinctKeys(items) && i < |items|
    ensures FindKey(items, items[i].key) == i
  {}

  lemma PutItemOk(items: Items, key: string, value: OptionValue)
    requires ItemsOk(items) && IsLower(key)
    ensures ItemsOk(PutItem(items, key, value))
  {}

  /** Overwriting or appending one key answers that key and leaves every other answer alone. */
  lemma PutItemLookup(items: Items, key: string, value: OptionValue, other: string)
    ensures Lookup(PutItem(items, key, value), other) ==
            if other == key then Some(value) else Lookup(items, other)
  {
    var r := PutItem(items, key, value);
    var i, j := FindKey(items, key), FindKey(items, other);
    assert forall n :: 0 <= n < |items| ==> r[n].key == items[n].key;
    if other == key {
      assert r[i].key == key;
      assert FindKey(r, other) == i;
    } else if j < |items| {
      assert r[j].key == other;
      assert FindKey(r, other) == j;
      assert r[j] == items[j];
    } else {
      assert forall n :: 0 <= n < |r| ==> r[n].key != other;
    }
  }

  lemma {:induction false} WithoutOk(items: Items, key: string)
    requires ItemsOk(items)
    ensures ItemsOk(Without(items, key))
  {
    if items != [] {
      var rest := Without(items[1..], key);
      WithoutOk(items[1..], key);
      if items[0].key != key {
        forall i | 0 <= i < |rest|
          ensures rest[i].key != items[0].key
        {
          assert rest[i] in items[1..];
        }
        ItemsOkCons(items[0], rest);
      }
    }
  }

  lemma ItemsOkCons(e: Entry, rest: Items)
    requires ItemsOk(rest) && IsLower(e.key)
    requires forall i :: 0 <= i < |rest| ==> rest[i].key != e.key
    ensures ItemsOk([e] + rest)
  {}

  /** Erasing a key silences that key and leaves every other answer alone. */
  lemma {:induction false} WithoutLookup(items: Items, key: string, other: string)
    ensures Lookup(Without(items, key), other) == if other == key then None else Lookup(items, other)
  {
    if items != [] {
      var rest := Without(items[1..], key);
      WithoutLookup(items[1..], key, other);
      if items[0].key != key {
        assert Without(items, key)[1..] == rest;
        LookupCons(Without(items, key), other);
      }
      LookupCons(items, other);
    }
  }

  lemma LookupCons(items: Items, key: string)
    requires items != []
    ensures Lookup(items, key) ==
            if items[0].key == key then Some(items[0].value) else Lookup(items[1..], key)
  {}

  lemma WithItemsSame(st: Store, slot: Slot)
    requires ValidSlot(st, slot)
    ensures WithItems(st, slot, ItemsAt(st, slot)) == st
  {
    if slot.Stored? {
      var s := st.sections[slot.index];
      assert s.(items := s.items) == s;
      assert st.sections[slot.index := s] == st.sections;
    }
  }

  lemma WithItemsOk(o: ParseOptions, st: Store, slot: Slot, items: Items)
    requires StoreOk(o, st) && ValidSlot(st, slot) && ItemsOk(items)
    ensures StoreOk(o, WithItems(st, slot, items))
  {}
}
