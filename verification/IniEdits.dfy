/** When each edit of a store succeeds, what it throws otherwise, and the whole store it leaves. */
module IniEdits {
  import opened Text
  import opened IniStore
  import opened IniParse
  import opened IniOps

  predicate Named(st: Store, name: string) {
    exists i :: 0 <= i < |st.sections| && st.sections[i].name == name
  }

  lemma NamedIs(st: Store, name: string)
    ensures HasStored(st, name) <==> Named(st, name)
  {
    var i := FindSection(st.sections, name);
    if i < |st.sections| {
      assert st.sections[i].name == name;
    }
  }

  /** Nothing differs but this section's entries, which were `before` and are `after`. */
  predicate Edited(o: ParseOptions, st: Store, st': Store, name: string, before: Items, after: Items) {
    if name == o.defaultSection then
      st.defaults == before && st' == Store(after, st.sections)
    else
      && st'.defaults == st.defaults
      && exists i :: && 0 <= i < |st.sections| && st.sections[i] == Section(name, before)
                     && st'.sections == st.sections[i := Section(name, after)]
                     && forall j :: 0 <= j < i ==> st.sections[j].name != name
  }

  /** The key's value is overwritten where it stands, or added at the end if there is none. */
  predicate Written(before: Items, after: Items, key: string, value: OptionValue) {
    || (after == before + [Entry(key, value)] && forall i :: 0 <= i < |before| ==> before[i].key != key)
    || exists i :: && 0 <= i < |before| && before[i].key == key && after == before[i := Entry(key, value)]
                   && forall j :: 0 <= j < i ==> before[j].key != key
  }

  /** The key's entry is gone and the others stay in their order, or there was none. */
  predicate Erased(before: Items, after: Items, key: string) {
    || (after == before && forall i :: 0 <= i < |before| ==> before[i].key != key)
    || exists i :: 0 <= i < |before| && before[i].key == key && after == before[..i] + before[i + 1..]
  }

  lemma PutIsWritten(items: Items, key: string, value: OptionValue)
    ensures Written(items, PutItem(items, key, value), key, value)
  {
    var i := FindKey(items, key);
    if i < |items| {
      assert items[i].key == key;
    }
  }

  lemma {:induction false} WithoutIsErased(items: Items, key: string)
    requires DistinctKeys(items)
    ensures Erased(items, Without(items, key), key)
  {
    if items != [] {
      var tail := items[1..];
      if items[0].key == key {
        KeepsAll(tail, key);
        assert items[..0] + items[1..] == tail;
      } else {
        WithoutIsErased(tail, key);
        ErasedCons(items[0], tail, Without(tail, key), key);
        HeadTail(items);
      }
    }
  }

  lemma {:induction false} KeepsAll(items: Items, key: string)
    requires forall i :: 0 <= i < |items| ==> items[i].key != key
    ensures Without(items, key) == items
  {
    if items != [] {
      KeepsAll(items[1..], key);
    }
  }

  lemma ErasedCons(e: Entry, before: Items, after: Items, key: string)
    requires Erased(before, after, key) && e.key != key
    ensures Erased([e] + before, [e] + after, key)
  {
    if exists i :: 0 <= i < |before| && before[i].key == key && after == before[..i] + before[i + 1..] {
      var i :| 0 <= i < |before| && before[i].key == key && after == before[..i] + before[i + 1..];
      ConsCut(e, before, i);
      Assoc([e], before[..i], before[i + 1..]);
    }
  }

  lemma ConsCut<T>(x: T, s: seq<T>, i: nat)
    requires i < |s|
    ensures var all := [x] + s;
            all[i + 1] == s[i] && all[..i + 1] == [x] + s[..i] && all[i + 1 + 1..] == s[i + 1..]
  {}

  /** Replacing a section's entries is an edit of that section. */
  lemma ReplaceEdits(o: ParseOptions, st: Store, name: string, items: Items)
    requires !SlotOf(o, st, name).Missing?
    ensures var slot := SlotOf(o, st, name);
            Edited(o, st, WithItems(st, slot, items), name, ItemsAt(st, slot), items)
  {
    var slot := SlotOf(o, st, name);
    if slot.Stored? {
      var s := st.sections[slot.index];
      assert s == Section(name, s.items) && s.(items := items) == Section(name, items);
    }
  }

  lemma SlotMissing(o: ParseOptions, st: Store, name: string)
    ensures SlotOf(o, st, name).Missing? <==> name != o.defaultSection && !Named(st, name)
  {
    NamedIs(st, name);
    hide HasStored, Named;
  }

  /** set succeeds exactly for the default section, which the empty name stands for, and for stored ones; it throws
      NoSection for the others and changes nothing. It writes the key, in lower case, in that section only. */
  lemma SetExactly(o: ParseOptions, st: Store, section: string, option: string, value: OptionValue)
    ensures var r := SetOption(o, st, section, option, value);
            var name := if section == "" then o.defaultSection else section;
            if name == o.defaultSection || Named(st, name) then
              && r.thrown.None?
              && exists before, after :: Edited(o, st, r.store, name, before, after)
                                         && Written(before, after, ToLower(option), value)
            else r == Outcome(st, Some(Plain(NoSection)))
  {
    hide Edited, Written, WithItems, PutItem, SlotOf, Named, ToLower;
    var name := TargetSection(o, section);
    SlotMissing(o, st, name);
    var slot := SlotOf(o, st, name);
    if !slot.Missing? {
      var before := ItemsAt(st, slot);
      PutIsWritten(before, ToLower(option), value);
      ReplaceEdits(o, st, name, PutItem(before, ToLower(option), value));
    }
  }

  /** remove_option likewise; the other entries keep their order. */
  lemma RemoveOptionExactly(o: ParseOptions, st: Store, section: string, option: string)
    requires StoreOk(o, st)
    ensures var r := RemoveOption(o, st, section, option);
            var name := if section == "" then o.defaultSection else section;
            if name == o.defaultSection || Named(st, name) then
              && r.thrown.None?
              && exists before, after :: Edited(o, st, r.store, name, before, after)
                                         && Erased(before, after, ToLower(option))
            else r == Outcome(st, Some(Plain(NoSection)))
  {
    hide Edited, Erased, WithItems, Without, SlotOf, Named, ToLower;
    var name := TargetSection(o, section);
    SlotMissing(o, st, name);
    var slot := SlotOf(o, st, name);
    if !slot.Missing? {
      var before := ItemsAt(st, slot);
      WithoutIsErased(before, ToLower(option));
      ReplaceEdits(o, st, name, Without(before, ToLower(option)));
    }
  }

  /** add_section throws DuplicateSection exactly for the default section's name and for stored ones, and changes
      nothing then; otherwise the new section stands last, empty. */
  lemma AddSectionExactly(o: ParseOptions, st: Store, name: string)
    ensures AddSection(o, st, name) ==
            if name == o.defaultSection || Named(st, name) then Outcome(st, Some(Plain(DuplicateSection)))
            else Outcome(Store(st.defaults, st.sections + [Section(name, [])]), None)
  {
    NamedIs(st, name);
    hide HasStored, Named;
  }

  /** remove_section takes out the section of that name and leaves the others, their entries and their order. */
  lemma RemoveSectionExactly(st: Store, name: string)
    ensures var r := RemoveSection(st, name);
            if Named(st, name) then
              && r.defaults == st.defaults
              && exists i :: && 0 <= i < |st.sections| && st.sections[i].name == name
                             && r.sections == st.sections[..i] + st.sections[i + 1..]
                             && forall j :: 0 <= j < i ==> st.sections[j].name != name
            else r == st
  {
    NamedIs(st, name);
  }
}
