/** The layered views of a store agree with each other, and each operation changes
    exactly what its section and key, or a DEFAULT fallback through it, can see. */
module IniViews {
  import opened Text
  import opened IniStore
  import opened IniParse
  import opened IniTwoPhase
  import opened IniMeaning
  import opened IniOps

  // ---------------------------------------------------------------- options, items and lookups

  lemma PutLast(items: Items, e: Entry, key: string)
    requires !HasKey(items, e.key)
    ensures Lookup(items + [e], key) == if key == e.key then Some(e.value) else Lookup(items, key)
    ensures HasKey(items + [e], key) <==> key == e.key || HasKey(items, key)
  {
    var r := items + [e];
    assert forall i :: 0 <= i < |items| ==> r[i] == items[i];
    assert r[|items|] == e;
    var i, j := FindKey(items, key), FindKey(r, key);
    if i < |items| {
      assert j == i;
    } else if key == e.key {
      assert j == |items|;
    }
  }

  /** Own entries come first and unchanged, fallbacks answer only for keys not listed yet. */
  lemma {:induction false} Fallbacks(out: Items, more: Items, key: string)
    requires DistinctKeys(out)
    ensures var r := WithFallbacks(out, more);
            && out <= r && DistinctKeys(r)
            && Lookup(r, key) == if HasKey(out, key) then Lookup(out, key) else Lookup(more, key)
    decreases |more|
  {
    hide Lookup, HasKey;
    if more == [] {
      LookupNil(out, key);
    } else {
      var e := more[0];
      LookupCons(more, key);
      LookupHas(out, key);
      if HasKey(out, e.key) {
        Fallbacks(out, more[1..], key);
      } else {
        PutLast(out, e, key);
        DistinctAppend(out, e);
        Fallbacks(out + [e], more[1..], key);
      }
    }
  }

  lemma LookupNil(out: Items, key: string)
    ensures Lookup([], key) == None
    ensures !HasKey(out, key) ==> Lookup(out, key) == None
  {}

  lemma LookupHas(items: Items, key: string)
    ensures HasKey(items, key) <==> Lookup(items, key).Some?
  {}

  lemma DistinctAppend(items: Items, e: Entry)
    requires DistinctKeys(items) && !HasKey(items, e.key)
    ensures DistinctKeys(items + [e])
  {}

  lemma KeysListed(items: Items, key: string)
    ensures key in Keys(items) <==> HasKey(items, key)
  {
    var i := FindKey(items, key);
    if i < |items| {
      assert Keys(items)[i] == key;
    }
  }

  lemma StoreOkParts(o: ParseOptions, st: Store, section: string)
    requires StoreOk(o, st)
    ensures DistinctKeys(st.defaults)
    ensures !SlotOf(o, st, section).Missing? ==> DistinctKeys(ItemsAt(st, SlotOf(o, st, section)))
  {}

  lemma Mentions(items: Items, key: string)
    ensures HasKey(items, key) <==> Lookup(items, key).Some?
    ensures key in Keys(items) <==> Lookup(items, key).Some?
  {
    KeysListed(items, key);
  }

  lemma RawItemsAre(o: ParseOptions, st: Store, section: string, key: string)
    requires StoreOk(o, st) && HasSection(o, st, section)
    ensures var r := RawItems(o, st, section);
            && r.Ok? && DistinctKeys(r.value)
            && ItemsAt(st, SlotOf(o, st, section)) <= r.value
            && Lookup(r.value, key) ==
               var own := StoredValue(o, st, section, key);
               if own.Some? then own else StoredValue(o, st, o.defaultSection, key)
  {
    hide Lookup, HasKey, WithFallbacks, DistinctKeys, StoreOk;
    StoreOkParts(o, st, section);
    var items := ItemsAt(st, SlotOf(o, st, section));
    Fallbacks(items, st.defaults, key);
    LookupHas(items, key);
  }

  /** What get_raw answers, layer by layer. */
  lemma GetRawLayers(o: ParseOptions, st: Store, section: string, option: string)
    ensures var key := ToLower(option);
            var own, fallback := StoredValue(o, st, section, key), StoredValue(o, st, o.defaultSection, key);
            GetRaw(o, st, section, option) ==
            if own.Some? then Ok(own.value)
            else if fallback.Some? then Ok(fallback.value)
            else if HasSection(o, st, section) then Err(NoOption)
            else Err(NoSection)
  {
    hide FindKey, FindSection, ToLower;
  }

  lemma HasOptionLayers(o: ParseOptions, st: Store, section: string, option: string)
    ensures HasOption(o, st, section, option) <==>
            && HasSection(o, st, section)
            && (|| StoredValue(o, st, section, ToLower(option)).Some?
                || StoredValue(o, st, o.defaultSection, ToLower(option)).Some?)
  {
    hide FindKey, FindSection, ToLower;
  }

  /** Main result: for a section that exists, options and items(raw) list the same keys in the same order and
      once each, the section's own entries first; a listed value is what get_raw returns; has_option holds of
      exactly the listed keys. For a section that does not, items and options fail and has_option is false,
      while get_raw still falls back to DEFAULT. */
  lemma ViewsAgree(o: ParseOptions, st: Store, section: string, option: string)
    requires StoreOk(o, st)
    ensures HasSection(o, st, section) ==>
              var items := RawItems(o, st, section);
              && items.Ok? && Options(o, st, section) == Ok(Keys(items.value)) && DistinctKeys(items.value)
              && ItemsAt(st, SlotOf(o, st, section)) <= items.value
              && (HasOption(o, st, section, option) <==> ToLower(option) in Keys(items.value))
              && Lookup(items.value, ToLower(option)) ==
                 match GetRaw(o, st, section, option) { case Ok(v) => Some(v) case Err(_) => None }
    ensures !HasSection(o, st, section) ==>
              && RawItems(o, st, section) == Err(NoSection) && Options(o, st, section) == Err(NoSection)
              && !HasOption(o, st, section, option)
              && GetRaw(o, st, section, option) ==
                 match StoredValue(o, st, o.defaultSection, ToLower(option)) {
                   case Some(v) => Ok(v) case None => Err(NoSection)
                 }
  {
    hide StoreOk, FindSection, FindKey, ToLower, WithFallbacks, GetRaw, HasOption, DistinctKeys, Keys;
    var key := ToLower(option);
    GetRawLayers(o, st, section, option);
    HasOptionLayers(o, st, section, option);
    if HasSection(o, st, section) {
      RawItemsAre(o, st, section, key);
      Mentions(RawItems(o, st, section).value, key);
    } else {
      assert StoredValue(o, st, section, key) == None;
    }
  }

  // ---------------------------------------------------------------- what one operation changes

  lemma SetStored(o: ParseOptions, st: Store, section: string, option: string, value: OptionValue, s: string,
                  key: string)
    requires SetOption(o, st, section, option, value).thrown.None?
    ensures var r := SetOption(o, st, section, option, value).store;
            && StoredValue(o, r, s, key) ==
               (if s == TargetSection(o, section) && key == ToLower(option) then Some(value)
                else StoredValue(o, st, s, key))
            && (HasSection(o, r, s) <==> HasSection(o, st, s))
  {
    hide PutItem, FindKey, FindSection, WithItems, Lookup, ToLower;
    var t := TargetSection(o, section);
    var items := ItemsAt(st, SlotOf(o, st, t));
    var items' := PutItem(items, ToLower(option), value);
    ReplaceLookup(o, st, t, items', s, key);
    NamesSame(o, st, t, items', s);
    PutItemLookup(items, ToLower(option), value, key);
  }

  lemma RemoveStored(o: ParseOptions, st: Store, section: string, option: string, s: string, key: string)
    requires RemoveOption(o, st, section, option).thrown.None?
    ensures var r := RemoveOption(o, st, section, option).store;
            && StoredValue(o, r, s, key) ==
               (if s == TargetSection(o, section) && key == ToLower(option) then None
                else StoredValue(o, st, s, key))
            && (HasSection(o, r, s) <==> HasSection(o, st, s))
  {
    hide Without, FindKey, FindSection, WithItems, Lookup, ToLower;
    var t := TargetSection(o, section);
    var items := ItemsAt(st, SlotOf(o, st, t));
    var items' := Without(items, ToLower(option));
    ReplaceLookup(o, st, t, items', s, key);
    NamesSame(o, st, t, items', s);
    WithoutLookup(items, ToLower(option), key);
  }

  /** After set, a reader sees the new value exactly when it asks that section for that key, or asks another
      section that has no such key of its own and the write was to DEFAULT; otherwise what it saw before. */
  lemma SetFrame(o: ParseOptions, st: Store, section: string, option: string, value: OptionValue, s: string,
                 other: string)
    requires SetOption(o, st, section, option, value).thrown.None?
    ensures var r, t := SetOption(o, st, section, option, value).store, TargetSection(o, section);
            GetRaw(o, r, s, other) ==
            if ToLower(other) == ToLower(option)
               && (s == t || (t == o.defaultSection && StoredValue(o, st, s, ToLower(option)).None?))
            then Ok(value)
            else GetRaw(o, st, s, other)
  {
    hide StoredValue, SetOption, GetRaw, HasSection, ToLower;
    var r, key := SetOption(o, st, section, option, value).store, ToLower(other);
    SetStored(o, st, section, option, value, s, key);
    SetStored(o, st, section, option, value, o.defaultSection, key);
    GetRawLayers(o, r, s, other);
    GetRawLayers(o, st, s, other);
  }

  /** After remove_option, a reader of that key in that section falls through to DEFAULT, a reader that was
      falling through to a removed DEFAULT entry finds nothing, and everyone else sees what it saw before. */
  lemma RemoveFrame(o: ParseOptions, st: Store, section: string, option: string, s: string, other: string)
    requires RemoveOption(o, st, section, option).thrown.None?
    ensures var r, t := RemoveOption(o, st, section, option).store, TargetSection(o, section);
            var missing := if HasSection(o, st, s) then NoOption else NoSection;
            GetRaw(o, r, s, other) ==
            if ToLower(other) != ToLower(option) then GetRaw(o, st, s, other)
            else if s == t && t != o.defaultSection then
              match StoredValue(o, st, o.defaultSection, ToLower(option)) {
                case Some(v) => Ok(v) case None => Err(NoOption)
              }
            else if s == t || (t == o.defaultSection && StoredValue(o, st, s, ToLower(option)).None?)
            then Err(missing)
            else GetRaw(o, st, s, other)
  {
    hide StoredValue, GetRaw, ToLower, HasSection, RemoveOption;
    var r, key := RemoveOption(o, st, section, option).store, ToLower(other);
    RemoveStored(o, st, section, option, s, key);
    RemoveStored(o, st, section, option, o.defaultSection, key);
    GetRawLayers(o, r, s, other);
    GetRawLayers(o, st, s, other);
    TargetExists(o, st, section, option);
  }

  lemma TargetExists(o: ParseOptions, st: Store, section: string, option: string)
    requires RemoveOption(o, st, section, option).thrown.None?
    ensures HasSection(o, st, TargetSection(o, section))
  {}

  lemma {:induction false} WithoutLast(items: Items, e: Entry)
    requires !HasKey(items, e.key)
    ensures Without(items + [e], e.key) == items
  {
    if items == [] {
      assert ([] + [e])[1..] == [];
    } else {
      assert (items + [e])[1..] == items[1..] + [e];
      WithoutLast(items[1..], e);
    }
  }

  /** Removing an option that set has just created gives back the very same store. */
  lemma SetThenRemove(o: ParseOptions, st: Store, section: string, option: string, value: OptionValue)
    requires SetOption(o, st, section, option, value).thrown.None?
    requires StoredValue(o, st, TargetSection(o, section), ToLower(option)).None?
    ensures RemoveOption(o, SetOption(o, st, section, option, value).store, section, option) == Outcome(st, None)
  {
    hide ToLower, FindSection, FindKey, Without;
    var t, key := TargetSection(o, section), ToLower(option);
    var slot := SlotOf(o, st, t);
    var items := ItemsAt(st, slot);
    SlotStays(o, st, t, items + [Entry(key, value)]);
    WithoutLast(items, Entry(key, value));
    SameItems(st, slot, items + [Entry(key, value)]);
  }

  lemma SameItems(st: Store, slot: Slot, items: Items)
    requires ValidSlot(st, slot)
    ensures var s1 := WithItems(st, slot, items);
            ValidSlot(s1, slot) && ItemsAt(s1, slot) == items && WithItems(s1, slot, ItemsAt(st, slot)) == st
  {
    var s1 := WithItems(st, slot, items);
    if slot.Stored? {
      var s := st.sections[slot.index];
      assert s1.sections[slot.index].(items := s.items) == s;
      assert s1.sections[slot.index := s] == st.sections;
    }
  }

  /** Removing a section that add_section has just created gives back the very same store. */
  lemma AddThenRemove(o: ParseOptions, st: Store, name: string)
    requires AddSection(o, st, name).thrown.None?
    ensures RemoveSection(AddSection(o, st, name).store, name) == st
  {
    var a, b := st.sections, AppendSection(st, name).sections;
    assert forall i :: 0 <= i < |a| ==> b[i] == a[i];
    assert b[|a|].name == name;
    assert FindSection(b, name) == |a|;
    assert b[..|a|] == a;
  }

  // ---------------------------------------------------------------- the order of fallbacks

  /** The entries of `more` whose key `own` does not have, in order. */
  function Unlisted(own: Items, more: Items): Items {
    if more == [] then []
    else (if HasKey(own, more[0].key) then [] else [more[0]]) + Unlisted(own, more[1..])
  }

  lemma {:induction false} UnlistedAppend(own: Items, e: Entry, more: Items)
    requires forall i :: 0 <= i < |more| ==> more[i].key != e.key
    ensures Unlisted(own + [e], more) == Unlisted(own, more)
  {
    if more != [] {
      KeyAppend(own, e, more[0].key);
      UnlistedAppend(own, e, more[1..]);
    }
  }

  lemma KeyAppend(own: Items, e: Entry, key: string)
    requires e.key != key
    ensures HasKey(own + [e], key) <==> HasKey(own, key)
  {
    var r := own + [e];
    var i, j := FindKey(own, key), FindKey(r, key);
    assert forall k :: 0 <= k < |own| ==> r[k] == own[k];
    assert r[|own|] == e;
  }

  /** A section's items are its own in their order, then the DEFAULT ones it does not override in theirs. */
  lemma {:induction false} FallbackOrder(own: Items, more: Items)
    requires DistinctKeys(more)
    ensures WithFallbacks(own, more) == own + Unlisted(own, more)
    decreases |more|
  {
    hide HasKey;
    if more == [] {
      NilConcat(own);
    } else {
      var e, rest := more[0], more[1..];
      if HasKey(own, e.key) {
        FallbackOrder(own, rest);
        NilConcat(Unlisted(own, rest));
      } else {
        FallbackOrder(own + [e], rest);
        UnlistedAppend(own, e, rest);
        Assoc(own, [e], Unlisted(own, rest));
      }
    }
  }

  // ---------------------------------------------------------------- the default section's name

  predicate DefaultApart(o: ParseOptions, st: Store) {
    forall i :: 0 <= i < |st.sections| ==> st.sections[i].name != o.defaultSection
  }

  predicate ShippedComments(o: ParseOptions) {
    o.commentPrefixes == ["#", ";"] && o.inlineCommentPrefixes == []
  }

  lemma LetterLine(o: ParseOptions)
    requires ShippedComments(o)
    ensures StripComment(o, "a") == "a" && Lines("a") == ["a"] && !Classify(o, "a").Header?
  {
    TrimFixed("a");
    assert "a"[..1] == "a";
    assert CutAllInline("a", []) == "a";
    NewlineAtUnique("a", "");
    hide Trim, FirstDelimiter, NewlineAt;
  }

  /** A store whose only section has the default one's name. */
  predicate Shadowed(o: ParseOptions, st: Store) {
    |st.sections| == 1 && st.sections[0].name == o.defaultSection
  }

  lemma LetterStep(o: ParseOptions)
    requires !Benign(o) && !Classify(o, "a").Header?
    ensures Shadowed(o, ParseLine(o, EMPTY_STORE, START, "a", "a", 1).store)
  {
    hide Classify, PutItem, HasKey;
    assert EMPTY_STORE.sections + [Section(UNNAMED_SECTION, [])] == [Section(UNNAMED_SECTION, [])];
  }

  lemma EndKeepsShadow(o: ParseOptions, s: Step)
    requires !Benign(o) && Shadowed(o, s.store)
    ensures Shadowed(o, AtEnd(o, s).store)
  {
    hide PutItem, HasKey, JoinLines;
  }

  /** The one text that goes wrong. */
  lemma LetterStores(o: ParseOptions)
    requires ShippedComments(o) && !Benign(o)
    ensures Shadowed(o, ReadString(o, EMPTY_STORE, "a").store)
  {
    hide StripComment, Classify, ParseLine, ParseLines, AtEnd, Shadowed, Lines, Benign, ShippedComments;
    LetterLine(o);
    OneStep(o, "a");
    LetterStep(o);
    EndKeepsShadow(o, ParseLines(o, EMPTY_STORE, START, ["a"], 1));
  }

  /** No text can make a stored section shadow the default one exactly when the unnamed section
      cannot be created under the default section's name. */
  lemma DefaultStaysApart(o: ParseOptions)
    requires ShippedComments(o)
    ensures Benign(o) <==> forall text :: DefaultApart(o, ReadString(o, EMPTY_STORE, text).store)
  {
    hide ReadString;
    if Benign(o) {
      forall text
        ensures DefaultApart(o, ReadString(o, EMPTY_STORE, text).store)
      {
        ReadOk(o, EMPTY_STORE, text);
      }
    } else {
      LetterStores(o);
      assert !DefaultApart(o, ReadString(o, EMPTY_STORE, "a").store);
    }
  }
}
