/** The other store operations and the layered views (section first, then DEFAULT),
    the invariant every operation keeps, and what one operation can change for a reader. */
module IniOps {
  import opened Text
  import opened IniStore
  import opened IniParse

  // ---------------------------------------------------------------- operations

  function AddSection(o: ParseOptions, st: Store, name: string): Outcome {
    if name == o.defaultSection || HasStored(st, name) then Outcome(st, Some(Plain(DuplicateSection)))
    else Outcome(AppendSection(st, name), None)
  }

  /** set and remove_option take the empty name for the default section. */
  function TargetSection(o: ParseOptions, section: string): string {
    if section == "" then o.defaultSection else section
  }

  function SetOption(o: ParseOptions, st: Store, section: string, option: string, value: OptionValue): Outcome {
    var slot := SlotOf(o, st, TargetSection(o, section));
    if slot.Missing? then Outcome(st, Some(Plain(NoSection)))
    else Outcome(WithItems(st, slot, PutItem(ItemsAt(st, slot), ToLower(option), value)), None)
  }

  function RemoveOption(o: ParseOptions, st: Store, section: string, option: string): Outcome {
    var slot := SlotOf(o, st, TargetSection(o, section));
    if slot.Missing? then Outcome(st, Some(Plain(NoSection)))
    else Outcome(WithItems(st, slot, Without(ItemsAt(st, slot), ToLower(option))), None)
  }

  function RemoveSection(st: Store, name: string): Store {
    var i := FindSection(st.sections, name);
    if i < |st.sections| then st.(sections := st.sections[..i] + st.sections[i + 1..]) else st
  }

  // ---------------------------------------------------------------- views

  predicate HasSection(o: ParseOptions, st: Store, section: string) {
    section == o.defaultSection || HasStored(st, section)
  }

  predicate HasOption(o: ParseOptions, st: Store, section: string, option: string) {
    var slot := SlotOf(o, st, section);
    && !slot.Missing?
    && (HasKey(ItemsAt(st, slot), ToLower(option))
        || (section != o.defaultSection && HasKey(st.defaults, ToLower(option))))
  }

  function GetRaw(o: ParseOptions, st: Store, section: string, option: string): Result<OptionValue, ErrorCode> {
    var slot, key := SlotOf(o, st, section), ToLower(option);
    if !slot.Missing? && HasKey(ItemsAt(st, slot), key) then Ok(Lookup(ItemsAt(st, slot), key).value)
    else if section != o.defaultSection && HasKey(st.defaults, key) then Ok(Lookup(st.defaults, key).value)
    else if slot.Missing? then Err(NoSection)
    else Err(NoOption)
  }

  /** Append, in order, the fallback entries whose key is not listed yet. */
  function WithFallbacks(out: Items, fallbacks: Items): Items
    decreases |fallbacks|
  {
    if fallbacks == [] then out
    else if HasKey(out, fallbacks[0].key) then WithFallbacks(out, fallbacks[1..])
    else WithFallbacks(out + [fallbacks[0]], fallbacks[1..])
  }

  function RawItems(o: ParseOptions, st: Store, section: string): Result<Items, ErrorCode> {
    var slot := SlotOf(o, st, section);
    if slot.Missing? then Err(NoSection)
    else Ok(if section == o.defaultSection then st.defaults else WithFallbacks(ItemsAt(st, slot), st.defaults))
  }

  function Keys(items: Items): (r: seq<string>)
    ensures |r| == |items| && forall i :: 0 <= i < |r| ==> r[i] == items[i].key
  {
    seq(|items|, i requires 0 <= i < |items| => items[i].key)
  }

  function Options(o: ParseOptions, st: Store, section: string): Result<seq<string>, ErrorCode> {
    var r := RawItems(o, st, section);
    if r.Ok? then Ok(Keys(r.value)) else Err(r.error)
  }

  // ---------------------------------------------------------------- the invariant is kept

  lemma AppendOk(o: ParseOptions, st: Store, name: string)
    requires StoreOk(o, st) && !HasStored(st, name)
    requires Benign(o) ==> name != o.defaultSection
    ensures StoreOk(o, AppendSection(st, name))
  {
    var r := AppendSection(st, name).sections;
    assert forall i :: 0 <= i < |st.sections| ==> r[i] == st.sections[i];
  }

  lemma PutOptionOk(o: ParseOptions, st: Store, section: string, key: string, value: OptionValue, line: nat)
    requires StoreOk(o, st) && IsLower(key)
    ensures StoreOk(o, PutOption(o, st, section, key, value, line).store)
  {
    var slot := SlotOf(o, st, section);
    if !slot.Missing? {
      PutItemOk(ItemsAt(st, slot), key, value);
      hide PutItem, ItemsOk, Benign, HasKey;
      WithItemsOk(o, st, slot, PutItem(ItemsAt(st, slot), key, value));
    }
  }

  lemma FinishOk(o: ParseOptions, st: Store, section: string, option: string, accum: seq<string>)
    requires StoreOk(o, st)
    ensures StoreOk(o, FinishMultiline(o, st, section, option, accum).store)
  {
    var slot := SlotOf(o, st, section);
    if option != "" && !slot.Missing? && HasKey(ItemsAt(st, slot), option) {
      assert ItemsAt(st, slot)[FindKey(ItemsAt(st, slot), option)].key == option;
      PutItemOk(ItemsAt(st, slot), option, Some(JoinLines(accum)));
      hide PutItem, ItemsOk, Benign, HasKey, JoinLines;
      WithItemsOk(o, st, slot, PutItem(ItemsAt(st, slot), option, Some(JoinLines(accum))));
    }
  }

  lemma LogicalLineOk(o: ParseOptions, st: Store, c: Cursor, original: string, logical: Logical, line: nat)
    requires StoreOk(o, st)
    ensures StoreOk(o, LogicalLine(o, st, c, original, logical, line).store)
  {
    if logical.Header? {
      if !HasStored(st, logical.name) && logical.name != o.defaultSection {
        AppendOk(o, st, logical.name);
      }
      hide StoreOk, HasStored;
    } else {
      var e := EnsureSection(o, st, c.section, line);
      assert StoreOk(o, e.store) by {
        if !HasStored(st, UNNAMED_SECTION) && o.allowUnnamedSection {
          AppendOk(o, st, UNNAMED_SECTION);
        }
      }
      if logical.Assign? || logical.Bare? {
        LowerFixed(logical.key);
        PutOptionOk(o, e.store, ImplicitSection(o, c.section), ToLower(logical.key),
                    if logical.Assign? then Some(logical.text) else None, line);
      }
      hide StoreOk, HasStored, PutOption, EnsureSection;
    }
  }

  lemma ParseLineOk(o: ParseOptions, st: Store, c: Cursor, original: string, cleaned: string, line: nat)
    requires StoreOk(o, st)
    ensures StoreOk(o, ParseLine(o, st, c, original, cleaned, line).store)
  {
    hide StoreOk, FinishMultiline, LogicalLine, Classify;
    if cleaned != "" {
      FinishOk(o, st, c.section, c.option, c.accum);
      var f := FinishMultiline(o, st, c.section, c.option, c.accum);
      LogicalLineOk(o, f.store, c.(accum := [], inMultiline := false), original, Classify(o, cleaned), line);
      LogicalLineOk(o, st, c, original, Classify(o, cleaned), line);
    }
  }

  lemma {:induction false} ParseLinesOk(o: ParseOptions, st: Store, c: Cursor, lines: seq<string>, line: nat)
    requires StoreOk(o, st)
    ensures StoreOk(o, ParseLines(o, st, c, lines, line).store)
    decreases |lines|
  {
    hide StoreOk, ParseLine, StripComment;
    if lines != [] {
      ParseLineOk(o, st, c, lines[0], StripComment(o, lines[0]), line);
      var s := ParseLine(o, st, c, lines[0], StripComment(o, lines[0]), line);
      ParseLinesOk(o, s.store, s.cursor, lines[1..], line + 1);
    }
  }

  /** Reading any text under any options keeps the invariant, whether or not it throws. */
  lemma ReadOk(o: ParseOptions, st: Store, text: string)
    requires StoreOk(o, st)
    ensures StoreOk(o, ReadString(o, st, text).store)
  {
    ParseLinesOk(o, st, START, Lines(text), 1);
    var s := ParseLines(o, st, START, Lines(text), 1);
    FinishOk(o, s.store, s.cursor.section, s.cursor.option, s.cursor.accum);
    hide StoreOk, ParseLines, FinishMultiline;
  }

  lemma AddSectionOk(o: ParseOptions, st: Store, name: string)
    requires StoreOk(o, st)
    ensures StoreOk(o, AddSection(o, st, name).store)
  {
    if name != o.defaultSection && !HasStored(st, name) {
      AppendOk(o, st, name);
    }
    hide StoreOk, HasStored;
  }

  lemma SetOptionOk(o: ParseOptions, st: Store, section: string, option: string, value: OptionValue)
    requires StoreOk(o, st)
    ensures StoreOk(o, SetOption(o, st, section, option, value).store)
  {
    var slot := SlotOf(o, st, TargetSection(o, section));
    if !slot.Missing? {
      LowerFixed(option);
      PutItemOk(ItemsAt(st, slot), ToLower(option), value);
      hide PutItem, ItemsOk, Benign, ToLower;
      WithItemsOk(o, st, slot, PutItem(ItemsAt(st, slot), ToLower(option), value));
    }
  }

  lemma RemoveOptionOk(o: ParseOptions, st: Store, section: string, option: string)
    requires StoreOk(o, st)
    ensures StoreOk(o, RemoveOption(o, st, section, option).store)
  {
    var slot := SlotOf(o, st, TargetSection(o, section));
    if !slot.Missing? {
      WithoutOk(ItemsAt(st, slot), ToLower(option));
      hide Without, ItemsOk, Benign, ToLower;
      WithItemsOk(o, st, slot, Without(ItemsAt(st, slot), ToLower(option)));
    }
  }

  lemma RemoveSectionOk(o: ParseOptions, st: Store, name: string)
    requires StoreOk(o, st)
    ensures StoreOk(o, RemoveSection(st, name))
    ensures !HasStored(RemoveSection(st, name), name)
  {
    hide ItemsOk, Benign;
    var i, n := FindSection(st.sections, name), |st.sections|;
    var r := RemoveSection(st, name).sections;
    if i < n {
      assert forall j :: 0 <= j < |r| ==> r[j] == st.sections[if j < i then j else j + 1];
    }
  }
}
