/** Escaping undoes substitution, and substituted listings agree with single lookups. */
module InterpolationEscape {
  import opened Text
  import opened IniStore
  import opened IniParse
  import opened IniOps
  import opened IniMeaning
  import opened IniViews
  import opened Interpolation

  /** The character that starts a reference in this mode. */
  function Trigger(o: ParseOptions): char {
    if o.interpolation == Basic then '%' else '$'
  }

  /** Every trigger character doubled. */
  function Escape(c: char, s: string): string {
    if s == "" then ""
    else (if s[0] == c then [c, c] else [s[0]]) + Escape(c, s[1..])
  }

  lemma EscapeToken(o: ParseOptions, section: string, s: string, rest: string)
    requires s != ""
    ensures var text := (if s[0] == Trigger(o) then [Trigger(o), Trigger(o)] else [s[0]]) + rest;
            var t := NextToken(o, section, text);
            t.Verbatim? && t.c == s[0] && text[t.next..] == rest
  {
    hide Find;
  }

  lemma {:induction false} ExpandEscaped(o: ParseOptions, st: Store, section: string, s: string, fuel: nat)
    requires fuel > 0
    ensures Expand(o, st, section, Escape(Trigger(o), s), fuel) == Ok(s)
    decreases |s|
  {
    hide NextToken, GetRaw, Interpolate, Trigger;
    if s != "" {
      var rest := Escape(Trigger(o), s[1..]);
      EscapeToken(o, section, s, rest);
      ExpandEscaped(o, st, section, s[1..], fuel);
      HeadTail(s);
    }
  }

  lemma {:induction false} EscapeLacking(c: char, s: string)
    requires Lacks(s, c)
    ensures Escape(c, s) == s
  {
    if s != "" {
      EscapeLacking(c, s[1..]);
      HeadTail(s);
    }
  }

  /** What an option holds when it is stored: what get gives back. */
  function Guarded(o: ParseOptions, s: string): string {
    if o.interpolation == NoInterpolation then s else Escape(Trigger(o), s)
  }

  /** Main result: store any string with its trigger characters doubled, and get returns that string,
      as long as the depth limit admits one level. */
  lemma EscapeUndone(o: ParseOptions, st: Store, section: string, option: string, s: string)
    requires o.maxInterpolationDepth >= 1 || o.interpolation == NoInterpolation
    requires SetOption(o, st, section, option, Some(Guarded(o, s))).thrown.None?
    ensures Get(o, SetOption(o, st, section, option, Some(Guarded(o, s))).store, TargetSection(o, section), option) ==
            Ok(s)
  {
    hide SetOption, GetRaw, Expand, TargetSection, ToLower, StoredValue, Trigger;
    var r, t := SetOption(o, st, section, option, Some(Guarded(o, s))).store, TargetSection(o, section);
    SetFrame(o, st, section, option, Some(Guarded(o, s)), t, option);
    if o.interpolation != NoInterpolation {
      ExpandEscaped(o, r, t, s, Fuel(o, 1));
    }
  }

  /** A string without the trigger character is its own substitution. */
  lemma PlainTextFixed(o: ParseOptions, st: Store, section: string, s: string, fuel: nat)
    requires Lacks(s, Trigger(o)) && fuel > 0
    ensures Interpolate(o, st, section, s, fuel) == Ok(s)
  {
    hide GetRaw, Trigger, Lacks, Expand;
    EscapeLacking(Trigger(o), s);
    ExpandEscaped(o, st, section, s, fuel);
  }

  // ---------------------------------------------------------------- items

  /** The value items gives for an entry. */
  function Substituted(o: ParseOptions, st: Store, section: string, e: Entry): Result<OptionValue, ErrorCode> {
    if e.value.None? then Ok(None)
    else
      var v := Interpolate(o, st, section, e.value.value, Fuel(o, 1));
      if v.Err? then Err(v.error) else Ok(Some(v.value))
  }

  lemma {:induction false} SubstituteEach(o: ParseOptions, st: Store, section: string, items: Items)
    ensures var r := SubstituteAll(o, st, section, items);
            && (r.Ok? <==> forall i :: 0 <= i < |items| ==> Substituted(o, st, section, items[i]).Ok?)
            && (r.Ok? ==> |r.value| == |items| && forall i :: 0 <= i < |items| ==>
                  r.value[i].key == items[i].key && Substituted(o, st, section, items[i]) == Ok(r.value[i].value))
  {
    hide Interpolate;
    if items != [] {
      SubstituteEach(o, st, section, items[1..]);
      assert forall i :: 1 <= i < |items| ==> items[i] == items[1..][i - 1];
    }
  }

  lemma KeysLower(o: ParseOptions, st: Store, section: string, i: nat)
    requires StoreOk(o, st) && HasSection(o, st, section) && RawItems(o, st, section).Ok?
    requires i < |RawItems(o, st, section).value|
    ensures ToLower(RawItems(o, st, section).value[i].key) == RawItems(o, st, section).value[i].key
  {
    var items := ItemsAt(st, SlotOf(o, st, section));
    FallbackKeys(items, st.defaults);
    LowerFixed(RawItems(o, st, section).value[i].key);
  }

  lemma {:induction false} FallbackKeys(out: Items, more: Items)
    requires LowerKeys(out) && LowerKeys(more)
    ensures LowerKeys(WithFallbacks(out, more))
    decreases |more|
  {
    if more != [] {
      FallbackKeys(out, more[1..]);
      FallbackKeys(out + [more[0]], more[1..]);
    }
  }

  lemma LookupAt(items: Items, i: nat)
    requires DistinctKeys(items) && i < |items|
    ensures Lookup(items, items[i].key) == Some(items[i].value)
  {
    FindKeyAt(items, i);
  }

  /** One listed entry and get: a present value is listed substituted as get returns it, an absent one stays
      absent where get returns the empty string. */
  lemma ListedIsGot(o: ParseOptions, st: Store, section: string, i: nat)
    requires StoreOk(o, st) && HasSection(o, st, section) && RawItems(o, st, section).Ok?
    requires i < |RawItems(o, st, section).value|
    ensures var e := RawItems(o, st, section).value[i];
            var got := Get(o, st, section, e.key);
            match Substituted(o, st, section, e) {
              case Ok(Some(v)) => got == Ok(v)
              case Ok(None) => e.value.None? && got == Ok("")
              case Err(error) => got == Err(error)
            }
  {
    hide StoreOk, RawItems, Interpolate, GetRaw, HasSection, Options, HasOption, DistinctKeys, ToLower, Keys, Lookup,
      StoredValue;
    var e := RawItems(o, st, section).value[i];
    ViewsAgree(o, st, section, e.key);
    KeysLower(o, st, section, i);
    LookupAt(RawItems(o, st, section).value, i);
  }

  /** The entry is the first that fails, and this is how. */
  predicate FailsFirst(o: ParseOptions, st: Store, section: string, items: Items, i: nat, e: ErrorCode) {
    && i < |items| && Substituted(o, st, section, items[i]) == Err(e)
    && forall j :: 0 <= j < i ==> Substituted(o, st, section, items[j]).Ok?
  }

  lemma {:induction false} FailingIs(o: ParseOptions, st: Store, section: string, items: Items) returns (i: nat)
    requires SubstituteAll(o, st, section, items).Err?
    ensures FailsFirst(o, st, section, items, i, SubstituteAll(o, st, section, items).error)
  {
    hide Interpolate;
    if Substituted(o, st, section, items[0]).Err? {
      i := 0;
    } else {
      var k := FailingIs(o, st, section, items[1..]);
      i := k + 1;
      assert forall j :: 0 <= j < |items| - 1 ==> items[1..][j] == items[j + 1];
    }
  }

  /** A substituted listing that fails does so as get does on the first listed key it fails on. */
  lemma ItemsFailWithGet(o: ParseOptions, st: Store, section: string) returns (i: nat)
    requires StoreOk(o, st) && HasSection(o, st, section) && ItemsOf(o, st, section, false).Err?
    ensures RawItems(o, st, section).Ok?
    ensures var listed := RawItems(o, st, section).value;
            && i < |listed| && Get(o, st, section, listed[i].key) == Err(ItemsOf(o, st, section, false).error)
            && forall j :: 0 <= j < i ==> Get(o, st, section, listed[j].key).Ok?
  {
    hide StoreOk, RawItems, Interpolate, Get, HasSection, SubstituteAll, Substituted;
    ListingExists(o, st, section);
    var listed := RawItems(o, st, section).value;
    i := FailingIs(o, st, section, listed);
    ListedIsGot(o, st, section, i);
    forall j | 0 <= j < i
      ensures Get(o, st, section, listed[j].key).Ok?
    {
      ListedIsGot(o, st, section, j);
    }
  }

  /** Main result: a substituted listing succeeds exactly when get succeeds on every listed key, and then
      lists the same keys, each with what get returns for it. */
  lemma ItemsAgreeWithGet(o: ParseOptions, st: Store, section: string)
    requires StoreOk(o, st) && HasSection(o, st, section)
    ensures RawItems(o, st, section).Ok?
    ensures var listed, r := RawItems(o, st, section).value, ItemsOf(o, st, section, false);
            && (r.Ok? <==> forall i :: 0 <= i < |listed| ==> Get(o, st, section, listed[i].key).Ok?)
            && (r.Ok? ==> |r.value| == |listed| && forall i :: 0 <= i < |listed| ==>
                  && r.value[i].key == listed[i].key
                  && (if listed[i].value.None? then r.value[i].value == None
                      else r.value[i].value.Some? && Get(o, st, section, listed[i].key) == Ok(r.value[i].value.value)))
  {
    hide StoreOk, RawItems, Interpolate, Get, HasSection, SubstituteAll, Substituted;
    ListingExists(o, st, section);
    var listed := RawItems(o, st, section).value;
    SubstituteEach(o, st, section, listed);
    forall i | 0 <= i < |listed|
      ensures Substituted(o, st, section, listed[i]).Ok? <==> Get(o, st, section, listed[i].key).Ok?
      ensures match Substituted(o, st, section, listed[i]) {
                case Ok(Some(v)) => listed[i].value.Some? && Get(o, st, section, listed[i].key) == Ok(v)
                case Ok(None) => listed[i].value.None?
                case Err(_) => true
              }
    {
      ListedIsGot(o, st, section, i);
      SubstitutedShape(o, st, section, listed[i]);
    }
  }

  lemma SubstitutedShape(o: ParseOptions, st: Store, section: string, e: Entry)
    ensures Substituted(o, st, section, e).Ok? ==>
              (Substituted(o, st, section, e).value.None? <==> e.value.None?)
  {
    hide Interpolate;
  }

  lemma ListingExists(o: ParseOptions, st: Store, section: string)
    requires HasSection(o, st, section)
    ensures RawItems(o, st, section).Ok?
  {
    hide WithFallbacks;
  }
}
