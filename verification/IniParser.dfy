/** The parser object as the program runs it: fields updated in place, an index over the
    section list, and the loops, each proved against the meaning of its operation. */
module IniParser {
  import opened Text
  import opened IniStore
  import opened IniParse
  import IniOps
  import IniNormal
  import IniPrint
  import IniViews
  import Interpolation
  import InterpolationEscape

  // ---------------------------------------------------------------- the index

  /** The index sends every section's name to its position, and nothing else anywhere. */
  predicate IndexAgrees(sections: seq<Section>, index: map<string, nat>) {
    && (forall i :: 0 <= i < |sections| ==> sections[i].name in index && index[sections[i].name] == i)
    && (forall n :: n in index ==> index[n] < |sections| && sections[index[n]].name == n)
  }

  /** An index agrees exactly when names are distinct and looking a name up in it is searching the list for it. */
  lemma IndexIsLinearSearch(sections: seq<Section>, index: map<string, nat>)
    ensures IndexAgrees(sections, index) <==>
            && DistinctNames(sections)
            && forall n :: (n in index <==> FindSection(sections, n) < |sections|)
                           && (n in index ==> index[n] == FindSection(sections, n))
  {
    if IndexAgrees(sections, index) {
      assert DistinctNames(sections);
      forall n
        ensures n in index <==> FindSection(sections, n) < |sections|
        ensures n in index ==> index[n] == FindSection(sections, n)
      {
        var i := FindSection(sections, n);
        if n in index && i < |sections| {
          assert sections[i].name == n;
        }
      }
    }
  }

  lemma IndexFinds(sections: seq<Section>, index: map<string, nat>, name: string)
    requires IndexAgrees(sections, index)
    ensures name in index <==> FindSection(sections, name) < |sections|
    ensures name in index ==> index[name] == FindSection(sections, name)
  {
    IndexIsLinearSearch(sections, index);
  }

  lemma IndexAppend(sections: seq<Section>, index: map<string, nat>, name: string)
    requires IndexAgrees(sections, index) && name !in index
    ensures IndexAgrees(sections + [Section(name, [])], index[name := |sections|])
  {}

  lemma IndexUpdate(sections: seq<Section>, index: map<string, nat>, i: nat, items: Items)
    requires IndexAgrees(sections, index) && i < |sections|
    ensures IndexAgrees(sections[i := sections[i].(items := items)], index)
  {}

  // ---------------------------------------------------------------- free helpers

  /** trim_copy. */
  method TrimCopy(sv: string) returns (r: string)
    ensures r == Trim(sv)
  {
    var start := 0;
    while start < |sv| && IsSpace(sv[start])
      invariant start <= |sv| && SkipSpace(sv, start) == SkipSpace(sv, 0)
    {
      start := start + 1;
    }
    var end := |sv|;
    while end > start && IsSpace(sv[end - 1])
      invariant start <= end <= |sv| && BackSpace(sv, start, end) == BackSpace(sv, start, |sv|)
    {
      end := end - 1;
    }
    r := sv[start..end];
  }

  lemma {:induction false} JoinSnoc(ls: seq<string>, l: string)
    ensures Join(ls + [l]) == if ls == [] then l else Join(ls) + "\n" + l
  {
    if ls == [] {
      assert ls + [l] == [l];
    } else {
      JoinAppend(ls, [l]);
    }
  }

  /** join_lines. */
  method JoinLinesOf(lines: seq<string>) returns (out: string)
    ensures out == JoinLines(lines)
  {
    out := "";
    for i := 0 to |lines|
      invariant out == Join(lines[..i])
    {
      JoinSnoc(lines[..i], lines[i]);
      assert lines[..i + 1] == lines[..i] + [lines[i]];
      if i != 0 {
        out := out + "\n";
      }
      out := out + lines[i];
    }
    assert lines[..|lines|] == lines;
    ghost var all := out;
    while out != "" && IsSpace(out[|out| - 1])
      invariant |out| <= |all| && out == all[..|out|]
      invariant BackSpace(all, 0, |out|) == BackSpace(all, 0, |all|)
      decreases |out|
    {
      out := out[..|out| - 1];
    }
  }

  /** The loops that look an option up by its key. */
  method FindEntry(items: Items, key: string) returns (i: nat)
    ensures i == FindKey(items, key)
  {
    i := 0;
    while i < |items| && items[i].key != key
      invariant i <= |items| && forall k :: 0 <= k < i ==> items[k].key != key
    {
      i := i + 1;
    }
  }

  lemma DelimiterSnoc(s: string, delims: seq<string>, i: nat)
    requires i < |delims|
    ensures var best, found := FirstDelimiter(s, delims[..i]), Find(s, delims[i], 0);
            FirstDelimiter(s, delims[..i + 1]) ==
            if found.Some? && (best.None? || found.value < best.value.pos) then Some(Hit(found.value, delims[i]))
                else best
  {
    hide Find, MatchAt;
    assert delims[..i + 1][..i] == delims[..i];
  }

  /** The delimiter scan of parse_line: the earliest position over all delimiters. */
  method ScanDelimiters(s: string, delims: seq<string>) returns (hit: Option<Hit>)
    ensures hit == FirstDelimiter(s, delims)
  {
    hide FirstDelimiter, Find;
    hit := None;
    assert FirstDelimiter(s, delims[..0]) == None by { NoDelimiters(s); }
    for i := 0 to |delims|
      invariant hit == FirstDelimiter(s, delims[..i])
    {
      var pos := Find(s, delims[i], 0);
      DelimiterSnoc(s, delims, i);
      if pos.Some? && (hit.None? || pos.value < hit.value.pos) {
        hit := Some(Hit(pos.value, delims[i]));
      }
    }
    assert delims[..|delims|] == delims;
  }

  lemma NoDelimiters(s: string)
    ensures FirstDelimiter(s, []) == None
  {}

  /** The inline-comment loop of strip_comment for one prefix. */
  method CutInlineAt(s: string, prefix: string) returns (r: string)
    requires prefix != ""
    ensures r == CutInline(s, prefix, 0)
  {
    hide *;
    var pos := Find(s, prefix, 0);
    InlineFrom(s, prefix, 0);
    while pos.Some?
      invariant pos.Some? ==> pos.value < |s| && MatchAt(s, prefix, pos.value)
      invariant CutInline(s, prefix, 0) == if pos.Some? then CutInline(s, prefix, pos.value) else s
      decreases if pos.Some? then |s| - pos.value else -1
    {
      var p := pos.value;
      CutStep(s, prefix, p);
      if p == 0 || IsSpace(s[p - 1]) {
        return s[..p];
      }
      pos := Find(s, prefix, p + 1);
      InlineFrom(s, prefix, p + 1);
    }
    r := s;
  }

  lemma CutStep(s: string, prefix: string, p: nat)
    requires prefix != "" && p < |s| && MatchAt(s, prefix, p)
    ensures CutInline(s, prefix, p) ==
            if p == 0 || IsSpace(s[p - 1]) then s[..p] else CutInline(s, prefix, p + 1)
  {}

  /** Nothing is cut before the next occurrence of the prefix. */
  lemma {:induction false} InlineFrom(s: string, prefix: string, from: nat)
    requires prefix != ""
    ensures var f := Find(s, prefix, from);
            CutInline(s, prefix, from) == if f.Some? then CutInline(s, prefix, f.value) else s
    ensures var f := Find(s, prefix, from); f.Some? ==> from <= f.value < |s| && MatchAt(s, prefix, f.value)
    decreases |s| - from
  {
    if from < |s| && !MatchAt(s, prefix, from) {
      InlineFrom(s, prefix, from + 1);
    }
  }

  // ---------------------------------------------------------------- lemmas the loops use

  /** getline from a position: the text up to the next newline, and where reading goes on. */
  lemma NextLine(text: string, pos: nat)
    requires pos < |text|
    ensures var k := NewlineAt(text[pos..]);
            var next := if pos + k < |text| then pos + k + 1 else |text|;
            Lines(text[pos..]) == [text[pos..pos + k]] + Lines(text[next..])
  {
    hide NewlineAt, Lines;
    var rest := text[pos..];
    var k := NewlineAt(rest);
    LinesUnfold(rest);
    SubSlice(text, pos, |text|, 0, k);
    assert rest[..k] == text[pos..pos + k];
    if pos + k < |text| {
      SubSlice(text, pos, |text|, k + 1, |rest|);
      assert rest[k + 1..] == text[pos + k + 1..];
    } else {
      NoLines();
      assert text[|text|..] == "";
    }
  }

  lemma NoMoreLines(o: ParseOptions, st: Store, c: Cursor, text: string, line: nat)
    requires text == ""
    ensures ParseLines(o, st, c, Lines(text), line) == Step(st, c, None)
  {}

  lemma ParseLinesStep(o: ParseOptions, st: Store, c: Cursor, first: string, rest: seq<string>, line: nat)
    ensures var s := ParseLine(o, st, c, first, StripComment(o, first), line);
            ParseLines(o, st, c, [first] + rest, line) ==
            if s.thrown.Some? then s else ParseLines(o, s.store, s.cursor, rest, line + 1)
  {
    hide ParseLine, StripComment;
    ConsTail(first, rest);
  }

  lemma {:induction false} WithoutSnoc(items: Items, e: Entry, key: string)
    ensures Without(items + [e], key) == if e.key == key then Without(items, key) else Without(items, key) + [e]
  {
    if items == [] {
      NilConcat([e]);
      ConsTail(e, []);
    } else {
      var tail := items[1..];
      HeadTail(items);
      Assoc([items[0]], tail, [e]);
      ConsTail(items[0], tail + [e]);
      WithoutSnoc(tail, e, key);
      Assoc([items[0]], Without(tail, key), [e]);
    }
  }

  /** The object: its options, the default entries, the section list, and the index over it. */
  class Parser {
    const options: ParseOptions
    var defaults: Items
    var sections: seq<Section>
    var sectionIndex: map<string, nat>

    ghost function Contents(): Store
      reads this
    {
      Store(defaults, sections)
    }

    /** The index agrees with the list, and the list keeps the store's own invariant. */
    ghost predicate Valid()
      reads this
    {
      IndexAgrees(sections, sectionIndex) && StoreOk(options, Contents())
    }

    constructor (o: ParseOptions)
      ensures options == o && Valid() && Contents() == EMPTY_STORE
    {
      options := o;
      defaults, sections, sectionIndex := [], [], map[];
    }

    method Clear()
      modifies this
      ensures Valid() && Contents() == EMPTY_STORE
    {
      defaults, sections, sectionIndex := [], [], map[];
    }

    /** push_back and insert of a section that is not indexed yet. */
    method PushSection(name: string)
      requires IndexAgrees(sections, sectionIndex) && name !in sectionIndex
      modifies this`sections, this`sectionIndex
      ensures IndexAgrees(sections, sectionIndex) && Contents() == AppendSection(old(Contents()), name)
    {
      IndexAppend(sections, sectionIndex, name);
      var idx := |sections|;
      sections := sections + [Section(name, [])];
      sectionIndex := sectionIndex[sections[idx].name := idx];
    }

    method AddSection(section: string) returns (thrown: Option<Error>)
      requires Valid()
      modifies this`sections, this`sectionIndex
      ensures Valid()
      ensures Outcome(Contents(), thrown) == IniOps.AddSection(options, old(Contents()), section)
    {
      IniOps.AddSectionOk(options, Contents(), section);
      IndexFinds(sections, sectionIndex, section);
      hide StoreOk, IndexAgrees;
      if section == options.defaultSection {
        return Some(Plain(DuplicateSection));
      }
      if section in sectionIndex {
        return Some(Plain(DuplicateSection));
      }
      PushSection(section);
      thrown := None;
    }

    method HasSection(section: string) returns (r: bool)
      requires Valid()
      ensures r == IniOps.HasSection(options, Contents(), section)
    {
      IndexFinds(sections, sectionIndex, section);
      r := section == options.defaultSection || section in sectionIndex;
    }

    /** Where a section's entries live: found through the index, meaning what a search would find. */
    method FindSectionItems(section: string) returns (slot: Slot)
      requires IndexAgrees(sections, sectionIndex)
      ensures slot == SlotOf(options, Contents(), section)
      ensures slot.Stored? ==> slot.index < |sections|
    {
      IndexFinds(sections, sectionIndex, section);
      if section == options.defaultSection {
        return Defaults;
      }
      if section !in sectionIndex {
        return Missing;
      }
      slot := Stored(sectionIndex[section]);
    }

    method ItemsIn(slot: Slot) returns (items: Items)
      requires ValidSlot(Contents(), slot)
      ensures items == ItemsAt(Contents(), slot)
    {
      items := if slot.Defaults? then defaults else sections[slot.index].items;
    }

    /** Write through the pointer find_section_items_mut returned. */
    method ReplaceItems(slot: Slot, items: Items)
      requires IndexAgrees(sections, sectionIndex) && ValidSlot(Contents(), slot)
      modifies this`defaults, this`sections
      ensures IndexAgrees(sections, sectionIndex) && Contents() == WithItems(old(Contents()), slot, items)
    {
      if slot.Defaults? {
        defaults := items;
      } else {
        IndexUpdate(sections, sectionIndex, slot.index, items);
        sections := sections[slot.index := sections[slot.index].(items := items)];
      }
    }

    method HasOption(section: string, option: string) returns (r: bool)
      requires Valid()
      ensures r == IniOps.HasOption(options, Contents(), section, option)
    {
      var slot := FindSectionItems(section);
      if slot.Missing? {
        return false;
      }
      var needle := ToLower(option);
      var items := ItemsIn(slot);
      var i := FindEntry(items, needle);
      if i < |items| {
        return true;
      }
      if section != options.defaultSection {
        i := FindEntry(defaults, needle);
        return i < |defaults|;
      }
      r := false;
    }

    method SectionList() returns (out: seq<string>)
      ensures out == SectionNames(sections)
    {
      out := [];
      for i := 0 to |sections|
        invariant |out| == i && forall k :: 0 <= k < i ==> out[k] == sections[k].name
      {
        out := out + [sections[i].name];
      }
    }

    method GetRaw(section: string, option: string) returns (r: Result<OptionValue, ErrorCode>)
      requires Valid()
      ensures r == IniOps.GetRaw(options, Contents(), section, option)
    {
      var slot := FindSectionItems(section);
      var key := ToLower(option);
      if !slot.Missing? {
        var items := ItemsIn(slot);
        var i := FindEntry(items, key);
        if i < |items| {
          return Ok(items[i].value);
        }
      }
      if section != options.defaultSection {
        var i := FindEntry(defaults, key);
        if i < |defaults| {
          return Ok(defaults[i].value);
        }
      }
      if slot.Missing? && section != options.defaultSection {
        return Err(NoSection);
      }
      r := Err(NoOption);
    }

    method StripComments(line: string) returns (r: string)
      ensures r == StripComment(options, line)
    {
      hide CutInline, FindKey, FindSection;
      var t := TrimCopy(line);
      if t == "" {
        NothingLeft(options, line);
        return t;
      }
      for i := 0 to |options.commentPrefixes|
        invariant !HasCommentPrefix(options.commentPrefixes[..i], t)
      {
        var prefix := options.commentPrefixes[i];
        if prefix != "" && StartsWith(t, prefix) {
          return "";
        }
        assert options.commentPrefixes[..i + 1] == options.commentPrefixes[..i] + [prefix];
      }
      assert options.commentPrefixes[..|options.commentPrefixes|] == options.commentPrefixes;
      var out := line;
      for i := 0 to |options.inlineCommentPrefixes|
        invariant CutAllInline(line, options.inlineCommentPrefixes) ==
                  CutAllInline(out, options.inlineCommentPrefixes[i..])
      {
        var prefix := options.inlineCommentPrefixes[i];
        assert options.inlineCommentPrefixes[i..][0] == prefix;
        assert options.inlineCommentPrefixes[i..][1..] == options.inlineCommentPrefixes[i + 1..];
        if prefix != "" {
          out := CutInlineAt(out, prefix);
        }
      }
      r := TrimCopy(out);
    }

    method FinishMultiline(section: string, option: string, accum: seq<string>) returns (thrown: Option<Error>)
      requires Valid()
      modifies this`defaults, this`sections
      ensures Valid()
      ensures Outcome(Contents(), thrown) == IniParse.FinishMultiline(options, old(Contents()), section, option, accum)
    {
      IniOps.FinishOk(options, Contents(), section, option, accum);
      hide StoreOk, IndexAgrees, JoinLines;
      if option == "" {
        return None;
      }
      var slot := FindSectionItems(section);
      if slot.Missing? {
        return Some(Plain(NoSection));
      }
      var items := ItemsIn(slot);
      var i := FindEntry(items, option);
      if i < |items| {
        var joined := JoinLinesOf(accum);
        ReplaceItems(slot, items[i := Entry(option, Some(joined))]);
      }
      thrown := None;
    }

    /** The header branch of parse_line. */
    method ReadHeader(name: string, line: nat) returns (thrown: Option<Error>)
      requires Valid() && name != ""
      modifies this`sections, this`sectionIndex
      ensures IndexAgrees(sections, sectionIndex)
      ensures Outcome(Contents(), thrown) == EnterSection(options, old(Contents()), name, line)
    {
      hide StoreOk;
      IndexFinds(sections, sectionIndex, name);
      if name != options.defaultSection && name !in sectionIndex {
        PushSection(name);
      } else if name != options.defaultSection && options.strict {
        return Some(Located(DuplicateSection, line));
      }
      thrown := None;
    }

    /** The option branch of parse_line, once the section is known. */
    method ReadOption(section: string, key: string, value: OptionValue, line: nat) returns (thrown: Option<Error>)
      requires IndexAgrees(sections, sectionIndex)
      modifies this`defaults, this`sections
      ensures IndexAgrees(sections, sectionIndex)
      ensures Outcome(Contents(), thrown) == PutOption(options, old(Contents()), section, key, value, line)
    {
      hide IndexAgrees;
      var slot := FindSectionItems(section);
      if slot.Missing? {
        return Some(Plain(NoSection));
      }
      var items := ItemsIn(slot);
      var i := FindEntry(items, key);
      if i < |items| {
        if options.strict {
          return Some(Located(DuplicateOption, line));
        }
        ReplaceItems(slot, items[i := Entry(key, value)]);
      } else {
        ReplaceItems(slot, items + [Entry(key, value)]);
      }
      thrown := None;
    }

    /** The option line before any header: an error, or the unnamed section. */
    method EnterUnnamed(section: string, line: nat) returns (section': string, thrown: Option<Error>)
      requires Valid()
      modifies this`sections, this`sectionIndex
      ensures IndexAgrees(sections, sectionIndex)
      ensures Outcome(Contents(), thrown) == EnsureSection(options, old(Contents()), section, line)
      ensures section' == if thrown.None? then ImplicitSection(options, section) else section
    {
      hide StoreOk;
      section' := section;
      thrown := None;
      if section' == "" {
        if !options.allowUnnamedSection {
          return section', Some(Located(MissingSectionHeader, line));
        }
        section' := UNNAMED_SECTION;
        IndexFinds(sections, sectionIndex, UNNAMED_SECTION);
        if UNNAMED_SECTION !in sectionIndex {
          PushSection(UNNAMED_SECTION);
        }
      }
    }

    /** Key and value of a line that is no header; an empty key where the line is in error. */
    method ReadPair(cleaned: string) returns (key: string, value: OptionValue)
      requires cleaned != "" && !(cleaned[0] == '[' && cleaned[|cleaned| - 1] == ']')
      ensures Classify(options, cleaned) ==
              if key == "" then Junk else if value.Some? then Assign(key, value.value) else Bare(key)
    {
      hide FirstDelimiter, Trim;
      var hit := ScanDelimiters(cleaned, options.delimiters);
      value := None;
      if hit.None? {
        if !options.allowNoValue {
          return "", None;
        }
        key := TrimCopy(cleaned);
      } else {
        key := TrimCopy(cleaned[..hit.value.pos]);
        var right := TrimCopy(cleaned[hit.value.pos + |hit.value.delim|..]);
        value := Some(right);
      }
    }

    /** The part of parse_line after the pending value has been flushed. */
    method ReadLogicalLine(original: string, cleaned: string, line: nat, c: Cursor)
      returns (c': Cursor, thrown: Option<Error>)
      requires Valid() && cleaned != ""
      modifies this`defaults, this`sections, this`sectionIndex
      ensures Valid()
      ensures Step(Contents(), c', thrown) ==
              LogicalLine(options, old(Contents()), c, original, Classify(options, cleaned), line)
    {
      hide StoreOk, FirstDelimiter, FindKey, Trim, PutOption, EnterSection, EnsureSection, IndexAgrees,
        ImplicitSection, ToLower;
      IniOps.LogicalLineOk(options, Contents(), c, original, Classify(options, cleaned), line);
      c' := c;
      if cleaned[0] == '[' && cleaned[|cleaned| - 1] == ']' {
        c' := c'.(section := cleaned[1..|cleaned| - 1], option := "");
        if c'.section == "" {
          c' := c'.(errors := c'.errors + [LineError(line, original)]);
          return c', None;
        }
        thrown := ReadHeader(c'.section, line);
        return;
      }
      var section;
      section, thrown := EnterUnnamed(c'.section, line);
      if thrown.Some? {
        return;
      }
      c' := c'.(section := section);
      var key, value := ReadPair(cleaned);
      if key == "" {
        c' := c'.(errors := c'.errors + [LineError(line, original)]);
        return c', None;
      }
      key := ToLower(key);
      thrown := ReadOption(c'.section, key, value, line);
      if thrown.None? {
        c' := c'.(option := key, accum := if value.Some? then [value.value] else [], inMultiline := value.Some?);
      }
    }

    method ParseLine(original: string, cleaned: string, line: nat, c: Cursor)
      returns (c': Cursor, thrown: Option<Error>)
      requires Valid()
      modifies this`defaults, this`sections, this`sectionIndex
      ensures Valid()
      ensures Step(Contents(), c', thrown) == IniParse.ParseLine(options, old(Contents()), c, original, cleaned, line)
    {
      hide StoreOk, IndexAgrees, LogicalLine, Classify, IniParse.FinishMultiline;
      c' := c;
      var indented := original != "" && IsSpace(original[0]);
      if cleaned == "" {
        if c'.inMultiline && options.emptyLinesInValues {
          c' := c'.(accum := c'.accum + [""]);
        } else {
          c' := c'.(inMultiline := false);
        }
        return c', None;
      }
      if c'.inMultiline && indented && c'.option != "" {
        c' := c'.(accum := c'.accum + [cleaned]);
        return c', None;
      }
      if c'.inMultiline && c'.option != "" {
        thrown := FinishMultiline(c'.section, c'.option, c'.accum);
        if thrown.Some? {
          return;
        }
        c' := c'.(accum := [], inMultiline := false);
      }
      c', thrown := ReadLogicalLine(original, cleaned, line, c');
    }

    /** read_string: the getline loop, the flush at the end and the combined error. */
    method ReadString(text: string) returns (thrown: Option<Error>)
      requires Valid()
      modifies this`defaults, this`sections, this`sectionIndex
      ensures Valid()
      ensures Outcome(Contents(), thrown) == IniParse.ReadString(options, old(Contents()), text)
    {
      hide StoreOk, IndexAgrees, IniParse.ParseLine, StripComment, IniParse.FinishMultiline, Lines, ParseLines;
      var c := START;
      var pos, lineNo := 0, 0;
      assert text[0..] == text;
      while pos < |text|
        invariant pos <= |text| && Valid()
        invariant ParseLines(options, old(Contents()), START, Lines(text), 1) ==
                  ParseLines(options, Contents(), c, Lines(text[pos..]), lineNo + 1)
      {
        NextLine(text, pos);
        var k := NewlineAt(text[pos..]);
        var line := text[pos..pos + k];
        pos := if pos + k < |text| then pos + k + 1 else |text|;
        lineNo := lineNo + 1;
        ParseLinesStep(options, Contents(), c, line, Lines(text[pos..]), lineNo);
        var cleaned := StripComments(line);
        c, thrown := ParseLine(line, cleaned, lineNo, c);
        if thrown.Some? {
          return;
        }
      }
      NoMoreLines(options, Contents(), c, text[pos..], lineNo + 1);
      thrown := None;
      if c.inMultiline && c.option != "" {
        thrown := FinishMultiline(c.section, c.option, c.accum);
      }
      if thrown.None? && c.errors != [] {
        thrown := Some(Combined(c.errors));
      }
    }

    // ---------------------------------------------------------------- listings

    method OptionList(section: string) returns (r: Result<seq<string>, ErrorCode>)
      requires Valid()
      ensures r == IniOps.Options(options, Contents(), section)
    {
      hide StoreOk, IndexAgrees, FindKey;
      var slot := FindSectionItems(section);
      if slot.Missing? {
        return Err(NoSection);
      }
      var items := ItemsIn(slot);
      var out := [];
      for i := 0 to |items|
        invariant out == IniOps.Keys(items[..i])
      {
        KeysSnoc(items[..i], items[i]);
        assert items[..i + 1] == items[..i] + [items[i]];
        out := out + [items[i].key];
      }
      assert items[..|items|] == items;
      if section != options.defaultSection {
        ghost var listed := items;
        for i := 0 to |defaults|
          invariant out == IniOps.Keys(listed)
          invariant IniOps.WithFallbacks(items, defaults) == IniOps.WithFallbacks(listed, defaults[i..])
        {
          FallbackStep(listed, defaults, i);
          IniViews.KeysListed(listed, defaults[i].key);
          if defaults[i].key !in out {
            KeysSnoc(listed, defaults[i]);
            out := out + [defaults[i].key];
            listed := listed + [defaults[i]];
          }
        }
      }
      r := Ok(out);
    }

    method ItemList(section: string, raw: bool) returns (r: Result<Items, ErrorCode>)
      requires Valid()
      ensures r == Interpolation.ItemsOf(options, Contents(), section, raw)
    {
      hide StoreOk, IndexAgrees, FindKey, Interpolation.Interpolate, Interpolation.SubstituteAll;
      var slot := FindSectionItems(section);
      if slot.Missing? {
        return Err(NoSection);
      }
      var out := ItemsIn(slot);
      if section != options.defaultSection {
        ghost var own := out;
        for i := 0 to |defaults|
          invariant IniOps.WithFallbacks(own, defaults) == IniOps.WithFallbacks(out, defaults[i..])
        {
          FallbackStep(out, defaults, i);
          var at := FindEntry(out, defaults[i].key);
          if at == |out| {
            out := out + [defaults[i]];
          }
        }
      }
      assert IniOps.RawItems(options, Contents(), section) == Ok(out);
      if !raw {
        ghost var listed := out;
        for i := 0 to |out|
          invariant |out| == |listed| && out[i..] == listed[i..]
          invariant forall j :: 0 <= j < i ==>
            out[j].key == listed[j].key
            && InterpolationEscape.Substituted(options, Contents(), section, listed[j]) == Ok(out[j].value)
        {
          var e := out[i];
          assert out[i..][0] == listed[i..][0];
          if e.value.Some? {
            var v := Interpolate(section, e.key, e.value.value, 1);
            if v.Err? {
              FirstFailure(options, Contents(), section, listed, i);
              return Err(v.error);
            }
            ghost var before := out;
            out := out[i := Entry(e.key, Some(v.value))];
            assert out[i + 1..] == before[i..][1..];
          } else {
            assert out[i + 1..] == out[i..][1..];
          }
          assert listed[i + 1..] == listed[i..][1..];
        }
        AllSubstituted(options, Contents(), section, listed, out);
      }
      r := Ok(out);
    }

    // ---------------------------------------------------------------- substitution

    method Get(section: string, option: string) returns (r: Result<string, ErrorCode>)
      requires Valid()
      ensures r == Interpolation.Get(options, Contents(), section, option)
    {
      hide StoreOk, IndexAgrees, Interpolation.Interpolate, IniOps.GetRaw;
      var raw := GetRaw(section, option);
      if raw.Err? {
        return Err(raw.error);
      }
      if raw.value.None? {
        return Ok("");
      }
      r := Interpolate(section, option, raw.value.value, 1);
    }

    method Interpolate(section: string, option: string, value: string, depth: int)
      returns (r: Result<string, ErrorCode>)
      requires Valid()
      ensures r == Interpolation.Interpolate(options, Contents(), section, value, Interpolation.Fuel(options, depth))
      decreases Interpolation.Fuel(options, depth), 1
    {
      hide StoreOk, IndexAgrees, Interpolation.Expand;
      if options.interpolation == NoInterpolation {
        return Ok(value);
      }
      if depth > options.maxInterpolationDepth {
        return Err(InterpolationDepth);
      }
      if options.interpolation == Basic {
        r := InterpolateBasic(section, value, depth);
      } else {
        r := InterpolateExtended(section, value, depth);
      }
    }

    method InterpolateBasic(section: string, value: string, depth: int) returns (r: Result<string, ErrorCode>)
      requires Valid() && options.interpolation == Basic && depth <= options.maxInterpolationDepth
      ensures r == Interpolation.Expand(options, Contents(), section, value, Interpolation.Fuel(options, depth))
      decreases Interpolation.Fuel(options, depth), 0
    {
      hide *;
      ghost var st, fuel := Contents(), Interpolation.Fuel(options, depth);
      FuelStep(options, depth);
      var out, i := "", 0;
      ExpandStart(options, st, section, value, fuel);
      while i < |value|
        invariant i <= |value|
        invariant Interpolation.Expand(options, st, section, value, fuel) ==
                  Interpolation.Prepend(out, Interpolation.Expand(options, st, section, value[i..], fuel))
      {
        BasicAt(options, section, value, i);
        ExpandAt(options, st, section, value, i, fuel, out);
        if value[i] != '%' {
          out := out + [value[i]];
          i := i + 1;
          continue;
        }
        if i + 1 >= |value| {
          return Err(InterpolationSyntax);
        }
        if value[i + 1] == '%' {
          out := out + ['%'];
          i := i + 2;
          continue;
        }
        if value[i + 1] != '(' {
          return Err(InterpolationSyntax);
        }
        var close := Find(value, ")s", i + 2);
        if close.None? {
          return Err(InterpolationSyntax);
        }
        var key := ToLower(value[i + 2..close.value]);
        var replacement := GetRaw(section, key);
        if replacement.Err? {
          return Err(replacement.error);
        }
        if replacement.value.None? {
          i := close.value + 2;
          continue;
        }
        var inner := Interpolate(section, key, replacement.value.value, depth + 1);
        if inner.Err? {
          return inner;
        }
        out := out + inner.value;
        i := close.value + 2;
      }
      ExpandEnd(options, st, section, value[i..], fuel, out);
      r := Ok(out);
    }

    method InterpolateExtended(section: string, value: string, depth: int) returns (r: Result<string, ErrorCode>)
      requires Valid() && options.interpolation == Extended && depth <= options.maxInterpolationDepth
      ensures r == Interpolation.Expand(options, Contents(), section, value, Interpolation.Fuel(options, depth))
      decreases Interpolation.Fuel(options, depth), 0
    {
      hide *;
      ghost var st, fuel := Contents(), Interpolation.Fuel(options, depth);
      FuelStep(options, depth);
      var out, i := "", 0;
      ExpandStart(options, st, section, value, fuel);
      while i < |value|
        invariant i <= |value|
        invariant Interpolation.Expand(options, st, section, value, fuel) ==
                  Interpolation.Prepend(out, Interpolation.Expand(options, st, section, value[i..], fuel))
      {
        ExtendedAt(options, section, value, i);
        ExpandAt(options, st, section, value, i, fuel, out);
        if value[i] != '$' {
          out := out + [value[i]];
          i := i + 1;
          continue;
        }
        if i + 1 >= |value| {
          return Err(InterpolationSyntax);
        }
        if value[i + 1] == '$' {
          out := out + ['$'];
          i := i + 2;
          continue;
        }
        if value[i + 1] != '{' {
          return Err(InterpolationSyntax);
        }
        var close := Find(value, "}", i + 2);
        if close.None? {
          return Err(InterpolationSyntax);
        }
        var token := value[i + 2..close.value];
        var refSection, refOption := section, ToLower(token);
        var colon := Find(token, ":", 0);
        if colon.Some? {
          FoundInside(token, ":", 0);
          refSection, refOption := token[..colon.value], ToLower(token[colon.value + 1..]);
        }
        var replacement := GetRaw(refSection, refOption);
        if replacement.Err? {
          return Err(replacement.error);
        }
        if replacement.value.None? {
          i := close.value + 1;
          continue;
        }
        var inner := Interpolate(refSection, refOption, replacement.value.value, depth + 1);
        if inner.Err? {
          return inner;
        }
        out := out + inner.value;
        i := close.value + 1;
      }
      ExpandEnd(options, st, section, value[i..], fuel, out);
      r := Ok(out);
    }

    // ---------------------------------------------------------------- updates

    method Set(section: string, option: string, value: OptionValue) returns (thrown: Option<Error>)
      requires Valid()
      modifies this`defaults, this`sections
      ensures Valid()
      ensures Outcome(Contents(), thrown) == IniOps.SetOption(options, old(Contents()), section, option, value)
    {
      IniOps.SetOptionOk(options, Contents(), section, option, value);
      hide StoreOk, IndexAgrees, ToLower;
      var name := section;
      if name == "" {
        name := options.defaultSection;
      }
      var slot := FindSectionItems(name);
      if slot.Missing? {
        return Some(Plain(NoSection));
      }
      var key := ToLower(option);
      var items := ItemsIn(slot);
      var i := FindEntry(items, key);
      if i == |items| {
        ReplaceItems(slot, items + [Entry(key, value)]);
      } else {
        ReplaceItems(slot, items[i := Entry(key, value)]);
      }
      thrown := None;
    }

    /** remove_option; `removed` tells whether anything was erased. */
    method RemoveOption(section: string, option: string) returns (removed: bool, thrown: Option<Error>)
      requires Valid()
      modifies this`defaults, this`sections
      ensures Valid()
      ensures Outcome(Contents(), thrown) == IniOps.RemoveOption(options, old(Contents()), section, option)
      ensures removed <==> Contents() != old(Contents())
    {
      IniOps.RemoveOptionOk(options, Contents(), section, option);
      hide StoreOk, IndexAgrees, ToLower, FindKey, Without;
      var slot;
      if section == "" || section == options.defaultSection {
        slot := Defaults;
      } else {
        slot := FindSectionItems(section);
      }
      if slot.Missing? {
        return false, Some(Plain(NoSection));
      }
      var key := ToLower(option);
      var items := ItemsIn(slot);
      var kept := EraseKey(items, key);
      KeptSame(items, key);
      ReplacedDiffers(Contents(), slot, kept);
      ReplaceItems(slot, kept);
      removed := |kept| != |items|;
      thrown := None;
    }

    /** remove_section: erase, then rebuild the whole index. */
    method RemoveSection(section: string) returns (removed: bool)
      requires Valid()
      modifies this`sections, this`sectionIndex
      ensures Valid()
      ensures Contents() == IniOps.RemoveSection(old(Contents()), section)
      ensures removed <==> HasStored(old(Contents()), section)
    {
      IniOps.RemoveSectionOk(options, Contents(), section);
      IndexFinds(sections, sectionIndex, section);
      hide StoreOk, FindSection, IndexAgrees;
      if section !in sectionIndex {
        return false;
      }
      var idx := sectionIndex[section];
      sections := sections[..idx] + sections[idx + 1..];
      NamesDistinct(options, Contents());
      sectionIndex := BuildIndex(sections);
      removed := true;
    }

    // ---------------------------------------------------------------- printing

    /** One option line of write_to_string. */
    method WriteEntry(e: Entry, spaced: bool, fold: bool) returns (r: Result<string, ErrorCode>)
      requires options.delimiters != []
      ensures r == if IniPrint.PrintsBare(options, e) || IniPrint.WritableKey(options, e.key)
                   then Ok(IniPrint.EntryText(options, e, spaced, fold)) else Err(InvalidWrite)
    {
      hide IniPrint.Fold;
      var delim := if spaced then " " + options.delimiters[0] + " " else options.delimiters[0];
      if e.value.Some? || !options.allowNoValue {
        var v := if e.value.Some? then e.value.value else "";
        if e.key != "" && e.key[0] == '[' {
          return Err(InvalidWrite);
        }
        for i := 0 to |options.delimiters|
          invariant forall k :: 0 <= k < i ==> Find(e.key, options.delimiters[k], 0).None?
        {
          if Find(e.key, options.delimiters[i], 0).Some? {
            return Err(InvalidWrite);
          }
        }
        if fold {
          v := FoldNewlines(v);
        }
        r := Ok(e.key + delim + v + "\n");
      } else {
        r := Ok(e.key + "\n");
      }
    }

    method WriteBody(items: Items, spaced: bool, fold: bool) returns (r: Result<string, ErrorCode>)
      requires options.delimiters != []
      ensures r == if IniPrint.Writable(options, items)
                   then Ok(IniPrint.BodyText(options, items, spaced, fold)) else Err(InvalidWrite)
    {
      hide IniPrint.EntryText, IniPrint.WritableKey, IniPrint.PrintsBare;
      var text := "";
      for i := 0 to |items|
        invariant IniPrint.Writable(options, items[..i])
        invariant text == IniPrint.BodyText(options, items[..i], spaced, fold)
      {
        assert items[..i + 1] == items[..i] + [items[i]];
        BodySnoc(options, items[..i], items[i], spaced, fold);
        var line := WriteEntry(items[i], spaced, fold);
        if line.Err? {
          return Err(InvalidWrite);
        }
        text := text + line.value;
      }
      assert items[..|items|] == items;
      r := Ok(text);
    }

    method WriteSection(s: Section, spaced: bool) returns (r: Result<string, ErrorCode>)
      requires options.delimiters != []
      ensures r == if IniPrint.Writable(options, s.items) then Ok(SectionText(options, s, spaced))
              else Err(InvalidWrite)
    {
      hide IniPrint.Writable, IniPrint.BodyText;
      var oss := "";
      if s.name != UNNAMED_SECTION {
        oss := "[" + s.name + "]\n";
      }
      var body := WriteBody(s.items, spaced, true);
      if body.Err? {
        return Err(InvalidWrite);
      }
      oss := oss + body.value + "\n";
      r := Ok(oss);
    }

    method WriteDefaults(spaced: bool) returns (r: Result<string, ErrorCode>)
      requires options.delimiters != []
      ensures r == if IniPrint.Writable(options, defaults)
                   then Ok(IniPrint.DefaultsText(options, defaults, spaced)) else Err(InvalidWrite)
    {
      hide IniPrint.Writable, IniPrint.BodyText;
      if defaults == [] {
        NothingWritable(options);
        return Ok("");
      }
      var body := WriteBody(defaults, spaced, false);
      if body.Err? {
        return Err(InvalidWrite);
      }
      r := Ok("[" + options.defaultSection + "]\n" + body.value + "\n");
    }

    method WriteToString(spaced: bool) returns (r: Result<string, ErrorCode>)
      requires options.delimiters != []
      ensures r == IniPrint.Write(options, Contents(), spaced)
    {
      hide IniPrint.Writable, IniPrint.SectionsText, IniPrint.DefaultsText, SectionText;
      var front := WriteDefaults(spaced);
      if front.Err? {
        return front;
      }
      var oss := front.value;
      SectionsNone(options, spaced, oss);
      for i := 0 to |sections|
        invariant IniPrint.AllWritable(options, sections[..i])
        invariant oss == front.value + IniPrint.SectionsText(options, sections[..i], spaced)
      {
        SectionsSnoc(options, sections[..i], sections[i], spaced);
        SnocSlice(sections, i);
        var section := WriteSection(sections[i], spaced);
        if section.Err? {
          return section;
        }
        Assoc(front.value, IniPrint.SectionsText(options, sections[..i], spaced), section.value);
        oss := oss + section.value;
      }
      TakeAll(sections);
      r := Ok(oss);
    }
  }

  lemma SectionsNone(o: ParseOptions, spaced: bool, front: string)
    requires o.delimiters != []
    ensures front == front + IniPrint.SectionsText(o, [], spaced)
  {}

  lemma SnocSlice<T>(s: seq<T>, i: nat)
    requires i < |s|
    ensures s[..i + 1] == s[..i] + [s[i]]
  {}

  /** remove_if on one section's entries. */
  method EraseKey(items: Items, key: string) returns (kept: Items)
    ensures kept == Without(items, key)
  {
    hide FindKey, Without;
    kept := [];
    WithoutNone(key);
    for i := 0 to |items|
      invariant kept == Without(items[..i], key)
    {
      WithoutSnoc(items[..i], items[i], key);
      SnocSlice(items, i);
      if items[i].key != key {
        kept := kept + [items[i]];
      }
    }
    TakeAll(items);
  }

  lemma WithoutNone(key: string)
    ensures Without([], key) == []
  {}

  /** The loop of remove_section that inserts every name again. */
  method BuildIndex(sections: seq<Section>) returns (index: map<string, nat>)
    requires DistinctNames(sections)
    ensures IndexAgrees(sections, index)
  {
    index := map[];
    for i := 0 to |sections|
      invariant IndexAgrees(sections[..i], index)
    {
      IndexRebuild(sections, i, index);
      if sections[i].name !in index {
        index := index[sections[i].name := i];
      }
    }
    TakeAll(sections);
  }

  // ---------------------------------------------------------------- lemmas for listings

  lemma KeysSnoc(items: Items, e: Entry)
    ensures IniOps.Keys(items + [e]) == IniOps.Keys(items) + [e.key]
  {}

  lemma FallbackStep(out: Items, defaults: Items, i: nat)
    requires i < |defaults|
    ensures IniOps.WithFallbacks(out, defaults[i..]) ==
            IniOps.WithFallbacks(if HasKey(out, defaults[i].key) then out else out + [defaults[i]], defaults[i + 1..])
  {
    hide FindKey;
    assert defaults[i..][1..] == defaults[i + 1..];
  }

  lemma {:induction false} FirstFailure(o: ParseOptions, st: Store, section: string, items: Items, i: nat)
    requires i < |items|
    requires forall j :: 0 <= j < i ==> InterpolationEscape.Substituted(o, st, section, items[j]).Ok?
    requires InterpolationEscape.Substituted(o, st, section, items[i]).Err?
    ensures Interpolation.SubstituteAll(o, st, section, items) ==
            Err(InterpolationEscape.Substituted(o, st, section, items[i]).error)
  {
    hide Interpolation.Interpolate;
    if i > 0 {
      var tail := items[1..];
      assert forall j :: 0 <= j < i ==> tail[j] == items[j + 1];
      FirstFailure(o, st, section, tail, i - 1);
      assert InterpolationEscape.Substituted(o, st, section, items[0]).Ok?;
    }
  }

  lemma AllSubstituted(o: ParseOptions, st: Store, section: string, items: Items, out: Items)
    requires |out| == |items|
    requires forall j :: 0 <= j < |items| ==>
               out[j].key == items[j].key
               && InterpolationEscape.Substituted(o, st, section, items[j]) == Ok(out[j].value)
    ensures Interpolation.SubstituteAll(o, st, section, items) == Ok(out)
  {
    hide Interpolation.SubstituteAll, InterpolationEscape.Substituted;
    InterpolationEscape.SubstituteEach(o, st, section, items);
    forall i | 0 <= i < |items|
      ensures InterpolationEscape.Substituted(o, st, section, items[i]).Ok?
    {
      assert out[i].key == items[i].key;
    }
    var r := Interpolation.SubstituteAll(o, st, section, items).value;
    forall j | 0 <= j < |items|
      ensures r[j] == out[j]
    {
      assert r[j] == Entry(r[j].key, r[j].value) && out[j] == Entry(out[j].key, out[j].value);
    }
    assert r == out;
  }

  // ---------------------------------------------------------------- lemmas for substitution

  lemma FuelStep(o: ParseOptions, depth: int)
    requires depth <= o.maxInterpolationDepth
    ensures Interpolation.Fuel(o, depth) > 0
    ensures Interpolation.Fuel(o, depth + 1) == Interpolation.Fuel(o, depth) - 1
  {}

  lemma ExpandStart(o: ParseOptions, st: Store, section: string, value: string, fuel: nat)
    requires fuel > 0
    ensures Interpolation.Expand(o, st, section, value, fuel) ==
            Interpolation.Prepend("", Interpolation.Expand(o, st, section, value[0..], fuel))
  {
    hide Interpolation.Expand;
    assert value[0..] == value;
    var r := Interpolation.Expand(o, st, section, value, fuel);
    if r.Ok? {
      NilConcat(r.value);
    }
  }

  lemma ExpandEnd(o: ParseOptions, st: Store, section: string, rest: string, fuel: nat, out: string)
    requires fuel > 0 && rest == ""
    ensures Interpolation.Prepend(out, Interpolation.Expand(o, st, section, rest, fuel)) == Ok(out)
  {
    NilConcat(out);
  }

  lemma PrependTwice(a: string, b: string, r: Result<string, ErrorCode>)
    ensures Interpolation.Prepend(a, Interpolation.Prepend(b, r)) == Interpolation.Prepend(a + b, r)
  {
    if r.Ok? {
      Assoc(a, b, r.value);
    }
  }

  /** What the characters already written and one more token come to. */
  lemma ExpandAt(o: ParseOptions, st: Store, section: string, value: string, i: nat, fuel: nat, out: string)
    requires fuel > 0 && i < |value|
    ensures var t := Interpolation.NextToken(o, section, value[i..]);
            var whole := Interpolation.Prepend(out, Interpolation.Expand(o, st, section, value[i..], fuel));
            && (t.Bad? ==> whole == Err(InterpolationSyntax))
            && (!t.Bad? ==> i + t.next <= |value|)
            && (t.Verbatim? ==>
                  whole == Interpolation.Prepend(out + [t.c],
                      Interpolation.Expand(o, st, section, value[i + t.next..], fuel)))
            && (t.Reference? ==>
                  var raw := IniOps.GetRaw(o, st, t.section, t.option);
                  && (raw.Err? ==> whole == Err(raw.error))
                  && (raw.Ok? && raw.value.None? ==>
                        whole == Interpolation.Prepend(out,
                            Interpolation.Expand(o, st, section, value[i + t.next..], fuel)))
                  && (raw.Ok? && raw.value.Some? ==>
                        var inner := Interpolation.Interpolate(o, st, t.section, raw.value.value, fuel - 1);
                        && (inner.Err? ==> whole == inner)
                        && (inner.Ok? ==>
                              whole == Interpolation.Prepend(out + inner.value,
                                                             Interpolation.Expand(o, st, section, value[i + t.next..],
                                                                 fuel)))))
  {
    hide Interpolation.NextToken, Interpolation.Interpolate, IniOps.GetRaw;
    var t := Interpolation.NextToken(o, section, value[i..]);
    if !t.Bad? {
      assert value[i..][t.next..] == value[i + t.next..];
      var rest := Interpolation.Expand(o, st, section, value[i + t.next..], fuel);
      if t.Verbatim? {
        PrependTwice(out, [t.c], rest);
      } else {
        var raw := IniOps.GetRaw(o, st, t.section, t.option);
        if raw.Ok? && raw.value.Some? {
          var inner := Interpolation.Interpolate(o, st, t.section, raw.value.value, fuel - 1);
          if inner.Ok? {
            PrependTwice(out, inner.value, rest);
          }
        }
      }
    }
  }

  lemma FoundInside(s: string, pat: string, from: nat)
    ensures var f := Find(s, pat, from); f.Some? ==> f.value + |pat| <= |s|
  {
    hide Find;
  }

  /** Searching a suffix is searching the whole from there. */
  lemma {:induction false} FindShift(s: string, pat: string, i: nat, from: nat)
    requires i <= |s|
    ensures var f := Find(s, pat, i + from);
            Find(s[i..], pat, from) == if f.None? then None else Some(f.value - i)
    decreases |s| - i - from
  {
    if i + from <= |s| {
      if i + from + |pat| <= |s| {
        assert s[i..][from..from + |pat|] == s[i + from..i + from + |pat|];
      }
      assert MatchAt(s[i..], pat, from) == MatchAt(s, pat, i + from);
      FindShift(s, pat, i, from + 1);
    }
  }

  lemma BasicAt(o: ParseOptions, section: string, value: string, i: nat)
    requires o.interpolation == Basic && i < |value|
    ensures Interpolation.NextToken(o, section, value[i..]) ==
            if value[i] != '%' then Interpolation.Verbatim(value[i], 1)
            else if i + 1 >= |value| then Interpolation.Bad
            else if value[i + 1] == '%' then Interpolation.Verbatim('%', 2)
            else if value[i + 1] != '(' then Interpolation.Bad
            else
              var close := Find(value, ")s", i + 2);
              if close.None? then Interpolation.Bad
              else Interpolation.Reference(section, ToLower(value[i + 2..close.value]), close.value + 2 - i)
  {
    hide Find, ToLower;
    FindShift(value, ")s", i, 2);
    var close := Find(value, ")s", i + 2);
    if close.Some? {
      assert value[i..][2..close.value - i] == value[i + 2..close.value];
    }
  }

  lemma ExtendedAt(o: ParseOptions, section: string, value: string, i: nat)
    requires o.interpolation == Extended && i < |value|
    ensures Interpolation.NextToken(o, section, value[i..]) ==
            if value[i] != '$' then Interpolation.Verbatim(value[i], 1)
            else if i + 1 >= |value| then Interpolation.Bad
            else if value[i + 1] == '$' then Interpolation.Verbatim('$', 2)
            else if value[i + 1] != '{' then Interpolation.Bad
            else
              var close := Find(value, "}", i + 2);
              if close.None? then Interpolation.Bad
              else
                var token := value[i + 2..close.value];
                var colon := Find(token, ":", 0);
                if colon.None? then Interpolation.Reference(section, ToLower(token), close.value + 1 - i)
                else Interpolation.Reference(token[..colon.value], ToLower(token[colon.value + 1..]),
                    close.value + 1 - i)
  {
    hide Find, ToLower;
    FindShift(value, "}", i, 2);
    var close := Find(value, "}", i + 2);
    if close.Some? {
      assert value[i..][2..close.value - i] == value[i + 2..close.value];
    }
  }

  // ---------------------------------------------------------------- lemmas for updates

  lemma {:induction false} KeptSame(items: Items, key: string)
    ensures |Without(items, key)| == |items| <==> Without(items, key) == items
  {
    hide FindKey;
    if items != [] {
      KeptSame(items[1..], key);
    }
  }

  lemma ReplacedDiffers(st: Store, slot: Slot, items: Items)
    requires ValidSlot(st, slot)
    ensures WithItems(st, slot, items) == st <==> items == ItemsAt(st, slot)
  {
    if slot.Stored? {
      assert WithItems(st, slot, items).sections[slot.index].items == items;
      if items == st.sections[slot.index].items {
        WithItemsSame(st, slot);
      }
    }
  }

  lemma NamesDistinct(o: ParseOptions, st: Store)
    requires StoreOk(o, st)
    ensures DistinctNames(st.sections)
  {}

  lemma IndexRebuild(sections: seq<Section>, i: nat, index: map<string, nat>)
    requires i < |sections| && DistinctNames(sections) && IndexAgrees(sections[..i], index)
    ensures sections[i].name !in index
    ensures IndexAgrees(sections[..i + 1], index[sections[i].name := i])
  {}

  // ---------------------------------------------------------------- lemmas for printing

  /** The fold loop of write_to_string. */
  method FoldNewlines(v: string) returns (folded: string)
    ensures folded == IniPrint.Fold(v)
  {
    hide IniPrint.Fold, Find;
    folded := v;
    var p := 0;
    ghost var k := 0;
    FoldStart(v);
    var at := Find(folded, "\n", p);
    while at.Some?
      invariant k <= |v| && p == |IniPrint.Fold(v[..k])| && folded == IniPrint.Fold(v[..k]) + v[k..]
      invariant at == Find(folded, "\n", p)
      decreases |v| - k
    {
      ghost var k' := FoldNext(v, k, at.value);
      folded := folded[..at.value] + "\n\t" + folded[at.value + 1..];
      p := at.value + 2;
      k := k';
      at := Find(folded, "\n", p);
    }
    FoldRest(v, k);
  }

  lemma FoldStart(v: string)
    ensures IniPrint.Fold(v[..0]) == "" && IniPrint.Fold(v[..0]) + v[0..] == v
  {}

  lemma FoldNext(v: string, k: nat, at: nat) returns (k': nat)
    requires k <= |v|
    requires var done := IniPrint.Fold(v[..k]); Find(done + v[k..], "\n", |done|) == Some(at)
    ensures k < k' <= |v|
    ensures var done, folded := IniPrint.Fold(v[..k]), IniPrint.Fold(v[..k]) + v[k..];
            && |done| <= at < |folded|
            && |IniPrint.Fold(v[..k'])| == at + 2
            && folded[..at] + "\n\t" + folded[at + 1..] == IniPrint.Fold(v[..k']) + v[k'..]
  {
    hide Find, IniPrint.Fold;
    var done := IniPrint.Fold(v[..k]);
    var folded := done + v[k..];
    IniNormal.MatchOne(folded, '\n', at);
    var j := at - |done|;
    var mid := v[k..k + j];
    k' := k + j + 1;
    assert folded[at] == v[k + j];
    forall i | 0 <= i < j
      ensures mid[i] != '\n'
    {
      IniNormal.MatchOne(folded, '\n', |done| + i);
      assert folded[|done| + i] == v[k + i];
    }
    IniPrint.FoldLine(mid);
    assert v[..k'] == v[..k] + mid + "\n";
    IniPrint.FoldConcat(v[..k], mid);
    IniPrint.FoldConcat(v[..k] + mid, "\n");
    FoldOne();
    assert folded[..at] == done + mid;
    assert folded[at + 1..] == v[k'..];
  }

  lemma FoldOne()
    ensures IniPrint.Fold("\n") == "\n\t"
  {}

  lemma FoldRest(v: string, k: nat)
    requires k <= |v|
    requires var done := IniPrint.Fold(v[..k]); Find(done + v[k..], "\n", |done|).None?
    ensures IniPrint.Fold(v[..k]) + v[k..] == IniPrint.Fold(v)
  {
    hide Find, IniPrint.Fold;
    var done, rest := IniPrint.Fold(v[..k]), v[k..];
    forall i | 0 <= i < |rest|
      ensures rest[i] != '\n'
    {
      IniNormal.MatchOne(done + rest, '\n', |done| + i);
    }
    IniPrint.FoldLine(rest);
    IniPrint.FoldConcat(v[..k], rest);
    assert v == v[..k] + rest;
  }

  lemma {:induction false} BodySnoc(o: ParseOptions, items: Items, e: Entry, spaced: bool, fold: bool)
    requires o.delimiters != []
    ensures IniPrint.BodyText(o, items + [e], spaced, fold) ==
            IniPrint.BodyText(o, items, spaced, fold) + IniPrint.EntryText(o, e, spaced, fold)
    decreases |items|
  {
    hide IniPrint.EntryText;
    if items == [] {
      NilConcat([e]);
      ConsTail(e, []);
      NilConcat(IniPrint.EntryText(o, e, spaced, fold));
    } else {
      assert (items + [e])[1..] == items[1..] + [e];
      BodySnoc(o, items[1..], e, spaced, fold);
      Assoc(IniPrint.EntryText(o, items[0], spaced, fold), IniPrint.BodyText(o, items[1..], spaced, fold),
            IniPrint.EntryText(o, e, spaced, fold));
    }
  }

  function SectionText(o: ParseOptions, s: Section, spaced: bool): string
    requires o.delimiters != []
  {
    (if s.name != UNNAMED_SECTION then IniPrint.HeaderText(s.name) else "")
    + IniPrint.BodyText(o, s.items, spaced, true) + "\n"
  }

  lemma {:induction false} SectionsSnoc(o: ParseOptions, sections: seq<Section>, s: Section, spaced: bool)
    requires o.delimiters != []
    ensures IniPrint.SectionsText(o, sections + [s], spaced) ==
            IniPrint.SectionsText(o, sections, spaced) + SectionText(o, s, spaced)
    decreases |sections|
  {
    hide IniPrint.BodyText, IniPrint.HeaderText;
    if sections == [] {
      NilConcat([s]);
      ConsTail(s, []);
      NilConcat(SectionText(o, s, spaced));
    } else {
      assert (sections + [s])[1..] == sections[1..] + [s];
      SectionsSnoc(o, sections[1..], s, spaced);
      Assoc(SectionText(o, sections[0], spaced), IniPrint.SectionsText(o, sections[1..], spaced),
          SectionText(o, s, spaced));
    }
  }

  lemma NothingWritable(o: ParseOptions)
    ensures IniPrint.Writable(o, [])
  {}

  lemma NothingLeft(o: ParseOptions, line: string)
    requires Trim(line) == ""
    ensures StripComment(o, line) == ""
  {
    hide CutAllInline;
    var cut := CutAllInline(line, o.inlineCommentPrefixes);
    CutAllWhere(line, o.inlineCommentPrefixes);
    assert SkipSpace(line, 0) == |line|;
    assert forall i :: 0 <= i < |cut| ==> cut[i] == line[i];
    assert SkipSpace(cut, 0) == |cut|;
  }
}
