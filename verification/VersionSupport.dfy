/** Three answers to "does this configuration cover this version": a section of the parsed file,
    a scan of the file's lines, and a substring test on the whole text. */
module VersionSupport {
  import opened Text
  import opened IniStore
  import opened IniParse
  import opened IniTwoPhase
  import opened IniMeaning
  import opened IniPrint
  import IniNormal
  import IniRoundTrip
  import IniUnprintable

  // ---------------------------------------------------------------- the line scan

  /** The white space the scan trims: no vertical tab and no form feed. */
  predicate IsBlank(c: char) {
    c == ' ' || c == '\t' || c == '\r' || c == '\n'
  }

  /** find_first_not_of, or the length. */
  function FirstNotBlank(s: string, i: nat): (r: nat)
    requires i <= |s|
    ensures i <= r <= |s| && (r < |s| ==> !IsBlank(s[r]))
    decreases |s| - i
  {
    if i < |s| && IsBlank(s[i]) then FirstNotBlank(s, i + 1) else i
  }

  /** One past find_last_not_of, or 0. */
  function LastNotBlank(s: string, hi: nat): (r: nat)
    requires hi <= |s|
    ensures r <= hi && (r > 0 ==> !IsBlank(s[r - 1]))
    ensures forall i :: r <= i < hi ==> IsBlank(s[i])
  {
    if hi > 0 && IsBlank(s[hi - 1]) then LastNotBlank(s, hi - 1) else hi
  }

  /** The part of a line between its first and its last character that is not blank. */
  function BlankTrim(line: string): string {
    var first := FirstNotBlank(line, 0);
    if first == |line| then "" else line[first..LastNotBlank(line, |line|)]
  }

  predicate LineNames(lines: seq<string>, v: string) {
    exists i :: 0 <= i < |lines| && BlankTrim(lines[i]) == HeaderLine(v)
  }

  predicate IsHeaderText(t: string, v: string) {
    |t| >= 2 && t[0] == '[' && t[|t| - 1] == ']' && t[1..|t| - 1] == v
  }

  lemma HeaderTextIs(t: string, v: string)
    ensures IsHeaderText(t, v) <==> t == HeaderLine(v)
  {
    if IsHeaderText(t, v) {
      assert t == [t[0]] + t[1..|t| - 1] + [t[|t| - 1]];
    }
    if t == HeaderLine(v) {
      assert t[1..|t| - 1] == v;
    }
  }

  /** supportLevel once the file is open: 2 when a line is the version's header, 1 for the two oldest
      families, 0 otherwise. */
  method SupportLevel(text: string, v: string) returns (level: nat)
    ensures level == 2 <==> LineNames(Lines(text), v)
    ensures level == 1 <==> !LineNames(Lines(text), v) && (StartsWith(v, "6.0.") || StartsWith(v, "6.1."))
    ensures level <= 2
  {
    hide Lines;
    var lines := Lines(text);
    var i := 0;
    while i < |lines|
      invariant 0 <= i <= |lines|
      invariant forall k :: 0 <= k < i ==> BlankTrim(lines[k]) != HeaderLine(v)
    {
      var line := lines[i];
      var first, last := FirstNotBlank(line, 0), LastNotBlank(line, |line|);
      HeaderTextIs(BlankTrim(line), v);
      if first != |line| {
        var trimmed := BlankTrim(line);
        if |trimmed| >= 2 && trimmed[0] == '[' && trimmed[|trimmed| - 1] == ']' {
          if trimmed[1..|trimmed| - 1] == v {
            return 2;
          }
        }
      }
      i := i + 1;
    }
    level := if StartsWith(v, "6.0.") || StartsWith(v, "6.1.") then 1 else 0;
  }

  // ---------------------------------------------------------------- a stored section has a header line

  lemma FindByNames(a: seq<Section>, b: seq<Section>, v: string)
    requires |a| == |b| && forall i :: 0 <= i < |a| ==> a[i].name == b[i].name
    ensures FindSection(a, v) == FindSection(b, v)
  {
    var i, j := FindSection(a, v), FindSection(b, v);
  }

  lemma WithItemsKeepsNames(st: Store, slot: Slot, items: Items, v: string)
    requires ValidSlot(st, slot)
    ensures HasStored(WithItems(st, slot, items), v) <==> HasStored(st, v)
  {
    FindByNames(st.sections, WithItems(st, slot, items).sections, v);
  }

  lemma AppendAddsOne(st: Store, name: string, v: string)
    requires name != v
    ensures HasStored(AppendSection(st, name), v) <==> HasStored(st, v)
  {
    var a, b := st.sections, AppendSection(st, name).sections;
    assert forall i :: 0 <= i < |a| ==> b[i] == a[i];
    var i, j := FindSection(a, v), FindSection(b, v);
    if i < |a| {
      assert b[i].name == v;
    }
    if j < |b| {
      assert j < |a| by { assert b[|a|].name == name; }
      assert a[j].name == v;
    }
  }

  lemma PutKeepsNames(o: ParseOptions, st: Store, section: string, key: string, value: OptionValue, line: nat,
                      v: string)
    ensures HasStored(PutOption(o, st, section, key, value, line).store, v) <==> HasStored(st, v)
  {
    hide HasStored, PutItem, HasKey, WithItems;
    var slot := SlotOf(o, st, section);
    if !slot.Missing? {
      WithItemsKeepsNames(st, slot, PutItem(ItemsAt(st, slot), key, value), v);
    }
  }

  lemma FinishKeepsNames(o: ParseOptions, st: Store, section: string, option: string, accum: seq<string>, v: string)
    ensures HasStored(FinishMultiline(o, st, section, option, accum).store, v) <==> HasStored(st, v)
  {
    hide HasStored, PutItem, HasKey, WithItems, JoinLines;
    var slot := SlotOf(o, st, section);
    if !slot.Missing? {
      WithItemsKeepsNames(st, slot, PutItem(ItemsAt(st, slot), option, Some(JoinLines(accum))), v);
    }
  }

  lemma LogicalAddsHeader(o: ParseOptions, st: Store, c: Cursor, original: string, logical: Logical, line: nat,
                          v: string)
    requires v != UNNAMED_SECTION && HasStored(LogicalLine(o, st, c, original, logical, line).store, v)
    ensures HasStored(st, v) || logical == Header(v)
  {
    hide HasStored, PutOption, AppendSection;
    if logical.Header? {
      if logical.name != v {
        AppendAddsOne(st, logical.name, v);
      }
    } else {
      AppendAddsOne(st, UNNAMED_SECTION, v);
      var e := EnsureSection(o, st, c.section, line);
      if !logical.Junk? && e.thrown.None? {
        PutKeepsNames(o, e.store, ImplicitSection(o, c.section), ToLower(logical.key),
                      if logical.Assign? then Some(logical.text) else None, line, v);
      }
    }
  }

  lemma ParseLineAddsHeader(o: ParseOptions, st: Store, c: Cursor, original: string, cleaned: string, line: nat,
                            v: string)
    requires v != UNNAMED_SECTION && HasStored(ParseLine(o, st, c, original, cleaned, line).store, v)
    ensures HasStored(st, v) || (cleaned != "" && Classify(o, cleaned) == Header(v))
  {
    hide HasStored, LogicalLine, FinishMultiline, Classify;
    if cleaned != "" {
      FinishKeepsNames(o, st, c.section, c.option, c.accum, v);
      if c.inMultiline && c.option != "" {
        if !Indented(original) {
          var f := FinishMultiline(o, st, c.section, c.option, c.accum);
          if f.thrown.None? {
            LogicalAddsHeader(o, f.store, c.(accum := [], inMultiline := false), original, Classify(o, cleaned), line,
                v);
          }
        }
      } else {
        LogicalAddsHeader(o, st, c, original, Classify(o, cleaned), line, v);
      }
    }
  }

  /** Every section a reading adds comes from a line that is its header once cleaned. */
  lemma {:induction false} ParsedHasLine(o: ParseOptions, st: Store, c: Cursor, lines: seq<string>, n: nat, v: string)
    returns (i: nat)
    requires v != UNNAMED_SECTION && !HasStored(st, v) && HasStored(ParseLines(o, st, c, lines, n).store, v)
    ensures i < |lines| && StripComment(o, lines[i]) != "" && Classify(o, StripComment(o, lines[i])) == Header(v)
    decreases |lines|
  {
    hide HasStored, ParseLine, StripComment, Classify;
    var s := ParseLine(o, st, c, lines[0], StripComment(o, lines[0]), n);
    if HasStored(s.store, v) {
      ParseLineAddsHeader(o, st, c, lines[0], StripComment(o, lines[0]), n, v);
      i := 0;
    } else {
      i := ParsedHasLine(o, s.store, s.cursor, lines[1..], n + 1, v);
      i := i + 1;
    }
  }

  lemma HeaderClass(o: ParseOptions, c: string, v: string)
    requires c != "" && Classify(o, c) == Header(v)
    ensures c == HeaderLine(v)
  {
    hide FirstDelimiter, Trim;
    assert |c| >= 2;
    HeaderTextIs(c, v);
  }

  lemma NoInlineStrip(o: ParseOptions, line: string)
    requires o.inlineCommentPrefixes == [] && StripComment(o, line) != ""
    ensures StripComment(o, line) == Trim(line)
  {
    hide Trim, HasCommentPrefix;
    assert CutAllInline(line, []) == line;
  }

  // ---------------------------------------------------------------- the two ways of trimming

  /** The white space only the parser trims: vertical tab and form feed. */
  predicate IsOdd(c: char) {
    c == '\U{000B}' || c == '\U{000C}'
  }

  lemma OddSpace(c: char)
    ensures IsOdd(c) ==> IsSpace(c) && !IsBlank(c)
    ensures IsBlank(c) <==> IsSpace(c) && !IsOdd(c)
  {}

  /** No vertical tab or form feed has only white space in front of it or only white space behind it. */
  predicate PlainMargins(s: string) {
    forall i :: 0 <= i < |s| && (AllSpace(s[..i]) || AllSpace(s[i + 1..])) ==> !IsOdd(s[i])
  }

  lemma {:induction false} BlankFront(s: string, i: nat)
    requires i <= |s|
    ensures forall k :: i <= k < FirstNotBlank(s, i) ==> IsBlank(s[k])
    decreases |s| - i
  {
    hide IsBlank;
    if i < |s| && IsBlank(s[i]) {
      BlankFront(s, i + 1);
    }
  }

  /** Where a text that is not all white space sits in its line, for either way of trimming. */
  lemma Margins(s: string) returns (from: nat, to: nat, first: nat, last: nat)
    requires Trim(s) != ""
    ensures first <= from < to <= last <= |s| && Trim(s) == s[from..to] && BlankTrim(s) == s[first..last]
    ensures !IsSpace(s[from]) && !IsSpace(s[to - 1])
    ensures forall k :: 0 <= k < from || to <= k < |s| ==> IsSpace(s[k])
    ensures forall k :: 0 <= k < first || last <= k < |s| ==> IsBlank(s[k])
    ensures !IsBlank(s[first]) && !IsBlank(s[last - 1])
  {
    from, first := SkipSpace(s, 0), FirstNotBlank(s, 0);
    to, last := BackSpace(s, from, |s|), LastNotBlank(s, |s|);
    BlankFront(s, 0);
    hide IsSpace, IsBlank;
    OddSpace(s[from]);
    OddSpace(s[to - 1]);
  }

  lemma MarginAt(s: string, from: nat, to: nat, i: nat)
    requires from < to <= |s| && !IsSpace(s[from]) && !IsSpace(s[to - 1]) && i < |s|
    requires forall k :: 0 <= k < from || to <= k < |s| ==> IsSpace(s[k])
    ensures AllSpace(s[..i]) <==> i <= from
    ensures AllSpace(s[i + 1..]) <==> i >= to - 1
  {
    hide IsSpace;
    if i > from {
      assert s[..i][from] == s[from];
    }
    if i < to - 1 {
      assert s[i + 1..][to - 2 - i] == s[to - 1];
    }
  }

  predicate PlainOutside(s: string, from: nat, to: nat) {
    forall i :: 0 <= i < |s| && (i < from || to <= i) ==> !IsOdd(s[i])
  }

  lemma MarginsOutside(s: string, from: nat, to: nat)
    requires from < to <= |s| && !IsSpace(s[from]) && !IsSpace(s[to - 1])
    requires forall k :: 0 <= k < from || to <= k < |s| ==> IsSpace(s[k])
    ensures PlainMargins(s) <==> PlainOutside(s, from, to)
  {
    hide IsSpace, AllSpace;
    OddSpace(s[from]);
    OddSpace(s[to - 1]);
    forall i | 0 <= i < |s|
      ensures AllSpace(s[..i]) <==> i <= from
      ensures AllSpace(s[i + 1..]) <==> i >= to - 1
    {
      MarginAt(s, from, to, i);
    }
  }

  lemma SameSpan(s: string, from: nat, to: nat, first: nat, last: nat)
    requires first <= from < to <= last <= |s| && !IsBlank(s[first]) && !IsBlank(s[last - 1])
    requires forall k :: 0 <= k < from || to <= k < |s| ==> IsSpace(s[k])
    requires forall k :: 0 <= k < first || last <= k < |s| ==> IsBlank(s[k])
    ensures first == from && last == to <==> PlainOutside(s, from, to)
  {
    hide IsSpace, IsBlank, IsOdd;
    OddSpace(s[first]);
    OddSpace(s[last - 1]);
    forall i | 0 <= i < |s|
      ensures IsBlank(s[i]) <==> IsSpace(s[i]) && !IsOdd(s[i])
    {
      OddSpace(s[i]);
    }
  }

  lemma SliceSame(s: string, from: nat, to: nat, first: nat, last: nat)
    requires first <= from < to <= last <= |s|
    ensures s[first..last] == s[from..to] <==> first == from && last == to
  {
    assert |s[first..last]| == last - first && |s[from..to]| == to - from;
  }

  /** The scan trims what the parser trims exactly when the margins are plain. */
  lemma SameTrimExactly(s: string)
    requires Trim(s) != ""
    ensures BlankTrim(s) == Trim(s) <==> PlainMargins(s)
  {
    hide *;
    var from, to, first, last := Margins(s);
    MarginsOutside(s, from, to);
    SameSpan(s, from, to, first, last);
    SliceSame(s, from, to, first, last);
  }

  // ---------------------------------------------------------------- lines are parts of the text

  lemma {:induction false} LineOffset(t: string, i: nat) returns (at: nat)
    requires i < |Lines(t)|
    ensures at + |Lines(t)[i]| <= |t| && t[at..at + |Lines(t)[i]|] == Lines(t)[i]
  {
    NoLines();
    hide NewlineAt, Lines;
    LinesUnfold(t);
    var k := NewlineAt(t);
    if i == 0 {
      at := 0;
    } else {
      var rest := t[k + 1..];
      at := LineOffset(rest, i - 1);
      SubSlice(t, k + 1, |t|, at, at + |Lines(rest)[i - 1]|);
      at := k + 1 + at;
    }
  }

  /** What the scan finds, the substring test finds. */
  lemma ScanImpliesSubstring(text: string, v: string)
    requires LineNames(Lines(text), v)
    ensures Find(text, HeaderLine(v), 0).Some?
  {
    hide Lines, HeaderLine, BlankTrim, Find;
    var i :| 0 <= i < |Lines(text)| && BlankTrim(Lines(text)[i]) == HeaderLine(v);
    var line := Lines(text)[i];
    var at := LineOffset(text, i);
    var a, b := BlankSpan(line);
    SubSlice(text, at, at + |line|, a, b);
    assert MatchAt(text, HeaderLine(v), at + a);
  }

  // ---------------------------------------------------------------- parser, scan and substring

  /** Some line is the header once the parser's white space is trimmed. */
  predicate Spelled(lines: seq<string>, v: string) {
    exists i :: 0 <= i < |lines| && Trim(lines[i]) == HeaderLine(v)
  }

  predicate SpelledPlainly(lines: seq<string>, v: string) {
    exists i :: 0 <= i < |lines| && Trim(lines[i]) == HeaderLine(v) && PlainMargins(lines[i])
  }

  lemma HeaderEnds(v: string)
    ensures HeaderLine(v) != "" && IsTrimmed(HeaderLine(v))
  {}

  lemma BlankSpan(s: string) returns (a: nat, b: nat)
    ensures a <= b <= |s| && BlankTrim(s) == s[a..b] && AllSpace(s[..a]) && AllSpace(s[b..])
  {
    a, b := FirstNotBlank(s, 0), LastNotBlank(s, |s|);
    BlankFront(s, 0);
    if a == |s| {
      b := a;
    } else {
      assert !IsBlank(s[a]);
      assert a < b;
    }
  }

  /** The scan takes a line for the header exactly when the parser's trimming gives it and the margins are plain. */
  lemma LineSees(line: string, v: string)
    ensures BlankTrim(line) == HeaderLine(v) <==> Trim(line) == HeaderLine(v) && PlainMargins(line)
  {
    hide BlankTrim, Trim, HeaderLine, PlainMargins, AllSpace, IsTrimmed;
    HeaderEnds(v);
    if Trim(line) != "" {
      SameTrimExactly(line);
    }
    if BlankTrim(line) == HeaderLine(v) {
      var a, b := BlankSpan(line);
      TrimUnique(line[..a], HeaderLine(v), line[b..]);
      assert line == line[..a] + line[a..b] + line[b..];
    }
  }

  /** Exactly which texts the scan finds a version in. */
  lemma ScanSees(lines: seq<string>, v: string)
    ensures LineNames(lines, v) <==> SpelledPlainly(lines, v)
  {
    hide BlankTrim, Trim, HeaderLine, PlainMargins;
    forall i | 0 <= i < |lines|
      ensures BlankTrim(lines[i]) == HeaderLine(v) <==> Trim(lines[i]) == HeaderLine(v) && PlainMargins(lines[i])
    {
      LineSees(lines[i], v);
    }
  }

  /** Main result: without inline comments, a section that a reading into an empty parser stores, even when the
      reading throws, has a line that spells its header; the scan finds the version exactly when one of the lines
      that spell it has plain margins, so always when all of them have; and what the scan finds the installer's
      substring test finds. */
  lemma SupportChain(o: ParseOptions, text: string, v: string)
    requires o.inlineCommentPrefixes == [] && v != UNNAMED_SECTION
    ensures HasStored(ReadString(o, EMPTY_STORE, text).store, v) ==> Spelled(Lines(text), v)
    ensures LineNames(Lines(text), v) <==> SpelledPlainly(Lines(text), v)
    ensures HasStored(ReadString(o, EMPTY_STORE, text).store, v) && PlainHeaders(Lines(text), v) ==>
            LineNames(Lines(text), v)
    ensures LineNames(Lines(text), v) ==> Find(text, HeaderLine(v), 0).Some?
  {
    hide Lines, HasStored, ParseLines, FinishMultiline, Find, BlankTrim, Trim, PlainMargins, Classify, StripComment,
      HeaderLine, LineNames, Spelled, SpelledPlainly, PlainHeaders;
    if HasStored(ReadString(o, EMPTY_STORE, text).store, v) {
      var p := ParseLines(o, EMPTY_STORE, START, Lines(text), 1);
      FinishKeepsNames(o, p.store, p.cursor.section, p.cursor.option, p.cursor.accum, v);
      EmptyHasNone(v);
      var i := ParsedHasLine(o, EMPTY_STORE, START, Lines(text), 1, v);
      var line := Lines(text)[i];
      HeaderClass(o, StripComment(o, line), v);
      NoInlineStrip(o, line);
      SpelledAt(Lines(text), i, v);
    }
    ScanSees(Lines(text), v);
    if PlainHeaders(Lines(text), v) {
      PlainlyIsSpelled(Lines(text), v);
    }
    if LineNames(Lines(text), v) {
      ScanImpliesSubstring(text, v);
    }
  }

  /** Every line that spells the header has plain margins. */
  predicate PlainHeaders(lines: seq<string>, v: string) {
    forall i :: 0 <= i < |lines| && Trim(lines[i]) == HeaderLine(v) ==> PlainMargins(lines[i])
  }

  lemma SpelledAt(lines: seq<string>, i: nat, v: string)
    requires i < |lines| && Trim(lines[i]) == HeaderLine(v)
    ensures Spelled(lines, v)
  {
    hide Trim, HeaderLine;
  }

  lemma EmptyHasNone(v: string)
    ensures !HasStored(EMPTY_STORE, v)
  {}

  // ---------------------------------------------------------------- how far the scan goes beyond the parser

  predicate HeaderItem(items: seq<Item>, v: string) {
    exists i :: 0 <= i < |items| && items[i].logical == Header(v)
  }

  /** Some option's value carries the header's text as one of its continuation lines. */
  predicate ContinuationIs(items: seq<Item>, v: string) {
    exists i :: 0 <= i < |items| && HeaderLine(v) in items[i].conts
  }

  lemma ItemAddsHeader(o: ParseOptions, st: Store, section: string, errors: seq<LineError>, item: Item, v: string)
    requires v != "" && v != UNNAMED_SECTION && v != o.defaultSection
    requires ApplyItem(o, st, section, errors, item).thrown.None?
    ensures HasStored(ApplyItem(o, st, section, errors, item).store, v) <==>
            HasStored(st, v) || item.logical == Header(v)
  {
    hide HasStored, PutOption, AppendSection, ItemValue, ToLower;
    if item.logical.Header? {
      if item.logical.name == v {
        AppendStores(st, v);
      } else {
        AppendAddsOne(st, item.logical.name, v);
      }
    } else {
      AppendAddsOne(st, UNNAMED_SECTION, v);
      if !item.logical.Junk? {
        var e := EnsureSection(o, st, section, item.line);
        PutKeepsNames(o, e.store, ImplicitSection(o, section), ToLower(item.logical.key), ItemValue(item), item.line,
            v);
      }
    }
  }

  lemma AppendStores(st: Store, v: string)
    ensures HasStored(AppendSection(st, v), v)
  {
    var b := AppendSection(st, v).sections;
    assert b[|st.sections|].name == v;
  }

  lemma {:induction false} ItemsAddHeaders(o: ParseOptions, st: Store, section: string, errors: seq<LineError>,
                                           items: seq<Item>, v: string)
    requires v != "" && v != UNNAMED_SECTION && v != o.defaultSection
    requires Completed(Interpret(o, st, section, errors, items))
    ensures HasStored(Interpret(o, st, section, errors, items).store, v) <==> HasStored(st, v) || HeaderItem(items, v)
    decreases |items|
  {
    hide ApplyItem, HasStored;
    if items != [] {
      ThrowStops(o, st, section, errors, items[0]);
      ItemAddsHeader(o, st, section, errors, items[0], v);
      var p := ApplyItem(o, st, section, errors, items[0]);
      ItemsAddHeaders(o, p.store, p.section, p.errors, items[1..], v);
      assert forall i :: 0 <= i < |items| - 1 ==> items[1..][i] == items[i + 1];
      assert HeaderItem(items, v) <==> items[0].logical == Header(v) || HeaderItem(items[1..], v);
    }
  }

  /** The lines that clean to this text. */
  predicate CleansTo(o: ParseOptions, lines: seq<string>, text: string) {
    exists i :: 0 <= i < |lines| && StripComment(o, lines[i]) == text
  }

  lemma CleansToAppend(o: ParseOptions, a: seq<string>, b: seq<string>, text: string)
    ensures CleansTo(o, a + b, text) <==> CleansTo(o, a, text) || CleansTo(o, b, text)
  {
    hide StripComment;
    var s := a + b;
    assert forall i :: 0 <= i < |a| ==> s[i] == a[i];
    assert forall i :: 0 <= i < |b| ==> s[|a| + i] == b[i];
  }

  lemma CleansToOne(o: ParseOptions, line: string, text: string)
    ensures CleansTo(o, [line], text) <==> StripComment(o, line) == text
  {
    hide StripComment;
    assert [line][0] == line;
  }

  lemma ClassifyHeader(o: ParseOptions, c: string, v: string)
    requires c != ""
    ensures Classify(o, c) == Header(v) <==> c == HeaderLine(v)
  {
    hide FirstDelimiter, Trim;
    if Classify(o, c) == Header(v) {
      HeaderClass(o, c, v);
    }
    if c == HeaderLine(v) {
      HeaderTextIs(c, v);
    }
  }

  lemma ConsItems(item: Item, rest: seq<Item>, v: string)
    ensures HeaderItem([item] + rest, v) <==> item.logical == Header(v) || HeaderItem(rest, v)
    ensures ContinuationIs([item] + rest, v) <==> HeaderLine(v) in item.conts || ContinuationIs(rest, v)
  {
    hide HeaderLine;
    var s := [item] + rest;
    assert s[0] == item && forall i :: 0 <= i < |rest| ==> s[i + 1] == rest[i];
  }

  lemma CleanedHas(o: ParseOptions, lines: seq<string>, text: string)
    ensures text in Cleaned(o, lines) <==> CleansTo(o, lines, text)
  {
    hide StripComment;
    var c := Cleaned(o, lines);
    assert forall i :: 0 <= i < |lines| ==> c[i] == StripComment(o, lines[i]);
  }

  /** Every line that cleans to a header is the header of an item or a continuation line of one. */
  lemma {:induction false} SegmentHeaders(o: ParseOptions, lines: seq<string>, n: nat, v: string)
    requires o.emptyLinesInValues
    ensures var items := Segment(o, lines, n);
            CleansTo(o, lines, HeaderLine(v)) <==> HeaderItem(items, v) || ContinuationIs(items, v)
    decreases |lines|
  {
    hide StripComment, Classify, ContLen, CleansTo, HeaderItem, ContinuationIs, Cleaned, Conts;
    var h := HeaderLine(v);
    if lines == [] {
      NothingListed(o, v);
    } else {
      var cleaned, rest := StripComment(o, lines[0]), lines[1..];
      HeadTail(lines);
      CleansToAppend(o, [lines[0]], rest, h);
      CleansToOne(o, lines[0], h);
      if cleaned == "" {
        SegmentHeaders(o, rest, n + 1, v);
      } else {
        var logical := Classify(o, cleaned);
        ClassifyHeader(o, cleaned, v);
        var k := if logical.Assign? then ContLen(o, rest) else 0;
        var item := Item(n, lines[0], logical, Cleaned(o, rest[..k]));
        assert rest == rest[..k] + rest[k..];
        CleansToAppend(o, rest[..k], rest[k..], h);
        CleanedHas(o, rest[..k], h);
        ContsKept(o, rest, k);
        SegmentHeaders(o, rest[k..], n + 1 + k, v);
        ConsItems(item, Segment(o, rest[k..], n + 1 + k), v);
      }
    }
  }

  lemma NothingListed(o: ParseOptions, v: string)
    ensures !CleansTo(o, [], HeaderLine(v)) && !HeaderItem([], v) && !ContinuationIs([], v)
  {}

  lemma StripIsHeader(o: ParseOptions, line: string, v: string)
    requires o.inlineCommentPrefixes == [] && !HasCommentPrefix(o.commentPrefixes, HeaderLine(v))
    ensures StripComment(o, line) == HeaderLine(v) <==> Trim(line) == HeaderLine(v)
  {
    HeaderEnds(v);
    hide Trim, HasCommentPrefix, HeaderLine;
    assert CutAllInline(line, []) == line;
  }

  lemma SpelledIsClean(o: ParseOptions, lines: seq<string>, v: string)
    requires o.inlineCommentPrefixes == [] && !HasCommentPrefix(o.commentPrefixes, HeaderLine(v))
    ensures Spelled(lines, v) <==> CleansTo(o, lines, HeaderLine(v))
  {
    hide HeaderLine, StripComment, HasCommentPrefix, Trim;
    forall i | 0 <= i < |lines|
      ensures StripComment(o, lines[i]) == HeaderLine(v) <==> Trim(lines[i]) == HeaderLine(v)
    {
      StripIsHeader(o, lines[i], v);
    }
  }

  lemma PlainlyIsSpelled(lines: seq<string>, v: string)
    requires PlainHeaders(lines, v)
    ensures SpelledPlainly(lines, v) <==> Spelled(lines, v)
  {
    hide Trim, HeaderLine, PlainMargins;
  }

  /** Main result, exactly: when the whole text has been read and the lines that spell the header have plain margins,
      the scan finds the version if and only if the parser stores it or some option's value swallowed the header's
      text as a continuation line. */
  lemma ScanExactly(o: ParseOptions, text: string, v: string)
    requires o.inlineCommentPrefixes == [] && o.emptyLinesInValues && PlainHeaders(Lines(text), v)
    requires !HasCommentPrefix(o.commentPrefixes, HeaderLine(v))
    requires v != "" && v != UNNAMED_SECTION && v != o.defaultSection
    requires Completed(ReadString(o, EMPTY_STORE, text))
    ensures LineNames(Lines(text), v) <==>
            HasStored(ReadString(o, EMPTY_STORE, text).store, v) || ContinuationIs(Segment(o, Lines(text), 1), v)
  {
    hide Lines, HeaderLine, ReadString, Interpret, Segment, LineNames, HasStored, CleansTo, HeaderItem, ContinuationIs,
      HasCommentPrefix, PlainHeaders, Spelled, SpelledPlainly;
    ReadIsTwoPhase(o, EMPTY_STORE, text);
    var items := Segment(o, Lines(text), 1);
    ItemsAddHeaders(o, EMPTY_STORE, "", [], items, v);
    EmptyHasNone(v);
    SegmentHeaders(o, Lines(text), 1, v);
    ScanSees(Lines(text), v);
    PlainlyIsSpelled(Lines(text), v);
    SpelledIsClean(o, Lines(text), v);
  }

  // ---------------------------------------------------------------- where the three answers differ

  /** The wrapper's options. */
  const HOOK_OPTIONS := DEFAULT_OPTIONS.(strict := false, interpolation := NoInterpolation)

  lemma OneLine(s: string)
    requires s != "" && Lacks(s, '\n')
    ensures Lines(s) == [s]
  {
    assert NewlineAt(s) == |s|;
  }

  lemma HeaderLacks(v: string)
    requires Lacks(v, '\n')
    ensures Lacks("\U{000B}" + HeaderLine(v), '\n') && Lacks("; " + HeaderLine(v), '\n')
  {}

  lemma NotComment(t: string)
    requires t != "" && t[0] != '#' && t[0] != ';'
    ensures !HasCommentPrefix(HOOK_OPTIONS.commentPrefixes, t)
  {
    assert t[..1] == [t[0]];
  }

  lemma TabLineStrips(v: string)
    ensures StripComment(HOOK_OPTIONS, "\U{000B}" + HeaderLine(v)) == HeaderLine(v)
    ensures BlankTrim("\U{000B}" + HeaderLine(v)) == "\U{000B}" + HeaderLine(v)
  {
    var h := HeaderLine(v);
    var s := "\U{000B}" + h;
    assert s == "\U{000B}" + h + "";
    TrimUnique("\U{000B}", h, "");
    NotComment(h);
    hide Trim, HasCommentPrefix;
    assert CutAllInline(s, []) == s;
    assert s[|s| - 1] == ']';
    assert LastNotBlank(s, |s|) == |s|;
  }

  lemma HeaderStep(o: ParseOptions, line: string, v: string)
    requires v != "" && v != o.defaultSection
    ensures var s := ParseLine(o, EMPTY_STORE, START, line, HeaderLine(v), 1);
            s.store == AppendSection(EMPTY_STORE, v) && s.thrown.None? && s.cursor == START.(section := v)
  {
    ClassifyHeader(o, HeaderLine(v), v);
    EmptyHasNone(v);
    hide Classify, HasStored, AppendSection;
    assert HeaderLine(v) != "";
  }

  /** The lone header line enters the section. */
  lemma HeaderReads(line: string, v: string)
    requires Lines(line) == [line] && StripComment(HOOK_OPTIONS, line) == HeaderLine(v)
    requires v != "" && v != HOOK_OPTIONS.defaultSection
    ensures HasStored(ReadString(HOOK_OPTIONS, EMPTY_STORE, line).store, v)
  {
    hide StripComment, ParseLine, ParseLines, Lines, HasStored, AppendSection, HeaderLine;
    OneStep(HOOK_OPTIONS, line);
    HeaderStep(HOOK_OPTIONS, line, v);
    AppendStores(EMPTY_STORE, v);
  }

  /** Why vertical tabs are excluded: the parser trims one in front of a header, the scan does not. */
  lemma VerticalTabHides(v: string)
    requires v != "" && Lacks(v, '\n') && v != HOOK_OPTIONS.defaultSection
    ensures var text := "\U{000B}" + HeaderLine(v);
            HasStored(ReadString(HOOK_OPTIONS, EMPTY_STORE, text).store, v) && !LineNames(Lines(text), v)
  {
    var text := "\U{000B}" + HeaderLine(v);
    HeaderLacks(v);
    OneLine(text);
    TabLineStrips(v);
    HeaderReads(text, v);
    hide Lines, ReadString, BlankTrim, HasStored;
    assert |text| == |HeaderLine(v)| + 1;
  }

  /** The installer also counts a header that is commented out. */
  lemma CommentCounts(v: string)
    requires Lacks(v, '\n')
    ensures var text := "; " + HeaderLine(v);
            Find(text, HeaderLine(v), 0).Some? && !LineNames(Lines(text), v)
  {
    var h := HeaderLine(v);
    var text := "; " + h;
    HeaderLacks(v);
    OneLine(text);
    assert text[2..2 + |h|] == h;
    assert MatchAt(text, h, 2);
    assert text[0] == ';' && text[|text| - 1] == ']';
    assert LastNotBlank(text, |text|) == |text|;
    assert BlankTrim(text) == text;
    hide Lines, BlankTrim, Find, MatchAt;
    assert |text| == |h| + 2;
  }

  // ---------------------------------------------------------------- a header swallowed by a value

  function Swallower(v: string): Section {
    Section("s", [Entry("k", Some("v" + "\n" + HeaderLine(v)))])
  }

  lemma SwallowerValue(v: string)
    requires Lacks(v, '\n')
    ensures IniNormal.NormalValue("v" + "\n" + HeaderLine(v))
            && Split("v" + "\n" + HeaderLine(v)) == ["v", HeaderLine(v)]
  {
    var h := HeaderLine(v);
    assert h[0] == '[' && h[|h| - 1] == ']';
    assert ["v", h][1..] == [h];
    assert Join(["v", h]) == "v" + "\n" + h;
    SplitOfJoin(["v", h]);
    var t := "v" + "\n" + h;
    assert t[|t| - 1] == h[|h| - 1];
    hide Split;
    assert IniNormal.NormalLines(["v", h]);
  }

  lemma SwallowerReads(v: string)
    requires Lacks(v, '\n')
    ensures IniNormal.NormalSection(HOOK_OPTIONS, Swallower(v)) && IniRoundTrip.PlainItems(Swallower(v).items)
    ensures IniRoundTrip.SectionLacks(Swallower(v)) && IniNormal.Standard(HOOK_OPTIONS)
  {
    SwallowerValue(v);
    hide IniNormal.NormalValue;
    assert IniNormal.NormalKey("k");
  }

  lemma SwallowerLines(v: string)
    requires Lacks(v, '\n')
    ensures BodyLines(Swallower(v).items, "=", true) == ["k=v", "\t" + HeaderLine(v)]
  {
    SwallowerValue(v);
    hide Split, HeaderLine, IniNormal.NormalValue;
    var h := HeaderLine(v);
    assert ["v", h][1..] == [h] && Tabbed([h])[0] == "\t" + h;
    assert "k" + "=" + "v" == "k=v";
    assert EntryLines("k", "=", "v" + "\n" + h, true) == ["k=v", "\t" + h];
    assert Swallower(v).items[1..] == [];
  }

  lemma TabbedHeader(v: string)
    ensures BlankTrim("\t" + HeaderLine(v)) == HeaderLine(v)
  {
    var h := HeaderLine(v);
    var s := "\t" + h;
    assert s[0] == '\t' && s[1] == '[' && s[|s| - 1] == ']';
    assert FirstNotBlank(s, 1) == 1;
    assert LastNotBlank(s, |s|) == |s|;
    assert s[1..] == h;
  }

  /** A continuation line can spell a header: the scan counts the version, the parser has no such section. */
  lemma SwallowedHeader(v: string)
    requires Lacks(v, '\n') && v != "s"
    ensures var text := Unlines(["[s]", "k=v", "\t" + HeaderLine(v)]);
            && ReadString(HOOK_OPTIONS, EMPTY_STORE, text) == Outcome(Store([], [Swallower(v)]), None)
            && !HasStored(ReadString(HOOK_OPTIONS, EMPTY_STORE, text).store, v) && LineNames(Lines(text), v)
  {
    var ls := ["[s]", "k=v", "\t" + HeaderLine(v)];
    SwallowerReads(v);
    SwallowerLines(v);
    TabbedHeader(v);
    SwallowedLack(v);
    assert !HasStored(Store([], [Swallower(v)]), v);
    hide *;
    SwallowedText(v);
    IniUnprintable.SectionTextReads(HOOK_OPTIONS, Swallower(v));
    LinesOfUnlines(ls);
    NamedThird(ls, v);
  }

  lemma SwallowedLack(v: string)
    requires Lacks(v, '\n')
    ensures AllLack(["[s]", "k=v", "\t" + HeaderLine(v)])
  {}

  lemma SwallowedText(v: string)
    ensures [HeaderLine(Swallower(v).name)] + ["k=v", "\t" + HeaderLine(v)] == ["[s]", "k=v", "\t" + HeaderLine(v)]
  {
    assert HeaderLine("s") == "[s]";
  }

  lemma NamedThird(ls: seq<string>, v: string)
    requires |ls| == 3 && BlankTrim(ls[2]) == HeaderLine(v)
    ensures LineNames(ls, v)
  {
    hide BlankTrim, HeaderLine;
  }
}
