/** Reading any text leaves a normal store, so every store that survives printing and
    reading back is printable: the exact extent of the round trip. */
module IniNormalForm {
  import opened Text
  import opened IniStore
  import opened IniParse
  import opened IniTwoPhase
  import opened IniPrint
  import opened IniNormal
  import opened IniRoundTrip

  // ---------------------------------------------------------------- lines

  predicate CleanLine(c: string) {
    IsTrimmed(c) && Lacks(c, '\n') && !CommentStart(c)
  }

  lemma StripClean(o: ParseOptions, line: string)
    requires Standard(o) && Lacks(line, '\n')
    ensures CleanLine(StripComment(o, line))
  {
    hide StripComment, Trim;
    StandardStrip(o, line);
    TrimLacks(line, '\n');
  }

  predicate AllClean(ls: seq<string>) {
    forall i :: 0 <= i < |ls| ==> CleanLine(ls[i])
  }

  /** A key as it stands on its line, before it is folded to lower case. */
  predicate RawKey(k: string) {
    k != "" && IsTrimmed(k) && Lacks(k, '\n') && DelimiterFree(k) && !CommentStart(k)
  }

  predicate NormalItem(item: Item) {
    match item.logical
    case Header(name) => Lacks(name, '\n')
    case Assign(key, text) => RawKey(key) && IsTrimmed(text) && Lacks(text, '\n') && AllClean(item.conts)
    case Bare(_) => false
    case Junk => true
  }

  lemma SubLacks(s: string, from: nat, to: nat)
    requires Lacks(s, '\n') && from <= to <= |s|
    ensures Lacks(s[from..to], '\n')
  {}

  /** The part before the first delimiter, trimmed, is a key unless it is empty. */
  lemma KeyOf(c: string, p: nat)
    requires CleanLine(c) && c != "" && p <= |c| && p == DelimiterAt(c)
    ensures Trim(c[..p]) != "" ==> RawKey(Trim(c[..p]))
  {
    hide Trim, DelimiterAt;
    var h := c[..p];
    var from, to := TrimSpan(h);
    var k := Trim(h);
    assert forall i :: 0 <= i < |h| ==> h[i] == c[i];
    if k != "" {
      assert p > 0 && h[0] == c[0];
      assert from == 0;
      assert forall i :: 0 <= i < |k| ==> k[i] == h[i];
    }
  }

  lemma ClassifyNormal(o: ParseOptions, c: string, conts: seq<string>, n: nat, line: string)
    requires Standard(o) && CleanLine(c) && c != "" && AllClean(conts)
    ensures NormalItem(Item(n, line, Classify(o, c), conts))
  {
    hide FirstDelimiter, Trim, DelimiterAt, RawKey, AllClean, CommentStart;
    StandardDelimiter(c);
    var p := DelimiterAt(c);
    KeyOf(c, p);
    if c[0] == '[' && c[|c| - 1] == ']' {
      SubLacks(c, 1, |c| - 1);
    } else if p < |c| {
      SubLacks(c, p + 1, |c|);
      TrimLacks(c[p + 1..], '\n');
    }
  }

  lemma CleanedClean(o: ParseOptions, lines: seq<string>)
    requires Standard(o) && AllLack(lines)
    ensures AllClean(Cleaned(o, lines))
  {
    hide StripComment, Standard, Lacks, CleanLine;
    forall i | 0 <= i < |lines|
      ensures CleanLine(Cleaned(o, lines)[i])
    {
      StripClean(o, lines[i]);
    }
  }

  predicate AllNormal(items: seq<Item>) {
    forall i :: 0 <= i < |items| ==> NormalItem(items[i])
  }

  lemma AllLackParts(ls: seq<string>, k: nat)
    requires AllLack(ls) && k <= |ls|
    ensures AllLack(ls[..k]) && AllLack(ls[k..])
  {
    hide Lacks;
  }

  lemma AllNormalCons(item: Item, rest: seq<Item>)
    requires NormalItem(item) && AllNormal(rest)
    ensures AllNormal([item] + rest)
  {
    hide NormalItem;
  }

  lemma {:induction false} SegmentNormal(o: ParseOptions, lines: seq<string>, n: nat)
    requires Standard(o) && AllLack(lines)
    ensures AllNormal(Segment(o, lines, n))
    decreases |lines|
  {
    hide Standard, AllLack, StripComment, Classify, ContLen, Cleaned, Conts, NormalItem, CleanLine, AllClean;
    if lines != [] {
      var c, tail := StripComment(o, lines[0]), lines[1..];
      FirstLacks(lines);
      if c == "" {
        AllLackParts(lines, 1);
        SegmentNormal(o, tail, n + 1);
      } else {
        var k := if Classify(o, c).Assign? then ContLen(o, tail) else 0;
        AllLackParts(lines, 1);
        AllLackParts(tail, k);
        SegmentNormal(o, tail[k..], n + 1 + k);
        StripClean(o, lines[0]);
        CleanedClean(o, tail[..k]);
        StandardFacts(o);
        ContsKept(o, tail, k);
        ClassifyNormal(o, c, Cleaned(o, tail[..k]), n, lines[0]);
        AllNormalCons(Item(n, lines[0], Classify(o, c), Cleaned(o, tail[..k])), Segment(o, tail[k..], n + 1 + k));
      }
    }
  }

  lemma FirstLacks(lines: seq<string>)
    requires AllLack(lines) && lines != []
    ensures Lacks(lines[0], '\n')
  {}

  // ---------------------------------------------------------------- values

  lemma TrimRightNewline(s: string)
    ensures TrimRight(s + "\n") == TrimRight(s)
  {
    var t := TrimRight(s);
    var b := s[|t|..] + "\n";
    assert s + "\n" == t + b;
    TrimRightUnique(t, b);
  }

  lemma {:induction false} JoinEnd(ls: seq<string>)
    requires ls != []
    ensures ls[|ls| - 1] != "" ==>
              Join(ls) != "" && Join(ls)[|Join(ls)| - 1] == ls[|ls| - 1][|ls[|ls| - 1]| - 1]
  {
    if |ls| > 1 {
      JoinEnd(ls[1..]);
      var rest := Join(ls[1..]);
      assert Join(ls) == ls[0] + "\n" + rest;
    }
  }

  lemma AllLackPrefix(ls: seq<string>)
    requires AllLack(ls) && ls != []
    ensures AllLack(ls[..|ls| - 1])
  {
    hide Lacks;
  }

  lemma NormalLinesPrefix(ls: seq<string>)
    requires NormalLines(ls) && |ls| > 1
    ensures NormalLines(ls[..|ls| - 1])
  {
    hide IsTrimmed, CommentStart;
  }

  /** Joining cleaned lines drops the blank ones at the end and nothing else. */
  lemma {:induction false} JoinLinesNormal(ls: seq<string>)
    requires ls != [] && AllLack(ls) && NormalLines(ls)
    ensures NormalValue(JoinLines(ls))
    decreases |ls|
  {
    hide NormalLines, Split, TrimRight;
    var last := ls[|ls| - 1];
    LastTrimmed(ls);
    if last != "" {
      JoinEnd(ls);
      TrimRightUnique(Join(ls), "");
      NilConcat(Join(ls));
      SplitOfJoin(ls);
    } else if |ls| > 1 {
      var init := ls[..|ls| - 1];
      AllLackPrefix(ls);
      NormalLinesPrefix(ls);
      JoinLinesNormal(init);
      assert ls == init + [""];
      JoinAppend(init, [""]);
      TrimRightNewline(Join(init));
      NilConcat(Join(init) + "\n");
    } else {
      TrimRightUnique("", "");
      NilConcat("");
      SplitSingle("");
      assert ls == [""];
    }
  }

  lemma LastTrimmed(ls: seq<string>)
    requires ls != [] && NormalLines(ls)
    ensures IsTrimmed(ls[|ls| - 1])
  {}

  // ---------------------------------------------------------------- the store stays normal

  lemma LowerKeyNormal(k: string)
    requires RawKey(k)
    ensures NormalKey(ToLower(k))
  {
    LowerFixed(k);
  }

  lemma ItemValueNormal(item: Item)
    requires NormalItem(item) && item.logical.Assign?
    ensures ItemValue(item).Some? && NormalValue(ItemValue(item).value)
  {
    hide RawKey, JoinLines, IsTrimmed, CommentStart, Lacks;
    var ls := [item.logical.text] + item.conts;
    forall i | 0 <= i < |ls|
      ensures IsTrimmed(ls[i]) && Lacks(ls[i], '\n') && (i > 0 ==> !CommentStart(ls[i]))
    {
      if i > 0 {
        assert ls[i] == item.conts[i - 1];
        assert CleanLine(item.conts[i - 1]);
      }
    }
    JoinLinesNormal(ls);
  }

  lemma PutNormal(items: Items, e: Entry)
    requires NormalItems(items) && NormalEntry(e)
    ensures NormalItems(PutItem(items, e.key, e.value))
  {
    hide NormalEntry;
    var r := PutItem(items, e.key, e.value);
    assert e == Entry(e.key, e.value);
  }

  lemma WithItemsNormal(o: ParseOptions, st: Store, section: string, items: Items)
    requires Normal(o, st) && NormalItems(items) && !SlotOf(o, st, section).Missing?
    ensures Normal(o, WithItems(st, SlotOf(o, st, section), items))
  {
    hide NormalItems, NormalName;
    var slot := SlotOf(o, st, section);
    var r := WithItems(st, slot, items);
    forall i | 0 <= i < |r.sections|
      ensures NormalSection(o, r.sections[i]) && r.sections[i].name == st.sections[i].name
    {
      assert NormalSection(o, st.sections[i]);
    }
  }

  lemma ItemsAtNormal(o: ParseOptions, st: Store, section: string)
    requires Normal(o, st) && !SlotOf(o, st, section).Missing?
    ensures NormalItems(ItemsAt(st, SlotOf(o, st, section)))
  {
    hide NormalItems, NormalName;
    var slot := SlotOf(o, st, section);
    if slot.Stored? {
      assert NormalSection(o, st.sections[slot.index]);
    }
  }

  lemma AppendNormal(o: ParseOptions, st: Store, name: string)
    requires Normal(o, st) && NormalName(o, name) && !HasStored(st, name)
    ensures Normal(o, AppendSection(st, name))
  {
    hide NormalName, NormalEntry;
    var r := AppendSection(st, name).sections;
    forall i | 0 <= i < |r|
      ensures NormalSection(o, r[i])
    {
      assert i < |st.sections| ==> r[i] == st.sections[i] && NormalSection(o, st.sections[i]);
    }
    assert forall i :: 0 <= i < |st.sections| ==> r[i] == st.sections[i];
  }

  lemma ApplyNormal(o: ParseOptions, st: Store, section: string, errors: seq<LineError>, item: Item)
    requires Standard(o) && Normal(o, st) && NormalItem(item)
    ensures Normal(o, ApplyItem(o, st, section, errors, item).store)
  {
    hide Normal, RawKey, IsTrimmed, Lacks, AllClean, SlotOf, HasStored, HasKey, NormalItems, ItemValue, PutItem;
    if item.logical.Header? {
      var name := item.logical.name;
      if name != "" && name != o.defaultSection && !HasStored(st, name) {
        AppendNormal(o, st, name);
      }
    } else if item.logical.Assign? {
      if !SlotOf(o, st, section).Missing? {
        var e := Entry(ToLower(item.logical.key), ItemValue(item));
        LowerKeyNormal(item.logical.key);
        ItemValueNormal(item);
        ItemsAtNormal(o, st, section);
        PutNormal(ItemsAt(st, SlotOf(o, st, section)), e);
        WithItemsNormal(o, st, section, PutItem(ItemsAt(st, SlotOf(o, st, section)), e.key, e.value));
      }
    }
  }

  lemma AllNormalTail(items: seq<Item>)
    requires AllNormal(items) && items != []
    ensures NormalItem(items[0]) && AllNormal(items[1..])
  {
    hide NormalItem;
  }

  lemma {:induction false} InterpretNormal(o: ParseOptions, st: Store, section: string, errors: seq<LineError>,
                                           items: seq<Item>)
    requires Standard(o) && Normal(o, st) && AllNormal(items)
    ensures Normal(o, Interpret(o, st, section, errors, items).store)
    decreases |items|
  {
    hide Standard, Normal, NormalItem, AllNormal, ApplyItem;
    if items != [] {
      AllNormalTail(items);
      ApplyNormal(o, st, section, errors, items[0]);
      var p := ApplyItem(o, st, section, errors, items[0]);
      if p.thrown.None? {
        InterpretNormal(o, p.store, p.section, p.errors, items[1..]);
      }
    }
  }

  /** Whatever the text, and even if reading it throws, the store it leaves is normal. */
  lemma ReadNormal(o: ParseOptions, text: string)
    requires Standard(o)
    ensures Normal(o, ReadString(o, EMPTY_STORE, text).store)
  {
    hide *;
    StandardFacts(o);
    LinesLack(text);
    SegmentNormal(o, Lines(text), 1);
    EmptyNormal(o);
    InterpretNormal(o, EMPTY_STORE, "", [], Segment(o, Lines(text), 1));
    ReadIsTwoPhase(o, EMPTY_STORE, text);
  }

  lemma EmptyNormal(o: ParseOptions)
    ensures Normal(o, EMPTY_STORE)
  {}
}
