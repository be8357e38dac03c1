/** A two-phase reading of INI text and the proof that the streaming parser refines it.
    Phase one cuts the text into logical lines, each owning its continuation lines, without
    looking at any store; phase two applies whole items, giving every option its final value once. */
module IniTwoPhase {
  import opened Text
  import opened IniStore
  import opened IniParse

  /** A logical line, where it stood, and the cleaned continuation lines it owns. */
  datatype Item = Item(line: nat, original: string, logical: Logical, conts: seq<string>)

  /** Can this line go on a value? Every indented line can that is not blank once cleaned; a blank one if allowed. */
  predicate Continues(o: ParseOptions, line: string) {
    if StripComment(o, line) == "" then o.emptyLinesInValues else Indented(line)
  }

  /** How many leading lines go on a value. */
  function ContLen(o: ParseOptions, lines: seq<string>): (k: nat)
    ensures k <= |lines|
    decreases |lines|
  {
    if lines == [] || !Continues(o, lines[0]) then 0 else 1 + ContLen(o, lines[1..])
  }

  /** The run ends exactly at the first line that cannot go on a value. */
  lemma {:induction false} ContLenIs(o: ParseOptions, lines: seq<string>, i: nat)
    requires i < |lines|
    ensures i < ContLen(o, lines) ==> Continues(o, lines[i])
    ensures i == ContLen(o, lines) ==> !Continues(o, lines[i])
    decreases i
  {
    hide Continues;
    if i > 0 {
      ContLenIs(o, lines[1..], i - 1);
    }
  }

  function Cleaned(o: ParseOptions, lines: seq<string>): (r: seq<string>)
    ensures |r| == |lines|
  {
    seq(|lines|, i requires 0 <= i < |lines| => StripComment(o, lines[i]))
  }

  /** What a run of k lines adds to the value before it. Where blank lines end a value, what was pending when one
      comes is never stored: only the value's first line is kept. */
  function Conts(o: ParseOptions, lines: seq<string>, k: nat): seq<string>
    requires k <= |lines|
  {
    if Dropped(o, lines, k) then [] else Cleaned(o, lines[..k])
  }

  predicate Dropped(o: ParseOptions, lines: seq<string>, k: nat) {
    !o.emptyLinesInValues && k < |lines| && StripComment(o, lines[k]) == ""
  }

  /** Phase one. */
  function Segment(o: ParseOptions, lines: seq<string>, line: nat): seq<Item>
    decreases |lines|
  {
    if lines == [] then []
    else
      var cleaned := StripComment(o, lines[0]);
      if cleaned == "" then Segment(o, lines[1..], line + 1)
      else
        var logical := Classify(o, cleaned);
        var k := if logical.Assign? then ContLen(o, lines[1..]) else 0;
        [Item(line, lines[0], logical, Conts(o, lines[1..], k))] + Segment(o, lines[1..][k..], line + 1 + k)
  }

  /** The value an item gives its option. */
  function ItemValue(item: Item): OptionValue
    requires item.logical.Assign? || item.logical.Bare?
  {
    if item.logical.Assign? then Some(JoinLines([item.logical.text] + item.conts)) else None
  }

  datatype Phase = Phase(store: Store, section: string, errors: seq<LineError>, thrown: Option<Error>)

  function ApplyItem(o: ParseOptions, st: Store, section: string, errors: seq<LineError>, item: Item): Phase {
    var failed := errors + [LineError(item.line, item.original)];
    if item.logical.Header? then
      var name := item.logical.name;
      if name == "" then Phase(st, name, failed, None)
      else
        var r := EnterSection(o, st, name, item.line);
        Phase(r.store, name, errors, r.thrown)
    else
      var e := EnsureSection(o, st, section, item.line);
      var section' := ImplicitSection(o, section);
      if e.thrown.Some? then Phase(e.store, section, errors, e.thrown)
      else if item.logical.Junk? then Phase(e.store, section', failed, None)
      else
        var r := PutOption(o, e.store, section', ToLower(item.logical.key), ItemValue(item), item.line);
        Phase(r.store, section', errors, r.thrown)
  }

  /** Phase two. */
  function Interpret(o: ParseOptions, st: Store, section: string, errors: seq<LineError>, items: seq<Item>): Outcome
    decreases |items|
  {
    if items == [] then Outcome(st, if errors == [] then None else Some(Combined(errors)))
    else
      var p := ApplyItem(o, st, section, errors, items[0]);
      if p.thrown.Some? then Outcome(p.store, p.thrown)
      else Interpret(o, p.store, p.section, p.errors, items[1..])
  }

  /** The streaming parser from any point of a text on. */
  function Run(o: ParseOptions, st: Store, c: Cursor, lines: seq<string>, line: nat): Outcome {
    AtEnd(o, ParseLines(o, st, c, lines, line))
  }

  /** Replacing a section's entries moves no section. */
  lemma SlotStays(o: ParseOptions, st: Store, section: string, items: Items)
    requires !SlotOf(o, st, section).Missing?
    ensures SlotOf(o, WithItems(st, SlotOf(o, st, section), items), section) == SlotOf(o, st, section)
  {
    var slot := SlotOf(o, st, section);
    var s1 := WithItems(st, slot, items);
    if slot.Stored? {
      assert forall i :: 0 <= i < |st.sections| ==> s1.sections[i].name == st.sections[i].name;
      assert FindSection(s1.sections, section) == slot.index;
    }
  }

  lemma PutTwice(items: Items, key: string, first: OptionValue, second: OptionValue)
    ensures HasKey(PutItem(items, key, first), key)
    ensures PutItem(PutItem(items, key, first), key, second) == PutItem(items, key, second)
  {
    var once := PutItem(items, key, first);
    assert forall i :: 0 <= i < |items| ==> once[i].key == items[i].key;
    assert once[FindKey(items, key)].key == key;
    assert FindKey(once, key) == FindKey(items, key);
  }

  /** Storing the first line and overwriting it at the flush is storing the joined value at once. */
  lemma PutThenFinish(o: ParseOptions, st: Store, section: string, key: string, first: string, line: nat,
                      accum: seq<string>)
    requires key != ""
    requires PutOption(o, st, section, key, Some(first), line).thrown.None?
    ensures var s1 := PutOption(o, st, section, key, Some(first), line).store;
            var f := FinishMultiline(o, s1, section, key, accum);
            f == PutOption(o, st, section, key, Some(JoinLines(accum)), line)
  {
    var slot := SlotOf(o, st, section);
    var items := ItemsAt(st, slot);
    SlotStays(o, st, section, PutItem(items, key, Some(first)));
    PutTwice(items, key, Some(first), Some(JoinLines(accum)));
    hide PutItem, HasKey, JoinLines, SlotOf;
  }

  /** An open option is stored where the cursor says, so its flush cannot fail. */
  predicate Open(o: ParseOptions, st: Store, c: Cursor) {
    && c.inMultiline && c.option != ""
    && !SlotOf(o, st, c.section).Missing?
    && HasKey(ItemsAt(st, SlotOf(o, st, c.section)), c.option)
  }

  lemma FinishOpen(o: ParseOptions, st: Store, c: Cursor, accum: seq<string>)
    requires Open(o, st, c)
    ensures FinishMultiline(o, st, c.section, c.option, accum).thrown.None?
  {}

  /** A line that is neither blank nor indented flushes the open option and is then read with nothing pending. */
  lemma FlushStep(o: ParseOptions, st: Store, c: Cursor, original: string, cleaned: string, line: nat)
    requires Open(o, st, c) && cleaned != "" && !Indented(original)
    ensures ParseLine(o, st, c, original, cleaned, line) ==
            ParseLine(o, FinishMultiline(o, st, c.section, c.option, c.accum).store,
                      c.(accum := [], inMultiline := false), original, cleaned, line)
  {
    FinishOpen(o, st, c, c.accum);
    hide FinishMultiline, LogicalLine, Classify;
  }

  lemma RunStep(o: ParseOptions, st: Store, c: Cursor, lines: seq<string>, line: nat)
    requires lines != []
    ensures var s := ParseLine(o, st, c, lines[0], StripComment(o, lines[0]), line);
            Run(o, st, c, lines, line) ==
            if s.thrown.Some? then Outcome(s.store, s.thrown) else Run(o, s.store, s.cursor, lines[1..], line + 1)
  {
    hide ParseLine, StripComment, FinishMultiline;
  }

  lemma SegmentStep(o: ParseOptions, lines: seq<string>, line: nat)
    requires lines != [] && StripComment(o, lines[0]) != ""
    ensures var logical := Classify(o, StripComment(o, lines[0]));
            var k := if logical.Assign? then ContLen(o, lines[1..]) else 0;
            Segment(o, lines, line) ==
            [Item(line, lines[0], logical, Conts(o, lines[1..], k))] + Segment(o, lines[1..][k..], line + 1 + k)
  {
    hide Classify, StripComment, ContLen, Conts;
  }

  lemma SegmentSkips(o: ParseOptions, lines: seq<string>, line: nat)
    requires lines == [] || StripComment(o, lines[0]) == ""
    ensures Segment(o, lines, line) == if lines == [] then [] else Segment(o, lines[1..], line + 1)
  {
    hide StripComment;
  }

  lemma InterpretCons(o: ParseOptions, st: Store, section: string, errors: seq<LineError>, item: Item, rest: seq<Item>)
    ensures var p := ApplyItem(o, st, section, errors, item);
            Interpret(o, st, section, errors, [item] + rest) ==
            if p.thrown.Some? then Outcome(p.store, p.thrown) else Interpret(o, p.store, p.section, p.errors, rest)
  {
    hide ApplyItem;
    assert ([item] + rest)[1..] == rest;
  }

  /** One logical line and its item agree: same store, same exception, same section and errors after;
      for an assignment, once the lines it owns have been flushed. */
  lemma StepIsItem(o: ParseOptions, st: Store, c: Cursor, item: Item)
    requires !c.inMultiline
    requires item.logical.Assign? ==> item.logical.key != ""
    ensures var s := LogicalLine(o, st, c, item.original, item.logical, item.line);
            var p := ApplyItem(o, st, c.section, c.errors, item);
            && s.thrown == p.thrown
            && (p.thrown.Some? || !item.logical.Assign? ==> s.store == p.store)
            && (p.thrown.None? ==>
                  && s.cursor.section == p.section && s.cursor.errors == p.errors
                  && s.cursor.inMultiline == item.logical.Assign?)
            && (p.thrown.None? && item.logical.Assign? ==>
                  && Open(o, s.store, s.cursor) && s.cursor.accum == [item.logical.text]
                  && FinishMultiline(o, s.store, p.section, s.cursor.option, [item.logical.text] + item.conts).store
                     == p.store)
            && (p.thrown.None? && item.logical.Assign?
                && JoinLines([item.logical.text] + item.conts) == item.logical.text
                ==> s.store == p.store)
  {
    var p := ApplyItem(o, st, c.section, c.errors, item);
    if item.logical.Assign? {
      var e := EnsureSection(o, st, c.section, item.line);
      if e.thrown.None? {
        var section, key := ImplicitSection(o, c.section), ToLower(item.logical.key);
        if p.thrown.None? {
          PutThenFinish(o, e.store, section, key, item.logical.text, item.line, [item.logical.text] + item.conts);
          PutOpens(o, e.store, section, key, Some(item.logical.text), item.line);
        }
        hide FinishMultiline, JoinLines;
      }
    }
  }

  lemma PutOpens(o: ParseOptions, st: Store, section: string, key: string, value: OptionValue, line: nat)
    requires PutOption(o, st, section, key, value, line).thrown.None?
    ensures var s1 := PutOption(o, st, section, key, value, line).store;
            !SlotOf(o, s1, section).Missing? && HasKey(ItemsAt(s1, SlotOf(o, s1, section)), key)
  {
    var items := ItemsAt(st, SlotOf(o, st, section));
    SlotStays(o, st, section, PutItem(items, key, value));
    PutTwice(items, key, value, value);
    hide PutItem, HasKey, SlotOf;
  }

  lemma AssignKey(o: ParseOptions, cleaned: string)
    requires cleaned != "" && Classify(o, cleaned).Assign?
    ensures var l := Classify(o, cleaned);
            l.key != "" && JoinLines([l.text] + []) == l.text
  {
    hide FirstDelimiter;
    var text := Classify(o, cleaned).text;
    assert IsTrimmed(text);
    assert text == text + "" && [text] + [] == [text];
    TrimRightUnique(text, "");
  }

  lemma ContsKept(o: ParseOptions, lines: seq<string>, k: nat)
    requires k <= |lines| && o.emptyLinesInValues
    ensures Conts(o, lines, k) == Cleaned(o, lines[..k])
  {}

  lemma ContsAre(o: ParseOptions, lines: seq<string>, k: nat)
    requires k <= |lines|
    ensures Conts(o, lines, k) == if Dropped(o, lines, k) then [] else Cleaned(o, lines[..k])
  {}

  lemma {:induction false} ClosedRun(o: ParseOptions, st: Store, c: Cursor, lines: seq<string>, line: nat)
    requires !c.inMultiline
    ensures Run(o, st, c, lines, line) == Interpret(o, st, c.section, c.errors, Segment(o, lines, line))
    decreases |lines|, 1
  {
    hide StripComment, LogicalLine, Classify;
    if lines != [] {
      if StripComment(o, lines[0]) == "" {
        RunStep(o, st, c, lines, line);
        ClosedRun(o, st, c.(inMultiline := false), lines[1..], line + 1);
      } else {
        LogicalRun(o, st, c, lines, line);
      }
    }
  }

  /** From a logical line with nothing pending, the parser does what the item it starts says. */
  lemma {:induction false} LogicalRun(o: ParseOptions, st: Store, c: Cursor, lines: seq<string>, line: nat)
    requires !c.inMultiline
    requires lines != [] && StripComment(o, lines[0]) != ""
    ensures Run(o, st, c, lines, line) == Interpret(o, st, c.section, c.errors, Segment(o, lines, line))
    decreases |lines|, 0
  {
    hide *;
    var cleaned := StripComment(o, lines[0]);
    var logical := Classify(o, cleaned);
    var tail := lines[1..];
    var k := if logical.Assign? then ContLen(o, tail) else 0;
    var item := Item(line, lines[0], logical, Conts(o, tail, k));
    RunStep(o, st, c, lines, line);
    SegmentStep(o, lines, line);
    InterpretCons(o, st, c.section, c.errors, item, Segment(o, tail[k..], line + 1 + k));
    if logical.Assign? {
      AssignKey(o, cleaned);
    }
    StepIsItem(o, st, c, item);
    ClosedLine(o, st, c, lines[0], cleaned, line);
    var s := LogicalLine(o, st, c, lines[0], logical, line);
    if s.thrown.None? {
      if logical.Assign? {
        OpenRun(o, s.store, s.cursor, tail, line + 1);
        ContsAre(o, tail, k);
      } else {
        assert tail[0..] == tail;
        ClosedRun(o, s.store, s.cursor, tail, line + 1);
      }
    }
  }

  lemma ClosedLine(o: ParseOptions, st: Store, c: Cursor, original: string, cleaned: string, line: nat)
    requires !c.inMultiline && cleaned != ""
    ensures ParseLine(o, st, c, original, cleaned, line) ==
            LogicalLine(o, st, c, original, Classify(o, cleaned), line)
  {
    hide LogicalLine, Classify;
  }

  /** With an option open, the lines that go on its value are its, and are flushed before anything else, unless a
      blank line that may not go on it comes first. */
  lemma {:induction false} OpenRun(o: ParseOptions, st: Store, c: Cursor, lines: seq<string>, line: nat)
    requires Open(o, st, c)
    ensures var k := ContLen(o, lines);
            var f := FinishMultiline(o, st, c.section, c.option, c.accum + Cleaned(o, lines[..k]));
            var st' := if Dropped(o, lines, k) then st else f.store;
            Run(o, st, c, lines, line) == Interpret(o, st', c.section, c.errors, Segment(o, lines[k..], line + k))
    decreases |lines|, 2
  {
    hide *;
    if lines == [] {
      OpenEnd(o, st, c, line);
    } else if ContLen(o, lines) == 0 {
      assert lines[0..] == lines;
      assert c.accum + Cleaned(o, lines[..0]) == c.accum;
      DroppedNow(o, lines);
      if StripComment(o, lines[0]) == "" {
        BlankEnds(o, st, c, lines, line);
        ClosedRun(o, st, c.(inMultiline := false), lines, line);
      } else {
        FlushRun(o, st, c, lines, line);
        LogicalRun(o, FinishMultiline(o, st, c.section, c.option, c.accum).store,
                   c.(accum := [], inMultiline := false), lines, line);
      }
    } else {
      var k := ContLen(o, lines);
      ContLine(o, st, c, lines, line);
      var c' := c.(accum := c.accum + [StripComment(o, lines[0])]);
      var tail := lines[1..];
      OpenRun(o, st, c', tail, line + 1);
      CleanedCons(o, lines, k, c.accum);
      DroppedLater(o, lines, k);
      assert lines[k..] == tail[k - 1..];
    }
  }

  lemma DroppedNow(o: ParseOptions, lines: seq<string>)
    requires lines != [] && ContLen(o, lines) == 0
    ensures Dropped(o, lines, 0) <==> StripComment(o, lines[0]) == ""
  {
    hide StripComment;
  }

  lemma DroppedLater(o: ParseOptions, lines: seq<string>, k: nat)
    requires 1 <= k && lines != []
    ensures Dropped(o, lines, k) <==> Dropped(o, lines[1..], k - 1)
  {
    hide StripComment;
  }

  /** A blank line that ends the value closes the option without storing what was pending. */
  lemma BlankEnds(o: ParseOptions, st: Store, c: Cursor, lines: seq<string>, line: nat)
    requires lines != [] && ContLen(o, lines) == 0 && StripComment(o, lines[0]) == ""
    ensures Run(o, st, c, lines, line) == Run(o, st, c.(inMultiline := false), lines, line)
  {
    RunStep(o, st, c, lines, line);
    RunStep(o, st, c.(inMultiline := false), lines, line);
    hide Run, StripComment, FinishMultiline, LogicalLine, Classify;
  }

  lemma CleanedCons(o: ParseOptions, lines: seq<string>, k: nat, accum: seq<string>)
    requires 1 <= k <= |lines|
    ensures accum + Cleaned(o, lines[..k]) ==
            accum + [StripComment(o, lines[0])] + Cleaned(o, lines[1..][..k - 1])
  {
    hide StripComment;
    assert lines[..k] == [lines[0]] + lines[1..][..k - 1];
  }

  lemma OpenEnd(o: ParseOptions, st: Store, c: Cursor, line: nat)
    requires Open(o, st, c)
    ensures ContLen(o, []) == 0 && c.accum + Cleaned(o, []) == c.accum && !Dropped(o, [], 0)
    ensures Run(o, st, c, [], line) ==
            Interpret(o, FinishMultiline(o, st, c.section, c.option, c.accum).store, c.section, c.errors,
                Segment(o, [], line))
  {
    FinishOpen(o, st, c, c.accum);
    hide FinishMultiline, Open;
  }

  /** A blank or indented line joins the open option's pending lines. */
  lemma ContLine(o: ParseOptions, st: Store, c: Cursor, lines: seq<string>, line: nat)
    requires Open(o, st, c)
    requires lines != [] && ContLen(o, lines) > 0
    ensures var c' := c.(accum := c.accum + [StripComment(o, lines[0])]);
            && Open(o, st, c')
            && Run(o, st, c, lines, line) == Run(o, st, c', lines[1..], line + 1)
            && ContLen(o, lines) == 1 + ContLen(o, lines[1..])
  {
    RunStep(o, st, c, lines, line);
    hide Run, StripComment, FinishMultiline, LogicalLine, Classify;
  }

  lemma FlushRun(o: ParseOptions, st: Store, c: Cursor, lines: seq<string>, line: nat)
    requires Open(o, st, c) && lines != [] && ContLen(o, lines) == 0 && StripComment(o, lines[0]) != ""
    ensures Run(o, st, c, lines, line) ==
            Run(o, FinishMultiline(o, st, c.section, c.option, c.accum).store,
                c.(accum := [], inMultiline := false), lines, line)
  {
    var f := FinishMultiline(o, st, c.section, c.option, c.accum);
    FlushStep(o, st, c, lines[0], StripComment(o, lines[0]), line);
    RunStep(o, st, c, lines, line);
    RunStep(o, f.store, c.(accum := [], inMultiline := false), lines, line);
  }

  /** Main result: reading a text is cutting it into items and applying them, on every input,
      with the same store afterwards, the same errors and the same exception. */
  lemma ReadIsTwoPhase(o: ParseOptions, st: Store, text: string)
    ensures ReadString(o, st, text) == Interpret(o, st, "", [], Segment(o, Lines(text), 1))
  {
    ClosedRun(o, st, START, Lines(text), 1);
  }
}
