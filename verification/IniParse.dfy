/** The meaning of reading INI text, line by line, as the streaming parser does it:
    comment stripping, one step of the line state machine, and the fold over a text. */
module IniParse {
  import opened Text
  import opened IniStore

  // ---------------------------------------------------------------- comments

  predicate HasCommentPrefix(prefixes: seq<string>, t: string) {
    exists i :: 0 <= i < |prefixes| && prefixes[i] != "" && StartsWith(t, prefixes[i])
  }

  /** An inline prefix starts a comment at the first character or after white space. */
  predicate CutsAt(s: string, prefix: string, i: nat) {
    MatchAt(s, prefix, i) && (i == 0 || IsSpace(s[i - 1]))
  }

  /** The text before the first inline comment this prefix starts at or after `from`. */
  function CutInline(s: string, prefix: string, from: nat): string
    requires prefix != ""
    decreases |s| - from
  {
    if from >= |s| then s
    else if CutsAt(s, prefix, from) then s[..from]
    else CutInline(s, prefix, from + 1)
  }

  function CutAllInline(s: string, prefixes: seq<string>): string
    decreases |prefixes|
  {
    if prefixes == [] then s
    else CutAllInline(if prefixes[0] == "" then s else CutInline(s, prefixes[0], 0), prefixes[1..])
  }

  function StripComment(o: ParseOptions, line: string): (r: string)
    ensures IsTrimmed(r)
  {
    if HasCommentPrefix(o.commentPrefixes, Trim(line)) then ""
    else Trim(CutAllInline(line, o.inlineCommentPrefixes))
  }

  lemma {:induction false} CutInlineWhere(s: string, prefix: string, from: nat)
    requires prefix != "" && from <= |s|
    ensures var r := CutInline(s, prefix, from);
            && from <= |r| && r <= s && (|r| < |s| ==> CutsAt(s, prefix, |r|))
            && forall i :: from <= i < |r| ==> !CutsAt(s, prefix, i)
    decreases |s| - from
  {
    hide CutsAt;
    if from < |s| {
      CutInlineWhere(s, prefix, from + 1);
    }
  }

  /** What cuts a front of a text cuts the text there. */
  lemma CutsInFront(r: string, s: string, prefix: string, i: nat)
    requires r <= s && CutsAt(r, prefix, i)
    ensures CutsAt(s, prefix, i) && (prefix != "" ==> i < |r|)
  {
    assert s[i..i + |prefix|] == r[i..i + |prefix|];
  }

  /** None of these prefixes starts a comment anywhere. */
  predicate Uncommented(s: string, prefixes: seq<string>) {
    forall k, i :: 0 <= k < |prefixes| && prefixes[k] != "" && 0 <= i < |s| ==> !CutsAt(s, prefixes[k], i)
  }

  predicate CutBySome(s: string, prefixes: seq<string>, at: nat) {
    exists k :: 0 <= k < |prefixes| && prefixes[k] != "" && CutsAt(s, prefixes[k], at)
  }

  lemma {:induction false} CutAllWhere(s: string, prefixes: seq<string>)
    ensures var r := CutAllInline(s, prefixes);
            && r <= s && Uncommented(r, prefixes) && (|r| < |s| ==> CutBySome(s, prefixes, |r|))
    decreases |prefixes|
  {
    hide CutInline, CutsAt;
    if prefixes != [] {
      var first, rest := prefixes[0], prefixes[1..];
      var s1 := if first == "" then s else CutInline(s, first, 0);
      if first != "" {
        CutInlineWhere(s, first, 0);
      }
      CutAllWhere(s1, rest);
      var r := CutAllInline(s1, rest);
      forall k, i | 0 <= k < |prefixes| && prefixes[k] != "" && 0 <= i < |r|
        ensures !CutsAt(r, prefixes[k], i)
      {
        if k > 0 {
          assert rest[k - 1] == prefixes[k];
        } else if CutsAt(r, first, i) {
          CutsInFront(r, s, first, i);
        }
      }
      if |r| < |s1| {
        var k :| 0 <= k < |rest| && rest[k] != "" && CutsAt(s1, rest[k], |r|);
        CutsInFront(s1, s, rest[k], |r|);
        assert prefixes[k + 1] == rest[k];
      } else if |r| < |s| {
        assert CutsAt(s, prefixes[0], |r|);
      }
    }
  }

  /** strip_comment: nothing is left of a comment line; of any other, the trimmed front up to a place where some
      inline prefix starts a comment, or all of it, and no inline comment starts in what is left before trimming. */
  lemma CommentCut(o: ParseOptions, line: string) returns (at: nat)
    ensures at <= |line| && (at < |line| ==> CutBySome(line, o.inlineCommentPrefixes, at))
    ensures Uncommented(line[..at], o.inlineCommentPrefixes)
    ensures StripComment(o, line) == if HasCommentPrefix(o.commentPrefixes, Trim(line)) then "" else Trim(line[..at])
  {
    hide CutAllInline, Trim, HasCommentPrefix, Uncommented, CutBySome;
    CutAllWhere(line, o.inlineCommentPrefixes);
    at := |CutAllInline(line, o.inlineCommentPrefixes)|;
    assert line[..at] == CutAllInline(line, o.inlineCommentPrefixes);
  }

  // ---------------------------------------------------------------- delimiters

  datatype Hit = Hit(pos: nat, delim: string)

  /** The leftmost occurrence of any delimiter; of delimiters at one place, the first listed. */
  function FirstDelimiter(s: string, delims: seq<string>): (r: Option<Hit>)
    ensures r.Some? ==> r.value.delim in delims && MatchAt(s, r.value.delim, r.value.pos)
    ensures r.Some? ==> forall d, i: nat :: d in delims && i < r.value.pos ==> !MatchAt(s, d, i)
    ensures r.None? ==> forall d, i: nat :: d in delims ==> !MatchAt(s, d, i)
  {
    if delims == [] then None
    else
      var last := |delims| - 1;
      var best, found := FirstDelimiter(s, delims[..last]), Find(s, delims[last], 0);
      assert forall d :: d in delims ==> d in delims[..last] || d == delims[last];
      if found.Some? && (best.None? || found.value < best.value.pos)
      then Some(Hit(found.value, delims[last]))
      else best
  }

  /** What a cleaned, non-empty line says. */
  datatype Logical =
    | Header(name: string)
    | Assign(key: string, text: string)
    | Bare(key: string)
    | Junk

  function Classify(o: ParseOptions, cleaned: string): Logical
    requires cleaned != ""
  {
    if cleaned[0] == '[' && cleaned[|cleaned| - 1] == ']' then Header(cleaned[1..|cleaned| - 1])
    else
      var hit := FirstDelimiter(cleaned, o.delimiters);
      if hit.None? then
        if !o.allowNoValue || Trim(cleaned) == "" then Junk else Bare(Trim(cleaned))
      else
        var key := Trim(cleaned[..hit.value.pos]);
        if key == "" then Junk
        else Assign(key, Trim(cleaned[hit.value.pos + |hit.value.delim|..]))
  }

  // ---------------------------------------------------------------- store effects

  /** A new store, and the exception thrown after reaching it, if any. */
  datatype Outcome = Outcome(store: Store, thrown: Option<Error>)

  function AppendSection(st: Store, name: string): Store {
    st.(sections := st.sections + [Section(name, [])])
  }

  /** A non-empty section header. */
  function EnterSection(o: ParseOptions, st: Store, name: string, line: nat): Outcome {
    if name != o.defaultSection && !HasStored(st, name) then Outcome(AppendSection(st, name), None)
    else if name != o.defaultSection && o.strict then Outcome(st, Some(Located(DuplicateSection, line)))
    else Outcome(st, None)
  }

  /** The section an option line belongs to when no header came before it. */
  function ImplicitSection(o: ParseOptions, section: string): string {
    if section == "" && o.allowUnnamedSection then UNNAMED_SECTION else section
  }

  function EnsureSection(o: ParseOptions, st: Store, section: string, line: nat): Outcome {
    if section != "" then Outcome(st, None)
    else if !o.allowUnnamedSection then Outcome(st, Some(Located(MissingSectionHeader, line)))
    else if HasStored(st, UNNAMED_SECTION) then Outcome(st, None)
    else Outcome(AppendSection(st, UNNAMED_SECTION), None)
  }

  /** Store an option read from a line; `key` is already folded to lower case. */
  function PutOption(o: ParseOptions, st: Store, section: string, key: string, value: OptionValue, line: nat): Outcome {
    var slot := SlotOf(o, st, section);
    if slot.Missing? then Outcome(st, Some(Plain(NoSection)))
    else if HasKey(ItemsAt(st, slot), key) && o.strict then Outcome(st, Some(Located(DuplicateOption, line)))
    else Outcome(WithItems(st, slot, PutItem(ItemsAt(st, slot), key, value)), None)
  }

  /** join_lines: lines with '\n' between them, trailing white space dropped. */
  function JoinLines(ls: seq<string>): string {
    TrimRight(Join(ls))
  }

  /** finish_multiline: the accumulated lines become the option's value. */
  function FinishMultiline(o: ParseOptions, st: Store, section: string, option: string, accum: seq<string>): Outcome {
    if option == "" then Outcome(st, None)
    else
      var slot := SlotOf(o, st, section);
      if slot.Missing? then Outcome(st, Some(Plain(NoSection)))
      else if !HasKey(ItemsAt(st, slot), option) then Outcome(st, None)
      else Outcome(WithItems(st, slot, PutItem(ItemsAt(st, slot), option, Some(JoinLines(accum)))), None)
  }

  // ---------------------------------------------------------------- the line state machine

  /** The locals of read_string that parse_line updates. */
  datatype Cursor = Cursor(
    section: string, option: string, accum: seq<string>, inMultiline: bool, errors: seq<LineError>)

  const START := Cursor("", "", [], false, [])

  datatype Step = Step(store: Store, cursor: Cursor, thrown: Option<Error>)

  predicate Indented(line: string) {
    line != "" && IsSpace(line[0])
  }

  /** A line that is neither blank nor the continuation of a value, once pending lines are flushed. */
  function LogicalLine(o: ParseOptions, st: Store, c: Cursor, original: string, logical: Logical, line: nat): Step {
    if logical.Header? then
      var c' := c.(section := logical.name, option := "");
      if logical.name == "" then Step(st, c'.(errors := c.errors + [LineError(line, original)]), None)
      else
        var r := EnterSection(o, st, logical.name, line);
        Step(r.store, c', r.thrown)
    else
      var e := EnsureSection(o, st, c.section, line);
      if e.thrown.Some? then Step(e.store, c, e.thrown)
      else
        var c' := c.(section := ImplicitSection(o, c.section));
        if logical.Junk? then Step(e.store, c'.(errors := c.errors + [LineError(line, original)]), None)
        else
          var key := ToLower(logical.key);
          var value := if logical.Assign? then Some(logical.text) else None;
          var r := PutOption(o, e.store, c'.section, key, value, line);
          if r.thrown.Some? then Step(r.store, c', r.thrown)
          else
            var accum := if logical.Assign? then [logical.text] else [];
            Step(r.store, c'.(option := key, accum := accum, inMultiline := logical.Assign?), None)
  }

  /** parse_line. */
  function ParseLine(o: ParseOptions, st: Store, c: Cursor, original: string, cleaned: string, line: nat): Step {
    if cleaned == "" then
      if c.inMultiline && o.emptyLinesInValues
      then Step(st, c.(accum := c.accum + [""]), None)
      else Step(st, c.(inMultiline := false), None)
    else if c.inMultiline && c.option != "" && Indented(original) then
      Step(st, c.(accum := c.accum + [cleaned]), None)
    else if c.inMultiline && c.option != "" then
      var f := FinishMultiline(o, st, c.section, c.option, c.accum);
      if f.thrown.Some? then Step(f.store, c, f.thrown)
      else LogicalLine(o, f.store, c.(accum := [], inMultiline := false), original, Classify(o, cleaned), line)
    else LogicalLine(o, st, c, original, Classify(o, cleaned), line)
  }

  /** The getline loop of read_string. */
  function ParseLines(o: ParseOptions, st: Store, c: Cursor, lines: seq<string>, line: nat): Step
    decreases |lines|
  {
    if lines == [] then Step(st, c, None)
    else
      var s := ParseLine(o, st, c, lines[0], StripComment(o, lines[0]), line);
      if s.thrown.Some? then s else ParseLines(o, s.store, s.cursor, lines[1..], line + 1)
  }

  lemma OneStep(o: ParseOptions, line: string)
    ensures ParseLines(o, EMPTY_STORE, START, [line], 1) ==
            ParseLine(o, EMPTY_STORE, START, line, StripComment(o, line), 1)
  {
    hide ParseLine, StripComment;
    assert [line][1..] == [];
  }

  /** The flush at the end of input, and the combined error report. */
  function AtEnd(o: ParseOptions, s: Step): Outcome {
    if s.thrown.Some? then Outcome(s.store, s.thrown)
    else
      var c := s.cursor;
      var f := if c.inMultiline && c.option != ""
               then FinishMultiline(o, s.store, c.section, c.option, c.accum)
               else Outcome(s.store, None);
      if f.thrown.None? && c.errors != [] then Outcome(f.store, Some(Combined(c.errors))) else f
  }

  /** read_string: the store afterwards, also when it throws. */
  function ReadString(o: ParseOptions, st: Store, text: string): Outcome {
    AtEnd(o, ParseLines(o, st, START, Lines(text), 1))
  }
}
