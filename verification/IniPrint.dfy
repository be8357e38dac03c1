/** The meaning of write_to_string, as text and as the list of lines that text consists of. */
module IniPrint {
  import opened Text
  import opened IniStore

  /** A newline inside a section value is followed by a tab in the output. */
  function Fold(v: string): string {
    if v == "" then ""
    else if v[0] == '\n' then "\n\t" + Fold(v[1..])
    else [v[0]] + Fold(v[1..])
  }

  function Delimiter(o: ParseOptions, spaced: bool): string
    requires o.delimiters != []
  {
    if spaced then " " + o.delimiters[0] + " " else o.delimiters[0]
  }

  /** A key that could be read back as something else is refused. */
  predicate WritableKey(o: ParseOptions, key: string) {
    && !(key != "" && key[0] == '[')
    && forall d :: d in o.delimiters ==> Find(key, d, 0).None?
  }

  /** Only with allow_no_value does an absent value print as a bare key. */
  predicate PrintsBare(o: ParseOptions, e: Entry) {
    e.value.None? && o.allowNoValue
  }

  function Shown(e: Entry): string {
    if e.value.Some? then e.value.value else ""
  }

  function EntryText(o: ParseOptions, e: Entry, spaced: bool, fold: bool): string
    requires o.delimiters != []
  {
    if PrintsBare(o, e) then e.key + "\n"
    else e.key + Delimiter(o, spaced) + (if fold then Fold(Shown(e)) else Shown(e)) + "\n"
  }

  function BodyText(o: ParseOptions, items: Items, spaced: bool, fold: bool): string
    requires o.delimiters != []
  {
    if items == [] then ""
    else EntryText(o, items[0], spaced, fold) + BodyText(o, items[1..], spaced, fold)
  }

  function HeaderText(name: string): string {
    "[" + name + "]\n"
  }

  function SectionsText(o: ParseOptions, sections: seq<Section>, spaced: bool): string
    requires o.delimiters != []
  {
    if sections == [] then ""
    else
      (if sections[0].name != UNNAMED_SECTION then HeaderText(sections[0].name) else "")
      + BodyText(o, sections[0].items, spaced, true) + "\n" + SectionsText(o, sections[1..], spaced)
  }

  predicate Writable(o: ParseOptions, items: Items) {
    forall i :: 0 <= i < |items| ==> PrintsBare(o, items[i]) || WritableKey(o, items[i].key)
  }

  predicate AllWritable(o: ParseOptions, sections: seq<Section>) {
    forall i :: 0 <= i < |sections| ==> Writable(o, sections[i].items)
  }

  /** DEFAULT is printed only when it has entries, and its values are not folded. */
  function DefaultsText(o: ParseOptions, defaults: Items, spaced: bool): string
    requires o.delimiters != []
  {
    if defaults == [] then ""
    else HeaderText(o.defaultSection) + BodyText(o, defaults, spaced, false) + "\n"
  }

  /** write_to_string. */
  function Write(o: ParseOptions, st: Store, spaced: bool): Result<string, ErrorCode>
    requires o.delimiters != []
  {
    if !Writable(o, st.defaults) || !AllWritable(o, st.sections) then Err(InvalidWrite)
    else Ok(DefaultsText(o, st.defaults, spaced) + SectionsText(o, st.sections, spaced))
  }

  // ---------------------------------------------------------------- the same output as lines

  function Tabbed(ls: seq<string>): (r: seq<string>)
    ensures |r| == |ls|
  {
    seq(|ls|, i requires 0 <= i < |ls| => "\t" + ls[i])
  }

  function EntryLines(key: string, delim: string, v: string, fold: bool): seq<string> {
    var ls := Split(v);
    [key + delim + ls[0]] + if fold then Tabbed(ls[1..]) else ls[1..]
  }

  /** The lines of a section's options; `bare` is allow_no_value. */
  function BodyLines(items: Items, delim: string, fold: bool, bare: bool := false): seq<string> {
    if items == [] then []
    else
      (if bare && items[0].value.None? then [items[0].key] else EntryLines(items[0].key, delim, Shown(items[0]), fold))
      + BodyLines(items[1..], delim, fold, bare)
  }

  function HeaderLine(name: string): string {
    "[" + name + "]"
  }

  function SectionHead(s: Section): seq<string> {
    if s.name != UNNAMED_SECTION then [HeaderLine(s.name)] else []
  }

  function SectionLines(sections: seq<Section>, delim: string, bare: bool := false): seq<string> {
    if sections == [] then []
    else
      SectionHead(sections[0]) + BodyLines(sections[0].items, delim, true, bare) + [""]
      + SectionLines(sections[1..], delim, bare)
  }

  function DefaultLines(o: ParseOptions, defaults: Items, delim: string, bare: bool := false): seq<string> {
    if defaults == [] then []
    else [HeaderLine(o.defaultSection)] + BodyLines(defaults, delim, false, bare) + [""]
  }

  function WriteLines(o: ParseOptions, st: Store, delim: string, bare: bool := false): seq<string> {
    DefaultLines(o, st.defaults, delim, bare) + SectionLines(st.sections, delim, bare)
  }

  lemma {:induction false} FoldConcat(a: string, b: string)
    ensures Fold(a + b) == Fold(a) + Fold(b)
  {
    if a == "" {
      assert a + b == b;
    } else {
      assert (a + b)[1..] == a[1..] + b;
      FoldConcat(a[1..], b);
    }
  }

  lemma {:induction false} FoldLine(l: string)
    requires Lacks(l, '\n')
    ensures Fold(l) == l
  {
    if l != "" {
      FoldLine(l[1..]);
    }
  }

  /** Folding a value is tabbing every line of it but the first. */
  lemma {:induction false} FoldJoin(ls: seq<string>)
    requires ls != [] && AllLack(ls)
    ensures Fold(Join(ls)) == Join([ls[0]] + Tabbed(ls[1..]))
  {
    FoldLine(ls[0]);
    if |ls| > 1 {
      var rest := ls[1..];
      FoldJoin(rest);
      FoldConcat(ls[0] + "\n", Join(rest));
      FoldConcat(ls[0], "\n");
      assert Fold("\n") == "\n\t";
      var tail := Tabbed(rest);
      assert tail == ["\t" + rest[0]] + Tabbed(rest[1..]);
      JoinFront("\t", [rest[0]] + Tabbed(rest[1..]));
      assert ([rest[0]] + Tabbed(rest[1..]))[1..] == Tabbed(rest[1..]);
      assert Join(tail) == "\t" + Join([rest[0]] + Tabbed(rest[1..]));
      assert ([ls[0]] + tail)[1..] == tail;
    } else {
      assert [ls[0]] + Tabbed(ls[1..]) == ls;
    }
  }

  lemma JoinFront(p: string, ls: seq<string>)
    requires ls != []
    ensures Join([p + ls[0]] + ls[1..]) == p + Join(ls)
  {
    hide *;
    var tail := ls[1..];
    JoinHead(ls[0], tail);
    JoinHead(p + ls[0], tail);
    HeadTail(ls);
    if tail != [] {
      Assoc(p, ls[0], "\n" + Join(tail));
    }
  }

  lemma JoinHead(l: string, tail: seq<string>)
    ensures Join([l] + tail) == if tail == [] then l else l + ("\n" + Join(tail))
  {
    if tail == [] {
      NilConcat([l]);
    } else {
      ConsTail(l, tail);
      Assoc(l, "\n", Join(tail));
    }
  }

  lemma {:induction false} UnlinesJoin(ls: seq<string>)
    requires ls != []
    ensures Unlines(ls) == Join(ls) + "\n"
  {
    if |ls| == 1 {
      assert Unlines(ls[1..]) == "";
    } else {
      UnlinesJoin(ls[1..]);
    }
  }

  lemma EntryTextLines(key: string, delim: string, v: string, fold: bool)
    ensures key + delim + (if fold then Fold(v) else v) + "\n" == Unlines(EntryLines(key, delim, v, fold))
  {
    var ls := Split(v);
    JoinOfSplit(v);
    SplitLack(v);
    FoldJoin(ls);
    var tail := if fold then Tabbed(ls[1..]) else ls[1..];
    JoinFront(key + delim, [ls[0]] + tail);
    assert ([ls[0]] + tail)[1..] == tail;
    assert [ls[0]] + ls[1..] == ls;
    UnlinesJoin(EntryLines(key, delim, v, fold));
  }

  lemma {:induction false} BodyTextLines(o: ParseOptions, items: Items, spaced: bool, fold: bool)
    requires o.delimiters != []
    ensures BodyText(o, items, spaced, fold) == Unlines(BodyLines(items, Delimiter(o, spaced), fold, o.allowNoValue))
  {
    hide EntryLines, Fold, Delimiter;
    if items != [] {
      var delim := Delimiter(o, spaced);
      var bare := PrintsBare(o, items[0]);
      var first := if bare then [items[0].key] else EntryLines(items[0].key, delim, Shown(items[0]), fold);
      UnlinesOne(items[0].key);
      EntryTextLines(items[0].key, delim, Shown(items[0]), fold);
      BodyTextLines(o, items[1..], spaced, fold);
      UnlinesConcat(first, BodyLines(items[1..], delim, fold, o.allowNoValue));
    }
  }

  lemma UnlinesOne(l: string)
    ensures Unlines([l]) == l + "\n"
  {
    assert [l][1..] == [];
  }

  lemma {:induction false} SectionsTextLines(o: ParseOptions, sections: seq<Section>, spaced: bool)
    requires o.delimiters != []
    ensures SectionsText(o, sections, spaced) == Unlines(SectionLines(sections, Delimiter(o, spaced), o.allowNoValue))
  {
    hide BodyText, BodyLines, Delimiter;
    if sections != [] {
      var delim := Delimiter(o, spaced);
      var head, body := SectionHead(sections[0]), BodyLines(sections[0].items, delim, true, o.allowNoValue);
      BodyTextLines(o, sections[0].items, spaced, true);
      SectionsTextLines(o, sections[1..], spaced);
      UnlinesOne(HeaderLine(sections[0].name));
      UnlinesOne("");
      UnlinesConcat(head, body);
      UnlinesConcat(head + body, [""]);
      UnlinesConcat(head + body + [""], SectionLines(sections[1..], delim, o.allowNoValue));
    }
  }

  lemma DefaultsTextLines(o: ParseOptions, defaults: Items, spaced: bool)
    requires o.delimiters != []
    ensures DefaultsText(o, defaults, spaced) ==
            Unlines(DefaultLines(o, defaults, Delimiter(o, spaced), o.allowNoValue))
  {
    var delim := Delimiter(o, spaced);
    BodyTextLines(o, defaults, spaced, false);
    hide BodyText, BodyLines, Delimiter;
    var head, body := [HeaderLine(o.defaultSection)], BodyLines(defaults, delim, false, o.allowNoValue);
    UnlinesOne(HeaderLine(o.defaultSection));
    UnlinesOne("");
    UnlinesConcat(head, body);
    UnlinesConcat(head + body, [""]);
  }

  /** The text written is exactly these lines, each ended by a newline. */
  lemma WriteTextLines(o: ParseOptions, st: Store, spaced: bool)
    requires o.delimiters != []
    ensures Write(o, st, spaced).Ok? ==>
              Write(o, st, spaced).value == Unlines(WriteLines(o, st, Delimiter(o, spaced), o.allowNoValue))
  {
    hide Delimiter, DefaultsText, DefaultLines, SectionsText, SectionLines, Writable, AllWritable;
    var delim := Delimiter(o, spaced);
    DefaultsTextLines(o, st.defaults, spaced);
    SectionsTextLines(o, st.sections, spaced);
    UnlinesConcat(DefaultLines(o, st.defaults, delim, o.allowNoValue),
        SectionLines(st.sections, delim, o.allowNoValue));
  }
}
