/** What write_to_string refuses, and what it writes, from the entries alone. */
module IniWritten {
  import opened Text
  import opened IniStore
  import opened IniPrint

  // ---------------------------------------------------------------- refusal

  /** The entry is written with a delimiter after its key. */
  predicate WithDelimiter(o: ParseOptions, e: Entry) {
    e.value.Some? || !o.allowNoValue
  }

  /** The key would be read back as something else: it starts with a bracket, or a delimiter occurs in it. */
  ghost predicate Misread(o: ParseOptions, key: string) {
    || "[" <= key
    || exists d, i: nat :: d in o.delimiters && MatchAt(key, d, i)
  }

  ghost predicate Refused(o: ParseOptions, items: Items) {
    exists i :: 0 <= i < |items| && WithDelimiter(o, items[i]) && Misread(o, items[i].key)
  }

  lemma MisreadIs(o: ParseOptions, key: string)
    ensures Misread(o, key) <==> !WritableKey(o, key)
  {
    hide MatchAt;
    if WritableKey(o, key) {
      forall d, i: nat | d in o.delimiters
        ensures !MatchAt(key, d, i)
      {
        assert Find(key, d, 0).None?;
      }
    } else if !("[" <= key) {
      var d :| d in o.delimiters && Find(key, d, 0).Some?;
      assert MatchAt(key, d, Find(key, d, 0).value);
    }
  }

  lemma RefusedIs(o: ParseOptions, items: Items)
    ensures Refused(o, items) <==> !Writable(o, items)
  {
    hide Misread, WritableKey;
    forall i | 0 <= i < |items|
      ensures Misread(o, items[i].key) <==> !WritableKey(o, items[i].key)
    {
      MisreadIs(o, items[i].key);
    }
  }

  /** Writing is refused exactly for a store one of whose entries is written with a delimiter after a key that would be
      misread. */
  lemma RefusedExactly(o: ParseOptions, st: Store, spaced: bool)
    requires o.delimiters != []
    ensures Write(o, st, spaced) == Err(InvalidWrite) <==>
            Refused(o, st.defaults) || exists i :: 0 <= i < |st.sections| && Refused(o, st.sections[i].items)
    ensures Write(o, st, spaced).Err? ==> Write(o, st, spaced) == Err(InvalidWrite)
  {
    hide Refused, Writable, DefaultsText, SectionsText;
    RefusedIs(o, st.defaults);
    forall i | 0 <= i < |st.sections|
      ensures Refused(o, st.sections[i].items) <==> !Writable(o, st.sections[i].items)
    {
      RefusedIs(o, st.sections[i].items);
    }
  }

  // ---------------------------------------------------------------- what is written

  /** The entries of a section are written in order, each as it is written alone. */
  lemma {:induction false} BodyAppend(o: ParseOptions, a: Items, b: Items, spaced: bool, fold: bool)
    requires o.delimiters != []
    ensures BodyText(o, a + b, spaced, fold) == BodyText(o, a, spaced, fold) + BodyText(o, b, spaced, fold)
  {
    hide EntryText;
    if a == [] {
      NilConcat(b);
      NilConcat(BodyText(o, b, spaced, fold));
    } else {
      assert (a + b)[1..] == a[1..] + b;
      BodyAppend(o, a[1..], b, spaced, fold);
      Assoc(EntryText(o, a[0], spaced, fold), BodyText(o, a[1..], spaced, fold), BodyText(o, b, spaced, fold));
    }
  }

  lemma {:induction false} SectionsAppend(o: ParseOptions, a: seq<Section>, b: seq<Section>, spaced: bool)
    requires o.delimiters != []
    ensures SectionsText(o, a + b, spaced) == SectionsText(o, a, spaced) + SectionsText(o, b, spaced)
  {
    hide BodyText, HeaderText;
    if a == [] {
      NilConcat(b);
      NilConcat(SectionsText(o, b, spaced));
    } else {
      assert (a + b)[1..] == a[1..] + b;
      SectionsAppend(o, a[1..], b, spaced);
      var s := a[0];
      var first := (if s.name != UNNAMED_SECTION then HeaderText(s.name) else "")
                   + BodyText(o, s.items, spaced, true) + "\n";
      Assoc(first, SectionsText(o, a[1..], spaced), SectionsText(o, b, spaced));
    }
  }

  /** What goes between a key and its value. */
  function Between(o: ParseOptions, spaced: bool): string
    requires o.delimiters != []
  {
    if spaced then " " + o.delimiters[0] + " " else o.delimiters[0]
  }

  lemma FoldTwo(a: string, b: string)
    requires Lacks(a, '\n') && Lacks(b, '\n')
    ensures Fold(a + "\n" + b) == a + "\n\t" + b
  {
    hide Fold;
    FoldConcat(a + "\n", b);
    FoldConcat(a, "\n");
    FoldLine(a);
    FoldLine(b);
    FoldNewline();
    Assoc(a, "\n\t", b);
  }

  lemma FoldNewline()
    ensures Fold("\n") == "\n\t"
  {
    assert Fold("") == "";
  }

  lemma BodyOne(o: ParseOptions, e: Entry, spaced: bool, fold: bool)
    requires o.delimiters != []
    ensures BodyText(o, [e], spaced, fold) == EntryText(o, e, spaced, fold)
  {
    hide EntryText;
    assert [e][1..] == [];
    NilConcat(EntryText(o, e, spaced, fold));
  }

  lemma SectionOne(o: ParseOptions, s: Section, spaced: bool)
    requires o.delimiters != []
    ensures SectionsText(o, [s], spaced) ==
            (if s.name == UNNAMED_SECTION then "" else "[" + s.name + "]\n") + BodyText(o, s.items, spaced, true) + "\n"
  {
    hide BodyText;
    assert [s][1..] == [];
    NilConcat(BodyText(o, s.items, spaced, true) + "\n");
    var head := if s.name == UNNAMED_SECTION then "" else "[" + s.name + "]\n";
    NilConcat(head + BodyText(o, s.items, spaced, true) + "\n");
  }

  /** A DEFAULT entry stands under the default header as it is, newlines and all. */
  lemma DefaultWritten(o: ParseOptions, key: string, v: string, spaced: bool)
    requires o.delimiters != [] && !Misread(o, key)
    ensures Write(o, Store([Entry(key, Some(v))], []), spaced) ==
            Ok("[" + o.defaultSection + "]\n" + (key + Between(o, spaced) + v + "\n") + "\n")
  {
    hide BodyText, Misread, WritableKey;
    MisreadIs(o, key);
    BodyOne(o, Entry(key, Some(v)), spaced, false);
    var t := "[" + o.defaultSection + "]\n" + (key + Between(o, spaced) + v + "\n") + "\n";
    NilConcat(t);
  }

  /** A section stands under its header, the unnamed one under none; after a newline in a value comes a tab; an entry
      without a value is its key alone where values may be missing, and otherwise an empty value; a blank line ends
      it. */
  lemma SectionWritten(o: ParseOptions, name: string, key: string, a: string, b: string, bare: string, spaced: bool)
    requires o.delimiters != [] && !Misread(o, key) && !Misread(o, bare) && Lacks(a, '\n') && Lacks(b, '\n')
    ensures Write(o, Store([], [Section(name, [Entry(key, Some(a + "\n" + b)), Entry(bare, None)])]), spaced) ==
            Ok((if name == UNNAMED_SECTION then "" else "[" + name + "]\n")
               + ((key + Between(o, spaced) + (a + "\n\t" + b) + "\n")
                  + (if o.allowNoValue then bare + "\n" else bare + Between(o, spaced) + "" + "\n"))
               + "\n")
  {
    hide BodyText, SectionsText, Misread, WritableKey, Fold, Lacks;
    MisreadIs(o, key);
    MisreadIs(o, bare);
    FoldTwo(a, b);
    FoldNothing();
    var e, f := Entry(key, Some(a + "\n" + b)), Entry(bare, None);
    assert [e, f] == [e] + [f];
    BodyAppend(o, [e], [f], spaced, true);
    BodyOne(o, e, spaced, true);
    BodyOne(o, f, spaced, true);
    SectionOne(o, Section(name, [e, f]), spaced);
    NilConcat(SectionsText(o, [Section(name, [e, f])], spaced));
  }

  lemma FoldNothing()
    ensures Fold("") == ""
  {}

  /** A longer store is written piece by piece: DEFAULT first, then the sections in order, each as it is written
      alone. */
  lemma WrittenInOrder(o: ParseOptions, st: Store, more: seq<Section>, spaced: bool)
    requires o.delimiters != []
    ensures var front, back := Write(o, st, spaced), Write(o, Store([], more), spaced);
            Write(o, Store(st.defaults, st.sections + more), spaced) ==
            if front.Ok? && back.Ok? then Ok(front.value + back.value) else Err(InvalidWrite)
  {
    hide Writable, DefaultsText, SectionsText, BodyText;
    var all := st.sections + more;
    SectionsAppend(o, st.sections, more, spaced);
    WritableAppend(o, st.sections, more);
    NothingFirst(o, spaced);
    Assoc(DefaultsText(o, st.defaults, spaced), SectionsText(o, st.sections, spaced), SectionsText(o, more, spaced));
    NilConcat(SectionsText(o, more, spaced));
  }

  lemma WritableAppend(o: ParseOptions, a: seq<Section>, b: seq<Section>)
    ensures AllWritable(o, a + b) <==> AllWritable(o, a) && AllWritable(o, b)
  {
    hide Writable;
    var all := a + b;
    if AllWritable(o, all) {
      forall i | 0 <= i < |a|
        ensures Writable(o, a[i].items)
      {
        assert all[i] == a[i];
      }
      forall i | 0 <= i < |b|
        ensures Writable(o, b[i].items)
      {
        assert all[|a| + i] == b[i];
      }
    }
  }

  lemma NothingFirst(o: ParseOptions, spaced: bool)
    requires o.delimiters != []
    ensures DefaultsText(o, [], spaced) == "" && Writable(o, [])
  {}
}
