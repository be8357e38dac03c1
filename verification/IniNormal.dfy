/** What a read store always looks like, what a store must look like to be printed back,
    and how the shipped delimiters and comment prefixes classify a line. */
module IniNormal {
  import opened Text
  import opened IniStore
  import opened IniParse
  import opened IniPrint

  /** Delimiters and comment prefixes at their shipped defaults. */
  predicate Shipped(o: ParseOptions) {
    o.delimiters == ["=", ":"] && o.commentPrefixes == ["#", ";"] && o.inlineCommentPrefixes == []
  }

  /** Every option at its shipped default, except that strictness, interpolation
      and the default section's name are free. */
  predicate Standard(o: ParseOptions) {
    && Shipped(o)
    && o.emptyLinesInValues && !o.allowNoValue && !o.allowUnnamedSection
    && o.defaultSection != "" && Lacks(o.defaultSection, '\n')
  }

  lemma StandardFacts(o: ParseOptions)
    requires Standard(o)
    ensures !o.allowNoValue && o.emptyLinesInValues && Lacks(o.defaultSection, '\n')
  {}

  predicate CommentStart(t: string) {
    t != "" && (t[0] == '#' || t[0] == ';')
  }

  predicate DelimiterFree(s: string) {
    forall i :: 0 <= i < |s| ==> s[i] != '=' && s[i] != ':'
  }

  predicate NormalKey(k: string) {
    && k != "" && IsTrimmed(k) && IsLower(k) && Lacks(k, '\n')
    && DelimiterFree(k) && !CommentStart(k)
  }

  predicate NormalLines(ls: seq<string>) {
    && (forall i :: 0 <= i < |ls| ==> IsTrimmed(ls[i]))
    && (forall i :: 1 <= i < |ls| ==> !CommentStart(ls[i]))
  }

  /** Every line trimmed, no continuation line a comment, nothing blank at the end. */
  predicate NormalValue(v: string) {
    && NormalLines(Split(v))
    && (v != "" ==> !IsSpace(v[|v| - 1]))
  }

  predicate NormalEntry(e: Entry) {
    NormalKey(e.key) && e.value.Some? && NormalValue(e.value.value)
  }

  predicate NormalItems(items: Items) {
    && DistinctKeys(items)
    && forall i :: 0 <= i < |items| ==> NormalEntry(items[i])
  }

  predicate NormalName(o: ParseOptions, n: string) {
    n != "" && Lacks(n, '\n') && n != o.defaultSection
  }

  predicate NormalSection(o: ParseOptions, s: Section) {
    NormalName(o, s.name) && NormalItems(s.items)
  }

  /** What reading a text always leaves behind, whether or not it throws. */
  predicate Normal(o: ParseOptions, st: Store) {
    && NormalItems(st.defaults)
    && DistinctNames(st.sections)
    && forall i :: 0 <= i < |st.sections| ==> NormalSection(o, st.sections[i])
  }

  /** No key looks like a header. */
  predicate NoBracketKeys(items: Items) {
    forall i :: 0 <= i < |items| ==> items[i].key == "" || items[i].key[0] != '['
  }

  predicate SingleLine(items: Items) {
    forall i :: 0 <= i < |items| && items[i].value.Some? ==> Lacks(items[i].value.value, '\n')
  }

  /** The three things a reading can produce that the printer cannot put back. */
  predicate Printable(o: ParseOptions, st: Store) {
    && Normal(o, st)
    && SingleLine(st.defaults) && NoBracketKeys(st.defaults)
    && forall i :: 0 <= i < |st.sections| ==>
         st.sections[i].name != UNNAMED_SECTION && NoBracketKeys(st.sections[i].items)
  }

  // ---------------------------------------------------------------- lines under standard options

  lemma StandardStrip(o: ParseOptions, line: string)
    requires Standard(o)
    ensures StripComment(o, line) == if CommentStart(Trim(line)) then "" else Trim(line)
  {
    ShippedStrip(o, line);
  }

  lemma ShippedStrip(o: ParseOptions, line: string)
    requires Shipped(o)
    ensures StripComment(o, line) == if CommentStart(Trim(line)) then "" else Trim(line)
  {
    var t := Trim(line);
    var ps := o.commentPrefixes;
    if CommentStart(t) {
      assert t[..1] == [t[0]];
      assert StartsWith(t, if t[0] == '#' then ps[0] else ps[1]);
    } else if t != "" {
      assert t[..1] == [t[0]];
      assert !StartsWith(t, ps[0]) && !StartsWith(t, ps[1]);
    }
    assert CutAllInline(line, []) == line;
  }

  /** The first '=' or ':', or the length. */
  function DelimiterAt(s: string): (r: nat)
    ensures r <= |s|
    ensures forall i :: 0 <= i < r ==> s[i] != '=' && s[i] != ':'
    ensures r < |s| ==> s[r] == '=' || s[r] == ':'
  {
    if s == "" || s[0] == '=' || s[0] == ':' then 0 else 1 + DelimiterAt(s[1..])
  }

  lemma MatchOne(s: string, c: char, i: nat)
    ensures MatchAt(s, [c], i) <==> i < |s| && s[i] == c
  {
    if i < |s| {
      assert s[i..i + 1] == [s[i]];
    }
  }

  lemma StandardDelimiter(s: string)
    ensures var p := DelimiterAt(s);
            FirstDelimiter(s, ["=", ":"]) == if p < |s| then Some(Hit(p, [s[p]])) else None
  {
    var ds := ["=", ":"];
    var r, p := FirstDelimiter(s, ds), DelimiterAt(s);
    hide FirstDelimiter, DelimiterAt, MatchAt;
    assert ds[0] in ds && ds[1] in ds;
    if p < |s| {
      MatchOne(s, s[p], p);
      assert [s[p]] in ds;
    }
    if r.Some? {
      var q := r.value.pos;
      MatchOne(s, '=', q);
      MatchOne(s, ':', q);
      assert r.value.delim == [s[q]];
      assert p <= q;
    }
  }

  lemma HeaderLineReads(o: ParseOptions, name: string)
    requires Standard(o)
    ensures var l := HeaderLine(name);
            StripComment(o, l) == l && !Indented(l) && Classify(o, l) == Header(name)
  {
    hide Standard, StripComment, Trim, FirstDelimiter;
    var l := HeaderLine(name);
    assert l[0] == '[' && l[|l| - 1] == ']';
    TrimFixed(l);
    StandardStrip(o, l);
    assert l[1..|l| - 1] == name;
  }

  lemma TabLineReads(o: ParseOptions, v: string)
    requires Standard(o) && IsTrimmed(v) && !CommentStart(v)
    ensures Indented("\t" + v) && StripComment(o, "\t" + v) == v
  {
    TrimUnique("\t", v, "");
    assert "\t" + v + "" == "\t" + v;
    StandardStrip(o, "\t" + v);
  }

  lemma BlankReads(o: ParseOptions)
    requires Standard(o)
    ensures StripComment(o, "") == ""
  {
    StandardStrip(o, "");
    TrimFixed("");
  }

  predicate StandardGap(delim: string) {
    delim == "=" || delim == " = "
  }
}
