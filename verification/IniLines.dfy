/** What each line of a text says, from its characters; which exception a reading throws, and where; and what the
    smallest texts store. */
module IniLines {
  import opened Text
  import opened IniStore
  import opened IniParse
  import opened IniTwoPhase
  import opened IniPrint
  import opened IniNormal

  // ---------------------------------------------------------------- delimiters

  /** Of the delimiters listed, d is the first that stands at p, and none stands before p. */
  predicate FirstAt(s: string, delims: seq<string>, p: nat, d: string) {
    && (forall k, i :: 0 <= k < |delims| && 0 <= i < p ==> !MatchAt(s, delims[k], i))
    && exists k :: 0 <= k < |delims| && delims[k] == d && MatchAt(s, d, p)
                   && forall j :: 0 <= j < k ==> !MatchAt(s, delims[j], p)
  }

  lemma FirstAtUnique(s: string, delims: seq<string>, p: nat, d: string, q: nat, e: string)
    requires FirstAt(s, delims, p, d) && FirstAt(s, delims, q, e)
    ensures p == q && d == e
  {
    hide MatchAt;
    var k :| 0 <= k < |delims| && delims[k] == d && MatchAt(s, d, p)
             && forall j :: 0 <= j < k ==> !MatchAt(s, delims[j], p);
    var l :| 0 <= l < |delims| && delims[l] == e && MatchAt(s, e, q)
             && forall j :: 0 <= j < l ==> !MatchAt(s, delims[j], q);
    assert k == l;
  }

  /** A delimiter listed later that stands no earlier changes nothing. */
  lemma FirstAtMore(s: string, delims: seq<string>, more: string, p: nat, d: string)
    requires FirstAt(s, delims, p, d) && forall i :: 0 <= i < p ==> !MatchAt(s, more, i)
    ensures FirstAt(s, delims + [more], p, d)
  {
    hide MatchAt;
    var all := delims + [more];
    var k :| 0 <= k < |delims| && delims[k] == d && MatchAt(s, d, p)
             && forall j :: 0 <= j < k ==> !MatchAt(s, delims[j], p);
    assert all[k] == d && forall j :: 0 <= j < |delims| ==> all[j] == delims[j];
  }

  /** One that stands before all others is the first. */
  lemma FirstAtLast(s: string, delims: seq<string>, more: string, p: nat)
    requires MatchAt(s, more, p) && forall i :: 0 <= i < p ==> !MatchAt(s, more, i)
    requires forall d, i: nat :: d in delims && i <= p ==> !MatchAt(s, d, i)
    ensures FirstAt(s, delims + [more], p, more)
  {
    hide MatchAt;
    var all := delims + [more];
    assert all[|delims|] == more && forall j :: 0 <= j < |delims| ==> all[j] == delims[j] && delims[j] in delims;
  }

  lemma {:induction false} HitIsFirst(s: string, delims: seq<string>)
    ensures var r := FirstDelimiter(s, delims);
            r.Some? ==> FirstAt(s, delims, r.value.pos, r.value.delim)
    decreases |delims|
  {
    hide MatchAt, FirstAt;
    if delims != [] {
      var front, more := delims[..|delims| - 1], delims[|delims| - 1];
      HitIsFirst(s, front);
      var best, r := FirstDelimiter(s, front), FirstDelimiter(s, delims);
      assert delims == front + [more] && more in delims;
      if r.Some? && r == best {
        FirstAtMore(s, front, more, r.value.pos, r.value.delim);
      } else if r.Some? {
        FirstAtLast(s, front, more, r.value.pos);
      }
    }
  }

  /** The delimiter found is exactly that one. */
  lemma FoundExactly(s: string, delims: seq<string>, p: nat, d: string)
    ensures FirstDelimiter(s, delims) == Some(Hit(p, d)) <==> FirstAt(s, delims, p, d)
  {
    hide MatchAt, FirstDelimiter;
    HitIsFirst(s, delims);
    var r := FirstDelimiter(s, delims);
    if FirstAt(s, delims, p, d) {
      var k :| 0 <= k < |delims| && delims[k] == d && MatchAt(s, d, p)
               && forall j :: 0 <= j < k ==> !MatchAt(s, delims[j], p);
      assert delims[k] in delims;
      assert r.Some?;
      FirstAtUnique(s, delims, p, d, r.value.pos, r.value.delim);
    }
  }

  // ---------------------------------------------------------------- comments

  /** Some of these prefixes that is not empty begins the text. */
  predicate BeginsComment(prefixes: seq<string>, t: string) {
    exists i :: 0 <= i < |prefixes| && prefixes[i] != "" && prefixes[i] <= t
  }

  /** An inline comment starts here: at the line's first character or after white space. */
  predicate InlineAt(o: ParseOptions, s: string, i: nat)
    requires i <= |s|
  {
    (i == 0 || IsSpace(s[i - 1])) && BeginsComment(o.inlineCommentPrefixes, s[i..])
  }

  lemma BeginsAt(s: string, prefix: string, i: nat)
    requires i <= |s|
    ensures MatchAt(s, prefix, i) <==> prefix <= s[i..]
    ensures StartsWith(s, prefix) <==> prefix <= s
  {
    if MatchAt(s, prefix, i) {
      assert s[i..][..|prefix|] == s[i..i + |prefix|];
    }
    if prefix <= s[i..] {
      assert s[i..][..|prefix|] == s[i..i + |prefix|];
    }
  }

  lemma CutsInline(o: ParseOptions, s: string, i: nat)
    requires i <= |s|
    ensures CutBySome(s, o.inlineCommentPrefixes, i) <==> InlineAt(o, s, i)
  {
    hide MatchAt;
    var ps := o.inlineCommentPrefixes;
    forall k | 0 <= k < |ps|
      ensures MatchAt(s, ps[k], i) <==> ps[k] <= s[i..]
    {
      BeginsAt(s, ps[k], i);
    }
  }

  lemma CommentBegins(prefixes: seq<string>, t: string)
    ensures HasCommentPrefix(prefixes, t) <==> BeginsComment(prefixes, t)
  {
    hide StartsWith;
    forall k | 0 <= k < |prefixes|
      ensures StartsWith(t, prefixes[k]) <==> prefixes[k] <= t
    {
      BeginsAt(t, prefixes[k], 0);
    }
  }

  /** What is left of a line, exactly: nothing if, trimmed, it begins with a comment prefix; and otherwise, trimmed, its
      front up to a place where an inline comment starts, or all of it, no inline comment starting within that front. */
  lemma StripExactly(o: ParseOptions, line: string) returns (at: nat)
    ensures at <= |line| && (at < |line| ==> InlineAt(o, line, at))
    ensures forall i :: 0 <= i < at ==> !InlineAt(o, line[..at], i)
    ensures StripComment(o, line) == if BeginsComment(o.commentPrefixes, Trim(line)) then "" else Trim(line[..at])
  {
    hide StripComment, Trim, HasCommentPrefix, CutBySome, InlineAt, BeginsComment;
    at := CommentCut(o, line);
    CommentBegins(o.commentPrefixes, Trim(line));
    CutsInline(o, line, at);
    forall i | 0 <= i < at
      ensures !InlineAt(o, line[..at], i)
    {
      CutsInline(o, line[..at], i);
      NotCut(line[..at], o.inlineCommentPrefixes, i);
    }
  }

  lemma NotCut(s: string, prefixes: seq<string>, i: nat)
    requires Uncommented(s, prefixes) && i < |s|
    ensures !CutBySome(s, prefixes, i)
  {
    hide CutsAt;
  }

  // ---------------------------------------------------------------- lines

  /** A key as it may be spelled in a text. */
  predicate RawKey(key: string) {
    key != "" && IsTrimmed(key) && DelimiterFree(key) && !CommentStart(key)
  }

  predicate Bracketed(t: string) {
    t != "" && t[0] == '[' && t[|t| - 1] == ']'
  }

  /** key, delimiter and value with the white space that stands between them once the line is trimmed. */
  function PairText(key: string, gap: string, d: string, gap2: string, v: string): string {
    key + gap + d + if v == "" then "" else gap2 + v
  }

  lemma GapTrims(key: string, gap: string, gap2: string, v: string)
    requires IsTrimmed(key) && IsTrimmed(v) && AllSpace(gap) && AllSpace(gap2)
    ensures Trim(key + gap) == key && Trim(if v == "" then "" else gap2 + v) == v
  {
    hide Trim, AllSpace;
    TrimUnique("", key, gap);
    assert "" + key + gap == key + gap;
    if v == "" {
      TrimFixed("");
    } else {
      NoSpace();
      TrimUnique(gap2, v, "");
      assert gap2 + v + "" == gap2 + v;
    }
  }

  lemma NoSpace()
    ensures AllSpace("")
  {}

  lemma PairSlices(key: string, gap: string, d: string, gap2: string, v: string)
    ensures var c, p := PairText(key, gap, d, gap2, v), |key + gap|;
            && p + |d| <= |c| && c[..p] == key + gap && c[p + |d|..] == if v == "" then "" else gap2 + v
  {}

  /** Under any delimiters: a line whose first delimiter stands between a key and a value assigns that value to that
      key, whatever white space is around the delimiter. */
  lemma PairReads(o: ParseOptions, key: string, gap: string, d: string, gap2: string, v: string)
    requires key != "" && IsTrimmed(key) && IsTrimmed(v) && AllSpace(gap) && AllSpace(gap2)
    requires FirstAt(PairText(key, gap, d, gap2, v), o.delimiters, |key + gap|, d)
    requires !Bracketed(PairText(key, gap, d, gap2, v))
    ensures PairText(key, gap, d, gap2, v) != ""
    ensures Classify(o, PairText(key, gap, d, gap2, v)) == Assign(key, v)
  {
    hide Trim, AllSpace, PairText, FirstAt, FirstDelimiter, IsTrimmed;
    var c, p := PairText(key, gap, d, gap2, v), |key + gap|;
    PairSlices(key, gap, d, gap2, v);
    FoundExactly(c, o.delimiters, p, d);
    GapTrims(key, gap, gap2, v);
  }

  lemma ShippedFirst(head: string, d: char, rest: string)
    requires DelimiterFree(head) && (d == '=' || d == ':')
    ensures FirstAt(head + [d] + rest, ["=", ":"], |head|, [d])
  {
    var s, ds := head + [d] + rest, ["=", ":"];
    forall k, i | 0 <= k < |ds| && 0 <= i < |head|
      ensures !MatchAt(s, ds[k], i)
    {
      MatchOne(s, ds[k][0], i);
      assert s[i] == head[i];
    }
    MatchOne(s, '=', |head|);
    MatchOne(s, ':', |head|);
    hide MatchAt;
    assert s[|head|] == d;
    assert ds[if d == '=' then 0 else 1] == [d];
  }

  lemma FreeGap(key: string, gap: string)
    requires DelimiterFree(key) && AllSpace(gap)
    ensures DelimiterFree(key + gap)
  {}

  lemma PairShape(key: string, gap: string, d: char, gap2: string, v: string)
    requires RawKey(key) && IsTrimmed(v) && !IsSpace(d)
    ensures var c := PairText(key, gap, [d], gap2, v);
            && c != "" && c[0] == key[0] && IsTrimmed(c) && !CommentStart(c)
            && c[|c| - 1] == (if v == "" then d else v[|v| - 1])
            && c == (key + gap) + [d] + (if v == "" then "" else gap2 + v)
  {
    var c := PairText(key, gap, [d], gap2, v);
    assert c[0] == key[0];
    if v != "" {
      assert c == (key + gap + [d] + gap2) + v;
    }
  }

  lemma SpacesJoin(a: string, b: string)
    requires AllSpace(a) && AllSpace(b)
    ensures AllSpace(a + b)
  {}

  lemma PairAround(before: string, key: string, gap: string, d: string, gap2: string, v: string, after: string)
    ensures before + key + gap + d + gap2 + v + after ==
            before + PairText(key, gap, d, gap2, v) + (if v == "" then gap2 + after else after)
  {
    if v == "" {
      assert gap2 + v == gap2;
    }
  }

  /** With the shipped delimiters and comments: a key in any letter case, either delimiter, and a value, with any white
      space before, between and after them, is that assignment. */
  lemma PairLine(o: ParseOptions, before: string, key: string, gap: string, d: char, gap2: string, v: string,
                 after: string)
    requires Shipped(o) && RawKey(key) && IsTrimmed(v) && (d == '=' || d == ':')
    requires AllSpace(before) && AllSpace(gap) && AllSpace(gap2) && AllSpace(after)
    requires key[0] != '[' || v == "" || v[|v| - 1] != ']'
    ensures var c := StripComment(o, before + key + gap + [d] + gap2 + v + after);
            c != "" && Classify(o, c) == Assign(key, v)
  {
    hide Trim, AllSpace, PairText, FirstAt, Classify, StripComment, IsTrimmed, DelimiterFree;
    var c := PairText(key, gap, [d], gap2, v);
    PairAround(before, key, gap, [d], gap2, v, after);
    PairShape(key, gap, d, gap2, v);
    SpacesJoin(gap2, after);
    TrimUnique(before, c, if v == "" then gap2 + after else after);
    ShippedStrip(o, before + key + gap + [d] + gap2 + v + after);
    FreeGap(key, gap);
    ShippedFirst(key + gap, d, if v == "" then "" else gap2 + v);
    PairReads(o, key, gap, [d], gap2, v);
  }

  lemma KeyStart(key: string)
    requires NormalKey(key)
    ensures key != "" && !IsSpace(key[0]) && RawKey(key)
  {}

  /** What the printer writes for an option. */
  lemma KeyLineReads(o: ParseOptions, key: string, delim: string, v: string)
    requires Standard(o) && NormalKey(key) && key[0] != '[' && IsTrimmed(v) && StandardGap(delim)
    ensures var l := key + delim + v;
            var c := StripComment(o, l);
            !Indented(l) && c != "" && Classify(o, c) == Assign(key, v)
  {
    hide StripComment, Classify, NormalKey, RawKey, IsTrimmed, AllSpace;
    var gap := if delim == "=" then "" else " ";
    KeyStart(key);
    GapIsSpace(gap);
    PairLine(o, "", key, gap, '=', gap, v, "");
    assert "" + key + gap + ['='] + gap + v + "" == key + delim + v;
    assert (key + delim + v)[0] == key[0];
  }

  lemma GapIsSpace(gap: string)
    requires gap == "" || gap == " "
    ensures AllSpace(gap) && AllSpace("")
  {}

  lemma NoHit(t: string)
    requires DelimiterFree(t)
    ensures FirstDelimiter(t, ["=", ":"]) == None
  {
    StandardDelimiter(t);
    hide FirstDelimiter;
  }

  /** A line without a delimiter is an option without a value where those are allowed, and otherwise in error. */
  lemma BareLine(o: ParseOptions, before: string, t: string, after: string)
    requires Shipped(o) && RawKey(t) && !Bracketed(t) && AllSpace(before) && AllSpace(after)
    ensures StripComment(o, before + t + after) == t
    ensures Classify(o, t) == if o.allowNoValue then Bare(t) else Junk
  {
    hide Trim, AllSpace, FirstDelimiter, StripComment;
    TrimUnique(before, t, after);
    ShippedStrip(o, before + t + after);
    NoHit(t);
    TrimFixed(t);
  }

  lemma CharFirst(d: char, rest: string) returns (m: string, after: string)
    requires !IsSpace(d)
    ensures [d] + rest == m + after && AllSpace(after) && IsTrimmed(m) && m != "" && m[0] == d
  {
    var r := TrimRight(rest);
    m, after := [d] + r, rest[|r|..];
    assert rest == r + after;
  }

  lemma LeadingDelimiter(o: ParseOptions, m: string)
    requires Shipped(o) && m != "" && (m[0] == '=' || m[0] == ':')
    ensures Classify(o, m) == Junk
  {
    hide Trim, FirstDelimiter, FirstAt;
    assert m == "" + [m[0]] + m[1..];
    ShippedFirst("", m[0], m[1..]);
    FoundExactly(m, o.delimiters, 0, [m[0]]);
    TrimFixed("");
  }

  /** A line that begins with a delimiter is in error. */
  lemma NoKeyLine(o: ParseOptions, before: string, d: char, rest: string)
    requires Shipped(o) && (d == '=' || d == ':') && AllSpace(before)
    ensures var c := StripComment(o, before + [d] + rest);
            c != "" && Classify(o, c) == Junk
  {
    hide AllSpace, StripComment, IsTrimmed, TrimRight, Trim, Classify;
    var m, after := CharFirst(d, rest);
    Assoc(before, [d], rest);
    Assoc(before, m, after);
    TrimUnique(before, m, after);
    ShippedStrip(o, before + m + after);
    LeadingDelimiter(o, m);
  }

  /** A line that begins with '#' or ';' is as good as blank. */
  lemma CommentLine(o: ParseOptions, before: string, d: char, rest: string)
    requires Shipped(o) && (d == '#' || d == ';') && AllSpace(before)
    ensures StripComment(o, before + [d] + rest) == ""
  {
    hide AllSpace, StripComment, Trim, TrimRight, IsTrimmed;
    var m, after := CharFirst(d, rest);
    Assoc(before, [d], rest);
    Assoc(before, m, after);
    TrimUnique(before, m, after);
    ShippedStrip(o, before + m + after);
  }

  /** A bracketed line is the header of what stands between the brackets. */
  lemma SectionLine(o: ParseOptions, before: string, name: string, after: string)
    requires Shipped(o) && AllSpace(before) && AllSpace(after)
    ensures var c := StripComment(o, before + HeaderLine(name) + after);
            c == HeaderLine(name) && Classify(o, c) == Header(name)
  {
    hide AllSpace, StripComment, Trim, FirstDelimiter;
    var l := HeaderLine(name);
    assert l[0] == '[' && l[|l| - 1] == ']' && l[1..|l| - 1] == name;
    TrimUnique(before, l, after);
    ShippedStrip(o, before + l + after);
  }

  // ---------------------------------------------------------------- where items stand

  /** The last line an item owns. */
  function LastLine(o: ParseOptions, lines: seq<string>, n: nat, item: Item): nat {
    if n <= item.line < n + |lines| && item.logical.Assign? then item.line + ContLen(o, lines[item.line - n + 1..])
    else item.line
  }

  /** The item says what its own line says, and owns the lines after it that go on its value. */
  predicate Placed(o: ParseOptions, lines: seq<string>, n: nat, item: Item) {
    && n <= item.line < n + |lines|
    && var at := item.line - n;
    && item.original == lines[at] && StripComment(o, lines[at]) != ""
    && item.logical == Classify(o, StripComment(o, lines[at]))
    && item.conts == if item.logical.Assign? then Conts(o, lines[at + 1..], ContLen(o, lines[at + 1..])) else []
  }

  /** Item and line numbers shifted past the lines of an earlier item. */
  lemma PlacedLater(o: ParseOptions, lines: seq<string>, n: nat, skip: nat, item: Item)
    requires skip <= |lines| && Placed(o, lines[skip..], n + skip, item)
    ensures Placed(o, lines, n, item)
    ensures LastLine(o, lines, n, item) == LastLine(o, lines[skip..], n + skip, item)
  {
    hide StripComment, Classify, Conts, ContLen;
    var at := item.line - n;
    assert lines[skip..][at - skip] == lines[at];
    assert lines[skip..][at - skip + 1..] == lines[at + 1..];
  }

  /** Line number m is the item's own or goes on its value. */
  predicate Owns(o: ParseOptions, lines: seq<string>, n: nat, item: Item, m: nat) {
    item.line <= m <= LastLine(o, lines, n, item)
  }

  predicate AllPlaced(o: ParseOptions, lines: seq<string>, n: nat, items: seq<Item>) {
    forall i :: 0 <= i < |items| ==> Placed(o, lines, n, items[i])
  }

  predicate InOrder(o: ParseOptions, lines: seq<string>, n: nat, items: seq<Item>) {
    forall i, j :: 0 <= i < j < |items| ==> LastLine(o, lines, n, items[i]) < items[j].line
  }

  predicate OwnedBySome(o: ParseOptions, lines: seq<string>, n: nat, items: seq<Item>, m: nat) {
    exists i :: 0 <= i < |items| && Owns(o, lines, n, items[i], m)
  }

  predicate Covered(o: ParseOptions, lines: seq<string>, n: nat, items: seq<Item>) {
    forall j :: 0 <= j < |lines| && StripComment(o, lines[j]) != "" ==> OwnedBySome(o, lines, n, items, n + j)
  }

  predicate WellCut(o: ParseOptions, lines: seq<string>, n: nat, items: seq<Item>) {
    AllPlaced(o, lines, n, items) && InOrder(o, lines, n, items) && Covered(o, lines, n, items)
  }

  /** Items cut from a tail of the lines stand in the lines as they do in the tail. */
  lemma CutLater(o: ParseOptions, lines: seq<string>, n: nat, skip: nat, items: seq<Item>)
    requires skip <= |lines| && WellCut(o, lines[skip..], n + skip, items)
    ensures AllPlaced(o, lines, n, items) && InOrder(o, lines, n, items)
    ensures forall i :: 0 <= i < |items| ==> n + skip <= items[i].line
    ensures forall j :: skip <= j < |lines| && StripComment(o, lines[j]) != "" ==>
              OwnedBySome(o, lines, n, items, n + j)
  {
    hide StripComment, Placed, LastLine;
    var tail := lines[skip..];
    forall i | 0 <= i < |items|
      ensures Placed(o, lines, n, items[i]) && n + skip <= items[i].line
      ensures LastLine(o, lines, n, items[i]) == LastLine(o, tail, n + skip, items[i])
    {
      PlacedLine(o, tail, n + skip, items[i]);
      PlacedLater(o, lines, n, skip, items[i]);
    }
    forall j | skip <= j < |lines| && StripComment(o, lines[j]) != ""
      ensures OwnedBySome(o, lines, n, items, n + j)
    {
      assert tail[j - skip] == lines[j];
      assert OwnedBySome(o, tail, n + skip, items, n + skip + (j - skip));
      var i :| 0 <= i < |items| && Owns(o, tail, n + skip, items[i], n + j);
      assert Owns(o, lines, n, items[i], n + j);
    }
  }

  lemma PlacedLine(o: ParseOptions, lines: seq<string>, n: nat, item: Item)
    requires Placed(o, lines, n, item)
    ensures n <= item.line < n + |lines|
  {}

  lemma CutBlank(o: ParseOptions, lines: seq<string>, n: nat, rest: seq<Item>)
    requires lines != [] && StripComment(o, lines[0]) == "" && WellCut(o, lines[1..], n + 1, rest)
    ensures WellCut(o, lines, n, rest)
  {
    hide StripComment, AllPlaced, InOrder, OwnedBySome;
    CutLater(o, lines, n, 1, rest);
  }

  lemma CutCons(o: ParseOptions, lines: seq<string>, n: nat, item: Item, rest: seq<Item>, k: nat)
    requires 1 + k <= |lines| && item.line == n && Placed(o, lines, n, item)
    requires LastLine(o, lines, n, item) == n + k
    requires WellCut(o, lines[1 + k..], n + 1 + k, rest)
    ensures WellCut(o, lines, n, [item] + rest)
  {
    hide StripComment, Placed, LastLine, WellCut, Covered;
    CutLater(o, lines, n, 1 + k, rest);
    var all := [item] + rest;
    assert all[0] == item && forall i :: 0 <= i < |rest| ==> all[i + 1] == rest[i];
    forall i, j | 0 <= i < j < |all|
      ensures LastLine(o, lines, n, all[i]) < all[j].line
    {
      assert n + 1 + k <= rest[j - 1].line;
    }
    assert AllPlaced(o, lines, n, all) && InOrder(o, lines, n, all);
    CoverCons(o, lines, n, item, rest, k);
    ThreeParts(o, lines, n, all);
  }

  lemma CoverCons(o: ParseOptions, lines: seq<string>, n: nat, item: Item, rest: seq<Item>, k: nat)
    requires item.line == n && LastLine(o, lines, n, item) == n + k
    requires forall j :: 1 + k <= j < |lines| && StripComment(o, lines[j]) != "" ==>
               OwnedBySome(o, lines, n, rest, n + j)
    ensures Covered(o, lines, n, [item] + rest)
  {
    hide StripComment, LastLine;
    var all := [item] + rest;
    forall j | 0 <= j < |lines| && StripComment(o, lines[j]) != ""
      ensures OwnedBySome(o, lines, n, all, n + j)
    {
      if j <= k {
        assert Owns(o, lines, n, all[0], n + j);
      } else {
        var i :| 0 <= i < |rest| && Owns(o, lines, n, rest[i], n + j);
        assert Owns(o, lines, n, all[i + 1], n + j);
      }
    }
  }

  lemma ThreeParts(o: ParseOptions, lines: seq<string>, n: nat, items: seq<Item>)
    requires AllPlaced(o, lines, n, items) && InOrder(o, lines, n, items) && Covered(o, lines, n, items)
    ensures WellCut(o, lines, n, items)
  {}

  lemma NewItemPlaced(o: ParseOptions, lines: seq<string>, n: nat, k: nat, item: Item)
    requires lines != [] && StripComment(o, lines[0]) != "" && k <= |lines| - 1
    requires item.logical == Classify(o, StripComment(o, lines[0]))
    requires k == if item.logical.Assign? then ContLen(o, lines[1..]) else 0
    requires item == Item(n, lines[0], item.logical, Conts(o, lines[1..], k))
    ensures Placed(o, lines, n, item) && LastLine(o, lines, n, item) == n + k
  {
    hide StripComment, Classify, ContLen;
    assert Cleaned(o, lines[1..][..0]) == [];
  }

  /** The items of a text, exactly: each says what its own line says and owns the lines that go on its value; they
      follow one another without overlapping; and every line that is not blank once cleaned belongs to one. */
  lemma {:induction false} ItemsAreCut(o: ParseOptions, lines: seq<string>, n: nat)
    ensures WellCut(o, lines, n, Segment(o, lines, n))
    decreases |lines|
  {
    hide StripComment, Classify, ContLen, Conts, WellCut, Segment, Placed, LastLine;
    if lines == [] {
      SegmentSkips(o, lines, n);
      NothingCut(o, n);
    } else if StripComment(o, lines[0]) == "" {
      SegmentSkips(o, lines, n);
      ItemsAreCut(o, lines[1..], n + 1);
      CutBlank(o, lines, n, Segment(o, lines[1..], n + 1));
    } else {
      SegmentStep(o, lines, n);
      var logical, tail := Classify(o, StripComment(o, lines[0])), lines[1..];
      var k := if logical.Assign? then ContLen(o, tail) else 0;
      var item := Item(n, lines[0], logical, Conts(o, tail, k));
      NewItemPlaced(o, lines, n, k, item);
      assert tail[k..] == lines[1 + k..];
      ItemsAreCut(o, tail[k..], n + 1 + k);
      CutCons(o, lines, n, item, Segment(o, tail[k..], n + 1 + k), k);
    }
  }

  lemma NothingCut(o: ParseOptions, n: nat)
    ensures WellCut(o, [], n, [])
  {}
}
