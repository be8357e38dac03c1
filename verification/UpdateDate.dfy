/** The installer's three views of the "Updated=" date: validation of a downloaded configuration,
    the line reader that extracts the date, and the decision and text made from it. */
module UpdateDate {
  import opened Text
  import opened Decimals

  const MAXIMUM_INI_BYTES := 16 * 1024 * 1024
  const UPDATED := "Updated="

  // ---------------------------------------------------------------- validation

  predicate Occurs(s: string, pat: string) {
    Find(s, pat, 0).Some?
  }

  predicate DateShape(d: string) {
    |d| == 10 && forall k :: 0 <= k < 10 ==> if k == 4 || k == 7 then d[k] == '-' else IsDigit(d[k])
  }

  /** The text around a validated "Updated=" at u. */
  predicate DatedAt(s: string, u: nat) {
    && (u == 0 || (u <= |s| && (s[u - 1] == '\n' || s[u - 1] == '\r')))
    && u + 18 <= |s| && DateShape(s[u + 8..u + 18])
    && (u + 18 == |s| || s[u + 18] == '\r' || s[u + 18] == '\n')
  }

  predicate Valid(content: string) {
    && content != "" && |content| <= MAXIMUM_INI_BYTES && Lacks(content, '\0')
    && Occurs(content, "[Main]") && Occurs(content, "[SLPolicy]") && Occurs(content, UPDATED)
    && DatedAt(content, Find(content, UPDATED, 0).value)
  }

  /** validIniContent. */
  method ValidIniContent(content: string) returns (ok: bool)
    ensures ok <==> Valid(content)
  {
    hide Find;
    if content == "" || |content| > MAXIMUM_INI_BYTES || exists i :: 0 <= i < |content| && content[i] == '\0' {
      return false;
    }
    var hasMain, hasPolicy := Find(content, "[Main]", 0).Some?, Find(content, "[SLPolicy]", 0).Some?;
    var updated := Find(content, UPDATED, 0);
    if !hasMain || !hasPolicy || updated.None?
       || (updated.value != 0 && content[updated.value - 1] != '\n' && content[updated.value - 1] != '\r') {
      return false;
    }
    var value := updated.value + |UPDATED|;
    if value + 10 > |content| {
      return false;
    }
    var date := content[value..value + 10];
    var index := 0;
    while index < 10
      invariant 0 <= index <= 10
      invariant forall k :: 0 <= k < index ==> if k == 4 || k == 7 then date[k] == '-' else IsDigit(date[k])
    {
      var character := content[value + index];
      assert date[index] == character;
      if if index == 4 || index == 7 then character != '-' else !IsDigit(character) {
        return false;
      }
      index := index + 1;
    }
    ok := value + 10 == |content| || content[value + 10] == '\r' || content[value + 10] == '\n';
  }

  /** A line end, or nothing. */
  predicate Ended(s: string) {
    s == "" || s[0] == '\r' || s[0] == '\n'
  }

  /** The content is cut here: something that ends with a line end or is empty, the first "Updated=" of all,
      four digits,
      two and two with dashes between them, and nothing more or a line end. */
  predicate DatedContent(content: string, head: string, y: string, m: string, d: string, tail: string) {
    && content == head + UPDATED + y + "-" + m + "-" + d + tail
    && (forall i :: 0 <= i < |head| ==> !MatchAt(content, UPDATED, i))
    && (head == "" || head[|head| - 1] == '\n' || head[|head| - 1] == '\r') && Ended(tail)
    && AllDigits(y) && AllDigits(m) && AllDigits(d) && |y| == 4 && |m| == 2 && |d| == 2
  }

  lemma DatedParts(content: string, head: string, y: string, m: string, d: string, tail: string)
    requires DatedContent(content, head, y, m, d, tail)
    ensures Find(content, UPDATED, 0) == Some(|head|) && DatedAt(content, |head|)
  {
    hide Find, IsDigit;
    var u := |head|;
    var date := y + "-" + m + "-" + d;
    assert content == head + UPDATED + date + tail by { Regrouped(head, y, m, d, tail); }
    assert content[u..u + 8] == UPDATED && content[u + 8..u + 18] == date;
    FindIs(content, UPDATED, u);
    if tail != "" {
      assert content[u + 18] == tail[0];
    }
    if head != "" {
      assert content[u - 1] == head[u - 1];
    }
  }

  lemma Regrouped(head: string, y: string, m: string, d: string, tail: string)
    ensures head + UPDATED + y + "-" + m + "-" + d + tail == head + UPDATED + (y + "-" + m + "-" + d) + tail
  {}

  lemma FindIs(s: string, pat: string, at: nat)
    requires MatchAt(s, pat, at) && forall i: nat :: i < at ==> !MatchAt(s, pat, i)
    ensures Find(s, pat, 0) == Some(at)
  {
    hide MatchAt, Find;
    var r := Find(s, pat, 0);
    assert r.Some?;
  }

  lemma PartsDated(content: string)
    requires Find(content, UPDATED, 0).Some? && DatedAt(content, Find(content, UPDATED, 0).value)
    ensures exists head, y, m, d, tail :: DatedContent(content, head, y, m, d, tail)
  {
    hide Find, MatchAt, DatedAt, DateShape, AllDigits, Ended, DatedContent;
    var u := Find(content, UPDATED, 0).value;
    DatedFacts(content, u);
    MatchIs(content, UPDATED, u);
    var date := content[u + 8..u + 18];
    ShapeParts(date);
    Cuts(content, u, u + 8, u + 18);
    Regrouped(content[..u], date[..4], date[5..7], date[8..], content[u + 18..]);
    CutDated(content, u, date[..4], date[5..7], date[8..]);
  }

  lemma MatchIs(s: string, pat: string, i: nat)
    requires MatchAt(s, pat, i)
    ensures i + |pat| <= |s| && s[i..i + |pat|] == pat
  {}

  lemma DatedFacts(s: string, u: nat)
    requires DatedAt(s, u)
    ensures u + 18 <= |s| && DateShape(s[u + 8..u + 18])
    ensures u == 0 || s[u - 1] == '\n' || s[u - 1] == '\r'
    ensures Ended(s[u + 18..])
  {}

  lemma CutDated(content: string, u: nat, y: string, m: string, d: string)
    requires u + 18 <= |content| && content == content[..u] + UPDATED + y + "-" + m + "-" + d + content[u + 18..]
    requires forall i: nat :: i < u ==> !MatchAt(content, UPDATED, i)
    requires (u == 0 || content[u - 1] == '\n' || content[u - 1] == '\r') && Ended(content[u + 18..])
    requires AllDigits(y) && AllDigits(m) && AllDigits(d) && |y| == 4 && |m| == 2 && |d| == 2
    ensures exists head, y, m, d, tail :: DatedContent(content, head, y, m, d, tail)
  {
    hide MatchAt, Ended, AllDigits;
    assert DatedContent(content, content[..u], y, m, d, content[u + 18..]);
  }

  lemma ShapeParts(d: string)
    requires DateShape(d)
    ensures |d| == 10 && d == d[..4] + "-" + d[5..7] + "-" + d[8..]
    ensures AllDigits(d[..4]) && AllDigits(d[5..7]) && AllDigits(d[8..])
  {}

  /** Validation, exactly. */
  lemma ValidExactly(content: string)
    ensures Valid(content) <==>
            && 1 <= |content| <= 16_777_216 && Lacks(content, '\0')
            && (exists i: nat :: MatchAt(content, "[Main]", i)) && (exists i: nat :: MatchAt(content, "[SLPolicy]", i))
            && exists head, y, m, d, tail :: DatedContent(content, head, y, m, d, tail)
  {
    hide Find, MatchAt, DatedAt, DatedContent, Lacks;
    OccursIs(content, "[Main]");
    OccursIs(content, "[SLPolicy]");
    if Find(content, UPDATED, 0).Some? && DatedAt(content, Find(content, UPDATED, 0).value) {
      PartsDated(content);
    }
    if exists head, y, m, d, tail :: DatedContent(content, head, y, m, d, tail) {
      var head, y, m, d, tail :| DatedContent(content, head, y, m, d, tail);
      DatedParts(content, head, y, m, d, tail);
    }
  }

  lemma OccursIs(s: string, pat: string)
    ensures Occurs(s, pat) <==> exists i: nat :: MatchAt(s, pat, i)
  {
    hide Find, MatchAt;
    if Occurs(s, pat) {
      assert MatchAt(s, pat, Find(s, pat, 0).value);
    }
  }

  // ---------------------------------------------------------------- reading the date

  predicate LineStart(s: string, p: nat) {
    p <= |s| && (p == 0 || s[p - 1] == '\n')
  }

  /** The first line at or after `from` that begins with "Updated=". */
  function UpdatedLine(s: string, from: nat): (r: Option<nat>)
    requires LineStart(s, from)
    ensures r.Some? ==> from <= r.value && LineStart(s, r.value) && MatchAt(s, UPDATED, r.value)
    decreases |s| - from
  {
    if MatchAt(s, UPDATED, from) then Some(from)
    else
      var k := from + NewlineAt(s[from..]);
      if k >= |s| then None else UpdatedLine(s, k + 1)
  }

  /** The rest of the line after the "Updated=" at u. */
  function ValueAt(s: string, u: nat): string
    requires MatchAt(s, UPDATED, u)
  {
    s[u + 8..u + 8 + NewlineAt(s[u + 8..])]
  }

  /** erase(remove(...)) of '-'. */
  function Undashed(s: string): string {
    if s == "" then "" else (if s[0] == '-' then "" else [s[0]]) + Undashed(s[1..])
  }

  const INT_MAX := 0x7FFF_FFFF

  /** std::stoi: white space, a sign, digits; nothing when there are none or the value does not fit. */
  function Stoi(s: string): Option<int> {
    var start := Start(s);
    var end := DigitsEnd(s, start);
    if end == start then None
    else
      var v: int := DigitsValue(s[start..end]);
      var n := if start > 0 && s[start - 1] == '-' then -v else v;
      if -INT_MAX - 1 <= n <= INT_MAX then Some(n) else None
  }

  /** What iniDate extracts. */
  function DateOf(content: string): Option<int> {
    var u := UpdatedLine(content, 0);
    if u.None? then None else Stoi(Undashed(ValueAt(content, u.value)))
  }

  /** White space, a sign, the digits of m and something that does not begin with a digit. */
  predicate IntText(s: string, space: string, sign: string, digits: string, rest: string, m: nat) {
    && s == space + sign + digits + rest && AllSpace(space) && Sign(sign) && digits != "" && IsDecimalOf(digits, m)
    && (rest == "" || !IsDigit(rest[0]))
  }

  function Under(sign: string, m: int): int {
    if sign == "-" then -m else m
  }

  ghost predicate BeginsWithInt(s: string, n: int) {
    exists space, sign, digits, rest, m: nat :: IntText(s, space, sign, digits, rest, m) && n == Under(sign, m)
  }

  lemma IntParts(s: string, space: string, sign: string, digits: string, rest: string, m: nat)
    requires IntText(s, space, sign, digits, rest, m)
    ensures AllDigits(digits) && DigitsValue(digits) == m && Start(s) == |space + sign|
    ensures DigitsEnd(s, Start(s)) == |space + sign + digits| && s[Start(s)..|space + sign + digits|] == digits
    ensures Start(s) > 0 && s[Start(s) - 1] == '-' <==> sign == "-"
  {
    hide IsDecimalOf, DigitsValue;
    DigitsValueExactly(digits, m);
    var after := sign + digits + rest;
    assert s == space + after && s[|space|] == after[0] && IsDigit(digits[0]);
    SkipAt(s, space, 0);
    if |space| > 0 {
      assert s[|space| - 1] == space[|space| - 1];
    }
    var to := |space + sign + digits|;
    forall i | Start(s) <= i < to
      ensures IsDigit(s[i])
    {
      assert s[i] == digits[i - |space + sign|];
    }
    if rest != "" {
      assert s[to] == rest[0];
    }
    DigitsEndAt(s, Start(s), to);
  }

  lemma IntFound(s: string) returns (space: string, sign: string)
    requires DigitsEnd(s, Start(s)) > Start(s)
    ensures var end := DigitsEnd(s, Start(s));
            AllDigits(s[Start(s)..end])
            && IntText(s, space, sign, s[Start(s)..end], s[end..], DigitsValue(s[Start(s)..end]))
    ensures sign == "-" <==> Start(s) > 0 && s[Start(s) - 1] == '-'
  {
    hide IsDecimalOf, DigitsValue, Start, AllSpace, Sign;
    var from, start := SkipSpace(s, 0), Start(s);
    var end := DigitsEnd(s, start);
    SignPart(s);
    space, sign := s[..from], s[from..start];
    Cuts(s, from, start, end);
    DigitsRunStops(s, start);
    DigitsOf(s, start, end);
    DigitsValueExactly(s[start..end], DigitsValue(s[start..end]));
  }

  lemma DigitsOf(s: string, from: nat, to: nat)
    requires from <= to <= |s| && forall i :: from <= i < to ==> IsDigit(s[i])
    ensures AllDigits(s[from..to])
  {}

  lemma {:induction false} DigitsRunStops(s: string, from: nat)
    requires from <= |s|
    ensures DigitsEnd(s, from) < |s| ==> !IsDigit(s[DigitsEnd(s, from)])
    decreases |s| - from
  {
    if from < |s| {
      DigitsRunStops(s, from + 1);
    }
  }

  /** std::stoi, exactly: the integer the text begins with, if there is one and it fits. */
  lemma StoiExactly(s: string, n: int)
    ensures Stoi(s) == Some(n) <==> BeginsWithInt(s, n) && -0x8000_0000 <= n < 0x8000_0000
  {
    hide IntText, IsDecimalOf, DigitsValue, Start, DigitsEnd;
    if DigitsEnd(s, Start(s)) > Start(s) {
      var space, sign := IntFound(s);
    }
    if BeginsWithInt(s, n) {
      var space, sign, digits, rest, m: nat :| IntText(s, space, sign, digits, rest, m) && n == Under(sign, m);
      IntParts(s, space, sign, digits, rest, m);
      SomeDigits(s, space, sign, digits, rest, m);
    }
  }

  lemma SomeDigits(s: string, space: string, sign: string, digits: string, rest: string, m: nat)
    requires IntText(s, space, sign, digits, rest, m)
    ensures digits != ""
  {
    hide IsDecimalOf;
  }

  /** Dropping the dashes, exactly: every other character stays, in order. */
  lemma UndashedExactly(s: string, c: char)
    ensures Undashed("") == "" && Undashed([c] + s) == (if c == '-' then "" else [c]) + Undashed(s)
  {
    ConsTail(c, s);
  }

  /** Some line begins with "Updated=" at p and no earlier one does. */
  predicate FirstUpdated(content: string, p: nat) {
    && LineStart(content, p) && MatchAt(content, UPDATED, p)
    && forall q: nat :: q < p && LineStart(content, q) ==> !MatchAt(content, UPDATED, q)
  }

  /** The date read from a content is n exactly when a first line begins with "Updated=" and what follows on that line
      begins, once the dashes are dropped, with the integer n, and n fits. */
  lemma DateExactly(content: string, n: int)
    ensures DateOf(content) == Some(n) <==>
            && -0x8000_0000 <= n < 0x8000_0000
            && exists p: nat :: FirstUpdated(content, p) && BeginsWithInt(Undashed(ValueAt(content, p)), n)
  {
    hide Stoi, Undashed, MatchAt, ValueAt, UpdatedLine, BeginsWithInt;
    var u := UpdatedLine(content, 0);
    if u.Some? {
      StoiExactly(Undashed(ValueAt(content, u.value)), n);
      forall q: nat | q < u.value && LineStart(content, q)
        ensures !MatchAt(content, UPDATED, q)
      {
        if MatchAt(content, UPDATED, q) {
          UpdatedLineLeast(content, 0, q);
        }
      }
      assert FirstUpdated(content, u.value);
    }
    forall p: nat | FirstUpdated(content, p)
      ensures u == Some(p)
    {
      UpdatedLineLeast(content, 0, p);
    }
  }

  /** The value is the rest of its line. */
  lemma ValueExactly(content: string, u: nat)
    requires MatchAt(content, UPDATED, u)
    ensures var v := ValueAt(content, u);
            && Lacks(v, '\n') && u + 8 + |v| <= |content| && content[u + 8..u + 8 + |v|] == v
            && (u + 8 + |v| < |content| ==> content[u + 8 + |v|] == '\n')
  {
    var rest := content[u + 8..];
    var k := NewlineAt(rest);
    assert ValueAt(content, u) == rest[..k];
    hide NewlineAt;
    if k < |rest| {
      assert rest[k] == content[u + 8 + k];
    }
  }

  lemma LineOfValue(s: string, p: nat)
    requires p <= |s|
    ensures var line := s[p..p + NewlineAt(s[p..])];
            && (StartsWith(line, UPDATED) <==> MatchAt(s, UPDATED, p))
            && (MatchAt(s, UPDATED, p) ==> |line| >= 8 && line[8..] == ValueAt(s, p))
  {
    var rest := s[p..];
    var k := NewlineAt(rest);
    var line := s[p..p + k];
    assert rest[..k] == line;
    hide NewlineAt;
    if MatchAt(s, UPDATED, p) {
      var tail := s[p + 8..];
      var word := s[p..p + 8];
      assert word == UPDATED && Lacks(UPDATED, '\n');
      assert forall i :: 0 <= i < 8 ==> rest[i] == word[i];
      assert forall i :: 0 <= i < |tail| ==> tail[i] == rest[8 + i];
      assert k == 8 + NewlineAt(tail);
      assert line[..8] == word;
    }
    if k >= 8 {
      assert line[..8] == s[p..p + 8];
    }
  }

  /** iniDate on text already in memory. */
  method IniDate(content: string) returns (date: Option<int>)
    ensures date == DateOf(content)
  {
    hide NewlineAt, Stoi, Undashed, MatchAt;
    var pos := 0;
    while pos < |content|
      invariant LineStart(content, pos)
      invariant UpdatedLine(content, 0) == UpdatedLine(content, pos)
      decreases |content| - pos
    {
      LineOfValue(content, pos);
      var end := pos + NewlineAt(content[pos..]);
      var line := content[pos..end];
      if StartsWith(line, UPDATED) {
        date := Stoi(Undashed(line[8..]));
        return;
      }
      if end == |content| {
        return None;
      }
      pos := end + 1;
    }
    NoMatchAtEnd(content);
    date := None;
  }

  lemma NoMatchAtEnd(s: string)
    ensures !MatchAt(s, UPDATED, |s|) && s[|s|..] == "" && NewlineAt("") == 0
  {}

  // ---------------------------------------------------------------- validation implies a date

  lemma NextLineStart(s: string, from: nat, p: nat)
    requires from < p && LineStart(s, p)
    ensures var k := from + NewlineAt(s[from..]);
            k < p && LineStart(s, k + 1)
  {
    hide NewlineAt;
    var rest := s[from..];
    assert s[p - 1] == rest[p - 1 - from];
    var k := NewlineAt(rest);
    assert rest[k] == s[from + k];
  }

  lemma {:induction false} UpdatedLineLeast(s: string, from: nat, p: nat)
    requires LineStart(s, from) && from <= p && LineStart(s, p) && MatchAt(s, UPDATED, p)
    ensures UpdatedLine(s, from).Some? && UpdatedLine(s, from).value <= p
    decreases |s| - from
  {
    hide MatchAt, NewlineAt;
    if !MatchAt(s, UPDATED, from) {
      NextLineStart(s, from, p);
      UpdatedLineLeast(s, from + NewlineAt(s[from..]) + 1, p);
    }
  }

  lemma {:induction false} UndashedConcat(a: string, b: string)
    ensures Undashed(a + b) == Undashed(a) + Undashed(b)
  {
    if a == "" {
      NilConcat(b);
    } else {
      assert (a + b)[1..] == a[1..] + b;
      UndashedConcat(a[1..], b);
    }
  }

  lemma {:induction false} UndashedDigits(s: string)
    requires AllDigits(s)
    ensures Undashed(s) == s
  {
    if s != "" {
      HeadTail(s);
      UndashedDigits(s[1..]);
    }
  }

  lemma UndashedOne()
    ensures Undashed("-") == ""
  {
    assert "-"[1..] == "";
  }

  /** The eight digits of a date. */
  function DateDigits(d: string): (r: string)
    requires DateShape(d)
    ensures |r| == 8 && AllDigits(r)
  {
    d[..4] + d[5..7] + d[8..]
  }

  lemma UndashedDate(d: string)
    requires DateShape(d)
    ensures Undashed(d) == DateDigits(d)
  {
    var y, m, n := d[..4], d[5..7], d[8..];
    assert d == ((y + "-") + (m + "-")) + n;
    hide Undashed;
    UndashedConcat((y + "-") + (m + "-"), n);
    UndashedConcat(y + "-", m + "-");
    UndashedConcat(y, "-");
    UndashedConcat(m, "-");
    UndashedOne();
    UndashedDigits(y);
    UndashedDigits(m);
    UndashedDigits(n);
    NilConcat(y);
    NilConcat(m);
  }

  lemma UndashedStart(t: string)
    requires t == "" || t[0] == '\r'
    ensures Undashed(t) == "" || Undashed(t)[0] == '\r'
  {}

  function Pow10(n: nat): (r: nat)
    ensures r > 0
  {
    if n == 0 then 1 else 10 * Pow10(n - 1)
  }

  lemma DigitsValueSnoc(s: string, c: char)
    requires AllDigits(s) && IsDigit(c)
    ensures AllDigits(s + [c]) && DigitsValue(s + [c]) == 10 * DigitsValue(s) + (c as int - '0' as int)
  {
    var r := s + [c];
    assert r[..|r| - 1] == s;
  }

  lemma ShiftDigits(x: int, p: int, f: int, c: int)
    ensures 10 * (x * p + f) + c == x * (10 * p) + (10 * f + c)
  {}

  lemma {:induction false} DigitsValueConcat(a: string, b: string)
    requires AllDigits(a) && AllDigits(b)
    ensures AllDigits(a + b) && DigitsValue(a + b) == DigitsValue(a) * Pow10(|b|) + DigitsValue(b)
  {
    hide DigitsValue, IsDigit;
    if b == "" {
      NilConcat(a);
      assert DigitsValue("") == 0 by { NoDigits(); }
    } else {
      var front, c := b[..|b| - 1], b[|b| - 1];
      DigitsValueConcat(a, front);
      DigitsValueSnoc(front, c);
      DigitsValueSnoc(a + front, c);
      assert b == front + [c];
      Assoc(a, front, [c]);
      ShiftDigits(DigitsValue(a), Pow10(|front|), DigitsValue(front), c as int - '0' as int);
    }
  }

  lemma NoDigits()
    ensures DigitsValue("") == 0
  {}

  lemma {:induction false} DigitsValueBound(s: string)
    requires AllDigits(s)
    ensures DigitsValue(s) < Pow10(|s|)
  {
    if s != "" {
      assert IsDigit(s[|s| - 1]);
      DigitsValueBound(s[..|s| - 1]);
    }
  }

  lemma Hundred()
    ensures Pow10(2) == 100 && Pow10(4) == 10000
  {}

  lemma EightDigits(d: string)
    requires AllDigits(d) && |d| == 8
    ensures DigitsValue(d) < 100_000_000
  {
    hide DigitsValue;
    DigitsValueBound(d);
    Hundred();
    assert Pow10(6) == 1_000_000;
  }

  lemma StoiDigits(d: string, t: string)
    requires AllDigits(d) && |d| == 8 && (t == "" || t[0] == '\r')
    ensures Stoi(d + t) == Some(DigitsValue(d))
  {
    hide DigitsValue, DigitsEnd, SkipSpace;
    var s := d + t;
    assert forall i :: 0 <= i < 8 ==> s[i] == d[i];
    assert IsDigit(s[0]);
    assert t != "" ==> s[8] == '\r';
    DigitsEndAt(s, 0, 8);
    assert s[0..8] == d;
    EightDigits(d);
  }

  function DateNumber(d: string): nat
    requires DateShape(d)
  {
    DigitsValue(DateDigits(d))
  }

  lemma ValueSplit(s: string, u: nat)
    requires MatchAt(s, UPDATED, u) && DatedAt(s, u)
    ensures var t := ValueAt(s, u)[if |ValueAt(s, u)| < 10 then 0 else 10..];
            ValueAt(s, u) == s[u + 8..u + 18] + t && (t == "" || t[0] == '\r')
  {
    hide IsDigit;
    var rest := s[u + 8..];
    var k := NewlineAt(rest);
    var d := s[u + 8..u + 18];
    assert forall i :: 0 <= i < 10 ==> rest[i] == d[i];
    assert forall i :: 0 <= i < 10 ==> rest[i] != '\n' by {
      DateHasNoNewline(d);
    }
    hide NewlineAt, DateShape;
    assert k >= 10;
    assert ValueAt(s, u) == rest[..k];
    assert rest[..10] == d;
    assert rest[..k] == rest[..10] + rest[..k][10..];
    if k > 10 {
      assert rest[10] == s[u + 18];
    }
  }

  lemma DateHasNoNewline(d: string)
    requires DateShape(d)
    ensures Lacks(d, '\n')
  {}

  /** At a validated occurrence the extraction yields the date's eight digits. */
  lemma DatedValue(s: string, u: nat)
    requires MatchAt(s, UPDATED, u) && DatedAt(s, u)
    ensures Stoi(Undashed(ValueAt(s, u))) == Some(DateNumber(s[u + 8..u + 18]))
  {
    ValueSplit(s, u);
    var v := ValueAt(s, u);
    var d, t := s[u + 8..u + 18], v[if |v| < 10 then 0 else 10..];
    hide Undashed, Stoi, ValueAt, DigitsValue;
    UndashedConcat(d, t);
    UndashedDate(d);
    UndashedStart(t);
    StoiDigits(DateDigits(d), Undashed(t));
  }

  /** What validation says about the first occurrence. */
  lemma ValidOccurrence(content: string)
    requires Valid(content)
    ensures var u := Find(content, UPDATED, 0);
            u.Some? && MatchAt(content, UPDATED, u.value) && DatedAt(content, u.value)
  {
    hide Find, DatedAt, MatchAt;
  }

  lemma UpdatedLineIs(content: string, u: nat)
    requires MatchAt(content, UPDATED, u) && forall i: nat :: i < u ==> !MatchAt(content, UPDATED, i)
    ensures UpdatedLine(content, 0) == Some(u) <==> LineStart(content, u)
  {
    hide MatchAt;
    var r := UpdatedLine(content, 0);
    if LineStart(content, u) {
      UpdatedLineLeast(content, 0, u);
    }
    hide UpdatedLine;
  }

  /** Main result, exactly: on validated content the reader uses the occurrence that was validated if and only
      if that occurrence begins the content or follows a line feed; then it succeeds with the date checked. */
  lemma ValidatedDateIsRead(content: string)
    requires Valid(content)
    ensures var u := Find(content, UPDATED, 0).value;
            && (UpdatedLine(content, 0) == Some(u) <==> u == 0 || content[u - 1] == '\n')
            && (u == 0 || content[u - 1] == '\n' ==> DateOf(content) == Some(DateNumber(content[u + 8..u + 18])))
  {
    ValidOccurrence(content);
    hide Valid, Find, UpdatedLine, ValueAt, Stoi, Undashed, DigitsValue, MatchAt, DateShape;
    var u := Find(content, UPDATED, 0).value;
    UpdatedLineIs(content, u);
    DatedValue(content, u);
  }

  const SOME_DATE := "2024-01-02"

  /** A date after a lone carriage return. */
  const AFTER_RETURN := "\r" + UPDATED + SOME_DATE + "\r" + "[Main]" + "[SLPolicy]"

  lemma Found(s: string, pat: string, i: nat)
    requires MatchAt(s, pat, i)
    ensures Occurs(s, pat)
  {}

  lemma ReturnOccurs()
    ensures var s := AFTER_RETURN;
            MatchAt(s, "[Main]", 20) && MatchAt(s, "[SLPolicy]", 26) && MatchAt(s, UPDATED, 1)
                && !MatchAt(s, UPDATED, 0)
  {
    var s := AFTER_RETURN;
    assert s[20..26] == "[Main]";
    assert s[26..36] == "[SLPolicy]";
    assert s[1..9] == UPDATED;
    assert s[0..8][0] == '\r';
  }

  lemma ReturnDated()
    ensures DatedAt(AFTER_RETURN, 1) && Lacks(AFTER_RETURN, '\0') && Lacks(AFTER_RETURN, '\n')
  {
    var s := AFTER_RETURN;
    assert s[9..19] == SOME_DATE;
  }

  lemma FindsSecond(s: string, pat: string)
    requires MatchAt(s, pat, 1) && !MatchAt(s, pat, 0)
    ensures Find(s, pat, 0) == Some(1)
  {
    hide MatchAt;
  }

  /** The failing family is not empty: this content is validated, and no date is read from it. */
  lemma CarriageReturnMisses()
    ensures Valid(AFTER_RETURN) && DateOf(AFTER_RETURN) == None
  {
    hide Find, MatchAt, DatedAt, Lacks;
    var s := AFTER_RETURN;
    ReturnOccurs();
    ReturnDated();
    Found(s, "[Main]", 20);
    Found(s, "[SLPolicy]", 26);
    FindsSecond(s, UPDATED);
    OneLine(s);
  }

  lemma OneLine(s: string)
    requires Lacks(s, '\n') && !MatchAt(s, UPDATED, 0)
    ensures UpdatedLine(s, 0) == None
  {
    hide MatchAt;
    assert s[0..] == s;
    assert NewlineAt(s) == |s|;
  }

  // ---------------------------------------------------------------- the order of dates

  /** Dictionary order of equally long texts. */
  predicate Before(a: string, b: string)
    requires |a| == |b|
  {
    a != "" && (a[0] < b[0] || (a[0] == b[0] && Before(a[1..], b[1..])))
  }

  lemma {:induction false} BeforeConcat(a: string, b: string, c: string, d: string)
    requires |a| == |b| && |c| == |d|
    ensures Before(a + c, b + d) <==> Before(a, b) || (a == b && Before(c, d))
  {
    if a == "" {
      NilConcat(c);
      NilConcat(d);
    } else {
      assert (a + c)[1..] == a[1..] + c && (b + d)[1..] == b[1..] + d;
      HeadTail(a);
      HeadTail(b);
      BeforeConcat(a[1..], b[1..], c, d);
    }
  }

  lemma BeforeOne(x: char, y: char)
    ensures Before([x], [y]) <==> x < y
  {}

  /** Equally long digit strings compare as numbers the way they compare as text. */
  lemma {:induction false} DigitOrder(a: string, b: string)
    requires AllDigits(a) && AllDigits(b) && |a| == |b|
    ensures DigitsValue(a) < DigitsValue(b) <==> Before(a, b)
    ensures DigitsValue(a) == DigitsValue(b) <==> a == b
  {
    hide Before, DigitsValue;
    if a == "" {
      NothingBefore();
    } else {
      var n := |a| - 1;
      var x, y := a[n], b[n];
      assert a == a[..n] + [x] && b == b[..n] + [y];
      assert IsDigit(x) && IsDigit(y);
      DigitOrder(a[..n], b[..n]);
      BeforeConcat(a[..n], b[..n], [x], [y]);
      BeforeOne(x, y);
      DigitsValueSnoc(a[..n], x);
      DigitsValueSnoc(b[..n], y);
    }
  }

  lemma NothingBefore()
    ensures !Before("", "")
  {}

  lemma Reassemble(d: string)
    requires DateShape(d)
    ensures d == d[..4] + ("-" + (d[5..7] + ("-" + d[8..])))
    ensures DateDigits(d) == d[..4] + (d[5..7] + d[8..])
  {}

  /** Dropping the dashes of two dates neither changes their order nor makes them equal. */
  lemma DashesDoNotMatter(a: string, b: string)
    requires DateShape(a) && DateShape(b)
    ensures Before(a, b) <==> Before(DateDigits(a), DateDigits(b))
    ensures a == b <==> DateDigits(a) == DateDigits(b)
  {
    Reassemble(a);
    Reassemble(b);
    var ya, ma, da, yb, mb, db := a[..4], a[5..7], a[8..], b[..4], b[5..7], b[8..];
    hide Before, DateShape, DateDigits;
    BeforeConcat(ya, yb, ma + da, mb + db);
    BeforeConcat(ma, mb, da, db);
    BeforeConcat(ya, yb, "-" + (ma + ("-" + da)), "-" + (mb + ("-" + db)));
    BeforeConcat("-", "-", ma + ("-" + da), mb + ("-" + db));
    BeforeConcat(ma, mb, "-" + da, "-" + db);
    BeforeConcat("-", "-", da, db);
    BeforeOne('-', '-');
    SameParts(ya, ma, da, yb, mb, db);
  }

  lemma SameParts(ya: string, ma: string, da: string, yb: string, mb: string, db: string)
    requires |ya| == |yb| == 4 && |ma| == |mb| == 2 && |da| == |db| == 2
    ensures ya + (ma + da) == yb + (mb + db) <==> ya == yb && ma == mb && da == db
    ensures ya + ("-" + (ma + ("-" + da))) == yb + ("-" + (mb + ("-" + db))) <==> ya == yb && ma == mb && da == db
  {
    var s, t := ya + (ma + da), yb + (mb + db);
    assert ya == s[..4] && ma == s[4..6] && da == s[6..];
    assert yb == t[..4] && mb == t[4..6] && db == t[6..];
    var u, v := ya + ("-" + (ma + ("-" + da))), yb + ("-" + (mb + ("-" + db)));
    assert ya == u[..4] && ma == u[5..7] && da == u[8..];
    assert yb == v[..4] && mb == v[5..7] && db == v[8..];
  }

  /** Main result: the integers compare exactly as the ten-character dates do. */
  lemma DateOrder(a: string, b: string)
    requires DateShape(a) && DateShape(b)
    ensures DateNumber(a) < DateNumber(b) <==> Before(a, b)
    ensures DateNumber(a) == DateNumber(b) <==> a == b
  {
    hide Before, DigitsValue, DateShape, DateDigits;
    DashesDoNotMatter(a, b);
    DigitOrder(DateDigits(a), DateDigits(b));
  }

  // ---------------------------------------------------------------- the text of a date

  /** Two digits with a leading zero. */
  function Padded(n: nat): string {
    if |Decimal(n)| < 2 then "0" + Decimal(n) else Decimal(n)
  }

  /** formattedDate. */
  function Formatted(date: nat): string {
    Decimal(date / 10000) + "." + Padded((date / 100) % 100) + "." + Padded(date % 100)
  }

  /** The date printed from a year, a month and a day of two digits. */
  lemma FormattedExactly(y: nat, m: nat, d: nat)
    requires m < 100 && d < 100
    ensures Formatted(10000 * y + 100 * m + d) ==
            Decimal(y) + "." + [Digit(m / 10), Digit(m % 10)] + "." + [Digit(d / 10), Digit(d % 10)]
  {
    SplitNumber(y, m, d);
    TwoDigits(m);
    TwoDigits(d);
    hide Decimal, Padded, Digit;
    assert 10000 * y + 100 * m + d == y * 10000 + (m * 100 + d);
  }

  lemma TwoDigits(n: nat)
    requires n < 100
    ensures Padded(n) == [Digit(n / 10), Digit(n % 10)]
  {
    if n >= 10 {
      assert Decimal(n / 10) == [Digit(n / 10)];
    }
  }

  lemma SplitNumber(y: nat, m: nat, d: nat)
    requires m < 100 && d < 100
    ensures var n := y * 10000 + (m * 100 + d);
            n / 10000 == y && (n / 100) % 100 == m && n % 100 == d
  {
    var n := y * 10000 + (m * 100 + d);
    assert n == 100 * (100 * y + m) + d;
    assert n / 100 == 100 * y + m;
  }

  /** The divisions recover the year, the month and the day. */
  lemma DivisionsRecover(d: string)
    requires DateShape(d)
    ensures AllDigits(d[..4]) && AllDigits(d[5..7]) && AllDigits(d[8..])
    ensures var n := DateNumber(d);
            n / 10000 == DigitsValue(d[..4]) && (n / 100) % 100 == DigitsValue(d[5..7])
                && n % 100 == DigitsValue(d[8..])
  {
    Reassemble(d);
    var y, m, day := d[..4], d[5..7], d[8..];
    assert AllDigits(y) && AllDigits(m) && AllDigits(day);
    Hundred();
    hide DigitsValue, DateShape, DateDigits, Pow10, AllDigits;
    DigitsValueConcat(m, day);
    DigitsValueConcat(y, m + day);
    DigitsValueBound(m);
    DigitsValueBound(day);
    SplitNumber(DigitsValue(y), DigitsValue(m), DigitsValue(day));
  }

  /** Printing the value of a digit string without a leading zero gives it back. */
  lemma {:induction false} PrintedBack(s: string)
    requires AllDigits(s) && s != "" && (s[0] != '0' || |s| == 1)
    ensures Decimal(DigitsValue(s)) == s
    ensures s[0] != '0' ==> DigitsValue(s) > 0
  {
    var n := |s| - 1;
    assert s == s[..n] + [s[n]];
    assert IsDigit(s[n]);
    hide IsDigit;
    if n == 0 {
      assert s[..0] == "";
      NilConcat([s[0]]);
    } else {
      PrintedBack(s[..n]);
      assert DigitsValue(s) / 10 == DigitsValue(s[..n]);
    }
  }

  lemma {:induction false} NoLeadingZero(n: nat)
    ensures Decimal(n) != "" && (Decimal(n)[0] == '0' <==> n == 0)
    ensures n == 0 ==> |Decimal(n)| == 1
  {
    if n >= 10 {
      NoLeadingZero(n / 10);
      assert Decimal(n)[0] == Decimal(n / 10)[0];
    }
  }

  /** A four-digit year is printed as it was read exactly when it has no leading zero. */
  lemma YearPrinted(y: string)
    requires AllDigits(y) && |y| == 4
    ensures Decimal(DigitsValue(y)) == y <==> y[0] != '0'
  {
    hide Decimal, DigitsValue, AllDigits;
    if y[0] != '0' {
      PrintedBack(y);
    } else {
      NoLeadingZero(DigitsValue(y));
    }
  }

  lemma TwoDigitsPadded(s: string)
    requires AllDigits(s) && |s| == 2
    ensures Padded(DigitsValue(s)) == s
  {
    if s[0] != '0' {
      PrintedBack(s);
    } else {
      var t := s[1..];
      assert AllDigits(t) && s == "0" + t && AllDigits("0");
      ZeroValue();
      DigitsValueConcat("0", t);
      PrintedBack(t);
    }
    hide Decimal, DigitsValue, Pow10;
  }

  lemma ZeroValue()
    ensures AllDigits("0") && DigitsValue("0") == 0
  {
    assert "0"[..0] == "";
  }

  function Dotted(d: string): string
    requires |d| == 10
  {
    d[..4] + "." + d[5..7] + "." + d[8..]
  }

  /** The printed date is the validated one with dots, exactly when its year has no leading zero. */
  lemma FormattedDateIs(d: string)
    requires DateShape(d)
    ensures Formatted(DateNumber(d)) == Dotted(d) <==> d[0] != '0'
  {
    DivisionsRecover(d);
    var y, m, day := d[..4], d[5..7], d[8..];
    hide DigitsValue, Decimal, Padded, DateShape, AllDigits, DateNumber;
    YearPrinted(y);
    TwoDigitsPadded(m);
    TwoDigitsPadded(day);
    assert Dotted(d) == y + ("." + m + "." + day);
    var printed := Decimal(DigitsValue(y));
    var tail := "." + m + "." + day;
    assert Formatted(DateNumber(d)) == printed + tail;
    SamePrefix(printed, y, tail);
  }

  const EARLY_DATE := "0999-01-02"
  const EARLY := UPDATED + EARLY_DATE + "\n" + "[Main]" + "[SLPolicy]"

  lemma EarlyOccurs()
    ensures MatchAt(EARLY, "[Main]", 19) && MatchAt(EARLY, "[SLPolicy]", 25) && MatchAt(EARLY, UPDATED, 0)
    ensures DatedAt(EARLY, 0) && Lacks(EARLY, '\0') && EARLY[8..18] == EARLY_DATE
  {
    var s := EARLY;
    assert s[19..25] == "[Main]";
    assert s[25..35] == "[SLPolicy]";
    assert s[0..8] == UPDATED;
    assert s[8..18] == EARLY_DATE;
  }

  /** Validated content with a year below one thousand, whose printed date is not the validated one. */
  lemma EarlyYearShrinks()
    ensures Valid(EARLY) && AtLineStart(EARLY) && DateText(EARLY) == EARLY_DATE
    ensures DateShape(EARLY_DATE) && Formatted(DateNumber(EARLY_DATE)) != Dotted(EARLY_DATE)
  {
    hide Find, MatchAt, Lacks, Formatted, DateNumber, Dotted, DateShape;
    EarlyOccurs();
    Found(EARLY, "[Main]", 19);
    Found(EARLY, "[SLPolicy]", 25);
    FindsFirst(EARLY, UPDATED);
    FormattedDateIs(EARLY_DATE);
  }

  lemma FindsFirst(s: string, pat: string)
    requires MatchAt(s, pat, 0)
    ensures Find(s, pat, 0) == Some(0)
  {
    hide MatchAt;
  }

  lemma SamePrefix(a: string, b: string, tail: string)
    ensures a + tail == b + tail <==> a == b
  {
    if a + tail == b + tail {
      assert |a| == |b|;
      assert a == (a + tail)[..|a|] && b == (b + tail)[..|b|];
    }
  }

  // ---------------------------------------------------------------- the decision

  datatype Decision = Denied | UpToDate | LocalNewer | Install

  /** The installed file as iniDate finds it: unreadable, empty or too large files give no date. */
  function InstalledDate(file: Option<string>): Option<int> {
    if file.None? || file.value == "" || |file.value| > MAXIMUM_INI_BYTES then None else DateOf(file.value)
  }

  /** A date is read from an installed file exactly when it can be read, is neither empty nor larger than sixteen
      mebibytes, and has a date. */
  lemma InstalledExactly(file: Option<string>, n: int)
    ensures InstalledDate(file) == Some(n) <==>
            file.Some? && 1 <= |file.value| <= 16_777_216 && DateOf(file.value) == Some(n)
  {
    hide DateOf;
  }

  /** checkUpdate up to the point where it acts; None stands for a file or a download that failed. */
  method CheckUpdate(installed: Option<string>, downloaded: Option<string>) returns (r: Decision)
    ensures r == Denied <==>
            InstalledDate(installed).None? || downloaded.None? || !Valid(downloaded.value)
                || DateOf(downloaded.value).None?
    ensures r != Denied ==> r == Decide(InstalledDate(installed).value, DateOf(downloaded.value).value)
  {
    hide Valid, DateOf;
    if installed.None? || installed.value == "" || |installed.value| > MAXIMUM_INI_BYTES {
      return Denied;
    }
    var oldDate := IniDate(installed.value);
    if oldDate.None? || downloaded.None? {
      return Denied;
    }
    var ok := ValidIniContent(downloaded.value);
    if !ok {
      return Denied;
    }
    var newDate := IniDate(downloaded.value);
    if newDate.None? {
      return Denied;
    }
    if newDate.value == oldDate.value {
      return UpToDate;
    }
    r := if newDate.value < oldDate.value then LocalNewer else Install;
  }

  function Decide(oldDate: int, newDate: int): Decision {
    if newDate == oldDate then UpToDate else if newDate < oldDate then LocalNewer else Install
  }

  /** The date text of validated content. */
  function DateText(content: string): string
    requires Valid(content)
  {
    var u := Find(content, UPDATED, 0).value;
    content[u + 8..u + 18]
  }

  predicate AtLineStart(content: string)
    requires Valid(content)
  {
    LineStart(content, Find(content, UPDATED, 0).value)
  }

  lemma ValidText(content: string)
    requires Valid(content) && AtLineStart(content)
    ensures DateShape(DateText(content)) && DateOf(content) == Some(DateNumber(DateText(content)))
    ensures InstalledDate(Some(content)) == DateOf(content)
  {
    ValidatedDateIsRead(content);
    ValidOccurrence(content);
    hide Find, DateOf, DateShape, DateNumber, MatchAt;
  }

  /** Main result: between two validated files whose date begins a line, the update is installed exactly when
      its date text comes after the installed one's, and they count as the same exactly when the texts are. */
  lemma DecisionFollowsDates(installed: string, downloaded: string)
    requires Valid(installed) && AtLineStart(installed) && Valid(downloaded) && AtLineStart(downloaded)
    ensures InstalledDate(Some(installed)).Some? && DateOf(downloaded).Some?
    ensures DateShape(DateText(installed)) && DateShape(DateText(downloaded))
    ensures var r := Decide(InstalledDate(Some(installed)).value, DateOf(downloaded).value);
            && (r == Install <==> Before(DateText(installed), DateText(downloaded)))
            && (r == UpToDate <==> DateText(installed) == DateText(downloaded))
            && (r == LocalNewer <==> Before(DateText(downloaded), DateText(installed)))
  {
    hide Valid, AtLineStart, DateText, DateOf, DateNumber, InstalledDate, DateShape, Before;
    ValidText(installed);
    ValidText(downloaded);
    DateLength(DateText(installed));
    DateLength(DateText(downloaded));
    DateOrder(DateText(installed), DateText(downloaded));
    DateOrder(DateText(downloaded), DateText(installed));
  }

  lemma DateLength(d: string)
    requires DateShape(d)
    ensures |d| == 10
  {}

  lemma {:induction false} UndashedLacks(s: string)
    ensures Lacks(Undashed(s), '-')
  {
    if s != "" {
      UndashedLacks(s[1..]);
    }
  }

  /** No file yields a negative date, so the printed form never divides one. */
  lemma DateNotNegative(content: string)
    ensures DateOf(content).Some? ==> DateOf(content).value >= 0
  {
    hide UpdatedLine, ValueAt, Undashed, DigitsValue;
    var u := UpdatedLine(content, 0);
    if u.Some? {
      UndashedLacks(ValueAt(content, u.value));
    }
  }
}
