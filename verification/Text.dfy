/** Byte strings as the C++ code sees them: C-locale character classes, trimming,
    substring search, and the two ways the repository cuts a text at newlines. */
module Text {

  newtype Byte = x: int | 0 <= x < 256

  datatype Option<+T> = None | Some(value: T)

  datatype Result<+T, +E> = Ok(value: T) | Err(error: E)

  // ---------------------------------------------------------------- sequences

  lemma Assoc<T>(a: seq<T>, b: seq<T>, c: seq<T>)
    ensures a + (b + c) == a + b + c
  {}

  /** A slice that takes all of a and part of b, and what it leaves. */
  lemma SliceTail<T>(a: seq<T>, b: seq<T>, k: nat)
    requires k <= |b|
    ensures (a + b)[..|a| + k] == a + b[..k]
    ensures (a + b)[|a| + k..] == b[k..]
  {}

  lemma Cuts<T>(s: seq<T>, a: nat, b: nat, c: nat)
    requires a <= b <= c <= |s|
    ensures s == s[..a] + s[a..b] + s[b..c] + s[c..]
  {}

  lemma HeadTail<T>(s: seq<T>)
    requires s != []
    ensures s == [s[0]] + s[1..]
  {}

  lemma DropTail<T>(s: seq<T>, k: nat)
    requires 1 <= k <= |s|
    ensures s[1..][k - 1..] == s[k..]
  {}

  lemma SubSlice<T>(s: seq<T>, at: nat, to: nat, a: nat, b: nat)
    requires a <= b <= to - at && to <= |s|
    ensures s[at..to][a..b] == s[at + a..at + b]
  {
    var x, y := s[at..to][a..b], s[at + a..at + b];
    assert |x| == |y| && forall k :: 0 <= k < |x| ==> x[k] == y[k];
  }

  lemma ConsTail<T>(x: T, s: seq<T>)
    ensures ([x] + s)[1..] == s
  {}

  lemma TakeAll<T>(s: seq<T>)
    ensures s[..|s|] == s
  {}

  lemma NilConcat<T>(s: seq<T>)
    ensures [] + s == s && s + [] == s
  {}

  // ---------------------------------------------------------------- characters

  /** isspace in the C locale: blank, tab, line feed, carriage return, vertical tab, form feed. */
  predicate IsSpace(c: char) {
    c == ' ' || c == '\t' || c == '\n' || c == '\r' || c == '\U{000B}' || c == '\U{000C}'
  }

  /** tolower in the C locale. */
  function Lower(c: char): (r: char)
    ensures IsSpace(r) <==> IsSpace(c)
    ensures !('A' <= r <= 'Z')
    ensures !('A' <= c <= 'Z') ==> r == c
    ensures 'A' <= c <= 'Z' ==> 'a' <= r <= 'z' && r - 'a' == c - 'A'
  {
    if 'A' <= c <= 'Z' then (c as int + 32) as char else c
  }

  function ToLower(s: string): (r: string)
    ensures |r| == |s|
    ensures forall i :: 0 <= i < |s| ==> r[i] == Lower(s[i])
  {
    seq(|s|, i requires 0 <= i < |s| => Lower(s[i]))
  }

  predicate IsLower(s: string) {
    forall i :: 0 <= i < |s| ==> Lower(s[i]) == s[i]
  }

  lemma LowerFixed(s: string)
    ensures IsLower(ToLower(s))
    ensures IsLower(s) <==> ToLower(s) == s
  {
    if IsLower(s) {
      assert ToLower(s) == s;
    }
    if ToLower(s) == s {
      assert forall i :: 0 <= i < |s| ==> ToLower(s)[i] == Lower(s[i]);
    }
  }

  predicate AllSpace(s: string) {
    forall i :: 0 <= i < |s| ==> IsSpace(s[i])
  }

  predicate Lacks(s: string, c: char) {
    forall i :: 0 <= i < |s| ==> s[i] != c
  }

  // ---------------------------------------------------------------- trimming

  /** The first position at or after `i` that is not white space, or the length. */
  function SkipSpace(s: string, i: nat): (r: nat)
    requires i <= |s|
    ensures i <= r <= |s|
    ensures forall k :: i <= k < r ==> IsSpace(s[k])
    ensures r < |s| ==> !IsSpace(s[r])
    decreases |s| - i
  {
    if i < |s| && IsSpace(s[i]) then SkipSpace(s, i + 1) else i
  }

  /** The end of the text in s[lo..hi] once its trailing white space is given up. */
  function BackSpace(s: string, lo: nat, hi: nat): (r: nat)
    requires lo <= hi <= |s|
    ensures lo <= r <= hi
    ensures forall k :: r <= k < hi ==> IsSpace(s[k])
    ensures r > lo ==> !IsSpace(s[r - 1])
  {
    if hi > lo && IsSpace(s[hi - 1]) then BackSpace(s, lo, hi - 1) else hi
  }

  function TrimRight(s: string): (r: string)
    ensures |r| <= |s| && r == s[..|r|]
    ensures r != "" ==> !IsSpace(r[|r| - 1])
    ensures forall i :: |r| <= i < |s| ==> IsSpace(s[i])
  {
    s[..BackSpace(s, 0, |s|)]
  }

  predicate IsTrimmed(s: string) {
    s == "" || (!IsSpace(s[0]) && !IsSpace(s[|s| - 1]))
  }

  /** trim_copy: drop leading and trailing white space. */
  function Trim(s: string): (r: string)
    ensures IsTrimmed(r)
    ensures |r| <= |s|
  {
    var from := SkipSpace(s, 0);
    s[from..BackSpace(s, from, |s|)]
  }

  /** TrimRight is the only way to cut trailing white space off. */
  lemma TrimRightUnique(m: string, b: string)
    requires AllSpace(b)
    requires m == "" || !IsSpace(m[|m| - 1])
    ensures TrimRight(m + b) == m
  {
    var s := m + b;
    assert m != "" ==> s[|m| - 1] == m[|m| - 1];
    assert forall i :: |m| <= i < |s| ==> s[i] == b[i - |m|];
    assert BackSpace(s, 0, |s|) == |m|;
  }

  /** A trimmed core between two runs of white space is exactly what trim_copy returns. */
  lemma TrimUnique(a: string, m: string, b: string)
    requires AllSpace(a) && AllSpace(b) && IsTrimmed(m)
    ensures Trim(a + m + b) == m
  {
    var s := a + m + b;
    var from := SkipSpace(s, 0);
    assert forall i :: 0 <= i < |a| ==> s[i] == a[i];
    assert forall i :: 0 <= i < |m| ==> s[|a| + i] == m[i];
    assert forall i :: |a| + |m| <= i < |s| ==> s[i] == b[i - |a| - |m|];
    if m == "" {
      assert from == |s|;
    } else {
      assert from == |a|;
      assert s[|a| + |m| - 1] == m[|m| - 1];
      assert BackSpace(s, from, |s|) == |a| + |m|;
    }
  }

  lemma TrimFixed(s: string)
    ensures Trim(s) == s <==> IsTrimmed(s)
  {
    if IsTrimmed(s) {
      TrimUnique("", s, "");
      assert "" + s + "" == s;
    }
  }

  /** Where the trimmed text sits inside the original. */
  lemma TrimSpan(s: string) returns (from: nat, to: nat)
    ensures from <= to <= |s| && Trim(s) == s[from..to]
    ensures forall i :: 0 <= i < from || to <= i < |s| ==> IsSpace(s[i])
  {
    from := SkipSpace(s, 0);
    to := BackSpace(s, from, |s|);
  }

  lemma TrimLacks(s: string, c: char)
    requires Lacks(s, c)
    ensures Lacks(Trim(s), c)
  {
    var from, to := TrimSpan(s);
  }

  // ---------------------------------------------------------------- searching

  predicate MatchAt(s: string, pat: string, i: nat) {
    i + |pat| <= |s| && s[i..i + |pat|] == pat
  }

  /** std::string::find: the first position at or after `from` where `pat` occurs. */
  function Find(s: string, pat: string, from: nat): (r: Option<nat>)
    ensures r.Some? ==> from <= r.value && MatchAt(s, pat, r.value)
    ensures r.Some? ==> forall i: nat :: from <= i < r.value ==> !MatchAt(s, pat, i)
    ensures r.None? ==> forall i: nat :: from <= i ==> !MatchAt(s, pat, i)
    decreases |s| - from
  {
    if from > |s| then None
    else if MatchAt(s, pat, from) then Some(from)
    else Find(s, pat, from + 1)
  }

  predicate StartsWith(s: string, prefix: string) {
    |s| >= |prefix| && s[..|prefix|] == prefix
  }

  // ---------------------------------------------------------------- newlines

  /** Position of the first '\n', or the length when there is none. */
  function NewlineAt(s: string): (r: nat)
    ensures r <= |s|
    ensures r < |s| ==> s[r] == '\n'
    ensures forall i :: 0 <= i < r ==> s[i] != '\n'
  {
    if s == "" || s[0] == '\n' then 0 else 1 + NewlineAt(s[1..])
  }

  /** The lines std::getline delivers: a final '\n' ends the last line, it does not open another. */
  function Lines(t: string): seq<string> {
    if t == "" then []
    else
      var k := NewlineAt(t);
      if k == |t| then [t] else [t[..k]] + Lines(t[k + 1..])
  }

  lemma LinesUnfold(t: string)
    requires t != ""
    ensures var k := NewlineAt(t);
            Lines(t) == [t[..k]] + if k == |t| then [] else Lines(t[k + 1..])
  {
    hide NewlineAt;
    if NewlineAt(t) == |t| {
      assert t[..|t|] == t;
    }
  }

  lemma NoLines()
    ensures Lines("") == []
  {}

  /** Every line followed by '\n'. */
  function Unlines(ls: seq<string>): string {
    if ls == [] then "" else ls[0] + "\n" + Unlines(ls[1..])
  }

  /** Cut at every '\n'; the result is never empty. */
  function Split(s: string): (r: seq<string>)
    ensures |r| >= 1
  {
    var k := NewlineAt(s);
    if k == |s| then [s] else [s[..k]] + Split(s[k + 1..])
  }

  /** No line of a list contains a newline. */
  predicate AllLack(ls: seq<string>) {
    forall i :: 0 <= i < |ls| ==> Lacks(ls[i], '\n')
  }

  lemma {:induction false} LinesLack(t: string)
    ensures AllLack(Lines(t))
  {
    if t != "" && NewlineAt(t) < |t| {
      LinesLack(t[NewlineAt(t) + 1..]);
    }
  }

  lemma {:induction false} SplitLack(s: string)
    ensures AllLack(Split(s))
  {
    if NewlineAt(s) < |s| {
      SplitLack(s[NewlineAt(s) + 1..]);
    }
  }

  /** Lines with '\n' between them. */
  function Join(ls: seq<string>): string
  {
    if ls == [] then "" else if |ls| == 1 then ls[0] else ls[0] + "\n" + Join(ls[1..])
  }

  lemma NewlineAtUnique(a: string, b: string)
    requires Lacks(a, '\n')
    ensures NewlineAt(a + "\n" + b) == |a|
    ensures NewlineAt(a) == |a|
  {
    var s := a + "\n" + b;
    assert s[|a|] == '\n';
    assert forall i :: 0 <= i < |a| ==> s[i] == a[i];
  }

  /** Reading back lines that were each written with a terminator. */
  lemma {:induction false} LinesOfUnlines(ls: seq<string>)
    requires AllLack(ls)
    ensures Lines(Unlines(ls)) == ls
  {
    if ls != [] {
      var rest := Unlines(ls[1..]);
      NewlineAtUnique(ls[0], rest);
      var t := Unlines(ls);
      assert t == ls[0] + "\n" + rest;
      assert t[..|ls[0]|] == ls[0] && t[|ls[0]| + 1..] == rest;
      LinesOfUnlines(ls[1..]);
    }
  }

  /** A last line that nothing ends is a line all the same, unless it is empty. */
  lemma {:induction false} LinesUnterminated(ls: seq<string>, last: string)
    requires AllLack(ls) && Lacks(last, '\n')
    ensures Lines(Unlines(ls) + last) == ls + if last == "" then [] else [last]
  {
    if ls == [] {
      NilConcat(last);
      NewlineAtUnique(last, "");
    } else {
      var rest := Unlines(ls[1..]) + last;
      var t := ls[0] + "\n" + rest;
      NewlineAtUnique(ls[0], rest);
      assert Unlines(ls) + last == t;
      assert t[..|ls[0]|] == ls[0] && t[|ls[0]| + 1..] == rest;
      LinesUnterminated(ls[1..], last);
      HeadTail(ls);
      Assoc([ls[0]], ls[1..], if last == "" then [] else [last]);
    }
  }

  lemma {:induction false} SplitOfJoin(ls: seq<string>)
    requires |ls| >= 1
    requires AllLack(ls)
    ensures Split(Join(ls)) == ls
  {
    if |ls| == 1 {
      NewlineAtUnique(ls[0], "");
    } else {
      var rest := Join(ls[1..]);
      var t := Join(ls);
      NewlineAtUnique(ls[0], rest);
      assert t[..|ls[0]|] == ls[0] && t[|ls[0]| + 1..] == rest;
      SplitOfJoin(ls[1..]);
    }
  }

  lemma JoinCons(a: string, ls: seq<string>)
    requires ls != []
    ensures Join([a] + ls) == a + "\n" + Join(ls)
  {
    assert ([a] + ls)[1..] == ls;
  }

  lemma CutAtNewline(s: string, k: nat)
    requires k < |s| && s[k] == '\n'
    ensures s == s[..k] + "\n" + s[k + 1..]
  {}

  lemma {:induction false} JoinOfSplit(s: string)
    ensures Join(Split(s)) == s
  {
    var k := NewlineAt(s);
    if k < |s| {
      JoinOfSplit(s[k + 1..]);
      CutAtNewline(s, k);
      JoinCons(s[..k], Split(s[k + 1..]));
      hide NewlineAt, Join;
    }
  }

  lemma {:induction false} UnlinesConcat(a: seq<string>, b: seq<string>)
    ensures Unlines(a + b) == Unlines(a) + Unlines(b)
  {
    if a == [] {
      assert a + b == b;
    } else {
      assert (a + b)[1..] == a[1..] + b;
      UnlinesConcat(a[1..], b);
    }
  }

  lemma {:induction false} JoinAppend(a: seq<string>, b: seq<string>)
    requires |a| >= 1 && |b| >= 1
    ensures Join(a + b) == Join(a) + "\n" + Join(b)
  {
    if |a| == 1 {
      assert (a + b)[1..] == b;
    } else {
      assert (a + b)[1..] == a[1..] + b;
      JoinAppend(a[1..], b);
    }
  }
}
