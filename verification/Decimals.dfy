/** Decimal numbers as text: printing, the digit run a number parser reads, and its value. */
module Decimals {
  import opened Text

  function Digit(d: nat): char
    requires d < 10
  {
    ('0' as int + d) as char
  }

  /** An unsigned number printed without padding. */
  function Decimal(n: nat): string {
    if n < 10 then [Digit(n)] else Decimal(n / 10) + [Digit(n % 10)]
  }

  predicate IsDigit(c: char) {
    '0' <= c <= '9'
  }

  predicate AllDigits(s: string) {
    forall i :: 0 <= i < |s| ==> IsDigit(s[i])
  }

  lemma {:induction false} DecimalDigits(n: nat)
    ensures Decimal(n) != "" && AllDigits(Decimal(n))
  {
    if n >= 10 {
      DecimalDigits(n / 10);
    }
  }

  function DigitsEnd(s: string, from: nat): (r: nat)
    requires from <= |s|
    ensures from <= r <= |s|
    ensures forall i :: from <= i < r ==> IsDigit(s[i])
    decreases |s| - from
  {
    if from < |s| && IsDigit(s[from]) then DigitsEnd(s, from + 1) else from
  }

  function DigitsValue(s: string): nat
    requires AllDigits(s)
  {
    if s == "" then 0
    else
      assert IsDigit(s[|s| - 1]);
      10 * DigitsValue(s[..|s| - 1]) + (s[|s| - 1] as int - '0' as int)
  }

  /** Printing a number and reading the digits is the identity. */
  lemma {:induction false} DecimalValue(n: nat)
    ensures AllDigits(Decimal(n)) && DigitsValue(Decimal(n)) == n
  {
    DecimalDigits(n);
    if n >= 10 {
      DecimalDigits(n / 10);
      DecimalValue(n / 10);
      var s := Decimal(n);
      assert s[..|s| - 1] == Decimal(n / 10);
    }
  }

  /** s are digits of n in base ten, with any number of leading zeros. */
  predicate IsDecimalOf(s: string, n: nat)
    decreases |s|
  {
    if s == "" then n == 0 else s[|s| - 1] == Digit(n % 10) && IsDecimalOf(s[..|s| - 1], n / 10)
  }

  lemma Divided(q: nat, d: nat, n: nat)
    requires d < 10
    ensures 10 * q + d == n <==> q == n / 10 && d == n % 10
  {}

  lemma AllDigitsSnoc(s: string, c: char)
    ensures AllDigits(s + [c]) <==> AllDigits(s) && IsDigit(c)
  {
    var t := s + [c];
    assert t[|s|] == c && forall i :: 0 <= i < |s| ==> t[i] == s[i];
  }

  /** The value of a run of digits is the number whose digits they are. */
  lemma {:induction false} DigitsValueExactly(s: string, n: nat)
    ensures AllDigits(s) && DigitsValue(s) == n <==> IsDecimalOf(s, n)
    decreases |s|
  {
    hide AllDigits;
    if s == "" {
      NoDigits();
    } else {
      var front, last := s[..|s| - 1], s[|s| - 1];
      DigitsValueExactly(front, n / 10);
      AllDigitsSnoc(front, last);
      assert front + [last] == s;
      if AllDigits(s) {
        Divided(DigitsValue(front), last as int - '0' as int, n);
      }
    }
  }

  lemma NoDigits()
    ensures AllDigits("")
  {}

  /** The run stops exactly where the digits do. */
  lemma {:induction false} DigitsEndAt(s: string, from: nat, to: nat)
    requires from <= to <= |s| && (forall i :: from <= i < to ==> IsDigit(s[i]))
    requires to < |s| ==> !IsDigit(s[to])
    ensures DigitsEnd(s, from) == to
    decreases |s| - from
  {
    if from < to {
      DigitsEndAt(s, from + 1, to);
    }
  }

  predicate Sign(s: string) {
    s == "" || s == "-" || s == "+"
  }

  /** Where a number begins: after white space and a sign. */
  function Start(s: string): (r: nat)
    ensures r <= |s|
  {
    var from := SkipSpace(s, 0);
    if from < |s| && (s[from] == '-' || s[from] == '+') then from + 1 else from
  }

  lemma {:induction false} SkipAt(s: string, space: string, i: nat)
    requires space <= s && AllSpace(space) && i <= |space| && (|space| < |s| ==> !IsSpace(s[|space|]))
    ensures SkipSpace(s, i) == |space|
    decreases |space| - i
  {
    if i < |space| {
      SkipAt(s, space, i + 1);
    }
  }

  /** The white space and the sign before it. */
  lemma SignPart(s: string)
    ensures var from, start := SkipSpace(s, 0), Start(s);
            && from <= start <= |s| && AllSpace(s[..from]) && Sign(s[from..start])
            && (s[from..start] == "-" <==> start > 0 && s[start - 1] == '-')
  {
    var from, start := SkipSpace(s, 0), Start(s);
    if start == from {
      assert s[from..start] == "";
      if start > 0 {
        assert IsSpace(s[start - 1]);
      }
    } else {
      assert s[from..start] == [s[from]];
    }
  }
}
