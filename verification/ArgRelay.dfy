/** How the installer hands its arguments to its elevated copy: one string built by quoting,
    cut again by the C runtime's rules, and filtered for two markers. */
module ArgRelay {
  import opened Text
  import opened Decimals

  const PID_MARKER := "--rdpw-console-pid="
  const PIPE_MARKER := "--rdpw-output-pipe="

  // ---------------------------------------------------------------- quoting

  function Backslashes(n: nat): (r: string)
    ensures |r| == n
  {
    seq(n, _ => '\\')
  }

  predicate NeedsQuotes(arg: string) {
    arg == "" || exists i :: 0 <= i < |arg| && arg[i] in {' ', '\t', '\n', '\U{000B}', '\"'}
  }

  /** The inside of a quoted argument, after `pending` backslashes not written yet. */
  function QuoteBody(s: string, pending: nat): string
    decreases |s|
  {
    if s == "" then Backslashes(2 * pending)
    else if s[0] == '\\' then QuoteBody(s[1..], pending + 1)
    else if s[0] == '\"' then Backslashes(2 * pending + 1) + "\"" + QuoteBody(s[1..], 0)
    else Backslashes(pending) + [s[0]] + QuoteBody(s[1..], 0)
  }

  function Quote(arg: string): string {
    if NeedsQuotes(arg) then "\"" + QuoteBody(arg, 0) + "\"" else arg
  }

  /** quoteArgument. */
  method QuoteArgument(argument: string) returns (quoted: string)
    ensures quoted == Quote(argument)
  {
    hide QuoteBody;
    if argument != "" && forall i :: 0 <= i < |argument| ==> argument[i] !in {' ', '\t', '\n', '\U{000B}', '\"'} {
      return argument;
    }
    quoted := "\"";
    var backslashes := 0;
    assert argument[0..] == argument;
    for i := 0 to |argument|
      invariant quoted + QuoteBody(argument[i..], backslashes) == "\"" + QuoteBody(argument, 0)
    {
      QuoteBodyStep(argument, i, backslashes, quoted);
      var ch := argument[i];
      if ch == '\\' {
        backslashes := backslashes + 1;
      } else if ch == '\"' {
        quoted := quoted + Backslashes(backslashes * 2 + 1);
        quoted := quoted + "\"";
        backslashes := 0;
      } else {
        quoted := quoted + Backslashes(backslashes);
        backslashes := 0;
        quoted := quoted + [ch];
      }
    }
    QuoteBodyEnd(argument[|argument|..], backslashes);
    quoted := quoted + Backslashes(backslashes * 2);
    quoted := quoted + "\"";
  }

  /** Only an argument that is empty or holds a blank, tab, newline, vertical tab or quote is quoted at all. */
  lemma QuotedExactly(arg: string)
    ensures Quote(arg) == arg <==>
            arg != "" && Lacks(arg, ' ') && Lacks(arg, '\t') && Lacks(arg, '\n') && Lacks(arg, '\U{000B}')
                && Lacks(arg, '\"')
    ensures Quote(arg) != arg ==> Quote(arg) == "\"" + QuoteBody(arg, 0) + "\"" && |Quote(arg)| >= |arg| + 2
  {
    QuoteGrows(arg, 0);
  }

  lemma {:induction false} QuoteGrows(s: string, pending: nat)
    ensures |QuoteBody(s, pending)| >= |s| + pending
    decreases |s|
  {
    if s != "" {
      QuoteGrows(s[1..], pending + 1);
      QuoteGrows(s[1..], 0);
    }
  }

  lemma QuoteBodyStep(s: string, i: nat, pending: nat, front: string)
    requires i < |s|
    ensures front + QuoteBody(s[i..], pending) ==
            if s[i] == '\\' then front + QuoteBody(s[i + 1..], pending + 1)
            else if s[i] == '\"' then front + Backslashes(2 * pending + 1) + "\"" + QuoteBody(s[i + 1..], 0)
            else front + Backslashes(pending) + [s[i]] + QuoteBody(s[i + 1..], 0)
  {
    hide Backslashes;
    assert s[i..][1..] == s[i + 1..];
    var rest := QuoteBody(s[i + 1..], 0);
    Assoc(front + Backslashes(2 * pending + 1), "\"", rest);
    Assoc(front, Backslashes(2 * pending + 1), "\"" + rest);
    Assoc(Backslashes(2 * pending + 1), "\"", rest);
    Assoc(front + Backslashes(pending), [s[i]], rest);
    Assoc(front, Backslashes(pending), [s[i]] + rest);
    Assoc(Backslashes(pending), [s[i]], rest);
  }

  lemma QuoteBodyEnd(s: string, pending: nat)
    requires s == ""
    ensures QuoteBody(s, pending) == Backslashes(2 * pending)
  {}

  // ---------------------------------------------------------------- the runtime's rules

  /** What the reader makes of "" inside a quoted part: a literal quote that stays inside,
      a literal quote that ends the quoted part, or nothing special. */
  datatype DoubledQuote = Stays | Ends | Plain

  predicate IsBlank(c: char) {
    c == ' ' || c == '\t'
  }

  function LeadingBackslashes(s: string): (n: nat)
    ensures n <= |s|
  {
    if s != "" && s[0] == '\\' then 1 + LeadingBackslashes(s[1..]) else 0
  }

  datatype Scanned = Scanned(arg: string, rest: string)

  function Emit(front: string, s: Scanned): Scanned {
    Scanned(front + s.arg, s.rest)
  }

  /** One argument from here on: backslashes count only before a quote, in pairs. */
  function ScanArg(s: string, inQuotes: bool, rule: DoubledQuote): (r: Scanned)
    ensures |r.rest| <= |s|
    ensures s != "" && !IsBlank(s[0]) ==> |r.rest| < |s|
    decreases |s|
  {
    var n := LeadingBackslashes(s);
    var t := s[n..];
    if t != "" && t[0] == '\"' then
      if n % 2 == 1 then Emit(Backslashes(n / 2) + "\"", ScanArg(t[1..], inQuotes, rule))
      else if inQuotes && |t| > 1 && t[1] == '\"' && rule != Plain then
        Emit(Backslashes(n / 2) + "\"", ScanArg(t[2..], rule == Stays, rule))
      else Emit(Backslashes(n / 2), ScanArg(t[1..], !inQuotes, rule))
    else if t == "" || (!inQuotes && IsBlank(t[0])) then Scanned(Backslashes(n), t)
    else Emit(Backslashes(n) + [t[0]], ScanArg(t[1..], inQuotes, rule))
  }

  /** The argument list of a parameter string. */
  function SplitArgs(s: string, rule: DoubledQuote): seq<string>
    decreases |s|
  {
    if s == "" then []
    else if IsBlank(s[0]) then SplitArgs(s[1..], rule)
    else
      var r := ScanArg(s, false, rule);
      [r.arg] + SplitArgs(r.rest, rule)
  }

  // ---------------------------------------------------------------- one argument survives

  lemma {:induction false} LeadingOf(k: nat, x: string)
    requires x == "" || x[0] != '\\'
    ensures LeadingBackslashes(Backslashes(k) + x) == k && (Backslashes(k) + x)[k..] == x
  {
    if k > 0 {
      LeadingOf(k - 1, x);
      assert (Backslashes(k) + x)[1..] == Backslashes(k - 1) + x;
    } else {
      assert Backslashes(0) + x == x;
    }
  }

  lemma MoreBackslashes(k: nat, s: string)
    requires s != "" && s[0] == '\\'
    ensures Backslashes(k + 1) + s[1..] == Backslashes(k) + s
  {}

  /** The text that may follow an argument. */
  predicate Separated(tail: string) {
    tail == "" || tail[0] == ' '
  }

  /** k backslashes and a character that is no backslash and no quote. */
  lemma ScanPlain(k: nat, c: char, x: string, inQuotes: bool, rule: DoubledQuote)
    requires c != '\\' && c != '\"' && (inQuotes || !IsBlank(c))
    ensures ScanArg(Backslashes(k) + ([c] + x), inQuotes, rule) ==
            Emit(Backslashes(k) + [c], ScanArg(x, inQuotes, rule))
  {
    LeadingOf(k, [c] + x);
    ConsTail(c, x);
  }

  /** 2k+1 backslashes and a quote are k backslashes and a literal quote. */
  lemma ScanEscaped(k: nat, x: string, inQuotes: bool, rule: DoubledQuote)
    ensures ScanArg(Backslashes(2 * k + 1) + ("\"" + x), inQuotes, rule) ==
            Emit(Backslashes(k) + "\"", ScanArg(x, inQuotes, rule))
  {
    hide *;
    var s, t := Backslashes(2 * k + 1) + ("\"" + x), "\"" + x;
    LeadingOf(2 * k + 1, t);
    ConsTail('\"', x);
    ScanOdd(s, inQuotes, rule);
    assert (2 * k + 1) / 2 == k;
  }

  lemma ScanOdd(s: string, inQuotes: bool, rule: DoubledQuote)
    requires var n := LeadingBackslashes(s);
             n % 2 == 1 && n < |s| && s[n..][0] == '\"'
    ensures var n := LeadingBackslashes(s);
            ScanArg(s, inQuotes, rule) == Emit(Backslashes(n / 2) + "\"", ScanArg(s[n..][1..], inQuotes, rule))
  {
    hide Backslashes, Emit, LeadingBackslashes;
  }

  /** 2k backslashes and the closing quote end the quoted part, and before a separator the argument. */
  lemma ScanClosing(k: nat, tail: string, rule: DoubledQuote)
    requires Separated(tail)
    ensures ScanArg(Backslashes(2 * k) + ("\"" + tail), true, rule) == Scanned(Backslashes(k), tail)
  {
    hide *;
    ScanQuoteOff(k, tail, rule);
    ScanStops(0, tail, rule);
    NoBackslashes(tail);
    NilConcat(Backslashes(k));
    NoBackslashes("");
    EmitDone(Backslashes(k), tail);
  }

  lemma EmitDone(front: string, tail: string)
    ensures Emit(front, Scanned(Backslashes(0), tail)) == Scanned(front, tail)
  {
    assert Backslashes(0) == "";
    NilConcat(front);
  }

  lemma ScanQuoteOff(k: nat, tail: string, rule: DoubledQuote)
    requires Separated(tail)
    ensures ScanArg(Backslashes(2 * k) + ("\"" + tail), true, rule) == Emit(Backslashes(k), ScanArg(tail, false, rule))
  {
    hide Backslashes, Emit;
    LeadingOf(2 * k, "\"" + tail);
    ConsTail('\"', tail);
  }

  lemma {:induction false} ScanBody(s: string, pending: nat, tail: string, rule: DoubledQuote)
    requires Separated(tail)
    ensures ScanArg(QuoteBody(s, pending) + ("\"" + tail), true, rule) == Scanned(Backslashes(pending) + s, tail)
    decreases |s|
  {
    hide ScanArg, Backslashes;
    var close := "\"" + tail;
    if s == "" {
      ScanClosing(pending, tail, rule);
      NilConcat(Backslashes(pending));
    } else {
      HeadTail(s);
      if s[0] == '\\' {
        ScanBody(s[1..], pending + 1, tail, rule);
        MoreBackslashes(pending, s);
      } else {
        var rest := QuoteBody(s[1..], 0) + close;
        ScanBody(s[1..], 0, tail, rule);
        NoBackslashes(s[1..]);
        Assoc(Backslashes(pending), [s[0]], s[1..]);
        if s[0] == '\"' {
          ScanEscaped(pending, rest, true, rule);
          BodyShape(Backslashes(2 * pending + 1), "\"", QuoteBody(s[1..], 0), close);
        } else {
          ScanPlain(pending, s[0], rest, true, rule);
          BodyShape(Backslashes(pending), [s[0]], QuoteBody(s[1..], 0), close);
        }
      }
    }
  }

  lemma NoBackslashes(s: string)
    ensures Backslashes(0) + s == s
  {}

  lemma BodyShape(a: string, b: string, c: string, d: string)
    ensures a + b + c + d == a + (b + (c + d))
  {}

  lemma {:induction false} ScanUnquoted(arg: string, tail: string, rule: DoubledQuote)
    requires Separated(tail) && forall i :: 0 <= i < |arg| ==> !IsBlank(arg[i]) && arg[i] != '\"'
    ensures ScanArg(arg + tail, false, rule) == Scanned(arg, tail)
    decreases |arg|
  {
    hide ScanArg;
    var k := LeadingBackslashes(arg);
    LeadingSplit(arg);
    if k == |arg| {
      ScanStops(k, tail, rule);
      NilConcat(Backslashes(k));
      assert arg == Backslashes(k);
    } else {
      var c, x := arg[k], arg[k + 1..];
      ScanUnquoted(x, tail, rule);
      ScanPlain(k, c, x + tail, false, rule);
      assert arg == Backslashes(k) + [c] + x;
      BodyShape(Backslashes(k), [c], x, tail);
      assert Backslashes(k) + [c] + x + tail == Backslashes(k) + ([c] + (x + tail));
    }
  }

  lemma {:induction false} LeadingSplit(s: string)
    ensures var k := LeadingBackslashes(s);
            s == Backslashes(k) + s[k..] && (k < |s| ==> s[k] != '\\')
  {
    if s != "" && s[0] == '\\' {
      LeadingSplit(s[1..]);
    }
  }

  lemma ScanStops(k: nat, tail: string, rule: DoubledQuote)
    requires Separated(tail)
    ensures ScanArg(Backslashes(k) + tail, false, rule) == Scanned(Backslashes(k), tail)
  {
    LeadingOf(k, tail);
  }

  /** A quoted argument before a separator is scanned back whole, and nothing of it leaks into the rest,
      whichever doubled-quote rule the reader follows. */
  lemma ScanQuoted(arg: string, tail: string, rule: DoubledQuote)
    requires Separated(tail)
    ensures ScanArg(Quote(arg) + tail, false, rule) == Scanned(arg, tail)
  {
    hide ScanArg, QuoteBody;
    if NeedsQuotes(arg) {
      var x := QuoteBody(arg, 0) + ("\"" + tail);
      ScanBody(arg, 0, tail, rule);
      ScanOpening(x, rule);
      BodyShape("", "\"", QuoteBody(arg, 0), "\"" + tail);
      assert Quote(arg) + tail == "\"" + x;
      NoBackslashes(arg);
    } else {
      ScanUnquoted(arg, tail, rule);
    }
  }

  lemma ScanOpening(x: string, rule: DoubledQuote)
    ensures ScanArg("\"" + x, false, rule) == ScanArg(x, true, rule)
  {
    ConsTail('\"', x);
    assert Backslashes(0) == "";
    var r := ScanArg(x, true, rule);
    NilConcat(r.arg);
    assert LeadingBackslashes("\"" + x) == 0;
    assert ("\"" + x)[0..] == "\"" + x;
  }

  // ---------------------------------------------------------------- the parameter string

  /** The quoted parts with one blank between them. */
  function Joined(parts: seq<string>): string {
    if parts == [] then "" else if |parts| == 1 then Quote(parts[0]) else Quote(parts[0]) + (" " + Joined(parts[1..]))
  }

  lemma QuoteSome(arg: string)
    ensures Quote(arg) != "" && !IsBlank(Quote(arg)[0])
  {
    hide QuoteBody;
  }

  lemma {:induction false} SplitJoined(parts: seq<string>, rule: DoubledQuote)
    ensures SplitArgs(Joined(parts), rule) == parts
    decreases |parts|
  {
    hide ScanArg, Quote;
    if parts != [] {
      HeadTail(parts);
      QuoteSome(parts[0]);
      if |parts| == 1 {
        ScanQuoted(parts[0], "", rule);
        NilConcat(Quote(parts[0]));
      } else {
        var tail := " " + Joined(parts[1..]);
        ScanQuoted(parts[0], tail, rule);
        assert Joined(parts)[0] == Quote(parts[0])[0];
        SplitJoined(parts[1..], rule);
        ConsTail(' ', Joined(parts[1..]));
        assert SplitArgs(tail, rule) == SplitArgs(Joined(parts[1..]), rule);
      }
    }
  }

  lemma {:induction false} JoinedSnoc(parts: seq<string>, last: string)
    ensures Joined(parts + [last]) == if parts == [] then Quote(last) else Joined(parts) + " " + Quote(last)
    decreases |parts|
  {
    if parts == [] {
      NilConcat([last]);
    } else {
      hide *;
      HeadTail(parts);
      ConsTail(parts[0], parts[1..]);
      Assoc([parts[0]], parts[1..], [last]);
      JoinedCons(parts[0], parts[1..]);
      JoinedCons(parts[0], parts[1..] + [last]);
      JoinedSnoc(parts[1..], last);
      var q, j := Quote(parts[0]), Joined(parts[1..]);
      Assoc(q, " ", Quote(last));
      Assoc(q, " " + j, " " + Quote(last));
      Assoc(" ", j, " " + Quote(last));
      Assoc(j, " ", Quote(last));
      Assoc(q + (" " + j), " ", Quote(last));
    }
  }

  lemma JoinedCons(first: string, rest: seq<string>)
    ensures Joined([first] + rest) == if rest == [] then Quote(first) else Quote(first) + (" " + Joined(rest))
  {
    hide Quote;
    ConsTail(first, rest);
  }

  lemma {:induction false} JoinedSome(parts: seq<string>)
    ensures Joined(parts) == "" <==> parts == []
  {
    if parts != [] {
      QuoteSome(parts[0]);
    }
  }

  /** The list the elevated copy should see: the arguments, the console's process, the pipe if there is one. */
  function RelayedArgs(argv: seq<string>, pid: nat, pipe: Option<string>): seq<string> {
    (if argv == [] then [] else argv[1..]) + [PID_MARKER + Decimal(pid)]
    + (if pipe.Some? then [PIPE_MARKER + pipe.value] else [])
  }

  /** The pid argument needs no quotes, so writing it bare is writing it quoted. */
  lemma PidPlain(pid: nat)
    ensures Quote(PID_MARKER + Decimal(pid)) == PID_MARKER + Decimal(pid)
  {
    hide QuoteBody, Decimal;
    DecimalDigits(pid);
    var s := PID_MARKER + Decimal(pid);
    forall i | 0 <= i < |s|
      ensures s[i] !in {' ', '\t', '\n', '\U{000B}', '\"'}
    {
      if i >= |PID_MARKER| {
        assert IsDigit(Decimal(pid)[i - |PID_MARKER|]);
      }
    }
  }

  /** The parameters built in relaunchElevated. */
  method BuildParameters(argv: seq<string>, pid: nat, pipe: Option<string>) returns (parameters: string)
    ensures parameters == Joined(RelayedArgs(argv, pid, pipe))
  {
    hide Quote, Decimal, Joined;
    parameters := "";
    ghost var parts: seq<string> := [];
    JoinedSome([]);
    var index := 1;
    while index < |argv|
      invariant 1 <= index && (argv != [] ==> index <= |argv| && parts == argv[1..index])
                && (argv == [] ==> parts == [])
      invariant parameters == Joined(parts)
    {
      var quoted := QuoteArgument(argv[index]);
      parameters := AppendPart(parts, parameters, argv[index], quoted);
      parts := parts + [argv[index]];
      index := index + 1;
    }
    PidPlain(pid);
    parameters := AppendPart(parts, parameters, PID_MARKER + Decimal(pid), PID_MARKER + Decimal(pid));
    parts := parts + [PID_MARKER + Decimal(pid)];
    if pipe.Some? {
      var quoted := QuoteArgument(PIPE_MARKER + pipe.value);
      parameters := AppendPart(parts, parameters, PIPE_MARKER + pipe.value, quoted);
      parts := parts + [PIPE_MARKER + pipe.value];
    }
    assert parts == RelayedArgs(argv, pid, pipe);
  }

  /** Without arguments of its own, what the first process adds is all there is. */
  lemma AddedText(name: string, pid: nat, pipe: string)
    ensures Joined(RelayedArgs([name], pid, Some(pipe))) ==
            "--rdpw-console-pid=" + Decimal(pid) + (" " + Quote("--rdpw-output-pipe=" + pipe))
  {
    hide Quote, Decimal;
    PidPlain(pid);
    var a, b := PID_MARKER + Decimal(pid), PIPE_MARKER + pipe;
    assert RelayedArgs([name], pid, Some(pipe)) == [a] + [b];
    JoinedCons(a, [b]);
    JoinedCons(b, []);
    NilConcat([b]);
  }

  /** A blank first, unless nothing has been written yet. */
  method AppendPart(ghost parts: seq<string>, parameters: string, ghost part: string, quoted: string)
    returns (r: string)
    requires parameters == Joined(parts) && quoted == Quote(part)
    ensures r == Joined(parts + [part])
  {
    hide Quote, Joined;
    JoinedSome(parts);
    JoinedSnoc(parts, part);
    r := parameters;
    if r != "" {
      r := r + " ";
    } else {
      NilConcat(quoted);
    }
    r := r + quoted;
  }

  // ---------------------------------------------------------------- the marker filter

  const ULONG_MAX := 0xFFFF_FFFF

  /** wcstoul in base ten with a 32-bit result: the value, and whether all of the text was used. */
  function WideToUlong(s: string): (nat, bool) {
    var start := Start(s);
    var end := DigitsEnd(s, start);
    if end == start then (0, s == "")
    else
      var v := DigitsValue(s[start..end]);
      var clipped := if v > ULONG_MAX then ULONG_MAX else v;
      (if start > 0 && s[start - 1] == '-' && v <= ULONG_MAX then (ULONG_MAX + 1 - clipped) % (ULONG_MAX + 1)
       else clipped,
       end == |s|)
  }

  /** The pid printed in decimal reads back as itself. */
  lemma DecimalReads(n: nat)
    requires n <= ULONG_MAX
    ensures WideToUlong(Decimal(n)) == (n, true)
  {
    hide Decimal;
    DecimalDigits(n);
    var s := Decimal(n);
    assert IsDigit(s[0]);
    assert SkipSpace(s, 0) == 0;
    DigitsEndAt(s, 0, |s|);
    assert s[0..|s|] == s;
    DecimalValue(n);
  }

  datatype Filtered = Filtered(argv: seq<string>, pid: nat, pipe: string)

  /** What one argument after the first does. */
  function FilterArg(f: Filtered, arg: string): Filtered {
    if StartsWith(arg, PID_MARKER) then
      var v := WideToUlong(arg[|PID_MARKER|..]);
      if v.1 then f.(pid := v.0) else f
    else if StartsWith(arg, PIPE_MARKER) then f.(pipe := arg[|PIPE_MARKER|..])
    else f.(argv := f.argv + [arg])
  }

  function Filter(argv: seq<string>): Filtered {
    if argv == [] then Filtered([], 0, "")
    else if |argv| == 1 then Filtered(argv, 0, "")
    else FilterArg(Filter(argv[..|argv| - 1]), argv[|argv| - 1])
  }

  /** The loop at the start of wmain. */
  method FilterArguments(argv: seq<string>) returns (f: Filtered)
    ensures f == Filter(argv)
  {
    hide FilterArg;
    f := Filtered([], 0, "");
    for index := 0 to |argv|
      invariant f == Filter(argv[..index])
    {
      assert argv[..index + 1][..index] == argv[..index];
      assert argv[..index + 1] == argv[..index] + [argv[index]];
      if index > 0 {
        f := FilterArg(f, argv[index]);
      } else {
        f := f.(argv := f.argv + [argv[index]]);
      }
    }
    assert argv[..|argv|] == argv;
  }

  predicate Marked(arg: string) {
    StartsWith(arg, PID_MARKER) || StartsWith(arg, PIPE_MARKER)
  }

  predicate Unmarked(argv: seq<string>) {
    forall i :: 1 <= i < |argv| ==> !Marked(argv[i])
  }

  /** What wmain keeps carries no marker after the program's own name. */
  lemma {:induction false} FilterUnmarks(argv: seq<string>)
    ensures Unmarked(Filter(argv).argv)
    ensures (Filter(argv).argv == [] <==> argv == []) && (argv != [] ==> Filter(argv).argv[0] == argv[0])
    decreases |argv|
  {
    hide StartsWith, WideToUlong;
    if |argv| > 1 {
      FilterUnmarks(argv[..|argv| - 1]);
    }
  }

  // ---------------------------------------------------------------- what the filter keeps

  /** The arguments without a marker, in order. */
  function Kept(args: seq<string>): seq<string> {
    if args == [] then [] else (if Marked(args[0]) then [] else [args[0]]) + Kept(args[1..])
  }

  /** The number after the marker, if the argument is a pid argument and the number is all that follows. */
  function PidIn(arg: string): Option<nat> {
    if StartsWith(arg, PID_MARKER) && WideToUlong(arg[|PID_MARKER|..]).1
    then Some(WideToUlong(arg[|PID_MARKER|..]).0) else None
  }

  function PipeIn(arg: string): Option<string> {
    if !StartsWith(arg, PID_MARKER) && StartsWith(arg, PIPE_MARKER) then Some(arg[|PIPE_MARKER|..]) else None
  }

  /** What the last argument that has one says, or else the default. */
  ghost predicate LastOf<T>(args: seq<string>, of: string -> Option<T>, default: T, v: T) {
    || (v == default && forall i :: 0 <= i < |args| ==> of(args[i]).None?)
    || exists i :: && 0 <= i < |args| && of(args[i]) == Some(v)
                   && forall j :: i < j < |args| ==> of(args[j]).None?
  }

  lemma LastSnoc<T>(args: seq<string>, arg: string, of: string -> Option<T>, default: T, v: T)
    requires LastOf(args, of, default, v)
    ensures LastOf(args + [arg], of, default, if of(arg).Some? then of(arg).value else v)
  {
    var all := args + [arg];
    assert all[|args|] == arg && forall i :: 0 <= i < |args| ==> all[i] == args[i];
    if of(arg).None? && exists i :: 0 <= i < |args| && of(args[i]) == Some(v)
                                    && forall j :: i < j < |args| ==> of(args[j]).None? {
      var i :| 0 <= i < |args| && of(args[i]) == Some(v) && forall j :: i < j < |args| ==> of(args[j]).None?;
      assert of(all[i]) == Some(v);
    }
  }

  lemma {:induction false} KeptSnoc(args: seq<string>, arg: string)
    ensures Kept(args + [arg]) == Kept(args) + if Marked(arg) then [] else [arg]
  {
    hide Marked;
    if args == [] {
      NilConcat([arg]);
      ConsTail(arg, []);
    } else {
      var first := if Marked(args[0]) then [] else [args[0]];
      assert (args + [arg])[1..] == args[1..] + [arg];
      KeptSnoc(args[1..], arg);
      Assoc(first, Kept(args[1..]), if Marked(arg) then [] else [arg]);
    }
  }

  lemma FilterOne(f: Filtered, arg: string)
    ensures FilterArg(f, arg) ==
            Filtered(f.argv + (if Marked(arg) then [] else [arg]),
                     if PidIn(arg).Some? then PidIn(arg).value else f.pid,
                     if PipeIn(arg).Some? then PipeIn(arg).value else f.pipe)
  {
    hide StartsWith, WideToUlong;
    NilConcat(f.argv);
  }

  /** The filter, exactly: the program's own name and then every argument without a marker, in order; the number of
      the last pid argument that is all number; the name in the last pipe argument. */
  lemma {:induction false} FilterExactly(argv: seq<string>)
    requires argv != []
    ensures var f := Filter(argv);
            && f.argv == [argv[0]] + Kept(argv[1..])
            && LastOf(argv[1..], PidIn, 0, f.pid) && LastOf(argv[1..], PipeIn, "", f.pipe)
    decreases |argv|
  {
    hide FilterArg, PidIn, PipeIn, Kept, LastOf;
    if |argv| == 1 {
      assert argv[1..] == [] && argv == [argv[0]] + [];
      NothingKept(argv[0]);
    } else {
      var front, last := argv[..|argv| - 1], argv[|argv| - 1];
      FilterExactly(front);
      FilterOne(Filter(front), last);
      assert argv[1..] == front[1..] + [last];
      KeptSnoc(front[1..], last);
      LastSnoc(front[1..], last, PidIn, 0, Filter(front).pid);
      LastSnoc(front[1..], last, PipeIn, "", Filter(front).pipe);
      Assoc([argv[0]], Kept(front[1..]), if Marked(last) then [] else [last]);
    }
  }

  lemma NothingKept(name: string)
    ensures Kept([]) == [] && LastOf([], PidIn, 0, 0) && LastOf([], PipeIn, "", "") && [name] + [] == [name]
  {}

  // ---------------------------------------------------------------- numbers after the marker

  /** White space, a sign and the digits of m, the parts before the digits being optional. */
  predicate NumberText(s: string, space: string, sign: string, digits: string, m: nat) {
    s == space + sign + digits && AllSpace(space) && Sign(sign) && digits != "" && IsDecimalOf(digits, m)
  }

  /** The value under a sign: clipped to 32 bits, and a negative one within them counted from the top. */
  function Signed(sign: string, m: nat): nat {
    if m > ULONG_MAX then ULONG_MAX else if sign == "-" then (ULONG_MAX + 1 - m) % (ULONG_MAX + 1) else m
  }

  ghost predicate SpellsUlong(s: string, n: nat) {
    exists space, sign, digits, m: nat :: NumberText(s, space, sign, digits, m) && n == Signed(sign, m)
  }

  lemma UlongIs(s: string)
    ensures var start := Start(s);
            WideToUlong(s).1 && s != "" ==>
              && start < |s| && AllDigits(s[start..])
              && WideToUlong(s).0 ==
                 Signed(if start > 0 && s[start - 1] == '-' then "-" else "", DigitsValue(s[start..]))
    ensures var start := Start(s);
            start < |s| && AllDigits(s[start..]) ==> WideToUlong(s).1
    ensures s == "" ==> WideToUlong(s) == (0, true)
  {
    hide DigitsValue;
    var start := Start(s);
    var end := DigitsEnd(s, start);
    if start < |s| && AllDigits(s[start..]) {
      forall i | start <= i < |s|
        ensures IsDigit(s[i])
      {
        assert s[start..][i - start] == s[i];
      }
      DigitsEndAt(s, start, |s|);
    }
    if end == |s| {
      assert s[start..end] == s[start..];
    }
  }

  lemma DigitStart(s: string, space: string, sign: string, digits: string)
    requires s == space + sign + digits && AllSpace(space) && Sign(sign) && digits != "" && AllDigits(digits)
    ensures Start(s) == |space + sign| && s[Start(s)..] == digits
    ensures Start(s) > 0 && s[Start(s) - 1] == '-' <==> sign == "-"
  {
    var rest := sign + digits;
    assert s == space + rest && s[|space|] == rest[0] && IsDigit(digits[0]);
    SkipAt(s, space, 0);
    if |space| > 0 {
      assert s[|space| - 1] == space[|space| - 1];
    }
  }

  lemma UlongParts(s: string) returns (space: string, sign: string)
    requires Start(s) < |s| && AllDigits(s[Start(s)..])
    ensures NumberText(s, space, sign, s[Start(s)..], DigitsValue(s[Start(s)..]))
    ensures sign == "-" <==> Start(s) > 0 && s[Start(s) - 1] == '-'
  {
    hide DigitsValue, IsDecimalOf, Start, AllSpace, Sign;
    var from, start := SkipSpace(s, 0), Start(s);
    SignPart(s);
    space, sign := s[..from], s[from..start];
    assert s == space + sign + s[start..];
    DigitsValueExactly(s[start..], DigitsValue(s[start..]));
  }

  /** The text after a marker is a complete number exactly when it spells one from its first character to its last, or
      is empty and the number is zero. */
  lemma UlongExactly(s: string, n: nat)
    ensures WideToUlong(s) == (n, true) <==> (s == "" && n == 0) || SpellsUlong(s, n)
  {
    hide WideToUlong, NumberText, Start, AllDigits, DigitsValue, IsDecimalOf;
    UlongIs(s);
    if s != "" && WideToUlong(s) == (n, true) {
      var space, sign := UlongParts(s);
    }
    if SpellsUlong(s, n) {
      var space, sign, digits, m: nat :| NumberText(s, space, sign, digits, m) && n == Signed(sign, m);
      TextIs(s, space, sign, digits, m);
      DigitStart(s, space, sign, digits);
    }
  }

  lemma TextIs(s: string, space: string, sign: string, digits: string, m: nat)
    requires NumberText(s, space, sign, digits, m)
    ensures s == space + sign + digits && AllSpace(space) && Sign(sign) && digits != "" && s != ""
    ensures AllDigits(digits) && DigitsValue(digits) == m
  {
    hide IsDecimalOf;
    DigitsValueExactly(digits, m);
  }

  /** Unmarked arguments all stay, whatever pid and pipe come after. */
  lemma {:induction false} FilterKeeps(argv: seq<string>)
    requires Unmarked(argv)
    ensures Filter(argv) == Filtered(argv, 0, "")
    decreases |argv|
  {
    hide StartsWith, WideToUlong;
    if |argv| > 1 {
      FilterKeeps(argv[..|argv| - 1]);
      assert argv == argv[..|argv| - 1] + [argv[|argv| - 1]];
    }
  }

  lemma FilterSnoc(argv: seq<string>, arg: string)
    requires argv != []
    ensures Filter(argv + [arg]) == FilterArg(Filter(argv), arg)
  {
    hide FilterArg;
    assert (argv + [arg])[..|argv|] == argv;
  }

  lemma PidArg(f: Filtered, pid: nat)
    requires pid <= ULONG_MAX
    ensures FilterArg(f, PID_MARKER + Decimal(pid)) == f.(pid := pid)
  {
    hide Decimal, WideToUlong;
    var s := PID_MARKER + Decimal(pid);
    assert s[..|PID_MARKER|] == PID_MARKER && s[|PID_MARKER|..] == Decimal(pid);
    DecimalReads(pid);
  }

  lemma PrefixClash(s: string, prefix: string, i: nat)
    requires i < |s| && i < |prefix| && s[i] != prefix[i]
    ensures !StartsWith(s, prefix)
  {
    if |s| >= |prefix| {
      assert s[..|prefix|][i] == s[i];
    }
  }

  lemma PipeArg(f: Filtered, pipe: string)
    ensures FilterArg(f, PIPE_MARKER + pipe) == f.(pipe := pipe)
  {
    hide WideToUlong;
    var s := PIPE_MARKER + pipe;
    assert s[..|PIPE_MARKER|] == PIPE_MARKER && s[|PIPE_MARKER|..] == pipe;
    assert s[7] == 'o' && PID_MARKER[7] == 'c';
    PrefixClash(s, PID_MARKER, 7);
  }

  /** Main result, end to end: whatever list the first process was started with, the list its elevated copy
      works on after cutting and filtering is the first one's own, with the copy's path in front, and the
      decimal pid and the pipe name arrive unchanged; the doubled-quote rule makes no difference. */
  lemma RelayIsIdentity(argv: seq<string>, path: string, pid: nat, pipe: Option<string>, rule: DoubledQuote)
    requires pid <= ULONG_MAX
    ensures var kept := Filter(argv).argv;
            Filter([path] + SplitArgs(Joined(RelayedArgs(kept, pid, pipe)), rule)) ==
            Filtered([path] + (if kept == [] then [] else kept[1..]), pid, if pipe.Some? then pipe.value else "")
  {
    hide Filter, SplitArgs, Joined, FilterArg, Decimal, Marked;
    var kept := Filter(argv).argv;
    var own := if kept == [] then [] else kept[1..];
    FilterUnmarks(argv);
    SplitJoined(RelayedArgs(kept, pid, pipe), rule);
    var front := [path] + own;
    forall i | 1 <= i < |front|
      ensures !Marked(front[i])
    {
      assert front[i] == kept[i];
    }
    FilterKeeps(front);
    var pidArg := PID_MARKER + Decimal(pid);
    FilterSnoc(front, pidArg);
    PidArg(Filter(front), pid);
    if pipe.Some? {
      var pipeArg := PIPE_MARKER + pipe.value;
      FilterSnoc(front + [pidArg], pipeArg);
      PipeArg(Filter(front + [pidArg]), pipe.value);
      assert [path] + (own + [pidArg] + [pipeArg]) == front + [pidArg] + [pipeArg];
    } else {
      assert [path] + (own + [pidArg] + []) == front + [pidArg];
    }
  }
}
