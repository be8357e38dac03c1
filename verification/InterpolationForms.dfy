/** How references are spelled, what each does where it stands, and how many levels a chain of them takes. */
module InterpolationForms {
  import opened Text
  import opened IniStore
  import opened IniOps
  import opened Interpolation
  import opened InterpolationEscape

  // ---------------------------------------------------------------- spelling

  /** The name does not end its own reference. */
  predicate Fits(o: ParseOptions, name: string) {
    if o.interpolation == Basic then forall i :: 0 <= i < |name| ==> !MatchAt(name + ")s", ")s", i)
    else Lacks(name, '}') && Lacks(name, ':')
  }

  /** A reference to an option of the section at hand. */
  function Ref(o: ParseOptions, name: string): string {
    if o.interpolation == Basic then "%(" + name + ")s" else "${" + name + "}"
  }

  /** A reference to an option of another section. */
  function RefIn(section: string, name: string): string {
    "${" + section + ":" + name + "}"
  }

  lemma {:induction false} FindIs(s: string, pat: string, from: nat, at: nat)
    requires from <= at && MatchAt(s, pat, at) && forall i: nat :: from <= i < at ==> !MatchAt(s, pat, i)
    ensures Find(s, pat, from) == Some(at)
    decreases at - from
  {
    if from < at {
      FindIs(s, pat, from + 1, at);
    }
  }

  lemma MatchChar(s: string, c: char, i: nat)
    ensures MatchAt(s, [c], i) <==> i < |s| && s[i] == c
  {
    if i < |s| {
      assert s[i..i + 1] == [s[i]];
    }
  }

  lemma CharFound(front: string, c: char, rest: string, from: nat)
    requires from <= |front| && forall i :: from <= i < |front| ==> front[i] != c
    ensures Find(front + [c] + rest, [c], from) == Some(|front|)
  {
    hide MatchAt;
    var s := front + [c] + rest;
    MatchChar(s, c, |front|);
    forall i: nat | from <= i < |front|
      ensures !MatchAt(s, [c], i)
    {
      MatchChar(s, c, i);
      assert s[i] == front[i];
    }
    FindIs(s, [c], from, |front|);
  }

  lemma CharMissing(s: string, c: char)
    requires Lacks(s, c)
    ensures Find(s, [c], 0) == None
  {
    hide Find;
    var r := Find(s, [c], 0);
    if r.Some? {
      MatchChar(s, c, r.value);
    }
  }

  /** The pair that ends a basic reference is found where the name ends. */
  lemma EndFound(name: string, rest: string)
    requires forall i :: 0 <= i < |name| ==> !MatchAt(name + ")s", ")s", i)
    ensures Find("%(" + name + ")s" + rest, ")s", 2) == Some(2 + |name|)
  {
    var s := "%(" + name + ")s" + rest;
    var tail := name + ")s";
    assert s[2..2 + |tail|] == tail;
    forall i: nat | 2 <= i < 2 + |name|
      ensures !MatchAt(s, ")s", i)
    {
      assert !MatchAt(tail, ")s", i - 2) && s[i..i + 2] == tail[i - 2..i];
    }
    assert s[2 + |name|..2 + |name| + 2] == ")s";
    FindIs(s, ")s", 2, 2 + |name|);
  }

  lemma BasicParts(name: string, rest: string)
    ensures var s := "%(" + name + ")s" + rest;
            && |s| >= 2 && s[0] == '%' && s[1] == '(' && s[2..2 + |name|] == name && s[4 + |name|..] == rest
  {}

  lemma ExtendedParts(token: string, rest: string)
    ensures var s := "${" + token + "}" + rest;
            && |s| >= 2 && s[0] == '$' && s[1] == '{' && s[2..2 + |token|] == token && s[3 + |token|..] == rest
            && s == ("${" + token) + ['}'] + rest
  {}

  /** A reference is read as one, to the name in lower case. */
  lemma RefReads(o: ParseOptions, section: string, name: string, rest: string)
    requires Fits(o, name)
    ensures var text := Ref(o, name) + rest;
            text != "" && var t := NextToken(o, section, text);
            t.Reference? && t.section == section && t.option == ToLower(name) && text[t.next..] == rest
  {
    hide Find, ToLower, MatchAt, Lacks;
    if o.interpolation == Basic {
      BasicParts(name, rest);
      EndFound(name, rest);
    } else {
      ExtendedParts(name, rest);
      NotIn("${", name, '}');
      CharFound("${" + name, '}', rest, 2);
      CharMissing(name, ':');
    }
  }

  lemma NotIn(front: string, s: string, c: char)
    requires Lacks(s, c)
    ensures forall i :: |front| <= i < |front + s| ==> (front + s)[i] != c
  {}

  lemma ColonParts(section: string, name: string)
    requires Lacks(section, ':') && Lacks(section, '}') && Lacks(name, '}')
    ensures var token := section + ":" + name;
            && Lacks(token, '}') && token == section + [':'] + name
            && token[..|section|] == section && token[|section| + 1..] == name
            && RefIn(section, name) == "${" + token + "}"
  {
    var token := section + ":" + name;
    assert "${" + section + ":" + name + "}" == "${" + token + "}";
  }

  /** A reference with a section is read as one to that section; the option may hold further colons. */
  lemma RefInReads(o: ParseOptions, section: string, other: string, name: string, rest: string)
    requires o.interpolation == Extended && Lacks(other, ':') && Lacks(other, '}') && Lacks(name, '}')
    ensures var text := RefIn(other, name) + rest;
            text != "" && var t := NextToken(o, section, text);
            t.Reference? && t.section == other && t.option == ToLower(name) && text[t.next..] == rest
  {
    hide Find, ToLower, MatchAt;
    var token := other + ":" + name;
    ColonParts(other, name);
    hide Lacks, RefIn;
    ExtendedParts(token, rest);
    NotIn("${", token, '}');
    CharFound("${" + token, '}', rest, 2);
    CharFound2(other, ':', name);
  }

  lemma CharFound2(front: string, c: char, rest: string)
    requires Lacks(front, c)
    ensures Find(front + [c] + rest, [c], 0) == Some(|front|)
  {
    hide Find;
    CharFound(front, c, rest, 0);
  }

  /** The text begins with a doubled trigger, or with a reference that ends somewhere. */
  ghost predicate Spelled(o: ParseOptions, text: string) {
    || [Trigger(o), Trigger(o)] <= text
    || (if o.interpolation == Basic then "%(" <= text && exists i: nat :: 2 <= i && MatchAt(text, ")s", i)
        else "${" <= text && '}' in text[2..])
  }

  /** What begins with the trigger is in error exactly unless it is spelled so; anything else is itself. */
  lemma BadExactly(o: ParseOptions, section: string, text: string)
    requires text != ""
    ensures NextToken(o, section, text).Bad? <==> text[0] == Trigger(o) && !Spelled(o, text)
    ensures text[0] != Trigger(o) ==> NextToken(o, section, text) == Verbatim(text[0], 1)
    ensures [Trigger(o), Trigger(o)] <= text ==> NextToken(o, section, text) == Verbatim(Trigger(o), 2)
  {
    hide Find, MatchAt;
    if |text| >= 2 {
      assert text[..2] == [text[0], text[1]];
      if o.interpolation != Basic {
        BraceCloses(text);
      }
    }
  }

  lemma BraceCloses(text: string)
    requires |text| >= 2
    ensures Find(text, "}", 2).Some? <==> '}' in text[2..]
  {
    hide Find;
    var r := Find(text, "}", 2);
    if r.Some? {
      MatchChar(text, '}', r.value);
      assert text[2..][r.value - 2] == '}';
    }
    if '}' in text[2..] {
      var i :| 0 <= i < |text| - 2 && text[2..][i] == '}';
      MatchChar(text, '}', i + 2);
    }
  }

  // ---------------------------------------------------------------- one reference where it stands

  lemma LowerTwice(o: ParseOptions, st: Store, section: string, name: string)
    ensures GetRaw(o, st, section, ToLower(name)) == GetRaw(o, st, section, name)
  {
    LowerFixed(name);
    LowerFixed(ToLower(name));
    hide FindKey, FindSection, ToLower;
  }

  /** What the option referred to puts in its reference's place: nothing if it has no value, its own substitution one
      level deeper if it has one, and the lookup's error if it is missing. */
  function InPlace(o: ParseOptions, st: Store, section: string, name: string, fuel: nat): Result<string, ErrorCode>
    requires fuel > 0
  {
    match GetRaw(o, st, section, name)
    case Err(e) => Err(e)
    case Ok(None) => Ok("")
    case Ok(Some(value)) => Interpolate(o, st, section, value, fuel - 1)
  }

  function Both(a: Result<string, ErrorCode>, b: Result<string, ErrorCode>): Result<string, ErrorCode> {
    if a.Err? then a else if b.Err? then b else Ok(a.value + b.value)
  }

  lemma TokenExpands(o: ParseOptions, st: Store, section: string, text: string, fuel: nat)
    requires text != "" && fuel > 0 && NextToken(o, section, text).Reference?
    ensures var t := NextToken(o, section, text);
            Expand(o, st, section, text, fuel) ==
            Both(InPlace(o, st, t.section, t.option, fuel), Expand(o, st, section, text[t.next..], fuel))
  {
    hide NextToken, GetRaw, Interpolate;
    var t := NextToken(o, section, text);
    var rest := Expand(o, st, section, text[t.next..], fuel);
    if rest.Ok? {
      NilConcat(rest.value);
    }
  }

  /** A reference puts in its place what the option of that name, in this section and then in DEFAULT, stands for, and
      the text goes on after it. */
  lemma RefExpands(o: ParseOptions, st: Store, section: string, name: string, rest: string, fuel: nat)
    requires fuel > 0 && Fits(o, name)
    ensures Expand(o, st, section, Ref(o, name) + rest, fuel) ==
            Both(InPlace(o, st, section, name, fuel), Expand(o, st, section, rest, fuel))
  {
    hide NextToken, GetRaw, Interpolate, Fits, Ref, Expand, ToLower;
    RefReads(o, section, name, rest);
    TokenExpands(o, st, section, Ref(o, name) + rest, fuel);
    LowerTwice(o, st, section, name);
  }

  /** So does one to another section, and what that puts in place is read in that section. */
  lemma RefInExpands(o: ParseOptions, st: Store, section: string, other: string, name: string, rest: string, fuel: nat)
    requires fuel > 0 && o.interpolation == Extended && Lacks(other, ':') && Lacks(other, '}') && Lacks(name, '}')
    ensures Expand(o, st, section, RefIn(other, name) + rest, fuel) ==
            Both(InPlace(o, st, other, name, fuel), Expand(o, st, section, rest, fuel))
  {
    hide NextToken, GetRaw, Interpolate, RefIn, Expand, ToLower, Lacks;
    RefInReads(o, section, other, name, rest);
    TokenExpands(o, st, section, RefIn(other, name) + rest, fuel);
    LowerTwice(o, st, other, name);
  }

  /** Text after an error: the first thing in error decides. */
  lemma {:induction false} BadStops(o: ParseOptions, st: Store, section: string, front: string, text: string, fuel: nat)
    requires fuel > 0 && text != "" && text[0] == Trigger(o) && !Spelled(o, text)
    ensures Expand(o, st, section, Escape(Trigger(o), front) + text, fuel) == Err(InterpolationSyntax)
    decreases |front|
  {
    hide NextToken, GetRaw, Interpolate, Trigger, Spelled;
    if front == "" {
      BadExactly(o, section, text);
      NilConcat(text);
    } else {
      var rest := Escape(Trigger(o), front[1..]) + text;
      EscapeToken(o, section, front, rest);
      BadStops(o, st, section, front[1..], text, fuel);
      var head := if front[0] == Trigger(o) then [Trigger(o), Trigger(o)] else [front[0]];
      Assoc(head, Escape(Trigger(o), front[1..]), text);
    }
  }

  // ---------------------------------------------------------------- depth

  /** Each option of the chain holds a reference to the next, and the last holds this text. */
  predicate Links(o: ParseOptions, st: Store, section: string, names: seq<string>, last: string) {
    && names != []
    && if |names| == 1 then GetRaw(o, st, section, names[0]) == Ok(Some(last))
       else
         && Fits(o, names[1]) && GetRaw(o, st, section, names[0]) == Ok(Some(Ref(o, names[1])))
         && Links(o, st, section, names[1..], last)
  }

  lemma OnlyRef(o: ParseOptions, st: Store, section: string, name: string, fuel: nat)
    requires fuel > 0 && Fits(o, name)
    ensures Expand(o, st, section, Ref(o, name), fuel) == InPlace(o, st, section, name, fuel)
  {
    hide InPlace, Fits, Ref;
    RefExpands(o, st, section, name, "", fuel);
    NilConcat(Ref(o, name));
    var r := InPlace(o, st, section, name, fuel);
    if r.Ok? {
      NilConcat(r.value);
    }
  }

  /** The value at the head of a chain of n options takes n levels. */
  lemma {:induction false} ChainTakes(o: ParseOptions, st: Store, section: string, names: seq<string>, last: string,
                                      fuel: nat)
    requires o.interpolation != NoInterpolation && Links(o, st, section, names, last) && Lacks(last, Trigger(o))
    ensures names != [] && var raw := GetRaw(o, st, section, names[0]);
            raw.Ok? && raw.value.Some?
            && Interpolate(o, st, section, raw.value.value, fuel) ==
               if |names| <= fuel then Ok(last) else Err(InterpolationDepth)
    decreases |names|
  {
    hide GetRaw, Lacks, Trigger, Fits, Ref, Expand;
    if |names| == 1 {
      if fuel > 0 {
        PlainTextFixed(o, st, section, last, fuel);
      }
    } else if fuel > 0 {
      OnlyRef(o, st, section, names[1], fuel);
      ChainTakes(o, st, section, names[1..], last, fuel - 1);
    }
  }

  /** Main result: get follows a chain of references to its end exactly when the chain has no more options than the
      depth limit, and otherwise reports the depth. */
  lemma DepthExactly(o: ParseOptions, st: Store, section: string, names: seq<string>, last: string)
    requires o.interpolation != NoInterpolation && Links(o, st, section, names, last) && Lacks(last, Trigger(o))
    ensures names != []
    ensures Get(o, st, section, names[0]) ==
            if |names| <= o.maxInterpolationDepth then Ok(last) else Err(InterpolationDepth)
  {
    hide GetRaw, Links, Lacks, Trigger, Interpolate;
    ChainTakes(o, st, section, names, last, Fuel(o, 1));
  }
}
