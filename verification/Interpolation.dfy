/** Value substitution: what get returns, when it returns at all, and why it always stops. */
module Interpolation {
  import opened Text
  import opened IniStore
  import opened IniOps

  /** The next thing at the front of the unread text. */
  datatype Token =
    | Verbatim(c: char, next: nat)
    | Reference(section: string, option: string, next: nat)
    | Bad

  /** %% , %(option)s */
  function BasicToken(section: string, text: string): Token
    requires text != ""
  {
    if text[0] != '%' then Verbatim(text[0], 1)
    else if |text| < 2 then Bad
    else if text[1] == '%' then Verbatim('%', 2)
    else if text[1] != '(' then Bad
    else
      var close := Find(text, ")s", 2);
      if close.None? then Bad else Reference(section, ToLower(text[2..close.value]), close.value + 2)
  }

  /** $$ , ${option} , ${section:option} */
  function ExtendedToken(section: string, text: string): Token
    requires text != ""
  {
    if text[0] != '$' then Verbatim(text[0], 1)
    else if |text| < 2 then Bad
    else if text[1] == '$' then Verbatim('$', 2)
    else if text[1] != '{' then Bad
    else
      var close := Find(text, "}", 2);
      if close.None? then Bad
      else
        var token := text[2..close.value];
        var colon := Find(token, ":", 0);
        if colon.None? then Reference(section, ToLower(token), close.value + 1)
        else Reference(token[..colon.value], ToLower(token[colon.value + 1..]), close.value + 1)
  }

  function NextToken(o: ParseOptions, section: string, text: string): (t: Token)
    requires text != ""
    ensures !t.Bad? ==> 1 <= t.next <= |text|
  {
    if o.interpolation == Basic then BasicToken(section, text) else ExtendedToken(section, text)
  }

  /** Substitution may go `fuel` levels deep; a level is entered only while there is fuel. */
  function Interpolate(o: ParseOptions, st: Store, section: string, value: string, fuel: nat): Result<string, ErrorCode>
    decreases fuel, |value| + 1
  {
    if o.interpolation == NoInterpolation then Ok(value)
    else if fuel == 0 then Err(InterpolationDepth)
    else Expand(o, st, section, value, fuel)
  }

  /** One level over the unread text: the measure is (fuel, unread characters), whatever refers to whatever. */
  function Expand(o: ParseOptions, st: Store, section: string, text: string, fuel: nat): Result<string, ErrorCode>
    requires fuel > 0
    decreases fuel, |text|
  {
    if text == "" then Ok("")
    else
      var t := NextToken(o, section, text);
      if t.Bad? then Err(InterpolationSyntax)
      else if t.Verbatim? then Prepend([t.c], Expand(o, st, section, text[t.next..], fuel))
      else
        var raw := GetRaw(o, st, t.section, t.option);
        if raw.Err? then Err(raw.error)
        else if raw.value.None? then Expand(o, st, section, text[t.next..], fuel)
        else
          var inner := Interpolate(o, st, t.section, raw.value.value, fuel - 1);
          if inner.Err? then inner
          else Prepend(inner.value, Expand(o, st, section, text[t.next..], fuel))
  }

  function Prepend(head: string, tail: Result<string, ErrorCode>): Result<string, ErrorCode> {
    if tail.Ok? then Ok(head + tail.value) else tail
  }

  /** Levels left when a value is entered at this depth. */
  function Fuel(o: ParseOptions, depth: int): nat {
    if depth > o.maxInterpolationDepth then 0 else o.maxInterpolationDepth - depth + 1
  }

  function Get(o: ParseOptions, st: Store, section: string, option: string): Result<string, ErrorCode> {
    var raw := GetRaw(o, st, section, option);
    if raw.Err? then Err(raw.error)
    else if raw.value.None? then Ok("")
    else Interpolate(o, st, section, raw.value.value, Fuel(o, 1))
  }

  /** items: the raw listing, or every present value substituted; any failure fails the whole listing. */
  function ItemsOf(o: ParseOptions, st: Store, section: string, raw: bool): Result<Items, ErrorCode> {
    var r := RawItems(o, st, section);
    if r.Err? || raw then r else SubstituteAll(o, st, section, r.value)
  }

  function SubstituteAll(o: ParseOptions, st: Store, section: string, items: Items): Result<Items, ErrorCode> {
    if items == [] then Ok([])
    else
      var e := items[0];
      var v := if e.value.None? then Ok("") else Interpolate(o, st, section, e.value.value, Fuel(o, 1));
      if v.Err? then Err(v.error)
      else
        var rest := SubstituteAll(o, st, section, items[1..]);
        if rest.Err? then rest
        else Ok([if e.value.None? then e else Entry(e.key, Some(v.value))] + rest.value)
  }

  // ---------------------------------------------------------------- more depth never changes an answer

  lemma {:induction false} InterpolateMonotone(o: ParseOptions, st: Store, section: string, value: string, fuel: nat,
                                               more: nat)
    requires fuel <= more && Interpolate(o, st, section, value, fuel).Ok?
    ensures Interpolate(o, st, section, value, more) == Interpolate(o, st, section, value, fuel)
    decreases fuel, |value| + 1
  {
    hide NextToken, GetRaw, Expand;
    if o.interpolation != NoInterpolation {
      ExpandMonotone(o, st, section, value, fuel, more);
    }
  }

  lemma {:induction false} ExpandMonotone(o: ParseOptions, st: Store, section: string, text: string, fuel: nat,
                                          more: nat)
    requires 0 < fuel <= more && Expand(o, st, section, text, fuel).Ok?
    ensures Expand(o, st, section, text, more) == Expand(o, st, section, text, fuel)
    decreases fuel, |text|
  {
    hide NextToken, GetRaw, Interpolate;
    if text != "" {
      var t := NextToken(o, section, text);
      ExpandMonotone(o, st, section, text[t.next..], fuel, more);
      if t.Reference? {
        var raw := GetRaw(o, st, t.section, t.option);
        if raw.value.Some? {
          InterpolateMonotone(o, st, t.section, raw.value.value, fuel - 1, more - 1);
        }
      }
    }
  }

  // ---------------------------------------------------------------- expansion trees

  /** How a text is substituted, character by character and reference by reference. */
  datatype Tree =
    | Done
    | Keep(rest: Tree)
    | Drop(rest: Tree)
    | Nest(inner: Tree, text: string, rest: Tree)

  function Height(t: Tree): nat {
    match t
    case Done => 0
    case Keep(rest) => Height(rest)
    case Drop(rest) => Height(rest)
    case Nest(inner, _, rest) => if 1 + Height(inner) > Height(rest) then 1 + Height(inner) else Height(rest)
  }

  /** The tree turns the text, read in this section, into exactly `out`. */
  ghost predicate Derives(o: ParseOptions, st: Store, section: string, text: string, tree: Tree, out: string)
    decreases tree
  {
    if tree.Done? then text == "" && out == ""
    else
      && text != ""
      && var t := NextToken(o, section, text);
      match tree
      case Keep(rest) =>
        && t.Verbatim? && out != "" && out[0] == t.c
        && Derives(o, st, section, text[t.next..], rest, out[1..])
      case Drop(rest) =>
        && t.Reference? && GetRaw(o, st, t.section, t.option) == Ok(None)
        && Derives(o, st, section, text[t.next..], rest, out)
      case Nest(inner, mid, rest) =>
        && t.Reference?
        && var raw := GetRaw(o, st, t.section, t.option);
        && raw.Ok? && raw.value.Some?
        && Derives(o, st, t.section, raw.value.value, inner, mid)
        && mid <= out && Derives(o, st, section, text[t.next..], rest, out[|mid|..])
  }

  lemma {:induction false} TreeOf(o: ParseOptions, st: Store, section: string, text: string, fuel: nat)
    returns (tree: Tree)
    requires o.interpolation != NoInterpolation && fuel > 0
    requires Expand(o, st, section, text, fuel).Ok?
    ensures Height(tree) < fuel && Derives(o, st, section, text, tree, Expand(o, st, section, text, fuel).value)
    decreases fuel, |text|
  {
    hide NextToken, GetRaw;
    tree := Done;
    if text != "" {
      var t := NextToken(o, section, text);
      var out := Expand(o, st, section, text, fuel).value;
      var rest := TreeOf(o, st, section, text[t.next..], fuel);
      var tail := Expand(o, st, section, text[t.next..], fuel).value;
      if t.Verbatim? {
        tree := Keep(rest);
        assert out == [t.c] + tail && out[1..] == tail;
      } else {
        var raw := GetRaw(o, st, t.section, t.option);
        if raw.value.None? {
          tree := Drop(rest);
        } else {
          var inner := TreeOf(o, st, t.section, raw.value.value, fuel - 1);
          var mid := Interpolate(o, st, t.section, raw.value.value, fuel - 1).value;
          tree := Nest(inner, mid, rest);
          assert out == mid + tail && out[|mid|..] == tail && mid <= out;
        }
      }
    }
  }

  lemma {:induction false} TreeGives(o: ParseOptions, st: Store, section: string, text: string, tree: Tree,
                                     out: string, fuel: nat)
    requires o.interpolation != NoInterpolation
    requires Height(tree) < fuel && Derives(o, st, section, text, tree, out)
    ensures Expand(o, st, section, text, fuel) == Ok(out)
    decreases tree
  {
    hide NextToken, GetRaw;
    if text != "" {
      var t := NextToken(o, section, text);
      match tree
      case Keep(rest) =>
        TreeGives(o, st, section, text[t.next..], rest, out[1..], fuel);
        assert out == [out[0]] + out[1..];
      case Drop(rest) =>
        TreeGives(o, st, section, text[t.next..], rest, out, fuel);
      case Nest(inner, mid, rest) =>
        var raw := GetRaw(o, st, t.section, t.option);
        TreeGives(o, st, t.section, raw.value.value, inner, mid, fuel - 1);
        TreeGives(o, st, section, text[t.next..], rest, out[|mid|..], fuel);
        assert out == mid + out[|mid|..];
    }
  }

  /** Main result: substitution succeeds with a text exactly when an expansion tree lower than
      the levels left derives that text. */
  lemma SucceedsIffTree(o: ParseOptions, st: Store, section: string, value: string, fuel: nat, out: string)
    requires o.interpolation != NoInterpolation
    ensures Interpolate(o, st, section, value, fuel) == Ok(out) <==>
            exists tree :: Height(tree) < fuel && Derives(o, st, section, value, tree, out)
  {
    hide Derives, Height, Expand;
    if Interpolate(o, st, section, value, fuel) == Ok(out) {
      var tree := TreeOf(o, st, section, value, fuel);
    }
    if exists tree :: Height(tree) < fuel && Derives(o, st, section, value, tree, out) {
      var tree :| Height(tree) < fuel && Derives(o, st, section, value, tree, out);
      TreeGives(o, st, section, value, tree, out, fuel);
    }
  }
}
