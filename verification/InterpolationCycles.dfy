/** Which options can be substituted at all: not those that reach themselves, and,
    exactly, those whose references can be ranked so that each one only refers downwards. */
module InterpolationCycles {
  import opened Text
  import opened IniStore
  import opened IniOps
  import opened Interpolation

  datatype Node = Node(section: string, option: string)

  /** The value a reference to this option finds, in its section or in DEFAULT. */
  function ValueOf(o: ParseOptions, st: Store, n: Node): Option<string> {
    var raw := GetRaw(o, st, n.section, n.option);
    if raw.Ok? then raw.value else None
  }

  /** The options with a value that a text refers to, up to its first malformed reference. */
  function References(o: ParseOptions, st: Store, section: string, text: string): set<Node>
    decreases |text|
  {
    if text == "" then {}
    else
      var t := NextToken(o, section, text);
      if t.Bad? then {}
      else
        var rest := References(o, st, section, text[t.next..]);
        if t.Reference? && ValueOf(o, st, Node(t.section, t.option)).Some?
        then {Node(t.section, t.option)} + rest
        else rest
  }

  predicate RefersTo(o: ParseOptions, st: Store, a: Node, b: Node) {
    var v := ValueOf(o, st, a);
    v.Some? && b in References(o, st, a.section, v.value)
  }

  predicate Resolves(o: ParseOptions, st: Store, n: Node, fuel: nat) {
    var v := ValueOf(o, st, n);
    v.Some? && Interpolate(o, st, n.section, v.value, fuel).Ok?
  }

  /** A text that is substituted has had every option it refers to substituted one level down. */
  lemma {:induction false} ReferencesResolve(o: ParseOptions, st: Store, section: string, text: string, fuel: nat,
                                             n: Node)
    requires fuel > 0 && Expand(o, st, section, text, fuel).Ok? && n in References(o, st, section, text)
    ensures Resolves(o, st, n, fuel - 1)
    decreases |text|
  {
    hide NextToken, GetRaw, Interpolate;
    if text != "" {
      var t := NextToken(o, section, text);
      if n in References(o, st, section, text[t.next..]) {
        ReferencesResolve(o, st, section, text[t.next..], fuel, n);
      }
    }
  }

  /** A chain of references, each through a value. */
  predicate Walk(o: ParseOptions, st: Store, p: seq<Node>) {
    p != [] && forall i :: 0 <= i < |p| - 1 ==> RefersTo(o, st, p[i], p[i + 1])
  }

  lemma WalkTail(o: ParseOptions, st: Store, p: seq<Node>, i: nat)
    requires Walk(o, st, p) && i < |p|
    ensures Walk(o, st, p[i..]) && Walk(o, st, p[..i + 1])
  {
    hide RefersTo;
  }

  lemma StepCosts(o: ParseOptions, st: Store, a: Node, b: Node, fuel: nat)
    requires o.interpolation != NoInterpolation
    requires RefersTo(o, st, a, b) && Resolves(o, st, a, fuel)
    ensures fuel > 0 && Resolves(o, st, b, fuel - 1)
  {
    hide ValueOf, References, Expand;
    ReferencesResolve(o, st, a.section, ValueOf(o, st, a).value, fuel, b);
  }

  /** Each reference along a chain uses up one level. */
  lemma {:induction false} WalkCosts(o: ParseOptions, st: Store, p: seq<Node>, fuel: nat)
    requires o.interpolation != NoInterpolation
    requires Walk(o, st, p) && Resolves(o, st, p[0], fuel)
    ensures fuel >= |p| - 1 && Resolves(o, st, p[|p| - 1], fuel - (|p| - 1))
    decreases |p|
  {
    hide Resolves, RefersTo;
    if |p| > 1 {
      StepCosts(o, st, p[0], p[1], fuel);
      WalkTail(o, st, p, 1);
      WalkCosts(o, st, p[1..], fuel - 1);
    }
  }

  lemma {:induction false} CycleFails(o: ParseOptions, st: Store, p: seq<Node>, fuel: nat)
    requires o.interpolation != NoInterpolation
    requires Walk(o, st, p) && |p| >= 2 && p[0] == p[|p| - 1]
    ensures !Resolves(o, st, p[0], fuel)
    decreases fuel
  {
    hide Resolves, RefersTo;
    if Resolves(o, st, p[0], fuel) {
      WalkCosts(o, st, p, fuel);
      CycleFails(o, st, p, fuel - (|p| - 1));
    }
  }

  function WithLimit(o: ParseOptions, limit: int): ParseOptions {
    o.(maxInterpolationDepth := limit)
  }

  lemma TokenLimitFree(o: ParseOptions, limit: int, section: string, text: string)
    requires text != ""
    ensures NextToken(WithLimit(o, limit), section, text) == NextToken(o, section, text)
  {
    hide BasicToken, ExtendedToken;
  }

  lemma ValueLimitFree(o: ParseOptions, st: Store, limit: int, n: Node)
    ensures ValueOf(WithLimit(o, limit), st, n) == ValueOf(o, st, n)
  {
    hide FindKey, FindSection, ToLower;
  }

  lemma {:induction false} LimitFree(o: ParseOptions, st: Store, limit: int, section: string, text: string)
    ensures References(WithLimit(o, limit), st, section, text) == References(o, st, section, text)
    decreases |text|
  {
    hide NextToken, ValueOf, WithLimit;
    if text != "" {
      var t := NextToken(o, section, text);
      TokenLimitFree(o, limit, section, text);
      if !t.Bad? {
        LimitFree(o, st, limit, section, text[t.next..]);
        if t.Reference? {
          ValueLimitFree(o, st, limit, Node(t.section, t.option));
        }
      }
    }
  }

  lemma StepLimitFree(o: ParseOptions, st: Store, limit: int, a: Node, b: Node)
    ensures RefersTo(WithLimit(o, limit), st, a, b) == RefersTo(o, st, a, b)
  {
    hide ValueOf, References, WithLimit;
    ValueLimitFree(o, st, limit, a);
    if ValueOf(o, st, a).Some? {
      LimitFree(o, st, limit, a.section, ValueOf(o, st, a).value);
    }
  }

  /** Main result: an option from which some chain of valued references comes back to an option already
      on the chain, itself included, never yields a string: get raises under every depth limit. */
  lemma CyclesNeverResolve(o: ParseOptions, st: Store, p: seq<Node>, i: nat, j: nat, limit: int)
    requires o.interpolation != NoInterpolation
    requires Walk(o, st, p) && i < j < |p| && p[i] == p[j]
    ensures Get(WithLimit(o, limit), st, p[0].section, p[0].option).Err?
  {
    var l := WithLimit(o, limit);
    forall k | 0 <= k < |p| - 1
      ensures RefersTo(l, st, p[k], p[k + 1])
    {
      StepLimitFree(o, st, limit, p[k], p[k + 1]);
    }
    LassoFails(l, st, p, i, j, Fuel(l, 1));
    StartHasValue(l, st, p);
    hide RefersTo, Interpolate, GetRaw;
  }

  lemma StartHasValue(o: ParseOptions, st: Store, p: seq<Node>)
    requires Walk(o, st, p) && |p| >= 2
    ensures ValueOf(o, st, p[0]).Some?
  {
    assert RefersTo(o, st, p[0], p[1]);
  }

  lemma LassoFails(o: ParseOptions, st: Store, p: seq<Node>, i: nat, j: nat, fuel: nat)
    requires o.interpolation != NoInterpolation
    requires Walk(o, st, p) && i < j < |p| && p[i] == p[j]
    ensures !Resolves(o, st, p[0], fuel)
  {
    hide Resolves, RefersTo;
    if Resolves(o, st, p[0], fuel) {
      var head := p[..i + 1];
      var q := p[i..j + 1];
      WalkTail(o, st, p, i);
      WalkCosts(o, st, head, fuel);
      WalkTail(o, st, p, j);
      assert p[..j + 1][i..] == q;
      WalkTail(o, st, p[..j + 1], i);
      CycleFails(o, st, q, fuel - i);
    }
  }

  // ---------------------------------------------------------------- exactly when substitution succeeds

  /** No malformed reference, and every reference finds an option. */
  predicate Sound(o: ParseOptions, st: Store, section: string, text: string)
    decreases |text|
  {
    text == "" ||
    var t := NextToken(o, section, text);
    && !t.Bad?
    && (t.Reference? ==> GetRaw(o, st, t.section, t.option).Ok?)
    && Sound(o, st, section, text[t.next..])
  }

  predicate RankedAt(o: ParseOptions, st: Store, m: map<Node, nat>, n: Node)
    requires n in m
  {
    var v := ValueOf(o, st, n);
    && v.Some? && Sound(o, st, n.section, v.value)
    && forall r :: r in References(o, st, n.section, v.value) ==> r in m && m[r] < m[n]
  }

  /** A closed set of sound options in which every reference leads to a lower rank. */
  predicate Ranked(o: ParseOptions, st: Store, m: map<Node, nat>) {
    forall n :: n in m ==> RankedAt(o, st, m, n)
  }

  predicate Below(s: set<Node>, m: map<Node, nat>, fuel: nat) {
    forall r :: r in s ==> r in m && m[r] + 2 <= fuel
  }

  lemma {:induction false} RankedExpands(o: ParseOptions, st: Store, m: map<Node, nat>, section: string, text: string,
                                         fuel: nat)
    requires o.interpolation != NoInterpolation && fuel > 0
    requires Ranked(o, st, m) && Sound(o, st, section, text) && Below(References(o, st, section, text), m, fuel)
    ensures Expand(o, st, section, text, fuel).Ok?
    decreases fuel, |text|
  {
    hide NextToken, GetRaw, Ranked, RankedAt;
    if text != "" {
      var t := NextToken(o, section, text);
      RankedExpands(o, st, m, section, text[t.next..], fuel);
      if t.Reference? && ValueOf(o, st, Node(t.section, t.option)).Some? {
        RankedResolves(o, st, m, Node(t.section, t.option), fuel - 1);
      }
    }
  }

  lemma {:induction false} RankedResolves(o: ParseOptions, st: Store, m: map<Node, nat>, n: Node, fuel: nat)
    requires o.interpolation != NoInterpolation
    requires Ranked(o, st, m) && n in m && m[n] < fuel
    ensures Resolves(o, st, n, fuel)
    decreases fuel
  {
    hide NextToken, GetRaw, Sound, References, Expand;
    assert RankedAt(o, st, m, n);
    RankedExpands(o, st, m, n.section, ValueOf(o, st, n).value, fuel);
  }

  lemma {:induction false} ExpandsSound(o: ParseOptions, st: Store, section: string, text: string, fuel: nat)
    requires fuel > 0 && Expand(o, st, section, text, fuel).Ok?
    ensures Sound(o, st, section, text)
    decreases |text|
  {
    hide NextToken, GetRaw, Interpolate;
    if text != "" {
      ExpandsSound(o, st, section, text[NextToken(o, section, text).next..], fuel);
    }
  }

  /** Ranks of two closed sets agree on the lower of both. */
  function Merge(a: map<Node, nat>, b: map<Node, nat>): map<Node, nat> {
    map n | n in a.Keys + b.Keys ::
      if n in a && n in b then (if a[n] <= b[n] then a[n] else b[n]) else if n in a then a[n] else b[n]
  }

  lemma MergeRanked(o: ParseOptions, st: Store, a: map<Node, nat>, b: map<Node, nat>)
    requires Ranked(o, st, a) && Ranked(o, st, b)
    ensures Ranked(o, st, Merge(a, b))
  {
    hide ValueOf, Sound, References;
    var m := Merge(a, b);
    forall n | n in m
      ensures RankedAt(o, st, m, n)
    {
      if n in a && m[n] == a[n] {
        assert RankedAt(o, st, a, n);
      } else {
        assert RankedAt(o, st, b, n);
      }
    }
  }

  predicate AllBelow(m: map<Node, nat>, fuel: nat) {
    forall n :: n in m ==> m[n] + 2 <= fuel
  }

  /** A closed set with one more option whose references it holds, ranked above them all. */
  lemma AddRanked(o: ParseOptions, st: Store, m: map<Node, nat>, n: Node, rank: nat) returns (r: map<Node, nat>)
    requires Ranked(o, st, m) && AllBelow(m, rank + 1)
    requires ValueOf(o, st, n).Some? && Sound(o, st, n.section, ValueOf(o, st, n).value)
    requires Below(References(o, st, n.section, ValueOf(o, st, n).value), m, rank + 1)
    ensures Ranked(o, st, r) && n in r && AllBelow(r, rank + 2)
  {
    hide ValueOf, Sound, References;
    if n in m {
      r := m;
    } else {
      r := m[n := rank];
      forall x | x in r
        ensures RankedAt(o, st, r, x)
      {
        if x != n {
          assert RankedAt(o, st, m, x);
        }
      }
    }
  }

  lemma MergeBelow(a: map<Node, nat>, b: map<Node, nat>, fuel: nat, n: Node, rest: set<Node>)
    requires AllBelow(a, fuel) && AllBelow(b, fuel)
    ensures AllBelow(Merge(a, b), fuel)
    ensures n in a && Below(rest, b, fuel) ==> Below({n} + rest, Merge(a, b), fuel)
  {}

  /** A text that is substituted has its references in a ranked closed set. */
  lemma {:induction false} RankOf(o: ParseOptions, st: Store, section: string, text: string, fuel: nat)
    returns (m: map<Node, nat>)
    requires o.interpolation != NoInterpolation && fuel > 0 && Expand(o, st, section, text, fuel).Ok?
    ensures Ranked(o, st, m) && AllBelow(m, fuel) && Below(References(o, st, section, text), m, fuel)
    decreases fuel, |text|
  {
    hide NextToken, GetRaw, Sound, Ranked, Merge;
    m := map[];
    if text == "" {
      EmptyRanked(o, st);
    } else {
      var t := NextToken(o, section, text);
      m := RankOf(o, st, section, text[t.next..], fuel);
      if t.Reference? && ValueOf(o, st, Node(t.section, t.option)).Some? {
        var n := Node(t.section, t.option);
        var v := ValueOf(o, st, n).value;
        var inner := RankOf(o, st, n.section, v, fuel - 1);
        ExpandsSound(o, st, n.section, v, fuel - 1);
        var added := AddRanked(o, st, inner, n, fuel - 2);
        MergeRanked(o, st, added, m);
        MergeBelow(added, m, fuel, n, References(o, st, section, text[t.next..]));
        m := Merge(added, m);
      }
    }
  }

  lemma EmptyRanked(o: ParseOptions, st: Store)
    ensures Ranked(o, st, map[])
  {}

  lemma RankOfNode(o: ParseOptions, st: Store, n: Node, fuel: nat) returns (m: map<Node, nat>)
    requires o.interpolation != NoInterpolation && Resolves(o, st, n, fuel)
    ensures Ranked(o, st, m) && n in m
  {
    hide ValueOf, Sound, References, Ranked, Expand, GetRaw;
    var v := ValueOf(o, st, n).value;
    var inner := RankOf(o, st, n.section, v, fuel);
    ExpandsSound(o, st, n.section, v, fuel);
    m := AddRanked(o, st, inner, n, fuel - 1);
  }

  /** Main result: an option with a value can be substituted under some depth limit exactly when it lies in a
      set of options, closed under reference and free of malformed or dangling references, that can be ranked
      so that every reference leads strictly down; its rank then says how many levels are enough. */
  lemma ResolvesIffRanked(o: ParseOptions, st: Store, n: Node)
    requires o.interpolation != NoInterpolation
    ensures (exists fuel: nat :: Resolves(o, st, n, fuel)) <==>
            (exists m: map<Node, nat> :: Ranked(o, st, m) && n in m)
    ensures forall m: map<Node, nat> :: Ranked(o, st, m) && n in m ==> Resolves(o, st, n, m[n] + 1)
  {
    hide Ranked, Resolves;
    if exists fuel: nat :: Resolves(o, st, n, fuel) {
      var fuel: nat :| Resolves(o, st, n, fuel);
      var m := RankOfNode(o, st, n, fuel);
    }
    forall m: map<Node, nat> | Ranked(o, st, m) && n in m
      ensures Resolves(o, st, n, m[n] + 1)
    {
      RankedResolves(o, st, m, n, m[n] + 1);
    }
  }
}
