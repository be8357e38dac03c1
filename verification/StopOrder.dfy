/** In which order the stop phase records services, whatever the enumerations answer:
    runs of the depth-first recursion, and exactly when all of them put dependents first. */
module StopOrder {
  import opened Text
  import opened ServiceGraph

  /** One service met in an enumeration, and what enumerating its own dependents answered. */
  datatype Visit = Visit(name: Name, answer: seq<Visit>)

  /** A service that still runs is stopped and recorded. */
  function Taken(n: Name, r: set<Name>, a: seq<Name>): seq<Name> {
    if n in r && n !in a then a + [n] else a
  }

  /** The list after these visits, when the services in r ran at the start and every call succeeds: for each
      visit first what its own enumeration leads to, then the service itself. */
  function Record(vs: seq<Visit>, r: set<Name>, a: seq<Name>): (l: seq<Name>)
    ensures a <= l
    decreases vs
  {
    if vs == [] then a else Record(vs[1..], r, Taken(vs[0].name, r, Record(vs[0].answer, r, a)))
  }

  /** What still runs. */
  function Left(r: set<Name>, a: seq<Name>): set<Name> {
    set n | n in r && n !in a
  }

  predicate Lists(vs: seq<Visit>, n: Name) {
    exists i :: 0 <= i < |vs| && vs[i].name == n
  }

  /** A truthful enumeration of x: every running direct dependent, and nothing but services that run and depend
      on x through running services. */
  ghost predicate Answers(g: Graph, r: set<Name>, x: Name, vs: seq<Visit>, a: seq<Name>) {
    && (forall n :: n in Dependents(g, x) && n in Left(r, a) ==> Lists(vs, n))
    && (forall i :: 0 <= i < |vs| ==> DependsThrough(g, Left(r, a), vs[i].name, x))
  }

  /** Every enumeration inside the visits is truthful at the time it is made. */
  ghost predicate Proper(g: Graph, r: set<Name>, vs: seq<Visit>, a: seq<Name>)
    decreases vs
  {
    vs == [] ||
    (&& Answers(g, r, vs[0].name, vs[0].answer, a) && Proper(g, r, vs[0].answer, a)
     && Proper(g, r, vs[1..], Taken(vs[0].name, r, Record(vs[0].answer, r, a))))
  }

  /** A stop phase below x that starts with the list a and in which no call fails. */
  ghost predicate Run(g: Graph, r: set<Name>, x: Name, vs: seq<Visit>, a: seq<Name>) {
    Answers(g, r, x, vs, a) && Proper(g, r, vs, a)
  }

  /** Every enumeration names direct dependents only, each once. */
  predicate Direct(g: Graph, x: Name, vs: seq<Visit>)
    decreases vs
  {
    && (forall i, j :: 0 <= i < j < |vs| ==> vs[i].name != vs[j].name)
    && forall i :: 0 <= i < |vs| ==> DependsDirectly(g, vs[i].name, x) && Direct(g, vs[i].name, vs[i].answer)
  }

  // ---------------------------------------------------------------- what every run keeps

  ghost predicate Sound(g: Graph, r: set<Name>, a: seq<Name>) {
    NoRepeats(a) && AboveFirst(g, r, a) && forall y :: y in a ==> y in r
  }

  /** What is new in b depends on x through running services. */
  ghost predicate NewReach(g: Graph, r: set<Name>, a: seq<Name>, b: seq<Name>, x: Name) {
    forall y :: y in b ==> y in a || DependsThrough(g, r, y, x)
  }

  lemma NewReachChain(g: Graph, r: set<Name>, a: seq<Name>, b: seq<Name>, c: seq<Name>, n: Name, x: Name)
    requires NewReach(g, r, a, b, n) && DependsThrough(g, r, n, x)
    requires c == Taken(n, r, b)
    ensures NewReach(g, r, a, c, x)
  {
    hide DependsThrough;
    forall y | y in c
      ensures y in a || DependsThrough(g, r, y, x)
    {
      if y in b && y !in a {
        ThroughTransitive(g, r, y, n, x);
      }
    }
  }

  lemma TakenSound(g: Graph, r: set<Name>, a: seq<Name>, n: Name)
    requires Sound(g, r, a) && AllAbove(g, r, n, a)
    ensures Sound(g, r, Taken(n, r, a)) && (n in r ==> n in Taken(n, r, a))
  {
    hide AboveFirst, AllAbove;
    if n in r && n !in a {
      AboveSnoc(g, r, a, n);
      assert (a + [n])[|a|] == n;
    }
  }

  /** The names a truthful enumeration gives. */
  lemma AnswersReach(g: Graph, r: set<Name>, x: Name, vs: seq<Visit>, a: seq<Name>, i: nat)
    requires Answers(g, r, x, vs, a) && i < |vs|
    ensures DependsThrough(g, r, vs[i].name, x) && vs[i].name in r
  {
    hide DependsThrough;
    ThroughWider(g, Left(r, a), r, vs[i].name, x);
    ThroughDepends(g, r, vs[i].name, x);
  }

  ghost predicate AllNamesReach(g: Graph, r: set<Name>, vs: seq<Visit>, x: Name) {
    forall i :: 0 <= i < |vs| ==> DependsThrough(g, r, vs[i].name, x) && vs[i].name in r
  }

  lemma AnswersAllReach(g: Graph, r: set<Name>, x: Name, vs: seq<Visit>, a: seq<Name>)
    requires Answers(g, r, x, vs, a)
    ensures AllNamesReach(g, r, vs, x)
  {
    hide DependsThrough, Answers;
    forall i | 0 <= i < |vs|
      ensures DependsThrough(g, r, vs[i].name, x) && vs[i].name in r
    {
      AnswersReach(g, r, x, vs, a, i);
    }
  }

  /** Once everything listed is recorded, so is all that depends on x through running services. */
  lemma ListedIsAll(g: Graph, r: set<Name>, x: Name, vs: seq<Visit>, a: seq<Name>, b: seq<Name>)
    requires Answers(g, r, x, vs, a) && a <= b && AboveFirst(g, r, b)
    requires forall i :: 0 <= i < |vs| ==> vs[i].name in b
    ensures AllAbove(g, r, x, b)
  {
    hide DependsThrough, AboveFirst, Dependents, AllAbove;
    forall n | n in Dependents(g, x) && n in r
      ensures n in b
    {
      if n !in a {
        assert n in Left(r, a);
        assert Lists(vs, n);
      }
    }
    AboveComplete(g, r, x, b);
  }

  lemma AllNamesTail(g: Graph, r: set<Name>, vs: seq<Visit>, x: Name)
    requires AllNamesReach(g, r, vs, x) && vs != []
    ensures AllNamesReach(g, r, vs[1..], x) && DependsThrough(g, r, vs[0].name, x) && vs[0].name in r
  {
    hide DependsThrough;
  }

  lemma NamesInCons(vs: seq<Visit>, b: seq<Name>, l: seq<Name>)
    requires vs != [] && vs[0].name in b && b <= l && forall i :: 0 <= i < |vs| - 1 ==> vs[1..][i].name in l
    ensures forall i :: 0 <= i < |vs| ==> vs[i].name in l
  {
    forall i | 0 <= i < |vs|
      ensures vs[i].name in l
    {
      if i > 0 {
        assert vs[1..][i - 1].name in l;
      }
    }
  }

  lemma NewReachJoin(g: Graph, r: set<Name>, a: seq<Name>, b: seq<Name>, c: seq<Name>, x: Name)
    requires NewReach(g, r, a, b, x) && NewReach(g, r, b, c, x)
    ensures NewReach(g, r, a, c, x)
  {
    hide DependsThrough;
  }

  lemma RecordCons(vs: seq<Visit>, r: set<Name>, a: seq<Name>)
    requires vs != []
    ensures var b := Taken(vs[0].name, r, Record(vs[0].answer, r, a));
            Record(vs, r, a) == Record(vs[1..], r, b) && a <= b
  {}

  lemma ProperCons(g: Graph, r: set<Name>, vs: seq<Visit>, a: seq<Name>)
    requires Proper(g, r, vs, a) && vs != []
    ensures Answers(g, r, vs[0].name, vs[0].answer, a) && Proper(g, r, vs[0].answer, a)
    ensures Proper(g, r, vs[1..], Taken(vs[0].name, r, Record(vs[0].answer, r, a)))
  {}

  /** Every list a run produces is without repetition and has above every entry, before it, all that depends on
      the entry through running services; everything met is recorded, and nothing else. */
  lemma {:induction false} RunKeeps(g: Graph, r: set<Name>, vs: seq<Visit>, a: seq<Name>, x: Name)
    requires Proper(g, r, vs, a) && Sound(g, r, a) && AllNamesReach(g, r, vs, x)
    ensures Sound(g, r, Record(vs, r, a)) && NewReach(g, r, a, Record(vs, r, a), x)
    ensures forall i :: 0 <= i < |vs| ==> vs[i].name in Record(vs, r, a)
    decreases vs
  {
    hide *;
    if vs == [] {
      NothingMet(g, r, a, x);
    } else {
      var n, answer := vs[0].name, vs[0].answer;
      ProperCons(g, r, vs, a);
      RecordCons(vs, r, a);
      AllNamesTail(g, r, vs, x);
      AnswersAllReach(g, r, n, answer, a);
      RunKeeps(g, r, answer, a, n);
      var b := Record(answer, r, a);
      SoundParts(g, r, b);
      ListedIsAll(g, r, n, answer, a, b);
      TakenSound(g, r, b, n);
      var c := Taken(n, r, b);
      NewReachChain(g, r, a, b, c, n, x);
      RunKeeps(g, r, vs[1..], c, x);
      NewReachJoin(g, r, a, c, Record(vs, r, a), x);
      NamesInCons(vs, c, Record(vs, r, a));
    }
  }

  lemma SoundParts(g: Graph, r: set<Name>, a: seq<Name>)
    requires Sound(g, r, a)
    ensures AboveFirst(g, r, a) && NoRepeats(a) && forall y :: y in a ==> y in r
  {}

  lemma NothingMet(g: Graph, r: set<Name>, a: seq<Name>, x: Name)
    ensures Record([], r, a) == a && NewReach(g, r, a, a, x)
  {}

  /** The whole stop phase below the parent. */
  lemma RunRecords(g: Graph, r: set<Name>, x: Name, vs: seq<Visit>)
    requires Run(g, r, x, vs, [])
    ensures var l := Record(vs, r, []);
            Sound(g, r, l) && AllReach(g, r, l, x) && AllAbove(g, r, x, l)
  {
    hide DependsThrough, Answers, Proper, Record, Depends;
    AnswersAllReach(g, r, x, vs, []);
    RunKeeps(g, r, vs, [], x);
    ListedIsAll(g, r, x, vs, [], Record(vs, r, []));
  }

  /** A run records exactly what depends on the parent through running services, each once. */
  lemma RunIsComplete(g: Graph, r: set<Name>, x: Name, vs: seq<Visit>, d: Name)
    requires Run(g, r, x, vs, [])
    ensures d in Record(vs, r, []) <==> DependsThrough(g, r, d, x)
    ensures NoRepeats(Record(vs, r, []))
  {
    hide DependsThrough, Run, Record, AboveFirst;
    RunRecords(g, r, x, vs);
  }

  /** In a safe start every enumeration order puts dependents first. */
  lemma SafeRun(g: Graph, r: set<Name>, x: Name, vs: seq<Visit>)
    requires Run(g, r, x, vs, []) && SafeOrder(g, r, r, x)
    ensures DependentsFirst(g, Record(vs, r, []))
  {
    hide Run, Record, DependsThrough, Depends, SafeOrder;
    RunRecords(g, r, x, vs);
    SafeIsFirst(g, r, r, x, Record(vs, r, []));
  }

  // ---------------------------------------------------------------- runs exist, in any order

  ghost function Above(g: Graph, x: Name): set<Name> {
    set d | d in g.deps && Depends(g, d, x)
  }

  lemma AboveShrinks(g: Graph, n: Name, x: Name)
    requires Acyclic(g) && DependsDirectly(g, n, x)
    ensures Above(g, n) < Above(g, x)
  {
    hide Depends;
    DirectDepends(g, n, x);
    forall d | d in Above(g, n)
      ensures d in Above(g, x)
    {
      DependsTransitive(g, d, n, x);
    }
    assert n in Above(g, x) && n !in Above(g, n);
  }

  lemma {:induction false} Listing(s: set<Name>) returns (q: seq<Name>)
    ensures NoRepeats(q) && forall n :: n in q <==> n in s
    decreases |s|
  {
    if s == {} {
      q := [];
    } else {
      var x :| x in s;
      var rest := Listing(s - {x});
      q := [x] + rest;
    }
  }

  function Names(vs: seq<Visit>): (r: seq<Name>)
    ensures |r| == |vs| && forall i :: 0 <= i < |vs| ==> r[i] == vs[i].name
  {
    seq(|vs|, i requires 0 <= i < |vs| => vs[i].name)
  }

  /** Visits whose enumerations are all direct. */
  predicate DirectVisits(g: Graph, x: Name, vs: seq<Visit>) {
    forall i :: 0 <= i < |vs| ==> DependsDirectly(g, vs[i].name, x) && Direct(g, vs[i].name, vs[i].answer)
  }

  lemma NamesCons(g: Graph, x: Name, v: Visit, rest: seq<Visit>)
    ensures Names([v] + rest) == [v.name] + Names(rest)
    ensures DependsDirectly(g, v.name, x) && Direct(g, v.name, v.answer) && DirectVisits(g, x, rest)
            ==> DirectVisits(g, x, [v] + rest)
  {
    hide DependsDirectly, Direct;
  }

  lemma ProperJoin(g: Graph, r: set<Name>, v: Visit, rest: seq<Visit>, a: seq<Name>)
    requires Run(g, r, v.name, v.answer, a) && Proper(g, r, rest, Taken(v.name, r, Record(v.answer, r, a)))
    ensures Proper(g, r, [v] + rest, a)
  {
    hide Answers;
    ConsTail(v, rest);
  }

  /** One more visit at the end. */
  lemma {:induction false} RunSnoc(g: Graph, r: set<Name>, vs: seq<Visit>, a: seq<Name>, v: Visit)
    requires Proper(g, r, vs, a) && Run(g, r, v.name, v.answer, Record(vs, r, a))
    ensures Proper(g, r, vs + [v], a)
    ensures Record(vs + [v], r, a) == Taken(v.name, r, Record(v.answer, r, Record(vs, r, a)))
    decreases |vs|
  {
    hide Answers, Taken;
    if vs == [] {
      ProperJoin(g, r, v, [], a);
      assert [] + [v] == [v] == [v] + [] && [v][1..] == [];
    } else {
      var rest := vs[1..] + [v];
      assert vs + [v] == [vs[0]] + rest;
      ConsTail(vs[0], rest);
      RunSnoc(g, r, vs[1..], Taken(vs[0].name, r, Record(vs[0].answer, r, a)), v);
    }
  }

  /** A truthful direct enumeration, given any order of the running direct dependents. */
  lemma ListingAnswers(g: Graph, r: set<Name>, x: Name, vs: seq<Visit>, a: seq<Name>)
    requires NoRepeats(Names(vs)) && DirectVisits(g, x, vs)
    requires forall n :: n in Names(vs) <==> n in Dependents(g, x) && n in Left(r, a)
    ensures Answers(g, r, x, vs, a) && Direct(g, x, vs)
  {
    hide DependsThrough;
    forall n | n in Dependents(g, x) && n in Left(r, a)
      ensures Lists(vs, n)
    {
      assert n in Names(vs);
      var i :| 0 <= i < |vs| && Names(vs)[i] == n;
    }
    forall i | 0 <= i < |vs|
      ensures DependsThrough(g, Left(r, a), vs[i].name, x)
    {
      assert Names(vs)[i] in Names(vs);
      DirectThrough(g, Left(r, a), vs[i].name, x);
    }
    DirectFrom(g, x, vs);
  }

  lemma DirectFrom(g: Graph, x: Name, vs: seq<Visit>)
    requires NoRepeats(Names(vs)) && DirectVisits(g, x, vs)
    ensures Direct(g, x, vs)
  {
    hide DependsDirectly;
    var q := Names(vs);
    assert forall i :: 0 <= i < |vs| ==> q[i] == vs[i].name;
  }

  lemma BuildRun(g: Graph, r: set<Name>, x: Name, a: seq<Name>) returns (vs: seq<Visit>)
    requires Acyclic(g)
    ensures Run(g, r, x, vs, a) && Direct(g, x, vs)
    decreases Above(g, x), 1, 0
  {
    hide Depends, Answers, Proper, Above, DirectVisits, Direct;
    var q := Listing(Dependents(g, x) * Left(r, a));
    vs := BuildVisits(g, r, x, q, a);
    ListingAnswers(g, r, x, vs, a);
  }

  /** Visits in the given order, whatever has been recorded before them. */
  lemma {:induction false} BuildVisits(g: Graph, r: set<Name>, x: Name, q: seq<Name>, a: seq<Name>)
    returns (vs: seq<Visit>)
    requires Acyclic(g) && forall n :: n in q ==> n in Dependents(g, x)
    ensures Names(vs) == q && Proper(g, r, vs, a) && DirectVisits(g, x, vs)
    decreases Above(g, x), 0, |q|
  {
    hide Acyclic, Answers, Proper, Above, DirectVisits, Direct, Run, Record;
    if q == [] {
      vs := [];
      NoVisits(g, r, x, a);
    } else {
      assert q[0] in q;
      AboveShrinks(g, q[0], x);
      var answer := BuildRun(g, r, q[0], a);
      var v := Visit(q[0], answer);
      var rest := BuildVisits(g, r, x, q[1..], Taken(q[0], r, Record(answer, r, a)));
      vs := [v] + rest;
      NamesCons(g, x, v, rest);
      ProperJoin(g, r, v, rest, a);
      HeadTail(q);
    }
  }

  lemma NoVisits(g: Graph, r: set<Name>, x: Name, a: seq<Name>)
    ensures Names([]) == [] && Proper(g, r, [], a) && DirectVisits(g, x, [])
  {}

  /** The run that follows a chain of running services up from its end before anything else: when the chain's
      head has just been recorded, nothing is on the list that does not depend on it through running services. */
  lemma {:induction false} LeadRun(g: Graph, r: set<Name>, p: seq<Name>, i: nat, d: Name)
    returns (vs: seq<Visit>, c: seq<Name>)
    requires Acyclic(g) && Chain(g, p) && Through(p, r) && 1 <= i < |p|
    requires d != p[0] && !DependsThrough(g, r, d, p[0])
    ensures Run(g, r, p[i], vs, []) && Direct(g, p[i], vs)
    ensures c <= Record(vs, r, []) && p[0] in c && d !in c
    decreases i
  {
    hide Acyclic, DependsThrough, Depends, Answers, Proper, DirectVisits, Direct, Run, Record;
    var n, x := p[i - 1], p[i];
    assert DependsDirectly(g, p[i - 1], p[i - 1 + 1]) && n in r;
    var answer;
    if i == 1 {
      answer := BuildRun(g, r, n, []);
      RunRecords(g, r, n, answer);
      c := Taken(n, r, Record(answer, r, []));
      HeadRecorded(n, r, Record(answer, r, []));
    } else {
      answer, c := LeadRun(g, r, p, i - 1, d);
    }
    var v, b := Visit(n, answer), Taken(n, r, Record(answer, r, []));
    var q := Listing(Dependents(g, x) * Left(r, []) - {n});
    var rest := BuildVisits(g, r, x, q, b);
    vs := [v] + rest;
    NamesCons(g, x, v, rest);
    ProperJoin(g, r, v, rest, []);
    FirstNamed(n, q, Dependents(g, x) * Left(r, []));
    ListingAnswers(g, r, x, vs, []);
    RunFrom(g, r, x, vs);
    ConsTail(v, rest);
    RecordCons(vs, r, []);
    RecordGrows(vs[1..], r, b);
    assert c <= b;
  }

  lemma HeadRecorded(n: Name, r: set<Name>, a: seq<Name>)
    requires n in r
    ensures n in Taken(n, r, a) && forall y :: y in Taken(n, r, a) ==> y == n || y in a
  {
    assert (a + [n])[|a|] == n;
  }

  lemma FirstNamed(n: Name, q: seq<Name>, s: set<Name>)
    requires n in s && NoRepeats(q) && forall y :: y in q <==> y in s - {n}
    ensures NoRepeats([n] + q) && forall y :: y in [n] + q <==> y in s
  {
    var w := [n] + q;
    assert forall i :: 1 <= i < |w| ==> w[i] == q[i - 1] && w[i] in q;
  }

  lemma RunFrom(g: Graph, r: set<Name>, x: Name, vs: seq<Visit>)
    requires Answers(g, r, x, vs, []) && Proper(g, r, vs, [])
    ensures Run(g, r, x, vs, [])
  {}

  lemma RecordGrows(vs: seq<Visit>, r: set<Name>, a: seq<Name>)
    ensures a <= Record(vs, r, a)
  {}

  /** In an unsafe start some enumeration order, of direct dependents only and each once, records a service
      before one that depends on it. */
  lemma UnsafeRun(g: Graph, r: set<Name>, x: Name) returns (vs: seq<Visit>)
    requires Acyclic(g) && !SafeOrder(g, r, r, x)
    ensures Run(g, r, x, vs, []) && Direct(g, x, vs) && !DependentsFirst(g, Record(vs, r, []))
  {
    hide DependsDirectly, Run, Direct, Record, DependsThrough, Depends;
    var b, d :| b in r && d in r && Depends(g, d, b) && DependsThrough(g, r, b, x) && DependsThrough(g, r, d, x)
                && !DependsThrough(g, r, d, b);
    var p := ChainOf(g, r, b, x);
    var c;
    vs, c := LeadRun(g, r, p, |p| - 1, d);
    RunRecords(g, r, x, vs);
    OutOfOrder(g, Record(vs, r, []), c, b, d);
  }

  lemma ChainOf(g: Graph, r: set<Name>, a: Name, b: Name) returns (p: seq<Name>)
    requires DependsThrough(g, r, a, b)
    ensures Chain(g, p) && Through(p, r) && p[0] == a && p[|p| - 1] == b
  {
    p :| Chain(g, p) && Through(p, r) && p[0] == a && p[|p| - 1] == b;
  }

  lemma OutOfOrder(g: Graph, l: seq<Name>, c: seq<Name>, b: Name, d: Name)
    requires c <= l && b in c && d !in c && d in l && Depends(g, d, b)
    ensures !DependentsFirst(g, l)
  {
    hide Depends;
    var i :| 0 <= i < |c| && c[i] == b;
    var j :| 0 <= j < |l| && l[j] == d;
    assert l[i] == b;
    assert forall k :: 0 <= k < |c| ==> l[k] == c[k] && c[k] in c;
  }

  /** Main result, exactly: with every service running or stopped at the start and no call failing, every
      enumeration order puts dependents first if and only if any two running services that reach the parent
      through running services and depend on each other at all do so through running services. That every order
      of the direct dependents alone does so is the same condition. */
  lemma OrderSafeExactly(g: Graph, r: set<Name>, x: Name)
    requires Acyclic(g)
    ensures SafeOrder(g, r, r, x) <==> forall vs :: Run(g, r, x, vs, []) ==> DependentsFirst(g, Record(vs, r, []))
    ensures SafeOrder(g, r, r, x) <==>
            forall vs :: Run(g, r, x, vs, []) && Direct(g, x, vs) ==> DependentsFirst(g, Record(vs, r, []))
  {
    hide *;
    if SafeOrder(g, r, r, x) {
      forall vs | Run(g, r, x, vs, [])
        ensures DependentsFirst(g, Record(vs, r, []))
      {
        SafeRun(g, r, x, vs);
      }
    } else {
      var vs := UnsafeRun(g, r, x);
    }
  }

  // ---------------------------------------------------------------- a start that is not safe

  /** a needs term, b needs a, d needs term, c needs b and d; only b has died. */
  const FIVE := Graph(map["term" := {}, "a" := {"term"}, "b" := {"a"}, "d" := {"term"}, "c" := {"b", "d"}])
  const B_DIED: set<Name> := {"term", "a", "d", "c"}
  const A_FIRST := [Visit("a", []), Visit("d", [Visit("c", [])])]

  lemma FiveDependents()
    ensures Dependents(FIVE, "term") == {"a", "d"} && Dependents(FIVE, "a") == {"b"}
    ensures Dependents(FIVE, "d") == {"c"} && Dependents(FIVE, "c") == {}
  {}

  lemma FiveChain(a: seq<Name>, n: Name, x: Name)
    requires n in B_DIED && n !in a && DependsDirectly(FIVE, n, x)
    ensures DependsThrough(FIVE, Left(B_DIED, a), n, x)
  {
    DirectThrough(FIVE, Left(B_DIED, a), n, x);
  }

  lemma FiveAnswers()
    ensures Answers(FIVE, B_DIED, "term", A_FIRST, []) && Answers(FIVE, B_DIED, "a", [], [])
    ensures Answers(FIVE, B_DIED, "d", [Visit("c", [])], ["a"]) && Answers(FIVE, B_DIED, "c", [], ["a"])
  {
    hide DependsThrough, Dependents;
    FiveDependents();
    FiveChain([], "a", "term");
    FiveChain([], "d", "term");
    FiveChain(["a"], "c", "d");
    assert A_FIRST[0].name == "a" && A_FIRST[1].name == "d" && [Visit("c", [])][0].name == "c";
  }

  function Height(x: Name): nat {
    if x == "term" then 0 else if x == "a" || x == "d" then 1 else if x == "b" then 2 else 3
  }

  lemma {:induction false} ChainDescends(p: seq<Name>)
    requires Chain(FIVE, p)
    ensures Height(p[0]) > Height(p[|p| - 1])
    decreases |p|
  {
    assert DependsDirectly(FIVE, p[0], p[1]);
    assert Height(p[0]) > Height(p[1]);
    if |p| > 2 {
      var q := p[1..];
      forall i | 0 <= i < |q| - 1
        ensures DependsDirectly(FIVE, q[i], q[i + 1])
      {
        assert DependsDirectly(FIVE, p[i + 1], p[i + 1 + 1]);
      }
      ChainDescends(q);
    }
  }

  lemma FiveAcyclic()
    ensures WellFormed(FIVE) && Acyclic(FIVE)
  {
    forall x
      ensures !Depends(FIVE, x, x)
    {
      if Depends(FIVE, x, x) {
        var p :| Chain(FIVE, p) && p[0] == x && p[|p| - 1] == x;
        ChainDescends(p);
      }
    }
  }

  lemma FiveDepends()
    ensures Depends(FIVE, "c", "a")
  {
    DirectDepends(FIVE, "c", "b");
    DirectDepends(FIVE, "b", "a");
    DependsTransitive(FIVE, "c", "b", "a");
  }

  lemma FiveRecord()
    ensures Record([Visit("c", [])], B_DIED, ["a"]) == ["a", "c"]
    ensures Record(A_FIRST, B_DIED, []) == ["a", "c", "d"]
  {
    assert Record([], B_DIED, []) == [] && Record([], B_DIED, ["a"]) == ["a"];
    assert [Visit("c", [])][1..] == [] && A_FIRST[1..] == [Visit("d", [Visit("c", [])])];
    assert A_FIRST[1..][1..] == [];
    assert Record([Visit("c", [])], B_DIED, ["a"]) == ["a", "c"];
    assert Record(A_FIRST[1..], B_DIED, ["a"]) == ["a", "c", "d"];
  }

  lemma FiveProper()
    ensures Proper(FIVE, B_DIED, A_FIRST, [])
  {
    hide Answers;
    FiveAnswers();
    FiveRecord();
    assert [Visit("c", [])][1..] == [] && A_FIRST[1..] == [Visit("d", [Visit("c", [])])];
    assert A_FIRST[1..][1..] == [];
    assert Proper(FIVE, B_DIED, [Visit("c", [])], ["a"]);
    assert Proper(FIVE, B_DIED, A_FIRST[1..], ["a"]);
    assert A_FIRST[0] == Visit("a", []) && Record([], B_DIED, []) == [] && Taken("a", B_DIED, []) == ["a"];
  }

  /** A start that is not safe, and the run that shows it: enumerating term as a, d stops a first, although c,
      which needs a through the dead b, still runs and is only met under d. */
  lemma UnsafeExample()
    ensures WellFormed(FIVE) && Acyclic(FIVE) && !SafeOrder(FIVE, B_DIED, B_DIED, "term")
    ensures Run(FIVE, B_DIED, "term", A_FIRST, []) && Direct(FIVE, "term", A_FIRST)
    ensures Record(A_FIRST, B_DIED, []) == ["a", "c", "d"] && Depends(FIVE, "c", "a")
    ensures !DependentsFirst(FIVE, ["a", "c", "d"])
  {
    FiveAcyclic();
    FiveDepends();
    FiveAnswers();
    FiveProper();
    FiveRecord();
    FiveDirect();
    hide *;
    FiveFacts();
    OutOfOrder(FIVE, ["a", "c", "d"], ["a"], "a", "c");
    OrderSafeExactly(FIVE, B_DIED, "term");
  }

  lemma FiveFacts()
    requires Answers(FIVE, B_DIED, "term", A_FIRST, []) && Proper(FIVE, B_DIED, A_FIRST, [])
    ensures Run(FIVE, B_DIED, "term", A_FIRST, [])
    ensures ["a"] <= ["a", "c", "d"] && "a" in ["a"] && "c" !in ["a"] && "c" in ["a", "c", "d"]
  {
    assert ["a", "c", "d"][1] == "c";
  }

  lemma FiveDirect()
    ensures Direct(FIVE, "term", A_FIRST)
  {
    assert Direct(FIVE, "c", []) && Direct(FIVE, "a", []);
    assert Direct(FIVE, "d", [Visit("c", [])]);
    assert A_FIRST[0] == Visit("a", []) && A_FIRST[1] == Visit("d", [Visit("c", [])]);
  }
}
