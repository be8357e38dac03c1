/** Services, what they depend on, and the order in which they may be stopped and started. */
module ServiceGraph {

  type Name = string

  datatype State = Stopped | StartPending | StopPending | Running | Paused

  /** For each service, the services it depends on directly. */
  datatype Graph = Graph(deps: map<Name, set<Name>>)

  predicate WellFormed(g: Graph) {
    forall s :: s in g.deps ==> g.deps[s] <= g.deps.Keys
  }

  predicate DependsDirectly(g: Graph, a: Name, b: Name) {
    a in g.deps && b in g.deps[a]
  }

  function Dependents(g: Graph, b: Name): set<Name> {
    set a | a in g.deps && b in g.deps[a]
  }

  predicate Chain(g: Graph, p: seq<Name>) {
    |p| >= 2 && forall i :: 0 <= i < |p| - 1 ==> DependsDirectly(g, p[i], p[i + 1])
  }

  /** a depends on b through some chain. */
  ghost predicate Depends(g: Graph, a: Name, b: Name) {
    exists p :: Chain(g, p) && p[0] == a && p[|p| - 1] == b
  }

  ghost predicate Acyclic(g: Graph) {
    forall s :: !Depends(g, s, s)
  }

  lemma DirectDepends(g: Graph, a: Name, b: Name)
    requires DependsDirectly(g, a, b)
    ensures Depends(g, a, b)
  {
    assert Chain(g, [a, b]);
  }

  lemma DependsTransitive(g: Graph, a: Name, b: Name, c: Name)
    requires Depends(g, a, b) && Depends(g, b, c)
    ensures Depends(g, a, c)
  {
    hide DependsDirectly;
    var p :| Chain(g, p) && p[0] == a && p[|p| - 1] == b;
    var q :| Chain(g, q) && q[0] == b && q[|q| - 1] == c;
    var r := p + q[1..];
    forall i | 0 <= i < |r| - 1
      ensures DependsDirectly(g, r[i], r[i + 1])
    {
      if i < |p| - 1 {
        assert r[i] == p[i] && r[i + 1] == p[i + 1];
      } else {
        assert r[i] == q[i - (|p| - 1)] && r[i + 1] == q[i + 1 - (|p| - 1)];
      }
    }
    assert Chain(g, r);
  }

  // ---------------------------------------------------------------- chains through some services only

  /** Everything on the chain but its end is among these services. */
  predicate Through(p: seq<Name>, r: set<Name>) {
    forall i :: 0 <= i < |p| - 1 ==> p[i] in r
  }

  /** a depends on b through a chain of these services, a among them. */
  ghost predicate DependsThrough(g: Graph, r: set<Name>, a: Name, b: Name) {
    exists p :: Chain(g, p) && Through(p, r) && p[0] == a && p[|p| - 1] == b
  }

  lemma DirectThrough(g: Graph, r: set<Name>, a: Name, b: Name)
    requires DependsDirectly(g, a, b) && a in r
    ensures DependsThrough(g, r, a, b)
  {
    assert Chain(g, [a, b]) && Through([a, b], r);
  }

  lemma ThroughTransitive(g: Graph, r: set<Name>, a: Name, b: Name, c: Name)
    requires DependsThrough(g, r, a, b) && DependsThrough(g, r, b, c)
    ensures DependsThrough(g, r, a, c)
  {
    hide DependsDirectly;
    var p :| Chain(g, p) && Through(p, r) && p[0] == a && p[|p| - 1] == b;
    var q :| Chain(g, q) && Through(q, r) && q[0] == b && q[|q| - 1] == c;
    var t := p + q[1..];
    forall i | 0 <= i < |t| - 1
      ensures DependsDirectly(g, t[i], t[i + 1]) && t[i] in r
    {
      if i < |p| - 1 {
        assert t[i] == p[i] && t[i + 1] == p[i + 1];
      } else {
        assert t[i] == q[i - (|p| - 1)] && t[i + 1] == q[i + 1 - (|p| - 1)];
      }
    }
    assert Chain(g, t) && Through(t, r);
  }

  lemma ThroughWider(g: Graph, r: set<Name>, wide: set<Name>, a: Name, b: Name)
    requires DependsThrough(g, r, a, b) && r <= wide
    ensures DependsThrough(g, wide, a, b)
  {
    hide DependsDirectly;
    var p :| Chain(g, p) && Through(p, r) && p[0] == a && p[|p| - 1] == b;
    assert Through(p, wide);
  }

  lemma ThroughDepends(g: Graph, r: set<Name>, a: Name, b: Name)
    requires DependsThrough(g, r, a, b)
    ensures Depends(g, a, b) && a in r
  {
    var p :| Chain(g, p) && Through(p, r) && p[0] == a && p[|p| - 1] == b;
    assert p[0] in r;
  }

  /** The chain's last link: a direct dependent of b among these services, which is a or which a depends on. */
  lemma LastLink(g: Graph, r: set<Name>, a: Name, b: Name) returns (n: Name)
    requires DependsThrough(g, r, a, b)
    ensures n in Dependents(g, b) && n in r && (a == n || DependsThrough(g, r, a, n))
  {
    var p :| Chain(g, p) && Through(p, r) && p[0] == a && p[|p| - 1] == b;
    var k := |p| - 2;
    n := p[k];
    assert DependsDirectly(g, p[k], p[k + 1]);
    if k > 0 {
      var q := p[..k + 1];
      forall i | 0 <= i < |q| - 1
        ensures DependsDirectly(g, q[i], q[i + 1]) && q[i] in r
      {
        assert DependsDirectly(g, p[i], p[i + 1]);
      }
      assert Chain(g, q) && Through(q, r);
    }
  }

  // ---------------------------------------------------------------- orders

  type States = map<Name, State>

  function RunningIn(s: States): set<Name> {
    set x | x in s && s[x] == Running
  }

  function ActiveIn(s: States): set<Name> {
    set x | x in s && s[x] != Stopped
  }

  predicate NoRepeats(a: seq<Name>) {
    forall i, j :: 0 <= i < j < |a| ==> a[i] != a[j]
  }

  /** No later entry depends on an earlier one: dependents come first. */
  ghost predicate DependentsFirst(g: Graph, a: seq<Name>) {
    forall i, j :: 0 <= i < j < |a| ==> !Depends(g, a[j], a[i])
  }

  /** Before every entry stands all that depends on it through these services. */
  ghost predicate AboveFirst(g: Graph, r: set<Name>, a: seq<Name>) {
    forall i, d :: 0 <= i < |a| && DependsThrough(g, r, d, a[i]) ==> d in a[..i]
  }

  /** All that depends on x through these services is in the list. */
  ghost predicate AllAbove(g: Graph, r: set<Name>, x: Name, a: seq<Name>) {
    forall d :: DependsThrough(g, r, d, x) ==> d in a
  }

  lemma AboveMember(g: Graph, r: set<Name>, a: seq<Name>, x: Name)
    requires AboveFirst(g, r, a) && x in a
    ensures AllAbove(g, r, x, a)
  {
    hide DependsThrough;
    var i :| 0 <= i < |a| && a[i] == x;
  }

  /** If the direct dependents among these services are listed, all that depends through them is. */
  lemma AboveComplete(g: Graph, r: set<Name>, x: Name, a: seq<Name>)
    requires AboveFirst(g, r, a) && forall n :: n in Dependents(g, x) && n in r ==> n in a
    ensures AllAbove(g, r, x, a)
  {
    hide DependsThrough, Dependents, AboveFirst;
    forall d | DependsThrough(g, r, d, x)
      ensures d in a
    {
      var n := LastLink(g, r, d, x);
      AboveMember(g, r, a, n);
    }
  }

  lemma AboveSnoc(g: Graph, r: set<Name>, a: seq<Name>, x: Name)
    requires AboveFirst(g, r, a) && AllAbove(g, r, x, a)
    ensures AboveFirst(g, r, a + [x])
  {
    hide DependsThrough;
    var b := a + [x];
    forall i, d | 0 <= i < |b| && DependsThrough(g, r, d, b[i])
      ensures d in b[..i]
    {
      if i < |a| {
        assert b[i] == a[i] && b[..i] == a[..i];
      } else {
        assert b[..i] == a;
      }
    }
  }

  /** When may services be stopped in the order found: whatever runs, can be reached from the parent through
      active services, and depends on another such service at all, does so through running services. */
  ghost predicate SafeOrder(g: Graph, running: set<Name>, active: set<Name>, parent: Name) {
    forall b, d :: b in running && d in running && Depends(g, d, b)
                   && DependsThrough(g, active, b, parent) && DependsThrough(g, active, d, parent)
                   ==> DependsThrough(g, running, d, b)
  }

  /** Every entry runs and depends on the parent through active services. */
  ghost predicate AllReach(g: Graph, active: set<Name>, a: seq<Name>, parent: Name) {
    forall y :: y in a ==> DependsThrough(g, active, y, parent)
  }

  lemma SafeIsFirst(g: Graph, running: set<Name>, active: set<Name>, parent: Name, a: seq<Name>)
    requires SafeOrder(g, running, active, parent)
    requires NoRepeats(a) && AboveFirst(g, running, a) && AllReach(g, active, a, parent)
    requires forall y :: y in a ==> y in running
    ensures DependentsFirst(g, a)
  {
    hide DependsThrough, Depends;
    forall i, j | 0 <= i < j < |a|
      ensures !Depends(g, a[j], a[i])
    {
      assert a[i] in a && a[j] in a && a[j] !in a[..i];
    }
  }

  /** Starting the parent and then a dependents-first list backwards never starts a service before
      something it depends on among them. */
  lemma RestoreOrderIsSafe(g: Graph, a: seq<Name>, parent: Name, i: nat, j: nat)
    requires Acyclic(g) && DependentsFirst(g, a) && forall x :: x in a ==> Depends(g, x, parent)
    requires i < j < |a| + 1
    ensures !Depends(g, ([parent] + Reverse(a))[i], ([parent] + Reverse(a))[j])
  {
    hide Depends, Reverse;
    var r := [parent] + Reverse(a);
    ReverseAt(a, j - 1);
    assert r[j] == a[|a| - j];
    if i == 0 {
      if Depends(g, parent, a[|a| - j]) {
        DependsTransitive(g, parent, a[|a| - j], parent);
      }
    } else {
      ReverseAt(a, i - 1);
      assert r[i] == a[|a| - i];
    }
  }

  /** What is not stopped has everything it depends on running. */
  predicate Supported(g: Graph, s: States) {
    forall a, b :: DependsDirectly(g, a, b) && a in s && b in s && s[a] != Stopped ==> s[b] == Running
  }

  lemma {:induction false} SupportedChain(g: Graph, s: States, p: seq<Name>, i: nat)
    requires WellFormed(g) && s.Keys == g.deps.Keys && Supported(g, s)
    requires Chain(g, p) && p[0] in s && s[p[0]] == Running && i < |p|
    ensures p[i] in s && s[p[i]] == Running
  {
    if i > 0 {
      SupportedChain(g, s, p, i - 1);
      assert DependsDirectly(g, p[i - 1], p[i - 1 + 1]);
    }
  }

  /** A healthy start is a safe one. */
  lemma SupportedIsSafe(g: Graph, s: States, parent: Name)
    requires WellFormed(g) && s.Keys == g.deps.Keys && Supported(g, s)
    ensures SafeOrder(g, RunningIn(s), ActiveIn(s), parent)
  {
    hide Supported, DependsDirectly, WellFormed;
    var r := RunningIn(s);
    forall b, d | b in r && d in r && Depends(g, d, b)
      ensures DependsThrough(g, r, d, b)
    {
      var p :| Chain(g, p) && p[0] == d && p[|p| - 1] == b;
      forall i | 0 <= i < |p| - 1
        ensures p[i] in r
      {
        SupportedChain(g, s, p, i);
      }
      assert Through(p, r);
    }
  }

  // ---------------------------------------------------------------- the stop phase

  /** Where every service stands since the start: what was stopped is, what ran runs or was asked to stop, only
      what ran was asked to stop, and nothing new runs. */
  predicate Accounts(began: States, s: States, a: seq<Name>) {
    && s.Keys == began.Keys
    && (forall x :: x in a ==> x in s)
    && forall x :: x in s ==>
         && (began[x] == Stopped ==> s[x] == Stopped)
         && (began[x] == Running ==> s[x] == Running || x in a)
         && (x in a ==> began[x] == Running && s[x] != Running)
         && (s[x] == Running ==> began[x] == Running)
  }

  /** What holds at every step of the stop phase, `a` being the stop requests accepted so far. */
  ghost predicate StopInvariant(g: Graph, began: States, s: States, a: seq<Name>) {
    && WellFormed(g) && Acyclic(g) && s.Keys == g.deps.Keys
    && (forall x :: x in s ==> s[x] in {Running, Stopped, StopPending})
    && NoRepeats(a) && Accounts(began, s, a) && AboveFirst(g, RunningIn(began), a)
  }

  /** Pending transitions may complete at any time. */
  predicate Settles(s: States, s': States) {
    && s'.Keys == s.Keys
    && forall x :: x in s ==>
         || s'[x] == s[x]
         || (s[x] == StopPending && s'[x] == Stopped)
         || (s[x] == StartPending && s'[x] in {Running, Stopped})
  }

  lemma SettleAccounts(began: States, s: States, s': States, a: seq<Name>)
    requires Accounts(began, s, a) && Settles(s, s') && forall x :: x in s ==> s[x] in {Running, Stopped, StopPending}
    ensures Accounts(began, s', a) && forall x :: x in s' ==> s'[x] in {Running, Stopped, StopPending}
  {}

  lemma SettleKeeps(g: Graph, began: States, s: States, s': States, a: seq<Name>)
    requires StopInvariant(g, began, s, a) && Settles(s, s')
    ensures StopInvariant(g, began, s', a)
  {
    hide AboveFirst, WellFormed, Acyclic, Accounts, NoRepeats, RunningIn;
    SettleAccounts(began, s, s', a);
  }

  lemma AcceptAccounts(began: States, s: States, a: seq<Name>, x: Name, v: State)
    requires Accounts(began, s, a) && x in s && s[x] == Running && v != Running && NoRepeats(a)
    ensures s[x := v].Keys == s.Keys && Accounts(began, s[x := v], a + [x]) && NoRepeats(a + [x])
  {
    var s', a' := s[x := v], a + [x];
    assert s'.Keys == s.Keys + {x};
    assert forall y :: y in a' <==> y in a || y == x;
  }

  /** Accepting a stop request for a running service keeps the invariant once all that depends on it through
      what ran at the start has been asked to stop. */
  lemma AcceptKeeps(g: Graph, began: States, s: States, a: seq<Name>, x: Name, v: State)
    requires StopInvariant(g, began, s, a) && x in s && s[x] == Running && (v == StopPending || v == Stopped)
    requires AllAbove(g, RunningIn(began), x, a)
    ensures StopInvariant(g, began, s[x := v], a + [x])
  {
    hide AboveFirst, AllAbove, WellFormed, Acyclic, Accounts, NoRepeats, RunningIn;
    AcceptAccounts(began, s, a, x, v);
    AboveSnoc(g, RunningIn(began), a, x);
  }

  // ---------------------------------------------------------------- the start phase

  /** What one stretch of the start phase did: nothing that runs stops, and nothing is paused. */
  predicate Starts(s: States, s': States) {
    && s'.Keys == s.Keys
    && forall x :: x in s ==> (s[x] == Running ==> s'[x] == Running) && (s'[x] == Paused ==> s[x] == Paused)
  }

  function Reverse(a: seq<Name>): (r: seq<Name>)
    ensures |r| == |a|
  {
    if a == [] then [] else Reverse(a[1..]) + [a[0]]
  }

  lemma {:induction false} ReverseAt(a: seq<Name>, i: nat)
    requires i < |a|
    ensures Reverse(a)[i] == a[|a| - 1 - i]
  {
    if i < |a| - 1 {
      ReverseAt(a[1..], i);
    }
  }
}
