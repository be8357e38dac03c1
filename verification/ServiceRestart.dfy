/** Restarting a service under a service manager whose calls may each fail:
    stop what depends on it, restart it, bring back what was stopped. */
module ServiceRestart {
  import opened ServiceGraph
  import opened StopOrder
  import opened Text

  datatype StopAnswer = Accepted | NotActive | CannotAcceptControl | OtherError

  /** What the first query of an attempt saw, if the service could be opened and queried. */
  datatype Seen = Unknown | Saw(state: State)

  /** One attempt to start a service: what it answered, what it saw, and whether it requested the start. */
  datatype Attempt = Attempt(name: Name, ok: bool, seen: Seen, asked: bool)

  /** A wait for a service to reach a state. */
  datatype Wait = Wait(name: Name, expected: State)

  /** What has gone wrong: calls answered with an error, and waits given up, in order. */
  datatype Trouble = Trouble(errors: nat, gaveUp: seq<Wait>)

  function Failed(t: Trouble): Trouble {
    t.(errors := t.errors + 1)
  }

  function Abandoned(t: Trouble, w: Wait): Trouble {
    t.(gaveUp := t.gaveUp + [w])
  }

  predicate Grows(t: Trouble, t': Trouble) {
    t.errors <= t'.errors && t.gaveUp <= t'.gaveUp
  }

  /** An answer, and the trouble before and after it: a false one has something to blame. */
  predicate Blames(t: Trouble, t': Trouble, ok: bool) {
    Grows(t, t') && (!ok ==> t' != t)
  }

  /** A call failed. */
  predicate Erred(t: Trouble, t': Trouble) {
    t.errors < t'.errors
  }

  /** This wait was given up between the two. */
  predicate GaveUp(t: Trouble, t': Trouble, w: Wait) {
    t.gaveUp <= t'.gaveUp && w in t'.gaveUp[|t.gaveUp|..]
  }

  lemma GrowsSame(t: Trouble)
    ensures Grows(t, t) && Blames(t, t, true)
  {}

  lemma Between(t0: Trouble, t1: Trouble, t2: Trouble)
    requires Grows(t0, t1) && Grows(t1, t2)
    ensures t2 == t0 ==> t1 == t0
  {
    if t2 == t0 {
      assert t1.gaveUp == t0.gaveUp;
    }
  }

  lemma BlamesJoin(t0: Trouble, t1: Trouble, t2: Trouble, ok: bool)
    requires Grows(t0, t1) && Blames(t1, t2, ok)
    ensures Grows(t0, t2) && Blames(t0, t2, ok)
  {
    Between(t0, t1, t2);
  }

  lemma BlamesEarlier(t0: Trouble, t1: Trouble, t2: Trouble)
    requires Blames(t0, t1, false) && Grows(t1, t2)
    ensures Blames(t0, t2, false)
  {
    Between(t0, t1, t2);
  }

  lemma BlamesGrows(t: Trouble, t': Trouble, ok: bool)
    requires Blames(t, t', ok)
    ensures Grows(t, t')
  {}

  lemma ErredLater(t0: Trouble, t1: Trouble, t2: Trouble)
    requires Grows(t0, t1)
    ensures Erred(t1, t2) ==> Erred(t0, t2)
  {}

  lemma BlamesTrue(t: Trouble, t': Trouble)
    requires Grows(t, t')
    ensures Blames(t, t', true)
  {}

  lemma GaveUpLater(t0: Trouble, t1: Trouble, t2: Trouble, t3: Trouble, w: Wait)
    requires Grows(t0, t1) && GaveUp(t1, t2, w) && Grows(t2, t3)
    ensures GaveUp(t0, t3, w)
  {
    var i :| |t1.gaveUp| <= i < |t2.gaveUp| && t2.gaveUp[i] == w;
    assert t3.gaveUp[i] == w && t3.gaveUp[|t0.gaveUp|..][i - |t0.gaveUp|] == w;
  }

  /** The service control manager as one caller sees it when nobody else acts: states change only by the
      caller's requests and by pending transitions completing. The ghost fields record what was asked and answered. */
  class Manager {
    const graph: Graph
    var states: States
    ghost var accepted: seq<Name>      // stop requests accepted, in order
    ghost var attempts: seq<Attempt>   // starts attempted, in order, with their answers
    ghost var requests: seq<Name>      // start requests issued, in order
    ghost var trouble: Trouble

    constructor (g: Graph, s: States)
      ensures graph == g && states == s && accepted == [] && attempts == [] && requests == []
      ensures trouble == Trouble(0, [])
    {
      graph, states := g, s;
      accepted, attempts, requests, trouble := [], [], [], Trouble(0, []);
    }

    /** The stop phase that began in these states is under way. */
    ghost predicate Stopping(began: States)
      reads this`states, this`accepted
    {
      StopInvariant(graph, began, states, accepted)
    }

    ghost predicate Known()
      reads this`states
    {
      WellFormed(graph) && states.Keys == graph.deps.Keys
    }

    // -------------------------------------------------------------- what the system does

    /** Time passes: any pending transition may complete. */
    method Settle()
      modifies this`states
      ensures Settles(old(states), states)
    {
      var rest := states.Keys;
      while rest != {}
        invariant rest <= states.Keys && Settles(old(states), states)
        invariant forall x :: x in rest ==> states[x] == old(states)[x]
      {
        var x :| x in rest;
        rest := rest - {x};
        if states[x] == StopPending {
          if * {
            states := states[x := Stopped];
          }
        } else if states[x] == StartPending {
          if * {
            states := states[x := Running];
          } else if * {
            states := states[x := Stopped];
          }
        }
      }
    }

    /** OpenServiceW and OpenSCManagerW. */
    method Open() returns (ok: bool)
      modifies this`trouble
      ensures trouble == if ok then old(trouble) else Failed(old(trouble))
    {
      ok := *;
      if !ok {
        trouble := Failed(trouble);
      }
    }

    /** QueryServiceStatusEx: may fail; otherwise tells the truth. Time has passed since the last call. */
    method Query(x: Name) returns (ok: bool, state: State)
      requires x in states
      modifies this`states, this`trouble
      ensures Settles(old(states), states)
      ensures ok ==> state == states[x]
      ensures trouble == if ok then old(trouble) else Failed(old(trouble))
    {
      Settle();
      ok := Open();
      state := states[x];
    }

    /** ControlService with a stop request. */
    method ControlStop(x: Name) returns (answer: StopAnswer)
      requires x in states
      modifies this`states, this`accepted, this`trouble
      ensures answer == Accepted ==>
                && old(states)[x] in {Running, Paused}
                && (states == old(states)[x := StopPending] || states == old(states)[x := Stopped])
                && accepted == old(accepted) + [x]
      ensures answer != Accepted ==> states == old(states) && accepted == old(accepted)
      ensures answer == NotActive ==> states[x] == Stopped
      ensures trouble == if answer in {Accepted, NotActive} then old(trouble) else Failed(old(trouble))
    {
      var willing: bool := *;
      if states[x] in {Running, Paused} && willing {
        if * {
          states := states[x := Stopped];
        } else {
          states := states[x := StopPending];
        }
        accepted := accepted + [x];
        return Accepted;
      }
      if states[x] == Stopped && willing {
        return NotActive;
      }
      trouble := Failed(trouble);
      if * {
        return CannotAcceptControl;
      }
      answer := OtherError;
    }

    /** StartServiceW: if it succeeds the service is on its way, and stopped services it needs may be too. */
    method ControlStart(x: Name) returns (ok: bool, alreadyRunning: bool)
      requires x in states
      modifies this`states, this`requests, this`trouble
      ensures Starts(old(states), states) && requests == old(requests) + [x]
      ensures alreadyRunning ==> old(states)[x] == Running
      ensures trouble == if ok then old(trouble) else Failed(old(trouble))
    {
      requests := requests + [x];
      var willing: bool := *;
      alreadyRunning := states[x] == Running;
      if !willing || states[x] != Stopped {
        trouble := Failed(trouble);
        return false, alreadyRunning;
      }
      ok := true;
      var rest := states.Keys;
      while rest != {}
        invariant rest <= states.Keys && Starts(old(states), states) && trouble == old(trouble)
        invariant requests == old(requests) + [x]
        invariant forall y :: y in rest ==> states[y] == old(states)[y]
      {
        var y :| y in rest;
        rest := rest - {y};
        if states[y] == Stopped {
          if y == x {
            states := states[y := StartPending];
          } else if * {
            states := states[y := StartPending];
          } else if * {
            states := states[y := Running];
          }
        }
      }
    }

    /** EnumDependentServicesW, retries included: may fail; otherwise lists, in any order and perhaps more than
        once, every active direct dependent and possibly active services that depend on x through active ones. */
    method ActiveDependents(x: Name) returns (ok: bool, names: seq<Name>)
      requires Known()
      modifies this`trouble
      ensures Enumerates(graph, states, x, names)
      ensures trouble == if ok then old(trouble) else Failed(old(trouble))
    {
      hide DependsThrough, DependsDirectly, WellFormed;
      ok := Open();
      names := [];
      var rest := Dependents(graph, x);
      while rest != {}
        invariant rest <= Dependents(graph, x)
        invariant Covers(states, Dependents(graph, x) - rest, names) && Reaches(graph, states, x, names)
        invariant trouble == if ok then old(trouble) else Failed(old(trouble))
      {
        var d :| d in rest;
        var before := rest;
        rest := rest - {d};
        if states[d] != Stopped {
          var k: nat := *;
          ListDirect(graph, states, x, d, names, k);
          names := Inserted(names, k, d);
        }
        CoversMore(graph, states, x, before, d, names);
      }
      var extras: nat := *;
      while extras > 0
        invariant Covers(states, Dependents(graph, x), names) && Reaches(graph, states, x, names)
        invariant trouble == if ok then old(trouble) else Failed(old(trouble))
      {
        extras := extras - 1;
        if names != [] {
          var i: nat := *;
          var from := names[i % |names|];
          if Dependents(graph, from) != {} {
            var y :| y in Dependents(graph, from);
            if states[y] != Stopped {
              var k: nat := *;
              ListIndirect(graph, states, x, from, y, names, k);
              names := Inserted(names, k, y);
            }
          }
        }
      }
    }

    /** waitService, seen from here: it may give up at any time, and a true answer was seen. */
    method WaitService(x: Name, expected: State) returns (ok: bool)
      requires x in states
      modifies this`states, this`trouble
      ensures Settles(old(states), states)
      ensures ok ==> states[x] == expected
      ensures trouble in {old(trouble), Failed(old(trouble)), Abandoned(old(trouble), Wait(x, expected))}
      ensures ok <==> trouble == old(trouble)
    {
      var polls: nat := *;
      while polls > 0
        invariant Settles(old(states), states) && trouble == old(trouble)
      {
        polls := polls - 1;
        var seen, state := Query(x);
        if !seen {
          return false;
        }
        if state == expected {
          return true;
        }
      }
      trouble := Abandoned(trouble, Wait(x, expected));
      ok := false;
    }

    // -------------------------------------------------------------- stopping

    /** stopService: `byThisCall` exactly when this call's own stop request was accepted, and if no call fails that is
        exactly when the service ran. If nothing was pending, success means that a running service was stopped by
        this call and nothing else has changed. */
    method StopService(x: Name, ghost began: States) returns (ok: bool, byThisCall: bool)
      requires Stopping(began) && x in states && AllAbove(graph, RunningIn(began), x, accepted)
      modifies this`states, this`accepted, this`trouble
      ensures Stopping(began)
      ensures accepted == old(accepted) + if byThisCall then [x] else []
      ensures ok ==> states[x] == Stopped
      ensures Blames(old(trouble), trouble, ok) && Awaited(began, accepted, old(trouble), trouble)
      ensures !Erred(old(trouble), trouble) ==> (byThisCall <==> old(states)[x] == Running)
      ensures ok && Tidy(began, old(states), old(accepted)) ==>
                Tidy(began, states, accepted) && (byThisCall <==> old(states)[x] == Running)
    {
      hide StopInvariant, AllAbove, Settles, RunningIn, Tidy, Awaited, GaveUp;
      ghost var s0, t0 := states, trouble;
      StopStates(graph, began, s0, accepted, x);
      byThisCall := false;
      var state;
      ok, state := Query(x);
      SettleKeeps(graph, began, old(states), states, accepted);
      InvariantFacts(graph, began, old(states), accepted);
      InvariantFacts(graph, began, states, accepted);
      TidySettles(began, old(states), states, old(accepted));
      SettlesAt(s0, states, x);
      Unchanged(accepted);
      NothingAwaited(began, accepted, t0, trouble);
      if !ok {
        return;
      }
      if state == Stopped {
        return;
      }
      ghost var s1 := states;
      StopStates(graph, began, s1, accepted, x);
      if state == StopPending {
        TidyIs(began, s1, accepted, x);
        ok := WaitService(x, Stopped);
        SettleKeeps(graph, began, s1, states, accepted);
        OneAwaited(began, accepted, t0, trouble, x);
        return;
      }
      var answer := ControlStop(x);
      NothingAwaited(began, accepted, t0, trouble);
      if answer != Accepted {
        TidyIs(began, s1, accepted, x);
        if answer == NotActive {
          return;
        }
        if answer != CannotAcceptControl {
          return false, false;
        }
        ghost var t1 := trouble;
        ok := StopRefused(x, began);
        BlamesEarlier(t0, t1, trouble);
        AwaitedJoin(began, accepted, accepted, t0, t1, trouble);
        return;
      }
      byThisCall := true;
      ghost var s2 := states;
      NotPaused(graph, began, s1, old(accepted), x);
      AcceptKeeps(graph, began, s1, old(accepted), x, s2[x]);
      ok := WaitService(x, Stopped);
      SettleKeeps(graph, began, s2, states, accepted);
      OneAwaited(began, accepted, t0, trouble, x);
      TidyStops(began, s1, old(accepted), x, s2, states);
    }

    /** The rest of stopService when the service could not accept the request: it may be stopping already. */
    method StopRefused(x: Name, ghost began: States) returns (ok: bool)
      requires Stopping(began) && x in states
      modifies this`states, this`trouble
      ensures Stopping(began) && Grows(old(trouble), trouble) && Awaited(began, accepted, old(trouble), trouble)
      ensures ok ==> states[x] == Stopped
      ensures ok && Tidy(began, old(states), accepted) ==> states == old(states)
    {
      hide StopInvariant, Settles, Tidy, Awaited, GaveUp;
      ghost var t0 := trouble;
      var state;
      ok, state := Query(x);
      ghost var s2 := states;
      NothingAwaited(began, accepted, t0, trouble);
      SettleKeeps(graph, began, old(states), s2, accepted);
      TidySettles(began, old(states), s2, accepted);
      InvariantFacts(graph, began, old(states), accepted);
      InvariantFacts(graph, began, s2, accepted);
      TidyIs(began, s2, accepted, x);
      StopStates(graph, began, s2, accepted, x);
      if !ok {
        return;
      }
      if state == Stopped {
        return;
      }
      if state != StopPending {
        return false;
      }
      ok := WaitService(x, Stopped);
      SettleKeeps(graph, began, s2, states, accepted);
      OneAwaited(began, accepted, t0, trouble, x);
    }

    /** stopActiveDependents: depth first; `path` holds the services whose dependents are being stopped further
        up, and by acyclicity the recursion never meets one of them again. On success everything that depends on x
        through what ran at the start has been asked to stop; and if nothing was pending, the call was a run of
        the recursion on the answers it got. */
    method StopActiveDependents(x: Name, stoppedServices: seq<Name>, ghost path: set<Name>, ghost began: States)
      returns (ok: bool, stopped: seq<Name>, ghost visits: seq<Visit>)
      requires Stopping(began) && x in states
      requires x !in path && path <= graph.deps.Keys && IsBelow(graph, x, path)
      modifies this`states, this`accepted, this`trouble
      ensures Stopping(began) && old(accepted) <= accepted
      ensures stopped == stoppedServices + accepted[|old(accepted)|..]
      ensures NewReach(graph, ActiveIn(began), old(accepted), accepted, x)
      ensures ok ==> AllAbove(graph, RunningIn(began), x, accepted)
      ensures Blames(old(trouble), trouble, ok) && Awaited(began, accepted, old(trouble), trouble)
      ensures ok && Tidy(began, old(states), old(accepted)) ==>
                && Tidy(began, states, accepted) && Run(graph, RunningIn(began), x, visits, old(accepted))
                && accepted == Record(visits, RunningIn(began), old(accepted))
      decreases graph.deps.Keys - path, 1
    {
      hide *;
      ghost var s0, a0, t0, r := states, accepted, trouble, RunningIn(began);
      ghost var tidy := Tidy(began, s0, a0);
      stopped, visits := stoppedServices, [];
      Unchanged(accepted);
      NothingNew(graph, began, a0, stopped, x);
      StoppingFacts(began);
      var names;
      ok, names := ActiveDependents(x);
      ThenCalled(began, accepted, t0, trouble, ok);
      if !ok {
        return;
      }
      NoneYet(graph, began, names, a0);
      for i := 0 to |names|
        invariant Stopping(began) && a0 <= accepted
        invariant Grows(t0, trouble) && Awaited(began, accepted, t0, trouble)
        invariant stopped == stoppedServices + accepted[|a0|..]
        invariant NewReach(graph, ActiveIn(began), a0, accepted, x) && AllTaken(began, names[..i], accepted)
        invariant tidy ==>
                    && Tidy(began, states, accepted) && Names(visits) == names[..i]
                    && Proper(graph, r, visits, a0) && accepted == Record(visits, r, a0)
      {
        ghost var a1, t1 := accepted, trouble;
        EnumeratedAt(graph, began, s0, a0, x, names, i);
        ghost var answer;
        StoppingFacts(began);
        ok, stopped, answer := StopDependent(x, names[i], stopped, path, began);
        StretchJoins(graph, began, a0, a1, accepted, stoppedServices, x);
        Joined(began, a1, accepted, t0, t1, trouble, ok);
        if !ok {
          return;
        }
        StaysTaken(began, a1, accepted, names, i);
        if tidy {
          RunSnoc(graph, r, visits, a0, Visit(names[i], answer));
        }
        NamesTake(visits, Visit(names[i], answer), names, i);
        visits := visits + [Visit(names[i], answer)];
      }
      TakeAll(names);
      BlamesTrue(t0, trouble);
      StoppingFacts(began);
      EnumerationDone(graph, began, s0, a0, states, accepted, x, names);
      if tidy {
        EnumerationAnswers(graph, began, s0, a0, x, names, visits);
      }
    }

    /** One turn of its loop: first what depends on the dependent, then the dependent, recorded only if its
        stop request was accepted, and then even when waiting for it failed. */
    method StopDependent(x: Name, name: Name, stoppedServices: seq<Name>, ghost path: set<Name>, ghost began: States)
      returns (ok: bool, stopped: seq<Name>, ghost answer: seq<Visit>)
      requires Stopping(began) && x in states && name in states && DependsThrough(graph, ActiveIn(began), name, x)
      requires x !in path && path <= graph.deps.Keys && IsBelow(graph, x, path)
      modifies this`states, this`accepted, this`trouble
      ensures Stopping(began) && old(accepted) <= accepted
      ensures stopped == stoppedServices + accepted[|old(accepted)|..]
      ensures NewReach(graph, ActiveIn(began), old(accepted), accepted, x)
      ensures ok ==> (name in began && began[name] == Running ==> name in accepted)
      ensures Blames(old(trouble), trouble, ok) && Awaited(began, accepted, old(trouble), trouble)
      ensures ok && Tidy(began, old(states), old(accepted)) ==>
                && Tidy(began, states, accepted) && Run(graph, RunningIn(began), name, answer, old(accepted))
                && accepted == Taken(name, RunningIn(began), Record(answer, RunningIn(began), old(accepted)))
      decreases graph.deps.Keys - path, 0
    {
      hide *;
      ghost var s0, a0, t0 := states, accepted, trouble;
      stopped, answer := stoppedServices, [];
      Unchanged(accepted);
      NothingNew(graph, began, a0, stopped, x);
      StoppingFacts(began);
      var handle := Open();
      ThenCalled(began, accepted, t0, trouble, handle);
      if !handle {
        return false, stopped, answer;
      }
      FreshOnPath(graph, ActiveIn(began), x, name, path);
      ok, stopped, answer := StopActiveDependents(name, stopped, path + {x}, began);
      ghost var s1, a1, t1 := states, accepted, trouble;
      StoppingFacts(began);
      ReachOn(graph, ActiveIn(began), a0, a1, name, x);
      var byThisCall := false;
      if ok {
        ok, byThisCall := StopService(name, began);
        BlamesGrows(t0, t1, true);
        PrefixOf(a1, accepted, name);
        Joined(began, a1, accepted, t0, t1, trouble, ok);
      } else {
        Unchanged(accepted);
      }
      OneReaches(graph, ActiveIn(began), a1, accepted, name, x);
      StretchJoins(graph, began, a0, a1, accepted, stoppedServices, x);
      StoppingFacts(began);
      Accounted(graph, began, states, accepted, name);
      TidyTaken(began, s1, a1, name);
      if byThisCall {
        stopped := stopped + [name];
      }
    }

    /** What is known while services are being stopped. */
    lemma StoppingFacts(began: States)
      requires Stopping(began)
      ensures StopInvariant(graph, began, states, accepted)
      ensures Known() && states.Keys == graph.deps.Keys && Acyclic(graph) && WellFormed(graph)
    {
      InvariantFacts(graph, began, states, accepted);
    }

    // -------------------------------------------------------------- starting

    /** startService, logged with what it saw and whether it requested the start: one request when the service was
        seen stopped, or seen stopping and then stopped; none when it was seen running, starting or paused. */
    method StartService(x: Name) returns (ok: bool, ghost t: Attempt)
      requires x in states
      modifies this`states, this`attempts, this`requests, this`trouble
      ensures Starts(old(states), states) && x in states && (ok ==> states[x] == Running)
      ensures t.name == x && t.ok == ok && attempts == old(attempts) + [t]
      ensures requests == old(requests) + Asked([t])
      ensures Grows(old(trouble), trouble) && Explained(t, old(trouble), trouble) && SeenIn(old(states), t)
    {
      hide Explained, SeenIn, Asked;
      ghost var seen, asked;
      ok, seen, asked := Started(x);
      t := Attempt(x, ok, seen, asked);
      AskedOne(t);
      attempts := attempts + [t];
    }

    method Started(x: Name) returns (ok: bool, ghost seen: Seen, ghost asked: bool)
      requires x in states
      modifies this`states, this`requests, this`trouble
      ensures Starts(old(states), states)
      ensures requests == old(requests) + if asked then [x] else []
      ensures Explained(Attempt(x, ok, seen, asked), old(trouble), trouble)
      ensures SeenIn(old(states), Attempt(x, ok, seen, asked))
      ensures ok ==> states[x] == Running
      ensures Grows(old(trouble), trouble)
    {
      hide Starts, Settles;
      seen, asked := Unknown, false;
      ghost var s0 := states;
      var state;
      ok, state := Query(x);
      ghost var s1 := states;
      SettleStarts(s0, s0, s1);
      SettleSees(s0, s1, x);
      if !ok {
        return;
      }
      seen := Saw(state);
      if state == Running {
        return;
      }
      if state == StartPending {
        ok := WaitService(x, Running);
        SettleStarts(s0, s1, states);
        return;
      }
      if state == StopPending {
        ok := WaitService(x, Stopped);
        SettleStarts(s0, s1, states);
        if !ok {
          return;
        }
      } else if state != Stopped {
        return false, seen, asked;
      }
      ghost var s2 := states;
      var started, alreadyRunning := ControlStart(x);
      asked := true;
      ghost var s3 := states;
      StartsJoin(s0, s2, s3);
      if !started && !alreadyRunning {
        return false, seen, asked;
      }
      ok := WaitService(x, Running);
      SettleStarts(s0, s3, states);
    }

    /** restoreServices: the recorded list backwards, each one attempted whatever happened to the others; the
        answer is whether every attempt's was true. */
    method RestoreServices(stopped: seq<Name>) returns (ok: bool, ghost tries: seq<Attempt>)
      requires forall y :: y in stopped ==> y in states && states[y] != Paused
      modifies this`states, this`attempts, this`requests, this`trouble
      ensures Starts(old(states), states) && attempts == old(attempts) + tries && Tried(tries) == Reverse(stopped)
      ensures ok <==> AllOk(tries)
      ensures AllTrue(states, tries) && NonePaused(tries)
      ensures requests == old(requests) + Asked(tries) && AllExplained(tries, old(trouble), trouble)
      ensures Blames(old(trouble), trouble, ok)
    {
      hide Starts, Reverse, Tried, AllOk, AllTrue, NonePaused, Asked, AllExplained, Explained, Blames, Grows, SeenIn;
      ok, tries := true, [];
      ghost var s0, r0, t0 := states, requests, trouble;
      NothingTried(s0, attempts, r0, t0);
      for i := |stopped| downto 0
        invariant Starts(s0, states) && attempts == old(attempts) + tries
        invariant Tried(tries) == Reverse(stopped[i..]) && (ok <==> AllOk(tries)) && AllTrue(states, tries)
        invariant NonePaused(tries) && requests == r0 + Asked(tries)
        invariant AllExplained(tries, t0, trouble) && Blames(t0, trouble, ok) && Grows(t0, trouble)
      {
        var name := stopped[i];
        ghost var s1, t1 := states, trouble;
        assert name in stopped;
        StillThere(s0, s1, name);
        var started := Open();
        ghost var t := Attempt(name, false, Unknown, false);
        if started {
          started, t := StartService(name);
        } else {
          attempts := attempts + [t];
          OpenFailed(s1, t, t1, trouble, requests);
        }
        SeesNoPause(s1, t);
        OneMoreTry(s0, s1, states, tries, t, stopped, i);
        OneMoreExplained(tries, t, t0, t1, trouble, ok);
        OneMoreAsked(tries, t);
        Assoc(r0, Asked(tries), Asked([t]));
        Assoc(old(attempts), tries, [t]);
        tries := tries + [t];
        ok := started && ok;
      }
      assert stopped[0..] == stopped;
    }

    /** Before the restart: no cycles, and nothing is starting or paused. */
    ghost predicate Quiet()
      reads this
    {
      && Known() && Acyclic(graph) && accepted == [] && attempts == [] && requests == []
      && forall x :: x in states ==> states[x] in {Running, Stopped, StopPending}
    }

    /** restartTermService, nothing else acting. Whatever fails: the recorded list is, in order, exactly the stop
        requests this call got accepted on dependents, without repetition, all of them running before and all
        depending on the parent; before every service on it stands all that depends on that service through what
        ran; what was not asked to stop keeps running; the parent and then that list backwards are attempted, and
        a start that answers true has its service running. What each attempt saw decides whether it requests the start;
        if no call fails, a start is not requested only of a service seen running or starting, or one whose stop was
        waited for in vain. If all starts attempted answer true, every service that ran is running. If nothing goes
        wrong, the restart succeeds, the parent's start having been requested, and if nothing was pending the list is
        that of a run of the recursion on truthful answers. In a safe start dependents come first in the list, and no
        start is attempted before that of something it depends on. */
    method RestartTermService(term: Name) returns (ok: bool, ghost recorded: seq<Name>)
      requires Quiet() && term in states
      modifies this`states, this`accepted, this`attempts, this`requests, this`trouble
      ensures states.Keys == old(states).Keys
      ensures (accepted == recorded || accepted == recorded + [term]) && NoRepeats(accepted)
      ensures AboveFirst(graph, RunningIn(old(states)), accepted)
              && AllReach(graph, ActiveIn(old(states)), recorded, term)
      ensures forall y :: y in recorded ==> Depends(graph, y, term) && y in old(states) && old(states)[y] == Running
      ensures attempts == [] || Tried(attempts) == [term] + Reverse(recorded)
      ensures attempts == [] ==> recorded == [] && states == old(states) && Erred(old(trouble), trouble)
      ensures AllTrue(states, attempts)
      ensures forall y :: y in old(states) && old(states)[y] == Running && y !in accepted ==> states[y] == Running
      ensures attempts != [] && AllOk(attempts) ==>
                forall y :: y in old(states) && old(states)[y] == Running ==> states[y] == Running
      ensures ok ==> attempts != [] && AllOk(attempts)
      ensures Blames(old(trouble), trouble, ok)
      ensures requests == Asked(attempts) && NonePaused(attempts) && AllExplained(attempts, old(trouble), trouble)
      ensures !Erred(old(trouble), trouble) ==>
                forall t :: t in attempts && !t.asked ==>
                  t.seen in {Saw(Running), Saw(StartPending)} || GaveUp(old(trouble), trouble, Wait(t.name, Stopped))
      ensures trouble == old(trouble) ==> attempts != [] && attempts[0].name == term && attempts[0].asked
      ensures SafeOrder(graph, RunningIn(old(states)), ActiveIn(old(states)), term) ==>
                DependentsFirst(graph, recorded) && NeededFirst(graph, Tried(attempts))
      ensures trouble == old(trouble) && ActiveIn(old(states)) == RunningIn(old(states)) ==>
                exists vs :: Run(graph, RunningIn(old(states)), term, vs, [])
                             && recorded == Record(vs, RunningIn(old(states)), [])
    {
      hide StopInvariant, Depends, DependsThrough, NoRepeats, DependentsFirst, AboveFirst, AllReach, Reverse, Starts,
        Quiet, SafeOrder, Tried, AllOk, AllTrue, NeededFirst, RunningIn, ActiveIn, Run, Record, Blames, Awaited,
        AllExplained, Explained, NonePaused, Asked, SeenIn, GaveUp;
      recorded := [];
      ghost var s0, t0 := states, trouble;
      QuietStart();
      var handle := Open();
      OpenBlames(t0, trouble, handle);
      if !handle {
        return false, recorded;
      }
      handle := Open();
      OpenBlames(t0, trouble, handle);
      if !handle {
        return false, recorded;
      }
      var dependentsStopped, termStopped, stopped := StopPhase(term);
      recorded := stopped;
      ghost var s2, t1 := states, trouble;
      var termStarted, dependentsRestored := StartPhase(term, stopped);
      ok := dependentsStopped && termStopped && termStarted && dependentsRestored;
      InAll(attempts, s2, term, t0, t1, trouble, dependentsStopped && termStopped, termStarted && dependentsRestored);
      if AllOk(attempts) {
        EverythingBack(s0, s2, states, recorded, term, accepted, attempts);
      }
      RunsOn(s0, s2, states, accepted);
      if SafeOrder(graph, RunningIn(s0), ActiveIn(s0), term) {
        SafeRestart(graph, s0, term, recorded, attempts);
      }
    }

    lemma QuietStart()
      requires Quiet()
      ensures Stopping(states) && accepted == [] && attempts == [] && requests == [] && Acyclic(graph)
      ensures NoRepeats([]) && AboveFirst(graph, RunningIn(states), [])
      ensures Tried([]) == [] && AllTrue(states, [])
      ensures forall x :: AllReach(graph, ActiveIn(states), [], x)
      ensures DependentsFirst(graph, []) && NeededFirst(graph, [])
      ensures Asked([]) == [] && NonePaused([]) && forall t, t' :: AllExplained([], t, t')
    {
      hide Depends, DependsThrough;
    }

    /** The dependents, and if all of them stopped the parent. If nothing was pending and nothing fails, what is
        recorded is a run of the recursion on the answers the enumerations gave. */
    method StopPhase(term: Name) returns (dependentsStopped: bool, termStopped: bool, stopped: seq<Name>)
      requires Stopping(states) && term in states && accepted == []
      modifies this`states, this`accepted, this`trouble
      ensures states.Keys == old(states).Keys && Accounts(old(states), states, accepted)
      ensures (accepted == stopped || accepted == stopped + [term]) && NoRepeats(accepted)
      ensures AboveFirst(graph, RunningIn(old(states)), accepted) && AboveFirst(graph, RunningIn(old(states)), stopped)
      ensures NoRepeats(stopped) && AllReach(graph, ActiveIn(old(states)), stopped, term)
      ensures forall y :: y in stopped ==> Depends(graph, y, term) && y in old(states) && old(states)[y] == Running
      ensures forall y :: y in states ==> states[y] != Paused
      ensures termStopped ==> states[term] == Stopped
      ensures Blames(old(trouble), trouble, dependentsStopped && termStopped)
      ensures Awaited(old(states), accepted, old(trouble), trouble)
      ensures dependentsStopped && !Erred(old(trouble), trouble) ==>
                accepted == stopped + if old(states)[term] == Running then [term] else []
      ensures dependentsStopped && ActiveIn(old(states)) == RunningIn(old(states)) ==>
                exists vs :: Run(graph, RunningIn(old(states)), term, vs, [])
                             && stopped == Record(vs, RunningIn(old(states)), [])
    {
      hide StopInvariant, Depends, DependsThrough, NoRepeats, AboveFirst, AllReach, Accounts, Run, Record, RunningIn,
        ActiveIn, Tidy, NewReach, AllAbove, Stopping, Blames, Awaited, Grows, Erred;
      ghost var s0, t0 := states, trouble;
      ghost var visits;
      EmptyPath(graph, term);
      StoppingFacts(s0);
      dependentsStopped, stopped, visits := StopActiveDependents(term, [], {}, s0);
      ghost var s1, a1, t1 := states, accepted, trouble;
      StoppingFacts(s0);
      WholeSuffix(a1);
      StopFacts(graph, s0, s1, a1, term);
      TidyStart(graph, s0);
      termStopped := false;
      if dependentsStopped {
        var byThisCall;
        termStopped, byThisCall := StopService(term, s0);
        WholeSuffix(a1);
        BlamesGrows(t0, t1, true);
        PrefixOf(a1, accepted, term);
        Joined(s0, a1, accepted, t0, t1, trouble, termStopped);
        ErredLater(t0, t1, trouble);
        NotItself(graph, s0, s1, a1, term);
      }
      StoppingFacts(s0);
      InvariantParts(graph, s0, states, accepted);
    }

    /** The parent always, then the recorded dependents whatever became of it. */
    method StartPhase(term: Name, stopped: seq<Name>) returns (termStarted: bool, dependentsRestored: bool)
      requires term in states && attempts == [] && forall y :: y in stopped ==> y in states
      requires forall y :: y in states ==> states[y] != Paused
      modifies this`states, this`attempts, this`requests, this`trouble
      ensures Starts(old(states), states) && Tried(attempts) == [term] + Reverse(stopped)
      ensures termStarted && dependentsRestored <==> AllOk(attempts)
      ensures AllTrue(states, attempts) && NonePaused(attempts)
      ensures requests == old(requests) + Asked(attempts) && AllExplained(attempts, old(trouble), trouble)
      ensures Blames(old(trouble), trouble, termStarted && dependentsRestored)
      ensures attempts != [] && SeenIn(old(states), attempts[0])
    {
      hide Reverse, Tried, AllOk, AllTrue, Asked, NonePaused, AllExplained, Explained, Blames, Grows, SeenIn;
      ghost var s0, r0, t0 := states, requests, trouble;
      ghost var first;
      termStarted, first := StartService(term);
      ghost var s1, t1 := states, trouble;
      NilConcat([first]);
      SeesNoPause(s0, first);
      ghost var tries;
      dependentsRestored, tries := RestoreServices(stopped);
      TriedCons(first, tries);
      AllOkCons(first, tries);
      AskedCons(first, tries);
      Assoc(r0, Asked([first]), Asked(tries));
      ExplainedCons(first, tries, t0, t1, trouble, dependentsRestored);
      TriesJoin(s0, s1, states, first, tries);
    }
  }

  // ---------------------------------------------------------------- the log of starts

  /** What was seen is the state the service was in, or had just come to. */
  predicate SeenIn(s: States, t: Attempt) {
    t.seen.Saw? ==> && t.name in s
                    && (t.seen.state == s[t.name] || (s[t.name] == StopPending && t.seen.state == Stopped)
                        || (s[t.name] == StartPending && t.seen.state in {Running, Stopped}))
  }

  /** What an attempt did follows from what it saw, and a false answer from a call that failed or a wait given up,
      except that a paused service is refused. */
  predicate Explained(t: Attempt, t0: Trouble, t1: Trouble) {
    match t.seen
    case Unknown => !t.ok && !t.asked && Erred(t0, t1)
    case Saw(Running) => t.ok && !t.asked
    case Saw(Paused) => !t.ok && !t.asked
    case Saw(StartPending) => !t.asked && (t.ok || Erred(t0, t1) || GaveUp(t0, t1, Wait(t.name, Running)))
    case Saw(Stopped) => t.asked && (t.ok || Erred(t0, t1) || GaveUp(t0, t1, Wait(t.name, Running)))
    case Saw(StopPending) =>
      || (t.asked && (t.ok || Erred(t0, t1) || GaveUp(t0, t1, Wait(t.name, Running))))
      || (!t.asked && !t.ok && (Erred(t0, t1) || GaveUp(t0, t1, Wait(t.name, Stopped))))
  }

  predicate AllExplained(ts: seq<Attempt>, t0: Trouble, t1: Trouble) {
    forall i :: 0 <= i < |ts| ==> Explained(ts[i], t0, t1)
  }

  /** The services of the attempts that requested a start, in order. */
  function Asked(ts: seq<Attempt>): seq<Name> {
    if ts == [] then [] else Asked(ts[..|ts| - 1]) + if ts[|ts| - 1].asked then [ts[|ts| - 1].name] else []
  }

  function Tried(ts: seq<Attempt>): (r: seq<Name>)
    ensures |r| == |ts| && forall i :: 0 <= i < |r| ==> r[i] == ts[i].name
  {
    seq(|ts|, i requires 0 <= i < |ts| => ts[i].name)
  }

  predicate AllOk(ts: seq<Attempt>) {
    forall i :: 0 <= i < |ts| ==> ts[i].ok
  }

  /** Every start that answered true has its service running. */
  predicate AllTrue(s: States, ts: seq<Attempt>) {
    forall i :: 0 <= i < |ts| && ts[i].ok ==> ts[i].name in s && s[ts[i].name] == Running
  }

  /** No name stands before one it depends on. */
  ghost predicate NeededFirst(g: Graph, names: seq<Name>) {
    forall i, j :: 0 <= i < j < |names| ==> !Depends(g, names[i], names[j])
  }

  /** No attempt met a paused service. */
  predicate NonePaused(ts: seq<Attempt>) {
    forall i :: 0 <= i < |ts| ==> ts[i].seen != Saw(Paused)
  }

  lemma NothingTried(s: States, a: seq<Attempt>, r: seq<Name>, t: Trouble)
    ensures Starts(s, s) && Tried([]) == Reverse([]) && AllOk([]) && AllTrue(s, []) && a + [] == a
    ensures NonePaused([]) && r + Asked([]) == r && AllExplained([], t, t) && Blames(t, t, true) && Grows(t, t)
  {}

  lemma OpenFailed(s: States, t: Attempt, t0: Trouble, t1: Trouble, r: seq<Name>)
    requires t.seen == Unknown && !t.ok && !t.asked && t1 == Failed(t0)
    ensures Starts(s, s) && SeenIn(s, t) && Explained(t, t0, t1) && Grows(t0, t1) && r + Asked([t]) == r
  {}

  lemma SeesNoPause(s: States, t: Attempt)
    requires t.name in s && s[t.name] != Paused && SeenIn(s, t)
    ensures t.seen != Saw(Paused)
  {}

  lemma AskedOne(t: Attempt)
    ensures Asked([t]) == if t.asked then [t.name] else []
  {
    assert [t][..0] == [];
  }

  lemma OneMoreAsked(ts: seq<Attempt>, t: Attempt)
    ensures Asked(ts + [t]) == Asked(ts) + Asked([t])
  {
    var all := ts + [t];
    assert all[..|all| - 1] == ts && all[|all| - 1] == t;
    AskedOne(t);
  }

  lemma {:induction false} AskedCons(t: Attempt, ts: seq<Attempt>)
    ensures Asked([t] + ts) == Asked([t]) + Asked(ts)
  {
    hide Asked;
    if ts == [] {
      assert [t] + ts == [t] && Asked([]) == [] by { AskedNone(); }
    } else {
      var front, last := ts[..|ts| - 1], ts[|ts| - 1];
      assert ts == front + [last] && [t] + ts == ([t] + front) + [last];
      AskedCons(t, front);
      OneMoreAsked(front, last);
      OneMoreAsked([t] + front, last);
    }
  }

  lemma AskedNone()
    ensures Asked([]) == []
  {}

  /** What went wrong stays on record. */
  lemma ExplainedLater(t: Attempt, t0: Trouble, t1: Trouble, t2: Trouble, t3: Trouble)
    requires Grows(t0, t1) && Explained(t, t1, t2) && Grows(t2, t3)
    ensures Explained(t, t0, t3)
  {
    hide GaveUp;
    if GaveUp(t1, t2, Wait(t.name, Running)) {
      GaveUpLater(t0, t1, t2, t3, Wait(t.name, Running));
    }
    if GaveUp(t1, t2, Wait(t.name, Stopped)) {
      GaveUpLater(t0, t1, t2, t3, Wait(t.name, Stopped));
    }
  }

  lemma ExplainedBlames(t: Attempt, t0: Trouble, t1: Trouble)
    requires Explained(t, t0, t1) && Grows(t0, t1) && t.seen != Saw(Paused)
    ensures Blames(t0, t1, t.ok)
  {}

  lemma OneMoreExplained(ts: seq<Attempt>, t: Attempt, t0: Trouble, t1: Trouble, t2: Trouble, ok: bool)
    requires AllExplained(ts, t0, t1) && NonePaused(ts) && Blames(t0, t1, ok)
    requires Explained(t, t1, t2) && t.seen != Saw(Paused) && Grows(t1, t2)
    ensures AllExplained(ts + [t], t0, t2) && NonePaused(ts + [t]) && Blames(t0, t2, t.ok && ok) && Grows(t0, t2)
  {
    hide Explained;
    var all := ts + [t];
    GrowsSame(t0);
    GrowsSame(t2);
    ExplainedBlames(t, t1, t2);
    BlamesJoin(t0, t1, t2, t.ok);
    if !ok {
      BlamesEarlier(t0, t1, t2);
    }
    forall i | 0 <= i < |all|
      ensures Explained(all[i], t0, t2) && all[i].seen != Saw(Paused)
    {
      if i < |ts| {
        assert all[i] == ts[i];
        ExplainedLater(ts[i], t0, t0, t1, t2);
      } else {
        ExplainedLater(t, t0, t1, t2, t2);
      }
    }
  }

  lemma ExplainedCons(t: Attempt, ts: seq<Attempt>, t0: Trouble, t1: Trouble, t2: Trouble, ok: bool)
    requires Explained(t, t0, t1) && t.seen != Saw(Paused) && Grows(t0, t1)
    requires AllExplained(ts, t1, t2) && NonePaused(ts) && Blames(t1, t2, ok)
    ensures AllExplained([t] + ts, t0, t2) && NonePaused([t] + ts) && Blames(t0, t2, t.ok && ok)
  {
    hide Explained;
    var all := [t] + ts;
    GrowsSame(t0);
    GrowsSame(t2);
    ExplainedBlames(t, t0, t1);
    BlamesJoin(t0, t1, t2, ok);
    if !t.ok {
      BlamesEarlier(t0, t1, t2);
    }
    forall i | 0 <= i < |all|
      ensures Explained(all[i], t0, t2) && all[i].seen != Saw(Paused)
    {
      if i == 0 {
        ExplainedLater(t, t0, t0, t1, t2);
      } else {
        assert all[i] == ts[i - 1];
        ExplainedLater(ts[i - 1], t0, t1, t2, t2);
      }
    }
  }

  lemma SettleStarts(s0: States, s1: States, s2: States)
    requires (s0 == s1 || Starts(s0, s1)) && Settles(s1, s2)
    ensures Starts(s0, s2) && s2.Keys == s0.Keys
  {}

  lemma StartsJoin(s0: States, s1: States, s2: States)
    requires Starts(s0, s1) && Starts(s1, s2)
    ensures Starts(s0, s2) && s2.Keys == s0.Keys
  {}

  lemma SettleSees(s: States, s': States, x: Name)
    requires Settles(s, s') && x in s
    ensures x in s' && forall ok, asked :: SeenIn(s, Attempt(x, ok, Saw(s'[x]), asked))
  {}

  lemma StillThere(s: States, s': States, x: Name)
    requires Starts(s, s') && x in s && s[x] != Paused
    ensures x in s' && s'[x] != Paused
  {}

  lemma OneMoreTry(s0: States, s1: States, s2: States, ts: seq<Attempt>, t: Attempt, stopped: seq<Name>, i: nat)
    requires Starts(s0, s1) && Starts(s1, s2) && i < |stopped| && t.name == stopped[i] && t.name in s1
    requires Tried(ts) == Reverse(stopped[i + 1..]) && AllTrue(s1, ts)
             && (t.ok ==> t.name in s2 && s2[t.name] == Running)
    ensures Starts(s0, s2) && Tried(ts + [t]) == Reverse(stopped[i..]) && AllTrue(s2, ts + [t])
    ensures AllOk(ts + [t]) <==> AllOk(ts) && t.ok
  {
    var all := ts + [t];
    assert stopped[i..][1..] == stopped[i + 1..];
    assert forall k :: 0 <= k < |ts| ==> all[k] == ts[k];
    assert all[|ts|] == t;
    assert Tried(all) == Tried(ts) + [t.name];
  }

  lemma TriedCons(t: Attempt, ts: seq<Attempt>)
    ensures Tried([t] + ts) == [t.name] + Tried(ts)
  {
    hide Tried;
    var all, names := [t] + ts, [t.name] + Tried(ts);
    forall k | 0 <= k < |all|
      ensures Tried(all)[k] == names[k]
    {
      if k > 0 {
        assert all[k] == ts[k - 1];
      }
    }
  }

  lemma AllOkCons(t: Attempt, ts: seq<Attempt>)
    ensures AllOk([t] + ts) <==> t.ok && AllOk(ts)
  {
    var all := [t] + ts;
    assert all[0] == t && forall k :: 0 <= k < |ts| ==> all[k + 1] == ts[k];
  }

  lemma TriesJoin(s0: States, s1: States, s2: States, t: Attempt, ts: seq<Attempt>)
    requires Starts(s0, s1) && Starts(s1, s2) && AllTrue(s2, ts) && (t.ok ==> t.name in s1 && s1[t.name] == Running)
    ensures Starts(s0, s2) && AllTrue(s2, [t] + ts)
  {
    var all := [t] + ts;
    assert all[0] == t && forall k :: 0 <= k < |ts| ==> all[k + 1] == ts[k];
  }

  // ---------------------------------------------------------------- enumerations

  function Inserted(names: seq<Name>, k: nat, x: Name): (r: seq<Name>)
    ensures forall n :: n in r <==> n in names || n == x
  {
    var at := k % (|names| + 1);
    var r := names[..at] + [x] + names[at..];
    assert names == names[..at] + names[at..];
    assert forall n :: n in names <==> n in names[..at] || n in names[at..];
    r
  }

  /** Every one of these services that is active is named. */
  predicate Covers(s: States, of: set<Name>, names: seq<Name>) {
    forall d :: d in of && d in s && s[d] != Stopped ==> d in names
  }

  /** Every name is an active service that depends on x through active ones. */
  ghost predicate Reaches(g: Graph, s: States, x: Name, names: seq<Name>) {
    forall n :: n in names ==> n in s && s[n] != Stopped && DependsThrough(g, ActiveIn(s), n, x)
  }

  /** What an enumeration answers. */
  ghost predicate Enumerates(g: Graph, s: States, x: Name, names: seq<Name>) {
    Covers(s, Dependents(g, x), names) && Reaches(g, s, x, names)
  }

  lemma ListDirect(g: Graph, s: States, x: Name, d: Name, names: seq<Name>, k: nat)
    requires d in Dependents(g, x) && d in s && s[d] != Stopped && Reaches(g, s, x, names)
    ensures Reaches(g, s, x, Inserted(names, k, d))
  {
    hide DependsThrough, Inserted;
    DirectThrough(g, ActiveIn(s), d, x);
  }

  lemma ListIndirect(g: Graph, s: States, x: Name, from: Name, y: Name, names: seq<Name>, k: nat)
    requires from in names && y in Dependents(g, from) && y in s && s[y] != Stopped && Reaches(g, s, x, names)
    requires Covers(s, Dependents(g, x), names)
    ensures Reaches(g, s, x, Inserted(names, k, y)) && Covers(s, Dependents(g, x), Inserted(names, k, y))
  {
    hide DependsThrough, Inserted, Dependents;
    assert DependsDirectly(g, y, from) by { DependentIs(g, y, from); }
    DirectThrough(g, ActiveIn(s), y, from);
    ThroughTransitive(g, ActiveIn(s), y, from, x);
  }

  lemma DependentIs(g: Graph, y: Name, x: Name)
    requires y in Dependents(g, x)
    ensures DependsDirectly(g, y, x)
  {}

  lemma CoversMore(g: Graph, s: States, x: Name, before: set<Name>, d: Name, names: seq<Name>)
    requires d in before && before <= Dependents(g, x)
    requires Covers(s, Dependents(g, x) - before, names) && (d in s && s[d] != Stopped ==> d in names)
    ensures Covers(s, Dependents(g, x) - (before - {d}), names)
  {
    hide Dependents;
  }

  // ---------------------------------------------------------------- lemmas for the stop phase

  /** Nothing is pending: what ran and was not asked to stop runs, and the rest is stopped. */
  predicate Tidy(began: States, s: States, a: seq<Name>) {
    && s.Keys == began.Keys
    && forall x :: x in s ==> s[x] == if began[x] == Running && x !in a then Running else Stopped
  }

  /** Every one of these that ran at the start has been asked to stop. */
  predicate AllTaken(began: States, names: seq<Name>, a: seq<Name>) {
    forall n :: n in names && n in began && began[n] == Running ==> n in a
  }

  lemma InvariantFacts(g: Graph, began: States, s: States, a: seq<Name>)
    requires StopInvariant(g, began, s, a)
    ensures WellFormed(g) && s.Keys == g.deps.Keys && Acyclic(g)
  {}

  lemma InvariantParts(g: Graph, began: States, s: States, a: seq<Name>)
    requires StopInvariant(g, began, s, a)
    ensures s.Keys == began.Keys && Accounts(began, s, a) && NoRepeats(a) && AboveFirst(g, RunningIn(began), a)
    ensures forall y :: y in s ==> s[y] != Paused
  {
    hide AboveFirst;
  }

  /** Every wait given up between the two was for the stop of a service that was asked to stop, or that was already
      on its way somewhere when the stop phase began. */
  ghost predicate Awaited(began: States, a: seq<Name>, t: Trouble, t': Trouble) {
    forall w :: GaveUp(t, t', w) ==>
      w.expected == Stopped && (w.name in a || (w.name in began && began[w.name] !in {Running, Stopped}))
  }

  lemma NothingAwaited(began: States, a: seq<Name>, t: Trouble, t': Trouble)
    ensures t'.gaveUp == t.gaveUp ==> Awaited(began, a, t, t')
  {}

  lemma ThenCalled(began: States, a: seq<Name>, t: Trouble, t': Trouble, ok: bool)
    requires t' == if ok then t else Failed(t)
    ensures Blames(t, t', ok) && Grows(t, t') && Awaited(began, a, t, t')
  {}

  lemma Joined(began: States, a1: seq<Name>, a2: seq<Name>, t0: Trouble, t1: Trouble, t2: Trouble, ok: bool)
    requires a1 <= a2 && Grows(t0, t1) && Awaited(began, a1, t0, t1)
    requires Blames(t1, t2, ok) && Awaited(began, a2, t1, t2)
    ensures Grows(t0, t2) && Blames(t0, t2, ok) && Awaited(began, a2, t0, t2)
  {
    hide Awaited, GaveUp;
    BlamesJoin(t0, t1, t2, ok);
    AwaitedJoin(began, a1, a2, t0, t1, t2);
  }

  lemma PrefixOf(a: seq<Name>, b: seq<Name>, x: Name)
    requires b == a + [x] || b == a + []
    ensures a <= b
  {}

  lemma OneAwaited(began: States, a: seq<Name>, t: Trouble, t': Trouble, x: Name)
    requires x in a || (x in began && began[x] !in {Running, Stopped})
    ensures t'.gaveUp in {t.gaveUp, t.gaveUp + [Wait(x, Stopped)]} ==> Awaited(began, a, t, t')
  {}

  lemma AwaitedJoin(began: States, a1: seq<Name>, a2: seq<Name>, t0: Trouble, t1: Trouble, t2: Trouble)
    requires a1 <= a2 && Grows(t0, t1) && Grows(t1, t2)
    requires Awaited(began, a1, t0, t1) && Awaited(began, a2, t1, t2)
    ensures Awaited(began, a2, t0, t2)
  {
    forall w | GaveUp(t0, t2, w)
      ensures w.expected == Stopped && (w.name in a2 || (w.name in began && began[w.name] !in {Running, Stopped}))
    {
      assert t2.gaveUp[|t0.gaveUp|..] == t1.gaveUp[|t0.gaveUp|..] + t2.gaveUp[|t1.gaveUp|..];
      assert GaveUp(t0, t1, w) || GaveUp(t1, t2, w);
    }
  }

  /** A service that is neither running nor stopped in the stop phase was asked to, or was on its way before. */
  lemma StopStates(g: Graph, began: States, s: States, a: seq<Name>, x: Name)
    requires StopInvariant(g, began, s, a) && x in s
    ensures s[x] in {Running, Stopped, StopPending}
    ensures s[x] == StopPending ==> x in a || (x in began && began[x] !in {Running, Stopped})
  {
    hide AboveFirst, Acyclic, NoRepeats;
  }

  lemma SettlesAt(s: States, s': States, x: Name)
    requires Settles(s, s') && x in s
    ensures x in s' && (s[x] in {Running, Stopped, Paused} ==> s'[x] == s[x])
    ensures s'[x] == Running ==> s[x] in {Running, StartPending}
  {}

  lemma Unchanged(a: seq<Name>)
    ensures a[|a|..] == [] && a == a + []
  {}

  lemma NothingNew(g: Graph, began: States, a: seq<Name>, stopped: seq<Name>, x: Name)
    ensures stopped == stopped + a[|a|..] && NewReach(g, ActiveIn(began), a, a, x)
  {
    hide DependsThrough;
  }

  lemma TidySettles(began: States, s: States, s': States, a: seq<Name>)
    requires Settles(s, s')
    ensures Tidy(began, s, a) ==> s' == s
  {}

  lemma TidyIs(began: States, s: States, a: seq<Name>, x: Name)
    ensures Tidy(began, s, a) && x in s ==> s[x] in {Running, Stopped}
  {}

  lemma NotPaused(g: Graph, began: States, s: States, a: seq<Name>, x: Name)
    requires StopInvariant(g, began, s, a) && x in s && s[x] in {Running, Paused}
    ensures s[x] == Running
  {}

  lemma TidyStops(began: States, s1: States, a: seq<Name>, x: Name, s2: States, s3: States)
    requires x in s1 && (s2 == s1[x := StopPending] || s2 == s1[x := Stopped]) && Settles(s2, s3)
    ensures Tidy(began, s1, a) && s1[x] == Running && x in s3 && s3[x] == Stopped ==> Tidy(began, s3, a + [x])
  {
    assert s2.Keys == s1.Keys + {x};
    assert forall y :: y in a + [x] <==> y in a || y == x;
  }

  lemma NoneYet(g: Graph, began: States, names: seq<Name>, a: seq<Name>)
    ensures AllTaken(began, names[..0], a) && Names([]) == names[..0]
    ensures Proper(g, RunningIn(began), [], a) && a == Record([], RunningIn(began), a)
  {}

  /** Nothing has started since the stop phase began. */
  lemma StillActive(g: Graph, began: States, s: States, a: seq<Name>)
    requires StopInvariant(g, began, s, a)
    ensures ActiveIn(s) <= ActiveIn(began)
  {
    hide AboveFirst, Acyclic, NoRepeats, WellFormed;
  }

  lemma EnumeratedAt(g: Graph, began: States, s: States, a: seq<Name>, x: Name, names: seq<Name>, i: nat)
    requires StopInvariant(g, began, s, a) && Enumerates(g, s, x, names) && i < |names|
    ensures names[i] in g.deps && DependsThrough(g, ActiveIn(began), names[i], x)
  {
    StillActive(g, began, s, a);
    hide DependsThrough, ActiveIn, Covers, AboveFirst, Accounts;
    ThroughWider(g, ActiveIn(s), ActiveIn(began), names[i], x);
  }

  lemma StretchJoins(g: Graph, began: States, a0: seq<Name>, a1: seq<Name>, a2: seq<Name>, front: seq<Name>, x: Name)
    requires a0 <= a1 <= a2
    requires NewReach(g, ActiveIn(began), a0, a1, x) && NewReach(g, ActiveIn(began), a1, a2, x)
    ensures a0 <= a2 && front + a1[|a0|..] + a2[|a1|..] == front + a2[|a0|..]
    ensures NewReach(g, ActiveIn(began), a0, a2, x)
  {
    hide NewReach, ActiveIn;
    NewReachJoin(g, ActiveIn(began), a0, a1, a2, x);
    assert a2[|a0|..] == a1[|a0|..] + a2[|a1|..];
  }

  lemma StaysTaken(began: States, a1: seq<Name>, a2: seq<Name>, names: seq<Name>, i: nat)
    requires a1 <= a2 && i < |names| && AllTaken(began, names[..i], a1)
    requires names[i] in began && began[names[i]] == Running ==> names[i] in a2
    ensures AllTaken(began, names[..i + 1], a2)
  {
    assert names[..i + 1] == names[..i] + [names[i]];
  }

  lemma NamesTake(vs: seq<Visit>, v: Visit, names: seq<Name>, i: nat)
    requires i < |names| && v.name == names[i]
    ensures Names(vs) == names[..i] ==> Names(vs + [v]) == names[..i + 1]
  {
    if Names(vs) == names[..i] {
      var w := vs + [v];
      assert forall k :: 0 <= k < |vs| ==> w[k] == vs[k] && Names(vs)[k] == names[k];
      assert w[|vs|] == v;
    }
  }

  lemma EnumerationDone(g: Graph, began: States, s0: States, a0: seq<Name>, s: States, a: seq<Name>, x: Name,
                        names: seq<Name>)
    requires StopInvariant(g, began, s0, a0) && StopInvariant(g, began, s, a) && a0 <= a
    requires Enumerates(g, s0, x, names) && AllTaken(began, names, a)
    ensures AllAbove(g, RunningIn(began), x, a)
  {
    hide AboveFirst, DependsThrough, AllAbove, Reaches, Dependents, NoRepeats, Acyclic;
    forall n | n in Dependents(g, x) && n in RunningIn(began)
      ensures n in a
    {
      assert n in s0 && (s0[n] == Running || n in a0);
    }
    AboveComplete(g, RunningIn(began), x, a);
  }

  lemma TidyLeft(began: States, s: States, a: seq<Name>)
    requires Tidy(began, s, a)
    ensures ActiveIn(s) == Left(RunningIn(began), a)
  {}

  lemma EnumerationAnswers(g: Graph, began: States, s: States, a: seq<Name>, x: Name, names: seq<Name>, vs: seq<Visit>)
    requires Tidy(began, s, a) && Enumerates(g, s, x, names) && Names(vs) == names && Proper(g, RunningIn(began), vs, a)
    ensures Run(g, RunningIn(began), x, vs, a)
  {
    hide DependsThrough, Dependents, Proper;
    TidyLeft(began, s, a);
    var r := RunningIn(began);
    forall n | n in Dependents(g, x) && n in Left(r, a)
      ensures Lists(vs, n)
    {
      assert n in ActiveIn(s);
      var i :| 0 <= i < |names| && names[i] == n;
      assert vs[i].name == n;
    }
    forall i | 0 <= i < |vs|
      ensures DependsThrough(g, Left(r, a), vs[i].name, x)
    {
      assert names[i] in names;
    }
  }

  /** x depends on every service of the path. */
  ghost predicate IsBelow(g: Graph, x: Name, path: set<Name>) {
    forall p :: p in path ==> Depends(g, x, p)
  }

  lemma EmptyPath(g: Graph, x: Name)
    ensures IsBelow(g, x, {}) && x !in {} && {} <= g.deps.Keys
  {}

  /** A dependent of the service at hand is on nobody's way up. */
  lemma FreshOnPath(g: Graph, active: set<Name>, x: Name, n: Name, path: set<Name>)
    requires Acyclic(g) && DependsThrough(g, active, n, x) && IsBelow(g, x, path)
    requires x !in path && x in g.deps && path <= g.deps.Keys
    ensures n !in path + {x} && IsBelow(g, n, path + {x})
    ensures path + {x} <= g.deps.Keys && g.deps.Keys - (path + {x}) < g.deps.Keys - path
  {
    hide Depends, DependsThrough;
    ThroughDepends(g, active, n, x);
    assert x in g.deps.Keys - path;
    forall p | p in path + {x}
      ensures Depends(g, n, p)
    {
      if p != x {
        DependsTransitive(g, n, x, p);
      }
    }
  }

  lemma ReachOn(g: Graph, active: set<Name>, a: seq<Name>, b: seq<Name>, n: Name, x: Name)
    requires NewReach(g, active, a, b, n) && DependsThrough(g, active, n, x)
    ensures NewReach(g, active, a, b, x)
  {
    hide DependsThrough;
    forall y | y in b
      ensures y in a || DependsThrough(g, active, y, x)
    {
      if y !in a {
        ThroughTransitive(g, active, y, n, x);
      }
    }
  }

  lemma OneReaches(g: Graph, active: set<Name>, a: seq<Name>, b: seq<Name>, n: Name, x: Name)
    requires DependsThrough(g, active, n, x) && (b == a || b == a + [] || b == a + [n])
    ensures a <= b && NewReach(g, active, a, b, x)
  {
    hide DependsThrough;
  }

  lemma Accounted(g: Graph, began: States, s: States, a: seq<Name>, n: Name)
    requires StopInvariant(g, began, s, a)
    ensures n in s && s[n] == Stopped && n in began && began[n] == Running ==> n in a
  {
    hide AboveFirst, Acyclic, NoRepeats;
  }

  lemma TidyTaken(began: States, s: States, a: seq<Name>, n: Name)
    ensures Tidy(began, s, a) && n in s ==>
              Taken(n, RunningIn(began), a) == a + if s[n] == Running then [n] else []
  {}

  lemma TidyStart(g: Graph, s: States)
    requires forall x :: x in s ==> s[x] in {Running, Stopped, StopPending}
    ensures ActiveIn(s) == RunningIn(s) ==> Tidy(s, s, [])
  {
    if ActiveIn(s) == RunningIn(s) {
      forall x | x in s
        ensures s[x] == if s[x] == Running then Running else Stopped
      {
        assert x in ActiveIn(s) <==> x in RunningIn(s);
      }
    }
  }

  /** The parent is not among its own dependents, so the stop phase finds it as it was. */
  lemma NotItself(g: Graph, began: States, s: States, a: seq<Name>, term: Name)
    requires StopInvariant(g, began, s, a) && term in s && forall y :: y in a ==> Depends(g, y, term)
    ensures s[term] == Running <==> began[term] == Running
  {
    hide Depends, AboveFirst, NoRepeats;
    assert !Depends(g, term, term);
  }

  lemma OpenBlames(t: Trouble, t': Trouble, ok: bool)
    requires t' == if ok then t else Failed(t)
    ensures Blames(t, t', ok) && (!ok ==> Erred(t, t'))
  {}

  /** The two phases together. */
  lemma InAll(ts: seq<Attempt>, s: States, term: Name, t0: Trouble, t1: Trouble, t2: Trouble, stopped: bool,
              started: bool)
    requires Blames(t0, t1, stopped) && Blames(t1, t2, started) && AllExplained(ts, t1, t2) && NonePaused(ts)
    requires ts != [] && ts[0].name == term && SeenIn(s, ts[0]) && term in s && (stopped ==> s[term] == Stopped)
    ensures Blames(t0, t2, stopped && started) && AllExplained(ts, t0, t2)
    ensures !Erred(t0, t2) ==>
              forall t :: t in ts && !t.asked ==>
                t.seen in {Saw(Running), Saw(StartPending)} || GaveUp(t0, t2, Wait(t.name, Stopped))
    ensures t2 == t0 ==> ts[0].asked && stopped
  {
    hide GaveUp, Explained;
    GrowsSame(t2);
    BlamesJoin(t0, t1, t2, started);
    if !stopped {
      BlamesEarlier(t0, t1, t2);
    }
    forall i | 0 <= i < |ts|
      ensures Explained(ts[i], t0, t2)
      ensures !Erred(t0, t2) && !ts[i].asked ==>
                ts[i].seen in {Saw(Running), Saw(StartPending)} || GaveUp(t0, t2, Wait(ts[i].name, Stopped))
    {
      ExplainedLater(ts[i], t0, t1, t2, t2);
      if !Erred(t0, t2) {
        NotAsked(ts[i], t0, t2);
      }
    }
    if t2 == t0 {
      Between(t0, t1, t2);
      NoTroubleAsked(ts[0], t0, s);
    }
  }

  /** Why a start was not requested. */
  lemma NotAsked(t: Attempt, t0: Trouble, t1: Trouble)
    requires Explained(t, t0, t1) && t.seen != Saw(Paused) && !Erred(t0, t1)
    ensures !t.asked ==> t.seen in {Saw(Running), Saw(StartPending)} || GaveUp(t0, t1, Wait(t.name, Stopped))
  {
    hide GaveUp;
  }

  lemma NoTroubleAsked(t: Attempt, t0: Trouble, s: States)
    requires Explained(t, t0, t0) && SeenIn(s, t) && t.name in s && s[t.name] == Stopped
    ensures t.asked
  {}

  lemma WholeSuffix(a: seq<Name>)
    ensures a[0..] == a && [] + a == a && a + [] == a
  {
    assert a[0..] == a;
  }

  lemma StopFacts(g: Graph, began: States, s: States, a: seq<Name>, term: Name)
    requires StopInvariant(g, began, s, a) && NewReach(g, ActiveIn(began), [], a, term)
    ensures NoRepeats(a) && AboveFirst(g, RunningIn(began), a) && AllReach(g, ActiveIn(began), a, term)
    ensures forall y :: y in a ==> Depends(g, y, term) && y in began && began[y] == Running
    ensures s.Keys == began.Keys
  {
    hide AboveFirst, DependsThrough, Depends, Acyclic;
    forall y | y in a
      ensures Depends(g, y, term) && y in began && began[y] == Running
    {
      ThroughDepends(g, ActiveIn(began), y, term);
    }
  }

  // ---------------------------------------------------------------- lemmas for the restart

  lemma {:induction false} ReverseHas(a: seq<Name>, y: Name)
    requires y in a
    ensures y in Reverse(a)
  {
    if a[0] == y {
      assert Reverse(a)[|a| - 1] == y;
    } else {
      ReverseHas(a[1..], y);
    }
  }

  lemma EverythingBack(began: States, s2: States, s4: States, recorded: seq<Name>, term: Name, a: seq<Name>,
                       ts: seq<Attempt>)
    requires Accounts(began, s2, a) && Starts(s2, s4) && (a == recorded || a == recorded + [term])
    requires Tried(ts) == [term] + Reverse(recorded) && AllTrue(s4, ts) && AllOk(ts)
    ensures forall y :: y in began && began[y] == Running ==> y in s4 && s4[y] == Running
  {
    hide Reverse;
    forall y | y in began && began[y] == Running
      ensures y in s4 && s4[y] == Running
    {
      if y in a {
        if y in recorded {
          ReverseHas(recorded, y);
        }
        assert y in [term] + Reverse(recorded);
        var i :| 0 <= i < |Tried(ts)| && Tried(ts)[i] == y;
        assert ts[i].name == y;
      }
    }
  }

  lemma RunsOn(began: States, s2: States, s4: States, a: seq<Name>)
    requires Accounts(began, s2, a) && Starts(s2, s4)
    ensures s4.Keys == began.Keys
    ensures forall y :: y in began && began[y] == Running && y !in a ==> s4[y] == Running
  {}

  lemma SafeRestart(g: Graph, began: States, term: Name, recorded: seq<Name>, ts: seq<Attempt>)
    requires Acyclic(g) && SafeOrder(g, RunningIn(began), ActiveIn(began), term)
    requires NoRepeats(recorded) && AboveFirst(g, RunningIn(began), recorded)
             && AllReach(g, ActiveIn(began), recorded, term)
    requires forall y :: y in recorded ==> Depends(g, y, term) && y in began && began[y] == Running
    requires Tried(ts) == [term] + Reverse(recorded)
    ensures DependentsFirst(g, recorded) && NeededFirst(g, Tried(ts))
  {
    hide SafeOrder, AboveFirst, AllReach, Depends, Reverse, Tried, NoRepeats, DependentsFirst;
    SafeIsFirst(g, RunningIn(began), ActiveIn(began), term, recorded);
    forall i, j | 0 <= i < j < |Tried(ts)|
      ensures !Depends(g, Tried(ts)[i], Tried(ts)[j])
    {
      RestoreOrderIsSafe(g, recorded, term, i, j);
    }
  }
}
