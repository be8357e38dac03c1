/** waitService: polling a service until it reaches a state, against a 32-bit tick counter that wraps. */
module WaitService {

  const TICKS := 0x1_0000_0000

  /** What one turn of the loop sees: whether the query worked, the status it gave, and the time
      in milliseconds since the call began when the tick counter was read. */
  datatype Poll = Poll(ok: bool, state: nat, checkpoint: nat, waitHint: nat, at: nat)

  /** A call and the answers the system will give, turn after turn; `start` is the tick the call began at. */
  datatype Call = Call(expected: nat, timeoutMs: nat, start: nat, polls: nat -> Poll)

  /** Unsigned 32-bit subtraction. */
  function Sub32(a: int, b: int): (r: nat)
    ensures r < TICKS
  {
    (a - b) % TICKS
  }

  function Tick(c: Call, at: nat): nat {
    (c.start + at) % TICKS
  }

  function Min(a: int, b: int): int {
    if a < b then a else b
  }

  function Clamp(v: nat, lo: nat, hi: nat): nat {
    if v < lo then lo else if v > hi then hi else v
  }

  /** The sleep requested after this poll, in the code's own unsigned arithmetic. */
  function Delay(c: Call, p: Poll): nat {
    Min(Clamp(p.waitHint / 10, 1000, 10000), Sub32(c.timeoutMs, Sub32(Tick(c, p.at), c.start)))
  }

  /** Sleeping takes at least as long as asked, and no turn is reached a whole wrap after the call began. */
  predicate PacedTurn(c: Call, i: nat) {
    c.polls(i).at < c.timeoutMs ==>
      c.polls(i).at + Delay(c, c.polls(i)) <= c.polls(i + 1).at < TICKS
  }

  ghost predicate Paced(c: Call) {
    && c.timeoutMs < TICKS && c.start < TICKS
    && c.polls(0).at < TICKS
    && forall i: nat :: PacedTurn(c, i)
  }

  /** Time left before the deadline at a turn. */
  function Left(c: Call, i: nat): nat {
    if c.polls(i).at < c.timeoutMs then c.timeoutMs - c.polls(i).at else 0
  }

  /** observedState, checkpoint and checkpointStart. */
  datatype Watch = Watch(state: nat, checkpoint: nat, since: nat)

  function Begin(c: Call): Watch {
    Watch(0, 0, c.start)
  }

  /** None when the service has stalled past its own hint. */
  datatype Noted = Stalled | Noted(watch: Watch)

  function Note(c: Call, w: Watch, p: Poll): Noted {
    var now := Tick(c, p.at);
    if p.state != w.state then Noted(Watch(p.state, p.checkpoint, now))
    else if p.checkpoint > w.checkpoint then Noted(w.(checkpoint := p.checkpoint, since := now))
    else if p.waitHint != 0 && Sub32(now, w.since) > p.waitHint then Stalled
    else Noted(w)
  }

  /** d is a tenth of the hint, rounded down and held between one and ten seconds. */
  predicate Tenth(hint: nat, d: int) {
    || (d == 1000 && hint < 10000)
    || (d == 10000 && hint > 100000)
    || (1000 <= d <= 10000 && 10 * d <= hint < 10 * d + 10)
  }

  lemma TickElapsed(c: Call, at: nat)
    requires c.start < TICKS && at < TICKS
    ensures Sub32(Tick(c, at), c.start) == at
  {
    var t := Tick(c, at);
    assert t == c.start + at || t == c.start + at - TICKS;
    if t == c.start + at - TICKS {
      assert t - c.start == at - TICKS;
    }
  }

  /** Below the deadline no subtraction wraps: the tick difference is the elapsed time, and the sleep is a tenth of
      the hint, held between one and ten seconds, or what is left if that is less. */
  lemma DelayFits(c: Call, p: Poll)
    requires c.timeoutMs < TICKS && c.start < TICKS && p.at < TICKS
    ensures Sub32(Tick(c, p.at), c.start) == p.at
    ensures p.at < c.timeoutMs ==>
              && 1 <= Delay(c, p) <= c.timeoutMs - p.at
              && (Delay(c, p) < 1000 ==> Delay(c, p) == c.timeoutMs - p.at)
              && (Delay(c, p) == c.timeoutMs - p.at || Tenth(p.waitHint, Delay(c, p)))
              && forall d :: Tenth(p.waitHint, d) ==> Delay(c, p) <= d
  {
    TickElapsed(c, p.at);
  }

  /** One sleep later the time left has shrunk by what was asked, by a second unless it ran out. */
  lemma Progress(c: Call, i: nat)
    requires Paced(c) && c.polls(i).at < c.timeoutMs
    ensures c.polls(i + 1).at < TICKS
    ensures Left(c, i + 1) + Delay(c, c.polls(i)) <= Left(c, i) && 1 <= Delay(c, c.polls(i))
    ensures Left(c, i + 1) == 0 || Left(c, i + 1) + 1000 <= Left(c, i)
  {
    hide Delay, Tick, Sub32;
    assert PacedTurn(c, i);
    DelayInRange(c);
    DelayFits(c, c.polls(i));
  }

  lemma DelayInRange(c: Call)
    requires Paced(c)
    ensures c.timeoutMs < TICKS && c.start < TICKS && c.polls(0).at < TICKS
  {}

  /** How the call ends: with the answer, the number of queries made and the total sleep requested. */
  datatype Ended = Ended(reached: bool, queries: nat, slept: nat)

  ghost function Wait(c: Call, w: Watch, i: nat): Ended
    requires Paced(c) && c.polls(i).at < TICKS
    decreases Left(c, i)
  {
    hide Paced, Delay, Tick, Sub32, Note, Left;
    var p := c.polls(i);
    if !p.ok then Ended(false, 1, 0)
    else if p.state == c.expected then Ended(true, 1, 0)
    else if Sub32(Tick(c, p.at), c.start) >= c.timeoutMs then Ended(false, 1, 0)
    else
      var noted := Note(c, w, p);
      if noted.Stalled? then Ended(false, 1, 0)
      else
        DelayInRange(c);
        DelayFits(c, p);
        Progress(c, i);
        var rest := Wait(c, noted.watch, i + 1);
        Ended(rest.reached, rest.queries + 1, rest.slept + Delay(c, p))
  }

  lemma TickBetween(c: Call, from: nat, to: nat)
    requires c.start < TICKS && from <= to < TICKS
    ensures Sub32(Tick(c, to), Tick(c, from)) == to - from
  {
    hide Tick;
    TickElapsed(c, from);
    TickElapsed(c, to);
    SinceElapsed(c, to, Tick(c, from));
  }

  /** The stall test, exactly: with the last progress seen at elapsed time `since`, the loop gives up when state and
      checkpoint have stood still for longer than the service's own hint, wherever the tick counter wrapped; and
      otherwise remembers the state seen, and checkpoint and time anew when either has moved. */
  lemma StallExactly(c: Call, w: Watch, p: Poll, since: nat)
    requires c.start < TICKS && since <= p.at < TICKS && w.since == Tick(c, since)
    ensures Note(c, w, p).Stalled? <==>
            p.state == w.state && p.checkpoint <= w.checkpoint && p.waitHint != 0 && p.at - since > p.waitHint
    ensures var moved := p.state != w.state || p.checkpoint > w.checkpoint;
            Note(c, w, p).Noted? ==>
              Note(c, w, p).watch ==
              Watch(p.state, if moved then p.checkpoint else w.checkpoint, Tick(c, if moved then p.at else since))
  {
    hide Tick, Sub32;
    TickBetween(c, since, p.at);
  }

  /** waitService, with a count of its queries and of the milliseconds it asks to sleep. */
  method WaitForState(c: Call) returns (e: Ended)
    requires Paced(c)
    ensures c.polls(0).at < TICKS
    ensures e == Wait(c, Begin(c), 0)
    ensures e.reached <==> exists j: nat :: SeenAt(c, j)
  {
    hide Paced, Note, Delay, Tick, Sub32, SeenAt;
    DelayInRange(c);
    ReachedExactly(c);
    var w, i := Begin(c), 0;
    var queries: nat, slept: nat := 0, 0;
    ghost var since: nat := 0;
    StartTick(c);
    while true
      invariant since <= c.polls(i).at < TICKS && w.since == Tick(c, since)
      invariant var all, rest := Wait(c, Begin(c), 0), Wait(c, w, i);
                all == Ended(rest.reached, queries + rest.queries, slept + rest.slept)
      decreases Left(c, i)
    {
      var p := c.polls(i);
      queries := queries + 1;
      if !p.ok {
        return Ended(false, queries, slept);
      }
      if p.state == c.expected {
        return Ended(true, queries, slept);
      }
      var now := Tick(c, p.at);
      if Sub32(now, c.start) >= c.timeoutMs {
        return Ended(false, queries, slept);
      }
      var noted := Note(c, w, p);
      if noted.Stalled? {
        return Ended(false, queries, slept);
      }
      StallExactly(c, w, p, since);
      since := if p.state != w.state || p.checkpoint > w.checkpoint then p.at else since;
      w := noted.watch;
      slept := slept + Delay(c, p);
      DelayFits(c, p);
      Progress(c, i);
      Later(c, i);
      i := i + 1;
    }
  }

  lemma StartTick(c: Call)
    requires c.start < TICKS
    ensures Begin(c).since == Tick(c, 0)
  {}

  lemma Later(c: Call, i: nat)
    requires Paced(c) && c.polls(i).at < c.timeoutMs
    ensures c.polls(i).at <= c.polls(i + 1).at
  {
    hide Delay;
    assert PacedTurn(c, i);
  }

  /** Main result: whatever the start tick and the answers, the loop ends after at most one query per second
      of the timeout and two more, and never asks to sleep longer in all than the timeout. */
  lemma {:induction false} WaitIsBounded(c: Call, w: Watch, i: nat)
    requires Paced(c) && c.polls(i).at < TICKS
    ensures Wait(c, w, i).slept <= Left(c, i)
    ensures 1000 * Wait(c, w, i).queries <= Left(c, i) + 2000
    ensures Left(c, i) == 0 ==> Wait(c, w, i).queries == 1
    decreases Left(c, i)
  {
    hide Paced, Note, Delay, Tick, Sub32;
    var p := c.polls(i);
    DelayInRange(c);
    DelayFits(c, p);
    if p.ok && p.state != c.expected && p.at < c.timeoutMs && Note(c, w, p).Noted? {
      Progress(c, i);
      WaitIsBounded(c, Note(c, w, p).watch, i + 1);
    }
  }

  /** The same call begun at another tick. */
  function Shifted(c: Call, start: nat): Call {
    c.(start := start)
  }

  predicate SameWatch(c: Call, w: Watch, d: Call, v: Watch) {
    w.state == v.state && w.checkpoint == v.checkpoint && Sub32(w.since, c.start) == Sub32(v.since, d.start)
  }

  lemma ModSub(a: int, b: int)
    ensures (a % TICKS - b) % TICKS == (a - b) % TICKS
  {
    var q := a / TICKS;
    assert a == q * TICKS + a % TICKS;
    ModMultiple(a % TICKS - b, q);
  }

  lemma {:induction false} ModMultiple(x: int, q: int)
    ensures (x + q * TICKS) % TICKS == x % TICKS
    decreases if q < 0 then -q else q
  {
    if q > 0 {
      ModMultiple(x, q - 1);
      assert x + q * TICKS == (x + (q - 1) * TICKS) + TICKS;
    } else if q < 0 {
      ModMultiple(x, q + 1);
      assert x + q * TICKS == (x + (q + 1) * TICKS) - TICKS;
    }
  }

  /** A tick difference depends only on the elapsed times. */
  lemma SinceElapsed(c: Call, at: nat, since: int)
    ensures Sub32(Tick(c, at), since) == (at - Sub32(since, c.start)) % TICKS
  {
    ModSub(c.start + at, since);
    var s := since - c.start;
    ModSub(s, at);
    ModNegate(s % TICKS, at, s);
  }

  lemma ModNegate(r: int, at: int, s: int)
    requires r == s % TICKS
    ensures (at - r) % TICKS == (at - s) % TICKS
  {
    var q := s / TICKS;
    assert s == q * TICKS + r;
    ModMultiple(at - s, q);
  }

  lemma NoteShifted(c: Call, w: Watch, v: Watch, p: Poll, start: nat)
    requires SameWatch(c, w, Shifted(c, start), v)
    ensures var a, b := Note(c, w, p), Note(Shifted(c, start), v, p);
            a.Stalled? == b.Stalled? && (a.Noted? ==> SameWatch(c, a.watch, Shifted(c, start), b.watch))
  {
    hide Tick, Sub32;
    SinceElapsed(c, p.at, w.since);
    SinceElapsed(Shifted(c, start), p.at, v.since);
    SinceElapsed(c, p.at, c.start);
    SinceElapsed(Shifted(c, start), p.at, start);
    SubSelf(c.start);
    SubSelf(start);
  }

  lemma SubSelf(a: int)
    ensures Sub32(a, a) == 0
  {}

  lemma DelayShifted(c: Call, p: Poll, start: nat)
    ensures Sub32(Tick(c, p.at), c.start) == Sub32(Tick(Shifted(c, start), p.at), start)
    ensures Delay(c, p) == Delay(Shifted(c, start), p)
  {
    hide Tick;
    SinceElapsed(c, p.at, c.start);
    SinceElapsed(Shifted(c, start), p.at, start);
  }

  lemma PacedShifted(c: Call, start: nat)
    requires Paced(c) && start < TICKS
    ensures Paced(Shifted(c, start))
  {
    hide Delay;
    var d := Shifted(c, start);
    forall i: nat
      ensures PacedTurn(d, i)
    {
      assert PacedTurn(c, i);
      DelayShifted(c, c.polls(i), start);
    }
  }

  lemma {:induction false} WaitShifted(c: Call, w: Watch, v: Watch, i: nat, start: nat)
    requires Paced(c) && start < TICKS && Paced(Shifted(c, start)) && c.polls(i).at < TICKS
    requires SameWatch(c, w, Shifted(c, start), v)
    ensures Wait(Shifted(c, start), v, i) == Wait(c, w, i)
    decreases Left(c, i)
  {
    hide Paced, Note, Delay, Tick, Sub32, SameWatch;
    var p := c.polls(i);
    DelayInRange(c);
    DelayFits(c, p);
    DelayShifted(c, p, start);
    NoteShifted(c, w, v, p, start);
    if p.ok && p.state != c.expected && p.at < c.timeoutMs && Note(c, w, p).Noted? {
      Progress(c, i);
      WaitShifted(c, Note(c, w, p).watch, Note(Shifted(c, start), v, p).watch, i + 1, start);
    }
  }

  /** Main result: the outcome, the queries and the sleeps do not depend on where the tick counter stood. */
  lemma OriginDoesNotMatter(c: Call, start: nat)
    requires Paced(c) && start < TICKS
    ensures Paced(Shifted(c, start))
    ensures c.polls(0).at < TICKS
    ensures Wait(Shifted(c, start), Begin(Shifted(c, start)), 0) == Wait(c, Begin(c), 0)
  {
    hide Paced, Wait;
    DelayInRange(c);
    PacedShifted(c, start);
    SubSelf(c.start);
    SubSelf(start);
    WaitShifted(c, Begin(c), Begin(Shifted(c, start)), 0, start);
  }

  // ---------------------------------------------------------------- the answers alone

  /** What turn k saw; turn 0 stands for what the loop takes the service to have been when the call began. */
  function Turn(c: Call, k: nat): Poll {
    if k == 0 then Poll(true, 0, 0, 0, 0) else c.polls(k - 1)
  }

  /** Since turn a the service has not moved: same state, and never a higher checkpoint than then. */
  predicate StoodStill(c: Call, a: nat, k: nat) {
    forall i :: a < i <= k ==> Turn(c, i).state == Turn(c, a).state && Turn(c, i).checkpoint <= Turn(c, a).checkpoint
  }

  /** At turn k the service has stood still since turn a, for longer than the hint it gives. */
  predicate StillSince(c: Call, a: nat, k: nat) {
    a < k && StoodStill(c, a, k) && Turn(c, k).at - Turn(c, a).at > Turn(c, k).waitHint
  }

  ghost predicate StallsAt(c: Call, k: nat) {
    Turn(c, k).waitHint != 0 && exists a: nat :: StillSince(c, a, k)
  }

  /** Turn k settles nothing: the query worked, the state is not the one waited for, there is time left, and the
      service has not stalled. */
  ghost predicate GoesOn(c: Call, k: nat) {
    Turn(c, k).ok && Turn(c, k).state != c.expected && Turn(c, k).at < c.timeoutMs && !StallsAt(c, k)
  }

  /** The sleeps of the turns before turn e. */
  function SleptBefore(c: Call, e: nat): nat {
    if e <= 1 then 0 else SleptBefore(c, e - 1) + Delay(c, Turn(c, e - 1))
  }

  predicate InTime(c: Call, i: nat) {
    forall x, y :: 0 <= x <= y <= i ==> Turn(c, x).at <= Turn(c, y).at < TICKS
  }

  /** After turn i the watch holds the state and the checkpoint of turn a and the tick it was read at, a being the
      earliest turn since which the service has stood still. */
  ghost predicate Tracks(c: Call, w: Watch, i: nat, a: nat) {
    && a <= i && StoodStill(c, a, i) && (forall b: nat :: b < a ==> !StoodStill(c, b, a))
    && w == Watch(Turn(c, a).state, Turn(c, a).checkpoint, Tick(c, Turn(c, a).at))
  }

  lemma StillEarlier(c: Call, a: nat, k: nat, j: nat)
    requires StoodStill(c, a, k) && j <= k
    ensures StoodStill(c, a, j)
  {}

  /** The step: what is noted at turn i + 1 is a stall exactly when the answers so far say so, and otherwise the
      watch goes on tracking. */
  lemma NoteTracks(c: Call, w: Watch, i: nat, a: nat) returns (a': nat)
    requires Tracks(c, w, i, a) && InTime(c, i + 1) && c.start < TICKS
    ensures Note(c, w, Turn(c, i + 1)).Stalled? <==> StallsAt(c, i + 1)
    ensures Note(c, w, Turn(c, i + 1)).Noted? ==> Tracks(c, Note(c, w, Turn(c, i + 1)).watch, i + 1, a')
  {
    hide Tick, Sub32, Turn;
    var p, q := Turn(c, i + 1), Turn(c, a);
    assert Turn(c, a).at <= Turn(c, i + 1).at < TICKS;
    TickBetween(c, q.at, p.at);
    if p.state != q.state || p.checkpoint > q.checkpoint {
      a' := i + 1;
      MovedNow(c, i + 1, a);
    } else {
      a' := a;
      assert StoodStill(c, a, i + 1);
      StillStands(c, i, a);
    }
  }

  /** After a move no earlier turn is one since which the service has stood still. */
  lemma MovedNow(c: Call, k: nat, a: nat)
    requires a < k && StoodStill(c, a, k - 1) && forall b: nat :: b < a ==> !StoodStill(c, b, a)
    requires Turn(c, k).state != Turn(c, a).state || Turn(c, k).checkpoint > Turn(c, a).checkpoint
    ensures forall b: nat :: b < k ==> !StoodStill(c, b, k)
    ensures !StallsAt(c, k)
  {
    hide Turn;
    forall b: nat | b < k
      ensures !StoodStill(c, b, k)
    {
      if StoodStill(c, b, k) && b < a {
        StillEarlier(c, b, k, a);
      }
    }
  }

  /** Without a move the earliest such turn decides. */
  lemma StillStands(c: Call, i: nat, a: nat)
    requires a <= i && StoodStill(c, a, i + 1) && InTime(c, i + 1) && forall b: nat :: b < a ==> !StoodStill(c, b, a)
    ensures StallsAt(c, i + 1) <==>
            Turn(c, i + 1).waitHint != 0 && Turn(c, i + 1).at - Turn(c, a).at > Turn(c, i + 1).waitHint
  {
    hide Turn, StoodStill;
    if StallsAt(c, i + 1) {
      var b: nat :| StillSince(c, b, i + 1);
      StillEarlier(c, b, i + 1, a);
      assert Turn(c, a).at <= Turn(c, b).at;
    } else if Turn(c, i + 1).waitHint != 0 {
      assert !StillSince(c, a, i + 1);
    }
  }

  lemma OneMoreTurn(c: Call, i: nat)
    requires Paced(c) && InTime(c, i) && (i > 0 ==> Turn(c, i).at < c.timeoutMs)
    ensures InTime(c, i + 1)
  {
    hide Delay;
    if i > 0 {
      assert PacedTurn(c, i - 1);
    }
    assert Turn(c, i).at <= Turn(c, i + 1).at < TICKS;
    forall x, y | 0 <= x <= y <= i + 1
      ensures Turn(c, x).at <= Turn(c, y).at < TICKS
    {
      if y == i + 1 && x <= i {
        assert Turn(c, x).at <= Turn(c, i).at;
      }
    }
  }

  lemma {:induction false} WaitFrom(c: Call, w: Watch, i: nat, a: nat) returns (e: nat)
    requires Paced(c) && InTime(c, i + 1) && c.polls(i).at < TICKS && Tracks(c, w, i, a)
    ensures i < e && !GoesOn(c, e) && forall k :: i < k < e ==> GoesOn(c, k)
    ensures var rest := Wait(c, w, i);
            && rest.reached == (Turn(c, e).ok && Turn(c, e).state == c.expected)
            && rest.queries == e - i && SleptBefore(c, i + 1) + rest.slept == SleptBefore(c, e)
    decreases Left(c, i)
  {
    hide Paced, Note, Delay, Tick, Sub32, StallsAt, Tracks, InTime;
    var p := c.polls(i);
    DelayInRange(c);
    DelayFits(c, p);
    var a' := NoteTracks(c, w, i, a);
    if GoesOn(c, i + 1) {
      Progress(c, i);
      OneMoreTurn(c, i + 1);
      e := WaitFrom(c, Note(c, w, p).watch, i + 1, a');
    } else {
      e := i + 1;
    }
  }

  lemma TrackedFirst(c: Call)
    requires Paced(c)
    ensures InTime(c, 1) && Tracks(c, Begin(c), 0, 0)
  {
    hide PacedTurn;
  }

  /** Main result, on the answers alone: the loop ends at the first turn that settles something, it answers true if and
      only if that turn's query worked and saw the state waited for, and it has slept after every turn before it. */
  lemma WaitExactly(c: Call) returns (e: nat)
    requires Paced(c)
    ensures c.polls(0).at < TICKS
    ensures 0 < e && !GoesOn(c, e) && forall k :: 0 < k < e ==> GoesOn(c, k)
    ensures Wait(c, Begin(c), 0) ==
            Ended(Turn(c, e).ok && Turn(c, e).state == c.expected, e, SleptBefore(c, e))
  {
    hide *;
    DelayInRange(c);
    TrackedFirst(c);
    e := WaitFrom(c, Begin(c), 0, 0);
    SleptNone(c);
  }

  lemma SleptNone(c: Call)
    ensures SleptBefore(c, 1) == 0
  {}

  /** Turn j sees the expected state, and every turn before it worked, had time left and was no stall. */
  ghost predicate SeenAt(c: Call, j: nat) {
    && 0 < j && Turn(c, j).ok && Turn(c, j).state == c.expected
    && forall k :: 0 < k < j ==> Turn(c, k).ok && Turn(c, k).at < c.timeoutMs && !StallsAt(c, k)
  }

  /** So the answer is true exactly when the state is seen in time by queries that all work, with no stall before. */
  lemma ReachedExactly(c: Call)
    requires Paced(c)
    ensures c.polls(0).at < TICKS
    ensures Wait(c, Begin(c), 0).reached <==> exists j: nat :: SeenAt(c, j)
  {
    hide Paced, Wait, Turn, StallsAt;
    var e := WaitExactly(c);
    if Wait(c, Begin(c), 0).reached {
      forall k | 0 < k < e
        ensures Turn(c, k).ok && Turn(c, k).at < c.timeoutMs && !StallsAt(c, k)
      {
        assert GoesOn(c, k);
      }
      assert SeenAt(c, e);
    }
    if exists j: nat :: SeenAt(c, j) {
      var j: nat :| SeenAt(c, j);
      if e > j {
        assert GoesOn(c, j);
      }
    }
  }

  /** So a service that gives no wait hint is waited for until the deadline. */
  lemma PatientWait(c: Call, j: nat)
    requires Paced(c) && c.polls(j).ok && c.polls(j).state == c.expected
    requires forall k {:trigger c.polls(k)} :: 0 <= k < j ==>
               c.polls(k).ok && c.polls(k).at < c.timeoutMs && c.polls(k).waitHint == 0
    ensures c.polls(0).at < TICKS
    ensures Wait(c, Begin(c), 0).reached
  {
    hide Paced, Wait, StoodStill;
    ReachedExactly(c);
    assert SeenAt(c, j + 1);
  }
}
