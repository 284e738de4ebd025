/** Which events fire: every armed event is kept until it fires or is disarmed, turns fire the
    queue from its front, and events that wait for the loop to sleep get their turn. */
module EventFiring {
  import opened EventQueue
  import opened EventOrder

  /** Operations that arm the event. */
  predicate Arms<E(==)>(op: Op<E>, e: E) {
    op == DepthFirst(e) || op == BreadthFirst(e) || op == Last(e) || op == WhenWouldSleep(e)
  }

  predicate IsArming<E>(op: Op<E>) {
    op.DepthFirst? || op.BreadthFirst? || op.Last? || op.WhenWouldSleep?
  }

  /** Arming arms, disarming disarms, firing disarms, and nothing else changes which events are armed. */
  lemma ArmedExactly<E>(Q: Queue<E>, op: Op<E>, x: E)
    requires Valid(Q)
    ensures Armed(Apply(Q, op), x) <==>
            Arms(op, x) || (Armed(Q, x) && op != Cancel(x) && x !in Fires(Q, op))
  {
    match op
    case DepthFirst(e) => InsertNoDup(Q.q, Q.df, e); hide NoDup, Insert;
    case BreadthFirst(e) => InsertNoDup(Q.q, Q.bf, e); hide NoDup, Insert;
    case Last(e) => InsertNoDup(Q.q, Q.bf, e); hide NoDup, Insert;
    case WhenWouldSleep(_) =>
    case Cancel(e) => CancelExactly(Q, e, x);
    case Turn => TurnExactly(Q, x);
    case FireDone =>
    case PollSleeper => PollExactly(Q, x);
  }

  lemma CancelExactly<E>(Q: Queue<E>, e: E, x: E)
    requires Valid(Q)
    ensures Armed(Disarm(Q, e), x) <==> Armed(Q, x) && x != e
  {
    if e in Q.q {
      RemoveNoDup(Q.q, IndexOf(Q.q, e));
      hide NoDup, Remove;
    } else if e in Q.sleep {
      RemoveNoDup(Q.sleep, IndexOf(Q.sleep, e));
      hide NoDup, Remove;
    }
  }

  lemma TurnExactly<E>(Q: Queue<E>, x: E)
    requires Valid(Q)
    ensures Armed(Apply(Q, Turn), x) <==> Armed(Q, x) && x !in Fires(Q, Turn)
  {
    if Q.q != [] {
      RemoveNoDup(Q.q, 0);
      assert Q.q[1..] == Remove(Q.q, 0);
      hide NoDup, Remove;
    }
  }

  lemma PollExactly<E>(Q: Queue<E>, x: E)
    requires Valid(Q)
    ensures Armed(Apply(Q, PollSleeper), x) <==> Armed(Q, x)
  {
    if Q.q == [] && Q.sleep != [] {
      assert Q.sleep == [Q.sleep[0]] + Q.sleep[1..];
    }
  }

  /** An event that is not armed does not fire until it is armed again, so every arming fires at
      most once, and a disarmed event does not fire. */
  lemma {:induction false} OnlyArmedFires<E>(Q: Queue<E>, ops: seq<Op<E>>, x: E)
    requires Valid(Q) && !Armed(Q, x) && forall i | 0 <= i < |ops| :: !Arms(ops[i], x)
    ensures x !in Fired(Q, ops)
    decreases |ops|
  {
    if ops != [] {
      ArmedExactly(Q, ops[0], x);
      ApplyValid(Q, ops[0]);
      OnlyArmedFires(Apply(Q, ops[0]), ops[1..], x);
    }
  }

  /** An armed event fires or stays armed, unless it is disarmed. */
  lemma {:induction false} ArmedUntilFired<E>(Q: Queue<E>, ops: seq<Op<E>>, x: E)
    requires Valid(Q) && Armed(Q, x) && !Cancels(ops, x)
    ensures x in Fired(Q, ops) || Armed(Run(Q, ops), x)
    decreases |ops|
  {
    if ops != [] {
      ArmedExactly(Q, ops[0], x);
      ApplyValid(Q, ops[0]);
      hide Apply, Valid;
      if x !in Fires(Q, ops[0]) { ArmedUntilFired(Apply(Q, ops[0]), ops[1..], x); }
    }
  }

  /** The loop's turns with nothing in between. */
  function OnlyTurns<E>(n: nat): seq<Op<E>> {
    if n == 0 then [] else [Turn, FireDone] + OnlyTurns(n - 1)
  }

  /** Undisturbed, the loop fires what is queued from front to back. */
  lemma {:induction false} TurnsFireQueue<E>(Q: Queue<E>, n: nat)
    requires Valid(Q) && n <= |Q.q|
    ensures Fired(Q, OnlyTurns(n)) == Q.q[..n] && Run(Q, OnlyTurns(n)).q == Q.q[n..]
    decreases n
  {
    if n > 0 {
      ApplyValid(Q, Turn);
      var R := Apply(Apply(Q, Turn), FireDone);
      ApplyValid(Apply(Q, Turn), FireDone);
      assert R.q == Q.q[1..];
      TurnsFireQueue(R, n - 1);
      TwoSteps(Q, Turn, FireDone, OnlyTurns(n - 1));
      assert [Q.q[0]] + Q.q[1..][..n - 1] == Q.q[..n];
      assert Q.q[1..][n - 1..] == Q.q[n..];
      hide Apply, Valid;
    }
  }

  lemma TwoSteps<E>(Q: Queue<E>, a: Op<E>, b: Op<E>, rest: seq<Op<E>>)
    requires Q.df <= Q.bf <= |Q.q|
    ensures var R := Apply(Q, a); R.df <= R.bf <= |R.q|
    ensures var R := Apply(Apply(Q, a), b); R.df <= R.bf <= |R.q|
    ensures var R := Apply(Apply(Q, a), b); Run(Q, [a, b] + rest) == Run(R, rest)
    ensures var R := Apply(Apply(Q, a), b);
            Fired(Q, [a, b] + rest) == Fires(Q, a) + Fires(Apply(Q, a), b) + Fired(R, rest)
  {
    ApplyBounds(Q, a);
    ApplyBounds(Apply(Q, a), b);
    assert ([a, b] + rest)[1..] == [b] + rest && ([b] + rest)[1..] == rest;
    hide Apply, Fires;
  }

  /** What is armed depth-first between two callbacks, or first in one, fires next. */
  lemma DepthFirstFiresNext<E>(Q: Queue<E>, op: Op<E>, e: E)
    requires Valid(Q) && !Armed(Q, e) && (op == FireDone || op == Turn)
    ensures Fired(Q, [op, DepthFirst(e)] + [Turn]) == Fires(Q, op) + [e]
  {
    ApplyValid(Q, op);
    ArmedExactly(Q, op, e);
    var A := Apply(Q, op);
    assert (op == FireDone || Q.q != []) ==> A.df == 0;
    EmptyTurn(Q, op);
    var B := Apply(A, DepthFirst(e));
    assert B.q == Insert(A.q, 0, e) && B.q[0] == e;
    TwoSteps(Q, op, DepthFirst(e), [Turn]);
    OneStep(B, Turn, []);
    var turn: seq<Op<E>> := [Turn];
    assert turn + [] == turn;
    hide Valid, Apply;
  }

  lemma EmptyTurn<E>(Q: Queue<E>, op: Op<E>)
    requires Valid(Q) && (op == FireDone || op == Turn)
    ensures Apply(Q, op).df == 0
  {
  }

  // ---------------------------------------------------------------------------
  // Events that wait for the loop to sleep.

  /** The loop finds nothing queued and polls; what that queues, if anything, fires. */
  function SleepRounds<E>(n: nat): seq<Op<E>> {
    if n == 0 then [] else [PollSleeper, Turn] + ([FireDone] + SleepRounds(n - 1))
  }

  lemma OneStep<E>(Q: Queue<E>, a: Op<E>, rest: seq<Op<E>>)
    requires Q.df <= Q.bf <= |Q.q|
    ensures var R := Apply(Q, a); R.df <= R.bf <= |R.q|
    ensures Run(Q, [a] + rest) == Run(Apply(Q, a), rest)
    ensures Fired(Q, [a] + rest) == Fires(Q, a) + Fired(Apply(Q, a), rest)
  {
    ApplyBounds(Q, a);
    assert ([a] + rest)[1..] == rest;
    hide Apply, Fires;
  }

  lemma SleepRound<E>(Q: Queue<E>)
    requires Valid(Q) && Q.q == [] && Q.sleep != []
    ensures var (A, B) := (Apply(Q, PollSleeper), Apply(Apply(Q, PollSleeper), Turn));
            var R := Apply(B, FireDone);
            && Valid(A) && Valid(B) && Valid(R)
            && Fires(Q, PollSleeper) == [] && Fires(A, Turn) == [Q.sleep[0]] && Fires(B, FireDone) == []
            && R.q == [] && R.sleep == Q.sleep[1..]
  {
    ApplyValid(Q, PollSleeper);
    ApplyValid(Apply(Q, PollSleeper), Turn);
    ApplyValid(Apply(Apply(Q, PollSleeper), Turn), FireDone);
    hide Valid;
  }

  /** Once nothing is queued, every round fires the next of the events that wait for the loop to
      sleep, in their order. */
  lemma {:induction false} SleepersFire<E>(Q: Queue<E>, n: nat)
    requires Valid(Q) && Q.q == [] && n <= |Q.sleep|
    ensures Fired(Q, SleepRounds(n)) == Q.sleep[..n]
    ensures Run(Q, SleepRounds(n)).q == [] && Run(Q, SleepRounds(n)).sleep == Q.sleep[n..]
    decreases n
  {
    if n > 0 {
      SleepRound(Q);
      var A := Apply(Q, PollSleeper);
      var B := Apply(A, Turn);
      TwoSteps(Q, PollSleeper, Turn, [FireDone] + SleepRounds(n - 1));
      OneStep(B, FireDone, SleepRounds(n - 1));
      SleepersFire(Apply(B, FireDone), n - 1);
      assert [Q.sleep[0]] + Q.sleep[1..][..n - 1] == Q.sleep[..n];
      assert Q.sleep[1..][n - 1..] == Q.sleep[n..];
      hide Apply, Valid, Fires, Run, Fired;
    }
  }

  /** While something is queued, a poll does nothing. */
  lemma QueuedBeforeSleepers<E>(Q: Queue<E>)
    requires Valid(Q) && Q.q != []
    ensures Apply(Q, PollSleeper) == Q
  {
  }

  /** The event at position `i` of those that wait for sleep fires within one round more. */
  lemma SleeperFiresInTime<E>(Q: Queue<E>, i: nat)
    requires Valid(Q) && Q.q == [] && i < |Q.sleep|
    ensures Q.sleep[i] in Fired(Q, SleepRounds(i + 1))
  {
    SleepersFire(Q, i + 1);
    assert Q.sleep[..i + 1][i] == Q.sleep[i];
  }

  /** Of two events armed for when the loop would sleep the later one comes first, and both come
      before those armed earlier. */
  lemma SleepersAreLifo<E>(Q: Queue<E>, a: E, b: E)
    requires Valid(Q) && Q.q == [] && !Armed(Q, a) && !Armed(Q, b) && a != b
    ensures Fired(Q, [WhenWouldSleep(a), WhenWouldSleep(b)] + SleepRounds(2 + |Q.sleep|)) == [b, a] + Q.sleep
  {
    var A := Apply(Q, WhenWouldSleep(a));
    var R := Apply(A, WhenWouldSleep(b));
    ApplyValid(Q, WhenWouldSleep(a));
    ApplyValid(A, WhenWouldSleep(b));
    assert R.sleep == [b, a] + Q.sleep && R.q == [];
    TwoSteps(Q, WhenWouldSleep(a), WhenWouldSleep(b), SleepRounds(2 + |Q.sleep|));
    SleepersFire(R, |R.sleep|);
    hide Apply, Valid, Run, Fired;
  }
}
