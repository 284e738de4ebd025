/** The event queue of one loop as the client sees it: a sequence with two insert
    points, and a second sequence of events that wait for the loop to go to sleep.
    The intrusive list of IntrusiveQueue refines this. */
module EventQueue {

  /** Positions before `bf` hold the events armed breadth-first or depth-first, the
      others those armed last; depth-first arming inserts at `df`. */
  datatype Queue<E> = Queue(q: seq<E>, df: nat, bf: nat, sleep: seq<E>)

  ghost predicate NoDup<E>(s: seq<E>) {
    forall i, j | 0 <= i < j < |s| :: s[i] != s[j]
  }

  ghost predicate Valid<E>(Q: Queue<E>) {
    Q.df <= Q.bf <= |Q.q| && NoDup(Q.q) && NoDup(Q.sleep) && forall e | e in Q.q :: e !in Q.sleep
  }

  predicate Armed<E(==)>(Q: Queue<E>, e: E) {
    e in Q.q || e in Q.sleep
  }

  function Insert<E>(s: seq<E>, i: nat, e: E): seq<E>
    requires i <= |s|
  {
    s[..i] + [e] + s[i..]
  }

  function Remove<E>(s: seq<E>, i: nat): seq<E>
    requires i < |s|
  {
    s[..i] + s[i + 1..]
  }

  function IndexOf<E(==)>(s: seq<E>, e: E): (i: nat)
    requires e in s
    ensures i < |s| && s[i] == e
  {
    if s[0] == e then 0 else 1 + IndexOf(s[1..], e)
  }

  function ArmDepthFirst<E(==)>(Q: Queue<E>, e: E): Queue<E>
    requires Q.df <= Q.bf <= |Q.q|
  {
    if Armed(Q, e) then Q else Q.(q := Insert(Q.q, Q.df, e), df := Q.df + 1, bf := Q.bf + 1)
  }

  function ArmBreadthFirst<E(==)>(Q: Queue<E>, e: E): Queue<E>
    requires Q.bf <= |Q.q|
  {
    if Armed(Q, e) then Q else Q.(q := Insert(Q.q, Q.bf, e), bf := Q.bf + 1)
  }

  function ArmLast<E(==)>(Q: Queue<E>, e: E): Queue<E>
    requires Q.bf <= |Q.q|
  {
    if Armed(Q, e) then Q else Q.(q := Insert(Q.q, Q.bf, e))
  }

  function ArmWhenWouldSleep<E(==)>(Q: Queue<E>, e: E): Queue<E> {
    if Armed(Q, e) then Q else Q.(sleep := [e] + Q.sleep)
  }

  function Disarm<E(==)>(Q: Queue<E>, e: E): Queue<E> {
    if e in Q.q then
      var i := IndexOf(Q.q, e);
      Q.(q := Remove(Q.q, i), df := if Q.df > i then Q.df - 1 else Q.df, bf := if Q.bf > i then Q.bf - 1 else Q.bf)
    else if e in Q.sleep then Q.(sleep := Remove(Q.sleep, IndexOf(Q.sleep, e)))
    else Q
  }

  /** Takes the first event out of a non-empty queue, for it to fire. */
  function Pop<E>(Q: Queue<E>): Queue<E>
    requires Q.q != []
  {
    Q.(q := Q.q[1..], df := 0, bf := if Q.bf > 0 then Q.bf - 1 else 0)
  }

  // ---------------------------------------------------------------------------
  // Runs.

  datatype Op<E> =
    | DepthFirst(e: E)
    | BreadthFirst(e: E)
    | Last(e: E)
    | WhenWouldSleep(e: E)
    | Cancel(e: E)
    | Turn        // the first event, if any, leaves the queue and fires
    | FireDone    // the callback of the firing event returns
    | PollSleeper // nothing is queued: the next event waiting for sleep is queued

  function Apply<E(==)>(Q: Queue<E>, op: Op<E>): Queue<E>
    requires Q.df <= Q.bf <= |Q.q|
  {
    match op
    case DepthFirst(e) => ArmDepthFirst(Q, e)
    case BreadthFirst(e) => ArmBreadthFirst(Q, e)
    case Last(e) => ArmLast(Q, e)
    case WhenWouldSleep(e) => ArmWhenWouldSleep(Q, e)
    case Cancel(e) => Disarm(Q, e)
    case Turn => if Q.q == [] then Q else Pop(Q)
    case FireDone => Q.(df := 0)
    case PollSleeper =>
      if Q.q == [] && Q.sleep != [] then
        ArmDepthFirst(Queue([], 0, 0, Q.sleep[1..]), Q.sleep[0])
      else Q
  }

  /** What fires in a step: the event taken by a turn. */
  function Fires<E>(Q: Queue<E>, op: Op<E>): seq<E> {
    if op.Turn? && Q.q != [] then [Q.q[0]] else []
  }

  lemma ApplyBounds<E>(Q: Queue<E>, op: Op<E>)
    requires Q.df <= Q.bf <= |Q.q|
    ensures var R := Apply(Q, op); R.df <= R.bf <= |R.q|
  {
  }

  /** Every operation keeps the insert points ordered and every event in at most one place. */
  lemma ApplyValid<E>(Q: Queue<E>, op: Op<E>)
    requires Valid(Q)
    ensures Valid(Apply(Q, op))
  {
    match op
    case DepthFirst(e) => InsertNoDup(Q.q, Q.df, e);
    case BreadthFirst(e) => InsertNoDup(Q.q, Q.bf, e);
    case Last(e) => InsertNoDup(Q.q, Q.bf, e);
    case Cancel(e) =>
      if e in Q.q { RemoveNoDup(Q.q, IndexOf(Q.q, e)); }
      else if e in Q.sleep { RemoveNoDup(Q.sleep, IndexOf(Q.sleep, e)); }
    case _ =>
  }

  lemma InsertNoDup<E>(s: seq<E>, i: nat, e: E)
    requires NoDup(s) && i <= |s|
    ensures e !in s ==> NoDup(Insert(s, i, e))
    ensures forall x :: x in Insert(s, i, e) <==> x in s || x == e
  {
    var t := Insert(s, i, e);
    assert forall k | 0 <= k < |t| :: t[k] == if k < i then s[k] else if k == i then e else s[k - 1];
    forall x | x in s ensures x in t {
      var k := IndexOf(s, x);
      assert t[if k < i then k else k + 1] == x;
    }
    assert t[i] == e;
  }

  lemma RemoveNoDup<E>(s: seq<E>, i: nat)
    requires NoDup(s) && i < |s|
    ensures NoDup(Remove(s, i))
    ensures forall x :: x in Remove(s, i) <==> x in s && x != s[i]
  {
    var t := Remove(s, i);
    assert forall k | 0 <= k < |t| :: t[k] == if k < i then s[k] else s[k + 1];
    forall x | x in s && x != s[i] ensures x in t {
      var k := IndexOf(s, x);
      assert t[if k < i then k else k - 1] == x;
    }
  }

  /** The queue after a run, and the events that fired in it, in order. */
  function Run<E(==)>(Q: Queue<E>, ops: seq<Op<E>>): (R: Queue<E>)
    requires Q.df <= Q.bf <= |Q.q|
    ensures R.df <= R.bf <= |R.q|
    decreases |ops|
  {
    if ops == [] then Q else ApplyBounds(Q, ops[0]); Run(Apply(Q, ops[0]), ops[1..])
  }

  function Fired<E(==)>(Q: Queue<E>, ops: seq<Op<E>>): seq<E>
    requires Q.df <= Q.bf <= |Q.q|
    decreases |ops|
  {
    if ops == [] then []
    else ApplyBounds(Q, ops[0]); Fires(Q, ops[0]) + Fired(Apply(Q, ops[0]), ops[1..])
  }

  lemma {:induction false} RunConcat<E>(Q: Queue<E>, a: seq<Op<E>>, b: seq<Op<E>>)
    requires Q.df <= Q.bf <= |Q.q|
    ensures Run(Q, a + b) == Run(Run(Q, a), b)
    ensures Fired(Q, a + b) == Fired(Q, a) + Fired(Run(Q, a), b)
    decreases |a|
  {
    if a == [] {
      assert a + b == b;
    } else {
      assert (a + b)[0] == a[0] && (a + b)[1..] == a[1..] + b;
      ApplyBounds(Q, a[0]);
      RunConcat(Apply(Q, a[0]), a[1..], b);
    }
  }

  lemma {:induction false} RunValid<E>(Q: Queue<E>, ops: seq<Op<E>>)
    requires Valid(Q)
    ensures Valid(Run(Q, ops))
    decreases |ops|
  {
    if ops != [] {
      ApplyValid(Q, ops[0]);
      RunValid(Apply(Q, ops[0]), ops[1..]);
    }
  }
}
