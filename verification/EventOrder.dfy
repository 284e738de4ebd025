/** The ordering promises of the event queue over whole runs. */
module EventOrder {
  import opened EventQueue

  ghost predicate Before<E>(s: seq<E>, a: E, b: E) {
    exists i, j | 0 <= i < j < |s| :: s[i] == a && s[j] == b
  }

  /** In the firing sequence `f`, `b` never fires without an earlier firing of `a`. */
  ghost predicate FiresFirst<E>(f: seq<E>, a: E, b: E) {
    forall j | 0 <= j < |f| && f[j] == b :: a in f[..j]
  }

  ghost predicate Cancels<E>(ops: seq<Op<E>>, e: E) {
    Cancel(e) in ops
  }

  lemma InsertBefore<E>(s: seq<E>, k: nat, e: E, a: E, b: E)
    requires k <= |s| && Before(s, a, b)
    ensures Before(Insert(s, k, e), a, b)
  {
    var t := Insert(s, k, e);
    var i, j :| 0 <= i < j < |s| && s[i] == a && s[j] == b;
    var i', j' := if i < k then i else i + 1, if j < k then j else j + 1;
    assert t[i'] == a && t[j'] == b;
  }

  lemma RemoveBefore<E>(s: seq<E>, k: nat, a: E, b: E)
    requires k < |s| && Before(s, a, b) && s[k] != a && s[k] != b
    ensures Before(Remove(s, k), a, b)
  {
    var t := Remove(s, k);
    var i, j :| 0 <= i < j < |s| && s[i] == a && s[j] == b;
    var i', j' := if i < k then i else i - 1, if j < k then j else j - 1;
    assert t[i'] == a && t[j'] == b;
  }

  lemma TurnBefore<E>(Q: Queue<E>, a: E, b: E)
    requires Valid(Q) && Before(Q.q, a, b)
    ensures Q.q[0] == a || (Q.q[0] != b && Before(Q.q[1..], a, b))
  {
    var i, j :| 0 <= i < j < |Q.q| && Q.q[i] == a && Q.q[j] == b;
    if Q.q[0] != a {
      assert Q.q[1..][i - 1] == a && Q.q[1..][j - 1] == b;
    }
  }

  /** No operation reorders two queued events; only firing or disarming one of them separates them. */
  lemma OrderStep<E>(Q: Queue<E>, op: Op<E>, a: E, b: E)
    requires Valid(Q) && Before(Q.q, a, b) && op != Cancel(a) && op != Cancel(b)
    ensures Fires(Q, op) == [a] || (b !in Fires(Q, op) && Before(Apply(Q, op).q, a, b))
  {
    match op
    case DepthFirst(e) => InsertBefore(Q.q, Q.df, e, a, b); hide Insert, Before, NoDup;
    case BreadthFirst(e) => InsertBefore(Q.q, Q.bf, e, a, b); hide Insert, Before, NoDup;
    case Last(e) => InsertBefore(Q.q, Q.bf, e, a, b); hide Insert, Before, NoDup;
    case Cancel(e) => if e in Q.q { RemoveBefore(Q.q, IndexOf(Q.q, e), a, b); hide Remove, Before, NoDup; }
    case Turn => TurnBefore(Q, a, b);
    case _ => hide NoDup;
  }

  /** Events fire in queue order over any run that disarms neither. */
  lemma {:induction false} OrderKept<E>(Q: Queue<E>, ops: seq<Op<E>>, a: E, b: E)
    requires Valid(Q) && Before(Q.q, a, b) && !Cancels(ops, a) && !Cancels(ops, b)
    ensures FiresFirst(Fired(Q, ops), a, b)
    decreases |ops|
  {
    if ops != [] {
      var f, g := Fires(Q, ops[0]), Fired(Apply(Q, ops[0]), ops[1..]);
      OrderStep(Q, ops[0], a, b);
      if f == [a] {
        forall j | 0 <= j < |f + g| && (f + g)[j] == b ensures a in (f + g)[..j] {
          var i, k :| 0 <= i < k < |Q.q| && Q.q[i] == a && Q.q[k] == b;
          assert j > 0 && (f + g)[..j][0] == a;
        }
      } else {
        ApplyValid(Q, ops[0]);
        OrderKept(Apply(Q, ops[0]), ops[1..], a, b);
        FiresFirstAfter(f, g, a, b);
      }
    }
  }

  lemma FiresFirstAfter<E>(f: seq<E>, g: seq<E>, a: E, b: E)
    requires b !in f && FiresFirst(g, a, b)
    ensures FiresFirst(f + g, a, b)
  {
    var h := f + g;
    forall j | 0 <= j < |h| && h[j] == b ensures a in h[..j] {
      assert j >= |f| && g[j - |f|] == b;
      assert h[..j] == f + g[..j - |f|];
    }
  }

  /** Whether `e` is queued among the events ahead of the breadth-first insert point, or behind it. */
  ghost predicate Ahead<E>(Q: Queue<E>, e: E) {
    exists i | 0 <= i < |Q.q| && i < Q.bf :: Q.q[i] == e
  }

  ghost predicate Behind<E>(Q: Queue<E>, e: E) {
    exists i | Q.bf <= i < |Q.q| :: Q.q[i] == e
  }

  lemma InsertAt<E>(s: seq<E>, k: nat, e: E, i: nat)
    requires k <= |s| && i < |s|
    ensures |Insert(s, k, e)| == |s| + 1 && Insert(s, k, e)[if i < k then i else i + 1] == s[i]
  {
  }

  lemma RemoveAt<E>(s: seq<E>, k: nat, i: nat)
    requires k < |s| && i < |s| && i != k
    ensures |Remove(s, k)| == |s| - 1 && Remove(s, k)[if i < k then i else i - 1] == s[i]
  {
  }

  /** Where an event at position `i` stands after an operation that neither fires nor disarms it. */
  function Shifted<E(==)>(Q: Queue<E>, op: Op<E>, i: nat): int {
    match op
    case DepthFirst(e) => if Armed(Q, e) || i < Q.df then i else i + 1
    case BreadthFirst(e) => if Armed(Q, e) || i < Q.bf then i else i + 1
    case Last(e) => if Armed(Q, e) || i < Q.bf then i else i + 1
    case Cancel(e) => if e !in Q.q || i < IndexOf(Q.q, e) then i else i - 1
    case Turn => i - 1
    case _ => i
  }

  lemma ShiftedExact<E>(Q: Queue<E>, op: Op<E>, i: nat)
    requires Valid(Q) && i < |Q.q| && op != Cancel(Q.q[i]) && (op.Turn? ==> i > 0)
    ensures var k, R := Shifted(Q, op, i), Apply(Q, op);
            0 <= k < |R.q| && R.q[k] == Q.q[i] && (k < R.bf <==> i < Q.bf)
  {
    hide NoDup;
    match op
    case DepthFirst(e) => InsertAt(Q.q, Q.df, e, i); hide Insert;
    case BreadthFirst(e) => InsertAt(Q.q, Q.bf, e, i); hide Insert;
    case Last(e) => InsertAt(Q.q, Q.bf, e, i); hide Insert;
    case Cancel(e) => if e in Q.q { RemoveAt(Q.q, IndexOf(Q.q, e), i); hide Remove; }
    case _ =>
  }

  /** An event stays on its side of the breadth-first insert point until it fires or is disarmed. */
  lemma SideStep<E>(Q: Queue<E>, op: Op<E>, i: nat)
    requires Valid(Q) && i < |Q.q| && op != Cancel(Q.q[i]) && Q.q[i] !in Fires(Q, op)
    ensures i < Q.bf ==> Ahead(Apply(Q, op), Q.q[i])
    ensures i >= Q.bf ==> Behind(Apply(Q, op), Q.q[i])
  {
    ShiftedExact(Q, op, i);
    hide Apply, Shifted, Valid;
    assert Apply(Q, op).q[Shifted(Q, op, i)] == Q.q[i];
  }

  lemma {:induction false} SideKept<E>(Q: Queue<E>, ops: seq<Op<E>>, e: E)
    requires Valid(Q) && !Cancels(ops, e) && e !in Fired(Q, ops)
    ensures Ahead(Q, e) ==> Ahead(Run(Q, ops), e)
    ensures Behind(Q, e) ==> Behind(Run(Q, ops), e)
    decreases |ops|
  {
    if ops != [] {
      ApplyValid(Q, ops[0]);
      if Ahead(Q, e) {
        var i :| 0 <= i < |Q.q| && i < Q.bf && Q.q[i] == e;
        SideStep(Q, ops[0], i);
      }
      if Behind(Q, e) {
        var i :| Q.bf <= i < |Q.q| && Q.q[i] == e;
        SideStep(Q, ops[0], i);
      }
      SideKept(Apply(Q, ops[0]), ops[1..], e);
    }
  }

  /** Events armed breadth-first fire in the order they were armed, whatever else happens in between. */
  lemma BreadthFirstIsFifo<E>(Q: Queue<E>, a: E, mid: seq<Op<E>>, b: E, rest: seq<Op<E>>)
    requires Valid(Q) && !Armed(Q, a)
    requires !Cancels(mid, a) && a !in Fired(ArmBreadthFirst(Q, a), mid)
    requires !Armed(Run(ArmBreadthFirst(Q, a), mid), b)
    requires !Cancels(rest, a) && !Cancels(rest, b)
    ensures FiresFirst(Fired(ArmBreadthFirst(Run(ArmBreadthFirst(Q, a), mid), b), rest), a, b)
  {
    var A := Apply(Q, BreadthFirst(a));
    ApplyValid(Q, BreadthFirst(a));
    assert A.q[Q.bf] == a;
    SideKept(A, mid, a);
    RunValid(A, mid);
    var M := Run(A, mid);
    var i :| 0 <= i < |M.q| && i < M.bf && M.q[i] == a;
    var B := Apply(M, BreadthFirst(b));
    ApplyValid(M, BreadthFirst(b));
    InsertAt(M.q, M.bf, b, i);
    assert B.q[i] == a && B.q[M.bf] == b;
    OrderKept(B, rest, a, b);
  }

  /** Events armed last fire in the opposite order. */
  lemma LastIsLifo<E>(Q: Queue<E>, a: E, mid: seq<Op<E>>, b: E, rest: seq<Op<E>>)
    requires Valid(Q) && !Armed(Q, a)
    requires !Cancels(mid, a) && a !in Fired(ArmLast(Q, a), mid)
    requires !Armed(Run(ArmLast(Q, a), mid), b)
    requires !Cancels(rest, a) && !Cancels(rest, b)
    ensures FiresFirst(Fired(ArmLast(Run(ArmLast(Q, a), mid), b), rest), b, a)
  {
    var A := Apply(Q, Last(a));
    ApplyValid(Q, Last(a));
    assert A.q[Q.bf] == a;
    SideKept(A, mid, a);
    RunValid(A, mid);
    var M := Run(A, mid);
    var i :| M.bf <= i < |M.q| && M.q[i] == a;
    var B := Apply(M, Last(b));
    ApplyValid(M, Last(b));
    InsertAt(M.q, M.bf, b, i);
    assert B.q[i + 1] == a && B.q[M.bf] == b;
    OrderKept(B, rest, b, a);
  }

  // ---------------------------------------------------------------------------
  // Which events were armed last.

  /** Records of every queued event whether its latest arming was armLast. */
  function Track<E(==)>(K: map<E, bool>, Q: Queue<E>, op: Op<E>): map<E, bool> {
    match op
    case DepthFirst(e) => if Armed(Q, e) then K else K[e := false]
    case BreadthFirst(e) => if Armed(Q, e) then K else K[e := false]
    case Last(e) => if Armed(Q, e) then K else K[e := true]
    case PollSleeper => if Q.q == [] && Q.sleep != [] then K[Q.sleep[0] := false] else K
    case _ => K
  }

  function TrackRun<E(==)>(K: map<E, bool>, Q: Queue<E>, ops: seq<Op<E>>): map<E, bool>
    requires Q.df <= Q.bf <= |Q.q|
    decreases |ops|
  {
    if ops == [] then K else ApplyBounds(Q, ops[0]); TrackRun(Track(K, Q, ops[0]), Apply(Q, ops[0]), ops[1..])
  }

  /** The breadth-first insert point separates the events armed last from all others. */
  ghost predicate Sorted<E>(K: map<E, bool>, Q: Queue<E>) {
    forall i | 0 <= i < |Q.q| :: Q.q[i] in K && (K[Q.q[i]] <==> i >= Q.bf)
  }

  lemma SortedInsert<E>(K: map<E, bool>, Q: Queue<E>, i: nat, e: E, last: bool, R: Queue<E>)
    requires Valid(Q) && Sorted(K, Q) && i <= Q.bf && e !in Q.q
    requires R.q == Insert(Q.q, i, e)
    requires if last then i == Q.bf == R.bf else R.bf == Q.bf + 1
    ensures Sorted(K[e := last], R)
  {
    forall k | 0 <= k < |R.q| ensures R.q[k] in K[e := last] && (K[e := last][R.q[k]] <==> k >= R.bf) {
      if k < i { assert R.q[k] == Q.q[k]; } else if k > i { assert R.q[k] == Q.q[k - 1]; }
    }
  }

  lemma SortedRemove<E>(K: map<E, bool>, Q: Queue<E>, i: nat, R: Queue<E>)
    requires Valid(Q) && Sorted(K, Q) && i < |Q.q| && R.q == Remove(Q.q, i)
    requires R.bf == if Q.bf > i then Q.bf - 1 else Q.bf
    ensures Sorted(K, R)
  {
    forall k | 0 <= k < |R.q| ensures R.q[k] in K && (K[R.q[k]] <==> k >= R.bf) {
      if k < i { assert R.q[k] == Q.q[k]; } else { assert R.q[k] == Q.q[k + 1]; }
    }
  }

  lemma SortedSame<E>(K: map<E, bool>, Q: Queue<E>, R: Queue<E>)
    requires Sorted(K, Q) && R.q == Q.q && R.bf == Q.bf
    ensures Sorted(K, R)
  {
  }

  lemma SortedPoll<E>(K: map<E, bool>, Q: Queue<E>)
    requires Valid(Q) && Sorted(K, Q)
    ensures Sorted(Track(K, Q, PollSleeper), Apply(Q, PollSleeper))
  {
  }

  lemma SortedStep<E>(K: map<E, bool>, Q: Queue<E>, op: Op<E>)
    requires Valid(Q) && Sorted(K, Q)
    ensures Sorted(Track(K, Q, op), Apply(Q, op))
  {
    var R := Apply(Q, op);
    hide NoDup, Sorted;
    match op
    case DepthFirst(e) => if !Armed(Q, e) { SortedInsert(K, Q, Q.df, e, false, R); }
    case BreadthFirst(e) => if !Armed(Q, e) { SortedInsert(K, Q, Q.bf, e, false, R); }
    case Last(e) => if !Armed(Q, e) { SortedInsert(K, Q, Q.bf, e, true, R); }
    case Cancel(e) => if e in Q.q { SortedRemove(K, Q, IndexOf(Q.q, e), R); }
    case Turn => if Q.q != [] { assert R.q == Remove(Q.q, 0); SortedRemove(K, Q, 0, R); }
    case WhenWouldSleep(e) => SortedSame(K, Q, R);
    case FireDone => SortedSame(K, Q, R);
    case PollSleeper => SortedPoll(K, Q);
  }

  /** An event armed last fires only when no event armed in another way is queued, in every run. */
  lemma {:induction false} LastFiresAlone<E>(K: map<E, bool>, Q: Queue<E>, ops: seq<Op<E>>)
    requires Valid(Q) && Sorted(K, Q)
    ensures Sorted(TrackRun(K, Q, ops), Run(Q, ops))
    ensures var R, L := Run(Q, ops), TrackRun(K, Q, ops);
            R.q != [] && L[R.q[0]] ==> forall i | 0 <= i < |R.q| :: L[R.q[i]]
    decreases |ops|
  {
    if ops != [] {
      ApplyValid(Q, ops[0]);
      SortedStep(K, Q, ops[0]);
      LastFiresAlone(Track(K, Q, ops[0]), Apply(Q, ops[0]), ops[1..]);
    }
  }

  // ---------------------------------------------------------------------------
  // Depth-first arming.

  /** Keeps the list of the events armed depth-first and still queued, in arming order. */
  function NestedNext<E(==)>(Q: Queue<E>, op: Op<E>, d: seq<E>): seq<E> {
    match op
    case DepthFirst(e) => if Armed(Q, e) then d else d + [e]
    case Cancel(e) => if e in d then Remove(d, IndexOf(d, e)) else d
    case _ => d
  }

  function Nested<E(==)>(Q: Queue<E>, ops: seq<Op<E>>, d: seq<E>): seq<E>
    requires Q.df <= Q.bf <= |Q.q|
    decreases |ops|
  {
    if ops == [] then d
    else ApplyBounds(Q, ops[0]); Nested(Apply(Q, ops[0]), ops[1..], NestedNext(Q, ops[0], d))
  }

  /** Everything a callback does: it arms and disarms, but takes no turns. */
  ghost predicate InCallback<E>(ops: seq<Op<E>>) {
    forall i | 0 <= i < |ops| :: !ops[i].Turn? && !ops[i].FireDone? && !ops[i].PollSleeper?
  }

  lemma NestedCancel<E>(q: seq<E>, d: seq<E>, e: E)
    requires NoDup(q) && d <= q && e in q
    ensures e in d <==> IndexOf(q, e) < |d|
    ensures e in d ==> IndexOf(d, e) == IndexOf(q, e) && Remove(d, IndexOf(d, e)) <= Remove(q, IndexOf(q, e))
    ensures e !in d ==> d <= Remove(q, IndexOf(q, e))
  {
    var i := IndexOf(q, e);
    if i < |d| { assert d[i] == e; }
    if e in d {
      var k := IndexOf(d, e);
      assert q[k] == d[k] == e;
    }
  }

  lemma NestedStep<E>(Q: Queue<E>, op: Op<E>, d: seq<E>)
    requires Valid(Q) && !op.Turn? && !op.FireDone? && !op.PollSleeper? && d == Q.q[..Q.df]
    ensures NestedNext(Q, op, d) == Apply(Q, op).q[..Apply(Q, op).df]
  {
    hide NoDup;
    if op.Cancel? && op.e in Q.q { NestedCancel(Q.q, d, op.e); }
  }

  /** From the moment a callback starts, the events it arms depth-first stand, in arming
      order, in front of everything queued before and everything armed otherwise. */
  lemma {:induction false} DepthFirstRunsNext<E>(Q: Queue<E>, ops: seq<Op<E>>, d: seq<E>)
    requires Valid(Q) && InCallback(ops) && d == Q.q[..Q.df]
    ensures Run(Q, ops).q[..Run(Q, ops).df] == Nested(Q, ops, d)
    decreases |ops|
  {
    if ops != [] {
      ApplyValid(Q, ops[0]);
      NestedStep(Q, ops[0], d);
      hide Apply, Valid, NestedNext;
      DepthFirstRunsNext(Apply(Q, ops[0]), ops[1..], NestedNext(Q, ops[0], d));
    }
  }

  /** What a callback arms depth-first fires before everything else that is queued when it
      returns, and in arming order. */
  lemma DepthFirstFiresFirst<E>(Q: Queue<E>, ops: seq<Op<E>>, i: nat, x: E, rest: seq<Op<E>>)
    requires Valid(Q) && Q.df == 0 && InCallback(ops)
    requires i < |Nested(Q, ops, [])| && x in Run(Q, ops).q && x !in Nested(Q, ops, [])[..i + 1]
    requires !Cancels(rest, Nested(Q, ops, [])[i]) && !Cancels(rest, x)
    ensures FiresFirst(Fired(Run(Q, ops), [FireDone] + rest), Nested(Q, ops, [])[i], x)
  {
    DepthFirstRunsNext(Q, ops, []);
    RunValid(Q, ops);
    var R, d := Run(Q, ops), Nested(Q, ops, []);
    var j := IndexOf(R.q, x);
    assert forall k | 0 <= k <= i :: d[..i + 1][k] == R.q[k];
    assert R.q[i] == d[i] && R.q[j] == x;
    OrderKept(R, [FireDone] + rest, d[i], x);
  }

  // ---------------------------------------------------------------------------
  // Progress.

  function Turns<E>(ops: seq<Op<E>>): nat {
    if ops == [] then 0 else (if ops[0].Turn? then 1 else 0) + Turns(ops[1..])
  }

  /** With no depth-first arming, the event at a position below the insert point fires within
      one turn more than its position. */
  lemma {:induction false} FiresInTime<E>(Q: Queue<E>, ops: seq<Op<E>>, i: nat)
    requires Valid(Q) && i < Q.bf && !Cancels(ops, Q.q[i]) && Turns(ops) > i
    requires forall k | 0 <= k < |ops| :: !ops[k].DepthFirst?
    ensures Q.q[i] in Fired(Q, ops)
    decreases |ops|
  {
    var op := ops[0];
    ApplyValid(Q, op);
    if !op.Turn? || i > 0 {
      ShiftedExact(Q, op, i);
      assert Shifted(Q, op, i) <= if op.Turn? then i - 1 else i;
      hide Apply, Shifted, Valid;
      FiresInTime(Apply(Q, op), ops[1..], Shifted(Q, op, i));
    }
  }
}
