/** Accepting connections from several receivers at once (AggregateConnectionReceiver,
    libraries/zc/async/async-io.cc). */
module AggregateAccept {

  /** An accept loop: none, waiting for its receiver, or about to decide whether to go on. */
  datatype Task = NoTask | Accepting | Deciding

  /** A connection or an error handed to the call of `accept` with that number. */
  datatype Served = Served(call: nat, conn: int)

  /** `waiters` are the numbers of calls that wait. `calls`, `accepted` and `served` record what
      has happened: how many calls were made, what receivers accepted, and who got what. */
  datatype State = State(
    tasks: seq<Task>,
    waiters: seq<nat>,
    backlog: seq<int>,
    calls: nat,
    accepted: seq<int>,
    served: seq<Served>)

  datatype Event =
    | Accept                       // a call of accept
    | Complete(i: nat, conn: int)  // receiver i accepts a connection or fails
    | Decide(i: nat)               // the second continuation of accept loop i
    | Cancel(k: nat)               // the promise of the k-th waiter is dropped

  function Init(n: nat): State {
    State(seq(n, i => NoTask), [], [], 0, [], [])
  }

  predicate Enabled(s: State, e: Event) {
    match e
    case Accept => true
    case Complete(i, _) => i < |s.tasks| && s.tasks[i] == Accepting
    case Decide(i) => i < |s.tasks| && s.tasks[i] == Deciding
    case Cancel(k) => k < |s.waiters|
  }

  function Start(t: Task): Task {
    if t == NoTask then Accepting else t
  }

  function Step(s: State, e: Event): State
    requires Enabled(s, e)
  {
    match e
    case Accept =>
      if s.backlog == [] then
        s.(waiters := s.waiters + [s.calls], calls := s.calls + 1,
           tasks := seq(|s.tasks|, i requires 0 <= i < |s.tasks| => Start(s.tasks[i])))
      else
        s.(backlog := s.backlog[1..], calls := s.calls + 1, served := s.served + [Served(s.calls, s.backlog[0])])
    case Complete(i, conn) =>
      var t := s.(tasks := s.tasks[i := Deciding], accepted := s.accepted + [conn]);
      if s.waiters == [] then t.(backlog := s.backlog + [conn])
      else t.(waiters := s.waiters[1..], served := s.served + [Served(s.waiters[0], conn)])
    case Decide(i) => s.(tasks := s.tasks[i := if s.waiters == [] then NoTask else Accepting])
    case Cancel(k) => s.(waiters := s.waiters[..k] + s.waiters[k + 1..])
  }

  predicate AllEnabled(s: State, es: seq<Event>)
    decreases |es|
  {
    es == [] || (Enabled(s, es[0]) && AllEnabled(Step(s, es[0]), es[1..]))
  }

  function Run(s: State, es: seq<Event>): State
    requires AllEnabled(s, es)
    decreases |es|
  {
    if es == [] then s else Run(Step(s, es[0]), es[1..])
  }

  // ---------------------------------------------------------------------------
  // Invariants.

  /** The number of receivers that are accepting. */
  function Count(tasks: seq<Task>): nat {
    if tasks == [] then 0 else (if tasks[0] == Accepting then 1 else 0) + Count(tasks[1..])
  }

  function Conns(served: seq<Served>): seq<int> {
    if served == [] then [] else [served[0].conn] + Conns(served[1..])
  }

  predicate CallsInOrder(served: seq<Served>, waiters: seq<nat>, calls: nat) {
    && (forall i, j | 0 <= i < j < |served| :: served[i].call < served[j].call)
    && (forall i, j | 0 <= i < |served| && 0 <= j < |waiters| :: served[i].call < waiters[j])
    && (forall i, j | 0 <= i < j < |waiters| :: waiters[i] < waiters[j])
    && (forall i | 0 <= i < |served| :: served[i].call < calls)
    && (forall j | 0 <= j < |waiters| :: waiters[j] < calls)
  }

  predicate Inv(s: State) {
    && (s.waiters == [] || s.backlog == [])
    && (s.waiters != [] ==> forall i | 0 <= i < |s.tasks| :: s.tasks[i] != NoTask)
    && |s.backlog| + Count(s.tasks) <= |s.tasks|
    && s.accepted == Conns(s.served) + s.backlog
    && CallsInOrder(s.served, s.waiters, s.calls)
  }

  lemma {:induction false} CountBound(tasks: seq<Task>)
    ensures Count(tasks) <= |tasks|
  {
    if tasks != [] { CountBound(tasks[1..]); }
  }

  /** Changing one slot changes the count by what that slot contributes. */
  lemma {:induction false} CountUpdate(tasks: seq<Task>, i: nat, t: Task)
    requires i < |tasks|
    ensures Count(tasks[i := t]) + (if tasks[i] == Accepting then 1 else 0) ==
            Count(tasks) + (if t == Accepting then 1 else 0)
  {
    if i > 0 {
      CountUpdate(tasks[1..], i - 1, t);
      assert tasks[i := t][1..] == tasks[1..][i - 1 := t];
    } else {
      assert tasks[0 := t][1..] == tasks[1..];
    }
  }

  lemma {:induction false} ConnsAppend(served: seq<Served>, x: Served)
    ensures Conns(served + [x]) == Conns(served) + [x.conn]
    decreases |served|
  {
    if served == [] {
      assert [x][1..] == [];
    } else {
      ConnsAppend(served[1..], x);
      assert (served + [x])[1..] == served[1..] + [x];
    }
  }

  lemma InitCount(n: nat)
    ensures Count(Init(n).tasks) == 0
  {
    if n > 0 {
      assert Init(n).tasks[1..] == Init(n - 1).tasks;
      InitCount(n - 1);
    }
  }

  lemma InitInv(n: nat)
    ensures Inv(Init(n))
  {
    InitCount(n);
  }

  lemma AcceptInv(s: State)
    requires Inv(s)
    ensures Inv(Step(s, Accept))
  {
    hide Count, Conns;
    var t := Step(s, Accept);
    if s.backlog == [] {
      CountBound(t.tasks);
    } else {
      ConnsAppend(s.served, Served(s.calls, s.backlog[0]));
      assert (Conns(s.served) + [s.backlog[0]]) + s.backlog[1..] == Conns(s.served) + s.backlog;
    }
  }

  lemma CompleteInv(s: State, i: nat, conn: int)
    requires Inv(s) && Enabled(s, Complete(i, conn))
    ensures Inv(Step(s, Complete(i, conn)))
  {
    hide Count, Conns;
    CountUpdate(s.tasks, i, Deciding);
    if s.waiters == [] {
      assert (Conns(s.served) + s.backlog) + [conn] == Conns(s.served) + (s.backlog + [conn]);
    } else {
      ConnsAppend(s.served, Served(s.waiters[0], conn));
    }
  }

  lemma DecideInv(s: State, i: nat)
    requires Inv(s) && Enabled(s, Decide(i))
    ensures Inv(Step(s, Decide(i)))
  {
    hide Count, Conns;
    CountUpdate(s.tasks, i, if s.waiters == [] then NoTask else Accepting);
    CountBound(Step(s, Decide(i)).tasks);
  }

  lemma CancelInv(s: State, k: nat)
    requires Inv(s) && Enabled(s, Cancel(k))
    ensures Inv(Step(s, Cancel(k)))
  {
    hide Count, Conns;
  }

  lemma StepInv(s: State, e: Event)
    requires Inv(s) && Enabled(s, e)
    ensures Inv(Step(s, e)) && |Step(s, e).tasks| == |s.tasks|
  {
    hide Inv;
    match e
    case Accept => AcceptInv(s);
    case Complete(i, conn) => CompleteInv(s, i, conn);
    case Decide(i) => DecideInv(s, i);
    case Cancel(k) => CancelInv(s, k);
  }

  lemma {:induction false} RunInv(s: State, es: seq<Event>)
    requires Inv(s) && AllEnabled(s, es)
    ensures Inv(Run(s, es)) && |Run(s, es).tasks| == |s.tasks|
    decreases |es|
  {
    hide Inv, Step, Enabled;
    if es != [] {
      StepInv(s, es[0]);
      RunInv(Step(s, es[0]), es[1..]);
    }
  }

  // ---------------------------------------------------------------------------
  // What callers get.

  /** In every run calls never wait while there is a backlog, the backlog is no longer than there
      are receivers, and while a call waits every receiver has an accept loop. */
  lemma NeverBoth(n: nat, es: seq<Event>)
    requires AllEnabled(Init(n), es)
    ensures var s := Run(Init(n), es);
            && (s.waiters == [] || s.backlog == [])
            && |s.backlog| <= n && |s.tasks| == n
            && (s.waiters != [] ==> forall i | 0 <= i < n :: s.tasks[i] != NoTask)
  {
    InitInv(n);
    RunInv(Init(n), es);
  }

  /** In every run what receivers accept goes to calls in the order of both, each connection to
      one call and each call at most one; what no call has got yet is the backlog. */
  lemma InOrderOnce(n: nat, es: seq<Event>)
    requires AllEnabled(Init(n), es)
    ensures var s := Run(Init(n), es);
            && s.accepted == Conns(s.served) + s.backlog
            && forall i, j | 0 <= i < j < |s.served| :: s.served[i].call < s.served[j].call
  {
    InitInv(n);
    RunInv(Init(n), es);
  }

  /** The numbers of the calls that are given up in a run. */
  function GivenUp(s: State, es: seq<Event>): seq<nat>
    requires AllEnabled(s, es)
    decreases |es|
  {
    if es == [] then []
    else (if es[0].Cancel? then [s.waiters[es[0].k]] else []) + GivenUp(Step(s, es[0]), es[1..])
  }

  ghost predicate IsServed(s: State, call: nat) {
    exists i :: 0 <= i < |s.served| && s.served[i].call == call
  }

  /** Every call made is in one place. */
  ghost predicate Accounted(s: State, givenUp: seq<nat>) {
    && (forall c: nat | c < s.calls :: IsServed(s, c) || c in s.waiters || c in givenUp)
    && (forall c: nat | c in givenUp :: c < s.calls && !IsServed(s, c) && c !in s.waiters)
  }

  /** A call leaves the waiters by being served or given up. */
  lemma CallStays(s: State, e: Event, c: nat)
    requires Inv(s) && Enabled(s, e)
    ensures var t := Step(s, e);
            var gone := e.Cancel? && s.waiters[e.k] == c;
            && (IsServed(s, c) ==> IsServed(t, c))
            && (c in s.waiters && !gone ==> c in t.waiters || IsServed(t, c))
            && (e == Accept && c == s.calls ==> c in t.waiters || IsServed(t, c))
            && (gone ==> c !in t.waiters && !IsServed(t, c))
            && (c < s.calls && c !in s.waiters && !IsServed(s, c) ==> c !in t.waiters && !IsServed(t, c))
  {
    hide Count, Conns;
    var t := Step(s, e);
    if IsServed(s, c) {
      var i :| 0 <= i < |s.served| && s.served[i].call == c;
      assert t.served[i].call == c;
    }
    match e
    case Accept =>
      if s.backlog == [] {
        assert t.waiters[|s.waiters|] == s.calls;
      } else {
        assert t.served[|s.served|].call == s.calls;
      }
    case Complete(_, _) =>
      if s.waiters != [] { assert t.served[|s.served|].call == s.waiters[0]; }
    case Decide(_) =>
    case Cancel(k) => CancelledStays(s, k, c);
  }

  lemma CancelledStays(s: State, k: nat, c: nat)
    requires Inv(s) && k < |s.waiters|
    ensures c in Step(s, Cancel(k)).waiters <==> c in s.waiters && c != s.waiters[k]
    ensures !IsServed(s, s.waiters[k])
  {
    var w := Step(s, Cancel(k)).waiters;
    assert forall i | 0 <= i < |w| :: w[i] == s.waiters[if i < k then i else i + 1];
    if c in s.waiters && c != s.waiters[k] {
      var i :| 0 <= i < |s.waiters| && s.waiters[i] == c;
      assert w[if i < k then i else i - 1] == c;
    }
    hide Count, Conns;
  }

  lemma AccountedStep(s: State, e: Event, givenUp: seq<nat>)
    requires Inv(s) && Enabled(s, e) && Accounted(s, givenUp)
    ensures Accounted(Step(s, e), givenUp + if e.Cancel? then [s.waiters[e.k]] else [])
  {
    var t, g := Step(s, e), givenUp + if e.Cancel? then [s.waiters[e.k]] else [];
    forall c: nat | c < t.calls ensures IsServed(t, c) || c in t.waiters || c in g { CallStays(s, e, c); }
    forall c: nat | c in g ensures c < t.calls && !IsServed(t, c) && c !in t.waiters { CallStays(s, e, c); }
    hide Count, Conns, IsServed;
  }

  lemma {:induction false} AccountedRun(s: State, es: seq<Event>, givenUp: seq<nat>)
    requires Inv(s) && AllEnabled(s, es) && Accounted(s, givenUp)
    ensures Accounted(Run(s, es), givenUp + GivenUp(s, es))
    decreases |es|
  {
    assert es != [] && es[0].Cancel? ==> es[0].k < |s.waiters|;
    hide Inv, Step, Enabled, Accounted;
    if es == [] {
      assert givenUp + [] == givenUp;
    } else {
      var one := if es[0].Cancel? then [s.waiters[es[0].k]] else [];
      AccountedStep(s, es[0], givenUp);
      StepInv(s, es[0]);
      AccountedRun(Step(s, es[0]), es[1..], givenUp + one);
      var rest := GivenUp(Step(s, es[0]), es[1..]);
      assert (givenUp + one) + rest == givenUp + (one + rest);
    }
  }

  /** In every run each call is served, waits or has been given up, and only one of these. */
  lemma EveryCall(n: nat, es: seq<Event>, c: nat)
    requires AllEnabled(Init(n), es) && c < Run(Init(n), es).calls
    ensures var s := Run(Init(n), es);
            && (IsServed(s, c) || c in s.waiters || c in GivenUp(Init(n), es))
            && !(IsServed(s, c) && c in s.waiters)
            && (c in GivenUp(Init(n), es) ==> !IsServed(s, c) && c !in s.waiters)
  {
    InitInv(n);
    RunInv(Init(n), es);
    AccountedRun(Init(n), es, []);
    assert [] + GivenUp(Init(n), es) == GivenUp(Init(n), es);
    hide Run, Count, Conns;
  }

  /** An accept loop that has to decide goes on if a call waits and ends otherwise; so while a call
      waits each receiver is accepting, or is once its loop has decided. */
  lemma LoopsGoOn(n: nat, es: seq<Event>, i: nat)
    requires AllEnabled(Init(n), es) && i < n
    ensures var s := Run(Init(n), es);
            && |s.tasks| == n
            && (s.waiters != [] ==> s.tasks[i] == Accepting || Enabled(s, Decide(i)))
            && (Enabled(s, Decide(i)) ==>
                 var t := Step(s, Decide(i));
                 && (t.tasks[i] == Accepting <==> s.waiters != []) && t.tasks[i] != Deciding
                 && t.waiters == s.waiters && t.backlog == s.backlog)
  {
    InitInv(n);
    RunInv(Init(n), es);
    hide Count, Conns, Run;
  }

  /** The only call that waits is given up while every receiver is accepting on its behalf. */
  predicate GivesUp(s: State, e: Event) {
    e.Cancel? && |s.waiters| == 1 && forall i | 0 <= i < |s.tasks| :: s.tasks[i] == Accepting
  }

  predicate NeverGivesUp(s: State, es: seq<Event>)
    requires AllEnabled(s, es)
    decreases |es|
  {
    es == [] || (!GivesUp(s, es[0]) && NeverGivesUp(Step(s, es[0]), es[1..]))
  }

  /** Without a waiter, one receiver at least is neither accepting nor has filled the backlog. */
  predicate Spare(s: State) {
    s.waiters == [] ==> |s.backlog| + Count(s.tasks) < |s.tasks|
  }

  lemma {:induction false} FullCount(tasks: seq<Task>)
    ensures Count(tasks) == |tasks| <==> forall i | 0 <= i < |tasks| :: tasks[i] == Accepting
  {
    if tasks != [] {
      FullCount(tasks[1..]);
      CountBound(tasks[1..]);
      if Count(tasks) == |tasks| {
        assert forall i | 0 < i < |tasks| :: tasks[i] == tasks[1..][i - 1];
      }
    }
  }

  lemma StepSpare(s: State, e: Event)
    requires Inv(s) && Enabled(s, e) && Spare(s) && |s.tasks| > 0 && !GivesUp(s, e)
    ensures Spare(Step(s, e))
  {
    hide Count, Conns;
    match e
    case Accept =>
    case Complete(i, _) => CountUpdate(s.tasks, i, Deciding);
    case Decide(i) => CountUpdate(s.tasks, i, if s.waiters == [] then NoTask else Accepting);
    case Cancel(_) => FullCount(s.tasks);
  }

  lemma {:induction false} RunSpare(s: State, es: seq<Event>)
    requires Inv(s) && AllEnabled(s, es) && Spare(s) && |s.tasks| > 0 && NeverGivesUp(s, es)
    ensures Spare(Run(s, es))
    decreases |es|
  {
    hide Inv, Step, Enabled, Spare, GivesUp;
    if es != [] {
      StepInv(s, es[0]);
      StepSpare(s, es[0]);
      RunSpare(Step(s, es[0]), es[1..]);
    }
  }

  /** The bound of one less than the number of receivers holds if the only waiter is never given
      up while every receiver is accepting. */
  lemma ShorterBacklog(n: nat, es: seq<Event>)
    requires n > 0 && AllEnabled(Init(n), es) && NeverGivesUp(Init(n), es)
    ensures |Run(Init(n), es).backlog| < n
  {
    InitInv(n);
    InitCount(n);
    RunInv(Init(n), es);
    RunSpare(Init(n), es);
  }

  /** All receivers from `i` on complete, one after another. */
  function Completions(i: nat, n: nat): seq<Event>
    requires i <= n
    decreases n - i
  {
    if i == n then [] else [Complete(i, 0)] + Completions(i + 1, n)
  }

  lemma {:induction false} AllComplete(s: State, i: nat)
    requires s.waiters == [] && i <= |s.tasks| && |s.backlog| == i
    requires forall k | i <= k < |s.tasks| :: s.tasks[k] == Accepting
    ensures AllEnabled(s, Completions(i, |s.tasks|))
    ensures |Run(s, Completions(i, |s.tasks|)).backlog| == |s.tasks|
    decreases |s.tasks| - i
  {
    if i < |s.tasks| {
      var es := Completions(i, |s.tasks|);
      assert es[1..] == Completions(i + 1, |s.tasks|);
      AllComplete(Step(s, Complete(i, 0)), i + 1);
    }
  }

  /** And if it is given up then, the backlog can become as long as there are receivers. */
  lemma LongerBacklog(s: State, e: Event)
    requires Inv(s) && Enabled(s, e) && GivesUp(s, e)
    ensures exists es :: AllEnabled(Step(s, e), es) && |Run(Step(s, e), es).backlog| == |s.tasks|
  {
    AllComplete(Step(s, e), 0);
    hide Count, Conns;
  }

  /** A run in which it becomes that long: a call starts all accept loops and is given up, and
      every receiver accepts. The documented bound is exceeded for every number of receivers. */
  lemma BacklogCanBeFull(n: nat)
    requires n > 0
    ensures exists es :: AllEnabled(Init(n), es) && |Run(Init(n), es).backlog| == n
  {
    var called := Step(Init(n), Accept);
    var alone := Step(called, Cancel(0));
    AllComplete(alone, 0);
    var rest := Completions(0, n);
    Prepend(called, Cancel(0), rest);
    Prepend(Init(n), Accept, [Cancel(0)] + rest);
    hide Completions, Run, AllEnabled, Count;
  }

  lemma Prepend(s: State, e: Event, es: seq<Event>)
    requires Enabled(s, e) && AllEnabled(Step(s, e), es)
    ensures AllEnabled(s, [e] + es) && Run(s, [e] + es) == Run(Step(s, e), es)
  {
    assert ([e] + es)[1..] == es;
    hide Step, Enabled;
  }

  // ---------------------------------------------------------------------------
  // The program.

  lemma {:induction false} Extend(s: State, es: seq<Event>, e: Event)
    requires AllEnabled(s, es) && Enabled(Run(s, es), e)
    ensures AllEnabled(s, es + [e]) && Run(s, es + [e]) == Step(Run(s, es), e)
    decreases |es|
  {
    hide Enabled, Step;
    if es == [] {
      assert ([] + [e])[1..] == [];
    } else {
      assert (es + [e])[0] == es[0] && (es + [e])[1..] == es[1..] + [e];
      Extend(Step(s, es[0]), es[1..], e);
    }
  }

  /** The state after a run of these events. */
  ghost predicate Reached(n: nat, es: seq<Event>, s: State) {
    AllEnabled(Init(n), es) && Run(Init(n), es) == s
  }

  class AggregateConnectionReceiver {
    const acceptTasks: array<Task>
    var waiters: seq<nat>
    var backlog: seq<int>
    var calls: nat
    var accepted: seq<int>
    var served: seq<Served>
    /** The events so far. */
    ghost var events: seq<Event>

    ghost function View(): State
      reads this, acceptTasks
    {
      State(acceptTasks[..], waiters, backlog, calls, accepted, served)
    }

    /** The object is where the events so far have led the machine. */
    ghost predicate Valid()
      reads this, acceptTasks
    {
      Inv(View()) && Reached(acceptTasks.Length, events, View())
    }

    lemma Advance(e: Event)
      requires Valid() && Enabled(View(), e)
      ensures Inv(Step(View(), e)) && Reached(acceptTasks.Length, events + [e], Step(View(), e))
    {
      hide Inv, Step;
      StepInv(View(), e);
      Extend(Init(acceptTasks.Length), events, e);
    }

    constructor (receivers: nat)
      ensures Valid() && View() == Init(receivers) && fresh(acceptTasks) && events == []
    {
      acceptTasks := new Task[receivers](i => NoTask);
      waiters, backlog, calls, accepted, served, events := [], [], 0, [], [], [];
      new;
      hide Inv;
      InitInv(receivers);
      assert acceptTasks[..] == Init(receivers).tasks;
    }

    method EnsureAllAccepting()
      modifies acceptTasks
      ensures forall i | 0 <= i < acceptTasks.Length :: acceptTasks[i] == Start(old(acceptTasks[i]))
    {
      var i := 0;
      while i < acceptTasks.Length
        invariant i <= acceptTasks.Length
        invariant forall k | 0 <= k < i :: acceptTasks[k] == Start(old(acceptTasks[k]))
        invariant forall k | i <= k < acceptTasks.Length :: acceptTasks[k] == old(acceptTasks[k])
      {
        if acceptTasks[i] == NoTask { acceptTasks[i] := Accepting; }
        i := i + 1;
      }
    }

    /** acceptAuthenticated: a waiter, or the first of the backlog. */
    method Accept()
      requires Valid()
      modifies this, acceptTasks
      ensures Valid() && View() == Step(old(View()), Event.Accept)
      ensures events == old(events) + [Event.Accept]
    {
      Advance(Event.Accept);
      events := events + [Event.Accept];
      hide Inv, Reached;
      WaitOrTake();
    }

    method WaitOrTake()
      modifies `waiters, `backlog, `calls, `served, acceptTasks
      ensures View() == Step(old(View()), Event.Accept)
    {
      ghost var s := View();
      if backlog == [] {
        waiters := waiters + [calls];
        calls := calls + 1;
        EnsureAllAccepting();
        assert acceptTasks[..] == Step(s, Event.Accept).tasks;
      } else {
        served := served + [Served(calls, backlog[0])];
        backlog := backlog[1..];
        calls := calls + 1;
      }
    }

    /** acceptLoop's first continuation. */
    method Complete(i: nat, conn: int)
      requires Valid() && Enabled(View(), Event.Complete(i, conn))
      modifies this, acceptTasks
      ensures Valid() && View() == Step(old(View()), Event.Complete(i, conn))
      ensures events == old(events) + [Event.Complete(i, conn)]
    {
      Advance(Event.Complete(i, conn));
      events := events + [Event.Complete(i, conn)];
      hide Inv, Reached;
      accepted := accepted + [conn];
      if waiters == [] {
        backlog := backlog + [conn];
      } else {
        served := served + [Served(waiters[0], conn)];
        waiters := waiters[1..];
      }
      acceptTasks[i] := Deciding;
    }

    /** acceptLoop's second continuation. */
    method Decide(i: nat)
      requires Valid() && Enabled(View(), Event.Decide(i))
      modifies `events, acceptTasks
      ensures Valid() && View() == Step(old(View()), Event.Decide(i))
      ensures events == old(events) + [Event.Decide(i)]
    {
      Advance(Event.Decide(i));
      events := events + [Event.Decide(i)];
      hide Inv, Reached;
      if waiters == [] { acceptTasks[i] := NoTask; } else { acceptTasks[i] := Accepting; }
    }

    /** ~Waiter */
    method Cancel(k: nat)
      requires Valid() && Enabled(View(), Event.Cancel(k))
      modifies `waiters, `events
      ensures Valid() && View() == Step(old(View()), Event.Cancel(k))
      ensures events == old(events) + [Event.Cancel(k)]
    {
      Advance(Event.Cancel(k));
      events := events + [Event.Cancel(k)];
      hide Inv, Reached;
      waiters := waiters[..k] + waiters[k + 1..];
    }
  }
}
