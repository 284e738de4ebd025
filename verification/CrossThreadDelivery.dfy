/** Delivery of the cross-thread promise: a poll dispatches what has been fulfilled, a result always
    can reach the waiter, and a waiter that comes first cancels. */
module CrossThreadDelivery {
  import opened CrossThread
  import opened CrossThreadProgress

  /** A whole poll of the waiter's list. */
  const Poll: seq<Action> := [BeginPoll, WaiterStep, WaiterStep, WaiterStep]

  lemma RunPoll(s: State)
    ensures Run(s, Poll) == WaiterNext(WaiterNext(WaiterNext(Next(s, BeginPoll))))
  {
    assert Poll[1..] == [WaiterStep, WaiterStep, WaiterStep] && Poll[1..][1..] == [WaiterStep, WaiterStep];
    assert Poll[1..][1..][1..] == [WaiterStep];
    hide WaiterNext;
  }

  /** A poll alone takes a fulfilled object off the list and marks it dispatched, and gives the lock
      back; no call is disturbed. */
  lemma PollDispatches(n: nat, schedule: seq<Action>)
    requires var s := Run(Init(n), schedule); s.listed && s.waiter == Free && s.lock == Nobody
    ensures var (s, t) := (Run(Init(n), schedule), Run(Run(Init(n), schedule), Poll));
            t == s.(paf := Dispatched, listed := false) && |t.written| == 1
  {
    InitInv(n);
    RunInv(Init(n), schedule);
    RunPoll(Run(Init(n), schedule));
    hide Run;
  }

  /** A poll that finds nothing, when nobody is fulfilling, changes nothing. */
  lemma EmptyPoll(s: State)
    requires !s.listed && s.waiter == Free && s.lock == Nobody
    ensures Run(s, [BeginPoll, WaiterStep, WaiterStep]) == s
  {
    assert [BeginPoll, WaiterStep, WaiterStep][1..] == [WaiterStep, WaiterStep];
    assert [WaiterStep, WaiterStep][1..] == [WaiterStep];
  }

  /** The first call that gets to run at all. */
  function FirstCaller(schedule: seq<Action>, n: nat): Holder {
    if schedule == [] then Nobody
    else if schedule[0].CallStep? && schedule[0].i < n then Fulfiller(schedule[0].i)
    else FirstCaller(schedule[1..], n)
  }

  /** Only a call that has taken the object writes, and it writes its own result. */
  ghost predicate OwnResult(s: State) {
    && (s.taker == Nobody ==> s.pointer && s.written == [] && forall i | 0 <= i < |s.calls| :: s.calls[i] == Exchange)
    && (s.written != [] ==> s.taker.Fulfiller? && s.written == [s.taker.i])
  }

  lemma OwnStep(s: State, a: Action)
    requires Inv(s) && OwnResult(s)
    ensures OwnResult(Next(s, a))
    ensures Next(s, a).taker ==
            if s.taker == Nobody && a.CallStep? && a.i < |s.calls| then Fulfiller(a.i) else s.taker
  {
    match a
    case CallStep(i) => if i < |s.calls| { OwnCall(s, i); }
    case WaiterStep => hide Inv;
    case _ =>
  }

  lemma OwnCall(s: State, i: nat)
    requires Inv(s) && OwnResult(s) && i < |s.calls|
    ensures OwnResult(CallNext(s, i))
    ensures CallNext(s, i).taker == if s.taker == Nobody then Fulfiller(i) else s.taker
  {
    if s.calls[i] != Exchange && s.calls[i] != Done { CallerIsTaker(s, i); }
  }

  lemma {:induction false} OwnRun(s: State, schedule: seq<Action>)
    requires Inv(s) && OwnResult(s)
    ensures OwnResult(Run(s, schedule))
    ensures Run(s, schedule).taker == if s.taker == Nobody then FirstCaller(schedule, |s.calls|) else s.taker
    decreases |schedule|
  {
    if schedule != [] {
      OwnStep(s, schedule[0]);
      NextInv(s, schedule[0]);
      hide Inv, Next, OwnResult;
      OwnRun(Next(s, schedule[0]), schedule[1..]);
    }
  }

  /** Of all calls the first one to start fulfills the promise: what is written is its result. */
  lemma FirstCallWins(n: nat, schedule: seq<Action>)
    ensures var s := Run(Init(n), schedule);
            s.written == [] || (FirstCaller(schedule, n).Fulfiller? && s.written == [FirstCaller(schedule, n).i])
  {
    InitInv(n);
    OwnRun(Init(n), schedule);
    hide Run, FirstCaller;
  }

  predicate NoDestroy(schedule: seq<Action>) {
    forall i | 0 <= i < |schedule| :: schedule[i] != BeginDestroy
  }

  lemma {:induction false} RunConcat(s: State, a: seq<Action>, b: seq<Action>)
    ensures Run(s, a + b) == Run(Run(s, a), b)
    decreases |a|
  {
    hide Next;
    if a == [] {
      assert a + b == b;
    } else {
      assert (a + b)[0] == a[0] && (a + b)[1..] == a[1..] + b;
      RunConcat(Next(s, a[0]), a[1..], b);
    }
  }

  lemma NextWaiter(s: State, a: Action)
    ensures |Next(s, a).calls| == |s.calls|
    ensures Next(s, a).waiter ==
            (match a
             case BeginPoll => if s.waiter == Free && s.lock == Nobody then PollRemove else s.waiter
             case BeginDestroy => if s.waiter == Free then Load else s.waiter
             case WaiterStep => WaiterMove(s)
             case CallStep(_) => s.waiter)
  {
    match a
    case WaiterStep => WaiterMoves(s);
    case CallStep(i) => if i < |s.calls| { CallMoves(s, i); }
    case _ =>
    hide WaiterNext, CallNext, WaiterMove, CallMove;
  }

  /** Steps under way do not make a free waiter begin anything. */
  lemma {:induction false} StaysFree(s: State, schedule: seq<Action>)
    requires s.waiter == Free && OnlySteps(schedule)
    ensures Run(s, schedule).waiter == Free && |Run(s, schedule).calls| == |s.calls|
    decreases |schedule|
  {
    if schedule != [] {
      NextWaiter(s, schedule[0]);
      assert IsStep(schedule[0]);
      hide Next;
      StaysFree(Next(s, schedule[0]), schedule[1..]);
    }
  }

  /** When all calls have returned and the waiter has kept its promise the result is there. */
  lemma AllReturned(s: State)
    requires Inv(s) && s.waiter == Free && !Busy(s) && |s.calls| > 0
    ensures s.lock == Nobody && |s.written| == 1 && (s.paf == Dispatched || s.listed)
  {
    assert s.calls[0] == Done;
  }

  /** From every reachable state in which the waiter is not polling or destroying, and as long as it
      does not destroy its promise, the calls and a poll can bring it the result. */
  lemma ResultCanArrive(n: nat, schedule: seq<Action>)
    requires n > 0 && Run(Init(n), schedule).waiter == Free
    ensures exists more :: NoDestroy(more) &&
              var t := Run(Run(Init(n), schedule), more); t.paf == Dispatched && |t.written| == 1 && t.waiter == Free
  {
    InitInv(n);
    RunInv(Init(n), schedule);
    var s := Run(Init(n), schedule);
    FinishFrom(s);
    var calls :| Finishes(s, calls);
    StaysFree(s, calls);
    RunInv(s, calls);
    var t := Run(s, calls);
    AllReturned(t);
    assert forall i | 0 <= i < |calls| :: IsStep(calls[i]);
    if t.paf == Dispatched {
      assert NoDestroy(calls);
    } else {
      RunPoll(t);
      assert Run(t, Poll) == t.(paf := Dispatched, listed := false);
      RunConcat(s, calls, Poll);
      assert NoDestroy(calls + Poll);
    }
    hide Run, Inv, Busy, Finishes;
  }

  /** A waiter that destroys its promise before any call has claimed it cancels, without waiting. */
  lemma DestroyCancels(s: State)
    requires s.waiter == Free && s.paf == Waiting
    ensures var t := Run(s, [BeginDestroy, WaiterStep, WaiterStep]); t.waiter == Gone && t.paf == Canceled
  {
    assert [BeginDestroy, WaiterStep, WaiterStep][1..] == [WaiterStep, WaiterStep];
    assert [WaiterStep, WaiterStep][1..] == [WaiterStep];
  }

  /** From every reachable state the run can be completed, and then the object has been deleted once. */
  lemma CanComplete(n: nat, schedule: seq<Action>)
    ensures exists more :: Completed(Run(Run(Init(n), schedule), more))
  {
    InitInv(n);
    RunInv(Init(n), schedule);
    var s := Run(Init(n), schedule);
    FinishFrom(s);
    var a :| Finishes(s, a);
    RunInv(s, a);
    var t := Run(s, a);
    if t.waiter == Gone {
      assert Completed(t);
    } else {
      var u := Next(t, BeginDestroy);
      NextInv(t, BeginDestroy);
      Extend(s, a, BeginDestroy);
      FinishFrom(u);
      var b :| Finishes(u, b);
      NotFreeAgain(u, b);
      RunConcat(s, a + [BeginDestroy], b);
      assert Completed(Run(u, b));
    }
    hide Run, Inv;
  }

  predicate Destroying(s: State) {
    s.waiter in {Load, Cas, Await, Unlist, Unlock, Delete, Gone}
  }

  /** A destroy that has begun ends with the waiter gone. */
  lemma {:induction false} NotFreeAgain(s: State, schedule: seq<Action>)
    requires Destroying(s)
    ensures Destroying(Run(s, schedule))
    decreases |schedule|
  {
    if schedule != [] {
      NextWaiter(s, schedule[0]);
      hide Next;
      NotFreeAgain(Next(s, schedule[0]), schedule[1..]);
    }
  }
}
