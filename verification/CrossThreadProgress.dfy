/** Progress of the cross-thread promise: no deadlock, no livelock, and everything under way can
    be finished. */
module CrossThreadProgress {
  import opened CrossThread

  /** Some call has not returned, or the waiter is in the middle of polling or destroying. */
  predicate Busy(s: State) {
    (s.waiter != Free && s.waiter != Gone) || exists i | 0 <= i < |s.calls| :: s.calls[i] != Done
  }

  predicate IsStep(a: Action) {
    a.WaiterStep? || a.CallStep?
  }

  /** How many steps a call, or the waiter, has before it at most. */
  function CallRank(pc: FulfillerPc): nat {
    match pc
    case Exchange => 7
    case Claim => 6
    case Write => 5
    case Lock => 4
    case Add => 3
    case Store => 2
    case Release => 1
    case Dispose => 1
    case Done => 0
  }

  function WaiterRank(pc: WaiterPc): nat {
    match pc
    case PollRemove => 10
    case PollStore => 9
    case PollUnlock => 8
    case Free => 7
    case Load => 6
    case Cas => 5
    case Await => 4
    case Unlist => 3
    case Unlock => 2
    case Delete => 1
    case Gone => 0
  }

  function CallRanks(calls: seq<FulfillerPc>): nat {
    if calls == [] then 0 else CallRank(calls[0]) + CallRanks(calls[1..])
  }

  function Measure(s: State): nat {
    CallRanks(s.calls) + WaiterRank(s.waiter)
  }

  lemma {:induction false} RanksUpdate(calls: seq<FulfillerPc>, i: nat, pc: FulfillerPc)
    requires i < |calls|
    ensures CallRanks(calls[i := pc]) + CallRank(calls[i]) == CallRanks(calls) + CallRank(pc)
  {
    if i > 0 {
      RanksUpdate(calls[1..], i - 1, pc);
      assert calls[i := pc][1..] == calls[1..][i - 1 := pc];
    } else {
      assert calls[0 := pc][1..] == calls[1..];
    }
  }

  /** Where a step of the waiter leads. */
  function WaiterMove(s: State): WaiterPc {
    match s.waiter
    case PollRemove => if s.listed then PollStore else PollUnlock
    case PollStore => PollUnlock
    case PollUnlock => Free
    case Load => if s.paf == Dispatched then Delete else Cas
    case Cas => if s.paf == Waiting then Gone else Await
    case Await => if s.lock == Nobody && (s.paf == Fulfilled || s.paf == Dispatched) then Unlist else Await
    case Unlist => Unlock
    case Unlock => Delete
    case Delete => Gone
    case Free => Free
    case Gone => Gone
  }

  lemma WaiterMoves(s: State)
    ensures WaiterNext(s).calls == s.calls && WaiterNext(s).waiter == WaiterMove(s)
  {
    var t := WaiterNext(s);
    match s.waiter
    case PollRemove => assert t.waiter == if s.listed then PollStore else PollUnlock;
    case Load => assert t.waiter == if s.paf == Dispatched then Delete else Cas;
    case Cas => assert t.waiter == if s.paf == Waiting then Gone else Await;
    case Await => assert t.waiter == Unlist || t == s;
    case _ =>
  }

  lemma WaiterStays(s: State)
    requires WaiterMove(s) == s.waiter
    ensures WaiterNext(s) == s
  {
    assert s.waiter == Await || s.waiter == Free || s.waiter == Gone;
  }

  lemma WaiterDrops(s: State)
    requires WaiterNext(s) != s
    ensures WaiterNext(s).calls == s.calls && WaiterNext(s).waiter == WaiterMove(s)
    ensures WaiterRank(WaiterMove(s)) < WaiterRank(s.waiter)
  {
    hide WaiterNext;
    WaiterMoves(s);
    if WaiterMove(s) == s.waiter { WaiterStays(s); }
  }

  /** Where a step of a call leads. */
  function CallMove(s: State, i: nat): FulfillerPc
    requires i < |s.calls|
  {
    match s.calls[i]
    case Exchange => if s.pointer then Claim else Done
    case Claim => if s.paf == Waiting then Write else Dispose
    case Write => Lock
    case Lock => if s.lock == Nobody then Add else Lock
    case Add => Store
    case Store => Release
    case Release => Done
    case Dispose => Done
    case Done => Done
  }

  lemma CallMoves(s: State, i: nat)
    requires i < |s.calls|
    ensures CallNext(s, i).waiter == s.waiter && CallNext(s, i).calls == s.calls[i := CallMove(s, i)]
    ensures CallMove(s, i) == s.calls[i] ==> CallNext(s, i) == s
  {
    var c := s.calls[i];
    if c == Done || (c == Lock && s.lock != Nobody) { assert s.calls[i := c] == s.calls; }
  }

  lemma CallDrops(s: State, i: nat)
    requires i < |s.calls| && CallNext(s, i) != s
    ensures CallNext(s, i).waiter == s.waiter && CallNext(s, i).calls == s.calls[i := CallMove(s, i)]
    ensures CallRank(CallMove(s, i)) < CallRank(s.calls[i])
  {
    hide CallNext;
    CallMoves(s, i);
  }

  /** Every step of a thread that is not blocked, but for the begin of another poll, brings the
      protocol closer to its end. */
  lemma MeasureDrops(s: State, a: Action)
    requires a != BeginPoll && Next(s, a) != s
    ensures Measure(Next(s, a)) < Measure(s)
  {
    hide CallRanks, WaiterNext, CallNext, CallRank, CallMove, WaiterMove;
    match a
    case BeginDestroy =>
    case WaiterStep => WaiterDrops(s);
    case CallStep(i) =>
      CallDrops(s, i);
      RanksUpdate(s.calls, i, CallMove(s, i));
  }

  /** A schedule in which every action has an effect and no new poll begins. */
  predicate Effective(s: State, schedule: seq<Action>)
    decreases |schedule|
  {
    schedule == [] ||
    (schedule[0] != BeginPoll && Next(s, schedule[0]) != s && Effective(Next(s, schedule[0]), schedule[1..]))
  }

  /** There is no livelock: apart from polls, only so many steps are left. */
  lemma {:induction false} StepsBounded(s: State, schedule: seq<Action>)
    requires Effective(s, schedule)
    ensures |schedule| + Measure(Run(s, schedule)) <= Measure(s)
    decreases |schedule|
  {
    hide Next, Measure;
    if schedule != [] {
      MeasureDrops(s, schedule[0]);
      StepsBounded(Next(s, schedule[0]), schedule[1..]);
    }
  }

  /** There is no deadlock: while a call or an operation of the waiter is under way, a thread that
      is in one of them can move, without the waiter beginning anything new. */
  lemma SomeMove(s: State)
    requires Inv(s) && Busy(s)
    ensures exists a :: IsStep(a) && Next(s, a) != s
  {
    if s.waiter != Free && s.waiter != Gone && s.waiter != Await {
      assert Next(s, WaiterStep).waiter != s.waiter;
    } else if exists i | 0 <= i < |s.calls| :: s.calls[i] != Done {
      var i :| 0 <= i < |s.calls| && s.calls[i] != Done;
      if s.calls[i] != Exchange { CallerIsTaker(s, i); }
      assert Next(s, CallStep(i)).calls[i] != s.calls[i];
    } else {
      assert TakerPc(s) == Done && s.waiter == Await && s.lock == Nobody;
      assert Next(s, WaiterStep).waiter == Unlist;
    }
    hide CallNext;
  }

  /** In every reachable state some thread can move until the run is complete; and while a call or
      an operation of the waiter is under way, it is one of those. */
  lemma NeverStuck(n: nat, schedule: seq<Action>)
    requires !Completed(Run(Init(n), schedule))
    ensures var s := Run(Init(n), schedule);
            exists a :: Next(s, a) != s && (Busy(s) ==> IsStep(a))
  {
    InitInv(n);
    RunInv(Init(n), schedule);
    var s := Run(Init(n), schedule);
    if Busy(s) {
      SomeMove(s);
      var a :| IsStep(a) && Next(s, a) != s;
    } else {
      assert Next(s, BeginDestroy).waiter == Load;
    }
    hide Inv, Run;
  }

  predicate OnlySteps(schedule: seq<Action>) {
    forall i | 0 <= i < |schedule| :: IsStep(schedule[i])
  }

  lemma {:induction false} FinishFrom(s: State)
    requires Inv(s)
    ensures exists schedule :: Finishes(s, schedule)
    decreases Measure(s)
  {
    hide Inv, Next, Measure, Busy;
    if Busy(s) {
      SomeMove(s);
      var a :| IsStep(a) && Next(s, a) != s;
      MeasureDrops(s, a);
      NextInv(s, a);
      FinishFrom(Next(s, a));
      var rest :| Finishes(Next(s, a), rest);
      assert ([a] + rest)[1..] == rest;
      assert Finishes(s, [a] + rest);
    } else {
      assert Finishes(s, []);
    }
  }

  /** A schedule of steps under way, each with an effect, after which nothing is under way. */
  predicate Finishes(s: State, schedule: seq<Action>) {
    OnlySteps(schedule) && Effective(s, schedule) && !Busy(Run(s, schedule))
  }

  /** From every reachable state all calls can return and the waiter finish what it is doing, in
      steps of theirs alone, of which there are at most seven for each call and ten more. */
  lemma EverythingFinishes(n: nat, schedule: seq<Action>)
    ensures exists more :: Finishes(Run(Init(n), schedule), more) && |more| <= 7 * n + 10
  {
    hide Inv, Run, Busy, CallRanks, Effective, OnlySteps, WaiterNext, CallNext;
    InitInv(n);
    RunInv(Init(n), schedule);
    var s := Run(Init(n), schedule);
    FinishFrom(s);
    var more :| Finishes(s, more);
    StepsBounded(s, more);
    RanksBound(s.calls);
  }

  lemma {:induction false} RanksBound(calls: seq<FulfillerPc>)
    ensures CallRanks(calls) <= 7 * |calls|
  {
    if calls != [] { RanksBound(calls[1..]); }
  }
}
