/** The cross-thread promise (XThreadPaf, libraries/zc/async/async.cc and async-inl.h): one
    waiting thread, any number of threads that call fulfill or reject, two atomic variables
    and one lock, as a state machine in which every atomic access is a step of its own. */
module CrossThread {

  datatype PafState = Waiting | Fulfilling | Fulfilled | Dispatched | Canceled

  /** The next thing the waiting thread does. */
  datatype WaiterPc =
    | Free          // not in any of the operations below
    | PollRemove    // in poll, holding the lock: take the object off the list, if there
    | PollStore     //   ... and mark it dispatched
    | PollUnlock
    | Load          // in destroy: is it dispatched already?
    | Cas           //   try to cancel
    | Await         //   someone is fulfilling: wait, on the lock, until that is over
    | Unlist        //   holding the lock: take the object off the list, if there
    | Unlock
    | Delete        //   the object is the waiter's: delete it
    | Gone          // destroy has returned

  /** The next thing a call of fulfill or reject does. */
  datatype FulfillerPc =
    | Exchange      // swap the shared pointer with null
    | Claim         // got the pointer: try to turn Waiting into Fulfilling
    | Write         // fill in the result
    | Lock
    | Add           // holding the lock: put the object on the waiter's list
    | Store         //   mark it fulfilled
    | Release       //   wake the waiter and unlock
    | Dispose       // the waiter has canceled: delete the object
    | Done

  datatype Holder = Nobody | TheWaiter | Fulfiller(i: nat)

  datatype State = State(
    paf: PafState,
    pointer: bool,             // the fulfillers' shared pointer is not yet null
    taker: Holder,             // who got the object out of the shared pointer
    lock: Holder,
    listed: bool,              // the object is on the waiter's fulfilled list
    written: seq<nat>,         // the calls that wrote the result, in order
    freed: nat,                // how often the object was deleted
    touchedFreed: bool,        // some access came after a delete
    casSawOther: bool,         // a failed claim saw a state other than Canceled
    waiter: WaiterPc,
    calls: seq<FulfillerPc>)

  datatype Action = BeginPoll | BeginDestroy | WaiterStep | CallStep(i: nat)

  function Init(n: nat): State {
    State(Waiting, true, Nobody, Nobody, false, [], 0, false, false, Free, seq(n, _ => Exchange))
  }

  /** An access to the object's memory. */
  function Touch(s: State): State {
    s.(touchedFreed := s.touchedFreed || s.freed > 0)
  }

  function DeleteObject(s: State): State {
    Touch(s).(freed := s.freed + 1)
  }

  function WaiterNext(s: State): State {
    match s.waiter
    case PollRemove => if s.listed then Touch(s).(listed := false, waiter := PollStore) else s.(waiter := PollUnlock)
    case PollStore => Touch(s).(paf := Dispatched, waiter := PollUnlock)
    case PollUnlock => s.(lock := Nobody, waiter := Free)
    case Load => Touch(s).(waiter := if s.paf == Dispatched then Delete else Cas)
    case Cas => if s.paf == Waiting then Touch(s).(paf := Canceled, waiter := Gone) else Touch(s).(waiter := Await)
    case Await =>
      if s.lock == Nobody && (s.paf == Fulfilled || s.paf == Dispatched) then
        Touch(s).(lock := TheWaiter, waiter := Unlist)
      else s
    case Unlist => Touch(s).(listed := if s.paf == Fulfilled then false else s.listed, waiter := Unlock)
    case Unlock => s.(lock := Nobody, waiter := Delete)
    case Delete => DeleteObject(s).(waiter := Gone)
    case _ => s
  }

  function At(s: State, i: nat, pc: FulfillerPc): State
    requires i < |s.calls|
  {
    s.(calls := s.calls[i := pc])
  }

  function CallNext(s: State, i: nat): State
    requires i < |s.calls|
  {
    match s.calls[i]
    case Exchange => if s.pointer then At(s, i, Claim).(pointer := false, taker := Fulfiller(i)) else At(s, i, Done)
    case Claim =>
      if s.paf == Waiting then Touch(At(s, i, Write)).(paf := Fulfilling)
      else Touch(At(s, i, Dispose)).(casSawOther := s.casSawOther || s.paf != Canceled)
    case Write => Touch(At(s, i, Lock)).(written := s.written + [i])
    case Lock => if s.lock == Nobody then Touch(At(s, i, Add)).(lock := Fulfiller(i)) else s
    case Add => Touch(At(s, i, Store)).(listed := true)
    case Store => Touch(At(s, i, Release)).(paf := Fulfilled)
    case Release => At(s, i, Done).(lock := Nobody)
    case Dispose => DeleteObject(At(s, i, Done))
    case Done => s
  }

  /** One step of one thread; a thread that is blocked or finished stays where it is. */
  function Next(s: State, a: Action): State {
    match a
    case BeginPoll => if s.waiter == Free && s.lock == Nobody then s.(lock := TheWaiter, waiter := PollRemove) else s
    case BeginDestroy => if s.waiter == Free then s.(waiter := Load) else s
    case WaiterStep => WaiterNext(s)
    case CallStep(i) => if i < |s.calls| then CallNext(s, i) else s
  }

  function Run(s: State, schedule: seq<Action>): State
    decreases |schedule|
  {
    if schedule == [] then s else Run(Next(s, schedule[0]), schedule[1..])
  }

  // ---------------------------------------------------------------------------
  // The invariant.

  function TakerPc(s: State): FulfillerPc {
    if s.taker.Fulfiller? && s.taker.i < |s.calls| then s.calls[s.taker.i] else Exchange
  }

  /** Only the call that took the object is past the exchange with something to do. */
  ghost predicate CallsOk(s: State) {
    && (s.pointer <==> s.taker == Nobody)
    && (s.taker.Fulfiller? ==> s.taker.i < |s.calls| && TakerPc(s) != Exchange)
    && s.taker != TheWaiter
    && (forall i | 0 <= i < |s.calls| && s.taker != Fulfiller(i) :: s.calls[i] == Exchange || s.calls[i] == Done)
    && (s.pointer ==> forall i | 0 <= i < |s.calls| :: s.calls[i] == Exchange)
  }

  ghost predicate LockOk(s: State) {
    && (s.lock == TheWaiter <==> s.waiter in {PollRemove, PollStore, PollUnlock, Unlist, Unlock})
    && (s.lock.Fulfiller? ==> s.lock == s.taker)
    && (s.lock.Fulfiller? <==> TakerPc(s) in {Add, Store, Release})
  }

  /** What the state variable says about the call that took the object. */
  ghost predicate ProgressOk(s: State) {
    match TakerPc(s)
    case Exchange => s.paf in {Waiting, Canceled} && s.written == []
    case Claim => s.paf in {Waiting, Canceled} && s.written == []
    case Write => s.paf == Fulfilling && s.written == []
    case Lock => s.paf == Fulfilling && |s.written| == 1
    case Add => s.paf == Fulfilling && |s.written| == 1
    case Store => s.paf == Fulfilling && |s.written| == 1
    case Release => s.paf == Fulfilled && |s.written| == 1
    case Dispose => s.paf == Canceled && s.written == []
    case Done => if s.paf == Canceled then s.written == [] else s.paf in {Fulfilled, Dispatched} && |s.written| == 1
  }

  /** The list holds the object from Add on until the waiter takes it off. */
  ghost predicate ListOk(s: State) {
    s.listed <==>
    TakerPc(s) == Store ||
    (s.paf == Fulfilled && s.waiter !in {PollStore, Unlock, Delete, Gone})
  }

  ghost predicate WaiterOk(s: State) {
    match s.waiter
    case PollStore => s.paf == Fulfilled
    case Load => s.paf != Canceled
    case Cas => s.paf !in {Dispatched, Canceled}
    case Await => s.paf in {Fulfilling, Fulfilled}
    case Unlist => s.paf == Fulfilled
    case Unlock => s.paf == Fulfilled
    case Delete => s.paf in {Fulfilled, Dispatched} && TakerPc(s) == Done
    case Gone => s.paf in {Fulfilled, Dispatched, Canceled}
    case _ => s.paf != Canceled
  }

  /** Who has deleted the object: the waiter, or the call that found it canceled. */
  ghost predicate FreedOk(s: State) {
    s.freed == if s.waiter == Gone && (s.paf != Canceled || TakerPc(s) == Done) then 1 else 0
  }

  ghost predicate Inv(s: State) {
    && CallsOk(s) && LockOk(s) && ProgressOk(s) && ListOk(s) && WaiterOk(s) && FreedOk(s)
    && (s.waiter == Gone && s.paf != Canceled ==> TakerPc(s) == Done)
    && !s.touchedFreed && !s.casSawOther
  }

  lemma InitInv(n: nat)
    ensures Inv(Init(n))
  {
  }

  lemma WaiterInv(s: State)
    requires Inv(s)
    ensures Inv(WaiterNext(s)) && |WaiterNext(s).calls| == |s.calls|
  {
    assert TakerPc(WaiterNext(s)) == TakerPc(s);
    assert CallsOk(WaiterNext(s));
    hide CallsOk, TakerPc;
  }

  lemma BeginInv(s: State)
    requires Inv(s)
    ensures Inv(Next(s, BeginPoll)) && Inv(Next(s, BeginDestroy))
  {
    assert TakerPc(Next(s, BeginPoll)) == TakerPc(s) == TakerPc(Next(s, BeginDestroy));
    assert CallsOk(Next(s, BeginPoll)) && CallsOk(Next(s, BeginDestroy));
    hide CallsOk, TakerPc;
  }

  /** A call with something left to do after the exchange is the one that took the object. */
  lemma CallerIsTaker(s: State, i: nat)
    requires CallsOk(s) && i < |s.calls| && s.calls[i] != Exchange && s.calls[i] != Done
    ensures s.taker == Fulfiller(i) && TakerPc(s) == s.calls[i]
    ensures CallsOk(CallNext(s, i)) && TakerPc(CallNext(s, i)) == CallNext(s, i).calls[i]
  {
    var t := CallNext(s, i);
    assert s.taker == Fulfiller(i) && !s.pointer;
    assert t.calls[i] != Exchange && t.taker == s.taker && t.pointer == s.pointer;
    assert forall k | 0 <= k < |s.calls| && k != i :: t.calls[k] == s.calls[k];
    hide CallNext;
  }

  /** The exchange takes the object if nobody has, and otherwise ends the call. */
  lemma ExchangeTakes(s: State, i: nat)
    requires CallsOk(s) && i < |s.calls| && s.calls[i] == Exchange
    ensures CallsOk(CallNext(s, i))
    ensures if s.pointer then TakerPc(s) == Exchange && TakerPc(CallNext(s, i)) == Claim
            else TakerPc(CallNext(s, i)) == TakerPc(s)
  {
  }

  lemma CallInv(s: State, i: nat)
    requires Inv(s) && i < |s.calls|
    ensures Inv(CallNext(s, i)) && |CallNext(s, i).calls| == |s.calls|
  {
    if s.calls[i] == Exchange {
      ExchangeTakes(s, i);
      hide CallsOk, TakerPc;
    } else if s.calls[i] != Done {
      CallerIsTaker(s, i);
      hide CallsOk, TakerPc;
    }
  }

  lemma NextInv(s: State, a: Action)
    requires Inv(s)
    ensures Inv(Next(s, a)) && |Next(s, a).calls| == |s.calls|
  {
    hide Inv, WaiterNext, CallNext;
    match a
    case WaiterStep => WaiterInv(s);
    case CallStep(i) => if i < |s.calls| { CallInv(s, i); }
    case _ => BeginInv(s);
  }

  /** The invariant holds in every state of every interleaving. */
  lemma {:induction false} RunInv(s: State, schedule: seq<Action>)
    requires Inv(s)
    ensures Inv(Run(s, schedule)) && |Run(s, schedule).calls| == |s.calls|
    decreases |schedule|
  {
    hide Inv, Next;
    if schedule != [] {
      NextInv(s, schedule[0]);
      RunInv(Next(s, schedule[0]), schedule[1..]);
    }
  }

  // ---------------------------------------------------------------------------
  // What the protocol promises.

  /** The waiter has destroyed its promise and every call has returned. */
  predicate Completed(s: State) {
    s.waiter == Gone && forall i | 0 <= i < |s.calls| :: s.calls[i] == Done
  }

  /** In every interleaving: no access after the delete and no second delete, a failed claim
      saw Canceled, at most one call writes the result, and it does so before dispatch. */
  lemma Safe(n: nat, schedule: seq<Action>)
    ensures var s := Run(Init(n), schedule);
            && !s.touchedFreed && s.freed <= 1 && !s.casSawOther
            && |s.written| <= 1 && (s.paf == Dispatched ==> |s.written| == 1)
  {
    InitInv(n);
    RunInv(Init(n), schedule);
  }

  /** In a completed run the object was deleted exactly once; the result was written
      exactly if the waiter did not cancel first. */
  lemma FreedExactlyOnce(n: nat, schedule: seq<Action>)
    requires n > 0 && Completed(Run(Init(n), schedule))
    ensures Run(Init(n), schedule).freed == 1
    ensures Run(Init(n), schedule).paf != Canceled <==> |Run(Init(n), schedule).written| == 1
  {
    InitInv(n);
    RunInv(Init(n), schedule);
    assert Run(Init(n), schedule).calls[0] == Done;
  }

  /** Outside the lock the object is on the list exactly when it is marked fulfilled, except
      from the moment a waiter that destroys a fulfilled promise has released the lock. */
  lemma ListedIffFulfilled(n: nat, schedule: seq<Action>)
    requires Run(Init(n), schedule).lock == Nobody
    ensures var s := Run(Init(n), schedule);
            (s.listed <==> s.paf == Fulfilled) <==> !(s.paf == Fulfilled && (s.waiter == Delete || s.waiter == Gone))
  {
    InitInv(n);
    RunInv(Init(n), schedule);
  }

  lemma {:induction false} Extend(s: State, schedule: seq<Action>, a: Action)
    ensures Run(s, schedule + [a]) == Next(Run(s, schedule), a)
    decreases |schedule|
  {
    if schedule == [] {
      assert ([] + [a])[1..] == [];
    } else {
      assert (schedule + [a])[0] == schedule[0] && (schedule + [a])[1..] == schedule[1..] + [a];
      Extend(Next(s, schedule[0]), schedule[1..], a);
    }
  }

  lemma {:induction false} Repeat(s: State, a: Action, k: nat) returns (schedule: seq<Action>)
    ensures Run(s, schedule) == Times(s, a, k)
  {
    schedule := [];
    if k > 0 {
      schedule := Repeat(s, a, k - 1);
      Extend(s, schedule, a);
      schedule := schedule + [a];
    }
  }

  function Times(s: State, a: Action, k: nat): State {
    if k == 0 then s else Next(Times(s, a, k - 1), a)
  }

  lemma {:induction false} RunConcat(s: State, a: seq<Action>, b: seq<Action>)
    ensures Run(s, a + b) == Run(Run(s, a), b)
    decreases |a|
  {
    if a == [] {
      assert a + b == b;
    } else {
      assert (a + b)[1..] == a[1..] + b;
      RunConcat(Next(s, a[0]), a[1..], b);
    }
  }

  /** The exception does occur: the waiter destroys its promise after a call has completed. */
  lemma UnlistedButFulfilled()
    ensures exists schedule ::
              var s := Run(Init(1), schedule);
              s.lock == Nobody && s.freed == 0 && s.paf == Fulfilled && !s.listed
  {
    var i := Init(1);
    var call := Repeat(i, CallStep(0), 7);
    var f := State(Fulfilled, false, Fulfiller(0), Nobody, true, [0], 0, false, false, Free, [Done]);
    assert Run(i, call) == f by { CallAlone(); }
    var begun := call + [BeginDestroy];
    Extend(i, call, BeginDestroy);
    var g := f.(waiter := Load);
    var destroy := Repeat(g, WaiterStep, 5);
    assert Times(g, WaiterStep, 5) == f.(waiter := Delete, listed := false) by { DestroyAlone(g); }
    RunConcat(i, begun, destroy);
  }

  lemma TimesStep(s: State, a: Action, k: nat, t: State, u: State)
    requires Times(s, a, k) == t && Next(t, a) == u
    ensures Times(s, a, k + 1) == u
  {
  }

  ghost const Claimed: State :=
    State(Fulfilling, false, Fulfiller(0), Nobody, false, [0], 0, false, false, Free, [Lock])

  lemma CallClaims()
    ensures Times(Init(1), CallStep(0), 3) == Claimed
  {
    hide Times;
    var i, c := Init(1), CallStep(0);
    assert i.calls == [Exchange];
    var a := i.(pointer := false, taker := Fulfiller(0), calls := [Claim]);
    var b := a.(paf := Fulfilling, calls := [Write]);
    TimesZero(i, c);
    TimesStep(i, c, 0, i, a);
    TimesStep(i, c, 1, a, b);
    TimesStep(i, c, 2, b, Claimed);
  }

  lemma CallAlone()
    ensures Times(Init(1), CallStep(0), 7) == Claimed.(paf := Fulfilled, listed := true, calls := [Done])
  {
    hide Times, Init;
    CallClaims();
    var i, c := Init(1), CallStep(0);
    var l := Claimed.(lock := Fulfiller(0), calls := [Add]);
    var f := l.(listed := true, calls := [Store]);
    var r := f.(paf := Fulfilled, calls := [Release]);
    TimesStep(i, c, 3, Claimed, l);
    TimesStep(i, c, 4, l, f);
    TimesStep(i, c, 5, f, r);
    TimesStep(i, c, 6, r, r.(lock := Nobody, calls := [Done]));
  }

  lemma TimesZero(s: State, a: Action)
    ensures Times(s, a, 0) == s
  {
  }

  lemma DestroyAlone(g: State)
    requires g.waiter == Load && g.paf == Fulfilled && g.lock == Nobody && g.freed == 0 && !g.touchedFreed
    ensures Times(g, WaiterStep, 5) == g.(waiter := Delete, listed := false)
  {
    hide Times;
    var w := WaiterStep;
    var u := g.(waiter := Unlist, lock := TheWaiter);
    TimesZero(g, w);
    TimesStep(g, w, 0, g, g.(waiter := Cas));
    TimesStep(g, w, 1, g.(waiter := Cas), g.(waiter := Await));
    TimesStep(g, w, 2, g.(waiter := Await), u);
    TimesStep(g, w, 3, u, u.(listed := false, waiter := Unlock));
    TimesStep(g, w, 4, u.(listed := false, waiter := Unlock), g.(waiter := Delete, listed := false));
  }
}
