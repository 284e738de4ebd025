/** The intrusive event list of one loop (libraries/zc/async/async.cc): every event holds a
    pointer to the next one and a pointer to the slot that points to it, and the loop's
    insert points are pointers to slots. It refines the sequence of EventQueue. */
module IntrusiveQueue {
  import opened EventQueue

  /** An `Event**`: null, the head of one of the loop's two lists, or an event's `next` field. */
  datatype Slot = Null | Head | SleepHead | NextOf(e: Event)

  class Event {
    var next: Event?
    var prev: Slot

    constructor ()
      ensures next == null && prev == Null
    {
      next, prev := null, Null;
    }
  }

  /** The event at position `i`, and null past the end. */
  ghost function At(q: seq<Event>, i: nat): Event? {
    if i < |q| then q[i] else null
  }

  /** The slot that leads to position `i` of a list starting at `base`. */
  ghost function SlotAt(base: Slot, q: seq<Event>, i: nat): Slot
    requires i <= |q|
  {
    if i == 0 then base else NextOf(q[i - 1])
  }

  /** The pointers of the event at position `k` are those of its place in the list. */
  ghost predicate LinkOk(base: Slot, q: seq<Event>, k: nat)
    requires k < |q|
    reads q[k]
  {
    q[k].next == At(q, k + 1) && q[k].prev == SlotAt(base, q, k)
  }

  /** The events from `front` on are exactly `q`, and each one's `prev` is the slot that leads to it. */
  ghost predicate Chain(base: Slot, front: Event?, q: seq<Event>)
    reads q
  {
    && front == At(q, 0)
    && forall k | 0 <= k < |q| :: LinkOk(base, q, k)
  }

  class EventLoop {
    var head: Event?
    var tail: Slot
    var depthFirstInsertPoint: Slot
    var breadthFirstInsertPoint: Slot
    var wouldSleepHead: Event?
    var wouldSleepTail: Slot

    /** Every event created for this loop, and the sequences the list fields represent. */
    ghost var events: set<Event>
    ghost var model: Queue<Event>

    /** The two lists are exactly `q` and `sleep`, and no other event is linked. */
    ghost predicate Linked(q: seq<Event>, sleep: seq<Event>)
      reads `head, `wouldSleepHead, `events, events
    {
      && (forall e | e in q :: e in events) && (forall e | e in sleep :: e in events)
      && Chain(Head, head, q) && Chain(SleepHead, wouldSleepHead, sleep)
      && forall e | e in events && e !in q && e !in sleep :: e.prev == Null && e.next == null
    }

    ghost predicate Valid()
      reads this, events
    {
      && EventQueue.Valid(model)
      && Linked(model.q, model.sleep)
      && tail == SlotAt(Head, model.q, |model.q|)
      && wouldSleepTail == SlotAt(SleepHead, model.sleep, |model.sleep|)
      && depthFirstInsertPoint == SlotAt(Head, model.q, model.df)
      && breadthFirstInsertPoint == SlotAt(Head, model.q, model.bf)
    }

    constructor ()
      ensures Valid() && events == {} && model == Queue([], 0, 0, [])
    {
      head, tail, depthFirstInsertPoint, breadthFirstInsertPoint := null, Head, Head, Head;
      wouldSleepHead, wouldSleepTail := null, SleepHead;
      events, model := {}, Queue([], 0, 0, []);
    }

    /** Creates an event that belongs to this loop. */
    method NewEvent() returns (e: Event)
      requires Valid()
      modifies this
      ensures Valid() && fresh(e) && events == old(events) + {e} && model == old(model)
      ensures !Armed(model, e) && e.prev == Null && e.next == null
    {
      e := new Event();
      events := events + {e};
    }

    /** `*slot` */
    function Load(slot: Slot): Event?
      requires slot != Null
      reads this, if slot.NextOf? then {slot.e} else {}
    {
      match slot
      case Head => head
      case SleepHead => wouldSleepHead
      case NextOf(e) => e.next
    }

    /** `*slot = e` */
    method Store(slot: Slot, e: Event?)
      requires slot != Null
      modifies this`head, this`wouldSleepHead
      modifies (if slot.NextOf? then {slot.e} else {})`next
      ensures head == if slot == Head then e else old(head)
      ensures wouldSleepHead == if slot == SleepHead then e else old(wouldSleepHead)
      ensures slot.NextOf? ==> slot.e.next == e
    {
      match slot
      case Head => head := e;
      case SleepHead => wouldSleepHead := e;
      case NextOf(p) => p.next := e;
    }

    /** A linked event is what its own `prev` points to. */
    lemma PrevPointsBack(e: Event)
      requires Valid() && e in events && Armed(model, e)
      ensures e.prev != Null && (e.prev.NextOf? ==> e.prev.e in events) && Load(e.prev) == e
    {
      var q := if e in model.q then model.q else model.sleep;
      var i := IndexOf(q, e);
      assert LinkOk(if e in model.q then Head else SleepHead, q, i);
      if i > 0 { assert LinkOk(if e in model.q then Head else SleepHead, q, i - 1); }
    }

    /** An event is linked exactly when its `prev` is set. */
    lemma PrevTellsArmed(e: Event)
      requires Valid() && e in events
      ensures e.prev == Null <==> !Armed(model, e)
    {
      if Armed(model, e) { PrevPointsBack(e); }
    }

    /** The pointer surgery of every arming method: puts `e` into the list from `base` at `slot`. */
    method LinkAt(e: Event, slot: Slot, ghost base: Slot, ghost q: seq<Event>, ghost i: nat)
      requires base == Head || base == SleepHead
      requires i <= |q| && slot == SlotAt(base, q, i) && NoDup(q) && e !in q
      requires Chain(base, Load(base), q)
      modifies this`head, this`wouldSleepHead, e, q
      ensures Chain(base, Load(base), Insert(q, i, e))
      ensures base == Head ==> wouldSleepHead == old(wouldSleepHead)
      ensures base == SleepHead ==> head == old(head)
      ensures e.prev == slot
    {
      hide NoDup, Insert;
      InsertPlaces(q, i, e);
      assert i > 0 ==> LinkOk(base, q, i - 1);
      assert i < |q| ==> LinkOk(base, q, i);
      e.next := Load(slot);
      e.prev := slot;
      Store(slot, e);
      if e.next != null {
        e.next.prev := NextOf(e);
      }
      ghost var t := Insert(q, i, e);
      forall k | 0 <= k < |t| ensures LinkOk(base, t, k) {
        if k < i { assert old(LinkOk(base, q, k)); } else if k > i { assert old(LinkOk(base, q, k - 1)); }
      }
    }

    /** LinkAt on the main list, with everything it leaves alone. */
    method Enqueue(e: Event, slot: Slot, ghost i: nat)
      requires EventQueue.Valid(model) && Linked(model.q, model.sleep) && e in events && !Armed(model, e)
      requires i <= |model.q| && slot == SlotAt(Head, model.q, i)
      modifies this`head, this`wouldSleepHead, events
      ensures Linked(Insert(model.q, i, e), model.sleep) && e.prev == slot
    {
      ghost var q, sleep := model.q, model.sleep;
      assert forall k | 0 <= k < |sleep| :: sleep[k] in sleep && sleep[k] != e && sleep[k] !in q;
      hide NoDup;
      LinkAt(e, slot, Head, q, i);
      forall k | 0 <= k < |sleep| ensures LinkOk(SleepHead, sleep, k) {
        assert old(LinkOk(SleepHead, sleep, k));
      }
      InsertNoDup(q, i, e);
      hide Insert;
      assert forall x | x in events && x !in Insert(q, i, e) && x !in sleep :: x.prev == Null && x.next == null;
    }

    method ArmDepthFirst(e: Event)
      requires Valid() && e in events
      modifies this, events
      ensures Valid() && events == old(events) && model == EventQueue.ArmDepthFirst(old(model), e)
    {
      hide Linked, NoDup, Insert, SlotAt, Armed, EventQueue.Valid, EventQueue.ArmDepthFirst;
      PrevTellsArmed(e);
      ArmDepthFirstSlots(model, e);
      if e.prev == Null {
        Enqueue(e, depthFirstInsertPoint, model.df);
        depthFirstInsertPoint := NextOf(e);
        if breadthFirstInsertPoint == e.prev { breadthFirstInsertPoint := NextOf(e); }
        if tail == e.prev { tail := NextOf(e); }
        model := EventQueue.ArmDepthFirst(model, e);
      }
    }

    method ArmBreadthFirst(e: Event)
      requires Valid() && e in events
      modifies this, events
      ensures Valid() && events == old(events) && model == EventQueue.ArmBreadthFirst(old(model), e)
    {
      hide Linked, NoDup, Insert, SlotAt, Armed, EventQueue.Valid, EventQueue.ArmBreadthFirst;
      PrevTellsArmed(e);
      ArmBreadthFirstSlots(model, e);
      if e.prev == Null {
        Enqueue(e, breadthFirstInsertPoint, model.bf);
        breadthFirstInsertPoint := NextOf(e);
        if tail == e.prev { tail := NextOf(e); }
        model := EventQueue.ArmBreadthFirst(model, e);
      }
    }

    method ArmLast(e: Event)
      requires Valid() && e in events
      modifies this, events
      ensures Valid() && events == old(events) && model == EventQueue.ArmLast(old(model), e)
    {
      hide Linked, NoDup, Insert, SlotAt, Armed, EventQueue.Valid, EventQueue.ArmLast;
      PrevTellsArmed(e);
      ArmLastSlots(model, e);
      if e.prev == Null {
        Enqueue(e, breadthFirstInsertPoint, model.bf);
        if tail == e.prev { tail := NextOf(e); }
        model := EventQueue.ArmLast(model, e);
      }
    }

    method ArmWhenWouldSleep(e: Event)
      requires Valid() && e in events
      modifies this, events
      ensures Valid() && events == old(events) && model == EventQueue.ArmWhenWouldSleep(old(model), e)
    {
      hide Linked, NoDup, Insert, SlotAt, Armed, EventQueue.Valid, EventQueue.ArmWhenWouldSleep;
      PrevTellsArmed(e);
      ArmWhenWouldSleepSlots(model, e);
      if e.prev == Null {
        EnqueueSleeper(e);
        if wouldSleepTail == e.prev { wouldSleepTail := NextOf(e); }
        model := EventQueue.ArmWhenWouldSleep(model, e);
      }
    }

    /** LinkAt on the sleepers' list, always at its head. */
    method EnqueueSleeper(e: Event)
      requires EventQueue.Valid(model) && Linked(model.q, model.sleep) && e in events && !Armed(model, e)
      modifies this`head, this`wouldSleepHead, events
      ensures Linked(model.q, Insert(model.sleep, 0, e)) && e.prev == SleepHead
    {
      ghost var q, sleep := model.q, model.sleep;
      assert forall k | 0 <= k < |q| :: q[k] in q && q[k] != e && q[k] !in sleep;
      hide NoDup;
      LinkAt(e, SleepHead, SleepHead, sleep, 0);
      forall k | 0 <= k < |q| ensures LinkOk(Head, q, k) {
        assert old(LinkOk(Head, q, k));
      }
      InsertNoDup(sleep, 0, e);
      hide Insert;
      assert forall x | x in events && x !in Insert(sleep, 0, e) && x !in q :: x.prev == Null && x.next == null;
    }

    /** The pointer surgery that takes `e` out of the list from `base`. */
    method Unlink(e: Event, ghost base: Slot, ghost q: seq<Event>, ghost i: nat)
      requires base == Head || base == SleepHead
      requires i < |q| && q[i] == e && NoDup(q)
      requires Chain(base, Load(base), q)
      modifies this`head, this`wouldSleepHead, q
      ensures Chain(base, Load(base), Remove(q, i))
      ensures base == Head ==> wouldSleepHead == old(wouldSleepHead)
      ensures base == SleepHead ==> head == old(head)
      ensures e.prev == Null && e.next == null
    {
      hide NoDup, Remove;
      RemovePlaces(q, i);
      assert LinkOk(base, q, i) && (i > 0 ==> LinkOk(base, q, i - 1)) && (i + 1 < |q| ==> LinkOk(base, q, i + 1));
      Store(e.prev, e.next);
      if e.next != null {
        e.next.prev := e.prev;
      }
      e.prev := Null;
      e.next := null;
      ghost var t := Remove(q, i);
      forall k | 0 <= k < |t| ensures LinkOk(base, t, k) {
        if k < i { assert old(LinkOk(base, q, k)); } else { assert old(LinkOk(base, q, k + 1)); }
      }
    }

    /** Unlink on the list `mine` that `e` is in, with everything it leaves alone. */
    method Dequeue(e: Event, ghost base: Slot, ghost mine: seq<Event>, ghost other: seq<Event>, ghost i: nat)
      requires base == Head || base == SleepHead
      requires NoDup(mine) && (forall x | x in other :: x !in mine) && i < |mine| && mine[i] == e
      requires if base == Head then Linked(mine, other) else Linked(other, mine)
      modifies this`head, this`wouldSleepHead, events
      ensures if base == Head then Linked(Remove(mine, i), other) else Linked(other, Remove(mine, i))
    {
      assert forall k | 0 <= k < |other| :: other[k] in other && other[k] !in mine;
      RemoveNoDup(mine, i);
      hide NoDup, Remove;
      Unlink(e, base, mine, i);
      ghost var otherBase := if base == Head then SleepHead else Head;
      forall k | 0 <= k < |other| ensures LinkOk(otherBase, other, k) {
        assert old(LinkOk(otherBase, other, k));
      }
      assert forall x | x in events && x !in Remove(mine, i) && x !in other :: x.prev == Null && x.next == null;
    }

    method Disarm(e: Event)
      requires Valid() && e in events
      modifies this, events
      ensures Valid() && events == old(events) && model == EventQueue.Disarm(old(model), e)
    {
      hide Linked, NoDup, Remove, SlotAt, Armed, EventQueue.Valid, EventQueue.Disarm;
      hide Place, IndexOf, Mine, Other, BaseOf;
      PrevTellsArmed(e);
      DisarmSlots(model, e);
      DisarmPlaces(model, e);
      if e.prev != Null {
        PrevIsPlace(e);
        if tail == NextOf(e) { tail := e.prev; }
        if depthFirstInsertPoint == NextOf(e) { depthFirstInsertPoint := e.prev; }
        if breadthFirstInsertPoint == NextOf(e) { breadthFirstInsertPoint := e.prev; }
        if wouldSleepTail == NextOf(e) { wouldSleepTail := e.prev; }
        Dequeue(e, BaseOf(model, e), Mine(model, e), Other(model, e), IndexOf(Mine(model, e), e));
        model := EventQueue.Disarm(model, e);
      }
    }

    /** Where a linked event's `prev` points. */
    lemma PrevIsPlace(e: Event)
      requires Valid() && e in events && Armed(model, e)
      ensures e.prev == Place(model, e)
    {
      if e in model.q { assert LinkOk(Head, model.q, IndexOf(model.q, e)); }
      else { assert LinkOk(SleepHead, model.sleep, IndexOf(model.sleep, e)); }
    }

    /** The first half of a turn: takes the event to fire, if any, and points depth-first
        arming at the head of the queue. The event's callback runs after this. */
    method BeginTurn() returns (event: Event?)
      requires Valid()
      modifies this, events
      ensures Valid() && events == old(events) && model == Apply(old(model), Turn)
      ensures event == At(old(model.q), 0)
    {
      hide Linked, NoDup, Remove, SlotAt, EventQueue.Valid, At;
      HeadIsFirst();
      event := head;
      if event != null {
        PopSlots(model);
        Dequeue(event, Head, model.q, model.sleep, 0);
        depthFirstInsertPoint := Head;
        if breadthFirstInsertPoint == NextOf(event) { breadthFirstInsertPoint := Head; }
        if tail == NextOf(event) { tail := Head; }
        model := Pop(model);
      }
    }

    lemma HeadIsFirst()
      requires Valid()
      ensures head == At(model.q, 0) && (head == null <==> model.q == [])
      ensures model.df <= model.bf <= |model.q|
      ensures (head != null ==> model.q != [] && model.q[0] == head && head in events)
      ensures wouldSleepHead == At(model.sleep, 0)
      ensures wouldSleepHead != null ==>
                model.sleep != [] && model.sleep[0] == wouldSleepHead && wouldSleepHead in events
    {
      if model.q != [] { assert model.q[0] in model.q; }
      if model.sleep != [] { assert model.sleep[0] in model.sleep; }
    }

    /** The second half of a turn, after the callback. */
    method EndTurn()
      requires Valid()
      modifies this
      ensures Valid() && events == old(events) && model == Apply(old(model), FireDone)
    {
      depthFirstInsertPoint := Head;
      model := model.(df := 0);
    }

    /** What polling does when it finds nothing: the next event waiting for sleep is queued. */
    method QueueSleeper()
      requires Valid()
      modifies this, events
      ensures Valid() && events == old(events) && model == Apply(old(model), PollSleeper)
    {
      HeadIsFirst();
      if head == null && wouldSleepHead != null {
        var event := wouldSleepHead;
        assert Remove(model.sleep, 0) == model.sleep[1..];
        Disarm(event);
        ArmDepthFirst(event);
      }
    }
  }

  /** The slot that leads to a queued event. */
  ghost function Place(Q: Queue<Event>, e: Event): Slot
    requires Armed(Q, e)
  {
    if e in Q.q then SlotAt(Head, Q.q, IndexOf(Q.q, e)) else SlotAt(SleepHead, Q.sleep, IndexOf(Q.sleep, e))
  }

  lemma RemovePlaces(q: seq<Event>, i: nat)
    requires i < |q| && NoDup(q)
    ensures |Remove(q, i)| == |q| - 1
    ensures forall k | 0 <= k < i :: Remove(q, i)[k] == q[k]
    ensures forall k | i <= k < |q| - 1 :: Remove(q, i)[k] == q[k + 1]
    ensures forall k | 0 <= k < |q| && k != i :: q[k] != q[i]
    ensures i > 0 ==> forall k | 0 <= k < |q| && k != i - 1 :: q[k] != q[i - 1]
    ensures i + 1 < |q| ==> forall k | 0 <= k < |q| && k != i + 1 :: q[k] != q[i + 1]
  {
  }

  /** The slot of a position after a removal: the same, unless it was the removed event's own. */
  lemma SlotAfterRemove(base: Slot, q: seq<Event>, i: nat, j: nat)
    requires i < |q| && j <= |q| && NoDup(q) && (base == Head || base == SleepHead)
    ensures |Remove(q, i)| == |q| - 1
    ensures SlotAt(base, Remove(q, i), if j > i then j - 1 else j) ==
            Rerouted(SlotAt(base, q, j), q[i], SlotAt(base, q, i))
  {
    var t := Remove(q, i);
    if j > i + 1 { assert t[j - 2] == q[j - 1]; }
  }

  ghost function Rerouted(s: Slot, e: Event, prev: Slot): Slot {
    if s == NextOf(e) then prev else s
  }

  /** The list a linked event is in, and the other one. */
  ghost function BaseOf(Q: Queue<Event>, e: Event): Slot {
    if e in Q.q then Head else SleepHead
  }

  ghost function Mine(Q: Queue<Event>, e: Event): seq<Event> {
    if e in Q.q then Q.q else Q.sleep
  }

  ghost function Other(Q: Queue<Event>, e: Event): seq<Event> {
    if e in Q.q then Q.sleep else Q.q
  }

  lemma DisarmPlaces(Q: Queue<Event>, e: Event)
    requires EventQueue.Valid(Q)
    ensures BaseOf(Q, e) == Head || BaseOf(Q, e) == SleepHead
    ensures if BaseOf(Q, e) == Head then Mine(Q, e) == Q.q && Other(Q, e) == Q.sleep
            else Mine(Q, e) == Q.sleep && Other(Q, e) == Q.q
    ensures Armed(Q, e) ==>
            && e in Mine(Q, e) && NoDup(Mine(Q, e)) && (forall x | x in Other(Q, e) :: x !in Mine(Q, e))
            && var R, left := EventQueue.Disarm(Q, e), Remove(Mine(Q, e), IndexOf(Mine(Q, e), e));
               if BaseOf(Q, e) == Head then R.q == left && R.sleep == Q.sleep else R.q == Q.q && R.sleep == left
  {
  }

  lemma DisarmSlots(Q: Queue<Event>, e: Event)
    requires EventQueue.Valid(Q)
    ensures Q.df <= Q.bf <= |Q.q| && (!Armed(Q, e) ==> EventQueue.Disarm(Q, e) == Q)
    ensures var R := EventQueue.Disarm(Q, e);
            EventQueue.Valid(R) && R.df <= R.bf <= |R.q| && (Armed(Q, e) ==>
            var p := Place(Q, e);
            && SlotAt(Head, R.q, R.df) == Rerouted(SlotAt(Head, Q.q, Q.df), e, p)
            && SlotAt(Head, R.q, R.bf) == Rerouted(SlotAt(Head, Q.q, Q.bf), e, p)
            && SlotAt(Head, R.q, |R.q|) == Rerouted(SlotAt(Head, Q.q, |Q.q|), e, p)
            && SlotAt(SleepHead, R.sleep, |R.sleep|) == Rerouted(SlotAt(SleepHead, Q.sleep, |Q.sleep|), e, p))
  {
    ApplyValid(Q, Cancel(e));
    if e in Q.q {
      var i := IndexOf(Q.q, e);
      SlotAfterRemove(Head, Q.q, i, Q.df);
      SlotAfterRemove(Head, Q.q, i, Q.bf);
      SlotAfterRemove(Head, Q.q, i, |Q.q|);
      SlotElsewhere(SleepHead, Q.sleep, |Q.sleep|, e);
      hide NoDup, Remove, SlotAt, IndexOf;
    } else if e in Q.sleep {
      SlotAfterRemove(SleepHead, Q.sleep, IndexOf(Q.sleep, e), |Q.sleep|);
      SlotElsewhere(Head, Q.q, Q.df, e);
      SlotElsewhere(Head, Q.q, Q.bf, e);
      SlotElsewhere(Head, Q.q, |Q.q|, e);
      hide NoDup, Remove, SlotAt, IndexOf;
    }
  }

  lemma SlotElsewhere(base: Slot, q: seq<Event>, j: nat, e: Event)
    requires e !in q && j <= |q| && (base == Head || base == SleepHead)
    ensures SlotAt(base, q, j) != NextOf(e)
  {
  }

  lemma PopSlots(Q: Queue<Event>)
    requires EventQueue.Valid(Q) && Q.q != []
    ensures NoDup(Q.q) && (forall x | x in Q.sleep :: x !in Q.q) && Pop(Q).q == Remove(Q.q, 0)
    ensures var R, e := Pop(Q), Q.q[0];
            && EventQueue.Valid(R) && R.df <= R.bf <= |R.q|
            && SlotAt(Head, R.q, R.df) == Head
            && SlotAt(Head, R.q, R.bf) == Rerouted(SlotAt(Head, Q.q, Q.bf), e, Head)
            && SlotAt(Head, R.q, |R.q|) == Rerouted(SlotAt(Head, Q.q, |Q.q|), e, Head)
  {
    PopValid(Q);
    hide EventQueue.Valid, NoDup, Remove, SlotAt;
    PopSlot(Q.q, 0);
    PopSlot(Q.q, Q.bf);
    PopSlot(Q.q, |Q.q|);
  }

  lemma PopValid(Q: Queue<Event>)
    requires EventQueue.Valid(Q) && Q.q != []
    ensures NoDup(Q.q) && (forall x | x in Q.sleep :: x !in Q.q) && Pop(Q).q == Remove(Q.q, 0)
    ensures EventQueue.Valid(Pop(Q)) && Q.df <= Q.bf <= |Q.q|
  {
    ApplyValid(Q, Turn);
  }

  lemma PopSlot(q: seq<Event>, j: nat)
    requires q != [] && j <= |q| && NoDup(q)
    ensures SlotAt(Head, q[1..], if j > 0 then j - 1 else 0) == Rerouted(SlotAt(Head, q, j), q[0], Head)
  {
    if j > 1 { assert q[1..][j - 2] == q[j - 1]; }
  }

  lemma ArmWhenWouldSleepSlots(Q: Queue<Event>, e: Event)
    requires EventQueue.Valid(Q)
    ensures Q.df <= Q.bf <= |Q.q| && (Armed(Q, e) ==> EventQueue.ArmWhenWouldSleep(Q, e) == Q)
    ensures var R := EventQueue.ArmWhenWouldSleep(Q, e);
            EventQueue.Valid(R) && R.df == Q.df && R.bf == Q.bf && R.q == Q.q && (!Armed(Q, e) ==>
            && R.sleep == Insert(Q.sleep, 0, e)
            && SlotAt(SleepHead, R.sleep, |R.sleep|) == Moved(SlotAt(SleepHead, Q.sleep, |Q.sleep|), SleepHead, e))
  {
    ApplyValid(Q, WhenWouldSleep(e));
    assert Insert(Q.sleep, 0, e) == [e] + Q.sleep;
    SlotAfterInsert(SleepHead, Q.sleep, 0, e, |Q.sleep|);
  }

  /** Where the elements stand after an insertion into a list without repetitions. */
  lemma InsertPlaces(q: seq<Event>, i: nat, e: Event)
    requires i <= |q| && NoDup(q)
    ensures |Insert(q, i, e)| == |q| + 1 && Insert(q, i, e)[i] == e
    ensures forall k | 0 <= k < i :: Insert(q, i, e)[k] == q[k]
    ensures forall k | i < k <= |q| :: Insert(q, i, e)[k] == q[k - 1]
    ensures i > 0 ==> forall k | 0 <= k < |q| && k != i - 1 :: q[k] != q[i - 1]
    ensures i < |q| ==> forall k | 0 <= k < |q| && k != i :: q[k] != q[i]
  {
  }

  /** The slot of a position after an insertion: the same, unless it was the very slot used. */
  ghost function Moved(s: Slot, used: Slot, e: Event): Slot {
    if s == used then NextOf(e) else s
  }

  lemma ArmDepthFirstSlots(Q: Queue<Event>, e: Event)
    requires EventQueue.Valid(Q)
    ensures Q.df <= Q.bf <= |Q.q| && (Armed(Q, e) ==> EventQueue.ArmDepthFirst(Q, e) == Q)
    ensures var R, s := EventQueue.ArmDepthFirst(Q, e), SlotAt(Head, Q.q, Q.df);
            EventQueue.Valid(R) && R.df <= R.bf <= |R.q| && (!Armed(Q, e) ==>
            && R.q == Insert(Q.q, Q.df, e) && R.sleep == Q.sleep
            && SlotAt(Head, R.q, R.df) == NextOf(e)
            && SlotAt(Head, R.q, R.bf) == Moved(SlotAt(Head, Q.q, Q.bf), s, e)
            && SlotAt(Head, R.q, |R.q|) == Moved(SlotAt(Head, Q.q, |Q.q|), s, e))
  {
    ApplyValid(Q, DepthFirst(e));
    assert |Insert(Q.q, Q.df, e)| == |Q.q| + 1;
    SlotAfterInsert(Head, Q.q, Q.df, e, |Q.q|);
    SlotAfterInsert(Head, Q.q, Q.df, e, Q.df);
    SlotAfterInsert(Head, Q.q, Q.df, e, Q.bf);
  }

  lemma ArmBreadthFirstSlots(Q: Queue<Event>, e: Event)
    requires EventQueue.Valid(Q)
    ensures Q.df <= Q.bf <= |Q.q| && (Armed(Q, e) ==> EventQueue.ArmBreadthFirst(Q, e) == Q)
    ensures var R, s := EventQueue.ArmBreadthFirst(Q, e), SlotAt(Head, Q.q, Q.bf);
            EventQueue.Valid(R) && R.df <= R.bf <= |R.q| && (!Armed(Q, e) ==>
            && R.q == Insert(Q.q, Q.bf, e) && R.sleep == Q.sleep
            && SlotAt(Head, R.q, R.df) == SlotAt(Head, Q.q, Q.df)
            && SlotAt(Head, R.q, R.bf) == NextOf(e)
            && SlotAt(Head, R.q, |R.q|) == Moved(SlotAt(Head, Q.q, |Q.q|), s, e))
  {
    ApplyValid(Q, BreadthFirst(e));
    assert |Insert(Q.q, Q.bf, e)| == |Q.q| + 1;
    SlotAfterInsert(Head, Q.q, Q.bf, e, |Q.q|);
    SlotBeforeInsert(Head, Q.q, Q.bf, e, Q.df);
    SlotAfterInsert(Head, Q.q, Q.bf, e, Q.bf);
  }

  lemma ArmLastSlots(Q: Queue<Event>, e: Event)
    requires EventQueue.Valid(Q)
    ensures Q.df <= Q.bf <= |Q.q| && (Armed(Q, e) ==> EventQueue.ArmLast(Q, e) == Q)
    ensures var R, s := EventQueue.ArmLast(Q, e), SlotAt(Head, Q.q, Q.bf);
            EventQueue.Valid(R) && R.df <= R.bf <= |R.q| && (!Armed(Q, e) ==>
            && R.q == Insert(Q.q, Q.bf, e) && R.sleep == Q.sleep
            && SlotAt(Head, R.q, R.df) == SlotAt(Head, Q.q, Q.df)
            && SlotAt(Head, R.q, R.bf) == SlotAt(Head, Q.q, Q.bf)
            && SlotAt(Head, R.q, |R.q|) == Moved(SlotAt(Head, Q.q, |Q.q|), s, e))
  {
    ApplyValid(Q, Last(e));
    assert |Insert(Q.q, Q.bf, e)| == |Q.q| + 1;
    SlotAfterInsert(Head, Q.q, Q.bf, e, |Q.q|);
    SlotBeforeInsert(Head, Q.q, Q.bf, e, Q.df);
    SlotBeforeInsert(Head, Q.q, Q.bf, e, Q.bf);
  }

  lemma SlotAfterInsert(base: Slot, q: seq<Event>, i: nat, e: Event, j: nat)
    requires i <= j <= |q| && NoDup(q) && (base == Head || base == SleepHead)
    ensures |Insert(q, i, e)| == |q| + 1
    ensures SlotAt(base, Insert(q, i, e), j + 1) == Moved(SlotAt(base, q, j), SlotAt(base, q, i), e)
  {
    var t := Insert(q, i, e);
    if j > i { assert t[j] == q[j - 1]; }
  }

  lemma SlotBeforeInsert(base: Slot, q: seq<Event>, i: nat, e: Event, j: nat)
    requires j <= i <= |q|
    ensures |Insert(q, i, e)| == |q| + 1 && SlotAt(base, Insert(q, i, e), j) == SlotAt(base, q, j)
  {
  }
}
