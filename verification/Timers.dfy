/** Timers of an event loop (TimerImpl, libraries/zc/async/timer.cc). Times and durations are
    whole numbers of the clock's finest unit. */
module Timers {
  import opened Wrappers

  /** A timer that waits; `id` counts timers in the order of their creation. */
  datatype Timer = Timer(time: int, id: nat)

  /** `sent` is what the hooks were last told while the loop sleeps; `fired` are all timers that
      have fired, with the time it was then. */
  datatype State = State(
    now: int,
    timers: seq<Timer>,
    sleeping: bool,
    sent: Option<int>,
    made: nat,
    fired: seq<(Timer, int)>)

  datatype Event =
    | AtTime(time: int)     // a timer is made
    | Drop(k: nat)          // the k-th timer's promise is dropped
    | AdvanceTo(time: int)
    | Sleep                 // the event port sends the next event's time and sets itself as hooks

  function Init(start: int): State {
    State(start, [], false, None, 0, [])
  }

  predicate Enabled(s: State, e: Event) {
    e.Drop? ==> e.k < |s.timers|
  }

  /** TimerImpl::nextEvent */
  function NextEvent(timers: seq<Timer>): Option<int> {
    if timers == [] then None else Some(timers[0].time)
  }

  /** multiset::insert: behind all timers that are not later. */
  function Insert(timers: seq<Timer>, t: Timer): seq<Timer> {
    if timers == [] || t.time < timers[0].time then [t] + timers
    else [timers[0]] + Insert(timers[1..], t)
  }

  /** How many timers at the front have a time that has come. */
  function DueCount(timers: seq<Timer>, now: int): (n: nat)
    ensures n <= |timers|
  {
    if timers == [] || timers[0].time > now then 0 else 1 + DueCount(timers[1..], now)
  }

  function Stamp(timers: seq<Timer>, now: int): (r: seq<(Timer, int)>)
    ensures |r| == |timers| && forall i | 0 <= i < |r| :: r[i] == (timers[i], now)
  {
    seq(|timers|, i requires 0 <= i < |timers| => (timers[i], now))
  }

  function Step(s: State, e: Event): State
    requires Enabled(s, e)
  {
    match e
    case AtTime(time) =>
      var timers := Insert(s.timers, Timer(time, s.made));
      s.(timers := timers, made := s.made + 1,
         sent := if s.sleeping && timers[0].id == s.made then Some(time) else s.sent)
    case Drop(k) =>
      var timers := s.timers[..k] + s.timers[k + 1..];
      s.(timers := timers, sent := if s.sleeping && k == 0 then NextEvent(timers) else s.sent)
    case AdvanceTo(time) =>
      if time < s.now then s.(sleeping := false)
      else
        var n := DueCount(s.timers, time);
        s.(sleeping := false, now := time, timers := s.timers[n..], fired := s.fired + Stamp(s.timers[..n], time))
    case Sleep => s.(sleeping := true, sent := NextEvent(s.timers))
  }

  predicate AllEnabled(s: State, es: seq<Event>)
    decreases |es|
  {
    es == [] || (Enabled(s, es[0]) && AllEnabled(Step(s, es[0]), es[1..]))
  }

  function Run(s: State, es: seq<Event>): State
    requires AllEnabled(s, es)
    decreases |es|
  {
    if es == [] then s else Run(Step(s, es[0]), es[1..])
  }

  // ---------------------------------------------------------------------------
  // Order.

  /** By time, and by age at the same time. */
  predicate Before(a: Timer, b: Timer) {
    a.time < b.time || (a.time == b.time && a.id < b.id)
  }

  predicate Sorted(timers: seq<Timer>) {
    forall i, j | 0 <= i < j < |timers| :: Before(timers[i], timers[j])
  }

  lemma {:induction false} InsertSorted(timers: seq<Timer>, t: Timer)
    requires Sorted(timers) && forall i | 0 <= i < |timers| :: timers[i].id < t.id
    ensures Sorted(Insert(timers, t)) && multiset(Insert(timers, t)) == multiset(timers) + multiset{t}
    ensures Insert(timers, t) != [] && (Insert(timers, t)[0] == t <==> timers == [] || t.time < timers[0].time)
    ensures Insert(timers, t)[0] != t ==> Insert(timers, t)[0] == timers[0]
    ensures forall x :: x in Insert(timers, t) <==> x in timers || x == t
  {
    if timers == [] || t.time < timers[0].time {
    } else {
      var rest := timers[1..];
      InsertSorted(rest, t);
      var r := Insert(rest, t);
      assert timers == [timers[0]] + rest;
      forall j | 0 <= j < |r| ensures Before(timers[0], r[j]) {
        assert r[j] in r;
        if r[j] in rest {
          var k :| 0 <= k < |rest| && rest[k] == r[j];
          assert timers[k + 1] == r[j];
        }
      }
    }
  }

  /** The due timers are exactly those whose time has come, and all others come later. */
  lemma {:induction false} DueExact(timers: seq<Timer>, now: int)
    requires Sorted(timers)
    ensures forall i | 0 <= i < |timers| :: i < DueCount(timers, now) <==> timers[i].time <= now
  {
    if timers != [] {
      if timers[0].time <= now {
        DueExact(timers[1..], now);
        assert forall i | 0 < i < |timers| :: timers[i] == timers[1..][i - 1];
      } else {
        assert forall i | 0 < i < |timers| :: Before(timers[0], timers[i]);
      }
    }
  }

  // ---------------------------------------------------------------------------
  // Invariants.

  /** Every timer is in one place: it waits or has fired, and nobody has its number twice. */
  predicate IdsOk(timers: seq<Timer>, fired: seq<(Timer, int)>, made: nat) {
    && (forall i | 0 <= i < |timers| :: timers[i].id < made)
    && (forall i | 0 <= i < |fired| :: fired[i].0.id < made)
    && Distinct(timers)
    && (forall i, j | 0 <= i < j < |fired| :: fired[i].0.id != fired[j].0.id)
    && (forall i, j | 0 <= i < |timers| && 0 <= j < |fired| :: timers[i].id != fired[j].0.id)
  }

  /** No timer has fired before its time. */
  predicate NoneEarly(fired: seq<(Timer, int)>) {
    forall i | 0 <= i < |fired| :: fired[i].0.time <= fired[i].1
  }

  predicate Inv(s: State) {
    && Sorted(s.timers)
    && IdsOk(s.timers, s.fired, s.made)
    && NoneEarly(s.fired)
    && (s.sleeping ==> s.sent == NextEvent(s.timers))
  }

  predicate Distinct(timers: seq<Timer>) {
    forall i, j | 0 <= i < j < |timers| :: timers[i].id != timers[j].id
  }

  predicate UpTo(timers: seq<Timer>, bound: nat) {
    forall i | 0 <= i < |timers| :: timers[i].id <= bound
  }

  lemma {:induction false} InsertIds(timers: seq<Timer>, t: Timer)
    requires UpTo(timers, t.id) && Distinct(timers) && forall i | 0 <= i < |timers| :: timers[i].id != t.id
    ensures UpTo(Insert(timers, t), t.id) && Distinct(Insert(timers, t))
  {
    if timers == [] || t.time < timers[0].time {
      ConsIds(t, timers, t.id);
    } else {
      var rest := timers[1..];
      InsertIds(rest, t);
      var r := Insert(rest, t);
      InsertMembers(rest, t);
      forall j | 0 <= j < |r| ensures r[j].id != timers[0].id {
        assert r[j] in r;
        if r[j] != t {
          var k :| 0 <= k < |rest| && rest[k] == r[j];
          assert timers[k + 1] == r[j];
        }
      }
      ConsIds(timers[0], r, t.id);
    }
  }

  lemma ConsIds(x: Timer, rest: seq<Timer>, bound: nat)
    requires x.id <= bound && UpTo(rest, bound) && Distinct(rest)
    requires forall i | 0 <= i < |rest| :: rest[i].id != x.id
    ensures UpTo([x] + rest, bound) && Distinct([x] + rest)
  {
  }

  lemma {:induction false} InsertMembers(timers: seq<Timer>, t: Timer)
    ensures forall x :: x in Insert(timers, t) <==> x in timers || x == t
  {
    if timers != [] && t.time >= timers[0].time {
      InsertMembers(timers[1..], t);
      assert timers == [timers[0]] + timers[1..];
    }
  }

  lemma AtTimeInv(s: State, time: int)
    requires Inv(s)
    ensures Inv(Step(s, AtTime(time)))
  {
    var t := Timer(time, s.made);
    InsertSorted(s.timers, t);
    InsertIds(s.timers, t);
    var r := Insert(s.timers, t);
    forall i, j | 0 <= i < |r| && 0 <= j < |s.fired| ensures r[i].id != s.fired[j].0.id {
      assert r[i] in r;
    }
    hide Insert;
  }

  lemma DropInv(s: State, k: nat)
    requires Inv(s) && k < |s.timers|
    ensures Inv(Step(s, Drop(k)))
  {
  }

  lemma AdvanceInv(s: State, time: int)
    requires Inv(s)
    ensures Inv(Step(s, AdvanceTo(time)))
  {
    DueExact(s.timers, time);
    hide DueCount, Sorted;
    assert Sorted(s.timers[DueCount(s.timers, time)..]) by { SortedRest(s.timers, DueCount(s.timers, time)); }
  }

  lemma SortedRest(timers: seq<Timer>, n: nat)
    requires Sorted(timers) && n <= |timers|
    ensures Sorted(timers[n..])
  {
  }

  lemma StepInv(s: State, e: Event)
    requires Inv(s) && Enabled(s, e)
    ensures Inv(Step(s, e))
  {
    match e
    case AtTime(time) => AtTimeInv(s, time);
    case Drop(k) => DropInv(s, k);
    case AdvanceTo(time) => AdvanceInv(s, time);
    case Sleep =>
    hide Sorted, IdsOk, NoneEarly;
  }

  lemma {:induction false} RunInv(s: State, es: seq<Event>)
    requires Inv(s) && AllEnabled(s, es)
    ensures Inv(Run(s, es))
    decreases |es|
  {
    hide Inv, Step, Enabled;
    if es != [] {
      StepInv(s, es[0]);
      RunInv(Step(s, es[0]), es[1..]);
    }
  }

  // ---------------------------------------------------------------------------
  // What timers promise.

  /** Advancing fires exactly the timers whose time has come, in the order of their times, and
      those with the same time in the order they were made; all others go on waiting. */
  lemma AdvanceFires(start: int, es: seq<Event>, time: int)
    requires AllEnabled(Init(start), es) && time >= Run(Init(start), es).now
    ensures var s := Run(Init(start), es);
            var t := Step(s, AdvanceTo(time));
            exists n: nat :: n <= |s.timers|
              && t.fired == s.fired + Stamp(s.timers[..n], time) && t.timers == s.timers[n..]
              && Sorted(s.timers[..n])
              && (forall i | 0 <= i < n :: s.timers[i].time <= time)
              && (forall i | 0 <= i < |t.timers| :: t.timers[i].time > time)
  {
    RunInv(Init(start), es);
    var s := Run(Init(start), es);
    var n := DueCount(s.timers, time);
    DueExact(s.timers, time);
    assert Sorted(s.timers[..n]);
    hide DueCount;
  }

  /** In every run no timer fires early or twice, and none has fired and still waits; and while the
      event port sleeps, what it was told last is when the next timer is due. */
  lemma TimersKeptInOrder(start: int, es: seq<Event>)
    requires AllEnabled(Init(start), es)
    ensures var s := Run(Init(start), es);
            && (forall i | 0 <= i < |s.fired| :: s.fired[i].0.time <= s.fired[i].1)
            && (forall i, j | 0 <= i < j < |s.fired| :: s.fired[i].0.id != s.fired[j].0.id)
            && (forall i, j | 0 <= i < |s.timers| && 0 <= j < |s.fired| :: s.timers[i].id != s.fired[j].0.id)
            && (s.sleeping ==> s.sent == NextEvent(s.timers))
            && (forall i | 0 <= i < |s.timers| :: NextEvent(s.timers).value <= s.timers[i].time)
  {
    RunInv(Init(start), es);
  }

  // ---------------------------------------------------------------------------
  // What becomes of each timer.

  /** The times asked for, in order; timers are numbered by their place here. */
  function Requested(es: seq<Event>): seq<int> {
    if es == [] then [] else (if es[0].AtTime? then [es[0].time] else []) + Requested(es[1..])
  }

  /** The numbers of the timers dropped in a run. */
  function Dropped(s: State, es: seq<Event>): seq<nat>
    requires AllEnabled(s, es)
    decreases |es|
  {
    if es == [] then []
    else (if es[0].Drop? then [s.timers[es[0].k].id] else []) + Dropped(Step(s, es[0]), es[1..])
  }

  ghost predicate Waits(s: State, id: nat) {
    exists i :: 0 <= i < |s.timers| && s.timers[i].id == id
  }

  ghost predicate HasFired(s: State, id: nat) {
    exists i :: 0 <= i < |s.fired| && s.fired[i].0.id == id
  }

  /** Every timer is for the time that was asked for under its number. */
  ghost predicate TimesOk(s: State, requested: seq<int>) {
    && s.made == |requested|
    && (forall i | 0 <= i < |s.timers| :: s.timers[i].id < s.made && s.timers[i].time == requested[s.timers[i].id])
    && (forall i | 0 <= i < |s.fired| ::
         s.fired[i].0.id < s.made && s.fired[i].0.time == requested[s.fired[i].0.id])
  }

  lemma TimesStep(s: State, e: Event, requested: seq<int>)
    requires Inv(s) && Enabled(s, e) && TimesOk(s, requested)
    ensures TimesOk(Step(s, e), requested + if e.AtTime? then [e.time] else [])
  {
    if e.AtTime? {
      var t := Timer(e.time, s.made);
      InsertMembers(s.timers, t);
      var r := Insert(s.timers, t);
      forall i | 0 <= i < |r| ensures r[i].id <= s.made && r[i].time == (requested + [e.time])[r[i].id] {
        assert r[i] in r;
      }
    }
    hide Insert, DueCount, Sorted;
  }

  lemma {:induction false} TimesRun(s: State, es: seq<Event>, requested: seq<int>)
    requires Inv(s) && AllEnabled(s, es) && TimesOk(s, requested)
    ensures TimesOk(Run(s, es), requested + Requested(es))
    decreases |es|
  {
    hide Inv, Step, Enabled, TimesOk;
    if es == [] {
      assert requested + [] == requested;
    } else {
      var one := if es[0].AtTime? then [es[0].time] else [];
      TimesStep(s, es[0], requested);
      StepInv(s, es[0]);
      TimesRun(Step(s, es[0]), es[1..], requested + one);
      assert (requested + one) + Requested(es[1..]) == requested + (one + Requested(es[1..]));
    }
  }

  /** A step takes a timer away only by firing or by dropping it. */
  lemma Stays(s: State, e: Event, id: nat)
    requires Inv(s) && Enabled(s, e)
    ensures var t := Step(s, e);
            var gone := e.Drop? && s.timers[e.k].id == id;
            && (HasFired(s, id) ==> HasFired(t, id))
            && (Waits(s, id) && !gone ==> Waits(t, id) || HasFired(t, id))
            && (e.AtTime? && id == s.made ==> Waits(t, id))
            && (gone ==> !Waits(t, id) && !HasFired(t, id))
            && (!Waits(s, id) && !HasFired(s, id) && id < s.made ==> !Waits(t, id) && !HasFired(t, id))
  {
    match e
    case AtTime(time) => AddedStays(s, time, id);
    case Drop(k) => DroppedStays(s, k, id);
    case AdvanceTo(time) => FiredStays(s, time, id);
    case Sleep =>
  }

  lemma AddedStays(s: State, time: int, id: nat)
    requires Inv(s)
    ensures var t := Step(s, AtTime(time)); Waits(t, id) <==> Waits(s, id) || id == s.made
  {
    var x := Timer(time, s.made);
    InsertMembers(s.timers, x);
    var r := Insert(s.timers, x);
    if Waits(s, id) {
      var i :| 0 <= i < |s.timers| && s.timers[i].id == id;
      assert s.timers[i] in r;
    }
    if id == s.made { assert x in r; }
    if i :| 0 <= i < |r| && r[i].id == id { assert r[i] in r; }
    hide Insert, Sorted;
  }

  lemma DroppedStays(s: State, k: nat, id: nat)
    requires Inv(s) && k < |s.timers|
    ensures var t := Step(s, Drop(k)); Waits(t, id) <==> Waits(s, id) && s.timers[k].id != id
  {
    var t := Step(s, Drop(k));
    assert forall i | 0 <= i < |t.timers| :: t.timers[i] == s.timers[if i < k then i else i + 1];
    if Waits(s, id) && s.timers[k].id != id {
      var i :| 0 <= i < |s.timers| && s.timers[i].id == id;
      assert t.timers[if i < k then i else i - 1].id == id;
    }
    hide Sorted;
  }

  lemma FiredStays(s: State, time: int, id: nat)
    requires Inv(s)
    ensures var t := Step(s, AdvanceTo(time));
            && (HasFired(s, id) ==> HasFired(t, id))
            && (Waits(s, id) || HasFired(s, id) <==> Waits(t, id) || HasFired(t, id))
  {
    var t := Step(s, AdvanceTo(time));
    if time >= s.now {
      var n := DueCount(s.timers, time);
      if HasFired(s, id) {
        var i :| 0 <= i < |s.fired| && s.fired[i].0.id == id;
        assert t.fired[i].0.id == id;
      }
      if Waits(s, id) {
        var i :| 0 <= i < |s.timers| && s.timers[i].id == id;
        if i < n { assert t.fired[|s.fired| + i].0.id == id; } else { assert t.timers[i - n].id == id; }
      }
    }
    hide Sorted, DueCount;
  }

  ghost predicate Accounted(s: State, dropped: seq<nat>) {
    && (forall id: nat | id < s.made :: Waits(s, id) || HasFired(s, id) || id in dropped)
    && (forall id: nat | id in dropped :: id < s.made && !Waits(s, id) && !HasFired(s, id))
  }

  lemma AccountedStep(s: State, e: Event, dropped: seq<nat>)
    requires Inv(s) && Enabled(s, e) && Accounted(s, dropped)
    ensures Accounted(Step(s, e), dropped + if e.Drop? then [s.timers[e.k].id] else [])
  {
    var t, d := Step(s, e), dropped + if e.Drop? then [s.timers[e.k].id] else [];
    forall id: nat | id < t.made ensures Waits(t, id) || HasFired(t, id) || id in d { Stays(s, e, id); }
    forall id: nat | id in d ensures id < t.made && !Waits(t, id) && !HasFired(t, id) {
      Stays(s, e, id);
    }
    hide Waits, HasFired, Sorted, Insert, DueCount;
  }

  lemma {:induction false} AccountedRun(s: State, es: seq<Event>, dropped: seq<nat>)
    requires Inv(s) && AllEnabled(s, es) && Accounted(s, dropped)
    ensures Accounted(Run(s, es), dropped + Dropped(s, es))
    decreases |es|
  {
    assert es != [] && es[0].Drop? ==> es[0].k < |s.timers|;
    hide Inv, Step, Enabled, Accounted;
    if es == [] {
      assert dropped + [] == dropped;
    } else {
      var one := if es[0].Drop? then [s.timers[es[0].k].id] else [];
      AccountedStep(s, es[0], dropped);
      StepInv(s, es[0]);
      AccountedRun(Step(s, es[0]), es[1..], dropped + one);
      var rest := Dropped(Step(s, es[0]), es[1..]);
      assert (dropped + one) + rest == dropped + (one + rest);
    }
  }

  /** In every run each timer is for the time that was asked for, and waits, has fired or has been
      dropped; one that was dropped neither waits nor fires. */
  lemma EveryTimer(start: int, es: seq<Event>, id: nat)
    requires AllEnabled(Init(start), es)
    ensures var s := Run(Init(start), es);
            && s.made == |Requested(es)|
            && (forall i | 0 <= i < |s.timers| ::
                 s.timers[i].id < s.made && s.timers[i].time == Requested(es)[s.timers[i].id])
            && (forall i | 0 <= i < |s.fired| ::
                 s.fired[i].0.id < s.made && s.fired[i].0.time == Requested(es)[s.fired[i].0.id])
            && (id < s.made ==> Waits(s, id) || HasFired(s, id) || id in Dropped(Init(start), es))
            && (id in Dropped(Init(start), es) ==> !Waits(s, id) && !HasFired(s, id))
  {
    TimesRun(Init(start), es, []);
    assert [] + Requested(es) == Requested(es);
    AccountedRun(Init(start), es, []);
    assert [] + Dropped(Init(start), es) == Dropped(Init(start), es);
    hide Run, Waits, HasFired;
  }

  /** The clock goes where it is told, never back; the hooks are there from when the port goes to
      sleep until the clock is advanced. */
  lemma ClockAndHooks(s: State, e: Event)
    requires Enabled(s, e)
    ensures var t := Step(s, e);
            && t.now == (if e.AdvanceTo? then (if e.time < s.now then s.now else e.time) else s.now)
            && (t.sleeping <==> e == Sleep || (s.sleeping && !e.AdvanceTo?))
            && (e.AdvanceTo? && e.time < s.now ==> t.timers == s.timers && t.fired == s.fired)
  {
    hide Insert, DueCount;
  }

  // ---------------------------------------------------------------------------
  // Timeouts.

  /** TimerImpl::timeoutToNextEvent: whole units until the next event, rounded up and clamped. */
  function Timeout(next: int, start: int, unit: int, max: nat): nat
    requires unit > 0
  {
    if next <= start then 0
    else
      var timeout := next - start;
      var result := timeout / unit;
      if result >= max then max else result + (if timeout % unit > 0 then 1 else 0)
  }

  /** The units that have to pass. */
  predicate Reaches(start: int, units: nat, unit: int, next: int) {
    start + units * unit >= next
  }

  lemma MulOrder(a: int, b: int, unit: int)
    requires unit > 0
    ensures a <= b ==> a * unit <= b * unit
    ensures a < b ==> a * unit + unit <= b * unit
  {
    if a < b { assert (b - a) * unit == (b - a - 1) * unit + unit; }
  }

  /** The timeout is the least number of units that reaches the next event if that is at most the
      maximum, and the maximum otherwise. */
  lemma TimeoutExact(next: int, start: int, unit: int, max: nat)
    requires unit > 0
    ensures var r := Timeout(next, start, unit, max);
            && r <= max
            && (Reaches(start, r, unit, next) <==> Reaches(start, max, unit, next))
            && forall k: nat | k < r :: !Reaches(start, k, unit, next)
  {
    var r := Timeout(next, start, unit, max);
    if next > start {
      var q, m := (next - start) / unit, (next - start) % unit;
      assert next - start == q * unit + m;
      MulOrder(q, max, unit);
      MulOrder(q + 1, max, unit);
      MulOrder(max, q, unit);
      assert (q + 1) * unit == q * unit + unit;
      forall k: nat | k < r ensures !Reaches(start, k, unit, next) {
        MulOrder(k, q, unit);
        MulOrder(k, r, unit);
      }
    } else {
      assert max * unit >= 0 by { MulOrder(0, max, unit); }
    }
  }

  /** Sleeping for the timeout and then advancing fires the earliest timer, if and only if the
      maximum would be long enough for it. */
  lemma SleepThenFire(s: State, start: int, unit: int, max: nat)
    requires Inv(s) && s.timers != [] && unit > 0 && start >= s.now
    ensures var next := s.timers[0].time;
            var wake := start + Timeout(next, start, unit, max) * unit;
            && wake >= s.now
            && (s.timers[0] !in Step(s, AdvanceTo(wake)).timers <==> Reaches(start, max, unit, next))
  {
    var next := s.timers[0].time;
    var r := Timeout(next, start, unit, max);
    var wake := start + r * unit;
    MulOrder(0, r, unit);
    TimeoutExact(next, start, unit, max);
    DueExact(s.timers, wake);
    FrontGone(s.timers, DueCount(s.timers, wake));
    hide Timeout, DueCount, Inv;
  }

  lemma FrontGone(timers: seq<Timer>, n: nat)
    requires Sorted(timers) && timers != [] && n <= |timers|
    ensures timers[0] !in timers[n..] <==> n > 0
  {
    if n == 0 {
      assert timers[0..][0] == timers[0];
    } else {
      forall i | n <= i < |timers| ensures timers[i] != timers[0] {
        assert Before(timers[0], timers[i]);
      }
    }
  }

  // ---------------------------------------------------------------------------
  // The program.

  lemma {:induction false} Extend(s: State, es: seq<Event>, e: Event)
    requires AllEnabled(s, es) && Enabled(Run(s, es), e)
    ensures AllEnabled(s, es + [e]) && Run(s, es + [e]) == Step(Run(s, es), e)
    decreases |es|
  {
    hide Enabled, Step;
    if es == [] {
      assert ([] + [e])[1..] == [];
    } else {
      assert (es + [e])[0] == es[0] && (es + [e])[1..] == es[1..] + [e];
      Extend(Step(s, es[0]), es[1..], e);
    }
  }

  /** The state after a run of these events. */
  ghost predicate Reached(start: int, es: seq<Event>, s: State) {
    AllEnabled(Init(start), es) && Run(Init(start), es) == s
  }

  class TimerImpl {
    var time: int
    var timers: seq<Timer>
    var sleepHooks: bool
    var sent: Option<int>
    var made: nat
    var fired: seq<(Timer, int)>
    const startTime: int
    /** The events so far. */
    ghost var events: seq<Event>

    ghost function View(): State
      reads this
    {
      State(time, timers, sleepHooks, sent, made, fired)
    }

    /** The object is where the events so far have led the machine. */
    ghost predicate Valid()
      reads this
    {
      Inv(View()) && Reached(startTime, events, View())
    }

    lemma Advance(e: Event)
      requires Valid() && Enabled(View(), e)
      ensures Inv(Step(View(), e)) && Reached(startTime, events + [e], Step(View(), e))
    {
      hide Inv, Step;
      StepInv(View(), e);
      Extend(Init(startTime), events, e);
    }

    constructor (start: int)
      ensures Valid() && View() == Init(start) && startTime == start && events == []
    {
      startTime, events := start, [];
      time, timers, sleepHooks, sent, made, fired := start, [], false, None, 0, [];
    }

    /** multiset::insert, and where the new timer now is. */
    method InsertTimer(t: Timer) returns (pos: nat)
      requires Sorted(timers)
      modifies `timers
      ensures timers == Insert(old(timers), t) && pos < |timers| && timers[pos] == t
      ensures pos == 0 <==> old(timers) == [] || t.time < old(timers)[0].time
    {
      hide Insert, Sorted;
      pos := 0;
      assert timers[..0] == [] && timers[0..] == timers;
      while pos < |timers| && timers[pos].time <= t.time
        invariant pos <= |timers| && timers == old(timers)
        invariant Insert(timers, t) == timers[..pos] + Insert(timers[pos..], t)
        invariant pos > 0 ==> timers[0].time <= t.time
      {
        InsertBehind(timers, pos, t);
        pos := pos + 1;
      }
      InsertHere(timers[pos..], t);
      timers := timers[..pos] + ([t] + timers[pos..]);
    }

    lemma InsertBehind(timers: seq<Timer>, pos: nat, t: Timer)
      requires pos < |timers| && timers[pos].time <= t.time
      ensures timers[..pos] + Insert(timers[pos..], t) == timers[..pos + 1] + Insert(timers[pos + 1..], t)
    {
      assert timers[pos..][1..] == timers[pos + 1..];
    }

    lemma InsertHere(timers: seq<Timer>, t: Timer)
      requires timers == [] || t.time < timers[0].time
      ensures Insert(timers, t) == [t] + timers
    {
    }

    /** TimerPromiseAdapter's constructor. */
    method AtTime(at: int)
      requires Valid()
      modifies this
      ensures Valid() && View() == Step(old(View()), Event.AtTime(at))
      ensures events == old(events) + [Event.AtTime(at)]
    {
      Advance(Event.AtTime(at));
      events := events + [Event.AtTime(at)];
      InsertFront(at);
      var pos := InsertTimer(Timer(at, made));
      made := made + 1;
      if sleepHooks && pos == 0 { sent := Some(at); }
      hide Inv, Reached, Insert;
    }

    lemma InsertFront(at: int)
      requires Inv(View())
      ensures Insert(timers, Timer(at, made)) != []
      ensures Insert(timers, Timer(at, made))[0].id == made <==> timers == [] || at < timers[0].time
    {
      InsertSorted(timers, Timer(at, made));
      if timers != [] { assert timers[0].id < made; }
      hide Insert;
    }

    /** ~TimerPromiseAdapter of a timer that has not fired. */
    method Drop(k: nat)
      requires Valid() && k < |timers|
      modifies `timers, `sent, `events
      ensures Valid() && View() == Step(old(View()), Event.Drop(k))
      ensures events == old(events) + [Event.Drop(k)]
    {
      Advance(Event.Drop(k));
      events := events + [Event.Drop(k)];
      hide Inv, Reached;
      var isFirst := k == 0;
      timers := timers[..k] + timers[k + 1..];
      if sleepHooks && isFirst {
        sent := if timers == [] then None else Some(timers[0].time);
      }
    }

    method AdvanceTo(newTime: int)
      requires Valid()
      modifies this
      ensures Valid() && View() == Step(old(View()), Event.AdvanceTo(newTime))
      ensures events == old(events) + [Event.AdvanceTo(newTime)]
    {
      Advance(Event.AdvanceTo(newTime));
      events := events + [Event.AdvanceTo(newTime)];
      hide Inv, Reached;
      MoveTo(newTime);
    }

    method MoveTo(newTime: int)
      modifies `time, `timers, `sleepHooks, `fired
      ensures View() == Step(old(View()), Event.AdvanceTo(newTime))
    {
      sleepHooks := false;
      if newTime >= time {
        time := newTime;
        FireDue();
      }
    }

    method FireDue()
      modifies `timers, `fired
      ensures var n := DueCount(old(timers), time);
              timers == old(timers)[n..] && fired == old(fired) + Stamp(old(timers)[..n], time)
    {
      hide DueCount;
      ghost var was, n := timers, 0;
      assert was[..0] == [] && was[0..] == was;
      while timers != [] && timers[0].time <= time
        invariant n <= |was| && timers == was[n..] && fired == old(fired) + Stamp(was[..n], time)
        invariant DueCount(was, time) == n + DueCount(timers, time)
        decreases |timers|
      {
        DueNext(timers, time);
        StampNext(was, n, time);
        fired := fired + [(timers[0], time)];
        timers := timers[1..];
        n := n + 1;
      }
      DueStops(timers, time);
    }

    lemma DueNext(timers: seq<Timer>, now: int)
      requires timers != [] && timers[0].time <= now
      ensures DueCount(timers, now) == 1 + DueCount(timers[1..], now)
    {
    }

    lemma DueStops(timers: seq<Timer>, now: int)
      requires timers == [] || timers[0].time > now
      ensures DueCount(timers, now) == 0
    {
    }

    lemma StampNext(was: seq<Timer>, n: nat, now: int)
      requires n < |was|
      ensures Stamp(was[..n + 1], now) == Stamp(was[..n], now) + [(was[n], now)]
    {
    }

    /** The event port goes to sleep: it takes the next event's time and sets the hooks. */
    method SetSleeping()
      requires Valid()
      modifies `sleepHooks, `sent, `events
      ensures Valid() && View() == Step(old(View()), Event.Sleep)
      ensures events == old(events) + [Event.Sleep]
    {
      Advance(Event.Sleep);
      hide Inv, Reached;
      events := events + [Event.Sleep];
      sent := if timers == [] then None else Some(timers[0].time);
      sleepHooks := true;
    }

    method TimeoutToNextEvent(start: int, unit: int, max: nat) returns (r: Option<nat>)
      requires unit > 0
      ensures r == if timers == [] then None else Some(Timeout(timers[0].time, start, unit, max))
    {
      if timers == [] { return None; }
      var nextTime := timers[0].time;
      if nextTime <= start { return Some(0); }
      var timeout := nextTime - start;
      var result := timeout / unit;
      var roundUp := timeout % unit > 0;
      if result >= max { return Some(max); }
      return Some(if roundUp then result + 1 else result);
    }
  }
}
