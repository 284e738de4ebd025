/** Promises made from several others (ExclusiveJoinPromiseNode, ArrayJoinPromiseNodeBase and
    RaceSuccessfulPromiseNodeBase, libraries/zc/async/async.cc): for every order in which the
    branches' events fire, when the parent is armed and what it gets. */
module Combinators {
  import opened Wrappers

  /** How a node that has succeeded treats an exception already in the output: most nodes reset
      the output, a race sets the value beside it, and an array join leaves all as it is. */
  datatype Delivery = Resets | SetsValue | YieldsToFailure

  /** What a branch resolves to. `adds`: its node adds its exception to the output, and so keeps
      one that is already there, instead of setting it. */
  datatype Result<T> = Value(v: T, how: Delivery) | Error(e: int, adds: bool)

  /** An ExceptionOr: what a parent has got so far. With an exception the value has no meaning. */
  datatype Output<T> = Output(value: Option<T>, exception: Option<int>)

  const NoOutput: Output<int> := Output(None, None)

  /** ExceptionOrValue::addException */
  function AddException<T>(o: Output<T>, e: int): Output<T> {
    if o.exception.Some? then o else o.(exception := Some(e))
  }

  /** PromiseNode::get of a branch. */
  function GetInto<T>(r: Result<T>, o: Output<T>): Output<T> {
    match r
    case Value(v, how) =>
      if o.exception.None? || how.Resets? then Output(Some(v), None)
      else if how.SetsValue? then o.(value := Some(v))
      else o
    case Error(e, adds) => if adds then AddException(o, e) else o.(exception := Some(e))
  }

  /** Events of `n` branches that have fired, in order, each at most once. */
  predicate IsOrder(order: seq<nat>, n: nat) {
    && (forall k | 0 <= k < |order| :: order[k] < n)
    && forall j, k | 0 <= j < k < |order| :: order[j] != order[k]
  }

  function Front<T>(s: seq<T>): seq<T>
    requires s != []
  {
    s[..|s| - 1]
  }

  lemma FrontOrder(order: seq<nat>, n: nat)
    requires IsOrder(order, n) && order != []
    ensures IsOrder(Front(order), n) && order[|order| - 1] !in Front(order)
  {
  }

  /** The numbers below `n`. */
  ghost function Below(n: nat): (r: set<nat>)
    ensures |r| == n && forall i: nat :: i in r <==> i < n
  {
    if n == 0 then {} else Below(n - 1) + {n - 1}
  }

  ghost function Elements(order: seq<nat>): (r: set<nat>)
    ensures forall i: nat :: i in r <==> i in order
  {
    if order == [] then {} else Elements(Front(order)) + {order[|order| - 1]}
  }

  lemma {:induction false} ElementsSize(order: seq<nat>, n: nat)
    requires IsOrder(order, n)
    ensures |Elements(order)| == |order|
  {
    if order != [] {
      FrontOrder(order, n);
      ElementsSize(Front(order), n);
    }
  }

  /** Branches that fire differ, so no more than all of them do; and if that many do, all do. */
  lemma AllInOrder(order: seq<nat>, n: nat)
    requires IsOrder(order, n)
    ensures |order| <= n && (|order| == n <==> forall i: nat | i < n :: i in order)
  {
    var all, fired := Below(n), Elements(order);
    ElementsSize(order, n);
    assert fired <= all;
    SubsetSize(fired, all);
    if |order| == n { SameSize(fired, all); }
    if forall i: nat | i < n :: i in order { assert fired == all; }
  }

  lemma SubsetSize(a: set<nat>, b: set<nat>)
    requires a <= b
    ensures |a| <= |b|
  {
    assert b == a + (b - a);
  }

  lemma SameSize(a: set<nat>, b: set<nat>)
    requires a <= b && |a| == |b|
    ensures a == b
  {
    assert b == a + (b - a);
  }

  lemma GetFresh(r: Result<int>)
    ensures var o := GetInto(r, NoOutput);
            if r.Error? then o.exception == Some(r.e) else o == Output(Some(r.v), None)
  {
  }

  // ---------------------------------------------------------------------------
  // Exclusive joins.

  /** Whether each branch still has its promise, and how often the parent was armed. */
  datatype Exclusive = Exclusive(left: bool, right: bool, arms: nat)

  function FireExclusive(s: Exclusive, i: nat): Exclusive {
    if i == 0 then (if s.left then s.(right := false, arms := s.arms + 1) else s)
    else (if s.right then s.(left := false, arms := s.arms + 1) else s)
  }

  function RunExclusive(order: seq<nat>): Exclusive {
    if order == [] then Exclusive(true, true, 0) else FireExclusive(RunExclusive(Front(order)), order[|order| - 1])
  }

  /** ExclusiveJoinPromiseNode::get */
  function GetExclusive(s: Exclusive, results: seq<Result<int>>, o: Output<int>): Output<int>
    requires |results| == 2
  {
    if s.left then GetInto(results[0], o) else if s.right then GetInto(results[1], o) else o
  }

  /** The first branch to fire arms the parent, nothing else does, and its result is what the
      parent gets, whether or not the other branch fires as well. */
  lemma {:induction false} ExclusiveFirstWins(order: seq<nat>, results: seq<Result<int>>, o: Output<int>)
    requires IsOrder(order, 2) && |results| == 2 && order != []
    ensures RunExclusive(order).arms == 1
    ensures GetExclusive(RunExclusive(order), results, o) == GetInto(results[order[0]], o)
  {
    AllInOrder(order, 2);
    assert RunExclusive([]) == Exclusive(true, true, 0);
    if |order| == 1 {
      assert Front(order) == [];
    } else {
      assert Front(Front(order)) == [];
    }
  }

  // ---------------------------------------------------------------------------
  // Array joins.

  /** `parts`: what branches have written, if the join is eager; a lazy join reads them at the end. */
  datatype Join = Join(eager: bool, parts: seq<Output<int>>, countLeft: int, armed: bool, arms: nat)

  function NewJoin(n: nat, eager: bool): Join {
    Join(eager, seq(n, i => NoOutput), n, false, if n == 0 then 1 else 0)
  }

  function FireJoin(s: Join, results: seq<Result<int>>, i: nat): Join
    requires i < |results| == |s.parts|
  {
    var t := s.(countLeft := s.countLeft - 1);
    var u := if t.countLeft == 0 && !t.armed then t.(armed := true, arms := t.arms + 1) else t;
    if !s.eager then u
    else
      var v := u.(parts := u.parts[i := GetInto(results[i], u.parts[i])]);
      if v.parts[i].exception.Some? && !v.armed then v.(armed := true, arms := v.arms + 1) else v
  }

  function RunJoin(results: seq<Result<int>>, eager: bool, order: seq<nat>): (s: Join)
    requires IsOrder(order, |results|)
    ensures |s.parts| == |results| && s.eager == eager
  {
    if order == [] then NewJoin(|results|, eager)
    else FireJoin(RunJoin(results, eager, Front(order)), results, order[|order| - 1])
  }

  /** The exception of the first of these results that has one. */
  function LowestError(results: seq<Result<int>>): Option<int> {
    if results == [] then None
    else if results[0].Error? then Some(results[0].e)
    else LowestError(results[1..])
  }

  /** What is known of the results: those of branches that have not fired count as successes. */
  function Seen(results: seq<Result<int>>, order: seq<nat>): (seen: seq<Result<int>>)
    ensures |seen| == |results|
  {
    seq(|results|, i requires 0 <= i < |results| => if i in order then results[i] else Value(0, Resets))
  }

  predicate AnyFailed(results: seq<Result<int>>, order: seq<nat>)
    requires IsOrder(order, |results|)
  {
    exists k :: 0 <= k < |order| && results[order[k]].Error?
  }

  function FirstException(parts: seq<Output<int>>): Option<int> {
    if parts == [] then None
    else if parts[0].exception.Some? then parts[0].exception
    else FirstException(parts[1..])
  }

  function AddFirst(o: Output<seq<int>>, parts: seq<Output<int>>): Output<seq<int>> {
    if FirstException(parts).Some? then AddException(o, FirstException(parts).value) else o
  }

  ghost predicate JoinOk(s: Join, results: seq<Result<int>>, order: seq<nat>)
    requires IsOrder(order, |results|) && |s.parts| == |results|
  {
    && s.countLeft == |results| - |order|
    && (s.armed <==> |order| == |results| > 0 || (s.eager && AnyFailed(results, order)))
    && s.arms == (if |results| == 0 || s.armed then 1 else 0)
    && forall i: nat | i < |results| ::
         s.parts[i] == if s.eager && i in order then GetInto(results[i], NoOutput) else NoOutput
  }

  lemma FailedAppend(results: seq<Result<int>>, order: seq<nat>)
    requires IsOrder(order, |results|) && order != []
    ensures IsOrder(Front(order), |results|)
    ensures AnyFailed(results, order) <==> AnyFailed(results, Front(order)) || results[order[|order| - 1]].Error?
  {
    if AnyFailed(results, Front(order)) {
      var k :| 0 <= k < |Front(order)| && results[Front(order)[k]].Error?;
      assert results[order[k]].Error?;
    }
    if AnyFailed(results, order) {
      var k :| 0 <= k < |order| && results[order[k]].Error?;
      if k < |order| - 1 { assert Front(order)[k] == order[k]; }
    }
  }

  lemma {:induction false} JoinRunOk(results: seq<Result<int>>, eager: bool, order: seq<nat>)
    requires IsOrder(order, |results|)
    ensures JoinOk(RunJoin(results, eager, order), results, order)
    decreases |order|
  {
    if order == [] {
      hide GetInto;
    } else {
      FrontOrder(order, |results|);
      JoinRunOk(results, eager, Front(order));
      JoinFires(RunJoin(results, eager, Front(order)), results, order);
      hide JoinOk, FireJoin, IsOrder;
    }
  }

  lemma JoinFires(s: Join, results: seq<Result<int>>, order: seq<nat>)
    requires IsOrder(order, |results|) && order != [] && |s.parts| == |results|
    requires IsOrder(Front(order), |results|) && JoinOk(s, results, Front(order))
    ensures JoinOk(FireJoin(s, results, order[|order| - 1]), results, order)
  {
    var front, i := Front(order), order[|order| - 1];
    AllInOrder(order, |results|);
    FailedAppend(results, order);
    GetFresh(results[i]);
    FrontOrder(order, |results|);
    assert order == front + [i];
    assert forall j: nat :: j in order <==> j in front || j == i;
    hide AnyFailed, IsOrder, GetInto, Front;
  }

  /** The join of results as such, in which no order of firing occurs: the values in the order of
      the branches, or one exception. It can in turn be a branch. */
  function JoinOf(results: seq<Result<int>>): Result<seq<int>> {
    var e := LowestError(results);
    LowestErrorIs(results);
    if e.Some? then Error(e.value, true)
    else Value(seq(|results|, i requires 0 <= i < |results| && results[i].Value? => results[i].v), YieldsToFailure)
  }

  /** What is in the branches' outputs when the parent gets them: a lazy join reads them then. */
  function Outputs(s: Join, results: seq<Result<int>>): (r: seq<Output<int>>)
    requires |s.parts| == |results|
    ensures |r| == |results|
  {
    if s.eager then s.parts
    else seq(|results|, i requires 0 <= i < |results| => GetInto(results[i], s.parts[i]))
  }

  predicate AllSet(parts: seq<Output<int>>) {
    forall i | 0 <= i < |parts| :: parts[i].value.Some?
  }

  /** ArrayJoinPromiseNodeBase::get, and getNoError, which asserts that every part has a value. */
  function Collect(parts: seq<Output<int>>): Result<seq<int>>
    requires FirstException(parts).None? ==> AllSet(parts)
  {
    var e := FirstException(parts);
    if e.Some? then Error(e.value, true)
    else
      Value(seq(|parts|, i requires 0 <= i < |parts| && parts[i].value.Some? => parts[i].value.value), YieldsToFailure)
  }

  /** What the parent gets from outputs that hold all the results. */
  lemma CollectAll(parts: seq<Output<int>>, results: seq<Result<int>>)
    requires |parts| == |results| && forall i | 0 <= i < |parts| :: parts[i] == GetInto(results[i], NoOutput)
    ensures FirstException(parts) == LowestError(results)
    ensures (FirstException(parts).None? ==> AllSet(parts)) && Collect(parts) == JoinOf(results)
  {
    PartsSeen(parts, results);
    LowestErrorIs(results);
    if FirstException(parts).None? { assert Collect(parts).v == JoinOf(results).v; }
  }

  lemma RunOutputs(results: seq<Result<int>>, eager: bool, order: seq<nat>)
    requires IsOrder(order, |results|)
    ensures var parts := Outputs(RunJoin(results, eager, order), results);
            forall i: nat | i < |results| ::
              parts[i] == if !eager || i in order then GetInto(results[i], NoOutput) else NoOutput
  {
    JoinRunOk(results, eager, order);
    hide RunJoin;
  }

  /** A lazy join arms its parent once, when all branches have fired. What the parent then gets
      does not depend on their order: the values in the order of the branches, or the exception
      of the first failed branch. */
  lemma LazyJoin(results: seq<Result<int>>, order: seq<nat>)
    requires IsOrder(order, |results|) && |results| > 0
    ensures var s := RunJoin(results, false, order);
            && s.arms <= 1 && (s.arms == 1 <==> forall i: nat | i < |results| :: i in order)
            && (FirstException(Outputs(s, results)).None? ==> AllSet(Outputs(s, results)))
            && Collect(Outputs(s, results)) == JoinOf(results)
  {
    JoinRunOk(results, false, order);
    AllInOrder(order, |results|);
    RunOutputs(results, false, order);
    CollectAll(Outputs(RunJoin(results, false, order), results), results);
    hide RunJoin, JoinOf, Collect, Outputs, IsOrder;
  }

  /** An eager join arms its parent once: when all branches have fired or one that fired has
      failed. If all have fired the parent gets what a lazy join gives; before that, the exception
      of the lowest failed branch among those that fired. */
  lemma EagerJoin(results: seq<Result<int>>, order: seq<nat>)
    requires IsOrder(order, |results|) && |results| > 0
    ensures var s := RunJoin(results, true, order);
            && s.arms <= 1
            && (s.arms == 1 <==> (forall i: nat | i < |results| :: i in order) || AnyFailed(results, order))
            && FirstException(s.parts) == LowestError(Seen(results, order))
            && (AnyFailed(results, order) <==> FirstException(s.parts).Some?)
    ensures (forall i: nat | i < |results| :: i in order) ==>
              var parts := RunJoin(results, true, order).parts;
              (FirstException(parts).None? ==> AllSet(parts)) && Collect(parts) == JoinOf(results)
  {
    JoinRunOk(results, true, order);
    AllInOrder(order, |results|);
    var s := RunJoin(results, true, order);
    PartsSeen(s.parts, Seen(results, order));
    SeenFailed(results, order);
    if forall i: nat | i < |results| :: i in order { CollectAll(s.parts, results); }
    hide RunJoin, JoinOf, Collect, IsOrder;
  }

  lemma JoinArms(results: seq<Result<int>>, eager: bool, order: seq<nat>)
    requires IsOrder(order, |results|) && |results| > 0
    ensures var s := RunJoin(results, eager, order);
            s.arms <= 1 &&
            (s.arms == 1 <==>
              (forall i: nat | i < |results| :: i in order) || (eager && AnyFailed(results, order)))
  {
    if eager { EagerJoin(results, order); } else { LazyJoin(results, order); }
    hide RunJoin, IsOrder, AnyFailed;
  }

  lemma SeenFailed(results: seq<Result<int>>, order: seq<nat>)
    requires IsOrder(order, |results|)
    ensures AnyFailed(results, order) <==> LowestError(Seen(results, order)).Some?
  {
    var seen := Seen(results, order);
    LowestErrorIs(seen);
    if AnyFailed(results, order) {
      var k :| 0 <= k < |order| && results[order[k]].Error?;
      assert order[k] in order && seen[order[k]].Error?;
    } else {
      forall i | 0 <= i < |seen| ensures seen[i].Value? {
        if i in order {
          var k :| 0 <= k < |order| && order[k] == i;
          assert results[order[k]].Value?;
        }
      }
    }
  }

  lemma {:induction false} PartsSeen(parts: seq<Output<int>>, seen: seq<Result<int>>)
    requires |parts| == |seen|
    requires forall i: nat | i < |seen| :: parts[i].exception == if seen[i].Error? then Some(seen[i].e) else None
    ensures FirstException(parts) == LowestError(seen)
  {
    if parts != [] { PartsSeen(parts[1..], seen[1..]); }
  }

  /** The first exception by position is that of a branch before which none failed. */
  lemma {:induction false} LowestErrorIs(results: seq<Result<int>>)
    ensures LowestError(results).None? <==> forall i | 0 <= i < |results| :: results[i].Value?
    ensures LowestError(results).Some? ==>
              exists i :: 0 <= i < |results| && results[i].Error? && LowestError(results) == Some(results[i].e) &&
                          forall k | 0 <= k < i :: results[k].Value?
  {
    if results != [] {
      LowestErrorIs(results[1..]);
      if results[0].Value? && LowestError(results[1..]).Some? {
        var i :| 0 <= i < |results| - 1 && results[1..][i].Error? &&
                 LowestError(results[1..]) == Some(results[1..][i].e) &&
                 forall k | 0 <= k < i :: results[1..][k].Value?;
        assert results[i + 1].Error? && forall k | 0 < k < i + 1 :: results[k] == results[1..][k - 1];
      }
    }
  }

  // ---------------------------------------------------------------------------
  // Races for the first success.

  datatype Race = Race(output: Output<int>, countLeft: int, armed: bool, arms: nat)

  function FireRace(s: Race, result: Result<int>): Race {
    if s.armed then s
    else
      var t := s.(countLeft := s.countLeft - 1, output := GetInto(result, s.output));
      if t.output.exception == None || t.countLeft == 0 then t.(armed := true, arms := t.arms + 1) else t
  }

  function RunRace(results: seq<Result<int>>, order: seq<nat>): Race
    requires IsOrder(order, |results|)
  {
    if order == [] then Race(NoOutput, |results|, false, if results == [] then 1 else 0)
    else FireRace(RunRace(results, Front(order)), results[order[|order| - 1]])
  }

  /** A success that ends the race: one that comes first or that resets the output. */
  predicate Wins(results: seq<Result<int>>, order: seq<nat>, k: nat)
    requires IsOrder(order, |results|)
  {
    k < |order| && results[order[k]].Value? && (k == 0 || results[order[k]].how.Resets?)
  }

  /** A failure that replaces what is in the output: one that comes first or that does not add. */
  predicate Replaces(results: seq<Result<int>>, order: seq<nat>, k: nat)
    requires IsOrder(order, |results|)
  {
    k < |order| && results[order[k]].Error? && (k == 0 || !results[order[k]].adds)
  }

  /** Which of the events that fired ends the race. */
  function Winner(results: seq<Result<int>>, order: seq<nat>): (k: Option<nat>)
    requires IsOrder(order, |results|)
    ensures k.Some? ==> Wins(results, order, k.value) && forall j: nat | j < k.value :: !Wins(results, order, j)
    ensures k.None? ==> forall j: nat :: !Wins(results, order, j)
    decreases |order|
  {
    if order == [] then None
    else
      var before := Winner(results, Front(order));
      FrontWins(results, order);
      if before.Some? then before
      else if Wins(results, order, |order| - 1) then Some(|order| - 1)
      else None
  }

  /** Which of the events that fired gave the failure that lasts. */
  function Lasting(results: seq<Result<int>>, order: seq<nat>): (k: nat)
    requires IsOrder(order, |results|) && order != [] && results[order[0]].Error?
    ensures Replaces(results, order, k) && forall j: nat | k < j :: !Replaces(results, order, j)
    decreases |order|
  {
    FrontWins(results, order);
    if Replaces(results, order, |order| - 1) then |order| - 1 else Lasting(results, Front(order))
  }

  lemma FrontWins(results: seq<Result<int>>, order: seq<nat>)
    requires IsOrder(order, |results|) && order != []
    ensures IsOrder(Front(order), |results|) && (|order| > 1 ==> Front(order)[0] == order[0])
    ensures forall k: nat | k < |order| - 1 ::
              (Wins(results, order, k) <==> Wins(results, Front(order), k)) &&
              (Replaces(results, order, k) <==> Replaces(results, Front(order), k))
  {
  }

  ghost predicate RaceOk(s: Race, results: seq<Result<int>>, order: seq<nat>)
    requires IsOrder(order, |results|)
  {
    var w := Winner(results, order);
    && (s.armed <==> w.Some? || |order| == |results| > 0)
    && s.arms == (if s.armed || results == [] then 1 else 0)
    && (order == [] ==> s.output == NoOutput)
    && (w.Some? ==> s.output == Output(Some(results[order[w.value]].v), None))
    && (w.None? ==> s.countLeft == |results| - |order|)
    && (w.None? && order != [] ==>
         results[order[0]].Error? && s.output.exception == Some(results[order[Lasting(results, order)]].e))
  }

  lemma {:induction false} RaceRunOk(results: seq<Result<int>>, order: seq<nat>)
    requires IsOrder(order, |results|)
    ensures RaceOk(RunRace(results, order), results, order)
    decreases |order|
  {
    AllInOrder(order, |results|);
    if order != [] {
      FrontWins(results, order);
      RaceRunOk(results, Front(order));
      AllInOrder(Front(order), |results|);
      hide IsOrder;
    }
  }

  /** A race arms its parent once: at the first success that comes first or resets the output, or
      when all have fired. The parent gets that success, or if there is none the last of the
      failures that come first or do not add. */
  lemma RaceOutcome(results: seq<Result<int>>, order: seq<nat>)
    requires IsOrder(order, |results|) && |results| > 0
    ensures var s := RunRace(results, order);
            && s.arms <= 1
            && (s.arms == 1 <==>
                 (exists k: nat :: Wins(results, order, k)) || forall i: nat | i < |results| :: i in order)
            && (forall k: nat | Wins(results, order, k) && (forall j: nat | j < k :: !Wins(results, order, j)) ::
                 s.output == Output(Some(results[order[k]].v), None))
            && ((forall k: nat :: !Wins(results, order, k)) ==>
                 forall k: nat |
                   Replaces(results, order, k) && (forall j: nat | k < j :: !Replaces(results, order, j)) ::
                   s.output.exception == Some(results[order[k]].e))
  {
    RaceRunOk(results, order);
    AllInOrder(order, |results|);
    var w := Winner(results, order);
    if w.None? && order != [] { assert Lasting(results, order) < |order|; }
    hide RunRace, IsOrder, Wins, Replaces;
  }

  /** The first of the successes in the order of firing. */
  ghost predicate FirstSuccess(results: seq<Result<int>>, order: seq<nat>, k: nat)
    requires IsOrder(order, |results|)
  {
    k < |order| && results[order[k]].Value? && forall j | 0 <= j < k :: results[order[j]].Error?
  }

  /** The first success ends the race, and is what the parent gets, if and only if it comes first
      of all or resets the output. If not, the failure before it lasts. */
  lemma RaceFirstSuccess(results: seq<Result<int>>, order: seq<nat>, k: nat)
    requires IsOrder(order, |results|) && FirstSuccess(results, order, k)
    ensures IsOrder(order[..k + 1], |results|)
    ensures var (s, first) := (RunRace(results, order[..k + 1]), results[order[k]]);
            && (k == 0 || first.how.Resets? <==> s.output.exception.None?)
            && (k == 0 || first.how.Resets? ==> s.arms == 1 && s.output == Output(Some(first.v), None))
            && (k == 0 || first.how.Resets? ==> RunRace(results, order) == s)
            && (k > 0 && !first.how.Resets? ==> s.output.exception == RunRace(results, order[..k]).output.exception)
            && (s.arms == 1 <==> k == 0 || first.how.Resets? || k + 1 == |results|)
  {
    var upTo := order[..k + 1];
    assert Front(upTo) == order[..k];
    RaceRunOk(results, upTo);
    RaceRunOk(results, order[..k]);
    AllInOrder(upTo, |results|);
    forall j: nat | j < k ensures !Wins(results, upTo, j) { assert upTo[j] == order[j]; }
    if Wins(results, upTo, k) { ArmedStays(results, order, k + 1); }
  }

  /** Once the parent has been armed nothing changes any more. */
  lemma {:induction false} ArmedStays(results: seq<Result<int>>, order: seq<nat>, n: nat)
    requires IsOrder(order, |results|) && n <= |order|
    requires IsOrder(order[..n], |results|) && RunRace(results, order[..n]).armed
    ensures RunRace(results, order) == RunRace(results, order[..n])
    decreases |order|
  {
    if n == |order| {
      assert order[..n] == order;
    } else {
      assert Front(order)[..n] == order[..n];
      ArmedStays(results, Front(order), n);
    }
  }

  /** Races of branches whose successes reset the output and whose failures do not add, as nearly
      all do, are as documented: the first success, or else the last failure. */
  lemma RaceAsDocumented(results: seq<Result<int>>, order: seq<nat>)
    requires IsOrder(order, |results|) && order != []
    requires forall i | 0 <= i < |results| :: if results[i].Value? then results[i].how.Resets? else !results[i].adds
    ensures var (s, last) := (RunRace(results, order), results[order[|order| - 1]]);
            && (forall k: nat | FirstSuccess(results, order, k) :: s.output == Output(Some(results[order[k]].v), None))
            && ((forall k: nat :: !FirstSuccess(results, order, k)) ==>
                 last.Error? && s.output.exception == Some(last.e))
  {
    RaceRunOk(results, order);
    var w := Winner(results, order);
    if w.Some? {
      assert FirstSuccess(results, order, w.value) by {
        forall j: nat | j < w.value ensures results[order[j]].Error? { assert !Wins(results, order, j); }
      }
      forall k: nat | FirstSuccess(results, order, k) ensures k == w.value { assert Wins(results, order, k); }
    } else {
      forall k: nat | k < |order| ensures results[order[k]].Error? { assert !Wins(results, order, k); }
      assert Replaces(results, order, |order| - 1);
    }
    hide RunRace, IsOrder;
  }

  /** In general they are not: an array join or a race that succeeds after a failure is taken for
      a failure, and a failure that adds leaves the first one in place. */
  lemma RaceNotAsDocumented(e: int, second: Result<int>)
    requires if second.Value? then !second.how.Resets? else second.adds
    ensures IsOrder([0, 1], 2)
    ensures var s := RunRace([Error(e, false), second], [0, 1]); s.arms == 1 && s.output.exception == Some(e)
  {
    var results: seq<Result<int>> := [Error(e, false), second];
    assert Front<nat>([0, 1]) == [0] && Front<nat>([0]) == [];
    assert RunRace(results, [0]).output.exception == Some(e);
  }

  /** The only value of type void. */
  const VOID := 0

  /** RaceSuccessfulPromiseNodeBase::get and getNoError */
  function GetRace(s: Race, ofVoid: bool, output: Output<int>): Output<int> {
    if s.output.exception.Some? then AddException(output, s.output.exception.value)
    else if ofVoid then Output(Some(VOID), None)
    else output.(value := s.output.value)
  }

  /** What a race that has ended is as a branch. */
  function RaceOf(results: seq<Result<int>>, ofVoid: bool, order: seq<nat>): Result<int>
    requires IsOrder(order, |results|) && order != []
  {
    var w := Winner(results, order);
    if w.None? then assert !Wins(results, order, 0); Error(results[order[Lasting(results, order)]].e, true)
    else if ofVoid then Value(VOID, Resets)
    else Value(results[order[w.value]].v, SetsValue)
  }

  lemma RaceIsBranch(results: seq<Result<int>>, ofVoid: bool, order: seq<nat>, output: Output<int>)
    requires IsOrder(order, |results|) && order != []
    ensures GetRace(RunRace(results, order), ofVoid, output) == GetInto(RaceOf(results, ofVoid, order), output)
  {
    RaceRunOk(results, order);
    hide RunRace, IsOrder;
  }

  // ---------------------------------------------------------------------------
  // The nodes. Each keeps, for its proof, the order in which its branches have fired.

  lemma OrderAppend(order: seq<nat>, n: nat, i: nat)
    requires IsOrder(order, n) && i < n && i !in order
    ensures IsOrder(order + [i], n) && Front(order + [i]) == order
  {
  }

  class ExclusiveJoinNode {
    const results: seq<Result<int>>  // what the branches' promises resolve to
    var left: bool
    var right: bool
    var arms: nat
    ghost var order: seq<nat>

    ghost function View(): Exclusive
      reads this
    {
      Exclusive(left, right, arms)
    }

    ghost predicate Valid()
      reads this
    {
      |results| == 2 && IsOrder(order, 2) && View() == RunExclusive(order)
    }

    constructor (results: seq<Result<int>>)
      requires |results| == 2
      ensures Valid() && order == [] && this.results == results
    {
      this.results := results;
      left, right, arms, order := true, true, 0, [];
    }

    method Fire(isLeft: bool)
      requires Valid() && (if isLeft then 0 else 1) !in order
      modifies this
      ensures Valid() && order == old(order) + [if isLeft then 0 else 1]
      ensures arms == 1
    {
      ghost var i := if isLeft then 0 else 1;
      OrderAppend(order, 2, i);
      ExclusiveFirstWins(order + [i], results, NoOutput);
      ghost var was := View();
      hide IsOrder, GetExclusive;
      if if isLeft then left else right {
        if isLeft { right := false; } else { left := false; }
        arms := arms + 1;
      }
      order := order + [i];
      assert View() == FireExclusive(was, i);
    }

    /** The parent gets the result of the branch that fired first. */
    method Get(output: Output<int>) returns (got: Output<int>)
      requires Valid() && arms > 0
      ensures order != [] && got == GetInto(results[order[0]], output)
    {
      assert order != [];
      ExclusiveFirstWins(order, results, output);
      if left { return GetInto(results[0], output); }
      if right { return GetInto(results[1], output); }
      return output;
    }
  }

  class ArrayJoinNode {
    const eager: bool
    const results: seq<Result<int>>
    const parts: array<Output<int>>
    var countLeft: int
    var armed: bool
    var arms: nat
    ghost var order: seq<nat>
    ghost var taken: bool  // the parent has got the result, which it does once

    ghost function View(): Join
      reads this, parts
    {
      Join(eager, parts[..], countLeft, armed, arms)
    }

    ghost predicate Valid()
      reads this, parts
    {
      && parts.Length == |results| && IsOrder(order, |results|)
      && !taken && View() == RunJoin(results, eager, order)
    }

    ghost predicate AllFired()
      reads this
    {
      forall i: nat | i < |results| :: i in order
    }

    constructor (results: seq<Result<int>>, eager: bool)
      ensures Valid() && order == [] && this.results == results && this.eager == eager && fresh(parts)
    {
      this.results, this.eager := results, eager;
      parts := new Output<int>[|results|](i => NoOutput);
      countLeft, armed, arms, order, taken := |results|, false, 0, [], false;
      new;
      if |results| == 0 { arms := arms + 1; }
      assert parts[..] == NewJoin(|results|, eager).parts;
    }

    method Arm()
      modifies `armed, `arms
      ensures armed && arms == old(arms) + 1
    {
      arms, armed := arms + 1, true;
    }

    /** The parent has been armed at most once, and just when the join can give its result. */
    method Fire(i: nat)
      requires Valid() && i < |results| && i !in order
      modifies `countLeft, `armed, `arms, `order, parts
      ensures Valid() && order == old(order) + [i]
      ensures arms <= 1 && (arms == 1 <==> AllFired() || (eager && AnyFailed(results, order)))
    {
      OrderAppend(order, |results|, i);
      JoinArms(results, eager, order + [i]);
      ghost var was := View();
      assert RunJoin(results, eager, order + [i]) == FireJoin(was, results, i);
      hide RunJoin, IsOrder, AnyFailed, GetInto;
      countLeft := countLeft - 1;
      if countLeft == 0 && !armed { Arm(); }
      if eager {
        parts[i] := GetInto(results[i], parts[i]);
        if parts[i].exception.Some? && !armed { Arm(); }
      }
      order := order + [i];
      assert View() == FireJoin(was, results, i);
    }

    /** The node is a branch with the join of the results, whatever the order of firing; if it is
        asked before all have fired, with the exception of the lowest failed branch that has. */
    method Get(output: Output<seq<int>>) returns (got: Output<seq<int>>)
      requires Valid() && arms > 0
      modifies parts, `taken
      ensures AllFired() ==> got == GetInto(JoinOf(results), output)
      ensures !AllFired() ==> var e := LowestError(Seen(results, order));
                              e.Some? && got == GetInto(Error(e.value, true), output)
      ensures taken && parts[..] == old(Outputs(View(), results))
    {
      ghost var outputs := Outputs(View(), results);
      ReadyOutputs();
      taken := true;
      hide RunJoin, JoinOf, Seen, LowestError, IsOrder, AnyFailed;
      got := GetParts(output);
      if got.exception.Some? { return; }
      var i, vs := 0, [];
      while i < parts.Length
        invariant i <= parts.Length && |vs| == i
        invariant forall k | 0 <= k < i :: vs[k] == outputs[k].value.value
      {
        vs := vs + [parts[i].value.value];
        i := i + 1;
      }
      assert vs == Collect(outputs).v;
      return Output(Some(vs), None);
    }

    lemma ReadyOutputs()
      requires Valid() && arms > 0
      ensures var parts := Outputs(View(), results);
              && (FirstException(parts).None? ==> AllSet(parts))
              && (AllFired() ==> Collect(parts) == JoinOf(results))
              && (!AllFired() ==>
                   FirstException(parts).Some? && FirstException(parts) == LowestError(Seen(results, order)))
    {
      if results == [] {
        CollectAll(Outputs(View(), results), results);
      } else if eager {
        EagerJoin(results, order);
      } else {
        LazyJoin(results, order);
      }
      hide RunJoin, JoinOf, Collect, IsOrder;
    }

    /** Reads the outputs of a lazy join, and adds every exception to the parent's output. */
    method GetParts(output: Output<seq<int>>) returns (got: Output<seq<int>>)
      requires parts.Length == |results|
      modifies parts
      ensures parts[..] == old(Outputs(View(), results))
      ensures got == AddFirst(output, parts[..])
    {
      got := output;
      ghost var outputs := Outputs(View(), results);
      ghost var was := parts[..];
      var i := 0;
      while i < parts.Length
        invariant i <= parts.Length
        invariant forall k | 0 <= k < i :: parts[k] == outputs[k]
        invariant forall k | i <= k < parts.Length :: parts[k] == was[k]
        invariant AddFirst(got, outputs[i..]) == AddFirst(output, outputs)
      {
        if !eager { parts[i] := GetInto(results[i], parts[i]); }
        if parts[i].exception.Some? { got := AddException(got, parts[i].exception.value); }
        i := i + 1;
      }
      assert parts[..] == outputs;
    }
  }

  class RaceSuccessfulNode {
    const results: seq<Result<int>>
    const ofVoid: bool
    const promises: array<bool>  // which branches still have their promise
    var output: Output<int>
    var countLeft: int
    var armed: bool
    var arms: nat
    ghost var order: seq<nat>

    ghost function View(): Race
      reads this
    {
      Race(output, countLeft, armed, arms)
    }

    /** Promises are dropped only when the parent has been armed. */
    ghost predicate Valid()
      reads this, promises
    {
      && promises.Length == |results| && (!armed ==> forall i | 0 <= i < promises.Length :: promises[i])
      && IsOrder(order, |results|) && View() == RunRace(results, order)
    }

    constructor (results: seq<Result<int>>, ofVoid: bool)
      ensures Valid() && order == [] && this.results == results && this.ofVoid == ofVoid && fresh(promises)
    {
      this.results, this.ofVoid := results, ofVoid;
      promises := new bool[|results|](i => true);
      output, countLeft, armed, arms := NoOutput, |results|, false, if |results| == 0 then 1 else 0;
      order := [];
    }

    /** A branch reads its promise only if it still has it. */
    method Fire(i: nat)
      requires Valid() && i < |results| && i !in order
      modifies `output, `countLeft, `armed, `arms, `order, promises
      ensures Valid() && order == old(order) + [i]
      ensures arms <= 1 && (arms == 1 <==> Winner(results, order).Some? || |order| == |results|)
    {
      OrderAppend(order, |results|, i);
      RaceRunOk(results, order + [i]);
      ghost var was := View();
      order := order + [i];
      if armed { return; }
      countLeft := countLeft - 1;
      assert promises[i];
      output := GetInto(results[i], output);
      if output.exception == None { DropOthers(i); }
      if output.exception == None || countLeft == 0 {
        armed := true;
        arms := arms + 1;
      }
      assert View() == FireRace(was, results[i]);
    }

    /** The node is a branch with the race's success or with the failure that lasts. Without
        branches there is no value either, unless it is the one of type void. */
    method Get(output: Output<int>) returns (got: Output<int>)
      requires Valid() && arms > 0
      ensures results != [] ==> order != [] && got == GetInto(RaceOf(results, ofVoid, order), output)
      ensures results != [] ==> Winner(results, order).Some? || |order| == |results|
      ensures results == [] ==> got == if ofVoid then GetInto(Value(VOID, Resets), output) else output.(value := None)
    {
      RaceRunOk(results, order);
      if results != [] { RaceIsBranch(results, ofVoid, order, output); }
      if this.output.exception.Some? { return AddException(output, this.output.exception.value); }
      if ofVoid { return Output(Some(VOID), None); }
      return output.(value := this.output.value);
    }

    method DropOthers(i: nat)
      requires i < promises.Length
      modifies promises
      ensures forall k | 0 <= k < promises.Length :: promises[k] == (k == i && old(promises[k]))
    {
      var k := 0;
      while k < promises.Length
        invariant k <= promises.Length
        invariant forall j | 0 <= j < promises.Length :: promises[j] == ((j >= k || j == i) && old(promises[j]))
      {
        if k != i { promises[k] := false; }
        k := k + 1;
      }
    }
  }
}
