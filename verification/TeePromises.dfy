/** What a tee promises the readers of its branches over every run. */
module TeePromises {
  import opened Bytes
  import opened TeeSpec
  import opened TeeProof
  import opened Wrappers

  /** Everything the inner stream returns in a run. */
  function AllPulled(es: seq<Event>): seq<byte> {
    if es == [] then [] else (if es[0].Pulled? then es[0].data else []) + AllPulled(es[1..])
  }

  lemma StepPulls(s: Tee, e: Event)
    requires Enabled(s, e)
    ensures Step(s, e).pulled == s.pulled + (if e.Pulled? then e.data else []) && Step(s, e).limit == s.limit
    ensures s.length.Some? ==> Step(s, e).length.Some?
    ensures s.length.Some? ==> s.length.value + |s.pulled| == Step(s, e).length.value + |Step(s, e).pulled|
  {
    assert s.pulled + [] == s.pulled;
    hide Flatten, ReadBranch, PumpBranch, Written, LargestMin, ReadSize, HasSink, AllFit;
  }

  lemma {:induction false} RunPulls(s: Tee, es: seq<Event>)
    requires AllEnabled(s, es)
    ensures Run(s, es).pulled == s.pulled + AllPulled(es) && Run(s, es).limit == s.limit
    ensures s.length.Some? ==> Run(s, es).length.Some?
    ensures s.length.Some? ==> s.length.value + |s.pulled| == Run(s, es).length.value + |Run(s, es).pulled|
    decreases |es|
  {
    hide Step, Enabled;
    if es == [] {
      assert s.pulled + [] == s.pulled;
    } else {
      StepPulls(s, es[0]);
      RunPulls(Step(s, es[0]), es[1..]);
      var d, f := if es[0].Pulled? then es[0].data else [], AllPulled(es[1..]);
      assert (s.pulled + d) + f == s.pulled + (d + f);
    }
  }

  /** In every run, what a branch has given away followed by its buffer is exactly what the inner
      stream has returned. */
  lemma Agreement(length: Option<nat>, limit: nat, es: seq<Event>, i: nat)
    requires AllEnabled(Init(length, limit), es) && i < |Run(Init(length, limit), es).branches|
    ensures var b := Run(Init(length, limit), es).branches[i]; b.consumed + Flatten(b.buffer) == AllPulled(es)
  {
    InitInv(length, limit);
    RunInv(Init(length, limit), es);
    RunPulls(Init(length, limit), es);
    hide Flatten;
    assert [] + AllPulled(es) == AllPulled(es);
  }

  /** Any two branches have given away the same bytes, as far as both have come. */
  lemma Comparable(length: Option<nat>, limit: nat, es: seq<Event>, i: nat, j: nat)
    requires AllEnabled(Init(length, limit), es)
    requires i < |Run(Init(length, limit), es).branches| && j < |Run(Init(length, limit), es).branches|
    ensures var bs := Run(Init(length, limit), es).branches;
            bs[i].consumed <= bs[j].consumed || bs[j].consumed <= bs[i].consumed
  {
    Agreement(length, limit, es, i);
    Agreement(length, limit, es, j);
    hide Flatten, Run, Init;
    var a, b := Run(Init(length, limit), es).branches[i].consumed, Run(Init(length, limit), es).branches[j].consumed;
    Prefixes(a, b, AllPulled(es));
  }

  lemma Prefixes(a: seq<byte>, b: seq<byte>, c: seq<byte>)
    requires a <= c && b <= c
    ensures a <= b || b <= a
  {
  }

  /** AsyncTee::tryGetLength */
  function LengthOf(s: Tee, b: Branch): Option<nat> {
    if s.length.Some? then Some(s.length.value + Size(b.buffer)) else None
  }

  /** If the inner stream's length is known, the length a branch reports and the bytes it has
      given away always add up to it. */
  lemma LengthKept(length: nat, limit: nat, es: seq<Event>, i: nat)
    requires AllEnabled(Init(Some(length), limit), es) && i < |Run(Init(Some(length), limit), es).branches|
    ensures var s := Run(Init(Some(length), limit), es);
            LengthOf(s, s.branches[i]).Some? && LengthOf(s, s.branches[i]).value + |s.branches[i].consumed| == length
  {
    InitInv(Some(length), limit);
    RunInv(Init(Some(length), limit), es);
    RunPulls(Init(Some(length), limit), es);
    hide Flatten;
  }

  /** No buffer ever exceeds the limit. */
  lemma WithinLimit(length: Option<nat>, limit: nat, es: seq<Event>, i: nat)
    requires AllEnabled(Init(length, limit), es) && i < |Run(Init(length, limit), es).branches|
    ensures Size(Run(Init(length, limit), es).branches[i].buffer) <= limit
  {
    InitInv(length, limit);
    RunInv(Init(length, limit), es);
    RunPulls(Init(length, limit), es);
    hide Flatten;
  }

  /** A read resolves with at most what it has room for. It gets less than its minimum only
      when the inner stream has stopped and the branch has given away all that was pulled; and
      then it gets something, unless the stream is at its end. */
  lemma ReadResolves(length: Option<nat>, limit: nat, es: seq<Event>, i: nat)
    requires AllEnabled(Init(length, limit), es) && i < |Run(Init(length, limit), es).branches|
    requires Run(Init(length, limit), es).branches[i].call.ReadDone?
    ensures var s := Run(Init(length, limit), es);
            var (b, c) := (s.branches[i], s.branches[i].call);
            && c.count == |b.consumed| - c.start && c.count <= c.max
            && (c.count < c.min ==> s.stoppage != Going && b.consumed == AllPulled(es))
            && (c.count < c.min && c.count == 0 ==> s.stoppage == Eof)
  {
    InitInv(length, limit);
    RunInv(Init(length, limit), es);
    Agreement(length, limit, es, i);
    DoneAtRest(Run(Init(length, limit), es), i);
  }

  /** A pump resolves with its full amount, or with less at the end of the stream, when the branch
      has given away all that was pulled. */
  lemma PumpResolves(length: Option<nat>, limit: nat, es: seq<Event>, i: nat)
    requires AllEnabled(Init(length, limit), es) && i < |Run(Init(length, limit), es).branches|
    requires Run(Init(length, limit), es).branches[i].call.PumpDone?
    ensures var s := Run(Init(length, limit), es);
            var (b, c) := (s.branches[i], s.branches[i].call);
            && c.count == |b.consumed| - c.start && c.count <= c.amount
            && (c.count < c.amount ==> s.stoppage == Eof && b.consumed == AllPulled(es))
  {
    InitInv(length, limit);
    RunInv(Init(length, limit), es);
    Agreement(length, limit, es, i);
    DoneAtRest(Run(Init(length, limit), es), i);
  }

  lemma DoneAtRest(s: Tee, i: nat)
    requires Inv(s) && i < |s.branches| && (s.branches[i].call.ReadDone? || s.branches[i].call.PumpDone?)
    ensures s.branches[i].sink == NoSink && CallOk(s.branches[i], s.stoppage)
    ensures s.branches[i].buffer == [] ==> s.branches[i].consumed + [] == s.branches[i].consumed
  {
  }

  /** The loop's own assertions hold: when it looks for what to read, every sink needs a byte and
      can take one, and when a read completes nothing has stopped the loop meanwhile. */
  lemma LoopAssertions(length: Option<nat>, limit: nat, es: seq<Event>)
    requires AllEnabled(Init(length, limit), es)
    ensures var s := Run(Init(length, limit), es);
            && (s.phase == Filled && HasSink(s.branches) ==> LargestMin(s.branches) > 0)
            && SmallestMax(s.branches) > 0
            && (s.phase.Pulling? ==> s.stoppage == Going)
  {
    InitInv(length, limit);
    RunInv(Init(length, limit), es);
    var s := Run(Init(length, limit), es);
    Needs(s.branches, s.pulled, s.stoppage, Promised(s), s.limit);
    hide BranchesOk, LargestMin, SmallestMax;
  }

  /** While a call waits, the loop is under way: a step of its own, a write to an output or a read
      of the inner stream is yet to complete. */
  lemma NeverStuck(length: Option<nat>, limit: nat, es: seq<Event>, i: nat)
    requires AllEnabled(Init(length, limit), es) && i < |Run(Init(length, limit), es).branches|
    requires Run(Init(length, limit), es).branches[i].sink != NoSink
    ensures var s := Run(Init(length, limit), es);
            || Enabled(s, Fill) || Enabled(s, Analyze) || Enabled(s, PullFailed)
            || exists j :: Enabled(s, WriteDone(j))
  {
    InitInv(length, limit);
    RunInv(Init(length, limit), es);
    var s := Run(Init(length, limit), es);
    hide BranchesOk;
    if s.phase == Filled && !Enabled(s, Analyze) {
      var j :| 0 <= j < |s.branches| && IsWriting(s.branches[j]);
      assert Enabled(s, WriteDone(j));
    }
  }

  // ---------------------------------------------------------------------------
  // Draining.

  /** How many more fill passes a sink can outlive once nothing more is pulled. */
  function Rounds(b: Branch): nat {
    if b.sink == NoSink then 0
    else if Size(b.buffer) == 0 || (b.sink.PumpSink? && b.sink.writing == b.sink.limit) then 1
    else 2
  }

  /** A fill pass brings every sink one round closer to its end. */
  lemma FillRounds(b: Branch, pulled: seq<byte>, stoppage: Stoppage, room: nat, limit: nat)
    requires BranchOk(b, pulled, stoppage, room, limit) && !IsWriting(b) && stoppage != Going
    ensures Rounds(FillBranch(b, stoppage)) <= if Rounds(b) > 0 then Rounds(b) - 1 else 0
  {
    match b.sink
    case NoSink =>
    case ReadSink(n, _, _) => TakenLeft(b.buffer, n); FillReadRounds(b, pulled, stoppage, room, limit);
    case PumpSink(n, _, _) => TakenLeft(b.buffer, n); FillPumpRounds(b, pulled, stoppage, room, limit);
    hide BranchOk, FillRead, FillPump, Rounds;
  }

  lemma FillReadRounds(b: Branch, pulled: seq<byte>, stoppage: Stoppage, room: nat, limit: nat)
    requires BranchOk(b, pulled, stoppage, room, limit) && b.sink.ReadSink? && stoppage != Going
    ensures Rounds(FillRead(b, stoppage)) < Rounds(b)
  {
    TakenLeft(b.buffer, b.sink.room);
    NoBytes();
    hide Flatten, Taken, Left;
  }

  lemma NoBytes()
    ensures Size([]) == 0
  {
  }

  lemma FillPumpRounds(b: Branch, pulled: seq<byte>, stoppage: Stoppage, room: nat, limit: nat)
    requires BranchOk(b, pulled, stoppage, room, limit) && b.sink.PumpSink? && !IsWriting(b) && stoppage != Going
    ensures Rounds(FillPump(b, stoppage)) < Rounds(b)
  {
    TakenLeft(b.buffer, b.sink.limit);
    NoBytes();
    hide Flatten, Taken, Left;
  }

  /** A read of a stopped tee is decided at once. */
  lemma StoppedRead(b: Branch, min: nat, max: nat, stoppage: Stoppage)
    requires b.sink == NoSink && min <= max && stoppage != Going
    ensures ReadBranch(b, min, max, stoppage).sink == NoSink
  {
    TakenLeft(b.buffer, max);
    hide Flatten, Taken, Left;
  }

  lemma WrittenRounds(b: Branch, pulled: seq<byte>, stoppage: Stoppage, room: nat, limit: nat)
    requires BranchOk(b, pulled, stoppage, room, limit)
    ensures Rounds(Written(b)) <= Rounds(b)
  {
    NoBytes();
    hide Flatten;
  }

  /** Where the branch at position `i` stands after a step that does not drop it. */
  function Position(e: Event, i: nat): nat {
    if e.DropBranch? && e.i < i then i - 1 else i
  }

  /** A step that ends the branch, or makes a new call of it. */
  predicate Ends(e: Event, i: nat) {
    (e.DropBranch? || e.TryRead? || e.PumpTo?) && e.i == i
  }

  /** Once stopped, a tee stays stopped, and whatever happens elsewhere, no step sets a branch's
      sink back; a fill pass brings it on. */
  lemma BranchRounds(s: Tee, e: Event, i: nat)
    requires Inv(s) && Enabled(s, e) && s.stoppage != Going && i < |s.branches| && !Ends(e, i)
    ensures Step(s, e).stoppage != Going
    ensures var (b, c) := (s.branches[i], Step(s, e).branches[Position(e, i)]);
            Rounds(c) <= if e == Fill && Rounds(b) > 0 then Rounds(b) - 1 else Rounds(b)
  {
    match e
    case WriteDone(k) => WrittenRounds(s.branches[k], s.pulled, s.stoppage, Promised(s), s.limit);
    case Fill => FillRounds(s.branches[i], s.pulled, s.stoppage, Promised(s), s.limit);
    case _ =>
    hide Flatten, BranchesOk, FillBranch, ReadBranch, PumpBranch, Written, LargestMin, ReadSize, AllFit;
  }

  /** For every branch, the number of fill passes since its latest call, or since the start. */
  function NextAges(ages: seq<nat>, e: Event): seq<nat> {
    match e
    case TryRead(i, _, _) => if i < |ages| then ages[i := 0] else ages
    case PumpTo(i, _) => if i < |ages| then ages[i := 0] else ages
    case Clone(_) => ages + [0]
    case DropBranch(i) => if i < |ages| then ages[..i] + ages[i + 1..] else ages
    case Fill => seq(|ages|, i requires 0 <= i < |ages| => ages[i] + 1)
    case _ => ages
  }

  function Ages(ages: seq<nat>, es: seq<Event>): seq<nat>
    decreases |es|
  {
    if es == [] then ages else Ages(NextAges(ages, es[0]), es[1..])
  }

  /** The fill passes a sink has seen and those it can still outlive make at most two. */
  ghost predicate AgesOk(bs: seq<Branch>, ages: seq<nat>) {
    |ages| == |bs| && forall i | 0 <= i < |bs| :: bs[i].sink != NoSink ==> ages[i] + Rounds(bs[i]) <= 2
  }

  lemma RoundsBound(b: Branch)
    ensures Rounds(b) <= 2 && (b.sink != NoSink <==> Rounds(b) > 0)
  {
    hide Flatten;
  }

  /** Of the branches after a step, those that were there before and made no new call. */
  lemma KeptAges(s: Tee, e: Event, ages: seq<nat>, i: nat)
    requires Inv(s) && Enabled(s, e) && s.stoppage != Going && AgesOk(s.branches, ages)
    requires i < |s.branches| && !Ends(e, i)
    ensures var (t, next, j) := (Step(s, e), NextAges(ages, e), Position(e, i));
            && j < |next| == |t.branches|
            && (t.branches[j].sink != NoSink ==> next[j] + Rounds(t.branches[j]) <= 2)
  {
    BranchRounds(s, e, i);
    RoundsBound(s.branches[i]);
    RoundsBound(Step(s, e).branches[Position(e, i)]);
    hide Flatten, Inv, Rounds, FillBranch, ReadBranch, PumpBranch, Written, LargestMin, ReadSize, AllFit, HasSink;
  }

  lemma StepAges(s: Tee, e: Event, ages: seq<nat>)
    requires Inv(s) && Enabled(s, e) && s.stoppage != Going && AgesOk(s.branches, ages)
    ensures Step(s, e).stoppage != Going && AgesOk(Step(s, e).branches, NextAges(ages, e))
  {
    var t, next := Step(s, e), NextAges(ages, e);
    StaysStopped(s, e);
    assert |next| == |t.branches|;
    forall j | 0 <= j < |t.branches| && t.branches[j].sink != NoSink ensures next[j] + Rounds(t.branches[j]) <= 2 {
      RoundsBound(t.branches[j]);
      var isNew := (e.Clone? && j == |s.branches|) || ((e.TryRead? || e.PumpTo?) && e.i == j);
      if !isNew {
        var i := if e.DropBranch? && e.i <= j then j + 1 else j;
        KeptAges(s, e, ages, i);
      }
    }
    hide Flatten, Inv, Rounds, FillBranch, ReadBranch, PumpBranch, Written, LargestMin, ReadSize, AllFit, HasSink;
  }

  lemma StaysStopped(s: Tee, e: Event)
    requires Inv(s) && Enabled(s, e) && s.stoppage != Going
    ensures Step(s, e).stoppage != Going
  {
    hide Flatten, BranchesOk, FillBranch, ReadBranch, PumpBranch, Written, LargestMin, ReadSize, AllFit;
  }

  lemma {:induction false} RunAges(s: Tee, es: seq<Event>, ages: seq<nat>)
    requires Inv(s) && AllEnabled(s, es) && s.stoppage != Going && AgesOk(s.branches, ages)
    ensures AgesOk(Run(s, es).branches, Ages(ages, es))
    decreases |es|
  {
    hide Inv, Step, Enabled, AgesOk, NextAges;
    if es != [] {
      StepInv(s, es[0]);
      StepAges(s, es[0], ages);
      RunAges(Step(s, es[0]), es[1..], NextAges(ages, es[0]));
    }
  }

  /** When the tee has stopped, be it at the end of the stream, for an error or for exceeding the
      limit, no sink outlives two fill passes: neither one that waited then nor that of a pump
      started later, in any run of calls, clones, drops, cancellations and completions. */
  lemma Drains(s: Tee, es: seq<Event>, i: nat)
    requires Inv(s) && s.stoppage != Going && AllEnabled(s, es) && i < |Run(s, es).branches|
    ensures |Ages(seq(|s.branches|, k => 0), es)| == |Run(s, es).branches|
    ensures Ages(seq(|s.branches|, k => 0), es)[i] >= 2 ==> Run(s, es).branches[i].sink == NoSink
  {
    var ages: seq<nat> := seq(|s.branches|, k => 0);
    assert AgesOk(s.branches, ages) by {
      forall k | 0 <= k < |s.branches| ensures Rounds(s.branches[k]) <= 2 { RoundsBound(s.branches[k]); }
    }
    RunAges(s, es, ages);
    RoundsBound(Run(s, es).branches[i]);
    hide Flatten, Run, Inv, Ages;
  }

  function Fills(es: seq<Event>): nat {
    if es == [] then 0 else (if es[0] == Fill then 1 else 0) + Fills(es[1..])
  }

  /** The branch at position `i` is neither dropped nor called again in the run. */
  predicate LeftAlone(es: seq<Event>, i: nat)
    decreases |es|
  {
    es == [] || (!Ends(es[0], i) && LeftAlone(es[1..], Position(es[0], i)))
  }

  /** Where it stands at the end. */
  function FinalPosition(es: seq<Event>, i: nat): nat
    decreases |es|
  {
    if es == [] then i else FinalPosition(es[1..], Position(es[0], i))
  }

  /** The sink of one branch is gone after two fill passes, whatever the other branches do. */
  lemma {:induction false} BranchDrains(s: Tee, es: seq<Event>, i: nat)
    requires Inv(s) && s.stoppage != Going && AllEnabled(s, es) && i < |s.branches| && LeftAlone(es, i)
    ensures var j := FinalPosition(es, i);
            && j < |Run(s, es).branches|
            && (Fills(es) >= Rounds(s.branches[i]) ==> Run(s, es).branches[j].sink == NoSink)
            && (Fills(es) >= 2 ==> Run(s, es).branches[j].sink == NoSink)
    decreases |es|
  {
    RoundsBound(s.branches[i]);
    if es != [] {
      StepInv(s, es[0]);
      BranchRounds(s, es[0], i);
      StepKeeps(s, es[0], i);
      hide Flatten, Inv, Step, Enabled, Rounds;
      BranchDrains(Step(s, es[0]), es[1..], Position(es[0], i));
      RoundsBound(Step(s, es[0]).branches[Position(es[0], i)]);
    }
  }

  lemma StepKeeps(s: Tee, e: Event, i: nat)
    requires Enabled(s, e) && i < |s.branches| && !Ends(e, i)
    ensures Position(e, i) < |Step(s, e).branches|
  {
    hide Flatten, LargestMin, ReadSize, AllFit, HasSink;
  }
}
