/** What becomes of each call on a branch of a tee, over every run: why the tee stops, when a call
    may be rejected, what it asked for and how much it is given at once. */
module TeeCalls {
  import opened Bytes
  import opened TeeSpec
  import opened TeeProof
  import opened TeePromises
  import opened Wrappers

  // ---------------------------------------------------------------------------
  // How much the inner stream is asked for.

  /** The minima of all waiting sinks, and how much each can take. */
  predicate AllNeed(bs: seq<Branch>, n: nat) {
    forall i | 0 <= i < |bs| :: NeedMin(bs[i]) <= n
  }

  predicate AllTake(bs: seq<Branch>, n: nat) {
    forall i | 0 <= i < |bs| && bs[i].sink != NoSink :: n <= NeedMax(bs[i])
  }

  lemma {:induction false} LargestMinIs(bs: seq<Branch>)
    ensures AllNeed(bs, LargestMin(bs))
    ensures LargestMin(bs) > 0 ==> exists i :: 0 <= i < |bs| && NeedMin(bs[i]) == LargestMin(bs)
  {
    if bs != [] {
      var init, last := bs[..|bs| - 1], |bs| - 1;
      LargestMinIs(init);
      assert forall i | 0 <= i < last :: init[i] == bs[i];
      if NeedMin(bs[last]) < LargestMin(bs) {
        var i :| 0 <= i < |init| && NeedMin(init[i]) == LargestMin(init);
        assert NeedMin(bs[i]) == LargestMin(bs);
      }
    }
  }

  lemma {:induction false} SmallestMaxIs(bs: seq<Branch>, n: nat)
    requires n <= MAX_VALUE
    ensures n <= SmallestMax(bs) <==> AllTake(bs, n)
  {
    if bs != [] {
      var init, last := bs[..|bs| - 1], |bs| - 1;
      SmallestMaxIs(init, n);
      assert forall i | 0 <= i < last :: init[i] == bs[i];
    }
  }

  /** The amount asked for is what every sink needs, and as much more as every sink can take, a
      block holds and the limit allows. */
  lemma ReadSizeIs(bs: seq<Branch>, limit: nat, n: nat)
    ensures AllNeed(bs, ReadSize(bs, limit))
    ensures LargestMin(bs) < n ==>
              (n <= ReadSize(bs, limit) <==> AllTake(bs, n) && n <= MAX_BLOCK_SIZE && n <= limit)
  {
    LargestMinIs(bs);
    if n <= MAX_VALUE { SmallestMaxIs(bs, n); }
    hide LargestMin, SmallestMax;
  }

  // ---------------------------------------------------------------------------
  // Why a tee stops.

  /** Some buffer has no room for what the inner stream would be asked for. */
  predicate Overflows(s: Tee) {
    exists i | 0 <= i < |s.branches| :: Size(s.branches[i].buffer) + ReadSize(s.branches, s.limit) > s.limit
  }

  /** The event fails the tee: the inner stream does, or the limit would be exceeded for a sink. */
  predicate Fails(s: Tee, e: Event) {
    e == PullFailed || (e == Analyze && s.stoppage == Going && HasSink(s.branches) && Overflows(s))
  }

  /** The inner stream has returned less than it must unless it is at its end. */
  predicate ComesShort(s: Tee, e: Event) {
    e.Pulled? && s.phase.Pulling? && |e.data| < s.phase.minBytes
  }

  /** A tee stops for these reasons only, and never changes its reason. */
  lemma StopsIff(s: Tee, e: Event)
    requires Inv(s) && Enabled(s, e)
    ensures s.stoppage != Going ==> Step(s, e).stoppage == s.stoppage
    ensures s.stoppage == Going ==> (Step(s, e).stoppage == Failed <==> Fails(s, e))
    ensures s.stoppage == Going ==> (Step(s, e).stoppage == Eof <==> ComesShort(s, e))
  {
    hide Flatten, BranchesOk, FillBranch, ReadBranch, PumpBranch, Written, LargestMin, ReadSize, HasSink;
  }

  /** One byte has been read for one branch of a tee with a limit of two, and that branch reads on. */
  const HalfFull: Tee := Tee(
    [Branch([], ReadSink(2, 1, 0), Reading(1, 1, 2), [7]), Branch([[7]], NoSink, NoCall, [])],
    Filled, Going, None, 2, [7])

  /** The limit fails the tee although every buffer has room for all that the sinks need: what counts
      is the most that the inner stream might return. */
  lemma FailsWithRoom()
    ensures Inv(HalfFull) && Step(HalfFull, Analyze).stoppage == Failed
    ensures AllFit(HalfFull.branches, LargestMin(HalfFull.branches), HalfFull.limit)
  {
    var bs := HalfFull.branches;
    TwoBranches(bs[0], bs[1]);
    FlattenOne([7]);
    assert Size(bs[1].buffer) == 1 && Size(bs[0].buffer) == 0;
    assert [] + [7] == [7] && [7] + [] == [7];
    assert Size(bs[1].buffer) + ReadSize(bs, 2) > 2;
  }

  const Asking: Branch := Branch([], ReadSink(2, 1, 0), Reading(0, 1, 2), [])
  const Resting: Branch := Branch([], NoSink, NoCall, [])
  const Asked: Tee := Tee([Asking, Resting], Filling, Going, None, 2, [])
  const Reads: Tee := Asked.(phase := Pulling(1, 2))
  const Fed: Tee := Tee([Asking.(buffer := [[7]]), Resting.(buffer := [[7]])], Filling, Going, None, 2, [7])
  const Served: Tee :=
    Tee([Branch([], NoSink, ReadDone(0, 1, 2, 1), [7]), Branch([[7]], NoSink, NoCall, [])], Filled, Going, None, 2, [7])

  lemma TwoBranches(a: Branch, b: Branch)
    ensures LargestMin([a, b]) == Max(NeedMin(a), NeedMin(b))
    ensures SmallestMax([a, b]) == Min(Min(MAX_VALUE, NeedMax(a)), NeedMax(b))
  {
    assert [a][..0] == [] && [a, b][..1] == [a];
    assert LargestMin([a]) == Max(LargestMin([a][..0]), NeedMin(a));
    assert SmallestMax([a]) == Min(SmallestMax([a][..0]), NeedMax(a));
  }

  /** A read of an empty buffer waits. */
  lemma EmptyRead(b: Branch)
    requires b.buffer == []
    ensures ReadBranch(b, 1, 2, Going) == b.(call := Reading(|b.consumed|, 1, 2), sink := ReadSink(2, 1, 0))
  {
    assert b.consumed + [] == b.consumed;
  }

  lemma WaitingRead(s: Tee, i: nat)
    requires i < |s.branches| && s.branches[i].sink == NoSink && s.branches[i].buffer == [] && s.stoppage == Going
    ensures var b := s.branches[i];
            var c := b.(call := Reading(|b.consumed|, 1, 2), sink := ReadSink(2, 1, 0));
            Enabled(s, TryRead(i, 1, 2)) && Step(s, TryRead(i, 1, 2)) ==
            s.(branches := s.branches[i := c], phase := if s.phase == Idle then Filling else s.phase)
  {
    EmptyRead(s.branches[i]);
    hide ReadBranch;
  }

  lemma AskedFirst()
    ensures Enabled(Init(None, 2), TryRead(0, 1, 2)) && Step(Init(None, 2), TryRead(0, 1, 2)) == Asked
  {
    hide Step, Enabled;
    WaitingRead(Init(None, 2), 0);
    assert Init(None, 2).branches[0 := Asking] == Asked.branches;
  }

  lemma AskedFilled()
    ensures Enabled(Asked, Fill) && Step(Asked, Fill) == Asked.(phase := Filled)
  {
    var bs := Asked.branches;
    assert FillBranch(Asking, Going) == Asking && FillBranch(Resting, Going) == Resting;
    assert FillAll(bs, Going) == bs;
  }

  lemma AskedReads()
    ensures Enabled(Asked.(phase := Filled), Analyze) && Step(Asked.(phase := Filled), Analyze) == Reads
  {
    var bs := Asked.branches;
    TwoBranches(Asking, Resting);
    assert bs[0].sink != NoSink;
    hide LargestMin, SmallestMax;
  }

  lemma ReadsFed()
    ensures Enabled(Reads, Pulled([7])) && Step(Reads, Pulled([7])) == Fed
  {
    var bs := ProduceAll(Reads.branches, [7]);
    var none: seq<seq<byte>> := [];
    assert none + [[7]] == [[7]];
    assert bs == Fed.branches;
    assert [] + [7] == [7];
    hide ProduceAll;
  }

  lemma FedServed()
    ensures Enabled(Fed, Fill) && Step(Fed, Fill) == Served
  {
    var b := Fed.branches[0];
    FlattenOne([7]);
    assert Left([[7]], 2) == [] && Taken([[7]], 2) == [7];
    assert [] + [7] == [7];
    assert FillBranch(b, Going) == Served.branches[0];
    assert FillAll(Fed.branches, Going) == Served.branches;
  }

  lemma ServedAsks()
    ensures Enabled(Served, TryRead(0, 1, 2)) && Step(Served, TryRead(0, 1, 2)) == HalfFull
  {
    hide Step, Enabled;
    WaitingRead(Served, 0);
    assert Served.branches[0 := HalfFull.branches[0]] == HalfFull.branches;
  }

  lemma Prepend(s: Tee, e: Event, es: seq<Event>, t: Tee)
    requires Enabled(s, e) && Step(s, e) == t && AllEnabled(t, es)
    ensures AllEnabled(s, [e] + es) && Run(s, [e] + es) == Run(t, es)
  {
    assert ([e] + es)[1..] == es;
    hide Step, Enabled;
  }

  /** A run that leads there. */
  lemma HalfFullIsReached()
    ensures exists es :: AllEnabled(Init(None, 2), es) && Run(Init(None, 2), es) == HalfFull
  {
    AskedFirst();
    AskedFilled();
    AskedReads();
    ReadsFed();
    FedServed();
    ServedAsks();
    hide Step, Enabled;
    var es: seq<Event> := [];
    Prepend(Served, TryRead(0, 1, 2), es, HalfFull);
    es := [TryRead(0, 1, 2)] + es;
    Prepend(Fed, Fill, es, Served);
    es := [Fill] + es;
    Prepend(Reads, Pulled([7]), es, Fed);
    es := [Pulled([7])] + es;
    Prepend(Asked.(phase := Filled), Analyze, es, Reads);
    es := [Analyze] + es;
    Prepend(Asked, Fill, es, Asked.(phase := Filled));
    es := [Fill] + es;
    Prepend(Init(None, 2), TryRead(0, 1, 2), es, Asked);
    es := [TryRead(0, 1, 2)] + es;
  }

  predicate NeverFails(s: Tee, es: seq<Event>)
    requires AllEnabled(s, es)
    decreases |es|
  {
    es == [] || (!Fails(s, es[0]) && NeverFails(Step(s, es[0]), es[1..]))
  }

  predicate NeverEnds(s: Tee, es: seq<Event>)
    requires AllEnabled(s, es)
    decreases |es|
  {
    es == [] || (!ComesShort(s, es[0]) && NeverEnds(Step(s, es[0]), es[1..]))
  }

  /** A tee is at the end of the stream just if a read has come short, and has failed just if one has
      failed or a buffer was too small; it is never both in one run. */
  lemma {:induction false} StoppageIs(s: Tee, es: seq<Event>)
    requires Inv(s) && AllEnabled(s, es) && s.stoppage == Going
    ensures Run(s, es).stoppage == Failed <==> !NeverFails(s, es)
    ensures Run(s, es).stoppage == Eof <==> !NeverEnds(s, es)
    decreases |es|
  {
    hide Inv, Step, Enabled, Fails, ComesShort;
    if es != [] {
      StopsIff(s, es[0]);
      StepInv(s, es[0]);
      if Step(s, es[0]).stoppage == Going {
        StoppageIs(Step(s, es[0]), es[1..]);
      } else {
        StoppedRun(Step(s, es[0]), es[1..]);
      }
    }
  }

  /** Once stopped, a tee does not pull, so nothing ends or fails any more. */
  lemma {:induction false} StoppedRun(s: Tee, es: seq<Event>)
    requires Inv(s) && AllEnabled(s, es) && s.stoppage != Going
    ensures Run(s, es).stoppage == s.stoppage && NeverFails(s, es) && NeverEnds(s, es)
    decreases |es|
  {
    if es != [] {
      StopsIff(s, es[0]);
      StepInv(s, es[0]);
      NotPulling(s, es[0]);
      hide Inv, Step, Enabled, Fails, ComesShort;
      StoppedRun(Step(s, es[0]), es[1..]);
    }
  }

  lemma NotPulling(s: Tee, e: Event)
    requires Inv(s) && Enabled(s, e) && s.stoppage != Going
    ensures !Fails(s, e) && !ComesShort(s, e)
  {
    hide BranchesOk;
  }

  // ---------------------------------------------------------------------------
  // The calls of one branch.

  /** The branch waits for, or has, the answer to this read. */
  predicate IsRead(c: Call, start: nat, min: nat, max: nat) {
    (c.Reading? || c.ReadDone?) && c.start == start && c.min == min && c.max == max
  }

  predicate IsPump(c: Call, start: nat, amount: nat) {
    (c.Pumping? || c.PumpDone?) && c.start == start && c.amount == amount
  }

  /** The same call, waiting or answered. */
  predicate SameCall(c: Call, c': Call) {
    match c
    case Reading(start, min, max) => IsRead(c', start, min, max)
    case Pumping(start, amount) => IsPump(c', start, amount)
    case _ => c' == c
  }

  /** A waiting read of a failed tee that has nothing and finds nothing. */
  predicate FindsNothing(b: Branch) {
    match b.sink
    case NoSink => false
    case ReadSink(_, _, readSoFar) => readSoFar == 0 && Size(b.buffer) == 0
    case PumpSink(_, _, _) => Size(b.buffer) == 0
  }

  /** The number of bytes that a sink can take. */
  function Wanted(b: Branch): nat {
    match b.sink
    case NoSink => 0
    case ReadSink(room, _, _) => room
    case PumpSink(limit, _, _) => limit
  }

  ghost predicate Given(b: Branch, stoppage: Stoppage, c: Branch) {
    var n := Min(Wanted(b), Size(b.buffer));
    && c.consumed == b.consumed + Flatten(b.buffer)[..n]
    && (c.sink.PumpSink? ==> c.sink.writing == n)
    && (if stoppage == Failed && FindsNothing(b) then c.call == Rejected else SameCall(b.call, c.call))
  }

  /** A fill pass gives every sink all it can take from the buffer. It rejects a call just if the tee
      has failed and there is nothing to give, a short read being preferred to an exception. */
  lemma FillGives(b: Branch, pulled: seq<byte>, stoppage: Stoppage, room: nat, limit: nat)
    requires BranchOk(b, pulled, stoppage, room, limit) && !IsWriting(b)
    ensures Given(b, stoppage, FillBranch(b, stoppage))
  {
    match b.sink
    case NoSink => assert b.consumed + [] == b.consumed; hide Flatten;
    case ReadSink(_, _, _) => FillReadGives(b, pulled, stoppage, room, limit);
    case PumpSink(_, _, _) => FillPumpGives(b, pulled, stoppage, room, limit);
  }

  lemma FillReadGives(b: Branch, pulled: seq<byte>, stoppage: Stoppage, room: nat, limit: nat)
    requires BranchOk(b, pulled, stoppage, room, limit) && b.sink.ReadSink?
    ensures Given(b, stoppage, FillRead(b, stoppage))
  {
    TakenLeft(b.buffer, b.sink.room);
    EmptyLeft(b.buffer, b.sink.room);
    hide Flatten, Left;
  }

  lemma FillPumpGives(b: Branch, pulled: seq<byte>, stoppage: Stoppage, room: nat, limit: nat)
    requires BranchOk(b, pulled, stoppage, room, limit) && b.sink.PumpSink? && !IsWriting(b)
    ensures Given(b, stoppage, FillPump(b, stoppage))
  {
    TakenLeft(b.buffer, b.sink.limit);
    hide Flatten, Left;
  }

  lemma {:induction false} EmptyLeft(buffer: seq<seq<byte>>, room: nat)
    requires room > 0
    ensures Size(buffer) == 0 ==> Left(buffer, room) == []
  {
    TakenLeft(buffer, room);
  }

  /** A read is given at once all that the buffer has of what it can take. It is rejected just if the
      tee has failed and there is nothing; otherwise it asks for exactly what its caller said. */
  lemma ReadGives(b: Branch, min: nat, max: nat, stoppage: Stoppage)
    requires min <= max
    ensures var (c, n) := (ReadBranch(b, min, max, stoppage), Min(max, Size(b.buffer)));
            && c.consumed == b.consumed + Flatten(b.buffer)[..n]
            && (if stoppage == Failed && Size(b.buffer) == 0 && min > 0 then c.call == Rejected
                else IsRead(c.call, |b.consumed|, min, max))
            && (n >= min ==> c.call.ReadDone? && c.call.count == n)
            && (n < min && stoppage == Going ==> c.call.Reading? && c.sink == ReadSink(max - n, min - n, n))
  {
    TakenLeft(b.buffer, max);
    hide Flatten, Left;
  }

  /** A pump takes nothing yet. It is rejected only if the tee has failed and the buffer is empty. */
  lemma PumpGives(b: Branch, amount: nat, stoppage: Stoppage)
    ensures var c := PumpBranch(b, amount, stoppage);
            && c.consumed == b.consumed && c.buffer == b.buffer
            && (if stoppage == Failed && b.buffer == [] && amount > 0 then c.call == Rejected
                else IsPump(c.call, |b.consumed|, amount))
            && (c.call.PumpDone? <==> amount == 0 || (b.buffer == [] && stoppage == Eof))
            && (c.call.Pumping? ==> c.sink == PumpSink(amount, 0, 0))
  {
  }

  // ---------------------------------------------------------------------------
  // Over runs.

  /** The event is a step of branch `i` itself, or of the loop for all branches. */
  predicate Touches(e: Event, i: nat) {
    match e
    case TryRead(k, _, _) => k == i
    case PumpTo(k, _) => k == i
    case DropBranch(k) => k == i
    case Cancel(k) => k == i
    case WriteDone(k) => k == i
    case WriteFailed(k) => k == i
    case Clone(_) => false
    case Fill => true
    case Pulled(_) => true
    case Analyze => false
    case PullFailed => false
  }

  /** Steps of other branches leave a branch as it is. */
  lemma Untouched(s: Tee, e: Event, i: nat)
    requires Enabled(s, e) && i < |s.branches| && !Touches(e, i)
    ensures Position(e, i) < |Step(s, e).branches| && Step(s, e).branches[Position(e, i)] == s.branches[i]
  {
    hide Flatten, FillBranch, ReadBranch, PumpBranch, Written, LargestMin, ReadSize, AllFit, HasSink;
  }

  /** A branch's own cancellation, and the end of a write to its pump's output. */
  lemma OwnSteps(s: Tee, e: Event, i: nat)
    requires Inv(s) && Enabled(s, e) && i < |s.branches|
    requires e == Cancel(i) || e == WriteDone(i) || e == WriteFailed(i)
    ensures var (b, c) := (s.branches[i], Step(s, e).branches[i]);
            && c.consumed == b.consumed && c.buffer == b.buffer && !IsWriting(c)
            && (e.Cancel? ==> c.call == Cancelled && c.sink == NoSink)
            && (e.WriteFailed? ==> c.call == Rejected && c.sink == NoSink)
            && (e.WriteDone? ==> SameCall(b.call, c.call))
            && (e.WriteDone? && c.sink != NoSink ==>
                 c.sink == PumpSink(b.sink.limit - b.sink.writing, b.sink.pumpedSoFar + b.sink.writing, 0))
  {
    if !e.Cancel? { OwnWrite(s, i); }
    hide Flatten;
  }

  lemma OwnWrite(s: Tee, i: nat)
    requires Inv(s) && i < |s.branches| && IsWriting(s.branches[i])
    ensures s.branches[i].sink.writing <= s.branches[i].sink.limit && s.branches[i].call.Pumping?
  {
    hide Flatten;
  }

  /** A branch whose call is not cancelled, fails no write and is followed by no other. */
  predicate Undisturbed(es: seq<Event>, i: nat)
    decreases |es|
  {
    es == [] ||
    (!Ends(es[0], i) && es[0] != Cancel(i) && es[0] != WriteFailed(i) && Undisturbed(es[1..], Position(es[0], i)))
  }

  lemma SameCallStep(s: Tee, e: Event, i: nat)
    requires Inv(s) && Enabled(s, e) && i < |s.branches| && s.stoppage != Failed
    requires !Ends(e, i) && e != Cancel(i) && e != WriteFailed(i)
    ensures Position(e, i) < |Step(s, e).branches|
    ensures SameCall(s.branches[i].call, Step(s, e).branches[Position(e, i)].call)
  {
    if !Touches(e, i) {
      Untouched(s, e, i);
    } else if e == Fill {
      FillGives(s.branches[i], s.pulled, s.stoppage, Promised(s), s.limit);
    } else if e.WriteDone? {
      OwnSteps(s, e, i);
    }
    hide Flatten, BranchOk, FillBranch, ReadBranch, PumpBranch, Written, LargestMin, ReadSize, AllFit, HasSink;
  }

  lemma {:induction false} SameCallRun(s: Tee, es: seq<Event>, i: nat)
    requires Inv(s) && AllEnabled(s, es) && i < |s.branches| && Undisturbed(es, i)
    requires Run(s, es).stoppage != Failed
    ensures FinalPosition(es, i) < |Run(s, es).branches|
    ensures SameCall(s.branches[i].call, Run(s, es).branches[FinalPosition(es, i)].call)
    decreases |es|
  {
    FailedStays(s, es);
    hide Inv, Step, Enabled;
    if es != [] {
      SameCallStep(s, es[0], i);
      StepInv(s, es[0]);
      SameCallRun(Step(s, es[0]), es[1..], Position(es[0], i));
    }
  }

  lemma FailedStays(s: Tee, es: seq<Event>)
    requires Inv(s) && AllEnabled(s, es)
    ensures s.stoppage == Failed ==> Run(s, es).stoppage == Failed
  {
    if s.stoppage == Failed { StoppedRun(s, es); }
    hide Inv, Run, AllEnabled;
  }

  /** A read asks for exactly what its caller said, and is not rejected unless the tee fails,
      whatever the other branches do. */
  lemma ReadIsAnswered(s: Tee, i: nat, min: nat, max: nat, es: seq<Event>)
    requires Inv(s) && AllEnabled(s, [TryRead(i, min, max)] + es) && Undisturbed(es, i)
    requires Run(s, [TryRead(i, min, max)] + es).stoppage != Failed
    ensures var (t, j) := (Run(s, [TryRead(i, min, max)] + es), FinalPosition(es, i));
            j < |t.branches| && IsRead(t.branches[j].call, |s.branches[i].consumed|, min, max)
  {
    var e := TryRead(i, min, max);
    assert ([e] + es)[1..] == es;
    FailedStays(s, [e] + es);
    ReadGives(s.branches[i], min, max, s.stoppage);
    StepInv(s, e);
    SameCallRun(Step(s, e), es, i);
    hide Inv, ReadBranch, Flatten;
  }

  /** A pump likewise, unless a write to its own output fails. */
  lemma PumpIsAnswered(s: Tee, i: nat, amount: nat, es: seq<Event>)
    requires Inv(s) && AllEnabled(s, [PumpTo(i, amount)] + es) && Undisturbed(es, i)
    requires Run(s, [PumpTo(i, amount)] + es).stoppage != Failed
    ensures var (t, j) := (Run(s, [PumpTo(i, amount)] + es), FinalPosition(es, i));
            j < |t.branches| && IsPump(t.branches[j].call, |s.branches[i].consumed|, amount)
  {
    var e := PumpTo(i, amount);
    assert ([e] + es)[1..] == es;
    FailedStays(s, [e] + es);
    PumpGives(s.branches[i], amount, s.stoppage);
    StepInv(s, e);
    SameCallRun(Step(s, e), es, i);
    hide Inv, PumpBranch, Flatten;
  }

  /** No write to an output has failed in the run. */
  predicate AllWritten(es: seq<Event>) {
    forall k | 0 <= k < |es| :: !es[k].WriteFailed?
  }

  ghost predicate NoneRejected(s: Tee) {
    forall i | 0 <= i < |s.branches| :: s.branches[i].call != Rejected
  }

  lemma NoneRejectedStep(s: Tee, e: Event)
    requires Inv(s) && Enabled(s, e) && NoneRejected(s) && s.stoppage != Failed && !e.WriteFailed?
    ensures NoneRejected(Step(s, e))
  {
    var t := Step(s, e);
    forall j | 0 <= j < |t.branches| ensures t.branches[j].call != Rejected {
      if e.Clone? && j == |s.branches| {
        assert t.branches[j].call == NoCall;
      } else {
        var i := if e.DropBranch? && e.i <= j then j + 1 else j;
        assert i < |s.branches|;
        if e.TryRead? && e.i == i {
          ReadGives(s.branches[i], e.min, e.max, s.stoppage);
        } else if e.PumpTo? && e.i == i {
          PumpGives(s.branches[i], e.amount, s.stoppage);
        } else if e == Cancel(i) {
          OwnSteps(s, e, i);
        } else {
          SameCallStep(s, e, i);
        }
      }
    }
    hide Flatten, Inv, FillBranch, ReadBranch, PumpBranch, Written, LargestMin, ReadSize, AllFit, HasSink;
  }

  lemma {:induction false} NoneRejectedRun(s: Tee, es: seq<Event>)
    requires Inv(s) && AllEnabled(s, es) && NoneRejected(s) && AllWritten(es) && Run(s, es).stoppage != Failed
    ensures NoneRejected(Run(s, es))
    decreases |es|
  {
    FailedStays(s, es);
    hide Inv, Step, Enabled, NoneRejected;
    if es != [] {
      NoneRejectedStep(s, es[0]);
      StepInv(s, es[0]);
      NoneRejectedRun(Step(s, es[0]), es[1..]);
    }
  }

  /** In a run in which the inner stream does not fail, no buffer is too small for what a sink needs
      and no write to an output fails, no call of any branch is rejected. */
  lemma NothingRejected(length: Option<nat>, limit: nat, es: seq<Event>, i: nat)
    requires AllEnabled(Init(length, limit), es) && NeverFails(Init(length, limit), es) && AllWritten(es)
    requires i < |Run(Init(length, limit), es).branches|
    ensures Run(Init(length, limit), es).branches[i].call != Rejected
  {
    InitInv(length, limit);
    StoppageIs(Init(length, limit), es);
    NoneRejectedRun(Init(length, limit), es);
  }

  // ---------------------------------------------------------------------------
  // The loop.

  /** When the sinks have been filled, the loop ends just if none is left; it fills them again if the
      tee has stopped, and otherwise asks the inner stream for what the sinks need. */
  lemma LoopGoesOn(s: Tee)
    requires Inv(s) && Enabled(s, Analyze)
    ensures var t := Step(s, Analyze);
            && t.branches == s.branches
            && (t.phase == Idle <==> !HasSink(s.branches))
            && (t.phase.Pulling? <==> HasSink(s.branches) && s.stoppage == Going && !Overflows(s))
            && (t.phase.Pulling? ==>
                 t.phase.maxBytes == ReadSize(s.branches, s.limit) && AllNeed(s.branches, t.phase.minBytes) &&
                 exists i :: 0 <= i < |s.branches| && NeedMin(s.branches[i]) == t.phase.minBytes)
            && (t.phase == Filling <==> HasSink(s.branches) && (s.stoppage != Going || Overflows(s)))
  {
    LargestMinIs(s.branches);
    Needs(s.branches, s.pulled, s.stoppage, Promised(s), s.limit);
    hide BranchesOk, LargestMin, SmallestMax, ReadSize;
  }

  /** One read of the inner stream that is not short serves every sink for which it was made: a read
      resolves, and a pump has bytes on the way to its output. */
  lemma OneReadServes(s: Tee, data: seq<byte>, i: nat)
    requires Inv(s) && Enabled(s, Analyze) && i < |s.branches| && s.branches[i].sink != NoSink
    requires s.stoppage == Going && !Overflows(s)
    requires Enabled(Step(s, Analyze), Pulled(data)) && !ComesShort(Step(s, Analyze), Pulled(data))
    ensures var t := Step(Step(s, Analyze), Pulled(data));
            && Enabled(t, Fill)
            && var (b, c) := (s.branches[i], Step(t, Fill).branches[i]);
               && (b.sink.ReadSink? ==> c.sink == NoSink && c.call.ReadDone? &&
                                        IsRead(c.call, b.call.start, b.call.min, b.call.max))
               && (b.sink.PumpSink? ==> IsWriting(c) && c.call == b.call)
  {
    StepInv(s, Analyze);
    LoopGoesOn(s);
    var r := Step(s, Analyze);
    StepInv(r, Pulled(data));
    var t := Step(r, Pulled(data));
    assert t.phase == Filling && t.branches[i] == s.branches[i].(buffer := s.branches[i].buffer + [data]);
    ServedBranch(s.branches[i], data, t.pulled, t.stoppage, Promised(t), t.limit);
    hide Flatten, Inv, HasSink, LargestMin, ReadSize;
  }

  lemma ServedBranch(b: Branch, data: seq<byte>, pulled: seq<byte>, stoppage: Stoppage, room: nat, limit: nat)
    requires BranchOk(b.(buffer := b.buffer + [data]), pulled, stoppage, room, limit)
    requires b.sink != NoSink && NeedMin(b) <= |data| && !IsWriting(b)
    ensures var c := FillBranch(b.(buffer := b.buffer + [data]), stoppage);
            && (b.sink.ReadSink? ==> c.sink == NoSink && b.call.Reading? && c.call.ReadDone? &&
                                     IsRead(c.call, b.call.start, b.call.min, b.call.max))
            && (b.sink.PumpSink? ==> IsWriting(c) && c.call == b.call)
  {
    FlattenConcat(b.buffer, [data]);
    FlattenOne(data);
    hide Flatten, Left;
  }

  /** A clone comes last, with nothing waiting, and has the same bytes before and behind it. */
  lemma CloneIsAhead(s: Tee, i: nat)
    requires i < |s.branches|
    ensures var t := Step(s, Clone(i));
            && |t.branches| == |s.branches| + 1
            && var (b, c) := (s.branches[i], t.branches[|s.branches|]);
               c.sink == NoSink && c.call == NoCall && c.consumed == b.consumed &&
               Flatten(c.buffer) == Flatten(b.buffer)
  {
    FlattenOne(Flatten(s.branches[i].buffer));
  }
}
