/** What a tee keeps in every run: its branches agree, no buffer exceeds the limit, and calls
    get what they asked for. */
module TeeProof {
  import opened Bytes
  import opened TeeSpec
  import opened Wrappers

  // ---------------------------------------------------------------------------
  // Buffers.

  /** What is taken and what is left are the buffer; more room than bytes leaves no array. */
  lemma {:induction false} TakenLeft(buffer: seq<seq<byte>>, room: nat)
    ensures Taken(buffer, room) + Flatten(Left(buffer, room)) == Flatten(buffer)
    ensures |Taken(buffer, room)| == Min(room, Size(buffer))
    ensures Size(Left(buffer, room)) == Size(buffer) - Min(room, Size(buffer))
    ensures room > Size(buffer) ==> Left(buffer, room) == []
  {
    if room > 0 && buffer != [] {
      var p, ps := buffer[0], buffer[1..];
      if |p| <= room {
        TakenLeft(ps, room - |p|);
        assert Taken(buffer, room) == p + Taken(ps, room - |p|);
        assert (p + Taken(ps, room - |p|)) + Flatten(Left(ps, room - |p|)) == p + Flatten(ps);
      } else {
        FlattenCons(p[room..], ps);
        assert Taken(buffer, room) == p[..room];
        assert p[..room] + (p[room..] + Flatten(ps)) == p + Flatten(ps);
      }
    } else {
      assert Taken(buffer, room) == [];
    }
  }

  // ---------------------------------------------------------------------------
  // Invariants.

  /** The branch has seen all that was pulled, but for what is in its buffer. */
  ghost predicate Agrees(b: Branch, pulled: seq<byte>) {
    b.consumed + Flatten(b.buffer) == pulled
  }

  ghost predicate CallOk(b: Branch, stoppage: Stoppage) {
    match b.sink
    case NoSink =>
      (match b.call
       case Reading(_, _, _) => false
       case Pumping(_, _) => false
       case ReadDone(start, min, max, count) =>
         && |b.consumed| == start + count && count <= max
         && (count < min ==> b.buffer == [] && (stoppage == Eof || (stoppage == Failed && count > 0)))
       case PumpDone(start, amount, count) =>
         && |b.consumed| == start + count && count <= amount
         && (count < amount ==> b.buffer == [] && stoppage == Eof)
       case _ => true)
    case ReadSink(room, minBytes, readSoFar) =>
      && b.call.Reading? && |b.consumed| == b.call.start + readSoFar
      && b.call.min == minBytes + readSoFar && b.call.max == room + readSoFar && 0 < minBytes <= room
    case PumpSink(limit, pumpedSoFar, writing) =>
      && b.call.Pumping? && |b.consumed| == b.call.start + pumpedSoFar + writing
      && b.call.amount == pumpedSoFar + limit && writing <= limit && limit > 0
      && (0 < writing < limit ==> b.buffer == [])
  }

  /** Bytes an inner read may still add to every buffer. */
  function Promised(s: Tee): nat {
    if s.phase.Pulling? then s.phase.maxBytes else 0
  }

  ghost predicate BranchOk(b: Branch, pulled: seq<byte>, stoppage: Stoppage, room: nat, limit: nat) {
    Agrees(b, pulled) && CallOk(b, stoppage) && Size(b.buffer) + room <= limit
  }

  ghost predicate BranchesOk(bs: seq<Branch>, pulled: seq<byte>, stoppage: Stoppage, room: nat, limit: nat) {
    forall i | 0 <= i < |bs| :: BranchOk(bs[i], pulled, stoppage, room, limit)
  }

  ghost predicate NoneWriting(bs: seq<Branch>) {
    forall i | 0 <= i < |bs| :: !IsWriting(bs[i])
  }

  ghost predicate Inv(s: Tee) {
    && BranchesOk(s.branches, s.pulled, s.stoppage, Promised(s), s.limit)
    && (s.phase != Filled ==> NoneWriting(s.branches))
    && (s.phase.Pulling? ==> s.stoppage == Going && 0 < s.phase.minBytes <= s.phase.maxBytes)
    && (s.phase == Idle ==> !HasSink(s.branches))
  }

  lemma NewBranchOk(limit: nat)
    ensures BranchOk(Branch([], NoSink, NoCall, []), [], Going, 0, limit)
  {
    assert [] + Flatten([]) == [];
  }

  lemma InitInv(length: Option<nat>, limit: nat)
    ensures Inv(Init(length, limit))
  {
    NewBranchOk(limit);
    hide BranchOk;
  }

  // ---------------------------------------------------------------------------
  // One branch.

  lemma ConsumeAgrees(b: Branch, room: nat, pulled: seq<byte>)
    requires Agrees(b, pulled)
    ensures Agrees(Consume(b, room), pulled)
    ensures |Consume(b, room).consumed| == |b.consumed| + Min(room, Size(b.buffer))
    ensures Size(Consume(b, room).buffer) == Size(b.buffer) - Min(room, Size(b.buffer))
    ensures room > Size(b.buffer) ==> Consume(b, room).buffer == []
  {
    TakenLeft(b.buffer, room);
    hide Flatten, Left, Taken;
    assert (b.consumed + Taken(b.buffer, room)) + Flatten(Left(b.buffer, room)) ==
           b.consumed + (Taken(b.buffer, room) + Flatten(Left(b.buffer, room)));
  }

  lemma FillReadOk(b: Branch, pulled: seq<byte>, stoppage: Stoppage, room: nat, limit: nat)
    requires BranchOk(b, pulled, stoppage, room, limit) && b.sink.ReadSink?
    ensures BranchOk(FillRead(b, stoppage), pulled, stoppage, room, limit)
    ensures !IsWriting(FillRead(b, stoppage))
  {
    ConsumeAgrees(b, b.sink.room, pulled);
    hide Flatten, Consume;
  }

  lemma FillPumpOk(b: Branch, pulled: seq<byte>, stoppage: Stoppage, room: nat, limit: nat)
    requires BranchOk(b, pulled, stoppage, room, limit) && b.sink.PumpSink? && !IsWriting(b)
    ensures BranchOk(FillPump(b, stoppage), pulled, stoppage, room, limit)
  {
    ConsumeAgrees(b, b.sink.limit, pulled);
    hide Flatten, Consume;
  }

  lemma ReadBranchOk(b: Branch, min: nat, max: nat, pulled: seq<byte>, stoppage: Stoppage, room: nat, limit: nat)
    requires BranchOk(b, pulled, stoppage, room, limit) && min <= max
    ensures BranchOk(ReadBranch(b, min, max, stoppage), pulled, stoppage, room, limit)
    ensures !ReadBranch(b, min, max, stoppage).sink.PumpSink?
  {
    ConsumeAgrees(b, max, pulled);
    hide Flatten, Consume;
  }

  lemma PumpBranchOk(b: Branch, amount: nat, pulled: seq<byte>, stoppage: Stoppage, room: nat, limit: nat)
    requires BranchOk(b, pulled, stoppage, room, limit)
    ensures BranchOk(PumpBranch(b, amount, stoppage), pulled, stoppage, room, limit)
    ensures !IsWriting(PumpBranch(b, amount, stoppage))
  {
    hide Flatten;
  }

  lemma FillBranchOk(b: Branch, pulled: seq<byte>, stoppage: Stoppage, room: nat, limit: nat)
    requires BranchOk(b, pulled, stoppage, room, limit) && !IsWriting(b)
    ensures BranchOk(FillBranch(b, stoppage), pulled, stoppage, room, limit)
  {
    hide BranchOk, FillRead, FillPump;
    match b.sink
    case NoSink =>
    case ReadSink(_, _, _) => FillReadOk(b, pulled, stoppage, room, limit);
    case PumpSink(_, _, _) => FillPumpOk(b, pulled, stoppage, room, limit);
  }

  lemma OtherBranchOk(b: Branch, pulled: seq<byte>, stoppage: Stoppage, room: nat, limit: nat)
    requires BranchOk(b, pulled, stoppage, room, limit)
    ensures BranchOk(Written(b), pulled, stoppage, room, limit)
    ensures BranchOk(Reject(b), pulled, stoppage, room, limit)
    ensures BranchOk(b.(sink := NoSink, call := Cancelled), pulled, stoppage, room, limit)
    ensures !IsWriting(Written(b)) && !IsWriting(Reject(b))
    ensures BranchOk(CloneOf(b), pulled, stoppage, room, limit) && CloneOf(b).sink == NoSink
  {
    FlattenOne(Flatten(b.buffer));
    hide Flatten;
  }

  /** New bytes and a reason to stop leave a branch in order. */
  lemma ProducedOk(b: Branch, data: seq<byte>, pulled: seq<byte>, stoppage: Stoppage, room: nat, limit: nat)
    requires BranchOk(b, pulled, Going, room, limit) && !IsWriting(b) && |data| <= room
    ensures BranchOk(b.(buffer := b.buffer + [data]), pulled + data, stoppage, 0, limit)
  {
    FlattenConcat(b.buffer, [data]);
    FlattenOne(data);
    hide Flatten;
    assert (b.consumed + Flatten(b.buffer)) + data == b.consumed + (Flatten(b.buffer) + data);
  }

  /** Being stopped, and asking for bytes there is room for, leave a branch in order. */
  lemma StoppedOk(b: Branch, pulled: seq<byte>, stoppage: Stoppage, room: nat, room': nat, limit: nat)
    requires BranchOk(b, pulled, Going, room, limit) && Size(b.buffer) + room' <= limit
    ensures BranchOk(b, pulled, stoppage, room', limit)
  {
    hide Flatten;
  }

  // ---------------------------------------------------------------------------
  // All branches.

  lemma SetBranchInv(s: Tee, i: nat, b: Branch)
    requires Inv(s) && i < |s.branches| && BranchOk(b, s.pulled, s.stoppage, Promised(s), s.limit)
    requires s.phase == Filled || !IsWriting(b)
    requires s.phase == Idle ==> b.sink == NoSink
    ensures Inv(SetBranch(s, i, b))
  {
    hide BranchOk, IsWriting;
  }

  lemma CallInv(s: Tee, i: nat, b: Branch)
    requires Inv(s) && i < |s.branches| && BranchOk(b, s.pulled, s.stoppage, Promised(s), s.limit)
    requires !IsWriting(b)
    ensures Inv(EnsurePulling(SetBranch(s, i, b), b))
  {
    hide BranchOk, IsWriting;
  }

  lemma CloneInv(s: Tee, i: nat)
    requires Inv(s) && i < |s.branches|
    ensures Inv(s.(branches := s.branches + [CloneOf(s.branches[i])]))
  {
    OtherBranchOk(s.branches[i], s.pulled, s.stoppage, Promised(s), s.limit);
    hide BranchOk, CloneOf;
  }

  lemma DropInv(s: Tee, i: nat)
    requires Inv(s) && i < |s.branches|
    ensures Inv(s.(branches := s.branches[..i] + s.branches[i + 1..]))
  {
    hide BranchOk, IsWriting;
  }

  lemma FillInv(s: Tee)
    requires Inv(s) && s.phase == Filling
    ensures Inv(s.(branches := FillAll(s.branches, s.stoppage), phase := Filled))
  {
    forall i | 0 <= i < |s.branches|
      ensures BranchOk(FillBranch(s.branches[i], s.stoppage), s.pulled, s.stoppage, 0, s.limit)
    {
      FillBranchOk(s.branches[i], s.pulled, s.stoppage, 0, s.limit);
    }
    hide BranchOk, FillBranch, IsWriting;
  }

  lemma PulledInv(s: Tee, data: seq<byte>)
    requires Inv(s) && s.phase.Pulling? && |data| <= s.phase.maxBytes
    ensures Inv(PulledStep(s, data))
  {
    var stop := PulledStep(s, data).stoppage;
    forall i | 0 <= i < |s.branches|
      ensures BranchOk(s.branches[i].(buffer := s.branches[i].buffer + [data]), s.pulled + data, stop, 0, s.limit)
    {
      ProducedOk(s.branches[i], data, s.pulled, stop, Promised(s), s.limit);
    }
    hide BranchOk;
  }

  /** A sink that waits needs at least one byte and can take at least one. */
  lemma {:induction false} Needs(bs: seq<Branch>, pulled: seq<byte>, stoppage: Stoppage, room: nat, limit: nat)
    requires BranchesOk(bs, pulled, stoppage, room, limit)
    ensures forall i | 0 <= i < |bs| :: NeedMin(bs[i]) <= LargestMin(bs) && SmallestMax(bs) <= NeedMax(bs[i])
    ensures LargestMin(bs) > 0 <==> HasSink(bs)
    ensures SmallestMax(bs) > 0
  {
    if bs != [] {
      var init, last := bs[..|bs| - 1], bs[|bs| - 1];
      Needs(init, pulled, stoppage, room, limit);
      assert last.sink != NoSink <==> NeedMin(last) > 0;
      assert HasSink(bs) <==> HasSink(init) || last.sink != NoSink by {
        if HasSink(init) {
          var i :| 0 <= i < |init| && init[i].sink != NoSink;
          assert bs[i].sink != NoSink;
        }
      }
      assert forall i | 0 <= i < |init| :: init[i] == bs[i];
    }
    hide Flatten;
  }

  lemma RefitOk(s: Tee, stoppage: Stoppage, room: nat)
    requires BranchesOk(s.branches, s.pulled, Going, Promised(s), s.limit)
    requires AllFit(s.branches, room, s.limit)
    ensures BranchesOk(s.branches, s.pulled, stoppage, room, s.limit)
  {
    forall i | 0 <= i < |s.branches| ensures BranchOk(s.branches[i], s.pulled, stoppage, room, s.limit) {
      StoppedOk(s.branches[i], s.pulled, stoppage, Promised(s), room, s.limit);
    }
  }

  lemma FitsNow(s: Tee)
    requires Inv(s)
    ensures AllFit(s.branches, 0, s.limit)
  {
    hide Flatten;
  }

  lemma AnalyzeInv(s: Tee)
    requires Inv(s) && Enabled(s, Analyze)
    ensures Inv(AnalyzeStep(s))
  {
    Needs(s.branches, s.pulled, s.stoppage, Promised(s), s.limit);
    if s.stoppage == Going {
      var n := ReadSize(s.branches, s.limit);
      if AllFit(s.branches, n, s.limit) {
        RefitOk(s, Going, n);
      } else {
        FitsNow(s);
        RefitOk(s, Failed, 0);
      }
    }
    hide BranchesOk, AllFit, LargestMin, SmallestMax;
  }

  lemma PullFailedInv(s: Tee)
    requires Inv(s) && s.phase.Pulling?
    ensures Inv(s.(stoppage := Failed, phase := Filling))
  {
    FitsNow(s);
    RefitOk(s, Failed, 0);
    hide BranchesOk;
  }

  lemma StepInv(s: Tee, e: Event)
    requires Inv(s) && Enabled(s, e)
    ensures Inv(Step(s, e))
  {
    match e
    case TryRead(i, min, max) =>
      ReadBranchOk(s.branches[i], min, max, s.pulled, s.stoppage, Promised(s), s.limit);
      CallInv(s, i, ReadBranch(s.branches[i], min, max, s.stoppage));
    case PumpTo(i, amount) =>
      PumpBranchOk(s.branches[i], amount, s.pulled, s.stoppage, Promised(s), s.limit);
      CallInv(s, i, PumpBranch(s.branches[i], amount, s.stoppage));
    case Clone(i) => CloneInv(s, i);
    case DropBranch(i) => DropInv(s, i);
    case Cancel(i) =>
      OtherBranchOk(s.branches[i], s.pulled, s.stoppage, Promised(s), s.limit);
      SetBranchInv(s, i, s.branches[i].(sink := NoSink, call := Cancelled));
    case WriteDone(i) =>
      OtherBranchOk(s.branches[i], s.pulled, s.stoppage, Promised(s), s.limit);
      SetBranchInv(s, i, Written(s.branches[i]));
    case WriteFailed(i) =>
      OtherBranchOk(s.branches[i], s.pulled, s.stoppage, Promised(s), s.limit);
      SetBranchInv(s, i, Reject(s.branches[i]));
    case Fill => FillInv(s);
    case Analyze => AnalyzeInv(s);
    case Pulled(data) => PulledInv(s, data);
    case PullFailed => PullFailedInv(s);
    hide BranchOk, ReadBranch, PumpBranch, Written, Reject, NoneWriting, HasSink;
  }

  lemma {:induction false} RunInv(s: Tee, es: seq<Event>)
    requires Inv(s) && AllEnabled(s, es)
    ensures Inv(Run(s, es))
    decreases |es|
  {
    hide Inv, Step, Enabled;
    if es != [] {
      StepInv(s, es[0]);
      RunInv(Step(s, es[0]), es[1..]);
    }
  }
}
