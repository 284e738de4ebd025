/** The tee as the program runs it (libraries/zc/async/async-io.cc): branches with buffers of
    arrays, and loops over arrays and branches. Every method is proved to take exactly the
    step of TeeSpec, so that all runs have TeePromises. */
module TeeMachine {
  import opened Bytes
  import opened TeeSpec
  import opened TeeProof
  import TeePromises
  import opened Wrappers

  /** A branch with its buffer (AsyncTee::Branch and AsyncTee::Buffer). */
  class TeeBranch {
    var bufferList: seq<seq<byte>>
    var sink: Sink
    var call: Call
    var consumed: seq<byte>

    ghost function View(): Branch
      reads this
    {
      Branch(bufferList, sink, call, consumed)
    }

    constructor ()
      ensures View() == Branch([], NoSink, NoCall, [])
    {
      bufferList, sink, call, consumed := [], NoSink, NoCall, [];
    }

    /** Buffer::clone: all bytes of the original in one array. */
    constructor CloneFrom(original: TeeBranch)
      ensures View() == CloneOf(original.View())
    {
      var all, i, list := [], 0, original.bufferList;
      assert list[..0] == [];
      while i < |list|
        invariant i <= |list| && all == Flatten(list[..i])
      {
        assert list[..i + 1] == list[..i] + [list[i]];
        FlattenConcat(list[..i], [list[i]]);
        FlattenOne(list[i]);
        all := all + list[i];
        i := i + 1;
      }
      assert list[..i] == list;
      bufferList, sink, call, consumed := [all], NoSink, NoCall, original.consumed;
    }

    /** Buffer::consume: copies as much as there is and fits; `space` is the room left in the
        reader's buffer and `need` what is left of its minimum. */
    method Consume(room: nat, minBytes: nat) returns (amount: nat, space: nat, need: nat)
      modifies `bufferList, `consumed
      ensures View() == TeeSpec.Consume(old(View()), room)
      ensures amount == Min(room, Size(old(bufferList))) && space == room - amount
      ensures need == minBytes - Min(amount, minBytes)
    {
      hide Left, Flatten;
      amount, space, need := 0, room, minBytes;
      var read: seq<byte> := [];
      while space > 0 && bufferList != []
        invariant consumed == old(consumed) && |read| == amount && amount + space == room
        invariant need == minBytes - Min(amount, minBytes)
        invariant Flatten(old(bufferList)) == read + Flatten(bufferList)
        invariant Left(old(bufferList), room) == Left(bufferList, space)
        decreases space, |bufferList|
      {
        var bytes := bufferList[0];
        var n := Min(|bytes|, space);
        LeftStep(bufferList, space);
        read := read + bytes[..n];
        amount, space, need := amount + n, space - n, need - Min(n, need);
        if n == |bytes| {
          bufferList := bufferList[1..];
        } else {
          bufferList := [bytes[n..]] + bufferList[1..];
          LeftStops(bufferList, space);
        }
      }
      LeftStops(bufferList, space);
      AllTaken(old(bufferList), read, bufferList, room);
      consumed := consumed + read;
    }

    lemma LeftStep(buffer: seq<seq<byte>>, room: nat)
      requires room > 0 && buffer != []
      ensures var p := buffer[0];
              if |p| <= room then
                Left(buffer, room) == Left(buffer[1..], room - |p|) && Flatten(buffer) == p + Flatten(buffer[1..])
              else
                && Left(buffer, room) == [p[room..]] + buffer[1..]
                && Flatten(buffer) == p[..room] + Flatten([p[room..]] + buffer[1..])
    {
      FlattenCons(buffer[0][Min(room, |buffer[0]|)..], buffer[1..]);
    }

    lemma LeftStops(buffer: seq<seq<byte>>, room: nat)
      requires room == 0 || buffer == []
      ensures Left(buffer, room) == buffer
    {
    }

    lemma AllTaken(buffer: seq<seq<byte>>, taken: seq<byte>, rest: seq<seq<byte>>, room: nat)
      requires Flatten(buffer) == taken + Flatten(rest) && |taken| <= room && (|taken| == room || rest == [])
      ensures taken == Taken(buffer, room) && |taken| == Min(room, Size(buffer))
    {
    }

    /** Buffer::asArray: takes the first bytes out of the buffer, in arrays fit for one write. */
    method AsArray(maxBytes: nat) returns (buffers: seq<seq<byte>>, amount: nat)
      modifies `bufferList, `consumed
      ensures View() == TeeSpec.Consume(old(View()), maxBytes)
      ensures Flatten(buffers) == Taken(old(bufferList), maxBytes) && amount == Size(buffers)
      ensures amount == Min(maxBytes, Size(old(bufferList)))
    {
      hide Left;
      buffers, amount := [], 0;
      var left: nat := maxBytes;
      hide Flatten;
      while left > 0 && bufferList != []
        invariant amount + left == maxBytes && amount == Size(buffers) && consumed == old(consumed)
        invariant Flatten(old(bufferList)) == Flatten(buffers) + Flatten(bufferList)
        invariant Left(old(bufferList), maxBytes) == Left(bufferList, left)
        decreases left, |bufferList|
      {
        var bytes := bufferList[0];
        LeftStep(bufferList, left);
        var own := if |bytes| <= left then bytes else bytes[..left];
        FlattenConcat(buffers, [own]);
        FlattenOne(own);
        buffers := buffers + [own];
        amount := amount + |own|;
        if |bytes| <= left {
          left := left - |bytes|;
          bufferList := bufferList[1..];
        } else {
          bufferList := [bytes[left..]] + bufferList[1..];
          left := 0;
          LeftStops(bufferList, left);
        }
      }
      LeftStops(bufferList, left);
      AllTaken(old(bufferList), Flatten(buffers), bufferList, maxBytes);
      consumed := consumed + Flatten(buffers);
    }

    method Produce(bytes: seq<byte>)
      modifies `bufferList
      ensures bufferList == old(bufferList) + [bytes]
    {
      bufferList := bufferList + [bytes];
    }

    /** Buffer::size */
    method BufferSize() returns (size: nat)
      ensures size == Size(bufferList)
    {
      var i := 0;
      size := 0;
      assert bufferList[..0] == [];
      while i < |bufferList|
        invariant i <= |bufferList| && size == Size(bufferList[..i])
      {
        assert bufferList[..i + 1] == bufferList[..i] + [bufferList[i]];
        FlattenConcat(bufferList[..i], [bufferList[i]]);
        FlattenOne(bufferList[i]);
        size := size + |bufferList[i]|;
        i := i + 1;
      }
      assert bufferList[..i] == bufferList;
    }

    method FulfillRead(count: nat)
      modifies `sink, `call
      ensures View() == TeeSpec.FulfillRead(old(View()), count)
    {
      if call.Reading? { call := ReadDone(call.start, call.min, call.max, count); }
      sink := NoSink;
    }

    method FulfillPump(count: nat)
      modifies `sink, `call
      ensures View() == TeeSpec.FulfillPump(old(View()), count)
    {
      if call.Pumping? { call := PumpDone(call.start, call.amount, count); }
      sink := NoSink;
    }

    method Reject()
      modifies `sink, `call
      ensures View() == TeeSpec.Reject(old(View()))
    {
      sink, call := NoSink, Rejected;
    }

    /** ReadSink::fill */
    method FillRead(stoppage: Stoppage)
      requires sink.ReadSink?
      modifies this
      ensures View() == TeeSpec.FillRead(old(View()), stoppage)
    {
      hide Left, Taken;
      var amount, room, minBytes := Consume(sink.room, sink.minBytes);
      var readSoFar := sink.readSoFar + amount;
      sink := ReadSink(room, minBytes, readSoFar);
      if minBytes == 0 {
        FulfillRead(readSoFar);
      } else if amount == 0 && bufferList == [] && stoppage != Going {
        if stoppage == Eof || readSoFar > 0 { FulfillRead(readSoFar); } else { Reject(); }
      }
    }

    /** PumpSink::fill, as far as the start of the write. */
    method FillPump(stoppage: Stoppage)
      requires sink.PumpSink?
      modifies this
      ensures View() == TeeSpec.FillPump(old(View()), stoppage)
    {
      hide Left, Taken;
      var pumpedSoFar := sink.pumpedSoFar;
      var _, amount := AsArray(sink.limit);
      if amount > 0 {
        sink := PumpSink(sink.limit, pumpedSoFar, amount);
      } else if stoppage == Eof {
        FulfillPump(pumpedSoFar);
      } else if stoppage == Failed {
        Reject();
      }
    }

    method Fill(stoppage: Stoppage)
      modifies this
      ensures View() == FillBranch(old(View()), stoppage)
    {
      hide TeeSpec.FillRead, TeeSpec.FillPump;
      match sink
      case NoSink =>
      case ReadSink(_, _, _) => FillRead(stoppage);
      case PumpSink(_, _, _) => FillPump(stoppage);
    }

    /** PumpSink::fill, after the write. */
    method WriteDone()
      requires IsWriting(View()) && sink.writing <= sink.limit
      modifies this
      ensures View() == Written(old(View()))
    {
      var limit, pumpedSoFar := sink.limit - sink.writing, sink.pumpedSoFar + sink.writing;
      sink := PumpSink(limit, pumpedSoFar, 0);
      if limit == 0 { FulfillPump(pumpedSoFar); }
    }

    /** AsyncTee::tryRead on this branch. */
    method TryRead(minBytes: nat, maxBytes: nat, stoppage: Stoppage)
      requires minBytes <= maxBytes && sink == NoSink
      modifies this
      ensures View() == ReadBranch(old(View()), minBytes, maxBytes, stoppage)
    {
      hide Left, Taken;
      call := Reading(|consumed|, minBytes, maxBytes);
      var readSoFar, room, need := Consume(maxBytes, minBytes);
      if need == 0 {
        FulfillRead(readSoFar);
      } else if bufferList == [] && stoppage != Going {
        if stoppage == Eof || readSoFar > 0 { FulfillRead(readSoFar); } else { Reject(); }
      } else {
        sink := ReadSink(room, need, readSoFar);
      }
    }

    /** AsyncTee::pumpTo on this branch. */
    method PumpTo(amount: nat, stoppage: Stoppage)
      requires sink == NoSink
      modifies this
      ensures View() == PumpBranch(old(View()), amount, stoppage)
    {
      call := Pumping(|consumed|, amount);
      if amount == 0 {
        FulfillPump(0);
      } else if bufferList == [] && stoppage != Going {
        if stoppage == Eof { FulfillPump(0); } else { Reject(); }
      } else {
        sink := PumpSink(amount, 0, 0);
      }
    }
  }

  ghost function ViewsOf(bs: seq<TeeBranch>): (r: seq<Branch>)
    reads bs
    ensures |r| == |bs| && forall i | 0 <= i < |bs| :: r[i] == bs[i].View()
  {
    seq(|bs|, i requires 0 <= i < |bs| reads bs => bs[i].View())
  }

  ghost predicate Distinct(bs: seq<TeeBranch>) {
    forall i, j | 0 <= i < j < |bs| :: bs[i] != bs[j]
  }

  lemma {:induction false} Extend(s: Tee, es: seq<Event>, e: Event)
    requires AllEnabled(s, es) && Enabled(Run(s, es), e)
    ensures AllEnabled(s, es + [e]) && Run(s, es + [e]) == Step(Run(s, es), e)
    decreases |es|
  {
    hide Enabled, Step;
    if es == [] {
      assert ([] + [e])[1..] == [];
    } else {
      assert (es + [e])[0] == es[0] && (es + [e])[1..] == es[1..] + [e];
      Extend(Step(s, es[0]), es[1..], e);
    }
  }

  /** The state after a run of these events. */
  ghost predicate Reached(length: Option<nat>, limit: nat, es: seq<Event>, s: Tee) {
    AllEnabled(Init(length, limit), es) && Run(Init(length, limit), es) == s
  }

  class AsyncTee {
    var branches: seq<TeeBranch>
    var phase: Phase
    var stoppage: Stoppage
    var length: Option<nat>
    const innerLength: Option<nat>
    const bufferSizeLimit: nat
    var pulled: seq<byte>
    /** The events so far. */
    ghost var events: seq<Event>

    ghost function View(): Tee
      reads `branches, `phase, `stoppage, `length, `pulled, branches
    {
      Tee(ViewsOf(branches), phase, stoppage, length, bufferSizeLimit, pulled)
    }

    /** The object is where the events so far have led the machine. */
    ghost predicate Valid()
      reads this, branches
    {
      && Distinct(branches)
      && Inv(View()) && Reached(innerLength, bufferSizeLimit, events, View())
    }

    lemma Advance(e: Event)
      requires Valid() && Enabled(View(), e)
      ensures Inv(Step(View(), e)) && Reached(innerLength, bufferSizeLimit, events + [e], Step(View(), e))
    {
      hide Inv, Step;
      StepInv(View(), e);
      Extend(Init(innerLength, bufferSizeLimit), events, e);
    }

    /** newTee: two branches of one stream. */
    constructor (length: Option<nat>, limit: nat)
      ensures Valid() && View() == Init(length, limit) && fresh(branches)
      ensures innerLength == length && bufferSizeLimit == limit && events == []
    {
      var a := new TeeBranch();
      var b := new TeeBranch();
      branches, phase, stoppage := [a, b], Idle, Going;
      innerLength, this.length, bufferSizeLimit, pulled, events := length, length, limit, [], [];
      new;
      hide Inv;
      InitInv(length, limit);
      assert View() == Init(length, limit);
    }

    /** What is proved of runs holds of the object; for one, that its branches agree. */
    lemma BranchAgrees(i: nat)
      requires Valid() && i < |branches|
      ensures branches[i].consumed + Flatten(branches[i].bufferList) == TeePromises.AllPulled(events)
    {
      hide Inv, Flatten;
      TeePromises.Agreement(innerLength, bufferSizeLimit, events, i);
    }

    method EnsurePulling(b: TeeBranch)
      modifies `phase
      ensures phase == if b.sink != NoSink && old(phase) == Idle then Filling else old(phase)
    {
      if b.sink != NoSink && phase == Idle { phase := Filling; }
    }

    method TryRead(i: nat, minBytes: nat, maxBytes: nat)
      requires Valid() && Enabled(View(), Event.TryRead(i, minBytes, maxBytes))
      modifies this, branches
      ensures Valid() && View() == Step(old(View()), Event.TryRead(i, minBytes, maxBytes))
      ensures events == old(events) + [Event.TryRead(i, minBytes, maxBytes)]
    {
      Advance(Event.TryRead(i, minBytes, maxBytes));
      events := events + [Event.TryRead(i, minBytes, maxBytes)];
      hide Inv, Reached, ViewsOf, ReadBranch, CallStep;
      branches[i].TryRead(minBytes, maxBytes, stoppage);
      AfterCall(i, old(View()));
    }

    method PumpTo(i: nat, amount: nat)
      requires Valid() && Enabled(View(), Event.PumpTo(i, amount))
      modifies this, branches
      ensures Valid() && View() == Step(old(View()), Event.PumpTo(i, amount))
      ensures events == old(events) + [Event.PumpTo(i, amount)]
    {
      Advance(Event.PumpTo(i, amount));
      events := events + [Event.PumpTo(i, amount)];
      hide Inv, Reached, ViewsOf, PumpBranch, CallStep;
      branches[i].PumpTo(amount, stoppage);
      AfterCall(i, old(View()));
    }

    /** The call has changed branch `i` of what was there before, and nothing else. */
    method AfterCall(i: nat, ghost was: Tee)
      requires i < |branches| == |was.branches|
      requires View() == was.(branches := was.branches[i := branches[i].View()])
      modifies `phase
      ensures View() == CallStep(was, i, branches[i].View())
    {
      hide ViewsOf;
      EnsurePulling(branches[i]);
    }

    /** Branch::tryTee, when the limits agree. */
    method Clone(i: nat) returns (b: TeeBranch)
      requires Valid() && Enabled(View(), Event.Clone(i))
      modifies this
      ensures Valid() && fresh(b) && branches == old(branches) + [b]
      ensures View() == Step(old(View()), Event.Clone(i))
      ensures events == old(events) + [Event.Clone(i)]
    {
      Advance(Event.Clone(i));
      events := events + [Event.Clone(i)];
      hide Inv, Reached, ViewsOf, CloneOf;
      b := new TeeBranch.CloneFrom(branches[i]);
      branches := branches + [b];
      assert ViewsOf(branches) == old(ViewsOf(branches)) + [b.View()];
    }

    /** ~Branch */
    method DropBranch(i: nat)
      requires Valid() && Enabled(View(), Event.DropBranch(i))
      modifies this
      ensures Valid() && View() == Step(old(View()), Event.DropBranch(i))
      ensures events == old(events) + [Event.DropBranch(i)]
    {
      Advance(Event.DropBranch(i));
      events := events + [Event.DropBranch(i)];
      hide Inv, Reached, ViewsOf;
      branches := branches[..i] + branches[i + 1..];
      assert ViewsOf(branches) == old(ViewsOf(branches)[..i] + ViewsOf(branches)[i + 1..]);
    }

    /** The promise of a call is dropped. */
    method Cancel(i: nat)
      requires Valid() && Enabled(View(), Event.Cancel(i))
      modifies `events, branches
      ensures Valid() && View() == Step(old(View()), Event.Cancel(i))
      ensures events == old(events) + [Event.Cancel(i)]
    {
      Advance(Event.Cancel(i));
      events := events + [Event.Cancel(i)];
      hide Inv, Reached, ViewsOf;
      var b := branches[i];
      b.sink, b.call := NoSink, Cancelled;
      assert ViewsOf(branches) == old(ViewsOf(branches))[i := b.View()];
    }

    method WriteDone(i: nat)
      requires Valid() && Enabled(View(), Event.WriteDone(i))
      modifies `events, branches
      ensures Valid() && View() == Step(old(View()), Event.WriteDone(i))
      ensures events == old(events) + [Event.WriteDone(i)]
    {
      Advance(Event.WriteDone(i));
      events := events + [Event.WriteDone(i)];
      WritingFits(i);
      hide Inv, Reached, ViewsOf, Written;
      branches[i].WriteDone();
      assert ViewsOf(branches) == old(ViewsOf(branches))[i := branches[i].View()];
    }

    lemma WritingFits(i: nat)
      requires Inv(View()) && i < |branches| && IsWriting(branches[i].View())
      ensures branches[i].sink.writing <= branches[i].sink.limit
    {
      hide Flatten;
      assert BranchOk(ViewsOf(branches)[i], pulled, stoppage, Promised(View()), bufferSizeLimit);
    }

    method WriteFailed(i: nat)
      requires Valid() && Enabled(View(), Event.WriteFailed(i))
      modifies `events, branches
      ensures Valid() && View() == Step(old(View()), Event.WriteFailed(i))
      ensures events == old(events) + [Event.WriteFailed(i)]
    {
      Advance(Event.WriteFailed(i));
      events := events + [Event.WriteFailed(i)];
      hide Inv, Reached, ViewsOf;
      branches[i].Reject();
      assert ViewsOf(branches) == old(ViewsOf(branches))[i := branches[i].View()];
    }

    /** The pull loop's fill pass. */
    method FillPass()
      requires Valid() && Enabled(View(), Event.Fill)
      modifies this, branches
      ensures Valid() && View() == Step(old(View()), Event.Fill)
      ensures events == old(events) + [Event.Fill]
    {
      FillIs(View());
      Advance(Event.Fill);
      events := events + [Event.Fill];
      hide Inv, Reached, ViewsOf, View, Distinct, FillStep, Step, Enabled;
      FillNow();
    }

    lemma FillIs(s: Tee)
      requires Enabled(s, Event.Fill)
      ensures Step(s, Event.Fill) == FillStep(s)
    {
    }

    method FillNow()
      requires Distinct(branches)
      modifies `phase, branches
      ensures View() == FillStep(old(View()))
    {
      hide ViewsOf, FillBranch, FillAll;
      FillSinks(branches, stoppage);
      phase := Filled;
    }

    static method FillSinks(bs: seq<TeeBranch>, stoppage: Stoppage)
      requires Distinct(bs)
      modifies bs
      ensures ViewsOf(bs) == FillAll(old(ViewsOf(bs)), stoppage)
    {
      hide FillBranch, ViewsOf;
      var i := 0;
      while i < |bs|
        invariant i <= |bs|
        invariant forall k | 0 <= k < i :: bs[k].View() == FillBranch(old(bs[k].View()), stoppage)
        invariant forall k | i <= k < |bs| :: bs[k].View() == old(bs[k].View())
      {
        bs[i].Fill(stoppage);
        i := i + 1;
      }
    }

    /** AsyncTee::analyzeSinks, before it makes the needs overlap. */
    method AnalyzeSinks() returns (some: bool, minBytes: nat, maxBytes: nat)
      ensures some == HasSink(ViewsOf(branches))
      ensures minBytes == LargestMin(ViewsOf(branches)) && maxBytes == SmallestMax(ViewsOf(branches))
    {
      hide ViewsOf;
      ghost var bs := ViewsOf(branches);
      some, minBytes, maxBytes := false, 0, MAX_VALUE;
      var i := 0;
      while i < |branches|
        invariant i <= |branches| && minBytes == LargestMin(bs[..i]) && maxBytes == SmallestMax(bs[..i])
        invariant some == HasSink(bs[..i])
      {
        NextBranch(bs, i);
        match branches[i].sink {
          case NoSink =>
          case ReadSink(room, need, _) => some, minBytes, maxBytes := true, Max(minBytes, need), Min(maxBytes, room);
          case PumpSink(limit, _, _) => some, minBytes, maxBytes := true, Max(minBytes, 1), Min(maxBytes, limit);
        }
        i := i + 1;
      }
      assert bs[..i] == bs;
    }

    lemma NextBranch(bs: seq<Branch>, i: nat)
      requires i < |bs|
      ensures HasSink(bs[..i + 1]) <==> HasSink(bs[..i]) || bs[i].sink != NoSink
      ensures LargestMin(bs[..i + 1]) == Max(LargestMin(bs[..i]), NeedMin(bs[i]))
      ensures SmallestMax(bs[..i]) <= MAX_VALUE
      ensures SmallestMax(bs[..i + 1]) == Min(SmallestMax(bs[..i]), NeedMax(bs[i]))
    {
      var a, b := bs[..i + 1], bs[..i];
      assert a[..i] == b && a[i] == bs[i];
      MaxBound(b);
      if HasSink(b) {
        var k :| 0 <= k < |b| && b[k].sink != NoSink;
        assert a[k].sink != NoSink;
      } else if bs[i].sink != NoSink {
        assert a[i].sink != NoSink;
      } else {
        assert forall k | 0 <= k < |a| :: k < i ==> a[k] == b[k];
      }
    }

    lemma {:induction false} MaxBound(bs: seq<Branch>)
      ensures SmallestMax(bs) <= MAX_VALUE
    {
      if bs != [] { MaxBound(bs[..|bs| - 1]); }
    }

    /** Whether every buffer has room for `n` more bytes. */
    method FitsAll(n: nat) returns (fits: bool)
      ensures fits == AllFit(ViewsOf(branches), n, bufferSizeLimit)
    {
      var i := 0;
      while i < |branches|
        invariant i <= |branches|
        invariant forall k | 0 <= k < i :: Size(ViewsOf(branches)[k].buffer) + n <= bufferSizeLimit
      {
        var size := branches[i].BufferSize();
        if size + n > bufferSizeLimit {
          assert Size(ViewsOf(branches)[i].buffer) + n > bufferSizeLimit;
          return false;
        }
        i := i + 1;
      }
      return true;
    }

    /** The pull loop after the fill pass and its writes: decides whether and what to read. */
    method Analyze()
      requires Valid() && Enabled(View(), Event.Analyze)
      modifies this
      ensures Valid() && View() == Step(old(View()), Event.Analyze)
      ensures events == old(events) + [Event.Analyze]
    {
      Advance(Event.Analyze);
      events := events + [Event.Analyze];
      hide Inv, Reached, ViewsOf;
      Decide();
    }

    method Decide()
      modifies `phase, `stoppage, `length, `pulled
      ensures branches == old(branches) && View() == AnalyzeStep(old(View()))
    {
      hide ViewsOf, LargestMin, SmallestMax, AllFit, HasSink, ReadSize;
      var some, minBytes, maxBytes := AnalyzeSinks();
      if !some {
        phase := Idle;
      } else if stoppage != Going {
        phase := Filling;
      } else {
        maxBytes := CapRead(minBytes, maxBytes);
        var fits := FitsAll(maxBytes);
        if fits { phase := Pulling(minBytes, maxBytes); } else { stoppage, phase := Failed, Filling; }
      }
      assert ViewsOf(branches) == old(ViewsOf(branches));
    }

    /** Neither more than a block nor than the limit, unless a sink's minimum asks for it. */
    method CapRead(minBytes: nat, smallestMax: nat) returns (maxBytes: nat)
      requires minBytes == LargestMin(ViewsOf(branches)) && smallestMax == SmallestMax(ViewsOf(branches))
      ensures maxBytes == ReadSize(ViewsOf(branches), bufferSizeLimit)
    {
      hide ViewsOf, LargestMin, SmallestMax;
      maxBytes := Max(minBytes, smallestMax);
      maxBytes := Min(maxBytes, MAX_BLOCK_SIZE);
      maxBytes := Min(maxBytes, bufferSizeLimit);
      maxBytes := Max(minBytes, maxBytes);
    }

    /** The pull loop after a read of the inner stream: every branch gets an array of the bytes. */
    method Pulled(data: seq<byte>)
      requires Valid() && Enabled(View(), Event.Pulled(data))
      modifies this, branches
      ensures Valid() && View() == Step(old(View()), Event.Pulled(data))
      ensures events == old(events) + [Event.Pulled(data)]
    {
      PulledIs(View(), data);
      Advance(Event.Pulled(data));
      events := events + [Event.Pulled(data)];
      hide Inv, Reached, ViewsOf, View, Distinct, PulledStep, Step, Enabled;
      Deliver(data);
    }

    lemma PulledIs(s: Tee, data: seq<byte>)
      requires Enabled(s, Event.Pulled(data))
      ensures s.phase.Pulling? && (s.length.Some? ==> |data| <= s.length.value)
      ensures Step(s, Event.Pulled(data)) == PulledStep(s, data)
    {
    }

    method Deliver(data: seq<byte>)
      requires Distinct(branches)
      requires phase.Pulling? && (length.Some? ==> |data| <= length.value)
      modifies `phase, `stoppage, `length, `pulled, branches
      ensures branches == old(branches) && View() == PulledStep(old(View()), data)
    {
      hide ViewsOf, ProduceAll;
      ProduceEach(branches, data);
      if length.Some? { length := Some(length.value - |data|); }
      pulled := pulled + data;
      if |data| < phase.minBytes { stoppage := Eof; }
      phase := Filling;
    }

    static method ProduceEach(bs: seq<TeeBranch>, data: seq<byte>)
      requires Distinct(bs)
      modifies bs
      ensures ViewsOf(bs) == ProduceAll(old(ViewsOf(bs)), data)
    {
      hide ViewsOf;
      var i := 0;
      while i < |bs|
        invariant i <= |bs|
        invariant forall k | 0 <= k < i ::
          bs[k].View() == old(bs[k].View()).(buffer := old(bs[k].bufferList) + [data])
        invariant forall k | i <= k < |bs| :: bs[k].View() == old(bs[k].View())
      {
        bs[i].Produce(data);
        i := i + 1;
      }
    }

    method PullFailed()
      requires Valid() && Enabled(View(), Event.PullFailed)
      modifies this
      ensures Valid() && View() == Step(old(View()), Event.PullFailed)
      ensures events == old(events) + [Event.PullFailed]
    {
      Advance(Event.PullFailed);
      events := events + [Event.PullFailed];
      hide Inv, Reached, ViewsOf;
      stoppage, phase := Failed, Filling;
      assert ViewsOf(branches) == old(ViewsOf(branches));
    }
  }
}
