/** What the pipe promises its callers over every run. */
module PipePromises {
  import opened Bytes
  import opened PipeSpec
  import opened PipeProof
  import opened Wrappers

  /** The bytes an event hands to the pipe: those of a write, or those taken from a pump's input. */
  function Offers(s: Pipe, e: Event): seq<byte> {
    match e
    case Write(data) => data
    case WritePieces(ps) => Flatten(ps)
    case InputRead(data) => if s.job.CheckEof? then [] else data
    case Pumped(data) => data
    case _ => []
  }

  function AllOffers(s: Pipe, es: seq<Event>): seq<byte>
    decreases |es|
  {
    if es == [] then [] else Offers(s, es[0]) + AllOffers(Step(s, es[0]), es[1..])
  }

  /** The bytes an event cuts off a write: a shutdown the rest of one that a waiting pump's output
      is being given, a continuation after a shutdown its pieces. */
  function Drops(s: Pipe, e: Event): seq<byte> {
    match e
    case ShutdownWrite => if s.st.BlockedPumpTo? then InFlight(s) else []
    case Continue => if s.st == ShutdownedWrite then Flatten(s.later) else []
    case _ => []
  }

  function AllDrops(s: Pipe, es: seq<Event>): seq<byte>
    decreases |es|
  {
    if es == [] then [] else Drops(s, es[0]) + AllDrops(Step(s, es[0]), es[1..])
  }

  ghost predicate Grows(s: Pipe, d: seq<byte>, x: seq<byte>, t: Pipe) {
    t.offered == s.offered + d && s.delivered <= t.delivered && t.dropped == s.dropped + x
  }

  lemma ReadHistory(s: Pipe, min: nat, max: nat)
    ensures Grows(s, [], [], ReadStep(s, min, max))
  {
    assert s.offered + [] == s.offered && s.dropped + [] == s.dropped;
    hide Flatten, Drop;
  }

  lemma CallHistory(s: Pipe, e: Event)
    requires e.PumpTo? || e.AbortRead? || e.TryPumpFrom?
    ensures Grows(s, [], [], Step(s, e))
  {
    assert s.offered + [] == s.offered && s.dropped + [] == s.dropped;
    hide Flatten, Drop, DrainChunks, Covered;
  }

  lemma ShutdownHistory(s: Pipe)
    ensures Grows(s, [], Drops(s, ShutdownWrite), ShutdownStep(s))
  {
    assert s.offered + [] == s.offered && s.dropped + [] == s.dropped;
    hide Flatten;
  }

  lemma WriteHistory(s: Pipe, ps: seq<seq<byte>>)
    requires ps != []
    ensures Grows(s, [], if s.st == ShutdownedWrite then Flatten(ps) else [], WriteStep(s, ps))
  {
    assert s.offered + [] == s.offered && s.dropped + [] == s.dropped;
    hide Flatten, Drop, FillChunks, Covered, Cuts;
  }

  lemma WriteOneHistory(s: Pipe, data: seq<byte>)
    requires s.st != ShutdownedWrite && (s.st.BlockedPumpTo? ==> s.st.pumpedSoFar < s.st.amount)
    ensures Grows(s, data, [], WriteOneStep(s, data))
  {
    hide WriteStep;
    if data == [] {
      assert s.offered + [] == s.offered && s.dropped + [] == s.dropped;
    } else {
      WriteHistory(s.(offered := s.offered + data), [data]);
      assert (s.offered + data) + [] == s.offered + data;
    }
  }

  lemma WritePiecesHistory(s: Pipe, ps: seq<seq<byte>>)
    requires s.st != ShutdownedWrite
    ensures Grows(s, Flatten(ps), [], WritePiecesStep(s, ps))
  {
    hide WriteStep;
    DropFlatten(ps, 0);
    if Drop(ps, 0) == [] {
      assert s.offered + [] == s.offered && s.dropped + [] == s.dropped;
    } else {
      WriteHistory(s.(offered := s.offered + Flatten(ps)), Drop(ps, 0));
      assert (s.offered + Flatten(ps)) + [] == s.offered + Flatten(ps);
    }
  }

  lemma ContinueHistory(s: Pipe)
    ensures Grows(s, [], Drops(s, Continue), ContinueStep(s))
  {
    hide WriteStep;
    DropFlatten(s.later, 0);
    assert s.offered + [] == s.offered && s.dropped + [] == s.dropped;
    var ps := Drop(s.later, 0);
    if ps != [] { WriteHistory(s.(later := []), ps); }
  }

  lemma OutputHistory(s: Pipe)
    ensures Grows(s, [], [], OutputWrittenStep(s))
  {
    assert s.offered + [] == s.offered && s.dropped + [] == s.dropped;
  }

  lemma InputHistory(s: Pipe, data: seq<byte>)
    requires Inv(s) && Enabled(s, InputRead(data))
    ensures Grows(s, Offers(s, InputRead(data)), [], InputReadStep(s, data))
  {
    JobMode(s);
    assert s.offered + [] == s.offered && s.dropped + [] == s.dropped;
    hide Flatten, Conserved;
  }

  lemma PumpHistory(s: Pipe, data: seq<byte>)
    requires Inv(s) && Enabled(s, Pumped(data))
    ensures Grows(s, data, [], PumpedStep(s, data))
  {
    JobMode(s);
    hide Flatten, Conserved;
  }

  /** `offered` records exactly what was handed in, `dropped` what was cut off, and `delivered`
      only grows. */
  lemma StepHistory(s: Pipe, e: Event)
    requires Inv(s) && Enabled(s, e)
    ensures Grows(s, Offers(s, e), Drops(s, e), Step(s, e))
  {
    hide Grows;
    match e
    case TryRead(min, max) => ReadHistory(s, min, max);
    case Write(data) => IdlePump(s); WriteOneHistory(s, data);
    case WritePieces(ps) => WritePiecesHistory(s, ps);
    case Continue => ContinueHistory(s);
    case ShutdownWrite => ShutdownHistory(s);
    case OutputWritten => OutputHistory(s);
    case InputRead(data) => InputHistory(s, data);
    case Pumped(data) => PumpHistory(s, data);
    case _ => CallHistory(s, e);
  }

  lemma IdlePump(s: Pipe)
    requires Inv(s)
    ensures s.st.BlockedPumpTo? ==> s.st.pumpedSoFar < s.st.amount
  {
  }

  lemma {:induction false} RunHistory(s: Pipe, es: seq<Event>)
    requires Inv(s) && AllEnabled(s, es)
    ensures Grows(s, AllOffers(s, es), AllDrops(s, es), Run(s, es))
    decreases |es|
  {
    hide Inv, Step, Enabled, Offers, Drops;
    if es == [] {
      assert s.offered + [] == s.offered && s.dropped + [] == s.dropped;
    } else {
      var t := Step(s, es[0]);
      StepInv(s, es[0]);
      StepHistory(s, es[0]);
      RunHistory(t, es[1..]);
      var d, f := Offers(s, es[0]), AllOffers(t, es[1..]);
      assert (s.offered + d) + f == s.offered + (d + f);
      var x, y := Drops(s, es[0]), AllDrops(t, es[1..]);
      assert (s.dropped + x) + y == s.dropped + (x + y);
    }
  }

  /** The pipe is a first-in first-out byte stream: in every run without an abort, what readers
      have received followed by the writer's remainder and by what a shutdown cut off is exactly
      what writers handed in. Nothing was cut off unless the last write was cancelled. */
  lemma Fifo(es: seq<Event>)
    requires AllEnabled(Init, es) && !Run(Init, es).st.AbortedRead?
    ensures var s := Run(Init, es);
            && s.delivered + (Remainder(s) + AllDrops(Init, es)) == AllOffers(Init, es)
            && (AllDrops(Init, es) != [] ==> s.st == ShutdownedWrite && s.writer == WriteRejected)
  {
    InitInv();
    RunInv(Init, es);
    RunHistory(Init, es);
    assert [] + AllOffers(Init, es) == AllOffers(Init, es);
    assert [] + AllDrops(Init, es) == AllDrops(Init, es);
    Accounted(Run(Init, es));
  }

  lemma Accounted(s: Pipe)
    requires Inv(s) && !s.st.AbortedRead?
    ensures s.delivered + (Remainder(s) + s.dropped) == s.offered
  {
    if CutOff(s) {
      assert Remainder(s) == [] && [] + s.dropped == s.dropped;
    } else {
      assert Remainder(s) + [] == Remainder(s);
    }
  }

  /** After an abort, too, readers have received a prefix of what was handed in. */
  lemma PrefixAfterAbort(es: seq<Event>)
    requires AllEnabled(Init, es)
    ensures Run(Init, es).delivered <= AllOffers(Init, es)
  {
    InitInv();
    RunInv(Init, es);
    RunHistory(Init, es);
    assert [] + AllOffers(Init, es) == AllOffers(Init, es);
    var s := Run(Init, es);
    if !s.st.AbortedRead? { Accounted(s); }
  }

  /** A read that resolves has exactly the bytes delivered since its call, at most as many as
      it has room for, and fewer than its minimum only when the writer has shut down. */
  lemma ReadResolves(es: seq<Event>)
    requires AllEnabled(Init, es) && Run(Init, es).reader.ReadDone?
    ensures var s := Run(Init, es);
            && s.reader.count == |s.delivered| - s.reader.start
            && s.reader.count <= s.reader.max
            && (s.reader.count < s.reader.min ==> s.st == ShutdownedWrite)
  {
    InitInv();
    RunInv(Init, es);
    RestingReader(Run(Init, es));
  }

  /** The same for a pump to an output: it ends early only when the writer has shut down. Then its
      count may miss bytes (PumpOutCountIff). */
  lemma PumpResolves(es: seq<Event>)
    requires AllEnabled(Init, es) && Run(Init, es).reader.PumpDone?
    ensures var s := Run(Init, es);
            && s.reader.count + s.reader.uncounted == |s.delivered| - s.reader.start <= s.reader.amount
            && (s.reader.uncounted > 0 ==> s.st == ShutdownedWrite)
            && (s.reader.count < s.reader.amount ==> s.st == ShutdownedWrite)
  {
    InitInv();
    RunInv(Init, es);
    RestingReader(Run(Init, es));
  }

  lemma RestingReader(s: Pipe)
    requires StateOk(s) && ReaderIdle(s)
    ensures ReaderRests(s)
  {
    hide Flatten;
  }

  /** A write that resolves has had all its bytes, and all before them, received. */
  lemma WriteResolves(es: seq<Event>)
    requires AllEnabled(Init, es) && Run(Init, es).writer == WriteDone && !Run(Init, es).st.AbortedRead?
    ensures Run(Init, es).delivered == AllOffers(Init, es)
  {
    Fifo(es);
    InitInv();
    RunInv(Init, es);
    var s := Run(Init, es);
    IdleNoJob(s);
    assert s.later == [] && Remainder(s) == [];
    assert s.delivered + ([] + []) == s.delivered;
  }

  /** While a read waits it lacks bytes, and those it has and its room make up its maximum. */
  lemma WaitingRead(es: seq<Event>)
    requires AllEnabled(Init, es) && Run(Init, es).st.BlockedRead?
    ensures var s := Run(Init, es);
            && s.reader.Reading? && s.st.byteCount < s.st.minBytes
            && s.reader.acc + s.st.byteCount == |s.delivered| - s.reader.start
            && s.reader.acc + s.st.byteCount + s.st.room == s.reader.max
            && s.reader.acc + s.st.minBytes == s.reader.min
  {
    InitInv();
    RunInv(Init, es);
  }

  /** A reader and a writer never both wait for one another: if both wait, an operation on an
      endpoint is yet to complete, or a gather-write is about to go on. */
  lemma NoDeadlock(es: seq<Event>)
    requires AllEnabled(Init, es) && !ReaderIdle(Run(Init, es)) && !WriterIdle(Run(Init, es))
    ensures var s := Run(Init, es);
            Enabled(s, OutputWritten) || Enabled(s, InputRead([])) || Enabled(s, Pumped([])) || Enabled(s, Continue)
  {
    hide Inv, StateOk, Run, AllEnabled;
    InitInv();
    RunInv(Init, es);
    BothWait(Run(Init, es));
  }

  lemma BothWait(s: Pipe)
    requires Inv(s) && !ReaderIdle(s) && !WriterIdle(s)
    ensures s.job != NoJob || s.writer == Writing(false)
  {
    hide Flatten, Conserved;
  }

  /** The two final states are final. */
  lemma {:induction false} FinalStates(s: Pipe, es: seq<Event>)
    requires Inv(s) && AllEnabled(s, es)
    requires s.st == AbortedRead || s.st == ShutdownedWrite
    ensures Run(s, es).st == s.st
    decreases |es|
  {
    hide Inv, Step, Enabled;
    if es != [] {
      StepInv(s, es[0]);
      FinalStep(s, es[0]);
      FinalStates(Step(s, es[0]), es[1..]);
    }
  }

  lemma FinalStep(s: Pipe, e: Event)
    requires Inv(s) && Enabled(s, e) && (s.st == AbortedRead || s.st == ShutdownedWrite)
    ensures Step(s, e).st == s.st
  {
    JobMode(s);
    if s.st == ShutdownedWrite { FinalWriter(s); }
    hide Flatten, Drop, Inv;
  }

  lemma FinalWriter(s: Pipe)
    requires Inv(s) && s.st == ShutdownedWrite
    ensures (WriterIdle(s) || s.writer == Writing(false)) && s.job == NoJob
  {
  }

  // ---------------------------------------------------------------------------
  // The count a pump from an input resolves with.

  /** The call meets a waiting pump that wants fewer bytes and whose output takes over the pumping. */
  predicate MeetsShorterPump(s: Pipe, e: Event) {
    e.TryPumpFrom? && e.supported && s.st.BlockedPumpTo? && s.st.amount - s.st.pumpedSoFar < e.amount
  }

  predicate NeverMeetsShorterPump(s: Pipe, es: seq<Event>)
    decreases |es|
  {
    es == [] || (!MeetsShorterPump(s, es[0]) && NeverMeetsShorterPump(Step(s, es[0]), es[1..]))
  }

  /** The bytes whose count gets lost in a step: all that the waiting pump's output took, if
      it took all it could and the pump has to go on. */
  function Misses(s: Pipe, e: Event): nat {
    if e.Pumped? && s.job.PumpThrough? && |e.data| == s.job.n < s.job.left then |e.data| else 0
  }

  function TotalMisses(s: Pipe, es: seq<Event>): nat
    decreases |es|
  {
    if es == [] then 0 else Misses(s, es[0]) + TotalMisses(Step(s, es[0]), es[1..])
  }

  function Uncounted(s: Pipe): nat {
    match s.writer
    case PumpingIn(_, _, _, lost) => lost
    case PumpInDone(_, _, _, lost) => lost
    case _ => 0
  }

  predicate IsWriterCall(e: Event) {
    e.Write? || e.WritePieces? || e.TryPumpFrom?
  }

  /** While a pump lasts, each step adds exactly those bytes to what its count misses. */
  lemma MissesExactly(s: Pipe, e: Event)
    requires Inv(s) && Enabled(s, e) && s.writer.PumpingIn?
    ensures MissesOk(s, e)
  {
    PumpingMode(s);
    hide Inv, MissesOk;
    match e
    case InputRead(data) => InputMisses(s, data);
    case Pumped(data) => PumpMisses(s, data);
    case _ => CallMisses(s, e);
  }

  ghost predicate MissesOk(s: Pipe, e: Event) {
    var t := Step(s, e);
    || t.writer == WriteRejected
    || ((t.writer.PumpingIn? || t.writer.PumpInDone?) && s.writer.PumpingIn? && t.writer.start == s.writer.start &&
        Uncounted(t) == Uncounted(s) + Misses(s, e))
  }

  lemma PumpingMode(s: Pipe)
    requires Inv(s) && s.writer.PumpingIn?
    ensures !s.st.BlockedWrite? && !s.job.DrainOut? && !s.job.FillOut?
    ensures s.job.ReadIn? ==> s.st.BlockedPumpFrom?
    ensures s.job.PumpThrough? ==> s.st.BlockedPumpTo? && s.st.pumpedSoFar + s.job.n <= s.st.amount
    ensures s.job.PumpThrough? ==>
              s.job.n <= s.job.left && (s.job.n < s.job.left ==> s.st.pumpedSoFar + s.job.n == s.st.amount)
  {
    JobMode(s);
    hide Flatten, Conserved;
  }

  lemma CallMisses(s: Pipe, e: Event)
    requires s.writer.PumpingIn? && !s.st.BlockedWrite? && !s.job.DrainOut? && !s.job.FillOut?
    requires !IsWriterCall(e) && !e.InputRead? && !e.Pumped? && !e.Continue?
    ensures MissesOk(s, e)
  {
    hide Flatten, Drop;
  }

  lemma InputMisses(s: Pipe, data: seq<byte>)
    requires s.writer.PumpingIn?
    ensures MissesOk(s, InputRead(data))
  {
  }

  lemma PumpMisses(s: Pipe, data: seq<byte>)
    requires s.writer.PumpingIn? && Enabled(s, Pumped(data))
    requires s.job.PumpThrough? ==> s.st.BlockedPumpTo? && s.job.n <= s.job.left
    ensures MissesOk(s, Pumped(data))
  {
  }

  /** Nothing has gone uncounted, and nothing is about to. */
  ghost predicate AllCounted(s: Pipe) {
    Uncounted(s) == 0 && (s.job.PumpThrough? ==> s.job.n == s.job.left)
  }

  lemma CountedWriterCall(s: Pipe, e: Event)
    requires Inv(s) && Enabled(s, e) && AllCounted(s) && (e.Write? || e.WritePieces? || e.Continue?)
    ensures AllCounted(Step(s, e))
  {
    IdleNoJob(s);
    DropFlatten(s.later, 0);
    hide Flatten, Conserved, Inv, WriteStep;
    match e
    case Write(data) => CountedWrite(s.(offered := s.offered + data), [data]);
    case WritePieces(ps) =>
      if Drop(ps, 0) != [] { CountedWrite(s.(offered := s.offered + Flatten(ps)), Drop(ps, 0)); }
    case Continue => if Drop(s.later, 0) != [] { CountedWrite(s.(later := []), Drop(s.later, 0)); }
  }

  /** A write leaves no pump's result behind that was not counted. */
  lemma CountedWrite(s: Pipe, ps: seq<seq<byte>>)
    requires ps != [] && AllCounted(s) && s.job == NoJob
    ensures AllCounted(WriteStep(s, ps))
  {
    hide Flatten, Drop, Cuts, FillChunks;
  }

  lemma CountedCall(s: Pipe, e: Event)
    requires Inv(s) && Enabled(s, e) && AllCounted(s)
    requires e.TryRead? || e.PumpTo? || e.AbortRead? || e.ShutdownWrite?
    ensures AllCounted(Step(s, e))
  {
    hide Flatten, Drop, Conserved, DrainChunks, Inv;
  }

  lemma CountedTryPump(s: Pipe, e: Event)
    requires Inv(s) && Enabled(s, e) && AllCounted(s) && e.TryPumpFrom? && !MeetsShorterPump(s, e)
    ensures AllCounted(Step(s, e))
  {
    IdleNoJob(s);
    hide Inv;
  }

  lemma CountedCompletion(s: Pipe, e: Event)
    requires Inv(s) && Enabled(s, e) && AllCounted(s) && (e.OutputWritten? || e.InputRead? || e.Pumped?)
    ensures AllCounted(Step(s, e))
  {
    JobMode(s);
    hide Inv;
  }

  lemma CountedStep(s: Pipe, e: Event)
    requires Inv(s) && Enabled(s, e) && AllCounted(s) && !MeetsShorterPump(s, e)
    ensures AllCounted(Step(s, e))
  {
    hide Inv, Step, AllCounted;
    match e
    case Write(_) => CountedWriterCall(s, e);
    case WritePieces(_) => CountedWriterCall(s, e);
    case Continue => CountedWriterCall(s, e);
    case TryPumpFrom(_, _) => CountedTryPump(s, e);
    case OutputWritten => CountedCompletion(s, e);
    case InputRead(_) => CountedCompletion(s, e);
    case Pumped(_) => CountedCompletion(s, e);
    case _ => CountedCall(s, e);
  }

  lemma {:induction false} CountedRun(s: Pipe, es: seq<Event>)
    requires Inv(s) && AllEnabled(s, es) && AllCounted(s) && NeverMeetsShorterPump(s, es)
    ensures AllCounted(Run(s, es))
    decreases |es|
  {
    hide Inv, Step, Enabled, AllCounted, MeetsShorterPump;
    if es != [] {
      StepInv(s, es[0]);
      CountedStep(s, es[0]);
      CountedRun(Step(s, es[0]), es[1..]);
    }
  }

  /** A pump into the pipe resolves with the number of bytes it pumped, if none meets a shorter waiting pump. */
  lemma PumpCountExact(es: seq<Event>)
    requires AllEnabled(Init, es) && NeverMeetsShorterPump(Init, es) && Run(Init, es).writer.PumpInDone?
    ensures var s := Run(Init, es); s.writer.count == |s.offered| - s.writer.start
  {
    InitInv();
    RunInv(Init, es);
    CountedRun(Init, es);
  }

  /** In general the result of a pump is what it pumped less what waiting pumps' outputs took in
      full without ending it: the count is right if and only if that never happens. */
  lemma {:induction false} PumpCountIff(s: Pipe, es: seq<Event>)
    requires Inv(s) && AllEnabled(s, es) && s.writer.PumpingIn?
    requires forall i | 0 <= i < |es| :: !IsWriterCall(es[i])
    requires Run(s, es).writer.PumpInDone?
    ensures Uncounted(Run(s, es)) == Uncounted(s) + TotalMisses(s, es)
    ensures var t := Run(s, es);
            Uncounted(s) == 0 ==> (t.writer.count == |t.offered| - t.writer.start <==> TotalMisses(s, es) == 0)
    decreases |es|
  {
    var e, t := es[0], Step(s, es[0]);
    StepInv(s, e);
    MissesExactly(s, e);
    RunInv(t, es[1..]);
    DoneCounts(Run(t, es[1..]));
    if t.writer.PumpingIn? {
      hide Inv, Step, Enabled, Misses;
      PumpCountIff(t, es[1..]);
    } else {
      hide Step, Misses;
      RestingWriter(t, es[1..]);
    }
  }

  lemma DoneCounts(s: Pipe)
    requires Inv(s) && s.writer.PumpInDone?
    ensures s.writer.count == |s.offered| - s.writer.start - Uncounted(s)
  {
    hide Flatten, Conserved;
  }

  /** Without a new call of the writer, a finished pump's result stays. */
  lemma {:induction false} RestingWriter(s: Pipe, es: seq<Event>)
    requires Inv(s) && AllEnabled(s, es) && WriterIdle(s)
    requires forall i | 0 <= i < |es| :: !IsWriterCall(es[i])
    ensures Run(s, es).writer == s.writer && TotalMisses(s, es) == 0
    decreases |es|
  {
    if es != [] {
      StepInv(s, es[0]);
      RestingStep(s, es[0]);
      hide Step, Conserved, Misses;
      RestingWriter(Step(s, es[0]), es[1..]);
    }
  }

  lemma RestingStep(s: Pipe, e: Event)
    requires Inv(s) && Enabled(s, e) && WriterIdle(s) && !IsWriterCall(e)
    ensures Step(s, e).writer == s.writer && Misses(s, e) == 0
  {
    IdleNoJob(s);
    hide Flatten, Drop, Conserved;
  }

  lemma RunCons(s: Pipe, e: Event, es: seq<Event>, t: Pipe)
    requires Enabled(s, e) && Step(s, e) == t && AllEnabled(t, es)
    ensures Run(s, [e] + es) == Run(t, es) && AllEnabled(s, [e] + es)
  {
    assert ([e] + es)[1..] == es;
    hide Step, Enabled;
  }

  ghost const BothPump: Pipe :=
    Pipe(BlockedPumpTo(1, 0), PumpThrough(1, 2), [], Pumping(0, 1, 0), PumpingIn(0, 2, 0, 0), [], [], [])

  ghost const OnePump: Pipe :=
    Pipe(BlockedPumpFrom(1, 0), NoJob, [], PumpDone(0, 1, 1, 0), PumpingIn(0, 2, 0, 1), [7], [7], [])

  lemma ShortStart()
    ensures Enabled(Init, PumpTo(1)) && Enabled(Step(Init, PumpTo(1)), TryPumpFrom(2, true))
    ensures Step(Step(Init, PumpTo(1)), TryPumpFrom(2, true)) == BothPump
  {
  }

  lemma PumpedFull(s: Pipe, data: seq<byte>)
    requires s.st.BlockedPumpTo? && s.job.PumpThrough? && s.reader.Pumping? && s.writer.PumpingIn?
    requires |data| == s.job.n < s.job.left && s.st.pumpedSoFar + |data| == s.st.amount
    ensures PumpedStep(s, data) ==
            Pipe(BlockedPumpFrom(s.job.left - |data|, 0), NoJob, s.later,
                 PumpDone(s.reader.start, s.reader.amount, s.reader.acc + s.st.amount, 0),
                 s.writer.(uncounted := s.writer.uncounted + |data|), s.offered + data, s.delivered + data, s.dropped)
  {
  }

  lemma ShortMiddle()
    ensures Enabled(BothPump, Pumped([7])) && Step(BothPump, Pumped([7])) == OnePump
  {
    hide PumpedStep;
    PumpedFull(BothPump, [7]);
    assert [] + [7] == [7];
  }

  lemma ShortEnd()
    ensures Enabled(OnePump, TryRead(1, 1)) && Enabled(Step(OnePump, TryRead(1, 1)), InputRead([8]))
    ensures Step(Step(OnePump, TryRead(1, 1)), InputRead([8])).writer == PumpInDone(0, 2, 1, 1)
  {
  }

  /** A run in which the count comes out short: one byte goes to a pump that wants one, the
      next to a read, and the pump of two bytes resolves with one. */
  lemma PumpCountCanBeShort()
    ensures exists es :: AllEnabled(Init, es) && Run(Init, es).writer == PumpInDone(0, 2, 1, 1)
  {
    ShortStart();
    ShortMiddle();
    ShortEnd();
    var a, d := Step(Init, PumpTo(1)), Step(OnePump, TryRead(1, 1));
    hide Step, Enabled;
    RunCons(d, InputRead([8]), [], Step(d, InputRead([8])));
    RunCons(OnePump, TryRead(1, 1), [InputRead([8])] + [], d);
    RunCons(BothPump, Pumped([7]), [TryRead(1, 1)] + ([InputRead([8])] + []), OnePump);
    RunCons(a, TryPumpFrom(2, true), [Pumped([7])] + ([TryRead(1, 1)] + ([InputRead([8])] + [])), BothPump);
    RunCons(Init, PumpTo(1), [TryPumpFrom(2, true)] + ([Pumped([7])] + ([TryRead(1, 1)] + ([InputRead([8])] + []))), a);
  }

  // ---------------------------------------------------------------------------
  // The count a pump to an output resolves with.

  /** A shutdown meets a gather-write into a waiting pump of which some bytes have gone out. */
  predicate CutsShort(s: Pipe, e: Event) {
    e.ShutdownWrite? && s.job.FillOut? && Size(s.job.chunks) < s.job.size
  }

  predicate NeverCutsShort(s: Pipe, es: seq<Event>)
    decreases |es|
  {
    es == [] || (!CutsShort(s, es[0]) && NeverCutsShort(Step(s, es[0]), es[1..]))
  }

  predicate IsReaderCall(e: Event) {
    e.TryRead? || e.PumpTo?
  }

  ghost predicate PumpOutOk(s: Pipe, e: Event) {
    var r := Step(s, e).reader;
    && (r.Pumping? || r == ReadRejected || r.PumpDone?)
    && (r.PumpDone? ==> (r.uncounted > 0 <==> CutsShort(s, e)))
    && (r.Pumping? ==> !CutsShort(s, e))
  }

  /** What a step does to a waiting pump: if it resolves it misses bytes exactly if it was cut short. */
  lemma PumpOutStep(s: Pipe, e: Event)
    requires Inv(s) && Enabled(s, e) && s.reader.Pumping? && !IsReaderCall(e)
    ensures PumpOutOk(s, e)
  {
    JobMode(s);
    hide Inv;
    match e
    case Write(_) => WriterOutStep(s, e);
    case WritePieces(_) => WriterOutStep(s, e);
    case Continue => WriterOutStep(s, e);
    case _ => OtherOutStep(s, e);
  }

  lemma WriterOutStep(s: Pipe, e: Event)
    requires s.reader.Pumping? && (e.Write? || e.WritePieces? || e.Continue?)
    ensures PumpOutOk(s, e)
  {
    hide Flatten, Drop, Cuts, FillChunks;
  }

  lemma OtherOutStep(s: Pipe, e: Event)
    requires s.reader.Pumping? && !IsReaderCall(e) && !e.Write? && !e.WritePieces? && !e.Continue?
    requires s.job.FillOut? ==> s.st.BlockedPumpTo?
    ensures PumpOutOk(s, e)
  {
    hide Flatten, Drop;
  }

  /** Without a new call of the reader, a finished pump's result stays. */
  lemma RestingReaderStep(s: Pipe, e: Event)
    requires Inv(s) && Enabled(s, e) && ReaderIdle(s) && !IsReaderCall(e)
    ensures Step(s, e).reader == s.reader && !CutsShort(s, e)
  {
    JobMode(s);
    hide Flatten, Drop, Conserved, Cuts, FillChunks;
  }

  lemma {:induction false} RestingReaderRun(s: Pipe, es: seq<Event>)
    requires Inv(s) && AllEnabled(s, es) && ReaderIdle(s)
    requires forall i | 0 <= i < |es| :: !IsReaderCall(es[i])
    ensures Run(s, es).reader == s.reader && NeverCutsShort(s, es)
    decreases |es|
  {
    if es != [] {
      StepInv(s, es[0]);
      RestingReaderStep(s, es[0]);
      hide Inv, Step, Enabled, CutsShort;
      RestingReaderRun(Step(s, es[0]), es[1..]);
    }
  }

  /** A pump to an output resolves with the number of bytes that it moved if and only if no
      shutdown meets a gather-write of which some bytes, not all, have gone out. */
  lemma {:induction false} PumpOutCountIff(s: Pipe, es: seq<Event>)
    requires Inv(s) && AllEnabled(s, es) && s.reader.Pumping?
    requires forall i | 0 <= i < |es| :: !IsReaderCall(es[i])
    requires Run(s, es).reader.PumpDone?
    ensures var t := Run(s, es); t.reader.count == |t.delivered| - t.reader.start <==> NeverCutsShort(s, es)
    decreases |es|
  {
    var e, t := es[0], Step(s, es[0]);
    StepInv(s, e);
    PumpOutStep(s, e);
    RunInv(t, es[1..]);
    PumpCounts(Run(t, es[1..]));
    hide Inv, Step, Enabled, CutsShort;
    if t.reader.Pumping? {
      PumpOutCountIff(t, es[1..]);
    } else {
      RestingReaderRun(t, es[1..]);
    }
  }

  lemma PumpCounts(s: Pipe)
    requires Inv(s) && s.reader.PumpDone?
    ensures s.reader.count == |s.delivered| - s.reader.start - s.reader.uncounted
  {
    RestingReader(s);
  }

  ghost const Piped: Pipe :=
    Pipe(BlockedPumpTo(3, 0), FillOut([[1], [2, 3]], 3, [4], []), [], Pumping(0, 3, 0), Writing(true),
         [1, 2, 3, 4], [], [])

  ghost const HalfPiped: Pipe := Piped.(job := FillOut([[2, 3]], 3, [4], []), delivered := [1])

  lemma CutStart()
    ensures var t := Step(Init, PumpTo(3));
            Enabled(Init, PumpTo(3)) && Enabled(t, WritePieces([[1], [2, 3, 4]])) &&
            Step(t, WritePieces([[1], [2, 3, 4]])) == Piped
  {
    var ps: seq<seq<byte>> := [[1], [2, 3, 4]];
    Pieces();
    assert Drop(ps, 0) == ps && [] + [1, 2, 3, 4] == [1, 2, 3, 4];
    hide Flatten, Drop, Covered, Cuts, FillChunks;
  }

  lemma Pieces()
    ensures var ps: seq<seq<byte>> := [[1], [2, 3, 4]];
            && Flatten(ps) == [1, 2, 3, 4] && Drop(ps, 0) == [[1], [2, 3, 4]]
            && Drop(ps, 3) == [[4]] && Cuts(ps, 3) && FillChunks(ps, 3) == [[1], [2, 3]]
  {
    var ps: seq<seq<byte>> := [[1], [2, 3, 4]];
    assert ps[1..] == [[2, 3, 4]];
    FlattenOne([2, 3, 4]);
    assert [1] + [2, 3, 4] == [1, 2, 3, 4];
    assert Covered([[2, 3, 4]], 2) == 0;
    assert ps[..1] == [[1]];
    FlattenOne([1]);
    assert [2, 3, 4][..2] == [2, 3];
    assert Drop([[2, 3, 4]], 2) == [[4]];
  }

  lemma CutEnd()
    ensures Enabled(Piped, OutputWritten) && Step(Piped, OutputWritten) == HalfPiped
    ensures Enabled(HalfPiped, ShutdownWrite) && Step(HalfPiped, ShutdownWrite).reader == PumpDone(0, 3, 0, 1)
  {
    assert Size([[2, 3]]) == 2;
  }

  /** A run in which the count comes out short: one byte of a gather-write has gone out when the
      shutdown comes, and the pump resolves with none. */
  lemma PumpOutCountCanBeShort()
    ensures exists es :: AllEnabled(Init, es) && Run(Init, es).reader == PumpDone(0, 3, 0, 1)
  {
    CutStart();
    CutEnd();
    var t := Step(Init, PumpTo(3));
    hide Step, Enabled;
    RunCons(HalfPiped, ShutdownWrite, [], Step(HalfPiped, ShutdownWrite));
    RunCons(Piped, OutputWritten, [ShutdownWrite] + [], HalfPiped);
    RunCons(t, WritePieces([[1], [2, 3, 4]]), [OutputWritten] + ([ShutdownWrite] + []), Piped);
    RunCons(Init, PumpTo(3), [WritePieces([[1], [2, 3, 4]])] + ([OutputWritten] + ([ShutdownWrite] + [])), t);
  }
}
