/** What becomes of each call on the pipe, over every run: when it may be rejected, what it asked
    for, and how much it is given at once. */
module PipeCalls {
  import opened Bytes
  import opened PipeSpec
  import opened PipeProof
  import opened PipePromises
  import opened Wrappers

  // ---------------------------------------------------------------------------
  // Calls and their answers.

  /** The reader waits for, or has, the answer to this read. */
  predicate IsRead(r: Reader, start: nat, min: nat, max: nat) {
    (r.Reading? || r.ReadDone?) && r.start == start && r.min == min && r.max == max
  }

  predicate IsPumpOut(r: Reader, start: nat, amount: nat) {
    (r.Pumping? || r.PumpDone?) && r.start == start && r.amount == amount
  }

  predicate IsPumpIn(w: Writer, start: nat, amount: nat) {
    (w.PumpingIn? || w.PumpInDone?) && w.start == start && w.amount == amount
  }

  predicate IsWrite(w: Writer) {
    w.Writing? || w == WriteDone
  }

  /** The reader still waits for, or has, the answer to the same call. */
  predicate SameRead(r: Reader, r': Reader) {
    match r
    case Reading(start, min, max, _) => IsRead(r', start, min, max)
    case Pumping(start, amount, _) => IsPumpOut(r', start, amount)
    case _ => r' == r
  }

  predicate SameWrite(w: Writer, w': Writer) {
    match w
    case Writing(_) => IsWrite(w')
    case PumpingIn(start, amount, _, _) => IsPumpIn(w', start, amount)
    case _ => w' == w
  }

  /** What a step other than an abort does for the reader: a call of its own is taken as it is,
      other steps do no more than answer it. */
  ghost predicate ReaderOk(s: Pipe, e: Event, t: Pipe) {
    && !t.st.AbortedRead?
    && match e
       case TryRead(min, max) => IsRead(t.reader, |s.delivered|, min, max)
       case PumpTo(amount) => IsPumpOut(t.reader, |s.delivered|, amount)
       case _ => SameRead(s.reader, t.reader)
  }

  /** Whether a pump is refused, for the caller to write instead. */
  predicate Refuses(s: Pipe, amount: nat, supported: bool) {
    amount > 0 && s.st.BlockedPumpTo? && !supported
  }

  /** Likewise for the writer, in a step other than an abort or a shutdown. */
  ghost predicate WriterOk(s: Pipe, e: Event, t: Pipe) {
    && t.st != ShutdownedWrite
    && match e
       case Write(_) => IsWrite(t.writer)
       case WritePieces(_) => IsWrite(t.writer)
       case TryPumpFrom(amount, supported) =>
         if Refuses(s, amount, supported) then t == s.(writer := PumpUnsupported)
         else IsPumpIn(t.writer, |s.offered|, amount)
       case _ => SameWrite(s.writer, t.writer)
  }

  /** A write meets the pipe in a state in which it can. */
  lemma WriteMoves(s: Pipe, ps: seq<seq<byte>>)
    requires ps != [] && (s.st.NoState? || s.st.BlockedRead? || s.st.BlockedPumpTo? || s.st.ShutdownedWrite?)
    requires s.st.BlockedPumpTo? ==> s.st.pumpedSoFar < s.st.amount
    ensures var t := WriteStep(s, ps);
            && !t.st.AbortedRead? && SameRead(s.reader, t.reader)
            && (s.st != ShutdownedWrite ==> t.st != ShutdownedWrite && IsWrite(t.writer))
  {
    hide Flatten, Drop, Cuts, FillChunks;
  }

  lemma WriterCalls(s: Pipe, e: Event)
    requires Inv(s) && Enabled(s, e) && !s.st.AbortedRead? && (e.Write? || e.WritePieces? || e.Continue?)
    ensures ReaderOk(s, e, Step(s, e)) && (s.st != ShutdownedWrite ==> WriterOk(s, e, Step(s, e)))
  {
    QuietMode(s);
    DropFlatten(s.later, 0);
    hide Inv, WriteStep, Flatten, Drop;
    match e
    case Write(data) =>
      if !s.st.BlockedPumpTo? { WriteMoves(s.(offered := s.offered + data), [data]); }
    case WritePieces(ps) =>
      if Drop(ps, 0) != [] { WriteMoves(s.(offered := s.offered + Flatten(ps)), Drop(ps, 0)); }
    case Continue => if Drop(s.later, 0) != [] { WriteMoves(s.(later := []), Drop(s.later, 0)); }
  }

  lemma QuietMode(s: Pipe)
    requires Inv(s) && (WriterIdle(s) || s.writer == Writing(false))
    ensures s.job == NoJob && !s.st.BlockedWrite? && !s.st.BlockedPumpFrom?
    ensures s.st.BlockedPumpTo? ==> s.st.pumpedSoFar < s.st.amount
    ensures s.st.BlockedRead? ==> s.st.byteCount < s.st.minBytes
  {
    hide Flatten, Conserved;
  }

  lemma ReaderMode(s: Pipe)
    requires Inv(s) && ReaderIdle(s)
    ensures !s.st.BlockedRead? && !s.st.BlockedPumpTo?
    ensures s.st.BlockedWrite? ==> s.st.pieces != [] && s.job == NoJob && s.writer == Writing(true)
    ensures s.st.BlockedPumpFrom? ==> s.st.pumpedSoFar < s.st.amount && s.job == NoJob && s.writer.PumpingIn?
    ensures !s.st.AbortedRead? ==> s.job == NoJob
  {
    hide Flatten, Conserved;
  }

  lemma ReaderCalls(s: Pipe, e: Event)
    requires Inv(s) && Enabled(s, e) && !s.st.AbortedRead? && IsReaderCall(e)
    ensures ReaderOk(s, e, Step(s, e)) && (s.st != ShutdownedWrite ==> WriterOk(s, e, Step(s, e)))
  {
    ReaderMode(s);
    hide Inv, Flatten, Drop, DrainChunks;
  }

  lemma OtherCalls(s: Pipe, e: Event)
    requires Inv(s) && Enabled(s, e) && !s.st.AbortedRead? && (e.TryPumpFrom? || e.ShutdownWrite?)
    ensures ReaderOk(s, e, Step(s, e)) && (e.TryPumpFrom? ==> WriterOk(s, e, Step(s, e)))
  {
    if e.TryPumpFrom? { QuietMode(s); } else { JobMode(s); }
    hide Inv, Flatten, Drop, InFlight;
  }

  lemma Outputs(s: Pipe)
    requires Inv(s) && Enabled(s, OutputWritten) && !s.st.AbortedRead?
    ensures var t := Step(s, OutputWritten);
            ReaderOk(s, OutputWritten, t) && (s.st != ShutdownedWrite ==> WriterOk(s, OutputWritten, t))
  {
    JobMode(s);
    JobWriter(s);
    hide Inv, Flatten;
  }

  lemma Inputs(s: Pipe, data: seq<byte>)
    requires Inv(s) && Enabled(s, InputRead(data)) && !s.st.AbortedRead?
    ensures var t := Step(s, InputRead(data));
            ReaderOk(s, InputRead(data), t) && (s.st != ShutdownedWrite ==> WriterOk(s, InputRead(data), t))
  {
    JobMode(s);
    JobWriter(s);
    hide Inv;
  }

  lemma Throughs(s: Pipe, data: seq<byte>)
    requires Inv(s) && Enabled(s, Pumped(data)) && !s.st.AbortedRead?
    ensures var t := Step(s, Pumped(data));
            ReaderOk(s, Pumped(data), t) && (s.st != ShutdownedWrite ==> WriterOk(s, Pumped(data), t))
  {
    JobMode(s);
    JobWriter(s);
    hide Inv;
  }

  /** Who waits for the operation that the pipe has started. */
  lemma JobWriter(s: Pipe)
    requires Inv(s)
    ensures s.job.DrainOut? || s.job.FillOut? ==> s.writer == Writing(true)
    ensures s.job.ReadIn? || s.job.ReadInto? || s.job.PumpIn? || s.job.PumpThrough? || s.job.CheckEof? ==>
              s.writer.PumpingIn?
    ensures s.job.DrainOut? || s.job.PumpIn? || s.job.FillOut? || s.job.PumpThrough? ==> s.reader.Pumping?
    ensures s.job.ReadIn? || s.job.ReadInto? ==> s.reader.Reading?
  {
    hide Flatten, Conserved;
  }

  lemma StepOk(s: Pipe, e: Event)
    requires Inv(s) && Enabled(s, e) && !s.st.AbortedRead? && e != AbortRead
    ensures ReaderOk(s, e, Step(s, e))
    ensures s.st != ShutdownedWrite && e != ShutdownWrite ==> WriterOk(s, e, Step(s, e))
  {
    hide Inv, Step, Enabled, ReaderOk, WriterOk;
    match e
    case TryRead(_, _) => ReaderCalls(s, e);
    case PumpTo(_) => ReaderCalls(s, e);
    case Write(_) => WriterCalls(s, e);
    case WritePieces(_) => WriterCalls(s, e);
    case Continue => WriterCalls(s, e);
    case TryPumpFrom(_, _) => OtherCalls(s, e);
    case ShutdownWrite => OtherCalls(s, e);
    case OutputWritten => Outputs(s);
    case InputRead(data) => Inputs(s, data);
    case Pumped(data) => Throughs(s, data);
  }

  // ---------------------------------------------------------------------------
  // Over runs.

  predicate NoAbort(es: seq<Event>) {
    forall i | 0 <= i < |es| :: es[i] != AbortRead
  }

  predicate NoShutdown(es: seq<Event>) {
    forall i | 0 <= i < |es| :: es[i] != ShutdownWrite
  }

  predicate NoReaderCall(es: seq<Event>) {
    forall i | 0 <= i < |es| :: !IsReaderCall(es[i])
  }

  predicate NoWriterCall(es: seq<Event>) {
    forall i | 0 <= i < |es| :: !IsWriterCall(es[i])
  }

  lemma {:induction false} SameReadRun(s: Pipe, es: seq<Event>)
    requires Inv(s) && AllEnabled(s, es) && NoAbort(es) && NoReaderCall(es) && !s.st.AbortedRead?
    ensures !Run(s, es).st.AbortedRead? && SameRead(s.reader, Run(s, es).reader)
    decreases |es|
  {
    hide Inv, Step, Enabled;
    if es != [] {
      StepOk(s, es[0]);
      StepInv(s, es[0]);
      SameReadRun(Step(s, es[0]), es[1..]);
    }
  }

  lemma {:induction false} SameWriteRun(s: Pipe, es: seq<Event>)
    requires Inv(s) && AllEnabled(s, es) && NoAbort(es) && NoShutdown(es) && NoWriterCall(es)
    requires !s.st.AbortedRead? && s.st != ShutdownedWrite
    ensures Run(s, es).st != ShutdownedWrite && SameWrite(s.writer, Run(s, es).writer)
    decreases |es|
  {
    hide Inv, Step, Enabled;
    if es != [] {
      StepOk(s, es[0]);
      StepInv(s, es[0]);
      SameWriteRun(Step(s, es[0]), es[1..]);
    }
  }

  /** A read of a pipe that is not aborted asks for exactly what its caller said, is never
      rejected before an abort, and its result is not touched by what comes after. */
  lemma ReadIsAnswered(s: Pipe, min: nat, max: nat, es: seq<Event>)
    requires Inv(s) && AllEnabled(s, [TryRead(min, max)] + es) && NoAbort(es) && NoReaderCall(es)
    requires !s.st.AbortedRead?
    ensures IsRead(Run(s, [TryRead(min, max)] + es).reader, |s.delivered|, min, max)
  {
    var e := TryRead(min, max);
    assert ([e] + es)[1..] == es;
    hide Inv, Step, Enabled;
    StepOk(s, e);
    StepInv(s, e);
    SameReadRun(Step(s, e), es);
  }

  /** The same for a pump to an output. */
  lemma PumpOutIsAnswered(s: Pipe, amount: nat, es: seq<Event>)
    requires Inv(s) && AllEnabled(s, [PumpTo(amount)] + es) && NoAbort(es) && NoReaderCall(es)
    requires !s.st.AbortedRead?
    ensures IsPumpOut(Run(s, [PumpTo(amount)] + es).reader, |s.delivered|, amount)
  {
    var e := PumpTo(amount);
    assert ([e] + es)[1..] == es;
    hide Inv, Step, Enabled;
    StepOk(s, e);
    StepInv(s, e);
    SameReadRun(Step(s, e), es);
  }

  /** A write is never rejected before an abort or a shutdown. */
  lemma WriteIsAnswered(s: Pipe, e: Event, es: seq<Event>)
    requires Inv(s) && AllEnabled(s, [e] + es) && (e.Write? || e.WritePieces?)
    requires NoAbort(es) && NoShutdown(es) && NoWriterCall(es) && !s.st.AbortedRead?
    ensures IsWrite(Run(s, [e] + es).writer)
  {
    assert ([e] + es)[1..] == es;
    assert s.st != ShutdownedWrite;
    hide Inv, Step, Enabled;
    StepOk(s, e);
    StepInv(s, e);
    SameWriteRun(Step(s, e), es);
  }

  /** A pump from an input is refused exactly if it meets a waiting pump whose output does not
      support it, and then nothing happens. Otherwise it is not rejected either. */
  lemma PumpInIsAnswered(s: Pipe, amount: nat, supported: bool, es: seq<Event>)
    requires Inv(s) && AllEnabled(s, [TryPumpFrom(amount, supported)] + es)
    requires NoAbort(es) && NoShutdown(es) && NoWriterCall(es) && !s.st.AbortedRead?
    ensures var t := Run(s, [TryPumpFrom(amount, supported)] + es);
            if Refuses(s, amount, supported) then t.writer == PumpUnsupported
            else IsPumpIn(t.writer, |s.offered|, amount)
    ensures Refuses(s, amount, supported) ==> Step(s, TryPumpFrom(amount, supported)) == s.(writer := PumpUnsupported)
  {
    var e := TryPumpFrom(amount, supported);
    assert ([e] + es)[1..] == es;
    assert s.st != ShutdownedWrite;
    hide Inv, Step, Enabled;
    StepOk(s, e);
    StepInv(s, e);
    SameWriteRun(Step(s, e), es);
  }

  lemma UnrejectedStep(s: Pipe, e: Event)
    requires Inv(s) && Enabled(s, e) && e != AbortRead && !s.st.AbortedRead? && s.reader != ReadRejected
    ensures Step(s, e).reader != ReadRejected && !Step(s, e).st.AbortedRead?
    ensures s.st != ShutdownedWrite && s.writer != WriteRejected && e != ShutdownWrite ==>
              Step(s, e).writer != WriteRejected && Step(s, e).st != ShutdownedWrite
  {
    StepOk(s, e);
    hide Inv, Step, Enabled;
  }

  lemma {:induction false} UnrejectedRun(s: Pipe, es: seq<Event>)
    requires Inv(s) && AllEnabled(s, es) && NoAbort(es) && !s.st.AbortedRead? && s.reader != ReadRejected
    ensures Run(s, es).reader != ReadRejected && !Run(s, es).st.AbortedRead?
    ensures s.st != ShutdownedWrite && s.writer != WriteRejected && NoShutdown(es) ==>
              Run(s, es).writer != WriteRejected && Run(s, es).st != ShutdownedWrite
    decreases |es|
  {
    hide Inv, Step, Enabled;
    if es != [] {
      UnrejectedStep(s, es[0]);
      StepInv(s, es[0]);
      UnrejectedRun(Step(s, es[0]), es[1..]);
    }
  }

  /** In a run without an abort no read and no pump to an output is ever rejected, and without an
      abort or a shutdown no write and no pump from an input is. */
  lemma NothingRejected(es: seq<Event>)
    requires AllEnabled(Init, es) && NoAbort(es)
    ensures Run(Init, es).reader != ReadRejected && !Run(Init, es).st.AbortedRead?
    ensures NoShutdown(es) ==> Run(Init, es).writer != WriteRejected && Run(Init, es).st != ShutdownedWrite
  {
    InitInv();
    UnrejectedRun(Init, es);
  }

  // ---------------------------------------------------------------------------
  // Aborts and shutdowns.

  /** An abort rejects whoever waits, but for a pump whose input may be at its end. */
  lemma AbortRejects(s: Pipe)
    requires Inv(s) && s.st != ShutdownedWrite && !s.st.AbortedRead?
    ensures var t := Step(s, AbortRead);
            && t.st.AbortedRead?
            && t.reader == (if ReaderIdle(s) then s.reader else ReadRejected)
            && t.writer == (if s.writer == Writing(true) || s.job.ReadInto? || s.job.PumpThrough? then WriteRejected
                            else s.writer)
            && (t.writer.PumpingIn? ==> t.job.CheckEof?)
  {
    JobWriter(s);
    WaitMode(s);
    hide Inv, Flatten;
  }

  /** Who waits, by the state object. */
  lemma WaitMode(s: Pipe)
    requires Inv(s)
    ensures ReaderIdle(s) <==> !s.st.BlockedRead? && !s.st.BlockedPumpTo? && !s.job.DrainOut? && !s.job.ReadIn? &&
                               !s.job.PumpIn?
    ensures s.writer == Writing(true) <==> s.st.BlockedWrite? || s.job.FillOut?
    ensures s.writer.PumpingIn? <==> s.st.BlockedPumpFrom? || s.job.ReadInto? || s.job.PumpThrough? || s.job.CheckEof?
  {
    hide Flatten, Conserved;
  }

  /** In an aborted pipe every call that asks for bytes or gives some is rejected, but a pump whose
      input has no more bytes resolves, with what it has pumped. */
  lemma AbortedCalls(s: Pipe, e: Event)
    requires Inv(s) && Enabled(s, e) && s.st.AbortedRead?
    ensures var t := Step(s, e);
            && t.st.AbortedRead?
            && ((e.TryRead? && e.min > 0) || (e.PumpTo? && e.amount > 0) ==> t.reader == ReadRejected)
            && ((e.Write? || e.WritePieces?) && Offers(s, e) != [] ==> t.writer == WriteRejected)
            && (e.Continue? && Flatten(s.later) != [] ==> t.writer == WriteRejected)
            && (e.TryPumpFrom? && e.amount > 0 ==>
                 t.job.CheckEof? && t.writer == PumpingIn(|s.offered|, e.amount, 0, 0))
            && (e.InputRead? ==> s.writer.PumpingIn?)
            && (e.InputRead? && e.data != [] ==> t.writer == WriteRejected)
            && (e.InputRead? && e.data == [] ==>
                 IsPumpIn(t.writer, s.writer.start, s.writer.amount) && t.writer.PumpInDone? &&
                 t.writer.count == |s.offered| - s.writer.start - s.writer.uncounted)
  {
    JobMode(s);
    match e
    case WritePieces(ps) => DropFlatten(ps, 0); hide Flatten, Drop, Inv;
    case Continue => DropFlatten(s.later, 0); hide Flatten, Drop, Inv;
    case InputRead(_) => hide Flatten, Conserved;
    case _ => hide Flatten, Drop, Inv, DrainChunks;
  }

  /** A shutdown answers a waiting reader, and rejects a writer that is being served. */
  lemma ShutdownAnswers(s: Pipe)
    requires Inv(s) && Enabled(s, ShutdownWrite) && !s.st.AbortedRead?
    ensures var t := Step(s, ShutdownWrite);
            && t.st == ShutdownedWrite
            && ReaderIdle(t) && SameRead(s.reader, t.reader)
            && t.writer == (if s.writer == Writing(true) || s.writer.PumpingIn? then WriteRejected else s.writer)
  {
    WaitMode(s);
    JobWriter(s);
    hide Inv, Flatten, InFlight;
  }

  /** After a shutdown every read and every pump to an output is at the end of the stream. */
  lemma EndOfStream(s: Pipe, e: Event)
    requires Inv(s) && Enabled(s, e) && s.st == ShutdownedWrite && IsReaderCall(e)
    ensures var t := Step(s, e);
            && t.delivered == s.delivered
            && t.reader == if e.TryRead? then ReadDone(|s.delivered|, e.min, e.max, 0)
                           else PumpDone(|s.delivered|, e.amount, 0, 0)
  {
    hide Inv, Flatten;
  }
}
