/** How much the two sides of the pipe pass on when they meet, when pumps end, and that what the
    pipe has started comes to an end. */
module PipeTransfers {
  import opened Bytes
  import opened PipeSpec
  import opened PipeProof
  import opened PipePromises
  import opened PipeCalls
  import opened Wrappers

  // ---------------------------------------------------------------------------
  // Reads and writes that meet.

  /** A read that meets a waiting write takes all that fits, at once; it resolves with that if it
      is enough, and otherwise goes on waiting with it. */
  lemma ReadTakes(s: Pipe, min: nat, max: nat)
    requires Inv(s) && Enabled(s, TryRead(min, max)) && s.st.BlockedWrite? && min > 0
    ensures var (t, n) := (Step(s, TryRead(min, max)), Min(max, |InFlight(s)|));
            && t.delivered == s.delivered + InFlight(s)[..n]
            && t.reader == (if n >= min then ReadDone(|s.delivered|, min, max, n)
                            else Reading(|s.delivered|, min, max, n))
            && (max < |InFlight(s)| ==> t.writer == Writing(true) && InFlight(t) == InFlight(s)[n..])
            && (max >= |InFlight(s)| ==> t.writer == if s.later == [] then WriteDone else Writing(false))
  {
    ReaderMode(s);
    if max < Size(s.st.pieces) { DropFlatten(s.st.pieces, max); }
    hide Inv, Flatten, Drop;
  }

  /** The bytes that a write event is about to give, the first time or as it goes on. */
  function Giving(s: Pipe, e: Event): seq<byte> {
    match e
    case Write(data) => data
    case WritePieces(ps) => Flatten(ps)
    case Continue => Flatten(s.later)
    case _ => []
  }

  /** The bytes `d` of a write have met a waiting read. */
  ghost predicate Gives(s: Pipe, d: seq<byte>, t: Pipe) {
    && s.st.BlockedRead? && s.reader.Reading?
    && var BlockedRead(count, min, room) := s.st;
       var n := Min(room, |d|);
       && t.delivered == s.delivered + d[..n]
       && (if count + n >= min then
             t.reader == ReadDone(s.reader.start, s.reader.min, s.reader.max, s.reader.acc + count + n)
           else
             t.reader == s.reader && t.st == BlockedRead(count + n, min, room - n))
       && t.writer == if |d| <= room then WriteDone else Writing(true)
  }

  /** A write that meets a waiting read fills its buffer as far as it goes, at once; the read
      resolves when it has its minimum, and the write when all of it has gone. */
  lemma WriteGives(s: Pipe, e: Event)
    requires Inv(s) && Enabled(s, e) && s.st.BlockedRead? && s.reader.Reading? && Giving(s, e) != []
    ensures Gives(s, Giving(s, e), Step(s, e))
  {
    QuietMode(s);
    ReadRoom(s);
    hide Inv, Gives;
    match e
    case Write(data) =>
      GivePieces(s.(offered := s.offered + data), [data]);
      FlattenOne(data);
      SameGives(s, s.(offered := s.offered + data), data, Step(s, e));
    case WritePieces(ps) =>
      DropFlatten(ps, 0);
      GivePieces(s.(offered := s.offered + Flatten(ps)), Drop(ps, 0));
      SameGives(s, s.(offered := s.offered + Flatten(ps)), Flatten(ps), Step(s, e));
    case Continue =>
      DropFlatten(s.later, 0);
      GivePieces(s.(later := []), Drop(s.later, 0));
      SameGives(s, s.(later := []), Flatten(s.later), Step(s, e));
    hide Flatten, Drop, WriteStep;
  }

  lemma SameGives(s: Pipe, r: Pipe, d: seq<byte>, t: Pipe)
    requires r.st == s.st && r.reader == s.reader && r.delivered == s.delivered
    ensures Gives(r, d, t) ==> Gives(s, d, t)
  {
  }

  lemma ReadRoom(s: Pipe)
    requires Inv(s) && s.st.BlockedRead?
    ensures s.st.room > 0 && s.st.byteCount < s.st.minBytes <= s.st.byteCount + s.st.room
    ensures WriterIdle(s) ==> s.later == []
  {
    hide Flatten, Conserved;
  }

  lemma GivePieces(s: Pipe, ps: seq<seq<byte>>)
    requires s.st.BlockedRead? && s.reader.Reading? && ps != [] && s.later == []
    requires s.st.room > 0 && s.st.byteCount < s.st.minBytes <= s.st.byteCount + s.st.room
    ensures Gives(s, Flatten(ps), WriteStep(s, ps))
  {
    if Size(ps) < s.st.room { GiveAll(s, ps); } else { GiveSome(s, ps); }
    hide Flatten, Gives, WriteFits, WriteFills;
  }

  lemma GiveAll(s: Pipe, ps: seq<seq<byte>>)
    requires s.st.BlockedRead? && s.reader.Reading? && s.later == [] && Size(ps) < s.st.room
    ensures Gives(s, Flatten(ps), WriteFits(s, ps))
  {
    hide Flatten;
  }

  lemma GiveSome(s: Pipe, ps: seq<seq<byte>>)
    requires s.st.BlockedRead? && s.reader.Reading? && s.later == [] && Size(ps) >= s.st.room
    requires s.st.room > 0 && s.st.byteCount < s.st.minBytes <= s.st.byteCount + s.st.room
    ensures Gives(s, Flatten(ps), WriteFills(s, ps))
  {
    DropFlatten(ps, s.st.room);
    hide Flatten, Drop, Cuts;
  }

  /** The first `n` bytes of the pieces end inside piece `i`, after `k` of its bytes. */
  predicate EndsInside(ps: seq<seq<byte>>, n: nat, i: nat, k: nat) {
    i < |ps| && 0 < k < |ps[i]| && n == Size(ps[..i]) + k
  }

  lemma {:induction false} CutAt(ps: seq<seq<byte>>, n: nat, i: nat, k: nat)
    requires EndsInside(ps, n, i, k)
    ensures n < Size(ps) && Cuts(ps, n) && Drop(ps, n) == [ps[i][k..]] + ps[i + 1..]
  {
    if i == 0 {
      assert ps[..0] == [];
    } else {
      Slices(ps, i);
      assert Size(ps) == |ps[0]| + Size(ps[1..]);
      CutAt(ps[1..], n - |ps[0]|, i - 1, k);
    }
  }

  /** If a read is full inside a piece, the rest of that piece alone waits for the next reader, and
      the pieces after it for its turn. */
  lemma CutPieceWaitsAlone(s: Pipe, ps: seq<seq<byte>>, i: nat, k: nat)
    requires s.st.BlockedRead? && EndsInside(ps, s.st.room, i, k)
    ensures WriteStep(s, ps).st == BlockedWrite([ps[i][k..]]) && WriteStep(s, ps).later == ps[i + 1..]
  {
    CutAt(ps, s.st.room, i, k);
    hide Flatten, Drop, Cuts;
  }

  /** If a waiting pump is full inside a piece, the rest of that piece is written next, and the
      pieces after it when that is done. */
  lemma CutPieceIsWrittenNext(s: Pipe, ps: seq<seq<byte>>, i: nat, k: nat)
    requires s.st.BlockedPumpTo? && s.st.pumpedSoFar < s.st.amount
    requires EndsInside(ps, s.st.amount - s.st.pumpedSoFar, i, k)
    ensures var j := WriteStep(s, ps).job; j.FillOut? && j.now == ps[i][k..] && j.more == ps[i + 1..]
  {
    CutAt(ps, s.st.amount - s.st.pumpedSoFar, i, k);
    hide Flatten, Drop, Cuts, FillChunks;
  }

  // ---------------------------------------------------------------------------
  // Pumps to an output and writes that meet.

  function Outputs(n: nat): seq<Event> {
    seq(n, _ => OutputWritten)
  }

  lemma OutputsCons(s: Pipe, n: nat)
    requires Enabled(s, OutputWritten) && n > 0 && AllEnabled(Step(s, OutputWritten), Outputs(n - 1))
    ensures AllEnabled(s, Outputs(n)) && Run(s, Outputs(n)) == Run(Step(s, OutputWritten), Outputs(n - 1))
  {
    assert Outputs(n)[1..] == Outputs(n - 1) && Outputs(n)[0] == OutputWritten;
    hide Step, Enabled;
  }

  lemma NoOutputs(s: Pipe)
    ensures AllEnabled(s, Outputs(0)) && Run(s, Outputs(0)) == s
  {
  }

  ghost predicate DrainedTo(s: Pipe, t: Pipe) {
    && s.job.DrainOut? && s.reader.Pumping?
    && var DrainOut(chunks, _, amount, actual) := s.job;
       var Pumping(start, wanted, acc) := s.reader;
       && t.delivered == s.delivered + Flatten(chunks)
       && (if actual == amount then t.reader == PumpDone(start, wanted, acc + amount, 0)
           else t.reader == Pumping(start, wanted, acc + actual) && actual < amount &&
                t.st == BlockedPumpTo(amount - actual, 0))
  }

  /** One write of several, and the last one. */
  lemma DrainStep(s: Pipe)
    requires Inv(s) && s.job.DrainOut? && s.reader.Pumping?
    ensures s.job.chunks != [] && Enabled(s, OutputWritten)
    ensures var DrainOut(chunks, rest, amount, actual) := s.job;
            var t := Step(s, OutputWritten);
            if |chunks| == 1 then DrainedTo(s, t)
            else t.delivered == s.delivered + chunks[0] && t.job == DrainOut(chunks[1..], rest, amount, actual) &&
                 t.reader == s.reader
  {
    JobMode(s);
    DrainOk(s);
    if |s.job.chunks| == 1 { FlattenOne(s.job.chunks[0]); assert s.job.chunks == [s.job.chunks[0]]; }
    hide Inv, Flatten;
  }

  lemma DrainedToFirst(s: Pipe, t: Pipe, u: Pipe)
    requires s.job.DrainOut? && s.job.chunks != [] && t.reader == s.reader && DrainedTo(t, u)
    requires t.job == DrainOut(s.job.chunks[1..], s.job.rest, s.job.amount, s.job.actual)
    requires t.delivered == s.delivered + s.job.chunks[0]
    ensures DrainedTo(s, u)
  {
    var chunks := s.job.chunks;
    assert (s.delivered + chunks[0]) + Flatten(chunks[1..]) == s.delivered + Flatten(chunks);
    hide Flatten;
  }

  /** The writes of a drain complete one by one. */
  lemma {:induction false} DrainRun(s: Pipe)
    requires Inv(s) && s.job.DrainOut?
    ensures AllEnabled(s, Outputs(|s.job.chunks|)) && DrainedTo(s, Run(s, Outputs(|s.job.chunks|)))
    decreases if s.job.DrainOut? then |s.job.chunks| else 0
  {
    JobWriter(s);
    DrainStep(s);
    StepInv(s, OutputWritten);
    hide Inv, Step, Enabled, DrainedTo, Run, AllEnabled;
    var chunks, t := s.job.chunks, Step(s, OutputWritten);
    if |chunks| > 1 {
      DrainRun(t);
      DrainedToFirst(s, t, Run(t, Outputs(|chunks| - 1)));
    } else {
      NoOutputs(t);
    }
    OutputsCons(s, |chunks|);
  }

  lemma DrainOk(s: Pipe)
    requires Inv(s) && s.job.DrainOut?
    ensures s.job.chunks != [] && s.job.actual <= s.job.amount && (s.job.rest != [] ==> s.job.actual == s.job.amount)
  {
    hide Flatten, Conserved;
  }

  /** A pump to an output that meets a waiting write is given all that it wants of it, in as many
      writes to the output as the pump has planned; it resolves if that is enough, and otherwise
      goes on waiting. */
  lemma PumpTakes(s: Pipe, amount: nat)
    requires Inv(s) && Enabled(s, PumpTo(amount)) && s.st.BlockedWrite? && amount > 0
    ensures var (t, n) := (Step(s, PumpTo(amount)), Min(amount, |InFlight(s)|));
            && t.job.DrainOut?
            && AllEnabled(t, Outputs(|t.job.chunks|))
            && var u := Run(t, Outputs(|t.job.chunks|));
               && u.delivered == s.delivered + InFlight(s)[..n]
               && u.reader == (if n == amount then PumpDone(|s.delivered|, amount, amount, 0)
                               else Pumping(|s.delivered|, amount, n))
               && (n < amount ==> u.st == BlockedPumpTo(amount - n, 0))
  {
    ReaderMode(s);
    WaitingPieces(s);
    DrainChunksFlatten(s.st.pieces, amount);
    var t := Step(s, PumpTo(amount));
    assert InFlight(s) == Flatten(s.st.pieces);
    assert t.job.DrainOut? && t.delivered == s.delivered && t.reader == Pumping(|s.delivered|, amount, 0);
    assert t.job.chunks == DrainChunks(s.st.pieces, amount) && t.job.amount == amount;
    assert t.job.actual == Min(amount, Size(s.st.pieces));
    StepInv(s, PumpTo(amount));
    hide Inv, Step, Flatten, DrainChunks, Enabled;
    DrainRun(t);
  }

  lemma WaitingPieces(s: Pipe)
    requires Inv(s) && s.st.BlockedWrite?
    ensures s.st.pieces != [] && s.st.pieces[0] != []
  {
    hide Flatten, Conserved;
  }

  ghost predicate FilledTo(s: Pipe, t: Pipe) {
    && s.job.FillOut? && s.reader.Pumping? && s.st.BlockedPumpTo?
    && var FillOut(chunks, size, now, more) := s.job;
       var BlockedPumpTo(amount, pumpedSoFar) := s.st;
       && t.delivered == s.delivered + Flatten(chunks)
       && (if pumpedSoFar + size == amount then
             t.reader == PumpDone(s.reader.start, s.reader.amount, s.reader.acc + amount, 0)
           else t.reader == s.reader && t.st == BlockedPumpTo(amount, pumpedSoFar + size))
       && t.writer == if now != [] then Writing(true) else if more != [] then Writing(false) else WriteDone
  }

  lemma FillStep(s: Pipe)
    requires Inv(s) && s.job.FillOut? && s.reader.Pumping?
    ensures s.job.chunks != [] && Enabled(s, OutputWritten) && s.st.BlockedPumpTo?
    ensures var FillOut(chunks, size, now, more) := s.job;
            var t := Step(s, OutputWritten);
            if |chunks| == 1 then FilledTo(s, t)
            else t.delivered == s.delivered + chunks[0] && t.job == FillOut(chunks[1..], size, now, more) &&
                 t.reader == s.reader && t.st == s.st
  {
    JobMode(s);
    FillOk(s);
    if |s.job.chunks| == 1 { FlattenOne(s.job.chunks[0]); assert s.job.chunks == [s.job.chunks[0]]; }
    hide Inv, Flatten;
  }

  lemma FilledToFirst(s: Pipe, t: Pipe, u: Pipe)
    requires s.job.FillOut? && s.job.chunks != [] && t.reader == s.reader && t.st == s.st && FilledTo(t, u)
    requires t.job == FillOut(s.job.chunks[1..], s.job.size, s.job.now, s.job.more)
    requires t.delivered == s.delivered + s.job.chunks[0]
    ensures FilledTo(s, u)
  {
    var chunks := s.job.chunks;
    assert (s.delivered + chunks[0]) + Flatten(chunks[1..]) == s.delivered + Flatten(chunks);
    hide Flatten;
  }

  /** The writes that fill a waiting pump complete one by one. */
  lemma {:induction false} FillRun(s: Pipe)
    requires Inv(s) && s.job.FillOut?
    ensures AllEnabled(s, Outputs(|s.job.chunks|)) && FilledTo(s, Run(s, Outputs(|s.job.chunks|)))
    decreases if s.job.FillOut? then |s.job.chunks| else 0
  {
    JobWriter(s);
    FillStep(s);
    StepInv(s, OutputWritten);
    hide Inv, Step, Enabled, FilledTo, Run, AllEnabled;
    var chunks, t := s.job.chunks, Step(s, OutputWritten);
    if |chunks| > 1 {
      FillRun(t);
      FilledToFirst(s, t, Run(t, Outputs(|chunks| - 1)));
    } else {
      NoOutputs(t);
    }
    OutputsCons(s, |chunks|);
  }

  lemma FillOk(s: Pipe)
    requires Inv(s) && s.job.FillOut?
    ensures s.st.BlockedPumpTo? && s.job.chunks != [] && s.st.pumpedSoFar + s.job.size <= s.st.amount
    ensures s.job.now != [] || s.job.more != [] ==> s.st.pumpedSoFar + s.job.size == s.st.amount
  {
    hide Flatten, Conserved;
  }

  /** A write that meets a waiting pump gives it all that it still wants, in as many writes to the
      output as were planned. */
  lemma WriteFeeds(s: Pipe, e: Event)
    requires Inv(s) && Enabled(s, e) && s.st.BlockedPumpTo? && s.reader.Pumping? && Giving(s, e) != []
    ensures var (t, d, r) := (Step(s, e), Giving(s, e), s.reader);
            var needed := s.st.amount - s.st.pumpedSoFar;
            var n := Min(needed, |d|);
            && t.job.FillOut?
            && AllEnabled(t, Outputs(|t.job.chunks|))
            && var u := Run(t, Outputs(|t.job.chunks|));
               && u.delivered == s.delivered + d[..n]
               && u.reader == (if n == needed then PumpDone(r.start, r.amount, r.acc + s.st.amount, 0) else r)
               && (n < needed ==> u.st == BlockedPumpTo(s.st.amount, s.st.pumpedSoFar + n))
               && (|d| <= needed <==> u.writer == WriteDone)
  {
    QuietMode(s);
    PlannedFill(s, e);
    var t := Step(s, e);
    StepInv(s, e);
    hide Inv, Step, Enabled, Giving, Flatten;
    FillRun(t);
  }

  ghost predicate FillPlanned(s: Pipe, d: seq<byte>, t: Pipe) {
    && s.st.BlockedPumpTo? && s.st.pumpedSoFar < s.st.amount
    && t.job.FillOut? && t.delivered == s.delivered && t.reader == s.reader && t.st == s.st
    && var n := Min(s.st.amount - s.st.pumpedSoFar, |d|);
       && t.job.size == n && Flatten(t.job.chunks) == d[..n]
       && (t.job.now != [] || t.job.more != [] <==> n < |d|)
  }

  lemma PlannedFill(s: Pipe, e: Event)
    requires Inv(s) && Enabled(s, e) && s.st.BlockedPumpTo? && s.st.pumpedSoFar < s.st.amount && Giving(s, e) != []
    ensures FillPlanned(s, Giving(s, e), Step(s, e))
  {
    hide Inv;
    match e
    case Write(data) =>
      var n := Min(s.st.amount - s.st.pumpedSoFar, |data|);
      FlattenOne(data[..n]);
      hide Flatten;
    case WritePieces(ps) =>
      DropFlatten(ps, 0);
      PlannedPieces(s.(offered := s.offered + Flatten(ps)), Drop(ps, 0));
    case Continue =>
      DropFlatten(s.later, 0);
      PlannedPieces(s.(later := []), Drop(s.later, 0));
    hide Flatten, Drop, WriteStep;
  }

  lemma PlannedPieces(s: Pipe, ps: seq<seq<byte>>)
    requires s.st.BlockedPumpTo? && s.st.pumpedSoFar < s.st.amount && ps != []
    ensures FillPlanned(s, Flatten(ps), WriteStep(s, ps))
  {
    var needed := s.st.amount - s.st.pumpedSoFar;
    assert WriteStep(s, ps) == WriteToPump(s, ps, needed);
    hide WriteStep, WriteToPump, Flatten, FillPlanned;
    if Size(ps) <= needed { PlannedAll(s, ps); } else { PlannedSome(s, ps); }
  }

  lemma PlannedAll(s: Pipe, ps: seq<seq<byte>>)
    requires s.st.BlockedPumpTo? && s.st.pumpedSoFar < s.st.amount && Size(ps) <= s.st.amount - s.st.pumpedSoFar
    ensures FillPlanned(s, Flatten(ps), WriteToPump(s, ps, s.st.amount - s.st.pumpedSoFar))
  {
    FlattenOne(Flatten(ps));
    hide Flatten, Drop, Cuts, FillChunks;
  }

  lemma PlannedSome(s: Pipe, ps: seq<seq<byte>>)
    requires s.st.BlockedPumpTo? && s.st.pumpedSoFar < s.st.amount && Size(ps) > s.st.amount - s.st.pumpedSoFar
    ensures FillPlanned(s, Flatten(ps), WriteToPump(s, ps, s.st.amount - s.st.pumpedSoFar))
  {
    var needed := s.st.amount - s.st.pumpedSoFar;
    FillChunksFlatten(ps, needed);
    DropFlatten(ps, needed);
    hide Flatten, Drop, Cuts, FillChunks;
  }

  // ---------------------------------------------------------------------------
  // Writes that resolve.

  /** The last call of the writer was a write; it is in progress, done or rejected. */
  predicate WritesOnly(s: Pipe) {
    IsWrite(s.writer) || s.writer == WriteRejected
  }

  /** In a pipe that is aborted or shut down only the continuation of a write changes the writer. */
  lemma StoppedStep(s: Pipe, e: Event)
    requires Inv(s) && Enabled(s, e) && !IsWriterCall(e) && s.writer.Writing?
    requires s.st.AbortedRead? || s.st == ShutdownedWrite
    ensures var t := Step(s, e);
            && t.st == s.st
            && (e != Continue ==> t.writer == s.writer && t.later == s.later)
            && (e == Continue && Flatten(s.later) == [] ==> t.writer == WriteDone && t.delivered == s.delivered)
            && (e == Continue && Flatten(s.later) != [] ==> t.writer == WriteRejected)
  {
    JobWriter(s);
    StoppedWriting(s);
    if e == Continue { DropFlatten(s.later, 0); }
    hide Inv, Flatten, Drop;
  }

  lemma StoppedWriting(s: Pipe)
    requires Inv(s) && s.writer.Writing? && (s.st.AbortedRead? || s.st == ShutdownedWrite)
    ensures s.writer == Writing(false) && s.delivered + Flatten(s.later) == s.offered
  {
    hide Flatten;
    if s.st == ShutdownedWrite { assert [] + Flatten(s.later) == Flatten(s.later); }
  }

  lemma WriterOnly(s: Pipe, e: Event)
    requires Inv(s) && Enabled(s, e) && !IsWriterCall(e) && WritesOnly(s)
    ensures WritesOnly(Step(s, e)) && (!s.writer.Writing? ==> Step(s, e).writer == s.writer)
  {
    if !s.writer.Writing? {
      RestingStep(s, e);
    } else if s.st.AbortedRead? || s.st == ShutdownedWrite {
      StoppedStep(s, e);
    } else if e == AbortRead {
      AbortRejects(s);
    } else if e == ShutdownWrite {
      ShutdownAnswers(s);
    } else {
      StepOk(s, e);
    }
    hide Inv, Step, Enabled;
  }

  /** A write that resolves has been received, and so has everything before it, aborted or not. */
  ghost predicate Received(s: Pipe) {
    s.writer == WriteDone ==> s.delivered == s.offered
  }

  lemma ReceivedStep(s: Pipe, e: Event)
    requires Inv(s) && Enabled(s, e) && !IsWriterCall(e) && WritesOnly(s) && Received(s)
    ensures WritesOnly(Step(s, e)) && Received(Step(s, e)) && Step(s, e).offered == s.offered
  {
    var t := Step(s, e);
    StepInv(s, e);
    StepHistory(s, e);
    JobWriter(s);
    WriterOnly(s, e);
    NotOffered(s, e);
    assert s.offered + [] == s.offered;
    PrefixKept(t);
    if t.writer == WriteDone {
      if !t.st.AbortedRead? {
        DoneReceived(t);
      } else if s.writer.Writing? {
        if s.st.AbortedRead? {
          StoppedStep(s, e);
          StoppedWriting(s);
          assert s.delivered + [] == s.delivered;
        } else if e == AbortRead {
          AbortRejects(s);
        } else {
          StepOk(s, e);
        }
      }
    }
    hide Inv, Step, Enabled;
  }

  lemma NotOffered(s: Pipe, e: Event)
    requires Inv(s) && Enabled(s, e) && !IsWriterCall(e) && WritesOnly(s)
    ensures Offers(s, e) == []
  {
    JobWriter(s);
    hide Inv;
  }

  lemma PrefixKept(s: Pipe)
    requires Inv(s)
    ensures s.delivered <= s.offered
  {
    hide StateOk, Flatten;
  }

  lemma DoneReceived(s: Pipe)
    requires Inv(s) && s.writer == WriteDone && !s.st.AbortedRead?
    ensures s.delivered == s.offered
  {
    assert s.delivered + ([] + []) == s.delivered;
  }

  lemma {:induction false} ReceivedRun(s: Pipe, es: seq<Event>)
    requires Inv(s) && AllEnabled(s, es) && NoWriterCall(es) && WritesOnly(s) && Received(s)
    ensures Received(Run(s, es)) && Run(s, es).offered == s.offered
    decreases |es|
  {
    hide Inv, Step, Enabled;
    if es != [] {
      ReceivedStep(s, es[0]);
      StepInv(s, es[0]);
      ReceivedRun(Step(s, es[0]), es[1..]);
    }
  }

  /** A write of some bytes that resolves, before or after an abort, was received to the last byte. */
  lemma DoneIsReceived(s: Pipe, e: Event, es: seq<Event>)
    requires Inv(s) && AllEnabled(s, [e] + es) && (e.Write? || e.WritePieces?) && Offers(s, e) != []
    requires NoWriterCall(es) && Run(s, [e] + es).writer == WriteDone
    ensures Run(s, [e] + es).delivered == s.offered + Offers(s, e)
  {
    assert ([e] + es)[1..] == es;
    var t := Step(s, e);
    StepInv(s, e);
    StepHistory(s, e);
    if s.st.AbortedRead? {
      AbortedCalls(s, e);
    } else {
      StepOk(s, e);
      if t.writer == WriteDone { DoneReceived(t); }
    }
    ReceivedRun(t, es);
    hide Inv, Step, Enabled;
  }

  // ---------------------------------------------------------------------------
  // Pumps from an input.

  /** The input has given less than it was asked for: it is at its end. */
  predicate InputEnds(s: Pipe, e: Event) {
    match e
    case InputRead(data) => (s.job.ReadIn? || s.job.ReadInto?) && |data| < s.job.min
    case Pumped(data) => (s.job.PumpIn? || s.job.PumpThrough?) && |data| < s.job.n
    case _ => false
  }

  /** A pump from an input that is not aborted or shut down resolves in a step if and only if the
      input is at its end or all that was asked for has been pumped. */
  lemma PumpInEnds(s: Pipe, e: Event)
    requires Inv(s) && Enabled(s, e) && s.writer.PumpingIn? && !s.st.AbortedRead?
    requires e != AbortRead && e != ShutdownWrite
    ensures EndsIff(s, e)
  {
    PumpingPlace(s);
    match e
    case InputRead(data) => InputEndsIff(s, data);
    case Pumped(data) => PumpedEndsIff(s, data);
    case _ => hide Inv, Flatten, Drop, DrainChunks;
  }

  ghost predicate EndsIff(s: Pipe, e: Event) {
    s.writer.PumpingIn? &&
    var t := Step(s, e);
    t.writer.PumpInDone? <==> InputEnds(s, e) || |t.offered| == s.writer.start + s.writer.amount
  }

  lemma PumpingPlace(s: Pipe)
    requires Inv(s) && s.writer.PumpingIn? && !s.st.AbortedRead?
    ensures s.st.BlockedPumpFrom? || s.st.BlockedRead? || s.st.BlockedPumpTo?
    ensures !s.job.DrainOut? && !s.job.FillOut? && !s.job.CheckEof?
    ensures |s.offered| < s.writer.start + s.writer.amount
  {
    hide Flatten, Conserved;
  }

  lemma InputEndsIff(s: Pipe, data: seq<byte>)
    requires Inv(s) && Enabled(s, InputRead(data)) && s.writer.PumpingIn? && !s.st.AbortedRead?
    ensures EndsIff(s, InputRead(data))
  {
    JobMode(s);
    hide Flatten, Conserved;
  }

  lemma PumpedEndsIff(s: Pipe, data: seq<byte>)
    requires Inv(s) && Enabled(s, Pumped(data)) && s.writer.PumpingIn? && !s.st.AbortedRead?
    ensures EndsIff(s, Pumped(data))
  {
    JobMode(s);
    hide Flatten, Conserved;
  }

  /** The input is asked for no more than the pump and the reader want, and for all they need. */
  lemma InputAsked(s: Pipe)
    requires Inv(s) && s.writer.PumpingIn? && s.job != NoJob && !s.job.CheckEof?
    ensures var left, got := s.writer.start + s.writer.amount - |s.offered|, |s.delivered| - s.reader.start;
            && left > 0
            && (s.reader.Reading? <==> s.job.ReadIn? || s.job.ReadInto?)
            && (s.reader.Reading? ==> s.job.max == Min(left, s.reader.max - got))
            && (s.reader.Reading? ==> s.job.min == Min(left, s.reader.min - got) > 0)
            && (s.reader.Pumping? <==> s.job.PumpIn? || s.job.PumpThrough?)
            && (s.reader.Pumping? ==> s.job.n == Min(left, s.reader.amount - got) > 0)
  {
    JobWriter(s);
    hide Flatten, Conserved;
  }

  // ---------------------------------------------------------------------------
  // Progress.

  /** How many completions and continuations may follow without a new call. */
  function Work(s: Pipe): nat {
    3 * |s.later| +
    match s.job
    case NoJob => 0
    case DrainOut(chunks, _, _, _) => |chunks|
    case FillOut(chunks, _, _, more) => |chunks| + 3 * |more|
    case _ => 1
  }

  predicate IsCompletion(e: Event) {
    e.OutputWritten? || e.InputRead? || e.Pumped? || e.Continue?
  }

  lemma {:induction false} DropShorter(ps: seq<seq<byte>>, n: nat)
    requires n <= Size(ps)
    ensures |Drop(ps, n)| <= |ps|
    ensures n > 0 && !Cuts(ps, n) ==> |Drop(ps, n)| < |ps|
  {
    if ps != [] && n >= |ps[0]| { DropShorter(ps[1..], n - |ps[0]|); }
  }

  lemma FillChunksShort(ps: seq<seq<byte>>, needed: nat)
    ensures |FillChunks(ps, needed)| <= 2
  {
  }

  lemma WriteWork(s: Pipe, ps: seq<seq<byte>>)
    requires ps != [] && s.later == [] && s.job == NoJob
    requires s.st.BlockedRead? ==> s.st.room > 0
    requires s.st.BlockedPumpTo? ==> s.st.pumpedSoFar < s.st.amount
    ensures Work(WriteStep(s, ps)) < 3 * |ps|
  {
    if s.st.BlockedRead? && Size(ps) >= s.st.room { DropShorter(ps, s.st.room); }
    if s.st.BlockedPumpTo? {
      var needed := s.st.amount - s.st.pumpedSoFar;
      FillChunksShort(ps, needed);
      if Size(ps) > needed { DropShorter(ps, needed); }
    }
    hide Flatten, Drop, Cuts, FillChunks;
  }

  /** Every completion and every continuation brings the pipe closer to rest. */
  lemma WorkDrops(s: Pipe, e: Event)
    requires Inv(s) && Enabled(s, e) && IsCompletion(e)
    ensures Work(Step(s, e)) < Work(s)
  {
    match e
    case OutputWritten => OutputWork(s);
    case InputRead(data) => InputWork(s, data);
    case Pumped(data) => PumpedWork(s, data);
    case Continue => ContinueWork(s);
    hide Inv, Step, Enabled, Work;
  }

  lemma ContinueWork(s: Pipe)
    requires Inv(s) && s.writer == Writing(false)
    ensures Work(ContinueStep(s)) < Work(s)
  {
    QuietMode(s);
    ContinueRoom(s);
    DropShorter(s.later, 0);
    var ps := Drop(s.later, 0);
    if ps != [] { WriteWork(s.(later := []), ps); }
    hide Inv, WriteStep, Drop, Flatten;
  }

  lemma ContinueRoom(s: Pipe)
    requires Inv(s) && s.writer == Writing(false)
    ensures s.later != [] && (s.st.BlockedRead? ==> s.st.room > 0)
  {
    hide Flatten, Conserved;
  }

  lemma OutputWork(s: Pipe)
    requires Inv(s) && Enabled(s, OutputWritten)
    ensures Work(Step(s, OutputWritten)) < Work(s)
  {
    JobMode(s);
    if s.job.DrainOut? { DrainOk(s); } else { FillOk(s); FillLater(s); }
    hide Inv, Flatten;
  }

  lemma FillLater(s: Pipe)
    requires Inv(s) && s.job.FillOut?
    ensures s.later == []
  {
    hide Flatten, Conserved;
  }

  lemma InputWork(s: Pipe, data: seq<byte>)
    requires Inv(s) && Enabled(s, InputRead(data))
    ensures Work(Step(s, InputRead(data))) < Work(s)
  {
    JobMode(s);
    hide Flatten, Conserved;
  }

  lemma PumpedWork(s: Pipe, data: seq<byte>)
    requires Inv(s) && Enabled(s, Pumped(data))
    ensures Work(Step(s, Pumped(data))) < Work(s)
  {
    JobMode(s);
    hide Flatten, Conserved;
  }

  /** Only so many completions can follow one another. */
  lemma {:induction false} CompletionsBounded(s: Pipe, es: seq<Event>)
    requires Inv(s) && AllEnabled(s, es) && forall i | 0 <= i < |es| :: IsCompletion(es[i])
    ensures |es| + Work(Run(s, es)) <= Work(s)
    decreases |es|
  {
    hide Inv, Step, Enabled, Work;
    if es != [] {
      WorkDrops(s, es[0]);
      StepInv(s, es[0]);
      CompletionsBounded(Step(s, es[0]), es[1..]);
    }
  }
}
