/** The in-process pipe as the program runs it (libraries/zc/async/async-io.cc): loops over
    buffers and pieces, and hand-offs from one state object to the next. Every method is
    proved to take exactly the step of PipeSpec, so that all runs have PipePromises. */
module PipeMachine {
  import opened Bytes
  import opened PipeSpec
  import opened PipeProof
  import PipePromises
  import opened Wrappers

  lemma DropFirst(p: seq<byte>, ps: seq<seq<byte>>, n: nat)
    requires |p| <= n
    ensures Flatten([p] + ps) == p + Flatten(ps)
    ensures n <= Size([p] + ps) ==> Drop([p] + ps, n) == Drop(ps, n - |p|)
    ensures Cuts([p] + ps, n) <==> Cuts(ps, n - |p|)
  {
    FlattenCons(p, ps);
    assert ([p] + ps)[1..] == ps;
  }

  lemma DropInside(p: seq<byte>, ps: seq<seq<byte>>, n: nat)
    requires n < |p|
    ensures Flatten([p] + ps) == p + Flatten(ps)
    ensures Drop([p] + ps, n) == [p[n..]] + ps
    ensures Cuts([p] + ps, n) <==> n > 0
  {
    FlattenCons(p, ps);
    assert ([p] + ps)[1..] == ps;
  }

  /** BlockedWrite::tryReadImpl's loop: copies whole pieces while they fit, then part of the next one. */
  method CopyOut(pieces: seq<seq<byte>>, maxBytes: nat) returns (read: seq<byte>, rest: seq<seq<byte>>)
    requires pieces != []
    ensures read == Flatten(pieces)[..Min(maxBytes, Size(pieces))]
    ensures rest == if maxBytes < Size(pieces) then Drop(pieces, maxBytes) else []
  {
    hide Flatten, Drop, Cuts;
    var writeBuffer, morePieces := pieces[0], pieces[1..];
    var room: nat := maxBytes;
    read := [];
    assert [writeBuffer] + morePieces == pieces;
    while room >= |writeBuffer|
      invariant Flatten(pieces) == read + Flatten([writeBuffer] + morePieces)
      invariant |read| + room == maxBytes
      invariant maxBytes <= Size(pieces) ==> Drop(pieces, maxBytes) == Drop([writeBuffer] + morePieces, room)
      decreases |morePieces|
    {
      DropFirst(writeBuffer, morePieces, room);
      read := read + writeBuffer;
      room := room - |writeBuffer|;
      if morePieces == [] {
        NothingLeft([]);
        assert Flatten(pieces) == read;
        return read, [];
      }
      assert morePieces == [morePieces[0]] + morePieces[1..];
      writeBuffer := morePieces[0];
      morePieces := morePieces[1..];
    }
    DropInside(writeBuffer, morePieces, room);
    read := read + writeBuffer[..room];
    rest := [writeBuffer[room..]] + morePieces;
  }

  /** BlockedRead::writeImpl's loop: fills the read buffer until the pieces or the room run out.
      If the room runs out, what is left of the current piece and the pieces after it come back. */
  method CopyIn(pieces: seq<seq<byte>>, space: nat)
    returns (taken: seq<byte>, full: bool, data: seq<byte>, moreData: seq<seq<byte>>)
    requires pieces != [] && space > 0
    ensures full <==> Size(pieces) >= space
    ensures taken == Flatten(pieces)[..Min(space, Size(pieces))]
    ensures full ==> (data != [] <==> Cuts(pieces, space))
    ensures full && data != [] ==> Drop(pieces, space) == [data] + moreData
    ensures full && data == [] ==> Drop(pieces, space) == Drop(moreData, 0)
  {
    hide Flatten, Drop, Cuts;
    data, moreData := pieces[0], pieces[1..];
    taken := [];
    var room: nat := space;
    assert [data] + moreData == pieces;
    while true
      invariant Flatten(pieces) == taken + Flatten([data] + moreData)
      invariant |taken| + room == space && room > 0
      invariant space <= Size(pieces) ==> Drop(pieces, space) == Drop([data] + moreData, room)
      invariant Cuts(pieces, space) <==> Cuts([data] + moreData, room)
      decreases |moreData|
    {
      if |data| < room {
        DropFirst(data, moreData, room);
        taken := taken + data;
        room := room - |data|;
        if moreData == [] {
          NothingLeft([]);
          assert Flatten(pieces) == taken;
          return taken, false, [], [];
        }
        assert moreData == [moreData[0]] + moreData[1..];
        data, moreData := moreData[0], moreData[1..];
      } else {
        full := true;
        if room < |data| {
          DropInside(data, moreData, room);
        } else {
          DropFirst(data, moreData, room);
          NoCutAtZero(moreData);
        }
        taken := taken + data[..room];
        data := data[room..];
        return;
      }
    }
  }

  lemma {:induction false} NoCutAtZero(ps: seq<seq<byte>>)
    ensures !Cuts(ps, 0)
  {
    if ps != [] && |ps[0]| == 0 { NoCutAtZero(ps[1..]); }
  }

  /** Leading empty pieces are skipped. */
  method SkipEmpty(pieces: seq<seq<byte>>) returns (rest: seq<seq<byte>>)
    ensures rest == Drop(pieces, 0)
  {
    rest := pieces;
    while |rest| > 0 && rest[0] == []
      invariant Drop(pieces, 0) == Drop(rest, 0)
      decreases |rest|
    {
      rest := rest[1..];
    }
    if rest != [] { assert rest == [rest[0][0..]] + rest[1..]; }
  }

  /** How many leading pieces an amount covers, and how many bytes they have. */
  method CountCovered(pieces: seq<seq<byte>>, amount: nat) returns (i: nat, actual: nat)
    ensures i == Covered(pieces, amount) && actual == Size(pieces[..i])
  {
    i, actual := 0, 0;
    assert pieces[..0] == [] && pieces[0..] == pieces;
    while i < |pieces| && amount >= actual + |pieces[i]|
      invariant i <= |pieces| && actual == Size(pieces[..i]) <= amount
      invariant Covered(pieces, amount) == i + Covered(pieces[i..], amount - actual)
    {
      assert pieces[i..][0] == pieces[i] && pieces[i..][1..] == pieces[i + 1..];
      assert pieces[..i + 1] == pieces[..i] + [pieces[i]];
      FlattenConcat(pieces[..i], [pieces[i]]);
      FlattenOne(pieces[i]);
      actual := actual + |pieces[i]|;
      i := i + 1;
    }
    if i < |pieces| { assert pieces[i..][0] == pieces[i]; }
  }

  /** BlockedPumpTo::write(pieces): the pieces the pump still needs go out whole, then the part
      of the next one that it needs; what stays is written later, a cut piece on its own. */
  method FillPlan(pieces: seq<seq<byte>>, needed: nat)
    returns (chunks: seq<seq<byte>>, size: nat, now: seq<byte>, more: seq<seq<byte>>)
    ensures Size(pieces) <= needed ==> chunks == [Flatten(pieces)] && size == Size(pieces) && now == [] && more == []
    ensures Size(pieces) > needed ==>
              && chunks == FillChunks(pieces, needed) && size == needed
              && var rest := Drop(pieces, needed);
                 rest != [] &&
                 if Cuts(pieces, needed) then now == rest[0] && more == rest[1..] else now == [] && more == rest
  {
    var i, actual := CountCovered(pieces, needed);
    CoveredSplit(pieces, needed);
    if i == |pieces| {
      assert pieces[..i] == pieces;
      return [Flatten(pieces)], actual, [], [];
    }
    DropCovered(pieces, needed);
    var n := needed - actual;
    chunks, size := [Flatten(pieces[..i])], needed;
    if n > 0 {
      chunks := chunks + [pieces[i][..n]];
      now, more := pieces[i][n..], pieces[i + 1..];
    } else {
      now, more := [], pieces[i..];
      assert pieces[i..] == [pieces[i][0..]] + pieces[i + 1..];
    }
    hide Flatten, Drop, Cuts, Covered;
  }

  /** BlockedWrite::pumpTo: the first piece goes out on its own, the further whole ones together,
      then the part of the next one that the pump still covers. */
  method DrainPlan(pieces: seq<seq<byte>>, amount: nat)
    returns (chunks: seq<seq<byte>>, rest: seq<seq<byte>>, actual: nat)
    requires pieces != [] && pieces[0] != []
    ensures chunks == DrainChunks(pieces, amount) && rest == Drop(pieces, Min(amount, Size(pieces)))
    ensures actual == Min(amount, Size(pieces))
  {
    var writeBuffer, morePieces := pieces[0], pieces[1..];
    CoveredSplit(pieces, amount);
    if amount < |writeBuffer| {
      return [writeBuffer[..amount]], [writeBuffer[amount..]] + morePieces, amount;
    }
    var i, n := CountCovered(morePieces, amount - |writeBuffer|);
    Slices(pieces, i + 1);
    DrainParts(pieces, amount, i);
    hide Covered, Drop, DrainChunks, Flatten;
    actual := |writeBuffer| + n;
    chunks := [writeBuffer];
    if i > 0 { chunks := chunks + [Flatten(morePieces[..i])]; }
    if i == |morePieces| {
      rest := [];
    } else {
      var left := amount - actual;
      rest := [morePieces[i][left..]] + morePieces[i + 1..];
      if left > 0 { chunks := chunks + [morePieces[i][..left]]; }
      actual := amount;
    }
  }

  /** The writes of a drain in terms of the pieces after the first. */
  lemma DrainParts(ps: seq<seq<byte>>, amount: nat, i: nat)
    requires ps != [] && |ps[0]| <= amount && i == Covered(ps[1..], amount - |ps[0]|)
    ensures var more, done := ps[1..], |ps[0]| + Size(ps[1..][..i]);
            && Size(ps[..i + 1]) == done <= amount
            && (i == |more| <==> Size(ps) <= amount)
            && (i == |more| ==> Size(ps) == done && Drop(ps, Min(amount, Size(ps))) == [])
            && (i < |more| ==> amount - done < |more[i]| &&
                               Drop(ps, amount) == [more[i][amount - done..]] + more[i + 1..])
            && DrainChunks(ps, amount) ==
               [ps[0]] + (if i > 0 then [Flatten(more[..i])] else []) +
               (if i < |more| && 0 < amount - done then [more[i][..amount - done]] else [])
  {
    CoveredSplit(ps, amount);
    Slices(ps, i + 1);
    assert Covered(ps, amount) == i + 1;
    assert ps[1..i + 1] == ps[1..][..i];
    if i + 1 == |ps| {
      assert ps[..i + 1] == ps;
      DropAll(ps);
    } else {
      DropCovered(ps, amount);
    }
    hide Covered, Drop, Flatten;
  }

  lemma {:induction false} Extend(s: Pipe, es: seq<Event>, e: Event)
    requires AllEnabled(s, es) && Enabled(Run(s, es), e)
    ensures AllEnabled(s, es + [e]) && Run(s, es + [e]) == Step(Run(s, es), e)
    decreases |es|
  {
    hide Enabled, Step;
    if es == [] {
      assert ([] + [e])[1..] == [];
    } else {
      assert (es + [e])[0] == es[0] && (es + [e])[1..] == es[1..] + [e];
      Extend(Step(s, es[0]), es[1..], e);
    }
  }

  /** The state after a run of these events. */
  ghost predicate Reached(es: seq<Event>, s: Pipe) {
    AllEnabled(Init, es) && Run(Init, es) == s
  }

  class AsyncPipe {
    var state: Mode
    var job: Job
    var later: seq<seq<byte>>
    var reader: Reader
    var writer: Writer
    var offered: seq<byte>
    var delivered: seq<byte>
    var dropped: seq<byte>
    /** The events so far. */
    ghost var events: seq<Event>

    function View(): Pipe
      reads this
    {
      Pipe(state, job, later, reader, writer, offered, delivered, dropped)
    }

    /** The object is where the events so far have led the machine. */
    ghost predicate Valid()
      reads this
    {
      Inv(View()) && Reached(events, View())
    }

    lemma Advance(e: Event)
      requires Valid() && Enabled(View(), e)
      ensures Inv(Step(View(), e)) && Reached(events + [e], Step(View(), e))
    {
      hide Inv, Step;
      StepInv(View(), e);
      Extend(Init, events, e);
    }

    constructor ()
      ensures Valid() && View() == Init && events == []
    {
      state, job, later, reader, writer := NoState, NoJob, [], ReadNone, WriteNone;
      offered, delivered, dropped, events := [], [], [], [];
    }

    /** What is proved of runs holds of the object; for one, that it is a first-in first-out stream. */
    lemma InOrder()
      requires Valid() && !state.AbortedRead?
      ensures delivered + (Remainder(View()) + PipePromises.AllDrops(Init, events)) ==
              PipePromises.AllOffers(Init, events)
    {
      hide Inv, Remainder;
      PipePromises.Fifo(events);
    }

    method FulfillRead(n: nat)
      modifies `reader
      ensures View() == ResolveRead(old(View()), n)
    {
      match reader
      case Reading(start, min, max, acc) => reader := ReadDone(start, min, max, acc + n);
      case Pumping(start, amount, acc) => reader := PumpDone(start, amount, acc + n, 0);
      case _ =>
    }

    /** A waiting pump resolves with what it counts; `sent` more bytes have gone out. */
    method FulfillPumpedSoFar(pumpedSoFar: nat, sent: nat)
      modifies `reader
      ensures View() == CutPump(old(View()), pumpedSoFar, sent)
    {
      match reader
      case Pumping(start, amount, acc) => reader := PumpDone(start, amount, acc + pumpedSoFar, sent);
      case _ =>
    }

    method FulfillPart()
      modifies `writer
      ensures View() == ResolvePart(old(View()))
    {
      if later == [] { writer := WriteDone; } else { writer := Writing(false); }
    }

    method FulfillPump(n: nat)
      modifies `writer
      ensures View() == ResolvePumpIn(old(View()), n)
    {
      match writer
      case PumpingIn(start, amount, acc, lost) => writer := PumpInDone(start, amount, acc + n, lost);
      case _ =>
    }

    /** The reader's promise is chained to that of a further call. */
    method ChainRead(n: nat)
      modifies `reader
      ensures View() == CarryRead(old(View()), n)
    {
      match reader
      case Reading(start, min, max, acc) => reader := Reading(start, min, max, acc + n);
      case Pumping(start, amount, acc) => reader := Pumping(start, amount, acc + n);
      case _ =>
    }

    /** The pump's promise is chained to that of a further call. */
    method ChainPump(counted: nat, lost: nat)
      modifies `writer
      ensures View() == CarryPump(old(View()), counted, lost)
    {
      match writer
      case PumpingIn(start, amount, acc, uncounted) =>
        writer := PumpingIn(start, amount, acc + counted, uncounted + lost);
      case _ =>
    }

    method EndState()
      modifies `state
      ensures state == NoState
    {
      state := NoState;
    }

    /** tryRead on a pipe without state. */
    method AwaitWrite(minBytes: nat, maxBytes: nat)
      requires state == NoState
      modifies `state
      ensures state == BlockedRead(0, minBytes, maxBytes)
    {
      state := BlockedRead(0, minBytes, maxBytes);
    }

    /** write on a pipe without state. */
    method AwaitRead(pieces: seq<seq<byte>>)
      requires state == NoState
      modifies `state, `writer
      ensures View() == Park(old(View()), pieces)
    {
      state, writer := BlockedWrite(pieces), Writing(true);
    }

    /** pumpTo on a pipe without state. */
    method PumpAgain(amount: nat)
      requires state == NoState
      modifies `state, `reader
      ensures View() == AwaitPump(old(View()), amount)
    {
      if amount == 0 { FulfillRead(0); } else { state := BlockedPumpTo(amount, 0); }
    }

    method TryRead(minBytes: nat, maxBytes: nat)
      requires Valid() && Enabled(View(), Event.TryRead(minBytes, maxBytes))
      modifies this
      ensures Valid() && View() == Step(old(View()), Event.TryRead(minBytes, maxBytes))
      ensures events == old(events) + [Event.TryRead(minBytes, maxBytes)]
    {
      Advance(Event.TryRead(minBytes, maxBytes));
      events := events + [Event.TryRead(minBytes, maxBytes)];
      hide Inv, Reached, Flatten, Drop;
      if minBytes == 0 {
        reader := ReadDone(|delivered|, minBytes, maxBytes, 0);
      } else if state.AbortedRead? {
        reader := ReadRejected;
      } else {
        CanRead();
        reader := Reading(|delivered|, minBytes, maxBytes, 0);
        match state
        case NoState => AwaitWrite(minBytes, maxBytes);
        case BlockedWrite(pieces) => ReadWaiting(pieces, minBytes, maxBytes);
        case BlockedPumpFrom(amount, pumpedSoFar) =>
          var pumpLeft := amount - pumpedSoFar;
          job := ReadIn(Min(pumpLeft, minBytes), Min(pumpLeft, maxBytes), minBytes, maxBytes);
        case ShutdownedWrite => FulfillRead(0);
      }
    }

    /** What the pipe's callers rely on when no read is in progress. */
    lemma CanRead()
      requires Inv(View()) && ReaderIdle(View())
      ensures !state.BlockedRead? && !state.BlockedPumpTo?
      ensures state.BlockedWrite? ==> state.pieces != [] && state.pieces[0] != []
      ensures state.BlockedPumpFrom? ==> state.pumpedSoFar < state.amount
    {
    }

    /** BlockedWrite::tryRead: a retry goes to the pipe, which by then has no state. */
    method ReadWaiting(pieces: seq<seq<byte>>, minBytes: nat, maxBytes: nat)
      requires state == BlockedWrite(pieces) && pieces != []
      modifies `state, `reader, `writer, `delivered
      ensures View() == ReadMeets(old(View()), pieces, minBytes, maxBytes)
    {
      hide Flatten, Drop;
      if maxBytes < Size(pieces) { DropFlatten(pieces, maxBytes); }
      var read, rest := CopyOut(pieces, maxBytes);
      delivered := delivered + read;
      if rest == [] {
        FinishWrite(|read|, minBytes, maxBytes);
      } else {
        state := BlockedWrite(rest);
        FulfillRead(|read|);
      }
    }

    /** The read has taken all that was waiting: the write is done, and so is the read or it goes on. */
    method FinishWrite(totalRead: nat, minBytes: nat, maxBytes: nat)
      requires totalRead <= maxBytes
      modifies `state, `reader, `writer
      ensures var t := ResolvePart(old(View())).(st := NoState);
              View() == if totalRead >= minBytes then ResolveRead(t, totalRead)
                        else CarryRead(t, totalRead).(st := BlockedRead(0, minBytes - totalRead, maxBytes - totalRead))
    {
      FulfillPart();
      EndState();
      if totalRead >= minBytes {
        FulfillRead(totalRead);
      } else {
        ChainRead(totalRead);
        AwaitWrite(minBytes - totalRead, maxBytes - totalRead);
      }
    }

    method PumpTo(amount: nat)
      requires Valid() && Enabled(View(), Event.PumpTo(amount))
      modifies this
      ensures Valid() && View() == Step(old(View()), Event.PumpTo(amount))
      ensures events == old(events) + [Event.PumpTo(amount)]
    {
      Advance(Event.PumpTo(amount));
      events := events + [Event.PumpTo(amount)];
      hide Inv, Reached, Flatten, Drop, DrainChunks;
      if amount == 0 {
        reader := PumpDone(|delivered|, 0, 0, 0);
      } else if state.AbortedRead? {
        reader := ReadRejected;
      } else {
        CanRead();
        reader := Pumping(|delivered|, amount, 0);
        match state
        case NoState => PumpAgain(amount);
        case BlockedWrite(pieces) =>
          var chunks, rest, actual := DrainPlan(pieces, amount);
          job := DrainOut(chunks, rest, amount, actual);
        case BlockedPumpFrom(amount', pumpedSoFar) => job := PumpIn(Min(amount, amount' - pumpedSoFar), amount);
        case ShutdownedWrite => FulfillRead(0);
      }
    }

    /** Canceler::cancel */
    method CancelJob()
      modifies `job, `later, `reader, `writer
      ensures View() == Cancel(old(View()))
    {
      if job.DrainOut? || job.ReadIn? || job.PumpIn? {
        job, reader := NoJob, ReadRejected;
      } else if job.FillOut? || job.ReadInto? || job.PumpThrough? {
        job, writer, later := NoJob, WriteRejected, [];
      }
    }

    method AbortRead()
      requires Valid()
      modifies this
      ensures Valid() && View() == Step(old(View()), Event.AbortRead)
      ensures events == old(events) + [Event.AbortRead]
    {
      Advance(Event.AbortRead);
      events := events + [Event.AbortRead];
      hide Inv, Reached;
      AbortState();
    }

    /** abortRead of each state object */
    method AbortState()
      modifies `state, `job, `later, `reader, `writer
      ensures View() == AbortStep(old(View()))
    {
      hide Cancel;
      match state
      case NoState => state := AbortedRead;
      case BlockedWrite(_) =>
        CancelJob();
        writer, later := WriteRejected, [];
        EndState();
        state := AbortedRead;
      case BlockedPumpFrom(_, pumpedSoFar) =>
        CancelJob();
        job := CheckEof(pumpedSoFar);
        EndState();
        state := AbortedRead;
      case BlockedRead(_, _, _) =>
        CancelJob();
        reader := ReadRejected;
        EndState();
        state := AbortedRead;
      case BlockedPumpTo(_, _) =>
        CancelJob();
        reader := ReadRejected;
        EndState();
        state := AbortedRead;
      case _ =>
    }

    method Write(buffer: seq<byte>)
      requires Valid() && Enabled(View(), Event.Write(buffer))
      modifies this
      ensures Valid() && View() == Step(old(View()), Event.Write(buffer))
      ensures events == old(events) + [Event.Write(buffer)]
    {
      Advance(Event.Write(buffer));
      events := events + [Event.Write(buffer)];
      CanWrite();
      hide Inv, Reached;
      WriteBuffer(buffer);
    }

    method WriteBuffer(buffer: seq<byte>)
      requires state.NoState? || state.BlockedRead? || state.BlockedPumpTo? || state.AbortedRead?
      requires state.BlockedRead? ==> state.room > 0
      requires state.BlockedPumpTo? ==> state.pumpedSoFar < state.amount
      modifies `state, `job, `later, `reader, `writer, `offered, `delivered, `dropped
      ensures View() == WriteOneStep(old(View()), buffer)
    {
      hide WriteStep;
      if buffer == [] {
        writer := WriteDone;
      } else {
        offered := offered + buffer;
        if state.BlockedPumpTo? {
          var actual := Min(state.amount - state.pumpedSoFar, |buffer|);
          job, writer := FillOut([buffer[..actual]], actual, buffer[actual..], []), Writing(true);
        } else {
          WriteOn([buffer]);
        }
      }
    }

    /** What the pipe's callers rely on when no write is in progress. */
    lemma CanWrite()
      requires Inv(View()) && (WriterIdle(View()) || writer == Writing(false))
      ensures !state.BlockedWrite? && !state.BlockedPumpFrom?
      ensures state.BlockedRead? ==> state.byteCount < state.minBytes && state.room > 0
      ensures state.BlockedPumpTo? ==> state.pumpedSoFar < state.amount
    {
      hide Flatten;
    }

    method WritePieces(pieces: seq<seq<byte>>)
      requires Valid() && Enabled(View(), Event.WritePieces(pieces))
      modifies this
      ensures Valid() && View() == Step(old(View()), Event.WritePieces(pieces))
      ensures events == old(events) + [Event.WritePieces(pieces)]
    {
      Advance(Event.WritePieces(pieces));
      events := events + [Event.WritePieces(pieces)];
      CanWrite();
      hide Inv, Reached;
      WriteBuffers(pieces);
    }

    method WriteBuffers(pieces: seq<seq<byte>>)
      requires !state.BlockedWrite? && !state.BlockedPumpFrom? && !state.ShutdownedWrite?
      requires state.BlockedRead? ==> state.room > 0
      requires state.BlockedPumpTo? ==> state.pumpedSoFar < state.amount
      modifies `state, `job, `later, `reader, `writer, `offered, `delivered, `dropped
      ensures View() == WritePiecesStep(old(View()), pieces)
    {
      hide WriteStep, Flatten, Drop;
      var rest := SkipEmpty(pieces);
      if rest == [] {
        writer := WriteDone;
      } else {
        offered := offered + Flatten(pieces);
        WriteOn(rest);
      }
    }

    /** A write meets the pipe's state. */
    method WriteOn(pieces: seq<seq<byte>>)
      requires pieces != []
      requires !state.BlockedWrite? && !state.BlockedPumpFrom?
      requires state.BlockedRead? ==> state.room > 0
      requires state.BlockedPumpTo? ==> state.pumpedSoFar < state.amount
      modifies `state, `job, `later, `reader, `writer, `offered, `delivered, `dropped
      ensures View() == WriteStep(old(View()), pieces)
    {
      hide WriteFits, WriteFills, WriteToPump, Flatten;
      match state
      case NoState => AwaitRead(pieces);
      case BlockedRead(byteCount, minBytes, room) => WriteIntoRead(pieces, byteCount, minBytes, room);
      case BlockedPumpTo(amount, pumpedSoFar) => WriteIntoPump(pieces, amount - pumpedSoFar);
      case AbortedRead => writer, later := WriteRejected, [];
      case ShutdownedWrite => writer, later, dropped := WriteRejected, [], dropped + Flatten(pieces);
    }

    /** BlockedRead::write: a retry goes to the pipe, which by then has no state; if a piece was
        cut the rest of it is written alone, and the remaining pieces in a continuation. */
    method WriteIntoRead(pieces: seq<seq<byte>>, byteCount: nat, minBytes: nat, room: nat)
      requires pieces != [] && state == BlockedRead(byteCount, minBytes, room) && room > 0
      modifies `state, `job, `later, `reader, `writer, `offered, `delivered
      ensures View() == if Size(pieces) < room then WriteFits(old(View()), pieces) else WriteFills(old(View()), pieces)
    {
      hide Flatten, Drop, Cuts, WriteFits, WriteFills;
      var taken, full, data, moreData := CopyIn(pieces, room);
      if full {
        FillRead(pieces, taken, data, moreData);
      } else {
        FeedRead(pieces, taken);
      }
    }

    /** The waiting read has taken all the pieces and has room left. */
    method FeedRead(pieces: seq<seq<byte>>, taken: seq<byte>)
      requires state.BlockedRead? && Size(pieces) < state.room && taken == Flatten(pieces)
      modifies `state, `job, `later, `reader, `writer, `offered, `delivered
      ensures View() == WriteFits(old(View()), pieces)
    {
      hide Flatten;
      delivered := delivered + taken;
      var readSoFar := state.byteCount + |taken|;
      FulfillPart();
      if readSoFar >= state.minBytes {
        FulfillRead(readSoFar);
        EndState();
      } else {
        state := BlockedRead(readSoFar, state.minBytes, state.room - |taken|);
      }
    }

    /** The waiting read is full, with `data` left of one piece and `moreData` after it. */
    method FillRead(pieces: seq<seq<byte>>, taken: seq<byte>, data: seq<byte>, moreData: seq<seq<byte>>)
      requires state.BlockedRead? && Size(pieces) >= state.room && taken == Flatten(pieces)[..state.room]
      requires data != [] <==> Cuts(pieces, state.room)
      requires Drop(pieces, state.room) == if data != [] then [data] + moreData else Drop(moreData, 0)
      modifies `state, `job, `later, `reader, `writer, `offered, `delivered
      ensures View() == WriteFills(old(View()), pieces)
    {
      hide Flatten, Drop, Cuts;
      delivered := delivered + taken;
      FulfillRead(state.byteCount + state.room);
      EndState();
      if data == [] {
        var rest := SkipEmpty(moreData);
        if rest == [] { FulfillPart(); } else { AwaitRead(rest); }
      } else {
        later := moreData;
        AwaitRead([data]);
      }
    }

    method WriteIntoPump(pieces: seq<seq<byte>>, needed: nat)
      requires pieces != [] && state.BlockedPumpTo?
      modifies `state, `job, `later, `reader, `writer, `offered, `delivered
      ensures View() == WriteToPump(old(View()), pieces, needed)
    {
      hide Flatten, Drop, Cuts, FillChunks;
      var chunks, size, now, more := FillPlan(pieces, needed);
      job, writer := FillOut(chunks, size, now, more), Writing(true);
    }

    /** A gather-write goes on with the pieces after the one that was cut. */
    method Continue()
      requires Valid() && Enabled(View(), Event.Continue)
      modifies this
      ensures Valid() && View() == Step(old(View()), Event.Continue)
      ensures events == old(events) + [Event.Continue]
    {
      Advance(Event.Continue);
      events := events + [Event.Continue];
      hide Inv, Reached, WriteStep, Flatten, Drop;
      CanWrite();
      var rest := SkipEmpty(later);
      later := [];
      if rest == [] { FulfillPart(); } else { WriteOn(rest); }
    }

    method TryPumpFrom(amount: nat, supported: bool)
      requires Valid() && Enabled(View(), Event.TryPumpFrom(amount, supported))
      modifies this
      ensures Valid() && View() == Step(old(View()), Event.TryPumpFrom(amount, supported))
      ensures events == old(events) + [Event.TryPumpFrom(amount, supported)]
    {
      Advance(Event.TryPumpFrom(amount, supported));
      events := events + [Event.TryPumpFrom(amount, supported)];
      CanWrite();
      hide Inv, Reached;
      if amount == 0 {
        writer := PumpInDone(|offered|, 0, 0, 0);
      } else if state.BlockedPumpTo? && !supported {
        writer := PumpUnsupported;
      } else {
        StartPump(amount);
      }
    }

    /** tryPumpFrom of each state object that supports it */
    method StartPump(amount: nat)
      requires !state.BlockedWrite? && !state.BlockedPumpFrom? && !state.ShutdownedWrite? && amount > 0
      requires state.BlockedRead? ==> state.byteCount < state.minBytes
      requires state.BlockedPumpTo? ==> state.pumpedSoFar < state.amount
      modifies `state, `job, `writer
      ensures View() == TryPumpFromStep(old(View()), amount, true)
    {
      writer := PumpingIn(|offered|, amount, 0, 0);
      match state
      case NoState => state := BlockedPumpFrom(amount, 0);
      case BlockedRead(byteCount, minBytes, room) =>
        job := ReadInto(Min(amount, minBytes - byteCount), Min(amount, room), amount);
      case BlockedPumpTo(amount', pumpedSoFar) => job := PumpThrough(Min(amount, amount' - pumpedSoFar), amount);
      case AbortedRead => job := CheckEof(0);
    }

    method ShutdownWrite()
      requires Valid() && Enabled(View(), Event.ShutdownWrite)
      modifies this
      ensures Valid() && View() == Step(old(View()), Event.ShutdownWrite)
      ensures events == old(events) + [Event.ShutdownWrite]
    {
      Advance(Event.ShutdownWrite);
      events := events + [Event.ShutdownWrite];
      hide Inv, Reached, Cancel, Sent, InFlight;
      match state
      case NoState => state := ShutdownedWrite;
      case BlockedRead(_, _, _) => ShutdownReader();
      case BlockedPumpTo(_, _) => ShutdownPump();
      case _ =>
    }

    /** BlockedRead::shutdownWrite */
    method ShutdownReader()
      requires state.BlockedRead?
      modifies `state, `job, `later, `reader, `writer, `offered, `delivered
      ensures View() == ShutdownStep(old(View()))
    {
      hide Cancel;
      CancelJob();
      FulfillRead(state.byteCount);
      EndState();
      state := ShutdownedWrite;
    }

    /** BlockedPumpTo::shutdownWrite */
    method ShutdownPump()
      requires state.BlockedPumpTo?
      modifies `state, `job, `later, `reader, `writer, `offered, `delivered, `dropped
      ensures View() == ShutdownStep(old(View()))
    {
      hide Cancel, Sent, InFlight;
      var sent, cut := Sent(View()), InFlight(View());
      CancelJob();
      FulfillPumpedSoFar(state.pumpedSoFar, sent);
      dropped := dropped + cut;
      EndState();
      state := ShutdownedWrite;
    }

    method OutputWritten()
      requires Valid() && Enabled(View(), Event.OutputWritten)
      modifies this
      ensures Valid() && View() == Step(old(View()), Event.OutputWritten)
      ensures events == old(events) + [Event.OutputWritten]
    {
      Advance(Event.OutputWritten);
      events := events + [Event.OutputWritten];
      OutputBusy();
      hide Inv, Reached, Drained, Filled;
      match job
      case DrainOut(chunks, rest, amount, actual) => DrainWritten(chunks, rest, amount, actual);
      case FillOut(chunks, size, now, more) => FillWritten(chunks, size, now, more);
    }

    method DrainWritten(chunks: seq<seq<byte>>, rest: seq<seq<byte>>, amount: nat, actual: nat)
      requires chunks != [] && actual <= amount
      modifies `state, `job, `later, `reader, `writer, `offered, `delivered
      ensures View() == Drained(old(View()), chunks, rest, amount, actual)
    {
      delivered := delivered + chunks[0];
      if |chunks| > 1 {
        job := DrainOut(chunks[1..], rest, amount, actual);
      } else {
        FinishDrain(rest, amount, actual);
      }
    }

    method FillWritten(chunks: seq<seq<byte>>, size: nat, now: seq<byte>, more: seq<seq<byte>>)
      requires chunks != [] && state.BlockedPumpTo?
      modifies `state, `job, `later, `reader, `writer, `offered, `delivered
      ensures View() == Filled(old(View()), chunks, size, now, more)
    {
      delivered := delivered + chunks[0];
      if |chunks| > 1 {
        job := FillOut(chunks[1..], size, now, more);
      } else {
        FinishFill(size, now, more);
      }
    }

    lemma OutputBusy()
      requires Inv(View()) && Enabled(View(), Event.OutputWritten)
      ensures job.chunks != []
      ensures job.DrainOut? ==> state.BlockedWrite? && job.actual <= job.amount
      ensures job.FillOut? ==> state.BlockedPumpTo?
    {
      JobMode(View());
    }

    method FinishDrain(rest: seq<seq<byte>>, amount: nat, actual: nat)
      requires actual <= amount
      modifies `state, `job, `later, `reader, `writer, `offered, `delivered
      ensures var t := old(View());
              View() ==
              if rest != [] then ResolveRead(t, amount).(st := BlockedWrite(rest), job := NoJob)
              else
                var u := ResolvePart(t).(st := NoState, job := NoJob);
                if actual == amount then ResolveRead(u, actual) else AwaitPump(CarryRead(u, actual), amount - actual)
    {
      job := NoJob;
      if rest != [] {
        state := BlockedWrite(rest);
        FulfillRead(amount);
      } else {
        FulfillPart();
        EndState();
        if actual == amount {
          FulfillRead(actual);
        } else {
          ChainRead(actual);
          PumpAgain(amount - actual);
        }
      }
    }

    method FinishFill(size: nat, now: seq<byte>, more: seq<seq<byte>>)
      requires state.BlockedPumpTo?
      modifies `state, `job, `later, `reader, `writer, `offered, `delivered
      ensures var t := old(View());
              var d := t.st.pumpedSoFar + size;
              var u := if d == t.st.amount then ResolveRead(t, d).(st := NoState)
                       else t.(st := BlockedPumpTo(t.st.amount, d));
              var v := u.(job := NoJob, later := more);
              View() == if now == [] then ResolvePart(v) else Park(v, [now])
    {
      var pumpedSoFar := state.pumpedSoFar + size;
      job := NoJob;
      later := more;
      if pumpedSoFar == state.amount {
        FulfillRead(pumpedSoFar);
        EndState();
      } else {
        state := BlockedPumpTo(state.amount, pumpedSoFar);
      }
      if now == [] { FulfillPart(); } else { state, writer := BlockedWrite([now]), Writing(true); }
    }

    method InputRead(data: seq<byte>)
      requires Valid() && Enabled(View(), Event.InputRead(data))
      modifies this
      ensures Valid() && View() == Step(old(View()), Event.InputRead(data))
      ensures events == old(events) + [Event.InputRead(data)]
    {
      Advance(Event.InputRead(data));
      events := events + [Event.InputRead(data)];
      InputBusy();
      hide Inv, Reached, InputReadStep;
      match job
      case ReadIn(_, _, _, _) => ReadForReader(data);
      case ReadInto(_, _, _) => ReadIntoBuffer(data);
      case CheckEof(_) => EofChecked(data);
    }

    /** BlockedPumpFrom::tryRead's continuation. */
    method ReadForReader(data: seq<byte>)
      requires job.ReadIn? && state.BlockedPumpFrom? && |data| <= job.maxBytes
      modifies `state, `job, `later, `reader, `writer, `offered, `delivered
      ensures View() == InputReadStep(old(View()), data)
    {
      var actual := |data|;
      var ReadIn(min, _, minBytes, maxBytes) := job;
      Forward(data);
      var pumpedSoFar := state.pumpedSoFar + actual;
      if pumpedSoFar == state.amount || actual < min {
        FulfillPump(pumpedSoFar);
        EndState();
      } else {
        state := BlockedPumpFrom(state.amount, pumpedSoFar);
      }
      if actual >= minBytes {
        FulfillRead(actual);
      } else {
        ChainRead(actual);
        state := BlockedRead(0, minBytes - actual, maxBytes - actual);
      }
    }

    /** BlockedRead::tryPumpFrom's continuation. */
    method ReadIntoBuffer(data: seq<byte>)
      requires job.ReadInto? && state.BlockedRead? && |data| <= state.room && |data| <= job.left
      modifies `state, `job, `later, `reader, `writer, `offered, `delivered
      ensures View() == InputReadStep(old(View()), data)
    {
      var actual, amount := |data|, job.left;
      Forward(data);
      var readSoFar, room := state.byteCount + actual, state.room - actual;
      if readSoFar >= state.minBytes {
        FulfillRead(readSoFar);
        EndState();
        if actual < amount {
          ChainPump(actual, 0);
          state := BlockedPumpFrom(amount - actual, 0);
        } else {
          FulfillPump(actual);
        }
      } else {
        state := BlockedRead(readSoFar, state.minBytes, room);
        FulfillPump(actual);
      }
    }

    /** The end of the reads that look for an end of file after an abort. */
    method EofChecked(data: seq<byte>)
      requires job.CheckEof?
      modifies `state, `job, `later, `reader, `writer, `offered, `delivered
      ensures View() == InputReadStep(old(View()), data)
    {
      var pumpedSoFar := job.pumped;
      job := NoJob;
      if data == [] { FulfillPump(pumpedSoFar); } else { writer := WriteRejected; }
    }

    lemma InputBusy()
      requires Inv(View()) && (job.ReadIn? || job.ReadInto? || job.CheckEof?)
      ensures job.ReadIn? ==> state.BlockedPumpFrom? && job.max <= job.maxBytes
      ensures job.ReadInto? ==> state.BlockedRead? && job.max <= state.room && job.max <= job.left
    {
      JobMode(View());
      hide Flatten;
    }

    /** Bytes go from the input straight to the reader. */
    method Forward(data: seq<byte>)
      modifies `offered, `delivered, `job
      ensures View() == Deliver(old(View()).(offered := old(offered) + data, job := NoJob), data)
    {
      offered, delivered, job := offered + data, delivered + data, NoJob;
    }

    method Pumped(data: seq<byte>)
      requires Valid() && Enabled(View(), Event.Pumped(data))
      modifies this
      ensures Valid() && View() == Step(old(View()), Event.Pumped(data))
      ensures events == old(events) + [Event.Pumped(data)]
    {
      Advance(Event.Pumped(data));
      events := events + [Event.Pumped(data)];
      PumpBusy();
      hide Inv, Reached, PumpedStep;
      if job.PumpIn? { PumpedForReader(data); } else { PumpedThrough(data); }
    }

    /** BlockedPumpFrom::pumpTo's continuation. */
    method PumpedForReader(data: seq<byte>)
      requires job.PumpIn? && state.BlockedPumpFrom? && |data| <= job.left
      modifies `state, `job, `later, `reader, `writer, `offered, `delivered
      ensures View() == PumpedStep(old(View()), data)
    {
      var actual, n, amount2 := |data|, job.n, job.left;
      Forward(data);
      var pumpedSoFar := state.pumpedSoFar + actual;
      if pumpedSoFar == state.amount || actual < n {
        FulfillPump(pumpedSoFar);
        EndState();
        ChainRead(actual);
        PumpAgain(amount2 - actual);
      } else {
        state := BlockedPumpFrom(state.amount, pumpedSoFar);
        FulfillRead(amount2);
      }
    }

    /** BlockedPumpTo::tryPumpFrom's continuation. */
    method PumpedThrough(data: seq<byte>)
      requires job.PumpThrough? && state.BlockedPumpTo? && |data| <= job.left
      modifies `state, `job, `later, `reader, `writer, `offered, `delivered
      ensures View() == PumpedStep(old(View()), data)
    {
      var actual, n, amount2 := |data|, job.n, job.left;
      Forward(data);
      var pumpedSoFar := state.pumpedSoFar + actual;
      if pumpedSoFar == state.amount {
        FulfillRead(pumpedSoFar);
        EndState();
      } else {
        state := BlockedPumpTo(state.amount, pumpedSoFar);
      }
      if actual == amount2 || actual < n {
        FulfillPump(actual);
      } else {
        ChainPump(0, actual);
        state := BlockedPumpFrom(amount2 - actual, 0);
      }
    }

    lemma PumpBusy()
      requires Inv(View()) && (job.PumpIn? || job.PumpThrough?)
      ensures job.n <= job.left
      ensures job.PumpIn? ==> state.BlockedPumpFrom?
      ensures job.PumpThrough? ==> state.BlockedPumpTo?
    {
      JobMode(View());
      hide Flatten;
    }
  }
}
