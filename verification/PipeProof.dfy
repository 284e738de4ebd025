/** What the pipe keeps in every run: nothing is lost, duplicated or reordered, and the
    counts that reads and pumps resolve with. */
module PipeProof {
  import opened Bytes
  import opened PipeSpec
  import opened Wrappers

  /** The writer's unconsumed remainder. */
  function Remainder(s: Pipe): seq<byte> {
    InFlight(s) + Flatten(s.later)
  }

  /** A shutdown has cancelled the last write or pump. */
  predicate CutOff(s: Pipe) {
    s.st.ShutdownedWrite? && s.writer == WriteRejected
  }

  /** A write between two of its parts has lost nothing, even if the pipe is aborted. */
  ghost predicate NothingLost(s: Pipe) {
    s.delivered + Flatten(s.later) == s.offered
  }

  ghost predicate Conserved(s: Pipe) {
    if CutOff(s) then s.delivered + s.dropped == s.offered
    else
      && s.dropped == []
      && if s.st.AbortedRead? then s.delivered <= s.offered && (s.writer == Writing(false) ==> NothingLost(s))
         else s.delivered + Remainder(s) == s.offered
  }

  // ---------------------------------------------------------------------------
  // Who waits for what, in each state.

  /** A read waits; this leg has `count` bytes, needs `min` and has room for `room` more. */
  ghost predicate ReaderWaits(s: Pipe, count: nat, min: nat, room: nat) {
    s.reader.Reading? &&
    |s.delivered| == s.reader.start + s.reader.acc + count &&
    s.reader.min == s.reader.acc + min && s.reader.max == s.reader.acc + count + room
  }

  ghost predicate PumpWaits(s: Pipe, done: int, amount: nat) {
    s.reader.Pumping? &&
    |s.delivered| == s.reader.start + s.reader.acc + done && s.reader.amount == s.reader.acc + amount
  }

  ghost predicate PumpInWaits(s: Pipe, done: nat, amount: nat) {
    s.writer.PumpingIn? &&
    |s.offered| == s.writer.start + s.writer.acc + s.writer.uncounted + done &&
    s.writer.amount == s.writer.acc + s.writer.uncounted + amount
  }

  ghost predicate EofWaits(s: Pipe, done: nat) {
    s.writer.PumpingIn? &&
    |s.offered| == s.writer.start + s.writer.acc + s.writer.uncounted + done &&
    s.writer.acc + s.writer.uncounted + done <= s.writer.amount
  }

  /** A finished read has the bytes delivered since it was called: at most `max`, and at
      least `min` unless the writer has shut down; a finished pump likewise. */
  ghost predicate ReaderRests(s: Pipe) {
    match s.reader
    case ReadDone(start, min, max, count) =>
      |s.delivered| == start + count && count <= max && (count < min ==> s.st.ShutdownedWrite?)
    case PumpDone(start, amount, count, uncounted) =>
      |s.delivered| == start + count + uncounted && count + uncounted <= amount &&
      (count < amount ==> s.st.ShutdownedWrite?)
    case Reading(_, _, _, _) => false
    case Pumping(_, _, _) => false
    case _ => true
  }

  ghost predicate WriterRests(s: Pipe) {
    s.later == [] &&
    match s.writer
    case PumpInDone(start, amount, count, lost) => |s.offered| == start + count + lost && count + lost <= amount
    case Writing(_) => false
    case PumpingIn(_, _, _, _) => false
    case _ => true
  }

  /** No write is in progress, or one is between two of its parts. */
  ghost predicate WriterQuiet(s: Pipe) {
    WriterRests(s) || (s.writer == Writing(false) && s.later != [])
  }

  ghost predicate NoStateOk(s: Pipe) {
    s.st == NoState ==> s.job == NoJob && ReaderRests(s) && WriterQuiet(s)
  }

  ghost predicate BlockedWriteOk(s: Pipe) {
    s.st.BlockedWrite? ==>
      && s.st.pieces != [] && s.st.pieces[0] != [] && s.writer == Writing(true)
      && match s.job
         case NoJob => ReaderRests(s)
         case DrainOut(chunks, rest, amount, actual) =>
           && chunks != [] && Size(chunks) <= actual <= amount && PumpWaits(s, actual - Size(chunks), amount)
           && (rest != [] ==> actual == amount && rest[0] != [])
         case _ => false
  }

  ghost predicate BlockedReadOk(s: Pipe) {
    s.st.BlockedRead? ==>
      var (count, min, room) := (s.st.byteCount, s.st.minBytes, s.st.room);
      && count < min <= count + room && ReaderWaits(s, count, min, room)
      && match s.job
         case NoJob => WriterQuiet(s)
         case ReadInto(lo, hi, left) =>
           && s.later == [] && left > 0 && PumpInWaits(s, 0, left)
           && lo == Min(left, min - count) && hi == Min(left, room)
         case _ => false
  }

  ghost predicate BlockedPumpFromOk(s: Pipe) {
    s.st.BlockedPumpFrom? ==>
      var (a, d) := (s.st.amount, s.st.pumpedSoFar);
      && d < a && PumpInWaits(s, d, a) && s.later == []
      && match s.job
         case NoJob => ReaderRests(s)
         case ReadIn(lo, hi, min, max) =>
           0 < min <= max && ReaderWaits(s, 0, min, max) && lo == Min(a - d, min) && hi == Min(a - d, max)
         case PumpIn(n, left) => left > 0 && PumpWaits(s, 0, left) && n == Min(left, a - d)
         case _ => false
  }

  ghost predicate BlockedPumpToOk(s: Pipe) {
    s.st.BlockedPumpTo? ==>
      var (a, d) := (s.st.amount, s.st.pumpedSoFar);
      && d < a
      && match s.job
         case NoJob => PumpWaits(s, d, a) && WriterQuiet(s)
         case FillOut(chunks, size, now, more) =>
           && chunks != [] && Size(chunks) <= size && d + size <= a && PumpWaits(s, d + size - Size(chunks), a)
           && s.writer == Writing(true) && s.later == []
           && (now != [] || more != [] ==> d + size == a)
         case PumpThrough(n, left) =>
           && PumpWaits(s, d, a) && left > 0 && PumpInWaits(s, 0, left) && n == Min(left, a - d) && s.later == []
         case _ => false
  }

  ghost predicate AbortedReadOk(s: Pipe) {
    s.st.AbortedRead? ==>
      && ReaderRests(s)
      && match s.job
         case NoJob => WriterQuiet(s)
         case CheckEof(d) => s.later == [] && EofWaits(s, d)
         case _ => false
  }

  ghost predicate ShutdownedWriteOk(s: Pipe) {
    s.st.ShutdownedWrite? ==> s.job == NoJob && ReaderRests(s) && WriterQuiet(s)
  }

  ghost predicate StateOk(s: Pipe) {
    && NoStateOk(s) && BlockedWriteOk(s) && BlockedReadOk(s) && BlockedPumpFromOk(s)
    && BlockedPumpToOk(s) && AbortedReadOk(s) && ShutdownedWriteOk(s)
  }

  ghost predicate Inv(s: Pipe) {
    Conserved(s) && StateOk(s)
  }

  lemma InitInv()
    ensures Inv(Init)
  {
  }

  // ---------------------------------------------------------------------------
  // Reads.

  /** Bytes at the front of the remainder may move to the delivered side. */
  lemma Moved(delivered: seq<byte>, d: seq<byte>, rest: seq<byte>, later: seq<byte>, offered: seq<byte>)
    requires delivered + ((d + rest) + later) == offered
    ensures (delivered + d) + (rest + later) == offered
  {
    assert delivered + ((d + rest) + later) == (delivered + d) + (rest + later);
  }

  /** A read meets a waiting write: what it takes is what the write loses. */
  lemma ReadMeetsWrite(s: Pipe, min: nat, max: nat)
    requires s.st.BlockedWrite? && s.job == NoJob && 0 < min <= max && Conserved(s)
    ensures Conserved(ReadStep(s, min, max))
  {
    hide Flatten, Drop;
    var ps, d := s.st.pieces, Flatten(s.st.pieces);
    if max < Size(ps) {
      DropFlatten(ps, max);
      assert d == d[..max] + d[max..];
      Moved(s.delivered, d[..max], d[max..], Flatten(s.later), s.offered);
    } else {
      AllTaken(s.delivered, d, Flatten(s.later), s.offered);
    }
  }

  lemma AllTaken(delivered: seq<byte>, d: seq<byte>, later: seq<byte>, offered: seq<byte>)
    requires delivered + (d + later) == offered
    ensures (delivered + d) + ([] + later) == offered
  {
  }

  lemma ReadWriteStateOk(s: Pipe, min: nat, max: nat)
    requires s.st.BlockedWrite? && BlockedWriteOk(s) && Enabled(s, TryRead(min, max)) && min > 0
    ensures s.job == NoJob && StateOk(ReadStep(s, min, max))
  {
    if max < Size(s.st.pieces) { DropFlatten(s.st.pieces, max); }
    hide Flatten, Drop;
  }

  lemma ReadInv(s: Pipe, min: nat, max: nat)
    requires Inv(s) && Enabled(s, TryRead(min, max))
    ensures Inv(ReadStep(s, min, max))
  {
    hide Flatten, Drop;
    if min > 0 && s.st.BlockedWrite? {
      hide ReadStep;
      ReadWriteStateOk(s, min, max);
      ReadMeetsWrite(s, min, max);
    }
  }

  // ---------------------------------------------------------------------------
  // Pumps to an output.

  lemma Slices(ps: seq<seq<byte>>, i: nat)
    requires 0 < i <= |ps|
    ensures Flatten(ps[..i]) == ps[0] + Flatten(ps[1..][..i - 1])
    ensures ps[1..][i - 1..] == ps[i..] && (i < |ps| ==> ps[1..][i - 1] == ps[i] && ps[1..][i..] == ps[i + 1..])
  {
    assert ps[..i][0] == ps[0] && ps[..i][1..] == ps[1..][..i - 1];
  }

  lemma {:induction false} CoveredBounds(ps: seq<seq<byte>>, n: nat)
    ensures var i := Covered(ps, n);
            Size(ps[..i]) <= n && (i < |ps| ==> n - Size(ps[..i]) < |ps[i]|)
  {
    var i := Covered(ps, n);
    if i == 0 {
      assert ps[..0] == [];
    } else {
      Slices(ps, i);
      CoveredBounds(ps[1..], n - |ps[0]|);
      hide Flatten;
    }
  }

  lemma CoveredSplit(ps: seq<seq<byte>>, n: nat)
    ensures var i := Covered(ps, n);
            && Size(ps[..i]) <= n
            && Flatten(ps) == Flatten(ps[..i]) + Flatten(ps[i..])
            && (i == |ps| <==> Size(ps) <= n)
            && (i < |ps| ==> n - Size(ps[..i]) < |ps[i]|)
  {
    hide Covered;
    var i := Covered(ps, n);
    CoveredBounds(ps, n);
    assert ps == ps[..i] + ps[i..];
    FlattenConcat(ps[..i], ps[i..]);
    if i < |ps| { assert Flatten(ps[i..]) == ps[i] + Flatten(ps[i..][1..]); }
  }

  /** With the covered pieces taken off, the next one is cut or kept whole. */
  lemma {:induction false} DropCovered(ps: seq<seq<byte>>, n: nat)
    requires n <= Size(ps)
    ensures var i := Covered(ps, n);
            && Size(ps[..i]) <= n
            && (i == |ps| ==> Drop(ps, n) == [])
            && (i < |ps| ==> n - Size(ps[..i]) < |ps[i]| && Drop(ps, n) == [ps[i][n - Size(ps[..i])..]] + ps[i + 1..])
            && (Cuts(ps, n) <==> i < |ps| && n > Size(ps[..i]))
  {
    var i := Covered(ps, n);
    if i > 0 {
      Slices(ps, i);
      assert Size(ps) == |ps[0]| + Size(ps[1..]);
      DropCovered(ps[1..], n - |ps[0]|);
      hide Flatten;
    } else {
      assert ps[..0] == [];
    }
  }

  /** The writes to the output are exactly the first bytes of the waiting pieces. */
  lemma DrainChunksFlatten(ps: seq<seq<byte>>, amount: nat)
    requires ps != [] && ps[0] != [] && amount > 0
    ensures DrainChunks(ps, amount) != []
    ensures Flatten(DrainChunks(ps, amount)) == Flatten(ps)[..Min(amount, Size(ps))]
  {
    var i := Covered(ps, amount);
    CoveredSplit(ps, amount);
    if i == 0 {
      FlattenOne(ps[0][..amount]);
      assert Flatten(ps)[..amount] == ps[0][..amount];
    } else {
      var n := amount - Size(ps[..i]);
      var mid := if i > 1 then [Flatten(ps[1..i])] else [];
      var last := if i < |ps| && 0 < n <= |ps[i]| then [ps[i][..n]] else [];
      assert DrainChunks(ps, amount) == [ps[0]] + mid + last;
      hide Covered, DrainChunks;
      FrontPieces(ps, i, mid);
      FlattenConcat([ps[0]] + mid, last);
      LastCut(ps, i, n, last);
    }
  }

  lemma FrontPieces(ps: seq<seq<byte>>, i: nat, mid: seq<seq<byte>>)
    requires 0 < i <= |ps| && mid == if i > 1 then [Flatten(ps[1..i])] else []
    ensures Flatten([ps[0]] + mid) == Flatten(ps[..i])
  {
    assert ps[..i] == [ps[0]] + ps[1..i];
    FlattenCons(ps[0], ps[1..i]);
    FlattenCons(ps[0], mid);
    if i > 1 { FlattenOne(Flatten(ps[1..i])); } else { assert ps[1..i] == []; }
  }

  /** A final, possibly empty, part of the piece at `i`. */
  lemma LastCut(ps: seq<seq<byte>>, i: nat, n: nat, last: seq<seq<byte>>)
    requires i <= |ps| && Flatten(ps) == Flatten(ps[..i]) + Flatten(ps[i..])
    requires if i < |ps| then n < |ps[i]| else true
    requires last == if i < |ps| && 0 < n <= |ps[i]| then [ps[i][..n]] else []
    ensures Flatten(ps[..i]) + Flatten(last) == Flatten(ps)[..Min(Size(ps[..i]) + n, Size(ps))]
  {
    if i < |ps| {
      assert ps[i..][0] == ps[i];
      if n > 0 { FlattenOne(ps[i][..n]); }
      assert Flatten(ps[i..])[..n] == ps[i][..n];
    } else {
      assert ps[i..] == [] && ps[..i] == ps;
    }
  }

  lemma PumpMeetsWrite(s: Pipe, amount: nat)
    requires s.st.BlockedWrite? && BlockedWriteOk(s) && Enabled(s, PumpTo(amount)) && amount > 0 && Conserved(s)
    ensures Inv(PumpToStep(s, amount))
  {
    var ps := s.st.pieces;
    var k := Min(amount, Size(ps));
    DrainChunksFlatten(ps, amount);
    DropFlatten(ps, k);
    assert Flatten(ps) == Flatten(ps)[..k] + Flatten(ps)[k..];
    hide Flatten, Drop, DrainChunks;
  }

  lemma PumpToInv(s: Pipe, amount: nat)
    requires Inv(s) && Enabled(s, PumpTo(amount))
    ensures Inv(PumpToStep(s, amount))
  {
    hide Flatten, Drop, DrainChunks;
    if amount > 0 && s.st.BlockedWrite? {
      hide PumpToStep;
      PumpMeetsWrite(s, amount);
    }
  }

  // ---------------------------------------------------------------------------
  // Writes.

  /** The pipe's state is one a write can meet, seen from the reading side. */
  ghost predicate ReaderSide(s: Pipe) {
    match s.st
    case NoState => ReaderRests(s)
    case BlockedRead(count, min, room) => count < min <= count + room && ReaderWaits(s, count, min, room)
    case BlockedPumpTo(a, d) => d < a && PumpWaits(s, d, a)
    case AbortedRead => ReaderRests(s)
    case _ => false
  }

  /** All that is offered and not delivered is what is about to be written. */
  ghost predicate Pending(s: Pipe, d: seq<byte>) {
    s.job == NoJob && s.later == [] && s.dropped == [] &&
    if s.st.AbortedRead? then s.delivered <= s.offered else s.delivered + d == s.offered
  }

  lemma ParkInv(s: Pipe, ps: seq<seq<byte>>)
    requires s.st == NoState && ReaderRests(s) && s.job == NoJob && s.dropped == [] && ps != [] && ps[0] != []
    requires s.delivered + (Flatten(ps) + Flatten(s.later)) == s.offered
    ensures Inv(Park(s, ps))
  {
    hide Flatten;
  }

  lemma WriteFitsConserved(s: Pipe, ps: seq<seq<byte>>)
    requires s.st.BlockedRead? && Pending(s, Flatten(ps)) && Size(ps) < s.st.room
    ensures Conserved(WriteFits(s, ps))
  {
    hide Flatten;
    NothingLeft(s.delivered + Flatten(ps));
  }

  lemma WriteFitsInv(s: Pipe, ps: seq<seq<byte>>)
    requires s.st.BlockedRead? && ReaderSide(s) && Pending(s, Flatten(ps)) && Size(ps) < s.st.room
    ensures Inv(WriteFits(s, ps))
  {
    hide Flatten, Conserved;
    WriteFitsConserved(s, ps);
  }

  lemma NothingLeft(d: seq<byte>)
    ensures Flatten([]) == [] && d + ([] + Flatten([])) == d
  {
  }

  lemma SplitOff(delivered: seq<byte>, d: seq<byte>, n: nat, offered: seq<byte>)
    requires n <= |d| && delivered + d == offered
    ensures (delivered + d[..n]) + d[n..] == offered
  {
    assert d == d[..n] + d[n..];
  }

  /** What a filled read leaves of the pieces, in one part or in two. */
  lemma RestParts(ps: seq<seq<byte>>, n: nat)
    requires n <= Size(ps)
    ensures var rest, d := Drop(ps, n), Flatten(ps)[n..];
            && (rest == [] ==> d == [] + Flatten([]))
            && (rest != [] ==> rest[0] != [] && [rest[0]][0] != [])
            && (rest != [] ==> d == Flatten([rest[0]]) + Flatten(rest[1..]) && d == Flatten(rest) + Flatten([]))
            && (rest != [] ==> d == rest[0] + Flatten(rest[1..]))
            && d == [] + Flatten(rest)
  {
    var rest := Drop(ps, n);
    DropFlatten(ps, n);
    assert Flatten([]) == [];
    if rest != [] {
      FlattenOne(rest[0]);
      assert Flatten(rest) == rest[0] + Flatten(rest[1..]);
    }
  }

  lemma WriteFillsInv(s: Pipe, ps: seq<seq<byte>>)
    requires s.st.BlockedRead? && ReaderSide(s) && Pending(s, Flatten(ps)) && Size(ps) >= s.st.room
    ensures Inv(WriteFills(s, ps))
  {
    hide Flatten, Drop, Cuts;
    var d, room := Flatten(ps), s.st.room;
    RestParts(ps, room);
    SplitOff(s.delivered, d, room, s.offered);
    var t := ResolveRead(Deliver(s, d[..room]), s.st.byteCount + room).(st := NoState);
    var rest := Drop(ps, room);
    if rest != [] {
      if Cuts(ps, room) {
        ParkInv(t.(later := rest[1..]), [rest[0]]);
      } else {
        ParkInv(t, rest);
      }
      hide Inv, Park;
    }
  }

  lemma FillChunksFlatten(ps: seq<seq<byte>>, needed: nat)
    requires needed < Size(ps)
    ensures FillChunks(ps, needed) != [] && Flatten(FillChunks(ps, needed)) == Flatten(ps)[..needed]
  {
    var i := Covered(ps, needed);
    CoveredSplit(ps, needed);
    var n := needed - Size(ps[..i]);
    var last := if i < |ps| && 0 < n <= |ps[i]| then [ps[i][..n]] else [];
    assert FillChunks(ps, needed) == [Flatten(ps[..i])] + last;
    hide Covered, FillChunks;
    FlattenCons(Flatten(ps[..i]), last);
    LastCut(ps, i, n, last);
  }

  /** A job of writes to the output starts with everything still pending. */
  lemma FillInv(s: Pipe, chunks: seq<seq<byte>>, size: nat, now: seq<byte>, more: seq<seq<byte>>)
    requires s.st.BlockedPumpTo? && ReaderSide(s)
    requires Pending(s, Flatten(chunks) + (now + Flatten(more)))
    requires chunks != [] && Size(chunks) == size && s.st.pumpedSoFar + size <= s.st.amount
    requires now != [] || more != [] ==> s.st.pumpedSoFar + size == s.st.amount
    ensures Inv(s.(job := FillOut(chunks, size, now, more), writer := Writing(true)))
  {
    assert Flatten(s.later) == [];
    hide Flatten;
  }

  lemma WriteToPumpInv(s: Pipe, ps: seq<seq<byte>>)
    requires s.st.BlockedPumpTo? && ReaderSide(s) && Pending(s, Flatten(ps)) && ps != []
    ensures Inv(WriteToPump(s, ps, s.st.amount - s.st.pumpedSoFar))
  {
    hide Flatten, Drop, Cuts, FillChunks, Inv;
    var d, needed := Flatten(ps), s.st.amount - s.st.pumpedSoFar;
    if Size(ps) <= needed {
      FlattenOne(d);
      AllNow(d);
      FillInv(s, [d], Size(ps), [], []);
    } else {
      var rest, chunks := Drop(ps, needed), FillChunks(ps, needed);
      RestParts(ps, needed);
      DropFlatten(ps, needed);
      FillChunksFlatten(ps, needed);
      assert d == d[..needed] + d[needed..];
      if Cuts(ps, needed) {
        FillInv(s, chunks, needed, rest[0], rest[1..]);
      } else {
        FillInv(s, chunks, needed, [], rest);
      }
    }
  }

  lemma AllNow(d: seq<byte>)
    ensures d + ([] + Flatten([])) == d
  {
  }

  lemma WriteAborted(s: Pipe)
    requires s.st.AbortedRead? && ReaderSide(s) && s.job == NoJob && s.delivered <= s.offered && s.dropped == []
    ensures Inv(s.(writer := WriteRejected, later := []))
  {
  }

  lemma ParkAll(s: Pipe, ps: seq<seq<byte>>)
    requires s.st == NoState && ReaderSide(s) && Pending(s, Flatten(ps)) && ps != [] && ps[0] != []
    ensures Inv(Park(s, ps))
  {
    hide Inv, Park;
    assert Flatten(ps) + Flatten([]) == Flatten(ps);
    ParkInv(s, ps);
  }

  lemma WriteInv(s: Pipe, ps: seq<seq<byte>>)
    requires ReaderSide(s) && Pending(s, Flatten(ps)) && ps != [] && ps[0] != []
    ensures Inv(WriteStep(s, ps))
  {
    hide Flatten, Inv, WriteFits, WriteFills, WriteToPump, Park;
    match s.st
    case BlockedRead(_, _, room) => if Size(ps) < room { WriteFitsInv(s, ps); } else { WriteFillsInv(s, ps); }
    case BlockedPumpTo(_, _) => WriteToPumpInv(s, ps);
    case NoState => ParkAll(s, ps);
    case AbortedRead => WriteAborted(s);
  }

  /** Whenever the pipe is not busy with a write or a pump, a new write can meet its state. */
  lemma QuietSide(s: Pipe)
    requires Inv(s) && s.job == NoJob && (WriterIdle(s) || s.writer == Writing(false)) && s.st != ShutdownedWrite
    ensures ReaderSide(s) && (WriterIdle(s) ==> s.later == [])
    ensures if s.st.AbortedRead? then s.delivered <= s.offered else s.delivered + Flatten(s.later) == s.offered
    ensures s.dropped == []
  {
    hide Flatten;
    assert [] + Flatten(s.later) == Flatten(s.later);
  }

  lemma IdleNoJob(s: Pipe)
    requires StateOk(s) && (WriterIdle(s) || s.writer == Writing(false))
    ensures s.job == NoJob
  {
  }

  /** Bytes offered to a pipe with nothing pending are what is then pending. */
  lemma OfferPending(s: Pipe, d: seq<byte>)
    requires Inv(s) && WriterIdle(s) && s.st != ShutdownedWrite
    ensures ReaderSide(s.(offered := s.offered + d)) && Pending(s.(offered := s.offered + d), d)
  {
    IdleNoJob(s);
    QuietSide(s);
    hide Inv;
  }

  lemma WriteDoneInv(s: Pipe)
    requires Inv(s) && WriterIdle(s) && s.st != ShutdownedWrite
    ensures Inv(s.(writer := WriteDone))
  {
    hide Flatten;
  }

  lemma WriteOneInv(s: Pipe, data: seq<byte>)
    requires Inv(s) && Enabled(s, Write(data))
    ensures Inv(WriteOneStep(s, data))
  {
    hide Flatten, Inv, WriteStep;
    if data == [] {
      WriteDoneInv(s);
    } else {
      var t := s.(offered := s.offered + data);
      OfferPending(s, data);
      FlattenOne(data);
      if s.st.BlockedPumpTo? {
        var n := Min(s.st.amount - s.st.pumpedSoFar, |data|);
        FlattenOne(data[..n]);
        assert data == data[..n] + (data[n..] + Flatten([])) by { NothingLeft([]); }
        FillInv(t, [data[..n]], n, data[n..], []);
      } else {
        WriteInv(t, [data]);
      }
    }
  }

  lemma WritePiecesInv(s: Pipe, ps: seq<seq<byte>>)
    requires Inv(s) && Enabled(s, WritePieces(ps))
    ensures Inv(WritePiecesStep(s, ps))
  {
    hide Inv, WriteStep;
    var ps' := Drop(ps, 0);
    DropFlatten(ps, 0);
    if ps' == [] {
      WriteDoneInv(s);
    } else {
      OfferPending(s, Flatten(ps));
      WriteInv(s.(offered := s.offered + Flatten(ps)), ps');
    }
  }

  lemma ContinueInv(s: Pipe)
    requires Inv(s) && Enabled(s, Continue)
    ensures Inv(ContinueStep(s))
  {
    var ps := Drop(s.later, 0);
    DropFlatten(s.later, 0);
    IdleNoJob(s);
    if ps == [] {
      WriteEnds(s);
    } else if s.st == ShutdownedWrite {
      WriteCut(s);
    } else {
      QuietSide(s);
      WriteInv(s.(later := []), ps);
    }
    hide Inv, WriteStep;
  }

  /** A continuation after a shutdown fails. */
  lemma WriteCut(s: Pipe)
    requires Inv(s) && s.writer == Writing(false) && s.st == ShutdownedWrite
    ensures Inv(s.(later := [], writer := WriteRejected, dropped := s.dropped + Flatten(s.later)))
  {
    hide Flatten;
    IdleNoJob(s);
    assert [] + Flatten(s.later) == Flatten(s.later);
  }

  /** A continuation that finds only empty pieces ends the write. */
  lemma WriteEnds(s: Pipe)
    requires Inv(s) && s.writer == Writing(false) && s.job == NoJob && Flatten(s.later) == []
    ensures Inv(ResolvePart(s.(later := [])))
  {
  }

  // ---------------------------------------------------------------------------
  // The remaining calls.

  lemma AbortInv(s: Pipe)
    requires Inv(s) && Enabled(s, AbortRead)
    ensures Inv(AbortStep(s))
  {
    hide Flatten;
    assert s.delivered <= s.delivered + Remainder(s);
  }

  lemma TryPumpFromInv(s: Pipe, amount: nat, supported: bool)
    requires Inv(s) && Enabled(s, TryPumpFrom(amount, supported))
    ensures Inv(TryPumpFromStep(s, amount, supported))
  {
    IdleNoJob(s);
    hide Flatten;
  }

  lemma ShutdownInv(s: Pipe)
    requires Inv(s) && Enabled(s, ShutdownWrite)
    ensures Inv(ShutdownStep(s))
  {
    NothingLeft([]);
    ShutdownReaders(s);
    ShutdownConserved(s);
  }

  lemma ShutdownReaders(s: Pipe)
    requires Inv(s) && Enabled(s, ShutdownWrite)
    ensures StateOk(ShutdownStep(s))
  {
    hide Flatten, Conserved;
  }

  /** What is being served when a shutdown comes is all there is of the write or pump. */
  lemma ShutdownServes(s: Pipe)
    requires StateOk(s) && Enabled(s, ShutdownWrite)
    ensures s.st.NoState? || s.st.ShutdownedWrite? ==> s.job == NoJob
    ensures s.st.BlockedRead? ==> s.job == NoJob || s.job.ReadInto?
    ensures s.st.BlockedPumpTo? ==> s.job == NoJob || s.job.FillOut? || s.job.PumpThrough?
    ensures s.job.ReadInto? || s.job.FillOut? || s.job.PumpThrough? ==> s.later == []
  {
    hide Flatten;
  }

  lemma ShutdownConserved(s: Pipe)
    requires Inv(s) && Enabled(s, ShutdownWrite)
    ensures Conserved(ShutdownStep(s))
  {
    ShutdownServes(s);
    hide Flatten, StateOk;
    NothingLeft(s.delivered);
    NothingLeft(s.delivered + InFlight(s));
    assert s.delivered + InFlight(s) == s.delivered + (InFlight(s) + []);
  }

  // ---------------------------------------------------------------------------
  // Completions.

  /** One chunk moves from the front of a job to the delivered side. */
  lemma ChunkMoved(delivered: seq<byte>, chunks: seq<seq<byte>>, tail: seq<byte>, later: seq<byte>, offered: seq<byte>)
    requires chunks != [] && delivered + ((Flatten(chunks) + tail) + later) == offered
    ensures Size(chunks) == |chunks[0]| + Size(chunks[1..])
    ensures (delivered + chunks[0]) + ((Flatten(chunks[1..]) + tail) + later) == offered
    ensures |chunks| == 1 ==> (delivered + chunks[0]) + (tail + later) == offered && Size(chunks) == |chunks[0]|
  {
    var c, r := chunks[0], Flatten(chunks[1..]);
    assert delivered + (((c + r) + tail) + later) == (delivered + c) + ((r + tail) + later);
    if |chunks| == 1 {
      assert chunks[1..] == [] && r == [];
      assert (r + tail) + later == tail + later;
    }
  }

  lemma DrainedInv(s: Pipe)
    requires Inv(s) && s.job.DrainOut? && s.st.BlockedWrite?
    ensures s.job.chunks != []
    ensures Inv(Drained(s, s.job.chunks, s.job.rest, s.job.amount, s.job.actual))
  {
    hide Flatten;
    var chunks, rest := s.job.chunks, s.job.rest;
    ChunkMoved(s.delivered, chunks, Flatten(rest), Flatten(s.later), s.offered);
    if rest == [] { NothingLeft([]); }
  }

  lemma FilledInv(s: Pipe)
    requires Inv(s) && s.job.FillOut? && s.st.BlockedPumpTo?
    ensures s.job.chunks != []
    ensures Inv(Filled(s, s.job.chunks, s.job.size, s.job.now, s.job.more))
  {
    hide Flatten;
    var FillOut(chunks, size, now, more) := s.job;
    assert s.later == [];
    NothingLeft([]);
    ChunkMoved(s.delivered, chunks, now + Flatten(more), [], s.offered);
    FlattenOne(now);
    assert (now + Flatten(more)) + [] == now + Flatten(more);
  }

  lemma JobMode(s: Pipe)
    requires StateOk(s)
    ensures s.job.DrainOut? ==> s.st.BlockedWrite?
    ensures s.job.FillOut? ==> s.st.BlockedPumpTo?
    ensures s.job.ReadIn? ==> s.st.BlockedPumpFrom?
    ensures s.job.ReadInto? ==> s.st.BlockedRead?
    ensures s.job.PumpIn? ==> s.st.BlockedPumpFrom?
    ensures s.job.PumpThrough? ==> s.st.BlockedPumpTo?
    ensures s.job.CheckEof? ==> s.st.AbortedRead?
  {
  }

  lemma OutputWrittenInv(s: Pipe)
    requires Inv(s) && Enabled(s, OutputWritten)
    ensures Inv(OutputWrittenStep(s))
  {
    JobMode(s);
    hide Inv, Drained, Filled;
    if s.job.DrainOut? { DrainedInv(s); } else { FilledInv(s); }
  }

  /** Bytes read from an input go straight to the reader. */
  lemma Through(delivered: seq<byte>, offered: seq<byte>, data: seq<byte>)
    requires delivered + ([] + []) == offered
    ensures (delivered + data) + ([] + []) == offered + data
    ensures (delivered + data) + [] == offered + data
  {
  }

  lemma ReadInInv(s: Pipe, data: seq<byte>)
    requires Inv(s) && s.st.BlockedPumpFrom? && s.job.ReadIn? && |data| <= s.job.max
    ensures Inv(InputReadStep(s, data))
  {
    NothingLeft([]);
    hide Flatten;
    Through(s.delivered, s.offered, data);
  }

  lemma ReadIntoInv(s: Pipe, data: seq<byte>)
    requires Inv(s) && s.st.BlockedRead? && s.job.ReadInto? && |data| <= s.job.max
    ensures Inv(InputReadStep(s, data))
  {
    NothingLeft([]);
    hide Flatten;
    Through(s.delivered, s.offered, data);
  }

  lemma CheckEofInv(s: Pipe, data: seq<byte>)
    requires Inv(s) && s.st.AbortedRead? && s.job.CheckEof?
    ensures Inv(InputReadStep(s, data))
  {
    hide Flatten;
  }

  lemma InputReadInv(s: Pipe, data: seq<byte>)
    requires Inv(s) && Enabled(s, InputRead(data))
    ensures Inv(InputReadStep(s, data))
  {
    JobMode(s);
    hide Inv, InputReadStep;
    match s.job
    case ReadIn(_, _, _, _) => ReadInInv(s, data);
    case ReadInto(_, _, _) => ReadIntoInv(s, data);
    case _ => CheckEofInv(s, data);
  }

  lemma PumpInInv(s: Pipe, data: seq<byte>)
    requires Inv(s) && s.st.BlockedPumpFrom? && s.job.PumpIn? && |data| <= s.job.n
    ensures Inv(PumpedStep(s, data))
  {
    NothingLeft([]);
    hide Flatten;
    Through(s.delivered, s.offered, data);
  }

  lemma PumpThroughInv(s: Pipe, data: seq<byte>)
    requires Inv(s) && s.st.BlockedPumpTo? && s.job.PumpThrough? && |data| <= s.job.n
    ensures Inv(PumpedStep(s, data))
  {
    NothingLeft([]);
    hide Flatten;
    Through(s.delivered, s.offered, data);
  }

  lemma PumpedInv(s: Pipe, data: seq<byte>)
    requires Inv(s) && Enabled(s, Pumped(data))
    ensures Inv(PumpedStep(s, data))
  {
    JobMode(s);
    hide Inv, PumpedStep;
    if s.job.PumpIn? { PumpInInv(s, data); } else { PumpThroughInv(s, data); }
  }

  // ---------------------------------------------------------------------------
  // Runs.

  lemma StepInv(s: Pipe, e: Event)
    requires Inv(s) && Enabled(s, e)
    ensures Inv(Step(s, e))
  {
    hide Inv;
    match e
    case TryRead(min, max) => ReadInv(s, min, max);
    case PumpTo(amount) => PumpToInv(s, amount);
    case AbortRead => AbortInv(s);
    case Write(data) => WriteOneInv(s, data);
    case WritePieces(ps) => WritePiecesInv(s, ps);
    case TryPumpFrom(amount, supported) => TryPumpFromInv(s, amount, supported);
    case ShutdownWrite => ShutdownInv(s);
    case OutputWritten => OutputWrittenInv(s);
    case InputRead(d) => InputReadInv(s, d);
    case Pumped(d) => PumpedInv(s, d);
    case Continue => ContinueInv(s);
  }

  lemma {:induction false} RunInv(s: Pipe, es: seq<Event>)
    requires Inv(s) && AllEnabled(s, es)
    ensures Inv(Run(s, es))
    decreases |es|
  {
    hide Inv, Step, Enabled;
    if es != [] {
      StepInv(s, es[0]);
      RunInv(Step(s, es[0]), es[1..]);
    }
  }
}
