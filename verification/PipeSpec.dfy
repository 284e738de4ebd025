/** The in-process pipe (AsyncPipe, libraries/zc/async/async-io.cc) as a state machine: one
    step per call of a stream method and per completion of an operation the pipe has
    started on an endpoint. */
module PipeSpec {
  import opened Bytes
  import opened Wrappers

  /** The pipe's state object. */
  datatype Mode =
    | NoState
    | BlockedWrite(pieces: seq<seq<byte>>)                  // a write waits for a reader
    | BlockedRead(byteCount: nat, minBytes: nat, room: nat) // a read waits for a writer; room is left in its buffer
    | BlockedPumpFrom(amount: nat, pumpedSoFar: nat)        // a pump from an input waits for a reader
    | BlockedPumpTo(amount: nat, pumpedSoFar: nat)          // a pump to an output waits for a writer
    | AbortedRead
    | ShutdownedWrite

  /** What the state object has started on an endpoint and waits for. */
  datatype Job =
    | NoJob
    // BlockedWrite::pumpTo: the writes to the output still to complete, then the pieces that stay
    | DrainOut(chunks: seq<seq<byte>>, rest: seq<seq<byte>>, amount: nat, actual: nat)
    // BlockedPumpTo::write: likewise, then what is written next and what after that
    | FillOut(chunks: seq<seq<byte>>, size: nat, now: seq<byte>, more: seq<seq<byte>>)
    // BlockedPumpFrom::tryRead: a read of the input on behalf of a reader
    | ReadIn(min: nat, max: nat, minBytes: nat, maxBytes: nat)
    // BlockedRead::tryPumpFrom: a read of the input into the waiting buffer
    | ReadInto(min: nat, max: nat, left: nat)
    // BlockedPumpFrom::pumpTo and BlockedPumpTo::tryPumpFrom: a pump from the input to the output
    | PumpIn(n: nat, left: nat)
    | PumpThrough(n: nat, left: nat)
    // after an abort: is the input at its end, after so many bytes?
    | CheckEof(pumped: nat)

  /** The reading side: its last result, or the call it waits for. `start` is the number of
      bytes delivered before the call, `acc` the count carried over from earlier legs, and
      `uncounted` the bytes a finished pump has moved and does not count. */
  datatype Reader =
    | ReadNone
    | ReadDone(start: nat, min: nat, max: nat, count: nat)
    | PumpDone(start: nat, amount: nat, count: nat, uncounted: nat)
    | ReadRejected
    | Reading(start: nat, min: nat, max: nat, acc: nat)
    | Pumping(start: nat, amount: nat, acc: nat)

  /** The writing side. `part`: the current part of the write is not resolved yet; `later`
      (in the pipe) is what its continuation will write. `start` counts the bytes offered
      before a pump; `uncounted` the bytes its accumulated count misses. */
  datatype Writer =
    | WriteNone
    | WriteDone
    | WriteRejected
    | PumpInDone(start: nat, amount: nat, count: nat, uncounted: nat)
    | PumpUnsupported
    | Writing(part: bool)
    | PumpingIn(start: nat, amount: nat, acc: nat, uncounted: nat)

  datatype Pipe = Pipe(
    st: Mode,
    job: Job,
    later: seq<seq<byte>>,
    reader: Reader,
    writer: Writer,
    offered: seq<byte>,    // everything writers have handed to the pipe, in order
    delivered: seq<byte>,  // everything readers have received, in order
    dropped: seq<byte>)    // what a shutdown has cut off the last write

  datatype Event =
    | TryRead(min: nat, max: nat)
    | PumpTo(amount: nat)
    | AbortRead
    | Write(data: seq<byte>)
    | WritePieces(pieces: seq<seq<byte>>)
    | TryPumpFrom(amount: nat, supported: bool) // supported: does the output of a waiting pump accept pumps?
    | ShutdownWrite
    | OutputWritten                             // a write to the output has completed
    | InputRead(data: seq<byte>)                // a read of the input has completed
    | Pumped(data: seq<byte>)                   // a pump from input to output has completed
    | Continue                                  // a gather-write goes on with its remaining pieces

  const Init: Pipe := Pipe(NoState, NoJob, [], ReadNone, WriteNone, [], [], [])

  predicate ReaderIdle(s: Pipe) {
    !s.reader.Reading? && !s.reader.Pumping?
  }

  predicate WriterIdle(s: Pipe) {
    !s.writer.Writing? && !s.writer.PumpingIn?
  }

  /** The pipe demands one read and one write at a time, no write after shutdown, no shutdown while
      a write or pump waits for a reader, and that a read asks for no more than its buffer holds;
      endpoints return no more than was asked. */
  predicate Enabled(s: Pipe, e: Event) {
    match e
    case TryRead(min, max) => ReaderIdle(s) && min <= max
    case PumpTo(_) => ReaderIdle(s)
    case AbortRead => true
    case Write(_) => WriterIdle(s) && s.st != ShutdownedWrite
    case WritePieces(_) => WriterIdle(s) && s.st != ShutdownedWrite
    case TryPumpFrom(_, _) => WriterIdle(s) && s.st != ShutdownedWrite
    case ShutdownWrite => !s.st.BlockedWrite? && !s.st.BlockedPumpFrom?
    case OutputWritten => s.job.DrainOut? || s.job.FillOut?
    case InputRead(d) => ((s.job.ReadIn? || s.job.ReadInto?) && |d| <= s.job.max) || (s.job.CheckEof? && |d| <= 1)
    case Pumped(d) => (s.job.PumpIn? || s.job.PumpThrough?) && |d| <= s.job.n
    case Continue => s.writer == Writing(false)
  }

  // ---------------------------------------------------------------------------
  // Promises.

  /** The reader's promise resolves with `n` bytes on top of its earlier legs. */
  function ResolveRead(s: Pipe, n: nat): Pipe {
    match s.reader
    case Reading(start, min, max, acc) => s.(reader := ReadDone(start, min, max, acc + n))
    case Pumping(start, amount, acc) => s.(reader := PumpDone(start, amount, acc + n, 0))
    case _ => s
  }

  /** The reader's pump ends with `n` bytes on top of its earlier legs, and without `sent` more
      that have gone out. */
  function CutPump(s: Pipe, n: nat, sent: nat): Pipe {
    match s.reader
    case Pumping(start, amount, acc) => s.(reader := PumpDone(start, amount, acc + n, sent))
    case _ => s
  }

  /** The current part of a write resolves: either its continuation is due, or the write is done. */
  function ResolvePart(s: Pipe): Pipe {
    if s.later == [] then s.(writer := WriteDone) else s.(writer := Writing(false))
  }

  /** The pump's promise resolves with `n` bytes on top of its earlier legs. */
  function ResolvePumpIn(s: Pipe, n: nat): Pipe {
    match s.writer
    case PumpingIn(start, amount, acc, lost) => s.(writer := PumpInDone(start, amount, acc + n, lost))
    case _ => s
  }

  /** The reader goes on with another leg after `n` more bytes. */
  function CarryRead(s: Pipe, n: nat): Pipe {
    match s.reader
    case Reading(start, min, max, acc) => s.(reader := Reading(start, min, max, acc + n))
    case Pumping(start, amount, acc) => s.(reader := Pumping(start, amount, acc + n))
    case _ => s
  }

  function Deliver(s: Pipe, d: seq<byte>): Pipe {
    s.(delivered := s.delivered + d)
  }

  /** The write now waits for a reader with the given pieces. */
  function Park(s: Pipe, ps: seq<seq<byte>>): Pipe {
    s.(st := BlockedWrite(ps), writer := Writing(true))
  }

  /** pumpTo on a pipe without state. */
  function AwaitPump(s: Pipe, amount: nat): Pipe {
    if amount == 0 then ResolveRead(s, 0) else s.(st := BlockedPumpTo(amount, 0))
  }

  // ---------------------------------------------------------------------------
  // The reading side.

  /** A read takes what it can from the waiting pieces. If it takes all of them and lacks
      bytes, it goes on as a new read. */
  function ReadMeets(r: Pipe, ps: seq<seq<byte>>, min: nat, max: nat): Pipe {
    if max < Size(ps) then
      ResolveRead(Deliver(r, Flatten(ps)[..max]), max).(st := BlockedWrite(Drop(ps, max)))
    else
      var t := ResolvePart(Deliver(r, Flatten(ps))).(st := NoState);
      if Size(ps) >= min then ResolveRead(t, Size(ps))
      else CarryRead(t, Size(ps)).(st := BlockedRead(0, min - Size(ps), max - Size(ps)))
  }

  function ReadStep(s: Pipe, min: nat, max: nat): Pipe {
    if min == 0 then s.(reader := ReadDone(|s.delivered|, min, max, 0))
    else
      var r := s.(reader := Reading(|s.delivered|, min, max, 0));
      match s.st
      case NoState => r.(st := BlockedRead(0, min, max))
      case BlockedWrite(ps) => ReadMeets(r, ps, min, max)
      case BlockedPumpFrom(a, d) =>
        if a < d then s else r.(job := ReadIn(Min(a - d, min), Min(a - d, max), min, max))
      case AbortedRead => s.(reader := ReadRejected)
      case ShutdownedWrite => ResolveRead(r, 0)
      case _ => s
  }

  /** The separate writes by which the first `amount` bytes of waiting pieces go to an output. */
  function DrainChunks(ps: seq<seq<byte>>, amount: nat): seq<seq<byte>>
    requires ps != []
  {
    var i := Covered(ps, amount);
    if i == 0 then (if amount < |ps[0]| then [ps[0][..amount]] else [])
    else
      var n := amount - Size(ps[..i]);
      [ps[0]] + (if i > 1 then [Flatten(ps[1..i])] else []) +
      (if i < |ps| && 0 < n <= |ps[i]| then [ps[i][..n]] else [])
  }

  function PumpToStep(s: Pipe, amount: nat): Pipe {
    if amount == 0 then s.(reader := PumpDone(|s.delivered|, 0, 0, 0))
    else
      var r := s.(reader := Pumping(|s.delivered|, amount, 0));
      match s.st
      case NoState => r.(st := BlockedPumpTo(amount, 0))
      case BlockedWrite(ps) =>
        if ps == [] then s
        else r.(job := DrainOut(DrainChunks(ps, amount), Drop(ps, Min(amount, Size(ps))), amount,
                                  Min(amount, Size(ps))))
      case BlockedPumpFrom(a, d) => if a < d then s else r.(job := PumpIn(Min(amount, a - d), amount))
      case AbortedRead => s.(reader := ReadRejected)
      case ShutdownedWrite => ResolveRead(r, 0)
      case _ => s
  }

  /** What waits for an endpoint is cancelled, and so is the call that started it. */
  function Cancel(s: Pipe): Pipe {
    match s.job
    case DrainOut(_, _, _, _) => s.(job := NoJob, reader := ReadRejected)
    case ReadIn(_, _, _, _) => s.(job := NoJob, reader := ReadRejected)
    case PumpIn(_, _) => s.(job := NoJob, reader := ReadRejected)
    case FillOut(_, _, _, _) => s.(job := NoJob, writer := WriteRejected, later := [])
    case ReadInto(_, _, _) => s.(job := NoJob, writer := WriteRejected, later := [])
    case PumpThrough(_, _) => s.(job := NoJob, writer := WriteRejected, later := [])
    case _ => s
  }

  function AbortStep(s: Pipe): Pipe {
    match s.st
    case NoState => s.(st := AbortedRead)
    case BlockedWrite(_) => Cancel(s).(st := AbortedRead, writer := WriteRejected, later := [])
    case BlockedPumpFrom(_, d) => Cancel(s).(st := AbortedRead, job := CheckEof(d))
    case BlockedRead(_, _, _) => Cancel(s).(st := AbortedRead, reader := ReadRejected)
    case BlockedPumpTo(_, _) => Cancel(s).(st := AbortedRead, reader := ReadRejected)
    case _ => s
  }

  // ---------------------------------------------------------------------------
  // The writing side.

  /** The pieces go into a waiting read's buffer and leave room. */
  function WriteFits(s: Pipe, ps: seq<seq<byte>>): Pipe
    requires s.st.BlockedRead? && Size(ps) < s.st.room
  {
    var count := s.st.byteCount + Size(ps);
    var t := ResolvePart(Deliver(s, Flatten(ps)));
    if count >= s.st.minBytes then ResolveRead(t, count).(st := NoState)
    else t.(st := BlockedRead(count, s.st.minBytes, s.st.room - Size(ps)))
  }

  /** The pieces fill a waiting read's buffer, and what is left is written anew: if a piece was
      cut, first the rest of it alone, and the remaining pieces in a continuation. */
  function WriteFills(s: Pipe, ps: seq<seq<byte>>): Pipe
    requires s.st.BlockedRead? && Size(ps) >= s.st.room
  {
    var room := s.st.room;
    var t := ResolveRead(Deliver(s, Flatten(ps)[..room]), s.st.byteCount + room).(st := NoState);
    var rest := Drop(ps, room);
    if rest == [] then ResolvePart(t)
    else if Cuts(ps, room) then Park(t.(later := rest[1..]), [rest[0]])
    else Park(t, rest)
  }

  /** The pieces go to a waiting pump's output, as far as it still needs bytes. */
  function WriteToPump(s: Pipe, ps: seq<seq<byte>>, needed: nat): Pipe {
    var w := s.(writer := Writing(true));
    if Size(ps) <= needed then w.(job := FillOut([Flatten(ps)], Size(ps), [], []))
    else
      var rest := Drop(ps, needed);
      if Cuts(ps, needed) && rest != [] then w.(job := FillOut(FillChunks(ps, needed), needed, rest[0], rest[1..]))
      else w.(job := FillOut(FillChunks(ps, needed), needed, [], rest))
  }

  /** A (part of a) write of pieces that do not start with an empty one meets the pipe's state. */
  function WriteStep(s: Pipe, ps: seq<seq<byte>>): Pipe
    requires ps != []
  {
    match s.st
    case NoState => Park(s, ps)
    case BlockedRead(_, _, room) => if Size(ps) < room then WriteFits(s, ps) else WriteFills(s, ps)
    case BlockedPumpTo(a, d) => if a < d then s else WriteToPump(s, ps, a - d)
    case AbortedRead => s.(writer := WriteRejected, later := [])
    case ShutdownedWrite => s.(writer := WriteRejected, later := [], dropped := s.dropped + Flatten(ps))
    case _ => s
  }

  /** The separate writes by which a gather-write fills up a waiting pump. */
  function FillChunks(ps: seq<seq<byte>>, needed: nat): seq<seq<byte>> {
    var i := Covered(ps, needed);
    var n := needed - Size(ps[..i]);
    [Flatten(ps[..i])] + (if i < |ps| && 0 < n <= |ps[i]| then [ps[i][..n]] else [])
  }

  /** A write of one buffer; it differs from a gather-write only in how it fills a waiting pump. */
  function WriteOneStep(s: Pipe, data: seq<byte>): Pipe {
    if data == [] then s.(writer := WriteDone)
    else
      var t := s.(offered := s.offered + data);
      if s.st.BlockedPumpTo? then
        if s.st.amount < s.st.pumpedSoFar then s
        else
          var n := Min(s.st.amount - s.st.pumpedSoFar, |data|);
          t.(job := FillOut([data[..n]], n, data[n..], []), writer := Writing(true))
      else WriteStep(t, [data])
  }

  /** A gather-write skips leading empty pieces, and with nothing left is done at once. */
  function WritePiecesStep(s: Pipe, ps: seq<seq<byte>>): Pipe {
    var ps' := Drop(ps, 0);
    if ps' == [] then s.(writer := WriteDone)
    else WriteStep(s.(offered := s.offered + Flatten(ps)), ps')
  }

  function ContinueStep(s: Pipe): Pipe {
    var ps := Drop(s.later, 0);
    var t := s.(later := []);
    if ps == [] then ResolvePart(t) else WriteStep(t, ps)
  }

  function TryPumpFromStep(s: Pipe, amount: nat, supported: bool): Pipe {
    if amount == 0 then s.(writer := PumpInDone(|s.offered|, 0, 0, 0))
    else
      var w := s.(writer := PumpingIn(|s.offered|, amount, 0, 0));
      match s.st
      case NoState => w.(st := BlockedPumpFrom(amount, 0))
      case BlockedRead(count, min, room) =>
        if min < count then s else w.(job := ReadInto(Min(amount, min - count), Min(amount, room), amount))
      case BlockedPumpTo(a, d) =>
        if a < d then s
        else if supported then w.(job := PumpThrough(Min(amount, a - d), amount))
        else s.(writer := PumpUnsupported)
      case AbortedRead => w.(job := CheckEof(0))
      case _ => s
  }

  /** Bytes of the current part of a write that no reader has received. */
  function InFlight(s: Pipe): seq<byte> {
    match s.job
    case DrainOut(chunks, rest, _, _) => Flatten(chunks) + Flatten(rest)
    case FillOut(chunks, _, now, more) => Flatten(chunks) + (now + Flatten(more))
    case _ => if s.st.BlockedWrite? then Flatten(s.st.pieces) else []
  }

  /** Bytes that a gather-write has sent to the output of a waiting pump and the pump does not
      count yet. */
  function Sent(s: Pipe): nat {
    if s.job.FillOut? && Size(s.job.chunks) <= s.job.size then s.job.size - Size(s.job.chunks) else 0
  }

  /** A shutdown cancels a pump or write that is being served, and with it what has not gone out. */
  function ShutdownStep(s: Pipe): Pipe {
    match s.st
    case NoState => s.(st := ShutdownedWrite)
    case BlockedRead(count, _, _) => ResolveRead(Cancel(s), count).(st := ShutdownedWrite)
    case BlockedPumpTo(_, d) =>
      CutPump(Cancel(s), d, Sent(s)).(st := ShutdownedWrite, dropped := s.dropped + InFlight(s))
    case _ => s
  }

  // ---------------------------------------------------------------------------
  // Completions.

  /** A write to the output of a pump that drains a waiting write has completed. */
  function Drained(s: Pipe, chunks: seq<seq<byte>>, rest: seq<seq<byte>>, amount: nat, actual: nat): Pipe
    requires chunks != []
  {
    var t := Deliver(s, chunks[0]);
    if |chunks| > 1 then t.(job := DrainOut(chunks[1..], rest, amount, actual))
    else if rest != [] then ResolveRead(t, amount).(st := BlockedWrite(rest), job := NoJob)
    else
      var u := ResolvePart(t).(st := NoState, job := NoJob);
      if actual == amount then ResolveRead(u, actual)
      else if actual < amount then AwaitPump(CarryRead(u, actual), amount - actual)
      else s
  }

  /** A write to the output of a waiting pump has completed. */
  function Filled(s: Pipe, chunks: seq<seq<byte>>, size: nat, now: seq<byte>, more: seq<seq<byte>>): Pipe
    requires chunks != [] && s.st.BlockedPumpTo?
  {
    var t := Deliver(s, chunks[0]);
    if |chunks| > 1 then t.(job := FillOut(chunks[1..], size, now, more))
    else
      var d := s.st.pumpedSoFar + size;
      var u := if d == s.st.amount then ResolveRead(t, d).(st := NoState)
               else t.(st := BlockedPumpTo(s.st.amount, d));
      var v := u.(job := NoJob, later := more);
      if now == [] then ResolvePart(v) else Park(v, [now])
  }

  function OutputWrittenStep(s: Pipe): Pipe {
    match s.job
    case DrainOut(chunks, rest, amount, actual) => if chunks == [] then s else Drained(s, chunks, rest, amount, actual)
    case FillOut(chunks, size, now, more) =>
      if chunks == [] || !s.st.BlockedPumpTo? then s else Filled(s, chunks, size, now, more)
    case _ => s
  }

  function InputReadStep(s: Pipe, data: seq<byte>): Pipe {
    var n := |data|;
    match s.job
    case ReadIn(min, max, minBytes, maxBytes) =>
      if !s.st.BlockedPumpFrom? || n > maxBytes then s
      else
        var d := s.st.pumpedSoFar + n;
        var t := Deliver(s.(offered := s.offered + data, job := NoJob), data);
        var u := if d == s.st.amount || n < min then ResolvePumpIn(t, d).(st := NoState)
                 else t.(st := BlockedPumpFrom(s.st.amount, d));
        if n >= minBytes then ResolveRead(u, n)
        else CarryRead(u, n).(st := BlockedRead(0, minBytes - n, maxBytes - n))
    case ReadInto(min, max, left) =>
      if !s.st.BlockedRead? || n > s.st.room || n > left then s
      else
        var t := Deliver(s.(offered := s.offered + data, job := NoJob), data);
        var count := s.st.byteCount + n;
        if count >= s.st.minBytes then
          var u := ResolveRead(t, count).(st := NoState);
          if n < left then CarryPump(u, n, 0).(st := BlockedPumpFrom(left - n, 0))
          else ResolvePumpIn(u, n)
        else ResolvePumpIn(t, n).(st := BlockedRead(count, s.st.minBytes, s.st.room - n))
    case CheckEof(pumped) =>
      if n == 0 then ResolvePumpIn(s.(job := NoJob), pumped)
      else s.(job := NoJob, writer := WriteRejected)
    case _ => s
  }

  /** The pump goes on with another leg after `counted` bytes it remembers and `lost` it does not. */
  function CarryPump(s: Pipe, counted: nat, lost: nat): Pipe {
    match s.writer
    case PumpingIn(start, amount, acc, uncounted) =>
      s.(writer := PumpingIn(start, amount, acc + counted, uncounted + lost))
    case _ => s
  }

  function PumpedStep(s: Pipe, data: seq<byte>): Pipe {
    var n := |data|;
    match s.job
    case PumpIn(asked, left) =>
      if !s.st.BlockedPumpFrom? || n > left then s
      else
        var d := s.st.pumpedSoFar + n;
        var t := Deliver(s.(offered := s.offered + data, job := NoJob), data);
        if d == s.st.amount || n < asked then
          AwaitPump(CarryRead(ResolvePumpIn(t, d), n).(st := NoState), left - n)
        else ResolveRead(t, left).(st := BlockedPumpFrom(s.st.amount, d))
    case PumpThrough(asked, left) =>
      if !s.st.BlockedPumpTo? || n > left then s
      else
        var d := s.st.pumpedSoFar + n;
        var t := Deliver(s.(offered := s.offered + data, job := NoJob), data);
        var u := if d == s.st.amount then ResolveRead(t, d).(st := NoState)
                 else t.(st := BlockedPumpTo(s.st.amount, d));
        if n == left || n < asked then ResolvePumpIn(u, n)
        // The rest is pumped in a new leg, whose result alone becomes the result.
        else CarryPump(u, 0, n).(st := BlockedPumpFrom(left - n, 0))
    case _ => s
  }

  function Step(s: Pipe, e: Event): Pipe {
    match e
    case TryRead(min, max) => ReadStep(s, min, max)
    case PumpTo(amount) => PumpToStep(s, amount)
    case AbortRead => AbortStep(s)
    case Write(data) => WriteOneStep(s, data)
    case WritePieces(ps) => WritePiecesStep(s, ps)
    case TryPumpFrom(amount, supported) => TryPumpFromStep(s, amount, supported)
    case ShutdownWrite => ShutdownStep(s)
    case OutputWritten => OutputWrittenStep(s)
    case InputRead(d) => InputReadStep(s, d)
    case Pumped(d) => PumpedStep(s, d)
    case Continue => ContinueStep(s)
  }

  predicate AllEnabled(s: Pipe, es: seq<Event>)
    decreases |es|
  {
    es == [] || (Enabled(s, es[0]) && AllEnabled(Step(s, es[0]), es[1..]))
  }

  function Run(s: Pipe, es: seq<Event>): Pipe
    decreases |es|
  {
    if es == [] then s else Run(Step(s, es[0]), es[1..])
  }
}
