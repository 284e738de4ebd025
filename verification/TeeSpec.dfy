/** A tee (AsyncTee, libraries/zc/async/async-io.cc) as a state machine: branches with
    buffers and sinks, and the steps of the loop that pulls from the inner stream. */
module TeeSpec {
  import opened Bytes
  import opened Wrappers

  const MAX_BLOCK_SIZE := 16384
  const MAX_VALUE := 0xFFFF_FFFF_FFFF_FFFF

  /** Why nothing more is pulled. */
  datatype Stoppage = Going | Eof | Failed

  /** A read or a pump that waits. `writing`: bytes of the buffer on their way to the pump's
      output; 0 if no write is in progress. */
  datatype Sink =
    | NoSink
    | ReadSink(room: nat, minBytes: nat, readSoFar: nat)
    | PumpSink(limit: nat, pumpedSoFar: nat, writing: nat)

  /** The branch's last call: how it ended, or that it waits. `start` is the number of bytes
      consumed before it. */
  datatype Call =
    | NoCall
    | Reading(start: nat, min: nat, max: nat)
    | Pumping(start: nat, amount: nat)
    | ReadDone(start: nat, min: nat, max: nat, count: nat)
    | PumpDone(start: nat, amount: nat, count: nat)
    | Rejected
    | Cancelled

  /** `consumed`: all bytes that have left the buffer. A clone starts with those of its original. */
  datatype Branch = Branch(buffer: seq<seq<byte>>, sink: Sink, call: Call, consumed: seq<byte>)

  /** Where the loop is: not pulling, about to fill the sinks, waiting for the writes this has
      started, or waiting for the inner stream. */
  datatype Phase = Idle | Filling | Filled | Pulling(minBytes: nat, maxBytes: nat)

  datatype Tee = Tee(
    branches: seq<Branch>,
    phase: Phase,
    stoppage: Stoppage,
    length: Option<nat>,
    limit: nat,
    pulled: seq<byte>)  // everything the inner stream has returned

  datatype Event =
    | TryRead(i: nat, min: nat, max: nat)
    | PumpTo(i: nat, amount: nat)
    | Clone(i: nat)
    | DropBranch(i: nat)
    | Cancel(i: nat)
    | WriteDone(i: nat)
    | WriteFailed(i: nat)
    | Fill
    | Analyze
    | Pulled(data: seq<byte>)
    | PullFailed

  function Init(length: Option<nat>, limit: nat): Tee {
    var b := Branch([], NoSink, NoCall, []);
    Tee([b, b], Idle, Going, length, limit, [])
  }

  predicate IsWriting(b: Branch) {
    b.sink.PumpSink? && b.sink.writing > 0
  }

  /** One call at a time on a branch, none in progress when it is dropped, and the inner stream
      returns no more than it was asked for and than its length. */
  predicate Enabled(s: Tee, e: Event) {
    match e
    case TryRead(i, min, max) => i < |s.branches| && s.branches[i].sink == NoSink && min <= max
    case PumpTo(i, _) => i < |s.branches| && s.branches[i].sink == NoSink
    case Clone(i) => i < |s.branches|
    case DropBranch(i) => i < |s.branches| && s.branches[i].sink == NoSink
    case Cancel(i) => i < |s.branches| && s.branches[i].sink != NoSink
    case WriteDone(i) => i < |s.branches| && IsWriting(s.branches[i])
    case WriteFailed(i) => i < |s.branches| && IsWriting(s.branches[i])
    case Fill => s.phase == Filling
    case Analyze => s.phase == Filled && forall i | 0 <= i < |s.branches| :: !IsWriting(s.branches[i])
    case Pulled(d) => s.phase.Pulling? && |d| <= s.phase.maxBytes && (s.length.Some? ==> |d| <= s.length.value)
    case PullFailed => s.phase.Pulling?
  }

  // ---------------------------------------------------------------------------
  // Buffers.

  /** The arrays left when up to `room` bytes are taken; empty arrays go only while there is room. */
  function Left(buffer: seq<seq<byte>>, room: nat): seq<seq<byte>> {
    if room == 0 || buffer == [] then buffer
    else if |buffer[0]| <= room then Left(buffer[1..], room - |buffer[0]|)
    else [buffer[0][room..]] + buffer[1..]
  }

  /** The bytes taken. */
  function Taken(buffer: seq<seq<byte>>, room: nat): seq<byte> {
    Flatten(buffer)[..Min(room, Size(buffer))]
  }

  /** A branch gives up to `room` bytes away. */
  function Consume(b: Branch, room: nat): Branch {
    b.(buffer := Left(b.buffer, room), consumed := b.consumed + Taken(b.buffer, room))
  }

  // ---------------------------------------------------------------------------
  // Sinks.

  function FulfillRead(b: Branch, count: nat): Branch {
    match b.call
    case Reading(start, min, max) => b.(sink := NoSink, call := ReadDone(start, min, max, count))
    case _ => b.(sink := NoSink)
  }

  function FulfillPump(b: Branch, count: nat): Branch {
    match b.call
    case Pumping(start, amount) => b.(sink := NoSink, call := PumpDone(start, amount, count))
    case _ => b.(sink := NoSink)
  }

  function Reject(b: Branch): Branch {
    b.(sink := NoSink, call := Rejected)
  }

  function FillRead(b: Branch, stoppage: Stoppage): Branch
    requires b.sink.ReadSink?
  {
    var ReadSink(room, minBytes, readSoFar) := b.sink;
    var n := Min(room, Size(b.buffer));
    var min := minBytes - Min(n, minBytes);
    var c := Consume(b, room).(sink := ReadSink(room - n, min, readSoFar + n));
    if min == 0 then FulfillRead(c, readSoFar + n)
    else if n == 0 && c.buffer == [] && stoppage != Going then
      if stoppage == Eof || readSoFar + n > 0 then FulfillRead(c, readSoFar + n) else Reject(c)
    else c
  }

  function FillPump(b: Branch, stoppage: Stoppage): Branch
    requires b.sink.PumpSink?
  {
    var PumpSink(limit, pumpedSoFar, writing) := b.sink;
    var n := Min(limit, Size(b.buffer));
    var c := Consume(b, limit);
    if n > 0 then c.(sink := PumpSink(limit, pumpedSoFar, n))
    else if stoppage == Eof then FulfillPump(c, pumpedSoFar)
    else if stoppage == Failed then Reject(c)
    else c
  }

  function FillBranch(b: Branch, stoppage: Stoppage): Branch {
    match b.sink
    case NoSink => b
    case ReadSink(_, _, _) => FillRead(b, stoppage)
    case PumpSink(_, _, _) => FillPump(b, stoppage)
  }

  /** The pump's write has completed. */
  function Written(b: Branch): Branch {
    if !IsWriting(b) || b.sink.writing > b.sink.limit then b
    else
      var limit, pumped := b.sink.limit - b.sink.writing, b.sink.pumpedSoFar + b.sink.writing;
      if limit == 0 then FulfillPump(b, pumped) else b.(sink := PumpSink(limit, pumped, 0))
  }

  // ---------------------------------------------------------------------------
  // Calls.

  function ReadBranch(b: Branch, min: nat, max: nat, stoppage: Stoppage): Branch {
    var n := Min(max, Size(b.buffer));
    var c := Consume(b, max).(call := Reading(|b.consumed|, min, max));
    if n >= min then FulfillRead(c, n)
    else if c.buffer == [] && stoppage != Going then
      if stoppage == Eof || n > 0 then FulfillRead(c, n) else Reject(c)
    else c.(sink := ReadSink(max - n, min - n, n))
  }

  function PumpBranch(b: Branch, amount: nat, stoppage: Stoppage): Branch {
    var c := b.(call := Pumping(|b.consumed|, amount));
    if amount == 0 then FulfillPump(c, 0)
    else if c.buffer == [] && stoppage == Eof then FulfillPump(c, 0)
    else if c.buffer == [] && stoppage == Failed then Reject(c)
    else c.(sink := PumpSink(amount, 0, 0))
  }

  /** ensurePulling, when a call has left a sink. */
  function EnsurePulling(s: Tee, b: Branch): Tee {
    if b.sink != NoSink && s.phase == Idle then s.(phase := Filling) else s
  }

  function SetBranch(s: Tee, i: nat, b: Branch): Tee {
    if i < |s.branches| then s.(branches := s.branches[i := b]) else s
  }

  /** A call has turned branch `i` into `b`. */
  function CallStep(s: Tee, i: nat, b: Branch): Tee {
    EnsurePulling(SetBranch(s, i, b), b)
  }

  /** A clone has the same bytes before it, in one array. */
  function CloneOf(b: Branch): Branch {
    Branch([Flatten(b.buffer)], NoSink, NoCall, b.consumed)
  }

  // ---------------------------------------------------------------------------
  // The pull loop.

  function FillAll(bs: seq<Branch>, stoppage: Stoppage): (r: seq<Branch>)
    ensures |r| == |bs| && forall i | 0 <= i < |bs| :: r[i] == FillBranch(bs[i], stoppage)
  {
    if bs == [] then [] else FillAll(bs[..|bs| - 1], stoppage) + [FillBranch(bs[|bs| - 1], stoppage)]
  }

  function ProduceAll(bs: seq<Branch>, data: seq<byte>): (r: seq<Branch>)
    ensures |r| == |bs| && forall i | 0 <= i < |bs| :: r[i] == bs[i].(buffer := bs[i].buffer + [data])
  {
    if bs == [] then []
    else var b := bs[|bs| - 1]; ProduceAll(bs[..|bs| - 1], data) + [b.(buffer := b.buffer + [data])]
  }

  /** The fill pass. */
  function FillStep(s: Tee): Tee {
    s.(branches := FillAll(s.branches, s.stoppage), phase := Filled)
  }

  function NeedMin(b: Branch): nat {
    match b.sink
    case NoSink => 0
    case ReadSink(_, minBytes, _) => minBytes
    case PumpSink(_, _, _) => 1
  }

  function NeedMax(b: Branch): nat {
    match b.sink
    case NoSink => MAX_VALUE
    case ReadSink(room, _, _) => room
    case PumpSink(limit, _, _) => limit
  }

  /** The largest minimum and the smallest maximum of all sinks. */
  function LargestMin(bs: seq<Branch>): nat {
    if bs == [] then 0 else Max(LargestMin(bs[..|bs| - 1]), NeedMin(bs[|bs| - 1]))
  }

  function SmallestMax(bs: seq<Branch>): nat {
    if bs == [] then MAX_VALUE else Min(SmallestMax(bs[..|bs| - 1]), NeedMax(bs[|bs| - 1]))
  }

  predicate HasSink(bs: seq<Branch>) {
    exists i | 0 <= i < |bs| :: bs[i].sink != NoSink
  }

  predicate AllFit(bs: seq<Branch>, n: nat, limit: nat) {
    forall i | 0 <= i < |bs| :: Size(bs[i].buffer) + n <= limit
  }

  /** How much to ask the inner stream for at most. */
  function ReadSize(bs: seq<Branch>, limit: nat): nat {
    var min := LargestMin(bs);
    Max(min, Min(Min(Max(min, SmallestMax(bs)), MAX_BLOCK_SIZE), limit))
  }

  function AnalyzeStep(s: Tee): Tee {
    if !HasSink(s.branches) then s.(phase := Idle)
    else if s.stoppage != Going then s.(phase := Filling)
    else if !AllFit(s.branches, ReadSize(s.branches, s.limit), s.limit) then s.(stoppage := Failed, phase := Filling)
    else s.(phase := Pulling(LargestMin(s.branches), ReadSize(s.branches, s.limit)))
  }

  function PulledStep(s: Tee, data: seq<byte>): Tee
    requires s.phase.Pulling?
  {
    s.(branches := ProduceAll(s.branches, data),
       phase := Filling,
       length := if s.length.Some? && s.length.value >= |data| then Some(s.length.value - |data|) else s.length,
       stoppage := if |data| < s.phase.minBytes then Eof else s.stoppage,
       pulled := s.pulled + data)
  }

  function Step(s: Tee, e: Event): Tee
    requires Enabled(s, e)
  {
    match e
    case TryRead(i, min, max) =>
      CallStep(s, i, ReadBranch(s.branches[i], min, max, s.stoppage))
    case PumpTo(i, amount) =>
      CallStep(s, i, PumpBranch(s.branches[i], amount, s.stoppage))
    case Clone(i) => s.(branches := s.branches + [CloneOf(s.branches[i])])
    case DropBranch(i) => s.(branches := s.branches[..i] + s.branches[i + 1..])
    case Cancel(i) => SetBranch(s, i, s.branches[i].(sink := NoSink, call := Cancelled))
    case WriteDone(i) => SetBranch(s, i, Written(s.branches[i]))
    case WriteFailed(i) => SetBranch(s, i, Reject(s.branches[i]))
    case Fill => FillStep(s)
    case Analyze => AnalyzeStep(s)
    case Pulled(data) => PulledStep(s, data)
    case PullFailed => s.(stoppage := Failed, phase := Filling)
  }

  predicate AllEnabled(s: Tee, es: seq<Event>)
    decreases |es|
  {
    es == [] || (Enabled(s, es[0]) && AllEnabled(Step(s, es[0]), es[1..]))
  }

  function Run(s: Tee, es: seq<Event>): Tee
    requires AllEnabled(s, es)
    decreases |es|
  {
    if es == [] then s else Run(Step(s, es[0]), es[1..])
  }
}
