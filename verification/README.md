# zc runtime: verified models

Dafny models of the hard parts of the zc asynchronous runtime and core library, with proofs of
what their comments promise. `dafny verify dfyconfig.toml` checks everything.

Most components come in two layers. A state machine on values (`...Spec`, `EventQueue`, and the
`Step` functions of the other modules) has one event for each call and one for each continuation or
completion, so a run is any sequence of enabled events; the main results are about every such run. A
class (`AsyncPipe`, `AsyncTee`, `EventLoop`, ...) has the fields and loops of the program, and each of
its methods is proved to take exactly the machine's step, so that what is proved of runs holds of the objects.
What the operating system, another stream
or another thread does is a parameter of the event: the bytes a read returns, the count of a short
write, the address of new memory, the next thread to move.

| files | what they model |
|---|---|
| `Wrappers`, `Bytes` | optional values, byte strings in pieces |
| `PipeSpec`, `PipeProof`, `PipePromises`, `PipeCalls`, `PipeTransfers`, `PipeMachine` | the in-process pipe with its state objects and hand-offs |
| `TeeSpec`, `TeeProof`, `TeePromises`, `TeeCalls`, `TeeMachine` | the tee: branches, buffers, sinks, the pull loop |
| `EventQueue`, `EventOrder`, `EventFiring`, `IntrusiveQueue` | the event queue as a sequence with two indices, and as the linked list of `next` and `prev` slots on the heap |
| `CrossThread`, `CrossThreadProgress`, `CrossThreadDelivery` | the cross-thread promise, one atomic access per step |
| `PromiseArena` | placement and ownership of promise nodes in shared arenas |
| `Alignment`, `ArenaAllocator` | rounding by masks, and the chunk allocator |
| `Cidr`, `NetworkFilters`, `NetworkTables` | address ranges and filter decisions |
| `GatherWrite` | resumption of gather-writes after short writes |
| `AggregateAccept` | accepting from several receivers |
| `Combinators` | exclusive joins, array joins and races of promises |
| `Timers` | the timer queue and its sleeping hooks |
| `Glob` | the glob automaton |
| `Parser` | the recursive-descent expression parser |

## Where the code differs from what is said of it

- A pump into the pipe that meets a waiting pump which wants fewer bytes goes on with `input.pumpTo`
  and returns that call's result alone (`libraries/zc/async/async-io.cc:1380-1382`), so its count leaves out
  the bytes of the first leg. The other hand-offs add up. `PumpCountIff` says exactly when the count is
  right, `PumpCountCanBeShort` gives a run.
- A shutdown resolves a waiting pump with what it counts (`libraries/zc/async/async-io.cc:1388-1393`). The parts of a
  gather-write that have gone out are counted only when the whole has (`PumpOutCountIff`, `PumpOutCountCanBeShort`).
- `raceSuccessful` promises the first success or the last error (`libraries/zc/async/async.h:589-592`). All branches
  write to one output, and the race looks for an exception in it. An array join, or a race of a type
  other than void, that succeeds leaves an earlier exception there, so its success is taken for a failure; a
  failure that adds leaves the first error there (`RaceOutcome`, `RaceFirstSuccess`, `RaceNotAsDocumented`).
- A tee is said to fail if a buffer would grow beyond the limit (`libraries/zc/async/async-io.h:349-351`). It fails as
  soon as the most it is about to ask for would not fit, though all that its sinks need does
  (`StopsIff`, `ReadSizeIs`, `FailsWithRoom`).
- The comment on the aggregate receiver bounds its backlog by the number of receivers minus one
  (`libraries/zc/async/async-io.cc:2776-2779`). That holds unless the only waiter is cancelled while every receiver
  accepts; then the bound is the number of receivers (`ShorterBacklog`, `LongerBacklog`, `BacklogCanBeFull`, `NeverBoth`).
- A gather-write whose first batch of pieces is empty reports success at once and drops later
  bytes (`libraries/zc/async/async-io-unix.cc:759-762`). Only the first batch can do that (`WritesAllIff`).
- `FULFILLED` is described as being on the executor's list. Between taking a fulfilled object off the list
  in `destroy` and deleting it, its state is still `FULFILLED` (`ListedIffFulfilled`).
- A Unix socket that `shouldAllow` accepts may be refused by `shouldAllowParse`, because only the latter asks the
  further filters of the chain (`UnixMayBeParsedIff`, `UnixAllowedNotParsed`).
- `isPowerOfTwo` accepts 0 (`IsPowerOfTwoExact`).
- With a 32-bit version 4 range `matches` looks at the byte behind the address, under an empty mask; the model
  takes that byte as a parameter and shows that it makes no difference (`Cidr.Matches`).

## Model

| member | source | states |
|---|---|---|
| `PipePromises.Fifo` | libraries/zc/async/async-io.cc:450-1406 | In every run of reads, pumps, writes, gather-writes, shutdowns and completions without an abort, what readers received, then the writer's unconsumed remainder, then what a shutdown cut off, is exactly what writers handed in: nothing lost, repeated or reordered through any hand-off. Something is cut off only from a write that is rejected. |
| `PipePromises.PrefixAfterAbort` | libraries/zc/async/async-io.cc:281-293 | With aborts too, what readers received is a prefix of what was handed in. |
| `PipePromises.ReadResolves` | libraries/zc/async/async-io.cc:754-788 | A read resolves with exactly the bytes delivered since its call, at most its maximum, and below its minimum only after the writer has shut down. |
| `PipePromises.PumpResolves` | libraries/zc/async/async-io.cc:809-832 | A pump to an output never moves more than its amount and ends early only after shutdown; its count and the bytes it leaves uncounted are what was delivered, and it leaves none uncounted without a shutdown. |
| `PipePromises.PumpOutCountIff` | libraries/zc/async/async-io.cc:1388-1393 | The count a pump to an output resolves with is what was delivered if and only if no shutdown meets a gather-write of which some bytes, not all, have gone to the output. |
| `PipePromises.PumpOutCountCanBeShort` | libraries/zc/async/async-io.cc:1388-1393 | A run in which a shutdown makes a pump resolve with no bytes after one was written to its output. |
| `PipePromises.WriteResolves` | libraries/zc/async/async-io.cc:295-315 | When a write resolves, all its bytes and all before them have been received. |
| `PipePromises.WaitingRead` | libraries/zc/async/async-io.cc:1075-1080 | While a read waits it has fewer bytes than its minimum, and those it has plus the room left are its maximum (what the assertion in tryPumpFrom relies on). |
| `PipePromises.FinalStates` | libraries/zc/async/async-io.cc:1408-1530 | AbortedRead and ShutdownedWrite are never left. |
| `PipePromises.NoDeadlock` | libraries/zc/async/async-io.cc:450-1406 | A reader and a writer that both wait do not wait for one another: an operation on an endpoint is outstanding or a gather-write is due to go on. |
| `PipePromises.PumpCountIff` | libraries/zc/async/async-io.cc:1356-1386 | The count a pump into the pipe resolves with is right if and only if no waiting pump's output has taken all it could and left the pump unfinished; otherwise it falls short by exactly those bytes. |
| `PipePromises.PumpCountExact` | libraries/zc/async/async-io.cc:1356-1386 | The count is right in every run in which no pump call meets a waiting pump that wants fewer bytes and whose output takes over the pumping. |
| `PipePromises.PumpCountCanBeShort` | libraries/zc/async/async-io.cc:1378-1382 | A run in which a pump of two bytes resolves with one. |
| `PipePromises.StepHistory` | libraries/zc/async/async-io.cc:230-380 | What a step adds to the bytes handed in and to those cut off is what its event hands in and cuts off, and what has been received only grows. |
| `PipeCalls.NothingRejected` | libraries/zc/async/async-io.cc:217-1530 | In every run without an abort no read and no pump to an output is rejected; without an abort or a shutdown no write and no pump from an input is. |
| `PipeCalls.ReadIsAnswered` | libraries/zc/async/async-io.cc:230-240 | A read asks for exactly its minimum and maximum, counts from the bytes received before it, and is answered and not rejected, whatever the writer does, until an abort. |
| `PipeCalls.PumpOutIsAnswered` | libraries/zc/async/async-io.cc:273-279 | The same for a pump to an output and its amount. |
| `PipeCalls.WriteIsAnswered` | libraries/zc/async/async-io.cc:295-315 | A write or gather-write is not rejected before an abort or a shutdown. |
| `PipeCalls.PumpInIsAnswered` | libraries/zc/async/async-io.cc:348-354 | A pump from an input is refused, and changes nothing, exactly if it meets a waiting pump whose output does not support it; otherwise it asks for its amount and is not rejected before an abort or a shutdown. |
| `PipeCalls.AbortRejects` | libraries/zc/async/async-io.cc:281-293 | An abort rejects the waiting reader and the writer that is served or waits, but leaves a waiting pump to the check for the end of its input. |
| `PipeCalls.AbortedCalls` | libraries/zc/async/async-io.cc:1408-1473 | In an aborted pipe every call that wants or gives bytes is rejected, but a pump whose input has ended resolves with what it has pumped. |
| `PipeCalls.ShutdownAnswers` | libraries/zc/async/async-io.cc:371-377 | A shutdown answers the waiting reader and rejects the writer that is served. |
| `PipeCalls.EndOfStream` | libraries/zc/async/async-io.cc:1475-1530 | After a shutdown every read and pump gets nothing at once. |
| `PipeTransfers.ReadTakes` | libraries/zc/async/async-io.cc:468-477 | A read that meets a waiting write takes, at once, as many of its bytes as fit; it resolves if that is its minimum and goes on waiting with them otherwise. |
| `PipeTransfers.WriteGives` | libraries/zc/async/async-io.cc:952-985 | A write, gather-write or continuation that meets a waiting read fills its buffer as far as it goes; the read resolves when it has its minimum and the write when all has gone. |
| `PipeTransfers.CutPieceWaitsAlone` | libraries/zc/async/async-io.cc:1165-1187 | The rest of a piece that a read has cut waits alone, the pieces after it for their turn. |
| `PipeTransfers.CutPieceIsWrittenNext` | libraries/zc/async/async-io.cc:1269-1301 | The rest of a piece that a pump has cut is written next, and then the pieces after it. |
| `PipeTransfers.PumpTakes` | libraries/zc/async/async-io.cc:570-641 | A pump that meets a waiting write is given all that it wants of it when the planned writes to its output have completed, and resolves if that is its amount. |
| `PipeTransfers.WriteFeeds` | libraries/zc/async/async-io.cc:1227-1353 | A write that meets a waiting pump gives it all that it still wants, and resolves exactly if that is the whole write. |
| `PipeTransfers.DoneIsReceived` | libraries/zc/async/async-io.cc:295-315 | A write that resolves, before or after an abort, was received to its last byte. |
| `PipeTransfers.PumpInEnds` | libraries/zc/async/async-io.cc:744-1386 | A pump from an input resolves in a step if and only if its input has given less than it must or all that was asked for is pumped. |
| `PipeTransfers.InputAsked` | libraries/zc/async/async-io.cc:747-822 | An input is asked for no more than the pump and the reader still want, and for at least what they need. |
| `PipeTransfers.WorkDrops` | libraries/zc/async/async-io.cc:450-1406 | Every completion and continuation brings the pipe closer to rest. |
| `PipeTransfers.CompletionsBounded` | libraries/zc/async/async-io.cc:450-1406 | So only so many follow one another without a new call. |
| `PipeProof.StepInv` | libraries/zc/async/async-io.cc:450-1406 | Every call and every completion keeps conservation of bytes and who waits for what in each state object. |
| `PipeProof.RunInv` | libraries/zc/async/async-io.cc:450-1406 | The same over every run. |
| `PipeProof.DrainChunksFlatten` | libraries/zc/async/async-io.cc:570-641 | The separate writes by which a pump drains a waiting gather-write carry exactly its first bytes. |
| `PipeProof.FillChunksFlatten` | libraries/zc/async/async-io.cc:1256-1310 | The writes by which a gather-write fills up a waiting pump carry exactly the bytes the pump still needs. |
| `PipeProof.DropCovered` | libraries/zc/async/async-io.cc:583-629 | Where a pump ends within the pieces, and whether it cuts one. |
| `PipeMachine.CopyOut` | libraries/zc/async/async-io.cc:695-738 | The copying loop takes the first bytes of the waiting pieces and leaves the rest. |
| `PipeMachine.CopyIn` | libraries/zc/async/async-io.cc:1148-1187 | The copying loop fills the read buffer, and tells whether a piece was cut and what is left. |
| `PipeMachine.SkipEmpty` | libraries/zc/async/async-io.cc:303-304 | Leading empty pieces are dropped and nothing else. |
| `PipeMachine.CountCovered` | libraries/zc/async/async-io.cc:584-591 | The pieces an amount covers, and their size. |
| `PipeMachine.DrainPlan` | libraries/zc/async/async-io.cc:570-641 | What a pump writes to its output and what stays in the waiting write. |
| `PipeMachine.FillPlan` | libraries/zc/async/async-io.cc:1256-1353 | What a gather-write sends to a waiting pump, what it writes next and what after that. |
| `PipeMachine.AsyncPipe.InOrder` | libraries/zc/async/async-io.cc:217-1530 | The object itself is a first-in first-out stream: its state is that of the run of its calls so far, so what is proved of runs holds of it. |
| `PipeMachine.AsyncPipe.TryRead` | libraries/zc/async/async-io.cc:230-240 | A read takes exactly the step of the machine, as the next event of the object's run, for which ReadIsAnswered and ReadTakes say what it gets. |
| `PipeMachine.AsyncPipe.ReadWaiting` | libraries/zc/async/async-io.cc:468-477 | A read of a waiting write, with the retry on a pipe without state. |
| `PipeMachine.AsyncPipe.PumpTo` | libraries/zc/async/async-io.cc:273-279 | A pump to an output, likewise. |
| `PipeMachine.AsyncPipe.AbortRead` | libraries/zc/async/async-io.cc:281-293 | An abort in any state, with what it cancels. |
| `PipeMachine.AsyncPipe.Write` | libraries/zc/async/async-io.cc:295-301 | A write of one buffer. |
| `PipeMachine.AsyncPipe.WriteBuffer` | libraries/zc/async/async-io.cc:1227-1254 | A write of one buffer into a waiting pump, and into any other state. |
| `PipeMachine.AsyncPipe.WritePieces` | libraries/zc/async/async-io.cc:303-315 | A gather-write. |
| `PipeMachine.AsyncPipe.WriteIntoRead` | libraries/zc/async/async-io.cc:952-985 | A gather-write into a waiting read: resolves the read when it has its minimum, and retries with a cut piece alone. |
| `PipeMachine.AsyncPipe.Continue` | libraries/zc/async/async-io.cc:973-981 | The continuation that writes the pieces after a cut one, or fails after a shutdown. |
| `PipeMachine.AsyncPipe.TryPumpFrom` | libraries/zc/async/async-io.cc:348-354 | A pump from an input, in every state. |
| `PipeMachine.AsyncPipe.ShutdownWrite` | libraries/zc/async/async-io.cc:371-377 | A shutdown, in every state that accepts it. |
| `PipeMachine.AsyncPipe.ShutdownReader` | libraries/zc/async/async-io.cc:1122-1127 | A waiting read resolves with what it has, and a pump into it is cancelled. |
| `PipeMachine.AsyncPipe.ShutdownPump` | libraries/zc/async/async-io.cc:1388-1393 | A waiting pump resolves with what it counts, and a write or pump into it is cancelled. |
| `PipeMachine.AsyncPipe.DrainWritten` | libraries/zc/async/async-io.cc:603-640 | Completion of a write to an output by which a pump drains a waiting write. |
| `PipeMachine.AsyncPipe.FillWritten` | libraries/zc/async/async-io.cc:1231-1251 | Completion of a write to the output of a waiting pump. |
| `PipeMachine.AsyncPipe.ReadForReader` | libraries/zc/async/async-io.cc:761-788 | Completion of a read of a pump's input for a reader. |
| `PipeMachine.AsyncPipe.ReadIntoBuffer` | libraries/zc/async/async-io.cc:1083-1119 | Completion of a read of a pump's input into a waiting read. |
| `PipeMachine.AsyncPipe.EofChecked` | libraries/zc/async/async-io.cc:837-854 | The end-of-file check after an abort. |
| `PipeMachine.AsyncPipe.PumpedForReader` | libraries/zc/async/async-io.cc:813-831 | Completion of a pump from a waiting pump's input to a reader's output. |
| `PipeMachine.AsyncPipe.PumpedThrough` | libraries/zc/async/async-io.cc:1361-1384 | Completion of a pump taken over by a waiting pump's output. |
| `TeePromises.Agreement` | libraries/zc/async/async-io.cc:1701-1854 | In every run, what a branch has given away followed by its buffer is exactly what the inner stream has returned; for clones too. |
| `TeePromises.Comparable` | libraries/zc/async/async-io.cc:1779-1787 | Of any two branches' outputs one is a prefix of the other. |
| `TeePromises.LengthKept` | libraries/zc/async/async-io.cc:1833-1835 | With a known length, the length a branch reports and the bytes it has given away always add up to it. |
| `TeePromises.WithinLimit` | libraries/zc/async/async-io.cc:2147-2156 | No branch's buffer ever exceeds the limit. |
| `TeePromises.ReadResolves` | libraries/zc/async/async-io.cc:1941-1965 | A read gets at most its maximum; below its minimum only when the stream has stopped and the branch has given away all that was pulled; and nothing at all only at the end of the stream. |
| `TeePromises.PumpResolves` | libraries/zc/async/async-io.cc:1986-2020 | A pump resolves with its full amount, or with less at the end of the stream, when the branch has given away all that was pulled. |
| `TeePromises.Drains` | libraries/zc/async/async-io.cc:2106-2139 | Once the tee has stopped no sink outlives two fill passes, neither one that waited then nor that of a pump started later, in any run of calls, clones, drops, cancellations and completions. |
| `TeePromises.BranchDrains` | libraries/zc/async/async-io.cc:1941-2020 | The sink of one branch is gone after two fill passes, and after one if its buffer is empty, whatever the other branches do. |
| `TeePromises.LoopAssertions` | libraries/zc/async/async-io.cc:2058-2062 | The pull loop's assertions cannot fail: every sink needs a byte and can take one, and nothing stops the loop while it reads. |
| `TeePromises.NeverStuck` | libraries/zc/async/async-io.cc:2074-2081 | While a call waits the pull loop is under way. |
| `TeePromises.StoppedRead` | libraries/zc/async/async-io.cc:1815-1826 | A read of a stopped tee is decided at once. |
| `TeeCalls.StopsIff` | libraries/zc/async/async-io.cc:2121-2209 | A tee that goes on fails exactly if the inner stream does or a buffer has no room for what it would ask for, and is at its end exactly if a read of the inner stream comes short; once stopped it keeps its reason. |
| `TeeCalls.StoppageIs` | libraries/zc/async/async-io.cc:2121-2209 | The same over every run: the end of a stream is never reported as a failure or a failure as its end. |
| `TeeCalls.ReadSizeIs` | libraries/zc/async/async-io.cc:2142-2150 | What is asked for is what every sink needs, and as much more as every sink can take, a block holds and the limit allows. |
| `TeeCalls.FailsWithRoom` | libraries/zc/async/async-io.cc:2147-2156 | The limit fails a tee in which every buffer has room for all that the sinks need. |
| `TeeCalls.HalfFullIsReached` | libraries/zc/async/async-io.cc:2147-2156 | A run that leads to that tee. |
| `TeeCalls.NothingRejected` | libraries/zc/async/async-io.cc:1808-2035 | In a run without failures of the inner stream, of the limit or of writes to outputs no call of any branch is rejected. |
| `TeeCalls.ReadIsAnswered` | libraries/zc/async/async-io.cc:1808-1831 | A read asks for exactly its minimum and maximum and is not rejected unless the tee fails, whatever the other branches do. |
| `TeeCalls.PumpIsAnswered` | libraries/zc/async/async-io.cc:1839-1854 | A pump likewise, unless a write to its own output fails. |
| `TeeCalls.ReadGives` | libraries/zc/async/async-io.cc:1808-1831 | A read is given at once all the buffer has that it can take, and is rejected exactly if the tee has failed and there is nothing. |
| `TeeCalls.PumpGives` | libraries/zc/async/async-io.cc:1839-1854 | A pump takes nothing yet; it is decided at once exactly if it wants nothing or the tee has stopped with an empty buffer. |
| `TeeCalls.FillGives` | libraries/zc/async/async-io.cc:1941-2020 | A fill gives every sink all it can take, and rejects exactly if the tee has failed and there is nothing to give, a short read being preferred. |
| `TeeCalls.OneReadServes` | libraries/zc/async/async-io.cc:2106-2210 | One read of the inner stream that is not short resolves every read and starts a write for every pump that it was made for. |
| `TeeCalls.LoopGoesOn` | libraries/zc/async/async-io.cc:2121-2168 | The loop ends exactly if no sink is left, and otherwise asks the inner stream or fills again. |
| `TeeCalls.OwnSteps` | libraries/zc/async/async-io.cc:1887-2035 | Cancellation, a failed write and a completed write of a branch do to it what they say and take no bytes. |
| `TeeCalls.Untouched` | libraries/zc/async/async-io.cc:1808-2035 | Steps of other branches leave a branch as it is. |
| `TeeCalls.CloneIsAhead` | libraries/zc/async/async-io.cc:1749-1753 | A clone comes last and has the same bytes before it and behind it. |
| `TeeProof.TakenLeft` | libraries/zc/async/async-io.cc:2216-2237 | What is taken out of a buffer and what is left are the buffer; more room than bytes leaves no array behind. |
| `TeeProof.StepInv` | libraries/zc/async/async-io.cc:1701-2212 | Every call and every step of the loop keeps agreement, the limit and the state of each sink. |
| `TeeMachine.TeeBranch.Consume` | libraries/zc/async/async-io.cc:2216-2237 | The loop over arrays takes exactly the first bytes and lowers the minimum by as many. |
| `TeeMachine.TeeBranch.AsArray` | libraries/zc/async/async-io.cc:2241-2273 | The loop takes the same bytes as arrays for one write. |
| `TeeMachine.TeeBranch.CloneFrom` | libraries/zc/async/async-io.cc:1726-1734 | A clone has the same bytes in one array. |
| `TeeMachine.TeeBranch.BufferSize` | libraries/zc/async/async-io.cc:2277-2283 | The size of the buffer. |
| `TeeMachine.TeeBranch.FillRead` | libraries/zc/async/async-io.cc:1941-1965 | A fill of a waiting read. |
| `TeeMachine.TeeBranch.FillPump` | libraries/zc/async/async-io.cc:1986-2020 | A fill of a waiting pump, up to its write. |
| `TeeMachine.AsyncTee.BranchAgrees` | libraries/zc/async/async-io.cc:1701-2212 | The object's state is that of the run of its calls so far; for one, every branch object agrees with what was pulled. |
| `TeeMachine.AsyncTee.TryRead` | libraries/zc/async/async-io.cc:1808-1831 | A read of a branch takes exactly the step of the machine. |
| `TeeMachine.AsyncTee.PumpTo` | libraries/zc/async/async-io.cc:1839-1854 | A pump of a branch, likewise. |
| `TeeMachine.AsyncTee.Clone` | libraries/zc/async/async-io.cc:1779-1787 | A new branch with the same bytes ahead of it. |
| `TeeMachine.AsyncTee.FillPass` | libraries/zc/async/async-io.cc:2109-2120 | The fill pass over all branches. |
| `TeeMachine.AsyncTee.AnalyzeSinks` | libraries/zc/async/async-io.cc:2040-2072 | The largest minimum and the smallest maximum of all sinks. |
| `TeeMachine.AsyncTee.Analyze` | libraries/zc/async/async-io.cc:2121-2157 | Whether to stop, to go round again, to exceed the limit, or what to read. |
| `TeeMachine.AsyncTee.Pulled` | libraries/zc/async/async-io.cc:2169-2204 | Hands the bytes to every branch and marks the end of the stream after a short read, for which StopsIff says what follows. |
| `EventOrder.OrderKept` | libraries/zc/async/async.cc:1711-1740 | In every run queued events fire in queue order; only firing or disarming separates two of them. |
| `EventOrder.BreadthFirstIsFifo` | libraries/zc/async/async.cc:2075-2097 | Events armed breadth-first fire in arming order, whatever else is armed, disarmed or fired. |
| `EventOrder.LastIsLifo` | libraries/zc/async/async.h:468-470 | Events armed last fire in the opposite of their arming order. |
| `EventOrder.LastFiresAlone` | libraries/zc/async/async.h:455-457 | An event armed last is at the head only when all queued events were armed last. |
| `EventOrder.DepthFirstRunsNext` | libraries/zc/async/async.cc:2050-2073 | What a callback arms depth-first stands in arming order before all else in the queue. |
| `EventOrder.DepthFirstFiresFirst` | libraries/zc/async/async.cc:1711-1740 | And fires in that order before everything else queued when the callback returns. |
| `EventOrder.FiresInTime` | libraries/zc/async/async.cc:1711-1740 | Without depth-first arming, the event at position i before the breadth-first insert point fires within i + 1 turns. |
| `EventFiring.ArmedExactly` | libraries/zc/async/async.cc:2050-2167 | Arming arms, disarming and firing disarm, and nothing else changes which events are armed. |
| `EventFiring.OnlyArmedFires` | libraries/zc/async/async.cc:2148-2167 | An event that is not armed, as after it fired or was disarmed, does not fire until it is armed again. |
| `EventFiring.ArmedUntilFired` | libraries/zc/async/async.cc:2050-2097 | An armed event fires or stays armed unless it is disarmed. |
| `EventFiring.TurnsFireQueue` | libraries/zc/async/async.cc:1711-1740 | Undisturbed turns fire what is queued from front to back. |
| `EventFiring.DepthFirstFiresNext` | libraries/zc/async/async.cc:2050-2073 | What is armed depth-first between callbacks or first in one fires next. |
| `EventFiring.SleepersFire` | libraries/zc/async/async.cc:1789-1804 | With nothing queued, k rounds of polling and turning fire exactly the first k events that wait for the loop to sleep, in order. |
| `EventFiring.QueuedBeforeSleepers` | libraries/zc/async/async.cc:1798-1803 | While something is queued a poll moves none of them. |
| `EventFiring.SleeperFiresInTime` | libraries/zc/async/async.cc:1789-1804 | The one at position i fires within i + 1 rounds. |
| `EventFiring.SleepersAreLifo` | libraries/zc/async/async.cc:2124-2144 | Of two such events the one armed later fires first. |
| `EventQueue.ApplyValid` | libraries/zc/async/async.cc:2050-2167 | Every operation keeps df <= bf <= length and every event in at most one queue, once. |
| `EventQueue.RunValid` | libraries/zc/async/async.cc:2050-2167 | The same over every run. |
| `IntrusiveQueue.EventLoop.NewEvent` | libraries/zc/async/async.cc:2026-2031 | A new event belongs to the loop and is in no queue. |
| `IntrusiveQueue.EventLoop.PrevPointsBack` | libraries/zc/async/async.cc:2148-2167 | For every linked event, the slot its prev points to holds that event. |
| `IntrusiveQueue.EventLoop.PrevTellsArmed` | libraries/zc/async/async.cc:2060-2060 | A null prev means exactly that the event is in no queue. |
| `IntrusiveQueue.EventLoop.ArmDepthFirst` | libraries/zc/async/async.cc:2050-2073 | The pointer updates refine insertion at the depth-first point and move all three points. |
| `IntrusiveQueue.EventLoop.ArmBreadthFirst` | libraries/zc/async/async.cc:2075-2097 | The same for the breadth-first point. |
| `IntrusiveQueue.EventLoop.ArmLast` | libraries/zc/async/async.cc:2099-2122 | The same without moving the breadth-first point. |
| `IntrusiveQueue.EventLoop.ArmWhenWouldSleep` | libraries/zc/async/async.cc:2124-2144 | Insertion into the list of events that wait for the loop to sleep. |
| `IntrusiveQueue.EventLoop.Disarm` | libraries/zc/async/async.cc:2148-2167 | The pointer updates refine removal, with every insert point that pointed behind the event. |
| `IntrusiveQueue.EventLoop.BeginTurn` | libraries/zc/async/async.cc:1711-1728 | Takes the head off the queue and points depth-first arming at the head. |
| `IntrusiveQueue.EventLoop.EndTurn` | libraries/zc/async/async.cc:1737-1738 | Points depth-first arming back at the head. |
| `IntrusiveQueue.EventLoop.QueueSleeper` | libraries/zc/async/async.cc:1798-1803 | With an empty queue the first sleeper is queued. |
| `CrossThread.Safe` | libraries/zc/async/async.cc:1104-1180 | In every interleaving of any number of fulfilling calls with the waiter: no access after the delete, no second delete, a failed claim saw CANCELED, and at most one result is written, before dispatch. |
| `CrossThread.FreedExactlyOnce` | libraries/zc/async/async.cc:1104-1128 | In a completed run the object was deleted exactly once, and a result written exactly if the waiter did not cancel first. |
| `CrossThread.ListedIffFulfilled` | libraries/zc/async/async-inl.h:1995-2003 | Outside the lock, membership of the list is state FULFILLED if and only if no waiter has taken a fulfilled object off the list to delete it. |
| `CrossThread.UnlistedButFulfilled` | libraries/zc/async/async.cc:1117-1127 | That exception occurs. |
| `CrossThreadProgress.NeverStuck` | libraries/zc/async/async.cc:1104-1180 | Until the run is complete some thread can move; while a call or an operation of the waiter is under way it is one of those, without the waiter beginning anything new. |
| `CrossThreadProgress.EverythingFinishes` | libraries/zc/async/async.cc:1104-1180 | From every reachable state all calls can return and the waiter finish what it is doing, in at most seven steps for each call and ten more. |
| `CrossThreadProgress.StepsBounded` | libraries/zc/async/async.cc:1104-1180 | No livelock: in any schedule, apart from new polls, only so many steps with an effect are left. |
| `CrossThreadProgress.MeasureDrops` | libraries/zc/async/async.cc:1104-1180 | Every step with an effect, but for the begin of a poll, lowers the measure of what is left to do. |
| `CrossThreadDelivery.PollDispatches` | libraries/zc/async/async.cc:735-746 | From every reachable state with a fulfilled object on the list and the lock free, a poll alone takes it off, marks it dispatched and changes nothing else. |
| `CrossThreadDelivery.EmptyPoll` | libraries/zc/async/async.cc:735-746 | A poll that finds nothing changes nothing. |
| `CrossThreadDelivery.ResultCanArrive` | libraries/zc/async/async.cc:735-746 | With at least one call, from every reachable state with a free waiter the calls and a poll can bring it the result, without its destroying the promise. |
| `CrossThreadDelivery.FirstCallWins` | libraries/zc/async/async.cc:1130-1180 | What is written is the result of the first call to start. |
| `CrossThreadDelivery.DestroyCancels` | libraries/zc/async/async.cc:1104-1116 | A waiter that destroys its promise before it is claimed cancels it without waiting. |
| `CrossThreadDelivery.CanComplete` | libraries/zc/async/async.cc:1104-1180 | From every reachable state the run can be completed. |
| `CrossThread.NextInv` | libraries/zc/async/async.cc:1104-1180 | Every atomic step of every thread keeps the protocol's invariant. |
| `PromiseArena.NeverOverlap` | libraries/zc/async/async-inl.h:381-414 | In every run two nodes in one arena occupy disjoint, pointer-aligned ranges of its 1024 bytes. |
| `PromiseArena.OwnedByLast` | libraries/zc/async/async-inl.h:241-250 | In every run an arena is owned by the node made last in it and by no other. |
| `PromiseArena.FreedExactlyOnce` | libraries/zc/async/async-inl.h:349-355 | When the whole chain is disposed of, every arena has been freed exactly once, after everything else that happened in it, and every node destroyed. |
| `PromiseArena.NeverTouchedAfterFree` | libraries/zc/async/async-inl.h:349-355 | Nothing happens in an arena after it is freed, and no live node is in it. |
| `PromiseArena.DisposeFrees` | libraries/zc/async/async-inl.h:349-355 | Disposing of a part of a chain frees exactly the arenas that no node in front of it owns. |
| `PromiseArena.AppendShares` | libraries/zc/async/async-inl.h:381-414 | A node that fits goes into the arena of the next one, right before it, without new memory, and takes the arena over. |
| `PromiseArena.OwnMemory` | libraries/zc/async/async-inl.h:357-414 | Otherwise it goes to the end of an arena of its own, or on the heap if it does not fit one. |
| `PromiseArena.InsideOut` | libraries/zc/async/async-inl.h:349-355 | A chain is destroyed from its inner end to its outer one. |
| `PromiseArena.DropKeepsFront` | libraries/zc/async/async-inl.h:349-355 | Dropping a dependency early destroys all but the front node, in that order. |
| `PromiseArena.StepInv` | libraries/zc/async/async-inl.h:349-414 | Every allocation, append and disposal keeps placement and ownership. |
| `PromiseArena.AllocNode` | libraries/zc/async/async-inl.h:357-379 | A node starts an arena at its end, or goes to the heap. |
| `PromiseArena.AppendNode` | libraries/zc/async/async-inl.h:381-414 | A node is placed before the next one and takes the arena over, if it fits. |
| `PromiseArena.DisposeNode` | libraries/zc/async/async-inl.h:349-355 | Destroys the chain from the inside out and deletes each arena after its owner. |
| `PromiseArena.DropNextNode` | libraries/zc/async/async-inl.h:349-355 | A node disposes of what it depends on early. |
| `Alignment.AlignToRoundsUp` | libraries/zc/core/arena.cc:72-88 | For every power of two the mask rounds up to the next multiple, if the sum does not wrap around. |
| `Alignment.RoundUpIsLeast` | libraries/zc/core/arena.cc:72-88 | Rounding up is the least multiple at or above the address. |
| `Alignment.IsPowerOfTwoExact` | libraries/zc/core/arena.cc:70-70 | The check accepts exactly the powers of two, and 0. |
| `ArenaAllocator.Arena.constructor` | libraries/zc/core/arena.cc:30-30 | A new arena with no memory. |
| `ArenaAllocator.Arena.FromScratch` | libraries/zc/core/arena.cc:32-43 | Scratch space that is large enough is the current chunk, with its header in front, and is not in the list of chunks to delete. |
| `ArenaAllocator.Arena.AllocateBytes` | libraries/zc/core/arena.cc:91-106 | What is returned is aligned; it and its header lie in a block of one chunk behind the chunk's header, apart from all earlier blocks. |
| `ArenaAllocator.Arena.AllocateBytesInternal` | libraries/zc/core/arena.cc:108-148 | A block at the least aligned address of the current chunk if it fits there, and otherwise in a new chunk, which becomes the current one, heads the list and doubles the size of the next. |
| `ArenaAllocator.Arena.Grow` | libraries/zc/core/arena.cc:131-132 | The doubling loop terminates with a chunk size that is large enough. |
| `ArenaAllocator.GrowsByDoubling` | libraries/zc/core/arena.cc:131-132 | The size of a new chunk is the least that doubling reaches which is enough. |
| `ArenaAllocator.Arena.SetDestructor` | libraries/zc/core/arena.cc:156-162 | The destructor set last comes first. |
| `ArenaAllocator.Arena.Cleanup` | libraries/zc/core/arena.cc:53-66 | Runs every destructor once, the last set first, and then deletes every chunk allocated once. |
| `Cidr.Matches` | libraries/zc/core/cidr.cc:111-149 | An address is in a range exactly if their first bitCount bits agree, mapped version 4 addresses included; the byte behind the address makes no difference. |
| `Cidr.BytesMatchExact` | libraries/zc/core/cidr.cc:145-148 | Comparing whole bytes and a masked byte is comparing bits. |
| `Cidr.MaskBit` | libraries/zc/core/cidr.cc:148-148 | The shifted mask keeps exactly the first bits of a byte. |
| `Cidr.ZeroIrrelevantBits` | libraries/zc/core/cidr.cc:169-178 | The first bits stay and all others become zero. |
| `Cidr.Make` | libraries/zc/core/cidr.cc:71-84 | Fails exactly for too many bits or too short an address; otherwise a valid range with the address's first bits. |
| `Cidr.MatchImpliesFamily` | libraries/zc/core/cidr.cc:151-161 | An address in the range is of a family the range says it can match. |
| `NetworkFilters.ShouldAllow` | libraries/zc/async/async-io.cc:3029-3078 | Passes exactly the internet addresses for which, in every filter of the chain, some allow rule holds and every denied range with the address is strictly less specific than some allowed range with it; and the Unix sockets whose flag the first filter has. |
| `NetworkFilters.ShouldAllowParse` | libraries/zc/async/async-io.cc:3080-3110 | Whether every filter of the chain has an allow rule for the address family. |
| `NetworkFilters.AllowedMayBeParsed` | libraries/zc/async/async-io.cc:3029-3110 | What is allowed may be parsed, along any chain, but for Unix sockets. |
| `NetworkFilters.UnixMayBeParsedIff` | libraries/zc/async/async-io.cc:3032-3041 | A Unix socket that is allowed may be parsed if and only if every filter behind the first in the chain has the flag for it, the one for abstract sockets if its path starts with a zero byte. |
| `NetworkFilters.UnixAllowedNotParsed` | libraries/zc/async/async-io.cc:3032-3041 | One that is allowed and may not be parsed. |
| `NetworkFilters.OrderIrrelevant` | libraries/zc/async/async-io.cc:3063-3074 | Neither the order nor the repetition of rules matters. |
| `NetworkFilters.DenyExact` | libraries/zc/async/async-io.cc:3070-3074 | What denying one more range changes. |
| `NetworkFilters.AllowSpecificity` | libraries/zc/async/async-io.cc:3063-3068 | The accumulated specificity exceeds a number exactly if some matching allowed range does. |
| `NetworkFilters.MatchesAny` | libraries/zc/async/async-io.cc:2973-2978 | Whether some range holds the address. |
| `NetworkFilters.Configure` | libraries/zc/async/async-io.cc:2985-3027 | The filter made from rules allows exactly the addresses that some allow rule speaks of, denies exactly those of the deny rules, has just the ranges the rules list, and the flags for Unix sockets that are allowed and not denied; denying network or public is refused. |
| `NetworkFilters.ConfiguredPasses` | libraries/zc/async/async-io.cc:2985-3078 | An internet address passes a configured filter if and only if some allow rule allows it and for every range a deny rule lists that holds it an allow rule lists a narrower one. |
| `NetworkFilters.DeniedNeverPasses` | libraries/zc/async/async-io.cc:3012-3027 | What a deny rule denies and no rule lists an allowed range for never passes, not as network or public either. |
| `NetworkFilters.DefaultPasses` | libraries/zc/async/async-io.cc:2980-2983 | The filter a program starts with lets every address of a known family through. |
| `NetworkTables.Local4Is` | libraries/zc/async/async-io.cc:2905-2920 | The local addresses of version 4 by their bytes. |
| `NetworkTables.Private4Is` | libraries/zc/async/async-io.cc:2922-2937 | The private addresses of version 4 by their bytes. |
| `NetworkTables.Reserved4Is` | libraries/zc/async/async-io.cc:2939-2958 | The reserved addresses of version 4 by their bytes. |
| `NetworkTables.Local6Is` | libraries/zc/async/async-io.cc:2905-2920 | The local addresses of version 6 by their bytes, mapped ones included. |
| `NetworkTables.Private6Is` | libraries/zc/async/async-io.cc:2922-2937 | The private addresses of version 6. |
| `NetworkTables.Reserved6Is` | libraries/zc/async/async-io.cc:2939-2958 | The reserved addresses of version 6. |
| `GatherWrite.WritesAllIff` | libraries/zc/async/async-io-unix.cc:739-867 | For every sequence of short writes, a write that succeeds has written all pieces in order and once, if and only if it does not start with a whole batch of empty pieces before bytes. |
| `GatherWrite.WritesAPrefix` | libraries/zc/async/async-io-unix.cc:739-867 | At any time, and after an error, a prefix of the pieces has been written. |
| `GatherWrite.LossIsPossible` | libraries/zc/async/async-io-unix.cc:759-762 | For every limit there are pieces that are lost. |
| `GatherWrite.WritesTerminate` | libraries/zc/async/async-io-unix.cc:841-866 | There are at most as many successful calls as bytes. |
| `GatherWrite.RejectedIff` | libraries/zc/async/async-io-unix.cc:739-867 | A write is rejected exactly if a call fails, one that would block only waits, and as many bytes are written as the calls have taken. |
| `GatherWrite.BuildIov` | libraries/zc/async/async-io-unix.cc:742-757 | The call gets the first pieces, at most as many as allowed, and their size is added up. |
| `GatherWrite.Discard` | libraries/zc/async/async-io-unix.cc:841-866 | The loop drops exactly what was written. |
| `GatherWrite.WriteInternal` | libraries/zc/async/async-io-unix.cc:739-867 | One call with its continuation takes exactly the step of the machine. |
| `AggregateAccept.NeverBoth` | libraries/zc/async/async-io.cc:2824-2832 | In every run with cancellations: never waiters and a backlog, no longer backlog than receivers, and an accept loop for every receiver while a call waits. |
| `AggregateAccept.InOrderOnce` | libraries/zc/async/async-io.cc:2767-2790 | Connections go to calls in the order of both, each to at most one call; the others are the backlog. |
| `AggregateAccept.EveryCall` | libraries/zc/async/async-io.cc:2767-2855 | Every call is served, waits or has been given up, and only one of these. |
| `AggregateAccept.LoopsGoOn` | libraries/zc/async/async-io.cc:2856-2871 | While a call waits every receiver is accepting, or will be once its loop has decided; a loop decides to end only when none waits. |
| `AggregateAccept.ShorterBacklog` | libraries/zc/async/async-io.cc:2776-2779 | The backlog stays below the number of receivers, unless the only waiter is given up while every receiver is accepting. |
| `AggregateAccept.LongerBacklog` | libraries/zc/async/async-io.cc:2815-2817 | And whenever it is, the backlog can become as long as there are receivers. |
| `AggregateAccept.BacklogCanBeFull` | libraries/zc/async/async-io.cc:2776-2779 | For every number of receivers a run from the start reaches that length. |
| `AggregateAccept.StepInv` | libraries/zc/async/async-io.cc:2767-2872 | Every call, completion, decision and cancellation keeps all of this. |
| `AggregateAccept.AggregateConnectionReceiver.Accept` | libraries/zc/async/async-io.cc:2767-2790 | A call waits and starts all accept loops, or takes the first of the backlog. |
| `AggregateAccept.AggregateConnectionReceiver.EnsureAllAccepting` | libraries/zc/async/async-io.cc:2828-2832 | Every receiver without an accept loop gets one. |
| `AggregateAccept.AggregateConnectionReceiver.Complete` | libraries/zc/async/async-io.cc:2834-2855 | A result goes to the first waiter or to the end of the backlog. |
| `AggregateAccept.AggregateConnectionReceiver.Decide` | libraries/zc/async/async-io.cc:2856-2871 | An accept loop goes on only while a call waits. |
| `Combinators.ExclusiveFirstWins` | libraries/zc/async/async.cc:2535-2587 | The first branch to fire arms the parent once, and is what the parent gets into any output, even if the other fires too. |
| `Combinators.LazyJoin` | libraries/zc/async/async.cc:2616-2672 | A lazy join arms its parent once, when all branches have fired, and for every order gives it the values in index order or the exception of the first failed branch; no part lacks a value when there is no exception. |
| `Combinators.EagerJoin` | libraries/zc/async/async.cc:2616-2672 | An eager join arms its parent once, when all have fired or one has failed. If all have fired the parent gets what a lazy join gives, before that the exception of the lowest failed branch that fired. |
| `Combinators.LowestErrorIs` | libraries/zc/async/async.cc:2616-2626 | The exception a join reports is that of a branch before which none failed. |
| `Combinators.RaceOutcome` | libraries/zc/async/async.cc:2732-2760 | A race arms its parent once: at the first success that comes first of all or resets the output, or when all have fired. The parent gets that success, or else the last of the failures that come first of all or do not add. |
| `Combinators.RaceFirstSuccess` | libraries/zc/async/async.cc:2732-2760 | The first success ends the race and is its result, for good, if and only if it comes first of all or its branch resets the output; if not, the exception before it stays. |
| `Combinators.RaceAsDocumented` | libraries/zc/async/async.h:589-592 | If successes reset the output and failures do not add, the race gives the first success, or else the last failure. |
| `Combinators.RaceNotAsDocumented` | libraries/zc/async/async.cc:2732-2760 | After a failure, a success of an array join or a typed race ends as that failure, and so does a failure that adds. |
| `Combinators.RaceIsBranch` | libraries/zc/async/async-inl.h:1184-1200 | A race as a branch of something else sets a value beside an exception, resets the output if it is of type void, and adds its failure. |
| `Combinators.ArmedStays` | libraries/zc/async/async.cc:2732-2737 | Once the parent is armed nothing changes any more. |
| `Combinators.ExclusiveJoinNode.Fire` | libraries/zc/async/async.cc:2572-2587 | Keeps the node at the state its firing order leads to; the parent has been armed once. |
| `Combinators.ExclusiveJoinNode.Get` | libraries/zc/async/async.cc:2535-2537 | The parent gets the result of the branch that fired first, into any output. |
| `Combinators.ArrayJoinNode.Fire` | libraries/zc/async/async.cc:2656-2672 | Keeps the node at the state its firing order leads to; the parent has been armed at most once, and just when the join is decided. |
| `Combinators.ArrayJoinNode.Get` | libraries/zc/async/async.cc:2616-2634 | For every firing order the node acts on any output as a branch with the join of the results, which yields to an exception already there; before all have fired, as one with the exception of the lowest failed branch that has. |
| `Combinators.ArrayJoinNode.GetParts` | libraries/zc/async/async.cc:2616-2625 | Reads the outputs of a lazy join and adds their exceptions, of which the first is kept if there was none. |
| `Combinators.CollectAll` | libraries/zc/async/async-inl.h:1109-1117 | Parts that hold all the results give their join, and if there is no exception every part has a value, as getNoError asserts. |
| `Combinators.RaceSuccessfulNode.Fire` | libraries/zc/async/async.cc:2732-2760 | Keeps the node at the state its firing order leads to, uses a promise only if it has not been dropped, and has armed the parent just if some success has ended the race or all have fired. |
| `Combinators.RaceSuccessfulNode.Get` | libraries/zc/async/async.cc:2710-2713 | The node acts on any output as a branch with the success that ended the race or the failure that lasts; without branches, as the source does. |
| `Timers.AdvanceFires` | libraries/zc/async/timer.cc:136-155 | Advancing fires exactly the timers whose time has come, by time and then by age; all others come later. |
| `Timers.TimersKeptInOrder` | libraries/zc/async/timer.cc:43-77 | In every run no timer fires early or twice, and while the port sleeps it was last told the time of the next event. |
| `Timers.EveryTimer` | libraries/zc/async/timer.cc:43-77 | In every run each timer is for the time asked for under its number, and waits, has fired or was dropped; a dropped one never fires. |
| `Timers.ClockAndHooks` | libraries/zc/async/timer.cc:136-155 | The clock goes where it is told and never back; the hooks are set from going to sleep until the next advance. |
| `Timers.TimeoutExact` | libraries/zc/async/timer.cc:119-134 | The timeout is the least number of units that reaches the next event, or the maximum if that is not enough. |
| `Timers.SleepThenFire` | libraries/zc/async/timer.cc:119-155 | Sleeping for the timeout and advancing fires the earliest timer if and only if the maximum is long enough. |
| `Timers.StepInv` | libraries/zc/async/timer.cc:43-155 | Making, dropping, advancing and going to sleep keep the order, the numbers and what the port was told. |
| `Timers.TimerImpl.AtTime` | libraries/zc/async/timer.cc:45-52 | A new timer goes behind those that are not later, and the port is told if it is the first. |
| `Timers.TimerImpl.Drop` | libraries/zc/async/timer.cc:54-71 | A dropped timer leaves, and the port is told if it was the first. |
| `Timers.TimerImpl.AdvanceTo` | libraries/zc/async/timer.cc:136-155 | Clears the hooks, refuses to go back, and fires what is due. |
| `Timers.TimerImpl.SetSleeping` | libraries/zc/async/async-unix.cc:724-742 | The port is told the next event's time and sets itself as hooks. |
| `Timers.TimerImpl.TimeoutToNextEvent` | libraries/zc/async/timer.cc:119-134 | The timeout, if there is a timer. |
| `Glob.GlobFilter.Matches` | libraries/zc/core/glob-filter.cc:29-71 | True exactly if some suffix of the name, from its start or just after a slash, satisfies the declarative glob relation. |
| `Glob.StepExact` | libraries/zc/core/glob-filter.cc:73-95 | What the successors of a state accept is what the state accepts of one more character. |
| `Glob.AdvanceExact` | libraries/zc/core/glob-filter.cc:46-62 | The same for the whole list of states, with the fresh start after a slash. |
| `Glob.GlobFilter.ReadChar` | libraries/zc/core/glob-filter.cc:46-62 | The loop body refills the list with exactly the next states. |
| `Glob.GlobFilter.Accepting` | libraries/zc/core/glob-filter.cc:66-70 | The final scan accepts exactly if some state accepts the empty rest. |
| `Glob.GlobFilter.ApplyState` | libraries/zc/core/glob-filter.cc:73-95 | The recursion appends exactly the successors of a state. |
| `Parser.ParsesExactlyTheGrammar` | examples/zc/parse/parse-example.cc:16-22 | A string parses to a value exactly if it is derived by a tree of the grammar with that meaning. |
| `Parser.ParsesBack` | examples/zc/parse/parse-example.cc:16-22 | Printing any tree and parsing the text gives back its left-associative, precedence-respecting meaning. |
| `Parser.MeaningIsUnique` | examples/zc/parse/parse-example.cc:16-22 | Two trees of one string mean the same. |
| `Parser.DecimalShifted` | examples/zc/parse/parse-example-non-zc.cc:19-39 | The digit-by-digit sum of a number is its digits as a whole number, with the point shifted. |
| `Parser.NotationDenotes` | examples/zc/parse/parse-example-non-zc.cc:19-39 | The decimal notation of every natural number denotes that number. |
| `Parser.ErrorWhereStuck` | examples/zc/parse/parse-example-non-zc.cc:41-55 | Behind any open parentheses and operands the error says why no factor can be read: end of text, a wrong character, a second point, or a missing parenthesis. |
| `Parser.TrailingIsRefused` | examples/zc/parse/parse-example-non-zc.cc:11-17 | A whole expression with something behind it that cannot belong to it is refused for that. |
| `Parser.ExpressionParser.Parse` | examples/zc/parse/parse-example-non-zc.cc:11-17 | Parses the whole input or fails with the right error. |
| `Parser.ExpressionParser.ParseNumber` | examples/zc/parse/parse-example-non-zc.cc:19-39 | The loop computes the number and its end, and refuses a second point. |
| `Parser.ExpressionParser.ParseFactor` | examples/zc/parse/parse-example-non-zc.cc:41-55 | A number or a parenthesised expression. |
| `Parser.ExpressionParser.ParseTerm` | examples/zc/parse/parse-example-non-zc.cc:57-69 | Factors joined by multiplication and division, from the left. |
| `Parser.ExpressionParser.ParseExpression` | examples/zc/parse/parse-example-non-zc.cc:71-83 | Terms joined by addition and subtraction, from the left; the mutual recursion terminates. |

## Left out

- Passing file descriptors and streams through the pipe (`tryReadWithFds`, `writeWithStreams` and the like), `whenWriteDisconnected`, and the exceptions' texts.
- Failing endpoints of a pipe, and dropping the promise of a pipe operation midway; `abortRead` and `shutdownWrite` are modelled in every state, with what they cancel. What an endpoint had already moved of an operation that is cancelled counts as nothing.
- The shortcut of `AbortedRead::tryPumpFrom` for an input that knows its length to be 0; the one-byte read that follows is modelled.
- Inputs that pump to a pipe by their own `pumpTo` instead of `tryPumpFrom`: where the pipe goes on with `input.pumpTo(pipe, ...)` the model pumps with `tryPumpFrom` at once.
- Arithmetic overflow of 64-bit sizes, counts and sums in the pipe and the tee, which are unbounded numbers here.
- Tee: the error handler for exceptions of the loop itself, which is shown to be unreachable by way of its assertions, and bytes lost when a pump's write fails, which count as given away.
- Event loop: the runnable and firing flags, the check for destroyed events, re-entrant `wait`, destruction of the loop, and fibers.
- CrossThread.Safe: does not model the memory orders of the atomics; all threads' accesses interleave in one order.
- ArenaAllocator.Arena.AllocateBytes: does not model the overflow of sizes; addresses are below 2^63, and alignments are powers of two below 2^32 that `operator new` honours.
- Cross-thread promise: the wake-up of the port, `isWaiting`, `XThreadEvent` and executors, and a thread that exits its loop too early; the protocol is a machine on values, without aliased objects.
- Promise arena: what nodes do between being made and destroyed, and nodes that own several chains; a chain may be dropped early from any front node.
- Arena: constructors and the `allocate` templates, the text of chunk headers in memory, and destructors that throw or allocate.
- `CidrRange` from text, to text and from groups of 16 bits; the tables of local, private and reserved ranges are given as bytes.
- Network filters: the length of a socket address, and where the path of a Unix socket ends in it.
- Gather-writes with file descriptors, and a system call that returns 0 for a non-empty message, which the source calls impossible.
- Promise combinators: typed values (numbers stand for them), tracing, and exceptions thrown by dropping a promise.
- Timers: the variant for clocks that run backwards, and the conversion of units of time.
- Parser: floating point and division by zero; numbers are exact, and the result is the tree of operations the parser performs, in its order.
- The combinator-based parser, the epoll, kqueue and Windows back ends, signals, sockets, name resolution, coroutines, stack traces, and the compiler.
