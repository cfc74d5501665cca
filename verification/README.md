# Verified model of logsurge's log pipeline

logsurge reads bytes from a child process, a socket or the journal, cuts them into records, holds the
records in a bounded queue and hands them to a sink. This project models that pipeline in Dafny and proves
what its comments and documentation promise: bounded memory, no lost wakeups, exact drop accounting, records
that are never split or reordered, and for a queue with one source clean-up that survives any fragmentation.

```
chunk reader -> framer -> bounded queue -> writer -> ANSI stripper -> sink
 ChunkPool      Framer     RingQueue       WriterLoop     Ansi        HttpSink + JsonString
 Capture        Splitters  QueueSpec       Protocol...                DirSink + DirSpec + RotationNames
 Connections, TcpShutdown
```

How the parts fit together:

- `QueueSpec` says what each critical section of the queue does, as functions on values; `RingQueue.Queue` is
  the slice-backed ring on an array and refines it method by method.
- `Protocol` is a step machine over any number of producers (outside Push, waiting, or woken), outside
  closers, the one-slot wake channel and the writer's program counter. One action is one critical section or
  one call into the sink, which may fail at any time. `ProtocolSafety`, `ProtocolProgress`, `ProtocolHistory`
  and `ProtocolAccounting` hold the invariants; `Delivery`, `DropReports`, `SharedStripping`,
  `Shutdown` and `Pipeline` the results about whole runs.
- `WriterLoop.Writer` is the writer as a loop over the real ring and the real stripper, interleaved with any
  script of the other goroutines; its state is always one that a run of `Protocol` reaches, so the results
  about runs become postconditions of `RunWriter`.
- `FramerSpec` is a byte-at-a-time reference with timeouts and the end of input as events; `Framer.Framer`
  works on a heap buffer that is shifted in place and refines it. `ChunkPool` shares seventeen buffers between
  two goroutines, and `Capture` runs pool and framer together.
- `Ansi` and `JsonString` contain a reference and the loop proved equal to it; `Utf8` and `JsonDecode` are
  independent decoders for the round trips.
- `HttpSink` takes the server as an arbitrary function from the number of a POST to its outcome. `DirSpec` says what
  rotation and retention do to a directory, a map from names to contents; `DirSink` is the sink, for any clock and
  any behaviour of the write buffer; `Retention` is about what retention removes.
- `Connections` is the TCP accept loop with its table, its framer goroutines and Close, one critical section or one
  call at a time; `TcpShutdown` joins it to `Protocol`, its framers being the producers.

Preconditions are those of validated configuration (`config.go:460-471`, `config_file_validate.go:160-172`): at
least one queue record, fragment size positive and at most the queue's bytes, batch sizes positive, retries not
negative, directory limit positive. The queue results do not assume that lines fit the byte cap: where they
need it they say so, and `ProtocolProgress.OversizeDropIsSilent` and `OversizePushHangs` show that this is
exactly what they need. `dafny verify dfyconfig.toml` checks the whole project.

Where the code and its description differ, the model follows the code:

- The user manual (`README.md:635-639` of the repository) says the HTTP byte limit caps a POST's encoded
  payload. The limit is tested after the record was encoded, so a POST can exceed it by part of its last
  record: `HttpPayload.LongRecordPassesTheCap`. `HttpPayload.PassesTheCapIff` says exactly when, and
  `HttpPayload.PayloadBound` by how much at most.
- The same manual (`README.md:120-127`) says the live file is rotated before it grows past the limit and that the
  newest rotated files are kept. A single record over the limit still gets a file of its own
  (`DirSink.FilesWithinLimit`). Newest is decided by name: the segment just rotated is removed at once when the
  clock has stepped back behind the oldest file that could stay, or when it stands still and earlier attempts at
  that time are gone (`Retention.StandingClockLosesTheNewest`, `Retention.SteppedBackClockLosesTheNewest`);
  `Retention.SurvivesIff` says exactly when it survives.
- `ansi.go:27-29` speaks of one record split by the framer. With several producers on a queue the one stripper
  also carries its state from one producer's record to another's: `SharedStripping.SecondProducerLosesAByte`;
  `SharedStripping.NextLineIffSameState` and `EachProducerIsStrippedAlone` say when that does no harm.
- `ansi.go:57` takes an unknown ESC-prefixed control for two bytes. Of longer ones (DCS, SOS, PM and APC strings,
  designations of character sets) the rest stays in the text: `Ansi.SequenceLeaves`, `Ansi.NothingLeftIff`.
- `networkSource.Close` (`source_network.go:198-222`) may return while a connection is still open: one that Accept
  has returned and addConn has not seen, or one that removeConn has taken out of the table and not closed yet
  (`Connections.CloseBeforeAddConn`, `Connections.CloseWithinRemoveConn`). `Connections.AllShutIff` says exactly
  when, and by the time the queue is closed all are (`Connections.ClosedQueueMeansAllShut`).
- `Shutdown.EveryRecordIsDelivered` is about several connections on one queue under the block policy. The code
  supports it; the daemon's configuration accepts only the lossy policies for its inputs
  (`config_file_validate.go:172-174`).
- `queue.go:174-180` counts a drop that cannot happen: `QueueSpec.DropOldestAcceptsIffFits`.

## Model

| member | source | states |
|---|---|---|
| `QueueSpec.EvictForDropsLeast` | queue.go:161-173 | the eviction loop removes the k oldest records and tallies exactly their number and bytes; k is the least number that makes room |
| `QueueSpec.DropOldestAcceptsIffFits` | queue.go:150-182 | under drop-oldest an open queue accepts a line if and only if it fits the byte cap; the second rejection branch (174-180) is never taken |
| `QueueSpec.LongerSuffixesDoNotFit` | queue.go:161-173 | if one record more would break a cap then so would any longer suffix: stopping at the first fit gives the longest suffix |
| `QueueSpec.AcceptedPush` | queue.go:71-99 | an accepted push appends the record under the next sequence number, leaves a wake token, and has dropped exactly the records that stood in its way, none unless the policy is drop-oldest |
| `QueueSpec.RefusedPush` | queue.go:88-97 | a push refused by an open queue did not fit one of the caps, counts one drop of its own size under the queue's policy and changes nothing else; it never happens under block, and for a line that fits the byte cap only under drop-newest with records queued |
| `QueueSpec.PushOutcome` | queue.go:71-99 | exactly: a push is accepted if the queue is open and one record more keeps both caps, or under drop-oldest if the line fits the byte cap; without room it waits under block and is refused otherwise; a closed queue refuses |
| `QueueSpec.PushInternalOutcome` | queue.go:101-121 | a diagnostic is accepted if and only if the queue is open and one record more keeps both caps; it is numbered and signalled, and drops and counters stay |
| `QueueSpec.UnacceptedPush` | queue.go:77-97 | a push that waits or is refused leaves contents, numbering and wake channel as they were |
| `QueueSpec.PushTallies` | queue.go:150-191 | each push moves the interval drops and the cumulative counters by the same records and bytes: those evicted, or the refused line, or nothing |
| `QueueSpec.PushKeepsValid` | queue.go:71-99 | no push breaks the record cap or the byte cap, whatever its size, nor reopens a closed queue |
| `QueueSpec.PushInternalKeepsValid` | queue.go:101-121 | diagnostics keep both caps too |
| `QueueSpec.PopKeepsValid` | queue.go:197-210 | popping keeps both caps |
| `RingQueue.WindowPush` | queue.go:115-118 | writing slot (head+queued) mod length appends to the live window and leaves every other live record in place |
| `RingQueue.WindowPop` | queue.go:203-206 | clearing the head slot and advancing head removes exactly the first record; slots outside the window stay zero, so dropped lines can be collected |
| `RingQueue.SlotIsModulo` | queue.go:115 | the slot of the i-th live record computed with a single wrap-around is (head+i) mod length |
| `RingQueue.Queue.constructor` | queue.go:28-41 | a new ring stands for the empty open queue with the given caps |
| `RingQueue.Queue.HasCapacityLocked` | queue.go:193-195 | the test on the ring's counters decides whether the stored records and the new line fit both caps |
| `RingQueue.Queue.SignalLocked` | queue.go:234-241 | the send never blocks and never goes to a closed channel; afterwards one token is there |
| `RingQueue.Queue.PushLocked` | queue.go:123-148 | the ring after storing is the sequence with the record appended, numbered and counted |
| `RingQueue.Queue.PushDropOldestLocked` | queue.go:150-182 | the in-place eviction loop refines the specification of greedy eviction, result and tallies included |
| `RingQueue.Queue.Push` | queue.go:71-99 | one evaluation of Push on the ring refines the specification in every policy, accepting, refusing or finding that it must wait |
| `RingQueue.Queue.PushInternal` | queue.go:101-121 | a diagnostic is stored only if there is room; it never evicts and is never counted as a drop |
| `RingQueue.Queue.Pop` | queue.go:197-210 | returns the oldest record and leaves the rest in order; nothing from an empty queue |
| `RingQueue.Queue.Close` | queue.go:216-224 | closes the wake channel exactly once, keeping a buffered token and all records |
| `RingQueue.Queue.TakeDrops` | queue.go:226-232 | hands out the drops since the last call and starts from zero |
| `RingQueue.Queue.Snapshot` | queue.go:58-69 | reports the number of records and the sum of their line lengths, both within the caps |
| `RingQueue.Queue.TryReceiveWake` | writer.go:38 | a buffered token is delivered before the close is seen; otherwise the receive blocks or reports the close |
| `Protocol.ReachableIsEndOfRun` | writer.go:30-59 | the inductive notion of reachable state used with the imperative writer is the same as being the end of some run |
| `ProtocolSafety.AttemptEffect` | queue.go:71-99 | what one evaluation of Push by a producer does to contents, wake token, drops and the set of blocked producers |
| `ProtocolSafety.NextKeepsSafe` | writer.go:30-107 | every critical section and sink call of every goroutine keeps the wakeup, blocking and program-counter invariants |
| `ProtocolSafety.RunsAreSafe` | writer.go:30-107 | these invariants hold at the end of every interleaving from the start |
| `ProtocolProgress.LostWakeupFreedom` | queue.go:234-241 | over every interleaving: when the writer is parked and records are queued (or, while all lines fit, drops are unreported) its next receive does not block; the wake channel is closed exactly when the queue is |
| `ProtocolProgress.NoDeadlock` | queue.go:74-84 | with a producer waiting, the queue is open; if it is empty some woken producer's push succeeds, otherwise the writer has a step, although Pop wakes only one producer |
| `ProtocolProgress.CloseReleasesBlocked` | queue.go:216-224 | after Close every blocked Push can run, returns false and leaves the queue alone |
| `ProtocolProgress.PopWakesOne` | queue.go:197-210 | Pop on a non-empty queue wakes exactly one waiting producer if there is one, whichever the scheduler picks, and changes nobody else |
| `ProtocolProgress.InternalStepDecreases` | queue.go:197-210 | every step of the writer and of producers already inside Push brings the system nearer to rest |
| `ProtocolProgress.ComesToRest` | writer.go:62-90 | without new input every schedule ends within a bound read off the state |
| `ProtocolProgress.AtRestNobodyIsBlocked` | queue.go:74-84 | at rest no producer is blocked; unless the sink failed, the queue is empty and all drops are reported; if it was closed, the writer has returned |
| `ProtocolProgress.EveryPushReturns` | queue.go:71-99 | from any state of any run in which all lines fit: boundedly many further steps, and at their end every Push has returned |
| `ProtocolProgress.OnlyOffersAreOversize` | queue.go:80-84 | the side condition of these results is met unless some caller offered a line longer than the byte cap |
| `ProtocolProgress.OversizeDropIsSilent` | queue.go:88-97 | a lossy queue counts the first drop without waking the parked writer if and only if the line is over the byte cap |
| `ProtocolProgress.OversizePushHangs` | queue.go:77-79 | under block a push to the empty queue waits with nothing left that could wake it if and only if the line is over the byte cap |
| `ProtocolHistory.AdmitKeepsOk` | queue.go:150-182 | accepting a record after k evictions keeps: positions are sequence numbers, contents are the longest fitting suffix, what left was popped or evicted once |
| `ProtocolHistory.NextKeepsQueueHistory` | queue.go:71-210 | every step of every goroutine keeps those three facts |
| `ProtocolAccounting.NextKeepsDropsBalance` | writer.go:92-107 | every step keeps: drops counted = lost pushes plus evictions = drops in summaries written, in the writer's hands, and still pending |
| `ProtocolAccounting.NextKeepsLogFaithful` | writer.go:68-80 | every step keeps the sink's log equal to the popped records, cleaned by one stripper carried along, with summaries in between |
| `ProtocolAccounting.NextKeepsProducers` | queue.go:71-99 | every step keeps each producer's accepted, refused and pending items in the order it offered them |
| `ProtocolAccounting.RunsAreSound` | writer.go:30-107 | all invariants together, at the end of every run |
| `Delivery.GreedyEvictionIsOptimal` | queue.go:150-182 | in every state of every run the queue holds the longest suffix of the accepted, not yet passed records that fits both caps |
| `Delivery.DropConservation` | writer.go:92-107 | when the writer returns nil the summaries add up exactly, in records and bytes, to pre-close pushes without room plus evictions, and to the cumulative counters |
| `Delivery.AcceptedIsWrittenOrEvicted` | queue.go:150-182 | when the writer returns nil every accepted record was written or evicted, once; nextSeq is the sum of both |
| `Delivery.WrittenSequenceNumbers` | queue.go:131-137 | in every state the numbers written are strictly increasing, and exactly 0..n-1 under block and drop-newest |
| `Delivery.BlockIsLossless` | writer.go:38-57 | under block, when the writer returns nil, the sink got exactly the accepted records in order, no drop was summarised, queue and drops are empty; each producer's offers were accepted or refused by close |
| `Delivery.ConnectionProjection` | source_network.go:84-96 | each connection's accepted records are a subsequence of what it offered, in every policy and state; all of it under block if nothing was refused |
| `Delivery.SinkClosedOnceAtTheEnd` | writer.go:44-56 | sink.Close runs at most once, exactly once before a nil return, and nothing is written after it |
| `Delivery.FirstErrorEndsTheWriter` | writer.go:30-59 | the writer fails if and only if some call into the sink did, and that call is its last: nothing is flushed, written or closed after an error |
| `Delivery.CleaningKeepsTheRest` | writer.go:73-77 | the writer changes nothing of a record but the line of a user record |
| `Delivery.LogIsStrippedStream` | writer.go:68-80 | with stripping on, in every state, the user lines in the sink joined are the stripped join of the user lines dequeued, however they were cut into records |
| `SharedStripping.StrippedAsIfAlone` | writer.go:68-80 | one stripper serves the queue: if no control sequence is open whenever the next record is another producer's, each producer's lines come out as from a stripper of its own |
| `SharedStripping.ClosedRecordsSuffice` | writer.go:68-80 | that is so if no record by itself ends inside a sequence |
| `SharedStripping.NextLineIffSameState` | ansi.go:36-84 | exactly: whatever a producer's next line is, it comes out as from a stripper of its own if and only if the shared stripper is in the state that one would be in |
| `SharedStripping.TwoPushesRun` | writer.go:38-80 | two producers push one line each and the writer takes both: for any two lines that fit, the run, who owns what, and what was dequeued |
| `SharedStripping.SecondProducerLosesAByte` | writer.go:68-80 | the condition is needed: that run with a first line that a timeout cut inside a sequence, at whose end the second producer's line has lost its first byte |
| `SharedStripping.OwnersAreRight` | queue.go:131-137 | a dequeued record's sequence number is its position in the list of accepted records, which tells whose it is |
| `SharedStripping.EachProducerIsStrippedAlone` | writer.go:68-80 | the same in every state of every run of the queue and writer |
| `Delivery.LogIsRawWhenKept` | writer.go:14-17 | with ANSI kept the sink gets the dequeued records themselves |
| `DropReports.NextKeepsReports` | writer.go:92-118 | every step keeps: drops pending, in the writer's hands or summarised were lost by the queue's own policy, which is not block |
| `DropReports.SummariesNameTheirPolicy` | writer.go:92-118 | every summary in the log of any run is an internal dropped record counting at least one loss and naming the queue's policy; block produces none, and the reason without a policy is never used |
| `DropReports.DropsAreTakenBetweenPops` | writer.go:62-90 | in every run the writer takes the drops before each Pop, after the Pop before it, and once more before it closes the sink: a flood is reported while it lasts |
| `Shutdown.OrderlyShutdownRefusesNobody` | source_network.go:93-101 | if the queue is closed once, when no producer is inside Push, and nobody pushes afterwards, then over the whole run no push was refused |
| `Shutdown.EveryRecordIsDelivered` | source_network.go:64-101 | block policy, orderly shutdown, sink that does not fail: for any number of connections on one queue all their records reach the sink, each connection's in its own order |
| `WriterLoop.Writer.constructor` | writer.go:12-29 | the writer starts parked on an empty queue, coupled to the initial state of the protocol |
| `WriterLoop.Writer.PushOnce` | queue.go:71-99 | a producer's call on the real ring does to the coupled state what the protocol's step does |
| `WriterLoop.Writer.EnvAct` | queue.go:71-121 | one step of another goroutine on the real ring is the protocol's step if that is possible, and nothing otherwise |
| `WriterLoop.Writer.Interfere` | writer.go:62-90 | between two steps of the writer the others do all the steps the script has for them, in order |
| `WriterLoop.Writer.CloseQueue` | queue.go:216-224 | closing wakes every waiting producer, once |
| `WriterLoop.Writer.PopStep` | queue.go:197-210 | Pop on the ring, waking one sleeping producer if there is one, is a step of the protocol |
| `WriterLoop.Writer.EmitDropSummary` | writer.go:92-107 | with other goroutines running in between: takes the drops and writes one summary if there are any; ends where the protocol says, also on a sink error |
| `WriterLoop.Writer.WriteStep` | writer.go:73-80 | one popped record goes through the stripper unless internal and to the sink; a sink error leads to the failing state |
| `WriterLoop.Writer.DrainQueue` | writer.go:62-90 | drains until a pop finds nothing, under any interference; stays a run of the protocol |
| `WriterLoop.Writer.FlushCase` | writer.go:32-37 | a failing flush is reported once, closes the queue and ends the writer with the error |
| `WriterLoop.Writer.WakeCase` | writer.go:38-57 | a received token leads to draining and back to the select; a seen close leads to draining, the last summary, sink.Close and the return |
| `WriterLoop.Writer.RunWriter` | writer.go:12-60 | the whole loop on the real ring, for every script of the other goroutines and every pattern of sink errors: a writer left waiting has an empty open queue and a script at its end; a nil return means queue and drops empty, sink closed once, summaries equal to the drop counters, numbers increasing, and under block every record written; each error is reported once |
| `Ansi.StripSplit` | ansi.go:27-29 | cutting the input anywhere and carrying the state over gives the same output and state |
| `Ansi.StripPlain` | ansi.go:31-35 | the fast path equals the state machine: without ESC, outside any sequence, input is output and the state stays Normal |
| `Ansi.StripOutputClean` | ansi.go:36-84 | from every state, on every input, the output has no ESC and is a subsequence of the input |
| `Ansi.StripIdempotent` | ansi.go:30-85 | stripping what was stripped changes nothing |
| `Ansi.StripGrammar` | ansi.go:39-81 | any concatenation of ESC-free text, complete CSI sequences, complete OSC strings ended by BEL or ESC backslash, and ESC with one more byte strips to exactly its text and ends in Normal (sections 5.4 and 5.6 of ECMA-48) |
| `Ansi.StripIncompleteSequence` | ansi.go:82-84 | a sequence cut off anywhere leaks nothing |
| `Ansi.EscapeDropsTwo` | ansi.go:48-59 | ESC and whatever follows it but an opening bracket, a closing one or another ESC are dropped, and the text goes on |
| `Ansi.EscapeStartsAnew` | ansi.go:54-55 | an ESC right after an ESC starts a sequence of its own |
| `Ansi.StripIsUncontrolled` | ansi.go:36-84 | on every input the machine keeps what cutting without states leaves: a CSI goes up to its first byte in 0x40-0x7e whatever comes before, an OSC string up to a BEL that no ESC precedes or a backslash that one does, ESC with the byte after it, and an ESC before an ESC; all else stays |
| `Ansi.SequenceLeaves` | ansi.go:48-59 | what is left of sequences of ECMA-48 the machine does not know: of DCS, SOS, PM and APC strings (section 5.6) the body, of escape sequences with intermediate bytes, such as the designation of a character set, all but ESC and the first of these |
| `Ansi.NothingLeftIff` | ansi.go:36-84 | exactly: nothing is left of complete CSI sequences, OSC strings and two-byte escape sequences and of empty control strings, and of no other sequence |
| `Ansi.StripLinesIsStrip` | ansi.go:27-29 | stripping record by record and joining is stripping the joined stream |
| `Ansi.AnsiStripper.Strip` | ansi.go:30-85 | fast path and byte loop together compute the state machine's output and next state |
| `FramerSpec.FeedSplit` | framer.go:122-154 | consuming a then b leaves the same buffer, continued flag and records as consuming a followed by b at once |
| `FramerSpec.ChunksDoNotMatter` | framer.go:122-154 | for every partition of a stream into chunks the result depends on the stream only |
| `FramerSpec.FeedIsAppendAndCut` | framer.go:142-151 | the reference that handles one byte at a time equals appending a whole LF-free stretch and cutting it, and leaves at most the maximum buffered |
| `FramerSpec.FeedLine` | framer.go:123-141 | consuming up to and including the first LF and then the rest is consuming all |
| `FramerSpec.ReplayIsFaithful` | framer.go:69-179 | for every sequence of bytes and timeouts: lines at most the maximum and LF-free, non-newline fragments non-empty, max-bytes fragments full, Continued exactly after a record that was not a complete line, and records plus buffer give back the stream |
| `FramerSpec.FinishedStreamIsRebuilt` | framer.go:156-162 | after the end of input the records alone give back the stream, with one CR removed before an LF exactly where no timeout fell in between |
| `FramerSpec.NormalizedIsUnix` | framer.go:174-179 | without timeouts that is the stream with every CRLF turned into LF |
| `FramerSpec.StreamWithoutTimeouts` | framer.go:53-113 | so feeding any stream and ending it rebuilds to the stream with CRLF as LF; max-size cuts never separate the CR from its LF |
| `FramerSpec.ReplayArrivals` | framer.go:91-102 | a chunk is the same as its bytes one at a time |
| `FramerSpec.NoInternalFragments` | framer.go:164-172 | the framer never emits an internal record |
| `FramerSpec.UnfinishedIsFlushed` | framer.go:103-110 | a timeout pushes the unfinished line whole as one Timeout record, the end of the input as one EOF record, and neither pushes anything if no line is unfinished |
| `FramerSpec.EndsAreCounted` | framer.go:90-172 | for every stream: one Newline record for each LF, one Timeout record for each timeout on an unfinished line, no EOF record before the end |
| `FramerSpec.EndOfInputIsCounted` | framer.go:156-162 | at the end one EOF record exactly if a line is unfinished |
| `Framer.Framer.DropFront` | framer.go:131-132 | shifting the buffer's tail down in place drops exactly the emitted front and touches no pushed line |
| `Framer.Framer.CutLong` | framer.go:129-134 | the cutting loop on the heap buffer computes the reference cut and bounds the buffer |
| `Framer.Framer.EndLine` | framer.go:135-138 | the completed line is pushed without its trailing CR and the next record is not a continuation |
| `Framer.Framer.Consume` | framer.go:122-154 | the search-and-cut loops compute the byte-wise reference, and no line pushed earlier changes although the buffer is rewritten in place |
| `Framer.Framer.HandleChunk` | framer.go:91-102 | after a chunk the timer runs exactly if the interval is non-zero and bytes are buffered |
| `Framer.Framer.HandleTimeout` | framer.go:103-110 | a timeout flushes all that is buffered as one record and marks the next as continued |
| `Framer.Framer.EmitEOF` | framer.go:156-162 | the end of input flushes what is buffered, and only if there is something |
| `Framer.Framer.Run` | framer.go:53-113 | the select loop handles what it receives up to the first read error or the closed channel, which it returns: its history grows by exactly the bytes of these chunks, in order, and a timeout wherever the timer fires with a line unfinished; its records are those of the replay of that history, with one EOF handling at the end |
| `Framer.LoggedStream` | framer.go:91-102 | a history that grew so holds the bytes of the chunks, in order, and no others |
| `Framer.LoggedTimeouts` | framer.go:103-110 | and one timeout for each time the timer fired since whose last firing bytes had come that did not end in LF, none without a flush interval |
| `ChunkPool.Pool.constructor` | capture.go:58-64 | seventeen distinct buffers, all free |
| `ChunkPool.Pool.Fill` | capture.go:69-88 | Read may scribble over its whole buffer, yet no chunk on its way changes; the reported bytes become the last in flight, and what Read reported is kept |
| `ChunkPool.Pool.Send` | capture.go:73-88 | the chunk passes from the reader to the channel, unchanged; then the reader goes on, stops or passes the error on as Valid says of the last report |
| `ChunkPool.Pool.PutBack` | capture.go:78-88 | returning an unused buffer finds room in the free list; then the same |
| `ChunkPool.Pool.ReceiveChunk` | framer.go:91 | the oldest chunk passes from the channel to the framer, unchanged |
| `ChunkPool.Pool.Consume` | framer.go:100 | the bytes the framer copies out are the bytes that were read |
| `ChunkPool.Pool.Release` | framer.go:115-120 | releasing never blocks: the free list has room |
| `ChunkPool.Pool.ReaderTurn` | capture.go:65-88 | every action of the reader keeps ownership and contents, a turn before a Read performs it, and all reports but the last are free of error; it stands still exactly when waiting for a free buffer or for room, or at its end |
| `ChunkPool.Pool.FramerTurn` | framer.go:89-112 | every action of the framer keeps ownership and contents; it stands still exactly when the channel is empty and open, or at its end |
| `ChunkPool.EachBufferInOnePlace` | capture.go:58-80 | in every state each buffer is in exactly one of free list, channel, reader and framer |
| `ChunkPool.NeverBothWait` | capture.go:59-61 | reader and framer never wait for each other, and the framer never waits for a reader that has ended |
| `ChunkPool.DoneMeansDelivered` | capture.go:65-88 | when both are done everything read was consumed and all buffers are free, also after a read error |
| `ChunkPool.ReadsUntilTheEnd` | capture.go:67-87 | the reader stops if and only if a Read reports the end or an error, and that Read is the last; the framer returns an error exactly if it was one |
| `ChunkPool.InFlightIsBounded` | capture.go:59-64 | what was read and not yet consumed is at most 17 chunks |
| `Capture.Start` | capture.go:58-64 | a fresh pool and framer share no memory and have seen nothing: every schedule can start |
| `Capture.FramerSide` | framer.go:89-112 | a framer turn on the shared pool feeds exactly the bytes it consumed to the framer, and flushes at the end |
| `Capture.TakeTurn` | framer.go:89-112 | every turn of either goroutine or the timer happens unless the goroutine waits for the other or is done |
| `Capture.Run` | framer.go:89-112 | under every schedule of reader, framer and timer the framer has seen exactly the bytes consumed from the pool and shares no memory with it |
| `Capture.WhenBothAreDone` | capture.go:58-90 | then the lines pushed give back all bytes read, whatever the chunking and the timeouts; a Read reported the end or an error, none before it did, and the framer has returned that error |
| `Splitters.NetworkSource.PushDatagram` | source_network.go:141-171 | pushes the full fragments and then the rest as a completed line; one record if no limit is set |
| `Splitters.JournalSource.PushJournalLine` | source_journal.go:161-197 | the same for a journal message; an entry that does not parse pushes nothing and reports the error |
| `Splitters.SplitJoins` | source_network.go:151-170 | the fragments joined are the line |
| `Splitters.PushesJoin` | source_network.go:141-171 | for every limit the fragments joined are the line and exactly one of them completes it; without a limit there is only that one |
| `Splitters.TrimRight` | source_network.go:132 | what is trimmed is all CR and LF, and what is left does not end in either |
| `Splitters.SplittersAgree` | framer.go:122-154 | for every line and every positive limit the splitters push what a fresh framer pushes for the line and LF if and only if the line has no LF inside and does not end in CR |
| `Splitters.DatagramsAgree` | source_network.go:129-133 | a trimmed datagram is framed like the same text over TCP if and only if no LF is inside it |
| `Pipeline.RunFramer` | framer.go:26-41 | for everything the select of a new framer receives: the arguments of its Push calls are the records the reference makes of all bytes of the chunks up to the first read error or the close, with one Timeout record for each firing on an unfinished line; each carries the framer's source and metadata; the end is returned. This is the hypothesis `FramedBy` of the next three about a producer |
| `Pipeline.SoleProducerOwns` | runner.go:504-510 | with one framer on the queue every accepted record is its own or an internal diagnostic |
| `Pipeline.DequeuedIsFramed` | framer.go:15-17 | block policy, one framer, orderly shutdown, sink that does not fail: the user records the writer dequeues are exactly the framer's, in order, whatever diagnostics are accepted in between |
| `Pipeline.SinkHoldsTheStream` | writer.go:38-57 | with ANSI kept the sink's user records give back the input stream, for every interleaving, chunking and placement of timeouts |
| `Pipeline.SinkHoldsTheStrippedStream` | writer.go:68-80 | with stripping the sink's user lines joined are the stripped join of the framer's lines |
| `Pipeline.FramersNeverHang` | config.go:460-471 | with the validated bound maxFragmentBytes <= queueBytes no framer ever offers an oversized line, so wakeup freedom and progress hold for every run fed by framers |
| `Utf8.InvalidIsErrorOfWidthOne` | format_json.go:242-243 | the caller's test sees exactly the bytes that start no valid sequence; an encoded U+FFFD is not mistaken for one |
| `Utf8.DecodeOfEncode` | format_json.go:242 | every scalar value encodes to a sequence that decodes to it, whatever follows (section 3 of RFC 3629) |
| `Utf8.EncodeOfDecode` | format_json.go:242 | every sequence of the grammar in section 4 of RFC 3629 is the encoding of the rune it decodes to |
| `Utf8.EncodeOfRunes` | format_json.go:243-248 | encoding the runes read from any byte string gives it back with each invalid byte replaced by U+FFFD |
| `JsonString.AppendRune` | format_json.go:217-262 | one turn of the loop extends the pending run or flushes it and appends an escape, so that what is written plus the run grows by exactly the escape of one rune |
| `JsonString.AppendJSONStringBytes` | format_json.go:210-266 | the run-copying loop writes the rune-by-rune escape between quotes |
| `JsonDecode.RoundTrip` | format_json.go:210-266 | for every byte string the output is one JSON string (section 7 of RFC 8259) and reads back as the input with each invalid byte replaced by U+FFFD; valid UTF-8 reads back unchanged |
| `JsonDecode.InjectiveOnValid` | format_json.go:210-266 | different valid strings have different escapes |
| `JsonDecode.EqualEscapes` | format_json.go:243-248 | any two strings have the same escape if and only if they differ at most in what their invalid bytes are |
| `JsonDecode.NotInjectiveOnInvalid` | format_json.go:243-248 | two invalid strings with the same escape |
| `JsonDecode.QuotedShape` | format_json.go:219-241 | no byte below 0x20 in the output, so a record stays one line; at most 6 times the length plus 2 |
| `JsonDecode.HeadLength` | format_json.go:219-261 | which escape is written: two bytes for quote, backslash, LF, CR and tab, six in lower-case hex for other controls, invalid bytes, U+2028 and U+2029, and everything else is copied |
| `JsonDecode.NoRawSeparators` | format_json.go:250-259 | U+2028 and U+2029 stand nowhere in the output as they are |
| `JsonDecode.QuotedBoundIsTight` | format_json.go:234-236 | the factor 6 is reached |
| `JsonDecode.HexByteValue` | format_json.go:268-271 | the two hex digits read back as the byte |
| `HttpSink.HTTPSink.constructor` | sink_http.go:35-45 | a new sink has nothing pending; a batch size that is not positive becomes the default |
| `HttpSink.HTTPSink.Attempts` | sink_http.go:73-108 | between one and Retries+1 POSTs of one payload, none acknowledged but possibly the last, and all of them if none was |
| `HttpSink.HTTPSink.Conclude` | sink_http.go:87-118 | a 2xx or a final 401 or 403 empties the buffer, with a warning for a denial; anything else keeps buffer and count and reports the error |
| `HttpSink.FlushSettles` | sink_http.go:62-119 | one flush settles its records by its last POST, exactly if that was acknowledged or denied; every batch keeps a POST of its own that settled it, in order, and every acknowledgement settled a batch |
| `HttpSink.FlushEnds` | sink_http.go:85-118 | a flush that sends fails if and only if the last answer is none of 2xx, 401 and 403, and leaves nothing pending if and only if it does not fail |
| `HttpSink.HTTPSink.Flush` | sink_http.go:62-119 | for every server: nothing is sent if nothing is pending, otherwise at most Retries+1 POSTs, all with the buffer as payload; the pending records leave as one batch exactly if the last answer was 2xx, 401 or 403 |
| `HttpSink.HTTPSink.WriteRecord` | sink_http.go:47-60 | it sends exactly when BatchRecords records are pending or BatchBytes bytes in the buffer, and then the buffer with the record; otherwise the record is pending; something longer than BatchBytes is sent if and only if the record does not fit what the buffer leaves of it |
| `HttpSink.HTTPSink.Close` | sink_http.go:121-123 | a last flush of what is pending; when it succeeds every record given is in a settled batch |
| `HttpSink.FlushPassesCapIff` | sink_http.go:69-74 | a flush sends something longer than a cap exactly if something is pending and the buffer is longer |
| `HttpPayload.EncodingIsOneLine` | http_encoder.go:23-50 | whatever bytes a line holds, its encoding is one line of at most 6 times its length plus the fixed part |
| `HttpPayload.PayloadSplitsIntoRecords` | sink_http.go:69-74 | splitting a payload at LF gives exactly the encodings of the batch, in order |
| `HttpPayload.PayloadBound` | sink_http.go:52-58 | while no flush failed every POST carries a stretch of at most BatchRecords of the records given; if all records given have bounded lines and metadata its payload is below BatchBytes + 6 maxFragmentBytes + 2 + the fixed part |
| `HttpPayload.UnaskedPostsAreFull` | sink_http.go:47-60 | batching, over any run: a POST that no Flush or Close asked for carries at least BatchRecords records or at least BatchBytes bytes, and while no flush has failed exactly BatchRecords or at least BatchBytes |
| `HttpPayload.WritesSendFullBatches` | sink_http.go:47-60 | a new sink that is only written to sends nothing less, and holds back less than either limit while no flush has failed |
| `HttpPayload.EveryRecordIsAccounted` | sink_http.go:62-119 | over any run: the k-th record given is pending, or at its place in a batch that a POST carried; that POST was answered with 200 to 299 if the batch counts as acknowledged and otherwise with 401 or 403 |
| `HttpPayload.LongRecordPassesTheCap` | sink_http.go:52-58 | a new sink given one record whose encoding is longer than BatchBytes sends it whole in its first POST: the documented cap does not hold |
| `HttpPayload.PassesTheCapIff` | sink_http.go:47-60 | exactly: over any sequence of writes and flushes of a new sink some POST is longer than BatchBytes if and only if for some record written the buffer at that moment, which held the encodings of the records just before it, and its own encoding together were |
| `RotationNames.NamesInOrder` | sink_dir.go:158-165 | a rotation at a later time, or a later attempt at the same time, gets a name that sorts later |
| `RotationNames.NamesReflectOrder` | sink_dir.go:158-165 | names sort exactly as their times and attempts, and different ones never collide |
| `RotationNames.EarlierIsFieldsLess` | sink_dir.go:159 | the fields as the layout prints them compare exactly as the times do: year, month, day, hour, minute, second, fraction |
| `RotationNames.FormatReads` | sink_dir.go:159 | the name reads back as the time: four digits of year, two each of month and day, T, two each of hour, minute and second, a dot, nine digits, Z |
| `RotationNames.NameReads` | sink_dir.go:160-166 | the first attempt has no suffix, the n-th after it a tilde and n in three digits; the name ends in .log |
| `RotationNames.RotationNamesAreRecognised` | sink_dir.go:216-239 | retention recognises every name a rotation can get, and never the live file |
| `RotationNames.RecognisedIff` | sink_dir.go:216-239 | exactly which names retention takes for rotated segments: eight digits, T, six digits, a dot, nine digits, Z, possibly a tilde and three digits, and .log |
| `RotationNames.UnrelatedNames` | sink_dir_test.go:37-43 | names that only look alike are none |
| `DirSpec.SortedUnique` | sink_dir.go:212 | a set of names has one sorted listing |
| `DirSpec.SortNames` | sink_dir.go:212 | the listing is sorted and complete |
| `DirSpec.ListingIsKept` | sink_dir.go:199-214 | the listing retention works on is exactly the kept segments, oldest first |
| `DirSpec.RetainedKeepsOnDisk` | sink_dir.go:179-197 | while names are in order of rotation, retention keeps exactly the newest min(rotations, MaxFiles) |
| `DirSpec.RotationKeepsOrder` | sink_dir.go:125-177 | with a clock that moves on (or without retention, one that does not go back) the new name is last and the newest segments stay |
| `DirSpec.RotationKeepsContents` | sink_dir.go:125-177 | for every clock: a rotated file holds one whole segment, and without retention every segment keeps a file of its own |
| `DirSpec.UnrelatedFilesStay` | sink_dir.go:199-211 | rotation and retention touch no file that is neither the live one nor has the name of a rotated one |
| `DirSink.DirectorySink.constructor` | sink_dir.go:30-55 | on any directory: the live file is kept or created, its size is known, other files stay |
| `DirSink.DirectorySink.Reopen` | sink_dir.go:108-123 | a new sink on what a closed one left continues the same stream, with the size taken from the file |
| `DirSink.DirectorySink.RotationPath` | sink_dir.go:158-177 | the first free of a thousand names, or failure exactly if all are taken |
| `DirSink.DirectorySink.EnforceRetention` | sink_dir.go:179-197 | the loop removes exactly the first names of the sorted listing until MaxFiles are left, in any directory |
| `DirSink.DirectorySink.MoveAside` | sink_dir.go:141-156 | rename, retention and a new live file in one, as a function of the directory |
| `DirSink.DirectorySink.Rotate` | sink_dir.go:125-156 | at any reading of the clock: the live records become one segment under the first free name, retention follows, an empty live file is opened; it fails only if all names are taken, keeping every record |
| `DirSink.DirectorySink.WriteRecord` | sink_dir.go:57-73 | at any reading of the clock: appends the record whole, rotating first exactly if the live file is not empty and would pass MaxBytes |
| `DirSink.DirectorySink.Flush` | sink_dir.go:75-80 | afterwards what was buffered is in the live file |
| `DirSink.DirectorySink.Close` | sink_dir.go:82-106 | everything is in the file and the sink is closed |
| `DirSink.DirectoryHoldsTheStream` | sink_dir.go:125-214 | while the clock is steady, in every state: sorted rotated files, then live file and buffer, are a record-aligned suffix of all that was written: all of it without retention, otherwise exactly min(rotations, MaxFiles) newest segments and the live file |
| `DirSink.FilesWithinLimit` | sink_dir.go:62-69 | for every clock: every rotated file of the sink, and the live file, is at most MaxBytes or holds a single record |
| `DirSink.RotatedOnlyWhenFull` | sink_dir.go:62-69 | for every clock: a rotated segment and the record written after it together are longer than MaxBytes, so no rotation happens too early |
| `DirSink.NothingIsLostWithoutRetention` | sink_dir.go:158-176 | for every clock: with MaxFiles 0 each segment is in a file of its own |
| `Retention.NewNameSortsLast` | sink_dir.go:158-176 | a new name sorts after an existing one if and only if the clock has moved on since, or stands still and all attempts up to that one are still there |
| `Retention.RetainedIff` | sink_dir.go:179-197 | in any directory retention keeps a rotated file if and only if fewer than MaxFiles sort after it |
| `Retention.NewestSurvivesIff` | sink_dir.go:125-156 | in any directory, at any reading of the clock, the segment just rotated survives if and only if MaxFiles is 0 or fewer than MaxFiles rotated files sort after its name |
| `Retention.SurvivesIff` | sink_dir.go:125-156 | in terms of the clock: it survives if and only if there is room for another file, or since the oldest rotation that could stay the clock has moved on, or stands still with all attempts up to that one still there |
| `Retention.StandingClockLosesTheNewest` | sink_dir.go:158-197 | with MaxFiles 1 and three rotations at one clock reading, rotation and retention remove the third segment and keep the second |
| `Retention.SteppedBackClockLosesTheNewest` | sink_dir.go:158-197 | with MaxFiles 1 a segment rotated at an earlier clock reading than the file kept is removed at once |
| `Retention.ThirdRecordIsLost` | sink_dir.go:57-73 | the same on the sink: of four records written to it at one clock reading its directory keeps the second and the fourth; the third is in no file |
| `Connections.TCPSource.AcceptReturns` | source_network.go:66 | the listener hands a new connection to the loop; it is in no table yet |
| `Connections.TCPSource.AddConn` | source_network.go:173-182 | the connection in hand enters the table if and only if the source is open and below its limit; the counter stays the size of the table |
| `Connections.TCPSource.StartFramer` | source_network.go:83-84 | the WaitGroup counts the new framer before it can run |
| `Connections.TCPSource.Refuse` | source_network.go:75-78 | a connection that got no place is closed by the loop |
| `Connections.TCPSource.Remove` | source_network.go:184-190 | the connection is out of the table, and the counter is the size of the table whether or not it was in it; it is not closed yet |
| `Connections.TCPSource.CloseRemoved` | source_network.go:191 | removeConn closes it after the mutex was released |
| `Connections.TCPSource.WgDone` | source_network.go:85 | the WaitGroup is counted down only after the connection was closed |
| `Connections.TCPSource.CallClose` | source_network.go:198-211 | the first call marks the source closed and takes a copy of the table; later calls change nothing |
| `Connections.TCPSource.CloseListener` | source_network.go:212-214 | the listener returns no more connections; what is left to close is the copy |
| `Connections.TCPSource.CloseConn` | source_network.go:218-220 | one connection of the copy is closed, whichever |
| `Connections.TCPSource.LoopReturns` | source_network.go:98-100 | the queue is closed only when no connection is between wg.Add and wg.Done, and then none is left |
| `Connections.TCPSource.TakeTurn` | source_network.go:64-101 | every action, one critical section or one call at a time, does to the source exactly what is said of it, and keeps active = size of conns <= maxConnections; once closed no connection enters the table; apart from new connections and calls of Close each leaves less of the shutdown to do |
| `Connections.TCPSource.Run` | source_network.go:64-101 | the same over every schedule, turn by turn; when the queue is closed every connection the listener ever returned has been closed |
| `Connections.TurnLeavesLess` | source_network.go:64-101 | each turn but a new connection or a call of Close lowers a measure of what is left to do, so a shutdown ends |
| `Connections.CloseReachesTheTable` | source_network.go:198-222 | when Close has returned, a connection still open is in the accept loop's hands, or in its own goroutine's between the delete of removeConn and the conn.Close after it; all others have been closed, those in the table among them |
| `Connections.AllShutIff` | source_network.go:184-222 | exactly: when Close has returned every connection has been closed if and only if the accept loop has none in hand and each one just leaving was still in the table when Close looked |
| `Connections.CloseBeforeAddConn` | source_network.go:66-75 | the first exception happens: Close runs to its end between Accept and addConn, and the connection is open |
| `Connections.CloseWithinRemoveConn` | source_network.go:184-191 | so does the second: Close runs to its end between the delete and the close of removeConn |
| `Connections.ClosedQueueMeansAllShut` | source_network.go:93-101 | when the queue is closed every connection the listener ever returned has been closed and its goroutine is done |
| `Connections.ShutdownNeverStalls` | source_network.go:93-101 | after Close an action towards the end is always possible until the queue is closed, and a framer need return only after its connection was closed |
| `TcpShutdown.Step` | source_network.go:84-101 | accept loop and queue stay in step: only running framers are inside Push, and the queue is closed when there is none; each event is exactly the action it stands for |
| `TcpShutdown.RunTogether` | source_network.go:64-101 | for every schedule of accept loop, framers, Close, pushes and writer: once the accept loop has closed the queue the run is an orderly one, so under block with a sink that does not fail every record any connection offered was accepted and reached the sink, each connection's in its own order |

## Left out

- RingQueue.Queue.Push: is one evaluation with the mutex held and returns MustWait where the source blocks in notFull.Wait; waiting, waking and trying again are the Blocked states of `Protocol`.
- RingQueue.Queue.PushLocked: copies the line by value; that accepted lines share no memory with the framer's buffer is proved in `Framer`, where each pushed line is a fresh array.
- Ansi.AnsiStripper.Strip: the reused output buffer is a sequence, so that a sink must not keep the returned slice is not captured.
- JsonString.AppendJSONStringBytes: appendJSONString is the same loop over a string and is not written out again.
- Utf8.DecodeOfEncode: utf8.DecodeRune is a library function; the model is its specification, the grammar of RFC 3629.
- DirSink.DirectorySink.constructor: what the live file already holds counts as one record, and the order of rotated files that were there before is not claimed; a limit of zero bytes, which the source rejects, is excluded.
- DirSink.DirectorySink.WriteRecord: a formatted record is assumed not to be empty, which both formatters guarantee; how much bufio writes through at once is arbitrary.
- DirSink.DirectorySink.Rotate: times are the printed UTC fields; the calendar and the conversion to UTC are not modelled.
- Connections.TCPSource.AcceptFails: an Accept that fails while the listener is open (`source_network.go:66-73`) closes the queue with framers running and is not modelled.
- WriterLoop.Writer.RunWriter: written-record metrics and the clock are not modelled; each call into the sink succeeds or fails as an arbitrary sequence says.
- Splitters.JournalSource.PushJournalLine: parsing the journal's JSON is a parameter.
- Counters (nextSeq, drops, statistics) are unbounded; their wrap-around at 64 bits is not modelled. Statistics are always attached.
- Fairness of schedulers: progress is stated as a bound on the steps to rest and by what holds at rest.
- Metadata values, floats, timestamps and the json.Marshal fallback: the rest of an encoded record is an opaque string without LF.
- HTTP transport, request construction, headers, secrets, back-off sleeps and warning texts.
- The pipe of `capture.go:14-49` and the closing of its ends.
- Directory locking, fsync, I/O errors, and names in the directory that are not regular files.
- Plain formatting, standard output, fan-out and locking sink wrappers.
- Process control, signals, health, metrics, flag and configuration parsing, file following, and the start-up and shutdown order of the daemon.
