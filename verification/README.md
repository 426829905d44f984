# A verified model of the Buzz agent supervisor

`buzz-acp` supervises a pool of agent processes: it matches relay events against subscription
rules, queues them per channel, prompts agents over a line-based JSON-RPC pipe, steers running
turns, restarts crashed agents and publishes telemetry frames of bounded size at a bounded rate.
`buzz-agent` reads and writes the other end of the pipe, and a Python script in `perf/` talks to
Redis over its serialization protocol. This project models the state and the decisions of those
parts and proves what they keep in every run.

`dafny verify dfyconfig.toml` checks everything. Where the source changes fields or advances a
loop, the model has a class or a method with a loop, and its `ensures` ties it to a function on
values; the laws are lemmas about that function over arbitrary inputs or arbitrary runs.

| file | what it holds |
|---|---|
| `Seqs`, `Bytes`, `Utf8`, `Utf8Scalars`, `Json`, `JsonReader`, `Events` | shared notions, bytes and decimal numerals, well-formed UTF-8 and its character boundaries, ordered JSON trees with the byte-exact text they serialize to and a reader for it, telemetry events |
| `Trimmer`, `TrimmerLaws`, `TelemetryFrames` | the size trimmer: search, elision, the loop, what it preserves, how often it runs, and what a frame says |
| `Coalescer`, `ChunkFrames`, `Observer`, `Pacer` | the chunk coalescer, the capped replay buffer with its snapshot/live merge, the publish rate limits |
| `Telemetry` | the pipeline from emitted events to published frames |
| `Circuit`, `CircuitGrants`, `Slots`, `SlotRespawns` | the per-slot circuit breaker and exactly what it grants; slots, tasks, respawn guards and the report channel; where every slot goes next |
| `ReadLoop`, `ReadLoopSteps`, `ReadLoopLaws` | the prompt read loop with steering and two deadlines, and the cancel drain after it |
| `SteerQueue`, `SteerLife` | the queue that withholds a steered event, and the life of a channel's events while steers, batches and outcomes interleave |
| `ConfigMerge`, `Usage`, `PoolLifecycle` | the recursive configuration merge, usage deltas, the lazy pool's wake machine |
| `Uuid`, `Subscription`, `Membership` | ids and their spellings, rule matching against merged channel filters, membership de-duplication and ordering |
| `Wire`, `Resp`, `RespReplies` | the bounded line reader over arbitrary chunking, the Redis command codec, every kind of Redis reply |

## Where the code differs from what it says or suggests

The model follows the code.

- `lib.rs:644-648` says a leaf at its retained floor is never elided again and that the loop is
  bounded by the leaf count. An elided leaf can be elided once more when the marker counted enough
  bytes to be longer than its successor: `TrimmerLaws.ElidedLeafShrinksAgainIff` gives the exact
  condition, `OncePerLeafIsNotEnough` a frame that needs two passes for one leaf, `NoThirdElision` and
  `TrimPassesAtMostTwicePerLeaf` the bound that does hold: twice the leaf count.
- The same comment says the stub trivially fits. It keeps the envelope, and the envelope carries the
  agent's own session id. `Trimmer.TrimFitsIff` says exactly when the result fits, on the frame as it
  comes in; `TrimmerLaws.LongSessionIdNeverFits` gives frames for which it never does.
- `acp.rs:1212-1220` says the pending steer is drained on every return path. The two `?` returns, at
  1491 and 1505, drop its sender instead, and so does a control signal, which drops the loop's future
  in `pool.rs`: `ReadLoopLaws.PendingFateIff` and `PendingCanBeDropped`. The main loop treats a dropped
  sender like a neutral acknowledgement, so no event is lost by it (`SteerQueue.TurnSettlesEveryEvent`).
- `acp.rs` says that `cancel_with_cleanup_grace` gives the agent a bounded grace. When the control
  signal comes while the prompt's request is still being written, the steer channel has not been taken
  out yet, the drain takes it, and a steer that succeeds then moves the drain's deadline. That is
  exactly when it can happen: `ReadLoopLaws.DrainCanBeProlongedIff`.
- `requeue` and `requeue_preserve_timestamps` put back a batch's own events and forget the cancelled
  ones merged into it. `SteerLife.RetryLosesNothingIff` says exactly when a retry loses nothing,
  `LostIff` what any step loses.
- `lib.rs:424-428` relies on subscribing before the snapshot. A subscriber can lose an event all the
  same: because its number is taken before the buffer lock and another emitter overtakes it
  (`Observer.OvertakenEventIsLost`), or because the buffer evicts it between subscribing and the
  snapshot (`EvictedEventIsLost`). `NothingLostIff` and `SerialNothingLostIff` say exactly when.
- `filter.rs` compares channel lists as text, `config.rs` as parsed identifiers; and rules may list
  kinds of 32 bits while an event's kind has 16. So a channel can be subscribed although no event on
  it can match, in exactly these two ways: `Subscription.SubscribedButNeverMatchedIff`.
- Wake tokens never restart within a run, since no wake follows taking the pool, but they stop at
  the 32-bit ceiling: `PoolLifecycle.TokensRepeatOnlyAtCeiling`.

## Model

| member | source | states |
|---|---|---|
| Utf8.FloorCharBoundary | crates/buzz-acp/src/lib.rs:776-781 | the downward scan stops at the last character boundary at or before the start |
| Utf8.CeilCharBoundary | crates/buzz-acp/src/lib.rs:783-788 | the upward scan stops at the first character boundary at or after the start |
| Utf8.BoundaryScansAreShort | crates/buzz-acp/src/lib.rs:776-788 | in well-formed UTF-8 neither scan moves more than three bytes |
| Utf8.ValidSplit | crates/buzz-acp/src/lib.rs:750-758 | cutting well-formed text at a boundary leaves two well-formed texts |
| Utf8.BoundaryIff | crates/buzz-acp/src/lib.rs:776-788 | a well-formed text may be cut exactly at its boundaries: anywhere else the parts are not well-formed |
| Utf8Scalars.ValidIff | crates/buzz-acp/src/lib.rs:750-758 | a text is well-formed exactly when it encodes some sequence of scalar values (section 3 of RFC 3629) |
| Trimmer.ElisionBoundaries | crates/buzz-acp/src/lib.rs:770-774 | the two scans give the retained head and the retained tail of a leaf |
| Trimmer.MarkerIsPlain | crates/buzz-acp/src/lib.rs:763-765 | a marker is well-formed text that JSON escaping leaves as it is |
| TelemetryFrames.MarkerSays | crates/buzz-acp/src/lib.rs:763-765 | a marker says, between two ellipses, how many bytes were removed |
| TelemetryFrames.ShrinksIffShorter | crates/buzz-acp/src/lib.rs:736-748 | a leaf may be elided exactly when that makes it shorter |
| Trimmer.ElideShortensSerialized | crates/buzz-acp/src/lib.rs:736-761 | a leaf judged shrinkable on raw bytes is strictly shorter once elided, also as escaped JSON |
| Trimmer.SearchFindsALongestShrinkableLeaf | crates/buzz-acp/src/lib.rs:698-734 | the two-pass search returns a leaf exactly when some leaf can shrink, and then one of the longest that can |
| Trimmer.PutLength | crates/buzz-acp/src/lib.rs:689-696 | replacing one node changes the length of the serialized tree by exactly the node's own change |
| Trimmer.PayloadLength | crates/buzz-acp/src/lib.rs:689-696 | a frame's serialized length moves exactly with its payload's |
| Trimmer.ElideLargest | crates/buzz-acp/src/lib.rs:667-674 | each pass strictly shortens the payload as serialized, which is why the loop ends |
| Trimmer.FitObserverEventToBudget | crates/buzz-acp/src/lib.rs:659-687 | the in-place loop computes the trimming function the laws are about |
| Trimmer.PassKeepsFloored | crates/buzz-acp/src/lib.rs:667-674 | whatever order the passes take, they lead to one tree: every string leaf elided until it no longer shrinks |
| Trimmer.TrimFitsIff | crates/buzz-acp/src/lib.rs:659-687 | the envelope never changes; a frame that fits is untouched; the stub is used exactly when the frame is too large even with every leaf at its floor; the result fits exactly when that floored frame or the stub's does |
| TelemetryFrames.FrameReadsBack | crates/buzz-acp/src/observer.rs:111-121 | each field of an event is read back from its frame under its own name, and a start time only when there is one |
| TelemetryFrames.StubSays | crates/buzz-acp/src/lib.rs:682-686 | the stub names the kind left out and its serialized length, and nothing else |
| TelemetryFrames.Limits | crates/buzz-acp/src/lib.rs:632-689 | the budget is 65535 serialized bytes, and at most 3000 bytes of each end of a leaf are kept |
| TrimmerLaws.ElisionIsExact | crates/buzz-acp/src/lib.rs:750-774 | an elided leaf is its longest boundary-aligned ends of at most 3000 bytes around a marker with the exact number of bytes removed |
| TrimmerLaws.ElisionRetains | crates/buzz-acp/src/lib.rs:736-788 | however often a leaf is elided it is the original or keeps the original's head and tail, and stays well-formed |
| TrimmerLaws.ElidedLeafShrinksAgainIff | crates/buzz-acp/src/lib.rs:739-748 | an elided leaf can shrink again exactly when the first marker's number is long enough to pay for the ellipses that the second cut keeps |
| TrimmerLaws.NoThirdElision | crates/buzz-acp/src/lib.rs:739-748 | no leaf is ever elided three times |
| TrimmerLaws.PlainLeafElidedTwice | crates/buzz-acp/src/lib.rs:667-674 | a frame whose one leaf is 100000 plain bytes, and which is too large after one pass, takes two, against the documented bound |
| TrimmerLaws.OncePerLeafIsNotEnough | crates/buzz-acp/src/lib.rs:644-648 | there is such a frame, with one string leaf in its payload, that fits after the second pass |
| TrimmerLaws.TrimPreservesPayload | crates/buzz-acp/src/lib.rs:659-687 | without the stub the tree's shape, keys and non-string nodes are kept, and every string leaf retains its ends |
| TrimmerLaws.TrimUsesFewestPasses | crates/buzz-acp/src/lib.rs:659-687 | the loop stops at the first pass whose frame fits, and falls back to the stub only when nothing can shrink |
| TrimmerLaws.OversizedFieldNeverFits | crates/buzz-acp/src/lib.rs:676-686 | when one field of the envelope is over the budget, the stub is used and does not fit either |
| TrimmerLaws.LongSessionIdNeverFits | crates/buzz-acp/src/lib.rs:676-686 | so it is with a session id that long, which the agent chooses |
| TrimmerLaws.TrimPassesAtMostTwicePerLeaf | crates/buzz-acp/src/lib.rs:644-648 | the number of passes is at most twice the number of string leaves |
| Coalescer.SetTextThenRead | crates/buzz-acp/src/lib.rs:583-626 | writing joined text into a chunk and reading it back gives the same stream and that text |
| ChunkFrames.ChunkIff | crates/buzz-acp/src/lib.rs:583-612 | which events are chunks, of which stream and with which text, told by what their payload holds at four paths |
| ChunkFrames.OnlyTextChanges | crates/buzz-acp/src/lib.rs:614-626 | writing joined text back changes the payload at the text's own path and nowhere else: every other field, its place and its name stay |
| Coalescer.ObserverChunkCoalescer.Flush | crates/buzz-acp/src/lib.rs:572-580 | emits every pending entry in order and leaves none |
| Coalescer.ObserverChunkCoalescer.Ingest | crates/buzz-acp/src/lib.rs:547-570 | the in-place update of the pending list is the function the stream laws are about |
| ChunkFrames.EmittedIsMadeOf | crates/buzz-acp/src/lib.rs:546-626 | in every run an emitted event is an ingested one that is no chunk, unchanged, or one stream's chunks in one: kind, ids, start time and payload of the first, number and timestamp of the last, and their joined text, the one thing in the payload that differs |
| ChunkFrames.IngestEmitsIff | crates/buzz-acp/src/lib.rs:547-570 | in every run a chunk is held back, and nothing is emitted, unless joining it would reach 60000 bytes; then, and before an event that is no chunk, everything waiting is emitted |
| Coalescer.RunPreservesEveryStream | crates/buzz-acp/src/lib.rs:546-580 | in every run, for every stream, emitted text and pending text together are the text ingested, byte for byte, with every other event once and in its place; one pending entry per stream |
| Coalescer.FlushedRunEmitsEverything | crates/buzz-acp/src/lib.rs:572-580 | after a flush each stream has been emitted exactly as it arrived |
| Coalescer.PendingTextIsBounded | crates/buzz-acp/src/lib.rs:544-570 | pending text stays under 60000 bytes unless it is one chunk that arrived that large |
| Coalescer.PendingCarriesLatestStamp | crates/buzz-acp/src/lib.rs:556-567 | a joined chunk carries the number and timestamp of the latest chunk of its stream |
| Observer.ObserverHandle.Emit | crates/buzz-acp/src/observer.rs:104-136 | an undisturbed emit numbers, buffers (dropping the oldest at 1000) and broadcasts one event |
| Observer.ObserverHandle.Snapshot | crates/buzz-acp/src/observer.rs:93-99 | after undisturbed emits the snapshot is the newest events sent, at most 1000, numbered consecutively up to the last one |
| Observer.NeverDeliveredTwice | crates/buzz-acp/src/lib.rs:439-484 | under any interleaving of emitters, and with lag, no event is delivered twice |
| Observer.NothingLostIff | crates/buzz-acp/src/observer.rs:112-134 | after any interleaving before the snapshot, and without lag after it, an event sent after the subscription is delivered exactly when it was in the snapshot or is numbered above it; nothing is lost exactly when at the snapshot no emitter was overtaken and nothing owed had been evicted |
| Observer.SerialNothingLostIff | crates/buzz-acp/src/lib.rs:424-428 | with serialized emits, nothing sent after the subscription is lost exactly when at most 1000 events were emitted between subscribing and the snapshot |
| Observer.OvertakenEventIsLost | crates/buzz-acp/src/observer.rs:112-123 | a finished run of two emitters in which an event is never delivered |
| Observer.EvictedEventIsLost | crates/buzz-acp/src/observer.rs:123-129 | a finished run of one emitter in which the first of 1001 events is never delivered |
| Observer.SerialDeliveryIsIncreasing | crates/buzz-acp/src/lib.rs:450-484 | with serialized emits and any lag, delivered numbers strictly increase |
| Observer.SerialDeliveryIsContiguous | crates/buzz-acp/src/lib.rs:424-484 | with serialized emits and no lag, delivery is one contiguous range from the oldest event still buffered |
| Telemetry.TelemetryIsFaithful | crates/buzz-acp/src/lib.rs:424-515 | with undisturbed emits and no lag, once flushed, what is handed to the trimmer reads, stream by stream, exactly like one stretch of the emitted events, from the oldest still buffered at the snapshot to the last one received; and so do the published frames when each fits |
| Pacer.Pruned | crates/buzz-acp/src/lib.rs:384-390 | what is kept begins with an entry less than a minute old |
| Pacer.PrunedIsSound | crates/buzz-acp/src/lib.rs:384-390 | pruning keeps the invariant, and of the whole history exactly the publishes of the last minute |
| Pacer.PublishKeepsPace | crates/buzz-acp/src/lib.rs:392-408 | a publish after the interval, with fewer than 90 entries kept, keeps the limits of the whole history |
| Pacer.ObserverPublishPacer.Wait | crates/buzz-acp/src/lib.rs:381-408 | each wait sleeps at most once, and then just until the earliest permitted time; it publishes at the present time and keeps the whole history 167 ms apart and its 90th successors a minute apart |
| Pacer.EarliestIsExact | crates/buzz-acp/src/lib.rs:392-404 | a publish keeps the limits exactly from the time that a wait sleeps until, which is the last publish plus 167 ms or the 90th last plus a minute |
| Pacer.AtMostNinetyPerMinute | crates/buzz-acp/src/lib.rs:364-365 | a history so paced has at most 90 publishes in any minute |
| Circuit.SlotCircuit.RecordCrash | crates/buzz-acp/src/lib.rs:1053-1095 | the in-place update gives the breaker and the verdict of the value function |
| Circuit.SlotCircuit.CanRefill | crates/buzz-acp/src/lib.rs:1113-1131 | likewise for the refill test |
| CircuitGrants.GrantedIff | crates/buzz-acp/src/lib.rs:1053-1131 | in every run, told on crashes, failed spawns and refills alone: a refill is granted exactly when no deadline stands or it has passed, a crash exactly when it has passed or, with none standing, fewer than two crashes count in the last window; a probe closes the circuit and carries no delay, any other grant waits one or two seconds times the jitter; a deadline is 300 seconds from what set it |
| Circuit.TripsOnThirdRecentCrash | crates/buzz-acp/src/lib.rs:1075-1094 | a closed circuit trips exactly on the third crash of a window; otherwise the backoff is in [0.8, 1.2) or [1.6, 2.4) seconds |
| Circuit.AtMostTwoRespawnsPerWindow | crates/buzz-acp/src/lib.rs:1053-1131 | in every run any three respawns granted after crashes span at least 60 seconds |
| Circuit.OpenDenies | crates/buzz-acp/src/lib.rs:1053-1131 | until its deadline an open circuit denies every crash and every refill, and its deadline only moves later |
| Circuit.NothingGrantedWhileCooling | crates/buzz-acp/src/lib.rs:1012-1131 | for 300 seconds after tripping, or after a failed spawn, nothing is granted |
| Circuit.ProbeForgetsNoRecentCrash | crates/buzz-acp/src/lib.rs:1056-1073 | the history cleared at a probe holds no crash of the last window |
| Circuit.CrashAfterProbeReopens | crates/buzz-acp/src/lib.rs:1056-1131 | a crash within a window after a probe finds the circuit open or reopens it, whatever refills and failures come between |
| Slots.RespawnGuard.RunTask | crates/buzz-acp/src/lib.rs:1172-1225 | a respawn task, finished or panicked, offers the channel exactly one report, its result or else a failure |
| Slots.ExactlyOnePlace | crates/buzz-acp/src/lib.rs:1751-1809 | in every run each slot is in exactly one of idle, checked out, respawning or empty, with at most one respawn task |
| Slots.EveryRespawnReportsOnce | crates/buzz-acp/src/lib.rs:1190-1225 | every respawn that ends finds room and adds exactly its own report, so the channel never overflows |
| Slots.ReturnsAreClean | crates/buzz-acp/src/lib.rs:3049-3053 | a returning agent's slot is free, and handling its result forgets exactly its own task |
| SlotRespawns.PlacesMove | crates/buzz-acp/src/lib.rs:1751-1809 | in every run of the pool each action moves each slot exactly as listed: a fatal result, a panic and a refill respawn it exactly when the breaker's rule passes them, other results and reports return it or leave it empty |
| Slots.DistinctReports | crates/buzz-acp/src/lib.rs:1751-1775 | reports of distinct slots below n number at most n, and fewer while a slot has none |
| SlotRespawns.AtMostTwoRespawnsPerSlot | crates/buzz-acp/src/lib.rs:1053-1131 | in every run of the whole pool each slot's respawns after crashes obey the breaker's limit: any three span at least 60 seconds |
| ReadLoop.PromptReader.ReadUntilResponse | crates/buzz-acp/src/acp.rs:1198-1514 | the loop over its own variables computes the run of the step function the laws are about |
| ReadLoopSteps.EndIff | crates/buzz-acp/src/acp.rs:1240-1514 | in every reachable state the next event decides how the loop ends: with the prompt's result exactly on its response without an error, as failed exactly on its response with one, and in each other way exactly on the event it is named for |
| ReadLoopSteps.WaitingFateIff | crates/buzz-acp/src/acp.rs:1275-1340 | in every reachable state the next event decides a waiting steer request: refused for want of a run, refused for a failed write, in flight under a fresh id, dropped when the loop stops, or still waiting |
| ReadLoopSteps.MoveIff | crates/buzz-acp/src/acp.rs:1419-1458 | in every reachable state a steer's answer gives its request the agent's verdict; a success, and nothing else, moves the hard and the stored deadline; an update of the active run, and nothing else, changes it; an offer is accepted exactly when there is a receiver and nothing waits |
| ReadLoopLaws.EveryRequestIsInOnePlace | crates/buzz-acp/src/acp.rs:1208-1340 | at any moment an accepted steer request is waiting, in flight or answered, in one of them, once |
| ReadLoopLaws.EveryRequestHasOneOutcome | crates/buzz-acp/src/acp.rs:1208-1514 | once the loop has returned or been abandoned, each accepted request has exactly one outcome |
| ReadLoopLaws.PendingFateIff | crates/buzz-acp/src/acp.rs:1485-1506 | in every reachable state the next event decides the steer in flight: dropped exactly when the caller abandons the loop or a request of the agent's cannot be answered, answered neutrally exactly at a deadline, the end or a failure of the stream or the prompt's response, given the agent's verdict exactly when that comes, kept otherwise |
| ReadLoopLaws.PendingCanBeDropped | crates/buzz-acp/src/acp.rs:1491-1505 | two runs that drop a steer in flight: a permission request that cannot be answered, and a control signal |
| ReadLoopLaws.IdsAreFresh | crates/buzz-acp/src/acp.rs:1304-1305 | steer ids strictly increase and none is the prompt's, so no response answers both |
| ReadLoopLaws.AgentAcksComeFromOwnResponse | crates/buzz-acp/src/acp.rs:1420-1458 | success or an agent error only ever answers the request in flight, from a response with the latest steer id and with the matching error code |
| ReadLoopLaws.StaleSteerAnswerIsIgnored | crates/buzz-acp/src/acp.rs:1416-1475 | a late answer to an earlier steer is activity and nothing else |
| ReadLoopLaws.IdleDeadlineFollowsActivity | crates/buzz-acp/src/acp.rs:1416-1418 | in every run the idle deadline is the latest valid-JSON activity plus the idle timeout |
| ReadLoopLaws.SilenceEndsTheLoop | crates/buzz-acp/src/acp.rs:1228-1261 | an iteration that begins an idle timeout after the latest activity, or at the hard deadline, accepts nothing and ends the loop with the earlier deadline's error, and an idle error comes only after that silence |
| ReadLoopLaws.StepHardDeadline | crates/buzz-acp/src/acp.rs:1443-1452 | the hard deadline never moves back, moves only with a successful steer, and stays equal to the stored one |
| ReadLoopLaws.RunHardDeadline | crates/buzz-acp/src/acp.rs:1223-1261 | over whole runs it never decreases, and without a successful steer it does not move |
| ReadLoopLaws.IterationsBeginBeforeHardDeadline | crates/buzz-acp/src/acp.rs:1240-1261 | while the loop runs, every iteration so far began before the present hard deadline |
| ReadLoopLaws.GaplessStreamCannotPostpone | crates/buzz-acp/src/acp.rs:1234-1261 | however dense the output, without a successful steer the loop is over once an iteration begins at the original deadline |
| ReadLoopLaws.CancellableIff | crates/buzz-acp/src/pool.rs:1833-1868 | a prompt can be cancelled exactly when writing its request was interrupted or its loop was ended by a deadline or by abandoning it |
| ReadLoopLaws.CleanupIsBounded | crates/buzz-acp/src/acp.rs:837-950 | the drain ends at the prompt's final hard deadline or after 30 seconds, whichever is later, and on a control signal after its grace; no output moves that deadline |
| ReadLoopLaws.DrainIsProlongedOnlyBySteer | crates/buzz-acp/src/acp.rs:881-943 | a drain's deadline moves only with a successful steer, and only when the control signal came while the prompt's own request was being written |
| ReadLoopLaws.DrainCanBeProlongedIff | crates/buzz-acp/src/acp.rs:881-943 | for every prompt that can be cancelled, some drain on a clock that never goes back outlives its deadline exactly when the prompt's request was interrupted while being written and the drain begins before its deadline |
| ReadLoopLaws.DrainCanBeProlonged | crates/buzz-acp/src/acp.rs:881-943 | such a drain, three actions long |
| SteerQueue.EventQueue.MarkNativeSteerPending | crates/buzz-acp/src/queue.rs:673-692 | withholds one queued event of one channel and touches no other channel |
| SteerQueue.EventQueue.ReleaseNativeSteer | crates/buzz-acp/src/queue.rs:703-731 | puts a withheld event back at the front under the cap of 500 |
| SteerQueue.EventQueue.RemoveEvent | crates/buzz-acp/src/queue.rs:738-752 | drops an event from the queue and from what is withheld |
| SteerQueue.RemoveAllConcat | crates/buzz-acp/src/queue.rs:738-752 | dropping an event drops each copy and keeps every other event in its order |
| SteerQueue.HandleSteerAck | crates/buzz-acp/src/lib.rs:2474-2516 | handling an outcome changes one event of one channel as the table says, and falls back exactly on a failed write, a missing run id and a method that is not found |
| SteerQueue.OutcomeDropsOrReleases | crates/buzz-acp/src/lib.rs:2474-2497 | every outcome either drops the withheld event or releases it to the front, never both; only a success drops it, and a fallback always finds it queued |
| SteerQueue.EventQueue.Push | crates/buzz-acp/src/queue.rs:230-253 | queues an event, the oldest making room at the cap |
| SteerQueue.EventQueue.RecoverWithheld | crates/buzz-acp/src/queue.rs:767-790 | puts all withheld events back at the front in their order, under the cap |
| SteerQueue.EventIsSettled | crates/buzz-acp/src/lib.rs:2474-2516 | through any list of outcomes an event is withheld until its one outcome, and is queued after that only if it was no success |
| SteerQueue.TurnSettlesEveryEvent | crates/buzz-acp/src/lib.rs:2803-2885 | after a turn, abandoned or not, none of the events offered to it is still withheld, one that is queued had no success, and with room in the queue every such event is queued |
| SteerLife.EveryEventIsInOnePlace | crates/buzz-acp/src/queue.rs:230-800 | under any interleaving of arrivals, batches, steers, outcomes, expiry and leaving the channel, the copies of an event in all places are together its arrivals; one that arrived once is in exactly one place |
| SteerLife.WithheldIsAwaited | crates/buzz-acp/src/queue.rs:673-752 | no more copies of an event are withheld than outcomes of its steers awaited |
| SteerLife.FlushSends | crates/buzz-acp/src/queue.rs:260-380 | a flush of an idle channel sends out the oldest 50 events, or all there are, with everything set aside; from an empty or throttled queue only what was set aside |
| SteerLife.BatchEnds | crates/buzz-acp/src/queue.rs:429-560 | a batch that ends leaves its events done with, at the queue's front in order under the cap, or set aside |
| SteerLife.SteeredEventIsNeverPrompted | crates/buzz-acp/src/queue.rs:733-752 | when a steer succeeds, every copy withheld or queued is out for good: whatever comes later, that many arrivals reach no batch |
| SteerLife.FailedSteerKeepsEvent | crates/buzz-acp/src/queue.rs:703-731 | an event whose steer fails while it is withheld is at the queue's front, however full the queue, and not lost if it arrived once |
| SteerLife.LostIff | crates/buzz-acp/src/queue.rs:230-800 | in every reachable state an action loses a copy of an event in just the listed cases: the oldest at a full queue on arrival, what was merged into a retried batch or comes to stand past the cap, the newest of a full queue on a failed steer, what comes to stand past the cap on expiry, what waits on leaving; nothing lost is found again |
| SteerLife.RetryLosesNothingIff | crates/buzz-acp/src/queue.rs:429-533 | in every reachable state a retry loses nothing exactly when no cancelled event was merged into its batch and the batch fits into the queue again |
| SteerLife.RetryLosesMergedEvents | crates/buzz-acp/src/queue.rs:508-530 | a run in which retrying a merged batch loses the older event |
| ConfigMerge.DeepMerge | crates/buzz-acp/src/acp.rs:208-228 | visiting the overlay in any order, the in-place merge is the recursive one |
| ConfigMerge.MergePathLaw | crates/buzz-acp/src/acp.rs:208-228 | what any path holds after a merge: the overlay's value, merged where it meets the base's; the base's value where the overlay neither sets nor cuts it off; nothing else |
| ConfigMerge.OverlayWins | crates/buzz-acp/src/acp.rs:208-228 | a value that is no object, or meets no object, is taken whole |
| ConfigMerge.BuildCodexConfigEnv | crates/buzz-acp/src/acp.rs:257-345 | the in-place loops compute the build that the laws below describe |
| ConfigMerge.FoldedKey | crates/buzz-acp/src/acp.rs:301-325 | a top-level key survives the fold and is an object exactly when its last setting is one |
| ConfigMerge.RejectedIff | crates/buzz-acp/src/acp.rs:257-345 | the fold fails exactly when a source is not an object or the last sandbox setting is not one |
| ConfigMerge.NetworkIsAlwaysAllowed | crates/buzz-acp/src/acp.rs:326-345 | a built configuration always allows network access and differs from the merged sources nowhere else |
| ConfigMerge.ParentWins | crates/buzz-acp/src/acp.rs:307-325 | the parent's settings beat every entry's in the fold, at every depth |
| ConfigMerge.NoConfigIff | crates/buzz-acp/src/acp.rs:257-281 | nothing is built exactly when no overlay was generated or no variable is named CODEX_CONFIG |
| ConfigMerge.BuildFailsIff | crates/buzz-acp/src/acp.rs:283-345 | the build fails exactly when some entry or the parent is not an object, or the sandbox key is last set to something else than an object |
| ConfigMerge.ParentIsBuilt | crates/buzz-acp/src/acp.rs:307-325 | whatever the parent sets at a path is what is built there |
| ConfigMerge.LastEntryIsBuilt | crates/buzz-acp/src/acp.rs:301-306 | else what an entry sets is built when no later entry and not the parent touches the path |
| ConfigMerge.NothingElseIsBuilt | crates/buzz-acp/src/acp.rs:301-345 | and nothing is built at a path that no source sets |
| Usage.UsageTracker.Record | crates/buzz-acp/src/usage.rs:211-297 | the in-place update is the value function's |
| Usage.UsageTracker.Take | crates/buzz-acp/src/usage.rs:304-319 | publishes and commits the pending record, if any |
| Usage.PublishedIsLastNotice | crates/buzz-acp/src/usage.rs:182-319 | in every run taking a turn's record publishes exactly when the session in flight was notified in that turn, and then one record whose cumulative counts, cost and model are those of its last notification |
| Usage.TurnSeqHasNoGaps | crates/buzz-acp/src/usage.rs:182-319 | in every run each session's published records are numbered 1, 2, 3 and so on |
| Usage.DeltasTelescope | crates/buzz-acp/src/usage.rs:211-319 | over the readings as they were notified, each published record carries its notification's counts, is reliable exactly when no counter fell since the reading before, and then its deltas are the differences |
| Usage.ReliableDeltasAddUp | crates/buzz-acp/src/usage.rs:211-319 | over readings with reliable deltas, input, output and, where every reading has one, cost deltas add up to the last counts minus the first |
| Usage.PublishedDeltasAddUp | crates/buzz-acp/src/usage.rs:211-319 | so in every run, over any stretch of a session's committed readings |
| Usage.OnlyTheLastNotificationCounts | crates/buzz-acp/src/usage.rs:211-297 | deleting superseded notifications and those of other sessions changes no published record |
| PoolLifecycle.RetryDelayIsCappedDoubling | crates/buzz-acp/src/pool_lifecycle.rs:123-132 | the shifted, saturating delay is five seconds doubled per attempt, capped at 300 |
| PoolLifecycle.LifecycleMachine.StartWakeIfDue | crates/buzz-acp/src/pool_lifecycle.rs:37-58 | starts an attempt exactly when work waits and none is running or cooling down |
| PoolLifecycle.LifecycleMachine.CompleteWake | crates/buzz-acp/src/pool_lifecycle.rs:99-121 | takes the result of the waiting attempt only |
| PoolLifecycle.OnlyTheLatestWakeCompletes | crates/buzz-acp/src/pool_lifecycle.rs:99-121 | in every run a completion is accepted exactly when a wake is outstanding and its token is the latest, and never twice |
| PoolLifecycle.EveryWakeIsAccountedFor | crates/buzz-acp/src/lib.rs:2535-2575 | in every run each wake started is outstanding, has failed or made the pool ready, just one of them |
| PoolLifecycle.AtMostOneWake | crates/buzz-acp/src/lib.rs:1706-1745 | in every run at most one wake is outstanding, exactly while the machine waits, and its result is the one waited for |
| PoolLifecycle.RetriesAreNeverEarly | crates/buzz-acp/src/pool_lifecycle.rs:37-58 | no retry starts before the delay after the failure it retries |
| PoolLifecycle.WakeStartsIff | crates/buzz-acp/src/lib.rs:1714-1718 | in every run a wake starts exactly on a tick with work before the pool is ready, at first at once and later when the delay after the last failure has passed, under the next token |
| PoolLifecycle.WakeSettlesIff | crates/buzz-acp/src/lib.rs:2535-2575 | in every run a result that came up makes the pool ready, and any other result or a panic counts as a failure at that time |
| PoolLifecycle.TokensRepeatOnlyAtCeiling | crates/buzz-acp/src/pool_lifecycle.rs:37-58 | two wakes of a run share a token exactly when both have reached the 32-bit ceiling |
| Subscription.MatchEvent | crates/buzz-acp/src/filter.rs:368-460 | the loop over rules and shared counters computes the recursive match |
| Subscription.MatchIsFirstDecidingRule | crates/buzz-acp/src/filter.rs:368-460 | a rule is matched exactly when it passes and every earlier rule is skipped, so an error, a timeout or a disabled filter ends the search |
| Subscription.MatchIff | crates/buzz-acp/src/filter.rs:368-460 | the match is a rule with a tag exactly when that is its tag or else its name, its channels, kinds and mention condition hold, its filter is absent or enabled and true, and each earlier rule misses one of these conditions or has an enabled filter that is false |
| Subscription.MatchCounts | crates/buzz-acp/src/filter.rs:400-450 | a match moves exactly the counters of the filters it evaluated |
| Subscription.CounterIsTimeoutsSinceSuccess | crates/buzz-acp/src/filter.rs:341-450 | in every run a rule's counter is its timeouts since its filter last gave a truth value, and at most five |
| Subscription.DisabledForever | crates/buzz-acp/src/filter.rs:365-410 | a rule with five timeouts keeps its counter whatever arrives later |
| Subscription.MergeLoop | crates/buzz-acp/src/config.rs:1236-1314 | the merge loop of either resolver computes the merged filter |
| Subscription.MergeIsUnion | crates/buzz-acp/src/config.rs:1236-1314 | the merged kinds are the union, unlimited exactly when an applying rule is; a mention is required exactly when every applying rule requires it |
| Subscription.MatchedEventsAreAdmitted | crates/buzz-acp/src/config.rs:1236-1325 | every event a rule can match on a channel was asked for by that channel's filter |
| Uuids.TextRoundTrip | crates/buzz-acp/src/filter.rs:70 | an id's text is read back, and so is a spelling that is never written |
| Uuids.ParseIff | crates/buzz-acp/src/config.rs:1316-1325 | which texts read as an id: its digits or its text in either case, the latter also in braces or after urn:uuid: |
| Subscription.SubscribedButNeverMatchedIff | crates/buzz-acp/src/config.rs:1316-1325 | a channel is subscribed although no event on it can match any rule, whatever the filters come to, exactly when some rule names it and each that does only spells its id otherwise or lists kinds of which none fits into 16 bits |
| Subscription.RespelledChannelIsNeverMatched | crates/buzz-acp/src/filter.rs:66-72 | a rule list with which this happens by spelling, for every channel |
| Subscription.OversizedKindIsNeverMatched | crates/buzz-acp/src/filter.rs:382-385 | a rule list with which it happens by kind, for every channel |
| Subscription.ResolveDynamic | crates/buzz-acp/src/config.rs:1236-1314 | the single-channel resolver, spelled out for each mode |
| Subscription.ResolveAll | crates/buzz-acp/src/config.rs:1134-1222 | the bulk resolver agrees with the single-channel one on every discovered channel and returns nothing else |
| Membership.MembershipTracker.Handle | crates/buzz-acp/src/lib.rs:1933-1998 | the in-place update is the value function's |
| Membership.LastGenerationIsRemembered | crates/buzz-acp/src/lib.rs:1933-1952 | in every run the last 1000 recorded ids are remembered |
| Membership.NoneProcessedTwice | crates/buzz-acp/src/lib.rs:1933-1952 | no id is recorded again within 1000 others, and at most 1999 are held |
| Membership.AcceptedInOrder | crates/buzz-acp/src/lib.rs:1953-1998 | accepted timestamps never decrease within a channel, and no channel is both subscribed and removed |
| Membership.RemovedIff | crates/buzz-acp/src/lib.rs:1965-1998 | a channel is marked removed exactly when its last accepted notification removed it, and is subscribed after an addition that went through |
| Membership.RunIsAsTold | crates/buzz-acp/src/lib.rs:1933-1998 | in every run the ids recorded, the notifications acted on and the channels subscribed are exactly what the notifications alone say |
| Json.SerializedIsOneLine | crates/buzz-agent/src/wire.rs:220-237 | serialized JSON is one line of UTF-8, with no LF and no trailing CR |
| JsonReader.ValueIsRead | crates/buzz-agent/src/wire.rs:220-237 | the serialized text of any tree with proper numerals is read back as that tree by a reader after sections 2 to 7 of RFC 8259 |
| JsonReader.SerializeIsInjective | crates/buzz-agent/src/wire.rs:220-237 | two such trees with the same text are the same |
| JsonReader.EscapesAreShortest | crates/buzz-agent/src/wire.rs:220-237 | only what must be is escaped, in the short form where there is one |
| Wire.ReadBoundedLine | crates/buzz-agent/src/wire.rs:174-218 | for every chunking the result depends on the bytes alone; a line consumes exactly itself; what is taken never exceeds the limit and is followed by what is left |
| Wire.ReadIff | crates/buzz-agent/src/wire.rs:174-218 | each of the four results exactly when the first LF, the limit, the CR before it and the encoding say so |
| Wire.ReadFrameIff | crates/buzz-agent/src/wire.rs:174-218 | a framed text is read back exactly when it has no LF, no trailing CR, is UTF-8 and fits |
| Wire.FramesRoundTrip | crates/buzz-agent/src/wire.rs:174-237 | reading framed texts gives them back in order and then the end of the input |
| Wire.JsonIsFrameable | crates/buzz-agent/src/wire.rs:220-237 | for JSON only the size matters |
| Wire.WriterTask | crates/buzz-agent/src/wire.rs:220-237 | the writer frames each message's text by one LF, in order |
| Wire.WriteThenRead | crates/buzz-agent/src/wire.rs:174-237 | messages within the limit come back one by one, however the stream is chunked |
| Resp.EncodeCommand | perf/relay_bus_scaling.py:110-117 | the loop over parts computes the frame |
| Resp.Stream.Resp | perf/relay_bus_scaling.py:129-153 | advancing the stream reads what the reader function reads and leaves the same rest |
| Resp.ReadResp | perf/relay_bus_scaling.py:129-153 | every reading of a non-empty stream consumes something, which is why the recursion ends |
| Resp.DecodeInvertsEncode | perf/relay_bus_scaling.py:110-153 | reading an encoded command gives its parts, CR LF inside them included, and consumes exactly its frame |
| Resp.PipelinedCommandsDecode | perf/relay_bus_scaling.py:110-153 | commands sent in a row decode to the same commands in order |
| Resp.EncodingIsPrefixFree | perf/relay_bus_scaling.py:110-117 | no two commands share an encoding, and none is a prefix of another's |
| RespReplies.CommandIsList | perf/relay_bus_scaling.py:110-117 | a command is sent as the protocol writes a list of bulk texts |
| RespReplies.ReplyIsRead | perf/relay_bus_scaling.py:129-153 | every reply is read as what it says: texts, numbers, both kinds of nothing, lists of any depth, and errors, which raise with the server's words |
| RespReplies.NumbersAreRead | perf/relay_bus_scaling.py:138-141 | a number is read with either sign or none and any blanks around it |
| RespReplies.OtherPrefixIsMalformed | perf/relay_bus_scaling.py:153 | another first byte is malformed |
| RespReplies.UnendedBulkIsMalformed | perf/relay_bus_scaling.py:143-147 | so is a bulk text not followed by CR LF where its length says |

## Assumptions of the model

- Time is an integer number of milliseconds that never goes back; a sleep may end late but not early.
- Concurrency is interleaving: emitters, the receiver, prompt tasks, respawn tasks and the wake task
  take steps in any order, and lemmas quantify over every list of steps.
- A respawn task either reports or ends without a report, never both; `slot_alive` covers idle and
  checked-out slots. Both are what `lib.rs` and `pool.rs` do.
- Text handed to the trimmer and the codecs as a string is well-formed UTF-8, as the Rust and Python
  string types guarantee.

## Left out

- Processes, signals, sockets, Redis connections and the tokio scheduler: nondeterministic steps and a clock stand for them.
- The broadcast channel's capacity: the receiver may lag by any number of events at any time.
- A poisoned buffer lock in `observer.rs`: an emit always gets the lock.
- Machine integers are unbounded, except event kinds below 2^16, the trimmer's byte counts below 2^64 and the wake attempts' 32-bit ceiling.
- Floating point: cost and jitter are real numbers.
- Parsing of JSON text: an agent's line arrives already classified as blank, not JSON, or a message.
- `handle_permission_request` and `handle_session_update`: only how far the answer came, and what the update did to the client.
- The `uuid` library is not part of the repository: its spellings are modelled as version 1 reads them.
- The content of the prompt request, and an initial message prompted before it, which would have taken the steer channel.
- What the cancel functions write before their drain: only whether it was written. The error they return is not modelled.
- `try_native_steer` is modelled from the offer on; rendering the steer prompt is not.
- Retry delays, compaction, fairness between channels and the order within a batch in `queue.rs`; a batch given up after too many retries counts as finished.
- SteerQueue.TurnSettlesEveryEvent: says that an unsuccessful event is queued again only while the channel's queue stays below its cap of 500, because a full queue drops its newest events whatever they are.
- The affinity and claiming rules of `pool.rs`: a dispatch takes any idle agent.
- Dispatching, draining and shutting down the pool, and the heartbeat.
- evalexpr: a filter's evaluation is any of true, false, error or timeout.
- Signatures, encryption and the publishing of a fitted frame.
- Membership.RemovedIff: whether a new channel is in scope and whether the relay took the subscription come with each notification.
- Writing the Codex configuration back to text, duplicate keys in its sources, and the texts of all errors.
- Two JSON models stand side by side: ordered trees with exact bytes for telemetry and the wire, maps for the configuration merge, whose result has no order.
- Python's limits on recursion depth and on the digits of an integer.
- The silence value inside the hard timeout's error.
- Command line, prompt texts, model listing, desktop and web clients: they add nothing hard.
