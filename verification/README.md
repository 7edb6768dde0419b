# muxocket, modelled and proved

muxocket multiplexes byte streams over one transport. This project models the parts of it whose
correctness does not show from reading one function, and proves what they promise:

- **The reliable channel** (`Arq`, `ArqSink`, `ArqLink`, `ArqResume`, `ArqDuplex`, `Channel`, `Transfer`). `Arq`
  holds the two ends' state and what each event does to it. `ArqSink` is the receiving end with its ring, the
  application's Read and the closing of channel and session around it, each load and store of a shared flag a
  step. `ArqLink` is one direction as a step system over a network that loses, duplicates and reorders frames,
  with transport swaps, teardown and lossy window updates. `ArqResume` is what completes a stream. `ArqDuplex`
  joins two directions for finalization. `Channel` is the program's own mutable object, its methods proved to do
  exactly what the step functions do, on top of the receive ring. `Transfer` runs any list of operations on two
  such objects with a network between them.
- **The receive ring** (`RingQueue`, `Ring`, `RingRun`, `RingSteps`). The linked list of chunks as a heap
  structure refining a queue of buffers, any list of operations on it, and once more as producer and consumer
  atomic steps under every interleaving.
- **Flow control** (`CreditPipe`, `CreditStream`, `CreditSession`, `Wakeups`, `Flow`). Credit as a ledger
  under every interleaving of readers, writers and the goroutine that resolves window updates; blocking and
  waking; and the counters as mutable objects, one call at a time.
- **The write side** (`WriteFrames`, `Compaction`, `RefCounts`, `AckCoalescing`, `Framing`). In-place batch
  compaction, shared reference-counted buffers, coalesced acknowledgements, datagram packing and both parsers.
- **The session's tables and codecs** (`SessionTables`, `Labels`) and the **allocator** (`Allocator`).

A step system is a state, a guard `Enabled` or `CanHappen`, a function `Apply` or `Happen`, and a run over any
list of steps; its theorems quantify over all runs. A mutable object is a class with `Valid()`, and every
method says what the new state is in terms of the old one.

## Where the code does less than one might expect

- **A window update can be stranded.** The resolver takes the credit and clears the pending flag in two steps
  (write_scheduler.go:158-159). A reader that adds credit and loses the test-and-set between them leaves
  credit that nobody announces. `CreditPipe.StrandedExactlyWhenUnlucky` gives the one step that does it, and
  `CreditStream.StallIsReachable` a run, for every window of at least two bytes, that ends in a writer that
  never wakes again. No run without that step ends so: `CreditStream.OnlyUnluckyStalls`. One call at a time it cannot happen: `Flow.UnblockWriter`.
- **The datagram walker takes an UPD frame's amount for a payload length** (session.go:757-772), so what one
  end packs the other reads back exactly when it holds no window update: `Framing.DatagramRoundTripIff` for one
  datagram, `Framing.PackedRoundTripIff` for all that a flush produces.
- **Merged window updates are read as an int32.** Compaction preserves meaning exactly when no scope's updates
  in one batch add up to 2^31: `Compaction.MeaningPreservedIff`. The ledgers show that real batches stay below.
- **End of file does not always mean the whole stream.** A payload fed after the session has closed is dropped
  while the position still moves to FIN (channel.go:651, 691): `ArqLink.EofMissesRefusedPayload`. A Read that
  finds itself aborted on leaving throws away the rest of the ring (channel.go:188-193), and a GOAWAY processed
  afterwards turns that into an end of file: `ArqLink.EofMissesDiscardedRing`. A GOAWAY before FIN ends the
  stream where it is: `ArqLink.GoAwayEndsEarly`. `ArqLink.EofWholeIff` gives the exact condition over every run:
  the stream is whole exactly when FIN is reached, no payload was refused and no unread ring was thrown away or
  closed. That FIN is not reached at the end comes from a GOAWAY alone: `ArqLink.EofWithoutFinIsGoAway`.
  `ArqLink.FinAnnouncedFirst` gives the order that is always safe: FIN announced before anything closes.
- **`MaxPendingEarlyFramesPerSession` counts the frames of each channel's queue**, not of the session
  (session.go:1148). What the session's budget bounds is bytes (session.go:1144), which frames without payload
  do not use. `SessionTables.SecondChannelExceeds` holds one frame more than the limit,
  `SessionTables.FrameLimitIsPerSessionIff` says the limit is the session's exactly when one channel may be
  stashed, and `SessionTables.AllSound` that channels times frames always bounds it. The model also follows the
  code for the defaults of that limit and of `MaxPendingChannels` (8 and 4, session.go:266-271), where the
  table in the project's README says 16 frames.
- **Some discarded bytes are never credited to the session.** `lost` in the session ledger counts three
  branches: a datagram frame refused by a closed channel or session, whose result is ignored (session.go:792-813);
  a push into a ring closed after the flags were tested (channel.go:651-660); and a filled ring that finalization
  closes although it was not announced as drainable (channel.go:852-869). `CreditSession.NothingLostIff` says the
  whole window stays accounted for exactly when none of them is taken. `CreditSession.RefusedFramesStallSession`
  is a run, whenever the stream windows add up to the session window, after which nobody can send any more.

## Model

| member | source | states |
|---|---|---|
| Arq.DeliverKeeps | channel.go:669-750 | whatever frame of the stream arrives, in any order and any number of times, the bytes pushed stay a prefix of the stream, the reorder map holds whole later frames, and position, pushed bytes, cumulative acknowledgement and a reached FIN never go back; a closed channel or session refuses the payload and still moves on |
| Arq.DrainKeeps | channel.go:693-705 | handing over stashed frames restores the invariant that nothing stashed is next, without losing or repeating a byte |
| Arq.NoPartialOverlap | channel.go:739-743 | frames of one stream never straddle the receiver's position: the last case of the arrival switch is dead |
| Arq.DropAckedKeepsChain | channel.go:526-564 | a cumulative acknowledgement leaves a contiguous list that starts no later than the acknowledgement, and empties it when it covers everything |
| Arq.DropAckedIs | channel.go:536-546 | an acknowledgement drops every frame it covers, oldest first, and keeps everything from the first it does not cover |
| Arq.DropAckedTwice | channel.go:526-564 | after two acknowledgements only the larger one matters |
| Arq.ChainCatchesUp | channel.go:620-632 | delivering the retransmission list in order brings the receiver to the end of the stream and its FIN, whatever was stashed and however small the reorder limit |
| ArqSink.StepKeeps | channel.go:179-282 | every load, store, push and read of the receiving end, interleaved with arrivals from the transport or the stash at any time and with the closing of channel and session, keeps the bytes read a prefix of the bytes pushed and those a prefix of the stream; the acknowledgement never goes back |
| ArqSink.HarmDamages | channel.go:940-966 | the receiving end is damaged after a step exactly when it was before or the step is one of the harmful ones |
| ArqSink.WholeIffUndamaged | channel.go:897-899 | at end of file the stream is whole exactly when FIN is reached and the receiving end is undamaged |
| ArqLink.StepKeeps | channel.go:144-177 | every step of the lossy link, at both ends and in the network, keeps the whole invariant: stream, list, network, receiver, reader, closing flags, credit |
| ArqLink.PrefixDelivery | channel.go:669-750 | in every run the bytes pushed to the ring, and the bytes Read has returned, are a prefix of the bytes written; the pushed prefix is exactly the position long as long as neither channel nor session is closed |
| ArqLink.ReorderMapHoldsFrames | channel.go:720-737 | every reorder-map key is a frame boundary above the position and holds exactly that frame's bytes |
| ArqLink.UnackedCoversGap | channel.go:459-464 | in every run the list is contiguous and covers everything from the acknowledged position to the last byte and the FIN; if it is empty, everything is acknowledged |
| ArqLink.EofWholeIff | channel.go:179-282 | in every run after which Read has reported end of file, Read has returned the whole stream exactly when FIN is reached and no step was harmful: a payload fed to a closed channel, session or ring, an unread ring thrown away, or an end reported on GOAWAY's word while a feed had just filled the ring |
| ArqLink.EofWithoutFinIsGoAway | channel.go:887-899 | an end of file before FIN is reached comes from a GOAWAY on a closed session and from nothing else |
| ArqLink.FinAnnouncedFirst | channel.go:831-837 | once FIN is announced while channel and session are open, every end of file Read ever reports is the whole stream, whatever closes afterwards and in whatever order |
| ArqLink.EofMissesRefusedPayload | channel.go:650-692 | for every non-empty write there is a run without GOAWAY in which the session closes during the last feed, FIN is reached, and Read reports end of file with nothing returned |
| ArqLink.EofMissesDiscardedRing | channel.go:179-193 | for every split of a write there is a run in which Read returns the first part, throws the rest of the ring away on leaving, and later reports end of file |
| ArqResume.ResumeCompletes | session.go:983-1016 | from every reachable state with both ends alive there is a run, swapping the transport and retransmitting everything, that completes the stream at the receiver and whose acknowledgement empties the list |
| ArqResume.AnyOrderCompletes | channel.go:620-632 | with a reorder limit of at least one window, in every run in which each listed frame arrives, in any order, any number of times and between any other steps, the receiver ends at or past the last byte then written, and at FIN if it was sent |
| ArqResume.FedAlone | channel.go:686-750 | an arrival that nobody interrupts takes the steps of the receiving end to exactly one delivery of the protocol |
| ArqLink.GoAwayEndsEarly | channel.go:887-895 | for every non-empty first write there is a run in which GOAWAY makes Read report end of file before any of it arrived |
| ArqLink.ReorderLimitUnreachable | channel.go:720-737 | flow control keeps every frame in flight less than one window above the position, so with a limit of at least one window the drop branch is never taken: an early frame is stashed with its own bytes |
| ArqDuplex.EventKeeps | channel.go:839-895 | every event of the two-way channel, with localClose and peerGone split into their stores, keeps both directions' invariants and what each side's finalization rests on |
| ArqDuplex.FinalizedMeansBothComplete | channel.go:839-869 | a side that finalizes without abort has had every byte and its FIN received by the peer, and has received every byte and the FIN of the peer |
| Channel.Channel.constructor | channel.go:80-98 | a new channel is the protocol's initial sender and receiver over an empty ring, with all counters at zero |
| Channel.Channel.Write | channel.go:100-142 | the bytes reported as sent are exactly the frames queued; each frame is the most that frame size, remaining bytes and available credit allow; both windows pay for each byte sent once and nothing else of them changes; it stops short only when refused, when the session dies at a frame, which stays on the list, or when a window is used up |
| Channel.Channel.QueueData | channel.go:144-177 | the sender changes as the protocol says and the queued frame is the one appended to the list; a frame that cannot be queued stays on the list, its credit is refunded and the writer woken |
| Channel.Channel.SendFin | channel.go:787-812 | FIN takes the position after the last byte and joins the list |
| Channel.Channel.OnAck | channel.go:526-564 | the first k frames are released, all covered by the acknowledgement, and the next one is not covered; the list is reported drained when it just became empty |
| Channel.Channel.RetransmitAllUnacked | channel.go:620-632 | everything unacknowledged, in order |
| Channel.Channel.CumulativeAck | channel.go:459-464 | the acknowledgement the protocol asks for, one past FIN once FIN is reached |
| Channel.Channel.FeedPayload | channel.go:650-667 | an open channel of an open session takes the buffer; otherwise it is handed back and credited, and the refusal reported; its allocation is accounted for |
| Channel.Channel.DrainReorder | channel.go:693-705 | the drain loop hands over exactly the stashed frames that became next; each position moved over is in the ring or credited, and no allocation is lost |
| Channel.Channel.CountForAck | channel.go:707-718 | an in-order frame is acknowledged at once when the stream is complete, on every n-th frame, or when large and configured so |
| Channel.Channel.FeedInOrder | channel.go:686-718 | the in-order case: a refused peer is reset within the rate limit, the drain follows, the cumulative position is acknowledged at once or delayed exactly as the counter, the frame size and FIN say, the reading side ends exactly when FIN is reached; the allocation is accounted for |
| Channel.Channel.FeedAside | channel.go:720-743 | a later frame is kept exactly when it is past the position, within the limit and not there yet; anything else is handed back; both are acknowledged at once |
| Channel.Channel.SendAck | channel.go:472-489 | the offset is stored, the timer stopped, and one acknowledgement queued unless one is pending or the session is closed |
| Channel.Channel.ScheduleDelayedAck | channel.go:491-524 | the offset is stored and its acknowledgement is due: by the frame already queued, at once without an interval, by the timer, or, while data waits in the ring, with the next arrival |
| Channel.Channel.ResetPeer | channel.go:992-1006 | a peer that still writes is told so, never once reading is over and not more often than the retransmission timeout unless forced |
| Channel.Channel.FeedReliable | channel.go:669-750 | every case of the arrival switch does to the receiver what the protocol says and to acknowledging, resetting and crediting what that case says; the frame's allocation is queued, stashed or handed back, exactly once |
| Channel.Channel.HandleFin | channel.go:968-983 | FIN is recorded and acknowledged at once, and ends the reading side only when nothing is missing |
| Channel.Channel.Receive | session.go:645-652 | a DATA or FIN frame off the wire is one delivery step of the protocol |
| Channel.Channel.ReadSome | channel.go:199-211 | the loop of partial reads returns the oldest bytes in order and stops only when the room is full or the ring is empty; used-up allocations are handed back in order |
| Channel.Channel.Read | channel.go:179-282 | bytes if there are any; refused exactly when aborted at the start or over an empty ring; otherwise end of file exactly when the stream is done and the ring is empty, and then everything pushed has been returned and the ring is closed; a call aborted on leaving throws the ring away; every byte that leaves the ring is returned or credited and every allocation handed back in order |
| Channel.Channel.DrainRing | channel.go:940-966 | the one discarding of the ring hands back every allocation in order and credits every byte |
| Channel.Channel.Close | channel.go:814-829 | FIN goes out exactly when writing was not closed before; the first Close refuses payloads from then on, throws the ring away with its credit and its allocations, and resets a peer that is still writing; finalization follows exactly when nothing is left to do |
| Channel.Channel.CloseWrite | channel.go:768-785 | FIN is sent once, at the position after the last byte |
| Channel.Channel.MaybeFinalize | channel.go:839-850 | finalizes exactly when FIN is queued, reading is over and nothing is unacknowledged |
| Channel.Channel.Finalize | channel.go:852-869 | once: list and map go, the map's allocations are handed back; the ring is closed exactly when it is empty or was not announced as readable to the end, and only then are its allocations given up |
| Channel.Channel.LocalClose | channel.go:871-885 | a ring announced as readable keeps its contents, any other is thrown away with its credit; no allocation is lost; writing and reading are over |
| Channel.Channel.PeerGone | channel.go:887-895 | what was received stays readable, reading is announced as finished and writing is over; no allocation is lost |
| Channel.Channel.CleanupReliability | channel.go:908-938 | list and reorder map are gone and exactly the stashed allocations were handed back |
| Channel.Resume | session.go:983-1016 | on the objects themselves: after one resend of the list and one acknowledgement the receiver has the whole stream and the sender nothing left |
| Transfer.ReadIsPrefixOfWritten | channel.go:100-282 | from two new channel objects, whatever list of writes, deliveries, losses, repeats, acknowledgements, retransmissions, transport swaps, reads and closings follows: the bytes Read returned are a prefix of the bytes Write accepted, and those are all it was given if that fits the window |
| Transfer.EverythingArrives | session.go:983-1016 | the same without closing the receiving end: after any such list, one resume and one Read, the bytes Read returned are exactly the bytes Write accepted, and all it was given if that fits the window |
| Transfer.EveryBufferReturns | channel.go:871-938 | from two new channel objects, whatever list of operations follows: after the final teardown no allocation has been handed back that did not come in, none twice, and every one has been if nothing was left readable |
| Transfer.Pair.DoResume | session.go:983-1016 | after a resume on the objects the receiver is at the end of what was accepted, at FIN if it was sent, and read plus queued bytes are everything accepted; every allocation stays accounted for |
| Transfer.Pair.DoRead | channel.go:179-282 | what Read returns is appended to what was read before, and room for the rest of a complete stream gets the rest |
| Transfer.Pair.PrefixRead | channel.go:669-750 | bytes read and bytes queued together are the accepted bytes up to the receiver's position |
| RingQueue.QueueConserves | ringbuffer.go:136-373 | any mix of Push, Pop, PartialRead, Peek and Advance hands bytes out in order and every allocation back exactly once |
| RingRun.RunOps | ringbuffer.go:136-373 | any list of operations on a new ring object hands out what the queue hands out: the bytes are a prefix of the bytes pushed, the allocations a prefix of the allocations pushed |
| RingQueue.ConsumeContent | ringbuffer.go:240-299 | consuming bytes of the oldest buffer removes exactly those bytes from the front |
| Ring.RingBuffer.constructor | ringbuffer.go:119-125 | an empty open ring; chunks stay within 65536 slots for initial capacities up to that |
| Ring.RingBuffer.Shape | ringbuffer.go:72-101 | every chunk but the last is full and linked to the next, the free chunk and the pooled ones are apart from the list, capacities are powers of two within bounds |
| Ring.RingBuffer.NewChunk | ringbuffer.go:72-87 | a rewound chunk that is linked nowhere, at least as large as asked and less than twice that unless minimal; from the pool exactly when a minimal one is asked for and there is one |
| Ring.RingBuffer.RecycleChunk | ringbuffer.go:89-101 | a chunk of the minimal size is rewound, its slots cleared, and pooled; any other is left alone |
| Ring.RingBuffer.ObtainNext | ringbuffer.go:145-175 | the kept chunk when there is a backlog and one is kept; otherwise a new or pooled one, minimal without a backlog, of the same size below a full chunk of backlog and doubled up to the maximum beyond; rewound and apart from the list |
| Ring.RingBuffer.Push | ringbuffer.go:136-191 | the buffer joins the end of the queue, growing the list if need be; a closed ring refuses it |
| Ring.RingBuffer.AddChunk | ringbuffer.go:145-180 | behind a full chunk comes the kept one when there is a backlog, else one small without a backlog, of the same size below a chunk of backlog, doubled up to the maximum beyond |
| Ring.RingBuffer.Unlink | ringbuffer.go:203-221 | a drained first chunk leaves the list without changing the queue; it is kept for reuse exactly when small enough, and what was kept before goes back |
| Ring.RingBuffer.PeekSlot | ringbuffer.go:303-333 | finds the oldest buffer exactly when the queue is not empty |
| Ring.RingBuffer.Pop | ringbuffer.go:194-238 | the oldest buffer and its allocation, or nothing when empty |
| Ring.RingBuffer.PartialRead | ringbuffer.go:240-299 | up to the caller's room of the oldest buffer's bytes; the allocation comes back exactly when the buffer is used up |
| Ring.RingBuffer.Peek | ringbuffer.go:350-359 | the oldest bytes without consuming them; an empty buffer is removed and handed back |
| Ring.RingBuffer.Advance | ringbuffer.go:363-373 | consumes that many bytes of the oldest buffer and hands its allocation back when used up |
| Ring.RingBuffer.Length | ringbuffer.go:127-134 | the number of queued buffers; after closing, the number that was queued then |
| Ring.RingBuffer.Close | ringbuffer.go:104-117 | the ring is empty and refuses from then on; the free chunk and every chunk of the list go back, the minimal ones to the pool in order |
| Ring.RoundUp | ringbuffer.go:72-87 | the smallest power of two, at least 16, that fits |
| Ring.Pow2Gap | ringbuffer.go:72-87 | distinct powers of two differ by a factor of two, so rounding up never passes the bound |
| RingSteps.StepKeeps | ringbuffer.go:136-238 | every atomic step of producer or consumer keeps the ring's shape, contents and both sides' positions |
| RingSteps.PoppedIsPrefix | ringbuffer.go:194-238 | under every interleaving the popped sequence is a prefix of the pushed one |
| RingSteps.ProducerNeverTouchesReachable | ringbuffer.go:146-191 | no producer step resets, rewinds or recycles a chunk the consumer can still reach |
| RingSteps.ConsumerReadsPublished | ringbuffer.go:194-238 | whenever the consumer sees a slot below the tail it loaded, popping it yields exactly the next pushed buffer |
| RingSteps.EmptyIsExact | ringbuffer.go:194-238 | under every interleaving, a consumer that finds the ring empty is right at that very load: everything pushed has been popped |
| RingSteps.NeitherSideFaults | ringbuffer.go:136-238 | in every reachable state both sides can take their next step: no nil chunk and no index out of range |
| CreditPipe.StepConserves | flow.go:147-185 | no step of the credit return path creates or destroys credit |
| CreditPipe.CountAdds | flow.go:147-160 | counting bytes read adds exactly those bytes |
| CreditPipe.StepKeepsOneFrame | flow.go:162-185 | at most one window update of a scope exists, exactly while the pending flag is set |
| CreditPipe.StrandedExactlyWhenUnlucky | write_scheduler.go:157-166 | credit is left unannounced by exactly one kind of step, the failed test-and-set between the resolver's swap and its clearing of the flag |
| CreditStream.LedgerBalances | flow.go:50-185 | in every interleaving on an ordered lossless transport, credit to send, credit coming back and bytes not yet read add up to the window; no int32 counter overflows; at most one update is queued |
| CreditStream.BlockedWriterIsOwed | flow.go:50-107 | a writer without credit implies unread bytes or credit on its way |
| CreditStream.NothingStranded | write_scheduler.go:157-166 | runs without that one step never leave credit unannounced |
| CreditStream.StallIsReachable | write_scheduler.go:157-166 | for every window of at least two bytes there is a run after which the writer has no credit, everything was read, and no update is queued |
| CreditStream.OnlyUnluckyStalls | flow.go:147-185 | for every window, a run without that one step never ends stalled: out of credit with nobody left to bring any |
| CreditStream.StalledForGood | flow.go:147-185 | from such a state nothing more can happen |
| CreditSession.SessionLedger | flow.go:187-273 | for any number of channels with Reliability off, session credit to send, outstanding and coming back never exceeds the window, and equals it less what the three losing branches lost; every stream's ledger balances |
| CreditSession.LosesExactly | session.go:792-813 | an event loses credit exactly when it takes one of the three losing branches |
| CreditSession.NothingLostIff | channel.go:852-869 | over every run the whole session window stays accounted for exactly when no event took a losing branch |
| CreditSession.BlockedForGood | flow.go:90-105 | once the whole window is lost, no writer of any channel can take session credit in any continuation |
| CreditSession.RefusedFramesStallSession | session.go:792-813 | whenever the stream windows add up to the session window, refused datagram frames reach that state |
| CreditSession.BytesMove | session.go:534-545 | every event moves each byte's credit to exactly one place: reads, discards, released stashes, drained rings, refunds of concurrent writers |
| CreditSession.HappenBalanced | flow.go:90-105 | every event keeps the session ledger and all stream ledgers |
| WriterWakeups.NoWriterSleepsOnCredit | flow.go:50-145 | in every quiescent reachable state, channels opening and closing meanwhile, a blocked writer with stream and session credit, or whose channel is closed, has a token waiting |
| ReaderWakeups.NoReaderSleepsOnData | channel.go:198-281 | in every quiescent reachable state a blocked reader with a non-empty ring or a finished stream has a token waiting, and one on a closed channel can leave; aborted calls leave in between |
| Flow.Scope.constructor | flow.go:29-48 | a new scope is the interleaved model's initial state |
| Flow.Scope.TryDeduct | flow.go:109-119 | all or nothing |
| Flow.Scope.AddCredits | flow.go:132-135 | a positive amount is added, anything else ignored |
| Flow.Scope.OnRead | flow.go:147-185 | at the threshold all bytes counted become credit to announce, by one update at a time and none once the session is closed; one call is the uninterrupted run of the interleaved model's steps |
| Flow.Scope.Resolve | write_scheduler.go:157-166 | one resolution is the uninterrupted run of the model's steps and announces everything owed |
| Flow.StreamFlow.constructor | flow.go:29-48 | a window that is not positive takes the default |
| Flow.StreamFlow.AcquireCredits | flow.go:50-107 | takes the most both windows allow, from both; waits exactly when one is used up |
| Flow.StreamFlow.Refund | flow.go:121-130 | both windows get the amount back and the writer's token is set |
| Flow.StreamFlow.AddCredits | flow.go:132-145 | a positive amount is added and leaves the writer a wake-up |
| Flow.AddSessionCredits | session.go:1018-1024 | credit for the session leaves every channel's writer a wake-up |
| Flow.StreamFlow.OnRead | flow.go:147-160 | bytes read count once in both scopes, each with its own threshold |
| Flow.AcquireThenRefund | flow.go:121-130 | acquiring and refunding leaves both windows as they were |
| Flow.CarryUpdate | session.go:661-669 | carrying an update from reader to writer moves credit and makes none |
| Flow.UnblockWriter | flow.go:162-185 | one call at a time, a writer without credit whose bytes were all read is unblocked by the update already queued |
| AckCoalescing.NoAckIsLost | channel.go:472-489 | under every interleaving of senders and resolver, the last offset stored by a completed sendAck has been loaded by a resolved frame or will be by one still coming, and every acknowledgement on the wire is at most the receiver's |
| AckCoalescing.QuietMeansAcknowledged | write_scheduler.go:152-155 | when nothing is coming any more, the last acknowledgement on the wire is the stored offset |
| AckCoalescing.QuietMeansCurrent | channel.go:472-489 | if a goroutine chose its offset after the last arrival and stored last, the last acknowledgement on the wire, once all is quiet, is the receiver's current one |
| Compaction.Match | write_scheduler.go:178-196 | the first frame of the same kind and channel |
| Compaction.HandleSlot | write_scheduler.go:149-210 | one frame of the loop, in place: resolved, dropped, merged or moved to the front, its slot cleared |
| Compaction.CompactAndResolve | write_scheduler.go:146-213 | in place, the front of the array is the compacted resolved batch, vacated slots are cleared and the rest is untouched; per channel it acknowledges the highest offset its frames carry or their look-ups saw, per scope it grants all the credit found while below 2^31, no update is empty, and every other frame is as it was, in order |
| Compaction.CompactedFrom | write_scheduler.go:149-198 | the same of the specification, from the frames queued and what their look-ups saw |
| Compaction.CompactedKeeps | write_scheduler.go:175-198 | whatever the sums, every channel keeps its highest acknowledgement and all other frames their content and order |
| Compaction.CompactedProjects | write_scheduler.go:175-198 | every scope keeps the exact sum of its updates, every channel its highest acknowledgement, and all other frames their content and order |
| Compaction.CompactedOnePerChannel | write_scheduler.go:175-198 | at most one ACK and one UPD per channel remain |
| Compaction.CompactionPreservesMeaning | write_scheduler.go:146-213 | the peer's credits, retransmission lists and reassembly end the same as if the resolved batch had been sent frame by frame |
| Compaction.PeerReceives | session.go:645-693 | in the peer that meaning is measured by, a DATA or FIN frame is one delivery of the protocol and any other frame leaves reassembly alone |
| Compaction.MeaningPreservedIff | flow.go:132-138 | for resolved batches that holds for every peer exactly when no scope's updates add up to 2^31 |
| RefCounts.StepKeeps | write_scheduler.go:42-67 | write, retransmit, acknowledge, compact, failed enqueue, flush, cleanup and drain each keep counts equal to holders and every buffer with one owner |
| RefCounts.CountsAreHolders | write_scheduler.go:42-67 | under every interleaving a record's count is the number of lists and frames holding it; nothing is released below zero, returned twice, or written after its return |
| RefCounts.FramesReadWhatWasWritten | write_scheduler.go:222-258 | a frame in any queue or batch reads, from a buffer that is out, the bytes its sender put there |
| RefCounts.NothingLeaks | write_scheduler.go:424-435 | once no list and no frame is left, every record and every buffer has gone back |
| RefCounts.ReleaseFrameKeeps | write_scheduler.go:133-144 | releasing a frame taken out of its queue restores the balance, whether it holds a record or a buffer |
| RefCounts.TrackKeeps | channel.go:144-177 | a new record with count two is balanced by the list and the frame |
| RefCounts.RecordGone | write_scheduler.go:58-67 | the last release removes the record and leaves its buffer with nobody but the releaser |
| Framing.UintRoundTrip | write_scheduler.go:371-376 | big-endian fields decode to the number encoded |
| Framing.BigEndian | write_scheduler.go:371-376 | the most significant byte comes first |
| Framing.HeaderLayout | write_scheduler.go:371-376 | length in bytes 0 to 3, flag in 4, channel in 5 to 8, offset in 9 to 16 |
| Framing.HeaderRoundTrip | write_scheduler.go:371-376 | the 17-byte header decodes to the frame's own fields |
| Framing.FlushDatagrams | write_scheduler.go:378-422 | the datagrams concatenate to the encoded frames, each holds whole consecutive frames, each fits the limit unless it is one oversized frame, and none is sent while the next frame still fits |
| Framing.ReadStream | session.go:565-742 | the reading loop computes the stream parser |
| Framing.StreamRoundTrip | session.go:565-605 | the stream parser recovers the exact frame list and carries on after it |
| Framing.StreamThen | session.go:586-741 | after any frames sent, any further header: GOAWAY ends, a DATA frame too long, a reset with a length and an unknown flag break, a payload not all there waits, an empty DATA frame is skipped, everything else is one more frame |
| Framing.StreamShort | session.go:575-578 | fewer bytes than a header wait for more |
| Framing.WalkDatagram | session.go:744-899 | the datagram loop computes the walker |
| Framing.WalkRoundTrip | session.go:757-772 | without window updates the walker recovers the exact frame list |
| Framing.WalkThen | session.go:757-893 | the same for a datagram: a frame longer than what is left ends it, no length is too long, a reset may have one, and the length is stepped over behind every frame |
| Framing.DatagramRoundTripIff | session.go:757-772 | the walker recovers the frame list exactly when it holds no window update |
| Framing.PackedRoundTripIff | session.go:744-772 | walking all datagrams of a flush recovers the frame list exactly when it holds no window update |
| Framing.PackAndWalk | write_scheduler.go:378-422 | packing and walking as the two ends do it: the frames come back exactly without window updates |
| Framing.TrailingUpdateIsLost | session.go:757-772 | a window update at the end of a datagram is not seen at all |
| SessionTables.StashedRemove | session.go:1052-1061 | the stash's total does not depend on the order its queues are counted in |
| SessionTables.QueueGrown | session.go:1152-1159 | one more frame grows the total by its length and keeps every queue within its cap |
| SessionTables.AllSound | session.go:1130-1160 | after any list of offers and releases every queue is within the frame limit and there are at most the allowed channels, so the session holds at most channels times frames |
| SessionTables.SecondChannelExceeds | session.go:1144-1151 | with two channels allowed there is a list of offers that holds one frame more than the frame limit |
| SessionTables.FrameLimitIsPerSessionIff | session.go:1144-1151 | the frame limit bounds the session's frames in every list exactly when one channel may be stashed |
| SessionTables.Tables.FramesHeld | session.go:1130-1160 | whatever was opened, closed, stashed and pruned, the session holds at most channels times frames, and at most the frame limit when one channel may be stashed |
| SessionTables.Tables.constructor | session.go:266-279 | zero limits take defaults; a requested byte limit is kept unless it exceeds the frame limit's worth |
| SessionTables.Tables.ReleasePending | session.go:1052-1061 | one queue leaves the stash; the total shrinks by its bytes, credited without Reliability |
| SessionTables.Tables.Prune | session.go:1064-1075 | exactly the expired queues and markers go |
| SessionTables.Tables.Oldest | session.go:1098-1109 | the marker that expires first |
| SessionTables.Tables.MarkClosed | session.go:1079-1113 | with Reliability the id is remembered; at most 64 are; no other marker changes while there is room; a marker still in force is given up only when all 64 are, and then one that expires first; other queues go only when the memory is full and they have expired |
| SessionTables.Tables.RecentlyClosed | session.go:1116-1126 | true exactly while the marker is in force; an expired one is forgotten |
| SessionTables.Tables.Stash | session.go:1130-1160 | a frame is kept, behind the earlier ones, exactly when the id is not recently closed and channel, byte and frame limits allow it; other queues and markers go exactly when expired |
| SessionTables.Tables.OpenChannel | session.go:314-357 | refused exactly when the id is open; otherwise the id leaves stash and memory and unexpired frames are handed over in arrival order |
| SessionTables.Tables.RemoveChannelIf | session.go:454-461 | removes the id only while it names that channel, and then remembers it beside the other markers; other queues and markers change only as a full memory requires |
| SessionTables.Tables.ReceiveData | session.go:607-643 | a data frame goes to its channel, the stash or to waste, exactly when the code says; other queues and markers go exactly when expired; every byte that does not reach a channel stays on the books, wasted ones credited without Reliability |
| Labels.CodeOfSpell | session.go:1309-1327 | decoding then encoding an ID gives it back |
| Labels.SpellOfCode | session.go:1287-1307 | encoding then decoding a label gives its lower-case form |
| Labels.SameIdIffSameLetters | session.go:1287-1307 | two labels share an ID exactly when they differ only in case |
| Labels.SpellLength | session.go:1309-1327 | a spelling fits k characters exactly when the ID is at most the highest of k |
| Labels.HighestOfSix | session.go:1287-1327 | the highest six-character ID is 2238976116, below 2^32 |
| Labels.OneCharacter | session.go:1295-1304 | digits give 1 to 10 and letters of either case 11 to 36 |
| Labels.OneMoreCharacter | session.go:1287-1307 | a longer label is read in base 36, most significant character first |
| Labels.StringToUint32 | session.go:1287-1307 | accepts exactly 1 to 6 letters or digits and computes the code without overflow |
| Labels.Uint32ToString | session.go:1309-1327 | accepts exactly 1 to 2238976116, writes within its 6 bytes, and spells the ID |
| Allocator.MsbIsTopBit | allocator.go:99-107 | for every size up to 2^18 the de Bruijn lookup gives the true most significant bit |
| Allocator.SmearIsMask | allocator.go:100-105 | smearing gives the smallest all-ones mask covering the word |
| Allocator.PoolForIsBest | allocator.go:67-81 | the pool chosen has the smallest power-of-two capacity that fits, less than twice the size |
| Allocator.PooledIffTopBit | allocator.go:85-95 | a capacity is one of the pools' exactly when it equals the power its top bit names |
| Allocator.Allocator.Take | allocator.go:56-62 | a pool yields one of its slices, which leaves it, or a new one of its capacity |
| Allocator.Allocator.Get | allocator.go:67-81 | nil exactly outside 1 to 2^18; otherwise the tightest pooled capacity cut to the size, from its pool whenever that has one; no other slice changes |
| Allocator.Allocator.Put | allocator.go:85-95 | takes exactly the capacities the pools have, so everything Get made; pool k only ever holds capacity 2^k |

## Left out

- Sockets, deadlines, writev, listener, dialer, handshake, packet listener and their cryptography.
- Real time: timers are steps that may happen at any moment, and operations that read the clock take it as a parameter.
- Liveness over a network that loses for ever, and finalization of both ends at once: progress is stated for a resume that gets through.
- Reuse of a label while frames of its earlier channel are in flight: the protocol models are about one incarnation.
- Offsets are natural numbers: wrap-around of uint64 is not modelled.
- ReadFrom, WriteTo and sendFromRead: they move the same bytes through the operations modelled here.
- Whole-session shutdown of the tables, keep-alive, RST handling and the unknown-channel error limit.
- sync.Pool internals: a pool yields any object put into it, or a new one; a record or buffer taken is any that is not in use.
- Channel.Channel.Read: one pass without a concurrent producer, with what others close before or after its test over an empty ring as parameters; the interleaved Read is in ArqSink and ReaderWakeups.
- ArqSink.StepKeeps: a Read that waits is one that starts over.
- ArqLink.ReorderLimitUnreachable: speaks of the arrival switch as one delivery; the feed it starts may be interrupted.
- ArqResume.AnyOrderCompletes: needs the reorder map to be there still, so not after finalization.
- Transfer.EverythingArrives: one channel without a session window, and a resume that gets through without interruption.
- Flow.StreamFlow.Refund: waking the other channels after the session's refund is Flow.AddSessionCredits, and interleaved in WriterWakeups.
- Flow.StreamFlow.AcquireCredits: the refund after a lost race for stream credit cannot occur one call at a time; it is a step of CreditSession and WriterWakeups.
- WriterWakeups.NoWriterSleepsOnCredit: the end of the whole session, which wakes every writer by its own signal, is not a step.
- ReaderWakeups.NoReaderSleepsOnData: a look into the ring is one step; that its verdict is exact at its last load is RingSteps.EmptyIsExact.
- Channel.Channel.Close: FIN goes out at once, not from a goroutine that waits for a Write in progress, and the timer that forces a close is left out.
- Channel.Channel.Finalize: that the list is empty afterwards is stated of the first call; a second one, here and from LocalClose or PeerGone, does nothing.
- Channel.Channel.DrainRing: always gets the read lock; the attempt that finds a Read in progress and leaves the ring to it is SkipDrain in ArqSink.
- Transfer.EveryBufferReturns: for the allocations of received frames; those of frames being sent are in RefCounts.
- Channel.Channel.FeedReliable: one call at the granularity of its lock, like the other methods of the class, and never with an empty payload, which the transport readers drop (session.go:588-590, 776-779).
- Channel.Channel.Write: returns where the program would wait for credit; waiting is in WriterWakeups.
- Flow.Scope.TryDeduct: the compare-and-swap retry is left to the interleaved models.
- Flow.Scope.OnRead: counters are integers; that they stay within int32 is CreditStream.LedgerBalances.
- CreditSession.SessionLedger: only with Reliability off, because a late duplicate can be credited once a channel's reorder map is gone.
- Compaction.CompactionPreservesMeaning: the batch's look-ups are given as values; their races with readers are in CreditPipe and AckCoalescing.
- RefCounts.StepKeeps: is on values, not on heap objects; a record's creation and its joining the unacked list are one step.
