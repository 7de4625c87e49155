# A verified model of a low-latency logger

The logger puts binary records into lock-free rings on the calling thread. A back-end thread takes
them out, gives them a time, renders them as lines and writes the lines in batches. This project
models those parts in Dafny and proves what they guarantee.

`dafny verify dfyconfig.toml` checks everything.

## How it is modelled

**Block queue** (`VarQueue`, `VarQueueProofs`, `VarQueueTheorems`, `VarQueueWords`, `VarQueueRuns`,
`VarQueueOverrun`, `VarQueueLimit`, `VarQueueObject`). One producer and one consumer share a flat byte
ring of 64-byte blocks. `VarQueue.Step` makes every load or store of shared memory one step (the payload
copy is one step per byte), with wrapping 32-bit indices, the stale cache and the signed guard as in the
source; a schedule picks who moves, so `VarQueue.Run` is one sequentially consistent interleaving. The
machine runs with 32-bit indices or with counters that never wrap; `VarQueueWords` shows that both take
the same steps, so what is proved with counters holds for the source's words across any number of
wraps. The abstract queue is computed from raw memory: `Parse` reads the blocks from the first one the
consumer may still read up to the published index back into messages. The class `SpscVarQueueOpt` is
the source's code over an array, each method shown to take the machine's steps.

**Cached-index queue** (`CachedRing`, `CachedRingObject`). The same treatment for the fixed-slot queue,
with 64-bit indices that wrap and ghost counters that do not. `pop` returns a constant without reading
the slot, so the results are about which slots and values are live, not about the value returned.

**Clock** (`Seqlock`, `ClockMath`, `ClockObject`). The parameters behind their sequence counter, one
writer and any number of readers, step by step; then the arithmetic of calibration over the reals with
the final truncation kept. The first store of `save_param` (`src/tscns.rs:179`) puts the base error into
BASE_NS, while its comment and an otherwise unused variable point to BASE_NS_ERR. `asWritten` selects
the code as it stands or the redirected store, and the results separate the two.

**Calendar and text** (`Calendar`, `TimeText`). Month and day from a day count, for every integer, against
day-by-day stepping by the Gregorian rule (section 5.7 and Appendix C of RFC 3339); the digit tables,
the per-second cache, and the stamp they print.

**Arguments, scratch, sink** (`ArgsCodec`, `Scratch`, `Sink`). The tagged two-argument record with the
compiler's padding, the unchecked scratch buffer, and the batch.

**The whole path** (`Logger`). Publish, consume and idle operations in any order. A run yields the list of
states between its operations; each operation is shown to do exactly what it should, and what was
written, the batch and the rendering of the messages in the ring always make up the accepted records.

Five places where a promise holds only under a condition are stated with the exact condition:

- The space guard compares indices as signed values. It is right exactly when both values lie in one
  signed window (`GuardExact`, `TruthfulExactly`). FIFO holds on every run in which no call is made where
  the guard is fooled, that is, lets a reservation reach a block the consumer may still read
  (`FifoFromEmpty`). This is exact call by call: on every power-of-two ring, after any such run, at any
  index, for any message length and wherever the consumer is, a fooled call of that length breaks the
  queue for some message and some continuation, by popping something that was not committed there or by
  storing outside the ring (`FifoExactly`). Calls whose least admissible read index is below 2^31 never
  fool the guard (`FifoBelowEdge`), and on every ring size a run below that bound leads to a call at
  exactly 2^31 that does (`FifoFailsAtEdge`). On every ring of two or more blocks another such run leaves
  the ring drained at 2^31, and from there every message of fewer blocks than the ring is turned down for
  good (`RingStopsForGood`); on a ring drained at 2^31 - 1 every message larger than the ring is accepted
  (`OversizeBreaks`).
- A result of `tsc2ns` is computed from one single save exactly when its load of BASE_NS does not fall
  between the first store of a save and its lock, or that store is redirected, or the error stored early
  happens to equal the base it replaces (`TripleFromOneSave`).
- A calibration leaves an error of -drift * prediction exactly when the base error it finds stored is
  the true one (`ContractionIff`); for the integer code, truncations included, what is left differs from
  that by exactly the error of its prediction (`CodeResidual`), less than one nanosecond plus interval over
  elapsed time (`CodeContracts`). Nothing writes BASE_NS_ERR, so for the code as it stands a true stored
  error means a base error of zero, which is what `init` leaves; at the second calibration it is true if
  and only if the first found no error at all (`SecondElapsedIff`, `SecondCalibrationMisses`).
- Converted time never goes back along the piecewise clock (`ClockMonotone`). A record stamped before a
  calibration and converted after it goes back behind an earlier one exactly when the new clock makes its
  way to the sample longer than the old clock made the other's (`LateExactly`); never if the predicted
  error is not negative (`LateSafe`).
- Two arguments decode back, whatever the padding and whatever follows the record, exactly when both
  sizes are below 256 and the first is a multiple of eight (`RoundTripsExactly`).

`front` returns the size including the header and the back end uses it as the payload length
(`src/run_log2.rs:77`), so the formatter sees 24 bytes beyond the message. `Logger.ConsumeOne` hands over
24 arbitrary bytes there, and `FormatterSliceInReservation` says when they stay inside the message's
own blocks.

## Model

| member | source | states |
|---|---|---|
| `VarQueueTheorems.StepRefines` | src/spsc_var_queue_opt.rs:93-199 | every atomic step of either side keeps the invariant and is one step of a FIFO of messages: a commit appends exactly the message of the call, a pop removes the head, a look reads the head, an empty answer means an empty queue, and the empty exit after a rewind never happens |
| `VarQueueTheorems.RunRefines` | src/spsc_var_queue_opt.rs:93-199 | over every schedule, queued before ++ committed equals popped ++ queued after |
| `VarQueueWords.FifoFromEmpty` | src/spsc_var_queue_opt.rs:93-199 | from the empty ring, in every interleaving of the 32-bit machine and across index wraps, the messages popped are a prefix of those committed, all header fields and bytes included, no store leaves the ring and `front` never takes its empty exit after a rewind; the condition is that no call is made where the guard is fooled |
| `VarQueueOverrun.FifoExactly` | src/spsc_var_queue_opt.rs:93-199 | that condition is exact call by call: after any run that keeps to it, on any power-of-two ring and at any index, the next call is safe for every message of its length and every continuation if and only if the guard on the cached index is truthful about it |
| `VarQueueOverrun.CallSafeExactly` | src/spsc_var_queue_opt.rs:109-142 | the same from every state the invariant allows, with what is queued there |
| `VarQueueOverrun.RetrySafeExactly` | src/spsc_var_queue_opt.rs:111-116 | and for the second try of the guard, on the index just loaded |
| `VarQueueOverrun.PassedRuins` | src/spsc_var_queue_opt.rs:118-142 | past the guard without room, for every length and every position of the consumer, some message and some continuation break the queue |
| `VarQueueOverrun.StrikeAhead` | src/spsc_var_queue_opt.rs:118-142 | a reservation over an unread message makes the consumer, once it has come there, pop another message |
| `VarQueueOverrun.StrikePadByte` | src/spsc_var_queue_opt.rs:118-182 | a reservation over the marker of a pad at the head makes the consumer take the pad for a message |
| `VarQueueOverrun.StrikeEmpty` | src/spsc_var_queue_opt.rs:118-182 | on an empty ring a message that runs over its own marker is lost to the consumer |
| `VarQueueOverrun.StrikeOutside` | src/run_log2.rs:21-29 | a message of more blocks than the ring is stored past its end |
| `VarQueueWords.FifoBelowEdge` | src/spsc_var_queue_opt.rs:93-199 | FIFO for every run whose calls have their least admissible read index below 2^31 |
| `VarQueueLimit.FifoFailsAtEdge` | src/spsc_var_queue_opt.rs:106-142 | the bound is sharp on every power-of-two ring: a run below it, then one call at exactly 2^31, is not FIFO |
| `VarQueueLimit.FullRingFools` | src/spsc_var_queue_opt.rs:106-116 | with the ring full behind a consumer at 2^31 - 1 the guard is fooled |
| `VarQueueLimit.ReachStuck` | src/spsc_var_queue_opt.rs:93-199 | on every ring of two or more blocks a run below the edge leads to the ring drained at 2^31 with the producer knowing it |
| `VarQueueLimit.StraddlingExactly` | src/spsc_var_queue_opt.rs:96-116 | there exactly the messages needing less than the whole ring are turned down; on a power-of-two ring those of fewer blocks than the ring |
| `VarQueueLimit.RingStopsForGood` | src/spsc_var_queue_opt.rs:93-199 | on every power-of-two ring of two or more blocks, after some run below the edge the 32-bit machine commits and pops nothing more and changes no index or byte, over every schedule whose calls are of fewer blocks than the ring |
| `VarQueueLimit.OversizeAccepted` | src/spsc_var_queue_opt.rs:96-116 | on a ring drained at 2^31 - 1 every message of more blocks than the ring is accepted |
| `VarQueueLimit.OversizeBreaks` | src/spsc_var_queue_opt.rs:96-142 | so after some run below the edge a call of any such length is accepted whatever it carries, and for some message and continuation the run is not FIFO or stores outside the ring |
| `VarQueueRuns.Approach` | src/spsc_var_queue_opt.rs:160-199 | left alone, the consumer pops what is before a segment start and comes to hold the message there |
| `VarQueueRuns.RingStartHit` | src/spsc_var_queue_opt.rs:96-142 | no segment crosses the ring end: every ring start in the published part starts a message |
| `VarQueueWords.TrustedWordsExact` | src/spsc_var_queue_opt.rs:106-116 | whether a call can fool the guard is decided by a test on the stored words: exactly, but for a consumer between recognising a pad and moving past it, where the test errs on the safe side |
| `VarQueueTheorems.Isolation` | src/spsc_var_queue_opt.rs:118-154 | no step of the producer changes a byte of a block the consumer may still read, with the cached read index stale |
| `VarQueueTheorems.IsolationInLap` | src/spsc_var_queue_opt.rs:118-154 | in states within one lap of the stored read index, no byte of a block in [read, written) |
| `VarQueueTheorems.LapBelowEdge` | src/spsc_var_queue_opt.rs:96-142 | every run below the edge stays within one lap of the stored read index |
| `VarQueueTheorems.StateFacts` | src/spsc_var_queue_opt.rs:160-199 | in every reachable state cache <= read <= first unread <= written <= writing <= first unread + ring size, `front` has rewound at most once and then stands on a message, and `pop` frees exactly the blocks reserved for the head |
| `VarQueueLimit.ReachFull` | src/spsc_var_queue_opt.rs:93-199 | a run below the edge reaches a full ring whose consumer holds the message at index 2^31 - 1 |
| `VarQueueWords.StepNarrow` | src/spsc_var_queue_opt.rs:93-199 | a step of the machine with 32-bit indices is the step of the machine with unwrapped counters, wrapped, with the same events |
| `VarQueueWords.RunNarrow` | src/spsc_var_queue_opt.rs:93-199 | and so is a whole run |
| `VarQueueWords.WrapKeepsSlot` | src/spsc_var_queue_opt.rs:68-69 | wrapping an index at 2^32 keeps its slot in a power-of-two ring |
| `VarQueueTheorems.HeldMessageStable` | src/spsc_var_queue_opt.rs:160-184 | from `front` to `pop`, whatever the producer does, every read of the held message gives the head of the queue and all published blocks keep their bytes |
| `VarQueueTheorems.RejectedExactly` | src/spsc_var_queue_opt.rs:109-116 | at its load of the read index a call is turned down exactly when it has no room and the guard compares within one window, or has room and the guard does not; then only the cache has changed |
| `VarQueueTheorems.AcceptsExactly` | src/spsc_var_queue_opt.rs:96-116 | a call is accepted if and only if the cached index or a fresh one stands in its signed window no lower than the least admissible index in its own; no condition on the indices |
| `VarQueueTheorems.AdmitsMeans` | src/spsc_var_queue_opt.rs:96-116 | where the guard is not fooled an accepted call has room, and within one window a call with room is accepted |
| `VarQueueTheorems.AcceptanceBySize` | src/spsc_var_queue_opt.rs:96-116 | more blocks than the ring are accepted exactly from another window or by a stale index, never within one window; on a drained ring within one window acceptance is exactly message plus pad fitting the ring, and half a ring always fits |
| `VarQueueTheorems.DrainedRingAccepts` | src/spsc_var_queue_opt.rs:106-116 | a drained ring accepts a message that fits if and only if the ring does not straddle a window edge or the stale index passes |
| `VarQueueTheorems.DrainedRingRejects` | src/spsc_var_queue_opt.rs:106-116 | a drained ring whose producer knows it turns a message that fits down if and only if the ring straddles a window edge |
| `VarQueueTheorems.DrainedRingStuck` | src/spsc_var_queue_opt.rs:106-116 | and goes on doing so: over every schedule of such calls nothing is committed or popped and no index or byte changes |
| `VarQueueTheorems.TruthfulExactly` | src/spsc_var_queue_opt.rs:106-116 | an index behind the consumer fools the guard if and only if the call has no room and the index and the least admissible one lie in different windows |
| `VarQueueTheorems.BelowEdgeOk` | src/spsc_var_queue_opt.rs:106-116 | calls whose least admissible read index is below 2^31 never fool the guard, in any interleaving |
| `VarQueueTheorems.FormatterSliceInReservation` | src/run_log2.rs:74-78 | the slice given to the formatter stays inside the message's blocks if and only if the last block has a header's worth of slack |
| `VarQueueTheorems.TraceSplit` | src/spsc_var_queue_opt.rs:93-199 | the committed and popped messages of a trace split where the trace splits |
| `VarQueueProofs.InitInv` | src/spsc_var_queue_opt.rs:49-66 | a new ring satisfies the invariant and is empty |
| `VarQueueProofs.NeededExact` | src/spsc_var_queue_opt.rs:96-104 | for sizes that fit 32 bits, the block count and the blocks needed are computed without wrapping |
| `VarQueueProofs.GuardExact` | src/spsc_var_queue_opt.rs:102-116 | for indices less than 2^32 apart the wrapped signed guard decides read + ring size < writing + needed if and only if both compared values lie in one signed window |
| `VarQueueProofs.GuardIsPasses` | src/spsc_var_queue_opt.rs:107-113 | at any distance of the indices, the guard compares their places in their signed windows |
| `VarQueueProofs.GuardIsSignedLess` | src/spsc_var_queue_opt.rs:107-113 | the guard is the signed comparison of the true values, wrapped |
| `VarQueueProofs.ChainFrame` | src/spsc_var_queue_opt.rs:165-182 | the segments and messages of a span depend only on its own blocks |
| `VarQueueProofs.ChainConcat` | src/spsc_var_queue_opt.rs:165-182 | adjacent chains of segments join, and so do their messages |
| `VarQueueProofs.ChainHead` | src/spsc_var_queue_opt.rs:166-182 | a chain starts with its first message, or with a pad that ends at the ring start and is followed by a message |
| `VarQueueProofs.FilledParses` | src/run_log2.rs:21-29 | a reservation filled field by field and byte by byte reads back as the message written |
| `VarQueueProofs.ProducerAdvances` | src/spsc_var_queue_opt.rs:93-154 | every step of `try_alloc`, of the header and payload writes and of `commit` keeps the invariant and only the last one changes the queue |
| `VarQueueProofs.ConsumerAdvances` | src/spsc_var_queue_opt.rs:160-199 | every step of `front` and `pop` keeps the invariant and only the final store of `pop` changes the queue |
| `VarQueueObject.SettleAdvances` | src/spsc_var_queue_opt.rs:93-143 | `try_alloc` run alone publishes nothing, and what it allocates lies inside the ring and holds header and payload |
| `VarQueueObject.HeldFields` | src/run_log2.rs:74-78 | the fields of a held message are in-bounds reads of memory |
| `VarQueueObject.SpscVarQueueOpt.constructor` | src/spsc_var_queue_opt.rs:49-66 | a power-of-two ring starts valid and empty |
| `VarQueueObject.SpscVarQueueOpt.Offset` | src/spsc_var_queue_opt.rs:68-69 | the mask gives the position's offset in its lap |
| `VarQueueObject.SpscVarQueueOpt.Measure` | src/spsc_var_queue_opt.rs:94-107 | the sizes and the least read index computed from the stored words are those of the unwrapped position |
| `VarQueueObject.SpscVarQueueOpt.Place` | src/spsc_var_queue_opt.rs:118-142 | marking, skipping and reserving take the machine's steps |
| `VarQueueObject.SpscVarQueueOpt.TryAlloc` | src/spsc_var_queue_opt.rs:93-143 | succeeds if and only if the machine accepts the call, fooled or not, and reaches the machine's state; otherwise changes nothing but the cache; where the guard is not fooled the allocation lies inside the ring and the queue is unchanged |
| `VarQueueObject.SpscVarQueueOpt.Commit` | src/spsc_var_queue_opt.rs:147-154 | publishes the filled reservation: the message becomes last in the queue |
| `VarQueueObject.SpscVarQueueOpt.CopyPayload` | src/run_log2.rs:28-28 | copies every argument byte and leaves the queue alone |
| `VarQueueObject.SpscVarQueueOpt.WriteHeader` | src/run_log2.rs:24-26 | the three header stores take the machine's steps and leave the queue alone |
| `VarQueueObject.SpscVarQueueOpt.PublishArgs` | src/run_log2.rs:15-35 | returns true only when there is room, always then within one window, and then the queue has gained exactly this message at its end |
| `VarQueueObject.SpscVarQueueOpt.Front` | src/spsc_var_queue_opt.rs:160-184 | no message exactly when the queue is empty; otherwise the bytes at the returned place are the head and the size is its total |
| `VarQueueObject.SpscVarQueueOpt.Pop` | src/spsc_var_queue_opt.rs:187-199 | removes exactly the head |
| `Bits.SignedCompareExact` | src/spsc_var_queue_opt.rs:106-116 | wrapped values less than 2^32 apart compare right as signed numbers if and only if they share a window, and wrongly otherwise |
| `Bits.MaskIsMod` | src/spsc_var_queue_opt.rs:68-69 | `x & (n - 1)` is x mod n for every n the constructor accepts |
| `Bits.IsPow2Log` | src/spsc_var_queue_opt.rs:26-27 | a number that passes the bit test is a power of two |
| `Bits.Pow2Passes` | src/spsc_var_queue_opt.rs:26-27 | every power of two passes the bit test |
| `Bits.TruncDivDrops` | src/tscns.rs:110-117 | signed division rounds toward zero |
| `Bits.LowByteFirst32` | src/args2.rs:84-88 | words are stored low byte first |
| `CachedRing.StepRefines` | src/spsc.rs:154-263 | every step keeps cached_head <= head <= cached_tail <= tail <= cached_head + capacity over unwrapped counters and is one step of a bounded queue |
| `CachedRing.FailsExactly` | src/spsc.rs:157-253 | a push is refused exactly when the queue is full as head is loaded, a pop exactly when it is empty as tail is loaded |
| `CachedRing.WriteOutside` | src/spsc.rs:166-193 | a push writes no slot of [head, tail) |
| `CachedRing.RunRefines` | src/spsc.rs:154-263 | after any run, across any number of wraps, the live values are the earlier ones followed by those pushed, less one per pop, and slots are used in ring order |
| `CachedRing.RunFromEmpty` | src/spsc.rs:71-103 | from an empty ring the live values are exactly the pushed ones no pop has passed, never more than the capacity |
| `CachedRingObject.NextPow2Least` | src/spsc.rs:64-74 | the capacity is rounded up to the least power of two |
| `CachedRingObject.RingBuffer.constructor` | src/spsc.rs:71-103 | the ring starts empty with the rounded capacity |
| `CachedRingObject.RingBuffer.PushWrite` | src/spsc.rs:154-178 | fails exactly when full; otherwise the slot changed in place is last in the queue |
| `CachedRingObject.RingBuffer.Push` | src/spsc.rs:181-201 | fails exactly when full; otherwise the value is last in the queue |
| `CachedRingObject.RingBuffer.Pop` | src/spsc.rs:243-263 | None exactly when empty; otherwise the constant the source returns, and the first value leaves the queue |
| `CachedRingObject.RingBuffer.Drop` | src/spsc.rs:116-132 | the drop loop ends and visits exactly the live slots, each once, oldest first, also when the counter wraps between head and tail |
| `Seqlock.StepKeeps` | src/tscns.rs:144-198 | every step of the writer or of any reader keeps the seqlock invariant, and each result returned comes from the save its counter value stands for |
| `Seqlock.ReadersSeeOneSave` | src/tscns.rs:144-198 | in every interleaving of one writer and any number of readers a returned result used base tsc and rate of the save its counter value stands for, and as base ns the next save's error if it was loaded between that save's first store and its lock in the code as written, that save's own base ns otherwise |
| `Seqlock.TripleFromOneSave` | src/tscns.rs:144-198 | so the whole triple is from that save if and only if the store is redirected, or the load was not in that gap, or the error happens to equal the base it replaces |
| `Seqlock.EarlyStoreWitness` | src/tscns.rs:177-189 | a reader between that early store and the lock returns with the error as its base; with the store redirected it returns the completed save |
| `Seqlock.SoloRead` | src/tscns.rs:144-164 | a reader left alone returns in one pass with the current parameters |
| `Seqlock.TruncateDrops` | src/tscns.rs:150-157 | the cast of a float drops the fraction toward zero |
| `ClockMath.ConvertMonotone` | src/tscns.rs:150-157 | with a positive rate, truncated conversion never decreases |
| `ClockMath.Continuous` | src/tscns.rs:103-123 | new parameters read the same as the old at the new base |
| `ClockMath.RatePositiveIff` | src/tscns.rs:111-122 | the rate stays positive if and only if the predicted error is below the interval |
| `ClockMath.DueIs` | src/tscns.rs:181-186 | the stored next calibration tsc is the last counter value at which the clock has gone no further from its base than the interval less 1000 ns |
| `ClockMath.DueReads` | src/tscns.rs:181-186 | read by the clock itself, that is at most the interval less 1000 after the base and less than a tick and a nanosecond short of it |
| `ClockMath.RateStaysPositive` | src/tscns.rs:98-125 | after any sequence of such calibrations the rate is positive |
| `ClockMath.ClockMonotone` | src/tscns.rs:98-164 | over any sequence of such calibrations converted time never goes back |
| `ClockMath.LateExactly` | src/tscns.rs:98-164 | a record stamped no later than a calibration's sample and converted after it goes back behind one converted before exactly when the new clock's way to the sample is longer than the old clock's |
| `ClockMath.LateSafe` | src/tscns.rs:98-164 | it never does when the predicted error is not negative |
| `ClockMath.LateGoesBack` | src/tscns.rs:98-164 | with a clock a tenth too slow a late record goes back 90 nanoseconds behind one of the same counter value |
| `ClockMath.Residual` | src/tscns.rs:110-123 | the error one interval later is -drift * prediction plus the amplified error of the prediction |
| `ClockMath.PredictionExact` | src/tscns.rs:110-117 | the predicted error is the true extrapolation if and only if the stored base error is the true one |
| `ClockMath.ContractionIff` | src/tscns.rs:110-123 | a calibration leaves exactly -drift * prediction one interval later if and only if the stored base error is the true one |
| `ClockMath.CodeResidual` | src/tscns.rs:98-125 | for the integer code and every sample: the error one interval later is -drift * prediction plus exactly what the prediction is off |
| `ClockMath.CodeContracts` | src/tscns.rs:98-125 | with the stored base error the true one, that is within one nanosecond plus interval over elapsed time of -drift * prediction |
| `ClockMath.SecondElapsedIff` | src/tscns.rs:98-125 | with nothing ever stored as base error, the elapsed time of the second calibration is that of the system clock if and only if the first found no error |
| `ClockMath.SecondCalibrationMisses` | src/tscns.rs:98-125 | two samples for which the second calibration leaves more than 97 nanoseconds beyond -drift * prediction |
| `ClockObject.TscClock.SaveParam` | src/tscns.rs:177-198 | the stores of `save_param` are the machine's writer steps and end with the new parameters in force; BASE_NS holds base ns less system ns until the lock; the next calibration is due at the last counter value at which the clock has gone no further than the interval less 1000 ns |
| `ClockObject.TscClock.Tsc2Ns` | src/tscns.rs:144-164 | with no save in progress the result is the truncated conversion by the current parameters |
| `ClockObject.TscClock.Calibrate` | src/tscns.rs:98-125 | returns early exactly before the next calibration tsc, divides by zero exactly when no system time has elapsed since the base, and otherwise installs the calibrated parameters, storing the error found early and the next due counter value as `SaveParam` does |
| `ClockObject.TscClock.Initialise` | src/tscns.rs:55-72 | the first base carries no error, the rate is the slope between the two samples, and the first calibration is due by the new interval |
| `ClockObject.SyncTime` | src/tscns.rs:201-243 | the sample used is the first of those with the smallest counter gap, and the counter value is the midpoint of that gap |
| `Calendar.YearRecovered` | src/format.rs:102-105 | the year-of-era formula inverts the day-of-era formula on every day of the 400-year era |
| `Calendar.MonthSpan` | src/format.rs:106-108 | the month formulas agree with the lengths of the months from March on |
| `Calendar.CivilDateSteps` | src/format.rs:98-111 | the result for the next day is the calendar's next day, and every result is a valid date |
| `Calendar.CivilFromDaysCorrect` | src/format.rs:98-111 | for every day, before or after 1970, month and day are those reached by stepping day by day from 1970-01-01 |
| `Calendar.DaysRoundTrip` | src/format.rs:98-111 | the day count computed from the stepped date, year included, is the day it came from |
| `Calendar.Repeats` | src/format.rs:98-111 | month and day repeat every 146097 days |
| `TimeText.Dec2Is` | src/format.rs:124-129 | the table of digit pairs holds the two decimal digits of every number below 100 |
| `TimeText.Build4DigitTable` | src/format.rs:134-147 | every entry of the built table is a dot and the three digits of its index |
| `TimeText.LutMsus` | src/format.rs:85-95 | writes exactly the eight bytes of milliseconds and microseconds |
| `TimeText.StampRoundTrip` | src/console_sink.rs:82-96 | a stamp, read back with its year, is the record's time rounded down to the microsecond |
| `TimeText.StampShape` | src/format.rs:37-95 | the stamp has the shape MM-DD HH:MM:SS.mmm.uuu, digits and separators |
| `TimeText.TidReads` | src/format.rs:9-27 | the thread id is `T=` and two digits that read as it |
| `TimeText.TimeCache.constructor` | src/format.rs:37-47 | the cache starts marked empty with its separators in place |
| `TimeText.TimeCache.RefreshDt` | src/format.rs:49-73 | whatever is cached, the bytes written are the cache-free text of the second, and the cache stays right |
| `TimeText.TimeCache.Fill` | src/format.rs:55-68 | the five digit pairs go in and the separators are left alone |
| `TimeText.NewTidTable` | src/format.rs:9-20 | the table holds the text of every thread id below 32 |
| `TimeText.WriteTid` | src/format.rs:22-27 | writes exactly the four bytes of the thread id |
| `ArgsCodec.TagsApart` | src/args2.rs:114-116 | a user value's tag is at least 8, never a word tag |
| `ArgsCodec.StoredSize` | src/args2.rs:97-102 | a stored argument takes the least multiple of eight bytes that holds it |
| `ArgsCodec.RecordLayout` | src/args2.rs:139-150 | tags, six zero bytes, the first argument with its padding, and the second at the next multiple of eight |
| `ArgsCodec.DecodeFails` | src/args2.rs:84-196 | a decode reads or slices past the bytes exactly in these cases |
| `ArgsCodec.DecodeExact` | src/args2.rs:171-196 | an argument decodes back exactly when its size fits the tag, and the offset after it is right exactly when it also needs no padding |
| `ArgsCodec.Args2RoundTrip` | src/args2.rs:139-196 | both arguments come back whatever bytes trail the record |
| `ArgsCodec.RoundTripsExactly` | src/args2.rs:97-196 | a pair comes back for all padding and all trailing bytes if and only if both sizes are below 256 and the first is a multiple of eight |
| `ArgsCodec.PaddedFirstFails` | src/args2.rs:97-196 | padding after the first value that differs from the second's first byte is decoded in its place |
| `ArgsCodec.LargeFails` | src/args2.rs:114-196 | a value of 256 bytes or more never comes back |
| `ArgsCodec.SecondOffsetExact` | src/args2.rs:97-150 | the second decode starts on the second argument if and only if the first is small and unpadded |
| `Scratch.MyBytesMut.constructor` | src/my_bytes_mut.rs:8-15 | an empty buffer of the given capacity |
| `Scratch.MyBytesMut.Clear` | src/my_bytes_mut.rs:18-20 | nothing is filled afterwards |
| `Scratch.MyBytesMut.Push` | src/my_bytes_mut.rs:23-29 | appends the byte |
| `Scratch.MyBytesMut.ExtendFromSlice` | src/my_bytes_mut.rs:44-54 | appends the bytes exactly when at least one byte stays free, otherwise changes nothing |
| `Scratch.MyBytesMut.Advance` | src/my_bytes_mut.rs:57-59 | takes in the bytes copied to the unfilled part |
| `Sink.WriteTo` | src/log.rs:153-160 | writes the whole location exactly when it leaves a byte free |
| `Sink.WritePieces` | src/log.rs:177-177 | writes all formatted pieces in order exactly when they leave a byte free |
| `Sink.Shim` | src/log.rs:167-178 | writes location and formatted decoded arguments |
| `Sink.LineReads` | src/console_sink.rs:77-119 | a line reads back: stamp, thread id, the level's own name, module, file and line, and the formatting of the first and second argument in that order, to the end |
| `Sink.LevelShown` | src/format.rs:76-83 | each level is shown by its own name and colour |
| `Sink.FlatConcat` | src/log.rs:177-177 | formatted pieces appear one after the other |
| `Sink.AgedIs` | src/console_sink.rs:53-55 | the flush test is 262144 bytes or 1500000 counts since the last flush, also where the counter wraps |
| `Sink.ConsoleBatchSink.constructor` | src/console_sink.rs:28-50 | starts with nothing batched or written |
| `Sink.ConsoleBatchSink.FlushNow` | src/console_sink.rs:58-73 | moves the whole batch to the output |
| `Sink.ConsoleBatchSink.WriteStamp` | src/console_sink.rs:82-96 | the scratch holds the opening bracket and the exact stamp of the record's time |
| `Sink.ConsoleBatchSink.WritePrefix` | src/console_sink.rs:91-101 | every unchecked copy and push lands inside the scratch, which then holds the 29-byte prefix |
| `Sink.ConsoleBatchSink.OnRecord` | src/console_sink.rs:53-119 | the record's line is emitted whole exactly when it is at most 512 bytes and nothing otherwise; it joins the batch, which is written out exactly when it has 262144 bytes or 1500000 counts have passed since the last flush; the batch is never above 262144 by more than 511 |
| `Sink.ConsoleBatchSink.OnIdle` | src/console_sink.rs:53-130 | the batch is written out exactly when there is one and 1500000 counts have passed since the last flush; otherwise nothing changes |
| `Logger.Logger.constructor` | src/run_log2.rs:38-68 | starts with nothing accepted or written |
| `Logger.Logger.PublishRecord` | src/log.rs:163-186 | returns true exactly when the ring admits the call, and then the record joins the accepted ones and nothing else changes but the ring; conservation holds |
| `Logger.Logger.ConsumeOne` | src/run_log2.rs:72-82 | answers whether there was a record; renders the oldest whole at the time the clock gives its counter value, whatever bytes follow it in memory; dies exactly when its line exceeds 512 bytes, with the record still queued; conservation holds |
| `Logger.Logger.Render` | src/console_sink.rs:77-119 | the held message is decoded, timed and handed to the sink as the line of its record |
| `Logger.Logger.IdleOnce` | src/run_log2.rs:85-87 | writes out an overdue batch and nothing else; conservation holds |
| `Logger.Logger.Perform` | src/run_log2.rs:64-92 | does the next operation, or refuses it, unchanged, only if it is a publish that would fool the space guard; a dead back end takes no turn |
| `Logger.Logger.Run` | src/run_log2.rs:64-92 | any run of operations: it stops early only where a publish would fool the guard, conserves at every boundary, also while publishing goes on after the back end has died, and every operation answers and leaves behind exactly what it should; with one clock, written ++ batch ++ the rendering of the messages in the ring is the rendering of exactly the accepted records, which are those whose publish returned true |
| `Logger.Conservation` | src/run_log2.rs:72-89 | over the states of any such run and at every boundary of it: the same equation, and which records are accepted |
| `Logger.QueueTextIs` | src/run_log2.rs:72-89 | rendering the raw messages in the ring is rendering the records they came from |
| `Logger.LineOfEnds` | src/log.rs:167-178 | the line of a record ends with its statement's formatting of its own first and second argument |
| `Logger.TookConserves` | src/run_log2.rs:72-82 | taking a record, or dying on it, conserves |
| `Logger.RenderedConcat` | src/run_log2.rs:72-89 | rendering in order distributes over concatenation |

## Left out

- VarQueueWords.FifoFromEmpty: messages are those whose size fits 32 bits; calls that fool the guard are excluded because `FifoExactly` shows each of them unsafe.
- VarQueueWords.FifoBelowEdge: a call at or above the edge is covered by `FifoExactly` instead.
- VarQueueObject.SettleAdvances: calls that fool the guard are excluded, as in `FifoFromEmpty`.
- VarQueueObject.SpscVarQueueOpt.TryAlloc: a call of the object runs without interference; interleaving is covered by the machine whose steps it takes.
- VarQueueObject.SpscVarQueueOpt.PublishArgs: the counter value stored in the header is a parameter; a call that fools the guard is excluded, since it writes over unread blocks or outside the ring (`PassedRuins`).
- Logger.Logger.PublishRecord: calls that fool the guard and arguments that do not come back (`RoundTripsExactly`) are excluded.
- ClockObject.TscClock.Tsc2Ns: runs with no save in progress; retries are modelled in `Seqlock`, where nothing bounds their number.
- ClockMath.ClockMonotone: the piecewise clock converts each counter value by the latest calibration not after it; a record converted after one calibration it was stamped before is covered by `LateExactly`, after several is not.
- ClockMath.ContractionIff: over the reals, as `Residual` and `PredictionExact` are; the integer code has `CodeResidual` and `CodeContracts`.
- ArgsCodec.Args2RoundTrip: values with alignment above 8 are not modelled; `into_arg` exists only for unsigned words and user values, the other two word kinds are decoded only.
- Logger.Logger.Run: stops at the first call that would fool the space guard; the idle counter of the loop is replaced by idle operations at arbitrary points.
- Weak memory ordering, fences, volatile accesses and cache padding: steps are sequentially consistent.
- Floating-point rounding, saturation of float-to-integer casts and overflow of 64-bit products in calibration; a rate of zero in `NextCalibration` is given the base as its result.
- The sequence counter of the clock is unbounded, since its overflow is undefined in the source.
- Function pointers are opaque identifiers; formatting of arguments is an arbitrary function to a list of pieces.
- Output errors, stdout locking, threads, sleeping and core affinity.
- The Windows branch of `sync_time`, which assigns repeatedly to an immutable variable.
- `src/args.rs`, `src/run_log.rs`, `src/main.rs` and the other logging macros, which have no hard property or refer to code that is not there.
- `safe_extend_from_slice`, `rollback`, `advance2` and `slice` of the scratch buffer, which the back end does not use.
