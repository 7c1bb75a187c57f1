# SyscallMind: a verified model of the optimizer and its pipeline

SyscallMind sits between a program and its syscalls. It records every call in a lock-free ring buffer,
groups the records into windows, and answers calls from an LRU cache, a per-transaction memo table or a
bulk fetch, behind a safety gate. Its claim is that a program never notices. This project models those
components in Dafny and proves what the claim rests on; where the claim does not hold without conditions,
it proves the exact condition.

`dafny verify dfyconfig.toml` checks everything.

## Files

- `Common.dfy`, `Modular.dfy`, `Sequences.dfy`: shared types, index arithmetic, sequence lemmas.
- `RingMachine.dfy`, `RingSafety.dfy`, `RingProgress.dfy`: the ring buffer as a two-thread state machine
  over its atomic accesses, with stale acquire loads, what all its runs guarantee, and which runs there are.
  `RingBuffer.dfy`: the same code as an array-backed class used by one thread at a time.
- `WindowBuilder.dfy`, `Pipeline.dfy`, `PipelineProgress.dfy`: the window builder, and the ring buffer
  draining into it.
- `Lru.dfy`, `SysvarCache.dfy`: the LRU list and the cache class. `CacheRuns.dfy`, `CacheHits.dfy`,
  `CacheSizes.dfy`, `CacheSweeps.dfy`, `CacheLimits.dfy`: transparency, exact hits, sizes and sweeps over
  whole runs.
- `Classifier.dfy`, `DependencyChecker.dfy`, `Validator.dfy`: the safety gate. `Execution.dfy`,
  `Reordering.dfy`: what executing a sequence means, and which changes of its order go unnoticed.
- `Dedup.dfy`, `DedupRuns.dfy`: the memo table, and when it is unnoticeable.
- `Batcher.dfy`, `BatchServing.dfy`: grouping reads into bulk fetches.
- `Fnv.dfy`: the FNV-1a hash. `Baseline.dfy`, `BaselineMeaning.dfy`, `BaselineRuns.dfy`: the
  moving-average baselines, one window and many.

## Reading the model

- The ring machine is generic in the number of slots n (1024 in the code). A step is one atomic access. An
  acquire load may return any index its atomic has held since the loading thread's last observation.
  Slots are sequentially consistent cells; `RaceFree` states the happens-before facts that justify this.
- A moment of time is a number; a world gives each moment its epoch, its slot and the true result of
  every request, that is of every id with its argument bytes. A client of the cache looks a request up
  under its id and argument hash and, on a miss, makes the call and inserts its result. A gate says which
  ids it takes to the cache at all; `validate_cache` is one.
- A semantics gives each program a state of its own and says what each call, that is program, id and
  argument hash, returns and does to the states. A law has two parameters: which ids may read the state of
  their program, and which may reach other programs. A semantics is lawful when ReadOnly and Idempotent
  calls do not write, the results of those that do not read depend on nothing but id and argument hash,
  and calls that do not reach depend on and change the state of their own program only. Under the
  documented law (docs/safety_proofs.md:16-32) only ReadOnly calls may read and only OrderSensitive calls
  may reach: `DocumentedHoistingExact`, `DocumentedReorderExact`, `DocumentedDedupExact`. Theorems that end
  in "exactly when" quantify over all lawful semantics, and one that counts writes tells the difference.
- Counters of type u64 wrap (`Bump`, `Wrap`). The hash is computed on numbers below 2^64, with an exclusive
  or defined bit by bit (`XorBitwise`) and a wrapping multiplication.

## Where the code and its documentation differ

The model follows the code.

- docs/architecture.md:61 gives the clock sysvar the slot policy; the code gives it the epoch policy
  (optimizer/src/cache.rs:46). Ids without a policy count as epoch-bound in `get`, but no sweep removes them.
- safety/src/dependency_checker.rs:14 speaks of write-after-read; the code checks read-after-write only.
  That is exactly enough for moving eligible calls to the front when no call reaches other programs
  (`DependencyCheckExact`), and more than enough when Idempotent calls are pure functions.
- docs/safety_proofs.md:31-32 lets OrderSensitive calls have side effects in external programs, while
  safety/src/dependency_checker.rs:27 compares programs. The check misses exactly the calls that reach a
  later reader of another program (`DependencyCheckMisses`, `DocumentedHoistingExact`); dedup misses them
  too (`DocumentedDedupExact`).
- docs/safety_proofs.md:10 restricts reordering to read-only calls; `validate_reorder` does so, and is
  over-cautious in the way that `DocumentedReorderExact` states.
- docs/safety_proofs.md:57 argues that dedup is safe because reads cannot change within a transaction;
  `validate_dedup` checks no dependency and the key holds no program. `DedupExact` and
  `DocumentedDedupExact` give the condition, `ReadWriteReadIsUnstable` the failing family.
- `validate_cache` approves `get_return_data`, whose result can change within an epoch
  (`ApprovedReadGoesStale`). `GatedCacheExact` says when everything it approves may be cached.
- The batcher takes ids 7 to 9 for sysvar reads, the classifier does not know them (`BatchesApprovedIff`).
- docs/safety_proofs.md:48-49 calls a hash collision negligible; `TransparentIffStableAndCollisionFree` shows
  which collisions matter, `OneByteDifferenceNeverCollides` a family that cannot occur.
- optimizer/src/cache.rs:21-26 has the epoch and the slot only advance, yet both are shared atomics
  (lines 31-32) that their owner may set to anything. A sweep can cost a hit exactly when the clock
  returns to a tick it has left (`SweepsCostExact`), so never while both only advance (`ForwardNeverReturns`).

## Model

| member | source | states |
|---|---|---|
| RingMachine.FullTest | pipeline/src/ring_buffer.rs:43-47 | the wrapped full test succeeds exactly when the queue, with the pops the producer's load covered, has n - 1 events |
| RingMachine.EmptyTest | pipeline/src/ring_buffer.rs:58-61 | the wrapped empty test succeeds exactly when the consumer's load covered no push beyond the pops |
| RingMachine.WriteKeepsContents | pipeline/src/ring_buffer.rs:48-51 | writing the claimed slot disturbs no event in flight |
| RingMachine.InvNext | pipeline/src/ring_buffer.rs:42-66 | every atomic step of either thread, stale loads included, keeps the invariant tying wrapped indices, slots and observations to the history |
| RingSafety.InvRaceFree | pipeline/src/ring_buffer.rs:17-21 | the producer overwrites only occupants whose pop its acquire load covered, the consumer reads only written slots whose push its load covered, and they never hold the same slot |
| RingSafety.EveryRunIsSafe | pipeline/src/ring_buffer.rs:42-66 | in every interleaving: race freedom, at most n - 1 events in flight, popped is a prefix of accepted |
| RingSafety.EveryRunIsAccounted | pipeline/src/ring_buffer.rs:42-54 | each offered event is accepted, rejected or in hand, as multisets, and accepted events keep their order |
| RingSafety.StepRefinesFifo | pipeline/src/ring_buffer.rs:42-66 | each step is an operation of a FIFO queue of capacity n - 1 or invisible, taking effect at its store |
| RingSafety.EveryRunIsFifo | pipeline/src/ring_buffer.rs:42-66 | every run from the empty ring is a run of that queue, with the same answers |
| RingSafety.PushVerdict | pipeline/src/ring_buffer.rs:45-47 | push refuses exactly when the queue as loaded is full; with an up-to-date load, exactly when it is full; a stale load never lets it into a full queue |
| RingSafety.PopVerdict | pipeline/src/ring_buffer.rs:59-61 | pop returns None exactly when the queue as loaded is empty; staleness only makes it give up early |
| RingProgress.NeverStuck | pipeline/src/ring_buffer.rs:42-66 | in every reachable state each thread can take its next step, with every load value that its last observation allows |
| RingProgress.WaitFree | pipeline/src/ring_buffer.rs:42-66 | a push and a pop end after at most three steps past their first, whatever the other thread does |
| RingProgress.EffectIsOutcome | pipeline/src/ring_buffer.rs:42-66 | the queue operation that a step stands for is what the call returns, one per call |
| RingProgress.PushAlone | pipeline/src/ring_buffer.rs:42-54 | from every reachable state the producer alone can finish a push, which appends the event exactly when fewer than n - 1 are queued and is refused otherwise |
| RingProgress.PopAlone | pipeline/src/ring_buffer.rs:57-66 | likewise the consumer a pop, which takes the oldest event exactly when there is one |
| RingProgress.PushMayBeRefused | pipeline/src/ring_buffer.rs:45-47 | a push can be refused exactly when the queue was full as the producer last observed it |
| RingProgress.PopMayBeRefused | pipeline/src/ring_buffer.rs:59-61 | a pop can come back empty exactly when the queue was empty as the consumer last observed it |
| RingProgress.StalePushRefused | pipeline/src/ring_buffer.rs:45-47 | on every ring of two slots or more a run exists in which push refuses although the queue is not full |
| RingProgress.StalePopRefused | pipeline/src/ring_buffer.rs:59-61 | and one in which pop comes back empty although an event is queued |
| RingSafety.LenExactness | pipeline/src/ring_buffer.rs:68-72 | with two relaxed loads of any age and any steps between them, len is the queue length at the end if and only if both loads are out of date by the same number modulo n |
| RingBuffers.RingBuffer.constructor | pipeline/src/ring_buffer.rs:24-39 | a new buffer is empty |
| RingBuffers.RingBuffer.Push | pipeline/src/ring_buffer.rs:42-54 | appends the event, or returns false and changes nothing exactly when 1023 events are queued |
| RingBuffers.RingBuffer.Pop | pipeline/src/ring_buffer.rs:57-66 | removes and returns the oldest event, or None from the empty buffer |
| RingBuffers.RingBuffer.Len | pipeline/src/ring_buffer.rs:68-72 | the number of queued events |
| RingBuffers.RingBuffer.IsEmpty | pipeline/src/ring_buffer.rs:74-76 | true exactly when nothing is queued |
| RingBuffers.RingBuffer.Capacity | pipeline/src/ring_buffer.rs:78-80 | 1023, which bounds the number of queued events |
| WindowBuilders.WindowBuilder.Ingest | pipeline/src/window_builder.rs:41-46 | appends to the transaction's pending events unless they have reached the limit |
| WindowBuilders.WindowBuilder.Finalize | pipeline/src/window_builder.rs:48-63 | removes the transaction and returns its events in order with its id, their first slot and time and their last time; none if it has no events |
| WindowBuilders.WindowBuilder.DrainAll | pipeline/src/window_builder.rs:65-68 | empties the map and returns exactly one window per transaction with pending events, holding these in order |
| WindowBuilders.WindowSpansEvents | pipeline/src/window_builder.rs:53-55 | a window of events in time order spans exactly their times |
| WindowBuilders.DrainOrderIrrelevant | pipeline/src/window_builder.rs:65-68 | all draining orders return the same windows |
| WindowBuilders.BuildIsPerTransaction | pipeline/src/window_builder.rs:41-63 | over any stream: pending are the first max events since the transaction's last finalize, emitted the windows of its closed stretches, in order |
| WindowBuilders.EmittedWindowsExact | pipeline/src/window_builder.rs:41-63 | over any stream, a transaction's k-th window holds the first max events of its k-th non-empty closed stretch, in order, with their dates |
| WindowBuilders.OpenStretchExact | pipeline/src/window_builder.rs:41-46 | the open stretch is, position by position, what was ingested after the last finalize |
| WindowBuilders.ProjectionsDetermineWindows | pipeline/src/window_builder.rs:41-63 | streams with equal projections give equal windows per transaction |
| Pipeline.PipelineIsLossless | pipeline/src/window_builder.rs:41-63 | ring and builder in any interleaving: the builder has ingested a prefix of the accepted pushes, its windows are those of that prefix, every offered event is in exactly one place |
| Pipeline.DrainedPipeline | pipeline/src/ring_buffer.rs:57-66 | once the ring is drained, a transaction not yet finalized has pending its first max accepted events, whatever was finalized for others |
| PipelineProgress.EveryStreamHappens | pipeline/src/ring_buffer.rs:42-66 | every stream of ingests and finalizes is delivered by some run of ring and builder, with no event refused |
| SysvarCaches.SysvarCache.constructor | optimizer/src/cache.rs:39-64 | an empty cache with capacity at least 1 and the source's policy table |
| SysvarCaches.SysvarCache.Insert | optimizer/src/cache.rs:66-68 | the LRU insert, within capacity |
| SysvarCaches.SysvarCache.Get | optimizer/src/cache.rs:70-95 | answer, recency, removal and counters are those of Lookup at the current epoch and slot |
| SysvarCaches.SysvarCache.InvalidateSlot | optimizer/src/cache.rs:97-111 | collecting and popping removes exactly the entries of id 5 stamped with another slot |
| SysvarCaches.SysvarCache.InvalidateEpoch | optimizer/src/cache.rs:113-127 | collecting and popping removes exactly the entries of ids 1 to 4 stamped with another epoch |
| SysvarCaches.SourceSweeps | optimizer/src/cache.rs:46-54 | the epoch sweep removes exactly entries of ids 1 to 4 with another epoch, the slot sweep exactly those of id 5 with another slot |
| SysvarCaches.SourceFreshness | optimizer/src/cache.rs:70-95 | get takes ids 20 to 23 for always fresh, id 5 by its slot, every other id by its epoch |
| SysvarCaches.SysvarCache.Len | optimizer/src/cache.rs:147-149 | the number of entries, at most the capacity |
| SysvarCaches.LookupEffect | optimizer/src/cache.rs:70-95 | a lookup answers exactly when the key is present and fresh; a hit moves it to the front, a miss leaves it absent, the rest is untouched and one counter moves |
| SysvarCaches.PutEffect | optimizer/src/cache.rs:66-68 | an insert makes its key most recent with the new result and evicts only from the old end |
| SysvarCaches.SweepKeepsEntries | optimizer/src/cache.rs:97-127 | a sweep removes exactly the stale entries explicitly mapped to its policy and keeps the order |
| SysvarCaches.SweepsCommute | optimizer/src/cache.rs:97-127 | the two sweeps commute |
| SysvarCaches.SweepIdempotent | optimizer/src/cache.rs:97-127 | sweeping twice is sweeping once |
| CacheRuns.TransparentIffCoherent | optimizer/src/cache.rs:66-127 | behind any gate on ids, no run of accesses, prefills, sweeps and clock moves serves a wrong value exactly when admitted requests with one key have one result as far as their policy can tell; runs whose clock never goes back need no less |
| CacheRuns.TransparentIffStableAndCollisionFree | optimizer/src/cache.rs:66-127 | equivalently, for any clock and for forward ones: each admitted request's result is fixed per tick of its policy, and no two with different results share a key |
| CacheRuns.StaleRun | optimizer/src/cache.rs:82-91 | otherwise two accesses around one clock move serve the wrong value as a hit |
| CacheHits.HitIffPredicted | optimizer/src/cache.rs:70-95 | an access hits exactly when its key was visited before, fewer than capacity distinct others were since, and its policy saw no change since |
| CacheHits.HitsExactly | optimizer/src/cache.rs:66-95 | so it is at every access of every run of accesses, prefills and clock moves |
| CacheSizes.LargerCacheHitsMore | optimizer/src/cache.rs:38-127 | in every run, sweeps and any clock included, a larger cache hits wherever a smaller one does, whose keys are always its first ones |
| CacheSweeps.GetAfterSweep | optimizer/src/cache.rs:70-127 | a lookup right after a sweep answers and counts as without it |
| CacheSweeps.EveryRunCounted | optimizer/src/cache.rs:66-149 | in every run the cache stays within capacity and hits plus misses is the number of lookups |
| CacheSweeps.EvictsNothingHeld | optimizer/src/cache.rs:66-95 | what an access or insert evicts from the cache that was swept more, the one that was swept less does not hold either |
| CacheSweeps.SweepsNeverCostHits | optimizer/src/cache.rs:66-127 | sweeps added anywhere to any run, swept already or not, turn no hit into a miss, unless the clock returns to a tick it has left |
| CacheSweeps.ReturningClockCostsHit | optimizer/src/cache.rs:97-127 | wherever a clock path returns to a tick that a policy has seen left, one added sweep costs a hit on that path |
| CacheSweeps.SweepsCostExact | optimizer/src/cache.rs:66-127 | on a given clock path no run loses a hit by added sweeps exactly when no policy's tick is entered again after it was left |
| CacheLimits.GatedCacheExact | safety/src/validator.rs:44-59 | over every run of requests that validate_cache approves, and already over those whose clock never goes back, no wrong value is served exactly when results of the listed ids last as long as the policy table takes them to last and different ones have different keys |
| CacheLimits.ApprovedReadGoesStale | safety/src/validator.rs:44-59 | get_return_data is approved for caching; if it changes within an epoch, the second of two approved reads is answered with the first result as a hit, and a run with a forward clock fails so |
| CacheLimits.OneByteApartNeverShare | common/src/lib.rs:66-69 | requests of one id whose arguments differ in exactly one byte never share a cache entry |
| Classifier.SyscallClassifier.constructor | safety/src/classifier.rs:9-49 | the insert loops build exactly the classification by id ranges, StateChanging elsewhere |
| Classifier.ClassTable | safety/src/classifier.rs:51-61 | the class of every id there is, by number |
| Classifier.ClassOfNames | safety/src/classifier.rs:9-49 | the named ids of each class |
| DependencyChecker.CheckSequence | safety/src/dependency_checker.rs:17-46 | lists exactly the pairs i<j of one program with a non-eligible call at i and an eligible one at j, in strict lexicographic order |
| DependencyChecker.DependencyFreeIffLayered | safety/src/dependency_checker.rs:44-46 | no dependencies exactly when each program's projection is eligible calls followed by the others |
| DependencyChecker.SafeToReorderExact | safety/src/dependency_checker.rs:48-54 | exactly sequences of ReadOnly calls alone are safe to reorder |
| Validator.CacheApproval | safety/src/validator.rs:44-59 | with determinism enforced exactly the listed ids may be cached, without it all |
| Validator.DedupApproval | safety/src/validator.rs:89-99 | exactly the listed ids may be deduplicated, enforced or not |
| Validator.BatchApproval | safety/src/validator.rs:61-71 | a batch is approved exactly when all its ids are eligible |
| Validator.ReorderApproval | safety/src/validator.rs:73-87 | approval holds exactly when all events are ReadOnly, and for two or more exactly when every pair can be reordered |
| Execution.HoistingSound | safety/src/dependency_checker.rs:17-46 | if no call may disturb a later eligible call that may read, moving eligible calls to the front keeps every value and the final memory, in every lawful semantics |
| Execution.HoistingComplete | safety/src/dependency_checker.rs:17-46 | with such a dependency, a lawful semantics notices the move |
| Execution.HoistingExact | safety/src/dependency_checker.rs:17-46 | whichever ids may read and whichever may reach other programs, hoisting is unnoticeable to all lawful semantics exactly without such dependencies |
| Execution.DependencyCheckMisses | safety/src/dependency_checker.rs:17-46 | when calls may reach other programs, it misses exactly those that precede an eligible call of another program |
| Execution.DependencyCheckExact | safety/src/dependency_checker.rs:44-46 | the check is exact for hoisting when any call may read and none reaches other programs |
| Execution.DocumentedHoistingExact | safety/src/dependency_checker.rs:17-46 | under the documented law hoisting is safe exactly when no call that may write precedes a ReadOnly call of its program, and no OrderSensitive one a ReadOnly call of any |
| Reordering.ReorderApprovalIsSafe | safety/src/validator.rs:73-87 | every permutation of an approved sequence ends in the same memory with the same value per event |
| Reordering.ReorderSound | safety/src/validator.rs:73-87 | if no event interferes with a different one, every permutation is unnoticeable in every lawful semantics |
| Reordering.ReorderExact | safety/src/validator.rs:73-87 | whichever ids may read and reach, all permutations are unnoticeable to all lawful semantics exactly when no event interferes with a different one |
| Reordering.DocumentedReorderExact | safety/src/validator.rs:73-87 | what validate_reorder approves is always safe under the documented law, and exactly which further sequences it could approve |
| Dedup.DedupTable.CheckAndCount | optimizer/src/dedup.rs:39-51 | the entry of the key; the counter moves on a hit only |
| Dedup.DedupTable.ClearTransaction | optimizer/src/dedup.rs:54-56 | the retain loop drops every entry of that transaction and leaves all others unchanged |
| Dedup.LookupIsLatest | optimizer/src/dedup.rs:18-56 | over any interleaving, a lookup returns exactly the latest result stored since the transaction was last cleared |
| DedupRuns.DedupSound | optimizer/src/dedup.rs:28-56 | if every repeat of a call that may read comes from the same program with nothing in between that may write there, dedup gives the same values and memory as plain execution |
| DedupRuns.RepeatGetsSameValue | optimizer/src/dedup.rs:39-51 | a repeat within a transaction is always answered with the earlier value |
| DedupRuns.DedupExact | safety/src/validator.rs:89-99 | over streams of interleaved transactions, and whichever ids may read and reach, that condition is exact |
| DedupRuns.DocumentedDedupExact | safety/src/validator.rs:89-99 | under the documented law dedup is right exactly when every repeat of a ReadOnly call comes from the same program with no write of that program and no OrderSensitive call in between |
| DedupRuns.CountIsRepeats | optimizer/src/dedup.rs:39-51 | dedup_count is the number of repeated eligible calls, modulo 2^64 |
| DedupRuns.DependencyFreeDedup | safety/src/validator.rs:89-99 | a single-program sequence without dependencies can be deduplicated, with one count per skipped call |
| DedupRuns.ReadWriteReadIsUnstable | safety/src/validator.rs:89-99 | a ReadOnly call, a write of its program or an OrderSensitive call of any, and the ReadOnly call again: approved call by call, and some lawful semantics notices the dedup |
| Batcher.BatchSysvarReads | optimizer/src/batcher.rs:25-51 | the loops compute the specified grouping |
| Batcher.BatchesAreGrouping | optimizer/src/batcher.rs:24-51 | one non-empty group per requested batchable id, ids increasing, hashes distinct in first-occurrence order |
| Batcher.GroupsExist | optimizer/src/batcher.rs:18-37 | there is a group for exactly the ids from 1 to 9 that are requested |
| Batcher.GroupContents | optimizer/src/batcher.rs:25-51 | a group holds exactly the hashes requested of its id, in the order of their first requests |
| Batcher.GroupingUnique | optimizer/src/batcher.rs:24-51 | that description determines the result |
| BatchServing.FetchedHashes | optimizer/src/batcher.rs:24-51 | of each batchable id, the groups of the result fetch exactly the distinct requested hashes, of other ids nothing |
| BatchServing.FetchesAreMinimal | optimizer/src/batcher.rs:24-51 | no list that covers the requests is shorter than the flattened groups of the result |
| BatchServing.RebatchingIsIdentity | optimizer/src/batcher.rs:25-51 | batching the flattened groups gives the same groups |
| BatchServing.SwapChangesNothing | optimizer/src/batcher.rs:25-51 | swapping neighbouring requests of different ids changes nothing |
| BatchServing.BatchesApprovedIff | optimizer/src/batcher.rs:18-22 | every group passes validate_batch exactly when no id from 7 to 9 is pending |
| BatchServing.BulkFetchServesAll | safety/src/validator.rs:61-71 | fetching the approved groups leaves the memory alone and yields the value of every single request |
| Fnv.FnvHash | common/src/lib.rs:99-108 | the loop computes the hash function |
| Fnv.XorBitwise | common/src/lib.rs:104-104 | a bit of the exclusive or is set exactly where the operands differ |
| Fnv.AbsorbStep | common/src/lib.rs:103-106 | one more byte: exclusive or into the low octet, times 1099511628211, modulo 2^64 |
| Fnv.KnownValues | common/src/lib.rs:99-108 | the hashes of the empty string and of "a" |
| Fnv.RewindRestores | common/src/lib.rs:99-108 | knowing the bytes, the hash can be run backwards to any starting state |
| Fnv.SuffixKeepsCollisions | common/src/lib.rs:99-108 | a common suffix neither creates nor removes a collision |
| Fnv.OneByteDifferenceNeverCollides | common/src/lib.rs:99-108 | strings that differ in exactly one position never collide |
| Baseline.ProgramBaseline.Update | anomaly/src/baseline.rs:29-77 | the loops compute the window statistics and blend them, in any map order |
| Baseline.ProgramBaseline.BlendCounts | anomaly/src/baseline.rs:51-57 | ids in the window are blended, absent ids keep their frequency, in any visiting order |
| BaselineMeaning.CountIsPositions | anomaly/src/baseline.rs:40-41 | the count of an id is the number of positions where it occurs |
| BaselineMeaning.CountsAddUp | anomaly/src/baseline.rs:40-42 | the counts of the ids that occur add up to the number of events |
| BaselineMeaning.CryptoCountIsPositions | anomaly/src/baseline.rs:43-45 | the crypto count is the number of positions with an id from 20 to 23 |
| BaselineMeaning.MaxDepthExact | anomaly/src/baseline.rs:46-48 | no event is deeper, and one is as deep |
| BaselineMeaning.TotalDelaySplits | anomaly/src/baseline.rs:61-63 | cutting a window at any event splits the sum of its delays |
| BaselineMeaning.MeanDelaySpans | anomaly/src/baseline.rs:60-66 | the mean delay of a window in time order is its span over the number of gaps |
| BaselineMeaning.FrequencyUpdate | anomaly/src/baseline.rs:51-57 | an update blends in the share of positions of each id that occurs and leaves the other frequencies alone |
| BaselineMeaning.UpdateMeans | anomaly/src/baseline.rs:29-77 | what an update makes of ratio, delay, depth and count, by positions, depths and delays |
| Baseline.BaselineStore.UpdateProgram | anomaly/src/baseline.rs:126-131 | updates or creates the one program's baseline and leaves all others alone |
| BaselineRuns.AveragesClosedForm | anomaly/src/baseline.rs:59-70 | crypto ratio and mean delay are the sums of 0.1 * 0.9^(n-k) * sample k |
| BaselineRuns.FrequencyClosedForm | anomaly/src/baseline.rs:51-57 | a frequency is that sum over only the windows where its id occurs |
| BaselineRuns.FrequencyBounds | anomaly/src/baseline.rs:51-57 | a frequency lies in [0, 1 - 0.9^k], k the number of windows where its id occurs |
| BaselineRuns.FrequenciesExceedOne | anomaly/src/baseline.rs:51-57 | frequencies are no distribution: two ids in n windows each, one after the other, sum to more than 1 exactly from n = 7 on |
| BaselineRuns.CryptoRatioBounds | anomaly/src/baseline.rs:69-70 | the crypto ratio lies in [0, 1 - 0.9^n] |
| BaselineRuns.CryptoBoundReached | anomaly/src/baseline.rs:69-70 | it reaches 1 - 0.9^n exactly when every event seen has an id from 20 to 23 |
| BaselineRuns.CryptoWindowsRatio | anomaly/src/baseline.rs:69-70 | n non-empty windows that are all crypto give the ratio 1 - 0.9^n |
| BaselineRuns.DepthIsMaximal | anomaly/src/baseline.rs:72-74 | of all events seen none is deeper than the depth, and one is as deep |
| BaselineRuns.ObservationsCountEvents | anomaly/src/baseline.rs:76-76 | all events are counted, modulo 2^64 |
| BaselineRuns.DelayIsCircular | anomaly/src/baseline.rs:61-63 | the delay is the shorter way around the 64-bit clock, the plain distance exactly when that is at most 2^63 |

## Left out

- RingBuffers.RingBuffer.Push: the class is used by one thread at a time; concurrent use is the step machine.
- SysvarCaches.SysvarCache.Get: the `lru` crate's linked list and hash map are modelled as a list in recency order; the crate is not part of this model.
- CacheHits.HitsExactly: exact for runs without sweeps; for runs with sweeps, SweepsCostExact compares hits instead of predicting them.
- DedupRuns.DedupExact: results depend on the argument hash that trace events carry, so here a hash collision is one call; for the cache, collisions are modelled.
- Reordering.ReorderExact: log lines are not part of a program's observations, so logging calls are free to move; docs/safety_proofs.md:24 excludes them for their order.
- DedupRuns.DedupSound: log lines are not part of a program's observations, as in docs/safety_proofs.md:7-12; a skipped `sol_log` loses its line.
- Baseline.ProgramBaseline.Update: f64 rounding is not modelled, and the timestamp subtraction wraps, as without overflow checks.
- `hit_rate`, `feature_vector`, `kl_divergence` and the anomaly detector and policy: floating point, logarithms, roots and wall time.
- `runtime/`: wall clock, channel and counters around a table lookup; its registry repeats the classifier.
- `prefetcher.rs`: its fetch is a stub and its entries are always ready.
- `arrow_serializer.rs`, the binaries, `ml/`, benches and scripts: file I/O, random workloads, training.
- Human-readable reasons, Display impls, logging, and the uninitialized allocation in `RingBuffer::new` (a slot is None until written).
