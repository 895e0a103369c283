# Phoenix Telemetry Edge: the sampling core, modelled and proved

Phoenix Telemetry Edge is an adaptive sampling collector.  Stripped of its plumbing it holds
several algorithms and state machines: a trace-aware reservoir sampler with a span cache and
checkpoints, a top-N process filter with a worker pool, a feedback controller, a hash-based
head sampler for traces and logs, and a parser for `/proc` behind caches and circuit breakers.
This project models them in Dafny and proves what holds of every run.

Code that changes things step by step is a class or a method with loops, proved against a
function of the old state; what the program promises is then proved about those functions.

| module | what it models |
|---|---|
| `LruCache` | the span cache: least recently used entries go first |
| `ActiveBuffer`, `ReservoirWindow`, `OverlappingFlushes` | the active buffer, the cache and any number of pending flushes as one state machine, and two runs that lose spans |
| `AlgorithmR`, `TraceShares`, `SampledTraces` | the random gate, counted over all sequences of draws; the share of traces of any size; the tie to the sampler's own buffer |
| `TraceBuffers`, `TimelyRelease`, `DroppedTraces`, `TraceGroups` | per-trace buffers with their log, when a trace leaves them, what the cleanup loses, and the grouping of a released trace |
| `Reservoir`, `SamplerRuns`, `Checkpoint` | the sampler object, its whole life as runs of the window machine, and saving and restoring it |
| `ProcessHeap`, `QuickSelect` | the two ways of selecting the n largest processes |
| `Readings`, `ProcessTable`, `TopNCache`, `ConcurrentFilter` | what a resource says about its process, the process table, the cached selection, the worker pools |
| `PidController` | the control cycle and the sampler's clamp |
| `HeadSampler` | the trace hash and the threshold test |
| `LogRecords`, `RecordId`, `LogSampler` | field lookup, record identifiers, sampling of log batches |
| `CircuitBreaker`, `ProcCache` | the breaker and the caches with a time to live |
| `Telemetry`, `Words`, `Seqs`, `Choices`, `Sorting`, `Arithmetic`, `Wrappers` | spans and keys, byte strings, sequence and number facts |

`dafny verify dfyconfig.toml` checks everything.

## Where the program does less than it says

Each of these is a statement about the code as it is, with the exact condition under which it
does keep its promise.

- A flush runs beside everything else and windows close without waiting for it, so a flush
  can lose spans although the cache has twice the reservoir's size
  (`OverlappingFlushLosesASpan`), and two flushes at once can push a span out of the cache
  that is still in the active buffer (`TwoFlushesEvictABufferedSpan`).  Over every run, a
  buffered span is cached if and only if fewer than 2k distinct keys were touched since its
  own (`BufferedSpanCachedIff`), and a flush loses nothing if and only if that holds of each
  span when it is looked up (`NothingMissingIff`).  In particular every buffered span is
  cached as long as no window closes before the earlier flushes have ended
  (`BufferedSpansAreCached`), and a flush loses nothing if its buffer was filled while no
  flush was reading and it ends before more than k distinct new keys arrive
  (`NothingMissingIfFewNewKeys`, `FilledInPeace`).
- The comments promise every trace a k/n chance of being in the sample.  The draw gives an
  arriving trace its exact share (`ArrivalShare`), and replacing the drawn slot would keep the
  promise, a share of min(k, n)/n (`SurvivalShare`), but the code appends and starts the buffer
  afresh when it is full.  For traces of any sizes every one of n traces has its share min(k, n)/n of being
  held whole if and only if all their spans fit (n <= k and together at most k spans), or
  k = 1 and every trace has a single span (`PromisedShareIff`).
- A full buffer is replaced by one span: a window is still whole exactly if it has at most k
  spans (`WholeWindowHeldIff`, `WindowBuffer`).
- Scope name, version and resource attributes are joined without a separator, and the scope's
  attributes are not part of the key, so a span can end up under another scope
  (`JoinedKeyCanMislabel`, `ScopeAttributesCanBeLost`); exactly when is `ContextKeptIff`.  With
  one scope throughout, or one resource, telling the others apart is enough
  (`ContextKeptWithOneScope`, `ContextKeptWithOneResource`).
- The periodic cleanup drops timed-out traces instead of sampling them: exactly those that
  were quiet for longer than the timeout (`TraceBufferMap.Cleanup`), so conservation has a
  term for dropped spans (`Conservation`).  A run that loses a span is `ALateCleanupDrops`;
  over every run nothing is lost if and only if no cleanup finds a timed-out trace
  (`NothingDroppedIff`).
- After a restart the restored spans have a summary only and no entry in the cache.  Looking
  one up hits if and only if a span with its identifiers has been added again and fewer keys
  than the cache has places were touched since (`RestoredSpanHitsIff`).
- The set of process identifiers is not rebuilt when the table has at most n processes, so
  looking up a process of the selection can fail (`OneProcessIsMissed`), and a table that
  never outgrows n filters out every process (`SmallTablesFindNothing`).  Over every run, with
  a valid cache the lookups are right if and only if the table has more than n processes or
  the set happens to be that of the whole table (`LookupsRightIff`), and so is the filter's
  output, the empty identifier aside (`FiltersTheSelectionIff`).  The architecture document
  describes the rule that would work (`DocumentedRuleKeepsPids`).
- The sequential filter emits a resource without identifier or name once more
  (`SequentialAgreesIff`).
- "Low utilisation raises the probability", or keeps it, holds exactly if the up factor is at
  least 1 or the probability is at its lower limit (`LowLoadRaisesIff`); the configuration
  check accepts any positive factor.  Sustained low load gives p Up^m within the limits
  (`LowLoadClosedForm`).
- The result of a batch read by several workers is that of reading it in order if and only if
  no two resources say different things about one process (`AnyRunSameTableIff`).
- Attribute paths are split at dots.  Among plain attributes a path is found if and only if it
  has no dot and is the key of one (`PlainFoundIff`), and a path leads to the attribute with
  that very key, whatever the attributes, if and only if it has no dot (`OwnKeyFoundIff`).  Of
  the three built-in identifying fields two have dots; the identifier is the message alone if
  and only if neither leads to a text (`DefaultIdIsTheMessageIff`), as for all records with
  plain attributes (`DefaultIdIsTheMessage`).
- With weights that differ but are positive, and values without colons, the identifier is
  settled whatever arrangement the sort returns if and only if no two different values tie in
  weight and field name (`OneTextIff`);
  `TiesAreAmbiguous` is a record and configuration where it is not.
- The circuit-breaker document says that the circuit closes by itself after the cooldown.
  The code leaves it open and only stops denying; a failing test operation does not start
  another cooldown (`FailedTestsDoNotReopen`; exactly when an operation is denied is
  `DeniedIff`).
- The document asks for three slow or three failed operations in a row; the code counts slow
  and failed ones together, so that slow, failed, slow opens the circuit (`MixedRunOpens`).
  Both circuits are open or closed alike if and only if the current run of bad results is
  shorter than three or has three in a row of one kind (`OpenAgreeIff`), and they have been
  since the run began if and only if its first three are all slow or all failed
  (`AgreedInRunIff`).

## Model

| member | source | states |
|---|---|---|
| `LruCache.CacheIsRecencyPrefix` | internal/processor/reservoirsampler/processor.go:161-183 | on every sequence of calls the cached keys are exactly the `cap` most recently touched distinct keys, in that order |
| `LruCache.CachedIffRecent` | internal/processor/reservoirsampler/processor.go:161-183 | a key is cached if and only if it was touched and fewer than `cap` distinct other keys were touched since |
| `LruCache.CachedIffPut` | internal/processor/reservoirsampler/processor.go:161-183 | the same in terms of the calls: a key is cached if and only if it was ever put and has fewer rivals than the cache has places |
| `LruCache.PutSurvivesSmallStretch` | internal/processor/reservoirsampler/processor.go:454-457 | a key put during calls naming at most `cap` keys is still there after them |
| `LruCache.HitIsLastPut` | internal/processor/reservoirsampler/processor.go:531-534 | a hit returns the value most recently put under the key |
| `LruCache.Lru.Add` | internal/processor/reservoirsampler/processor.go:454-457 | extends the history by a put; the key is found with its new value; an entry is evicted exactly if the key is new and the cache full |
| `LruCache.Lru.Get` | internal/processor/reservoirsampler/processor.go:531-534 | extends the history by a read and returns what was stored, if anything |
| `Telemetry.SpanKeyInjective` | internal/processor/reservoirsampler/span_utils.go:48-50 | two spans share a cache key only if they share trace and span identifier |
| `ReservoirWindow.KeyIsTheTextKey` | internal/processor/reservoirsampler/span_utils.go:48-50 | two stored spans share a cache key exactly if the text written for both is the same, and exactly if they agree in trace and span identifier |
| `Telemetry.Summarize` | internal/processor/reservoirsampler/span_utils.go:13-45 | a summary keeps identifiers, name, kind, times and status of the span and the `service.name` and `tenant.id` of its resource, empty if absent, and has a parent exactly if one of the eight bytes of the parent identifier is not zero |
| `ActiveBuffer.BufferIsSuffix` | internal/processor/reservoirsampler/processor.go:459-470 | after m adds the buffer is exactly the suffix of length ((m-1) mod k)+1 of them, never longer than k |
| `ActiveBuffer.WholeWindowHeldIff` | internal/processor/reservoirsampler/processor.go:459-470 | the buffer holds the whole window if and only if it had at most k adds |
| `ReservoirWindow.InvAlways` | internal/processor/reservoirsampler/processor.go:421-577 | every run, with any number of flushes pending, keeps: buffers within k, their spans put since their marks, every flush accounting for all it was handed |
| `ReservoirWindow.BufferedSpanCachedIff` | internal/processor/reservoirsampler/processor.go:421-470 | in every reachable state a span of the active buffer is cached if and only if fewer distinct keys than the cache has places were touched since its own |
| `ReservoirWindow.BufferedSpansAreCached` | internal/processor/reservoirsampler/processor.go:421-470 | on runs whose windows close only after the earlier flushes have ended, each span of the active buffer is in the cache of 2k entries |
| `ReservoirWindow.NothingMissingIff` | internal/processor/reservoirsampler/processor.go:491-577 | on every run a flush has missed nothing so far if and only if each span it looked up had fewer rivals than the cache has places at that moment |
| `ReservoirWindow.NothingMissing` | internal/processor/reservoirsampler/processor.go:491-552 | a flush during which at most `cap` distinct keys were named since its first span was put misses nothing, whatever other flushes do |
| `ReservoirWindow.NothingMissingIfFewNewKeys` | internal/processor/reservoirsampler/processor.go:491-552 | with 2k entries a flush misses nothing if its window was filled undisturbed and it ends before more than k distinct new keys are named |
| `ReservoirWindow.FilledInPeace` | internal/processor/reservoirsampler/processor.go:421-470 | a buffer filled while no flush was reading is undisturbed |
| `ReservoirWindow.LookupHitsIff` | internal/processor/reservoirsampler/processor.go:525-552 | exact rule for one lookup of any flush in any state: put before, and fewer than `cap` distinct keys touched since |
| `ReservoirWindow.EmitsTheBuffer` | internal/processor/reservoirsampler/processor.go:525-552 | if no two different added spans agree in trace and span identifier, a flush that misses nothing sends on exactly the flushed spans in buffer order |
| `OverlappingFlushes.OverlappingFlushLosesASpan` | internal/processor/reservoirsampler/processor.go:491-577 | a run with k = 1, each window closing after the earlier flush has ended, in which the second flush loses its span |
| `OverlappingFlushes.TwoFlushesEvictABufferedSpan` | internal/processor/reservoirsampler/processor.go:421-577 | a run with k = 2 and two flushes pending at once, after which a span of the active buffer is not cached |
| `AlgorithmR.AllDrawsExact` | internal/processor/reservoirsampler/processor.go:376-379 | the counted set is exactly the draw sequences with each draw below its trace's number |
| `AlgorithmR.SomeDraws` | internal/processor/reservoirsampler/processor.go:376-379 | there is at least one draw sequence, so shares are meaningful |
| `AlgorithmR.ArrivalShare` | internal/processor/reservoirsampler/processor.go:360-390 | trace m > k is accepted on arrival in exactly a k/m share of all draw sequences |
| `AlgorithmR.ContentsDistinct` | internal/processor/reservoirsampler/processor.go:364-388 | with the drawn slot replaced the reservoir holds min(k, n) distinct ones of the n traces seen, from the first on |
| `AlgorithmR.SurvivalShare` | internal/processor/reservoirsampler/processor.go:364-388 | with the drawn slot replaced each of n traces survives in exactly a min(k, n)/n share |
| `AlgorithmR.FirstTraceShort` | internal/processor/reservoirsampler/processor.go:381-388 | in the code, with k of 2 or more, the first trace's share is below k/n as soon as n > k |
| `AlgorithmR.SinglePlaceShares` | internal/processor/reservoirsampler/processor.go:360-390 | with a single place the code gives every single-span trace exactly its share 1/n |
| `TraceShares.PromisedShareIff` | internal/processor/reservoirsampler/processor.go:360-470 | for traces of any sizes, each of n has its share min(k, n)/n of being held whole if and only if n <= k and all their spans fit, or k = 1 and all have one span |
| `SampledTraces.SamplerHoldsThePieces` | internal/processor/reservoirsampler/processor.go:360-470 | after any units and draws the sampler's buffer is the counted one, read through the units, and its draws are among those counted |
| `TraceBuffers.AddKeeps` | internal/processor/reservoirsampler/trace_buffer.go:229-254 | adding a span keeps the buffers matching the log and the log lawful |
| `TraceBuffers.ReleaseLaw` | internal/processor/reservoirsampler/trace_buffer.go:217-271 | on every run the buffers hold exactly what the log leaves pending, none holds a root, and each departure took all its trace's pending spans in arrival order |
| `TraceBuffers.NoRootBuffered` | internal/processor/reservoirsampler/trace_buffer.go:246-251 | no buffer left in the map has a root span |
| `TraceBuffers.Conservation` | internal/processor/reservoirsampler/trace_buffer.go:217-271 | every span that arrived is pending, released or dropped, counted with multiplicity |
| `TraceBuffers.ConservationInBuffers` | internal/processor/reservoirsampler/trace_buffer.go:217-271 | the same with the contents of the map in place of the log |
| `TimelyRelease.ArrivalLaw` | internal/processor/reservoirsampler/trace_buffer.go:229-254 | said of the log alone: a span without parent releases its trace at once, whole and in arrival order; any other waits behind the pending spans of its trace |
| `TimelyRelease.SweepLaw` | internal/processor/reservoirsampler/trace_buffer.go:217-271 | said of the log alone: of the traces a sweep visits exactly those quiet for longer than the timeout are no longer pending, and nothing else changes |
| `TimelyRelease.NothingQuietStays` | internal/processor/reservoirsampler/trace_buffer.go:257-271 | a sweep over all buffered traces leaves none pending that was quiet for longer than the timeout, however many spans it has |
| `DroppedTraces.NothingDroppedIff` | internal/processor/reservoirsampler/trace_buffer.go:217-226 | over every run no span is ever dropped if and only if no cleanup finds a timed-out trace |
| `DroppedTraces.ALateCleanupDrops` | internal/processor/reservoirsampler/trace_buffer.go:217-226 | a span that is no root is dropped by a cleanup after its timeout |
| `TraceBuffers.TraceBuffer.AddSpan` | internal/processor/reservoirsampler/trace_buffer.go:98-123 | appends the span, notes a root, and sets the update time |
| `TraceBuffers.TraceBuffer.IsTimedOut` | internal/processor/reservoirsampler/trace_buffer.go:93-95 | whether the buffer was quiet for longer than the timeout |
| `TraceBuffers.TraceBufferMap.AddSpan` | internal/processor/reservoirsampler/trace_buffer.go:229-254 | files the span, and hands out exactly the buffer that now has a root |
| `TraceBuffers.TraceBufferMap.GetCompletedAndTimedOutTraces` | internal/processor/reservoirsampler/trace_buffer.go:257-271 | takes out exactly the buffers whose last update is longer ago than the timeout, in any order; none has a root, and the released units are their spans |
| `TraceBuffers.TraceBufferMap.Cleanup` | internal/processor/reservoirsampler/trace_buffer.go:217-226 | deletes exactly the buffers whose last update is longer ago than the timeout, which the log records as dropped |
| `TraceGroups.ToTraces` | internal/processor/reservoirsampler/trace_buffer.go:126-172 | produces the stable grouping: one group per key, in first-seen order, spans in original order under the first one's context |
| `TraceGroups.StableGroupingUnique` | internal/processor/reservoirsampler/trace_buffer.go:126-172 | the property "a group for each first span of a key, in order, holding the spans at exactly the places with that key" is had by the computed grouping and no other |
| `TraceGroups.GroupingIsPermutation` | internal/processor/reservoirsampler/trace_buffer.go:126-172 | the grouped spans are a permutation of the buffered ones |
| `TraceGroups.ContextKeptIff` | internal/processor/reservoirsampler/trace_buffer.go:136-160 | every span keeps its own resource and scope if and only if the text key tells the occurring contexts apart |
| `TraceGroups.ContextKeptWithOneScope` | internal/processor/reservoirsampler/trace_buffer.go:134-157 | with one scope throughout every span keeps its context if the rendering tells the occurring resources apart |
| `TraceGroups.ContextKeptWithOneResource` | internal/processor/reservoirsampler/trace_buffer.go:134-157 | with one resource throughout it does if name and version, joined, tell the occurring scopes apart |
| `TraceGroups.GroupHoldsItsPlace` | internal/processor/reservoirsampler/trace_buffer.go:134-166 | each group holds exactly the spans that go to its place, in their order |
| `TraceGroups.DifferentContextsPartWays` | internal/processor/reservoirsampler/trace_buffer.go:134-157 | two spans of one scope name and version whose resources render differently go to different groups, and so do two of one rendering whose scope texts differ |
| `TraceGroups.JoinedKeyCanMislabel` | internal/processor/reservoirsampler/trace_buffer.go:136-139 | two scopes whose names and versions join to the same text are confused |
| `TraceGroups.ScopeAttributesCanBeLost` | internal/processor/reservoirsampler/trace_buffer.go:136-157 | of two scopes that differ in attributes only, the second loses its own |
| `Reservoir.OnlyAcceptedSpansEnter` | internal/processor/reservoirsampler/processor.go:360-418 | whatever the units and draws, exactly the spans of the accepted units enter, in order, and the counter counts the units |
| `Reservoir.WindowBuffer` | internal/processor/reservoirsampler/processor.go:360-470 | the window's buffer at any moment: the computed suffix of the accepted spans, all of them exactly if at most k |
| `Reservoir.SampleUnitsConcat` | internal/processor/reservoirsampler/processor.go:360-390 | sampling two lists of units is sampling their concatenation |
| `Reservoir.SamplingIsARun` | internal/processor/reservoirsampler/processor.go:360-471 | sampling any units is a run of the window machine: one Add for every accepted span |
| `Reservoir.ReservoirSampler.constructor` | internal/processor/reservoirsampler/processor.go:161-205 | a new sampler: empty, cache of twice the size, window starting now |
| `Reservoir.ReservoirSampler.SetK` | internal/processor/reservoirsampler/processor.go:1286-1294 | sets a positive capacity and ignores others |
| `Reservoir.ReservoirSampler.AddSpanToReservoir` | internal/processor/reservoirsampler/processor.go:421-471 | puts the span in the cache and adds it to the active buffer |
| `Reservoir.ReservoirSampler.AddTraceToReservoir` | internal/processor/reservoirsampler/processor.go:395-418 | adds all spans of all groups in order |
| `Reservoir.ReservoirSampler.SampleTrace` | internal/processor/reservoirsampler/processor.go:360-390 | counts the trace, then adds it whole or not at all |
| `Reservoir.ReservoirSampler.ProcessSpan` | internal/processor/reservoirsampler/processor.go:313-355 | the sampler sees exactly the units the buffers release, in that order; a root span makes one complete trace, every other unit is counted as timed out, and no overdue trace stays buffered |
| `Reservoir.ReservoirSampler.Flush` | internal/processor/reservoirsampler/processor.go:491-520 | hands the buffer to a job, in the state a Close gives it, unless it is empty, and starts a new one; counter and cache stay |
| `Reservoir.ReservoirSampler.ResetWindow` | internal/processor/reservoirsampler/processor.go:474-488 | flushes, sets the counter to zero and the start to now |
| `Reservoir.ReservoirSampler.ConsumeTraces` | internal/processor/reservoirsampler/processor.go:240-309 | over a whole batch: an expired window is first handed to a flush, then every span arrives, in order, the sampler has seen what the buffers released, and no overdue trace stays buffered |
| `Reservoir.FlushJob.Step` | internal/processor/reservoirsampler/processor.go:525-552 | one lookup: the stored span is taken over, or counted as missing; in any state of the window machine that shows this job it is a ReadNext step |
| `SamplerRuns.SamplerIsReachable` | internal/processor/reservoirsampler/processor.go:240-577 | after any samplings, resets and lookups, in any order, the sampler and its flushes are in a state the window machine reaches |
| `SamplerRuns.SamplerSpanCachedIff` | internal/processor/reservoirsampler/processor.go:421-470 | a span of the sampler's own buffer is cached if and only if fewer distinct keys than the cache has places were touched since its own |
| `SamplerRuns.SamplerFlushCompleteIff` | internal/processor/reservoirsampler/processor.go:491-577 | a flush of the sampler has missed nothing if and only if each of its lookups came in time |
| `SamplerRuns.SamplerSendsItsSpans` | internal/processor/reservoirsampler/processor.go:395-552 | with unique identifiers, a flush of the sampler that has missed nothing has sent on what it looked up, in buffer order, and each of these is, in full and under the context it was grouped with, a span of a unit that was sampled |
| `SamplerRuns.CounterStartsAnew` | internal/processor/reservoirsampler/processor.go:360-488 | after any actions the counter the gate draws by is the number of units sampled since the last reset |
| `Words.DecodeEncode` | internal/processor/reservoirsampler/processor.go:623-628 | a number that fits survives being written as little-endian bytes |
| `Words.EncodeDecode` | internal/processor/reservoirsampler/processor.go:682-692 | every byte string is the encoding of the number read from it |
| `Words.LittleEndianByte` | internal/processor/reservoirsampler/processor.go:623-628 | the i-th byte written is the i-th digit to base 256, the least significant first |
| `Words.BigEndianByte` | internal/processor/adaptiveheadsampler/processor.go:491-501 | in a big-endian word the most significant byte comes first |
| `Checkpoint.WordsSurvive` | internal/processor/reservoirsampler/processor.go:623-692 | the unsigned counter and the signed window start both survive, the latter as two's complement |
| `Checkpoint.PutInt64Bytes` | internal/processor/reservoirsampler/processor.go:623-628 | the window start is stored as its two's complement, the least significant byte first |
| `Checkpoint.LoadAfterSave` | internal/processor/reservoirsampler/processor.go:589-732 | restoring gives back counter, window start and summaries in order, without the full spans |
| `Checkpoint.SaveCheckpoint` | internal/processor/reservoirsampler/processor.go:589-644 | stores counter, window start and the summaries of the active buffer |
| `Checkpoint.LoadCheckpoint` | internal/processor/reservoirsampler/processor.go:672-732 | restores all three if all three are stored; otherwise fails, leaves counter and buffer alone and starts the window now |
| `Checkpoint.RestartIsTransparent` | internal/processor/reservoirsampler/processor.go:360-390 | for all later traces and draws the restored sampler admits the same spans and keeps the same counter and summaries |
| `Checkpoint.RestoredSpanHitsIff` | internal/processor/reservoirsampler/processor.go:711-719 | in every run after a restart a restored span's lookup hits if and only if a span with its key was added again and fewer keys than the cache has places were touched since |
| `ProcessHeap.ProcessPriorityQueue.Push` | internal/processor/topnprocfilter/processor.go:268-270 | keeps the heap shape and adds exactly the item |
| `ProcessHeap.ProcessPriorityQueue.Pop` | internal/processor/topnprocfilter/processor.go:272-278 | removes the least item and keeps the heap shape |
| `ProcessHeap.GetTopNByMetric` | internal/processor/topnprocfilter/processor.go:382-423 | for more than n processes: n of them, in descending order, no left-out one above the smallest kept; otherwise all as they are |
| `ProcessHeap.KeepLargest` | internal/processor/topnprocfilter/processor.go:402-414 | heap and dropped items make up the input, and nothing dropped is above the heap's least |
| `ProcessHeap.Drain` | internal/processor/topnprocfilter/processor.go:416-422 | empties the heap into a descending permutation of it |
| `QuickSelect.Partition` | internal/processor/topnprocfilter/processor.go:445-463 | permutes only the range and splits it around the returned place |
| `QuickSelect.Select` | internal/processor/topnprocfilter/processor.go:427-441 | terminates, permutes only the range, and place k has nothing smaller before it and nothing larger after it |
| `QuickSelect.FirstItemsAreTopN` | internal/processor/topnprocfilter/processor.go:425-441 | the first n items are then a top n |
| `QuickSelect.TopNValuesUnique` | internal/processor/topnprocfilter/processor.go:380-423 | any two top-n selections have the same multiset of values |
| `QuickSelect.SelectAgreesWithHeap` | internal/processor/topnprocfilter/processor.go:382-441 | quickselect and the heap select the same multiset of values |
| `ProcessTable.StampsTellTheHistory` | internal/processor/topnprocfilter/processor_concurrent.go:294-319 | on every history the table holds exactly the tracked processes, each stamped with its latest active observation since insertion |
| `ProcessTable.CleanupRemovesTheIdle` | internal/processor/topnprocfilter/processor.go:540-571 | a cleanup removes exactly those idle for longer than the time to live |
| `ProcessTable.SurvivorsWereActive` | internal/processor/topnprocfilter/processor.go:540-571 | every survivor was observed active within the time to live |
| `ProcessTable.StampNeverDecreases` | internal/processor/topnprocfilter/processor_concurrent.go:294-319 | while a process is tracked its stamp never goes back |
| `ProcessTable.OrderIrrelevantIff` | internal/processor/topnprocfilter/processor_concurrent.go:137-163 | every order of the observations gives the same table if and only if no two observations of one process differ |
| `TopNCache.ValidCacheIsCorrect` | internal/processor/topnprocfilter/processor.go:282-378 | over every sequence of updates, resizes, cleanups and queries a valid cache is a CPU top n joined with a memory top n of the present table, n to 2n processes, none twice, and with more than n processes the identifier set is its own |
| `TopNCache.LeftOutIsSmall` | internal/processor/topnprocfilter/processor.go:341-368 | a process left out of a correct selection has n selected ones with at least its CPU usage and n with at least its memory usage |
| `TopNCache.SelectedIsLarge` | internal/processor/topnprocfilter/processor.go:341-368 | with more than n processes a selected one has fewer than n above it in CPU usage, or fewer than n above it in memory usage |
| `TopNCache.RebuildKeepsPidsIff` | internal/processor/topnprocfilter/processor.go:335-377 | a rebuild leaves the identifier set in step if and only if the table has more than n processes or the set was right before |
| `TopNCache.SmallTablesFindNothing` | internal/processor/topnprocfilter/processor.go:335-339 | if the table never outgrows n no identifier is ever found |
| `TopNCache.DocumentedRuleKeepsPids` | internal/processor/topnprocfilter/ARCHITECTURE.md:256-273 | with the documented rule the identifier set is exactly the cached selection's, on every run |
| `TopNCache.TopNProcessor.SetTopN` | internal/processor/topnprocfilter/processor.go:204-221 | sets n, at least 1, and invalidates the cache exactly if n changes |
| `TopNCache.TopNProcessor.RunCleanupCycle` | internal/processor/topnprocfilter/processor.go:540-571 | removes the idle processes and invalidates the cache exactly if there were any |
| `TopNCache.TopNProcessor.GetTopNProcesses` | internal/processor/topnprocfilter/processor.go:282-378 | returns a correct selection, cached or computed afresh |
| `TopNCache.TopNProcessor.IsInTopN` | internal/processor/topnprocfilter/processor.go:467-475 | membership in the identifier set, which is membership of the process in the present selection when the cache is valid and the table has more than n processes or the set is the whole table's |
| `TopNCache.LookupsRightIff` | internal/processor/topnprocfilter/processor.go:335-377 | over every run, while the cache is valid the lookups are right for all identifiers if and only if the table has more than n processes or the set is that of the whole table |
| `TopNCache.OneProcessIsMissed` | internal/processor/topnprocfilter/processor.go:335-339 | a run of one observation and one query after which a selected process is not found |
| `TopNCache.Join` | internal/processor/topnprocfilter/processor.go:351-368 | the two tops joined, each process once |
| `Readings.ReadIs` | internal/processor/topnprocfilter/processor_concurrent.go:86-116 | CPU and memory are the values of the last gauge of the respective name, zero without one, and something was read exactly if there is a gauge of either name |
| `Readings.ExtractIs` | internal/processor/topnprocfilter/processor_concurrent.go:65-122 | a resource yields an observation exactly if it has an identifier, a name and a gauge of either kind, and then of its own process with the last value of each kind |
| `ConcurrentFilter.EntryAfterBatch` | internal/processor/topnprocfilter/processor_concurrent.go:36-163 | after a batch of different processes, whatever the order of the messages, the entry of each that has a reading holds what its resource says, when it was applied, and when it was last at or above a threshold |
| `ConcurrentFilter.OthersAfterBatch` | internal/processor/topnprocfilter/processor_concurrent.go:137-163 | a process no resource of the batch is about keeps its entry, or its absence |
| `ConcurrentFilter.CollectUpdates` | internal/processor/topnprocfilter/processor_concurrent.go:36-163 | a loop over such steps, for any batch: it ends with every observation applied once in some order, and with the table of the one-pass reading if no two resources contradict each other |
| `ConcurrentFilter.AnyStep` | internal/processor/topnprocfilter/processor_concurrent.go:50-137 | chooses any step that worker or collector can take, and it is a step of the state machine |
| `ConcurrentFilter.PoolAlways` | internal/processor/topnprocfilter/processor_concurrent.go:36-163 | over every run of workers and collector: never more than maxWorkers hold the semaphore, the channel stays within its size, the messages are those of the workers that have worked, each once |
| `ConcurrentFilter.SendNeverBlocks` | internal/processor/topnprocfilter/processor_concurrent.go:37-124 | in every reachable state a worker about to send finds room in the channel |
| `ConcurrentFilter.NeverStuck` | internal/processor/topnprocfilter/processor_concurrent.go:36-163 | until the collector has seen the channel closed and empty some step is possible |
| `ConcurrentFilter.RunsEnd` | internal/processor/topnprocfilter/processor_concurrent.go:36-163 | every run has at most 6n + 1 steps |
| `ConcurrentFilter.AnyRunSameTableIff` | internal/processor/topnprocfilter/processor_concurrent.go:36-163 | all finished runs leave the table of the one-pass reading if and only if no two resources say different things about one process |
| `ConcurrentFilter.DoneInOrder` | internal/processor/topnprocfilter/processor_concurrent.go:36-163 | any order of all workers is the order in which the messages are taken on some run |
| `ConcurrentFilter.AWorkerCanMove` | internal/processor/topnprocfilter/processor_concurrent.go:45-60 | unless all workers have finished, one of them can move |
| `ConcurrentFilter.AnyOrderSameTableIff` | internal/processor/topnprocfilter/processor_concurrent.go:137-163 | every order of the messages gives the same table if and only if no two resources say different things about one process |
| `ConcurrentFilter.DistinctIsConsistent` | internal/processor/topnprocfilter/processor_concurrent.go:137-163 | resources of different processes never do |
| `ConcurrentFilter.FilterResources` | internal/processor/topnprocfilter/processor_concurrent.go:173-219 | for every interleaving the output is the plain filter's as a multiset, and kept plus filtered is the input |
| `ConcurrentFilter.KeptInAnyOrder` | internal/processor/topnprocfilter/processor_concurrent.go:173-219 | filtering in another order keeps the same multiset |
| `ConcurrentFilter.ProcessMetricsConcurrent` | internal/processor/topnprocfilter/processor_concurrent.go:14-228 | the whole batch: an update with every observation once, in some order, followed by a query of the cached selection; the table of the one-pass filter unless resources contradict each other; its output as a multiset, counts that add up, and the simple form for at most four resources |
| `ConcurrentFilter.ProcessMetricsSequential` | internal/processor/topnprocfilter/processor_concurrent.go:232-360 | the simple form: an update with the observations in order and a query, and the plain filter's output after the resources passed straight through |
| `ConcurrentFilter.SequentialAgreesIff` | internal/processor/topnprocfilter/processor_concurrent.go:258-263 | both forms emit the same resources if and only if every resource has an identifier and a name |
| `ConcurrentFilter.PassedThroughIs` | internal/processor/topnprocfilter/processor_concurrent.go:258-263 | what passes straight through are the resources without an identifier or a name, in order |
| `ConcurrentFilter.FiltersTheSelectionIff` | internal/processor/topnprocfilter/processor_concurrent.go:173-219 | with a valid cache the filter keeps of every batch exactly the resources of selected processes and those without identifier, if and only if the table has more than n processes or the set is the whole table's, the empty identifier aside |
| `PidController.Clamp` | internal/processor/adaptiveheadsampler/processor.go:68-75 | the result is within the limits, and a value within them is unchanged |
| `PidController.StaysRegular` | internal/extension/pidcontroller/pid_controller.go:233-322 | every cycle, whatever came before, leaves the probability within its limits and the counter below the window |
| `PidController.ErrorShrinks` | internal/extension/pidcontroller/pid_controller.go:244-247 | under constant utilisation the smoothing error is the first one times (1-alpha)^m |
| `PidController.OverloadClosedForm` | internal/extension/pidcontroller/pid_controller.go:262-322 | m overloaded cycles give max(MinP, p0 Down^(m-a) Aggr^a) with a = (h+m) div W and counter (h+m) mod W; they count m adjustments and a drops and clear the low-load counter |
| `PidController.PowFalls` | internal/extension/pidcontroller/pid_controller.go:244-247 | (1-b)^n (1+nb) is at most 1, which makes the number of cycles computable |
| `PidController.FloorReached` | internal/extension/pidcontroller/pid_controller.go:233-322 | under constant utilisation above the mark the probability is at its floor after a computed number of cycles and stays there |
| `PidController.LowLoadRaisesIff` | internal/extension/pidcontroller/pid_controller.go:290-300 | low load keeps or raises the probability if and only if the up factor is at least 1 or the probability is at its lower limit |
| `PidController.LowLoadClosedForm` | internal/extension/pidcontroller/pid_controller.go:290-300 | m cycles below the low mark give p0 Up^m within the limits, count m low cycles and m adjustments, no drops, and clear the overload counter |
| `PidController.BetweenKeeps` | internal/extension/pidcontroller/pid_controller.go:300-305 | over every run with the smoothed value between the marks in each cycle a probability within the limits and the totals of adjustments and drops stay as they were, and both counters are 0 |
| `PidController.NothingAdjusted` | internal/extension/pidcontroller/pid_controller.go:233-262 | a failed scrape changes nothing; without a registered sampler only the smoothed value moves |
| `PidController.AdaptiveSampler.SetValue` | internal/processor/adaptiveheadsampler/processor.go:51-85 | stores the clamped probability and ignores other keys |
| `PidController.Controller.RunControlCycle` | internal/extension/pidcontroller/pid_controller.go:233-322 | one cycle is the specified step on smoothed value, counters and probability, whether or not the scrape worked and the sampler is registered |
| `HeadSampler.XorBits` | internal/processor/adaptiveheadsampler/processor.go:491-501 | each bit of the combination is set exactly if the two bits differ |
| `HeadSampler.XorInvolution` | internal/processor/adaptiveheadsampler/processor.go:491-501 | combining twice with one word gives the other back |
| `HeadSampler.XorWord` | internal/processor/adaptiveheadsampler/processor.go:491-501 | the combination of two words is a word |
| `HeadSampler.HashBit` | internal/processor/adaptiveheadsampler/processor.go:491-501 | each bit of the hash is set exactly if the bits at its place in the two halves of the identifier differ, the first byte of a half holding its highest bits |
| `HeadSampler.HashOfId` | internal/processor/adaptiveheadsampler/processor.go:491-501 | every high half and hash have an identifier with exactly these |
| `HeadSampler.IdOfHash` | internal/processor/adaptiveheadsampler/processor.go:491-501 | every sixteen-byte identifier is the one of its high half and hash, so the two correspond one to one |
| `HeadSampler.BelowThreshold` | internal/processor/adaptiveheadsampler/processor.go:675-693 | the real comparison is a comparison with an integer threshold |
| `HeadSampler.KeptIdsExact` | internal/processor/adaptiveheadsampler/processor.go:605-693 | the counted set is exactly the trace identifiers the processor keeps |
| `HeadSampler.KeptShare` | internal/processor/adaptiveheadsampler/processor.go:605-693 | of all trace identifiers, 2^64 times the number of hashes below the threshold are kept |
| `HeadSampler.KeptMonotone` | internal/processor/adaptiveheadsampler/processor.go:605-693 | a higher probability keeps a superset of identifiers |
| `HeadSampler.FastPathAgrees` | internal/processor/adaptiveheadsampler/processor.go:610-614 | from full probability on the test would keep everything too; with the largest word as divisor it would miss exactly the largest hash, and only at exactly 1 |
| `LogRecords.GetNestedValue` | internal/processor/adaptiveheadsampler/processor.go:794-831 | the loop over path parts computes the descent through nested maps |
| `LogRecords.DottedSplit` | internal/processor/adaptiveheadsampler/processor.go:794-831 | the parts of a path have no dots and give the path again when joined by dots |
| `LogRecords.SplitDottedParts` | internal/processor/adaptiveheadsampler/processor.go:794-831 | parts without dots are recovered from the path they make |
| `LogRecords.FoundIff` | internal/processor/adaptiveheadsampler/processor.go:794-831 | a path is found with a certain text if and only if its parts lead, map by map, to an attribute with this text |
| `LogRecords.FieldsReferTo` | internal/processor/adaptiveheadsampler/processor.go:1239-1270 | message and body refer to the body, a field beginning with "resource." to a path in the resource, every other to a path in the record |
| `LogRecords.DottedPathNeedsNesting` | internal/processor/adaptiveheadsampler/processor.go:794-831 | a path with a dot is found only inside a nested map under its first part |
| `LogRecords.PlainFoundIff` | internal/processor/adaptiveheadsampler/processor.go:794-831 | among plain attributes a path is found if and only if it has no dot and is a key |
| `LogRecords.OwnKeyFoundIff` | internal/processor/adaptiveheadsampler/processor.go:794-831 | a path leads to the attribute under that very key, for all attributes, if and only if it has no dot |
| `RecordId.Gather` | internal/processor/adaptiveheadsampler/processor.go:1096-1157 | the loop finds the values, whether weights agree on the fields seen, and whether a required field is missing |
| `RecordId.BuildWeighted` | internal/processor/adaptiveheadsampler/processor.go:1204-1219 | the built text is the values, each repeated by its rounded-up weight, joined by colons |
| `RecordId.CreateRecordId` | internal/processor/adaptiveheadsampler/processor.go:1093-1219 | the method computes the specified identifier, with the fallback |
| `RecordId.GatheredInOrder` | internal/processor/adaptiveheadsampler/processor.go:1096-1157 | the fields contribute in their order: each its own text, or its default for a missing or empty one, with its weight and name, or nothing |
| `RecordId.BlockedIff` | internal/processor/adaptiveheadsampler/processor.go:1132-1147 | a record is blocked exactly if some required field has no text or an empty one |
| `RecordId.EqualWeightsSpelledOut` | internal/processor/adaptiveheadsampler/processor.go:1179-1192 | with equal weights the identifier is the values joined in alphabetic order |
| `RecordId.DifferingWeightsSpelledOut` | internal/processor/adaptiveheadsampler/processor.go:1193-1219 | with differing weights the values stand in order of falling weight, those of one weight by field name, each repeated by its weight |
| `RecordId.LessEqIff` | internal/processor/adaptiveheadsampler/processor.go:1180-1202 | one text is not after another exactly if it is a beginning of it or smaller at the first difference |
| `RecordId.RepeatedByWeight` | internal/processor/adaptiveheadsampler/processor.go:1204-1219 | the copies of one value are as many as the least natural number that is at least its weight, and those of several values follow one another |
| `RecordId.DecimalReads` | internal/processor/adaptiveheadsampler/processor.go:1158-1176 | the text of a timestamp has digits only, no leading zero, and reads as the number |
| `RecordId.JoinInjective` | internal/processor/adaptiveheadsampler/processor.go:1180-1191 | values without colons can be read back from the joined text |
| `RecordId.EqualWeightsCanonical` | internal/processor/adaptiveheadsampler/processor.go:1179-1192 | with equal weights the identifier depends only on the multiset of values and, without colons, determines it |
| `RecordId.OrderIrrelevant` | internal/processor/adaptiveheadsampler/processor.go:1093-1219 | the identifier does not depend on the configured order of fields if weights are equal or no two values collected from the record tie |
| `RecordId.OneTextIff` | internal/processor/adaptiveheadsampler/processor.go:1194-1219 | for values without colons and positive weights, all sorted arrangements give one text if and only if no two different values tie in weight and field name |
| `RecordId.TiesAreAmbiguous` | internal/processor/adaptiveheadsampler/processor.go:1093-1219 | a record and a configuration whose values can be sorted in two ways with different identifiers |
| `RecordId.ColonsCollide` | internal/processor/adaptiveheadsampler/processor.go:1187-1191 | one value with a colon and two values without can give the same text |
| `RecordId.MissingRequiredIsRandom` | internal/processor/adaptiveheadsampler/processor.go:1158-1192 | with a required field missing, or no value at all, the identifier is the timestamp and the random number, in one of two orders |
| `RecordId.DefaultIdIsTheMessageIff` | internal/processor/adaptiveheadsampler/processor.go:870-890 | with the built-in fields the identifier is the message alone if and only if neither of the two attribute paths leads to a text |
| `RecordId.DefaultIdIsTheMessage` | internal/processor/adaptiveheadsampler/processor.go:870-890 | and so it is for every record with plain attributes |
| `Sorting.SortedUnique` | internal/processor/adaptiveheadsampler/processor.go:1187-1202 | without ties any sorted rearrangement is the same, so the library's choice of algorithm does not matter |
| `LogSampler.CriticalWins` | internal/processor/adaptiveheadsampler/processor.go:1014-1030 | no critical record of a batch is lost and their order stays, under any filters, fields, probability and random numbers; a filter that excludes everything leaves exactly them |
| `LogSampler.FirstFilterWins` | internal/processor/adaptiveheadsampler/processor.go:1299-1348 | the first matching filter decides: it keeps, drops, or has its own probability decide; the given probability and the later filters change nothing |
| `LogSampler.NoFilterMatches` | internal/processor/adaptiveheadsampler/processor.go:1014-1090 | a record that shows a critical pattern is kept; otherwise, with no filter matching, the given probability decides |
| `LogSampler.BareKeepsBelow` | internal/processor/adaptiveheadsampler/processor.go:1222-1235 | with no pattern and no filter a record is kept if and only if the hash of its identifier is below the threshold of the probability |
| `LogSampler.CriticalIff` | internal/processor/adaptiveheadsampler/processor.go:1239-1295 | a record is critical exactly if it has the field of some pattern with a text that matches |
| `LogSampler.FlattenParts` | internal/processor/adaptiveheadsampler/processor.go:1009-1020 | flattening a batch gives every record, in order, with its own resource and scope |
| `LogSampler.FieldOrderIrrelevant` | internal/processor/adaptiveheadsampler/processor.go:1093-1235 | reordering the identifying fields changes no decision if weights are equal or every two fields differ in weight or name |
| `LogSampler.KeptGrows` | internal/processor/adaptiveheadsampler/processor.go:997-1090 | with deterministic identifiers the records kept at one probability are a subsequence of those kept at any higher one |
| `LogSampler.FastPathKeepsAll` | internal/processor/adaptiveheadsampler/processor.go:1003-1006 | at full probability without filters deciding record by record keeps everything, like the fast path |
| `Choices.ChooseExact` | internal/processor/adaptiveheadsampler/processor.go:1014-1072 | keeping by decision is an order-preserving filter: exactly the positions decided on, each once, in order |
| `LogSampler.LogProcessor.CheckCriticalLogPatterns` | internal/processor/adaptiveheadsampler/processor.go:1239-1295 | true exactly if some pattern's field exists and matches |
| `LogSampler.LogProcessor.CheckContentFilters` | internal/processor/adaptiveheadsampler/processor.go:1299-1347 | the first filter whose field exists and matches, if any |
| `LogSampler.LogProcessor.ProcessLogs` | internal/processor/adaptiveheadsampler/processor.go:997-1090 | the batch comes out as the filtered one with resource and scope kept, fast path included, and total is kept plus rejected |
| `LogSampler.CountLogRecords` | internal/processor/adaptiveheadsampler/processor.go:1351-1361 | counts the records of a batch |
| `CircuitBreaker.StateIsHistory` | internal/processor/fallbackprocparser/processor.go:1049-1105 | the counter is the length of the current run of bad results, the circuit is open exactly when it is at least three, until the third plus the cooldown |
| `CircuitBreaker.DeniedIff` | internal/processor/fallbackprocparser/processor.go:1013-1040 | an operation is denied exactly before the third bad result of the current run plus the cooldown |
| `CircuitBreaker.OneMoreResult` | internal/processor/fallbackprocparser/processor.go:1049-1105 | after any history a success within the threshold closes the circuit and forgets the run; a failure or a slow success lengthens the run, closes nothing, and opens the circuit exactly if it is the third |
| `CircuitBreaker.DisabledAllowsAll` | internal/processor/fallbackprocparser/processor.go:1013-1060 | a disabled breaker allows everything and counts nothing |
| `CircuitBreaker.TripsAndCloses` | internal/processor/fallbackprocparser/processor.go:1069-1104 | one trip per run of bad results that reached three; trips minus closes is 1 when open and 0 when closed |
| `CircuitBreaker.FailedTestsDoNotReopen` | internal/processor/fallbackprocparser/processor.go:1069-1088 | once the cooldown has passed, bad results alone never block again |
| `CircuitBreaker.DocumentedIsHistory` | docs/CIRCUIT_BREAKER.md:55-60 | by the documented rule the circuit is open exactly if three results in a row of the current run are all slow or all failed |
| `CircuitBreaker.OpenAgreeIff` | docs/CIRCUIT_BREAKER.md:55-60 | the code's circuit is open whenever the documented one is; both agree if and only if the run is shorter than three or has three in a row of one kind |
| `CircuitBreaker.AgreedInRunIff` | docs/CIRCUIT_BREAKER.md:55-60 | they have agreed since the run began if and only if it is shorter than three or its first three results are all slow or all failed |
| `CircuitBreaker.MixedRunOpens` | internal/processor/fallbackprocparser/processor.go:1057-1076 | slow, failed, slow opens the circuit, but not by the documented rule |
| `CircuitBreaker.Breaker.AllowOperation` | internal/processor/fallbackprocparser/processor.go:1013-1040 | answers as the state and the time say; always yes when disabled |
| `CircuitBreaker.Breaker.RecordOperationResult` | internal/processor/fallbackprocparser/processor.go:1049-1105 | takes the specified step and stays a function of the history |
| `ProcCache.ReadsApart` | internal/processor/fallbackprocparser/processor.go:374-449 | on every sequential run two real lookups of a key are at least one time to live apart |
| `ProcCache.CachedAnswerIsFresh` | internal/processor/fallbackprocparser/processor.go:380-399 | every cached answer is the latest real lookup's and was stored less than one time to live ago |
| `ProcCache.HitIff` | internal/processor/fallbackprocparser/processor.go:380-399 | on every sequential run a call is answered from the cache if and only if its key was read less than one time to live ago |
| `ProcCache.BreakerIsReported` | internal/processor/fallbackprocparser/processor.go:401-425 | the breaker is told of exactly the real lookups, in order, with their duration and whether they found something |
| `ProcCache.ReadsIff` | internal/processor/fallbackprocparser/processor.go:380-409 | a call not answered from the cache goes through to a real lookup unless the lookups before it end in three or more bad results whose third is not yet one cooldown old |
| `ProcCache.LookupAnswers` | internal/processor/fallbackprocparser/processor.go:374-449 | the answers to one real lookup, its own and the later cached ones, for each kind and outcome |
| `ProcCache.BlockedAnswer` | internal/processor/fallbackprocparser/processor.go:401-409 | a blocked call gets an error, for a user the fallback |
| `ProcCache.UidOfIff` | internal/processor/fallbackprocparser/processor.go:466-473 | the user is the second field of the first line that begins with "Uid:" and has two fields |
| `ProcCache.UnreadLeavesNoTrace` | internal/processor/fallbackprocparser/processor.go:380-409 | a call answered from the cache or blocked leaves no trace: without it every later call of the run gets the same answer |
| `ProcCache.OwnerOrFallback` | internal/processor/fallbackprocparser/processor.go:456-490 | the owner is a name found within the time to live or the `uid:` fallback, the same whether the failure is fresh, remembered, empty or blocked |
| `ProcCache.FallbackParser.FetchCommandLine` | internal/processor/fallbackprocparser/processor.go:374-449 | answer and new state of the command-line lookup, in every branch |
| `ProcCache.FallbackParser.FetchExecutablePath` | internal/processor/fallbackprocparser/processor.go:659-734 | answer and new state of the executable-path lookup |
| `ProcCache.FallbackParser.ResolveUidToUsername` | internal/processor/fallbackprocparser/processor.go:561-643 | answer and new state of the user lookup, with its fallbacks and the empty user identifier |
| `ProcCache.FallbackParser.FetchOwner` | internal/processor/fallbackprocparser/processor.go:456-496 | the owner from the first line that names a user, errors replaced by the fallback |

## Left out

- Library algorithms the code relies on (the least-recently-used cache, sift-up and sift-down of the heap, sorting, hashing, pattern matching, protobuf) are modelled by their known behaviour, or taken as fixed functions where only that matters.
- The cache key is modelled as the pair of identifiers; `SpanKeyInjective` shows that the text key tells apart the same spans.  The span's own copy of resource and scope is a value, so deep copying is not visible.
- The buffer pool: buffers are cut to length zero before they are returned, so taking one from the pool is taking an empty one.  The 64-bit wrap-around of the trace counter is not modelled.
- Random draws are inputs (`draw(i)` below i, the text of a random number per record), and so are clock readings; one reading stands for the several of one call where they bound the same moment.
- SetK: changes the capacity only; the laws about the cache of 2k entries are for the k it was built with, because the code does not resize the cache.
- The reservoir's path that is not trace-aware, compaction, disk checks and the database itself: storage is a value that holds what was put into it.
- Metrics, logging, tickers, HTTP scraping and configuration checks: they enter as inputs or premises only.  The counters of matched patterns and filters are left out; those of processed and rejected records are not.
- IsInTopN: the fallbacks for a missing identifier set cannot be reached, because the set is created with the processor and never removed.
- Data races on the cached selection and on the capacity: those two are described at the boundaries of methods.  The worker pools and the overlap of a flush with later additions are interleaved step by step.
- CollectUpdates: the second at which a message is applied is an input per resource, so two messages applied in the other order keep their seconds.
- The heap's slice is a field that methods reassign; the array algorithm works in place.
- The head sampler registers one copy of its state and uses another; one shared probability is modelled, as intended.  Its output for traces is left out, because scopes are attached to an object that is thrown away, and so is the mode in which the hash seeds a random generator.
- Numbers are exact reals.  The conversion of the largest word to floating point gives the word size, and that is the divisor in the threshold test.
- ProcessLogs: reads the probability once for a batch, although the code reads it again for every record; without concurrent changes the two agree.
- FetchOwner: the lines of the status file and their fields are inputs; the I/O statistics, which have a breaker but no cache, are left out.
- The initial probability of a sampler need not lie within its limits; the closed forms start from one that does, and one control cycle brings any there (`StaysRegular`).
- `processor_new.go`, `processor_optimized.go` and the metric batching of the top-N filter: variants that would only add easier members.
