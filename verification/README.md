# Detection pipeline: a verified model

This project models the stateful core of the detection pipeline in Dafny and proves what the
pipeline relies on. It covers, from the inside out:

- **Hand-off between threads.** The lock-free single-producer single-consumer ring, with acquire
  loads that may return stale values; the locked ring; the thread pool with its mutex, condition
  variable and stop flag; and the consumer and processor loops of the stream processor. Each is a
  transition system (the locked ring a class), and every theorem quantifies over all interleavings.
- **Correlation.** The rule engine with its pruned time windows, thresholds, reset on alert and
  background cleanup, against a declarative reading of each key's stream of matches.
- **Event windows.** Tumbling, sliding, session and hopping windows, and expiry.
- **Hot storage.** The MemTable, and the SSTable that a flush writes: its byte layout, offsets,
  bloom filter, index and footer, and reading all of it back.
- **Flow tracking.** Both directions of a conversation in one flow, eviction and expiry, and online
  statistics against batch statistics over the reals.
- **Codecs and parsers.** NetFlow v9 and IPFIX with their template caches, YAML flattening, RFC 5424
  syslog, base64 and hexadecimal.

Code that updates objects or runs loops is a class or a method with loop invariants, tied by its
`ensures` to a specification function; the theorems are about those functions. Concurrent parts are
transition systems, because their subject is the order of steps. `dafny verify dfyconfig.toml`
checks the whole project.

## Where the code and its comments part

The model follows the code. Where the promise fails, a theorem says exactly when, or a lemma gives
the input:

- `~LockFreeCircularBuffer` walks from head to tail, over the free slots: it is right exactly when
  the buffer is empty (`SpscRing.DestructorCorrectIffEmpty`).
- `ConcurrentRingBuffer(0)` passes the power-of-two test and has no slot
  (`ConcurrentRing.AcceptedCapacities`).
- `StreamProcessor` commits offsets when a batch is enqueued, although the comment says processed,
  and `stop` drains nothing (`Pipeline.CommittedYetLost`, `Pipeline.StopLosesExactlyTheRest`,
  `PipelineStop.StopSafeIff`).
- A thread pool asked for `hardware_concurrency()` workers may get none, and then starts nothing
  (`ThreadPool.NoWorkersNoProgress`).
- Cleanup in the correlation engine may lose an alert when the clock runs backwards: a cleanup is
  visible to a key's next match exactly when it erases a time still inside that match's window
  (`CorrelationRuns.CleanupVisibleIffLate`, `CorrelationRuns.LateMatchLosesAlert`); a run in which
  none does raises the alerts of the run without cleanups (`CleanupRuns.HarmlessTransparent`), and
  no run does whose clock goes forwards (`CleanupRuns.ClockedIsHarmless`). For matches that
  arrive out of order, front-only pruning may count a match outside the window and may lose one
  inside it (`CorrelationKey.WindowExactIff`, `CorrelationKey.OutOfOrderBothWays`).
- `SSTable::create` stores the end of the data as `index_offset`, while the reader takes it for the
  start of the index. Where every record is shorter than 4 GiB, the file as written opens back when
  the bloom block is empty and every key is shorter than 4 GiB (`Reopen.ReopensIff`); with a bloom
  block it needs a coincidence, which `ReopenOrder.ReopenIndexIff` names exactly and which never
  happens for a table of one entry or, while its data is short, of a few
  (`ReopenOrder.FewNeverReopen`, `ReopenOrder.OneEntryNeverReopens`); with the footer repaired it
  does for every bloom block (`Reopen.RepairedReopensIff`). The layout comment in
  `read_bloom_filter` names the blocks in another order than `create` writes them. The magic number
  is not a valid literal; any constant does.
- `current_offset` adds 32-bit lengths in 32-bit arithmetic, so a record of 4 GiB leaves the next
  key's offset wrong (`SSTables.OffsetExactIff`, `Flush.LongRecordLosesNextKey`).
- Tumbling windows are never cleared after they are emitted, so their counts are cumulative
  (`TumblingRuns.ConservedIff`, `WindowRuns.TumblingCumulative`).
- Milliseconds are truncated towards zero, so an event before 1970 falls into the tumbling window
  behind its own (`WindowTimes.TumblePlace`).
- A session ends at its last event, so expiry may close it before the gap timeout
  (`Sessions.SplitIff`, `Sessions.ExpiryCutsEarly`).
- A direction's inter-arrival times are skipped while its last time is not positive
  (`FlowStatistics.GuardedIff`).
- `mean_header_len` is the constant 20, while that many bytes a packet fit in 64 bits
  (`FlowStatistics.HeaderLenTwenty`).
- A NetFlow set of length zero keeps the parser in a loop for ever, and so does a data set whose
  template has records of no bytes, if what the code reads for its fields lies inside the packet
  (`NetFlowLoops.RunsForeverIff`). A one-byte field or an address is read at its offset
  whatever its declared length. The model uses the code's field numbers; 10, 11 and 12 differ from
  section 8 of RFC 3954.
- `to_yaml` writes values as they are, so a value with a comment sign, quotes or blanks around it
  does not come back (`Configuration.YamlRoundTripIff`, `Configuration.GotIff`).
- Syslog structured data that ends the message, as section 6 of RFC 5424 allows, is read as the
  message text (`SyslogFormat.RoundTripIff`).
- The RFC 3164 tag keeps a process id in brackets, because the tag only ends at a blank or a colon
  (`SyslogFormat.TagKeepsPid`).

## Model

| member | source | states |
|---|---|---|
| `Bits.PowerOfTwoTest` | collectors/common/include/aiguard/common/circular_buffer.h:23-24 | the bit test of the static assertion accepts exactly the powers of two among the positive capacities |
| `Bits.MaskIsMod` | collectors/common/include/aiguard/common/circular_buffer.h:116 | masking with capacity - 1 is the remainder by the capacity |
| `Bits.SizeMask` | collectors/common/include/aiguard/common/circular_buffer.h:109 | the masked unsigned difference of two indices is the number of slots from tail round to head, even where the 64-bit subtraction wraps |
| `SpscRing.StepInv` | collectors/common/include/aiguard/common/circular_buffer.h:50-90 | every single load, construction, move, destruction and store keeps the protocol invariant, whichever sufficiently recent value an acquire load returns |
| `SpscRing.FifoSafety` | collectors/common/include/aiguard/common/circular_buffer.h:48-90 | in every interleaving with stale acquire loads: the elements pushed are, for every store of head_, the argument of the latest call begun before it; what has been popped, and what is about to be returned, are the first of these, as many as there are stores of tail_; at most capacity - 1 are held, and no slot is accessed out of range or in the wrong lifetime state |
| `SpscRing.RaceFreedom` | collectors/common/include/aiguard/common/circular_buffer.h:54-88 | the two threads are never at one slot, and every slot access comes after a load of the store that published the peer's last access to it |
| `SpscRing.Lifetimes` | collectors/common/include/aiguard/common/circular_buffer.h:58-88 | one construction per stored push and one destruction per stored pop, none on a slot in the wrong state |
| `SpscRing.AdmissionExact` | collectors/common/include/aiguard/common/circular_buffer.h:54-84 | a stale view can only refuse a push or find nothing to pop; with the newest value both answers are exact |
| `SpscRing.WaitFree` | collectors/common/include/aiguard/common/circular_buffer.h:50-90 | whatever the other thread does, a thread in a call can take its next step, and a call takes at most four steps of its own, or five |
| `SpscRing.ObserversExact` | collectors/common/include/aiguard/common/circular_buffer.h:92-110 | size, empty and full agree with the number of elements held when both indices are current |
| `SpscRing.DestructorCorrectIffEmpty` | collectors/common/include/aiguard/common/circular_buffer.h:32-41 | the destructor only ever visits raw slots, so it destroys exactly the remaining elements if and only if there are none |
| `ConcurrentRing.AcceptedCapacities` | collectors/common/include/aiguard/common/circular_buffer.h:128-134 | the constructor lets through exactly the powers of two and zero; a zero capacity passes the full test of the first push |
| `ConcurrentRing.AfterPush` | collectors/common/include/aiguard/common/circular_buffer.h:136-145 | a push is refused exactly when capacity - 1 elements are held, and otherwise appends to the contents, round the end of the buffer too |
| `ConcurrentRing.AfterPop` | collectors/common/include/aiguard/common/circular_buffer.h:147-155 | a pop removes exactly the oldest element |
| `ConcurrentRing.ConcurrentRingBuffer.constructor` | collectors/common/include/aiguard/common/circular_buffer.h:128-134 | an accepted positive capacity gives an empty queue |
| `ConcurrentRing.ConcurrentRingBuffer.TryPush` | collectors/common/include/aiguard/common/circular_buffer.h:136-145 | refines a FIFO bounded by capacity - 1: appends, or refuses and changes nothing |
| `ConcurrentRing.ConcurrentRingBuffer.TryPop` | collectors/common/include/aiguard/common/circular_buffer.h:147-155 | refines a FIFO: takes the head, or reports nothing exactly when empty |
| `ConcurrentRing.ConcurrentRingBuffer.Size` | collectors/common/include/aiguard/common/circular_buffer.h:157-160 | the masked unsigned difference is the queue length |
| `ConcurrentRing.ConcurrentRingBuffer.Empty` | collectors/common/include/aiguard/common/circular_buffer.h:162-165 | true exactly when the queue is empty |
| `Pipeline.Conservation` | engine/correlation/src/stream_processor.cpp:124-206 | over any threads and interleaving, push retries included: each event consumed is in exactly one of a consumer's hand, the ring, a processor's hand, processed or dropped; each event of the batches polled is consumed or still in a batch; the ring hands over what was pushed in order and is bounded; nothing is dropped while running |
| `Pipeline.OrderKept` | engine/correlation/src/stream_processor.cpp:124-152 | each consumer enqueues or gives up the events of the batches it polled in their order |
| `Pipeline.NeverBlocked` | engine/correlation/src/stream_processor.cpp:124-206 | a consumer or processor that has not left its loop can always take a step |
| `Pipeline.StopLosesExactlyTheRest` | engine/correlation/src/stream_processor.cpp:104-114 | once all threads have ended, an event was processed as often as it was polled if and only if it is neither in the ring nor dropped |
| `PipelineStop.StopSafeIff` | engine/correlation/src/stream_processor.cpp:104-206 | after any run up to stop(): every way the threads can end from there processes everything polled if and only if, when running_ is cleared, no consumer is polling or has an event in its hand or batch, and the ring holds no more events than there are processors about to pop |
| `Pipeline.CommittedYetLost` | engine/correlation/src/stream_processor.cpp:147-153 | a run that commits an event's offset and never processes it |
| `ThreadPool.InOrderAndNeverStuck` | collectors/common/include/aiguard/common/thread_pool.h:31-57 | over all runs: exactly the tasks submitted before the first shutdown start, in that order and once each; every task begun is finished or in a worker's hand; a submit is never held up; and no state has work or stop pending with every live worker asleep and no notification to come |
| `ThreadPool.ExitedMeansDrained` | collectors/common/src/thread_pool.cpp:28-32 | when all of at least one worker have exited, exactly the tasks submitted before shutdown have started, in order, and have finished |
| `ThreadPool.NoWorkersNoProgress` | collectors/common/src/thread_pool.cpp:14-19 | with no worker no task ever starts |
| `ThreadPool.MeasureDrops` | collectors/common/src/thread_pool.cpp:49-61 | after stop every step either lowers a measure on queue, workers and notifications or changes nothing |
| `ThreadPool.CanMove` | collectors/common/src/thread_pool.cpp:24-33 | while a worker is live and there is work or stop is set, some step is enabled |
| `ThreadPool.ShutdownDrains` | collectors/common/src/thread_pool.cpp:49-61 | after stop a run makes boundedly many moves, and one that cannot move has all workers exited and every task submitted before shutdown finished |
| `ThreadPool.SubmissionsClosed` | collectors/common/include/aiguard/common/thread_pool.h:31-57 | after stop no submission is accepted |
| `CorrelationKey.SinceMeaning` | engine/correlation/src/correlation_engine.cpp:243-245 | the reference point of a match is directly behind the last alert of its key |
| `CorrelationKey.WindowIsSinceLastAlert` | engine/correlation/src/correlation_engine.cpp:189-200 | for matches in time order, the incrementally pruned list is the pruning of all matches since the last alert |
| `CorrelationKey.AlertExact` | engine/correlation/src/correlation_engine.cpp:189-246 | for matches in time order, a match alerts if and only if the matches since the last alert within its window number at least the threshold |
| `CorrelationKey.MatchCountExact` | engine/correlation/src/correlation_engine.cpp:219-232 | for times in any order, match_count of an alert is max(1, threshold) if and only if the threshold is positive or the window is not negative |
| `CorrelationKey.MatchCountBounded` | engine/correlation/src/correlation_engine.cpp:219-232 | match_count never exceeds max(1, threshold), even out of order |
| `CorrelationKey.NoMissedDetection` | engine/correlation/src/correlation_engine.cpp:195-246 | for matches in time order, any span no longer than the window with at least threshold matches contains an alert |
| `CorrelationKey.WindowAnyOrder` | engine/correlation/src/correlation_engine.cpp:189-200 | for times in any order, the window of a match starts at the first match since the last alert that lies within the window of every match from itself to this one, and holds all from there on |
| `CorrelationKey.WindowExactIff` | engine/correlation/src/correlation_engine.cpp:189-200 | for times in any order, the window of a match holds exactly the matches since the last alert that lie within it if and only if each of those lies within it exactly when it stands at or behind one that lies within the window of every match from itself on |
| `CorrelationKey.OutOfOrderBothWays` | engine/correlation/src/correlation_engine.cpp:196-200 | out of order both errors occur: one stream that alerts on too few matches, one that does not on enough |
| `CorrelationKey.ErasureVisibleIff` | engine/correlation/src/correlation_engine.cpp:291-297 | for any stored times, forgetting them leaves the next window as it is if and only if all of them lie before it |
| `Correlation.PruneFront` | engine/correlation/src/correlation_engine.cpp:196-200 | the erase loop drops exactly the leading times before the window |
| `Correlation.CorrelationEngine.MatchRule` | engine/correlation/src/correlation_engine.cpp:177-246 | the critical section for one matching rule: new state, alert and counters; an alert's key is the value of the rule's field in the event, or `_global_` without one |
| `Correlation.CorrelationEngine.ProcessEvent` | engine/correlation/src/correlation_engine.cpp:164-250 | one event is the run of its rules in order; counters match the alerts returned |
| `Correlation.CorrelationEngine.CleanupExpired` | engine/correlation/src/correlation_engine.cpp:276-299 | removes exactly the keys last seen before their rule's cutoff and touches nothing else |
| `Correlation.SweepRule` | engine/correlation/src/correlation_engine.cpp:291-297 | the erase loop keeps exactly the unexpired keys |
| `CorrelationRuns.RunAgrees` | engine/correlation/src/correlation_engine.cpp:164-299 | after any run that is in time order for a key's matches and the cleanups, whatever the order of all other matches, the stored times of the key agree with its sub-stream's up to what any later window prunes |
| `CorrelationRuns.RunTracks` | engine/correlation/src/correlation_engine.cpp:174-247 | without cleanups, for times in any order, the stored times of a key are exactly those its own sub-stream leaves |
| `CorrelationRuns.EngineAlertExact` | engine/correlation/src/correlation_engine.cpp:174-247 | alert exactness in the whole engine, with the window in milliseconds: for the matches with the event's own value of the rule's field (`_global_` without one), when these and the cleanups come in time order; all others may come in any order |
| `CorrelationRuns.AlertsDependOnStreamOnly` | engine/correlation/src/correlation_engine.cpp:177-246 | the alerts of a rule under a key are a function of the matches alone whose value of the rule's field is that key: for times in any order without cleanups, and otherwise when these and the cleanups are in time order |
| `CorrelationRuns.CleanupTransparent` | engine/correlation/src/correlation_engine.cpp:276-299 | when the clock does not run backwards over any one key's matches and the cleanups, a run with cleanups anywhere raises the same alerts (serial, rule, key, timestamp, count) as without |
| `CorrelationRuns.CleanupVisibleIffLate` | engine/correlation/src/correlation_engine.cpp:289-293 | for any clock and any stored times: a cleanup leaves a key's next window as it is if and only if it spares the key or all its times lie before that window |
| `CorrelationRuns.LateMatchLosesAlert` | engine/correlation/src/correlation_engine.cpp:289-293 | for any threshold, stored list and window that is not negative: a match alerts without and not with a cleanup before it if and only if the cleanup erases the key, the threshold is above one, and the times still held would have reached it |
| `CorrelationTriggers.AlertsNeverMix` | engine/correlation/src/correlation_engine.cpp:177-242 | in any run with cleanups, the events an alert carries are matches of its rule that all have the same value of the rule's field, its key, or all none |
| `CorrelationTriggers.TriggeringExact` | engine/correlation/src/correlation_engine.cpp:203-245 | without cleanups, for times in any order: an alert carries the first hundred matches of its rule and key since the last alert, the one that raised it included |
| `CorrelationTriggers.CleanupRemoves` | engine/correlation/src/correlation_engine.cpp:276-299 | a key leaves exactly when it was last seen more than its rule's window, in milliseconds, or a minute for a rule that is gone, before the cleanup; the others stay as they are |
| `CleanupRuns.HarmlessTransparent` | engine/correlation/src/correlation_engine.cpp:276-299 | for any clock: if no match comes after a cleanup that found its key expired while a match of that key still lies in its window, the run raises the same alerts (serial, rule, key, timestamp, count) as without cleanups |
| `CleanupRuns.ClockedIsHarmless` | engine/correlation/src/correlation_engine.cpp:276-299 | that holds of every run whose clock does not run backwards over a key's matches and the cleanups |
| `CorrelationRuns.RunConcat` | engine/correlation/src/correlation_engine.cpp:252-259 | runs compose, so a sequence of calls is one run over all their actions |
| `Bytes.LERoundTrip` | storage/hot/src/sstable.cpp:147-153 | little-endian fields are read back |
| `Bytes.LessIff` | storage/hot/src/memtable.cpp:49-50 | the order of std::string by position: a proper prefix comes first, and otherwise the smaller byte where they first differ |
| `Bytes.PrefixContiguous` | storage/hot/src/memtable.cpp:70-71 | keys with a prefix are contiguous from the prefix on in the order of std::string |
| `OrderedRows.LookupFinds` | storage/hot/src/memtable.cpp:27-33 | lower_bound in a sorted map finds exactly the row of a key |
| `OrderedRows.PutLookup` | storage/hot/src/memtable.cpp:17-21 | assignment changes what its own key finds and nothing else |
| `MemTables.OutsideNothing` | storage/hot/src/memtable.cpp:45-85 | scanning from lower_bound to the first key past the query misses no match |
| `MemTables.MemTable.constructor` | storage/hot/src/memtable.cpp:7 | a new table is empty |
| `MemTables.MemTable.Put` | storage/hot/src/memtable.cpp:9-25 | admitted exactly when the size fits; then the key finds the value and other keys what they did; the live footprint stays at most current_size, that at most max_size |
| `MemTables.MemTable.Get` | storage/hot/src/memtable.cpp:27-33 | the live value of the key, nothing for a tombstone |
| `MemTables.MemTable.Remove` | storage/hot/src/memtable.cpp:35-43 | afterwards the key finds nothing, other keys what they did; the accounting invariant is kept |
| `MemTables.MemTable.Range` | storage/hot/src/memtable.cpp:45-64 | the first limit live entries in key order with start <= key < end: by position the keys ascend and lie there, each entry shows a live row, and no live row there is missing but past the limit |
| `MemTables.MemTable.PrefixScan` | storage/hot/src/memtable.cpp:66-85 | the same for the keys that start with the prefix |
| `MemTables.MemTable.GetAll` | storage/hot/src/memtable.cpp:87-103 | every entry with all its members, in key order by position, tombstones included |
| `MemTables.MemTable.Clear` | storage/hot/src/memtable.cpp:110-114 | empties the table and its accounting |
| `Bloom.NoFalseNegatives` | storage/hot/src/sstable.cpp:39-54 | a key that was added is always reported as possibly present, for any hash |
| `Bloom.OnlyKeys` | storage/hot/src/sstable.cpp:42-54 | a filter of just enough bytes has the three bits of each of its keys set, and no other |
| `Bloom.NotBlank` | storage/hot/src/sstable.cpp:46-53 | a filter with a key in it has a bit set |
| `Bloom.SetKey` | storage/hot/src/sstable.cpp:48-52 | the seed loop sets the key's three bits and keeps all others |
| `Records.ReadWritten` | storage/hot/src/sstable.cpp:136-153 | reading a record where an entry was written gives the entry, lengths cut to 32 bits and the time less than a microsecond off, towards zero |
| `SSTables.OffsetExactIff` | storage/hot/src/sstable.cpp:133-156 | the booked offsets are the true ones exactly while every record so far is shorter than 4 GiB |
| `SSTables.IndexAscends` | storage/hot/src/sstable.cpp:144 | for ascending keys the index lists every entry at its offset |
| `SSTables.ReadIndex` | storage/hot/src/sstable.cpp:83-92 | the reading loop gives the map built from the rows in the index block, or fails where a read runs past the end |
| `SSTables.SSTable.Create` | storage/hot/src/sstable.cpp:118-198 | the file bytes, index and filter that create leaves |
| `SSTables.SSTable.WriteData` | storage/hot/src/sstable.cpp:131-156 | the data block, the index over it and the running offset |
| `SSTables.SSTable.WriteBloomFilter` | storage/hot/src/sstable.cpp:39-54 | ten bits per key, three hashes, unchanged for no keys |
| `SSTables.SSTable.WriteIndex` | storage/hot/src/sstable.cpp:169-185 | appends the index block and the footer |
| `SSTables.SSTable.ReadBloomFilter` | storage/hot/src/sstable.cpp:56-98 | open rebuilds exactly the table the file's footer describes |
| `SSTables.SSTable.MightContain` | storage/hot/src/sstable.cpp:100-111 | true exactly when the filter is absent or has all three bits of the key |
| `SSTables.SSTable.Get` | storage/hot/src/sstable.cpp:216-250 | the point read through filter, index and record |
| `SSTables.SSTable.Range` | storage/hot/src/sstable.cpp:252-287 | the range read through the index, ending early at an unreadable record |
| `Flush.CreatedRecord` | storage/hot/src/sstable.cpp:131-156 | every record of a created file can be read back at its true offset |
| `Flush.GetAgreesIff` | storage/hot/src/sstable.cpp:216-250 | for tables in which no record but the last reaches 4 GiB: the flushed table answers every get like the MemTable exactly when every live key and value is shorter than 4 GiB |
| `Flush.RangeAgreesIff` | storage/hot/src/sstable.cpp:252-287 | for the same tables: and every range, for every start, end and limit, to the microsecond |
| `Flush.FlushedRange` | storage/hot/src/sstable.cpp:252-287 | under the same condition, while live keys are shorter than 4 GiB, the keys a range returns ascend by position and are those of the live rows from start to before end, up to the limit |
| `Flush.LongRecordLosesNextKey` | storage/hot/src/sstable.cpp:155 | a first record of exactly 4 GiB loses the second key |
| `Flush.FlushPreservesReads` | storage/hot/src/sstable.cpp:118-287 | for every MemTable that put, remove and clear can leave, of at most 4 GiB and without a tombstone key near 4 GiB: the table created from get_all gives the same get for every key and the same range for every start, end and limit |
| `Reopen.ReadRowsBack` | storage/hot/src/sstable.cpp:82-92 | parsing a written index block from any row gives the rows from there on |
| `Reopen.OpenIff` | storage/hot/src/sstable.cpp:56-98 | a file whose footer points at its index opens back to its table exactly when all keys are shorter than 4 GiB |
| `Reopen.ReopensIff` | storage/hot/src/sstable.cpp:118-187 | as the code stands, with an empty bloom block and every record shorter than 4 GiB: open after create gives the same table exactly when all keys are shorter than 4 GiB |
| `Reopen.RepairedReopensIff` | storage/hot/src/sstable.cpp:163-187 | the repair index_offset = data end + bloom size, with every record shorter than 4 GiB: the same for every bloom block |
| `ReopenOrder.IndexReadIff` | storage/hot/src/sstable.cpp:82-92 | reading at any offset gives a map if and only if its keys are shorter than 4 GiB and its rows stand there in some order |
| `ReopenOrder.ReopenIndexIff` | storage/hot/src/sstable.cpp:118-187 | as the code stands, for any entries with every record shorter than 4 GiB, bloom filter and hash: open gives create's index back if and only if all keys are shorter than 4 GiB and the bytes behind the data, the bloom block first, begin with the index rows in some order; and create's whole table if and only if the data also ends in the bytes of the bloom block |
| `ReopenOrder.StandsBalanced` | storage/hot/src/sstable.cpp:82-92 | index rows can be read, in any order, where the bloom block starts only if that block has the bytes of the end of the index block, in some order |
| `ReopenOrder.FewNeverReopen` | storage/hot/src/sstable.cpp:118-187 | with records shorter than 4 GiB, no table whose bloom block has b <= 8 bytes and whose last offset is below 256^(8 - b) opens back to its index, for any hash |
| `ReopenOrder.OneEntryNeverReopens` | storage/hot/src/sstable.cpp:163-176 | as the code stands, one entry shorter than 4 GiB with its bloom filter never opens back to its index, for any hash |
| `Decimal.KeyInjective` | engine/correlation/src/event_windows.cpp:241 | the string key of a window determines its group and number, whatever characters the group has |
| `EventWindows.EventWindowManager.AddWindow` | engine/correlation/src/event_windows.cpp:12-17 | specifications are kept in the order they were added |
| `EventWindows.EventWindowManager.ProcessTumbling` | engine/correlation/src/event_windows.cpp:99-147 | one event in a tumbling window, with what is emitted |
| `EventWindows.EventWindowManager.ProcessSliding` | engine/correlation/src/event_windows.cpp:149-173 | one event in a sliding window |
| `EventWindows.EventWindowManager.ProcessSession` | engine/correlation/src/event_windows.cpp:175-221 | one event in a session window, with what is emitted |
| `EventWindows.EventWindowManager.ProcessHopping` | engine/correlation/src/event_windows.cpp:223-264 | one event in its hopping windows |
| `EventWindows.EventWindowManager.ProcessEvent` | engine/correlation/src/event_windows.cpp:266-287 | every specification in order sees the event once |
| `EventWindows.EventWindowManager.ExpireSpec` | engine/correlation/src/event_windows.cpp:302-323 | one specification: exactly the windows that have ended leave and are reported once each, in the order of the map, with their interval, group and events |
| `EventWindows.EventWindowManager.ExpireWindows` | engine/correlation/src/event_windows.cpp:289-327 | does so for every specification, and leaves the windows of unknown ones |
| `EventWindows.EventWindowManager.ActiveWindowCount` | engine/correlation/src/event_windows.cpp:329-336 | the number of windows over all specifications |
| `EventWindows.EventWindowManager.Clear` | engine/correlation/src/event_windows.cpp:338-341 | drops every window |
| `EventWindows.SpecsIndependent` | engine/correlation/src/event_windows.cpp:266-287 | specifications with distinct ids never touch one another's windows |
| `HoppingWindows.CoversIff` | engine/correlation/src/event_windows.cpp:235-239 | the windows that cover a time are those numbered above floor((t-size)/slide) and up to floor(t/slide) |
| `HoppingWindows.LoopMissesNone` | engine/correlation/src/event_windows.cpp:230-235 | the truncated loop bounds miss no covering window, negative times included |
| `HoppingWindows.HoppingExact` | engine/correlation/src/event_windows.cpp:223-264 | an event joins exactly the windows w of its group with w*slide <= t < w*slide+size, once each, and no other; in nanoseconds, a negative time moved up by less than a millisecond |
| `HoppingWindows.MembershipBounds` | engine/correlation/src/event_windows.cpp:230-239 | and these number between floor(size/slide) and ceil(size/slide) |
| `HoppingWindows.ResidentExact` | engine/correlation/src/event_windows.cpp:223-264 | without expiry every resident window has its number's interval and holds exactly its group's events in it |
| `WindowTimes.ResidentTimes` | engine/correlation/src/event_windows.cpp:223-264 | without expiry, each event of a resident hopping window has its group's value and a time from its start to before its end, a negative one up to a millisecond before |
| `WindowTimes.EveryIntervalHolds` | engine/correlation/src/event_windows.cpp:223-264 | and an event with a time from zero on is in the window of every number whose interval contains that time |
| `WindowTimes.SlidingHeld` | engine/correlation/src/event_windows.cpp:149-173 | a sliding specification keeps, for every group and millisecond, exactly the events of that group and millisecond |
| `WindowTimes.SlidingSpan` | engine/correlation/src/event_windows.cpp:149-160 | the window of the event just processed starts at its time and lasts for the size |
| `WindowRuns.Conservation` | engine/correlation/src/event_windows.cpp:99-327 | over any interleaving of events and expiries: reported plus resident events are the memberships created plus what tumbling windows reported again |
| `TumblingRuns.ConservedIff` | engine/correlation/src/event_windows.cpp:99-327 | over the actions alone: reported plus resident equals memberships if and only if the windows do not tumble, or no two consecutive events of a group fall into different windows without an expiry between them at or after the first one's end |
| `WindowRuns.TumblingCumulative` | engine/correlation/src/event_windows.cpp:110-147 | a tumbling window without expiry holds every event of its group since the first |
| `WindowTimes.TumblePlace` | engine/correlation/src/event_windows.cpp:115-142 | a tumbling window starts at a multiple of the size; a time from zero on lies between its start and its end, a negative one in the window before it or at its start |
| `WindowTimes.TumblingContainsLast` | engine/correlation/src/event_windows.cpp:110-147 | after any run without an expiry at its end or later, a group's window contains the time of the group's last event, from zero on |
| `WindowTimes.TumblingReports` | engine/correlation/src/event_windows.cpp:119-147 | an event of another place reports its group's window once, with its interval and all its events, and leaves these in it; other groups are untouched |
| `Sessions.SplitUnique` | engine/correlation/src/event_windows.cpp:185-207 | a stream has at most one split into maximal runs with gaps up to the timeout |
| `Sessions.CloseIff` | engine/correlation/src/event_windows.cpp:186-188 | the gap in whole milliseconds is within the timeout exactly when the nanoseconds between the events are less than those of the timeout and one millisecond; for a negative timeout, when they are at most its own |
| `Sessions.SessionContents` | engine/correlation/src/event_windows.cpp:175-221 | in any interleaving with expiry, a group's reported sessions and its open one are its stream in order, with no long gap inside |
| `Sessions.SessionSpans` | engine/correlation/src/event_windows.cpp:175-221 | in any interleaving with expiry, every session reported runs from its first event to its last |
| `Sessions.ClosedIff` | engine/correlation/src/event_windows.cpp:302-319 | the session of a group's last event is closed exactly when an expiry has run at its time or later |
| `Sessions.SplitIff` | engine/correlation/src/event_windows.cpp:175-323 | in any interleaving of events and expiries, they are the unique split if and only if no expiry runs at the first one's time or later between two consecutive events of the group less than the timeout and a millisecond apart |
| `Sessions.SplitWithoutExpiry` | engine/correlation/src/event_windows.cpp:175-221 | without expiry they always are |
| `Sessions.ExpiryCutsEarly` | engine/correlation/src/event_windows.cpp:207 | two events a millisecond apart under a timeout of a minute end up in two sessions |
| `Statistics.WelfordUpdate` | collectors/pcap/src/flow_tracker.cpp:159-164 | from the mean and the sum of squared deviations of any values, those of the values with one more |
| `Statistics.PushBatch` | collectors/pcap/src/flow_tracker.cpp:159-187 | pushing a value onto the batch statistics of a list gives those of the longer list |
| `Statistics.BatchFacts` | collectors/pcap/src/flow_tracker.cpp:159-187 | mean*n is the sum, M2 the sum of squared deviations and not negative, min <= mean <= max, and min and max occur |
| `FlowStatistics.Record` | collectors/pcap/src/flow_tracker.cpp:178-187 | minimum, maximum and Welford's update of one accumulator |
| `FlowStatistics.UpdateDirection` | collectors/pcap/src/flow_tracker.cpp:213-243 | the directional counters and accumulators, and the guard on the last time |
| `FlowStatistics.UpdateFlowStats` | collectors/pcap/src/flow_tracker.cpp:166-278 | one packet in a flow, overall and in its direction |
| `FlowStatistics.OnlineIsBatch` | collectors/pcap/src/flow_tracker.cpp:166-278 | after any packets, one more keeps every accumulator equal to the batch statistics of all packets seen |
| `FlowStatistics.GuardedExact` | collectors/pcap/src/flow_tracker.cpp:231-242 | a direction's inter-arrival accumulator is the batch over its gaps when all times but the last are positive, in any order |
| `FlowStatistics.GuardedIff` | collectors/pcap/src/flow_tracker.cpp:231-242 | for ordered times: exactly when no gap is lost to the guard on the last time |
| `FlowStatistics.MeanIatTelescopes` | collectors/pcap/src/flow_tracker.cpp:189-200 | mean_iat is the last time minus the first, in microseconds, over packets - 1 |
| `FlowStatistics.WaysPartition` | collectors/pcap/src/flow_tracker.cpp:213-246 | packets and bytes split exactly into the two directions |
| `FlowStatistics.FinalizeStats` | collectors/pcap/src/flow_tracker.cpp:280-328 | the finalized variances, duration and mean header length |
| `FlowStatistics.VariancesExact` | collectors/pcap/src/flow_tracker.cpp:283-302 | the finalized variances are the sample variances of sizes, overall and per direction, of the gaps, and of a direction's gaps when all its times but the last are positive or its packets are in order and no gap is lost |
| `FlowStatistics.MaskedVariance` | collectors/pcap/src/flow_tracker.cpp:231-242 | with packets in order, the finalized variance of a direction's gaps always is the sample variance with zeros for the lost ones |
| `FlowStatistics.HeaderLenTwenty` | collectors/pcap/src/flow_tracker.cpp:323-327 | mean_header_len is exactly 20 if and only if 20 bytes a packet fit in 64 bits, through the wrap-around |
| `FlowTracking.NormalizeBothWays` | collectors/pcap/src/flow_tracker.cpp:74-90 | a key and its reversal, and no other key, share one normal form, which is its own and has the lower address and then the lower port first; the direction flag says which end is the source, and tells the two apart unless they are equal |
| `FlowTracking.FlowTracker.constructor` | collectors/pcap/src/flow_tracker.cpp:69-72 | a new tracker is empty |
| `FlowTracking.FlowTracker.MakeRoom` | collectors/pcap/src/flow_tracker.cpp:360-367 | a new flow in a full table evicts one resident flow, otherwise nothing changes; with max_flows zero the code erases from an empty map, and there is no room |
| `FlowTracking.FlowTracker.CountPacket` | collectors/pcap/src/flow_tracker.cpp:369-381 | the packet is counted in its flow, created if missing, and in the totals |
| `FlowTracking.FlowTracker.ProcessPacket` | collectors/pcap/src/flow_tracker.cpp:330-384 | the whole packet; keeps residents at most max_flows, flows created = resident + expired + evicted, packets and bytes processed = the totals over these, and every flow's statistics those of its packets; undefined exactly for a readable packet with max_flows zero |
| `FlowTracking.FlowTracker.ExpireFlow` | collectors/pcap/src/flow_tracker.cpp:543-547 | one expired flow is moved out with everything finalize_stats makes of it |
| `FlowTracking.FlowTracker.ExpireDue` | collectors/pcap/src/flow_tracker.cpp:538-551 | exactly the flows that are too old or idle too long leave, each reported once and finalized |
| `FlowTracking.FlowTracker.ExpireFlows` | collectors/pcap/src/flow_tracker.cpp:531-554 | a flow stays exactly when its age is within the active timeout and its idle time within the idle timeout, in seconds; the others are returned finalized; conservation is kept |
| `FlowTracking.FlowTracker.ActiveFlowCount` | collectors/pcap/src/flow_tracker.cpp:556-559 | residents = created - expired - evicted, at most max_flows |
| `FlowTracking.ResidentFlows` | collectors/pcap/src/flow_tracker.cpp:173-246 | in every reachable table each flow's packets and bytes are those of its two directions, its start and last time are those of its first and last packet, and its mean header length is 20 while 20 bytes a packet fit in 64 bits |
| `NetFlow.ReadFieldsLoop` | collectors/netflow/src/netflow_parser.cpp:111-118 | the field specifiers that fit |
| `NetFlow.ReadTemplatesLoop` | collectors/netflow/src/netflow_parser.cpp:103-120 | a template set's effect on the cache |
| `NetFlow.DecodeLoop` | collectors/netflow/src/netflow_parser.cpp:139-191 | one record, field by field, each read at its offset; nothing when what the code reads for a field ends behind the packet, or a number is wider than four bytes |
| `NetFlow.ReadRecordsLoop` | collectors/netflow/src/netflow_parser.cpp:134-196 | the records of a data set, or nothing when a field of one cannot be read |
| `NetFlow.ReadSetBody` | collectors/netflow/src/netflow_parser.cpp:102-200 | the body of the loop over sets, in both dialects, with its endless sets and unreadable fields |
| `NetFlow.ParseSets` | collectors/netflow/src/netflow_parser.cpp:94-203 | the loop over sets, up to the v9 record count |
| `NetFlow.NetFlowParser.constructor` | collectors/netflow/src/netflow_parser.cpp:89 | a thread's caches start empty |
| `NetFlow.NetFlowParser.ParsePacket` | collectors/netflow/src/netflow_parser.cpp:72-298 | parse_v9 and parse_ipfix with their own caches, for every packet: records, a loop without end, or a field that cannot be read |
| `NetFlowLoops.RecordsRun` | collectors/netflow/src/netflow_parser.cpp:134-196 | a data set of records of a positive size is left after one iteration a record and one more, with those records appended, or stops at the first record with a field that cannot be read |
| `NetFlowLoops.RoundForever` | collectors/netflow/src/netflow_parser.cpp:94-201 | once at such a set, no number of iterations leaves it |
| `NetFlowLoops.RunsForeverIff` | collectors/netflow/src/netflow_parser.cpp:72-298 | for every packet and cache: the loops have not ended after any number of iterations if and only if they come to a set of length zero, or to a data set with room for records of its template that have no bytes and whose fields can be read |
| `NetFlowLoops.ReturnsIff` | collectors/netflow/src/netflow_parser.cpp:72-298 | the loops, one iteration at a time, return some records and templates if and only if these are the outcome of the parse |
| `NetFlowExport.RecordCount` | collectors/netflow/src/netflow_parser.cpp:134-196 | a data set yields floor((setlen-4)/record_size) records, for any content, unless a field of one of them cannot be read |
| `NetFlowExport.FieldTable` | collectors/netflow/src/netflow_parser.cpp:139-191 | field number by field number: the member of a record it sets and the bytes it is read from, in both dialects |
| `NetFlowExport.DecodeBack` | collectors/netflow/src/netflow_parser.cpp:139-191 | decoding an encoded record gives the fields it carries, at their places |
| `NetFlowExport.TemplatesRead` | collectors/netflow/src/netflow_parser.cpp:103-120 | a written template set installs its templates in order, later over earlier |
| `NetFlowExport.SetsRead` | collectors/netflow/src/netflow_parser.cpp:94-201 | sets are read in order, each data set by the latest template for its id, until as many records are found as the header allows |
| `NetFlowExport.ParseCounted` | collectors/netflow/src/netflow_parser.cpp:72-298 | an encoder over the code's field table, with any count in a v9 header or the length in an IPFIX one: any mix of template and data sets and of sets the parser passes over, as of options, with any good cache before, gives back in order the records of the sets before which fewer records than the count were found, and the latest templates of these; what stands behind an IPFIX packet is not read |
| `NetFlowExport.ParseBack` | collectors/netflow/src/netflow_parser.cpp:72-298 | with the count of all its items, or the length, everything comes back: all records in order and the latest templates |
| `Strings.LinesUnlines` | collectors/common/src/config.cpp:155 | getline inverts joining lines with newlines |
| `Configuration.LeaveLoop` | collectors/common/src/config.cpp:167-170 | the loop that leaves enclosing keys |
| `Configuration.Config.ParseYaml` | collectors/common/src/config.cpp:149-201 | the whole text on top of what was loaded |
| `Configuration.Config.ToYaml` | collectors/common/src/config.cpp:225-231 | every entry once, in some order |
| `Configuration.LeaveTo` | collectors/common/src/config.cpp:167-170 | with last_indent = 2*depth-2, a line at depth k leaves exactly the first k enclosing keys |
| `Configuration.TreeTaken` | collectors/common/src/config.cpp:149-201 | anywhere in a document, a rendered sub-tree adds exactly its dotted paths and the parser comes back to its depth |
| `Configuration.ParseRendered` | collectors/common/src/config.cpp:149-201 | parsing the rendering of any tree of mappings with plain scalars gives exactly its dotted-path map |
| `Configuration.GotIff` | collectors/common/src/config.cpp:179-187 | a written value comes back, not empty, exactly when it has no comment sign, blanks at its ends or surrounding quotes |
| `Configuration.CommentIgnored` | collectors/common/src/config.cpp:156-159 | what follows a comment sign is not read |
| `Configuration.QuotedRead` | collectors/common/src/config.cpp:183-187 | quotes of either kind around a value are taken off |
| `Configuration.NothingRead` | collectors/common/src/config.cpp:160-173 | a line of blanks changes nothing, and one without a colon sets nothing |
| `Configuration.AllClean` | collectors/common/src/config.cpp:155-200 | whatever the text, parsing gives only keys without colon, comment sign, newline or blanks at their ends, and one-line values |
| `Configuration.YamlRoundTripIff` | collectors/common/src/config.cpp:149-231 | for every configuration: parse_yaml on a fresh one inverts to_yaml if and only if every key has no colon, comment sign, newline or blank at an end, and every value is plain and not empty |
| `Base64.Base64Encode` | crypto/src/crypto_utils.cpp:8-24 | the grouping loop against the encoding of section 4 of RFC 4648 |
| `Base64.Base64Decode` | crypto/src/crypto_utils.cpp:30-62 | the accumulator loop, with its 32-bit cut |
| `Base64.UpperLetters` | crypto/src/crypto_utils.cpp:6 | the alphabet, of section 4 of RFC 4648: capitals |
| `Base64.LowerLetters` | crypto/src/crypto_utils.cpp:6 | small letters |
| `Base64.OtherLetters` | crypto/src/crypto_utils.cpp:6 | digits and the two signs |
| `Base64.EncodeRawData` | collectors/common/src/event.cpp:130-143 | the encoder inlined in to_json is the same encoding |
| `Base64.FeedOwed` | crypto/src/crypto_utils.cpp:52-58 | a character adds its six bits behind those owed, whatever the discarded high bits were |
| `Base64.DecodeEncode` | crypto/src/crypto_utils.cpp:8-62 | decode(encode(x)) = x for every byte string |
| `Base64.DecodeIgnores` | crypto/src/crypto_utils.cpp:47-50 | decoding depends only on the alphabet characters before the first padding sign |
| `Base64.EncodeLength` | crypto/src/crypto_utils.cpp:10 | four characters for every three bytes begun, as reserved |
| `Base64.Base64UrlEncode` | crypto/src/crypto_utils.cpp:100-109 | the URL-safe encoder's loops |
| `Base64.Base64UrlDecode` | crypto/src/crypto_utils.cpp:111-120 | the URL-safe decoder's loops |
| `Base64.UrlRoundTrip` | crypto/src/crypto_utils.cpp:100-120 | the URL-safe pair inverts for every byte string |
| `Base64.UrlChars` | crypto/src/crypto_utils.cpp:100-109 | a URL-safe encoding has no plus, no slash and no padding at its end |
| `Base64.HexEncodeLoop` | crypto/src/crypto_utils.cpp:64-73 | the loop against the recursive encoding |
| `Base64.HexDecodeLoop` | crypto/src/crypto_utils.cpp:79-98 | the loop, ending at the first pair that is not hexadecimal |
| `Base64.HexRoundTrip` | crypto/src/crypto_utils.cpp:64-98 | hex decoding inverts encoding, in front of anything that is not a digit |
| `Base64.HexDigits` | crypto/src/crypto_utils.cpp:65-84 | the digits written are those of 0123456789abcdef; capitals are read as well |
| `Base64.HexOnly` | crypto/src/crypto_utils.cpp:79-84 | and no other character is a digit |
| `Syslog.SkipWhitespaceLoop` | collectors/syslog/src/syslog_parser.cpp:181-185 | drops exactly the leading blanks and tabs |
| `Syslog.ParseElement` | collectors/syslog/src/syslog_parser.cpp:293-316 | one element's parameters under its identifier |
| `Syslog.ParseStructuredData` | collectors/syslog/src/syslog_parser.cpp:287-322 | the loop over elements |
| `SyslogFormat.DataParsed` | collectors/syslog/src/syslog_parser.cpp:287-322 | parsing written structured data gives its parameters under id.key, a later one over an earlier of its key |
| `SyslogFormat.DataExact` | collectors/syslog/src/syslog_parser.cpp:287-322 | with distinct keys: exactly the written id.key to value map |
| `SyslogFormat.PriorityRead` | collectors/syslog/src/syslog_parser.cpp:167-179 | every written priority 0..191 is read back with what follows it |
| `SyslogFormat.PriorityCases` | collectors/syslog/src/syslog_parser.cpp:167-179 | which priorities are read at all: one to three characters that start with digits, or with a minus and zeros, between the brackets |
| `SyslogFormat.VersionDecides` | collectors/syslog/src/syslog_parser.cpp:14-60 | RFC 5424 is read exactly when digits follow the priority that make a version of at most 2^31 - 1, RFC 3164 otherwise |
| `SyslogFormat.DataTaken` | collectors/syslog/src/syslog_parser.cpp:95-107 | written structured data is cut off at its last bracket if a message follows, and left standing if not |
| `SyslogFormat.BodyRead` | collectors/syslog/src/syslog_parser.cpp:48-114 | everything after the priority is read back field by field |
| `SyslogFormat.RoundTripIff` | collectors/syslog/src/syslog_parser.cpp:14-114 | parsing a written RFC 5424 message recovers every field exactly when it has no structured data or has a message; always with facility*8+severity = priority |
| `SyslogFormat.TagKeepsPid` | collectors/syslog/src/syslog_parser.cpp:116-165 | a written RFC 3164 message is read back field by field, with a bracketed process id left in the tag and the process id empty |
| `SyslogFormat.PidBehindColon` | collectors/syslog/src/syslog_parser.cpp:140-158 | a bracketed process id is read only directly behind the colon |
| `SyslogFormat.TimeTaken` | collectors/syslog/src/syslog_parser.cpp:128-135 | the timestamp is the first fifteen characters behind the blanks, if there are that many, and the hostname what follows |

## Left out

- Sockets, poll loops, Kafka, packet capture, OpenSSL, ClickHouse, S3 and etcd: I/O over libraries. Polled batches, packets, files and the clock are inputs.
- `LSMIndex`, `QueryEngine`, the Sigma compiler and `RuleEngine`: placeholders or parts whose conditions are ignored, with no meaning to preserve.
- `matches_conditions`: any predicate on events; its operators and regular expressions would only be that predicate.
- Deadlock of the correlation engine with rule writers: `process_event` and `cleanup_expired` take the rule and state locks in opposite orders. The rule set is fixed here.
- Mutexes of classes whose every operation holds one throughout (MemTable, windows, flow tracker, locked ring): each operation is one atomic step.
- The hash of the bloom filter: any function of key and seed, which makes the theorems stronger.
- Failing file operations, reads past the end of a file (reported as no answer), `smallest_key_`, `largest_key_`, `file_size_` and the unused compression flag.
- `sizeof(MemTable::Entry)`: a constant of the platform, 56 bytes here; no theorem depends on its value.
- IEEE rounding: statistics are over the reals, and standard deviations appear as the variances under the root.
- TCP flag counters, flag ratios, rates and `extract_features`: easy counts and quotients.
- The bytes of `parse_packet`: a packet arrives as an optional five-tuple.
- sum, avg, min and max aggregates and `window_id` strings: the stored copies drop the fields they need; a result carries its events instead.
- `get_field_string` and `get_group_key` on the attributes of an event, with their second names: an event is a map from field names to strings.
- `parse_v5`: a fixed layout, no state.
- What a NetFlow field holds that is read past the end of the packet, or a number wider than the four bytes it is copied to: undefined in the code, and an outcome of its own in the model (`Undefined`).
- The thread-local template caches of NetFlow: fields of a parser object, one per thread.
- JSON, ISO 8601, environment substitution in configurations, and names of facilities and severities: library-bound or plain tables.
- Counters of events, alerts, packets and flows are unbounded integers, except the header-length computation, which wraps at 64 bits as the code does.
- Flush.GetAgreesIff: leaves out tables with a record of 4 GiB or more before the last, where a wrong offset may by coincidence still lead to the right bytes; `Flush.LongRecordLosesNextKey` shows one where it does not.
- FlowStatistics.GuardedIff: for packets out of order only the sufficient condition of `FlowStatistics.GuardedExact` is given.
- SyslogFormat.RoundTripIff: values without a quote, closing bracket or backslash, since the parser has no escapes.
- ThreadPool.ShutdownDrains: running tasks are assumed to return, as the code assumes.
