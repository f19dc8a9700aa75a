# HedgeDB in Dafny

A model of the storage engine of HedgeDB, an LSM key-value store, with proofs. The model follows the code from the
bits of the quotient filter to the whole tree; input and output, executors and coroutines are reduced to the order of
the steps they allow.

| module | models |
|---|---|
| `PackedSlots`, `QuotientFilterOrder`, `QuotientFilter` | the quotient filter: elements packed into 64-bit words, runs and clusters with wrap-around, insertion and lookup |
| `Versions`, `Lsm`, `LsmSafety`, `LsmReads`, `LsmProgress` | one partition as a state machine: writes, table swap, flush, bucket launch, merge commit and failure, in any order that the semaphore chains allow; what readers see, what can still happen and what no longer can |
| `Buckets`, `SstManager` | the imperative partition state: bucket picking, launching, committing and failing merges, each proved to be a step of the state machine |
| `Merge`, `Compaction` | the heap merge with its lagging deduplicator, and a merge task from its sources to its commit |
| `RangeScan`, `ScanSources`, `ScanStorage`, `StoreScan`, `StoreLookup` | the range iterator, why it may read only part of its sources, and whole scans and lookups over files and memtables in byte keys |
| `Varint`, `Block`, `BlockReader` | the page format: encoder, iterator, search |
| `MetaIndex`, `Table`, `TableLookup`, `TableReader` | whole tables: writing, filter sizing, super-index and meta-index, lookup, sequential reading |
| `Memtable`, `Wal`, `Partitions` | the ordered memtable and its range cursor, the write-ahead log and its replay, the split of the key space |
| `RwSync`, `Manifest` | two concurrent protocols as state machines: draining writers, persisting the level lists |
| `Bytes`, `Arith` | byte strings and their order, powers |

How to read it. Operations that the source performs by mutation are classes and methods, proved against functions or
predicates; protocols are state machines whose invariants hold over every run. Keys are byte strings up to the table
level; the merge and the tree use integers, and `Bytes.RankIsOrder` shows that byte strings embed into the integers in
lexicographic order. `StoreScan` and `StoreLookup` lead from one to the other. A 64-bit word is a sequence of 64 bits.
Hash and checksum functions are parameters and may be any function. Where one `or` adds a field to bits that are zero,
the model adds. `& (n - 1)` for a power of two `n` is `% n`.

Automatic induction is switched off throughout: every lemma carries its own proof.

Ghost parameters of reading methods (`ps`, `chunks`, `groups`) name what was written; no result depends on them.

## What was found

The proofs follow the code where it and its comments differ, and state exactly when a property holds.

- A writer slot shared by two threads breaks the drain: the first to leave clears the counter of the other. The class
  comment of `src/async/rw_sync.h` says sharing is safe. Draining is safe in every interleaving if and only if no two
  writers share a slot (`RwSync.DrainSafeIff`), which for slots taken modulo `n` means at most `n` threads
  (`RwSync.ThreadSlots`).
- A delta entry writes its two lengths in one byte each, without the minus-one encoding of restart entries. A 256-byte
  key that shares nothing with the key before it is lost. Iteration gives the pushed pairs back if and only if all
  lengths fit (`BlockReader.RoundTripIff`); for ascending keys `BlockReader.CleanIff` says which keys those are, and
  `BlockReader.LoseLongKey` builds an instance with the encoder.
- Between the swap of the current table and the bump of the switch epoch, a reader may still hold the old table and miss
  a write completed into the new one (`LsmReads.StaleReadMissesWrite`). Such a read is as good as any other for the keys
  that nobody has put since the swap (`LsmReads.StaleReadRegular`); for the others it returns what was there before the
  swap, or a late write (`LsmReads.StaleReadIsOld`). `LsmReads.ReadIsRegular` covers reads that see swap and bump as one
  step.
- A merge of the last level into itself keeps the order of age if and only if it takes the whole level
  (`LsmSafety.LastLevelCommitAge`); otherwise an old value can come back (`LsmSafety.LastLevelCommitLosesWrite`).
- A merged table takes the smallest epoch of its inputs, because the comparison given to `max_element` is reversed
  (`SstManager.OldestEpoch`). The order of age holds with it.
- A failed merge does not pass its permission on, although the comment beside it says so. It and everything behind it in
  its chain waits forever: what waits in a level can leave it if and only if no merge of the chain has failed
  (`LsmProgress.MergeableIff`). Failed flushes are alike (`LsmProgress.FlushableIff`). Safety does not depend on it.
- The filter's entry counter has 32 bits. It tells a full filter from others if and only if the filter has fewer than
  2^32 slots (`QuotientFilter.CounterTellsIff`). Beyond that a full filter does not refuse a new fingerprint, and the
  shifting loop, which looks for a free slot, never ends (`QuotientFilter.Filter.FullInsertNeverEnds`).
- A merge whose sources hold no entry at all throws (`Merge.KWayMerge`). So does a scan, although the tables may hold
  keys: unless the bounds are reversed it throws if and only if no source has a key at or above the lower bound
  (`StoreScan.ThrowsIff`).
- A memtable cursor whose lower bound lies above its upper bound may start behind its end
  (`Memtable.BoundsInOrder` says exactly when, `Memtable.ReversedBounds` is an instance).
- The log writes the value size in two bytes: a record comes back if and only if its value has fewer than 65536 bytes
  (`Wal.ReadsBackIff`).

## Model

| member | source | states |
|---|---|---|
| `PackedSlots.GetElem` | src/db/qf.cc:50-66 | the result's low bits are the element's bits wherever it lies, also across two words; its high bits are clear |
| `PackedSlots.SetElem` | src/db/qf.cc:68-83 | exactly the element's bits change, to the low bits given; every other bit of the table stays |
| `PackedSlots.PackRoundTrip` | src/db/qf.cc:95-148 | flags and remainder of an element come back from its packed form |
| `PackedSlots.StoredSlot` | src/db/qf.cc:50-83 | an element whose bits were written reads back as the slot it was made from |
| `PackedSlots.KeptElem` | src/db/qf.cc:68-83 | writing one element leaves every other element as it was, neighbours in the same word included |
| `PackedSlots.SlotTable.constructor` | src/db/qf.cc:23-47 | enough words for all elements, and every slot empty |
| `PackedSlots.SlotTable.Get` | src/db/qf.cc:50-66 | the word array refines a plain array: reading |
| `PackedSlots.SlotTable.Set` | src/db/qf.cc:68-83 | the word array refines a plain array: writing slot `i` is updating index `i` and nothing else |
| `QuotientFilterOrder.NextRun` | src/db/qf.cc:184-195 | skipping one run and moving to the next occupied quotient lands on that quotient's run |
| `QuotientFilterOrder.RunSorted` | src/db/qf.cc:256-269 | remainders rise strictly along a run |
| `QuotientFilterOrder.UnoccupiedAbsent` | src/db/qf.cc:301-305 | a clear occupied bit means that no stored fingerprint has that quotient |
| `QuotientFilterOrder.ScanProvesAbsent` | src/db/qf.cc:307-322 | a scan that met a greater remainder or the end of the run has proved the fingerprint absent |
| `QuotientFilterOrder.ShiftInserts` | src/db/qf.cc:206-223 | the shifting loop, with occupied bits staying behind and shifted bits set, is an insertion into the order |
| `QuotientFilterOrder.InsertKeepsOrder` | src/db/qf.cc:251-290 | inserting in a cluster keeps clusters, runs and all three metadata bits right and adds exactly one fingerprint |
| `QuotientFilterOrder.CanonicalKeepsOrder` | src/db/qf.cc:238-244 | so does filling an empty canonical slot |
| `QuotientFilterOrder.TurnKeepsOrder` | src/db/qf.cc:85-93 | reading the circular table from behind another empty slot changes nothing that is stored |
| `QuotientFilter.FingerprintIsLowBits` | src/db/qf.cc:160-170 | two hashes have equal quotient and remainder if and only if they agree on the low q + r bits |
| `QuotientFilter.PrintsCount` | src/db/qf.cc:160-170 | there are as many fingerprints as different low q + r bits among the hashes |
| `QuotientFilter.Filter.StoredIffKnown` | src/db/qf.cc:160-170 | the fingerprint of a hash is stored if and only if a hash with the same low q + r bits was inserted |
| `QuotientFilter.CounterTells` | src/db/qf.cc:226-231 | the 32-bit counter reports a table full if and only if it is full and has fewer than 2^32 slots |
| `QuotientFilter.CounterTellsIff` | src/db/qf.cc:226-231 | the report is right for every number of entries if and only if the table has fewer than 2^32 slots |
| `QuotientFilter.ShiftNeverEnds` | src/db/qf.cc:199-224 | in a table without a free slot, after any number of rounds of the shifting loop there is still none, and the loop goes on |
| `QuotientFilter.Filter.constructor` | src/db/qf.cc:23-47 | a filter that stores nothing |
| `QuotientFilter.Filter.FindClusterStart` | src/db/qf.cc:175-180 | the backward walk ends at an unshifted slot with no empty slot between it and the canonical slot |
| `QuotientFilter.Filter.SkipRun` | src/db/qf.cc:186-189 | the inner walk ends right behind the run it started on |
| `QuotientFilter.Filter.NextOccupied` | src/db/qf.cc:191-194 | the next quotient that has a run |
| `QuotientFilter.Filter.FindRunIndex` | src/db/qf.cc:173-197 | the slot where the quotient's run starts, with wrap-around; all its loops end |
| `QuotientFilter.Filter.InsertInto` | src/db/qf.cc:199-224 | the elements up to the next empty slot move up by one, keeping each slot's occupied bit in place |
| `QuotientFilter.Filter.ScanRun` | src/db/qf.cc:307-322 | true if and only if the run holds the remainder |
| `QuotientFilter.Filter.MayContain` | src/db/qf.cc:295-323 | true if and only if some inserted hash has the same low q + r bits: no false negative, and a false positive only by equal low bits |
| `QuotientFilter.Filter.FindPlace` | src/db/qf.cc:256-269 | the place of the remainder in its run, or that it is present |
| `QuotientFilter.Filter.InsertInCluster` | src/db/qf.cc:246-292 | a fingerprint that is present changes nothing; another one is added to what is stored |
| `QuotientFilter.Filter.InsertCanonical` | src/db/qf.cc:238-244 | an empty canonical slot takes the fingerprint |
| `QuotientFilter.Filter.FullHasNoFree` | src/db/qf.cc:226-231 | as many fingerprints as slots means that no slot is free |
| `QuotientFilter.Filter.FullInsertNeverEnds` | src/db/qf.cc:246-292 | in a full table the shifting loop never meets a free slot, whatever is inserted and wherever it starts |
| `QuotientFilter.Filter.Insert` | src/db/qf.cc:226-293 | refused if and only if there are as many different low parts as slots, and fewer than 2^32; endless if and only if full, larger, and no inserted hash has the same low bits; otherwise exactly the hash joins those inserted, and the counter is the number of different low parts modulo 2^32 |
| `Versions.SearchConcat` | src/db/sst_manager.cc:159-184 | a newest-first search finds newer tables' versions before older ones' |
| `Versions.MergeKeepsSearch` | src/db/sst_manager.cc:249-256 | one merged table in place of its inputs answers every search alike; without its tombstones too, if nothing older has the key |
| `LsmSafety.FreezeKeepsInv` | src/db/memtable.cc:316-322 | the table swap keeps the invariant: age order, merge queues, announced levels |
| `LsmSafety.FlushKeepsInv` | src/db/memtable.cc:404-416 | so does a flush commit |
| `LsmSafety.LaunchKeepsInv` | src/db/sst_manager.cc:543-594 | so does launching merges, with the tombstone permission and the announcement of the target level |
| `LsmSafety.FailKeepsInv` | src/db/sst_manager.cc:277-286 | so does a failed merge, wherever it waits in its chain |
| `LsmSafety.CommitKeepsInv` | src/db/sst_manager.cc:243-262 | so does a merge commit |
| `LsmSafety.StepKeepsInv` | src/db/sst_manager.cc:202-286 | every step of the machine keeps the invariant |
| `LsmSafety.LoadedInv` | src/db/sst_manager_loader.cc:151-158 | a partition loaded from levels in order of age satisfies it, with the announcements recomputed from the levels |
| `LsmSafety.ReloadedInv` | src/db/sst_manager_loader.cc:160-196 | the levels of any state that satisfies it, loaded again with a counter above their file ids, satisfy it |
| `LsmSafety.LoadedShows` | src/db/sst_manager_loader.cc:151-158 | a loaded partition shows exactly the newest versions in the tables that it was loaded from |
| `LsmSafety.RestartShows` | src/db/sst_manager_loader.cc:151-158 | a restart shows the newest version on disk of every key, which is what the key showed before unless a table in memory had it |
| `LsmSafety.FlushKeepsSearch` | src/db/memtable.cc:404-416 | a flush commit leaves the newest frozen version of every key |
| `LsmSafety.CommitKeepsSearch` | src/db/sst_manager.cc:243-262 | a merge commit leaves it too, up to tombstones, on disk alone and with the pending tables |
| `LsmSafety.BackgroundInvisible` | src/db/sst_manager.cc:144-190 | swap, epoch bump, drain, flush commit or failure, launch, merge commit or failure: none changes what a reader sees of any key |
| `LsmSafety.WriteVisible` | src/db/memtable.cc:144-212 | a write shows at once and touches no other key; a late write into a frozen table shows if and only if no newer table has the key |
| `LsmSafety.RunRefinesMap` | src/db/memtable.cc:214-259 | over every run the store is a map, whatever ran in the background: a reader sees the greatest write in the order of the tables written and then of time; without late writes, the last value put |
| `LsmSafety.OlderIsDeeper` | src/db/sst_manager.cc:152-161 | of two tables the deeper one, or the one further in front, is older in its whole epoch interval |
| `LsmSafety.AgeOrder` | src/db/sst_manager.cc:532-571 | in every reachable state, failed merges included, epoch intervals are disjoint and rise from the deepest level to the pending tables, and in each level the picked tables come before those that can be picked |
| `LsmSafety.LaunchStays` | src/db/sst_manager.cc:607-634 | buckets that could be launched can still be launched after any step but a launch from the same level |
| `LsmSafety.LaunchFromSnapshot` | src/db/sst_manager.cc:607-634 | so buckets picked on a snapshot are right whatever commits, fails or is flushed before they are launched |
| `LsmSafety.DiscardedTombstonesHideNothing` | src/db/sst_manager.cc:555-591 | a merge that drops tombstones has the oldest inputs there are: every other table is newer than all of them |
| `LsmSafety.LastLevelCommitAge` | src/db/sst_manager.cc:253-256 | a merge of the last level into itself keeps the order of age if and only if it takes the whole level |
| `LsmSafety.LastLevelCommitLosesWrite` | src/db/sst_manager.cc:253-256 | an instance where the newest value is lost |
| `LsmReads.ReadIsRegular` | src/db/memtable.cc:214-259 | a read that looks at the current table, the pending tables and the levels at three moments, with any steps between, returns what the key showed when it began or a value written meanwhile |
| `LsmReads.StaleReadRegular` | src/db/memtable.cc:216-225 | a read that begins between swap and bump and takes the swapped-out table is regular for every key not put since the swap, whatever runs during the read |
| `LsmReads.StaleReadIsOld` | src/db/memtable.cc:216-225 | such a read, ending before the bump, returns what the key showed before the swap or a late write, never a later put |
| `LsmReads.StaleReadMissesWrite` | src/db/memtable.cc:316-347 | in that window a completed write can be missed |
| `LsmProgress.SwapThenBump` | src/db/memtable.cc:316-347 | a swap freezes exactly what was written and starts an empty table; the next swap has to wait for the bump |
| `LsmProgress.DrainCloses` | src/db/memtable.cc:380-383 | draining closes its own table to late writes and no other |
| `LsmProgress.FlushedIsClosed` | src/db/memtable.cc:380-416 | a table that can be flushed can no longer be written |
| `LsmProgress.FlushMoves` | src/db/memtable.cc:404-416 | a flush commit takes the oldest frozen table from memory and makes it the newest on disk |
| `LsmProgress.LaunchQueues` | src/db/sst_manager.cc:543-595 | launched merges queue behind those waiting, with the right tombstone permissions; exactly the tables behind them can still be picked |
| `LsmProgress.CommitMoves` | src/db/sst_manager.cc:243-262 | a commit takes its inputs from the front of their level and adds one table with their merge behind the next |
| `LsmProgress.FlushFailureBlocks` | src/db/memtable.cc:396-401 | a failed flush leaves its table in memory, unable to commit |
| `LsmProgress.FailedFlushStays` | src/db/memtable.cc:396-419 | over every run, a table whose flush failed stays in memory, with all tables frozen after it |
| `LsmProgress.CanFlush` | src/db/memtable.cc:373-419 | while no flush has failed, some run brings all frozen tables to disk, in the order they were frozen |
| `LsmProgress.FlushableIff` | src/db/memtable.cc:396-419 | what is frozen can reach the disk if and only if no flush of it has failed |
| `LsmProgress.MergeFailureBlocks` | src/db/sst_manager.cc:277-286 | a failed merge keeps its place, unable to commit |
| `LsmProgress.FailedMergeStays` | src/db/sst_manager.cc:243-286 | over every run, a failed merge stays in its chain, with all merges launched after it |
| `LsmProgress.CanMerge` | src/db/sst_manager.cc:243-262 | while none of them has failed, some run commits all merges waiting in a level, each adding one table with its merged content |
| `LsmProgress.MergeableIff` | src/db/sst_manager.cc:243-286 | what waits to be merged in a level can leave it if and only if no merge of the chain has failed |
| `Buckets.SpansGood` | src/db/sst_manager.cc:424-450 | the spans to merge are disjoint runs of pickable tables in level order, of allowed sizes |
| `Buckets.SpansMaximal` | src/db/sst_manager.cc:424-450 | no run of `min` pickable tables is overlooked |
| `Buckets.SpansFollow` | src/db/sst_manager.cc:398-451 | when the pickable tables form a suffix, the spans take them in order without a gap |
| `Buckets.FirstBucket` | src/db/sst_manager.cc:411-422 | with enough tables to pick, the first span starts at the first pickable table |
| `SstManager.NextIteration` | src/db/sst_manager_loader.cc:160-167 | the restored counter is one above the greatest file id |
| `SstManager.Partition.constructor` | src/db/sst_manager_loader.cc:151-158 | a partition holds the levels it was loaded from; every table can be picked, no merge waits, and exactly the levels with tables are announced |
| `SstManager.Reload` | src/db/sst_manager_loader.cc:178-199 | the levels of any reachable state make a valid partition again, with the same tables at rest and that counter |
| `SstManager.LookupAfterRestart` | src/db/sst_manager_loader.cc:178-199 | a lookup after a restart finds the newest version on disk |
| `SstManager.Partition.Lookup` | src/db/sst_manager.cc:159-190 | the two nested loops find the newest version in the order of age |
| `SstManager.Partition.PushToL0` | src/db/sst_manager.cc:91-97 | a flushed table becomes the newest on disk |
| `SstManager.Partition.Mark` | src/db/sst.h:144-173 | the compaction states of one stretch change, along allowed transitions, and nothing else |
| `SstManager.Partition.CloseCandidates` | src/db/sst_manager.cc:435-449 | a full candidate set is emitted and marked, a short one dropped, and the next one begins where the specification continues |
| `SstManager.Partition.PickBuckets` | src/db/sst_manager.cc:398-451 | the loop emits exactly the specified spans, in order, and exactly their tables become `IN_COMPACTION` |
| `SstManager.Partition.LaunchTasks` | src/db/sst_manager.cc:543-595 | one merge a bucket, oldest first; only the first may discard tombstones, and only into a last level nobody has announced |
| `SstManager.Partition.ScheduleLevel` | src/db/sst_manager.cc:526-604 | picking and launching for one level is a launch step of the machine with exactly the specified spans, whose tables join the queue in order; with nothing in flight and enough tables the first bucket is the front of the level |
| `SstManager.Partition.Publish` | src/db/sst_manager.cc:245-262 | the inputs leave their level by file id, the output joins the back of the next one |
| `SstManager.Partition.CommitTask` | src/db/sst_manager.cc:234-262 | committing the merged content is a commit step of the machine: the inputs leave the front of their level, one table with the content joins the back of the next, the queue moves up |
| `SstManager.Partition.FailTask` | src/db/sst_manager.cc:277-286 | failing is a failure step of the machine: the task is marked and keeps its place and its inputs |
| `SstManager.OldestEpoch` | src/db/merge/merge.cc:57-60 | the epoch of the output is the smallest epoch of the inputs |
| `Merge.Deduplicator.Push` | src/db/merge/merge_utils.h:30-46 | the first of equal keys is kept, and an item is released only by a different key |
| `Merge.Deduplicator.ForcePop` | src/db/merge/merge_utils.h:59-68 | the item still waiting is taken |
| `Merge.Merger.constructor` | src/db/merge/merge.cc:239-265 | the heap holds the front of every source that has one |
| `Merge.Merger.PopHeap` | src/db/merge/merge.cc:227-234 | the smallest key comes first, and of equal keys the one from the highest epoch |
| `Merge.Merger.Step` | src/db/merge/merge.cc:279-311 | pushing one entry keeps the merge invariant: what was released is final, what is buffered is the newest version of its key |
| `Merge.Merger.Next` | src/db/merge/merge.cc:275-320 | one iteration consumes one entry and releases at most one item |
| `Merge.Merger.Last` | src/db/merge/merge.cc:341-353 | when all sources are read, the released items and the last one are the whole merge |
| `Merge.KWayMerge` | src/db/merge/merge.cc:227-422 | strictly rising keys; each key with the value of the highest epoch that holds it, without discarded tombstones; deduplicated = entries minus different keys, filtered = keys whose newest version is a discarded tombstone, entries read = written + deduplicated + filtered; throws if and only if there is no entry at all |
| `Merge.NewestIsSearch` | src/db/merge/merge.cc:227-234 | newest by epoch is what a search of the tables in order of age finds |
| `Merge.MergeRefinesOverlay` | src/db/merge/merge.cc:227-374 | the merged list is exactly the content the state machine gives a merge output |
| `Compaction.Compact` | src/db/sst_manager.cc:202-262 | running the merge over the inputs' pairs and committing what it wrote is a commit step of the machine; throws if and only if the inputs hold nothing |
| `RangeScan.Emit` | src/db/range_iterator.cc:187-219 | an item is returned if and only if it is in the inclusive range and not a tombstone; the scan ends only behind the upper bound |
| `RangeScan.BeyondUpper` | src/db/range_iterator.cc:194-198 | once an item lies behind the upper bound nothing of the range is missing |
| `RangeScan.NextInner` | src/db/range_iterator.cc:221-274 | the merge advances to exactly the next item to return, or to the end |
| `RangeScan.Finish` | src/db/range_iterator.cc:312-321 | the forced last item completes the scan |
| `RangeScan.RangeIterator.constructor` | src/db/range_iterator.cc:95-125 | a scan that has returned nothing |
| `RangeScan.RangeIterator.Next` | src/db/range_iterator.cc:276-322 | the items returned so far are a prefix of the scan; at the end they are all of it, and the end is final; throws if and only if no source has an entry |
| `ScanSources.Scan` | src/db/range_iterator.cc:276-322 | calling `next()` to the end returns, ascending and once each, exactly the keys of the range whose newest version is not a tombstone, with that value; and it ends |
| `ScanSources.ScanOfCut` | src/db/range_iterator.cc:42-63 | reading only the parts of the sources that cover the range gives the scan of the whole sources |
| `ScanSources.ScanIsLookup` | src/db/range_iterator.cc:42-63 | a scan shows a key and value if and only if the key is in range and a point lookup shows it |
| `ScanStorage.PagesCover` | src/db/sst.cc:250-270 | the pages from the lower bound's to the upper bound's hold every pair of the range |
| `ScanStorage.CursorCuts` | src/db/merge/sst_stream.h:196-252 | what a memtable cursor yields covers the range and holds only newest versions |
| `ScanStorage.CutCovers` | src/db/range_iterator.cc:42-125 | either, seen through the key ranks, is a source that the merge may read instead of the whole |
| `StoreScan.CutFile` | src/db/range_iterator.cc:49-84 | a file is opened if and only if its last page reaches the lower bound; what is read of it misses no pair of the range |
| `StoreScan.CutMem` | src/db/range_iterator.cc:108-122 | what a cursor yields of a memtable misses no newest version of the range, and when it yields nothing |
| `StoreScan.OpenFiles` | src/db/range_iterator.cc:45-85 | exactly the files that reach the lower bound are opened |
| `StoreScan.OpenMems` | src/db/range_iterator.cc:56-61 | every memtable is opened but those whose epoch an opened file has |
| `StoreScan.OpenedEnough` | src/db/range_iterator.cc:49-51 | for every key of the range, the newest version among the opened sources is the newest of all, skipped files included |
| `StoreScan.NewestByRank` | src/db/range_iterator.cc:138-185 | newest in terms of ranks is newest in terms of byte keys |
| `StoreScan.ScanStore` | src/db/range_iterator.cc:32-322 | a whole scan over files and memtables returns, ascending and once each, exactly the byte keys of the range whose newest version is not a tombstone; throws if and only if nothing at all is read |
| `StoreScan.ThrowsIff` | src/db/range_iterator.cc:312-321 | unless the bounds are reversed, nothing is read if and only if no source has a key at or above the lower bound |
| `StoreScan.BoundsIncluded` | src/db/range_iterator.cc:187-219 | a live key that is one of the bounds is returned |
| `StoreScan.DropLosesNothing` | src/db/range_iterator.cc:56-61 | dropping a memtable for the file that it was flushed to leaves the same sources |
| `StoreLookup.ContentLists` | src/db/sst.cc:118-182 | the pairs of a file are exactly the content that the state machine gives its table |
| `StoreLookup.FindInFile` | src/db/sst.cc:118-182 | a lookup through filter and pages is a lookup in that content |
| `StoreLookup.FindInFiles` | src/db/sst_manager.cc:159-184 | probing files from the newest down finds what the search over the tables of the state machine finds |
| `StoreLookup.ScanAgreesWithLookup` | src/db/range_iterator.cc:42-125 | the newest version that a scan shows for a key is what that search finds |
| `StoreLookup.SstIsGoodFile` | src/db/sst.cc:250-270 | a table that was written and loaded is a file that a scan can read |
| `StoreLookup.MemtableIsGood` | src/db/merge/sst_stream.h:217-236 | a memtable can be read by a scan unless the bounds are reversed, and the pairs it gives are its map |
| `Bytes.RankIsOrder` | src/db/block.cc:367-370 | ranks order and distinguish keys exactly as lexicographic comparison does |
| `Bytes.UnrankBack` | src/db/block.cc:367-370 | a key comes back from its rank |
| `Bytes.LessIff` | src/db/block.cc:367-370 | keys are ordered by the first byte in which they differ; a proper prefix comes first |
| `Varint.LengthIsExact` | src/db/varint.h:32-41 | the predicted length is the length of the encoding |
| `Varint.Encode` | src/db/varint.h:17-30 | writes the encoding in place, touching nothing else |
| `Varint.DecodeFast` | src/db/varint.h:56-123 | the unrolled path reads the groups' value cut to 64 bits, or says too many bytes |
| `Varint.DecodeSlow` | src/db/varint.h:124-137 | the loop reads the same, or says too few bytes |
| `Varint.TryDecode` | src/db/varint.h:43-140 | both paths agree with one meaning of the bytes |
| `Varint.RoundTrip` | src/db/varint.h:17-140 | an encoded 64-bit integer comes back, whatever follows it |
| `Block.SharedPrefixLength` | src/db/block.h:139-152 | the longest common prefix |
| `Block.RestartSpace` | src/db/block.cc:78-103 | the space predicted for a restart entry, offset included, is what it takes |
| `Block.DeltaSpace` | src/db/block.cc:122-142 | the space predicted for a delta entry is what it takes |
| `Block.Encoder.constructor` | src/db/block.cc:18-26 | an empty block with ten bytes reserved |
| `Block.Encoder.Reset` | src/db/block.cc:212-223 | an empty block in another page |
| `Block.Encoder.PushRestart` | src/db/block.cc:76-120 | the entry stands behind the others with its restart offset recorded, or the block is committed because it does not fit |
| `Block.Encoder.PushDelta` | src/db/block.cc:122-165 | the same for an entry that shares a prefix with the key before it |
| `Block.LedgerIs` | src/db/block.cc:78-142 | the bytes of the entries and their restart offsets add up to the ledger |
| `Block.Encoder.Push` | src/db/block.cc:28-37 | rejects keys of 0 or more than 256 bytes; full if and only if the ledger of the pairs pushed so far, with this one, would exceed the page; otherwise the pair is appended |
| `Block.Encoder.Commit` | src/db/block.cc:167-210 | offsets, counts and checksum go into the reserved space and overlap no entry; committing twice is harmless |
| `BlockReader.ReadsBack` | src/db/block.cc:269-318 | an entry reads back, key and value, if and only if its lengths fit their bytes |
| `BlockReader.RoundTripIff` | src/db/block.cc:239-257 | iterating a committed block yields the pushed pairs in order if and only if every delta length fits its byte |
| `BlockReader.ShortKeysClean` | src/db/block.cc:146-150 | keys of at most 255 bytes always fit |
| `BlockReader.CleanIff` | src/db/block.cc:146-150 | with ascending keys a length overflows if and only if a 256-byte delta key shares no first byte with the key before it |
| `BlockReader.LongKeyLost` | src/db/block.cc:146-150 | a block of two given keys, the second of 256 bytes, does not give back what was pushed |
| `BlockReader.LoseLongKey` | src/db/block.cc:28-165 | the encoder accepts both keys and makes such a block |
| `BlockReader.BlockReads` | src/db/block.cc:372-382 | counts and restart offsets read from a committed page are those of its entries |
| `BlockReader.StartsAre` | src/db/block.cc:403-406 | restart point `j` is entry `j * g`, and every entry is in a restart group |
| `BlockReader.Iterator.constructor` | src/db/block.cc:225-237 | an iterator at a restart point stands on its entry |
| `BlockReader.Iterator.ReadNext` | src/db/block.cc:246-318 | steps to the next pushed pair, reading no byte outside the page |
| `BlockReader.UpperBound` | src/db/block.cc:384-398 | the binary search stops between a restart key that is not greater and one that is |
| `BlockReader.InGroup` | src/db/block.cc:400-406 | only the chosen restart group can hold the key |
| `BlockReader.ScanGroup` | src/db/block.cc:408-423 | scanning that group finds what a scan of the whole block finds |
| `BlockReader.Find` | src/db/block.cc:372-424 | for every key, present or absent, the result of a linear scan of the whole block |
| `BlockReader.BlockIsSane` | src/db/block.cc:344-354 | a committed block passes its checksum comparison, for every checksum function |
| `BlockReader.SaneIff` | src/db/block.cc:344-354 | a page passes if and only if it ends in the checksum that a commit would write |
| `BlockReader.DamageNoticed` | src/db/block.cc:344-354 | damage that leaves the stored checksum passes if and only if the low 32 bits of the sums agree |
| `MetaIndex.LowerBound` | src/db/sst.cc:236-237 | the binary search stops at the boundary |
| `MetaIndex.CreateSuper` | src/db/sst.cc:92-108 | a super-index for more than 2048 pages, each entry the last key of its stretch of 128 |
| `MetaIndex.FindPageId` | src/db/sst.cc:202-248 | with or without super-index, the lower bound in the whole meta-index |
| `MetaIndex.FindRange` | src/db/sst.cc:250-270 | names exactly the pages to read: not below the lower bound, and with nothing at or above the upper bound before them; none if and only if all pages are below the lower bound |
| `MetaIndex.ReadsSomething` | src/db/sst.cc:250-270 | unless the bounds are reversed, there is a page to read if and only if some page is not below the lower bound |
| `Table.DistinctIsNewest` | src/db/index_ops.cc:221-229 | skipping repeated keys keeps exactly the newest version of every key |
| `Table.DistinctSorted` | src/db/index_ops.cc:221-229 | in strictly ascending order |
| `Table.Writer.constructor` | src/db/merge/write_buffer.h:30-34 | a buffer that holds nothing |
| `Table.Writer.EndOfBlock` | src/db/block.h:244-264 | a full page is indexed under its last key and handed over, and the buffer flushed after its last page |
| `Table.FitsAlone` | src/db/block.cc:78-142 | an entry that fits behind others fits a page of its own |
| `Table.Writer.WriteItem` | src/db/merge/write_buffer.h:36-57 | an error if and only if the entry fits no page; otherwise the pairs written grow by exactly this one |
| `Table.Finish` | src/db/index_ops.cc:247-257 | the last page is indexed and flushed |
| `Table.WriteIndex` | src/db/index_ops.cc:197-260 | an error if and only if some entry fits no page; otherwise pages and meta-index hold, in order, exactly the first version of every key |
| `TableLookup.OnlyPage` | src/db/sst.cc:236-247 | only the page at the meta-index's lower bound can hold the key |
| `TableLookup.FindInPage` | src/db/sst.cc:184-200 | the page's answer for the key |
| `TableLookup.FindInTable` | src/db/sst.cc:157-182 | the table's answer for the key |
| `TableLookup.QuotientBits` | src/db/index_ops.cc:51-61 | the least power of two with room for the keys at three quarters load |
| `TableLookup.CreateFilter` | src/db/index_ops.cc:51-68 | a filter with more slots than keys, refused for no keys or beyond 64 hash bits |
| `TableLookup.FillFilter` | src/db/index_ops.cc:231-232 | no insert is refused, and the hashes inserted are exactly those of the keys |
| `TableLookup.Sst.Probe` | src/db/sst.cc:118-182 | the filter lets a key through if and only if some key of the table agrees with it on the low bits of the hash |
| `TableLookup.Sst.Lookup` | src/db/sst.cc:118-182 | filter, super-index, meta-index, page and restart search together return exactly the newest version of the key, or nothing if and only if it was never written |
| `TableLookup.Export` | src/db/index_ops.cc:262-340 | fails if and only if the input is empty, too large for a filter, or has an entry that fits no page; writing a sorted multi-version input and loading it gives a table that answers as above, unless a 256-byte key follows one with another first byte |
| `TableLookup.LinkedIff` | src/db/block.cc:146-150 | the exception of the row above is exactly a 256-byte key after a key with another first byte |
| `TableReader.Reader.constructor` | src/db/block.h:312-328 | a reader at the first pair |
| `TableReader.Reader.Next` | src/db/block.h:334-357 | the next pair, opening the next page when one is used up |
| `TableReader.Reader.Stands` | src/db/block.h:359-370 | the reader stands on the pair that follows those it has passed, and is at its end if and only if there is none |
| `TableReader.ReadTable` | src/db/block.h:291-370 | reading to the end yields all pairs of the table in order |
| `Memtable.Memtable.constructor` | src/db/memtable.cc:126-142 | an empty memtable |
| `Memtable.Memtable.Insert` | src/db/memtable.cc:32-44 | the memtable is a map of newest versions, and the insertion updates it |
| `Memtable.Memtable.Get` | src/db/memtable.cc:46-53 | the lower bound finds the map's value, or nothing |
| `Memtable.InsertedOrdered` | src/db/skiplist.h:72-81 | a new version goes where the order of keys and sequence numbers puts it |
| `Memtable.FirstIsNewest` | src/db/skiplist.h:72-81 | the first version of a key in that order is its newest |
| `Memtable.BoundsInOrder` | src/db/merge/sst_stream.h:226-233 | a cursor starts behind its end if and only if two versions or more lie from the upper to below the lower bound |
| `Memtable.ReversedBounds` | src/db/merge/sst_stream.h:226-233 | an instance with reversed bounds |
| `Memtable.InRangeIs` | src/db/range_iterator.cc:187-219 | both bounds belong to the range, and an absent bound excludes nothing |
| `Memtable.Cursor.constructor` | src/db/merge/sst_stream.h:217-236 | a cursor over the slice of the range, wherever it does not start behind its end |
| `Memtable.Cursor.PopFront` | src/db/merge/sst_stream.h:242-249 | yields one key and skips its older versions |
| `Memtable.Cursor.AllPopped` | src/db/merge/sst_stream.h:204-249 | at its end the cursor has yielded the newest version of every key of the range, and only newest versions |
| `Wal.ReadsBackIff` | src/db/wal.cc:77-150 | a record reads back, whatever follows it, if and only if its value has fewer than 65536 bytes |
| `Wal.CutRecord` | src/db/wal.cc:77-126 | a record cut off anywhere is an error, for every checksum function |
| `Wal.ReadIsEncoded` | src/db/wal.cc:77-150 | whatever is read as a record is the encoding of that record, checksum included |
| `Wal.ReadFile` | src/db/wal.cc:77-151 | the loop reads the records up to the end or the first error |
| `Wal.LogReads` | src/db/wal.cc:229-268 | appended records are read in order, and reading goes on with what follows them |
| `Wal.LogRoundTrip` | src/db/wal.cc:229-268 | a whole log reads back; one cut inside a record gives the records before it and then an error |
| `Wal.LogIff` | src/db/wal.cc:77-151 | a log reads without an error if and only if it consists of whole encoded records, and those are what is read |
| `Wal.LogsReadBack` | src/db/wal.cc:174-194 | the logs of all threads give back all their records without an error |
| `Wal.CutFileFails` | src/db/wal.cc:174-194 | one file cut inside a record is an error of the whole, whatever the other files hold |
| `Wal.SortBySeqIs` | src/db/wal.cc:196-197 | sorting orders by sequence number and keeps every record as often as it was there |
| `Wal.ReadAll` | src/db/wal.cc:174-194 | the records of all files, and whether any had an error |
| `Wal.ReplayRestores` | src/db/memtable.cc:463-481 | inserting records in sequence order leaves each key with the value of its greatest sequence number |
| `Wal.Replay` | src/db/wal.cc:276-297 | fails if and only if some file has an error; otherwise the fresh memtable holds each key's record of greatest sequence number, and the counter is above all logged; with distinct sequence numbers, above all versions in the memtable too |
| `Wal.Recover` | src/db/memtable.cc:455-487 | what the threads logged is what replay restores |
| `Partitions.IdMonotone` | src/utils.h:64-81 | the partition id is monotone in key order |
| `Partitions.PrefixIs` | src/utils.h:64-73 | the prefix determines the first two bytes of the key |
| `Partitions.IdIs` | src/utils.h:75-81 | the id is the first number from the prefix on that is one below a multiple of the partition size |
| `Partitions.IdSharedIff` | src/utils.h:75-81 | two keys share a partition if and only if their prefixes have the same quotient by the size |
| `Partitions.CreatePartitions` | src/db/sst_manager.cc:39-51 | 2^e partitions with these ids, which fit sixteen bits; the last ends at 65535 |
| `Partitions.IdIsCreated` | src/utils.h:75-81 | every key's id is the first created id that is not below its prefix |
| `Partitions.SumLengthsIs` | src/db/index_ops.cc:104-105 | the lengths of a range add up to the bytes of its keys and values |
| `Partitions.PartitionRanges` | src/db/index_ops.cc:70-118 | a sorted memtable splits into contiguous non-empty ranges with strictly increasing ids, each holding keys of its own id only, with right counts and lengths |
| `Partitions.PiecesConcat` | src/db/index_ops.cc:85-115 | the ranges put together again are the memtable |
| `Partitions.RoutesToRange` | src/utils.h:75-81 | a key is found in the range of its own id and in no other, and that id is the one for its prefix |
| `RwSync.LogIsWrites` | src/async/rw_sync.h:96-171 | the log holds exactly the writes made, in order |
| `RwSync.Entering` | src/async/rw_sync.h:132-151 | until the freeze every idle writer gets in; from then on none does, and withdrawing clears its counter |
| `RwSync.CountersTell` | src/async/rw_sync.h:132-151 | unless slots are shared: in every reachable state a counter is set if and only if its writer is active, and a slot of nobody is clear |
| `RwSync.StepKeepsInv` | src/async/rw_sync.h:96-171 | every step keeps: a counter is set exactly for a writer that is not idle, nobody inside behind the scan; once frozen nobody more gets in |
| `RwSync.DrainIsFinal` | src/db/memtable.cc:380-383 | once a scan after the freeze came back empty nobody is inside, nobody ever will be, and no write is added |
| `RwSync.ScanDrainsIff` | src/async/rw_sync.h:157-161 | unless slots are shared: in every reachable frozen state an uninterrupted scan comes back empty if and only if all writers are idle |
| `RwSync.CanDrain` | src/db/memtable.cc:380-383 | unless slots are shared: from every reachable frozen state the wait for the writers can end |
| `RwSync.SharedSlotIsUnsafe` | src/async/rw_sync.h:132-151 | two writers in one slot: a run in which the scan comes back empty while one of them is inside |
| `RwSync.DrainSafeIff` | src/async/rw_sync.h:20-33 | no run is unsafe if and only if no two writers share a slot |
| `RwSync.ThreadSlots` | src/db/memtable.cc:151-157 | slots taken as thread index modulo `n` are unshared if and only if there are at most `n` threads |
| `Manifest.StepKeepsInv` | src/db/sst_manager.cc:355-382 | every step of every persister, change and unlink keeps the invariant, and the file's version never falls |
| `Manifest.ManifestIsSafe` | src/db/sst_manager.cc:244-275 | in every run: written versions never fall and the last is in the file, a persister that has written leaves a version at least as new as its own change, and the file names no unlinked table |
| `Manifest.VersionsAre` | src/db/sst_manager.cc:244-257 | a version names a table if and only if the table was there at first or came with a change up to it, and no later change up to it took it away |
| `Manifest.FinishedIsNamed` | src/db/sst_manager.cc:355-390 | once a persister has finished, the manifest names every table its change brought, unless a later change in the manifest took it away, and none that its change took away |
| `Manifest.LastFinished` | src/db/sst_manager.cc:355-390 | when the persister of the last change has finished, the manifest names exactly the tables there are |
| `Manifest.UnlinkedAre` | src/db/sst_manager.cc:264-275 | the files unlinked are exactly the inputs of the compactions that unlinked |
| `Manifest.Undisturbed` | src/db/sst_manager.cc:355-390 | an undisturbed persister writes the version it snapped |
| `Manifest.ManifestCatchesUp` | src/db/sst_manager.cc:355-390 | after every run the persisters can all finish; then the manifest is at the last version, unless the last change could not be persisted |

## Left out

- File input and output, `io_uring`, executors, coroutines, `fdatasync`: awaits are step boundaries, a page write is one step.
- The concurrent skip list: taken as an ordered sequence.
- `qf_remove`, `qf_merge` and the filter iterator: the database never calls them.
- Loading a table's footer, meta-index bytes and filter from disk: `TableLookup.Export` hands them over in memory.
- The text of the manifest, including its cut to one page, and parsing it.
- Refilling read buffers in `sst_stream`: a source is its list of pairs, as `TableReader.ReadTable` reads it.
- Scans under concurrent writers: `Memtable.Cursor` sees all versions, so `_skip_invisible` has nothing to skip.
- Crash recovery with a flushed-sequence threshold.
- Values that are pointers, and errors from values that cannot be parsed.
- Compaction of the last level into itself, beyond the two lemmas about it.
- Fairness: that a step can happen is proved, not that the scheduler takes it.
- Memory budgets, backpressure, the page cache, statistics and logging.
- SstManager.Partition.CommitTask: takes the output's file id at the commit, where the source takes it when the merge starts.
- Compaction.Compact: has no other step between merge and commit; the inputs are immutable, and the state machine covers the steps between.
- StoreScan.ScanStore: requires that no cursor starts behind its end, which `Memtable.BoundsInOrder` puts in terms of the bounds, and files without lost keys.
- Which files a scan is given: `database::scan` takes those of the one partition that its lower bound, or else its upper bound, belongs to.
- SstManager.Partition.ScheduleLevel: picks from the level itself, where the source picks from a snapshot of it; `LsmSafety.LaunchFromSnapshot` covers the difference.
- RangeScan.Pull: does not take the item still buffered when the scan ends behind the upper bound; it lies behind the range too.
- TableLookup.Export: says nothing about the answers of a table in which a 256-byte key follows a key with another first byte; `BlockReader.RoundTripIff` says what is lost.
- TableLookup.FillFilter: is a pass of its own, where the source inserts into the filter in the loop that writes pages.
- QuotientFilter.Filter.Insert: finds out beforehand whether a slot is free, where the source would start a loop that never ends.
- PackedSlots.SlotTable.constructor: does not cover remainders of 61 to 63 bits, for which the source shifts a 64-bit word by 64 or more.
- QuotientFilter.Filter.constructor: does not cover those remainders either.
- Partitions.IdMonotone: does not cover keys of one byte, for which the source reads a byte behind the key; nor does any other member about ids.
- Varint.DecodeFast: writes the ten unrolled groups as a loop over nine and the tenth.
