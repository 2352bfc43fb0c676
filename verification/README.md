# MatrixKV in Dafny

MatrixKV is RocksDB 5.18 with a level 0 on NVM. This project models the parts of it that
carry the hardest guarantees and proves those guarantees for all inputs, all
interleavings or all runs.

| files | part of the system |
|---|---|
| `Lsm`, `LevelCursors`, `CompactionRules`, `CompactionIterator`, `CompactionReads`, `LiveReads` | compaction as a transformation that no live read can notice, and exactly where one can |
| `Subcompactions`, `SubcompactionBoundaries` | splitting a compaction by key range |
| `SuperVersions`, `SuperVersionSafety` | the lock-free thread-local SuperVersion protocol |
| `ClockCache`, `ClockSafety` | the CLOCK cache shard at the granularity of atomic steps |
| `LruTable`, `LruShard`, `LruRuns` | the LRU cache shard: hash table, intrusive list, reference counts, byte accounting |
| `SanitizedInputs`, `CleanCuts`, `ExclusivePicks`, `ExclusiveRuns`, `UniversalPicks`, `UniversalRuns` | what compactions may pick |
| `ColumnCompaction` | the bookkeeping of MatrixKV's column compactions |
| `Counting`, `Wrappers` | counting in finite sets, optional values |

`dafny verify dfyconfig.toml` takes the whole project.

## How the models are built

**Compaction.** An internal key is a user key, a sequence number and a kind (Put, Delete,
SingleDelete); user keys are integers because only their order matters. The iterator is a
class with the source's fields, proved equal, record by record, to the rules in
`CompactionRules`. A read looks up the newest version a sequence number can see, first in
the compaction's output (or input) and then in the data below. The theorems speak of reads
at every listed snapshot and at the tip.

The list may hold snapshot 0. The source uses 0 also for "no earlier snapshot" and for "no
version of this key yet", so a Put at sequence number 0, which snapshot 0 reads, can be
lost. `LiveReads.ZeroLost` says exactly when: a snapshot at 0 exists, the key's oldest
version in the input is a Put at 0, and

- it is the key's only version in the input, or
- the newest version in the stripe just above 0 is a Delete that the bottommost rule
  handles, or
- the version above it is a SingleDelete in that stripe, and the Put has a value to be
  cleared or the pair is dropped. The pair is dropped when no writer can conflict with the
  SingleDelete, or when a newer version of the key has been output; the first output of a
  run does not count.

`LiveReadsSurviveIff` proves that all live reads of a key survive in every other case and
that one is lost in each of these; a newer Put protects the one at 0.

**SuperVersions and CLOCK.** One step is one atomic action of one party: a swap, a
compare-and-swap, a fetch-and-add, a mutex operation, or one statement under the mutex.
The set of threads is unbounded, threads start and exit, and steps interleave freely.
A reference count is proved equal to the number of places that own a reference.

**LRU.** Handles are heap objects with `next` and `prev` pointers; a ghost sequence names
the list they form. Each public method is proved against the shard's invariant and a
statement of what it does to the table, the list, the outside references and the freed
entries. `LruRuns.Run` carries the invariant through any series of calls on a new shard.

**Picking.** Files are values; `ExclusivePicks` models the picker as an object whose fields
are the registered compactions and the files with the `being_compacted` flag up. The
storage a pick looks at is arbitrary at every call, so flushes, ingestions and installed
results may come in between.

One place where the source's comments and its code differ, and the code is followed:
`cache/lru_cache.h` says that every new handle starts out referenced from outside, but
`Insert` without a handle puts the entry straight on the LRU list. `SetCapacity` does not
shrink the high-priority pool to its new share. Its contract says exactly when the pool is
within that share afterwards: when the high-priority entries among those that stay are. A
capacity that does not shrink, or shrinks to 0, keeps or makes it so; `LruRuns.Run` carries
the bound through every run in which each smaller capacity is followed by such a call, a
change of the ratio or an erasure of all idle entries. `ShrinkingOverfillsPool` breaks it in
three calls, for all sizes at which an entry fits into the old share and the new capacity
but not into the new share.

## Model

| member | source | states |
|---|---|---|
| `LevelCursors.AdvanceCursor` | db/compaction.cc:430-447 | a level's moving cursor stops at the first file that does not end before the key, and the answer for the level is whether any file of it covers the key |
| `LevelCursors.KeyNotExistsBeyondOutputLevel` | db/compaction.cc:420-450 | answers exactly what a full scan of all deeper levels answers, and leaves every cursor behind the key, so it can be asked about any larger key next |
| `LevelCursors.ProbeAll` | db/compaction.cc:420-450 | for every nondecreasing series of keys the cursors agree with the full scan at every key |
| `LevelCursors.NotBeyondIsSafe` | db/compaction.cc:420-450 | when the answer is "not beyond", no record of the key survives below, at the bottommost level or not |
| `CompactionIteration.CompactionIterator.FindEarliestVisibleSnapshot` | db/compaction_iterator.cc:634-655 | returns the earliest snapshot that sees a sequence number and the latest that does not |
| `CompactionIteration.CompactionIterator.Recognise` | db/compaction_iterator.cc:261-323 | noticing a new user key and moving to the record's stripe is the rule's arrival step |
| `CompactionIteration.CompactionIterator.HandleSingleDelete` | db/compaction_iterator.cc:337-468 | the SingleDelete branches with their peek at the next record implement the SingleDelete rule |
| `CompactionIteration.CompactionIterator.HandleBottomDelete` | db/compaction_iterator.cc:514-538 | the bottommost Delete branch skips exactly the versions in the Delete's own stripe and keeps the Delete iff an older version remains |
| `CompactionIteration.CompactionIterator.ProcessRecord` | db/compaction_iterator.cc:218-606 | one turn of the loop is one step of the rules, whichever branch is taken |
| `CompactionIteration.CompactionIterator.NextFromInput` | db/compaction_iterator.cc:218-606 | stops at the next record of the specified output, or at the end exactly when no output is left |
| `CompactionIteration.CompactionIterator.PrepareOutput` | db/compaction_iterator.cc:608-632 | squashes the sequence number in exactly the specified case |
| `CompactionIteration.CompactionIterator.SeekToFirst` | db/compaction_iterator.cc:110-113 | the first record is the first of the whole specified output |
| `CompactionIteration.CompactionIterator.Next` | db/compaction_iterator.cc:115-158 | each call yields the next record of the specified output, and the cursor over deeper levels never has to move back |
| `CompactionIteration.Drain` | db/compaction_iterator.cc:110-158 | the iterator from start to end produces the specified output of the whole input |
| `LiveReads.LiveReadsSurviveIff` | db/compaction_iterator.cc:218-655 | for every sorted input, snapshot list, level shape and older data, all reads of a key at live snapshots and at the tip survive if and only if no Put at 0 is lost as described above, for keys used with Puts and Deletes and for keys that alternate Put and SingleDelete |
| `LiveReads.CompactionPreservesReads` | db/compaction_iterator.cc:218-655 | outside that condition, reading any key at any live snapshot or at the tip gives the same answer before and after |
| `LiveReads.FlushKeepsReadsIff` | db/compaction_iterator.cc:269-490 | a flush of Puts and Deletes over any older data keeps all live reads of a key iff there is no snapshot at 0 or the key's newest record in the input is not a Put at 0 |
| `LiveReads.KeptIffPlain` | db/compaction_iterator.cc:469-538 | from any state of the iterator on, a Put at 0 of a key without SingleDeletes is output unchanged unless it stands alone or the bottommost rule skips it |
| `LiveReads.KeptIffAlternating` | db/compaction_iterator.cc:337-468 | the same for an alternating key, unless the Put stands alone or the SingleDelete above it takes it |
| `LiveReads.OutputAhead` | db/compaction_iterator.cc:395-400 | when the SingleDelete above the Put at 0 is reached, has_outputted_key_ is set exactly if the key has more than one version above it, or one and a record of a smaller key is output before |
| `LiveReads.ReadsIffKept` | db/compaction_iterator.cc:218-655 | all live reads survive iff the Put at 0 is output unchanged; any other treatment of it changes the read at 0 |
| `LiveReads.NewerPutProtects` | db/compaction_iterator.cc:269-323 | a Put at 5 over a Put at 0, with a snapshot at 0, is flushed unchanged |
| `LiveReads.SingleDeleteTakesPutAtZero` | db/compaction_iterator.cc:381-420 | a SingleDelete at 5 over a Put at 0, with a snapshot at 0, is flushed to nothing or to a pair without the value |
| `LiveReads.BottommostDeleteTakesPutAtZero` | db/compaction_iterator.cc:514-538 | a bottommost compaction of a Delete at 5 over a Put at 0, with a snapshot at 0, outputs nothing |
| `LiveReads.MixedKeySquashesDelete` | db/compaction_iterator.cc:608-632 | a SingleDelete over a Delete at 0, with a snapshot at 0, has the Delete squashed, against the source's assertion |
| `CompactionReads.CompactionOutputSorted` | db/compaction_iterator.cc:218-632 | the output is strictly sorted in internal-key order, squashed sequence numbers included |
| `CompactionReads.CompactionPreservesKeyUse` | db/compaction_iterator.cc:327-468 | the surviving history of a key over the older data still alternates (or still has no SingleDelete) and still descends, so the output can be compacted again |
| `CompactionReads.SquashAssertionHolds` | db/compaction_iterator.cc:608-632 | throughout a run only Puts have their sequence number squashed, for any mix of kinds, unless under a snapshot at 0 a SingleDelete in the stripe just above it, which a writer may conflict with, stands right above a Delete at 0 that is eligible for squashing |
| `CompactionReads.ProperUseSquashesPuts` | db/compaction_iterator.cc:608-632 | on keys in one of the two proper uses the assertion holds without exception |
| `CompactionReads.SquashAssertionFails` | db/compaction_iterator.cc:608-632 | every such pair without newer versions of its key makes the run squash a Delete |
| `CompactionReads.EmitKeepsReads` | db/compaction_iterator.cc:218-606 | the read guarantee from any reachable state of the iterator on, if the Put at 0 comes through |
| `CompactionReads.SquashedIsLast` | db/compaction_iterator.cc:608-632 | a record whose sequence number is squashed is the last of its key in the output |
| `Subcompactions.ProcessKeyValueCompaction` | db/compaction_job.cc:917-962 | a subcompaction writes the compaction of the input from its start key on, cut off at its end key |
| `Subcompactions.CompactionIsPerUserKey` | db/compaction_iterator.cc:218-606 | on Puts and Deletes, compacting is compacting each user key's records alone and concatenating |
| `Subcompactions.SplitIsInvisible` | db/compaction_job.cc:429-433 | on Puts and Deletes, any split at increasing boundaries writes exactly what the unsplit compaction writes |
| `Subcompactions.RunSubcompactions` | db/compaction_job.cc:425-437 | the outputs of all subcompactions in key order are the specified split output |
| `Subcompactions.SplitReadsSurviveIff` | db/compaction_job.cc:917-962 | however a job is split, SingleDeletes included, all live reads of a key survive iff the subcompaction the key belongs to loses no Put at 0 |
| `Subcompactions.SplitPreservesReads` | db/compaction_job.cc:917-962 | outside that condition every live read of the combined output is the read of the input |
| `SubcompactionBoundaries.CollectCandidates` | db/compaction_job.cc:462-497 | the candidates are smallest or largest keys of the input files up to the output level, and no such file reaches beyond the outermost ones |
| `SubcompactionBoundaries.SpansCompaction` | db/compaction_job.cc:462-497 | when all input levels are at most the output level, the compaction's own smallest and largest key are candidates and all others lie between |
| `SubcompactionBoundaries.GroupRanges` | db/compaction_job.cc:554-572 | the greedy grouping closes pieces that follow one another, each at least the mean |
| `SubcompactionBoundaries.PiecesConserve` | db/compaction_job.cc:554-576 | the sizes of the pieces from any one on add up to the size of the range they cover |
| `SubcompactionBoundaries.SplitCandidates` | db/compaction_job.cc:499-577 | boundaries increase strictly, there is one more size than boundaries, the sizes sum to the whole, there are never more pieces than allowed, and every piece but the last carries at least an even share |
| `SubcompactionBoundaries.GenSubcompactionBoundaries` | db/compaction_job.cc:454-577 | the same for the candidates of a compaction's files: the pieces cover its whole range, from its smallest to its largest key |
| `SuperVersionSafety.StepKeepsInv` | db/column_family.cc:1097-1234 | every step of every party keeps the five invariants and is legal: no reference is taken on or dropped from a dead SuperVersion |
| `SuperVersionSafety.RunKeepsInv` | db/column_family.cc:1097-1234 | the invariants hold in every state of every interleaving |
| `SuperVersionSafety.EnabledIsReady` | db/column_family.cc:1111-1172 | no step a thread can reach touches a SuperVersion that does not exist |
| `SuperVersionSafety.ReferencesConserved` | db/column_family.cc:346-380 | in every reachable state refs is the number of owners (the column family, an install's old version, slots, scraped slots, threads, clients); a SuperVersion is cleaned up at most once, and a count of zero means it has been or exactly one party is about to |
| `SuperVersionSafety.EveryStepLegal` | db/column_family.cc:346-396 | every assertion about references holds at every step; in particular thread exit and scraping never drop the last reference |
| `SuperVersionSafety.ReaderStepLegal` | db/column_family.cc:383-396 | a reader's Unref at thread exit or after pinning is never the last, and it cleans up only what nobody refers to |
| `SuperVersionSafety.InstallStepLegal` | db/column_family.cc:1218-1234 | the Unref of a scraped slot is never the last |
| `SuperVersionSafety.SlotsStaySafe` | db/column_family.cc:1111-1172 | outside an install a slot is in use, obsolete or caches the current SuperVersion; Swap never finds the in-use mark and a failed compare-and-swap has found the obsolete mark |
| `SuperVersionSafety.GetWasCurrent` | db/column_family.cc:1111-1154 | what a Get returns carried the current version number at some moment between its swap and its return |
| `ClockSafety.StepKeepsInv` | cache/clock_cache.cc:404-676 | every atomic step keeps reference counts, places, table, usage, mutex and generations exact and meets the code's assertions |
| `ClockSafety.RunKeepsInv` | cache/clock_cache.cc:404-676 | the invariants hold in every state of every interleaving |
| `ClockSafety.EveryStepLegal` | cache/clock_cache.cc:404-498 | a dropped reference exists, a recycled handle is idle and recycled for the first time since it was filled, an evicted entry is in the table |
| `ClockSafety.RecycledExactlyOnce` | cache/clock_cache.cc:404-498 | each handle is in exactly one of in use, owed by exactly one thread, which is to recycle it or has filled it and not yet published it, or in the recycle bin once; and refs counts its referrers |
| `ClockSafety.QuiescentShard` | cache/clock_cache.cc:541-585 | whenever the mutex is free the table maps exactly the in-cache handles by their key and usage is the total charge of the handles outside the bin |
| `ClockSafety.HeldReferenceIsStable` | cache/clock_cache.cc:428-468 | while a client holds a reference the handle's key, value and charge do not change and its deleter has not run, although stale pointers may still reference the handle for a moment |
| `ClockSafety.LookupFindsItsKey` | cache/clock_cache.cc:611-634 | a Lookup that returns a handle returns one filled for the key asked for |
| `LruTable.LRUHandleTable.constructor` | cache/lru_cache.cc:25-28 | a new table is the empty map |
| `LruTable.LRUHandleTable.FindPointer` | cache/lru_cache.cc:68-75 | finds the position of the entry in the bucket its hash names |
| `LruTable.LRUHandleTable.Lookup` | cache/lru_cache.cc:38-41 | reads the finite map |
| `LruTable.LRUHandleTable.Insert` | cache/lru_cache.cc:42-57 | updates the finite map, returns the displaced entry, and keeps the element count exact and at most the length |
| `LruTable.LRUHandleTable.Remove` | cache/lru_cache.cc:58-67 | removes one key from the finite map and returns its entry |
| `LruTable.LRUHandleTable.NewLength` | cache/lru_cache.cc:77-80 | the new length is a power of two, at least 16 and at least 1.5 times the entries, and above 16 less than twice that |
| `LruTable.LRUHandleTable.Resize` | cache/lru_cache.cc:76-100 | rehashing into the new length keeps the finite map |
| `LruShard.Unlink` | cache/lru_cache.cc:183-198 | the pointers run around the ring without the node |
| `LruShard.LinkAfter` | cache/lru_cache.cc:199-222 | the pointers run around the ring with the node in its place |
| `LruShard.LRUCacheShard.constructor` | cache/lru_cache.cc:102-116 | a new shard meets the invariant and is empty |
| `LruShard.LRUCacheShard.LRU_Remove` | cache/lru_cache.cc:183-197 | the list loses exactly the entry; low-priority entries stay the old end up to lru_low_pri_, and both byte counts stay exact |
| `LruShard.LRUCacheShard.LRU_Insert` | cache/lru_cache.cc:199-222 | the entry joins at the new end of its pool, the pools stay contiguous, the byte counts exact, and after a high-priority insertion the pool is within its capacity |
| `LruShard.LRUCacheShard.MaintainPoolSize` | cache/lru_cache.cc:224-232 | ends with the high-priority pool within its capacity, without ever reaching the dummy head; entries leave the pool oldest first and not one more than needed |
| `LruShard.LRUCacheShard.Free` | cache/lru_cache.h:108-114 | is reached only with one of the two legal reference states, at most once per entry, and never for a live entry |
| `LruShard.LRUCacheShard.EvictFromLRU` | cache/lru_cache.cc:234-247 | evicts the oldest entries, only until the charge fits, and takes exactly them out of the table |
| `LruShard.LRUCacheShard.SetCapacity` | cache/lru_cache.cc:249-262 | over the new capacity nothing evictable is left; exactly as many of the oldest entries go, and are freed, as it takes; usage is within the capacity iff what is in use is, and the high-priority pool is within its new share iff the high-priority entries left are |
| `LruShard.LRUCacheShard.SetStrictCapacityLimit` | cache/lru_cache.cc:264-267 | the invariant does not depend on the limit being strict |
| `LruShard.LRUCacheShard.SetHighPriorityPoolRatio` | cache/lru_cache.cc:293-298 | the high-priority pool is within its new capacity |
| `LruShard.LRUCacheShard.Lookup` | cache/lru_cache.cc:269-281 | returns what the table maps, counts one more outside reference, and takes an idle entry off the list |
| `LruShard.LRUCacheShard.Ref` | cache/lru_cache.cc:283-291 | counts one more outside reference and takes an idle entry off the list |
| `LruShard.LRUCacheShard.Settle` | cache/lru_cache.cc:312-327 | when the last outside reference goes, a full cache has an empty list, and the entry is dropped exactly when the cache is full or erasing is forced |
| `LruShard.LRUCacheShard.Release` | cache/lru_cache.cc:300-336 | gives back one reference; frees the entry exactly when it was the last and the entry is out of the table, the cache is over capacity or erasing is forced; else the last reference puts it at the new end of its pool |
| `LruShard.LRUCacheShard.InsertEvicted` | cache/lru_cache.cc:371-405 | refuses exactly when what is pinned leaves no room and the limit is strict or no handle is wanted; else the table maps the new entry and the displaced one is freed iff nobody holds it |
| `LruShard.LRUCacheShard.Insert` | cache/lru_cache.cc:338-414 | evicts the shortest sufficient run of oldest entries; succeeds or fails as above; frees what it evicted, the displaced entry if nobody holds it or the new one if it was refused without a handle wanted, and nothing else; under a strict limit usage does not pass capacity |
| `LruShard.LRUCacheShard.Erase` | cache/lru_cache.cc:416-439 | the key leaves the table; the entry is freed exactly when nobody outside holds it |
| `LruShard.LRUCacheShard.EraseUnRefEntries` | cache/lru_cache.cc:128-149 | frees exactly the entries on the list |
| `LruRuns.Run` | cache/lru_cache.cc:102-439 | after any series of calls on a new shard the invariant holds and the outside references are those the client holds; with the strict limit on and never turned off usage never exceeds a capacity that never shrinks; the high-priority pool is within its share unless the capacity has shrunk with no call since that restores the pool |
| `LruRuns.ShrinkingOverfillsPool` | cache/lru_cache.cc:249-262 | for every capacity, smaller capacity, ratio and charge such that the charge fits into the pool and into the smaller capacity but not into the pool's share of it, an insertion, a release and the smaller capacity leave the pool over its share |
| `LruRuns.HalfOfTenThenOfSix` | cache/lru_cache.cc:249-262 | for one, an entry of 5 in a pool of half of 10 is over the pool's share once the capacity is 6 |
| `LruRuns.DoSetCapacity` | cache/lru_cache.cc:249-262 | the exact condition for the pool in terms of the state before the call; it holds whenever the capacity does not shrink and the pool was within its share, and for capacity 0 |
| `SanitizedInputs.HaveOverlappingKeyRanges` | db/compaction_picker.cc:754-775 | for nonempty ranges, true exactly when some key is in both |
| `SanitizedInputs.RangeOverlapWithCompaction` | db/compaction_picker.cc:268-282 | true exactly when a running compaction writes to the level in the range |
| `SanitizedInputs.Extend` | db/compaction_picker.cc:824-844 | grows the span exactly over neighbours linked by a shared boundary key, so that nothing outside touches it |
| `SanitizedInputs.SpreadIn` | db/compaction_picker.cc:824-847 | every file the expansion of one level includes is in every closed set that contains the chosen ones |
| `SanitizedInputs.SanitizeLevel` | db/compaction_picker.cc:801-903 | one round of the outer loop leaves all levels up to this one closed and all deeper ones covering the hull so far, or finds a busy file that every closed superset needs |
| `SanitizedInputs.SanitizeForAllLevels` | db/compaction_picker.cc:778-911 | the result is the least closed superset of the input; it is refused for a busy file exactly when some busy file is in every closed superset, and else for a busy range exactly when a running compaction writes into its hull at the output level |
| `SanitizedInputs.NothingOlderLeftBehind` | db/compaction_picker.cc:778-911 | in a closed set, a file left behind on the levels taking part that shares a key with a chosen file is newer than it |
| `ColumnCompaction.AddInputDeletions` | db/compaction.cc:372-403 | a column compaction deletes its inputs below level 0, replaces every unfinished row by what is left of it, and removes and reports each finished row once; a plain compaction deletes all inputs |
| `ColumnCompaction.StepKeepsInv` | db/compaction.cc:372-416 | every flush and column compaction keeps each row's metadata equal to what is left of the row |
| `ColumnCompaction.EveryRowIsTiled` | db/compaction.cc:372-416 | over any run, the slices taken from a row are adjacent, disjoint and in order; its size is the original minus what was taken and its smallest key is the first one left; it has left level 0 exactly when all its keys were compacted, each once, and it was reported finished once |
| `UniversalPicks.SummarizeLevel` | db/compaction_picker_universal.cc:219-249 | a level counts as busy exactly when one of its files is, with trivial moves allowed or not |
| `UniversalPicks.CalculateSortedRuns` | db/compaction_picker_universal.cc:211-253 | the runs are in age order and stand for all files, each busy exactly when a file it stands for is |
| `UniversalPicks.PickToReduceSortedRuns` | db/compaction_picker_universal.cc:447-643 | picks the newest candidate that grows wide enough and none exactly when no candidate does; the pick is safe |
| `UniversalPicks.PickToReduceSizeAmp` | db/compaction_picker_universal.cc:651-784 | picks everything from the first idle run on exactly when all of it is idle and the newer runs amplify the oldest beyond the limit; the pick is safe |
| `UniversalPicks.PickCompaction` | db/compaction_picker_universal.cc:257-331 | a pick is made exactly when there are enough runs and one of the three rules applies; whichever does, the block is contiguous with no file being compacted, and its output level is at or below every picked run and strictly above the next older run that is not on level 0 |
| `UniversalPicks.PickKeepsAgeOrder` | db/compaction_picker_universal.cc:588-597 | putting the merged run on the output level leaves all runs in age order |
| `UniversalPicks.OutputLevelIsFree` | db/compaction_picker_universal.cc:588-597 | newer runs left behind are on higher levels and older ones on lower levels than the output |
| `UniversalPicks.CollectInputs` | db/compaction_picker_universal.cc:606-625 | the inputs are exactly the files of the picked runs, and none is being compacted |
| `UniversalRuns.StepKeepsInv` | db/compaction_picker_universal.cc:257-406 | every flush, safe pick, install and failed compaction keeps any two runs, and the places compactions in flight will write to, in order by age and by level |
| `UniversalRuns.AgeOrderAlways` | db/compaction_picker_universal.cc:257-406 | however flushes, picks, installs and failures of any number of compactions interleave, a search meets the runs newest data first in every state |
| `UniversalRuns.OutputStaysFree` | db/compaction_picker_universal.cc:588-597 | while a compaction is in flight no other run is on its output level below 0 and no other compaction in flight writes to it |
| `UniversalRuns.SafePickIsChoosable` | db/compaction_picker_universal.cc:257-331 | every safe pick of the list the picker sees is a block of runs that no other compaction has |
| `UniversalRuns.ViewIsSortedRuns` | db/compaction_picker_universal.cc:211-253 | for the levels a state stands for, the list of the state is what the sorted runs of those levels are |
| `UniversalRuns.PickIsChoosable` | db/compaction_picker_universal.cc:257-331 | the sorted runs of given levels are the same in every list of them, so every safe pick made from the levels is a step of the state |
| `UniversalRuns.LevelsBehind` | db/compaction_picker_universal.cc:211-253 | every reachable state stands for some levels |
| `ExclusivePicks.GetBoundaryKeys` | db/compaction.cc:80-118 | looking only at the first and last file below level 0 gives the tightest range of all inputs |
| `CleanCuts.GrowOnce` | db/compaction_picker.cc:226-266 | one more search keeps what there was, stays within every clean cut around it and, if it finds no more, has found a clean cut |
| `CleanCuts.NoMoreTaken` | db/compaction_picker.cc:486-506 | equal numbers of output-level files mean that the wider inputs meet no other file of the output level |
| `CleanCuts.BetweenTaken` | db/compaction_picker.cc:507-517 | input-level files within the outermost keys of what is taken meet no other file of the output level |
| `CleanCuts.CoversPrefix` | db/compaction_picker.cc:649-683 | a range cut at the limit and grown to a clean cut leaves behind only files that start at the reported key or later |
| `ExclusivePicks.CompactionPicker.FilesRangeOverlapWithCompaction` | db/compaction_picker.cc:284-302 | true exactly when a running compaction writes to the level within the hull of the files |
| `ExclusivePicks.CompactionPicker.ExpandInputsToCleanCut` | db/compaction_picker.cc:226-266 | below level 0 the result is the least clean cut that contains the inputs: no other file of the level has a key within its range; it is refused exactly when one of its files is busy |
| `ExclusivePicks.CompactionPicker.SetupOtherInputs` | db/compaction_picker.cc:425-532 | every file of the output level with a key within the range of the final inputs is taken, what is taken is a clean cut, a clean cut of inputs stays one and only grows, and whatever is added is idle |
| `ExclusivePicks.CompactionPicker.TryOverlapping` | db/compaction_picker.cc:479-506 | the wider inputs keep the old ones and the files taken from the output level; the search there is never empty, as the source asserts |
| `ExclusivePicks.CompactionPicker.PickFileToCompact` | db/compaction_picker.cc:1544-1616 | picks the first file in the given order that suits, and none exactly when no file does or a level-0 compaction runs; the start is idle, no running compaction writes to the output level within its range, and what it will take there is idle |
| `ExclusivePicks.CompactionPicker.TryFile` | db/compaction_picker.cc:1568-1607 | a file is passed over exactly when it or a file that must come along is busy, its range is contended on the output level, or what it meets there is busy |
| `ExclusivePicks.CompactionPicker.OutputFree` | db/compaction_picker.cc:1590-1604 | true exactly when the least clean cut of the output level that the inputs meet is idle |
| `ExclusivePicks.CompactionPicker.PickIntraL0Compaction` | db/compaction_picker.cc:1618-1632 | at least four files, the newest of level 0 in a row, all idle: the longest such span over which the work per deleted file never grows |
| `ExclusivePicks.CompactionPicker.PickFilesMarkedForCompaction` | db/compaction_picker.cc:1004-1046 | a start from a marked file is idle, or on level 0 with no level-0 compaction running |
| `ExclusivePicks.CompactionPicker.SetupInitialFiles` | db/compaction_picker.cc:1219-1309 | the same for every way a level-style pick starts |
| `ExclusivePicks.CompactionPicker.CompletePick` | db/compaction_picker.cc:1311-1354 | a completed pick shares no file with a running compaction, keeps all running compactions exclusive, and takes every file of the output level that meets its inputs |
| `ExclusivePicks.CompactionPicker.PickCompaction` | db/compaction_picker.cc:1425-1461 | a level-style pick adds one compaction that takes every file of the output level it meets and flags exactly its files, none of which was flagged, or changes nothing |
| `ExclusivePicks.CompactionPicker.CompactRange` | db/compaction_picker.cc:626-749 | the same for a manual compaction; a file that meets the range is compacted or starts at the reported key or later, a conflict is reported only without starting anything, and without conflict nothing starts only if no file meets the range |
| `ExclusivePicks.CompactionPicker.CompactAllLevels` | db/compaction_picker.cc:557-624 | over all levels, every file is an input, or there is a conflict, or there is no file |
| `ExclusivePicks.CompactionPicker.Register` | db/compaction_picker.cc:979-991 | registering idle inputs with a free range keeps running compactions exclusive |
| `ExclusivePicks.CompactionPicker.ReleaseCompactionFiles` | db/compaction.cc:502-505 | releasing clears exactly the flags of its files and keeps the rest exclusive |
| `ExclusivePicks.RegisterKeepsInv` | db/compaction.cc:453-461 | a file is flagged iff it is an input of a running compaction, and of only one, after registering |
| `ExclusivePicks.ReleaseKeepsInv` | db/compaction.cc:453-461 | the same after releasing |
| `ExclusivePicks.BusyLevel0` | db/compaction_picker.cc:983-990 | a level-0 file is being compacted only while a level-0 compaction is registered |
| `ExclusiveRuns.Run` | db/compaction_picker.cc:1425-1461 | after every series of level-style picks, manual compactions of a range or of all levels, and releases, a file is flagged iff it is an input of a running compaction, no file is an input of two, and compactions that write to the same level below 0 have disjoint key ranges |
| `ExclusivePicks.RunningCompactionsAreExclusive` | db/compaction_picker.cc:268-313 | files of two running compactions differ, both are flagged and, when both write to the same level below 0, share no key |

## Left out

- Merge operands, compaction filters, range tombstones and snapshot checkers: they call into user code and helpers outside the iterator.
- Keys that mix SingleDelete with Delete: the source documents the result as undefined, so read preservation is stated for the two proper uses; sortedness holds for any mix.
- CompactionReads.SquashAssertionHolds: the exception is exact for keys without newer versions (SquashAssertionFails); with newer versions the assertion may hold all the same, which only concerns keys that mix SingleDelete with Delete.
- Corrupt keys in the iterator, sequence numbers above the maximum, statistics, logging, file and NVM I/O.
- Subcompactions.SplitIsInvisible: equality of split and unsplit output is stated for Puts and Deletes only, because the iterator does not record its first output; with SingleDeletes the split is covered by SplitReadsSurviveIff.
- SubcompactionBoundaries.GenSubcompactionBoundaries: the size estimate is a parameter, and boundaries are compared as user keys.
- Memory orders and 64-bit wrap-around: steps are sequentially consistent and counters are unbounded.
- ClockSafety.StepKeepsInv: the strict limit of the CLOCK shard is fixed, and a key and its hash are read in one step.
- SuperVersionSafety.StepKeepsInv: incrementing the version number and storing it in the new SuperVersion, both under the mutex, is one step.
- LruRuns.Run: the condition for the pool speaks of the calls alone and is sufficient; the exact condition needs the entries at each SetCapacity and is stated there.
- The pinned usage counter of the CLOCK shard, which reads a charge after dropping the reference, and the internals of its concurrent hash map.
- LruTable.LRUHandleTable.FindPointer: a bucket's chain is the sequence of its handles instead of a list through next_hash, and the bucket mask is a remainder by the length.
- LruShard.LRUCacheShard.Insert: allocation cannot fail, deleters have no effect of their own, and the entries freed after the mutex is released are freed before the method returns.
- CompactFiles and the outer argument checks of SanitizeCompactionInputFiles: range and existence checks readable from one branch.
- ExclusivePicks.CompactionPicker.PickCompaction: the two searches over a level are parameters with a contract (all files that meet a range and, below level 0, no others; the largest clean cut within an interval), the marked-file lists leave out busy files as the source asserts, and column picks are not covered because they look only at the flags of level 1.
- ExclusivePicks.CompactionPicker.CompactAllLevels: only compactions that start on level 0 count as level-0 compactions, while the source's universal style lists all of its compactions there; the extra refusals are not modelled.
- ColumnCompaction.EveryRowIsTiled: which keys a column takes is an arbitrary choice limited to what is left of each row, because the picker of columns is not part of this model.
- UniversalPicks.PickCompaction: delete-triggered picks, ingest-behind, compression and path choice are not modelled; file sizes are positive, since a level of files with no size is not listed as a run.
- FIFO compaction, write stalls, option handling, the read-only and compacted databases, and the NVM store itself.
