# Storage and serialisation: LevelDB and nanopb

The application stores and exchanges its data through two libraries it builds in: LevelDB, a log-structured
merge tree, and nanopb, a Protocol Buffers codec. This project models both and proves what they promise. Paths below
are relative to the root of the repository.

**The store.** `Store` is a state machine over durable state (log files, manifest) and volatile state (memtables,
current version, snapshots, the compaction under way). Its steps are: append a write group to the log, insert it into the
memtable, switch memtables, flush, pick a compaction, take a file number, finish or give up the compaction, move a file
down, install a version, take and release snapshots, delete a log, crash, fail to open, open. Writes, switches and flushes
may happen while a compaction is under way. `StoreSteps` proves that every step keeps one invariant; `StoreRuns` draws
the conclusions for all runs: `Get` returns what the batches leave, snapshots are stable, and reopening after any crash
loses nothing that was logged. `Recovery` shows that every crashed state can be opened. What the steps take for granted
is proved of the code that performs them: `Versions` (searching a version), `Inputs`, `CompactionInputs`, `Gaps`,
`Compactions` (choosing what to compact), `Stops` (where outputs end because of what they overlap two levels down), `Jobs`
(a compaction under way and the flushes inside it), `Merge` (what the compaction loop may drop), `Views`, `ViewSteps`
(the order of layers that makes the first hit the newest), `Outputs` (the loop's files are what the step installs, and
overlap little two levels down), `History` (what numbered batches read as).

**Writers.** `WriteBatches` and `MemTables` work on bytes: a batch is taken apart as it was put together, an entry is
found as it was added. `Writers` builds a group from the queue, `WritePath` is the leader's whole path, and
`GroupCommit` is the state machine of all interleavings.

**Cursors.** `DbIter`, `Mergers`, `BlockIters` and `SkipLists` each refine an index into a sorted sequence. `SkipLists`
also follows any number of readers while insertions store link after link. `Snapshots` is the circular list.

**Formats.** `Log`, `LogRoundTrip`, `LogLayout`, `LogDamage` (the write-ahead log: writing and reading it, how a file
looks, and what a damaged one gives), `Blocks`, `FilterBlocks`, `TableFormat`, `TableImages`,
`TableBuilders`, `TableReaders`, `TableLookups` (table files, byte for byte, with shortened index keys and filters),
`BloomFilters` (the built-in filter policy), `VersionEdits`, `Builders`, `ManyEdits`, `VersionSets` (the manifest),
`Coding`, `Crc32c`, `Comparators`, `InternalKeys`, `Format` (shared parts), `Gc` (which files may be deleted).

**nanopb.** `NanopbVarint`, `NanopbSchema`, `NanopbEncode`, `NanopbDecode`, `NanopbIStream`, `NanopbReader` and
`NanopbRoundTrip` model the descriptor-driven encoder with its sizing pass, and the decoder with its field iterator,
substreams and bitmap of required fields. `NanopbItems` says what the decoder makes of any fields in any order, without
following the decoder; `NanopbCompat` draws the conclusions: pieces of arrays and submessages, the last value, older
readers, and what is refused.

How the model is put together:

- A method with a loop in the source is a method with a loop here; it is tied to a function of its input, or to a predicate on
  it, and that is what the lemmas are about. Objects whose fields the source changes are classes.
- In the store's modules a user key is a real number, its rank in the comparator's order; every total order on the
  byte strings has such ranks. `Comparators` gives them for the bytewise comparator, `InternalKeys` for its internal keys.
- Sequence numbers stay below 2^56 - 1, the number the compaction loop starts from. Two entries of one user key have different numbers; the store's
  invariant implies it.
- The checksum is any function from bytes to 32-bit words; only masking is modelled exactly.
- File contents are byte strings. Random heights, the environment's clock, size limits that depend on
  options, and what the scheduler does are parameters of the steps and methods they influence.

Four statements are false as one would first write them, and are stated exactly instead:

- A compaction is invisible to readers exactly when no tombstone it drops uncovers older data (`CompactionPreservesReads`,
  both directions). The input selection guarantees that, provided files of the next level that are left out share no
  user key with those taken: the source adds boundary files on the compacted level only, and `BoundaryOnNextLevelIsNeeded` is a version for
  which its own choice of inputs brings a deleted value back. In the store a compaction is picked under that proviso.
- A flush inside a compaction leaves the compaction's inputs in order exactly when other files, at or above the output level,
  fill the gaps between the inputs (`HarmlessIffGuarded`). Inputs chosen by PickCompaction have no gaps, and what is guarded
  stays guarded. CompactRange may choose inputs with a gap: `ManualCompactionLeavesGap` is a version for which the level
  then ends with overlapping files. The store's flush carries the guard as a condition; nothing else of a manual
  compaction is excluded.
- A decoded version edit equals the encoded one exactly when the object it is decoded into holds no compaction
  pointers (`EditRoundTrip`), because clearing an edit keeps them. Recovery always decodes into a fresh object.
- The 32-bit varint reader accepts more than 32-bit values and sign-extended negative ones: `Varint32OfEncoding` says which, and
  `Varint32LosesBits` is one of the others.

## Model

| member | source | states |
|---|---|---|
| `Coding.Varint32RoundTrip` | DormitoryForDelivery/Pods/leveldb-library/util/coding.cc:47-140 | reading a 32-bit varint undoes writing it and stops right after it, within five bytes |
| `Coding.Varint64RoundTrip` | DormitoryForDelivery/Pods/leveldb-library/util/coding.cc:81-169 | the same for 64 bits, within ten bytes |
| `Coding.VarintIsShortest` | DormitoryForDelivery/Pods/leveldb-library/util/coding.cc:47-96 | a varint is as short as it can be |
| `Coding.FixedRoundTrip` | DormitoryForDelivery/Pods/leveldb-library/util/coding.cc:9-45 | fixed-width numbers come back, for every width |
| `Coding.PutOfGet` | DormitoryForDelivery/Pods/leveldb-library/util/coding.cc:9-45 | bytes that were read as a number are what writing it gives |
| `Coding.LengthPrefixedRoundTrip` | DormitoryForDelivery/Pods/leveldb-library/util/coding.cc:98-190 | a length-prefixed string comes back, and what follows it is left |
| `Coding.Fixed32At` | DormitoryForDelivery/Pods/leveldb-library/table/filter_block.cc:41-44 | entry i of an array of four-byte numbers is number i |
| `Crc32c.UnmaskOfMask` | DormitoryForDelivery/Pods/leveldb-library/util/crc32c.h:29-38 | unmasking undoes masking for every 32-bit word |
| `Crc32c.MaskOfUnmask` | DormitoryForDelivery/Pods/leveldb-library/util/crc32c.h:29-38 | and masking undoes unmasking |
| `Comparators.BytewiseIsLexicographic` | DormitoryForDelivery/Pods/leveldb-library/util/comparator.cc:25-27 | the ranks order byte strings exactly as comparing them does, and tell different strings apart |
| `Comparators.FindShortestSeparator` | DormitoryForDelivery/Pods/leveldb-library/util/comparator.cc:29-50 | the loop computes the separator function |
| `Comparators.SeparatorLies` | DormitoryForDelivery/Pods/leveldb-library/util/comparator.cc:29-50 | the separator is in [start, limit) and not longer than start; with start not below limit it is start |
| `Comparators.SeparatorIsShort` | DormitoryForDelivery/Pods/leveldb-library/util/comparator.cc:29-50 | where start and limit first differ with room between the bytes, the separator ends there, raised by one; otherwise it is start |
| `Comparators.FindShortSuccessor` | DormitoryForDelivery/Pods/leveldb-library/util/comparator.cc:52-64 | the loop computes the successor function; a run of 0xff stays |
| `Comparators.SuccessorLies` | DormitoryForDelivery/Pods/leveldb-library/util/comparator.cc:52-64 | the successor is never below the key |
| `Comparators.SuccessorIsShort` | DormitoryForDelivery/Pods/leveldb-library/util/comparator.cc:52-64 | the successor ends at the first byte that can be raised |
| `Format.LessIsTotalOrder` | DormitoryForDelivery/Pods/leveldb-library/db/dbformat.cc:51-67 | internal keys are totally ordered: user keys up, sequence numbers and types down |
| `Format.SeekPosition` | DormitoryForDelivery/Pods/leveldb-library/db/dbformat.h:178-210 | a lookup key stands before exactly the larger user keys and its own key at or below the snapshot |
| `Format.SeekHitIsNewest` | DormitoryForDelivery/Pods/leveldb-library/db/memtable.cc:100-134 | seeking in a sorted run and checking the user key finds the newest visible entry, or that there is none |
| `InternalKeys.SeparatorLies` | DormitoryForDelivery/Pods/leveldb-library/db/dbformat.cc:69-86 | between start and limit in internal order; a shortened key has a user key strictly between theirs |
| `InternalKeys.SuccessorLies` | DormitoryForDelivery/Pods/leveldb-library/db/dbformat.cc:88-101 | an internal key not below the given one and not longer |
| `InternalKeys.BytewiseShortens` | DormitoryForDelivery/Pods/leveldb-library/db/dbformat.cc:69-86 | over the bytewise comparator the user key is cut right after the first byte with room, and sealed with the tag that stands before all others |
| `InternalKeys.BytewiseSuccessorShortens` | DormitoryForDelivery/Pods/leveldb-library/db/dbformat.cc:88-101 | and for a successor right after the first byte that can be raised |
| `Comparators.BytewiseSeparates` | DormitoryForDelivery/Pods/leveldb-library/util/comparator.cc:29-50 | the bytewise separator keeps the order's contract for any two keys |
| `Comparators.BytewiseSucceeds` | DormitoryForDelivery/Pods/leveldb-library/util/comparator.cc:52-64 | so does the successor |
| `InternalKeys.BytewiseLifts` | DormitoryForDelivery/Pods/leveldb-library/db/dbformat.cc:51-67 | the internal order over the bytewise comparator has ranks: what the table lemmas ask of a comparator can be met |
| `Versions.FindFile` | DormitoryForDelivery/Pods/leveldb-library/db/version_set.cc:88-106 | binary search returns the first file whose largest key is at or after the key |
| `Versions.SomeFileOverlapsRange` | DormitoryForDelivery/Pods/leveldb-library/db/version_set.cc:122-157 | on sorted disjoint files the binary search decides the same overlap as the scan does on any files |
| `Versions.SortNewestFirst` | DormitoryForDelivery/Pods/leveldb-library/db/version_set.cc:278-306 | the level-0 candidates in order of falling number, none lost |
| `Versions.Get` | DormitoryForDelivery/Pods/leveldb-library/db/version_set.cc:326-421 | the result is the newest visible entry of the first place, newest level-0 file first, that has one; nothing if none has |
| `Inputs.GetOverlappingInputs` | DormitoryForDelivery/Pods/leveldb-library/db/version_set.cc:519-559 | ends despite its restarts; returns the files overlapping the final range, which on level 0 is closed under overlap |
| `Inputs.LevelZeroInputsAreLeast` | DormitoryForDelivery/Pods/leveldb-library/db/version_set.cc:519-559 | that level-0 set is contained in every set that is closed under overlap with its own range |
| `Inputs.PickLevelForMemTableOutput` | DormitoryForDelivery/Pods/leveldb-library/db/version_set.cc:491-517 | the deepest level reached by pushes that are all allowed: no file there or above overlaps, and no level passed over has more than the limit two levels down; why it stopped |
| `Inputs.ChosenLevelIsClear` | DormitoryForDelivery/Pods/leveldb-library/db/version_set.cc:491-517 | no file at or above the chosen level shares a user key with the new table |
| `CompactionInputs.AddBoundaryInputs` | DormitoryForDelivery/Pods/leveldb-library/db/version_set.cc:1326-1401 | ends; keeps the given files; leaves no file that starts past the largest key with the same user key |
| `CompactionInputs.BoundaryMakesOlderChosen` | DormitoryForDelivery/Pods/leveldb-library/db/version_set.cc:1364-1401 | with its boundary files chosen, a level keeps no older data of a chosen user key behind |
| `CompactionInputs.SettledSharesNothing` | DormitoryForDelivery/Pods/leveldb-library/db/version_set.cc:519-559 | files outside a settled level-0 choice share no user key with those inside |
| `Compactions.ChooseInputs` | DormitoryForDelivery/Pods/leveldb-library/db/version_set.cc:1403-1462 | the inputs of both levels and the new compact pointer; more than the boundary-closed start is taken exactly when the larger choice is larger, takes no more of the next level and stays below the byte limit; what overlaps two levels down; no gap arises |
| `Compactions.Compaction.SetupOtherInputs` | DormitoryForDelivery/Pods/leveldb-library/db/version_set.cc:1403-1462 | the object ends with inputs and grandparents that are chosen so, and nothing else of it changed |
| `Compactions.NextLevelIsClosed` | DormitoryForDelivery/Pods/leveldb-library/db/version_set.cc:1403-1425 | files of the next level left out share no user key with the inputs of the level above, and none of them reaches into the compacted range |
| `Compactions.Expand` | DormitoryForDelivery/Pods/leveldb-library/db/version_set.cc:1420-1446 | the choice may grow only below the byte limit |
| `Compactions.Grandparents` | DormitoryForDelivery/Pods/leveldb-library/db/version_set.cc:1448-1453 | the files two levels down that overlap the whole range |
| `Compactions.Compaction.IsTrivialMove` | DormitoryForDelivery/Pods/leveldb-library/db/version_set.cc:1515-1523 | a file is moved as it is exactly if it is alone and what it overlaps two levels down has at most the limit |
| `Compactions.Compaction.ShouldStopBefore` | DormitoryForDelivery/Pods/leveldb-library/db/version_set.cc:1554-1577 | for keys asked in ascending order: stop exactly when the grandparents passed since the last stop, or since the first key, have more than the limit |
| `Compactions.Compaction.IsBaseLevelForKey` | DormitoryForDelivery/Pods/leveldb-library/db/version_set.cc:1533-1552 | for keys asked in ascending order the advancing pointers answer as a full scan of the deeper levels |
| `Merge.Drops` | DormitoryForDelivery/Pods/leveldb-library/db/db_impl.cc:929-963 | an entry is dropped exactly when an earlier one of its user key is at or below the smallest snapshot, or it is a deletion there whose user key no deeper file holds |
| `Merge.DoCompactionWork` | DormitoryForDelivery/Pods/leveldb-library/db/db_impl.cc:878-1036 | the output files hold exactly the entries kept, in order; of each user key at most one at or below the smallest snapshot is left, and no tombstone that nothing deeper needs; each output ends exactly where it is full or more than the limit of grandparents was passed |
| `Merge.DroppedMeans` | DormitoryForDelivery/Pods/leveldb-library/db/db_impl.cc:929-963 | what looking at the entry before decides is decided by any earlier entry of the user key |
| `Merge.KeptIsReduced` | DormitoryForDelivery/Pods/leveldb-library/db/db_impl.cc:929-963 | overwritten values and useless tombstones are reclaimed |
| `Merge.KeptIsSeen` | DormitoryForDelivery/Pods/leveldb-library/db/db_impl.cc:929-963 | an entry is kept exactly if some reader at or above the smallest snapshot gets it and it is no useless tombstone |
| `Merge.CompactionPreservesReads` | DormitoryForDelivery/Pods/leveldb-library/db/db_impl.cc:929-963 | readers at or above the smallest snapshot see the same before and after if and only if no dropped tombstone uncovers older data |
| `Merge.ClosedInputsAreSafe` | DormitoryForDelivery/Pods/leveldb-library/db/version_set.cc:1533-1552 | no dropped tombstone uncovers anything when older data outside the inputs is deeper than the output level and found there |
| `Merge.BoundaryOnNextLevelIsNeeded` | DormitoryForDelivery/Pods/leveldb-library/db/version_set.cc:1403-1425 | a version and a compaction, chosen as the source chooses, after which a deleted value is read again |
| `Outputs.KeptIsSorted` | DormitoryForDelivery/Pods/leveldb-library/db/db_impl.cc:900-999 | the kept entries are strictly sorted |
| `Outputs.LoopOutputsInstall` | DormitoryForDelivery/Pods/leveldb-library/db/db_impl.cc:786-876 | the loop's files, one per run with fresh numbers, are sound, disjoint, and meet all that the compaction step asks |
| `Outputs.OutputsOverlapLittle` | DormitoryForDelivery/Pods/leveldb-library/db/version_set.cc:1554-1577 | each output of the loop meets at most the limit of grandparents, not counting one of them |
| `Stops.NoStopOverlapsLittle` | DormitoryForDelivery/Pods/leveldb-library/db/version_set.cc:1554-1577 | so does any stretch of the input in which nothing stops |
| `Stops.StopsExist` | DormitoryForDelivery/Pods/leveldb-library/db/version_set.cc:1554-1577 | for any input there is a way to stop so |
| `Stops.OneWayToStop` | DormitoryForDelivery/Pods/leveldb-library/db/version_set.cc:1554-1577 | and only one: the keys and the grandparents decide it |
| `Views.Get` | DormitoryForDelivery/Pods/leveldb-library/db/db_impl.cc:1100-1145 | memtable, then immutable memtable, then version: the first hit is the newest visible entry of everything |
| `Views.FirstHitIsNewest` | DormitoryForDelivery/Pods/leveldb-library/db/db_impl.cc:1122-1136 | in a layer-ordered view a hit with none above it is the newest of the union |
| `Views.VersionHitIsNewest` | DormitoryForDelivery/Pods/leveldb-library/db/version_set.cc:326-421 | what the version search returns after both memtables had nothing is the newest of the union |
| `Compactions.PickInputs` | DormitoryForDelivery/Pods/leveldb-library/db/version_set.cc:1305-1317 | the file that is due alone or, on level 0, with all it has to take along and nothing more, without a gap between them |
| `Compactions.NextFile` | DormitoryForDelivery/Pods/leveldb-library/db/version_set.cc:1283-1297 | the first file that ends after the compact pointer, or again the first of the level |
| `Compactions.FilesTakeTurns` | DormitoryForDelivery/Pods/leveldb-library/db/version_set.cc:1283-1297 | on a level that stays as it is, the files are compacted one after the other, and then from the start again |
| `Gaps.ClosureIsGapless` | DormitoryForDelivery/Pods/leveldb-library/db/version_set.cc:519-559 | what the level-0 search adds to files without a gap leaves none |
| `Gaps.ChainKeepsGapless` | DormitoryForDelivery/Pods/leveldb-library/db/version_set.cc:1364-1401 | boundary files leave no gap |
| `Jobs.PickCompaction` | DormitoryForDelivery/Pods/leveldb-library/db/version_set.cc:1270-1322 | the compaction that is picked has closed inputs, and no gap between them that a flush could fall into |
| `Jobs.PlacedKeepsJob` | DormitoryForDelivery/Pods/leveldb-library/db/db_impl.cc:907-918 | a flush of newer entries to a clear level leaves a running compaction in order: its inputs stay closed, and the deeper levels hold their keys where they did |
| `Jobs.MergedAlike` | DormitoryForDelivery/Pods/leveldb-library/db/version_set.cc:1533-1552 | what the merge drops, decided in the version it reads, is what it would drop in the current one |
| `Jobs.HarmlessIffGuarded` | DormitoryForDelivery/Pods/leveldb-library/db/version_set.cc:491-517 | the level choice of a flush leaves a running compaction in order whatever is flushed, if and only if every gap of its inputs is filled |
| `Jobs.ManualCompactionLeavesGap` | DormitoryForDelivery/Pods/leveldb-library/db/version_set.cc:1464-1495 | a version, a manual compaction of it and a flush inside, after which level 2 has overlapping files |
| `ViewSteps.WriteKeepsOrder` | DormitoryForDelivery/Pods/leveldb-library/db/db_impl.cc:1223-1237 | newer entries in the memtable keep the layers ordered |
| `ViewSteps.SwitchKeepsOrder` | DormitoryForDelivery/Pods/leveldb-library/db/db_impl.cc:1345-1366 | so does switching memtables |
| `ViewSteps.FlushKeepsOrder` | DormitoryForDelivery/Pods/leveldb-library/db/db_impl.cc:515-526 | so does a table placed at the level PickLevelForMemTableOutput allows |
| `ViewSteps.CompactionKeepsOrder` | DormitoryForDelivery/Pods/leveldb-library/db/db_impl.cc:860-876 | so does replacing closed inputs by the outputs one level down; a moved file is the case of equal input and output |
| `ViewSteps.CompactionKeepsReads` | DormitoryForDelivery/Pods/leveldb-library/db/db_impl.cc:929-963 | no reader at or above the smallest snapshot sees a compaction with closed inputs |
| `ViewSteps.CompactedIsSound` | DormitoryForDelivery/Pods/leveldb-library/db/version_set.cc:695-738 | the version after a compaction is again sorted, disjoint from level 1 on, with one file to a number |
| `ViewSteps.PlacedIsSound` | DormitoryForDelivery/Pods/leveldb-library/db/version_set.cc:695-738 | and so is the version after a flush |
| `History.HistoryReadsAsApplied` | DormitoryForDelivery/Pods/leveldb-library/db/write_batch.cc:115-137 | reading numbered groups at the last number is the map of applying them in order |
| `History.SnapshotReadsPrefix` | DormitoryForDelivery/Pods/leveldb-library/db/db_impl.cc:1166-1175 | reading at the end of a group sees that group and the earlier ones whole, and nothing later |
| `StoreSteps.InitHasInv` | DormitoryForDelivery/Pods/leveldb-library/db/db_impl.cc:182-212 | a new database satisfies the invariant |
| `StoreSteps.AppendKeepsInv` | DormitoryForDelivery/Pods/leveldb-library/db/db_impl.cc:1204-1222 | appending a group to the log keeps it |
| `StoreSteps.InsertKeepsInv` | DormitoryForDelivery/Pods/leveldb-library/db/db_impl.cc:1223-1237 | inserting the group and moving the last sequence keeps it |
| `StoreSteps.SwitchKeepsInv` | DormitoryForDelivery/Pods/leveldb-library/db/db_impl.cc:1345-1366 | a new log and memtable keep it |
| `StoreSteps.FlushKeepsInv` | DormitoryForDelivery/Pods/leveldb-library/db/db_impl.cc:491-566 | a flush up to its manifest record keeps it, inside a compaction too: the logs it gives up are in the table |
| `StoreSteps.PickKeepsInv` | DormitoryForDelivery/Pods/leveldb-library/db/db_impl.cc:688-724 | starting a compaction keeps it: its inputs, the version it reads and the smallest snapshot are taken hold of |
| `StoreSteps.CompactKeepsInv` | DormitoryForDelivery/Pods/leveldb-library/db/db_impl.cc:860-1036 | the manifest record of a compaction keeps it, whatever was written, switched, flushed and installed since it started; what it dropped was decided then |
| `StoreSteps.TakeKeepsInv` | DormitoryForDelivery/Pods/leveldb-library/db/db_impl.cc:786-800 | taking a file number for an output keeps it |
| `StoreSteps.AbandonKeepsInv` | DormitoryForDelivery/Pods/leveldb-library/db/db_impl.cc:769-784 | giving a compaction up keeps it |
| `StoreSteps.MoveKeepsInv` | DormitoryForDelivery/Pods/leveldb-library/db/db_impl.cc:718-728 | a trivial move keeps it |
| `StoreSteps.InstallKeepsInv` | DormitoryForDelivery/Pods/leveldb-library/db/version_set.cc:867-871 | making the recorded version current keeps it |
| `StoreSteps.SnapshotKeepsInv` | DormitoryForDelivery/Pods/leveldb-library/db/db_impl.cc:1166-1169 | taking a snapshot keeps it |
| `StoreSteps.ReleaseKeepsInv` | DormitoryForDelivery/Pods/leveldb-library/db/db_impl.cc:1171-1175 | releasing a snapshot keeps it |
| `StoreSteps.CollectKeepsInv` | DormitoryForDelivery/Pods/leveldb-library/db/db_impl.cc:223-278 | deleting a log below the log number keeps it |
| `StoreSteps.CrashKeepsInv` | DormitoryForDelivery/Pods/leveldb-library/db/db_impl.cc:280-370 | a crash at any moment leaves a state that recovery reads as the whole history |
| `StoreSteps.FailOpenKeepsInv` | DormitoryForDelivery/Pods/leveldb-library/db/db_impl.cc:1474-1515 | an open that fails after creating its log leaves such a state too |
| `StoreSteps.OpenKeepsInv` | DormitoryForDelivery/Pods/leveldb-library/db/db_impl.cc:280-489 | recovery, writing its level-0 files in log order, restores the invariant |
| `StoreRuns.RunKeepsInv` | DormitoryForDelivery/Pods/leveldb-library/db/db_impl.cc:280-566 | every state of every run satisfies the invariant |
| `StoreRuns.HistoryIsBatches` | DormitoryForDelivery/Pods/leveldb-library/db/db_impl.cc:1204-1222 | the history is the batches whose log records were appended, in order |
| `StoreRuns.LatestReads` | DormitoryForDelivery/Pods/leveldb-library/db/db_impl.cc:1100-1145 | in every run the newest entry visible at the last sequence holds what the applied batches leave |
| `StoreRuns.SnapshotsAreStable` | DormitoryForDelivery/Pods/leveldb-library/db/snapshot.h:46-86 | in every run a lookup at a live snapshot returns what it would have returned when the snapshot was taken |
| `StoreRuns.RecoveryIsComplete` | DormitoryForDelivery/Pods/leveldb-library/db/db_impl.cc:280-489 | in every run, opening after a crash gives the map of every batch whose record was appended before, in order |
| `StoreRuns.UnflushedIsLogged` | DormitoryForDelivery/Pods/leveldb-library/db/db_impl.cc:550-562 | in every run an entry not yet in a table is in a log numbered at least the manifest's log number |
| `StoreRuns.GetLatest` | DormitoryForDelivery/Pods/leveldb-library/db/db_impl.cc:1100-1145 | in every run Get at the last sequence, in its own search order, returns what the applied batches leave |
| `StoreRuns.GetSnapshot` | DormitoryForDelivery/Pods/leveldb-library/db/db_impl.cc:1100-1145 | in every run Get at a live snapshot returns what the batches applied before it was taken left |
| `StoreRuns.GetRecovered` | DormitoryForDelivery/Pods/leveldb-library/db/db_impl.cc:1100-1145 | after every reopening Get returns what all batches logged before leave |
| `StoreRuns.GuardStays` | DormitoryForDelivery/Pods/leveldb-library/db/db_impl.cc:907-918 | a compaction whose inputs are guarded stays so until it ends, so flushes inside it may go to any level they choose |
| `Recovery.CrashedCanOpen` | DormitoryForDelivery/Pods/leveldb-library/db/db_impl.cc:280-489 | from every crashed state that the invariant allows there is a way to open |
| `Recovery.CrashedRunGoesOn` | DormitoryForDelivery/Pods/leveldb-library/db/db_impl.cc:280-489 | every run that ends in a crash can go on with an opening, which holds all batches logged |
| `StoreRuns.OldestOnlyRises` | DormitoryForDelivery/Pods/leveldb-library/db/db_impl.cc:890-894 | the bound below which a compaction may drop never falls, so live and later snapshots stay at or above it |
| `StoreRuns.BoundIsTight` | DormitoryForDelivery/Pods/leveldb-library/db/db_impl.cc:890-894 | in every run the bound of a compaction that starts is a live snapshot's number, or the last sequence if there is none, and none is below it |
| `WriteBatches.WriteBatch.Put` | DormitoryForDelivery/Pods/leveldb-library/db/write_batch.cc:98-103 | the batch holds one operation more, the header counts it, the sequence number stays |
| `WriteBatches.WriteBatch.Delete` | DormitoryForDelivery/Pods/leveldb-library/db/write_batch.cc:105-109 | the same for a deletion |
| `WriteBatches.WriteBatch.Append` | DormitoryForDelivery/Pods/leveldb-library/db/write_batch.cc:144-148 | the source's operations follow the batch's own |
| `WriteBatches.WriteBatch.SetSequence` | DormitoryForDelivery/Pods/leveldb-library/db/write_batch.cc:94-96 | only the sequence number changes |
| `WriteBatches.ParseOfBytes` | DormitoryForDelivery/Pods/leveldb-library/db/write_batch.cc:42-80 | taking operations' bytes apart gives the operations back, in order |
| `WriteBatches.IterateOfBatch` | DormitoryForDelivery/Pods/leveldb-library/db/write_batch.cc:42-80 | iterating a batch delivers exactly its operations and succeeds |
| `WriteBatches.BatchIsUnambiguous` | DormitoryForDelivery/Pods/leveldb-library/db/write_batch.cc:42-80 | no bytes are the batch of two lists of operations |
| `WriteBatches.WrongCountIsNoticed` | DormitoryForDelivery/Pods/leveldb-library/db/write_batch.cc:75-79 | any other count is reported |
| `WriteBatches.BrokenBatchIsNoticed` | DormitoryForDelivery/Pods/leveldb-library/db/write_batch.cc:42-80 | after good operations a cut-off one, or a tag that is none, is reported, and the good ones are delivered |
| `MemTables.TakeOfEntry` | DormitoryForDelivery/Pods/leveldb-library/db/memtable.cc:75-98 | key, tag and value of an encoded entry come back |
| `MemTables.BeforeIsRecordOrder` | DormitoryForDelivery/Pods/leveldb-library/db/memtable.cc:28-34 | comparing buffers compares user keys up and tags down |
| `MemTables.LookupStandsBefore` | DormitoryForDelivery/Pods/leveldb-library/db/memtable.cc:100-103 | the lookup key separates what a reader may see of its key from what comes before |
| `MemTables.MemTable.Add` | DormitoryForDelivery/Pods/leveldb-library/db/memtable.cc:75-98 | the contents gain exactly the record |
| `MemTables.MemTable.Get` | DormitoryForDelivery/Pods/leveldb-library/db/memtable.cc:100-134 | found, deleted or absent, as the newest record of the key at or below the snapshot says |
| `MemTables.MemTable.InsertBatch` | DormitoryForDelivery/Pods/leveldb-library/db/write_batch.cc:115-137 | the operations get consecutive numbers from the batch's own; on malformed bytes, those before the fault, and the status |
| `MemTables.ReadsAsApplied` | DormitoryForDelivery/Pods/leveldb-library/db/write_batch.cc:115-137 | reading numbered operations at number n gives the last of the first n on the key |
| `Writers.BuildBatchGroup` | DormitoryForDelivery/Pods/leveldb-library/db/db_impl.cc:1260-1306 | the longest group that may form, and one batch of all its operations in queue order; in bytes: a small leader brings at most 128 KB along, any other at most 1 MB in all, and why the group ends |
| `Writers.GroupFits` | DormitoryForDelivery/Pods/leveldb-library/db/db_impl.cc:1268-1300 | a group keeps to its bound, and ends only at the end of the queue, at a null batch, at a sync write its leader does not ask for, or where the next batch would pass the bound |
| `Writers.GroupFitsInBytes` | DormitoryForDelivery/Pods/leveldb-library/db/db_impl.cc:1268-1300 | the same in the bytes of the batches |
| `Writers.GroupIsUnique` | DormitoryForDelivery/Pods/leveldb-library/db/db_impl.cc:1260-1306 | no queue has two groups |
| `Writers.SyncNeedsSyncLeader` | DormitoryForDelivery/Pods/leveldb-library/db/db_impl.cc:1282-1285 | no sync write is in the group of a non-sync leader |
| `WritePath.DbImpl.WriteGroup` | DormitoryForDelivery/Pods/leveldb-library/db/db_impl.cc:1204-1237 | one log record with the group's operations numbered from the last sequence plus one, the same in the memtable, and the last sequence after |
| `WritePath.DbImpl.Lead` | DormitoryForDelivery/Pods/leveldb-library/db/db_impl.cc:1185-1256 | a leader's whole path, a null batch included, and who is told |
| `WritePath.DbImpl.Release` | DormitoryForDelivery/Pods/leveldb-library/db/db_impl.cc:1239-1248 | exactly the group is popped and told, in order |
| `WritePath.RecoverRecord` | DormitoryForDelivery/Pods/leveldb-library/db/db_impl.cc:418-439 | a log record replayed gives the memtable the operations under the numbers the leader gave them; a short one is reported |
| `WritePath.RecordIsUnambiguous` | DormitoryForDelivery/Pods/leveldb-library/db/db_impl.cc:418-439 | a record stands for one list of operations and one first number |
| `GroupCommit.NextKeepsInv` | DormitoryForDelivery/Pods/leveldb-library/db/db_impl.cc:1185-1256 | every step of every writer keeps the queue, log, memtable and sync invariant |
| `GroupCommit.FinishedOnceInOrder` | DormitoryForDelivery/Pods/leveldb-library/db/db_impl.cc:1239-1248 | in every run writers finish in the order they queued up, each once |
| `GroupCommit.MemtableIsBatchesInOrder` | DormitoryForDelivery/Pods/leveldb-library/db/db_impl.cc:1204-1237 | in every run the memtable is exactly the finished batches with consecutive numbers, and then what the leader has inserted of its group; log and numbers to match |
| `GroupCommit.BuildIsDetermined` | DormitoryForDelivery/Pods/leveldb-library/db/db_impl.cc:1260-1306 | the queue alone decides the group and its batch |
| `GroupCommit.ReaderSeesWholeGroups` | DormitoryForDelivery/Pods/leveldb-library/db/db_impl.cc:1209-1237 | in every run a read at the last sequence gives the finished batches applied one by one, and nothing of a group under way |
| `GroupCommit.SyncIsDurable` | DormitoryForDelivery/Pods/leveldb-library/db/db_impl.cc:1215-1222 | a finished writer that asked for a sync has its operations, and all before, in the synced part of the log |
| `GroupCommit.FrontIsReleased` | DormitoryForDelivery/Pods/leveldb-library/db/db_impl.cc:1185-1256 | from every reachable state with writers waiting, the leader's own steps release the one at the front |
| `Log.Writer.AddRecord` | DormitoryForDelivery/Pods/leveldb-library/db/log_writer.cc:34-80 | the file grows by the record's fragments; empty records included |
| `Log.Reader.ReadPhysicalRecord` | DormitoryForDelivery/Pods/leveldb-library/db/log_reader.cc:189-271 | on any bytes: the kind, fragment, position and drops of the next physical record |
| `Log.Reader.ReadRecord` | DormitoryForDelivery/Pods/leveldb-library/db/log_reader.cc:56-174 | on any bytes: the next logical record, the new position, and the bytes reported as dropped |
| `LogRoundTrip.AssembleOfEmit` | DormitoryForDelivery/Pods/leveldb-library/db/log_reader.cc:56-174 | a record written at any position is read back if the file holds all of it, and is the end of the file if not |
| `LogRoundTrip.PrefixReads` | DormitoryForDelivery/Pods/leveldb-library/db/log_reader.cc:56-271 | for every prefix of a log, after i whole records comes record i, or the end, with nothing reported |
| `LogRoundTrip.ReadAll` | DormitoryForDelivery/Pods/leveldb-library/db/db_impl.cc:413-466 | a reader of any prefix gets exactly the records wholly inside it, then the end, and reports nothing |
| `LogRoundTrip.WriteAll` | DormitoryForDelivery/Pods/leveldb-library/db/log_writer.cc:23-108 | a writer reopened before any of the records writes the same file |
| `LogLayout.EmitIsLaid` | DormitoryForDelivery/Pods/leveldb-library/db/log_writer.cc:34-108 | every record is fragments with checksum, length and kind, cut only where a block ends; a block with no room for a header ends in zeros |
| `LogDamage.DeliveredIsIntact` | DormitoryForDelivery/Pods/leveldb-library/db/log_reader.cc:189-271 | on any bytes: a fragment is delivered only if it lies inside its block and its checksum unmasks to that of its kind and data |
| `LogDamage.IntactIsDelivered` | DormitoryForDelivery/Pods/leveldb-library/db/log_reader.cc:189-271 | and every fragment that is stored so is delivered |
| `LogDamage.DeliveredIsStored` | DormitoryForDelivery/Pods/leveldb-library/db/log_reader.cc:56-174 | on any bytes: a record that is delivered is the data of intact fragments, first to last, in order |
| `LogDamage.NothingIsLost` | DormitoryForDelivery/Pods/leveldb-library/db/log_reader.cc:56-271 | on any bytes: every byte is delivered, reported as dropped, or accounted for by headers, block ends and an unfinished record at the end |
| `DbIter.Iter.FindNextUserEntry` | DormitoryForDelivery/Pods/leveldb-library/db/db_iter.cc:168-198 | stops on the first live entry at or after its start, or at the end |
| `DbIter.Iter.FindPrevUserEntry` | DormitoryForDelivery/Pods/leveldb-library/db/db_iter.cc:227-267 | stops on the last live entry before its start, or at the beginning |
| `DbIter.Iter.Next` | DormitoryForDelivery/Pods/leveldb-library/db/db_iter.cc:141-166 | one live entry forward, after either direction |
| `DbIter.Iter.Prev` | DormitoryForDelivery/Pods/leveldb-library/db/db_iter.cc:200-225 | one live entry back, after either direction |
| `DbIter.Iter.Seek` | DormitoryForDelivery/Pods/leveldb-library/db/db_iter.cc:269-281 | the first live entry at or after the target |
| `DbIter.Iter.SeekToFirst` | DormitoryForDelivery/Pods/leveldb-library/db/db_iter.cc:283-292 | the first live entry |
| `DbIter.Iter.SeekToLast` | DormitoryForDelivery/Pods/leveldb-library/db/db_iter.cc:294-299 | the last live entry |
| `DbIter.LiveIsWhatReadersSee` | DormitoryForDelivery/Pods/leveldb-library/db/db_iter.cc:141-299 | the live entries are exactly the user keys with the values a reader at the sequence number reads |
| `DbIter.LiveKeysRise` | DormitoryForDelivery/Pods/leveldb-library/db/db_iter.cc:141-299 | and their keys rise strictly |
| `Mergers.UnionExists` | DormitoryForDelivery/Pods/leveldb-library/table/merger.cc:31-176 | sorted children without a common key have a sorted union that says which child holds each item |
| `Mergers.MergingIterator.FindSmallest` | DormitoryForDelivery/Pods/leveldb-library/table/merger.cc:148-161 | when all children stand at n, the smallest is item n of the union |
| `Mergers.MergingIterator.FindLargest` | DormitoryForDelivery/Pods/leveldb-library/table/merger.cc:163-176 | when all stand before n, the largest is item n - 1 |
| `Mergers.MergingIterator.SeekToFirst` | DormitoryForDelivery/Pods/leveldb-library/table/merger.cc:31-37 | the first item of the union |
| `Mergers.MergingIterator.SeekToLast` | DormitoryForDelivery/Pods/leveldb-library/table/merger.cc:39-45 | the last item |
| `Mergers.MergingIterator.Seek` | DormitoryForDelivery/Pods/leveldb-library/table/merger.cc:47-53 | the first item at or after the target |
| `Mergers.MergingIterator.Next` | DormitoryForDelivery/Pods/leveldb-library/table/merger.cc:55-79 | one item forward, turning the other children round if need be |
| `Mergers.MergingIterator.Prev` | DormitoryForDelivery/Pods/leveldb-library/table/merger.cc:81-108 | one item back, likewise |
| `SkipLists.LinkingKeepsGood` | DormitoryForDelivery/Pods/leveldb-library/db/skiplist.h:361-367 | after every link store each level is a sorted sublist of the one below; the key is in the contents exactly from the level-0 store on |
| `SkipLists.StoreKeepsReaders` | DormitoryForDelivery/Pods/leveldb-library/db/skiplist.h:336-368 | every store of an insertion keeps the list good and every reader under way right |
| `SkipLists.RunKeepsAllRight` | DormitoryForDelivery/Pods/leveldb-library/db/skiplist.h:336-378 | in every interleaved run of stores and readers' loads the list is good and every reader under way is right |
| `SkipLists.ReadersAreRight` | DormitoryForDelivery/Pods/leveldb-library/db/skiplist.h:260-302 | in every such run a search ends at the first key at or after its own and the last before, for the contents at its last load |
| `SkipLists.ShownStaysShown` | DormitoryForDelivery/Pods/leveldb-library/db/skiplist.h:336-368 | in every such run a key once in the contents stays |
| `SkipLists.ReaderStarts` | DormitoryForDelivery/Pods/leveldb-library/db/skiplist.h:343-359 | a search may start on any level, so a stale height does no harm |
| `SkipLists.ReaderGoesOn` | DormitoryForDelivery/Pods/leveldb-library/db/skiplist.h:260-302 | a reader's load keeps it right, and its last one yields the first key at or after its own and the last before, for the contents at that moment |
| `SkipLists.SkipList.FindGreaterOrEqual` | DormitoryForDelivery/Pods/leveldb-library/db/skiplist.h:260-281 | the first node at or after the key, and the predecessors on every level |
| `SkipLists.SkipList.FindLessThan` | DormitoryForDelivery/Pods/leveldb-library/db/skiplist.h:283-302 | the last node before the key |
| `SkipLists.SkipList.FindLast` | DormitoryForDelivery/Pods/leveldb-library/db/skiplist.h:304-322 | the last node, or the head if there is none |
| `SkipLists.SkipList.Contains` | DormitoryForDelivery/Pods/leveldb-library/db/skiplist.h:370-378 | whether the key is in the contents |
| `SkipLists.SkipList.Insert` | DormitoryForDelivery/Pods/leveldb-library/db/skiplist.h:336-368 | the contents gain exactly the key, and the new node is on exactly the levels below its height; every assignment on the way is a store of the interleaved runs, and the key appears at one of them |
| `SkipLists.SkipList.Publishing` | DormitoryForDelivery/Pods/leveldb-library/db/skiplist.h:359-368 | allocation and links, bottom up, as such stores |
| `SkipLists.SkipList.LinkLevel` | DormitoryForDelivery/Pods/leveldb-library/db/skiplist.h:361-367 | the two stores of one level: the node's own link, then the one that publishes it |
| `Snapshots.SnapshotList.New` | DormitoryForDelivery/Pods/leveldb-library/db/snapshot.h:57-70 | the new snapshot is last in the circle |
| `Snapshots.SnapshotList.Delete` | DormitoryForDelivery/Pods/leveldb-library/db/snapshot.h:79-86 | the others stay linked, in order |
| `Snapshots.SnapshotList.Oldest` | DormitoryForDelivery/Pods/leveldb-library/db/snapshot.h:47-50 | no live snapshot has a smaller sequence number |
| `Snapshots.RemovedFromCircle` | DormitoryForDelivery/Pods/leveldb-library/db/snapshot.h:79-86 | joining a node's neighbours leaves a circle of the others, at the ends too |
| `Blocks.DecodeEntry` | DormitoryForDelivery/Pods/leveldb-library/table/block.cc:54-75 | the path for three one-byte lengths agrees with reading three varints, on any bytes |
| `Blocks.EntryDecodes` | DormitoryForDelivery/Pods/leveldb-library/table/block.cc:54-75 | an entry in its place decodes to its lengths, its key rest and its value |
| `Blocks.BlockBuilder.Add` | DormitoryForDelivery/Pods/leveldb-library/table/block_builder.cc:72-105 | one entry more; every interval-th entry is a restart and shares nothing, every other shares all it can with the key before it |
| `Blocks.BlockBuilder.Finish` | DormitoryForDelivery/Pods/leveldb-library/table/block_builder.cc:62-70 | entries, restart array and its length |
| `BlockIters.FinishedIsReadable` | DormitoryForDelivery/Pods/leveldb-library/table/block.cc:19-39 | a finished block opens with its restart array where it is, and every entry can be found |
| `BlockIters.Iter.ParseNextKey` | DormitoryForDelivery/Pods/leveldb-library/table/block.cc:224-252 | the next entry is parsed with its whole key, or the end is reached |
| `BlockIters.Iter.Next` | DormitoryForDelivery/Pods/leveldb-library/table/block.cc:137-140 | one entry forward |
| `BlockIters.Iter.Prev` | DormitoryForDelivery/Pods/leveldb-library/table/block.cc:142-161 | one entry back, through the restarts |
| `BlockIters.Iter.Seek` | DormitoryForDelivery/Pods/leveldb-library/table/block.cc:163-201 | the first entry at or after the target |
| `BlockIters.Iter.SeekToFirst` | DormitoryForDelivery/Pods/leveldb-library/table/block.cc:203-206 | the first entry |
| `BlockIters.Iter.SeekToLast` | DormitoryForDelivery/Pods/leveldb-library/table/block.cc:208-213 | the last entry |
| `BlockIters.BuildAndRead` | DormitoryForDelivery/Pods/leveldb-library/table/block_builder.cc:62-105 | for rising keys and any restart interval the block is readable if and only if it is shorter than 2^32 bytes, and then the entries come out as they went in |
| `BlockIters.LightBlocksAreSmall` | DormitoryForDelivery/Pods/leveldb-library/table/block_builder.cc:62-105 | a block is no longer than its entries weigh one by one, so small entries make a readable block |
| `BlockIters.Build` | DormitoryForDelivery/Pods/leveldb-library/table/block_builder.cc:62-105 | the block of any entries is laid out with regular restarts and longest shared prefixes |
| `FilterBlocks.FilterBlockBuilder.StartBlock` | DormitoryForDelivery/Pods/leveldb-library/table/filter_block.cc:21-27 | filters up to the block's stretch are made, the first from the keys pending |
| `FilterBlocks.FilterBlockBuilder.GenerateFilter` | DormitoryForDelivery/Pods/leveldb-library/table/filter_block.cc:51-75 | the pending keys get one filter; no keys get an empty one |
| `FilterBlocks.FilterBlockBuilder.Finish` | DormitoryForDelivery/Pods/leveldb-library/table/filter_block.cc:35-49 | a block holding one filter per list of keys, the last one included |
| `FilterBlocks.FilterIsFound` | DormitoryForDelivery/Pods/leveldb-library/table/filter_block.cc:77-104 | a lookup asks the policy about the filter of the block's stretch, and accepts when there is none |
| `FilterBlocks.NoFalseNegatives` | DormitoryForDelivery/Pods/leveldb-library/table/filter_block.cc:90-104 | a key added while the block was open is never rejected for it |
| `FilterBlocks.AddedMayMatch` | DormitoryForDelivery/Pods/leveldb-library/db/dbformat.cc:105-119 | filters made from user keys accept every internal key of an added user key |
| `TableFormat.HandleRoundTrip` | DormitoryForDelivery/Pods/leveldb-library/table/format.cc:15-29 | a block handle comes back, in at most twenty bytes |
| `TableFormat.FooterRoundTrip` | DormitoryForDelivery/Pods/leveldb-library/table/format.cc:31-62 | the footer has 48 bytes and gives both handles back |
| `TableFormat.StoredIsRead` | DormitoryForDelivery/Pods/leveldb-library/table/format.cc:64-140 | a stored block is read back, with the checksum verified or not |
| `TableFormat.VerifiedIsStored` | DormitoryForDelivery/Pods/leveldb-library/table/format.cc:64-140 | with verification a block is read exactly if its extent holds, byte for byte, what storing it writes |
| `TableFormat.FooterHasMagic` | DormitoryForDelivery/Pods/leveldb-library/table/format.cc:41-62 | nothing is taken for a footer but what ends in the magic number |
| `TableImages.SepsRise` | DormitoryForDelivery/Pods/leveldb-library/table/table_builder.cc:50-60 | index keys rise strictly |
| `TableImages.NextIsAnotherKey` | DormitoryForDelivery/Pods/leveldb-library/table/table.cc:216-244 | when the selected block ends before k, the next entry has another user key |
| `TableBuilders.SepAdded` | DormitoryForDelivery/Pods/leveldb-library/table/table_builder.cc:102-109 | the index entry written at the next key separates the finished block from everything after it |
| `TableBuilders.BlockFiltered` | DormitoryForDelivery/Pods/leveldb-library/table/table_builder.cc:125-139 | the keys of a finished block are in the filter its offset selects, and stay there |
| `TableBuilders.TableBuilder.Add` | DormitoryForDelivery/Pods/leveldb-library/table/table_builder.cc:94-123 | the table gains the entry; a block is written only when it has reached the block size, which loses nothing, and the open block stays below it |
| `TableBuilders.TableBuilder.Flush` | DormitoryForDelivery/Pods/leveldb-library/table/table_builder.cc:125-139 | the open block is written and its index entry is pending; no entry changes |
| `TableBuilders.TableBuilder.Finish` | DormitoryForDelivery/Pods/leveldb-library/table/table_builder.cc:198-253 | the file is a table of exactly the entries added, with shortest index keys, filter, metaindex and footer |
| `TableBuilders.Build` | DormitoryForDelivery/Pods/leveldb-library/table/table_builder.cc:94-253 | from any rising entries |
| `TableReaders.Open` | DormitoryForDelivery/Pods/leveldb-library/table/table.cc:38-134 | footer, index, metaindex and filter of such a file are found |
| `TableLookups.BytewiseIsSound` | DormitoryForDelivery/Pods/leveldb-library/util/comparator.cc:25-64 | the bytewise comparator with any sound filter policy meets all that tables ask of their options |
| `TableLookups.BytewiseBloomIsSound` | DormitoryForDelivery/Pods/leveldb-library/util/bloom.cc:17-80 | and so it does with the built-in policy |
| `TableLookups.SmallIsAddressable` | DormitoryForDelivery/Pods/leveldb-library/table/format.h:23-46 | block offsets and sizes of a table file under 2^32 bytes are below 2^32 |
| `TableLookups.BuildAndGet` | DormitoryForDelivery/Pods/leveldb-library/table/table.cc:38-244 | a table is built, opened and searched: for a file under 2^32 bytes the first entry at or after the key is delivered whenever its user key is the key's |
| `BloomFilters.CreateFilter` | DormitoryForDelivery/Pods/leveldb-library/util/bloom.cc:28-54 | the loops compute the filter function |
| `BloomFilters.KeyMayMatch` | DormitoryForDelivery/Pods/leveldb-library/util/bloom.cc:56-80 | the loop decides whether all probes are set; short and reserved filters as in the source |
| `BloomFilters.BloomNeverRejects` | DormitoryForDelivery/Pods/leveldb-library/util/bloom.cc:28-80 | a filter accepts every key it was made from |
| `BloomFilters.BloomIsExact` | DormitoryForDelivery/Pods/leveldb-library/util/bloom.cc:28-80 | a filter accepts exactly the keys all of whose probes are probes of keys it was made from |
| `TableReaders.RejectedIsAbsent` | DormitoryForDelivery/Pods/leveldb-library/table/table.cc:226-229 | a block the filter rejects does not hold the key's user key |
| `TableReaders.BlockMiss` | DormitoryForDelivery/Pods/leveldb-library/table/table.cc:229-237 | when the selected block has nothing at or after k, the table's next entry is of another user key |
| `TableReaders.Table.InternalGet` | DormitoryForDelivery/Pods/leveldb-library/table/table.cc:216-244 | what is delivered is the first entry at or after k, from a block the filter accepts, and it is delivered whenever its user key is k's |
| `VersionEdits.VersionEdit.EncodeTo` | DormitoryForDelivery/Pods/leveldb-library/db/version_edit.cc:41-85 | the record holds every field, tag by tag |
| `VersionEdits.VersionEdit.DecodeFrom` | DormitoryForDelivery/Pods/leveldb-library/db/version_edit.cc:107-205 | on any bytes: whether they decode, and to which edit, on top of what the object keeps |
| `VersionEdits.RecordRoundTrip` | DormitoryForDelivery/Pods/leveldb-library/db/version_edit.cc:26-205 | an encoded edit comes back, after the compaction pointers the object already held |
| `VersionEdits.EditRoundTrip` | DormitoryForDelivery/Pods/leveldb-library/db/version_edit.cc:26-39 | it comes back exactly if and only if the object held none |
| `VersionEdits.BrokenRecordFails` | DormitoryForDelivery/Pods/leveldb-library/db/version_edit.cc:107-205 | a tag that is none, or an entry cut short, behind good entries makes the record corrupt |
| `Builders.Builder.Apply` | DormitoryForDelivery/Pods/leveldb-library/db/version_set.cc:650-692 | per level: the edit's deletions and added files are taken in, a file added again is no longer deleted; the last pointer of each level counts |
| `Builders.ApplyTakesIn` | DormitoryForDelivery/Pods/leveldb-library/db/version_set.cc:657-692 | a number is deleted exactly if it was or the edit deletes it, and the edit does not add it; a file is added exactly if it was or the edit adds it |
| `Builders.PointersAfterMoves` | DormitoryForDelivery/Pods/leveldb-library/db/version_set.cc:650-656 | the last pointer an edit gives for a level counts; the others stay |
| `Builders.Builder.SaveTo` | DormitoryForDelivery/Pods/leveldb-library/db/version_set.cc:695-754 | per level: the base and the added files merged by smallest key and number, without the deleted ones |
| `ManyEdits.OnceIsEach` | DormitoryForDelivery/Pods/leveldb-library/db/version_set.cc:650-754 | if no level is given a number it has held, one save after all edits equals a save after each |
| `ManyEdits.SavedLevelsAreOk` | DormitoryForDelivery/Pods/leveldb-library/db/version_set.cc:695-754 | the saved levels stay sorted, with one file to a number |
| `ManyEdits.SavingReplaces` | DormitoryForDelivery/Pods/leveldb-library/db/version_set.cc:650-754 | saving an edit over a version replaces exactly the files the edit names |
| `VersionSets.VersionSet.WriteSnapshot` | DormitoryForDelivery/Pods/leveldb-library/db/version_set.cc:1088-1116 | the record of an edit that holds comparator, pointers and all files |
| `VersionSets.VersionSet.LogAndApply` | DormitoryForDelivery/Pods/leveldb-library/db/version_set.cc:801-884 | a file is in the new version exactly if the edit adds it, or it was there and the edit does not delete it; pointers, counters and manifest, whether or not a manifest was open, for a write that succeeds |
| `VersionSets.VersionSet.Recover` | DormitoryForDelivery/Pods/leveldb-library/db/version_set.cc:886-1011 | on any records: whether recovery succeeds, and the whole recovered state |
| `VersionSets.NextRecord` | DormitoryForDelivery/Pods/leveldb-library/db/version_set.cc:933-957 | a record that does not decode or names another comparator fails the recovery; a good one adds its edit |
| `VersionSets.SnapshotRestores` | DormitoryForDelivery/Pods/leveldb-library/db/version_set.cc:1088-1116 | a snapshot record stands for the version it was taken of |
| `VersionSets.RecoveryRestores` | DormitoryForDelivery/Pods/leveldb-library/db/version_set.cc:886-1011 | a manifest of a snapshot and applied edits recovers to version, pointers and log numbers, with the next file number above every live file |
| `VersionSets.RecoveryNeeds` | DormitoryForDelivery/Pods/leveldb-library/db/version_set.cc:886-1011 | recovery succeeds exactly when every record decodes, none names another comparator, and a next file, a log number and a last sequence are recorded; the last ones recorded count |
| `VersionSets.Reopen` | DormitoryForDelivery/Pods/leveldb-library/db/version_set.cc:801-1011 | recovering what a version set has written gives its state back |
| `VersionSets.PointersTwice` | DormitoryForDelivery/Pods/leveldb-library/db/version_set.cc:823-845 | the first manifest holds an edit's pointers twice, to no effect |
| `Gc.DeleteObsoleteFiles` | DormitoryForDelivery/Pods/leveldb-library/db/db_impl.cc:223-278 | without an error, no table or temporary file is left that is neither pending nor in a version, no log that recovery skips and no older manifest, and what the rules keep stays; after an error, all stays |
| `Gc.CollectKeepsInv` | DormitoryForDelivery/Pods/leveldb-library/db/db_impl.cc:223-278 | a collection keeps everything that is promised, within a compaction's nested flush too |
| `Gc.NextKeepsInv` | DormitoryForDelivery/Pods/leveldb-library/db/db_impl.cc:491-566 | so does every other step |
| `Gc.RunIsSafe` | DormitoryForDelivery/Pods/leveldb-library/db/db_impl.cc:688-800 | in every run all tables of referenced versions, pending outputs and of the recorded version exist, and all logs recovery reads |
| `Gc.DeletedIsNotNeeded` | DormitoryForDelivery/Pods/leveldb-library/db/db_impl.cc:223-278 | in every run, no deleted file is needed by a version, a pending output or recovery |
| `Gc.ObsoleteIsGone` | DormitoryForDelivery/Pods/leveldb-library/db/db_impl.cc:223-278 | in every run, right after a flush or compaction that ended well no obsolete file is left: every table is an output of the running compaction or in a version somebody refers to |
| `Gc.NoReferenceIsForgotten` | DormitoryForDelivery/Pods/leveldb-library/db/db_impl.cc:688-800 | in every run the references to versions are those the readers hold and the one of the compaction under way |
| `NanopbVarint.Varint32OfEncoding` | DormitoryForDelivery/Pods/nanopb/pb_decode.c:187-247 | the 32-bit reader on any 64-bit encoding: accepted exactly for the stated set, then the low word |
| `NanopbVarint.Varint32Ranges` | DormitoryForDelivery/Pods/nanopb/pb_decode.c:187-247 | 32-bit values and sign-extended negative ones come back, everything in [2^32, 2^63) is refused |
| `NanopbVarint.Varint32LosesBits` | DormitoryForDelivery/Pods/nanopb/pb_decode.c:215-235 | a value outside both ranges that is accepted nevertheless |
| `NanopbVarint.ZigZagRoundTrip` | DormitoryForDelivery/Pods/nanopb/pb_encode.c:630-639 | ZigZag undoes itself on every int64 |
| `NanopbVarint.SvarintRoundTrip` | DormitoryForDelivery/Pods/nanopb/pb_decode.c:1279-1291 | and so through a varint of at most ten bytes |
| `NanopbIStream.IStream.DecodeVarint32Eof` | DormitoryForDelivery/Pods/nanopb/pb_decode.c:187-247 | the reader function on what is left of the stream; end of stream only before the first byte |
| `NanopbIStream.IStream.DecodeVarint` | DormitoryForDelivery/Pods/nanopb/pb_decode.c:255-276 | the same for 64 bits |
| `NanopbEncode.OStream.EncodeVarint` | DormitoryForDelivery/Pods/nanopb/pb_encode.c:608-628 | the varint is emitted or the stream is full |
| `NanopbEncode.Encode` | DormitoryForDelivery/Pods/nanopb/pb_encode.c:528-550 | emits the message's encoding, sizing and buffer streams alike |
| `NanopbEncode.EncodeBasicField` | DormitoryForDelivery/Pods/nanopb/pb_encode.c:341-426 | emits the field's encoding: required, optional, singular, repeated, oneof |
| `NanopbEncode.EncodeArray` | DormitoryForDelivery/Pods/nanopb/pb_encode.c:147-236 | emits packed and unpacked arrays; more entries than the array holds fail |
| `NanopbEncode.EncodePacked` | DormitoryForDelivery/Pods/nanopb/pb_encode.c:162-205 | the size found first is the size written |
| `NanopbEncode.EncodeSubmessage` | DormitoryForDelivery/Pods/nanopb/pb_encode.c:717-765 | emits length and body at every depth |
| `NanopbEncode.WriteSized` | DormitoryForDelivery/Pods/nanopb/pb_encode.c:745-764 | the second pass writes exactly the size of the first: its size error cannot be reached |
| `NanopbEncode.GetEncodedSize` | DormitoryForDelivery/Pods/nanopb/pb_encode.c:567-576 | the size of the encoding |
| `NanopbEncode.EncodeToBuffer` | DormitoryForDelivery/Pods/nanopb/pb_encode.c:528-576 | a buffer suffices if and only if sizing succeeds with a total within it, and then holds the encoding |
| `NanopbCompat.EncodesIffStorable` | DormitoryForDelivery/Pods/nanopb/pb_encode.c:341-426 | a message is refused exactly when a field holds what its memory cannot, an array with more entries than it has for one |
| `NanopbCompat.PackedArrayIsOne` | DormitoryForDelivery/Pods/nanopb/pb_encode.c:162-205 | an array of numbers is written with one key and one length |
| `NanopbCompat.FieldsInOrder` | DormitoryForDelivery/Pods/nanopb/pb_encode.c:528-550 | fields are written in the order of the descriptor |
| `NanopbCompat.WordIsWritten` | DormitoryForDelivery/Pods/nanopb/pb_encode.c:776-832 | a varint field carries two's complement, or ZigZag for sint32 and sint64 |
| `NanopbCompat.DefaultIsOmitted` | DormitoryForDelivery/Pods/nanopb/pb_encode.c:240-337 | a field without presence is left out exactly when it has its default value and no part of its type must be written |
| `NanopbReader.FieldIter.Next` | DormitoryForDelivery/Pods/nanopb/pb_common.c:20-76 | the next field, or false on wrapping round, with the required fields counted |
| `NanopbReader.FieldIter.Find` | DormitoryForDelivery/Pods/nanopb/pb_common.c:78-95 | from any position, the field with the tag, or that there is none |
| `NanopbReader.MarksDecide` | DormitoryForDelivery/Pods/nanopb/pb_decode.c:1033-1073 | the bitmap check passes if and only if every required field the bitmap has room for was seen |
| `NanopbReader.AllMarked` | DormitoryForDelivery/Pods/nanopb/pb_decode.c:1056-1071 | whole words and remaining bits: all of the counted bits are set |
| `NanopbReader.Skip` | DormitoryForDelivery/Pods/nanopb/pb_decode.c:321-332 | unknown fields of every wire type are passed over |
| `NanopbReader.CloseStringSubstream` | DormitoryForDelivery/Pods/nanopb/pb_decode.c:387-400 | the parent goes on right after the substream, whatever was left of it |
| `NanopbReader.DecodeStaticField` | DormitoryForDelivery/Pods/nanopb/pb_decode.c:406-483 | the field is stored by its kind; packed and unpacked arrays, oneofs |
| `NanopbReader.DecodeSubmessage` | DormitoryForDelivery/Pods/nanopb/pb_decode.c:1519-1541 | array entries start from defaults, other submessages from what is there |
| `NanopbReader.DecodeNoInitFrom` | DormitoryForDelivery/Pods/nanopb/pb_decode.c:928-1076 | decodes exactly what the decoding function says, on any bytes |
| `NanopbReader.DecodeMessage` | DormitoryForDelivery/Pods/nanopb/pb_decode.c:1078-1090 | the same, from the defaults |
| `NanopbItems.DecodeMerges` | DormitoryForDelivery/Pods/nanopb/pb_decode.c:928-1076 | for any well-formed fields, in any order and at any depth: decoding succeeds exactly if the arrays hold their entries and the required fields are there, and gives what merging the fields one by one gives |
| `NanopbCompat.ArrayPiecesAppend` | DormitoryForDelivery/Pods/nanopb/pb_decode.c:425-460 | packed runs and single entries of an array, in any order, append |
| `NanopbCompat.UnpackedArrayIsRead` | DormitoryForDelivery/Pods/nanopb/pb_decode.c:425-460 | the unpacked form of a packable array, as peers that do not pack send it, is read |
| `NanopbCompat.TooManyEntriesFail` | DormitoryForDelivery/Pods/nanopb/pb_decode.c:425-460 | more entries than the array holds, however they come, fail the message |
| `NanopbCompat.LastValueCounts` | DormitoryForDelivery/Pods/nanopb/pb_decode.c:406-483 | of several values of a field the last counts, and of a oneof the field that came last |
| `NanopbCompat.SplitSubmessageMerges` | DormitoryForDelivery/Pods/nanopb/pb_decode.c:1519-1541 | a submessage sent in two pieces decodes to what the whole decodes to |
| `NanopbCompat.OldReaderAgrees` | DormitoryForDelivery/Pods/nanopb/pb_decode.c:960-989 | a reader whose descriptor lacks a field takes any message for the same one without it |
| `NanopbCompat.OldReaderReadsEncoded` | DormitoryForDelivery/Pods/nanopb/pb_decode.c:960-989 | and so it takes every encoded message |
| `NanopbCompat.VarintFieldIsRead` | DormitoryForDelivery/Pods/nanopb/pb_decode.c:1339-1425 | a varint field takes the number its word stands for if its memory can hold it, and fails the message otherwise |
| `NanopbCompat.UnsignedOverflowFails` | DormitoryForDelivery/Pods/nanopb/pb_decode.c:1376-1398 | a number beyond an unsigned field fails the message |
| `NanopbCompat.DataOverflowFails` | DormitoryForDelivery/Pods/nanopb/pb_decode.c:1441-1562 | a string or byte array beyond its buffer fails it |
| `NanopbCompat.TruncatedFails` | DormitoryForDelivery/Pods/nanopb/pb_decode.c:372-385 | so does a message that stops inside a string, a submessage or a packed array |
| `NanopbCompat.MissingRequiredFails` | DormitoryForDelivery/Pods/nanopb/pb_decode.c:1033-1073 | so does one without a required field, for the first 64 of them |
| `NanopbRoundTrip.DecodeUndoesEncode` | DormitoryForDelivery/Pods/nanopb/pb_encode.c:528-550 | every message that fits its descriptor is encoded, and decoding gives it back |
| `NanopbRoundTrip.UnknownFieldsChangeNothing` | DormitoryForDelivery/Pods/nanopb/pb_decode.c:960-989 | with well-formed unknown fields put in anywhere, at any depth, decoding gives the same |
| `NanopbRoundTrip.TextNeedsTerminator` | DormitoryForDelivery/Pods/nanopb/pb_decode.c:1481-1517 | a string is read back if and only if its buffer has room for the terminator |
| `NanopbRoundTrip.DefaultIsUnique` | DormitoryForDelivery/Pods/nanopb/pb_encode.c:240-337 | the value a proto3 field omits is the one decoding starts from |
| `NanopbRoundTrip.EncodeThenDecode` | DormitoryForDelivery/Pods/nanopb/pb_decode.c:1078-1090 | the encoder into a buffer and then the decoder return the message |

## Left out

- ViewSteps.CompactionKeepsReads: asks that left-out files of the next level share no user key with those taken; without it the statement is false, see `BoundaryOnNextLevelIsNeeded`.
- StoreSteps.PickKeepsInv: a compaction is picked under the same proviso, which `StoreSteps.CompactKeepsInv` then relies on.
- StoreSteps.CompactKeepsInv: covers compactions that were picked under that proviso.
- StoreSteps.FlushKeepsInv: a flush inside a compaction goes to its output level only where the gaps of the inputs are filled; without it the statement is false, see `HarmlessIffGuarded` and `ManualCompactionLeavesGap`.
- Which compaction is due (scores and seeks) and when background work runs: any choice is a step. The bookkeeping of a manual compaction that goes on in pieces is not modelled.
- Corrupted internal keys met by the compaction loop, the iterator or a table lookup; the model's keys parse.
- User keys in the store's modules and in `DbIter`, `Mergers` and `SkipLists` are ranks, not byte strings; the byte forms are in `InternalKeys`, `MemTables`, `Blocks` and the table modules.
- The store keeps log records and edits as values; that their files give them back is proved in `LogRoundTrip` and `VersionSets`, and not joined to the store's steps.
- VersionSets.VersionSet.LogAndApply: a manifest write that fails is not modelled; the error latch is in `Gc`.
- Log.Reader.ReadPhysicalRecord: checksums always on, as the recovery sets them; a nonzero initial offset is left out.
- Log.Reader.ReadRecord: initial offset zero and checksums always on, as the recovery sets them.
- Reusing the last log or the manifest on opening, and repair.
- TableReaders.Open: malformed table files and their error statuses; the readers below it (`DecodeFooter`, `ReadBlock`, `OpenBlock`, `DecodeEntry`) are total.
- Snappy, block and table caches, the two-level iterator, size estimates.
- BlockIters.Iter.Seek: the error marker for a malformed block.
- The comparator contract says nothing of separators for start at or above limit; the model asks that start is then left alone, as the bytewise comparator does, because the internal comparator relies on it when both user keys are equal.
- Write and sync errors in the group commit, the delays of MakeRoomForWrite, and the memtable switch inside Write; the switch is a step of the store.
- WriteBatches.WriteBatch.Put: batches of 2^31 operations or more, and strings of 2^32 bytes or more, whose counts and lengths the source truncates.
- WriteBatches.WriteBatch.Delete: the same for deletions.
- WriteBatches.WriteBatch.Append: joined batches of 2^31 operations or more, whose count the source truncates.
- BloomFilters.BloomNeverRejects: the hash is any function, and the number of probes comes from 69/100 of the bits per key in integers; the policy promises the same for any number.
- SkipLists: each link store is one step; the memory order of the stores, the arena and the iterator class (its moves are the searches) are left out.
- Snapshots.SnapshotList.Delete: takes the snapshot's position as a ghost argument; releasing the memory is not modelled.
- nanopb callbacks, extensions, pointer fields, fixed-count arrays, explicit default values, delimited and null-terminated messages, and builds without 64-bit integers.
- NanopbReader.DecodeNoInitFrom: the destination structure is a list of slots, one per field; layout in memory and the members of a union sharing it are not modelled. An empty message type given a key with field number zero is left out.
- NanopbIStream.IStream.DecodeVarint32Eof: the 8-bit bit counter is not followed past 36 continuation bytes, where it would wrap.
- NanopbRoundTrip.DecodeUndoesEncode: encodings of 2^32 bytes or more, whose inner lengths the decoder's 32-bit reader refuses.
- Sizes near the limit of size_t, reference counts, statistics, the C bindings, and everything outside the two libraries.
