# LevelDB and nanopb, modelled and proved in Dafny

The repository is an iOS app; its cores are two libraries it carries along, LevelDB (an ordered key-value store) and
nanopb (a protocol buffer codec). This project models their code and proves what they are for.

- **The store as a machine** (`Store`, `StoreRuns`, `Compaction`, `OutputCuts`, `VersionSet`, `Picking`, `VersionGet`,
  `DbImpl`; `LostDeletion` and `FlushedBetween` are runs of it). A state is the
  memtables, the levels of files, snapshots, logs, manifest counters and a running compaction, together with the
  complete history of writes. Steps are writes, memtable switches, flushes, snapshots, compactions that may interleave
  with all of these, trivial moves, log removal and crashes. The class `DbImpl` carries the steps out.
- **What is on disk** (`WriteBatch`, `LogFile`, `LogReplay`, `LogBatches`, `VersionEdits`, `Builders`, `Manifest`,
  `DiskImage`, `TableFiles`; `Spellings` and `LogForms` state the formats as grammars, in numerals). Batches and version
  edits as bytes, in logs that may be cut anywhere; opening a store from them.
- **Tables** (`Block`, `BlockIter`, `LargeBlocks`, `Comparators`, `Bloom`, `FilterBlocks`, `TableFormat`,
  `TableBuilders`, `Tables`; `TableForms` states the formats in numerals). From sorted entries to the bytes of a table
  file with shortened index keys and bloom filters, and back.
- **Iterators** (`Iterators`, `DbIter`, `StoreIterators`). Concatenating, merging and user-level cursors that may turn
  round at any time.
- **Concurrency** (`GroupCommit`, `WriterQueue`, `SkipLists`, `SkipListRaces`). The queue of writers and the skip list
  with racing readers, as machines over their atomic steps.
- **Caching and checksums** (`LruCache`, `HandleTables`, `Crc32c`, after section 12.1 of RFC 3720, and
  `Crc32cValues`).
- **nanopb** (`NanopbMessage`, `NanopbEncode`, `NanopbStream`, `NanopbDecode`, `NanopbRoundTrip`, `NanopbVarint`;
  `NanopbWire` has the grammar of the wire format, `NanopbLaws` what the decoder does with bytes of other encoders),
  after the sections "Base 128 Varints", "Signed Integers" and "Length-Delimited Records" of the Protocol Buffers
  Encoding specification.

Code that changes things in place is a class or a method with a loop, proved against functions on values; what the
code promises is then proved of those functions and of all runs. `dafny verify dfyconfig.toml` checks everything.

## Findings

- `SetupOtherInputs` closes only the upper inputs under `AddBoundaryInputs`
  (`iOS/StudyHours/Pods/leveldb-library/db/version_set.cc:1407` and line 1422), not the lower ones. A deletion among the
  lower inputs can then be dropped while an older value of its key stays in the file right behind them, and the key
  comes back. `LostDeletion.ADeletedKeyComesBack` is such a behaviour from an empty store on.
  `Store.CompactionPreservesReadsExactlyWhen` and `Store.SafeExactlyWhen` say exactly when a compaction keeps all reads,
  by a test on that one file; `StoreRuns.RightExactlyWhen` says it of whole behaviours, and
  `StoreRuns.WrongAnswersComeFromLoss` that nothing else can go wrong. `Store.ClosedLowerInputsAreSafe` shows that
  closing the lower inputs too would always be enough.
- A manual compaction may have gaps between its inputs, and a memtable is flushed in the middle of it
  (`iOS/StudyHours/Pods/leveldb-library/db/db_impl.cc:906-918`). The table can go to the level of the outputs, between
  two inputs, and an output then reaches over it. `FlushedBetween.OutputsDoNotFit` is such a run.
  `DbImpl.FinishCompaction` says that its level is in order afterwards if and only if no output reaches over a file that
  stays, and `Store.OutputsFit` that this is so for every automatic compaction.
- nanopb writes a string that fills its whole array, but does not read it back, since reading needs room for the
  terminator (`iOS/StudyHours/Pods/nanopb/pb_decode.c:1428-1461`). `NanopbRoundTrip.StringReadsExactlyWhen` has the exact
  condition for one string, `NanopbRoundTrip.MessageReads` for whole messages.
- The offsets in a block and in a filter block have 32 bits
  (`iOS/StudyHours/Pods/leveldb-library/table/block_builder.cc:62-70`, `table/block.h:38`, `table/filter_block.cc:41`).
  `BlockIter.OpensExactlyWhen` and `FilterBlocks.OpensExactlyWhen` say that it is the entries, or the filters, that must
  end within 2^32 bytes, not the whole block, and that it fails otherwise; `LargeBlocks.LargestValueIsLost` is a single
  value with which it fails.

## Model

| member | source | states |
|---|---|---|
| `StoreRuns.RightExactlyWhen` | iOS/StudyHours/Pods/leveldb-library/db/db_impl.cc:890-999 | Whatever the code does from an empty store on (writes, memtable switches, flushes at any time, snapshots, moves, automatic and manual compactions, crashes): no compaction changes an answer at any sequence number from the oldest that a live reader, or a reader after a crash, may use up to the last, if and only if none loses a deletion, which can be seen beforehand from the file right behind the inputs; and up to the first loss the invariant holds |
| `StoreRuns.WrongAnswersComeFromLoss` | iOS/StudyHours/Pods/leveldb-library/db/version_set.cc:1403-1462 | A live reader that is answered wrongly in any behaviour goes back to a finished compaction that lost a deletion in a state that was still right |
| `StoreRuns.FaithfulExactlyWhen` | iOS/StudyHours/Pods/leveldb-library/db/db_impl.cc:688-767 | In all states of any behaviour up to some point the invariant holds (layering, level order, unique file numbers, log and manifest bookkeeping, answers from the history) if and only if no compaction has lost a deletion on the way; and so do the answers from the history alone |
| `StoreRuns.EveryReaderIsAnsweredFromHistory` | iOS/StudyHours/Pods/leveldb-library/db/db_impl.cc:1100-1145 | In any behaviour, as long as no compaction has lost a deletion, each live reader, at a snapshot or at the last sequence number, gets exactly the newest write at or before its number in the complete history |
| `StoreRuns.SnapshotsReadTheSameForever` | iOS/StudyHours/Pods/leveldb-library/db/db_impl.cc:1166-1175 | And what a held snapshot reads does not change between two states without a crash in between, whatever was written, flushed, moved and compacted meanwhile |
| `Store.CompactionPreservesReadsExactlyWhen` | iOS/StudyHours/Pods/leveldb-library/db/db_impl.cc:890-999 | Replacing the inputs by what drop rules (A) and (B) keep leaves alone the answers at all sequence numbers from the oldest that a live reader, or one after a crash, may use, if and only if no dropped deletion covered a value outside the inputs |
| `Store.SafeExactlyWhen` | iOS/StudyHours/Pods/leveldb-library/db/version_set.cc:1403-1462 | That condition holds exactly when the unchosen file right behind the inputs does not start with a value whose key is, at the oldest of these numbers, deleted by an input deletion about to be dropped |
| `Store.OnlyLowerNeighboursReappear` | iOS/StudyHours/Pods/leveldb-library/db/version_set.cc:1403-1462 | What can reappear lies in an unchosen file of the lower input level, and the deletion came from the lower inputs |
| `Store.ClosedLowerInputsAreSafe` | iOS/StudyHours/Pods/leveldb-library/db/version_set.cc:1378-1401 | If the lower inputs were closed under the boundary rule too, no deletion would ever be lost |
| `Store.OutputsFit` | iOS/StudyHours/Pods/leveldb-library/db/version_set.cc:694-754 | If no output reaches over an unchosen file, the outputs fit on their level; for an automatic compaction that is always so, because its inputs have no gap in which a table could be flushed meanwhile |
| `Store.SortedMeansNothingSpanned` | iOS/StudyHours/Pods/leveldb-library/db/version_set.cc:717-750 | And only if: a sorted level cannot hold both an output and a file that this reaches over |
| `Store.FinishKeepsInv` | iOS/StudyHours/Pods/leveldb-library/db/db_impl.cc:860-999 | Installing the outputs of a compaction keeps the invariant if and only if the compaction was safe |
| `Store.FlushKeepsInv` | iOS/StudyHours/Pods/leveldb-library/db/db_impl.cc:535-566 | Writing the immutable memtable to the picked level keeps the invariant, also in the middle of an automatic or manual compaction |
| `Store.MoveKeepsInv` | iOS/StudyHours/Pods/leveldb-library/db/db_impl.cc:718-733 | Moving one file a level down by metadata only keeps the invariant |
| `Store.WriteKeepsInv` | iOS/StudyHours/Pods/leveldb-library/db/db_impl.cc:1201-1238 | Committing a batch to log and memtable keeps the invariant |
| `Store.SwitchKeepsInv` | iOS/StudyHours/Pods/leveldb-library/db/db_impl.cc:1346-1367 | A fresh log and memtable keep the invariant |
| `Store.StartKeepsInv` | iOS/StudyHours/Pods/leveldb-library/db/version_set.cc:1403-1462 | Inputs as SetupOtherInputs chooses them keep the invariant while the compaction runs |
| `Store.DropLogsKeepsInv` | iOS/StudyHours/Pods/leveldb-library/db/db_impl.cc:223-278 | Removing logs older than the manifest says keeps the invariant |
| `Store.CrashKeepsInv` | iOS/StudyHours/Pods/leveldb-library/db/db_impl.cc:280-488 | Reopening after a crash that leaves only a prefix of the newest log keeps the invariant, so reads after it are those of the history that is left |
| `Store.CrashLosesOnlyTheTornTail` | iOS/StudyHours/Pods/leveldb-library/db/db_impl.cc:412-453 | Of all that was written, exactly the entries behind the torn point of the newest log are gone |
| `LostDeletion.ADeletedKeyComesBack` | iOS/StudyHours/Pods/leveldb-library/db/version_set.cc:1403-1462 | A behaviour of the code in sixteen steps, by automatic flushes and compactions only, after whose last step a deleted key is found again |
| `LostDeletion.FirstIsFullAfterTheDeletion` | iOS/StudyHours/Pods/leveldb-library/db/db_impl.cc:988-995 | The outputs of the first compaction of it are the ones that the rules for cutting give: the first file has reached its maximal size |
| `FlushedBetween.OutputsDoNotFit` | iOS/StudyHours/Pods/leveldb-library/db/db_impl.cc:906-918 | A run of the code in nine steps, after which the one output that a manual compaction must write reaches over a table flushed meanwhile, so that no step can finish it with a sorted level |
| `VersionGet.Get` | iOS/StudyHours/Pods/leveldb-library/db/version_set.cc:326-421 | The search through memtable, immutable memtable, level 0 newest first and one file of each deeper level, which stops at the first hit, answers with the newest visible version of all |
| `VersionGet.SearchLevelZero` | iOS/StudyHours/Pods/leveldb-library/db/version_set.cc:282-303 | Searching the overlapping files newest first finds the newest visible version of the whole level |
| `VersionGet.SearchSortedLevel` | iOS/StudyHours/Pods/leveldb-library/db/version_set.cc:305-324 | Searching the one file that can hold the lookup key finds the newest visible version of the whole level |
| `DbImpl.DbImpl.Get` | iOS/StudyHours/Pods/leveldb-library/db/db_impl.cc:1100-1145 | Returns the value that the history has for the key at the snapshot, or at the last sequence number |
| `DbImpl.DbImpl.Write` | iOS/StudyHours/Pods/leveldb-library/db/db_impl.cc:1201-1238 | Is a write step of the store machine: entries numbered from the last sequence number on, in the log and in the memtable |
| `DbImpl.DbImpl.SwitchMemtable` | iOS/StudyHours/Pods/leveldb-library/db/db_impl.cc:1346-1367 | Is a switch step of the store machine |
| `DbImpl.DbImpl.CompactMemTable` | iOS/StudyHours/Pods/leveldb-library/db/db_impl.cc:535-566 | Is a flush step of the store machine, whether or not a compaction is running; a table goes to level 0 if a file of the levels 0 or 1 has user keys in its range, or such files of level 2 have more bytes than the limit that was given; else to level 1 if a file of level 2 has, or those of level 3 have more bytes; else to level 2 |
| `VersionSet.StopsWhereItGoes` | iOS/StudyHours/Pods/leveldb-library/db/version_set.cc:491-516 | The level where the picker stops, in overlapping files and bytes |
| `DbImpl.DbImpl.PickCompaction` | iOS/StudyHours/Pods/leveldb-library/db/version_set.cc:1270-1322 | Starts from the file behind the compact pointer of the most urgent level, or else from the file with too many seeks: an automatic compaction of the inputs that SetupOtherInputs chooses for it, or, exactly when these are one file that nothing below meets and that meets not too many bytes two levels down, the move of that file, each a step of the store machine; leaves the compact pointer of the level at the largest entry of its upper inputs and the others alone; does nothing exactly when no level is full and no file is to be compacted for its seeks |
| `Picking.NextPickGoesOn` | iOS/StudyHours/Pods/leveldb-library/db/version_set.cc:1284-1296 | The next time the level is picked for its size, the compaction starts at the first file ending behind all upper inputs of the last one, or at the first file if there is none |
| `Picking.PicksGoRound` | iOS/StudyHours/Pods/leveldb-library/db/version_set.cc:1284-1296 | So the files of a sorted level that stays as it is are picked one after the other, round and round |
| `Picking.FullExactlyWhen` | iOS/StudyHours/Pods/leveldb-library/db/version_set.cc:1050-1086 | A level is full, in numerals: four files on level 0, ten megabytes on level 1, ten times more on each further level |
| `DbImpl.DbImpl.CompactRange` | iOS/StudyHours/Pods/leveldb-library/db/db_impl.cc:697-705 | Starts a manual compaction of the inputs that SetupOtherInputs chooses for the files of the range up to the size limit, as a step of the store machine, and leaves the compact pointer of the level at its end; is done, without any change, exactly when no file overlaps the range |
| `DbImpl.DbImpl.IsTrivialMove` | iOS/StudyHours/Pods/leveldb-library/db/version_set.cc:1515-1523 | One upper input, no lower one, and not too many bytes overlap two levels down |
| `DbImpl.DbImpl.FinishCompaction` | iOS/StudyHours/Pods/leveldb-library/db/db_impl.cc:878-1035 | Installs outputs that are cut where they must be; their level is sorted if and only if none reaches over a file that stays, and always for an automatic compaction; and then the step keeps all reads, and the invariant, exactly when the compaction is safe |
| `DbImpl.DbImpl.Open` | iOS/StudyHours/Pods/leveldb-library/db/db_impl.cc:280-453 | From the bytes of manifest and logs, the newest log cut anywhere and the manifest in its last record, the opened store is the crash of the old state that loses exactly the batches not wholly inside the cut; the tables it makes of the logs are written when their memtables were over the write buffer, and not before |
| `DbImpl.DbImpl.NewIterator` | iOS/StudyHours/Pods/leveldb-library/db/db_impl.cc:1147-1157 | The iterator shows exactly the keys and values of the history at its sequence number |
| `VersionSet.FindFile` | iOS/StudyHours/Pods/leveldb-library/db/version_set.cc:88-106 | Binary search finds the first file whose largest key is not before the lookup key |
| `VersionSet.SomeFileOverlapsRange` | iOS/StudyHours/Pods/leveldb-library/db/version_set.cc:122-160 | Says whether any file overlaps the range, for sorted and for overlapping levels |
| `VersionSet.PickLevelForMemTableOutput` | iOS/StudyHours/Pods/leveldb-library/db/version_set.cc:491-516 | Goes down from level 0 as long as nothing overlaps one level below and not too much two levels below, and stops exactly there |
| `VersionSet.StopsOnce` | iOS/StudyHours/Pods/leveldb-library/db/version_set.cc:491-516 | There is only one such level |
| `VersionSet.GetOverlappingInputs` | iOS/StudyHours/Pods/leveldb-library/db/version_set.cc:519-559 | Terminates; all files that overlap the range; on level 0 the range has grown to the least one that is closed under overlap |
| `VersionSet.FindSmallestBoundaryFile` | iOS/StudyHours/Pods/leveldb-library/db/version_set.cc:1344-1360 | The first file that continues the last user key, if there is one |
| `VersionSet.AddBoundaryInputs` | iOS/StudyHours/Pods/leveldb-library/db/version_set.cc:1378-1401 | Terminates; afterwards no file of the level continues the last user key; sorted contiguous inputs stay so |
| `VersionSet.SetupOtherInputs` | iOS/StudyHours/Pods/leveldb-library/db/version_set.cc:1403-1462 | The closed upper inputs, all that overlap them below, and the wider choice exactly when it is larger, under the size limit and needs no more files below; no older version of an upper input is left on its level, and connected inputs stay connected |
| `VersionSet.GrownInBytes` | iOS/StudyHours/Pods/leveldb-library/db/version_set.cc:1420-1445 | When the inputs grow and when they do not, in files and bytes |
| `VersionSet.PickInputs` | iOS/StudyHours/Pods/leveldb-library/db/version_set.cc:1304-1317 | The file alone; on level 0 the files connected with it by overlaps |
| `Picking.Finalize` | iOS/StudyHours/Pods/leveldb-library/db/version_set.cc:1050-1086 | The first of the levels with the highest score: the number of files over four on level 0, the bytes over the limit of the level below |
| `Picking.PickSeed` | iOS/StudyHours/Pods/leveldb-library/db/version_set.cc:1284-1296 | The first file that ends behind the compact pointer, or the first of all if none does |
| `Picking.ChooseSeed` | iOS/StudyHours/Pods/leveldb-library/db/version_set.cc:1270-1304 | A full level goes before a file with too many seeks; nothing is chosen exactly when there is neither |
| `VersionSet.ManualInputs` | iOS/StudyHours/Pods/leveldb-library/db/version_set.cc:1464-1495 | The files that overlap the range, cut off at the size limit above level 0; empty exactly when none overlaps |
| `VersionSet.SaveLevel` | iOS/StudyHours/Pods/leveldb-library/db/version_set.cc:694-754 | Base files that are not deleted and added files, merged in key order; sorted and disjoint when they fit together |
| `Compaction.DoCompactionWork` | iOS/StudyHours/Pods/leveldb-library/db/db_impl.cc:890-1010 | The outputs are in order and cut where a file is full or would overlap too much two levels down, and nowhere else; two outputs of a key at or below the oldest snapshot are the same; a deletion there is in the outputs if and only if it is the newest input of its key there and a deeper file covers the key; every other input that is newest at some number from the oldest snapshot on is in the outputs, and nothing else |
| `Compaction.OutputsAreNeeded` | iOS/StudyHours/Pods/leveldb-library/db/db_impl.cc:928-962 | The two drop rules keep exactly what some reader from the oldest snapshot on is still asked for, in terms of the inputs alone |
| `Store.FloorIsOldest` | iOS/StudyHours/Pods/leveldb-library/db/db_impl.cc:890-894 | The oldest number a compaction must respect is the smallest snapshot, or the last number if there is none |
| `OutputCuts.OverlapCursor.ShouldStopBefore` | iOS/StudyHours/Pods/leveldb-library/db/version_set.cc:1554-1580 | With one forward cursor and a running sum, says exactly whether the grandparents that end between the last stop and the key, seen over the whole input, exceed the limit |
| `OutputCuts.CutsAreDetermined` | iOS/StudyHours/Pods/leveldb-library/db/db_impl.cc:920-996 | The surviving entries and the rules for cutting leave no choice of the output files |
| `OutputCuts.StopsInBytes` | iOS/StudyHours/Pods/leveldb-library/db/version_set.cc:1554-1580 | An entry starts a new file exactly when the grandparents that end between the last such entry and it have more bytes than the limit |
| `OutputCuts.GroupsEndAtStops` | iOS/StudyHours/Pods/leveldb-library/db/version_set.cc:1554-1580 | Two entries may share a file exactly when no such entry lies between them |
| `OutputCuts.TablesInBytes` | iOS/StudyHours/Pods/leveldb-library/db/db_impl.cc:985-996 | No output had reached the maximal file size before its last entry, and one that another follows had with it, unless a new group starts |
| `Compaction.CanDrop` | iOS/StudyHours/Pods/leveldb-library/db/db_impl.cc:928-962 | Decides, from the last sequence number of the key alone, exactly what the two rules say of the whole input |
| `Compaction.BaseLevelCursor.IsBaseLevelForKey` | iOS/StudyHours/Pods/leveldb-library/db/version_set.cc:1533-1552 | With cursors that only move forward, says exactly whether no file of a deeper level covers the key, as long as keys ascend |
| `Builders.Builder.Apply` | iOS/StudyHours/Pods/leveldb-library/db/version_set.cc:650-692 | Collects one more edit, whatever numbers it adds: an added number is no longer deleted, and a file of the same rank is not added twice |
| `Builders.Builder.SaveTo` | iOS/StudyHours/Pods/leveldb-library/db/version_set.cc:694-739 | Saving once after any number of edits keeps the base and added files whose numbers are not deleted; if no edit gave a number a second time, these are level by level the files that applying the edits one version at a time gives, and sorted levels of disjoint files stay sorted and disjoint |
| `Builders.SavedIsOneByOne` | iOS/StudyHours/Pods/leveldb-library/db/version_set.cc:650-754 | Collected deletions and additions that describe the edits applied one by one, saved at once, give the files that these leave |
| `Builders.CollectedWhenNew` | iOS/StudyHours/Pods/leveldb-library/db/version_set.cc:650-692 | What a builder has collected describes the edits applied one by one, if no edit gives a number a second time |
| `Builders.OldFileComesBack` | iOS/StudyHours/Pods/leveldb-library/db/version_set.cc:690-691 | Without that it does not: a number that is added again after its file was deleted brings the old file back |
| `Manifest.RunKeepsManifest` | iOS/StudyHours/Pods/leveldb-library/db/version_set.cc:801-884 | In every state of every run the edits written so far describe the levels, the log number and the counters of that state; that new files have numbers never named before follows from the file counter |
| `Manifest.StepKeepsCounter` | iOS/StudyHours/Pods/leveldb-library/db/version_set.h:194 | Numbers that were taken from the counter and not used yet stay below it and are named by no edit |
| `Manifest.SnapshotDescribes` | iOS/StudyHours/Pods/leveldb-library/db/version_set.cc:1088-1116 | A snapshot record alone describes the version it was taken of |
| `Manifest.Rebuild` | iOS/StudyHours/Pods/leveldb-library/db/version_set.cc:886-1000 | Replaying a snapshot record and any edits behind it through one builder gives back the levels and counters |
| `Manifest.SortedIsUnique` | iOS/StudyHours/Pods/leveldb-library/db/version_set.cc:694-739 | A set of disjoint files has only one sorted list, so rebuilt levels are equal, not just alike |
| `VersionEdits.EncodeTo` | iOS/StudyHours/Pods/leveldb-library/db/version_edit.cc:41-85 | Writes the fields in the order of the code, tag by tag |
| `VersionEdits.DecodeFrom` | iOS/StudyHours/Pods/leveldb-library/db/version_edit.cc:107-205 | Reads fields until the input is used up, and fails where the code does |
| `VersionEdits.EditIsReadBack` | iOS/StudyHours/Pods/leveldb-library/db/version_edit.cc:41-205 | Every edit is decoded from its bytes into the same edit |
| `Spellings.DecodesExactlyWhen` | iOS/StudyHours/Pods/leveldb-library/db/version_edit.cc:107-205 | Bytes are decoded if and only if they are fields of the grammar (numerals 1 to 7 and 9, levels below seven, lengths and numbers in any spelling), and into just the edit that these add up to |
| `Spellings.EditIsSpelled` | iOS/StudyHours/Pods/leveldb-library/db/version_edit.cc:41-85 | What is written for an edit are fields of this grammar |
| `Spellings.BytesOfAnEdit` | iOS/StudyHours/Pods/leveldb-library/db/version_edit.cc:41-85 | The order of the fields, by the bytes of an edit that has each once |
| `LogReplay.RecoverLogFile` | iOS/StudyHours/Pods/leveldb-library/db/db_impl.cc:371-489 | Replaying a log into memtables gives tables that together hold the log, newer ones newer entries, and the largest sequence number; each table is the memtable of the batches since the last one, written as soon as it was over the write buffer, and never before, but for the last at the end of the log |
| `LogReplay.WrittenInBytes` | iOS/StudyHours/Pods/leveldb-library/db/db_impl.cc:441-452 | When a memtable is written out, in bytes |
| `LogReplay.RecoverLogs` | iOS/StudyHours/Pods/leveldb-library/db/db_impl.cc:314-366 | The same over all logs from the manifest number on, in order, each log with tables of its own |
| `LogBatches.RunKeepsClaims` | iOS/StudyHours/Pods/leveldb-library/db/db_impl.cc:1206-1215 | In every state of every run the batches in the logs carry the sequence numbers of their entries, also empty batches |
| `LogBatches.ClaimsLeadTo` | iOS/StudyHours/Pods/leveldb-library/db/db_impl.cc:433-439 | So the last sequence number computed from batch headers is right, whatever empty batches claim |
| `DiskImage.ReadBatches` | iOS/StudyHours/Pods/leveldb-library/db/db_impl.cc:412-453 | From a log cut at any byte, exactly the batches wholly inside the cut are decoded |
| `DiskImage.ReadManifest` | iOS/StudyHours/Pods/leveldb-library/db/version_set.cc:886-1000 | From a manifest cut anywhere in its last, not yet installed record, exactly the installed edits are decoded |
| `DiskImage.EditsAreReadBack` | iOS/StudyHours/Pods/leveldb-library/db/version_set.cc:886-1000 | All edits of a manifest are decoded from their records |
| `DiskImage.BatchIsReadBack` | iOS/StudyHours/Pods/leveldb-library/db/write_batch.cc:42-96 | A batch record gives back sequence number, count and operations |
| `TableFiles.NoNeededTableIsDeleted` | iOS/StudyHours/Pods/leveldb-library/db/db_impl.cc:223-278 | Over all runs with readers pinning versions and tables being written, DeleteObsoleteFiles never removes a table of a live version or a pending output |
| `TableFiles.OnlyNeededTablesStay` | iOS/StudyHours/Pods/leveldb-library/db/version_set.cc:1167-1177 | And it leaves nothing else |
| `WriteBatch.WriteBatch.Put` | iOS/StudyHours/Pods/leveldb-library/db/write_batch.cc:98-103 | Appends one operation to the bytes and to the count |
| `WriteBatch.WriteBatch.Delete` | iOS/StudyHours/Pods/leveldb-library/db/write_batch.cc:105-109 | Appends one operation to the bytes and to the count |
| `WriteBatch.WriteBatch.Append` | iOS/StudyHours/Pods/leveldb-library/db/write_batch.cc:144-148 | The other batch follows, and the counts add up |
| `WriteBatch.WriteBatch.SetSequence` | iOS/StudyHours/Pods/leveldb-library/db/write_batch.cc:94-96 | Changes the sequence number only |
| `WriteBatch.WriteBatch.Clear` | iOS/StudyHours/Pods/leveldb-library/db/write_batch.cc:35-38 | Leaves a batch without operations, all twelve bytes of its header zero |
| `WriteBatch.Iterate` | iOS/StudyHours/Pods/leveldb-library/db/write_batch.cc:42-80 | Hands over the operations up to the first bad one and succeeds exactly when there is none and the count matches |
| `WriteBatch.UpdatesAreReadBack` | iOS/StudyHours/Pods/leveldb-library/db/write_batch.cc:42-109 | Iterating replays exactly the operations that were put |
| `Spellings.IteratesExactlyWhen` | iOS/StudyHours/Pods/leveldb-library/db/write_batch.cc:5-14 | Iterating goes through if and only if the bytes are records of the grammar (1 with key and value, 0 with key), and hands over just these |
| `Spellings.IteratesUpTo` | iOS/StudyHours/Pods/leveldb-library/db/write_batch.cc:42-80 | Otherwise it hands over the records up to bytes that no record starts with |
| `Spellings.BatchIsSpelled` | iOS/StudyHours/Pods/leveldb-library/db/write_batch.cc:5-14 | A batch is eight bytes of sequence number, four of count, lowest first, and its records |
| `LogFile.Writer.Reopen` | iOS/StudyHours/Pods/leveldb-library/db/log_writer.cc:27-30 | A writer that goes on with a log of some length stands in its last block as if it had written the log itself |
| `LogFile.Writer.AddRecord` | iOS/StudyHours/Pods/leveldb-library/db/log_writer.cc:34-108 | Appends the record in fragments that fit the blocks, also where fewer than seven bytes are left in one |
| `LogFile.Reader.ReadRecord` | iOS/StudyHours/Pods/leveldb-library/db/log_reader.cc:56-174 | Reads what the whole rest of the file says is the next record |
| `LogFile.CutLogReads` | iOS/StudyHours/Pods/leveldb-library/db/log_reader.cc:56-271 | A log cut at any byte is read as exactly the records that end inside the cut |
| `LogFile.WholeMeansInside` | iOS/StudyHours/Pods/leveldb-library/db/log_writer.cc:34-80 | A record counts as inside exactly when its last fragment ends inside the cut |
| `LogFile.CleanLogReads` | iOS/StudyHours/Pods/leveldb-library/db/log_reader.cc:56-271 | A complete log is read as exactly what was written |
| `LogForms.LogIsSpelled` | iOS/StudyHours/Pods/leveldb-library/db/log_format.h:14-30 | The file has the form of the format: blocks of 32768 bytes, headers of seven with checksum, length and type 1 to 4, zeros where less than seven bytes are left, parts that fill their block |
| `LogFile.ReadLog` | iOS/StudyHours/Pods/leveldb-library/db/log_reader.cc:56-271 | The loop over ReadRecord gives those records |
| `Crc32c.Extend` | iOS/StudyHours/Pods/leveldb-library/util/crc32c.cc:276-377 | The four interleaved word streams compute the byte-wise CRC for every buffer, length and alignment |
| `Crc32c.ExtendedTwice` | iOS/StudyHours/Pods/leveldb-library/util/crc32c.h:16-22 | Extending by two parts one after the other is extending by both |
| `Crc32c.MaskingIsUndone` | iOS/StudyHours/Pods/leveldb-library/util/crc32c.h:29-38 | Masking and unmasking are inverses |
| `Crc32cValues.StepIsLookup` | iOS/StudyHours/Pods/leveldb-library/util/crc32c.cc:20-63 | For every register, a byte step is the sum of the entries that the table of the code has for the single bits |
| `Crc32cValues.ZerosCheck` | iOS/StudyHours/Pods/leveldb-library/util/crc32c.cc:276-377 | The check value of section B.4 of RFC 3720 for thirty-two zero bytes |
| `Crc32cValues.AscendingCheck` | iOS/StudyHours/Pods/leveldb-library/util/crc32c.cc:276-377 | The check value there for the bytes 0 to 31 |
| `Crc32cValues.MaskChecks` | iOS/StudyHours/Pods/leveldb-library/util/crc32c.h:24-33 | Masked values: turned by fifteen bits, with the constant added |
| `Coding.EncodeVarint32` | iOS/StudyHours/Pods/leveldb-library/util/coding.cc:47-73 | The cascade of comparisons writes the base 128 groups, at most five |
| `Coding.EncodeVarint64` | iOS/StudyHours/Pods/leveldb-library/util/coding.cc:81-96 | The loop writes the base 128 groups, at most ten |
| `Coding.GetVarint32Ptr` | iOS/StudyHours/Pods/leveldb-library/util/coding.cc:112-140 | The one-byte shortcut and the loop read the same |
| `Coding.Varint32IsReadBack` | iOS/StudyHours/Pods/leveldb-library/util/coding.cc:112-140 | Every 32-bit value is read back, whatever follows |
| `Coding.Varint64IsReadBack` | iOS/StudyHours/Pods/leveldb-library/util/coding.cc:142-168 | Every 64-bit value is read back, whatever follows |
| `Coding.StringIsReadBack` | iOS/StudyHours/Pods/leveldb-library/util/coding.cc:98-101 | A length-prefixed string is read back, whatever follows |
| `Spellings.Number32IsRead` | iOS/StudyHours/Pods/leveldb-library/util/coding.cc:112-140 | A 32-bit number is read if and only if up to five groups spell it, modulo 2^32 |
| `Spellings.Number64IsRead` | iOS/StudyHours/Pods/leveldb-library/util/coding.cc:142-168 | A 64-bit number is read if and only if up to ten groups spell it, modulo 2^64 |
| `Spellings.StringIsRead` | iOS/StudyHours/Pods/leveldb-library/util/coding.cc:170-190 | A string is read if and only if a spelled length and that many bytes are there |
| `Coding.GetLengthPrefixedSlice` | iOS/StudyHours/Pods/leveldb-library/util/coding.cc:181-190 | Reads a length and that many bytes, or fails |
| `Coding.Fixed32ReadsBackExactlyWhen` | iOS/StudyHours/Pods/leveldb-library/util/coding.cc:11-26 | A number written in 32 bits is read back if and only if it fits |
| `Block.BlockBuilder.Add` | iOS/StudyHours/Pods/leveldb-library/table/block_builder.cc:72-106 | Appends one more entry, which shares the longest common prefix, or nothing at a restart point |
| `Block.BlockBuilder.Finish` | iOS/StudyHours/Pods/leveldb-library/table/block_builder.cc:62-70 | The bytes, however many, are a finished block of all entries added, with a restart point at every interval-th |
| `Block.EntryIsReadBack` | iOS/StudyHours/Pods/leveldb-library/table/block.cc:54-74 | An entry is decoded to its lengths and its rest, by the one-byte shortcut and without it |
| `TableForms.EntryIsSpelled` | iOS/StudyHours/Pods/leveldb-library/table/block_builder.cc:92-101 | An entry is three spelled lengths, the rest of the key, the value |
| `TableForms.LengthsAreRead` | iOS/StudyHours/Pods/leveldb-library/table/block.cc:54-74 | The lengths are read if and only if they are spelled there, whether or not the shortcut applies |
| `TableForms.RestartsAreRegular` | iOS/StudyHours/Pods/leveldb-library/table/block_builder.cc:77-90 | The restart points are the entries at multiples of the interval |
| `TableForms.RestartsAreSpelled` | iOS/StudyHours/Pods/leveldb-library/table/block_builder.cc:62-70 | Behind the entries four bytes for each restart point and four for their number, lowest first |
| `BlockIter.BlockDeterminesEntries` | iOS/StudyHours/Pods/leveldb-library/table/block.cc:224-251 | No two lists of entries make the same block |
| `BlockIter.OpensExactlyWhen` | iOS/StudyHours/Pods/leveldb-library/table/block.cc:18-46 | A finished block opens at the end of its entries, with all restart points right, if and only if its entries take less than 2^32 bytes |
| `BlockIter.FirstIsFound` | iOS/StudyHours/Pods/leveldb-library/table/block.cc:203-206 | A block whose entries take less than 2^32 bytes looks empty exactly when it is |
| `LargeBlocks.LargestValueIsLost` | iOS/StudyHours/Pods/leveldb-library/table/block.h:38 | A value of 2^32 - 1 bytes, which a write batch takes, is in its finished block, but the reader looks for the restart points in the wrong place and finds the block empty |
| `BlockIter.Iter.Seek` | iOS/StudyHours/Pods/leveldb-library/table/block.cc:163-201 | Binary search over the restart points and linear search from there end at the first key that is not below the target, for every order and interval |
| `BlockIter.Iter.Next` | iOS/StudyHours/Pods/leveldb-library/table/block.cc:137-140 | Goes from one entry to the next, or past the last one |
| `BlockIter.Iter.Prev` | iOS/StudyHours/Pods/leveldb-library/table/block.cc:142-161 | Goes from one entry to the one before, or becomes invalid at the first |
| `BlockIter.Iter.SeekToFirst` | iOS/StudyHours/Pods/leveldb-library/table/block.cc:203-206 | Goes to the first entry |
| `BlockIter.Iter.SeekToLast` | iOS/StudyHours/Pods/leveldb-library/table/block.cc:208-213 | Goes to the last entry |
| `BlockIter.Iter.ShowsEntry` | iOS/StudyHours/Pods/leveldb-library/table/block.cc:126-135 | Key and value are those of the entry the cursor is at |
| `Comparators.FindShortestSeparator` | iOS/StudyHours/Pods/leveldb-library/util/comparator.cc:29-50 | Cuts behind the first differing byte and raises it, where there is room |
| `Comparators.SeparatorSeparates` | iOS/StudyHours/Pods/leveldb-library/util/comparator.cc:29-50 | The result is not below the first key and below the second, and not longer |
| `TableForms.SeparatorIsShort` | iOS/StudyHours/Pods/leveldb-library/util/comparator.cc:29-50 | At the first difference the key is cut and its byte raised if and only if a byte lies in between |
| `Comparators.SuccessorIsNotBelow` | iOS/StudyHours/Pods/leveldb-library/util/comparator.cc:52-64 | The short successor is not below the key |
| `Comparators.InternalSeparatorSeparates` | iOS/StudyHours/Pods/leveldb-library/db/dbformat.cc:69-86 | The same for internal keys; and if the key was shortened, its user key lies strictly between |
| `TableForms.SeparatorOfPrefix` | iOS/StudyHours/Pods/leveldb-library/util/comparator.cc:29-50 | Where one key continues the other nothing is cut off |
| `TableForms.InternalSeparatorIsShort` | iOS/StudyHours/Pods/leveldb-library/db/dbformat.cc:69-86 | A user key that got shorter is followed by type 1 and the largest sequence number, and otherwise the key stays |
| `TableForms.TagIsSpelled` | iOS/StudyHours/Pods/leveldb-library/db/dbformat.cc:14-23 | An internal key is the user key, one byte of type, and seven of sequence number, lowest first |
| `Comparators.NothingIsMissed` | iOS/StudyHours/Pods/leveldb-library/table/table.cc:216-244 | A target between the last key of a block and its index key has a user key that no later block holds |
| `Bloom.BloomFilterPolicy.CreateFilter` | iOS/StudyHours/Pods/leveldb-library/util/bloom.cc:28-54 | Sets exactly the bits that double hashing gives for some key |
| `Bloom.BloomFilterPolicy.KeyMayMatch` | iOS/StudyHours/Pods/leveldb-library/util/bloom.cc:56-80 | Tests the bits of the key, and accepts reserved encodings |
| `Bloom.FilterAcceptsExactly` | iOS/StudyHours/Pods/leveldb-library/util/bloom.cc:28-80 | A filter accepts a key exactly when all its bits are bits of stored keys |
| `Bloom.StoredKeysMatch` | iOS/StudyHours/Pods/leveldb-library/util/bloom.cc:28-80 | So it never rejects a stored key |
| `TableForms.HashOfOneByte` | iOS/StudyHours/Pods/leveldb-library/util/hash.cc:22-54 | A known hash value of one byte |
| `TableForms.HashOfTwoBytes` | iOS/StudyHours/Pods/leveldb-library/util/hash.cc:22-54 | A known hash value of two bytes |
| `TableForms.HashOfThreeBytes` | iOS/StudyHours/Pods/leveldb-library/util/hash.cc:22-54 | A known hash value of three bytes |
| `TableForms.HashOfFourBytes` | iOS/StudyHours/Pods/leveldb-library/util/hash.cc:22-54 | A known hash value of a whole word |
| `TableForms.StepOfProbes` | iOS/StudyHours/Pods/leveldb-library/util/bloom.cc:44-51 | The step between probes is the hash value turned right by seventeen bits |
| `TableForms.BitsOfAByte` | iOS/StudyHours/Pods/leveldb-library/util/bloom.cc:47-49 | Bits of a byte are counted from the lowest |
| `TableForms.ProbesInHundredths` | iOS/StudyHours/Pods/leveldb-library/util/bloom.cc:18-24 | The number of probes is 69 hundredths of the bits for a key, between 1 and 30 |
| `TableForms.FilterIsLargeEnough` | iOS/StudyHours/Pods/leveldb-library/util/bloom.cc:29-37 | A filter has the least number of bytes for its bits, and at least eight |
| `FilterBlocks.FilterBlockBuilder.StartBlock` | iOS/StudyHours/Pods/leveldb-library/table/filter_block.cc:21-27 | Later keys go to the two kilobytes of the new block; keys added before stay where they were |
| `FilterBlocks.FilterBlockBuilder.Finish` | iOS/StudyHours/Pods/leveldb-library/table/filter_block.cc:35-75 | The bytes, however many, hold the filters of all groups and where each starts, cut to 32 bits |
| `FilterBlocks.OpensExactlyWhen` | iOS/StudyHours/Pods/leveldb-library/table/filter_block.cc:77-92 | A finished filter block opens with all offsets right if and only if its filters take less than 2^32 bytes |
| `TableForms.FilterOffsetsAreSpelled` | iOS/StudyHours/Pods/leveldb-library/table/filter_block.cc:35-49 | Behind the filters four bytes for the start of each and for the end of all, and a byte 11, the logarithm of the two kilobytes |
| `FilterBlocks.FilterBlockReader.KeyMayMatch` | iOS/StudyHours/Pods/leveldb-library/table/filter_block.cc:77-104 | Asks the filter of the two kilobytes; errors count as matches |
| `FilterBlocks.AddedKeysMatch` | iOS/StudyHours/Pods/leveldb-library/table/filter_block.cc:21-104 | A key is never rejected for the data block it was added with |
| `TableFormat.FooterIsReadBack` | iOS/StudyHours/Pods/leveldb-library/table/format.cc:31-62 | The footer gives back both handles |
| `TableForms.FooterIsSpelled` | iOS/StudyHours/Pods/leveldb-library/table/format.cc:31-41 | Forty-eight bytes: two spelled handles, zeros, and the eight bytes of the magic number |
| `TableForms.FooterIsRead` | iOS/StudyHours/Pods/leveldb-library/table/format.cc:43-62 | A footer is accepted if and only if it ends with the magic number and starts with two spelled handles, and gives these |
| `TableFormat.ReadBlock` | iOS/StudyHours/Pods/leveldb-library/table/format.cc:64-139 | Reads the extent, checks the masked checksum of contents and type if asked to, and reports each kind of failure |
| `TableFormat.WrittenIsRead` | iOS/StudyHours/Pods/leveldb-library/table/format.cc:64-139 | A written block is read back, with or without checking |
| `TableForms.BlockIsRead` | iOS/StudyHours/Pods/leveldb-library/table/format.cc:64-139 | Reading gives contents if and only if all of the block is there, its type is 0 and, if asked for, the masked checksum of contents and type is the stored one |
| `TableForms.TrailerIsSpelled` | iOS/StudyHours/Pods/leveldb-library/table/table_builder.cc:176-194 | Behind the contents a byte 0 and four bytes of masked checksum, lowest first |
| `TableBuilders.TableBuilder.Add` | iOS/StudyHours/Pods/leveldb-library/table/table_builder.cc:94-123 | One more entry: in the data block, in the filter, and in the index once the next key is known; if the data block then has the block size it is written, with its trailer of five bytes, and otherwise nothing is, and the open block is smaller |
| `TableBuilders.TableBuilder.Flush` | iOS/StudyHours/Pods/leveldb-library/table/table_builder.cc:125-139 | Writes the data block, every interval-th key whole and the others sharing all they can, and moves the filter on; does nothing without entries |
| `TableBuilders.TableBuilder.Finish` | iOS/StudyHours/Pods/leveldb-library/table/table_builder.cc:198-253 | The file is a table of exactly the entries added |
| `Tables.Open` | iOS/StudyHours/Pods/leveldb-library/table/table.cc:38-134 | A file without a footer or with an unreadable index block is refused; a table is opened with its index and, through the metaindex block, its filter |
| `Tables.Table.InternalGet` | iOS/StudyHours/Pods/leveldb-library/table/table.cc:216-244 | One index seek, one filter question and one block seek find the first entry of the whole table that is not below the target, or nothing when that entry has another user key |
| `Tables.IndexKeySeparates` | iOS/StudyHours/Pods/leveldb-library/table/table_builder.cc:102-109 | Every index key is not below the last key of its block and below the first key of the next |
| `Tables.RejectedIsAbsent` | iOS/StudyHours/Pods/leveldb-library/table/table.cc:223-229 | If the filter rejects the target, its block holds no entry of the user key |
| `Tables.AnswerIsNewest` | iOS/StudyHours/Pods/leveldb-library/db/dbformat.cc:51-67 | For a table of a sorted run of versions, the answer to a lookup key is the newest version that the reader may see, or shows that there is none |
| `Tables.RunIsOrdered` | iOS/StudyHours/Pods/leveldb-library/db/dbformat.cc:51-67 | The versions of a sorted run, under their internal keys, come in the order that a table builder asks for |
| `Iterators.TwoLevelIterator.Seek` | iOS/StudyHours/Pods/leveldb-library/table/two_level_iterator.cc:82-87 | Through the index and past empty blocks to the lower bound of all blocks |
| `Iterators.TwoLevelIterator.Next` | iOS/StudyHours/Pods/leveldb-library/table/two_level_iterator.cc:103-107 | To the next entry of all blocks, also across empty ones |
| `Iterators.TwoLevelIterator.Prev` | iOS/StudyHours/Pods/leveldb-library/table/two_level_iterator.cc:109-113 | To the entry before, also across empty blocks |
| `Iterators.MergingIterator.Seek` | iOS/StudyHours/Pods/leveldb-library/table/merger.cc:47-53 | To the lower bound of the merged children |
| `Iterators.MergingIterator.Next` | iOS/StudyHours/Pods/leveldb-library/table/merger.cc:55-79 | To the next entry of the merged children, after any history, also after going backward |
| `Iterators.MergingIterator.Prev` | iOS/StudyHours/Pods/leveldb-library/table/merger.cc:81-108 | To the entry before, after any history, also after going forward |
| `DbIter.DBIter.Next` | iOS/StudyHours/Pods/leveldb-library/db/db_iter.cc:141-198 | To the next key whose newest visible version is a value, past hidden versions, deletions and entries not yet visible, after any history |
| `DbIter.DBIter.Prev` | iOS/StudyHours/Pods/leveldb-library/db/db_iter.cc:200-267 | To the last such key before, after any history |
| `DbIter.DBIter.Seek` | iOS/StudyHours/Pods/leveldb-library/db/db_iter.cc:269-281 | To the first such key that is not below the target |
| `DbIter.DBIter.SeekToFirst` | iOS/StudyHours/Pods/leveldb-library/db/db_iter.cc:283-292 | To the first such key |
| `DbIter.DBIter.SeekToLast` | iOS/StudyHours/Pods/leveldb-library/db/db_iter.cc:294-299 | To the last such key |
| `StoreIterators.MakeInputIterator` | iOS/StudyHours/Pods/leveldb-library/db/version_set.cc:1237-1268 | The merged inputs of a compaction are exactly the entries of its input files, in order |
| `StoreIterators.NewInternalIterator` | iOS/StudyHours/Pods/leveldb-library/db/db_impl.cc:1062-1087 | The merged iterator is over exactly the entries that are stored anywhere |
| `StoreIterators.ShownIsHistory` | iOS/StudyHours/Pods/leveldb-library/db/db_iter.cc:141-299 | What a user-level iterator shows of a sound state is what the history says at its sequence number |
| `StoreIterators.ShownInOrder` | iOS/StudyHours/Pods/leveldb-library/db/db_iter.cc:141-198 | What is shown comes in ascending order, and no key twice |
| `SkipLists.SkipList.Find` | iOS/StudyHours/Pods/leveldb-library/db/skiplist.h:262-322 | FindGreaterOrEqual, FindLessThan and FindLast end at the node asked for, with the predecessors at every level |
| `SkipLists.SkipList.Insert` | iOS/StudyHours/Pods/leveldb-library/db/skiplist.h:337-368 | Afterwards the key is on exactly the levels up to its height, and no other key has moved |
| `SkipLists.SkipList.Contains` | iOS/StudyHours/Pods/leveldb-library/db/skiplist.h:371-378 | Says whether the key is in the list |
| `SkipListRaces.RunKeepsInv` | iOS/StudyHours/Pods/leveldb-library/db/skiplist.h:337-368 | With one writer linking level by level and readers at every pointer load, every level stays sorted and a subset of the one below |
| `SkipListRaces.SearchIsExact` | iOS/StudyHours/Pods/leveldb-library/db/skiplist.h:262-322 | A search that ends among the steps of a writer ends at the place that is right at its last load |
| `SkipListRaces.ReadsFindInsertedKeys` | iOS/StudyHours/Pods/leveldb-library/db/skiplist.h:262-322 | A read finds every key inserted before it began, also with a stale maximal height, and only inserted keys |
| `SkipListRaces.LoadIsProgress` | iOS/StudyHours/Pods/leveldb-library/db/skiplist.h:262-322 | Every pointer load of a reader is progress |
| `HandleTables.HandleTable.Lookup` | iOS/StudyHours/Pods/leveldb-library/util/cache.cc:74-76 | Finds what the table says of a key, in its bucket |
| `HandleTables.HandleTable.Insert` | iOS/StudyHours/Pods/leveldb-library/util/cache.cc:78-92 | Adds or replaces; the number of buckets changes exactly when there are more entries than buckets, and is then the least power of two from four on that is enough |
| `HandleTables.HandleTable.Remove` | iOS/StudyHours/Pods/leveldb-library/util/cache.cc:94-102 | Removes, and returns what was removed |
| `HandleTables.HandleTable.Resize` | iOS/StudyHours/Pods/leveldb-library/util/cache.cc:122-147 | Rehashing all chains loses, adds and duplicates no entry |
| `LruCache.LruCache.Insert` | iOS/StudyHours/Pods/leveldb-library/util/cache.cc:266-303 | Adds with one handle out, and evicts from the oldest end no more than needed; afterwards the usage is in bounds or nothing can be evicted, and the table finds all other keys as before, but for those evicted |
| `LruCache.LruCache.Lookup` | iOS/StudyHours/Pods/leveldb-library/util/cache.cc:252-259 | One more handle to the entry of the key |
| `LruCache.LruCache.Release` | iOS/StudyHours/Pods/leveldb-library/util/cache.cc:261-264 | One handle less; the deleter runs exactly when that was the last reference |
| `LruCache.LruCache.Erase` | iOS/StudyHours/Pods/leveldb-library/util/cache.cc:318-321 | Out of the table at once; deleted when no handle is out |
| `LruCache.LruCache.Prune` | iOS/StudyHours/Pods/leveldb-library/util/cache.cc:323-333 | Deletes exactly the entries that nobody holds |
| `GroupCommit.BuildBatchGroup` | iOS/StudyHours/Pods/leveldb-library/db/db_impl.cc:1260-1306 | The operations of the group in queue order; a group led by at most 131072 bytes grows by at most 131072, any other with a batch behind the front has at most 1048576 bytes, no sync writer joins a leader without sync; and a group that ends before the queue does would break one of these bounds, or the sync rule, with the next writer, or that one has no batch |
| `GroupCommit.GroupIsRightSize` | iOS/StudyHours/Pods/leveldb-library/db/db_impl.cc:1269-1303 | These bounds, from the bytes of the writers alone |
| `GroupCommit.CommitsAreExact` | iOS/StudyHours/Pods/leveldb-library/db/db_impl.cc:1185-1258 | Log and memtable have got exactly the groups written so far, in order, each at its own sequence number |
| `GroupCommit.GroupsAreDisjoint` | iOS/StudyHours/Pods/leveldb-library/db/db_impl.cc:1202-1248 | Groups share no writer and no sequence number, and both ascend |
| `GroupCommit.EveryWriterIsReleasedOnce` | iOS/StudyHours/Pods/leveldb-library/db/db_impl.cc:1239-1248 | A writer that is through was in exactly one group |
| `GroupCommit.BatchesStayTogether` | iOS/StudyHours/Pods/leveldb-library/db/db_impl.cc:1276-1303 | The operations of one writer get consecutive sequence numbers |
| `GroupCommit.NobodySeesPartOfAGroup` | iOS/StudyHours/Pods/leveldb-library/db/db_impl.cc:1202-1237 | The last sequence number never lies inside a group |
| `WriterQueue.EveryStateIsOk` | iOS/StudyHours/Pods/leveldb-library/db/db_impl.cc:1185-1258 | With every writer a thread that waits on its own condition variable and a leader that pops one writer at a time, the commits keep their invariant, only the front leads, and nobody is told before it is popped |
| `WriterQueue.EveryCallIsAnswered` | iOS/StudyHours/Pods/leveldb-library/db/db_impl.cc:1193-1198 | A call that returns has the status of the one group it was in |
| `WriterQueue.NobodySleepsOn` | iOS/StudyHours/Pods/leveldb-library/db/db_impl.cc:1193-1195 | No wake-up is lost: a blocked writer has not been told and, unless the front is popping its group, is not at the front |
| `WriterQueue.TheQueueDrains` | iOS/StudyHours/Pods/leveldb-library/db/db_impl.cc:1239-1255 | Unless others arrive, the writers can only make a bounded number of moves |
| `WriterQueue.SomebodyCanMove` | iOS/StudyHours/Pods/leveldb-library/db/db_impl.cc:1185-1258 | As long as a call has not returned, some thread can move; so all return |
| `NanopbVarint.VarintReadsBack` | iOS/StudyHours/Pods/nanopb/pb_decode.c:250-271 | Every 64-bit varint is read back, whatever follows |
| `NanopbVarint.Varint32ReadsBack` | iOS/StudyHours/Pods/nanopb/pb_decode.c:182-248 | Every 32-bit varint is read back, whatever follows |
| `NanopbVarint.ZigZagIsUndone` | iOS/StudyHours/Pods/nanopb/pb_encode.c:596-605 | Zigzag coding is undone for all 64-bit values |
| `NanopbEncode.OStream.Encode` | iOS/StudyHours/Pods/nanopb/pb_encode.c:494-516 | Writing and sizing streams: the bytes, or only their number, of the message, or a failure when there is no room or a field cannot be encoded |
| `NanopbWire.EncodingIsReadable` | iOS/StudyHours/Pods/nanopb/pb_encode.c:641-657 | For a reader without the descriptor the bytes are records, each a key and a payload as the wire type says (0 a varint, 1 eight bytes, 2 a length and that many, 5 four bytes), of the fields that are sent, in the order of the descriptor, each payload meaning its value |
| `NanopbWire.SplitsOneWay` | iOS/StudyHours/Pods/nanopb/pb.h:313-318 | Bytes can be split into such records in one way only |
| `NanopbWire.RefusedExactlyWhen` | iOS/StudyHours/Pods/nanopb/pb_encode.c:126-211 | A message cannot be encoded if and only if something that would be sent has outgrown its field |
| `NanopbEncode.OStream.EncodeSubmessage` | iOS/StudyHours/Pods/nanopb/pb_encode.c:682-730 | The size of the first pass is that of the second, so the size check at the end never fails |
| `NanopbEncode.OStream.EncodeArray` | iOS/StudyHours/Pods/nanopb/pb_encode.c:126-211 | Packed and unpacked arrays, the packed size by a sizing pass or by multiplication |
| `NanopbEncode.GetEncodedSize` | iOS/StudyHours/Pods/nanopb/pb_encode.c:533-543 | The sizing pass gives exactly the number of bytes that the writing pass emits |
| `NanopbStream.IStream.DecodeNoInit` | iOS/StudyHours/Pods/nanopb/pb_decode.c:901-1049 | Tag by tag, in any order, with unknown fields skipped and required fields checked: what decoding the bytes means |
| `NanopbLaws.UnknownFieldChangesNothing` | iOS/StudyHours/Pods/nanopb/pb_decode.c:935-962 | A record of any wire type whose tag is not in the descriptor, put anywhere between records, leaves the decoded message as it was |
| `NanopbLaws.UnknownFieldInEncoding` | iOS/StudyHours/Pods/nanopb/pb_decode.c:935-962 | And so between any two fields of an encoded message |
| `NanopbLaws.FourBytesAreSkipped` | iOS/StudyHours/Pods/nanopb/pb_decode.c:316-326 | An unknown field of wire type 5 takes four bytes, by an example |
| `NanopbLaws.SpellingIsRead` | iOS/StudyHours/Pods/nanopb/pb_decode.c:182-282 | A varint of up to ten groups is read as its number, whatever zeros it ends with, and skipped |
| `NanopbLaws.AcceptedExactlyWhen` | iOS/StudyHours/Pods/nanopb/pb_decode.c:1006-1046 | Bytes that can be read to the end are accepted if and only if every required field, up to the sixty-fourth, is among them |
| `NanopbLaws.LastOccurrenceWins` | iOS/StudyHours/Pods/nanopb/pb_decode.c:382-470 | Of several occurrences of a scalar field the last gives the value |
| `NanopbLaws.UnreadStays` | iOS/StudyHours/Pods/nanopb/pb_decode.c:901-1049 | A field whose tag does not occur stays as it was |
| `NanopbLaws.ZeroEndsMessage` | iOS/StudyHours/Pods/nanopb/pb_decode.c:292-314 | A zero key ends a message, whatever follows |
| `NanopbLaws.RangeIsChecked` | iOS/StudyHours/Pods/nanopb/pb_decode.c:1289-1372 | A number is accepted if and only if the field can hold it |
| `NanopbLaws.BytesAreBounded` | iOS/StudyHours/Pods/nanopb/pb_decode.c:1392-1426 | Bytes are accepted if and only if the field has room for them |
| `NanopbLaws.StringsLeaveRoom` | iOS/StudyHours/Pods/nanopb/pb_decode.c:1428-1461 | A string is accepted if and only if it leaves room for its terminator, and then read up to its first zero |
| `NanopbLaws.FixedLengthIsChecked` | iOS/StudyHours/Pods/nanopb/pb_decode.c:1487-1508 | Bytes of a fixed length are accepted if and only if they have it, or are none, which stands for zeros |
| `NanopbLaws.ManyGroupsFail` | iOS/StudyHours/Pods/nanopb/pb_decode.c:250-271 | More than ten groups are no number |
| `NanopbLaws.HighBitsFail` | iOS/StudyHours/Pods/nanopb/pb_decode.c:211-225 | A length or key with a bit from the thirty-sixth on fails, unless its low 32 bits are those of a negative number |
| `NanopbLaws.FullArrayFails` | iOS/StudyHours/Pods/nanopb/pb_decode.c:424-455 | One element more than a repeated field can hold fails |
| `NanopbStream.IStream.Skip` | iOS/StudyHours/Pods/nanopb/pb_decode.c:316-326 | Skips one field of each wire type, or fails |
| `NanopbStream.IStream.MakeSubstream` | iOS/StudyHours/Pods/nanopb/pb_decode.c:367-380 | A substream of exactly the announced bytes |
| `NanopbStream.FieldIter.Find` | iOS/StudyHours/Pods/nanopb/pb_common.c:78-95 | The cyclic search from the last field on finds the field of the tag, or comes back to where it was |
| `NanopbStream.FieldIter.CheckRequired` | iOS/StudyHours/Pods/nanopb/pb_decode.c:1006-1046 | True exactly when all required fields up to the limit of the bitmap have been seen |
| `NanopbStream.DecodeMessage` | iOS/StudyHours/Pods/nanopb/pb_decode.c:1051-1063 | Defaults first, then the stream: the meaning of the bytes as a function |
| `NanopbRoundTrip.MessageReads` | iOS/StudyHours/Pods/nanopb/pb_decode.c:901-1049 | For every well-formed descriptor tree and every message that can be encoded: decoding the encoding gives the message back, up to the contents of absent fields, if and only if every string that was sent leaves room for its terminator; otherwise it fails |
| `NanopbRoundTrip.StringReadsExactlyWhen` | iOS/StudyHours/Pods/nanopb/pb_decode.c:1428-1461 | The same for one string: it is read back if and only if it leaves room for the terminator |

## Left out

- StoreRuns.EveryReaderIsAnsweredFromHistory: only as long as no compaction has lost a deletion, because the code is wrong afterwards; `StoreRuns.FaithfulExactlyWhen` says it of all behaviours.
- StoreRuns.SnapshotsReadTheSameForever: the same restriction.
- StoreRuns.RightExactlyWhen: a manual compaction whose output reaches over a file of its level is not finished, since the check of the new version fails there (`db/version_set.cc:723-735` and line 748); what a build without that check goes on to do is not modelled.
- DbImpl.DbImpl.Write: one caller at a time; how several callers become one write is in `GroupCommit` and `WriterQueue`. The last sequence number must stay below 2^56.
- DbImpl.DbImpl.CompactMemTable: tables are always written successfully.
- DbImpl.DbImpl.Open: the blocks, logs before the newest one and the manifest up to its last record are intact; `reuse_logs` is off; paranoid checks and file names are not modelled. File contents are attached to the manifest by number.
- DbImpl.DbImpl.Get: reads the sorted runs of files; the way through the bytes of a table is in `Tables`, and `Tables.AnswerIsNewest` connects the two.
- DiskImage.ReadManifest: only the last record of the manifest may be torn, and only before it is installed; `CURRENT` always names the right manifest.
- Manifest.StepKeepsCounter: output files take their numbers from the counter when they are opened, and a flush takes the next one; the number of a file whose writing has failed is not used again.
- Tables.Open: a file with a footer and a readable index block is taken for a whole table; of corrupt blocks there is only what `TableFormat.ReadBlock` says.
- Tables.Table.InternalGet: the block cache and the cleanup of iterators.
- TableBuilders.TableBuilder.Add: failing file writes and Snappy compression; a changed set of options in the middle of a table.
- Bloom.BloomFilterPolicy.CreateFilter: sizes do not overflow `size_t`; the factor 0.69 is a real number, which gives the same count for every count below thirty.
- HandleTables.HandleTable.Resize: chains are sequences instead of linked nodes, and the bucket is the hash modulo the length, which is a power of two, instead of a mask.
- LruCache.LruCache.Insert: sharding, the destructor of the cache, and values; the two lists are sequences instead of linked nodes.
- SkipLists.SkipList.Insert: nodes are their keys and a map holds the pointers; the random height is a parameter.
- SkipListRaces.ReadsFindInsertedKeys: every load and store is atomic and seen at once by all threads; weak memory orders are not modelled.
- GroupCommit.CommitsAreExact: what happens while the leader waits for room, and that after a failed sync all later writes fail.
- WriterQueue.TheQueueDrains: a thread that could move does so eventually.
- Iterators.MergingIterator.Next: children do not fail; no children and one child have no special case.
- LogReplay.RecoverLogFile: a memtable without entries takes no file number, where the code skips one; how much memory a memtable uses is any function of its entries.
- LogFile.Reader.ReadRecord: reports of dropped bytes, initial offsets, and logs with foreign bytes in the middle.
- Compaction.DoCompactionWork: how long a table file has become is any function of its entries; the inputs have no errors, and the store is not shut down meanwhile.
- Picking.ChooseSeed: which file has cost too many seeks is a parameter, and so are the compact pointers that `DbImpl.Open` finds in the manifest; scores are real numbers.
- DbImpl.DbImpl.CompactRange: one step of a manual compaction; going on behind the files that one step took is left to the caller.
- WriteBatch.Iterate: reports of corruption say only that there is one.
- NanopbVarint.Varint32ReadsBack: `uint_fast8_t` is taken to have eight bits.
- NanopbEncode.OStream.Encode: callbacks, extensions, pointer fields, fixed-count arrays and fixed-length bytes; proto3 defaults of submessages; streams with callbacks.
- NanopbStream.IStream.DecodeNoInit: the same kinds of fields, and field sizes other than 32 and 64 bits.
- User keys of the store are integers: nothing is used of the user comparator but that it is a total order. In files they are bytes through an arbitrary naming.
- Corrupt internal keys, seek statistics, approximate sizes, properties, `Repair`, the environment, and the app's own screens.
- Deleting files in the middle of an error, background errors and retries of a failed compaction (it may only be given up).
