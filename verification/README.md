# A verified model of the storage engine and its formats

The Convey app vendors, for its Firebase libraries, a key-value store under
`convey/Pods/leveldb-library` and a protocol buffer codec under `convey/Pods/nanopb`. This
project models both and proves what they promise their callers: reads see exactly the
acknowledged writes, a snapshot never changes, iterators list the visible map in order,
compactions do not change what a reader can tell apart, a crash loses nothing that reached
the disk, the formats on disk are read back as they were written, and a decoded message is
the one that was encoded. Four of these promises fail for some inputs, and the project proves
exactly for which: logs that lose their ends with the power can leave a gap
(`PowerLoss.PrefixExactlyWhen`), a compaction can bring a deleted value back
(`Compaction.CompactionPreservesReads`), an edit decoded into one that keeps compaction pointers
is not restored (`EditCodec.DecodeRestores`), and a message with a text that fills its storage is
encoded but refused by the decoder (`ProtoDecode.EncodeAndDecode`, `ProtoDecode.FullTextIsLost`).

Check everything with `dafny verify dfyconfig.toml`.

## How it is built

* **Specification.** `Keys`, `History`, `Layers`: internal keys and their order, what a
  set of entries means to a reader, replaying a history, and the invariant that sequence
  numbers fall from layer to layer.
* **The engine as a state machine.** `Engine` has one action for every step that
  changes memory or disk, crashes included. The descriptor is a sequence of edit records
  over file numbers and key ranges (`VersionEdits`, `Descriptor`); table contents are
  files. `EngineInvariant` and `Recovery` prove that every action keeps the
  invariant; `EngineTheorems` draws the conclusions over all runs. `PowerLoss` cuts the newest
  log off at any byte and proves that recovery then reads a prefix of the history.
* **The engine as an object.** `Database.Db` performs those actions: its methods are
  proved to take the machine's steps, and `Get` and `NewIterator` to answer from a
  replay of the history. It rests on the methods that choose files (`VersionSet`), search
  them (`PointLookup`), merge and iterate (`Merging`, `DbIter`, `MergeInputs`,
  `UserIterator`), compact (`Compaction`, `CompactionWork`), build versions
  (`VersionBuilder`, `DescriptorReplay`) and replay logs (`LogRecovery`, `MemTables`).
  `CompactionTurns` shows that the compaction pointer takes every file in turn.
* **A flaw and its exact condition.** The rule that closes compaction inputs at user-key
  boundaries is applied to the upper inputs only. `Compaction.CompactionPreservesReads`
  says exactly when a compaction changes a read, `EngineTheorems.FaithfulExactlyWhen` what
  that means for the engine's readers; `Resurrection` gives a run of the engine
  after which the code picks inputs for which a deleted value comes back;
  `Compaction.ClosedAtParent` is a condition on the inputs that rules it out.
* **Concurrency.** `ConcurrentReads` interleaves an inserting writer with searching
  readers at the granularity of single link loads and stores (`SkipList`,
  `SkipListIndex`); `GroupCommit` models writers that queue up and share a log record.
* **Formats.** Bytes of logs (`LogFormat`, `LogReader`, `WriteBatches`, `DurableLogs`),
  descriptors (`EditCodec`, `DescriptorLog`), blocks, filters and tables (`BlockFormat`,
  `BlockIterator`, `Bloom`, `FilterBlock`, `TableLayout`, `TableFormat`, `TableBuilding`,
  `TableReading`, `TwoLevel`), with `Coding`, `Crc32c` and `Bytewise` below them, and the block
  cache (`HandleTable`, `LruCache`). `TableCaches` takes a read of the engine down to the bytes
  of its table files.
* **Known values.** Round trips hold of any pair of mirrored codecs, so `KnownBytes`,
  `KnownMessages` and `KnownFilters` prove the bytes of small examples, and `ErrorDetection` the
  published checksums and that bursts of at most 32 damaged bits are noticed.
* **Messages.** `ProtoFormat` says what a table of fields makes of a message;
  `ProtoEncode` and `ProtoDecode` are the codec, with streams that count or write.

User keys in the engine are real numbers: any countable order embeds in them, and
`Bytewise.RankPreservesOrder` gives the embedding for the default comparator. Sequence
numbers are bounded by 56 bits where the code bounds them; other counters are unbounded
unless a width is written out.

Where code and comments disagree the code is followed: `VersionEdit::Clear` keeps the
compaction pointers, so decoding restores an edit only into one that has none. A text field that
fills its storage is encoded without complaint and refused by the decoder.

## Model

| member | source | states |
|---|---|---|
| `EngineTheorems.EveryReaderSeesItsHistory` | convey/Pods/leveldb-library/db/db_impl.cc:1185-1256 | After any run from creation (writes, memtable switches, flushes, moves, compactions, snapshots, file collection, crashes with recovery) the set of all stored entries, read at the latest sequence number or at a live snapshot, equals a replay of the acknowledged operations. It speaks of the set of entries, not of the layered search (that is `Database.Db.Get`), and every compaction of the run must resurrect nothing, as those with `ClosedAtParent` inputs do |
| `EngineTheorems.SnapshotIsStable` | convey/Pods/leveldb-library/db/snapshot.h:39-91 | What a live snapshot reads (as a set of entries) is the same after any run in which it stays live |
| `EngineTheorems.CrashLosesNothing` | convey/Pods/leveldb-library/db/db_impl.cc:280-489 | A crash and recovery, wherever in a run, keeps every entry and the last sequence number |
| `EngineTheorems.DescriptorRebuildsTheVersion` | convey/Pods/leveldb-library/db/version_set.cc:886-1011 | In every reachable state, replaying the descriptor's records through one builder, saving once and reading the named files back from disk gives exactly the live version |
| `EngineTheorems.LiveTablesAreOnDisk` | convey/Pods/leveldb-library/db/db_impl.cc:223-278 | In every reachable state each table of the version is on disk with its contents, whatever was collected before |
| `EngineTheorems.FirstLayerWins` | convey/Pods/leveldb-library/db/db_impl.cc:1119-1134 | In a layered store the first layer that has a visible version of a key has the newest one overall |
| `EngineTheorems.ActionKeepsInv` | convey/Pods/leveldb-library/db/db_impl.cc:491-566 | Every action keeps the engine's invariant: layers, snapshots, faithful reads, and a disk that describes the state |
| `EngineInvariant.CollectKeepsInv` | convey/Pods/leveldb-library/db/db_impl.cc:223-278 | Deleting obsolete files keeps the invariant, so it removes no live table and no log that recovery would replay |
| `Recovery.ReplayIsLive` | convey/Pods/leveldb-library/db/version_set.cc:801-884 | Because every installed edit was appended to the descriptor, its replay is the live version |
| `Recovery.ReopenKeepsStore` | convey/Pods/leveldb-library/db/db_impl.cc:280-369 | Recovery rebuilds a well-formed layered store with the same entries: descriptor version plus level-0 tables made of the replayed logs |
| `Recovery.NewDescriptor` | convey/Pods/leveldb-library/db/version_set.cc:1088-1116 | A snapshot record and one edit, the start of a new descriptor, describe the recovered version |
| `Descriptor.ReplayIsDescribed` | convey/Pods/leveldb-library/db/version_set.cc:907-1011 | Accumulating all records in one builder and saving once equals applying them one after another, for any descriptor in which a number names one file |
| `Descriptor.NumbersNeverReadd` | convey/Pods/leveldb-library/db/version_set.cc:741-754 | If a file number names one file, no record re-adds a number with another file, the condition under which replay is right |
| `Descriptor.DescribesAfterEdit` | convey/Pods/leveldb-library/db/version_set.cc:801-884 | Appending the record of an edit makes the descriptor describe the edited version, and keeps numbers unique |
| `Descriptor.DescribesAfterFileChange` | convey/Pods/leveldb-library/db/db_impl.cc:223-278 | What a descriptor describes depends only on the contents of live files |
| `Descriptor.SnapshotDescribes` | convey/Pods/leveldb-library/db/version_set.cc:1088-1116 | A record listing every file of a version describes that version |
| `DescriptorReplay.ReplayDescriptor` | convey/Pods/leveldb-library/db/version_set.cc:907-1011 | The recovery loop: one builder for all records, one save, the last value of each counter; an error exactly when a counter was never given; the version is the replayed one |
| `DescriptorLog.DecodeDescriptor` | convey/Pods/leveldb-library/db/version_set.cc:907-960 | From a descriptor file cut off at any byte it reads exactly the edits wholly inside it |
| `DescriptorLog.RecoverVersion` | convey/Pods/leveldb-library/db/version_set.cc:886-1011 | From the descriptor's bytes and the table files it rebuilds the version the edits describe |
| `VersionEdits.AccumulateAgrees` | convey/Pods/leveldb-library/db/version_set.cc:650-692 | Accumulating an edit behind pending ones agrees with saving first if and only if the edit re-adds no number deleted before |
| `VersionEdits.ReplayAgreesWithLiveVersion` | convey/Pods/leveldb-library/db/version_set.cc:650-739 | Replay of any edit sequence through one builder equals the edits applied one by one, when no edit re-adds |
| `VersionEdits.EditedByCompaction` | convey/Pods/leveldb-library/db/version_set.cc:801-884 | Applying a compaction's edit replaces exactly its inputs by its outputs |
| `VersionBuilder.Builder.Apply` | convey/Pods/leveldb-library/db/version_set.cc:650-692 | The builder's pending deletions and additions become those of the edit accumulated on top, at every level |
| `VersionBuilder.SaveLevel` | convey/Pods/leveldb-library/db/version_set.cc:695-739 | Merging base and added files of a level: ascending, and exactly the files not deleted |
| `Compaction.CompactionPreservesReads` | convey/Pods/leveldb-library/db/db_impl.cc:890-999 | A compaction that drops by the two rules preserves every read at or above the smallest snapshot if and only if it resurrects nothing |
| `Compaction.ClosedAtParentResurrectsNothing` | convey/Pods/leveldb-library/db/version_set.cc:1378-1401 | If no table left out below starts with a user key that ends a lower input, the compaction resurrects nothing |
| `Compaction.ResurrectionShows` | convey/Pods/leveldb-library/db/db_impl.cc:946-960 | A resurrecting compaction turns a deleted key into the value left below |
| `Compaction.CompactionKeepsLayers` | convey/Pods/leveldb-library/db/db_impl.cc:860-876 | Replacing inputs by outputs keeps sorted levels apart and sequence numbers falling from layer to layer |
| `Resurrection.RunIsLegal` | convey/Pods/leveldb-library/db/version_set.cc:1403-1462 | A run of the engine in thirteen actions, with a compaction that merges two levels, that ends with a key deleted, its tombstone last in one level-3 table and its value first in the next |
| `Resurrection.DeletedValueReturns` | convey/Pods/leveldb-library/db/version_set.cc:1403-1462 | After that run the replay says the key is deleted, and any outputs of the compaction of level 2 make a read return the deleted value: the precondition of `Database.Db.CompactFiles` is needed |
| `Resurrection.PickCulprit` | convey/Pods/leveldb-library/db/version_set.cc:1403-1462 | `SetupOtherInputs` picks exactly the inputs of that compaction |
| `CompactionWork.ShouldDrop` | convey/Pods/leveldb-library/db/db_impl.cc:930-963 | An entry is dropped exactly when the rules do not keep it |
| `CompactionWork.DoCompactionWork` | convey/Pods/leveldb-library/db/db_impl.cc:890-999 | The merge loop writes exactly the entries kept, in order, under consecutive numbers, and ends each table where there is reason to and nowhere earlier or later |
| `CompactionWork.WorkIsOutputs` | convey/Pods/leveldb-library/db/db_impl.cc:890-999 | What the loop wrote is a set of disjoint valid tables that hold exactly what the rules keep |
| `CompactionWork.BaseLevelScan.IsBaseLevelForKey` | convey/Pods/leveldb-library/db/version_set.cc:1533-1552 | The forward-only scan answers whether no deeper table covers the key, for ascending queries |
| `Database.Db.constructor` | convey/Pods/leveldb-library/db/db_impl.cc:182-212 | A new database object is in the initial state of the machine and satisfies its invariant |
| `Database.Db.Get` | convey/Pods/leveldb-library/db/db_impl.cc:1100-1145 | Searching memtable, immutable memtable, then the version returns what a replay of the history shows, latest or at a snapshot |
| `Database.Db.NewIterator` | convey/Pods/leveldb-library/db/db_impl.cc:1147-1156 | The iterator over memtables, level-0 files and sorted levels has as rows exactly the keys a replay shows, ascending, with their values |
| `Database.Db.Write` | convey/Pods/leveldb-library/db/db_impl.cc:1185-1256 | Logging, inserting and publishing a batch is the machine's write |
| `Database.Db.SwitchMemtable` | convey/Pods/leveldb-library/db/db_impl.cc:1310-1370 | Starting a new memtable and log is the machine's switch |
| `Database.Db.GetSnapshot` | convey/Pods/leveldb-library/db/db_impl.cc:1166-1169 | A snapshot pins the last sequence number and joins those held |
| `Database.Db.ReleaseSnapshot` | convey/Pods/leveldb-library/db/snapshot.h:79-86 | The snapshots held before are those still held and the one released |
| `Database.Db.CompactMemTable` | convey/Pods/leveldb-library/db/db_impl.cc:491-566 | Writes the immutable memtable to the deepest level its range allows and logs the edit; nothing is written for an empty one |
| `Database.Db.MoveFile` | convey/Pods/leveldb-library/db/db_impl.cc:718-728 | A trivial move relinks one file one level down and keeps every read, with no condition on tombstones |
| `Database.Db.CompactFiles` | convey/Pods/leveldb-library/db/db_impl.cc:734-743 | Merging, writing outputs, logging the edit and installing the version is the machine's compaction; its last precondition is what the selection does not establish |
| `Database.Db.BackgroundCompaction` | convey/Pods/leveldb-library/db/db_impl.cc:688-767 | Moves exactly when it is not manual, has one upper input, no lower one and few enough grandparent bytes, and rewrites otherwise; only a rewrite asks for the tombstone condition |
| `Database.Db.DeleteObsoleteFiles` | convey/Pods/leveldb-library/db/db_impl.cc:223-278 | Of the logs exactly those not older than the descriptor's stay, of the tables exactly the live and the pinned ones; every file of the version is still on disk with its contents |
| `Database.Db.Recover` | convey/Pods/leveldb-library/db/db_impl.cc:280-369 | Rebuilds the object from the disk alone: descriptor through one builder, logs in order into level-0 tables, a new log and a new descriptor; the result is the machine's reopening |
| `Database.SortedLogs` | convey/Pods/leveldb-library/db/db_impl.cc:323-351 | The logs to replay are those not older than the descriptor's, in ascending order |
| `LogRecovery.RecoverLogFile` | convey/Pods/leveldb-library/db/db_impl.cc:371-489 | Replaying a log cuts it into tables in order and tracks the largest sequence number |
| `PointLookup.VersionGet` | convey/Pods/leveldb-library/db/version_set.cc:326-421 | When no memtable has a visible version, the search of a version returns the newest visible entry of the whole store |
| `PointLookup.Level0Get` | convey/Pods/leveldb-library/db/version_set.cc:348-363 | At level 0 the file with the largest number that has a visible version answers |
| `PointLookup.LevelGet` | convey/Pods/leveldb-library/db/version_set.cc:365-382 | In a sorted level one binary search and one file give the newest visible entry of the level |
| `VersionSet.FindFile` | convey/Pods/leveldb-library/db/version_set.cc:88-106 | Binary search for the first file whose largest key is not before the target |
| `VersionSet.SomeFileOverlapsRange` | convey/Pods/leveldb-library/db/version_set.cc:122-157 | True exactly when some file overlaps the range, for sorted and unsorted levels, open or closed ends |
| `VersionSet.GetOverlappingInputs` | convey/Pods/leveldb-library/db/version_set.cc:518-559 | At sorted levels exactly the files in range; at level 0 the least closed range around the request |
| `VersionSet.PickLevelForMemTableOutput` | convey/Pods/leveldb-library/db/version_set.cc:491-516 | The deepest level allowed: every level above it may be passed, and at the result something is in the way |
| `VersionSet.AddBoundaryInputs` | convey/Pods/leveldb-library/db/version_set.cc:1378-1401 | Extends a run of files by those that go on with the user key at its end, and by no others |
| `VersionSet.SetupOtherInputs` | convey/Pods/leveldb-library/db/version_set.cc:1403-1462 | Upper inputs are the chosen ones with their boundary files, widened exactly when that costs no more lower inputs and stays under the size limit; lower inputs and grandparents are exactly what their ranges touch; newer entries of shared keys stay above |
| `VersionSet.PickCompaction` | convey/Pods/leveldb-library/db/version_set.cc:1270-1322 | A compaction starts from the file seeked too often, or else from the first past the pointer, wrapping around; its inputs are valid and are what that file leads to, and the pointer moves to their largest key |
| `VersionSet.CompactRange` | convey/Pods/leveldb-library/db/version_set.cc:1464-1495 | A manual compaction starts from the files in range, at a sorted level as many as it takes to reach the size limit; its inputs are valid, and none exactly when nothing is in range |
| `MergeInputs.MakeInputIterator` | convey/Pods/leveldb-library/db/version_set.cc:1237-1268 | The input iterator of a compaction merges exactly the entries of its inputs |
| `UserIterator.NewInternalIterator` | convey/Pods/leveldb-library/db/db_impl.cc:1062-1087 | The internal iterator merges exactly all entries of the store |
| `UserIterator.AddIterators` | convey/Pods/leveldb-library/db/version_set.cc:230-246 | One run per level-0 file and one per non-empty sorted level, each in one place of the store, together covering the version |
| `UserIterator.RowsShowReads` | convey/Pods/leveldb-library/db/db_iter.cc:168-198 | If reads of the merged entries are a replay, the iterator's rows are that map: ascending, complete, with its values |
| `Merging.MergingIterator.Next` | convey/Pods/leveldb-library/table/merger.cc:55-79 | Moves to the next merged entry, from either direction |
| `Merging.MergingIterator.Prev` | convey/Pods/leveldb-library/table/merger.cc:81-108 | Moves to the previous merged entry, from either direction |
| `Merging.MergingIterator.Seek` | convey/Pods/leveldb-library/table/merger.cc:47-53 | Moves to the first merged entry at or after the target |
| `DbIter.RowsAreTheVisibleMap` | convey/Pods/leveldb-library/db/db_iter.cc:141-198 | Rows are exactly what reads at the iterator's sequence number show: one per present key, ascending, with its value |
| `DbIter.DbIterator.Next` | convey/Pods/leveldb-library/db/db_iter.cc:141-166 | Advances by one row, also when the iterator was moving backwards |
| `DbIter.DbIterator.Prev` | convey/Pods/leveldb-library/db/db_iter.cc:200-267 | Goes back by one row, also when the iterator was moving forwards |
| `DbIter.DbIterator.Seek` | convey/Pods/leveldb-library/db/db_iter.cc:269-281 | Lands on the first row at or after the target |
| `Keys.LookupIsNewest` | convey/Pods/leveldb-library/db/memtable.cc:100-134 | One seek in a memtable and a comparison of user keys give the newest visible entry |
| `MemTables.InsertInto` | convey/Pods/leveldb-library/db/write_batch.cc:132-137 | Inserting a batch adds one entry per operation under consecutive numbers and keeps the order |
| `GroupCommit.GroupCommitIsSerial` | convey/Pods/leveldb-library/db/db_impl.cc:1185-1256 | With any number of waiting writers: the log and the visible memtable hold the batches of served writers in order of arrival, nobody is lost, and a writer that asked for a sync is served only after one covered it |
| `GroupCommit.BuildBatchGroup` | convey/Pods/leveldb-library/db/db_impl.cc:1260-1306 | The group is a prefix of the queue that may share a write and fits the size limit, and it cannot be longer |
| `GroupCommit.OneWriteForTheGroup` | convey/Pods/leveldb-library/db/db_impl.cc:1202-1238 | Writing a group in one record has the same effect as writing its parts one after another, but for how the log is cut |
| `DurableLogs.LogBatch` | convey/Pods/leveldb-library/db/db_impl.cc:1205-1222 | Numbers a batch and appends it to the log's bytes |
| `DurableLogs.DecodeLog` | convey/Pods/leveldb-library/db/db_impl.cc:414-446 | From a log cut off at any byte it reads exactly the batches wholly inside, and sees no corruption |
| `DurableLogs.TruncatedLogHoldsPrefix` | convey/Pods/leveldb-library/db/db_impl.cc:371-489 | A log cut off anywhere holds a prefix of the acknowledged operations, ending between batches, and at least those whose bytes were synced |
| `DurableLogs.RecoverMemtable` | convey/Pods/leveldb-library/db/db_impl.cc:414-446 | The memtable rebuilt from a cut-off log holds exactly the entries of that prefix |
| `LogFormat.Writer.AddRecord` | convey/Pods/leveldb-library/db/log_writer.cc:34-108 | Appends the record as fragments that never cross a block, with trailers, types and masked checksums |
| `LogFormat.WrittenAppend` | convey/Pods/leveldb-library/db/log_writer.cc:34-80 | Logging two sequences of records one after the other is logging them together |
| `LogReader.ReadLog` | convey/Pods/leveldb-library/db/log_reader.cc:56-174 | From a log cut off anywhere it returns exactly the records wholly inside, and reports nothing lost |
| `LogReader.WhollyInsideIs` | convey/Pods/leveldb-library/db/log_reader.cc:189-271 | That is the largest number of leading records whose bytes all fit |
| `WriteBatches.OpsRoundTrip` | convey/Pods/leveldb-library/db/write_batch.cc:42-80 | Parsing encoded operations gives them back |
| `WriteBatches.WriteBatch.Iterate` | convey/Pods/leveldb-library/db/write_batch.cc:42-80 | Hands out the operations; an error exactly when the string is too short, malformed or has the wrong count |
| `WriteBatches.WriteBatch.Append` | convey/Pods/leveldb-library/db/write_batch.cc:144-148 | Operations of another batch follow those already there |
| `WriteBatches.InsertBatch` | convey/Pods/leveldb-library/db/write_batch.cc:132-137 | Operation k of a batch gets the k-th number from the batch's own |
| `EditCodec.FieldsRoundTrip` | convey/Pods/leveldb-library/db/version_edit.cc:107-205 | Parsing encoded fields gives them back |
| `EditCodec.DecodeRestores` | convey/Pods/leveldb-library/db/version_edit.cc:26-205 | Reading an edit into a cleared one restores it if and only if no compaction pointer was left there, as clearing keeps those |
| `EditCodec.VersionEdit.EncodeTo` | convey/Pods/leveldb-library/db/version_edit.cc:41-85 | Writes the fields in the descriptor's order, deleted files by level and number |
| `EditCodec.VersionEdit.DecodeFrom` | convey/Pods/leveldb-library/db/version_edit.cc:107-205 | Succeeds exactly when all of the string is fields, and then applies them to the cleared edit |
| `ConcurrentReads.SearchIsExact` | convey/Pods/leveldb-library/db/skiplist.h:260-281 | Under any interleaving with an insertion, a search that ends gives the first entry at or after its target of the list at that moment |
| `ConcurrentReads.SearchTerminates` | convey/Pods/leveldb-library/db/skiplist.h:260-281 | A search left alone ends within a bound computed from where it stands |
| `ConcurrentReads.NothingIsLost` | convey/Pods/leveldb-library/db/skiplist.h:337-368 | No interleaving ever removes an entry |
| `SkipListIndex.List.Insert` | convey/Pods/leveldb-library/db/skiplist.h:337-368 | Inserts one entry, keeps the order, and links it on exactly as many levels as its height |
| `SkipListIndex.List.FindGreaterOrEqual` | convey/Pods/leveldb-library/db/skiplist.h:260-281 | Finds the first entry at or after the target, and its predecessor at every level in use |
| `SkipListIndex.List.FindLessThan` | convey/Pods/leveldb-library/db/skiplist.h:283-303 | Finds the last entry before the target |
| `TableFormat.OneBlockIsEnough` | convey/Pods/leveldb-library/table/table.cc:216-244 | The block the index points at answers for the whole table |
| `TableFormat.NoFallThrough` | convey/Pods/leveldb-library/db/dbformat.cc:69-86 | Past a shortened index key the next block never holds the key looked for |
| `TableFormat.KeyRoundTrip` | convey/Pods/leveldb-library/db/dbformat.h:165-175 | The user key, sequence number and kind of an internal key are read back from its bytes |
| `TableFormat.IndexIncreases` | convey/Pods/leveldb-library/table/table_builder.cc:102-109 | Shortened index keys ascend as the blocks do, so the index may be searched |
| `TableLayout.HandleRoundTrip` | convey/Pods/leveldb-library/table/format.cc:15-29 | A block handle reads back, leaving what follows |
| `TableLayout.FooterRoundTrip` | convey/Pods/leveldb-library/table/format.cc:31-62 | A footer has 48 bytes and reads back as its two handles |
| `TableLayout.ReadsWhatIsStored` | convey/Pods/leveldb-library/table/format.cc:64-139 | A block written with its trailer passes its checksum and is read back, wherever it stands in the file |
| `TableBuilding.TableBuilder.Add` | convey/Pods/leveldb-library/table/table_builder.cc:94-123 | A pair joins the open block; its key decides the index key of the block before, cut short where there is room; a block is written when it has reached its size, and not before |
| `TableBuilding.TableBuilder.Finish` | convey/Pods/leveldb-library/table/table_builder.cc:198-253 | The finished bytes are a table of everything added: data blocks, filter, meta block, index, footer |
| `TableReading.Open` | convey/Pods/leveldb-library/table/table.cc:38-136 | The bytes of a table open: footer, index and, through the meta block, the filter |
| `TableReading.Table.InternalGet` | convey/Pods/leveldb-library/table/table.cc:155-244 | Index, filter and one block read from the bytes give what a search of all pairs gives; a block is read exactly when the index names one that the filter does not rule out |
| `TableReading.FinishAndGet` | convey/Pods/leveldb-library/table/table_builder.cc:94-253 | What was added to a table is what a lookup in its bytes finds: shared prefixes, shortened index keys, handles, checksums, single block reads and filters never change the answer |
| `BlockFormat.BlockBuilder.Add` | convey/Pods/leveldb-library/table/block_builder.cc:72-106 | A pair is appended without all it shares with the key before, and whole at every interval-th entry |
| `BlockIterator.NewIterator` | convey/Pods/leveldb-library/table/block.cc:254-264 | Whatever the builder finished is read back as the pairs that were added |
| `BlockIterator.Iter.Seek` | convey/Pods/leveldb-library/table/block.cc:163-201 | Binary search over restart points and a scan find the first entry at or after the target |
| `BlockIterator.Iter.Prev` | convey/Pods/leveldb-library/table/block.cc:142-161 | Goes back one entry by rescanning from a restart point |
| `TwoLevel.TwoLevelIterator.Seek` | convey/Pods/leveldb-library/table/two_level_iterator.cc:82-87 | Lands on the first pair at or after the target of all blocks taken together |
| `TwoLevel.TwoLevelIterator.Prev` | convey/Pods/leveldb-library/table/two_level_iterator.cc:109-139 | Goes back one pair, across empty blocks |
| `Bloom.BloomFilterPolicy.CreateFilter` | convey/Pods/leveldb-library/util/bloom.cc:28-54 | The filter has exactly the bits the keys probe, sized for the bits a key is worth, and ends with the number of probes |
| `Bloom.BloomFilterPolicy.KeyMayMatch` | convey/Pods/leveldb-library/util/bloom.cc:56-80 | Answers whether the key matches the filter, and true for encodings it does not know |
| `FilterBlock.FilterBlockReader.KeyMayMatch` | convey/Pods/leveldb-library/table/filter_block.cc:90-104 | Consults the filter of the data block's offset |
| `Bytewise.RankPreservesOrder` | convey/Pods/leveldb-library/util/comparator.cc:25-27 | Byte strings embed in the real numbers with their order, so user keys may be taken for numbers |
| `Bytewise.FindShortestSeparator` | convey/Pods/leveldb-library/util/comparator.cc:29-50 | The start cut behind the first byte where the two leave room, counted up, and the start itself without room; the result lies strictly between or is the start, and is no longer |
| `Crc32c.Extend` | convey/Pods/leveldb-library/util/crc32c.cc:276-377 | The table-driven loop with four strides computes the remainder of the bit-by-bit definition, at any alignment |
| `Crc32c.ExtendComposes` | convey/Pods/leveldb-library/util/crc32c.cc:276-377 | Extending by two pieces is extending by their concatenation |
| `Crc32c.UnmaskMask` | convey/Pods/leveldb-library/util/crc32c.h:29-38 | Masking and unmasking are inverse |
| `Coding.VarintRoundTrip` | convey/Pods/leveldb-library/util/coding.cc:47-169 | Varints of any width read back, leaving what follows |
| `Coding.GetVarint` | convey/Pods/leveldb-library/util/coding.cc:112-169 | The shifting loop decodes what the definition says, or fails exactly when it does |
| `HandleTable.HandleTable.Insert` | convey/Pods/leveldb-library/util/cache.cc:78-92 | Replaces the entry of the same key, if there is one, and tells which; chains hold at most one entry on average |
| `HandleTable.HandleTable.Resize` | convey/Pods/leveldb-library/util/cache.cc:122-147 | Rehashing keeps every entry |
| `LruCache.LRUCache.Insert` | convey/Pods/leveldb-library/util/cache.cc:266-302 | The new entry is held by its client, the old one of its key leaves the cache, and unused entries are evicted until the rest fits and no longer: a prefix of the list, all given back before every one that stays. Everything else is untouched |
| `LruCache.LRUCache.Release` | convey/Pods/leveldb-library/util/cache.cc:261-264 | An entry is freed exactly when its last reference goes; one that only the cache still holds becomes the newest unused one |
| `LruCache.LRUCache.Lookup` | convey/Pods/leveldb-library/util/cache.cc:252-259 | Finds the cached entry of a key, takes a reference and takes it off the list of unused ones, or nothing is cached under the key |
| `ProtoEncode.Encode` | convey/Pods/nanopb/pb_encode.c:528-552 | Fails exactly when something exceeds its storage or the stream has no room; otherwise a counting and a writing stream both advance by exactly the size of the encoding, and the writing one holds it |
| `ProtoEncode.EncodeSubmessage` | convey/Pods/nanopb/pb_encode.c:717-765 | A submessage, at any depth, takes as many bytes when written as the sizing run counted; that they differ never happens |
| `ProtoEncode.EncodeArray` | convey/Pods/nanopb/pb_encode.c:147-236 | Packable arrays are packed under the size the counting run found, others get a tag an item; too long ones fail |
| `ProtoEncode.GetEncodedSize` | convey/Pods/nanopb/pb_encode.c:567-576 | The size reported is the number of bytes encoding takes |
| `ProtoEncode.VarintBytes` | convey/Pods/nanopb/pb_encode.c:608-628 | The loop that clears the last top bit writes the base-128 form |
| `ProtoFormat.ZeroIsDefault` | convey/Pods/nanopb/pb_encode.c:240-337 | A value not written for being zero is the one decoding starts from, submessages included |
| `ProtoDecode.DecodeVarint32` | convey/Pods/nanopb/pb_decode.c:187-247 | Every number below 2^32 is read back, past the checks for overflow and sign extension |
| `ProtoDecode.DecodeDatum` | convey/Pods/nanopb/pb_decode.c:1328-1564 | A value the encoder wrote is read back, whatever follows it, exactly when every text in it leaves room for its terminator; otherwise it is refused |
| `ProtoDecode.DecodeText` | convey/Pods/nanopb/pb_decode.c:1481-1517 | A string is read back exactly when it leaves room for its terminator; the encoder also writes strings that do not |
| `ProtoDecode.DecodePacked` | convey/Pods/nanopb/pb_decode.c:423-449 | The items of a packed array are read back exactly when there are no more than fit |
| `ProtoDecode.DecodeField` | convey/Pods/nanopb/pb_decode.c:406-483 | The next field changes its own slot and, in a union, takes the others away; it is refused exactly when a text in it fills its storage |
| `ProtoDecode.DecodeNoInit` | convey/Pods/nanopb/pb_decode.c:928-1076 | What was encoded is accepted exactly when every text, at every depth, leaves room for its terminator, and then every field is read back: packed and unpacked arrays, arrays of fixed length, unions, submessages, and no required field is missed |
| `ProtoDecode.EncodeAndDecode` | convey/Pods/nanopb/pb_decode.c:1078-1091 | A message shorter than 2^32 bytes that was encoded into a buffer is decoded exactly when every text in it, at every depth, leaves room for its terminator, and then it is the message that was encoded |
| `EngineTheorems.FaithfulExactlyWhen` | convey/Pods/leveldb-library/db/db_impl.cc:890-999 | In every state of the engine, one compaction keeps the latest state and every live snapshot reading as a replay if and only if it resurrects nothing |
| `Resurrection.CulpritHasOutputs` | convey/Pods/leveldb-library/db/db_impl.cc:946-960 | That compaction has outputs: the rules keep one entry and drop the tombstone |
| `DescriptorLog.LogRecord` | convey/Pods/leveldb-library/db/version_set.cc:801-884 | An edit encoded and appended to the descriptor's bytes is one more edit there |
| `LogFormat.AddRecords` | convey/Pods/leveldb-library/db/log_writer.cc:34-80 | Records added one after another are logged in order, behind what the file holds |
| `SkipListIndex.List.Contains` | convey/Pods/leveldb-library/db/skiplist.h:370-378 | Says whether an entry with the key is in the list |
| `DbIter.DbIterator.KeyAndValue` | convey/Pods/leveldb-library/db/db_iter.cc:64-71 | Key and value are the row's, in either direction |
| `TwoLevel.TwoLevelIterator.AtIsEntry` | convey/Pods/leveldb-library/table/two_level_iterator.cc:32-39 | Where the iterator stands is a pair of the blocks taken together |
| `LruCache.LRUCache.Erase` | convey/Pods/leveldb-library/util/cache.cc:318-321 | Nothing stays cached under the key; entries under other keys stay cached and in order, and what clients hold stays theirs |
| `LruCache.LRUCache.Prune` | convey/Pods/leveldb-library/util/cache.cc:323-332 | Nothing unused stays, everything in use does |
| `Coding.EncodeVarint64` | convey/Pods/leveldb-library/util/coding.cc:81-90 | The loop writes the base-128 form of any number |
| `PowerLoss.CutLogLeavesPrefix` | convey/Pods/leveldb-library/db/db_impl.cc:371-489 | After any run whose compactions resurrect nothing among the tables alone, and with the newest log cut off at any byte, recovery leaves the engine reading a replay of a prefix of the acknowledged operations that ends between two batches and reaches the last one synced |
| `PowerLoss.PrefixSurvives` | convey/Pods/leveldb-library/db/db_impl.cc:280-369 | Whatever the logs together lost at their end, the recovered engine reads as a replay of the operations that are left |
| `PowerLoss.GoesOnExactlyWhen` | convey/Pods/leveldb-library/db/db_impl.cc:364-366 | The engine goes on as if the lost operations had never been written if and only if the descriptor had counted none of them |
| `PowerLoss.SettledExactlyWhen` | convey/Pods/leveldb-library/db/db_impl.cc:890-999 | After a compaction the tables alone still read as a replay of what was flushed if and only if nothing is resurrected among the tables: a memtable that hides a resurrected value may be lost |
| `PowerLoss.TidyResurrectsNothing` | convey/Pods/leveldb-library/db/db_impl.cc:946-960 | A compaction that resurrects nothing among the tables resurrects nothing below the memtables |
| `PowerLoss.RunStaysSettled` | convey/Pods/leveldb-library/db/db_impl.cc:491-566 | Through every run whose compactions resurrect nothing among the tables, the tables alone read as a replay of what was flushed |
| `TableCaches.GetFromFiles` | convey/Pods/leveldb-library/db/db_impl.cc:1100-1142 | A read that goes down to the bytes of the table files shows what a replay of the history shows |
| `TableCaches.VersionGetBytes` | convey/Pods/leveldb-library/db/version_set.cc:326-421 | The search of a version in the bytes of its files returns the newest visible entry of the whole store |
| `TableCaches.FilesToSearch` | convey/Pods/leveldb-library/db/version_set.cc:282-324 | Of the files it lists for a key, level 0 newest first and then at most one a level, the first with a visible version decides for the whole store |
| `TableCaches.TableCache.Get` | convey/Pods/leveldb-library/db/table_cache.cc:100-112 | The bytes of a table file, opened now or before, answer a lookup as the run of its entries does |
| `TableCaches.TableCache.FindTable` | convey/Pods/leveldb-library/db/table_cache.cc:41-78 | A table is opened once and remembered; a failure to open is not |
| `TableCaches.StoreTable` | convey/Pods/leveldb-library/db/builder.cc:17-43 | The file made of a finished builder answers for exactly what was added |
| `Resurrection.PickRewrite` | convey/Pods/leveldb-library/db/version_set.cc:1403-1462 | `SetupOtherInputs` picks exactly the inputs of the compaction before it, one of them at the lower level, so that it is no move |
| `ProtoDecode.FullTextIsLost` | convey/Pods/nanopb/pb_decode.c:1481-1517 | The input that fails: a message whose one text fills its storage is encoded and then refused |
| `ProtoDecode.ShortMessageIsSized` | convey/Pods/nanopb/pb_encode.c:717-765 | In an encoded message shorter than 2^32 bytes nothing exceeds its storage and every length fits 32 bits, at every depth |
| `PowerLoss.PrefixExactlyWhen` | convey/Pods/leveldb-library/db/db_impl.cc:343-362 | When both live logs lose their ends, what replay inserts is a prefix of the history if and only if the older log kept every operation or the newer one none |
| `Database.Db.MemtableGet` | convey/Pods/leveldb-library/db/db_impl.cc:1124-1130 | A visible version in the memtable, or else in the immutable one, is the newest of the whole store; without one nothing there is visible |
| `LruCache.LRUCache.EvictOldest` | convey/Pods/leveldb-library/util/cache.cc:293-300 | The unused entry given back longest ago goes, and nothing else changes |
| `EngineTheorems.SnapshotsAreHeld` | convey/Pods/leveldb-library/db/snapshot.h:56-86 | Over every run, the snapshots held at first and those taken are those held at the end and those released |
| `EngineTheorems.HeldSnapshotIsStable` | convey/Pods/leveldb-library/db/db_impl.cc:1166-1174 | A snapshot not released as often as it was held shows what a replay up to its number shows, whatever was taken and released besides |
| `EngineTheorems.LevelsAfter` | convey/Pods/leveldb-library/db/version_set.cc:801-884 | After a flush, a move or a compaction each table is where that step puts it, and no other step but recovery changes a level |
| `CompactionTurns.EveryFileGetsItsTurn` | convey/Pods/leveldb-library/db/version_set.cc:1282-1297 | As many compactions as a sorted level has files take each of its files, wherever the pointer stood |
| `CompactionTurns.NoFileIsPassedOver` | convey/Pods/leveldb-library/db/version_set.cc:1455-1461 | A file still to come is among the inputs or still to come after the pointer has moved |
| `CompactionWork.OverlapScan.ShouldStopBefore` | convey/Pods/leveldb-library/db/version_set.cc:1554-1576 | A table ends before a key exactly when the grandparent files passed since it began are too many bytes |
| `Bloom.FilterOfExcludes` | convey/Pods/leveldb-library/util/bloom.cc:56-80 | A key with a probe that no key of the filter has does not match |
| `Bloom.FilterOfMatches` | convey/Pods/leveldb-library/util/bloom.cc:56-80 | A key of the filter matches it: no false negatives |
| `KnownFilters.FooIsKeptOut` | convey/Pods/leveldb-library/util/bloom.cc:40-80 | The filter of two words at ten bits a key rules a third word out |
| `KnownFilters.HashOfFour` | convey/Pods/leveldb-library/util/hash.cc:22-52 | The hash of a known key of four bytes; others of one to five bytes stand beside it |
| `FilterBlock.FilterBlockBuilder.Finish` | convey/Pods/leveldb-library/table/filter_block.cc:35-75 | Every 2 KB of data blocks has the filter of exactly the keys added for it, an empty one without keys |
| `TableFormat.FindShortestSeparator` | convey/Pods/leveldb-library/db/dbformat.cc:69-85 | The index key is cut short exactly when that saves a byte of the user key |
| `BlockFormat.BlockIsSettled` | convey/Pods/leveldb-library/table/block_builder.cc:62-106 | The pairs and the restart interval settle every byte of a block |
| `ErrorDetection.BurstIsDetected` | convey/Pods/leveldb-library/util/crc32c.cc:276-377 | Two strings of equal length that differ within 32 bits in a row have different checksums |
| `ErrorDetection.ChecksumOfZeros` | convey/Pods/leveldb-library/util/crc32c.cc:18-60 | Thirty-two zero bytes have the checksum published in section B.4 of RFC 3720 |
| `ErrorDetection.ChecksumOfDigits` | convey/Pods/leveldb-library/util/crc32c.cc:18-60 | The digits from 1 to 9 have the published checksum |
| `ErrorDetection.TableEntries` | convey/Pods/leveldb-library/util/crc32c.cc:18-60 | Entries 1, 128 and 255 of the byte table are those the code lists |
| `TableLayout.DamageIsSeen` | convey/Pods/leveldb-library/table/format.cc:60-130 | A block damaged by a burst of at most 32 bits in its contents or type is refused |
| `KnownBytes.Varints` | convey/Pods/leveldb-library/util/coding.cc:47-90 | Varints on numbers of one to three bytes |
| `KnownBytes.FixedWidths` | convey/Pods/leveldb-library/util/coding.cc:9-45 | Fixed-width numbers have their lowest byte first |
| `KnownBytes.Masked` | convey/Pods/leveldb-library/util/crc32c.h:29-38 | A known checksum, masked |
| `KnownBytes.LogRecord` | convey/Pods/leveldb-library/db/log_writer.cc:82-108 | The bytes of a one-byte log record |
| `KnownBytes.LogPadding` | convey/Pods/leveldb-library/db/log_writer.cc:44-56 | Too little room for a header at the end of a block is filled with zeros |
| `KnownBytes.LogFragments` | convey/Pods/leveldb-library/db/log_writer.cc:34-80 | A record longer than two blocks has a first, a middle and a last fragment, under their types |
| `KnownBytes.InternalKeys` | convey/Pods/leveldb-library/db/dbformat.cc:14-23 | The bytes of internal keys of both kinds |
| `KnownBytes.BatchBytes` | convey/Pods/leveldb-library/db/write_batch.cc:86-109 | The bytes of a batch with a value and a deletion, as its methods build them |
| `KnownBytes.EditNumbers` | convey/Pods/leveldb-library/db/version_edit.cc:14-85 | Fields of an edit that hold numbers, under their tags |
| `KnownBytes.EditNewFile` | convey/Pods/leveldb-library/db/version_edit.cc:14-85 | A new file in an edit, under its tag |
| `KnownBytes.EditOrder` | convey/Pods/leveldb-library/db/version_edit.cc:41-85 | The order in which an edit writes its fields |
| `KnownBytes.FooterBytes` | convey/Pods/leveldb-library/table/format.cc:31-43 | The bytes of a footer: handles, padding, magic number |
| `KnownBytes.TrailerBytes` | convey/Pods/leveldb-library/table/table_builder.cc:177-196 | The five bytes behind an empty block |
| `KnownBytes.FilterBlockBytes` | convey/Pods/leveldb-library/table/filter_block.cc:35-49 | The bytes of filter blocks with and without filters |
| `KnownBytes.BlockBytes` | convey/Pods/leveldb-library/table/block_builder.cc:62-106 | The bytes of a block of two pairs that share a prefix, as the builder makes them |
| `ProtoFormat.ZigZagNumbers` | convey/Pods/nanopb/pb_encode.c:630-639 | Zigzag numbers zero, minus one, one, minus two and so on from zero up |
| `KnownMessages.ZigZagBytes` | convey/Pods/nanopb/pb_encode.c:630-639 | A positive zigzag number in a message, byte by byte |
| `KnownMessages.NegativeZigZagBytes` | convey/Pods/nanopb/pb_encode.c:630-639 | A negative zigzag number in a message |
| `KnownMessages.SignedBytes` | convey/Pods/nanopb/pb_encode.c:776-797 | A negative number takes ten bytes |
| `KnownMessages.FixedBytesOf` | convey/Pods/nanopb/pb_encode.c:641-667 | Fixed-width numbers of both sizes in a message |
| `KnownMessages.StringBytes` | convey/Pods/nanopb/pb_encode.c:852-914 | Byte arrays, texts and fixed byte arrays in a message |
| `KnownMessages.SubmessageBytes` | convey/Pods/nanopb/pb_encode.c:717-765 | A message in a message |
| `KnownMessages.PackedBytes` | convey/Pods/nanopb/pb_encode.c:147-205 | An array of numbers is packed |
| `KnownMessages.UnpackedBytes` | convey/Pods/nanopb/pb_encode.c:206-236 | An array of texts has a tag an item |
| `KnownMessages.NotWritten` | convey/Pods/nanopb/pb_encode.c:240-337 | What is absent, empty or, in a singular field, zero is not written |
| `KnownMessages.IsWritten` | convey/Pods/nanopb/pb_encode.c:240-426 | Every other value is, behind its tag |
| `GroupCommit.GroupLimits` | convey/Pods/leveldb-library/db/db_impl.cc:1258-1306 | The sizes up to which a group may grow |

## Left out

- EngineTheorems.EveryReaderSeesItsHistory: reads the set of all entries; that the layered search answers the same is the contract of `Database.Db.Get`. Its runs contain only compactions that resurrect nothing, which the code's selection does not guarantee (`Resurrection.DeletedValueReturns`).
- EngineTheorems.SnapshotIsStable: under the same condition on the compactions of the run.
- EngineTheorems.ActionKeepsInv: its compaction action is enabled only when nothing is resurrected, which the code does not check; `EngineTheorems.FaithfulExactlyWhen` says what happens otherwise.
- Database.Db.BackgroundCompaction: asks for the same tombstone condition as `Database.Db.CompactFiles`.
- Database.Db.CompactFiles: asks for the tombstone condition, because the selection does not establish it.
- Database.Db.NewIterator: the iterator keeps the runs it was created over; in the code the memtable goes on growing below it, with entries too new for it to see.
- EngineTheorems.CrashLosesNothing: the process stops, and what was handed to the files is there; the end of a log lost with the power is the subject of `PowerLoss.CutLogLeavesPrefix`.
- Recovery.ReopenKeepsStore: the replayed logs are whole sequences of records, as after a crash of the process.
- Database.Db.Recover: replays whole logs only; `PowerLoss` cuts logs in the state machine, not in this object.
- PowerLoss.CutLogLeavesPrefix: the older of two live logs is whole; what happens otherwise is said of the records only (`PowerLoss.PrefixSurvives`, `PowerLoss.PrefixExactlyWhen`). Runs that go on after the descriptor had counted lost operations are not modelled.
- Database.Db.Write: one batch by one writer; the queue of writers is `GroupCommit`, syncing is left out.
- TableCaches.TableCache.FindTable: the number of open tables is not limited here (that is `LruCache`), files under the older name are left out, and files do not change.
- Merging.MergingIterator.Next: its children are runs. That a table's bytes are iterated as a run is proved in `BlockIterator` and `TwoLevel`, but those iterators are not made its children.
- ProtoDecode.DecodeField: speaks of pieces the encoder wrote.
- DurableLogs.DecodeLog: stops at the first batch that cannot be parsed; going on after it, which the code does unless it is paranoid, is not modelled.
- CompactionWork.DoCompactionWork: how large an output table may become is a parameter, and so is the test that `CompactionWork.OverlapScan` makes; the flush of a memtable in the middle of a compaction and shutting down are left out.
- LogRecovery.RecoverLogFile: when a replayed memtable is full is a parameter; only what the tables hold is claimed.
- CompactionTurns.EveryFileGetsItsTurn: for a level whose files stay the same; where they change, `CompactionTurns.NoFileIsPassedOver` holds of each compaction.
- When writers are slowed down, stopped or made to switch memtables is up to the caller of `Database.Db.SwitchMemtable`.
- LogReader.ReadLog: says nothing about files that are not a prefix of what was written, except that reading them ends.
- Crc32c.Extend: the lookup tables are assumed to obey the recurrence that generates them; hardware acceleration is left out.
- Bloom.BloomFilterPolicy.CreateFilter: the number of probes is computed with exact rationals, not with rounded doubles.
- ConcurrentReads.SearchIsExact: loads and stores happen in one order all threads agree on; weaker memory orders are not modelled.
- DbIter.DbIterator.Next: sampling of reads to trigger compactions, and keys that cannot be parsed, are left out.
- GroupCommit.GroupCommitIsSerial: a log write never fails; a writer without a batch may ride in a group without the memtable switch it asked for.
- `Database.Db` keeps memtables as sorted runs; `SkipListIndex.List.Insert` gives the skip list the same contract. The skip list's search for its last entry is left out.
- Which level to compact next (scores in floating point, seek counters) is a parameter: any level may be compacted.
- Input and output errors, file locks, environments, threads and their scheduling, the repair tool, statistics.
- Snappy compression, hardware checksums, reading from a nonzero initial offset, reuse of old logs, sharding of the cache.
- The application's own user interface and its other libraries.
- TableReading.FinishAndGet: tables whose blocks exceed 32-bit sizes are built but not claimed to read back, as in the code; reading through the block cache is left out.
- ProtoDecode.DecodeNoInit: what becomes of input the encoder did not write (repeated fields, unknown ones, malformed ones) is modelled but only shown to end, and messages of 2^32 bytes or more are not spoken of. Messages are what their readers observe: struct layout, stale contents of absent fields and default values in the field tables are left out.
- ProtoDecode.DecodeVarint32: shift counts do not wrap, as they would in a varint of more than 36 bytes.
- Callback, extension and pointer fields of messages, and streams that fail for reasons of their own.
