# LevelDB and nanopb, modelled and proved in Dafny

The application in this repository keeps its data through two vendored C and C++ libraries: LevelDB, a log-structured storage engine, and nanopb, a Protocol Buffers codec. This project models both and proves what they promise. `dafny verify dfyconfig.toml` checks all of it.

The top specification is one function, `Keys.Read`: given the set of all entries ever written, what a user key reads at a snapshot is the value of its newest entry with a sequence number not above the snapshot, if that entry is a value. Everything else is proved against it, layer by layer.

- **Storage engine.** `Versions` (lookup), `Inputs` and `Picking` (choosing a compaction), `Compactions` and `Preservation` (running one), `LevelInvariant` (flushes and moves), `Builders` and `Catalog` (version edits and file numbers), `Store` (the database object: every step keeps the reads of every live snapshot), `Interleavings` (flushes that come in the middle of a compaction), `Resurrection` and `LostKeys` (the two cases in which the code as written does not).
- **Crashes and concurrency.** `Recoveries` (replaying the logs from their bytes), `LogViews`, `Commits` (the records of a MANIFEST and reading them back) and `Durability` (writer, background thread, disk, crash and recovery as one state machine), `GroupCommits` (the writer queue over all interleavings), `SkipLists` (readers searching and scanning while a writer links).
- **Cursors.** `Cursors` (a cursor over a sorted run), `DBIters`, `Mergers`, `TwoLevels`: bidirectional iterators, each an index into one sorted sequence, the database iterator driving a merging iterator; `Iterations`: what they walk when put together, up to a client's scan.
- **Formats.** `Codings`, `Crcs`, `Logs`, `Blocks`, `Bytewise`, `InternalKeys`, `Blooms`, `FilterBlocks`, `Formats`, `TableBuilders`, `Tables`, `TableRuns`, `TableGets`, `WriteBatches`, `VersionEdits`, `Manifests`.
- **Data structures.** `Rings`, `Snapshots`, `Caches`.
- **nanopb.** `Nanopb`: encoder that sizes and then writes, decoder that undoes it; `MessageLaws`: what the decoder makes of any bytes.

Where the source updates an object, the model has a class with its fields; where it loops, a method with a loop. Each such method is proved against a function or predicate whose meaning is proved separately.

## What the code does that one would not expect

- **A deleted key can come back.** A compaction gives the level's inputs their boundary files, but not the next level's (`db/version_set.cc:1384-1388`). When a next-level file left out holds an older value of a user key whose deletion marker is dropped, the old value becomes readable. `Resurrection.DeletedKeyComesBack` is a concrete case; `Preservation.CompactionPreservesReads` says for all compactions exactly which reads are preserved; `Preservation.SealedNextLevelPreserves` shows that the missing call would be enough. `Store` and `Durability` run such compactions too and keep the set of reads they have spoiled, until a later write decides them; every other read is as it should be.
- **A flushed key can be hidden.** While a compaction runs, its loop lets memtables be flushed (`db/db_impl.cc:917-928`), and a flush may go straight to the output level of the compaction where no file lies. The inputs of a manual compaction can leave a gap between them (`db/version_set.cc:1441-1473`); a table flushed into the gap ends up under an output that spans it, the level has overlapping tables (checked in debug builds only, `db/version_set.cc:699-712`), and the search for the flushed key looks into the wrong one. `LostKeys` is a concrete case; `Interleavings.InstallOverFlushes` says for all compactions exactly when the level invariant survives; `Picking.PickCompaction` and `Durability.GaplessMayInstall` show that what the store picks by itself is safe.
- **A finished table is unprotected until its commit.** `WriteLevel0Table` gives up the number right after the build (`db/db_impl.cc:522`), before any version has the table. `Durability.BuiltTableStays` shows that a collection in this window would delete it, and that none can come.
- **A request for room can ride along.** A writer without a batch that waits behind a write is answered with that write's group, and no room is made for it. `GroupCommits.RequestForRoomRides` says for every queue exactly when, `GroupCommits.OnlyLeadersMakeRoom` for every run who makes room.
- **The count of a batch is signed.** From 2^31 operations on, a batch hands on all of them and then reports a wrong count (`WriteBatches.BatchRoundTrip`).
- **Clearing an edit keeps its compaction pointers** (`VersionEdits.VersionEdit.Clear`), so decoding into a used edit adds to them.
- **Recovered file numbers.** Recovery marks the log numbers as used and then overwrites the counter with the number that the MANIFEST recorded (`db/version_set.cc:962-973`), so the marking has no effect (`Manifests.Recover`).

User keys are real numbers in the modules that only compare them. Every countable total order embeds in the reals, and `Bytewise.RankIsOrder` proves it for byte strings under the default comparator; `InternalKeys.ComparatorIsOrder` and `TableRuns.TableIsTwoLevel` carry it over to encoded keys and whole tables.

## Model

| member | source | states |
|---|---|---|
| Keys.SeekDecides | SHEMS/Pods/leveldb-library/db/memtable.cc:112-131 | In any sorted run, the first entry at or after the seek key of (u, s) is the newest entry of u not newer than s if it has user key u, and otherwise there is none |
| Versions.FindFile | SHEMS/Pods/leveldb-library/db/version_set.cc:87-105 | Binary search returns the first file whose largest key is at or after the key |
| Versions.Match | SHEMS/Pods/leveldb-library/db/version_set.cc:247-275 | One table lookup answers with the newest visible entry of the user key in that table: found, deleted or not found |
| Versions.SortNewestFirst | SHEMS/Pods/leveldb-library/db/version_set.cc:277-279 | A permutation of the files, multiplicities included, by falling file number |
| Versions.GetLevel0 | SHEMS/Pods/leveldb-library/db/version_set.cc:285-302 | Probing the covering level-0 files newest first and stopping at the first hit answers from the newest visible entry of all level-0 files |
| Versions.GetSortedLevel | SHEMS/Pods/leveldb-library/db/version_set.cc:304-321 | Probing the one file the binary search names answers from the newest visible entry of the whole level |
| Versions.Get | SHEMS/Pods/leveldb-library/db/version_set.cc:324-400 | Under the level invariant, level 0 newest first and then at most one file a level gives the newest entry with sequence at most s over all files of the version |
| Store.InsertEntry | SHEMS/Pods/leveldb-library/db/memtable.cc:76-99 | A memtable insertion keeps the order and adds exactly the entry |
| Store.MemTableGet | SHEMS/Pods/leveldb-library/db/memtable.cc:101-135 | Seek and user-key check give the newest visible entry of the memtable |
| Store.LayerDecides | SHEMS/Pods/leveldb-library/db/db_impl.cc:1135-1144 | When every entry of one layer is newer than those of the same user key below, the newest entry of the upper layer, if any, is the newest of both |
| Store.DB.constructor | SHEMS/Pods/leveldb-library/db/db_impl.cc:181-211 | A new database meets the store invariant with an empty history |
| Store.DB.Get | SHEMS/Pods/leveldb-library/db/db_impl.cc:1110-1155 | At the last sequence or any live snapshot, memtable, immutable memtable and version together read the newest stored entry, and exactly what the full history of writes reads unless a compaction has spoiled this read |
| Store.DB.Write | SHEMS/Pods/leveldb-library/db/db_impl.cc:1211-1251 | A batch adds exactly its entries, numbered from the next sequence on, to the history; the invariant that storage reads like the history is kept, and every read the batch decides is no longer spoiled |
| Store.DB.Add | SHEMS/Pods/leveldb-library/db/memtable.cc:76-99 | One entry at the next sequence number keeps the store invariant |
| Store.DB.SwitchMemtable | SHEMS/Pods/leveldb-library/db/db_impl.cc:1356-1376 | Making the memtable immutable changes no stored entry and keeps the invariant |
| Store.DB.CompactMemTable | SHEMS/Pods/leveldb-library/db/db_impl.cc:544-575 | Flushing the immutable memtable, to whichever level, keeps the invariant and the exact set of stored entries |
| Store.DB.TrivialMove | SHEMS/Pods/leveldb-library/db/db_impl.cc:727-742 | Moving a lone input file one level down keeps the invariant and the exact set of stored entries |
| Store.DB.Compact | SHEMS/Pods/leveldb-library/db/db_impl.cc:743-752 | Every compaction keeps the invariant: no read at the last sequence or at a live snapshot changes, except those that see a dropped marker under which a value is uncovered and that no memtable decides; these are recorded as spoiled, and nothing new is stored |
| Store.DB.GetSnapshot | SHEMS/Pods/leveldb-library/db/db_impl.cc:1176-1179 | Pins the last sequence; the snapshot stays readable until released |
| Store.DB.ReleaseSnapshot | SHEMS/Pods/leveldb-library/db/db_impl.cc:1181-1184 | Releasing one snapshot keeps every other one readable |
| Store.WriteLevel0Table | SHEMS/Pods/leveldb-library/db/db_impl.cc:500-542 | The new version has exactly the old entries and those of the memtable, meets the level invariant, and every file number stays unique |
| Store.InstallFlush | SHEMS/Pods/leveldb-library/db/version_set.cc:777-860 | Installing the edit of a flush keeps the level invariant and adds exactly the entries of the table |
| Store.InstallMove | SHEMS/Pods/leveldb-library/db/version_set.cc:777-860 | Installing a trivial move keeps the level invariant and the set of entries |
| Store.InstallCompaction | SHEMS/Pods/leveldb-library/db/db_impl.cc:868-885 | Installing a compaction keeps the level invariant, adds no entry, and changes no read at or above the smallest snapshot but those that see a dropped marker under which a value is uncovered |
| Inputs.GetOverlappingInputs | SHEMS/Pods/leveldb-library/db/version_set.cc:498-538 | Terminates; at deeper levels it returns the files meeting the range; at level 0 it returns the files meeting the least overlap-closed range that contains the one asked for |
| Inputs.FindLargestKey | SHEMS/Pods/leveldb-library/db/version_set.cc:1303-1317 | The largest key of the files |
| Inputs.FindSmallestBoundaryFile | SHEMS/Pods/leveldb-library/db/version_set.cc:1321-1339 | The boundary file with the smallest key, or the certainty that no file continues the key |
| Inputs.AddBoundaryInputs | SHEMS/Pods/leveldb-library/db/version_set.cc:1355-1378 | Terminates with no boundary file left out; only files of the level are added; a run of a sorted level stays a run |
| Picking.SealedRunLeavesNothingOlder | SHEMS/Pods/leveldb-library/db/version_set.cc:1341-1354 | A run of a sorted level that no boundary file continues leaves out no file with an older entry of an included user key |
| Picking.ClosedLeavesNothingOlder | SHEMS/Pods/leveldb-library/db/version_set.cc:498-538 | An overlap-closed set of level-0 files leaves out no file with any entry of an included user key |
| Picking.GetRange | SHEMS/Pods/leveldb-library/db/version_set.cc:1179-1200 | The least range that covers the inputs, both ends attained |
| Picking.Seal | SHEMS/Pods/leveldb-library/db/version_set.cc:1384 | The inputs after their boundary files leave nothing older behind |
| Picking.Widen | SHEMS/Pods/leveldb-library/db/version_set.cc:1394-1402 | The expanded inputs contain the start and are again a legal start |
| Picking.SetupOtherInputs | SHEMS/Pods/leveldb-library/db/version_set.cc:1380-1439 | A legal start at the level that leaves nothing older behind, and all next-level files that meet its range, both ends of which are attained; a start without gaps gives inputs without gaps |
| Picking.Expand | SHEMS/Pods/leveldb-library/db/version_set.cc:1394-1427 | The inputs at the level are expanded only to a legal pick, and so that no gap opens |
| Inputs.ScanIsGapless | SHEMS/Pods/leveldb-library/db/version_set.cc:498-538 | What a scan finds around files without gaps leaves no user key between the found files uncovered |
| Picking.PickCompaction | SHEMS/Pods/leveldb-library/db/version_set.cc:1247-1299 | The picked file is among the inputs, the pick is legal with level-0 overlaps included, its range is that of the level's inputs, and every user key between two inputs lies in the range of an input |
| Picking.CompactRange | SHEMS/Pods/leveldb-library/db/version_set.cc:1441-1473 | No compaction exactly when no file meets the range; otherwise a legal pick that contains the start: at level 0 the files of the least overlap-closed range around the one asked for, deeper the shortest run of the files meeting it that reaches the size limit; uncut, every file meeting the range is an input |
| Picking.CutShort | SHEMS/Pods/leveldb-library/db/version_set.cc:1453-1464 | The shortest prefix that reaches the size limit, or everything |
| Compactions.Compaction.IsBaseLevelForKey | SHEMS/Pods/leveldb-library/db/version_set.cc:1509-1529 | With keys asked in order, the moving level pointers answer exactly whether no deeper file's range covers the user key |
| Compactions.DropRule | SHEMS/Pods/leveldb-library/db/db_impl.cc:939-973 | Drops an entry exactly when a newer entry at or below the smallest snapshot hides it, or it is a deletion marker at or below the smallest snapshot with no deeper file covering its key |
| Compactions.AddToOutput | SHEMS/Pods/leveldb-library/db/db_impl.cc:987-1009 | Wherever output tables end, they hold the kept entries in order and stay sorted, non-empty and consecutively numbered |
| Compactions.KeptFacts | SHEMS/Pods/leveldb-library/db/db_impl.cc:916-1009 | The kept entries are exactly the input entries not dropped, in order |
| Compactions.DoCompactionWork | SHEMS/Pods/leveldb-library/db/db_impl.cc:886-1041 | For any output splitting, the outputs together hold exactly the kept entries of the input |
| Preservation.CompactionPreservesReads | SHEMS/Pods/leveldb-library/db/db_impl.cc:916-1009 | For every pick, splitting and smallest snapshot, and for every single read at or above the smallest snapshot: it is unchanged if and only if the newest entry it sees is not a deletion marker that is dropped over a value in a left-out next-level file; and all are unchanged if and only if there is no such marker |
| Preservation.SealedNextLevelPreserves | SHEMS/Pods/leveldb-library/db/version_set.cc:1387-1388 | Had the next-level inputs been given their boundary files as the level's are, every read would be preserved |
| Resurrection.DeletedKeyComesBack | SHEMS/Pods/leveldb-library/db/version_set.cc:1387-1388 | A concrete version, legal pick and drop after which a deleted key reads as its old value: the boundary call missing for the next level |
| Resurrection.PickIsMade | SHEMS/Pods/leveldb-library/db/version_set.cc:1247-1299 | The inputs of this case are exactly what PickCompaction picks around the upper file, for every byte limit |
| LevelInvariant.SwapKeepsInvariant | SHEMS/Pods/leveldb-library/db/version_set.cc:699-712 | Replacing inputs by outputs keeps the level invariant: deeper levels sorted and disjoint, and for i < j every entry of a user key in level i newer than any in level j |
| LevelInvariant.SomeFileOverlapsRange | SHEMS/Pods/leveldb-library/db/version_set.cc:121-156 | True exactly when some file of the level meets the user-key range, by scan or by binary search |
| LevelInvariant.PickLevelForMemTableOutput | SHEMS/Pods/leveldb-library/db/version_set.cc:470-495 | At most level 2, below level 0 only past levels that the range does not meet, and no higher than a file or the grandparent bytes force |
| LevelInvariant.FlushKeepsInvariant | SHEMS/Pods/leveldb-library/db/version_set.cc:470-495 | A flush to level 0, 1 or 2 keeps the level invariant and adds exactly the entries of the table |
| Builders.Insert | SHEMS/Pods/leveldb-library/db/version_set.cc:571-586 | Insertion by smallest key keeps the std::set order and loses nothing |
| Builders.Builder.Apply | SHEMS/Pods/leveldb-library/db/version_set.cc:628-669 | The live files of every level become those of deleting and then adding what the edit says |
| Builders.Builder.SaveTo | SHEMS/Pods/leveldb-library/db/version_set.cc:671-715 | The saved version lists exactly the live files, in order, at every level |
| Builders.SaveLevel | SHEMS/Pods/leveldb-library/db/version_set.cc:676-697 | Merging base and added files skips the deleted ones and yields the ordered list of the rest |
| Builders.ApplyEdit | SHEMS/Pods/leveldb-library/db/version_set.cc:777-803 | One edit over a version gives its files without the deleted and with the added ones, in order |
| Builders.Replay | SHEMS/Pods/leveldb-library/db/version_set.cc:900-923 | Applying a run of edits to one builder over the empty version and saving once gives the very version that one builder per edit gave last |
| Catalog.EditReplaces | SHEMS/Pods/leveldb-library/db/version_set.cc:1501-1507 | The edit of a compaction replaces exactly the input files by the outputs, level by level, when numbers are unique |
| Catalog.ReplacedCatalogued | SHEMS/Pods/leveldb-library/db/version_set.cc:666-667 | File numbers stay unique across levels after a compaction |
| Catalog.EditFlushes | SHEMS/Pods/leveldb-library/db/db_impl.cc:526-535 | The edit of a flush adds exactly the table, and numbers stay unique |
| Catalog.MovedCatalogued | SHEMS/Pods/leveldb-library/db/db_impl.cc:731-734 | File numbers stay unique after a trivial move, which deletes and adds one number |
| Catalog.MoveKeepsEntries | SHEMS/Pods/leveldb-library/db/db_impl.cc:731-734 | A trivial move changes no entry of the version |
| VersionEdits.VersionEdit.Clear | SHEMS/Pods/leveldb-library/db/version_edit.cc:26-39 | Empties every field except the compaction pointers, which stay |
| VersionEdits.VersionEdit.RemoveFile | SHEMS/Pods/leveldb-library/db/version_edit.h:86-88 | The deleted files stay an ordered set with exactly the file added |
| VersionEdits.VersionEdit.EncodeTo | SHEMS/Pods/leveldb-library/db/version_edit.cc:41-84 | Appends the encodings of exactly the fields that are set, in the order of the format |
| VersionEdits.VersionEdit.DecodeFrom | SHEMS/Pods/leveldb-library/db/version_edit.cc:105-203 | Succeeds exactly on bytes that are a sequence of well-formed fields, and then holds what they say on top of the old compaction pointers; for bytes that were encoded the round-trip lemma says what that is |
| VersionEdits.TakesItem | SHEMS/Pods/leveldb-library/db/version_edit.cc:118-192 | Each of the eight fields is parsed back from its encoding, whatever follows |
| VersionEdits.EditRoundTrip | SHEMS/Pods/leveldb-library/db/version_edit.cc:41-203 | Decoding an encoded edit gives it back, after the compaction pointers that the decoding edit already had |
| VersionEdits.InsertKeepsOrder | SHEMS/Pods/leveldb-library/db/version_edit.cc:171 | Insertion into the set of deleted files keeps order and adds exactly the pair |
| Manifests.DecodesTo | SHEMS/Pods/leveldb-library/db/version_set.cc:910-911 | A MANIFEST record decoded into a new edit is the edit that was recorded |
| Manifests.ApplyDecoded | SHEMS/Pods/leveldb-library/db/version_set.cc:921-923 | After each decoded edit the builder's live files are those of the version that edit had installed |
| Manifests.SaveCaught | SHEMS/Pods/leveldb-library/db/version_set.cc:966-968 | Saving gives that version itself |
| Manifests.Recover | SHEMS/Pods/leveldb-library/db/version_set.cc:862-987 | From any byte prefix of a MANIFEST, recovery gives the version and numbers after exactly the edits that survived whole, the file counter being the recorded one plus one whatever log numbers were marked before; it fails exactly when one of these names another comparator or together they leave a number unset |
| Commits.FileIsNamed | SHEMS/Pods/leveldb-library/db/version_set.cc:777-860 | Every file of a version that the records of a MANIFEST make was named by one of them |
| Commits.Recording | SHEMS/Pods/leveldb-library/db/version_set.cc:777-860 | One more edit whose new files have numbers never recorded makes the next version, with every number still naming one file over the whole MANIFEST |
| Commits.SnapshotMakes | SHEMS/Pods/leveldb-library/db/version_set.cc:1064-1092 | The snapshot that opens a new MANIFEST makes the current version out of nothing |
| Commits.ReopenedOk | SHEMS/Pods/leveldb-library/db/version_set.cc:802-816 | A snapshot followed by the edit of a recovery makes the recovered version, and all numbers in it are unique |
| Commits.EditedIsUnique | SHEMS/Pods/leveldb-library/db/version_set.cc:794-803 | An edit makes only one version of another |
| Commits.LastNumbers | SHEMS/Pods/leveldb-library/db/version_set.cc:925-946 | The numbers recovery ends with are those of the last record |
| Commits.ReadManifest | SHEMS/Pods/leveldb-library/db/version_set.cc:862-987 | Reading a MANIFEST of which every record but perhaps the last is whole gives the version and numbers before the last commit, or after it exactly when its record is whole |
| Interleavings.FlushesKeep | SHEMS/Pods/leveldb-library/db/db_impl.cc:917-928 | Flushes in the middle of a compaction keep the level invariant and add their tables and nothing else |
| Interleavings.InstallOverFlushes | SHEMS/Pods/leveldb-library/db/db_impl.cc:868-885 | Outputs of a pick, installed over a version that has taken flushes since, keep the level invariant if and only if no table flushed to the output level meets an output |
| Interleavings.LateReads | SHEMS/Pods/leveldb-library/db/db_impl.cc:917-928 | Whatever was flushed in between, the installed version reads like the current one at and above the smallest snapshot, but for the reads the pick spoils and no table flushed meanwhile decides |
| Interleavings.GaplessIsClear | SHEMS/Pods/leveldb-library/db/version_set.cc:470-495 | Between inputs that leave no gap no table can be flushed to the output level where an output will be |
| Interleavings.GaplessInstalls | SHEMS/Pods/leveldb-library/db/version_set.cc:1247-1299 | So what PickCompaction picks keeps level invariant and reads when installed over any flushes |
| LostKeys.FlushedKeyIsHidden | SHEMS/Pods/leveldb-library/db/version_set.cc:1441-1473 | A concrete manual compaction, flush and install, each as the code does it, after which the output level has overlapping tables and no longer meets the level invariant, while the flushed value is still among the entries |
| LostKeys.PickIsMade | SHEMS/Pods/leveldb-library/db/version_set.cc:1441-1473 | The inputs of this case are exactly those of a manual compaction of everything, for every byte limit |
| LostKeys.SearchMisses | SHEMS/Pods/leveldb-library/db/version_set.cc:304-321 | There the source puts the memtable at level 2 for every byte limit, and afterwards the binary search for the flushed key names a table that has no entry of it |
| Recoveries.WholeIsReadable | SHEMS/Pods/leveldb-library/db/log_reader.cc:56-174 | What the log reader delivers of a cut-off log is the groups whose records lie wholly in the bytes |
| Recoveries.InsertRecord | SHEMS/Pods/leveldb-library/db/db_impl.cc:433-448 | A record read back puts each operation of its group into the memtable at its own sequence number, and gives the last of them |
| Recoveries.ReplayRecords | SHEMS/Pods/leveldb-library/db/db_impl.cc:425-485 | Wherever memtables are full, together they hold the groups' entries in order, and the maximum is the greatest last sequence number |
| Recoveries.RecoverLogFile | SHEMS/Pods/leveldb-library/db/db_impl.cc:380-498 | From any byte prefix of a log: the memtables hold, in order, exactly the groups whose records are whole, the maximum takes in exactly these, and no corruption is found |
| Recoveries.SortNumbers | SHEMS/Pods/leveldb-library/db/db_impl.cc:358-359 | The log numbers found, each once, in rising order |
| Recoveries.Recover | SHEMS/Pods/leveldb-library/db/db_impl.cc:288-378 | Exactly the logs that the MANIFEST still needs are replayed, in number order; the last sequence is the greatest of the recorded one and all replayed ones; no number of a replayed log is given out again |
| Recoveries.ReplayedEntries | SHEMS/Pods/leveldb-library/db/db_impl.cc:439 | The replayed memtables hold the entries of the read groups and nothing else |
| Durability.FreshDatabase | SHEMS/Pods/leveldb-library/db/db_impl.cc:181-211 | A new database meets the invariant of the crash machine |
| Durability.StepKeepsInv | SHEMS/Pods/leveldb-library/db/db_impl.cc:222-575 | Every step of logging, storing and acknowledging a group, switching memtables, flushing (alone or inside a compaction, also after an error there), compacting, committing to the MANIFEST, giving up old versions and collecting at the end of a flush or compaction, failing, deleting files one at a time, crashing and recovering keeps the invariant: the immutable memtable is the content of the logs before the current one, the memtable and a group on its way to it are that of the current log, sequence numbers rise, the records of the MANIFEST make the durable version and numbers, and the durable tables read like everything flushed but for the reads that committed compactions have spoiled |
| Durability.RunKeepsInv | SHEMS/Pods/leveldb-library/db/db_impl.cc:222-575 | So it holds at every step of every run, through any number of crashes |
| Durability.NothingIsLost | SHEMS/Pods/leveldb-library/db/db_impl.cc:288-378 | At every moment, in any mode, the tables of the durable MANIFEST and the bytes of the logs it still needs hold every acknowledged write: what recovery would find reads like everything not lost, but for reads that a committed compaction has spoiled and no logged write decides |
| Durability.WholeOrNotAtAll | SHEMS/Pods/leveldb-library/db/db_impl.cc:1222-1227 | A crash that cuts the current log anywhere in the record in flight keeps every acknowledged group, and of the one in flight all or nothing: all if and only if every byte of its record survives |
| Durability.AppendedStays | SHEMS/Pods/leveldb-library/db/db_impl.cc:222-575 | No step but a crash loses anything that was appended; an append adds its whole group and nothing else adds |
| Durability.RecoveryReadsAll | SHEMS/Pods/leveldb-library/db/db_impl.cc:288-378 | Once recovery has committed, the tables alone read like everything not lost (spoiled reads apart), and the recovered last sequence number is at or above all of it |
| Durability.MemoryReadsAll | SHEMS/Pods/leveldb-library/db/db_impl.cc:1110-1155 | While running without an error, memtable, immutable memtable and current version together read like everything appended, but for spoiled reads that no memtable decides |
| Durability.ImmFacts | SHEMS/Pods/leveldb-library/db/db_impl.cc:1356-1376 | The immutable memtable is newer than every table and older than the current log, and its sequence numbers are taken |
| Durability.FlushMakes | SHEMS/Pods/leveldb-library/db/db_impl.cc:544-566 | The edit of a flush makes a version that meets the level invariant and has exactly the table in addition |
| Durability.CompactionMakes | SHEMS/Pods/leveldb-library/db/db_impl.cc:868-885 | Outputs installed over the current version, flushes since the pick included, keep the level invariant if and only if no table flushed to the output level meets one of them; in any case file numbers stay unique, no entry is added, and no read for live readers changes but those the pick spoils |
| Durability.GaplessMayInstall | SHEMS/Pods/leveldb-library/db/version_set.cc:1247-1299 | A compaction picked by the store itself always meets the condition for installing it, whatever was flushed meanwhile |
| Durability.FlushCommits | SHEMS/Pods/leveldb-library/db/version_set.cc:777-860 | Once the record of a flush is in the MANIFEST, its table stands for the logs the record gives up, whether LogAndApply reports success or not |
| Durability.BuiltTableStays | SHEMS/Pods/leveldb-library/db/db_impl.cc:522 | From the end of its build until its commit a flushed table is neither pending nor in any version, so that a collection would delete it; it is there all the same in every reachable state, because only the thread about to commit it collects files |
| Durability.OnlyGarbageIsRemoved | SHEMS/Pods/leveldb-library/db/db_impl.cc:222-286 | Deleting files while other threads go on removes no table of a live version, of the durable version, of pending output or of a compaction under way, and no log recovery needs |
| Durability.InputsAreCollected | SHEMS/Pods/leveldb-library/db/db_impl.cc:743-750 | The collection that ends a compaction deletes each of its input tables exactly when no version still in use has it; once all old versions are given up it deletes all of them |
| Durability.NoTableIsMissing | SHEMS/Pods/leveldb-library/db/db_impl.cc:334-355 | Recovery never finds a table of the MANIFEST missing |
| Durability.EditsApply | SHEMS/Pods/leveldb-library/db/version_set.cc:794-803 | The edit of every commit names only files that are new to the version under numbers of their own, so that the builder of LogAndApply can apply it |
| Durability.NewDatabaseOpens | SHEMS/Pods/leveldb-library/db/db_impl.cc:1477-1510 | From a new database recovery, opening and a first append are steps of the machine |
| Durability.OpenedOk | SHEMS/Pods/leveldb-library/db/db_impl.cc:1477-1510 | When all logs are replayed and their tables recorded, the disk is complete without these logs |
| Durability.ReplaysLikeTheSource | SHEMS/Pods/leveldb-library/db/db_impl.cc:380-498 | What the recovery steps replay is what Recoveries.Recover puts into its memtables |
| Durability.ReadDurableManifest | SHEMS/Pods/leveldb-library/db/version_set.cc:862-987 | Reading the bytes of the durable MANIFEST gives exactly the version and numbers recovery starts from; of a commit being written, the state before it, or after it exactly when its record is whole |
| Durability.NamingInstalls | SHEMS/Pods/leveldb-library/db/version_set.cc:777-860 | The record of every flush, compaction and move can be appended to the MANIFEST: its new files have numbers that no record ever named |
| Durability.JoinReads | SHEMS/Pods/leveldb-library/db/db_impl.cc:1135-1144 | Newer entries on top of two sets that read alike still read alike |
| GroupCommits.BuildBatchGroup | SHEMS/Pods/leveldb-library/db/db_impl.cc:1269-1316 | The group is the longest prefix of the queue that the sync and size rules allow, and its batch is the writers' batches in order |
| GroupCommits.SyncRidesOnlyWithSync | SHEMS/Pods/leveldb-library/db/db_impl.cc:1290-1293 | A sync write never rides in the group of a leader that does not sync |
| GroupCommits.RequestForRoomRides | SHEMS/Pods/leveldb-library/db/db_impl.cc:1286-1313 | For every queue: a request without a batch that waits behind a write is in the write's group if and only if nothing up to it stops the group; it stops the group itself if and only if it asks for a sync and the write does not; it adds no operation and no bytes |
| GroupCommits.RoomRidesBehindWrite | SHEMS/Pods/leveldb-library/db/db_impl.cc:1295-1313 | Such a queue: the write's group takes the request in |
| GroupCommits.OnlyLeadersMakeRoom | SHEMS/Pods/leveldb-library/db/db_impl.cc:1195-1266 | Over every interleaving: an answered writer went through MakeRoomForWrite itself if and only if it was the first of its group; a request without a batch that was first is alone in its group, and one that was not is answered with the group of a write |
| GroupCommits.BatchInGroup | SHEMS/Pods/leveldb-library/db/db_impl.cc:1295-1313 | Each writer's batch is one contiguous stretch of its group's batch, at the place its queue position gives it |
| GroupCommits.StepKeepsInv | SHEMS/Pods/leveldb-library/db/db_impl.cc:1195-1266 | Every step of the writer queue keeps the invariant |
| GroupCommits.RunKeepsInv | SHEMS/Pods/leveldb-library/db/db_impl.cc:1195-1266 | So it holds over every interleaving |
| GroupCommits.LeavesOnce | SHEMS/Pods/leveldb-library/db/db_impl.cc:1249-1263 | Each writer leaves the queue exactly once, with the status of the group that held it, which never changes |
| GroupCommits.InOneGroup | SHEMS/Pods/leveldb-library/db/db_impl.cc:1269-1316 | Every answered writer is in exactly one group |
| GroupCommits.AnswerIsGroups | SHEMS/Pods/leveldb-library/db/db_impl.cc:1249-1263 | Every answer is the status of the group the writer was in |
| GroupCommits.RangesDisjoint | SHEMS/Pods/leveldb-library/db/db_impl.cc:1212-1217 | Groups take disjoint sequence ranges in queue order |
| GroupCommits.AllOrNone | SHEMS/Pods/leveldb-library/db/db_impl.cc:1233-1246 | A reader at any last sequence sees all or none of each group, and all of an acknowledged one it sees any of |
| GroupCommits.VisibleIsFinished | SHEMS/Pods/leveldb-library/db/db_impl.cc:1233-1246 | What a reader sees belongs to finished groups |
| GroupCommits.FailedSyncKills | SHEMS/Pods/leveldb-library/db/db_impl.cc:1237-1242 | A failed sync puts the database in the dead state |
| GroupCommits.DeadStaysDead | SHEMS/Pods/leveldb-library/db/db_impl.cc:1326-1329 | In the dead state nothing is logged or stored any more and every later writer fails |
| WriteBatches.WriteBatch.Put | SHEMS/Pods/leveldb-library/db/write_batch.cc:98-103 | Appends one put and bumps the count in place |
| WriteBatches.WriteBatch.Delete | SHEMS/Pods/leveldb-library/db/write_batch.cc:105-109 | Appends one deletion and bumps the count in place |
| WriteBatches.WriteBatch.Append | SHEMS/Pods/leveldb-library/db/write_batch.cc:144-148 | The batch holds its ops and then those of the source, also when that is the batch itself |
| WriteBatches.WriteBatch.SetSequence | SHEMS/Pods/leveldb-library/db/write_batch.cc:94-96 | Changes the sequence number in place and nothing else |
| WriteBatches.WriteBatch.Sequence | SHEMS/Pods/leveldb-library/db/write_batch.cc:90-92 | Reads the number set last |
| WriteBatches.WriteBatch.Count | SHEMS/Pods/leveldb-library/db/write_batch.cc:82-84 | The number of ops, as a signed 32-bit number |
| WriteBatches.Iterate | SHEMS/Pods/leveldb-library/db/write_batch.cc:42-80 | For any bytes, hands on the records before the first bad one, and succeeds exactly when all are good and as many as the count |
| WriteBatches.RecordParses | SHEMS/Pods/leveldb-library/db/write_batch.cc:55-70 | A record is parsed back, whatever follows |
| WriteBatches.BatchRoundTrip | SHEMS/Pods/leveldb-library/db/write_batch.cc:42-109 | Iterating a built batch hands on exactly its ops in order, and succeeds if and only if there are fewer than 2^31 of them |
| WriteBatches.InsertInto | SHEMS/Pods/leveldb-library/db/write_batch.cc:116-137 | Every op of the batch enters the memtable under the next sequence number |
| WriteBatches.InsertedEntries | SHEMS/Pods/leveldb-library/db/write_batch.cc:116-137 | Those entries are the ones the store model writes for the batch |
| WriteBatches.MemtableEntryParses | SHEMS/Pods/leveldb-library/db/memtable.cc:76-135 | Key and value are cut out of a memtable entry as they were put in |
| DBIters.YieldsAreReads | SHEMS/Pods/leveldb-library/db/db_iter.cc:141-308 | The entries the cursor may stand on are exactly one for each user key whose read at the snapshot is a value, with that value, in key order |
| DBIters.DBIter.FindNextUserEntry | SHEMS/Pods/leveldb-library/db/db_iter.cc:177-207 | Stops at the first entry to yield past the skipped key, or at the end |
| DBIters.DBIter.FindPrevUserEntry | SHEMS/Pods/leveldb-library/db/db_iter.cc:236-275 | Stops at the last entry to yield before the position, or at the start |
| DBIters.DBIter.Next | SHEMS/Pods/leveldb-library/db/db_iter.cc:141-175 | Moves to the next readable user key, also right after moving backward |
| DBIters.DBIter.Prev | SHEMS/Pods/leveldb-library/db/db_iter.cc:209-234 | Moves to the previous readable user key, also right after moving forward |
| DBIters.DBIter.Seek | SHEMS/Pods/leveldb-library/db/db_iter.cc:278-290 | Stands on the first readable user key at or after the target |
| DBIters.DBIter.SeekToFirst | SHEMS/Pods/leveldb-library/db/db_iter.cc:292-301 | Stands on the first readable user key |
| DBIters.DBIter.SeekToLast | SHEMS/Pods/leveldb-library/db/db_iter.cc:303-308 | Stands on the last readable user key |
| Mergers.MergedHas | SHEMS/Pods/leveldb-library/table/merger.cc:13-18 | The merged run has exactly the children's entries |
| Mergers.MergedSorted | SHEMS/Pods/leveldb-library/table/merger.cc:13-18 | The merged run of sorted children with distinct keys is sorted |
| Iterations.LevelIsTwoLevel | SHEMS/Pods/leveldb-library/db/version_set.cc:163-227 | The concatenating iterator of a sorted level, files indexed by their largest keys, walks the entries of its files one after another in order |
| Iterations.ChildrenMerge | SHEMS/Pods/leveldb-library/db/db_impl.cc:1072-1087 | Memtables, level-0 tables and one run for every other level merge into one sorted run of exactly the stored entries |
| Iterations.ScanShowsReads | SHEMS/Pods/leveldb-library/db/db_impl.cc:1072-1097 | A scan of the database at a live snapshot stands once on every user key for which the history of writes reads a value, with that value, in key order; only spoiled reads may differ |
| Iterations.AddIterators | SHEMS/Pods/leveldb-library/db/version_set.cc:229-245 | One iterator for every level-0 table and one for every other level that has files, in the order of the merged children |
| Iterations.NewInternalIterator | SHEMS/Pods/leveldb-library/db/db_impl.cc:1072-1097 | The merging iterator over memtables and version walks the merged run of all children |
| Iterations.NewIterator | SHEMS/Pods/leveldb-library/db/db_impl.cc:1157-1167 | A database iterator that is not valid yet, over that merging iterator, at the snapshot |
| Iterations.Scan | SHEMS/Pods/leveldb-library/db/db_iter.cc:141-175 | The loop from SeekToFirst by Next over a merging iterator shows exactly the entries to yield, each once and in order |
| Iterations.ScanAt | SHEMS/Pods/leveldb-library/include/leveldb/db.h:90-101 | A client that scans the database at a live snapshot gets exactly the user keys that the history of writes has a value for there, once and in order, with that value; only spoiled reads may differ |
| DBIters.DBIter.Key | SHEMS/Pods/leveldb-library/db/db_iter.cc:64-67 | In either direction, the user key of the entry the cursor stands on |
| DBIters.DBIter.Value | SHEMS/Pods/leveldb-library/db/db_iter.cc:68-71 | In either direction, that entry's value |
| Mergers.MergingIterator.Key | SHEMS/Pods/leveldb-library/table/merger.cc:110-113 | The key at the iterator's place in the merged run |
| Mergers.MergingIterator.Value | SHEMS/Pods/leveldb-library/table/merger.cc:115-118 | The value at that place |
| Mergers.MergingIterator.FindSmallest | SHEMS/Pods/leveldb-library/table/merger.cc:148-161 | With every child at or after a place of the merged run, the current child stands on that place |
| Mergers.MergingIterator.FindLargest | SHEMS/Pods/leveldb-library/table/merger.cc:163-176 | With every child before a place, the current child stands just before it |
| Mergers.MergingIterator.SeekToFirst | SHEMS/Pods/leveldb-library/table/merger.cc:31-37 | Stands at the start of the merged run |
| Mergers.MergingIterator.SeekToLast | SHEMS/Pods/leveldb-library/table/merger.cc:39-45 | Stands at its end |
| Mergers.MergingIterator.Seek | SHEMS/Pods/leveldb-library/table/merger.cc:47-53 | Stands at the first merged entry at or after the target |
| Mergers.MergingIterator.Next | SHEMS/Pods/leveldb-library/table/merger.cc:55-79 | One place forward in the merged run, all other children after the key |
| Mergers.MergingIterator.Prev | SHEMS/Pods/leveldb-library/table/merger.cc:81-108 | One place back in the merged run, all other children before the key |
| Mergers.MergingIterator.SwitchForward | SHEMS/Pods/leveldb-library/table/merger.cc:64-75 | The direction switch puts every other child after the current key and keeps the place |
| Mergers.MergingIterator.SwitchReverse | SHEMS/Pods/leveldb-library/table/merger.cc:90-104 | The direction switch puts every other child before the current key and keeps the place |
| Mergers.Drain | SHEMS/Pods/leveldb-library/db/db_impl.cc:904-1009 | What a compaction loop reads from the iterator is the whole merged run |
| TwoLevels.SeekPlace | SHEMS/Pods/leveldb-library/table/two_level_iterator.cc:82-87 | Seeking in the index and then in the block it names is seeking in the concatenation of the blocks |
| TwoLevels.FlatSorted | SHEMS/Pods/leveldb-library/table/two_level_iterator.cc:63-67 | Blocks under separating index keys form one sorted run |
| TwoLevels.TwoLevelIterator.Key | SHEMS/Pods/leveldb-library/table/two_level_iterator.cc:32-35 | The key at the iterator's place in the concatenation |
| TwoLevels.TwoLevelIterator.Value | SHEMS/Pods/leveldb-library/table/two_level_iterator.cc:36-39 | The value at that place |
| TwoLevels.TwoLevelIterator.InitDataBlock | SHEMS/Pods/leveldb-library/table/two_level_iterator.cc:146-161 | Keeps the block at hand when the index names it again, and otherwise opens the one it names |
| TwoLevels.TwoLevelIterator.SkipEmptyDataBlocksForward | SHEMS/Pods/leveldb-library/table/two_level_iterator.cc:115-126 | Skips empty blocks without moving in the concatenation |
| TwoLevels.TwoLevelIterator.SkipEmptyDataBlocksBackward | SHEMS/Pods/leveldb-library/table/two_level_iterator.cc:128-139 | Skips empty blocks to the entry before the block |
| TwoLevels.TwoLevelIterator.Seek | SHEMS/Pods/leveldb-library/table/two_level_iterator.cc:82-87 | Stands at the first entry of the concatenation at or after the target |
| TwoLevels.TwoLevelIterator.SeekToFirst | SHEMS/Pods/leveldb-library/table/two_level_iterator.cc:89-94 | Stands at its first entry |
| TwoLevels.TwoLevelIterator.SeekToLast | SHEMS/Pods/leveldb-library/table/two_level_iterator.cc:96-101 | Stands at its last entry |
| TwoLevels.TwoLevelIterator.Next | SHEMS/Pods/leveldb-library/table/two_level_iterator.cc:103-107 | One entry forward, over block ends and empty blocks |
| TwoLevels.TwoLevelIterator.Prev | SHEMS/Pods/leveldb-library/table/two_level_iterator.cc:109-113 | One entry back, over block ends and empty blocks |
| Bytewise.Trichotomy | SHEMS/Pods/leveldb-library/util/comparator.cc:27-29 | Byte order is a strict total order |
| Bytewise.RankIsOrder | SHEMS/Pods/leveldb-library/util/comparator.cc:27-29 | Byte strings embed in the reals with their order, both ways |
| Bytewise.Compare | SHEMS/Pods/leveldb-library/include/leveldb/slice.h:98-110 | Sign of the comparison is the order, zero exactly for equal strings |
| Bytewise.FindShortestSeparator | SHEMS/Pods/leveldb-library/util/comparator.cc:31-51 | Unchanged, or a string no longer than start and strictly between start and limit; which of the two is decided by the first different bytes |
| Bytewise.FindShortSuccessor | SHEMS/Pods/leveldb-library/util/comparator.cc:53-66 | A run of 0xff stays; any other key becomes the least of the shortest strings above it |
| InternalKeys.InternalKeyRoundTrip | SHEMS/Pods/leveldb-library/db/dbformat.h:169-181 | Encoding and parsing internal keys are inverse in both directions |
| InternalKeys.ComparatorIsOrder | SHEMS/Pods/leveldb-library/db/dbformat.cc:47-63 | The comparator on encoded keys is user key ascending, then sequence and type descending |
| InternalKeys.KeyBeforeIsStrict | SHEMS/Pods/leveldb-library/db/dbformat.cc:47-63 | It is a strict weak order on all strings |
| InternalKeys.Compare | SHEMS/Pods/leveldb-library/db/dbformat.cc:47-63 | Sign of the comparison is that order, zero exactly for equal keys |
| InternalKeys.FindShortestSeparator | SHEMS/Pods/leveldb-library/db/dbformat.cc:65-82 | Unchanged, or strictly between, shorter, with a user key strictly below limit's and the seek tag |
| InternalKeys.FindShortSuccessor | SHEMS/Pods/leveldb-library/db/dbformat.cc:84-97 | Unchanged, or above and shorter, with a greater user key and the seek tag |
| InternalKeys.LookupKeyIs | SHEMS/Pods/leveldb-library/db/dbformat.cc:117-134 | The memtable key parses to the internal key exactly below 4 GiB; that key precedes the entries of the user key not newer than s and follows every newer one |
| Blooms.Hash | SHEMS/Pods/leveldb-library/util/hash.cc:21-53 | The loop and tail compute the recursive hash for every length |
| Blooms.BitsOfWithBit | SHEMS/Pods/leveldb-library/util/bloom.cc:50 | Setting a bit sets that bit and no other |
| Blooms.SetProbes | SHEMS/Pods/leveldb-library/util/bloom.cc:45-52 | The inner loop sets exactly the bits that the key's probes hit |
| Blooms.CreateFilter | SHEMS/Pods/leveldb-library/util/bloom.cc:28-54 | After whatever was there, a filter of the right size in which a bit is set exactly when a probe of some key hits it, and the probe count |
| Blooms.KeyMayMatch | SHEMS/Pods/leveldb-library/util/bloom.cc:56-80 | For any bytes: no for short filters, yes for reserved encodings, otherwise whether all probed bits are set |
| Blooms.FilterAnswers | SHEMS/Pods/leveldb-library/util/bloom.cc:28-80 | A created filter answers yes exactly when every probe of the key is a probe of some added key |
| Blooms.NoFalseNegative | SHEMS/Pods/leveldb-library/util/bloom.cc:28-80 | Every added key is answered yes |
| FilterBlocks.FilterBlockBuilder.StartBlock | SHEMS/Pods/leveldb-library/table/filter_block.cc:21-27 | Makes filters up to the index of the offset; no key changes its filter |
| FilterBlocks.FilterBlockBuilder.AddKey | SHEMS/Pods/leveldb-library/table/filter_block.cc:29-33 | Adds the key to the filter of the last started block and to no other |
| FilterBlocks.FilterBlockBuilder.GenerateFilter | SHEMS/Pods/leveldb-library/table/filter_block.cc:51-75 | Appends the filter of exactly the pending keys, without their tags; nothing for no keys |
| FilterBlocks.FilterBlockBuilder.Finish | SHEMS/Pods/leveldb-library/table/filter_block.cc:35-49 | A filter block of all keys added, each in the filter of its block's offset |
| FilterBlocks.FilterBlockReader.KeyMayMatch | SHEMS/Pods/leveldb-library/table/filter_block.cc:90-104 | On a filter block, yes exactly past the last filter or when the offset's filter is not empty and all probes are hit |
| FilterBlocks.AddedMayMatch | SHEMS/Pods/leveldb-library/table/filter_block.cc:90-104 | A key added under an offset, and any key of its user key, may match there |
| Formats.HandleRoundTrip | SHEMS/Pods/leveldb-library/table/format.cc:15-29 | A block handle is parsed back, whatever follows |
| Formats.FooterRoundTrip | SHEMS/Pods/leveldb-library/table/format.cc:31-62 | Both handles are parsed back from the footer |
| Formats.DecodeHandle | SHEMS/Pods/leveldb-library/table/format.cc:23-29 | Parses a handle from any bytes, or refuses them |
| Formats.DecodeFooter | SHEMS/Pods/leveldb-library/table/format.cc:42-62 | Parses the footer, refusing a wrong magic number or bad handles |
| Formats.ReadBlock | SHEMS/Pods/leveldb-library/table/format.cc:64-139 | Returns a stored block, checksummed or not; with checksums, never bytes that do not match theirs |
| TableBuilders.TableBuilder.Add | SHEMS/Pods/leveldb-library/table/table_builder.cc:94-123 | Keeps the builder's invariant: every finished block stored and separated from the next by its index key, every key covered by the filter of its block's offset; no block is left unfinished at the target size |
| TableBuilders.TableBuilder.AddIndexEntry | SHEMS/Pods/leveldb-library/table/table_builder.cc:102-109 | The delayed index key is at or above its block and strictly below the key that follows |
| TableBuilders.TableBuilder.Flush | SHEMS/Pods/leveldb-library/table/table_builder.cc:125-139 | The block is stored at the handle its index entry will name, and the next one's filter is started |
| TableBuilders.TableBuilder.WriteRawBlock | SHEMS/Pods/leveldb-library/table/table_builder.cc:177-194 | Appends the bytes, the type and the masked checksum of both |
| TableBuilders.TableBuilder.Finish | SHEMS/Pods/leveldb-library/table/table_builder.cc:198-253 | The file is a table of exactly the entries added: data blocks, filter, metaindex, index and footer |
| TableBuilders.SeparatorSeparates | SHEMS/Pods/leveldb-library/table/table_builder.cc:50-57 | A shortest separator is at or above the whole block, below the next, and apart in user key unless it is a key of the block |
| TableBuilders.Assembled | SHEMS/Pods/leveldb-library/table/table_builder.cc:206-251 | The parts in the order written make a table |
| Blocks.BlockBuilder.CurrentSizeEstimate | SHEMS/Pods/leveldb-library/table/block_builder.cc:55-59 | The estimate is exactly the size of the finished block |
| Tables.IndexSorted | SHEMS/Pods/leveldb-library/table/table.cc:218-220 | Index keys are strictly increasing, so that the index block can be searched |
| Tables.FoundInBlock | SHEMS/Pods/leveldb-library/table/table.cc:228-232 | An entry found in the block the index names is the first at or after the key in the whole table |
| Tables.NotInBlock | SHEMS/Pods/leveldb-library/table/table.cc:228-232 | When that block has none, the first entry at or after the key has a greater user key |
| Tables.NoneRuledOut | SHEMS/Pods/leveldb-library/table/table.cc:222-226 | The filter rules a block out only if it holds no entry of the user key |
| Tables.Table.InternalGet | SHEMS/Pods/leveldb-library/table/table.cc:214-242 | Reports the first entry at or after k whenever that entry has k's user key, and never any other entry than the first at or after k |
| Tables.Open | SHEMS/Pods/leveldb-library/table/table.cc:38-80 | Opens every finished table, with its filter exactly when it was built with one and the options name a policy |
| Tables.ReadMeta | SHEMS/Pods/leveldb-library/table/table.cc:82-109 | Finds the filter block through the metaindex exactly when there is one |
| Tables.BuildAndGet | SHEMS/Pods/leveldb-library/table/table.cc:214-242 | Building, opening and asking is complete and correct for all entries in order, block sizes, restart intervals and filter settings |
| TableGets.SaveValue | SHEMS/Pods/leveldb-library/db/version_set.cc:262-275 | Of the entry found, a value or a deletion if it has the user key, nothing if it has another, and corruption if its key does not parse |
| TableGets.AnswerDecides | SHEMS/Pods/leveldb-library/db/version_set.cc:262-275 | What a table reports for a lookup key, run through SaveValue, is the read of the table's entries at the snapshot |
| TableGets.BuildAndMatch | SHEMS/Pods/leveldb-library/db/table_cache.cc:100-112 | From entries to file bytes to the answer: building, opening, asking for a user key at a snapshot and SaveValue give what Versions.Match gives for a table of these entries |
| TableRuns.TableIsTwoLevel | SHEMS/Pods/leveldb-library/table/table.cc:208-212 | A finished table meets what the two-level iterator requires, and the run it walks is the entries added, in order |
| Blocks.RestartsEvery | SHEMS/Pods/leveldb-library/table/block_builder.cc:77-87 | Restart points come every interval entries, for every interval |
| Blocks.BlockBuilder.Add | SHEMS/Pods/leveldb-library/table/block_builder.cc:71-105 | Appends the entry with exactly its shared prefix left out, and a restart point when one is due |
| Blocks.BlockBuilder.Finish | SHEMS/Pods/leveldb-library/table/block_builder.cc:61-69 | The bytes of the block of the entries added, with its restart array |
| Blocks.DecodeEntry | SHEMS/Pods/leveldb-library/table/block.cc:55-75 | Parses the three sizes of an entry from any bytes, one-byte sizes included, or refuses them |
| Blocks.EntryDecodes | SHEMS/Pods/leveldb-library/table/block.cc:225-252 | At the offset of each entry of a finished block its sizes, key suffix and value are found |
| Blocks.Iter.ParseNextKey | SHEMS/Pods/leveldb-library/table/block.cc:225-252 | On a finished block, moves to the next entry with its whole key rebuilt, and reports the end only at the end |
| Blocks.Iter.Next | SHEMS/Pods/leveldb-library/table/block.cc:137-140 | One entry forward |
| Blocks.Iter.Prev | SHEMS/Pods/leveldb-library/table/block.cc:142-161 | One entry back, through the restart point before it |
| Blocks.Iter.FindRestart | SHEMS/Pods/leveldb-library/table/block.cc:171-193 | The binary search ends at a restart point whose key is before the target, or the first |
| Blocks.Iter.Seek | SHEMS/Pods/leveldb-library/table/block.cc:163-201 | Stands on the first entry at or after the target, under any transitive order the entries are sorted by |
| Blocks.Iter.SeekToFirst | SHEMS/Pods/leveldb-library/table/block.cc:203-206 | Stands on the first entry |
| Blocks.Iter.SeekToLast | SHEMS/Pods/leveldb-library/table/block.cc:208-213 | Stands on the last entry |
| Blocks.NewIterator | SHEMS/Pods/leveldb-library/table/block.cc:254-265 | An iterator for every finished block; none for bytes without a restart array |
| Blocks.ReadBlock | SHEMS/Pods/leveldb-library/table/block.cc:137-252 | Walking a finished block forward yields exactly the pairs added |
| Codings.FixedRoundTrip | SHEMS/Pods/leveldb-library/util/coding.h:54-103 | Decoding a fixed-width encoding gives the value modulo the width |
| Codings.FixedParse | SHEMS/Pods/leveldb-library/util/coding.h:81-103 | Encoding what was decoded gives the bytes back |
| Codings.EncodeFixed32 | SHEMS/Pods/leveldb-library/util/coding.h:54-62 | The four bytes, least significant first |
| Codings.DecodeFixed32 | SHEMS/Pods/leveldb-library/util/coding.h:81-89 | The value of the first four bytes |
| Codings.VarintRoundTrip | SHEMS/Pods/leveldb-library/util/coding.cc:21-131 | A varint is parsed back, whatever follows, and every cut-off varint is refused |
| Codings.Varint32Fits | SHEMS/Pods/leveldb-library/util/coding.cc:49-53 | 32-bit values take at most five bytes |
| Codings.Varint64Fits | SHEMS/Pods/leveldb-library/util/coding.cc:66-70 | 64-bit values take at most ten bytes |
| Codings.EncodeVarint32 | SHEMS/Pods/leveldb-library/util/coding.cc:21-47 | The five branches write the varint |
| Codings.EncodeVarint64 | SHEMS/Pods/leveldb-library/util/coding.cc:55-64 | The loop writes the varint |
| Codings.GetVarint | SHEMS/Pods/leveldb-library/util/coding.cc:86-131 | Both parsers, byte limit and dropped high bits included, for any bytes |
| Codings.PrefixedRoundTrip | SHEMS/Pods/leveldb-library/util/coding.cc:72-164 | A length-prefixed slice is parsed back if and only if it is under 4 GiB, and every cut-off one is refused |
| Codings.GetLengthPrefixedSlice | SHEMS/Pods/leveldb-library/util/coding.cc:155-164 | Slice and rest, or a refusal, for any bytes |
| Crcs.StepIs | SHEMS/Pods/leveldb-library/util/crc32c.cc:287-292 | A table step is eight steps of the bitwise polynomial division |
| Crcs.StrideIs | SHEMS/Pods/leveldb-library/util/crc32c.cc:294-301 | A stride is the image of sixteen zero bytes, with the next word added |
| Crcs.Rotate | SHEMS/Pods/leveldb-library/util/crc32c.cc:303-311 | Striding one word on and rotating the four partial results feeds the word |
| Crcs.FoldWord | SHEMS/Pods/leveldb-library/util/crc32c.cc:313-323 | Four table steps feed a word |
| Crcs.Combine | SHEMS/Pods/leveldb-library/util/crc32c.cc:361-366 | The four partial results join to the checksum of the interleaved words |
| Crcs.Extend | SHEMS/Pods/leveldb-library/util/crc32c.cc:276-377 | For every length, address alignment and initial value the strided loop computes the byte-at-a-time CRC-32C (section 12.1 of RFC 3720) |
| Crcs.ExtendConcat | SHEMS/Pods/leveldb-library/util/crc32c.h:12-17 | Extending over a concatenation is extending twice |
| Crcs.CheckValue | SHEMS/Pods/leveldb-library/util/crc32c.cc:267-274 | The checksum of "TestCRCBuffer" is the value the acceleration check compares with |
| Crcs.MaskInverse | SHEMS/Pods/leveldb-library/util/crc32c.h:28-38 | Mask and unmask are inverse, both ways |
| Logs.Writer.EmitPhysicalRecord | SHEMS/Pods/leveldb-library/db/log_writer.cc:82-108 | Appends header and payload, and counts them in the block |
| Logs.Writer.SwitchBlock | SHEMS/Pods/leveldb-library/db/log_writer.cc:41-53 | Fills the rest of a block too small for a header with zeros |
| Logs.Writer.AddRecord | SHEMS/Pods/leveldb-library/db/log_writer.cc:34-80 | Appends the fragments of the record for its place, the empty first fragment before exactly seven left bytes and empty records included |
| Logs.WriteAll | SHEMS/Pods/leveldb-library/db/log_writer.cc:34-80 | Records added one by one, also after reopening, make the log of all of them |
| Logs.Reader.FindHeader | SHEMS/Pods/leveldb-library/db/log_reader.cc:189-215 | Reads on over a block trailer to the next header, or to the end of the file |
| Logs.Reader.CheckFragment | SHEMS/Pods/leveldb-library/db/log_reader.cc:231-268 | A fragment with a matching checksum is delivered as it stands, with no corruption |
| Logs.Reader.ReadPhysicalRecord | SHEMS/Pods/leveldb-library/db/log_reader.cc:189-271 | The next fragment of the log, or the end where the file is cut off inside it, with no corruption |
| Logs.Reader.ReadRecord | SHEMS/Pods/leveldb-library/db/log_reader.cc:56-174 | The next record if the file holds all of it, and otherwise the end, with no corruption |
| Logs.ReadAll | SHEMS/Pods/leveldb-library/db/log_reader.cc:56-271 | From any byte prefix of the log of any records the reader gets exactly the records wholly in it, in order, and reports no corruption |
| SkipLists.SkipList.FindGreaterOrEqual | SHEMS/Pods/leveldb-library/db/skiplist.h:262-281 | The least key at or after the target, and on every level the node before it |
| SkipLists.SkipList.FindLessThan | SHEMS/Pods/leveldb-library/db/skiplist.h:284-302 | The latest node before the key |
| SkipLists.SkipList.FindLast | SHEMS/Pods/leveldb-library/db/skiplist.h:304-322 | The last node |
| SkipLists.SkipList.Insert | SHEMS/Pods/leveldb-library/db/skiplist.h:337-368 | The key joins exactly the levels below its height; every level stays sorted and a sublist of the one below |
| SkipLists.SkipList.Publish | SHEMS/Pods/leveldb-library/db/skiplist.h:366 | Linking one level adds the key to that level only |
| SkipLists.SkipList.Contains | SHEMS/Pods/leveldb-library/db/skiplist.h:370-378 | True exactly for keys in the list |
| SkipLists.Iterator.Next | SHEMS/Pods/leveldb-library/db/skiplist.h:206-210 | The key after the current one |
| SkipLists.Iterator.Prev | SHEMS/Pods/leveldb-library/db/skiplist.h:212-221 | The key before the current one, or none |
| SkipLists.Iterator.Seek | SHEMS/Pods/leveldb-library/db/skiplist.h:223-226 | The least key at or after the target |
| SkipLists.Iterator.SeekToFirst | SHEMS/Pods/leveldb-library/db/skiplist.h:228-231 | The first key |
| SkipLists.Iterator.SeekToLast | SHEMS/Pods/leveldb-library/db/skiplist.h:233-239 | The last key |
| SkipLists.StepKeepsInv | SHEMS/Pods/leveldb-library/db/skiplist.h:337-368 | Each single load of a reader, in a search or in an iterator's step, and each single store of the writer keeps every level a sorted sublist of the one below and every reader on a linked node, in a search before its target |
| SkipLists.RunKeepsInv | SHEMS/Pods/leveldb-library/db/skiplist.h:337-368 | So over every interleaving, and no key is ever lost |
| SkipLists.SearchIsExact | SHEMS/Pods/leveldb-library/db/skiplist.h:262-322 | A search that ends with a load leads, in the list of that moment, to the least key at or after its target (Seek), the greatest key before it (Prev) or the last key (SeekToLast), whatever was inserted meanwhile |
| SkipLists.NextIsExact | SHEMS/Pods/leveldb-library/db/skiplist.h:206-210 | The one load of Next leads to the first key after the iterator's in the list of that moment |
| SkipLists.FirstIsExact | SHEMS/Pods/leveldb-library/db/skiplist.h:228-231 | The one load of SeekToFirst leads to the first key of that moment |
| SkipLists.ScanMeets | SHEMS/Pods/leveldb-library/db/skiplist.h:206-210 | A scan forward to the end, with any insertions on the way, comes by every later key that was there when it began |
| SkipLists.ScanBackMeets | SHEMS/Pods/leveldb-library/db/skiplist.h:212-221 | So does a scan backward, which searches anew for every key |
| SkipLists.KeysStay | SHEMS/Pods/leveldb-library/db/skiplist.h:20-22 | No step removes a key |
| SkipLists.PresentKeyIsFound | SHEMS/Pods/leveldb-library/db/skiplist.h:262-281 | A key present when a search began is where the search for it leads |
| Rings.Unlink | SHEMS/Pods/leveldb-library/util/cache.cc:239-242 | Taking an item out leaves the ring of the others, and touches no other links |
| Rings.Append | SHEMS/Pods/leveldb-library/util/cache.cc:244-250 | Putting an item before the head makes it the newest of the ring, and touches no other links |
| Snapshots.SnapshotList.New | SHEMS/Pods/leveldb-library/db/snapshot.h:57-70 | The new snapshot is the newest; the list stays in order |
| Snapshots.SnapshotList.Delete | SHEMS/Pods/leveldb-library/db/snapshot.h:79-86 | Exactly that snapshot leaves the list |
| Snapshots.SnapshotList.Oldest | SHEMS/Pods/leveldb-library/db/snapshot.h:47-50 | The first of the list, with the least sequence number of all live snapshots |
| Snapshots.SnapshotList.Newest | SHEMS/Pods/leveldb-library/db/snapshot.h:51-54 | The last of the list, with the greatest |
| Snapshots.SnapshotList.Empty | SHEMS/Pods/leveldb-library/db/snapshot.h:46 | Whether there is any snapshot |
| Caches.HandleTable.FindPointer | SHEMS/Pods/leveldb-library/util/cache.cc:115-121 | The slot of the entry with the key, or the trailing slot of its bucket when there is none in the table |
| Caches.HandleTable.Lookup | SHEMS/Pods/leveldb-library/util/cache.cc:74-76 | The entry with the key, if any |
| Caches.HandleTable.Insert | SHEMS/Pods/leveldb-library/util/cache.cc:78-92 | The table maps the key to the new entry and loses only the one it replaces, also across a resize |
| Caches.HandleTable.Remove | SHEMS/Pods/leveldb-library/util/cache.cc:94-102 | Exactly the entry with the key leaves |
| Caches.HandleTable.Resize | SHEMS/Pods/leveldb-library/util/cache.cc:123-146 | Rehashing every chain changes no content |
| Caches.LRUCache.Ref | SHEMS/Pods/leveldb-library/util/cache.cc:218-224 | One more reference; an entry leaves the LRU list for the in-use list exactly when a client takes it |
| Caches.LRUCache.Unref | SHEMS/Pods/leveldb-library/util/cache.cc:226-237 | One reference less; the deleter runs exactly at zero, and a cached entry back at one goes to the newest end of the LRU list |
| Caches.LRUCache.FinishErase | SHEMS/Pods/leveldb-library/util/cache.cc:308-317 | Takes an entry out of the cache, its charge off the usage, and runs its deleter exactly when no client holds it |
| Caches.LRUCache.Lookup | SHEMS/Pods/leveldb-library/util/cache.cc:253-259 | The cached entry with the key, pinned for the client |
| Caches.LRUCache.Release | SHEMS/Pods/leveldb-library/util/cache.cc:262-265 | Gives one handle back |
| Caches.LRUCache.Erase | SHEMS/Pods/leveldb-library/util/cache.cc:319-322 | No entry with the key stays cached; clients keep their handles |
| Caches.LRUCache.Prune | SHEMS/Pods/leveldb-library/util/cache.cc:324-334 | Exactly the entries no client holds are gone; those on the in-use list stay cached |
| Caches.LRUCache.EvictOldest | SHEMS/Pods/leveldb-library/util/cache.cc:295-301 | Evicts the oldest unused entry, runs its deleter once, and takes its charge off |
| Caches.LRUCache.EvictToFit | SHEMS/Pods/leveldb-library/util/cache.cc:295-301 | Evicts oldest first and no more than needed until the usage fits or nothing unused is left; every other entry stays cached |
| Caches.LRUCache.Replace | SHEMS/Pods/leveldb-library/util/cache.cc:289 | Of two entries with one key only the new one stays cached; entries of other keys stay |
| Caches.LRUCache.Insert | SHEMS/Pods/leveldb-library/util/cache.cc:267-304 | Afterwards the usage fits or no unused entry is left; the new entry is cached under its key when the capacity is positive; of the old ones exactly that with the key and the evicted ones, oldest first, are gone; the table, lists, reference counts, usage and deleter calls agree |
| Caches.ChargesWithout | SHEMS/Pods/leveldb-library/util/cache.cc:312 | Removing an entry lowers the sum of charges by its charge, wherever it stands |
| Caches.UnrefCounts | SHEMS/Pods/leveldb-library/util/cache.cc:226-237 | Dropping a reference keeps the count of references exact, and with it that every entry ever created is either still referenced or deleted, once and not both |
| Nanopb.OutStream.Write | SHEMS/Pods/nanopb/pb_encode.c:103-130 | Succeeds exactly when the bytes fit, and then appends them; a sizing stream only counts |
| Nanopb.OutStream.EncodeVarint | SHEMS/Pods/nanopb/pb_encode.c:608-628 | The varint, if it fits |
| Nanopb.OutStream.EncodeTag | SHEMS/Pods/nanopb/pb_encode.c:669-673 | The tag of field number and wire type, if it fits |
| Nanopb.OutStream.EncodeString | SHEMS/Pods/nanopb/pb_encode.c:709-715 | Length and bytes, if they fit |
| Nanopb.VarintBytes | SHEMS/Pods/nanopb/pb_encode.c:608-628 | The loop fills the buffer with the varint |
| Nanopb.EncodeItem | SHEMS/Pods/nanopb/pb_encode.c:769-911 | One value by the encoder of its kind: fails exactly when the value cannot be encoded or does not fit |
| Nanopb.EncodeSubmessage | SHEMS/Pods/nanopb/pb_encode.c:717-765 | The sizing pass and the writing pass agree at every depth: success exactly when the submessage is encodable and fits, so the size never changes between the passes |
| Nanopb.EncodeArray | SHEMS/Pods/nanopb/pb_encode.c:147-313 | A packed array in one length-delimited block, any other element by element, each with its tag |
| Nanopb.EncodeField | SHEMS/Pods/nanopb/pb_encode.c:450-487 | Required always, optional by its has flag, repeated by its count, oneof by its selector |
| Nanopb.Encode | SHEMS/Pods/nanopb/pb_encode.c:528-550 | Success exactly when the message is encodable and there is room, and then exactly its bytes |
| Nanopb.DecodeVarint32 | SHEMS/Pods/nanopb/pb_decode.c:187-252 | For any bytes: the first five bytes as a 32-bit number when a terminator follows, the fifth fits and every later byte only extends the sign, and otherwise a refusal |
| Nanopb.Read32RoundTrip | SHEMS/Pods/nanopb/pb_decode.c:187-252 | Reading undoes the varint encoding of any 32-bit value |
| Nanopb.DecodeVarint | SHEMS/Pods/nanopb/pb_decode.c:255-276 | For any bytes: the varint of at most ten bytes as a 64-bit number, and what is left |
| Nanopb.Read64RoundTrip | SHEMS/Pods/nanopb/pb_decode.c:255-276 | Reading undoes the varint encoding of any 64-bit value |
| Nanopb.Substream | SHEMS/Pods/nanopb/pb_decode.c:372-404 | For any bytes: what the length cuts out and what is left, or a refusal |
| Nanopb.CutRoundTrip | SHEMS/Pods/nanopb/pb_decode.c:372-404 | Cuts out exactly the delimited bytes and leaves the rest |
| Nanopb.IntRoundTrip | SHEMS/Pods/nanopb/pb_decode.c:1345-1428 | Signed, unsigned and zigzag numbers of every width come back from their 64-bit wire form |
| Nanopb.ReadIntRoundTrip | SHEMS/Pods/nanopb/pb_decode.c:1345-1428 | An encoded number is read back |
| Nanopb.ReadDataRoundTrip | SHEMS/Pods/nanopb/pb_decode.c:1447-1568 | Bytes and strings come back if and only if they fit the field, terminator included |
| Nanopb.DecodeItem | SHEMS/Pods/nanopb/pb_decode.c:1330-1568 | For any bytes: the value that the reading functions give for the kind, submessages read on from what is there |
| Nanopb.ItemRoundTrip | SHEMS/Pods/nanopb/pb_decode.c:406-484 | One encoded value of any kind, submessages included, is read back and the rest is left |
| Nanopb.DecodePacked | SHEMS/Pods/nanopb/pb_decode.c:427-452 | For any bytes: elements while there is room, and a refusal when some are left over |
| Nanopb.PackedRoundTrip | SHEMS/Pods/nanopb/pb_decode.c:427-452 | A packed array is read back element by element from its substream |
| Nanopb.DecodeField | SHEMS/Pods/nanopb/pb_decode.c:406-488 | For any bytes: one value, or a packed block, read into the slot of its field |
| Nanopb.FieldRoundTrip | SHEMS/Pods/nanopb/pb_decode.c:406-488 | What the encoder writes for a field, packed or not, is added to what the field holds |
| Nanopb.FindField | SHEMS/Pods/nanopb/pb_common.c:87-105 | Searching round from the iterator's place finds the first field with the tag from there on, or there is none |
| Nanopb.Decode | SHEMS/Pods/nanopb/pb_decode.c:934-1082 | For any bytes: the slots after all fields in the order in which they stand, if each of the first 64 required fields was among them; MessageLaws says what that means |
| Nanopb.FieldsRoundTrip | SHEMS/Pods/nanopb/pb_decode.c:934-1082 | From every place within an encoded message, reading on gives the rest of the message |
| Nanopb.MessageRoundTrip | SHEMS/Pods/nanopb/pb_decode.c:934-1082 | Decoding the encoding of a message into fresh slots gives the message back, at every depth |
| Nanopb.WriteAndRead | SHEMS/Pods/nanopb/pb_decode.c:1084-1096 | Encoding to a buffer and decoding it into a fresh struct gives the message back |
| MessageLaws.ItemLocal | SHEMS/Pods/nanopb/pb_decode.c:406-488 | What a value reads as does not depend on the bytes that follow it |
| MessageLaws.FieldsMerge | SHEMS/Pods/nanopb/pb_decode.c:934-1082 | For any bytes put together: they decode as the second part decoded into what the first part gives, unless a zero key ends the first |
| MessageLaws.UnknownFieldsAreSkipped | SHEMS/Pods/nanopb/pb_decode.c:991-994 | A field of a tag that the descriptor does not have changes nothing, wherever it stands and whatever its wire type |
| MessageLaws.OneFieldOnly | SHEMS/Pods/nanopb/pb_decode.c:934-1082 | A key and its value change the slot of their field and the other members of its union, and nothing else |
| MessageLaws.UnseenStay | SHEMS/Pods/nanopb/pb_decode.c:934-1082 | Whatever the bytes, a field they do not hold keeps its value |
| MessageLaws.LastOneWins | SHEMS/Pods/nanopb/pb_decode.c:406-423 | Once the bytes hold a singular field that is no submessage, the result does not depend on what it was before, nor does anything else |
| MessageLaws.SubmessagesMerge | SHEMS/Pods/nanopb/pb_decode.c:1525-1547 | Two occurrences of a required, optional or oneof submessage, with whatever follows, decode like one with the bytes of both, when none of them misses a required field; otherwise they are refused; and a zero key that ends the first drops the second from the bytes put together |
| MessageLaws.FieldsFurther | SHEMS/Pods/nanopb/pb_decode.c:934-1082 | What bytes make of a message does not depend on which fields were decoded before or where the search for a field starts |
| MessageLaws.ZeroKeyEnds | SHEMS/Pods/nanopb/pb_decode.c:310-314 | A zero key ends a message: bytes behind it change nothing |
| MessageLaws.ArraysGrow | SHEMS/Pods/nanopb/pb_decode.c:424-468 | Elements are added at the end of an array, packed or not, and never more than it has room for |

## Left out

- Store.DB.Get: promises nothing of the history for a spoiled read, that is one that sees a value uncovered by a dropped marker and no later write; which reads a compaction spoils is Preservation.Uncovered.
- Store.InstallCompaction: picking, running and installing one compaction is a single step of the store object; with flushes in between it is Interleavings and Durability.
- Store.DB.Write: the last sequence stays below 2^56 - 1; the code does not check for exhausted sequence numbers.
- Compactions.DropRule: smallest snapshots are below the greatest sequence number, which the code uses as a mark for a key not yet seen; keys that do not parse are excluded.
- Compactions.DoCompactionWork: where an output table ends is left open instead of following table sizes and grandparent overlap, and the loop is not interrupted by shutdown or I/O errors.
- Picking.SetupOtherInputs: the byte limits on expanding a compaction are a parameter; the compaction pointer and the choice of level by score are left open.
- Versions.Get: seek statistics, read sampling and corrupted tables are not modelled.
- Manifests.Recover: speaks of a MANIFEST that was written by the code and may be cut off anywhere, not of arbitrary bytes; reuse of the old MANIFEST is not modelled.
- Durability.StepKeepsInv: an install that would put a table flushed meanwhile under an output, so that the level overlaps, is no step; Interleavings.InstallOverFlushes says when that happens, and after it the level invariant is gone. Bytes whose append has returned survive a crash, appends to a log do not fail halfway in a running database, a nested flush whose write to the MANIFEST fails ends the compaction, and reuse_logs is not modelled.
- Durability.StepKeepsInv: when to switch memtables, what to compact and when a memtable is full are left open; groups have under 2^31 operations and keys and values under 4 GiB.
- Recoveries.RecoverLogFile: speaks of logs that the code wrote and of which any prefix survived; the records are read before the first is inserted, and paranoid checks and I/O errors are left out.
- GroupCommits.StepKeepsInv: waiting and waking are nondeterministic steps, and a group's batch is a list of operations rather than bytes.
- Logs.Reader.ReadRecord: for bytes that are no cut-off log only progress is promised; the initial offset is 0, as every caller passes, so skipping and resynchronising are left out.
- Logs.ReadAll: file reads do not fail.
- Crcs.Extend: the tables are the functions their entries stand for; that the literal table entries in the source equal them is not checked.
- Blocks.BlockBuilder.Finish: the round trip asks that the whole block is under 4 GiB, since offsets and sizes are cut to 32 bits.
- Blocks.DecodeEntry: the sum of the unshared and the value size is not cut to 32 bits, because it stays below for blocks under 4 GiB that the code built.
- Blocks.Iter.Seek: statuses other than corruption, and cleanup functions, are not modelled.
- Blooms.CreateFilter: the number of probes is 0.69 times the bits a key in exact arithmetic; the double product may round differently, which no property depends on.
- FilterBlocks.FilterBlockReader.KeyMayMatch: a base of 64 or more, undefined in the source, is a plain power of two.
- Tables.Table.InternalGet: tables over 2^64 bytes or with a block over 4 GiB are excluded, the block cache and compression are not modelled, and an unreadable block reports nothing instead of an error status.
- Tables.BuildAndGet: states the round trip for files under 4 GiB; Tables.Table.InternalGet only asks that each block is.
- TableBuilders.TableBuilder.Add: appends do not fail, and ChangeOptions is left out.
- WriteBatches.InsertInto: keys and values are under 4 GiB and sequence numbers do not run out.
- SkipLists.StepKeepsInv: memory is sequentially consistent, one reader runs against the writer, nodes are named by their keys instead of addresses, and heights are chosen by the caller instead of at random.
- Caches.LRUCache.Insert: entries are named by a serial number instead of an address, hash & (length - 1) is a remainder, and values, mutexes and shards are left out.
- Iterations.NewInternalIterator: the children of the merging iterator are cursors known by their contract, the one TwoLevels.TwoLevelIterator is proved against, and not memtable and table iterators; a single child is merged too instead of being returned itself.
- Snapshots.SnapshotList.New: nodes are named by a serial number instead of an address.
- Nanopb.WriteAndRead: encodings are under 4 GiB, fields have distinct tags from 1 below 2^29, and arrays are counted; callbacks, extensions, pointer fields, proto3 presence, fixed-count arrays and custom streams are left out.
- Nanopb.Decode: the required-field bitmap is a set of numbers; a descriptor without fields is not searched for field number 0, which the source finds at the terminator of the descriptor; custom default values are left out.
- Inputs.GetOverlappingInputs: also returns the range the scan ended with, which the source keeps to itself.
- Nanopb.DecodeVarint32: the bit position is not an 8-bit counter.
- The Swift application, env_posix.cc, loggers, bindings, histograms, file names and statuses: platform plumbing and text output.
- repair.cc: it puts every table at level 0 and gives up the order that the level invariant states.
- Memory orders, mutexes and condition variables: atomic steps stand for them.
