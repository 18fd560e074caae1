# LevelDB and nanopb, modelled in Dafny

This project models the two C and C++ libraries the repository carries as source and proves what they promise:
LevelDB, a log-structured merge store, under `MyFundi/Pods/leveldb-library`, and nanopb, a table-driven Protocol
Buffers codec, under `MyFundi/Pods/nanopb`.

**The store.** `store_spec.dfy` states the store as a state machine whose specification is a plain map replayed
from the updates. `db.dfy` is the database object that takes those steps; `version.dfy`, `picker.dfy` and
`compaction.dfy` are the searches, the choice of compaction inputs and the drop rules. `store_runs.dfy` has the
result about whole runs: every read, at the present or at a live snapshot, answers the map. One thing can break
it: a compaction with a live snapshot may cut one user key between two files of a level, and a later move or
merge may take the first of them and leave the second behind. `boundary.dfy` has the exact condition, told
before the step: which reads then find something older, and when none does, for moves and merges alike.
`stale_run.dfy` has such a run, with steps chosen as the store chooses them. While no snapshot is live at a
compaction it cannot happen (`NoSnapshotRunsAreSafe`).

**Scans.** `cursor.dfy`, `two_level.dfy`, `merger.dfy` and `db_iter.dfy` are the stack of iterators, each proved
to be a cursor over one simple list under every sequence of calls, changes of direction included; `db_scan.dfy`
puts the stack on a database. `table_scan.dfy` and `store_scan.dfy` join the layers by these lists, from the
bytes of a block up to the map the whole scan lists.

**Durability.** `log.dfy` and `log_crash.dfy` are the log with its crash-prefix theorem, `write_batch.dfy` and
`recovery.dfy` carry it on to the batches replayed at start-up, `log_recovery.dfy` to all log files (when an
error in one is noticed, and when what is kept is a prefix of the history), `reopen.dfy` and `logged_runs.dfy`
to the reads of a store opened after a crash at any moment of any run. `group_commit.dfy` and
`group_commit_runs.dfy` are the writer queue as a state machine, and `version_edit.dfy`, `manifest.dfy`,
`level_merge.dfy`, `version_builder.dfy` and `manifest_recovery.dfy` are the MANIFEST.

**Fast forms.** `skiplist.dfy` and `skiplist_runs.dfy` (with readers interleaved at single pointer reads),
`block.dfy` and `block_iter.dfy`, `separator.dfy` and `internal_key.dfy`, `bloom.dfy` and `filter_block.dfy`,
`table_format.dfy`, `table_builder.dfy` and `table.dfy`, `bits.dfy` and `handle_table.dfy`, `cache.dfy` and
`lru_cache.dfy`.

**nanopb.** `nanopb_wire.dfy` and `nanopb.dfy` define the bytes of a message and how they are read;
`nanopb_round_trip.dfy` proves that reading undoes writing, `nanopb_encode.dfy` and `nanopb_decode.dfy` are the
stream encoder and the recursive decoder proved against those definitions, `nanopb_end_to_end.dfy` puts one
behind the other, and `nanopb_implicit.dfy` has messages inside a message without a presence flag. The wire
format is that of the "Encoding" document of Protocol Buffers, sections "Base 128 Varints", "Signed Integers"
and "Packed Repeated Fields".

Conventions. User keys are integers in the store modules: only their order matters there, and
`InternalKeys.RanksStandForKeys` shows that nothing is lost. The modules about bytes work on byte strings and on
any comparator that is a strict total order. Hash functions and checksums are parameters. Where an output is cut
into files, a batch into groups, or a memtable flushed by size, the choice is a parameter too, so that the
results hold for every choice. Lemmas whose contracts mention recursive functions carry `{:induction false}`:
their proofs are the ones written down.

## Model

| member | source | states |
|---|---|---|
| StoreRuns.RunsAnswerAsTheMap | MyFundi/Pods/leveldb-library/db/db_impl.cc:1077-1122 | In every run of writes, rotations, flushes, moves, compactions and snapshots, at every moment up to which the moves and compactions found the guard `Safe`, a condition on the state before the step, a read at the present or at any live snapshot answers the plain map replayed from the updates up to that point |
| StoreRuns.StepKeeps | MyFundi/Pods/leveldb-library/db/db_impl.cc:457-534 | Every step whose guard holds keeps the shape of the tree (levels below 0 in internal key order, higher levels and higher level-0 file numbers newer per user key) and keeps the store faithful to the history |
| StoreRuns.NoSnapshotNoSplit | MyFundi/Pods/leveldb-library/db/db_impl.cc:868-935 | With no snapshot live a compaction keeps one entry per user key, so no cut of its output can split a key between two files |
| StoreRuns.AnswersTheMap | MyFundi/Pods/leveldb-library/db/db_impl.cc:1077-1122 | A state that keeps the invariant answers every read at or above its floor as the replayed map does |
| StoreRuns.AnswerIsTheRead | MyFundi/Pods/leveldb-library/db/db_impl.cc:1077-1122 | The search through memtables, level 0 and the sorted levels gives the one answer the set of stored entries determines |
| StoreRuns.NoSnapshotRunsAreSafe | MyFundi/Pods/leveldb-library/db/db_impl.cc:868-935 | In a run in which no compaction finds a snapshot live, or none cuts a user key, every step finds its guard, so that the result about runs covers it whole; the levels below 0 stay disjoint by user key |
| StaleRuns.SnapshotKeepsBoth | MyFundi/Pods/leveldb-library/db/db_impl.cc:914-930 | A snapshot between any two values of a key makes a compaction of any input keep both, so that the output may be cut between them |
| StaleRuns.SplitKeyGoesStale | MyFundi/Pods/leveldb-library/db/db_impl.cc:536-588 | For any two values large enough to fill a table each: a run whose flush levels and compaction inputs are those the store chooses, with every step safe but the last compaction, after which the latest read of the key returns the overwritten value |
| Boundaries.ReadsExactly | MyFundi/Pods/leveldb-library/db/db_impl.cc:683-704 | Any legal move or merge, one read at or above the smallest snapshot: it finds an older entry than before if and only if what it found lay in an input that ends with its key while a file left behind goes on with it, or was a droppable deletion above such a file; every other read answers as before |
| Boundaries.StepKeepsReadsExactly | MyFundi/Pods/leveldb-library/db/version_set.cc:1297-1347 | Any legal move or merge leaves every read at or above the smallest snapshot as it was if and only if, before the step, each input that ends with a user key a file left behind begins with has been hidden for that key, and no input of the next level shows a droppable deletion there |
| Boundaries.AnswersStayExactly | MyFundi/Pods/leveldb-library/db/version_set.cc:1375-1388 | The same told by the answers alone, when no two updates of a key say the same: all answers at or above the smallest snapshot stay if and only if that condition held |
| Boundaries.SafeIsHarmless | MyFundi/Pods/leveldb-library/db/db_impl.cc:683-704 | The guard of the runs implies that condition |
| StoreSpec.HistoryIsReplay | MyFundi/Pods/leveldb-library/db/memtable.cc:108-143 | The newest update of a key at or below s, a deletion meaning absent, is what the map replayed from the first s updates holds |
| StoreProofs.FlushKeeps | MyFundi/Pods/leveldb-library/db/db_impl.cc:457-534 | Flushing the immutable memtable to any level it may skip to keeps the invariant |
| StoreProofs.MoveKeeps | MyFundi/Pods/leveldb-library/db/db_impl.cc:683-704 | Moving a file down a level keeps the invariant when no file left behind begins with the user key it ends with |
| StoreProofs.CompactKeeps | MyFundi/Pods/leveldb-library/db/db_impl.cc:855-976 | A compaction of legal inputs keeps the whole invariant, however its output is cut, when no file left behind begins with the user key an input ends with, but for one of the next level with no droppable deletion in front |
| StoreProofs.CompactKeepsAnswers | MyFundi/Pods/leveldb-library/db/db_impl.cc:868-976 | Under that guard one compaction, however its output is cut, changes no answer at any snapshot at or above its smallest one |
| StoreProofs.NothingOlderOutside | MyFundi/Pods/leveldb-library/db/version_set.cc:1434-1453 | What the second drop rule relies on: outside the inputs of a guarded compaction the key of a droppable deletion has only newer entries |
| StoreProofs.OutputsMissTheRest | MyFundi/Pods/leveldb-library/db/version_set.cc:1297-1347 | An output of a compaction lies in internal key order wholly before or behind each file of the next level that was not an input, and shares no user key with it where that level was disjoint |
| Compactions.CompactionKeepsReads | MyFundi/Pods/leveldb-library/db/db_impl.cc:868-976 | For every key and every snapshot at or above the smallest live one, dropping entries by the two rules leaves the answer over the whole store as it was, provided what lies outside the input is newer for base-level keys |
| Compactions.OneEntryPerKey | MyFundi/Pods/leveldb-library/db/db_impl.cc:905-930 | When the smallest snapshot sees all input entries the output has at most one entry per user key |
| Compactions.LastSequenceNumberDropsEverything | MyFundi/Pods/leveldb-library/db/db_impl.cc:868-925 | The boundary case: with the largest sequence number as smallest snapshot a compaction of any input writes nothing at all, and the reads of its input survive if and only if there were none to show |
| Compactions.Compaction.IsBaseLevelForKey | MyFundi/Pods/leveldb-library/db/version_set.cc:1434-1453 | With pointers that only move on, exact for keys asked in ascending order: true if and only if no deeper level has a file covering the key |
| Compactions.Compaction.DoCompactionWork | MyFundi/Pods/leveldb-library/db/db_impl.cc:868-976 | The loop writes exactly the input entries no rule drops, in order, however the output is cut into files |
| Compactions.Compaction.ShouldDrop | MyFundi/Pods/leveldb-library/db/db_impl.cc:905-930 | One entry is dropped if and only if a rule drops it; deletions ask the deeper levels only when they may |
| Picker.GetRange | MyFundi/Pods/leveldb-library/db/version_set.cc:1176-1199 | The least and the greatest internal key of the inputs, each attained |
| Picker.SetupOtherInputs | MyFundi/Pods/leveldb-library/db/version_set.cc:1297-1347 | Whatever is picked to start from, the inputs are legal: nothing left behind on level 0 meets them, and all files of the next level that meet their range are in; the expansion keeps what it began with and needs no more files of the next level; the grandparents are the files two levels down that meet the inputs |
| Picker.CutInputs | MyFundi/Pods/leveldb-library/db/version_set.cc:1375-1388 | The loop takes the shortest front part of the files that reaches the size limit, or all of them |
| Picker.PickCompaction | MyFundi/Pods/leveldb-library/db/version_set.cc:1243-1295 | From any file of a level, automatic compaction picks legal inputs with that file among them, on level 0 with all files that overlap transitively; with nothing to merge below level 0 that file alone; and as grandparents the files two levels down that meet the inputs |
| Picker.CompactRange | MyFundi/Pods/leveldb-library/db/version_set.cc:1364-1397 | Manual compaction finds nothing if and only if no file of the level meets the range; else its inputs are legal and hold every level-0 file that meets it, and of a sorted level the files that meet it from the front up to the size limit |
| Picker.SaveLevel | MyFundi/Pods/leveldb-library/db/version_set.cc:702-763 | For files with their entries, as a compaction installs them: a level of the new version lists exactly the old files and the added ones less the deleted numbers, strictly in order and so without repetition |
| Database.InsertInto | MyFundi/Pods/leveldb-library/db/write_batch.cc:112-134 | A batch lands in the memtable entry by entry under consecutive sequence numbers |
| Database.MergeInputs | MyFundi/Pods/leveldb-library/db/db_impl.cc:868-976 | Merging the inputs and dropping entries gives well-formed, disjointly numbered files that together hold exactly what is kept |
| Database.DB.Write | MyFundi/Pods/leveldb-library/db/db_impl.cc:1162-1233 | A write is one step of the specification: its updates follow all others in the history |
| Database.DB.SwitchMemTable | MyFundi/Pods/leveldb-library/db/db_impl.cc:1320-1343 | Rotating the memtable is one step of the specification |
| Database.DB.CompactMemTable | MyFundi/Pods/leveldb-library/db/db_impl.cc:457-534 | Flushing is one step of the specification, to the one level the rules of the level picker allow |
| Database.DB.RunCompaction | MyFundi/Pods/leveldb-library/db/db_impl.cc:672-738 | A move if and only if the move is trivial, else a merge, of the inputs handed over: one step of the specification, which keeps the tree formed; the invariant survives when the guard held, and in any case each read at or above the smallest snapshot is as before unless `Boundaries.ReadsExactly` says it is disturbed |
| Database.DB.MoveFile | MyFundi/Pods/leveldb-library/db/db_impl.cc:683-704 | A trivial move is one step of the specification |
| Database.DB.InstallCompactionResults | MyFundi/Pods/leveldb-library/db/db_impl.cc:834-853 | Replacing the inputs by the outputs, by file number, is one compaction step |
| Database.DB.AutomaticCompaction | MyFundi/Pods/leveldb-library/db/db_impl.cc:655-738 | From any file, one such step with that file among its inputs, with the same said of every read |
| Database.DB.ManualCompaction | MyFundi/Pods/leveldb-library/db/db_impl.cc:536-588 | One round of a manual compaction is one such merge, of the inputs for the range, with the same said of every read; it is done if and only if no file of the level meets the range |
| Database.DB.GetSnapshot | MyFundi/Pods/leveldb-library/db/db_impl.cc:1143-1146 | A snapshot freezes the present history |
| Database.DB.ReleaseSnapshot | MyFundi/Pods/leveldb-library/db/db_impl.cc:1148-1151 | Releasing a snapshot is one step of the specification |
| Database.DB.Get | MyFundi/Pods/leveldb-library/db/db_impl.cc:1077-1122 | On any formed tree, also after a key has been cut, the answer is that of the search through memtables and levels; where the invariant holds it is the value the replayed map has at the present or at the live snapshot |
| Versions.FindFile | MyFundi/Pods/leveldb-library/db/version_set.cc:77-96 | Binary search: the first file whose largest key is not below the key sought |
| Versions.SomeFileOverlapsRange | MyFundi/Pods/leveldb-library/db/version_set.cc:115-147 | True if and only if some file meets the range, by scan on level 0 and by binary search on a sorted level |
| Versions.GetOverlappingInputs | MyFundi/Pods/leveldb-library/db/version_set.cc:522-563 | The restarts end; the result is exactly the files that meet the final range, which on level 0 is the least widening of the request that no file crosses |
| Versions.OutsideShrinks | MyFundi/Pods/leveldb-library/db/version_set.cc:544-560 | Each restart leaves strictly fewer file bounds outside the range |
| Versions.PickLevelForMemTableOutput | MyFundi/Pods/leveldb-library/db/version_set.cc:493-519 | As far down as the rules let it, at most to level 2: past level 0 only while no file of the levels passed or reached meets the table and not too much of the one after does |
| Versions.LandsOnOne | MyFundi/Pods/leveldb-library/db/version_set.cc:493-519 | These rules allow one level and no other |
| Versions.FilesToSearch | MyFundi/Pods/leveldb-library/db/version_set.cc:340-386 | The files gathered for one level, searched in turn, answer as the search of that level does |
| Versions.Get | MyFundi/Pods/leveldb-library/db/version_set.cc:323-420 | The loop over the levels stops at the first answer and gives that of the search |
| Versions.NewestFileAnswers | MyFundi/Pods/leveldb-library/db/version_set.cc:350-366 | On level 0, files searched from the highest number down answer with the newest entry of the key |
| Versions.SearchFindsNewest | MyFundi/Pods/leveldb-library/db/version_set.cc:323-420 | On an ordered tree the first answer found is the newest entry of the key at or below the snapshot over all levels, and none is found only when there is none |
| DBIterator.DBIter.Next | MyFundi/Pods/leveldb-library/db/db_iter.cc:146-171 | One place on in the visible list, also after a change of direction |
| DBIterator.DBIter.Prev | MyFundi/Pods/leveldb-library/db/db_iter.cc:205-230 | One place back, also after a change of direction, and invalid in front of the first |
| DBIterator.DBIter.Seek | MyFundi/Pods/leveldb-library/db/db_iter.cc:274-286 | The first visible pair whose key is at or after the target |
| DBIterator.DBIter.SeekToFirst | MyFundi/Pods/leveldb-library/db/db_iter.cc:288-297 | The first visible pair |
| DBIterator.DBIter.SeekToLast | MyFundi/Pods/leveldb-library/db/db_iter.cc:299-303 | The last visible pair |
| DBIterator.DBIter.Key | MyFundi/Pods/leveldb-library/db/db_iter.cc:66-69 | The key at the present place of the visible list, in both directions |
| DBIterator.DBIter.Value | MyFundi/Pods/leveldb-library/db/db_iter.cc:70-73 | The value at the present place, in both directions |
| DBIterator.DBIter.FindNextUserEntry | MyFundi/Pods/leveldb-library/db/db_iter.cc:173-203 | Passes over nothing that is visible and not to be skipped, and stops at the first entry that is |
| DBIterator.DBIter.FindPrevUserEntry | MyFundi/Pods/leveldb-library/db/db_iter.cc:232-272 | Finds the last visible entry among those up to the bound, stands in front of all entries of its key, and has saved its key and value; or there is none |
| DBIterator.ViewIsWhatReadsShow | MyFundi/Pods/leveldb-library/db/db_iter.cc:146-303 | A pair is in the visible list if and only if a point read at the same sequence number shows it |
| DBIterator.ViewAscends | MyFundi/Pods/leveldb-library/db/db_iter.cc:146-303 | The visible list has strictly ascending user keys, so no key twice |
| Scans.NewIterator | MyFundi/Pods/leveldb-library/db/db_impl.cc:1035-1064 | An iterator on the database, at the present or at a live snapshot, lists exactly the pairs of the replayed map |
| Scans.ChildrenMerge | MyFundi/Pods/leveldb-library/db/version_set.cc:225-242 | The iterators over memtables, level-0 files and sorted levels have pairwise distinct keys, and their sorted union is the stored entries |
| Scans.ViewListsMap | MyFundi/Pods/leveldb-library/db/db_impl.cc:1124-1134 | The visible list at a sequence number lists the map replayed up to it |
| Merger.MergingIterator.Next | MyFundi/Pods/leveldb-library/table/merger.cc:59-83 | One place on in the sorted union of the children, also after a change of direction |
| Merger.MergingIterator.Prev | MyFundi/Pods/leveldb-library/table/merger.cc:85-112 | One place back in the sorted union, also after a change of direction |
| Merger.MergingIterator.Seek | MyFundi/Pods/leveldb-library/table/merger.cc:51-57 | The first entry of the sorted union at or after the target |
| Merger.MergingIterator.SeekToFirst | MyFundi/Pods/leveldb-library/table/merger.cc:35-41 | The first entry of the sorted union |
| Merger.MergingIterator.SeekToLast | MyFundi/Pods/leveldb-library/table/merger.cc:43-49 | The last entry of the sorted union |
| Merger.MergingIterator.FindSmallest | MyFundi/Pods/leveldb-library/table/merger.cc:155-168 | A child with the least key of all valid ones, none if none is valid |
| Merger.MergingIterator.FindLargest | MyFundi/Pods/leveldb-library/table/merger.cc:170-183 | A child with the greatest key of all valid ones |
| Merger.MergeAllIsSortedUnion | MyFundi/Pods/leveldb-library/table/merger.cc:16-30 | The list the iterator runs over is sorted and holds exactly the entries of all children |
| TwoLevel.TwoLevelIterator.Seek | MyFundi/Pods/leveldb-library/table/two_level_iterator.cc:91-96 | The first entry at or after the target in the concatenation of all blocks |
| TwoLevel.TwoLevelIterator.SeekToFirst | MyFundi/Pods/leveldb-library/table/two_level_iterator.cc:98-103 | The first entry of the concatenation |
| TwoLevel.TwoLevelIterator.SeekToLast | MyFundi/Pods/leveldb-library/table/two_level_iterator.cc:105-110 | The last entry of the concatenation |
| TwoLevel.TwoLevelIterator.Next | MyFundi/Pods/leveldb-library/table/two_level_iterator.cc:112-116 | One place on, across empty blocks |
| TwoLevel.TwoLevelIterator.Prev | MyFundi/Pods/leveldb-library/table/two_level_iterator.cc:118-122 | One place back, across empty blocks |
| TwoLevel.TwoLevelIterator.SkipEmptyDataBlocksForward | MyFundi/Pods/leveldb-library/table/two_level_iterator.cc:125-136 | Ends at the first entry behind the skipped blocks, or invalid at the end |
| TwoLevel.TwoLevelIterator.SkipEmptyDataBlocksBackward | MyFundi/Pods/leveldb-library/table/two_level_iterator.cc:138-149 | Ends at the last entry before the skipped blocks, or invalid |
| TwoLevel.TwoLevelIterator.InitDataBlock | MyFundi/Pods/leveldb-library/table/two_level_iterator.cc:156-170 | The open block is the one the index stands at, kept when it is the same one |
| TwoLevel.SeekThroughIndex | MyFundi/Pods/leveldb-library/table/two_level_iterator.cc:91-96 | A seek in the index and then in the block found ends where a seek in the whole list does |
| Cursors.ListCursor.Seek | MyFundi/Pods/leveldb-library/db/version_set.cc:165-167 | The cursor over a list of files, or of entries, stands at the first one at or after the target |
| Cursors.ListCursor.Prev | MyFundi/Pods/leveldb-library/db/version_set.cc:176-183 | Stepping back from the first place makes the cursor invalid |
| TableScans.BytesFixPairs | MyFundi/Pods/leveldb-library/table/block.cc:226-253 | The bytes of a block determine the pairs its iterator walks |
| TableScans.OrderStands | MyFundi/Pods/leveldb-library/db/dbformat.cc:50-66 | Internal keys, whose user keys are numbered in their order, compare as bytes as the entries of the store do |
| TableScans.SeekStands | MyFundi/Pods/leveldb-library/table/block.cc:165-203 | A seek among the pairs of a block lands where a seek among its entries does |
| TableScans.TableIsWalked | MyFundi/Pods/leveldb-library/table/table.cc:164-224 | The bytes of a finished table, each block opened from the handle in its index entry, are such that the two-level iterator walks the pairs of its blocks in order, which are well indexed by its index block |
| StoreScans.LevelRunIs | MyFundi/Pods/leveldb-library/db/version_set.cc:152-222 | The two-level iterator over a sorted level, each file opened by its number from the sixteen bytes of the file list and itself a two-level iterator over its bytes, walks the entries of the files one after another |
| StoreScans.ScanOfBytesListsMap | MyFundi/Pods/leveldb-library/db/version_set.cc:224-242 | The whole stack: the iterators over memtables, over the bytes of the level-0 tables and over the bytes of each sorted level have pairwise distinct keys, and what the iterator on top of their merge lists, at any sequence number from the floor on, is the map replayed up to it |
| LogFile.Writer.AddRecord | MyFundi/Pods/leveldb-library/db/log_writer.cc:27-73 | The file grows by exactly the fragments of the record: trailers where no header fits, then checksummed pieces of the right types |
| LogFile.Writer.EmitPhysicalRecord | MyFundi/Pods/leveldb-library/db/log_writer.cc:75-100 | One fragment: masked checksum over type and payload, length, type, payload |
| LogFile.Reader.ReadRecord | MyFundi/Pods/leveldb-library/db/log_reader.cc:59-164 | One call yields the record, the position and the drop reports that reading fragment by fragment from the present position gives |
| LogFile.Reader.ReadPhysicalRecord | MyFundi/Pods/leveldb-library/db/log_reader.cc:181-262 | The reader, buffering block by block, finds what lies at its position in the file: a fragment, the end, or bytes it reports and skips |
| LogCrash.EmitIsRead | MyFundi/Pods/leveldb-library/db/log_reader.cc:59-164 | A record written anywhere in a file and cut anywhere is read back whole, or the reader finds the end, with nothing reported |
| LogCrash.WholeIsExact | MyFundi/Pods/leveldb-library/db/log_writer.cc:27-73 | A record counts as whole if and only if the file as it was when the record had been added fits in the cut |
| LogCrash.CutReadsPrefix | MyFundi/Pods/leveldb-library/db/log_reader.cc:59-164 | Crash prefix: cut the file of any records at any byte, and the reader returns exactly the records wholly inside the cut, in order, and reports nothing |
| Coding.MaskRoundTrip | MyFundi/Pods/leveldb-library/util/crc32c.h:31-40 | Unmasking a masked checksum gives the checksum back |
| Coding.VarintRoundTrip | MyFundi/Pods/leveldb-library/util/coding.cc:81-90 | A base-128 varint in front of anything is read back with its length |
| Coding.PrefixedRoundTrip | MyFundi/Pods/leveldb-library/util/coding.cc:98-101 | A length-prefixed slice in front of anything is read back |
| Coding.Fixed64RoundTrip | MyFundi/Pods/leveldb-library/util/coding.cc:20-33 | Eight little-endian bytes give the number back |
| Batches.BatchRoundTrip | MyFundi/Pods/leveldb-library/db/write_batch.cc:42-80 | Parsing the bytes of a batch gives its updates in order and no error |
| Batches.WriteBatch.Put | MyFundi/Pods/leveldb-library/db/write_batch.cc:98-103 | The bytes become those of the batch with the write added, count included |
| Batches.WriteBatch.Delete | MyFundi/Pods/leveldb-library/db/write_batch.cc:105-109 | The bytes become those of the batch with the deletion added |
| Batches.WriteBatch.Append | MyFundi/Pods/leveldb-library/db/write_batch.cc:141-146 | The bytes become those of both batches one behind the other |
| Batches.WriteBatch.SetSequence | MyFundi/Pods/leveldb-library/db/write_batch.cc:94-96 | Only the sequence number in the header changes |
| Batches.WriteBatch.Iterate | MyFundi/Pods/leveldb-library/db/write_batch.cc:42-80 | Any bytes: the handler is given the updates up to the first malformed record, numbered consecutively modulo 2^64, and the status says what was malformed, a wrong count included |
| Batches.MemTableInserter.Apply | MyFundi/Pods/leveldb-library/db/write_batch.cc:112-126 | One update is inserted at the present number, which then grows by one |
| Recovery.RecoverLogFile | MyFundi/Pods/leveldb-library/db/db_impl.cc:362-455 | Exactly the tables, highest sequence number and outcome of replaying the log record by record: a table whenever a memtable is full and one for the last memtable, which an error drops; without an error the tables hold all that was read |
| Recovery.WrittenOrLost | MyFundi/Pods/leveldb-library/db/db_impl.cc:404-455 | What is read of a log file is what its tables hold and behind it what the dropped memtable held; nothing is dropped if the file ends well |
| Recovery.FailsExactly | MyFundi/Pods/leveldb-library/db/db_impl.cc:404-438 | Replaying a log file fails if and only if paranoid checks are on and the bytes give cause: the reader drops something, or a record is shorter than twelve bytes or no well-formed batch |
| LogRecovery.RecoverLogs | MyFundi/Pods/leveldb-library/db/db_impl.cc:337-358 | Replaying the log files in order, without condition: the tables are those of each file, also of a file that failed, the highest sequence number is carried along, and the status is that of the last file |
| LogRecovery.OpensExactly | MyFundi/Pods/leveldb-library/db/db_impl.cc:337-358 | The store is opened if and only if paranoid checks are off, or there is no log file, or the bytes of the last one give no cause to object |
| LogRecovery.NoticesExactly | MyFundi/Pods/leveldb-library/include/leveldb/options.h:49-57 | That with paranoid checks an error in a log file keeps the store from being opened holds if and only if no file but the last has one, or the last one does |
| LogRecovery.ForgottenError | MyFundi/Pods/leveldb-library/db/db_impl.cc:337-350 | Where it does not hold: for any two groups numbered one behind the other, with an error between them in the older of two files, the store is opened with the second group, and without the first one unless a table had been written of it before; then what is kept is no prefix of the history |
| LogRecovery.KeepsPrefixExactly | MyFundi/Pods/leveldb-library/db/db_impl.cc:337-358 | Of updates numbered one behind the other the tables hold a prefix if and only if no file of which some are missing, not read or read and lost, is followed by one of which some are kept |
| LogRecovery.CutReads | MyFundi/Pods/leveldb-library/db/db_impl.cc:404-455 | Of a file cut anywhere exactly the groups wholly inside the cut are read, all of them are kept, and nothing gives cause to object |
| LogRecovery.DamageEndsReading | MyFundi/Pods/leveldb-library/db/db_impl.cc:404-455 | With paranoid checks, of a file damaged behind its first groups those are read and no others, and the damage gives cause to object |
| Recovery.RecoversWholeGroups | MyFundi/Pods/leveldb-library/db/db_impl.cc:404-444 | From a log cut at any byte recovery applies exactly the groups wholly inside the cut, at the numbers they were given, never part of one |
| Recovery.RecoversPrefixOfHistory | MyFundi/Pods/leveldb-library/db/db_impl.cc:404-444 | For groups numbered one behind the other, recovery restores a prefix of the history of updates with consecutive numbers and resumes behind it |
| Reopening.RunKeepsFlushed | MyFundi/Pods/leveldb-library/db/db_impl.cc:503-534 | At every moment of a run the updates lie in three layers (tables, immutable memtable, memtable) by their numbers, and the tables by themselves are a store that answers as the map of the updates flushed |
| LoggedRuns.RunKeepsLogs | MyFundi/Pods/leveldb-library/db/db_impl.cc:1320-1343 | At every moment of a run whose log file is switched with the memtable, and whose flushes record the log file to begin with, the log files to replay hold exactly the updates that are in no table, each file those of its memtable |
| LoggedRuns.WholeOrNothing | MyFundi/Pods/leveldb-library/db/db_impl.cc:337-350 | Two files cut anywhere leave no hole if the older one is whole or nothing whole is left in the newer one; and, when no group is empty, only then |
| LoggedRuns.ReopenedAnswersAsTheMap | MyFundi/Pods/leveldb-library/db/db_impl.cc:285-358 | Crash and recovery from any moment of any such run, both log files cut at any byte: recovery succeeds; what it reads of the log files is a prefix of the updates in no table if and only if there is no such hole; and then the store opened again is one of the prefix of the history that was flushed or is left, and every read at or past its end answers the map replayed from that prefix |
| SkipLists.SkipList.FindGreaterOrEqual | MyFundi/Pods/leveldb-library/db/skiplist.h:261-281 | The least key at or after the one sought, and on every level the node the key would go behind |
| SkipLists.SkipList.FindLessThan | MyFundi/Pods/leveldb-library/db/skiplist.h:283-302 | The last node before the key |
| SkipLists.SkipList.FindLast | MyFundi/Pods/leveldb-library/db/skiplist.h:304-322 | The last node of the list |
| SkipLists.SkipList.Contains | MyFundi/Pods/leveldb-library/db/skiplist.h:372-380 | True if and only if the key is in the list |
| SkipLists.SkipList.Insert | MyFundi/Pods/leveldb-library/db/skiplist.h:336-370 | The key joins the list at any height, and every level stays a sorted sublist of the level below |
| SkipLists.ListIterator.Prev | MyFundi/Pods/leveldb-library/db/skiplist.h:213-222 | The search for the last node before the present one gives the predecessor, or none |
| SkipLists.ListIterator.Seek | MyFundi/Pods/leveldb-library/db/skiplist.h:224-227 | The first key at or after the target |
| SkipListRuns.LevelsStaySorted | MyFundi/Pods/leveldb-library/db/skiplist.h:336-370 | In every run of one writer that publishes one pointer per step and any readers in between, each level chains its keys in ascending order and is a sublist of the level below |
| SkipListRuns.SearchMissesNothing | MyFundi/Pods/leveldb-library/db/skiplist.h:261-281 | A search that ends returns the least key at or after its target in the list as it was at its last read, and misses no key inserted before it began |
| SkipListRuns.FloorMissesNothing | MyFundi/Pods/leveldb-library/db/skiplist.h:283-302 | A search for the last node before a target, begun in any state and ended in a later one, ends at the greatest key below it in the list as it was at its last read, and at or behind every such key inserted before it began |
| SkipListRuns.LastMissesNothing | MyFundi/Pods/leveldb-library/db/skiplist.h:304-322 | The same for a search for the last node of the list |
| SkipListRuns.InsertedForGood | MyFundi/Pods/leveldb-library/db/skiplist.h:336-370 | Once its first pointer has been published a key is in the list in every later state |
| SkipListRuns.SearchComesToAnEnd | MyFundi/Pods/leveldb-library/db/skiplist.h:261-281 | Every read of a search goes down a level or strictly nearer the end of its level, so that without further inserts it ends |
| GroupCommit.BuildBatchGroup | MyFundi/Pods/leveldb-library/db/db_impl.cc:1235-1282 | The group is the longest front part of the queue whose members may ride with the first one, by sync flag and size, and its batch is theirs one behind the other |
| GroupCommit.ServeGroup | MyFundi/Pods/leveldb-library/db/db_impl.cc:1216-1230 | The members leave the queue and are told the outcome, the others are woken, and so is the new front |
| GroupCommitRuns.StepKeeps | MyFundi/Pods/leveldb-library/db/db_impl.cc:1162-1233 | Every step of any writer or leader keeps the invariant of queue, threads, log and memtable |
| GroupCommitRuns.AppliedExactlyWhenOk | MyFundi/Pods/leveldb-library/db/db_impl.cc:1162-1233 | In every run: the memtable holds each placed batch exactly once, in order of arrival, and a writer that has returned had its batch placed if and only if it was told OK |
| GroupCommitRuns.NumbersGivenOnce | MyFundi/Pods/leveldb-library/db/db_impl.cc:1177-1213 | In every run, up to the largest sequence number, the numbers in the memtable strictly ascend, so none is given twice |
| GroupCommitRuns.LoggedWhenOk | MyFundi/Pods/leveldb-library/db/db_impl.cc:1190-1210 | A write told OK lies in the log under the numbers it has in the memtable, and a sync write lies in the synced part |
| GroupCommitRuns.NumberedInGroup | MyFundi/Pods/leveldb-library/db/db_impl.cc:1177-1213 | Each update of a batch has in its log record the number it was placed at |
| GroupCommitRuns.SyncedGroupsSurvive | MyFundi/Pods/leveldb-library/db/db_impl.cc:1190-1210 | From whatever a crash leaves of the log, recovery applies every update of the synced part under its number |
| GroupCommitRuns.SyncWritesSurvive | MyFundi/Pods/leveldb-library/db/db_impl.cc:1190-1210 | Durability: in every reachable state, whatever a crash then leaves of the log file, recovery applies each update of each sync write that was told OK, under the number it has in the memtable |
| GroupCommitRuns.NeverStuck | MyFundi/Pods/leveldb-library/db/db_impl.cc:1168-1230 | No lost wake-up: while any call has not returned, a leader can go on or a signalled writer can |
| Blocks.BlockBuilder.Add | MyFundi/Pods/leveldb-library/table/block_builder.cc:73-107 | The buffer, laid out with shared prefixes and restart points, holds one pair more |
| Blocks.BlockBuilder.Finish | MyFundi/Pods/leveldb-library/table/block_builder.cc:63-71 | The finished bytes open as a block and hold exactly the pairs added, for any restart interval |
| Blocks.DecodeThree | MyFundi/Pods/leveldb-library/table/block.cc:53-74 | The one-byte fast path and the varint path read the same three lengths |
| BlockIterators.DecodeAt | MyFundi/Pods/leveldb-library/table/block.cc:53-74 | At the offset of entry i decoding finds its shared length, key rest and value |
| BlockIterators.BlockIter.Seek | MyFundi/Pods/leveldb-library/table/block.cc:165-203 | Binary search over the restart points and a scan land on the first key at or after the target |
| BlockIterators.BlockIter.SearchRestarts | MyFundi/Pods/leveldb-library/table/block.cc:166-190 | The binary search ends at a restart point whose predecessors all lie below the target while those behind it do not |
| BlockIterators.BlockIter.Next | MyFundi/Pods/leveldb-library/table/block.cc:139-142 | One entry on |
| BlockIterators.BlockIter.Prev | MyFundi/Pods/leveldb-library/table/block.cc:144-163 | Exactly one entry back, by a restart point before it and a scan |
| BlockIterators.BlockIter.SeekToFirst | MyFundi/Pods/leveldb-library/table/block.cc:205-208 | The first entry |
| BlockIterators.BlockIter.SeekToLast | MyFundi/Pods/leveldb-library/table/block.cc:210-215 | The last entry |
| BlockIterators.BlockIter.ParseNextKey | MyFundi/Pods/leveldb-library/table/block.cc:226-253 | The key is put together from the one before and the entry, and the restart index catches up |
| Separators.FindShortestSeparator | MyFundi/Pods/leveldb-library/util/comparator.cc:29-51 | At or after the first key, before the second one whenever they were in order, and no longer than the first |
| Separators.FindShortSuccessor | MyFundi/Pods/leveldb-library/util/comparator.cc:53-65 | At or after the key, and no longer |
| InternalKeys.EncodedOrder | MyFundi/Pods/leveldb-library/db/dbformat.cc:50-66 | Comparing encoded internal keys orders them by user key, then by descending sequence number and type |
| InternalKeys.InternalIsOrder | MyFundi/Pods/leveldb-library/db/dbformat.cc:50-66 | That comparison is a strict total order on all byte strings, keys of any length included |
| InternalKeys.RanksStandForKeys | MyFundi/Pods/leveldb-library/db/dbformat.cc:50-66 | Any finite set of user keys, numbered in the comparator order, stands for itself: internal keys with those numbers compare exactly as the encoded internal keys do |
| InternalKeys.FindInternalSeparator | MyFundi/Pods/leveldb-library/db/dbformat.cc:68-85 | At or after the first internal key and before the second, no longer than the first |
| InternalKeys.FindInternalSuccessor | MyFundi/Pods/leveldb-library/db/dbformat.cc:87-99 | At or after the internal key, and no longer |
| TableFormat.ShortenedSeparatorClears | MyFundi/Pods/leveldb-library/db/dbformat.cc:68-85 | Below a shortened separator there is no internal key of the second key's user key |
| Bloom.CreateFilter | MyFundi/Pods/leveldb-library/util/bloom.cc:35-61 | The filter has exactly the bits probed for some key, in an array of the right size, with the number of probes behind it |
| Bloom.CheckKey | MyFundi/Pods/leveldb-library/util/bloom.cc:63-87 | The probing loop gives the verdict of the filter |
| Bloom.MatchesExactly | MyFundi/Pods/leveldb-library/util/bloom.cc:35-87 | For any hash function a key matches if and only if all its probes are probes of added keys; an added key always does |
| FilterBlocks.FilterBlockBuilder.StartBlock | MyFundi/Pods/leveldb-library/table/filter_block.cc:22-28 | Filters are generated up to the offset; what was added stays where it was |
| FilterBlocks.FilterBlockBuilder.AddKey | MyFundi/Pods/leveldb-library/table/filter_block.cc:30-34 | The key counts as added at the offset of the open block |
| FilterBlocks.FilterBlockBuilder.Finish | MyFundi/Pods/leveldb-library/table/filter_block.cc:36-50 | The finished block is the filters, their offsets and where those start, and every key added is in the group of its offset |
| FilterBlocks.NoFalseNegatives | MyFundi/Pods/leveldb-library/table/filter_block.cc:95-109 | Every key added while a block at some offset was open matches at that offset, for any offsets that do not decrease and any sound policy |
| FilterBlocks.BloomIsSound | MyFundi/Pods/leveldb-library/util/bloom.cc:35-87 | The Bloom filter is such a policy, for any hash function |
| TableBuilders.TableBuilder.Add | MyFundi/Pods/leveldb-library/table/table_builder.cc:92-121 | The pairs added so far stay readable in order, with the pending index entry settled by the first key behind its block |
| TableBuilders.TableBuilder.Flush | MyFundi/Pods/leveldb-library/table/table_builder.cc:123-137 | The open pairs become a block of the file whose index entry is pending |
| TableBuilders.TableBuilder.AddPendingEntry | MyFundi/Pods/leveldb-library/table/table_builder.cc:98-106 | The index entry added is at or after the last key of its block and before the next key |
| TableBuilders.TableBuilder.Finish | MyFundi/Pods/leveldb-library/table/table_builder.cc:199-254 | The finished table holds exactly the pairs added, indexed by separators and filtered |
| Tables.InternalGet | MyFundi/Pods/leveldb-library/table/table.cc:226-255 | What the lookup hands over is what a scan for the first key at or after the target finds, and it hands it over whenever that key has the user key sought |
| Tables.FoundInBlock | MyFundi/Pods/leveldb-library/table/table.cc:230-250 | With shortened separators, the block the index leads to holds the scan's result, or the scan ends behind it at another user key |
| TableFormat.HandleRoundTrip | MyFundi/Pods/leveldb-library/table/format.cc:15-30 | Decoding an encoded block handle gives it back |
| TableFormat.InternalKeysSuitable | MyFundi/Pods/leveldb-library/db/dbformat.cc:68-99 | The internal key comparator with its separator and successor has all a table needs |
| HandleTables.HandleTable.Lookup | MyFundi/Pods/leveldb-library/util/cache.cc:58-60 | The hash table finds the handle of a key if and only if it has one |
| HandleTables.HandleTable.Insert | MyFundi/Pods/leveldb-library/util/cache.cc:62-76 | The new handle replaces the one of the same key, if any, through every resize |
| HandleTables.HandleTable.Remove | MyFundi/Pods/leveldb-library/util/cache.cc:78-86 | The handle of the key, if any, and nothing else is taken out |
| HandleTables.HandleTable.Resize | MyFundi/Pods/leveldb-library/util/cache.cc:107-131 | Rehashing into at least as many buckets as elements, a power of two of them, keeps the contents |
| Bits.MaskIsRemainder | MyFundi/Pods/leveldb-library/util/cache.cc:99-101 | Masking a hash with a power of two less one is taking the remainder, so that each hash has one bucket |
| LruCacheImpl.LRUCache.Insert | MyFundi/Pods/leveldb-library/util/cache.cc:225-256 | One step of the abstract cache: the new entry is most recent, the one of its key is replaced, and the oldest are dropped until usage fits |
| LruCacheImpl.LRUCache.Lookup | MyFundi/Pods/leveldb-library/util/cache.cc:209-218 | One step of the abstract cache: the entry cached for the key becomes most recent and gets one reference more |
| LruCacheImpl.LRUCache.Release | MyFundi/Pods/leveldb-library/util/cache.cc:220-223 | One step of the abstract cache: one handle fewer |
| LruCacheImpl.LRUCache.Erase | MyFundi/Pods/leveldb-library/util/cache.cc:258-266 | One step of the abstract cache: the entry cached for the key leaves |
| LruCacheImpl.LRUCache.LRU_Remove | MyFundi/Pods/leveldb-library/util/cache.cc:196-199 | Unlinking from the doubly linked ring leaves the other entries in order |
| LruCacheImpl.LRUCache.LRU_Append | MyFundi/Pods/leveldb-library/util/cache.cc:201-207 | Linking in front of the dummy makes the entry the most recent one |
| LruCaches.InsertKeeps | MyFundi/Pods/leveldb-library/util/cache.cc:225-256 | Insertion keeps the invariant: list members are the cached entries, references are handles plus one if cached, usage is the total charge, and nothing freed is live |
| LruCaches.DropHandleKeeps | MyFundi/Pods/leveldb-library/util/cache.cc:186-194 | Releasing a handle keeps the invariant |
| LruCaches.DropCachedKeeps | MyFundi/Pods/leveldb-library/util/cache.cc:258-266 | Dropping a cached entry keeps the invariant, whether or not handles are out |
| LruCaches.TouchKeeps | MyFundi/Pods/leveldb-library/util/cache.cc:209-218 | A lookup that hits keeps the invariant |
| LruCaches.EvictsOldest | MyFundi/Pods/leveldb-library/util/cache.cc:245-253 | Eviction drops the shortest front part of the list, oldest first, that brings usage within capacity: one entry fewer would leave it above; or the whole list when even that is not enough |
| LruCaches.DrainFreesAll | MyFundi/Pods/leveldb-library/util/cache.cc:177-184 | With no handle out, dropping the whole list frees its entries in order, leaves usage zero, and then every entry ever made has been freed |
| LruCacheImpl.LRUCache.Destroy | MyFundi/Pods/leveldb-library/util/cache.cc:177-184 | The loop of the destructor, over the links of the ring, does that |
| VersionEdits.EncodeTo | MyFundi/Pods/leveldb-library/db/version_edit.cc:41-86 | Field by field in the order of the code (comparator, log numbers, next file, last sequence, pointers, deletions, additions), what is appended are the bytes of the items of the edit |
| VersionEdits.FieldRoundTrip | MyFundi/Pods/leveldb-library/db/version_edit.cc:109-210 | Every tagged item is read back in front of anything |
| VersionEdits.EditRoundTrip | MyFundi/Pods/leveldb-library/db/version_edit.cc:26-210 | Decoding the bytes of an edit into another one gives the edit back, behind the compaction pointers the other one had |
| VersionEdits.ExactlyWhenNoPointers | MyFundi/Pods/leveldb-library/db/version_edit.cc:26-39 | It gives exactly the edit back if and only if the other one had no compaction pointers, since clearing leaves them |
| VersionBuilders.VersionBuilder.ApplyFiles | MyFundi/Pods/leveldb-library/db/version_set.cc:656-699 | The deletions and then the additions of an edit are taken over, level by level |
| VersionBuilders.VersionBuilder.Apply | MyFundi/Pods/leveldb-library/db/version_set.cc:656-699 | Compaction pointers and files of an edit are taken over as the definition of a gathered edit says |
| LevelMerges.MergeLevel | MyFundi/Pods/leveldb-library/db/version_set.cc:702-763 | The two loops over base files and sorted added files, for any order of files: what they write is in order and has the base files and the added ones, each as often as there, less the deleted numbers |
| VersionBuilders.MergeFiles | MyFundi/Pods/leveldb-library/db/version_set.cc:702-763 | For lists of file metadata: the base and the added ones less the deleted numbers, in order of smallest key and number |
| VersionBuilders.VersionBuilder.SaveTo | MyFundi/Pods/leveldb-library/db/version_set.cc:702-763 | Every level of the new version is such a merge of the base version and what was gathered |
| VersionBuilders.NextLists | MyFundi/Pods/leveldb-library/db/version_set.cc:811-832 | The builder makes the next version of the present one and an edit |
| VersionBuilders.AllVersions | MyFundi/Pods/leveldb-library/db/version_set.cc:811-866 | Edit by edit the builder makes all versions of a history from the empty one |
| VersionBuilders.ReplayLists | MyFundi/Pods/leveldb-library/db/version_set.cc:930-1006 | One builder that takes all edits makes level by level the very lists of the last of those versions, when no edit adds a file where it already is |
| Manifests.AtOnceIsStepwise | MyFundi/Pods/leveldb-library/db/version_set.cc:656-763 | Gathering all edits in one builder on an empty base gives the same files per level as applying each edit in turn, given a file number fixes its metadata |
| Manifests.MergedListsExactly | MyFundi/Pods/leveldb-library/db/version_set.cc:702-763 | What such a merge makes lists the level without repetition if and only if no file is added where it already is |
| Manifests.VersionsList | MyFundi/Pods/leveldb-library/db/version_set.cc:811-866 | The versions built one by one list the levels that applying the edits gives |
| Manifests.ReplayGivesSameLists | MyFundi/Pods/leveldb-library/db/version_set.cc:930-1006 | A merge of all edits at once on the empty list is the very list of the last version built, level by level |
| ManifestRecovery.Recover | MyFundi/Pods/leveldb-library/db/version_set.cc:897-1006 | The loop over the records gathers edits, counters and errors as reading record by record does |
| ManifestRecovery.CutGathersPrefix | MyFundi/Pods/leveldb-library/db/version_set.cc:930-975 | From a MANIFEST cut at any byte the edits wholly inside the cut are gathered, and no error |
| ManifestRecovery.GatheredIsStepwise | MyFundi/Pods/leveldb-library/db/version_set.cc:930-1006 | What they give is the tree of applying each in turn and the last counters given; recovery fails if and only if one of the three counters was never given |
| ManifestRecovery.CutRecoversPrefix | MyFundi/Pods/leveldb-library/db/version_set.cc:897-1006 | From a MANIFEST cut at any byte recovery succeeds if and only if the edits wholly inside the cut give every counter, and then gives the version they make one after another |
| ManifestRecovery.RecoversWhatWasInstalled | MyFundi/Pods/leveldb-library/db/version_set.cc:811-894 | Recovery after an edit completed by the version set gives the tree, the pointers and the counters that were installed |
| ManifestRecovery.NumbersAheadExactly | MyFundi/Pods/leveldb-library/db/version_set.cc:987-1015 | Recovery marks the log numbers as used before it sets the counter, so that the marks are lost: the counter is ahead of the log numbers if and only if the last one recorded was at or past them, and exactly then marking them afterwards would change nothing |
| ManifestRecovery.NumberGivenAgain | MyFundi/Pods/leveldb-library/db/version_set.cc:987-1015 | Where it falls behind: for any log number past the counter recorded with it, after recovery the counter will give that number out |
| ManifestRecovery.CompletedKeepsAhead | MyFundi/Pods/leveldb-library/db/version_set.cc:811-832 | No edit the version set completes does that |
| ManifestRecovery.SnapshotRebuilds | MyFundi/Pods/leveldb-library/db/version_set.cc:1054-1082 | The snapshot record alone rebuilds tree and compaction pointers |
| NanopbWire.ScalarRoundTrip | MyFundi/Pods/nanopb/pb_decode.c:1165-1260 | Every scalar of every type and width is read back from its wire form, zigzag and sign extension included |
| NanopbWire.ZigZagRoundTrip | MyFundi/Pods/nanopb/pb_decode.c:1118-1130 | Zigzag decoding undoes zigzag encoding |
| NanopbWire.ReadsKey | MyFundi/Pods/nanopb/pb_decode.c:251-275 | A field key in front of anything is split into its tag and wire type |
| NanopbRoundTrip.MessageRoundTrip | MyFundi/Pods/nanopb/pb_decode.c:852-953 | For any nested table of static fields with distinct positive tags and, at every level, a number of required fields for which the final test is defined, and any message that fits it, decoding the encoding gives the same message if and only if no implicitly optional field, at any depth, is zero where its table starts it from another value |
| NanopbRoundTrip.ReadsRestored | MyFundi/Pods/nanopb/pb_decode.c:852-953 | What decoding the encoding gives in any case: the message, with such fields as their tables start them |
| NanopbRoundTrip.ZeroStartsLoseNothing | MyFundi/Pods/nanopb/pb_decode.c:762-832 | Tables that start no such field from a value of its own lose nothing, whatever the message |
| NanopbRoundTrip.ZeroIsForgotten | MyFundi/Pods/nanopb/pb_encode.c:280-296 | A table that does: any number that is implicitly optional and starts from something else than zero comes back as that when it was zero |
| NanopbImplicit.ReadsImplicit | MyFundi/Pods/nanopb/pb_encode.c:205-267 | A message inside a message that has no flag, in any table and in front of anything: it is written unless the test finds zeros in its bytes, and read back as it was, or as it started |
| NanopbImplicit.ComesBackExactly | MyFundi/Pods/nanopb/pb_encode.c:205-267 | It comes back as it was, whatever lies in the places that hold no value, if and only if it is what such a message starts from, or what the test looks at, the places of absent values taken as zero, is not all zero and no field inside is lost |
| NanopbImplicit.ArrayIsForgotten | MyFundi/Pods/nanopb/pb_encode.c:225-244 | Where it does not: a message with nothing but an array of numbers whose first item is zero is not written, whatever follows in the array, and comes back empty |
| NanopbEndToEnd.Transfer | MyFundi/Pods/nanopb/pb_encode.c:451-491 | The stream encoder into a buffer and the decoder on what it wrote: the message is encoded if and only if its size fits, and then the message that comes out is the one that went in, if and only if no field is lost for being zero |
| NanopbRoundTrip.ReadsPacked | MyFundi/Pods/nanopb/pb_decode.c:380-410 | A packed array is read back element by element to its end |
| NanopbRoundTrip.SilentField | MyFundi/Pods/nanopb/pb_encode.c:271-349 | A field that writes nothing is not required, and is read back as the value decoding starts from; that is its value, unless its table starts an implicitly optional field from another value than zero |
| NanopbEncode.VarintBuffer | MyFundi/Pods/nanopb/pb_encode.c:494-514 | The loop over seven-bit groups writes the varint of the value |
| NanopbEncode.OStream.Write | MyFundi/Pods/nanopb/pb_encode.c:91-109 | A write counts its bytes when sizing, appends them when they fit, and fails otherwise without counting |
| NanopbEncode.OStream.EncodePacked | MyFundi/Pods/nanopb/pb_encode.c:116-165 | A packed array is one field whose length is computed by width or by a sizing pass |
| NanopbEncode.OStream.EncodeSubmessage | MyFundi/Pods/nanopb/pb_encode.c:600-648 | The sizing pass counts exactly what the writing pass emits, so the size-changed error cannot occur |
| NanopbEncode.OStream.EncodeMessage | MyFundi/Pods/nanopb/pb_encode.c:451-473 | Sizing or writing, the fields go out in table order as the bytes of the message, or the stream fills up |
| NanopbEncode.EncodeToBuffer | MyFundi/Pods/nanopb/pb_encode.c:480-491 | The computed size is the length of the encoding, and encoding to a buffer succeeds if and only if that size fits, with exactly those bytes |
| NanopbDecode.FieldIter.Next | MyFundi/Pods/nanopb/pb_common.c:20-76 | The iterator steps to the next field and wraps around at the end |
| NanopbDecode.FieldIter.Find | MyFundi/Pods/nanopb/pb_common.c:78-96 | From any position the cyclic search ends at the field of the tag, or back where it started if there is none |
| NanopbDecode.FieldIter.CountRequired | MyFundi/Pods/nanopb/pb_decode.c:913-925 | Stepping on to the end counts the required fields |
| NanopbDecode.AllPresent | MyFundi/Pods/nanopb/pb_decode.c:927-950 | The final test over the two words of the bit mask passes if and only if every required field has been seen, wherever it is defined |
| NanopbDecode.DecodeMessage | MyFundi/Pods/nanopb/pb_decode.c:852-953 | For every table for which the final test is defined at every level, the loop decodes any input as reading key by key does: unknown fields skipped, later values winning, missing required fields refused |
| Nanopb.UnknownIsSkippedExactly | MyFundi/Pods/nanopb/pb_decode.c:864-904 | A field that is not in the table is skipped, if and only if it is not field 0 of a table without fields or skipping it would have failed anyway |
| Nanopb.EmptyMessageRefusesFieldZero | MyFundi/Pods/nanopb/pb_common.c:78-96 | Where it is not: an empty field 0 for a table without fields, which the search takes for the terminator, so that decoding fails |
| NanopbDecode.DecodeGroups | MyFundi/Pods/nanopb/pb_decode.c:173-229 | The loop over seven-bit groups, whose upper bits are shifted out, gives the varint modulo the width |
| NanopbDecode.DecodePacked | MyFundi/Pods/nanopb/pb_decode.c:380-410 | The loop over a packed array gives its elements, or fails when one is malformed or too many come |
| NanopbDecode.DecodeValue | MyFundi/Pods/nanopb/pb_decode.c:1263-1377 | One value by its type; a nested message by the decoder itself on a substream, into what the field held before |
| NanopbDecode.DecodeSlot | MyFundi/Pods/nanopb/pb_decode.c:356-429 | One occurrence of a field by its rule: replacing, appending or merging, refused when the array is full or the wire type wrong |

## Left out

Where the code and what one might expect of it differ, the model follows the code:

- StoreRuns.RunsAnswerAsTheMap: holds up to the first step that finds its guard broken, because from there on the claim is false in general; `Boundaries.ReadsExactly` then says of every read what the step does to it, `StaleRuns.SplitKeyGoesStale` is such a run. Steps after an unsafe one, be it a harmless one, are covered only as far as `Database.DB.Get` answers what the search finds.
- Compactions.CompactionKeepsReads: states the case of a smallest snapshot below the largest sequence number, because at that number the first drop rule drops everything (`LastSequenceNumberDropsEverything`).
- VersionEdits.EditRoundTrip: keeps the other edit's compaction pointers in front, because `VersionEdit::Clear` leaves them; `ExactlyWhenNoPointers` says when the edit comes back exactly.
- NanopbDecode.DecodeMessage: requires fewer than 64 required fields and not 32, in the table and in every nested one, because for 32 the final test shifts a 32-bit word by 32, and from 64 on it also reads behind its two words.
- NanopbRoundTrip.MessageRoundTrip: that decoding undoes encoding holds under its condition only; `ZeroIsForgotten` is such a table. Messages inside a message that have no flag for being there are in `NanopbImplicit`, where `ArrayIsForgotten` is one that does not come back; one of them inside another is not modelled.
- ManifestRecovery.Recover: two different entries for one file number and smallest key would both be kept where the ordered set of the code keeps the first; the results that follow ask that a file number fixes its metadata.
- LoggedRuns.ReopenedAnswersAsTheMap: counts sequence numbers on from the last update recovered, where the code goes on from the last number in the MANIFEST when that is larger, leaving a gap: reads at such a number are covered, writes that follow are not; says what the reads are when no hole is left in the history, and of the other case only that it is no prefix.
- LogRecovery.NoticesExactly: the promise that paranoid checks stop at any error holds of the log files under its condition only, because the status of a log file is overwritten by that of the next one; `ForgottenError` is such a case.
- Nanopb.UnknownIsSkippedExactly: that unknown fields are skipped is false for field 0 of a table without fields, which the search takes for the terminator; `EmptyMessageRefusesFieldZero` is such an input.
- ManifestRecovery.NumbersAheadExactly: `MarkFileNumberUsed` has no effect in `VersionSet::Recover`, because the assignment that follows overwrites what it sets; the condition under which that matters is stated, `NumberGivenAgain` is such a case, and `CompletedKeepsAhead` shows that it does not arise from edits the version set writes.

What the libraries do that the model does not:

- Corrupt blocks and tables: checksum failures of blocks, Snappy, footers and the metaindex; a table is opened with the index and filter it was finished with.
- The log reader's initial offset, and its error paths for reads that fail.
- `Env`: files are byte strings that only grow; renames, locks and deletion of obsolete files.
- Threads: the store's steps are atomic under its mutex; skip-list pointer stores are sequentially consistent, one per step; only the skip list and group commit are modelled with interleaving.
- A compaction is modelled as one step from pick to install. The code may flush a memtable in its middle, which then picks its level by the version before the compaction; such a flush is not modelled.
- Seek statistics, level scores and file size limits; any file may start a compaction, and any cut of the output is covered.
- StoreScans.ScanOfBytesListsMap: the layers are joined by the lists they walk, not as objects that hold each other, and it is a hypothesis that each file of the version has its table on disk and that the user keys of its separators are numbered too (`TableScans.SeparatorIsInternal` shows that they can be).
- The merge of a compaction runs over one list per input file, where the code joins the files of a sorted level into one iterator first.
- Chains of the cache's hash table are sequences and skip-list nodes are their keys, not linked objects; aliasing is not modelled for them. The cache's recency list is modelled as links.
- The sharding of the cache by hash, and `NewId`.
- `repair.cc`, `c.cc`, `filename.cc`, `arena.cc`, `db_bench.cc` and the tools, which would add easy members only.
- nanopb's callbacks, extensions and pointer fields, and the layout of structs; a message is a typed record.
- The application's own Swift code and the Firebase, Facebook and Tag Manager headers: user interface and calls into code that is not there.
