# LevelDB's and nanopb's guarantees, proved

The repository vendors LevelDB, a log-structured key/value store, and nanopb, a
protocol buffers codec. This project models the parts of LevelDB that keep data
right — how entries move from the write queue through the log, the memtable and
the levels of table files, and how reads and iterators find them again — and
nanopb's encoder and decoder, and proves what they promise.

| file | what it models |
|---|---|
| Keys, Versions | internal keys, what a read means, table files and levels |
| Engine, EngineProofs, FlushProofs, CompactionProofs, EngineRuns | the engine as a state machine, and what holds over all its runs |
| Meanings, Clients | what writes mean to reads, over one write and over whole runs; what a client sees |
| VersionReads, Overlaps, Boundaries, CompactionPicker, VersionSet, OutputCuts, CompactionLoop, Builder, DbImpl | the algorithms that carry out its steps |
| Hazards, Gaps | two conditions the steps depend on, each with its exact extent |
| Durability, DurabilityProofs, Recovery, ReplayCuts, RecoveryRuns | the disk beside the engine, crashes, and replay |
| EditHistory, Descriptors, Manifests | the descriptor log: what is written to it in a run, and what is recovered from its bytes |
| BatchLogs | the write-ahead log: batches written to its bytes, and replayed from them |
| WriterQueue | group commit |
| SkipLists | the memtable's skip list, with readers racing its one writer |
| Cursors, Merger, TwoLevel, DbIter, Iterators | the iterator stack, layer by layer and put together |
| LogFormat, Logs, LogProofs, LogDamage | the record log, byte by byte, whole, cut short or damaged |
| HandleTables, Rings, LruCaches | the cache |
| Coding, WireLaws, ByteKeys | integers, strings and internal keys as bytes |
| BlockFormat, Blocks | the prefix-compressed block, byte by byte |
| Bits, Bloom, FilterBlocks | the bloom filter and the filter block |
| TableFormat, TableParts, Tables, TableReads | a table file from its first entry to its footer, and reading it |
| VersionEdits, WriteBatches | version edits and write batches as bytes |
| FileBytes | the bytes of all these files, spelled out |
| PbFormat, PbCommon, PbEncode | nanopb's messages, their descriptions and the encoder |
| PbParse, PbStreams, PbMessages, PbRequired, PbDecode | the decoder: what it makes of any input, and the loops that do it |
| PbVarints, PbStore, PbShapes, PbFold, PbUnchecked, PbRoundTrip | what decoding means, and what the bytes look like to any reader: storing records one by one, the required fields, the round trip |
| Options, Sequences, Spellings | small vocabulary |

How the pieces fit: `Engine` defines a state, its steps and an invariant
`Inv`, whose last clause says that every read from the horizon on gives what the
write history says. `EngineRuns` proves `Inv` over all runs, and `Meanings` says what
that amounts to: in every run the database answers like the map that the operations
written so far make of an empty one. The classes in
`VersionSet`, `CompactionLoop`, `Builder` and `DbImpl` follow the source's loops
and are proved to carry out exactly those steps; what the steps leave open — which
inputs a compaction takes, where it ends one output and begins the next, to which
level a flush goes — their contracts settle. `Durability` puts the logs, the
table files and the manifest beside the engine, splits `LogAndApply` where it
lets the mutex go, and `Recovery` proves that reopening after a crash at any step
gives a state that satisfies `Inv` again with nothing lost. `Manifests` recovers
the manifest from the bytes of the descriptor log: in every run those bytes, whole
or cut off, give back exactly the manifest that was written. `BatchLogs` does the
same for the write-ahead log: its bytes, cut off anywhere, give the batches that are
complete in them. `Iterators` puts the iterators together as the database does and
proves that a client's iterator goes through exactly the keys the history shows.

Below that, `Tables` builds a file the way the source does — blocks, deferred
index entries with shortened keys, a filter for every 2 KB of offsets, a footer —
and `TableReads.Table.Get` reads any such file: it returns the newest visible
entry of a user key, and nothing only when there is none. On nanopb's side
`PbFormat.EncodeMsg` says which bytes a message stands for and `PbEncode.Encode`
writes exactly those, or fails exactly when they do not fit. `PbParse` gives the
decoder as a function of its input, whatever that is; the methods of `PbStreams`
and `PbDecode` are proved to compute it, failures included. `PbFold.DecodingStores`
says what it means: on records in any order, with unknown fields between them,
decoding is storing the records one by one, and the round trip follows.

Three promises do not hold as the code stands, and the model says exactly when
they do. `AddBoundaryInputs` is applied to the level's inputs and not to those of the
next level, while `IsBaseLevelForKey` looks two levels down: a tombstone can be
dropped although a next-level file that was left behind still holds an older
value of its key. `Hazards.SplitBoundaryResurrects` is such a compaction, and
`Hazards.CompactionPreservesReadsIff` says that reads are preserved if and only
if no dropped tombstone is in that position. The step `Begin` of the engine
therefore asks that no such split boundary exists. And a flush may run inside a
compaction: `Gaps.GapFlushIff` says that every table that avoids the inputs is
then safe if and only if no range that avoids them has surviving entries on both
sides. Picked inputs leave no gap, which is enough; for a manual range
`Gaps.GapFlushAllowed` and `Gaps.GapFlushBreaks` are a flush and an installed
compaction after which a level is no longer sorted. The engine lets a flush
interleave only with picked inputs. In nanopb the check for required fields stops
at the 64th: `PbUnchecked.AcceptanceCompleteIff` says that acceptance means that
all required fields are there if and only if there are at most 64, and
`PbUnchecked.SixtyFifthUnchecked` is an input accepted without the 65th.

Conventions. In the engine a user key is its rank under the comparator; where keys
become bytes, any spelling that can be read back will do, and `Spellings` has one
(`Manifests.UnarySpells`, `BatchLogs.SpellingExists`). A table
file carries its contents, since it never changes after it is written. Random
choices (skip list heights, which level to compact) are parameters or left open.
Functions the source takes from elsewhere and only calls (the checksum, the hash, the size of a
built table, compression) are function values, of which nothing is assumed but
that they are functions, and that uncompressing undoes compressing. The source is
followed where its comments are less precise than its code.

`dafny verify dfyconfig.toml` checks the project.

## Model

| member | source | states |
|---|---|---|
| Keys.KeyOrder | Soliu/Pods/leveldb-library/db/dbformat.cc:51-67 | the comparator is a strict total order in which one user key's entries run from newest to oldest |
| Keys.SeekKeyBound | Soliu/Pods/leveldb-library/db/dbformat.cc:121-135 | an entry is at or after the lookup key of (u, s) exactly when it belongs to a later user key, or to u and is visible at s |
| Keys.SeekFindsNewest | Soliu/Pods/leveldb-library/db/memtable.cc:100-136 | a seek to the lookup key in a sorted run lands on the newest visible entry of the key, or the key has none |
| EngineProofs.WriteKeeps | Soliu/Pods/leveldb-library/db/db_impl.cc:1210-1235 | applying a batch under fresh consecutive sequence numbers keeps the whole engine invariant, exact reads included |
| EngineProofs.SwitchKeeps | Soliu/Pods/leveldb-library/db/db_impl.cc:1344-1365 | turning the full memtable immutable keeps the invariant |
| EngineProofs.SnapshotKeeps | Soliu/Pods/leveldb-library/db/db_impl.cc:1166-1175 | taking a snapshot keeps the invariant: reads at it are exact from then on |
| FlushProofs.FlushVersion | Soliu/Pods/leveldb-library/db/version_set.cc:491-516 | placing a table at any level the rule allows keeps levels sorted and disjoint, numbers distinct and newer entries above older ones |
| FlushProofs.FlushSide | Soliu/Pods/leveldb-library/db/db_impl.cc:908-918 | a table flushed in the middle of a picked compaction lies wholly to one side of all its inputs |
| FlushProofs.FlushBesideInputs | Soliu/Pods/leveldb-library/db/db_impl.cc:908-918 | such a flush keeps the running compaction's inputs closed, so it can still be installed |
| FlushProofs.FlushKeeps | Soliu/Pods/leveldb-library/db/db_impl.cc:535-566 | installing a flush, also inside a picked compaction, keeps the invariant |
| CompactionProofs.TopVisible | Soliu/Pods/leveldb-library/db/db_impl.cc:934-957 | the newest visible input entry of a key is never dropped by rule (A) |
| CompactionProofs.NothingUnderTombstone | Soliu/Pods/leveldb-library/db/db_impl.cc:939-954 | a tombstone dropped at the base level has nothing older left below it in the new version |
| CompactionProofs.InstallLookup | Soliu/Pods/leveldb-library/db/db_impl.cc:928-957 | a compaction preserves meaning: every read at or above the oldest snapshot finds the same value in the old and the new version |
| CompactionProofs.InstallVersion | Soliu/Pods/leveldb-library/db/db_impl.cc:860-876 | the version a compaction installs has sorted disjoint levels, distinct numbers and newest entries on top |
| CompactionProofs.InstallKeeps | Soliu/Pods/leveldb-library/db/db_impl.cc:860-876 | installing a compaction's outputs in place of its inputs keeps the invariant |
| CompactionProofs.MoveKeeps | Soliu/Pods/leveldb-library/db/db_impl.cc:718-728 | a trivial move of one file to the next level keeps the invariant |
| EngineRuns.BeginKeeps | Soliu/Pods/leveldb-library/db/db_impl.cc:878-898 | fixing the inputs and the oldest snapshot and releasing the mutex keeps the invariant |
| EngineRuns.RunInv | Soliu/Pods/leveldb-library/db/db_impl.cc:688-747 | every state reachable by writes, switches, snapshots, flushes, compactions and moves satisfies the invariant |
| EngineRuns.ReadsAreExact | Soliu/Pods/leveldb-library/db/db_impl.cc:1100-1145 | in every reachable state a read at the last sequence number or at a live snapshot returns the latest write of the key up to then |
| EngineRuns.SnapshotsAreStable | Soliu/Pods/leveldb-library/db/snapshot.h:35-91 | whatever happens in between, reading at a snapshot that is still live gives what it gave before |
| EngineRuns.LevelsStayValid | Soliu/Pods/leveldb-library/db/version_set.cc:713-726 | levels above 0 stay sorted and disjoint and newer entries stay above older ones in every reachable state |
| EngineRuns.RunGrows | Soliu/Pods/leveldb-library/db/db_impl.cc:1210-1238 | history, last sequence number and horizon only grow, and later writes are numbered above earlier ones |
| Meanings.LastDecides | Soliu/Pods/leveldb-library/db/write_batch.cc:112-130 | of the operations on a key the last one decides what the key holds; without one nothing changes |
| Meanings.WriteMeans | Soliu/Pods/leveldb-library/db/db_impl.cc:1210-1238 | after a write each key reads as its operations say: a put is read back, a deleted key is gone, every other key reads as before |
| Meanings.BatchReads | Soliu/Pods/leveldb-library/db/write_batch.cc:112-137 | the operations take effect one sequence number after the other: amid a batch exactly the first k have |
| Meanings.RunMeans | Soliu/Pods/leveldb-library/db/db_impl.cc:1100-1145 | in every run, whatever has been flushed and compacted, the database answers like the map that all operations so far make of an empty one |
| Meanings.SnapshotMeans | Soliu/Pods/leveldb-library/db/snapshot.h:35-91 | a live snapshot answers like that map at the time it was taken |
| Meanings.RunWrites | Soliu/Pods/leveldb-library/db/db_impl.cc:1185-1256 | every run writes some operations at each step |
| Clients.PutKey | Soliu/Pods/leveldb-library/db/db_impl.cc:1460-1464 | afterwards the key has the value, no other key has changed, and reads at earlier sequence numbers stay |
| Clients.DeleteKey | Soliu/Pods/leveldb-library/db/db_impl.cc:1466-1470 | afterwards the key is gone, no other key has changed, and reads at earlier sequence numbers stay |
| Clients.WriteThenGet | Soliu/Pods/leveldb-library/db/db_impl.cc:1100-1145 | a batch and then a read of any key: what the batch's operations make of what the key held |
| Clients.PutAndDelete | Soliu/Pods/leveldb-library/db/db_impl.cc:1100-1145 | a put is read back; a later deletion hides it, but not from a snapshot taken between |
| VersionReads.FindFile | Soliu/Pods/leveldb-library/db/version_set.cc:88-106 | binary search: the first file whose largest key is at least the target |
| VersionReads.SortedLevelGet | Soliu/Pods/leveldb-library/db/version_set.cc:305-323 | looking into the one candidate file of a sorted level finds the newest visible entry of the whole level |
| VersionReads.LevelZeroGet | Soliu/Pods/leveldb-library/db/version_set.cc:287-304 | level-0 files searched newest first answer for the whole level |
| VersionReads.Get | Soliu/Pods/leveldb-library/db/version_set.cc:326-421 | the level-by-level search returns the newest visible entry of the version, or reports that there is none |
| DbImpl.MemGet | Soliu/Pods/leveldb-library/db/memtable.cc:100-136 | one seek finds the newest visible entry of a memtable |
| DbImpl.DBImpl.Get | Soliu/Pods/leveldb-library/db/db_impl.cc:1100-1145 | Get over memtable, immutable memtable and version returns the newest write of the history at the snapshot, deletions included |
| Overlaps.GetOverlappingInputs | Soliu/Pods/leveldb-library/db/version_set.cc:519-559 | at level 0 the search terminates at the least overlap-closed range containing the request and returns exactly its files; above, exactly the files that meet the range; the chosen files leave no gap between them |
| Overlaps.ProgressStep | Soliu/Pods/leveldb-library/db/version_set.cc:541-555 | restarting with a wider range strictly shrinks the set of files that stick out, and the range never exceeds any closed range |
| Boundaries.FindLargestKey | Soliu/Pods/leveldb-library/db/version_set.cc:1326-1340 | the largest internal key of the inputs |
| Boundaries.FindSmallestBoundaryFile | Soliu/Pods/leveldb-library/db/version_set.cc:1344-1361 | the first file that starts with the same user key after the given key, or none exists |
| Boundaries.AddBoundaryInputs | Soliu/Pods/leveldb-library/db/version_set.cc:1378-1401 | inputs are extended by the smallest boundary file of those so far, and so on until none is left; the result is still one unbroken stretch of the level |
| CompactionPicker.GetRange | Soliu/Pods/leveldb-library/db/version_set.cc:1205-1224 | smallest and largest key over the inputs, both attained |
| CompactionPicker.SelectedIsOlder | Soliu/Pods/leveldb-library/db/version_set.cc:1403-1462 | no file of the level left out holds an older entry of a user key that an input holds |
| CompactionPicker.ChosenInputsClosed | Soliu/Pods/leveldb-library/db/version_set.cc:1403-1462 | the chosen input sets are closed in both levels |
| CompactionPicker.GaplessInputs | Soliu/Pods/leveldb-library/db/version_set.cc:1270-1322 | picked inputs cover a user-key range without gaps |
| VersionSets.Expand | Soliu/Pods/leveldb-library/db/version_set.cc:1418-1452 | the grown inputs are taken exactly when they add files of the level and none of the next and stay below the size limit; they contain the first choice and meet exactly the same files of the next level |
| VersionSets.VersionSet.SetupOtherInputs | Soliu/Pods/leveldb-library/db/version_set.cc:1403-1462 | completing either choice of inputs: closed, with all boundary files, grown exactly when growing pays, with exactly the files of the next two levels that they meet; the level's compaction pointer moves to their largest key |
| VersionSets.VersionSet.PickCompaction | Soliu/Pods/leveldb-library/db/version_set.cc:1270-1322 | size or seek compaction from a file: the start is that file, at level 0 the least overlap-closed set with it, completed as SetupOtherInputs does; the inputs are closed and gap-free |
| VersionSets.VersionSet.NextFile | Soliu/Pods/leveldb-library/db/version_set.cc:1277-1289 | the first file that ends past the level's compaction pointer, or the first one if none does |
| VersionSets.VersionSet.CompactRange | Soliu/Pods/leveldb-library/db/version_set.cc:1464-1495 | manual compaction: nothing to do exactly when no file meets the range, else closed inputs that start from all files that meet it, above level 0 from the first of them that reach the size limit |
| VersionSets.CutAtLimit | Soliu/Pods/leveldb-library/db/version_set.cc:1477-1489 | a manual compaction stops at the first file that reaches the size limit |
| CompactionLoop.HiddenByPrevious | Soliu/Pods/leveldb-library/db/db_impl.cc:928-937 | remembering only the previous entry's sequence number decides rule (A) exactly |
| CompactionLoop.CompactionState.IsBaseLevelForKey | Soliu/Pods/leveldb-library/db/version_set.cc:1533-1552 | the per-level cursors, which only move forward, answer exactly whether a deeper level can hold the key |
| CompactionLoop.CompactionState.ShouldStopBefore | Soliu/Pods/leveldb-library/db/version_set.cc:1554-1576 | the grandparent cursor stops an output exactly when the overlap bytes passed since the last stop exceed the limit |
| CompactionLoop.CompactionState.Drops | Soliu/Pods/leveldb-library/db/db_impl.cc:924-957 | an entry is dropped exactly when it is hidden or is an obsolete tombstone |
| CompactionLoop.CompactionState.ProcessKey | Soliu/Pods/leveldb-library/db/db_impl.cc:920-1000 | one turn of the loop: the outputs hold exactly the kept entries so far, in order, cut exactly where an output is large enough or a key stops it |
| CompactionLoop.CompactionState.StopIfDue | Soliu/Pods/leveldb-library/db/db_impl.cc:920-926 | the output being built is closed exactly when the next key stops it |
| CompactionLoop.CompactionState.KeepUnless | Soliu/Pods/leveldb-library/db/db_impl.cc:972-996 | a kept entry joins the output being built, which is closed exactly when that makes it large enough |
| CompactionLoop.CompactionState.FinishLast | Soliu/Pods/leveldb-library/db/db_impl.cc:1004-1006 | what is left at the end is the last output; all are cut right |
| OutputCuts.LastStopIs | Soliu/Pods/leveldb-library/db/version_set.cc:1554-1576 | a key stops an output exactly when the grandparents that end between the last such key, or the first key, and it have more bytes than the limit |
| OutputCuts.StandsNext | Soliu/Pods/leveldb-library/db/version_set.cc:1554-1576 | the moving cursor and its byte count decide exactly that |
| OutputCuts.CutsAreDetermined | Soliu/Pods/leveldb-library/db/db_impl.cc:920-996 | an output no proper part of which is large enough, that no stop lies inside, and that ends because it is large enough or at a stop: there is only one way to cut the kept entries like this |
| CompactionProofs.HiddenMeans | Soliu/Pods/leveldb-library/db/db_impl.cc:934-936 | an input entry is dropped by rule (A) exactly when no read at the oldest snapshot or later could find it among the inputs |
| CompactionProofs.KeptMeans | Soliu/Pods/leveldb-library/db/db_impl.cc:934-957 | what is kept: the entries such a read could find, but not tombstones that all such reads see and under which no deeper level can hold the key |
| CompactionLoop.TablesAreOutputs | Soliu/Pods/leveldb-library/db/db_impl.cc:965-1003 | cutting the kept entries into tables anywhere gives valid, disjoint outputs that hold exactly the kept entries |
| Builders.SavedIsFold | Soliu/Pods/leveldb-library/db/version_set.cc:650-754 | accumulated deletions and additions give the same files as applying the edits one by one, if each number is added to a level once |
| Builders.ReaddedNumberDiverges | Soliu/Pods/leveldb-library/db/version_set.cc:688-709 | without that condition the two differ: a number deleted and added again keeps the base file alive |
| Builders.SaveLevel | Soliu/Pods/leveldb-library/db/version_set.cc:714-728 | merging base and added files leaves the level in BySmallestKey order with exactly the surviving files |
| Builders.Builder.Apply | Soliu/Pods/leveldb-library/db/version_set.cc:676-709 | applying an edit records it in the per-level sets |
| Builders.Builder.SaveTo | Soliu/Pods/leveldb-library/db/version_set.cc:712-739 | the saved version is the fold of all applied edits over the base |
| DbImpl.InsertInto | Soliu/Pods/leveldb-library/db/write_batch.cc:116-137 | one entry per operation, consecutively numbered; the memtable stays sorted. What the entries mean to a read is Meanings.WriteMeans |
| DbImpl.SomeFileOverlapsRange | Soliu/Pods/leveldb-library/db/version_set.cc:122-155 | true exactly when some file overlaps the range, by scan or by binary search |
| DbImpl.PickLevelForMemTableOutput | Soliu/Pods/leveldb-library/db/version_set.cc:491-516 | exactly the deepest level, down to level 2, reached past levels the range overlaps nothing in and while the bytes it overlaps in the level after stay within the limit |
| DbImpl.DeepestIsAllowed | Soliu/Pods/leveldb-library/db/version_set.cc:491-516 | such a level overlaps nothing there or above |
| DbImpl.ApplyEdit | Soliu/Pods/leveldb-library/db/version_set.cc:814-819 | one edit through the builder gives exactly the edited version |
| DbImpl.MakeInputIterator | Soliu/Pods/leveldb-library/db/version_set.cc:1237-1268 | the merged input holds every input entry once, in internal key order |
| DbImpl.DBImpl.Write | Soliu/Pods/leveldb-library/db/db_impl.cc:1210-1238 | the method carries out the write step; each key then reads as the operations say, and earlier snapshots read as before |
| DbImpl.DBImpl.SwitchMemTable | Soliu/Pods/leveldb-library/db/db_impl.cc:1344-1365 | the method carries out the memtable switch step |
| DbImpl.DBImpl.CompactMemTable | Soliu/Pods/leveldb-library/db/db_impl.cc:535-566 | the method carries out a flush step, to exactly the level PickLevelForMemTableOutput gives |
| DbImpl.DBImpl.DoCompactionWork | Soliu/Pods/leveldb-library/db/db_impl.cc:878-1046 | the method begins, flushes and reserves numbers meanwhile, and installs: the tables hold exactly the kept entries of the merged inputs, cut right, and every read at the oldest snapshot or later is unchanged |
| DbImpl.DBImpl.InstallCompactionResults | Soliu/Pods/leveldb-library/db/db_impl.cc:860-876 | the method carries out the install step: one table for each output collected |
| DbImpl.DBImpl.MoveFile | Soliu/Pods/leveldb-library/db/db_impl.cc:718-728 | the method carries out the trivial-move step |
| Hazards.CompactionPreservesReadsIff | Soliu/Pods/leveldb-library/db/version_set.cc:1407-1422 | for closed inputs alone, a compaction preserves all reads at or above its oldest snapshot if and only if no dropped tombstone exposes an entry of its key in a next-level file that was left behind |
| Hazards.SplitBoundaryResurrects | Soliu/Pods/leveldb-library/db/version_set.cc:1418-1422 | a concrete compaction, with boundary files added only at the level, after which a deleted key is readable again |
| Hazards.SplitIsChosen | Soliu/Pods/leveldb-library/db/version_set.cc:1403-1462 | those inputs are the ones the code settles on: no boundary file follows in the level, the next level's input is exactly what meets its range, and expansion adds nothing |
| Gaps.GapFlushIff | Soliu/Pods/leveldb-library/db/db_impl.cc:908-918 | every table over user keys that no input meets can be flushed beside the compaction without overlapping any of its possible outputs if and only if no such range has entries on both sides that the compaction keeps; read off the inputs, the oldest snapshot and the version before the flush |
| Gaps.GapFreeIsSafe | Soliu/Pods/leveldb-library/db/version_set.cc:1270-1322 | inputs without a gap, as PickCompaction's are, are enough |
| Gaps.GapAloneIsSafe | Soliu/Pods/leveldb-library/db/db_impl.cc:934-957 | they are not necessary: inputs with a gap behind which everything is dropped |
| Gaps.WideIsChosen | Soliu/Pods/leveldb-library/db/version_set.cc:1464-1495 | CompactRange over a level with files [1, 2] and [8, 9] takes both and nothing of the next level |
| Gaps.GapFlushAllowed | Soliu/Pods/leveldb-library/db/version_set.cc:491-516 | while that compaction runs, a memtable over [4, 5] may be flushed to the next level, and the version is valid then |
| Gaps.GapFlushBreaks | Soliu/Pods/leveldb-library/db/db_impl.cc:860-918 | after it installs one table over [1, 9] the level is not sorted, and the one file a read of key 4 looks into does not have it |
| DbIter.LiveIsLookup | Soliu/Pods/leveldb-library/db/db_iter.cc:168-198 | the entries the forward scan yields are exactly what point reads at the sequence number find |
| DbIter.DBIter.FindNextUserEntry | Soliu/Pods/leveldb-library/db/db_iter.cc:168-198 | skips hidden, deleted and too new entries and stops at the first live one after the start |
| DbIter.DBIter.FindPrevUserEntry | Soliu/Pods/leveldb-library/db/db_iter.cc:227-267 | stops with the greatest live key below the start saved |
| DbIter.DBIter.Seek | Soliu/Pods/leveldb-library/db/db_iter.cc:269-281 | lands on the least visible key at or after the target |
| DbIter.DBIter.SeekToFirst | Soliu/Pods/leveldb-library/db/db_iter.cc:283-292 | lands on the least visible key |
| DbIter.DBIter.SeekToLast | Soliu/Pods/leveldb-library/db/db_iter.cc:294-299 | lands on the greatest visible key |
| DbIter.DBIter.Next | Soliu/Pods/leveldb-library/db/db_iter.cc:141-166 | moves to the least visible key after the current one, also when the direction switches |
| DbIter.DBIter.Prev | Soliu/Pods/leveldb-library/db/db_iter.cc:200-225 | moves to the greatest visible key before the current one, also when the direction switches |
| Merger.MergingIterator.FindSmallest | Soliu/Pods/leveldb-library/table/merger.cc:148-161 | the current child shows the least key of the union from the children's cut on |
| Merger.MergingIterator.FindLargest | Soliu/Pods/leveldb-library/table/merger.cc:163-176 | the current child shows the greatest key of the union below the cut |
| Merger.MergingIterator.Seek | Soliu/Pods/leveldb-library/table/merger.cc:55-61 | lands on the least entry of the union at or after the target |
| Merger.MergingIterator.Next | Soliu/Pods/leveldb-library/table/merger.cc:63-88 | moves to the next entry of the union, repositioning the other children on a switch |
| Merger.MergingIterator.Prev | Soliu/Pods/leveldb-library/table/merger.cc:90-118 | moves to the entry before in the union, repositioning the other children on a switch |
| Merger.MergingIterator.ForwardIsCursor | Soliu/Pods/leveldb-library/table/merger.cc:24-118 | what a forward move shows is what a cursor over the merged sequence shows |
| Merger.MergingIterator.BackwardIsCursor | Soliu/Pods/leveldb-library/table/merger.cc:24-118 | what a backward move shows is what a cursor over the merged sequence shows |
| TwoLevel.SeekThroughIndex | Soliu/Pods/leveldb-library/table/two_level_iterator.cc:82-87 | with index keys that separate the blocks, seeking index then block is seeking in the concatenation |
| TwoLevel.TwoLevelIterator.InitDataBlock | Soliu/Pods/leveldb-library/table/two_level_iterator.cc:145-161 | the open block is the one the index stands at; an open block with the same handle is kept |
| TwoLevel.TwoLevelIterator.SkipEmptyDataBlocksForward | Soliu/Pods/leveldb-library/table/two_level_iterator.cc:115-126 | terminates and moves over exhausted and empty blocks without changing the place in the concatenation |
| TwoLevel.TwoLevelIterator.SkipEmptyDataBlocksBackward | Soliu/Pods/leveldb-library/table/two_level_iterator.cc:128-138 | the same, backwards |
| TwoLevel.TwoLevelIterator.Seek | Soliu/Pods/leveldb-library/table/two_level_iterator.cc:82-87 | stands at the first entry of the concatenation at or after the target |
| TwoLevel.TwoLevelIterator.SeekToLast | Soliu/Pods/leveldb-library/table/two_level_iterator.cc:96-101 | stands at the last entry of the concatenation |
| TwoLevel.TwoLevelIterator.Next | Soliu/Pods/leveldb-library/table/two_level_iterator.cc:103-107 | one place forward in the concatenation |
| TwoLevel.TwoLevelIterator.Prev | Soliu/Pods/leveldb-library/table/two_level_iterator.cc:109-113 | one place back in the concatenation, or off its start |
| TwoLevel.TwoLevelIterator.HereIsFlat | Soliu/Pods/leveldb-library/table/two_level_iterator.cc:35-47 | the entry shown is the concatenation's entry at that place |
| Iterators.LevelIsTwoLevel | Soliu/Pods/leveldb-library/db/version_set.cc:164-228 | the index of a sorted level's files separates them as the two-level iterator's Seek asks, and that iterator goes through their concatenation |
| Iterators.AddIterators | Soliu/Pods/leveldb-library/db/version_set.cc:230-246 | one child for each level-0 file and one for each deeper level that is not empty |
| Iterators.DbIsRuns | Soliu/Pods/leveldb-library/db/db_impl.cc:1062-1087 | in every state that satisfies the invariant the children are sorted, no two of them hold the same key, and together they hold exactly the database |
| Iterators.NewInternalIterator | Soliu/Pods/leveldb-library/db/db_impl.cc:1062-1087 | the merge of those children is a cursor over exactly the database's entries, in internal key order |
| Iterators.NewIterator | Soliu/Pods/leveldb-library/db/db_impl.cc:1147-1157 | the client's iterator stands on that merge and reads at the snapshot asked for, else at the last sequence number |
| Iterators.IteratorSeesHistory | Soliu/Pods/leveldb-library/db/db_impl.cc:1062-1157 | in every run: an iterator made in one state goes, place by place, through exactly the keys the write history shows at its sequence number, and does so in every later state |
| Coding.UnmaskMask | Soliu/Pods/leveldb-library/util/crc32c.h:29-38 | unmasking undoes masking of a checksum |
| Logs.Writer.EmitPhysicalRecord | Soliu/Pods/leveldb-library/db/log_writer.cc:80-107 | appends exactly one encoded physical record |
| Logs.Writer.AddRecord | Soliu/Pods/leveldb-library/db/log_writer.cc:34-78 | terminates, also on a zero-length first fragment, and turns the file of a log into the file of the log with one more record |
| Logs.Reader.ReadPhysicalRecord | Soliu/Pods/leveldb-library/db/log_reader.cc:188-271 | buffered block reading finds exactly the physical record that the whole file has at the position, with the same drops reported |
| Logs.Reader.ReadRecord | Soliu/Pods/leveldb-library/db/log_reader.cc:56-180 | gathers fragments into the next logical record as the positional reading of the file defines it, with its reports and offset |
| Logs.Reader.ReadAll | Soliu/Pods/leveldb-library/db/db_impl.cc:412-449 | reading any byte prefix of a log to the end returns its complete records in order and reports nothing |
| LogProofs.FragmentReads | Soliu/Pods/leveldb-library/db/log_reader.cc:206-270 | a fragment that is there reads back with its type, payload and offset |
| LogProofs.FragmentTorn | Soliu/Pods/leveldb-library/db/log_reader.cc:197-221 | a fragment that is cut anywhere reads as the end of the file, unreported |
| LogProofs.HeldRecord | Soliu/Pods/leveldb-library/db/log_reader.cc:92-151 | a record all of whose fragments are there is returned whole, however many blocks it spans |
| LogProofs.BrokenRecord | Soliu/Pods/leveldb-library/db/log_reader.cc:153-160 | a record cut between or inside fragments is passed over in silence |
| LogProofs.LogReadsBack | Soliu/Pods/leveldb-library/db/log_reader.cc:56-271 | any byte prefix of the log of any records reads back as exactly its complete records, with no corruption reported |
| LogProofs.CompleteMeans | Soliu/Pods/leveldb-library/db/log_writer.cc:34-78 | a record counts as complete exactly when all bytes up to its end are in the prefix |
| LogProofs.LogExtends | Soliu/Pods/leveldb-library/db/log_writer.cc:34-78 | the file of a log followed by one more written record is the file of the longer log, wherever in a block it ends |
| LogDamage.AcceptedIsWritten | Soliu/Pods/leveldb-library/db/log_reader.cc:216-270 | whatever the bytes, a fragment that is accepted is byte for byte what the writer puts down for its type and payload, checksum included |
| LogDamage.WrittenIsAccepted | Soliu/Pods/leveldb-library/db/log_reader.cc:216-270 | and what the writer puts down is accepted, whatever follows it |
| LogDamage.ReadIsIntact | Soliu/Pods/leveldb-library/db/log_reader.cc:55-176 | whatever the bytes, a record that is read is one full fragment, or a first one, middle ones and a last one, all intact and one after the other in the file, from the offset reported |
| SkipLists.TurnIsRight | Soliu/Pods/leveldb-library/db/skiplist.h:260-281 | one turn of any search keeps the reader on a node it may stand at; when it stops, it is right for the keys linked at that instant |
| SkipLists.PointKeeps | Soliu/Pods/leveldb-library/db/skiplist.h:362-365 | setting the new node's own link changes nothing anyone can see |
| SkipLists.LinkKeeps | Soliu/Pods/leveldb-library/db/skiplist.h:362-366 | publishing the node on one level keeps every level a sorted sublist of the level below |
| SkipLists.RunInv | Soliu/Pods/leveldb-library/db/skiplist.h:337-368 | that invariant holds in every state of every interleaving of readers with the writer's single stores |
| SkipLists.SearchesAreRight | Soliu/Pods/leveldb-library/db/skiplist.h:260-322 | a search that stops at any moment is right for the keys inserted so far or for those and the one being inserted |
| SkipLists.SkipList.FindGreaterOrEqual | Soliu/Pods/leveldb-library/db/skiplist.h:260-281 | terminates with the first key at or after the target and the last node before it on every level in use |
| SkipLists.SkipList.FindLessThan | Soliu/Pods/leveldb-library/db/skiplist.h:283-302 | terminates with the last node before the key |
| SkipLists.SkipList.FindLast | Soliu/Pods/leveldb-library/db/skiplist.h:304-322 | terminates with the last node |
| SkipLists.SkipList.Insert | Soliu/Pods/leveldb-library/db/skiplist.h:337-368 | adds the key to the levels below its height and to no other |
| SkipLists.SkipList.Contains | Soliu/Pods/leveldb-library/db/skiplist.h:370-378 | true exactly for the keys in the list |
| SkipLists.Iterator.Prev | Soliu/Pods/leveldb-library/db/skiplist.h:197-205 | moves to the greatest smaller key by a fresh search |
| SkipLists.Iterator.Seek | Soliu/Pods/leveldb-library/db/skiplist.h:207-210 | moves to the least key at or after the target |
| DurabilityProofs.AppendLogKeeps | Soliu/Pods/leveldb-library/db/db_impl.cc:1218-1226 | appending a batch to the log keeps the disk complete |
| DurabilityProofs.SwitchLogKeeps | Soliu/Pods/leveldb-library/db/db_impl.cc:1344-1365 | starting a new log under a larger number keeps the disk complete |
| DurabilityProofs.StartKeeps | Soliu/Pods/leveldb-library/db/version_set.cc:801-853 | writing an edit to the manifest, before the version is installed, keeps the disk complete |
| DurabilityProofs.SettleKeeps | Soliu/Pods/leveldb-library/db/version_set.cc:855-859 | installing the version the manifest already names keeps the disk complete |
| DurabilityProofs.CollectTables | Soliu/Pods/leveldb-library/db/db_impl.cc:223-278 | DeleteObsoleteFiles never removes a table of the current version, of a version a reader holds, or a pending output |
| DurabilityProofs.CollectLogs | Soliu/Pods/leveldb-library/db/db_impl.cc:245-249 | DeleteObsoleteFiles never removes a log that recovery would read data from |
| Recovery.DiskHoldsEverything | Soliu/Pods/leveldb-library/db/db_impl.cc:349-366 | the manifest's tables and the logs from LogNumber on hold every entry of the database and the batch being written, and nothing else |
| Recovery.DiskAnswers | Soliu/Pods/leveldb-library/db/db_impl.cc:349-366 | at every step boundary the disk alone answers every read as the write history does |
| Recovery.LastLoggedIs | Soliu/Pods/leveldb-library/db/db_impl.cc:423-427 | the last sequence number found by replay is the last one given out |
| Recovery.ReplayVersion | Soliu/Pods/leveldb-library/db/db_impl.cc:491-533 | adding the replayed tables at level 0 gives a valid version with newest entries on top |
| Recovery.ReopenKeeps | Soliu/Pods/leveldb-library/db/db_impl.cc:1474-1515 | after a crash at any point, also amid a flush or a manifest write, and after earlier failed recoveries, the reopened database satisfies the whole invariant; the manifest it reads is the one Manifests.RecoverManifest recovers |
| RecoveryRuns.DbRunInv | Soliu/Pods/leveldb-library/db/db_impl.cc:688-747 | the invariant of engine and disk holds over every run with any number of crashes |
| RecoveryRuns.NothingIsLost | Soliu/Pods/leveldb-library/db/db_impl.cc:349-366 | in every such run reads in memory see the latest write and the disk alone would give the same |
| RecoveryRuns.CrashForgetsNothing | Soliu/Pods/leveldb-library/db/db_impl.cc:280-369 | a crash and recovery keep the whole history and every read at the last sequence number |
| RecoveryRuns.RecoverLogFile | Soliu/Pods/leveldb-library/db/db_impl.cc:371-489 | replaying one log into memtables keeps exactly its entries, oldest first; a table is made of a memtable exactly when it is full, and of the last one at the end |
| RecoveryRuns.RecoverLogs | Soliu/Pods/leveldb-library/db/db_impl.cc:349-366 | replaying the logs in order keeps exactly their entries, oldest first |
| RecoveryRuns.LiveLogsAscend | Soliu/Pods/leveldb-library/db/db_impl.cc:348-350 | sorting the live logs by number sorts their records by sequence number |
| RecoveryRuns.ChunksReplay | Soliu/Pods/leveldb-library/db/db_impl.cc:491-533 | tables made from the replayed chunks are what reopening needs |
| WriterQueue.BuildBatchGroup | Soliu/Pods/leveldb-library/db/db_impl.cc:1260-1306 | the group is the longest run of writers that may join, and the batch holds their operations in order |
| WriterQueue.GroupKeepsSync | Soliu/Pods/leveldb-library/db/db_impl.cc:1284-1287 | no sync writer is in the group of a leader that does not sync |
| WriterQueue.GroupWrote | Soliu/Pods/leveldb-library/db/write_batch.cc:116-130 | the group's one batch writes, writer by writer, exactly each one's operations under its own consecutive numbers |
| WriterQueue.QueueRunInv | Soliu/Pods/leveldb-library/db/db_impl.cc:1185-1256 | the queue's invariant holds in every state of every run |
| WriterQueue.ServedOnceInOrder | Soliu/Pods/leveldb-library/db/db_impl.cc:1239-1247 | every writer is dequeued once, in the order of arrival |
| WriterQueue.RangesAreDisjoint | Soliu/Pods/leveldb-library/db/db_impl.cc:1205-1237 | the sequence ranges of writers are disjoint, consecutive and in queue order |
| WriterQueue.AllOrNothing | Soliu/Pods/leveldb-library/db/db_impl.cc:1205-1237 | at every moment a read at the last sequence number sees exactly the batches of the writers that succeeded, each whole |
| EditHistory.RunReplays | Soliu/Pods/leveldb-library/db/version_set.cc:645-739 | in every run the flush, install and move edits never give a level a number twice, so one Builder over all of them saves exactly the version the run has reached |
| EditHistory.RunIsHanded | Soliu/Pods/leveldb-library/db/version_set.cc:801-859 | every run hands over such edits |
| EditHistory.FlushTraced | Soliu/Pods/leveldb-library/db/db_impl.cc:535-566 | the edit of a flush keeps every number ever given used up: it names one file, which only moves down |
| EditHistory.InstallTraced | Soliu/Pods/leveldb-library/db/db_impl.cc:860-876 | so does the edit of an installed compaction |
| EditHistory.MoveTraced | Soliu/Pods/leveldb-library/db/db_impl.cc:718-728 | so does the edit of a trivial move, although it gives a number again, one level down |
| EditHistory.FreshInTurn | Soliu/Pods/leveldb-library/db/version_set.cc:676-709 | in such a history each edit adds only numbers its level does not have when its turn comes |
| Descriptors.SnapshotTraced | Soliu/Pods/leveldb-library/db/version_set.cc:1088-1116 | a new descriptor log, which begins with a snapshot of the version, starts such a history |
| Descriptors.ReopenTraced | Soliu/Pods/leveldb-library/db/db_impl.cc:1474-1515 | and the edit that opening the database adds continues it |
| Descriptors.DescriptorIsManifest | Soliu/Pods/leveldb-library/db/version_set.cc:801-859 | in every run with crashes the records of the descriptor log lead to the manifest's version, and the last ones that set its numbers are the manifest's |
| Descriptors.RunIsWritten | Soliu/Pods/leveldb-library/db/version_set.cc:801-874 | every run writes descriptor logs |
| Manifests.RecordBack | Soliu/Pods/leveldb-library/db/version_edit.cc:41-205 | a record written as bytes gives back its file changes, keys, numbers and pointers |
| Manifests.Descriptor.LogAndApply | Soliu/Pods/leveldb-library/db/version_set.cc:801-874 | the edit, with the numbers filled in, is appended to the descriptor log, a new one beginning with a snapshot; the version becomes the edited one |
| Manifests.Descriptor.WriteSnapshot | Soliu/Pods/leveldb-library/db/version_set.cc:1088-1116 | one record with every file of the version and the compaction pointers |
| Manifests.Descriptor.TakeRecord | Soliu/Pods/leveldb-library/db/version_set.cc:934-975 | one record is decoded, its comparator checked, its edit applied, and its numbers override earlier ones |
| Manifests.Descriptor.Recover | Soliu/Pods/leveldb-library/db/version_set.cc:886-1011 | on any beginning of a descriptor log: exactly the complete records count; the version is the edits applied one by one, the numbers are the last ones set; it refuses a foreign comparator or a missing number |
| Manifests.ThereAndBack | Soliu/Pods/leveldb-library/db/version_set.cc:801-1011 | any edits that give no number twice, handed over one by one from an empty version, and recovered from the file by a new object: the same version, and the same numbers |
| Manifests.RunReplayable | Soliu/Pods/leveldb-library/db/version_set.cc:886-1011 | the descriptor log of every run satisfies what Builder asks |
| Manifests.RecoverManifest | Soliu/Pods/leveldb-library/db/version_set.cc:886-1011 | recovering the descriptor log of any run, or the beginning of it that a crash has left, gives exactly the manifest that the database relies on when it reopens |
| Manifests.RunOnFile | Soliu/Pods/leveldb-library/db/db_impl.cc:491-533 | table contents that go with such a log exist |
| Manifests.FirstTable | Soliu/Pods/leveldb-library/db/version_set.cc:801-1011 | a descriptor with one file added to it, written and recovered by a new object: recovery succeeds and has the file |
| Manifests.RecoverNew | Soliu/Pods/leveldb-library/db/version_set.cc:886-1011 | a snapshot of nothing and the record that opening a new database adds, from their bytes: recovery succeeds with no files and the numbers written |
| BatchLogs.WriteRep | Soliu/Pods/leveldb-library/db/write_batch.cc:94-109 | putting a batch's operations in one by one gives bytes that represent the batch |
| BatchLogs.ReadRep | Soliu/Pods/leveldb-library/db/write_batch.cc:132-142 | and those bytes, set as the contents of a new batch and parsed, give the batch back |
| BatchLogs.ReadLog | Soliu/Pods/leveldb-library/db/db_impl.cc:371-440 | reading a log file that breaks off anywhere gives exactly the batches that are complete in it, in order: a prefix of the log |
| BatchLogs.RecoverLogBytes | Soliu/Pods/leveldb-library/db/db_impl.cc:371-489 | replaying such a file into memtables, cut into tables whenever full, keeps exactly those batches' entries, oldest first |
| BatchLogs.ThereAndBack | Soliu/Pods/leveldb-library/db/db_impl.cc:1210-1226 | batches written to a log and replayed from its bytes by a new reader: exactly their entries |
| HandleTables.HandleTable.Insert | Soliu/Pods/leveldb-library/util/cache.cc:83-98 | puts the entry in place of the one with its key, if any, and returns that one; the table stays well formed |
| HandleTables.HandleTable.Remove | Soliu/Pods/leveldb-library/util/cache.cc:100-108 | removes and returns exactly the entry with the key |
| HandleTables.HandleTable.Resize | Soliu/Pods/leveldb-library/util/cache.cc:128-152 | rehashing keeps exactly the same entries, in the least power of two of buckets that is no less than their number |
| Rings.UnlinkRing | Soliu/Pods/leveldb-library/util/cache.cc:236-239 | unlinking a node leaves a circle of the other nodes in the same order |
| Rings.LinkRing | Soliu/Pods/leveldb-library/util/cache.cc:241-247 | linking before the head makes the node the newest of the circle |
| LruCaches.LRUCache.Lookup | Soliu/Pods/leveldb-library/util/cache.cc:249-256 | finds the cached entry with the key, takes a reference and takes it off the LRU list, or reports that there is none |
| LruCaches.LRUCache.Release | Soliu/Pods/leveldb-library/util/cache.cc:258-261 | gives a reference back: the last one runs the deleter, the last client's moves a cached entry to the newest end of the LRU list |
| LruCaches.LRUCache.Insert | Soliu/Pods/leveldb-library/util/cache.cc:263-302 | the client holds the new entry, which replaces the one with its key; nothing a client holds changes; then exactly as few of the other unheld entries go, oldest first, as make the charges fit, or all of them |
| LruCaches.LRUCache.MakeRoom | Soliu/Pods/leveldb-library/util/cache.cc:293-299 | evicts the oldest unheld entries while the usage is above the capacity, and no more: without the last of them the charges did not fit |
| LruCaches.LRUCache.FitsStays | Soliu/Pods/leveldb-library/util/cache.cc:263-302 | when the new entry fits, every other entry stays in the cache |
| LruCaches.LRUCache.Erase | Soliu/Pods/leveldb-library/util/cache.cc:317-320 | the entry with the key leaves the cache, and is deleted if no client holds it |
| LruCaches.LRUCache.Prune | Soliu/Pods/leveldb-library/util/cache.cc:322-331 | deletes exactly the entries nobody holds, oldest first, and changes nothing else |
| LruCaches.LRUCache.Destroy | Soliu/Pods/leveldb-library/util/cache.cc:205-215 | when no client holds an entry, tearing down runs the remaining deleters, oldest first, and then every deleter has run exactly once |
| HandleTables.HandleTable.FindPointer | Soliu/Pods/leveldb-library/util/cache.cc:114-120 | the slot, a bucket or a next_hash link, that points to the key's node, or the one that ends its chain |
| HandleTables.HandleTable.Link | Soliu/Pods/leveldb-library/util/cache.cc:78-83 | setting two links puts a node in the place of the one in the slot, or at the end, and leaves every other chain as it runs |
| LruCaches.EraseBook | Soliu/Pods/leveldb-library/util/cache.cc:304-315 | leaving the cache keeps lists, counts, keys and usage in agreement |
| LruCaches.UnrefBook | Soliu/Pods/leveldb-library/util/cache.cc:224-234 | giving up a reference keeps lists, counts, keys and usage in agreement, and no deleter runs while a client holds the entry |
| LruCaches.AllDeleted | Soliu/Pods/leveldb-library/util/cache.cc:224-234 | once nothing is counted, every entry's deleter has run exactly once |
| DbImpl.DBImpl.GetSnapshot | Soliu/Pods/leveldb-library/db/db_impl.cc:1166-1169 | takes a snapshot at the last sequence number, as a step that keeps the engine's invariant |
| DbImpl.DBImpl.ReleaseSnapshot | Soliu/Pods/leveldb-library/db/db_impl.cc:1171-1175 | only that snapshot leaves the list |
| Coding.VarintRoundTrip | Soliu/Pods/leveldb-library/util/coding.cc:81-90 | an encoded number is read back whatever bytes follow, in no more bytes than its size needs |
| WireLaws.VarintDigits | Soliu/Pods/leveldb-library/util/coding.cc:81-90 | the bytes of a varint are the number's digits to the base 128, least significant first, all but the last with the high bit set, and no more of them than the number has |
| WireLaws.FixedDigits | Soliu/Pods/leveldb-library/util/coding.cc:9-33 | the bytes of a fixed-width number are its digits to the base 256, least significant first |
| FileBytes.ShortRecord | Soliu/Pods/leveldb-library/db/log_writer.cc:82-108 | the log of one record that fits in a block: masked checksum of type and data, length, type 1, data |
| FileBytes.TwoBlocks | Soliu/Pods/leveldb-library/db/log_writer.cc:34-80 | a record longer than a block: a fragment of type 2 to the block's end, and one of type 4 in the next |
| FileBytes.FillsBlock | Soliu/Pods/leveldb-library/db/log_writer.cc:34-80 | what fills a block in between is of type 3 |
| FileBytes.Masks | Soliu/Pods/leveldb-library/util/crc32c.h:22-32 | masking rotates by 15 bits and adds 0xa282ead8 |
| FileBytes.KeyBytes | Soliu/Pods/leveldb-library/db/dbformat.cc:14-23 | an internal key ends in a byte for the kind and seven for the sequence number |
| FileBytes.BatchBytes | Soliu/Pods/leveldb-library/db/write_batch.cc:82-109 | a batch's bytes: sequence number, count, and the operation with its tag |
| FileBytes.EditBytes | Soliu/Pods/leveldb-library/db/version_edit.cc:12-85 | the numbers in front of a version edit's entries, and what follows each |
| FileBytes.EntryBytes | Soliu/Pods/leveldb-library/table/block_builder.cc:71-106 | the header and bytes of a block entry |
| FileBytes.StoredBytes | Soliu/Pods/leveldb-library/table/table_builder.cc:177-194 | a stored block's type and checksum |
| FileBytes.FooterBytes | Soliu/Pods/leveldb-library/table/format.cc:31-42 | the footer's handles, padding and magic number |
| FileBytes.ProbeAt | Soliu/Pods/leveldb-library/util/bloom.cc:47-52 | the probes of a key: its hash plus multiples of the hash rotated right by 17 bits, modulo 2^32 |
| FileBytes.Rotates | Soliu/Pods/leveldb-library/util/bloom.cc:47 | rotating right by 17 bits, on single bits |
| FileBytes.Numbers | Soliu/Pods/leveldb-library/util/coding.cc:9-90 | 300 as a varint and 0x01020304 in four bytes |
| FileBytes.FilterBit | Soliu/Pods/leveldb-library/util/bloom.cc:50-51 | where a probe's bit is |
| Coding.LittleEndianRoundTrip | Soliu/Pods/leveldb-library/util/coding.cc:20-33 | bytes written least significant first give the number back, for every width |
| Coding.SliceRoundTrip | Soliu/Pods/leveldb-library/util/coding.cc:171-190 | a length-prefixed string is read back and leaves exactly what follows it |
| BlockFormat.EntryDecodes | Soliu/Pods/leveldb-library/table/block.cc:54-75 | an entry's header is read back by the three-byte fast path and by the varint path alike, and names its key delta and its value |
| Blocks.BlockBuilder.Add | Soliu/Pods/leveldb-library/table/block_builder.cc:72-106 | appends an entry that shares with the key before it all that agrees, or starts a restart group after exactly as many entries as the interval says; all earlier entries keep their bytes, and the size estimate grows by exactly the entry |
| Blocks.BlockBuilder.Finish | Soliu/Pods/leveldb-library/table/block_builder.cc:62-70 | the finished bytes are a block of exactly the entries added, in order, with all restart points |
| Blocks.FinishedBlock | Soliu/Pods/leveldb-library/table/block_builder.cc:62-70 | entries, restart offsets and their number are all read back from the finished bytes |
| Blocks.LayoutGrows | Soliu/Pods/leveldb-library/table/block_builder.cc:93-106 | one more entry keeps the layout: increasing offsets, restarts that share nothing |
| Blocks.Iter.ParseNextKey | Soliu/Pods/leveldb-library/table/block.cc:224-250 | moves to exactly the next entry added, or to the end |
| Blocks.Iter.Next | Soliu/Pods/leveldb-library/table/block.cc:137-140 | the next entry, in the order they were added |
| Blocks.Iter.Prev | Soliu/Pods/leveldb-library/table/block.cc:142-161 | backing up over restart points and scanning forward lands on the exact predecessor, or on none from the first |
| Blocks.Iter.Seek | Soliu/Pods/leveldb-library/table/block.cc:163-201 | binary search over restart keys and a scan land on the first key at or after the target, or at the end when there is none |
| Blocks.Iter.SearchRestarts | Soliu/Pods/leveldb-library/table/block.cc:163-190 | every key before the restart point it ends on is before the target |
| Blocks.Iter.SeekToFirst | Soliu/Pods/leveldb-library/table/block.cc:203-206 | the first entry, or the end of an empty block |
| Blocks.Iter.SeekToLast | Soliu/Pods/leveldb-library/table/block.cc:208-213 | the last entry, or the end of an empty block |
| ByteKeys.BytesOrder | Soliu/Pods/leveldb-library/util/comparator.cc:25-27 | the bytewise comparison is a strict total order |
| ByteKeys.KeyOrder | Soliu/Pods/leveldb-library/db/dbformat.cc:51-67 | internal keys as bytes are strictly ordered, and an order statement and its negation compose as the seeks need |
| ByteKeys.TaggedParts | Soliu/Pods/leveldb-library/db/dbformat.cc:121-135 | a user key with eight packed bytes gives back its user key, sequence number and kind |
| ByteKeys.ShortestSeparator | Soliu/Pods/leveldb-library/util/comparator.cc:29-50 | shortened exactly when there is room for a byte between the first ones that differ; then strictly between start and limit, and nothing between them is shorter |
| ByteKeys.ShortSuccessor | Soliu/Pods/leveldb-library/util/comparator.cc:52-63 | the first byte that is not 0xff goes up by one and ends the key; the key itself only when every byte is 0xff |
| ByteKeys.FindShortestSeparator | Soliu/Pods/leveldb-library/db/dbformat.cc:69-86 | the separator is before the limit; it is the start itself, or, exactly when the user key can be shortened, has a user key strictly between theirs |
| ByteKeys.FindShortSuccessor | Soliu/Pods/leveldb-library/db/dbformat.cc:88-101 | the key itself or one with a greater user key, no longer than it |
| Bloom.CreateFilter | Soliu/Pods/leveldb-library/util/bloom.cc:28-54 | the bits set are exactly the probes of the keys, and the last byte is the number of probes |
| Bloom.KeyMayMatch | Soliu/Pods/leveldb-library/util/bloom.cc:56-80 | true exactly when each probe of the key is set, or the filter asks for more than 30 probes; never for a filter under two bytes |
| Bloom.MatchesWhenProbed | Soliu/Pods/leveldb-library/util/bloom.cc:56-80 | a key matches exactly when each of its probes is a probe of some added key |
| Bloom.NoFalseNegative | Soliu/Pods/leveldb-library/util/bloom.cc:56-80 | an added key always matches |
| FilterBlocks.FilterBlockBuilder.StartBlock | Soliu/Pods/leveldb-library/table/filter_block.cc:21-27 | writes the filters of all ranges before the block's; every key added so far stays with the range of its own block |
| FilterBlocks.FilterBlockBuilder.GenerateFilter | Soliu/Pods/leveldb-library/table/filter_block.cc:51-75 | the waiting keys get the filter of their range, also when there are none |
| FilterBlocks.FilterBlockBuilder.Finish | Soliu/Pods/leveldb-library/table/filter_block.cc:35-49 | the finished block holds a filter for every range, found through the offset array, that admits each key added there |
| FilterBlocks.FilterBlockReader.KeyMayMatch | Soliu/Pods/leveldb-library/table/filter_block.cc:90-104 | in a finished block the answer is exactly that of the filter of the block offset's range; anything unreadable counts as a match |
| FilterBlocks.NeverRuledOut | Soliu/Pods/leveldb-library/table/filter_block.cc:90-104 | a user key added while a block was written is never ruled out at that block's offset, at any sequence number |
| TableFormat.HandleRoundTrip | Soliu/Pods/leveldb-library/table/format.cc:15-29 | an encoded block handle is read back and takes at most 20 bytes |
| TableFormat.FooterRoundTrip | Soliu/Pods/leveldb-library/table/format.cc:31-62 | the 48-byte footer gives back both handles, padding and magic number in place |
| TableFormat.ReadsStored | Soliu/Pods/leveldb-library/table/table_builder.cc:177-194 | a stored block, compressed or not, is read back with its checksum verified or not |
| TableParts.Extends | Soliu/Pods/leveldb-library/table/table_builder.cc:94-121 | one more entry keeps every block, every separator and the order |
| TableParts.Flushes | Soliu/Pods/leveldb-library/table/table_builder.cc:125-139 | ending a block keeps the others and leaves exactly one index entry owed |
| Tables.TableBuilder.Add | Soliu/Pods/leveldb-library/table/table_builder.cc:94-123 | the entry joins the ones before it; the block ends exactly when its size estimate reaches the block size; blocks written, index separators, filter marks and what is pending stay as they must be |
| Tables.TableBuilder.Flush | Soliu/Pods/leveldb-library/table/table_builder.cc:125-139 | the block being filled is stored and its index entry becomes pending; no entry changes |
| Tables.TableBuilder.WriteBlock | Soliu/Pods/leveldb-library/table/table_builder.cc:141-175 | the block stored at the returned handle reads back as the builder's entries |
| Tables.TableBuilder.Finish | Soliu/Pods/leveldb-library/table/table_builder.cc:198-253 | the file's footer leads to an index of separators over blocks that hold exactly the added entries, and to the filter when there is one |
| TableReads.SeekInBlock | Soliu/Pods/leveldb-library/table/table.cc:216-237 | seeking in the block the index names finds the first position at or after the key in the whole table; past the block's end the entry there has another user key, so shortened separators hide nothing |
| TableReads.RuledOut | Soliu/Pods/leveldb-library/table/table.cc:221-227 | when the filter rules a key out at a block, no key of the block has its user key |
| TableReads.Table.Open | Soliu/Pods/leveldb-library/table/table.cc:38-79 | opening a built file finds its index, and its filter when asked for |
| TableReads.Table.InternalGet | Soliu/Pods/leveldb-library/table/table.cc:216-244 | reports the first entry at or after the key; or nothing, and then that entry belongs to another user key |
| TableReads.Table.Get | Soliu/Pods/leveldb-library/table/table.cc:216-244 | a read of (u, s) from a built file returns the newest entry of u with sequence number at most s, and nothing only when there is none |
| TableReads.NewestAt | Soliu/Pods/leveldb-library/db/dbformat.cc:121-135 | the first entry at or after the lookup key is the newest visible one of its user key |
| VersionEdits.VersionEdit.EncodeTo | Soliu/Pods/leveldb-library/db/version_edit.cc:41-85 | writes exactly the edit's entries, deleted files in any order |
| VersionEdits.VersionEdit.DecodeFrom | Soliu/Pods/leveldb-library/db/version_edit.cc:107-205 | reading the bytes of any well-formed entries applies exactly those entries to the cleared edit |
| VersionEdits.ItemsMean | Soliu/Pods/leveldb-library/db/version_edit.cc:26-39 | applying an edit's entries to a cleared edit gives the edit; compaction pointers are not cleared, so earlier ones stay in front |
| VersionEdits.ThereAndBack | Soliu/Pods/leveldb-library/db/version_edit.cc:41-205 | an edit written and read into a fresh object is the same edit |
| VersionEdits.FileReads | Soliu/Pods/leveldb-library/db/version_edit.cc:74-83 | a new-file entry gives back number, size and both boundary keys |
| WriteBatches.WriteBatch.Grow | Soliu/Pods/leveldb-library/db/write_batch.cc:98-109 | appending operations keeps the header in step: same sequence number, count increased by their number |
| WriteBatches.WriteBatch.Append | Soliu/Pods/leveldb-library/db/write_batch.cc:144-148 | the other batch's operations come after these and the counts add up |
| WriteBatches.WriteBatch.InsertInto | Soliu/Pods/leveldb-library/db/write_batch.cc:132-137 | the operations come out in order, each one sequence number after the one before, and the count agrees |
| WriteBatches.Iterate | Soliu/Pods/leveldb-library/db/write_batch.cc:42-80 | parsing a batch's body gives back exactly its operations |
| WriteBatches.BytesDetermine | Soliu/Pods/leveldb-library/db/write_batch.cc:42-80 | the bytes of a batch determine its sequence number and operations |
| PbFormat.FieldOfMessage | Soliu/Pods/nanopb/pb_encode.c:528-550 | a message's encoding is its fields' records in order |
| PbFormat.ZeroEncodable | Soliu/Pods/nanopb/pb_encode.c:240-337 | a value left out because it is zero all through breaks no bound at any depth, so leaving it out hides no failure |
| PbEncode.OStream.Write | Soliu/Pods/nanopb/pb_encode.c:103-124 | either all bytes are added or the stream would overflow and nothing of it changes; a sizing stream only counts |
| PbEncode.OStream.WroteKeeps | Soliu/Pods/nanopb/pb_encode.c:103-124 | what every encoder promises on every exit, failures included: what was written before stays, the count agrees with the bytes added, and the limit is kept |
| PbEncode.OStream.EncodeVarint | Soliu/Pods/nanopb/pb_encode.c:608-628 | writes exactly the base-128 encoding |
| PbEncode.OStream.EncodeSvarint | Soliu/Pods/nanopb/pb_encode.c:630-639 | writes 2i for a number i that is not negative and -2i - 1 for a negative one, in 64 bits |
| PbEncode.EncodeArray | Soliu/Pods/nanopb/pb_encode.c:147-236 | an array becomes one packed record, its size from a sizing pass or the element size, or one record for each element; too many elements are refused |
| PbEncode.EncodeSubmessage | Soliu/Pods/nanopb/pb_encode.c:717-765 | the sizing pass and the limited second pass agree, so the size never turns out changed; fails exactly when bounds break or it does not fit |
| PbEncode.IsZero | Soliu/Pods/nanopb/pb_encode.c:240-337 | true exactly when the value is zero through all its submessages, so that a field without a flag is left out |
| PbEncode.EncodeBasicField | Soliu/Pods/nanopb/pb_encode.c:341-426 | required, optional, implicit, repeated and union fields write exactly their records; absent and implicitly absent ones nothing |
| PbEncode.Encode | Soliu/Pods/nanopb/pb_encode.c:528-550 | writes exactly the message's encoding; fails exactly when a bound breaks at any depth or the bytes do not fit |
| PbEncode.GetEncodedSize | Soliu/Pods/nanopb/pb_encode.c:567-576 | the size is the exact length of the encoding |
| PbCommon.FieldIter.Find | Soliu/Pods/nanopb/pb_common.c:78-97 | goes round once: finds a field with the tag exactly when there is one, with the count of required fields before it right; an empty description has only its terminator, with tag 0 |
| PbStreams.IStream.ReadVarint | Soliu/Pods/nanopb/pb_decode.c:255-275 | on any input: up to ten bytes, cut to 64 bits, or refused, and what is left is what follows |
| PbStreams.IStream.ReadVarint32 | Soliu/Pods/nanopb/pb_decode.c:187-247 | on any input of any length the loop computes the recursive reading, repeated signs and the wrap of its 8-bit place included |
| PbVarints.Varint32Exact | Soliu/Pods/nanopb/pb_decode.c:187-247 | that reading gives, for a varint of up to five bytes, its number when it fits in 32 bits and is refused otherwise |
| PbVarints.SkipExtends | Soliu/Pods/nanopb/pb_decode.c:321-334 | what is skipped of an unknown field does not depend on what follows it |
| PbShapes.FilledSkipped | Soliu/Pods/nanopb/pb_decode.c:321-331 | skipping passes over any varint, any eight bytes, any length and that many bytes, or any four bytes, as the wire type says, whatever follows |
| PbShapes.SkippedFilled | Soliu/Pods/nanopb/pb_decode.c:321-331 | and over nothing else |
| PbFold.UnknownSkipped | Soliu/Pods/nanopb/pb_decode.c:970-986 | a field whose tag the description does not have, with a payload of such a shape, changes nothing, wherever it stands |
| PbFold.StrangerSkips | Soliu/Pods/nanopb/pb_decode.c:925-1073 | a decoder none of whose fields are the message's passes over the whole encoding and leaves its structure as it was |
| PbShapes.NumberSent | Soliu/Pods/nanopb/pb_encode.c:769-850 | which number is sent for each type: itself, the number modulo 2^64, or with zigzag an even one exactly when it is not negative, half of which is i or -i - 1; as a varint or least significant byte first |
| PbShapes.NumberRead | Soliu/Pods/nanopb/pb_decode.c:1329-1406 | which number any varint up to 64 bits stands for in a field of each type and width, and that it is accepted exactly when it fits |
| PbShapes.BoolRead | Soliu/Pods/nanopb/pb_decode.c:1318-1327 | of a bool only whether it is zero counts |
| PbShapes.RecordShape | Soliu/Pods/nanopb/pb_encode.c:669-700 | every record of an encoding begins with eight times the field's number plus a wire type and goes on in the shape that wire type asks |
| PbShapes.NothingSent | Soliu/Pods/nanopb/pb_encode.c:341-426 | absent fields, empty arrays and zeros without a flag are not sent |
| PbShapes.SingleSent | Soliu/Pods/nanopb/pb_encode.c:341-426 | any other single number or string is sent as one record |
| PbShapes.ArrayPacked | Soliu/Pods/nanopb/pb_encode.c:147-215 | the numbers of an array are sent in one record, one after another |
| PbShapes.ArrayUnpacked | Soliu/Pods/nanopb/pb_encode.c:216-236 | the elements of any other array are sent in a record each |
| PbStreams.IStream.DecodeTag | Soliu/Pods/nanopb/pb_decode.c:298-319 | on any input: number and wire type of a key, or the end on no input or a zero, or broken |
| PbStreams.IStream.SkipField | Soliu/Pods/nanopb/pb_decode.c:321-334 | on any input: skips exactly a varint, 4 or 8 bytes or a delimited string, and refuses other wire types |
| PbStreams.IStream.MakeStringSubstream | Soliu/Pods/nanopb/pb_decode.c:372-385 | the substream sees exactly the length-prefixed bytes and never past the parent |
| PbDecode.DecodeSigned | Soliu/Pods/nanopb/pb_decode.c:1329-1364 | on any input: a narrow field takes the low 32 bits as a signed number and is refused out of its range |
| PbDecode.DecodeScalar | Soliu/Pods/nanopb/pb_decode.c:1318-1428 | for each numeric type and any input: accepted exactly when a number is there and in range, and which number it is |
| PbFold.ScalarBack | Soliu/Pods/nanopb/pb_encode.c:769-850 | every encoded number comes back with what follows it, negative ones in narrow fields too |
| PbDecode.DecodeBlob | Soliu/Pods/nanopb/pb_decode.c:1430-1548 | bytes within capacity, text that leaves room for its terminator, and fixed-length bytes of the exact length or of none, which stands for zeros; all else is refused |
| PbFold.ItemsBack | Soliu/Pods/nanopb/pb_decode.c:421-449 | a packed array comes back behind the items already there when there is room for all, and is refused otherwise |
| PbDecode.DecodePacked | Soliu/Pods/nanopb/pb_decode.c:421-449 | items while there is room; bytes left over are an array overflow and refused |
| PbDecode.DecodeSubmessage | Soliu/Pods/nanopb/pb_decode.c:1503-1525 | decodes onto what is there, or onto defaults for array elements and union fields |
| PbDecode.DecodeSlot | Soliu/Pods/nanopb/pb_decode.c:406-480 | on any input: a field's slot is replaced, grown, or merged into as its kind says, or refused |
| PbMessages.PutOk | Soliu/Pods/nanopb/pb_decode.c:465-476 | storing keeps a structure in bounds and each union with at most one field set |
| PbMessages.ZeroIsDefault | Soliu/Pods/nanopb/pb_decode.c:836-887 | a value that is zero all through is what decoding starts from, which is why an implicitly absent field comes back |
| PbDecode.Turn | Soliu/Pods/nanopb/pb_decode.c:938-1020 | one turn skips an unknown field or stores a known one and marks it as seen; it ends exactly on a zero key and fails exactly where the field-by-field reading does |
| PbRequired.Note | Soliu/Pods/nanopb/pb_decode.c:1012-1017 | the bits record exactly which of the first 64 required fields were seen |
| PbRequired.Check | Soliu/Pods/nanopb/pb_decode.c:1029-1066 | the final comparison of whole and partial words passes exactly when the counted required fields were all seen |
| PbRequired.SeenByField | Soliu/Pods/nanopb/pb_decode.c:1029-1066 | that is: all required fields, up to the 64th |
| PbDecode.DecodeNoinit | Soliu/Pods/nanopb/pb_decode.c:925-1073 | on any input and onto any structure in bounds: accepted exactly when every field read is accepted and the first 64 required fields are among those whose tags were read, and then the result of storing them in order |
| PbDecode.Decode | Soliu/Pods/nanopb/pb_decode.c:1075-1087 | the same onto defaults |
| PbFold.KnownStored | Soliu/Pods/nanopb/pb_decode.c:406-480 | decoding a record and storing it are the same thing, with the same failures |
| PbFold.DecodingStores | Soliu/Pods/nanopb/pb_decode.c:925-1073 | decoding any records in any order, with unknown fields between them, folds the storing step over the records: last value wins, unions switch, arrays grow, submessages merge; it fails exactly when an array overflows, a value is out of bounds or a counted required field does not occur. Each length-delimited piece must be shorter than 4 GB |
| PbStore.StoreJoin | Soliu/Pods/nanopb/pb_decode.c:938-1020 | storing two lots of records one after the other is storing them together |
| PbStore.StoreDefault | Soliu/Pods/nanopb/pb_decode.c:1075-1087 | storing the records of a message in bounds onto defaults gives that message |
| PbFold.MessageStored | Soliu/Pods/nanopb/pb_decode.c:1503-1525 | decoding the encoding of a message onto another structure merges the message into it |
| PbFold.ConcatenationMerges | Soliu/Pods/nanopb/pb_decode.c:925-1073 | two encodings one behind the other decode to the first message with the second merged into it |
| PbStore.LastWins | Soliu/Pods/nanopb/pb_decode.c:406-420 | of two values sent for a field that is neither an array nor a submessage the last one stands, whatever was there |
| PbStore.UnionSwitches | Soliu/Pods/nanopb/pb_decode.c:465-476 | storing one field of a union leaves it as the only one set |
| PbFold.RoundTrip | Soliu/Pods/nanopb/pb_decode.c:1075-1087 | over bytes: whatever the description, decoding the encoding of a message in bounds gives that message, if each length-delimited piece is shorter than 4 GB |
| PbRequired.ChecksAllIff | Soliu/Pods/nanopb/pb_decode.c:1048-1049 | the check covers every required field if and only if there are at most 64 of them |
| PbUnchecked.AcceptedWithout | Soliu/Pods/nanopb/pb_decode.c:1012-1049 | past the 64th, for each required field there are bytes without it that the decoder accepts |
| PbUnchecked.AcceptanceCompleteIff | Soliu/Pods/nanopb/pb_decode.c:1012-1049 | whatever the bytes: if they are accepted then every required field was read in them, if and only if the description has at most 64 of them |
| PbUnchecked.SixtyFifthUnchecked | Soliu/Pods/nanopb/pb_decode.c:1048-1049 | 65 required bools: the first 64 alone are accepted, with the 65th at its default |
| PbRoundTrip.ThereAndBack | Soliu/Pods/nanopb/pb_encode.c:528-576 | for every well-formed description tree and message in bounds whose length-delimited pieces are each shorter than 4 GB, encoding into a buffer of the computed size and decoding gives the message back |
| PbRoundTrip.TooSmall | Soliu/Pods/nanopb/pb_encode.c:103-124 | with less room than the encoding needs the encoder fails |

## Left out

- In the engine, the iterators and the skip list a user key is a rank and a table is its sorted contents; Tables and TableReads prove the same reads over the bytes of a table file, ByteKeys over the bytes of a key.
- CompactionLoop.CompactionState.Emit: the size of a table while it is built and its size when finished are one function of its entries.
- TableReads.Table.Open: files that were not built by TableBuilder, for which the reader only reports errors; so too for damaged blocks (CorruptionError).
- Tables.TableBuilder.Add: asks that the 32-bit offsets of a block and the 64-bit ones of a file suffice; the source lets them wrap silently. Changing options while building is left out.
- Tables.TableBuilder.WriteBlock: compression is any function whose output uncompresses to its input.
- Bloom.CreateFilter: the number of probes is given; its computation from bits per key in floating point is not modelled.
- The block cache in front of Table::BlockReader, ApproximateOffsetOf, and iterating a table file (TwoLevel does that over entries).
- The memtable's own encoding of entries, and LookupKey's length prefix.
- Input and output errors, background errors and corrupt keys; a failed log write is modelled in the writer queue only.
- A log reader with a positive initial offset (resynchronisation) and one with checksums turned off: the database always reads from 0 with checksums on.
- Compaction scores and seek statistics: which level and file to start from is left open.
- The delays and waits of MakeRoomForWrite, and the scheduling of background work.
- Manifests.Descriptor.Recover: descriptor logs that no database wrote (corrupt records, unreadable files), and the CURRENT file that names the log.
- BatchLogs.ReadLog: logs that no database wrote (damaged records, damaged batches).
- Reuse of an old log or manifest on opening (off by default), and PrevLogNumber in recovery (always 0 since the first version with it).
- EngineRuns.RunInv: a flush interleaves only with picked compactions, and a compaction starts only without a split boundary; Hazards and Gaps say exactly what is at stake.
- SkipLists.RunInv: memory orders are not modelled; each load and store of a link is one step of a sequentially consistent machine.
- TwoLevel.TwoLevelIterator.Seek: asks that the index keys separate the blocks; Iterators.LevelIsTwoLevel shows it of a level's files.
- Iterators.AddIterators: each child is a plain cursor over what a memtable, a table file or a two-level iterator ranges over, whose own methods have the same contracts; opening files lazily, reference counts and read sampling are left out.
- ShardedLRUCache, which only sends each key to one of sixteen caches by the top bits of its hash.
- Cache keys are numbers, compared for equality; the table's hash is any function of the key.
- PbEncode.EncodeBasicField: pointer fields, callbacks, extensions and arrays of fixed count are not modelled; nor are builds without 64-bit numbers.
- PbMessages.FieldOfType: where presence is implicit the initial value is zero, the only one proto3 has.
- PbDecode.DecodeNoinit: a structure is a sequence of slots, so addresses, offsets and padding are not modelled; an absent field's storage counts as holding its defaults; what a failed decode leaves behind is not modelled, nor what a field of tag 0 writes at the address of a structure without fields.
- PbStreams.IStream.ReadVarint32: the place in the varint is kept in eight bits, the least width of its C type; compilers may choose a wider one, which differs only past the 36th byte.
- PbRoundTrip.ThereAndBack: a length-delimited piece of 4 GB or more is not promised to come back, since lengths are read as 32-bit numbers.
- PbUnchecked.AcceptanceCompleteIff: asks that the initial values of required fields be shorter than 4 GB, so that they can be sent.
- nanopb's error messages on the decoding side, where only success or failure is kept.
- The app's delegates, the umbrella headers and the other pods: declarations and user interface.
