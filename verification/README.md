# A verified model of a LevelDB store, its tables and logs, of nanopb and of DTLS reassembly

This project models, in Dafny, the storage engine vendored under
`ios/Pods/leveldb-library`, the message encoder and decoder of `ios/Pods/nanopb`
and the handshake fragmentation of `ios/Pods/BoringSSL-GRPC/src/ssl/d1_both.cc`,
and proves what they are for: that a log-structured store with snapshots, flushes
and compactions answers every read as a plain history of writes would, that every
cursor in the stack behaves as a position in one sorted sequence, that what is
written to a log, a manifest, a block, a table or a message is what is read back,
and that a flight of messages cut into datagrams is read whole and in order.

## How it is built

One module per source file or component; each file names its source at the top.
Code that works by changing things step by step is a class or a loop, proved
against a function or predicate on values; the laws are lemmas about those.

* **Store.** `InternalKeys` (keys, order, the history of writes), `Files`,
  `LsmTree` (the store as a state machine and the main theorem
  `EveryRunReadsHistory`), `LsmRuns` (which runs read like their history: exactly
  when), `LostTombstone` and `LostTombstoneRun` (a concrete counterexample and the
  run that leads to it),
  `Version` (lookup), `InputSelection` and `CompactionInputs` (choice of inputs),
  `CompactionLoop` and `CompactionMerge` (the compaction itself), `VersionBuilder`
  (edits applied to lists of files), `Manifest` (what its records amount to),
  `VersionSet` (class `VersionSet`: records written to the manifest log, and
  recovery from its bytes, cut anywhere; main theorem `CrashAndRecover`),
  `Database` (class `DBImpl` over a `VersionSet`, whose methods are steps of the
  state machine), `GroupCommit` (concurrent writers), `SkipList` (searches beside
  an insert).
* **Cursors.** `MergingIterator`, `TwoLevelIterator`, `BlockIterator`, `DbIterator`,
  `StoreIterator` (the cursors of a store put together for `DBImpl::NewIterator`).
* **Formats.** `Coding`, `LogFormat`, `WriteAheadLog`, `VersionEdit`, `BlockFormat`,
  `BlockBuilder`, `BlockRoundTrip`, `TableFilter`, `Separators`, `TableFile`.
* **Cache.** `HandleTable`, `LruCache`.
* **Messages.** `NanoPbFormat` (descriptors, structs, the wire format),
  `NanoPbDecoding` (what decoding yields), `NanoPbRoundTrip` (the main theorem
  `MessageRoundTrip`), `NanoPbNormal` (what is restored is encoded to the same
  bytes), `NanoPbUnknown` and `NanoPbMissing` (programs that know or write other
  fields), `NanoPbRoom` (other array lengths), `NanoPbMerge` (decoding into a struct
  that holds a message), `NanoPbSafety` (any bytes at all), `NanoPbEncoder` (class
  `OStream`, sizing pass and writing pass), `NanoPbDecoder` (classes `IStream` and
  `FieldIter`).
* **DTLS.** `DtlsFragments`, `DtlsReceiver`, `DtlsDelivery` (fragments of a flight),
  `DtlsIntegrity` (fragments of any origin), `DtlsSender`.
* **Examples.** `FormatExamples` has one small example of each format, byte for byte.

## Reading notes

* A user key is its rank under the user comparator, which is a parameter;
  `InternalKeys.RankEmbedsComparator` shows that nothing is lost for the order.
  Where bytes are the subject (`Separators`, `BlockIterators`, `Coding`) keys are
  byte strings; where a rank meets bytes (`Manifest`, `VersionSet`) a `Spelling`
  gives each rank a byte string and each byte string its rank.
* A Bloom filter hashes bytes, not ranks. `TableFilter.NoFalseNegativeIff` says when
  that may be ignored: keys that the comparator calls equal have to hash alike, as
  they do under a total order such as the byte-wise one. A comparator that equates
  different byte strings hashed apart has false negatives, and what is said of
  filters in `TableFilter` and `TableFile` does not hold for it.
* A file in a version is held with the entries of its table. The manifest has only
  number, size and bounds; on recovery the entries come from the tables, looked up by
  number (`ManifestRecords.Bare`, `Opened`).
* A compaction can bring a deleted value back: `SetupOtherInputs` adds boundary
  files to `inputs_[0]` only (version_set.cc:1384), while output files may be cut
  between two versions of one user key (db_impl.cc:999-1001), so that a level + 1
  file outside `inputs_[1]` may hold an older value of a key whose deletion is
  dropped. `LostTombstone.TombstoneCanBeLost` is such a state,
  `LostTombstoneRun.DeletedKeyComesBack` a run into it from the empty store.
  `LsmTree.LosesAtBoundaryIff` says when it does, in terms of the files there are
  before the call: a chosen file of level + 1 ends with a user key with whose value
  the nearest file left to its right begins, and the newest entry of that key for the
  oldest reader is an obsolete deletion among the inputs. `LsmRuns.RunReadsHistoryIff`
  says that the runs that read like their history at every moment are exactly those
  without such a compaction, and `LsmRuns.CleanRunReadsHistory` that a condition on
  the ranges of those files alone, checked before each compaction, is enough.
* Two files added under one number to one level would be told apart by the manifest
  records but not by a builder that has gathered them all. That no number comes twice
  to a level is kept by every step of `DBImpl`, since new files get new numbers and old
  ones only move down; it is part of the invariant of `VersionSet`.
* What a compaction writes out is said in terms of readers
  (`CompactionLoop.DoCompactionWork`, `LsmTree.KeptIffNeeded`): the entries by which
  some reader from the oldest snapshot on is answered, but for deletions that all of
  them see and nothing deeper needs.
* An empty batch in a write-ahead log counts as the number before its own for the
  greatest sequence number recovered (`WriteAheadLog.EmptyBatchCounts`); in a log of
  batches numbered one after the other this makes no difference (`MaxIsCount`).
* `NanoPbMissing.MissingFields` has the limit of the source in it: only the first 64
  required fields of a message are checked for.
* It is not enough for the index key of a block to lie between the last key of the
  block and the first of the next (`TableFile.LooseSeparatorLosesEntry`): it has
  to be the last key itself or to have a smaller user key than the next block
  (`Tight`), which is what `FindShortestSeparator` of the internal comparator gives.
* The comment at the head of db_iter.cc says that in reverse the inner iterator
  stands just before the entries of the current key. The code leaves it on the
  nearest entry of a smaller key that is not newer than the snapshot; the model
  follows the code.
* `VersionEdit::Clear` leaves the compaction pointers; decoding into a used object
  appends to them. The model keeps that (`VersionEdits.FieldsMakeRecord`).
* The receive window of `dtls1_open_handshake` is checked with `>` and that of
  `dtls1_get_incoming_message` with `>=`: a fragment exactly one window ahead is
  not ignored but fatal (`DtlsDelivery.WindowEdge`). Within a flight of at most
  seven messages it cannot occur. There only a fragment that arrives in the encrypted
  epoch and is not of the next message is refused (`RefusedIff`); the connection
  ends with it, so a run is what happens up to there.
* Pointers of the skip list, the cache lists and the hash chains are kept as maps
  from node to node; stores through pointers are updates of those maps.
* A nanopb struct has one slot per field of its descriptor. The selector of a oneof
  is a flag on each of its members, of which at most one is set; the integer widths
  are those of the C types, `pb_size_t` has 32 bits, as the descriptors of this
  repository demand, and field numbers have 29. Adding shifted varint groups stands
  for OR-ing them, their bits being disjoint for numbers of at most ten bytes.
* `NanoPbRoundTrip.Normal` is the message with the contents of absent fields, which
  are not on the wire, at their defaults; `NanoPbNormal.ReencodesTheSame` shows that
  it drops nothing else.

## Model

| member | source | states |
|---|---|---|
| `InternalKeys.RankEmbedsComparator` | ios/Pods/leveldb-library/db/dbformat.cc:47-63 | For any strict weak order on user keys and any finite set of them, comparing ranks decides exactly as the comparator does: for the order, keys modelled as numbers lose nothing |
| `InternalKeys.SeekIndex` | ios/Pods/leveldb-library/db/memtable.cc:101-118 | The index a seek to a key stops at: everything before is smaller, the entry there is not |
| `InternalKeys.NewestOrNone` | ios/Pods/leveldb-library/db/db_impl.cc:1110-1155 | Of every finite store, every user key and every snapshot there is a newest visible entry or none |
| `InternalKeys.SeekFindsNewest` | ios/Pods/leveldb-library/db/dbformat.h:184-213 | In a sorted run the first entry at or behind the lookup key is the newest one of the user key up to the snapshot, or there is none; this is what LookupKey and the descending tags are for |
| `InternalKeys.AnswerIsReplay` | ios/Pods/leveldb-library/db/db_impl.cc:1110-1155 | Scanning a numbered history for the newest write up to s gives what replaying its first s writes into a map gives |
| `InternalKeys.OtherKeyChangesNothing` | ios/Pods/leveldb-library/db/write_batch.cc:42-80 | A write of another user key leaves every answer of this one as it was |
| `Files.RecentAfter` | ios/Pods/leveldb-library/db/version_set.cc:1510-1529 | Replacing files by others keeps recency (newer data on lower levels, and in later level-0 files) when the new ones are recent against the rest and among themselves |
| `Files.DisjointAfter` | ios/Pods/leveldb-library/db/version_set.cc:470-495 | The same for levels >= 1 staying pairwise apart |
| `Files.NoOverlapNewer` | ios/Pods/leveldb-library/db/version_set.cc:470-495 | A file that meets no file in user keys is recent against all of them, whatever level it is put on |
| `LsmTree.WriteKeepsInv` | ios/Pods/leveldb-library/db/db_impl.cc:1195-1266 | A batch added to the memtable keeps recency across memtable, immutable memtable and files |
| `LsmTree.FlushKeepsInv` | ios/Pods/leveldb-library/db/db_impl.cc:544-575 | Putting the immutable memtable on a level free of overlap down to it keeps sorted disjoint levels and recency |
| `LsmTree.CompactionKeepsVersion` | ios/Pods/leveldb-library/db/db_impl.cc:887-1046 | Replacing the two selected input sets by outputs holding some of their entries keeps every level >= 1 disjoint and every user key newest on the lowest level |
| `LsmTree.CompactionKeepsInv` | ios/Pods/leveldb-library/db/db_impl.cc:887-1046 | So a compaction keeps the whole invariant of the store |
| `LsmTree.MoveKeepsInv` | ios/Pods/leveldb-library/db/version_set.cc:1492-1500 | So does moving a lone file down |
| `LsmTree.DroppedTombstoneUncovers` | ios/Pods/leveldb-library/db/db_impl.cc:956-970 | If the newest visible entry of a key is a deletion the loop drops, the answer afterwards is whatever is left of that key outside the inputs |
| `LsmTree.KeptAnswersAlike` | ios/Pods/leveldb-library/db/db_impl.cc:938-970 | In every other case the newest visible entry survives both drop rules |
| `LsmTree.OlderIsRight` | ios/Pods/leveldb-library/db/version_set.cc:1510-1529 | An older entry of a base-level key that is left outside the inputs can only stand on level + 1, right of a chosen file that ends with that key |
| `LsmTree.LosesAtBoundaryIff` | ios/Pods/leveldb-library/db/version_set.cc:1380-1439 | A compaction uncovers a value if and only if a chosen file of level + 1 ends with a user key, the nearest file left to its right begins with a value of that key, and the newest entry of the key for the oldest reader is an obsolete deletion among the inputs |
| `LsmTree.KeptIffNeeded` | ios/Pods/leveldb-library/db/db_impl.cc:938-970 | The two drop rules in terms of readers: an entry is kept if and only if some reader, the oldest or a later one, is answered by it, and it is not a deletion all of them see and no file two or more levels down can need |
| `LsmTree.OldestReader` | ios/Pods/leveldb-library/db/db_impl.cc:899-903 | The sequence number a compaction goes by is a live snapshot or LastSequence, and none is older |
| `LsmTree.CompactionKeepsAnswersIff` | ios/Pods/leveldb-library/db/db_impl.cc:938-970 | A compaction changes no answer at any sequence a live reader may use if and only if there is no such boundary, which can be seen from the files before the call |
| `LsmTree.CleanBoundaryLosesNothing` | ios/Pods/leveldb-library/db/version_set.cc:1380-1439 | If no file left on level + 1 continues the last user key of a chosen file to its left, nothing is lost: the condition a caller can check on the boundaries |
| `LsmTree.NothingOlderLeft` | ios/Pods/leveldb-library/db/version_set.cc:1510-1529 | Under that condition IsBaseLevelForKey really means that nothing older of the key is stored outside the inputs |
| `LsmTree.StepKeepsInv` | ios/Pods/leveldb-library/db/db_impl.cc:697-776 | Every step of the store (write, switch, flush, move, compaction, snapshot taken or released) keeps the invariant |
| `LsmTree.StepKeepsExact` | ios/Pods/leveldb-library/db/db_impl.cc:697-776 | Every lossless step keeps all answers of all live readers equal to the history |
| `LsmTree.EveryRunReadsHistory` | ios/Pods/leveldb-library/db/db_impl.cc:1110-1155 | After every run of lossless steps from the empty store, every read at a live snapshot or at LastSequence answers as a replay of the first s writes does |
| `LostTombstone.TombstoneCanBeLost` | ios/Pods/leveldb-library/db/version_set.cc:1380-1439 | A concrete store that keeps the invariant, and a selection the code may make in it, whose compaction brings a deleted value back: AddBoundaryInputs is applied to inputs_[0] only |
| `Version.FindFile` | ios/Pods/leveldb-library/db/version_set.cc:87-105 | Binary search finds the first file whose largest key is not before the key |
| `Version.RunProbeSuffices` | ios/Pods/leveldb-library/db/version_set.cc:304-321 | On a sorted level the one file found holds the newest visible entry of the user key, or the level holds none; also where the versions of one user key straddle neighbouring files |
| `Version.SearchRun` | ios/Pods/leveldb-library/db/version_set.cc:304-321 | One binary-searched file answers for the whole level |
| `Version.SortNewestFirst` | ios/Pods/leveldb-library/db/version_set.cc:277-303 | The overlapping level-0 files, newest first: the same files, ordered by falling number |
| `Version.SearchLevel0` | ios/Pods/leveldb-library/db/version_set.cc:285-302 | Probing the overlapping level-0 files newest first stops at the newest visible entry of all level-0 files |
| `Version.HitIsNewest` | ios/Pods/leveldb-library/db/version_set.cc:281-322 | A hit on a level is the newest visible entry of the whole version |
| `Version.SeekGetFinds` | ios/Pods/leveldb-library/db/memtable.cc:101-134 | One seek in a sorted run of entries, memtable or table, finds the newest visible entry of the key, tombstone or value, or that there is none |
| `Version.Get` | ios/Pods/leveldb-library/db/version_set.cc:324-400 | Version::Get answers as a full scan of all entries of all files for the newest one up to the snapshot does |
| `InputSelection.SomeFileOverlapsRange` | ios/Pods/leveldb-library/db/version_set.cc:121-155 | On sorted and on unsorted levels, true exactly when some file meets the user-key range, open ends included |
| `InputSelection.OverlappingIsSlice` | ios/Pods/leveldb-library/db/version_set.cc:498-538 | On a sorted level the files meeting a range are neighbours |
| `InputSelection.OverlappingNested` | ios/Pods/leveldb-library/db/version_set.cc:498-538 | A wider range meets at least the same files |
| `InputSelection.GetOverlappingInputs` | ios/Pods/leveldb-library/db/version_set.cc:498-538 | Terminates; returns exactly the files meeting the final range; on level 0 this is the least set that meets the range asked for and is closed under user-key overlap |
| `InputSelection.OutsideShrinks` | ios/Pods/leveldb-library/db/version_set.cc:517-533 | Every restart of the level-0 scan leaves fewer file ends sticking out of the range |
| `InputSelection.GrowingIsNeeded` | ios/Pods/leveldb-library/db/version_set.cc:517-533 | The range never grows beyond what every closed set has to cover |
| `CompactionInputs.GetRange` | ios/Pods/leveldb-library/db/version_set.cc:1182-1200 | The smallest and the largest internal key of the inputs |
| `CompactionInputs.FindSmallestBoundaryFile` | ios/Pods/leveldb-library/db/version_set.cc:1321-1344 | The first file behind the key, by smallest key, that continues its user key; none only if there is none |
| `CompactionInputs.AddBoundaryInputs` | ios/Pods/leveldb-library/db/version_set.cc:1355-1378 | Terminates; only appends; what it appends is a chain, each file continuing the user key the one before ends with; no file of the level continues the last |
| `CompactionInputs.ChainIsSlice` | ios/Pods/leveldb-library/db/version_set.cc:1355-1378 | On a sorted level the chain behind a run of neighbours continues that run without a gap, so no file is added twice |
| `CompactionInputs.BoundariesCloseSlice` | ios/Pods/leveldb-library/db/version_set.cc:1355-1378 | So the run stays contiguous and ends on a user-key boundary |
| `CompactionInputs.ClosedHasNoBoundary` | ios/Pods/leveldb-library/db/version_set.cc:1355-1378 | On level 0 an overlap-closed set has no boundary files to add |
| `CompactionInputs.InputsAreSelected` | ios/Pods/leveldb-library/db/version_set.cc:1380-1439 | Two input sets as SetupOtherInputs builds them meet all that the compaction step relies on: the outputs stay clear of every file left on level + 1, and nothing newer is left above |
| `CompactionInputs.ExpandUpper` | ios/Pods/leveldb-library/db/version_set.cc:1396-1401 | The grown upper set is again closed, contains the first one, and is just the files that meet the whole range with their boundary files |
| `CompactionInputs.SameLowerForWider` | ios/Pods/leveldb-library/db/version_set.cc:1396-1424 | Accepting it only when it meets no further lower file leaves the lower set as it was |
| `CompactionInputs.CloseUpper` | ios/Pods/leveldb-library/db/version_set.cc:1384-1384 | Behind what was picked come just the boundary files that continue its last user key, one after the other, up to the last |
| `CompactionInputs.SetupOtherInputs` | ios/Pods/leveldb-library/db/version_set.cc:1380-1439 | The two sets are ones the compaction step may take; the lower one holds the files that meet the closed picked set; the upper one is grown to all files over the whole range exactly when this brings more files, stays below the size limit and meets as many lower files |
| `CompactionLoop.LevelPointers.IsBaseLevelForKey` | ios/Pods/leveldb-library/db/version_set.cc:1510-1529 | Asked with non-decreasing user keys, the forward-moving level pointers answer as a scan of all files two or more levels down does, and never move past a file still needed |
| `CompactionLoop.LevelPointers.Advance` | ios/Pods/leveldb-library/db/version_set.cc:1513-1526 | Moves the pointer of a level to the first file not ending before the key, and says whether that file covers it |
| `CompactionLoop.PreviousDecidesHidden` | ios/Pods/leveldb-library/db/db_impl.cc:938-953 | In a sorted input the entry just before decides whether any newer version of the user key is visible to every reader: the loop needs to remember one sequence number only |
| `CompactionLoop.KeepSeqSorted` | ios/Pods/leveldb-library/db/db_impl.cc:911-1009 | The entries written out are sorted |
| `CompactionLoop.PiecesAreRun` | ios/Pods/leveldb-library/db/db_impl.cc:983-1009 | Output files cut from a sorted stream at any places, also in the middle of one user key, are non-empty, sorted and disjoint, with exact smallest and largest keys |
| `CompactionLoop.Output.Add` | ios/Pods/leveldb-library/db/db_impl.cc:983-998 | Opens an output on demand; what has been written grows by the entry |
| `CompactionLoop.Output.FinishIf` | ios/Pods/leveldb-library/db/db_impl.cc:999-1005 | Closing an output changes nothing of what has been written |
| `CompactionLoop.DropEntry` | ios/Pods/leveldb-library/db/db_impl.cc:938-970 | The entry is dropped exactly if no reader from the oldest snapshot on is answered by it, or it is a deletion all of them see of a key no file two or more levels down covers |
| `CompactionLoop.DoCompactionWork` | ios/Pods/leveldb-library/db/db_impl.cc:911-1046 | The outputs, in order, hold an input entry if and only if some reader from the oldest snapshot on is answered by it, and it is not a deletion all of them see unless a file two or more levels down covers its key; whatever the grandparents and sizes make it cut |
| `CompactionMerge.Merge2Sorted` | ios/Pods/leveldb-library/table/merger.cc:148-161 | Merging two sorted sequences with distinct keys is sorted |
| `CompactionMerge.MergeExists` | ios/Pods/leveldb-library/db/version_set.cc:1214-1245 | Sorted children with distinct keys have a sorted merge with exactly their entries |
| `CompactionMerge.Drain` | ios/Pods/leveldb-library/db/db_impl.cc:911-936 | Reading a merging iterator from SeekToFirst to its end yields the merge |
| `CompactionMerge.InputChildrenOk` | ios/Pods/leveldb-library/db/version_set.cc:1214-1245 | Each level-0 input by itself and each deeper level as one concatenation: sorted children with pairwise distinct keys |
| `CompactionMerge.ChildrenHoldInputs` | ios/Pods/leveldb-library/db/version_set.cc:1214-1245 | Together they hold exactly the entries of the inputs |
| `CompactionMerge.MakeInput` | ios/Pods/leveldb-library/db/version_set.cc:1214-1245 | The input iterator of a compaction yields all input entries in internal-key order |
| `MergingIterators.SeekSplits` | ios/Pods/leveldb-library/table/merger.cc:47-53 | A child sought to a key stands at its first entry from there on |
| `MergingIterators.SmallestDecides` | ios/Pods/leveldb-library/table/merger.cc:148-161 | When every child stands at its nearest entry from a position on, the least of them is the next entry of the merge |
| `MergingIterators.LargestDecides` | ios/Pods/leveldb-library/table/merger.cc:163-176 | The mirror image backwards |
| `MergingIterators.AdvanceSplit` | ios/Pods/leveldb-library/table/merger.cc:55-79 | Advancing the current child moves the split one entry on: all others stand where they have to |
| `MergingIterators.RetreatSplit` | ios/Pods/leveldb-library/table/merger.cc:81-108 | The same backwards |
| `MergingIterators.TurnsGiveSplit` | ios/Pods/leveldb-library/table/merger.cc:62-75 | Turning round, in either direction, puts every child next to the current key: re-seeking and skipping the equal key, or stepping back from it |
| `MergingIterators.MergingIterator.SeekToFirst` | ios/Pods/leveldb-library/table/merger.cc:31-37 | Stands on the first entry of the merge |
| `MergingIterators.MergingIterator.SeekToLast` | ios/Pods/leveldb-library/table/merger.cc:39-45 | Stands on the last |
| `MergingIterators.MergingIterator.Seek` | ios/Pods/leveldb-library/table/merger.cc:47-53 | Stands on the first entry not before the key |
| `MergingIterators.MergingIterator.Next` | ios/Pods/leveldb-library/table/merger.cc:55-79 | Moves the cursor over the merge one on, from either direction |
| `MergingIterators.MergingIterator.Prev` | ios/Pods/leveldb-library/table/merger.cc:81-108 | Moves it one back, from either direction |
| `MergingIterators.MergingIterator.FindSmallest` | ios/Pods/leveldb-library/table/merger.cc:148-161 | Chooses the child with the next entry of the merge, or none at its end |
| `MergingIterators.MergingIterator.FindLargest` | ios/Pods/leveldb-library/table/merger.cc:163-176 | Chooses the child with the previous entry, or none at the front |
| `DbIterators.ShownIsAnswer` | ios/Pods/leveldb-library/db/db_iter.cc:177-207 | The entries the iterator shows are exactly the user keys a read at its sequence finds, with the values it finds |
| `DbIterators.AnswersShowMap` | ios/Pods/leveldb-library/db/db_iter.cc:141-308 | When the answers at its sequence are those of a map, the shown entries are exactly that map in key order |
| `DbIterators.NextIsNextKey` | ios/Pods/leveldb-library/db/db_iter.cc:141-175 | From a key of the map, the next shown entry is the least greater key of it; none shown means none greater |
| `DbIterators.PrevIsPrevKey` | ios/Pods/leveldb-library/db/db_iter.cc:209-234 | The same backwards: the greatest smaller key |
| `DbIterators.DBIter.FindNextUserEntry` | ios/Pods/leveldb-library/db/db_iter.cc:177-207 | Skips deletions, what they hide and what is newer than the snapshot, up to the next shown entry |
| `DbIterators.DBIter.FindPrevUserEntry` | ios/Pods/leveldb-library/db/db_iter.cc:236-276 | Backwards, saves the newest visible version of the nearest smaller user key that is not deleted |
| `DbIterators.DBIter.Seek` | ios/Pods/leveldb-library/db/db_iter.cc:278-290 | Stands on the first shown user key not before the target |
| `DbIterators.DBIter.SeekToFirst` | ios/Pods/leveldb-library/db/db_iter.cc:292-301 | Stands on the first shown user key |
| `DbIterators.DBIter.SeekToLast` | ios/Pods/leveldb-library/db/db_iter.cc:303-308 | Stands on the last |
| `DbIterators.DBIter.Next` | ios/Pods/leveldb-library/db/db_iter.cc:141-175 | Moves to the next shown user key, also right after a turn |
| `DbIterators.DBIter.Prev` | ios/Pods/leveldb-library/db/db_iter.cc:209-234 | Moves to the previous one, also right after a turn |
| `DbIterators.CandidateIsShown` | ios/Pods/leveldb-library/db/db_iter.cc:236-276 | What the backward scan has saved when it meets a smaller user key is the shown entry of the saved key |
| `DbIterators.SeekSkipsNothing` | ios/Pods/leveldb-library/db/db_iter.cc:278-290 | Seeking to the lookup key passes no visible entry of the target |
| `VersionBuilder.OrderedIsUnique` | ios/Pods/leveldb-library/db/version_set.cc:569-590 | A list ordered by smallest key and number is determined by the files it holds |
| `VersionBuilder.OrderedApartIsRun` | ios/Pods/leveldb-library/db/version_set.cc:700-714 | Ordered files that are pairwise apart form a sorted run |
| `VersionBuilder.ReplayIsApplyEach` | ios/Pods/leveldb-library/db/version_set.cc:629-730 | Accumulating all edits and applying them once gives what applying them one version at a time gives, as long as no number is added twice to a level |
| `VersionBuilder.InsertFile` | ios/Pods/leveldb-library/db/version_set.cc:577-590 | The set of added files stays in order; a file it cannot tell from one it has is not taken |
| `VersionBuilder.SaveLevel` | ios/Pods/leveldb-library/db/version_set.cc:672-698 | Merging base and added files gives the ordered list of the files that survive, each once |
| `VersionBuilder.Builder.Apply` | ios/Pods/leveldb-library/db/version_set.cc:629-669 | Whatever the edit, the builder stays in order; one that adds no number twice is accumulated level by level |
| `VersionBuilder.ApplyNext` | ios/Pods/leveldb-library/db/version_set.cc:907-935 | The next edit of a manifest through the one builder of Recover |
| `VersionBuilder.FinishBuilder` | ios/Pods/leveldb-library/db/version_set.cc:966-970 | One builder over all edits gives the lists that applying them one version at a time gives |
| `VersionBuilder.BuildVersion` | ios/Pods/leveldb-library/db/version_set.cc:793-798 | The new version holds on every level, in order, what the edit makes of the old one |
| `VersionBuilder.Builder.SaveTo` | ios/Pods/leveldb-library/db/version_set.cc:672-715 | Every level holds, in order, the base files not removed and the added ones |
| `ManifestRecords.KeyReadsBack` | ios/Pods/leveldb-library/db/dbformat.h:133-158 | The bytes of an internal key give back user key and tag |
| `ManifestRecords.FileReadsBack` | ios/Pods/leveldb-library/db/version_edit.cc:72-80 | A file described in a record reads back as the file without its entries, which are in its table |
| `ManifestRecords.BareApplyOne` | ios/Pods/leveldb-library/db/version_set.cc:700-715 | Files enter and leave a version by their numbers: what an edit does is the same whether or not the tables are looked at |
| `ManifestRecords.ManifestGrows` | ios/Pods/leveldb-library/db/version_set.cc:777-860 | A record whose files are new to their levels keeps the manifest one that never adds a number twice to a level |
| `ManifestRecords.ChronicleGrows` | ios/Pods/leveldb-library/db/version_set.cc:777-860 | One more record: the version after each record is still what the records up to it amount to |
| `ManifestRecords.EditRecordOk` | ios/Pods/leveldb-library/db/version_set.cc:777-860 | The record of an edit fits the format and says of every level exactly what the edit says |
| `ManifestRecords.PointerListTaken` | ios/Pods/leveldb-library/db/version_set.cc:1070-1077 | The compaction pointers written in a snapshot are those that were set |
| `ManifestRecords.VerdictIff` | ios/Pods/leveldb-library/db/version_set.cc:904-964 | A manifest is accepted if and only if every record that names a comparator names this one and each of three counters is in some record |
| `ManifestRecords.LastPointerCounts` | ios/Pods/leveldb-library/db/version_set.cc:629-636 | Of the compaction pointers given for a level the last one counts |
| `ManifestRecords.RecordParses` | ios/Pods/leveldb-library/db/version_edit.cc:105-203 | A record written parses, completely, to itself |
| `ManifestRecords.ParsedLevelsExist` | ios/Pods/leveldb-library/db/version_edit.cc:85-103 | Whatever bytes are parsed, the levels of the result exist |
| `VersionSets.SnapshotStep` | ios/Pods/leveldb-library/db/version_set.cc:1064-1092 | The record of WriteSnapshot, alone, amounts to the version it was written from, pointers included |
| `VersionSets.EditStep` | ios/Pods/leveldb-library/db/version_set.cc:777-860 | The record of an edit takes what the manifest amounts to from the current version to the next |
| `VersionSets.LiveWasAdded` | ios/Pods/leveldb-library/db/version_set.cc:862-987 | Every file of a version was added to its level by some record |
| `VersionSets.NextShape` | ios/Pods/leveldb-library/db/version_set.cc:700-714 | An edit that keeps files apart leaves lists in order, sorted and disjoint from level 1 on |
| `VersionSets.VersionSet.WriteSnapshot` | ios/Pods/leveldb-library/db/version_set.cc:1064-1092 | The log gets one record, with comparator, compaction pointers and all files |
| `VersionSets.VersionSet.MakeEdit` | ios/Pods/leveldb-library/db/version_set.cc:777-791 | The VersionEdit holds the edit with its log numbers, next file number and last sequence, each under its own name |
| `VersionSets.VersionSet.LogAndApply` | ios/Pods/leveldb-library/db/version_set.cc:777-860 | The manifest, begun with a snapshot, gets the bytes of the edit; the version the edit makes is installed; the manifest still amounts to the current version, adds no number twice to a level, and says of all four counters what they are |
| `VersionSets.SurvivorsParse` | ios/Pods/leveldb-library/db/version_set.cc:904-935 | What is read from a manifest cut anywhere are the records wholly before the cut, each parsed to what was written |
| `VersionSets.VersionSet.Recover` | ios/Pods/leveldb-library/db/version_set.cc:862-987 | From the bytes of a manifest cut anywhere: the lists, counters and pointers the whole records amount to, or the error of the source |
| `VersionSets.RecoveredIsVersion` | ios/Pods/leveldb-library/db/version_set.cc:966-979 | Lists recovered from the records that made a version are, with its tables opened, that version |
| `VersionSets.CrashAndRecover` | ios/Pods/leveldb-library/db/version_set.cc:777-987 | From any prefix of the manifest the version that was current after its last whole record, sorted and disjoint from level 1 on, with the log numbers, file number and last sequence there were when that record was written, and a next file number above all there have been; refused below snapshot and one edit; from the whole manifest exactly the current version |
| `VersionSets.NewDB` | ios/Pods/leveldb-library/db/db_impl.cc:181-211 | The first manifest is the log of one record |
| `VersionSets.CreateNew` | ios/Pods/leveldb-library/db/db_impl.cc:181-211 | Recovering from it gives the empty version and the first numbers |
| `StoreIterators.OneMoreChild` | ios/Pods/leveldb-library/db/db_impl.cc:1072-1097 | A child of entries no other child has keeps the keys of the children distinct |
| `StoreIterators.ProbedApart` | ios/Pods/leveldb-library/db/version_set.cc:229-248 | No entry is in two files of which one is probed before the other |
| `StoreIterators.AddIterators` | ios/Pods/leveldb-library/db/version_set.cc:229-248 | One child per level-0 file and one per other level that is not empty hold exactly the entries of the version |
| `StoreIterators.NewInternalIterator` | ios/Pods/leveldb-library/db/db_impl.cc:1072-1097 | The merging iterator runs over exactly what is stored, memtables and files, in internal-key order |
| `Database.EditFitsHere` | ios/Pods/leveldb-library/db/version_set.cc:777-791 | Edits of the store fit the format and never add a number to a level that had it: files only move down |
| `Database.NumbersAfter` | ios/Pods/leveldb-library/db/version_set.cc:777-860 | Live files stay below all places their numbers were added at |
| `Database.LogEdit` | ios/Pods/leveldb-library/db/version_set.cc:777-860 | An edit that leaves a version again goes into the manifest, and the placed files change by exactly what it says |
| `Database.InstallEditIs` | ios/Pods/leveldb-library/db/db_impl.cc:869-885 | The edit of a compaction removes the inputs and adds the outputs on the next level |
| `Database.MergeAndRewrite` | ios/Pods/leveldb-library/db/db_impl.cc:887-1046 | The outputs are the kept entries in fresh files, no more of them than there are entries |
| `Database.PickLevelForMemTableOutput` | ios/Pods/leveldb-library/db/version_set.cc:470-495 | The chosen level is one no file down to which meets the new file |
| `Database.PickedPlaceIsFree` | ios/Pods/leveldb-library/db/version_set.cc:470-495 | So the flush may go there |
| `Database.NewerLayerDecides` | ios/Pods/leveldb-library/db/db_impl.cc:1128-1137 | A hit in a newer layer is the answer of the whole store |
| `Database.OutputsAreRewritten` | ios/Pods/leveldb-library/db/db_impl.cc:983-1046 | The files the loop wrote are the kept entries in fresh disjoint files, as the compaction step demands |
| `Database.SelectedInputs` | ios/Pods/leveldb-library/db/version_set.cc:1247-1302 | The inputs chosen for any level are ones the compaction step may take |
| `Database.PickInputs` | ios/Pods/leveldb-library/db/version_set.cc:1247-1302 | The picked file alone, or the first files meeting the range; on level 0 with all files that overlap them |
| `Database.DBImpl.constructor` | ios/Pods/leveldb-library/db/db_impl.cc:1478-1513 | A new database: the first manifest is written and recovered from, a log and a manifest of this run are begun; the state is the empty one |
| `Database.DBImpl.Write` | ios/Pods/leveldb-library/db/db_impl.cc:1195-1266 | A step of the state machine: the batch numbered from LastSequence + 1 |
| `Database.DBImpl.SwitchMemTable` | ios/Pods/leveldb-library/db/db_impl.cc:1354-1376 | A step: the memtable becomes immutable when none is |
| `Database.DBImpl.GetSnapshot` | ios/Pods/leveldb-library/db/db_impl.cc:1176-1179 | A step: LastSequence becomes a live reader |
| `Database.DBImpl.ReleaseSnapshot` | ios/Pods/leveldb-library/db/db_impl.cc:1181-1185 | A step: one reader less |
| `Database.DBImpl.CompactMemTable` | ios/Pods/leveldb-library/db/db_impl.cc:544-575 | A step: the immutable memtable becomes a file on the chosen level |
| `Database.DBImpl.TrivialMove` | ios/Pods/leveldb-library/db/db_impl.cc:727-745 | A step: a lone input file without lower inputs is moved down |
| `Database.DBImpl.Compact` | ios/Pods/leveldb-library/db/db_impl.cc:887-1046 | A step of the state machine, whole compaction at once |
| `Database.DBImpl.BackgroundCompaction` | ios/Pods/leveldb-library/db/db_impl.cc:697-776 | An immutable memtable is flushed first and nothing else; otherwise inputs are picked and moved or compacted, by hand only compacted: always a step that is enabled |
| `Database.DBImpl.TakeStep` | ios/Pods/leveldb-library/db/version_set.cc:777-860 | The step is in the manifest when its files are installed |
| `Database.DBImpl.RecoverFiles` | ios/Pods/leveldb-library/db/version_set.cc:862-987 | In every state, recovering from the manifest gives exactly the files there are, in lists sorted and disjoint from level 1 on; no stored sequence number is above the recovered one and no live file number is given out again |
| `Database.DBImpl.NewIterator` | ios/Pods/leveldb-library/db/db_impl.cc:1157-1168 | What the user-key cursor over the merging iterator of memtables and files shows at a live snapshot is exactly the map that replaying the history leaves, in key order |
| `Database.DBImpl.Get` | ios/Pods/leveldb-library/db/db_impl.cc:1110-1155 | Memtable, immutable memtable, then files: in every state whose answers are exact, Get answers as the history of writes does |
| `Coding.FixedRoundTrip` | ios/Pods/leveldb-library/util/coding.cc:9-19 | Little-endian integers of n bytes read back, for every value that fits |
| `Coding.VarintRoundTrip` | ios/Pods/leveldb-library/util/coding.cc:55-64 | A varint reads back, and stops where it ends |
| `Coding.EncodeVarint64` | ios/Pods/leveldb-library/util/coding.cc:55-64 | The loop writes the varint of the value |
| `Coding.GetVarint` | ios/Pods/leveldb-library/util/coding.cc:85-131 | The loop reads exactly what the recursive decoding reads, and fails where it fails |
| `Coding.PrefixedRoundTrip` | ios/Pods/leveldb-library/util/coding.cc:72-75 | A length-prefixed string reads back, and what follows it is left |
| `LogFormat.Writer.AddRecord` | ios/Pods/leveldb-library/db/log_writer.cc:34-80 | Terminates, also where an empty first fragment is written; appends exactly the fragments of the record |
| `LogFormat.Writer.EmitPhysicalRecord` | ios/Pods/leveldb-library/db/log_writer.cc:82-108 | Header and payload as the format says |
| `LogFormat.Reader.FillHeader` | ios/Pods/leveldb-library/db/log_reader.cc:192-217 | Reads on until a header is in the buffer, skipping block trailers; false only at the end of the file |
| `LogFormat.Reader.ReadPhysicalRecord` | ios/Pods/leveldb-library/db/log_reader.cc:189-271 | Where the writer put a physical record it is returned if it is all there, else the end of the file; no corruption is reported |
| `LogFormat.Reader.ReadRecord` | ios/Pods/leveldb-library/db/log_reader.cc:56-172 | From the place where a record begins: that record if all its fragments are there, else the end of the file; never a report |
| `LogFormat.NextPiece` | ios/Pods/leveldb-library/db/log_reader.cc:189-271 | One fragment read is one fragment written |
| `LogFormat.EncodeSnoc` | ios/Pods/leveldb-library/db/log_writer.cc:34-80 | Appending a record appends its fragments at the block offset reached |
| `LogFormat.WriteLog` | ios/Pods/leveldb-library/db/log_writer.cc:34-80 | Records added one by one make the encoding of the sequence |
| `LogFormat.WholeIsWithin` | ios/Pods/leveldb-library/db/log_reader.cc:56-172 | The number of records promised is exactly that of the records whose encoding ends within the prefix |
| `LogFormat.ReadLog` | ios/Pods/leveldb-library/db/log_reader.cc:56-271 | For every record sequence, block size, checksum and byte prefix of the file: exactly the records wholly in the prefix, in order, and no corruption reported |
| `WriteAheadLog.WriteBatch.Add` | ios/Pods/leveldb-library/db/write_batch.cc:98-109 | Put and Delete append one record and count it |
| `WriteAheadLog.WriteBatch.Append` | ios/Pods/leveldb-library/db/write_batch.cc:144-148 | Appending a batch appends its operations and adds the counts |
| `WriteAheadLog.WriteBatch.SetSequence` | ios/Pods/leveldb-library/db/write_batch.cc:94-96 | Only the header changes |
| `WriteAheadLog.OpRoundTrip` | ios/Pods/leveldb-library/db/write_batch.cc:42-80 | An operation reads back from its bytes, whatever follows |
| `WriteAheadLog.Iterate` | ios/Pods/leveldb-library/db/write_batch.cc:42-80 | Iterating over the bytes of a batch yields its operations in order, numbered from its sequence |
| `WriteAheadLog.RecoverLogFile` | ios/Pods/leveldb-library/db/db_impl.cc:380-480 | Replaying a write-ahead log cut at any byte inserts the operations of exactly the batches wholly in it, batch after batch, operation j of a batch in its place under number sequence + j, and nothing else |
| `WriteAheadLog.InsertionsAreHistory` | ios/Pods/leveldb-library/db/db_impl.cc:380-480 | Batches numbered one after the other give one uninterrupted run of sequence numbers; those of more batches only add to it |
| `WriteAheadLog.RecoveredReadsHistory` | ios/Pods/leveldb-library/db/db_impl.cc:380-480 | When batches were numbered one after the other from 1, what was recovered is a prefix of all committed operations, and every read of it is a read of that plain history |
| `WriteAheadLog.MaxIsCount` | ios/Pods/leveldb-library/db/db_impl.cc:444-448 | Then the greatest sequence number recovered is the number of operations recovered, so that the next write continues without a gap |
| `WriteAheadLog.MaxIsGreatest` | ios/Pods/leveldb-library/db/db_impl.cc:444-448 | Without empty batches it is the greatest number inserted, 0 if none |
| `WriteAheadLog.EmptyBatchCounts` | ios/Pods/leveldb-library/db/db_impl.cc:444-448 | An empty batch counts as the number before its own, though nothing is inserted |
| `GroupCommit.BuildBatchGroup` | ios/Pods/leveldb-library/db/db_impl.cc:1270-1316 | The operations of the first writers of the queue, in order; no writer that asked for a sync is in a group whose leader did not, and the group ends only before such a writer or before a batch that makes it larger than the limit |
| `GroupCommit.GroupIsBounded` | ios/Pods/leveldb-library/db/db_impl.cc:1281-1290 | A small write waits for at most 128 KB of others, and no group is larger than 1 MB but for its first batch |
| `GroupCommit.SyncedIsDurable` | ios/Pods/leveldb-library/db/db_impl.cc:1227-1232 | In every interleaving, whatever a crash leaves of the log that holds what was synced: the operations of a writer that asked for a sync and is done are in it, at their place; and nothing is synced unless asked for |
| `GroupCommit.StepKeepsInv` | ios/Pods/leveldb-library/db/db_impl.cc:1195-1266 | In every interleaving: the log is the finished writers and the group being written, the memtable the finished ones and what of the group is inserted, numbered without gaps, and LastSequence counts the finished ones only |
| `GroupCommit.BatchIsAllOrNothing` | ios/Pods/leveldb-library/db/db_impl.cc:1195-1266 | After every run: the operations of a finished writer are logged and readable, each under its own number in a contiguous private range; of any other writer no reader sees anything |
| `GroupCommit.EverythingOnceInOrder` | ios/Pods/leveldb-library/db/db_impl.cc:1195-1266 | With the queue empty, log and memtable hold every operation exactly once in queue order |
| `GroupCommit.ReadableIsPublished` | ios/Pods/leveldb-library/db/db_impl.cc:1233-1245 | What readers see is exactly the operations of finished writers |
| `TwoLevelIterators.OneBlockSuffices` | ios/Pods/leveldb-library/table/two_level_iterator.cc:82-87 | Where the index keys separate the blocks, the seek position of the whole lies in, or right behind, the one block the index leads to |
| `TwoLevelIterators.TwoLevelIterator.Seek` | ios/Pods/leveldb-library/table/two_level_iterator.cc:82-87 | Stands on the first entry of the concatenation not before the key |
| `TwoLevelIterators.TwoLevelIterator.SeekToFirst` | ios/Pods/leveldb-library/table/two_level_iterator.cc:89-94 | Stands on the first entry |
| `TwoLevelIterators.TwoLevelIterator.SeekToLast` | ios/Pods/leveldb-library/table/two_level_iterator.cc:96-101 | Stands on the last |
| `TwoLevelIterators.TwoLevelIterator.Next` | ios/Pods/leveldb-library/table/two_level_iterator.cc:103-107 | Moves one entry on in the concatenation, over empty blocks too |
| `TwoLevelIterators.TwoLevelIterator.Prev` | ios/Pods/leveldb-library/table/two_level_iterator.cc:109-113 | Moves one entry back |
| `TwoLevelIterators.TwoLevelIterator.SkipEmptyDataBlocksForward` | ios/Pods/leveldb-library/table/two_level_iterator.cc:115-126 | Terminates, and stands on the next entry there is |
| `TwoLevelIterators.TwoLevelIterator.SkipEmptyDataBlocksBackward` | ios/Pods/leveldb-library/table/two_level_iterator.cc:128-139 | The same backwards |
| `TableFilter.SetProbes` | ios/Pods/leveldb-library/util/bloom.cc:40-52 | The probes of a key are set, no other bit is, and none is cleared |
| `TableFilter.NoFalseNegativeIff` | ios/Pods/leveldb-library/util/bloom.cc:56-80 | No filter holding a key denies one the comparator calls equal, if and only if keys it calls equal hash alike; otherwise a filter of one bit does |
| `TableFilter.RankHashIsByteHash` | ios/Pods/leveldb-library/util/bloom.cc:56-80 | If they do, going by the hash of the rank is going by the hash of the bytes, probe for probe |
| `TableFilter.TotalOrderHashesAlike` | ios/Pods/leveldb-library/util/comparator.cc:27-29 | Under a comparator that is a total order, such as the byte-wise one, they do |
| `TableFilter.CreateFilter` | ios/Pods/leveldb-library/util/bloom.cc:28-54 | A filter covers every key it was built from and has no bit but for them, with 32-bit wrap-around of the probes; its size is that of the bits per key, 64 at least, in whole bytes; the hash is one of ranks, that of the bytes when equal keys hash alike |
| `TableFilter.BloomMayMatch` | ios/Pods/leveldb-library/util/bloom.cc:56-80 | A filter that covers a key never denies it |
| `TableFilter.FilterBlockBuilder.StartBlock` | ios/Pods/leveldb-library/table/filter_block.cc:21-27 | Filters are generated up to the 2KB range of the block offset |
| `TableFilter.FilterBlockBuilder.GenerateFilter` | ios/Pods/leveldb-library/table/filter_block.cc:51-75 | The keys collected go into one filter, also when there are none |
| `TableFilter.FilterBlockBuilder.Finish` | ios/Pods/leveldb-library/table/filter_block.cc:35-49 | Every (block offset, key) added is covered, and no filter has a bit but for the keys of its range |
| `TableFilter.DeniedIff` | ios/Pods/leveldb-library/util/bloom.cc:56-80 | A key is denied if and only if one of its probes is a probe of none of the keys the filter was made for |
| `TableFilter.KeyMayMatch` | ios/Pods/leveldb-library/table/filter_block.cc:90-104 | The reader never denies a key that was added under the block offset, and lets another pass only if all its probes are probes of keys of that range; the hash is one of ranks |
| `Separators.BytesOrder` | ios/Pods/leveldb-library/util/comparator.cc:27-29 | Byte-wise comparison is a total order |
| `Separators.FindShortestSeparator` | ios/Pods/leveldb-library/util/comparator.cc:31-52 | The result is not before start, before limit, and no longer than start; it differs from start exactly when there is a byte between the first two that differ, and then nothing shorter separates the two |
| `Separators.FindShortSuccessor` | ios/Pods/leveldb-library/util/comparator.cc:54-65 | The result is not before the key, and nothing shorter is; it is the key itself only if all its bytes are 0xFF |
| `Separators.FindInternalSeparator` | ios/Pods/leveldb-library/db/dbformat.cc:65-82 | The separator is not before start and before limit, and is start itself unless its user key lies before that of limit |
| `Separators.FindInternalSuccessor` | ios/Pods/leveldb-library/db/dbformat.cc:84-97 | The successor is not before the key |
| `TableFile.TableBuilder.Add` | ios/Pods/leveldb-library/table/table_builder.cc:94-123 | The table built so far grows by the entry; the index entry of the block before is written once the next key is known |
| `TableFile.TableBuilder.Flush` | ios/Pods/leveldb-library/table/table_builder.cc:125-139 | The block is closed; its filters cover its keys under its offset |
| `TableFile.TableBuilder.Finish` | ios/Pods/leveldb-library/table/table_builder.cc:198-253 | The finished table holds what was added, its index keys are tight separators and its filters cover every key |
| `TableFile.FirstBehindBlock` | ios/Pods/leveldb-library/table/table.cc:214-242 | When the block the index leads to ends before the lookup key, the table holds nothing of the user key up to s |
| `TableFile.InternalGet` | ios/Pods/leveldb-library/table/table.cc:214-242 | One block and perhaps its filter suffice: the newest entry of the key up to s is handed over whenever the table holds one |
| `TableFile.LooseSeparatorLosesEntry` | ios/Pods/leveldb-library/db/dbformat.cc:65-82 | A table whose separator lies between the last key of a block and the first of the next, but is not tight, from which a lookup would miss an entry |
| `DtlsFragments.ParseReadsBack` | ios/Pods/BoringSSL-GRPC/src/ssl/d1_both.cc:450-464 | A fragment parses back from its bytes, whatever follows |
| `DtlsFragments.ParsedIsSerialized` | ios/Pods/BoringSSL-GRPC/src/ssl/d1_both.cc:450-464 | Nothing else parses: what is parsed is the serialization of what is returned |
| `DtlsFragments.MarkBytes` | ios/Pods/BoringSSL-GRPC/src/ssl/d1_both.cc:220-230 | The bitmap bytes are written as the source writes them: first, middle and last byte of the range |
| `DtlsFragments.MarkedBits` | ios/Pods/BoringSSL-GRPC/src/ssl/d1_both.cc:196-230 | Bit by bit, exactly the range is added |
| `DtlsFragments.AllMarked` | ios/Pods/BoringSSL-GRPC/src/ssl/d1_both.cc:232-246 | The byte-wise test is true exactly when every byte of the message is marked |
| `DtlsFragments.HmFragment.constructor` | ios/Pods/BoringSSL-GRPC/src/ssl/d1_both.cc:151-190 | A new message knows none of its bytes, and is complete at once only when it is empty |
| `DtlsFragments.HmFragment.Mark` | ios/Pods/BoringSSL-GRPC/src/ssl/d1_both.cc:206-246 | The bitmap is dropped exactly when the ranges marked so far cover the whole message |
| `DtlsFragments.HmFragment.Receive` | ios/Pods/BoringSSL-GRPC/src/ssl/d1_both.cc:395-398 | A fragment overlays the bytes known so far |
| `DtlsReceivers.PutIntoSlot` | ios/Pods/BoringSSL-GRPC/src/ssl/d1_both.cc:268-289 | Writing a message into slot seq mod 7 is writing it into the map from numbers to messages |
| `DtlsReceivers.SlotOfMessage` | ios/Pods/BoringSSL-GRPC/src/ssl/d1_both.cc:268-271 | A slot never holds a message of another number than the one looked for |
| `DtlsReceivers.AdvanceRing` | ios/Pods/BoringSSL-GRPC/src/ssl/d1_both.cc:421-433 | Emptying the slot read moves the window on, also where the 16-bit number wraps |
| `DtlsReceivers.Receiver.GetIncomingMessage` | ios/Pods/BoringSSL-GRPC/src/ssl/d1_both.cc:260-290 | The known message, a blank one, or the error the source returns; outside the window always an error |
| `DtlsReceivers.Receiver.AcceptFragment` | ios/Pods/BoringSSL-GRPC/src/ssl/d1_both.cc:356-399 | One fragment does to the ring what AcceptOne does to the map |
| `DtlsReceivers.Receiver.OpenHandshake` | ios/Pods/BoringSSL-GRPC/src/ssl/d1_both.cc:292-401 | A record does to the ring what its fragments, one after the other up to the first refused, do to the map; of other records just a one-byte ChangeCipherSpec in the clear is accepted and just encrypted application data is dropped silently, each other kind refused with its alert |
| `DtlsReceivers.Receiver.GetMessage` | ios/Pods/BoringSSL-GRPC/src/ssl/d1_both.cc:403-419 | Returns the next message exactly when it is complete, with its header for the transcript |
| `DtlsReceivers.Receiver.NextMessage` | ios/Pods/BoringSSL-GRPC/src/ssl/d1_both.cc:421-433 | Forgets the message read and moves on |
| `DtlsDelivery.DeliverKeepsFaithful` | ios/Pods/BoringSSL-GRPC/src/ssl/d1_both.cc:356-399 | After a fragment of the flight that is not refused, whatever its epoch, the inbox holds of every unread message exactly the bytes that have arrived |
| `DtlsDelivery.RefusedIff` | ios/Pods/BoringSSL-GRPC/src/ssl/d1_both.cc:369-380 | A fragment of the flight is refused if and only if it comes in the encrypted epoch and is not of the message to be read next |
| `DtlsDelivery.RunGoesOnIff` | ios/Pods/BoringSSL-GRPC/src/ssl/d1_both.cc:356-399 | So a run goes on with the next fragment exactly when it is of the flight and, in the encrypted epoch, of the message to be read next; in the clear always |
| `DtlsDelivery.ReadKeepsFaithful` | ios/Pods/BoringSSL-GRPC/src/ssl/d1_both.cc:421-433 | Reading a message keeps this for the rest |
| `DtlsDelivery.CurrentIsExact` | ios/Pods/BoringSSL-GRPC/src/ssl/d1_both.cc:403-419 | dtls1_get_message succeeds exactly when every byte of the next message has arrived, and then returns it byte for byte |
| `DtlsDelivery.FlightIsRead` | ios/Pods/BoringSSL-GRPC/src/ssl/d1_both.cc:345-433 | Over every run of deliveries (lost, repeated, overlapping, reordered, cut anyhow) in either epoch, none refused, and reads: the messages read are the first ones of the flight in order, and the next can be read exactly when all of it has arrived |
| `DtlsDelivery.WindowEdge` | ios/Pods/BoringSSL-GRPC/src/ssl/d1_both.cc:375-380 | In the clear, a fragment is answered with a fatal internal error if and only if its number is exactly one window ahead; further ahead it is ignored |
| `DtlsIntegrity.DeliverKeepsHonest` | ios/Pods/BoringSSL-GRPC/src/ssl/d1_both.cc:356-399 | A fragment of any origin that is not refused: every fragment taken agrees with its message in type and length, every byte known came in one of them, none that came is missing, and no message exceeds the limit |
| `DtlsIntegrity.ReadIsPutTogether` | ios/Pods/BoringSSL-GRPC/src/ssl/d1_both.cc:292-433 | Over every run of any fragments, forged and contradictory ones included: the message that can be read has the type and length that all fragments taken for its number have, and each of its bytes was brought by one of them |
| `DtlsSenders.Sender.FinishMessage` | ios/Pods/BoringSSL-GRPC/src/ssl/d1_both.cc:499-526 | The stored message is one whole fragment under the next number |
| `DtlsSenders.Sender.AddOutgoing` | ios/Pods/BoringSSL-GRPC/src/ssl/d1_both.cc:543-580 | Appends to the flight, or begins a new one after a flush; refuses beyond seven messages |
| `DtlsSenders.Sender.SealNextMessage` | ios/Pods/BoringSSL-GRPC/src/ssl/d1_both.cc:621-710 | The next piece of the message, as long as fits; no progress exactly when one byte does not fit; an error exactly for a malformed message |
| `DtlsSenders.Sender.SealNextPacket` | ios/Pods/BoringSSL-GRPC/src/ssl/d1_both.cc:715-756 | The records of a packet carry the flight on without a gap, fit, and leave no room for what comes next; fails exactly when the first message has no room |
| `DtlsSenders.Sender.SendFlight` | ios/Pods/BoringSSL-GRPC/src/ssl/d1_both.cc:758-801 | Terminates; the packets the channel took carry the flight without a gap to where it now stands, each within the MTU; all of it is sent unless the channel blocks or the MTU leaves no room |
| `DtlsSenders.Sender.Retransmit` | ios/Pods/BoringSSL-GRPC/src/ssl/d1_both.cc:810-820 | The same from the start of the flight |
| `DtlsSenders.ProgressIsMade` | ios/Pods/BoringSSL-GRPC/src/ssl/d1_both.cc:715-756 | Every record leaves less to send |
| `DtlsSenders.EmittedIsCut` | ios/Pods/BoringSSL-GRPC/src/ssl/d1_both.cc:621-710 | Whatever the MTU, every record parses back to a cut of one of the messages |
| `DtlsSenders.PassBringsAll` | ios/Pods/BoringSSL-GRPC/src/ssl/d1_both.cc:758-801 | A pass without a gap brings every byte it passed over |
| `DtlsSenders.HoldsMore` | ios/Pods/BoringSSL-GRPC/src/ssl/d1_both.cc:499-526 | A message finished under the next number extends the numbered flight |
| `DtlsSenders.FlightArrives` | ios/Pods/BoringSSL-GRPC/src/ssl/d1_both.cc:345-801 | End to end: once every record of one whole pass has arrived, in any order and among any cuts of other passes, the receiver reads on to the end of the flight and what it reads is the flight |
| `BlockFormat.EntryAt` | ios/Pods/leveldb-library/table/block_builder.cc:71-105 | In the bytes of a block, entry k stands at its offset, as encoded |
| `BlockFormat.OffsetsAscend` | ios/Pods/leveldb-library/table/block_builder.cc:71-105 | Offsets ascend by at least the three length bytes |
| `BlockFormat.KeyWithin` | ios/Pods/leveldb-library/table/block_builder.cc:71-105 | A key, however much it shares, is no longer than the block so far |
| `BlockFormat.RestartReadsBack` | ios/Pods/leveldb-library/table/block.cc:100-103 | The i-th restart point read from the block is the offset of its entry |
| `BlockFormat.BlockParts` | ios/Pods/leveldb-library/table/block.cc:20-40 | Entries, restart points and their number can all be found again in the bytes |
| `BlockFormat.DecodeEntry` | ios/Pods/leveldb-library/table/block.cc:56-75 | The fast path for one-byte lengths agrees with decoding three varints, on every input |
| `BlockFormat.HeadReadsBack` | ios/Pods/leveldb-library/table/block.cc:56-75 | The lengths of an entry decode, whatever follows |
| `BlockBuilders.BlockBuilder.Add` | ios/Pods/leveldb-library/table/block_builder.cc:71-105 | The block grows by the pair; sharing is a common prefix with the key before, and a restart point stands after every interval entries |
| `BlockBuilders.BlockBuilder.SharedWithLast` | ios/Pods/leveldb-library/table/block_builder.cc:79-83 | The longest common prefix with the last key |
| `BlockBuilders.BlockBuilder.Finish` | ios/Pods/leveldb-library/table/block_builder.cc:61-69 | Entries, restart offsets and their number |
| `BlockBuilders.BlockBuilder.Reset` | ios/Pods/leveldb-library/table/block_builder.cc:46-53 | An empty block |
| `BlockBuilders.RestartsGrow` | ios/Pods/leveldb-library/table/block_builder.cc:84-88 | Restart points stay where they are; a new one comes exactly after interval entries without one |
| `BlockIterators.OpenBlock` | ios/Pods/leveldb-library/table/block.cc:25-40 | For a finished block: where its entries end and how many restart points it has; anything too small is refused |
| `BlockIterators.BlockIter.ParseNextKey` | ios/Pods/leveldb-library/table/block.cc:225-251 | From the end of one entry, the next entry in full, and its restart block; false exactly at the end |
| `BlockIterators.BlockIter.Next` | ios/Pods/leveldb-library/table/block.cc:138-141 | The cursor moves one entry on |
| `BlockIterators.BlockIter.Prev` | ios/Pods/leveldb-library/table/block.cc:143-162 | The cursor moves one entry back, through the restart point before |
| `BlockIterators.BlockIter.Seek` | ios/Pods/leveldb-library/table/block.cc:164-202 | For ascending keys under any strict weak order: binary search over restart points and linear scan stop at the first key not before the target |
| `BlockIterators.BlockIter.SeekToFirst` | ios/Pods/leveldb-library/table/block.cc:204-207 | The first entry |
| `BlockIterators.BlockIter.SeekToLast` | ios/Pods/leveldb-library/table/block.cc:209-214 | The last entry |
| `BlockRoundTrip.BuildAndRead` | ios/Pods/leveldb-library/table/block_builder.cc:61-105 | For any pairs and any restart interval, reading the block built from them returns exactly those pairs |
| `SkipLists.SkipList.FindGreaterOrEqual` | ios/Pods/leveldb-library/db/skiplist.h:260-281 | The first key from the target on, and on every level in use the node before it |
| `SkipLists.SkipList.FindLessThan` | ios/Pods/leveldb-library/db/skiplist.h:283-303 | The last key before the target, or the head |
| `SkipLists.SkipList.FindLast` | ios/Pods/leveldb-library/db/skiplist.h:305-325 | The last key, or the head of an empty list |
| `SkipLists.SkipList.Insert` | ios/Pods/leveldb-library/db/skiplist.h:337-368 | The key is added on as many levels as the height says; every level stays sorted and within the one below |
| `SkipLists.SkipList.Contains` | ios/Pods/leveldb-library/db/skiplist.h:370-378 | True exactly for the keys in the list |
| `SkipLists.PublishLinks` | ios/Pods/leveldb-library/db/skiplist.h:362-367 | The release store into the node before links the key in and keeps every list sorted and nested |
| `SkipLists.OwnPointerIsUnseen` | ios/Pods/leveldb-library/db/skiplist.h:362-367 | The store into the new node is seen by no list |
| `SkipLists.WriterKeepsInv` | ios/Pods/leveldb-library/db/skiplist.h:337-368 | After every single store of Insert each level is strictly sorted and within the one below, and no key is lost |
| `SkipLists.WriterKeepsReader` | ios/Pods/leveldb-library/db/skiplist.h:260-281 | No store of the writer takes a search off its place |
| `SkipLists.LoadIsProgress` | ios/Pods/leveldb-library/db/skiplist.h:260-281 | Every load of a search is of a linked node and brings it nearer to its end, whatever is inserted meanwhile |
| `SkipLists.LastLoadDecides` | ios/Pods/leveldb-library/db/skiplist.h:260-325 | The result is the first key from the target on (or the last before it, or the last of all) of the set as it stands at the last load |
| `SkipLists.ResultIsOfLastLoad` | ios/Pods/leveldb-library/db/skiplist.h:260-325 | Over every interleaving, from any point of a search on, its result is right for the keys linked when its last load was made, which are no fewer than those there were before |
| `SkipLists.SearchFinds` | ios/Pods/leveldb-library/db/skiplist.h:260-325 | A whole search, begun at the head while keys are being inserted, that ends: the key found is the first from the target on (or the last before it, or the last of all) of the keys linked at its last load |
| `SkipLists.SearchEnds` | ios/Pods/leveldb-library/db/skiplist.h:260-281 | In every interleaving a search ends within a number of loads bounded by the keys there are, and sees at least the keys there were when it began |
| `VersionEdits.BodyReadsBack` | ios/Pods/leveldb-library/db/version_edit.cc:105-203 | Every field reads back from its bytes, whatever follows |
| `VersionEdits.FieldsReadBack` | ios/Pods/leveldb-library/db/version_edit.cc:105-203 | A sequence of fields reads back, and nothing is left over |
| `VersionEdits.InsertIsInsertion` | ios/Pods/leveldb-library/db/version_edit.h:73-76 | The set of deleted files stays in order and grows by the pair |
| `VersionEdits.FieldsMakeRecord` | ios/Pods/leveldb-library/db/version_edit.cc:26-39 | Taking all fields of a record rebuilds it; Clear leaves the compaction pointers, so earlier ones stay in front |
| `VersionEdits.VersionEdit.EncodeTo` | ios/Pods/leveldb-library/db/version_edit.cc:41-84 | The fields in the order of the source |
| `VersionEdits.VersionEdit.DecodeFrom` | ios/Pods/leveldb-library/db/version_edit.cc:105-203 | The fields up to the first that cannot be read are taken; success exactly when all were read |
| `VersionEdits.WriteAndRead` | ios/Pods/leveldb-library/db/version_edit.cc:41-203 | A single record reads back as it was, behind the compaction pointers the reader already had; the whole manifest is `VersionSets.CrashAndRecover` |
| `HandleTables.LinkKeeps` | ios/Pods/leveldb-library/util/cache.cc:79-93 | Linking an entry in, in place of its namesake or at the end of the chain, keeps the table |
| `HandleTables.UnlinkKeeps` | ios/Pods/leveldb-library/util/cache.cc:95-103 | Unlinking an entry keeps the table |
| `HandleTables.TableIsMap` | ios/Pods/leveldb-library/util/cache.cc:70-114 | A key and hash lead to at most one entry |
| `HandleTables.HandleTable.FindPointer` | ios/Pods/leveldb-library/util/cache.cc:115-121 | The slot of the entry with that name, or the last of its bucket when there is none |
| `HandleTables.HandleTable.Lookup` | ios/Pods/leveldb-library/util/cache.cc:75-77 | The entry with that name, or none exactly when there is none |
| `HandleTables.HandleTable.Insert` | ios/Pods/leveldb-library/util/cache.cc:79-93 | The entry is added, its namesake removed and returned; all others stay, across a resize too |
| `HandleTables.HandleTable.Remove` | ios/Pods/leveldb-library/util/cache.cc:95-103 | The entry with that name is removed and returned |
| `HandleTables.HandleTable.Resize` | ios/Pods/leveldb-library/util/cache.cc:123-147 | Terminates; moves exactly the entries there are, each into its bucket |
| `LruCaches.RemoveKeepsRing` | ios/Pods/leveldb-library/util/cache.cc:240-243 | Unlinking a node leaves a circular doubly linked list of the others in order |
| `LruCaches.AppendKeepsRing` | ios/Pods/leveldb-library/util/cache.cc:245-251 | Appending makes the node the newest |
| `LruCaches.OtherRingKept` | ios/Pods/leveldb-library/util/cache.cc:240-251 | The other list is untouched |
| `LruCaches.RefKeepsOk` | ios/Pods/leveldb-library/util/cache.cc:218-224 | A new client reference keeps all invariants; an unused entry moves to the in-use list |
| `LruCaches.ReleaseKeepsOk` | ios/Pods/leveldb-library/util/cache.cc:226-238 | So does giving one back; an entry only the cache holds becomes the newest of the lru list |
| `LruCaches.EraseKeepsOk` | ios/Pods/leveldb-library/util/cache.cc:306-317 | So does finishing an erase: the account, the lists and the reference of the cache |
| `LruCaches.AddKeepsOk` | ios/Pods/leveldb-library/util/cache.cc:267-299 | So does a new handle, cached or not |
| `LruCaches.DeleterRunsOnce` | ios/Pods/leveldb-library/util/cache.cc:226-238 | The deleter runs at most once per handle, exactly when no client holds it and the cache has let go; cached entries are split between the lru list (held by nobody) and the in-use list |
| `LruCaches.LRUCache.SetCapacity` | ios/Pods/leveldb-library/util/cache.cc:156-157 | The capacity is set; nothing is evicted before the next insertion |
| `LruCaches.LRUCache.Lookup` | ios/Pods/leveldb-library/util/cache.cc:253-260 | The entry with that name, from then on held by the client, or none |
| `LruCaches.LRUCache.Release` | ios/Pods/leveldb-library/util/cache.cc:262-265 | The reference is given back |
| `LruCaches.LRUCache.EvictOldest` | ios/Pods/leveldb-library/util/cache.cc:291-297 | The oldest unused entry goes, and its deleter runs |
| `LruCaches.LRUCache.Insert` | ios/Pods/leveldb-library/util/cache.cc:267-304 | The new handle is cached in place of its namesake; afterwards the cache is within its capacity or nothing unused is left; what went are the oldest unused entries, and only while it was over capacity |
| `LruCaches.LRUCache.Erase` | ios/Pods/leveldb-library/util/cache.cc:319-322 | The entry with that name is no longer cached; handles held by clients stay |
| `LruCaches.LRUCache.Prune` | ios/Pods/leveldb-library/util/cache.cc:324-334 | Everything unused goes, everything in use stays |
| `NanoPbRoundTrip.Reads32Back` | ios/Pods/nanopb/pb_decode.c:187-247 | Every 32-bit number written as a varint reads back, past all the overflow checks |
| `NanoPbRoundTrip.ZigZagInverse` | ios/Pods/nanopb/pb_encode.c:630-639 | UnZigZag undoes ZigZag for every signed 64-bit number, and the result fits 64 bits |
| `NanoPbRoundTrip.SignedInverse` | ios/Pods/nanopb/pb_decode.c:1345-1380 | A signed number of each width comes back from its 64-bit two's complement, narrower ones by way of the low 32 bits |
| `NanoPbRoundTrip.NumberReadsBack` | ios/Pods/nanopb/pb_decode.c:1345-1445 | Every number a field may hold, of each of the five kinds and four widths, reads back |
| `NanoPbRoundTrip.BlobReadsBack` | ios/Pods/nanopb/pb_decode.c:1447-1570 | Byte strings, texts shorter than their buffer and fixed-length bytes read back, the empty fixed-length ones through their special case |
| `NanoPbRoundTrip.ZeroIsDefault` | ios/Pods/nanopb/pb_encode.c:240-337 | A field left out because the proto3 check calls it zero is restored by the defaults, nested messages included |
| `NanoPbRoundTrip.ValReadsBack` | ios/Pods/nanopb/pb_decode.c:406-483 | Every value reads back whatever follows, submessages through their length-limited substream |
| `NanoPbRoundTrip.TagLeadsToField` | ios/Pods/nanopb/pb_decode.c:952-1030 | The tag written for a field leads the decoder to that field and no other |
| `NanoPbRoundTrip.OneValueStep` | ios/Pods/nanopb/pb_decode.c:413-479 | Decoding a required, optional, implicit or oneof field turns the struct restored up to it into the struct restored past it; choosing a oneof member disturbs no other field |
| `NanoPbRoundTrip.AbsentStep` | ios/Pods/nanopb/pb_encode.c:341-427 | A field that writes nothing is already restored |
| `NanoPbRoundTrip.PackedReadsBack` | ios/Pods/nanopb/pb_decode.c:424-450 | The loop over a packed array restores all items, with room exactly for them |
| `NanoPbRoundTrip.ArrayReadsBack` | ios/Pods/nanopb/pb_decode.c:424-465 | Repeated and fixed-count arrays read back, packed or item by item, with the counter of the fixed-count one carried between items |
| `NanoPbRoundTrip.FieldReadsBack` | ios/Pods/nanopb/pb_encode.c:341-427 | What encode_basic_field writes for any field restores it and leaves the rest of the input |
| `NanoPbRoundTrip.ZeroEndsMessage` | ios/Pods/nanopb/pb_decode.c:298-319 | A zero byte ends a message; what is behind it is not looked at |
| `NanoPbRoundTrip.MessageRoundTrip` | ios/Pods/nanopb/pb_decode.c:934-1096 | For every descriptor with distinct field numbers and every struct in range, pb_decode of what pb_encode wrote succeeds and restores the message, absent fields at their defaults |
| `NanoPbNormal.DefaultsOk` | ios/Pods/nanopb/pb_decode.c:845-928 | A struct set to its defaults is one the encoder accepts |
| `NanoPbNormal.SameStruct` | ios/Pods/nanopb/pb_encode.c:528-550 | Resetting absent fields changes neither the bytes a message is encoded to nor whether it counts as zero |
| `NanoPbNormal.ReencodesTheSame` | ios/Pods/nanopb/pb_decode.c:1084-1096 | Decoding an encoded message and encoding it again gives the same bytes |
| `NanoPbNormal.ZeroStructIff` | ios/Pods/nanopb/pb_encode.c:240-337 | A message counts as zero if and only if nothing of it would be written and no field of it is an array of fixed length |
| `NanoPbNormal.LeftOutIff` | ios/Pods/nanopb/pb_encode.c:240-337 | A field without presence is left out if and only if it holds the zero of its kind |
| `NanoPbUnknown.SkipsValue` | ios/Pods/nanopb/pb_decode.c:321-334 | Whatever a field of any kind holds, passing it over by its wire type ends exactly behind it |
| `NanoPbUnknown.SkipsPrefixed` | ios/Pods/nanopb/pb_decode.c:321-334 | So it does for a packed array |
| `NanoPbUnknown.FieldIsSkipped` | ios/Pods/nanopb/pb_decode.c:984-996 | Whatever is written for a field, optional, repeated, packed or nested, a reader that does not know its number goes on as if nothing had been written |
| `NanoPbUnknown.UnknownFieldsAreSkipped` | ios/Pods/nanopb/pb_decode.c:934-1096 | For every descriptor, every message and every choice of its fields: a program that knows only these restores them as they were, whatever the others hold |
| `NanoPbMissing.SentReadsBack` | ios/Pods/nanopb/pb_decode.c:952-1030 | Fields that are left out leave everything as it is, the others are restored |
| `NanoPbMissing.MissingFields` | ios/Pods/nanopb/pb_decode.c:1031-1079 | For every message and every choice of fields that are not sent: it is accepted if and only if none of the first 64 required fields is among them, and then these are at their defaults and the others as they were |
| `NanoPbRoom.PackedRoom` | ios/Pods/nanopb/pb_decode.c:433-450 | A packed array is read to its end if there is room for all items, and refused if not |
| `NanoPbRoom.ArrayAcceptedIff` | ios/Pods/nanopb/pb_decode.c:997-1037 | An array written by a program with room for more or fewer items is accepted if and only if all its items have room and, when its length is fixed, fill it; or when there are none |
| `NanoPbMerge.ValMerges` | ios/Pods/nanopb/pb_decode.c:1525-1547 | A nested message is decoded into what is there, anything else replaces it |
| `NanoPbMerge.ArrayMerges` | ios/Pods/nanopb/pb_decode.c:424-465 | A repeated field grows by the new items, an array of fixed length is written over |
| `NanoPbMerge.StructMerges` | ios/Pods/nanopb/pb_decode.h:70-80 | For every message in the struct and every new one with room for its arrays: pb_decode_noinit updates the fields that are in the new one, nested messages likewise, unsets the other members of a oneof it sets, and leaves all else |
| `NanoPbMerge.MergeIntoDefaults` | ios/Pods/nanopb/pb_decode.c:1084-1096 | Merging into a struct of defaults is what pb_decode does |
| `NanoPbSafety.DecodedValFits` | ios/Pods/nanopb/pb_decode.c:1345-1570 | Whatever a field decoder accepts is a value of its kind: numbers within their width, bytes within their room, texts with their terminator |
| `NanoPbSafety.DecodedArrayFits` | ios/Pods/nanopb/pb_decode.c:424-465 | Whatever the bytes, no array is filled beyond its room |
| `NanoPbSafety.ChosenFits` | ios/Pods/nanopb/pb_decode.c:413-479 | Choosing a member of a oneof leaves it the only one |
| `NanoPbSafety.AcceptedFits` | ios/Pods/nanopb/pb_decode.c:934-1096 | Any bytes whatever that are accepted give a message the descriptor allows |
| `NanoPbSafety.TooBigIsRefused` | ios/Pods/nanopb/pb_decode.c:187-247 | A number of 33 to 63 bits is refused where 32 bits are wanted |
| `NanoPbEncoder.OStream.Write` | ios/Pods/nanopb/pb_encode.c:103-125 | The bytes are taken, or the stream is too full for them; a stream that only counts takes everything |
| `NanoPbEncoder.OStream.EncodeVarint` | ios/Pods/nanopb/pb_encode.c:608-628 | The loop writes the varint of the number: groups of seven bits, the top bit of the last one cleared |
| `NanoPbEncoder.OStream.EncodeString` | ios/Pods/nanopb/pb_encode.c:709-715 | Length and bytes, taken whole or not at all |
| `NanoPbEncoder.OStream.EncodeSubmessage` | ios/Pods/nanopb/pb_encode.c:717-765 | The sizing pass counts exactly the bytes the writing pass emits: the call fails only for want of room, never because the size changed |
| `NanoPbEncoder.OStream.EncodeMessage` | ios/Pods/nanopb/pb_encode.c:528-550 | All fields in order; it succeeds exactly when the whole encoding fits |
| `NanoPbEncoder.OStream.EncodeField` | ios/Pods/nanopb/pb_encode.c:341-427 | Nothing for an absent optional, an unchosen oneof member or an implicit zero; tag and value, or the array, otherwise |
| `NanoPbEncoder.OStream.EncodeArray` | ios/Pods/nanopb/pb_encode.c:147-236 | A packed array behind the length computed or counted beforehand; other kinds item by item with tags |
| `NanoPbEncoder.OStream.SizePacked` | ios/Pods/nanopb/pb_encode.c:170-189 | The counted or computed size is the length of the packed items |
| `NanoPbEncoder.OStream.EncodeItems` | ios/Pods/nanopb/pb_encode.c:197-204 | The loop over packed items |
| `NanoPbEncoder.OStream.EncodeEach` | ios/Pods/nanopb/pb_encode.c:206-233 | The loop over unpacked items |
| `NanoPbEncoder.FixedSizes` | ios/Pods/nanopb/pb_encode.c:170-177 | For fixed widths the multiple of the count is that length |
| `NanoPbEncoder.GetEncodedSize` | ios/Pods/nanopb/pb_encode.c:567-576 | The size reported is that of the encoding |
| `NanoPbDecoder.FieldIter.Next` | ios/Pods/nanopb/pb_common.c:29-85 | One field on and the required ones counted, or back to the first |
| `NanoPbDecoder.FieldIter.FindTag` | ios/Pods/nanopb/pb_common.c:87-104 | Searching once around from where the last search ended finds the number wherever it is; not found means it is nowhere |
| `NanoPbDecoder.FindAgrees` | ios/Pods/nanopb/pb_common.c:87-104 | With distinct numbers the search that starts in the middle and the one from the front agree |
| `NanoPbDecoder.IStream.DecodeVarint32` | ios/Pods/nanopb/pb_decode.c:187-247 | The loop reads what the recursive definition reads, with the same refusals |
| `NanoPbDecoder.IStream.DecodeVarint64` | ios/Pods/nanopb/pb_decode.c:255-275 | The loop accumulating modulo 2^64 reads the number of at most ten bytes |
| `NanoPbDecoder.OneMoreByte` | ios/Pods/nanopb/pb_decode.c:255-275 | A byte moves from what is still to be read into the accumulator |
| `NanoPbDecoder.IStream.DecodeTag` | ios/Pods/nanopb/pb_decode.c:298-319 | Field number and wire type; no more bytes and a zero tag are the end, anything else unreadable is an error |
| `NanoPbDecoder.IStream.SkipField` | ios/Pods/nanopb/pb_decode.c:278-334 | Unknown fields are passed over as `Skip` says, which is exactly their bytes: `NanoPbUnknown.SkipsValue` |
| `NanoPbDecoder.IStream.MakeSubstream` | ios/Pods/nanopb/pb_decode.c:372-385 | The substream holds exactly the announced bytes, the parent the rest |
| `NanoPbDecoder.IStream.CloseSubstream` | ios/Pods/nanopb/pb_decode.c:387-400 | The parent goes on behind the substream, read or not |
| `NanoPbDecoder.IStream.DecodeBlob` | ios/Pods/nanopb/pb_decode.c:1447-1570 | Lengths are checked against the field before anything is read |
| `NanoPbDecoder.IStream.DecodeSubmessage` | ios/Pods/nanopb/pb_decode.c:1525-1547 | The nested message is decoded from its own bytes only, and the stream ends up behind it |
| `NanoPbDecoder.IStream.DecodeItems` | ios/Pods/nanopb/pb_decode.c:433-450 | The packed loop stops at the end or when the array is full; bytes left over are an overflow |
| `NanoPbDecoder.IStream.DecodeArray` | ios/Pods/nanopb/pb_decode.c:424-465 | Packed or single items go on from the items there are |
| `NanoPbDecoder.IStream.DecodeStaticField` | ios/Pods/nanopb/pb_decode.c:406-483 | One field into the struct, by its rule |
| `NanoPbDecoder.NewFixed` | ios/Pods/nanopb/pb_decode.c:997-1018 | Another fixed-count array may begin only when the one before it is complete |
| `NanoPbDecoder.IStream.DecodeFields` | ios/Pods/nanopb/pb_decode.c:952-1030 | The loop with its iterator, bitmap and fixed-count position yields the same struct and the same refusals as the definition by field positions and sets |
| `NanoPbDecoder.BitSet` | ios/Pods/nanopb/pb_decode.c:1021-1026 | Each required field among the first 64 has a bit of its own |
| `NanoPbDecoder.RequiredAt` | ios/Pods/nanopb/pb_decode.c:1045-1058 | Every bit below the count of required fields belongs to a required field |
| `NanoPbDecoder.CheckRequired` | ios/Pods/nanopb/pb_decode.c:1039-1079 | Counting on from wherever the iterator stands and testing that many bits says exactly whether the first 64 required fields were all seen |
| `NanoPbDecoder.IStream.DecodeNoInit` | ios/Pods/nanopb/pb_decode.c:934-1082 | The decoder proper yields what the definition yields, failures included |
| `LsmRuns.LossIsRead` | ios/Pods/leveldb-library/db/db_impl.cc:953-974 | When a compaction meets a file boundary on its output level between a dropped tombstone and the value it hides, the oldest live reader gets the old value afterwards |
| `LsmRuns.RunReadsHistoryIff` | ios/Pods/leveldb-library/db/db_impl.cc:1110-1155 | Over every run of writes, memtable switches, flushes, moves, compactions and snapshots: all live readers read the plain history at every moment if and only if no compaction of the run meets a file boundary on its output level between a dropped tombstone and the value it hides |
| `LsmRuns.CleanIsLossless` | ios/Pods/leveldb-library/db/version_set.cc:1384-1439 | Compactions that leave no file of the output level sharing a user key with the chosen one to its left meet none, whatever else the run does |
| `LsmRuns.CleanRunReadsHistory` | ios/Pods/leveldb-library/db/db_impl.cc:1110-1155 | So every run with that guard reads the history at every moment |
| `LostTombstoneRun.CutIsReached` | ios/Pods/leveldb-library/db/db_impl.cc:995-1009 | The store of the counterexample is reached from the empty one by ten steps: writes, a snapshot, flushes, a compaction that cuts its output between two versions of a key, a release |
| `LostTombstoneRun.DeletedKeyComesBack` | ios/Pods/leveldb-library/db/version_set.cc:1380-1439 | A run from the empty store after which a key written once and then deleted is read with its old value |
| `FormatExamples.VarintExample` | ios/Pods/leveldb-library/util/coding.cc:55-64 | Varints byte for byte |
| `FormatExamples.LogExample` | ios/Pods/leveldb-library/db/log_format.h:14-30 | A log record, whole and in three fragments, byte for byte |
| `FormatExamples.BatchExample` | ios/Pods/leveldb-library/db/write_batch.cc:5-14 | A batch of a put and a delete, byte for byte |
| `FormatExamples.InternalKeyExample` | ios/Pods/leveldb-library/db/dbformat.h:54-70 | An internal key, byte for byte |
| `FormatExamples.VersionEditExample` | ios/Pods/leveldb-library/db/version_edit.cc:12-24 | Each field of a manifest record behind its number |
| `FormatExamples.BlockEntryExample` | ios/Pods/leveldb-library/table/block_builder.cc:15-22 | Two entries of a block, the second sharing with the first |
| `FormatExamples.FragmentExample` | ios/Pods/BoringSSL-GRPC/src/ssl/d1_both.cc:450-464 | A handshake fragment as section 4.2.2 of RFC 6347 has it |
| `FormatExamples.MessageExample` | ios/Pods/nanopb/pb_encode.c:608-690 | Tags, numbers, texts and zig-zag numbers of a message |

## Left out

- Files, mmap, environments, threads and timing: a file is a sequence of bytes, a critical section one step.
- crc32c and Snappy: the checksum is a parameter of the log format, compression the identity; only the truncated log is read back damaged, other corruption branches (bad blocks, unparsable internal keys, checksum mismatches) are not modelled.
- Flushes nested in a running compaction, manual-compaction scheduling, seek statistics, read sampling and the score in `Finalize`: the compacted level and files are arbitrary, a compaction is one step.
- Sizes of grandparents and of output files: where the loop cuts its outputs and whether a single file is moved are arbitrary decisions.
- LsmTree.EveryRunReadsHistory: sequence numbers are unbounded; the store is assumed not to reach `kMaxSequenceNumber`.
- Database.DBImpl.Write: `MakeRoomForWrite` is not a loop over waits; switching the memtable is a step of its own.
- WriteAheadLog.RecoverLogFile: the memtable is not flushed while a log is replayed.
- LogFormat.ReadLog: reading starts at the first byte; `initial_offset` and resynchronisation are not modelled.
- VersionSets.VersionSet.LogAndApply: I/O succeeds, so the undoing of a failed write is missing; `Finalize`, the reference counts of versions and the CURRENT file are not modelled; file numbers stay below 2^64.
- VersionSets.VersionSet.Recover: the records of the log are read before the first is parsed, not one by one; reusing the old manifest is not modelled.
- ManifestRecords.KeyReadsBack: a user key is written in one spelling for its rank; keys of one rank in other spellings come back as that one.
- Database.DBImpl.RecoverFiles: the files only; that the memtable comes back from the write-ahead log is `WriteAheadLog.RecoverLogFile`, and the two are not joined to one recovery of the whole store.
- Database.DBImpl.NewIterator: the cursor goes over the entries of each file and level as sequences; the cursors within tables and blocks are `TwoLevelIterators` and `BlockIterators`.
- TableFilter.CreateFilter: the hash is one of ranks, which stands for that of the bytes exactly when keys that compare equal hash alike (`NoFalseNegativeIff`, `RankHashIsByteHash`); the filter is a sequence of bits, not packed into bytes.
- TableFilter.KeyMayMatch: holds for a hash of ranks, as for `CreateFilter`; with equal keys that hash apart the reader does deny keys.
- TableFile.TableBuilder.Add: the index key is an arbitrary tight one, so that all holds for whatever the user comparator makes; that `FindInternalSeparator` makes a tight one is proved on byte strings in `Separators`. A key between two others need not have a rank of its own.
- TableFile.TableBuilder.Finish: likewise the last index key is an arbitrary one not before the last key; `Separators.FindInternalSuccessor` makes one.
- TableFile.InternalGet: holds for a hash of ranks, as for `CreateFilter`; blocks are sequences of entries here; their bytes are the subject of the block modules.
- BlockIterators.BlockIter.Seek: the error answers for damaged blocks are not modelled; blocks are shorter than 4 GiB, the range of the offsets in the format.
- SkipLists.SearchEnds: loads and stores are sequentially consistent; only the stale read of `max_height_` is allowed for. Heights are arbitrary.
- GroupCommit.BatchIsAllOrNothing: I/O succeeds, so a failed sync is not modelled; `MakeRoomForWrite` and the condition variables are not modelled.
- LruCaches.LRUCache.Insert: one shard; the choice of a shard and the destructor are not modelled, and `hash & (length - 1)` is the remainder for a power of two.
- nanopb callbacks, extensions, pointer fields, the build without 64-bit integers, unpacked arrays by option and raw struct offsets; streams are buffers, so reading and writing fail only for want of room.
- NanoPbRoundTrip.MessageRoundTrip: the encoding is shorter than 4 GiB, the range of the lengths in the format.
- NanoPbMerge.StructMerges: one message into a struct; two messages one behind the other in one stream are not the subject.
- NanoPbRoom.ArrayAcceptedIff: a message of one array field.
- NanoPbUnknown.UnknownFieldsAreSkipped: the fields of nested messages are known to both sides.
- NanoPbDecoder.IStream.DecodeVarint32: the bit position does not wrap at 256, which only an over-long varint of more than 36 bytes could bring about.
- NanoPbDecoder.IStream.DecodeNoInit: the destination is a value handed on from field to field; unused array cells and what is left of an abandoned oneof member are not represented, nor is a half-filled struct after a failure.
- NanoPbDecoder.FieldIter.FindTag: in a message type without fields the field number 0 is not found, where the source would match its terminator; descriptors with one number twice are excluded.
- DTLS record protection, epochs of outgoing messages, BIO, timers and the transcript: sealing adds a constant overhead, the channel loses, repeats and reorders.
- DtlsIntegrity.ReadIsPutTogether: nothing is said of who sent a fragment; that is for the record protection.
- DtlsDelivery.FlightIsRead: one flight of at most seven messages whose numbers do not wrap; that the ring itself survives the wrap is `DtlsReceivers.AdvanceRing`.
- c.cc, repair.cc, dumpfile.cc, logging and the other wrappers of LevelDB; the rest of BoringSSL; the app itself.
