# Verified models of LevelDB's core and of three Alamofire components

The application bundles LevelDB, AlamofireImage and Alamofire. This project
models the parts of them whose correctness is hardest to see, and proves what
they are for. Verify with `dafny verify dfyconfig.toml`.

- `Basics`, `Entries`, `Coding`, `Sequences`: bytes and options, entries of the store,
  little-endian integers, sequence facts.
- `DBIter`: the user-level iterator over multi-version entries is a cursor over
  the sorted map of its snapshot, over every run with changes of direction.
- `Merger`: the merging iterator over several sorted sources, in both directions,
  while its sources grow; `IteratorStack`: it is what `DBIter` takes it for.
- `LogFormat`, `LogWriter`, `LogReader`, `LogRecovery`: the write-ahead log, its
  writer and reader, and what is recovered of a whole, torn or damaged log.
  `LogDamage`: what is reported of a damaged one; `LogResync`: of one read from an
  offset, or continued by a second writer.
- `WriteBatch`, `BatchLog`: the bytes of write batches, and the batches of a log.
- `InternalKeys`: the encoding and the order of internal keys.
- `Compaction`: which entries a compaction drops, and who can tell.
- `Store`: the database as a state machine whose steps are the stretches of code
  under the mutex and the single insertions without it. One invariant is kept by
  every step; from it follow exact reads, stable snapshots, atomic groups and
  recovery, over every run.
- `VersionSet`: how the tables of a compaction are picked, and exactly when the
  picked inputs are cut cleanly.
- `CutBoundaries`: what compactions and moves do to reads when they are not;
  `SplitKeys`: inputs and runs on which old data comes back; `KeyRuns`: which keys
  still read right over a run with such compactions and moves.
- `Version`: the search of one file per level, reads through the files, and the level
  a flush goes to. `Layout`, `Builder`: the tables of each level stay sorted and apart,
  over every run; `GapRun`: a run on which they do not.
- `DBImpl`: the database object; each method is proved to be its step of `Store`.
- `BackgroundWork`: a compaction from the picked tables to the installed outputs.
- `WriteQueue`, `SnapshotList`: the queue of writers and the list of snapshots.
- `ImageDownloader`, `DownloadRuns`, `ImageCache`, `Multipart`: the download
  scheduler and its runs, the purging cache and the multipart encoders.

The mutable objects of the sources are classes here, their loops are loops with
invariants, and methods are tied to functions or to steps on values about which
the main theorems are proved.

## Where the code and its comments or promises part

- The comment at `db_iter.cc:44-45` says that in reverse the internal iterator is
  just before the entries of the current key. It may be further back, before
  entries newer than the snapshot (`PassesNewerEntries`); `AtSavedKey` is the
  invariant that holds.
- The comment at `db_impl.cc:961-967` relies on inputs closed under user key.
  Output files end by size alone (`db_impl.cc:998-1004`), also between two versions
  of a key, and the picking of inputs (`version_set.cc:1291-1407`) does not put them
  together again at levels from 1 on. `PickedCutIsCleanIff` says exactly when the
  picked inputs are cut cleanly; `Store` takes that as the condition of starting a
  compaction or moving a file. `CutBoundaries` gives what reads return without it and
  exactly when nobody can tell. `SplitKeys` has runs to inputs for which old data comes
  back, and `KeyRuns.CleanKeysReadRight` the keys that are safe over all such runs.
- The assertions at `version_set.cc:746-752` and `764-768` say that tables of a level
  never overlap. With manual compactions they may: the inputs of one may lie around a
  key that no table covers, and a memtable with it is flushed into the output level
  while the compaction runs (`db_impl.cc:919-928`). A read of that key then looks into
  the wrong file (`GapRuns.WriteIsMissed`). `Layouts.StaysInOrderIff` says exactly when
  this cannot happen, and with the version set's own picks it never does.
- With smallest_snapshot at 2^56-1 the mark for a new user key counts as a
  visible entry, and the compaction loop drops everything (`DoCompactionWork`).
- A physical record with type 5 or 6 and a good checksum is taken for the end of
  the file or for a bad record (`log_reader.h:82-90`); the first silently costs all
  that follows (`TypeFiveEndsReading`), the second itself and what was begun before
  (`TypeSixIsPassedOver`).
- Reading a log from an offset is to suppress the errors of records begun before it
  (`log_reader.h:76-78`), but passing over a fragment for its start ends that, and the
  rest of its record is reported as corrupt (`HealthyLogIsReported`).
  `ReportsFromOffset` says exactly when.
- `activeRequestCount` also goes down for a request cancelled in the queue, so
  more downloads can run than allowed (`MoreThanAllowed`, `Overrun`). Dropping a
  suspended request is the one step that opens the way (`OnlyDropsEndanger`), and
  without it the limit is kept on every run (`NoMoreThanAllowed`).
- The boundary flags of multipart parts are never taken back, so parts appended
  after an encoding are not read from the next one; `EncodedIsFormatIff` and
  `EncodedReadsBack` say exactly when the encoding is what it is meant to be. The
  writer to a stream stops without an error when the stream has no space
  (`WriteBytes`).

## Model

| member | source | states |
|---|---|---|
| DBIter.DBIter.Seek | DateCourse/Pods/leveldb-library/db/db_iter.cc:274-286 | from any state, lands on the least key at or after the target that is visible at `sequence_`, or is invalid when there is none |
| DBIter.DBIter.SeekToFirst | DateCourse/Pods/leveldb-library/db/db_iter.cc:288-297 | lands on the least visible key |
| DBIter.DBIter.SeekToLast | DateCourse/Pods/leveldb-library/db/db_iter.cc:299-304 | lands on the greatest visible key |
| DBIter.DBIter.Next | DateCourse/Pods/leveldb-library/db/db_iter.cc:146-171 | in either direction, moves to the least visible key after the current one, or becomes invalid |
| DBIter.DBIter.Prev | DateCourse/Pods/leveldb-library/db/db_iter.cc:205-230 | in either direction, moves to the greatest visible key before the current one, or becomes invalid |
| DBIter.DBIter.FindNextUserEntry | DateCourse/Pods/leveldb-library/db/db_iter.cc:173-203 | the forward scan stops at the first entry that a reader at `sequence_` sees and that is not to be skipped, and misses none |
| DBIter.DBIter.FindPrevUserEntry | DateCourse/Pods/leveldb-library/db/db_iter.cc:232-272 | the backward scan stops with the last visible key at or before its start saved, only entries newer than the snapshot between that key and `iter_`, and `iter_` at a visible entry or run off the front; it reports the end only when nothing is visible |
| DBIter.PassesNewerEntries | DateCourse/Pods/leveldb-library/db/db_iter.cc:44-45 | a state in which an entry newer than the snapshot lies between the internal iterator and the key it stands at in reverse, which the comment rules out |
| DBIter.DBIter.Interfere | DateCourse/Pods/leveldb-library/db/db_iter.cc:36-62 | entries above the snapshot may come and go under the iterator at any time without changing where it stands; the reverse invariant is what makes this and the moves work (it corrects the comment at lines 44-45) |
| DBIter.DBIter.BackStop | DateCourse/Pods/leveldb-library/db/db_iter.cc:239-262 | where the backward scan stops, the saved key is visible, nothing visible lies between, and the reverse invariant holds |
| DBIter.DBIter.StillAtSavedKey | DateCourse/Pods/leveldb-library/db/db_iter.cc:42-49 | the reverse invariant is kept under changes above the snapshot |
| DBIter.MovesIsDeterministic | DateCourse/Pods/leveldb-library/db/db_iter.cc:146-304 | the sorted-map cursor the iterator is held to has one answer per move |
| DBIter.Run | DateCourse/Pods/leveldb-library/db/db_iter.cc:146-304 | any run of moves, direction changes and background changes gives a trace of the sorted-map cursor |
| DBIter.ReferenceIsUnique | DateCourse/Pods/leveldb-library/db/db_iter.cc:146-304 | there is only one such trace, so following it is behaving exactly like the sorted map |
| Mergers.MergingIterator.SeekToFirst | DateCourse/Pods/leveldb-library/table/merger.cc:35-41 | stands at the least entry of all children, as they are now |
| Mergers.MergingIterator.SeekToLast | DateCourse/Pods/leveldb-library/table/merger.cc:43-49 | stands at the greatest entry of all children, as they are now |
| Mergers.MergingIterator.Seek | DateCourse/Pods/leveldb-library/table/merger.cc:51-57 | stands at the least entry at or after the target, or at none when there is none |
| Mergers.MergingIterator.Next | DateCourse/Pods/leveldb-library/table/merger.cc:59-83 | in either direction, moves to the least entry after the current one, or to none when there is none, save for entries above a number that came in behind a child's back |
| Mergers.MergingIterator.Prev | DateCourse/Pods/leveldb-library/table/merger.cc:85-112 | in either direction, moves to the greatest entry before the current one, with the same exception |
| Mergers.MergingIterator.FindSmallest | DateCourse/Pods/leveldb-library/table/merger.cc:155-168 | the child with the least entry above a cut through all children; the others are then just ahead of it |
| Mergers.MergingIterator.FindLargest | DateCourse/Pods/leveldb-library/table/merger.cc:170-183 | the child with the greatest entry below a cut through all children; the others are then just behind it |
| Mergers.NextIsNeighbour | DateCourse/Pods/leveldb-library/table/merger.cc:59-83 | over sources that do not change Next is the step to the following entry of the sorted sequence of all |
| Mergers.PrevIsNeighbour | DateCourse/Pods/leveldb-library/table/merger.cc:85-112 | and Prev the step to the preceding one |
| Mergers.SeekIsLowerBound | DateCourse/Pods/leveldb-library/table/merger.cc:51-57 | and Seek finds its first entry not before the target |
| Mergers.MergingIterator.Grow | DateCourse/Pods/leveldb-library/db/db_impl.cc:1074-1083 | while entries above the number come into any of the children, each at its entry, the iterator stays where it is and in working order |
| Mergers.StandsOffStill | DateCourse/Pods/leveldb-library/table/merger.cc:59-112 | for a child past the current entry stays past it, whatever comes in on either side |
| Mergers.ReadAll | DateCourse/Pods/leveldb-library/table/merger.cc:35-83 | reading from the first entry on gives all entries of all children in internal key order |
| IteratorStack.SeekToFirst | DateCourse/Pods/leveldb-library/table/merger.cc:35-41 | over the sorted listing of all children the merging iterator's move is the one the internal iterator under `DBIter` promises |
| IteratorStack.SeekToLast | DateCourse/Pods/leveldb-library/table/merger.cc:43-49 | so is this |
| IteratorStack.Seek | DateCourse/Pods/leveldb-library/table/merger.cc:51-57 | and this |
| IteratorStack.Next | DateCourse/Pods/leveldb-library/table/merger.cc:59-83 | a step forward of the merging iterator is one the internal iterator may take: over newer entries at most |
| IteratorStack.Prev | DateCourse/Pods/leveldb-library/table/merger.cc:85-112 | and so is a step back |
| IteratorStack.NextIsAllowed | DateCourse/Pods/leveldb-library/table/merger.cc:59-83 | whatever entry Next lands on, only entries above the stable number lie in between in the listing |
| IteratorStack.PrevIsAllowed | DateCourse/Pods/leveldb-library/table/merger.cc:85-112 | and the same for Prev |
| IteratorStack.Grow | DateCourse/Pods/leveldb-library/db/db_impl.cc:1074-1083 | children that grow are a change the internal iterator allows for: nothing up to the stable number comes or goes, and it stays at its entry |
| LogFormat.UnmaskMask | DateCourse/Pods/leveldb-library/util/crc32c.h:30-40 | unmasking undoes masking on every 32-bit value |
| LogFormat.SplitIsChained | DateCourse/Pods/leveldb-library/db/log_writer.cc:36-82 | the fragments of a record lie one after the other, none crossing a block end, and zero padding fills what is too short for a header |
| LogFormat.LogBytesAppend | DateCourse/Pods/leveldb-library/db/log_writer.cc:36-82 | the log of one more record is the log with that record's fragments appended |
| LogFormat.BytesAt | DateCourse/Pods/leveldb-library/db/log_writer.cc:84-109 | each fragment of a log is found in its bytes at its own offset |
| LogFormat.RecordInBytes | DateCourse/Pods/leveldb-library/db/log_writer.cc:84-109 | a physical record byte for byte: the masked checksum least byte first, shown for two checksums, two bytes of length, the type, the payload |
| LogFormat.SplitUnfold | DateCourse/Pods/leveldb-library/db/log_writer.cc:36-82 | where a header fits, a record that fits the block of 32768 bytes is one fragment of type 1 or 4, and a longer one fills it with a fragment of type 2 or 3 and goes on in the next |
| LogFormat.SplitOverBlocks | DateCourse/Pods/leveldb-library/db/log_format.h:14-30 | a record over three blocks has types 2, 3 and 4, and one that finds room for just a header begins with an empty fragment |
| LogFormat.TrailerIsZeros | DateCourse/Pods/leveldb-library/db/log_writer.cc:47-55 | a rest of a block too short for a header is filled with zeros |
| LogWriter.Writer.AddRecord | DateCourse/Pods/leveldb-library/db/log_writer.cc:36-109 | a file that holds exactly the log of some records then holds exactly the log of these and the new one |
| LogWriter.Writer.Reopen | DateCourse/Pods/leveldb-library/db/log_writer.cc:28-31 | a second writer may continue a cleanly written file |
| LogReader.Reader.SkipToInitialBlock | DateCourse/Pods/leveldb-library/db/log_reader.cc:36-58 | reading starts at the first block that can hold a record starting at the initial offset |
| LogReader.Reader.ReadPhysicalRecord | DateCourse/Pods/leveldb-library/db/log_reader.cc:199-281 | yields the next fragment, end or bad record of the file and reports just what that drops, however the file comes in blocks |
| LogReader.Reader.Reassemble | DateCourse/Pods/leveldb-library/db/log_reader.cc:86-176 | one step of the automaton that puts records together from fragments, its reports and resyncing included |
| LogReader.Reader.ReadRecord | DateCourse/Pods/leveldb-library/db/log_reader.cc:60-182 | returns the next record of the log read as a whole, with its true start in LastRecordOffset, or false when no record is left |
| LogRecovery.ReadAll | DateCourse/Pods/leveldb-library/db/log_reader.cc:60-182 | reading until the first false returns just the records, and makes just the reports, of the log read as a whole |
| LogRecovery.RecoversSurvivors | DateCourse/Pods/leveldb-library/db/log_reader.cc:60-281 | with an ideal checksum, of a log damaged in place or cut short, read from any offset, exactly the records all of whose fragments survive are returned, in order, unspliced, at their true offsets |
| LogRecovery.SurvivorsAreUnharmed | DateCourse/Pods/leveldb-library/db/log_reader.cc:60-281 | these are the written records, in order, that lost no fragment: a subsequence, each as written |
| LogRecovery.DamageLosesOnlyHarmed | DateCourse/Pods/leveldb-library/db/log_reader.cc:60-281 | in-place damage costs exactly the records that have a fragment damaged or dropped with its block |
| LogRecovery.RoundTrip | DateCourse/Pods/leveldb-library/db/log_reader.cc:60-281 | reading back a log from offset 0 gives exactly the records written, empty ones and ones over many blocks included, and no report |
| LogRecovery.TornTail | DateCourse/Pods/leveldb-library/db/log_reader.cc:152-159 | any byte prefix of a log gives exactly the records that end inside it, and no report |
| LogRecovery.RecoversBetween | DateCourse/Pods/leveldb-library/db/log_reader.cc:36-93 | from any initial offset, until the first false, exactly the records that start at or after it and end inside the file are returned |
| LogRecovery.TypeFiveEndsReading | DateCourse/Pods/leveldb-library/db/log_reader.h:82-90 | a record of type 5 with a good checksum ends the reading: all that follows is lost to it, a record begun before too, and nothing is reported |
| LogRecovery.TypeSixIsPassedOver | DateCourse/Pods/leveldb-library/db/log_reader.h:82-90 | a record of type 6 with a good checksum is passed over without a report of its own, but what was begun before it is dropped |
| LogRecovery.OtherTypesAreReported | DateCourse/Pods/leveldb-library/db/log_reader.cc:169-178 | a record of any other type with a good checksum is reported, its payload together with the bytes of a record begun before |
| LogDamage.DamageIsReported | DateCourse/Pods/leveldb-library/db/log_reader.cc:253-267 | with an ideal checksum and damage that leaves lengths and types alone, a log read from its start, also one cut short, makes no report if and only if no fragment of it is damaged, and the first report is the number of bytes from the first damaged fragment to the end of its block or of the file |
| LogDamage.HeaderDamage | DateCourse/Pods/leveldb-library/db/log_reader.cc:226-251 | whatever became of the first fragment that is not intact: a length that runs over a full block's end is reported with the rest of that block; at the end of the file it ends the reading in silence; a header of zeros that stands where a record began is passed over in silence with its block |
| LogDamage.ReportsAddUp | DateCourse/Pods/leveldb-library/db/log_reader.cc:60-281 | with damage in place that leaves lengths and types alone, the reports add up to exactly what is not returned: the rest of each block from its first damaged fragment on, and the payloads of the intact fragments of records that lost one |
| LogDamage.ZerosAreSilent | DateCourse/Pods/leveldb-library/db/log_reader.cc:245-251 | not all damage is reported: a file of one block that begins with zeros for length and type reads as empty, without a report, whatever it held |
| LogResync.ReportsFromOffset | DateCourse/Pods/leveldb-library/db/log_reader.h:76-78 | an undamaged log read from an offset makes reports if and only if a fragment of the first block read starts before the offset and the first fragment from the offset on continues its record |
| LogResync.HealthyLogIsReported | DateCourse/Pods/leveldb-library/db/log_reader.cc:271-276 | so an undamaged log of one record of 40000 bytes, read from offset 1, is reported as corrupt |
| LogResync.ContinuedLogIsRead | DateCourse/Pods/leveldb-library/db/log_reader.cc:96-129 | a writer stopped between two fragments of a record and another went on with the file: the finished records of both are read back, and the unfinished one is reported with the bytes there are of it, unless there are none |
| BatchLogs.CutLogHoldsFirstBatches | DateCourse/Pods/leveldb-library/db/db_impl.cc:408-427 | a log of write batches cut short anywhere gives back, without a report, exactly the first batches whose bytes are all there, each with its operations and sequence number |
| WriteBatches.BatchRead | DateCourse/Pods/leveldb-library/db/write_batch.cc:42-80 | what was put into a batch is read back from its bytes, with its sequence number, for lengths, counts and numbers that fit their words |
| WriteBatches.ShortRecords | DateCourse/Pods/leveldb-library/db/write_batch.cc:98-109 | for lengths below 128, the bytes of an operation and of a batch of one, and how many they are |
| WriteBatches.VarintLength | DateCourse/Pods/leveldb-library/util/coding.cc:47-73 | a length takes a byte for each seven bits |
| WriteBatches.WriteBatch.Put | DateCourse/Pods/leveldb-library/db/write_batch.cc:98-103 | the bytes are then those of the batch with this operation at its end, its count included |
| WriteBatches.WriteBatch.Delete | DateCourse/Pods/leveldb-library/db/write_batch.cc:105-109 | the same for a deletion |
| WriteBatches.WriteBatch.Append | DateCourse/Pods/leveldb-library/db/write_batch.cc:141-145 | the bytes are then those of both batches' operations one after the other, under the first one's sequence number |
| WriteBatches.WriteBatch.SetSequence | DateCourse/Pods/leveldb-library/db/write_batch.cc:94-96 | changes the sequence number and nothing else of the batch |
| WriteBatches.WriteBatch.Iterate | DateCourse/Pods/leveldb-library/db/write_batch.cc:42-80 | hands on the operations in order up to the first that cannot be read, and tells what is wrong with the bytes, a wrong count included |
| InternalKeys.ParseAppend | DateCourse/Pods/leveldb-library/db/dbformat.cc:12-21 | parsing undoes appending, for every sequence number below 2^56, and the bytes appended to are kept |
| InternalKeys.AppendParse | DateCourse/Pods/leveldb-library/db/dbformat.h:176-186 | whatever parses is the encoding of what it parses to |
| InternalKeys.KeyInBytes | DateCourse/Pods/leveldb-library/db/dbformat.cc:12-21 | the tag is a byte of type and seven of sequence number, least first; that of a seek key for the greatest number is 1 and seven times 255 |
| InternalKeys.CompareIsTotal | DateCourse/Pods/leveldb-library/db/dbformat.cc:50-66 | on strings with room for a tag Compare is antisymmetric, and zero only for equal strings |
| InternalKeys.CompareIsTransitive | DateCourse/Pods/leveldb-library/db/dbformat.cc:50-66 | Compare is transitive |
| InternalKeys.CompareIsBefore | DateCourse/Pods/leveldb-library/db/dbformat.cc:50-66 | on encoded keys Compare is user key up, sequence number down, type down |
| InternalKeys.CompareIsPrecedes | DateCourse/Pods/leveldb-library/db/dbformat.cc:50-66 | on entries of a store it is the order the iterators assume |
| InternalKeys.SeekKeySplits | DateCourse/Pods/leveldb-library/db/dbformat.h:61-68 | the seek key of (k, s) comes after exactly the entries of k above s and before those a reader at s may see |
| InternalKeys.BytewiseIsTotalOrder | DateCourse/Pods/leveldb-library/util/comparator.cc:25-27 | the bytewise comparator is a strict total order |
| InternalKeys.FindShortestSeparator | DateCourse/Pods/leveldb-library/util/comparator.cc:29-51 | shortens exactly when the first differing byte leaves room, to the string that ends with this byte raised by one, strictly between the two; else keeps start |
| InternalKeys.FindShortSuccessor | DateCourse/Pods/leveldb-library/util/comparator.cc:53-65 | the key up to its first byte that is not 0xff, with that byte raised by one; only runs of 0xff stay as they are |
| InternalKeys.FindShortestInternalSeparator | DateCourse/Pods/leveldb-library/db/dbformat.cc:68-85 | the source's two asserts: a shortened key lies strictly between start and limit, with the tag of a seek; otherwise start is kept |
| InternalKeys.FindShortInternalSuccessor | DateCourse/Pods/leveldb-library/db/dbformat.cc:87-99 | the source's assert with the exact condition: a user key with a byte to spare behind its first byte below 0xff ends at that byte, and the result lies after the key; any other key is kept |
| Compaction.DropsAreUnseen | DateCourse/Pods/leveldb-library/db/db_impl.cc:955-969 | no reader at or above smallest_snapshot can tell the inputs from what the drop rules keep, when no put of the key comes next below a dropped deletion |
| Compaction.UnsafeDropIsSeen | DateCourse/Pods/leveldb-library/db/db_impl.cc:958-969 | otherwise the reader at smallest_snapshot sees the old put come back |
| Compaction.KeptIsNeeded | DateCourse/Pods/leveldb-library/db/db_impl.cc:945-969 | what the rules keep is all that is newer than smallest_snapshot and of each key at most the one entry a reader there sees, which goes just when it is a deletion of a base key |
| Compaction.DropsAreUnseenIff | DateCourse/Pods/leveldb-library/db/db_impl.cc:955-969 | so the drops are unseen by all those readers if and only if no dropped deletion has such a put below it |
| Compaction.ViewIsLookup | DateCourse/Pods/leveldb-library/db/db_iter.cc:274-304 | the sorted map an iterator walks holds, key by key, just what reads find |
| Compaction.Compactor.IsBaseLevelForKey | DateCourse/Pods/leveldb-library/db/version_set.cc:1484-1503 | for keys asked about in order, true exactly when no file below the output level covers the key |
| Compaction.Compactor.HiddenIsHiddenAt | DateCourse/Pods/leveldb-library/db/db_impl.cc:946-956 | the running last_sequence_for_key decides rule (A) exactly |
| Compaction.Compactor.KeepsOneMore | DateCourse/Pods/leveldb-library/db/db_impl.cc:939-1005 | one turn of the loop extends what is kept of the input in order |
| Compaction.Compactor.KeepsAll | DateCourse/Pods/leveldb-library/db/db_impl.cc:939-1005 | what the loop keeps of the whole input is what the drop rules keep |
| Compaction.Compactor.DoCompactionWork | DateCourse/Pods/leveldb-library/db/db_impl.cc:916-1015 | the output files hold exactly what the drop rules keep, sorted, wherever the files are ended; at the last sequence number of all, 2^56-1, everything is dropped |
| Store.GetIsLookup | DateCourse/Pods/leveldb-library/db/db_impl.cc:1133-1144 | reading layer by layer, each newer than the next, finds the newest entry of all at or below the snapshot |
| Store.LogGroupKeeps | DateCourse/Pods/leveldb-library/db/db_impl.cc:1211-1224 | logging a group keeps the invariant of the store |
| Store.InsertKeeps | DateCourse/Pods/leveldb-library/db/db_impl.cc:1232-1234 | so does each insertion made without the mutex |
| Store.PublishKeeps | DateCourse/Pods/leveldb-library/db/db_impl.cc:1245 | and publishing the group's last sequence number |
| Store.SwitchKeeps | DateCourse/Pods/leveldb-library/db/db_impl.cc:1354-1376 | and switching to a new memtable and log |
| Store.FlushKeeps | DateCourse/Pods/leveldb-library/db/db_impl.cc:534-565 | and installing the table of the immutable memtable, also while a compaction is under way |
| Store.SnapshotStepsKeep | DateCourse/Pods/leveldb-library/db/db_impl.cc:1175-1183 | and taking or releasing a snapshot, and starting a compaction (db_impl.cc:900-904) |
| Store.CleanCutIsSafe | DateCourse/Pods/leveldb-library/db/db_impl.cc:961-967 | inputs that are cut cleanly give the three facts of the comment: a dropped deletion has nothing older left below it |
| Store.NewerAboveInstalled | DateCourse/Pods/leveldb-library/db/db_impl.cc:866-885 | outputs one level down leave every layer newer than those below, key by key |
| Store.FinishKeeps | DateCourse/Pods/leveldb-library/db/db_impl.cc:866-885 | installing a compaction keeps the invariant, drops and all |
| Store.MoveKeeps | DateCourse/Pods/leveldb-library/db/db_impl.cc:717-727 | and so does a trivial move with a clean cut |
| Store.RecoveredSequence | DateCourse/Pods/leveldb-library/db/db_impl.cc:358-360 | the last sequence number found when reopening is that of the last entry logged |
| Store.CrashKeeps | DateCourse/Pods/leveldb-library/db/db_impl.cc:317-363 | a crash at any point and reopening keep the invariant |
| Store.StepKeeps | DateCourse/Pods/leveldb-library/db/db_impl.cc:534-1375 | every step keeps it |
| Store.RunKeeps | DateCourse/Pods/leveldb-library/db/db_impl.cc:534-1375 | and every run, which also only ever extends the history and raises the last sequence number |
| Store.ReadsAreExact | DateCourse/Pods/leveldb-library/db/db_impl.cc:1109-1154 | a read through memtable, immutable memtable and levels, at a live snapshot or the present, finds the newest entry of the whole write history |
| Store.EveryRunReadsExactly | DateCourse/Pods/leveldb-library/db/db_impl.cc:1109-1154 | this holds after any run from a new database |
| Store.IteratorsAreExact | DateCourse/Pods/leveldb-library/db/db_impl.cc:1047-1077 | an iterator over all entries of memtables and levels walks exactly the keys that have a value in the history, with that value |
| Store.SnapshotsAreStable | DateCourse/Pods/leveldb-library/db/db_impl.cc:1175-1183 | what a live snapshot shows never changes, whatever runs in between |
| Store.CapturedReadsAreExact | DateCourse/Pods/leveldb-library/db/db_impl.cc:1112-1144 | a reader that has let go of the mutex is not disturbed by what writers insert into its memtable meanwhile |
| Store.GrownIsNewer | DateCourse/Pods/leveldb-library/db/db_impl.cc:1211-1246 | for all that is inserted later has sequence numbers above the published one |
| Store.LoggedGroupsAreAtomic | DateCourse/Pods/leveldb-library/db/db_impl.cc:1211-1246 | no reader, now or after any run, sees a group of writes in part |
| Store.ReplayRebuildsMemtables | DateCourse/Pods/leveldb-library/db/db_impl.cc:317-363 | in every state, the logs at or above the manifest's number hold exactly the two memtables, and the pending group if it was logged |
| Store.CrashLosesNothing | DateCourse/Pods/leveldb-library/db/db_impl.cc:317-363 | after a process crash and reopening every key reads as the whole history has it |
| CutBoundaries.InstallReads | DateCourse/Pods/leveldb-library/db/db_impl.cc:866-885 | what any read returns after a compaction or a move is installed, cleanly cut or not: a reader after an upper input gets older data if some of its key was left behind in the level, any other the newest of what remains |
| CutBoundaries.InstallIsUnseenIff | DateCourse/Pods/leveldb-library/db/db_impl.cc:866-885 | no reader at or above smallest_snapshot can tell, if and only if whatever is left just below an upper input such a reader sees says the same as it, and no dropped deletion had a put below it |
| CutBoundaries.MoveIsUnseenIff | DateCourse/Pods/leveldb-library/db/db_impl.cc:717-727 | a move goes unnoticed by all readers at or above any number, such as the oldest live snapshot, if and only if whatever is left just below a moved entry they see says the same as it |
| SplitKeys.MoveCanBringBackOldData | DateCourse/Pods/leveldb-library/db/db_impl.cc:717-727 | a level and a move in it that brings an old value back |
| SplitKeys.CompactionCanBringBackOldData | DateCourse/Pods/leveldb-library/db/db_impl.cc:866-885 | tables and a compaction of them that brings a deleted value back: the deletion is dropped and the put left behind |
| SplitKeys.DeletionIsPickedAlone | DateCourse/Pods/leveldb-library/db/version_set.cc:1345-1407 | these tables are sorted levels, and the picking of the other inputs leaves the table with the put out, whatever the size limit |
| SplitKeys.NewVersionIsPickedAlone | DateCourse/Pods/leveldb-library/db/version_set.cc:1345-1407 | and the file to be moved is picked without the one that begins with its key |
| SplitKeys.DeletedDataIsReached | DateCourse/Pods/leveldb-library/db/db_impl.cc:534-1246 | a run from a new database to the state in which that compaction, done next, brings the deleted value back |
| SplitKeys.MovedDataIsReached | DateCourse/Pods/leveldb-library/db/db_impl.cc:534-1246 | and one to the state in which that move does |
| KeyRuns.GetOfKeyIsLookup | DateCourse/Pods/leveldb-library/db/db_impl.cc:1133-1144 | layers that are newer one than the other for a key read right for that key, whatever they hold of others |
| KeyRuns.ChangeKeeps | DateCourse/Pods/leveldb-library/db/db_impl.cc:534-1246 | every write, flush, restart, and every compaction or move whose cut is clean for a key, keeps reads of that key right |
| KeyRuns.RunKeeps | DateCourse/Pods/leveldb-library/db/db_impl.cc:534-1246 | and so does every run of these, with compactions and moves cut uncleanly for other keys among them |
| KeyRuns.CleanKeysReadRight | DateCourse/Pods/leveldb-library/db/db_impl.cc:1109-1154 | on any run, unclean cuts included, the keys for which all cuts were clean read as the whole history has them |
| KeyRuns.PickedIsCleanForIff | DateCourse/Pods/leveldb-library/db/version_set.cc:1345-1407 | and picked inputs are cut cleanly for a key unless it is one of at most two: the key the upper inputs end within, and the base key the lower ones end within |
| VersionSets.GetOverlappingInputs | DateCourse/Pods/leveldb-library/db/version_set.cc:531-572 | all tables that overlap the range; in level 0 the range grows to the least one that no overlapping table reaches out of |
| VersionSets.GetRange | DateCourse/Pods/leveldb-library/db/version_set.cc:1224-1244 | the least and the greatest internal key of the tables |
| VersionSets.PickCompaction | DateCourse/Pods/leveldb-library/db/version_set.cc:1303-1338 | given the level, the first table behind the compaction pointer, or the first of all, and in level 0 all that overlap it, directly or through others |
| VersionSets.SetupOtherInputs | DateCourse/Pods/leveldb-library/db/version_set.cc:1345-1387 | the upper inputs grow to all of the level in the range of both sides if and only if that is more, both sides stay below the limit and no more of the next level overlaps; else they stay; they stay whole, and the lower ones are all tables of the next level that overlap them |
| VersionSets.CompactRange | DateCourse/Pods/leveldb-library/db/version_set.cc:1413-1446 | all tables of the level that overlap the range asked for, from level 1 on only the first of them, up to the one with which they reach the size of one compaction |
| VersionSets.InputsGrow | DateCourse/Pods/leveldb-library/db/version_set.cc:1358-1387 | inputs that do grow, at any level: the first table takes one of the next level, and that the second table |
| VersionSets.OverlappingIsStretch | DateCourse/Pods/leveldb-library/db/version_set.cc:531-572 | from level 1 on the tables that overlap a range lie side by side |
| VersionSets.NewerStaysIff | DateCourse/Pods/leveldb-library/db/version_set.cc:1345-1407 | what stays in the inputs' level is newer for each of their keys: always in level 0, and further down if and only if the table behind does not begin with the user key the inputs end with |
| VersionSets.NoneDroppedOverIff | DateCourse/Pods/leveldb-library/db/version_set.cc:1345-1407 | no base key has older entries left in the output level, if and only if the lower inputs do not end within one |
| VersionSets.PickedCutIsCleanIff | DateCourse/Pods/leveldb-library/db/version_set.cc:1345-1407 | so the cut of picked inputs is clean exactly when neither end lies within a user key in these two ways |
| Versions.FindFile | DateCourse/Pods/leveldb-library/db/version_set.cc:86-106 | the binary search ends where `Bisect` tells, and in a sorted level that is the first file that does not end before the target |
| Versions.BisectFinds | DateCourse/Pods/leveldb-library/db/version_set.cc:86-106 | for the search keeps all files left of it before the target and all from its right end on not |
| Versions.OneFileDecides | DateCourse/Pods/leveldb-library/db/version_set.cc:375-390 | in a sorted level the newest entry of a key at or below a number is in that file or nowhere |
| Versions.FileReadsAsLevel | DateCourse/Pods/leveldb-library/db/version_set.cc:375-390 | so reading that one file is reading the level |
| Versions.Get | DateCourse/Pods/leveldb-library/db/version_set.cc:332-425 | through the files of level 0 whose range has the key and one file of each other level, a read finds what reading all files and levels in order finds |
| Versions.GetFromVersion | DateCourse/Pods/leveldb-library/db/db_impl.cc:1109-1154 | with that search in place of the levels, a read returns what the whole write history holds for the key at the snapshot |
| Versions.SomeFileOverlapsRange | DateCourse/Pods/leveldb-library/db/version_set.cc:121-155 | true exactly when some file overlaps the range, open ended or not, for both ways of searching |
| Versions.PickLevelForMemTableOutput | DateCourse/Pods/leveldb-library/db/version_set.cc:502-528 | from the files' own ranges: no level down to the one picked overlaps, no push leaves too much to merge, and no level further down would do |
| Layouts.FlushIsAside | DateCourse/Pods/leveldb-library/db/version_set.cc:502-528 | a table flushed into the output level of a compaction under way goes to one side of all its inputs, when these leave no hole |
| Layouts.OutputsAddClear | DateCourse/Pods/leveldb-library/db/version_set.cc:759-773 | the outputs of a compaction are clear of all tables that stay in their level |
| Layouts.ChangeKeeps | DateCourse/Pods/leveldb-library/db/version_set.cc:711-757 | a flush, the beginning and the end of a compaction, a move and a crash keep every level sorted, its tables apart |
| Layouts.RunKeepsOrder | DateCourse/Pods/leveldb-library/db/version_set.cc:711-757 | and so does every run whose compactions leave no hole when they begin |
| Layouts.AutoPickedIsSnug | DateCourse/Pods/leveldb-library/db/version_set.cc:1291-1387 | what PickCompaction and SetupOtherInputs arrive at leaves none: a key no table covers has all inputs on one side |
| Layouts.PickWork | DateCourse/Pods/leveldb-library/db/version_set.cc:1291-1387 | so the two together pick work on which the levels stay sorted |
| Layouts.StaysInOrderIff | DateCourse/Pods/leveldb-library/db/version_set.cc:1413-1446 | for any inputs, manual ones included, the levels stay sorted whatever is flushed meanwhile and however the outputs turn out, if and only if they leave no hole or no flush goes as far down as the outputs |
| Layouts.HoleBreaks | DateCourse/Pods/leveldb-library/db/db_impl.cc:919-928 | with a hole, a flush into it and an output across it overlap |
| Layouts.FlushOfEntries | DateCourse/Pods/leveldb-library/db/db_impl.cc:534-565 | to the entries of the levels a flush of tables is the store's flush |
| Layouts.ReplacedEntries | DateCourse/Pods/leveldb-library/db/db_impl.cc:866-885 | and replacing inputs by outputs is the store's installation |
| Layouts.TablesAreAgain | DateCourse/Pods/leveldb-library/db/version_set.cc:711-757 | after every such change there are sorted tables again for what the store's levels hold, as the next compaction and the next read ask for |
| Layouts.CompactMemTable | DateCourse/Pods/leveldb-library/db/db_impl.cc:534-565 | with the level picked from the files' own ranges, is the step that flushes |
| Builders.MaybeAddFile | DateCourse/Pods/leveldb-library/db/version_set.cc:759-773 | the assertion that a file listed does not overlap the one before it holds |
| Builders.SaveTo | DateCourse/Pods/leveldb-library/db/version_set.cc:711-757 | the new list of a level holds exactly the files that stay and those added, sorted, whenever these are clear of each other |
| GapRuns.RunIsPossible | DateCourse/Pods/leveldb-library/db/db_impl.cc:690-705 | a run from empty levels to a manual compaction of two tables with nothing in between, a key in between flushed meanwhile, and its end |
| GapRuns.BothAreTaken | DateCourse/Pods/leveldb-library/db/version_set.cc:1413-1446 | the inputs are those CompactRange takes of all keys, whatever the limit for more of them |
| GapRuns.OutputsAreKept | DateCourse/Pods/leveldb-library/db/db_impl.cc:946-969 | the output is what the drop rules keep of these inputs |
| GapRuns.WriteIsMissed | DateCourse/Pods/leveldb-library/db/version_set.cc:375-390 | then the level holds the flushed write, but the search for its file ends at another one, which does not: the read finds nothing |
| BackgroundWork.MergeInputs | DateCourse/Pods/leveldb-library/db/version_set.cc:1258-1289 | the merged input is all entries of the picked tables in internal key order |
| BackgroundWork.DoCompaction | DateCourse/Pods/leveldb-library/db/db_impl.cc:887-1045 | from the picked tables through merging, dropping and installing, a compaction is a StartCompaction step followed by a FinishCompaction step |
| BackgroundWork.BackgroundCompaction | DateCourse/Pods/leveldb-library/db/db_impl.cc:712-742 | a single table that overlaps nothing below is moved, unless too much lies below that; anything else is compacted |
| DBImpls.DBImpl.Get | DateCourse/Pods/leveldb-library/db/db_impl.cc:1109-1154 | returns what the whole write history holds for the key at the snapshot, looking through the files of level 0 newest first |
| DBImpls.SearchFiles | DateCourse/Pods/leveldb-library/db/version_set.cc:345-425 | the first file that knows the key at the snapshot decides; when none does, the search through the files comes to nothing and goes on with the rest |
| DBImpls.Search | DateCourse/Pods/leveldb-library/db/memtable.cc:108-143 | finds the newest entry of the key at or below the sequence number in one table, deletions included |
| DBImpls.DBImpl.AddRecord | DateCourse/Pods/leveldb-library/db/db_impl.cc:1213-1224 | is the step that logs a group |
| DBImpls.DBImpl.InsertNext | DateCourse/Pods/leveldb-library/db/db_impl.cc:1232-1234 | is the step that inserts one entry |
| DBImpls.InsertInto | DateCourse/Pods/leveldb-library/db/write_batch.cc:112-134 | inserts the entries of a batch under consecutive sequence numbers from its header on |
| DBImpls.DBImpl.SetLastSequence | DateCourse/Pods/leveldb-library/db/db_impl.cc:1245 | is the step that publishes a group |
| DBImpls.DBImpl.WriteGroup | DateCourse/Pods/leveldb-library/db/db_impl.cc:1211-1246 | with flushes and snapshots by others in between, appends the group to the history, and no snapshot covers part of it |
| DBImpls.DBImpl.MakeRoomForWrite | DateCourse/Pods/leveldb-library/db/db_impl.cc:1318-1379 | answers, delays and switches just as RoomFor tells from what it finds at each look, with no step of the store but switches and flushes |
| DBImpls.RoomIsFair | DateCourse/Pods/leveldb-library/db/db_impl.cc:1318-1379 | a writer is delayed at most once, and one that forces a switch never; it is let in only with room, and after a switch if it forced one; a memtable is never switched while the previous one is unflushed, nor while there are too many files in level 0 |
| DBImpls.FirstLook | DateCourse/Pods/leveldb-library/db/db_impl.cc:1328-1375 | a look at level 0 that is crowded delays once, one with room lets in at once, and one without room and with nothing to wait for switches at once |
| DBImpls.BaseKeysAreBase | DateCourse/Pods/leveldb-library/db/version_set.cc:1484-1503 | the base keys of the compaction loop meet the clean-cut condition, when every entry lies within a file of its level |
| DBImpls.DBImpl.SwitchToNewLog | DateCourse/Pods/leveldb-library/db/db_impl.cc:1357-1374 | is the step that switches memtable and log |
| DBImpls.DBImpl.PickLevelForMemTableOutput | DateCourse/Pods/leveldb-library/db/version_set.cc:502-528 | picks the deepest level, at most 2, such that no level down to it overlaps and no push leaves too much to merge; level 0 when that one overlaps |
| DBImpls.DBImpl.CompactMemTable | DateCourse/Pods/leveldb-library/db/db_impl.cc:534-565 | is the step that flushes, to the level picked, with the logs no longer needed deleted (db_impl.cc:237-240) |
| DBImpls.DBImpl.MoveFile | DateCourse/Pods/leveldb-library/db/db_impl.cc:717-727 | is the step of the trivial move |
| DBImpls.DBImpl.BeginCompaction | DateCourse/Pods/leveldb-library/db/db_impl.cc:887-904 | is the step that starts a compaction, with the oldest snapshot or the last sequence number as smallest_snapshot |
| DBImpls.DBImpl.InstallCompactionResults | DateCourse/Pods/leveldb-library/db/db_impl.cc:866-885 | is the step that installs a compaction |
| DBImpls.DBImpl.GetSnapshot | DateCourse/Pods/leveldb-library/db/db_impl.cc:1175-1178 | is the step that takes a snapshot, of the last sequence number |
| DBImpls.DBImpl.ReleaseSnapshot | DateCourse/Pods/leveldb-library/db/db_impl.cc:1180-1183 | is the step that releases one |
| DBImpls.RecoverLogFile | DateCourse/Pods/leveldb-library/db/db_impl.cc:365-486 | wherever the memtable is found full, the tables made hold exactly the log's entries, newer on top, and max_sequence is the highest seen |
| DBImpls.SortedLogs | DateCourse/Pods/leveldb-library/db/db_impl.cc:317-344 | the logs to replay are exactly those from the manifest's number on, in order |
| DBImpls.RecoverLogs | DateCourse/Pods/leveldb-library/db/db_impl.cc:344-360 | replaying them in order adds exactly their entries to level 0, its files still newest first |
| DBImpls.DBImpl.CrashAndOpen | DateCourse/Pods/leveldb-library/db/db_impl.cc:274-363 | is the step of a crash and reopening |
| DBImpls.LogOrderKept | DateCourse/Pods/leveldb-library/db/db_impl.cc:344-347 | every step keeps batches in sequence order within the logs and from log to log |
| DBImpls.RemainingFiles | DateCourse/Pods/leveldb-library/db/version_set.cc:1476-1482 | deleting whole files from level 0 keeps it ordered and takes out exactly their entries |
| DBImpls.OneRunAsFiles | DateCourse/Pods/leveldb-library/db/version_set.cc:345-425 | level 0 read file by file is level 0 read as one layer |
| WriteQueues.WriteQueue.BuildBatchGroup | DateCourse/Pods/leveldb-library/db/db_impl.cc:1269-1314 | the group is the longest run behind the head that size limits and sync allow, and its operations are theirs in queue order |
| WriteQueues.WriteQueue.Write | DateCourse/Pods/leveldb-library/db/db_impl.cc:1194-1265 | the group leaves together, each told the head's status; newcomers stay queued; the new head is signalled |
| WriteQueues.WriteQueue.Dismiss | DateCourse/Pods/leveldb-library/db/db_impl.cc:1248-1257 | pops exactly up to the last writer of the group, answering each but the head |
| WriteQueues.PromisedAnswers | DateCourse/Pods/leveldb-library/db/db_impl.cc:1248-1257 | what a group is promised is what was written for it |
| WriteQueues.StepIsFair | DateCourse/Pods/leveldb-library/db/db_impl.cc:1194-1265 | one turn of the head keeps the three facts below |
| WriteQueues.RunsAreFair | DateCourse/Pods/leveldb-library/db/db_impl.cc:1194-1314 | over any run: every writer is answered once, in the order of arrival; the operations applied are those of the writers told that all went well, in that order; the groups' sequence ranges are contiguous and disjoint |
| WriteQueues.SyncIsNeverWeakened | DateCourse/Pods/leveldb-library/db/db_impl.cc:1290-1293 | a sync write never joins a head that does not sync |
| WriteQueues.GroupIsBounded | DateCourse/Pods/leveldb-library/db/db_impl.cc:1277-1302 | more than one batch together take at most 1048576 bytes, and at most 131072 more than the head's when that has at most 131072; the next writer was refused only for one of these limits or for sync; bytes are those of the encoded batches |
| SnapshotLists.SnapshotList.New | DateCourse/Pods/leveldb-library/db/snapshot.h:42-51 | appends one snapshot to the circle, which stays linked both ways and in order |
| SnapshotLists.SnapshotList.Delete | DateCourse/Pods/leveldb-library/db/snapshot.h:53-58 | takes exactly that snapshot out of the circle |
| SnapshotLists.SnapshotList.Unlink | DateCourse/Pods/leveldb-library/db/snapshot.h:55-56 | rewiring the two neighbours leaves a circle without the node |
| SnapshotLists.SnapshotList.Oldest | DateCourse/Pods/leveldb-library/db/snapshot.h:39 | is the first taken of the live snapshots, and none has a lower number |
| SnapshotLists.SnapshotList.Newest | DateCourse/Pods/leveldb-library/db/snapshot.h:40 | is the last taken of the live snapshots, and none has a higher number |
| SnapshotLists.SnapshotList.SmallestSnapshot | DateCourse/Pods/leveldb-library/db/db_impl.cc:900-904 | is the number of the oldest snapshot, or the last sequence number when there is none |
| SnapshotLists.SmallestBoundsTheFuture | DateCourse/Pods/leveldb-library/db/db_impl.cc:900-904 | bounds every snapshot alive now or taken later, over any run of taking and releasing |
| ImageDownloaders.ImageDownloader.Download | DateCourse/Pods/AlamofireImage/Source/ImageDownloader.swift:262-405 | joins the handler of the url, or serves from the cache, or makes a request, started if a slot is free and else queued at the back or front |
| ImageDownloaders.ImageDownloader.CancelRequest | DateCourse/Pods/AlamofireImage/Source/ImageDownloader.swift:457-480 | answers the receipt's operation with a cancellation, and drops a request nobody waits for that has not been started |
| ImageDownloaders.ImageDownloader.FetchResponseHandler | DateCourse/Pods/AlamofireImage/Source/ImageDownloader.swift:319-335 | finds a handler of its own exactly when the request was not cancelled; a stale request never finds a newer handler its own |
| ImageDownloaders.ImageDownloader.RemoveResponseHandler | DateCourse/Pods/AlamofireImage/Source/ImageDownloader.swift:337-377 | removes the request's own handler, whatever came in between, and fires each of its operations once, in order: a failure as it is, the image itself to an operation without a filter, else the image as filtered by the first filter with its identifier |
| ImageDownloaders.Answer | DateCourse/Pods/AlamofireImage/Source/ImageDownloader.swift:341-377 | each operation gets the image as filtered by the first filter with its identifier, which runs once |
| ImageDownloaders.AnswersTell | DateCourse/Pods/AlamofireImage/Source/ImageDownloader.swift:341-377 | the i-th operation is told that: its own id, and the response told by result and filters alone |
| ImageDownloaders.ImageDownloader.DecrementActiveRequestCount | DateCourse/Pods/AlamofireImage/Source/ImageDownloader.swift:517-523 | the count goes down, but not below zero, and by how much it then falls behind the downloads under way |
| ImageDownloaders.ImageDownloader.StartNextRequestIfNecessary | DateCourse/Pods/AlamofireImage/Source/ImageDownloader.swift:504-515 | with a free slot, starts the first request of the queue that is still suspended and drops those before it |
| ImageDownloaders.HandlerAnswered | DateCourse/Pods/AlamofireImage/Source/ImageDownloader.swift:337-377 | every operation ever given stays either waiting once or fired once |
| ImageDownloaders.OperationCancelled | DateCourse/Pods/AlamofireImage/Source/ImageDownloader.swift:462-473 | also when one is cancelled |
| ImageDownloaders.StartFromQueue | DateCourse/Pods/AlamofireImage/Source/ImageDownloader.swift:504-515 | starting from the queue strands nothing: the free slots stay within the start-next steps to come |
| ImageDownloaders.NothingToStart | DateCourse/Pods/AlamofireImage/Source/ImageDownloader.swift:504-515 | and when nothing is started there was nothing to start |
| ImageDownloaders.WorkGoesOn | DateCourse/Pods/AlamofireImage/Source/ImageDownloader.swift:504-523 | while a request can be started, a start-next step or a download under way is still to come |
| ImageDownloaders.FreedSlotIsTakenAgain | DateCourse/Pods/AlamofireImage/Source/ImageDownloader.swift:517-523 | from any state with all slots taken, counting down a request that was cancelled in the queue lets one more download start than allowed |
| ImageDownloaders.MoreThanAllowed | DateCourse/Pods/AlamofireImage/Source/ImageDownloader.swift:475-478 | a run in which a cancelled queued request lets two downloads run where one is allowed |
| DownloadRuns.Perform | DateCourse/Pods/AlamofireImage/Source/ImageDownloader.swift:262-523 | each block run on the serial queue is one step on values |
| DownloadRuns.StepKeeps | DateCourse/Pods/AlamofireImage/Source/ImageDownloader.swift:262-523 | every step keeps all invariants, and the downloads under way exceed the active count by exactly what decrements took off for requests never started |
| DownloadRuns.RunKeeps | DateCourse/Pods/AlamofireImage/Source/ImageDownloader.swift:262-523 | over every run: each operation waits once or was fired once, handlers and awaiting requests belong together, nothing startable is stranded, and the excess is the sum of the steps' |
| DownloadRuns.NoMoreThanAllowed | DateCourse/Pods/AlamofireImage/Source/ImageDownloader.swift:475-478 | on every run in which no cancellation drops a suspended request, the active count is that of the downloads under way and at most the maximum |
| DownloadRuns.NewDownloadersKeepTheLimit | DateCourse/Pods/AlamofireImage/Source/ImageDownloader.swift:475-478 | so from a new downloader on |
| DownloadRuns.Overrun | DateCourse/Pods/AlamofireImage/Source/ImageDownloader.swift:517-554 | from any state with a dropped request still to be counted down and any slots, a run without further drops leads to more downloads under way than allowed |
| DownloadRuns.LimitSafeIff | DateCourse/Pods/AlamofireImage/Source/ImageDownloader.swift:475-554 | no run without further drops exceeds the limit, if and only if the count is exact and no dropped request is still to be counted down, or there are no slots |
| DownloadRuns.OnlyDropsEndanger | DateCourse/Pods/AlamofireImage/Source/ImageDownloader.swift:475-478 | while that is so, a step ends it exactly when it is a cancellation that drops a suspended request |
| DownloadRuns.StepTells | DateCourse/Pods/AlamofireImage/Source/ImageDownloader.swift:337-377 | what each step tells callers: an operation is told the cached image when it asks, that it was cancelled by its receipt, or the result of the download it waited for |
| DownloadRuns.RunTells | DateCourse/Pods/AlamofireImage/Source/ImageDownloader.swift:262-523 | over every run, whoever is told something is told it by such a step |
| DownloadRuns.WaitingAreTold | DateCourse/Pods/AlamofireImage/Source/ImageDownloader.swift:337-377 | an operation that waits for a request is told when the request's answer comes in: the failure, or the image with its filter |
| DownloadRuns.FailureIsPassedOn | DateCourse/Pods/AlamofireImage/Source/ImageDownloader.swift:373-376 | all who wait are told a failure unchanged |
| DownloadRuns.CancelledAreCancelled | DateCourse/Pods/AlamofireImage/Source/ImageDownloader.swift:457-480 | an operation is told that it was cancelled only by the cancellation of its receipt or by an answer that says so |
| ImageCaches.AutoPurgingImageCache.Add | DateCourse/Pods/AlamofireImage/Source/ImageCache.swift:183-194 | the new image replaces the one of its identifier, and the usage stays the sum of all bytes |
| ImageCaches.AutoPurgingImageCache.Purge | DateCourse/Pods/AlamofireImage/Source/ImageCache.swift:196-221 | above capacity, removes the shortest run of least recently used images that brings the usage to the preferred one or below: none used after one that is kept, and with one less the usage would still be above; else nothing |
| ImageCaches.AutoPurgingImageCache.SortedImages | DateCourse/Pods/AlamofireImage/Source/ImageCache.swift:200-207 | all cached images, each once, least recently used first |
| ImageCaches.BytesTaken | DateCourse/Pods/AlamofireImage/Source/ImageCache.swift:209-220 | taking images out takes exactly their bytes off the sum, so the usage cannot underflow |
| ImageCaches.TotalWithout | DateCourse/Pods/AlamofireImage/Source/ImageCache.swift:187-193 | an image's bytes can be taken out of the sum in any order |
| ImageCaches.AutoPurgingImageCache.RemoveImage | DateCourse/Pods/AlamofireImage/Source/ImageCache.swift:266-277 | removes that image and its bytes, and tells whether it was there |
| ImageCaches.AutoPurgingImageCache.RemoveImages | DateCourse/Pods/AlamofireImage/Source/ImageCache.swift:244-259 | removes exactly the images whose identifier starts with the request's |
| ImageCaches.AutoPurgingImageCache.RemoveAllImages | DateCourse/Pods/AlamofireImage/Source/ImageCache.swift:283-296 | empties the cache |
| ImageCaches.AutoPurgingImageCache.Image | DateCourse/Pods/AlamofireImage/Source/ImageCache.swift:316-326 | returns the image and marks it, and no other, as used now |
| Multipart.FoundBehind | DateCourse/Pods/Alamofire/Source/MultipartFormData.swift:62-75 | a delimiter cannot overlap itself, so behind a part free of it it is found right there |
| Multipart.RoundTrip | DateCourse/Pods/Alamofire/Source/MultipartFormData.swift:62-75 | reading a body back, whatever follows it, gives its parts if and only if the delimiter occurs in none of them |
| Multipart.PartRoundTrip | DateCourse/Pods/Alamofire/Source/MultipartFormData.swift:421-430 | the headers and the body of a part are told apart again if and only if no header line holds a line end |
| Multipart.PartReadBack | DateCourse/Pods/Alamofire/Source/MultipartFormData.swift:421-430 | a reader that cuts each header line at its first colon and space gets back the very keys and values, in order, and the body, if and only if no header line holds a line end and no key a colon and space |
| Multipart.FormsReadBack | DateCourse/Pods/Alamofire/Source/MultipartFormData.swift:348-430 | headers and bodies of all parts come back from what is encoded if and only if no part holds the delimiter, none but the last closes the body and all headers come back so |
| Multipart.TwoForms | DateCourse/Pods/Alamofire/Source/MultipartFormData.swift:400-430 | two parts of one header each, byte for byte |
| Multipart.MultipartFormData.Encode | DateCourse/Pods/Alamofire/Source/MultipartFormData.swift:348-364 | the text of the parts with the first marked initial and the last final, whatever portions the streams come in; and exactly when a reader gets all headers and bodies back from it |
| Multipart.MultipartFormData.WriteEncodedData | DateCourse/Pods/Alamofire/Source/MultipartFormData.swift:374-398 | the same bytes, whatever portions are read and written, cut off silently at the stream's capacity; and exactly when they are read back, if there is room |
| Multipart.MultipartFormData.WriteBytes | DateCourse/Pods/Alamofire/Source/MultipartFormData.swift:517-533 | partial writes add up to the data, or to what there is space for |
| Multipart.EncodedIsFormat | DateCourse/Pods/Alamofire/Source/MultipartFormData.swift:348-419 | encoding parts not encoded before gives the format of section 5.1.1 of RFC 2046, and nothing at all for no parts |
| Multipart.OneOpenerKept | DateCourse/Pods/Alamofire/Source/MultipartFormData.swift:348-356 | encoding and appending in any order leave at most the first part marked initial |
| Multipart.EncodedIsFormatIff | DateCourse/Pods/Alamofire/Source/MultipartFormData.swift:348-419 | parts encoded or appended in any order encode to the format if and only if no part but the last was marked final before |
| Multipart.EncodedReadsBack | DateCourse/Pods/Alamofire/Source/MultipartFormData.swift:348-419 | and all of them are read back if and only if moreover none holds the delimiter |
| Multipart.LatePartsAreUnread | DateCourse/Pods/Alamofire/Source/MultipartFormData.swift:355-356 | otherwise a reader gets just the parts up to the first one marked final, if these are clean |

## Left out

- Store.NewerAboveInstalled: inputs are cut cleanly by precondition, which the picking does not ensure at levels from 1 on; `VersionSets.PickedCutIsCleanIff` says exactly when it does, and `CutBoundaries.InstallReads` and `InstallIsUnseenIff` what happens otherwise.
- Store.FinishKeeps: holds for compactions and moves with such a clean cut; runs with others are described key by key in `KeyRuns.CleanKeysReadRight`.
- Store.MoveKeeps: holds for compactions and moves with such a clean cut; runs with others are described key by key in `KeyRuns.CleanKeysReadRight`.
- Store.StepKeeps: holds for compactions and moves with such a clean cut; runs with others are described key by key in `KeyRuns.CleanKeysReadRight`.
- Store.RunKeeps: holds for compactions and moves with such a clean cut; runs with others are described key by key in `KeyRuns.CleanKeysReadRight`.
- Store.EveryRunReadsExactly: holds for compactions and moves with such a clean cut; runs with others are described key by key in `KeyRuns.CleanKeysReadRight`.
- DBImpls.DBImpl.MoveFile: asks for a clean cut, since the state has to stay that of a step of `Store`.
- DBImpls.DBImpl.BeginCompaction: asks for a clean cut, since the state has to stay that of a step of `Store`.
- BackgroundWork.DoCompaction: asks for picked inputs whose cut is clean in the sense of `PickedCutIsCleanIff`. Others get no turn between its beginning and its end here; that their steps disturb nothing is `Store.StepKeeps`. Seek compactions and manual ones, which pick their first table otherwise, are left out.
- BackgroundWork.BackgroundCompaction: asks for the same; how much lies below a table to be moved is a parameter.
- DBImpls.DBImpl.WriteGroup: of what others do in between, only flushes to level 0 and the taking of snapshots are given turns in the method; `Store` has all steps.
- DBImpls.DBImpl.Get: searches each level below 0 as one table; `Versions.GetFromVersion` picks one file of it by its bounds.
- DBImpls.SearchFiles: the same, and how often a file is looked at, and so the seek statistics, is not stated.
- VersionSets.PickCompaction: the level is given; the scores that choose it, and seek compactions, which start from a file given elsewhere, are left out.
- VersionSets.SetupOtherInputs: the grandparents and the new compaction pointer are not among the results; the pointer is a parameter of the next pick.
- DBImpls.RecoverLogFile: log reuse and records too small for a header are left out.
- DBImpls.DBImpl.MakeRoomForWrite: sleeping, waiting and the readings of memory and file counts are given as a list of looks; that a wait ends is not stated.
- DBImpls.DBImpl.PickLevelForMemTableOutput: whether files overlap a key range is given per level; `Versions.PickLevelForMemTableOutput` tells it from the files.
- DBImpls.DBImpl.CompactMemTable: the same; `Layouts.CompactMemTable` has the files.
- DBImpls.Search: stands for the seeks in the skip list and in table files, which are not modelled.
- Levels below 0 are one run each in `Store` and `DBImpl`; `VersionSet`, `Version`, `Layout` and `BackgroundWork` have their tables.
- Layouts.HoleBreaks: its compaction keeps all entries of its inputs in one output file; an output that ends at the hole breaks nothing.
- IteratorStack.Grow: children grow between two moves; what comes in during a move of the iterator counts as having come before or after it.
- The logs of `Store` and `DBImpl` hold batches as values, justified by `BatchLogs.CutLogHoldsFirstBatches`; the manifest and CURRENT are left out, and a manifest commit is one atomic step.
- WriteBatches.BatchRead: keys and values are below 4 GB and counts below 2^32, as the source needs them to be.
- Power loss: the old log is not synced at a switch, so only process crashes are covered.
- I/O errors in the store's steps: a group that fails to be logged or inserted still publishes its sequence numbers, which `WriteQueue` shows and `Store` does not.
- Option reuse_logs: continuing an old log after recovery is not a step of `Store`, and `LogResync.ContinuedLogIsRead` has one left behind between two fragments, not within one.
- LogDamage.DamageIsReported: for damage that leaves lengths and types alone; `LogDamage.HeaderDamage` has what other damage to the first header it meets reports, and `LogDamage.ZerosAreSilent` damage that is not reported at all.
- Protecting the files of a compaction under way from deletion (pending_outputs_) and live tables: tables are values here.
- Log reading without checksums, and files that return errors.
- Comparators for which distinct byte strings are equal, and internal keys that do not parse.
- The read sampling of the iterator, and the freeing of its buffers; the saved key of a seek is the target rather than its encoding.
- WriteQueues.WriteQueue.Write: batches are sequences of operations, so that the temporary batch keeps the callers' own batches undisturbed is not stated.
- The wrap-around of sequence numbers above 2^56-1: the store's numbers are unbounded; encodings and compactions state their bound.
- ImageDownloaders.ImageDownloader.Download: authentication, validation, progress, the cache policy and requests that could not be created are left out; the cache's answer is a parameter.
- ImageDownloaders.ImageDownloader.RemoveResponseHandler: that each image handed on is also put into the cache is left out; firing the operations belongs to the block that removes the handler, since no other code can reach them then; response handlers are values, so sharing of the handler object is not modelled.
- Handler IDs are taken to be unique, as the source takes its UUIDs to be.
- Cancelling a request directly instead of through its receipt.
- ImageCaches.AutoPurgingImageCache.Add: blocks are atomic, so mutation inside non-barrier blocks is not modelled; the 64-bit trap of the addition is a precondition.
- Multipart.MultipartFormData.Encode: read errors of streams and checks on the output url are left out; a stream is read once.
- User interface, Firebase, Maps, sessions, parameter encoding, bindings and statistics: calls into code these files do not determine, or easy members.
