# Verified model of the lcdb storage engine and three stl components

This project models the LevelDB port in `engine/src` and three components of `stl`, and proves what they promise.

The engine is a multi-version key/value store. A write becomes an entry `(user key, sequence, value | deletion)`; entries
pass from a write-ahead log and a memtable to an immutable memtable and then to tables, and compaction discards some of
them. The simple thing all of it must agree with is the map obtained by applying the operations in sequence order
(`Mvcc.Replay`). The modules, from the bottom up:

| module | models |
|---|---|
| `Bytes`, `Coding` | bytewise comparator, fixed-width integers, varints, length-prefixed slices |
| `Mvcc`, `Format` | entries, what a snapshot sees of a set of them, replay; internal keys and lookup keys on the wire |
| `WriteBatch`, `VersionEdit`, `BlockBuilder` | the three codecs, as specification functions and as the objects that produce the bytes |
| `SkipList` | the skiplist: every pointer store of an insert and every load of a search as one step, and the operations for one thread |
| `Memtable`, `LiveGet` | the memtable over the contract of the skiplist's search, and a get whose search runs while the writer links nodes |
| `DbIter` | the cursor that hides versions, in both directions, as a refinement of a plain cursor over a sorted list |
| `Snapshots`, `BaseLevel`, `Compaction` | the snapshot list, the base-level test, the compaction loop, and why dropping entries is safe |
| `Crc32c`, `CrcPolynomial`, `CrcValues` | CRC-32C: bit by bit, three-way interleaved with zero operators, slicing-by-8, and the storage mask; as the remainder of a polynomial; a published value |
| `LogFormat`, `LogWriter`, `LogReader`, `LogDamage`, `LogTear`, `LogReplay` | the log as bytes, its writer and reader, truncation, damage, appending to a log that was cut, and replay into a memtable |
| `LogTail`, `LogLife` | the whole life of a log file: appends, failed appends, crashes and reopening in any order, what a reader makes of the file, and the three states its end can be in |
| `WriteQueue` | the writer queue, group commit, memtable switching and background scheduling as a transition system |
| `Store`, `StoreSafety`, `StoreRecovery` | writes, inserts, switches, flushes, compactions, file removal, gets, snapshots, failed appends, torn files, crashes and recovery as a transition system |
| `StoreLog` | the database with its log files as bytes, in which nothing about a log is left to choose |
| `Engine` | the writer queue and the database as one transition system, in which what both know of is one step |
| `Timer`, `Trie` | the timer wheel and the reference-counted trie of `stl` |

Objects that the source changes in place are classes whose methods are proved against specification functions; protocols
are transition systems in which a step is one region run under the mutex, one pointer store, one load, or one file
operation. Theorems about whole runs are stated over lists of steps of any length.

Two promises of a log-structured store hold here only under a condition, which the project states exactly:

- Acknowledged writes survive a crash as long as their log's end is clean. A crash in the middle of an append leaves part
  of a physical record, and with `reuse_logs` the log is reopened behind it (db_impl.c:924-945); a failed append leaves
  the writer's block offset ahead of the file (log_writer.c:103). What is appended next is acknowledged but may not be
  read back. `LogLife.LifeReads` says for every life of a log file which records are: those all of whose physical records
  the reader comes to in step and that lie within a block. After one cut this is `LogTear.AppendsReadBack`, after a failed
  append `LogLife.SkewedReads`. In the database, a group written now stays through everything that can follow exactly
  when this holds for its record (`StoreLog.SafeIffComesBack`), and every group does exactly when the tail is clean
  (`StoreLog.SafeIffClean`). In the transition system `Store` the operations that are not read back are `Store.Missing`,
  and a crash takes exactly those (`StoreRecovery.CrashTakesMissing`); `StoreLog.RunsAreRuns` proves that what `Store`
  allows covers whatever happens to the bytes. Reads stay replays of the history and groups stay whole in all these runs.
- The manifest is a log file as well, reopened in the same way (version_set.c:1394-1437) and with the same weakness. The
  theorems about runs ask that the edits written can be read back (`StoreRecovery.Careful`), as they can on a clean
  manifest (`StoreRecovery.CleanIsLegible`), and every step then keeps the invariant (`StoreRecovery.StepKeeps`).
  Otherwise, from every reachable state that writes a flush edit to an unclean manifest acknowledged operations can be
  lost (`StoreRecovery.UncleanFlushLoses`), and from every one that writes a compaction edit the database can become
  impossible to open (`StoreRecovery.UncleanMergeBlocks`); `StoreRecovery.TornManifestLoses` is one such run from the
  first open on.

Where the code and its comments differ, the model follows the code:

- `ldb_do_compaction_work` uses the largest sequence number both as "no version of this key seen yet" and as a possible
  `smallest_snapshot`; if the latter ever reached it, every entry would be dropped. `Compaction.Compact` states both cases.
- In `read_physical_record` a stored type byte of 5 or 6 is indistinguishable from the reader's own end-of-file and
  bad-record codes; `LogFormat.Absorb` treats them so.
- `stl_timer_add` counts a timer before it knows that it has room, so the count is the number of occupied slots exactly
  when no add has failed since the last clear (`Timer.Counted`, with a concrete case in `Timer.FailedAddMiscounts`).
- A waiter without a batch that is absorbed into another writer's group is completed without a memtable switch; only one
  that leads is promised a switch (`WriteQueue.GroupOk`).
- A failed log write uses up its sequence numbers (`Store.Logged`, `WriteQueue.Written`).

## Model

| member | source | states |
|---|---|---|
| Bytes.LessIsTotal | engine/src/util/comparator.c:25-42 | the bytewise comparator is a strict total order |
| Bytes.LessIsLexicographic | engine/src/util/comparator.c:25-42 | it is the lexicographic order: a proper prefix comes first, and otherwise the smaller byte at the first difference |
| Coding.Fixed64RoundTrip | engine/src/util/coding.h:41-121 | a 64-bit little-endian integer reads back as itself |
| Coding.FixedDigits | engine/src/util/coding.h:41-121 | byte k of a fixed-width integer is its k-th base-256 digit, the lowest first |
| Coding.VarintDigits | engine/src/util/coding.h:170-209 | byte k of a varint has the k-th base-128 digit and the high bit exactly when another byte follows, and no byte is wasted |
| Coding.Varint32RoundTrip | engine/src/util/coding.h:170-209 | a varint reads back as itself and leaves exactly what followed it |
| Coding.SliceRoundTrip | engine/src/util/slice.c:71-105 | a length-prefixed slice reads back as itself and is self-delimiting |
| Mvcc.ReplayIsAnswer | engine/src/dbformat.c:206-230 | reading the newest entry at or below a sequence is replaying the operations up to it |
| Mvcc.LayeredLookup | engine/src/db_impl.c:2108-2126 | looking in a newer layer and falling through only when it holds nothing for the key gives the answer of both layers together |
| Format.KeyRoundTrip | engine/src/dbformat.c:30-107 | an internal key imports back to its user key, sequence and type |
| Format.KeyLayout | engine/src/dbformat.c:30-107 | an internal key is the user key, the type, 1 or 0, and the seven low bytes of the sequence |
| Format.CompareIsInternalOrder | engine/src/dbformat.c:206-230 | comparing encoded keys is the internal order: user keys up, then sequence and type down |
| Format.LookupKeySeeks | engine/src/dbformat.c:173-194 | a lookup key sorts just before the versions of its key that a reader may see, and after all newer ones |
| Memtable.Memtable.Add | engine/src/memtable.c:108-143 | an add stores exactly one more entry and keeps the internal order |
| Memtable.Memtable.Get | engine/src/memtable.c:145-199 | a get reports the newest visible version's value or deletion, and reports nothing exactly when there is none |
| Memtable.AddAll | engine/src/memtable.c:108-199 | after any list of adds, reading at any sequence is replaying the list up to it |
| WriteBatch.BatchRoundTrip | engine/src/write_batch.c:87-137 | any list of puts and deletes iterates back to itself with status OK |
| WriteBatch.BatchBytes | engine/src/write_batch.c:87-174 | a batch of a put and a delete, byte for byte |
| WriteBatch.AcceptedIsCanonical | engine/src/write_batch.c:87-137 | whatever bytes iterate with status OK mean the same as the bytes the writer would produce, and their count matches |
| WriteBatch.Batch.Put | engine/src/write_batch.c:159-167 | a put appends one operation and keeps the count in step |
| WriteBatch.Batch.Append | engine/src/write_batch.c:176-184 | append is concatenation of the operations under the first batch's sequence |
| WriteBatch.Batch.Iterate | engine/src/write_batch.c:87-137 | iteration hands over exactly the readable operations and says whether all was well |
| WriteBatch.Batch.InsertInto | engine/src/write_batch.c:209-219 | the i-th operation is stored under the batch's sequence plus i |
| WriteBatch.LaterWins | engine/src/write_batch.c:186-219 | read at the batch's last sequence or later, the last operation on a key decides, and other keys show what was there before |
| VersionEdit.EditRoundTrip | engine/src/version_edit.c:309-503 | import inverts export for every edit with levels 0 to 6, 64-bit numbers and keys of at least 8 bytes |
| VersionEdit.FieldLayout | engine/src/version_edit.c:309-367 | the fields of an edit that are one name or number, and a deleted file, byte for byte |
| VersionEdit.KeyedFieldLayout | engine/src/version_edit.c:309-367 | a compaction pointer and a new file, byte for byte |
| VersionEdit.AcceptedReexports | engine/src/version_edit.c:384-503 | whatever import accepts re-exports to bytes that import to the same edit |
| VersionEdit.PutIsSetInsert | engine/src/version_edit.c:85-96 | deleted files are a set kept in order of level and number |
| VersionEdit.EditObject.RemoveFile | engine/src/version_edit.c:301-307 | removing a file puts it into that set |
| VersionEdit.EditObject.ExportTo | engine/src/version_edit.c:309-367 | the fields that are set, then the pointers, deleted files and new files, are written so that a well-formed edit imports back |
| VersionEdit.EditObject.ImportFromBytes | engine/src/version_edit.c:384-503 | import succeeds on exactly the well-formed inputs, with the fields they carry |
| BlockBuilder.BlockRoundTrip | engine/src/table/block_builder.c:28-49 | the entries of a block decode to exactly the pairs added, whatever the keys |
| BlockBuilder.EntryLayout | engine/src/table/block_builder.c:91-136 | an entry of a block, byte for byte |
| BlockBuilder.DecodesFromRestart | engine/src/table/block_builder.c:91-136 | decoding may start at any restart point, which shares no bytes and covers at most the interval |
| BlockBuilder.TrailerReadsBack | engine/src/table/block_builder.c:138-151 | a finished block gives back its restart points and its entries |
| BlockBuilder.BlockGen.Add | engine/src/table/block_builder.c:91-136 | an add appends the next entry, sharing the longest common prefix except at a restart |
| BlockBuilder.BlockGen.Finish | engine/src/table/block_builder.c:138-151 | finish lays the restart array after the entries |
| SkipList.TurnIsRight | engine/src/skiplist.c:233-303 | each load keeps a search in place, and the last one finds the right node for the list as it is then |
| SkipList.StepKeeps | engine/src/skiplist.c:306-349 | every pointer and height store of an insert, and every load, keeps the levels, the writer's predecessors and every search in place |
| SkipList.AlwaysSorted | engine/src/skiplist.c:306-349 | after any run of such steps every level is a strictly sorted list of its keys and a part of the level below |
| SkipList.SearchIsAtomic | engine/src/skiplist.c:233-349 | a search during inserts, started at any height, answers exactly for the keys present at one moment of it |
| SkipList.SearchDuringInsert | engine/src/skiplist.c:306-349 | with one insert in progress the answer is right for the list before it or for the list after it |
| SkipList.IterNextIsNext | engine/src/skiplist.c:389-397 | an iterator's step during inserts goes to the first node after it in the list as it is then |
| SkipList.LoadsAreBounded | engine/src/skiplist.c:233-303 | a search ends: its loads are bounded by the keys ahead, the levels, and the keys added meanwhile |
| SkipList.List.FindGe | engine/src/skiplist.c:233-258 | the first node at or after the key, and the predecessor at every level |
| SkipList.List.FindLt | engine/src/skiplist.c:260-282 | the last node before the key, or the head |
| SkipList.List.FindLast | engine/src/skiplist.c:284-303 | the last node, or the head of an empty list |
| SkipList.List.Insert | engine/src/skiplist.c:306-349 | an insert adds exactly its key |
| LiveGet.GetIsAtomic | engine/src/memtable.c:145-199 | a get whose search runs over any interleaving with inserts is right for the entries in the memtable at one moment of it |
| LiveGet.GetIsSettled | engine/src/memtable.c:145-199 | when what is inserted meanwhile is newer than the reader's sequence, that get is right for the entries that were there when it began |
| DbIter.ViewIsSnapshot | engine/src/db_iter.c:109-201 | the abstract list holds a key and value exactly when the snapshot's answer for the key is that value |
| DbIter.ViewAscends | engine/src/db_iter.c:109-201 | the abstract list is strictly sorted by user key |
| DbIter.DbIter.FindNextUserEntry | engine/src/db_iter.c:109-144 | the forward scan stops at the first entry to show and passes only hidden ones |
| DbIter.DbIter.FindPrevUserEntry | engine/src/db_iter.c:146-201 | the backward scan stops at the nearest visible entry before it and passes only hidden ones |
| DbIter.DbIter.Next | engine/src/db_iter.c:269-310 | next, also after a reversal, shows the pair with the least key above the one shown, and is invalid exactly when there is none |
| DbIter.DbIter.Prev | engine/src/db_iter.c:312-348 | prev, also after a reversal, shows the pair with the greatest key below the one shown, and is invalid exactly when there is none |
| DbIter.DbIter.Seek | engine/src/db_iter.c:350-369 | seek shows the pair with the least key at or after the target, and is invalid exactly when every key is less |
| DbIter.DbIter.First | engine/src/db_iter.c:371-382 | first shows the pair with the least key, and is invalid exactly when there are none |
| DbIter.DbIter.Last | engine/src/db_iter.c:384-394 | last shows the pair with the greatest key, and is invalid exactly when there are none |
| DbIter.StepLands | engine/src/db_iter.c:269-394 | the plain cursor moves to exactly those pairs |
| DbIter.DbIter.Arrive | engine/src/db_iter.c:109-201 | an entry that the writer adds, newer than the iterator's sequence, changes neither its pairs nor its position |
| DbIter.Drive | engine/src/db_iter.c:269-394 | for every sequence of first, last, seek, next and prev, with the writer adding entries between them, each reading is the pair of the snapshot that its operation is for, starting from the one before |
| Snapshots.SnapList.New | engine/src/snapshot.h:80-108 | a new snapshot joins the ring at its newest end |
| Snapshots.SnapList.Delete | engine/src/snapshot.h:110-122 | deleting unlinks exactly one snapshot and keeps the others in order |
| Snapshots.SnapList.SmallestSnapshot | engine/src/db_impl.c:1315-1320 | the compaction's floor is the least of the live snapshots, or the last sequence when there are none |
| Snapshots.FloorBelowEverySnapshot | engine/src/snapshot.h:67-122 | that floor stays at or below every snapshot live after any later run |
| BaseLevel.LevelPointers.IsBaseLevelForKey | engine/src/version_set.c:2290-2321 | asked about ascending keys, the one-way pointers answer exactly whether some deeper table spans the key |
| Compaction.Compact | engine/src/db_impl.c:1329-1428 | the loop keeps exactly the entries that are neither shadowed at the floor nor obsolete deletions |
| Compaction.KeptSorted | engine/src/db_impl.c:1360-1421 | what is kept stays in internal order |
| Compaction.KeptExactly | engine/src/db_impl.c:1360-1398 | an entry of the inputs goes exactly when a newer one for its key is at or below the floor, or when it is a deletion at or below the floor whose key no deeper level has |
| Compaction.KeptOnePerKey | engine/src/db_impl.c:227-231 | at most one kept entry per key is at or below the floor |
| Compaction.CompactionPreservesReads | engine/src/db_impl.c:1378-1398 | every read at or above the floor is unchanged over newer data, inputs and deeper levels |
| Compaction.OlderReadsMayChange | engine/src/db_impl.c:227-231 | below the floor a read may change, so the floor is needed |
| Crc32c.CrcChains | stl/stl_crc.c:476-504 | the CRC of a concatenation is the CRC of the second part seeded with that of the first |
| Crc32c.MatrixTimes | stl/stl_crc.c:52-66 | the loop multiplies a matrix by a vector over GF(2) |
| Crc32c.MatrixSquare | stl/stl_crc.c:70-76 | squaring the operator for n zero bits gives the operator for 2n |
| Crc32c.ZerosOperator | stl/stl_crc.c:82-118 | repeated squaring yields the operator for len zero bytes when len is a power of two, and for the power below otherwise |
| Crc32c.BuildShiftTable | stl/stl_crc.c:122-134 | the four tables look up that operator byte by byte |
| Crc32c.ShiftIsZeros | stl/stl_crc.c:137-142 | one shift feeds len zero bytes to the register |
| Crc32c.InitHardware | stl/stl_crc.c:152-156 | the two shift tables are those for the long and the short block size |
| Crc32c.ThreeWay | stl/stl_crc.c:175-240 | three interleaved registers recombine to the bytewise CRC of the whole |
| Crc32c.CrcHardware | stl/stl_crc.c:158-254 | the interleaved form equals the bytewise CRC, which is pinned by `CrcPolynomial.CrcIsRemainder`, for every buffer, length, alignment and seed |
| Crc32c.InitSoftware | stl/stl_crc.c:426-451 | table k advances a byte past k further zero bytes |
| Crc32c.CrcSoftware | stl/stl_crc.c:476-504 | slicing-by-8 equals the same CRC for every buffer, length, alignment and seed |
| CrcPolynomial.CrcIsRemainder | stl/stl_crc.c:42-504 | a word is the CRC of a message, continued from any seed, exactly when its complement, read low bit first, is the remainder of the message with the complemented seed added to its first 32 bits, times x^32, modulo x^32 + 0x1EDC6F41 |
| CrcPolynomial.RemainderIsUnique | stl/stl_crc.c:42 | a polynomial has one remainder modulo that generator |
| CrcValues.ZeroBytes | stl/stl_crc.c:42-504 | thirty-two zero bytes have the CRC that RFC 3720 publishes, 0x8A9136AA |
| Crc32c.MaskRoundTrip | engine/src/util/crc32c.h:46-58 | unmasking inverts masking |
| Crc32c.MaskValues | engine/src/util/crc32c.h:46-58 | some stored forms, value by value |
| LogWriter.LogWriter.EmitPhysicalRecord | engine/src/log_writer.c:32-105 | seven header bytes built in place, the checksum extended from the type's over the payload, are the physical record of the format |
| LogWriter.LogWriter.AddRecord | engine/src/log_writer.c:108-167 | a record is laid down as its fragments over 32 KiB blocks, padded where no header fits |
| LogWriter.WriteAll | engine/src/log_writer.c:52-167 | a list of records is written as the log format says, from any starting length |
| LogFormat.LogRoundTrip | engine/src/log_reader.c:94-412 | reading a written log returns exactly its records, with nothing reported |
| LogFormat.PhysicalLayout | engine/src/log_writer.c:60-105 | a physical record is the masked CRC-32C of type and payload, the length, the type, 1 to 4, and the payload |
| LogFormat.WritePads | engine/src/log_writer.c:106-140 | where a header no longer fits in the block of 32768 bytes, zeros fill it up |
| LogFormat.CrashPrefix | engine/src/log_reader.c:121-162 | a log cut at any byte returns exactly the records complete by then, with nothing reported |
| LogFormat.ReopenContinues | engine/src/log_writer.c:52-58 | a writer reopened at a record boundary produces the bytes one writer would have produced |
| LogReader.LogReader.ReadPhysicalRecord | engine/src/log_reader.c:94-217 | the buffered reader judges each physical record as the whole file says, and reports what it drops |
| LogReader.LogReader.ReadRecord | engine/src/log_reader.c:258-412 | the next record and the reports before it are the next part of the file's trace |
| LogReader.ReadAll | engine/src/log_reader.c:258-412 | reading to the end returns the records of the trace of any file |
| LogDamage.Resynchronises | engine/src/log_reader.c:94-412 | with any blocks damaged from some physical record on, exactly the records all of whose fragments are intact come back, in order, and none is joined from two |
| LogTear.ContinuedReads | engine/src/db_impl.c:924-945 | a log cut anywhere, reopened at its length and appended to reads back as what was whole before the cut and, of what was appended, all unless the cut tore a physical record, and otherwise what starts after the torn record's block |
| LogTear.AppendsReadBack | engine/src/db_impl.c:924-945 | for every cut, what is appended at the reopened length reads back exactly when the cut tore no physical record, or left no room for a header in its block |
| LogTear.TornTailLoses | engine/src/log_reader.c:121-162 | a log cut after the header of its record and continued with a shorter record reads as empty, with nothing reported |
| LogTear.ReadsIffWithin | engine/src/log_reader.c:94-220 | where the reader stands at a physical record, it accepts it exactly when the record lies within one block there; whether a reader ever stands there is `LogLife.LifeReads` |
| LogTear.SkewLoses | engine/src/log_writer.c:87-105 | after one failed append more records succeed; the second of them, which the writer placed at a block start, is dropped by the reader, and a short one behind it that lies within its block is never reached |
| LogLife.LifeReads | engine/src/log_reader.c:94-412 | after any appends, failed appends, crashes and reopenings, in any order, the reader returns exactly the records all of whose physical records it comes to in step and that lie within a block |
| LogLife.RulesHold | engine/src/log_writer.c:52-167 | an append, a failed append and a crash turn the tail of a log, clean, torn or skewed, into one the rules of `LogTail` allow, and an append is read back only as they say |
| LogLife.SafeIffClean | engine/src/log_writer.c:106-167 | whatever is appended next comes back, exactly when the tail is clean: writer and file agree on the block offset and a reader is in step at the end |
| LogLife.SkewedReads | engine/src/log_writer.c:87-167 | after a failed append, whatever it left in the file and whatever happened before, on a log read in step to its end, all records appended next come back exactly when every physical record of theirs needs no padding and lies within one block where it stands |
| LogLife.FitsAfterFailure | engine/src/log_writer.c:87-167 | records that fit in this sense, behind a log written cleanly and a failed append that left no byte, are all returned and nothing is reported, with nothing asked of the reader's tests |
| LogReplay.RecoverLogFile | engine/src/db_impl.c:825-905 | replaying a log cut at any byte rebuilds exactly the write groups logged whole, and the largest sequence they use |
| LogReplay.RecoverContinuedLog | engine/src/db_impl.c:825-945 | replaying a log that was cut, reopened and written on rebuilds exactly the groups whole before the cut and those appended that read back |
| LogReplay.QueueIsLoggable | engine/src/db_impl.c:2220-2271 | the successful groups of a run of the writer queue have the increasing disjoint sequence ranges that replay relies on |
| WriteQueue.BuildBatchGroup | engine/src/db_impl.c:1713-1775 | the group is the computed run of waiters and the concatenation of their batches |
| WriteQueue.GroupIsMaximal | engine/src/db_impl.c:1713-1775 | that run fits the size cap, joins no sync write to a non-sync leader, and is the longest such run |
| WriteQueue.GroupLimits | engine/src/db_impl.c:1728-1765 | in bytes: a group is at most 128 KiB larger than a first batch of at most 128 KiB, and at most 1 MiB otherwise, unless it is that batch alone, and the next waiter breaks this or the sync rule |
| WriteQueue.StepKeeps | engine/src/db_impl.c:2190-2294 | every step keeps the queue, completion, group and scheduling invariants |
| WriteQueue.OneLeader | engine/src/db_impl.c:2204-2237 | in every run at most one thread leads, and it is the head of the queue |
| WriteQueue.HeadIsAwake | engine/src/db_impl.c:2273-2289 | in every run the head is running, signalled, or waiting for a background job that is scheduled |
| WriteQueue.CompletesOnce | engine/src/db_impl.c:2273-2284 | waiters finish in arrival order, each once, with the result of the one group it belongs to |
| WriteQueue.StepIsLater | engine/src/db_impl.c:2209-2213 | a completed call stays completed with the same result |
| WriteQueue.AcknowledgedIsLogged | engine/src/db_impl.c:2220-2284 | in every run an acknowledged write was logged by its group, synced if it asked for that, and has consecutive sequence numbers in batch order |
| WriteQueue.RangesAreDisjoint | engine/src/db_impl.c:2220-2271 | groups take consecutive, disjoint, increasing sequence ranges, failed writes included |
| WriteQueue.ErrorIsFinal | engine/src/db_impl.c:1091-1099 | once the background error is set and no leader is past its check, every later group fails |
| WriteQueue.NoLostWork | engine/src/db_impl.c:1613-1657 | has_imm is imm, at most one job exists, no immutable memtable is overwritten, and pending work has a job unless an error or shutdown forbids it |
| StoreSafety.InsertKeeps | engine/src/db_impl.c:2239-2262 | an insert made with the mutex released changes no read in progress |
| StoreSafety.FlushCommitKeeps | engine/src/db_impl.c:1105-1149 | installing a flushed memtable as a table changes no read |
| StoreSafety.MergeCommitKeeps | engine/src/db_impl.c:1252-1283 | installing a compaction changes no read that may still be made |
| StoreSafety.RemoveTableKeeps | engine/src/db_impl.c:643-731 | a table deleted with the mutex released is referenced by nobody |
| StoreRecovery.StepKeeps | engine/src/db_impl.c:1105-1149 | every step of the database keeps the whole invariant: failed appends, records no reader will find, crashes and reopening included, as long as the manifest edits written are readable |
| StoreRecovery.GetsReplay | engine/src/db_impl.c:2073-2151 | in every run a finished get returns what replaying the operations of the history up to the sequence it captured returns; which that is, the next two say |
| StoreRecovery.GetReadsNow | engine/src/db_impl.c:2073-2151 | in every run a get without a snapshot, whatever happens while it runs, returns what replaying everything that had succeeded when it began returns |
| StoreRecovery.GetReadsSnapshot | engine/src/db_impl.c:2092-2310 | in every run a get with a snapshot returns what replaying everything that had succeeded when that snapshot was taken returns, whichever others were taken and released since |
| StoreRecovery.GetFinishes | engine/src/db_impl.c:2108-2126 | a get that begins can always finish, after at most the memtable, the immutable memtable and the version |
| StoreRecovery.SnapshotIsStable | engine/src/db_impl.c:2296-2310 | a get at a sequence reached earlier in the life of the process, such as a snapshot's, returns what the map of that moment held, whatever was written, flushed or compacted since |
| StoreRecovery.GroupsAreAtomic | engine/src/db_impl.c:2220-2271 | in every run a get sees all of a write group or none of it |
| StoreRecovery.GroupsVanishWhole | engine/src/db_impl.c:825-905 | a crash takes a write group whole or not at all, the one being written included |
| StoreRecovery.DurableIsAll | engine/src/db_impl.c:643-713 | at every moment the manifest's tables and the readable part of the logs it names hold exactly the memtables, the standing tables and the logged group, without the missing operations |
| StoreRecovery.CrashTakesMissing | engine/src/db_impl.c:825-945 | an operation of the history survives a crash exactly when it is not missing, and a missing one is in no part of the reopened database |
| StoreRecovery.SurvivesIffShown | engine/src/db_impl.c:2239-2262 | in every reachable state a group written and acknowledged now survives a following crash exactly when a reader finds its record |
| StoreRecovery.SparedIsRead | engine/src/db_impl.c:825-1089 | an operation that succeeded stays across any crashes that do not find it missing, and until it is overwritten every get of its key that begins later returns it |
| StoreRecovery.NothingIsLost | engine/src/db_impl.c:825-1089 | as long as nothing is appended to a log after a torn record or a failed append, every operation that succeeded stays, across any number of crashes, and until it is overwritten every get of its key that begins later returns it |
| StoreRecovery.RecoveryRebuilds | engine/src/db_impl.c:970-1089 | a reopened database reads as the history without the missing operations, and its last sequence is at least every recovered one |
| StoreRecovery.CanReopen | engine/src/db_impl.c:1030-1060 | whatever obsolete-file removal deleted, an open after a crash finds every file it needs |
| StoreRecovery.DoomedExactly | engine/src/db_impl.c:643-731 | obsolete-file removal takes exactly the tables that no version, compaction output or reader holds, and the logs below the current number |
| StoreRecovery.MergeFloorIs | engine/src/db_impl.c:1315-1320 | a compaction starts with the least live snapshot as its floor, or the last sequence when there is none |
| StoreRecovery.UncleanFlushLoses | engine/src/version_set.c:1285-1437 | from every reachable state about to write a flush edit to an unclean manifest, some run installs the flush, removes the old logs and crashes, and the reopened database has lost an operation that no log misses |
| StoreRecovery.UncleanMergeBlocks | engine/src/version_set.c:1285-1437 | from every reachable state about to write a compaction edit to an unclean manifest, some run deletes an input that no reader holds and the manifest still lists, so that no open succeeds |
| StoreRecovery.TornManifestLoses | engine/src/version_set.c:1394-1437 | a run in which an edit is written behind a torn one, and a database whose acknowledged operation no log misses reopens empty |
| StoreLog.StepAllowed | engine/src/log_writer.c:52-167 | whatever an append leaves in the file and whatever a crash cuts off, the database's rules for that step allow it |
| StoreLog.StepLinks | engine/src/db_impl.c:825-945 | every step keeps each log the database may need, byte for byte, what the database believes it to be, and the tail of the current one the one the bytes have |
| StoreLog.RunsAreRuns | engine/src/db_impl.c:825-945 | every run of the database on its log files is a run of `Store`, with what comes back and the tails decided by the bytes |
| StoreLog.RecoverLog | engine/src/db_impl.c:825-905 | replaying the file of any log the database needs, with any part of the group being written in it, rebuilds exactly what the database says is found there |
| StoreLog.SafeIffComesBack | engine/src/db_impl.c:2239-2262 | in every reachable state a group written now is in the database after everything that can follow, exactly when a reader comes in step to all physical records of its log record and each lies within a block |
| StoreLog.SafeIffClean | engine/src/db_impl.c:2239-2262 | in every reachable state every group is safe to write in this sense exactly when the tail of the log is clean |
| StoreLog.WriteIsRead | engine/src/db_impl.c:2073-2262 | until it is overwritten, an operation of a group whose record comes back is returned by every get of its key that begins later, across any crashes and whatever else is written to the log |
| Engine.RunsBoth | engine/src/db_impl.c:2190-2294 | a run of the engine, in which calls, background, readers and files interleave, is a run of the writer queue and a run of the database |
| Engine.HistoryIsAcknowledged | engine/src/db_impl.c:2220-2294 | in every run of the engine the history is that at the open followed by exactly the operations of the acknowledged groups, in order and under the queue's numbers |
| Engine.AcknowledgedIsRead | engine/src/db_impl.c:2073-2294 | the operations of an acknowledged call are numbered consecutively, and until one is overwritten every get of its key that begins later returns it, in this process or after crashes that do not find it missing |
| Timer.Timer.Add | stl/stl_timer.c:127-164 | an add takes the first free place of its row, returns an id no live timer has, and disturbs no other timer even when the rows grow |
| Timer.Timer.Expand | stl/stl_timer.c:84-125 | growing keeps every timer at its place in its row, so ids stay valid |
| Timer.Timer.Cancel | stl/stl_timer.c:166-181 | cancelling removes exactly the timer the id names |
| Timer.Timer.Poll | stl/stl_timer.c:185-230 | a poll passes one row for each 16 time units since the last that passed any, at most 16, fires exactly the timers in those rows whose deadline has come, each once, keeps the rest, and returns when to poll next |
| Timer.FiresInTime | stl/stl_timer.c:185-230 | a timer fires in exactly one poll, not before its deadline and no later than the one in which the rows passed exceed delay / 16 |
| Timer.FiresByPoll | stl/stl_timer.c:185-230 | with polls at least 16 time units apart, a timer of delay d fires in the (d / 16 + 1)-th at the latest |
| Timer.PollEach | stl/stl_timer.c:185-230 | after so many polls of the wheel the timer is gone and its callback has been made |
| Timer.Counted | stl/stl_timer.c:127-151 | the count is the number of occupied slots exactly when no add has failed since the last clear |
| Timer.FailedAddMiscounts | stl/stl_timer.c:127-151 | five timers in a row of four and no memory: the count is five, the occupied slots four |
| Trie.Trie.Insert | stl/stl_trie.c:218-309 | the key is stored, or an allocation failed at some depth and the trie is exactly as before |
| Trie.Trie.Rollback | stl/stl_trie.c:168-216 | rollback undoes the counts and frees the nodes of an insert that stopped at any depth |
| Trie.Trie.Remove | stl/stl_trie.c:487-572 | a remove takes away exactly its key and frees the nodes no key needs any more |
| Trie.Trie.Lookup | stl/stl_trie.c:574-588 | lookup agrees with the map of stored keys |
| Trie.Trie.NumEntries | stl/stl_trie.c:606-619 | the number of entries is the number of stored keys |
| Trie.EveryNodeCounts | stl/stl_trie.c:218-309 | a node exists exactly for prefixes of stored keys, and its use count is their number, at least one |

## Left out

- `rpc/`, the file system, clocks, threads, memory management and reference counts: file operations are nondeterministic success or failure, allocation failure is a parameter where it is handled.
- Comparators other than the bytewise one, and `paranoid_checks`: it turns the reader's reports of dropped bytes into a failed open, where the model opens without what was dropped.
- Level scoring, choosing compaction inputs and output levels, trivial moves, read sampling, the merging iterator and the block reader: `Store` takes from `version_set.c` that a version's lookup finds the newest entry of its tables and that a compaction's inputs are newer than deeper tables and older than the rest (`Placed`).
- LogTear.ContinuedReads: asks that the reader's tests reject the torn physical record, since bytes appended later can complete it by chance, with the checksum a torn record states or with the padding zeros it lacks.
- LogTear.AppendsReadBack and LogReplay.RecoverContinuedLog: ask the same.
- LogLife.LifeReads, LogLife.SkewedReads and StoreLog.RecoverLog: ask it of every place where the reader comes to bytes that are no physical record (`LogLife.DetectedAll`).
- StoreRecovery.StepKeeps: asks that the manifest edits written are readable; in the model an edit behind a torn one is dropped, where a report of the reader can also make the next open fail.
- Whether a manifest edit can be read back follows the rules of `LogTail` too, but the manifest's bytes are not modelled as those of the logs are in `StoreLog`.
- StoreLog.SafeIffClean: asks that a sequence number is left for one more operation.
- DbIter.Drive: entries arrive between two operations of the iterator, not between two loads of one operation.
- Operating-system crashes that lose unsynced bytes of an older file while keeping a newer one.
- Log readers with a non-zero initial offset, and read errors of the file.
- Unparsable internal keys inside a compaction, and damage that a checksum does not detect.
- Sequence numbers beyond 56 bits, file numbers beyond 64 bits, and keys, values and counts beyond the 32-bit fields that hold their sizes.
- Manual compactions and `ldb_close` with writers still queued.
- Weak-memory effects: the skiplist steps are interleaved under sequential consistency.
- Adding timers from within a timer callback, and timer deadlines that overflow 64 bits.
- SkipList.List.Insert: nodes are named by their keys and the next pointers are one map, so node addresses and their allocation are not modelled.
- Memtable.Memtable.Get: the skiplist's search stands behind a scan with the same contract; `LiveGet` puts the two together for entries named by skiplist keys that follow their order, which exist for any entries (`LiveGet.PlacesExist`).
- Trie.Trie.Lookup: the binary forms of the trie operations also load the byte position after the key, on which no result depends; the model reads only the key's bytes.
- Trie.Trie.Insert: nodes are named by the prefix they were created for, so node addresses are not modelled.
- `stl_array`, `stl_list`, `stl_queue`, `stl_heap`, `stl_ringbuffer`, `stl_set`, `stl_dict`, `stl_bloom_filter`, `stl_base64`, `stl_md5`, `stl_string` and the engine's command-line tools: they would add easier members.
