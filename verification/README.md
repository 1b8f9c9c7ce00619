# Models of the storage and codec libraries in PWR

PWR checks in two C/C++ libraries whose correctness is not local: LevelDB, a multi-version
log-structured store, and nanopb, a descriptor-driven Protocol Buffers codec. This project models the
parts of them that carry the guarantees and proves these guarantees for all inputs, all runs and all
reachable states. `dafny verify dfyconfig.toml` checks everything.

**LevelDB's log** (`ByteStrings`, `Log`, `LogIO`, `LogProofs`, `LogDamage`, `LogForeign`,
`LogReports`). Writer and reader are classes with the source's fields and loops, proved against functions
on bytes. Reading undoes writing, into a file that may run full; every byte prefix yields exactly the
complete records; under damage that the reader's checks detect, fragments of different records are never
joined. All of it holds for every checksum function.

**LevelDB's store** (`Versions`, `Compaction`, `Tables`, `Store`, `StoreProofs`, `StoreSteps`,
`StoreCrash`, `StoreRuns`, `StoreTrace`, `StoreProgress`). The specification is a history of operations
and the value of each key at each sequence number. The store is a state machine of eighteen kinds of
event, each a stretch of `db_impl.cc` under the mutex or one step of work done without it: writes in
flight, memtable switches, flushes, compactions, file deletion, snapshots, reads without the lock,
crashes, and recoveries that finish or break off. One invariant for a running store and one for its disk
give right reads, stable snapshots and crash safety over every run, and the store refines a specification
that sees nothing but the calls. The compaction loop itself is a method, proved against a local drop rule,
which is proved to mean obsolescence.

**From bytes to the store** (`Varints`, `Batches`, `MemTables`, `Recovery`, `KnownBytes`). Batches are byte buffers
patched in place, memtables hold encoded entries in comparator order, and the crash event of the store
is what cutting the bytes of the newest log amounts to.

**LevelDB's iterator, snapshots, queue and skip list** (`DbIter`, `DbCursor`, `Snapshots`,
`GroupCommit`, `GroupCommitProofs`, `GroupPoison`, `SkipLists`, `SkipListRuns`, `SkipListProgress`). The
iterator with its two directions agrees with a cursor over the visible map; the circular snapshot list
keeps its oldest node in front; group commit commits each batch at most once, in order, writes nothing
behind a failed sync, and strands nobody: every state has a way out; the skip list can be searched between
any two stores of an insertion.

**nanopb** (`PbIntegers`, `PbFields`, `PbLayout`, `PbMessages`, `PbRoundTrip`, `PbMerge`, `PbUnknown`,
`PbExact`, `PbEvolution`, `PbSafety`, `PbEncoder`, `PbDecoder`, `PbEndToEnd`). `PbMessages` says what is
encoded and decoded as functions on message values; `PbEncoder` and `PbDecoder` hold the streams,
substreams, iterator, bit mask and two-pass encoding as loops and classes that meet these functions
exactly. Decoding undoes encoding, sizing agrees with writing, unknown fields leave no trace, messages one
behind the other are merged, whatever is accepted fits its type, and the field iterator finds the members
of the structure that its descriptors were made for.

## What the code does not keep

- A key that does not parse resets the compaction loop's memory (`db_impl.cc` lines 908-912), so a
  deleted key can come back: `Compaction.CorruptKeyBringsBackDeletedKey` is the input, and
  `Compaction.LoopPreservesMeaningIff` the exact condition.
- A smallest snapshot of 2^56-1 would make the loop drop every parseable entry, since that number also
  marks a fresh key: `Compaction.DoCompactionWork` states both cases.
- `pb_field_iter_find` on a type without fields finds tag 0 at the terminator, so that such a type fails
  on field number 0 where every other type skips it: `PbFields.FieldIter.Find`, and exactly
  `PbUnknown.TransparentIff`.
- `pb_decode_tag` takes a tag cut short by the end of the stream for the end of the message:
  `PbUnknown.CutTagIsAccepted` is a message that loses a value that way, and `PbUnknown.CutMessage` says
  exactly which cuts are accepted.
- The wire type of a declared field is not compared with its declaration: `PbExact.WrongWireTypeIsDecoded` is a
  message that is decoded all the same, and `PbExact.WireTypeIsIgnored` says when it matters.
- A signed integer member of fewer than eight bytes drops the varint's bits above the low 32 without an error:
  `PbExact.SignedIsAcceptedIff`.
- A static string without a NUL inside its buffer is encoded but refused by the decoder:
  `PbRoundTrip.StringReadsBackIff`.
- nanopb's encoder writes lengths of up to 64 bits, its decoder reads 32: `PbRoundTrip.ValueReadsBackIff`.
- A write batch cuts lengths to 32 bits, so that it is not replayed as it was built:
  `Batches.BatchReplaysIff`.
- A log record with type byte 5 or 6 and a valid checksum is taken for the reader's own results kEof and
  kBadRecord (`log_reader.h` lines 77-84). `LogForeign.RecordBehindType5IsLost` is a log whose second
  record is lost that way without a report, and `LogForeign.ForeignIsReportedIff` the exact condition. No
  writer emits these types.
- The final check of required fields shifts by 32 for 32 required fields and reads a third word for 64 or
  more (`pb_decode.c` line 947), which C leaves undefined: `PbFields.Checkable` shuts these types out.

## Model

| member | source | states |
|---|---|---|
| LogIO.Writer.AddRecord | PWR/Pods/leveldb-library/db/log_writer.cc:27-73 | The do-while loop appends exactly `Framed`: fragments that never cross a 32 KiB block, zero trailer where fewer than 7 bytes are left, an empty first fragment where exactly 7 are left; an empty record still gets one fragment. It returns OK iff the file takes all of it, and otherwise leaves exactly the part that fits. |
| LogIO.Writer.AddFragment | PWR/Pods/leveldb-library/db/log_writer.cc:34-71 | One turn of that loop: trailer, whose own result is ignored, fragment type from begin/end, what is left of the record, and what a full file has taken. |
| LogIO.Writer.EmitPhysicalRecord | PWR/Pods/leveldb-library/db/log_writer.cc:75-100 | Checksum of type and payload, 16-bit little-endian length, type, payload; the block offset moves by header and payload. |
| LogIO.Reader.ReadPhysicalRecord | PWR/Pods/leveldb-library/db/log_reader.cc:181-263 | The refill loop returns the event that `NextEvent` assigns to the rest of the file; a short last read makes a partial header end of file, not corruption. |
| LogIO.Reader.ParseHeader | PWR/Pods/leveldb-library/db/log_reader.cc:208-261 | Bad length, zero record, checksum mismatch (each drops the rest of the block) or an intact fragment; reported exactly where the source reports. |
| LogIO.Reader.ReadRecord | PWR/Pods/leveldb-library/db/log_reader.cc:59-164 | The reassembly loop returns the next record of the whole recovery and leaves the rest of it, reports included, still to come. |
| LogIO.Reader.Handle | PWR/Pods/leveldb-library/db/log_reader.cc:86-160 | The switch over fragment types, with its in-fragment state, scratch contents and reports. |
| LogIO.ReadAll | PWR/Pods/leveldb-library/db/log_reader.cc:59-164 | Calling `ReadRecord` until it fails returns the records and reports of `Recover`. |
| LogIO.WriteThenRead | PWR/Pods/leveldb-library/db/log_writer.cc:27-100 | Writer object and reader object together, with a file that may run full anywhere: exactly the records that the writer acknowledged come back, with nothing reported. |
| LogProofs.PhysicalIsRead | PWR/Pods/leveldb-library/db/log_reader.cc:183-261 | An intact physical record of any type and payload is returned as written, wherever in a block it lies and whatever follows. |
| LogProofs.FragmentIsRead | PWR/Pods/leveldb-library/db/log_reader.cc:183-261 | So is every fragment that the writer makes. |
| LogProofs.RecordIsRead | PWR/Pods/leveldb-library/db/log_reader.cc:77-160 | A completely written record is returned whole and reading resumes right behind it. |
| LogProofs.TornRecordIsIgnored | PWR/Pods/leveldb-library/db/log_reader.cc:77-160 | A record cut anywhere before its last byte yields nothing and no report. |
| LogProofs.CompleteIsExact | PWR/Pods/leveldb-library/db/log_writer.cc:27-100 | The number of records complete within n bytes: those fit, one more does not. |
| LogProofs.TornTail | PWR/Pods/leveldb-library/db/log_reader.cc:59-164 | For every byte prefix of every log: exactly the complete records, and no report. |
| LogProofs.RoundTrip | PWR/Pods/leveldb-library/db/log_reader.cc:59-164 | For every sequence of records: exactly that sequence, then end of file, no report. |
| LogDamage.DamagedRecord | PWR/Pods/leveldb-library/db/log_reader.cc:77-160 | One record under detected damage: returned whole if all its fragments are seen, otherwise not at all; the reader is back in step with the writer behind it. |
| LogDamage.DetectedDamage | PWR/Pods/leveldb-library/db/log_reader.cc:183-261 | When every fragment that the reader looks at is intact or refused by the length, zero-type or checksum test, exactly the records survive all of whose fragments are intact and have only intact fragments before them in their block; what stands behind a refused fragment in its block may be anything. |
| LogDamage.NeverStitched | PWR/Pods/leveldb-library/db/log_reader.cc:77-160 | Under the same damage the returned records are a subsequence of the written ones: fragments of different records are never joined. |
| LogForeign.ForeignIsPassed | PWR/Pods/leveldb-library/db/log_reader.cc:86-160 | An intact record whose type no writer uses, at any place and with any reassembly state: type 5 ends the log without a report, type 6 is passed over without a report about itself, any other type is reported; all of them drop the record being reassembled. |
| LogForeign.ForeignInLog | PWR/Pods/leveldb-library/db/log_reader.cc:86-160 | The same behind any sequence of written records, which all come back. |
| LogForeign.ForeignIsReportedIff | PWR/Pods/leveldb-library/db/log_reader.h:77-84 | Exactly when such a record is reported and nothing but it is lost: iff its type is neither of the two numbers that the reader uses for its own results. |
| LogForeign.RecordBehindType5IsLost | PWR/Pods/leveldb-library/db/log_reader.h:77-84 | A log with an empty record of type 5 between two written ones, whose second record is lost without a report. |
| LogReports.HeaderBytes | PWR/Pods/leveldb-library/db/log_format.h:14-30 | The seven header bytes of every fragment as numbers: checksum, length, and type 1, 2, 3 or 4 by whether it begins and ends its record. |
| LogReports.FragmentFits | PWR/Pods/leveldb-library/db/log_writer.cc:34-58 | How much of a record goes behind any offset of a 32768-byte block, and the zeros where fewer than seven bytes are left. |
| LogReports.ThreeBlocks | PWR/Pods/leveldb-library/db/log_writer.cc:50-71 | A record of 70000 bytes: its types 2, 3 and 4 and its three parts, at their places in the file. |
| LogReports.RecordInterrupts | PWR/Pods/leveldb-library/db/log_reader.cc:77-110 | A record that begins while another is being put together is read as if alone; the unfinished one is reported with its bytes, unless it was empty. |
| LogReports.BrokenRecord | PWR/Pods/leveldb-library/db/log_reader.cc:77-110 | A log with a record that breaks off between any two of its fragments: all whole records before and behind it are returned, and the broken one is reported once. |
| LogReports.OrphanIsReported | PWR/Pods/leveldb-library/db/log_reader.cc:112-132 | A fragment of type 3 or 4 without a beginning is dropped and its bytes reported. |
| LogReports.RefusedIsReported | PWR/Pods/leveldb-library/db/log_reader.cc:208-248 | Which headers are refused, and that each costs and reports the rest of its block, and the record being put together. |
| Versions.LookupIsNewest | PWR/Pods/leveldb-library/db/db_impl.cc:1102-1111 | A lookup finds the newest entry of the key at or below the sequence number, and nothing only when there is none. |
| Versions.LayeredIsUnion | PWR/Pods/leveldb-library/db/db_impl.cc:1102-1111 | Stopping at the first layer that knows the key is reading the newest entry of all layers, because layers are newest first per key. |
| Versions.PastIsFixed | PWR/Pods/leveldb-library/db/db_impl.cc:1083-1087 | Later operations never change the value at an earlier sequence number. |
| Compaction.DoCompactionWork | PWR/Pods/leveldb-library/db/db_impl.cc:880-976 | The loop with its current key and last sequence keeps exactly the entries that the local drop rule, stated on neighbouring input entries, does not drop; with a snapshot at the largest sequence number it keeps only bad keys. |
| Compaction.DroppedMeansObsolete | PWR/Pods/leveldb-library/db/db_impl.cc:923-937 | On sorted, parseable input looking at the previous entry is enough: an entry is dropped iff a newer entry of its key is visible at the smallest snapshot, or it is an obsolete marker. |
| Compaction.KeptIsRetained | PWR/Pods/leveldb-library/db/db_impl.cc:951-973 | The output lists exactly the entries that are not obsolete. |
| Compaction.CompactionPreservesMeaning | PWR/Pods/leveldb-library/db/db_impl.cc:923-937 | Replacing the inputs by the retained entries changes no read at or above the smallest snapshot, even where the deletion marker itself is dropped; needs only that other entries of a base-level key are newer. |
| Compaction.LoopPreservesMeaning | PWR/Pods/leveldb-library/db/db_impl.cc:868-976 | The same for the loop's own output on sorted, parseable input. |
| Compaction.LoopPreservesMeaningIff | PWR/Pods/leveldb-library/db/db_impl.cc:906-940 | With keys that do not parse: reads at and above the smallest snapshot are unchanged if and only if no bad key stands right before an older value of a key whose newest visible entry is a marker that the loop drops. |
| Compaction.CorruptKeyBringsBackDeletedKey | PWR/Pods/leveldb-library/db/db_impl.cc:908-912 | A three-entry input in which a bad key of the same user key resets the drop state and a deleted key comes back. |
| Tables.FlushKeepsTables | PWR/Pods/leveldb-library/db/db_impl.cc:503-534 | Adding the flushed memtable anywhere above the files that share a key with it keeps files newest first and reads faithful to the longer history. |
| Tables.CompactionKeepsTables | PWR/Pods/leveldb-library/db/version_set.h:173-179 | Replacing the input files by the output at a place in order keeps files newest first and reads faithful at every sequence number from the floor up. |
| StoreSteps.InsertNextKeepsInv | PWR/Pods/leveldb-library/db/db_impl.cc:1200-1202 | Inserting one entry of the group in flight, unlocked, changes no answer of any read in progress. |
| StoreSteps.FinishWriteKeepsInv | PWR/Pods/leveldb-library/db/db_impl.cc:1203-1214 | Publishing the new last sequence number makes the logged and applied group history, in memory and in the newest log. |
| StoreSteps.TakeSnapshotKeepsInv | PWR/Pods/leveldb-library/db/db_impl.cc:1143-1146 | Snapshots stay in ascending order, so the front one bounds them all. |
| StoreSteps.ReleaseSnapshotKeepsInv | PWR/Pods/leveldb-library/db/db_impl.cc:1148-1151 | Releasing any snapshot only raises the floor that running compactions rely on. |
| StoreSteps.SwitchMemtableKeepsInv | PWR/Pods/leveldb-library/db/db_impl.cc:1322-1343 | Switching memtable and log keeps both logs covering what is in no table, and readers keep the memtable they hold. |
| StoreSteps.PersistFlushKeepsInv | PWR/Pods/leveldb-library/db/db_impl.cc:503-523 | The descriptor may forget the older log once it names the table with that log's operations. |
| StoreSteps.BaseLevelIsSound | PWR/Pods/leveldb-library/db/version_set.h:350-353 | Looking only at deeper files of the version the compaction started from is sound, although memtables are flushed meanwhile: what joined since is newer. |
| StoreSteps.PersistCompactionKeepsInv | PWR/Pods/leveldb-library/db/db_impl.cc:868-976 | A compaction that ran unlocked with the smallest snapshot fixed at its start keeps every read at or above the present floor. |
| StoreSteps.PersistMoveKeepsInv | PWR/Pods/leveldb-library/db/db_impl.cc:686-696 | A trivial move changes only the order of files. |
| StoreSteps.InstallKeepsInv | PWR/Pods/leveldb-library/db/version_set.h:173-179 | Installing the persisted edit, with the mutex released in between, keeps everything. |
| StoreSteps.DeleteObsoleteKeepsInv | PWR/Pods/leveldb-library/db/db_impl.cc:218-272 | No table needed by a version, a read, a compaction or the descriptor is deleted, and no log that recovery would replay. |
| StoreSteps.BeginReadKeepsInv | PWR/Pods/leveldb-library/db/db_impl.cc:1077-1094 | A read pins memtables and version; its answer is the history's from then on. |
| StoreProofs.GetIsAt | PWR/Pods/leveldb-library/db/db_impl.cc:1077-1122 | Memtable, then immutable memtable, then tables gives the value of the versioned map, for every sequence number from the floor to the last one. |
| StoreProofs.RunOfCovers | PWR/Pods/leveldb-library/db/db_impl.cc:409-444 | A memtable rebuilt from log records is exactly the slice of the history they cover. |
| StoreCrash.ReplayCovers | PWR/Pods/leveldb-library/db/db_impl.cc:304-357 | Replaying the logs from the descriptor's log number on yields exactly the operations in no table: all acknowledged ones and all or none of the group in flight. |
| StoreCrash.CrashKeepsInv | PWR/Pods/leveldb-library/db/db_impl.cc:409-450 | What a crash leaves on disk determines the acknowledged operations, and all or none of the group in flight. |
| StoreCrash.RebuiltTables | PWR/Pods/leveldb-library/db/db_impl.cc:341-350 | Tables written log by log, wherever the memtable was full, hold exactly what the logs hold. |
| StoreCrash.NumbersAreFree | PWR/Pods/leveldb-library/db/db_impl.cc:343-349 | File numbers after a crash come from the descriptor's next number and the replayed logs alone, and are free: no table of the descriptor and no log is overwritten. |
| StoreCrash.StopKeepsInv | PWR/Pods/leveldb-library/db/db_impl.cc:1452-1464 | A recovery that breaks off before the descriptor is written, with tables and an empty log left behind, changes nothing that the next one reads. |
| StoreCrash.RecoverKeepsInv | PWR/Pods/leveldb-library/db/db_impl.cc:1452-1464 | A recovery that finishes restores the whole invariant, with the right last sequence number. |
| StoreRuns.StepKeepsInv | PWR/Pods/leveldb-library/db/db_impl.cc:1077-1151 | Each of the eighteen kinds of event keeps the invariant, the one of a running store or the one of its disk. |
| StoreRuns.RunKeepsInv | PWR/Pods/leveldb-library/db/db_impl.cc:1077-1151 | So does every run, with writes, reads, switches, flushes, compactions, deletions and crashes interleaved in any way. |
| StoreRuns.ReadsAreRight | PWR/Pods/leveldb-library/db/db_impl.cc:1077-1122 | In every reachable state a read at a held snapshot or at the last sequence number returns what the history says. |
| StoreRuns.UnlockedReadsAreRight | PWR/Pods/leveldb-library/db/db_impl.cc:1099-1113 | A read that runs without the mutex returns the value at the sequence number it started with, whatever happened meanwhile. |
| StoreRuns.AcknowledgedIsDurable | PWR/Pods/leveldb-library/db/db_impl.cc:1211-1213 | After any continuation of any run, crashes and broken-off recoveries included, a read finds the operations acknowledged before, followed by later ones only; a key not written since reads as before. |
| StoreRuns.SnapshotsAreStable | PWR/Pods/leveldb-library/db/db_impl.cc:1143-1151 | Between any two points of a run at which a snapshot is held, `Get` at it returns the same answer for every key. |
| StoreRuns.CrashLosesNothing | PWR/Pods/leveldb-library/db/db_impl.cc:409-450 | A crash in any reachable state, any number of recoveries that break off, then one that finishes: it finds every table it expects and yields exactly the acknowledged operations plus all or none of the group in flight. |
| StoreRuns.RecoveryOverwritesNothing | PWR/Pods/leveldb-library/db/db_impl.cc:343-349 | In every state that any run leaves on disk, the numbers that recovery takes are above the tables and logs it needs. |
| StoreRuns.LogStaysWhileImmWaits | PWR/Pods/leveldb-library/db/db_impl.cc:1313-1317 | No event switches the log or replaces the immutable memtable while one is waiting. |
| StoreTrace.StepMatches | PWR/Pods/leveldb-library/db/db_impl.cc:1077-1151 | Every event keeps the store matched to a specification that sees the calls only: acknowledged operations, the lengths of the history at snapshots, and the reads in progress. |
| StoreTrace.ReadsFollowTheTrace | PWR/Pods/leveldb-library/db/db_impl.cc:1077-1122 | In every reachable state every open read returns what the acknowledged history held for its key when it began, or when its snapshot was taken. |
| StoreTrace.PresentFollowsTheTrace | PWR/Pods/leveldb-library/db/db_impl.cc:1083-1087 | A read at the last sequence number returns what the whole acknowledged history holds. |
| StoreTrace.ReadSeesThePresent | PWR/Pods/leveldb-library/db/db_impl.cc:1083-1087 | A read without a snapshot, at any point of any run: whatever happens while it runs, it returns the value of its key in the history acknowledged when it began. |
| StoreTrace.ReadSeesTheSnapshot | PWR/Pods/leveldb-library/db/db_impl.cc:1143-1146 | A read at a snapshot returns the value in the history acknowledged when the snapshot was taken, whatever happens between and while it runs. |
| StoreTrace.CompactionKnowsTheFloor | PWR/Pods/leveldb-library/db/db_impl.cc:868-872 | A compaction works with the oldest snapshot held when it began, or else the last acknowledged operation. |
| StoreTrace.CompactionReclaims | PWR/Pods/leveldb-library/db/db_impl.cc:923-937 | What it writes holds no entry hidden by a newer one at or below that point, and no deletion marker of a base-level key there. |
| StoreProgress.WriteGoesThrough | PWR/Pods/leveldb-library/db/db_impl.cc:1178-1214 | Whenever no write is in hand one can be made: steps lead to a state whose history ends with its operations, and every read then sees them. |
| StoreProgress.FlushEmptiesTheMemtable | PWR/Pods/leveldb-library/db/db_impl.cc:503-534 | Switching and flushing leave an empty memtable, the whole history in the tables, a newer log number in the version, and nothing for recovery to replay. |
| StoreProgress.CompactionReplacesInputs | PWR/Pods/leveldb-library/db/db_impl.cc:868-976 | A compaction leaves none of its inputs in the version and one new table in their place; no read at the present changes. |
| StoreProgress.EverythingObsoleteCanGo | PWR/Pods/leveldb-library/db/db_impl.cc:218-262 | All logs below the log number and all tables not live may be deleted at once; exactly the others stay, unchanged. |
| Batches.WriteBatch.SetSequence | PWR/Pods/leveldb-library/db/write_batch.cc:94-96 | Rewrites the first eight bytes and nothing else. |
| Batches.WriteBatch.Put | PWR/Pods/leveldb-library/db/write_batch.cc:98-103 | The contents are those of the longer list of operations; the 32-bit count wraps, and lengths are cut to 32 bits. |
| Batches.WriteBatch.Delete | PWR/Pods/leveldb-library/db/write_batch.cc:105-109 | Likewise for a deletion. |
| Batches.WriteBatch.Append | PWR/Pods/leveldb-library/db/write_batch.cc:141-145 | The contents are those of both lists joined, a batch appended to itself included. |
| Batches.WriteBatch.Iterate | PWR/Pods/leveldb-library/db/write_batch.cc:42-80 | The loop tells the handler exactly the records that parse, and is OK iff all parse and their number is the count; a short batch is corrupt. |
| Batches.BatchReplays | PWR/Pods/leveldb-library/db/write_batch.cc:42-80 | Replaying a batch built from any operations whose lengths fit 32 bits gives back these operations in order, and the count when it fits 32 bits. |
| Batches.BatchReplaysIff | PWR/Pods/leveldb-library/db/write_batch.cc:42-80 | A batch replays as it was built and is accepted iff all lengths and the number of operations fit 32 bits. |
| MemTables.ParseUndoesPack | PWR/Pods/leveldb-library/db/dbformat.h:176-186 | Parsing undoes packing for every key, sequence number and type; other type bytes are refused. |
| MemTables.CompareIsVersionOrder | PWR/Pods/leveldb-library/db/dbformat.cc:50-66 | Comparing internal keys is: user keys up, then sequence numbers and types down; equal only when all three are. |
| MemTables.EntryParts | PWR/Pods/leveldb-library/db/memtable.cc:82-106 | The stored entry gives back its internal key and its value. |
| MemTables.LookupOrder | PWR/Pods/leveldb-library/db/dbformat.cc:121-138 | The lookup key stands behind exactly the smaller keys and the newer entries of its key: the seek type is the largest. |
| MemTables.InsertKeepsOrder | PWR/Pods/leveldb-library/db/memtable.cc:82-106 | Inserting where the search stops keeps the table sorted and adds exactly the one entry. |
| MemTables.SeekFindsNewest | PWR/Pods/leveldb-library/db/memtable.cc:108-143 | The place the seek stops at decides found, deleted or absent as the versioned map does. |
| MemTables.MemTable.FindGreaterOrEqual | PWR/Pods/leveldb-library/db/memtable.cc:109-112 | Everything before the result is smaller than the target, the result is not. |
| MemTables.MemTable.Add | PWR/Pods/leveldb-library/db/memtable.cc:82-106 | The memtable holds the earlier operations and the new one, at the level of entry bytes. |
| MemTables.MemTable.Get | PWR/Pods/leveldb-library/db/memtable.cc:108-143 | Returns the effect of the last operation on the key numbered at most s, for every comparator. |
| Recovery.InsertInto | PWR/Pods/leveldb-library/db/write_batch.cc:128-134 | Operations go in with consecutive sequence numbers from the batch's own; those before a corruption have gone in as well. |
| Recovery.InsertedRun | PWR/Pods/leveldb-library/db/write_batch.cc:111-134 | A memtable filled from a batch holds exactly the entries of the store's group. |
| Recovery.DecodedReps | PWR/Pods/leveldb-library/db/db_impl.cc:409-432 | Encoded groups read back from log records are the same groups. |
| Recovery.ShortRecordIsPassedOver | PWR/Pods/leveldb-library/db/db_impl.cc:411-415 | A log record of fewer than twelve bytes holds no group and takes none with it. |
| KnownBytes.KnownBatch | PWR/Pods/leveldb-library/db/write_batch.cc:5-14 | The bytes of a batch with a put and a deletion. |
| KnownBytes.KnownInternalKey | PWR/Pods/leveldb-library/db/dbformat.cc:12-21 | The bytes of an internal key. |
| KnownBytes.KnownEntries | PWR/Pods/leveldb-library/db/memtable.cc:82-106 | The bytes of memtable entries and of a lookup key. |
| Recovery.CutLogRecovers | PWR/Pods/leveldb-library/db/db_impl.cc:395-444 | The bytes of a log of write groups, cut anywhere, recover without report to the groups whose records are complete. |
| Recovery.CrashedLogIsDiskLog | PWR/Pods/leveldb-library/db/db_impl.cc:409-450 | The crash event of the store is what a cut of the newest log's bytes behind the acknowledged records amounts to; the group in flight survives iff its record is complete. |
| DbIter.MapIsFunctional | PWR/Pods/leveldb-library/db/db_iter.cc:173-203 | At most one value is visible per key. |
| DbIter.Iterator.FindNextUserEntry | PWR/Pods/leveldb-library/db/db_iter.cc:173-203 | Stops at the first entry from here on that its key shows, with the skip rule, corrupt keys and hidden keys passed over; the status becomes Corruption iff a key on the way does not parse. |
| DbIter.Iterator.FindPrevUserEntry | PWR/Pods/leveldb-library/db/db_iter.cc:232-272 | Stops at the last such entry up to here and leaves only inadmissible entries between the internal iterator and the current key; the status likewise. |
| DbIter.Iterator.BackBeforeKey | PWR/Pods/leveldb-library/db/db_iter.cc:208-227 | The direction switch ends on the last entry before all entries of the current key. |
| DbIter.Iterator.Next | PWR/Pods/leveldb-library/db/db_iter.cc:146-171 | Moves to the smallest visible key above the current one, from either direction, or becomes invalid when there is none. |
| DbIter.Iterator.Prev | PWR/Pods/leveldb-library/db/db_iter.cc:205-230 | Moves to the largest visible key below the current one, from either direction, or becomes invalid when there is none. |
| DbIter.Iterator.Seek | PWR/Pods/leveldb-library/db/db_iter.cc:274-286 | Moves to the smallest visible key at or above the target. |
| DbIter.Iterator.SeekToFirst | PWR/Pods/leveldb-library/db/db_iter.cc:288-297 | Moves to the smallest visible key. |
| DbIter.Iterator.SeekToLast | PWR/Pods/leveldb-library/db/db_iter.cc:299-304 | Moves to the largest visible key. |
| DbCursor.Drive | PWR/Pods/leveldb-library/db/db_iter.cc:146-304 | Under every sequence of moves, with reversals anywhere, what the iterator shows after each move is what a cursor over the sorted map of visible keys shows. |
| DbCursor.FollowsIsUnique | PWR/Pods/leveldb-library/db/db_iter.cc:146-304 | That cursor is deterministic, so the previous statement fixes every view. |
| DbCursor.ScanAll | PWR/Pods/leveldb-library/db/db_iter.cc:130-144 | A scan from first to last shows exactly the visible keys in order, and ends with status Corruption iff some key does not parse. |
| DbCursor.IterationAgreesWithReads | PWR/Pods/leveldb-library/db/db_iter.cc:183-197 | The map the iterator walks is the one that reads at the same sequence number see, both ways. |
| Snapshots.SnapshotList.constructor | PWR/Pods/leveldb-library/db/snapshot.h:32-35 | An empty ring. |
| Snapshots.SnapshotList.Empty | PWR/Pods/leveldb-library/db/snapshot.h:37-37 | True iff no snapshot is live. |
| Snapshots.SnapshotList.Oldest | PWR/Pods/leveldb-library/db/snapshot.h:38-38 | The front node, the minimum of all live snapshots when they were taken in order. |
| Snapshots.SnapshotList.Newest | PWR/Pods/leveldb-library/db/snapshot.h:39-39 | The back node, the maximum when they were taken in order. |
| Snapshots.SnapshotList.New | PWR/Pods/leveldb-library/db/snapshot.h:41-50 | Relinks the ring so that the new node stands last; order is kept. |
| Snapshots.SnapshotList.Delete | PWR/Pods/leveldb-library/db/snapshot.h:52-57 | Relinks the ring around the node, wherever it stands; the others keep their order. |
| GroupCommit.BuildBatchGroup | PWR/Pods/leveldb-library/db/db_impl.cc:1237-1282 | The loop returns the end of the group and the operations of its members joined in queue order; writers without a batch are passed along. |
| GroupCommit.GroupIsGood | PWR/Pods/leveldb-library/db/db_impl.cc:1243-1281 | A group is a prefix of the queue with no sync writer behind a non-sync leader, within the larger of the first batch and the limit, and as long as that allows. |
| GroupCommit.GroupLimit | PWR/Pods/leveldb-library/db/db_impl.cc:1245-1251 | The limit in bytes: 128 KiB on top of a first batch of up to 128 KiB, else 1 MiB or the first batch alone; a group ends only at a sync writer behind a non-sync one or at a batch that no longer fits. |
| GroupCommitProofs.PopGroupEffect | PWR/Pods/leveldb-library/db/db_impl.cc:1216-1225 | The completion loop removes exactly the group and marks exactly its followers done with the group's status. |
| GroupCommitProofs.StepKeepsInv | PWR/Pods/leveldb-library/db/db_impl.cc:1162-1233 | Every step of every writer, failures of the log and of the sync included, keeps the invariant. |
| GroupCommitProofs.RunKeepsInv | PWR/Pods/leveldb-library/db/db_impl.cc:1162-1233 | So does every interleaving. |
| GroupCommitProofs.NobodyIsStranded | PWR/Pods/leveldb-library/db/db_impl.cc:1168-1176 | In every reachable state the front writer leads or has been signalled, nobody in the queue is done, and whoever left it has returned or is signalled with a status. |
| GroupCommitProofs.LeaderCanProceed | PWR/Pods/leveldb-library/db/db_impl.cc:1178-1233 | From every state of the invariant a leader can run to the end of `Write` on its own; without an earlier error, and with appends and syncs that succeed, it returns OK. |
| GroupCommitProofs.NoDeadEnd | PWR/Pods/leveldb-library/db/db_impl.cc:1162-1233 | From every reachable state there is a run after which every call of `Write` so far has returned. |
| GroupCommitProofs.AcknowledgedIsCommitted | PWR/Pods/leveldb-library/db/db_impl.cc:1190-1214 | A writer told OK has its batch in the log and in the memtable, as its own stretch of one group's record; a sync writer's group was led by a sync writer and synced. |
| GroupCommitProofs.MembersGetTheGroupsStatus | PWR/Pods/leveldb-library/db/db_impl.cc:1216-1225 | Every member of a group is told the group's status; whatever it is, and with or without a batch, a sync member follows a sync leader, only sync leaders sync, and the group keeps its size limit. |
| GroupCommitProofs.GroupsAreDisjointAndInOrder | PWR/Pods/leveldb-library/db/db_impl.cc:1181-1214 | Any two groups hold disjoint stretches of writers and of sequence numbers, both in order of arrival. |
| GroupCommitProofs.EveryRecordIsOneGroup | PWR/Pods/leveldb-library/db/db_impl.cc:1183-1213 | Log and memtable hold exactly one record per group that got that far, each the batches of its own writers; the last sequence number is never strictly inside a group. |
| GroupPoison.NothingBehindADoubtfulGroup | PWR/Pods/leveldb-library/db/db_impl.cc:1204-1209 | In every run no leader behind a group that was logged but not synced makes a group or is told OK, and an earlier error is found exactly when there was such a group. |
| GroupPoison.DoubtfulGroupIsTheLast | PWR/Pods/leveldb-library/db/db_impl.cc:1204-1209 | From such a group on, log, memtable and last sequence number never change again. |
| GroupPoison.FailedSyncMakesDoubt | PWR/Pods/leveldb-library/db/db_impl.cc:1194-1198 | A failed sync in any reachable state makes its group such a one. |
| GroupPoison.LaterWritesAreRefused | PWR/Pods/leveldb-library/db/db_impl.cc:1291-1295 | No writer that arrives later is ever told OK. |
| SkipLists.StoreIntoPredecessor | PWR/Pods/leveldb-library/db/skiplist.h:363-370 | Storing a node whose link is set into its predecessor inserts it into that level, still sorted. |
| SkipLists.PublishKeepsList | PWR/Pods/leveldb-library/db/skiplist.h:363-370 | That one store keeps all levels sorted and nested. |
| SkipLists.LoadIsExact | PWR/Pods/leveldb-library/db/skiplist.h:262-281 | One load tells a search its next node, or that the level splits here. |
| SkipLists.SkipList.Find | PWR/Pods/leveldb-library/db/skiplist.h:262-323 | The loop of all three searches ends at the split of the bottom level and records the split of every level in `prev`. |
| SkipLists.SkipList.Contains | PWR/Pods/leveldb-library/db/skiplist.h:373-380 | True iff a node of the list has the key. |
| SkipLists.SkipList.Insert | PWR/Pods/leveldb-library/db/skiplist.h:337-370 | Inserts the node at one place of the bottom level and keeps every level sorted, nested and linked; no other key changes. |
| SkipListRuns.StoreKeepsInv | PWR/Pods/leveldb-library/db/skiplist.h:349-370 | Each single store of an insertion (height, allocation, link, publication) keeps the list and every search in progress right. |
| SkipListRuns.ReturnIsExact | PWR/Pods/leveldb-library/db/skiplist.h:262-281 | At the moment a search returns, its answer is exact for the list as it then is. |
| SkipListRuns.LevelsStaySortedAndNested | PWR/Pods/leveldb-library/db/skiplist.h:337-370 | After every step of every interleaving each level is sorted and a sublist of the one below. |
| SkipListRuns.SearchesSkipNothing | PWR/Pods/leveldb-library/db/skiplist.h:262-323 | No search, however interleaved with insertions, passes a node that was there when it began. |
| SkipListRuns.SearchesNeverGetStuck | PWR/Pods/leveldb-library/db/skiplist.h:262-281 | A search always finds the link it is about to load. |
| SkipListProgress.SearchSeesWhatWasThere | PWR/Pods/leveldb-library/db/skiplist.h:262-323 | A search begun at any point of a run and finished at any later one answers for every node that was in the list at its beginning; these keep their keys. |
| SkipListProgress.SearchFinishes | PWR/Pods/leveldb-library/db/skiplist.h:262-281 | A search comes to its end by its own loads alone, from wherever it stands. |
| SkipListProgress.InsertTakesEffect | PWR/Pods/leveldb-library/db/skiplist.h:346-370 | An insertion comes to its end by its own stores: the levels up to its height gain exactly its node, and no other level or key changes. |
| PbIntegers.EncodeVarint | PWR/Pods/nanopb/pb_encode.c:494-514 | The loop emits the base-128 varint, in at most ten bytes. |
| PbIntegers.VarintInverts | PWR/Pods/nanopb/pb_decode.c:209-229 | Decoding undoes encoding for every 64-bit value, whatever follows, and the 32-bit decoder for every 32-bit value. |
| PbIntegers.Varint32Agrees | PWR/Pods/nanopb/pb_decode.c:173-207 | The 32-bit decoder is the 64-bit one modulo 2^32 on every terminated varint of at most five bytes, overlong ones included. |
| PbIntegers.ZigZagInverts | PWR/Pods/nanopb/pb_encode.c:516-525 | Zigzag is undone for every 64-bit signed value, and is 2v or -2v-1. |
| PbIntegers.ZigZagIsOnto | PWR/Pods/nanopb/pb_decode.c:1118-1130 | Every 64-bit value is the zigzag of what it decodes to. |
| PbIntegers.SignedInverts | PWR/Pods/nanopb/pb_encode.c:652-668 | A negative value sign-extended to 64 bits reads back as itself. |
| PbIntegers.FixedInverts | PWR/Pods/nanopb/pb_decode.c:1132-1163 | Fixed-width integers read back, whatever follows. |
| PbIntegers.TagInverts | PWR/Pods/nanopb/pb_decode.c:251-275 | Every wire type and every field number up to 2^29-1 reads back, but for the zero tag. |
| PbIntegers.CutTag | PWR/Pods/nanopb/pb_decode.c:251-275 | A stream that ends inside a tag is taken for the end of the message, wherever in the tag it ends. |
| PbFields.FieldIter.Begin | PWR/Pods/nanopb/pb_common.c:8-18 | Starts at the first field; false for a type without fields. |
| PbFields.FieldIter.Next | PWR/Pods/nanopb/pb_common.c:20-76 | Goes on cyclically; data position, size position and required index stay functions of the position alone, unions included. |
| PbFields.FieldIter.Find | PWR/Pods/nanopb/pb_common.c:78-95 | From any start, visits each field at most once, succeeds iff a non-extension field has the tag and stops there, else returns to the start; a type without fields "finds" tag 0. |
| PbFields.FieldIter.CountRequired | PWR/Pods/nanopb/pb_decode.c:921-935 | Walking on from wherever the iterator stopped counts all required fields. |
| PbLayout.PointersAreMembers | PWR/Pods/nanopb/pb.h:393-397 | For the descriptors that the macros make for a structure, the iterator's data and size pointers are the addresses of the members, arrays, pointers and unions included. |
| PbLayout.NextMember | PWR/Pods/nanopb/pb_common.c:20-76 | The iterator object stands on the members' own addresses after every step. |
| PbLayout.ItemsDoNotOverlap | PWR/Pods/nanopb/pb_common.c:45-72 | No item of a field reaches into a later field, unless they are joined through a union. |
| PbLayout.Neighbours | PWR/Pods/nanopb/pb_common.c:45-75 | The gap to the next field is its descriptor's offset, members of a union share their address, and the size member lies at its own offset. |
| PbLayout.BehindAnArray | PWR/Pods/nanopb/pb_common.c:52-57 | A member behind an array of three items of four bytes. |
| PbFields.MarkSeen | PWR/Pods/nanopb/pb_decode.c:908-913 | The bit mask holds exactly the indices seen, the new one included. |
| PbFields.CheckRequired | PWR/Pods/nanopb/pb_decode.c:937-949 | For 0 to 63 required fields but 32 the mask check passes iff every index was seen. |
| PbFields.TrackingIsExact | PWR/Pods/nanopb/pb_decode.c:908-949 | All indices were seen iff all required fields occurred, in any order and with repeats. |
| PbRoundTrip.ValueRoundTrip | PWR/Pods/nanopb/pb_decode.c:1165-1356 | Every well-formed value of every field type, nested messages included, reads back, whatever follows. |
| PbRoundTrip.StringReadsBackIff | PWR/Pods/nanopb/pb_decode.c:1308-1326 | A static string that its buffer can hold reads back iff its NUL lies inside the buffer; one that fills the buffer is encoded and then refused. |
| PbRoundTrip.ValueReadsBackIff | PWR/Pods/nanopb/pb_decode.c:322-335 | A well-formed value whose inner lengths fit 32 bits reads back iff its own length does: a longer one is cut or refused. |
| PbRoundTrip.ItemsRoundTrip | PWR/Pods/nanopb/pb_decode.c:374-402 | A packed array reads back behind the items so far. |
| PbRoundTrip.EachIsRead | PWR/Pods/nanopb/pb_decode.c:403-413 | The tagged items of an unpacked array are appended one by one. |
| PbRoundTrip.FieldRoundTrip | PWR/Pods/nanopb/pb_encode.c:271-349 | What one field contributes takes the decoder from the message so far to the message with that field. |
| PbRoundTrip.FieldsRoundTrip | PWR/Pods/nanopb/pb_encode.c:451-473 | The same from every field on to the end. |
| PbRoundTrip.MessageRoundTrip | PWR/Pods/nanopb/pb_decode.c:852-967 | Every well-formed message encodes, and when the lengths written inside it fit 32 bits, decoding gives back the message and leaves nothing unread, whatever its own size. |
| PbMerge.ValueMerges | PWR/Pods/nanopb/pb_decode.c:1334-1356 | A value decoded into a member that holds one: replaced, or for a nested message merged. |
| PbMerge.EachMerges | PWR/Pods/nanopb/pb_decode.c:403-413 | Tagged items are appended to an array, packable types included, and it fails iff there is no room. |
| PbMerge.MessageMerges | PWR/Pods/nanopb/pb_decode.c:852-953 | The bytes of any well-formed message decoded into any message give the merger of the two, if the arrays have room, and fail otherwise; reading goes on behind them. |
| PbMerge.ConcatenationMerges | PWR/Pods/nanopb/pb_decode.c:852-967 | The bytes of two messages, one behind the other, decode to their merger. |
| PbMerge.MergedMember | PWR/Pods/nanopb/pb_decode.c:364-426 | What each merged member holds. |
| PbMerge.LastOccurrenceWins | PWR/Pods/nanopb/pb_decode.c:366-372 | Of two occurrences of a required or optional field the first leaves no trace. |
| PbMerge.LastMemberWins | PWR/Pods/nanopb/pb_decode.c:415-424 | Of two members of a oneof, or two occurrences of one, the first leaves no trace. |
| PbMerge.NestedMessagesMerge | PWR/Pods/nanopb/pb_decode.c:1344-1349 | Two occurrences of a nested message are merged. |
| PbMerge.SecondValueWins | PWR/Pods/nanopb/pb_decode.c:366-372 | Four bytes that give 7, not 5. |
| PbMerge.MessageThenZero | PWR/Pods/nanopb/pb_decode.c:265-269 | A zero byte ends a message, and what is behind it stays unread. |
| PbExact.UnsignedIsAcceptedIff | PWR/Pods/nanopb/pb_decode.c:1202-1224 | An unsigned field is accepted iff the varint is a value of its member. |
| PbExact.SignedIsAcceptedIff | PWR/Pods/nanopb/pb_decode.c:1165-1200 | A signed field of eight bytes takes every varint; a smaller one looks at the low 32 bits and is accepted iff they are a value of its member. |
| PbExact.ZigZagIsAcceptedIff | PWR/Pods/nanopb/pb_decode.c:1226-1248 | A zigzag field is accepted iff the value is one of its member. |
| PbExact.BytesAreAcceptedIff | PWR/Pods/nanopb/pb_decode.c:1262-1297 | Bytes are accepted iff they fit behind their count. |
| PbExact.FixedBytesAreAcceptedIff | PWR/Pods/nanopb/pb_decode.c:1358-1379 | Fixed-length bytes are accepted iff they have their length, or none, which means zeros. |
| PbExact.StringIsAcceptedIff | PWR/Pods/nanopb/pb_decode.c:1299-1332 | A string is accepted iff it leaves room for its NUL, and ends at its first NUL. |
| PbExact.WireTypeIsIgnored | PWR/Pods/nanopb/pb_decode.c:356-429 | The wire type of a declared field makes no difference, except to tell a packed array. |
| PbExact.WrongWireTypeIsDecoded | PWR/Pods/nanopb/pb_decode.c:356-372 | Two bytes with the wrong wire type that are decoded all the same. |
| PbExact.OverlongTag | PWR/Pods/nanopb/pb_decode.c:251-275 | Five continued bytes are no tag: the message fails, or ends if they are its last. |
| PbExact.ArrayIsEncodedIff | PWR/Pods/nanopb/pb_encode.c:122-126 | An array is encoded iff it is no longer than its member. |
| PbExact.BlobIsEncodedIff | PWR/Pods/nanopb/pb_encode.c:718-763 | Bytes are encoded iff they fit their member; of a string without NUL as many as the member has. |
| PbExact.SpecificationExamples | PWR/Pods/nanopb/pb_encode.c:451-473 | The examples of the Protocol Buffers Encoding specification, byte for byte. |
| PbExact.FixedExamples | PWR/Pods/nanopb/pb_encode.c:516-551 | Fixed-width and zigzag integers, byte for byte. |
| PbUnknown.SkipExtends | PWR/Pods/nanopb/pb_decode.c:231-287 | Skipping consumes exactly the field's own bytes, whatever follows. |
| PbExact.SkipTakes | PWR/Pods/nanopb/pb_decode.c:277-287 | How many bytes a skip takes by wire type; 3, 4, 6 and 7 fail. |
| PbExact.SkipTakesVarint | PWR/Pods/nanopb/pb_decode.c:231-240 | A varint is skipped up to its first byte below 128. |
| PbExact.ValueIsSkipped | PWR/Pods/nanopb/pb_decode.c:277-287 | What the encoder writes for any value of any field is exactly what a skip takes. |
| PbExact.PackedIsSkipped | PWR/Pods/nanopb/pb_decode.c:242-249 | So is a packed array. |
| PbEvolution.OlderProgramsRead | PWR/Pods/nanopb/pb_decode.c:877-906 | A message written with one more field, anywhere in the type and with any contents, is read by a program that does not know the field as the rest of the message. |
| PbEvolution.NewerProgramsRead | PWR/Pods/nanopb/pb_decode.c:852-967 | A program that knows one more field, which is not required, reads an older message as one without it. |
| PbEvolution.UnknownFixed32IsSkipped | PWR/Pods/nanopb/pb_decode.c:277-287 | Seven bytes with an unknown fixed32 field in front. |
| PbUnknown.RunThenRest | PWR/Pods/nanopb/pb_decode.c:863-917 | Decoding a run of complete fields, then anything, is decoding the rest from where the run left. |
| PbUnknown.WrittenFieldIsUndeclared | PWR/Pods/nanopb/pb_decode.c:277-287 | Every field number the type does not declare, 0 included, with every wire type and every payload of it, is such a field. |
| PbUnknown.UnknownFieldsAreTransparent | PWR/Pods/nanopb/pb_decode.c:877-906 | A complete field with an undeclared number, inserted at any field boundary, changes neither the result nor its success, unless it is field number 0 of a type without fields: then the message fails. |
| PbUnknown.TransparentIff | PWR/Pods/nanopb/pb_decode.c:877-906 | An undeclared field leaves no trace, whatever follows, iff it is not field number 0 of a type without fields. |
| PbUnknown.CutField | PWR/Pods/nanopb/pb_decode.c:863-876 | A field cut inside its payload fails; one cut inside its tag ends the message. |
| PbUnknown.CutMessage | PWR/Pods/nanopb/pb_decode.c:863-876 | A message cut inside a field is accepted iff the cut falls before or inside that field's tag and all required fields lie before it; it then decodes to the fields before. |
| PbUnknown.CutTagIsAccepted | PWR/Pods/nanopb/pb_decode.c:257-263 | A three-byte message that decodes without its value when cut behind its first byte, and fails when cut behind its second. |
| PbSafety.ValueFits | PWR/Pods/nanopb/pb_decode.c:1165-1379 | A decoded value fits its member, whatever the bytes: integers in range, strings and bytes inside their buffers, nested messages well formed. |
| PbSafety.ItemsFit | PWR/Pods/nanopb/pb_decode.c:374-402 | A packed array never holds more items than it has room for. |
| PbSafety.SlotFits | PWR/Pods/nanopb/pb_decode.c:356-429 | One occurrence of a field leaves its member fit: an array within its room, a oneof with an active member of its own, a required member there. |
| PbSafety.DecodedIsWellFormed | PWR/Pods/nanopb/pb_decode.c:955-967 | Whatever the bytes, a message that decodes is well formed; `PbSafety.FieldsFit` says so from any point of the decoding. |
| PbSafety.DecodedIntoIsWellFormed | PWR/Pods/nanopb/pb_decode.c:852-953 | The same for decoding into a well-formed message without clearing it. |
| PbSafety.RoomIsRespected | PWR/Pods/nanopb/pb_decode.c:404-416 | No accepted input overfills an array or leaves a required member out. |
| PbSafety.EncodingIsANormalForm | PWR/Pods/nanopb/pb_encode.c:451-473 | However bytes were written, the message they decode to can be encoded, and with inner lengths of 32 bits that encoding decodes to it again. |
| PbEncoder.OStream.Write | PWR/Pods/nanopb/pb_encode.c:91-109 | Counts or writes exactly the bytes, and fails iff a writing stream has no room. |
| PbEncoder.EncodeOne | PWR/Pods/nanopb/pb_encode.c:652-777 | Each value encoder, in either mode, emits exactly the value's encoding and fails iff there is none or no room. |
| PbEncoder.EncodeSubmessage | PWR/Pods/nanopb/pb_encode.c:600-648 | The sizing pass and the writing pass agree: the length prefix is exact, and neither "stream full" nor "size changed" can occur in the second pass. |
| PbEncoder.EncodeArrayTo | PWR/Pods/nanopb/pb_encode.c:116-201 | The size of a packed array, computed for fixed-width items and counted otherwise, is the number of bytes that follow. |
| PbEncoder.EncodeFieldTo | PWR/Pods/nanopb/pb_encode.c:271-349 | Required always, optional if present, oneof if active, repeated as array. |
| PbEncoder.EncodeMessage | PWR/Pods/nanopb/pb_encode.c:451-473 | Emits exactly the encoding of the message, in both modes. |
| PbEncoder.GetEncodedSize | PWR/Pods/nanopb/pb_encode.c:480-489 | The size counted is the length of the encoding; it fails iff there is no encoding. |
| PbDecoder.IStream.Read | PWR/Pods/nanopb/pb_decode.c:91-125 | Hands out exactly the next bytes, or fails and consumes nothing. |
| PbDecoder.ReadVarint | PWR/Pods/nanopb/pb_decode.c:209-229 | The shifting loop succeeds iff a varint of at most ten bytes is next, and returns it modulo 2^64. |
| PbDecoder.ReadVarint32 | PWR/Pods/nanopb/pb_decode.c:173-207 | The same for five bytes modulo 2^32; a failure empties the stream iff at most five bytes were left. |
| PbDecoder.ReadTag | PWR/Pods/nanopb/pb_decode.c:251-275 | A tag, an error, or the end of the message: a zero tag, or a tag cut short by the end of the stream. |
| PbDecoder.SkipTo | PWR/Pods/nanopb/pb_decode.c:277-287 | Skips exactly one field of any wire type, or fails. |
| PbDecoder.MakeSubstream | PWR/Pods/nanopb/pb_decode.c:322-335 | The substream holds exactly the length-prefixed bytes, the parent exactly what follows. |
| PbDecoder.CloseSubstream | PWR/Pods/nanopb/pb_decode.c:337-350 | Closing moves the parent behind the substream, however much of it was read. |
| PbDecoder.DecodeOne | PWR/Pods/nanopb/pb_decode.c:1165-1379 | Each value decoder returns what `DecodeValue` says and stands behind it; fails iff that fails. |
| PbDecoder.DecodeInto | PWR/Pods/nanopb/pb_decode.c:356-429 | One occurrence of a static field: overwrite, set the has member, append, unpack, or switch a oneof. |
| PbDecoder.DecodePacked | PWR/Pods/nanopb/pb_decode.c:374-402 | Reads packed items until the substream ends; fails iff an item fails or the array overflows. |
| PbDecoder.DecodeMessage | PWR/Pods/nanopb/pb_decode.c:852-953 | The loop with iterator, bit mask and substreams decodes what `DecodeFields` says, and fails iff that fails. |
| PbEndToEnd.EncodeThenDecode | PWR/Pods/nanopb/pb_decode.c:955-967 | Through real buffers: encoding succeeds iff the buffer is large enough, and decoding then returns the message with no byte left; well-formedness and 32-bit inner lengths are all it asks of the message. |

## Left out

- The application's Swift code, its bindings and the other pods: view controllers, network calls and small lookups, none of which carries a guarantee beyond its own body.
- `version_set.cc`, table, block, cache and arena code are not part of this model: placement in levels is an order of files, newest first per key, with the conditions of `version_set.h` lines 173-179 and 350-353 as guards of the flush, compaction and move events.
- User keys are `real` ranks under the user comparator in the store, the iterator and the compaction; `MemTables` and `Recovery` work on key bytes with the comparator as a parameter.
- The output of a compaction is one table; the source may split it into several at key boundaries.
- The store's events have no I/O errors; `GroupCommit` models failing appends and syncs. Tables or descriptors lost or cut by a crash are not modelled: only the newest log is cut, behind the last acknowledged record. What `version_set.cc` writes as the descriptor's next file number is taken to be the counter at that moment.
- A writer without a batch forces a memtable switch only when it leads; nothing is claimed for one that is absorbed into a group.
- Group sizes are counted with unbounded integers, and the group's count is not wrapped at 2^32 when the last sequence number is advanced.
- Scheduling of compactions, size limits, slowdown sleeps, read sampling, statistics and `PrevLogNumber`, which this version always sets to 0.
- LogIO.Writer.AddRecord: an append fails by the file running full, and from then on; an append that fails once and then works again, and a failing flush, are not modelled.
- LogIO.Writer.EmitPhysicalRecord: the same; the flush always succeeds.
- LogIO.Reader.ReadPhysicalRecord: read errors of the file are not modelled.
- LogIO.Reader.ParseHeader: the skip of records before a positive initial offset is not modelled.
- LogIO.Reader.ReadRecord: reads from the start of the file, as recovery does; a positive initial offset and the offset of the last record are not modelled.
- LogDamage.DetectedDamage: says which records survive; what is reported for one damaged fragment, in a block that is there to its end, is said by `LogReports.RefusedIsReported`, and for all of a log together not at all.
- SkipLists.SkipList.Insert: the random height and the node's address are parameters; weak memory orders are left out, loads and stores are sequentially consistent steps.
- SkipListRuns: the writer's own search is one step, since nobody else changes the list; its result is what `SkipLists.SkipList.Find` returns.
- MemTables.MemTable.Add: the table is a sorted sequence of entry bytes, the skip list being modelled on its own.
- Batches.WriteBatch.Iterate: the handler is a list of what it was told.
- `FindShortestSeparator` and `FindShortSuccessor`, which only choose index keys of tables.
- DbIter.Iterator.Seek: the internal iterator is a position in a sorted sequence; merging several sources is not modelled.
- nanopb's callbacks, custom streams, extensions, pointer fields and allocation, default values, fields with implicit presence (`pb_encode.c` lines 205-265) and the texts of errors.
- nanopb is taken as built with PB_FIELD_32BIT on a 64-bit machine; structures are one slot per field rather than bytes at offsets, which only `PbFields.FieldIter` computes, and oneof members share a slot.
- PbRoundTrip.MessageRoundTrip: the lengths written inside the message fit 32 bits, because the decoder reads no others; static strings have their NUL inside the buffer. For a single value the first condition is exact; that a message with a longer length inside never reads back is not claimed, since its own bytes may be chosen to be read as fields.
- PbDecoder.DecodeMessage: for types with distinct tags, as the Protocol Buffers language requires of a message, no extension fields, and fewer than 64 required fields but not 32; after a failure nothing is said about the contents of the message.
- GroupPoison.NothingBehindADoubtfulGroup: batches are well formed, so that inserting a group never fails, and background errors other than a failed sync appear only as a refusal to make room.
- GroupCommitProofs.NoDeadEnd: the waits of `MakeRoomForWrite` for background work are one step that may succeed or fail.
