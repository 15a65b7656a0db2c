# PaddockKV in Dafny

A model of PaddockKV, an LSM-tree key-value store written in Rust, and proofs
about it. It covers the storage core in `crates/paddock-core`: the byte codecs,
the write-ahead log, the memtable, the table files, the merge, and the engine
that commits, rotates, flushes, compacts and reopens.

The reference everything is measured against is the plain history: the sequence
of acknowledged batches. `History.Newest(h, key, snap)` is the newest version of a
key at or below a snapshot, and `Client` says what that means in puts, deletes and
the bytes of keys, without the engine's own comparison, bounds or record encoding.
The main results say that the engine reads exactly that: range scans at every point
of every run, crashes included, and point reads exactly when the conditions stated
below hold.

## How it is laid out

- Codecs: `Bytes` (little-endian integers, key order), `Varint` (LEB128, section
  7.6 of DWARF 5, "Variable Length Data"), `Batch` (write batches), `Formats` (the
  bytes of every structure on disk, and exactly which bytes are accepted), `Damage`
  (what the readers do with bytes no writer left).
- The client's view: `Client` (what reads return, in operations and key bytes) and
  `ClientTheorems` (that the engine returns it).
- Log: `WalFormat` (fragments, segment header), `WalWriter`, `WalReader`,
  `WalTheorems` (what any byte cut leaves), `Recovery` (from a directory of bytes
  to an open store), `ByteRuns` (whole runs over log bytes, torn commits included),
  `FileRuns` (whole runs with every file as bytes, and a crash on any byte of them).
- Memory: `Records` (versioned records and their order), `SkipList`, `Arena`.
- Tables: `Block`, `BlockTheorems`, `Bloom`, `SstFormat`, `SstWriter`, `SstReader`,
  `SstLists` (lookup on record lists), `SstTheorems` and `SstLookup` (from bytes),
  `SstWitness`, `Compaction` (the two loops that write tables).
- Merging and ranges: `Merge`, `MergeTheorems`, `Range`.
- Engine: `History`, `Layers` (first hit over layered sources), `Ids`, `Engine` (the
  steps), `EngineInv` (the invariant, events, runs), `EngineSteps`, `EngineReopen`,
  `EngineTheorems`, `EngineLives` (runs over any number of crashes and reopens),
  `EngineWitness`, `OverwriteWitness`, `Db` (the engine object and its methods),
  `StoreReads` (point reads down to table bytes), `Nonces` (block encryption over
  runs).

`dafny verify dfyconfig.toml` checks everything.

## How it models the source

- A byte is an integer from 0 to 255, a file is a sequence of bytes, and integers
  are unbounded; wrap-around and truncation are written out where the source has
  them.
- CRC32C and the key hash are arbitrary deterministic functions passed as
  parameters, so nothing here depends on what they compute. Authenticated
  encryption is a pair of functions with the law that opening what was sealed gives
  the bytes back.
- Objects the source mutates are classes with the same fields; their loops are
  loops. A method is proved against a function of the old state, and the theorems
  are about those functions.
- The engine is a transition system. Each step touches the disk at most once, so a
  crash can fall between any two. Public operations are atomic with respect to each
  other, and file operations succeed. In a run a file is created in one step;
  `FileRuns.CrashAnywhere` puts the crash inside that step.
- Engine steps hold a table as its record list. `SstLookup.ScanIsIdentity` is what
  makes that sound for scans, ranges and compaction, and `StoreReads` for point
  reads; `FileRuns` carries whole runs over to the bytes of the tables.

## Where the code falls short of what it promises

For each of these a lemma says exactly when the property holds, and the lemma named
with it gives inputs on which it fails.

- Point lookup and many versions of one key. `BlockReader::seek` stops at any
  restart whose key equals the target, and `SstReader::get` looks in one block. A
  table with more than sixteen versions of a key can therefore return an old one:
  after seventeen overwrites and a flush, reading the latest snapshot returns the
  first value (`OverwriteWitness.SeventeenOverwrites`). `SstLists.GetExactIff`,
  `SstLookup.GetIsFindIff` and `BlockTheorems.SeekExactIff` give the exact
  conditions, on the layout of the key's run. Range scans are not affected.
- Replayed segments stay on disk. Only the segment a life creates is unlinked when
  its memtable is flushed, so a store that is dropped without closing, written to,
  flushed and opened again reads a superseded value
  (`EngineWitness.ReplayedSegmentGoesStale`). `EngineTheorems.CrashRecoveryIff` says
  when a reopened store is right: exactly when no log on disk is older than the
  tables. Over whole runs, every read of every life is right exactly when no reopen
  found such a log (`EngineLives.RunsReadIff`). Range scans are right even then
  (`EngineTheorems.ScansNeverStray`).
- Batches of more than 2^20 operations are acknowledged and logged but cannot be
  decoded, so the directory no longer opens (`Recovery.OversizeBatchBlocksOpen`;
  `Recovery.OpenMirror` and `ByteRuns.ByteStep` say that, over files that were
  created whole, this is exactly when an open fails).
- Files are created in place. A segment shorter than its header and a table without
  its header are errors to `open`, and neither is removed or skipped. A crash while a
  rotation, an open, a flush or a compaction is creating a file therefore leaves a
  directory that does not open, although every acknowledged batch is still in its
  logs and tables (`FileRuns.FirstOpenCrash`). `FileRuns.CrashAnywhere` says that
  these are exactly the crashes that do so, oversized batches apart.
- The table header's smallest sequence number is written as 0 when every record
  carries the largest 64-bit value (`SstLookup.HeaderIsExact`).
- Arena alignments above eight bytes depend on where the system allocator puts the
  slab (`Arena.BumpArena.Allocate` has the exact condition,
  `Arena.SixteenMayMisalign` the failing call).

Some comments in the source do not match its code; the model follows the code. The
documentation of `seek` says it finds the first record at or above the target, which
is true only under the condition above. The engine's header says that recovery does
not reopen tables and only replays the log; opening in fact reopens every table and
takes sequence numbers from their headers. The compaction module says that inputs left
behind by a crash are ignored at the next open; they are opened like any other table.
The file-system interface offers rename for publishing tables atomically; the engine
writes them under their final name.

## Model

| member | source | states |
|---|---|---|
| Bytes.LessIsLexicographic | crates/paddock-core/src/memtable/skiplist.rs:562-572 | One key is below another if and only if it is a proper prefix of it or has the smaller byte at the first place where they differ |
| Bytes.LittleEndian | crates/paddock-core/src/wal/format.rs:74-115 | Stored integers have their least significant byte first |
| Formats.VarintBytes | crates/paddock-core/src/encoding/varint.rs:40-56 | Known encodings: 0, 127, 128 and 300 |
| Varint.EncodeU64 | crates/paddock-core/src/encoding/varint.rs:40-56 | Fails exactly when the buffer is too short; otherwise writes the LEB128 bytes and leaves the rest of the buffer alone |
| Varint.DecodeLoop | crates/paddock-core/src/encoding/varint.rs:71-109 | The accumulate-and-shift loop computes the base-128 value up to the terminator, or the right error for short, over-long and overflowing input |
| Varint.RoundTripU64 | crates/paddock-core/src/encoding/varint.rs:40-109 | Decoding an encoded 64-bit value returns it and its length, whatever bytes follow |
| Varint.RoundTripU32 | crates/paddock-core/src/encoding/varint.rs:59-149 | The same for 32-bit values, in at most five bytes |
| Varint.DecodeInRange | crates/paddock-core/src/encoding/varint.rs:71-149 | No accepted input decodes to a value that overflows its integer type |
| Varint.LengthIsPredicted | crates/paddock-core/src/encoding/varint.rs:25-34 | The size computed from the bit length is the size the encoder writes |
| Varint.CanonicalIff | crates/paddock-core/src/encoding/varint.rs:154-160 | Canonical decoding accepts a string, with that value and length, if and only if it starts with the encoder output for the value |
| Batch.EncodeInto | crates/paddock-core/src/wal/batch.rs:135-161 | The append loop adds exactly the encoding of the batch to what was in the buffer |
| Batch.DecodeLoop | crates/paddock-core/src/wal/batch.rs:168-222 | The shrinking-slice loop agrees with the recursive decoder on every byte string, errors included |
| Batch.RoundTripIff | crates/paddock-core/src/wal/batch.rs:123-222 | Decoding an encodable batch gives it back if and only if it has at most 1048576 operations; otherwise it is refused |
| Formats.BatchBytes | crates/paddock-core/src/wal/batch.rs:123-161 | The bytes of a batch with one put and one delete: count, tag 0, key, value, tag 1, key |
| Formats.UnknownTagRefused | crates/paddock-core/src/wal/batch.rs:168-222 | An operation with any other tag is refused |
| Batch.DecodedIsEncodable | crates/paddock-core/src/wal/batch.rs:168-222 | Whatever decodes has u32 lengths and at most 2^20 operations |
| Batch.ReencodingIsStable | crates/paddock-core/src/wal/batch.rs:123-222 | Re-encoding a decoded batch gives bytes that decode to the same batch, even when the input used padded varints |
| Batch.TrailingBytesRefused | crates/paddock-core/src/wal/batch.rs:213-222 | An encoded batch followed by any further byte is refused |
| Damage.CutBatchRefused | crates/paddock-core/src/wal/batch.rs:168-222 | An encoded batch cut short anywhere is refused |
| WalFormat.OpenWrittenSegment | crates/paddock-core/src/wal/format.rs:74-115 | A segment header written for an id and first sequence number opens to exactly those, whatever records follow |
| Formats.SegmentHeaderBytes | crates/paddock-core/src/wal/format.rs:40-115 | A segment starts with PKWL, version 1, number, first sequence number, the checksum of those 24 bytes and four zeros |
| Formats.SegmentOpensIff | crates/paddock-core/src/wal/reader.rs:97-141 | Exactly the files that start with such a header open |
| Formats.FragmentBytes | crates/paddock-core/src/wal/writer.rs:196-237 | A fragment is checksum, length, kind, zero, sequence number and payload, and the checksum covers everything from the kind on |
| Formats.FragmentAccepted | crates/paddock-core/src/wal/reader.rs:227-278 | Exactly these bytes are accepted as a fragment; a stored sum that differs from the computed one never is, for any checksum function |
| Formats.FragmentsJoin | crates/paddock-core/src/wal/reader.rs:155-225 | Which fragments continue or complete a record, and which sequences are refused |
| Formats.FrameGeometry | crates/paddock-core/src/wal/writer.rs:139-194 | Records are cut at 32 KiB edges: one fragment if it fits, otherwise the block is filled to its last byte, and a tail below sixteen bytes is zero-filled |
| WalWriter.SegmentWriter.Create | crates/paddock-core/src/wal/writer.rs:80-94 | A new segment is its signed header and no records |
| WalWriter.SegmentWriter.AppendRecord | crates/paddock-core/src/wal/writer.rs:139-177 | After any number of appends the file is the header followed by the framed records, and the returned offset is where the record starts |
| WalWriter.SegmentWriter.WriteFragments | crates/paddock-core/src/wal/writer.rs:147-175 | The fragment loop writes the whole payload, filling each block and tagging first, middle and last fragments |
| WalWriter.SegmentWriter.PadBlock | crates/paddock-core/src/wal/writer.rs:180-194 | A block tail too short for a header is zero-filled, after which a header always fits |
| WalWriter.SegmentWriter.WriteFragment | crates/paddock-core/src/wal/writer.rs:196-237 | One fragment is appended and the block offset and byte count follow the file |
| WalReader.SegmentReader.constructor | crates/paddock-core/src/wal/reader.rs:97-141 | A reader over the bytes after an accepted header, starting at the first record |
| WalReader.SegmentReader.NextRecord | crates/paddock-core/src/wal/reader.rs:155-278 | The reading loop agrees with the recursive reader in outcome and final cursor on every byte string |
| WalReader.SegmentReader.ReplayAll | crates/paddock-core/src/wal/reader.rs:284-303 | The replay loop delivers the records and the outcome of the recursive replay, or its error |
| WalTheorems.ReadWholeFragment | crates/paddock-core/src/wal/reader.rs:227-278 | A fragment read back at its offset is the fragment written, whatever surrounds it |
| WalTheorems.NextOverFrame | crates/paddock-core/src/wal/reader.rs:155-185 | A framed record, however many blocks it spans, is read back whole and the cursor lands on the next one |
| WalTheorems.NextOverCutFrame | crates/paddock-core/src/wal/reader.rs:155-278 | A framed record cut at any byte yields neither a record nor an error: a clean end if only zeros are left, a torn tail otherwise |
| WalTheorems.CompleteCountIsLargest | crates/paddock-core/src/wal/writer.rs:139-237 | The number of records wholly before a cut is the largest prefix whose bytes fit |
| WalTheorems.CrashPrefix | crates/paddock-core/src/wal/reader.rs:155-386 | For every log and every cut, replay returns exactly the records wholly before the cut and never an error; a torn tail is reported, at the end of the last record, if and only if a non-zero byte is left over; truncating there replays cleanly to the same records |
| WalTheorems.ZeroTailIsClean | crates/paddock-core/src/wal/reader.rs:187-260 | Any number of trailing zero bytes, whole blocks included, leaves replay clean and unchanged |
| Damage.SegmentStep | crates/paddock-core/src/wal/reader.rs:155-278 | On any bytes: a zero header skips to the next block, a length, sum or end that does not fit is a torn tail, an unknown kind and fragments out of order are errors |
| Damage.ReplayStep | crates/paddock-core/src/wal/reader.rs:284-303 | Replay reports the first error, and says whether it ended clean or at a torn tail |
| Recovery.RecordsRoundTrip | crates/paddock-core/src/engine.rs:284-295 | Decoding the records of a logged segment gives the committed batches with their sequence numbers if and only if each has at most 2^20 operations; otherwise it is an error |
| Recovery.OversizeBatchBlocksOpen | crates/paddock-core/src/engine.rs:284-295 | A batch of more than 2^20 operations anywhere in the log of any segment makes opening the directory fail, whatever torn tails the files have |
| Recovery.CutSegmentOpens | crates/paddock-core/src/engine.rs:281-299 | A segment file cut anywhere after its header reads back as the batches wholly before the cut, oversized ones refused |
| Recovery.SegmentBytesGrow | crates/paddock-core/src/wal/writer.rs:139-177 | Logging one more batch extends the segment file by exactly the framed batch and changes nothing before it |
| Recovery.TornAppend | crates/paddock-core/src/engine.rs:601-602 | An append that stops after any byte leaves a segment that reads back with the new batch if and only if all its bytes were written |
| Recovery.OpenMirror | crates/paddock-core/src/engine.rs:232-326 | A directory whose segments read back as the logged batches, torn tails or not, opens to the store that opening its contents gives if no logged batch is oversized, and fails otherwise |
| Recovery.OpenWholeImage | crates/paddock-core/src/engine.rs:232-326 | The bytes the writer leaves open to the store of their contents if and only if every logged batch has at most 2^20 operations |
| ByteRuns.AppendMirrors | crates/paddock-core/src/engine.rs:593-618 | A commit stopped after any byte leaves files that read back as the disk before it or after it, even over segments torn by earlier crashes |
| ByteRuns.ByteStep | crates/paddock-core/src/engine.rs:232-750 | Each event over bytes, a commit torn at any byte included, does to files and store what its steps do in the transition system; a reopen fails exactly when a logged batch is oversized |
| ByteRuns.ByteRunRefines | crates/paddock-core/src/engine.rs:232-750 | Whole runs over bytes are runs of the transition system, and the files always read back as its disk |
| ByteRuns.SmallRunsOpen | crates/paddock-core/src/engine.rs:232-326 | With batches of at most 2^20 operations no open fails in any run |
| ByteRuns.BytesRead | crates/paddock-core/src/engine.rs:232-750 | From an empty directory of bytes, with any commits torn and any crashes: scans are always the history, all reads of all lives are right if and only if no reopen found a log older than the tables, and the next open fails if and only if a logged batch is oversized |
| ByteRuns.CrashInsideCommit | crates/paddock-core/src/engine.rs:593-618 | Batch atomicity from the log bytes up, in any life of any run: the directory opens unless a logged batch is oversized, and one history, with the batch in flight if and only if all its bytes were written, answers every scan, and every point read if and only if what was recovered is well layered; after reopens that found no log older than the tables, if and only if none is older now |
| FileRuns.FileStep | crates/paddock-core/src/engine.rs:232-750 | Each event over log and table files does what it does with the tables read: flushes and compactions write finished tables, merges read the live files, and the same reopens fail |
| FileRuns.FileRunLifts | crates/paddock-core/src/engine.rs:232-750 | Whole runs over files are the runs over logs and record lists, and every table file on disk is always a finished one |
| FileRuns.FilesRead | crates/paddock-core/src/engine.rs:232-750 | From an empty directory of files: the table files always deliver the records the store believes in, range scans are the history at every point, and the next open fails if and only if a logged batch is oversized |
| FileRuns.FileReadsIff | crates/paddock-core/src/engine.rs:366-399 | Point reads through the bytes of the table files, over every run whose reopens found no log older than the tables: right at every snapshot of a key if its lookups land right in every live table, and only if where the layers hold different versions of it |
| FileRuns.CrashAnywhere | crates/paddock-core/src/engine.rs:232-750 | A crash on any byte of any file being written, in any run: the directory opens if and only if the crash did not fall inside the creation of a segment or a table and no logged batch is oversized; then one history, with the batch in flight if and only if it was wholly written, answers every scan, and every point read if and only if what was recovered is well layered |
| FileRuns.HeaderlessFails | crates/paddock-core/src/sstable/writer.rs:137-375 | A table file cut anywhere before its header is filled in does not open, whatever the checksum function |
| FileRuns.FirstOpenCrash | crates/paddock-core/src/engine.rs:305-312 | An empty directory opens; one in which a first open stopped right after creating its segment does not |
| SkipList.SkipList.constructor | crates/paddock-core/src/memtable/skiplist.rs:222-233 | A new list is well formed and empty |
| SkipList.SkipList.FindPredecessors | crates/paddock-core/src/memtable/skiplist.rs:353-396 | At every level it returns the last node before the slot of (key, seqno) that reaches the level, and the node that follows |
| SkipList.SkipList.InsertRecord | crates/paddock-core/src/memtable/skiplist.rs:260-300 | For any height from 1 to 12 the sorted list gains the record in its slot, in front of ties, with its value, or with none for a tombstone, and every level stays linked |
| SkipList.SkipList.LinkNode | crates/paddock-core/src/memtable/skiplist.rs:283-297 | The two stores per level change exactly the predecessors links, one level at a time |
| SkipList.SkipList.Get | crates/paddock-core/src/memtable/skiplist.rs:306-345 | Returns what linear search over the sorted list returns: the newest version at or below the snapshot |
| SkipList.SkipList.Collect | crates/paddock-core/src/memtable/skiplist.rs:486-510 | Walking the bottom level gives the whole sorted list |
| SkipList.LevelsOfSkipList | crates/paddock-core/src/memtable/skiplist.rs:260-396 | In every reachable list the links of each level are a subsequence of the level below, and level 0 is the whole list |
| Records.FindIsNewest | crates/paddock-core/src/memtable/skiplist.rs:306-345 | In a sorted list the first visible record is the newest visible one, and there is none exactly when nothing is visible |
| Records.InsertIsSorted | crates/paddock-core/src/memtable/skiplist.rs:562-572 | Insertion keeps (key ascending, seqno descending) order |
| Records.FindAfterInsert | crates/paddock-core/src/memtable/skiplist.rs:260-345 | Lookup after an insertion: the new record if it is visible and not older, otherwise what was found before |
| Arena.RoundUp | crates/paddock-core/src/memtable/arena.rs:242-249 | The least multiple at or above the value |
| Arena.BumpArena.constructor | crates/paddock-core/src/memtable/arena.rs:95-103 | An empty arena holds no slabs, has dispensed nothing and will ask for 256 KiB first |
| Arena.BumpArena.TryAllocate | crates/paddock-core/src/memtable/arena.rs:130-145 | Succeeds if and only if the head slab has room at the first aligned offset, and then hands out exactly that range, past everything already given |
| Arena.BumpArena.Grow | crates/paddock-core/src/memtable/arena.rs:169-199 | A new head slab leaves earlier allocations untouched and doubles the next slab size up to 4 MiB |
| Arena.BumpArena.Allocate | crates/paddock-core/src/memtable/arena.rs:124-153 | Every request succeeds, with one new slab of the wanted size exactly when the head slab has no room, at the first aligned offset; the address is aligned if and only if the slab base is, so always for alignments up to eight; never more is dispensed than held |
| Arena.AllocationsApart | crates/paddock-core/src/memtable/arena.rs:124-153 | Any two allocations, in one slab or two, occupy disjoint addresses |
| Arena.SixteenMayMisalign | crates/paddock-core/src/memtable/arena.rs:124-175 | On a fresh arena whose slab lands at address 8, a sixteen-byte aligned request returns address 24 |
| Block.SharedPrefixLen | crates/paddock-core/src/sstable/block.rs:387-394 | The comparison loop returns the length of the longest common prefix |
| Block.BlockBuilder.constructor | crates/paddock-core/src/sstable/block.rs:63-73 | An empty builder |
| Block.BlockBuilder.Add | crates/paddock-core/src/sstable/block.rs:98-126 | The builder always holds the encoding of exactly the records added, restarts included |
| Block.BlockBuilder.IsEmpty | crates/paddock-core/src/sstable/block.rs:80-82 | True exactly when no record was added |
| Block.BlockBuilder.Size | crates/paddock-core/src/sstable/block.rs:92-94 | The estimate is computed from the records added |
| Block.EstimateIsExact | crates/paddock-core/src/sstable/block.rs:92-150 | The size estimate is the size of the finished block, to the byte |
| Block.BlockBuilder.Finish | crates/paddock-core/src/sstable/block.rs:129-150 | Emits the finished block of the records added, and empties the builder |
| Block.AppendRestarts | crates/paddock-core/src/sstable/block.rs:129-150 | The restart loop appends the restart array to the records, four bytes each |
| Block.BlockIter.Next | crates/paddock-core/src/sstable/block.rs:321-361 | One step yields the head of what the iterator owes and leaves the tail |
| Block.BlockIter.Collect | crates/paddock-core/src/sstable/block.rs:321-361 | Draining the iterator gives everything it owes |
| Block.BlockIter.FindFrom | crates/paddock-core/src/sstable/block.rs:279-284 | The scan returns the first record owed whose key is not below the target |
| Block.SeekLoop | crates/paddock-core/src/sstable/block.rs:253-285 | The lo/hi loop and the scan agree with the recursive search on every block, damaged ones included |
| BlockTheorems.IterationRoundTrips | crates/paddock-core/src/sstable/block.rs:98-361 | Iterating a finished block returns every key, value, seqno and op unchanged and in order |
| BlockTheorems.IterateFrom | crates/paddock-core/src/sstable/block.rs:321-361 | Starting at any restart with an empty running key gives the rest of the list |
| BlockTheorems.OpenFinished | crates/paddock-core/src/sstable/block.rs:129-227 | A finished block opens: the checksum holds and records and restart array are split where they were joined |
| BlockTheorems.RestartLands | crates/paddock-core/src/sstable/block.rs:98-126 | Restart k points at record 16k, which shares nothing with its predecessor and gives its full key |
| Formats.RestartEverySixteen | crates/paddock-core/src/sstable/block.rs:98-150 | A restart every sixteen records, where the whole key is stored; the others drop the longest common prefix with the record before |
| Formats.RecordLayout | crates/paddock-core/src/sstable/block.rs:98-126 | The bytes of one record: three lengths, sequence number, 0 or 1, rest of the key, value |
| Formats.TrailerLayout | crates/paddock-core/src/sstable/block.rs:129-150 | A block ends with its number of restarts and the checksum of all before it |
| Formats.BlockOpensIff | crates/paddock-core/src/sstable/block.rs:190-227 | Exactly the bytes with a matching checksum and room for their restart array open as a block; a differing sum is a checksum error, for any checksum function |
| BlockTheorems.LandMeaning | crates/paddock-core/src/sstable/block.rs:263-277 | The search settles on a restart at or below the target, and the next restart is above it unless the key was hit exactly |
| BlockTheorems.SeekWritten | crates/paddock-core/src/sstable/block.rs:253-285 | Seeking in the bytes of a finished block is seeking in its record list |
| BlockTheorems.SeekExactIff | crates/paddock-core/src/sstable/block.rs:253-285 | A seek finds the first record at or above the target if and only if it does not land on a restart whose preceding record already has the key |
| BlockTheorems.SeekIsExact | crates/paddock-core/src/sstable/block.rs:253-285 | It is exact for every target when no run of equal keys crosses a restart |
| BlockTheorems.OneKeyBlock | crates/paddock-core/src/sstable/block.rs:266-271 | A block with more than sixteen versions of one key: the seek always lands in the middle of the run |
| Damage.RecordAccepted | crates/paddock-core/src/sstable/block.rs:321-361 | Exactly which bytes are taken as a record of a block, and what is read from them |
| Damage.IterationStops | crates/paddock-core/src/sstable/block.rs:321-361 | Iteration ends at the first bytes that are no record |
| Damage.DamagedRestart | crates/paddock-core/src/sstable/block.rs:253-320 | A restart that does not store its whole key is damage, and a search that meets one finds nothing |
| Bloom.PickBlockInRange | crates/paddock-core/src/filter/blocked_bloom.rs:310-314 | The multiply-shift block index is always below the number of blocks |
| Formats.BlockOfKey | crates/paddock-core/src/filter/blocked_bloom.rs:310-314 | The block of a key is the low half of its hash scaled to the number of blocks |
| Formats.BitsOfKey | crates/paddock-core/src/filter/blocked_bloom.rs:320-337 | The first bit of a key is the high half of its hash modulo 512, and each next one is a stride further |
| Bloom.StrideMixes | crates/paddock-core/src/filter/blocked_bloom.rs:320-329 | The stride is mixed from the high half by two multiplications and a folded exclusive or, in 32 bits |
| Formats.FilterSize | crates/paddock-core/src/filter/blocked_bloom.rs:113-132 | A filter has bits for every expected key, less than one block too many, and at least one block |
| Bloom.BitPositions | crates/paddock-core/src/filter/blocked_bloom.rs:320-337 | The wrapping loop produces the double-hashing positions (a + i*b) mod 512 in closed form |
| Bloom.NewFilter | crates/paddock-core/src/filter/blocked_bloom.rs:113-132 | A fresh filter has at least one block and is well formed for every capacity |
| Bloom.BlockedBloom.constructor | crates/paddock-core/src/filter/blocked_bloom.rs:113-132 | The object starts as that filter |
| Bloom.BlockedBloom.InsertKey | crates/paddock-core/src/filter/blocked_bloom.rs:161-175 | Setting bits in place gives the filter with the key inserted; the key count saturates |
| Bloom.BlockedBloom.ContainsKey | crates/paddock-core/src/filter/blocked_bloom.rs:180-186 | The early-exit probe answers whether all bits of the key are set |
| Bloom.InsertMeaning | crates/paddock-core/src/filter/blocked_bloom.rs:161-175 | Inserting a key sets exactly its own bits in its own block and changes nothing else |
| Bloom.KeysCounted | crates/paddock-core/src/filter/blocked_bloom.rs:161-175 | The stored key count is the number of insertions, up to the 32-bit maximum |
| Bloom.NoFalseNegatives | crates/paddock-core/src/filter/blocked_bloom.rs:161-186 | After any inserts every inserted key is reported present |
| Bloom.ContainsIff | crates/paddock-core/src/filter/blocked_bloom.rs:161-186 | A filter that started empty says yes if and only if inserted keys of the same block cover every bit of the key |
| Bloom.DecodeEncode | crates/paddock-core/src/filter/blocked_bloom.rs:192-270 | Decoding an encoded filter gives it back |
| Bloom.DecodedIsWellFormed | crates/paddock-core/src/filter/blocked_bloom.rs:211-270 | Whatever decodes is safe to query and re-encodes to the same bytes up to the reserved one |
| Formats.FilterAccepted | crates/paddock-core/src/filter/blocked_bloom.rs:211-270 | Exactly which bytes are accepted as a filter, and where its fields are |
| Bloom.StoredFilterHasKeys | crates/paddock-core/src/filter/blocked_bloom.rs:192-270 | No false negatives after encode and decode |
| Bloom.BuildMask | crates/paddock-core/src/filter/blocked_bloom.rs:398-407 | The two mask halves put together hold one bit per position |
| Bloom.ProbesAgree | crates/paddock-core/src/filter/blocked_bloom.rs:378-431 | The eight-word mask subset test and the bit-by-bit probe agree on every block and every list of positions |
| SstFormat.HandleRoundTrip | crates/paddock-core/src/sstable/format.rs:226-240 | A block handle decodes to itself, whatever follows |
| SstFormat.HeaderRoundTrip | crates/paddock-core/src/sstable/format.rs:165-217 | A signed file header validates and decodes to its fields |
| Formats.HeaderAccepted | crates/paddock-core/src/sstable/format.rs:165-217 | Exactly which 64 bytes are accepted as a table header, and where its fields are |
| Formats.FooterAccepted | crates/paddock-core/src/sstable/format.rs:273-304 | Exactly which 64 bytes are accepted as a footer, and where its handles are |
| SstFormat.FooterRoundTrip | crates/paddock-core/src/sstable/format.rs:273-304 | A signed footer validates and decodes to its three handles |
| SstWriter.TableWriter.constructor | crates/paddock-core/src/sstable/writer.rs:137-168 | A new writer has reserved the header region and holds no records |
| SstWriter.TableWriter.Add | crates/paddock-core/src/sstable/writer.rs:185-208 | The writer always stands for exactly the records added: full blocks on disk, the open block in the builder, totals and filter up to date |
| SstWriter.TableWriter.Count | crates/paddock-core/src/sstable/writer.rs:194-203 | Entry count, smallest and largest seqno and the filter follow the records |
| SstWriter.TableWriter.FlushBlock | crates/paddock-core/src/sstable/writer.rs:211-221 | The open block moves to the file with its index entry; nothing happens when it is empty |
| SstWriter.TableWriter.WriteBlock | crates/paddock-core/src/sstable/writer.rs:231-264 | The block, sealed or in the clear, is appended at the current offset and padded to the next page, and the handle says where |
| SstWriter.TableWriter.AlignToBlockBoundary | crates/paddock-core/src/sstable/writer.rs:266-274 | Zero padding up to the next 4096-byte boundary and no further |
| SstWriter.BuildIndexBlock | crates/paddock-core/src/sstable/writer.rs:279-290 | The index is a block with one record per data block: last key and handle |
| SstWriter.TableWriter.Finish | crates/paddock-core/src/sstable/writer.rs:294-376 | The finished file is header, data region, filter, index and footer of the records added |
| Formats.TableLayout | crates/paddock-core/src/sstable/writer.rs:137-376 | A finished table: header, zeros to byte 4096, page-aligned data, and at least a footer after it |
| Formats.HeaderCounts | crates/paddock-core/src/sstable/writer.rs:344-373 | What the header says: the sealed flag, the numbers of records and blocks, and where the data ends |
| Formats.HandleFields | crates/paddock-core/src/sstable/writer.rs:231-264 | A block handle says where the block is, how long it is on disk, and its own checksum when it is in the clear |
| Formats.IndexAndFooter | crates/paddock-core/src/sstable/writer.rs:279-350 | The index holds the last key and the handle of each block; filter, index and empty meta block follow the data in that order |
| Formats.SealingMustMatch | crates/paddock-core/src/sstable/reader.rs:158-176 | A table written sealed does not open in the clear, nor the other way round |
| SstLists.BlocksPartition | crates/paddock-core/src/sstable/writer.rs:185-221 | Cutting into blocks loses nothing, keeps the order and leaves no empty block, for every block size |
| SstLists.CutIsTight | crates/paddock-core/src/sstable/writer.rs:204-207 | Every sealed block was sealed by the record that took it to the block size, not before and not after |
| SstTheorems.RegionIsAligned | crates/paddock-core/src/sstable/writer.rs:266-274 | The next block always starts on a page boundary |
| SstTheorems.BlocksAreApart | crates/paddock-core/src/sstable/writer.rs:231-274 | Every data block starts on a page boundary after the header region and ends before the recorded end, and no two overlap |
| Nonces.WrittenIsNew | crates/paddock-core/src/engine.rs:490-709 | A step makes a table file appear exactly when it writes one, under a number no file has, with the written records |
| Nonces.IdsAscend | crates/paddock-core/src/engine.rs:246-255 | The numbers of all tables ever written, removed ones included, strictly ascend over every run |
| Formats.NonceBytes | crates/paddock-core/src/crypto/envelope.rs:66-71 | A nonce is its four tag bytes and the block offset |
| Formats.AadBytes | crates/paddock-core/src/crypto/envelope.rs:75-80 | The associated data is the table number and the block offset |
| Nonces.NonceInjective | crates/paddock-core/src/crypto/envelope.rs:66-71 | Two block offsets give the same twelve nonce bytes only if they are equal |
| Nonces.AadInjective | crates/paddock-core/src/crypto/envelope.rs:75-80 | Two (table, offset) pairs give the same sixteen bytes of associated data only if they are equal |
| Nonces.NoncesNeverRepeat | crates/paddock-core/src/sstable/writer.rs:231-240 | Over every run, any two blocks of any two tables ever written share table number and nonce, or associated data, if and only if they are the same block |
| SstTheorems.OpenWritten | crates/paddock-core/src/sstable/reader.rs:123-207 | A finished table opens, and header, footer, index and filter read back as written |
| SstLookup.HeaderIsExact | crates/paddock-core/src/sstable/writer.rs:357-373 | Entry count and largest seqno in the header are exact; the smallest is exact if and only if some seqno is below the largest 64-bit value |
| SstLookup.LoadWritten | crates/paddock-core/src/sstable/reader.rs:212-236 | Loading a block through its handle, decrypting if needed, gives the block that was written |
| Damage.LoadReports | crates/paddock-core/src/sstable/reader.rs:212-236 | A handle past the end of the file, a seal that does not open and a differing checksum are reported, on any file |
| Damage.ScanReports | crates/paddock-core/src/sstable/reader.rs:285-297 | A scan fails if any block fails to load |
| Damage.GetReports | crates/paddock-core/src/sstable/reader.rs:247-280 | A lookup the filter refuses touches nothing; any other reports what goes wrong in the index and in the block |
| SstReader.ScanLoop | crates/paddock-core/src/sstable/reader.rs:285-297 | The scan loop agrees with the recursive scan, first error included |
| SstReader.TableStream.constructor | crates/paddock-core/src/sstable/reader.rs:306-314 | A stream owes what its handles yield |
| SstReader.TableStream.Refill | crates/paddock-core/src/sstable/reader.rs:418-434 | Skips empty blocks, stops at the first error, and never loses a record |
| SstReader.TableStream.NextRec | crates/paddock-core/src/sstable/reader.rs:438-447 | Each call hands over the head of what is owed, or reports the end or the error |
| SstLookup.ScanIsIdentity | crates/paddock-core/src/sstable/reader.rs:285-447 | Write, open, scan: exactly the records added, in order, at once and as a stream, for every record list and block size, sealed or in the clear |
| SstReader.GetLoop | crates/paddock-core/src/sstable/reader.rs:265-279 | The skipping loop agrees with the recursive one on every block |
| SstLists.SettleFinds | crates/paddock-core/src/sstable/reader.rs:268-372 | Stepping past versions that are too new ends at the first visible one in the block |
| SstLists.GetInBlockExactIff | crates/paddock-core/src/sstable/reader.rs:265-279 | Inside a block the lookup of a key is a linear search at every snapshot if and only if the binary search does not land inside the run of that key |
| SstLists.GetExactIff | crates/paddock-core/src/sstable/reader.rs:247-280 | In a table the lookup of a key is a linear search at every snapshot if and only if neither the index nor the block search lands inside the run of the key and no older version of it lies beyond the block |
| SstLists.AnswersIff | crates/paddock-core/src/sstable/reader.rs:247-280 | In any sorted table, repeated versions included, every snapshot of a key is answered with the record a linear search finds if and only if the lookup lands on the first record at or above the key, or a copy of it, and no older version lies beyond the block |
| SstLists.GetIsLinear | crates/paddock-core/src/sstable/reader.rs:247-280 | It is a linear search for every key and snapshot when no run of equal keys crosses a restart or a block edge |
| SstLists.NoRunCrossesLands | crates/paddock-core/src/sstable/reader.rs:247-280 | That simple condition implies the exact one for every key |
| SstLists.DistinctKeysAreFine | crates/paddock-core/src/sstable/reader.rs:247-280 | In particular when all keys are distinct |
| SstLists.OneKeyTableGoesStale | crates/paddock-core/src/sstable/reader.rs:247-280 | One block with more than sixteen versions of a key answers from the middle of the run |
| SstLookup.LocateStored | crates/paddock-core/src/sstable/reader.rs:353-360 | The index lookup goes to the block its last keys point at |
| SstLookup.RefusedIsAbsent | crates/paddock-core/src/sstable/reader.rs:250-255 | A key the filter refuses occurs in no record |
| SstLookup.GetWritten | crates/paddock-core/src/sstable/reader.rs:247-280 | Filter, index, block and skipping together return the record at the position the record list predicts |
| SstLookup.GetIsFind | crates/paddock-core/src/sstable/reader.rs:247-280 | From the bytes: lookup is linear search whenever it lands right |
| SstLookup.GetIsFindIff | crates/paddock-core/src/sstable/reader.rs:247-280 | From the bytes of any finished table: every snapshot of a key is answered with the record a linear search finds if and only if the lookup lands right |
| SstWitness.OneKeyTableReadsStale | crates/paddock-core/src/sstable/reader.rs:247-280 | Every small table with more than sixteen versions of one key returns an older version than linear search does |
| SstWitness.SeventeenVersions | crates/paddock-core/src/sstable/reader.rs:247-280 | A concrete table of seventeen versions: the lookup at the latest snapshot returns the first value |
| OverwriteWitness.OverwritesGoStale | crates/paddock-core/src/engine.rs:366-399 | For every key and every list of more than sixteen values that fit one block, however tables are written: the run that puts them one after the other and flushes reads a superseded value at the latest snapshot |
| OverwriteWitness.SeventeenOverwrites | crates/paddock-core/src/engine.rs:366-399 | A concrete run: seventeen puts, one flush, and the store returns the first value |
| Merge.EntryOrder | crates/paddock-core/src/compaction/merger.rs:37-53 | The heap order is a strict weak order on (key, seqno descending, source) |
| Merge.KWayMerge.constructor | crates/paddock-core/src/compaction/merger.rs:80-87 | A new merger owes all its streams |
| Merge.KWayMerge.Prime | crates/paddock-core/src/compaction/merger.rs:100-111 | After priming the heap holds the head of every unexhausted stream and nothing is lost |
| Merge.KWayMerge.Advance | crates/paddock-core/src/compaction/merger.rs:113-128 | One record moves from its stream to the heap; what is owed stays the same |
| Merge.KWayMerge.PopLeast | crates/paddock-core/src/compaction/merger.rs:134-135 | The popped entry precedes every other and only its own source moves |
| Merge.KWayMerge.NextRecord | crates/paddock-core/src/compaction/merger.rs:130-140 | Each call returns the head of the merge of what is owed and leaves its tail |
| MergeTheorems.MergeKeepsSources | crates/paddock-core/src/compaction/merger.rs:100-140 | The records of each source come out complete and in their own order |
| MergeTheorems.MergeIsUnion | crates/paddock-core/src/compaction/merger.rs:100-140 | The output is the multiset union of the inputs, record for record |
| MergeTheorems.MergeIsSorted | crates/paddock-core/src/compaction/merger.rs:37-53 | From sorted inputs the output is sorted by key, then seqno descending, then source |
| MergeTheorems.FindInMerge | crates/paddock-core/src/compaction/merger.rs:37-53 | A lookup in the merge is the best lookup over the sources |
| Compaction.CompactTables | crates/paddock-core/src/compaction/compact.rs:55-114 | The drain loop writes the table of the merged inputs, and the emitted count is the sum of the input sizes |
| Compaction.CompactedFileScans | crates/paddock-core/src/compaction/compact.rs:46-114 | Opening and scanning a compacted file gives the merge: nothing lost, nothing added |
| Compaction.WriteMemtable | crates/paddock-core/src/engine.rs:699-708 | The flush loop writes the table of exactly the memtable records |
| Range.MemtableSource | crates/paddock-core/src/engine.rs:969-1000 | The bounded walk over a sorted memtable keeps exactly the records in range |
| Range.SstableSourceIsWithin | crates/paddock-core/src/engine.rs:1005-1030 | Skipping below the start and stopping past the end keeps exactly the records in range |
| Range.DbRangeIter.constructor | crates/paddock-core/src/engine.rs:846-897 | A range iterator owes the emitted form of the merge of its sources |
| Range.DbRangeIter.Next | crates/paddock-core/src/engine.rs:921-958 | Each call hands over the head of what is owed, skipping invisible, repeated and deleted keys |
| Range.DbRangeIter.CollectRecords | crates/paddock-core/src/engine.rs:901-907 | Draining gives everything owed |
| Range.EmitIsWanted | crates/paddock-core/src/engine.rs:921-958 | A record is emitted if and only if it is the newest visible version of its key, live, not past the end and not already emitted |
| Range.ScanIsExact | crates/paddock-core/src/engine.rs:846-958 | For any sorted sources, bounds and snapshot: keys strictly ascend, and a record is returned if and only if its key is in range and it is the live newest visible version over all sources |
| History.NewestWitness | crates/paddock-core/src/engine.rs:366-399 | The newest version of a history is one that was written, at or below the snapshot, with nothing newer below it, or there is none |
| Client.BoundsMean | crates/paddock-core/src/engine.rs:909-984 | The bound tests of a scan: an included bound admits its key, an excluded one does not, and beyond that keys are admitted by the order of their bytes |
| Client.NewestMeans | crates/paddock-core/src/engine.rs:786-797 | The reference read in operations: the last put that nothing on the key follows, a tombstone for such a delete, nothing if no batch touches the key |
| Client.ScanIsRangeRead | crates/paddock-core/src/engine.rs:846-958 | An exact scan lists, in ascending byte order and each once, exactly the keys within the bounds whose last operation is a put, with the value put |
| ClientTheorems.RunsServeClients | crates/paddock-core/src/engine.rs:366-958 | Over every run from an empty directory, crashes included: range reads are what the committed operations leave within the bounds, and point reads what they leave of the key if no reopen found a log older than the tables |
| ClientTheorems.CommitThenScan | crates/paddock-core/src/engine.rs:593-618 | After a batch whose last operation on a key is a put every scan in range lists it with that value; after a delete no scan lists the key |
| ClientTheorems.CommitThenGet | crates/paddock-core/src/engine.rs:593-618 | A point read returns the value put, or nothing after a delete |
| ClientTheorems.ReadsServe | crates/paddock-core/src/engine.rs:366-399 | Any store whose point reads are those of a history, reopened ones included, serves the point reads of its operations |
| ClientTheorems.ScansServe | crates/paddock-core/src/engine.rs:846-958 | Any store whose scans are those of a history serves the range reads of its operations |
| History.NewestIsStable | crates/paddock-core/src/engine.rs:351-399 | Later batches do not change what a snapshot sees |
| History.ApplyBatchMeaning | crates/paddock-core/src/engine.rs:786-797 | Applying a batch adds, for each key it touches, one version with the last operation on that key, and nothing else |
| History.ApplyBatchIsFaithful | crates/paddock-core/src/engine.rs:786-797 | A memtable that agrees with the history still does after the next batch |
| Layers.FirstHitIsNewest | crates/paddock-core/src/engine.rs:366-399 | If newer versions never hide below older ones, first hit over layered sources is the newest version |
| Layers.FirstHitIff | crates/paddock-core/src/engine.rs:366-399 | First hit is right for every key and snapshot if and only if that layering holds |
| Layers.BrokenShadowMisreads | crates/paddock-core/src/engine.rs:366-399 | Every breach of the layering misreads at a snapshot that names it |
| Layers.ScanIsHistory | crates/paddock-core/src/engine.rs:846-958 | Range scans over sources that hold the history are exact whatever the layering |
| Layers.CompactionPreservesReads | crates/paddock-core/src/engine.rs:490-570 | A lookup in the merged table equals first hit over its newest-first inputs |
| Engine.ReplayedMeaning | crates/paddock-core/src/engine.rs:281-299 | Replaying the segments in number order gives a memtable holding exactly the logged versions |
| EngineSteps.CommitKeepsInv | crates/paddock-core/src/engine.rs:593-618 | A commit keeps the invariant: sources hold exactly the history, logs cover memtables, files match tables |
| EngineSteps.RotateKeepsInv | crates/paddock-core/src/engine.rs:620-656 | A rotation keeps the invariant |
| EngineSteps.WriteTableKeepsInv | crates/paddock-core/src/engine.rs:665-709 | A crash point after the table is written and before it is published satisfies the invariant |
| EngineSteps.PublishKeepsInv | crates/paddock-core/src/engine.rs:716-750 | Publishing a table and unlinking its segment keeps the invariant: exactly the flushed memtable goes |
| EngineSteps.WriteMergedKeepsInv | crates/paddock-core/src/engine.rs:490-534 | A crash point after the merged table is written satisfies the invariant |
| EngineSteps.SwapKeepsInv | crates/paddock-core/src/engine.rs:536-558 | Swapping the merged table in for its inputs keeps the invariant |
| EngineSteps.UnlinkKeepsInv | crates/paddock-core/src/engine.rs:560-567 | A crash point between any two input unlinks satisfies the invariant |
| EngineReopen.ReopenKeepsInv | crates/paddock-core/src/engine.rs:232-326 | Opening whatever is on disk re-establishes the invariant |
| EngineReopen.DiskAlwaysOk | crates/paddock-core/src/engine.rs:490-750 | At every step, in the middle of a flush or a compaction included, the files on disk hold the whole history and nothing else |
| EngineReopen.RecoveredOk | crates/paddock-core/src/engine.rs:232-326 | Opening such a disk gives sources that hold exactly the history |
| EngineReopen.RecoveredSeqno | crates/paddock-core/src/engine.rs:260-290 | The sequence number found on opening is one the history reached, and no batch above it wrote anything |
| EngineReopen.ReopenHistory | crates/paddock-core/src/engine.rs:260-290 | Continuing from that number changes no answer: the batch numbers dropped had no operations |
| EngineTheorems.RunKeepsInv | crates/paddock-core/src/engine.rs:232-750 | The invariant holds at every point of every run, over any number of crashes and reopens |
| EngineTheorems.ScansNeverStray | crates/paddock-core/src/engine.rs:846-958 | In every run from an empty directory, crashes included, range scans are exactly the live newest versions of the history |
| EngineTheorems.FileNumbersAscend | crates/paddock-core/src/engine.rs:246-255 | The numbers of created files strictly ascend over every run, reopens included |
| EngineTheorems.GoodReads | crates/paddock-core/src/engine.rs:366-399 | In a well-layered state point reads are the newest version of the history |
| EngineTheorems.RunKeepsGood | crates/paddock-core/src/engine.rs:593-750 | Commits, rotations, flushes and compactions keep the layering and only extend the history |
| EngineTheorems.ScansAreStable | crates/paddock-core/src/engine.rs:351-399 | Range scans of a snapshot are the same after any later batches, rotations, flushes and compactions, whatever logs the store was opened over |
| EngineTheorems.SnapshotsAreStable | crates/paddock-core/src/engine.rs:351-399 | So are point reads, in a well-layered state |
| EngineTheorems.CrashRecoveryIff | crates/paddock-core/src/engine.rs:232-326 | After a crash at any step of a well-layered life, the reopened store reads the history for every key and snapshot if and only if no log on disk is older than the tables |
| EngineTheorems.ReopenIsGood | crates/paddock-core/src/engine.rs:232-326 | Such a reopen starts a well-layered life again |
| EngineTheorems.CleanReopen | crates/paddock-core/src/engine.rs:232-326 | Reopening after a close starts a life in which recovery is always right |
| EngineTheorems.FlushLeavesNothingPending | crates/paddock-core/src/engine.rs:448-476 | A flush leaves no logged work on disk, which is what close relies on |
| EngineLives.StepGoodIff | crates/paddock-core/src/engine.rs:232-750 | Every step keeps point reads right, a reopen if and only if no log on disk is older than the tables |
| EngineLives.RunsReadIff | crates/paddock-core/src/engine.rs:232-750 | Over every run from an empty directory, every point read at every point of every life is right if and only if no reopen found a log older than the tables |
| EngineLives.RecoveryOfAnyRun | crates/paddock-core/src/engine.rs:232-326 | After a crash at any point of any run whatever, the reopened store reads right if and only if what it recovered is well layered, and its scans are right in any case |
| EngineLives.CrashRecovery | crates/paddock-core/src/engine.rs:232-326 | For every run from an empty directory whose reopens found no log older than the tables, and a crash after any step: the store read right before, reads right after reopening if and only if no log is older than the tables, and scans are right both times |
| EngineLives.ClosedLivesRecover | crates/paddock-core/src/engine.rs:448-476 | Runs whose lives were closed before each reopen meet that condition, and so does a crash at their end |
| EngineLives.UnflushedRunsRecover | crates/paddock-core/src/engine.rs:232-326 | So do runs that crash and reopen any number of times without a flush |
| EngineLives.CommitLogsNotOlder | crates/paddock-core/src/engine.rs:593-618 | A commit never changes whether the logs are older than the tables |
| EngineLives.LogsAreConsecutive | crates/paddock-core/src/engine.rs:305-312 | In every run the batches of every segment carry consecutive numbers from the first sequence number in its header |
| EngineWitness.ReplayedSegmentGoesStale | crates/paddock-core/src/engine.rs:319-324 | For every key and pair of values, a run that drops a store, overwrites and flushes, and reopens reads the superseded value |
| Db.Db.constructor | crates/paddock-core/src/engine.rs:232-326 | Opening scans tables newest first and replays segments in order; the object is the opened store |
| Db.Db.CommitBatch | crates/paddock-core/src/engine.rs:593-618 | One commit step, followed by a rotation exactly when the byte threshold is reached, and the byte count it leaves |
| Db.Db.RotateMemtable | crates/paddock-core/src/engine.rs:620-656 | One rotation step; the byte count restarts |
| Db.Db.FlushOne | crates/paddock-core/src/engine.rs:665-750 | Two steps: the oldest frozen memtable becomes the newest table, and only its segment goes |
| Db.Db.Flush | crates/paddock-core/src/engine.rs:448-470 | Terminates with every memtable empty or flushed; what it did is a run of the transition system that leaves the history alone |
| Db.Db.CompactAll | crates/paddock-core/src/engine.rs:490-570 | Nothing with fewer than two tables; otherwise one table holding the merge, reached by steps of the transition system that leave the history alone |
| Db.Db.UnlinkInputs | crates/paddock-core/src/engine.rs:560-567 | Each removal is one step of the transition system |
| Db.Db.GetAt | crates/paddock-core/src/engine.rs:366-399 | Memtables, frozen memtables and tables in order; in every well-layered state it returns v if and only if the last operation on the key at or below the snapshot puts v, and nothing if and only if there is none or it is a delete |
| Db.Db.RangeRecords | crates/paddock-core/src/engine.rs:846-907 | In every reachable state the records are, in byte order, exactly the keys within the bounds whose last operation at or below the snapshot is a put, with the value put |
| Db.ApplyOps | crates/paddock-core/src/engine.rs:786-797 | The loop over a batch is batch application |
| Db.ReplayAll | crates/paddock-core/src/engine.rs:281-299 | The loop over segments is replay |
| StoreReads.StoreGetIff | crates/paddock-core/src/engine.rs:366-399 | The read path over memtables and table bytes returns the first hit over the layers at every snapshot of a key if its lookups land right in every table, and only if where the layers hold different versions of it |
| Damage.StoreReports | crates/paddock-core/src/engine.rs:366-399 | Tables are asked in order until one answers or fails |
| StoreReads.StoreReadsAreNewest | crates/paddock-core/src/engine.rs:366-399 | Over every run whose reopens found no log older than the tables, a point read from memtables and table bytes is the newest version of the history, for every key whose lookups land right |
| StoreReads.ReopenedReadsAreNewest | crates/paddock-core/src/engine.rs:366-399 | The same after a crash at any point and a reopen |

## Left out

- Concurrency: atomic orderings, state swaps seen by readers in flight, mutex poisoning and real threads. Public operations are atomic here.
- I/O failures: a failed append, remove or sync, short reads of existing bytes, and the io_uring, direct-I/O and mmap back ends.
- CRC32C, XXH3, AES-GCM and HKDF internals. No claim is made that arbitrary corruption is detected.
- The skip list's random heights: any height from 1 to 12 is allowed, the distribution is not modelled.
- Expected costs, the Bloom false-positive rate and size estimates of the filter.
- The binary heap of the merger: it is a bag from which the least entry is popped.
- Stream errors inside the merger: its inputs are record lists.
- 64-bit overflow of sequence numbers and file sizes.
- The back-fill of a table header, and writes reaching the disk out of order: the header is filled in by one write, and what a crash leaves is a prefix of what was written.
- Error messages: errors are a small enumeration, reasons are dropped.
- File names, directory listing and their parsing: a directory is a map from numbers to contents.
- HTTP server, fuzz targets, benchmarks and deployment files.
- Pre-allocated aligned buffers and buffer pools.
- SstWriter.TableWriter.Add: does not model the panic when a block outgrows a 32-bit length; the theorems about finished tables carry that limit as a hypothesis.
- Nonces.NoncesNeverRepeat: takes the table number for the key derived from it; that derivation gives different keys for different numbers only computationally. Table files and block offsets are taken to fit 64 bits.
- Arena.BumpArena.Allocate: the base address of a new slab is a parameter; the memory itself is not modelled.
- Db.Db.CommitBatch: applies batches to the sorted list a memtable stands for and to the list of logged batches; SkipList.SkipList.InsertRecord is the pointer structure and WalWriter.SegmentWriter.AppendRecord the bytes.
- Db.Db.GetAt: takes table lookup as linear search over the table's records; StoreReads.StoreReadsAreNewest says when the bytes agree.
- Db.Db.CompactAll: takes the merged table as a record list; Compaction.CompactTables is the loop that writes its bytes.
