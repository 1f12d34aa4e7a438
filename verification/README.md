# KopiDB: a verified model of the engine

KopiDB is an LSM-tree key-value engine with multi-version records and transactions.
This project models its core in Dafny and proves what the core is for:

- **Reads.** A record is a key, a version and a value; the empty value is a tombstone. A
  read has a version bound (0: none) and a set of versions to ignore. `Mvcc.Best` is the
  answer as a linear scan of all records would give it. The skip list, the memory tables,
  blocks, tables, level 0, the sorted levels, the Bloom filter, every binary search and
  every merging iterator are shown to compute exactly that, and scan, range query, batch
  read and point read to agree.
- **Rearrangement.** Freezing, flushing and compacting keep every record of every key and
  version, and the precedence of equal ones; so no read changes, also between the two
  steps of a read that runs beside a flush.
- **Transactions.** Contexts, manager and log form a step machine. Over every run:
  serializability in commit order, write-ahead discipline, strict reads of committed data
  only, repeatable reads, rolled-back ids never read again, and the meaning of the
  checkpoint. The methods of the context objects are proved to take these very steps, so
  the theorems hold of any sequence of calls (`Refinements`), and they hold with each get
  split into the two steps it takes under different locks (`SplitSerials`).
- **Bytes.** Block image, block table, Bloom filter, table file, log record, log files and
  transaction state file: round trips, exact acceptance, and detection of damage.
- **The block cache.** Index and lists in bijection, the LRU-K order, and reading through
  it being the same as reading the file.

Code that changes objects step by step is a class or a method with loops (`SkipList`,
`MemTable`, `Block`, `BloomFilter`, `SSTBuilder`, `LSMEngine`, `TranContext`,
`TranManager`, `WAL`, `BlockCache`); iterators, tables on disk and records are values.
Each such method is proved against a function of its inputs and the old state, and the
lemmas are about those functions.

`dafny verify dfyconfig.toml` checks everything.

## Reading order

`Bytes`, `Mvcc` (the specification of a read), `SkipList`, `MemTable`; `Blocks`,
`BlockSearch`, `Bloom`, `SstMeta`, `Sst`, `SstBuilder`, `SstOpen`, `Limits`; `Streams`,
`TableIterators`, `TableRange`, `Heap`, `Merge`, `LevelScan`, `Collect`; `Storage`,
`Compaction`, `Engine`, `Scan`, `FlushRace`; `WalRecord`, `WalLog`; `TranFile`,
`TranManager`, `Transactions`, `WriteAhead`, `ReadSafety`, `Serial`, `LostUpdate`,
`TranContext`, `Refinement`, `StaleWrite`, `SplitRead`, `SplitSerial`, `Settlement`;
`BlockCache`, `CacheRun`.

The result `Err(Oversize)` of the engine and context methods is no exception of the
program. It marks the runs in which a table has outgrown its 32-bit offsets (see
Findings); the program notices nothing and goes on.

## Findings

1. **Offsets are narrowed without a check.** `SSTBuilder::build` casts the end of the
   blocks to 32 bits (src/sst/sst.cpp:469) and reports success. A table whose blocks take
   2^32 bytes or more cannot be read: its last block ends before it starts
   (`SstBuilders.Outgrown`; `Limits.SomeTableOutgrows` gives one). The exact condition is
   in `SstBuilders.SSTBuilder.Build`: the table stores the records if and only if
   `RealSize() + 4 < 2^32`, which a caller can compute before the call. Compaction deletes
   the old tables all the same. With the default sizes the target of level 5 is exactly
   2^32 bytes (`Limits.DefaultLevelFive`), so there every table but the last of a
   compaction is of this kind: `Engines.LSMEngine.GenSstFromIter` shows that with such a
   target at most one readable table is made. All theorems about the engine hold up to
   the first such table and say so in their contracts (`HasUnreadable`).
2. **Lost updates at REPEATABLE_READ.** The conflict rule compares versions, and versions
   are start ids. Of two transactions that read and then write the same key, the older
   may commit first and the younger afterwards. `LostUpdates.BothCommit` is such a run.
   `Serials.RepeatableIsSerialWhenFresh` gives the exact condition for seriality in commit
   order, from REPEATABLE_READ on: every commit that went through found the keys it had
   read unchanged. The read validation of SERIALIZABLE ensures it. A run that does not
   meet it may still be serial in another order, for instance when what was read is
   overwritten and only another key is written. A lost update may not:
   `StaleWrites.LostUpdate` shows of every run that once a commit goes through on a key it
   read, whose value has changed since, and writes, no order of the committed transactions
   explains what they read and what is left, if no third one writes the key and the values
   differ; and `StaleWrites.LostIsOlder` that the lost update is that of a smaller id.
3. **A table file can be taken for the other format.** `SST::open` tells the format by the
   last byte and one offset (src/sst/sst.cpp:60-75). `Limits.SomeTableIsMisread` is a
   table whose file is misread, for any hash and any filter: one record of version
   0x4B00000000000000 in a block of exactly 2^16 bytes. `SstOpening.SniffedExactly` says
   which files are misread, and `SstOpening.Reopen` that a table comes back if and only if
   its offsets fit and its file is not one of them.
4. **Documentation.** The repository's README.md:194 and 201 call SERIALIZABLE incomplete. For transactions that use
   single-key get, put and remove only, it is complete: `Serials.Serializability`. The
   comment at src/sst/sst.cpp:40 places the filter before the block table; the code reads
   it behind, and the model follows the code.

## Model

| member | source | states |
|---|---|---|
| Serials.Serializability | src/lsm/transation.cpp:285-469 | in every run in which all transactions are SERIALIZABLE, playing the committed ones one at a time in commit order gives every read the answer it got |
| Serials.SerialResult | src/lsm/transation.cpp:368-469 | and what they leave, one at a time, is what any later read of storage finds, for every key (from REPEATABLE_READ on) |
| Serials.HistoryIsCommitted | src/lsm/transation.cpp:428-469 | the order used lists exactly the committed transactions, each once |
| Serials.AbortedLeaveNothing | src/lsm/transation.cpp:515-592 | a record found in storage, of a transaction of the run, belongs to a committed one: aborted and unfinished ones left nothing (from REPEATABLE_READ on) |
| Serials.RepeatableIsSerialWhenFresh | src/lsm/transation.cpp:366-419 | at REPEATABLE_READ and mixtures of it with SERIALIZABLE the run is serial in commit order if and only if every commit that went through found the keys it had read unchanged |
| Serials.ValidatedIsFresh | src/lsm/transation.cpp:400-419 | the read validation of a SERIALIZABLE commit is that condition |
| LostUpdates.BothCommit | src/lsm/transation.cpp:377-388 | a concrete run at REPEATABLE_READ in which both of two overlapping transactions commit and no order of the two explains what they read (a lost update) |
| StaleWrites.LostIsOlder | src/lsm/transation.cpp:377-388 | when a commit goes through on a key it read and writes though its value has changed, the change was made by a committed transaction with a smaller id |
| StaleWrites.LostUpdate | src/lsm/transation.cpp:377-388 | if those two alone write the key, and leave different values, no order whatever of the committed transactions explains both what they read and what is left |
| StaleWrites.NoOrderExplains | src/lsm/transation.cpp:377-388 | the same of any history in which one of two writers of a key read it without the other's value |
| Transactions.NextFormed | src/lsm/transation.cpp:285-592 | every step keeps: ids below the next id, written records at most those noted, active set = unfinished contexts, rolled-back set = aborted ones, never both committed and aborted |
| Refinements.ChainIsRun | src/lsm/transation.cpp:112-592 | whatever put, remove, get, commit and abort calls on any number of context objects do, in any order and with failing log writes, some run of the step machine does, and ends with the same contexts, manager, log and readable storage |
| Refinements.ObjectsAreSerial | src/lsm/transation.cpp:285-469 | so the serializability theorem holds of the objects: committed contexts, played one at a time, read what they read and leave what the engine now answers |
| Refinements.StepAlike | src/lsm/transation.cpp:112-592 | a step taken on two storages that answer all reads alike leaves two that do, and the same contexts, log and manager |
| SplitSerials.SplitIsWhole | src/lsm/engine.cpp:102-166 | with each get split into its memory step and its table step, in any interleaving with the other transactions and the phases of a flush, above READ_UNCOMMITTED: some run with whole gets ends in the same contexts, log, manager and history |
| SplitSerials.SplitSerializability | src/lsm/engine.cpp:102-166 | so serializability in commit order holds with split gets, and what is left is what any read of memory and tables finds |
| SplitReads.SplitGetIsCommitted | src/lsm/transation.cpp:204-278 | above READ_UNCOMMITTED a split get answers with what a committed transaction left, whatever commits, aborts or is flushed between its steps |
| SplitReads.FlusherGroups | src/lsm/engine.cpp:399-467 | each phase of a flush keeps every group of records, counting the table on its way |
| TranContexts.TranContext.Put | src/lsm/transation.cpp:112-153 | one write step of the machine: refused when over or too long; sent to the log before storage at READ_UNCOMMITTED, staged otherwise |
| TranContexts.TranContext.Remove | src/lsm/transation.cpp:155-201 | the same step with a tombstone and a DELETE record |
| TranContexts.TranContext.Get | src/lsm/transation.cpp:204-278 | own staged write first, then storage under the level's bound and strictness, from REPEATABLE_READ on through the cache of first answers |
| TranContexts.TranContext.PersistPending | src/lsm/transation.cpp:60-107 | sends exactly the records noted and not yet sent; the count moves only when the log has confirmed them |
| TranContexts.TranContext.FindsConflict | src/lsm/transation.cpp:366-419 | found if and only if some staged key has a larger version, or (SERIALIZABLE) some key read no longer answers as first read |
| TranContexts.TranContext.Cancel | src/lsm/transation.cpp:421-429 | a conflict registers the id as rolled back and stores nothing |
| TranContexts.TranContext.ApplyStaged | src/lsm/transation.cpp:450-458 | exactly the staged writes become the newest records of storage, in any order of the keys |
| TranContexts.TranContext.FlushDown | src/lsm/transation.cpp:481-490 | the flushes after a commit change no read and notify the manager of every marker they wrote |
| TranContexts.TranContext.Commit | src/lsm/transation.cpp:285-510 | the whole commit step: conflict, or COMMIT confirmed by the log, then all staged writes and the marker, then registration and flushes; a failed log write stores nothing |
| TranContexts.TranContext.Abort | src/lsm/transation.cpp:515-592 | the abort step: registration as rolled back, staged writes dropped; refused after an earlier attempt to end |
| WriteAheads.StoredIsLogged | src/lsm/transation.cpp:60-469 | in every reachable state each stored record of a transaction has its PUT or DELETE in the log, and a staged one its COMMIT too |
| WriteAheads.SentExactly | src/lsm/transation.cpp:60-107 | an unfinished context has sent exactly its first wal_written_count_ records, once and in order; no context has two ending records in the log |
| ReadSafeties.StrictReadIsCommitted | src/lsm/transation.cpp:888-921 | a strict read never returns a record of a transaction active or rolled back at that moment |
| ReadSafeties.RolledBackIsNeverRead | src/lsm/transation.cpp:878-1024 | once an id is registered as rolled back no later point read, strict or not, returns its records, whatever was settled since |
| ReadSafeties.RolledBackIsNeverScanned | src/lsm/engine.cpp:635-670 | nor does any later scan or range query |
| ReadSafeties.GetIsCommitted | src/lsm/transation.cpp:204-278 | above READ_UNCOMMITTED what storage or the cache answers a get was written by a committed transaction |
| ReadSafeties.ReadsRepeat | src/lsm/transation.cpp:238-278 | from REPEATABLE_READ on a key once read answers the same until the transaction ends, whatever others commit |
| TranManagers.CheckpointMeaning | src/lsm/transation.cpp:925-1024 | the ids up to the first element of the flushed set plus its later elements are exactly the settled ones; the checkpoint never passes an unsettled id; the set equals the stand-alone compression of all settled ids |
| Settlements.CheckpointOfRuns | src/lsm/transation.cpp:925-1024 | the same over runs of the whole system: settled is a transaction that had committed when its own notification came, or had rolled back when one of any id from its own on came |
| Settlements.CheckpointNeverFalls | src/lsm/transation.cpp:925-1024 | along every run of the system the checkpoint does not move back |
| TranManagers.RunGrows | src/lsm/transation.cpp:925-1024 | the checkpoint never moves back and the rolled-back set never shrinks |
| TranManagers.RolledBackStays | src/lsm/transation.cpp:925-1024 | an id that ended as rolled back stays in the rolled-back set after every later notification |
| TranManagers.CompressMeaning | include/utils/set_operation.h:5-27 | compression keeps what the set covers and leaves no two adjacent elements at its front |
| TranManagers.CompressedUnique | include/utils/set_operation.h:5-27 | a compressed set is determined by what it covers |
| TranManagers.CompressSet | include/utils/set_operation.h:5-27 | the loop computes that compression |
| TranManagers.CompressInPlace | src/lsm/transation.cpp:999-1014 | the in-place form used when the checkpoint advances computes the same |
| TranManagers.SweptMeaning | src/lsm/transation.cpp:966-1024 | a notification removes exactly the swept entries, covers exactly their ids in addition, and does not move the checkpoint back |
| TranManagers.RegisterMeaning | src/lsm/transation.cpp:925-956 | registering replaces an entry of the same id and touches no other |
| TranManagers.TranManager.NewTranc | src/lsm/transation.cpp:1048-1080 | hands out the next id and registers it as active |
| TranManagers.TranManager.ShouldSkipRead | src/lsm/transation.cpp:888-921 | skips exactly the rolled-back ids, and in strict reads the active ones too |
| TranManagers.TranManager.AddReadyToFlush | src/lsm/transation.cpp:925-956 | an ended transaction leaves the active set and joins the ready table, a rolled-back one the rolled-back set |
| TranManagers.TranManager.AddFlushed | src/lsm/transation.cpp:966-1024 | a notification settles the id if registered and sweeps the rolled-back ids below; new state as a function of the old |
| TranManagers.TranManager.WriteTrancIdFile | src/lsm/transation.cpp:676-757 | the file holds the whole state; refused only without an id to save |
| TranManagers.TranManager.ReadTrancIdFile | src/lsm/transation.cpp:763-876 | a rejected file leaves the manager as it was; an accepted one is the image of a sound state and restores it; what was saved comes back |
| TranManagers.TranManager.Checkpoint | src/lsm/transation.cpp:1039-1042 | every id up to it is covered |
| TranManagers.TranManager.MaxFlushed | src/lsm/transation.cpp:1034-1037 | the largest id of the set |
| TranManagers.TranManager.InitNewWal | src/lsm/transation.cpp:638-653 | a new log starts from the baseline next-1 |
| TranFiles.Write | src/lsm/transation.cpp:676-757 | the state file is the word image of next id, flushed, ready and rolled-back ids, in any enumeration order of the latter |
| TranFiles.Read | src/lsm/transation.cpp:763-876 | accepts exactly the images of sound states: wrong length, counts, order, state codes and duplicates are rejected without arithmetic that could wrap |
| Engines.LSMEngine.FullCompact | src/lsm/engine.cpp:682-750 | whenever it returns, the recursive call on the next level included, the records of each key and version and their order of precedence are as before, so every read is; terminates for any ratio of at least 1 |
| Engines.LSMEngine.CompactOne | src/lsm/engine.cpp:682-750 | one level into the next; on a limit of the block format nothing is removed |
| Engines.LSMEngine.Swap | src/lsm/engine.cpp:711-742 | the tables of both levels leave, the new ones take their place |
| Compactions.ReplacedKeepsAll | src/lsm/engine.cpp:711-742 | replacing two levels by the tables of their merge keeps the storage sound and every group of records in its order |
| Compactions.StartTop | src/lsm/engine.cpp:754-797 | the merge over level 0 gives every record of every table, in order, equal ones newest table first |
| Compactions.StartCombine | src/lsm/engine.cpp:754-828 | the merge of two levels gives every record of both, the upper level first among equals |
| Mvcc.SameGroupsSameBest | src/lsm/engine.cpp:258-310 | the same groups give the same answer to every read, for every key, bound and rolled-back set |
| Mvcc.BestMeaning | src/lsm/engine.cpp:225-251 | the answer is the largest eligible version, the newest source first among equals, and absent exactly when nothing is eligible |
| Engines.LSMEngine.GenSstFromIter | src/lsm/engine.cpp:832-915 | the tables concatenate to exactly the stream, no key is split across two, none is empty, key ranges are disjoint and increasing, ids consecutive; with a target of 2^32 at most one readable table is made |
| Engines.IssuesReplaced | src/lsm/engine.cpp:711-742 | the tables of a compaction have ids given out during it, and the others are what they were; every engine call promises the same of itself (Issues) |
| Engines.LSMEngine.Flush | src/lsm/engine.cpp:399-467 | the oldest memory table becomes a table in front of level 0 and leaves memory; no record lost or doubled, no read changed, also when it fails; reports the markers written |
| Engines.LSMEngine.MakeRoom | src/lsm/engine.cpp:409-416 | a full level 0 is compacted first, changing no read |
| Engines.PushedFront | src/lsm/engine.cpp:447-450 | a new table in front of level 0 keeps the storage sound and puts its records before all others |
| Engines.LSMEngine.Put | src/lsm/engine.cpp:313-325 | for every read the new record is put in front of what was stored, whatever the flush it triggers does |
| Engines.LSMEngine.Remove | src/lsm/engine.cpp:344-354 | the same with a tombstone |
| Engines.LSMEngine.PutBatch | src/lsm/engine.cpp:328-341 | the same for all pairs in order, under one version |
| Engines.LSMEngine.RemoveBatch | src/lsm/engine.cpp:357-368 | the same for tombstones |
| Engines.LSMEngine.Get | src/lsm/engine.cpp:102-166 | equals the linear answer over memory and all levels; a winning tombstone means absent |
| Engines.LSMEngine.GetBatch | src/lsm/engine.cpp:171-223 | pointwise get |
| Storages.SstGet | src/lsm/engine.cpp:258-310 | level 0 table by table, then one table of each deeper level: equals a linear scan of everything on disk |
| Storages.UpdateBest | src/lsm/engine.cpp:225-251 | a strictly larger version replaces the candidate |
| Storages.GetInDeep | src/lsm/engine.cpp:276-300 | the binary search over a level misses no record of the key |
| Storages.LevelDecides | src/lsm/engine.cpp:276-300 | one comparison with a table's first and last key decides all tables on one side |
| Engines.LSMEngine.Scan | src/lsm/engine.cpp:635-679 | gives, in strictly increasing key order, exactly the keys a point read answers, with its record |
| Engines.LSMEngine.RangeQuery | src/lsm/engine.cpp:479-632 | gives exactly that of the keys the monotone predicate selects |
| Scans.ScanAgreesWithReads | src/lsm/level_iterator.cpp:14-203 | a key is in the scan if and only if a read of it answers, and with the same record |
| Scans.RangeIsSelectedScan | src/lsm/engine.cpp:479-632 | the range query is the scan restricted to the predicate |
| Scans.FullScan | src/lsm/level_iterator.cpp:14-203 | the scan over memory, level 0 and the deeper levels, whatever they hold |
| Engines.LSMEngine.constructor | src/lsm/engine.cpp:30-96 | an empty engine is sound (every later call can be made) and stores nothing |
| FlushRaces.ReadMissesNothing | src/lsm/engine.cpp:143-158 | with the memory step and the table step of a get anywhere among the six phases of a flush and other writes, the get finds each version stored at its beginning or a newer one |
| FlushRaces.RunKeeps | src/lsm/engine.cpp:399-467 | in every interleaving a version once stored stays in memory or in the tables or on its way there, and never comes back out of the tables |
| FlushRaces.TablesFirstMisses | src/lsm/engine.cpp:143-158 | the opposite order of the two steps would miss records: a run that shows it |
| FlushRaces.WholeFlush | src/lsm/engine.cpp:399-467 | the six phases without interference do what Engines.LSMEngine.Flush promises |
| MemTables.MemTable.Put | src/memtable/memtable.cpp:44-61 | the record is the newest of memory for every read; a full table is frozen |
| MemTables.MemTable.PutBatch | src/memtable/memtable.cpp:66-83 | the same for all pairs in order |
| MemTables.MemTable.RemoveBatch | src/memtable/memtable.cpp:326-341 | the same for tombstones |
| MemTables.MemTable.Get | src/memtable/memtable.cpp:177-235 | equals the linear answer over the current and all frozen tables; the marker's empty key is never given |
| MemTables.MemTable.FrozenGet | src/memtable/memtable.cpp:104-145 | newest frozen table first, a strictly larger version replaces |
| MemTables.MemTable.GetBatch | src/memtable/memtable.cpp:244-302 | pointwise get |
| MemTables.MemTable.FreezeCurrent | src/memtable/memtable.cpp:445-468 | the current table becomes the newest frozen one unless empty; records and their order stay |
| MemTables.MemTable.FlushLast | src/memtable/memtable.cpp:371-436 | the oldest table's records are those of the new file, and leave memory only if there is one; its markers are exactly the file's |
| MemTables.MemTable.Gather | src/memtable/memtable.cpp:511-724 | the queue behind begin, prefix and predicate iterators gives, of every chosen key, what a read finds in memory |
| MemTables.MemTable.NothingBySize | src/memtable/memtable.cpp:503-507 | total size 0 means no records |
| MemTables.BuildTable | src/memtable/memtable.cpp:406-420 | a builder given all records in order makes a table of exactly them, or one that cannot be read, which the size before building tells |
| SkipLists.SkipList.Put | src/skiplist/skipList.cpp:102-170 | for every admissible height: all levels stay ordered sublists with inverse links, sizes exact; insert-or-replace on the records |
| SkipLists.SkipList.Remove | src/skiplist/skipList.cpp:220-254 | takes out the newest version only, on every level |
| SkipLists.SkipList.Get | src/skiplist/skipList.cpp:174-215 | the descent finds the largest eligible version |
| SkipLists.SkipList.Locate | src/skiplist/skipList.cpp:117-134 | the walk finds the place of the key, and on each level the last node before it |
| SkipLists.SkipList.Flush | src/skiplist/skipList.cpp:257-271 | every record in order |
| SkipLists.SkipList.BeginPrefix | src/skiplist/skipList.cpp:296-311 | the first node not below the prefix |
| SkipLists.SkipList.EndPrefix | src/skiplist/skipList.cpp:314-337 | the first node past every key with the prefix |
| SkipLists.SkipList.ItersMonotonyPredicate | src/skiplist/skipList.cpp:351-395 | exactly the stretch of nodes a monotone predicate selects |
| SkipLists.PrefixRange | src/skiplist/skipList.cpp:314-337 | the keys from a prefix up to its successor are exactly those that start with it, bytes 255 included |
| SkipLists.UpsertMeaning | src/skiplist/skipList.cpp:136-169 | put replaces the one record of its key and version and changes no other |
| SkipLists.RemoveMeaning | src/skiplist/skipList.cpp:220-254 | removing takes out the version an unbounded read finds and changes no other |
| SkipLists.UpsertStrict | src/skiplist/skipList.cpp:102-170 | put keeps the order key ascending, version descending |
| SkipLists.UpsertBest | src/skiplist/skipList.cpp:102-215 | for every read a put is a record in front of what was there |
| SkipLists.ColumnInserted | src/skiplist/skipList.cpp:156-167 | splicing a node into one level leaves forward and backward links inverse to each other |
| SkipLists.ColumnDropped | src/skiplist/skipList.cpp:241-250 | so does taking it out |
| Crc32.Compute | src/block/block.cpp:16-29 | the bit loop computes the CRC-32 fold (section 8 of RFC 1952) |
| Crc32.StepInjective | src/block/block.cpp:16-29 | one step is a bijection of states for a fixed byte and of bytes for a fixed state |
| Crc32.OneByteDetected | src/block/block.cpp:16-29 | a change of exactly one byte always changes the checksum |
| Blocks.DamageDetected | src/block/block.cpp:80-144 | an image changed in exactly one byte, trailer included, is rejected |
| Blocks.UnsealedOfSealed | src/block/block.cpp:31-144 | an image decodes back to the same data and offsets |
| Blocks.Decode | src/block/block.cpp:80-144 | the decoder's loop is the function those two are about |
| Blocks.Block.Encode | src/block/block.cpp:31-78 | the encoder's loop is its partner; more than 65535 entries are refused |
| Blocks.Block.AddEntry | src/block/block.cpp:171-245 | adds the entry behind the others, or says that the block is full or a 16-bit limit is exceeded, and then changes nothing |
| Blocks.EntryAt | src/block/block.cpp:249-355 | every entry reads back as its key, value and version at the place the offset table gives |
| BlockSearch.GetIdxBinary | src/block/block.cpp:447-488 | binary search, back to the head of the key's versions, then the first eligible one: what a linear scan of the block chooses |
| BlockSearch.AdjustIdx | src/block/block.cpp:366-410 | from any entry of a key to the first version the read may see |
| BlockSearch.SelectRange | src/block/block.cpp:523-588 | exactly the stretch of entries a monotone predicate selects |
| Bloom.PossiblyContains | src/utils/bloom_filter.cpp:84-93 | asks exactly the bits of the key |
| Bloom.BloomFilter.Add | src/utils/bloom_filter.cpp:70-81 | no false negatives: the key is in, and all that were stay in |
| Bloom.Encode | src/utils/bloom_filter.cpp:133-179 | the header and the packed bits, eight to a byte |
| Bloom.Decode | src/utils/bloom_filter.cpp:182-251 | every encoded filter comes back; what is accepted is well-formed and of its stated length |
| SstMeta.EncodeTable | src/block/blockmeta.cpp:16-70 | the byte form of the block table |
| SstMeta.DecodeTable | src/block/blockmeta.cpp:74-134 | every table that fits its widths comes back; a wrong hash is rejected |
| SstBuilders.SSTBuilder.Add | src/sst/sst.cpp:334-405 | the record joins those taken so far, in a block whose names and bounds stay right, or a limit of the block format is reported |
| SstBuilders.SSTBuilder.FinishBlock | src/sst/sst.cpp:414-438 | the open block is sealed under its first and last key |
| SstBuilders.SSTBuilder.Build | src/sst/sst.cpp:445-524 | fails only when empty; the table stores exactly the records given to it if and only if blocks and last checksum take less than 2^32 bytes |
| SstBuilders.Outgrown | src/sst/sst.cpp:469-475 | no table whose blocks take 2^32 bytes or more stores any list of records |
| Ssts.Get | src/sst/sst.cpp:200-225 | range check, filter, block search and in-block search equal a linear scan of the records given to the builder, for every key, bound and rolled-back set |
| Ssts.FindBlockIdx | src/sst/sst.cpp:160-194 | no other block holds the key |
| Ssts.ReadBlock | src/sst/sst.cpp:113-157 | the block at an index, decoded from exactly its stretch of the file, or an error |
| Ssts.StoresUnique | src/sst/sst.cpp:445-524 | a table stores one list of records only |
| SstOpening.Reopen | src/sst/sst.cpp:30-108 | reopening gives the table that was built if and only if its offsets fit 32 bits and the file's last bytes do not pass for the longer footer |
| SstOpening.SniffedExactly | src/sst/sst.cpp:55-75 | the file passes for the longer footer if and only if the top byte of the largest version is 0x4B and four known bytes before and in the footer make a number inside the file |
| SstOpening.SniffedTopByte | src/sst/sst.cpp:55-75 | in particular only if the top byte of the largest version is 0x4B |
| Limits.SomeTableOutgrows | src/sst/sst.cpp:445-524 | for any hash and any filter kept: records within every checked limit whose table cannot be read |
| Engines.UnreadableIsNoStorage | src/lsm/engine.cpp:711-742 | a storage with such a table among its levels is not sound |
| Limits.DefaultLevelFive | src/lsm/engine.cpp:917-925 | with the default sizes the target of level 5 is exactly 2^32 bytes |
| Limits.SomeTableIsMisread | src/sst/sst.cpp:55-75 | for any hash and any filter kept: a readable table whose file passes for the longer footer |
| TableIterators.SkipHidden | src/block/block_iterator.cpp:160-198 | stops at the first shown entry and hides nothing else |
| TableIterators.NextInBlock | src/block/block_iterator.cpp:76-103 | one step leaves exactly the rest of what the block shows |
| TableIterators.SeekFirst | src/sst/sst_iterator.cpp:134-176 | starts with all the table shows, empty blocks skipped |
| TableIterators.NextInTable | src/sst/sst_iterator.cpp:251-289 | one step leaves exactly the rest |
| TableIterators.StartLevel | src/sst/concact_iterator.cpp:8-33 | a level's tables one after the other |
| TableIterators.NextInLevel | src/sst/concact_iterator.cpp:36-69 | one step leaves exactly the rest, across tables |
| TableRanges.SelectInTable | src/sst/sst_iterator.cpp:19-96 | begin and end of exactly the shown records a monotone predicate selects |
| Heaps.Push | src/iterator/iterator.cpp:13-27 | the queue holds the items in pop order: key, then version descending, then source |
| Heaps.Settle | src/iterator/iterator.cpp:50-79 | construction leaves hidden versions and deleted keys behind |
| Heaps.HeapNext | src/iterator/iterator.cpp:102-133 | one step leaves exactly the rest of what is shown, one record per key or all versions |
| Merges.MergeTables | src/sst/sst_iterator.cpp:373-390 | the queue over several tables holds their records, equal ones newest table first |
| Merges.ChooseA | src/lsm/two_merge_iterator.cpp:33-49 | takes from the first source on a smaller key, a larger version, or a tie |
| Merges.MergeNext | src/lsm/two_merge_iterator.cpp:81-111 | one step leaves exactly the rest of the merge |
| Merges.MergedOrdered | src/lsm/two_merge_iterator.cpp:33-111 | keeping all versions, the merge emits every record of both, in order |
| Merges.MergedGroups | src/lsm/two_merge_iterator.cpp:33-111 | and the first source's records before the second's on equal key and version, duplicates included |
| LevelScans.MinChild | src/lsm/level_iterator.cpp:125-153 | the child with the least key, then the largest version, then the first |
| LevelScans.SkipKey | src/lsm/level_iterator.cpp:159-166 | moves every child past one key |
| LevelScans.Advance | src/lsm/level_iterator.cpp:181-203 | passes tombstones and the versions below them |
| LevelScans.ScanAll | src/lsm/level_iterator.cpp:14-203 | the walk over all children gives each live key once, in order |
| WalRecords.Decode | src/wal/record.cpp:202-302 | accepts exactly the concatenations of proper records, and gives back the records |
| WalRecords.PrefixAtBoundary | src/wal/record.cpp:202-302 | a cut log is accepted only at a record boundary: a torn tail is never read as a record |
| WalRecords.Encode | src/wal/record.cpp:148-200 | the byte form the two are about |
| WalRecords.PutRecord | src/wal/record.cpp:74-110 | made exactly when the 16-bit length allows it |
| WalRecords.DeleteRecord | src/wal/record.cpp:113-146 | the same for removals |
| WalLogs.WAL.constructor | src/wal/wal.cpp:20-84 | a new log starts a file of its own behind what is in the directory |
| WalLogs.WAL.Log | src/wal/wal.cpp:164-234 | the records join the history; forced, they are in the files; after a failure nothing is appended any more |
| WalLogs.WAL.ResetFile | src/wal/wal.cpp:376-421 | goes on in the next number, never over an existing file |
| WalLogs.WAL.CleanWALFile | src/wal/wal.cpp:286-374 | removes only older files all of whose records the checkpoint covers, and changes no other |
| WalLogs.WAL.SetCheckpoint | src/wal/wal.cpp:158-161 | only the checkpoint changes |
| WalLogs.WAL.NothingAboveLost | src/wal/wal.cpp:164-421 | in every state the records above the highest checkpoint in surviving files and buffer are those of the whole history, once and in order |
| WalLogs.WAL.FilesHoldRecords | src/wal/wal.cpp:164-421 | without a failure the surviving files in order are, byte for byte, the history less whole files |
| BlockCaches.BlockCache.Get | src/block/block_cache.cpp:17-44 | the image last put under the key, if it was not evicted; a hit counts as a use |
| BlockCaches.BlockCache.Put | src/block/block_cache.cpp:47-105 | a present block counts as used and is not replaced; otherwise the victim makes room |
| BlockCaches.BlockCache.UpdateAccessCount | src/block/block_cache.cpp:115-140 | the item moves to the front of the list it now belongs to |
| BlockCaches.BlockCache.Indexed | src/block/block_cache.cpp:17-105 | the index finds a key exactly if a list holds it, and finds that item |
| BlockCaches.BlockCache.InItsList | src/block/block_cache.cpp:115-140 | entries below K accesses are in the cold list only, the others in the hot list only |
| BlockCaches.TouchSound | src/block/block_cache.cpp:115-140 | an access keeps size, distinct keys, the split at K and the order of last use in both lists |
| BlockCaches.InsertSound | src/block/block_cache.cpp:97-105 | so does an insertion where there is room |
| BlockCaches.EvictsLeastRecent | src/block/block_cache.cpp:78-95 | the victim is the cold entry unused longest, else the hot one; every other block stays |
| BlockCaches.RoomSound | src/block/block_cache.cpp:78-95 | eviction from a full cache makes room and keeps all that |
| BlockCaches.ReadSound | src/sst/sst.cpp:113-157 | asking for a block keeps the lists sound and every cached block true |
| BlockCaches.MirrorsMore | src/block/block_cache.cpp:17-44 | more tables make no cached block wrong as long as those there stay what they are |
| CacheRuns.EngineKeeps | src/lsm/engine.cpp:418-420 | and they do: the engine's calls give no id out twice |
| CacheRuns.HitsAreTrue | src/block/block_cache.cpp:17-105 | over every run of engine calls and cached reads from an empty cache, a cached block is what the file of its table holds |
| BlockCaches.ReadThrough | src/sst/sst.cpp:113-157 | a block read through the cache equals the block decoded from the file, hit or not |

## Left out

- Range reads inside transactions: the contexts have none, and the repository states that predicates are not validated (src/lsm/transation.cpp:396-399).
- Serials.Serializability: for runs of SERIALIZABLE transactions; those from REPEATABLE_READ on have the condition of Serials.RepeatableIsSerialWhenFresh, and READ_COMMITTED and READ_UNCOMMITTED the read-safety and write-ahead theorems only.
- What the program does after a table has outgrown its offsets: the methods then promise only that such a table is there (`HasUnreadable`), and TranContext reports `Err(Oversize)` where the program returns normally.
- Engines.LSMEngine.Get: for non-empty keys, as the repository's README.md:178 asks of callers; the same holds of GetBatch, SstGet, Ssts.Get and the context methods. The empty key is the transaction marker's.
- SstMeta.DecodeTable: an entry that runs past the end is `Truncated`, where the program reads beyond its buffer.
- Engines.LSMEngine.FullCompact: levels are a sequence without gaps, where the program has a map that grows by touching; file deletion and the orphan files of a failed compaction are not modelled.
- FlushRaces.ReadMissesNothing: steps are atomic at lock boundaries; reads with one answer of the manager per step, all other methods with one answer for the whole call.
- Refinements.ChainIsRun: each method of a context is one atomic step. A commit is one in the program too, under the locks of memory and tables; that the two steps of a get make no difference above READ_UNCOMMITTED is SplitSerials.SplitIsWhole; the write of a READ_UNCOMMITTED context, log first and then memory, is one step.
- Refinements.ObjectsAreSerial: the same.
- SplitSerials.SplitIsWhole: not for runs with READ_UNCOMMITTED contexts, whose gets see writes that may be rolled back between the two steps; of the stricter gets beside them SplitReads.SplitGetIsCommitted still holds.
- Heaps.Push: the priority queue is a sequence in pop order; the heap inside std::priority_queue is not modelled.
- Heaps.Settle: not for keeping all versions while skipping deleted keys, a combination no path of the program uses.
- Heaps.HeapNext: the same.
- TableRanges.SelectInTable: for predicates that put the empty key to their left, as the engine's wrapper makes every predicate do (src/lsm/engine.cpp:479-632).
- TranManagers.TranManager.InitNewWal: the new baseline only; removing the old log files is left out, and the new log is WalLogs.WAL.constructor.
- Engines.LSMEngine.constructor: an empty directory only.
- Engines.LSMEngine.SstGet: reads blocks from the file; that reading them through the cache gives the same is BlockCaches.ReadThrough and CacheRuns.HitsAreTrue.
- Bloom.BloomFilter.constructor: the floating-point sizing is a parameter, any positive outcome; so is std::hash, an uninterpreted function everywhere.
- BlockCaches.BlockCache.Get: the hit rate is the two counters; their floating-point quotient is left out, and so are null blocks.
- SkipLists.SkipList.Get: one walk (`Descend`) models the walk of get; put and remove share `Locate`, which remembers each level's last node. Random heights are parameters.
- WalLogs.WAL.Log: a write that fails leaves any prefix of the bytes behind; the background cleaner is the method `CleanWALFile`, called at any time. The log belongs to the manager in the program and is a field of the context here.
- WalLogs.WAL.CleanWALFile: read, decoding and removal failures are one arbitrary choice per file.
- Crash recovery, which the repository leaves unimplemented, and the engine's scan of its directory.
- Value separation (VLog, the longer footer's write side), whose value functions are stubs.
- LSM::put, get and their batches outside transactions are engine calls with a fresh id; they are proved for the engine (`Engines`) and are not steps of the transaction machine.
- Expired managers and missing caches (null pointers), allocation failures, the test switches of commit and abort, need_rollback_log, and ids past 2^64.
- Threads and mutexes as such, the Redis layer, server, configuration, logging, bindings and the visualiser.
