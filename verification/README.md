# The storage engine of the NetWare volume, modelled and proved in Dafny

The project models the layers under a NetWare volume as the Linux utility build of the driver runs them (`LINUX_UTIL` = 1,
uncached FAT tables, one dirty list, hashed FAT chains, blocks of 4096 bytes, 32-bit unsigned words):

| file | what it models | main results |
|---|---|---|
| `BitBlocks.dfy` | the bitmap kept as a list of byte chunks | it is a boolean sequence, grown and shrunk; the word-skipping scan finds the first run |
| `FatTable.dfy` | FAT entries in two mirrored copies, scattered over clusters and found by a hash | a flat table; the mirror gives the same answer, and stays in step with the primary over every run of calls that report no error |
| `Chains.dfy`, `VolumeState.dfy`, `Volume.dfy` | chains, allocation, freeing, relinking | bitmap, FAT, counters and hints stay in step over every run |
| `MarkSweep.dfy` | the mount-time passes over the FAT | termination on any FAT; marking succeeds exactly if the chains are complete and apart, and the sweep after it is exact |
| `TruncSpec.dfy`, `TruncOutcome.dfy`, `Truncate.dfy`, `Suballoc.dfy` | truncation of a sparse chain with an optional suballocated tail, record writes that grow their own chains included | every byte at a position below the new size stays, exactly when; what lies past the cut is freed, and exactly when a record is lost |
| `FileMap.dfy` | the map from file offsets to volume blocks | the block and offset answered hold that byte of the file, and truncation does not move what it keeps |
| `LruStates.dfy`, `LruProtocol.dfy`, `LruRecency.dfy` | the write-back block cache as steps between taking and giving up its lock | coherence and list structure over every interleaving; the victim is the block whose last use is longest ago |
| `LruCache.dfy`, `ClusterIo.dfy` | the routines of the cache in the build without threads, and cluster reads and writes over it | each routine is a run of the steps; a cluster is a flat byte array; when a transfer cannot fail, the first one of an empty cache included |
| `AsyncQueue.dfy` | the asynchronous request queue | hinted insertion into a doubly linked list, and exactly when it keeps the order; every request is completed exactly once, whatever arrives while a drain is at work, and over every interleaving of drains and submissions |
| `ParentHash.dfy` | the parent hash and directory enumeration | an enumeration of a changing directory is exact over the records, call by call, exactly while the numbers are below 0xFFFFFFFD |
| `Dates.dfy` | calendar conversion | exact round-trip conditions |

`Words.dfy` and `ChunkMath.dfy` hold machine words and the arithmetic of equal chunks. `dafny verify dfyconfig.toml` checks
everything.

Disk reads and writes, memory allocation, and the wish of a caller to take another directory entry are nondeterministic
choices. Fields and constants named `flaky`, `reliable`, `Reliable()` say where an I/O error can happen, so that a contract can
say what holds with errors and what holds without.

Where the code does not do what its comments, its names or its callers suggest, the code is followed:

* The comment at `date.c:102-113` says that stored dates cover 1980 to 2079. The packed form covers 1980 to 2047 only:
  `Dates.PackRoundTrip`, `Dates.SystemRoundTrip`.
* `suballoc.c:738-795` marks a record a second time without complaint.
* A record that ends a chain is not freed when the chain is cut inside its last cluster and that cluster is kept
  (`cluster.c:351-365`). `TruncOutcomes.TailLeaks` says exactly when this can and when it must happen, by the chain and the size
  alone; `TruncOutcomes.LeakingCut` is such a cut.
* After a short read or write of a cluster `NWReadFile` and `NWWriteFile` go on in the next one, and what is then still missing
  from a read is filled with zeros and counted (`nwfile.c:366-391`, `nwfile.c:502-513`, `nwfile.c:602-653`); truncation looks at
  the counts alone. So a record that replaces a partial cluster or a larger record can hold other bytes than it should after an
  I/O error: `TruncOutcomes.BytesKeptWhen` gives the exact condition for the file's first bytes to stay.
* A child numbered 0xFFFFFFFE gets the cookie of the second dot, and one numbered 0xFFFFFFFD a position past 32 bits, which the next
  call reads as 0 (`dir.c:298`, `dir.c:343-345`): `ParentHashes.CookieOfHighest`. The next call then lists dots and children again,
  and so does every later one: `ParentHashes.CookieResumes`, `ParentHashes.DirectoryHash.CallAgain`.
* For two local days, 1 January 1970 and 1 January 1974, `date.c:205-218` computes a 32nd of December: `Dates.DayFits`.
* Freeing a suballocation record pulls the search index of its bin back, but not for record 0 (`suballoc.c:838-840`), which is then
  not found again, and a bin at its limit is refused with record 0 free: `Suballoc.SuballocPool.RefusedIsFull`.
* A bitmap made shorter keeps its bits in the last chunk, and shows them again when it grows (`bit.c:231-259`):
  `BitBlocks.BitBlockList.GrowsClear`. A list shrunk to no chunk at all is left with its head on a freed one.
* After an I/O error an allocation reports failure with the cluster left marked in the bitmap (`cluster.c:1301-1318`), and
  FreeClusterNoFlush reports success with the FAT entry left as it was (`cluster.c:773-781`).
* When `LRUBlocks` has reached its maximum the free list is not used either (`lru.c:1397-1412`).

## Model

| member | source | states |
|---|---|---|
| BitBlocks.PutBitEffect | bit.c:432-433 | writing one bit of a byte reads back and leaves the other seven alone |
| BitBlocks.BitOrder | bit.c:432-433 | bit k of a byte is the one of weight 2 to the k |
| BitBlocks.BufferBitsPut | bit.c:432-433 | the same for a whole buffer as a sequence of bits |
| BitBlocks.FlatAt | bit.c:388-403 | bit i of chunk k is bit k * entries + i of the whole list |
| BitBlocks.FlatPut | bit.c:420-436 | changing a bit of a chunk changes that one bit of the whole list |
| BitBlocks.BitBlockList.CreateBitBlockList | bit.c:104-165 | a new list of any limit reads as that many zeros; fails only for a block size of 0 |
| BitBlocks.BitBlockList.InsertBitBlockByValue | bit.c:265-305 | the chunk goes before the first one with an index as high |
| BitBlocks.BitBlockList.AdjustBitBlockList | bit.c:186-263 | old bits stay as far as the remaining chunks reach, what is beyond them is clear, across chunks or within the last one, growing or shrinking; usable afterwards unless shrunk to no chunk |
| BitBlocks.BitBlockList.GrowsClear | bit.c:200-259 | growing appends zeros exactly if what an earlier shrinking left in the last chunk is clear |
| BitBlocks.BitBlockList.GetBitBlockValue | bit.c:378-408 | the bit at the index, or the failure value past the limit |
| BitBlocks.BitBlockList.SetBitBlockValue | bit.c:410-441 | the list with that one bit changed, and nothing past the limit |
| BitBlocks.BitBlockList.SetBitBlockValueWithRange | bit.c:443-497 | exactly the bits of the range below the limit are set, across chunks; success exactly if the range fits |
| BitBlocks.BitBlockList.ScanBitBlockValueWithIndex | bit.c:560-769 | the least start at or after the index of a run of wanted bits inside one chunk, though whole words are skipped; failure exactly if there is none |
| BitBlocks.FirstRunMeans | bit.c:560-769 | what that is, written out: the least start of so many equal bits between two multiples of the chunk size; -1 exactly if there is none |
| BitBlocks.BitBlockList.ScanAndSetBitBlockValueWithIndex | bit.c:771-999 | the same run, and exactly its bits are flipped |
| FatTables.EntryRoundTrip | fat.c:854-879 | an entry stored as eight bytes reads back |
| FatTables.EntryBytes | fat.c:854-879 | the eight bytes are the index, then the link, each with its low byte first |
| FatTables.TableAt | fat.c:942-972 | entry o of FAT block b is entry b * per + o of the flat table |
| FatTables.TablePut | fat.c:852-861 | writing an entry's bytes in its block changes that one entry of the flat table |
| FatTables.ClusterStore.ReadClusterWithOffset | cluster.c:1753-1914 | the bytes of the range, or fewer with an error; bad arguments are refused |
| FatTables.ClusterStore.WriteClusterWithOffset | cluster.c:1916-2089 | exactly the range changes, or a prefix of it ending at a block boundary with an error |
| FatTables.FatTable.AddToFATHash | fat.c:1430-1462 | the element goes to the end of its bucket and is found there |
| FatTables.FatTable.CreateFatLRU | fat.c:886-927 | a further FAT block extends the flat table and its mirror by that block's entries |
| FatTables.FatTable.Lookup | fat.c:946-995 | the bucket search finds the one element of the block, if it is there |
| FatTables.FatTable.GetFatEntryAndLRU | fat.c:1000-1077 | the flat table's entry, by either copy, with the element it came from; nothing past the mounted clusters |
| FatTables.FatTable.WriteFATEntry | fat.c:842-884 | success means both flat copies changed at that cluster and nowhere else; a failed copy leaves its table alone; copies in step stay in step exactly if it succeeds or changes nothing |
| FatTables.FatTable.FallbackAgrees | fat.c:1038-1068 | while the copies are in step a read that falls back to the mirror gives the primary's entry |
| Chains.ChainUnique | cluster.c:961-1003 | a chain is determined by its head |
| Chains.ChainAcyclic | cluster.c:961-1003 | a chain that ends visits no cluster twice |
| Chains.ChainFrame | cluster.c:494-498 | a chain disjoint from the clusters written stays a chain |
| Chains.ChainsMeet | cluster.c:961-1003 | two chains that share a cluster share everything from there on |
| Chains.FreeKeepsAgreement | cluster.c:1085-1108 | freeing keeps bitmap, FAT and counters in step exactly if the cluster was allocated |
| Chains.AllocateKeepsAgreement | cluster.c:1303-1323 | allocating a clear bit keeps them in step exactly if the new link is not zero |
| Chains.RelinkKeepsAgreement | cluster.c:1160-1177 | relinking keeps them in step exactly if the link is nonzero just where the bit is set |
| VolumeStates.FreeSound | cluster.c:1077-1112 | freeing keeps everything sound, the allocation hints included, exactly for an allocated cluster |
| VolumeStates.TakeSound | cluster.c:1259-1323 | so does allocating, exactly for a nonzero link or when nothing was found |
| VolumeStates.TakeKeepsChain | cluster.c:1268-1323 | an allocation leaves a chain of allocated clusters alone exactly if it does not take the free cluster the chain ends in |
| VolumeStates.RelinkSound | cluster.c:1151-1179 | and relinking |
| VolumeStates.NotFoundIsFull | cluster.c:1268-1287 | allocation finds nothing exactly if no cluster is free from the earliest of its three starting points on, and then changes nothing |
| VolumeStates.PickedInTurn | cluster.c:1268-1287 | a free cluster at or after the hint is taken first, the least one; only without one is the segment's start tried, and only then the first segment's |
| VolumeStates.TurnsPass | cluster.c:1289-1299 | allocations go round the segments: after n of them the turn has moved on n segments |
| VolumeStates.LoweredAt | cluster.c:566-587 | a freed cluster below the hint of its segment becomes that hint; no other hint changes |
| VolumeStates.RunsStaySound | cluster.c:1077-1455 | bitmap, FAT, counters and hints stay in step over every run of allocations, frees and relinks |
| Suballoc.SuballocPool.AllocateSuballocRecord | suballoc.c:494-708 | the first free record from the search index on, in the least bin that holds the size; with memory, 0 exactly if there is no suballocation, the size is too big, or the bit list must grow and is at its limit |
| Suballoc.SuballocPool.RefusedIsFull | suballoc.c:531-640 | only a bin of the greatest length with its records in use is refused, record 0 and the last one aside |
| Suballoc.SuballocPool.SetSuballocListValue | suballoc.c:738-795 | marks a known record, marked before or not |
| Suballoc.SuballocPool.FreeSuballocRecord | suballoc.c:797-845 | a known record is no longer in use, and the search index is pulled back to just before it unless it is record 0 |
| Suballoc.SuballocPool.ReadSuballocRecord | suballoc.c:860-926 | as many bytes as the record has and the caller wants; they are the record's if nothing fails |
| Volumes.Volume.NWUpdateFat | cluster.c:740-760 | one entry of the table changes; data clusters keep their bytes; copies in step stay so exactly if it succeeds or changes nothing |
| Volumes.Volume.SetFreeClusterValue | cluster.c:566-587 | the bit changes and the hint of its segment is pulled back |
| Volumes.Volume.FindFreeCluster | cluster.c:589-596 | the first clear bit at or after the start |
| Volumes.FirstRunIsFirstClear | cluster.c:589-596 | a scan for a run of one bit is a search for the first clear bit, chunks notwithstanding |
| Volumes.Volume.FreeCluster | cluster.c:1077-1112 | success, with I/O errors about or not, is the freeing step; failure has touched nothing but that FAT entry; success keeps the two FAT copies in step |
| Volumes.Volume.FreeClusterNoFlush | cluster.c:1114-1149 | the same, but a failed FAT write counts as success, with bitmap, counters and hint updated all the same |
| Volumes.Volume.SetClusterValue | cluster.c:1151-1179 | refines relinking: the link changes, the index stays; failure has touched nothing but that FAT entry; success keeps the copies in step |
| Volumes.Volume.SetClusterValueAndIndex | cluster.c:1210-1238 | likewise for link and index |
| Volumes.Volume.PickCluster | cluster.c:1268-1299 | the cluster is taken from the hint, else from the segment's start, else from the first segment's start |
| Volumes.Volume.AllocateCluster | cluster.c:1259-1323 | a successful call is the allocation step and keeps the copies in step; a failed one has still taken its cluster out of the bitmap; every other allocated cluster keeps entry and bit |
| Volumes.Volume.AllocateClusterSetIndex | cluster.c:1325-1389 | the same with a file index |
| Volumes.Volume.AllocateClusterSetIndexSetChain | cluster.c:1391-1455 | the same with a file index and a link |
| Volumes.Volume.RunOps | cluster.c:1077-1455 | calls that all succeed lead where the run of their operations leads, so soundness holds over them, and keep the two FAT copies in step, so falling back to the mirror still gives the table's entry; without I/O errors so do all calls |
| Volumes.Volume.GrowChain | nwfile.c:606-633 | a record's chain grows by a cluster that was free and joins the records, entered as asked and linked behind the last one unless it is cluster 0; every other allocated cluster keeps entry, bit and bytes |
| Volumes.Volume.WriteSuballocRecord | suballoc.c:928-1026 | a run of allocations and relinks on the records' own clusters; other allocated clusters keep both FAT copies, bit and bytes; if nothing fails the record starts with the bytes reported, and it is short only if the volume is full |
| MarkSweep.BuildChainAssignment | cluster.c:931-1005 | ends on any FAT, cyclic or cross-linked; a head of 0 or -1 is nothing to mark, from any other what it marks is exactly the walk it took and the known record at its end, and the code says why it stopped |
| MarkSweep.MarkVerdict | cluster.c:961-1003 | it complains of a collision exactly if there is no complete chain of clusters not marked before |
| MarkSweep.AssignChains | hash.c:1820-1835 | code 0 exactly if every head other than 0 and -1 has a complete chain, the chains are apart from each other and from what was marked, and end in no record or an allowed and known one; then each of those heads has its chain, the marks are exactly their union, and the records at their ends are in use |
| MarkSweep.MarkedChainsAreApart | cluster.c:961-1003 | chains marked one after the other share no cluster |
| MarkSweep.AdjustAllocatedClusters | cluster.c:700-738 | the sweep's state and count, as functions of bitmap and marks, up to the first marked cluster that is not in the FAT |
| MarkSweep.SweptAt | cluster.c:700-729 | a swept entry is freed exactly if it was allocated and not marked |
| MarkSweep.SweptSound | cluster.c:700-729 | sweeping keeps bitmap, FAT, counters and hints in step |
| MarkSweep.MarkAndSweepExact | cluster.c:700-729 | after marking every live chain the sweep is never refused, frees exactly the clusters no chain reaches, leaves every chain entry, and ends with bitmap = marks |
| MarkSweep.HeadsStay | cluster.c:700-729 | a head that is not 0 and has a nonzero link is still allocated, with its entry, after the sweep |
| MarkSweep.MarkAndSweep | cluster.c:700-738 | marking and sweeping one after the other: code 0 exactly if the chains are markable; then every head still leads along its chain and keeps bit and entry, the count returned is the number of orphans, the free list ends equal to the assigned list, and the two FAT copies stay in step |
| MarkSweep.ReadFATTable | fat.c:1378-1423 | the mount establishes that bitmap, counters and hints are in step with the FAT |
| TruncSpec.KeptByIndex | cluster.c:189-240 | on an ascending chain a cut keeps exactly the clusters below the index, and the one at it for a remainder |
| TruncSpec.CutAt | cluster.c:481-526 | a cut, entry by entry: freed, relinked, or as before; the free counter grows by the clusters freed |
| TruncSpec.CutChain | cluster.c:194-202 | after it the head leads through the kept clusters, with their indexes, to the new end |
| TruncSpec.CutFrame | cluster.c:481-526 | the rest is freed in FAT and bitmap, and clusters of other chains are untouched |
| TruncSpec.CutSound | cluster.c:481-505 | a cut keeps bitmap, FAT, counters and hints in step |
| TruncSpec.CutIsARun | cluster.c:481-505 | it is a run of one relink and then frees, each of an allocated cluster, so whole runs cover it |
| TruncSpec.GoodCutKeepsBytes | cluster.c:246-349 | each way of ending the chain keeps every byte of the file before the cut |
| Truncation.CopyToRecord | cluster.c:288-331 | a new record holds the first bytes of its source, or there is none and no record is lost; there is one if a record is free for it, nothing fails and the volume is not full; the volume grows by a run of allocations and relinks on the records' clusters |
| Truncation.FreeChain | cluster.c:481-526 | frees every cluster from here on and the record at the end, if records are allowed |
| Truncation.EndAndFree | cluster.c:189-229 | links the new end, then frees the rest |
| Truncation.CutTail | cluster.c:86-177 | the record at the end goes, or is replaced by a smaller one with the same first bytes, or stays; it is replaced wherever a smaller one does, unless one is refused, something fails or the volume is full |
| Truncation.RecordFor | cluster.c:246-331 | no record after a hole, without permission, or for a part that leaves less than a block to save; otherwise one, unless it is refused, something fails or the volume is full |
| Truncation.CutPartial | cluster.c:206-366 | a partial cluster is replaced by a record where the chain has no hole there and the part is short enough, else kept whole; every failed copy keeps it |
| Truncation.KeepWhole | cluster.c:351-366 | the cluster becomes the last and the rest is freed |
| Truncation.FindTarget | cluster.c:182-210 | the walk stops at the first cluster with an index as high, or at the end of the chain |
| Truncation.TruncateFrom | cluster.c:182-479 | the walk to the target and what is done there, holes included |
| Truncation.TruncateClusterChain | cluster.c:39-528 | every byte at a position below the new size reads the same, taken as byte pos % ClusterSize of index pos / ClusterSize; a cluster starting at or past the size is freed and one ending by then stays, without records every one that starts below it; a record is made wherever one is called for, unless refused, failing or on a full volume; with the frame, the bookkeeping and the code, and the two FAT copies in step if no I/O error hits them, or none is reported and no record can be written |
| TruncOutcomes.TruncationKeeps | cluster.c:39-528 | what a truncation did implies a chain of the kept clusters, soundness, and the file's first bytes |
| TruncOutcomes.PositionsKept | cluster.c:75-76 | the same by positions in the file: what lies below the new size stays, clusters from it on are freed |
| TruncOutcomes.ClustersByPosition | cluster.c:75-240 | a file's clusters one by one, by index * ClusterSize |
| TruncOutcomes.RecordsSave | cluster.c:246-288 | a record takes the place of the last cluster, or of a longer record, exactly if it is allowed, no hole comes before it, and it is shorter |
| TruncOutcomes.TailLeaks | cluster.c:246-366 | no outcome loses the record exactly if the cut is not inside the last cluster; every outcome loses it exactly if it is, and a hole comes before that cluster or its part is too long for a smaller record |
| TruncOutcomes.LeakingCut | cluster.c:289-366 | a sound volume and a cut at 3585 of 4096 bytes that loses the record whatever happens |
| TruncOutcomes.BytesKeptWhen | cluster.c:288-331 | every outcome keeps the file's first bytes exactly if no record takes part or no record is read or written with an error |
| FileMap.NWFileMapBlock | mmap.c:60-200 | for offset i * ClusterSize + r: on every disk on which the clusters lie as ClusterIo.Blocks says, the block and offset returned hold that byte of the file, in a cluster or in either part of the record; (0, 0) in a hole; (-1, 0) past the end |
| FileMap.SpotIsByte | mmap.c:139-145 | the block and offset computed for a byte of a cluster hold that byte, so many bytes into the volume |
| FileMap.DenotesBytes | mmap.c:104-200 | what the chain says of an offset is where the file's byte is |
| FileMap.WalkMaps | mmap.c:128-149 | where the walk stands decides between hole, block and going on |
| FileMap.TruncationKeepsMap | cluster.c:189-373 | a truncation without suballocation leaves every mapped offset below the new size mapped where it was |
| LruStates.SearchFinds | lru.c:480-499 | the hash finds exactly the active element of a volume and block |
| LruStates.VictimNearestTail | lru.c:1426-1440 | the victim is the evictable block nearest the tail; none exactly if no block of the handle is evictable |
| LruStates.VictimIsOwn | lru.c:1426-1440 | a handle only ever evicts blocks of its own |
| LruStates.RemoveLRUPlaced | lru.c:353-378 | taking an element off its handle's list keeps every other list, bucket and counter in order |
| LruStates.InsertLRUPlaced | lru.c:380-432 | so does putting one back at either end |
| LruStates.RemoveHashPlaced | lru.c:535-566 | and taking one out of its bucket |
| LruStates.AddToHashPlaced | lru.c:501-533 | and adding one whose volume and block nobody has |
| LruStates.ShelvePlaced | lru.c:1578-1586 | and moving one to the free list |
| LruStates.AvailablePlaced | lru.c:1393-1441 | what GetAvailableLRU hands out is on no handle list and in no bucket, and its handle has room for it |
| LruStates.AvailableTouchesOne | lru.c:1393-1441 | it touches one element only, and an element taken from the cache was evictable |
| LruProtocol.StepKeepsInv | lru.c:981-1807 | every step of every thread keeps the lists in order, the blocks coherent and the counter of dirty buffers right |
| LruProtocol.AllPutOut | lru.c:1010-1024 | a block written out in full with MODIFIED still clear and no writer about is on disk |
| LruProtocol.CacheIsCoherent | lru.c:981-1807 | over every interleaving a block no writer holds has the logical contents, on disk too unless dirty; a block not cached has them on disk |
| LruProtocol.NothingDirtyNothingLost | lru.c:1770-1807 | with no writers the dirty counter counts, and at zero the disk holds everything |
| LruProtocol.ListsStayInOrder | lru.c:353-566 | over every interleaving each element is on one of active and free list, on its handle's list, in its bucket, one per volume and block, no handle over its limit |
| LruProtocol.NeverAlreadyScheduled | lru.c:1457-1465 | the branch for an element whose I/O is still submitted is never taken |
| LruProtocol.QuietlyKeeps | lru.c:1443-1602 | fills and flushes change neither locks nor logical contents |
| LruProtocol.BytesGoOut | lru.c:1014 | a write cut off anywhere is a run of single bytes put out |
| LruRecency.RequeueMoves | lru.c:353-432 | a release by the block's own handle puts it first on its list and by another last, the others in their order |
| LruRecency.RoomFirst | lru.c:1393-1441 | below both limits a free element is taken, else a new one, and no block is given up; otherwise the victim |
| LruRecency.RunKeepsOrder | lru.c:981-1807 | over every interleaving each list is in order of last fill or release, blocks released by others after the handle's own |
| LruRecency.VictimIsOldest | lru.c:1426-1440 | after every interleaving the block given up is, of the handle's blocks that could go, the one of least age; none exactly if none could go |
| LruRecency.OwnVictimIsOldest | lru.c:1426-1440 | for a handle whose victim is a block it used itself, that is the one whose last fill or release is longest ago |
| LruCaches.LruCache.constructor | lru.c:665-688 | an empty cache over a disk is coherent |
| LruCaches.LruCache.SearchHash | lru.c:480-499 | the walk down the bucket is the search |
| LruCaches.LruCache.Victim | lru.c:1426-1440 | the walk from the tail finds the victim |
| LruCaches.LruCache.GetAvailableLRU | lru.c:1393-1441 | free list, then memory, then the victim, in that order and under those limits |
| LruCaches.LruCache.FillBlock | lru.c:1443-1602 | a run of fill steps; a failed read leaves the cache as coherent as before |
| LruCaches.LruCache.PerformBlockReadAhead | lru.c:1858-1895 | a run of fills of blocks not cached; with no I/O error the last block asked for is cached, unless the handle has no block to give up and no room or memory for one |
| LruCaches.LruCache.ReadLRU | lru.c:1899-2018 | a run that ends with one more lock on the block, whose buffer holds the logical contents; it succeeds within two rounds if the handle can be given a further block or has one that could go, and no handle is left without one once the block is released |
| LruCaches.LruCache.ReleaseLRU | lru.c:1770-1783 | the release step: the block moves to the top of its handle's list if that handle releases it, to the tail if another does, and every other list and block keeps its place |
| LruCaches.LruCache.ReleaseDirtyLRU | lru.c:1785-1807 | the dirty release step, with the same moves |
| LruCaches.LruCache.WriteBack | lru.c:1004-1024 | one write-back, cut off anywhere by an error |
| LruCaches.LruCache.FlushLRU | lru.c:981-1029 | a run of write-backs; with no errors and no holders the disk then equals the logical contents and no buffer is dirty |
| LruCaches.LruCache.SyncLRUBlocks | lru.c:1809-1854 | success means every block of the range is clean or not cached |
| ClusterIo.BlocksPut | cluster.c:2066-2078 | a write inside one block writes the same bytes of the cluster |
| ClusterIo.CachedClusters.PieceLands | cluster.c:2029-2083 | it lands in that cluster and in no other |
| ClusterIo.CachedClusters.WriteBlock | cluster.c:2043-2078 | a whole block is not read first, a part is; the logical contents change by exactly the piece; it succeeds if the block exists, no I/O fails and the handle can be given a block |
| ClusterIo.CachedClusters.WriteClusterWithOffset | cluster.c:1916-2089 | exactly the range of the flat cluster changes, across blocks, by any handle; an error leaves a prefix ending at a block boundary; under Ready there is none |
| ClusterIo.CachedClusters.ReadClusterWithOffset | cluster.c:1753-1914 | the flat bytes of the range, or a prefix, by any handle; nothing changes; under Ready it is the whole range |
| ClusterIo.WriteThenRead | cluster.c:1851-2083 | what was written through one handle is read through any other, and under Ready both calls succeed |
| ClusterIo.FirstTransfers | lru.c:1393-1441 | the first write and read of an empty cache succeed if both limits leave room for a block of the handle, there is memory and no I/O fails |
| AsyncQueue.IndexIo | async.c:764-863 | the pointers form a doubly linked list of the old requests with the new one where the walk from the hint stops |
| AsyncQueue.InsertedOnce | async.c:764-863 | that list is the old requests and the new one, each once |
| AsyncQueue.HintedStaysSorted | async.c:801-833 | a list of one disk's requests stays in order of sector exactly if none before the hint has a higher sector, so always without a hint |
| AsyncQueue.HintedNotOvertaken | async.c:801-833 | with requests of several disks: that none comes before one below it in both disk and sector stays so exactly if no request before the hint is above the new one in both |
| AsyncQueue.FiledBy | async.c:766-768 | which bin, row and chain a request belongs to, by disk and by bits 8 to 11 of its sector |
| AsyncQueue.OrderedInserted | async.c:133-185 | a hash chain stays ordered by sector |
| AsyncQueue.AioQueue.HashDiskIo | async.c:133-185 | the request joins its chain at its sector's place; refused exactly if the chain is another disk's |
| AsyncQueue.AioQueue.HintIsListed | async.c:793-808 | the head of every hash chain is a node of its bin's list |
| AsyncQueue.AioQueue.InsertIo | async.c:865-888 | a request in the system, one in a drain's hands included, is refused; any other is accepted, counted and listed |
| AsyncQueue.AioQueue.TakeList | async.c:221-236 | the drain takes the whole list and no chain leads to it any more |
| AsyncQueue.AioQueue.TakeNext | async.c:238-242 | one request leaves the drain's list and is in hand, its signature still that of a submitted one |
| AsyncQueue.AioQueue.LeftHand | async.c:238-266 | a request in hand is on no list and looks submitted to everybody else |
| AsyncQueue.AioQueue.Finish | async.c:262-268 | its transfer over, it is marked completed and may be submitted again |
| AsyncQueue.AioQueue.Count | async.c:267-268 | the completed counter follows some time later |
| AsyncQueue.AioQueue.Turn | async.c:238-346 | one turn with others submitting before the mark and between mark and count: that one request is completed, every accepted one is listed |
| AsyncQueue.AioQueue.ProcessIo | async.c:213-359 | whatever others submit meanwhile, the bin ends empty, and every request that was on its list or was accepted for it is completed once, and no other |
| AsyncQueue.AioQueue.ExactlyOnce | async.c:541-725 | whatever inserts and turns of drains have run: submitted = completed + marked + queued + on drains' lists + in hand, and each request is completed as often as accepted, less one while it is in one of those places |
| AsyncQueue.AioQueue.Interleave | async.c:213-359 | any number of drains of any bins, and submissions, with their steps in any order: each request is completed as often as it was accepted, less one while it is in the system, and when the counters meet everything accepted is completed |
| ParentHashes.AddKeepsOrder | hash.c:3508-3552 | children of one parent stay in ascending order, however parents are mixed |
| ParentHashes.RemoveKeepsOrder | hash.c:3580-3612 | removing keeps the order and takes out that one record |
| ParentHashes.RemoveUndoesAdd | hash.c:3508-3612 | removing what was added gives the bucket back |
| ParentHashes.CountUndone | hash.c:3568-3625 | the directory's count too |
| ParentHashes.FirstIsLeast | hash.c:1185-1209 | the lookup finds the live child with the least root from the entry on |
| ParentHashes.PersistentIsReported | dir.c:327-345 | a child there the whole time is reported |
| ParentHashes.EnumerationIsExact | dir.c:327-345 | however entries come and go, a finished enumeration reported every child there throughout exactly once, and nothing that was never there |
| ParentHashes.EnumerationEnds | dir.c:327-345 | an enumeration comes to its end |
| ParentHashes.ListingIsExact | dir.c:327-345 | of a directory that stays, exactly the live children in ascending order |
| ParentHashes.SteadyReport | dir.c:327-345 | an enumeration of such a directory reports that listing |
| ParentHashes.CallsJoin | dir.c:327-345 | two calls, the second from the entry after the first one's last, list what one would |
| ParentHashes.RunReports | dir.c:327-345 | what a run of calls lists, with changes in between, is the report of its lookups, and it ends when a call finds nothing |
| ParentHashes.CookieResumes | dir.c:298-345 | the cookie of a child is where the next call goes on exactly if its number is below 0xFFFFFFFD; otherwise the next call starts over |
| ParentHashes.RestIsListed | dir.c:298-345 | what the next call lists is the rest exactly if the last number listed is below 0xFFFFFFFD |
| ParentHashes.CookieOfHighest | dir.c:298-345 | the two numbers that do not resume, 0xFFFFFFFE and 0xFFFFFFFD, and what the next call takes their positions for |
| ParentHashes.DirectoryHash.AddToParentHash | hash.c:3466-3578 | the bucket with the record in its place, and the count of the directory that its parent stands for one higher: the parent itself, the root for 0xFFFFFFFD, the deleted-files directory, if there is one, for 0xFFFFFFFE; no other count changes |
| ParentHashes.DirectoryHash.RemoveParentHash | hash.c:3580-3631 | the bucket without it, and likewise the count one lower |
| ParentHashes.DirectoryHash.CountsAgree | hash.c:3482-3616 | adding and removing count at the same directory, with the one exception |
| ParentHashes.DirectoryHash.GetHashNameSpaceEntry | hash.c:1160-1213 | the entry found stands for the least root whatever the name space |
| ParentHashes.DirectoryHash.InsertNameSpaceElement | hash.c:2414-2487 | a record joins its root's ring once, told apart by its address, and takes over the root's parent; a root's own ring is emptied; refused exactly without a known root, as its own root, or if it is in the ring |
| ParentHashes.DirectoryHash.InsertAgain | hash.c:2460-2470 | a second insertion is refused, wherever the root has moved in between |
| ParentHashes.DirectoryHash.Readdir | dir.c:296-357 | the dots that are to come by the position cut to 32 bits, then, as far as there is room, roots of live records in the hash with this directory as parent, or 0xFFFFFFFE if it is the deleted-files directory; with room left, all of them from the position on |
| ParentHashes.DirectoryHash.CallAgain | dir.c:296-357 | of a directory that stays, a second call lists nothing more exactly if the last number is below 0xFFFFFFFD, and otherwise everything again, for ever; what is listed are that directory's own records |
| ParentHashes.DirectoryHash.Enumerate | dir.c:296-357 | calls resumed by position, with records added to and removed from the hash in between: every root listed is that of a record which was there or was inserted with this directory as parent (0xFFFFFFFE for the deleted-files directory); once a call finds nothing more, each child there at every lookup is listed, once, and so each that was there at first and was not deleted |
| Dates.YearFits | date.c:198-203 | one correction of the guessed year is enough for every 32-bit time |
| Dates.CivilIsGregorian | date.c:198-224 | for every local day from 1980 to 2079 the date is the Gregorian one |
| Dates.DaysBackIsRight | date.c:161-170 | the day count is right for each of those dates |
| Dates.GetUnixTime | date.c:181-225 | the month search computes the date of the local time, which is 60 seconds times the minutes west of Greenwich earlier, and an hour later in summer |
| Dates.LocalIs | date.c:181-196 | the local time of a unix time and zone |
| Dates.ClockIs | date.c:192-196 | hours, minutes and two-second units add up to the second of the day |
| Dates.UnixTimeIs | date.c:156-175 | the unix time of a date from 1980 to 2079 and a zone: days, hours, minutes, twice the seconds field, plus the zone, less the summer hour |
| Dates.UnixRoundTrip | date.c:156-225 | MakeUnixTime gives the time back rounded down to an even second, for any time zone, exactly for those days |
| Dates.PackRoundTrip | date.c:39-98 | packing and reading gives the date back exactly if every field fits, the second is even and the year is 1980 to 2047 |
| Dates.StoredLayout | date.c:39-76 | the stored date is fields of 5, 6, 5, 5, 4 and 7 bits from the low end: half the second, minute, hour, day, month, and the year counted from 1980, or from 1920 once it is 2000 |
| Dates.ReadRoundTrip | date.c:39-98 | reading and packing gives the stored date back exactly if its year field is not 20 to 79 |
| Dates.DayFits | date.c:205-221 | the day computed for any 32-bit time is 1 to 32, and 32, in December, exactly for 1 January 1970 and 1 January 1974 |
| Dates.SystemRoundTrip | date.c:126-140 | any system time stored and read back is rounded down to four seconds, exactly if its local day is one of the 24837 of 1980 to 2047 |
| Dates.FirstNotBack | date.c:126-140 | 1 January 2048 does not come back |

## Left out

- FatTables.ClusterStore.ReadClusterWithOffset: is the flat contract the FAT and truncation layers work with; the cached path is proved to have it in ClusterIo, its success for a cluster that is not flaky under ClusterIo.CachedClusters.Ready. A read that fails because the handle has no block to evict is outside the flat contract.
- FatTables.ClusterStore.WriteClusterWithOffset: likewise.
- FatTables.FatTable.CreateFatLRU: marking the two clusters in the assigned list belongs to the volume, where Housed asks for allocated FAT clusters, and is not part of this model.
- BitBlocks.BitBlockList.InsertBitBlockByValue: the links of the doubly linked list are not modelled, a sequence stands for the list; nor is Tail, which shrinking leaves on a freed chunk, but which is only ever compared with null and overwritten.
- BitBlocks.BitBlockList.AdjustBitBlockList: limits for which the sums wrap at 2^32 are not modelled, nor is what a list does after it was shrunk to no chunk.
- LruCaches.LruCache.ReadLRU: the source tries again without end; patience bounds the rounds, and what the last failure leaves is stated.
- FileMap.NWFileMapBlock: MapSuballocNode is a parameter, and the bytes of a record are promised for a map whose parts show them (TailShown); how it finds a record's clusters is not part of this model.
- Suballoc.SuballocPool.ReadSuballocRecord: after an I/O error the bytes are any; which blocks fail is not modelled.
- Volumes.Volume.WriteSuballocRecord: the walk of NWWriteFile along a bin's chain is any number of its steps (a cluster allocated and linked, or bytes written to a cluster of the records), and Data says what a record then holds, so where in its clusters a record's bytes lie is not modelled; after an I/O error nothing is said of any record.
- Truncation.TruncateClusterChain: with records allowed, it is stated for a file whose clusters are allocated and neither the FAT's nor a record's, and whose chain does not end in a free cluster (FileHoused), since the allocations of a record write keep the chain exactly if they do not take that cluster (VolumeStates.TakeKeepsChain); the file's first bytes are promised for record I/O that does not fail, which BytesKeptWhen shows to be needed.
- AsyncQueue.AioQueue.ProcessIo: that the bin ends empty is stated with submissions in between, not with other bins' drains inside it; Interleave covers any order of their steps. A counter's increment is one step, though the source takes no lock for aio_completed.
- ParentHashes.DirectoryHash.Enumerate: stated for records that name themselves as root and have numbers below 0xFFFFFFFD, which CookieResumes and RestIsListed show to be exactly those whose cookies resume, and for a first call with room for the two dots.
- Chunk buffers of the bitmap and elements of the cache are values in the lists that hold them, so aliasing of two list elements is not modelled; the lists of the cache and the parent hash are sequences, not links.
- Locks, semaphores and waiters: a stretch between taking and giving up the cache's lock is one step; of the queue, insert_io and the taking of a list are one step each, and a drain's turn, which holds no lock, is three.
- The asynchronous flush branches of the cache, FlushEligibleLRU, FlushVolumeLRU, SyncVolumeLRU and FreeLRU; the last three drop the dirty mark whatever the write returned.
- Waiting for a block that another thread is filling: in the build without threads no block is being filled between calls.
- RAW_PRIORITY transfers, copies to and from user space, and bad-sector bits in cluster reads and writes.
- The Index and PrevChain arguments of TruncateClusterChain, zero in every call, and its test for a missing chain.
- Recovery from mirror mismatches and the walk of the FAT's own chain in ReadFATTable; of the mount only the verify loop is modelled.
- The directory scan that feeds BuildChainAssignment with heads, and PreAllocateEmptyDirectorySpace.
- InitBitBlockList of the bitmap, and BitScanValueWithIndex, which cannot find anything.
- GetChainSize, which does not end on an entry linked to itself.
- RemoveFATHash, the cached FAT branch, and the flush of FAT buffers.
- Callbacks of completed requests, the error counters of the queue, and the driver's real asynchronous completion.
- The name, directory, trustee and extended hashes, and the name-space passes at mount; of a HASH record only what enumeration reads is kept.
- Memory exhaustion, except where a routine has a path for it (new cache elements, workspaces).
- The Windows and DOS utilities, device and partition code, the console and the backup tools.
