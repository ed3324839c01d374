# Verified models from the lofi source tree

Dafny models of the stateful cores of this tree: the kernel heap, the Petit FatFs reader, and from
musl 1.2.3 the dynamic linker's dependency, constructor, symbol, TLS and relocation logic, the
POSIX AIO queues, and the SHA-256 and MD5 contexts. `dafny verify dfyconfig.toml` checks all of it.

| files | what they model |
|---|---|
| `HeapSpec.dfy`, `Heap.dfy` | the heap as a value (a tiling by segments), and the linked headers in memory that refine it |
| `FatCore.dfy`, `FatFile.dfy`, `FatMount.dfy`, `FatDir.dfy`, `FatContent.dfy`, `FatSession.dfy` | table entries and clusters, the file cursor, mounting, directories and paths, the bytes of a chain, and all of it in sequence |
| `DsoGraph.dfy`, `Ctors.dfy`, `CtorProtocol.dfy`, `CtorStart.dfy` | dependency graphs, `queue_ctors` and `extend_bfs_deps`, the constructor and destructor protocol between threads, and both together |
| `GnuHash.dfy`, `SysvHash.dfy`, `SymSearch.dfy` | GNU hash tables with their Bloom filter, System V hash tables, the search through the DSOs |
| `TlsLayout.dfy`, `TlsThread.dfy`, `TlsInstall.dfy` | static TLS offsets and a thread's TLS area; what `__copy_tls` puts there; `install_new_tls` and the reservation it writes into |
| `LazyRelocs.dfy` | the lazy part of `do_relocs`, `prepare_lazy`, `redo_lazy_relocs` |
| `AioSeq.dfy`, `AioRef.dfy` | sequencing of operations in one AIO queue; reference counting of queues |
| `HashWord.dfy`, `HashStream.dfy`, `Sha256Tables.dfy`, `Sha256.dfy`, `Md5.dfy` | words and bytes, block-wise streaming, the constants of SHA-256, the two hashes |
| `Bits.dfy`, `Common.dfy` | masks, powers of two and digits on unbounded integers; shared types |

Code that updates memory step by step is a class with methods proved against functions on values;
protocols between threads are transition systems with an invariant that holds in every state of
every run. Machine widths are written out (`% 2^32`, `% 2^64`, 64-bit signed conversion) wherever
the code depends on them.

Places where the code does less than one would expect are kept as they are and pinned down:

- `SegmentHeaderSplit` stores through `HDR->Next` without looking at it. When the segment is the
  last one this is a store through a null pointer. `Heap.KernelHeap` counts these stores in
  `nullStores` and does not perform them; `HeapSpec.NullStoreExact` says exactly for which heaps and
  sizes `malloc` does it, and `HeapSpec.FirstMallocStoresThroughNull` that the first call already does.
- `pf_mount` refuses a volume with exactly 4085 clusters, for which fatgen103 prescribes FAT16.
  `FatMount.TypeAgreesWithFatgen` shows that this is the only count on which the two differ, and
  `FatMount.Refused4085` gives such a volume.
- `create_name` reads at most 8 + 3 bytes of a path component and goes on in the middle of a longer
  one. `FatDir.OneNamePerComponent` and `FatDir.HopPerComponent` say exactly which components are
  read as one name; by `FatDir.LongFileName`, LONGFILENAME is looked up as LONGFILE and, in there, AME.
- A fixed root directory of 0 entries is still read for one sector: `FatDir.FixedTableLength`.
- With blocks above the thread pointer and no TLS in the application, the first library's block is
  placed without regard to the reserved gap. `TlsLayout.Startup` says exactly when the gap stays
  free, `TlsLayout.FirstLibraryInGap` gives a library for which it does not.
- The per-thread TLS size in `load_library` may wrap around 2^64. `TlsInstall.EnoughExact` says
  exactly when the computed allocation is still large enough, `TlsInstall.WrappedPerThread` gives a
  size for which it is not.
- A new heap segment of `ExpandHeap` may be too small for the request it was made for, because its
  header takes 32 bytes of the rounded length. `HeapSpec.AllocateSpec` shows that `malloc` then grows
  the heap a second time and never a third.

## Model

| member | source | states |
|---|---|---|
| HeapSpec.RunSafe | kernel/Memory/Heap/Heap.cpp:7-145 | after any sequence of legal malloc and free calls on a new heap the segments tile the heap exactly, are 16-byte aligned, no two neighbours are both free, and if nothing is held the heap is one free segment again |
| Heap.KernelHeap.Run | kernel/Memory/Heap/Heap.cpp:7-145 | any legal sequence of malloc and free calls takes the headers in memory through the abstract run, and no byte of a block held throughout the sequence changes |
| HeapSpec.RunWellFormed | kernel/Memory/Heap/Heap.cpp:7-145 | tiling, alignment and full coalescing hold in the last state of every run from CreateHeap |
| HeapSpec.StepKeeps | kernel/Memory/Heap/Heap.cpp:43-86 | one malloc of 1 to 2^64 - 16 bytes keeps every held block and adds one new aligned block of at least that size, less than 64 bytes more; of any other size it changes nothing; one free takes away exactly the block at its address; the heap stays well formed |
| HeapSpec.LiveDisjoint | kernel/Memory/Heap/Heap.cpp:43-78 | two different held blocks never overlap |
| HeapSpec.AllFreedIsOneSegment | kernel/Memory/Heap/Heap.cpp:80-128 | a well-formed heap with nothing held is a single free segment over the whole heap |
| HeapSpec.AllocateSpec | kernel/Memory/Heap/Heap.cpp:43-110 | malloc grows the heap exactly as often as the request needs, at most twice, and returns a new 16-aligned block at least as large as asked and too small to split once more, every other held block unchanged |
| HeapSpec.AllocateHit | kernel/Memory/Heap/Heap.cpp:56-75 | if segment k is the first that fits, malloc hands out that one without growing the heap |
| HeapSpec.AllocateMiss | kernel/Memory/Heap/Heap.cpp:76-77 | if nothing fits, malloc is one growth followed by malloc on a heap that is one growth closer to fitting, with the same blocks held |
| HeapSpec.GrowWellFormed | kernel/Memory/Heap/Heap.cpp:88-110 | growing by whole pages keeps tiling, alignment and coalescing, and reduces the number of growths still needed by one |
| HeapSpec.ReleaseWellFormed | kernel/Memory/Heap/Heap.cpp:80-128 | freeing any segment and merging forward and backward leaves no two free neighbours anywhere |
| HeapSpec.TakeWellFormed | kernel/Memory/Heap/Heap.cpp:59-71 | handing out a segment, split or whole, keeps the heap well formed |
| HeapSpec.NullStoreExact | kernel/Memory/Heap/Heap.cpp:130-145 | malloc stores through a null Next if and only if no segment before the last fits and the last one, after any growth, is large enough to split |
| HeapSpec.FirstMallocStoresThroughNull | kernel/Memory/Heap/Heap.cpp:136 | on a fresh heap every request that leaves room for a second block stores through a null Next |
| Heap.KernelHeap.constructor | kernel/Memory/Heap/Heap.cpp:7-26 | the new heap is one free segment over its pages, correctly linked |
| Heap.KernelHeap.Malloc | kernel/Memory/Heap/Heap.cpp:43-78 | returns a block iff the size is 1 to 2^64 - 16; the block is new, aligned, and at least as large as asked; the header updates in memory realise exactly the abstract allocation and no byte of a held block changes; any other size changes nothing |
| Heap.KernelHeap.Free | kernel/Memory/Heap/Heap.cpp:80-86 | the header updates realise exactly the abstract release, and no byte of a block still held changes |
| Heap.KernelHeap.ExpandHeap | kernel/Memory/Heap/Heap.cpp:88-110 | the heap end moves by whole pages, the new segment is linked and merged with a free last one, held bytes untouched |
| Heap.KernelHeap.SegmentHeaderCombineForward | kernel/Memory/Heap/Heap.cpp:112-123 | headers again describe the list with the free right neighbour absorbed: Next and Last stay inverse, LastHeapHDR is the last segment, held bytes untouched |
| Heap.KernelHeap.SegmentHeaderCombineBackward | kernel/Memory/Heap/Heap.cpp:125-128 | the same when the left neighbour is free and absorbs this segment |
| Heap.KernelHeap.SegmentHeaderSplit | kernel/Memory/Heap/Heap.cpp:130-145 | cuts the segment iff the rest can hold a header and 16 bytes, reports that, keeps all links inverse, held bytes untouched, and counts the store through a null Next iff it cut the last segment |
| Heap.ClientWrite | kernel/Memory/Heap/Heap.cpp:43-78 | a client storing anywhere inside a block it holds leaves every header as it was |
| Heap.SplitLength | kernel/Memory/Heap/Heap.cpp:133-134 | the conversion of the size_t difference to int64_t is exact for every segment of such a heap |
| FatCore.GetFatIsTableEntry | kernel/Fat/pff.c:430-470 | for all three FAT widths and every cluster in range, get_fat returns the entry of the packed little-endian bit string, also where a 12-bit entry straddles two sectors |
| FatSession.Session | kernel/Fat/pff.c:819-1095 | on a volume with a sound boot record: mounting, opening any path and then any sequence of reads and seeks gives what the byte string of the file found gives, and every failure is one of those of mounting or of opening |
| FatSession.ContentUnique | kernel/Fat/pff.c:928-975 | a directory entry has at most one byte string as its content |
| FatSession.ContentOfChain | kernel/Fat/pff.c:928-975 | that string is the beginning of the clusters of the file's chain, put one after the other |
| FatContent.FileIsContent | kernel/Fat/pff.c:928-975 | a byte string is what the cursor reads iff it is the beginning of the concatenated sectors of the chain's clusters |
| FatContent.EntryIsBytes | kernel/Fat/pff.c:543-575 | entry i of a chained directory is bytes 32 i to 32 i + 31 of the chain |
| FatFile.FileSystem.RunOps | kernel/Fat/pff.c:928-1095 | any sequence of pf_read and pf_lseek calls on an open file whose bytes are all there gives the outputs and final position of a flat byte string with a cursor |
| FatFile.FileSystem.PfRead | kernel/Fat/pff.c:928-975 | for any disk content: returns the next min(btr, rest) bytes of the cluster chain and advances, or fails at the first byte that does not exist, having delivered everything before it, and closes the file |
| FatFile.FileSystem.PfLseek | kernel/Fat/pff.c:1055-1095 | succeeds iff the cluster of the byte before the (clipped) target exists in the chain, whether it walks from the first cluster or from the current one, and leaves a cursor valid for reading there |
| FatFile.FileSystem.FollowChain | kernel/Fat/pff.c:1081-1087 | ends at the cluster that holds the target, or at the first link that names no cluster |
| FatFile.FileSystem.LocateSector | kernel/Fat/pff.c:949-964 | finds the sector of the byte at the cursor iff its cluster exists |
| FatFile.MaskSector | kernel/Fat/pff.c:951 | the mask with csize - 1 selects the sector inside the cluster |
| FatFile.ClusterSectors | kernel/Fat/pff.c:479-489 | the first sector of a valid cluster is never 0 and no sector of the cluster wraps |
| FatMount.PfMount | kernel/Fat/pff.c:819-885 | not ready iff the drive is not; else a disk error iff a sector that must be read is missing; a volume whose boot sector is sound is mounted iff it does not have 4085 clusters, and then table, root directory, data area, cluster size, cluster count and type are the ones its bytes 13 to 47 give, and all that opening, reading and seeking rely on holds |
| FatMount.LayoutBytes | kernel/Fat/pff.c:853-879 | the geometry of a sound volume as formulas over the bytes of its boot sector, the root directory of FAT32 included |
| FatMount.RecordBytes | kernel/Fat/pff.c:323-345 | each field is read at the offset fatgen103 gives it |
| FatMount.FloppyGeometry | kernel/Fat/pff.c:853-879 | the 1.44 MB floppy has its table at sector 1, its root directory at 19, its data from 33 on, and 2847 clusters |
| FatMount.FindVolumeSpec | kernel/Fat/pff.c:819-849 | the search ends at a sector iff that sector carries the signature and a FAT boot record and is sector 0 or, where sector 0 is signed but no FAT boot record, the start of the first partition; it fails to read iff one of these cannot be read |
| FatMount.LayoutExact | kernel/Fat/pff.c:853-879 | if the sector arithmetic does not wrap, table, root directory (or its first cluster), data area and cluster count are where the boot record puts them; refused iff there are exactly 4085 clusters |
| FatMount.TypeAgreesWithFatgen | kernel/Fat/pff.c:862-871 | the FAT type is the one fatgen103 prescribes for every cluster count but 4085, and exactly that count is refused |
| FatMount.Refused4085 | kernel/Fat/pff.c:862-871 | a boot record with 4085 clusters of one sector, FAT16 by fatgen103, is refused |
| FatMount.ClusterInVolume | kernel/Fat/pff.c:479-489 | every data cluster lies inside the volume, behind the tables and the fixed root directory |
| FatMount.ClustersDisjoint | kernel/Fat/pff.c:479-489 | different clusters share no sector |
| FatMount.MountedGeometryOk | kernel/Fat/pff.c:853-879 | such a volume with a power-of-two cluster size meets what reading, seeking and directory search rely on |
| FatDir.Dir.DirRewind | kernel/Fat/pff.c:514-534 | refused iff the start cluster is out of range, otherwise at entry 0 of the directory |
| FatDir.Dir.DirNext | kernel/Fat/pff.c:543-575 | moves to the entry with the next number, computed from the number alone, or reports end of table or broken chain, for fixed and chained directories |
| FatDir.Dir.DirFind | kernel/Fat/pff.c:584-607 | the first entry that is no mismatch decides: found, end marker, end of table or error; at most 65536 entries are read whatever the table contains |
| FatDir.FixedTableLength | kernel/Fat/pff.c:543-575 | a fixed root directory is read in whole sectors, as many as its entry count needs and at least one, and ends there |
| FatDir.OneNamePerComponent | kernel/Fat/pff.c:651-692 | a component is read as one name iff it is a body of at most 8 bytes, or such a body, a dot and at most 3 bytes; otherwise the scan stops inside it |
| FatDir.CreateName | kernel/Fat/pff.c:651-692 | of a component that is a short name the two space-padded fields, flagged if it is the last, and the position behind it; of any other component a position inside it; always consumes path text without reading behind the terminator |
| FatDir.ScanBounds | kernel/Fat/pff.c:651-692 | one segment consumes between 1 and 13 bytes and passes the terminator only when that ended it |
| FatDir.ShortName | kernel/Fat/pff.c:651-692 | a short name, with or without extension, becomes its two space-padded fields and the scan stops behind it |
| FatDir.LongName | kernel/Fat/pff.c:651-692 | of nine or more plain bytes the first eight are the name, the ninth is lost, and the scan goes on behind it |
| FatDir.LongNameIsTwoHops | kernel/Fat/pff.c:651-692 | a name of 9 to 17 bytes without extension is read as two path segments |
| FatDir.LongFileName | kernel/Fat/pff.c:651-692 | LONGFILENAME is read as LONGFILE and then AME |
| FatDir.HopPerComponent | kernel/Fat/pff.c:742-774 | the next hop of a path starts behind the slash that ends a component iff the component is a short name |
| FatDir.ShortPathHops | kernel/Fat/pff.c:742-774 | a path of short names is followed component by component |
| FatDir.FollowPath | kernel/Fat/pff.c:742-774 | stops for every path and disk; a path that is found resolves from the root hop by hop, every hop but the last a directory, each the first entry of its name; one that is not found breaks off at a file in the middle or at a segment missing from the directory reached |
| FatDir.PfOpen | kernel/Fat/pff.c:894-918 | open iff successful; then the path resolves to a non-directory entry whose start cluster and size the file has, with the cursor at 0; it fails only for an empty path, a directory, or a path that breaks off |
| FatDir.PathStartExact | kernel/Fat/pff.c:750-752 | a path starts behind its leading spaces and at most one slash |
| FatDir.EntryFields | kernel/Fat/pff.c:494-507 | the start cluster is bytes 26 and 27 of the entry, on FAT32 with 20 and 21 above them, and the size is bytes 28 to 31 |
| FatDir.AttributeBits | kernel/Fat/pff.c:602 | the masks with AM_VOL and AM_DIR test attribute bits 3 and 4 |
| CtorOrder.DoneIsOrder | musl-1.2.3/ldso/dynlink.c:1484-1498 | when the stack is empty the queue holds every reachable DSO exactly once, each dependency before its dependent unless it reaches the dependent itself |
| CtorOrder.NeverOverlap | musl-1.2.3/ldso/dynlink.c:1473-1497 | queue and stack together never exceed the DSOs that can be visited, so the ends of the shared buffer do not meet |
| CtorOrder.StackReaches | musl-1.2.3/ldso/dynlink.c:1484-1497 | the stack is always a path of dependencies down to the current DSO |
| CtorOrder.PushInv | musl-1.2.3/ldso/dynlink.c:1489-1494 | going down to an unmarked dependency keeps the invariant of the search |
| CtorOrder.PopInv | musl-1.2.3/ldso/dynlink.c:1485-1496 | emitting a DSO with no dependency left to look at keeps the invariant of the search |
| CtorOrder.AdvanceInv | musl-1.2.3/ldso/dynlink.c:1487-1488 | skipping a marked dependency keeps the invariant of the search |
| Linker.Linker.QueueCtors | musl-1.2.3/ldso/dynlink.c:1442-1509 | terminates with a constructor order of everything reachable in a buffer with room for the terminator, and leaves no mark on a reachable DSO |
| Linker.Linker.Sort | musl-1.2.3/ldso/dynlink.c:1484-1497 | the two-ended buffer realises the search: its low end is the finished order when the loop ends |
| Linker.Linker.Descend | musl-1.2.3/ldso/dynlink.c:1486-1495 | the inner loop ends at a DSO with no dependency left, never running the stack into the queue |
| Linker.Linker.ClearMarks | musl-1.2.3/ldso/dynlink.c:1453-1465 | the buffer size bounds what can be visited, with the breadth-first list or without, and everything that can be visited is unmarked |
| Linker.BfsListClosed | musl-1.2.3/ldso/dynlink.c:1453-1457 | a finished breadth-first list plus the DSO itself is closed under dependencies, which justifies the smaller buffer |
| Linker.Linker.ExtendBfsDeps | musl-1.2.3/ldso/dynlink.c:1241-1290 | terminates; the list keeps the direct dependencies as prefix and appends every other reachable DSO exactly once and nothing else; all marks are clear again |
| Linker.Linker.AppendNew | musl-1.2.3/ldso/dynlink.c:1264-1286 | the entries appended for one dependency fit the room counted for them |
| Linker.BfsDone | musl-1.2.3/ldso/dynlink.c:1263-1287 | a list walked to its end is complete |
| CtorProtocol.StepKeeps | musl-1.2.3/ldso/dynlink.c:1511-1549 | every step of every thread keeps the protocol's invariant |
| CtorProtocol.StartedOnce | musl-1.2.3/ldso/dynlink.c:1518-1523 | in every run no constructor starts twice |
| CtorProtocol.NoStartAfterShutdown | musl-1.2.3/ldso/dynlink.c:1519-1520 | once shutting_down is set no constructor starts |
| CtorStart.DependenciesFirst | musl-1.2.3/ldso/dynlink.c:1442-1549 | in every run, when do_init_fini called with the order of queue_ctors starts a constructor, every direct dependency of that DSO is constructed, or under construction by the same thread, unless it leads back to the DSO |
| CtorStart.ReachableReady | musl-1.2.3/ldso/dynlink.c:1442-1549 | and when it returns, so is everything reachable from the DSO it was called for |
| CtorProtocol.StartsInQueueOrder | musl-1.2.3/ldso/dynlink.c:1518-1535 | in every run, do_init_fini called with a queue starts the constructor of an entry only when every entry before it is constructed, or under construction by the same thread |
| CtorProtocol.LeavingFindsQueueReady | musl-1.2.3/ldso/dynlink.c:1518-1548 | when do_init_fini called with a queue returns, every entry of that queue is constructed, or under construction by the same thread |
| CtorProtocol.WaitsForOthers | musl-1.2.3/ldso/dynlink.c:1519-1520 | in every run, before shutdown, a thread waits in do_init_fini only for a DSO whose constructor another thread is running |
| CtorProtocol.ExitWaitsForOthers | musl-1.2.3/ldso/dynlink.c:1413-1418 | in every run the exit walk waits only for a DSO whose constructor another thread is running |
| CtorProtocol.DestructorsOnlyConstructed | musl-1.2.3/ldso/dynlink.c:1413-1428 | in every run a destructor runs only for a constructed DSO that has one |
| CtorProtocol.DestructorsReverseStarts | musl-1.2.3/ldso/dynlink.c:1401-1429 | destructors run at most once each, in the reverse of the order in which constructors started |
| CtorProtocol.AllFinalised | musl-1.2.3/ldso/dynlink.c:1413-1428 | when the exit walk is over every constructed DSO with destructors has been finalised |
| GnuHash.Hash | musl-1.2.3/ldso/dynlink.c:235-242 | the loop computes the polynomial in 33 over the bytes, modulo 2^32 |
| GnuHash.Lookup | musl-1.2.3/ldso/dynlink.c:258-277 | on a well-formed table finds the first hashed, visible symbol of that name, or nothing iff there is none |
| GnuHash.LookupFiltered | musl-1.2.3/ldso/dynlink.c:279-289 | with the filter in front the result is the same: the Bloom words never reject a present name |
| GnuHash.FirstUnique | musl-1.2.3/ldso/dynlink.c:258-289 | that result is unique, so filtered and unfiltered lookup agree |
| Bits.MaskBit | musl-1.2.3/ldso/dynlink.c:283 | masking with 1 << k tests bit k |
| SymSearch.Accept | musl-1.2.3/ldso/dynlink.c:316-324 | the bit tests accept exactly the usable types and bindings, defined where a definition is needed |
| SysvHash.Hash | musl-1.2.3/ldso/dynlink.c:224-233 | folding the top bits without clearing them, and clearing once at the end, gives the hash of the ELF ABI, which clears them at every byte |
| SysvHash.Lookup | musl-1.2.3/ldso/dynlink.c:244-256 | finds the first visible symbol of that name on the chain of its hash |
| SysvHash.FirstExact | musl-1.2.3/ldso/dynlink.c:244-256 | on a well-formed table what is found has the name, and nothing is found only if no symbol has it |
| SysvHash.FirstUnique | musl-1.2.3/ldso/dynlink.c:244-256 | that result is unique |
| SymSearch.FindSym | musl-1.2.3/ldso/dynlink.c:301-330 | the definition is the one of the first DSO in search order, with either kind of table, whose symbol of that name is usable; nothing iff no DSO has one |
| TlsLayout.MaxP2IsMax | musl-1.2.3/ldso/dynlink.c:34 | the negate-and-mask formula is the maximum for powers of two |
| TlsLayout.Layout.PlaceApp | musl-1.2.3/ldso/dynlink.c:1853-1867 | the application's TLS gets an offset that keeps the layout sound, for both layouts, and leaves the reserved gap above the thread pointer free |
| TlsLayout.Layout.Load | musl-1.2.3/ldso/dynlink.c:1165-1176 | a library's block is beyond all earlier ones, congruent to its image modulo its alignment, and tls_align becomes the maximum |
| TlsLayout.Startup | musl-1.2.3/ldso/dynlink.c:1853-1867 | application and libraries placed one after the other: no two static TLS blocks overlap, each is congruent to its image modulo its alignment, tls_align is the largest alignment, and the gap above the thread pointer stays free iff the application has TLS, no library has, or the first library's image lies far enough from its alignment |
| TlsLayout.FirstLibraryInGap | musl-1.2.3/ldso/dynlink.c:1165-1176 | with a 16-byte gap and no application TLS, a library image on a 16-byte boundary does not meet that condition |
| TlsLayout.Layout.LoadAll | musl-1.2.3/ldso/dynlink.c:1165-1176 | any sequence of loads keeps the layout sound, records these segments in this order, each beyond the ones before |
| TlsLayout.BlocksCongruent | musl-1.2.3/ldso/dynlink.c:1165-1176 | with a thread pointer aligned to tls_align every block is congruent to its image modulo its alignment |
| TlsLayout.LargestIsMax | musl-1.2.3/ldso/dynlink.c:1167 | the recorded alignment is an upper bound that some module or the minimum attains |
| TlsThread.CopyTls | musl-1.2.3/src/env/__init_tls.c:39-71 | in a zeroed area of the size computed by update_tls_size: the thread pointer is aligned, descriptor, DTV and blocks do not overlap, every block holds its module's image followed by zeros, the DTV in memory has the count and points to the blocks, and nothing outside the area changes |
| TlsThread.CopyImages | musl-1.2.3/src/env/__init_tls.c:52-65 | every block gets its image, no copy damages another block or reads a changed image |
| TlsLayout.Layout.CopyTls | musl-1.2.3/src/env/__init_tls.c:39-71 | the addresses: descriptor, DTV and all blocks lie inside the area without overlapping, the thread pointer is aligned, and the DTV entries are the blocks' addresses |
| TlsLayout.RoundUpOk | musl-1.2.3/ldso/dynlink.c:1569-1579 | ALIGN rounds up by less than one alignment |
| TlsInstall.AllocationSize | musl-1.2.3/ldso/dynlink.c:1143-1150 | with the per-thread size as size_t arithmetic has it, the size is exact, or impossible to allocate when the exact one would not be representable |
| TlsInstall.EnoughExact | musl-1.2.3/ldso/dynlink.c:1143-1150 | the size covers all threads, or is impossible to allocate, iff the per-thread size does not wrap or is already too much |
| TlsInstall.WrappedPerThread | musl-1.2.3/ldso/dynlink.c:1143-1144 | a segment of 2^64 - 8 bytes and alignment 8 makes a per-thread size of 32 |
| TlsInstall.Fits | musl-1.2.3/ldso/dynlink.c:1143-1180 | for every thread and module count the DTV rows and the blocks fit between the name and the end of the allocation |
| TlsInstall.DtvAligned | musl-1.2.3/ldso/dynlink.c:1178-1179 | the DTVs start behind the name's terminator, within 7 bytes, word-aligned |
| TlsInstall.RowsFit | musl-1.2.3/ldso/dynlink.c:1585-1598 | every word of every DTV row lies in the reservation before the blocks |
| TlsInstall.RowsSeparate | musl-1.2.3/ldso/dynlink.c:1585-1598 | different DTV words never overlap |
| TlsInstall.BlockOk | musl-1.2.3/ldso/dynlink.c:1604-1611 | a thread's block stays inside its own stretch and is aligned like the image |
| TlsInstall.BlocksSeparate | musl-1.2.3/ldso/dynlink.c:1602-1611 | the blocks of different threads do not overlap and end inside the reservation |
| TlsInstall.InstallModule | musl-1.2.3/ldso/dynlink.c:1602-1611 | every thread gets the image followed by zeros and a DTV entry for it, nothing else in memory or in the DTVs changes |
| TlsInstall.InstallNewTls | musl-1.2.3/ldso/dynlink.c:1581-1613 | in one memory: every thread's new DTV, in the reservation of the last DSO, has the new count, the old entries, and for each new module the address of a block that holds its image; rows and blocks do not damage each other; memory outside the new DSOs' allocations is untouched |
| TlsInstall.StoreRows | musl-1.2.3/ldso/dynlink.c:1585-1600 | the DTV rows, stored word by word at their addresses, all read back, and nothing else changes |
| LazyRelocs.Dso.DoRelocs | musl-1.2.3/ldso/dynlink.c:361-403 | succeeds iff no record is an error; then the table holds its old records followed by exactly those that cannot be resolved, in order, and memory has all others applied in order, even when the records are read from the table itself |
| LazyRelocs.LastRecordDecides | musl-1.2.3/ldso/dynlink.c:361-443 | after a table without errors the word at an address is the one the last record for it stores: symbol plus addend, or base plus addend for RELATIVE, modulo 2^64 |
| LazyRelocs.OtherWordsStay | musl-1.2.3/ldso/dynlink.c:361-443 | a word no record stores to is unchanged |
| LazyRelocs.Relocate | musl-1.2.3/ldso/dynlink.c:361-443 | by type number: NONE does nothing; without a value GLOB_DAT and JUMP_SLOT wait where there is a table and all else is an error; with one, 64, GLOB_DAT and JUMP_SLOT store symbol plus addend, RELATIVE stores base plus addend, modulo 2^64, and no other word changes |
| LazyRelocs.PendingExact | musl-1.2.3/ldso/dynlink.c:389-397 | a waiting record is kept as often as it occurred, every other not at all |
| LazyRelocs.PendingWaits | musl-1.2.3/ldso/dynlink.c:392 | whatever is kept is a PLT or GOT record without a definition |
| LazyRelocs.Dso.RelocateAll | musl-1.2.3/ldso/dynlink.c:1346-1357 | the three relocation tables of a DSO never overflow the table that prepare_lazy made; afterwards it holds what waits, table by table, and succeeds iff no record is an error |
| LazyRelocs.RoomEnough | musl-1.2.3/ldso/dynlink.c:2010 | the number of records allocated covers every record of the three tables |
| LazyRelocs.Linker.PrepareLazy | musl-1.2.3/ldso/dynlink.c:2003-2023 | nothing happens for a DSO that asks for immediate binding; any other gets an empty table with the room computed and becomes the head of the lazy list |
| LazyRelocs.Dso.Redo | musl-1.2.3/ldso/dynlink.c:522-524 | running a table through do_relocs in place never fails and leaves exactly the records that still wait, in order |
| LazyRelocs.Linker.RedoLazyRelocs | musl-1.2.3/ldso/dynlink.c:516-534 | every table is compacted to what still waits; the word at an address is symbol plus addend of the last resolved record for it over all tables, and unchanged where there is none; exactly the DSOs with records left are on the new list (newest first), the others have no table and no list link |
| LazyRelocs.LastTableDecides | musl-1.2.3/ldso/dynlink.c:516-534 | over the tables of all DSOs the last resolved record for an address decides its word |
| AioSeq.StepKeeps | musl-1.2.3/src/aio/aio.c:178-322 | every step of submitters and workers keeps the queue's invariant |
| AioSeq.SequencedAfterOlderWrites | musl-1.2.3/src/aio/aio.c:243-251 | a sync, or a write where the descriptor appends, begins only when every write linked before it has left the list |
| AioSeq.FsyncCoversSubmittedWrites | musl-1.2.3/src/aio/aio.c:205-322 | in terms of the calls: an fsync submitted after the submit of a write has returned begins only when that write has left the list, whichever threads call and on any descriptor |
| AioSeq.AppendsCoverSubmittedWrites | musl-1.2.3/src/aio/aio.c:205-322 | the same for two writes to an appending descriptor, which also start in the order of the calls |
| AioSeq.OthersNeverWait | musl-1.2.3/src/aio/aio.c:243-251 | a read, and a write where the descriptor does not append, never waits |
| AioSeq.AppendsOneAtATime | musl-1.2.3/src/aio/aio.c:243-251 | appending writes run one at a time in the order of linking |
| AioSeq.SubmissionOrderKept | musl-1.2.3/src/aio/aio.c:205-322 | an operation whose submit has returned is linked before any operation submitted later, by whatever thread, because the worker posts under the lock and links before dropping it |
| AioSeq.SequencedAfterSubmittedWrites | musl-1.2.3/src/aio/aio.c:205-322 | a sync, or a write where the descriptor appends, has begun only when every write whose submit returned before its own call has left the list |
| AioSeq.AppendsInSubmissionOrder | musl-1.2.3/src/aio/aio.c:205-322 | of two appending writes, one submitted after the other's submit had returned, the earlier starts first and has left when the later starts |
| AioSeq.StartsInTurn | musl-1.2.3/src/aio/aio.c:205-272 | a started sequenced operation has started after every write linked before it |
| AioSeq.ProgramOrderKept | musl-1.2.3/src/aio/aio.c:276-322 | operations of one thread are linked in the order of its calls, because of the semaphore handshake |
| AioSeq.NoDeadlock | musl-1.2.3/src/aio/aio.c:178-274 | as long as an operation is not done some thread can take a step: waits point to strictly older writes and no wake-up is lost |
| AioSeq.OldestAwake | musl-1.2.3/src/aio/aio.c:243-251 | the oldest operation in the list never waits |
| AioRef.StepKeeps | musl-1.2.3/src/aio/aio.c:83-153 | every step of every agent keeps locks, map, counts and history consistent |
| AioRef.RefCountsOwners | musl-1.2.3/src/aio/aio.c:125-153 | in every state of every run the reference count is the number of operations that own a reference |
| AioRef.NeverUsedAfterFree | musl-1.2.3/src/aio/aio.c:83-153 | a queue that any thread may still touch has not been freed |
| AioRef.FreedOnce | musl-1.2.3/src/aio/aio.c:139-147 | no queue is freed twice |
| AioRef.FreedUnshared | musl-1.2.3/src/aio/aio.c:133-147 | at the moment of free nobody else owns, holds or waits for the queue and the map does not lead to it |
| AioRef.QueueOfDescriptor | musl-1.2.3/src/aio/aio.c:83-153 | in every run an operation that began with a descriptor may touch, and so refer to and free, only a queue made for that descriptor |
| AioRef.CountMatchesMap | musl-1.2.3/src/aio/aio.c:83-153 | aio_fd_cnt is the number of queues in the map whenever nobody holds the map's write lock |
| AioRef.Quiescent | musl-1.2.3/src/aio/aio.c:83-153 | when every operation has finished all queues are freed, the map is empty and all locks are free |
| AioRef.NoDeadlock | musl-1.2.3/src/aio/aio.c:83-153 | in every state of every run with an operation in progress, some operation in progress can take its next step: the map lock and the queue locks cannot deadlock |
| HashStream.FoldSplit | musl-1.2.3/src/crypt/crypt_sha256.c:135-154 | compressing a concatenation is compressing the first part's whole blocks and then its rest together with the second part |
| HashStream.ShortPad | musl-1.2.3/src/crypt/crypt_sha256.c:86-107 | padding that fits the current block is one compression |
| HashStream.LongPad | musl-1.2.3/src/crypt/crypt_sha256.c:86-107 | padding that does not fit is two compressions |
| HashStream.PaddedIsWhole | musl-1.2.3/src/crypt/crypt_sha256.c:86-107 | a padded message is a whole number of blocks |
| HashStream.LeastZeros | musl-1.2.3/src/crypt/crypt_sha256.c:86-107 | the number of zero bytes is the least that leaves room for the length |
| Bits.DigitsValue | musl-1.2.3/src/crypt/crypt_sha256.c:97-105 | the length field spells the length |
| HashStream.Wrapped | musl-1.2.3/src/crypt/crypt_sha256.c:88-97 | the 64-bit byte counter gives the position in the block and, times 8, the bit length modulo 2^64, also after wrapping |
| Sha256.HashPieces | musl-1.2.3/src/crypt/crypt_sha256.c:86-154 | however a message is cut into updates, the result is the FIPS 180-3 digest of the whole |
| Sha256.SpellingReadsBack | musl-1.2.3/src/crypt/crypt_sha256.c:122-133 | the four bytes written for a state word read back, most significant first, as that word |
| Sha256Tables.RoundConstants | musl-1.2.3/src/crypt/crypt_sha256.c:32-41 | each round constant is the first 32 bits of the fraction of the cube root of its prime |
| Sha256Tables.PrimesInOrder | musl-1.2.3/src/crypt/crypt_sha256.c:32-41 | the primes are the first 64, in order |
| Sha256.InitialState | musl-1.2.3/src/crypt/crypt_sha256.c:109-120 | the initial words are the first 32 bits of the fractions of the square roots of the first eight primes |
| Sha256.Context.constructor | musl-1.2.3/src/crypt/crypt_sha256.c:109-120 | the context stands for the empty message |
| Sha256.Context.Update | musl-1.2.3/src/crypt/crypt_sha256.c:135-154 | the context stands for the message so far followed by the new bytes |
| Sha256.Context.ProcessBlock | musl-1.2.3/src/crypt/crypt_sha256.c:43-84 | the loops compute the compression of section 6.2 of FIPS 180-3 |
| Sha256.Context.Pad | musl-1.2.3/src/crypt/crypt_sha256.c:86-107 | the state becomes the fold over the message with the padding of section 5.1.1 |
| Sha256.Context.Sum | musl-1.2.3/src/crypt/crypt_sha256.c:122-133 | the output spells the final state, most significant bytes first |
| Sha256.SigmasAgree | musl-1.2.3/src/crypt/crypt_sha256.c:24-30 | the shift-and-or rotations give the standard's sigma functions |
| Sha256.MixersAgree | musl-1.2.3/src/crypt/crypt_sha256.c:25-26 | the shortened Ch and Maj equal the standard's |
| Sha256.Context.HashMd | musl-1.2.3/src/crypt/crypt_sha256.c:178-185 | appends n bytes of the digest repeated |
| Sha256.RepeatedAt | musl-1.2.3/src/crypt/crypt_sha256.c:178-185 | byte k of the repetition is byte k mod 32 of the digest |
| Md5.HashPieces | musl-1.2.3/src/crypt/crypt_md5.c:89-153 | however a message is cut into updates, the result is the RFC 1321 digest of the whole |
| Md5.SpellingReadsBack | musl-1.2.3/src/crypt/crypt_md5.c:121-132 | the four bytes written for a state word read back, least significant first, as that word |
| Md5.Context.constructor | musl-1.2.3/src/crypt/crypt_md5.c:112-119 | the context stands for the empty message |
| Md5.Context.Update | musl-1.2.3/src/crypt/crypt_md5.c:134-153 | the context stands for the message so far followed by the new bytes |
| Md5.Context.ProcessBlock | musl-1.2.3/src/crypt/crypt_md5.c:41-87 | the unrolled loops compute the 64 operations of section 3.4 of RFC 1321 |
| Md5.Context.Pad | musl-1.2.3/src/crypt/crypt_md5.c:89-110 | the state becomes the fold over the padded message, length least significant byte first |
| Md5.Context.Sum | musl-1.2.3/src/crypt/crypt_md5.c:121-132 | the output spells the final state, least significant bytes first |
| Md5.IndexFormulas | musl-1.2.3/src/crypt/crypt_md5.c:64-80 | the index formulas give the word order of the RFC's table |
| Md5.MixersAgree | musl-1.2.3/src/crypt/crypt_md5.c:21-24 | the source's F, G, H and I equal the RFC's |
| Md5.TurnAgrees | musl-1.2.3/src/crypt/crypt_md5.c:20-28 | one FF, GG, HH or II is the RFC's operation, after which the variables change places |
| Bits.MaskIsMod | musl-1.2.3/ldso/dynlink.c:1169-1175 | x & (m - 1) is x mod m for a power of two m |
| Bits.ClearLowIsFloor | musl-1.2.3/ldso/dynlink.c:1178-1179 | x & -m rounds x down to a multiple of m |

## Left out

- SegmentHeaderSplit: the store through a null `Next` is counted, not performed; what it does to the machine is not modelled.
- KernelHeap.constructor: requires a non-zero 16-aligned start and at least one page inside the address space, which the kernel's caller provides and the code does not check.
- Malloc: requires that the heap still fits below 2^63 bytes and inside the address space after growing, because the code does not check it.
- ExpandHeap: requires the same room as Malloc, for the same reason.
- Run: requires that no call of the sequence grows the heap beyond that limit.
- Memory of the heap is word-granular at header fields and byte addresses elsewhere; `MapMemory` and the page allocator are a supply of fresh zeroed pages.
- Disk hardware: the disk is a map from sector numbers to 512 bytes, and reading any other sector fails.
- `pf_readdir`, `pf_opendir`, `pf_write` and the code-page tables of Petit FatFs.
- PfMount: requires a non-zero sectors-per-cluster byte in the boot record, because the code divides by it unchecked.
- PfOpen: requires a power-of-two cluster size, and that neither the data area nor a fixed root directory wraps around 2^32; PfMount gives this for every sound boot sector.
- Session: requires that the boot sector of whatever volume is found is sound in that sense.
- Allocation failures in the dynamic linker, built-in buffers and the fork check at the end of `queue_ctors`.
- Constructor and destructor bodies, and the `dlopen` lock: a constructor may re-enter `do_init_fini`, nothing else.
- FindSym: requires well-formed tables; symbol names are given as byte strings instead of offsets into a string table.
- PlaceApp: sizes and alignments whose sum wraps around 2^64 are excluded; the linker does not check them.
- Load: excludes such sizes too.
- LoadAll: excludes such sizes too.
- Startup: excludes such sizes too.
- CopyTls: requires an area that ends inside the address space; the `dtv` field of the descriptor is not stored.
- AllocationSize: a per-thread size that wraps to exactly 0 is excluded, because the code divides by it.
- InstallNewTls: the rows are filled in an array and stored when they are complete; nothing reads them in between. Signal blocking, the membarrier and the final pointer switch are not modelled.
- DoRelocs: knows the x86_64 types NONE, 64, GLOB_DAT, JUMP_SLOT and RELATIVE; TLS, copy and PC-relative relocations are rejected as unsupported, and the linker's own REL table with saved addends is not modelled.
- Relocate: knows the same types as DoRelocs.
- RelocateAll: knows the same types as DoRelocs, takes tables of whole records (the loop would run past the end of any other), and does not protect the read-only part afterwards.
- PrepareLazy: a failing allocation is not modelled.
- `aio_cancel`, cancellation of workers, `aio_suspend`, `lio_listio`, fork handling and notification of finished operations.
- The four-level table behind the AIO map; it is one map from descriptors to queues.
- Fairness: AioSeq.NoDeadlock and AioRef.NoDeadlock say that some step is possible, not that every operation finishes.
- `sha256crypt` and `md5crypt` as password schemes, `to64` and its permutation tables; the sine constants T of MD5 are given as data.
- Hardware drivers, boot code, and the rest of musl.
