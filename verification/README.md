# Verified model of libcryfs

libcryfs keeps a file system in encrypted blocks. This project models the parts of it whose
correctness rests on state, arithmetic or interleaving rather than on cryptography, and proves what
they promise. `dafny verify dfyconfig.toml` checks everything.

| module | component |
|---|---|
| LeftRight, LeftRightCalls | the wait-free-reader primitive, as a machine of atomic steps, and what its calls come to |
| QueueMap | the queue and map of cached entries, as a ring of heap objects |
| CacheProtocol, CacheProofs, CacheRaces | the block cache with its evictions, lock pool, clients and flushers, as a machine of steps; what every run keeps; the runs that go wrong |
| CachingBlockStore | the write-back block store on top of the queue map, as one thread sees it |
| BlobMath, BlobTree | the layout arithmetic and the left-max tree of a blob |
| LeafTraverser, TraversalProofs | the walk over leaves that grows, fills, creates, trims and collapses a tree, in unbounded numbers |
| WordTraverser, WordProofs, WordFailures, WordLimits | the same walk with the 32-bit arithmetic and the assertions of the source, and exactly when both agree |
| BlobBytes, DataTree | reading, writing and resizing a blob as operations on flat bytes |
| NodeStore | leaves and inner nodes as blocks, and which blocks a shrinking resize deletes |
| KnownBlockVersions, IntegrityStore | the version state machine against roll-backs, and the block store that uses it |
| StateFile | the file in which that state is kept |
| RunLength | the run-length compressor |
| DirectoryTree, DirectoryLinks, DirectoryMoves, DirectoryChanges, DirectoryReach, DirectoryRuns, CryDevice | path lookup, create, remove and rename on the directory tree |
| ParallelAccess, ParallelRuns, ParallelCalls | reference counts of shared resources, alone and with any number of threads, and what the calls come to |
| OpenFiles, OpenFileRuns | open files with running callbacks, alone and with any number of threads |
| Holders | threads and what they hold |
| Bytes | bytes and fixed-width numbers |

Concurrent parts are machines whose steps are the atomic accesses or critical sections of the
source; theorems about them quantify over all runs. Sequential objects are classes whose methods
are proved against functions on their abstract contents. Errors and failed assertions of the source
are results, so that a theorem can say when they occur.

Where the code does not keep a promise on all inputs, the model follows the code, a lemma exhibits
the failing input or run, and a theorem gives the exact condition:

- `CachingBlockStore2::tryCreate` behaves like a plain map exactly if the block is cached or not in
  the base store (`CachingBlockStore.CachingBlockStore.TryCreate`, `CacheRaces.ClashIsFatal`,
  `CacheRaces.ExistingBlockIsCreated`).
- `tryCreate` records the new id only after its push. If the flusher has written the block back and
  taken its id off the not-in-base set before that, a later removal does not reach the base store
  and the block comes back (`CacheRaces.RemovedBlockComesBack`). `CacheProofs.StepKeepsInvIff` and
  `CacheProofs.OrderlyRunIsAMap` say that nothing else can go wrong, `CacheRaces.RaceIsFatal` that
  every such step can end in a wrong answer. A write-back that merely begins before the recording
  does no harm.
- `incrementVersion` wraps to zero if the highest 64-bit version has been accepted before
  (`KnownBlockVersions.WrapAround`, `KnownBlockVersions.MonotoneIff`). After that, and only after
  that, a superseded version of the same block is accepted again (`KnownBlockVersions.RollBack`,
  `KnownBlockVersions.DeadIff`).
- A failing `IntegrityBlockStore2::tryCreate` advances the version, so that the existing block is
  refused afterwards (`IntegrityStore.FailedCreateSupersedes`).
- The leaf capacity of a tree and the rounding divisions of a walk are computed in 32 bits. A walk is
  right if and only if they fit (`WordLimits.WalkIsRightIff`, `WordLimits.ReadIsRightIff`). A blob
  whose capacity is truncated cannot be used past the truncated capacity
  (`WordLimits.CutBlobIsUnreadable`), and not at all if that is zero
  (`WordFailures.HugeBlobIsUnreadable`). The same for the number of nodes (`BlobTree.NumNodesIff`,
  `BlobTree.NumNodesOverflows`).
- `DataTree::tryReadBytes` casts 64-bit numbers to signed ones and can claim bytes past the end
  (`DataTree.RealCountIff`, `DataTree.ReadsPastTheEnd`).
- A rename of a directory over a non-directory of another directory is refused only after the
  target has been deleted, so that a name has lost its blob (`DirectoryRuns.RenameOverFile`). Nothing
  else does that (`DirectoryRuns.StepKeepsConsistent`), and the tree stays a tree all the same
  (`DirectoryRuns.EveryRunKeepsTree`).
- A rename over a non-empty directory next to it succeeds and loses what was in there
  (`DirectoryRuns.RenameLosesFile`, `DirectoryReach.RenameLoses`), and creating a name that is taken
  leaves an unreachable blob (`DirectoryRuns.CreateLosesBlob`, `DirectoryReach.CreateLoses`).
- A `ParallelAccessStore::remove` that has been given the resource ends only later. If the key is
  loaded again in between, the next release sets the promise twice or the block is removed under its
  user; and a remove that looks for its key before the last release and adds its promise after it
  waits for nothing (`ParallelRuns.ReleasedTwice`, `RemovedInUse` and `Stranded`, with the exact
  conditions in `FaultIff`, `BackedIff` and `ServedIff`).
- A `FuseOpenFileList::close` can be kept waiting forever by loads that overlap
  (`OpenFileRuns.StarvedClose`).

## Model

| member | source | states |
|---|---|---|
| LeftRight.EveryRunIsSafe | src/cpp-utils/thread/LeftRight.h:50-151 | in every interleaving of readers, writer and destructor: no reader is inside the copy being written, both copies equal the logged writes whenever no write runs, every read sees exactly the writes whose data switch preceded its index load, and nobody touches the data after the destructor |
| LeftRight.StepKeepsInv | src/cpp-utils/thread/LeftRight.h:50-151 | every atomic step keeps the protocol invariant: counters count their holders, and a reader in the background copy is one the writer still waits for |
| LeftRight.RunKeepsInv | src/cpp-utils/thread/LeftRight.h:50-151 | the invariant along every run |
| LeftRight.ThrowingWrite | src/cpp-utils/thread/LeftRight.h:135-145 | a write function that throws on its first or its second call leaves two equal copies, of the old state or of the new one |
| LeftRightCalls.WriteEnds | src/cpp-utils/thread/LeftRight.h:64-140 | every call of write that has returned is logged once, and both copies are what its function makes of the old value, except exactly if it found the destructor begun or its first call threw, and then nothing has changed |
| LeftRightCalls.WriteTakesEffect | src/cpp-utils/thread/LeftRight.h:64-140 | so without destructor and exception every write takes effect |
| LeftRightCalls.WriterMoves | src/cpp-utils/thread/LeftRight.h:64-151 | the next step of a write is enabled unless it waits for readers, and brings it closer to returning |
| LeftRightCalls.WriterFinishes | src/cpp-utils/thread/LeftRight.h:64-151 | with nobody reading, every write can be completed |
| LeftRightCalls.WriteSucceeds | src/cpp-utils/thread/LeftRight.h:64-151 | and then is in the log |
| LeftRightCalls.ReadEnds | src/cpp-utils/thread/LeftRight.h:50-59 | every call of read that has returned has read the copy in the foreground at that time, except exactly if it found the destructor begun |
| LeftRightCalls.FlaggedRefuses | src/cpp-utils/thread/LeftRight.h:36-71 | once the destructor has begun every write is refused without a trace |
| LeftRightCalls.DestructorEnds | src/cpp-utils/thread/LeftRight.h:36-48 | without readers and writers the destructor ends |
| LeftRight.BlockersNeverGrow | src/cpp-utils/thread/LeftRight.h:147-151 | while the writer waits on a counter, no reader joins those that hold it or can still increment it |
| LeftRight.NoBlockersEndsWait | src/cpp-utils/thread/LeftRight.h:147-151 | once those readers are gone the wait is over |
| LeftRight.WaitIsBounded | src/cpp-utils/thread/LeftRight.h:101-151 | during a whole wait the readers waited for take at most the steps they had left when it began, whatever else is scheduled |
| LeftRight.ReadersAreWaitFree | src/cpp-utils/thread/LeftRight.h:50-59 | the next step of a reader is always enabled and brings it closer to returning |
| RunLength.RoundTrip | src/blockstore/implementations/compressing/compressors/RunLengthEncoding.cpp:19-136 | decompressing a compressed block gives the block, for every byte sequence; no premature end is reachable on compressed input |
| RunLength.CompressedInjective | src/blockstore/implementations/compressing/compressors/RunLengthEncoding.cpp:19-84 | different blocks have different compressed forms |
| RunLength.DecompressedIff | src/blockstore/implementations/compressing/compressors/RunLengthEncoding.cpp:93-136 | the decoder accepts exactly the streams of alternating runs whose sizes fit, and gives the bytes that these runs stand for |
| RunLength.CompressedSize | src/blockstore/implementations/compressing/compressors/RunLengthEncoding.cpp:19-84 | the output has at most n + 4 * (n / 65536) + 2 bytes |
| RunLength.WorstCaseSize | src/blockstore/implementations/compressing/compressors/RunLengthEncoding.cpp:19-84 | for every block without equal neighbours the output has exactly the bound, less two bytes at multiples of 65536 |
| RunLength.ArbitraryRunIs | src/blockstore/implementations/compressing/compressors/RunLengthEncoding.cpp:42-66 | the run of arbitrary bytes ends at the first six equal bytes within the cap, or at the cap, and nowhere else |
| RunLength.IdenticalRunIs | src/blockstore/implementations/compressing/compressors/RunLengthEncoding.cpp:75-84 | the repetition ends at the first other byte or at the cap |
| RunLength.ArbitraryRunLength | src/blockstore/implementations/compressing/compressors/RunLengthEncoding.cpp:42-66 | the scanning loop finds that end |
| RunLength.CountIdenticalBytes | src/blockstore/implementations/compressing/compressors/RunLengthEncoding.cpp:75-84 | the counting loop finds that length |
| RunLength.EncodeArbitraryWords | src/blockstore/implementations/compressing/compressors/RunLengthEncoding.cpp:35-40 | appends the stored form of the run and advances past it |
| RunLength.EncodeIdenticalWords | src/blockstore/implementations/compressing/compressors/RunLengthEncoding.cpp:68-73 | appends the stored form of the repetition and advances by at least one byte |
| RunLength.Compress | src/blockstore/implementations/compressing/compressors/RunLengthEncoding.cpp:19-33 | the loop computes the compressed form, which round-trips and obeys the size bound |
| RunLength.DecodeArbitraryWords | src/blockstore/implementations/compressing/compressors/RunLengthEncoding.cpp:116-124 | decodes one run or reports the premature end |
| RunLength.DecodeIdenticalWords | src/blockstore/implementations/compressing/compressors/RunLengthEncoding.cpp:126-136 | decodes one repetition or reports the premature end |
| RunLength.Decompress | src/blockstore/implementations/compressing/compressors/RunLengthEncoding.cpp:93-105 | the loop computes the decompressed form of every input, malformed ones included |
| QueueMap.QueueMap.constructor | src/blockstore/implementations/caching/cache/QueueMap.h:25-26 | the ring of the sentinel alone is the empty queue |
| QueueMap.QueueMap.Push | src/blockstore/implementations/caching/cache/QueueMap.h:33-42 | appends a new key at the end, refuses a present key without change, and keeps the doubly linked ring and the hash map in agreement |
| QueueMap.QueueMap.PopKey | src/blockstore/implementations/caching/cache/QueueMap.h:44-53 | removes one element in place and returns its value, or none |
| QueueMap.QueueMap.Pop | src/blockstore/implementations/caching/cache/QueueMap.h:55-60 | first in, first out |
| QueueMap.QueueMap.PeekKey | src/blockstore/implementations/caching/cache/QueueMap.h:62-67 | the oldest key |
| QueueMap.QueueMap.Peek | src/blockstore/implementations/caching/cache/QueueMap.h:69-74 | the oldest value |
| QueueMap.QueueMap.Size | src/blockstore/implementations/caching/cache/QueueMap.h:76-78 | the number of elements |
| QueueMap.QueueMap.AppendToQueue | src/blockstore/implementations/caching/cache/QueueMap.h:40-41 | linking before the sentinel extends the ring by one entry |
| QueueMap.QueueMap.RemoveFromQueue | src/blockstore/implementations/caching/cache/QueueMap.h:108-111 | unlinking takes exactly one entry out of the ring |
| QueueMap.RemovedIsDeletion | src/blockstore/implementations/caching/cache/QueueMap.h:44-53 | as a map, removal deletes one key and keeps every other binding |
| QueueMap.RemovedAt | src/blockstore/implementations/caching/cache/QueueMap.h:44-53 | as a sequence, removal cuts out one position and keeps the order |
| CacheProofs.EveryRunIsSafe | src/blockstore/implementations/caching/cache/Cache.h:71-164 | in every interleaving of clients (one per key), evictions and flushers, without exception: a value is in at most one of queue, eviction and client, pop finds nothing only after the value pushed last has been destroyed and so stored, the queue keeps its bound, and no assertion fails |
| CacheProofs.OrderlyRunIsAMap | src/blockstore/implementations/caching/CachingBlockStore2.cpp:24-149 | in every interleaving without the two exceptions below, all answers are those of a plain map, and a fallback load never returns stale data |
| CacheProofs.StepKeepsPlacement | src/blockstore/implementations/caching/cache/Cache.h:71-164 | every step of every thread keeps locks, mutex, queue and the places of all values in order |
| CacheProofs.RunKeepsPlacement | src/blockstore/implementations/caching/cache/Cache.h:71-164 | and so does every run |
| CacheProofs.StepKeepsInvIff | src/blockstore/implementations/caching/CachingBlockStore2.cpp:24-149 | a step keeps the full invariant if and only if it is neither a creation of an uncached block that the base store has nor the end of a write-back of a new block whose creation has not been recorded yet |
| CacheProofs.RunKeepsInv | src/blockstore/implementations/caching/cache/Cache.h:71-164 | the full invariant along every run without these two |
| CacheProofs.KeyIsSafe | src/blockstore/implementations/caching/cache/Cache.h:71-116 | one place per value, and what was pushed is flushed before pop misses it, in every state that keeps the placement |
| CacheProofs.KeyIsFresh | src/blockstore/implementations/caching/cache/Cache.h:71-116 | no stale fallback load in a state with the full invariant |
| CacheProofs.NoDeadlock | src/cpp-utils/lock/LockPool.h:45-87 | after every run, whenever anything is under way, a step of something under way is enabled |
| CacheProofs.OldestNotLocked | src/blockstore/implementations/caching/cache/Cache.h:103-116 | the key that an eviction locks without giving up the mutex is never locked at that time |
| CacheProofs.FlushedMeansStored | src/blockstore/implementations/caching/cache/Cache.h:172-176 | with the cache empty and nobody at work the base store is the plain map of all operations |
| CacheProofs.DecisionIsRight | src/blockstore/implementations/caching/CachingBlockStore2.cpp:50-122 | what each store operation does with the answer of pop is what the plain map does, except for the clashing creation |
| CacheProofs.EraseOnce | src/cpp-utils/lock/LockPool.h:80-87 | release removes exactly the released name from the pool |
| CacheRaces.RemovedBlockComesBack | src/blockstore/implementations/caching/CachingBlockStore2.cpp:50-85 | a run in which a created, flushed, loaded and removed block is loaded again, because the write-back ended between push and the recording |
| CacheRaces.RaceIsFatal | src/blockstore/implementations/caching/CachingBlockStore2.cpp:24-85 | from every state in which a write-back of a new block ends before the creation is recorded, the run can be continued so that a removed block is loaded again |
| CacheRaces.LostRemovalIsIllegal | src/blockstore/implementations/caching/CachingBlockStore2.cpp:65-109 | no plain map gives those answers |
| CacheRaces.ClashIsFatal | src/blockstore/implementations/caching/CachingBlockStore2.cpp:50-63 | a creation of an uncached block that the base store has gives an answer that a plain map does not give |
| CacheRaces.ExistingBlockIsCreated | src/blockstore/implementations/caching/CachingBlockStore2.cpp:50-63 | a run in which a block that the base store has is created successfully |
| CachingBlockStore.CachingBlockStore.constructor | src/blockstore/implementations/caching/CachingBlockStore2.cpp:46-48 | the store starts as the base store |
| CachingBlockStore.CachingBlockStore.TryCreate | src/blockstore/implementations/caching/CachingBlockStore2.cpp:50-63 | creates and answers like a plain map, and keeps the invariant, if and only if the block is cached or the base store lacks it; the new block is dirty in the cache and recorded as not in the base store |
| CachingBlockStore.CachingBlockStore.Remove | src/blockstore/implementations/caching/CachingBlockStore2.cpp:65-85 | removes and answers like a plain map; the error about a block missing in the base store does not occur |
| CachingBlockStore.CachingBlockStore.Load | src/blockstore/implementations/caching/CachingBlockStore2.cpp:87-109 | answers like a plain map, changes no value, and leaves the block cached |
| CachingBlockStore.CachingBlockStore.Store | src/blockstore/implementations/caching/CachingBlockStore2.cpp:111-122 | updates one value of the plain map: in the cache only if the block is cached, and in the base store and the cache otherwise |
| CachingBlockStore.CachingBlockStore.NumBlocks | src/blockstore/implementations/caching/CachingBlockStore2.cpp:124-131 | the number of blocks of the plain map |
| CachingBlockStore.CachingBlockStore.ForEachBlock | src/blockstore/implementations/caching/CachingBlockStore2.cpp:141-149 | every block of the plain map exactly once |
| CachingBlockStore.CachingBlockStore.Flush | src/blockstore/implementations/caching/CachingBlockStore2.cpp:151-153 | empties the cache, and the base store becomes the plain map |
| CachingBlockStore.CachingBlockStore.Push | src/blockstore/implementations/caching/cache/Cache.h:83-101 | evicts the oldest entry if the cache is full and pushes; no value but that of the key changes |
| CachingBlockStore.CachingBlockStore.MakeSpaceForEntry | src/blockstore/implementations/caching/cache/Cache.h:91-101 | evicts the oldest entry of a full cache and nothing else, changing nothing that a caller can see |
| CachingBlockStore.CachingBlockStore.Pop | src/blockstore/implementations/caching/cache/Cache.h:71-81 | takes the cached block of one key |
| CachingBlockStore.CachingBlockStore.DeleteEntry | src/blockstore/implementations/caching/cache/Cache.h:103-116 | an eviction changes nothing that a caller can see |
| CachingBlockStore.EvictOldest | src/blockstore/implementations/caching/CachingBlockStore2.cpp:24-31 | write-back of any cached block keeps all values and the not-in-base set exact |
| CachingBlockStore.SplitKeys | src/blockstore/implementations/caching/CachingBlockStore2.cpp:124-149 | the blocks are the disjoint union of those of the base store and the not-in-base set |
| BlobMath.LayoutFor | src/blobstore/implementations/onblocks/datanodestore/DataNodeView.h:20-57 | exactly the block sizes with room for two children are accepted, and the capacities fill the block |
| BlobMath.IntPow | src/blobstore/implementations/onblocks/utils/Math.h:12-19 | the power modulo 2^64 |
| BlobMath.CeilIs | src/blobstore/implementations/onblocks/utils/Math.h:21-24 | the quotient rounded up is the one that covers the dividend and no more |
| BlobTree.LeafCount | src/blobstore/implementations/onblocks/datatreestore/DataTree.cpp:193-195 | a left-max tree of depth d holds between one and M^d leaves, and its last child determines their number |
| BlobTree.SizeCacheIsExact | src/blobstore/implementations/onblocks/datatreestore/DataTree.cpp:103-120 | the descent along the right border counts all leaves and all bytes of the tree, in unbounded numbers |
| BlobTree.SizeCache32Iff | src/blobstore/implementations/onblocks/datatreestore/DataTree.cpp:103-120 | with its 32- and 64-bit products and sums the descent gives the size of the tree if and only if that size can be represented |
| BlobTree.CachedLeaves | src/blobstore/implementations/onblocks/datatreestore/DataTree.cpp:103-120 | and every blob of fewer than 2^32 leaves is such a tree |
| BlobTree.LevelSumIsNodes | src/blobstore/implementations/onblocks/datatreestore/DataTree.cpp:66-74 | the sum over levels of repeatedly rounded-up quotients is the number of nodes of the tree |
| BlobTree.NumNodes | src/blobstore/implementations/onblocks/datatreestore/DataTree.cpp:66-74 | the 32-bit loop returns the number of nodes if and only if that number and the rounding division of the leaf count fit into 32 bits |
| BlobTree.NumNodesIff | src/blobstore/implementations/onblocks/datatreestore/DataTree.cpp:66-74 | the same condition for the sum over the levels |
| BlobTree.NumNodesOverflows | src/blobstore/implementations/onblocks/datatreestore/DataTree.cpp:66-74 | a tree of three nodes whose count comes out as two |
| TraversalProofs.RootAchieves | src/blobstore/implementations/onblocks/datatreestore/impl/LeafTraverser.cpp:27-78 | a walk over any range of leaf indices, beyond the end and beyond the depth included, makes exactly the callbacks for that range in order and leaves a well-formed left-max tree whose leaves are the callback results, the old leaves, and full leaves of zeroes in a gap |
| TraversalProofs.TraverseAchieves | src/blobstore/implementations/onblocks/datatreestore/impl/LeafTraverser.cpp:88-174 | the same for an existing subtree, with the old last leaf grown to full size if the walk goes past it |
| TraversalProofs.CreateAchieves | src/blobstore/implementations/onblocks/datatreestore/impl/LeafTraverser.cpp:176-223 | the same for a newly created subtree |
| TraversalProofs.NeededIs | src/blobstore/implementations/onblocks/datatreestore/DataTree.cpp:214-221 | the trimming formula on a right-border node, in unbounded numbers, gives the number of children that its remaining leaves need, between one and the maximum |
| TraversalProofs.CollapseKeeps | src/blobstore/implementations/onblocks/datatreestore/impl/LeafTraverser.cpp:238-265 | replacing a root with one child keeps the leaves and gives a root with at least two children, or a leaf |
| WordProofs.RootAchieves32 | src/blobstore/implementations/onblocks/datatreestore/impl/LeafTraverser.cpp:27-78 | the walk with the 32-bit capacities, products and divisions, the assertions and the depth limit of the source succeeds and does what RootAchieves says, whenever capacity and rounding of the final depth fit |
| WordProofs.Root32Is | src/blobstore/implementations/onblocks/datatreestore/impl/LeafTraverser.cpp:27-78 | and is then equal to the walk in unbounded numbers |
| WordProofs.Traverse32Is | src/blobstore/implementations/onblocks/datatreestore/impl/LeafTraverser.cpp:88-174 | the same for an existing subtree: none of the assertions fails |
| WordProofs.Create32Is | src/blobstore/implementations/onblocks/datatreestore/impl/LeafTraverser.cpp:176-223 | the same for a newly created subtree |
| WordProofs.NeededExact | src/blobstore/implementations/onblocks/datatreestore/DataTree.cpp:214-221 | the trimming formula in 32 bits gives that number, too |
| WordLimits.WalkIsRightIff | src/blobstore/implementations/onblocks/datatreestore/impl/LeafTraverser.cpp:27-78 | a walk over any range of 32-bit leaf indices is right if and only if capacity, rounding and depth of its final level fit; otherwise it fails, visits too few leaves or leaves too deep a tree |
| WordLimits.ReadIsRightIff | src/blobstore/implementations/onblocks/datatreestore/impl/LeafTraverser.cpp:27-78 | the same for a read-only walk within the leaves of the tree |
| WordLimits.CutIsWrong | src/blobstore/implementations/onblocks/datatreestore/impl/LeafTraverser.cpp:40-72 | a walk past a capacity that is truncated below its end goes wrong, whatever the truncated capacity is |
| WordLimits.CutBlobIsUnreadable | src/blobstore/implementations/onblocks/datatreestore/impl/LeafTraverser.cpp:40-72 | with blocks of 26024 bytes this happens to the last leaf of a well-formed blob of 5287753 leaves |
| WordFailures.NoCapacity | src/blobstore/implementations/onblocks/datatreestore/impl/LeafTraverser.cpp:225-227 | over a tree whose capacity is truncated to zero every walk fails |
| WordFailures.HugeBlobIsUnreadable | src/blobstore/implementations/onblocks/datatreestore/impl/LeafTraverser.cpp:119-127 | with blocks of 264 bytes this happens to a well-formed blob of 2^28 + 1 leaves |
| BlobBytes.HoldsIsFlat | src/blobstore/implementations/onblocks/datatreestore/DataTree.cpp:134-191 | leaves that are full up to the last one determine the bytes of the blob |
| BlobBytes.Resized | src/blobstore/implementations/onblocks/datatreestore/DataTree.cpp:197-234 | the bytes cut off or extended with zeroes |
| BlobBytes.Written | src/blobstore/implementations/onblocks/datatreestore/DataTree.cpp:296-320 | the source at its offset, zeroes in a gap, every other byte as before |
| DataTree.SlicesPartition | src/blobstore/implementations/onblocks/datatreestore/DataTree.cpp:134-191 | the per-leaf slices partition the byte range: a position is in the range exactly if it is in the slice of its leaf |
| DataTree.WriteHolds | src/blobstore/implementations/onblocks/datatreestore/DataTree.cpp:296-320 | the leaves after a write hold the written bytes |
| DataTree.GrowingIs | src/blobstore/implementations/onblocks/datatreestore/DataTree.cpp:134-191 | the flag for growing the blob is raised exactly if the write ends past the old end |
| DataTree.WriteSize | src/blobstore/implementations/onblocks/datatreestore/DataTree.cpp:186-190 | the number of leaves and bytes after a write |
| DataTree.ResizeHolds | src/blobstore/implementations/onblocks/datatreestore/DataTree.cpp:197-234 | the leaves after a resize hold the resized bytes |
| DataTree.ReadChangesNothing | src/blobstore/implementations/onblocks/datatreestore/DataTree.cpp:283-294 | a reading walk leaves the tree as it is and visits the leaves of the range |
| DataTree.UniqueTree | src/blobstore/implementations/onblocks/datatreestore/DataTree.cpp:193-234 | the leaves determine the tree: two well-formed trees with the same leaves are equal |
| DataTree.WriteOk | src/blobstore/implementations/onblocks/datatreestore/DataTree.cpp:296-320 | a write through the walk in unbounded numbers is the write on flat bytes, with the exact new sizes and growing flag |
| DataTree.WriteWalks | src/blobstore/implementations/onblocks/datatreestore/DataTree.cpp:296-320 | the same through the walk in 32 bits, with the leaf indices as the source computes them |
| DataTree.ResizeWalks | src/blobstore/implementations/onblocks/datatreestore/DataTree.cpp:197-234 | a resize through the walk in 32 bits is the resize on flat bytes |
| DataTree.ResizeExact | src/blobstore/implementations/onblocks/datatreestore/DataTree.cpp:200-204 | the new number of leaves and the size of the last one, in 32 and 64 bits |
| DataTree.ReadWalksIff | src/blobstore/implementations/onblocks/datatreestore/DataTree.cpp:283-294 | a read within the blob visits the leaves of its range in 32 bits and changes nothing, if and only if the blob can be walked over that far |
| DataTree.ResizeIsRightIff | src/blobstore/implementations/onblocks/datatreestore/DataTree.cpp:197-234 | the walk of a resize is right if and only if its arithmetic fits |
| DataTree.WriteIsRightIff | src/blobstore/implementations/onblocks/datatreestore/DataTree.cpp:296-320 | the walk of a write is right if and only if its arithmetic fits |
| DataTree.RealCountIff | src/blobstore/implementations/onblocks/datatreestore/DataTree.cpp:278-280 | with its casts to signed numbers _tryReadBytes computes the number of bytes there are if and only if the three numbers are small enough in the way CastsFit says |
| DataTree.ReadsPastTheEnd | src/blobstore/implementations/onblocks/datatreestore/DataTree.cpp:278-280 | otherwise it can claim bytes at an offset far past the end |
| DataTree.TreeSize | src/blobstore/implementations/onblocks/datatreestore/DataTree.cpp:91-120 | the computed size is the size of the blob |
| DataTree.DoReadBytes | src/blobstore/implementations/onblocks/datatreestore/DataTree.cpp:283-294 | copies exactly the requested bytes and nothing else, with none of its assertions failing, if the blob can be walked over that far |
| DataTree.DataTree.constructor | src/blobstore/implementations/onblocks/datatreestore/DataTree.cpp:40-42 | a new blob is empty |
| DataTree.DataTree.GetOrComputeSizeCache | src/blobstore/implementations/onblocks/datatreestore/DataTree.cpp:91-95 | what is cached equals a fresh computation |
| DataTree.DataTree.ResizeNumBytes | src/blobstore/implementations/onblocks/datatreestore/DataTree.cpp:197-234 | if the arithmetic of the walk fits, the bytes are resized, and the cached size equals a fresh computation |
| DataTree.DataTree.WriteBytes | src/blobstore/implementations/onblocks/datatreestore/DataTree.cpp:296-320 | if the arithmetic of the walk fits, the bytes are written, and the cached size equals a fresh computation |
| DataTree.DataTree.TryReadBytes | src/blobstore/implementations/onblocks/datatreestore/DataTree.cpp:275-281 | if the blob can be walked over that far and the signed casts fit, reads what there is of the range and reports how much; never changes the blob |
| DataTree.DataTree.ReadBytes | src/blobstore/implementations/onblocks/datatreestore/DataTree.cpp:245-256 | refuses a range exactly if it is not within the blob, and reads it otherwise, if the blob can be walked over that far |
| NodeStore.DataLeafNode.constructor | src/blobstore/implementations/onblocks/datanodestore/DataNodeView.h:146-154 | the initial data, and zeroes in the rest of the block |
| NodeStore.DataLeafNode.Write | src/blobstore/implementations/onblocks/datanodestore/DataLeafNode.cpp:44-47 | writes within the size of the leaf, or asserts; the bytes past the size stay zero |
| NodeStore.DataLeafNode.Resize | src/blobstore/implementations/onblocks/datanodestore/DataLeafNode.cpp:53-66 | keeps the common prefix and reads zeroes after it; the bytes past the size are zero |
| NodeStore.ShrinkThenGrow | src/blobstore/implementations/onblocks/datanodestore/DataLeafNode.cpp:53-66 | shrinking and growing again reads zeroes |
| NodeStore.DataNodeStore.RemoveSubtree | src/blobstore/implementations/onblocks/datanodestore/DataNodeStore.cpp:107-123 | deletes the blocks of the subtree and no others |
| NodeStore.DataNodeStore.TrimChildren | src/blobstore/implementations/onblocks/datatreestore/DataTree.cpp:222-226 | deletes the blocks of the children after the needed ones and no others |
| NodeStore.DataNodeStore.Shrink | src/blobstore/implementations/onblocks/datatreestore/DataTree.cpp:197-229 | the walk of a shrinking resize deletes exactly the blocks of the dropped subtrees along the right border |
| NodeStore.DataNodeStore.RemoveChain | src/blobstore/implementations/onblocks/datatreestore/impl/LeafTraverser.cpp:249-265 | deletes exactly the single-child nodes above the new root |
| NodeStore.DataNodeStore.LowerRoot | src/blobstore/implementations/onblocks/datatreestore/impl/LeafTraverser.cpp:238-247 | the root id takes over the node below the chain, and exactly the chain is deleted |
| NodeStore.DataNodeStore.ShrinkBlob | src/blobstore/implementations/onblocks/datatreestore/DataTree.cpp:197-229 | after a shrinking resize the blocks of the blob are exactly those of the remaining tree, under the same root id, and no other block has changed |
| NodeStore.CutIsTraverse | src/blobstore/implementations/onblocks/datatreestore/DataTree.cpp:197-229 | the nodes that stay are those of the traversal |
| NodeStore.CutRootIsShrunk | src/blobstore/implementations/onblocks/datatreestore/DataTree.cpp:197-234 | what stays is a well-formed tree with exactly n leaves: the first n, the last of them resized |
| KnownBlockVersions.SupersededIsNeverAccepted | src/blockstore/implementations/integrity/KnownBlockVersions.cpp:60-96 | in every run: after an accepted client and version has been superseded by another client, a newer version or a deletion, the same pair is not accepted again, unless the own version of that block has wrapped around in between |
| KnownBlockVersions.DeadIff | src/blockstore/implementations/integrity/KnownBlockVersions.cpp:60-96 | a superseded pair becomes acceptable in a step if and only if the step wraps the version of the same block of this client |
| KnownBlockVersions.DeadLater | src/blockstore/implementations/integrity/KnownBlockVersions.cpp:60-96 | and stays unacceptable along every run without such a step |
| KnownBlockVersions.KnownGrows | src/blockstore/implementations/integrity/KnownBlockVersions.cpp:60-96 | one known version decreases in such a step and in no other |
| KnownBlockVersions.SeenAfter | src/blockstore/implementations/integrity/KnownBlockVersions.cpp:60-96 | an accepted version stays known along every run without such a step |
| KnownBlockVersions.RollBack | src/blockstore/implementations/integrity/KnownBlockVersions.cpp:60-96 | a run in which a superseded version is accepted again |
| KnownBlockVersions.CheckedIs | src/blockstore/implementations/integrity/KnownBlockVersions.cpp:60-83 | accepting a pair makes it the current one and touches no other block or client; refusing it changes nothing |
| KnownBlockVersions.IncrementIs | src/blockstore/implementations/integrity/KnownBlockVersions.cpp:85-96 | an increment makes the known version one higher and this client the last updater, is refused just below the highest version, wraps from the highest to zero, and touches no other client or block |
| KnownBlockVersions.ConsecutiveVersions | src/blockstore/implementations/integrity/KnownBlockVersions.cpp:85-96 | increments in a row make consecutive versions |
| KnownBlockVersions.KnownIsMax | src/blockstore/implementations/integrity/KnownBlockVersions.cpp:60-96 | in every run from the start the known version is the highest one that has been shown or made |
| KnownBlockVersions.LastIsLatest | src/blockstore/implementations/integrity/KnownBlockVersions.cpp:60-96 | and the last updater is the client of the latest thing that has happened to the block |
| KnownBlockVersions.AcceptableIff | src/blockstore/implementations/integrity/KnownBlockVersions.cpp:60-83 | so a pair is acceptable if and only if its version is higher than all that its client has shown or made of the block, or the pair is the latest thing that has happened to the block |
| KnownBlockVersions.ShouldExistIff | src/blockstore/implementations/integrity/KnownBlockVersions.cpp:222-230 | and a block should exist if and only if the latest thing that has happened to it is no deletion |
| KnownBlockVersions.MonotoneIff | src/blockstore/implementations/integrity/KnownBlockVersions.cpp:60-96 | a step never decreases a known version, if and only if it is not an increment of the highest version |
| KnownBlockVersions.RunIsMonotone | src/blockstore/implementations/integrity/KnownBlockVersions.cpp:60-96 | known versions never decrease along a run without such a step |
| KnownBlockVersions.SupersededIsDead | src/blockstore/implementations/integrity/KnownBlockVersions.cpp:60-96 | what supersedes a seen version makes it unacceptable |
| KnownBlockVersions.WrapAround | src/blockstore/implementations/integrity/KnownBlockVersions.cpp:85-96 | accepting the highest version and then incrementing makes the known version zero |
| KnownBlockVersions.KnownBlockVersions.constructor | src/blockstore/implementations/integrity/KnownBlockVersions.cpp:24-29 | starts without any known version |
| KnownBlockVersions.KnownBlockVersions.CheckAndUpdateVersion | src/blockstore/implementations/integrity/KnownBlockVersions.cpp:60-83 | accepts exactly the pairs that are not superseded, records them, and refuses the deleted-client id and version zero |
| KnownBlockVersions.KnownBlockVersions.IncrementVersion | src/blockstore/implementations/integrity/KnownBlockVersions.cpp:85-96 | returns the known version plus one, zero after the highest one, and refuses exactly the version just below the highest |
| KnownBlockVersions.KnownBlockVersions.MarkBlockAsDeleted | src/blockstore/implementations/integrity/KnownBlockVersions.cpp:218-220 | supersedes every version of the block |
| KnownBlockVersions.KnownBlockVersions.BlockShouldExist | src/blockstore/implementations/integrity/KnownBlockVersions.cpp:222-230 | seen and not deleted |
| KnownBlockVersions.KnownBlockVersions.ExistingBlocks | src/blockstore/implementations/integrity/KnownBlockVersions.cpp:232-240 | exactly the blocks seen and not deleted |
| IntegrityStore.HeaderRoundTrip | src/blockstore/implementations/integrity/IntegrityBlockStore2.cpp:30-39 | all header fields and the data are read back as written |
| IntegrityStore.HeaderDetermines | src/blockstore/implementations/integrity/IntegrityBlockStore2.cpp:74-94 | a block of the current format is the one its fields make |
| IntegrityStore.MigrateIsPrepend | src/blockstore/implementations/integrity/IntegrityBlockStore2.cpp:148-156 | migrating a block of the old format gives the block in the new format |
| IntegrityStore.OldIsWellFormed | src/blockstore/implementations/integrity/IntegrityBlockStore2.cpp:148-156 | every block of the old format with a client and a version becomes a well-formed one with the same client, version and data |
| IntegrityStore.JudgeWritten | src/blockstore/implementations/integrity/IntegrityBlockStore2.cpp:41-72 | a written block is fine until something supersedes it, then superseded, and foreign under every other id |
| IntegrityStore.StoreKeepsHonest | src/blockstore/implementations/integrity/IntegrityBlockStore2.cpp:159-163 | writing keeps a store honest and changes one block |
| IntegrityStore.RemoveKeepsHonest | src/blockstore/implementations/integrity/IntegrityBlockStore2.cpp:118-121 | removing keeps a store honest and removes one block |
| IntegrityStore.HonestPasses | src/blockstore/implementations/integrity/IntegrityBlockStore2.cpp:41-72 | every block of an honest store passes all header checks, which then change nothing |
| IntegrityStore.FailedCreateSupersedes | src/blockstore/implementations/integrity/IntegrityBlockStore2.cpp:112-116 | a create that fails because the block exists makes the existing block unacceptable |
| IntegrityStore.IntegrityBlockStore.constructor | src/blockstore/implementations/integrity/IntegrityBlockStore2.cpp:105-110 | starts honest and empty |
| IntegrityStore.IntegrityBlockStore.TryCreate | src/blockstore/implementations/integrity/IntegrityBlockStore2.cpp:112-116 | creates exactly if the block does not exist; an honest store stays honest if and only if it did not exist |
| IntegrityStore.IntegrityBlockStore.Remove | src/blockstore/implementations/integrity/IntegrityBlockStore2.cpp:118-121 | removes the block, and an honest store stays honest |
| IntegrityStore.IntegrityBlockStore.Store | src/blockstore/implementations/integrity/IntegrityBlockStore2.cpp:159-163 | stores the block, and an honest store stays honest |
| IntegrityStore.IntegrityBlockStore.CheckHeader | src/blockstore/implementations/integrity/IntegrityBlockStore2.cpp:41-103 | passes exactly the blocks that name the id and carry a version that is not superseded, learns that version, and reports a foreign or superseded block once, by callback and flag, unless violations are allowed |
| IntegrityStore.IntegrityBlockStore.Load | src/blockstore/implementations/integrity/IntegrityBlockStore2.cpp:123-146 | for every content of the base store: a missing block that should exist, a foreign and a superseded one are reported, and nothing is returned unless violations are allowed; a fine block is returned; one of the old format is stored again in the new one; an honest store returns the data stored last without complaint |
| IntegrityStore.IntegrityBlockStore.ForEachBlock | src/blockstore/implementations/integrity/IntegrityBlockStore2.cpp:181-198 | reports a violation, by callback and flag, exactly if a block that should exist is missing, and none on an honest store |
| StateFile.RoundTrip | src/blockstore/implementations/integrity/KnownBlockVersions.cpp:98-207 | loading a saved file gives back the flag and both maps, for every order of the entries, with nothing left over |
| StateFile.OldRoundTrip | src/blockstore/implementations/integrity/KnownBlockVersions.cpp:107-116 | a file of the old format gives back both maps and no violation |
| StateFile.ParseIff | src/blockstore/implementations/integrity/KnownBlockVersions.cpp:98-207 | exactly the files of one of the two formats can be loaded, and loading gives the flag and what their entries make |
| StateFile.FirstWins | src/blockstore/implementations/integrity/KnownBlockVersions.cpp:142-152 | of two entries with the same key the first one counts |
| StateFile.TablesParse | src/blockstore/implementations/integrity/KnownBlockVersions.cpp:142-207 | both tables are read back |
| StateFile.InsertListed | src/blockstore/implementations/integrity/KnownBlockVersions.cpp:142-152 | inserting all entries of a map in any order gives the map |
| StateFile.SaveStateFile | src/blockstore/implementations/integrity/KnownBlockVersions.cpp:128-140 | the size computed in advance is filled exactly, so saving succeeds, and loading the file gives back the state |
| StateFile.LoadStateFile | src/blockstore/implementations/integrity/KnownBlockVersions.cpp:98-125 | computes the parse of every file, with all errors |
| StateFile.WriteKnownVersions | src/blockstore/implementations/integrity/KnownBlockVersions.cpp:154-161 | writes the number of entries and the entries |
| StateFile.WriteLastUpdateClientIds | src/blockstore/implementations/integrity/KnownBlockVersions.cpp:188-195 | writes the number of entries and the entries |
| StateFile.WriteKnownEntry | src/blockstore/implementations/integrity/KnownBlockVersions.cpp:171-175 | 28 bytes per entry |
| StateFile.WriteLastEntry | src/blockstore/implementations/integrity/KnownBlockVersions.cpp:204-207 | 20 bytes per entry |
| StateFile.Serializer.constructor | src/cpp-utils/data/Serializer.h:52-53 | nothing written yet |
| StateFile.Serializer.WriteData | src/cpp-utils/data/Serializer.h:123-129 | appends the bytes exactly if they fit |
| StateFile.Serializer.WriteUint | src/cpp-utils/data/Serializer.h:95-102 | appends the number exactly if it fits |
| StateFile.Serializer.WriteString | src/cpp-utils/data/Serializer.h:132-134 | appends the text and a zero byte exactly if they fit |
| StateFile.Serializer.Finished | src/cpp-utils/data/Serializer.h:140-145 | succeeds exactly if everything has been filled |
| StateFile.Deserializer.constructor | src/cpp-utils/data/Deserializer.h:43-44 | everything is left |
| StateFile.Deserializer.ReadUint | src/cpp-utils/data/Deserializer.h:89-98 | reads one number or reports the overflow |
| StateFile.Deserializer.ReadId | src/cpp-utils/data/Deserializer.h:124-129 | reads 16 bytes |
| StateFile.Deserializer.ReadBool | src/cpp-utils/data/Deserializer.h:46-55 | reads zero or one and refuses every other byte |
| StateFile.Deserializer.ReadString | src/cpp-utils/data/Deserializer.h:131-141 | reads up to the first zero byte |
| StateFile.Deserializer.ReadKnownEntry | src/blockstore/implementations/integrity/KnownBlockVersions.cpp:163-169 | reads one entry |
| StateFile.Deserializer.ReadLastEntry | src/blockstore/implementations/integrity/KnownBlockVersions.cpp:197-202 | reads one entry |
| StateFile.Deserializer.ReadKnownVersions | src/blockstore/implementations/integrity/KnownBlockVersions.cpp:142-152 | reads the table |
| StateFile.Deserializer.ReadLastUpdateClientIds | src/blockstore/implementations/integrity/KnownBlockVersions.cpp:177-186 | reads the table |
| StateFile.Deserializer.ReadTables | src/blockstore/implementations/integrity/KnownBlockVersions.cpp:121-124 | reads both tables and checks that nothing is left |
| DirectoryMoves.RenameWorks | src/cryfs/impl/filesystem/CryNode.cpp:79-146 | in every tree that a run leads to: a successful rename moves exactly what was below the source path to the target path, and every blob but the moved one and the two directories is as before; a failing one changes nothing, except that a directory renamed over a non-directory of another directory deletes that blob, and a name without a blob is moved to another directory before the error; a name loses its blob in the first case only |
| DirectoryMoves.RenameErrorIs | src/cryfs/impl/filesystem/CryNode.cpp:79-146 | a rename fails exactly in the cases read off the two paths, and with these errors |
| DirectoryLinks.BelowItselfIsRefused | src/cryfs/impl/filesystem/CryNode.cpp:90-105 | in every consistent tree, moving anything below itself is refused and changes nothing, with the error that the source path calls for |
| DirectoryReach.RenameLoses | src/cryfs/impl/filesystem/CryNode.cpp:115-135 | a rename of any kind makes blobs unreachable if and only if it overwrites a non-empty directory next to the source |
| DirectoryMoves.MoveMoves | src/cryfs/impl/filesystem/CryNode.cpp:137-144 | where every path leads after a move |
| DirectoryMoves.RenameKeepsValid | src/cryfs/impl/filesystem/CryNode.cpp:79-146 | a rename in a well-formed tree leaves a well-formed one, if and only if it is not one of a directory over a non-directory of another directory |
| DirectoryChanges.RemoveWorks | src/cryfs/impl/filesystem/CryDir.cpp:106-120 | exactly the existing nodes other than the root and non-empty directories are removed, and names without a blob with an error; every other path leads where it did, every other blob and entry is as before, and the error is the one that the path calls for |
| DirectoryReach.RemoveLoses | src/cryfs/impl/filesystem/CryNode.cpp:174-183 | removing makes no other blob unreachable |
| DirectoryChanges.CreateWorks | src/cryfs/impl/filesystem/CryDir.cpp:38-104 | creation works exactly in existing directories and under new names, with the error that the path calls for; the new blob has the kind asked for, points to the directory and is listed there; every other path, blob and entry is as before |
| DirectoryReach.CreateLoses | src/cryfs/impl/filesystem/CryDir.cpp:38-61 | creation leaves an unreachable blob if and only if the name is taken |
| DirectoryRuns.EveryRunKeepsTree | src/cryfs/impl/filesystem/CryNode.cpp:79-197 | after every run of creates, removes and renames, without exception: each reachable blob has exactly one path, its parent link names the listing directory, there is no cycle, no assertion has failed, a lookup fails with EIO exactly at a name that has lost its blob, and nothing can be moved below itself |
| DirectoryRuns.StepKeepsConsistent | src/cryfs/impl/filesystem/CryNode.cpp:79-197 | every step keeps the tree consistent and fails no assertion; it makes a name lose its blob if and only if it is a rename of a directory over a non-directory of another directory |
| DirectoryRuns.RunKeepsConsistent | src/cryfs/impl/filesystem/CryNode.cpp:79-197 | the same along every run |
| DirectoryLinks.RenameKeeps | src/cryfs/impl/filesystem/CryNode.cpp:79-146 | every rename keeps kinds, parent links and single listings, on trees with lost names too |
| DirectoryLinks.CreateKeeps | src/cryfs/impl/filesystem/CryDir.cpp:38-61 | and so does every creation |
| DirectoryLinks.RemoveKeeps | src/cryfs/impl/filesystem/CryDir.cpp:106-120 | and every removal |
| DirectoryTree.ValidIff | src/cryfs/impl/filesystem/CryDevice.cpp:233-265 | a tree is well-formed if and only if it is consistent and no name has lost its blob |
| DirectoryRuns.StepKeepsValid | src/cryfs/impl/filesystem/CryNode.cpp:79-197 | a step from a well-formed tree fails no assertion, misses no blob, and leaves a well-formed tree if and only if it is not a rename of a directory over a non-directory of another directory |
| DirectoryRuns.RunKeepsValid | src/cryfs/impl/filesystem/CryNode.cpp:79-197 | a run without such a step leaves a well-formed tree |
| DirectoryRuns.RenameOverFile | src/cryfs/impl/filesystem/fsblobstore/utils/DirEntryList.cpp:65-116 | the exception is real: after a refused rename of a directory over a file the file name is left without a blob |
| DirectoryRuns.RenameLosesFile | src/cryfs/impl/filesystem/fsblobstore/utils/DirEntryList.cpp:77-94 | a run after which a rename over a non-empty directory succeeds and leaves the file in it unreachable |
| DirectoryRuns.CreateLosesBlob | src/cryfs/impl/filesystem/CryDir.cpp:38-61 | a run after which a refused creation has left an unreachable blob |
| DirectoryTree.UniquePath | src/cryfs/impl/filesystem/CryDevice.cpp:233-265 | no two paths lead to the same blob |
| DirectoryTree.NoCycle | src/cryfs/impl/filesystem/CryDevice.cpp:233-265 | no path leads from a reachable blob back to itself |
| DirectoryTree.LookupsAreSound | src/cryfs/impl/filesystem/CryDevice.cpp:233-265 | in a well-formed tree a lookup fails only at a component that is not a directory |
| DirectoryTree.LookupFailsIff | src/cryfs/impl/filesystem/CryDevice.cpp:233-265 | in a consistent tree a lookup fails with EIO if and only if it meets a name that has lost its blob, and never for a wrong parent link |
| DirectoryTree.AvoidingIs | src/cryfs/impl/filesystem/CryDevice.cpp:233-265 | the lookup of a rename is the plain one, unless it comes through the moved blob |
| DirectoryLinks.LoadFinds | src/cryfs/impl/filesystem/CryDevice.cpp:185-219 | loading a node finds what the path leads to, or the name without a blob |
| CryDevice.CryDevice.constructor | src/cryfs/impl/filesystem/CryDevice.cpp:139-143 | an empty root directory |
| CryDevice.CryDevice.LoadBlobWithAncestors | src/cryfs/impl/filesystem/CryDevice.cpp:233-265 | the loop computes the lookup |
| CryDevice.CryDevice.LoadNode | src/cryfs/impl/filesystem/CryDevice.cpp:185-219 | computes the node |
| CryDevice.CryDevice.RemoveNode | src/cryfs/impl/filesystem/CryDir.cpp:106-120 | in a consistent tree removes exactly what RemoveWorks says, with every other path as before |
| CryDevice.CryDevice.CreateNode | src/cryfs/impl/filesystem/CryDir.cpp:38-61 | in a consistent tree creates exactly in existing directories under new names, with every other path as before |
| CryDevice.CryDevice.RenameChild | src/cryfs/impl/filesystem/fsblobstore/utils/DirEntryList.cpp:77-94 | the steps of a rename within a directory |
| CryDevice.CryDevice.MoveChild | src/cryfs/impl/filesystem/CryNode.cpp:119-144 | the outcome of a rename across directories, if the target name is about another blob than those that the move needs, as in every consistent tree |
| CryDevice.CryDevice.RenameNode | src/cryfs/impl/filesystem/CryNode.cpp:79-146 | in a consistent tree moves exactly what was below the source path, or fails with the error read off the two paths; the tree stays consistent and no assertion fails |
| ParallelAccess.OpenIffReferenced | src/parallelaccessstore/ParallelAccessStore.h:139-195 | a key is open exactly if a reference exists, and all references of a key share one resource |
| ParallelAccess.ReleasedCounts | src/parallelaccessstore/ParallelAccessStore.h:233-246 | release finds its key, and the key is closed exactly with the last reference |
| ParallelAccess.ReferencedCounts | src/parallelaccessstore/ParallelAccessStore.h:63-71 | one more reference is counted |
| ParallelAccess.ParallelAccessStore.constructor | src/parallelaccessstore/ParallelAccessStore.h:109-116 | nothing is open |
| ParallelAccess.ParallelAccessStore.IsOpened | src/parallelaccessstore/ParallelAccessStore.h:118-122 | a reference exists |
| ParallelAccess.ParallelAccessStore.Add | src/parallelaccessstore/ParallelAccessStore.h:139-148 | the first reference; refused exactly if there is one already |
| ParallelAccess.ParallelAccessStore.GetReference | src/parallelaccessstore/ParallelAccessStore.h:63-71 | one more reference to the same resource |
| ParallelAccess.ParallelAccessStore.Load | src/parallelaccessstore/ParallelAccessStore.h:179-195 | one more reference, to the open resource or to the loaded one; none exactly if there is neither |
| ParallelAccess.ParallelAccessStore.LoadOrAdd | src/parallelaccessstore/ParallelAccessStore.h:157-170 | one more reference, to the open resource or to the added one |
| ParallelAccess.ParallelAccessStore.Release | src/parallelaccessstore/ParallelAccessStore.h:233-246 | one reference less, and the key is closed exactly with the last; that one hands the resource to a waiting remove, and fails if and only if the remove already has one |
| ParallelAccess.ParallelAccessStore.AddPromise | src/parallelaccessstore/ParallelAccessStore.h:210-216 | at most one remove per key waits |
| ParallelRuns.EveryRunIsSafe | src/parallelaccessstore/ParallelAccessStore.h:117-246 | in every interleaving of any number of threads that load, add, release and remove: a key is open exactly if a thread uses it, all users of a key share one resource, and a resource that a remove has been given is used by nobody and given to no other remove |
| ParallelRuns.StepKeepsInv | src/parallelaccessstore/ParallelAccessStore.h:117-246 | every critical section keeps counts, promises and owners in order |
| ParallelRuns.RunKeepsInv | src/parallelaccessstore/ParallelAccessStore.h:117-246 | and so does every run |
| ParallelRuns.FaultIff | src/parallelaccessstore/ParallelAccessStore.h:139-246 | a step fails if and only if it is a second remove of a key, an add under an open key, or the last release after the remove of the key has been given a resource; the destructor of a reference always finds its key |
| ParallelRuns.ServedIff | src/parallelaccessstore/ParallelAccessStore.h:218-231 | every waiting remove has its resource or a user to wait for, kept by a step if and only if it is not the promise of a remove whose key has been closed since it looked |
| ParallelRuns.NoDeadlock | src/parallelaccessstore/ParallelAccessStore.h:197-246 | in a run without such a step somebody can always go on |
| ParallelRuns.StrandedWaits | src/parallelaccessstore/ParallelAccessStore.h:218-231 | after such a step the remove waits until the key is opened again |
| ParallelRuns.BackedIff | src/parallelaccessstore/ParallelAccessStore.h:197-231 | the block of every reference stays in the base store, if and only if no remove ends after the key has been opened again |
| ParallelRuns.RunKeepsBacked | src/parallelaccessstore/ParallelAccessStore.h:197-231 | along every run without such a step it stays there |
| ParallelRuns.EveryReferenceIsBacked | src/parallelaccessstore/ParallelAccessStore.h:197-231 | so in such a run the block of every thread that uses one is in the base store |
| ParallelRuns.ReleasedTwice | src/parallelaccessstore/ParallelAccessStore.h:197-208 | a run in which a release sets a promise for the second time |
| ParallelRuns.Stranded | src/parallelaccessstore/ParallelAccessStore.h:218-231 | a run after which a remove waits for a resource that nobody uses |
| ParallelRuns.RemovedInUse | src/parallelaccessstore/ParallelAccessStore.h:197-208 | a run after which a thread uses a block that has been removed |
| ParallelCalls.BaseIff | src/parallelaccessstore/ParallelAccessStore.h:197-231 | the base store gains a block exactly when one is made, and loses it exactly when a remove of it ends |
| ParallelCalls.RemoveWorks | src/parallelaccessstore/ParallelAccessStore.h:197-231 | after a call of remove has returned, in any interleaving, the block is not in the base store unless it has been made again |
| ParallelCalls.RemovedForGood | src/parallelaccessstore/ParallelAccessStore.h:197-231 | a block that is not made again after a remove has ended is never in the base store |
| ParallelCalls.StaysIn | src/parallelaccessstore/ParallelAccessStore.h:197-231 | and a block stays there until a remove of it ends |
| ParallelCalls.RemoveBegins | src/parallelaccessstore/ParallelAccessStore.h:197-231 | both ways of calling remove begin one |
| ParallelCalls.LoadWorks | src/parallelaccessstore/ParallelAccessStore.h:179-195 | a load gives the resource that the other users have, or a new one if the block exists, and none otherwise |
| ParallelCalls.AddWorks | src/parallelaccessstore/ParallelAccessStore.h:139-170 | an add makes the block and gives its first resource, and loadOrAdd does so unless it is open |
| ParallelCalls.ReleaseWorks | src/parallelaccessstore/ParallelAccessStore.h:233-246 | a release gives one reference back |
| OpenFiles.FuseOpenFileList.constructor | src/fspp/impl/FuseOpenFileList.h:50-52 | no file is open |
| OpenFiles.FuseOpenFileList.Open | src/fspp/impl/FuseOpenFileList.h:73-79 | hands out the descriptors 1, 2, 3 and so on |
| OpenFiles.FuseOpenFileList.LoadBegin | src/fspp/impl/FuseOpenFileList.h:81-95 | starts a callback on the file, or fails exactly on an unknown descriptor |
| OpenFiles.FuseOpenFileList.LoadEnd | src/fspp/impl/FuseOpenFileList.h:86-92 | ends a callback; its descriptor is still there |
| OpenFiles.FuseOpenFileList.TryClose | src/fspp/impl/FuseOpenFileList.h:103-113 | removes the file exactly if no callback uses it |
| OpenFiles.NextDescriptor | src/fspp/impl/IdList.h:40-46 | the counter never repeats an id |
| OpenFiles.Ended | src/fspp/impl/FuseOpenFileList.h:86-92 | a running callback still has its file and a positive refcount |
| OpenFiles.Closed | src/fspp/impl/FuseOpenFileList.h:103-113 | with refcount zero no callback uses the file |
| OpenFileRuns.EveryRunIsSafe | src/fspp/impl/FuseOpenFileList.h:73-113 | in every interleaving of any number of threads that open, load and close: no callback outlives its file, no descriptor is handed out twice, and each refcount is the number of threads in a callback |
| OpenFileRuns.StepKeepsInv | src/fspp/impl/FuseOpenFileList.h:73-113 | every critical section keeps files, refcounts and descriptors in order |
| OpenFileRuns.RunKeepsInv | src/fspp/impl/FuseOpenFileList.h:73-113 | and so does every run |
| OpenFileRuns.OpenIs | src/fspp/impl/FuseOpenFileList.h:73-79 | an open hands out the next number and lists the file under it |
| OpenFileRuns.LoadIs | src/fspp/impl/FuseOpenFileList.h:81-95 | a load runs its callback on the file of the descriptor, and fails exactly if there is none |
| OpenFileRuns.LoadEndWorks | src/fspp/impl/FuseOpenFileList.h:86-92 | the end of a load never misses its descriptor |
| OpenFileRuns.CloseIs | src/fspp/impl/FuseOpenFileList.h:103-113 | a close, at once or after waiting, removes the file exactly if no thread is in a callback on it, waits exactly if one is, and fails exactly if the descriptor is closed |
| OpenFileRuns.WaitsForSomebody | src/fspp/impl/FuseOpenFileList.h:103-113 | a waiting close can end or waits for a callback that can |
| OpenFileRuns.ClosedForGood | src/fspp/impl/FuseOpenFileList.h:103-113 | a closed descriptor stays closed |
| OpenFileRuns.StarvedClose | src/fspp/impl/FuseOpenFileList.h:81-113 | overlapping loads keep a close waiting through any number of tests |
| OpenFileRuns.WaitsIsReached | src/fspp/impl/FuseOpenFileList.h:73-113 | from a state that is reached |
| Bytes.FromToBytes | src/cpp-utils/data/SerializationHelper.h:17-57 | a number that fits its field is read back |
| Bytes.ToFromBytes | src/cpp-utils/data/SerializationHelper.h:17-57 | a field is determined by its number |

## Left out

- Ciphers, scrypt, hashing, hex coding, gzip, configuration files, the command line, JNI and Fuse: I/O and thin wrappers over other libraries.
- On-disk block store, in-memory test stores, logging, profiling and timestamps: bookkeeping around the modelled logic.
- Block ids are numbers in NodeStore, the cache, the directory tree and ParallelAccess; only the integrity modules use their 16 bytes. New ids are parameters that differ from the existing ones.
- WordProofs.RootAchieves32: needs a layout whose leaf size fits the 32-bit size field of a node and with at most 2^31 children per node, as all block sizes below 4 GB have.
- WordLimits: a walk may leave a root of depth 11, which works until the blob is loaded again; loading a root is not modelled.
- LeafTraverser: the traversal is modelled on tree values, its callbacks as functions. Block ids are modelled for shrinking only (NodeStore), not for the creation of nodes.
- DataTree.DataTree.ResizeNumBytes: nothing is promised where the 32-bit arithmetic of the walk does not fit, because the source may then fail an assertion halfway or leave a tree with wrong leaves.
- DataTree.DataTree.WriteBytes: nothing is promised in that case either, and the arithmetic inside the callbacks is then modelled without truncation.
- DataTree.DataTree.TryReadBytes: in that case, and where the signed casts do not fit, only that the blob is unchanged.
- DataTree.DataTree.ReadBytes: as TryReadBytes.
- DataInnerNode and DataNodeView serialization of child lists and headers into the node's block is not modelled; an inner node is its list of child ids.
- ceilLog: floating point.
- LeftRight: the 32-bit reader counters are unbounded numbers, and atomics are sequentially consistent, as they are declared. The spin loops are steps that are enabled when the counter is zero.
- CacheProtocol: a condition-variable wait is a step that is enabled when its condition holds; ages of entries are not modelled, so a flusher may evict any oldest entry, and after an eviction it may go on without giving up the mutex. The store to the base and the update of the not-in-base set are one step each.
- CachingBlockStore.CachingBlockStore.Flush: one thread evicts all entries, where the source uses several; CacheProtocol has any number.
- KnownBlockVersions.KnownBlockVersions.constructor: the state starts empty; loading it from a file is StateFile.LoadStateFile.
- IntegrityStore.IntegrityBlockStore.constructor: the refusal to start after a violation in a previous run is not modelled; the flag that causes it is part of StateFile.
- IntegrityStore: reading a header from a block shorter than the header is undefined in the source and an error here, as is reading an id past the end of the state file in StateFile. Migration of whole stores without version numbers is not modelled.
- StateFile.SaveStateFile: needs a file size below 2^64, as the 64-bit size computation of the source does.
- DirectoryTree and CryDevice: a directory is a map from names to entries; the sorted entry list with its hinted search, its serialization, modes and owners are not modelled. Paths have no "." and ".." components. An entry found by its id is the one found by its name, as ids are unique in a well-formed directory.
- StateFile.Deserializer.ReadId: reading past the end is undefined in the source and an error here.
- ParallelRuns: looking for a key without the mutex is one atomic step here, where the source has a data race on the hash map; reference counts are unbounded numbers. A fault ends the run. Each reference is held by a thread of its own, so a thread that removes a key while it owns a second reference to it, and waits for itself, is not modelled. A block is in the base store or not; its data is not modelled.
- OpenFiles.FuseOpenFileList.Open: the behaviour after 2^31 - 1 descriptors is undefined in the source and excluded. The destructor's wait is not modelled.
- pipestream, ThreadsafeRandomDataBuffer, version parsing, either, unique_ref and the value types: small utilities that would only add easy members.
