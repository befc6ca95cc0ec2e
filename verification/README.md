# Allocator Lab: verified model

Allocator Lab compares memory allocators by replaying recorded or generated traces against them.
This project models its core in Dafny and proves what that core relies on.

* **Four allocators.** Buddy, boundary-tag free list, segregated fit and slab. Each has a module with the
  allocator as a state machine on values, where the laws over all runs are proved, and a class with the
  fields and loops of the source, where every method is proved to follow the state machine. The History modules say
  what the answers and counters mean to a caller: which block serves a request and how much of it, in which order free
  blocks are kept, that the byte limit holds in every run, and that every statistic is that of the calls made. Backing memory
  is an answer of the environment: nothing, or a range clear of everything held.
* **The trace pipeline.** The workload generator, the trace validator, the binary and JSON formats, and
  replay, sequential and concurrent. Generated traces are valid; the formats undo each other exactly
  under stated conditions; exactly the streams that are safe with respect to Reset entries never see a damaged
  payload, over any allocator that meets the strategy contract and in any interleaving, and replay gives
  everything back. All four allocators are proved to meet that contract, which gives
  a theorem about the whole pipeline: generate, split into worker queues, replay under any interleaving.
* **Arithmetic and protocols.** The power-of-two helpers, SplitMix64, the log2 latency histogram with its
  percentiles, and the compare-exchange bump allocation shared by processes.

The arithmetic is on natural numbers with the 64-bit, 32-bit and 16-bit casts written out where the source can
meet them. `alignof(std::max_align_t)` is taken to be 16. Each allocator call is one atomic step, as its
mutex makes it.

## Files

| topic | modules |
|---|---|
| words and powers of two, SplitMix64 | Bits, SplitMix |
| shared vocabulary | AllocTypes, Requests, Sequences, Sums |
| what a sequence of calls adds up to | Histories |
| buddy | BuddyBlocks, BuddyModel, BuddyHistory, BuddyAllocator |
| free list | FreeListBlocks, FreeListModel, FreeListRuns, FreeListHistory, FreeListMemory, FreeListAllocator |
| segregated fit | SegregatedModel, SegregatedBytes, SegregatedHistory, SegregatedAllocator |
| slab | SlabModel, SlabHistory, SlabAllocator |
| latency histogram | Latency |
| cross-process bump | SharedBump |
| traces and generator | Traces, Workload, WorkloadEntries |
| formats | BinaryCodec, Json, JsonGrammar, TraceJson, TraceFormats, JsonParser, JsonPrinter |
| replay of streams | Replay, ReplaySafety, Patterns, ReplayUnsafe, ReplayBalance, ConcurrentCounts |
| replay over the allocators | BuddyContract, StrategyContracts, StrategyReplay, StrategyGrants, SequentialReplay, ReplayCounts |

## Where the code differs from what it is meant to do

The model follows the code; each difference is a theorem.

* Free list. `find_and_split` leaves `arena_total` of a split remainder as the memory held it, and the field is
  documented as valid only in the first block of a superblock, but `coalesce` reads it in any block. `FreeMaximal`
  says exactly when a free then leaves two free neighbours, `FreeKeeps` exactly when it reads behind the superblock;
  `ZeroedRemainder` and `StaleRemainder` are runs in which it does. With true totals neither happens
  (`TrueGuard`, `RunMaximal`).
* Segregated fit. A need above 2^max_bin starts the search behind the last bin, although such blocks are kept in
  that bin. `AllocateComplete` gives the exact condition; the failing call still grows the backing memory
  (`BeyondLastBin`).
* Segregated header. The struct is 24 bytes long behind a 16-byte header size, so its busy flag is the first payload byte;
  it is written only while the block is not live (`SegregatedBytesSpare`).
* Slab. A slot is popped before the free list is compared with the page's slot count, so every grant is reported as
  reused and `fresh_allocs_` is never incremented (`ServeInv`).
* Shared region. Alignments up to 4096 are accepted and reported as granted, but offsets are granted as the field
  stands: exactly alignments up to 16 are always honoured (`AlignmentIff`, `PageRequest`). Sizes near 2^64 wrap past
  the bound test (`PassesIff`, `SoundIff`, `ModestIff`, `HugeRequest`).
* Replay. The validator keeps ids live across a Reset entry and accepts traces that free or reallocate them
  afterwards; replay then checks a pattern in memory that the allocator has taken back (`ResetRun`). With several
  workers, one that is still writing a pattern when the reset comes also spoils what is allocated later (`LateWriterFails`). `Safe`
  is the exact condition on the streams (`SafeIff`): for each stream with a reset, no other stream checks anything, it
  checks no id across a reset, and, if another stream allocates, it checks nothing after its first reset.
* Binary format. `op` and `domain` are narrowed to 16 bits before their range is checked and flags accept any
  non-zero value, so an accepted input need not be what the encoder writes (`ReencodeExactly`, `FlagTwoAccepted`).
* JSON format. Control characters are written as `\u00xx`, which the parser does not read (`JsonRoundTrip`,
  `BadNameUnreadable`).
* Histogram. The bucket edge is not above the sample from 2^63 on, and not within a factor of two of zero
  (`HistogramMeaning`).
* Generator. With the Fifo order a free moves the newest allocation to the front, where it is freed next
  (`FifoTakesNewest`). A zero maximum size with a zero minimum stays zero while the minimum is raised to 1 (`SizesOrdered`). The
  drain appends entries beyond the configured number of operations (`GeneratedTrace`).

## Model

| member | source | states |
|---|---|---|
| Bits.IsPowerOfTwoMeaning | include/allocator_lab/config.hpp:78-80 | the mask test accepts exactly the numbers 2^k, and not zero |
| Bits.SmearFills | include/allocator_lab/config.hpp:84-85 | or-ing with the six right shifts turns any n-bit number, n at most 64, into n ones |
| Bits.RoundUpPow2 | include/allocator_lab/config.hpp:82-87 | for v up to 2^63 the result is 2^k for the least k with v at most 2^k; above 2^63 the word wraps to 0 |
| Bits.Log2Floor | include/allocator_lab/config.hpp:89-93 | the result r brackets v, 2^r <= v < 2^(r+1), and 0 and 1 give 0 |
| Bits.Log2Ceil | include/allocator_lab/config.hpp:95-98 | the result is the least k with v at most 2^k |
| Bits.Log2CeilLeast | include/allocator_lab/config.hpp:78-98 | 2^log2_ceil(v) is below every other power of two that covers v, and equals v exactly when the mask test accepts v |
| Bits.AlignUpPow2 | include/allocator_lab/allocators/buddy_allocator.hpp:166 | rounding up to a power of two gives a multiple that is at least v and less than one step above it |
| Bits.CeilLogLoop | include/allocator_lab/allocators/buddy_allocator.hpp:167-171 | the doubling loop of order_for ends at the least order that covers the request, and never passes 63 |
| SplitMix.SplitMix64.Next | include/allocator_lab/detail/rng.hpp:20-25 | the state advances by the constant and the result is the mix of the new state |
| SplitMix.SplitMix64.NextBelow | include/allocator_lab/detail/rng.hpp:28-30 | a draw below the bound; a zero bound gives 0 and draws nothing |
| SplitMix.SplitMix64.NextIn | include/allocator_lab/detail/rng.hpp:33-35 | lo plus one draw modulo the width, within [lo, hi]; the full 64-bit range wraps its width to zero, gives 0 and draws nothing |
| SplitMix.UnXorShiftInverse | include/allocator_lab/detail/rng.hpp:22-24 | a xor-shift by at least 16 is undone, from both sides, by the xor of its shifted copies |
| SplitMix.MulInverse | include/allocator_lab/detail/rng.hpp:22-23 | multiplying by an odd constant is undone by multiplying by its inverse modulo 2^64 |
| SplitMix.MixBijective | include/allocator_lab/detail/rng.hpp:20-25 | the output mix has a two-sided inverse on 64-bit words |
| SplitMix.StepsToCorrect | include/allocator_lab/detail/rng.hpp:21 | each state is reached from each other state after exactly one number of steps below 2^64 |
| SplitMix.EachValueDrawnOnce | include/allocator_lab/detail/rng.hpp:20-25 | among the 2^64 consecutive outputs after any state, every 64-bit value occurs exactly once |
| Requests.PayloadBounds | include/allocator_lab/allocators/free_list_allocator.hpp:46 | the payload is a positive multiple of 16 that covers the size with at most 16 bytes to spare |
| Requests.LegalIs | include/allocator_lab/allocators/free_list_allocator.hpp:42-45 | the accepted alignments are the default and the powers of two up to 16 |
| Requests.LegalDivides | include/allocator_lab/allocators/free_list_allocator.hpp:42-45 | an address that is a multiple of 16 honours every accepted alignment |
| Requests.GrowSizeBounds | include/allocator_lab/allocators/free_list_allocator.hpp:189 | a new superblock covers the request and is the configured size or at most twice the request |
| Requests.GrowSizeExactly | include/allocator_lab/allocators/free_list_allocator.hpp:189 | for a superblock size that is a power of two, a new superblock is that size, or for a larger request the least multiple of it that covers the request |
| BuddyBlocks.BuddySymmetric | include/allocator_lab/allocators/buddy_allocator.hpp:178-181 | flipping the order bit of an aligned offset gives another aligned block whose own buddy is the first |
| BuddyBlocks.SplitDownKeeps | include/allocator_lab/allocators/buddy_allocator.hpp:62-74 | splitting a free block down keeps the tiling, leaves no free buddy pair other than the piece about to be taken, and keeps the free bytes |
| BuddyBlocks.CoalesceKeeps | include/allocator_lab/allocators/buddy_allocator.hpp:173-191 | coalescing a returned block keeps the tiling, leaves no two buddies of one order free, and accounts for every merge and byte |
| BuddyBlocks.NoSmallFree | include/allocator_lab/allocators/buddy_allocator.hpp:173-191 | when a region has no busy block, a free block inside it is never all there is: some free block is at least as large as the region |
| BuddyBlocks.SearchComplete | include/allocator_lab/allocators/buddy_allocator.hpp:53-61 | some free block has the wanted order or a larger one exactly when some aligned region of that order is clear of every live block |
| BuddyModel.NeedBounds | include/allocator_lab/allocators/buddy_allocator.hpp:53-55 | the request with its header fits the computed order, which is at least 5 |
| BuddyModel.TakeKeeps | include/allocator_lab/allocators/buddy_allocator.hpp:62-88 | cutting a free block down and handing out its piece keeps the partition; the piece overlaps nothing live; the block count grows by the splits |
| BuddyModel.GiveKeeps | include/allocator_lab/allocators/buddy_allocator.hpp:91-107 | returning a live block keeps the partition; block count and merges balance |
| BuddyModel.AllocateKeeps | include/allocator_lab/allocators/buddy_allocator.hpp:46-89 | every call keeps the invariant; a grant is new, of the right order, large enough and disjoint from all live blocks; a refusal changes no block |
| BuddyModel.AllocateComplete | include/allocator_lab/allocators/buddy_allocator.hpp:53-61 | a legal request succeeds exactly when some aligned region of its order is disjoint from every live block, and otherwise fails with capacity exceeded |
| BuddyModel.FreeKeeps | include/allocator_lab/allocators/buddy_allocator.hpp:91-107 | free succeeds exactly for a live handle, removes just that handle and keeps the invariant; otherwise nothing changes |
| BuddyModel.FreeUndoesAllocate | include/allocator_lab/allocators/buddy_allocator.hpp:46-107 | freeing what was just granted restores the free sets and the live table exactly |
| BuddyModel.BytesConserved | include/allocator_lab/allocators/buddy_allocator.hpp:76-105 | free bytes, live payload bytes and one header for each live block always add up to the arena |
| BuddyModel.IdleIsWhole | include/allocator_lab/allocators/buddy_allocator.hpp:173-191 | with nothing live, the free sets hold exactly the one whole-arena block |
| BuddyModel.ResetKeeps | include/allocator_lab/allocators/buddy_allocator.hpp:109-119 | reset leads back to a state that satisfies the invariant |
| BuddyModel.ShutdownKeeps | include/allocator_lab/allocators/buddy_allocator.hpp:153-157 | after shutdown the invariant holds with nothing free and nothing live |
| BuddyModel.RunKeepsInv | include/allocator_lab/allocators/buddy_allocator.hpp:46-157 | the invariant holds after every sequence of allocate, free, reset and shutdown calls |
| BuddyModel.RunBlockCount | include/allocator_lab/allocators/buddy_allocator.hpp:62-190 | over any run of allocate and free calls, blocks minus splits plus merges stays the same |
| BuddyModel.FreshRunBlockCount | include/allocator_lab/allocators/buddy_allocator.hpp:62-190 | from construction, the number of blocks is one plus splits minus merges after any such run |
| BuddyAllocator.BuddyAllocator.constructor | include/allocator_lab/allocators/buddy_allocator.hpp:24-33 | the new object is valid and is the initial state, whether or not the arena was obtained |
| BuddyAllocator.BuddyAllocator.FindBlock | include/allocator_lab/allocators/buddy_allocator.hpp:56-60 | the search hits exactly when a sufficient block is free, and finds the lowest address of the smallest sufficient order |
| BuddyAllocator.BuddyAllocator.Split | include/allocator_lab/allocators/buddy_allocator.hpp:62-74 | the loop over per-order sets and headers performs exactly the split chain, counts it, and touches no header of a live block |
| BuddyAllocator.BuddyAllocator.Take | include/allocator_lab/allocators/buddy_allocator.hpp:62-88 | after a hit, the state is the granted state of the specification, with headers agreeing with sets and live table |
| BuddyAllocator.BuddyAllocator.Allocate | include/allocator_lab/allocators/buddy_allocator.hpp:46-89 | the new state and the answer are those of the specification; the object stays valid; no live header is touched |
| BuddyAllocator.BuddyAllocator.Coalesce | include/allocator_lab/allocators/buddy_allocator.hpp:173-191 | the loop performs exactly the specified coalescing and counts its merges |
| BuddyAllocator.BuddyAllocator.Return | include/allocator_lab/allocators/buddy_allocator.hpp:95-105 | the state after the table and header writes is the released state of the specification |
| BuddyAllocator.BuddyAllocator.Free | include/allocator_lab/allocators/buddy_allocator.hpp:91-107 | the new state and the answer are those of the specification; the double-free test never fires in a valid state; other live headers are untouched |
| BuddyAllocator.BuddyAllocator.Reset | include/allocator_lab/allocators/buddy_allocator.hpp:109-119 | the new state is the reset state of the specification |
| BuddyAllocator.BuddyAllocator.Query | include/allocator_lab/allocators/buddy_allocator.hpp:121-131 | succeeds exactly for live handles, with the address behind the header and the payload size by both the table and the header |
| BuddyAllocator.BuddyAllocator.CollectFragmentation | include/allocator_lab/allocators/buddy_allocator.hpp:193-204 | free bytes, number of free spans and the largest free span are those of the set of free blocks |
| BuddyModel.NeedExact | include/allocator_lab/allocators/buddy_allocator.hpp:53-54 | the need is a multiple of 16, less than 32 bytes above a positive request, and 32 for a request of nothing |
| BuddyHistory.AllocateExactly | include/allocator_lab/allocators/buddy_allocator.hpp:53-88 | a grant with its header is the least power of two that covers the need; it is the low end of the lowest free block among the smallest sufficient ones, and one split is counted for each order between |
| BuddyHistory.Refusals | include/allocator_lab/allocators/buddy_allocator.hpp:49-61 | which error each refused request gets, and that a refusal changes nothing but, for lack of space, the failure counter |
| BuddyHistory.Accounting | include/allocator_lab/allocators/buddy_allocator.hpp:80-105 | in every run from construction the statistics are those of the calls and answers (grants, failures, frees, bytes asked and given, live and peak values); handles count the grants, and without reset and shutdown grants are frees plus live blocks |
| BuddyHistory.ReuseMeaning | include/allocator_lab/allocators/buddy_allocator.hpp:87-103 | a grant of a run reports reuse exactly when some earlier call of the run freed a live handle |
| BuddyHistory.SplitsAndMerges | include/allocator_lab/allocators/buddy_allocator.hpp:62-190 | each allocate changes the number of blocks by the splits it counts and each free by the merges it counts |
| FreeListBlocks.CutTiled | include/allocator_lab/allocators/free_list_allocator.hpp:170-177 | cutting a block in two keeps every superblock tiled |
| FreeListBlocks.JoinTiled | include/allocator_lab/allocators/free_list_allocator.hpp:213-229 | joining two neighbours keeps every superblock tiled |
| FreeListBlocks.AddTiled | include/allocator_lab/allocators/free_list_allocator.hpp:188-204 | a fresh superblock extends the tiling and stays apart from the others |
| FreeListBlocks.FirstFit | include/allocator_lab/allocators/free_list_allocator.hpp:163-186 | the found index is the first in the chain that is large enough; the chain length means none is |
| FreeListModel.NeedBounds | include/allocator_lab/allocators/free_list_allocator.hpp:46-47 | the block size is a multiple of 16, at least 80, and covers header, size and footer |
| FreeListModel.SearchComplete | include/allocator_lab/allocators/free_list_allocator.hpp:163-186 | the walk finds a block exactly when some block that is not live is large enough |
| FreeListModel.AllocateKeeps | include/allocator_lab/allocators/free_list_allocator.hpp:38-66 | every call keeps the invariant; a grant is new, aligned, large enough and disjoint from every live block, whose headers do not change; a refusal changes no block; the search after a growth never fails |
| FreeListModel.AllocateComplete | include/allocator_lab/allocators/free_list_allocator.hpp:48-53 | a legal request succeeds exactly when a block that is not live is large enough, or total bytes plus the new superblock are at most max_bytes and memory is given; otherwise it fails with capacity exceeded |
| FreeListModel.CoalesceKeeps | include/allocator_lab/allocators/free_list_allocator.hpp:206-233 | eager coalescing keeps tiling, chain and live blocks, given that it does not read behind the superblock |
| FreeListModel.FreeKeeps | include/allocator_lab/allocators/free_list_allocator.hpp:68-83 | refused exactly for handles that are not live; undefined exactly when it would read behind the superblock; otherwise just that handle goes, other live blocks are unchanged and the invariant stays |
| FreeListModel.ResetKeeps | include/allocator_lab/allocators/free_list_allocator.hpp:94-100 | reset leads back to a state that satisfies the invariant |
| FreeListRuns.SuperblocksWalk | include/allocator_lab/allocators/free_list_allocator.hpp:142-161 | walking from the base of a superblock by header sizes visits each of its blocks and ends exactly at its end |
| FreeListRuns.FreeMaximal | include/allocator_lab/allocators/free_list_allocator.hpp:206-233 | after a free of a fully coalesced state no two neighbours are free, exactly when the range test did not miss a free right neighbour |
| FreeListRuns.TrueGuard | include/allocator_lab/allocators/free_list_allocator.hpp:209-212 | with true totals in the headers the range test means there is a right neighbour, so nothing is read behind a superblock and no neighbour is missed |
| FreeListRuns.AllocateMaximal | include/allocator_lab/allocators/free_list_allocator.hpp:38-66 | allocate never leaves two free neighbours where there were none |
| FreeListRuns.RunKeepsInv | include/allocator_lab/allocators/free_list_allocator.hpp:38-136 | the invariant holds in every state of every run whose calls are defined |
| FreeListRuns.RunMaximal | include/allocator_lab/allocators/free_list_allocator.hpp:206-233 | in a run in which headers always carry true totals, no two neighbours are ever both free and no call reads behind a superblock |
| FreeListRuns.RunMaximalIff | include/allocator_lab/allocators/free_list_allocator.hpp:206-233 | over a run from a coalesced state, no two neighbours are ever both free exactly when no free in the run misses its free right neighbour |
| FreeListRuns.CutTotals | include/allocator_lab/allocators/free_list_allocator.hpp:170-177 | serving a request keeps the totals true exactly when a split remainder happens to hold the true total |
| FreeListRuns.FreeTotals | include/allocator_lab/allocators/free_list_allocator.hpp:206-233 | free keeps true totals true |
| FreeListRuns.IdleIsWhole | include/allocator_lab/allocators/free_list_allocator.hpp:206-233 | fully coalesced with nothing live: the free blocks are exactly the superblocks, each whole |
| FreeListRuns.FreeUndoesServe | include/allocator_lab/allocators/free_list_allocator.hpp:38-83 | freeing what was just served restores the blocks, the live table and the set of free blocks |
| FreeListRuns.FreeUndoesGrowth | include/allocator_lab/allocators/free_list_allocator.hpp:48-83 | freeing what was just served from a new superblock leaves that superblock whole and everything else as it was |
| FreeListRuns.BytesConserved | include/allocator_lab/allocators/free_list_allocator.hpp:54-81 | chain bytes, live payload bytes and 64 bytes for each live block add up to total_bytes_ |
| FreeListRuns.ZeroedRemainder | include/allocator_lab/allocators/free_list_allocator.hpp:170-213 | a concrete run over zeroed memory in which a freed block is not joined with its free right neighbour |
| FreeListRuns.StaleRemainder | include/allocator_lab/allocators/free_list_allocator.hpp:170-213 | a concrete run over stale memory in which a free reads a header behind the superblock |
| FreeListHistory.AllocateExactly | include/allocator_lab/allocators/free_list_allocator.hpp:46-64 | a grant is cut from the first block of the chain that is large enough or from the new superblock; it is the need, or less than 72 bytes more; 72 bytes or more left over stay behind it as a free block, in its place in the chain |
| FreeListHistory.Refusals | include/allocator_lab/allocators/free_list_allocator.hpp:41-51 | which error each refused request gets, and that a refusal changes nothing but the scan and failure counters |
| FreeListHistory.FreeChain | include/allocator_lab/allocators/free_list_allocator.hpp:206-233 | after a free, the block that contains the freed one is the head of the chain and the rest of the chain keeps its order |
| FreeListHistory.RunLimited | include/allocator_lab/allocators/free_list_allocator.hpp:188-204 | in every state of every run from the start, total bytes are at most max_bytes, the peak is the largest total so far, and without reset the growth events are the superblocks held |
| FreeListHistory.Accounting | include/allocator_lab/allocators/free_list_allocator.hpp:54-82 | in every state of every run the statistics are those of the calls and answers; coalesce events count the frees, handles the grants, and without reset grants are frees plus live blocks |
| FreeListHistory.ReuseMeaning | include/allocator_lab/allocators/free_list_allocator.hpp:64-80 | a grant of a run reports reuse exactly when some earlier call of the run freed a live handle |
| FreeListAllocator.FreeListAllocator.constructor | include/allocator_lab/allocators/free_list_allocator.hpp:24-36 | the new object is valid and is the empty state |
| FreeListAllocator.FreeListAllocator.SetBusy | include/allocator_lab/allocators/free_list_allocator.hpp:161 | header and footer agree on size and busy flag |
| FreeListAllocator.FreeListAllocator.Unlink | include/allocator_lab/allocators/free_list_allocator.hpp:235-239 | the walk through the links removes exactly the block from the chain, if it is there, and rewrites only links of chained blocks |
| FreeListAllocator.FreeListAllocator.Carve | include/allocator_lab/allocators/free_list_allocator.hpp:169-179 | the writes of a split: the front part is busy with its own footer, the rest is free, linked in its place, and keeps whatever total the memory held |
| FreeListAllocator.FreeListAllocator.FindAndSplit | include/allocator_lab/allocators/free_list_allocator.hpp:163-186 | serves the first fitting block of the chain, counts the blocks scanned, keeps headers, footers and links in agreement, and touches no live block |
| FreeListAllocator.FreeListAllocator.GrowSuperblock | include/allocator_lab/allocators/free_list_allocator.hpp:188-204 | succeeds exactly within the byte limit and when memory is given; then the state is the grown state of the specification |
| FreeListAllocator.FreeListAllocator.MergeRight | include/allocator_lab/allocators/free_list_allocator.hpp:207-217 | joins the right neighbour exactly as specified and keeps headers, footers and links in agreement |
| FreeListAllocator.FreeListAllocator.MergeLeft | include/allocator_lab/allocators/free_list_allocator.hpp:218-230 | joins the left neighbour, found through its footer, exactly when it is free |
| FreeListAllocator.FreeListAllocator.PushFront | include/allocator_lab/allocators/free_list_allocator.hpp:231 | the block becomes the head of the chain |
| FreeListAllocator.FreeListAllocator.Coalesce | include/allocator_lab/allocators/free_list_allocator.hpp:206-233 | blocks and chain become those of the specification; live blocks keep headers and footers |
| FreeListAllocator.FreeListAllocator.Allocate | include/allocator_lab/allocators/free_list_allocator.hpp:38-66 | the new state and the answer are those of the specification; live headers and footers are untouched |
| FreeListAllocator.FreeListAllocator.Free | include/allocator_lab/allocators/free_list_allocator.hpp:68-83 | the new state and the answer are those of the specification; every other live header and footer is untouched |
| FreeListAllocator.FreeListAllocator.Reset | include/allocator_lab/allocators/free_list_allocator.hpp:94-100 | the new state is the reset state of the specification |
| FreeListAllocator.FreeListAllocator.Query | include/allocator_lab/allocators/free_list_allocator.hpp:102-110 | succeeds exactly for live handles, with the payload address and size |
| FreeListAllocator.FreeListAllocator.CollectFragmentation | include/allocator_lab/allocators/free_list_allocator.hpp:245-256 | free bytes, count and largest span are those of the set of free blocks |
| SegregatedModel.FirstFrom | include/allocator_lab/allocators/segregated_allocator.hpp:154-158 | the first position of a bin from i that is large enough; none before it is |
| SegregatedModel.Search | include/allocator_lab/allocators/segregated_allocator.hpp:152-171 | a hit is the first large enough block from the starting bin on, bin by bin; a miss means there is none |
| SegregatedModel.BinnedInsert | include/allocator_lab/allocators/segregated_allocator.hpp:143-147 | insertion puts the block into the one bin of its size, so each free block stays in exactly one place |
| SegregatedModel.BinnedErase | include/allocator_lab/allocators/segregated_allocator.hpp:158 | removal takes just that block out of the bins |
| SegregatedModel.SearchComplete | include/allocator_lab/allocators/segregated_allocator.hpp:149-172 | the search hits exactly when the starting bin exists and some free block is large enough |
| SegregatedModel.LogWithin | include/allocator_lab/allocators/segregated_allocator.hpp:150-152 | the starting bin exists exactly for needs up to 2^max_bin |
| SegregatedModel.CutTiled | include/allocator_lab/allocators/segregated_allocator.hpp:159-165 | a split keeps the superblocks tiled |
| SegregatedModel.AddTiled | include/allocator_lab/allocators/segregated_allocator.hpp:174-187 | a fresh superblock extends the tiling |
| SegregatedModel.AllocateKeeps | include/allocator_lab/allocators/segregated_allocator.hpp:41-66 | every call keeps the invariant, refines the partition and keeps blocks = superblocks + splits; a grant is new, aligned, large enough and disjoint from the live blocks |
| SegregatedModel.AllocateComplete | include/allocator_lab/allocators/segregated_allocator.hpp:49-54 | a legal request succeeds exactly when its need is at most 2^max_bin and a large enough block is free, or total bytes plus the new superblock are at most max_bytes and memory is given; a larger need still grows the backing and fails with out of memory |
| SegregatedModel.BeyondLastBin | include/allocator_lab/allocators/segregated_allocator.hpp:149-187 | a concrete first request for 8192 bytes with superblocks of 4096: memory is obtained, the call fails with out of memory, and the memory stays |
| SegregatedModel.FreeKeeps | include/allocator_lab/allocators/segregated_allocator.hpp:68-81 | free succeeds exactly for a live handle, puts that block back into the free set and changes no block boundary |
| SegregatedModel.ResetKeeps | include/allocator_lab/allocators/segregated_allocator.hpp:83-90 | reset leads back to a state that satisfies the invariant |
| SegregatedModel.RunKeepsInv | include/allocator_lab/allocators/segregated_allocator.hpp:41-90 | the invariant, with every free block in the bin of its size, holds in every state of every run |
| SegregatedModel.RunRefines | include/allocator_lab/allocators/segregated_allocator.hpp:143-187 | between resets, every later partition refines every earlier one and keeps the earlier superblocks |
| SegregatedModel.RunBlockCount | include/allocator_lab/allocators/segregated_allocator.hpp:143-187 | without resets, the number of blocks is superblocks plus splits |
| SegregatedBytes.RunBooked | include/allocator_lab/allocators/segregated_allocator.hpp:41-90 | in every state of every run: each block has at least the minimum size, block sizes add up to total bytes, live counters match the live blocks, requested never exceeds granted, and without resets every grant was freed or is live |
| SegregatedBytes.BytesConserved | include/allocator_lab/allocators/segregated_allocator.hpp:62-86 | in every state of every run, free bytes, live payload bytes and 16 bytes for each live block add up to total_bytes_ |
| SegregatedAllocator.CeilLog2 | include/allocator_lab/allocators/segregated_allocator.hpp:139 | the doubling loop gives the least logarithm that covers v, for v up to 2^63 |
| SegregatedHistory.BinMeaning | include/allocator_lab/allocators/segregated_allocator.hpp:143-147 | the bin of a block is the least one whose power of two covers its size, or the last bin |
| SegregatedHistory.ProbesIs | include/allocator_lab/allocators/segregated_allocator.hpp:149-157 | the search looks at every block of every bin up to the one it finds, or at all from the starting bin on |
| SegregatedHistory.AllocateExactly | include/allocator_lab/allocators/segregated_allocator.hpp:46-66 | a grant is cut from the first large enough block of the bins or from the new superblock; it is the need, or less than 24 bytes more; 24 bytes or more left over become a free block at the end of their bin, and all other bins keep their order |
| SegregatedHistory.FreeExactly | include/allocator_lab/allocators/segregated_allocator.hpp:68-81 | a freed block goes to the end of the bin of its size; every other bin stays as it is |
| SegregatedHistory.Refusals | include/allocator_lab/allocators/segregated_allocator.hpp:43-54 | which error each refused request gets, and which counters it changes |
| SegregatedHistory.RunLimited | include/allocator_lab/allocators/segregated_allocator.hpp:174-187 | in every state of every run from the start, total bytes are at most max_bytes, the peak is the largest total so far, and without reset the growth events are the superblocks held |
| SegregatedHistory.Accounting | include/allocator_lab/allocators/segregated_allocator.hpp:62-80 | in every state of every run the statistics are those of the calls and answers, and handles count the grants |
| SegregatedHistory.ReuseMeaning | include/allocator_lab/allocators/segregated_allocator.hpp:61-78 | a grant of a run reports reuse exactly when some earlier call of the run freed a live handle |
| SegregatedAllocator.SegregatedAllocator.constructor | include/allocator_lab/allocators/segregated_allocator.hpp:24-39 | the new object is valid and is the empty state |
| SegregatedAllocator.SegregatedAllocator.InsertBin | include/allocator_lab/allocators/segregated_allocator.hpp:143-147 | the block is appended to the bin of its header size, clamped to the last bin |
| SegregatedAllocator.SegregatedAllocator.ScanBin | include/allocator_lab/allocators/segregated_allocator.hpp:153-169 | one bin is scanned to its first fitting block, which is taken or split as specified, with the probes counted |
| SegregatedAllocator.SegregatedAllocator.FindBlock | include/allocator_lab/allocators/segregated_allocator.hpp:149-172 | hit, block, new bins, headers and search depth are those of the specified search |
| SegregatedAllocator.SegregatedAllocator.GrowSuperblock | include/allocator_lab/allocators/segregated_allocator.hpp:174-187 | succeeds exactly within the byte limit and when memory is given; then the state is the grown state |
| SegregatedAllocator.SegregatedAllocator.Allocate | include/allocator_lab/allocators/segregated_allocator.hpp:41-66 | the new state and the answer are those of the specification; live headers are untouched |
| SegregatedAllocator.SegregatedAllocator.Free | include/allocator_lab/allocators/segregated_allocator.hpp:68-81 | the new state and the answer are those of the specification; other live headers are untouched |
| SegregatedAllocator.SegregatedAllocator.Reset | include/allocator_lab/allocators/segregated_allocator.hpp:83-90 | the new state is the reset state of the specification |
| SegregatedAllocator.SegregatedAllocator.Query | include/allocator_lab/allocators/segregated_allocator.hpp:92-100 | succeeds exactly for live handles, with the payload address and size |
| SlabModel.StrideBounds | include/allocator_lab/allocators/slab_allocator.hpp:27 | the stride holds an object and is a multiple of 16, at least 16 |
| SlabModel.SlotsApart | include/allocator_lab/allocators/slab_allocator.hpp:163-164 | slots of one page do not overlap |
| SlabModel.SlotsFitIff | include/allocator_lab/allocators/slab_allocator.hpp:28-29 | all slots lie inside the page exactly when the page holds the header and one slot |
| SlabModel.PageOfSlot | include/allocator_lab/allocators/slab_allocator.hpp:144-149 | masking any slot of an aligned page gives that page |
| SlabModel.SlotAligned | include/allocator_lab/allocators/slab_allocator.hpp:163-164 | every slot is a multiple of 16 |
| SlabModel.SlotsDisjoint | include/allocator_lab/allocators/slab_allocator.hpp:163-164 | objects in different slots, of one page or of two, are disjoint |
| SlabModel.FirstFree | include/allocator_lab/allocators/slab_allocator.hpp:151-154 | the first slab with a free slot; all before it are full |
| SlabModel.SlabOf | include/allocator_lab/allocators/slab_allocator.hpp:147-148 | the first slab with that base |
| SlabModel.FullIff | include/allocator_lab/allocators/slab_allocator.hpp:173 | the free list is as long as the page has slots exactly when no slot of the page is live |
| SlabModel.PopKeeps | include/allocator_lab/allocators/slab_allocator.hpp:51 | taking the last free slot keeps free and live slots a partition of every page; the slot was not live |
| SlabModel.PushKeeps | include/allocator_lab/allocators/slab_allocator.hpp:73 | returning a live slot to its page keeps that partition |
| SlabModel.GrowKeeps | include/allocator_lab/allocators/slab_allocator.hpp:156-169 | a new page adds exactly its slots, all free |
| SlabModel.ServeInv | include/allocator_lab/allocators/slab_allocator.hpp:52 | serving keeps the invariant, and always reports the slot as reused |
| SlabModel.AllocateKeeps | include/allocator_lab/allocators/slab_allocator.hpp:39-63 | every call keeps the invariant and the page balance; a grant overlaps no live object; a refusal changes no slab |
| SlabModel.AllocateComplete | include/allocator_lab/allocators/slab_allocator.hpp:45-50 | a legal request succeeds exactly when some slot of some page is not live, or total bytes plus a page are at most max_bytes and memory is given; otherwise it fails with capacity exceeded |
| SlabModel.HomeFound | include/allocator_lab/allocators/slab_allocator.hpp:144-149 | the masked address of a live object always finds the page that holds it |
| SlabModel.FreeKeeps | include/allocator_lab/allocators/slab_allocator.hpp:65-78 | free succeeds exactly for a live handle, removes just that handle and keeps the invariant, so the foreign-slot error never occurs for a live handle |
| SlabModel.TrimKeeps | include/allocator_lab/allocators/slab_allocator.hpp:171-180 | trim keeps exactly the pages that hold a live object, and the page balance |
| SlabModel.ResetKeeps | include/allocator_lab/allocators/slab_allocator.hpp:87-93 | reset leads back to a state that satisfies the invariant |
| SlabModel.RunKeepsInv | include/allocator_lab/allocators/slab_allocator.hpp:39-93 | the invariant holds in every state of every run |
| SlabModel.RunBalance | include/allocator_lab/allocators/slab_allocator.hpp:49-177 | without resets, total bytes plus recovered bytes is the page size times the growth events |
| SlabModel.RunBooked | include/allocator_lab/allocators/slab_allocator.hpp:58-76 | in every state of every run, live bytes are object size times live objects, granted bytes object size times grants, requested at most granted, and live values at most their peaks |
| SlabHistory.LayoutTight | include/allocator_lab/allocators/slab_allocator.hpp:27-29 | the stride is the least multiple of 16 that holds the object, and no further slot fits into a page |
| SlabHistory.AllocateExactly | include/allocator_lab/allocators/slab_allocator.hpp:45-57 | the slot is the one freed last in the first page with a free slot, or the last slot of the new page; the answer is the object size and alignment 16; other pages stay as they are |
| SlabHistory.Refusals | include/allocator_lab/allocators/slab_allocator.hpp:42-49 | which error each refused request gets, and that a refusal changes nothing but, for lack of memory, the failure counter |
| SlabHistory.FreeExactly | include/allocator_lab/allocators/slab_allocator.hpp:65-75 | the freed slot becomes the last free slot of its own page; other pages stay as they are |
| SlabHistory.TrimOrder | include/allocator_lab/allocators/slab_allocator.hpp:171-180 | the pages that trim keeps stay in their order |
| SlabHistory.RunLimited | include/allocator_lab/allocators/slab_allocator.hpp:156-169 | in every state of every run from the start, total bytes are at most max_bytes, and the peak is the largest total so far |
| SlabHistory.Accounting | include/allocator_lab/allocators/slab_allocator.hpp:58-83 | in every state of every run the statistics are those of the calls and answers: each grant is a reuse, same-size reuse counts grants and frees, trims are counted, and without reset grants are frees plus live objects |
| SlabAllocator.SlabAllocator.constructor | include/allocator_lab/allocators/slab_allocator.hpp:23-37 | the new object is valid and is the empty state |
| SlabAllocator.SlabAllocator.FindSlabWithFree | include/allocator_lab/allocators/slab_allocator.hpp:151-154 | the index found is the first slab with a free slot |
| SlabAllocator.SlabAllocator.FindSlabOf | include/allocator_lab/allocators/slab_allocator.hpp:144-149 | the index found is the first slab whose base is the masked address |
| SlabAllocator.SlabAllocator.GrowSlab | include/allocator_lab/allocators/slab_allocator.hpp:156-169 | succeeds exactly within the byte limit and when memory is given; then the page of the specification is added |
| SlabAllocator.SlabAllocator.Allocate | include/allocator_lab/allocators/slab_allocator.hpp:39-63 | the new state and the answer are those of the specification |
| SlabAllocator.SlabAllocator.Free | include/allocator_lab/allocators/slab_allocator.hpp:65-78 | the new state and the answer are those of the specification |
| SlabAllocator.SlabAllocator.Trim | include/allocator_lab/allocators/slab_allocator.hpp:80-85 | erasing while walking leaves the state of the specification |
| SlabAllocator.SlabAllocator.Reset | include/allocator_lab/allocators/slab_allocator.hpp:87-93 | the new state is the reset state of the specification |
| SlabAllocator.SlabAllocator.Query | include/allocator_lab/allocators/slab_allocator.hpp:95-102 | succeeds exactly for live handles, with an address that is a slot of one of the pages |
| Latency.BucketFor | include/allocator_lab/metrics.hpp:85-89 | the shifting loop ends in the bucket of the sample |
| Latency.BucketIs | include/allocator_lab/metrics.hpp:85-89 | bucket b above 0 holds samples of at least 2^(b-1), and bucket b below 63 only samples below 2^b |
| Latency.RankBucket | include/allocator_lab/metrics.hpp:101-105 | the k-th smallest sample lies in the bucket where the cumulative count first reaches k |
| Latency.HistogramMeaning | include/allocator_lab/metrics.hpp:97-105 | the histogram answer e for rank k satisfies x < e <= 2x for the k-th smallest sample x exactly when 1 <= x < 2^63 |
| Latency.KthUnique | include/allocator_lab/metrics.hpp:91-107 | there is only one k-th smallest sample |
| Latency.SortedKth | include/allocator_lab/metrics.hpp:93-95 | position k-1 of the sorted samples is the k-th smallest |
| Latency.CountPermuted | include/allocator_lab/metrics.hpp:93-94 | ranks depend only on the multiset of samples |
| Latency.SampleBetween | include/allocator_lab/metrics.hpp:109-117 | the interpolated answer lies between the two neighbouring sorted samples |
| Latency.SampleMono | include/allocator_lab/metrics.hpp:109-117 | a larger p never gives a smaller interpolated answer |
| Latency.ExactMeaning | include/allocator_lab/metrics.hpp:91-96 | the exact path answers between the sample of rank floor(p(n-1))+1 and the next one |
| Latency.FullMultiset | include/allocator_lab/metrics.hpp:92 | when there are as many raw samples as additions, they are all the samples |
| Latency.HistogramMono | include/allocator_lab/metrics.hpp:101-105 | a larger rank never gives a smaller bucket edge |
| Latency.AnswersMono | include/allocator_lab/metrics.hpp:62-66 | on either path, a larger p never gives a smaller percentile |
| Latency.RankMeaning | include/allocator_lab/metrics.hpp:98-100 | the rank is the least one, from 1 on, that is not below p times the count |
| Latency.SampleOnLine | include/allocator_lab/metrics.hpp:109-117 | the interpolated answer lies on the straight line between the two neighbouring sorted samples, at the fraction of its position |
| Latency.LatencyCollector.constructor | include/allocator_lab/metrics.hpp:41-42 | a new collector describes no samples |
| Latency.LatencyCollector.Add | include/allocator_lab/metrics.hpp:44-53 | histogram, count, sum, minimum and maximum describe the old samples and the new one, which is kept while there is room |
| Latency.LatencyCollector.Merge | include/allocator_lab/metrics.hpp:73-82 | the collector then describes the samples of both, so any tree of adds and merges does, and keeps the raw samples of both up to its limit |
| Latency.LatencyCollector.HistogramAnswer | include/allocator_lab/metrics.hpp:97-106 | the answer is the edge of the bucket in which the rank falls; only a rank above n falls through to the maximum |
| Latency.LatencyCollector.Percentile | include/allocator_lab/metrics.hpp:91-107 | the exact path runs only on the full multiset of samples and interpolates it; otherwise the answer is the bucket edge of the rank |
| Latency.LatencyCollector.Summarize | include/allocator_lab/metrics.hpp:55-68 | no samples give zeros; otherwise the mean times the count is the total of the samples, minimum and maximum are samples that bound all of them and the mean, and each of the five percentiles is the interpolated or histogram answer for its fraction, in increasing order |
| SharedBump.TrueSizeIs | include/allocator_lab/allocators/shared_allocator.hpp:93-96 | the rounding is the least multiple of the larger of 16 and the alignment that covers the size, at most 2^64; the word the code computes wraps only there |
| SharedBump.PassesIff | include/allocator_lab/allocators/shared_allocator.hpp:101 | the signed bound test passes exactly when the end is within the region or the sum leaves the signed range |
| SharedBump.SoundIff | include/allocator_lab/allocators/shared_allocator.hpp:101-106 | a passing test reserves a range that holds the request and fits exactly when the unwrapped end is within the region |
| SharedBump.HugeRequest | include/allocator_lab/allocators/shared_allocator.hpp:93-106 | a concrete oversized request that passes the test and would move the field below zero |
| SharedBump.AdvertisedIsModest | include/allocator_lab/allocators/shared_allocator.hpp:74-83 | every request within the advertised maximum stays in the signed range, for regions below 2^62 |
| SharedBump.WinKeeps | include/allocator_lab/allocators/shared_allocator.hpp:107-118 | a successful exchange grants one new range, moves the field up by exactly its size and keeps the invariant |
| SharedBump.LoseMeans | include/allocator_lab/allocators/shared_allocator.hpp:107 | a failed exchange means that another process was granted a range since the read, and that the field is larger |
| SharedBump.StepKeeps | include/allocator_lab/allocators/shared_allocator.hpp:99-120 | every step of every process keeps the invariant; the field never falls and no grant is withdrawn |
| SharedBump.RunKeeps | include/allocator_lab/allocators/shared_allocator.hpp:99-120 | the same over any interleaving of any length |
| SharedBump.AllRunsSafe | include/allocator_lab/allocators/shared_allocator.hpp:41-120 | every interleaving after creation satisfies the invariant |
| SharedBump.GrantsSafe | include/allocator_lab/allocators/shared_allocator.hpp:99-120 | granted ranges are pairwise disjoint, lie between header and region end, and hold their requests |
| SharedBump.RefusedIff | include/allocator_lab/allocators/shared_allocator.hpp:101-105 | a request is refused exactly when its end would pass the end of the region |
| SharedBump.ModestIff | include/allocator_lab/allocators/shared_allocator.hpp:101-106 | a request is in the signed range with every offset of the region exactly when a passing bound test is sound wherever the field stands |
| SharedBump.RunSixteens | include/allocator_lab/allocators/shared_allocator.hpp:96-108 | in every run, also one that wraps, the field and every granted offset stay multiples of 16 |
| SharedBump.AlignmentIff | include/allocator_lab/allocators/shared_allocator.hpp:93-114 | every grant of every run honours an accepted alignment exactly when that alignment is at most 16, although up to 4096 is accepted and reported as granted |
| SharedBump.PageRequest | include/allocator_lab/allocators/shared_allocator.hpp:93-114 | a concrete run: a first request for 4096-byte alignment is granted at offset 32 |
| SharedBump.BooksMeaning | include/allocator_lab/allocators/shared_allocator.hpp:107-118 | after any grants the books of a process count them, hold each with its offset, size and alignment, and add up what was asked for, a request for nothing counting one granted byte |
| SharedBump.RoundFollows | include/allocator_lab/allocators/shared_allocator.hpp:99-120 | one round of the retry loop is a read step and an exchange step of the protocol |
| SharedBump.Process.constructor | include/allocator_lab/allocators/shared_allocator.hpp:34-84 | a process starts with empty books and knows whether its region was mapped |
| SharedBump.Process.Allocate | include/allocator_lab/allocators/shared_allocator.hpp:88-120 | the loop ends in the first round it does not lose; that round decides refusal or grant, the new field value, the answer and all the books; without a mapped region or a legal alignment nothing changes |
| Traces.TraceReplayValidator.IsLive | src/trace.cpp:295-298 | the scan answers membership in the set of live ids |
| Traces.TraceReplayValidator.RemoveId | src/trace.cpp:309 | the swap with the last element removes exactly that id and keeps the vector free of duplicates |
| Traces.TraceReplayValidator.Validate | src/trace.cpp:300-322 | verdict and new live set are those of a plain set of live ids, and the counter agrees with the set |
| Traces.ValidateTrace | src/trace.cpp:324-347 | the verdict is that of the map-based specification, and is never the size-record conflict |
| Traces.CheckNeverConflicts | src/trace.cpp:341 | the specification never reports a size-record conflict |
| Traces.LiveAfterMeaning | src/trace.cpp:300-322 | an id is in the live map after i entries exactly when an allocate of it has no later free |
| Traces.AcceptedMeaning | src/trace.cpp:324-347 | a trace is accepted exactly when its version is right and each entry is well formed and fits what is live before it, stated on the whole trace |
| Traces.WorkerStreamsValid | src/experiment.cpp:171-175 | if frees and reallocates carry the worker of their allocate, each stream chosen by worker mod threads is itself valid, and balanced if the trace is |
| Traces.RefusedMeaning | src/trace.cpp:324-347 | a refused trace is refused for its first entry that is not in order, with the reason that fits that entry |
| Replay.StepShape | src/experiment.cpp:53-94 | every step of every worker, resets included, keeps live regions disjoint, the tables in agreement with them and all table handles different |
| Replay.Bystander | src/experiment.cpp:26-30 | a step that neither resets nor writes into a region lost to a reset changes no region or byte of another worker |
| Replay.OwnHold | src/experiment.cpp:57-87 | an allocate, write, check, free or reallocate step keeps the patterns its worker held, and what it gains holds its pattern as far as it is written |
| Replay.VerifySound | src/experiment.cpp:32-37 | the check of a live region that holds its pattern finds no wrong byte |
| Replay.AlwaysSound | src/experiment.cpp:53-94 | in every interleaving of streams without Reset, every table entry is live and holds its pattern in every state |
| Replay.Progress | src/experiment.cpp:182-189 | every worker that is not done can move, in every state of every run |
| ReplaySafety.PayloadIntegrity | src/experiment.cpp:53-94 | in every state of every interleaving of safe streams, resets included, over an allocator that meets the strategy contract, no worker has seen a failed pattern check |
| ReplaySafety.StaleMeaning | src/experiment.cpp:88-91 | the across-a-reset condition by positions: a reset at r and a check at q > r of an id that can be in the table at r and is not freed between |
| ReplaySafety.ChecksMeaning | src/experiment.cpp:66-87 | a stream checks something exactly when some non-empty free or reallocate names an id that an earlier entry allocated and nothing freed since |
| ReplaySafety.LateMeaning | src/experiment.cpp:66-91 | a stream checks something after its first reset exactly when such an entry has a reset before it |
| ReplaySafety.OneStreamSafe | src/experiment.cpp:117-118 | a single stream is safe exactly when it checks no id across a reset |
| ReplayUnsafe.SafeIff | src/experiment.cpp:53-94 | the streams that never fail a check, in any state of any interleaving over any allocator that meets the contract, are exactly the safe ones |
| ReplayUnsafe.UnsafeFails | src/experiment.cpp:182-189 | for streams that are not safe, an allocator behaviour and an interleaving that end with a failed check |
| ReplayUnsafe.ResetRun | src/experiment.cpp:53-94 | a trace that the validator accepts (Allocate 1, Reset, Allocate 2, Free 1) and a run of it that ends with a failed check |
| ReplayUnsafe.LateWriterFails | src/experiment.cpp:61-63 | two streams that check nothing across a reset and still can fail: one worker is writing its pattern while the other resets and allocates again |
| Patterns.NotConstant | src/experiment.cpp:26-30 | no id has a constant pattern: each byte value is missed within the first 2^61 + 2 bytes |
| Patterns.FirstBytes | src/experiment.cpp:26-30 | the first three bytes of the pattern of id 1 |
| ReplayBalance.EveryEntryCounted | src/experiment.cpp:53-94 | in a finished run every allocate, free and reallocate entry was counted once, as a success or a failure |
| ReplayBalance.NoLeak | src/experiment.cpp:182-189 | a finished run of valid balanced streams, with frees of live handles accepted, leaves the live regions as they were at the start, even when allocations failed |
| Workload.FindSoonest | src/workload.cpp:211-213 | the scan finds the first entry whose lifetime ends no later than any other |
| Workload.ChooseVictim | src/workload.cpp:208-213 | the last index for Lifo, the first for Fifo, the drawn one for Random, the first of those whose lifetime ends soonest for ByLifetime |
| Workload.AlignmentsAccepted | src/workload.cpp:107-123 | every alignment drawn is zero or a power of two if the configured ones are |
| Workload.SanitizeSane | src/workload.cpp:19-43 | the sanitized counts, fractions and ratios are in range, the phases fit into the run, and sanitizing does not change whether domain and alignments are well formed |
| Workload.SanitizeMeaning | src/workload.cpp:19-43 | settings in range stay, others go to the nearest end of their range or to the documented default |
| Workload.SanitizeTwice | src/workload.cpp:19-43 | sanitizing a second time changes nothing exactly when not both ends of the size range were zero |
| Workload.SizesOrdered | src/workload.cpp:21-22 | after sanitizing the minimum size is at most the maximum exactly when not both were zero |
| Workload.AllocateGood | src/workload.cpp:188-205 | an allocate step keeps the output accepted, the vectors in step with the live map, and the id pool disjoint from it |
| Workload.FreeGood | src/workload.cpp:206-219 | the same for a free step |
| Workload.ReallocateGood | src/workload.cpp:220-231 | the same for a reallocate step |
| Workload.RunGood | src/workload.cpp:165-232 | the main loop emits exactly one entry per operation, keeps all of that, and never has more than live_target + 1 live |
| Workload.DrainGood | src/workload.cpp:234-242 | the drain keeps the output accepted and ends with nothing live |
| Workload.GenerateWorkload | src/workload.cpp:145-245 | the loops over vectors produce the specified trace and its verdict |
| Workload.GeneratedTrace | src/workload.cpp:145-245 | for every configuration with well-formed domain and alignments and every draw: the trace is valid and worker-consistent, has one entry per operation plus the drain, numbers them in order, and with release_to_zero is balanced with as many frees as allocates |
| Workload.GeneratorMeetsValidator | src/workload.cpp:244 | all draws give a valid trace exactly when the configured domain and alignments are well formed |
| WorkloadEntries.EveryEntryWell | src/workload.cpp:165-242 | for every entry of every generated trace: a main-loop entry has its own step, the operation that live count and draw call for, and the drawn size, alignment, worker and class of that step; a drain entry is a free with step operations; a free or reallocate carries worker and tag, a free also size and alignment, of the last allocate or reallocate of its id; ByLifetime frees what ends soonest |
| WorkloadEntries.LiveSize | src/trace.cpp:300-322 | the size the validator has for an id is that of its last allocate or reallocate |
| WorkloadEntries.FreeSizes | src/workload.cpp:217-239 | each free of a generated trace has the size that the validator has for its id |
| WorkloadEntries.AlignmentMeaning | src/workload.cpp:107-123 | which alignment a draw gives for each distribution |
| WorkloadEntries.FifoTakesNewest | src/workload.cpp:213-215 | after a Fifo free the newest allocation is at the front and goes next |
| BuddyContract.AllocateContract | include/allocator_lab/allocator.hpp:69-71 | a buddy allocation meets the strategy contract of the replay |
| BuddyContract.FreeContract | include/allocator_lab/allocator.hpp:73-74 | a buddy free meets it |
| BuddyContract.HeaderBytesSpare | include/allocator_lab/allocators/buddy_allocator.hpp:62-78 | the header writes of the verified class change no byte of a live block or payload |
| StrategyContracts.FreeListAllocate | include/allocator_lab/allocator.hpp:69-71 | a free-list allocation meets the contract: a refusal leaves every payload region as it was, a grant adds one disjoint from all |
| StrategyContracts.FreeListFree | include/allocator_lab/allocator.hpp:73-74 | a free-list free that stays inside the superblock meets it, and accepts every live handle |
| StrategyContracts.SegregatedAllocate | include/allocator_lab/allocator.hpp:69-71 | the same for a segregated allocation, also when it grows and then fails |
| StrategyContracts.SegregatedFree | include/allocator_lab/allocator.hpp:73-74 | the same for a segregated free |
| StrategyContracts.SlabAllocate | include/allocator_lab/allocator.hpp:69-71 | the same for a slab allocation |
| StrategyContracts.SlabFree | include/allocator_lab/allocator.hpp:73-74 | the same for a slab free |
| StrategyContracts.SlabTrim | include/allocator_lab/allocator.hpp:90 | a slab trim keeps every live region |
| StrategyContracts.FreeListBytesSpare | include/allocator_lab/allocators/free_list_allocator.hpp:142-161 | the 48-byte header and 16-byte footer writes of the verified class change no byte of a live payload |
| StrategyContracts.SegregatedBytesSpare | include/allocator_lab/allocators/segregated_allocator.hpp:136-166 | the 24-byte header writes of the verified class change no byte of a live payload |
| StrategyContracts.BuddyTagsApart | include/allocator_lab/allocators/buddy_allocator.hpp:76-79 | no payload byte that replay writes lies in the header of any buddy block |
| StrategyContracts.FreeListTagsApart | include/allocator_lab/allocators/free_list_allocator.hpp:142-161 | no payload byte that replay writes lies in the header, link or footer of any free-list block |
| StrategyContracts.SegregatedTagsApart | include/allocator_lab/allocators/segregated_allocator.hpp:132-141 | no payload byte that replay writes lies in the magic number or size of any segregated block, nor in the header of a block that is not live |
| StrategyReplay.GrantedIds | include/allocator_lab/allocator.hpp:69-71 | the handle of a grant is the next number, so no handle is given out twice, resets included |
| StrategyGrants.GrantFits | src/experiment.cpp:57-64 | over any of the four allocators, the region a worker records for a granted allocate entry has at least the size of the entry and honours its alignment |
| StrategyReplay.StepRefines | src/experiment.cpp:182-189 | each step of workers over any of the four allocators is a step of the abstract replay and keeps the allocator invariant |
| StrategyReplay.Integrity | src/experiment.cpp:53-94 | over any of the four allocators, no interleaving of safe streams, resets included, ever fails a pattern check |
| StrategyReplay.StrategyProgress | src/experiment.cpp:182-189 | over any of the four, every worker that is not done can move, unless its call is a free that would read behind a free-list superblock |
| StrategyReplay.FreesAccepted | src/experiment.cpp:66-74 | the handles that replay frees are live, so the allocator accepts them |
| StrategyReplay.GeneratedReplayClean | src/experiment.cpp:157-189 | any finished concurrent replay of a generated release_to_zero workload over any of the four has no failed check, counts every entry once and leaves the live regions as they were |
| StrategyReplay.GeneratedReplayRestoresArena | include/allocator_lab/allocators/buddy_allocator.hpp:173-191 | started on an idle buddy arena, such a replay ends with the whole arena one free block |
| StrategyReplay.GeneratedReplayReturnsPages | include/allocator_lab/allocators/slab_allocator.hpp:171-180 | started on an idle slab allocator, such a replay followed by a trim leaves no page held |
| SequentialReplay.SequentialReplay.WritePattern | src/experiment.cpp:26-30 | exactly the region is written, with the pattern of the id |
| SequentialReplay.SequentialReplay.VerifyPattern | src/experiment.cpp:32-37 | true exactly when the region holds the pattern of the id |
| SequentialReplay.SequentialReplay.ApplyEntry | src/experiment.cpp:53-94 | allocator state and counters are those of the specification; pending regions that are live stay patterned, resets included; a check fails only for an allocation that a reset took away |
| SequentialReplay.SequentialReplay.RunReplay | src/experiment.cpp:117-118 | the loop applies all entries in order; if they check nothing across a Reset, no check ever fails |
| SequentialReplay.SequentialNoLeak | src/experiment.cpp:98-155 | replaying a valid balanced trace without Reset leaves the live table as it was and nothing pending |
| SequentialReplay.SequentialCounts | src/experiment.cpp:53-94 | without Trim and Reset, every allocate, free and reallocate entry is counted once |
| SequentialReplay.PartitionEntries | src/experiment.cpp:169-175 | the queues are the streams selected by worker mod threads, with zero threads taken as one |
| ReplayCounts.SequentialMeaning | src/experiment.cpp:53-94 | the successes a replay gains are the grants and accepted frees that the allocator counts; its failures are all other allocate, free and reallocate entries and the trims |
| ReplayCounts.ReplayCalls | src/experiment.cpp:57-91 | the allocator ends as after one allocate with the size and alignment of each allocate entry, one free of the recorded handle for each free of an id in the table, one reset for each reset, and nothing else |
| ReplayCounts.BalancedCounts | src/experiment.cpp:98-138 | for a valid balanced trace of allocations and frees: two successes for each grant and two failures for each refused allocation, so no failure exactly when every allocation is granted |
| ReplayCounts.TableWithin | src/experiment.cpp:66-74 | the table holds only ids that the validator has live, whatever is refused or reset |
| ConcurrentCounts.ConcurrentMeaning | src/experiment.cpp:53-94 | in every interleaving a worker has counted one operation for each entry begun, one success for each grant and each accepted free or reallocate, one failure for each refused call and each free or reallocate of an id not in its table |
| ConcurrentCounts.FinishedCounts | src/experiment.cpp:182-189 | once valid balanced streams of allocations and frees have run to the end: two successes for each grant, two failures for each refused allocation |
| BinaryCodec.LeRoundTrip | src/trace.cpp:238-239 | reading back the n little-endian bytes of a number that fits gives the number |
| BinaryCodec.LeInverse | src/trace.cpp:258-259 | writing the number read from n bytes gives the bytes |
| BinaryCodec.TraceToBinary | src/trace.cpp:235-254 | the buffer is the specified encoding |
| BinaryCodec.TraceFromBinary | src/trace.cpp:256-291 | the result, error cases included, is the specified decoding |
| BinaryCodec.EntryRoundTrip | src/trace.cpp:274-288 | decoding an encoded entry at any position gives the entry |
| BinaryCodec.BinaryRoundTrip | src/trace.cpp:235-291 | for a valid trace, decoding the encoding gives it back exactly when the name has at most 2^24 bytes and there are fewer than 2^32 entries |
| BinaryCodec.AcceptedLength | src/trace.cpp:256-291 | an accepted input decodes to a valid trace and is 24 bytes, the name and 68 bytes for each entry long |
| BinaryCodec.PrefixFree | src/trace.cpp:289 | no accepted input is a proper prefix of another |
| BinaryCodec.TruncationAndExtensionRejected | src/trace.cpp:256-291 | every proper prefix and every proper extension of the encoding of a valid trace is rejected |
| BinaryCodec.FlagTwoAccepted | src/trace.cpp:282-284 | concrete bytes with a flag of 2 that decode to a trace and are not its encoding |
| BinaryCodec.ReencodeExactly | src/trace.cpp:280-286 | encoding an accepted input again gives the same bytes exactly when its op and domain fit 16 bits, its flags are 0 or 1 and its error codes fit 16 bits |
| TraceFormats.LeDigit | src/trace.cpp:238-239 | the i-th byte of a number is its i-th digit to base 256 |
| TraceFormats.EntryBytes | src/trace.cpp:247-252 | the 68 bytes of a concrete entry |
| TraceFormats.TraceBytes | src/trace.cpp:240-246 | the bytes of a concrete trace without entries |
| TraceFormats.HeadRefusals | src/trace.cpp:260-270 | what is refused for its first four bytes, its version, its length or its name, and with which error |
| TraceFormats.EntryFieldsRead | src/trace.cpp:276-284 | which bytes each field of an entry is read from, with the narrowing of operation and domain, the flags and the saturated error code |
| TraceFormats.EntriesRefused | src/trace.cpp:274-289 | entries are refused for the first that is cut short or has an operation above 6 or a domain above 5, and for bytes behind the last |
| Json.ParseValue | src/trace.cpp:51-143 | a value consumes at least one character, so the descent ends on every text |
| Json.NumberRoundTrip | src/trace.cpp:92-108 | the digits of a 64-bit number read back as that unsigned number |
| Json.CharsRoundTrip | src/trace.cpp:71-91 | an escaped name reads back unless it has a character written as \u00xx; with one, the string is rejected |
| Json.ValueRoundTrip | src/trace.cpp:51-143 | any printed value, whatever its white space, reads back as the value and leaves the rest of the text |
| TraceJson.EntryReadBack | src/trace.cpp:207-231 | reading the printed members of an entry gives the entry, its status reset to the defaults when has_status is false |
| TraceJson.JsonRoundTrip | src/trace.cpp:168-233 | for a valid trace, reading the printed text gives it back exactly when the name avoids the \u00xx characters and entries without status have the default status |
| TraceJson.BadNameUnreadable | src/trace.cpp:159 | a name with a character written as \u00xx makes the whole printed text unreadable |
| TraceFormats.Numerals | src/trace.cpp:171-181 | numbers are printed in decimal |
| TraceFormats.ValueStep | src/trace.cpp:92-108 | a digit more means ten times the value and the digit, so leading zeros are read |
| TraceFormats.Escapes | src/trace.cpp:149-164 | the printed form of each escaped character |
| TraceFormats.Unescapes | src/trace.cpp:71-91 | the character after a backslash, and which are refused |
| TraceFormats.EntryText | src/trace.cpp:176-185 | the text of any entry: its members by name in order, the status only when there is one |
| TraceFormats.TraceText | src/trace.cpp:168-191 | the whole text of any trace, with its line breaks and indentation |
| TraceFormats.TraceMembers | src/trace.cpp:197-205 | seed and name may be missing, version and entries may not, and the version must be 1 |
| TraceFormats.EntryMembersNeeded | src/trace.cpp:213-224 | every number of an entry is required, operation and domain are checked after the cast to 32 bits, and worker and tag keep their low 32 bits |
| TraceFormats.StatusMembers | src/trace.cpp:225-229 | status fields are read only when has_status is true and may be missing; an error code above 65535 or a has_status that is no boolean is refused |
| JsonGrammar.Spaces | src/trace.cpp:50 | white space is tab, line feed, vertical tab, form feed, carriage return and blank |
| JsonGrammar.NumberMeaning | src/trace.cpp:92-108 | a number token is read up to its end; plain digits below 2^64 give that number, anything else is kept as its token if std::stod takes it |
| JsonGrammar.NoValue | src/trace.cpp:51-62 | where a value is missing the text is refused |
| JsonGrammar.NoTrailingComma | src/trace.cpp:109-143 | a list or object does not end behind a comma |
| JsonGrammar.NeedsComma | src/trace.cpp:109-122 | after a value of a list comes a comma or the end of the list |
| JsonGrammar.NothingBehind | src/trace.cpp:42-47 | nothing but white space may follow the document |
| JsonGrammar.Unterminated | src/trace.cpp:71-91 | a string without a closing quote is refused |
| JsonGrammar.RawControl | src/trace.cpp:71-91 | a string with a raw control character is refused |
| TraceFormats.Found | src/trace.cpp:193-233 | of several members with one name the first counts |
| JsonParser.JsonParser.SkipSpace | src/trace.cpp:50 | the cursor stops where the specification drops white space to |
| JsonParser.JsonParser.ParseNumber | src/trace.cpp:92-108 | outcome and cursor are those of the number grammar, with std::stod as an oracle |
| JsonParser.JsonParser.ParseString | src/trace.cpp:71-91 | outcome, text and cursor are those of the string grammar |
| JsonParser.JsonParser.ParseLiteral | src/trace.cpp:63-70 | outcome and cursor are those of the literal |
| JsonParser.JsonParser.ParseValue | src/trace.cpp:51-62 | outcome, value and cursor are those of the specification |
| JsonParser.JsonParser.ParseArray | src/trace.cpp:109-122 | the loop reads exactly the specified items |
| JsonParser.JsonParser.ParseObject | src/trace.cpp:123-143 | the loop reads exactly the specified members |
| JsonParser.JsonParser.Parse | src/trace.cpp:42-47 | succeeds exactly on a whole document, with its value |
| JsonParser.TraceFromJson | src/trace.cpp:193-233 | the result, error cases included, is the specified reading |
| JsonPrinter.JsonEscape | src/trace.cpp:149-164 | the text is the specified escaping |
| JsonPrinter.EntryToJson | src/trace.cpp:175-187 | the appended text is the printed form the parser theorems are about |
| JsonPrinter.TraceToJson | src/trace.cpp:168-191 | the printed text is the one the round-trip theorem is about |

## Left out

- `BuddyAllocator.BuddyAllocator.constructor`: takes arena_log2 between 4 and 63; below 4 the advertised maximum size of the source underflows, which is not modelled.
- `FreeListAllocator.FreeListAllocator.constructor`: takes a superblock size of at least 1; with 0 the rounding of the source masks every request down to 0 bytes, which is not modelled.
- `FreeListModel.FreeKeeps`: says nothing about what happens after a read behind the superblock; the outcome is then `Undefined` and the run ends.
- `SegregatedAllocator.SegregatedAllocator.constructor`: takes superblock sizes from 1 to 2^63.
- `SegregatedAllocator.CeilLog2`: covers arguments up to 2^63; above that the loop of the source does not end.
- `SlabModel.RunKeepsInv`: assumes pages that are powers of two, at most 2^62, and hold the header and one slot; `SlotsFitIff` says why the second is needed.
- `SharedBump.AllRunsSafe`: covers requests whose sum with the region size stays in the signed range, which `AdvertisedIsModest` shows for all advertised sizes; `HugeRequest` is a request outside it. Signed 64-bit sums are taken to wrap.
- `Latency.LatencyCollector.Percentile`: rank, interpolation, sum and mean are over the reals; the rounding of `double` is not modelled.
- `Workload.GenerateWorkload`: phase fractions, size distributions, lifetimes and probabilities are decided in floating point, so each step's draws are an arbitrary oracle; the theorems hold for every oracle. The order in which the generator consumes SplitMix64 outputs is not modelled.
- `JsonParser.JsonParser.ParseNumber`: `std::stod` is an oracle on the token, and the depth of recursion is not bounded.
- `BinaryCodec.TraceFromBinary`: does not model exhaustion of memory when a large entry count is reserved before the entries are read.
- `SequentialReplay.SequentialReplay.ApplyEntry`: the byte array holds payloads only; that header writes spare them is `HeaderBytesSpare`, that payload writes spare headers `BuddyTagsApart`. Latency samples and snapshots are not taken.
- `StrategyReplay.Integrity`: a run over the free list ends before a free that would read behind a superblock. A call may change any byte outside the live payloads; that the classes do no more is `HeaderBytesSpare`, `FreeListBytesSpare` and `SegregatedBytesSpare`, and the slab allocator writes nothing into its pages.
- `ReplayUnsafe.SafeIff`: speaks of all allocators that meet the contract; after a Reset they may do anything to the memory they took back. Over one particular allocator an unsafe stream may happen to pass.
- `ReplayBalance.NoLeak`: is about streams without Reset; a reset drops live allocations by design.
- `SequentialReplay.SequentialReplay.RunReplay`: leaves out snapshots, the final trim and the report fields.
- The free list's trim, which only counts, and shutdown of the three growing allocators, which does what reset does.
- The id field that the free list writes behind the 48-byte header, into the payload, and never reads.
- Poison and zero fills, capability tables, names, and wrap-around of the 64-bit statistics counters.
- Peak and current live bytes in the validator, which are computed and never used.
- Mapping calls of the shared region, publish and query across processes, and processes that map different sizes.
- Weak memory: a lock or a compare-exchange is one step.
- System, aligned, fixed-pool, size-class and arena allocators, the registry, the event log, device and mapped backends, the command line, reports and files: bookkeeping or foreign calls, easy next to the above.
