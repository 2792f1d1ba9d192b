# Verified models of itskernel

Dafny models of the memory management of the 64-bit itskernel and of four of its
smaller state machines, with proofs of what they promise. `dafny verify dfyconfig.toml`
checks everything.

| files | what they model |
|---|---|
| Bits, BinIndex, Trie, TrieMemory, TrieSurgery, TreeBins, BestFit, LargeBins | dlmalloc's tree bins: chunks in linked memory, bitwise tries, the best-fit search |
| Chunks, FreeIndex, Dlmalloc | boundary tags, small bins, the designated victim and `top`; `dlmalloc` and `dlfree` over one segment |
| FramePool, FrameMoves, FullPages, FrameManager | the physical memory manager: nine stacks of frames that keep their stack pages in frames of their own |
| FrameOrder, FrameList | the order in which it hands out frames before initialisation, and the list of reserved pages drawn that way |
| StackSort, StackMerge, PmmInit | sorting and merging those stacks slot by slot, contiguous allocation, the pool made from the memory map |
| Addresses, PageTables, Vmm | four-level page tables edited through their self-map |
| MemoryMap, ListSort, MapSort | the sanitiser of the boot memory map, the in-place merge sort of linked lists, and both together |
| Segments, KernelHeap | the two interval allocators of virtual address space |
| Bytes, RamFile | the data path of the RAM file system |
| Sched, Tlb, Locks | scheduler, TLB shootdown, spin and reader-writer locks, as steps of many CPUs |
| Common | a word, an option, distinct sequences, bit-map search |
| Udp, UdpServer | the block protocol over UDP, from the kernel's sender to the server's receiver |

Memory that the source links by pointers is a map from addresses to records (the tree
bins, the list sort, the page tables); a ghost tree, sequence or path says what the links
mean. Stacks, block chains and queues are sequences that methods reassign. Machine words
are unbounded integers with the wrap-around written out where the source can reach it.
Frames obtained, nodes allocated, datagrams arriving and steps interleaving are parameters
or runs. The page tables follow section 4.5 of the Intel SDM, Volume 3A, but for one thing:
the low bits of the frame of a large page are dropped in `Translate`, where the processor
would fault on reserved bits.

The main results:

* `tmalloc_large` returns a chunk of least sufficient size among all chunks in all tree
  bins, inserting and unlinking (also of an inner node) keep the tries, and the bin index
  is right for exactly the sizes below 2^40 and the few above for which the 32-bit
  truncation happens to do no harm.
* Over every sequence of `dlmalloc` and `dlfree`, chunks tile the segment, no two free
  chunks touch, and the index holds each free chunk exactly once. Hence the live chunks
  alone determine the layout, and a release undoes an allocation.
* Every byte of physical memory is held as often after any run of allocations and frees
  as before: by a stacked frame, a stack page, the reserved list or a live allocation. The
  mutual recursion terminates, and the code for the case that no stack page can be found
  is never reached.
* From the boot loader's entries to the running manager: after sanitising, sorting and all of
  `pmm_init` a byte is held once, in the pool or as auxiliary memory, if its whole page has no
  higher type than available, and else not at all, if and only if the ends of the maximal
  available runs fit the code that splits their last 2M pages.
* The frames that `pmm_init` draws for its list of reserved pages are known in advance, so that
  the list descends if and only if a condition on the stacks holds; once it descends, it does so
  over every run.
* A failing `_vmm_touch` restores tables and free frames exactly; mapping and unmapping
  change the translation of one page and nothing else; the window pointers of
  `addr_to_index` lead to the tables of a plain walk.
* Whatever the channel loses, repeats or reorders, a block arrives as sent exactly if it is
  not empty and all of its chunks arrived, and the server is back in step after a lost one.

Where the code does not do what its comments or names say, the model follows the code and
a lemma gives the exact condition:

* `compute_tree_index` puts 2^40 into bin 0 (`IndexWrongAt2To40`, `IndexCorrectIff`).
* `_pmm_defragment` calls its stacks sorted, but passes over those with fewer than two
  frames on the top page (`SortSkipped`), and its index arithmetic takes every page below
  the top for full (`IndexExact`). On a partly filled page it reads a stale slot and misses a
  frame (`PartialFails`). A stack is sorted for certain exactly if two frames are on top and
  all pages below are full (`SortGuaranteed`, `StackSortable`).
* Partly filled pages below the top do arise: `_pmm_free` can take the page for a full stack
  from that very stack (`Starve`). `FreeFrame` and `AllocFrame` say exactly when they keep
  all lower pages full.
* `pmm_init` takes its list of reserved pages to be sorted, but fills it in the order of
  allocation: where fewer than 509 4K frames are free and a larger one is split for the rest,
  the list does not descend (`FewDoNotFall`, `LowMemory`); `FillList` has the exact condition.
  With an unsorted list `_pmm_try_reserve_as_stack_page` no longer keeps the highest frames
  (`ReserveKeepsHighest` asks for a descending one), but no byte is lost.
* Without 1G pages `pmm_init` pushes ranges twice or wraps around (`OverlapExample`,
  `WrapExample`), exactly if an entry's end does not fit (`TilesWithout1G`).
* `mm_map_sanitize` compares with `end + 1`, which wraps at the last address
  (`CoalesceWraps`, `CoalesceKeepsIff`).
* `list_sort` loses the tail of a list of one node (`ListSort.Sort`).
* `_vmm_maps` of a large page over a table loses the tables below it (`LargeOverSmall`,
  `LostTables`), and bits of the physical address outside `PG_ADDR_MASK` become flags
  (`AddressBits`); `_vmm_virt_to_phys` differs from the processor exactly for a large page whose
  masked frame is not aligned (`Misaligned`, `VirtToPhys`), and `_vmm_map_range` asks for such
  pages where the two addresses differ in their offset (`PageExact`, `MapRange`).
* `_seg_alloc_at` does not look at the state of a block and can free memory in use
  (`AllocAtLosesUse`, `TakenInUse`), and its bounds check wraps around: then nothing is mapped
  and the list is no partition any more (`AllocAtWraps`, `PlacedTiles`). `_seg_alloc` of size 0
  leaves an empty block (`Segments.Alloc`).
* `find_node` adds sizes without a check (`AcceptsWraps`, `AcceptsIff`) and leaves a gap
  behind a node it moves, so that a release restores the list only where nothing moved
  (`MovedStays`, `FoundFreed`).
* `ramfs_read` adds position and length without a check: where the sum wraps, the read runs
  off the chain of blocks (`ReadWraps`, `Clamped`). After a read that ends exactly at the end
  of a file the cursor is null and a write faults (`WriteAfterEnd`, `File.Write`).
* An empty block sends nothing and is never delivered (`FetchExact`).

## Model

| member | source | states |
|---|---|---|
| BinIndex.IndexCorrectIff | code/kernel/mm/dlmalloc.c:1405-1480 | the 32-bit bin index names the bin whose size range holds the size, if and only if the size is below 2^40 or its truncation is harmless |
| BinIndex.IndexWrongAt2To40 | code/kernel/mm/dlmalloc.c:1406-1418 | a chunk of 2^40 bytes is put into bin 0, which is wrong |
| BinIndex.BinRange | code/kernel/mm/dlmalloc.c:1473-1480 | a bin is a range of a power of two, and the shift that starts a walk leaves exactly the offset into it |
| BinIndex.BinsOrdered | code/kernel/mm/dlmalloc.c:1478-1480 | every size in a lower bin is smaller than every size in a higher one |
| Trie.WalksBounded | code/kernel/mm/dlmalloc.c:1869-1918 | a trie is at most one level higher than its range has open size bits |
| Trie.LeftBelowRight | code/kernel/mm/dlmalloc.c:1869-1918 | sizes in a left subtree are below those in the right one |
| Trie.GraftIsTrie | code/kernel/mm/dlmalloc.c:2229-2263 | a subtree put where the walk to a size ends keeps the trie |
| Trie.GraftChunks | code/kernel/mm/dlmalloc.c:2229-2263 | a graft changes the chunks at its place and no others |
| Trie.CutIsTrie | code/kernel/mm/dlmalloc.c:2298-2313 | without its rightmost leaf a trie is a trie that lacks exactly that size |
| Trie.CutChunks | code/kernel/mm/dlmalloc.c:2298-2313 | the chunks of a trie are those of the cut trie and of the leaf |
| Trie.DropIsTrie | code/kernel/mm/dlmalloc.c:2284-2353 | an inner node replaced by the rightmost leaf below it leaves a trie without exactly that size |
| Trie.DropChunks | code/kernel/mm/dlmalloc.c:2284-2353 | the replacement loses exactly the chunks of the node |
| Trie.LeftmostIsMin | code/kernel/mm/dlmalloc.c:3041-3048 | the walk along leftmost children meets the least size of the tree |
| TreeBins.KeySpellsTurns | code/kernel/mm/dlmalloc.c:2231-2236 | the shifted key register spells the turns towards the size |
| TreeBins.WalkArrives | code/kernel/mm/dlmalloc.c:2230-2262 | the walk in linked memory ends at the chunk of that size or at the empty pointer where it belongs |
| TreeBins.FindPlace | code/kernel/mm/dlmalloc.c:2230-2262 | the loop of the insertion follows that walk |
| TreeBins.FindLeaf | code/kernel/mm/dlmalloc.c:2299-2306 | the loop of the removal finds the rightmost leaf and the pointer that leads to it |
| LargeBins.LargeBins.constructor | code/kernel/mm/dlmalloc.c:2216-2226 | empty bins are valid and hold nothing |
| LargeBins.LargeBins.Insert | code/kernel/mm/dlmalloc.c:2216-2263 | keeps all tries, rings and the tree map, and adds exactly the one chunk |
| LargeBins.LargeBins.Unlink | code/kernel/mm/dlmalloc.c:2284-2353 | keeps all tries, rings and the tree map, and removes exactly the one chunk, also from inside a ring or a tree |
| BestFit.DescentCovers | code/kernel/mm/dlmalloc.c:3008-3030 | the descent leaves the one subtree in which a better fit may still be |
| BestFit.DescendBin | code/kernel/mm/dlmalloc.c:3008-3030 | the first loop computes that descent in linked memory |
| BestFit.SmallestOf | code/kernel/mm/dlmalloc.c:3041-3048 | the second loop computes the leftmost walk in linked memory |
| BestFit.FindLarge | code/kernel/mm/dlmalloc.c:3002-3048 | the chunk found has the least sufficient size of all chunks in all tree bins; none is found if and only if none fits |
| BestFit.FindSmall | code/kernel/mm/dlmalloc.c:3073-3088 | for a small request the lowest bin in use holds a best fit |
| LargeBins.LargeBins.BestFor | code/kernel/mm/dlmalloc.c:3002-3048 | the same on the bins, with no change to them |
| LargeBins.LargeBins.SmallestFor | code/kernel/mm/dlmalloc.c:3073-3088 | the same for small requests |
| Chunks.TiledCovers | code/kernel/mm/dlmalloc.c:1991-2021 | every address of the segment lies in exactly one chunk |
| Chunks.LiveDisjoint | code/kernel/mm/dlmalloc.c:1821-1830 | live chunks never overlap and lie inside the segment |
| Chunks.FreeNeverTouch | code/kernel/mm/dlmalloc.c:1832-1853 | no free chunk borders on another one |
| Chunks.LayoutFromLive | code/kernel/mm/dlmalloc.c:1991-2021 | two layouts of a segment with the same live chunks have the same chunks, free chunks and top |
| Chunks.TakeWhole | code/kernel/mm/dlmalloc.c:3112-3235 | taking a whole free chunk keeps the tiling and moves exactly that chunk from free to live |
| Chunks.Split | code/kernel/mm/dlmalloc.c:3112-3235 | a split keeps the tiling and leaves the rest as one free chunk |
| Chunks.CutTop | code/kernel/mm/dlmalloc.c:3226-3235 | a chunk cut from top keeps the tiling and the free chunks |
| Chunks.Merge | code/kernel/mm/dlmalloc.c:3250-3357 | a run of free chunks and one live chunk becomes one free chunk |
| Chunks.MergeIntoTop | code/kernel/mm/dlmalloc.c:3301-3313 | the last chunks become part of top |
| FreeIndex.PutSmallOk | code/kernel/mm/dlmalloc.c:2138-2154 | inserting adds exactly the chunk and keeps the bit map of the small bins exact |
| FreeIndex.TakeSmallOk | code/kernel/mm/dlmalloc.c:2157-2200 | unlinking removes exactly the chunk and keeps the bit map exact |
| FreeIndex.ReplaceDvOk | code/kernel/mm/dlmalloc.c:2202-2210 | replacing the victim loses no chunk |
| FreeIndex.SmallSizesFrom | code/kernel/mm/dlmalloc.c:3163-3174 | skipping empty small bins skips no chunk that fits |
| Dlmalloc.MallocState.constructor | code/kernel/mm/dlmalloc.c:2464-2476 | a segment that is all top is valid |
| Dlmalloc.MallocState.InsertChunk | code/kernel/mm/dlmalloc.c:2357-2359 | the chunk outside the index goes into its bin, so that every free chunk is indexed once |
| Dlmalloc.MallocState.UnlinkChunk | code/kernel/mm/dlmalloc.c:2361-2363 | the chunk, and no other, leaves the index |
| Dlmalloc.MallocState.ReplaceVictim | code/kernel/mm/dlmalloc.c:2202-2210 | the rest of a split becomes the victim, and the old victim goes to its bin |
| Dlmalloc.MallocState.FromBinsSmall | code/kernel/mm/dlmalloc.c:3143-3195 | hands out a smallest free chunk that fits, or nothing where only the victim or top can serve |
| Dlmalloc.MallocState.TreeSmall | code/kernel/mm/dlmalloc.c:3073-3108 | hands out a smallest tree chunk and keeps the rest as victim |
| Dlmalloc.MallocState.FromBinsLarge | code/kernel/mm/dlmalloc.c:3002-3070 | hands out a best fit, unless the victim fits as well |
| Dlmalloc.MallocState.FromVictim | code/kernel/mm/dlmalloc.c:3206-3224 | the victim serves the request, in whole or in part |
| Dlmalloc.MallocState.FromTop | code/kernel/mm/dlmalloc.c:3226-3235 | top serves the request |
| Dlmalloc.MallocState.Malloc | code/kernel/mm/dlmalloc.c:3112-3235 | keeps tiling and index; fails, unchanged, if and only if neither a free chunk nor top fits; the new live chunk has at least the requested size and less than a minimal chunk more, is a best fit or, for small requests, possibly the victim, and all other live chunks stay |
| Dlmalloc.MallocState.Backward | code/kernel/mm/dlmalloc.c:3273-3298 | the free chunk in front leaves its bin, unless it is the victim |
| Dlmalloc.MallocState.FreeForward | code/kernel/mm/dlmalloc.c:3300-3345 | with the chunk behind it the released chunk goes to top, the victim or a bin |
| Dlmalloc.MallocState.Release | code/kernel/mm/dlmalloc.c:3250-3357 | exactly the released chunk ceases to be live; tiling, index and separation of free chunks are kept |
| Dlmalloc.MallocState.AllocateRelease | code/kernel/mm/dlmalloc.c:3112-3357 | an allocation followed by its release leaves chunks, free chunks, live chunks and top as they were |
| FramePool.ZoneLimit | code/kernel/mm/pmm.c:118-141 | a frame of a zone ends within the limit of the zone |
| FramePool.SubFrame | code/kernel/mm/pmm.c:276-294 | the parts of a larger frame are frames, in its zone or a lower one |
| FramePool.ReserveKeepsHighest | code/kernel/mm/pmm.c:162-201 | a full, descending reserved list keeps the highest of its addresses and the new one |
| FramePool.ReservedStrictly | code/kernel/mm/pmm.c:162-201 | in memory held once, a descending reserved list is strictly descending |
| FrameManager.InsertEntry | code/kernel/mm/pmm.c:183-195 | the insertion loops put the address before the first lower entry of any list |
| FrameManager.Pmm.constructor | code/kernel/mm/pmm.c:831-866 | nine empty stacks hold no byte |
| FrameManager.Pmm.TryReserve | code/kernel/mm/pmm.c:162-201 | on any list, sorted or not and with zeros at its end, reserves if and only if there is room or the last entry is lower; then the bytes of the frame are added to the pool, and a descending list stays one |
| FrameManager.Pmm.Displace | code/kernel/mm/pmm.c:170-201 | a displaced last entry is freed unless it is 0, with no byte lost |
| FrameManager.Pmm.StackPage | code/kernel/mm/pmm.c:333-357 | a full stack always gets a page, so that the branches for the contrary case are never reached |
| FrameManager.Pmm.Free | code/kernel/mm/pmm.c:307-347 | adds exactly the bytes of the frame to the pool, through every nest of reservations and stack pages |
| FrameManager.Pmm.Alloc | code/kernel/mm/pmm.c:223-304 | takes exactly the bytes of one aligned frame within the requested zone out of the pool; returns 0 if and only if no frame of this or a larger size is left in the zones allowed |
| FrameManager.Pmm.AllocBelow | code/kernel/mm/pmm.c:236-262 | with an empty top page the page itself goes back to the pool and the one below serves |
| FrameManager.Pmm.AllocSplit | code/kernel/mm/pmm.c:268-300 | a larger frame is split and its other 511 parts are freed |
| FrameManager.Pmm.FreeParts | code/kernel/mm/pmm.c:276-294 | frees exactly the parts behind the first |
| FrameManager.Pmm.AllocFrame | code/kernel/mm/pmm.c:970-977 | an aligned frame inside the zone, or 0 with nothing changed if and only if none is left; after initialisation all pages below the top stay full if and only if no 1G frame is split while the page for its parts has to come from their own stack; before it, for a 4K frame from all zones, if and only if a 4K stack serves or the page for the parts comes from elsewhere |
| FrameManager.Pmm.Draw | code/kernel/mm/pmm.c:935-950 | so many allocations take exactly the bytes of the frames drawn; zeros follow where nothing is left; before initialisation the frames are those of the 4K stacks from the top down, then the first larger frame, then a higher one |
| FrameManager.Pmm.FillList | code/kernel/mm/pmm.c:935-942 | the list is set up with every byte held as before; it descends if and only if the 4K stacks hand out 510 frames in descending order, or all they have with nothing larger left, or 509 and a larger one that starts no higher |
| FrameManager.RunKeepsOrder | code/kernel/mm/pmm.c:162-347 | over any run of calls a descending list of reserved pages stays one |
| FrameManager.Pmm.FreeFrame | code/kernel/mm/pmm.c:984-989 | adds the bytes of the frame; all pages below the top stay full if and only if the top page has room, or a 4K frame is freed in zone STD or after initialisation, or a page is reserved, or the stack that serves the new page is another one and giving it leaves its lower pages full |
| FrameManager.Starve | code/kernel/mm/pmm.c:307-357 | 511 frames freed into a new manager leave a page of 509 frames below the top, with every byte held once |
| FullPages.StackSortable | code/kernel/mm/pmm.c:553-603 | whatever frames of its size and zone a stack of the manager holds, the sort is certain to leave a descending permutation if and only if two frames are on top and the pages below are full, or there is nothing to sort |
| FrameManager.StepConserves | code/kernel/mm/pmm.c:223-347 | one call holds every byte as often as before, in the pool or by a live allocation |
| FrameManager.RunConserves | code/kernel/mm/pmm.c:118-347 | so does any run of calls |
| FrameManager.LiveDisjoint | code/kernel/mm/pmm.c:118-347 | where bytes are held once, live allocations are disjoint and outside the pool |
| FrameManager.RunDisjoint | code/kernel/mm/pmm.c:118-347 | from disjoint memory, no run hands out memory in use, listed or holding a stack page |
| FrameOrder.DrainStep | code/kernel/mm/pmm.c:223-304 | before initialisation an allocation served by a 4K stack hands out the first frame of the drain order and leaves the rest of it |
| FrameOrder.HigherNext | code/kernel/mm/pmm.c:268-300 | after a split the next 4K frame is higher than the one handed out |
| FrameList.DrawnStep | code/kernel/mm/pmm.c:935-939 | the frames drawn so far and one more follow the drain order |
| FrameList.DrawnFalls | code/kernel/mm/pmm.c:935-942 | a list drawn that way descends if and only if the condition on the stacks before holds |
| FrameList.FewDoNotFall | code/kernel/mm/pmm.c:935-942 | with fewer than 509 4K frames, all on static pages, and a 2M frame the condition fails |
| StackSort.IndexInside | code/kernel/mm/pmm.c:389-442 | every index leads to a slot of a page, and the slot back to the index, for any counts |
| StackSort.IndexOnto | code/kernel/mm/pmm.c:389-442 | a slot that an index leads to is the slot of that index |
| StackSort.IndexExact | code/kernel/mm/pmm.c:389-442 | where no lower page is empty, the indices lead to exactly the slots that hold frames if and only if all pages below the top are full |
| StackSort.WriteFlat | code/kernel/mm/pmm.c:417-442 | a write by index changes what that index leads to and no other entry |
| StackSort.FlatIsStackOrder | code/kernel/mm/pmm.c:389-442 | where the pages below the top are full, index order is the order from the top of the stack down |
| StackSort.MinHeapify | code/kernel/mm/pmm.c:445-495 | restores the heap below an index by a rearrangement |
| StackSort.BuildHeap | code/kernel/mm/pmm.c:585-588 | makes all entries a min-heap by a rearrangement |
| StackSort.ExtractMin | code/kernel/mm/pmm.c:590-603 | moves the least entry behind the heap and keeps the sorted tail |
| StackSort.Sort | code/kernel/mm/pmm.c:585-603 | on any chain, what the indices lead to is rearranged to descend |
| StackSort.SortStack | code/kernel/mm/pmm.c:553-603 | on any chain, either the sort or, with fewer than two frames on top, nothing; with full lower pages the result is a permutation that descends if and only if two frames were on top or it descended before |
| StackSort.SortSkipped | code/kernel/mm/pmm.c:558-559 | a full page of frames of any size and zone below a page of one stays unsorted |
| StackSort.PartialFails | code/kernel/mm/pmm.c:389-442 | for all counts with two frames on top and a partly filled page below there are frames of the stack's size and zone for which the result is no descending permutation |
| StackSort.ShortFails | code/kernel/mm/pmm.c:558-559 | likewise for all counts with fewer than two frames on top of others |
| StackSort.SortGuaranteed | code/kernel/mm/pmm.c:553-603 | the sort leaves a descending permutation, whatever the frames of the stack's size and zone, if and only if two frames are on top and all pages below are full, or there is nothing to sort |
| StackMerge.MergedFrame | code/kernel/mm/pmm.c:636-657 | 512 adjacent frames hold the bytes of one frame of the next size |
| StackMerge.ShiftDown | code/kernel/mm/pmm.c:659-665 | the shifting loop overwrites exactly the run and keeps the order of the rest |
| StackMerge.DropTop | code/kernel/mm/pmm.c:667-691 | the counting loop takes exactly that many frames off the top |
| StackMerge.MergePass | code/kernel/mm/pmm.c:618-704 | on any chain the merged frames are exactly the complete blocks the indices see, but for the first one met; with full lower pages the stack held, byte for byte, what is left and the merged frames, and the rest stays descending |
| StackMerge.BlocksAreWhole | code/kernel/mm/pmm.c:628-704 | the blocks met are exactly the aligned larger frames all of whose parts are on the sorted stack |
| StackMerge.TakeContiguous | code/kernel/mm/pmm.c:1013-1120 | returns 0 if and only if what the indices see holds no run of `count` adjacent frames; with full lower pages it removes exactly such a run and no other frame |
| PmmInit.PushRange | code/kernel/mm/pmm.c:745-777 | adds exactly the bytes of the range to the pool, and nothing if the range is empty; onto static pages with room, as so many frames of the size |
| PmmInit.LowerEnd | code/kernel/mm/pmm.c:878-894 | the loop lowers the end of the 2M range as specified, wrap-around included |
| PmmInit.InitEntry | code/kernel/mm/pmm.c:868-932 | adds to the pool, for every byte, as many holds as the ranges of the entry cover it times |
| PmmInit.TilesWith1G | code/kernel/mm/pmm.c:868-932 | with 1G pages every available entry is covered exactly once, page-aligned, for all starts and ends |
| PmmInit.TilesWithout1G | code/kernel/mm/pmm.c:878-932 | without 1G pages that holds if and only if no 2M boundary lies in the entry, or the 2M range ends at 8M or above and the pages split off its end, at most four and all above 4G and above its start, lie behind the 1G range |
| PmmInit.WellIff | code/kernel/mm/pmm.c:878-894 | that condition on the bounds is equivalent to the lowered end neither wrapping around nor falling below the end of the 1G range |
| PmmInit.TooMuch | code/kernel/mm/pmm.c:878-932 | where it fails, a byte of the entry is pushed twice or one near the end of the address space is pushed |
| PmmInit.Init | code/kernel/mm/pmm.c:831-933 | the pool of a new manager holds every byte as often as the pushes for all available entries cover it, and up to 510 frames of each size lie on static pages |
| PmmInit.InitList | code/kernel/mm/pmm.c:831-942 | so it does with the list set up; the list does not descend where at most 510 frames of each size are pushed, fewer than 509 of them of 4K and at least one of 2M |
| PmmInit.LowMemory | code/kernel/mm/pmm.c:831-942 | 414 frames of 4K and 63 of 2M, from 4K to 636K and from 1M to 128M, leave a list that does not descend |
| PmmInit.SortedMap | code/kernel/mm/map.c:61-125 | all of `mm_map_sanitize`: the entries come out ascending, disjoint and unjoinable, with the type of every address kept |
| PmmInit.FitIffRunsFit | code/kernel/mm/pmm.c:868-933 | the entries of the sanitised map fit if and only if the maximal available runs of the original one do |
| PmmInit.PushedIffAvailable | code/kernel/mm/pmm.c:857-933 | from a sanitised map with fitting ends a byte is pushed once if its whole page is available, and else not at all |
| PmmInit.Boot | code/kernel/mm/pmm.c:831-950 | sanitising and sorting the map and all of `pmm_init` leave every byte of a wholly available page held once, by the pool or the 64 auxiliary pages, and no other byte held, if and only if the ends of all maximal available runs of the original map fit; fewer auxiliary pages only if nothing is left |
| PmmInit.OverlapExample | code/kernel/mm/pmm.c:878-932 | an entry up to 6G is partly pushed twice |
| PmmInit.WrapExample | code/kernel/mm/pmm.c:878-932 | an entry below 8M makes the subtraction wrap around |
| Addresses.IndexAgrees | code/kernel/mm/vmm.c:65-102 | for every canonical address the indices are those of its 48 significant bits |
| Addresses.PointersInWindow | code/kernel/mm/vmm.c:16-26 | every entry address behind the four pointers walks through entry 510 once for each level it stops short of |
| Addresses.IxOfCompose | code/kernel/mm/vmm.c:65-102 | indices and offset come back out of the address composed of them |
| Addresses.ComposeOfIx | code/kernel/mm/vmm.c:65-102 | every address is composed of its indices and offset |
| Addresses.SamePage | code/kernel/mm/vmm.c:65-102 | two addresses share their leading indices if and only if they lie on the same page |
| PageTables.SelfMap | code/kernel/mm/vmm.c:16-26 | a walk to a table's window address ends at the frame of the table a plain walk reaches |
| Vmm.PointerLeads | code/kernel/mm/vmm.c:16-102 | for every canonical address outside the window, entry j behind each pointer of `addr_to_index` lies at offset 8j of the 4K page whose frame is the table that a walk along the address reaches |
| PageTables.SetEntryInv | code/kernel/mm/vmm.c:333-414 | writing a page entry keeps the one owner path of every table |
| PageTables.SetEntryLook | code/kernel/mm/vmm.c:333-414 | it changes the walks below the entry and no others |
| PageTables.CreateInv | code/kernel/mm/vmm.c:215-325 | a new table keeps the invariant |
| PageTables.CreateLook | code/kernel/mm/vmm.c:215-325 | a new table changes no walk |
| PageTables.DestroyInv | code/kernel/mm/vmm.c:416-480 | taking an empty table off keeps the invariant |
| PageTables.DestroyLook | code/kernel/mm/vmm.c:416-480 | it changes no walk |
| PageTables.DestroyCreated | code/kernel/mm/vmm.c:215-325 | a table taken off again leaves tables and free frames as they were |
| Vmm.AddressSpace.constructor | code/kernel/mm/vmm.c:123-146 | a root table with only the self-reference maps nothing |
| Vmm.AddressSpace.EnsureTable | code/kernel/mm/vmm.c:224-245 | makes the next table unless it is there, and fails if and only if no frame is left |
| Vmm.AddressSpace.TouchFrom | code/kernel/mm/vmm.c:215-325 | the levels below a table: success exactly if touchable, and all undone on failure |
| Vmm.AddressSpace.Touch | code/kernel/mm/vmm.c:215-325 | succeeds if and only if no large page is in the way and the frames suffice; no walk changes; a failure restores tables and free frames exactly |
| Vmm.AddressSpace.Maps | code/kernel/mm/vmm.c:333-377 | success changes the walk of exactly the addresses on the one page, to the masked address with the flags asked for and those that other bits of the address are; frames are conserved if and only if the entry led to no table; failure changes nothing |
| Vmm.AddressSpace.Unmaps | code/kernel/mm/vmm.c:384-414 | returns the masked address of what the entry held, a page or a table, or 0, removes exactly that page, leaves no empty table on its walk, and conserves frames if and only if the entry led to no table |
| Vmm.AddressSpace.Untouch | code/kernel/mm/vmm.c:416-480 | changes no walk, loses no frame and leaves no empty table on the walk, but for kernel tables of the root |
| Vmm.LostTables | code/kernel/mm/vmm.c:358-372 | overwriting an entry loses tables if and only if it leads to one |
| Vmm.AddressSpace.Walk | code/kernel/mm/vmm.c:149-212 | the table-by-table walk finds what the processor finds |
| Vmm.AddressSpace.Size | code/kernel/mm/vmm.c:149-179 | the size of the page that holds the address, negative if and only if it is unmapped |
| Vmm.AddressSpace.VirtToPhys | code/kernel/mm/vmm.c:182-212 | 0 for an unmapped address, else the processor's translation if and only if the page's masked frame is aligned to the page, as that of a 4K page always is |
| Vmm.AddressSpace.MapRange | code/kernel/mm/vmm.c:482-514 | success puts every address of the range on a page of an enabled size whose entry holds the masked physical address of the page, and leaves every other walk as it was; an address translates as asked if and only if both ranges have the same offset into its page and the physical address is below 2^52, so the whole range does where that holds for every size that fits; failure only where some page of the range is untouchable |
| Vmm.PageExact | code/kernel/mm/vmm.c:482-514 | a page of a range translates as asked if and only if both addresses have the same offset into such a page and the physical one is below 2^52 |
| Vmm.RangeExact | code/kernel/mm/vmm.c:482-514 | an address on a page of a mapped range translates as asked if and only if both ranges have the same offset into that page and the physical address is below 2^52 |
| Vmm.LargeOverSmall | code/kernel/mm/vmm.c:358-372 | a 2M page mapped over a 4K page in a new address space loses a table, wherever the pages are |
| Vmm.Misaligned | code/kernel/mm/vmm.c:182-212 | for a 2M page the processor and `_vmm_virt_to_phys` agree if and only if the masked address of its frame is aligned to 2M |
| Vmm.AddressBits | code/kernel/mm/vmm.c:349-362 | a 4K page mapped read-only for address 0x1002 is writable |
| MemoryMap.Map.Add | code/kernel/mm/map.c:46-58 | the entry goes to the end of the list and raises the type of exactly the addresses it covers to its own, where that was lower |
| MemoryMap.Map.FindPair | code/kernel/mm/map.c:63-120 | the nested loops find a pair to which a rule applies, or there is none |
| MemoryMap.ApplyStep | code/kernel/mm/map.c:61-125 | every rule keeps the highest type covering each address and shrinks total length or entry count |
| MemoryMap.SettledMeans | code/kernel/mm/map.c:61-125 | where no rule applies entries are disjoint and none can be joined |
| MemoryMap.TypeOfEntry | code/kernel/mm/map.c:61-125 | where no rule applies an address has the type of the one entry that covers it |
| MemoryMap.Map.Sanitize | code/kernel/mm/map.c:61-125 | terminates with disjoint, unjoinable entries that give every address the highest type the original entries gave it |
| MapSort.SortEntries | code/kernel/mm/map.c:122-125 | the list sort leaves the same entries in ascending order, each ending before the next starts, with the type of every address kept |
| MapSort.OrderIrrelevant | code/kernel/mm/map.c:61-125 | the types of addresses do not depend on the order of the entries |
| MemoryMap.CoalesceWraps | code/kernel/mm/map.c:77-83 | an entry at the end of the address space is joined with one at 0, and an address loses its type |
| MemoryMap.CoalesceKeepsIff | code/kernel/mm/map.c:77-83 | joining keeps the types if and only if the first entry ends below the last address or both are the whole space |
| ListSort.MergedSorted | code/kernel/util/list.c:105-142 | merging sorted lists gives a sorted list |
| ListSort.MergedMultiset | code/kernel/util/list.c:105-142 | of exactly their nodes |
| ListSort.Split | code/kernel/util/list.c:85-103 | cuts the linked list in two non-empty linked lists |
| ListSort.Merge | code/kernel/util/list.c:105-142 | relinks the nodes, forwards and backwards, to the merged list and touches no other node |
| ListSort.MergeSort | code/kernel/util/list.c:144-157 | a sorted, linked permutation; a single node has no tail |
| ListSort.Sort | code/kernel/util/list.c:159-164 | a sorted permutation, well linked if and only if the list has not exactly one node |
| Segments.TilesCover | code/kernel/mm/seg.c:12-209 | every address of the range lies in exactly one block |
| Segments.Canonical | code/kernel/mm/seg.c:12-209 | two lists without adjacent free blocks and with the same allocated blocks are equal |
| Segments.TakenTiles | code/kernel/mm/seg.c:56-80 | splitting a block around the request keeps the partition |
| Segments.TakenLive | code/kernel/mm/seg.c:56-80 | out of a free block, exactly the new block is added to the allocated ones |
| Segments.TakenApart | code/kernel/mm/seg.c:56-80 | out of a free block, no two free blocks become adjacent |
| Segments.TakenInUse | code/kernel/mm/seg.c:17-82 | what was in use stays in use if and only if the block was free or is taken whole |
| Segments.AllocAtLosesUse | code/kernel/mm/seg.c:20 | a second allocation inside an allocated block makes the rest count as free |
| Segments.ReleasedTiles | code/kernel/mm/seg.c:145-172 | merging keeps the partition |
| Segments.ReleasedApart | code/kernel/mm/seg.c:145-172 | merging leaves no two free blocks adjacent |
| Segments.ReleasedLive | code/kernel/mm/seg.c:145-172 | exactly the released block leaves the allocated ones |
| Segments.Segments.constructor | code/kernel/mm/seg.c:190-209 | one free block partitions the user address space |
| Segments.Segments.Alloc | code/kernel/mm/seg.c:88-130 | keeps partition and separation if and only if it fails or the size is not 0; fails, unchanged, if and only if no free block is large enough or a resource is missing; adds exactly the new block |
| Segments.Segments.AllocAt | code/kernel/mm/seg.c:12-86 | keeps the partition if and only if it fails or the range is not empty and does not wrap around; succeeds if and only if some block passes the 64-bit test and resources are there; on free blocks it keeps separation and adds exactly the new block |
| Segments.PlacedTiles | code/kernel/mm/seg.c:20-80 | the split that the 64-bit arithmetic makes tiles the range if and only if the request is not empty and does not wrap around, and is the plain one then |
| Segments.AllocAtWraps | code/kernel/mm/seg.c:20-80 | two pages from the last one of the address space on: nothing is mapped, and a new list is no partition any more |
| Segments.Segments.Release | code/kernel/mm/seg.c:132-177 | keeps partition and separation, removes exactly the block that starts there, changes nothing if there is none; on any list the first such block is joined with its free neighbours |
| Segments.SameList | code/kernel/mm/seg.c:12-209 | whatever happened in between, the list is the same if and only if the allocated blocks are |
| Segments.AllocRelease | code/kernel/mm/seg.c:88-177 | a release right after an allocation restores the list, also after one of size 0 |
| KernelHeap.NodesDisjoint | code/kernel/mm/heap.c:30-39 | different nodes share no address, header pages included |
| KernelHeap.AcceptsIff | code/kernel/mm/heap.c:85-89 | the 64-bit test is right if and only if the sum does not wrap, or wraps to behind the node |
| KernelHeap.AcceptsWraps | code/kernel/mm/heap.c:88 | the node of a new heap is taken to fit a request that ends at the end of the address space |
| KernelHeap.FoundOrdered | code/kernel/mm/heap.c:91-146 | moving and splitting a node keeps nodes ordered and disjoint |
| KernelHeap.FoundSettled | code/kernel/mm/heap.c:91-146 | and no two free nodes touching |
| KernelHeap.FoundLive | code/kernel/mm/heap.c:91-150 | exactly the found node is added to those in use |
| KernelHeap.FreedOrdered | code/kernel/mm/heap.c:170-202 | joining keeps nodes ordered and disjoint |
| KernelHeap.FreedSettled | code/kernel/mm/heap.c:170-202 | touching free neighbours are joined, so that none are left |
| KernelHeap.FreedLive | code/kernel/mm/heap.c:170-202 | exactly the freed node leaves those in use |
| KernelHeap.FoundFreed | code/kernel/mm/heap.c:75-203 | a node given straight back restores the list if and only if it did not have to move |
| KernelHeap.MovedStays | code/kernel/mm/heap.c:91-120 | the node of a new heap that has to move to a 1G boundary does not come back as it was |
| KernelHeap.Heap.constructor | code/kernel/mm/heap.c:44-73 | one free node behind its header is a valid heap |
| KernelHeap.Heap.FindNode | code/kernel/mm/heap.c:75-154 | finds the first node that fits, if and only if one fits; its payload is aligned, large enough and, where a header frame could be had, less than two pages larger |
| KernelHeap.Heap.Release | code/kernel/mm/heap.c:156-203 | keeps the heap valid and removes exactly that node from those in use |
| KernelHeap.Heap.Alloc | code/kernel/mm/heap.c:205-334 | succeeds, if frames can be had, exactly if some node fits; the new node is aligned, large enough and disjoint from all others; without frames nothing stays in use, and page-aligned requests leave the list unchanged |
| RamFile.BeforeIsPrefix | code/kernel/fs/ramfs.c:442-612 | what lies before the cursor is a prefix of the contents |
| RamFile.EndMeans | code/kernel/fs/ramfs.c:481-490 | a cursor is at the end of the contents if and only if it is null or behind the last byte of the last block |
| RamFile.File.constructor | code/kernel/fs/ramfs.c:339-378 | a new file is empty, its handle at 0 |
| RamFile.File.Read | code/kernel/fs/ramfs.c:442-494 | returns the bytes from the position on, as many as asked for or left, unless position and length sum to 2^64 or more, where it runs off the chain behind the last byte; a non-empty read leaves a null cursor if and only if it ended at the end |
| RamFile.Clamped | code/kernel/fs/ramfs.c:453-456 | the length is cut down to what is left if and only if the 64-bit sum does not wrap |
| RamFile.ReadWraps | code/kernel/fs/ramfs.c:453-491 | at position 1 a read of 2^64-1 bytes runs off the chain |
| RamFile.File.ReadBlock | code/kernel/fs/ramfs.c:461-491 | one turn of the loop reads the rest of a block, or what is asked for |
| RamFile.File.Write | code/kernel/fs/ramfs.c:496-563 | faults if and only if the cursor is null and there is something to write; else the contents become what lay before the position, the data, and the blocks behind the last one touched; at the end of the file the data is appended; an empty write changes nothing |
| RamFile.WriteAfterEnd | code/kernel/fs/ramfs.c:481-508 | a read to the end of a one-byte file makes the next write fault |
| RamFile.File.WriteSome | code/kernel/fs/ramfs.c:508-561 | one turn of the loop fills a block and goes on to the next |
| RamFile.File.Tell | code/kernel/fs/ramfs.c:565-573 | the position, which is never behind the contents |
| RamFile.File.Seek | code/kernel/fs/ramfs.c:575-612 | the position is the target clamped to the file, and cursor and position agree |
| RamFile.WriteThenRead | code/kernel/fs/ramfs.c:442-612 | any writes to a new file, a seek to its start and a read return what was written |
| Sched.ChosenOk | code/kernel/proc/sched.c:99-130 | a tick picks the first queued thread bound to the core, or the idle thread, and removes just that one |
| Sched.TickKeeps | code/kernel/proc/sched.c:89-174 | a tick keeps the invariant |
| Sched.StepKeeps | code/kernel/proc/sched.c:75-174 | so do resumes and affinity changes |
| Sched.RunKeeps | code/kernel/proc/sched.c:75-174 | and every run |
| Sched.ExactlyOnce | code/kernel/proc/sched.c:75-174 | over every interleaving since boot a runnable thread is queued once or current on one core, never both, and idle threads are never queued |
| Sched.TickAhead | code/kernel/proc/sched.c:99-130 | at a tick of its core a queued thread is picked, or one thread fewer is ahead of it |
| Sched.StepAhead | code/kernel/proc/syscalls/thread.c:87-96 | at no step does a queued thread's place get worse or its core change |
| Sched.BoundedWait | code/kernel/proc/sched.c:89-174 | a queued thread runs within as many ticks of its core as there are threads ahead of it, and one |
| Sched.ContextKept | code/kernel/proc/sched.c:132-170 | the registers restored are the ones saved |
| Sched.Scheduler.constructor | code/kernel/proc/idle.c:15-51 | before the first tick the invariant holds |
| Sched.Scheduler.FindFor | code/kernel/proc/sched.c:101-122 | the loop finds the first thread of this core |
| Sched.Scheduler.Tick | code/kernel/proc/sched.c:89-174 | performs the tick of the model and keeps the invariant |
| Sched.Scheduler.Wake | code/kernel/proc/thread.c:95-102 | performs the resume of the model and keeps the invariant |
| Tlb.EnqueueKeeps | code/kernel/mm/tlb.c:73-101 | an invalidation is pending once queued and stays so whatever is queued later, the collapse of a full queue included |
| Tlb.QueueInvlpg | code/kernel/mm/tlb.c:73-101 | every CPU's queue gets the operation |
| Tlb.RunAllDrops | code/kernel/mm/tlb.c:23-51 | draining drops exactly the pending addresses |
| Tlb.HandleOps | code/kernel/mm/tlb.c:23-51 | the loop drains the queue that way |
| Tlb.StepKeeps | code/kernel/mm/tlb.c:23-114 | every step keeps each stale translation covered by a pending operation |
| Tlb.RunKeeps | code/kernel/mm/tlb.c:23-114 | so does every run |
| Tlb.InitInv | code/kernel/mm/tlb.c:60-71 | empty TLBs and queues are covered |
| Tlb.DrainedIsFresh | code/kernel/mm/tlb.c:23-51 | a CPU that has drained its queue holds no stale translation |
| Locks.NeverFails | code/kernel/lock/rwlock.c:6-52 | no assertion of the locks or of the interrupt masking fails in a reachable state |
| Locks.InitInv | code/kernel/smp/cpu.c:19-42 | CPUs that hold nothing, with interrupts on exactly when their mask count is 0, meet the invariant |
| Locks.StepKeeps | code/kernel/lock/rwlock.c:6-52 | every step keeps permits equal to outstanding read holds, and every CPU's mask count equal to its base plus the locks it holds |
| Locks.RunKeeps | code/kernel/lock/spinlock.c:7-33 | so does every interleaving of CPUs |
| Locks.Exclusion | code/kernel/lock/rwlock.c:30-52 | at most one writer, and never a writer with a reader |
| Bytes.Le32RoundTrip | server/itskernel_server/UdpServer.cs:41-44 | a 32-bit word is read back from its four bytes |
| Bytes.Le16RoundTrip | server/itskernel_server/UdpServer.cs:44 | a number is read back from its two bytes if and only if it fits |
| Udp.Decoded | server/itskernel_server/UdpServer.cs:35-73 | header fields and payload come out of a datagram as they went in |
| Udp.Sender.constructor | code/net/itslwip/itslwip.c:378 | a connection starts with block 0 |
| Udp.Sender.Send | code/net/itslwip/itslwip.c:475-523 | sends one datagram for each chunk of the block, in order, and counts the block |
| Udp.SendAll | code/net/itslwip/itslwip.c:475-523 | the datagrams of a connection are the chunks of its blocks under their numbers |
| Udp.AcceptHolds | server/itskernel_server/UdpServer.cs:35-73 | a datagram of the connection is never refused and adds just its chunk |
| Udp.StateHolds | server/itskernel_server/UdpServer.cs:35-96 | after any arrivals the server knows exactly the chunks that arrived, with their bytes |
| Udp.FetchExact | server/itskernel_server/UdpServer.cs:99-107 | a block counts as complete if and only if it is not empty and all of its chunks arrived; put together it is the block sent |
| UdpServer.Gather | server/itskernel_server/UdpServer.cs:143-151 | puts the chunks together in the order of their ids, or finds one missing |
| UdpServer.Lines | server/itskernel_server/UdpServer.cs:115-127 | the same without line breaks |
| UdpServer.Server.ReceiveChunk | server/itskernel_server/UdpServer.cs:35-73 | files the chunk of a datagram, skips repeated ones, refuses malformed and contradicting ones |
| UdpServer.Server.ReceiveBlock | server/itskernel_server/UdpServer.cs:83-108 | takes in what arrives, then the next block or the exception for a partial one |
| UdpServer.Server.ReceiveLine | server/itskernel_server/UdpServer.cs:110-132 | the next block without line breaks; the next id moves on exactly on success |
| UdpServer.Server.ReceiveBytes | server/itskernel_server/UdpServer.cs:134-156 | the next block if it has the given length; the next id moves on exactly on success |
| UdpServer.TransferExact | server/itskernel_server/UdpServer.cs:35-156 | for every order, repetition and loss, a block is returned as sent if and only if it is not empty and all of its chunks arrived, and reported as partial otherwise |
| UdpServer.Server.Sendout | server/itskernel_server/OneWayProtocol.cs:46-80 | unless another exception ends the server, the next id is the one after the three blocks of the command |
| UdpServer.SendoutExact | server/itskernel_server/OneWayProtocol.cs:46-80 | a file is saved with its name and bytes if and only if each of its three blocks was complete in time, and dropped otherwise |

## Left out

- dlmalloc's growth and trimming of segments, mmapped chunks, mspaces, `realloc`, `memalign` and `dispose_chunk`: one segment, no trim.
- FreeIndex: the small bins are sequences of addresses, so that their doubly linked rings are not captured.
- Dlmalloc.MallocState.Release: a pointer that is not live is excluded, as the source aborts on it.
- LargeBins.LargeBins.Insert: takes sizes whose bin index is right, see `IndexCorrectIff`; segments below 2^40 bytes have no others.
- LargeBins.LargeBins.BestFor: likewise for requests, unless every stored chunk is smaller.
- BestFit.FindLarge: likewise.
- Dlmalloc.MallocState.constructor: segments of 2^40 bytes or more are excluded for that reason.
- Stack pages and their `next` pointers in pmm.c are sequences of pages; the temporary mapping of the top pages (`stack_switch`) is not captured.
- FrameManager: the frame at address 0, which the source takes for "none", is never managed.
- The branches of `_pmm_free` behind a missing stack page (code/kernel/mm/pmm.c:348-385): `StackPage` shows that they are not reached.
- `_pmm_defragment` as a whole: the order of its passes over sizes and zones and the freeing of emptied stack pages; each pass over one stack is modelled.
- FrameManager.Pmm.Free: a frame pushed to a zone below its own is excluded; every caller passes its own zone.
- FullPages.StackSortable: stacks of several pages in a zone that has fewer frames than their pages have slots.
- StackMerge.MergePass: requires entries that descend, as a stack does that was sorted and not passed over.
- StackMerge.TakeContiguous: one stack; the loop over zones and the repeated attempts of `pmm_alloc_contiguous` are not modelled, and a count of 1 is left to `_pmm_alloc`.
- PmmInit.InitEntry: entries at address 0, which the map reserves, and in the last gigabyte of the 64-bit address space, where the alignment macros wrap around, are excluded.
- PmmInit.TilesWithout1G: entries in the last gigabyte are excluded for that reason.
- PmmInit.Init: likewise.
- PmmInit.Boot: maps with available memory there or at address 0 are excluded.
- `_vmm_unmap_range` and the clean-up after a failed `_vmm_map_range`: the call at code/kernel/mm/vmm.c:524 has its arguments swapped.
- Bits 3 to 6, 8 to 11 and 52 to 62 of page-table entries, and the frame numbers of tables beyond 52 bits.
- Vmm.AddressSpace.MapRange: requires a range in one half of the address space outside the window.
- Vmm.AddressSpace.Unmaps: requires the tables above the entry, as the source reads them through the window.
- Address spaces that share kernel tables, `vmm_modify_flags`, and the TLB invalidations that the page-table code queues.
- MemoryMap.Map.Add: an entry that ends at the last address is excluded if one of its type starts at address 0, see `CoalesceKeepsIff`; reading the boot loader's map is not modelled.
- MemoryMap.Map.Sanitize: likewise.
- KernelHeap.Heap.FindNode: requests that could wrap around are excluded, see `AcceptsIff`; nodes are a sequence, and the frames behind header pages are not modelled (code/kernel/mm/heap.c:201 frees the wrong one).
- KernelHeap.Heap.Alloc: one attempt with one page size; the order in which contiguous requests try page sizes is not modelled.
- Segments: operations on a list that a request of size 0 or a wrapped range has broken, but for the release of the empty block.
- Paths, directories, deletion and several handles on one file in ramfs.c.
- Suspending or killing a thread that is current on a core, creating threads, priorities and timers: a run starts with all threads there and suspended.
- Udp.Sender.Send: failing allocations and sends, which return with the mutex held and the block not counted, are not modelled; blocks within 1023 bytes of the largest `int` overflow and are excluded.
- UdpServer.Server.Sendout: the conversion of the file size is a parameter; file output and a lost command block, whose exception is not caught, are not modelled.
- More than 2^32 blocks in a connection, and several connections in sequence, for which sender and server count differently.
- The receive queue of itslwip.c, lwIP itself and TCP.
- Device drivers, boot code, ELF loading, system calls, tracing and assembly stubs.
