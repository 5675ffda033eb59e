# borfos: a verified model of the kernel's core

borfos is a small kernel for 32-bit x86. This project models, in Dafny 4.11, the parts of it that
keep state and that the rest of the kernel rests on, and proves what those parts are for:

- **the heap** (`kernel/libc/malloc/malloc.c`, in the configuration of `kernel/libc/heap.c`): chunks
  with boundary tags, small bins, large bins kept as bitwise tries, the designated victim, the top
  chunk, segments, requests mapped on their own, and `malloc`, `free`, `calloc`, `realloc`,
  `memalign` on them;
- **the buddy allocators and the kernel's page mapping** (`kernel/lib/mem.c`);
- **the cooperative scheduler, mutexes and timers** (`kernel/lib/scheduler.c`, `kernel/lib/mutex.c`,
  `kernel/lib/timers.c`) as one transition system, and the intrusive lists of
  `kernel/include/list.h` under them;
- **word-at-a-time copying** (`memmove.S`, `strncpy.c`, `strcpy.c`), **formatted output**
  (`bprintf.c`), **the ordering of constructors** (`dep2prio.py`), **clock conversions** (`kvm.c`)
  and **interrupt vectors** (`idt.c`).

`dafny verify dfyconfig.toml` checks everything.

## How the model is built

| files | contents |
|---|---|
| `Rings`, `Lists` | circular doubly linked lists as maps of links, with the sequence of their nodes |
| `BinIndex`, `BinMaps`, `Alignment` | the arithmetic of the heap: tree indices, bit maps, powers of two |
| `Codes`, `Tries`, `Bins`, `Ages`, `BestFit` | the tries, all bins together, the order in which chunks of one size leave them, and why the searches find a best fit |
| `Chunks`, `Segments` | boundary tags and the tiling of memory into chunks; regions got from the system |
| `Malloc` | class `MallocState`: the fields of `malloc_state` and the words of the heap, with the code that updates them |
| `Heaps` | class `Heap`: a `MallocState`, the chunks mapped on their own and the bytes of the blocks, with the functions callers use |
| `Blocks`, `BuddyLists`, `Pools` | aligned blocks tiling a pool, the allocator on its free lists, class `BuddyPool` |
| `Mapping` | class `KernelMemory`: two pools joined by the page table and the reference counts |
| `Timers`, `Scheduler`, `Waiting`, `Tasks` | the timer queue, the transition system and its runs, in what order and when tasks are woken, and the classes that carry it out |
| `Queues` | the run queue, the timers and the free lists as rings of links: the list code does what the functions on sequences say |
| `Memmove`, `Strings` | byte and word copying on an array of memory |
| `Numerals`, `Bprintf`, `Directives` | what a conversion prints, what ISO C asks for, the code in between, and what each conversion prints as told by the characters of the format |
| `Constructors`, `Clock`, `Interrupts` | the smaller algorithms |

Code that updates things in place is a method of a class with the same fields. The heap's memory
words are kept in maps by address (head words, feet, links, tree links), since the C code overlays
them. Beside each class stands a ghost description of what the words mean: a partition of memory
into chunks, the chunks in every bin, the blocks of a pool. `Valid()` (and `Sound()` for the heap
with its segments) ties the two together; the constructors establish it and every entry point keeps
it, so it holds on every run, with the exceptions listed next, whose conditions the contracts name. In
module `Malloc`, `LiveOf(ch)` is the map from the blocks handed out to their sizes, `free` the map
from binned chunks to their sizes. Where an outcome depends on something outside (the address MMAP
answers with, the time at each turn of an interrupt loop, what a timer's handler registers), it is a
parameter over which the theorems quantify.

## Where the code and its promise part

Nine places where a property one would expect is false of the code as written. The model keeps the
code, and a contract says exactly when the property holds; where a run shows the failure best, there is one.

1. **Freeing a page or virtual block** (`kernel/lib/mem.c:246`, `kernel/lib/mem.c:288`) merges with a
   buddy that heads *any* free block. `BuddyLists.LiteralRun` is a run on four pages after which
   a page in use is handed out again; `BuddyLists.LiteralFreeIff` says a free is right exactly when
   the merging stops at a number that heads no free block. `FreeOk`, `AllocFreeRestores` and
   `Pools.BuddyPool.Free` are about the free that also compares orders, `BuddyPool.FreeLiterally` is the
   source's. `BuddyPool.Release` and `Mapping` are about either: a flag given to the constructor
   chooses, and what they promise after giving a block back is conditional on `Clean`, which always
   holds of the free with the test and is the condition above for the other.
2. **`page_free`** marks the unit its merging ends at, not the one it was given, as free
   (`kernel/lib/mem.c:252-254`). `BuddyPool.FreeLiterally` says the guard at `kernel/lib/mem.c:236`
   notices a second free exactly when the merging ends at the unit itself; `BuddyLists.StaleRun` is a run in which
   it does not and a page is linked twice. So the model asks that a unit whose order does not read -1 is allocated.
3. **`mutex_lock`** takes the mutex after waking without looking at `locker` again
   (`kernel/lib/mutex.c:38-43`). `Scheduler.BargingRun` is a run with two tasks inside;
   `Scheduler.ExclusionIff` says exclusion holds along a run exactly when no waiter is resumed
   with its mutex taken, and `PatientExclusion` gives a rule for callers that is enough.
4. **`timer_register_absolute`** writes the deadline of a timer that may be linked already
   (`kernel/include/timers.h:61-65`): `Timers.RewriteIff` says when the queue survives that.
5. **`nanoseconds_to_tsc`** shifts its argument left by 32 in 64 bits (`kernel/drivers/cpu/kvm.c:50`), so
   only the low 32 bits count: `Clock.RoundTripIff`.
6. **`vbprintf`** computes the zeros owed to a precision as 0 minus the number of digits
   (`kernel/lib/bprintf.c:238`, `kernel/lib/bprintf.c:476`) and puts padding zeros before a sign or `0x`.
   `Numerals.SignedIff` and `Numerals.UnsignedIff` say exactly when a field is the one ISO C99 asks for.
7. **A segment that ends with the address space**: its end wraps around to 0, `segment_holding`
   (`kernel/libc/malloc/malloc.c:2696-2705`) does not find top in it, and `add_segment`
   (`kernel/libc/malloc/malloc.c:3979-3981`) dereferences NULL. `Malloc.MallocState.AddSegment` is lost exactly when
   the current segment ends at 2^32, `Malloc.MallocState.SysAlloc` exactly when in addition the new region joins no segment;
   `Heaps.LastPagesRun` is a run on the last 16 pages, which `kernel/lib/mem.c:209` puts in the pool.
   The result `lost` says so throughout `Heaps`.
8. **`internal_memalign`** doubles 16 until it is at least the alignment asked for
   (`kernel/libc/malloc/malloc.c:4890-4892`). That ends exactly for alignments up to 2^31
   (`Alignment.LoopEndsIff`), which is what the model of the rest asks for.
9. **`calloc`** leaves a block of 256 KiB or more that was mapped on its own as it is
   (`kernel/libc/malloc/malloc.c:2294-2295`), but `kernel/libc/heap.c:21-32` does not clear pages.
   `Heaps.Heap.DlCalloc` says the block is clear exactly when it is not mapped or its pages were clear;
   `Heaps.MappedCallocRun` is a run on which it is not.

Also, timers whose handlers register deadlines that have passed fire out of order:
`Timers.FiredInOrderIff` has the exact condition. Among equal deadlines the order is always that of
registration.

## Model

| member | source | states |
|---|---|---|
| `Rings.LinkRing` | kernel/include/list.h:37-53 | writing the four links of an insertion turns the ring into the one with the new node in that place |
| `Rings.BypassRing` | kernel/include/list.h:55-62 | bypassing a node turns the ring into the one without it, wherever the node is |
| `Rings.RotateRing` | kernel/include/list.h:19-29 | a ring is a ring from any of its nodes |
| `Rings.AloneRing` | kernel/include/list.h:64-67 | a node whose next is itself is the only one on its ring |
| `Lists.ListPool.Init` | kernel/include/list.h:31-35 | a node on no list becomes a list by itself; all lists stay rings that share no node |
| `Lists.ListPool.InsertAfter` | kernel/include/list.h:37-44 | a lone node joins the list right behind the given node; other lists keep theirs |
| `Lists.ListPool.InsertBefore` | kernel/include/list.h:46-53 | likewise in front of the given node, which for a list's head is the end |
| `Lists.ListPool.Remove` | kernel/include/list.h:55-62 | the node leaves its list, whose order stays, and is alone afterwards |
| `Lists.ListPool.IsEmpty` | kernel/include/list.h:64-67 | true exactly when the node is alone on its list |
| `Queues.QueuesApart` | kernel/include/list.h:24-67 | queues kept as rings through heads have no node twice and none in common |
| `Queues.NextNode` | kernel/include/list.h:69-70 | following next from the head meets the queue in order and ends at the head |
| `Queues.SameDrops` | kernel/include/list.h:55-62 | the removals the scheduler, the timers and the buddy pools speak of are one |
| `Queues.LinkedQueues.constructor` | kernel/lib/mem.c:178-185 | after list_init of heads and nodes every queue is empty |
| `Queues.LinkedQueues.InsertBefore` | kernel/include/list.h:46-53 | the element takes the place in front of the given one, or the end of the queue before the head |
| `Queues.LinkedQueues.Remove` | kernel/include/list.h:55-62 | without being told its queue, the element leaves just the one it is on |
| `Queues.LinkedQueues.IsLinked` | kernel/include/list.h:64-67 | a node is its own neighbour exactly when its element is on no queue |
| `Queues.LinkedQueues.ScheduleTask` | kernel/lib/scheduler.c:67-73 | on the links, the run queue becomes the one of the transition system |
| `Queues.LinkedQueues.UnscheduleTask` | kernel/lib/scheduler.c:75-81 | likewise |
| `Queues.LinkedQueues.Requeue` | kernel/lib/scheduler.c:125-126 | likewise for giveup_cpu: the running task goes to the end |
| `Queues.LinkedQueues.RegisterTimer` | kernel/lib/timers.c:37-53 | on the links, walk and insertion make the timer queue that `Timers.Register` gives, and the same call of the backend |
| `Queues.LinkedQueues.UnregisterTimer` | kernel/lib/timers.c:25-35 | likewise for `Timers.Unregister` |
| `Queues.LinkedQueues.PageAllocate` | kernel/lib/mem.c:212-232 | on the links, search and splitting give the block and the free lists that `BuddyLists.AllocLists` gives |
| `Queues.LinkedQueues.PageFree` | kernel/lib/mem.c:242-253 | on the links, the merging as written gives the free lists of `BuddyLists.LiteralFree` |
| `BinIndex.IndexIff` | kernel/libc/malloc/malloc.c:2831-2887 | a size has tree index i exactly when it lies between the least sizes of bins i and i+1 (no upper bound for the last bin) |
| `BinIndex.IndexMonotone` | kernel/libc/malloc/malloc.c:2831-2887 | a larger size never has a smaller index |
| `BinIndex.MinSizeMono` | kernel/libc/malloc/malloc.c:2904-2907 | the least sizes of the tree bins grow with the index |
| `BinIndex.KeyBounds` | kernel/libc/malloc/malloc.c:2895-2902 | in its bin, a size is given by a key whose digits below the leading one are those the trie descends by |
| `BinIndex.SizeBitsBelow` | kernel/libc/malloc/malloc.c:2899-2902 | shifting a size left by the bin's amount leaves just the digits below the bin's two leading ones |
| `BinMaps.MarkMeaning` | kernel/libc/malloc/malloc.c:2913-2922 | marking sets one bin's bit and no other |
| `BinMaps.ClearMeaning` | kernel/libc/malloc/malloc.c:2913-2922 | clearing resets one bin's bit and no other |
| `BinMaps.LowestBin` | kernel/libc/malloc/malloc.c:2925-2931 | least_bit and the index of its bit give the lowest marked bin |
| `BinMaps.BinsAbove` | kernel/libc/malloc/malloc.c:2928-2931 | left_bits of a bin's bit masks just the bins above it |
| `BinMaps.SmallBinsAbove` | kernel/libc/malloc/malloc.c:4591-4598 | the search of dlmalloc picks the lowest marked small bin above the request's |
| `BinMaps.SmallBits` | kernel/libc/malloc/malloc.c:4575-4582 | the low two bits of the shifted map tell whether the request's bin or the next is marked |
| `Tries.PrefixClosed` | kernel/libc/malloc/malloc.c:3296-3344 | every prefix of a used position is used: a trie has no holes |
| `Tries.OnePosition` | kernel/libc/malloc/malloc.c:3296-3344 | a chunk is in one place of a trie |
| `Tries.TrieFrame` | kernel/libc/malloc/malloc.c:3296-3344 | a trie does not notice writes to chunks that are not in it |
| `Tries.InsertFirst` | kernel/libc/malloc/malloc.c:3648-3655 | a chunk planted in an empty bin is a trie by itself |
| `Tries.InsertLeaf` | kernel/libc/malloc/malloc.c:3660-3670 | a chunk hung on a missing child extends the trie by just that position |
| `Tries.InsertChain` | kernel/libc/malloc/malloc.c:3676-3684 | a chunk of a size already present joins that node's ring; the tree stays |
| `Tries.UnlinkChained` | kernel/libc/malloc/malloc.c:3712-3724 | a chunk that only hangs on a ring leaves it; the tree stays |
| `Tries.DetachLeaf` | kernel/libc/malloc/malloc.c:3725-3740 | removing a leaf leaves a trie of the other positions |
| `Tries.ReplantEffect` | kernel/libc/malloc/malloc.c:3741-3779 | the relinking gives the replacement the old node's parent and children and changes no other node's links |
| `Tries.Substitute` | kernel/libc/malloc/malloc.c:3741-3779 | a node with a replacement relinked in its place is a trie again, with the replacement's ring at its position |
| `Bins.InsertSmallOk` | kernel/libc/malloc/malloc.c:3565-3581 | the new links and bit map are those of bins that hold one chunk more |
| `Bins.UnlinkSmallOk` | kernel/libc/malloc/malloc.c:3584-3607 | the new links and bit map are those of bins that hold one chunk less, the bit gone with the last |
| `Bins.DescendOn` | kernel/libc/malloc/malloc.c:3657-3664 | each step of the insertion's descent stays on the path the size's digits spell |
| `Bins.InsertLeafOk` | kernel/libc/malloc/malloc.c:3660-3670 | all bins stay right, with one chunk more |
| `Bins.InsertChainOk` | kernel/libc/malloc/malloc.c:3676-3684 | likewise for a size already present |
| `Bins.UnlinkInteriorOk` | kernel/libc/malloc/malloc.c:3725-3779 | replacing an interior node by the deepest leaf found below it keeps all bins right, with one chunk less |
| `Bins.UnlinkHeadOk` | kernel/libc/malloc/malloc.c:3714-3779 | handing a node's place to the next chunk of its ring keeps all bins right, with one chunk less |
| `Bins.UnlinkLeafOk` | kernel/libc/malloc/malloc.c:3741-3754 | so does removing a leaf |
| `Bins.UnlinkRootOk` | kernel/libc/malloc/malloc.c:3741-3746 | so does removing the last chunk of a bin, whose bit is cleared |
| `Ages.ChainAge` | kernel/libc/malloc/malloc.c:3676-3684 | a chunk chained behind the tree node of its size joins the end of the line of that size |
| `Ages.CutAge` | kernel/libc/malloc/malloc.c:3712-3724 | a chunk that leaves a ring, the tree node with its replacement included, leaves its line, whose order stays |
| `Ages.MoveAge` | kernel/libc/malloc/malloc.c:3725-3779 | putting a leaf in the place of an interior node keeps the order of all lines |
| `Ages.NodeOldest` | kernel/libc/malloc/malloc.c:2354-2356 | the chunk in the tree is the first of its line |
| `BestFit.LeftBelowRight` | kernel/libc/malloc/malloc.c:2376-2382 | sizes in a left subtree are below all those in the right one |
| `BestFit.WalkStep` | kernel/libc/malloc/malloc.c:4439-4456 | along the descent, every chunk that fits is no better than the best seen, or lies ahead or in the deepest untaken right subtree |
| `BestFit.WalkEnd` | kernel/libc/malloc/malloc.c:4449-4454 | when the descent falls off, only that right subtree is left to search |
| `BestFit.LeftmostStep` | kernel/libc/malloc/malloc.c:4468-4475 | the smallest size of a subtree is met on the path of leftmost children |
| `BestFit.BestOverall` | kernel/libc/malloc/malloc.c:4458-4475 | a best fit of the lowest adequate bin is one over all bins |
| `Chunks.WalkReaches` | kernel/libc/malloc/malloc.c:3418-3447 | walking chunks by size from a segment's first chunk reaches its end exactly, and the sizes add up to the way covered |
| `Chunks.FreeChunk` | kernel/libc/malloc/malloc.c:3259-3279 | a free chunk lies between chunks in use, says in its head that it is free, its follower knows it, and its foot repeats its size |
| `Chunks.PinuseIff` | kernel/libc/malloc/malloc.c:2116-2151 | a chunk's pinuse bit is clear exactly when a free chunk ends where it starts |
| `Chunks.PriorOf` | kernel/libc/malloc/malloc.c:4360-4371 | with pinuse clear, the foot before a chunk leads back to the head of that free chunk |
| `Chunks.LiveDisjoint` | kernel/libc/malloc/malloc.c:3282-3293 | two blocks in use never overlap |
| `Chunks.WordsApart` | kernel/libc/malloc/malloc.c:2116-2151 | no word the heap reads, of another chunk, lies among the bytes of a block in use |
| `Chunks.FuseGeo` | kernel/libc/malloc/malloc.c:4371-4420 | joining a run of chunks into one leaves memory tiled |
| `Chunks.FuseTags` | kernel/libc/malloc/malloc.c:4371-4420 | and the words written make every boundary tag right again |
| `Chunks.FuseExtent` | kernel/libc/malloc/malloc.c:4371-4420 | joining covers the same bytes |
| `Chunks.SplitGeo` | kernel/libc/malloc/malloc.c:4480-4491 | cutting a chunk in two leaves memory tiled |
| `Chunks.SplitTags` | kernel/libc/malloc/malloc.c:4480-4491 | and the words written make every boundary tag right again |
| `Chunks.SplitExtent` | kernel/libc/malloc/malloc.c:4480-4491 | cutting covers the same bytes |
| `Chunks.FirstSegment` | kernel/libc/malloc/malloc.c:4171-4189 | a fresh region with its top chunk and trailing foot is a well-formed heap |
| `Chunks.SplitUsed` | kernel/libc/malloc/malloc.c:4816-4825 | cutting the tail off a block in use leaves two blocks in use and all else unchanged |
| `Chunks.AbsorbSplit` | kernel/libc/malloc/malloc.c:4838-4876 | growing a block into the chunk after it, and cutting off what is not needed, leaves a well-formed heap |
| `Segments.AllocSizeFits` | kernel/libc/malloc/malloc.c:4047-4049 | the size asked of the system wraps exactly when it comes out at most nb; otherwise it holds the request and sys_alloc's padding |
| `Segments.AppendOk` | kernel/libc/malloc/malloc.c:4193-4204 | widening top by a region that follows it keeps the heap |
| `Segments.FrontOk` | kernel/libc/malloc/malloc.c:3935-3974 | a new block and remainder in front of a segment keep the heap |
| `Segments.AddOk` | kernel/libc/malloc/malloc.c:3977-4027 | the old top ended by a segment record and fenceposts, and a new top elsewhere, make a heap with the same blocks |
| `Segments.LandAppend` | kernel/libc/malloc/malloc.c:4193-4204 | segments and chunks go on covering the same ground after an append |
| `Segments.LandPrepend` | kernel/libc/malloc/malloc.c:4208-4217 | likewise after a prepend |
| `Segments.LandAdd` | kernel/libc/malloc/malloc.c:3977-4027 | likewise with a separate new segment |
| `Segments.SegmentWalk` | kernel/libc/malloc/malloc.c:3418-3447 | walking by sizes from any segment's base reaches its end exactly and meets every chunk there |
| `Segments.TopSegment` | kernel/libc/malloc/malloc.c:3979-3981 | the top chunk lies in the current segment and in no other |
| `Alignment.PowerTest` | kernel/libc/malloc/malloc.c:4889-4889 | a & (a-1) is zero exactly for powers of two (and zero) |
| `Alignment.MaskLow` | kernel/libc/malloc/malloc.c:4907-4907 | masking with a power of two less one is the remainder |
| `Alignment.MaskHigh` | kernel/libc/malloc/malloc.c:4916-4918 | masking with minus a power of two rounds down to a multiple |
| `Alignment.RoundUp` | kernel/libc/malloc/malloc.c:4916-4918 | the masked sum is the first multiple not below the address |
| `Alignment.NormalAlignment` | kernel/libc/malloc/malloc.c:4887-4893 | the alignment used is the least power of two that is at least 16 and at least the one asked for |
| `Alignment.LoopEndsIff` | kernel/libc/malloc/malloc.c:4889-4893 | the loop looking for a power of two ends exactly for alignments up to 2^31 |
| `Malloc.RequestFits` | kernel/libc/malloc/malloc.c:2222-2231 | a padded request is the smallest multiple of 8, at least 16, that holds the bytes and a head word, and small requests stay small |
| `Malloc.CallocExact` | kernel/libc/malloc/malloc.c:4786-4794 | the request is the product when that fits a word, and otherwise one no allocation meets |
| `Malloc.ExactlyBinned` | kernel/libc/malloc/malloc.c:3450-3476 | the chunks in the bins are exactly the free ones other than dv and top, each in the bin of its size; a bin's bit is set exactly when the bin holds something |
| `Malloc.RecordSpot` | kernel/libc/malloc/malloc.c:3979-3989 | where the segment record goes: at old top's end less the fenceposts, or at old top when that leaves no chunk |
| `Malloc.AlignedSpot` | kernel/libc/malloc/malloc.c:4916-4921 | the place found is aligned, at least 16 bytes on, and at most the alignment and 8 |
| `Malloc.MallocState.constructor` | kernel/libc/malloc/malloc.c:2566-2630 | the state before the first call is a well-formed heap, with no segment, no block and an empty top |
| `Malloc.MallocState.SizeBounds` | kernel/libc/malloc/malloc.c:2467-2475 | no chunk, dv or top is as long as the address space less a page |
| `Malloc.MallocState.InsertSmallChunk` | kernel/libc/malloc/malloc.c:3565-3581 | all bins stay right and hold exactly one chunk more, first in its bin |
| `Malloc.MallocState.UnlinkSmallChunk` | kernel/libc/malloc/malloc.c:3584-3607 | all bins stay right and hold exactly one chunk less; the order of its bin stays |
| `Malloc.MallocState.InsertLargeChunk` | kernel/libc/malloc/malloc.c:3643-3692 | the tries stay tries and hold exactly one chunk more, the last in line of its size |
| `Malloc.MallocState.UnlinkLargeChunk` | kernel/libc/malloc/malloc.c:3711-3780 | the tries stay tries and hold exactly one chunk less, in every case of the removal; the others keep their order |
| `Malloc.MallocState.FindBest` | kernel/libc/malloc/malloc.c:4429-4475 | the search returns a smallest chunk that fits over all tree bins, the oldest of its size, and none only if none fits |
| `Malloc.MallocState.FindSmallest` | kernel/libc/malloc/malloc.c:4500-4518 | the search returns a smallest chunk of all tree bins, the oldest of its size |
| `Malloc.MallocState.TmallocLarge` | kernel/libc/malloc/malloc.c:4429-4497 | the oldest best fit is taken and cut, a rest of 16 bytes or more going to a bin and dv staying; 0 only if none fits or dv fits at least as well, and then nothing changed |
| `Malloc.MallocState.TmallocSmall` | kernel/libc/malloc/malloc.c:4500-4535 | the oldest smallest tree chunk is taken and cut; a rest of 16 bytes or more is dv afterwards, and the one until then is binned |
| `Malloc.MallocState.CarveSmall` | kernel/libc/malloc/malloc.c:4591-4615 | the same for the first chunk of a small bin |
| `Malloc.MallocState.AllocFromDv` | kernel/libc/malloc/malloc.c:4633-4651 | dv is split, or taken whole, and then there is none, when less than a chunk would be left; the binned chunks stay |
| `Malloc.MallocState.AllocFromTop` | kernel/libc/malloc/malloc.c:4653-4663 | the block is the front of top, the rest the new top |
| `Malloc.MallocState.MergeForward` | kernel/libc/malloc/malloc.c:4371-4420 | the run of loose chunks ends up in top, dv or a bin, whichever the chunk behind and dv decide |
| `Malloc.MallocState.MallocHeld` | kernel/libc/malloc/malloc.c:4572-4663 | the block comes from the chunk the documented policy names, has nb to nb+15 bytes, and leaves the bins, dv and top the policy says; 0 only if nothing on hand fits, and then nothing changed |
| `Malloc.MallocState.DisposeChunk` | kernel/libc/malloc/malloc.c:4358-4424 | the block and the loose chunks around it are one chunk: top when top was behind, else dv when dv was on either side, else binned; the other blocks and the ground covered are as before |
| `Malloc.MallocState.DlFree` | kernel/libc/malloc/malloc.c:4677-4784 | exactly that block of a segment is given back, joined with what is loose around it as in dispose_chunk; freeing 0 does nothing |
| `Malloc.MallocState.TryReallocChunk` | kernel/libc/malloc/malloc.c:4815-4880 | a block of a segment is resized in place exactly when it and what follows hold the size; spare bytes from 16 on go to the top, dv or free chunk behind, or become one; else nothing changed |
| `Malloc.MallocState.RoomSpans` | kernel/libc/malloc/malloc.c:4838-4876 | the bytes a block can span are its own and those of a free chunk, dv, or top less 8 behind it |
| `Malloc.MallocState.SysAlloc` | kernel/libc/malloc/malloc.c:4050-4238 | a region from the system yields the block in all four cases: the first becomes top, one behind the current segment lengthens top, one in front of a segment gives its front, the rest joined to what follows, and any other is the new top, the old one being binned; exactly the region's bytes are added, as a segment of their own unless they adjoin one; it is lost exactly when the region is to be separate and the current segment ends at 2^32 |
| `Malloc.MallocState.FirstRegion` | kernel/libc/malloc/malloc.c:4171-4190 | the first region, less 40 bytes, becomes the top chunk of an empty heap |
| `Malloc.MallocState.Append` | kernel/libc/malloc/malloc.c:4193-4204 | a following region widens top, and nothing else on hand changes |
| `Malloc.MallocState.PrependRegion` | kernel/libc/malloc/malloc.c:4208-4218 | a preceding region yields the block and is joined to the segment; what is left of it joins top, dv or the free chunk behind, or is binned |
| `Malloc.MallocState.PrependAlloc` | kernel/libc/malloc/malloc.c:3935-3974 | the block is the region's front; the remainder is joined with top, dv or a free chunk, or binned |
| `Malloc.MallocState.AddSegment` | kernel/libc/malloc/malloc.c:3977-4027 | the blocks stay, the old top is binned when it has 16 bytes or more, and the new region less 40 bytes is top; lost exactly when the current segment ends at 2^32 |
| `Malloc.MallocState.Fence` | kernel/libc/malloc/malloc.c:4005-4015 | the old segment, which ends below 2^32, ends in at least two fenceposts, and no other word is written |
| `Malloc.MallocState.SegmentHolding` | kernel/libc/malloc/malloc.c:2696-2705 | the segment found holds the address; none is found exactly when no segment that ends below 2^32 holds it |
| `Malloc.MallocState.GrowSegments` | kernel/libc/malloc/malloc.c:4192-4224 | a region that follows, precedes or stands apart is taken in, with the same blocks or one more, and what is on hand afterwards is as said there |
| `Malloc.MallocState.PlaceRegion` | kernel/libc/malloc/malloc.c:4205-4222 | likewise for one that does not follow the current segment |
| `Malloc.MallocState.InitBins` | kernel/libc/malloc/malloc.c:3906-3913 | every small bin is an empty ring |
| `Malloc.MallocState.GiveLead` | kernel/libc/malloc/malloc.c:4907-4935 | the misaligned front of a block, of as few bytes from 16 on as will do, is given back as by free, and the block left starts aligned with room for the request |
| `Malloc.MallocState.GiveTail` | kernel/libc/malloc/malloc.c:4937-4948 | more than 16 bytes of spare room behind the request are given back as by realloc; fewer stay |
| `Heaps.MapSizeFits` | kernel/libc/malloc/malloc.c:3822-3828 | the size mapped is whole pages and wraps exactly when it comes out at most nb; otherwise it holds the request and less than a page too much |
| `Heaps.RequestedBytes` | kernel/libc/malloc/malloc.c:2222-2231 | in bytes: how a request is padded, from how many bytes on it is refused, and how much is asked of the system for it, as a segment and as a mapping |
| `Heaps.BlocksApart` | kernel/libc/malloc/malloc.c:3282-3293 | blocks handed out, in segments or mapped, are aligned and never overlap |
| `Heaps.StillApart` | kernel/libc/malloc/malloc.c:4032-4238 | segments that grow leave the mapped regions alone |
| `Heaps.Heap.constructor` | kernel/libc/malloc/malloc.c:2566-2630 | a heap with no block and no memory, from which every run starts |
| `Heaps.Heap.MmapAlloc` | kernel/libc/malloc/malloc.c:3821-3848 | the block is the region but for its padding; none exactly when the size wraps or the system has none |
| `Heaps.Heap.MmapResize` | kernel/libc/malloc/malloc.c:3853-3885 | without mremap, a mapped block stays exactly when it is big enough, not too big, and the request not small |
| `Heaps.Heap.SysAlloc` | kernel/libc/malloc/malloc.c:4032-4238 | a request of 256 KiB or more is mapped once there is a segment, any other met by a new region, which leaves on hand what the arena's sys_alloc says; 0 exactly when neither helps |
| `Heaps.Heap.StockedServes` | kernel/libc/malloc/malloc.c:4566-4663 | in bytes: a chunk on hand with 16 bytes to spare serves a request, one without 4 does not, and none serves 0xFFFFFFC0 bytes |
| `Heaps.Heap.InBytes` | kernel/libc/malloc/malloc.c:4539-4673 | in bytes: when a request is met by what is on hand, by a region or by a mapping, and when by nothing |
| `Heaps.Heap.DlMalloc` | kernel/libc/malloc/malloc.c:4539-4673 | a new aligned block disjoint from the others and no other change; in bytes: it is given when a chunk on hand has 16 bytes more than asked for or the system answers, never from 0xFFFFFFC0 bytes on, has at least 4 and at most 31 bytes more (a mapped one: whole pages less 16), and is mapped only from 256 KiB on; what is on hand serves it as the policy says and leaves what the policy says, else the system; 0 exactly when none of them does, and then nothing changed |
| `Heaps.Heap.DlFree` | kernel/libc/malloc/malloc.c:4677-4784 | exactly that block is given back, a mapped one to the system, one of a segment as in dispose_chunk; freeing 0 does nothing |
| `Heaps.Heap.TryRealloc` | kernel/libc/malloc/malloc.c:4806-4883 | a block of either kind is resized in place exactly when the code's conditions hold; else nothing changed |
| `Heaps.Heap.StaysInBytes` | kernel/libc/malloc/malloc.c:3853-3885 | in bytes: a block of a segment stays on realloc when it and what is loose behind it have 16 bytes more, a mapped one when more than 244 are asked for and it is big enough and at most 128 KiB too big |
| `Heaps.Heap.DlRealloc` | kernel/libc/malloc/malloc.c:5180-5223 | the block stays exactly when there is room, what it spares going where try_realloc_chunk puts it, else moves to a new one with its bytes, as far as they fit, and the old one is freed; other blocks keep their bytes; it succeeds whenever malloc would, in bytes; on failure, whose condition is exact, the old block stays |
| `Heaps.Heap.DlCalloc` | kernel/libc/malloc/malloc.c:4786-4799 | a block for the whole product, never one for a product that wrapped, and one whenever malloc would give one, in bytes; it is clear exactly when it is not mapped or its pages were; other blocks keep their bytes |
| `Heaps.MappedCallocRun` | kernel/libc/malloc/malloc.c:4795-4798 | a run on which calloc hands out a block whose first byte is not 0 |
| `Heaps.Heap.AlignBlock` | kernel/libc/malloc/malloc.c:4907-4935 | a misaligned block, mapped or not, is moved on to an aligned address inside itself, with room for the request |
| `Heaps.Heap.MemalignInBytes` | kernel/libc/malloc/malloc.c:4885-4900 | in bytes: the request memalign makes is below the bytes asked for, twice the alignment and 44 |
| `Heaps.Heap.InternalMemalign` | kernel/libc/malloc/malloc.c:4885-4957 | the block starts at a multiple of the alignment and has the padded size or up to 16 more; what was cut off before and behind it is free again; it fails exactly when the request is too large or the enlarged one is not met, and never while a chunk on hand has the bytes, twice the alignment and 60 |
| `Heaps.Heap.DlMemalign` | kernel/libc/malloc/malloc.c:5256-5261 | likewise for any alignment up to 2^31, small ones going to malloc, with the exact condition of failure |
| `Heaps.LastPagesRun` | kernel/libc/malloc/malloc.c:3977-3981 | a run on the last pages of memory that loses sys_alloc |
| `Blocks.SplitTiled` | kernel/lib/mem.c:221-227 | halving a block leaves the pool tiled by aligned blocks |
| `Blocks.JoinTiled` | kernel/lib/mem.c:242-251 | joining a block with its buddy leaves the pool tiled |
| `Blocks.RunInBlock` | kernel/lib/mem.c:212-232 | among coalesced free blocks, an aligned free run lies inside one block |
| `Blocks.OneTiling` | kernel/lib/mem.c:234-255 | a set of units has only one coalesced tiling |
| `BuddyLists.AllocOk` | kernel/lib/mem.c:212-232 | the block given is aligned, of the order asked for, and was free; the tiling and all other blocks in use stay, and free buddies stay merged |
| `BuddyLists.AllocComplete` | kernel/lib/mem.c:257-277 | NULL is returned exactly when no aligned run of that many free units exists |
| `BuddyLists.AllocSmallest` | kernel/lib/mem.c:212-232 | the block is cut from the front of one of the lowest order that will do, the one longest on its list |
| `BuddyLists.FreeOk` | kernel/lib/mem.c:234-255 | with the order test: the tiling and all other blocks in use stay, and no two free buddies of one order are left |
| `BuddyLists.AllocFreeRestores` | kernel/lib/mem.c:257-297 | with the order test: freeing what was just allocated restores every free list |
| `BuddyLists.LiteralFreeIff` | kernel/lib/mem.c:234-255 | the literal free leaves a well-formed pool with the same other blocks exactly when its merging stops clean |
| `BuddyLists.CleanSame` | kernel/lib/mem.c:234-255 | then it does what the free with the order test does |
| `BuddyLists.LiteralRun` | kernel/lib/mem.c:242-251 | a run on which the literal free gives a page in use out again |
| `BuddyLists.StaleRun` | kernel/lib/mem.c:234-255 | a run on which a second free of a page is not noticed and links it twice |
| `BuddyLists.FreedLast` | kernel/lib/mem.c:242-253 | the block freed, with what it was merged with, goes last on its list; the others keep their order |
| `Pools.MaxOrderForLength` | kernel/lib/mem.c:100-106 | the highest order whose blocks are no longer than the length, at most 15 |
| `Pools.MaxOrderForIndex` | kernel/lib/mem.c:108-114 | the highest order a block starting there may have, at most 15 |
| `Pools.MaxOrder` | kernel/lib/mem.c:116-121 | the largest aligned block that starts there and fits |
| `Pools.CutCoalesced` | kernel/lib/mem.c:123-132 | blocks cut greedily hold no two free buddies below order 15 |
| `Pools.BuddyInRange` | kernel/lib/mem.c:279-297 | in a pool of whole largest blocks every buddy exists, so vaddr_free needs no range test |
| `Pools.BuddyPool.constructor` | kernel/lib/mem.c:178-185 | a pool with nothing in it |
| `Pools.BuddyPool.AddToPool` | kernel/lib/mem.c:123-151 | exactly the units of the range are added, tiled by greedy blocks, behind the others of their order and by place; blocks in use stay |
| `Pools.BuddyPool.Allocate` | kernel/lib/mem.c:212-232 | the method does what the allocation on lists says, and records the block's order |
| `Pools.BuddyPool.Free` | kernel/lib/mem.c:234-255 | with the order test, the method does what the free on lists says; a unit whose order reads -1 is left alone |
| `Pools.BuddyPool.FreeLiterally` | kernel/lib/mem.c:234-255 | the code as it is: its lists and the unit it marks, the pool well formed exactly when the merging stops clean; a second free is noticed exactly when the merging ends at the unit itself |
| `Pools.BuddyPool.Release` | kernel/lib/mem.c:234-255 | either form of the free: the pool is well formed afterwards exactly when it is clean for that block |
| `Mapping.PhaddrInverts` | kernel/lib/mem.c:364-368 | the page table lookup inverts a mapping at every offset |
| `Mapping.MappingsApart` | kernel/lib/mem.c:299-362 | two mapped blocks share neither physical nor virtual addresses |
| `Mapping.KernelMemory.constructor` | kernel/lib/mem.c:178-209 | nothing is mapped, all virtual units from the kernel's end on are free |
| `Mapping.KernelMemory.AddPages` | kernel/lib/mem.c:186-202 | a usable range is added to the page pool, and mappings stay |
| `Mapping.KernelMemory.MapPhaddr` | kernel/lib/mem.c:299-309 | a new virtual block maps the range: every entry is present and writable, its other bits the page address; no other entry changes; on failure nothing does; all mappings stay |
| `Mapping.KernelMemory.UnmapPhaddr` | kernel/lib/mem.c:311-319 | exactly the block's entries are cleared, so that none is present, and it is free again; the pool stays well formed when the free is clean |
| `Mapping.KernelMemory.PageMap` | kernel/lib/mem.c:326-335 | the first mapping makes a virtual block whose entries are present, writable and lead to the page, later ones count and return the same address |
| `Mapping.KernelMemory.PageUnmap` | kernel/lib/mem.c:337-343 | the last unmapping gives the virtual block back and clears its entries, earlier ones count; all stays well formed when the free, if any, is clean |
| `Mapping.KernelMemory.KernelPageAllocate` | kernel/lib/mem.c:345-354 | a new page block mapped once, present and writable, at a new virtual block, or neither: a failed mapping leaks nothing, and the pools stay well formed when the page goes back clean |
| `Mapping.KernelMemory.KernelPageFree` | kernel/lib/mem.c:356-362 | the page is recovered from its address, both blocks are given back and no entry of theirs is present; all stays well formed when both frees are clean |
| `Timers.RegisterOk` | kernel/lib/timers.c:37-53 | the queue stays sorted, first come first among equal deadlines, and the backend has the earliest |
| `Timers.UnregisterOk` | kernel/lib/timers.c:25-35 | just that timer leaves; order and backend stay right |
| `Timers.AbsoluteOk` | kernel/include/timers.h:61-65 | a timer that is not linked is queued with its new deadline and the backend set |
| `Timers.RewriteIff` | kernel/include/timers.h:61-65 | for a linked timer the queue survives exactly when the new deadline fits between its neighbours' (and is the old one for the first) |
| `Timers.InterruptEnds` | kernel/lib/timers.c:55-67 | when the loop ends nothing queued is due and the backend has the earliest deadline or 0 |
| `Timers.InterruptQueued` | kernel/lib/timers.c:55-67 | through the loop and what its handlers register, the queue stays sorted and first come first among equal deadlines |
| `Timers.FiredFirstCome` | kernel/lib/timers.c:55-67 | timers with the same deadline fire in the order they were registered in |
| `Timers.NeverEarly` | kernel/lib/timers.c:55-67 | no timer fires before its deadline |
| `Timers.FiredOnce` | kernel/lib/timers.c:55-67 | every registration, also those handlers make, is fired or still queued, once |
| `Timers.FiredInOrderIff` | kernel/lib/timers.c:55-67 | timers fire in the order of deadlines exactly when no handler registers a deadline before that of its own timer and another timer fires after it |
| `Timers.TimerQueue.RegisterTimer` | kernel/lib/timers.c:37-53 | the method does what the function those lemmas are about says |
| `Timers.TimerQueue.RegisterTimerAbsolute` | kernel/include/timers.h:61-65 | likewise |
| `Timers.TimerQueue.UnregisterTimer` | kernel/lib/timers.c:25-35 | likewise, and the timer is off the queue |
| `Timers.TimerQueue.InterruptEntryPoint` | kernel/lib/timers.c:55-67 | the loop fires just the timers, in the order, that the function says, keeps the queue in order and first come first, and leaves the backend right when it ends |
| `Scheduler.StepOk` | kernel/lib/scheduler.c:67-153 | every step of the system keeps its invariant: the running task heads the run queue, which has no duplicates, holds idle and is counted right; every task is on it, sleeps, or waits for one mutex |
| `Scheduler.RunsOk` | kernel/lib/scheduler.c:47-153 | so no task is ever stranded, on any run; a free mutex's first waiter is on the run queue |
| `Scheduler.RunsFirstCome` | kernel/lib/scheduler.c:137-153 | on every run, sleepers with the same deadline are queued in the order they went to sleep |
| `Scheduler.HaltsAlone` | kernel/lib/scheduler.c:83-93 | idle waits for interrupts only when all others sleep or wait for a mutex that is taken |
| `Scheduler.Fair` | kernel/lib/scheduler.c:100-135 | a task at position p of the run queue runs within p switches |
| `Scheduler.ExclusionIff` | kernel/lib/mutex.c:26-58 | on a run without panic, only a mutex's locker is between lock and unlock and nesting counts its locks, at all times, exactly when no waiter is resumed with its mutex taken |
| `Scheduler.PatientExclusion` | kernel/lib/mutex.c:26-58 | so it is on every run where nobody takes a free mutex others wait for or wakes its waiters |
| `Scheduler.RecheckedExclusion` | kernel/lib/mutex.c:36-44 | and on every run, if the locker were looked at again after waking |
| `Scheduler.BargingRun` | kernel/lib/mutex.c:36-44 | a run of the code as it is with two tasks inside |
| `Waiting.StepInTurn` | kernel/lib/mutex.c:36-40 | a step keeps every mutex's waiters in the order in which they began to wait |
| `Waiting.RunsInTurn` | kernel/lib/mutex.c:26-58 | so does every run: waiters are served first come, first served |
| `Waiting.WakesLongest` | kernel/lib/mutex.c:52-57 | an unlock that frees a mutex others wait for queues the task that has waited longest, and no other |
| `Waiting.PanicsIff` | kernel/lib/mutex.c:26-51 | with exclusion kept, the kernel panics exactly on an unlock by a task that has not locked, or on a 2^32nd nested lock |
| `Waiting.SleepDue` | kernel/lib/scheduler.c:137-142 | a task that goes to sleep is off the run queue with its timer at just its deadline, and no other deadline changes |
| `Waiting.WokenInOrder` | kernel/lib/scheduler.c:47-50 | after an interrupt the run queue holds the tasks of the timers that fired, in the order fired, and idle behind them |
| `Tasks.TaskSystem.constructor` | kernel/lib/scheduler.c:25-30 | the state in which the scheduler starts satisfies the invariants |
| `Tasks.TaskSystem.AddMutex` | kernel/include/mutex.h:31-36 | a new mutex is free with no waiters, and the invariants stay |
| `Tasks.TaskSystem.ScheduleTask` | kernel/lib/scheduler.c:67-73 | the method makes the transition system's change to the fields |
| `Tasks.TaskSystem.UnscheduleTask` | kernel/lib/scheduler.c:75-81 | the task leaves the run queue, which goes on being counted right |
| `Tasks.TaskSystem.GiveupCpu` | kernel/lib/scheduler.c:123-128 | likewise: the running task goes to the end and the next one runs |
| `Tasks.TaskSystem.Unschedule` | kernel/lib/scheduler.c:130-135 | likewise: the running task leaves the queue |
| `Tasks.TaskSystem.SleepTsc` | kernel/lib/scheduler.c:137-142 | likewise: with its timer registered, first come first among equal deadlines |
| `Tasks.TaskSystem.SleepEarly` | kernel/lib/scheduler.c:143-146 | before the scheduler runs: it returns at the first reading of the clock that is not before the deadline |
| `Tasks.TaskSystem.CancelSleep` | kernel/lib/scheduler.c:149-153 | likewise: its timer is gone and it is queued |
| `Tasks.TaskSystem.MutexLock` | kernel/lib/mutex.c:26-45 | likewise: the lock is taken, counted, or waited for at the end of the line |
| `Tasks.TaskSystem.MutexUnlock` | kernel/lib/mutex.c:47-58 | likewise: the last unlock frees the mutex and queues the first waiter |
| `Tasks.TaskSystem.TimerInterrupt` | kernel/lib/scheduler.c:47-50 | likewise: the tasks of the timers that fired are queued; `Waiting.WokenInOrder` says in what order |
| `Tasks.TaskSystem.IdleRound` | kernel/lib/scheduler.c:83-93 | likewise for a turn of idle's loop |
| `Memmove.Memmove` | kernel/libc/newlib/memmove.S:16-146 | the destination gets the source's old bytes for every length, alignment and overlap, and nothing else changes |
| `Memmove.CopyUp` | kernel/libc/newlib/memmove.S:97-137 | the forward path with its aligning bytes, words and rest is a byte copy |
| `Memmove.CopyDown` | kernel/libc/newlib/memmove.S:36-92 | so is the backward path, for a source below the destination |
| `Memmove.MovslUp` | kernel/libc/newlib/memmove.S:121-125 | the word loop copies the same bytes as a byte loop would |
| `Memmove.MovslDown` | kernel/libc/newlib/memmove.S:66-77 | likewise downwards |
| `Memmove.CopiedMore` | kernel/libc/newlib/memmove.S:104-136 | a stretch copied after another, with sources not yet overwritten, makes one longer copy |
| `Strings.DetectNullIff` | kernel/libc/newlib/strncpy.c:49-50 | the word test is non-zero exactly when some byte is zero |
| `Strings.Strncpy` | kernel/libc/newlib/strncpy.c:88-123 | the word loop and tail give the string's bytes, zeros up to count, and nothing else, for all lengths and alignments, also when the destination overlaps the string from below |
| `Strings.StrncpyBytes` | kernel/libc/newlib/strncpy.c:74-87 | so does the byte loop |
| `Strings.Strcpy` | kernel/libc/newlib/strcpy.c:73-97 | the string and its zero are copied, and nothing else changes |
| `Strings.StrcpyBytes` | kernel/libc/newlib/strcpy.c:65-71 | so does the byte loop |
| `Strings.LengthIs` | kernel/libc/newlib/strncpy.c:108-116 | the length the specification speaks of is the distance to the first zero, cut at count |
| `Numerals.ReadsBack` | kernel/lib/bprintf.c:185-192 | a numeral reads back as its number, in any base, with no leading zero |
| `Numerals.NumeralShort` | kernel/lib/bprintf.c:149-149 | no 64-bit number has more than 22 digits in a base from 8 to 16 |
| `Numerals.SignedIff` | kernel/lib/bprintf.c:234-289 | %d prints the field ISO C99 asks for exactly when no zeros are owed to a precision or belong between a sign and the digits |
| `Numerals.UnsignedIff` | kernel/lib/bprintf.c:471-547 | the same for %u, %o, %x and %X, with the cases of zero under a precision |
| `Numerals.SignedReadsBack` | kernel/lib/bprintf.c:234-289 | without precision and flag 0: blanks, sign, a numeral that reads back as the number, blanks; the width is met and no more |
| `Numerals.UnsignedReadsBack` | kernel/lib/bprintf.c:471-547 | the same for the unsigned conversions and their prefixes |
| `Bprintf.NumberReads` | kernel/lib/bprintf.c:102-119 | a width or precision is the value of its digits, as an unsigned int |
| `Bprintf.SpecSized` | kernel/lib/bprintf.c:89-122 | widths and precisions stay unsigned ints |
| `Bprintf.ParseSpec` | kernel/lib/bprintf.c:68-147 | the loops read the specification the grammar function says |
| `Bprintf.PutDigits` | kernel/lib/bprintf.c:185-192 | at most 22 characters of digits are written, the number's numeral read backwards |
| `Bprintf.PutMinimum` | kernel/lib/bprintf.c:158-218 | the two hard-coded strings are the numerals of 2^63 and 2^31 |
| `Bprintf.Sink.PutField` | kernel/lib/bprintf.c:234-289 | prefix, zeros, digits and padding in the order of the field's text, each cut to the room |
| `Bprintf.Sink.PutSigned` | kernel/lib/bprintf.c:154-289 | the text of the number cut to its length, the minima included |
| `Bprintf.Sink.PutUnsigned` | kernel/lib/bprintf.c:292-547 | the text of the number cut to its length, in its base |
| `Bprintf.Sink.PutPointer` | kernel/lib/bprintf.c:448-469 | the hexadecimal text, or (nil) |
| `Bprintf.Sink.PutChar` | kernel/lib/bprintf.c:549-576 | the character, padded to the width |
| `Bprintf.Sink.PutString` | kernel/lib/bprintf.c:578-617 | the string, padded to the width |
| `Bprintf.Vbprintf` | kernel/lib/bprintf.c:48-629 | for every format whose conversions are complete as far as there is room, and fitting arguments, exactly the first max characters of the format's text are written, nothing beyond them, and %n stores the counts |
| `Directives.SpecReads` | kernel/lib/bprintf.c:68-147 | a conversion is read as it is written: flags, width and precision, or the arguments their stars take, a negative width asking for left adjustment, length and character |
| `Directives.UnsignedPrints` | kernel/lib/bprintf.c:292-547 | %u, %o, %x and %X print the argument, cut to 8, 16, 32 or 64 bits by the length written, in base 10, 8, 16 and 16, in lower case for x and upper case for X, with the prefix # asks for and the padding width, - and 0 ask for; also what comes of a precision that asks for more digits |
| `Directives.SignedPrints` | kernel/lib/bprintf.c:149-289 | %d and %i print the sign, or what + or a blank asks for, and the absolute value in base 10, likewise |
| `Directives.PointerPrints` | kernel/lib/bprintf.c:448-469 | %p prints 0x and the argument in base 16, or (nil), likewise |
| `Directives.TextPrints` | kernel/lib/bprintf.c:549-617 | %c prints the character and %s the string, padded with blanks |
| `Directives.PlainPrints` | kernel/lib/bprintf.c:52-67 | other characters stand for themselves, %% for a percent sign |
| `Directives.NothingPrints` | kernel/lib/bprintf.c:619-625 | %n prints nothing, nor does a character that stands for no conversion, which takes no argument |
| `Directives.CountsRead` | kernel/lib/bprintf.c:619-621 | a %n reached with room left stores the number of characters printed before it, and no other conversion stores anything |
| `Directives.PlainCounts` | kernel/lib/bprintf.c:52-67 | other characters and %% count as one printed character and store nothing |
| `Directives.EndPrints` | kernel/lib/bprintf.c:52-52 | nothing is printed or stored from the end of the format on, nor stored once the room is used up |
| `Bprintf.MoreRoom` | kernel/lib/bprintf.c:619-621 | with more room the same counts are stored, and then perhaps more |
| `Constructors.Sort` | kernel/tools/dep2prio.py:7-18 | the sort ends; it raises exactly when some non-empty set of names each depends on one of the set or on an unknown name; otherwise every name comes once, after all it depends on, by the length of its longest chain |
| `Constructors.LongestChain` | kernel/tools/dep2prio.py:9-18 | the rank the names are ordered by is the length of the longest chain of dependencies |
| `Constructors.NothingStuck` | kernel/tools/dep2prio.py:11-12 | no set of names is stuck if some order puts each after its dependencies |
| `Constructors.NextLayer` | kernel/tools/dep2prio.py:10-18 | one turn of the loop, in whatever order the dictionary gives, makes the next layer |
| `Clock.RoundTrip` | kernel/drivers/cpu/kvm.c:32-56 | without overflow, to ticks and back gains nothing and loses at most ceil(2^max(shift,0) * mul / 2^32) |
| `Clock.RoundTripIff` | kernel/drivers/cpu/kvm.c:32-56 | for every count and every usable scale, exactly when that holds: for a negative shift, counts below 2^32 whose ticks drop no bit on the left, and a count of 1; otherwise counts below 2^32, and any up to the loss bound |
| `Clock.TicksExact` | kernel/drivers/cpu/kvm.c:32-40 | for every count of ticks the nanoseconds are the exact product rounded down, exactly as long as it fits 64 bits |
| `Clock.TicksMonotone` | kernel/drivers/cpu/kvm.c:32-40 | until then time does not run backwards |
| `Interrupts.Vectors.constructor` | kernel/drivers/cpu/idt.c:95-103 | the vectors below 0x20 are taken, all others up to 0xFF free |
| `Interrupts.Vectors.Allocate` | kernel/drivers/cpu/idt.c:169-184 | the lowest free aligned range, and just its vectors are taken; ranges given out stay apart and at or above 0x20; -1 exactly for order 8 and up or when no aligned range is free |
| `Interrupts.FreshRange` | kernel/drivers/cpu/idt.c:174-180 | a range found free misses the exceptions and every range given out |

## Left out

- `sys_trim` and `release_unused_segments`: they assume an unmapping that `__munmap__` in `kernel/libc/heap.c:34-39` does not do for parts of a region; `DlFree` stops before them, so segments are never given back.
- Footprint statistics and limits, the release counter, the checks that call `abort` on corruption, locks, footers, mspaces, MORECORE, bulk free and inspection: not built here, or without effect on the heap's structure.
- The heap's own words are kept by role and address, apart from the bytes of blocks in `Heaps.Heap.memory`; that those the invariants read lie outside all blocks in use is `Chunks.WordsApart`, but a write by a user outside its block cannot be expressed.
- Heaps.Heap.DlFree: asks for a block that was handed out and not freed since; the source's behaviour on others is an abort.
- Heaps.Heap.DlRealloc: likewise for the old block.
- Heaps.Heap.InternalMemalign: asks for an alignment of at most 2^31, beyond which the source's loop does not end (`Alignment.LoopEndsIff`).
- Heaps.Heap.DlMemalign: likewise.
- Heaps.Heap.MmapAlloc: the region's fake trailing chunks, which nothing reads, are not kept.
- Malloc.MallocState.DlFree: about blocks of segments; `Heaps.Heap.DlFree` has the mapped ones.
- Malloc.MallocState.TryReallocChunk: about blocks of segments; `Heaps.Heap.TryRealloc` has the mapped ones.
- BuddyLists.FreeOk: about the free with a test of the buddy's order that the source lacks; `LiteralFreeIff` is about the source.
- BuddyLists.AllocFreeRestores: likewise.
- Pools.BuddyPool.Free: likewise; `FreeLiterally` is the source's, and `Release` is both.
- Scheduler.RecheckedExclusion: about a `mutex_lock` that looks at the locker again, which the source does not; `ExclusionIff` is about the source.
- Mapping.KernelMemory.KernelPageFree: asks that the page be mapped once.
- Mapping.KernelMemory.constructor: the loop over the boot loader's memory map is left to callers of `AddPages`.
- Pools.BuddyPool.Allocate: asks for an order of at most 16, the source's array bound.
- The boot heap, enabling paging, and cache flushes of the page table.
- The context switch itself and stacks: a task is the point where it goes on; `Tasks` therefore checks one stretch between switches at a time.
- Starting tasks before the scheduler runs; `unschedule_task` is a method of `Tasks` but no step of the transition system, where a task leaves the queue by its own doing.
- Timers.InterruptEnds: the loop is followed for any finite number of turns; if handlers keep registering timers that are due it need not end.
- The order in which timers were registered is a proof device without a field in the source.
- Queues.LinkedQueues.ScheduleTask: nodes are named by their elements, with heads beside them; that `container_of` gets from a node to its element is taken for granted.
- Strings.Strncpy: asks that the destination does not start inside the string (ISO C allows no overlap at all), and that the word holding the string's end is in memory, which any page is.
- Strings.Strcpy: likewise.
- Bprintf.Vbprintf: conversions reached with room left must be complete, and arguments of the kinds read, as ISO C asks; strings and `%n` targets do not overlap the buffer.
- Numerals.UnsignedIff: compares `%u`, `%o`, `%x`, `%X`; `%p` is implementation-defined, and `%s` ignores a precision altogether (`kernel/lib/bprintf.c:577-618`).
- Numerals.SignedIff: takes a precision as parsed; a negative `*` precision, which the standard takes as omitted, is read as an unsigned number by the code.
- Constructors.Sort: names are values, and the dictionary's order is arbitrary; reading the input and printing the header are left out.
- Drivers, descriptor tables, interrupt stubs, `kprintf`, `hash.c`, `hashtable`, `file.c`, `strcat.c`, `memcpy`, `memset`, `memcmp.S`: hardware plumbing, or easy beside what is here.
