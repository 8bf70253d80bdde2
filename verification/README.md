# A model of the Immix garbage collector

This project models a conservative mark-region garbage collector for 64-bit C:
two heaps, bump allocation through recycled holes, a tracing collector that
treats every word as a possible interior pointer, and a hash table of
finalizers. It proves what the collector is for: no object that the mutator can
reach is ever overlapped, moved or forgotten, and everything else comes back.

Addresses and sizes count 8-byte words; byte pointers appear where the code
looks at bytes (interior pointers, growth, `Chunk_size`). Memory is one flat
sequence of words indexed by address, with the line headers (one per 32 words)
and block headers (one per 4096 words) beside it; chunk headers of the large
heap are records found by address. Address 0 is NULL.

## How the files fit together

- `Space`, `LineHeader`, `Memory`: the small-object space, its line walk, and
  well-formedness `WF`. *Visible* objects are those the walk of a line reaches;
  *live* ones were allocated or kept ever since they were live, *held* ones are
  those marked by the last collection or allocated since. A dead leftover in a
  marked line is visible and may be brought back by a stray word; it is then held
  but not live, and its tail may already be shared with a hole.
- `Bump`, `LocalAllocator`, `SmallHeap`, `BlockList`: bump allocation through
  holes that are stored in the free words themselves, the block lists, growth.
- `Unmarking`, `Lookup`, `Marking`, `Stack`, `Tracing`, `Collector`: the unmark
  phase, interior-pointer lookup, and the mark phase with its exact result.
- `Sweeping`, `Recycling`: what the mark bits protect, and the one-pass hole builder.
- `BlockFate`: what a whole collection makes of a block, said of the marked objects alone.
- `Runs`: the small heap as a state machine over any interleaving of allocations,
  cursor moves, growth, collections, and mutator stores into small objects, roots,
  large objects or any other word outside the small heap.
- `Reachability`: reachable by a chain of pointers, and what that means over a run.
- `StaleCursor`: runs in which a cursor with a stale hole list goes astray.
- `Chunk`, `ChunkList`, `LargeSteps`, `LargeHeap`, `LargeRuns`: the large heap, its
  operations as steps, and their runs.
- `Probing`, `HashTable`, `Hash`: the finalizer table.
- `HeapRuns`: both heaps and the finalizer table as one state machine.
- `Cycle`: a whole collection over all of it, the reset of the local allocators, and
  the collection that a request for a block may start.

The main results, in the order of the argument: `Collectors.Mark` (the marked
set is the least set closed under resolving words), `Recycling.RecycleBlocks`
with `Sweeping.HoleClear` (dropping the first line of every unmarked run makes up
for marking only the first line of a small object), `BlockFates.BlockFate` and
`BlockFates.HoleFate` (and nothing more is lost), `Runs.StepInv` and
`Runs.RunInv` (the invariant of every run), `Runs.RunKeeps`,
`Runs.RunAllocatesFresh` and `Runs.RunResolves` (what the invariant means to the
mutator), `Reachability.RunKeepsReachable` (an object that every collection of a
run can reach by a chain of pointers from its roots is live at the end, every word
intact), `Cycles.Collector.Collect` (a collection is one such step, on the objects
that the roots reach), `LargeRuns.RunTiles`, `HeapRuns.RunKeepsSmall`,
`HeapRuns.RunKeepsLarge` and `HeapRuns.FinalizedOnce` (both heaps and the finalizers
over whole runs), and `Hashes.Hash` as a refinement of a finite map.

## What is false of the code

Four properties do not hold as the design would have them. Each is stated with
the exact condition under which it does hold.

- A cursor set up by `LocalAllocator_initCursor` is sound if and only if the block
  is recyclable or no stale `next` was left behind: for a free block the code does
  not write `next` (`Runs.CursorRegionOK`, `Runs.TakeInv`). If it is not, then once
  the free block is full the next move leads to the stale address, which is outside
  the cursor's block, where the assertion at `include/block.h:133` fails, or in words
  that were handed out before (`StaleCursors.StaleSkip`). `StaleCursors.StaleRun`
  is such a run from the initial heap: a collection started by `nextBlock` gives the
  caller a recyclable block with two holes and then, over it, a free one. The request
  at hand is still served soundly (`Cycles.Collector.AllocateSmall`). In terms of what
  holds before the call: a reset is sound for the allocator at position i if and only
  if its `next` was NULL or the collection left more than i recyclable blocks
  (`Cycles.ResetAll`, `Cycles.Collector.CollectOnce`), and the collecting path of
  `nextBlock` if and only if the reset left the caller no second hole or there are
  more recyclable blocks than allocators (`Cycles.Collector.InitCursor`). A new
  thread's record is not cleared before its first reset.
- `GC_Hash_insert` updates the map if and only if the key is absent or no tombstone
  precedes it on its probe path; otherwise the key is in the table twice
  (`HashTables.PutExact`, `HashTables.MayInsertIff`, `HashTables.RegisteredTwice`).
- `ChunkList_sweep` is right if and only if it never has to measure a last chunk
  of 2^31 bytes or more with the 32-bit `Chunk_size`
  (`Chunks.SweepCodeExact`, `Chunks.SweepCodeTiles`, `Chunks.OverflowExample`).
- A live small object can be found by a pointer if and only if its payload is not
  empty (`Space.Findable`). The object that a request of zero bytes gets has an empty
  payload (`LocalAllocators.SmallRequest`), so the next collection frees it, whatever
  points to it (`Reachability.ZeroByteFreed`).

Where comments and code disagree the model follows the code: objects of 8177 to
8191 bytes are large although `include/constants.h:14` speaks of 8192 and more,
and the line loop of `recycleBlocks` visits the last line although the comment at
`src/global_allocator.c:318-320` stops before it.

## Model

| member | source | states |
|---|---|---|
| LineHeader.ByteImplementsLine | include/line_header.h:20-50 | every update of the packed header byte acts as the update of (marked, occupied, offset) that the model uses |
| Space.SameLine | src/collector.c:107-161 | within a line the walk goes from each visible object past its end, so it skips none |
| Space.VisibleApart | include/object.h:7-22 | two visible headers never share a word |
| Space.LiveDisjoint | src/local_allocator.c:82-119 | live objects are pairwise disjoint |
| Space.LiveTarget | src/collector.c:79-163 | every word of a live object's payload, on whatever line, resolves to that object and to no other |
| Space.Findable | include/object.h:50-53 | a live object can be found by some pointer exactly if its payload is not empty |
| Memory.Memory.BlockInit | include/block.h:30-32 | clears the block header and all line headers, touches nothing else |
| BlockLists.BlockList.Push | include/block_list.h:23-33 | appends to the FIFO whatever `last` held when the list was empty; only links of listed blocks change |
| BlockLists.BlockList.Shift | include/block_list.h:35-44 | takes the first block, NULL exactly if the list is empty; `last` may go stale |
| Bump.BumpVisible | src/local_allocator.c:82-106 | an allocation adds exactly the new object to the objects the line walks reach, including in lines with dead leftovers |
| Bump.BumpWF | src/local_allocator.c:82-106 | an allocation keeps every line's first-object offset, every walk and every object's bounds well-formed |
| Bump.BumpKeepsHeld | src/local_allocator.c:82-106 | no word of a held object, its header included, is overwritten, and the new object meets none |
| Bump.BumpSolid | src/local_allocator.c:82-106 | live objects stay free of other headers, and the new object is live |
| Bump.BumpRegion | src/local_allocator.c:82-106 | the advanced cursor and the hole list stored in free memory stay sound |
| LocalAllocators.LineUpdate | include/block.h:132-153 | records the first object of a line, once |
| LocalAllocators.BumpAt | src/local_allocator.c:82-106 | the memory after an allocation is `Bumped`, which `BumpedExact` spells out |
| LocalAllocators.BumpedExact | src/local_allocator.c:82-106 | word by word and line by line: the first object of the line is recorded, the size, the atomic byte, the cleared next size; the mark byte and everything else is kept |
| LocalAllocators.Landing | src/local_allocator.c:82-119 | the hole where the scan stops is sound, and it fits, overflows or is the last |
| LocalAllocators.LandingPath | src/local_allocator.c:82-119 | the holes from the cursor to that hole are linked one after the other, and each one passed over neither fits nor has more than a line to spare for a medium object |
| LocalAllocators.LocalAllocator.AdvanceToHole | src/local_allocator.c:82-119 | the scan of the holes ends at the hole the specification names, and says which of the three cases holds; it stays where it is if the object fits, or is a medium one and more than a line is left |
| LocalAllocators.LocalAllocator.InitCursor | src/local_allocator.c:9-28 | every cursor field after taking a block: all of a free block with `next` left alone, or the first hole of a recyclable block as its record says |
| LocalAllocators.LocalAllocator.StartMain | src/local_allocator.c:9-28 | the heap's invariant always holds again; the new block is owned by this cursor exactly if `next` was NULL or a recyclable block was there, and otherwise the heap is sound with the cursor but for its hole list |
| LocalAllocators.LocalAllocator.StartOverflow | src/local_allocator.c:40-44 | the overflow cursor owns a free block of its own, larger than any small object |
| LocalAllocators.LocalAllocator.Reset | src/local_allocator.c:50-53 | takes one recyclable block if there is one; the allocator is attached again if `next` was NULL or there was one, and otherwise its cursor is sound but for the hole list, with which no memory makes it sound; the heap stays sound either way |
| LocalAllocators.LocalAllocator.OverflowAllocateSmall | src/local_allocator.c:55-80 | at the overflow cursor if the object fits there, else at the start of the first free block; disjoint from all held objects; fails only if no block is free and the limit forbids growth |
| LocalAllocators.LocalAllocator.TryAllocateSmall | src/local_allocator.c:82-119 | a new object, disjoint from all held ones, in the hole where the scan stops or, for a medium object that does not fit a hole with more than a line left, in the overflow block, with the cursor left where it is; NULL exactly if neither, with memory untouched; it cannot fail for a small object or while a block is free |
| LocalAllocators.LocalAllocator.AllocateSmall | src/local_allocator.c:121-137 | the object goes to the cursor if it fits there, else to the first hole that serves it, of this block or of the recyclable blocks in turn, none of whose earlier holes could; else to the first free block; the heap grows only if no block is free, and the request fails only if in addition the limit forbids that; the object has the rounded size and its atomic flag, and is disjoint from every held object |
| LocalAllocators.SmallRequest | src/immix.c:149-171 | a request is sent to a local allocator exactly if its rounded object is at most the largest small object; the object has room for the request and less than a word more; a request of zero bytes, and no other, gets an object that is all header |
| SmallHeaps.IncrementBlocks | src/global_allocator.c:57-59 | the increment is a whole number of blocks, at least one: three tenths of the blocks there are, rounded up |
| SmallHeaps.SmallHeap.Init | src/global_allocator.c:13-37 | all blocks free, in address order, no objects: the initial state of the runs, with the invariant established |
| SmallHeaps.SmallHeap.GrowSmall | src/global_allocator.c:57-78 | appends the new free blocks to the free list, or fails, with memory untouched, exactly if both heaps and the increment exceed the memory limit |
| SmallHeaps.SmallHeap.NextFreeBlock | src/global_allocator.c:201-234 | first free block, after growth if there was none; NULL only at the memory limit, so the final abort is never reached |
| SmallHeaps.SmallHeap.NextBlock | src/global_allocator.c:155-199 | first recyclable block, else first free block, else growth; NULL only at the memory limit |
| Runs.AllocateInv | src/local_allocator.c:82-119 | an allocation through any cursor keeps the invariant: objects, lists, hole chains, owners |
| Runs.SkipInv | src/local_allocator.c:30-38 | moving to the next hole keeps the invariant |
| Runs.CursorRegionOK | src/local_allocator.c:9-28 | a cursor from a listed block is sound exactly if the block is recyclable or no stale `next` remains |
| Runs.TakeInv | src/global_allocator.c:155-173 | handing out a block keeps the invariant exactly if a recyclable block is left or the cursor's `next` is NULL |
| Runs.TakeFreeInv | src/global_allocator.c:201-211 | the same for an overflow block |
| Runs.StoreInv | src/immix.c:149-171 | the mutator may write any value into the payload of its live objects without harm to headers, walks or hole records |
| Runs.StoreOutsideInv | src/immix.c:149-171 | so may it write any value into any word outside the small heap: roots, large objects |
| Runs.InitialInv | src/global_allocator.c:13-37 | the invariant holds of the initial heap |
| Runs.GrowInv | src/global_allocator.c:57-78 | growth keeps the invariant, and the new blocks are ready to be handed out |
| Runs.CollectKeeps | src/collector.c:208-234 | a live object that is marked stays live through unmark, mark and recycle, with its size and every payload word |
| Runs.CollectReady | src/global_allocator.c:294-403 | after a collection no byte of a marked object lies in a hole or a free block that is listed |
| Runs.CollectInv | src/collector.c:208-234 | a collection keeps the invariant, whichever visible objects it marks |
| Runs.StepInv | src/immix.c:149-235 | every step of every interleaving keeps the invariant |
| Runs.RunInv | src/immix.c:149-235 | the invariant holds in every state of every run |
| Runs.RunKeeps | src/immix.c:149-235 | an object marked by all collections of a run is live at its end, every word unchanged but for the mutator's own stores |
| Runs.RunAllocatesFresh | src/immix.c:149-235 | no allocation of a run overlaps an object that was returned or kept before |
| Runs.RunResolves | src/collector.c:79-163 | at every point of a run an interior pointer to a live object resolves to it and to nothing else |
| StaleCursors.StaleSkip | src/local_allocator.c:12-16 | from any sound state, a cursor that takes a free block over a stale `next` and fills it moves to the stale address, outside its own block or inside an object that was handed out |
| StaleCursors.StaleRun | src/global_allocator.c:175-196 | a run that does so from the initial heap: two blocks are filled, then collection, reset to a block with two holes, a free block with the cursor's own `next` left behind, four objects, and the cursor is in a block it does not own |
| Reachability.ReachablePaths | src/collector.c:171-195 | the marked set consists of exactly the objects to which some chain of pointers leads from the roots |
| Reachability.RunKeepsReachable | src/immix.c:149-235 | an object that can be reached from the roots at every collection of a run is live at its end, each payload word as the mutator last stored it |
| Reachability.PointedSurvives | src/collector.c:178-193 | a live object with a pointer anywhere into its payload, from the roots or a marked object, is kept |
| Reachability.LargePointedSurvives | src/collector.c:186-188 | the same for a chunk in use and a pointer to any byte of its payload, the first included |
| Reachability.ZeroByteFreed | include/object.h:50-53 | a live object without payload is never marked, whatever points to it |
| Unmarking.UnmarkSmallObjects | src/collector.c:17-47 | clears the mark of every block, usable line and visible object, and changes nothing else |
| Lookup.FindSmallObject | src/collector.c:79-163 | the backward line search and forward walk find the object whose payload contains the pointer, and fail exactly if there is none, block metadata included |
| Lookup.WalkLine | src/collector.c:108-160 | the forward walk of the first occupied line decides the lookup |
| Marking.MarkObject | src/collector.c:128-150 | marks the header, the block, the line in which the object starts and, if it is longer than a line, every line it covers; all other words, blocks and lines are unchanged |
| Marking.MarkLines | src/collector.c:136-149 | exactly one line for an object of at most a line, exactly the covered lines for a larger one |
| Marking.MarksExact | src/collector.c:17-163 | after unmark and mark a line is marked exactly if some marked object starts in it or some marked object longer than a line covers it, and a block exactly if some marked object starts in it |
| Stacks.Stack.Push | include/stack.h:29-33 | pushes one range |
| Stacks.Stack.Pop | include/stack.h:35-45 | pops the last range, fails exactly on the empty stack |
| Tracing.ReachableUnique | src/collector.c:171-195 | there is only one least closed set |
| Tracing.ResolvesToOne | src/collector.c:178-189 | a word resolves to at most one object of both heaps |
| Tracing.LargeTarget | include/chunk_list.h:65-69 | a word resolves to a chunk exactly if the chunk is in use and the word points to a byte of its payload, from the pointer malloc returned on, outside the small heap |
| Tracing.SmallTarget | src/collector.c:79-163 | a word resolves to a live small object exactly if it points to a byte of its payload |
| Tracing.SourceWords | src/collector.c:57-77 | the words that are read are exactly those of the root ranges and of the whole payloads of marked objects whose atomic byte is not set |
| Tracing.ProgressVisit | src/collector.c:179-193 | reading one word keeps the invariant: every word of a marked object is pending or done, every pending word belongs to roots or a marked object, every closed set contains the marked one |
| Tracing.ProgressDone | src/collector.c:171-195 | with an empty stack the marked set is the least closed set |
| Tracing.MarkedCount | include/stack.h:16-19 | never more marked objects than words in the two heaps, which bounds the stack |
| Collectors.SamePointers | src/collector.c:181 | marking changes no word as a pointer, even where roots range over headers |
| Collectors.FindAndMarkSmallObject | src/collector.c:79-163 | marks the object the word resolves to, if it is not marked, and pushes its payload unless it is atomic |
| Collectors.FindAndMarkChunk | src/collector.c:68-77 | the same for the chunk that contains the word, from the first byte of its payload on, if it is in use |
| Collectors.MarkPointer | src/collector.c:180-189 | the split between the heaps: any word at all is visited as the graph says |
| Collectors.Mark | src/collector.c:171-195 | ends, never overflows the stack, and marks exactly the least set closed under resolving the roots and the words of non-atomic members, in both heaps |
| Sweeping.PaintedCovered | src/collector.c:132-149 | a marked object has its block marked and the lines that marking promises |
| Sweeping.HoleClear | src/global_allocator.c:341-350 | no protected object reaches into a hole, although a small one marked only its first line |
| Sweeping.RecycledVisible | src/global_allocator.c:294-403 | the walks of a recycled space reach exactly the objects in marked lines of marked blocks |
| Sweeping.RecycledWF | src/global_allocator.c:294-403 | recycling keeps the space well-formed, dead leftovers included |
| Sweeping.CoveredWords | src/global_allocator.c:294-403 | recycling overwrites no word of a protected object, although it writes hole records into the block |
| Sweeping.RecycledRegion | src/global_allocator.c:315-391 | the block's hole list is a chain of disjoint free ranges above each other |
| Recycling.BuildHoles | src/global_allocator.c:309-377 | the one-pass line loop writes the record of every hole: where it ends, which hole follows; and finds the first |
| Recycling.RecycleBlocks | src/global_allocator.c:294-403 | the recycled space, and the two lists of all free and all recyclable blocks in address order |
| Recycling.HolesAreRuns | src/global_allocator.c:341-371 | the holes are the maximal runs of unmarked lines without their first lines, empty ones omitted |
| Recycling.RecyclableIff | src/global_allocator.c:379-388 | a marked block becomes recyclable exactly if two adjacent lines of it are unmarked, and unavailable otherwise |
| Recycling.FirstHoleLinked | src/global_allocator.c:356-368 | following the links from the block's first free line leads to every hole, in address order |
| BlockFates.BlockFate | src/global_allocator.c:294-403 | over a whole collection: a block becomes free exactly if no marked object starts in it, and recyclable exactly if some does and two adjacent lines are neither started in by one nor covered by a longer one |
| BlockFates.LineFate | src/global_allocator.c:309-377 | exactly the touched lines of a block with a marked object keep their objects |
| BlockFates.HoleFate | src/global_allocator.c:341-371 | every run of at least two untouched lines gets a record behind its first line that says where the run ends and where the next such run is |
| BlockFates.FirstFate | src/global_allocator.c:379-388 | the block's header names the first such run |
| Chunks.TilesConcat | include/chunk_list.h:230-266 | a list tiles an area exactly if its parts tile the parts |
| Chunks.TilesSum | include/chunk_list.h:230-266 | the totals of the chunks add up to the heap's size |
| Chunks.ContainsUnique | include/chunk_list.h:65-69 | at most one chunk contains an address |
| Chunks.AllocateTiles | include/chunk_list.h:115-144 | splitting and allocating a chunk keeps the tiling |
| Chunks.AllocateInUse | src/global_allocator.c:104-134 | one more chunk in use at the start of a free one, of exactly the requested size unless the rest would be too small to split off; all others untouched |
| Chunks.SweepKeeps | include/chunk_list.h:195-228 | sweeping keeps every marked chunk with its address, size and flags |
| Chunks.SweepTiles | include/chunk_list.h:195-228 | the swept list tiles the same area |
| Chunks.SweepNormal | include/chunk_list.h:195-228 | unmarked chunks are free and no two are adjacent |
| Chunks.SweepCovers | include/chunk_list.h:195-228 | the unmarked chunks cover exactly the bytes they covered before |
| Chunks.MergeGrows | include/chunk_list.h:169-192 | the assertion in merge holds, if the last chunk's size fits an int |
| Chunks.SweepCodeExact | include/chunk_list.h:162-228 | the sweep with its 32-bit `Chunk_size` agrees with the intended one exactly if no merge measures a last chunk of 2^31 bytes or more |
| Chunks.SweepCodeTiles | include/chunk_list.h:162-228 | under the same condition, and only then, the swept list still tiles the heap |
| Chunks.OverflowExample | include/chunk_list.h:40-42 | two free chunks whose merge breaks the tiling |
| ChunkLists.ChunkList.Push | include/chunk_list.h:88-98 | appends a chunk |
| ChunkLists.ChunkList.Insert | include/chunk_list.h:100-113 | inserts a chunk after another, the last one included |
| ChunkLists.ChunkList.Split | include/chunk_list.h:115-144 | cuts a chunk unless the rest is too small; both assertions hold |
| ChunkLists.ChunkList.Find | include/chunk_list.h:147-160 | the chunk to a byte of whose payload the pointer points, the first included; NULL exactly if there is none |
| ChunkLists.ChunkList.Merge | include/chunk_list.h:169-192 | one chunk takes the place of a run, with the size the code computes modulo 2^64, and `last` follows |
| ChunkLists.ChunkList.Sweep | include/chunk_list.h:195-228 | the loop computes the sweep as written |
| ChunkLists.ChunkList.Validate | include/chunk_list.h:230-266 | passes exactly if every chunk ends where the next begins and the last at the heap's end |
| ChunkLists.SweepValidates | src/collector.c:201-205 | the validation that the source has commented out behind the sweep would pass exactly if no merge overflowed |
| ChunkLists.TilesChained | include/chunk_list.h:230-266 | tilings are exactly what validate accepts |
| LargeHeaps.GrowthEnough | src/global_allocator.c:80-82 | rounding to a power of two and to blocks gives enough bytes, less than twice plus a block |
| LargeHeaps.GrowthPower | src/global_allocator.c:80-82 | the growth is the least power of two that is enough and at least a block |
| LargeHeaps.GrowthFits | src/global_allocator.c:259-263 | after a growth the retried first fit finds a chunk |
| LargeHeaps.LargeHeap.constructor | src/global_allocator.c:39-49 | the heap starts as one free chunk |
| LargeHeaps.LargeHeap.TryAllocate | src/global_allocator.c:104-134 | first fit: the first free chunk with room for the words and the object header, NULL exactly if there is none; one step of the large heap |
| LargeHeaps.LargeHeap.Grow | src/global_allocator.c:80-102 | appends one free chunk, or fails exactly if the memory limit forbids it; one step of the large heap |
| LargeHeaps.LargeHeap.AllocateLarge | src/global_allocator.c:236-275 | a chunk in use whose payload has room for the request in bytes and little more, made of the first fit in the list or in the list grown by exactly the rounded request, with all others untouched and the tiling kept; grows exactly if nothing fits, and fails exactly if in addition the limit forbids that |
| LargeHeaps.LargeHeap.DeallocateLarge | src/global_allocator.c:277-292 | the chunk becomes free, nothing else changes; one step of the large heap |
| LargeRuns.StepTiles | src/global_allocator.c:80-134 | every operation on the large heap keeps the tiling |
| LargeRuns.RunTiles | src/global_allocator.c:80-134 | over every run the chunks tile the heap and their totals add up to its size |
| LargeRuns.RunKeeps | include/chunk_list.h:195-228 | a chunk that is never released nor left unmarked keeps its place, size and use |
| LargeRuns.RunKeepsPayload | include/chunk_list.h:115-144 | at every point of a run no chunk header, and so nothing that split, merge or sweep write, lies in its payload |
| Probing.TrianglesDiffer | src/hash.c:43-48 | two triangular numbers congruent modulo 2^n have equal index below 2^n |
| Probing.ProbesDiffer | src/hash.c:43-48 | the first `capacity` probes visit different slots |
| Probing.EverySlot | src/hash.c:103-108 | and therefore every slot |
| HashTables.ProbeFree | src/hash.c:154-159 | a table that is not full has a free slot on every probe path, so every probe loop ends |
| HashTables.SearchFinds | src/hash.c:98-114 | despite tombstones with stale keys, the search ends at the key's entry, or at none exactly if the key is not in the map |
| HashTables.PutExact | src/hash.c:116-140 | filling the slot found refines the map update exactly under the insert condition; otherwise a key is there twice |
| HashTables.MayInsertIff | src/hash.c:39-50 | that condition: the key is absent or no tombstone precedes it on its path |
| HashTables.RegisteredTwice | src/hash.c:116-140 | an example where it fails |
| HashTables.BurySound | src/hash.c:161-163 | a tombstone removes one binding and breaks no other key's path |
| HashTables.RehashPut | src/hash.c:75-85 | moving one live entry into the new table |
| Hashes.ShrinksOnly | src/hash.c:143-147 | clearing tombstones never needs a larger table, though `used` counts them |
| Hashes.DoublesAt | src/hash.c:127-130 | at three quarters load the capacity doubles |
| Hashes.Hash.constructor | src/hash.c:92-96 | the empty map |
| Hashes.Hash.LookupForInsert | src/hash.c:39-50 | the first slot on the path that is not in use or holds the key |
| Hashes.Hash.Resize | src/hash.c:52-90 | same map, no tombstones and exact counters in any new capacity with a slot for every live entry; the load invariant holds exactly if they fill at most three quarters of it |
| Hashes.Hash.ClearTombstones | src/hash.c:143-147 | same map; no tombstones left, in a table that is no larger, exactly from a quarter of the table on |
| Hashes.Hash.Search | src/hash.c:98-114 | the value of the map, NULL for an absent key |
| Hashes.Hash.Insert | src/hash.c:116-140 | the map update, with the load invariant kept, exactly if no tombstone precedes the key; the table doubles at most, and not below three quarters load |
| Hashes.Hash.Delete | src/hash.c:149-171 | removes the binding and returns its value |
| Hashes.Hash.DeleteIf | src/hash.c:173-187 | removes exactly the bindings the callback accepts, calling it with effect once for each, even where the table is rebuilt |
| HeapRuns.CollectIsStep | src/collector.c:201-234 | on the large heap a collection sweeps the list in which exactly the reached chunks are marked, and only used chunks are |
| HeapRuns.AllFinalized | include/global_allocator.h:65-67 | where finalizers are registered for objects only, a collection finalizes exactly the registered objects that it does not reach |
| HeapRuns.KeysKept | include/global_allocator.h:58-67 | the finalizers that are left are again registered for held objects or chunks in use |
| HeapRuns.HeapRunOK | src/immix.c:149-235 | over every run of both heaps with registrations, releases and collections, both heaps are sound and finalizers are registered for objects only |
| HeapRuns.TableExact | include/global_allocator.h:34-67 | a finalizer stays registered exactly as long as every collection reaches its object |
| HeapRuns.FinalizedOnce | include/global_allocator.h:58-67 | it runs at the first collection that does not reach its object, once, and at no other |
| HeapRuns.RunKeepsSmall | src/immix.c:149-235 | a small object that every collection of such a run can reach from its roots is live at the end, its words as the mutator left them |
| HeapRuns.RunKeepsLarge | src/immix.c:149-235 | the same for a large object that is not released: in use at the end, at its place, with every payload word |
| Cycles.UnmarkLargeObjects | src/collector.c:49-55 | clears the mark of every chunk |
| Cycles.UnmarkedClean | src/collector.c:212-213 | whatever mark bytes allocation left behind, nothing the lookup can return is marked when marking starts |
| Cycles.Trace | src/collector.c:211-221 | unmark, push the roots, mark what they reach |
| Cycles.CallbackExact | include/global_allocator.h:58-64 | the mark byte the finalizer callback reads says whether the object was reached |
| Cycles.Collector.Finalize | include/global_allocator.h:65-67 | the finalizers of exactly the registered objects that were not reached run, once each, and are forgotten; `HeapRuns.AllFinalized` extends this to all keys |
| Cycles.SweepSmall | src/collector.c:197-199 | recycling completes a collection step of the small heap |
| Cycles.Collector.Collect | src/collector.c:208-234 | the whole collection, one step of both heaps: exact marking, finalizers, recycled blocks and lists, swept chunks; everything is ready for the next collection exactly if no merge overflowed; finalized are exactly the registered objects that were not reached; it is the collection step of a run of both heaps |
| Cycles.Collector.PreparedOK | src/collector.c:208-234 | what a collection requires is a sound state of such a run |
| Cycles.ResetAll | src/immix.c:233 | the reset takes one recyclable block for each allocator in turn; an allocator is attached again to blocks of its own exactly if it had no hole left or a recyclable block was left for it |
| Cycles.Collector.CollectOnce | src/immix.c:230-235 | a collection and that reset, whatever holes the allocators had left: the held objects are those the roots reach, and ready for the next one exactly if no merge overflowed |
| Cycles.Collector.InitCursor | src/global_allocator.c:155-199 | a cursor's next block with the collection that `nextBlock` starts when both lists are empty: sound exactly if the reset left no second hole or more recyclable blocks than allocators, and sound but for its hole list otherwise; fails only at the memory limit |
| Cycles.Collector.InitOverflowCursor | src/global_allocator.c:201-234 | an overflow cursor's next block with the collection that `nextFreeBlock` starts when there is no free one: always a whole free block of its own; fails only at the memory limit |
| Cycles.Collector.OverflowAllocateSmall | src/local_allocator.c:55-80 | a medium object in the overflow block, with that collection exactly if it is due, the object does not fit and no block is free |
| Cycles.Collector.AllocateSmall | src/local_allocator.c:121-137 | the whole request with the collection it may start: at the cursor if it fits; no collection and no failure while a block is free; where a collection is due, no growth before it; a new object disjoint from every held one, even where the cursor comes back with a stale hole list; fails only if no block is free and the limit forbids growth |
| Cycles.Collector.AllocateLarge | src/global_allocator.c:236-275 | the whole request with the collection it may start, exactly if nothing fits and one is due: a chunk with room for the request in bytes, by first fit before or after the collection or by growth; fails exactly if the reset fails, the sweep broke the list, or nothing fits then and the limit forbids growth |
| Cycles.Collector.RegisterFinalizer | src/immix.c:225-228 | the table maps the object to the callback, exactly if no tombstone precedes it, and finalizers stay registered for objects only |
| Cycles.Collector.DeallocateLarge | src/global_allocator.c:277-292 | the chunk becomes free, and its finalizer, if any, is forgotten and handed to the caller |
| Cycles.ChunksCollected | include/chunk_list.h:195-228 | after a collection a chunk is in use exactly if it is marked, and no two free chunks are adjacent |

## Left out

- Memory.Memory: the small heap's memory is one field that methods reassign, not an
  array of bytes; aliasing between blocks is ruled out by addresses, not by frames.
- Chunk headers are records found by address, so a root range that happens to cover
  a chunk header reads words the model does not determine.
- Sizes and ranges are in whole words; a root range whose ends are not 8-aligned is
  not modelled.
- SmallHeaps.SmallHeap.NextBlock: no collection is due; with one it is
  `Cycles.Collector.InitCursor`.
- SmallHeaps.SmallHeap.NextFreeBlock: no collection is due; with one it is
  `Cycles.Collector.InitOverflowCursor`.
- LocalAllocators.LocalAllocator.AllocateSmall: no collection is due; with one it is
  `Cycles.Collector.AllocateSmall`, where at most one collection starts per request;
  when `tryCollect` decides to collect is left open, and the byte counters with it.
- LocalAllocators.LocalAllocator.OverflowAllocateSmall: no collection is due; with one
  it is `Cycles.Collector.OverflowAllocateSmall`.
- LocalAllocators.LocalAllocator.TryAllocateSmall: no collection is due in its overflow
  path (`Cycles.Collector.AllocateSmall` has it), and it writes the object header together
  with the reservation; the source does so in the caller, before anything can observe it.
- LargeHeaps.LargeHeap.AllocateLarge: no collection is due; with one it is
  `Cycles.Collector.AllocateLarge`. Sizes are assumed small enough for `size_t` and for
  the shift in `growLarge`.
- Cycles.Collector.AllocateLarge: stops where the sweep broke the list, which the
  source does not notice.
- LargeHeaps.LargeHeap.DeallocateLarge: leaves the finalizer to
  `Cycles.Collector.DeallocateLarge`, which returns it; calling it is not modelled.
- Hashes.Hash.constructor: calloc is taken to fail only where the product of its
  arguments exceeds 64 bits; hash values are an arbitrary function of the key, and
  probe indices do not wrap at 2^64, which does not matter modulo a power of two.
- Cycles.Collector.CollectOnce: finalizers and the collect callback do not touch the
  collector's state, and the roots are a given list of ranges; `GC_collect`, which the
  program supplies (`include/immix.h:32-38`), is taken to call it.
- HeapRuns.FinalizedOnce: registering is the map update, so it speaks of registrations
  that `HashTables.MayInsertIff` admits; a finalizer that registers again is a later step.
- The size of the other heap is a parameter of both growth operations.
- `GC_realloc`, `GC_free` of small objects (a no-op), statistics, threads and locks,
  environment variables, `mmap`, the growable array of allocators (`include/array.h`),
  and the Crystal binding: nothing there bears on the properties above.
