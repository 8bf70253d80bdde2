// A whole collection (src/collector.c, GC_Collector_collect).
module Cycles {
  import opened Space
  import opened Memory
  import opened Bump
  import opened Sweeping
  import opened Unmarking
  import opened Recycling
  import opened BlockLists
  import opened Runs
  import opened SmallHeaps
  import opened Chunks
  import opened ChunkLists
  import opened LargeHeaps
  import opened Stacks
  import opened Tracing
  import opened Collectors
  import opened Reachability
  import opened HeapRuns
  import opened Hashes
  import opened LocalAllocators
  import opened Units

  // Collector_unmarkLargeObjects
  method UnmarkLargeObjects(list: ChunkList)
    requires list.Valid()
    modifies list`headers, list`chunks
    ensures list.Valid() && list.chunks == Bare(old(list.chunks))
  {
    ghost var cs, i := list.chunks, 0;
    Ends(list.headers, list.first, list.last, list.size, cs);
    hide Lists;
    var chunk := list.first;
    while chunk != 0
      invariant list.Valid() && |list.chunks| == |cs| && i <= |cs| && chunk == Address(list.chunks, i)
      invariant forall j: nat | j < |cs| :: list.chunks[j] == if j < i then cs[j].(marked := false) else cs[j]
      decreases |cs| - i
    {
      At(list.headers, list.first, list.last, list.size, list.chunks, i);
      list.Set(ChunkOf(chunk, list.headers[chunk]).(marked := false), i);
      At(list.headers, list.first, list.last, list.size, list.chunks, i);
      chunk := list.headers[chunk].next;
      i := i + 1;
    }
  }

  // GC_Collector_addRoots, for every root range.
  method AddRoots(stack: Stack, roots: seq<Range>)
    requires stack.Valid() && stack.Contents() == [] && |roots| <= stack.Capacity()
    modifies stack, stack.buffer
    ensures stack.Valid() && stack.Contents() == roots
  {
    for i := 0 to |roots|
      invariant stack.Valid() && stack.Contents() == roots[..i]
    {
      stack.Push(roots[i].sp, roots[i].bottom);
      assert roots[..i + 1] == roots[..i] + [Range(roots[i].sp, roots[i].bottom)];
    }
  }

  lemma UnmarkedWord(s: Space, u: Space, o: nat)
    requires WF(s) && IsUnmarked(s, u) && Visible(u, o) && o + 1 < |u.words|
    ensures u.words[o + 1] % 256 == 0
  {
    hide *;
    ShapeOf(s);
    UnmarkedBounds(s, u);
    UnmarkedSame(s, u);
    VisibleBounds(s, u, o);
    SameObjectsVisible(s, u, o);
    UnmarkedAt(s, u, o + 1);
  }

  lemma VisibleBounds(s: Space, u: Space, o: nat)
    requires Shape(u) && Visible(u, o) && Start(u) == Start(s) && Stop(u) == Stop(s)
    ensures InSmallHeap(s, o)
  {
  }

  lemma UnmarkedAt(s: Space, u: Space, i: nat)
    requires IsUnmarked(s, u) && 0 < i < |u.words| && Shape(s) && Visible(s, i - 1)
    ensures u.words[i] % 256 == 0
  {
    hide Visible;
  }

  // After the unmark phase nothing is marked, whatever mark bytes allocation left.
  lemma UnmarkedClean(s: Space, u: Space, cs: seq<Chunk>, start: nat, stop: nat)
    requires WF(s) && IsUnmarked(s, u) && Tiles(cs, start, stop) && stop <= |u.words|
    ensures Clean(World(u, Bare(cs), start, stop))
  {
    UnmarkedSame(s, u);
    SameObjectsWF(s, u);
    BareTiles(cs, start, stop);
    forall o: nat | Visible(u, o) && o + 1 < |u.words|
      ensures u.words[o + 1] % 256 == 0
    {
      UnmarkedWord(s, u, o);
    }
  }

  // The mark of the object at address `key`: large objects lie behind the chunk's
  // own two words.
  function ObjectMarked(space: Space, headers: Headers, start: nat, stop: nat, key: nat): bool {
    if start + CHUNK_HEADER <= key < stop then
      key - CHUNK_HEADER in headers && headers[key - CHUNK_HEADER].marked
    else
      key + 1 < |space.words| && MarkBit(space.words[key + 1])
  }

  lemma SmallSurvives(w: World, m: set<Ref>, p: Space, headers: Headers, key: nat)
    requires Clean(w) && IsPainted(w.space, p, Smalls(m)) && HeapsApart(w.space, w.start, w.stop)
             && Visible(w.space, key)
    ensures ObjectMarked(p, headers, w.start, w.stop, key) <==> Small(key) in m
    ensures forall i :: 0 <= i < |w.chunks| ==> key != w.chunks[i].address + CHUNK_HEADER
  {
    forall i | 0 <= i < |w.chunks|
      ensures key != w.chunks[i].address + CHUNK_HEADER
    {
      TilesAt(w.chunks, w.start, w.stop, i);
    }
    HeaderInside(w.space, key);
    PaintedHeader(w, p, Smalls(m), key);
    SmallsHas(m, key);
  }

  lemma LargeSurvives(w: World, m: set<Ref>, p: Space, list: ChunkList, i: nat)
    requires Clean(w) && list.Valid() && list.chunks == MarkedChunks(w.chunks, m) && i < |w.chunks|
    requires Small(w.chunks[i].address + CHUNK_HEADER) !in m
    ensures var key := w.chunks[i].address + CHUNK_HEADER;
            (ObjectMarked(p, list.headers, w.start, w.stop, key) <==> Large(i) in m)
            && (Survives(w, m, key) <==> Large(i) in m)
  {
    var key := w.chunks[i].address + CHUNK_HEADER;
    TilesAt(w.chunks, w.start, w.stop, i);
    MarkedChunk(w.chunks, m, i);
    At(list.headers, list.first, list.last, list.size, list.chunks, i);
    TilesOrdered(w.chunks, w.start, w.stop);
  }

  // The mark bit read by the finalizer callback tells whether the object survives.
  lemma CallbackExact(w: World, m: set<Ref>, p: Space, list: ChunkList, key: nat)
    requires Marked(w, m, p, list.chunks) && list.Valid() && HeapsApart(w.space, w.start, w.stop) && IsObject(w, key)
    ensures ObjectMarked(p, list.headers, w.start, w.stop, key) <==> Survives(w, m, key)
  {
    SmallsHas(m, key);
    if Visible(w.space, key) {
      SmallSurvives(w, m, p, list.headers, key);
    } else {
      var i: nat :| i < |w.chunks| && key == w.chunks[i].address + CHUNK_HEADER;
      LargeSurvives(w, m, p, list, i);
    }
  }

  // Phases 1 to 3: unmark everything, push the roots, mark what they reach.
  method Trace(memory: Memory, list: ChunkList, stack: Stack, start: nat, stop: nat, roots: seq<Range>)
    returns (ghost w: World, ghost m: set<Ref>)
    requires WF(memory.space) && list.Valid() && Tiles(list.chunks, start, stop) && stop <= |memory.space.words|
    requires stack.Valid() && stack.Contents() == []
    requires forall r | r in roots :: r.bottom <= |memory.space.words|
    requires |roots| + (Stop(memory.space) - Start(memory.space)) + (stop - start) <= stack.Capacity()
    modifies memory, list`headers, list`chunks, stack, stack.buffer
    ensures list.Valid() && stack.Valid() && stack.Contents() == []
    ensures IsUnmarked(old(memory.space), w.space) && w == World(w.space, Bare(old(list.chunks)), start, stop)
    ensures Marked(w, m, memory.space, list.chunks) && Reachable(w, roots, m)
  {
    ghost var s, cs := memory.space, list.chunks;
    UnmarkSmallObjects(memory);
    UnmarkLargeObjects(list);
    w := World(memory.space, list.chunks, start, stop);
    UnmarkedBounds(s, memory.space);
    UnmarkedClean(s, memory.space, cs, start, stop);
    TilesSum(cs, start, stop);
    hide WF, IsUnmarked, Clean, Lists, Reachable, Marked, Tiles, Bare;
    AddRoots(stack, roots);
    m := Mark(memory, list, stack, start, stop, w);
  }

  lemma UnmarkedBounds(s: Space, u: Space)
    requires IsUnmarked(s, u)
    ensures |u.words| == |s.words| && Start(u) == Start(s) && Stop(u) == Stop(s)
    ensures u.low == s.low && |u.blocks| == |s.blocks| && Shape(u)
  {
  }

  // Phase 5 on the small heap.
  method SweepSmall(heap: SmallHeap, ghost u: Space, ghost m: set<nat>)
    requires heap.freeList != heap.recyclableList && heap.state.space.low == u.low
    requires heap.Bounds(u)
    requires IsUnmarked(heap.state.space, u) && IsPainted(u, heap.memory.space, m)
    modifies heap.memory, heap.freeList, heap.recyclableList, heap`state
    ensures heap.Valid() && CollectStep(old(heap.state), m, heap.state)
    ensures OutsideKept(old(heap.memory.space), heap.memory.space)
  {
    ghost var st, p := heap.state, heap.memory.space;
    PaintedBounds(u, p, m);
    hide Inv, IsUnmarked, IsPainted, Recycled, ListsFlag, Linked, Flagged, CollectStep, InSmallHeap;
    RecycleBlocks(heap.memory, heap.freeList, heap.recyclableList);
    RecycledBounds(p, heap.memory.space);
    hide OutsideKept, SameBounds, Shape;
    ghost var now := SweptState(st, u, p, heap.memory.space, m, heap.freeList.contents, heap.recyclableList.contents);
    heap.Adopt(now);
  }

  // The state that the three phases lead to.
  lemma SweptState(st: Safe, u: Space, p: Space, t: Space, m: set<nat>, free: seq<nat>, recyclable: seq<nat>)
    returns (now: Safe)
    requires IsUnmarked(st.space, u) && IsPainted(u, p, m) && Recycled(p, t)
    requires Shape(t) && ListsFlag(t, free, Free) && ListsFlag(t, recyclable, Recyclable)
    ensures now == State(t, st.live * m, m, free, recyclable, map[]) && CollectStep(st, m, now)
    ensures forall b | b in free :: Flagged(t, b, Free)
    ensures forall b | b in recyclable :: Flagged(t, b, Recyclable)
  {
    var result := State(t, st.live * m, m, free, recyclable, map[]);
    hide Inv, IsUnmarked, IsPainted, Recycled, ListsFlag, Flagged;
    assert Collected(st.space, t, m);
    CollectInv(st, m, result);
    ListedFlags(result);
    now := result;
  }

  // Words outside the small heap are left alone.
  predicate OutsideKept(s: Space, t: Space) {
    |t.words| == |s.words| && forall i: nat | i < |s.words| && !InSmallHeap(s, i) :: t.words[i] == s.words[i]
  }

  lemma PaintedBounds(u: Space, p: Space, m: set<nat>)
    requires IsPainted(u, p, m)
    ensures SameBounds(u, p)
  {
  }

  lemma RecycledBounds(p: Space, t: Space)
    requires Recycled(p, t)
    ensures Shape(p) && Shape(t) && t.low == p.low && |t.blocks| == |p.blocks| && OutsideKept(p, t)
  {
  }

  lemma ListedFlags(st: State)
    requires Inv(st)
    ensures forall b | b in st.free :: Flagged(st.space, b, Free)
    ensures forall b | b in st.recyclable :: Flagged(st.space, b, Recyclable)
  {
  }

  // --------------------------------------------------------- what a collection means

  // After a collection a chunk is in use exactly if it is marked, no two free
  // chunks are adjacent, and the used ones are those that were marked.
  lemma ChunksCollected(w: World, roots: seq<Range>, m: set<Ref>, swept: seq<Chunk>)
    requires Clean(w) && Reachable(w, roots, m) && 8 * w.stop < TWO_64 / 2
    requires !Overflows(MarkedChunks(w.chunks, m)) && swept == SweepCode(MarkedChunks(w.chunks, m))
    ensures Tiles(swept, w.start, w.stop)
    ensures MarkedOf(swept) == MarkedOf(MarkedChunks(w.chunks, m))
    ensures forall i | 0 <= i < |swept| :: swept[i].used <==> swept[i].marked
    ensures forall i | 0 < i < |swept| :: swept[i - 1].used || swept[i].used
  {
    var cs := MarkedChunks(w.chunks, m);
    ReachableRefs(w, roots, m);
    MarkedTiles(w.chunks, m, w.start, w.stop);
    SweepCodeExact(cs, w.start, w.stop);
    SweepTiles(cs, w.start, w.stop);
    SweepKeeps(cs);
    SweepNormal(cs);
    forall i | 0 <= i < |cs| && cs[i].marked
      ensures cs[i].used
    {
      assert IsRef(w, Large(i));
    }
    SweepUsed(cs);
  }

  lemma {:induction false} SweepUsed(cs: seq<Chunk>)
    requires forall i | 0 <= i < |cs| && cs[i].marked :: cs[i].used
    ensures forall i | 0 <= i < |Sweep(cs)| && Sweep(cs)[i].marked :: Sweep(cs)[i].used
    decreases |cs|
  {
    if cs != [] {
      if cs[0].marked {
        SweepUsed(cs[1..]);
      } else {
        SweepUsed(cs[RunLength(cs)..]);
      }
    }
  }

  // The allocators of different threads on one heap.
  ghost predicate Registered(heap: SmallHeap, allocators: seq<LocalAllocator>) {
    && (forall i | 0 <= i < |allocators| :: allocators[i].heap == heap)
    && (forall i, j | 0 <= i < j < |allocators| ::
          allocators[i] != allocators[j] && allocators[i].id != allocators[j].id)
  }

  // What the reset makes of the allocator at position i, whose hole list was
  // `next`, when the collection left these recyclable blocks in space s: its main
  // cursor, and what the heap knows of its cursors.
  ghost predicate ResetTo(regions: map<nat, Region>, s: Space, recyclable: seq<nat>, i: nat, next: nat, id: nat,
      main: Region, overflow: Region)
  {
    && FirstCursor(s, After(recyclable, i), next, main)
    && var usable := next == 0 || i < |recyclable|;
       KnownTo(regions, id, Known(main, usable), overflow) && (!usable ==> Unusable(main))
  }

  predicate KnownTo(regions: map<nat, Region>, id: nat, main: Region, overflow: Region) {
    && 2 * id in regions && regions[2 * id] == main
    && 2 * id + 1 in regions && regions[2 * id + 1] == overflow
  }

  lemma SameCursor(s: Space, t: Space, recyclable: seq<nat>, i: nat, next: nat, r: Region)
    requires SameFlags(s, t) && forall b | b in recyclable :: Flagged(s, b, Recyclable)
    requires FirstCursor(t, After(recyclable, i), next, r)
    ensures FirstCursor(s, After(recyclable, i), next, r)
  {
    if After(recyclable, i) != [] {
      assert Flagged(s, recyclable[i], Recyclable) && IsBlock(s, recyclable[i]);
    }
  }

  lemma SameFlagsTwice(s: Space, t: Space, u: Space)
    requires SameFlags(s, t) && SameFlags(t, u)
    ensures SameFlags(s, u)
  {
    forall b: nat | IsBlock(s, b)
      ensures u.blocks[b].flag == s.blocks[b].flag && u.blocks[b].first == s.blocks[b].first
    {
      assert IsBlock(t, b);
    }
  }

  lemma AfterNext(list: seq<nat>, i: nat)
    ensures After(After(list, i), 1) == After(list, i + 1)
    ensures After(list, 0) == list && (After(list, i) != [] <==> i < |list|)
  {
  }

  // The hole lists of the allocators.
  ghost function Nexts(allocators: seq<LocalAllocator>): (nexts: seq<nat>)
    reads set a | a in allocators
    ensures |nexts| == |allocators| && forall i | 0 <= i < |allocators| :: nexts[i] == allocators[i].main.next
  {
    seq(|allocators|, i requires 0 <= i < |allocators| reads set a | a in allocators => allocators[i].main.next)
  }

  // The allocators before position i are reset.
  ghost predicate Resetting(heap: SmallHeap, allocators: seq<LocalAllocator>, nexts: seq<nat>, s: Space,
      recyclable: seq<nat>, i: nat)
    requires Registered(heap, allocators)
    reads heap, heap.freeList, heap.recyclableList, heap.memory, set a | a in allocators
  {
    && heap.Valid() && SameFlags(s, heap.memory.space) && |nexts| == |allocators| && i <= |allocators|
    && heap.recyclableList.contents == After(recyclable, i)
    && (forall j | i <= j < |allocators| :: allocators[j].main.next == nexts[j])
    && (forall j | 0 <= j < i :: ResetTo(heap.state.regions, s, recyclable, j, nexts[j],
                  allocators[j].id, allocators[j].main, allocators[j].overflow))
  }

  // The next allocator.
  method ResetOne(heap: SmallHeap, allocators: seq<LocalAllocator>, largeSize: nat, i: nat,
      ghost nexts: seq<nat>, ghost s: Space, ghost recyclable: seq<nat>)
    returns (ok: bool)
    requires Registered(heap, allocators) && i < |allocators| && Resetting(heap, allocators, nexts, s, recyclable, i)
    requires s.low < s.high && forall b | b in recyclable :: Flagged(s, b, Recyclable)
    modifies allocators[i], heap.memory, heap.freeList, heap.recyclableList, heap`state
    ensures ok ==> Resetting(heap, allocators, nexts, s, recyclable, i + 1)
    ensures !ok ==> heap.Sound() && !heap.MayGrow(largeSize) && heap.freeList.contents == []
    ensures ok ==> heap.state.live == old(heap.state.live) && heap.state.held == old(heap.state.held)
  {
    hide *;
    ghost var t, a, st := heap.memory.space, allocators[i], heap.state;
    ResettingParts(heap, allocators, nexts, s, recyclable, i);
    AfterNext(recyclable, i);
    ok := allocators[i].Reset(largeSize);
    if ok {
      SameCursor(s, t, recyclable, i, nexts[i], a.main);
      SameFlagsTwice(s, t, heap.memory.space);
      SameObjectSets(st, heap.state, a.id);
      ResetIs(s, recyclable, i, nexts[i], a);
      forall j | 0 <= j < |allocators| && j != i
        ensures allocators[j].main == old(allocators[j].main) && allocators[j].overflow == old(allocators[j].overflow)
        ensures j < i ==> ResetTo(heap.state.regions, s, recyclable, j, nexts[j],
                  allocators[j].id, allocators[j].main, allocators[j].overflow)
      {
        Different(heap, allocators, i, j);
        if j < i {
          var b := allocators[j];
          ResetKept(st, heap.state, a.id, s, recyclable, j, nexts[j], b.id, b.main, b.overflow);
        }
      }
      ResettingNext(heap, allocators, nexts, s, recyclable, i);
    }
  }

  lemma ResettingParts(heap: SmallHeap, allocators: seq<LocalAllocator>, nexts: seq<nat>, s: Space,
      recyclable: seq<nat>, i: nat)
    requires Registered(heap, allocators) && i < |allocators| && Resetting(heap, allocators, nexts, s, recyclable, i)
    requires s.low < s.high
    ensures heap.Valid() && SameFlags(s, heap.memory.space) && |nexts| == |allocators|
    ensures heap.memory.space.low < heap.memory.space.high
    ensures allocators[i].heap == heap && heap.recyclableList.contents == After(recyclable, i)
    ensures forall j | i <= j < |allocators| :: allocators[j].main.next == nexts[j]
    ensures forall j | 0 <= j < i :: ResetTo(heap.state.regions, s, recyclable, j, nexts[j],
                  allocators[j].id, allocators[j].main, allocators[j].overflow)
  {
  }

  lemma ResetParts(heap: SmallHeap, allocators: seq<LocalAllocator>, nexts: seq<nat>, s: Space, recyclable: seq<nat>)
    requires Registered(heap, allocators) && Resetting(heap, allocators, nexts, s, recyclable, |allocators|)
    ensures heap.Valid() && heap.state.space.low == s.low && |heap.state.space.words| == |s.words|
  {
  }

  lemma RegisteredAt(heap: SmallHeap, allocators: seq<LocalAllocator>, i: nat)
    requires Registered(heap, allocators) && i < |allocators|
    ensures allocators[i].heap == heap
  {
  }

  lemma ResetAt(heap: SmallHeap, allocators: seq<LocalAllocator>, nexts: seq<nat>, s: Space,
      recyclable: seq<nat>, i: nat)
    requires Registered(heap, allocators) && Resetting(heap, allocators, nexts, s, recyclable, |allocators|)
    requires i < |allocators|
    ensures heap.Valid() && i < |nexts| && FirstCursor(s, After(recyclable, i), nexts[i], allocators[i].main)
    ensures heap.memory.space.low == s.low && s.high <= heap.memory.space.high
    ensures heap.recyclableList.contents == After(recyclable, |allocators|)
    ensures heap.recyclableList.contents != [] <==> |recyclable| > |allocators|
    ensures 2 * allocators[i].id + 1 in heap.state.regions
    ensures heap.state.regions[2 * allocators[i].id + 1] == allocators[i].overflow
    ensures allocators[i].heap == heap
    ensures if nexts[i] == 0 || i < |recyclable| then allocators[i].Valid() else allocators[i].Stranded()
  {
    hide ResetTo, SameFlags, Inv, Linked, Unusable, Flagged, FirstCursor, LocalAllocator.Valid, LocalAllocator.Stranded;
    var a := allocators[i];
    assert ResetTo(heap.state.regions, s, recyclable, i, nexts[i], a.id, a.main, a.overflow);
    SameBounded(s, heap.memory.space);
    OneReset(a, s, recyclable, i, nexts[i]);
  }

  lemma SameBounded(s: Space, t: Space)
    requires SameFlags(s, t)
    ensures t.low == s.low && s.high <= t.high
  {
  }

  lemma OneReset(a: LocalAllocator, s: Space, recyclable: seq<nat>, i: nat, next: nat)
    requires a.heap.Valid() && ResetTo(a.heap.state.regions, s, recyclable, i, next, a.id, a.main, a.overflow)
    ensures FirstCursor(s, After(recyclable, i), next, a.main)
    ensures 2 * a.id + 1 in a.heap.state.regions && a.heap.state.regions[2 * a.id + 1] == a.overflow
    ensures if next == 0 || i < |recyclable| then a.Valid() else a.Stranded()
  {
    hide Inv, Linked, Unusable, Flagged;
  }

  lemma ResettingNext(heap: SmallHeap, allocators: seq<LocalAllocator>, nexts: seq<nat>, s: Space,
      recyclable: seq<nat>, i: nat)
    requires Registered(heap, allocators) && i < |allocators| == |nexts|
    requires heap.Valid() && SameFlags(s, heap.memory.space)
    requires heap.recyclableList.contents == After(recyclable, i + 1)
    requires forall j | i < j < |allocators| :: allocators[j].main.next == nexts[j]
    requires forall j | 0 <= j < i :: ResetTo(heap.state.regions, s, recyclable, j, nexts[j],
                  allocators[j].id, allocators[j].main, allocators[j].overflow)
    requires ResetTo(heap.state.regions, s, recyclable, i, nexts[i],
                  allocators[i].id, allocators[i].main, allocators[i].overflow)
    ensures Resetting(heap, allocators, nexts, s, recyclable, i + 1)
  {
    hide ResetTo, After, SameFlags;
  }

  lemma SameObjectSets(st: State, st': State, id: nat)
    requires Undisturbed(st, st', id)
    ensures st'.live == st.live && st'.held == st.held
  {
  }

  lemma ResetIs(s: Space, recyclable: seq<nat>, i: nat, next: nat, a: LocalAllocator)
    requires FirstCursor(s, After(recyclable, i), next, a.main)
    requires if next == 0 || After(recyclable, i) != [] then a.Valid() else a.Stranded() && Unusable(a.main)
    ensures ResetTo(a.heap.state.regions, s, recyclable, i, next, a.id, a.main, a.overflow)
  {
    AfterNext(recyclable, i);
    hide FirstCursor, Unusable;
  }

  lemma Different(heap: SmallHeap, allocators: seq<LocalAllocator>, i: nat, j: nat)
    requires Registered(heap, allocators) && i < |allocators| && j < |allocators| && i != j
    ensures allocators[i] != allocators[j] && allocators[i].id != allocators[j].id
    ensures allocators[i].heap == allocators[j].heap == heap
  {
  }

  // What one allocator does to the heap leaves the others attached.
  lemma ResetKept(st: State, st': State, id': nat, s: Space, recyclable: seq<nat>, i: nat, next: nat, id: nat,
      main: Region, overflow: Region)
    requires Undisturbed(st, st', id') && id != id'
    requires ResetTo(st.regions, s, recyclable, i, next, id, main, overflow)
    ensures ResetTo(st'.regions, s, recyclable, i, next, id, main, overflow)
  {
    hide FirstCursor, Unusable;
  }

  // The reset of every local allocator after a collection.  One recyclable block
  // goes to each allocator in turn, while there is one; an allocator that gets none
  // is sound exactly if it had no holes left before the collection.
  method ResetAll(heap: SmallHeap, allocators: seq<LocalAllocator>, largeSize: nat) returns (ok: bool)
    requires heap.Valid() && heap.memory.space.low < heap.memory.space.high && Registered(heap, allocators)
    modifies (set a | a in allocators), heap.memory, heap.freeList, heap.recyclableList, heap`state
    ensures ok ==> Resetting(heap, allocators, old(Nexts(allocators)), old(heap.memory.space),
                             old(heap.recyclableList.contents), |allocators|)
    ensures !ok ==> heap.Sound() && !heap.MayGrow(largeSize) && heap.freeList.contents == []
    ensures ok ==> heap.state.live == old(heap.state.live) && heap.state.held == old(heap.state.held)
  {
    ghost var s, recyclable := heap.memory.space, heap.recyclableList.contents;
    ghost var nexts := Nexts(allocators);
    heap.RecyclableFlags();
    heap.Basics();
    SameFlagsSelf(s);
    AfterNext(recyclable, 0);
    hide Inv, Linked, Flagged, SameFlags, After, ResetTo;
    ok := true;
    for i := 0 to |allocators|
      invariant ok && Resetting(heap, allocators, nexts, s, recyclable, i)
      invariant heap.state.live == old(heap.state.live) && heap.state.held == old(heap.state.held)
    {
      hide Resetting;
      ok := ResetOne(heap, allocators, largeSize, i, nexts, s, recyclable);
      if !ok {
        return;
      }
    }
  }

  lemma SameFlagsSelf(s: Space)
    requires Shape(s)
    ensures SameFlags(s, s)
  {
  }

  // ---------------------------------------------------------------- the collector

  class Collector {
    const heap: SmallHeap
    const large: LargeHeap
    const roots: Stack
    const finalizers: Hash

    constructor (heap: SmallHeap, large: LargeHeap, roots: Stack, finalizers: Hash)
      ensures this.heap == heap && this.large == large && this.roots == roots && this.finalizers == finalizers
    {
      this.heap := heap;
      this.large := large;
      this.roots := roots;
      this.finalizers := finalizers;
    }

    // The areas mapped for the two heaps are disjoint parts of memory, the root
    // ranges lie in memory, and the stack has room for all of it.  This depends on
    // nothing that changes.
    ghost predicate Mapped(ranges: seq<Range>, low: nat, words: nat) {
      && (BLOCK * heap.reserved <= large.start || large.reserved <= BLOCK * low)
      && large.reserved <= words && 16 * large.reserved < TWO_64
      && (forall r | r in ranges :: r.bottom <= words)
      && |ranges| + BLOCK * (heap.reserved - low) + (large.reserved - large.start) <= roots.Capacity()
    }

    ghost predicate Prepared(ranges: seq<Range>)
      reads this, heap, heap.memory, heap.freeList, heap.recyclableList, large, large.list, roots, roots.buffer,
            finalizers, finalizers.entries
    {
      && heap.Valid() && large.Valid() && roots.Valid() && roots.Contents() == [] && finalizers.Valid()
      && Mapped(ranges, heap.memory.space.low, |heap.memory.space.words|)
    }

    // The size of the large heap in bytes.
    function LargeSize(): nat
      reads large
    {
      if large.start <= large.stop then 8 * (large.stop - large.start) else 0
    }

    // No block is free, and the memory limit forbids the small heap to grow.
    ghost predicate AtLimit()
      reads heap, heap.freeList, heap.recyclableList, heap.memory, large
    {
      heap.Sound() && heap.freeList.contents == [] && !heap.MayGrow(LargeSize())
    }

    lemma LimitIs()
      requires heap.Sound() && heap.freeList.contents == []
      ensures AtLimit() <==> !heap.MayGrow(LargeSize())
    {
      hide Linked;
    }

    lemma LimitExact()
      requires AtLimit() && large.start <= large.stop
      ensures Shape(heap.memory.space)
      ensures var n := heap.memory.space.high - heap.memory.space.low;
              BLOCK_BYTES * n + 8 * (large.stop - large.start) + Increment(n) > heap.memoryLimit
    {
      hide Linked;
      heap.SameLimit(heap.memory.space, LargeSize());
    }

    lemma StillPrepared(ranges: seq<Range>, s: Space)
      requires heap.Valid() && large.Valid() && roots.Valid() && roots.Contents() == [] && finalizers.Valid()
      requires Mapped(ranges, s.low, |s.words|)
      requires heap.state.space.low == s.low && |heap.state.space.words| == |s.words|
      ensures Prepared(ranges)
    {
      hide Tiles, Lists, Inv, Linked;
    }

    lemma PreparedParts(ranges: seq<Range>)
      requires Prepared(ranges)
      ensures heap.Valid() && large.Valid() && roots.Valid() && roots.Contents() == [] && finalizers.Valid()
      ensures Mapped(ranges, heap.memory.space.low, |heap.memory.space.words|)
      ensures heap.state.space == heap.memory.space && heap.freeList != heap.recyclableList
      ensures WF(heap.memory.space) && heap.Bounds(heap.memory.space)
      ensures large.list.Valid() && Tiles(large.list.chunks, large.start, large.stop) && large.Within()
    {
      heap.Basics();
    }

    // The areas in use are inside the mapped ones.
    lemma InUseParts(ranges: seq<Range>, s: Space)
      requires Mapped(ranges, s.low, |s.words|) && heap.Bounds(s) && large.Valid() && Shape(s)
      ensures HeapsApart(s, large.start, large.stop) && large.start <= large.stop <= |s.words|
      ensures 8 * large.stop < TWO_64 / 2
      ensures forall r | r in ranges :: r.bottom <= |s.words|
      ensures |ranges| + (Stop(s) - Start(s)) + (large.stop - large.start) <= roots.Capacity()
    {
      TilesSum(large.list.chunks, large.start, large.stop);
    }

    // Phases 1 to 3.
    method TraceBoth(ranges: seq<Range>) returns (ghost w: World, ghost m: set<Ref>)
      requires Prepared(ranges)
      modifies heap.memory, large.list`headers, large.list`chunks, roots, roots.buffer
      ensures Traced(old(heap.memory.space), old(large.list.chunks), large.start, large.stop, ranges, w, m)
      ensures Marked(w, m, heap.memory.space, large.list.chunks) && large.list.Valid()
      ensures roots.Valid() && roots.Contents() == []
    {
      hide *;
      ghost var s := heap.memory.space;
      PreparedParts(ranges);
      ShapeOf(s);
      InUseParts(ranges, s);
      w, m := Trace(heap.memory, large.list, roots, large.start, large.stop, ranges);
      MarkedParts(w, m, heap.memory.space, large.list.chunks);
      TracedIs(s, old(large.list.chunks), large.start, large.stop, ranges, w, m);
    }

    // GlobalAllocator_finalizeObjects, after marking.
    method Finalize(ghost w: World, ghost m: set<Ref>) returns (ghost gone: seq<nat>)
      requires Marked(w, m, heap.memory.space, large.list.chunks) && large.list.Valid() && finalizers.Valid()
      requires w.start == large.start && w.stop == large.stop && HeapsApart(w.space, w.start, w.stop)
      modifies finalizers, finalizers.entries
      ensures finalizers.Valid() && Finalized(old(finalizers.Map()), finalizers.Map(), gone, w, m)
    {
      var space, headers, start, stop := heap.memory.space, large.list.headers, large.start, large.stop;
      gone := finalizers.DeleteIf((key: nat, value: nat) => !ObjectMarked(space, headers, start, stop, key));
      forall key | key in old(finalizers.Map()) && Shape(w.space) && IsObject(w, key)
        ensures key in gone <==> !Survives(w, m, key)
      {
        CallbackExact(w, m, space, large.list, key);
      }
    }

    // GC_Collector_collect.  w is the memory after the unmark phase.  Everything is
    // ready for the next collection exactly if no merge overflowed.
    method Collect(ranges: seq<Range>) returns (ghost w: World, ghost m: set<Ref>, ghost gone: seq<nat>)
      requires Prepared(ranges)
      modifies heap.memory, heap.freeList, heap.recyclableList, heap`state, large.list, roots, roots.buffer,
               finalizers, finalizers.entries
      ensures Traced(old(heap.memory.space), old(large.list.chunks), large.start, large.stop, ranges, w, m)
      ensures heap.Valid() && CollectStep(old(heap.state), Smalls(m), heap.state)
      ensures large.list.Valid() && large.list.chunks == SweepCode(MarkedChunks(w.chunks, m))
      ensures L.Step(old(large.Area()), L.Collect(Larges(m)), large.Area())
      ensures finalizers.Valid() && Finalized(old(finalizers.Map()), finalizers.Map(), gone, w, m)
      ensures roots.Valid() && roots.Contents() == []
      ensures Prepared(ranges) <==> !Overflows(MarkedChunks(w.chunks, m))
      ensures L.Guard(old(large.Area()), L.Collect(Larges(m))) <==> !Overflows(MarkedChunks(w.chunks, m))
      ensures old(Keyed()) ==> forall key | key in old(finalizers.Map()) :: key in gone <==> !Survives(w, m, key)
      ensures old(Keyed()) && !Overflows(MarkedChunks(w.chunks, m)) ==> Keyed()
      ensures CollectionStep(old(Now()), Collection(w, ranges, m), gone, Now(), large.start)
    {
      hide *;
      PreparedParts(ranges);
      ghost var st, s, cs := heap.state, heap.memory.space, large.list.chunks;
      ShapeOf(s);
      InUseParts(ranges, s);
      large.AreaIs();
      heap.Basics();
      NowIs();
      ghost var table, keyed, now := finalizers.Map(), Keyed(), Now();
      KeyedIs();
      w, m := TraceBoth(ranges);
      TracedParts(s, cs, large.start, large.stop, ranges, w, m);
      CollectIsStep(s, cs, large.start, large.stop, ranges, w, m);
      MarkedParts(w, m, heap.memory.space, large.list.chunks);
      heap.SameArea(s, w.space);
      gone := Finalize(w, m);
      SweepSmall(heap, w.space, Smalls(m));
      large.list.Sweep();
      large.AreaIs();
      LargeAgain(cs, w, m, large.start, large.stop);
      CollectedParts(st, Smalls(m), heap.state);
      PreparedAgain(ranges, s, MarkedChunks(w.chunks, m));
      NowIs();
      CollectionIs(now, Collection(w, ranges, m), gone, Now(), large.start);
      if keyed {
        KeyedAgain(st, cs, ranges, w, m, table, gone);
      }
    }

    // The state of the two heaps and of the table of finalizers.
    ghost function Now(): Heaps
      reads this, heap, large, large.list, finalizers, finalizers.entries
    {
      Heaps(heap.state, large.Area(), finalizers.Map())
    }

    lemma NowIs()
      ensures Now() == Heaps(heap.state, L.State(large.list.chunks, large.stop), finalizers.Map())
    {
    }

    // Every finalizer is registered for an object.
    ghost predicate Keyed()
      reads this, heap, large, large.list, finalizers, finalizers.entries
    {
      KeysOK(finalizers.Map(), heap.state.held, large.list.chunks)
    }

    // What is prepared for a collection is a sound state of a run.
    lemma PreparedOK(ranges: seq<Range>)
      requires Prepared(ranges) && Keyed()
      ensures HeapsOK(Now(), large.start)
    {
      hide Inv, Tiles, Lists, Linked, KeysOK, Mapped, HeapsApart;
      PreparedParts(ranges);
      InUseParts(ranges, heap.memory.space);
    }

    lemma KeyedIs()
      ensures Keyed() <==> KeysOK(finalizers.Map(), heap.state.held, large.list.chunks)
    {
    }

    lemma KeyedAgain(st: Safe, cs: seq<Chunk>, ranges: seq<Range>, w: World, m: set<Ref>, table: map<nat, nat>,
        gone: seq<nat>)
      requires Traced(st.space, cs, large.start, large.stop, ranges, w, m) && KeysOK(table, st.held, cs)
      requires Tiles(cs, large.start, large.stop) && 8 * large.stop < TWO_64 / 2
      requires Finalized(table, finalizers.Map(), gone, w, m)
      requires heap.state.held == Smalls(m) && large.list.chunks == SweepCode(MarkedChunks(w.chunks, m))
      ensures forall key | key in table :: key in gone <==> !Survives(w, m, key)
      ensures !Overflows(MarkedChunks(w.chunks, m)) ==> Keyed()
    {
      hide Inv, Traced, KeysOK, Tiles, Overflows, Finalized;
      AllFinalized(st, cs, large.start, large.stop, ranges, w, m, table, finalizers.Map(), gone);
      if !Overflows(MarkedChunks(w.chunks, m)) {
        KeysKept(st, cs, large.start, large.stop, ranges, w, m, table, finalizers.Map(), gone);
      }
    }

    // GC_register_finalizer
    method RegisterFinalizer(o: nat, callback: nat) returns (ok: bool)
      requires finalizers.Valid()
      modifies finalizers, finalizers.entries
      ensures var exact := old(HashTables.NoTombstoneBefore(finalizers.entries[..], finalizers.hash, o));
              && (ok ==> (finalizers.Valid() <==> exact))
              && (ok && exact ==> finalizers.Map() == old(finalizers.Map())[o := callback])
              && (ok && exact && old(Keyed()) && (o in heap.state.held || IsChunkKey(large.list.chunks, o)) ==>
                    Keyed())
      ensures !ok ==> finalizers.Map() == old(finalizers.Map())
    {
      ok := finalizers.Insert(o, callback);
    }

    lemma PreparedAgain(ranges: seq<Range>, s: Space, cs: seq<Chunk>)
      requires heap.Valid() && large.list.Valid() && roots.Valid() && roots.Contents() == [] && finalizers.Valid()
      requires Mapped(ranges, s.low, |s.words|)
      requires heap.state.space.low == s.low && |heap.state.space.words| == |s.words|
      requires large.Within()
      requires Tiles(large.list.chunks, large.start, large.stop) <==> !Overflows(cs)
      ensures Prepared(ranges) <==> !Overflows(cs)
    {
      hide Overflows, Tiles, Lists, Inv, Linked;
    }

    // GC_collect_once: a collection, then a reset of every local allocator.
    // `after` is the state between the two.
    method CollectOnce(ranges: seq<Range>, allocators: seq<LocalAllocator>)
      returns (ok: bool, ghost w: World, ghost m: set<Ref>, ghost gone: seq<nat>, ghost after: State)
      requires Prepared(ranges) && Registered(heap, allocators) && heap.memory.space.low < heap.memory.space.high
      modifies (set a | a in allocators), heap.memory, heap.freeList, heap.recyclableList, heap`state, large.list,
               roots, roots.buffer, finalizers, finalizers.entries
      ensures Traced(old(heap.memory.space), old(large.list.chunks), large.start, large.stop, ranges, w, m)
      ensures CollectStep(old(heap.state), Smalls(m), after)
      ensures ok ==> Resetting(heap, allocators, old(Nexts(allocators)), after.space, after.recyclable, |allocators|)
      ensures !ok ==> AtLimit() && heap.freeList.contents == []
      ensures ok ==> heap.state.live == after.live && heap.state.held == after.held
      ensures large.list.Valid() && large.list.chunks == SweepCode(MarkedChunks(w.chunks, m))
      ensures L.Step(old(large.Area()), L.Collect(Larges(m)), large.Area())
      ensures finalizers.Valid() && Finalized(old(finalizers.Map()), finalizers.Map(), gone, w, m)
      ensures ok ==> (Prepared(ranges) <==> !Overflows(MarkedChunks(w.chunks, m)))
      ensures old(Keyed()) ==> forall key | key in old(finalizers.Map()) :: key in gone <==> !Survives(w, m, key)
      ensures ok && old(Keyed()) && !Overflows(MarkedChunks(w.chunks, m)) ==> Keyed()
    {
      hide *;
      PreparedParts(ranges);
      ghost var st, s, cs := heap.state, heap.memory.space, large.list.chunks;
      ShapeOf(s);
      InUseParts(ranges, s);
      w, m, gone := Collect(ranges);
      after := heap.state;
      TracedParts(s, cs, large.start, large.stop, ranges, w, m);
      CollectedParts(st, Smalls(m), after);
      heap.Basics();
      KeyedIs();
      var largeSize := LargeSize();
      ok := ResetAll(heap, allocators, largeSize);
      if !ok {
        LimitIs();
      } else {
        KeyedIs();
        ResetParts(heap, allocators, old(Nexts(allocators)), after.space, after.recyclable);
        LargeAgain(cs, w, m, large.start, large.stop);
        PreparedAgain(ranges, s, MarkedChunks(w.chunks, m));
      }
    }

    // LocalAllocator_initCursor with the collection that nextBlock may start when both
    // lists are empty.  The collection resets this allocator too; after that its new
    // cursor is sound exactly if the block it got in the reset has no second hole, or
    // if there are more recyclable blocks than allocators.
    method InitCursor(ranges: seq<Range>, allocators: seq<LocalAllocator>, i: nat, due: bool)
      returns (ok: bool, collects: bool, ghost m: set<Ref>, ghost after: State, ghost between: Region)
      requires Prepared(ranges) && Registered(heap, allocators) && heap.memory.space.low < heap.memory.space.high
      requires i < |allocators|
      modifies (set a | a in allocators), heap.memory, heap.freeList, heap.recyclableList, heap`state, large.list,
               roots, roots.buffer, finalizers, finalizers.entries
      ensures collects == (due && old(heap.state.free) == old(heap.state.recyclable) == [])
      ensures !ok ==> AtLimit() && heap.freeList.contents == []
      ensures old(heap.state.recyclable) != [] || old(heap.state.free) != [] ==> ok && !collects
      ensures !collects && old(heap.state.recyclable) != [] ==> heap.state.free == old(heap.state.free)
      ensures old(heap.state.recyclable) != [] || old(heap.state.free) != [] ==>
                heap.memory.space == old(heap.memory.space)
      ensures !collects ==> finalizers.entries == old(finalizers.entries) && (ok ==> Prepared(ranges))
      ensures ok ==> heap.memory.space.low < heap.memory.space.high
      ensures !collects && ok ==>
                && heap.Valid()
                && Started(old(heap.state), heap.state, allocators[i].Key(), allocators[i].main, allocators[i].id,
                           old(allocators[i].main.next == 0 || heap.state.recyclable != []))
                && Refilled(old(heap.state), heap.state, allocators[i].main)
                && allocators[i].overflow == old(allocators[i].overflow)
      ensures collects ==> CollectStep(old(heap.state), Smalls(m), after)
      ensures collects && ok ==>
                && heap.Valid() && heap.state.live == after.live && heap.state.held == after.held
                && FirstCursor(after.space, After(after.recyclable, i), old(allocators[i].main.next), between)
                && Restarted(heap.state, allocators[i].id, between.next, after.recyclable, |allocators|,
                             allocators[i].main, allocators[i].overflow)
    {
      hide *;
      PreparedParts(ranges);
      heap.Basics();
      ghost var st, s := heap.state, heap.memory.space;
      ShapeOf(s);
      InUseParts(ranges, s);
      RegisteredAt(heap, allocators, i);
      var largeSize := LargeSize();
      ok, m, after, between := true, {}, st, allocators[i].main;
      heap.EmptyLists();
      collects := heap.recyclableList.IsEmpty() && heap.freeList.IsEmpty() && due;
      if collects {
        ghost var w, gone;
        ok, w, m, gone, after := CollectOnce(ranges, allocators);
        if !ok {
          return;
        }
        CollectedParts(st, Smalls(m), after);
        ResetAt(heap, allocators, old(Nexts(allocators)), after.space, after.recyclable, i);
        between := allocators[i].main;
        heap.Basics();
      }
      ghost var before, t := heap.state, heap.memory.space;
      ghost var usable := old(allocators[i].main.next == 0 || heap.state.recyclable != []);
      ok := allocators[i].StartMain(largeSize);
      if !ok {
        LimitIs();
      } else if !collects {
        heap.Basics();
        StartedParts(before, heap.state, allocators[i].Key(), allocators[i].main, allocators[i].id, usable);
        StillPrepared(ranges, s);
      } else {
        RestartedIs(before, heap.state, t, allocators[i], between.next, after.recyclable, |allocators|);
      }
    }

    // LocalAllocator_initOverflowCursor with the collection that nextFreeBlock may
    // start when there is no free block.
    method InitOverflowCursor(ranges: seq<Range>, allocators: seq<LocalAllocator>, i: nat, due: bool)
      returns (ok: bool, collects: bool, ghost m: set<Ref>, ghost after: State)
      requires Prepared(ranges) && Registered(heap, allocators) && heap.memory.space.low < heap.memory.space.high
      requires i < |allocators|
      modifies (set a | a in allocators), heap.memory, heap.freeList, heap.recyclableList, heap`state, large.list,
               roots, roots.buffer, finalizers, finalizers.entries
      ensures collects == (due && old(heap.state.free) == [])
      ensures collects ==> CollectStep(old(heap.state), Smalls(m), after)
      ensures !collects ==> after == old(heap.state)
      ensures !ok ==> AtLimit() && heap.freeList.contents == []
      ensures old(heap.state.free) != [] ==>
                ok && !collects && heap.memory.space == old(heap.memory.space)
      ensures !collects && ok ==>
                && Undisturbed(old(heap.state), heap.state, allocators[i].id)
                && (old(allocators[i].Valid()) ==> allocators[i].Valid())
      ensures collects && ok ==>
                if old(allocators[i].main.next) == 0 || i < |after.recyclable| then allocators[i].Valid()
                else allocators[i].Stranded()
      ensures ok ==>
                && heap.Valid() && heap.state.live == after.live && heap.state.held == after.held
                && 2 * allocators[i].id + 1 in heap.state.regions
                && heap.state.regions[2 * allocators[i].id + 1] == allocators[i].overflow
                && allocators[i].overflow.limit - allocators[i].overflow.pos == BLOCK - LINE
    {
      hide *;
      PreparedParts(ranges);
      heap.Basics();
      ghost var st, s := heap.state, heap.memory.space;
      ShapeOf(s);
      InUseParts(ranges, s);
      RegisteredAt(heap, allocators, i);
      var largeSize := LargeSize();
      ok, m, after := true, {}, st;
      heap.EmptyLists();
      collects := heap.freeList.IsEmpty() && due;
      if collects {
        ghost var w, gone;
        ok, w, m, gone, after := CollectOnce(ranges, allocators);
        if !ok {
          return;
        }
        CollectedParts(st, Smalls(m), after);
        ResetAt(heap, allocators, old(Nexts(allocators)), after.space, after.recyclable, i);
        heap.Basics();
      }
      ghost var before := heap.state;
      ValidParts(allocators[i]);
      ok := allocators[i].StartOverflow(largeSize);
      if !ok {
        LimitIs();
      } else {
        OverflowStartedIs(before, heap.state, allocators[i]);
        if 2 * allocators[i].id in before.regions {
          StillValid(allocators[i], before);
        }
      }
    }

    // A medium object that overflows, with the collection that nextFreeBlock may start;
    // mid is the state before the object is there.
    method OverflowAllocateSmall(ranges: seq<Range>, allocators: seq<LocalAllocator>, i: nat, n: nat, atomic: bool,
        due: bool)
      returns (ok: bool, o: nat, collects: bool, ghost m: set<Ref>, ghost after: State, ghost mid: Safe)
      requires Prepared(ranges) && Registered(heap, allocators) && heap.memory.space.low < heap.memory.space.high
      requires i < |allocators| && allocators[i].Valid() && HEADER <= n <= LARGE
      modifies (set a | a in allocators), heap.memory, heap.freeList, heap.recyclableList, heap`state, large.list,
               roots, roots.buffer, finalizers, finalizers.entries
      ensures !ok ==> AtLimit() && heap.freeList.contents == []
      ensures old(allocators[i].overflow.pos + n <= allocators[i].overflow.limit) ==>
                ok && !collects && o == old(allocators[i].overflow.pos)
      ensures old(heap.state.free) != [] ==> ok && !collects
      ensures collects <==> due && old(heap.state.free) == []
                            && old(allocators[i].overflow.pos + n > allocators[i].overflow.limit)
      ensures due && !collects ==> ok && heap.memory.space.high == old(heap.memory.space.high)
      ensures ok ==> NewObject(mid, heap.state, o, n, atomic, allocators[i].id)
      ensures ok && !collects ==> allocators[i].Valid() && Undisturbed(old(heap.state), mid, allocators[i].id)
      ensures collects ==> CollectStep(old(heap.state), Smalls(m), after)
      ensures ok && collects ==> (allocators[i].Valid() || allocators[i].Stranded())
                                 && mid.live == after.live && mid.held == after.held
    {
      hide *;
      RegisteredAt(heap, allocators, i);
      var a := allocators[i];
      a.Keys();
      SmallSizes();
      UndisturbedSelf(heap.state, a.id);
      ok, o, collects, m, after, mid := true, 0, false, {}, heap.state, heap.state;
      if a.overflow.pos + n > a.overflow.limit {
        ok, collects, m, after := InitOverflowCursor(ranges, allocators, i, due);
        if !ok {
          return;
        }
      }
      mid := heap.state;
      o := a.BumpOverflow(n, atomic);
      AllocatedIsNew(mid, a.OverflowKey(), n, atomic, a.id);
    }

    // GC_LocalAllocator_allocateSmall with the collection that a request for a block may
    // start: before and after are the states around it, mid is the state before the
    // object is there.  The request never meets the stale list that may be left behind.
    method AllocateSmall(ranges: seq<Range>, allocators: seq<LocalAllocator>, i: nat, size: nat, atomic: bool,
        due: bool)
      returns (ok: bool, pointer: nat, collects: bool, ghost m: set<Ref>, ghost before: State,
               ghost after: State, ghost mid: State)
      requires Prepared(ranges) && Registered(heap, allocators) && heap.memory.space.low < heap.memory.space.high
      requires i < |allocators| && allocators[i].Valid() && ObjectWords(size) <= LARGE
      modifies (set a | a in allocators), heap.memory, heap.freeList, heap.recyclableList, heap`state, large.list,
               roots, roots.buffer, finalizers, finalizers.entries
      ensures !ok ==> AtLimit() && heap.freeList.contents == []
      ensures old(allocators[i].main.pos + ObjectWords(size) <= allocators[i].main.limit) ==>
                ok && !collects && pointer == old(allocators[i].main.pos) + HEADER
      ensures old(heap.state.free) != [] ==> ok && !collects
      ensures collects ==> due && before.free == []
      ensures due && !collects ==> ok && heap.memory.space.high == old(heap.memory.space.high)
      ensures ok ==> pointer >= HEADER
                     && NewObject(mid, heap.state, pointer - HEADER, ObjectWords(size), atomic, allocators[i].id)
      ensures ok && !collects ==> allocators[i].Valid() && Undisturbed(old(heap.state), mid, allocators[i].id)
      ensures collects ==>
                Undisturbed(old(heap.state), before, allocators[i].id) && CollectStep(before, Smalls(m), after)
      ensures ok && collects ==> (allocators[i].Valid() || allocators[i].Stranded())
                                 && mid.live == after.live && mid.held == after.held
    {
      hide *;
      SmallRequest(size);
      RegisteredAt(heap, allocators, i);
      var a, n := allocators[i], ObjectWords(size);
      a.Keys();
      SmallSizes();
      ghost var st := heap.state;
      UndisturbedSelf(st, a.id);
      ok, pointer, collects, m, before, after, mid := true, 0, false, {}, st, st, st;
      while true
        invariant ok && !collects && finalizers.entries == old(finalizers.entries)
        invariant Prepared(ranges) && a.Valid() && Undisturbed(st, heap.state, a.id)
        invariant heap.memory.space.low < heap.memory.space.high
        invariant due ==> heap.memory.space.high == old(heap.memory.space.high)
        invariant a.main == old(allocators[i].main)
                  || old(allocators[i].main.pos + n > allocators[i].main.limit)
        invariant old(heap.state.free) != [] ==>
                    heap.state.free == old(heap.state.free) || a.main.pos + n <= a.main.limit
        decreases |heap.state.recyclable|, if a.main.pos + n <= a.main.limit then 0 else 1
      {
        PreparedParts(ranges);
        ghost var pre, s := heap.state, heap.memory.space;
        var fits, overflows := a.ScanHoles(n);
        ValidParts(a);
        UndisturbedOn(st, pre, heap.state, a.id);
        UndisturbedOn(pre, pre, heap.state, a.id);
        StillPrepared(ranges, s);
        heap.Basics();
        before := heap.state;
        if fits {
          mid := heap.state;
          var o := a.BumpMain(n, atomic);
          AllocatedIsNew(mid, a.Key(), n, atomic, a.id);
          return true, o + HEADER, false, {}, before, before, mid;
        }
        if overflows {
          var o;
          ok, o, collects, m, after, mid := OverflowAllocateSmall(ranges, allocators, i, n, atomic, due);
          UndisturbedOn(st, before, mid, a.id);
          return ok, o + HEADER, collects, m, before, after, mid;
        }
        ghost var between;
        ok, collects, m, after, between := InitCursor(ranges, allocators, i, due);
        if !ok {
          return;
        }
        if collects {
          RestartedAllocator(a, between.next, after.recyclable, |allocators|);
          mid := heap.state;
          ok, pointer := a.AllocateFitting(size, atomic, LargeSize());
          if !ok {
            LimitIs();
          }
          return;
        }
        StartedAllocator(before, a);
        UndisturbedOn(st, before, heap.state, a.id);
      }
    }

    // A collection, and whether its sweep broke the list.
    method CollectChecked(ranges: seq<Range>, allocators: seq<LocalAllocator>)
      returns (reset: bool, broken: bool, ghost w: World, ghost m: set<Ref>)
      requires Prepared(ranges) && Registered(heap, allocators) && heap.memory.space.low < heap.memory.space.high
      modifies (set a | a in allocators), heap.memory, heap.freeList, heap.recyclableList, heap`state, large.list,
               roots, roots.buffer, finalizers, finalizers.entries
      ensures Traced(old(heap.memory.space), old(large.list.chunks), large.start, large.stop, ranges, w, m)
      ensures large.list.chunks == SweepCode(MarkedChunks(w.chunks, m))
      ensures !reset ==> AtLimit() && heap.freeList.contents == []
      ensures broken <==> reset && Overflows(MarkedChunks(w.chunks, m))
      ensures reset && !broken ==> Prepared(ranges)
    {
      hide *;
      PreparedParts(ranges);
      ghost var s, cs := heap.memory.space, large.list.chunks;
      ShapeOf(s);
      InUseParts(ranges, s);
      ghost var gone, after;
      broken := false;
      reset, w, m, gone, after := CollectOnce(ranges, allocators);
      if reset {
        var sound := large.list.Validate(large.stop);
        TracedParts(s, cs, large.start, large.stop, ranges, w, m);
        SweepSound(cs, w, m, large.start, large.stop);
        broken := !sound;
      }
    }

    // GC_GlobalAllocator_allocateLarge with the collection it may start, which aborts if
    // a local allocator cannot be reset.  Where the sweep broke the list, which validate
    // notices, the model does not follow the code further.  The final attempt is made on
    // the list `tried`.
    method AllocateLarge(ranges: seq<Range>, allocators: seq<LocalAllocator>, size: nat, atomic: bool, due: bool)
      returns (ok: bool, pointer: nat, collects: bool, reset: bool, broken: bool, ghost w: World, ghost m: set<Ref>,
               ghost tried: seq<Chunk>)
      requires Prepared(ranges) && Registered(heap, allocators) && heap.memory.space.low < heap.memory.space.high
      modifies (set a | a in allocators), heap.memory, heap.freeList, heap.recyclableList, heap`state, large`stop,
               large.list, roots, roots.buffer, finalizers, finalizers.entries
      ensures collects <==>
                due && forall i | 0 <= i < |old(large.list.chunks)| ::
                         old(large.list.chunks)[i].used
                         || 8 * old(large.list.chunks)[i].size < size + 8 * OBJECT_HEADER
      ensures collects ==>
                Traced(old(heap.memory.space), old(large.list.chunks), large.start, old(large.stop), ranges, w, m)
      ensures !reset ==> collects && AtLimit() && heap.freeList.contents == []
      ensures broken <==> collects && reset && Overflows(MarkedChunks(w.chunks, m))
      ensures tried == if collects then SweepCode(MarkedChunks(w.chunks, m)) else old(large.list.chunks)
      ensures ok <==>
                && reset && !broken && Shape(heap.memory.space)
                && ((exists i ::
                       0 <= i < |tried| && !tried[i].used && size + 8 * OBJECT_HEADER <= 8 * tried[i].size)
                    || BLOCK_BYTES * (heap.memory.space.high - heap.memory.space.low)
                       + 8 * (old(large.stop) - large.start)
                       + Growth(8 * (PayloadWords(size) + CHUNK_WORDS)) <= large.memoryLimit)
      ensures ok ==>
                exists d ::
                  && d in large.list.chunks && d.used && d.atomic == atomic && pointer == d.address + CHUNK_WORDS
                  && size <= 8 * (d.size - OBJECT_HEADER) < size + 8 + 8 * CHUNK_MIN
      ensures ok ==>
                && large.Valid() && (collects ==> !Overflows(MarkedChunks(w.chunks, m)))
                && PlacedAt(tried, old(large.stop), large.list.chunks, large.stop, PayloadWords(size), atomic, pointer)
      ensures !ok ==> broken || AtLimit() || LargeAtLimit(size)
    {
      hide *;
      ok, pointer, collects, reset, broken, m := true, 0, false, true, false, {};
      w := World(heap.memory.space, [], 0, 0);
      PreparedParts(ranges);
      ghost var s, cs := heap.memory.space, large.list.chunks;
      ShapeOf(s);
      InUseParts(ranges, s);
      heap.Basics();
      tried := cs;
      FitBytes(cs, size);
      if due {
        PlacedEither(cs, PayloadWords(size) + OBJECT_HEADER, atomic);
        pointer := large.TryAllocate(PayloadWords(size), atomic);
        if pointer != 0 {
          PlacedNow(cs, large.stop, PayloadWords(size), atomic, pointer);
          PlacedBytes(cs, large.stop, large.list.chunks, large.stop, size, atomic, pointer);
          return;
        }
        StillPrepared(ranges, s);
        collects := true;
        reset, broken, w, m := CollectChecked(ranges, allocators);
        tried := large.list.chunks;
        if !reset || broken {
          ok := false;
          return;
        }
        PreparedParts(ranges);
      }
      ShapeOf(heap.memory.space);
      heap.BytesIs();
      ok, pointer := large.AllocateLarge(size, atomic, heap.Bytes());
      LargeLimitIs(size);
    }

    lemma LargeLimitIs(size: nat)
      requires Shape(heap.memory.space)
      ensures LargeAtLimit(size) <==> !large.MayGrow(8 * (PayloadWords(size) + CHUNK_WORDS), heap.Bytes())
    {
      hide LargeHeap.MayGrow;
    }

    // Growing the large heap for this request would exceed the memory limit.
    ghost predicate LargeAtLimit(size: nat)
      reads heap, heap.memory, large
    {
      Shape(heap.memory.space) && !large.MayGrow(8 * (PayloadWords(size) + CHUNK_WORDS), heap.Bytes())
    }

    // GC_GlobalAllocator_deallocateLarge: the finalizer of chunk i, if it has one, is
    // forgotten and returned for the caller to run.
    method DeallocateLarge(pointer: nat, ghost i: nat) returns (finalizer: nat)
      requires large.Valid() && finalizers.Valid()
      requires i < |large.list.chunks| && pointer == large.list.chunks[i].address + CHUNK_WORDS
      modifies large.list, finalizers, finalizers.entries
      ensures large.Valid() && finalizers.Valid()
      ensures large.list.chunks == old(large.list.chunks)[i := old(large.list.chunks)[i].(used := false)]
      ensures var key := old(large.list.chunks)[i].address + CHUNK_HEADER;
              && finalizers.Map() == old(finalizers.Map()) - {key}
              && finalizer == if key in old(finalizers.Map()) then old(finalizers.Map())[key] else 0
      ensures old(Keyed()) ==> Keyed()
    {
      hide *;
      KeyedIs();
      ghost var table, cs := finalizers.Map(), large.list.chunks;
      OneChunk(cs, i);
      finalizer := finalizers.Delete(pointer - OBJECT_HEADER);
      large.DeallocateLarge(pointer, i);
      KeysReleased(table, heap.state.held, cs, i);
      KeyedIs();
    }
  }

  lemma OneChunk(cs: seq<Chunk>, i: nat)
    requires i < |cs|
    ensures cs[i].address + CHUNK_WORDS - OBJECT_HEADER == cs[i].address + CHUNK_HEADER
  {
  }

  lemma OverflowStartedIs(st: State, st': State, a: LocalAllocator)
    requires Started(st, st', a.OverflowKey(), a.overflow, a.id, true)
    ensures st'.live == st.live && st'.held == st.held && Undisturbed(st, st', a.id)
    ensures 2 * a.id + 1 in st'.regions && st'.regions[2 * a.id + 1] == a.overflow
    ensures 2 * a.id in st.regions ==> 2 * a.id in st'.regions && st'.regions[2 * a.id] == st.regions[2 * a.id]
  {
  }

  lemma StartedParts(st: State, st': State, k: nat, r: Region, id: nat, usable: bool)
    requires Started(st, st', k, r, id, usable)
    ensures st'.space.low == st.space.low && st'.space.words == st.space.words
    ensures Undisturbed(st, st', id) && st'.regions == st.regions[k := Known(r, usable)]
  {
  }

  // A whole block has room for every small object.
  lemma SmallSizes()
    ensures LARGE <= BLOCK - LINE
  {
  }

  lemma RestartedAllocator(a: LocalAllocator, next: nat, recyclable: seq<nat>, count: nat)
    requires a.heap.Valid() && Restarted(a.heap.state, a.id, next, recyclable, count, a.main, a.overflow)
    ensures a.Valid() || (a.Stranded() && a.main.limit - a.main.pos == BLOCK - LINE)
  {
    hide Inv, Linked, Unusable;
  }

  lemma StartedAllocator(st: State, a: LocalAllocator)
    requires a.heap.Valid() && Started(st, a.heap.state, a.Key(), a.main, a.id, true)
    requires 2 * a.id + 1 in st.regions && st.regions[2 * a.id + 1] == a.overflow
    requires Refilled(st, a.heap.state, a.main)
    ensures a.Valid() && Undisturbed(st, a.heap.state, a.id)
    ensures if st.recyclable != [] then |a.heap.state.recyclable| < |st.recyclable|
            else a.heap.state.recyclable == [] && a.main.limit - a.main.pos == BLOCK - LINE
  {
    hide Inv, Linked;
  }

  lemma StillValid(a: LocalAllocator, st: State)
    requires a.heap.Valid() && 2 * a.id + 1 in a.heap.state.regions && a.heap.state.regions[2 * a.id + 1] == a.overflow
    requires 2 * a.id in st.regions
             && 2 * a.id in a.heap.state.regions && a.heap.state.regions[2 * a.id] == st.regions[2 * a.id]
    ensures st.regions[2 * a.id] == a.main ==> a.Valid()
    ensures st.regions[2 * a.id] == a.main.(next := 0) && a.main.limit == BlockStop(a.main.block)
            && a.main.next != 0 ==>
              a.Stranded()
  {
    hide Inv, Linked;
  }

  lemma ValidParts(a: LocalAllocator)
    ensures a.Valid() ==> 2 * a.id in a.heap.state.regions && a.heap.state.regions[2 * a.id] == a.main
    ensures a.Valid() ==> 2 * a.id + 1 in a.heap.state.regions && a.heap.state.regions[2 * a.id + 1] == a.overflow
    ensures a.Valid() || a.Stranded() ==> a.heap.Valid()
    ensures a.Stranded() ==> 2 * a.id in a.heap.state.regions && a.heap.state.regions[2 * a.id] == a.main.(next := 0)
                             && a.main.limit == BlockStop(a.main.block) && a.main.next != 0
  {
    hide Inv, Linked;
  }

  // The end of nextBlock's collecting path for the allocator at position i, whose
  // hole list the reset had set to `next`: r is its cursor.
  ghost predicate Restarted(st: State, id: nat, next: nat, recyclable: seq<nat>, count: nat, r: Region,
      overflow: Region)
  {
    var usable := next == 0 || |recyclable| > count;
    && KnownTo(st.regions, id, Known(r, usable), overflow)
    && (!usable ==> Unusable(r) && r == Region(r.block, BlockStart(r.block), BlockStop(r.block), next))
  }

  lemma RestartedIs(st: State, st': State, s: Space, a: LocalAllocator, next: nat, recyclable: seq<nat>, count: nat)
    requires Started(st, st', a.Key(), a.main, a.id, next == 0 || After(recyclable, count) != [])
    requires FirstCursor(s, After(recyclable, count), next, a.main)
    requires 2 * a.id + 1 in st.regions && st.regions[2 * a.id + 1] == a.overflow
    ensures st'.live == st.live && st'.held == st.held
    ensures Restarted(st', a.id, next, recyclable, count, a.main, a.overflow)
  {
    if next != 0 && |recyclable| <= count {
      StaleUnusable(a.main);
    }
    hide Unusable;
  }

  lemma LargeAgain(cs: seq<Chunk>, w: World, m: set<Ref>, start: nat, stop: nat)
    requires Tiles(cs, start, stop) && w.chunks == Bare(cs) && 8 * stop < TWO_64 / 2
    ensures Tiles(SweepCode(MarkedChunks(w.chunks, m)), start, stop) <==> !Overflows(MarkedChunks(w.chunks, m))
  {
    BareTiles(cs, start, stop);
    MarkedTiles(w.chunks, m, start, stop);
    SweepCodeTiles(MarkedChunks(w.chunks, m), start, stop);
  }

  lemma CollectionIs(hs: Heaps, c: Collection, gone: seq<nat>, hs': Heaps, start: nat)
    requires Traced(hs.small.space, hs.large.chunks, start, hs.large.stop, c.roots, c.w, c.m)
    requires CollectStep(hs.small, Smalls(c.m), hs'.small)
    requires hs'.large == L.State(SweepCode(MarkedChunks(c.w.chunks, c.m)), hs.large.stop)
    requires Finalized(hs.table, hs'.table, gone, c.w, c.m)
    ensures CollectionStep(hs, c, gone, hs', start)
  {
  }

  lemma SweepSound(cs: seq<Chunk>, w: World, m: set<Ref>, start: nat, stop: nat)
    requires Tiles(cs, start, stop) && w.chunks == Bare(cs) && 8 * stop < TWO_64 / 2
    ensures var swept := SweepCode(MarkedChunks(w.chunks, m));
            swept == [] || ChunkLists.Chained(swept, stop) <==> !Overflows(MarkedChunks(w.chunks, m))
  {
    BareTiles(cs, start, stop);
    MarkedTiles(w.chunks, m, start, stop);
    SweepValidates(MarkedChunks(w.chunks, m), start, stop);
  }

  lemma TracedIs(s: Space, cs: seq<Chunk>, start: nat, stop: nat, roots: seq<Range>, w: World, m: set<Ref>)
    requires IsUnmarked(s, w.space) && w == World(w.space, Bare(cs), start, stop)
    requires Clean(w) && Reachable(w, roots, m)
    ensures Traced(s, cs, start, stop, roots, w, m)
  {
  }

  lemma ShapeOf(s: Space)
    requires WF(s)
    ensures Shape(s)
  {
  }

  lemma TracedParts(s: Space, cs: seq<Chunk>, start: nat, stop: nat, roots: seq<Range>, w: World, m: set<Ref>)
    requires Traced(s, cs, start, stop, roots, w, m)
    ensures IsUnmarked(s, w.space) && w.start == start && w.stop == stop && w.chunks == Bare(cs)
    ensures w.space.low == s.low && w.space.high == s.high && |w.space.blocks| == |s.blocks|
    ensures HeapsApart(s, start, stop) == HeapsApart(w.space, start, stop)
  {
  }

  lemma MarkedParts(w: World, m: set<Ref>, p: Space, cs: seq<Chunk>)
    requires Marked(w, m, p, cs)
    ensures Clean(w) && IsPainted(w.space, p, Smalls(m)) && cs == MarkedChunks(w.chunks, m)
  {
  }

  lemma CollectedParts(st: State, m: set<nat>, st': State)
    requires Shape(st.space) && CollectStep(st, m, st')
    ensures st'.held == m && st'.live == st.live * m
    ensures st'.space.low == st.space.low && st'.space.high == st.space.high
    ensures |st'.space.words| == |st.space.words| && Shape(st'.space)
  {
  }
}
