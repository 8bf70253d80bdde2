// The mark phase over both heaps (src/collector.c).
module Collectors {
  import opened Space
  import opened Memory
  import opened Sweeping
  import opened Marking
  import opened Lookup
  import opened Chunks
  import opened ChunkLists
  import opened Stacks
  import opened Tracing

  ghost function Smalls(m: set<Ref>): set<nat> {
    set r | r in m && r.Small? :: r.o
  }

  ghost function MarkedChunks(cs: seq<Chunk>, m: set<Ref>): seq<Chunk> {
    seq(|cs|, i requires 0 <= i < |cs| => cs[i].(marked := Large(i) in m))
  }

  // The marks in memory are exactly those of the objects in m.
  ghost predicate Marked(w: World, m: set<Ref>, p: Space, cs: seq<Chunk>) {
    Clean(w) && IsPainted(w.space, p, Smalls(m)) && cs == MarkedChunks(w.chunks, m)
  }

  lemma MarkedStart(w: World)
    requires Clean(w)
    ensures Marked(w, {}, w.space, w.chunks)
  {
  }

  lemma SmallsAdd(m: set<Ref>, r: Ref)
    ensures Smalls(m + {r}) == if r.Small? then Smalls(m) + {r.o} else Smalls(m)
  {
  }

  lemma ChunksAdd(cs: seq<Chunk>, m: set<Ref>, r: Ref)
    ensures MarkedChunks(cs, m + {r}) ==
            if r.Large? && r.i < |cs| then MarkedChunks(cs, m)[r.i := cs[r.i].(marked := true)] else MarkedChunks(cs, m)
  {
  }

  lemma PaintedWord(u: Space, p: Space, m: set<nat>, a: nat)
    requires IsPainted(u, p, m) && a < |u.words|
    ensures a < |p.words|
    ensures if a > 0 && a - 1 in m then Visible(u, a - 1)
            && p.words[a] == SetMark(u.words[a]) else p.words[a] == u.words[a]
  {
    hide Visible, PaintedLines, PaintedBlocks;
  }

  lemma CleanWord(w: World, o: nat)
    requires Clean(w) && Visible(w.space, o) && o + 1 < |w.space.words|
    ensures w.space.words[o + 1] % 256 == 0
  {
  }

  // Marking changes no word as a pointer.
  lemma SamePointers(w: World, p: Space, m: set<nat>, a: nat)
    requires Clean(w) && IsPainted(w.space, p, m) && a < |w.space.words|
    ensures a < |p.words| && p.words[a] / 8 == w.space.words[a] / 8
  {
    PaintedWord(w.space, p, m, a);
    hide IsPainted, Clean, Visible;
    if a > 0 && a - 1 in m {
      CleanWord(w, a - 1);
      SetMarkPointer(w.space.words[a]);
    }
  }

  lemma SetMarkPointer(x: nat)
    requires x % 256 == 0
    ensures SetMark(x) / 8 == x / 8
  {
    var q := 32 * (x / 256);
    assert x == 8 * q;
    Quotient(x, q);
    Quotient(x + 1, q);
  }

  lemma Quotient(x: nat, q: nat)
    requires 8 * q <= x < 8 * q + 8
    ensures x / 8 == q
  {
  }

  lemma PaintedTarget(u: Space, p: Space, m: set<nat>, a: nat, o: nat)
    requires WF(u) && IsPainted(u, p, m)
    ensures Target(p, a, o) <==> Target(u, a, o)
  {
    PaintedSame(u, p, m);
    forall d: nat
      ensures Visible(p, d) == Visible(u, d)
    {
      if InSmallHeap(u, d) {
        SameObjectsVisible(u, p, d);
      }
    }
    if InSmallHeap(u, o) {
      SameObjectsVisible(u, p, o);
    }
  }

  lemma PaintedWF(u: Space, p: Space, m: set<nat>)
    requires WF(u) && IsPainted(u, p, m)
    ensures WF(p) && SameBounds(u, p)
  {
    PaintedSame(u, p, m);
    SameObjectsWF(u, p);
  }

  // What the header of a visible object says while marking goes on.
  lemma PaintedHeader(w: World, p: Space, m: set<nat>, o: nat)
    requires Clean(w) && IsPainted(w.space, p, m) && Visible(w.space, o) && o + 1 < |w.space.words|
    ensures o + 1 < |p.words| && p.words[o] == w.space.words[o]
    ensures MarkBit(p.words[o + 1]) <==> o in m
    ensures AtomicBit(p.words[o + 1]) == AtomicBit(w.space.words[o + 1])
  {
    var u := w.space;
    assert u.words[o + 1] % 256 == 0;
    PaintedMark(u, p, m, o);
    PaintedSame(u, p, m);
    SameObjectsVisible(u, p, o);
    HeaderBits(u.words[o + 1]);
    PaintedWord(u, p, m, o);
  }

  // The same pointer, read before or while marking, has the same effect.
  lemma VisitSame(w: World, v: nat, v': nat, m: set<Ref>, stack: seq<Range>, m': set<Ref>, stack': seq<Range>)
    requires Shape(w.space) && v / 8 == v' / 8 && Visit(w, v, m, stack, m', stack')
    ensures Visit(w, v', m, stack, m', stack')
  {
  }

  lemma VisitSmall(w: World, v: nat, o: nat, m: set<Ref>, stack: seq<Range>)
    requires Clean(w) && InSmallHeap(w.space, v / 8) && Target(w.space, v / 8, o)
    ensures IsRef(w, Small(o)) && ResolvesTo(w, v, Small(o))
    ensures Visit(w, v, m, stack, m + {Small(o)}, if Small(o) in m then stack else stack + Scanned(w, Small(o)))
  {
    assert ResolvesTo(w, v, Small(o));
    ResolvesToRef(w, v, Small(o));
    assert Small(o) in m ==> m + {Small(o)} == m;
    forall r | ResolvesTo(w, v, r)
      ensures r == Small(o)
    {
      ResolvesToOne(w, v, r, Small(o));
    }
  }

  lemma VisitLarge(w: World, v: nat, i: nat, m: set<Ref>, stack: seq<Range>)
    requires Clean(w) && !InSmallHeap(w.space, v / 8) && w.start <= v / 8 < w.stop
    requires i < |w.chunks| && Contains(w.chunks[i], v / 8)
    ensures !w.chunks[i].used ==> Visit(w, v, m, stack, m, stack)
    ensures w.chunks[i].used ==> IsRef(w, Large(i))
    ensures w.chunks[i].used ==>
              Visit(w, v, m, stack, m + {Large(i)}, if Large(i) in m then stack else stack + Scanned(w, Large(i)))
  {
    assert Large(i) in m ==> m + {Large(i)} == m;
    if w.chunks[i].used {
      assert ResolvesTo(w, v, Large(i));
      ResolvesToRef(w, v, Large(i));
    }
    forall r | ResolvesTo(w, v, r)
      ensures r == Large(i)
    {
      ContainsUnique(w.chunks, w.start, w.stop, r.i, i, v / 8);
    }
  }

  // Collector_scanObject
  method ScanObject(stack: Stack, sp: nat, bottom: nat, atomic: bool)
    requires stack.Valid() && |stack.Contents()| < stack.Capacity()
    modifies stack, stack.buffer
    ensures stack.Valid()
    ensures stack.Contents() == old(stack.Contents()) + if atomic then [] else [Range(sp, bottom)]
  {
    if !atomic {
      stack.Push(sp, bottom);
    } else {
      assert stack.Contents() == stack.Contents() + [];
    }
  }

  // The lookup, on memory that carries the marks of m.
  method FindSmall(memory: Memory, pointer: nat, ghost w: World, ghost m: set<nat>) returns (o: nat)
    requires Clean(w) && IsPainted(w.space, memory.space, m) && InSmallHeap(w.space, pointer / 8)
    ensures o != 0 ==> Target(w.space, pointer / 8, o)
    ensures o == 0 ==> forall o' :: !Target(w.space, pointer / 8, o')
  {
    PaintedWF(w.space, memory.space, m);
    o := FindSmallObject(memory.space, pointer);
    hide Target, WF, IsPainted;
    forall o'
      ensures Target(memory.space, pointer / 8, o') == Target(w.space, pointer / 8, o')
    {
      PaintedTarget(w.space, memory.space, m, pointer / 8, o');
    }
  }

  // Collector_findAndMarkSmallObject
  method FindAndMarkSmallObject(memory: Memory, stack: Stack, pointer: nat, ghost w: World, ghost m: set<Ref>)
    returns (ghost m': set<Ref>)
    requires Clean(w) && IsPainted(w.space, memory.space, Smalls(m)) && InSmallHeap(w.space, pointer / 8)
    requires stack.Valid() && |stack.Contents()| < stack.Capacity()
    modifies memory, stack, stack.buffer
    ensures stack.Valid() && IsPainted(w.space, memory.space, Smalls(m'))
    ensures Visit(w, pointer, m, old(stack.Contents()), m', stack.Contents())
    ensures MarkedChunks(w.chunks, m') == MarkedChunks(w.chunks, m)
  {
    m' := m;
    assert Shape(w.space) && WF(w.space);
    ghost var contents := stack.Contents();
    var o := FindSmall(memory, pointer, w, Smalls(m));
    if o == 0 {
      VisitMiss(w, pointer, m, contents);
      return;
    }
    VisitSmall(w, pointer, o, m, contents);
    SmallRef(w, o);
    hide *;
    m' := MarkAndScan(memory, stack, o, w, m);
  }

  // Mark object o unless it is marked, and have its payload read unless it is atomic.
  method MarkAndScan(memory: Memory, stack: Stack, o: nat, ghost w: World,
      ghost m: set<Ref>) returns (ghost m': set<Ref>)
    requires Clean(w) && IsPainted(w.space, memory.space, Smalls(m)) && IsRef(w, Small(o))
    requires stack.Valid() && |stack.Contents()| < stack.Capacity()
    modifies memory, stack, stack.buffer
    ensures stack.Valid() && IsPainted(w.space, memory.space, Smalls(m'))
    ensures m' == m + {Small(o)}
    ensures stack.Contents() ==
            if Small(o) in m then old(stack.Contents()) else old(stack.Contents()) + Scanned(w, Small(o))
    ensures MarkedChunks(w.chunks, m') == MarkedChunks(w.chunks, m)
  {
    m' := m + {Small(o)};
    SmallRef(w, o);
    SmallsHas(m, o);
    SmallsAdd(m, Small(o));
    ChunksAdd(w.chunks, m, Small(o));
    PaintedHeader(w, memory.space, Smalls(m), o);
    assert Small(o) in m ==> m' == m;
    assert WF(w.space);
    hide Clean, IsPainted, WF, IsRef, Visible, Smalls, MarkedChunks, Scanned;
    if !MarkBit(memory.space.words[o + 1]) {
      MarkObject(memory, o, w.space, Smalls(m));
      PaintedHeader(w, memory.space, Smalls(m'), o);
      ScanObject(stack, o + HEADER, o + memory.space.words[o], AtomicBit(memory.space.words[o + 1]));
    }
  }

  lemma SmallRef(w: World, o: nat)
    requires Shape(w.space) && IsRef(w, Small(o))
    ensures Visible(w.space, o) && o + 1 < |w.space.words|
    ensures Scanned(w, Small(o)) ==
            if AtomicBit(w.space.words[o + 1]) then [] else [Range(o + HEADER, o + w.space.words[o])]
  {
  }

  lemma VisitMiss(w: World, v: nat, m: set<Ref>, stack: seq<Range>)
    requires Shape(w.space) && InSmallHeap(w.space, v / 8) && forall o :: !Target(w.space, v / 8, o)
    ensures Visit(w, v, m, stack, m, stack)
  {
  }

  lemma SmallsHas(m: set<Ref>, o: nat)
    ensures o in Smalls(m) <==> Small(o) in m
  {
  }

  lemma VisitNone(w: World, v: nat, m: set<Ref>, stack: seq<Range>)
    requires Shape(w.space) && !InSmallHeap(w.space, v / 8)
    requires w.start <= v / 8 < w.stop ==> forall j :: 0 <= j < |w.chunks| ==> !Contains(w.chunks[j], v / 8)
    ensures Visit(w, v, m, stack, m, stack)
  {
  }

  // Marks do not matter to the search.
  lemma MarkedContains(cs: seq<Chunk>, m: set<Ref>, a: nat)
    ensures |MarkedChunks(cs, m)| == |cs|
    ensures forall j :: 0 <= j < |cs| ==> Contains(MarkedChunks(cs, m)[j], a) == Contains(cs[j], a)
  {
  }

  lemma LargeRef(w: World, i: nat)
    requires Shape(w.space) && IsRef(w, Large(i))
    ensures i < |w.chunks|
    ensures var c := w.chunks[i];
            Scanned(w, Large(i)) == if c.atomic then [] else [Range(c.address + CHUNK_WORDS,
                c.address + CHUNK_HEADER + c.size)]
  {
  }

  lemma MarkedChunk(cs: seq<Chunk>, m: set<Ref>, i: nat)
    requires i < |cs|
    ensures |MarkedChunks(cs, m)| == |cs| && MarkedChunks(cs, m)[i] == cs[i].(marked := Large(i) in m)
  {
  }

  // Collector_markChunk, for chunk i that is in use.
  method MarkUsed(list: ChunkList, stack: Stack, chunk: nat, ghost i: nat, ghost w: World, ghost m: set<Ref>)
    returns (ghost m': set<Ref>)
    requires Shape(w.space) && IsRef(w, Large(i)) && chunk == w.chunks[i].address
    requires list.Valid() && list.chunks == MarkedChunks(w.chunks, m)
    requires stack.Valid() && |stack.Contents()| < stack.Capacity()
    modifies list`headers, list`chunks, stack, stack.buffer
    ensures stack.Valid() && list.Valid() && m' == m + {Large(i)} && list.chunks == MarkedChunks(w.chunks, m')
    ensures stack.Contents() ==
            if Large(i) in m then old(stack.Contents()) else old(stack.Contents()) + Scanned(w, Large(i))
    ensures Smalls(m') == Smalls(m)
  {
    m' := m + {Large(i)};
    LargeRef(w, i);
    SmallsAdd(m, Large(i));
    ChunksAdd(w.chunks, m, Large(i));
    MarkedChunk(w.chunks, m, i);
    At(list.headers, list.first, list.last, list.size, list.chunks, i);
    assert Large(i) in m ==> m' == m;
    hide Lists, IsRef, MarkedChunks, Scanned, Smalls;
    if !list.headers[chunk].marked {
      var c := ChunkOf(chunk, list.headers[chunk]).(marked := true);
      list.Set(c, i);
      ScanObject(stack, chunk + CHUNK_WORDS, chunk + CHUNK_HEADER + c.size, c.atomic);
    }
  }

  // The lookup in the chunk list, and Collector_markChunk.
  method FindAndMarkChunk(list: ChunkList, stack: Stack, pointer: nat, ghost w: World, ghost m: set<Ref>)
    returns (ghost m': set<Ref>)
    requires Clean(w) && !InSmallHeap(w.space, pointer / 8) && w.start <= pointer / 8 < w.stop
    requires list.Valid() && list.chunks == MarkedChunks(w.chunks, m)
    requires stack.Valid() && |stack.Contents()| < stack.Capacity()
    modifies list`headers, list`chunks, stack, stack.buffer
    ensures stack.Valid() && list.Valid() && list.chunks == MarkedChunks(w.chunks, m')
    ensures Visit(w, pointer, m, old(stack.Contents()), m', stack.Contents())
    ensures Smalls(m') == Smalls(m)
  {
    m' := m;
    ghost var contents := stack.Contents();
    assert Shape(w.space);
    var chunk := list.Find(pointer);
    MarkedContains(w.chunks, m, pointer / 8);
    forall j | 0 <= j < |list.chunks|
      ensures Contains(list.chunks[j], pointer / 8) <==>
              8 * (list.chunks[j].address + CHUNK_WORDS) <= pointer
              < 8 * (list.chunks[j].address + CHUNK_HEADER + list.chunks[j].size)
    {
      ContainsBytes(list.chunks[j], pointer);
    }
    hide Contains;
    if chunk == 0 {
      VisitNone(w, pointer, m, contents);
      return;
    }
    ghost var i: nat :| i < |w.chunks| && list.chunks[i].address == chunk && Contains(list.chunks[i], pointer / 8);
    VisitLarge(w, pointer, i, m, contents);
    MarkedChunk(w.chunks, m, i);
    At(list.headers, list.first, list.last, list.size, list.chunks, i);
    hide Lists, Clean, Visit, MarkedChunks, Scanned, Smalls, IsRef;
    if list.headers[chunk].used {
      m' := MarkUsed(list, stack, chunk, i, w, m);
    }
  }

  ghost predicate InMemory(w: World, ranges: seq<Range>) {
    forall range | range in ranges :: range.bottom <= |w.space.words|
  }

  lemma ScannedInMemory(w: World, v: nat, m: set<Ref>, stack: seq<Range>, m': set<Ref>, stack': seq<Range>)
    requires Shape(w.space) && Visit(w, v, m, stack, m', stack') && InMemory(w, stack)
    ensures InMemory(w, stack')
  {
  }

  // Both heaps and the stack in the middle of the mark phase.
  ghost predicate Going(memory: Memory, list: ChunkList, stack: Stack, w: World, m: set<Ref>)
    reads memory, list, stack, stack.buffer
  {
    Marked(w, m, memory.space, list.chunks) && list.Valid() && stack.Valid() && InMemory(w, stack.Contents())
  }

  // One ambiguous word.
  method MarkPointer(memory: Memory, list: ChunkList, stack: Stack, start: nat, stop: nat, pointer: nat,
                     ghost w: World, ghost m: set<Ref>)
    returns (ghost m': set<Ref>)
    requires Going(memory, list, stack, w, m) && start == w.start && stop == w.stop
    requires |stack.Contents()| < stack.Capacity()
    modifies memory, list`headers, list`chunks, stack, stack.buffer
    ensures Going(memory, list, stack, w, m')
    ensures Visit(w, pointer, m, old(stack.Contents()), m', stack.Contents())
  {
    m' := m;
    ghost var contents := stack.Contents();
    PaintedWF(w.space, memory.space, Smalls(m));
    hide Clean, IsPainted, Visit, MarkedChunks, Lists;
    if InSmallHeap(memory.space, pointer / 8) {
      m' := FindAndMarkSmallObject(memory, stack, pointer, w, m);
    } else if start <= pointer / 8 < stop {
      m' := FindAndMarkChunk(list, stack, pointer, w, m);
    } else {
      VisitNone(w, pointer, m, contents);
    }
    ScannedInMemory(w, pointer, m, contents, m', stack.Contents());
  }

  // The words of one range.
  method MarkRange(memory: Memory, list: ChunkList, stack: Stack, start: nat, stop: nat, sp0: nat, bottom: nat,
                   ghost w: World, ghost roots: seq<Range>, ghost m: set<Ref>)
    returns (ghost m': set<Ref>)
    requires Going(memory, list, stack, w, m) && start == w.start && stop == w.stop && bottom <= |w.space.words|
    requires Progress(w, roots, m, stack.Contents(), Range(sp0, bottom)) && |stack.Contents()| < |roots| + |m|
    requires |roots| + (Stop(w.space) - Start(w.space)) + (w.stop - w.start) <= stack.Capacity()
    modifies memory, list`headers, list`chunks, stack, stack.buffer
    ensures Going(memory, list, stack, w, m')
    ensures Progress(w, roots, m', stack.Contents(), NOWHERE) && |stack.Contents()| < |roots| + |m'|
    ensures m <= m' && (m' == m ==> stack.Contents() == old(stack.Contents()))
  {
    m' := m;
    var sp := sp0;
    hide Clean, Marked, InMemory, Lists;
    while sp < bottom
      invariant Going(memory, list, stack, w, m')
      invariant Progress(w, roots, m', stack.Contents(), Range(sp, bottom)) && |stack.Contents()| < |roots| + |m'|
      invariant m <= m' && (m' == m ==> stack.Contents() == old(stack.Contents()))
    {
      m' := MarkNext(memory, list, stack, start, stop, sp, bottom, w, roots, m');
      sp := sp + 1;
    }
    ProgressEnd(w, roots, m', stack.Contents(), Range(sp, bottom));
  }

  method MarkNext(memory: Memory, list: ChunkList, stack: Stack, start: nat, stop: nat, sp: nat, bottom: nat,
                  ghost w: World, ghost roots: seq<Range>, ghost m: set<Ref>)
    returns (ghost m': set<Ref>)
    requires Going(memory, list, stack, w, m) && start == w.start && stop == w.stop && sp < bottom <= |w.space.words|
    requires Progress(w, roots, m, stack.Contents(), Range(sp, bottom)) && |stack.Contents()| < |roots| + |m|
    requires |roots| + (Stop(w.space) - Start(w.space)) + (w.stop - w.start) <= stack.Capacity()
    modifies memory, list`headers, list`chunks, stack, stack.buffer
    ensures Going(memory, list, stack, w, m')
    ensures Progress(w, roots, m', stack.Contents(), Range(sp + 1, bottom)) && |stack.Contents()| < |roots| + |m'|
    ensures m <= m' && (m' == m ==> stack.Contents() == old(stack.Contents()))
  {
    ghost var contents := stack.Contents();
    ProgressRefs(w, roots, m, contents, Range(sp, bottom));
    MarkedCount(w, m);
    SamePointers(w, memory.space, Smalls(m), sp);
    hide Clean, IsPainted, MarkedChunks, InMemory, Lists, Progress;
    var pointer := memory.space.words[sp];
    m' := MarkPointer(memory, list, stack, start, stop, pointer, w, m);
    hide *;
    VisitSame(w, pointer, w.space.words[sp], m, contents, m', stack.Contents());
    ProgressVisit(w, roots, m, contents, Range(sp, bottom), m', stack.Contents());
  }

  lemma ProgressRefs(w: World, roots: seq<Range>, m: set<Ref>, stack: seq<Range>, now: Range)
    requires Progress(w, roots, m, stack, now)
    ensures Clean(w) && WF(w.space) && forall r | r in m :: IsRef(w, r)
  {
  }

  // GC_Collector_mark: every object that the roots reach is marked, and no other.
  method Mark(memory: Memory, list: ChunkList, stack: Stack, start: nat, stop: nat, ghost w: World)
    returns (ghost m: set<Ref>)
    requires memory.space == w.space && list.chunks == w.chunks && start == w.start && stop == w.stop
    requires Clean(w) && list.Valid() && stack.Valid() && InMemory(w, stack.Contents())
    requires |stack.Contents()| + (Stop(w.space) - Start(w.space)) + (w.stop - w.start) <= stack.Capacity()
    modifies memory, list`headers, list`chunks, stack, stack.buffer
    ensures Marked(w, m, memory.space, list.chunks) && Reachable(w, old(stack.Contents()), m)
    ensures list.Valid() && stack.Valid() && stack.Contents() == []
  {
    ghost var roots := stack.Contents();
    MarkedStart(w);
    ProgressStart(w, roots);
    m := {};
    hide Clean, Marked, InMemory, Lists, Progress;
    var more := true;
    while more
      invariant Going(memory, list, stack, w, m)
      invariant Progress(w, roots, m, stack.Contents(), NOWHERE) && |stack.Contents()| <= |roots| + |m|
      invariant !more ==> stack.Contents() == []
      decreases |AllRefs(w)| - |m|, |stack.Contents()|, more
    {
      var sp, bottom;
      ghost var contents, before := stack.Contents(), m;
      more, sp, bottom := stack.Pop();
      if more {
        ProgressPop(w, roots, m, stack.Contents(), Range(sp, bottom));
        InMemoryPop(w, stack.Contents(), Range(sp, bottom));
        m := MarkRange(memory, list, stack, start, stop, sp, bottom, w, roots, m);
        CountGrows(w, roots, before, m, stack.Contents());
      }
    }
    ProgressDone(w, roots, m);
  }

  lemma InMemoryPop(w: World, ranges: seq<Range>, range: Range)
    requires InMemory(w, ranges + [range])
    ensures InMemory(w, ranges) && range.bottom <= |w.space.words|
  {
  }

  lemma CountGrows(w: World, roots: seq<Range>, m: set<Ref>, m': set<Ref>, stack: seq<Range>)
    requires Progress(w, roots, m', stack, NOWHERE) && m <= m'
    ensures |m'| <= |AllRefs(w)| && |m| <= |m'| && (m != m' ==> |m| < |m'|)
  {
    ProgressRefs(w, roots, m', stack, NOWHERE);
    MarkedCount(w, m');
    SubsetCount(m', AllRefs(w));
    SubsetCount(m, m');
  }
}
