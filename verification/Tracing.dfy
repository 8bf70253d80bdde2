// What the mark phase computes (src/collector.c): the objects of both heaps as
// a graph, and the worklist algorithm's invariant on it.
module Tracing {
  import opened Space
  import opened Chunks
  import opened Stacks

  // A small object by its address, a large one by its position in the chunk list.
  datatype Ref = Small(o: nat) | Large(i: nat)

  // Both heaps after the unmark phase; `space.words` is all of memory.
  datatype World = World(space: Space, chunks: seq<Chunk>, start: nat, stop: nat)

  // No visible object, and no chunk, carries a mark.
  ghost predicate Clean(w: World) {
    && WF(w.space) && Tiles(w.chunks, w.start, w.stop) && w.stop <= |w.space.words|
    && (forall o: nat | Visible(w.space, o) && o + 1 < |w.space.words| :: w.space.words[o + 1] % 256 == 0)
    && (forall i | 0 <= i < |w.chunks| :: !w.chunks[i].marked)
  }

  ghost predicate IsRef(w: World, r: Ref)
    requires Shape(w.space)
  {
    match r
    case Small(o) => Visible(w.space, o) && o + 1 < |w.space.words| && o + w.space.words[o] <= |w.space.words|
    case Large(i) => i < |w.chunks| && w.chunks[i].used && End(w.chunks[i]) <= |w.space.words|
  }

  // The byte pointer v is an interior pointer into the payload of r.
  ghost predicate ResolvesTo(w: World, v: nat, r: Ref)
    requires Shape(w.space)
  {
    if InSmallHeap(w.space, v / 8) then r.Small? && Target(w.space, v / 8, r.o)
    else
      && r.Large? && w.start <= v / 8 < w.stop
      && r.i < |w.chunks| && w.chunks[r.i].used && Contains(w.chunks[r.i], v / 8)
  }

  ghost predicate IsAtomic(w: World, r: Ref)
    requires Shape(w.space) && IsRef(w, r)
  {
    match r
    case Small(o) => AtomicBit(w.space.words[o + 1])
    case Large(i) => w.chunks[i].atomic
  }

  ghost function Payload(w: World, r: Ref): Range
    requires Shape(w.space) && IsRef(w, r)
  {
    match r
    case Small(o) => Range(o + HEADER, o + w.space.words[o])
    case Large(i) => Range(w.chunks[i].address + CHUNK_WORDS, End(w.chunks[i]))
  }

  predicate Within(range: Range, a: nat) {
    range.sp <= a < range.bottom
  }

  // a is a word of a root range or of a non-atomic member of m.
  ghost predicate Source(w: World, roots: seq<Range>, m: set<Ref>, a: nat)
    requires Shape(w.space)
  {
    || (exists range :: range in roots && Within(range, a))
    || (exists r :: r in m && IsRef(w, r) && !IsAtomic(w, r) && Within(Payload(w, r), a))
  }

  // m contains every object that a word of the roots, or of a non-atomic member
  // of m, resolves to.
  ghost predicate Closed(w: World, roots: seq<Range>, m: set<Ref>)
    requires Shape(w.space)
  {
    forall a: nat, r | Source(w, roots, m, a) && a < |w.space.words| && ResolvesTo(w, w.space.words[a], r) :: r in m
  }

  // m is the least such set.
  ghost predicate Reachable(w: World, roots: seq<Range>, m: set<Ref>)
    requires Shape(w.space)
  {
    Closed(w, roots, m) && forall t: set<Ref> | Closed(w, roots, t) :: m <= t
  }

  lemma ReachableUnique(w: World, roots: seq<Range>, m: set<Ref>, m': set<Ref>)
    requires Shape(w.space) && Reachable(w, roots, m) && Reachable(w, roots, m')
    ensures m == m'
  {
  }

  lemma ResolvesToRef(w: World, v: nat, r: Ref)
    requires Clean(w) && ResolvesTo(w, v, r)
    ensures IsRef(w, r)
  {
    if r.Small? {
      assert ObjectOK(w.space, r.o);
    } else {
      TilesAt(w.chunks, w.start, w.stop, r.i);
    }
  }

  // An ambiguous word resolves to one object at most.
  lemma ResolvesToOne(w: World, v: nat, r: Ref, r': Ref)
    requires Clean(w) && ResolvesTo(w, v, r) && ResolvesTo(w, v, r')
    ensures r == r'
  {
    if r.Small? {
      TargetUnique(w.space, v / 8, r.o, r'.o);
    } else {
      ContainsUnique(w.chunks, w.start, w.stop, r.i, r'.i, v / 8);
    }
  }

  // Exactly the pointers to a byte of the payload of a chunk in use resolve to it.
  lemma LargeTarget(w: World, v: nat, i: nat)
    requires Clean(w) && i < |w.chunks|
    ensures var c := w.chunks[i];
            ResolvesTo(w, v, Large(i)) <==>
              && c.used && !(BLOCK * w.space.low <= v / 8 < BLOCK * w.space.high)
              && 8 * (c.address + CHUNK_WORDS) <= v < 8 * (c.address + CHUNK_HEADER + c.size)
  {
    ContainsBytes(w.chunks[i], v);
    TilesAt(w.chunks, w.start, w.stop, i);
  }

  // And exactly the pointers to a byte of the payload of a live small object resolve to it.
  lemma SmallTarget(w: World, v: nat, o: nat)
    requires Clean(w) && Solid(w.space, o)
    ensures ResolvesTo(w, v, Small(o)) <==> 8 * (o + HEADER) <= v < 8 * (o + w.space.words[o])
  {
    if o + HEADER <= v / 8 < o + w.space.words[o] {
      LiveTarget(w.space, o, v / 8, o);
      assert ObjectOK(w.space, o);
    }
  }

  // The words that are read: those of the root ranges and of the payloads of the
  // objects in m whose atomic byte is not set.
  lemma SourceWords(w: World, roots: seq<Range>, m: set<Ref>, a: nat)
    requires Clean(w) && forall r | r in m :: IsRef(w, r)
    ensures Source(w, roots, m, a) <==>
              || (exists range :: range in roots && range.sp <= a < range.bottom)
              || (exists o: nat :: Small(o) in m && o + 1 < |w.space.words|
                    && w.space.words[o + 1] / 256 % 256 == 0 && o + HEADER <= a < o + w.space.words[o])
              || (exists i: nat :: Large(i) in m && i < |w.chunks| && !w.chunks[i].atomic
                    && w.chunks[i].address + CHUNK_WORDS <= a < w.chunks[i].address + CHUNK_HEADER + w.chunks[i].size)
  {
    assert Shape(w.space);
    hide Clean, Visible;
    forall r | r in m
      ensures IsRef(w, r) && (r.Small? ==> Small(r.o) in m) && (r.Large? ==> Large(r.i) in m)
    {
    }
    forall o: nat | Small(o) in m
      ensures IsRef(w, Small(o)) && IsAtomic(w, Small(o)) == (w.space.words[o + 1] / 256 % 256 != 0)
      ensures Within(Payload(w, Small(o)), a) <==> o + HEADER <= a < o + w.space.words[o]
    {
    }
    forall i: nat | Large(i) in m
      ensures IsRef(w, Large(i)) && IsAtomic(w, Large(i)) == w.chunks[i].atomic
    {
    }
  }

  // ------------------------------------------------------------------ worklist

  // a is still to be read.
  ghost predicate Pending(stack: seq<Range>, now: Range, a: nat) {
    Within(now, a) || exists range :: range in stack && Within(range, a)
  }

  ghost predicate Done(w: World, m: set<Ref>, a: nat)
    requires Shape(w.space)
  {
    a < |w.space.words| ==> forall r | ResolvesTo(w, w.space.words[a], r) :: r in m
  }

  // m: the objects marked so far; `now`: the range being read.
  ghost predicate Progress(w: World, roots: seq<Range>, m: set<Ref>, stack: seq<Range>, now: Range) {
    && Clean(w)
    && (forall r | r in m :: IsRef(w, r))
    && (forall a | Source(w, roots, m, a) :: Pending(stack, now, a) || Done(w, m, a))
    && (forall a | Pending(stack, now, a) :: Source(w, roots, m, a))
    && (forall t: set<Ref> | Closed(w, roots, t) :: m <= t)
  }

  ghost function Scanned(w: World, r: Ref): seq<Range>
    requires Shape(w.space) && IsRef(w, r)
  {
    if IsAtomic(w, r) then [] else [Payload(w, r)]
  }

  // What reading the word v does to the marked set and to the stack.
  ghost predicate Visit(w: World, v: nat, m: set<Ref>, stack: seq<Range>, m': set<Ref>, stack': seq<Range>)
    requires Shape(w.space)
  {
    || (m' == m && stack' == stack && forall r | ResolvesTo(w, v, r) :: r in m)
    || (exists r :: r !in m && ResolvesTo(w, v, r) && IsRef(w, r) && m' == m + {r} && stack' == stack + Scanned(w, r))
  }

  const NOWHERE := Range(0, 0)

  lemma ProgressStart(w: World, roots: seq<Range>)
    requires Clean(w)
    ensures Progress(w, roots, {}, roots, NOWHERE)
  {
  }

  lemma ProgressPop(w: World, roots: seq<Range>, m: set<Ref>, stack: seq<Range>, now: Range)
    requires Progress(w, roots, m, stack + [now], NOWHERE)
    ensures Progress(w, roots, m, stack, now)
  {
  }

  lemma ProgressEnd(w: World, roots: seq<Range>, m: set<Ref>, stack: seq<Range>, now: Range)
    requires Progress(w, roots, m, stack, now) && now.bottom <= now.sp
    ensures Progress(w, roots, m, stack, NOWHERE)
  {
  }

  // The worklist is empty: the marked set is the least closed one.
  lemma ProgressDone(w: World, roots: seq<Range>, m: set<Ref>)
    requires Progress(w, roots, m, [], NOWHERE)
    ensures Reachable(w, roots, m)
  {
  }

  lemma SourceGrows(w: World, roots: seq<Range>, m: set<Ref>, m': set<Ref>, a: nat)
    requires Shape(w.space) && m <= m' && Source(w, roots, m, a)
    ensures Source(w, roots, m', a)
  {
  }

  lemma SourceSplit(w: World, roots: seq<Range>, m: set<Ref>, r: Ref, a: nat)
    requires Shape(w.space) && IsRef(w, r) && Source(w, roots, m + {r}, a)
    ensures Source(w, roots, m, a) || (!IsAtomic(w, r) && Within(Payload(w, r), a))
  {
  }

  lemma PendingPushed(w: World, r: Ref, stack: seq<Range>, now: Range, a: nat)
    requires Shape(w.space) && IsRef(w, r)
    ensures Pending(stack + Scanned(w, r), now, a) <==>
              Pending(stack, now, a) || (!IsAtomic(w, r) && Within(Payload(w, r), a))
  {
  }

  lemma PendingNext(stack: seq<Range>, now: Range, a: nat)
    requires now.sp < now.bottom
    ensures Pending(stack, now, a) <==> Pending(stack, Range(now.sp + 1, now.bottom), a) || a == now.sp
  {
  }

  // A word that resolves to nothing new.
  lemma VisitNothing(w: World, roots: seq<Range>, m: set<Ref>, stack: seq<Range>, now: Range)
    requires Progress(w, roots, m, stack, now) && now.sp < now.bottom && Done(w, m, now.sp)
    ensures Progress(w, roots, m, stack, Range(now.sp + 1, now.bottom))
  {
    forall a: nat
      ensures Pending(stack, now, a) <==> Pending(stack, Range(now.sp + 1, now.bottom), a) || a == now.sp
    {
      PendingNext(stack, now, a);
    }
  }

  // A word that resolves to the unmarked object r.
  lemma VisitNew(w: World, roots: seq<Range>, m: set<Ref>, stack: seq<Range>, now: Range, r: Ref)
    requires Progress(w, roots, m, stack, now) && now.sp < now.bottom && now.sp < |w.space.words|
    requires ResolvesTo(w, w.space.words[now.sp], r) && IsRef(w, r)
    ensures Progress(w, roots, m + {r}, stack + Scanned(w, r), now) && Done(w, m + {r}, now.sp)
  {
    var m', stack' := m + {r}, stack + Scanned(w, r);
    hide Clean, ResolvesTo, IsRef, IsAtomic;
    forall a | Source(w, roots, m', a)
      ensures Pending(stack', now, a) || Done(w, m', a)
    {
      SourceSplit(w, roots, m, r, a);
      PendingPushed(w, r, stack, now, a);
    }
    forall a | Pending(stack', now, a)
      ensures Source(w, roots, m', a)
    {
      PendingPushed(w, r, stack, now, a);
    }
    forall t: set<Ref> | Closed(w, roots, t)
      ensures m' <= t
    {
      assert Pending(stack, now, now.sp);
      SourceGrows(w, roots, m, t, now.sp);
    }
    forall r' | ResolvesTo(w, w.space.words[now.sp], r')
      ensures r' in m'
    {
      ResolvesToOne(w, w.space.words[now.sp], r, r');
    }
  }

  lemma ProgressVisit(w: World, roots: seq<Range>, m: set<Ref>, stack: seq<Range>, now: Range,
                     m': set<Ref>, stack': seq<Range>)
    requires Progress(w, roots, m, stack, now) && now.sp < now.bottom && now.sp < |w.space.words|
    requires Visit(w, w.space.words[now.sp], m, stack, m', stack')
    ensures Progress(w, roots, m', stack', Range(now.sp + 1, now.bottom))
    ensures m <= m' && |m'| + |stack| == |m| + |stack| + (if m' == m then 0 else 1)
    ensures |stack'| <= |stack| + |m'| - |m| && (m' == m ==> stack' == stack)
  {
    assert Shape(w.space) && WF(w.space);
    hide Progress, ResolvesTo, WF;
    if m' == m {
      VisitNothing(w, roots, m, stack, now);
    } else {
      var r :| r !in m && ResolvesTo(w, w.space.words[now.sp], r) && IsRef(w, r)
               && m' == m + {r} && stack' == stack + Scanned(w, r);
      VisitNew(w, roots, m, stack, now, r);
      VisitNothing(w, roots, m', stack', now);
    }
  }

  // -------------------------------------------------------------- the stack bound

  ghost function AllRefs(w: World): set<Ref> {
    SmallRefs(Start(w.space), Stop(w.space)) + LargeRefs(|w.chunks|)
  }

  ghost function SmallRefs(from: nat, to: nat): set<Ref> {
    set o: nat | from <= o < to :: Small(o)
  }

  ghost function LargeRefs(n: nat): set<Ref> {
    set i: nat | i < n :: Large(i)
  }

  lemma {:induction false} SmallCount(from: nat, to: nat)
    requires from <= to
    ensures |SmallRefs(from, to)| == to - from
  {
    if from < to {
      SmallCount(from, to - 1);
      assert SmallRefs(from, to) == SmallRefs(from, to - 1) + {Small(to - 1)};
    } else {
      assert SmallRefs(from, to) == {};
    }
  }

  lemma {:induction false} LargeCount(n: nat)
    ensures |LargeRefs(n)| == n
  {
    if n > 0 {
      LargeCount(n - 1);
      assert LargeRefs(n) == LargeRefs(n - 1) + {Large(n - 1)};
    } else {
      assert LargeRefs(n) == {};
    }
  }

  lemma SubsetCount<T>(a: set<T>, b: set<T>)
    requires a <= b
    ensures |a| <= |b| && (a != b ==> |a| < |b|)
  {
    assert b == a + (b - a);
  }

  // The number of chunks is at most a quarter of the words they tile.
  lemma {:induction false} ChunkCount(cs: seq<Chunk>, start: nat, stop: nat)
    requires Tiles(cs, start, stop)
    ensures start + CHUNK_WORDS * |cs| <= stop
  {
    if cs != [] {
      ChunkCount(cs[1..], End(cs[0]), stop);
    }
  }

  // There are never more marked objects than words in the two heaps.
  lemma MarkedCount(w: World, m: set<Ref>)
    requires Clean(w) && forall r | r in m :: IsRef(w, r)
    ensures |m| <= Stop(w.space) - Start(w.space) + (w.stop - w.start)
    ensures m <= AllRefs(w)
  {
    SmallCount(Start(w.space), Stop(w.space));
    LargeCount(|w.chunks|);
    ChunkCount(w.chunks, w.start, w.stop);
    assert m <= AllRefs(w);
    SubsetCount(m, AllRefs(w));
  }
}