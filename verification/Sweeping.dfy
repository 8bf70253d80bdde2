// What unmarking, marking and recycling do to the small-object space
// (src/collector.c, GC_GlobalAllocator_recycleBlocks in src/global_allocator.c).
module Sweeping {
  import opened LineHeader
  import opened Space
  import opened Bump

  predicate SameBounds(s: Space, t: Space) {
    && Shape(s) && Shape(t)
    && s.low == t.low && s.high == t.high
    && |s.blocks| == |t.blocks|
  }

  predicate UsableLine(s: Space, l: nat) {
    Start(s) <= LINE * l < Stop(s) && l % BLOCK_LINES != 0
  }

  // ---------------------------------------------------------------- mark bits

  // s and t differ in mark bits only.
  ghost predicate SameObjects(s: Space, t: Space) {
    && SameBounds(s, t)
    && (forall l | 0 <= l < |s.lines| ::
          t.lines[l].occupied == s.lines[l].occupied && t.lines[l].offset == s.lines[l].offset)
    && (forall i: nat | i < |s.words| ::
          t.words[i] == s.words[i] || (i > 0 && Visible(s, i - 1) && t.words[i] / 256 == s.words[i] / 256))
  }

  lemma SameObjectsVisible(s: Space, t: Space, d: nat)
    requires WF(s) && SameObjects(s, t) && InSmallHeap(s, d)
    ensures Visible(t, d) == Visible(s, d) && Node(t, d) == Node(s, d)
    ensures Node(s, d) ==> t.words[d] == s.words[d]
  {
    forall i: nat | i <= d && i / LINE == d / LINE && Node(s, i)
      ensures t.words[i] == s.words[i]
    {
      if i > 0 && Visible(s, i - 1) {
        NodeNotFlag(s, i - 1, i);
      }
    }
    VisibleFrame(s, t, d);
  }

  lemma SameObjectsWF(s: Space, t: Space)
    requires WF(s) && SameObjects(s, t)
    ensures WF(t)
  {
    forall l | Start(t) <= LINE * l < Stop(t)
      ensures LineOK(t, l)
    {
      assert LineOK(s, l);
      if s.lines[l].occupied {
        FirstVisible(s, l);
        SameObjectsVisible(s, t, First(s, l));
      }
    }
    forall l | Start(t) < LINE * l < Stop(t)
      ensures BoundaryOK(t, l)
    {
      assert BoundaryOK(s, l);
      SameObjectsVisible(s, t, LINE * l - 1);
    }
    forall d | Visible(t, d)
      ensures ObjectOK(t, d)
    {
      SameObjectsVisible(s, t, d);
      assert ObjectOK(s, d);
    }
  }

  lemma SameObjectsSolid(s: Space, t: Space, o: nat)
    requires WF(s) && SameObjects(s, t) && Solid(s, o)
    ensures Solid(t, o) && t.words[o] == s.words[o]
  {
    SameObjectsVisible(s, t, o);
    forall d: nat | Visible(t, d) && d != o
      ensures d + HEADER <= o || o + t.words[o] <= d
    {
      SameObjectsVisible(s, t, d);
    }
  }

  // Marking and unmarking never write into the payload of a live object.
  lemma SameObjectsPayload(s: Space, t: Space, o: nat, a: nat)
    requires WF(s) && SameObjects(s, t) && Solid(s, o) && o + HEADER <= a < o + s.words[o]
    ensures a < |s.words| && t.words[a] == s.words[a]
  {
  }

  // The unmark phase: every line, block and walk-reachable object loses its mark.
  ghost predicate IsUnmarked(s: Space, t: Space) {
    && SameBounds(s, t)
    && (forall i: nat | i < |s.words| ::
          t.words[i] == if i > 0 && Visible(s, i - 1) then ClearMark(s.words[i]) else s.words[i])
    && (forall l: nat | l < |s.lines| ::
          t.lines[l] == if UsableLine(s, l) then s.lines[l].Unmark() else s.lines[l])
    && (forall b: nat | b < |s.blocks| ::
          t.blocks[b] == if IsBlock(s, b) then s.blocks[b].(marked := false) else s.blocks[b])
  }

  // Marking object o marks its first line, and every line it covers if it is
  // longer than a line.
  predicate MarksLine(s: Space, o: nat, l: nat)
    requires o < |s.words|
  {
    l == o / LINE || (s.words[o] > LINE && o / LINE <= l && LINE * l < o + s.words[o])
  }

  // The state of an unmarked space s once exactly the objects in m are marked.
  ghost predicate IsPainted(s: Space, t: Space, m: set<nat>) {
    && SameBounds(s, t)
    && (forall o | o in m :: Visible(s, o) && o < |s.words|)
    && PaintedWords(s, t, m) && PaintedLines(s, t, m) && PaintedBlocks(s, t, m)
  }

  predicate PaintedWords(s: Space, t: Space, m: set<nat>)
    requires SameBounds(s, t)
  {
    forall i: nat | i < |s.words| ::
      t.words[i] == if i > 0 && i - 1 in m then SetMark(s.words[i]) else s.words[i]
  }

  predicate LineHit(s: Space, m: set<nat>, l: nat)
    requires forall o | o in m :: o < |s.words|
  {
    exists o :: o in m && MarksLine(s, o, l)
  }

  predicate BlockHit(m: set<nat>, b: nat) {
    exists o :: o in m && o / BLOCK == b
  }

  predicate PaintedLines(s: Space, t: Space, m: set<nat>)
    requires SameBounds(s, t) && forall o | o in m :: o < |s.words|
  {
    forall l: nat | l < |s.lines| :: t.lines[l] == s.lines[l].(marked := s.lines[l].marked || LineHit(s, m, l))
  }

  predicate PaintedBlocks(s: Space, t: Space, m: set<nat>)
    requires SameBounds(s, t)
  {
    forall b: nat | b < |s.blocks| :: t.blocks[b] == s.blocks[b].(marked := s.blocks[b].marked || BlockHit(m, b))
  }

  lemma UnmarkedSame(s: Space, t: Space)
    requires IsUnmarked(s, t)
    ensures SameObjects(s, t)
  {
  }

  lemma PaintedSame(s: Space, t: Space, m: set<nat>)
    requires IsPainted(s, t, m)
    ensures SameObjects(s, t)
  {
  }

  // ---------------------------------------------------------------- recycling

  // An unmarked line whose predecessor in the block is unmarked too.
  predicate HoleLine(s: Space, l: nat)
    requires l < |s.lines|
  {
    l % BLOCK_LINES >= 2 && !s.lines[l].marked && !s.lines[l - 1].marked
  }

  predicate HoleStart(s: Space, l: nat)
    requires l < |s.lines|
  {
    HoleLine(s, l) && !HoleLine(s, l - 1)
  }

  function EndLine(l: nat): nat {
    BLOCK_LINES * (l / BLOCK_LINES + 1)
  }

  // The hole that starts at line l ends before line e.
  predicate HoleEnd(s: Space, l: nat, e: nat)
    requires l < |s.lines| && |s.lines| % BLOCK_LINES == 0
  {
    && l < e <= EndLine(l)
    && (forall k | l <= k < e :: !s.lines[k].marked)
    && (e < EndLine(l) ==> s.lines[e].marked)
  }

  // The hole after line l in its block starts at line n (0: there is none).
  predicate NextHole(s: Space, l: nat, n: nat)
    requires l < |s.lines| && |s.lines| % BLOCK_LINES == 0
  {
    if n == 0 then forall k | l < k < EndLine(l) :: !HoleStart(s, k)
    else l < n < EndLine(l) && HoleStart(s, n) && forall k | l < k < n :: !HoleStart(s, k)
  }

  // What becomes of word i of a recycled block.
  predicate RecycledWord(s: Space, t: Space, i: nat)
    requires SameBounds(s, t) && i < |s.words|
  {
    if i % LINE == 0 && HoleStart(s, i / LINE) then
      t.words[i] % 256 == 0 && HoleEnd(s, i / LINE, t.words[i] / 256)
    else if i % LINE == 1 && HoleStart(s, i / LINE) then
      t.words[i] % 256 == 0 && NextHole(s, i / LINE, t.words[i] / 256)
    else
      t.words[i] == s.words[i]
  }

  predicate RecycledFlag(s: Space, block: Block, b: nat)
    requires Shape(s) && b < |s.blocks|
  {
    var l := BLOCK_LINES * b;
    if block.flag == Recyclable then
      && 1 <= block.first < BLOCK_LINES - 1 && HoleStart(s, l + 1 + block.first)
      && forall k | l < k < l + 1 + block.first :: !HoleStart(s, k)
    else
      block.flag == Unavailable && forall k | l < k < EndLine(l) :: !HoleStart(s, k)
  }

  ghost predicate RecycledBlock(s: Space, t: Space, b: nat)
    requires SameBounds(s, t) && IsBlock(s, b)
  {
    var l0 := BLOCK_LINES * b;
    if s.blocks[b].marked then
      && (forall i: nat | BLOCK * b <= i < BlockStop(b) :: RecycledWord(s, t, i))
      && (forall l: nat | l0 < l < l0 + BLOCK_LINES ::
            t.lines[l] == if s.lines[l].marked then s.lines[l] else EMPTY)
      && RecycledFlag(s, t.blocks[b], b)
    else
      && (forall i: nat | BLOCK * b <= i < BlockStop(b) :: t.words[i] == s.words[i])
      && (forall l: nat | l0 < l < l0 + BLOCK_LINES :: t.lines[l] == EMPTY)
      && t.blocks[b].flag == Free && t.blocks[b].first == 0
  }

  ghost predicate Recycled(s: Space, t: Space) {
    && SameBounds(s, t)
    && (forall b: nat | IsBlock(s, b) :: RecycledBlock(s, t, b))
    && (forall l: nat | l < |s.lines| && !UsableLine(s, l) ::
          t.lines[l] == s.lines[l] || (l % BLOCK_LINES == 0 && t.lines[l] == EMPTY))
    && (forall i: nat | i < |s.words| && !InSmallHeap(s, i) :: t.words[i] == s.words[i])
  }

  // The marks that protect object o.
  ghost predicate Covered(s: Space, o: nat)
    requires Shape(s) && InSmallHeap(s, o)
  {
    && s.blocks[o / BLOCK].marked
    && forall l: nat | l < |s.lines| && MarksLine(s, o, l) :: s.lines[l].marked
  }

  lemma PaintedCovered(s: Space, t: Space, m: set<nat>, o: nat)
    requires WF(s) && IsPainted(s, t, m) && o in m
    ensures InSmallHeap(t, o) && Covered(t, o)
  {
    assert Visible(s, o) && ObjectOK(s, o);
    PaintedSame(s, t, m);
    SameObjectsVisible(s, t, o);
    assert BlockHit(m, o / BLOCK);
    forall l: nat | l < |t.lines| && MarksLine(t, o, l)
      ensures t.lines[l].marked
    {
      assert MarksLine(s, o, l) && LineHit(s, m, l);
    }
  }

  // An object of at most one line covers at most two: dropping the first line of
  // every unmarked run clears it.
  lemma HoleClear(s: Space, o: nat, l: nat, e: nat)
    requires l < |s.lines| && |s.lines| % BLOCK_LINES == 0
    requires WF(s) && Visible(s, o) && Covered(s, o)
    requires HoleStart(s, l) && HoleEnd(s, l, e) && o / BLOCK == l / BLOCK_LINES
    ensures o + s.words[o] <= LINE * l || LINE * e <= o
  {
    assert MarksLine(s, o, o / LINE);
    assert !MarksLine(s, o, l) && !MarksLine(s, o, l - 1);
    assert e <= o / LINE || o / LINE < l - 1;
  }

  // In the recycled space the walk keeps the marked lines of the marked blocks.
  lemma RecycledVisible(s: Space, t: Space, d: nat)
    requires WF(s) && Recycled(s, t) && InSmallHeap(s, d)
    ensures Visible(t, d) <==> Visible(s, d) && s.lines[d / LINE].marked && s.blocks[d / BLOCK].marked
    ensures Visible(t, d) ==> t.words[d] == s.words[d]
  {
    InHeap(s.low, s.high, d);
    RecycledLine(s, t, d / LINE);
    if t.lines[d / LINE].occupied {
      KeptLine(s, t, d / LINE);
      hide WF, Recycled;
      VisibleFrame(s, t, d);
    } else {
      hide WF, Recycled;
    }
  }

  // Every word of a marked line of a marked block stays.
  lemma KeptLine(s: Space, t: Space, l: nat)
    requires Recycled(s, t) && Start(s) <= LINE * l < Stop(s) && s.lines[l].marked
    requires s.blocks[l / BLOCK_LINES].marked
    ensures forall i: nat | i / LINE == l && i < |s.words| :: t.words[i] == s.words[i]
  {
    forall i: nat | i / LINE == l && i < |s.words|
      ensures t.words[i] == s.words[i]
    {
      SameLineInside(s.low, s.high, LINE * l, i);
      InHeap(s.low, s.high, i);
      RecycledAt(s, t, i / BLOCK, i);
    }
  }

  lemma RecycledWF(s: Space, t: Space)
    requires WF(s) && Recycled(s, t)
    ensures WF(t)
  {
    forall l | Start(t) <= LINE * l < Stop(t)
      ensures LineOK(t, l)
    {
      RecycledLine(s, t, l);
      assert LineOK(s, l);
      if t.lines[l].occupied {
        FirstVisible(s, l);
        RecycledVisible(s, t, First(s, l));
      }
    }
    forall l | Start(t) < LINE * l < Stop(t)
      ensures BoundaryOK(t, l)
    {
      assert BoundaryOK(s, l);
      RecycledLine(s, t, l);
      RecycledVisible(s, t, LINE * l - 1);
    }
    forall d | Visible(t, d)
      ensures ObjectOK(t, d)
    {
      RecycledVisible(s, t, d);
      assert ObjectOK(s, d);
    }
  }

  lemma RecycledLine(s: Space, t: Space, l: nat)
    requires WF(s) && Recycled(s, t) && Start(s) <= LINE * l < Stop(s)
    ensures t.lines[l].occupied <==>
            s.lines[l].occupied && s.lines[l].marked && s.blocks[l / BLOCK_LINES].marked
    ensures t.lines[l].occupied ==> t.lines[l] == s.lines[l]
  {
    var b := l / BLOCK_LINES;
    assert IsBlock(s, b) && RecycledBlock(s, t, b);
    if l % BLOCK_LINES == 0 {
      assert !UsableLine(s, l) && LineOK(s, l);
    }
  }

  // Every hole is free of visible headers and of protected objects.
  lemma HoleFree(s: Space, t: Space, held: set<nat>, b: nat, l: nat, e: nat)
    requires WF(s) && Recycled(s, t) && IsBlock(s, b) && l / BLOCK_LINES == b
    requires HoleStart(s, l) && HoleEnd(s, l, e)
    requires forall o | o in held :: Visible(s, o) && Covered(s, o)
    ensures FreeRange(t, held, b, LINE * l, LINE * e)
  {
    forall d: nat | Visible(t, d) && d / BLOCK == b
      ensures d + HEADER <= LINE * l || LINE * e <= d
    {
      RecycledVisible(s, t, d);
      hide WF, Recycled, Visible;
      OutsideHole(s, l, e, d);
    }
    forall o: nat | o in held && o / BLOCK == b
      ensures o + Size(t, o) <= LINE * l || LINE * e <= o
    {
      CoveredVisible(s, t, o);
      HoleClear(s, o, l, e);
    }
    hide WF, Recycled, Visible, Covered, HoleStart, HoleEnd;
  }

  // A marked line is not in a hole, nor the line before it.
  lemma OutsideHole(s: Space, l: nat, e: nat, d: nat)
    requires Shape(s) && l < |s.lines| && HoleStart(s, l) && HoleEnd(s, l, e)
    requires d / LINE < |s.lines| && s.lines[d / LINE].marked
    ensures d + HEADER <= LINE * l || LINE * e <= d
  {
    assert !(l - 1 <= d / LINE < e);
  }

  lemma CoveredVisible(s: Space, t: Space, o: nat)
    requires WF(s) && Recycled(s, t) && Visible(s, o) && Covered(s, o)
    ensures Visible(t, o) && t.words[o] == s.words[o]
  {
    assert MarksLine(s, o, o / LINE);
    RecycledVisible(s, t, o);
  }

  // No line that a protected object covers belongs to a hole.
  lemma CoveredLine(s: Space, o: nat, a: nat)
    requires WF(s) && Visible(s, o) && Covered(s, o) && o <= a < o + s.words[o]
    ensures a < |s.words| && a / BLOCK == o / BLOCK && !HoleLine(s, a / LINE)
  {
  }

  // The words of a protected object survive recycling.
  lemma CoveredWords(s: Space, t: Space, o: nat, a: nat)
    requires WF(s) && Recycled(s, t) && Visible(s, o) && Covered(s, o) && o <= a < o + s.words[o]
    ensures a < |s.words| == |t.words| && t.words[a] == s.words[a]
  {
    CoveredLine(s, o, a);
    assert IsBlock(s, a / BLOCK) && RecycledBlock(s, t, a / BLOCK);
    assert RecycledWord(s, t, a);
  }

  lemma LineAddress(w: nat)
    requires w % 256 == 0
    ensures w / 8 == LINE * (w / 256)
  {
  }

  function LimitLine(t: Space, l: nat): nat
    requires LINE * l < |t.words|
  {
    t.words[LINE * l] / 256
  }

  function NextLine(t: Space, l: nat): nat
    requires LINE * l + 1 < |t.words|
  {
    t.words[LINE * l + 1] / 256
  }

  lemma RecycledAt(s: Space, t: Space, b: nat, i: nat)
    requires Recycled(s, t) && IsBlock(s, b) && s.blocks[b].marked && BLOCK * b <= i < BlockStop(b)
    ensures i < |s.words| && RecycledWord(s, t, i)
  {
  }

  // The record written at a hole start: where it ends, and the next hole.
  lemma RecycledRecord(s: Space, t: Space, b: nat, l: nat)
    requires SameBounds(s, t) && l < |s.lines| && LINE * l + 1 < |t.words| && l / BLOCK_LINES == b
    requires WF(s) && Recycled(s, t) && IsBlock(s, b) && s.blocks[b].marked && HoleStart(s, l)
    ensures HoleLimit(t, LINE * l) == LINE * LimitLine(t, l) && HoleEnd(s, l, LimitLine(t, l))
    ensures HoleNext(t, LINE * l) == LINE * NextLine(t, l) && NextHole(s, l, NextLine(t, l))
  {
    var h := LINE * l;
    assert BLOCK * b <= h < h + 1 < BlockStop(b);
    assert h / LINE == l && h % LINE == 0 && (h + 1) / LINE == l && (h + 1) % LINE == 1;
    RecycledAt(s, t, b, h);
    RecycledAt(s, t, b, h + 1);
    hide Recycled, WF, HoleStart, HoleEnd, NextHole;
    LineAddress(t.words[h]);
    LineAddress(t.words[h + 1]);
  }

  lemma HoleInside(s: Space, l: nat, e: nat, k: nat)
    requires Shape(s) && l < |s.lines| && HoleStart(s, l) && HoleEnd(s, l, e) && l <= k < e
    ensures k < |s.lines| && HoleLine(s, k)
  {
    assert !s.lines[k].marked;
    if l < k {
      assert !s.lines[k - 1].marked;
    }
  }

  lemma NextAfterEnd(s: Space, l: nat, e: nat, n: nat)
    requires Shape(s) && l < |s.lines| && HoleStart(s, l) && HoleEnd(s, l, e) && NextHole(s, l, n) && n != 0
    ensures e < n && n / BLOCK_LINES == l / BLOCK_LINES
  {
    if n <= e {
      HoleInside(s, l, e, n - 1);
    }
  }

  // One hole, ready to be linked in front of the holes after it.
  lemma RecycledHole(s: Space, t: Space, held: set<nat>, b: nat, l: nat)
    requires WF(s) && Recycled(s, t) && IsBlock(s, b) && s.blocks[b].marked
    requires forall o | o in held :: Visible(s, o) && Covered(s, o)
    requires l < |s.lines| && l / BLOCK_LINES == b && HoleStart(s, l)
    ensures LINE * l + LINE <= BlockStop(b)
    ensures HoleLimit(t, LINE * l) == LINE * LimitLine(t, l) && l < LimitLine(t, l) <= BLOCK_LINES * (b + 1)
    ensures HoleNext(t, LINE * l) == LINE * NextLine(t, l)
    ensures NextLine(t, l) != 0 ==>
              NextLine(t, l) < |s.lines| && NextLine(t, l) / BLOCK_LINES == b
              && HoleStart(s, NextLine(t, l)) && LimitLine(t, l) < NextLine(t, l)
    ensures FreeRange(t, held, b, LINE * l, LINE * LimitLine(t, l))
  {
    var e, n := LimitLine(t, l), NextLine(t, l);
    RecycledRecord(s, t, b, l);
    HoleFree(s, t, held, b, l, e);
    if n != 0 {
      NextAfterEnd(s, l, e, n);
    }
  }

  // The linked holes of a recycled block, from any hole on.
  lemma {:induction false} RecycledChain(s: Space, t: Space, held: set<nat>, b: nat, from: nat, l: nat)
    requires WF(s) && Recycled(s, t) && IsBlock(s, b) && s.blocks[b].marked
    requires forall o | o in held :: Visible(s, o) && Covered(s, o)
    requires l == 0 || (l < |s.lines| && l / BLOCK_LINES == b && HoleStart(s, l) && from < LINE * l)
    ensures HoleChain(t, held, b, from, LINE * l)
    decreases BlockStop(b) - from
  {
    hide RecycledBlock, HoleStart, Covered, Visible, FreeRange, LineOK, ObjectOK, BoundaryOK;
    if l != 0 {
      RecycledHole(s, t, held, b, l);
      RecycledChain(s, t, held, b, LINE * LimitLine(t, l), NextLine(t, l));
      ChainLink(t, held, b, from, LINE * l);
    }
  }

  // Adding one hole in front of a chain.
  lemma ChainLink(t: Space, held: set<nat>, b: nat, from: nat, h: nat)
    requires Shape(t) && IsBlock(t, b) && from < h && h + LINE <= BlockStop(b) && h % LINE == 0
    requires h < HoleLimit(t, h) <= BlockStop(b) && HoleLimit(t, h) % LINE == 0
    requires FreeRange(t, held, b, h, HoleLimit(t, h))
    requires HoleChain(t, held, b, HoleLimit(t, h), HoleNext(t, h))
    ensures HoleChain(t, held, b, from, h)
  {
  }

  // The region that a local allocator derives from a listed block.
  function InitialRegion(s: Space, b: nat): Region
    requires Shape(s) && b < |s.blocks| && s.blocks[b].first < BLOCK_LINES - 1
  {
    if s.blocks[b].flag == Free then Region(b, BlockStart(b), BlockStop(b), 0)
    else
      var h := BlockStart(b) + LINE * s.blocks[b].first;
      Region(b, h, HoleLimit(s, h), HoleNext(s, h))
  }

  lemma RecycledRegion(s: Space, t: Space, held: set<nat>, b: nat)
    requires WF(s) && Recycled(s, t) && IsBlock(s, b)
    requires forall o | o in held :: Visible(s, o) && Covered(s, o)
    requires t.blocks[b].flag != Unavailable && t.blocks[b].first < BLOCK_LINES - 1
    ensures RegionOK(t, held, InitialRegion(t, b))
  {
    ShapeAfter(s, t, b);
    hide WF, Recycled, RecycledBlock, Covered, Visible, HoleStart, RegionOK;
    if s.blocks[b].marked {
      FirstHoleLine(s, t, b);
      var l := BLOCK_LINES * b + 1 + t.blocks[b].first;
      RecycledChain(s, t, held, b, LINE * l - 1, l);
      ChainRegion(t, held, b, LINE * l);
    } else {
      FreedRegion(s, t, held, b);
    }
  }

  lemma ShapeAfter(s: Space, t: Space, b: nat)
    requires Recycled(s, t) && IsBlock(s, b)
    ensures Shape(t) && IsBlock(t, b)
  {
  }

  // Where the hole list of a recycled block starts.
  lemma FirstHoleLine(s: Space, t: Space, b: nat)
    requires Recycled(s, t) && IsBlock(s, b) && s.blocks[b].marked
    requires t.blocks[b].flag != Unavailable && t.blocks[b].first < BLOCK_LINES - 1
    ensures var l := BLOCK_LINES * b + 1 + t.blocks[b].first;
            && t.blocks[b].flag == Recyclable && l < |s.lines| && l / BLOCK_LINES == b && HoleStart(s, l)
            && LINE * l == BlockStart(b) + LINE * t.blocks[b].first
  {
    hide HoleStart;
    assert RecycledBlock(s, t, b);
  }

  // The first hole of a chain is a cursor.
  lemma ChainRegion(t: Space, held: set<nat>, b: nat, h: nat)
    requires Shape(t) && IsBlock(t, b) && BlockStart(b) <= h && HoleChain(t, held, b, h - 1, h)
    ensures h + LINE <= BlockStop(b) && RegionOK(t, held, Region(b, h, HoleLimit(t, h), HoleNext(t, h)))
  {
  }

  lemma FreedRegion(s: Space, t: Space, held: set<nat>, b: nat)
    requires WF(s) && Recycled(s, t) && IsBlock(s, b) && !s.blocks[b].marked
    requires forall o | o in held :: Visible(s, o) && Covered(s, o)
    ensures t.blocks[b].flag == Free && RegionOK(t, held, Region(b, BlockStart(b), BlockStop(b), 0))
  {
    assert RecycledBlock(s, t, b);
    FreedRange(s, t, held, b);
  }

  lemma FreedRange(s: Space, t: Space, held: set<nat>, b: nat)
    requires WF(s) && Recycled(s, t) && IsBlock(s, b) && !s.blocks[b].marked
    requires forall o | o in held :: Visible(s, o) && Covered(s, o)
    ensures FreeRange(t, held, b, BlockStart(b), BlockStop(b))
  {
    forall d: nat | Visible(t, d)
      ensures d / BLOCK != b
    {
      RecycledVisible(s, t, d);
    }
  }
}
