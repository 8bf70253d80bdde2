// Bump allocation through free ranges and linked holes
// (src/local_allocator.c, include/block.h Line_update).
module Bump {
  import opened LineHeader
  import opened Space

  // The words a cursor may still hand out in one block: [pos, limit), then the
  // holes linked from `next` (0: none).  Hole records live in the free words:
  // a hole at h stores 8 * limit in word h and 8 * next in word h + 1.
  datatype Region = Region(block: nat, pos: nat, limit: nat, next: nat)

  // No visible header and no held object touches [lo, hi) in block b.
  ghost predicate FreeRange(s: Space, held: set<nat>, b: nat, lo: nat, hi: nat)
    requires Shape(s)
  {
    && (forall d: nat | Visible(s, d) && d / BLOCK == b :: d + HEADER <= lo || hi <= d)
    && (forall o: nat | o in held && o / BLOCK == b :: o + Size(s, o) <= lo || hi <= o)
  }

  // In a line that already holds objects the walk ends at the cursor.
  ghost predicate AtCursor(s: Space, pos: nat, limit: nat)
    requires Shape(s) && limit <= Stop(s)
  {
    pos < limit && s.lines[pos / LINE].occupied && pos % LINE != 0 ==>
      s.words[pos] == 0 && Node(s, pos)
  }

  function HoleLimit(s: Space, h: nat): nat
    requires h < |s.words|
  {
    s.words[h] / 8
  }

  function HoleNext(s: Space, h: nat): nat
    requires h + 1 < |s.words|
  {
    s.words[h + 1] / 8
  }

  // The holes linked from h are disjoint free ranges of block b above `from`.
  ghost predicate HoleChain(s: Space, held: set<nat>, b: nat, from: nat, h: nat)
    requires Shape(s) && IsBlock(s, b)
    decreases BlockStop(b) - from
  {
    h == 0 ||
    (&& from < h && h + LINE <= BlockStop(b) && h % LINE == 0
     && h < HoleLimit(s, h) <= BlockStop(b) && HoleLimit(s, h) % LINE == 0
     && FreeRange(s, held, b, h, HoleLimit(s, h))
     && HoleChain(s, held, b, HoleLimit(s, h), HoleNext(s, h)))
  }

  ghost predicate CursorOK(s: Space, held: set<nat>, b: nat, pos: nat, limit: nat)
    requires Shape(s)
  {
    && IsBlock(s, b)
    && BlockStart(b) <= pos <= limit <= BlockStop(b) && limit % LINE == 0
    && FreeRange(s, held, b, pos, limit)
    && AtCursor(s, pos, limit)
  }

  ghost predicate RegionOK(s: Space, held: set<nat>, r: Region)
    requires Shape(s)
  {
    && CursorOK(s, held, r.block, r.pos, r.limit)
    && HoleChain(s, held, r.block, r.limit, r.next)
  }

  // ---------------------------------------------------------------- allocation

  function Stamp(s: Space, c: nat): seq<Line>
    requires c / LINE < |s.lines|
  {
    if s.lines[c / LINE].occupied then s.lines
    else s.lines[c / LINE := s.lines[c / LINE].SetOffset(c % LINE)]
  }

  function Write(words: seq<nat>, c: nat, limit: nat, n: nat, atomic: bool): seq<nat>
    requires HEADER <= n && c + n <= limit <= |words|
  {
    var cleared := if c + n < limit then words[c + n := 0] else words;
    cleared[c := n][c + 1 := SetAtomic(words[c + 1], atomic)]
  }

  // An object of n words at the cursor of r.
  function Bumped(s: Space, r: Region, n: nat, atomic: bool): Space
    requires Shape(s) && HEADER <= n && r.pos + n <= r.limit <= Stop(s)
  {
    s.(words := Write(s.words, r.pos, r.limit, n, atomic), lines := Stamp(s, r.pos))
  }

  lemma BumpedLength(s: Space, r: Region, n: nat, atomic: bool)
    requires Shape(s) && HEADER <= n && r.pos + n <= r.limit <= Stop(s)
    ensures |Bumped(s, r, n, atomic).words| == |s.words|
  {
  }

  function Advance(r: Region, n: nat): Region {
    r.(pos := r.pos + n)
  }

  // Lines wholly inside a free range hold no object.
  lemma FreeLine(s: Space, held: set<nat>, b: nat, lo: nat, hi: nat, l: nat)
    requires WF(s) && IsBlock(s, b) && FreeRange(s, held, b, lo, hi)
    requires BlockStart(b) <= lo <= LINE * l < hi <= BlockStop(b) && hi % LINE == 0
    ensures !s.lines[l].occupied
  {
    assert LINE * l + LINE <= hi;
    if s.lines[l].occupied {
      FirstVisible(s, l);
    }
  }

  ghost predicate CanBump(s: Space, held: set<nat>, r: Region, n: nat)
    requires Shape(s)
  {
    CursorOK(s, held, r.block, r.pos, r.limit) && HEADER <= n <= LARGE && r.pos + n <= r.limit
  }

  // In lines other than the cursor's, nothing changes.
  lemma BumpOtherLine(s: Space, held: set<nat>, r: Region, n: nat, atomic: bool, d: nat)
    requires WF(s) && CanBump(s, held, r, n) && d < Stop(s) && d / LINE != r.pos / LINE
    ensures Visible(Bumped(s, r, n, atomic), d) == Visible(s, d)
    ensures Node(Bumped(s, r, n, atomic), d) == Node(s, d)
  {
    var t := Bumped(s, r, n, atomic);
    if r.pos <= LINE * (d / LINE) < r.limit {
      FreeLine(s, held, r.block, r.pos, r.limit, d / LINE);
    } else {
      VisibleFrame(s, t, d);
    }
  }

  // In the cursor's line the walk gains exactly the new object.
  lemma BumpSameLine(s: Space, held: set<nat>, r: Region, n: nat, atomic: bool, d: nat)
    requires WF(s) && CanBump(s, held, r, n) && d / LINE == r.pos / LINE
    ensures Visible(Bumped(s, r, n, atomic), d) <==> Visible(s, d) || d == r.pos
    ensures Reaches(Bumped(s, r, n, atomic).words, First(Bumped(s, r, n, atomic), r.pos / LINE), r.pos)
  {
    var t := Bumped(s, r, n, atomic);
    var l := r.pos / LINE;
    var f := First(t, l);
    if s.lines[l].occupied {
      if r.pos % LINE == 0 {
        FreeLine(s, held, r.block, r.pos, r.limit, l);
      }
      ReachesFrame(s.words, t.words, f, r.pos);
    }
    if d < r.pos {
      if s.lines[l].occupied {
        ReachesFrame(s.words, t.words, f, d);
      }
    } else if r.pos < d {
      AfterCursor(s, held, r, n, atomic, d);
    }
  }

  // The rest of a line above the cursor lies below the limit.
  lemma BelowLimit(b: nat, pos: nat, limit: nat, d: nat)
    requires BLOCK * b <= pos < limit <= BlockStop(b) && limit % LINE == 0 && d / LINE == pos / LINE && pos < d
    ensures d < limit && d / BLOCK == b
  {
    assert pos / LINE < limit / LINE;
  }

  lemma AfterCursor(s: Space, held: set<nat>, r: Region, n: nat, atomic: bool, d: nat)
    requires WF(s) && CanBump(s, held, r, n) && d / LINE == r.pos / LINE && r.pos < d
    requires var t := Bumped(s, r, n, atomic); Reaches(t.words, First(t, r.pos / LINE), r.pos)
    ensures !Visible(Bumped(s, r, n, atomic), d) && !Visible(s, d)
  {
    var t := Bumped(s, r, n, atomic);
    var f := First(t, r.pos / LINE);
    BelowLimit(r.block, r.pos, r.limit, d);
    assert r.pos + n < r.limit ==> t.words[r.pos + n] == 0;
    if Node(t, d) {
      ReachesSplit(t.words, f, r.pos, d);
    }
  }

  lemma BumpVisible(s: Space, held: set<nat>, r: Region, n: nat, atomic: bool, d: nat)
    requires WF(s) && CanBump(s, held, r, n)
    ensures Visible(Bumped(s, r, n, atomic), d) <==> Visible(s, d) || d == r.pos
  {
    if d < Stop(s) {
      if d / LINE == r.pos / LINE {
        BumpSameLine(s, held, r, n, atomic, d);
      } else {
        BumpOtherLine(s, held, r, n, atomic, d);
      }
    }
  }

  // ------------------------------------------------------- what a bump preserves

  lemma BumpLineOK(s: Space, held: set<nat>, r: Region, n: nat, atomic: bool, l: nat)
    requires WF(s) && CanBump(s, held, r, n) && Start(s) <= LINE * l < Stop(s)
    ensures LineOK(Bumped(s, r, n, atomic), l)
  {
    var t := Bumped(s, r, n, atomic);
    assert LineOK(s, l);
    if s.lines[l].occupied {
      FirstVisible(s, l);
      assert First(s, l) < r.pos || r.limit <= First(s, l);
    } else if l == r.pos / LINE {
      StampedLine(r.block, r.pos, l);
    }
  }

  lemma StampedLine(b: nat, pos: nat, l: nat)
    requires BlockStart(b) <= pos < BlockStop(b) && l == pos / LINE
    ensures l % BLOCK_LINES != 0 && LINE * l + pos % LINE == pos
  {
  }

  lemma BumpBoundaryOK(s: Space, held: set<nat>, r: Region, n: nat, atomic: bool, l: nat)
    requires WF(s) && CanBump(s, held, r, n) && Start(s) < LINE * l < Stop(s)
    ensures BoundaryOK(Bumped(s, r, n, atomic), l)
  {
    var t := Bumped(s, r, n, atomic);
    var e: nat := LINE * l - 1;
    assert BoundaryOK(s, l);
    BumpVisible(s, held, r, n, atomic, e);
    BumpLineOK(s, held, r, n, atomic, l);
    if t.lines[l].occupied {
      FirstVisibleAfter(t, l);
      BumpVisible(s, held, r, n, atomic, First(t, l));
    }
  }

  lemma FirstVisibleAfter(t: Space, l: nat)
    requires Shape(t) && Start(t) <= LINE * l < Stop(t) && LineOK(t, l) && t.lines[l].occupied
    ensures Visible(t, First(t, l))
  {
    LineRange(t, l, First(t, l));
  }

  lemma LineRange(s: Space, l: nat, a: nat)
    requires Start(s) <= LINE * l < Stop(s) && LINE * l <= a < LINE * (l + 1)
    ensures a / LINE == l && Start(s) <= a < Stop(s)
  {
  }

  lemma BumpWF(s: Space, held: set<nat>, r: Region, n: nat, atomic: bool)
    requires WF(s) && CanBump(s, held, r, n)
    ensures WF(Bumped(s, r, n, atomic))
  {
    var t := Bumped(s, r, n, atomic);
    BumpShape(s, held, r, n, atomic);
    hide CanBump, Bumped, Visible, LineOK, BoundaryOK, ObjectOK;
    forall l | Start(t) <= LINE * l < Stop(t)
      ensures LineOK(t, l)
    {
      BumpLineOK(s, held, r, n, atomic, l);
    }
    forall l | Start(t) < LINE * l < Stop(t)
      ensures BoundaryOK(t, l)
    {
      BumpBoundaryOK(s, held, r, n, atomic, l);
    }
    forall d | Visible(t, d)
      ensures ObjectOK(t, d)
    {
      BumpObjectOK(s, held, r, n, atomic, d);
    }
  }

  lemma BumpShape(s: Space, held: set<nat>, r: Region, n: nat, atomic: bool)
    requires Shape(s) && CanBump(s, held, r, n)
    ensures var t := Bumped(s, r, n, atomic); Shape(t) && t.low == s.low && t.high == s.high
  {
  }

  lemma BumpObjectOK(s: Space, held: set<nat>, r: Region, n: nat, atomic: bool, d: nat)
    requires WF(s) && CanBump(s, held, r, n) && Visible(Bumped(s, r, n, atomic), d)
    ensures ObjectOK(Bumped(s, r, n, atomic), d)
  {
    BumpVisible(s, held, r, n, atomic, d);
    if d != r.pos {
      assert ObjectOK(s, d);
      BumpSize(s, held, r, n, atomic, d);
      hide *;
      SameObjectOK(s, Bumped(s, r, n, atomic), d);
    } else {
      InOneBlock(r.block, d);
      hide WF, Visible;
    }
  }

  lemma InOneBlock(b: nat, d: nat)
    requires BLOCK * b <= d < BlockStop(b)
    ensures d / BLOCK == b
  {
  }

  lemma SameObjectOK(s: Space, t: Space, d: nat)
    requires Shape(s) && Shape(t) && InSmallHeap(s, d) && InSmallHeap(t, d) && ObjectOK(s, d)
    requires t.words[d] == s.words[d]
    ensures ObjectOK(t, d)
  {
  }

  lemma BumpSize(s: Space, held: set<nat>, r: Region, n: nat, atomic: bool, d: nat)
    requires WF(s) && CanBump(s, held, r, n) && Visible(s, d)
    ensures d != r.pos && Bumped(s, r, n, atomic).words[d] == s.words[d]
  {
  }

  // The words of every held object survive, and the new object meets none.
  lemma BumpKeepsHeld(s: Space, held: set<nat>, r: Region, n: nat, atomic: bool, o: nat, a: nat)
    requires WF(s) && CanBump(s, held, r, n) && HeldOK(s, held) && o in held
    requires o <= a < o + s.words[o]
    ensures Bumped(s, r, n, atomic).words[a] == s.words[a]
    ensures !(r.pos <= a < r.pos + n)
  {
  }

  lemma BumpHeld(s: Space, held: set<nat>, r: Region, n: nat, atomic: bool)
    requires WF(s) && CanBump(s, held, r, n) && HeldOK(s, held)
    ensures HeldOK(Bumped(s, r, n, atomic), held + {r.pos})
  {
    forall o | o in held + {r.pos}
      ensures Visible(Bumped(s, r, n, atomic), o)
    {
      BumpVisible(s, held, r, n, atomic, o);
    }
  }

  lemma BumpSolid(s: Space, held: set<nat>, r: Region, n: nat, atomic: bool, o: nat)
    requires WF(s) && CanBump(s, held, r, n) && HeldOK(s, held)
    requires o == r.pos || (o in held && Solid(s, o))
    ensures Solid(Bumped(s, r, n, atomic), o)
  {
    var t := Bumped(s, r, n, atomic);
    BumpVisible(s, held, r, n, atomic, o);
    forall d: nat | Visible(t, d) && d != o
      ensures d + HEADER <= o || o + t.words[o] <= d
    {
      BumpVisible(s, held, r, n, atomic, d);
      if o != r.pos {
        BumpSize(s, held, r, n, atomic, o);
      }
      if d / BLOCK != o / BLOCK {
        BumpWF(s, held, r, n, atomic);
        assert ObjectOK(t, o) && ObjectOK(t, d);
      }
    }
  }

  // ------------------------------------------------------------ framing regions

  // Above `from`, block b keeps its words, gains no visible object and no held one.
  ghost predicate Quiet(s: Space, held: set<nat>, t: Space, held': set<nat>, b: nat, from: nat)
    requires Shape(s) && Shape(t) && IsBlock(s, b) && IsBlock(t, b)
  {
    && (forall i | from <= i < BlockStop(b) :: t.words[i] == s.words[i])
    && (forall d: nat | Visible(t, d) && d / BLOCK == b :: Visible(s, d) || d + HEADER <= from)
    && (forall o: nat | o in held' && o / BLOCK == b ::
          (o in held && Size(t, o) == Size(s, o)) || o + Size(t, o) <= from)
  }

  lemma {:induction false} HoleChainFrame(
      s: Space, held: set<nat>, t: Space, held': set<nat>, b: nat, from: nat, h: nat)
    requires Shape(s) && Shape(t) && IsBlock(s, b) && IsBlock(t, b)
    requires Quiet(s, held, t, held', b, from) && HoleChain(s, held, b, from, h)
    ensures HoleChain(t, held', b, from, h)
    decreases BlockStop(b) - from
  {
    if h != 0 {
      HoleChainFrame(s, held, t, held', b, HoleLimit(s, h), HoleNext(s, h));
    }
  }

  // Block b is untouched.
  ghost predicate SameBlock(s: Space, t: Space, b: nat)
    requires Shape(s) && Shape(t) && IsBlock(s, b) && IsBlock(t, b)
  {
    && (forall i | BLOCK * b <= i < BlockStop(b) :: t.words[i] == s.words[i])
    && (forall l | BLOCK_LINES * b <= l < BLOCK_LINES * (b + 1) :: t.lines[l] == s.lines[l])
  }

  lemma SameBlockVisible(s: Space, t: Space, b: nat, d: nat)
    requires Shape(s) && Shape(t) && IsBlock(s, b) && IsBlock(t, b) && SameBlock(s, t, b) && d / BLOCK == b
    ensures Visible(t, d) == Visible(s, d)
    ensures Node(t, d) == Node(s, d)
  {
    var l := d / LINE;
    assert BLOCK_LINES * b <= l < BLOCK_LINES * (b + 1);
    if s.lines[l].occupied && First(s, l) <= d {
      ReachesWithin(s.words, t.words, First(s, l), d);
    }
  }

  lemma ReachesWithin(words: seq<nat>, words': seq<nat>, a: nat, b: nat)
    requires b <= |words| && b <= |words'| && forall i | a <= i < b :: words'[i] == words[i]
    ensures Reaches(words', a, b) == Reaches(words, a, b)
    decreases b - a
  {
  }

  lemma RegionFrame(s: Space, held: set<nat>, t: Space, held': set<nat>, r: Region)
    requires Shape(s) && Shape(t) && RegionOK(s, held, r) && IsBlock(t, r.block)
    requires SameBlock(s, t, r.block)
    requires forall o: nat | o in held' && o / BLOCK == r.block :: o in held
    ensures RegionOK(t, held', r)
  {
    var b := r.block;
    forall d: nat | d / BLOCK == b
      ensures Visible(t, d) == Visible(s, d)
    {
      SameBlockVisible(s, t, b, d);
    }
    if r.pos < r.limit {
      SameBlockVisible(s, t, b, r.pos);
    }
    HoleChainFrame(s, held, t, held', b, r.limit, r.next);
  }

  lemma BumpElsewhere(s: Space, held: set<nat>, r: Region, n: nat, atomic: bool, r': Region)
    requires WF(s) && CanBump(s, held, r, n) && RegionOK(s, held, r') && r'.block != r.block
    ensures RegionOK(Bumped(s, r, n, atomic), held + {r.pos}, r')
  {
    RegionFrame(s, held, Bumped(s, r, n, atomic), held + {r.pos}, r');
  }

  lemma BumpQuiet(s: Space, held: set<nat>, r: Region, n: nat, atomic: bool)
    requires WF(s) && CanBump(s, held, r, n) && HeldOK(s, held)
    ensures FreeRange(Bumped(s, r, n, atomic), held + {r.pos}, r.block, r.pos + n, r.limit)
    ensures Quiet(s, held, Bumped(s, r, n, atomic), held + {r.pos}, r.block, r.limit)
  {
    var t := Bumped(s, r, n, atomic);
    forall d: nat | Visible(t, d)
      ensures Visible(s, d) || d == r.pos
    {
      BumpVisible(s, held, r, n, atomic, d);
    }
    forall o: nat | o in held
      ensures Size(t, o) == Size(s, o)
    {
      BumpSize(s, held, r, n, atomic, o);
    }
  }

  lemma BumpRegion(s: Space, held: set<nat>, r: Region, n: nat, atomic: bool)
    requires WF(s) && CanBump(s, held, r, n) && HeldOK(s, held) && RegionOK(s, held, r)
    ensures RegionOK(Bumped(s, r, n, atomic), held + {r.pos}, Advance(r, n))
  {
    BumpQuiet(s, held, r, n, atomic);
    HoleChainFrame(s, held, Bumped(s, r, n, atomic), held + {r.pos}, r.block, r.limit, r.next);
    BumpCursor(s, held, r, n, atomic);
  }

  lemma BumpCursor(s: Space, held: set<nat>, r: Region, n: nat, atomic: bool)
    requires WF(s) && CanBump(s, held, r, n)
    ensures AtCursor(Bumped(s, r, n, atomic), r.pos + n, r.limit)
  {
    var t := Bumped(s, r, n, atomic);
    var c := r.pos + n;
    if c < r.limit && c % LINE != 0 && t.lines[c / LINE].occupied {
      if c / LINE == r.pos / LINE {
        BumpSameLine(s, held, r, n, atomic, r.pos);
        ReachesStep(t.words, First(t, c / LINE), r.pos);
      } else {
        FreeLine(s, held, r.block, r.pos, r.limit, c / LINE);
      }
    }
  }
}
