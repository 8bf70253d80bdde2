// What a collection makes of a block, said of the marked objects alone.
module BlockFates {
  import opened Space
  import opened Bump
  import opened Sweeping
  import opened Marking
  import opened Recycling
  import opened Runs

  // No object in marked touches line l.  An object touches the line in which it starts
  // and, if it is longer than a line, every line that it covers.
  predicate Untouched(s: Space, marked: set<nat>, l: nat)
    requires forall o | o in marked :: o < |s.words|
  {
    forall o | o in marked ::
      o / LINE != l && !(s.words[o] > LINE && o / LINE <= l && LINE * l < o + s.words[o])
  }

  // Neither line l nor the next one is touched.
  predicate Pair(s: Space, marked: set<nat>, l: nat)
    requires forall o | o in marked :: o < |s.words|
  {
    Untouched(s, marked, l) && Untouched(s, marked, l + 1)
  }

  lemma SameMarked(s: Space, u: Space, p: Space, marked: set<nat>)
    requires WF(s) && IsUnmarked(s, u) && IsPainted(u, p, marked)
    ensures WF(p) && SameBounds(s, u) && SameBounds(s, p)
    ensures forall o | o in marked :: o < |s.words| && u.words[o] == s.words[o]
  {
    UnmarkedSame(s, u);
    SameObjectsWF(s, u);
    PaintedSame(u, p, marked);
    SameObjectsWF(u, p);
    forall o | o in marked
      ensures o < |s.words| && u.words[o] == s.words[o]
    {
      SameObjectsVisible(s, u, o);
    }
  }

  // The marked lines are the touched ones.
  lemma LinesTouched(s: Space, u: Space, p: Space, marked: set<nat>, b: nat)
    requires WF(s) && IsUnmarked(s, u) && IsPainted(u, p, marked) && IsBlock(s, b)
    ensures SameBounds(s, p) && forall o | o in marked :: o < |s.words|
    ensures forall l: nat | BLOCK_LINES * b < l < BLOCK_LINES * (b + 1) ::
              p.lines[l].marked <==> !Untouched(s, marked, l)
    ensures p.blocks[b].marked <==> exists o :: o in marked && o / BLOCK == b
  {
    SameMarked(s, u, p, marked);
    MarksExact(s, u, p, marked);
    hide WF, IsUnmarked, IsPainted;
    forall l: nat | BLOCK_LINES * b < l < BLOCK_LINES * (b + 1)
      ensures p.lines[l].marked <==> !Untouched(s, marked, l)
    {
      UsableOf(s.low, s.high, b, l);
    }
  }

  // The space after the mark phase of a collection.
  lemma Painted(s: Space, t: Space, marked: set<nat>, b: nat) returns (p: Space)
    requires WF(s) && Collected(s, t, marked) && IsBlock(s, b)
    ensures WF(p) && Recycled(p, t) && IsBlock(p, b)
    ensures SameBounds(s, p) && SameBounds(p, t) && |p.lines| % BLOCK_LINES == 0
    ensures Shape(p) && |p.words| == |t.words| == |s.words| == LINE * |p.lines| && b < |p.blocks|
    ensures BLOCK_LINES * (b + 1) <= |p.lines|
    ensures forall o | o in marked :: o < |s.words|
    ensures forall l: nat | BLOCK_LINES * b < l < BLOCK_LINES * (b + 1) ::
              l < |p.lines| && (p.lines[l].marked <==> !Untouched(s, marked, l))
    ensures p.blocks[b].marked <==> exists o :: o in marked && o / BLOCK == b
  {
    hide *;
    var u;
    u, p := Phases(s, t, marked);
    SameMarked(s, u, p, marked);
    LinesTouched(s, u, p, marked, b);
    Bounds(s, p, t, b);
  }

  lemma Phases(s: Space, t: Space, marked: set<nat>) returns (u: Space, p: Space)
    requires Collected(s, t, marked)
    ensures IsUnmarked(s, u) && IsPainted(u, p, marked) && Recycled(p, t)
  {
    hide IsUnmarked, IsPainted, Recycled;
    u, p :| IsUnmarked(s, u) && IsPainted(u, p, marked) && Recycled(p, t);
  }

  lemma Bounds(s: Space, p: Space, t: Space, b: nat)
    requires SameBounds(s, p) && Recycled(p, t) && IsBlock(s, b)
    ensures IsBlock(p, b) && SameBounds(p, t) && |p.lines| % BLOCK_LINES == 0 && Shape(p)
    ensures |p.words| == |t.words| == |s.words| == LINE * |p.lines| && b < |p.blocks|
    ensures BLOCK_LINES * (b + 1) <= |p.lines|
  {
  }

  lemma UsableOf(low: nat, high: nat, b: nat, l: nat)
    requires low <= b < high && BLOCK_LINES * b < l < BLOCK_LINES * (b + 1)
    ensures BLOCK_LINES * low <= l < BLOCK_LINES * high && l % BLOCK_LINES != 0 && l / BLOCK_LINES == b
    ensures l % BLOCK_LINES == l - BLOCK_LINES * b
  {
  }

  lemma SameOccupied(s: Space, u: Space, p: Space, marked: set<nat>, l: nat)
    requires IsUnmarked(s, u) && IsPainted(u, p, marked) && l < |s.lines|
    ensures l < |p.lines| && p.lines[l].occupied == s.lines[l].occupied
  {
    UnmarkedSame(s, u);
    PaintedSame(u, p, marked);
  }

  // Exactly the touched lines of a block with a marked object keep their objects.
  lemma LineFate(s: Space, t: Space, marked: set<nat>, b: nat, l: nat)
    requires WF(s) && Collected(s, t, marked) && IsBlock(s, b) && BLOCK_LINES * b < l < BLOCK_LINES * (b + 1)
    ensures SameBounds(s, t) && forall o | o in marked :: o < |s.words|
    ensures t.lines[l].occupied <==>
            s.lines[l].occupied && !Untouched(s, marked, l) && exists o :: o in marked && o / BLOCK == b
  {
    var u, p :| IsUnmarked(s, u) && IsPainted(u, p, marked) && Recycled(p, t);
    UsableOf(s.low, s.high, b, l);
    SameMarked(s, u, p, marked);
    LinesTouched(s, u, p, marked, b);
    SameOccupied(s, u, p, marked, l);
    assert SameBounds(p, t);
    hide WF, IsUnmarked, IsPainted, Recycled, Untouched;
    RecycledLine(p, t, l);
  }

  // A block is free exactly if no marked object starts in it, and recyclable exactly if
  // some does and two adjacent lines are untouched.
  lemma BlockFate(s: Space, t: Space, marked: set<nat>, b: nat)
    requires WF(s) && Collected(s, t, marked) && IsBlock(s, b)
    ensures SameBounds(s, t) && forall o | o in marked :: o < |s.words|
    ensures t.blocks[b].flag == Free <==> forall o | o in marked :: o / BLOCK != b
    ensures t.blocks[b].flag == Recyclable <==>
              && (exists o :: o in marked && o / BLOCK == b)
              && (exists l: nat :: BLOCK_LINES * b < l < BLOCK_LINES * (b + 1) - 1 && Pair(s, marked, l))
  {
    var u, p :| IsUnmarked(s, u) && IsPainted(u, p, marked) && Recycled(p, t);
    SameMarked(s, u, p, marked);
    LinesTouched(s, u, p, marked, b);
    assert SameBounds(p, t) && RecycledBlock(p, t, b);
    if p.blocks[b].marked {
      RecyclableIff(p, t, b);
      hide WF, IsUnmarked, IsPainted, Recycled, RecycledBlock, Untouched, HoleLine;
      PairsAre(p, s, marked, b);
    }
  }

  // Two adjacent untouched lines, or a hole.
  lemma PairsAre(p: Space, s: Space, marked: set<nat>, b: nat)
    requires SameBounds(s, p) && IsBlock(s, b) && forall o | o in marked :: o < |s.words|
    requires forall l: nat | BLOCK_LINES * b < l < BLOCK_LINES * (b + 1) ::
               p.lines[l].marked <==> !Untouched(s, marked, l)
    ensures (exists l: nat :: BLOCK_LINES * b < l < BLOCK_LINES * (b + 1) && HoleLine(p, l)) <==>
            (exists l: nat :: BLOCK_LINES * b < l < BLOCK_LINES * (b + 1) - 1 && Pair(s, marked, l))
  {
    forall l: nat | BLOCK_LINES * b < l < BLOCK_LINES * (b + 1)
      ensures l % BLOCK_LINES == l - BLOCK_LINES * b
    {
      UsableOf(s.low, s.high, b, l);
    }
    hide Untouched;
    if l: nat :| BLOCK_LINES * b < l < BLOCK_LINES * (b + 1) && HoleLine(p, l) {
      assert Pair(s, marked, l - 1);
    }
    if l: nat :| BLOCK_LINES * b < l < BLOCK_LINES * (b + 1) - 1 && Pair(s, marked, l) {
      assert HoleLine(p, l + 1);
    }
  }

  // ------------------------------------------------------------------ its holes

  // A run of untouched lines of block b, at least two, starts at line l - 1.
  predicate RunStarts(s: Space, marked: set<nat>, b: nat, l: nat)
    requires forall o | o in marked :: o < |s.words|
  {
    && BLOCK_LINES * b + 1 < l < BLOCK_LINES * (b + 1) && Pair(s, marked, l - 1)
    && (l - 2 == BLOCK_LINES * b || !Untouched(s, marked, l - 2))
  }

  lemma StartsAre(p: Space, s: Space, marked: set<nat>, b: nat, l: nat)
    requires SameBounds(s, p) && IsBlock(s, b) && forall o | o in marked :: o < |s.words|
    requires forall k: nat | BLOCK_LINES * b < k < BLOCK_LINES * (b + 1) ::
               p.lines[k].marked <==> !Untouched(s, marked, k)
    requires BLOCK_LINES * b < l < BLOCK_LINES * (b + 1)
    ensures HoleStart(p, l) <==> RunStarts(s, marked, b, l)
    ensures EndLine(l) == BLOCK_LINES * (b + 1)
  {
    UsableOf(s.low, s.high, b, l);
    hide Untouched;
    if l > BLOCK_LINES * b + 1 {
      UsableOf(s.low, s.high, b, l - 1);
      assert Pair(s, marked, l - 1) <==> Untouched(s, marked, l - 1) && Untouched(s, marked, l);
    }
  }

  lemma {:induction false} StartAbove(p: Space, e: nat, l: nat) returns (k: nat)
    requires e < l < |p.lines| && p.lines[e].marked && HoleLine(p, l)
    ensures e < k <= l && HoleStart(p, k)
  {
    if HoleStart(p, l) {
      k := l;
    } else {
      k := StartAbove(p, e, l - 1);
    }
  }

  // No hole starts from line `from` on, behind the touched line e, below line `to`.
  lemma NoPair(p: Space, s: Space, marked: set<nat>, b: nat, e: nat, to: nat, k: nat)
    requires SameBounds(s, p) && IsBlock(s, b) && forall o | o in marked :: o < |s.words|
    requires forall l: nat | BLOCK_LINES * b < l < BLOCK_LINES * (b + 1) ::
               p.lines[l].marked <==> !Untouched(s, marked, l)
    requires BLOCK_LINES * b < e <= k && k + 1 < to <= BLOCK_LINES * (b + 1) && p.lines[e].marked
    requires forall l | e < l < to :: !HoleStart(p, l)
    ensures !Pair(s, marked, k)
  {
    if Pair(s, marked, k) {
      UsableOf(s.low, s.high, b, k + 1);
      var l := StartAbove(p, e, k + 1);
    }
  }

  // The record that a collection writes at the second line of every run of untouched
  // lines: where the run ends, and where the next one starts.
  lemma HoleFate(s: Space, t: Space, marked: set<nat>, b: nat, l: nat)
    requires WF(s) && Collected(s, t, marked) && IsBlock(s, b) && exists o :: o in marked && o / BLOCK == b
    requires (forall o | o in marked :: o < |s.words|) && RunStarts(s, marked, b, l)
    ensures |t.words| == |s.words| && LINE * l + 1 < |t.words|
    ensures var e := t.words[LINE * l] / 256;
            && t.words[LINE * l] / 8 == LINE * e && l < e <= BLOCK_LINES * (b + 1)
            && (forall k: nat | l <= k < e :: Untouched(s, marked, k))
            && (e < BLOCK_LINES * (b + 1) ==> !Untouched(s, marked, e))
            && var n := t.words[LINE * l + 1] / 256;
               t.words[LINE * l + 1] / 8 == LINE * n &&
               if n == 0 then forall k: nat | e <= k < BLOCK_LINES * (b + 1) - 1 :: !Pair(s, marked, k)
               else RunStarts(s, marked, b, n) && e < n && forall k: nat | e <= k < n - 1 :: !Pair(s, marked, k)
  {
    hide *;
    var p := Painted(s, t, marked, b);
    StartIs(s, marked, b, l);
    LineInBlock(b, l, |p.lines|);
    StartsAre(p, s, marked, b, l);
    RecycledRecord(p, t, b, l);
    RecordWords(t, l);
    HoleOf(p, s, marked, b, l, LimitLine(t, l), NextLine(t, l));
  }

  lemma LineInBlock(b: nat, l: nat, lines: nat)
    requires BLOCK_LINES * (b + 1) <= lines && BLOCK_LINES * b < l < BLOCK_LINES * (b + 1)
    ensures l / BLOCK_LINES == b && LINE * l + 1 < LINE * lines
  {
  }

  lemma StartIs(s: Space, marked: set<nat>, b: nat, l: nat)
    requires (forall o | o in marked :: o < |s.words|) && RunStarts(s, marked, b, l)
    ensures BLOCK_LINES * b < l < BLOCK_LINES * (b + 1)
  {
  }

  lemma RecordWords(t: Space, l: nat)
    requires LINE * l + 1 < |t.words|
    ensures HoleLimit(t, LINE * l) == t.words[LINE * l] / 8 && LimitLine(t, l) == t.words[LINE * l] / 256
    ensures HoleNext(t, LINE * l) == t.words[LINE * l + 1] / 8 && NextLine(t, l) == t.words[LINE * l + 1] / 256
  {
  }

  // A hole and its successor, said of the untouched lines.
  lemma HoleOf(p: Space, s: Space, marked: set<nat>, b: nat, l: nat, e: nat, n: nat)
    requires SameBounds(s, p) && IsBlock(s, b) && forall o | o in marked :: o < |s.words|
    requires forall k: nat | BLOCK_LINES * b < k < BLOCK_LINES * (b + 1) ::
               p.lines[k].marked <==> !Untouched(s, marked, k)
    requires BLOCK_LINES * b < l < BLOCK_LINES * (b + 1) && HoleStart(p, l)
    requires |p.lines| % BLOCK_LINES == 0 && HoleEnd(p, l, e) && NextHole(p, l, n)
    ensures l < e <= BLOCK_LINES * (b + 1) && (forall k: nat | l <= k < e :: Untouched(s, marked, k))
    ensures e < BLOCK_LINES * (b + 1) ==> !Untouched(s, marked, e)
    ensures if n == 0 then forall k: nat | e <= k < BLOCK_LINES * (b + 1) - 1 :: !Pair(s, marked, k)
            else RunStarts(s, marked, b, n) && e < n && forall k: nat | e <= k < n - 1 :: !Pair(s, marked, k)
  {
    StartsAre(p, s, marked, b, l);
    if n != 0 {
      StartsAre(p, s, marked, b, n);
      NextAfterEnd(p, l, e, n);
    }
    hide Untouched, HoleStart, Pair;
    var to := if n == 0 then BLOCK_LINES * (b + 1) else n;
    forall k: nat | e <= k && k + 1 < to
      ensures !Pair(s, marked, k)
    {
      NoPair(p, s, marked, b, e, to, k);
    }
  }

  // The block's header names the first of them.
  lemma FirstFate(s: Space, t: Space, marked: set<nat>, b: nat)
    requires WF(s) && Collected(s, t, marked) && IsBlock(s, b) && b < |t.blocks| && t.blocks[b].flag == Recyclable
    requires forall o | o in marked :: o < |s.words|
    ensures var l := BLOCK_LINES * b + 1 + t.blocks[b].first;
            RunStarts(s, marked, b, l) && forall k: nat | BLOCK_LINES * b < k < l - 1 :: !Pair(s, marked, k)
  {
    hide *;
    var p := Painted(s, t, marked, b);
    FirstLine(p, t, b);
    FirstOf(p, s, marked, b, BLOCK_LINES * b + 1 + t.blocks[b].first);
  }

  lemma FirstLine(p: Space, t: Space, b: nat)
    requires Recycled(p, t) && IsBlock(p, b) && b < |t.blocks| && t.blocks[b].flag == Recyclable
    ensures SameBounds(p, t)
    ensures var l := BLOCK_LINES * b + 1 + t.blocks[b].first;
            BLOCK_LINES * b < l < BLOCK_LINES * (b + 1) && HoleStart(p, l)
            && forall k: nat | BLOCK_LINES * b < k < l :: !HoleStart(p, k)
  {
    hide HoleStart;
    assert RecycledBlock(p, t, b);
  }

  lemma FirstOf(p: Space, s: Space, marked: set<nat>, b: nat, l: nat)
    requires SameBounds(s, p) && IsBlock(s, b) && forall o | o in marked :: o < |s.words|
    requires forall k: nat | BLOCK_LINES * b < k < BLOCK_LINES * (b + 1) ::
               p.lines[k].marked <==> !Untouched(s, marked, k)
    requires BLOCK_LINES * b < l < BLOCK_LINES * (b + 1) && HoleStart(p, l)
    requires forall k: nat | BLOCK_LINES * b < k < l :: !HoleStart(p, k)
    ensures RunStarts(s, marked, b, l) && forall k: nat | BLOCK_LINES * b < k < l - 1 :: !Pair(s, marked, k)
  {
    StartsAre(p, s, marked, b, l);
    hide HoleStart, Untouched;
    forall k: nat | BLOCK_LINES * b < k < l - 1
      ensures !Pair(s, marked, k)
    {
      if Pair(s, marked, k) {
        UsableOf(s.low, s.high, b, k + 1);
        var start := StartBelow(p, b, k + 1);
      }
    }
  }
}
