// The unmark phase over the small heap (src/collector.c, Collector_unmarkSmallObjects).
module Unmarking {
  import opened Space
  import opened Memory
  import opened Sweeping

  // s with all objects below word p, lines below l and blocks below b unmarked.
  ghost predicate Partly(s: Space, t: Space, p: nat, l: nat, b: nat) {
    && SameBounds(s, t)
    && (forall i: nat | i < |s.words| ::
          t.words[i] == if i > 0 && i - 1 < p && Visible(s, i - 1) then ClearMark(s.words[i]) else s.words[i])
    && (forall k: nat | k < |s.lines| ::
          t.lines[k] == if UsableLine(s, k) && k < l then s.lines[k].Unmark() else s.lines[k])
    && (forall c: nat | c < |s.blocks| ::
          t.blocks[c] == if IsBlock(s, c) && c < b then s.blocks[c].(marked := false) else s.blocks[c])
  }

  lemma PartlySame(s: Space, t: Space, p: nat, l: nat, b: nat)
    requires Partly(s, t, p, l, b)
    ensures SameObjects(s, t)
  {
  }

  lemma PartlyOn(s: Space, t: Space, p: nat, q: nat, l: nat, b: nat)
    requires Partly(s, t, p, l, b) && p <= q && forall d: nat | p <= d < q :: !Visible(s, d)
    ensures Partly(s, t, q, l, b)
  {
  }

  lemma ClearFlag(s: Space, t: Space, pos: nat, l: nat, b: nat)
    requires Partly(s, t, pos, l, b) && Visible(s, pos) && pos + 1 < |s.words|
    ensures Partly(s, SetWord(t, pos + 1, ClearMark(t.words[pos + 1])), pos + 1, l, b)
  {
    hide Visible, UsableLine;
  }

  lemma NoneInside(s: Space, pos: nat, d: nat)
    requires WF(s) && Visible(s, pos) && pos < d < pos + s.words[pos] && d / LINE == pos / LINE
    ensures !Visible(s, d)
  {
    if Visible(s, d) {
      SameLine(s, pos, d);
    }
  }

  lemma NoneAfter(s: Space, pos: nat, d: nat)
    requires WF(s) && InSmallHeap(s, pos) && Node(s, pos) && s.words[pos] == 0
    requires pos <= d && d / LINE == pos / LINE
    ensures !Visible(s, d)
  {
    if Visible(s, d) {
      ReachesSplit(s.words, First(s, d / LINE), pos, d);
    }
  }

  lemma NoneInsideLine(s: Space, pos: nat, l: nat)
    requires WF(s) && Visible(s, pos) && pos / LINE == l
    ensures pos + 1 < |s.words| && pos + 1 <= Capped(pos + s.words[pos], l)
    ensures forall d: nat | pos + 1 <= d < Capped(pos + s.words[pos], l) :: !Visible(s, d)
  {
    assert ObjectOK(s, pos);
    forall d: nat | pos + 1 <= d < Capped(pos + s.words[pos], l)
      ensures !Visible(s, d)
    {
      NoneInside(s, pos, d);
    }
  }

  // Walking past the visible object at `pos` in line l.
  lemma PassObject(s: Space, t: Space, pos: nat, l: nat, k: nat, b: nat)
    requires WF(s) && Partly(s, t, pos, k, b) && Visible(s, pos) && pos / LINE == l
    ensures pos + 1 < |s.words|
    ensures Partly(s, SetWord(t, pos + 1, ClearMark(t.words[pos + 1])), Capped(pos + s.words[pos], l), k, b)
  {
    NoneInsideLine(s, pos, l);
    ClearFlag(s, t, pos, k, b);
    PartlyOn(s, SetWord(t, pos + 1, ClearMark(t.words[pos + 1])), pos + 1, Capped(pos + s.words[pos], l), k, b);
  }

  // pos, but no further than the end of line l
  function Capped(pos: nat, l: nat): nat {
    if pos < LINE * (l + 1) then pos else LINE * (l + 1)
  }

  // No visible object is left in the rest of the line.
  lemma EndOfWalk(s: Space, t: Space, pos: nat, l: nat, k: nat, b: nat)
    requires WF(s) && Partly(s, t, pos, k, b) && InSmallHeap(s, pos) && Node(s, pos) && pos / LINE == l
    requires s.words[pos] == 0
    ensures Partly(s, t, LINE * (l + 1), k, b)
  {
    forall d: nat | pos <= d < LINE * (l + 1)
      ensures !Visible(s, d)
    {
      NoneAfter(s, pos, d);
    }
    PartlyOn(s, t, pos, LINE * (l + 1), k, b);
  }

  lemma WalkWord(s: Space, t: Space, pos: nat, l: nat, b: nat)
    requires WF(s) && Partly(s, t, pos, l, b) && InSmallHeap(s, pos) && Node(s, pos)
    ensures t.words[pos] == s.words[pos] && (s.words[pos] > 0 ==> Visible(s, pos))
  {
    PartlySame(s, t, pos, l, b);
    SameObjectsVisible(s, t, pos);
  }

  // Between two objects of line l's walk, at pos.
  ghost predicate Walking(s: Space, t: Space, pos: nat, l: nat, b: nat) {
    && Shape(s) && LINE * l <= pos && Partly(s, t, Capped(pos, l), l + 1, b)
    && (pos < LINE * (l + 1) ==> InSmallHeap(s, pos) && Node(s, pos))
  }

  lemma WalkEnds(s: Space, t: Space, pos: nat, l: nat, b: nat)
    requires WF(s) && Walking(s, t, pos, l, b) && pos < LINE * (l + 1)
    ensures pos < |t.words| && t.words[pos] == s.words[pos]
    ensures t.words[pos] == 0 ==> Partly(s, t, LINE * (l + 1), l + 1, b)
    ensures t.words[pos] != 0 ==> Visible(s, pos)
  {
    WalkWord(s, t, pos, l + 1, b);
    if t.words[pos] == 0 {
      EndOfWalk(s, t, pos, l, l + 1, b);
    }
  }

  lemma WalkGoesOn(s: Space, t: Space, pos: nat, l: nat, b: nat)
    requires WF(s) && Walking(s, t, pos, l, b) && pos < LINE * (l + 1) && Visible(s, pos)
    ensures pos + 1 < |t.words|
            && Walking(s, SetWord(t, pos + 1, ClearMark(t.words[pos + 1])), pos + s.words[pos], l, b)
  {
    PassObject(s, t, pos, l, l + 1, b);
    NodeNext(s, pos, l);
  }

  lemma WalkStart(s: Space, t: Space, l: nat, b: nat)
    requires WF(s) && UsableLine(s, l) && Partly(s, t, LINE * l, l, b)
    ensures var t' := SetLine(t, l, t.lines[l].Unmark());
            && t'.lines[l].occupied == s.lines[l].occupied && t'.lines[l].offset == s.lines[l].offset
            && if s.lines[l].occupied then Walking(s, t', First(s, l), l, b)
               else Partly(s, t', LINE * (l + 1), l + 1, b)
  {
    var t' := SetLine(t, l, t.lines[l].Unmark());
    assert Partly(s, t', LINE * l, l + 1, b);
    if s.lines[l].occupied {
      FirstVisible(s, l);
      SkipToFirst(s, t', l, l + 1, b);
    } else {
      EmptyLine(s, t', l, l + 1, b);
    }
  }

  // The objects of one line.
  method UnmarkLine(memory: Memory, l: nat, ghost s: Space, ghost b: nat)
    requires WF(s) && UsableLine(s, l) && Partly(s, memory.space, LINE * l, l, b)
    modifies memory
    ensures Partly(s, memory.space, LINE * (l + 1), l + 1, b)
  {
    hide WF, Node, Visible;
    WalkStart(s, memory.space, l, b);
    memory.space := SetLine(memory.space, l, memory.space.lines[l].Unmark());
    if memory.space.lines[l].occupied {
      var pos := LINE * l + memory.space.lines[l].offset;
      while pos < LINE * (l + 1)
        invariant Walking(s, memory.space, pos, l, b)
        decreases LINE * (l + 1) - pos
      {
        WalkEnds(s, memory.space, pos, l, b);
        if memory.space.words[pos] == 0 {
          return;
        }
        WalkGoesOn(s, memory.space, pos, l, b);
        memory.space := SetWord(memory.space, pos + 1, ClearMark(memory.space.words[pos + 1]));
        pos := pos + memory.space.words[pos];
      }
    }
  }

  lemma EmptyLine(s: Space, t: Space, l: nat, k: nat, b: nat)
    requires WF(s) && UsableLine(s, l) && Partly(s, t, LINE * l, k, b) && !s.lines[l].occupied
    ensures Partly(s, t, LINE * (l + 1), k, b)
  {
    forall d: nat | LINE * l <= d < LINE * (l + 1)
      ensures !Visible(s, d)
    {
      assert d / LINE == l;
    }
    PartlyOn(s, t, LINE * l, LINE * (l + 1), k, b);
  }

  lemma SkipToFirst(s: Space, t: Space, l: nat, k: nat, b: nat)
    requires WF(s) && UsableLine(s, l) && Partly(s, t, LINE * l, k, b) && s.lines[l].occupied
    ensures Partly(s, t, First(s, l), k, b)
  {
    forall d: nat | LINE * l <= d < First(s, l)
      ensures !Visible(s, d)
    {
      assert LineOK(s, l);
      assert d / LINE == l;
    }
    PartlyOn(s, t, LINE * l, First(s, l), k, b);
  }

  lemma SkipUnusable(s: Space, t: Space, p: nat, l: nat, b: nat)
    requires Partly(s, t, p, l, b) && !UsableLine(s, l)
    ensures Partly(s, t, p, l + 1, b)
  {
  }

  lemma MetadataEmpty(s: Space, c: nat)
    requires WF(s) && s.low <= c < s.high
    ensures forall d: nat | BLOCK * c <= d < BLOCK * c + LINE :: !Visible(s, d)
    ensures !UsableLine(s, BLOCK_LINES * c)
  {
    var l := BLOCK_LINES * c;
    assert LineOK(s, l);
    assert forall d: nat | BLOCK * c <= d < BLOCK * c + LINE :: d / LINE == l;
  }

  lemma SkipMetadata(s: Space, t: Space, c: nat, b: nat)
    requires WF(s) && s.low <= c < s.high
    requires Partly(s, t, BLOCK * c, BLOCK_LINES * c, b)
    ensures Partly(s, t, LINE * (BLOCK_LINES * c + 1), BLOCK_LINES * c + 1, b)
  {
    MetadataEmpty(s, c);
    hide Partly, Visible;
    PartlyOn(s, t, BLOCK * c, BLOCK * c + LINE, BLOCK_LINES * c, b);
    SkipUnusable(s, t, BLOCK * c + LINE, BLOCK_LINES * c, b);
  }

  lemma BlockUnmarked(s: Space, t: Space, p: nat, l: nat, b: nat)
    requires Partly(s, t, p, l, b) && IsBlock(s, b)
    ensures Partly(s, SetBlock(t, b, t.blocks[b].(marked := false)), p, l, b + 1)
  {
  }

  lemma LineOfBlock(s: Space, b: nat, i: nat)
    requires Shape(s) && IsBlock(s, b) && i < BLOCK_LINES - 1
    ensures UsableLine(s, BLOCK_LINES * b + 1 + i)
  {
  }

  // All of block b is unmarked but for its lines from i on.
  ghost predicate LinesDone(s: Space, t: Space, b: nat, i: nat) {
    Partly(s, t, LINE * (BLOCK_LINES * b + 1 + i), BLOCK_LINES * b + 1 + i, b + 1)
  }

  lemma BlockBegins(s: Space, t: Space, b: nat)
    requires WF(s) && IsBlock(s, b) && Partly(s, t, BLOCK * b, BLOCK_LINES * b, b)
    ensures LinesDone(s, SetBlock(t, b, t.blocks[b].(marked := false)), b, 0)
  {
    BlockUnmarked(s, t, BLOCK * b, BLOCK_LINES * b, b);
    SkipMetadata(s, SetBlock(t, b, t.blocks[b].(marked := false)), b, b + 1);
  }

  // Line i of block b.
  method UnmarkNth(memory: Memory, b: nat, i: nat, ghost s: Space)
    requires WF(s) && IsBlock(s, b) && i < BLOCK_LINES - 1 && LinesDone(s, memory.space, b, i)
    modifies memory
    ensures LinesDone(s, memory.space, b, i + 1)
  {
    LineOfBlock(s, b, i);
    hide Partly, WF;
    UnmarkLine(memory, BLOCK_LINES * b + 1 + i, s, b + 1);
  }

  method UnmarkBlock(memory: Memory, b: nat, ghost s: Space)
    requires WF(s) && IsBlock(s, b) && Partly(s, memory.space, BLOCK * b, BLOCK_LINES * b, b)
    modifies memory
    ensures LinesDone(s, memory.space, b, BLOCK_LINES - 1)
  {
    BlockBegins(s, memory.space, b);
    memory.space := SetBlock(memory.space, b, memory.space.blocks[b].(marked := false));
    hide WF, LinesDone;
    for i := 0 to BLOCK_LINES - 1
      invariant LinesDone(s, memory.space, b, i)
    {
      UnmarkNth(memory, b, i, s);
    }
  }

  lemma NothingYet(s: Space)
    requires WF(s)
    ensures Partly(s, s, BLOCK * s.low, BLOCK_LINES * s.low, s.low)
  {
  }

  lemma AllUnmarked(s: Space, t: Space)
    requires WF(s) && Partly(s, t, BLOCK * s.high, BLOCK_LINES * s.high, s.high)
    ensures IsUnmarked(s, t)
  {
  }

  // Collector_unmarkSmallObjects
  method UnmarkSmallObjects(memory: Memory)
    requires WF(memory.space)
    modifies memory
    ensures IsUnmarked(old(memory.space), memory.space)
  {
    ghost var s := memory.space;
    NothingYet(s);
    var block := memory.space.low;
    while block < memory.space.high
      invariant s.low <= block <= s.high && Partly(s, memory.space, BLOCK * block, BLOCK_LINES * block, block)
    {
      UnmarkBlock(memory, block, s);
      block := block + 1;
    }
    AllUnmarked(s, memory.space);
  }
}
