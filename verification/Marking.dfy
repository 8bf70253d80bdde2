// Marking one small object (src/collector.c, Collector_findAndMarkSmallObject).
module Marking {
  import opened LineHeader
  import opened Space
  import opened Memory
  import opened Sweeping

  // The lines that object o, at or above line l, still has to mark.
  predicate LinesMarked(lines: seq<Line>, lines': seq<Line>, from: nat, to: nat) {
    && |lines'| == |lines|
    && forall k: nat | k < |lines| :: lines'[k] == if from <= k < to then lines[k].Mark() else lines[k]
  }

  // The number of lines, from the first on, that marking o marks.
  function MarkedLines(s: Space, o: nat): (n: nat)
    requires o < |s.words|
  {
    if s.words[o] <= LINE then 1 else (o + s.words[o] + LINE - 1) / LINE - o / LINE
  }

  lemma LinesInHeap(s: Space, o: nat)
    requires WF(s) && Visible(s, o)
    ensures o + 1 < |s.words| && o / LINE + MarkedLines(s, o) <= |s.lines|
    ensures o / BLOCK < |s.blocks| && o / LINE < |s.lines|
  {
  }

  lemma PaintLines(u: Space, p: Space, p': Space, m: set<nat>, o: nat)
    requires SameBounds(u, p) && SameBounds(u, p') && o < |u.words| && (forall x | x in m :: x < |u.words|)
             && PaintedLines(u, p, m)
    requires LinesMarked(p.lines, p'.lines, o / LINE, o / LINE + MarkedLines(u, o))
    ensures PaintedLines(u, p', m + {o})
  {
  }

  lemma PaintBlocks(u: Space, p: Space, p': Space, m: set<nat>, o: nat)
    requires SameBounds(u, p) && SameBounds(u, p') && PaintedBlocks(u, p, m) && o / BLOCK < |p.blocks|
    requires p'.blocks == p.blocks[o / BLOCK := p.blocks[o / BLOCK].(marked := true)]
    ensures PaintedBlocks(u, p', m + {o})
  {
  }

  // One more object is painted.
  lemma PaintOne(u: Space, p: Space, p': Space, m: set<nat>, o: nat)
    requires IsPainted(u, p, m) && Visible(u, o) && o + 1 < |u.words| && o !in m
    requires SameBounds(p, p') && o + 1 < |p.words| && o / BLOCK < |p.blocks|
    requires p'.words == p.words[o + 1 := SetMark(p.words[o + 1])]
    requires p'.blocks == p.blocks[o / BLOCK := p.blocks[o / BLOCK].(marked := true)]
    requires LinesMarked(p.lines, p'.lines, o / LINE, o / LINE + MarkedLines(u, o))
    ensures IsPainted(u, p', m + {o})
  {
    hide Visible, PaintedLines, PaintedBlocks, MarkedLines, LinesMarked;
    PaintLines(u, p, p', m, o);
    PaintBlocks(u, p, p', m, o);
  }

  // The mark of an object tells whether it is painted.
  lemma PaintedMark(u: Space, p: Space, m: set<nat>, o: nat)
    requires IsPainted(u, p, m) && o + 1 < |u.words| && !MarkBit(u.words[o + 1])
    ensures o + 1 < |p.words| && (MarkBit(p.words[o + 1]) <==> o in m)
  {
    HeaderBits(u.words[o + 1]);
    var i := o + 1;
    assert p.words[i] == if i - 1 in m then SetMark(u.words[i]) else u.words[i];
  }

  lemma MarkWord(w: nat)
    ensures SetMark(w) % 256 == 1 && SetMark(w) / 256 == w / 256
  {
  }

  // After the mark phase exactly the objects in m are marked, with their blocks and
  // with the lines in which they start, or which they cover if they are longer than
  // a line, whatever marks an earlier collection left.
  lemma MarksExact(s: Space, u: Space, p: Space, m: set<nat>)
    requires IsUnmarked(s, u) && IsPainted(u, p, m)
    ensures SameBounds(s, p) && SameBounds(s, u) && forall o | o in m :: o < |u.words|
    ensures forall l: nat | BLOCK_LINES * s.low <= l < BLOCK_LINES * s.high && l % BLOCK_LINES != 0 ::
              p.lines[l].marked <==>
              exists o :: o in m && (o / LINE == l || (u.words[o] > LINE && o / LINE <= l && LINE * l < o + u.words[o]))
    ensures forall b: nat | s.low <= b < s.high :: p.blocks[b].marked <==> exists o :: o in m && o / BLOCK == b
  {
    hide Visible, PaintedWords;
    forall l: nat | BLOCK_LINES * s.low <= l < BLOCK_LINES * s.high && l % BLOCK_LINES != 0
      ensures p.lines[l].marked <==>
              exists o :: o in m && (o / LINE == l || (u.words[o] > LINE && o / LINE <= l && LINE * l < o + u.words[o]))
    {
      assert UsableLine(s, l) && u.lines[l] == s.lines[l].Unmark();
      assert p.lines[l].marked <==> LineHit(u, m, l);
      LineHitIs(u, m, l);
    }
    forall b: nat | s.low <= b < s.high
      ensures p.blocks[b].marked <==> exists o :: o in m && o / BLOCK == b
    {
      assert p.blocks[b].marked <==> BlockHit(m, b);
    }
  }

  lemma LineHitIs(u: Space, m: set<nat>, l: nat)
    requires forall o | o in m :: o < |u.words|
    ensures LineHit(u, m, l) <==>
            exists o :: o in m && (o / LINE == l || (u.words[o] > LINE && o / LINE <= l && LINE * l < o + u.words[o]))
  {
    if o :| o in m && (o / LINE == l || (u.words[o] > LINE && o / LINE <= l && LINE * l < o + u.words[o])) {
      assert MarksLine(u, o, l);
    }
  }

  // Object_mark, Block_mark and the line marks: one line for a small object, all
  // its lines for a medium one.
  method MarkObject(memory: Memory, o: nat, ghost u: Space, ghost m: set<nat>)
    requires WF(u) && IsPainted(u, memory.space, m) && Visible(u, o) && o !in m
    modifies memory
    ensures IsPainted(u, memory.space, m + {o})
    ensures SameBounds(old(memory.space), memory.space) && o + 1 < |memory.space.words|
    ensures memory.space.words[o + 1] % 256 == 1
            && memory.space.words[o + 1] / 256 == old(memory.space.words)[o + 1] / 256
    ensures forall i: nat | i < |memory.space.words| && i != o + 1 ::
              memory.space.words[i] == old(memory.space.words)[i]
    ensures forall b: nat | b < |memory.space.blocks| ::
              memory.space.blocks[b] ==
              old(memory.space.blocks)[b].(marked := old(memory.space.blocks)[b].marked || b == o / BLOCK)
    ensures forall l: nat | l < |memory.space.lines| ::
              memory.space.lines[l] ==
              if l == o / LINE || (u.words[o] > LINE && o / LINE <= l && LINE * l < o + u.words[o])
              then old(memory.space.lines)[l].(marked := true) else old(memory.space.lines)[l]
  {
    ghost var p := memory.space;
    PaintedSame(u, p, m);
    SameObjectsVisible(u, p, o);
    LinesInHeap(u, o);
    MarkWord(p.words[o + 1]);
    hide WF, Visible, IsPainted, SameObjects, SetMark, MarkedLines;
    memory.space := SetWord(memory.space, o + 1, SetMark(memory.space.words[o + 1]));
    memory.space := SetBlock(memory.space, o / BLOCK, memory.space.blocks[o / BLOCK].(marked := true));
    MarkLines(memory, o, MarkedLines(u, o));
    PaintOne(u, p, memory.space, m, o);
  }

  method MarkLines(memory: Memory, o: nat, ghost n: nat)
    requires Shape(memory.space) && o < |memory.space.words| && n == MarkedLines(memory.space, o)
    requires o / LINE + n <= |memory.space.lines|
    modifies memory
    ensures memory.space == old(memory.space).(lines := memory.space.lines)
    ensures LinesMarked(old(memory.space.lines), memory.space.lines, o / LINE, o / LINE + n)
    ensures |memory.space.lines| == |old(memory.space.lines)|
    ensures forall l: nat | l < |memory.space.lines| ::
              memory.space.lines[l] ==
              if l == o / LINE
                 || (memory.space.words[o] > LINE && o / LINE <= l && LINE * l < o + memory.space.words[o])
              then old(memory.space.lines)[l].(marked := true) else old(memory.space.lines)[l]
  {
    var line := o / LINE;
    if memory.space.words[o] <= LINE {
      memory.space := SetLine(memory.space, line, memory.space.lines[line].Mark());
    } else {
      var limit := o + memory.space.words[o];
      memory.space := SetLine(memory.space, line, memory.space.lines[line].Mark());
      line := line + 1;
      while LINE * line < limit
        invariant o / LINE < line <= o / LINE + n
        invariant memory.space == old(memory.space).(lines := memory.space.lines)
        invariant LinesMarked(old(memory.space.lines), memory.space.lines, o / LINE, line)
      {
        memory.space := SetLine(memory.space, line, memory.space.lines[line].Mark());
        line := line + 1;
      }
    }
  }
}
