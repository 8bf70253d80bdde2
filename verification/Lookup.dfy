// Interior-pointer lookup in the small heap (src/collector.c,
// Collector_findAndMarkSmallObject).
module Lookup {
  import opened Space

  // No visible object of a's block that starts at or below a lies above line l.
  ghost predicate NoneAbove(s: Space, a: nat, l: int)
    requires Shape(s)
  {
    forall d: nat | Visible(s, d) && d / BLOCK == a / BLOCK && d <= a :: d / LINE <= l
  }

  lemma TargetInBlock(s: Space, a: nat, o: nat)
    requires WF(s) && Target(s, a, o)
    ensures o / BLOCK == a / BLOCK && o <= a
  {
  }

  lemma LineDown(s: Space, a: nat, l: nat)
    requires WF(s) && NoneAbove(s, a, l) && l < |s.lines|
    requires s.lines[l].occupied ==> a < First(s, l)
    ensures NoneAbove(s, a, l - 1)
  {
  }

  lemma NothingBelow(s: Space, a: nat)
    requires WF(s) && InSmallHeap(s, a) && NoneAbove(s, a, BLOCK_LINES * (a / BLOCK))
    ensures forall o :: !Target(s, a, o)
  {
    forall o: nat
      ensures !Target(s, a, o)
    {
      if Target(s, a, o) {
        NotInMetadata(s, o);
        TargetInBlock(s, a, o);
      }
    }
  }

  lemma NotInMetadata(s: Space, d: nat)
    requires WF(s) && Visible(s, d)
    ensures d / LINE != BLOCK_LINES * (d / BLOCK)
  {
    NotFirstLine(s, d);
    hide WF, Visible;
    assert BLOCK_LINES * (d / BLOCK) % BLOCK_LINES == 0;
  }

  lemma NotFirstLine(s: Space, d: nat)
    requires WF(s) && Visible(s, d)
    ensures d / LINE % BLOCK_LINES != 0
  {
    InHeap(s.low, s.high, d);
    LineAt(s, d / LINE);
  }

  lemma LineAt(s: Space, l: nat)
    requires WF(s) && Start(s) <= LINE * l < Stop(s)
    ensures LineOK(s, l)
  {
  }

  // In an occupied line with everything above it ruled out, a target is an
  // object of that line's walk.
  lemma TargetInLine(s: Space, a: nat, l: nat, o: nat)
    requires WF(s) && NoneAbove(s, a, l) && s.low * BLOCK_LINES <= l < s.high * BLOCK_LINES
    requires s.lines[l].occupied && First(s, l) <= a && l / BLOCK_LINES == a / BLOCK
    requires Target(s, a, o)
    ensures o / LINE == l
  {
    TargetInBlock(s, a, o);
    FirstVisible(s, l);
  }

  lemma Between(o: nat, d: nat, a: nat)
    requires o <= d <= a && a < BlockStop(o / BLOCK)
    ensures d / BLOCK == o / BLOCK == a / BLOCK && d / LINE >= o / LINE
  {
  }

  lemma InBlock(s: Space, o: nat)
    requires WF(s) && Visible(s, o)
    ensures o + s.words[o] <= BlockStop(o / BLOCK)
  {
  }

  lemma FoundHere(s: Space, a: nat, l: nat, o: nat)
    requires WF(s) && NoneAbove(s, a, l) && Visible(s, o) && o / LINE == l
    requires o + HEADER <= a < o + s.words[o]
    ensures Target(s, a, o)
  {
    InBlock(s, o);
    forall d: nat | o < d <= a
      ensures !Visible(s, d)
    {
      Between(o, d, a);
      if Visible(s, d) && d / LINE == l {
        NotInside(s, o, d);
      }
    }
  }

  lemma NotInside(s: Space, o: nat, d: nat)
    requires WF(s) && Visible(s, o) && Visible(s, d) && o < d && d / LINE == o / LINE
    ensures o + s.words[o] <= d
  {
    SameLine(s, o, d);
  }

  // No object of the walk below pos contains a.
  ghost predicate Passed(s: Space, a: nat, l: nat, pos: nat)
    requires Shape(s)
  {
    forall d: nat | Visible(s, d) && d / LINE == l && d < pos :: !(d + HEADER <= a < d + s.words[d])
  }

  lemma PassOne(s: Space, a: nat, l: nat, pos: nat)
    requires WF(s) && Passed(s, a, l, pos) && Visible(s, pos) && pos / LINE == l
    requires !(pos + HEADER <= a < pos + s.words[pos])
    ensures pos < pos + s.words[pos] && Passed(s, a, l, pos + s.words[pos])
  {
    forall d: nat | Visible(s, d) && d / LINE == l && d < pos + s.words[pos]
      ensures d <= pos
    {
      if pos < d {
        NotInside(s, pos, d);
      }
    }
  }

  lemma PassAll(s: Space, a: nat, l: nat, pos: nat)
    requires WF(s) && Passed(s, a, l, pos) && InSmallHeap(s, pos) && Node(s, pos) && pos / LINE == l
    requires s.words[pos] == 0
    ensures Passed(s, a, l, LINE * (l + 1))
  {
    forall d: nat | Visible(s, d) && d / LINE == l && pos <= d
      ensures false
    {
      ReachesSplit(s.words, First(s, l), pos, d);
    }
  }

  lemma NotInLine(s: Space, a: nat, l: nat)
    requires WF(s) && NoneAbove(s, a, l) && s.low * BLOCK_LINES <= l < s.high * BLOCK_LINES
    requires s.lines[l].occupied && First(s, l) <= a && l / BLOCK_LINES == a / BLOCK
    requires Passed(s, a, l, LINE * (l + 1))
    ensures forall o :: !Target(s, a, o)
  {
    forall o: nat
      ensures !Target(s, a, o)
    {
      if Target(s, a, o) {
        TargetInLine(s, a, l, o);
      }
    }
  }

  // The forward walk through line l.
  method WalkLine(s: Space, pointer: nat, l: nat) returns (o: nat)
    requires WF(s) && NoneAbove(s, pointer / 8, l) && s.low * BLOCK_LINES <= l < s.high * BLOCK_LINES
    requires s.lines[l].occupied && First(s, l) <= pointer / 8 && l / BLOCK_LINES == pointer / 8 / BLOCK
    ensures o != 0 ==> Target(s, pointer / 8, o)
    ensures o == 0 ==> forall o' :: !Target(s, pointer / 8, o')
  {
    FirstVisible(s, l);
    ghost var a := pointer / 8;
    var pos := LINE * l + s.lines[l].offset;
    while pos < LINE * (l + 1)
      invariant LINE * l <= pos && Passed(s, a, l, pos)
      invariant pos < LINE * (l + 1) ==> InSmallHeap(s, pos) && Node(s, pos)
    {
      if s.words[pos] == 0 {
        PassAll(s, a, l, pos);
        NotInLine(s, a, l);
        return 0;
      }
      if 8 * (pos + HEADER) <= pointer < 8 * (pos + s.words[pos]) {
        FoundHere(s, a, l, pos);
        return pos;
      }
      PassOne(s, a, l, pos);
      NodeNext(s, pos, l);
      pos := pos + s.words[pos];
    }
    NotInLine(s, a, l);
    return 0;
  }

  // Block_lineIndex: -1 for the metadata line.
  function LineIndex(block: nat, pointer: nat): int {
    if pointer < 8 * BlockStart(block) then -1 else (pointer - 8 * BlockStart(block)) / (8 * LINE)
  }

  lemma PointerLine(pointer: nat)
    ensures var b, a := pointer / (8 * BLOCK), pointer / 8;
            && b == a / BLOCK && BLOCK_LINES * b <= a / LINE < BLOCK_LINES * (b + 1)
            && BLOCK_LINES * b + 1 + LineIndex(b, pointer) == a / LINE
  {
  }

  // Nothing above the line of a; one line lower if a precedes its first object.
  lemma SearchStart(s: Space, a: nat)
    requires WF(s) && InSmallHeap(s, a)
    ensures NoneAbove(s, a, a / LINE)
    ensures s.lines[a / LINE].occupied && a < First(s, a / LINE) ==> NoneAbove(s, a, a / LINE - 1)
  {
    if s.lines[a / LINE].occupied && a < First(s, a / LINE) {
      LineDown(s, a, a / LINE);
    }
  }

  // The object that a pointer into the small heap resolves to, or 0.
  method FindSmallObject(s: Space, pointer: nat) returns (o: nat)
    requires WF(s) && InSmallHeap(s, pointer / 8)
    ensures o != 0 ==> Target(s, pointer / 8, o)
    ensures o == 0 ==> forall o' :: !Target(s, pointer / 8, o')
  {
    ghost var a := pointer / 8;
    PointerLine(pointer);
    SearchStart(s, a);
    var block := pointer / (8 * BLOCK);
    var index := LineIndex(block, pointer);
    if index < 0 {
      NothingBelow(s, a);
      return 0;
    }
    var l := BLOCK_LINES * block + 1 + index;
    if s.lines[l].occupied && pointer < 8 * First(s, l) {
      index := index - 1;
      if index < 0 {
        NothingBelow(s, a);
        return 0;
      }
    }
    o := SearchBack(s, pointer, block, index);
  }

  lemma ShapeOf(s: Space)
    requires WF(s)
    ensures Shape(s)
  {
  }

  lemma LineOfBlock(s: Space, a: nat, block: nat, l: nat)
    requires Shape(s) && InSmallHeap(s, a) && block == a / BLOCK
    requires BLOCK_LINES * block < l < BLOCK_LINES * (block + 1)
    ensures s.low * BLOCK_LINES <= l < s.high * BLOCK_LINES && l < |s.lines| && l / BLOCK_LINES == block
  {
    assert s.low <= block && block + 1 <= s.high;
  }

  // The first object of a line below that of a starts below a.
  lemma FirstBelow(s: Space, a: nat, l: nat)
    requires WF(s) && s.low * BLOCK_LINES <= l < s.high * BLOCK_LINES && s.lines[l].occupied && l <= a / LINE
    requires l == a / LINE ==> First(s, l) <= a
    ensures First(s, l) <= a
  {
    assert LineOK(s, l);
  }

  // The search for an occupied line, from line `index` of the block downwards.
  method SearchBack(s: Space, pointer: nat, block: nat, start: nat) returns (o: nat)
    requires WF(s) && InSmallHeap(s, pointer / 8) && block == pointer / 8 / BLOCK && start < BLOCK_LINES - 1
    requires BLOCK_LINES * block + 1 + start <= pointer / 8 / LINE
    requires NoneAbove(s, pointer / 8, BLOCK_LINES * block + 1 + start)
    requires var l := BLOCK_LINES * block + 1 + start;
             l == pointer / 8 / LINE && s.lines[l].occupied ==> First(s, l) <= pointer / 8
    ensures o != 0 ==> Target(s, pointer / 8, o)
    ensures o == 0 ==> forall o' :: !Target(s, pointer / 8, o')
  {
    ghost var a := pointer / 8;
    hide WF, NoneAbove, Target;
    ShapeOf(s);
    var index: int := start;
    while index >= 0
      invariant -1 <= index <= start && NoneAbove(s, a, BLOCK_LINES * block + 1 + index)
    {
      var l := BLOCK_LINES * block + 1 + index;
      LineOfBlock(s, a, block, l);
      if s.lines[l].occupied {
        FirstBelow(s, a, l);
        o := WalkLine(s, pointer, l);
        return;
      }
      LineDown(s, a, l);
      index := index - 1;
    }
    NothingBelow(s, a);
    return 0;
  }
}
