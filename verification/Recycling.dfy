// The one-pass hole builder (src/global_allocator.c, GC_GlobalAllocator_recycleBlocks).
module Recycling {
  import opened LineHeader
  import opened Space
  import opened Memory
  import opened Sweeping
  import opened BlockLists
  import opened Runs
  import opened SmallHeaps

  // The scan of block b stands before line l; `last` is the line where the last
  // hole so far starts (0: none), `open` whether that hole is still going on.
  predicate Scan(s: Space, b: nat, l: nat, open: bool, last: nat)
    requires Shape(s) && IsBlock(s, b)
  {
    && BLOCK_LINES * b < l <= BLOCK_LINES * (b + 1)
    && (if last == 0 then !open && forall k | BLOCK_LINES * b < k < l :: !HoleStart(s, k)
        else BLOCK_LINES * b < last < l && HoleStart(s, last) && forall k | last < k < l :: !HoleStart(s, k))
    && (if open then forall k | last <= k < l :: !s.lines[k].marked
        else l == BLOCK_LINES * b + 1 || s.lines[l - 1].marked || l == BLOCK_LINES * (b + 1) || s.lines[l].marked)
  }

  // What the scan has made of word i so far: the record of the open hole has no
  // limit yet, that of the last hole no successor.
  predicate HoleWord(s: Space, t: Space, i: nat, l: nat, open: bool, last: nat)
    requires SameBounds(s, t) && i < |s.words|
  {
    var k := i / LINE;
    if i % LINE == 0 && k < l && HoleStart(s, k) then
      if open && k == last then t.words[i] == 0
      else t.words[i] % 256 == 0 && HoleEnd(s, k, t.words[i] / 256)
    else if i % LINE == 1 && k < l && HoleStart(s, k) then
      if k == last then t.words[i] == 0
      else t.words[i] % 256 == 0 && NextHole(s, k, t.words[i] / 256)
    else
      t.words[i] == s.words[i]
  }

  predicate HoleWords(s: Space, t: Space, b: nat, l: nat, open: bool, last: nat)
    requires SameBounds(s, t) && IsBlock(s, b)
  {
    forall i: nat | BLOCK * b <= i < BlockStop(b) :: HoleWord(s, t, i, l, open, last)
  }

  // Unmarked lines of block b before line l are cleared.
  predicate LinesCleared(s: Space, t: Space, b: nat, l: nat)
    requires SameBounds(s, t)
  {
    forall k: nat | k < |s.lines| ::
      t.lines[k] == if BLOCK_LINES * b < k < l && !s.lines[k].marked then EMPTY else s.lines[k]
  }

  predicate OthersKept(s: Space, t: Space, b: nat)
    requires SameBounds(s, t)
  {
    && t.blocks == s.blocks
    && forall i: nat | i < |s.words| && !(BLOCK * b <= i < BlockStop(b)) :: t.words[i] == s.words[i]
  }

  predicate Building(s: Space, t: Space, b: nat, l: nat, open: bool, last: nat) {
    && SameBounds(s, t) && IsBlock(s, b) && Scan(s, b, l, open, last)
    && HoleWords(s, t, b, l, open, last) && LinesCleared(s, t, b, l) && OthersKept(s, t, b)
  }

  // ------------------------------------------------------------- steps of a scan

  lemma ScanMarked(s: Space, b: nat, l: nat, open: bool, last: nat)
    requires Shape(s) && IsBlock(s, b) && Scan(s, b, l, open, last) && l < BLOCK_LINES * (b + 1) && s.lines[l].marked
    ensures Scan(s, b, l + 1, false, last) && !HoleStart(s, l)
    ensures open ==> HoleEnd(s, last, l)
  {
  }

  // An unmarked line of the open hole.
  lemma ScanInside(s: Space, b: nat, l: nat, last: nat)
    requires Shape(s) && IsBlock(s, b) && Scan(s, b, l, true, last) && l < BLOCK_LINES * (b + 1) && !s.lines[l].marked
    ensures Scan(s, b, l + 1, true, last) && !HoleStart(s, l)
  {
    RunOn(s, b, last, l - 1);
    hide HoleLine;
  }

  lemma InBlock(b: nat, l: nat)
    requires BLOCK_LINES * b <= l < BLOCK_LINES * (b + 1)
    ensures l % BLOCK_LINES == l - BLOCK_LINES * b
  {
  }

  // The unmarked lines behind the start of a hole belong to it.
  lemma RunOn(s: Space, b: nat, last: nat, l: nat)
    requires Shape(s) && IsBlock(s, b) && BLOCK_LINES * b < last <= l < BLOCK_LINES * (b + 1) && HoleLine(s, last)
    requires forall k | last <= k <= l :: !s.lines[k].marked
    ensures HoleLine(s, l)
  {
    InBlock(b, last);
    InBlock(b, l);
  }

  // A single unmarked line.
  lemma ScanAlone(s: Space, b: nat, l: nat, last: nat)
    requires Shape(s) && IsBlock(s, b) && Scan(s, b, l, false, last) && l < BLOCK_LINES * (b + 1) && !s.lines[l].marked
    requires l + 1 == BLOCK_LINES * (b + 1) || s.lines[l + 1].marked
    ensures Scan(s, b, l + 1, false, last) && !HoleStart(s, l)
  {
    assert !HoleLine(s, l);
  }

  lemma ScanUnmarked(s: Space, b: nat, l: nat, open: bool, last: nat)
    requires Shape(s) && IsBlock(s, b) && Scan(s, b, l, open, last) && l < BLOCK_LINES * (b + 1) && !s.lines[l].marked
    requires open || l + 1 == BLOCK_LINES * (b + 1) || s.lines[l + 1].marked
    ensures Scan(s, b, l + 1, open, last) && !HoleStart(s, l)
  {
    hide Scan, HoleStart;
    if open {
      ScanInside(s, b, l, last);
    } else {
      ScanAlone(s, b, l, last);
    }
  }

  lemma ScanOpens(s: Space, b: nat, l: nat, last: nat)
    requires Shape(s) && IsBlock(s, b) && Scan(s, b, l, false, last) && l + 1 < BLOCK_LINES * (b + 1)
    requires !s.lines[l].marked && !s.lines[l + 1].marked
    ensures Scan(s, b, l + 2, true, l + 1) && !HoleStart(s, l) && HoleStart(s, l + 1)
    ensures last != 0 ==> NextHole(s, last, l + 1)
  {
    InBlock(b, l);
    InBlock(b, l + 1);
    assert !HoleLine(s, l);
    assert HoleStart(s, l + 1);
    hide HoleLine, HoleStart;
    assert last != 0 ==> EndLine(last) == BLOCK_LINES * (b + 1);
  }

  // Limit of the open hole: the marked line l, or the end of the block.
  lemma CloseHole(s: Space, t: Space, b: nat, l: nat, last: nat, e: nat)
    requires SameBounds(s, t) && IsBlock(s, b) && HoleWords(s, t, b, l, true, last) && BLOCK_LINES * b < last < l
    requires last < |s.lines| && HoleStart(s, last) && HoleEnd(s, last, e) && l <= BLOCK_LINES * (b + 1)
    ensures HoleWords(s, SetWord(t, LINE * last, 256 * e), b, l, false, last)
  {
    hide HoleStart, HoleEnd, NextHole;
    var t' := SetWord(t, LINE * last, 256 * e);
    forall i: nat | BLOCK * b <= i < BlockStop(b)
      ensures HoleWord(s, t', i, l, false, last)
    {
      assert HoleWord(s, t, i, l, true, last);
    }
  }

  // A line that starts no hole leaves the words alone.
  lemma WordsOn(s: Space, t: Space, t': Space, b: nat, l: nat, open: bool, last: nat)
    requires SameBounds(s, t) && SameBounds(s, t') && IsBlock(s, b) && HoleWords(s, t, b, l, open, last)
    requires t'.words == t.words && BLOCK_LINES * b < l < BLOCK_LINES * (b + 1) && !HoleStart(s, l)
    ensures HoleWords(s, t', b, l + 1, open, last)
  {
    var l' := l + 1;
    forall i: nat | BLOCK * b <= i < BlockStop(b)
      ensures HoleWord(s, t', i, l', open, last)
    {
      assert HoleWord(s, t, i, l, open, last);
    }
  }

  function WithRecord(words: seq<nat>, last: nat, h: nat): seq<nat>
    requires LINE * h + 1 < |words| && LINE * last + 1 < |words|
  {
    var cleared := words[LINE * h := 0][LINE * h + 1 := 0];
    if last == 0 then cleared else cleared[LINE * last + 1 := 256 * h]
  }

  lemma LinkHole(s: Space, t: Space, t': Space, b: nat, h: nat, last: nat)
    requires SameBounds(s, t) && SameBounds(s, t') && IsBlock(s, b) && HoleWords(s, t, b, h, false, last)
    requires BLOCK_LINES * b < h < BLOCK_LINES * (b + 1) && HoleStart(s, h)
    requires last != 0 ==> BLOCK_LINES * b < last < h && HoleStart(s, last) && NextHole(s, last, h)
    requires last < h && t'.words == WithRecord(t.words, last, h)
    ensures HoleWords(s, t', b, h + 1, true, h)
  {
    var l' := h + 1;
    forall i: nat | BLOCK * b <= i < BlockStop(b)
      ensures HoleWord(s, t', i, l', true, h)
    {
      assert HoleWord(s, t, i, h, false, last);
    }
  }

  // Line l is marked: it ends the open hole.
  lemma PassMarked(s: Space, t: Space, b: nat, l: nat, open: bool, last: nat)
    requires Building(s, t, b, l, open, last) && l < BLOCK_LINES * (b + 1) && t.lines[l].marked
    ensures open ==> Building(s, SetWord(t, LINE * last, 256 * l), b, l + 1, false, last)
    ensures !open ==> Building(s, t, b, l + 1, false, last)
  {
    ScanMarked(s, b, l, open, last);
    if open {
      CloseHole(s, t, b, l, last, l);
      WordsOn(s, SetWord(t, LINE * last, 256 * l), SetWord(t, LINE * last, 256 * l), b, l, false, last);
    } else {
      WordsOn(s, t, t, b, l, false, last);
    }
  }

  // Line l is unmarked, and either inside a hole or no hole starts after it.
  lemma PassUnmarked(s: Space, t: Space, b: nat, l: nat, open: bool, last: nat)
    requires Building(s, t, b, l, open, last) && l < BLOCK_LINES * (b + 1) && !t.lines[l].marked
    requires open || l + 1 == BLOCK_LINES * (b + 1) || t.lines[l + 1].marked
    ensures Building(s, SetLine(t, l, EMPTY), b, l + 1, open, last)
  {
    ScanUnmarked(s, b, l, open, last);
    WordsOn(s, t, SetLine(t, l, EMPTY), b, l, open, last);
  }

  // Lines l and l + 1 are unmarked: a hole starts at the second.
  lemma OpenHole(s: Space, t: Space, t': Space, b: nat, l: nat, last: nat)
    requires Building(s, t, b, l, false, last) && l + 1 < BLOCK_LINES * (b + 1)
    requires !t.lines[l].marked && !t.lines[l + 1].marked
    requires t' == t.(lines := t.lines[l := EMPTY][l + 1 := EMPTY], words := t'.words)
    requires t'.words == WithRecord(t.words, last, l + 1)
    ensures Building(s, t', b, l + 2, true, l + 1)
    ensures HoleStart(s, l + 1) && !HoleStart(s, l)
  {
    ScanOpens(s, b, l, last);
    var u := t.(lines := t.lines[l := EMPTY][l + 1 := EMPTY]);
    WordsOn(s, t, u, b, l, false, last);
    LinkHole(s, u, t', b, l + 1, last);
    hide HoleWords, Scan;
  }

  // The index of the first line of the first hole so far.
  predicate FirstHole(s: Space, b: nat, last: nat, first: int)
    requires Shape(s) && IsBlock(s, b)
  {
    var l := BLOCK_LINES * b;
    if first == -1 then last == 0
    else
      && last != 0 && 1 <= first < BLOCK_LINES - 1 && HoleStart(s, l + 1 + first)
      && forall k | l < k < l + 1 + first :: !HoleStart(s, k)
  }

  // The finished block.
  predicate Built(s: Space, t: Space, b: nat, first: int)
    requires SameBounds(s, t) && IsBlock(s, b)
  {
    && (forall i: nat | BLOCK * b <= i < BlockStop(b) :: RecycledWord(s, t, i))
    && LinesCleared(s, t, b, BLOCK_LINES * (b + 1)) && OthersKept(s, t, b)
    && if first == -1 then forall k | BLOCK_LINES * b < k < EndLine(BLOCK_LINES * b) :: !HoleStart(s, k)
       else FirstHole(s, b, 1, first)
  }

  lemma WordBuilt(s: Space, t: Space, b: nat, last: nat, i: nat)
    requires SameBounds(s, t) && IsBlock(s, b) && Scan(s, b, BLOCK_LINES * (b + 1), false, last)
             && BLOCK * b <= i < BlockStop(b)
    requires HoleWord(s, t, i, BLOCK_LINES * (b + 1), false, last)
    ensures RecycledWord(s, t, i)
  {
    if last != 0 {
      LastHole(s, b, last);
    }
    hide HoleStart, HoleEnd, NextHole;
  }

  lemma LastHole(s: Space, b: nat, last: nat)
    requires Shape(s) && IsBlock(s, b) && Scan(s, b, BLOCK_LINES * (b + 1), false, last) && last != 0
    ensures last < |s.lines| && NextHole(s, last, 0)
  {
    hide HoleStart;
    assert EndLine(last) == BLOCK_LINES * (b + 1);
  }

  lemma Finished(s: Space, t: Space, b: nat, last: nat, first: int)
    requires Building(s, t, b, BLOCK_LINES * (b + 1), false, last) && FirstHole(s, b, last, first)
    ensures Built(s, t, b, first)
  {
    forall i: nat | BLOCK * b <= i < BlockStop(b)
      ensures RecycledWord(s, t, i)
    {
      WordBuilt(s, t, b, last, i);
    }
  }

  lemma StartScan(s: Space, b: nat)
    requires Shape(s) && IsBlock(s, b)
    ensures Building(s, s, b, BLOCK_LINES * b + 1, false, 0)
  {
  }

  lemma LastHoleEnd(s: Space, b: nat, last: nat)
    requires Shape(s) && IsBlock(s, b) && Scan(s, b, BLOCK_LINES * (b + 1), true, last)
    ensures BLOCK_LINES * b < last < |s.lines| && HoleStart(s, last) && HoleEnd(s, last, BLOCK_LINES * (b + 1))
    ensures BLOCK * b <= LINE * last < BlockStop(b) && LINE * last / LINE == last
  {
    hide HoleStart;
    assert EndLine(last) == BLOCK_LINES * (b + 1);
  }

  lemma LastLimit(s: Space, t: Space, b: nat, open: bool, last: nat)
    requires Building(s, t, b, BLOCK_LINES * (b + 1), open, last)
    ensures open ==> LINE * last < |t.words| && t.words[LINE * last] == 0
    ensures open ==>
              Building(s, SetWord(t, LINE * last, 256 * BLOCK_LINES * (b + 1)), b, BLOCK_LINES * (b + 1), false, last)
  {
    if open {
      LastHoleEnd(s, b, last);
      hide HoleStart, HoleEnd, NextHole;
      assert HoleWord(s, t, LINE * last, BLOCK_LINES * (b + 1), open, last);
      CloseHole(s, t, b, BLOCK_LINES * (b + 1), last, BLOCK_LINES * (b + 1));
    }
  }

  // The variables behind the last line.
  lemma LastLine(s: Space, t: Space, b: nat, hole: nat, previous: nat, first: int, last: nat)
    requires Scanning(s, t, b, BLOCK_LINES - 1, hole, previous, first, last)
    ensures Building(s, t, b, BLOCK_LINES * (b + 1), hole != 0, last) && FirstHole(s, b, last, first)
    ensures hole != 0 ==> hole == LINE * last && 8 * BlockStop(b) == 256 * BLOCK_LINES * (b + 1)
  {
    hide Building, FirstHole;
  }

  // The local variables of the line loop before line `index` of block b.
  predicate Scanning(s: Space, t: Space, b: nat, index: nat, hole: nat, previous: nat, first: int, last: nat) {
    && SameBounds(s, t) && IsBlock(s, b) && index < BLOCK_LINES
    && Building(s, t, b, BLOCK_LINES * b + 1 + index, hole != 0, last)
    && (if hole != 0 then hole == LINE * last else previous == LINE * last)
    && FirstHole(s, b, last, first)
  }

  lemma ScanningLine(s: Space, t: Space, b: nat, index: nat, hole: nat, previous: nat, first: int, last: nat)
    requires Scanning(s, t, b, index, hole, previous, first, last)
    ensures index < BLOCK_LINES && (index < BLOCK_LINES - 1 ==> BLOCK_LINES * b + 1 + index < |t.lines|)
    ensures index < BLOCK_LINES - 2 ==> BLOCK_LINES * b + 2 + index < |t.lines|
  {
  }

  lemma BuildingBounds(s: Space, t: Space, b: nat, l: nat, open: bool, last: nat)
    requires Building(s, t, b, l, open, last)
    ensures SameBounds(s, t) && IsBlock(s, b) && l <= BLOCK_LINES * (b + 1) <= |t.lines|
    ensures LINE * last + LINE <= |t.words| && (open ==> last != 0)
    ensures LINE * l <= |t.words| && (l < BLOCK_LINES * (b + 1) ==> LINE * l + LINE <= |t.words|)
  {
  }

  lemma FirstOpens(s: Space, b: nat, l: nat, index: nat, last: nat, first: int)
    requires Shape(s) && IsBlock(s, b) && FirstHole(s, b, last, first) && index < BLOCK_LINES - 2
    requires l == BLOCK_LINES * b + 1 + index && Scan(s, b, l, false, last)
    requires !HoleStart(s, l) && HoleStart(s, l + 1)
    ensures FirstHole(s, b, l + 1, if first == -1 then index + 1 else first)
  {
  }

  // Line l has just been cleared; a hole starts at the line after it.
  method WriteHole(memory: Memory, b: nat, l: nat, previous: nat, ghost last: nat, ghost s: Space, ghost t: Space)
    returns (hole: nat)
    requires Building(s, t, b, l, false, last) && l + 1 < BLOCK_LINES * (b + 1)
    requires memory.space == SetLine(t, l, EMPTY) && !t.lines[l].marked && !t.lines[l + 1].marked
    requires previous == LINE * last
    modifies memory
    ensures hole == LINE * (l + 1) && Building(s, memory.space, b, l + 2, true, l + 1)
    ensures Scan(s, b, l, false, last) && HoleStart(s, l + 1) && !HoleStart(s, l)
  {
    BuildingBounds(s, t, b, l, false, last);
    ScanOf(s, t, b, l, false, last);
    hide Building, HoleStart, Scan;
    memory.space := SetLine(memory.space, l + 1, EMPTY);
    hole := LINE * (l + 1);
    memory.space := SetWord(memory.space, hole, 0);
    memory.space := SetWord(memory.space, hole + 1, 0);
    if previous != 0 {
      memory.space := SetWord(memory.space, previous + 1, 8 * hole);
    }
    OpenHole(s, t, memory.space, b, l, last);
  }

  // Lines `index - 1` and `index` are unmarked, and no hole is open: one starts at
  // the second.
  method StartHole(memory: Memory, b: nat, index: nat, previous: nat, first0: int, ghost last: nat, ghost s: Space,
      ghost t: Space)
    returns (hole: nat, first: int)
    requires 0 < index < BLOCK_LINES - 1 && Scanning(s, t, b, index - 1, 0, previous, first0, last)
    requires var l := BLOCK_LINES * b + index;
             l + 1 < |t.lines| && memory.space == SetLine(t, l, EMPTY) && !t.lines[l].marked && !t.lines[l + 1].marked
    modifies memory
    ensures Scanning(s, memory.space, b, index + 1, hole, previous, first, BLOCK_LINES * b + index + 1)
  {
    var l := BLOCK_LINES * b + index;
    hide Building, HoleStart, Scan, FirstHole;
    hole := WriteHole(memory, b, l, previous, last, s, t);
    first := if first0 == -1 then index else first0;
    FirstOpens(s, b, l, index - 1, last, first0);
    BuildingBounds(s, memory.space, b, l + 2, true, l + 1);
  }

  // Line `index` is marked.
  method EndHole(memory: Memory, b: nat, index: nat, hole0: nat, previous0: nat, ghost first: int, ghost last: nat,
      ghost s: Space)
    returns (hole: nat, previous: nat)
    requires index < BLOCK_LINES - 1 && Scanning(s, memory.space, b, index, hole0, previous0, first, last)
    requires var l := BLOCK_LINES * b + 1 + index; l < |memory.space.lines| && memory.space.lines[l].marked
    modifies memory
    ensures Scanning(s, memory.space, b, index + 1, hole, previous, first, last)
  {
    var l := BLOCK_LINES * b + 1 + index;
    PassMarked(s, memory.space, b, l, hole0 != 0, last);
    BuildingBounds(s, memory.space, b, l, hole0 != 0, last);
    hide Building, FirstHole;
    hole, previous := hole0, previous0;
    if hole != 0 {
      memory.space := SetWord(memory.space, hole, 8 * LINE * l);
      previous := hole;
      hole := 0;
    }
    BuildingBounds(s, memory.space, b, l + 1, false, last);
  }

  lemma UnmarkedOn(s: Space, t: Space, b: nat, index: nat, hole: nat, previous: nat, first: int, last: nat)
    requires index < BLOCK_LINES - 1 && Scanning(s, t, b, index, hole, previous, first, last)
    requires var l := BLOCK_LINES * b + 1 + index;
             && l < |t.lines| && !t.lines[l].marked
             && (hole != 0 || index == BLOCK_LINES - 2 || (l + 1 < |t.lines| && t.lines[l + 1].marked))
    ensures Scanning(s, SetLine(t, BLOCK_LINES * b + 1 + index, EMPTY), b, index + 1, hole, previous, first, last)
  {
    var l := BLOCK_LINES * b + 1 + index;
    hide FirstHole;
    PassUnmarked(s, t, b, l, hole != 0, last);
    BuildingBounds(s, SetLine(t, l, EMPTY), b, l + 1, hole != 0, last);
  }

  // One turn of the line loop.
  method ScanLine(memory: Memory, b: nat, index0: nat, hole0: nat, previous0: nat, first0: int, ghost last0: nat,
      ghost s: Space)
    returns (index: nat, hole: nat, previous: nat, first: int, ghost last: nat)
    requires index0 < BLOCK_LINES - 1 && Scanning(s, memory.space, b, index0, hole0, previous0, first0, last0)
    modifies memory
    ensures index0 < index && Scanning(s, memory.space, b, index, hole, previous, first, last)
  {
    index, hole, previous, first, last := index0, hole0, previous0, first0, last0;
    var l := BLOCK_LINES * b + 1 + index;
    ghost var t := memory.space;
    ScanningLine(s, t, b, index, hole, previous, first, last);
    hide Scanning;
    if memory.space.lines[l].marked {
      hole, previous := EndHole(memory, b, index, hole, previous, first, last, s);
    } else {
      memory.space := SetLine(memory.space, l, EMPTY);
      if hole == 0 && index != BLOCK_LINES - 2 && !memory.space.lines[l + 1].marked {
        index := index + 1;
        hole, first := StartHole(memory, b, index, previous, first, last, s, t);
        last := l + 1;
      } else {
        UnmarkedOn(s, t, b, index, hole, previous, first, last);
      }
    }
    index := index + 1;
  }

  // The line loop over a marked block; -1 is INVALID_LINE_INDEX.
  method BuildHoles(memory: Memory, b: nat) returns (first: int)
    requires Shape(memory.space) && IsBlock(memory.space, b)
    modifies memory
    ensures SameBounds(old(memory.space), memory.space)
    ensures Built(old(memory.space), memory.space, b, first)
  {
    ghost var s := memory.space;
    ghost var last: nat := 0;
    first := -1;
    var hole: nat, previous: nat := 0, 0;
    var index: nat := 0;
    StartScanning(s, b);
    hide Scanning, Built;
    while index < BLOCK_LINES - 1
      invariant index < BLOCK_LINES && Scanning(s, memory.space, b, index, hole, previous, first, last)
    {
      index, hole, previous, first, last := ScanLine(memory, b, index, hole, previous, first, last, s);
      ScanningLine(s, memory.space, b, index, hole, previous, first, last);
    }
    CloseLast(memory, b, hole, previous, first, last, s);
  }

  lemma StartScanning(s: Space, b: nat)
    requires Shape(s) && IsBlock(s, b)
    ensures Scanning(s, s, b, 0, 0, 0, -1, 0)
  {
    StartScan(s, b);
    hide Building;
  }

  // The hole that reaches the end of the block gets its limit.
  method CloseLast(memory: Memory, b: nat, hole: nat, ghost previous: nat, ghost first: int, ghost last: nat,
      ghost s: Space)
    requires Scanning(s, memory.space, b, BLOCK_LINES - 1, hole, previous, first, last)
    modifies memory
    ensures SameBounds(s, memory.space) && IsBlock(s, b) && Built(s, memory.space, b, first)
  {
    hide *;
    LastLine(s, memory.space, b, hole, previous, first, last);
    LastLimit(s, memory.space, b, hole != 0, last);
    if hole != 0 && memory.space.words[hole] == 0 {
      memory.space := SetWord(memory.space, hole, 8 * BlockStop(b));
    }
    Finished(s, memory.space, b, last, first);
    BuildingBounds(s, memory.space, b, BLOCK_LINES * (b + 1), false, last);
  }

  lemma ScanOf(s: Space, t: Space, b: nat, l: nat, open: bool, last: nat)
    requires Building(s, t, b, l, open, last)
    ensures Scan(s, b, l, open, last)
  {
  }

  // ------------------------------------------------------------------ all blocks

  predicate OtherBodies(s: Space, t: Space, b: nat)
    requires SameBounds(s, t)
  {
    forall c: nat | c < |s.blocks| && c != b :: Body(t.blocks[c]) == Body(s.blocks[c])
  }

  // Blocks below b are recycled, the others as they were.
  ghost predicate Swept(s: Space, t: Space, b: nat) {
    && SameBounds(s, t) && s.low <= b <= s.high
    && (forall c: nat | s.low <= c < b :: RecycledBlock(s, t, c))
    && (forall c: nat | b <= c < |s.blocks| :: Body(t.blocks[c]) == Body(s.blocks[c]))
    && (forall i: nat | i < |s.words| && !(Start(s) <= i < BLOCK * b) :: t.words[i] == s.words[i])
    && (forall l: nat | l < |s.lines| && (BLOCK_LINES * b <= l || !UsableLine(s, l)) ::
          t.lines[l] == s.lines[l] || (l % BLOCK_LINES == 0 && l < BLOCK_LINES * b && t.lines[l] == EMPTY))
  }

  lemma RecycledFrame(s: Space, t: Space, t': Space, c: nat)
    requires SameBounds(s, t) && SameBounds(s, t') && IsBlock(s, c) && RecycledBlock(s, t, c)
    requires forall i: nat | BLOCK * c <= i < BlockStop(c) :: t'.words[i] == t.words[i]
    requires forall l: nat | BLOCK_LINES * c < l < BLOCK_LINES * (c + 1) :: t'.lines[l] == t.lines[l]
    requires Body(t'.blocks[c]) == Body(t.blocks[c])
    ensures RecycledBlock(s, t', c)
  {
    assert Body(t'.blocks[c]).flag == t'.blocks[c].flag && Body(t.blocks[c]).flag == t.blocks[c].flag;
    assert Body(t'.blocks[c]).first == t'.blocks[c].first && Body(t.blocks[c]).first == t.blocks[c].first;
    if s.blocks[c].marked {
      forall i: nat | BLOCK * c <= i < BlockStop(c)
        ensures RecycledWord(s, t', i)
      {
        assert RecycledWord(s, t, i);
      }
    }
  }

  predicate SameLines(s: Space, t: Space, b: nat)
    requires SameBounds(s, t) && IsBlock(s, b)
  {
    forall k: nat | BLOCK_LINES * b < k < BLOCK_LINES * (b + 1) :: t.lines[k] == s.lines[k]
  }

  // The hole structure of a block depends on the marks of its lines only.
  lemma SameHoleStart(s: Space, t: Space, b: nat, l: nat)
    requires SameBounds(s, t) && IsBlock(s, b) && BLOCK_LINES * b <= l < BLOCK_LINES * (b + 1) && SameLines(s, t, b)
    ensures HoleStart(t, l) == HoleStart(s, l)
  {
  }

  lemma SameNextHole(s: Space, t: Space, b: nat, l: nat, n: nat)
    requires SameBounds(s, t) && IsBlock(s, b) && BLOCK_LINES * b < l < BLOCK_LINES * (b + 1) && SameLines(s, t, b)
    requires NextHole(t, l, n)
    ensures NextHole(s, l, n)
  {
    forall k | l < k < EndLine(l)
      ensures HoleStart(t, k) == HoleStart(s, k)
    {
      SameHoleStart(s, t, b, k);
    }
  }

  lemma SameRecycledWord(s: Space, t: Space, t': Space, b: nat, i: nat)
    requires SameBounds(s, t) && SameBounds(s, t') && IsBlock(s, b) && SameLines(s, t, b)
    requires BLOCK * b <= i < BlockStop(b) && t.words[i] == s.words[i] && RecycledWord(t, t', i)
    ensures RecycledWord(s, t', i)
  {
    var l := i / LINE;
    SameHoleStart(s, t, b, l);
    if HoleStart(s, l) && i % LINE == 1 {
      SameNextHole(s, t, b, l, t'.words[i] / 256);
    }
  }

  // Block b, marked, once its holes are built and its flag is set.
  lemma MarkedRecycled(s: Space, t: Space, t1: Space, t2: Space, b: nat, first: int)
    requires Swept(s, t, b) && b < s.high && s.blocks[b].marked
    requires SameBounds(t, t1) && Built(t, t1, b, first)
    requires SameBounds(t, t2) && t2.words == t1.words && t2.lines == t1.lines
    requires if first == -1 then t2.blocks[b].flag == Unavailable
             else t2.blocks[b].flag == Recyclable && t2.blocks[b].first == first
    ensures RecycledBlock(s, t2, b)
  {
    forall i: nat | BLOCK * b <= i < BlockStop(b)
      ensures RecycledWord(s, t2, i)
    {
      assert RecycledWord(t, t1, i);
      SameRecycledWord(s, t, t2, b, i);
    }
    forall k | BLOCK_LINES * b <= k < BLOCK_LINES * (b + 1)
      ensures HoleStart(t, k) == HoleStart(s, k)
    {
      SameHoleStart(s, t, b, k);
    }
    hide HoleStart, RecycledWord;
    assert EndLine(BLOCK_LINES * b) == BLOCK_LINES * (b + 1);
  }

  // Block b joins the swept blocks: nothing else changed but links.
  lemma SweptNext(s: Space, t: Space, t2: Space, b: nat)
    requires Swept(s, t, b) && b < s.high && SameBounds(t, t2) && RecycledBlock(s, t2, b)
    requires forall i: nat | i < |s.words| && !(BLOCK * b <= i < BlockStop(b)) :: t2.words[i] == t.words[i]
    requires forall l: nat | l < |s.lines|
             && !(BLOCK_LINES * b <= l < BLOCK_LINES * (b + 1)) :: t2.lines[l] == t.lines[l]
    requires t2.lines[BLOCK_LINES * b] == t.lines[BLOCK_LINES * b] || t2.lines[BLOCK_LINES * b] == EMPTY
    requires OtherBodies(t, t2, b)
    ensures Swept(s, t2, b + 1)
  {
    forall c: nat | s.low <= c < b
      ensures RecycledBlock(s, t2, c)
    {
      RecycledFrame(s, t, t2, c);
    }
  }

  // The blocks below b with the given flag, in address order.
  ghost predicate Gathered(blocks: seq<Block>, low: nat, b: nat, list: seq<nat>, flag: Flag) {
    Increasing(list) && forall c: nat :: c in list <==> low <= c < b && c < |blocks| && blocks[c].flag == flag
  }

  lemma GatheredNext(blocks: seq<Block>, blocks': seq<Block>, low: nat, b: nat, list: seq<nat>, flag: Flag)
    requires Gathered(blocks, low, b, list, flag) && |blocks'| == |blocks| && low <= b < |blocks|
    requires forall c: nat | c < b :: Body(blocks'[c]) == Body(blocks[c])
    ensures Gathered(blocks', low, b + 1, if blocks'[b].flag == flag then list + [b] else list, flag)
  {
    forall c: nat | c < b
      ensures blocks'[c].flag == blocks[c].flag
    {
      assert Body(blocks'[c]).flag == Body(blocks[c]).flag;
    }
    assert forall c :: c in list + [b] <==> c in list || c == b;
    assert forall i | 0 <= i < |list| :: list[i] in list;
  }

  // The lists hold the free and the recyclable blocks below b.
  ghost predicate Listing(memory: Memory, free: BlockList, recyclable: BlockList, b: nat)
    reads memory, free, recyclable
  {
    && free != recyclable && Shape(memory.space)
    && free.Valid(memory.space.blocks) && recyclable.Valid(memory.space.blocks)
    && Gathered(memory.space.blocks, memory.space.low, b, free.contents, Free)
    && Gathered(memory.space.blocks, memory.space.low, b, recyclable.contents, Recyclable)
  }

  // Push, when the bodies of the listed blocks are as in `blocks`.
  lemma ListingNext(blocks: seq<Block>, blocks': seq<Block>, low: nat, b: nat, free: seq<nat>, recyclable: seq<nat>)
    requires Gathered(blocks, low, b, free, Free) && Gathered(blocks, low, b, recyclable, Recyclable)
    requires |blocks'| == |blocks| && low <= b < |blocks|
    requires forall c: nat | c < b :: Body(blocks'[c]) == Body(blocks[c])
    ensures Gathered(blocks', low, b + 1, if blocks'[b].flag == Free then free + [b] else free, Free)
    ensures Gathered(blocks', low, b + 1,
                     if blocks'[b].flag == Recyclable then recyclable + [b] else recyclable, Recyclable)
  {
    GatheredNext(blocks, blocks', low, b, free, Free);
    GatheredNext(blocks, blocks', low, b, recyclable, Recyclable);
  }

  lemma FreeRecycled(s: Space, t: Space, t2: Space, b: nat)
    requires Swept(s, t, b) && b < s.high && !s.blocks[b].marked
    requires SameBounds(t, t2) && t2.words == t.words
    requires Cleared(t.lines, t2.lines, BLOCK_LINES * b, BLOCK_LINES * (b + 1))
    requires SmallHeaps.SameBodies(t.blocks[b := FRESH_BLOCK], t2.blocks)
    ensures Swept(s, t2, b + 1)
  {
    assert Body(t2.blocks[b]) == FRESH_BLOCK;
    assert t2.blocks[b].flag == Body(t2.blocks[b]).flag && t2.blocks[b].first == Body(t2.blocks[b]).first;
    SweptNext(s, t, t2, b);
  }

  // An unmarked block.
  method FreeBlock(memory: Memory, free: BlockList, recyclable: BlockList, b: nat, ghost s: Space)
    requires Listing(memory, free, recyclable, b) && Swept(s, memory.space, b) && b < s.high && !s.blocks[b].marked
    modifies memory, free
    ensures Listing(memory, free, recyclable, b + 1) && Swept(s, memory.space, b + 1)
  {
    ghost var t, f := memory.space, free.contents;
    hide Swept, RecycledBlock, Linked;
    PushFresh(memory, free, recyclable, b);
    FreeListing(t, memory.space, b, f, recyclable.contents);
    FreeRecycled(s, t, memory.space, b);
  }

  lemma FreeListing(t: Space, t2: Space, b: nat, free: seq<nat>, recyclable: seq<nat>)
    requires Gathered(t.blocks, t.low, b, free, Free) && Gathered(t.blocks, t.low, b, recyclable, Recyclable)
    requires t.low <= b < |t.blocks| && t2.low == t.low
    requires SmallHeaps.SameBodies(t.blocks[b := FRESH_BLOCK], t2.blocks)
    ensures Gathered(t2.blocks, t2.low, b + 1, free + [b], Free)
    ensures Gathered(t2.blocks, t2.low, b + 1, recyclable, Recyclable)
  {
    assert Body(t2.blocks[b]).flag == Free;
    ListingNext(t.blocks, t2.blocks, t.low, b, free, recyclable);
  }

  // The flag of a block whose holes are built.
  function Flagging(block: Block, first: int): Block
    requires first >= -1
  {
    if first == -1 then block.(flag := Unavailable) else block.(flag := Recyclable, first := first)
  }

  lemma MarkedSwept(s: Space, t: Space, t1: Space, t2: Space, b: nat, first: int)
    requires Swept(s, t, b) && b < s.high && s.blocks[b].marked && first >= -1
    requires SameBounds(t, t1) && Built(t, t1, b, first)
    requires SameBounds(t, t2) && t2.words == t1.words && t2.lines == t1.lines
    requires Body(t2.blocks[b]) == Body(Flagging(t.blocks[b], first)) && OtherBodies(t, t2, b)
    ensures Swept(s, t2, b + 1)
  {
    assert t2.blocks[b].flag == Body(t2.blocks[b]).flag && t2.blocks[b].first == Body(t2.blocks[b]).first;
    MarkedRecycled(s, t, t1, t2, b, first);
    SweptNext(s, t, t2, b);
  }

  // Block_setRecyclable and BlockList_push, or Block_setUnavailable.
  method FlagBlock(memory: Memory, free: BlockList, recyclable: BlockList, b: nat, first: int)
    requires free != recyclable && free.Valid(memory.space.blocks) && recyclable.Valid(memory.space.blocks)
    requires 0 < b < |memory.space.blocks| && b !in free.contents && b !in recyclable.contents && first >= -1
    requires forall c | c in free.contents :: c !in recyclable.contents
    modifies memory, recyclable
    ensures free.Valid(memory.space.blocks) && recyclable.Valid(memory.space.blocks)
    ensures recyclable.contents == old(recyclable.contents) + (if first == -1 then [] else [b])
    ensures memory.space == old(memory.space).(blocks := memory.space.blocks)
    ensures SmallHeaps.SameBodies(old(memory.space.blocks)[b := Flagging(old(memory.space.blocks)[b], first)],
                                  memory.space.blocks)
  {
    ghost var blocks := memory.space.blocks;
    memory.space := SetBlock(memory.space, b, Flagging(memory.space.blocks[b], first));
    LinksKept(free.contents, blocks, memory.space.blocks);
    LinksKept(recyclable.contents, blocks, memory.space.blocks);
    if first != -1 {
      blocks := memory.space.blocks;
      recyclable.Push(memory, b);
      LinksKept(free.contents, blocks, memory.space.blocks);
    }
  }

  lemma MarkedListing(t: Space, t2: Space, b: nat, first: int, free: seq<nat>, recyclable: seq<nat>)
    requires Gathered(t.blocks, t.low, b, free, Free) && Gathered(t.blocks, t.low, b, recyclable, Recyclable)
    requires t.low <= b < |t.blocks| && first >= -1 && t2.low == t.low
    requires SmallHeaps.SameBodies(t.blocks[b := Flagging(t.blocks[b], first)], t2.blocks)
    ensures Gathered(t2.blocks, t2.low, b + 1, free, Free)
    ensures Gathered(t2.blocks, t2.low, b + 1, recyclable + (if first == -1 then [] else [b]), Recyclable)
  {
    assert Body(t2.blocks[b]).flag == Body(Flagging(t.blocks[b], first)).flag;
    ListingNext(t.blocks, t2.blocks, t.low, b, free, recyclable);
  }

  // A marked block: its holes, its flag, and the recyclable list.
  method RecycleBlock(memory: Memory, free: BlockList, recyclable: BlockList, b: nat, ghost s: Space)
    requires Listing(memory, free, recyclable, b) && Swept(s, memory.space, b) && b < s.high && s.blocks[b].marked
    modifies memory, recyclable
    ensures Listing(memory, free, recyclable, b + 1) && Swept(s, memory.space, b + 1)
  {
    ghost var t, r := memory.space, recyclable.contents;
    hide Linked, HoleWord, RecycledBlock;
    var first := BuildHoles(memory, b);
    ghost var t1 := memory.space;
    BuiltBlocks(t, t1, b, first);
    hide Built;
    FlagBlock(memory, free, recyclable, b, first);
    MarkedListing(t, memory.space, b, first, free.contents, r);
    hide Gathered;
    MarkedSwept(s, t, t1, memory.space, b, first);
  }

  lemma BuiltBlocks(s: Space, t: Space, b: nat, first: int)
    requires SameBounds(s, t) && IsBlock(s, b) && Built(s, t, b, first)
    ensures t.blocks == s.blocks && first >= -1
  {
  }

  lemma SweptAll(s: Space, t: Space)
    requires Swept(s, t, s.high)
    ensures Recycled(s, t)
  {
  }

  lemma SweptMark(s: Space, t: Space, b: nat)
    requires Swept(s, t, b) && b < s.high
    ensures SameBounds(s, t) && t.blocks[b].marked == s.blocks[b].marked
  {
  }

  // The loop over all blocks.
  method RecycleFrom(memory: Memory, free: BlockList, recyclable: BlockList, ghost s: Space)
    requires Shape(s) && memory.space == s && Listing(memory, free, recyclable, s.low) && Swept(s, s, s.low)
    modifies memory, free, recyclable
    ensures Swept(s, memory.space, s.high) && Listing(memory, free, recyclable, s.high)
  {
    hide Listing, Swept;
    var block := memory.space.low;
    while block < memory.space.high
      invariant s.low <= block <= s.high && SameBounds(s, memory.space)
      invariant Listing(memory, free, recyclable, block) && Swept(s, memory.space, block)
    {
      SweptMark(s, memory.space, block);
      if !memory.space.blocks[block].marked {
        FreeBlock(memory, free, recyclable, block, s);
      } else {
        RecycleBlock(memory, free, recyclable, block, s);
      }
      SweptBounds(s, memory.space, block + 1);
      block := block + 1;
    }
  }

  // GC_GlobalAllocator_recycleBlocks
  method RecycleBlocks(memory: Memory, free: BlockList, recyclable: BlockList)
    requires Shape(memory.space) && free != recyclable
    modifies memory, free, recyclable
    ensures Recycled(old(memory.space), memory.space)
    ensures free.Valid(memory.space.blocks) && recyclable.Valid(memory.space.blocks)
    ensures ListsFlag(memory.space, free.contents, Free)
    ensures ListsFlag(memory.space, recyclable.contents, Recyclable)
  {
    ghost var s := memory.space;
    free.Clear();
    recyclable.Clear();
    RecycleFrom(memory, free, recyclable, s);
    hide RecycledBlock, Linked;
    SweptBounds(s, memory.space, s.high);
    SweptAll(s, memory.space);
    ListingAll(memory, free, recyclable);
  }

  lemma ListingAll(memory: Memory, free: BlockList, recyclable: BlockList)
    requires Shape(memory.space) && Listing(memory, free, recyclable, memory.space.high)
    ensures free.Valid(memory.space.blocks) && recyclable.Valid(memory.space.blocks)
    ensures ListsFlag(memory.space, free.contents, Free)
    ensures ListsFlag(memory.space, recyclable.contents, Recyclable)
  {
    hide Linked;
  }

  lemma SweptBounds(s: Space, t: Space, b: nat)
    requires Swept(s, t, b)
    ensures SameBounds(s, t) && b <= s.high
  {
  }

  // --------------------------------------------------------- what the holes are

  // A run of unmarked lines of block b that cannot be extended.
  predicate MaximalRun(s: Space, b: nat, from: nat, to: nat)
    requires Shape(s) && IsBlock(s, b)
  {
    && BLOCK_LINES * b < from < to <= BLOCK_LINES * (b + 1)
    && (forall k | from <= k < to :: !s.lines[k].marked)
    && (from - 1 == BLOCK_LINES * b || s.lines[from - 1].marked)
    && (to == BLOCK_LINES * (b + 1) || s.lines[to].marked)
  }

  // The holes are the maximal runs without their first lines.
  lemma HolesAreRuns(s: Space, b: nat, l: nat, e: nat)
    requires Shape(s) && IsBlock(s, b) && BLOCK_LINES * b < l < BLOCK_LINES * (b + 1)
    ensures HoleStart(s, l) && HoleEnd(s, l, e) <==> l < e && MaximalRun(s, b, l - 1, e)
  {
  }

  lemma {:induction false} StartBelow(s: Space, b: nat, l: nat) returns (k: nat)
    requires Shape(s) && IsBlock(s, b) && BLOCK_LINES * b < l < BLOCK_LINES * (b + 1) && HoleLine(s, l)
    ensures BLOCK_LINES * b < k <= l && HoleStart(s, k)
  {
    if HoleStart(s, l) {
      k := l;
    } else {
      k := StartBelow(s, b, l - 1);
    }
  }

  // A marked block becomes recyclable exactly when two adjacent lines of it are unmarked.
  lemma RecyclableIff(s: Space, t: Space, b: nat)
    requires WF(s) && Recycled(s, t) && IsBlock(s, b) && s.blocks[b].marked
    ensures t.blocks[b].flag == Recyclable <==>
              exists l: nat :: BLOCK_LINES * b < l < BLOCK_LINES * (b + 1) && HoleLine(s, l)
    ensures t.blocks[b].flag == Recyclable || t.blocks[b].flag == Unavailable
  {
    assert RecycledBlock(s, t, b) && EndLine(BLOCK_LINES * b) == BLOCK_LINES * (b + 1);
    if l: nat :| BLOCK_LINES * b < l < BLOCK_LINES * (b + 1) && HoleLine(s, l) {
      var k := StartBelow(s, b, l);
      assert HoleStart(s, k);
    }
  }

  // Following the links from the hole at line l leads to the hole at line k.
  predicate LeadsTo(t: Space, l: nat, k: nat)
    requires k < |t.lines| && |t.words| == LINE * |t.lines|
    decreases k - l
  {
    l == k || (l < k && l < NextLine(t, l) <= k && LeadsTo(t, NextLine(t, l), k))
  }

  // Every hole of a recycled block is linked, in address order.
  lemma {:induction false} AllHolesLinked(s: Space, t: Space, b: nat, l: nat, k: nat)
    requires WF(s) && Recycled(s, t) && IsBlock(s, b) && s.blocks[b].marked
    requires BLOCK_LINES * b < l <= k < BLOCK_LINES * (b + 1) && HoleStart(s, l) && HoleStart(s, k)
    ensures LeadsTo(t, l, k)
    decreases k - l
  {
    if l < k {
      RecycledRecord(s, t, b, l);
      AllHolesLinked(s, t, b, NextLine(t, l), k);
    }
  }

  lemma FirstBelow(s: Space, t: Space, b: nat, k: nat)
    requires SameBounds(s, t) && IsBlock(s, b) && RecycledBlock(s, t, b) && s.blocks[b].marked
    requires BLOCK_LINES * b < k < BLOCK_LINES * (b + 1) && HoleStart(s, k)
    ensures t.blocks[b].flag == Recyclable
    ensures var l := BLOCK_LINES * b + 1 + t.blocks[b].first;
            BLOCK_LINES * b < l <= k && HoleStart(s, l)
  {
    hide HoleStart;
    assert EndLine(BLOCK_LINES * b) == BLOCK_LINES * (b + 1);
  }

  lemma FirstHoleLinked(s: Space, t: Space, b: nat, k: nat)
    requires WF(s) && Recycled(s, t) && IsBlock(s, b) && s.blocks[b].marked
    requires BLOCK_LINES * b < k < BLOCK_LINES * (b + 1) && HoleStart(s, k)
    ensures t.blocks[b].flag == Recyclable && LeadsTo(t, BLOCK_LINES * b + 1 + t.blocks[b].first, k)
  {
    assert RecycledBlock(s, t, b);
    hide RecycledBlock, HoleStart, WF, LeadsTo;
    FirstBelow(s, t, b, k);
    AllHolesLinked(s, t, b, BLOCK_LINES * b + 1 + t.blocks[b].first, k);
  }
}
