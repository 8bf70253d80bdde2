// The small-object space as a value: one flat array of 8-byte words, one line
// header per 32 words and one block header per 4096 words, all indexed by
// absolute word address.  The first line of a block holds its metadata.
module Space {
  import opened LineHeader

  const LINE: nat := 32
  const BLOCK: nat := 4096
  const BLOCK_LINES: nat := 128
  const LARGE: nat := 1024
  const HEADER: nat := 2

  datatype Flag = Free | Recyclable | Unavailable

  // `first` is the index, counted after the metadata line, of the first line of
  // the first hole; `next` is the number of the next block in its list (0: none).
  datatype Block = Block(marked: bool, flag: Flag, first: nat, next: nat)

  const FRESH_BLOCK := Block(false, Free, 0, 0)

  // The heap consists of the blocks numbered low to high - 1.
  datatype Space = Space(words: seq<nat>, lines: seq<Line>, blocks: seq<Block>, low: nat, high: nat)

  function Start(s: Space): nat {
    BLOCK * s.low
  }

  function Stop(s: Space): nat {
    BLOCK * s.high
  }

  // The second word of an object header: low byte `marked`, next byte `atomic`.
  predicate MarkBit(w: nat) {
    w % 256 == 1
  }

  function SetMark(w: nat): nat {
    w - w % 256 + 1
  }

  function ClearMark(w: nat): nat {
    w - w % 256
  }

  predicate AtomicBit(w: nat) {
    w / 256 % 256 != 0
  }

  function SetAtomic(w: nat, atomic: bool): nat {
    w % 256 + (if atomic then 256 else 0) + w / 65536 * 65536
  }

  lemma HeaderBits(w: nat)
    ensures MarkBit(SetMark(w)) && !MarkBit(ClearMark(w))
    ensures AtomicBit(SetMark(w)) == AtomicBit(w) == AtomicBit(ClearMark(w))
  {
    assert SetMark(w) / 256 == w / 256 == ClearMark(w) / 256;
  }

  lemma AtomicBits(w: nat, atomic: bool)
    ensures AtomicBit(SetAtomic(w, atomic)) == atomic
    ensures MarkBit(SetAtomic(w, atomic)) == MarkBit(w)
  {
    var q := w / 65536;
    var x := if atomic then 1 else 0;
    assert SetAtomic(w, atomic) == 256 * (256 * q + x) + w % 256;
    assert SetAtomic(w, atomic) / 256 == 256 * q + x;
    assert SetAtomic(w, atomic) % 256 == w % 256;
  }

  predicate Shape(s: Space) {
    && 0 < s.low <= s.high <= |s.blocks|
    && |s.words| == BLOCK * |s.blocks|
    && |s.lines| == BLOCK_LINES * |s.blocks|
  }

  predicate InSmallHeap(s: Space, a: nat) {
    Start(s) <= a < Stop(s)
  }

  function BlockStart(b: nat): nat {
    BLOCK * b + LINE
  }

  function BlockStop(b: nat): nat {
    BLOCK * b + BLOCK
  }

  predicate IsBlock(s: Space, b: nat) {
    s.low <= b < s.high
  }

  // ---------------------------------------------------------------- line walk

  // Stepping by the size found at each position leads from a to b.
  predicate Reaches(words: seq<nat>, a: nat, b: nat)
    requires b <= |words|
    decreases b - a
  {
    a == b || (a < b && words[a] > 0 && Reaches(words, a + words[a], b))
  }

  lemma {:induction false} ReachesSplit(words: seq<nat>, a: nat, b: nat, c: nat)
    requires b <= c <= |words| && Reaches(words, a, b) && Reaches(words, a, c)
    ensures Reaches(words, b, c)
    decreases b - a
  {
    if a != b {
      ReachesSplit(words, a + words[a], b, c);
    }
  }

  lemma {:induction false} ReachesJoin(words: seq<nat>, a: nat, b: nat, c: nat)
    requires b <= c <= |words| && Reaches(words, a, b) && Reaches(words, b, c)
    ensures Reaches(words, a, c)
    decreases b - a
  {
    if a != b {
      ReachesJoin(words, a + words[a], b, c);
    }
  }

  // One step past a reached position.
  lemma ReachesStep(words: seq<nat>, a: nat, b: nat)
    requires b < |words| && Reaches(words, a, b) && words[b] > 0 && b + words[b] <= |words|
    ensures Reaches(words, a, b + words[b])
  {
    ReachesJoin(words, a, b, b + words[b]);
  }

  // A walk depends only on the sizes stored at the positions it visits.
  lemma {:induction false} ReachesFrame(words: seq<nat>, words': seq<nat>, a: nat, b: nat)
    requires b <= |words| == |words'|
    requires forall i | a <= i < b && Reaches(words, a, i) :: words'[i] == words[i]
    ensures Reaches(words', a, b) == Reaches(words, a, b)
    decreases b - a
  {
    if a < b {
      assert Reaches(words, a, a);
      if words[a] > 0 {
        forall i | a + words[a] <= i < b && Reaches(words, a + words[a], i)
          ensures words'[i] == words[i]
        {
          assert Reaches(words, a, i);
        }
        ReachesFrame(words, words', a + words[a], b);
      }
    }
  }

  function First(s: Space, l: nat): nat
    requires l < |s.lines|
  {
    LINE * l + s.lines[l].offset
  }

  // The walk of the line of `a` arrives at `a`.
  predicate Node(s: Space, a: nat)
    requires Shape(s) && a < |s.words|
  {
    s.lines[a / LINE].occupied && Reaches(s.words, First(s, a / LINE), a)
  }

  // An object header that the line walk visits.
  ghost predicate Visible(s: Space, d: nat)
    requires Shape(s)
  {
    InSmallHeap(s, d) && Node(s, d) && s.words[d] > 0
  }

  function Size(s: Space, o: nat): nat {
    if o < |s.words| then s.words[o] else 0
  }

  // ------------------------------------------------------------ well-formedness

  predicate LineOK(s: Space, l: nat)
    requires Shape(s) && l < |s.lines|
  {
    s.lines[l].occupied ==>
      l % BLOCK_LINES != 0 && s.lines[l].offset < LINE && s.words[First(s, l)] > 0
  }

  ghost predicate ObjectOK(s: Space, d: nat)
    requires Shape(s) && InSmallHeap(s, d)
  {
    && HEADER <= s.words[d] <= LARGE
    && d + s.words[d] <= BlockStop(d / BLOCK)
  }

  // An object whose header straddles a line end is not followed by an object
  // starting at the beginning of the next line.
  predicate BoundaryOK(s: Space, l: nat)
    requires Shape(s) && 0 < l < |s.lines| && InSmallHeap(s, LINE * l - 1)
  {
    s.lines[l].occupied && s.lines[l].offset == 0 && Node(s, LINE * l - 1) ==> s.words[LINE * l - 1] == 0
  }

  ghost predicate WF(s: Space) {
    && Shape(s)
    && (forall l | Start(s) <= LINE * l < Stop(s) :: LineOK(s, l))
    && (forall d | Visible(s, d) :: ObjectOK(s, d))
    && (forall l | Start(s) < LINE * l < Stop(s) :: BoundaryOK(s, l))
  }

  lemma FirstVisible(s: Space, l: nat)
    requires WF(s) && Start(s) <= LINE * l < Stop(s) && s.lines[l].occupied
    ensures Visible(s, First(s, l)) && First(s, l) / LINE == l
  {
    assert LineOK(s, l);
  }

  // Within one line the walk goes from each visible object past its end.
  lemma SameLine(s: Space, d: nat, e: nat)
    requires WF(s) && Visible(s, d) && InSmallHeap(s, e) && Node(s, e) && d < e && d / LINE == e / LINE
    ensures Reaches(s.words, d + s.words[d], e) && d + s.words[d] <= e
  {
    ReachesSplit(s.words, First(s, d / LINE), d, e);
  }

  // The two header words of a visible object contain no other walk position.
  lemma NodeNotFlag(s: Space, d: nat, e: nat)
    requires WF(s) && Visible(s, d) && InSmallHeap(s, e) && Node(s, e)
    ensures e != d + 1
  {
    assert ObjectOK(s, d);
    if d / LINE == e / LINE {
      if d < e {
        SameLine(s, d, e);
      }
    } else if e % LINE == 0 && Start(s) < e {
      assert BoundaryOK(s, e / LINE);
    }
  }

  lemma VisibleApart(s: Space, d: nat, e: nat)
    requires WF(s) && Visible(s, d) && Visible(s, e) && d < e
    ensures d + HEADER <= e
  {
    NodeNotFlag(s, d, e);
  }

  // The walk of a line goes on at the end of each visible object.
  lemma NodeNext(s: Space, pos: nat, l: nat)
    requires WF(s) && Visible(s, pos) && pos / LINE == l
    ensures pos + s.words[pos] <= |s.words| && pos + s.words[pos] > pos + 1
    ensures pos + s.words[pos] < LINE * (l + 1) ==>
              InSmallHeap(s, pos + s.words[pos]) && Node(s, pos + s.words[pos])
  {
    ObjectEnd(s, pos);
    var next := pos + s.words[pos];
    if next < LINE * (l + 1) {
      SameLineNext(s.low, s.high, pos, next, l);
      ReachesStep(s.words, First(s, l), pos);
    }
  }

  lemma ObjectEnd(s: Space, pos: nat)
    requires WF(s) && Visible(s, pos)
    ensures pos + HEADER <= pos + s.words[pos] <= Stop(s) <= |s.words|
  {
    assert ObjectOK(s, pos);
  }

  lemma SameLineNext(low: nat, high: nat, pos: nat, next: nat, l: nat)
    requires BLOCK * low <= pos < BLOCK * high && pos / LINE == l && pos < next < LINE * (l + 1)
    ensures next / LINE == l && BLOCK * low <= next < BLOCK * high
  {
    assert BLOCK_LINES * low <= l && l + 1 <= BLOCK_LINES * high;
  }

  lemma InHeap(low: nat, high: nat, d: nat)
    requires BLOCK * low <= d < BLOCK * high
    ensures d / LINE / BLOCK_LINES == d / BLOCK && low <= d / BLOCK < high
    ensures BLOCK * low <= LINE * (d / LINE) < BLOCK * high
  {
  }

  lemma SameLineInside(low: nat, high: nat, d: nat, i: nat)
    requires BLOCK * low <= d < BLOCK * high && i / LINE == d / LINE
    ensures BLOCK * low <= i < BLOCK * high
  {
    assert BLOCK_LINES * low <= d / LINE && d / LINE + 1 <= BLOCK_LINES * high;
  }

  // Visibility depends on the line headers and on the words at walk positions.
  lemma VisibleFrame(s: Space, t: Space, d: nat)
    requires Shape(s) && Shape(t) && Start(s) == Start(t) && d < Stop(s) == Stop(t) && |s.words| == |t.words|
    requires s.lines[d / LINE].occupied == t.lines[d / LINE].occupied
    requires s.lines[d / LINE].offset == t.lines[d / LINE].offset
    requires forall i | i <= d && i / LINE == d / LINE && Node(s, i) :: t.words[i] == s.words[i]
    ensures Node(t, d) == Node(s, d) && Visible(t, d) == Visible(s, d)
  {
    if s.lines[d / LINE].occupied {
      var f := First(s, d / LINE);
      forall i | f <= i < d && Reaches(s.words, f, i)
        ensures t.words[i] == s.words[i]
      {
        assert i / LINE == d / LINE;
        assert Node(s, i);
      }
      ReachesFrame(s.words, t.words, f, d);
    }
  }

  // ------------------------------------------------------------------- lookup

  // `a` lies in the payload of `o`, and no visible object starts in between.
  ghost predicate Target(s: Space, a: nat, o: nat)
    requires Shape(s)
  {
    && Visible(s, o)
    && o + HEADER <= a < o + s.words[o]
    && forall d | o < d <= a :: !Visible(s, d)
  }

  lemma TargetUnique(s: Space, a: nat, o: nat, o': nat)
    requires Shape(s) && Target(s, a, o) && Target(s, a, o')
    ensures o == o'
  {
  }

  // --------------------------------------------------------------- live objects

  // A live object contains no header of another visible object.
  ghost predicate Solid(s: Space, o: nat)
    requires Shape(s)
  {
    Visible(s, o) && forall d: nat | Visible(s, d) && d != o :: d + HEADER <= o || o + s.words[o] <= d
  }

  ghost predicate LiveOK(s: Space, live: set<nat>)
    requires Shape(s)
  {
    forall o | o in live :: Solid(s, o)
  }

  ghost predicate HeldOK(s: Space, held: set<nat>)
    requires Shape(s)
  {
    forall o | o in held :: Visible(s, o)
  }

  lemma LiveDisjoint(s: Space, live: set<nat>, o: nat, o': nat)
    requires WF(s) && LiveOK(s, live) && o in live && o' in live && o < o'
    ensures o + s.words[o] <= o'
  {
  }

  // Every word of the payload of a live object resolves to that object alone.
  lemma LiveTarget(s: Space, o: nat, a: nat, o': nat)
    requires WF(s) && Solid(s, o) && o + HEADER <= a < o + s.words[o]
    ensures Target(s, a, o') <==> o' == o
  {
    forall d | o < d <= a
      ensures !Visible(s, d)
    {
      if Visible(s, d) {
        VisibleApart(s, o, d);
      }
    }
    assert Target(s, a, o);
    if Target(s, a, o') {
      TargetUnique(s, a, o, o');
    }
  }

  // Lookup can find a live object exactly if its payload is not empty.
  lemma Findable(s: Space, o: nat)
    requires WF(s) && Solid(s, o)
    ensures (exists a :: Target(s, a, o)) <==> s.words[o] > HEADER
  {
    if s.words[o] > HEADER {
      LiveTarget(s, o, o + HEADER, o);
    }
  }
}
