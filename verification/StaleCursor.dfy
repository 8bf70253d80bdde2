// What a stale hole list does (src/local_allocator.c, LocalAllocator_initCursor):
// the cursor leaves its block, or hands out words that it handed out before.
module StaleCursors {
  import opened LineHeader
  import opened Space
  import opened Bump
  import opened Sweeping
  import opened Runs

  // The word at a belongs to an object that was handed out.
  ghost predicate HandedOut(s: Space, held: set<nat>, a: nat) {
    exists o :: o in held && o <= a < o + Size(s, o)
  }

  // Cursor k works through the free block b, with a stale list behind it: all words
  // below the cursor are handed out.
  ghost predicate Filling(st: State, k: nat, b: nat, stale: nat) {
    && WF(st.space) && HeldOK(st.space, st.held) && k in st.regions
    && var r := st.regions[k];
       && r.block == b && r.limit == BlockStop(b) && r.next == stale
       && CursorOK(st.space, st.held, b, r.pos, r.limit)
       && forall a: nat | BlockStart(b) <= a < r.pos :: HandedOut(st.space, st.held, a)
  }

  // initCursor on a free block.
  lemma FillStart(st: State, k: nat, stale: nat, st': State)
    requires Inv(st) && TakeStep(st, k, stale, st') && st.recyclable == []
    ensures Filling(st', k, st.free[0], stale)
  {
    assert Ready(st.space, st.held, st.free[0], Free);
  }

  lemma NewSize(s: Space, held: set<nat>, r: Region, n: nat, atomic: bool)
    requires WF(s) && CanBump(s, held, r, n)
    ensures Size(Bumped(s, r, n, atomic), r.pos) == n
  {
  }

  lemma HandedOutKept(s: Space, held: set<nat>, r: Region, n: nat, atomic: bool, a: nat)
    requires WF(s) && CanBump(s, held, r, n) && HeldOK(s, held) && (HandedOut(s, held, a) || r.pos <= a < r.pos + n)
    ensures HandedOut(Bumped(s, r, n, atomic), held + {r.pos}, a)
  {
    NewSize(s, held, r, n, atomic);
    if o :| o in held && o <= a < o + Size(s, o) {
      BumpSize(s, held, r, n, atomic, o);
      BumpedLength(s, r, n, atomic);
      hide WF, CanBump, HeldOK, Bumped;
      assert o in held + {r.pos};
    } else {
      hide WF, CanBump, HeldOK, Bumped;
      assert r.pos in held + {r.pos};
    }
  }

  lemma FillStep(st: State, k: nat, n: nat, atomic: bool, st': State, b: nat, stale: nat)
    requires Filling(st, k, b, stale) && AllocateStep(st, k, n, atomic, st')
    ensures Filling(st', k, b, stale)
  {
    var s, held, r := st.space, st.held, st.regions[k];
    BumpWF(s, held, r, n, atomic);
    BumpHeld(s, held, r, n, atomic);
    BumpQuiet(s, held, r, n, atomic);
    BumpCursor(s, held, r, n, atomic);
    forall a: nat | BlockStart(b) <= a < r.pos + n
      ensures HandedOut(st'.space, st'.held, a)
    {
      HandedOutKept(s, held, r, n, atomic, a);
    }
  }

  ghost predicate AllocatesAt(st: State, k: nat, st': State) {
    exists n, atomic :: AllocateStep(st, k, n, atomic, st')
  }

  // Allocations at cursor k, one after the other.
  ghost predicate Fills(states: seq<State>, k: nat) {
    states != [] && forall i | 0 <= i < |states| - 1 :: AllocatesAt(states[i], k, states[i + 1])
  }

  lemma {:induction false} FillRun(states: seq<State>, k: nat, b: nat, stale: nat, i: nat)
    requires Fills(states, k) && Filling(states[0], k, b, stale) && i < |states|
    ensures Filling(states[i], k, b, stale)
  {
    if i > 0 {
      FillRun(states, k, b, stale, i - 1);
      assert AllocatesAt(states[i - 1], k, states[i]);
      var n, atomic :| AllocateStep(states[i - 1], k, n, atomic, states[i]);
      FillStep(states[i - 1], k, n, atomic, states[i], b, stale);
    }
  }

  // From any sound state: when a cursor that kept a stale list takes a free block
  // and fills it, its next move leads to the stale address, which lies outside its
  // block, where Line_update's assertion fails, or in an object handed out before.
  lemma StaleSkip(st: State, k: nat, stale: nat, states: seq<State>, end: State)
    requires Inv(st) && st.recyclable == [] && stale != 0
    requires Fills(states, k) && TakeStep(st, k, stale, states[0])
    requires var last := states[|states| - 1];
             k in last.regions && last.regions[k].pos == last.regions[k].limit && SkipStep(last, k, end)
    ensures k in end.regions && end.regions[k].pos == stale && end.regions[k].block == st.free[0]
    ensures !(BlockStart(st.free[0]) <= stale < BlockStop(st.free[0])) || HandedOut(end.space, end.held, stale)
  {
    FillStart(st, k, stale, states[0]);
    FillRun(states, k, st.free[0], stale, |states| - 1);
  }

  // ------------------------------------------------------------ such a run

  // A run over a heap of blocks 1 to 3.  Blocks 1 and 3 are filled; of the objects in
  // block 1 the collection keeps two of one line each, with a hole between them and a
  // hole behind them.
  const OBJECT_A: nat := 4128
  const OBJECT_B: nat := 4416
  const HOLE_1: nat := 4192
  const HOLE_2: nat := 4480

  const BOTH: set<nat> := {OBJECT_A, OBJECT_B}

  // The sizes of the objects by their addresses.
  const OBJECTS: map<nat, nat> := map[
    OBJECT_A := LINE, 4160 := 256, OBJECT_B := LINE, 4448 := LARGE, 5472 := LARGE, 6496 := LARGE, 7520 := 672,
    12320 := LARGE, 13344 := LARGE, 14368 := LARGE, 15392 := 992]

  // Those in block 1.
  const BLOCK_1: map<nat, nat> := map[
    OBJECT_A := LINE, 4160 := 256, OBJECT_B := LINE, 4448 := LARGE, 5472 := LARGE, 6496 := LARGE, 7520 := 672]

  function Words(objects: map<nat, nat>, marked: set<nat>): seq<nat> {
    seq(16384, i => if i in objects then objects[i] else if i > 0 && i - 1 in marked then 1 else 0)
  }

  function Lines(objects: set<nat>, marked: set<nat>): seq<Line> {
    seq(512, l => if LINE * l in objects then Line(LINE * l in marked, true, 0) else EMPTY)
  }

  function Blocks(block: Block): seq<Block> {
    [FRESH_BLOCK, block, Block(false, Free, 0, 3), FRESH_BLOCK]
  }

  // Objects that start at line starts and fill whole lines.
  predicate Aligned(objects: map<nat, nat>) {
    forall o | o in objects :: o % LINE == 0 && o < 16384 && LINE <= objects[o] && objects[o] % LINE == 0
  }

  function Holding(objects: map<nat, nat>): Space {
    Space(Words(objects, {}), Lines(objects.Keys, {}), Blocks(Block(false, Free, 0, 2)), 1, 4)
  }

  const TRACED := Space(Words(OBJECTS, BOTH), Lines(OBJECTS.Keys, BOTH), Blocks(Block(true, Free, 0, 2)), 1, 4)

  // Each hole starts with its limit and its successor, in bytes.
  const RECYCLED := Space(
    Words(OBJECTS, BOTH)[HOLE_1 := 8 * OBJECT_B][HOLE_1 + 1 := 8 * HOLE_2][HOLE_2 := 8 * BlockStop(1)],
    Lines(BOTH, BOTH), Blocks(Block(true, Recyclable, 2, 0)), 1, 4)

  lemma HoldingShape(objects: map<nat, nat>)
    ensures Shape(Holding(objects))
  {
  }

  lemma HoldingVisible(objects: map<nat, nat>, d: nat)
    requires Aligned(objects) && forall o | o in objects :: BLOCK <= o
    ensures Shape(Holding(objects)) && (Visible(Holding(objects), d) <==> d in objects)
  {
    var s := Holding(objects);
    if d < 16384 && Node(s, d) {
      var o := First(s, d / LINE);
      assert o in objects && o <= d < o + LINE && Reaches(s.words, o, d);
      assert o == d || !Reaches(s.words, o + objects[o], d);
    }
  }

  lemma ObjectsVisible()
    ensures Shape(Holding(OBJECTS)) && forall d: nat :: Visible(Holding(OBJECTS), d) <==> d in OBJECTS
  {
    forall d: nat
      ensures Shape(Holding(OBJECTS)) && (Visible(Holding(OBJECTS), d) <==> d in OBJECTS)
    {
      HoldingVisible(OBJECTS, d);
    }
  }

  lemma ObjectsCollected()
    ensures Collected(Holding(OBJECTS), RECYCLED, BOTH)
  {
    ObjectsVisible();
    TracedPainted();
    TracedRecycled();
    Unmarked();
    hide *;
    var s := Holding(OBJECTS);
    assert IsUnmarked(s, s) && IsPainted(s, TRACED, BOTH) && Recycled(TRACED, RECYCLED);
  }

  lemma Unmarked()
    requires Shape(Holding(OBJECTS)) && forall d: nat :: Visible(Holding(OBJECTS), d) <==> d in OBJECTS
    ensures IsUnmarked(Holding(OBJECTS), Holding(OBJECTS))
  {
    hide Visible;
  }

  lemma TracedPainted()
    requires Shape(Holding(OBJECTS)) && forall d: nat :: Visible(Holding(OBJECTS), d) <==> d in OBJECTS
    ensures IsPainted(Holding(OBJECTS), TRACED, BOTH)
  {
    hide Visible;
    assert OBJECT_A in BOTH && OBJECT_B in BOTH;
    assert BlockHit(BOTH, 1);
    forall l: nat | l < 512
      ensures LineHit(Holding(OBJECTS), BOTH, l) <==> l == OBJECT_A / LINE || l == OBJECT_B / LINE
    {
      assert MarksLine(Holding(OBJECTS), OBJECT_A, l) <==> l == OBJECT_A / LINE;
      assert MarksLine(Holding(OBJECTS), OBJECT_B, l) <==> l == OBJECT_B / LINE;
    }
  }

  lemma TracedHoles(l: nat)
    requires 128 <= l < 256
    ensures HoleStart(TRACED, l) <==> l == HOLE_1 / LINE || l == HOLE_2 / LINE
  {
  }

  lemma Records()
    ensures HoleEnd(TRACED, HOLE_1 / LINE, OBJECT_B / LINE) && NextHole(TRACED, HOLE_1 / LINE, HOLE_2 / LINE)
    ensures HoleEnd(TRACED, HOLE_2 / LINE, 2 * BLOCK_LINES) && NextHole(TRACED, HOLE_2 / LINE, 0)
    ensures forall l: nat | 128 <= l < 256 :: HoleStart(TRACED, l) <==> l == HOLE_1 / LINE || l == HOLE_2 / LINE
  {
    forall l: nat | 128 <= l < 256
      ensures HoleStart(TRACED, l) <==> l == HOLE_1 / LINE || l == HOLE_2 / LINE
    {
      TracedHoles(l);
    }
    hide HoleStart;
  }

  lemma MarkedBlock()
    ensures SameBounds(TRACED, RECYCLED) && RecycledBlock(TRACED, RECYCLED, 1)
  {
    Records();
    hide HoleStart, HoleEnd, NextHole;
    forall i: nat | BLOCK <= i < BlockStop(1)
      ensures RecycledWord(TRACED, RECYCLED, i)
    {
    }
    hide RecycledWord, Words;
  }

  lemma TracedRecycled()
    ensures Recycled(TRACED, RECYCLED)
  {
    MarkedBlock();
    hide HoleStart, HoleEnd, NextHole, RecycledWord;
    assert RecycledBlock(TRACED, RECYCLED, 2);
    assert RecycledBlock(TRACED, RECYCLED, 3);
  }

  // What cursor k keeps in `next`.
  function NextOf(st: State, k: nat): nat {
    if k in st.regions then st.regions[k].next else 0
  }

  // A step of the code, with the cursor's own `next` left behind.
  ghost predicate CodeStep(st: State, a: Action, st': State, guarded: bool) {
    Step(st, a, st') && (a.Take? ==> a.stale == NextOf(st, a.k)) && (Guard(st, a) <==> guarded)
  }

  // Only the action numbered `bad` breaks the guard.
  ghost predicate CodeRun(states: seq<State>, actions: seq<Action>, bad: int) {
    && |states| == |actions| + 1
    && forall i | 0 <= i < |actions| :: CodeStep(states[i], actions[i], states[i + 1], i != bad)
  }

  lemma Join(states: seq<State>, actions: seq<Action>, states': seq<State>, actions': seq<Action>, bad: int)
    requires CodeRun(states, actions, -1) && CodeRun(states', actions', bad) && states[|actions|] == states'[0]
    requires bad >= -1
    ensures CodeRun(states[..|actions|] + states', actions + actions', if bad == -1 then -1 else |actions| + bad)
  {
    hide CodeStep;
    var all, both := states[..|actions|] + states', actions + actions';
    var at := if bad == -1 then -1 else |actions| + bad;
    forall i | 0 <= i < |both|
      ensures CodeStep(all[i], both[i], all[i + 1], i != at)
    {
      if i < |actions| {
        assert all[i] == states[i] && all[i + 1] == states[i + 1] && both[i] == actions[i];
      } else {
        var j := i - |actions|;
        assert all[i] == states'[j] && all[i + 1] == states'[j + 1] && both[i] == actions'[j];
      }
    }
  }

  // One step more in front.
  lemma Prepend(st: State, a: Action, states: seq<State>, actions: seq<Action>)
    requires CodeRun(states, actions, -1) && CodeStep(st, a, states[0], true)
    ensures CodeRun([st] + states, [a] + actions, -1)
  {
    hide CodeStep;
    assert CodeRun([st, states[0]], [a], -1);
    Join([st, states[0]], [a], states, actions, -1);
    assert [st, states[0]][..1] == [st];
  }

  // ---------------------------------------------------------- filling the heap

  function Allocations(sizes: seq<nat>): seq<Action> {
    seq(|sizes|, i requires 0 <= i < |sizes| => Allocate(0, sizes[i], false))
  }

  const SIZES_1: seq<nat> := [LINE, 256, LINE, LARGE, LARGE, LARGE, 672]
  const SIZES_3: seq<nat> := [LARGE, LARGE, LARGE, 992]

  const FILL_1: seq<Action> := [Take(0, 0)] + ([TakeFree(1)] + Allocations(SIZES_1))
  const FILL_3: seq<Action> := [Take(0, 0)] + Allocations(SIZES_3)

  const EMPTY_HEAP := Space(Words(map[], {}), Lines({}, {}), Blocks(Block(false, Free, 0, 2)), 1, 1)

  function Packed(objects: map<nat, nat>, free: seq<nat>, regions: map<nat, Region>): State {
    State(Holding(objects), objects.Keys, objects.Keys, free, [], regions)
  }

  function Cursors(b: nat, pos: nat): map<nat, Region> {
    map[0 := Region(b, pos, BlockStop(b), 0), 1 := Region(2, BlockStart(2), BlockStop(2), 0)]
  }

  lemma FilledWords(objects: map<nat, nat>, pos: nat, limit: nat, n: nat)
    requires Aligned(objects) && pos % LINE == 0 && pos + n <= limit <= 16384 && LINE <= n && n % LINE == 0
    requires pos !in objects && pos + n !in objects
    ensures Write(Words(objects, {}), pos, limit, n, false) == Words(objects[pos := n], {})
  {
  }

  lemma FilledLines(objects: map<nat, nat>, r: Region, n: nat)
    requires r.pos % LINE == 0 && r.pos < 16384 && r.pos !in objects
    ensures Stamp(Holding(objects), r.pos) == Lines(objects[r.pos := n].Keys, {})
  {
  }

  lemma Fill(objects: map<nat, nat>, free: seq<nat>, b: nat, pos: nat, n: nat)
    requires Aligned(objects) && pos % LINE == 0 && pos + n <= BlockStop(b) && b <= 3
    requires pos !in objects && pos + n !in objects && LINE <= n <= LARGE && n % LINE == 0
    ensures Aligned(objects[pos := n])
    ensures CodeStep(Packed(objects, free, Cursors(b, pos)), Allocate(0, n, false),
                     Packed(objects[pos := n], free, Cursors(b, pos + n)), true)
  {
    HoldingShape(objects);
    FilledWords(objects, pos, BlockStop(b), n);
    FilledLines(objects, Region(b, pos, BlockStop(b), 0), n);
    assert objects[pos := n].Keys == objects.Keys + {pos};
    hide Words, Lines, Write, Stamp;
    assert Cursors(b, pos)[0 := Region(b, pos + n, BlockStop(b), 0)] == Cursors(b, pos + n);
  }

  // The objects and the end of the used words once objects of these sizes follow.
  function Added(objects: map<nat, nat>, pos: nat, sizes: seq<nat>): map<nat, nat>
    decreases |sizes|
  {
    if sizes == [] then objects else Added(objects[pos := sizes[0]], pos + sizes[0], sizes[1..])
  }

  function EndOf(pos: nat, sizes: seq<nat>): (end: nat)
    ensures end >= pos
    decreases |sizes|
  {
    if sizes == [] then pos else EndOf(pos + sizes[0], sizes[1..])
  }

  lemma {:induction false} FillAll(objects: map<nat, nat>, free: seq<nat>, b: nat, pos: nat, sizes: seq<nat>)
    returns (states: seq<State>)
    requires Aligned(objects) && pos % LINE == 0 && b <= 3 && EndOf(pos, sizes) <= BlockStop(b)
    requires forall o | o in objects :: o < pos
    requires forall n | n in sizes :: LINE <= n <= LARGE && n % LINE == 0
    ensures CodeRun(states, Allocations(sizes), -1) && Aligned(Added(objects, pos, sizes))
    ensures states[0] == Packed(objects, free, Cursors(b, pos))
    ensures states[|sizes|] == Packed(Added(objects, pos, sizes), free, Cursors(b, EndOf(pos, sizes)))
    decreases |sizes|
  {
    var st := Packed(objects, free, Cursors(b, pos));
    states := [st];
    if sizes != [] {
      assert sizes[0] in sizes && forall n | n in sizes[1..] :: n in sizes;
      Fill(objects, free, b, pos, sizes[0]);
      var rest := FillAll(objects[pos := sizes[0]], free, b, pos + sizes[0], sizes[1..]);
      hide CodeRun, CodeStep, Packed, Aligned;
      Prepend(st, Allocate(0, sizes[0], false), rest, Allocations(sizes[1..]));
      assert Allocations(sizes) == [Allocate(0, sizes[0], false)] + Allocations(sizes[1..]);
      states := [st] + rest;
    }
  }

  const FIRST_BLOCK := Region(1, BlockStart(1), BlockStop(1), 0)

  const START := Packed(map[], [1, 2, 3], map[])
  const FULL_1 := Packed(BLOCK_1, [3], Cursors(1, BlockStop(1)))
  const FULL_3 := Packed(OBJECTS, [], Cursors(3, BlockStop(3)))

  lemma Starting()
    ensures Initial(EMPTY_HEAP, 3, START)
    ensures CodeStep(START, Take(0, 0), Packed(map[], [2, 3], map[0 := FIRST_BLOCK]), true)
    ensures CodeStep(Packed(map[], [2, 3], map[0 := FIRST_BLOCK]), TakeFree(1),
                     Packed(map[], [3], Cursors(1, BlockStart(1))), true)
  {
    assert Numbers(1, 3) == [1, 2, 3];
    assert [1, 2, 3][1..] == [2, 3] && [2, 3][1..] == [3];
    assert map[0 := FIRST_BLOCK][1 := Region(2, BlockStart(2), BlockStop(2), 0)] == Cursors(1, BlockStart(1));
  }

  lemma Continuing()
    ensures CodeStep(FULL_1, Take(0, 0), Packed(BLOCK_1, [], Cursors(3, BlockStart(3))), true)
  {
    assert [3][1..] == [];
    assert Cursors(1, BlockStop(1))[0 := Region(3, BlockStart(3), BlockStop(3), 0)] == Cursors(3, BlockStart(3));
  }

  lemma AddedNext(objects: map<nat, nat>, pos: nat, sizes: seq<nat>, rest: seq<nat>)
    requires sizes != [] && sizes == [sizes[0]] + rest
    ensures Added(objects, pos, sizes) == Added(objects[pos := sizes[0]], pos + sizes[0], rest)
    ensures EndOf(pos, sizes) == EndOf(pos + sizes[0], rest)
  {
    assert sizes[1..] == rest;
  }

  lemma AddedNone(objects: map<nat, nat>, pos: nat)
    ensures Added(objects, pos, []) == objects && EndOf(pos, []) == pos
  {
  }

  lemma Sizes1()
    ensures Added(map[], OBJECT_A, SIZES_1) == BLOCK_1 && EndOf(OBJECT_A, SIZES_1) == BlockStop(1)
  {
    hide Added, EndOf;
    var m1 := map[OBJECT_A := LINE];
    var m3 := m1[4160 := 256][OBJECT_B := LINE];
    var m5 := m3[4448 := LARGE][5472 := LARGE];
    AddedNext(map[], OBJECT_A, [LINE, 256, LINE, LARGE, LARGE, LARGE, 672], [256, LINE, LARGE, LARGE, LARGE, 672]);
    AddedNext(m1, 4160, [256, LINE, LARGE, LARGE, LARGE, 672], [LINE, LARGE, LARGE, LARGE, 672]);
    AddedNext(m1[4160 := 256], OBJECT_B, [LINE, LARGE, LARGE, LARGE, 672], [LARGE, LARGE, LARGE, 672]);
    AddedNext(m3, 4448, [LARGE, LARGE, LARGE, 672], [LARGE, LARGE, 672]);
    AddedNext(m3[4448 := LARGE], 5472, [LARGE, LARGE, 672], [LARGE, 672]);
    AddedNext(m5, 6496, [LARGE, 672], [672]);
    AddedNext(m5[6496 := LARGE], 7520, [672], []);
    AddedNone(BLOCK_1, BlockStop(1));
    var all: map<nat, nat> := m5[6496 := LARGE];
    assert all[7520 := 672] == BLOCK_1;
  }

  lemma Sizes3()
    ensures Added(BLOCK_1, BlockStart(3), SIZES_3) == OBJECTS && EndOf(BlockStart(3), SIZES_3) == BlockStop(3)
  {
    hide Added, EndOf;
    var m2 := BLOCK_1[12320 := LARGE][13344 := LARGE];
    AddedNext(BLOCK_1, BlockStart(3), [LARGE, LARGE, LARGE, 992], [LARGE, LARGE, 992]);
    AddedNext(BLOCK_1[12320 := LARGE], 13344, [LARGE, LARGE, 992], [LARGE, 992]);
    AddedNext(m2, 14368, [LARGE, 992], [992]);
    AddedNext(m2[14368 := LARGE], 15392, [992], []);
    AddedNone(OBJECTS, BlockStop(3));
    var all: map<nat, nat> := m2[14368 := LARGE];
    assert all[15392 := 992] == OBJECTS;
  }

  lemma Filling1() returns (states: seq<State>)
    ensures CodeRun(states, FILL_1, -1) && states[0] == START && states[|FILL_1|] == FULL_1
  {
    Sizes1();
    var fill := FillAll(map[], [3], 1, BlockStart(1), SIZES_1);
    hide CodeRun, CodeStep, Packed, Aligned, Added, EndOf, BLOCK_1;
    Starting();
    var st := Packed(map[], [2, 3], map[0 := FIRST_BLOCK]);
    Prepend(st, TakeFree(1), fill, Allocations(SIZES_1));
    Prepend(START, Take(0, 0), [st] + fill, [TakeFree(1)] + Allocations(SIZES_1));
    states := [START] + ([st] + fill);
  }

  lemma Filling3() returns (states: seq<State>)
    ensures CodeRun(states, FILL_3, -1) && states[0] == FULL_1 && states[|FILL_3|] == FULL_3
  {
    Sizes1();
    Sizes3();
    var fill := FillAll(BLOCK_1, [], 3, BlockStart(3), SIZES_3);
    hide CodeRun, CodeStep, Packed, Aligned, Added, EndOf, BLOCK_1, OBJECTS;
    Continuing();
    Prepend(FULL_1, Take(0, 0), fill, Allocations(SIZES_3));
    states := [FULL_1] + fill;
  }

  // -------------------------------------------------------- and what follows

  // The actions of nextBlock when its collection leaves two free blocks and one
  // recyclable block: the reset gives the caller the recyclable block and its
  // overflow cursor a free one, nextBlock gives it the other free block, and the
  // caller fills that block and moves on.
  const STALE: seq<Action> := [
    Collect(BOTH), Take(0, 0), TakeFree(1), Take(0, HOLE_2),
    Allocate(0, LARGE, false), Allocate(0, LARGE, false), Allocate(0, LARGE, false), Allocate(0, LARGE - LINE, false),
    Skip(0)]

  const COLLECTED := State(RECYCLED, BOTH, BOTH, [2, 3], [1], map[])

  const RESET := State(RECYCLED, BOTH, BOTH, [2, 3], [], map[0 := Region(1, HOLE_1, OBJECT_B, HOLE_2)])

  const OVERFLOWING :=
    State(RECYCLED, BOTH, BOTH, [3], [], RESET.regions[1 := Region(2, BlockStart(2), BlockStop(2), 0)])

  const REFILLED :=
    State(RECYCLED, BOTH, BOTH, [], [], OVERFLOWING.regions[0 := Region(3, BlockStart(3), BlockStop(3), HOLE_2)])

  lemma BothObjects()
    ensures OBJECTS.Keys * BOTH == BOTH
  {
  }

  lemma Collecting()
    ensures CodeStep(FULL_3, Collect(BOTH), COLLECTED, true)
  {
    ObjectsCollected();
    BothObjects();
    hide Collected;
  }

  lemma Refilling()
    ensures CodeStep(COLLECTED, Take(0, 0), RESET, true)
    ensures CodeStep(RESET, TakeFree(1), OVERFLOWING, true)
    ensures CodeStep(OVERFLOWING, Take(0, HOLE_2), REFILLED, false)
  {
    assert HoleLimit(RECYCLED, HOLE_1) == OBJECT_B && HoleNext(RECYCLED, HOLE_1) == HOLE_2;
    assert COLLECTED.recyclable[1..] == [];
    assert RESET.free[1..] == [3];
    assert OVERFLOWING.free[1..] == [];
  }

  // One more object at cursor 0.
  lemma FillMore(st: State, n: nat) returns (st': State)
    requires Shape(st.space) && 0 in st.regions && HEADER <= n <= LARGE
    requires st.regions[0].pos + n <= st.regions[0].limit <= Stop(st.space)
    ensures CodeStep(st, Allocate(0, n, false), st', true)
    ensures Shape(st'.space) && Stop(st'.space) == Stop(st.space) && |st'.space.words| == |st.space.words|
    ensures 0 in st'.regions && st'.regions[0] == Advance(st.regions[0], n)
  {
    st' := Allocated(st, 0, n, false);
    BumpedLength(st.space, st.regions[0], n, false);
  }

  lemma Leaving(st: State) returns (st': State)
    requires Shape(st.space) && Stop(st.space) == Stop(RECYCLED) && 0 in st.regions
    requires st.regions[0].block == 3 && st.regions[0].next == HOLE_2
    ensures CodeStep(st, Skip(0), st', true) && Astray(st')
  {
    st' := st.(regions := st.regions[0 := HoleRegion(st.space, st.regions[0])]);
  }

  // Cursor 0 owns block 3 and points into block 1.
  ghost predicate Astray(st: State) {
    && 0 in st.regions && st.regions[0].block == 3
    && BlockStart(1) <= st.regions[0].pos < BlockStop(1) && !Inv(st)
  }

  lemma Filled() returns (st5: State, st6: State, st7: State, st8: State, st9: State)
    ensures CodeStep(REFILLED, Allocate(0, LARGE, false), st5, true)
    ensures CodeStep(st5, Allocate(0, LARGE, false), st6, true)
    ensures CodeStep(st6, Allocate(0, LARGE, false), st7, true)
    ensures CodeStep(st7, Allocate(0, LARGE - LINE, false), st8, true)
    ensures CodeStep(st8, Skip(0), st9, true) && Astray(st9)
  {
    hide CodeStep, Astray;
    st5 := FillMore(REFILLED, LARGE);
    st6 := FillMore(st5, LARGE);
    st7 := FillMore(st6, LARGE);
    st8 := FillMore(st7, LARGE - LINE);
    st9 := Leaving(st8);
  }

  lemma GoingAstray() returns (states: seq<State>)
    ensures CodeRun(states, STALE, 3) && states[0] == FULL_3 && Astray(states[|STALE|])
  {
    hide CodeStep, Inv, Astray, RECYCLED, FULL_3;
    Collecting();
    Refilling();
    var st5, st6, st7, st8, st9 := Filled();
    states := [FULL_3, COLLECTED, RESET, OVERFLOWING, REFILLED, st5, st6, st7, st8, st9];
  }

  // A run from the initial heap in which every step is one the code takes, with the
  // cursor's own `next` left behind: it ends with the cursor in another block.
  lemma StaleRun() returns (states: seq<State>)
    ensures CodeRun(states, FILL_1 + (FILL_3 + STALE), |FILL_1| + |FILL_3| + 3)
    ensures Initial(EMPTY_HEAP, 3, states[0]) && Astray(states[|states| - 1])
  {
    hide *;
    Starting();
    var first := Filling1();
    var second := Filling3();
    var third := GoingAstray();
    Lengths(first, FILL_1, -1);
    Lengths(second, FILL_3, -1);
    Lengths(third, STALE, 3);
    Join(second, FILL_3, third, STALE, 3);
    Join(first, FILL_1, second[..|FILL_3|] + third, FILL_3 + STALE, |FILL_3| + 3);
    states := first[..|FILL_1|] + (second[..|FILL_3|] + third);
  }

  lemma Lengths(states: seq<State>, actions: seq<Action>, bad: int)
    requires CodeRun(states, actions, bad)
    ensures |states| == |actions| + 1
  {
  }
}
