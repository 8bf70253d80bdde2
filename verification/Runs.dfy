// The small-object space as a state machine: several allocators, the mutator,
// heap growth and whole collections interleave in atomic steps.
module Runs {
  import opened LineHeader
  import opened Space
  import opened Bump
  import opened Sweeping
  import opened BlockLists

  // held: objects marked by the last collection or allocated since.
  // live: those of them that were live ever since they were allocated; a dead
  //   object that a stray word brings back is held but not live.
  // free, recyclable: the block lists.  regions: the cursors of the allocators.
  datatype State = State(
    space: Space, live: set<nat>, held: set<nat>,
    free: seq<nat>, recyclable: seq<nat>, regions: map<nat, Region>)

  ghost predicate Ready(s: Space, held: set<nat>, b: nat, flag: Flag)
    requires Shape(s)
  {
    && b < |s.blocks| && s.blocks[b].flag == flag && s.blocks[b].first < BLOCK_LINES - 1
    && RegionOK(s, held, InitialRegion(s, b))
  }

  predicate Listed(st: State, b: nat) {
    b in st.free || b in st.recyclable
  }

  ghost predicate ObjectsOK(st: State) {
    && WF(st.space) && st.live <= st.held
    && LiveOK(st.space, st.live) && HeldOK(st.space, st.held)
  }

  ghost predicate ListsOK(st: State)
    requires Shape(st.space)
  {
    && NoDuplicates(st.free) && NoDuplicates(st.recyclable)
    && (forall b | b in st.free :: Ready(st.space, st.held, b, Free))
    && (forall b | b in st.recyclable :: Ready(st.space, st.held, b, Recyclable))
  }

  ghost predicate RegionsOK(st: State)
    requires Shape(st.space)
  {
    forall k | k in st.regions :: RegionOK(st.space, st.held, st.regions[k])
  }

  // No block is owned twice, or owned and listed.
  predicate OwnersOK(st: State) {
    && (forall k | k in st.regions :: !Listed(st, st.regions[k].block))
    && (forall k, k' | k in st.regions && k' in st.regions && k != k' ::
          st.regions[k].block != st.regions[k'].block)
  }

  ghost predicate BlocksOK(st: State)
    requires Shape(st.space)
  {
    ListsOK(st) && RegionsOK(st) && OwnersOK(st)
  }

  ghost predicate Inv(st: State) {
    ObjectsOK(st) && BlocksOK(st)
  }

  ghost const NOTHING :=
    State(Space(seq(BLOCK, _ => 0), seq(BLOCK_LINES, _ => EMPTY), [FRESH_BLOCK], 1, 1), {}, {}, [], [], map[])

  // The states that keep the invariant.
  type Safe = st: State | Inv(st) ghost witness NOTHING

  // -------------------------------------------------------------------- steps

  // count consecutive block numbers
  function Numbers(from: nat, count: nat): seq<nat> {
    seq(count, i => from + i)
  }

  datatype Action =
    | Allocate(k: nat, n: nat, atomic: bool)  // bump cursor k by an object of n words
    | Skip(k: nat)                            // cursor k moves to its next hole
    | Take(k: nat, stale: nat)                // cursor k, whose `next` was stale, gets a block
    | TakeFree(k: nat)                        // an overflow cursor gets a free block
    | Store(o: nat, a: nat, value: nat)       // the mutator writes into its object o
    | StoreOutside(a: nat, value: nat)        // ... or into a root, a large object, any other word
    | Grow(count: nat)
    | Collect(marked: set<nat>)

  // LocalAllocator_initCursor: a free block leaves `next` as it was.
  function CursorRegion(s: Space, b: nat, stale: nat): Region
    requires Shape(s) && b < |s.blocks| && s.blocks[b].first < BLOCK_LINES - 1
  {
    if s.blocks[b].flag == Free then InitialRegion(s, b).(next := stale) else InitialRegion(s, b)
  }

  function HoleRegion(s: Space, r: Region): Region
    requires r.next + 1 < |s.words|
  {
    Region(r.block, r.next, HoleLimit(s, r.next), HoleNext(s, r.next))
  }

  ghost predicate Grown(s: Space, t: Space, count: nat) {
    && Shape(s) && Shape(t)
    && t.low == s.low && t.high == s.high + count
    && t.words == s.words
    && |t.lines| == |s.lines| && |t.blocks| == |s.blocks|
    && (forall l: nat | l < |s.lines| ::
          t.lines[l] == if Stop(s) <= LINE * l < Stop(t) then EMPTY else s.lines[l])
    && (forall b: nat | IsBlock(s, b) :: t.blocks[b].flag == s.blocks[b].flag && t.blocks[b].first == s.blocks[b].first)
    && (forall b: nat | IsBlock(t, b) && !IsBlock(s, b) :: t.blocks[b].flag == Free && t.blocks[b].first == 0)
  }

  predicate Increasing(s: seq<nat>) {
    forall i, j | 0 <= i < j < |s| :: s[i] < s[j]
  }

  // The list of all blocks with a flag, in address order.
  ghost predicate ListsFlag(s: Space, list: seq<nat>, flag: Flag)
    requires Shape(s)
  {
    && Increasing(list)
    && forall b: nat :: b in list <==> IsBlock(s, b) && s.blocks[b].flag == flag
  }

  ghost predicate Collected(s: Space, t: Space, marked: set<nat>) {
    exists u, p :: IsUnmarked(s, u) && IsPainted(u, p, marked) && Recycled(p, t)
  }

  function Stored(s: Space, a: nat, value: nat): Space
    requires a < |s.words|
  {
    s.(words := s.words[a := value])
  }

  predicate Fits(st: State, k: nat, n: nat) {
    && Shape(st.space) && k in st.regions && HEADER <= n <= LARGE
    && st.regions[k].pos + n <= st.regions[k].limit <= Stop(st.space)
  }

  function Allocated(st: State, k: nat, n: nat, atomic: bool): State
    requires Fits(st, k, n)
  {
    var r := st.regions[k];
    State(Bumped(st.space, r, n, atomic), st.live + {r.pos}, st.held + {r.pos}, st.free, st.recyclable,
          st.regions[k := Advance(r, n)])
  }

  predicate AllocateStep(st: State, k: nat, n: nat, atomic: bool, st': State) {
    Fits(st, k, n) && st' == Allocated(st, k, n, atomic)
  }

  predicate SkipStep(st: State, k: nat, st': State) {
    && k in st.regions && 0 < st.regions[k].next && st.regions[k].next + 1 < |st.space.words|
    && st' == State(st.space, st.live, st.held, st.free, st.recyclable,
                    st.regions[k := HoleRegion(st.space, st.regions[k])])
  }

  // The first recyclable block, or else the first free one, goes to cursor k.
  predicate TakeStep(st: State, k: nat, stale: nat, st': State)
    requires Shape(st.space)
  {
    if st.recyclable != [] then
      && st.recyclable[0] < |st.space.blocks| && st.space.blocks[st.recyclable[0]].first < BLOCK_LINES - 1
      && st' == State(st.space, st.live, st.held, st.free, st.recyclable[1..],
                      st.regions[k := CursorRegion(st.space, st.recyclable[0], stale)])
    else
      TakeFreeStep(st, k, stale, st')
  }

  predicate TakeFreeStep(st: State, k: nat, stale: nat, st': State)
    requires Shape(st.space)
  {
    && st.free != [] && st.free[0] < |st.space.blocks| && st.space.blocks[st.free[0]].first < BLOCK_LINES - 1
    && st' == State(st.space, st.live, st.held, st.free[1..], st.recyclable,
                    st.regions[k := CursorRegion(st.space, st.free[0], stale)])
  }

  predicate StoreStep(st: State, o: nat, a: nat, value: nat, st': State) {
    && o in st.live && o + HEADER <= a < o + Size(st.space, o) && a < |st.space.words|
    && st' == State(Stored(st.space, a, value), st.live, st.held, st.free, st.recyclable, st.regions)
  }

  predicate StoreOutsideStep(st: State, a: nat, value: nat, st': State) {
    && a < |st.space.words| && !InSmallHeap(st.space, a)
    && st' == State(Stored(st.space, a, value), st.live, st.held, st.free, st.recyclable, st.regions)
  }

  ghost predicate GrowStep(st: State, count: nat, st': State) {
    && Grown(st.space, st'.space, count)
    && st' == State(st'.space, st.live, st.held, st.free + Numbers(st.space.high, count), st.recyclable, st.regions)
  }

  ghost predicate CollectStep(st: State, marked: set<nat>, st': State) {
    && Shape(st'.space) && Collected(st.space, st'.space, marked)
    && ListsFlag(st'.space, st'.free, Free) && ListsFlag(st'.space, st'.recyclable, Recyclable)
    && st' == State(st'.space, st.live * marked, marked, st'.free, st'.recyclable, map[])
  }

  ghost predicate Step(st: State, a: Action, st': State) {
    Shape(st.space) &&
    match a
    case Allocate(k, n, atomic) => AllocateStep(st, k, n, atomic, st')
    case Skip(k) => SkipStep(st, k, st')
    case Take(k, stale) => TakeStep(st, k, stale, st')
    case TakeFree(k) => TakeFreeStep(st, k, 0, st')
    case Store(o, a, value) => StoreStep(st, o, a, value, st')
    case StoreOutside(a, value) => StoreOutsideStep(st, a, value, st')
    case Grow(count) => GrowStep(st, count, st')
    case Collect(marked) => CollectStep(st, marked, st')
  }

  // GC_GlobalAllocator_init turns the empty heap of s into `count` free blocks.
  ghost predicate Initial(s: Space, count: nat, st: State) {
    && Grown(s, st.space, count) && s.low == s.high
    && st == State(st.space, {}, {}, Numbers(s.low, count), [], map[])
  }

  // What the allocator has to ensure before it asks for a block.
  predicate Guard(st: State, a: Action) {
    a.Take? && st.recyclable == [] ==> a.stale == 0
  }

  // ------------------------------------------------------------------ allocate

  lemma AllocateInv(st: State, k: nat, n: nat, atomic: bool, st': State)
    requires Inv(st) && AllocateStep(st, k, n, atomic, st')
    ensures Inv(st')
  {
    var s, held, r := st.space, st.held, st.regions[k];
    BumpWF(s, held, r, n, atomic);
    BumpHeld(s, held, r, n, atomic);
    AllocateLive(s, held, st.live, r, n, atomic);
    AllocateLists(st, r, n, atomic, st');
    AllocateRegions(st, k, r, n, atomic, st');
  }

  lemma AllocateLive(s: Space, held: set<nat>, live: set<nat>, r: Region, n: nat, atomic: bool)
    requires WF(s) && CanBump(s, held, r, n) && HeldOK(s, held) && LiveOK(s, live) && live <= held
    ensures LiveOK(Bumped(s, r, n, atomic), live + {r.pos})
  {
    forall o | o in live + {r.pos}
      ensures Solid(Bumped(s, r, n, atomic), o)
    {
      BumpSolid(s, held, r, n, atomic, o);
    }
  }

  // A listed block in an untouched block of memory stays ready.
  lemma ReadyFrame(s: Space, held: set<nat>, t: Space, held': set<nat>, b: nat, flag: Flag)
    requires Shape(s) && Shape(t) && Ready(s, held, b, flag)
    requires IsBlock(t, b) && SameBlock(s, t, b) && b < |t.blocks|
    requires t.blocks[b].flag == flag && t.blocks[b].first == s.blocks[b].first
    requires forall o: nat | o in held' && o / BLOCK == b :: o in held
    ensures Ready(t, held', b, flag)
  {
    var h := BlockStart(b) + LINE * s.blocks[b].first;
    assert BLOCK * b <= h < h + 1 < BlockStop(b);
    assert InitialRegion(t, b) == InitialRegion(s, b);
    RegionFrame(s, held, t, held', InitialRegion(s, b));
  }

  lemma BumpSameBlock(s: Space, held: set<nat>, r: Region, n: nat, atomic: bool, b: nat)
    requires WF(s) && CanBump(s, held, r, n) && IsBlock(s, b) && b != r.block
    ensures SameBlock(s, Bumped(s, r, n, atomic), b)
  {
  }

  lemma AllocateReady(s: Space, held: set<nat>, r: Region, n: nat, atomic: bool, b: nat, flag: Flag)
    requires WF(s) && CanBump(s, held, r, n) && Ready(s, held, b, flag) && b != r.block
    ensures Ready(Bumped(s, r, n, atomic), held + {r.pos}, b, flag)
  {
    BumpSameBlock(s, held, r, n, atomic, b);
    ReadyFrame(s, held, Bumped(s, r, n, atomic), held + {r.pos}, b, flag);
  }

  lemma AllocateLists(st: State, r: Region, n: nat, atomic: bool, st': State)
    requires WF(st.space) && ListsOK(st) && CanBump(st.space, st.held, r, n) && !Listed(st, r.block)
    requires st'.space == Bumped(st.space, r, n, atomic) && st'.held == st.held + {r.pos}
    requires st'.free == st.free && st'.recyclable == st.recyclable
    ensures ListsOK(st')
  {
    forall b | b in st.free
      ensures Ready(st'.space, st'.held, b, Free)
    {
      AllocateReady(st.space, st.held, r, n, atomic, b, Free);
    }
    forall b | b in st.recyclable
      ensures Ready(st'.space, st'.held, b, Recyclable)
    {
      AllocateReady(st.space, st.held, r, n, atomic, b, Recyclable);
    }
  }

  lemma AllocateRegions(st: State, k: nat, r: Region, n: nat, atomic: bool, st': State)
    requires WF(st.space) && HeldOK(st.space, st.held) && CanBump(st.space, st.held, r, n)
    requires RegionsOK(st) && OwnersOK(st) && k in st.regions && st.regions[k] == r
    requires st'.space == Bumped(st.space, r, n, atomic) && st'.held == st.held + {r.pos}
    requires st'.regions == st.regions[k := Advance(r, n)]
    ensures RegionsOK(st')
  {
    BumpRegion(st.space, st.held, r, n, atomic);
    forall k' | k' in st'.regions && k' != k
      ensures RegionOK(st'.space, st'.held, st'.regions[k'])
    {
      BumpElsewhere(st.space, st.held, r, n, atomic, st.regions[k']);
    }
  }

  // --------------------------------------------------------- cursors and blocks

  lemma SkipInv(st: State, k: nat, st': State)
    requires Inv(st) && SkipStep(st, k, st')
    ensures Inv(st')
  {
  }

  // A cursor set up from a ready block is usable exactly when the block has its
  // own hole list or no stale one was left behind.
  lemma CursorRegionOK(s: Space, held: set<nat>, b: nat, flag: Flag, stale: nat)
    requires Shape(s) && Ready(s, held, b, flag) && flag != Unavailable
    ensures RegionOK(s, held, CursorRegion(s, b, stale)) <==> flag == Recyclable || stale == 0
  {
  }

  lemma Tail(list: seq<nat>)
    requires NoDuplicates(list) && list != []
    ensures NoDuplicates(list[1..])
    ensures forall b :: b in list[1..] <==> b in list && b != list[0]
  {
  }

  lemma FlagsDiffer(st: State, b: nat)
    requires Shape(st.space) && ListsOK(st)
    ensures !(b in st.free && b in st.recyclable)
  {
  }

  // The first block of a list passes to cursor k.
  lemma HandOutLists(st: State, st': State)
    requires Shape(st.space) && ListsOK(st) && st'.space == st.space && st'.held == st.held
    requires || (st.free != [] && st'.free == st.free[1..] && st'.recyclable == st.recyclable)
             || (st.recyclable != [] && st'.free == st.free && st'.recyclable == st.recyclable[1..])
    ensures ListsOK(st')
  {
  }

  lemma HandOutOwners(st: State, k: nat, r: Region, st': State)
    requires Shape(st.space) && ListsOK(st) && OwnersOK(st) && st'.regions == st.regions[k := r]
    requires || (st.free != [] && r.block == st.free[0] && st'.free == st.free[1..] && st'.recyclable == st.recyclable)
             || (st.recyclable != [] && r.block == st.recyclable[0] && st'.free == st.free
                 && st'.recyclable == st.recyclable[1..])
    ensures OwnersOK(st')
  {
    FlagsDiffer(st, r.block);
    assert Listed(st, r.block);
    if st.free != [] {
      Tail(st.free);
    }
    if st.recyclable != [] {
      Tail(st.recyclable);
    }
  }

  lemma HandOut(st: State, k: nat, r: Region, st': State)
    requires Inv(st) && RegionOK(st.space, st.held, r)
    requires || (st.free != [] && r.block == st.free[0]
             && st' == st.(free := st.free[1..], regions := st.regions[k := r]))
             || (st.recyclable != [] && r.block == st.recyclable[0]
                 && st' == st.(recyclable := st.recyclable[1..], regions := st.regions[k := r]))
    ensures Inv(st')
  {
    HandOutLists(st, st');
    HandOutOwners(st, k, r, st');
  }

  lemma TakeInv(st: State, k: nat, stale: nat, st': State)
    requires Inv(st) && TakeStep(st, k, stale, st')
    ensures Inv(st') <==> Guard(st, Take(k, stale))
  {
    if st.recyclable != [] {
      CursorRegionOK(st.space, st.held, st.recyclable[0], Recyclable, stale);
      HandOut(st, k, CursorRegion(st.space, st.recyclable[0], stale), st');
    } else {
      var r := CursorRegion(st.space, st.free[0], stale);
      CursorRegionOK(st.space, st.held, st.free[0], Free, stale);
      assert st'.regions[k] == r;
      if stale == 0 {
        HandOut(st, k, r, st');
      }
    }
  }

  lemma TakeFreeInv(st: State, k: nat, st': State)
    requires Inv(st) && TakeFreeStep(st, k, 0, st')
    ensures Inv(st')
  {
    CursorRegionOK(st.space, st.held, st.free[0], Free, 0);
    HandOut(st, k, CursorRegion(st.space, st.free[0], 0), st');
  }

  // ---------------------------------------------------------------- mutator store

  lemma NodeOutsidePayload(s: Space, o: nat, e: nat)
    requires WF(s) && Solid(s, o) && InSmallHeap(s, e) && Node(s, e)
    ensures e <= o || o + s.words[o] <= e
  {
    if o / LINE == e / LINE {
      if o < e {
        SameLine(s, o, e);
      }
    } else if o / LINE < e / LINE {
      FirstVisible(s, e / LINE);
    }
  }

  lemma StoreVisible(s: Space, o: nat, a: nat, value: nat, d: nat)
    requires WF(s) && Solid(s, o) && o + HEADER <= a < o + s.words[o] && a < Stop(s) && InSmallHeap(s, d)
    ensures Visible(Stored(s, a, value), d) == Visible(s, d) && Node(Stored(s, a, value), d) == Node(s, d)
    ensures Node(s, d) ==> d != a
  {
    forall i: nat | i <= d && i / LINE == d / LINE && Node(s, i)
      ensures i != a
    {
      SameLineInside(s.low, s.high, d, i);
      hide Solid, WF, Node, Visible;
      NodeOutsidePayload(s, o, i);
    }
    hide Solid, WF, Node, Visible;
    VisibleFrame(s, Stored(s, a, value), d);
  }

  lemma StoreWF(s: Space, o: nat, a: nat, value: nat)
    requires WF(s) && Solid(s, o) && o + HEADER <= a < o + s.words[o] && a < Stop(s)
    ensures WF(Stored(s, a, value))
  {
    var t := Stored(s, a, value);
    forall l | Start(t) <= LINE * l < Stop(t)
      ensures LineOK(t, l)
    {
      assert LineOK(s, l);
      if s.lines[l].occupied {
        FirstVisible(s, l);
        StoreVisible(s, o, a, value, First(s, l));
      }
    }
    forall l | Start(t) < LINE * l < Stop(t)
      ensures BoundaryOK(t, l)
    {
      assert BoundaryOK(s, l);
      StoreVisible(s, o, a, value, LINE * l - 1);
    }
    forall d | Visible(t, d)
      ensures ObjectOK(t, d)
    {
      StoreVisible(s, o, a, value, d);
      assert ObjectOK(s, d);
    }
  }

  lemma StoreObjects(s: Space, o: nat, a: nat, value: nat, live: set<nat>, held: set<nat>)
    requires WF(s) && Solid(s, o) && o + HEADER <= a < o + s.words[o] && a < Stop(s)
    requires LiveOK(s, live) && HeldOK(s, held) && o in live
    ensures LiveOK(Stored(s, a, value), live) && HeldOK(Stored(s, a, value), held)
  {
    var t := Stored(s, a, value);
    forall d: nat | InSmallHeap(s, d)
      ensures Visible(t, d) == Visible(s, d) && (Visible(s, d) ==> t.words[d] == s.words[d])
    {
      StoreVisible(s, o, a, value, d);
    }
    forall o' | o' in live
      ensures Solid(t, o')
    {
      assert Solid(s, o');
    }
  }

  // A region never overlaps a held object, so its hole records survive a store.
  lemma StoreRegion(s: Space, o: nat, a: nat, value: nat, held: set<nat>, r: Region)
    requires WF(s) && Solid(s, o) && o + HEADER <= a < o + s.words[o] && a < Stop(s)
    requires o in held && HeldOK(s, held) && RegionOK(s, held, r)
    ensures RegionOK(Stored(s, a, value), held, r)
  {
    var t := Stored(s, a, value);
    forall d: nat | InSmallHeap(s, d)
      ensures Visible(t, d) == Visible(s, d) && Node(t, d) == Node(s, d)
      ensures Node(s, d) ==> t.words[d] == s.words[d]
    {
      StoreVisible(s, o, a, value, d);
    }
    forall o' | o' in held
      ensures Size(t, o') == Size(s, o')
    {
      assert Visible(s, o');
    }
    StoreChain(s, o, a, value, held, r.block, r.limit, r.next);
  }

  lemma {:induction false} StoreChain(
      s: Space, o: nat, a: nat, value: nat, held: set<nat>, b: nat, from: nat, h: nat)
    requires WF(s) && IsBlock(s, b) && HoleChain(s, held, b, from, h)
    requires BlockStart(b) <= from && o in held && o <= a < o + Size(s, o) && a < Stop(s)
    requires o / BLOCK == a / BLOCK
    requires var t := Stored(s, a, value);
             && (forall d: nat :: Visible(t, d) == Visible(s, d))
             && (forall o' | o' in held :: Size(t, o') == Size(s, o'))
    ensures HoleChain(Stored(s, a, value), held, b, from, h)
    decreases BlockStop(b) - from
  {
    if h != 0 {
      assert FreeRange(s, held, b, h, HoleLimit(s, h));
      assert BLOCK * b <= h < h + 1 < BlockStop(b);
      StoreChain(s, o, a, value, held, b, HoleLimit(s, h), HoleNext(s, h));
    }
  }

  lemma StoreReady(s: Space, o: nat, a: nat, value: nat, held: set<nat>, b: nat, flag: Flag)
    requires WF(s) && Solid(s, o) && o + HEADER <= a < o + s.words[o] && a < Stop(s)
    requires o in held && HeldOK(s, held) && Ready(s, held, b, flag)
    ensures Ready(Stored(s, a, value), held, b, flag)
  {
    var t := Stored(s, a, value);
    var r := InitialRegion(s, b);
    StoreRegion(s, o, a, value, held, r);
    assert ObjectOK(s, o);
    assert flag == Recyclable ==> a != r.pos && a != r.pos + 1;
    assert InitialRegion(t, b) == r;
  }

  lemma StoreInv(st: State, o: nat, a: nat, value: nat, st': State)
    requires Inv(st) && StoreStep(st, o, a, value, st')
    ensures Inv(st')
  {
    var s, held := st.space, st.held;
    assert Solid(s, o) && ObjectOK(s, o);
    hide WF, Solid, Visible, ObjectOK, Ready, RegionOK;
    StoreWF(s, o, a, value);
    StoreObjects(s, o, a, value, st.live, held);
    forall b | b in st.free
      ensures Ready(st'.space, held, b, Free)
    {
      StoreReady(s, o, a, value, held, b, Free);
    }
    forall b | b in st.recyclable
      ensures Ready(st'.space, held, b, Recyclable)
    {
      StoreReady(s, o, a, value, held, b, Recyclable);
    }
    forall k | k in st.regions
      ensures RegionOK(st'.space, held, st.regions[k])
    {
      StoreRegion(s, o, a, value, held, st.regions[k]);
    }
  }

  // ------------------------------------------------- stores outside the small heap

  lemma OutsideVisible(s: Space, a: nat, value: nat, d: nat)
    requires WF(s) && a < |s.words| && !InSmallHeap(s, a)
    ensures Visible(Stored(s, a, value), d) == Visible(s, d)
    ensures InSmallHeap(s, d) ==> Node(Stored(s, a, value), d) == Node(s, d)
    ensures InSmallHeap(s, d) ==> Size(Stored(s, a, value), d) == Size(s, d)
  {
    if InSmallHeap(s, d) {
      forall i: nat | i <= d && i / LINE == d / LINE
        ensures i != a
      {
        SameLineInside(s.low, s.high, d, i);
      }
      hide WF;
      VisibleFrame(s, Stored(s, a, value), d);
    }
  }

  lemma OutsideWF(s: Space, a: nat, value: nat)
    requires WF(s) && a < |s.words| && !InSmallHeap(s, a)
    ensures WF(Stored(s, a, value))
  {
    var t := Stored(s, a, value);
    forall l | Start(t) <= LINE * l < Stop(t)
      ensures LineOK(t, l)
    {
      assert LineOK(s, l);
      if s.lines[l].occupied {
        FirstVisible(s, l);
        OutsideVisible(s, a, value, First(s, l));
      }
    }
    forall l | Start(t) < LINE * l < Stop(t)
      ensures BoundaryOK(t, l)
    {
      assert BoundaryOK(s, l);
      OutsideVisible(s, a, value, LINE * l - 1);
    }
    forall d | Visible(t, d)
      ensures ObjectOK(t, d)
    {
      OutsideVisible(s, a, value, d);
      assert ObjectOK(s, d);
    }
  }

  lemma OutsideSolid(s: Space, a: nat, value: nat, o: nat)
    requires WF(s) && a < |s.words| && !InSmallHeap(s, a) && Solid(s, o)
    ensures Solid(Stored(s, a, value), o)
  {
    OutsideVisible(s, a, value, o);
    forall d: nat | Visible(Stored(s, a, value), d) && d != o
      ensures d + HEADER <= o || o + s.words[o] <= d
    {
      OutsideVisible(s, a, value, d);
    }
  }

  lemma OutsideSameBlock(s: Space, a: nat, value: nat, b: nat)
    requires Shape(s) && a < |s.words| && !InSmallHeap(s, a) && IsBlock(s, b)
    ensures SameBlock(s, Stored(s, a, value), b)
  {
  }

  lemma StoreOutsideInv(st: State, a: nat, value: nat, st': State)
    requires Inv(st) && StoreOutsideStep(st, a, value, st')
    ensures Inv(st')
  {
    var s, t, held := st.space, st'.space, st.held;
    OutsideWF(s, a, value);
    forall o | o in held
      ensures Visible(t, o)
    {
      OutsideVisible(s, a, value, o);
    }
    forall o | o in st.live
      ensures Solid(t, o)
    {
      OutsideSolid(s, a, value, o);
    }
    forall b, flag | Ready(s, held, b, flag)
      ensures Ready(t, held, b, flag)
    {
      OutsideSameBlock(s, a, value, b);
      ReadyFrame(s, held, t, held, b, flag);
    }
    forall k | k in st.regions
      ensures RegionOK(t, held, st.regions[k])
    {
      OutsideSameBlock(s, a, value, st.regions[k].block);
      RegionFrame(s, held, t, held, st.regions[k]);
    }
  }

  // -------------------------------------------------------------------- growth

  lemma GrownVisible(s: Space, t: Space, count: nat, d: nat)
    requires WF(s) && Grown(s, t, count)
    ensures Visible(t, d) == Visible(s, d)
    ensures InSmallHeap(t, d) && Node(t, d) ==> InSmallHeap(s, d) && Node(s, d)
  {
  }

  lemma GrownWF(s: Space, t: Space, count: nat)
    requires WF(s) && Grown(s, t, count)
    ensures WF(t)
  {
    forall l | Start(t) <= LINE * l < Stop(t)
      ensures LineOK(t, l)
    {
      assert LINE * l < Stop(s) ==> LineOK(s, l);
    }
    forall l | Start(t) < LINE * l < Stop(t)
      ensures BoundaryOK(t, l)
    {
      GrownVisible(s, t, count, LINE * l - 1);
      assert LINE * l < Stop(s) ==> BoundaryOK(s, l);
    }
    forall d | Visible(t, d)
      ensures ObjectOK(t, d)
    {
      GrownVisible(s, t, count, d);
      assert ObjectOK(s, d);
    }
  }

  lemma GrownObjects(s: Space, t: Space, count: nat, live: set<nat>, held: set<nat>)
    requires WF(s) && Grown(s, t, count) && LiveOK(s, live) && HeldOK(s, held)
    ensures LiveOK(t, live) && HeldOK(t, held)
  {
    forall d: nat
      ensures Visible(t, d) == Visible(s, d)
    {
      GrownVisible(s, t, count, d);
    }
    forall o | o in live
      ensures Solid(t, o)
    {
      assert Solid(s, o);
    }
  }

  lemma GrownSameBlock(s: Space, t: Space, count: nat, b: nat)
    requires Shape(s) && Grown(s, t, count) && IsBlock(s, b)
    ensures IsBlock(t, b) && SameBlock(s, t, b)
  {
  }

  lemma NewBlockReady(s: Space, t: Space, count: nat, held: set<nat>, b: nat)
    requires WF(s) && Grown(s, t, count) && HeldOK(s, held) && IsBlock(t, b) && !IsBlock(s, b)
    ensures Ready(t, held, b, Free)
  {
  }

  lemma GrownReady(s: Space, t: Space, count: nat, held: set<nat>, b: nat, flag: Flag)
    requires WF(s) && Grown(s, t, count) && Ready(s, held, b, flag)
    ensures Ready(t, held, b, flag)
  {
    GrownSameBlock(s, t, count, b);
    ReadyFrame(s, held, t, held, b, flag);
  }

  lemma GrowLists(st: State, count: nat, st': State)
    requires Inv(st) && GrowStep(st, count, st')
    ensures ListsOK(st')
  {
    var s, t := st.space, st'.space;
    var added := Numbers(s.high, count);
    forall i | 0 <= i < count
      ensures IsBlock(t, added[i]) && !IsBlock(s, added[i])
    {
    }
    forall b | b in st'.free
      ensures Ready(t, st.held, b, Free)
      ensures b in st.free ==> IsBlock(s, b)
    {
      if b in st.free {
        GrownReady(s, t, count, st.held, b, Free);
      } else {
        NewBlockReady(s, t, count, st.held, b);
      }
    }
    forall b | b in st'.recyclable
      ensures Ready(t, st.held, b, Recyclable)
    {
      GrownReady(s, t, count, st.held, b, Recyclable);
    }
  }

  lemma GrowInv(st: State, count: nat, st': State)
    requires Inv(st) && GrowStep(st, count, st')
    ensures Inv(st')
  {
    GrownWF(st.space, st'.space, count);
    GrownObjects(st.space, st'.space, count, st.live, st.held);
    GrowLists(st, count, st');
    GrowRegions(st, count, st');
  }

  lemma InitialInv(s: Space, count: nat, st: State)
    requires Initial(s, count, st)
    ensures Inv(st)
  {
    var nothing := State(s, {}, {}, [], [], map[]);
    assert Inv(nothing);
    GrowInv(nothing, count, st);
  }

  lemma GrowRegions(st: State, count: nat, st': State)
    requires Inv(st) && GrowStep(st, count, st')
    ensures RegionsOK(st') && OwnersOK(st')
  {
    forall k | k in st.regions
      ensures RegionOK(st'.space, st'.held, st.regions[k])
      ensures IsBlock(st.space, st.regions[k].block)
    {
      GrownSameBlock(st.space, st'.space, count, st.regions[k].block);
      RegionFrame(st.space, st.held, st'.space, st.held, st.regions[k]);
    }
  }

  // ---------------------------------------------------------------- collection

  lemma PaintedProtects(u: Space, p: Space, marked: set<nat>, o: nat)
    requires WF(u) && IsPainted(u, p, marked) && o in marked
    ensures WF(p) && Visible(p, o) && Covered(p, o) && p.words[o] == u.words[o]
  {
    PaintedSame(u, p, marked);
    SameObjectsWF(u, p);
    SameObjectsVisible(u, p, o);
    PaintedCovered(u, p, marked, o);
  }

  lemma PaintedFlag(u: Space, p: Space, marked: set<nat>, o: nat)
    requires IsPainted(u, p, marked) && o in marked && o + 1 < |p.words|
    ensures o + 1 < |u.words| && p.words[o + 1] == SetMark(u.words[o + 1])
  {
    var i := o + 1;
    assert i - 1 in marked;
  }

  lemma HeaderInside(s: Space, o: nat)
    requires WF(s) && Visible(s, o)
    ensures o + 1 < |s.words| && o + 1 < o + s.words[o]
  {
  }

  // Every marked object keeps its header and its words, whether it was live or
  // brought back by a stray word.
  lemma MarkedSurvives(u: Space, p: Space, t: Space, marked: set<nat>, o: nat)
    requires WF(u) && IsPainted(u, p, marked) && Recycled(p, t) && o in marked
    ensures Visible(t, o) && t.words[o] == u.words[o]
    ensures o + 1 < |t.words| && t.words[o + 1] == SetMark(u.words[o + 1])
  {
    hide Covered, Recycled, IsPainted;
    PaintedProtects(u, p, marked, o);
    HeaderInside(p, o);
    hide *;
    CoveredVisible(p, t, o);
    CoveredWords(p, t, o, o + 1);
    PaintedFlag(u, p, marked, o);
  }

  lemma RecycledSolid(p: Space, t: Space, o: nat)
    requires WF(p) && Recycled(p, t) && Solid(p, o) && Covered(p, o)
    ensures Solid(t, o)
  {
    CoveredVisible(p, t, o);
    forall d: nat | Visible(t, d) && d != o
      ensures d + HEADER <= o || o + t.words[o] <= d
    {
      RecycledVisible(p, t, d);
    }
  }

  // A marked live object stays live, and its payload and size are untouched.
  lemma CollectKeeps(s: Space, t: Space, marked: set<nat>, o: nat)
    requires WF(s) && Collected(s, t, marked) && Solid(s, o) && o in marked
    ensures Solid(t, o) && o < |t.words| && t.words[o] == s.words[o]
    ensures forall a | o + HEADER <= a < o + s.words[o] :: a < |t.words| && t.words[a] == s.words[a]
  {
    var u, p :| IsUnmarked(s, u) && IsPainted(u, p, marked) && Recycled(p, t);
    UnmarkedSame(s, u);
    SameObjectsWF(s, u);
    SameObjectsSolid(s, u, o);
    PaintedSame(u, p, marked);
    SameObjectsSolid(u, p, o);
    PaintedProtects(u, p, marked, o);
    CoveredVisible(p, t, o);
    RecycledSolid(p, t, o);
    forall a | o + HEADER <= a < o + s.words[o]
      ensures a < |t.words| && t.words[a] == s.words[a]
    {
      SameObjectsPayload(s, u, o, a);
      SameObjectsPayload(u, p, o, a);
      CoveredWords(p, t, o, a);
    }
  }

  lemma CollectWF(s: Space, t: Space, marked: set<nat>)
    requires WF(s) && Collected(s, t, marked)
    ensures WF(t) && HeldOK(t, marked)
  {
    var u, p :| IsUnmarked(s, u) && IsPainted(u, p, marked) && Recycled(p, t);
    UnmarkedSame(s, u);
    SameObjectsWF(s, u);
    PaintedSame(u, p, marked);
    SameObjectsWF(u, p);
    RecycledWF(p, t);
    forall o | o in marked
      ensures Visible(t, o)
    {
      MarkedSurvives(u, p, t, marked, o);
    }
  }

  // After a collection every listed block is free of marked objects where it
  // says so: no byte of a marked object lies in a hole or in a free block.
  lemma CollectReady(s: Space, t: Space, marked: set<nat>, b: nat, flag: Flag)
    requires WF(s) && Collected(s, t, marked) && IsBlock(t, b) && b < |t.blocks|
    requires t.blocks[b].flag == flag && flag != Unavailable
    ensures Ready(t, marked, b, flag)
  {
    var u, p :| IsUnmarked(s, u) && IsPainted(u, p, marked) && Recycled(p, t);
    UnmarkedSame(s, u);
    SameObjectsWF(s, u);
    PaintedSame(u, p, marked);
    SameObjectsWF(u, p);
    forall o | o in marked
      ensures Visible(p, o) && Covered(p, o)
    {
      PaintedProtects(u, p, marked, o);
    }
    assert RecycledBlock(p, t, b);
    RecycledRegion(p, t, marked, b);
  }

  lemma CollectInv(st: State, marked: set<nat>, st': State)
    requires Inv(st) && CollectStep(st, marked, st')
    ensures Inv(st')
  {
    var s, t := st.space, st'.space;
    CollectWF(s, t, marked);
    forall o | o in st'.live
      ensures Solid(t, o)
    {
      CollectKeeps(s, t, marked, o);
    }
    forall b | b in st'.free
      ensures Ready(t, marked, b, Free)
    {
      CollectReady(s, t, marked, b, Free);
    }
    forall b | b in st'.recyclable
      ensures Ready(t, marked, b, Recyclable)
    {
      CollectReady(s, t, marked, b, Recyclable);
    }
  }

  // ---------------------------------------------------------------- whole runs

  lemma StepInv(st: State, a: Action, st': State)
    requires Inv(st) && Step(st, a, st') && Guard(st, a)
    ensures Inv(st')
  {
    match a
    case Allocate(k, n, atomic) => AllocateInv(st, k, n, atomic, st');
    case Skip(k) => SkipInv(st, k, st');
    case Take(k, stale) => TakeInv(st, k, stale, st');
    case TakeFree(k) => TakeFreeInv(st, k, st');
    case Store(o, w, value) => StoreInv(st, o, w, value, st');
    case StoreOutside(w, value) => StoreOutsideInv(st, w, value, st');
    case Grow(count) => GrowInv(st, count, st');
    case Collect(marked) => CollectInv(st, marked, st');
  }

  // A step keeps every live object that no collection leaves unmarked, with its
  // size and every payload word the mutator does not itself overwrite.
  predicate Kept(s: Space, t: Space, o: nat, a: nat)
  {
    a < |s.words| && a < |t.words| && Size(s, o) == Size(t, o) && s.words[a] == t.words[a]
  }

  lemma AllocateKeeps(s: Space, held: set<nat>, r: Region, n: nat, atomic: bool, o: nat, w: nat)
    requires WF(s) && CanBump(s, held, r, n) && HeldOK(s, held) && o in held && o <= w < o + Size(s, o)
    ensures Kept(s, Bumped(s, r, n, atomic), o, w)
  {
    assert Visible(s, o);
    InWords(s, o, w);
    BumpedLength(s, r, n, atomic);
    hide Bumped, WF, Visible, CanBump, HeldOK;
    BumpKeepsHeld(s, held, r, n, atomic, o, o);
    BumpKeepsHeld(s, held, r, n, atomic, o, w);
  }

  lemma StoreKeeps(s: Space, o: nat, o': nat, a: nat, value: nat, w: nat)
    requires WF(s) && Solid(s, o) && Solid(s, o') && o <= w < o + s.words[o] && w != a
    requires o' + HEADER <= a < o' + s.words[o']
    ensures a < |s.words| && Kept(s, Stored(s, a, value), o, w)
  {
    assert Visible(s, o) && Visible(s, o');
    InWords(s, o, w);
    InWords(s, o', a);
    NodeOutsidePayload(s, o', o);
  }

  lemma OutsideKeeps(s: Space, a: nat, value: nat, o: nat, w: nat)
    requires WF(s) && Visible(s, o) && o <= w < o + s.words[o] && a < |s.words| && !InSmallHeap(s, a)
    ensures w < |s.words| && Kept(s, Stored(s, a, value), o, w)
  {
    InWords(s, o, w);
    assert ObjectOK(s, o);
  }

  lemma CollectKept(s: Space, t: Space, marked: set<nat>, o: nat, w: nat)
    requires WF(s) && Collected(s, t, marked) && Solid(s, o) && o in marked && o + HEADER <= w < o + Size(s, o)
    ensures Kept(s, t, o, w)
  {
    hide Collected;
    CollectKeeps(s, t, marked, o);
    InWords(s, o, w);
    var x := s.words[w];
  }

  lemma InWords(s: Space, o: nat, w: nat)
    requires WF(s) && Visible(s, o) && o <= w < o + Size(s, o)
    ensures w < |s.words|
  {
  }

  lemma GrownWords(s: Space, t: Space, count: nat)
    requires Grown(s, t, count)
    ensures t.words == s.words
  {
  }

  lemma LiveSolid(st: State, o: nat)
    requires Inv(st) && o in st.live
    ensures WF(st.space) && Solid(st.space, o) && Visible(st.space, o) && o in st.held && HeldOK(st.space, st.held)
  {
  }

  lemma CanBumpHere(st: State, k: nat, n: nat)
    requires Inv(st) && Fits(st, k, n)
    ensures CanBump(st.space, st.held, st.regions[k], n)
  {
  }

  lemma StepKeeps(st: State, a: Action, st': State, o: nat, w: nat)
    requires Inv(st) && Step(st, a, st') && o in st.live
    requires o + HEADER <= w < o + Size(st.space, o)
    requires a.Collect? ==> o in a.marked
    requires a.Store? ==> a.a != w
    ensures o in st'.live && Kept(st.space, st'.space, o, w)
  {
    hide Inv, WF, Solid, Visible, HeldOK, Collected, Bumped, Grown;
    LiveSolid(st, o);
    InWords(st.space, o, w);
    match a
    case Allocate(k, n, atomic) =>
      CanBumpHere(st, k, n);
      AllocateKeeps(st.space, st.held, st.regions[k], n, atomic, o, w);
    case Store(o', i, value) =>
      LiveSolid(st, o');
      StoreKeeps(st.space, o, o', i, value, w);
    case StoreOutside(i, value) =>
      OutsideKeeps(st.space, i, value, o, w);
    case Collect(marked) =>
      CollectKept(st.space, st'.space, marked, o, w);
    case Grow(count) =>
      GrownWords(st.space, st'.space, count);
    case Skip(k) =>
    case Take(k, stale) =>
    case TakeFree(k) =>
  }

  ghost predicate Run(states: seq<State>, actions: seq<Action>) {
    && |states| == |actions| + 1
    && forall i | 0 <= i < |actions| ::
         Step(states[i], actions[i], states[i + 1]) && Guard(states[i], actions[i])
  }

  lemma {:induction false} RunInv(states: seq<State>, actions: seq<Action>)
    requires Run(states, actions) && Inv(states[0])
    ensures forall i | 0 <= i < |states| :: Inv(states[i])
    decreases |actions|
  {
    if actions != [] {
      var n := |actions| - 1;
      RunInv(states[..n + 1], actions[..n]);
      assert states[..n + 1][n] == states[n];
      StepInv(states[n], actions[n], states[n + 1]);
      forall i | 0 <= i < |states|
        ensures Inv(states[i])
      {
        assert i <= n ==> states[..n + 1][i] == states[i];
      }
    }
  }

  // An object that every collection of the run marks is live, and unchanged but
  // for the mutator's own stores, at the end of the run.
  lemma {:induction false} RunKeeps(states: seq<State>, actions: seq<Action>, o: nat, w: nat)
    requires Run(states, actions) && Inv(states[0]) && o in states[0].live
    requires o + HEADER <= w < o + Size(states[0].space, o) && w < |states[0].space.words|
    requires forall i | 0 <= i < |actions| :: actions[i].Collect? ==> o in actions[i].marked
    requires forall i | 0 <= i < |actions| :: actions[i].Store? ==> actions[i].a != w
    ensures var last := states[|actions|];
            o in last.live && Kept(states[0].space, last.space, o, w)
    decreases |actions|
  {
    RunInv(states, actions);
    if actions != [] {
      var n := |actions| - 1;
      assert states[..n + 1][0] == states[0] && states[..n + 1][n] == states[n];
      RunKeeps(states[..n + 1], actions[..n], o, w);
      assert Inv(states[n]);
      StepKeeps(states[n], actions[n], states[n + 1], o, w);
    }
  }

  lemma FreeOfHeld(s: Space, held: set<nat>, r: Region, n: nat, o: nat)
    requires WF(s) && CanBump(s, held, r, n) && HeldOK(s, held) && o in held
    ensures o + Size(s, o) <= r.pos || r.pos + n <= o
  {
  }

  // No allocation of a run touches an object that is still held.
  lemma RunAllocatesFresh(states: seq<State>, actions: seq<Action>, i: nat, o: nat)
    requires Run(states, actions) && Inv(states[0]) && i < |actions| && actions[i].Allocate?
    requires o in states[i].held
    ensures var a, regions := actions[i], states[i].regions;
            && a.k in regions && states[i + 1].held == states[i].held + {regions[a.k].pos}
            && (o + Size(states[i].space, o) <= regions[a.k].pos || regions[a.k].pos + a.n <= o)
  {
    RunInv(states, actions);
    var st := states[i];
    assert Step(st, actions[i], states[i + 1]);
    FreeOfHeld(st.space, st.held, st.regions[actions[i].k], actions[i].n, o);
  }

  // At every point of a run, an interior pointer to a live object finds it.
  lemma RunResolves(states: seq<State>, actions: seq<Action>, i: nat, o: nat, w: nat, o': nat)
    requires Run(states, actions) && Inv(states[0]) && i < |states| && o in states[i].live
    requires o + HEADER <= w < o + Size(states[i].space, o)
    ensures Shape(states[i].space) && (Target(states[i].space, w, o') <==> o' == o)
  {
    RunInv(states, actions);
    assert Inv(states[i]) && Solid(states[i].space, o);
    LiveTarget(states[i].space, o, w, o');
  }
}
