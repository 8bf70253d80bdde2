// Thread-local bump allocation (src/local_allocator.c).
module LocalAllocators {
  import opened LineHeader
  import opened Space
  import opened Memory
  import opened Bump
  import opened Sweeping
  import opened BlockLists
  import opened Runs
  import opened SmallHeaps
  import opened Units

  // Room for n words is set apart at the cursor of r, but no header is written.
  function Reserved(s: Space, r: Region, n: nat): Space
    requires Shape(s) && HEADER <= n && r.pos + n <= r.limit <= Stop(s)
  {
    s.(words := if r.pos + n < r.limit then s.words[r.pos + n := 0] else s.words, lines := Stamp(s, r.pos))
  }

  // Line_update: the first object of a line is recorded in the line's header.
  method LineUpdate(memory: Memory, block: nat, o: nat)
    requires Shape(memory.space) && IsBlock(memory.space, block) && BlockStart(block) <= o < BlockStop(block)
    modifies memory
    ensures Shape(memory.space) && memory.space == old(memory.space).(lines := Stamp(old(memory.space), o))
  {
    var index := (o - BlockStart(block)) / LINE;
    var l := BLOCK_LINES * block + 1 + index;
    assert l == o / LINE;
    if !memory.space.lines[l].occupied {
      memory.space := SetLine(memory.space, l, memory.space.lines[l].SetOffset(o - LINE * l));
    }
  }

  predicate InBounds(s: Space, r: Region) {
    && Shape(s) && IsBlock(s, r.block)
    && BlockStart(r.block) <= r.pos <= r.limit <= BlockStop(r.block)
  }

  // What an allocation attempt does to memory when the object fits.
  method SetApart(memory: Memory, r: Region, n: nat)
    requires Shape(memory.space) && InBounds(memory.space, r) && HEADER <= n && r.pos + n <= r.limit
    modifies memory
    ensures Shape(memory.space) && memory.space == Reserved(old(memory.space), r, n)
  {
    LineUpdate(memory, r.block, r.pos);
    if r.pos + n < r.limit {
      memory.space := SetWord(memory.space, r.pos + n, 0);
    }
  }

  // Object_allocate: the mark byte keeps whatever the memory held.
  method ObjectAllocate(memory: Memory, o: nat, n: nat, atomic: bool)
    requires Shape(memory.space) && o + 1 < |memory.space.words|
    modifies memory
    ensures Shape(memory.space)
    ensures memory.space == old(memory.space).(words :=
              old(memory.space.words)[o := n][o + 1 := SetAtomic(old(memory.space.words)[o + 1], atomic)])
  {
    memory.space := SetWord(memory.space, o, n);
    memory.space := SetWord(memory.space, o + 1, SetAtomic(memory.space.words[o + 1], atomic));
  }

  lemma AtomicByte(w: nat, atomic: bool)
    ensures SetAtomic(w, atomic) / 256 % 256 == (if atomic then 1 else 0) && SetAtomic(w, atomic) % 256 == w % 256
  {
    var q, x := w / 65536, if atomic then 1 else 0;
    assert SetAtomic(w, atomic) == 256 * (256 * q + x) + w % 256;
  }

  // Which words and line headers an allocation changes, and to what.
  lemma BumpedExact(s: Space, r: Region, n: nat, atomic: bool)
    requires Shape(s) && InBounds(s, r) && HEADER <= n && r.pos + n <= r.limit
    ensures var t := Bumped(s, r, n, atomic);
            && |t.words| == |s.words| && |t.lines| == |s.lines| && t.blocks == s.blocks && r.pos + 1 < |s.words|
            && t.words[r.pos] == n && (r.pos + n < r.limit ==> t.words[r.pos + n] == 0)
            && t.words[r.pos + 1] / 256 % 256 == (if atomic then 1 else 0)
            && t.words[r.pos + 1] % 256 == s.words[r.pos + 1] % 256
            && (forall i: nat | i < |s.words| && i != r.pos && i != r.pos + 1 && (i != r.pos + n || i >= r.limit) ::
                  t.words[i] == s.words[i])
            && (forall l: nat | l < |s.lines| ::
                  t.lines[l] == if l == r.pos / LINE && !s.lines[l].occupied then Line(false, true, r.pos % LINE)
                                else s.lines[l])
  {
    AtomicByte(s.words[r.pos + 1], atomic);
    hide SetAtomic;
  }

  // The words and line headers after an allocation at the cursor of r.
  method BumpAt(memory: Memory, r: Region, n: nat, atomic: bool)
    requires Shape(memory.space) && InBounds(memory.space, r) && HEADER <= n && r.pos + n <= r.limit
    modifies memory
    ensures Shape(memory.space) && memory.space == Bumped(old(memory.space), r, n, atomic)
  {
    SetApart(memory, r, n);
    ObjectAllocate(memory, r.pos, n, atomic);
  }

  // Memory after an allocation does not depend on the hole list.
  lemma BumpedAlike(s: Space, r: Region, r': Region, n: nat, atomic: bool)
    requires Shape(s) && HEADER <= n && r.pos + n <= r.limit <= Stop(s) && r' == r.(next := r'.next)
    ensures Bumped(s, r, n, atomic) == Bumped(s, r', n, atomic)
  {
  }

  // The first of the holes from r on where n words fit or are to overflow, or
  // else the last hole.
  ghost function Landing(s: Space, held: set<nat>, r: Region, n: nat): (landed: Region)
    requires WF(s) && RegionOK(s, held, r)
    ensures RegionOK(s, held, landed) && landed.block == r.block
    ensures landed.pos + n <= landed.limit || (n > LINE && landed.limit - landed.pos > LINE) || landed.next == 0
    decreases BlockStop(r.block) - r.limit
  {
    if r.pos + n <= r.limit || (n > LINE && r.limit - r.pos > LINE) || r.next == 0 then r
    else
      NextBounds(s, held, r);
      Landing(s, held, HoleRegion(s, r), n)
  }

  // The holes from r to the landing hole are linked one after the other, and each of
  // those before it neither fits nor has a line to spare for a longer object.
  lemma {:induction false} LandingPath(s: Space, held: set<nat>, r: Region, n: nat) returns (path: seq<Region>)
    requires WF(s) && RegionOK(s, held, r)
    ensures path != [] && path[0] == r && path[|path| - 1] == Landing(s, held, r, n)
    ensures forall i | 0 <= i < |path| - 1 ::
              && path[i].next != 0 && path[i].next + 1 < |s.words|
              && path[i].pos + n > path[i].limit && (n <= LINE || path[i].limit - path[i].pos <= LINE)
              && path[i + 1] == Region(path[i].block, path[i].next,
                                       s.words[path[i].next] / 8, s.words[path[i].next + 1] / 8)
    decreases BlockStop(r.block) - r.limit
  {
    path := [r];
    if r.pos + n > r.limit && (n <= LINE || r.limit - r.pos <= LINE) && r.next != 0 {
      NextBounds(s, held, r);
      var rest := LandingPath(s, held, HoleRegion(s, r), n);
      hide RegionOK, WF;
      path := path + rest;
    }
  }

  // The scan from r for n words stops at `hole`.
  ghost predicate Landed(s: Space, held: set<nat>, r: Region, n: nat, hole: Region) {
    WF(s) && RegionOK(s, held, r) && hole == Landing(s, held, r, n)
  }

  class LocalAllocator {
    const heap: SmallHeap
    ghost const id: nat

    // (block, cursor, limit, next) and the overflow block, cursor and limit.
    var main: Region
    var overflow: Region

    ghost function Key(): nat {
      2 * id
    }

    ghost function OverflowKey(): nat {
      2 * id + 1
    }

    lemma Keys()
      ensures Key() / 2 == OverflowKey() / 2 == id
    {
    }

    // The state of the heap agrees with the cursors of this allocator.
    ghost predicate Attached()
      reads this, heap
    {
      && Key() in heap.state.regions && heap.state.regions[Key()] == main
      && OverflowKey() in heap.state.regions && heap.state.regions[OverflowKey()] == overflow
    }

    ghost predicate Valid()
      reads this, heap, heap.freeList, heap.recyclableList, heap.memory
    {
      heap.Valid() && Attached()
    }

    // The cursor is sound but for a stale hole list behind a free block.
    ghost predicate Stranded()
      reads this, heap, heap.freeList, heap.recyclableList, heap.memory
    {
      && heap.Valid() && main.limit == BlockStop(main.block) && main.next != 0
      && Key() in heap.state.regions && heap.state.regions[Key()] == main.(next := 0)
      && OverflowKey() in heap.state.regions && heap.state.regions[OverflowKey()] == overflow
    }

    lemma ValidHeap()
      requires Valid()
      ensures heap.Valid()
    {
    }

    // A freshly mapped record: nothing is known about its fields.
    constructor (heap: SmallHeap, ghost id: nat, main: Region, overflow: Region)
      ensures this.heap == heap && this.id == id && this.main == main && this.overflow == overflow
    {
      this.heap := heap;
      this.id := id;
      this.main := main;
      this.overflow := overflow;
    }

    // Where a cursor starts in a listed block.
    method StartIn(b: nat)
      requires Shape(heap.memory.space) && IsBlock(heap.memory.space, b)
      requires heap.memory.space.blocks[b].first < BLOCK_LINES - 1
      modifies this`main
      ensures main == CursorRegion(heap.memory.space, b, old(main.next))
    {
      if heap.memory.space.blocks[b].flag == Free {
        main := Region(b, BlockStart(b), BlockStop(b), main.next);
      } else {
        var h := BlockStart(b) + LINE * heap.memory.space.blocks[b].first;
        main := Region(b, h, heap.memory.space.words[h] / 8, heap.memory.space.words[h + 1] / 8);
      }
    }

    // LocalAllocator_findNextHole
    method FindNextHole() returns (found: bool)
      requires Shape(heap.memory.space) && main.next + 1 < |heap.memory.space.words|
      modifies this`main
      ensures found == (old(main.next) != 0)
      ensures main == if found then HoleRegion(heap.memory.space, old(main)) else old(main)
    {
      found := main.next != 0;
      if found {
        var h := main.next;
        main := Region(main.block, h, heap.memory.space.words[h] / 8, heap.memory.space.words[h + 1] / 8);
      }
    }

    // The loop of LocalAllocator_tryAllocateSmall: on return the object fits, or
    // it is to overflow, or (neither) the block is exhausted.
    method AdvanceToHole(n: nat, ghost held: set<nat>) returns (fits: bool, overflows: bool)
      requires Shape(heap.memory.space) && WF(heap.memory.space) && RegionOK(heap.memory.space, held, main)
      modifies this`main
      ensures main == Landing(heap.memory.space, held, old(main), n)
      ensures fits <==> main.pos + n <= main.limit
      ensures overflows <==> !fits && n > LINE && main.limit - main.pos > LINE
      ensures old(main.pos + n <= main.limit) ==> fits && main == old(main)
      ensures old(main.pos + n > main.limit && n > LINE && main.limit - main.pos > LINE) ==>
                overflows && main == old(main)
    {
      ghost var s := heap.memory.space;
      while true
        invariant RegionOK(s, held, main)
        invariant Landing(s, held, main, n) == Landing(s, held, old(main), n)
        invariant main == old(main) ||
                  old(main.pos + n > main.limit && (n <= LINE || main.limit - main.pos <= LINE))
        decreases BlockStop(main.block) - main.limit
      {
        if main.pos + n <= main.limit {
          return true, false;
        }
        if n > LINE && main.limit - main.pos > LINE {
          return false, true;
        }
        NextBounds(s, held, main);
        var found := FindNextHole();
        if !found {
          return false, false;
        }
      }
    }

    // LocalAllocator_initCursor: ok is false where the source aborts.
    method InitCursor(largeSize: nat) returns (ok: bool, ghost block: nat, ghost count: nat)
      requires heap.Sound() && heap.memory.space.low < heap.memory.space.high
      modifies this`main, heap.memory, heap.freeList, heap.recyclableList
      ensures heap.Sound() && Grown(old(heap.memory.space), heap.memory.space, count)
      ensures count > 0 ==> old(heap.recyclableList.contents) == old(heap.freeList.contents) == []
      ensures Shifted(old(heap.recyclableList.contents),
                      old(heap.freeList.contents) + Numbers(old(heap.memory.space.high), count),
                      heap.recyclableList.contents, heap.freeList.contents, block)
      ensures ok == (block != 0) && (!ok ==> !old(heap.MayGrow(largeSize)) && !heap.MayGrow(largeSize))
      ensures ok ==>
                Flagged(heap.memory.space, block, if old(heap.recyclableList.contents) != [] then Recyclable else Free)
      ensures ok ==> main == CursorRegion(heap.memory.space, block, old(main.next))
      ensures ok ==>
                if old(heap.recyclableList.contents) == [] then
                  main == Region(block, BLOCK * block + LINE, BLOCK * (block + 1), old(main.next))
                else
                  var s := heap.memory.space;
                  var h := BLOCK * block + LINE * (1 + s.blocks[block].first);
                  h + 1 < |s.words| && main == Region(block, h, s.words[h] / 8, s.words[h + 1] / 8)
      ensures count == 0 ==> heap.memory.space == old(heap.memory.space)
    {
      var b;
      b, count := heap.NextBlock(largeSize);
      block := b;
      ok := b != 0;
      if ok {
        StartIn(b);
      }
    }

    // LocalAllocator_initOverflowCursor
    method InitOverflowCursor(largeSize: nat) returns (ok: bool, ghost block: nat, ghost count: nat)
      requires heap.Sound() && heap.memory.space.low < heap.memory.space.high
      modifies this`overflow, heap.memory, heap.freeList
      ensures heap.Sound() && Grown(old(heap.memory.space), heap.memory.space, count)
      ensures count > 0 ==> old(heap.freeList.contents) == []
      ensures heap.recyclableList.contents == old(heap.recyclableList.contents)
      ensures Shifted([], old(heap.freeList.contents) + Numbers(old(heap.memory.space.high), count),
                      [], heap.freeList.contents, block)
      ensures ok == (block != 0) && (!ok ==> !old(heap.MayGrow(largeSize)) && !heap.MayGrow(largeSize))
      ensures ok ==> overflow == Region(block, BlockStart(block), BlockStop(block), 0)
      ensures ok ==> Flagged(heap.memory.space, block, Free)
      ensures count == 0 ==> heap.memory.space == old(heap.memory.space)
    {
      var b;
      b, count := heap.NextFreeBlock(largeSize);
      block := b;
      ok := b != 0;
      if ok {
        overflow := Region(b, BlockStart(b), BlockStop(b), 0);
      }
    }

    // Object allocated at the main cursor.
    method BumpMain(n: nat, atomic: bool) returns (o: nat)
      requires (Valid() || Stranded()) && HEADER <= n <= LARGE && main.pos + n <= main.limit
      modifies this`main, heap.memory, heap`state
      ensures (if old(Valid()) then Valid() else Stranded()) && o == old(main.pos) && main == Advance(old(main), n)
      ensures Fits(old(heap.state), Key(), n) && heap.state == Allocated(old(heap.state), Key(), n, atomic)
      ensures o == old(heap.state).regions[Key()].pos
      ensures heap.memory.space.high == old(heap.memory.space.high)
    {
      hide Inv, Linked;
      ghost var st := heap.state;
      RegionBounds(st, Key());
      BumpedAlike(st.space, main, st.regions[Key()], n, atomic);
      hide Bumped, WF, RegionOK, CursorOK, HeldOK;
      o := main.pos;
      BumpAt(heap.memory, main, n, atomic);
      main := Advance(main, n);
      AllocateInv(st, Key(), n, atomic, Allocated(st, Key(), n, atomic));
      heap.state := Allocated(st, Key(), n, atomic);
    }

    method BumpOverflow(n: nat, atomic: bool) returns (o: nat)
      requires (Valid() || Stranded()) && HEADER <= n <= LARGE && overflow.pos + n <= overflow.limit
      modifies this`overflow, heap.memory, heap`state
      ensures (if old(Valid()) then Valid() else Stranded()) && o == old(overflow.pos)
      ensures overflow == Advance(old(overflow), n)
      ensures Fits(old(heap.state), OverflowKey(), n)
      ensures heap.state == Allocated(old(heap.state), OverflowKey(), n, atomic)
      ensures o == old(heap.state).regions[OverflowKey()].pos
      ensures heap.memory.space.high == old(heap.memory.space.high)
    {
      hide Inv, Linked;
      ghost var st := heap.state;
      RegionBounds(st, OverflowKey());
      hide Bumped, WF, RegionOK, CursorOK, HeldOK;
      o := overflow.pos;
      BumpAt(heap.memory, overflow, n, atomic);
      overflow := Advance(overflow, n);
      AllocateInv(st, OverflowKey(), n, atomic, Allocated(st, OverflowKey(), n, atomic));
      heap.state := Allocated(st, OverflowKey(), n, atomic);
    }

    // LocalAllocator_initCursor: the cursor is usable exactly if no stale `next` meets a
    // free block; otherwise the heap knows it without its hole list.
    method StartMain(largeSize: nat) returns (ok: bool)
      requires heap.Sound() && heap.memory.space.low < heap.memory.space.high
      modifies this`main, heap.memory, heap.freeList, heap.recyclableList, heap`state
      ensures heap.Sound() && heap.memory.space.low < heap.memory.space.high
      ensures !ok ==> !old(heap.MayGrow(largeSize)) && !heap.MayGrow(largeSize)
      ensures ok && old(heap.Valid()) ==>
                heap.Valid() && Started(old(heap.state), heap.state, Key(), main, id,
                                        old(main.next == 0 || heap.recyclableList.contents != []))
                && Refilled(old(heap.state), heap.state, main)
      ensures ok ==> FirstCursor(old(heap.memory.space), old(heap.recyclableList.contents), old(main.next), main)
      ensures if old(heap.recyclableList.contents) != [] then
                ok && heap.memory.space == old(heap.memory.space)
                && main.block == old(heap.recyclableList.contents)[0]
                && heap.freeList.contents == old(heap.freeList.contents)
                && heap.recyclableList.contents == old(heap.recyclableList.contents)[1..]
              else if old(heap.freeList.contents) != [] then
                ok && heap.memory.space == old(heap.memory.space) && main.block == old(heap.freeList.contents)[0]
                && heap.freeList.contents == old(heap.freeList.contents)[1..]
              else !ok ==> heap.freeList.contents == [] && heap.recyclableList.contents == []
    {
      hide Inv, Linked, HoleChain;
      ghost var valid, st := heap.Valid(), heap.state;
      ghost var s, recyclable, stale := heap.memory.space, heap.recyclableList.contents, main.next;
      ghost var free := heap.freeList.contents;
      ghost var b, count := 0, 0;
      ok, b, count := InitCursor(largeSize);
      ShiftFacts(recyclable, free, s.high, count, heap.recyclableList.contents, heap.freeList.contents, b);
      if ok {
        CursorIs(s, heap.memory.space, count, recyclable, b, stale);
        if valid {
          ghost var now := MainStarted(st, heap.memory.space, count, Key(), b, stale, heap.freeList.contents,
                                       heap.recyclableList.contents, id);
          heap.Adopt(now);
        }
      }
    }

    // LocalAllocator_initOverflowCursor
    method StartOverflow(largeSize: nat) returns (ok: bool)
      requires heap.Sound() && heap.memory.space.low < heap.memory.space.high
      modifies this`overflow, heap.memory, heap.freeList, heap`state
      ensures heap.Sound() && (!ok ==> !old(heap.MayGrow(largeSize)) && !heap.MayGrow(largeSize))
      ensures ok && old(heap.Valid()) ==>
                heap.Valid() && Started(old(heap.state), heap.state, OverflowKey(), overflow, id, true)
      ensures ok ==> overflow.limit - overflow.pos == BLOCK - LINE
      ensures heap.recyclableList.contents == old(heap.recyclableList.contents)
      ensures !ok || !old(heap.Valid()) ==> heap.state == old(heap.state)
      ensures ok ==> overflow.pos == BLOCK * overflow.block + LINE
      ensures if old(heap.freeList.contents) != [] then
                ok && heap.memory.space == old(heap.memory.space) && overflow.block == old(heap.freeList.contents)[0]
                && heap.freeList.contents == old(heap.freeList.contents)[1..]
              else !ok ==> heap.freeList.contents == []
    {
      hide Inv, Linked;
      ghost var valid, st := heap.Valid(), heap.state;
      ghost var s, free := heap.memory.space, heap.freeList.contents;
      ghost var b, count := 0, 0;
      ok, b, count := InitOverflowCursor(largeSize);
      ShiftFacts([], free, s.high, count, [], heap.freeList.contents, b);
      if ok && valid {
        ghost var now := OverflowStarted(st, heap.memory.space, count, OverflowKey(), b, heap.freeList.contents, id);
        heap.Adopt(now);
      }
    }

    // The main cursor, its block exhausted, moves on to another block.
    method RefillMain(largeSize: nat) returns (ok: bool)
      requires Valid() && main.next == 0 && heap.memory.space.low < heap.memory.space.high
      modifies this`main, heap.memory, heap.freeList, heap.recyclableList, heap`state
      ensures !ok ==> !old(heap.MayGrow(largeSize)) && heap.Sound() && !heap.MayGrow(largeSize)
      ensures ok ==> Valid() && Undisturbed(old(heap.state), heap.state, id)
      ensures ok ==> Refilled(old(heap.state), heap.state, main)
      ensures ok ==> FirstCursor(old(heap.memory.space), old(heap.state.recyclable), 0, main)
      ensures ok ==> heap.memory.space.low < heap.memory.space.high
      ensures if old(heap.state.recyclable) != [] then
                ok && heap.memory.space == old(heap.memory.space) && heap.state.free == old(heap.state.free)
              else if old(heap.state.free) != [] then
                ok && heap.memory.space == old(heap.memory.space) && main.block == old(heap.state.free)[0]
              else !ok ==> heap.freeList.contents == [] && heap.recyclableList.contents == []
    {
      hide Inv, Linked;
      ok := StartMain(largeSize);
    }

    // The overflow cursor moves on to a free block.
    method RefillOverflow(largeSize: nat) returns (ok: bool)
      requires Valid() && heap.memory.space.low < heap.memory.space.high
      modifies this`overflow, heap.memory, heap.freeList, heap`state
      ensures !ok ==> !old(heap.MayGrow(largeSize)) && heap.Sound() && !heap.MayGrow(largeSize)
      ensures ok ==> Valid() && Undisturbed(old(heap.state), heap.state, id)
      ensures ok ==> overflow.limit - overflow.pos == BLOCK - LINE && overflow.pos == BLOCK * overflow.block + LINE
      ensures if old(heap.state.free) != [] then
                ok && heap.memory.space == old(heap.memory.space) && overflow.block == old(heap.state.free)[0]
              else !ok ==> heap.freeList.contents == []
    {
      hide Inv, Linked;
      ok := StartOverflow(largeSize);
    }

    // GC_LocalAllocator_reset, after a collection or for a new thread.
    method Reset(largeSize: nat) returns (ok: bool)
      requires heap.Valid() && heap.memory.space.low < heap.memory.space.high
      modifies this, heap.memory, heap.freeList, heap.recyclableList, heap`state
      ensures ok ==> heap.Valid() && Undisturbed(old(heap.state), heap.state, id)
      ensures ok ==> SameFlags(old(heap.memory.space), heap.memory.space)
      ensures ok ==> heap.recyclableList.contents == After(old(heap.recyclableList.contents), 1)
      ensures ok ==> FirstCursor(old(heap.memory.space), old(heap.recyclableList.contents), old(main.next), main)
      ensures ok && (old(main.next) == 0 || old(heap.recyclableList.contents) != []) ==> Valid()
      ensures ok && old(main.next) != 0 && old(heap.recyclableList.contents) == [] ==> Stranded() && Unusable(main)
      ensures !ok ==> heap.Sound() && !heap.MayGrow(largeSize) && heap.freeList.contents == []
    {
      hide Inv, Linked;
      ghost var stale, recyclable := main.next, heap.recyclableList.contents;
      ok := StartMain(largeSize);
      if ok {
        if stale != 0 && recyclable == [] {
          StaleUnusable(main);
        }
        hide FirstCursor, Unusable;
        ok := StartOverflow(largeSize);
      }
    }

    // LocalAllocator_overflowAllocateSmall, with the header written at once.
    method OverflowAllocateSmall(n: nat, atomic: bool, largeSize: nat) returns (ok: bool, o: nat)
      requires Valid() && HEADER <= n <= LARGE && heap.memory.space.low < heap.memory.space.high
      modifies this`overflow, heap.memory, heap.freeList, heap`state
      ensures !ok ==> !old(heap.MayGrow(largeSize)) && heap.Sound() && !heap.MayGrow(largeSize)
      ensures ok ==> Valid() && NewObject(old(heap.state), heap.state, o, n, atomic, id)
      ensures ok ==> overflow.pos == o + n
      ensures old(overflow.pos + n <= overflow.limit) ==>
                ok && o == old(overflow.pos) && heap.memory.space.high == old(heap.memory.space.high)
      ensures old(heap.state.free) != [] ==> ok && heap.memory.space.high == old(heap.memory.space.high)
      ensures old(heap.state.free) != [] && old(overflow.pos + n > overflow.limit) ==>
                o == BLOCK * old(heap.state.free)[0] + LINE
      ensures !ok ==> heap.freeList.contents == []
    {
      hide Inv, Linked;
      o := 0;
      ghost var st := heap.state;
      while true
        invariant Valid() && Undisturbed(st, heap.state, id)
        invariant old(overflow.pos + n <= overflow.limit) ==> overflow == old(overflow)
        invariant overflow.limit - overflow.pos == BLOCK - LINE || heap.memory.space.high == old(heap.memory.space.high)
        invariant if overflow == old(overflow) then
            heap.memory.space.high == old(heap.memory.space.high) && heap.state.free == old(heap.state.free)
          else
            overflow.limit - overflow.pos == BLOCK - LINE
            && (old(heap.state.free) != [] ==>
                  heap.memory.space.high == old(heap.memory.space.high)
                  && overflow.pos == BLOCK * old(heap.state.free)[0] + LINE)
        decreases if overflow.pos + n <= overflow.limit then 0 else 1
      {
        if overflow.pos + n <= overflow.limit {
          ghost var pre := heap.state;
          o := BumpOverflow(n, atomic);
          AllocatedIsNew(pre, OverflowKey(), n, atomic, id);
          NewAfterUndisturbed(st, pre, heap.state, o, n, atomic, id);
          return true, o;
        }
        ok := RefillOverflow(largeSize);
        if !ok {
          return;
        }
      }
    }

    // The scan of the current block's holes.
    method ScanHoles(n: nat) returns (fits: bool, overflows: bool)
      requires Valid()
      modifies this`main, heap`state
      ensures Valid() && Undisturbed(old(heap.state), heap.state, id)
      ensures heap.state.recyclable == old(heap.state.recyclable)
      ensures Landed(old(heap.memory.space), old(heap.state.held), old(main), n, main)
      ensures fits <==> main.pos + n <= main.limit
      ensures overflows <==> !fits && n > LINE && main.limit - main.pos > LINE
      ensures !fits && !overflows ==> main.next == 0
      ensures heap.state.free == old(heap.state.free)
      ensures old(main.pos + n <= main.limit) ==> fits && main == old(main)
      ensures old(main.pos + n > main.limit && n > LINE && main.limit - main.pos > LINE) ==>
                overflows && main == old(main)
    {
      hide Inv, Linked;
      ghost var st := heap.state;
      RegionBounds(st, Key());
      fits, overflows := AdvanceToHole(n, st.held);
      MoveRegion(st, Key(), main);
      heap.state := Moved(st, Key(), main);
    }

    // LocalAllocator_tryAllocateSmall, with the header written at once: o is 0
    // where the source returns NULL.  `hole` is where the scan stopped.
    method TryAllocateSmall(n: nat, atomic: bool, largeSize: nat) returns (ok: bool, o: nat, ghost hole: Region)
      requires Valid() && HEADER <= n <= LARGE && heap.memory.space.low < heap.memory.space.high
      modifies this, heap.memory, heap.freeList, heap`state
      ensures !ok ==> !old(heap.MayGrow(largeSize)) && heap.Sound() && !heap.MayGrow(largeSize)
      ensures ok ==> Valid()
      ensures ok && o != 0 ==> NewObject(old(heap.state), heap.state, o, n, atomic, id)
      ensures ok && o == 0 ==> main.next == 0 && Undisturbed(old(heap.state), heap.state, id)
                               && heap.state.recyclable == old(heap.state.recyclable)
                               && heap.memory.space == old(heap.memory.space)
      ensures old(main.pos + n <= main.limit) ==> ok && o != 0
      ensures Landed(old(heap.memory.space), old(heap.state.held), old(main), n, hole)
      ensures ok && hole.pos + n <= hole.limit ==>
                o == hole.pos && main == Advance(hole, n) && overflow == old(overflow)
      ensures ok && hole.pos + n > hole.limit ==>
                main == hole && (o != 0 <==> n > LINE && hole.limit - hole.pos > LINE)
      ensures ok && hole.pos + n > hole.limit && o != 0 ==> overflow.pos == o + n
      ensures ok ==> (o == 0 <==> hole.pos + n > hole.limit && (n <= LINE || hole.limit - hole.pos <= LINE))
      ensures old(main.pos + n <= main.limit) ==>
                && hole == old(main) && o == old(main.pos) && main == old(main).(pos := old(main.pos) + n)
                && heap.memory.space.high == old(heap.memory.space.high)
      ensures old(main.pos + n > main.limit && n > LINE && main.limit - main.pos > LINE) ==>
                main == old(main) && (ok ==> o != 0 && overflow.pos == o + n)
      ensures old(heap.state.free) != [] || n <= LINE ==>
                ok && heap.memory.space.high == old(heap.memory.space.high)
      ensures !ok ==> heap.freeList.contents == []
      ensures ok && o == 0 ==> heap.state.free == old(heap.state.free)
    {
      hide Inv, Linked, Landed;
      ghost var st := heap.state;
      ok, o := true, 0;
      var fits, overflows := ScanHoles(n);
      hole := main;
      ghost var pre := heap.state;
      if fits {
        o := BumpMain(n, atomic);
        AllocatedIsNew(pre, Key(), n, atomic, id);
        NewAfterUndisturbed(st, pre, heap.state, o, n, atomic, id);
      } else if overflows {
        ok, o := OverflowAllocateSmall(n, atomic, largeSize);
        if ok {
          NewAfterUndisturbed(st, pre, heap.state, o, n, atomic, id);
        }
      }
    }

    // GC_LocalAllocator_allocateSmall: ok is false where the source aborts.  k blocks are
    // taken; the scan of the last one starts at `from` and stops at `hole`.
    method AllocateSmall(size: nat, atomic: bool, largeSize: nat)
      returns (ok: bool, pointer: nat, ghost k: nat, ghost from: Region, ghost hole: Region)
      requires Valid() && ObjectWords(size) <= LARGE && heap.memory.space.low < heap.memory.space.high
      modifies this, heap.memory, heap.freeList, heap.recyclableList, heap`state
      ensures !ok ==> !old(heap.MayGrow(largeSize)) && heap.Sound() && !heap.MayGrow(largeSize)
      ensures ok ==> Valid() && pointer >= HEADER
      ensures ok ==> NewObject(old(heap.state), heap.state, pointer - HEADER, ObjectWords(size), atomic, id)
      ensures !ok ==> heap.freeList.contents == []
      ensures !ok && ObjectWords(size) <= LINE ==> heap.recyclableList.contents == []
      ensures old(heap.state.free) != [] ==> ok && heap.memory.space.high == old(heap.memory.space.high)
      ensures old(main.pos + ObjectWords(size) <= main.limit) ==>
                ok && pointer == old(main.pos) + HEADER && main.pos == old(main.pos) + ObjectWords(size)
                && heap.memory.space.high == old(heap.memory.space.high)
      ensures ok ==> Served(old(heap.memory.space), old(heap.state.held), ObjectWords(size), old(main),
                            old(heap.state.recyclable), k, from, hole)
      ensures ok && k <= |old(heap.state.recyclable)| ==>
                if hole.pos + ObjectWords(size) <= hole.limit then
                  pointer == hole.pos + HEADER && main == Advance(hole, ObjectWords(size))
                else
                  ObjectWords(size) > LINE && hole.limit - hole.pos > LINE && main == hole
                  && overflow.pos == pointer - HEADER + ObjectWords(size)
      ensures ok && k > |old(heap.state.recyclable)| ==>
                pointer == BLOCK * main.block + LINE + HEADER && main.pos == pointer - HEADER + ObjectWords(size)
                && (old(heap.state.free) != [] ==> main.block == old(heap.state.free)[0])
    {
      hide *;
      var n := ObjectWords(size);
      SmallRequest(size);
      ValidHeap();
      heap.Basics();
      ghost var st, s, first := heap.state, heap.memory.space, main;
      heap.SoundShape();
      heap.SameLimit(s, largeSize);
      pointer, k, from, hole := 0, 0, main, main;
      UndisturbedSelf(st, id);
      TryingStart(st, n, first);
      while true
        invariant Valid() && Undisturbed(st, heap.state, id)
        invariant heap.memory.space.low < heap.memory.space.high
        invariant Trying(st, n, first, k, main, heap.state)
        invariant k == 0 ==> main == first
        invariant k > 0 ==> old(main.pos + n > main.limit)
        decreases |heap.state.recyclable|, if main.pos + n <= main.limit then 0 else 1
      {
        ValidHeap();
        heap.Basics();
        heap.SoundShape();
        ghost var pre, start := heap.state, main;
        TryingParts(st, n, first, k, main, pre);
        UndisturbedOn(st, st, pre, id);
        if k <= |st.recyclable| {
          heap.SameLimit(s, largeSize);
        }
        var o;
        ok, o, hole := TryAllocateSmall(n, atomic, largeSize);
        from := start;
        if !ok {
          return;
        }
        if o != 0 {
          NewAfterUndisturbed(st, pre, heap.state, o, n, atomic, id);
          ServedNow(st, n, first, k, start, pre, hole);
          return true, o + HEADER, k, from, hole;
        }
        ValidHeap();
        heap.Basics();
        heap.SoundShape();
        heap.SameLimit(s, largeSize);
        ghost var mid := heap.state;
        UndisturbedOn(st, pre, mid, id);
        TryingSame(st, n, first, k, start, pre, mid);
        ok := RefillMain(largeSize);
        if !ok {
          return;
        }
        ValidHeap();
        heap.Basics();
        UndisturbedOn(st, mid, heap.state, id);
        TryingNext(st, n, first, k, start, hole, mid, main, heap.state);
        k := k + 1;
      }
    }

    // The same from a cursor that may carry a stale list, which an object that fits
    // does not meet.
    method AllocateFitting(size: nat, atomic: bool, largeSize: nat) returns (ok: bool, pointer: nat)
      requires Valid() || (Stranded() && main.pos + ObjectWords(size) <= main.limit)
      requires ObjectWords(size) <= LARGE && heap.memory.space.low < heap.memory.space.high
      modifies this, heap.memory, heap.freeList, heap.recyclableList, heap`state
      ensures !ok ==> heap.Sound() && !heap.MayGrow(largeSize) && heap.freeList.contents == []
      ensures old(main.pos + ObjectWords(size) <= main.limit) ==> ok && pointer == old(main.pos) + HEADER
      ensures old(heap.state.free) != [] ==> ok
      ensures ok ==> (if old(Valid()) then Valid() else Stranded()) && pointer >= HEADER
      ensures ok ==> NewObject(old(heap.state), heap.state, pointer - HEADER, ObjectWords(size), atomic, id)
    {
      hide *;
      SmallRequest(size);
      Keys();
      var n := ObjectWords(size);
      if main.pos + n <= main.limit {
        ghost var st := heap.state;
        var o := BumpMain(n, atomic);
        AllocatedIsNew(st, Key(), n, atomic, id);
        return true, o + HEADER;
      }
      ghost var k, from, hole;
      ok, pointer, k, from, hole := AllocateSmall(size, atomic, largeSize);
    }
  }

  // Where the scan of the j-th block starts: at the cursor, and then at the first hole
  // of each recyclable block in turn.
  ghost predicate StartsAt(s: Space, first: Region, recyclable: seq<nat>, j: nat, r: Region) {
    if j == 0 then r == first
    else j <= |recyclable| && Shape(s) && Flagged(s, recyclable[j - 1], Recyclable)
         && r == InitialRegion(s, recyclable[j - 1])
  }

  // No hole of the j-th block fits n words or has a line to spare for a longer object.
  ghost predicate Exhausted(s: Space, held: set<nat>, n: nat, first: Region, recyclable: seq<nat>, j: nat) {
    exists r, hole ::
      && StartsAt(s, first, recyclable, j, r) && Landed(s, held, r, n, hole)
      && hole.pos + n > hole.limit && (n <= LINE || hole.limit - hole.pos <= LINE)
  }

  // A request for n words is served by the first block that can, the k-th one, whose
  // scan leads from `from` to `hole`, or by a free block behind them all.
  ghost predicate Served(s: Space, held: set<nat>, n: nat, first: Region, recyclable: seq<nat>, k: nat, from: Region,
      hole: Region)
  {
    && k <= |recyclable| + 1
    && (forall j: nat | j < k :: Exhausted(s, held, n, first, recyclable, j))
    && (k <= |recyclable| ==> StartsAt(s, first, recyclable, k, from) && Landed(s, held, from, n, hole))
  }

  // The request in st, after k blocks: the cursor is at r in st'.
  ghost predicate Trying(st: State, n: nat, first: Region, k: nat, r: Region, st': State) {
    && k <= |st.recyclable| + 1
    && (forall j: nat | j < k :: Exhausted(st.space, st.held, n, first, st.recyclable, j))
    && if k <= |st.recyclable| then
         && StartsAt(st.space, first, st.recyclable, k, r)
         && st'.space == st.space && st'.recyclable == After(st.recyclable, k) && st'.free == st.free
       else
         && r.limit - r.pos == BLOCK - LINE && r.pos == BLOCK * r.block + LINE
         && (st.free != [] ==> r.block == st.free[0] && st'.space.high == st.space.high)
  }

  lemma TryingStart(st: State, n: nat, first: Region)
    ensures Trying(st, n, first, 0, first, st)
  {
  }

  lemma TryingParts(st: State, n: nat, first: Region, k: nat, r: Region, st': State)
    requires Trying(st, n, first, k, r, st')
    ensures k <= |st.recyclable| + 1 && LARGE <= BLOCK - LINE
    ensures if k <= |st.recyclable| then st'.space == st.space && st'.free == st.free
            else r.limit - r.pos == BLOCK - LINE && r.pos == BLOCK * r.block + LINE
                 && (st.free != [] ==> r.block == st.free[0] && st'.space.high == st.space.high)
  {
  }

  lemma TryingSame(st: State, n: nat, first: Region, k: nat, r: Region, st': State, st'': State)
    requires Trying(st, n, first, k, r, st') && st''.space == st'.space
    requires st''.recyclable == st'.recyclable && st''.free == st'.free
    ensures Trying(st, n, first, k, r, st'')
  {
    hide Exhausted;
  }

  lemma ServedNow(st: State, n: nat, first: Region, k: nat, r: Region, st': State, hole: Region)
    requires Trying(st, n, first, k, r, st') && (k <= |st.recyclable| ==> Landed(st.space, st.held, r, n, hole))
    ensures Served(st.space, st.held, n, first, st.recyclable, k, r, hole)
  {
    hide Landed, Exhausted;
  }

  lemma TryingNext(st: State, n: nat, first: Region, k: nat, start: Region, hole: Region, mid: State, r: Region,
      st': State)
    requires Trying(st, n, first, k, start, mid) && k <= |st.recyclable|
    requires Landed(st.space, st.held, start, n, hole) && hole.pos + n > hole.limit
    requires n <= LINE || hole.limit - hole.pos <= LINE
    requires FirstCursor(st.space, mid.recyclable, 0, r) && Refilled(mid, st', r)
    requires mid.recyclable != [] ==> st'.space == st.space && st'.free == mid.free
    requires mid.recyclable == [] && mid.free != [] ==> st'.space == st.space && r.block == mid.free[0]
    ensures Trying(st, n, first, k + 1, r, st')
    ensures mid.recyclable != [] ==> |st'.recyclable| < |mid.recyclable|
    ensures mid.recyclable == [] ==> st'.recyclable == [] && r.limit - r.pos == BLOCK - LINE
  {
    hide Landed;
    assert Exhausted(st.space, st.held, n, first, st.recyclable, k);
    hide Exhausted;
  }

  lemma UndisturbedSelf(st: State, id: nat)
    ensures Undisturbed(st, st, id)
  {
  }

  lemma UndisturbedOn(st: State, mid: State, st': State, id: nat)
    ensures Undisturbed(st, mid, id) && Undisturbed(mid, st', id) ==> Undisturbed(st, st', id)
    ensures Undisturbed(st, st', id) ==>
              st'.space.low == st.space.low && st'.space.words == st.space.words
              && st'.held == st.held && st.space.high <= st'.space.high
  {
  }

  // The words of an object with a payload of `size` bytes.
  function ObjectWords(size: nat): nat {
    RoundUp(size + 16, 8) / 8
  }

  // The requests that GC_malloc sends to a local allocator are the ones it takes.
  lemma SmallRequest(size: nat)
    ensures size <= 8 * (LARGE - HEADER) <==> ObjectWords(size) <= LARGE
    ensures size <= 8 * (ObjectWords(size) - HEADER) < size + 8
    ensures ObjectWords(size) == HEADER <==> size == 0
  {
  }

  // The block that a list gives away.
  lemma ShiftFacts(recyclable: seq<nat>, free: seq<nat>, from: nat, count: nat, recyclable': seq<nat>,
      free': seq<nat>, b: nat)
    requires Shifted(recyclable, free + Numbers(from, count), recyclable', free', b)
    requires count > 0 ==> recyclable == free == []
    ensures if recyclable != [] then
              b != 0 && b == recyclable[0] && recyclable' == recyclable[1..] && free' == free && count == 0
            else if free != [] then
              b != 0 && b == free[0] && free' == free[1..] && recyclable' == [] && count == 0
            else (b == 0 ==> count == 0 && free' == [] && recyclable' == [])
  {
    if count == 0 {
      assert free + Numbers(from, count) == free;
    }
  }

  function Moved(st: State, k: nat, r: Region): State {
    State(st.space, st.live, st.held, st.free, st.recyclable, st.regions[k := r])
  }

  lemma MoveRegion(st: Safe, k: nat, r: Region)
    requires k in st.regions && r.block == st.regions[k].block && RegionOK(st.space, st.held, r)
    ensures Inv(Moved(st, k, r)) && Undisturbed(st, Moved(st, k, r), k / 2)
  {
  }

  lemma NewAfterUndisturbed(st: State, pre: State, st': State, o: nat, n: nat, atomic: bool, id: nat)
    requires Undisturbed(st, pre, id) && NewObject(pre, st', o, n, atomic, id)
    ensures NewObject(st, st', o, n, atomic, id)
  {
    HeldSame(st.space, pre.space, st'.space, st.held, o, n);
    hide Inv, AtomicBit, BlockStart, BlockStop, HeldApart, HeldKept;
  }

  function AfterGrowth(st: State, space: Space, count: nat): State {
    State(space, st.live, st.held, st.free + Numbers(st.space.high, count), st.recyclable, st.regions)
  }

  // Nothing that other allocators or the mutator can see has changed.
  predicate Undisturbed(st: State, st': State, id: nat) {
    && st'.live == st.live && st'.held == st.held && st'.space.words == st.space.words
    && st'.space.low == st.space.low && st.space.high <= st'.space.high
    && forall k | k in st.regions && k / 2 != id :: k in st'.regions && st'.regions[k] == st.regions[k]
  }

  // The words from o on meet no held object.
  predicate HeldApart(s: Space, held: set<nat>, o: nat, n: nat) {
    forall h | h in held :: h + Size(s, h) <= o || o + n <= h
  }

  // Every word of every held object is the same.
  ghost predicate HeldKept(s: Space, t: Space, held: set<nat>) {
    forall h, a: nat | h in held && h <= a < h + Size(s, h) && a < |s.words| ::
      a < |t.words| && t.words[a] == s.words[a]
  }

  lemma HeldSame(s: Space, s': Space, t: Space, held: set<nat>, o: nat, n: nat)
    requires s'.words == s.words
    ensures HeldApart(s', held, o, n) == HeldApart(s, held, o, n) && HeldKept(s', t, held) == HeldKept(s, t, held)
  {
    assert forall h: nat :: Size(s', h) == Size(s, h);
  }

  // st' is st with a new object of n words at o, for allocator `id`.
  ghost predicate NewObject(st: State, st': State, o: nat, n: nat, atomic: bool, id: nat) {
    && Inv(st') && o !in st.held
    && st'.live == st.live + {o} && st'.held == st.held + {o}
    && BlockStart(o / BLOCK) <= o && o + n <= BlockStop(o / BLOCK)
    && st'.space.words[o] == n && AtomicBit(st'.space.words[o + 1]) == atomic
    && HeldApart(st.space, st.held, o, n) && HeldKept(st.space, st'.space, st.held)
    && (forall k | k in st.regions && k / 2 != id :: k in st'.regions && st'.regions[k] == st.regions[k])
  }

  lemma NewHeader(s: Space, r: Region, n: nat, atomic: bool)
    requires InBounds(s, r) && HEADER <= n && r.pos + n <= r.limit
    ensures var t := Bumped(s, r, n, atomic);
            && |t.words| == |s.words| && r.pos + 1 < |s.words|
            && t.words[r.pos] == n && AtomicBit(t.words[r.pos + 1]) == atomic
            && BlockStart(r.pos / BLOCK) <= r.pos && r.pos + n <= BlockStop(r.pos / BLOCK)
  {
    AtomicBits(s.words[r.pos + 1], atomic);
    assert r.pos / BLOCK == r.block;
  }

  lemma AllHeldApart(s: Space, held: set<nat>, r: Region, n: nat, atomic: bool)
    requires WF(s) && CanBump(s, held, r, n) && HeldOK(s, held)
    ensures HeldApart(s, held, r.pos, n) && r.pos !in held && HeldKept(s, Bumped(s, r, n, atomic), held)
  {
  }

  lemma AllocatedIsNew(st: Safe, k: nat, n: nat, atomic: bool, id: nat)
    requires k / 2 == id && Fits(st, k, n)
    ensures NewObject(st, Allocated(st, k, n, atomic), st.regions[k].pos, n, atomic, id)
  {
    hide Inv;
    RegionBounds(st, k);
    AllocateInv(st, k, n, atomic, Allocated(st, k, n, atomic));
    NewHeader(st.space, st.regions[k], n, atomic);
    AllHeldApart(st.space, st.held, st.regions[k], n, atomic);
    hide WF, RegionOK, CursorOK, HeldOK, Bumped, Visible, InBounds, HeldApart, HeldKept;
  }

  // What is sound about a cursor: all of it, or all but its hole list.
  function Known(r: Region, usable: bool): Region {
    if usable then r else r.(next := 0)
  }

  // Cursor k was set to r; nothing that others can see has changed.
  ghost predicate Started(st: State, st': State, k: nat, r: Region, id: nat, usable: bool) {
    && Undisturbed(st, st', id) && SameFlags(st.space, st'.space)
    && st'.regions == st.regions[k := Known(r, usable)]
  }

  // The heap may have grown; the blocks it had keep their flags.
  ghost predicate SameFlags(s: Space, t: Space) {
    && Shape(s) && Shape(t) && t.words == s.words && t.low == s.low && s.high <= t.high && |t.blocks| == |s.blocks|
    && forall b: nat | IsBlock(s, b) :: t.blocks[b].flag == s.blocks[b].flag && t.blocks[b].first == s.blocks[b].first
  }

  // The list without its first n blocks.
  function After(list: seq<nat>, n: nat): seq<nat> {
    if n <= |list| then list[n..] else []
  }

  // The cursor has a recyclable block, of which one less is left, or a free one.
  predicate Refilled(st: State, st': State, r: Region) {
    && st'.recyclable == After(st.recyclable, 1)
    && (if st.recyclable != [] then st'.space.high == st.space.high else r.limit - r.pos == BLOCK - LINE)
  }

  // Where initCursor puts the cursor: at the first hole of the first recyclable
  // block, or at the start of a free block, with `next` as it was.
  predicate FirstCursor(s: Space, recyclable: seq<nat>, next: nat, r: Region) {
    if recyclable != [] then
      Shape(s) && Flagged(s, recyclable[0], Recyclable) && r == InitialRegion(s, recyclable[0])
    else
      r == Region(r.block, BlockStart(r.block), BlockStop(r.block), next)
  }

  lemma CursorIs(s: Space, t: Space, count: nat, recyclable: seq<nat>, b: nat, stale: nat)
    requires Grown(s, t, count) && (recyclable != [] ==> recyclable[0] == b && count == 0)
    requires Flagged(t, b, if recyclable != [] then Recyclable else Free)
    ensures FirstCursor(s, recyclable, stale, CursorRegion(t, b, stale))
  {
  }

  // No memory makes these cursor fields sound.
  ghost predicate Unusable(r: Region) {
    forall s: Space, held: set<nat> | Shape(s) :: !RegionOK(s, held, r)
  }

  // Hole lists lie above the cursor's limit, and nothing lies above a free block.
  lemma StaleUnusable(r: Region)
    requires r.limit == BlockStop(r.block) && r.next != 0
    ensures Unusable(r)
  {
  }

  // The block at the head of the lists after a growth, and its cursor.
  lemma HeadOfLists(st: State, count: nat, mid: State, k: nat, b: nat, stale: nat, now: State)
    requires mid == AfterGrowth(st, mid.space, count) && (count > 0 ==> st.recyclable == st.free == [])
    requires Shifted(mid.recyclable, mid.free, now.recyclable, now.free, b) && b != 0
    requires Shape(mid.space) && Flagged(mid.space, b, if st.recyclable != [] then Recyclable else Free)
    requires now == State(mid.space, mid.live, mid.held, now.free, now.recyclable,
                          mid.regions[k := CursorRegion(mid.space, b, stale)])
    ensures TakeStep(mid, k, stale, now)
    ensures now.recyclable == After(st.recyclable, 1) && (st.recyclable != [] ==> count == 0)
    ensures mid.free != [] || mid.recyclable != []
    ensures mid.recyclable == [] ==> mid.free != [] && now.free == mid.free[1..]
  {
  }

  // The state once the main cursor k has its block.
  lemma MainStarted(st: Safe, space: Space, count: nat, k: nat, b: nat, stale: nat, free: seq<nat>,
      recyclable: seq<nat>, id: nat)
    returns (now: Safe)
    requires Grown(st.space, space, count) && k / 2 == id
    requires count > 0 ==> st.recyclable == st.free == []
    requires Shifted(st.recyclable, st.free + Numbers(st.space.high, count), recyclable, free, b)
    requires b != 0 && Flagged(space, b, if st.recyclable != [] then Recyclable else Free)
    ensures now.space == space && now.free == free && now.recyclable == recyclable
    ensures Started(st, now, k, CursorRegion(space, b, stale), id, stale == 0 || st.recyclable != [])
    ensures Refilled(st, now, CursorRegion(space, b, stale))
  {
    hide Inv;
    var mid := AfterGrowth(st, space, count);
    GrowInv(st, count, mid);
    GrownBounds(st.space, space, count);
    var usable := stale == 0 || st.recyclable != [];
    var left := if usable then stale else 0;
    var r := CursorRegion(space, b, left);
    var result := State(space, st.live, st.held, free, recyclable, st.regions[k := r]);
    HeadOfLists(st, count, mid, k, b, left, result);
    TakeInv(mid, k, left, result);
    assert r == Known(CursorRegion(space, b, stale), usable);
    now := result;
  }

  lemma GrownBounds(s: Space, t: Space, count: nat)
    requires Grown(s, t, count)
    ensures t.words == s.words && t.low == s.low && t.high == s.high + count && Shape(t) && SameFlags(s, t)
  {
  }

  // The state once the overflow cursor k has its block.
  lemma OverflowStarted(st: Safe, space: Space, count: nat, k: nat, b: nat, free: seq<nat>, id: nat) returns (now: Safe)
    requires Grown(st.space, space, count) && k / 2 == id
    requires Shifted([], st.free + Numbers(st.space.high, count), [], free, b) && b != 0 && Flagged(space, b, Free)
    ensures now.space == space && now.free == free && now.recyclable == st.recyclable
    ensures Started(st, now, k, Region(b, BlockStart(b), BlockStop(b), 0), id, true)
  {
    hide Inv;
    var mid := AfterGrowth(st, space, count);
    GrowInv(st, count, mid);
    GrownBounds(st.space, space, count);
    var result := State(space, st.live, st.held, free, st.recyclable,
                        st.regions[k := Region(b, BlockStart(b), BlockStop(b), 0)]);
    TakeFreeInv(mid, k, result);
    now := result;
  }

  lemma RegionBounds(st: Safe, k: nat)
    requires k in st.regions
    ensures InBounds(st.space, st.regions[k]) && WF(st.space) && HeldOK(st.space, st.held)
    ensures RegionOK(st.space, st.held, st.regions[k])
    ensures CursorOK(st.space, st.held, st.regions[k].block, st.regions[k].pos, st.regions[k].limit)
  {
  }

  lemma NextBounds(s: Space, held: set<nat>, r: Region)
    requires WF(s) && RegionOK(s, held, r)
    ensures r.next + 1 < |s.words|
    ensures r.next != 0 ==>
              RegionOK(s, held, HoleRegion(s, r)) && r.limit < HoleLimit(s, r.next) <= BlockStop(r.block)
  {
  }
}
