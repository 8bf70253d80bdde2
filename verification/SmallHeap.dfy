// The small-object half of the global allocator (src/global_allocator.c).
module SmallHeaps {
  import opened LineHeader
  import opened Space
  import opened Memory
  import opened BlockLists
  import opened Runs
  import opened Units

  const GROWTH_RATE: nat := 30

  // The number of bytes by which a small heap of n blocks grows.
  function Increment(n: nat): nat {
    RoundUp(BLOCK_BYTES * n * GROWTH_RATE / 100, BLOCK_BYTES)
  }

  // The increment is a whole number of blocks, and never zero.
  lemma IncrementBlocks(n: nat)
    ensures Increment(n) == BLOCK_BYTES * (Increment(n) / BLOCK_BYTES)
    ensures n >= 1 ==> Increment(n) >= BLOCK_BYTES
    ensures 3 * n <= 10 * (Increment(n) / BLOCK_BYTES) < 3 * n + 10
  {
    hide *;
    var x := 983040 * n / 100;
    var k := (x + 32767) / 32768;
    IncrementIs(n, x, k);
    Hundredths(983040 * n);
    Blockwise(x + 32767);
    Tenths(n, x, k);
  }

  lemma IncrementIs(n: nat, x: nat, k: nat)
    requires x == 983040 * n / 100 && k == (x + 32767) / 32768
    ensures Increment(n) == BLOCK_BYTES * k && Increment(n) / BLOCK_BYTES == k && BLOCK_BYTES == 32768
  {
    assert BLOCK_BYTES * n * GROWTH_RATE == 983040 * n;
    assert Increment(n) == k * 32768;
    Whole(k);
  }

  lemma Whole(k: nat)
    ensures k * 32768 / 32768 == k
  {
  }

  lemma Hundredths(a: nat)
    ensures 100 * (a / 100) <= a < 100 * (a / 100) + 100
  {
  }

  lemma Blockwise(a: nat)
    ensures 32768 * (a / 32768) <= a < 32768 * (a / 32768) + 32768
  {
  }

  lemma Tenths(n: nat, x: nat, k: nat)
    requires 100 * x <= 983040 * n < 100 * x + 100 && 32768 * k <= x + 32767 < 32768 * k + 32768
    ensures 3 * n <= 10 * k < 3 * n + 10 && (n >= 1 ==> k >= 1)
  {
  }

  lemma NumbersStep(f: seq<nat>, from: nat, count: nat)
    requires forall b | b in f :: b < from
    ensures f + Numbers(from, count + 1) == f + Numbers(from, count) + [from + count]
    ensures from + count !in f + Numbers(from, count)
  {
  }

  // s after count fresh blocks were set up behind its end.
  ghost predicate Extended(s: Space, lines: seq<Line>, blocks: seq<Block>, count: nat) {
    && Cleared(s.lines, lines, BLOCK_LINES * s.high, BLOCK_LINES * (s.high + count))
    && |blocks| == |s.blocks|
    && (forall b: nat | b < |blocks| ::
          Body(blocks[b]) == if s.high <= b < s.high + count then FRESH_BLOCK else Body(s.blocks[b]))
  }

  // Block b of the heap has the given flag, and a first free line.
  predicate Flagged(s: Space, b: nat, flag: Flag)
    requires Shape(s)
  {
    s.low <= b < s.high && s.blocks[b].flag == flag && s.blocks[b].first < BLOCK_LINES - 1
  }

  lemma FlaggedFrame(s: Space, t: Space, list: seq<nat>, flag: Flag)
    requires Shape(s) && Shape(t) && t.low == s.low && s.high <= t.high && |t.blocks| == |s.blocks|
    requires forall b | b in list :: Flagged(s, b, flag)
    requires forall b | b in list && b < |s.blocks| :: Body(t.blocks[b]) == Body(s.blocks[b])
    ensures forall b | b in list :: Flagged(t, b, flag)
  {
  }

  lemma FlagsApart(s: Space, free: seq<nat>, recyclable: seq<nat>)
    requires Shape(s) && forall b | b in free :: Flagged(s, b, Free)
    requires forall b | b in recyclable :: Flagged(s, b, Recyclable)
    ensures forall b | b in recyclable :: b !in free
  {
  }

  // Only links differ.
  predicate SameBodies(blocks: seq<Block>, blocks': seq<Block>) {
    |blocks'| == |blocks| && forall b | 0 <= b < |blocks| :: Body(blocks'[b]) == Body(blocks[b])
  }

  lemma ExtendedStep(s: Space, lines: seq<Line>, blocks: seq<Block>, count: nat, lines': seq<Line>, blocks': seq<Block>)
    requires Shape(s) && Extended(s, lines, blocks, count) && s.high + count < |s.blocks|
    requires Cleared(lines, lines', BLOCK_LINES * (s.high + count), BLOCK_LINES * (s.high + count + 1))
    requires SameBodies(blocks[s.high + count := FRESH_BLOCK], blocks')
    ensures Extended(s, lines', blocks', count + 1)
  {
  }

  lemma ExtendedGrown(s: Space, t: Space, count: nat)
    requires Shape(s) && Shape(t) && t.low == s.low && t.high == s.high + count && t.words == s.words
    requires Extended(s, t.lines, t.blocks, count)
    ensures Grown(s, t, count)
  {
  }

  // The first block of the recyclable list, or else of the free list, is gone
  // (0: both were empty).
  predicate Shifted(recyclable: seq<nat>, free: seq<nat>, recyclable': seq<nat>, free': seq<nat>, block: nat) {
    if recyclable != [] then block != 0 && recyclable == [block] + recyclable' && free' == free
    else recyclable' == [] && (if free != [] then block != 0 && free == [block] + free' else block == 0 && free' == [])
  }

  // Block_init and BlockList_push: block b becomes a free block.
  method PushFresh(memory: Memory, free: BlockList, recyclable: BlockList, b: nat)
    requires Shape(memory.space) && free != recyclable
    requires free.Valid(memory.space.blocks) && recyclable.Valid(memory.space.blocks)
    requires 0 < b < |memory.space.blocks| && b !in free.contents && b !in recyclable.contents
    requires forall c | c in recyclable.contents :: c !in free.contents
    modifies memory, free
    ensures Shape(memory.space) && free.Valid(memory.space.blocks) && recyclable.Valid(memory.space.blocks)
    ensures free.contents == old(free.contents) + [b]
    ensures memory.space == old(memory.space).(lines := memory.space.lines, blocks := memory.space.blocks)
    ensures Cleared(old(memory.space.lines), memory.space.lines, BLOCK_LINES * b, BLOCK_LINES * (b + 1))
    ensures SameBodies(old(memory.space.blocks)[b := FRESH_BLOCK], memory.space.blocks)
  {
    ghost var blocks := memory.space.blocks;
    hide Cleared, Linked;
    memory.BlockInit(b);
    LinksKept(free.contents, blocks, memory.space.blocks);
    LinksKept(recyclable.contents, blocks, memory.space.blocks);
    blocks := memory.space.blocks;
    free.Push(memory, b);
    LinksKept(recyclable.contents, blocks, memory.space.blocks);
  }

  lemma InitialState(s: Space, t: Space, count: nat) returns (now: Safe)
    requires Grown(s, t, count) && s.low == s.high
    ensures Initial(s, count, now) && now.space == t && now.recyclable == []
    ensures now.free == Numbers(s.high, count) == [] + Numbers(s.high, count)
  {
    var st := State(t, {}, {}, Numbers(s.low, count), [], map[]);
    hide Grown, Inv;
    InitialInv(s, count, st);
    now := st;
  }

  lemma NothingGrown(s: Space)
    requires Shape(s)
    ensures Grown(s, s, 0)
  {
  }

  lemma GrownAtLeast(s: Space, t: Space, count: nat)
    requires Grown(s, t, count)
    ensures t.low == s.low && t.high == s.high + count
  {
  }

  lemma ShiftedParts(free: seq<nat>, free': seq<nat>, from: nat, count: nat, block: nat)
    ensures Shifted([], free + Numbers(from, count), [], free', block) && block == 0 ==> free == [] && count == 0
    ensures free + Numbers(from, 0) == free && |Numbers(from, count)| == count
  {
  }

  class SmallHeap {
    const memory: Memory
    const memoryLimit: nat
    const reserved: nat  // the block number behind the area mapped for the heap
    const freeList: BlockList
    const recyclableList: BlockList

    // The abstract state, with the cursors of all local allocators.
    ghost var state: Safe

    ghost predicate ListsLinked()
      reads this, freeList, recyclableList, memory
    {
      && Shape(memory.space)
      && freeList.Valid(memory.space.blocks) && recyclableList.Valid(memory.space.blocks)
      && (forall b | b in freeList.contents :: Flagged(memory.space, b, Free))
      && (forall b | b in recyclableList.contents :: Flagged(memory.space, b, Recyclable))
    }

    // The heap stays within its reserved area, which has room up to the memory limit.
    predicate Bounds(s: Space) {
      s.high <= reserved <= |s.blocks| && memoryLimit <= BLOCK_BYTES * (reserved - s.low)
    }

    // The structural part of the invariant.
    ghost predicate Sound()
      reads this, freeList, recyclableList, memory
    {
      freeList != recyclableList && ListsLinked() && Bounds(memory.space)
    }

    ghost predicate Valid()
      reads this, freeList, recyclableList, memory
    {
      && Sound() && state.space == memory.space
      && state.free == freeList.contents && state.recyclable == recyclableList.contents
    }

    lemma Basics()
      requires Valid()
      ensures state.space == memory.space && WF(memory.space) && freeList != recyclableList
      ensures state.free == freeList.contents && state.recyclable == recyclableList.contents
      ensures Sound() && Bounds(memory.space)
    {
    }

    lemma SameArea(s: Space, t: Space)
      requires Bounds(s) && t.low == s.low && t.high == s.high && |t.blocks| == |s.blocks|
      ensures Bounds(t)
    {
    }

    lemma EmptyLists()
      requires Sound()
      ensures freeList.IsEmpty() <==> freeList.contents == []
      ensures recyclableList.IsEmpty() <==> recyclableList.contents == []
    {
    }

    lemma RecyclableFlags()
      requires Sound()
      ensures Shape(memory.space)
      ensures forall b | b in recyclableList.contents :: Flagged(memory.space, b, Recyclable)
    {
    }

    // The abstract state, once memory and the lists agree with it.
    ghost method Adopt(now: Safe)
      requires Sound() && now.space == memory.space
      requires now.free == freeList.contents && now.recyclable == recyclableList.contents
      modifies this`state
      ensures Valid() && state == now
    {
      state := now;
    }

    // A mapped address space whose small heap is still empty.
    constructor (memory: Memory, limit: nat, reserved: nat)
      requires Shape(memory.space) && memory.space.high <= reserved <= |memory.space.blocks|
      requires limit <= BLOCK_BYTES * (reserved - memory.space.low)
      ensures Sound() && this.memory == memory && memoryLimit == limit && this.reserved == reserved
      ensures fresh(freeList) && fresh(recyclableList)
      ensures freeList.contents == recyclableList.contents == []
    {
      this.memory := memory;
      memoryLimit := limit;
      this.reserved := reserved;
      state := NOTHING;
      freeList := new BlockList();
      recyclableList := new BlockList();
    }

    // GC_GlobalAllocator_init: the heap starts with `count` free blocks.
    method Init(count: nat)
      requires Sound() && memory.space.low == memory.space.high
      requires freeList.contents == recyclableList.contents == []
      requires 2 <= count && memory.space.high + count <= reserved
      modifies memory, freeList, this`state
      ensures Valid() && Initial(old(memory.space), count, state)
    {
      hide *;
      ghost var s := memory.space;
      SoundShape();
      AddBlocks(count);
      ghost var now := InitialState(s, memory.space, count);
      Adopt(now);
    }

    function Bytes(): nat
      requires Shape(memory.space)
      reads memory
    {
      BLOCK_BYTES * (memory.space.high - memory.space.low)
    }

    lemma BytesIs()
      requires Shape(memory.space)
      ensures Bytes() == BLOCK_BYTES * (memory.space.high - memory.space.low)
    {
    }

    method AddBlock(b: nat)
      requires Sound() && memory.space.low <= b < memory.space.high
      requires b !in freeList.contents && b !in recyclableList.contents
      modifies memory, freeList
      ensures Sound() && freeList.contents == old(freeList.contents) + [b]
      ensures memory.space == old(memory.space).(lines := memory.space.lines, blocks := memory.space.blocks)
      ensures Cleared(old(memory.space.lines), memory.space.lines, BLOCK_LINES * b, BLOCK_LINES * (b + 1))
      ensures SameBodies(old(memory.space.blocks)[b := FRESH_BLOCK], memory.space.blocks)
    {
      ghost var s, free := memory.space, freeList.contents;
      FlagsApart(memory.space, free, recyclableList.contents);
      PushFresh(memory, freeList, recyclableList, b);
      assert Body(memory.space.blocks[b]) == FRESH_BLOCK;
      FlaggedFrame(s, memory.space, free, Free);
      FlaggedFrame(s, memory.space, recyclableList.contents, Recyclable);
    }

    // The state after i of the new blocks joined: s and f are from before.
    ghost predicate Adding(s: Space, f: seq<nat>, count: nat, i: nat)
      reads this, freeList, recyclableList, memory
    {
      && Sound() && Shape(s) && s.high + count <= reserved <= |s.blocks| && i <= count
      && memory.space == s.(high := s.high + count, lines := memory.space.lines, blocks := memory.space.blocks)
      && freeList.contents == f + Numbers(s.high, i)
      && (forall b | b in f || b in recyclableList.contents :: b < s.high)
      && Extended(s, memory.space.lines, memory.space.blocks, i)
    }

    method AddNext(ghost s: Space, ghost f: seq<nat>, ghost count: nat, ghost i: nat, b: nat)
      requires Adding(s, f, count, i) && i < count && b == s.high + i
      modifies memory, freeList
      ensures Adding(s, f, count, i + 1)
    {
      NumbersStep(f, s.high, i);
      ghost var before, contents := memory.space, recyclableList.contents;
      hide Linked, Extended, Cleared, SameBodies, Flagged, Numbers;
      assert Shape(s) && Shape(before) && before.low <= b < before.high;
      assert b !in freeList.contents && b !in contents;
      hide Shape;
      AddBlock(b);
      ExtendedStep(s, before.lines, before.blocks, i, memory.space.lines, memory.space.blocks);
    }

    // The blocks beyond the heap's end join it, all of them free.
    method AddBlocks(count: nat)
      requires Sound() && memory.space.high + count <= reserved
      modifies memory, freeList
      ensures Sound()
      ensures recyclableList.contents == old(recyclableList.contents)
      ensures freeList.contents == old(freeList.contents) + Numbers(old(memory.space.high), count)
      ensures Grown(old(memory.space), memory.space, count)
    {
      ghost var s, f := memory.space, freeList.contents;
      var cursor := memory.space.high;
      memory.space := memory.space.(high := memory.space.high + count);
      for i := 0 to count
        invariant Adding(s, f, count, i)
      {
        AddNext(s, f, count, i, cursor + i);
      }
      ExtendedGrown(s, memory.space, count);
    }

    // The memory limit admits the next growth.
    predicate MayGrow(largeSize: nat)
      requires Shape(memory.space)
      reads memory
    {
      Bytes() + largeSize + Increment(memory.space.high - memory.space.low) <= memoryLimit
    }

    // GlobalAllocator_growSmall: ok is false where the source aborts.
    method GrowSmall(largeSize: nat) returns (ok: bool, ghost count: nat)
      requires Sound()
      modifies memory, freeList
      ensures Sound()
      ensures recyclableList.contents == old(recyclableList.contents)
      ensures freeList.contents == old(freeList.contents) + Numbers(old(memory.space.high), count)
      ensures Grown(old(memory.space), memory.space, count)
      ensures ok == old(MayGrow(largeSize))
      ensures var n := old(memory.space.high - memory.space.low);
              ok == (BLOCK_BYTES * n + largeSize + Increment(n) <= memoryLimit)
      ensures !ok ==> memory.space == old(memory.space)
      ensures ok && old(memory.space.low < memory.space.high) ==> count > 0
      ensures BLOCK_BYTES * count == if ok then old(Increment(memory.space.high - memory.space.low)) else 0
    {
      var increment := Bytes() * GROWTH_RATE / 100;
      increment := RoundUp(increment, BLOCK_BYTES);
      IncrementBlocks(memory.space.high - memory.space.low);
      assert increment == Increment(memory.space.high - memory.space.low);
      hide Increment;
      if Bytes() + largeSize + increment > memoryLimit {
        count := 0;
        return false, 0;
      }
      count := increment / BLOCK_BYTES;
      AddBlocks(increment / BLOCK_BYTES);
      ok := true;
    }

    lemma SoundShape()
      requires Sound()
      ensures Shape(memory.space)
    {
    }

    lemma SameLimit(s: Space, largeSize: nat)
      requires Shape(s) && Shape(memory.space) && memory.space.low == s.low && memory.space.high == s.high
      ensures MayGrow(largeSize) <==>
              BLOCK_BYTES * (s.high - s.low) + largeSize + Increment(s.high - s.low) <= memoryLimit
    {
    }

    method ShiftFree() returns (block: nat)
      requires Sound()
      modifies freeList
      ensures Sound() && Shifted([], old(freeList.contents), [], freeList.contents, block)
      ensures block != 0 ==> Flagged(memory.space, block, Free)
    {
      block := freeList.Shift(memory);
      assert forall b | b in freeList.contents :: b in old(freeList.contents);
    }

    method ShiftRecyclable() returns (block: nat)
      requires Sound()
      modifies recyclableList
      ensures Sound() && Shifted([], old(recyclableList.contents), [], recyclableList.contents, block)
      ensures block != 0 ==> Flagged(memory.space, block, Recyclable)
    {
      block := recyclableList.Shift(memory);
      assert forall b | b in recyclableList.contents :: b in old(recyclableList.contents);
    }

    // GC_GlobalAllocator_nextFreeBlock, when no collection is due.
    method NextFreeBlock(largeSize: nat) returns (block: nat, ghost count: nat)
      requires Sound() && memory.space.low < memory.space.high
      modifies memory, freeList
      ensures Sound() && Grown(old(memory.space), memory.space, count)
      ensures recyclableList.contents == old(recyclableList.contents)
      ensures if count > 0 then old(freeList.contents) == [] else memory.space == old(memory.space)
      ensures Shifted([], old(freeList.contents) + Numbers(old(memory.space.high), count), [], freeList.contents, block)
      ensures if block == 0 then !MayGrow(largeSize) && memory.space.high == old(memory.space.high)
              else Flagged(memory.space, block, Free)
    {
      hide *;
      count := 0;
      ghost var s, free := memory.space, freeList.contents;
      SoundShape();
      NothingGrown(s);
      block := ShiftFree();
      ShiftedParts(free, freeList.contents, s.high, 0, block);
      if block == 0 {
        SameLimit(s, largeSize);
        var ok;
        ok, count := GrowSmall(largeSize);
        free := freeList.contents;
        SoundShape();
        GrownAtLeast(s, memory.space, count);
        block := ShiftFree();
        ShiftedParts([], freeList.contents, s.high, count, block);
        if block == 0 {
          SameLimit(s, largeSize);
        }
      }
    }

    // GC_GlobalAllocator_nextBlock, when no collection is due: 0 is an abort.
    method NextBlock(largeSize: nat) returns (block: nat, ghost count: nat)
      requires Sound() && memory.space.low < memory.space.high
      modifies memory, freeList, recyclableList
      ensures Sound() && Grown(old(memory.space), memory.space, count)
      ensures if count > 0 then old(recyclableList.contents) == old(freeList.contents) == []
              else memory.space == old(memory.space)
      ensures Shifted(old(recyclableList.contents), old(freeList.contents) + Numbers(old(memory.space.high), count),
                      recyclableList.contents, freeList.contents, block)
      ensures if block == 0 then !MayGrow(largeSize) && memory.space.high == old(memory.space.high)
              else Flagged(memory.space, block, if old(recyclableList.contents) != [] then Recyclable else Free)
    {
      count := 0;
      block := ShiftRecyclable();
      if block == 0 {
        block, count := NextFreeBlock(largeSize);
      }
    }
  }
}
