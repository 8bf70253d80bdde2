// The large-object half of the global allocator (src/global_allocator.c).
module LargeHeaps {
  import opened Chunks
  import opened ChunkLists
  import opened LargeSteps
  import opened Units

  // The least n from `from` on with x <= 2^n: the ceiling of the logarithm.
  function CeilLog2(x: nat, from: nat): (n: nat)
    requires from > 0 ==> Power(from - 1) < x
    ensures n >= from && x <= Power(n) && (n > 0 ==> Power(n - 1) < x)
    decreases x - Power(from)
  {
    if x <= Power(from) then from else CeilLog2(x, from + 1)
  }

  // The bytes by which the large heap grows.
  function Growth(increment: nat): nat {
    RoundUp(Power(CeilLog2(increment, 0)), BLOCK_BYTES)
  }

  lemma GrowthEnough(increment: nat)
    ensures increment <= Growth(increment) && Growth(increment) % BLOCK_BYTES == 0
    ensures increment > 0 ==> Growth(increment) < 2 * increment + BLOCK_BYTES
    ensures Growth(increment) >= BLOCK_BYTES
  {
  }

  // The same in words.
  function GrowthWords(increment: nat): nat {
    Growth(increment) / 8
  }

  // It is the least power of two that is large enough, and at least a block.
  lemma GrowthPower(increment: nat, n: nat)
    ensures increment <= Power(n) && BLOCK_BYTES <= Power(n) ==> Growth(increment) <= Power(n)
    ensures exists k :: Growth(increment) == Power(k) && BLOCK_BYTES <= Power(k) && increment <= Power(k)
  {
    BlockPower();
    var k := CeilLog2(increment, 0);
    if k >= 15 {
      PowerDivides(k);
      RoundedMultiple(Power(k - 15));
      assert Growth(increment) == Power(k);
      if n >= k {
        PowerGrows(k, n);
      } else {
        PowerGrows(n, k - 1);
      }
    } else {
      PowerGrows(k, 15);
      assert Growth(increment) == BLOCK_BYTES == Power(15);
    }
  }

  lemma BlockPower()
    ensures Power(15) == BLOCK_BYTES
  {
    assert Power(5) == 32;
    assert Power(10) == 1024;
  }

  lemma {:induction false} PowerGrows(a: nat, b: nat)
    requires a <= b
    ensures Power(a) <= Power(b)
  {
    if a < b {
      PowerGrows(a, b - 1);
    }
  }

  // Rounding leaves powers of two from a block on as they are.
  lemma {:induction false} PowerDivides(k: nat)
    requires k >= 15
    ensures Power(k) == BLOCK_BYTES * Power(k - 15)
  {
    if k == 15 {
      BlockPower();
    } else {
      PowerDivides(k - 1);
    }
  }

  lemma RoundedMultiple(q: nat)
    ensures RoundUp(BLOCK_BYTES * q, BLOCK_BYTES) == BLOCK_BYTES * q
  {
  }

  lemma GrowthExact(increment: nat)
    ensures GrowthWords(increment) >= CHUNK_WORDS && GrowthWords(increment) > 0
    ensures 8 * GrowthWords(increment) == Growth(increment) >= increment
  {
  }

  // First fit, said of the chunks themselves.
  lemma FitIs(cs: seq<Chunk>, size: nat)
    ensures var i := FirstFit(cs, size);
            && i <= |cs| && (i < |cs| ==> !cs[i].used && size <= cs[i].size)
            && forall j | 0 <= j < i :: cs[j].used || cs[j].size < size
  {
  }

  lemma FirstFitIs(cs: seq<Chunk>, size: nat, i: nat)
    requires i <= |cs| && (i < |cs| ==> Suits(cs[i], size)) && forall j | 0 <= j < i :: !Suits(cs[j], size)
    ensures FirstFit(cs, size) == i
  {
  }

  lemma ExtendedTiles(cs: seq<Chunk>, start: nat, stop: nat, words: nat)
    requires Tiles(cs, start, stop) && words >= CHUNK_WORDS
    ensures Tiles(Extended(cs, stop, words), start, stop + words)
  {
    TilesSum(cs, start, stop);
    var c := FreeChunk(stop, words - CHUNK_HEADER);
    assert [c][1..] == [];
    TilesConcat(cs, [c], start, stop + words);
  }

  // The payload of a large object in words, rounded up.
  function PayloadWords(size: nat): nat {
    RoundUp(size, 8) / 8
  }

  lemma PayloadExact(size: nat)
    ensures size <= 8 * PayloadWords(size) < size + 8
  {
  }

  lemma PlacedEither(cs: seq<Chunk>, size: nat, atomic: bool)
    ensures Placed(cs, size, atomic) ==
            if FirstFit(cs, size) < |cs| then Allocate(cs, FirstFit(cs, size), size, atomic) else cs
  {
  }

  lemma AddressAt(cs: seq<Chunk>, i: nat)
    requires i < |cs|
    ensures Address(cs, i) == cs[i].address
  {
  }

  lemma PlacedStep(cs: seq<Chunk>, stop: nat, words: nat, atomic: bool)
    ensures Step(State(cs, stop), Place(words, atomic), State(Placed(cs, words + OBJECT_HEADER, atomic), stop))
  {
  }

  // A growth for an allocation always leaves a chunk that fits it.
  lemma GrowthFits(cs: seq<Chunk>, stop: nat, words: nat)
    ensures GrowthWords(8 * (words + CHUNK_WORDS)) >= CHUNK_WORDS
    ensures var grown := Extended(cs, stop, GrowthWords(8 * (words + CHUNK_WORDS)));
            FirstFit(grown, words + OBJECT_HEADER) < |grown|
  {
    GrowthExact(8 * (words + CHUNK_WORDS));
    var grown := Extended(cs, stop, GrowthWords(8 * (words + CHUNK_WORDS)));
    assert Suits(grown[|grown| - 1], words + OBJECT_HEADER);
  }

  class LargeHeap {
    const list: ChunkList
    const start: nat
    const memoryLimit: nat
    const reserved: nat  // the end of the area mapped for the heap
    var stop: nat

    // The heap stays within its reserved area, which has room up to the memory limit.
    predicate Within()
      reads this
    {
      0 < start && stop <= reserved && memoryLimit <= 8 * (reserved - start)
    }

    ghost predicate Valid()
      reads this, list
    {
      list.Valid() && Tiles(list.chunks, start, stop) && Within()
    }

    // The chunks and the end of the heap.
    ghost function Area(): State
      reads this, list
    {
      State(list.chunks, stop)
    }

    lemma AreaIs()
      ensures Area() == State(list.chunks, stop)
    {
    }

    // GC_GlobalAllocator_init: one free chunk of `bytes` bytes.
    constructor (start: nat, bytes: nat, limit: nat, reserved: nat)
      requires 0 < start && bytes >= 2 * BLOCK_BYTES && bytes % BLOCK_BYTES == 0
      requires start + bytes / 8 <= reserved && limit <= 8 * (reserved - start)
      ensures Valid() && fresh(list) && this.start == start && memoryLimit == limit && stop == start + bytes / 8
      ensures this.reserved == reserved
      ensures list.chunks == [FreeChunk(start, bytes / 8 - CHUNK_HEADER)]
    {
      this.start := start;
      memoryLimit := limit;
      this.reserved := reserved;
      stop := start + bytes / 8;
      list := new ChunkList();
      new;
      list.Init(start, bytes / 8 - CHUNK_HEADER);
      list.Push(start);
      ExtendedTiles([], start, start, bytes / 8);
      assert list.chunks == Extended([], start, bytes / 8);
    }

    function Bytes(): int
      reads this
    {
      8 * (stop - start)
    }

    // GlobalAllocator_tryAllocateLarge: the address of the payload, or 0.
    method TryAllocate(words: nat, atomic: bool) returns (pointer: nat)
      requires Valid()
      modifies list
      ensures Valid() && list.chunks == Placed(old(list.chunks), words + OBJECT_HEADER, atomic)
      ensures var i := FirstFit(old(list.chunks), words + OBJECT_HEADER);
              pointer == if i < |old(list.chunks)| then old(list.chunks)[i].address + CHUNK_WORDS else 0
      ensures pointer != 0 <==> FirstFit(old(list.chunks), words + OBJECT_HEADER) < |old(list.chunks)|
      ensures pointer == 0 ==>
                forall j | 0 <= j < |old(list.chunks)| ::
                  old(list.chunks)[j].used || old(list.chunks)[j].size < words + OBJECT_HEADER
      ensures pointer != 0 ==>
                exists i ::
                  && 0 <= i < |old(list.chunks)| && pointer == old(list.chunks)[i].address + CHUNK_WORDS
                  && !old(list.chunks)[i].used && words + OBJECT_HEADER <= old(list.chunks)[i].size
                  && forall j | 0 <= j < i ::
                       old(list.chunks)[j].used || old(list.chunks)[j].size < words + OBJECT_HEADER
      ensures Step(old(Area()), Place(words, atomic), Area())
    {
      hide *;
      PlacedEither(list.chunks, words + OBJECT_HEADER, atomic);
      PlacedStep(list.chunks, stop, words, atomic);
      FitIs(list.chunks, words + OBJECT_HEADER);
      AreaIs();
      var chunk;
      ghost var i;
      chunk, i := FindFit(words + OBJECT_HEADER);
      if chunk == 0 {
        return 0;
      }
      AddressAt(list.chunks, i);
      pointer := Give(chunk, words + OBJECT_HEADER, atomic, i);
      AreaIs();
    }

    // The loop of GlobalAllocator_tryAllocateLarge.
    method FindFit(size: nat) returns (chunk: nat, ghost i: nat)
      requires Valid()
      ensures i == FirstFit(list.chunks, size) <= |list.chunks| && chunk == Address(list.chunks, i)
      ensures chunk != 0 <==> i < |list.chunks|
    {
      i := 0;
      Ends(list.headers, list.first, list.last, list.size, list.chunks);
      hide Lists, Tiles;
      chunk := list.first;
      while chunk != 0
        invariant i <= |list.chunks| && chunk == Address(list.chunks, i) && (chunk == 0 ==> i == |list.chunks|)
        invariant forall j | 0 <= j < i :: !Suits(list.chunks[j], size)
        decreases |list.chunks| - i
      {
        At(list.headers, list.first, list.last, list.size, list.chunks, i);
        TilesAt(list.chunks, start, stop, i);
        assert start <= chunk < stop;
        if !list.headers[chunk].used && size <= list.headers[chunk].size {
          FirstFitIs(list.chunks, size, i);
          return;
        }
        chunk := list.headers[chunk].next;
        i := i + 1;
        if i < |list.chunks| {
          At(list.headers, list.first, list.last, list.size, list.chunks, i);
        }
      }
      FirstFitIs(list.chunks, size, i);
    }

    // Split and Chunk_allocate.
    method Give(chunk: nat, size: nat, atomic: bool, ghost i: nat) returns (pointer: nat)
      requires Valid() && i < |list.chunks| && chunk == list.chunks[i].address
      requires Suits(list.chunks[i], size) && size >= OBJECT_HEADER
      modifies list
      ensures Valid() && list.chunks == Allocate(old(list.chunks), i, size, atomic)
      ensures pointer == chunk + CHUNK_WORDS
    {
      ghost var cs := list.chunks;
      AllocateTiles(cs, start, stop, i, size, atomic);
      SplitThenUse(cs, i, size, atomic);
      var free := list.Split(chunk, size, i, start, stop);
      At(list.headers, list.first, list.last, list.size, list.chunks, i);
      list.Set(ChunkOf(chunk, list.headers[chunk]).(used := true, atomic := atomic), i);
      pointer := chunk + CHUNK_WORDS;
    }

    predicate MayGrow(increment: nat, smallSize: nat)
      reads this
    {
      smallSize + Bytes() + Growth(increment) <= memoryLimit
    }

    lemma MayGrowExact(increment: nat, smallSize: nat)
      ensures MayGrow(increment, smallSize) <==> smallSize + 8 * (stop - start) + Growth(increment) <= memoryLimit
    {
    }

    // GlobalAllocator_growLarge: ok is false where the source aborts.
    method Grow(increment: nat, smallSize: nat) returns (ok: bool)
      requires Valid()
      modifies this`stop, list
      ensures Valid() && ok == old(MayGrow(increment, smallSize)) && GrowthWords(increment) >= CHUNK_WORDS
      ensures ok <==> smallSize + 8 * (old(stop) - start) + Growth(increment) <= memoryLimit
      ensures stop == if ok then old(stop) + GrowthWords(increment) else old(stop)
      ensures list.chunks ==
              if ok then Extended(old(list.chunks), old(stop), GrowthWords(increment)) else old(list.chunks)
      ensures ok ==> Step(old(Area()), Extend(GrowthWords(increment)), Area())
      ensures ok ==> smallSize + Bytes() <= memoryLimit
    {
      GrowthExact(increment);
      var size := RoundUp(Power(CeilLog2(increment, 0)), BLOCK_BYTES);
      if smallSize + Bytes() + size > memoryLimit {
        return false;
      }
      var cursor := stop;
      ExtendedTiles(list.chunks, start, stop, size / 8);
      BelowStop(list.chunks, start, stop);
      stop := stop + size / 8;
      list.Init(cursor, size / 8 - CHUNK_HEADER);
      list.Push(cursor);
      ok := true;
    }

    // GC_GlobalAllocator_allocateLarge when no collection is due: ok is false
    // where the source aborts for lack of memory; it never fails otherwise.
    method AllocateLarge(size: nat, atomic: bool, smallSize: nat) returns (ok: bool, pointer: nat)
      requires Valid()
      modifies this`stop, list
      ensures Valid()
      ensures ok == (FirstFit(old(list.chunks), PayloadWords(size) + OBJECT_HEADER) < |old(list.chunks)|
                     || old(MayGrow(8 * (PayloadWords(size) + CHUNK_WORDS), smallSize)))
      ensures ok ==> PlacedAt(old(list.chunks), old(stop), list.chunks, stop, PayloadWords(size), atomic, pointer)
      ensures GrowthWords(8 * (PayloadWords(size) + CHUNK_WORDS)) >= CHUNK_WORDS
      ensures var more := GrowthWords(8 * (PayloadWords(size) + CHUNK_WORDS));
              && (stop == old(stop) || stop == old(stop) + more)
              && (ok ==> list.chunks == Placed(if stop == old(stop) then old(list.chunks)
                                               else Extended(old(list.chunks), old(stop), more),
                                               PayloadWords(size) + OBJECT_HEADER, atomic))
      ensures !ok ==> list.chunks == old(list.chunks)
      ensures ok ==>
                exists d ::
                  && d in list.chunks && d.used && d.atomic == atomic && pointer == d.address + CHUNK_WORDS
                  && size <= 8 * (d.size - OBJECT_HEADER) < size + 8 + 8 * CHUNK_MIN
      ensures ok <==>
                || (exists i ::
                      && 0 <= i < |old(list.chunks)| && !old(list.chunks)[i].used
                      && size + 8 * OBJECT_HEADER <= 8 * old(list.chunks)[i].size)
                || smallSize + 8 * (old(stop) - start) + Growth(8 * (PayloadWords(size) + CHUNK_WORDS)) <= memoryLimit
      ensures stop == old(stop) || (ok && smallSize + Bytes() <= memoryLimit)
      ensures stop != old(stop) ==>
                forall i | 0 <= i < |old(list.chunks)| ::
                  old(list.chunks)[i].used || 8 * old(list.chunks)[i].size < size + 8 * OBJECT_HEADER
    {
      hide *;
      var words := PayloadWords(size);
      ghost var cs := list.chunks;
      FitBytes(cs, size);
      MayGrowExact(8 * (words + CHUNK_WORDS), smallSize);
      PlacedEither(cs, words + OBJECT_HEADER, atomic);
      GrowthExact(8 * (words + CHUNK_WORDS));
      pointer := TryAllocate(words, atomic);
      if pointer != 0 {
        PlacedNow(cs, stop, words, atomic, pointer);
        PlacedBytes(cs, stop, list.chunks, stop, size, atomic, pointer);
        return true, pointer;
      }
      ok := Grow(8 * (words + CHUNK_WORDS), smallSize);
      if !ok {
        return;
      }
      pointer := TryAllocate(words, atomic);
      PlacedAfterGrowth(cs, old(stop), words, atomic, pointer);
      PlacedBytes(cs, old(stop), list.chunks, stop, size, atomic, pointer);
    }

    // GC_GlobalAllocator_deallocateLarge, without the finalizer: chunk i is free.
    method DeallocateLarge(pointer: nat, ghost i: nat)
      requires Valid() && i < |list.chunks| && pointer == list.chunks[i].address + CHUNK_WORDS
      modifies list
      ensures Valid() && list.chunks == old(list.chunks)[i := old(list.chunks)[i].(used := false)]
      ensures Step(old(Area()), Release(i), Area())
    {
      var chunk := pointer - CHUNK_WORDS;
      At(list.headers, list.first, list.last, list.size, list.chunks, i);
      TilesUpdate(list.chunks, start, stop, i, list.chunks[i].(used := false));
      list.Set(ChunkOf(chunk, list.headers[chunk]).(used := false), i);
    }
  }

  lemma SplitThenUse(cs: seq<Chunk>, i: nat, size: nat, atomic: bool)
    requires i < |cs| && size <= cs[i].size
    ensures var split := Chunks.Split(cs, i, size);
            && i < |split| && split[i].address == cs[i].address
            && split[i := split[i].(used := true, atomic := atomic)] == Allocate(cs, i, size, atomic)
  {
  }

  lemma BelowStop(cs: seq<Chunk>, start: nat, stop: nat)
    requires Tiles(cs, start, stop)
    ensures start <= stop && forall i: nat | i < |cs| :: cs[i].address < stop
  {
  }

  // The allocation at `pointer` turned free words, of a free chunk or of newly
  // added heap, into one more used chunk, and kept all other used chunks.
  ghost predicate PlacedAt(cs: seq<Chunk>, stop: nat, cs': seq<Chunk>, stop': nat, words: nat, atomic: bool,
      pointer: nat) {
    exists before, after, d ::
      && InUse(cs) == before + after && InUse(cs') == before + ([d] + after)
      && d.used && d.atomic == atomic && pointer == d.address + CHUNK_WORDS
      && words + OBJECT_HEADER <= d.size < words + OBJECT_HEADER + CHUNK_MIN
      && ((stop <= d.address && End(d) <= stop') || exists i :: 0 <= i < |cs| && Inside(d, cs[i]))
  }

  // d lies inside the free chunk c
  predicate Inside(d: Chunk, c: Chunk) {
    !c.used && c.address <= d.address && End(d) <= End(c)
  }

  // In bytes: the payload has room for the request, and little more.
  lemma PlacedBytes(cs: seq<Chunk>, stop: nat, cs': seq<Chunk>, stop': nat, size: nat, atomic: bool, pointer: nat)
    requires PlacedAt(cs, stop, cs', stop', PayloadWords(size), atomic, pointer)
    ensures exists d ::
              && d in cs' && d.used && d.atomic == atomic && pointer == d.address + CHUNK_WORDS
              && size <= 8 * (d.size - OBJECT_HEADER) < size + 8 + 8 * CHUNK_MIN
  {
    PayloadExact(size);
    hide PayloadWords;
    var before, after, d :|
      && InUse(cs) == before + after && InUse(cs') == before + ([d] + after)
      && d.used && d.atomic == atomic && pointer == d.address + CHUNK_WORDS
      && PayloadWords(size) + OBJECT_HEADER <= d.size < PayloadWords(size) + OBJECT_HEADER + CHUNK_MIN;
    assert d in InUse(cs');
    InUseMember(cs', d);
  }

  lemma {:induction false} InUseMember(cs: seq<Chunk>, c: Chunk)
    ensures c in InUse(cs) <==> c in cs && c.used
  {
    if cs != [] {
      assert c in cs <==> c == cs[0] || c in cs[1..];
      InUseMember(cs[1..], c);
    }
  }

  // A free chunk fits exactly if it has room for the request and the object header.
  lemma FitBytes(cs: seq<Chunk>, size: nat)
    ensures FirstFit(cs, PayloadWords(size) + OBJECT_HEADER) < |cs| <==>
            exists i :: 0 <= i < |cs| && !cs[i].used && size + 8 * OBJECT_HEADER <= 8 * cs[i].size
  {
    PayloadExact(size);
    FitIs(cs, PayloadWords(size) + OBJECT_HEADER);
    hide PayloadWords, FirstFit;
  }

  lemma PlacedNow(cs: seq<Chunk>, stop: nat, words: nat, atomic: bool, pointer: nat)
    requires var i := FirstFit(cs, words + OBJECT_HEADER);
             i < |cs| && pointer == cs[i].address + CHUNK_WORDS
    ensures PlacedAt(cs, stop, Placed(cs, words + OBJECT_HEADER, atomic), stop, words, atomic, pointer)
  {
    var i := FirstFit(cs, words + OBJECT_HEADER);
    AllocateInUse(cs, i, words + OBJECT_HEADER, atomic);
    var d := Given(cs[i], words + OBJECT_HEADER, atomic)[0];
    assert Inside(d, cs[i]);
  }

  lemma PlacedGrown(cs: seq<Chunk>, stop: nat, grown: seq<Chunk>, stop': nat, words: nat, atomic: bool, pointer: nat)
    requires |grown| == |cs| + 1 && grown[..|cs|] == cs && FirstFit(cs, words + OBJECT_HEADER) == |cs|
    requires stop + CHUNK_HEADER <= stop' && grown[|cs|] == FreeChunk(stop, stop' - stop - CHUNK_HEADER)
    requires var i := FirstFit(grown, words + OBJECT_HEADER);
             i < |grown| && pointer == grown[i].address + CHUNK_WORDS
    ensures PlacedAt(cs, stop, Placed(grown, words + OBJECT_HEADER, atomic), stop', words, atomic, pointer)
  {
    var size := words + OBJECT_HEADER;
    var i := FirstFit(grown, size);
    assert forall j | 0 <= j < |cs| :: grown[j] == grown[..|cs|][j];
    AllocateInUse(grown, i, size, atomic);
    var d := Given(grown[i], size, atomic)[0];
    assert grown[i + 1..] == [];
    assert InUse(grown) == InUse(cs) by {
      assert InUse([]) == [] && InUse(cs) + [] == InUse(cs);
    }
  }

  // The first fit after a growth: there is one, whatever the heap looked like.
  lemma PlacedAfterGrowth(cs: seq<Chunk>, stop: nat, words: nat, atomic: bool, pointer: nat)
    requires FirstFit(cs, words + OBJECT_HEADER) == |cs| && GrowthWords(8 * (words + CHUNK_WORDS)) >= CHUNK_WORDS
    requires var grown := Extended(cs, stop, GrowthWords(8 * (words + CHUNK_WORDS)));
             var i := FirstFit(grown, words + OBJECT_HEADER);
             pointer == if i < |grown| then grown[i].address + CHUNK_WORDS else 0
    ensures pointer != 0
    ensures var more := GrowthWords(8 * (words + CHUNK_WORDS));
            PlacedAt(cs, stop, Placed(Extended(cs, stop, more), words + OBJECT_HEADER, atomic), stop + more,
                     words, atomic, pointer)
  {
    GrowthFits(cs, stop, words);
    var more := GrowthWords(8 * (words + CHUNK_WORDS));
    PlacedGrown(cs, stop, Extended(cs, stop, more), stop + more, words, atomic, pointer);
  }
}
