// The chunks of the large heap as a value (include/chunk_list.h): a sequence of
// extents in list order.  Sizes and addresses count 8-byte words.
module Chunks {

  // The list link and flag, the same with the object header, and the smallest
  // remainder that is split off.
  const CHUNK_HEADER: nat := 2
  const CHUNK_WORDS: nat := 4
  const OBJECT_HEADER: nat := 2
  const CHUNK_MIN: nat := 8

  // `size` is the size of the object: its header and its payload.
  datatype Chunk = Chunk(address: nat, used: bool, size: nat, marked: bool, atomic: bool)

  function FreeChunk(address: nat, size: nat): Chunk {
    Chunk(address, false, size, false, false)
  }

  function Total(c: Chunk): nat {
    CHUNK_HEADER + c.size
  }

  function End(c: Chunk): nat {
    c.address + Total(c)
  }

  predicate Contains(c: Chunk, a: nat) {
    c.address + CHUNK_WORDS <= a < End(c)
  }

  // In bytes: from the payload's first byte up to the end of the chunk.
  lemma ContainsBytes(c: Chunk, pointer: nat)
    ensures Contains(c, pointer / 8) <==>
            8 * (c.address + CHUNK_WORDS) <= pointer < 8 * (c.address + CHUNK_HEADER + c.size)
  {
  }

  function Sum(cs: seq<Chunk>): nat {
    if cs == [] then 0 else Total(cs[0]) + Sum(cs[1..])
  }

  // The chunks lie one after the other from start to stop.
  predicate Tiles(cs: seq<Chunk>, start: nat, stop: nat) {
    if cs == [] then start == stop
    else cs[0].address == start && cs[0].size >= OBJECT_HEADER && Tiles(cs[1..], End(cs[0]), stop)
  }

  predicate Ordered(cs: seq<Chunk>) {
    forall i, j | 0 <= i < j < |cs| :: cs[i].address < cs[j].address
  }

  // Tilings of adjacent areas are the tilings of their union.
  lemma {:induction false} TilesConcat(a: seq<Chunk>, b: seq<Chunk>, start: nat, stop: nat)
    ensures Tiles(a + b, start, stop) <==> Tiles(a, start, start + Sum(a)) && Tiles(b, start + Sum(a), stop)
  {
    if a == [] {
      assert a + b == b;
    } else {
      assert (a + b)[1..] == a[1..] + b;
      TilesConcat(a[1..], b, End(a[0]), stop);
    }
  }

  // No byte is lost and none counted twice.
  lemma {:induction false} TilesSum(cs: seq<Chunk>, start: nat, stop: nat)
    requires Tiles(cs, start, stop)
    ensures start + Sum(cs) == stop
  {
    if cs != [] {
      TilesSum(cs[1..], End(cs[0]), stop);
    }
  }

  lemma {:induction false} TilesAt(cs: seq<Chunk>, start: nat, stop: nat, i: nat)
    requires Tiles(cs, start, stop) && i < |cs|
    ensures start <= cs[i].address && End(cs[i]) <= stop && cs[i].size >= OBJECT_HEADER
    ensures i == 0 ==> cs[i].address == start
    ensures End(cs[i]) == if i + 1 < |cs| then cs[i + 1].address else stop
    ensures Tiles(cs[i..], cs[i].address, stop)
  {
    TilesSum(cs, start, stop);
    if i > 0 {
      TilesAt(cs[1..], End(cs[0]), stop, i - 1);
      assert cs[1..][i - 1..] == cs[i..];
    } else {
      assert cs[0..] == cs;
      if |cs| > 1 {
        TilesAt(cs[1..], End(cs[0]), stop, 0);
      } else {
        assert cs[1..] == [];
      }
    }
  }

  lemma {:induction false} TilesOrdered(cs: seq<Chunk>, start: nat, stop: nat)
    requires Tiles(cs, start, stop)
    ensures Ordered(cs)
  {
    if cs != [] {
      TilesOrdered(cs[1..], End(cs[0]), stop);
      forall i, j | 0 <= i < j < |cs|
        ensures cs[i].address < cs[j].address
      {
        TilesAt(cs[1..], End(cs[0]), stop, j - 1);
      }
    }
  }

  // A tiling depends on addresses and sizes only.
  lemma {:induction false} SameExtents(cs: seq<Chunk>, cs': seq<Chunk>, start: nat, stop: nat)
    requires Tiles(cs, start, stop) && |cs'| == |cs|
    requires forall i | 0 <= i < |cs| :: cs'[i].address == cs[i].address && cs'[i].size == cs[i].size
    ensures Tiles(cs', start, stop)
  {
    if cs != [] {
      SameExtents(cs[1..], cs'[1..], End(cs[0]), stop);
    }
  }

  // At most one chunk contains an address.
  lemma ContainsUnique(cs: seq<Chunk>, start: nat, stop: nat, i: nat, j: nat, a: nat)
    requires Tiles(cs, start, stop) && i < |cs| && j < |cs| && Contains(cs[i], a) && Contains(cs[j], a)
    ensures i == j
  {
    if i < j {
      Apart(cs, start, stop, i, j);
    } else if j < i {
      Apart(cs, start, stop, j, i);
    }
  }

  lemma {:induction false} Apart(cs: seq<Chunk>, start: nat, stop: nat, i: nat, j: nat)
    requires Tiles(cs, start, stop) && i < j < |cs|
    ensures End(cs[i]) <= cs[j].address
  {
    if i == 0 {
      TilesAt(cs[1..], End(cs[0]), stop, j - 1);
    } else {
      Apart(cs[1..], End(cs[0]), stop, i - 1, j - 1);
    }
  }

  // ------------------------------------------------------------------- splitting

  function Replace(cs: seq<Chunk>, i: nat, pieces: seq<Chunk>): seq<Chunk>
    requires i < |cs|
  {
    cs[..i] + (pieces + cs[i + 1..])
  }

  lemma Cut(cs: seq<Chunk>, i: nat)
    requires i < |cs|
    ensures cs == Replace(cs, i, [cs[i]])
  {
  }

  // Pieces that tile the area of chunk i may take its place.
  lemma ReplaceTiles(cs: seq<Chunk>, start: nat, stop: nat, i: nat, pieces: seq<Chunk>)
    requires Tiles(cs, start, stop) && i < |cs| && Tiles(pieces, cs[i].address, End(cs[i]))
    ensures Tiles(Replace(cs, i, pieces), start, stop)
  {
    var rest := cs[i + 1..];
    Cut(cs, i);
    TilesAt(cs, start, stop, i);
    TilesConcat(cs[..i], [cs[i]] + rest, start, stop);
    assert ([cs[i]] + rest)[1..] == rest;
    TilesSum(pieces, cs[i].address, End(cs[i]));
    TilesConcat(pieces, rest, cs[i].address, stop);
    TilesConcat(cs[..i], pieces + rest, start, stop);
  }

  // ChunkList_split: the remainder becomes a chunk if it is not too small.
  function Pieces(c: Chunk, size: nat): seq<Chunk>
    requires size <= c.size
  {
    if c.size - size < CHUNK_MIN then [c]
    else [c.(size := size), FreeChunk(c.address + CHUNK_HEADER + size, c.size - size - CHUNK_HEADER)]
  }

  function Split(cs: seq<Chunk>, i: nat, size: nat): seq<Chunk>
    requires i < |cs| && size <= cs[i].size
  {
    Replace(cs, i, Pieces(cs[i], size))
  }

  lemma PiecesTile(c: Chunk, size: nat)
    requires OBJECT_HEADER <= size <= c.size
    ensures Tiles(Pieces(c, size), c.address, End(c))
  {
  }

  // The pieces once the first is given to the mutator.
  function Given(c: Chunk, size: nat, atomic: bool): seq<Chunk>
    requires size <= c.size
  {
    Pieces(c, size)[0 := Pieces(c, size)[0].(used := true, atomic := atomic)]
  }

  function Allocate(cs: seq<Chunk>, i: nat, size: nat, atomic: bool): seq<Chunk>
    requires i < |cs| && size <= cs[i].size
  {
    Replace(cs, i, Given(cs[i], size, atomic))
  }

  lemma {:induction false} TilesUpdate(cs: seq<Chunk>, start: nat, stop: nat, i: nat, c: Chunk)
    requires Tiles(cs, start, stop) && i < |cs| && c.address == cs[i].address && c.size == cs[i].size
    ensures Tiles(cs[i := c], start, stop)
  {
    assert cs[i := c] == Replace(cs, i, [c]);
    TilesAt(cs, start, stop, i);
    ReplaceTiles(cs, start, stop, i, [c]);
  }

  lemma AllocateTiles(cs: seq<Chunk>, start: nat, stop: nat, i: nat, size: nat, atomic: bool)
    requires Tiles(cs, start, stop) && i < |cs| && OBJECT_HEADER <= size <= cs[i].size
    ensures Tiles(Allocate(cs, i, size, atomic), start, stop)
  {
    var c := cs[i];
    PiecesTile(c, size);
    TilesUpdate(Pieces(c, size), c.address, End(c), 0, Pieces(c, size)[0].(used := true, atomic := atomic));
    ReplaceTiles(cs, start, stop, i, Given(c, size, atomic));
  }

  // The chunks that are in use, in address order.
  function InUse(cs: seq<Chunk>): seq<Chunk> {
    if cs == [] then []
    else if cs[0].used then [cs[0]] + InUse(cs[1..])
    else InUse(cs[1..])
  }

  lemma {:induction false} InUseConcat(a: seq<Chunk>, b: seq<Chunk>)
    ensures InUse(a + b) == InUse(a) + InUse(b)
  {
    if a == [] {
      assert a + b == b && InUse(a) + InUse(b) == InUse(b);
    } else {
      assert (a + b)[1..] == a[1..] + b;
      InUseConcat(a[1..], b);
      Assoc([a[0]], InUse(a[1..]), InUse(b));
    }
  }

  lemma Assoc(a: seq<Chunk>, b: seq<Chunk>, c: seq<Chunk>)
    ensures a + (b + c) == (a + b) + c
  {
  }

  lemma ReplaceInUse(cs: seq<Chunk>, i: nat, pieces: seq<Chunk>)
    requires i < |cs|
    ensures InUse(Replace(cs, i, pieces)) == InUse(cs[..i]) + (InUse(pieces) + InUse(cs[i + 1..]))
  {
    InUseConcat(cs[..i], pieces + cs[i + 1..]);
    InUseConcat(pieces, cs[i + 1..]);
  }

  lemma InUsePair(c: Chunk, d: Chunk)
    requires c.used && !d.used
    ensures InUse([c]) == [c] == InUse([c, d])
  {
    assert [c][1..] == [] && [c, d][1..] == [d] && [d][1..] == [];
  }

  lemma GivenInUse(c: Chunk, size: nat, atomic: bool)
    requires size <= c.size && !c.used
    ensures var d := Given(c, size, atomic)[0];
            && InUse(Given(c, size, atomic)) == [d]
            && d.used && d.atomic == atomic && size <= d.size < size + CHUNK_MIN
            && d.address == c.address && End(d) <= End(c)
  {
    var ps := Given(c, size, atomic);
    InUsePair(ps[0], c);
    if |ps| == 2 {
      InUsePair(ps[0], ps[1]);
      assert ps == [ps[0], ps[1]];
    } else {
      assert ps == [ps[0]];
    }
  }

  // Allocation adds one chunk to those in use, inside a free chunk, big enough
  // and less than a minimal chunk too big; every other chunk in use stays as it is.
  lemma AllocateInUse(cs: seq<Chunk>, i: nat, size: nat, atomic: bool)
    requires i < |cs| && size <= cs[i].size && !cs[i].used
    ensures var d := Given(cs[i], size, atomic)[0];
            && InUse(Allocate(cs, i, size, atomic)) == InUse(cs[..i]) + ([d] + InUse(cs[i + 1..]))
            && d.used && d.atomic == atomic && size <= d.size < size + CHUNK_MIN
            && d.address == cs[i].address && End(d) <= End(cs[i])
            && d.size == (if cs[i].size - size < CHUNK_MIN then cs[i].size else size)
    ensures InUse(cs) == InUse(cs[..i]) + InUse(cs[i + 1..])
  {
    GivenInUse(cs[i], size, atomic);
    ReplaceInUse(cs, i, Given(cs[i], size, atomic));
    Cut(cs, i);
    ReplaceInUse(cs, i, [cs[i]]);
    assert InUse([cs[i]]) == [] && [] + InUse(cs[i + 1..]) == InUse(cs[i + 1..]);
  }

  // -------------------------------------------------------------------- sweeping

  // The number of leading unmarked chunks.
  function RunLength(cs: seq<Chunk>): (n: nat)
    ensures n <= |cs| && (n < |cs| ==> cs[n].marked)
    ensures cs != [] && !cs[0].marked ==> n > 0
  {
    if cs == [] || cs[0].marked then 0 else 1 + RunLength(cs[1..])
  }

  lemma {:induction false} RunUnmarked(cs: seq<Chunk>)
    ensures forall i | 0 <= i < RunLength(cs) :: !cs[i].marked
  {
    if cs != [] {
      RunUnmarked(cs[1..]);
    }
  }

  // One free chunk in place of a run of unmarked ones.
  function Merged(run: seq<Chunk>): Chunk
    requires run != []
  {
    run[0].(used := false, size := Sum(run) - CHUNK_HEADER)
  }

  // Marked chunks stay, each maximal run of unmarked chunks becomes one.
  function Sweep(cs: seq<Chunk>): seq<Chunk> {
    if cs == [] then []
    else if cs[0].marked then [cs[0]] + Sweep(cs[1..])
    else
      var n := RunLength(cs);
      [Merged(cs[..n])] + Sweep(cs[n..])
  }

  function MarkedOf(cs: seq<Chunk>): seq<Chunk> {
    if cs == [] then [] else (if cs[0].marked then [cs[0]] else []) + MarkedOf(cs[1..])
  }

  // a belongs to a chunk that is not marked.
  ghost predicate Unmarked(cs: seq<Chunk>, a: nat) {
    exists i :: 0 <= i < |cs| && !cs[i].marked && cs[i].address <= a < End(cs[i])
  }

  lemma {:induction false} RunMarked(cs: seq<Chunk>)
    ensures MarkedOf(cs) == MarkedOf(cs[RunLength(cs)..])
  {
    if cs == [] || cs[0].marked {
      assert cs[0..] == cs;
    } else {
      assert cs[1..][RunLength(cs[1..])..] == cs[RunLength(cs)..];
      RunMarked(cs[1..]);
    }
  }

  lemma SumPositive(cs: seq<Chunk>)
    requires cs != []
    ensures Sum(cs) >= Total(cs[0])
  {
  }

  // Sweeping keeps every marked chunk with its address, size and flags.
  lemma {:induction false} SweepKeeps(cs: seq<Chunk>)
    ensures MarkedOf(Sweep(cs)) == MarkedOf(cs)
    decreases |cs|
  {
    if cs != [] {
      if cs[0].marked {
        SweepKeeps(cs[1..]);
        assert ([cs[0]] + Sweep(cs[1..]))[1..] == Sweep(cs[1..]);
      } else {
        var n := RunLength(cs);
        SweepKeeps(cs[n..]);
        RunMarked(cs);
        assert ([Merged(cs[..n])] + Sweep(cs[n..]))[1..] == Sweep(cs[n..]);
      }
    }
  }

  // The result tiles the same area.
  lemma {:induction false} SweepTiles(cs: seq<Chunk>, start: nat, stop: nat)
    requires Tiles(cs, start, stop)
    ensures Tiles(Sweep(cs), start, stop)
    decreases |cs|
  {
    if cs != [] {
      if cs[0].marked {
        SweepTiles(cs[1..], End(cs[0]), stop);
        assert ([cs[0]] + Sweep(cs[1..]))[1..] == Sweep(cs[1..]);
      } else {
        var n := RunLength(cs);
        var m := Merged(cs[..n]);
        assert cs == cs[..n] + cs[n..];
        TilesConcat(cs[..n], cs[n..], start, stop);
        SumPositive(cs[..n]);
        SweepTiles(cs[n..], End(m), stop);
        assert ([m] + Sweep(cs[n..]))[1..] == Sweep(cs[n..]);
      }
    }
  }

  // In the result a chunk is free if it is not marked, and no two such chunks
  // are adjacent.
  lemma {:induction false} SweepNormal(cs: seq<Chunk>)
    ensures forall i | 0 <= i < |Sweep(cs)| :: !Sweep(cs)[i].marked ==> !Sweep(cs)[i].used
    ensures forall i | 0 < i < |Sweep(cs)| :: Sweep(cs)[i - 1].marked || Sweep(cs)[i].marked
    ensures cs != [] ==> Sweep(cs) != [] && Sweep(cs)[0].marked == cs[0].marked
    decreases |cs|
  {
    if cs != [] {
      if cs[0].marked {
        SweepNormal(cs[1..]);
      } else {
        SweepNormal(cs[RunLength(cs)..]);
      }
    }
  }

  // The unmarked chunks of the result cover exactly what they covered before.
  lemma {:induction false} SweepCovers(cs: seq<Chunk>, start: nat, stop: nat, a: nat)
    requires Tiles(cs, start, stop)
    ensures Unmarked(Sweep(cs), a) <==> Unmarked(cs, a)
    decreases |cs|
  {
    if cs != [] {
      if cs[0].marked {
        SweepCovers(cs[1..], End(cs[0]), stop, a);
        UnmarkedConcat([cs[0]], cs[1..], a);
        UnmarkedConcat([cs[0]], Sweep(cs[1..]), a);
        assert [cs[0]] + cs[1..] == cs;
      } else {
        var n := RunLength(cs);
        var m := Merged(cs[..n]);
        assert cs == cs[..n] + cs[n..];
        TilesConcat(cs[..n], cs[n..], start, stop);
        SumPositive(cs[..n]);
        SweepCovers(cs[n..], End(m), stop, a);
        UnmarkedConcat(cs[..n], cs[n..], a);
        UnmarkedConcat([m], Sweep(cs[n..]), a);
        RunUnmarked(cs);
        RunCovers(cs[..n], start, End(m), a);
        assert [m][0] == m;
      }
    }
  }

  lemma UnmarkedConcat(b: seq<Chunk>, c: seq<Chunk>, a: nat)
    ensures Unmarked(b + c, a) <==> Unmarked(b, a) || Unmarked(c, a)
  {
    if i :| 0 <= i < |c| && !c[i].marked && c[i].address <= a < End(c[i]) {
      assert (b + c)[|b| + i] == c[i];
    }
    if i :| 0 <= i < |b| && !b[i].marked && b[i].address <= a < End(b[i]) {
      assert (b + c)[i] == b[i];
    }
  }

  lemma {:induction false} RunCovers(cs: seq<Chunk>, start: nat, stop: nat, a: nat)
    requires Tiles(cs, start, stop) && forall i | 0 <= i < |cs| :: !cs[i].marked
    ensures Unmarked(cs, a) <==> start <= a < stop
  {
    TilesSum(cs, start, stop);
    if cs != [] {
      RunCovers(cs[1..], End(cs[0]), stop, a);
      UnmarkedConcat([cs[0]], cs[1..], a);
      assert [cs[0]] + cs[1..] == cs;
      assert Unmarked([cs[0]], a) <==> start <= a < End(cs[0]) by {
        assert [cs[0]][0] == cs[0];
      }
    }
  }

  // ------------------------------------------------------- the sweep as written

  const TWO_31: nat := 0x8000_0000
  const TWO_32: nat := 0x1_0000_0000
  const TWO_64: nat := 0x1_0000_0000_0000_0000

  // Conversion to the 32-bit type int.
  function ToInt(x: nat): int {
    if x % TWO_32 < TWO_31 then x % TWO_32 else x % TWO_32 - TWO_32
  }

  // Chunk_size, in bytes, returns an int.
  function ChunkSize(c: Chunk): int {
    ToInt(8 * Total(c))
  }

  // ChunkList_limit, in bytes.
  function Limit(cs: seq<Chunk>): int
    requires cs != []
  {
    8 * cs[|cs| - 1].address + ChunkSize(cs[|cs| - 1])
  }

  // ChunkList_merge: the new size, modulo 2^64, of chunk 0 once the first n
  // chunks are merged.
  function MergedSize(cs: seq<Chunk>, n: nat): nat
    requires 0 < n <= |cs|
  {
    var stop := if n == |cs| then Limit(cs) else 8 * cs[n].address;
    (stop - 8 * cs[0].address - 8 * CHUNK_HEADER) % TWO_64 / 8
  }

  function SweepCode(cs: seq<Chunk>): seq<Chunk> {
    if cs == [] then []
    else if cs[0].marked then [cs[0]] + SweepCode(cs[1..])
    else
      var n := RunLength(cs);
      [Coalesced(cs, n)] + SweepCode(cs[n..])
  }

  function Coalesced(cs: seq<Chunk>, n: nat): Chunk
    requires 0 < n <= |cs|
  {
    cs[0].(used := false, size := if n == 1 then cs[0].size else MergedSize(cs, n))
  }

  // The last chunk takes part in a merge and its size does not fit an int.
  predicate Overflows(cs: seq<Chunk>) {
    |cs| >= 2 && !cs[|cs| - 2].marked && !cs[|cs| - 1].marked && 8 * Total(cs[|cs| - 1]) >= TWO_31
  }

  lemma ToIntExact(x: nat)
    ensures ToInt(x) == x <==> x < TWO_31
    ensures exists k: int :: ToInt(x) == x - TWO_32 * k && (x >= TWO_31 ==> k >= 1) && TWO_32 * k <= x + TWO_31
  {
    var k := x / TWO_32 + (if x % TWO_32 < TWO_31 then 0 else 1);
    assert ToInt(x) == x - TWO_32 * k;
  }

  lemma WordsOf(x: nat)
    requires 8 * x < TWO_64
    ensures (8 * x) % TWO_64 / 8 == x
  {
  }

  // Where the first n chunks end.
  lemma RunEnds(cs: seq<Chunk>, start: nat, stop: nat, n: nat)
    requires Tiles(cs, start, stop) && 0 < n <= |cs|
    ensures start + Sum(cs[..n]) == (if n < |cs| then cs[n].address else stop) == End(cs[n - 1]) <= stop
    ensures Sum(cs[..n]) >= CHUNK_WORDS
    ensures n == 1 ==> Sum(cs[..n]) == Total(cs[0])
    ensures n >= 2 ==> start + CHUNK_WORDS <= cs[n - 1].address
    ensures Tiles(cs[n..], start + Sum(cs[..n]), stop)
  {
    assert cs == cs[..n] + cs[n..];
    TilesConcat(cs[..n], cs[n..], start, stop);
    SumPositive(cs[..n]);
    TilesAt(cs, start, stop, n - 1);
    TilesSum(cs[n..], start + Sum(cs[..n]), stop);
    if n == 1 {
      assert cs[..1][1..] == [];
    } else {
      Apart(cs, start, stop, 0, n - 1);
    }
  }

  lemma CoalescedIs(cs: seq<Chunk>, n: nat)
    requires 0 < n <= |cs| && Sum(cs[..n]) >= CHUNK_HEADER
    ensures Coalesced(cs, n) == Merged(cs[..n]) <==>
            (if n == 1 then cs[0].size else MergedSize(cs, n)) == Sum(cs[..n]) - CHUNK_HEADER
  {
    hide Sum, MergedSize;
  }

  lemma CoalescedExact(cs: seq<Chunk>, start: nat, stop: nat, n: nat)
    requires Tiles(cs, start, stop) && 0 < n <= |cs| && 8 * stop < TWO_64 / 2
    ensures Coalesced(cs, n) == Merged(cs[..n]) <==> !(n == |cs| >= 2 && 8 * Total(cs[n - 1]) >= TWO_31)
  {
    RunEnds(cs, start, stop, n);
    CoalescedIs(cs, n);
    hide Tiles, Sum, ToInt, Coalesced, Merged;
    if n < |cs| {
      WordsOf(cs[n].address - start - CHUNK_HEADER);
    } else if n >= 2 {
      LimitExact(start, cs[n - 1].address, Total(cs[n - 1]));
    }
  }

  // The merge makes the first chunk larger, as the source asserts.
  lemma MergeGrows(cs: seq<Chunk>, start: nat, stop: nat, n: nat)
    requires Tiles(cs, start, stop) && 2 <= n <= |cs| && 8 * stop < TWO_64 / 2
    requires !(n == |cs| && 8 * Total(cs[n - 1]) >= TWO_31)
    ensures MergedSize(cs, n) > cs[0].size
  {
    CoalescedExact(cs, start, stop, n);
    RunEnds(cs, start, stop, n);
    assert Merged(cs[..n]).size == Sum(cs[..n]) - CHUNK_HEADER;
    Apart(cs, start, stop, 0, n - 1);
  }

  lemma LimitExact(start: nat, last: nat, total: nat)
    requires start + CHUNK_HEADER <= last && 8 * (last + total) < TWO_64 / 2
    ensures (8 * last + ToInt(8 * total) - 8 * start - 8 * CHUNK_HEADER) % TWO_64 / 8
            == last + total - start - CHUNK_HEADER
            <==> 8 * total < TWO_31
  {
    ToIntExact(8 * total);
    var k: int :| ToInt(8 * total) == 8 * total - TWO_32 * k && (8 * total >= TWO_31 ==> k >= 1)
        && TWO_32 * k <= 8 * total + TWO_31;
    var exact := 8 * (last + total - start - CHUNK_HEADER);
    var x := exact - TWO_32 * k;
    if x < 0 {
      assert -(TWO_64 as int) < x;
      assert x % TWO_64 == x + TWO_64;
    }
  }

  lemma RunAtEnd(cs: seq<Chunk>)
    requires cs != [] && !cs[0].marked
    ensures RunLength(cs) == |cs| ==> (Overflows(cs) <==> |cs| >= 2 && 8 * Total(cs[|cs| - 1]) >= TWO_31)
    ensures RunLength(cs) < |cs| ==> (Overflows(cs) <==> Overflows(cs[RunLength(cs)..]))
  {
  }

  // The sweep as written does what it should exactly when no merge has to
  // measure a last chunk of 2^31 bytes or more.
  lemma {:induction false} SweepCodeExact(cs: seq<Chunk>, start: nat, stop: nat)
    requires Tiles(cs, start, stop) && 8 * stop < TWO_64 / 2
    ensures SweepCode(cs) == Sweep(cs) <==> !Overflows(cs)
    decreases |cs|
  {
    if cs != [] {
      if cs[0].marked {
        SweepCodeExact(cs[1..], End(cs[0]), stop);
        assert SweepCode(cs)[1..] == SweepCode(cs[1..]) && Sweep(cs)[1..] == Sweep(cs[1..]);
        assert Overflows(cs) <==> Overflows(cs[1..]);
      } else {
        var n := RunLength(cs);
        CoalescedExact(cs, start, stop, n);
        RunAtEnd(cs);
        RunEnds(cs, start, stop, n);
        SweepCodeExact(cs[n..], start + Sum(cs[..n]), stop);
        assert SweepCode(cs)[1..] == SweepCode(cs[n..]) && Sweep(cs)[1..] == Sweep(cs[n..]);
        assert SweepCode(cs)[0] == Coalesced(cs, n) && Sweep(cs)[0] == Merged(cs[..n]);
      }
    }
  }

  // The swept list still tiles the heap exactly in that case.
  lemma {:induction false} SweepCodeTiles(cs: seq<Chunk>, start: nat, stop: nat)
    requires Tiles(cs, start, stop) && 8 * stop < TWO_64 / 2
    ensures Tiles(SweepCode(cs), start, stop) <==> !Overflows(cs)
    decreases |cs|
  {
    if cs != [] {
      if cs[0].marked {
        SweepCodeTiles(cs[1..], End(cs[0]), stop);
        assert SweepCode(cs)[1..] == SweepCode(cs[1..]);
        assert Overflows(cs) <==> Overflows(cs[1..]);
      } else {
        var n := RunLength(cs);
        CoalescedExact(cs, start, stop, n);
        RunAtEnd(cs);
        RunEnds(cs, start, stop, n);
        assert SweepCode(cs)[1..] == SweepCode(cs[n..]);
        if n < |cs| {
          SweepCodeTiles(cs[n..], start + Sum(cs[..n]), stop);
        }
      }
    }
  }

  // Otherwise the last chunk does not end where the heap ends.
  lemma {:induction false} SweepCodeEnd(cs: seq<Chunk>, start: nat, stop: nat)
    requires Tiles(cs, start, stop) && 8 * stop < TWO_64 / 2 && Overflows(cs)
    ensures SweepCode(cs) != [] && End(SweepCode(cs)[|SweepCode(cs)| - 1]) != stop
    decreases |cs|
  {
    if cs[0].marked {
      SweepCodeEnd(cs[1..], End(cs[0]), stop);
    } else {
      var n := RunLength(cs);
      CoalescedExact(cs, start, stop, n);
      RunAtEnd(cs);
      RunEnds(cs, start, stop, n);
      if n < |cs| {
        SweepCodeEnd(cs[n..], start + Sum(cs[..n]), stop);
      } else {
        assert SweepCode(cs[n..]) == [] && cs[..n] == cs;
      }
    }
  }

  // Two free chunks, the second of 2^31 bytes: the merged chunk is too small
  // by 2^32 bytes, modulo 2^64, and no longer tiles the heap.
  lemma OverflowExample()
    ensures var cs := [FreeChunk(4096, 4094), FreeChunk(8192, 0x1000_0000 - 2)];
            Tiles(cs, 4096, 8192 + 0x1000_0000) && !Tiles(SweepCode(cs), 4096, 8192 + 0x1000_0000)
  {
    var c, d := FreeChunk(4096, 4094), FreeChunk(8192, 0x1000_0000 - 2);
    var cs, stop := [c, d], 8192 + 0x1000_0000;
    assert cs[1..] == [d] && [d][1..] == [];
    assert RunLength([d]) == 1 && RunLength(cs) == 2;
    assert cs[2..] == [];
    var m := Coalesced(cs, 2);
    assert SweepCode(cs) == [m];
    assert [m][1..] == [];
    assert Total(d) == 0x1000_0000 && ToInt(8 * Total(d)) == -0x8000_0000;
  }
}
