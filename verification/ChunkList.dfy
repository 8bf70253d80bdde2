// The linked list of large chunks, updated in place (include/chunk_list.h).
module ChunkLists {
  import opened Chunks

  // A chunk header in memory; `next` is an address, 0 stands for NULL.
  datatype Header = Header(next: nat, used: bool, size: nat, marked: bool, atomic: bool)

  type Headers = map<nat, Header>

  function HeaderOf(c: Chunk, next: nat): Header {
    Header(next, c.used, c.size, c.marked, c.atomic)
  }

  function ChunkOf(address: nat, h: Header): Chunk {
    Chunk(address, h.used, h.size, h.marked, h.atomic)
  }

  // The address of chunk i, 0 past the end.
  function Address(cs: seq<Chunk>, i: nat): nat
    requires i <= |cs|
  {
    if i < |cs| then cs[i].address else 0
  }

  predicate HoldsAt(headers: Headers, cs: seq<Chunk>, i: nat)
    requires i < |cs|
  {
    cs[i].address in headers && headers[cs[i].address] == HeaderOf(cs[i], Address(cs, i + 1))
  }

  // The headers in memory link up the chunks of the list.
  ghost predicate Holds(headers: Headers, cs: seq<Chunk>) {
    && Ordered(cs)
    && (forall i: nat | i < |cs| :: cs[i].address > 0)
    && (forall i: nat | i < |cs| :: HoldsAt(headers, cs, i))
  }

  lemma HoldsUpdate(headers: Headers, cs: seq<Chunk>, i: nat, c: Chunk)
    requires Holds(headers, cs) && i < |cs| && c.address == cs[i].address
    ensures Holds(headers[c.address := HeaderOf(c, Address(cs, i + 1))], cs[i := c])
  {
    var headers', cs' := headers[c.address := HeaderOf(c, Address(cs, i + 1))], cs[i := c];
    forall j: nat | j < |cs'|
      ensures HoldsAt(headers', cs', j)
    {
      assert HoldsAt(headers, cs, j);
      assert Address(cs', j + 1) == Address(cs, j + 1);
      assert j != i ==> cs[j].address != cs[i].address;
    }
  }

  lemma HoldsUnlisted(headers: Headers, cs: seq<Chunk>, address: nat, h: Header)
    requires Holds(headers, cs) && forall i: nat | i < |cs| :: cs[i].address != address
    ensures Holds(headers[address := h], cs)
  {
    var headers' := headers[address := h];
    forall j: nat | j < |cs|
      ensures HoldsAt(headers', cs, j)
    {
      assert HoldsAt(headers, cs, j);
    }
  }

  // cs with c after its first i + 1 chunks
  function Inserted(cs: seq<Chunk>, i: nat, c: Chunk): seq<Chunk>
    requires i < |cs|
  {
    cs[..i + 1] + [c] + cs[i + 1..]
  }

  lemma InsertOrdered(cs: seq<Chunk>, i: nat, c: Chunk)
    requires Ordered(cs) && i < |cs| && cs[i].address < c.address && (i + 1 < |cs| ==> c.address < cs[i + 1].address)
    ensures Ordered(Inserted(cs, i, c))
  {
  }

  lemma HoldsInsert(headers: Headers, cs: seq<Chunk>, i: nat, c: Chunk)
    requires Holds(headers, cs) && i < |cs| && c.address in headers
    requires cs[i].address < c.address && (i + 1 < |cs| ==> c.address < cs[i + 1].address)
    ensures var linked := headers[c.address := HeaderOf(c, Address(cs, i + 1))];
            Holds(linked[cs[i].address := HeaderOf(cs[i], c.address)], Inserted(cs, i, c))
  {
    var headers' := headers[c.address := HeaderOf(c, Address(cs, i + 1))][cs[i].address := HeaderOf(cs[i], c.address)];
    var cs' := Inserted(cs, i, c);
    InsertOrdered(cs, i, c);
    forall j: nat | j < |cs'|
      ensures cs'[j].address > 0 && HoldsAt(headers', cs', j)
    {
      var k := if j <= i then j else j - 1;
      assert HoldsAt(headers, cs, k);
    }
  }

  function From(cs: seq<Chunk>, i: nat): seq<Chunk>
    requires i <= |cs|
  {
    cs[i..]
  }

  // cs with chunk i in place of the n chunks from i on
  function Joined(cs: seq<Chunk>, i: nat, n: nat, c: Chunk): seq<Chunk>
    requires 0 < n && i + n <= |cs|
  {
    cs[..i] + ([c] + cs[i + n..])
  }

  lemma HoldsClose(headers: Headers, cs: seq<Chunk>, i: nat, n: nat, c: Chunk)
    requires Holds(headers, cs) && 0 < n && i + n <= |cs| && c.address == cs[i].address
    ensures Holds(headers[c.address := HeaderOf(c, Address(cs, i + n))], Joined(cs, i, n, c))
  {
    var headers' := headers[c.address := HeaderOf(c, Address(cs, i + n))];
    var cs' := Joined(cs, i, n, c);
    forall j: nat | j < |cs'|
      ensures HoldsAt(headers', cs', j)
    {
      assert HoldsAt(headers, cs, if j <= i then j else j + n - 1);
      assert j < i ==> Address(cs', j + 1) == Address(cs, j + 1);
      assert j > i ==> cs'[j] == cs[j + n - 1] && Address(cs', j + 1) == Address(cs, j + n);
    }
  }

  // The three fields of a list and the headers in memory describe cs.
  ghost predicate Lists(headers: Headers, first: nat, last: nat, size: nat, cs: seq<Chunk>) {
    && Holds(headers, cs) && size == |cs|
    && (if cs == [] then first == 0 else first == cs[0].address && last == cs[|cs| - 1].address)
  }

  function WithPushed(headers: Headers, cs: seq<Chunk>, c: Chunk): Headers {
    var ended := headers[c.address := HeaderOf(c, 0)];
    if cs == [] then ended else ended[cs[|cs| - 1].address := HeaderOf(cs[|cs| - 1], c.address)]
  }

  lemma ListsPush(headers: Headers, first: nat, last: nat, size: nat, cs: seq<Chunk>, c: Chunk)
    requires Lists(headers, first, last, size, cs) && 0 < c.address && c.address in headers
    requires forall i: nat | i < |cs| :: cs[i].address < c.address
    ensures Lists(WithPushed(headers, cs, c), if cs == [] then c.address else first, c.address, size + 1, cs + [c])
  {
    if cs == [] {
      assert HoldsAt(WithPushed(headers, cs, c), [c], 0);
    } else {
      HoldsInsert(headers, cs, |cs| - 1, c);
      assert Inserted(cs, |cs| - 1, c) == cs + [c];
    }
  }

  lemma ListsInsert(headers: Headers, first: nat, last: nat, size: nat, cs: seq<Chunk>, i: nat, c: Chunk)
    requires Lists(headers, first, last, size, cs) && i < |cs| && c.address in headers
    requires cs[i].address < c.address && (i + 1 < |cs| ==> c.address < cs[i + 1].address)
    ensures var linked := headers[c.address := HeaderOf(c, Address(cs, i + 1))];
            Lists(linked[cs[i].address := HeaderOf(cs[i], c.address)], first, if i + 1 == |cs| then c.address else last,
                  size + 1, Inserted(cs, i, c))
  {
    HoldsInsert(headers, cs, i, c);
  }

  lemma ListsClose(headers: Headers, first: nat, last: nat, size: nat, cs: seq<Chunk>, i: nat, n: nat, c: Chunk)
    requires Lists(headers, first, last, size, cs) && 0 < n && i + n <= |cs| && c.address == cs[i].address
    ensures Lists(headers[c.address := HeaderOf(c, Address(cs, i + n))], first,
                  if i + n == |cs| then c.address else last, size - (n - 1), Joined(cs, i, n, c))
  {
    HoldsClose(headers, cs, i, n, c);
  }

  lemma ListsUnlisted(headers: Headers, first: nat, last: nat, size: nat, cs: seq<Chunk>, address: nat, h: Header)
    requires Lists(headers, first, last, size, cs) && forall i: nat | i < |cs| :: cs[i].address != address
    ensures Lists(headers[address := h], first, last, size, cs)
  {
    HoldsUnlisted(headers, cs, address, h);
  }

  // What the list says about chunk i.
  lemma At(headers: Headers, first: nat, last: nat, size: nat, cs: seq<Chunk>, i: nat)
    requires Lists(headers, first, last, size, cs) && i < |cs|
    ensures cs[i].address > 0 && HoldsAt(headers, cs, i)
  {
  }

  lemma LastAt(headers: Headers, first: nat, last: nat, size: nat, cs: seq<Chunk>, i: nat)
    requires Lists(headers, first, last, size, cs) && i < |cs|
    ensures first == cs[0].address && last == cs[|cs| - 1].address
    ensures cs[i].address == last <==> i + 1 == |cs|
  {
  }

  lemma Ends(headers: Headers, first: nat, last: nat, size: nat, cs: seq<Chunk>)
    requires Lists(headers, first, last, size, cs)
    ensures first == 0 <==> cs == []
    ensures first == Address(cs, 0) && Ordered(cs) && size == |cs|
  {
  }

  class ChunkList {
    // The part of memory that holds chunk headers.
    var headers: Headers
    var first: nat
    var last: nat
    var size: nat
    ghost var chunks: seq<Chunk>

    ghost predicate Valid()
      reads this
    {
      Lists(headers, first, last, size, chunks)
    }

    // What the header of chunk i says.
    lemma HeaderFacts(i: nat)
      requires Valid() && i < |chunks|
      ensures chunks[i].address in headers && ChunkOf(chunks[i].address, headers[chunks[i].address]) == chunks[i]
      ensures Unused(chunks[i]).address == chunks[i].address && Unused(chunks[i]).marked == chunks[i].marked
    {
      At(headers, first, last, size, chunks, i);
    }

    lemma StartFacts()
      requires Valid()
      ensures first == Address(chunks, 0) && size == |chunks| && (first == 0 <==> chunks == [])
      ensures forall i: nat | i < |chunks| :: Address(chunks, i) == chunks[i].address
    {
      Ends(headers, first, last, size, chunks);
    }

    // What validate compares at chunk i.
    lemma EndFacts(i: nat, heapStop: nat)
      requires Valid() && i < |chunks|
      ensures chunks[i].address in headers
      ensures var h := headers[chunks[i].address];
              && chunks[i].address + CHUNK_HEADER + h.size == End(chunks[i])
              && (h.next == 0 <==> i + 1 == |chunks|)
              && (h.next == 0 ==> chunks[i].address == last && i + 1 == size)
              && (h.next == 0 ==> Following(chunks, i, heapStop) == heapStop)
              && (h.next != 0 ==> h.next == Address(chunks, i + 1) == Following(chunks, i, heapStop))
    {
      At(headers, first, last, size, chunks, i);
      if i + 1 < |chunks| {
        At(headers, first, last, size, chunks, i + 1);
      }
    }

    // ChunkList_clear
    constructor ()
      ensures Valid() && chunks == []
    {
      headers, first, last, size := map[], 0, 0, 0;
      chunks := [];
    }

    // Chunk_init
    method Init(address: nat, objectSize: nat)
      requires Valid() && forall i: nat | i < |chunks| :: chunks[i].address != address
      modifies this`headers
      ensures Valid() && headers == old(headers)[address := HeaderOf(FreeChunk(address, objectSize), 0)]
    {
      ListsUnlisted(headers, first, last, size, chunks, address, Header(0, false, objectSize, false, false));
      headers := headers[address := Header(0, false, objectSize, false, false)];
    }

    predicate IsEmpty()
      reads this
    {
      first == 0
    }

    method Push(chunk: nat)
      requires Valid() && 0 < chunk && chunk in headers
      requires forall i: nat | i < |chunks| :: chunks[i].address < chunk
      modifies this
      ensures Valid() && chunks == old(chunks) + [ChunkOf(chunk, old(headers)[chunk])]
    {
      ghost var c, cs := ChunkOf(chunk, headers[chunk]), chunks;
      ListsPush(headers, first, last, size, cs, c);
      Ends(headers, first, last, size, cs);
      if cs != [] {
        At(headers, first, last, size, cs, |cs| - 1);
        LastAt(headers, first, last, size, cs, |cs| - 1);
      }
      hide Lists, Ordered;
      headers := headers[chunk := headers[chunk].(next := 0)];
      if IsEmpty() {
        first := chunk;
      } else {
        headers := headers[last := headers[last].(next := chunk)];
      }
      last := chunk;
      size := size + 1;
      chunks := chunks + [c];
    }

    // ChunkList_insert, after chunk i.
    method Insert(chunk: nat, after: nat, ghost i: nat)
      requires Valid() && i < |chunks| && after == chunks[i].address && chunk in headers
      requires after < chunk && (i + 1 < |chunks| ==> chunk < chunks[i + 1].address)
      modifies this
      ensures Valid() && chunks == Inserted(old(chunks), i, ChunkOf(chunk, old(headers)[chunk]))
    {
      ghost var c := ChunkOf(chunk, headers[chunk]);
      ListsInsert(headers, first, last, size, chunks, i, c);
      At(headers, first, last, size, chunks, i);
      LastAt(headers, first, last, size, chunks, i);
      hide Lists, Inserted;
      if after == last {
        headers := headers[chunk := headers[chunk].(next := 0)];
        headers := headers[last := headers[last].(next := chunk)];
        last := chunk;
      } else {
        headers := headers[chunk := headers[chunk].(next := headers[after].next)];
        headers := headers[after := headers[after].(next := chunk)];
      }
      size := size + 1;
      chunks := Inserted(chunks, i, c);
    }

    // The fields of chunk i in place.
    method Set(c: Chunk, ghost i: nat)
      requires Valid() && i < |chunks| && c.address == chunks[i].address
      modifies this`headers, this`chunks
      ensures Valid() && chunks == old(chunks)[i := c]
    {
      At(headers, first, last, size, chunks, i);
      HoldsUpdate(headers, chunks, i, c);
      headers := headers[c.address := HeaderOf(c, headers[c.address].next)];
      chunks := chunks[i := c];
    }

    // ChunkList_split: chunk i is cut after objectSize words.
    method Split(chunk: nat, objectSize: nat, ghost i: nat, ghost start: nat, ghost stop: nat)
      returns (free: nat)
      requires Valid() && Tiles(chunks, start, stop)
      requires i < |chunks| && chunk == chunks[i].address && objectSize <= chunks[i].size
      modifies this
      ensures Valid() && chunks == Chunks.Split(old(chunks), i, objectSize)
      ensures free == 0 <==> old(chunks)[i].size - objectSize < CHUNK_MIN
    {
      At(headers, first, last, size, chunks, i);
      var remaining := headers[chunk].size - objectSize;
      if remaining < CHUNK_MIN {
        Cut(chunks, i);
        return 0;
      }
      TilesAt(chunks, start, stop, i);
      hide Tiles, Lists;
      free := Carve(chunk, objectSize, remaining, i);
      assert chunk + CHUNK_HEADER + objectSize == free;
      assert headers[free].next != 0 ==> free + remaining == headers[free].next;
    }

    // The part of ChunkList_split that inserts a chunk.
    method Carve(chunk: nat, objectSize: nat, remaining: nat, ghost i: nat) returns (free: nat)
      requires Valid() && i < |chunks| && chunk == chunks[i].address && objectSize + remaining == chunks[i].size
      requires remaining >= CHUNK_MIN && (i + 1 < |chunks| ==> End(chunks[i]) == chunks[i + 1].address)
      modifies this
      ensures Valid() && chunks == Chunks.Split(old(chunks), i, objectSize)
      ensures free == chunk + CHUNK_HEADER + objectSize && free in headers
      ensures headers[free].next == if i + 1 < |old(chunks)| then old(chunks)[i + 1].address else 0
    {
      ghost var cs := chunks;
      At(headers, first, last, size, cs, i);
      Ends(headers, first, last, size, cs);
      var c := ChunkOf(chunk, headers[chunk]).(size := objectSize);
      free := chunk + CHUNK_HEADER + objectSize;
      Carved(cs, i, objectSize);
      assert c == Resized(cs[i], objectSize) && free == Remainder(cs[i], objectSize).address;
      assert ChunkOf(free, HeaderOf(Remainder(cs[i], objectSize), 0)) == Remainder(cs[i], objectSize);
      assert FreeChunk(free, remaining - CHUNK_HEADER) == Remainder(cs[i], objectSize);
      hide *;
      Set(c, i);
      Init(free, remaining - CHUNK_HEADER);
      Insert(free, chunk, i);
      At(headers, first, last, size, chunks, i + 1);
      NextOf(headers, chunks, i + 1);
    }

    // ChunkList_find: the chunk that contains a byte pointer, or 0.
    method Find(pointer: nat) returns (chunk: nat)
      requires Valid()
      ensures chunk == 0 ==> forall j :: 0 <= j < |chunks| ==>
                !(8 * (chunks[j].address + CHUNK_WORDS) <= pointer
                  < 8 * (chunks[j].address + CHUNK_HEADER + chunks[j].size))
      ensures chunk != 0 ==>
                exists j ::
                  && 0 <= j < |chunks| && chunks[j].address == chunk
                  && 8 * (chunk + CHUNK_WORDS) <= pointer < 8 * (chunk + CHUNK_HEADER + chunks[j].size)
    {
      ghost var i := 0;
      chunk := first;
      while chunk != 0
        invariant i <= |chunks| && chunk == Address(chunks, i)
        invariant forall j :: 0 <= j < i ==>
          !(8 * (chunks[j].address + CHUNK_WORDS) <= pointer < 8 * (chunks[j].address + CHUNK_HEADER + chunks[j].size))
        decreases |chunks| - i
      {
        At(headers, first, last, size, chunks, i);
        if 8 * (chunk + CHUNK_WORDS) <= pointer < 8 * (chunk + CHUNK_HEADER + headers[chunk].size) {
          return;
        }
        chunk := headers[chunk].next;
        i := i + 1;
      }
    }

    // ChunkList_merge: chunk i takes over the n - 1 chunks before `limit`.
    method Merge(chunk: nat, limit: nat, count: nat, ghost i: nat, ghost n: nat)
      requires Valid() && n >= 2 && i + n <= |chunks| && chunk == chunks[i].address
      requires limit == Address(chunks, i + n) && count == n - 1
      modifies this
      ensures Valid()
      ensures chunks == Joined(old(chunks), i, n, old(chunks)[i].(size := MergedSize(From(old(chunks), i), n)))
    {
      ghost var cs := chunks;
      At(headers, first, last, size, cs, i);
      At(headers, first, last, size, cs, |cs| - 1);
      LastAt(headers, first, last, size, cs, i);
      ListsClose(headers, first, last, size, cs, i, n, cs[i].(size := MergedSize(From(cs, i), n)));
      hide Lists, Joined;
      var stop: int := if limit == 0 then 8 * last + ToInt(8 * (CHUNK_HEADER + headers[last].size)) else 8 * limit;
      var merged: nat := (stop - 8 * chunk - 8 * CHUNK_HEADER) % TWO_64 / 8;
      ghost var c := cs[i].(size := merged);
      assert c.size == MergedSize(From(cs, i), n);
      headers := headers[chunk := headers[chunk].(next := limit, size := merged)];
      chunks := Joined(cs, i, n, c);
      if limit == 0 {
        last := chunk;
      }
      size := size - count;
    }

    // The first marked chunk after chunk i, or 0, and how many were passed.
    method RunEnd(chunk: nat, ghost i: nat) returns (limit: nat, count: nat)
      requires Valid() && i < |chunks| && chunk == chunks[i].address && !chunks[i].marked
      ensures count + 1 == RunLength(From(chunks, i)) <= |chunks| - i && limit == Address(chunks, i + 1 + count)
      ensures chunk in headers && (limit == headers[chunk].next <==> count == 0)
    {
      At(headers, first, last, size, chunks, i);
      hide Lists;
      limit := headers[chunk].next;
      count := 0;
      while limit != 0 && !headers[limit].marked
        invariant i + 1 + count <= |chunks| && limit == Address(chunks, i + 1 + count)
        invariant limit != 0 ==> HoldsAt(headers, chunks, i + 1 + count)
        invariant forall j :: i <= j < i + 1 + count ==> !chunks[j].marked
        decreases |chunks| - count
      {
        limit := headers[limit].next;
        count := count + 1;
        if limit != 0 {
          At(headers, first, last, size, chunks, i + 1 + count);
        }
      }
      RunIs(chunks[i..], 1 + count);
    }

    // Chunk i takes over the unmarked chunks behind it, if there are any.
    method JoinRun(chunk: nat, ghost i: nat) returns (limit: nat)
      requires Valid() && i < |chunks| && chunk == chunks[i].address && !chunks[i].marked
      modifies this
      ensures Valid()
      ensures chunks == JoinedRun(old(chunks), i) && limit == Address(old(chunks), i + RunLength(From(old(chunks), i)))
    {
      ghost var cs := chunks;
      JoinedAlone(cs, i);
      hide *;
      var count;
      limit, count := RunEnd(chunk, i);
      if limit != headers[chunk].next {
        Merge(chunk, limit, count, i, 1 + count);
      }
    }

    // The unmarked run that starts at chunk i becomes one free chunk.
    method FreeRun(chunk: nat, ghost i: nat) returns (limit: nat)
      requires Valid() && i < |chunks| && chunk == chunks[i].address && !chunks[i].marked
      modifies this
      ensures Valid() && i < |chunks|
      ensures chunks == Freed(old(chunks), i) && limit == Address(chunks, i + 1)
    {
      hide *;
      HeaderFacts(i);
      FreedRun(chunks, i);
      var c := Unused(ChunkOf(chunk, headers[chunk]));
      Set(c, i);
      limit := JoinRun(chunk, i);
    }

    // ChunkList_sweep
    method Sweep()
      requires Valid()
      modifies this
      ensures Valid() && chunks == SweepCode(old(chunks))
    {
      ghost var cs, i := chunks, 0;
      var chunk := first;
      assert chunks[0..] == chunks;
      while chunk != 0
        invariant Valid() && i <= |chunks| && chunk == Address(chunks, i)
        invariant chunks[..i] + SweepCode(chunks[i..]) == SweepCode(cs)
        decreases |chunks| - i
      {
        At(headers, first, last, size, chunks, i);
        if headers[chunk].marked {
          SweepOn(chunks, i);
          chunk := headers[chunk].next;
        } else {
          SweepRun(chunks, i);
          chunk := FreeRun(chunk, i);
        }
        i := i + 1;
      }
      assert chunks[i..] == [] && chunks[..i] == chunks;
    }

    // ChunkList_validate: false where the source aborts.
    method Validate(heapStop: nat) returns (ok: bool)
      requires Valid()
      ensures ok <==> chunks == [] || Chained(chunks, heapStop)
    {
      hide *;
      StartFacts();
      var count: nat, chunk := 0, first;
      while chunk != 0
        invariant (chunk == 0 ==> chunks == []) && count <= |chunks| && chunk == Address(chunks, count)
        invariant chunks != [] ==> count < |chunks|
        invariant forall j: nat | j < count :: End(chunks[j]) == Following(chunks, j, heapStop)
        decreases |chunks| - count
      {
        ghost var i := count;
        EndFacts(i, heapStop);
        count := count + 1;
        var actual := chunk + CHUNK_HEADER + headers[chunk].size;
        if headers[chunk].next == 0 {
          AllChained(chunks, heapStop);
          return actual == heapStop && chunk == last && count == size;
        }
        if actual != headers[chunk].next {
          NotChained(chunks, heapStop, i);
          return false;
        }
        chunk := headers[chunk].next;
      }
      return true;
    }
  }

  // The address where chunk i should end.
  function Following(cs: seq<Chunk>, i: nat, stop: nat): nat
    requires i < |cs|
  {
    if i + 1 < |cs| then cs[i + 1].address else stop
  }

  // Each chunk ends where the next one begins, the last one at stop.
  predicate Chained(cs: seq<Chunk>, stop: nat) {
    forall i: nat | i < |cs| :: End(cs[i]) == Following(cs, i, stop)
  }

  function Resized(c: Chunk, size: nat): Chunk {
    c.(size := size)
  }

  function Remainder(c: Chunk, size: nat): Chunk
    requires size + CHUNK_HEADER <= c.size
  {
    FreeChunk(c.address + CHUNK_HEADER + size, c.size - size - CHUNK_HEADER)
  }

  lemma NextOf(headers: Headers, cs: seq<Chunk>, i: nat)
    requires i < |cs| && HoldsAt(headers, cs, i)
    ensures cs[i].address in headers && headers[cs[i].address].next == Address(cs, i + 1)
  {
  }

  lemma Carved(cs: seq<Chunk>, i: nat, size: nat)
    requires Ordered(cs) && i < |cs| && size + CHUNK_MIN <= cs[i].size
    requires i + 1 < |cs| ==> End(cs[i]) == cs[i + 1].address
    ensures var c, d := Resized(cs[i], size), Remainder(cs[i], size);
            var cs', t := cs[i := c], Inserted(cs[i := c], i, d);
            && t == Chunks.Split(cs, i, size)
            && i + 1 < |t| && t[i + 1] == d && Address(t, i + 2) == Address(cs, i + 1)
            && cs'[i].address < d.address && (i + 1 < |cs'| ==> d.address < cs'[i + 1].address)
            && forall j: nat | j < |cs'| :: cs'[j].address != d.address
  {
  }

  lemma AllChained(cs: seq<Chunk>, stop: nat)
    requires cs != [] && forall i: nat | i < |cs| - 1 :: End(cs[i]) == Following(cs, i, stop)
    ensures Chained(cs, stop) <==> End(cs[|cs| - 1]) == stop
  {
    assert Following(cs, |cs| - 1, stop) == stop;
  }

  lemma NotChained(cs: seq<Chunk>, stop: nat, i: nat)
    requires i < |cs| && End(cs[i]) != Following(cs, i, stop)
    ensures !Chained(cs, stop)
  {
  }

  lemma {:induction false} RunIs(cs: seq<Chunk>, n: nat)
    requires n <= |cs| && (forall j: nat | j < n :: !cs[j].marked) && (n < |cs| ==> cs[n].marked)
    ensures RunLength(cs) == n
  {
    if n > 0 {
      RunIs(cs[1..], n - 1);
    }
  }

  lemma {:induction false} SameRun(cs: seq<Chunk>, cs': seq<Chunk>)
    requires |cs'| == |cs| && forall j: nat | j < |cs| :: cs'[j].marked == cs[j].marked
    ensures RunLength(cs') == RunLength(cs)
  {
    if cs != [] {
      SameRun(cs[1..], cs'[1..]);
    }
  }

  function Unused(c: Chunk): Chunk {
    c.(used := false)
  }

  // cs with the run that starts at chunk i freed
  function Freed(cs: seq<Chunk>, i: nat): seq<Chunk>
    requires i < |cs| && !cs[i].marked
  {
    Joined(cs, i, RunLength(From(cs, i)), Coalesced(From(cs, i), RunLength(From(cs, i))))
  }

  // cs with the unmarked run that starts at chunk i joined
  function JoinedRun(cs: seq<Chunk>, i: nat): seq<Chunk>
    requires i < |cs| && !cs[i].marked
  {
    var n := RunLength(From(cs, i));
    Joined(cs, i, n, if n == 1 then cs[i] else cs[i].(size := MergedSize(From(cs, i), n)))
  }

  lemma JoinedAlone(cs: seq<Chunk>, i: nat)
    requires i < |cs| && !cs[i].marked
    ensures var n := RunLength(From(cs, i));
            && 0 < n && i + n <= |cs|
            && (n == 1 ==> JoinedRun(cs, i) == cs)
            && (n != 1 ==> JoinedRun(cs, i) == Joined(cs, i, n, cs[i].(size := MergedSize(From(cs, i), n))))
  {
    JoinedOne(cs, i, cs[i]);
  }

  // Freeing the first chunk of a run, then joining the run.
  lemma FreedRun(cs: seq<Chunk>, i: nat)
    requires i < |cs| && !cs[i].marked
    ensures var cs' := cs[i := Unused(cs[i])];
            && JoinedRun(cs', i) == Freed(cs, i) && i < |Freed(cs, i)|
            && Address(Freed(cs, i), i + 1) == Address(cs', i + RunLength(From(cs', i)))
  {
    var c := Unused(cs[i]);
    var n, cs' := RunLength(From(cs, i)), cs[i := c];
    SameRun(From(cs, i), From(cs', i));
    SameMerge(From(cs, i), From(cs', i), n);
    JoinedUpdate(cs, i, n, Coalesced(From(cs, i), n), c);
    JoinedNext(cs, i, n, Coalesced(From(cs, i), n));
    assert cs'[i] == c && From(cs, i)[0] == cs[i];
  }

  lemma JoinedNext(cs: seq<Chunk>, i: nat, n: nat, c: Chunk)
    requires 0 < n && i + n <= |cs|
    ensures |Joined(cs, i, n, c)| == |cs| - n + 1 && Address(Joined(cs, i, n, c), i + 1) == Address(cs, i + n)
  {
  }

  lemma SameMerge(cs: seq<Chunk>, cs': seq<Chunk>, n: nat)
    requires 0 < n <= |cs| == |cs'|
    requires forall j: nat | j < |cs| :: cs'[j].address == cs[j].address && cs'[j].size == cs[j].size
    ensures MergedSize(cs', n) == MergedSize(cs, n)
  {
  }

  lemma SweepOn(cs: seq<Chunk>, i: nat)
    requires i < |cs| && cs[i].marked
    ensures cs[..i + 1] + SweepCode(cs[i + 1..]) == cs[..i] + SweepCode(cs[i..])
  {
    assert cs[i..][1..] == cs[i + 1..];
  }

  lemma JoinedParts(cs: seq<Chunk>, i: nat, n: nat, c: Chunk, rest: seq<Chunk>)
    requires 0 < n && i + n <= |cs|
    ensures Joined(cs, i, n, c)[i + 1..] == cs[i + n..] == cs[i..][n..]
    ensures Joined(cs, i, n, c)[..i + 1] + rest == cs[..i] + ([c] + rest)
  {
  }

  lemma SweepRun(cs: seq<Chunk>, i: nat)
    requires i < |cs| && !cs[i].marked
    ensures var n := RunLength(cs[i..]);
            && 0 < n <= |cs| - i && i < |Freed(cs, i)|
            && var cs' := Freed(cs, i);
               cs'[..i + 1] + SweepCode(cs'[i + 1..]) == cs[..i] + SweepCode(cs[i..])
  {
    var n := RunLength(cs[i..]);
    JoinedParts(cs, i, n, Coalesced(cs[i..], n), SweepCode(cs[i..][n..]));
  }

  lemma JoinedOne(cs: seq<Chunk>, i: nat, c: Chunk)
    requires i < |cs|
    ensures Joined(cs, i, 1, c) == cs[i := c]
  {
  }

  lemma JoinedUpdate(cs: seq<Chunk>, i: nat, n: nat, c: Chunk, c': Chunk)
    requires 0 < n && i + n <= |cs|
    ensures Joined(cs[i := c'], i, n, c) == Joined(cs, i, n, c)
  {
  }

  // Tilings are exactly what the source's own check accepts.
  lemma {:induction false} TilesChained(cs: seq<Chunk>, stop: nat)
    requires cs != []
    ensures Tiles(cs, cs[0].address, stop) <==>
              Chained(cs, stop) && forall i | 0 <= i < |cs| :: cs[i].size >= OBJECT_HEADER
  {
    if |cs| == 1 {
      assert cs[1..] == [];
      assert Following(cs, 0, stop) == stop;
    } else {
      TilesChained(cs[1..], stop);
      assert Following(cs, 0, stop) == cs[1].address;
      assert forall i: nat | i < |cs| - 1 :: Following(cs[1..], i, stop) == Following(cs, i + 1, stop);
    }
  }

  // So validate would notice every sweep that went wrong.
  lemma SweepValidates(cs: seq<Chunk>, start: nat, stop: nat)
    requires Tiles(cs, start, stop) && 8 * stop < TWO_64 / 2
    ensures SweepCode(cs) == [] || Chained(SweepCode(cs), stop) <==> !Overflows(cs)
  {
    var swept := SweepCode(cs);
    SweepCodeTiles(cs, start, stop);
    hide SweepCode;
    if Overflows(cs) {
      SweepCodeEnd(cs, start, stop);
      assert Following(swept, |swept| - 1, stop) == stop;
    } else if swept != [] {
      TilesChained(swept, stop);
    }
  }
}
