// The large heap as a state machine: allocations, releases, growth and sweeps in
// any order.
module LargeRuns {
  import opened Chunks
  import opened LargeSteps
  import opened LargeHeaps

  lemma MarksTile(cs: seq<Chunk>, marked: set<nat>, start: nat, stop: nat)
    requires Tiles(cs, start, stop)
    ensures Tiles(Marks(cs, marked), start, stop)
  {
    SameExtents(cs, Marks(cs, marked), start, stop);
  }

  lemma StepTiles(st: State, a: Action, st': State, start: nat)
    requires Tiles(st.chunks, start, st.stop) && Step(st, a, st') && Guard(st, a)
    ensures Tiles(st'.chunks, start, st'.stop)
  {
    hide Tiles, SweepCode, Overflows, Allocate, Marks;
    match a
    case Place(words, atomic) =>
      var i := FirstFit(st.chunks, words + OBJECT_HEADER);
      if i < |st.chunks| {
        AllocateTiles(st.chunks, start, st.stop, i, words + OBJECT_HEADER, atomic);
      }
    case Release(i) =>
      TilesUpdate(st.chunks, start, st.stop, i, st.chunks[i].(used := false));
    case Extend(words) =>
      ExtendedTiles(st.chunks, start, st.stop, words);
    case Collect(marked) =>
      MarksTile(st.chunks, marked, start, st.stop);
      SweepCodeTiles(Marks(st.chunks, marked), start, st.stop);
  }

  // A used chunk with these fields is in the list.
  ghost predicate Holds(cs: seq<Chunk>, address: nat, size: nat, atomic: bool) {
    exists i :: 0 <= i < |cs| && IsUsed(cs[i], address, size, atomic)
  }

  predicate IsUsed(c: Chunk, address: nat, size: nat, atomic: bool) {
    c.used && c.address == address && c.size == size && c.atomic == atomic
  }

  // The action does not give the chunk at the address back.
  predicate Spares(st: State, a: Action, address: nat) {
    match a
    case Release(i) => i < |st.chunks| ==> st.chunks[i].address != address
    case Collect(marked) => forall i: nat | i < |st.chunks| && st.chunks[i].address == address :: i in marked
    case _ => true
  }

  lemma {:induction false} MarkedMember(cs: seq<Chunk>, c: Chunk)
    ensures c in MarkedOf(cs) <==> c in cs && c.marked
  {
    if cs != [] {
      assert c in cs <==> c == cs[0] || c in cs[1..];
      MarkedMember(cs[1..], c);
    }
  }

  lemma PlaceKeeps(cs: seq<Chunk>, words: nat, atomic: bool, address: nat, size: nat, flag: bool)
    requires Holds(cs, address, size, flag)
    ensures Holds(Placed(cs, words + OBJECT_HEADER, atomic), address, size, flag)
  {
    var i := FirstFit(cs, words + OBJECT_HEADER);
    var j :| 0 <= j < |cs| && IsUsed(cs[j], address, size, flag);
    if i < |cs| {
      var pieces := Given(cs[i], words + OBJECT_HEADER, atomic);
      assert j != i;
      var k := if j < i then j else j + |pieces| - 1;
      assert Placed(cs, words + OBJECT_HEADER, atomic)[k] == cs[j];
    }
  }

  lemma CollectKeeps(cs: seq<Chunk>, marked: set<nat>, start: nat, stop: nat, j: nat)
    requires Tiles(cs, start, stop) && 8 * stop < TWO_64 / 2 && !Overflows(Marks(cs, marked))
    requires j < |cs| && cs[j].used && j in marked
    ensures Holds(SweepCode(Marks(cs, marked)), cs[j].address, cs[j].size, cs[j].atomic)
  {
    var ms := Marks(cs, marked);
    MarksTile(cs, marked, start, stop);
    SweepCodeExact(ms, start, stop);
    SweepKeeps(ms);
    assert ms[j] in ms;
    MarkedMember(ms, ms[j]);
    MarkedMember(Sweep(ms), ms[j]);
    var k :| 0 <= k < |Sweep(ms)| && Sweep(ms)[k] == ms[j];
    assert IsUsed(Sweep(ms)[k], cs[j].address, cs[j].size, cs[j].atomic);
  }

  lemma SameAt(cs: seq<Chunk>, cs': seq<Chunk>, j: nat, address: nat, size: nat, atomic: bool)
    requires j < |cs| && j < |cs'| && cs'[j] == cs[j] && IsUsed(cs[j], address, size, atomic)
    ensures Holds(cs', address, size, atomic)
  {
  }

  lemma StepKeeps(st: State, a: Action, st': State, start: nat, address: nat, size: nat, atomic: bool)
    requires Tiles(st.chunks, start, st.stop) && Step(st, a, st') && Guard(st, a)
    requires Holds(st.chunks, address, size, atomic) && Spares(st, a, address)
    ensures Holds(st'.chunks, address, size, atomic)
  {
    var j: nat :| j < |st.chunks| && IsUsed(st.chunks[j], address, size, atomic);
    hide Tiles, SweepCode, Overflows, Placed, Marks, Holds, IsUsed;
    match a
    case Place(words, flag) =>
      PlaceKeeps(st.chunks, words, flag, address, size, atomic);
    case Release(i) =>
      SameAt(st.chunks, st'.chunks, j, address, size, atomic);
    case Extend(words) =>
      SameAt(st.chunks, st'.chunks, j, address, size, atomic);
    case Collect(marked) =>
      CollectKeeps(st.chunks, marked, start, st.stop, j);
  }

  predicate Run(states: seq<State>, actions: seq<Action>) {
    && |states| == |actions| + 1
    && forall i | 0 <= i < |actions| :: RunStep(states, actions, i)
  }

  predicate RunStep(states: seq<State>, actions: seq<Action>, i: nat)
    requires i < |actions| < |states|
  {
    Step(states[i], actions[i], states[i + 1]) && Guard(states[i], actions[i])
  }

  // Over every run the chunks tile the heap, so no byte is lost or given twice.
  lemma {:induction false} RunTiles(states: seq<State>, actions: seq<Action>, start: nat, n: nat)
    requires Run(states, actions) && Tiles(states[0].chunks, start, states[0].stop) && n < |states|
    ensures Tiles(states[n].chunks, start, states[n].stop)
    ensures start + Sum(states[n].chunks) == states[n].stop
  {
    if n > 0 {
      RunTiles(states, actions, start, n - 1);
      assert RunStep(states, actions, n - 1);
      StepTiles(states[n - 1], actions[n - 1], states[n], start);
    }
    TilesSum(states[n].chunks, start, states[n].stop);
  }

  // A chunk that is neither released nor left unmarked stays where it is, in use
  // and with its size, to the end of the run.
  lemma {:induction false} RunKeeps(states: seq<State>, actions: seq<Action>, start: nat, n: nat,
                                    address: nat, size: nat, atomic: bool)
    requires Run(states, actions) && Tiles(states[0].chunks, start, states[0].stop) && n < |states|
    requires Holds(states[0].chunks, address, size, atomic)
    requires forall i | 0 <= i < |actions| :: Spares(states[i], actions[i], address)
    ensures Holds(states[n].chunks, address, size, atomic)
  {
    if n > 0 {
      RunKeeps(states, actions, start, n - 1, address, size, atomic);
      RunTiles(states, actions, start, n - 1);
      assert RunStep(states, actions, n - 1);
      StepKeeps(states[n - 1], actions[n - 1], states[n], start, address, size, atomic);
    }
  }

  // Words lo to hi - 1 are not header words of chunk c.
  predicate ClearOfHeader(c: Chunk, lo: nat, hi: nat) {
    hi <= c.address || c.address + CHUNK_WORDS <= lo
  }

  // Every operation writes headers of chunks in the list before or after it.  None of
  // them, at any point of a run, lies in the payload of a chunk that is kept.
  lemma RunKeepsPayload(states: seq<State>, actions: seq<Action>, start: nat, n: nat,
                        address: nat, size: nat, atomic: bool)
    requires Run(states, actions) && Tiles(states[0].chunks, start, states[0].stop) && n < |states|
    requires Holds(states[0].chunks, address, size, atomic)
    requires forall i | 0 <= i < |actions| :: Spares(states[i], actions[i], address)
    ensures forall c | c in states[n].chunks :: ClearOfHeader(c, address + CHUNK_WORDS, address + CHUNK_HEADER + size)
  {
    RunKeeps(states, actions, start, n, address, size, atomic);
    RunTiles(states, actions, start, n);
    var cs := states[n].chunks;
    var j: nat :| j < |cs| && IsUsed(cs[j], address, size, atomic);
    forall c | c in cs
      ensures ClearOfHeader(c, address + CHUNK_WORDS, address + CHUNK_HEADER + size)
    {
      var i: nat :| i < |cs| && cs[i] == c;
      HeaderClear(cs, start, states[n].stop, i, j);
    }
  }

  lemma HeaderClear(cs: seq<Chunk>, start: nat, stop: nat, i: nat, j: nat)
    requires Tiles(cs, start, stop) && i < |cs| && j < |cs|
    ensures ClearOfHeader(cs[i], cs[j].address + CHUNK_WORDS, End(cs[j]))
  {
    TilesAt(cs, start, stop, i);
    if i < j {
      Apart(cs, start, stop, i, j);
    } else if j < i {
      Apart(cs, start, stop, j, i);
    }
  }
}
