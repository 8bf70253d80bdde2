// Both heaps and the table of finalizers as one state machine: what a collection
// of the two heaps means over whole runs.
module HeapRuns {
  import opened Space
  import opened Bump
  import opened Sweeping
  import opened Runs
  import opened Chunks
  import opened Stacks
  import opened Tracing
  import opened Collectors
  import opened Reachability
  import opened Hashes
  import L = LargeSteps
  import LR = LargeRuns

  // The chunks without their marks.
  function Bare(cs: seq<Chunk>): seq<Chunk> {
    seq(|cs|, i requires 0 <= i < |cs| => cs[i].(marked := false))
  }

  lemma {:induction false} BareTiles(cs: seq<Chunk>, start: nat, stop: nat)
    requires Tiles(cs, start, stop)
    ensures Tiles(Bare(cs), start, stop)
  {
    if cs != [] {
      BareTiles(cs[1..], End(cs[0]), stop);
      assert Bare(cs)[1..] == Bare(cs[1..]);
    }
  }

  // The large heap lies outside the small one.
  predicate HeapsApart(s: Space, start: nat, stop: nat) {
    Stop(s) <= start || stop <= Start(s)
  }

  // w is the memory and the chunk list after the unmark phase, m the set of
  // objects that the roots reach in it.
  ghost predicate Traced(s: Space, cs: seq<Chunk>, start: nat, stop: nat, roots: seq<Range>, w: World, m: set<Ref>) {
    && IsUnmarked(s, w.space) && w == World(w.space, Bare(cs), start, stop)
    && Clean(w) && Reachable(w, roots, m)
  }

  // The finalizers of exactly the objects that do not survive ran, once each, and
  // are forgotten.
  ghost predicate Finalized(before: map<nat, nat>, after: map<nat, nat>, gone: seq<nat>, w: World, m: set<Ref>) {
    && after == before - KeySet(gone)
    && (forall i, j | 0 <= i < j < |gone| :: gone[i] != gone[j]) && (forall key | key in gone :: key in before)
    && (forall key | key in before && Shape(w.space) && IsObject(w, key) :: key in gone <==> !Survives(w, m, key))
  }

  // The positions of the chunks in m.
  ghost function Larges(m: set<Ref>): (positions: set<nat>)
    ensures forall i: nat :: i in positions <==> Large(i) in m
  {
    set r | r in m && r.Large? :: r.i
  }

  // On the large heap a collection is a step that marks what the roots reach.
  lemma CollectIsStep(s: Space, cs: seq<Chunk>, start: nat, stop: nat, roots: seq<Range>, w: World, m: set<Ref>)
    requires Traced(s, cs, start, stop, roots, w, m) && 8 * stop < TWO_64 / 2
    ensures L.Step(L.State(cs, stop), L.Collect(Larges(m)), L.State(SweepCode(MarkedChunks(w.chunks, m)), stop))
    ensures L.Guard(L.State(cs, stop), L.Collect(Larges(m))) <==> !Overflows(MarkedChunks(w.chunks, m))
  {
    ReachableRefs(w, roots, m);
    forall i | i in Larges(m)
      ensures i < |cs| && cs[i].used
    {
      assert IsRef(w, Large(i)) && w.chunks[i] == cs[i].(marked := false);
    }
    MarksAre(cs, w.chunks, m);
  }

  lemma MarkedTiles(cs: seq<Chunk>, m: set<Ref>, start: nat, stop: nat)
    requires Tiles(cs, start, stop)
    ensures Tiles(MarkedChunks(cs, m), start, stop)
  {
    SameExtents(cs, MarkedChunks(cs, m), start, stop);
  }

  // ------------------------------------------------------- registered finalizers

  // The objects of m, by the addresses under which finalizers are registered.
  ghost predicate Survives(w: World, m: set<Ref>, key: nat) {
    Small(key) in m || exists i :: 0 <= i < |w.chunks| && Large(i) in m && key == w.chunks[i].address + CHUNK_HEADER
  }

  // An object to which a finalizer may be attached.
  ghost predicate IsObject(w: World, key: nat)
    requires Shape(w.space)
  {
    Visible(w.space, key) || exists i :: 0 <= i < |w.chunks| && key == w.chunks[i].address + CHUNK_HEADER
  }

  predicate IsChunkKey(cs: seq<Chunk>, key: nat) {
    exists i :: 0 <= i < |cs| && KeyOf(cs[i], key)
  }

  predicate KeyOf(c: Chunk, key: nat) {
    c.used && key == c.address + CHUNK_HEADER
  }

  // Every finalizer is registered for a held object or for a chunk in use.
  predicate KeysOK(table: map<nat, nat>, held: set<nat>, cs: seq<Chunk>) {
    forall key | key in table :: key in held || IsChunkKey(cs, key)
  }

  // Releasing a chunk together with its finalizer.
  lemma KeysReleased(table: map<nat, nat>, held: set<nat>, cs: seq<Chunk>, i: nat)
    requires i < |cs|
    ensures KeysOK(table, held, cs) ==>
              KeysOK(table - {cs[i].address + CHUNK_HEADER}, held, cs[i := cs[i].(used := false)])
  {
    var cs' := cs[i := cs[i].(used := false)];
    forall key | IsChunkKey(cs, key) && key != cs[i].address + CHUNK_HEADER
      ensures IsChunkKey(cs', key)
    {
      var j :| 0 <= j < |cs| && KeyOf(cs[j], key);
      assert KeyOf(cs'[j], key);
    }
  }

  lemma KeyIsObject(st: State, w: World, cs: seq<Chunk>, key: nat)
    requires Inv(st) && IsUnmarked(st.space, w.space) && w.chunks == Bare(cs)
    requires key in st.held || IsChunkKey(cs, key)
    ensures Shape(w.space) && IsObject(w, key)
  {
    UnmarkedSame(st.space, w.space);
    if key in st.held {
      assert Visible(st.space, key);
      SameObjectsVisible(st.space, w.space, key);
    } else {
      var i :| 0 <= i < |cs| && KeyOf(cs[i], key);
      assert w.chunks[i].address == cs[i].address;
    }
  }

  // So the collection finalizes exactly the registered objects that it does not reach.
  lemma AllFinalized(st: State, cs: seq<Chunk>, start: nat, stop: nat, roots: seq<Range>, w: World, m: set<Ref>,
      before: map<nat, nat>, after: map<nat, nat>, gone: seq<nat>)
    requires Inv(st) && Traced(st.space, cs, start, stop, roots, w, m) && Finalized(before, after, gone, w, m)
    requires KeysOK(before, st.held, cs)
    ensures forall key | key in before :: key in gone <==> !Survives(w, m, key)
  {
    forall key | key in before
      ensures key in gone <==> !Survives(w, m, key)
    {
      KeyIsObject(st, w, cs, key);
    }
  }

  // And the others keep their objects.
  lemma KeysKept(st: State, cs: seq<Chunk>, start: nat, stop: nat, roots: seq<Range>, w: World, m: set<Ref>,
      before: map<nat, nat>, after: map<nat, nat>, gone: seq<nat>)
    requires Inv(st) && Traced(st.space, cs, start, stop, roots, w, m) && Finalized(before, after, gone, w, m)
    requires KeysOK(before, st.held, cs) && Tiles(cs, start, stop) && 8 * stop < TWO_64 / 2
    requires !Overflows(MarkedChunks(w.chunks, m))
    ensures KeysOK(after, Smalls(m), SweepCode(MarkedChunks(w.chunks, m)))
  {
    AllFinalized(st, cs, start, stop, roots, w, m, before, after, gone);
    CollectIsStep(st.space, cs, start, stop, roots, w, m);
    forall key | key in after
      ensures key in Smalls(m) || IsChunkKey(SweepCode(MarkedChunks(w.chunks, m)), key)
    {
      assert key in before && key !in gone;
      SmallsHas(m, key);
      if Small(key) !in m {
        SurvivingChunk(st.space, cs, start, stop, roots, w, m, key);
      }
    }
  }

  lemma SurvivingChunk(s: Space, cs: seq<Chunk>, start: nat, stop: nat, roots: seq<Range>, w: World, m: set<Ref>,
      key: nat)
    requires Traced(s, cs, start, stop, roots, w, m) && Tiles(cs, start, stop) && 8 * stop < TWO_64 / 2
    requires !Overflows(MarkedChunks(w.chunks, m)) && Survives(w, m, key) && Small(key) !in m
    ensures IsChunkKey(SweepCode(MarkedChunks(w.chunks, m)), key)
  {
    CollectIsStep(s, cs, start, stop, roots, w, m);
    var i :| 0 <= i < |w.chunks| && Large(i) in m && key == w.chunks[i].address + CHUNK_HEADER;
    assert cs[i].address == w.chunks[i].address;
    assert i in Larges(m);
    LR.CollectKeeps(cs, Larges(m), start, stop, i);
    MarksAre(cs, w.chunks, m);
    var swept := SweepCode(MarkedChunks(w.chunks, m));
    var k :| 0 <= k < |swept| && LR.IsUsed(swept[k], cs[i].address, cs[i].size, cs[i].atomic);
    assert KeyOf(swept[k], key);
  }

  lemma MarksAre(cs: seq<Chunk>, bare: seq<Chunk>, m: set<Ref>)
    requires bare == Bare(cs)
    ensures L.Marks(cs, Larges(m)) == MarkedChunks(bare, m)
  {
  }

  // --------------------------------------------------------------------- states

  datatype Heaps = Heaps(small: State, large: L.State, table: map<nat, nat>)

  datatype HeapAction =
    | OnSmall(a: Action)
    | OnLarge(b: L.Action)
    | Register(key: nat, callback: nat)
    | CollectBoth(c: Collection, gone: seq<nat>)   // gone: the objects that are finalized

  // The reserved areas keep the heaps apart as they grow.
  ghost predicate HeapsOK(hs: Heaps, start: nat) {
    && Inv(hs.small) && Tiles(hs.large.chunks, start, hs.large.stop)
    && HeapsApart(hs.small.space, start, hs.large.stop)
    && KeysOK(hs.table, hs.small.held, hs.large.chunks)
  }

  // A released chunk loses its finalizer.
  function TableAfter(hs: Heaps, b: L.Action): map<nat, nat> {
    if b.Release? && b.i < |hs.large.chunks| then hs.table - {hs.large.chunks[b.i].address + CHUNK_HEADER}
    else hs.table
  }

  ghost predicate CollectionStep(hs: Heaps, c: Collection, gone: seq<nat>, hs': Heaps, start: nat) {
    && Traced(hs.small.space, hs.large.chunks, start, hs.large.stop, c.roots, c.w, c.m)
    && CollectStep(hs.small, Smalls(c.m), hs'.small)
    && hs'.large == L.State(SweepCode(MarkedChunks(c.w.chunks, c.m)), hs.large.stop)
    && Finalized(hs.table, hs'.table, gone, c.w, c.m)
  }

  ghost predicate HeapStep(hs: Heaps, a: HeapAction, hs': Heaps, start: nat)
    requires Shape(hs.small.space)
  {
    match a
    case OnSmall(b) =>
      !b.Collect? && Step(hs.small, b, hs'.small) && hs' == hs.(small := hs'.small)
    case OnLarge(b) =>
      !b.Collect? && L.Step(hs.large, b, hs'.large) && hs' == hs.(large := hs'.large, table := TableAfter(hs, b))
    case Register(key, callback) =>
      && (key in hs.small.held || IsChunkKey(hs.large.chunks, key))
      && hs' == hs.(table := hs.table[key := callback])
    case CollectBoth(c, gone) =>
      CollectionStep(hs, c, gone, hs', start)
  }

  // The conditions under which the code does what it should: no stale hole list, no
  // oversized last chunk, growth within the reserved areas.
  ghost predicate HeapGuard(hs: Heaps, a: HeapAction, hs': Heaps, start: nat)
    requires Shape(hs.small.space)
  {
    && (a.OnSmall? ==> Guard(hs.small, a.a))
    && (a.CollectBoth? ==> L.Guard(hs.large, L.Collect(Larges(a.c.m))))
    && HeapsApart(hs'.small.space, start, hs'.large.stop)
  }

  // ----------------------------------------------------------------- the invariant

  lemma KeptChunkKey(st: L.State, a: L.Action, st': L.State, start: nat, key: nat)
    requires Tiles(st.chunks, start, st.stop) && L.Step(st, a, st') && !a.Collect? && IsChunkKey(st.chunks, key)
    requires a.Release? && a.i < |st.chunks| ==> st.chunks[a.i].address + CHUNK_HEADER != key
    ensures IsChunkKey(st'.chunks, key)
  {
    var i :| 0 <= i < |st.chunks| && KeyOf(st.chunks[i], key);
    var c := st.chunks[i];
    hide Tiles, L.Step;
    assert LR.IsUsed(c, c.address, c.size, c.atomic);
    LR.StepKeeps(st, a, st', start, c.address, c.size, c.atomic);
    var k :| 0 <= k < |st'.chunks| && LR.IsUsed(st'.chunks[k], c.address, c.size, c.atomic);
    assert KeyOf(st'.chunks[k], key);
  }

  lemma HeldGrows(st: State, a: Action, st': State)
    requires Step(st, a, st') && !a.Collect?
    ensures st.held <= st'.held
  {
  }

  lemma OnLargeOK(hs: Heaps, b: L.Action, hs': Heaps, start: nat)
    requires HeapsOK(hs, start) && HeapStep(hs, OnLarge(b), hs', start) && HeapGuard(hs, OnLarge(b), hs', start)
    ensures HeapsOK(hs', start)
  {
    hide Inv, L.Step, Tiles;
    LR.StepTiles(hs.large, b, hs'.large, start);
    forall key | key in hs'.table
      ensures key in hs'.small.held || IsChunkKey(hs'.large.chunks, key)
    {
      if key !in hs.small.held {
        KeptChunkKey(hs.large, b, hs'.large, start, key);
      }
    }
  }

  lemma CollectBothOK(hs: Heaps, c: Collection, gone: seq<nat>, hs': Heaps, start: nat)
    requires HeapsOK(hs, start) && CollectionStep(hs, c, gone, hs', start)
    requires L.Guard(hs.large, L.Collect(Larges(c.m))) && HeapsApart(hs'.small.space, start, hs'.large.stop)
    ensures HeapsOK(hs', start)
  {
    CollectInv(hs.small, Smalls(c.m), hs'.small);
    hide Inv, Tiles, CollectStep, Traced, Finalized, KeysOK, Overflows;
    CollectIsStep(hs.small.space, hs.large.chunks, start, hs.large.stop, c.roots, c.w, c.m);
    LR.StepTiles(hs.large, L.Collect(Larges(c.m)), hs'.large, start);
    KeysKept(hs.small, hs.large.chunks, start, hs.large.stop, c.roots, c.w, c.m, hs.table, hs'.table, gone);
    HeldIs(hs.small, Smalls(c.m), hs'.small);
  }

  lemma HeldIs(st: State, m: set<nat>, st': State)
    requires CollectStep(st, m, st')
    ensures st'.held == m
  {
  }

  lemma HeapStepOK(hs: Heaps, a: HeapAction, hs': Heaps, start: nat)
    requires HeapsOK(hs, start) && HeapStep(hs, a, hs', start) && HeapGuard(hs, a, hs', start)
    ensures HeapsOK(hs', start)
  {
    match a
    case OnSmall(b) =>
      StepInv(hs.small, b, hs'.small);
      HeldGrows(hs.small, b, hs'.small);
    case OnLarge(b) =>
      OnLargeOK(hs, b, hs', start);
    case Register(key, callback) =>
    case CollectBoth(c, gone) =>
      CollectBothOK(hs, c, gone, hs', start);
  }

  ghost predicate HeapRun(states: seq<Heaps>, actions: seq<HeapAction>, start: nat) {
    && |states| == |actions| + 1 && HeapsOK(states[0], start)
    && forall i | 0 <= i < |actions| :: HeapRunStep(states, actions, start, i)
  }

  ghost predicate HeapRunStep(states: seq<Heaps>, actions: seq<HeapAction>, start: nat, i: nat)
    requires i < |actions| < |states|
  {
    && Shape(states[i].small.space) && HeapStep(states[i], actions[i], states[i + 1], start)
    && HeapGuard(states[i], actions[i], states[i + 1], start)
  }

  lemma RunStepParts(states: seq<Heaps>, actions: seq<HeapAction>, start: nat, i: nat)
    requires HeapRun(states, actions, start) && i < |actions|
    ensures |states| == |actions| + 1 && HeapsOK(states[0], start) && Shape(states[i].small.space)
    ensures HeapStep(states[i], actions[i], states[i + 1], start)
    ensures HeapGuard(states[i], actions[i], states[i + 1], start)
  {
    assert HeapRunStep(states, actions, start, i);
    hide HeapsOK, HeapStep, HeapGuard;
  }

  // Over every run both heaps are sound, and finalizers are registered for objects only.
  lemma {:induction false} HeapRunOK(states: seq<Heaps>, actions: seq<HeapAction>, start: nat, n: nat)
    requires HeapRun(states, actions, start) && n < |states|
    ensures HeapsOK(states[n], start)
  {
    if n > 0 {
      HeapRunOK(states, actions, start, n - 1);
      RunStepParts(states, actions, start, n - 1);
      hide *;
      HeapStepOK(states[n - 1], actions[n - 1], states[n], start);
    }
  }

  // ------------------------------------------------------------- finalizers over runs

  // The action does not register key again and does not release its chunk.
  predicate Untouched(hs: Heaps, a: HeapAction, key: nat) {
    && (a.Register? ==> a.key != key)
    && (a.OnLarge? && a.b.Release? && a.b.i < |hs.large.chunks| ==>
          hs.large.chunks[a.b.i].address + CHUNK_HEADER != key)
  }

  // A collection reaches the object of key.
  ghost predicate Reaches(a: HeapAction, key: nat) {
    a.CollectBoth? ==> Survives(a.c.w, a.c.m, key)
  }

  lemma TableStep(hs: Heaps, a: HeapAction, hs': Heaps, start: nat, key: nat)
    requires HeapsOK(hs, start) && HeapStep(hs, a, hs', start) && Untouched(hs, a, key)
    ensures key in hs'.table <==> key in hs.table && Reaches(a, key)
    ensures key in hs'.table ==> hs'.table[key] == hs.table[key]
    ensures a.CollectBoth? ==> (key in a.gone <==> key in hs.table && !Reaches(a, key))
  {
    hide Inv, Tiles, L.Step, Step, CollectStep, Traced, Survives;
    if a.CollectBoth? {
      AllFinalized(hs.small, hs.large.chunks, start, hs.large.stop, a.c.roots, a.c.w, a.c.m, hs.table, hs'.table,
                   a.gone);
    }
  }

  // A finalizer stays in the table exactly as long as every collection reaches its object.
  lemma {:induction false} TableExact(states: seq<Heaps>, actions: seq<HeapAction>, start: nat, n: nat, key: nat)
    requires HeapRun(states, actions, start) && n < |states| && key in states[0].table
    requires forall i | 0 <= i < |actions| :: Untouched(states[i], actions[i], key)
    ensures key in states[n].table <==> forall i | 0 <= i < n :: Reaches(actions[i], key)
    ensures key in states[n].table ==> states[n].table[key] == states[0].table[key]
  {
    hide HeapsOK, HeapStep, HeapGuard, Untouched, Reaches, HeapRunStep;
    if n > 0 {
      TableExact(states, actions, start, n - 1, key);
      HeapRunOK(states, actions, start, n - 1);
      RunStepParts(states, actions, start, n - 1);
      hide *;
      TableStep(states[n - 1], actions[n - 1], states[n], start, key);
    }
  }

  // It runs at the first collection that does not reach its object, and at no other.
  lemma FinalizedOnce(states: seq<Heaps>, actions: seq<HeapAction>, start: nat, n: nat, key: nat)
    requires HeapRun(states, actions, start) && n < |actions| && key in states[0].table && actions[n].CollectBoth?
    requires forall i | 0 <= i < |actions| :: Untouched(states[i], actions[i], key)
    ensures key in actions[n].gone <==>
            !Reaches(actions[n], key) && forall i | 0 <= i < n :: Reaches(actions[i], key)
    ensures forall i, j | 0 <= i < j < |actions[n].gone| :: actions[n].gone[i] != actions[n].gone[j]
  {
    TableExact(states, actions, start, n, key);
    HeapRunOK(states, actions, start, n);
    RunStepParts(states, actions, start, n);
    hide HeapsOK, HeapGuard, Untouched, Reaches, Traced, CollectStep;
    TableStep(states[n], actions[n], states[n + 1], start, key);
  }

  // ------------------------------------------------------------ small objects over runs

  // The collection, if the action is one, finds a chain of pointers to the small object o.
  ghost predicate ReachesSmall(a: HeapAction, o: nat) {
    a.CollectBoth? ==> Shape(a.c.w.space) && HasPath(a.c.w, a.c.roots, Small(o))
  }

  predicate WritesTo(a: HeapAction, x: nat) {
    a.OnSmall? && a.a.Store? && a.a.a == x
  }

  lemma SmallStep(hs: Heaps, a: HeapAction, hs': Heaps, start: nat, o: nat, x: nat)
    requires HeapsOK(hs, start) && HeapStep(hs, a, hs', start) && ReachesSmall(a, o) && !WritesTo(a, x)
    requires o in hs.small.live && o + HEADER <= x < o + Size(hs.small.space, o)
    ensures o in hs'.small.live && Kept(hs.small.space, hs'.small.space, o, x)
  {
    hide Inv, Tiles, L.Step, CollectStep, AllocateStep, SkipStep, TakeStep, TakeFreeStep, StoreStep, StoreOutsideStep,
      GrowStep, KeysOK, Finalized, Traced, HasPath, Clean, Reachable;
    LiveSolid(hs.small, o);
    InWords(hs.small.space, o, x);
    if a.OnSmall? {
      StepKeeps(hs.small, a.a, hs'.small, o, x);
    } else if a.CollectBoth? {
      TracedReach(hs.small.space, hs.large.chunks, start, hs.large.stop, a.c);
      ReachablePaths(a.c.w, a.c.roots, a.c.m, Small(o));
      SmallsHas(a.c.m, o);
      StepKeeps(hs.small, Collect(Smalls(a.c.m)), hs'.small, o, x);
    }
  }

  lemma TracedReach(s: Space, cs: seq<Chunk>, start: nat, stop: nat, c: Collection)
    requires Traced(s, cs, start, stop, c.roots, c.w, c.m)
    ensures Clean(c.w) && Shape(c.w.space) && Reachable(c.w, c.roots, c.m)
  {
  }

  // A small object that at every collection of a run of both heaps can be reached from
  // the roots is live at the end, with its size and the words the mutator left there.
  lemma {:induction false} RunKeepsSmall(states: seq<Heaps>, actions: seq<HeapAction>, start: nat, n: nat, o: nat,
      x: nat)
    requires HeapRun(states, actions, start) && n < |states| && o in states[0].small.live
    requires o + HEADER <= x < o + Size(states[0].small.space, o) && x < |states[0].small.space.words|
    requires forall i | 0 <= i < |actions| :: ReachesSmall(actions[i], o) && !WritesTo(actions[i], x)
    ensures o in states[n].small.live && Kept(states[0].small.space, states[n].small.space, o, x)
    ensures x < |states[n].small.space.words|
            && states[n].small.space.words[x] == states[0].small.space.words[x]
  {
    hide HeapsOK, HeapStep, HeapGuard, HeapRunStep, ReachesSmall, WritesTo;
    if n > 0 {
      RunKeepsSmall(states, actions, start, n - 1, o, x);
      HeapRunOK(states, actions, start, n - 1);
      RunStepParts(states, actions, start, n - 1);
      SmallStep(states[n - 1], actions[n - 1], states[n], start, o, x);
    }
  }

  // ------------------------------------------------------------ large objects over runs

  lemma AllocateOutside(s: Space, held: set<nat>, r: Region, n: nat, atomic: bool, x: nat)
    requires WF(s) && CanBump(s, held, r, n) && x < |s.words| && !InSmallHeap(s, x)
    ensures |Bumped(s, r, n, atomic).words| == |s.words| && Bumped(s, r, n, atomic).words[x] == s.words[x]
  {
  }

  lemma CollectOutside(s: Space, t: Space, marked: set<nat>, x: nat)
    requires WF(s) && Collected(s, t, marked) && x < |s.words| && !InSmallHeap(s, x)
    ensures |t.words| == |s.words| && t.words[x] == s.words[x]
  {
    var u, p :| IsUnmarked(s, u) && IsPainted(u, p, marked) && Recycled(p, t);
    if x > 0 {
      FlagInside(s, x);
      UnmarkedSame(s, u);
      SameObjectsWF(s, u);
      FlagInside(u, x);
    }
  }

  lemma FlagInside(s: Space, x: nat)
    requires WF(s) && 0 < x
    ensures Visible(s, x - 1) ==> InSmallHeap(s, x)
  {
    if Visible(s, x - 1) {
      assert ObjectOK(s, x - 1);
    }
  }

  // Words outside the small heap change by the mutator's stores only.
  lemma StepOutside(st: State, a: Action, st': State, x: nat)
    requires Inv(st) && Step(st, a, st') && x < |st.space.words| && !InSmallHeap(st.space, x)
    requires a.StoreOutside? ==> a.a != x
    ensures x < |st'.space.words| && st'.space.words[x] == st.space.words[x]
  {
    hide Inv, WF, Solid, Visible, HeldOK, Collected, Bumped, Grown;
    match a
    case Allocate(k, n, atomic) =>
      CanBumpHere(st, k, n);
      InvWF(st);
      AllocateOutside(st.space, st.held, st.regions[k], n, atomic, x);
    case Store(o, i, value) =>
      LiveSolid(st, o);
      InsideHeap(st.space, o, i);
    case StoreOutside(i, value) =>
    case Collect(marked) =>
      InvWF(st);
      CollectOutside(st.space, st'.space, marked, x);
    case Grow(count) =>
      GrownWords(st.space, st'.space, count);
    case Skip(k) =>
    case Take(k, stale) =>
    case TakeFree(k) =>
  }

  lemma InvWF(st: State)
    requires Inv(st)
    ensures WF(st.space)
  {
  }

  lemma InsideHeap(s: Space, o: nat, a: nat)
    requires WF(s) && Visible(s, o) && o <= a < o + Size(s, o)
    ensures InSmallHeap(s, a)
  {
    VisibleInHeap(s, o, a);
  }

  // The collection, if the action is one, finds a chain of pointers to the chunk at
  // `address`, and no other action releases it.
  ghost predicate ReachesChunk(hs: Heaps, a: HeapAction, address: nat) {
    && (a.CollectBoth? ==> Shape(a.c.w.space) && forall i: nat | i < |hs.large.chunks|
          && hs.large.chunks[i].address == address :: HasPath(a.c.w, a.c.roots, Large(i)))
    && (a.OnLarge? ==> LR.Spares(hs.large, a.b, address))
  }

  lemma ChunkStep(hs: Heaps, a: HeapAction, hs': Heaps, start: nat, address: nat, size: nat, atomic: bool)
    requires HeapsOK(hs, start) && HeapStep(hs, a, hs', start) && HeapGuard(hs, a, hs', start)
    requires ReachesChunk(hs, a, address) && LR.Holds(hs.large.chunks, address, size, atomic)
    ensures LR.Holds(hs'.large.chunks, address, size, atomic)
  {
    hide Inv, Tiles, L.Step, Step, CollectStep, LR.Holds, KeysOK, Finalized;
    if a.OnLarge? {
      LR.StepKeeps(hs.large, a.b, hs'.large, start, address, size, atomic);
    } else if a.CollectBoth? {
      var c := a.c;
      CollectIsStep(hs.small.space, hs.large.chunks, start, hs.large.stop, c.roots, c.w, c.m);
      forall i: nat | i < |hs.large.chunks| && hs.large.chunks[i].address == address
        ensures i in Larges(c.m)
      {
        ReachablePaths(c.w, c.roots, c.m, Large(i));
      }
      LR.StepKeeps(hs.large, L.Collect(Larges(c.m)), hs'.large, start, address, size, atomic);
    }
  }

  // The words of a chunk lie outside the small heap.
  lemma ChunkOutside(hs: Heaps, start: nat, address: nat, size: nat, atomic: bool, x: nat)
    requires HeapsOK(hs, start) && LR.Holds(hs.large.chunks, address, size, atomic)
    requires address <= x < address + CHUNK_HEADER + size
    ensures Shape(hs.small.space) && !InSmallHeap(hs.small.space, x)
  {
    var i: nat :| i < |hs.large.chunks| && LR.IsUsed(hs.large.chunks[i], address, size, atomic);
    TilesAt(hs.large.chunks, start, hs.large.stop, i);
  }

  predicate StoresTo(a: HeapAction, x: nat) {
    a.OnSmall? && a.a.StoreOutside? && a.a.a == x
  }

  lemma WordStep(hs: Heaps, a: HeapAction, hs': Heaps, start: nat, x: nat)
    requires HeapsOK(hs, start) && HeapStep(hs, a, hs', start) && !StoresTo(a, x)
    requires x < |hs.small.space.words| && !InSmallHeap(hs.small.space, x)
    ensures x < |hs'.small.space.words| && hs'.small.space.words[x] == hs.small.space.words[x]
  {
    hide Inv, Tiles, L.Step, CollectStep, AllocateStep, SkipStep, TakeStep, TakeFreeStep, StoreStep, StoreOutsideStep,
      GrowStep, KeysOK, Finalized;
    if a.OnSmall? {
      StepOutside(hs.small, a.a, hs'.small, x);
    } else if a.CollectBoth? {
      StepOutside(hs.small, Collect(Smalls(a.c.m)), hs'.small, x);
    }
  }

  // A large object that at every collection of a run can be reached from the roots,
  // and that is not released, is in use at the end of the run, at its place and with
  // its size, and every word of its payload is what the mutator last stored there.
  lemma {:induction false} RunKeepsLarge(states: seq<Heaps>, actions: seq<HeapAction>, start: nat, n: nat,
      address: nat, size: nat, atomic: bool, x: nat)
    requires HeapRun(states, actions, start) && n < |states|
    requires LR.Holds(states[0].large.chunks, address, size, atomic)
    requires address + CHUNK_WORDS <= x < address + CHUNK_HEADER + size && x < |states[0].small.space.words|
    requires forall i | 0 <= i < |actions| :: ReachesChunk(states[i], actions[i], address)
    requires forall i | 0 <= i < |actions| :: !StoresTo(actions[i], x)
    ensures LR.Holds(states[n].large.chunks, address, size, atomic) && x < |states[n].small.space.words|
    ensures states[n].small.space.words[x] == states[0].small.space.words[x]
  {
    hide HeapsOK, HeapStep, HeapGuard, HeapRunStep, ReachesChunk, LR.Holds, StoresTo;
    if n > 0 {
      RunKeepsLarge(states, actions, start, n - 1, address, size, atomic, x);
      HeapRunOK(states, actions, start, n - 1);
      RunStepParts(states, actions, start, n - 1);
      var hs, a, hs' := states[n - 1], actions[n - 1], states[n];
      assert ReachesChunk(hs, a, address);
      ChunkOutside(hs, start, address, size, atomic, x);
      hide *;
      ChunkStep(hs, a, hs', start, address, size, atomic);
      WordStep(hs, a, hs', start, x);
    }
  }
}
