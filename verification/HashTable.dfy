// The entries of the finalizer table as a value (src/hash.c).
module HashTables {
  import opened Probing

  datatype Status = Free | Allocated | Deleted

  datatype Entry = Entry(status: Status, key: nat, value: nat)

  const FREE_ENTRY := Entry(Free, 0, 0)

  // Keys are hashed by an arbitrary function.
  type HashFunction = nat -> nat

  // Where a search for the key stops; a tombstone keeps its key.
  predicate StopsSearch(e: Entry, key: nat) {
    e.status == Free || e.key == key
  }

  // Where an insertion of the key stops.
  predicate StopsInsert(e: Entry, key: nat) {
    e.status != Allocated || e.key == key
  }

  // The entry at the k-th probe.
  function Probed(t: seq<Entry>, hash: nat, k: nat): Entry
    requires |t| > 0
  {
    t[Probe(hash, k, |t|)]
  }

  ghost predicate SearchEnds(t: seq<Entry>, hash: nat, key: nat, k: nat)
    requires |t| > 0
  {
    StopsSearch(Probed(t, hash, k), key) && forall j: nat | j < k :: !StopsSearch(Probed(t, hash, j), key)
  }

  ghost predicate InsertEnds(t: seq<Entry>, hash: nat, key: nat, k: nat)
    requires |t| > 0
  {
    StopsInsert(Probed(t, hash, k), key) && forall j: nat | j < k :: !StopsInsert(Probed(t, hash, j), key)
  }

  // A search for the key gets as far as the slot.
  ghost predicate LeadsTo(t: seq<Entry>, hash: nat, key: nat, slot: nat)
    requires |t| > 0
  {
    exists k: nat :: Probe(hash, k, |t|) == slot && forall j: nat | j < k :: !StopsSearch(Probed(t, hash, j), key)
  }

  // Every key in the table is where a search for it finds it.
  ghost predicate Sound(t: seq<Entry>, h: HashFunction) {
    |t| > 0 && forall s: nat | s < |t| && t[s].status == Allocated :: LeadsTo(t, h(t[s].key), t[s].key, s)
  }

  predicate Unique(t: seq<Entry>) {
    forall s, s' | 0 <= s < |t| && 0 <= s' < |t| && t[s].status == Allocated && t[s'].status == Allocated
                   && t[s].key == t[s'].key :: s == s'
  }

  lemma SoundUnique(t: seq<Entry>, h: HashFunction)
    requires Sound(t, h)
    ensures Unique(t)
  {
    forall s: nat, s': nat | s < |t| && s' < |t| && t[s].status == Allocated && t[s'].status == Allocated
                             && t[s].key == t[s'].key
      ensures s == s'
    {
      var key := t[s].key;
      assert LeadsTo(t, h(key), key, s) && LeadsTo(t, h(key), key, s');
      var k: nat :| Probe(h(key), k, |t|) == s && forall j: nat | j < k :: !StopsSearch(Probed(t, h(key), j), key);
      var k': nat :| Probe(h(key), k', |t|) == s' && forall j: nat | j < k' :: !StopsSearch(Probed(t, h(key), j), key);
      assert StopsSearch(Probed(t, h(key), k), key) && StopsSearch(Probed(t, h(key), k'), key);
    }
  }

  ghost function Keys(t: seq<Entry>): set<nat> {
    set s: nat | s < |t| && t[s].status == Allocated :: t[s].key
  }

  ghost function SlotOf(t: seq<Entry>, key: nat): (s: nat)
    requires key in Keys(t)
    ensures s < |t| && t[s].status == Allocated && t[s].key == key
  {
    var s: nat :| s < |t| && t[s].status == Allocated && t[s].key == key;
    s
  }

  // The map that a table stands for, if its keys are unique.
  ghost function Contents(t: seq<Entry>): map<nat, nat> {
    map key | key in Keys(t) :: t[SlotOf(t, key)].value
  }

  lemma ContentsAt(t: seq<Entry>, s: nat)
    requires Unique(t) && s < |t| && t[s].status == Allocated
    ensures t[s].key in Contents(t) && Contents(t)[t[s].key] == t[s].value
  {
  }

  lemma ContentsFrom(t: seq<Entry>, key: nat) returns (s: nat)
    requires key in Contents(t)
    ensures s < |t| && t[s] == Entry(Allocated, key, Contents(t)[key])
  {
    s := SlotOf(t, key);
  }

  // The search ends at the key's entry, and only there at an allocated one.
  lemma SearchFinds(t: seq<Entry>, h: HashFunction, key: nat, k: nat)
    requires Sound(t, h) && SearchEnds(t, h(key), key, k)
    ensures key in Contents(t) <==> Probed(t, h(key), k).status == Allocated
    ensures key in Contents(t) ==> Probed(t, h(key), k) == Entry(Allocated, key, Contents(t)[key])
  {
    SoundUnique(t, h);
    var e := Probed(t, h(key), k);
    if e.status == Allocated {
      ContentsAt(t, Probe(h(key), k, |t|));
    }
    if key in Contents(t) {
      var s := ContentsFrom(t, key);
      assert LeadsTo(t, h(key), key, s);
      var k': nat :| Probe(h(key), k', |t|) == s && forall j: nat | j < k' :: !StopsSearch(Probed(t, h(key), j), key);
      assert StopsSearch(Probed(t, h(key), k'), key);
      assert k == k';
    }
  }

  // ------------------------------------------------------------------- insertion

  // The condition under which insertion keeps the table a map.
  ghost predicate MayInsert(t: seq<Entry>, h: HashFunction, key: nat, k: nat)
    requires Sound(t, h)
  {
    key !in Contents(t) || Probed(t, h(key), k).status == Allocated
  }

  function Put(t: seq<Entry>, slot: nat, key: nat, value: nat): seq<Entry>
    requires slot < |t|
  {
    t[slot := Entry(Allocated, key, value)]
  }

  // A path survives unless the changed slot now stops it.
  lemma PathKept(t: seq<Entry>, t': seq<Entry>, hash: nat, key: nat, slot: nat, changed: nat)
    requires |t'| == |t| > 0 && LeadsTo(t, hash, key, slot) && changed < |t|
    requires forall s: nat | s < |t| && s != changed :: t'[s] == t[s]
    requires !StopsSearch(t[changed], key) ==> !StopsSearch(t'[changed], key)
    ensures LeadsTo(t', hash, key, slot)
  {
    var k: nat :| Probe(hash, k, |t|) == slot && forall j: nat | j < k :: !StopsSearch(Probed(t, hash, j), key);
    forall j: nat | j < k
      ensures !StopsSearch(Probed(t', hash, j), key)
    {
      assert !StopsSearch(Probed(t, hash, j), key);
    }
  }

  lemma NewPath(t: seq<Entry>, hash: nat, key: nat, value: nat, k: nat)
    requires |t| > 0 && InsertEnds(t, hash, key, k)
    ensures LeadsTo(Put(t, Probe(hash, k, |t|), key, value), hash, key, Probe(hash, k, |t|))
  {
    var t' := Put(t, Probe(hash, k, |t|), key, value);
    forall j: nat | j < k
      ensures !StopsSearch(Probed(t', hash, j), key)
    {
      assert !StopsInsert(Probed(t, hash, j), key);
    }
  }

  lemma PutSound(t: seq<Entry>, h: HashFunction, key: nat, value: nat, k: nat)
    requires Sound(t, h) && InsertEnds(t, h(key), key, k) && MayInsert(t, h, key, k)
    ensures Sound(Put(t, Probe(h(key), k, |t|), key, value), h)
  {
    var slot := Probe(h(key), k, |t|);
    var t' := Put(t, slot, key, value);
    SoundUnique(t, h);
    forall s: nat | s < |t'| && t'[s].status == Allocated
      ensures LeadsTo(t', h(t'[s].key), t'[s].key, s)
    {
      if s == slot {
        NewPath(t, h(key), key, value, k);
      } else {
        ContentsAt(t, s);
        PathKept(t, t', h(t[s].key), t[s].key, s, slot);
      }
    }
  }

  lemma PutContents(t: seq<Entry>, slot: nat, key: nat, value: nat)
    requires slot < |t| && Unique(t) && Unique(Put(t, slot, key, value))
    requires t[slot].status == Allocated ==> t[slot].key == key
    ensures Contents(Put(t, slot, key, value)) == Contents(t)[key := value]
  {
    var t' := Put(t, slot, key, value);
    forall x | x in Contents(t')
      ensures x in Contents(t)[key := value] && Contents(t')[x] == Contents(t)[key := value][x]
    {
      var s := ContentsFrom(t', x);
      ContentsAt(t', slot);
      if s != slot {
        ContentsAt(t, s);
      }
    }
    forall x | x in Contents(t)[key := value]
      ensures x in Contents(t')
    {
      ContentsAt(t', slot);
      if x != key {
        var s := ContentsFrom(t, x);
        ContentsAt(t', s);
      }
    }
  }

  lemma PutTwice(t: seq<Entry>, h: HashFunction, key: nat, value: nat, k: nat)
    requires Sound(t, h) && InsertEnds(t, h(key), key, k) && !MayInsert(t, h, key, k)
    ensures !Unique(Put(t, Probe(h(key), k, |t|), key, value))
    ensures !Sound(Put(t, Probe(h(key), k, |t|), key, value), h)
  {
    var slot := Probe(h(key), k, |t|);
    var t' := Put(t, slot, key, value);
    var s := ContentsFrom(t, key);
    hide Sound, InsertEnds, Contents;
    assert s != slot && t'[s] == t[s];
    assert t'[slot] == Entry(Allocated, key, value);
    if Sound(t', h) {
      SoundUnique(t', h);
    }
  }

  // Insertion refines the update of the map exactly under that condition.
  lemma PutExact(t: seq<Entry>, h: HashFunction, key: nat, value: nat, k: nat)
    requires Sound(t, h) && InsertEnds(t, h(key), key, k)
    ensures MayInsert(t, h, key, k) <==> Sound(Put(t, Probe(h(key), k, |t|), key, value), h)
    ensures MayInsert(t, h, key, k) <==> Unique(Put(t, Probe(h(key), k, |t|), key, value))
    ensures MayInsert(t, h, key, k) ==>
              Contents(Put(t, Probe(h(key), k, |t|), key, value)) == Contents(t)[key := value]
  {
    if MayInsert(t, h, key, k) {
      PutSound(t, h, key, value, k);
      SoundUnique(t, h);
      SoundUnique(Put(t, Probe(h(key), k, |t|), key, value), h);
      PutContents(t, Probe(h(key), k, |t|), key, value);
    } else {
      PutTwice(t, h, key, value, k);
    }
  }

  // A free slot at the end of the path: the key is absent.
  lemma FreeEnd(t: seq<Entry>, h: HashFunction, key: nat, k: nat)
    requires Sound(t, h) && InsertEnds(t, h(key), key, k) && Probed(t, h(key), k).status == Free
    ensures key !in Contents(t)
  {
    forall j: nat | j < k
      ensures !StopsSearch(Probed(t, h(key), j), key)
    {
      assert !StopsInsert(Probed(t, h(key), j), key);
    }
    SearchFinds(t, h, key, k);
  }

  // At an allocated slot the insertion has found the key.
  lemma InsertKey(t: seq<Entry>, hash: nat, key: nat, k: nat)
    requires |t| > 0 && InsertEnds(t, hash, key, k)
    ensures Probed(t, hash, k).status == Allocated ==> Probed(t, hash, k).key == key
  {
  }

  lemma AbsentSafe(t: seq<Entry>, h: HashFunction, key: nat)
    requires |t| > 0 && key !in Contents(t)
    ensures NoTombstoneBefore(t, h, key)
  {
  }

  lemma PathAllocated(t: seq<Entry>, hash: nat, key: nat, value: nat, k: nat, i: nat)
    requires |t| > 0 && InsertEnds(t, hash, key, k) && Probed(t, hash, i) == Entry(Allocated, key, value)
    requires forall j: nat | j < i :: Probed(t, hash, j).status == Allocated
    ensures Probed(t, hash, k).status == Allocated
  {
  }

  // The key is absent, or every slot before its own on its probe path is in use.
  ghost predicate NoTombstoneBefore(t: seq<Entry>, h: HashFunction, key: nat)
    requires |t| > 0
  {
    key !in Contents(t)
    || exists i: nat :: Probed(t, h(key), i) == Entry(Allocated, key, Contents(t)[key])
                        && forall j: nat | j < i :: Probed(t, h(key), j).status == Allocated
  }

  lemma MayInsertIff(t: seq<Entry>, h: HashFunction, key: nat, k: nat)
    requires Sound(t, h) && InsertEnds(t, h(key), key, k)
    ensures MayInsert(t, h, key, k) <==> NoTombstoneBefore(t, h, key)
  {
    if key in Contents(t) && MayInsert(t, h, key, k) {
      SoundUnique(t, h);
      ContentsAt(t, Probe(h(key), k, |t|));
      forall j: nat | j < k
        ensures Probed(t, h(key), j).status == Allocated
      {
        assert !StopsInsert(Probed(t, h(key), j), key);
      }
    }
    if i: nat :| key in Contents(t) && Probed(t, h(key), i) == Entry(Allocated, key, Contents(t)[key])
                 && forall j: nat | j < i :: Probed(t, h(key), j).status == Allocated {
      PathAllocated(t, h(key), key, Contents(t)[key], k, i);
    }
  }

  // ---------------------------------------------------------------------- deletion

  function Bury(t: seq<Entry>, slot: nat): seq<Entry>
    requires slot < |t|
  {
    t[slot := t[slot].(status := Deleted)]
  }

  lemma BurySound(t: seq<Entry>, h: HashFunction, slot: nat)
    requires Sound(t, h) && slot < |t| && t[slot].status == Allocated
    ensures Sound(Bury(t, slot), h)
    ensures Unique(t) && Unique(Bury(t, slot))
    ensures Contents(Bury(t, slot)) == Contents(t) - {t[slot].key}
  {
    var t' := Bury(t, slot);
    forall s: nat | s < |t'| && t'[s].status == Allocated
      ensures LeadsTo(t', h(t'[s].key), t'[s].key, s)
    {
      PathKept(t, t', h(t[s].key), t[s].key, s, slot);
    }
    SoundUnique(t, h);
    SoundUnique(t', h);
    BuryContents(t, slot);
  }

  lemma BuryContents(t: seq<Entry>, slot: nat)
    requires Unique(t) && slot < |t| && t[slot].status == Allocated && Unique(Bury(t, slot))
    ensures Contents(Bury(t, slot)) == Contents(t) - {t[slot].key}
  {
    var t' := Bury(t, slot);
    forall x | x in Contents(t')
      ensures x in Contents(t) && x != t[slot].key && Contents(t')[x] == Contents(t)[x]
    {
      var s := ContentsFrom(t', x);
      ContentsAt(t, s);
    }
    forall x | x in Contents(t) && x != t[slot].key
      ensures x in Contents(t')
    {
      var s := ContentsFrom(t, x);
      ContentsAt(t', s);
    }
  }

  // ---------------------------------------------------------------------- counting

  // The number of entries that are not free.
  function UsedCount(t: seq<Entry>): (n: nat)
    ensures n <= |t|
  {
    if t == [] then 0 else UsedCount(t[..|t| - 1]) + if t[|t| - 1].status == Free then 0 else 1
  }

  function DeletedCount(t: seq<Entry>): (n: nat)
    ensures n <= UsedCount(t)
  {
    if t == [] then 0 else DeletedCount(t[..|t| - 1]) + if t[|t| - 1].status == Deleted then 1 else 0
  }

  lemma {:induction false} CountUpdate(t: seq<Entry>, s: nat, e: Entry)
    requires s < |t|
    ensures UsedCount(t[s := e]) ==
            UsedCount(t) - (if t[s].status == Free then 0 else 1) + (if e.status == Free then 0 else 1)
    ensures DeletedCount(t[s := e]) ==
            DeletedCount(t) - (if t[s].status == Deleted then 1 else 0) + (if e.status == Deleted then 1 else 0)
  {
    var t', n := t[s := e], |t| - 1;
    if s == n {
      assert t'[..n] == t[..n];
    } else {
      assert t'[..n] == t[..n][s := e];
      CountUpdate(t[..n], s, e);
    }
  }

  // A table that is not full has a free entry.
  lemma {:induction false} FreeExists(t: seq<Entry>) returns (s: nat)
    requires UsedCount(t) < |t|
    ensures s < |t| && t[s].status == Free
  {
    var n := |t| - 1;
    if t[n].status == Free {
      s := n;
    } else {
      s := FreeExists(t[..n]);
    }
  }

  lemma {:induction false} CountFree(t: seq<Entry>)
    requires forall s | 0 <= s < |t| :: t[s].status == Free
    ensures UsedCount(t) == DeletedCount(t) == 0
  {
    if t != [] {
      CountFree(t[..|t| - 1]);
    }
  }

  // Some probe finds a free entry, so no probe loop runs for ever.
  lemma ProbeFree(t: seq<Entry>, hash: nat) returns (k: nat)
    requires IsPower(|t|) && UsedCount(t) < |t|
    ensures k < |t| && Probed(t, hash, k).status == Free
  {
    var s := FreeExists(t);
    EverySlot(hash, |t|, s);
    k :| k < |t| && Probe(hash, k, |t|) == s;
  }

  // ---------------------------------------------------------------------- rehashing

  function LiveCount(t: seq<Entry>): nat {
    UsedCount(t) - DeletedCount(t)
  }

  lemma {:induction false} LiveGrows(t: seq<Entry>, i: nat)
    requires i <= |t|
    ensures LiveCount(t[..i]) <= LiveCount(t)
  {
    if i < |t| {
      assert t[..|t| - 1][..i] == t[..i];
      LiveGrows(t[..|t| - 1], i);
    } else {
      assert t[..i] == t;
    }
  }

  lemma LiveNext(t: seq<Entry>, i: nat)
    requires i < |t|
    ensures LiveCount(t[..i + 1]) == LiveCount(t[..i]) + if t[i].status == Allocated then 1 else 0
  {
    assert t[..i + 1][..i] == t[..i];
  }

  // t holds the live entries among the first i of the old table, and nothing else.
  ghost predicate Rehashed(was: seq<Entry>, i: nat, t: seq<Entry>, h: HashFunction)
    requires i <= |was|
  {
    && Sound(t, h) && Contents(t) == Contents(was[..i])
    && UsedCount(t) == LiveCount(was[..i]) && DeletedCount(t) == 0
  }

  ghost predicate Has(t: seq<Entry>, key: nat) {
    exists s :: 0 <= s < |t| && t[s].status == Allocated && t[s].key == key
  }

  // A map with exactly the bindings of the table is its contents.
  lemma ContentsAre(t: seq<Entry>, m: map<nat, nat>)
    requires Unique(t)
    requires forall s | 0 <= s < |t| && t[s].status == Allocated :: t[s].key in m && m[t[s].key] == t[s].value
    requires forall x | x in m :: Has(t, x)
    ensures Contents(t) == m
  {
  }

  lemma ContentsNext(t: seq<Entry>, i: nat)
    requires i < |t| && Unique(t)
    ensures t[i].status == Allocated ==> t[i].key !in Contents(t[..i])
    ensures Contents(t[..i + 1]) ==
            if t[i].status == Allocated then Contents(t[..i])[t[i].key := t[i].value] else Contents(t[..i])
  {
    var a, b := t[..i], t[..i + 1];
    assert Unique(a) && Unique(b);
    if t[i].status == Allocated && t[i].key in Contents(a) {
      var s := ContentsFrom(a, t[i].key);
    }
    var m := if t[i].status == Allocated then Contents(a)[t[i].key := t[i].value] else Contents(a);
    hide Contents, Unique;
    forall s: nat | s < |b| && b[s].status == Allocated
      ensures b[s].key in m && m[b[s].key] == b[s].value
    {
      if s < i {
        assert a[s] == b[s];
        ContentsAt(a, s);
      }
    }
    forall x | x in m
      ensures Has(b, x)
    {
      if t[i].status == Allocated && x == t[i].key {
        assert b[i] == t[i];
      } else {
        var s := ContentsFrom(a, x);
        assert b[s] == a[s];
      }
    }
    ContentsAre(b, m);
  }

  lemma RehashStart(was: seq<Entry>, t: seq<Entry>, h: HashFunction)
    requires |t| > 0 && forall s | 0 <= s < |t| :: t[s] == FREE_ENTRY
    ensures Rehashed(was, 0, t, h)
  {
    CountFree(t);
    assert Keys(t) == {} == Keys(was[..0]);
  }

  lemma RehashSkip(was: seq<Entry>, i: nat, t: seq<Entry>, h: HashFunction)
    requires i < |was| && Unique(was) && Rehashed(was, i, t, h) && was[i].status != Allocated
    ensures Rehashed(was, i + 1, t, h)
  {
    ContentsNext(was, i);
    LiveNext(was, i);
  }

  // The slot found for an absent key in a table without tombstones is free.
  lemma FreshSlot(t: seq<Entry>, h: HashFunction, key: nat, k: nat)
    requires Sound(t, h) && key !in Contents(t) && DeletedCount(t) == 0 && InsertEnds(t, h(key), key, k)
    ensures Probed(t, h(key), k).status == Free
  {
    SoundUnique(t, h);
    var s := Probe(h(key), k, |t|);
    if t[s].status == Allocated {
      ContentsAt(t, s);
    }
    NoTombstone(t, s);
  }

  lemma {:induction false} NoTombstone(t: seq<Entry>, s: nat)
    requires DeletedCount(t) == 0 && s < |t|
    ensures t[s].status != Deleted
  {
    if s < |t| - 1 {
      NoTombstone(t[..|t| - 1], s);
    }
  }

  lemma RehashPut(was: seq<Entry>, i: nat, t: seq<Entry>, h: HashFunction, k: nat)
    requires i < |was| && Unique(was) && Rehashed(was, i, t, h) && was[i].status == Allocated
    requires InsertEnds(t, h(was[i].key), was[i].key, k)
    ensures Rehashed(was, i + 1, Put(t, Probe(h(was[i].key), k, |t|), was[i].key, was[i].value), h)
  {
    var key := was[i].key;
    ContentsNext(was, i);
    LiveNext(was, i);
    FreshSlot(t, h, key, k);
    PutExact(t, h, key, was[i].value, k);
    CountUpdate(t, Probe(h(key), k, |t|), Entry(Allocated, key, was[i].value));
  }

  // All that an insertion needs to know about the slot it found.
  lemma InsertFacts(t: seq<Entry>, h: HashFunction, key: nat, value: nat, k: nat, slot: nat)
    requires Sound(t, h) && InsertEnds(t, h(key), key, k) && slot == Probe(h(key), k, |t|)
    ensures var t' := Put(t, slot, key, value);
            && (NoTombstoneBefore(t, h, key) <==> Sound(t', h))
            && (NoTombstoneBefore(t, h, key) <==> Unique(t'))
            && (NoTombstoneBefore(t, h, key) ==> Contents(t') == Contents(t)[key := value])
            && UsedCount(t') == UsedCount(t) + (if t[slot].status == Free then 1 else 0)
            && DeletedCount(t') == DeletedCount(t) - (if t[slot].status == Deleted then 1 else 0)
    ensures t[slot].status == Allocated ==> t[slot].key == key
    ensures t[slot].status == Free ==> key !in Contents(t) && NoTombstoneBefore(t, h, key)
  {
    MayInsertIff(t, h, key, k);
    PutExact(t, h, key, value, k);
    CountUpdate(t, slot, Entry(Allocated, key, value));
    InsertKey(t, h(key), key, k);
    if t[slot].status == Free {
      FreeEnd(t, h, key, k);
      AbsentSafe(t, h, key);
    }
  }

  // ------------------------------------------------------------------- an example

  function TombstoneExample(): (t: seq<Entry>)
    ensures |t| == 8
  {
    [Entry(Deleted, 1, 10), Entry(Allocated, 2, 20),
     FREE_ENTRY, FREE_ENTRY, FREE_ENTRY, FREE_ENTRY, FREE_ENTRY, FREE_ENTRY]
  }

  lemma FirstProbes(capacity: nat)
    requires capacity > 1
    ensures Probe(0, 0, capacity) == 0
    ensures Probe(0, 1, capacity) == 1
  {
    assert Triangle(0) == 0 && Triangle(1) == 1;
  }

  lemma ExampleSound(h: HashFunction)
    requires h(2) == 0
    ensures Sound(TombstoneExample(), h) && InsertEnds(TombstoneExample(), 0, 2, 0)
  {
    var t := TombstoneExample();
    FirstProbes(8);
    hide Probe;
    assert Probed(t, 0, 0) == Entry(Deleted, 1, 10);
    assert LeadsTo(t, 0, 2, 1) by {
      assert Probe(0, 1, |t|) == 1;
    }
  }

  // Keys 1 and 2 share all their probes.  Key 1 was removed; registering key 2
  // again takes its tombstone, and key 2 is in the table twice.
  lemma RegisteredTwice(h: HashFunction)
    requires h(1) == h(2) == 0
    ensures var t := TombstoneExample();
            && Sound(t, h) && InsertEnds(t, h(2), 2, 0) && !MayInsert(t, h, 2, 0)
            && !Unique(Put(t, Probe(h(2), 0, 8), 2, 30))
  {
    var t := TombstoneExample();
    ExampleSound(h);
    SoundUnique(t, h);
    ContentsAt(t, 1);
    FirstProbes(8);
    hide Probe, Sound, InsertEnds, Contents;
    PutExact(t, h, 2, 30, 0);
  }
}
