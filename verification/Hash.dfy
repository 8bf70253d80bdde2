// The finalizer table, updated in place (src/hash.c).
module Hashes {
  import opened Units
  import opened Probing
  import opened HashTables

  const MINSIZE: nat := 8
  const MAXSIZE: nat := 0x8000_0000_0000_0000
  const ENTRY_BYTES: nat := 24

  // The new capacity: a power of two that is large enough.
  function Doubled(n: nat, capacity: nat): (m: nat)
    requires n > 0
    ensures m >= n && m >= capacity && (m == n || m < 2 * capacity)
    decreases capacity - n
  {
    if n < capacity then Doubled(2 * n, capacity) else n
  }

  lemma {:induction false} DoubledPower(n: nat, capacity: nat, e: nat)
    requires n == Power(e)
    ensures IsPower(Doubled(n, capacity))
    decreases capacity - n
  {
    if n < capacity {
      assert 2 * n == Power(e + 1);
      DoubledPower(2 * n, capacity, e + 1);
    }
  }

  // No power of two lies between n and Doubled(n, capacity) but below capacity.
  lemma {:induction false} DoubledLeast(n: nat, capacity: nat, e: nat, f: nat)
    requires n == Power(e) && e <= f && capacity <= Power(f)
    ensures Doubled(n, capacity) <= Power(f)
    decreases capacity - n
  {
    if n < capacity {
      if e == f {
        assert false;
      }
      assert 2 * n == Power(e + 1);
      DoubledLeast(2 * n, capacity, e + 1, f);
    } else {
      PowerMonotone(e, f);
    }
  }

  lemma {:induction false} PowerMonotone(e: nat, f: nat)
    requires e <= f
    ensures Power(e) <= Power(f)
    decreases f
  {
    if e < f {
      PowerMonotone(e, f - 1);
    }
  }

  function NewCapacity(capacity: nat): nat {
    Doubled(MINSIZE, if capacity > MAXSIZE then MAXSIZE else capacity)
  }

  lemma CapacityPower(capacity: nat)
    ensures IsPower(NewCapacity(capacity))
  {
    assert MINSIZE == Power(3) by {
      assert Power(1) == 2 && Power(2) == 4;
    }
    DoubledPower(MINSIZE, if capacity > MAXSIZE then MAXSIZE else capacity, 3);
  }

  // A power of two that is at least 8 is a multiple of 4.
  lemma Quarters(capacity: nat)
    requires IsPower(capacity) && capacity >= MINSIZE
    ensures capacity % 4 == 0 && capacity - 1 - (capacity - 1) / 4 == capacity / 4 * 3
  {
    var n: nat :| capacity == Power(n);
    assert Power(0) == 1 && Power(1) == 2;
    assert capacity == 2 * Power(n - 1) == 4 * Power(n - 2);
  }

  // A table never grows when its tombstones are cleared.
  lemma ShrinksOnly(capacity: nat, used: nat)
    requires IsPower(capacity) && MINSIZE <= capacity && used <= capacity
    ensures NewCapacity(used) <= capacity
  {
    var n: nat :| capacity == Power(n);
    assert Power(0) == 1 && Power(1) == 2 && Power(2) == 4 && Power(3) == 8;
    if n < 3 {
      PowerMonotone(n, 2);
    }
    DoubledLeast(MINSIZE, if used > MAXSIZE then MAXSIZE else used, 3, n);
  }

  lemma NextProbe(hash: nat, k: nat, capacity: nat)
    requires capacity > 0
    ensures Probe(hash, k + 1, capacity) == (hash + Triangle(k) + (k + 1)) % capacity
    ensures Triangle(k + 1) == Triangle(k) + (k + 1)
    ensures Probe(hash, 0, capacity) == hash % capacity && Triangle(0) == 0
  {
  }

  class Hash {
    const hash: HashFunction
    var entries: array<Entry>
    var mask: nat
    var used: nat
    var deleted: nat

    ghost predicate Sized()
      reads this, entries
    {
      && IsPower(entries.Length) && MINSIZE <= entries.Length && ENTRY_BYTES * entries.Length < 2 * MAXSIZE
      && mask == entries.Length - 1
    }

    ghost predicate Counted()
      reads this, entries
    {
      && Sized() && Sound(entries[..], hash)
      && used == UsedCount(entries[..]) && deleted == DeletedCount(entries[..])
      && used <= mask - mask / 4
    }

    ghost predicate Valid()
      reads this, entries
    {
      Counted() && deleted < (mask + 1) / 4
    }

    ghost function Map(): map<nat, nat>
      reads this, entries
    {
      Contents(entries[..])
    }

    // GC_Hash_create, when calloc can succeed.
    constructor (hash: HashFunction, capacity: nat)
      requires ENTRY_BYTES * NewCapacity(capacity) < 2 * MAXSIZE
      ensures Valid() && Map() == map[] && fresh(entries) && this.hash == hash
    {
      this.hash := hash;
      entries := new Entry[NewCapacity(capacity)](_ => FREE_ENTRY);
      mask, used, deleted := NewCapacity(capacity) - 1, 0, 0;
      new;
      CapacityPower(capacity);
      RehashStart([], entries[..], hash);
      assert Keys([]) == {};
    }

    // lookupForInsert
    method LookupForInsert(key: nat) returns (slot: nat, ghost k: nat)
      requires Sized() && UsedCount(entries[..]) < entries.Length
      ensures slot < entries.Length && slot == Probe(hash(key), k, entries.Length)
      ensures InsertEnds(entries[..], hash(key), key, k)
    {
      ghost var stop := ProbeFree(entries[..], hash(key));
      var i, j := hash(key), 1;
      k := 0;
      slot := i % (mask + 1);
      NextProbe(hash(key), 0, entries.Length);
      hide Probe, Triangle;
      while !(entries[slot].status != Allocated || entries[slot].key == key)
        invariant j == k + 1 && i == hash(key) + Triangle(k) && k <= stop
        invariant slot == Probe(hash(key), k, entries.Length)
        invariant forall l: nat | l < k :: !StopsInsert(Probed(entries[..], hash(key), l), key)
        decreases stop - k
      {
        NextProbe(hash(key), k, entries.Length);
        i := i + j;
        j := j + 1;
        slot := i % (mask + 1);
        k := k + 1;
      }
    }

    // The loop of GC_Hash_search and of GC_Hash_delete.
    method Lookup(key: nat) returns (slot: nat, ghost k: nat)
      requires Sized() && UsedCount(entries[..]) < entries.Length
      ensures slot < entries.Length && slot == Probe(hash(key), k, entries.Length)
      ensures SearchEnds(entries[..], hash(key), key, k)
    {
      ghost var stop := ProbeFree(entries[..], hash(key));
      var i, j := hash(key), 1;
      k := 0;
      slot := i % (mask + 1);
      NextProbe(hash(key), 0, entries.Length);
      hide Probe, Triangle;
      while !(entries[slot].status == Free || entries[slot].key == key)
        invariant j == k + 1 && i == hash(key) + Triangle(k) && k <= stop
        invariant slot == Probe(hash(key), k, entries.Length)
        invariant forall l: nat | l < k :: !StopsSearch(Probed(entries[..], hash(key), l), key)
        decreases stop - k
      {
        NextProbe(hash(key), k, entries.Length);
        i := i + j;
        j := j + 1;
        slot := i % (mask + 1);
        k := k + 1;
      }
    }

    // GC_Hash_search; 0 stands for NULL.
    method Search(key: nat) returns (value: nat)
      requires Valid()
      ensures value == if key in Map() then Map()[key] else 0
    {
      Quarters(entries.Length);
      var slot;
      ghost var k;
      slot, k := Lookup(key);
      SearchFinds(entries[..], hash, key, k);
      if entries[slot].status == Allocated {
        return entries[slot].value;
      }
      return 0;
    }

    // Copy the live entries of the old table into the new one.
    method Rehash(from: array<Entry>) returns (live: nat)
      requires Sized() && from != entries && from.Length > 0 && Sound(from[..], hash)
      requires LiveCount(from[..]) <= entries.Length && forall s | 0 <= s < entries.Length :: entries[s] == FREE_ENTRY
      modifies entries
      ensures Rehashed(from[..], from.Length, entries[..], hash) && live == LiveCount(from[..])
    {
      live := 0;
      SoundUnique(from[..], hash);
      RehashStart(from[..], entries[..], hash);
      var e := 0;
      while e < from.Length
        invariant e <= from.Length && Rehashed(from[..], e, entries[..], hash) && live == LiveCount(from[..e])
      {
        LiveNext(from[..], e);
        assert from[..][..e] == from[..e] && from[..][..e + 1] == from[..e + 1];
        if from[e].status == Allocated {
          LiveGrows(from[..], e + 1);
          var slot;
          ghost var k;
          slot, k := LookupForInsert(from[e].key);
          RehashPut(from[..], e, entries[..], hash, k);
          ghost var t := entries[..];
          entries[slot] := Entry(Allocated, from[e].key, from[e].value);
          assert entries[..] == Put(t, slot, from[e].key, from[e].value);
          live := live + 1;
        } else {
          RehashSkip(from[..], e, entries[..], hash);
        }
        e := e + 1;
      }
      assert from[..e] == from[..];
    }

    // resize: ok is false where calloc cannot succeed and the source aborts.  With more
    // live entries than slots the search for a slot would not end.
    method Resize(capacity: nat) returns (ok: bool)
      requires Counted() && LiveCount(entries[..]) <= NewCapacity(capacity)
      modifies this, entries
      ensures ok == (ENTRY_BYTES * NewCapacity(capacity) < 2 * MAXSIZE)
      ensures ok ==> Sized() && Sound(entries[..], hash) && Map() == old(Map()) && fresh(entries)
      ensures ok ==> entries.Length == NewCapacity(capacity)
      ensures ok ==> (Valid() <==> old(LiveCount(entries[..])) <= NewCapacity(capacity) / 4 * 3)
      ensures ok ==> used == old(used - deleted) && deleted == 0
      ensures !ok ==> unchanged(this) && unchanged(entries)
    {
      var newCapacity := NewCapacity(capacity);
      if ENTRY_BYTES * newCapacity >= 2 * MAXSIZE {
        return false;
      }
      CapacityPower(capacity);
      Quarters(newCapacity);
      var oldEntries := entries;
      entries := new Entry[newCapacity](_ => FREE_ENTRY);
      mask := newCapacity - 1;
      var live := Rehash(oldEntries);
      assert oldEntries[..oldEntries.Length] == oldEntries[..];
      used := live;
      deleted := 0;
      ok := true;
    }

    // clearTombstones
    method ClearTombstones()
      requires Counted()
      modifies this, entries
      ensures Valid() && Map() == old(Map())
      ensures entries == old(entries) || fresh(entries)
      ensures entries.Length <= old(entries.Length)
      ensures 4 * old(deleted) < old(entries.Length) ==> entries == old(entries)
      ensures 4 * old(deleted) >= old(entries.Length) ==> deleted == 0
    {
      Quarters(entries.Length);
      hide Sound, Contents, UsedCount, DeletedCount, NewCapacity, IsPower;
      if deleted >= (mask + 1) / 4 {
        Quarters(entries.Length);
        ShrinksOnly(entries.Length, used);
        CapacityPower(used);
        Quarters(NewCapacity(used));
        var ok := Resize(used);
      }
    }

    // `allocate`
    method Store(slot: nat, key: nat, value: nat)
      requires slot < entries.Length
      modifies entries
      ensures entries[..] == Put(old(entries[..]), slot, key, value)
    {
      entries[slot] := Entry(Allocated, key, value);
    }

    // GC_Hash_insert: it refines the update of the map exactly if no tombstone
    // precedes the key on its probe path.
    method Insert(key: nat, value: nat) returns (ok: bool)
      requires Valid()
      modifies this, entries
      ensures entries == old(entries) || fresh(entries)
      ensures ok ==> (Valid() <==> old(NoTombstoneBefore(entries[..], hash, key)))
      ensures ok && !old(NoTombstoneBefore(entries[..], hash, key)) ==> !Unique(entries[..])
      ensures ok && old(NoTombstoneBefore(entries[..], hash, key)) ==> Map() == old(Map())[key := value]
      ensures !ok ==> Map() == old(Map()) && 2 * ENTRY_BYTES * entries.Length >= 2 * MAXSIZE
      ensures 4 * old(used) < 3 * old(entries.Length) ==> ok && entries == old(entries)
      ensures entries.Length == old(entries.Length) || entries.Length == 2 * old(entries.Length)
    {
      ghost var t := entries[..];
      Quarters(entries.Length);
      var slot;
      ghost var k;
      slot, k := LookupForInsert(key);
      hide Sound, InsertEnds, Contents, NoTombstoneBefore, UsedCount, DeletedCount;
      InsertFacts(t, hash, key, value, k, slot);
      if entries[slot].status == Free {
        ok := InsertNew(key, value, slot, k);
      } else {
        Overwrite(slot, key, value);
        ok := true;
      }
    }

    // The key's own slot, or a tombstone that is recycled.
    method Overwrite(slot: nat, key: nat, value: nat)
      requires Valid() && slot < entries.Length && entries[slot].status != Free
      requires var t, t' := entries[..], Put(entries[..], slot, key, value);
               && UsedCount(t') == UsedCount(t)
               && DeletedCount(t') == DeletedCount(t) - (if t[slot].status == Deleted then 1 else 0)
      modifies this`deleted, entries
      ensures entries[..] == Put(old(entries[..]), slot, key, value)
      ensures Valid() <==> Sound(entries[..], hash)
    {
      hide Sound, IsPower, UsedCount, DeletedCount, Put;
      if entries[slot].status == Deleted {
        deleted := deleted - 1;
      }
      Store(slot, key, value);
    }

    // The case of a free slot: the table doubles at three quarters load.
    method InsertNew(key: nat, value: nat, slot0: nat, ghost k0: nat) returns (ok: bool)
      requires Valid() && slot0 < entries.Length && slot0 == Probe(hash(key), k0, entries.Length)
      requires InsertEnds(entries[..], hash(key), key, k0) && entries[slot0].status == Free && key !in Map()
      modifies this, entries
      ensures entries == old(entries) || fresh(entries)
      ensures ok ==> Valid() && Map() == old(Map())[key := value]
      ensures !ok ==> Map() == old(Map()) && 2 * ENTRY_BYTES * entries.Length >= 2 * MAXSIZE
      ensures 4 * old(used) < 3 * old(entries.Length) ==> ok && entries == old(entries)
      ensures entries.Length == old(entries.Length) || entries.Length == 2 * old(entries.Length)
    {
      var slot := slot0;
      ghost var k := k0;
      Quarters(entries.Length);
      hide Sound, InsertEnds, Contents;
      if used >= mask - mask / 4 {
        DoublesAt(entries.Length, used);
        ok := Resize(used * 2);
        if !ok {
          return;
        }
        Quarters(entries.Length);
        slot, k := LookupForInsert(key);
        FreshSlot(entries[..], hash, key, k);
      }
      Occupy(key, value, slot, k);
      ok := true;
    }

    method Occupy(key: nat, value: nat, slot: nat, ghost k: nat)
      requires Valid() && used < mask - mask / 4 && slot < entries.Length && slot == Probe(hash(key), k, entries.Length)
      requires InsertEnds(entries[..], hash(key), key, k) && entries[slot].status == Free && key !in Map()
      modifies this`used, entries
      ensures Valid() && Map() == old(Map())[key := value]
    {
      PutExact(entries[..], hash, key, value, k);
      CountUpdate(entries[..], slot, Entry(Allocated, key, value));
      hide Sound, InsertEnds, Contents;
      used := used + 1;
      Store(slot, key, value);
    }

    // An entry becomes a tombstone.
    method BuryAt(slot: nat)
      requires Counted() && slot < entries.Length && entries[slot].status == Allocated
      modifies this`deleted, entries
      ensures Counted() && entries[..] == Bury(old(entries[..]), slot)
      ensures Map() == old(Map()) - {old(entries[slot].key)}
    {
      ghost var t := entries[..];
      BurySound(t, hash, slot);
      CountUpdate(t, slot, t[slot].(status := Deleted));
      hide Sound, Contents, UsedCount, DeletedCount, IsPower;
      entries[slot] := entries[slot].(status := Deleted);
      deleted := deleted + 1;
      assert entries[..] == Bury(t, slot);
    }

    // GC_Hash_delete
    method Delete(key: nat) returns (value: nat)
      requires Valid()
      modifies this, entries
      ensures Valid() && (entries == old(entries) || fresh(entries))
      ensures value == if key in old(Map()) then old(Map())[key] else 0
      ensures Map() == old(Map()) - {key}
      ensures entries.Length <= old(entries.Length)
    {
      ghost var t := entries[..];
      Quarters(entries.Length);
      var slot;
      ghost var k;
      slot, k := Lookup(key);
      SearchFinds(t, hash, key, k);
      if entries[slot].status == Allocated {
        BuryAt(slot);
        value := entries[slot].value;
        ClearTombstones();
        return;
      }
      return 0;
    }

    // The table after the first i entries were visited: `gone` are the keys that
    // were removed, in the order of the calls.
    ghost predicate Visiting(callback: (nat, nat) -> bool, m: map<nat, nat>, i: nat, gone: seq<nat>)
      reads this, entries
    {
      && Counted() && i <= entries.Length && Removed(m, callback, gone) && Map() == m - KeySet(gone)
      && forall s: nat | s < i && entries[s].status == Allocated :: !callback(entries[s].key, entries[s].value)
    }

    // GC_Hash_deleteIf: the callback accepts the entries of exactly the keys in
    // `gone`, each of them once.
    method DeleteIf(callback: (nat, nat) -> bool) returns (ghost gone: seq<nat>)
      requires Valid()
      modifies this, entries
      ensures Valid() && (entries == old(entries) || fresh(entries))
      ensures Removed(old(Map()), callback, gone) && Map() == old(Map()) - KeySet(gone)
      ensures forall key | key in old(Map()) :: key in gone <==> callback(key, old(Map())[key])
      ensures entries.Length <= old(entries.Length)
    {
      hide Sound, Contents, Removed, UsedCount, DeletedCount, IsPower, KeySet;
      gone := VisitAll(callback);
      ClearTombstones();
    }

    // The loop over all entries.
    method VisitAll(callback: (nat, nat) -> bool) returns (ghost gone: seq<nat>)
      requires Valid()
      modifies this`deleted, entries
      ensures Counted() && Removed(old(Map()), callback, gone) && Map() == old(Map()) - KeySet(gone)
      ensures forall key | key in old(Map()) :: key in gone <==> callback(key, old(Map())[key])
    {
      gone := [];
      ghost var m := Map();
      var entry := 0;
      assert m - KeySet([]) == m;
      while entry < entries.Length
        invariant entry <= entries.Length && Visiting(callback, m, entry, gone)
      {
        hide Visiting;
        gone := Visit(callback, entry, gone, m);
        entry := entry + 1;
      }
      SoundUnique(entries[..], hash);
      AllVisited(entries[..], callback, m, gone);
    }

    method Visit(callback: (nat, nat) -> bool, entry: nat, ghost gone0: seq<nat>, ghost m: map<nat, nat>)
      returns (ghost gone: seq<nat>)
      requires entry < entries.Length && Visiting(callback, m, entry, gone0)
      modifies this`deleted, entries
      ensures Visiting(callback, m, entry + 1, gone)
    {
      gone := gone0;
      ghost var t := entries[..];
      if entries[entry].status == Allocated && callback(entries[entry].key, entries[entry].value) {
        SoundUnique(t, hash);
        ContentsAt(t, entry);
        gone := gone + [entries[entry].key];
        RemovedNext(m, callback, gone0, entries[entry].key);
        hide Counted, Sound, Contents, Removed;
        BuryAt(entry);
      }
    }
  }

  ghost function KeySet(keys: seq<nat>): set<nat> {
    set i: nat | i < |keys| :: keys[i]
  }

  // The keys are different keys of m whose bindings the callback accepts.
  ghost predicate Removed(m: map<nat, nat>, callback: (nat, nat) -> bool, keys: seq<nat>) {
    && (forall i, j | 0 <= i < j < |keys| :: keys[i] != keys[j])
    && (forall key | key in keys :: key in m && callback(key, m[key]))
  }

  lemma RemovedNext(m: map<nat, nat>, callback: (nat, nat) -> bool, keys: seq<nat>, key: nat)
    requires Removed(m, callback, keys) && key in m && key !in KeySet(keys) && callback(key, m[key])
    ensures Removed(m, callback, keys + [key])
    ensures m - KeySet(keys + [key]) == m - KeySet(keys) - {key}
  {
    var keys' := keys + [key];
    forall x
      ensures x in KeySet(keys') <==> x in KeySet(keys) || x == key
    {
      assert keys'[|keys|] == key;
      if i :| 0 <= i < |keys| && keys[i] == x {
        assert keys'[i] == x;
      }
    }
  }

  lemma AllVisited(t: seq<Entry>, callback: (nat, nat) -> bool, m: map<nat, nat>, gone: seq<nat>)
    requires Unique(t) && Removed(m, callback, gone) && Contents(t) == m - KeySet(gone)
    requires forall s | 0 <= s < |t| && t[s].status == Allocated :: !callback(t[s].key, t[s].value)
    ensures forall key | key in m :: key in gone <==> callback(key, m[key])
  {
    forall key | key in m
      ensures key in gone <==> callback(key, m[key])
    {
      if key !in gone {
        assert key in Contents(t);
        var s := ContentsFrom(t, key);
        assert t[s].value == m[key];
      }
    }
  }

  // At three quarters load the capacity doubles.
  lemma DoublesAt(capacity: nat, used: nat)
    requires IsPower(capacity) && MINSIZE <= capacity && ENTRY_BYTES * capacity < 2 * MAXSIZE
             && used == capacity / 4 * 3
    ensures NewCapacity(used * 2) == 2 * capacity
  {
    var n: nat :| capacity == Power(n);
    assert Power(0) == 1 && Power(1) == 2 && Power(2) == 4 && Power(3) == 8;
    Quarters(capacity);
    if n < 3 {
      PowerMonotone(n, 2);
    }
    assert 2 * capacity == Power(n + 1);
    DoubledLeast(MINSIZE, used * 2, 3, n + 1);
    DoubledBetween(MINSIZE, used * 2, 3, n);
  }

  // A capacity above 2^n needs 2^(n + 1).
  lemma {:induction false} DoubledBetween(m: nat, capacity: nat, e: nat, n: nat)
    requires m == Power(e) && e <= n && Power(n) < capacity
    ensures Doubled(m, capacity) >= Power(n + 1)
    decreases n - e
  {
    PowerMonotone(e, n);
    if e < n {
      assert 2 * m == Power(e + 1);
      DoubledBetween(2 * m, capacity, e + 1, n);
    }
  }
}
