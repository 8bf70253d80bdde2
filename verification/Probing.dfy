// Triangular probing on a table whose size is a power of two (src/hash.c).
module Probing {
  import opened Units

  ghost predicate IsPower(x: nat) {
    exists n: nat :: x == Power(n)
  }

  // 0, 1, 3, 6, ...: the distance of the k-th probe from the first.
  function Triangle(k: nat): nat {
    if k == 0 then 0 else Triangle(k - 1) + k
  }

  function Probe(hash: nat, k: nat, capacity: nat): (slot: nat)
    requires capacity > 0
    ensures slot < capacity
  {
    (hash + Triangle(k)) % capacity
  }

  lemma {:induction false} TriangleClosed(k: nat)
    ensures 2 * Triangle(k) == k * (k + 1)
  {
    if k > 0 {
      TriangleClosed(k - 1);
    }
  }

  lemma EvenFactor(x: nat, odd: nat, half: nat)
    requires odd % 2 == 1 && x * odd == 2 * half
    ensures x % 2 == 0
  {
    var b := odd / 2;
    assert x * odd == x * (2 * b + 1) == 2 * (x * b) + x;
    assert x == 2 * (half - x * b);
  }

  lemma Halves(x: nat, odd: nat, p: nat, q: nat)
    requires odd % 2 == 1 && x * odd == 2 * p * q
    ensures x % 2 == 0 && x / 2 * odd == p * q
  {
    assert 2 * p * q == 2 * (p * q);
    EvenFactor(x, odd, p * q);
    var y := x / 2;
    assert x == 2 * y && 2 * y * odd == 2 * (y * odd);
  }

  // An odd factor does not help divisibility by a power of two.
  lemma {:induction false} OddFactor(x: nat, odd: nat, n: nat, q: nat) returns (r: nat)
    requires odd % 2 == 1 && x * odd == Power(n) * q
    ensures x == Power(n) * r
    decreases n
  {
    if n == 0 {
      r := x;
    } else {
      Halves(x, odd, Power(n - 1), q);
      r := OddFactor(x / 2, odd, n - 1, q);
      assert Power(n) * r == 2 * (Power(n - 1) * r);
    }
  }

  lemma AtLeast(m: nat, r: nat)
    ensures r == 0 ==> m * r == 0
    ensures r > 0 ==> m * r >= m
  {
  }

  lemma OddCase(x: nat, odd: nat, n: nat, q: nat)
    requires odd % 2 == 1 && x > 0 && x * odd == Power(n) * q
    ensures x >= Power(n)
  {
    var r := OddFactor(x, odd, n, q);
    AtLeast(Power(n), r);
  }

  // 2 * (T(b) - T(a)) is a product of two factors of different parity.
  lemma Factors(a: nat, b: nat, ta: nat, tb: nat, x: nat)
    requires a < b && 2 * ta == a * (a + 1) && 2 * tb == b * (b + 1) && tb == ta + x
    ensures (b - a) * (a + b + 1) == 2 * x
  {
  }

  lemma Twice(p: nat, q: nat)
    ensures 2 * (p * q) == 2 * p * q
  {
  }

  lemma Commute(d: nat, s: nat)
    ensures d * s == s * d
  {
  }

  lemma OneIsLarge(d: nat, s: nat, n: nat, q: nat)
    requires d > 0 && s > 0 && (d % 2 == 1 || s % 2 == 1) && d * s == Power(n) * q
    ensures d >= Power(n) || s >= Power(n)
  {
    hide Power;
    if d % 2 == 1 {
      Commute(d, s);
      OddCase(s, d, n, q);
    } else {
      OddCase(d, s, n, q);
    }
  }

  lemma TriangleFactors(a: nat, b: nat, d: nat, s: nat, n: nat, q: nat)
    requires a < b && Triangle(b) == Triangle(a) + Power(n) * q && d == b - a && s == a + b + 1
    ensures d * s == Power(n + 1) * q
  {
    TriangleClosed(a);
    TriangleClosed(b);
    assert 2 * Power(n) == Power(n + 1);
    hide Triangle, Power;
    Factors(a, b, Triangle(a), Triangle(b), Power(n) * q);
    Twice(Power(n), q);
  }

  lemma Parity(a: nat, b: nat)
    requires a < b
    ensures (b - a) % 2 == 1 || (a + b + 1) % 2 == 1
  {
  }

  lemma TriangleGap(a: nat, b: nat, d: nat, s: nat, n: nat, q: nat)
    requires a < b && Triangle(b) == Triangle(a) + Power(n) * q && d == b - a && s == a + b + 1
    ensures d >= Power(n + 1) || s >= Power(n + 1)
  {
    hide *;
    TriangleFactors(a, b, d, s, n, q);
    Parity(a, b);
    OneIsLarge(d, s, n + 1, q);
  }

  // Two triangular numbers below the 2^n-th are not congruent modulo 2^n.
  lemma TrianglesDiffer(a: nat, b: nat, n: nat, q: nat)
    requires a < b < Power(n)
    ensures Triangle(b) != Triangle(a) + Power(n) * q
  {
    assert 2 * Power(n) == Power(n + 1);
    hide Triangle, Power;
    if Triangle(b) == Triangle(a) + Power(n) * q {
      TriangleGap(a, b, b - a, a + b + 1, n, q);
    }
  }

  lemma {:induction false} TriangleGrows(a: nat, b: nat)
    requires a <= b
    ensures Triangle(a) <= Triangle(b)
    decreases b
  {
    if a < b {
      TriangleGrows(a, b - 1);
    }
  }

  // The first `capacity` probes visit different slots.
  lemma ProbesDiffer(hash: nat, a: nat, b: nat, n: nat)
    requires a < b < Power(n)
    ensures Probe(hash, a, Power(n)) != Probe(hash, b, Power(n))
  {
    var c := Power(n);
    TriangleGrows(a, b);
    if Probe(hash, a, c) == Probe(hash, b, c) {
      Quotients(hash + Triangle(a), hash + Triangle(b), c);
      TrianglesDiffer(a, b, n, (hash + Triangle(b)) / c - (hash + Triangle(a)) / c);
    }
  }

  lemma Quotients(x: nat, y: nat, c: nat)
    requires c > 0 && x <= y && x % c == y % c
    ensures y / c >= x / c && y == x + c * (y / c - x / c)
  {
  }

  ghost function Visited(hash: nat, k: nat, capacity: nat): set<nat>
    requires capacity > 0
  {
    set j: nat | j < k :: Probe(hash, j, capacity)
  }

  lemma {:induction false} VisitedCount(hash: nat, k: nat, n: nat)
    requires k <= Power(n)
    ensures |Visited(hash, k, Power(n))| == k
  {
    if k == 0 {
      assert Visited(hash, 0, Power(n)) == {};
    } else {
      VisitedCount(hash, k - 1, n);
      var last := Probe(hash, k - 1, Power(n));
      forall j: nat | j < k - 1
        ensures Probe(hash, j, Power(n)) != last
      {
        ProbesDiffer(hash, j, k - 1, n);
      }
      assert Visited(hash, k, Power(n)) == Visited(hash, k - 1, Power(n)) + {last};
    }
  }

  ghost function Below(n: nat): (s: set<nat>)
    ensures forall j: nat :: j in s <==> j < n
  {
    if n == 0 then {} else Below(n - 1) + {n - 1}
  }

  lemma {:induction false} BelowCount(n: nat)
    ensures |Below(n)| == n
  {
    if n == 0 {
      assert Below(0) == {};
    } else {
      BelowCount(n - 1);
      assert Below(n) == Below(n - 1) + {n - 1};
    }
  }

  lemma SubsetFull(a: set<nat>, b: set<nat>)
    requires a <= b && |a| == |b|
    ensures a == b
  {
    assert b == a + (b - a);
  }

  // Every slot is visited by the first `capacity` probes.
  lemma EverySlot(hash: nat, capacity: nat, slot: nat)
    requires IsPower(capacity) && slot < capacity
    ensures exists k: nat :: k < capacity && Probe(hash, k, capacity) == slot
  {
    var n: nat :| capacity == Power(n);
    VisitedCount(hash, capacity, n);
    BelowCount(capacity);
    SubsetFull(Visited(hash, capacity, capacity), Below(capacity));
    assert slot in Visited(hash, capacity, capacity);
  }
}
