/** Linear probing with wrap-around, as set.c and cache.c both write it: a key
    is looked for at hash(key), then at each following slot, until it or an
    empty slot is met. Key 0 marks an empty slot and keys are never removed. */
module Probe {
  import opened Words

  /** MAX_SEARCH_COUNT of both tables. */
  const LIMIT: nat := 32

  /** `index++; index = hash(index)`. */
  function Next(i: nat, n: nat): nat
    requires i < n
    ensures Next(i, n) < n
  {
    if i + 1 == n then 0 else i + 1
  }

  /** The slot visited after e probes for key k. */
  function Slot(k: u64, e: nat, n: nat): nat
    requires n > 0
    ensures Slot(k, e, n) < n
  {
    if e == 0 then k % n else Next(Slot(k, e - 1, n), n)
  }

  /** dist records how many probes away from its hash each key lies: within the
      limit, with every slot on the way occupied, and with no other copies. */
  predicate Placed(keys: seq<u64>, dist: map<u64, nat>) {
    && |keys| > 0
    && (forall k <- dist :: PlacedAt(keys, dist, k))
    && (forall i | 0 <= i < |keys| :: keys[i] != 0 ==> keys[i] in dist && Slot(keys[i], dist[keys[i]], |keys|) == i)
  }

  predicate PlacedAt(keys: seq<u64>, dist: map<u64, nat>, k: u64)
    requires |keys| > 0 && k in dist
  {
    && k != 0 && dist[k] <= LIMIT
    && keys[Slot(k, dist[k], |keys|)] == k
    && forall e: nat | e < dist[k] :: keys[Slot(k, e, |keys|)] != 0
  }

  /** The first d slots probed for k are occupied by other keys. */
  predicate Passed(keys: seq<u64>, k: u64, d: nat)
    requires |keys| > 0
  {
    forall e: nat | e < d :: keys[Slot(k, e, |keys|)] != 0 && keys[Slot(k, e, |keys|)] != k
  }

  lemma {:induction false} EmptyPlaced(keys: seq<u64>)
    requires |keys| > 0 && forall i | 0 <= i < |keys| :: keys[i] == 0
    ensures Placed(keys, map[])
  {
  }

  /** Meeting an empty slot proves the key absent. */
  lemma {:induction false} AbsentAtEmpty(keys: seq<u64>, dist: map<u64, nat>, k: u64, d: nat)
    requires Placed(keys, dist) && Passed(keys, k, d) && keys[Slot(k, d, |keys|)] == 0
    ensures k !in dist
  {
    assert k in dist ==> PlacedAt(keys, dist, k);
  }

  lemma {:induction false} PresentAtFirst(keys: seq<u64>, dist: map<u64, nat>, k: u64, d: nat)
    requires Placed(keys, dist) && k != 0 && keys[Slot(k, d, |keys|)] == k
    ensures k in dist && Slot(k, dist[k], |keys|) == Slot(k, d, |keys|)
  {
  }

  /** Filling the first empty slot keeps every key findable. */
  lemma {:induction false} InsertPlaced(keys: seq<u64>, dist: map<u64, nat>, k: u64, d: nat)
    requires Placed(keys, dist) && Passed(keys, k, d) && k != 0 && d <= LIMIT && keys[Slot(k, d, |keys|)] == 0
    ensures Placed(keys[Slot(k, d, |keys|) := k], dist[k := d])
  {
    AbsentAtEmpty(keys, dist, k, d);
    var i := Slot(k, d, |keys|);
    var keys', dist' := keys[i := k], dist[k := d];
    hide Slot;
    forall j <- dist'
      ensures PlacedAt(keys', dist', j)
    {
      if j != k {
        assert PlacedAt(keys, dist, j);
      }
    }
  }

  // ----- how many keys fit -----

  function Elements(s: seq<u64>): set<u64> {
    set k <- s
  }

  lemma {:induction false} DistinctAtMost(s: seq<u64>)
    ensures |Elements(s)| <= |s|
    decreases |s|
  {
    if s == [] {
      assert Elements(s) == {};
    } else {
      var n := |s| - 1;
      DistinctAtMost(s[..n]);
      assert Elements(s) == Elements(s[..n]) + {s[n]};
    }
  }

  lemma {:induction false} DistinctExactly(s: seq<u64>)
    requires forall i, j | 0 <= i < j < |s| :: s[i] != s[j]
    ensures |Elements(s)| == |s|
    decreases |s|
  {
    if s == [] {
      assert Elements(s) == {};
    } else {
      var n := |s| - 1;
      DistinctExactly(s[..n]);
      assert Elements(s) == Elements(s[..n]) + {s[n]};
    }
  }

  lemma {:induction false} KeysFit(keys: seq<u64>, dist: map<u64, nat>)
    requires Placed(keys, dist)
    ensures |dist.Keys| <= |keys|
  {
    hide Slot;
    DistinctAtMost(keys);
    forall k <- dist.Keys
      ensures k in Elements(keys)
    {
      assert PlacedAt(keys, dist, k);
    }
    SubsetSize(dist.Keys, Elements(keys));
  }

  lemma {:induction false} SubsetSize<T>(a: set<T>, b: set<T>)
    requires a <= b
    ensures |a| <= |b|
    decreases |a|
  {
    if a != {} {
      var x :| x in a;
      SubsetSize(a - {x}, b - {x});
    }
  }

  // ----- what a crowded neighbourhood holds -----

  /** The keys in the first d slots probed for k. */
  ghost function Neighbours(keys: seq<u64>, k: u64, d: nat): set<u64>
    requires |keys| > 0
  {
    if d == 0 then {} else Neighbours(keys, k, d - 1) + {keys[Slot(k, d - 1, |keys|)]}
  }

  lemma {:induction false} NeighbourAt(keys: seq<u64>, k: u64, d: nat, x: u64) returns (e: nat)
    requires |keys| > 0 && x in Neighbours(keys, k, d)
    ensures e < d && keys[Slot(k, e, |keys|)] == x
  {
    if x == keys[Slot(k, d - 1, |keys|)] {
      e := d - 1;
    } else {
      e := NeighbourAt(keys, k, d - 1, x);
    }
  }

  lemma {:induction false} SlotsDiffer(k: u64, d: nat, e: nat, n: nat)
    requires n > 0 && d < e <= n - 1
    ensures Slot(k, d, n) != Slot(k, e, n)
  {
    SlotClosed(k, d, n);
    SlotClosed(k, e, n);
  }

  /** d occupied slots in a row hold d different keys of the table. */
  lemma {:induction false} NeighboursCount(keys: seq<u64>, dist: map<u64, nat>, k: u64, d: nat)
    requires Placed(keys, dist) && d <= |keys|
    requires forall e: nat | e < d :: keys[Slot(k, e, |keys|)] != 0
    ensures Neighbours(keys, k, d) <= dist.Keys && |Neighbours(keys, k, d)| == d
    decreases d
  {
    hide Slot;
    if d != 0 {
      NeighboursCount(keys, dist, k, d - 1);
      var x := keys[Slot(k, d - 1, |keys|)];
      if x in Neighbours(keys, k, d - 1) {
        var e := NeighbourAt(keys, k, d - 1, x);
        SlotsDiffer(k, e, d - 1, |keys|);
      }
    }
  }

  // ----- a full turn of the table -----

  lemma {:induction false} SlotClosed(k: u64, e: nat, n: nat)
    requires n > 0 && e <= n
    ensures Slot(k, e, n) == if k % n + e < n then k % n + e else k % n + e - n
  {
    if e != 0 {
      SlotClosed(k, e - 1, n);
    }
  }

  /** n probes visit every slot. */
  lemma {:induction false} FullTurn(k: u64, i: nat, n: nat) returns (e: nat)
    requires i < n
    ensures e < n && Slot(k, e, n) == i
  {
    var h := k % n;
    e := if h <= i then i - h else i - h + n;
    SlotClosed(k, e, n);
  }

  // ----- the probe limit -----

  /** All slots within the probe limit of e are taken. */
  ghost predicate Crowded(keys: seq<u64>, e: u64) {
    |keys| > 0 && forall d: nat | d <= LIMIT :: keys[Slot(e, d, |keys|)] != 0
  }

  lemma {:induction false} CrowdedIfPassed(keys: seq<u64>, e: u64)
    requires |keys| > 0 && Passed(keys, e, LIMIT + 1)
    ensures Crowded(keys, e)
  {
  }

  /** A key whose first 33 slots hold other keys is absent. */
  lemma {:induction false} AbsentBeyond(keys: seq<u64>, dist: map<u64, nat>, pc: u64)
    requires Placed(keys, dist) && Passed(keys, pc, LIMIT + 1)
    ensures pc !in dist
  {
    hide Slot;
    assert pc in dist ==> PlacedAt(keys, dist, pc);
  }

  /** A crowded neighbourhood takes 33 different elements. */
  lemma {:induction false} CrowdedMany(keys: seq<u64>, dist: map<u64, nat>, e: u64)
    requires Placed(keys, dist) && |keys| > LIMIT && Crowded(keys, e)
    ensures |dist.Keys| > LIMIT
  {
    NeighboursCount(keys, dist, e, LIMIT + 1);
    SubsetSize(Neighbours(keys, e, LIMIT + 1), dist.Keys);
  }

  lemma {:induction false} NotCrowded(keys: seq<u64>, e: u64, d: nat)
    requires |keys| > 0 && d <= LIMIT && keys[Slot(e, d, |keys|)] == 0
    ensures !Crowded(keys, e)
  {
  }
}
