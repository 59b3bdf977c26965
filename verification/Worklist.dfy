/** The two containers of `machine_genblock`: the pc stack of stack.c and the
    pc set of set.c. A failed `assert` is the Abort result. */
module Worklist {
  import opened Words
  import opened Probe

  const STACK_CAP: nat := 256
  const SET_SIZE: nat := 32768

  predicate NoDuplicates(s: seq<u64>) {
    forall i, j | 0 <= i < j < |s| :: s[i] != s[j]
  }

  /** `stack_push` on a stack without a capacity. */
  function PushOne(w: seq<u64>, e: u64): seq<u64> {
    if e in w then w else w + [e]
  }

  function PushSeq(w: seq<u64>, es: seq<u64>): seq<u64>
    decreases |es|
  {
    if es == [] then w else PushSeq(PushOne(w, es[0]), es[1..])
  }

  /** Some push of es onto w meets a stack of 256 elements. */
  predicate StackFull(w: seq<u64>, es: seq<u64>)
    decreases |es|
  {
    es != [] && (|w| >= 256 || StackFull(PushOne(w, es[0]), es[1..]))
  }

  class Stack {
    const elems: array<u64>
    var top: nat

    ghost predicate Valid()
      reads this, elems
    {
      elems.Length == STACK_CAP && top <= STACK_CAP && NoDuplicates(elems[..top])
    }

    ghost function Contents(): seq<u64>
      requires Valid()
      reads this, elems
    {
      elems[..top]
    }

    /** `static stack_t stack = {0}` followed by `stack_reset`. */
    constructor ()
      ensures Valid() && fresh(elems) && Contents() == []
    {
      elems := new u64[STACK_CAP](_ => 0);
      top := 0;
    }

    /** `stack_push`: aborts on a full stack, even for a duplicate; otherwise
        appends the element unless it is already there. */
    method Push(e: u64) returns (ok: bool)
      requires Valid()
      modifies this, elems
      ensures Valid()
      ensures ok <==> old(|Contents()|) < STACK_CAP
      ensures !ok ==> Contents() == old(Contents())
      ensures ok ==> Contents() == if e in old(Contents()) then old(Contents()) else old(Contents()) + [e]
    {
      if top >= STACK_CAP {
        return false;
      }
      for i := 0 to top
        invariant e !in elems[..i]
      {
        if elems[i] == e {
          assert elems[..top][i] == e;
          return true;
        }
      }
      elems[top] := e;
      top := top + 1;
      assert elems[..top] == old(elems[..top]) + [e];
      ok := true;
    }

    /** `stack_pop`: the last element pushed. */
    method Pop() returns (r: Option<u64>)
      requires Valid()
      modifies this
      ensures Valid()
      ensures r == None <==> old(Contents()) == []
      ensures r == None ==> Contents() == []
      ensures r.Some? ==> old(Contents()) == Contents() + [r.value]
    {
      if top == 0 {
        return None;
      }
      top := top - 1;
      assert old(elems[..top]) == elems[..top] + [elems[top]];
      r := Some(elems[top]);
    }
  }

  datatype AddResult = Added | Present | Abort

  /** How many slots from its home the first free slot for e lies; 33 if none
      of the first 33 is free. */
  function FirstFree(keys: seq<u64>, e: u64, d: nat): (f: nat)
    requires |keys| > 0 && d <= 33
    ensures d <= f <= 33
    decreases 33 - d
  {
    if d == 33 || keys[Slot(e, d, |keys|)] == 0 then d else FirstFree(keys, e, d + 1)
  }

  /** The table after `set_add` of a new element. */
  function Inserted(keys: seq<u64>, e: u64): (r: seq<u64>)
    requires |keys| > 0
    ensures |r| == |keys|
  {
    var d := FirstFree(keys, e, 0);
    if d == 33 then keys else keys[Slot(e, d, |keys|) := e]
  }

  /** The table after the elements of es were added in this order. */
  function TableOf(es: seq<u64>): (r: seq<u64>)
    ensures |r| == SET_SIZE
  {
    if es == [] then seq(SET_SIZE, _ => 0) else Inserted(TableOf(es[..|es| - 1]), es[|es| - 1])
  }

  lemma {:induction false} FirstFreeIs(keys: seq<u64>, e: u64, d: nat, f: nat)
    requires |keys| > 0 && d <= f <= LIMIT && keys[Slot(e, f, |keys|)] == 0
    requires forall i: nat | d <= i < f :: keys[Slot(e, i, |keys|)] != 0
    ensures FirstFree(keys, e, d) == f
    decreases f - d
  {
    hide Slot;
    if d < f {
      FirstFreeIs(keys, e, d + 1, f);
    }
  }

  lemma {:induction false} InsertedIs(keys: seq<u64>, e: u64, d: nat)
    requires |keys| > 0 && d <= LIMIT && keys[Slot(e, d, |keys|)] == 0 && Passed(keys, e, d)
    ensures Inserted(keys, e) == keys[Slot(e, d, |keys|) := e]
  {
    hide Slot;
    FirstFreeIs(keys, e, 0, d);
  }

  /** Two different elements hash to the same slot. */
  ghost predicate Collides(s: set<u64>) {
    exists a, b :: a in s && b in s && a != b && Home(a) == Home(b)
  }

  function Home(e: u64): nat {
    e % SET_SIZE
  }

  /** An element is off its home slot only if two elements collide. */
  ghost predicate Spread(dist: map<u64, nat>) {
    Collides(dist.Keys) || forall e <- dist :: dist[e] == 0
  }

  lemma {:induction false} CollidesMore(s: set<u64>, t: set<u64>)
    requires Collides(s) && s <= t
    ensures Collides(t)
  {
  }

  /** An absent element whose home slot is taken collides, sooner or later. */
  lemma {:induction false} TakenHome(keys: seq<u64>, dist: map<u64, nat>, e: u64)
    requires |keys| == SET_SIZE && Placed(keys, dist) && Spread(dist) && e !in dist
    requires keys[Slot(e, 0, SET_SIZE)] != 0
    ensures Collides(dist.Keys + {e})
  {
    var s := dist.Keys + {e};
    if Collides(dist.Keys) {
      CollidesMore(dist.Keys, s);
    } else {
      var k := keys[Slot(e, 0, SET_SIZE)];
      assert k in dist && Slot(k, dist[k], SET_SIZE) == Slot(e, 0, SET_SIZE);
      assert k in s && e in s && k != e && Home(k) == Home(e);
    }
  }

  lemma {:induction false} SpreadAdd(keys: seq<u64>, dist: map<u64, nat>, e: u64, d: nat)
    requires |keys| == SET_SIZE && Placed(keys, dist) && Spread(dist) && e !in dist
    requires d > 0 ==> keys[Slot(e, 0, SET_SIZE)] != 0
    ensures Spread(dist[e := d])
  {
    hide Placed, Slot, Collides;
    assert dist[e := d].Keys == dist.Keys + {e};
    if Collides(dist.Keys) {
      CollidesMore(dist.Keys, dist.Keys + {e});
    } else if d > 0 {
      TakenHome(keys, dist, e);
    }
  }

  class PcSet {
    const table: array<u64>
    ghost var dist: map<u64, nat>

    ghost predicate Valid()
      reads this, table
    {
      table.Length == SET_SIZE && Placed(table[..], dist) && Spread(dist)
    }

    ghost function Elems(): set<u64>
      reads this
    {
      dist.Keys
    }

    /** `static set_t set` followed by `set_reset`. */
    constructor ()
      ensures Valid() && fresh(table) && Elems() == {} && table[..] == TableOf([])
    {
      table := new u64[SET_SIZE](_ => 0);
      dist := map[];
      new;
      EmptyPlaced(table[..]);
    }

    /** `set_add` is insertion into a mathematical set: true exactly when the
        element was absent. It aborts only for 0, or for an absent element whose
        first 33 slots are all taken, which takes two elements that hash alike;
        never for an element already present. */
    method Add(e: u64) returns (r: AddResult)
      requires Valid()
      modifies this, table
      ensures Valid()
      ensures r == Abort <==> e == 0 || (e !in old(Elems()) && Crowded(old(table[..]), e))
      ensures r == Abort && e != 0 ==> |Elems()| > LIMIT && Collides(Elems() + {e})
      ensures r == Present <==> e != 0 && e in old(Elems())
      ensures Elems() == if r == Added then old(Elems()) + {e} else old(Elems())
      ensures table[..] == if r == Added then Inserted(old(table[..]), e) else old(table[..])
    {
      hide Collides, Spread, FirstFree, Inserted;
      if e == 0 {
        return Abort;
      }
      var index := e % SET_SIZE;
      var count := 0;
      while table[index] != 0
        invariant 0 <= index < SET_SIZE && index == Slot(e, count, SET_SIZE)
        invariant count <= LIMIT && Passed(table[..], e, count)
        invariant table[..] == old(table[..]) && dist == old(dist)
        decreases LIMIT - count
      {
        if table[index] == e {
          PresentAtFirst(table[..], dist, e, count);
          return Present;
        }
        index := (index + 1) % SET_SIZE;
        count := count + 1;
        if count > LIMIT {
          CrowdedIfPassed(table[..], e);
          CrowdedMany(table[..], dist, e);
          AbsentBeyond(table[..], dist, e);
          TakenHome(table[..], dist, e);
          return Abort;
        }
      }
      AbsentAtEmpty(table[..], dist, e, count);
      NotCrowded(table[..], e, count);
      InsertPlaced(table[..], dist, e, count);
      SpreadAdd(table[..], dist, e, count);
      InsertedIs(table[..], e, count);
      ghost var before := table[..];
      table[index] := e;
      assert table[..] == before[index := e];
      dist := dist[e := count];
      r := Added;
    }

    /** The set never holds more elements than slots. */
    lemma {:induction false} Bounded()
      requires Valid()
      ensures |Elems()| <= SET_SIZE
    {
      KeysFit(table[..], dist);
    }
  }
}
