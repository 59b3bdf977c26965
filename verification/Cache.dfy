/** The code cache of cache.c: a linear-probing table from guest pc to heat and
    code offset, and the arena that compiled bytes are appended to. */
module Cache {
  import opened Words
  import opened Probe

  const ENTRIES: nat := 65536
  const ARENA: nat := 67108864
  const HOT_COUNT: nat := 100000

  /** `cache_item_t`; pc 0 marks a free slot. */
  datatype Item = Item(pc: u64, hot: nat, offset: nat)

  const FREE := Item(0, 0, 0)

  /** What the table stores for a pc. */
  datatype Entry = Entry(hot: nat, offset: nat)

  function KeysOf(items: seq<Item>): (keys: seq<u64>)
    ensures |keys| == |items| && forall i | 0 <= i < |items| :: keys[i] == items[i].pc
  {
    seq(|items|, i requires 0 <= i < |items| => items[i].pc)
  }

  /** The table as a finite map. */
  ghost function EntriesOf(items: seq<Item>, dist: map<u64, nat>): (m: map<u64, Entry>)
    requires |items| > 0
    ensures m.Keys == dist.Keys
  {
    map k | k in dist :: EntryAt(items, Slot(k, dist[k], |items|))
  }

  function EntryAt(items: seq<Item>, i: nat): Entry
    requires i < |items|
  {
    Entry(items[i].hot, items[i].offset)
  }

  ghost predicate TableOk(items: seq<Item>, dist: map<u64, nat>) {
    && |items| == ENTRIES
    && Placed(KeysOf(items), dist)
    && forall i | 0 <= i < |items| :: items[i].hot <= HOT_COUNT && (items[i].pc == 0 ==> items[i] == FREE)
  }

  /** Rewriting the entry of a key that is present. */
  lemma {:induction false} UpdateEntry(items: seq<Item>, dist: map<u64, nat>, k: u64, e: Entry)
    requires TableOk(items, dist) && k in dist && e.hot <= HOT_COUNT
    ensures var i := Slot(k, dist[k], |items|);
            var items' := items[i := Item(k, e.hot, e.offset)];
            items[i].pc == k && TableOk(items', dist) && EntriesOf(items', dist) == EntriesOf(items, dist)[k := e]
  {
    hide Slot;
    assert PlacedAt(KeysOf(items), dist, k);
    var i := Slot(k, dist[k], |items|);
    var items' := items[i := Item(k, e.hot, e.offset)];
    assert KeysOf(items') == KeysOf(items);
    forall j <- dist
      ensures EntriesOf(items', dist)[j] == EntriesOf(items, dist)[k := e][j]
    {
      assert PlacedAt(KeysOf(items), dist, j);
    }
  }

  /** Filling the free slot the probe ended at. */
  lemma {:induction false} InsertEntry(items: seq<Item>, dist: map<u64, nat>, k: u64, d: nat, e: Entry)
    requires TableOk(items, dist) && k != 0 && d <= LIMIT && e.hot <= HOT_COUNT
    requires Passed(KeysOf(items), k, d) && items[Slot(k, d, |items|)].pc == 0
    ensures var items', dist' := items[Slot(k, d, |items|) := Item(k, e.hot, e.offset)], dist[k := d];
            k !in dist && TableOk(items', dist') && EntriesOf(items', dist') == EntriesOf(items, dist)[k := e]
  {
    hide Slot;
    InsertPlaced(KeysOf(items), dist, k, d);
    AbsentAtEmpty(KeysOf(items), dist, k, d);
    var i := Slot(k, d, |items|);
    var items', dist' := items[i := Item(k, e.hot, e.offset)], dist[k := d];
    assert KeysOf(items') == KeysOf(items)[i := k];
    forall j <- dist'
      ensures EntriesOf(items', dist')[j] == EntriesOf(items, dist)[k := e][j]
    {
      if j != k {
        assert PlacedAt(KeysOf(items), dist, j);
      }
    }
  }

  /** `MIN(++hot, CACHE_HOT_COUNT)` assigned back to hot. The macro names its
      argument twice, so the increment happens once or twice depending on how
      the unsequenced assignment is read; both readings are covered. */
  function Warmer(hot: nat, twice: bool): nat {
    if hot + 1 >= HOT_COUNT then HOT_COUNT else if twice then hot + 2 else hot + 1
  }

  /** Heat after n further calls of `cache_hot`. */
  function HeatAfter(hot: nat, twice: bool, n: nat): nat {
    if n == 0 then hot else Warmer(HeatAfter(hot, twice, n - 1), twice)
  }

  /** Heat never falls, never passes the threshold, and reaches it within
      100000 calls, under either reading. */
  lemma {:induction false} HeatLaw(hot: nat, twice: bool, n: nat)
    requires hot <= HOT_COUNT
    ensures hot <= HeatAfter(hot, twice, n) <= HOT_COUNT
    ensures HeatAfter(hot, twice, n) >= if hot + n <= HOT_COUNT then hot + n else HOT_COUNT
  {
    if n != 0 {
      HeatLaw(hot, twice, n - 1);
    }
  }

  // ----- the arena -----

  /** Bytes placed by one `cache_add`. */
  datatype Region = Region(start: nat, size: nat)

  /** `align_to`. */
  function AlignTo(v: u64, align: u64): u64 {
    if align == 0 then v else RoundUp(v, align)
  }

  /** Regions lie one after the other, below the next free offset. */
  ghost predicate RegionsOk(rs: seq<Region>, offset: nat) {
    && (forall i | 0 <= i < |rs| :: rs[i].start + rs[i].size <= offset)
    && (forall i, j | 0 <= i < j < |rs| :: rs[i].start + rs[i].size <= rs[j].start)
  }

  predicate Disjoint(a: Region, b: Region) {
    a.start + a.size <= b.start || b.start + b.size <= a.start
  }

  /** Code regions lie in the arena and do not overlap. */
  lemma {:induction false} RegionsDisjoint(rs: seq<Region>, offset: nat)
    requires RegionsOk(rs, offset) && offset <= ARENA
    ensures forall i | 0 <= i < |rs| :: rs[i].start + rs[i].size <= ARENA
    ensures forall i, j | 0 <= i < |rs| && 0 <= j < |rs| && i != j :: Disjoint(rs[i], rs[j])
  {
    forall i, j | 0 <= i < |rs| && 0 <= j < |rs| && i != j
      ensures Disjoint(rs[i], rs[j])
    {
      if i < j {
        assert rs[i].start + rs[i].size <= rs[j].start;
      } else {
        assert rs[j].start + rs[j].size <= rs[i].start;
      }
    }
  }

  /** Adding the alignment does not wrap. */
  predicate NoWrapAround(v: u64, align: u64) {
    align == 0 || v + align <= TWO64
  }

  /** Aligning moves back over placed bytes if and only if the sum wraps; where
      it does not, a power of two aligns. */
  lemma {:induction false} AlignForward(v: u64, align: u64)
    ensures v <= AlignTo(v, align) <==> NoWrapAround(v, align)
    ensures NoWrapAround(v, align) ==> forall k: nat | k <= 63 && align == Pow2(k) :: AlignTo(v, align) % align == 0
  {
    hide RoundUp, Pow2;
    if align != 0 && NoWrapAround(v, align) {
      RoundUpNeverBelow(v, align);
      forall k: nat | k <= 63 && align == Pow2(k)
        ensures AlignTo(v, align) % align == 0
      {
        RoundUpSpec(v, k);
      }
    } else if align != 0 {
      RoundUpWraps(v, align);
    }
  }

  // ----- the cache object -----

  /** NullPc is the failed `assert(pc != 0)`; Diverges is the probe loop that
      never ends because the table is full of other pcs. */
  datatype Found = Hit(offset: nat) | Miss | NullPc | Diverges

  datatype HotResult = Cold | Hot | HotAbort

  datatype AddResult = Stored(offset: nat) | AddAbort

  class CodeCache {
    const table: array<Item>
    const jitcode: array<u8>
    const twice: bool
    var offset: nat
    ghost var dist: map<u64, nat>
    ghost var regions: seq<Region>

    ghost predicate Valid()
      reads this, table, jitcode
    {
      && table.Length == ENTRIES && jitcode.Length == ARENA
      && TableOk(table[..], dist)
      && offset <= ARENA && RegionsOk(regions, offset)
    }

    ghost function Entries(): map<u64, Entry>
      requires Valid()
      reads this, table, jitcode
    {
      EntriesOf(table[..], dist)
    }

    /** `new_cache`: zeroed table, fresh arena. */
    constructor (twice: bool)
      ensures Valid() && fresh(table) && fresh(jitcode)
      ensures Entries() == map[] && offset == 0 && regions == [] && this.twice == twice
    {
      this.twice := twice;
      table := new Item[ENTRIES](_ => FREE);
      jitcode := new u8[ARENA](_ => 0);
      offset := 0;
      dist := map[];
      regions := [];
      new;
      EmptyPlaced(KeysOf(table[..]));
    }

    /** `cache_lookup`: the offset stored for pc if pc is hot. It loops forever
        exactly when pc is absent and no slot is free. */
    method Lookup(pc: u64) returns (r: Found)
      requires Valid()
      ensures r == NullPc <==> pc == 0
      ensures r == Diverges <==> pc != 0 && pc !in Entries() && forall i | 0 <= i < ENTRIES :: table[i].pc != 0
      ensures r.Hit? <==> pc != 0 && pc in Entries() && Entries()[pc].hot >= HOT_COUNT
      ensures r.Hit? ==> r.offset == Entries()[pc].offset
    {
      hide Slot;
      if pc == 0 {
        return NullPc;
      }
      ghost var keys := KeysOf(table[..]);
      SlotStart(pc);
      var index := pc % ENTRIES;
      var count := 0;
      while table[index].pc != 0
        invariant 0 <= index < ENTRIES && index == Slot(pc, count, ENTRIES)
        invariant count < ENTRIES && Passed(keys, pc, count)
        decreases ENTRIES - count
      {
        if table[index].pc == pc {
          PresentAtFirst(keys, dist, pc, count);
          if table[index].hot >= HOT_COUNT {
            return Hit(table[index].offset);
          }
          return Miss;
        }
        SlotNext(pc, count);
        index := (index + 1) % ENTRIES;
        count := count + 1;
        if count == ENTRIES {
          AbsentAfterTurn(keys, dist, pc);
          return Diverges;
        }
      }
      AbsentAtEmpty(keys, dist, pc, count);
      return Miss;
    }

    /** `cache_hot`: counts one more interpreted visit of pc. */
    method Visit(pc: u64) returns (r: HotResult)
      requires Valid() && pc != 0
      modifies this`dist, table
      ensures Valid()
      ensures r == HotAbort <==> pc !in old(Entries()) && Crowded(old(KeysOf(table[..])), pc)
      ensures r == HotAbort ==> Entries() == old(Entries()) && table[..] == old(table[..])
      ensures pc in old(Entries()) ==>
                var e := old(Entries())[pc];
                Entries() == old(Entries())[pc := e.(hot := Warmer(e.hot, twice))]
                && (r == Hot <==> Warmer(e.hot, twice) >= HOT_COUNT)
      ensures r != HotAbort && pc !in old(Entries()) ==> r == Cold && Entries() == old(Entries())[pc := Entry(1, 0)]
    {
      hide Slot;
      var index, count := Find(pc);
      if index == ENTRIES {
        return HotAbort;
      }
      ghost var items := table[..];
      if table[index].pc == pc {
        var e := Entry(Warmer(table[index].hot, twice), table[index].offset);
        UpdateEntry(items, dist, pc, e);
        table[index] := Item(pc, e.hot, e.offset);
        assert table[..] == items[index := Item(pc, e.hot, e.offset)];
        return if e.hot >= HOT_COUNT then Hot else Cold;
      }
      InsertEntry(items, dist, pc, count, Entry(1, 0));
      table[index] := Item(pc, 1, table[index].offset);
      assert table[..] == items[index := Item(pc, 1, 0)];
      dist := dist[pc := count];
      return Cold;
    }

    /** The bounded probe loop of `cache_hot` and `cache_add`: the slot of pc,
        or the free slot where it belongs; ENTRIES if the limit is exceeded. */
    method Find(pc: u64) returns (index: nat, ghost count: nat)
      requires Valid() && pc != 0
      ensures index <= ENTRIES && count <= LIMIT + 1
      ensures index == ENTRIES <==> pc !in dist && Crowded(KeysOf(table[..]), pc)
      ensures index < ENTRIES && table[index].pc == pc ==> pc in dist && index == Slot(pc, dist[pc], ENTRIES)
      ensures index < ENTRIES && table[index].pc != pc ==>
                table[index].pc == 0 && pc !in dist && count <= LIMIT && index == Slot(pc, count, ENTRIES)
                && Passed(KeysOf(table[..]), pc, count)
    {
      hide Slot;
      ghost var keys := KeysOf(table[..]);
      SlotStart(pc);
      index := pc % ENTRIES;
      var searched := 0;
      count := 0;
      while table[index].pc != 0
        invariant 0 <= index < ENTRIES && index == Slot(pc, count, ENTRIES)
        invariant count == searched <= LIMIT && Passed(keys, pc, count)
        decreases LIMIT - searched
      {
        if table[index].pc == pc {
          PresentAtFirst(keys, dist, pc, count);
          return;
        }
        SlotNext(pc, count);
        index := (index + 1) % ENTRIES;
        searched := searched + 1;
        count := searched;
        if searched > LIMIT {
          CrowdedIfPassed(keys, pc);
          index := ENTRIES;
          AbsentBeyond(keys, dist, pc);
          return;
        }
      }
      AbsentAtEmpty(keys, dist, pc, count);
      NotCrowded(keys, pc, count);
    }

    /** `cache_add`: appends code to the arena at the next aligned offset and
        makes it the offset of pc. Nothing placed earlier moves or changes. */
    method Add(pc: u64, code: seq<u8>, align: u64) returns (r: AddResult)
      requires Valid() && pc != 0 && NoWrapAround(offset, align)
      modifies this, table, jitcode
      ensures Valid()
      ensures r == AddAbort <==> AlignTo(old(offset), align) + |code| > ARENA
                                 || (pc !in old(Entries()) && Crowded(old(KeysOf(table[..])), pc))
      ensures r == AddAbort ==> Entries() == old(Entries()) && regions == old(regions) && offset == old(offset)
      ensures r.Stored? ==>
                && r.offset == AlignTo(old(offset), align) && offset == r.offset + |code|
                && regions == old(regions) + [Region(r.offset, |code|)]
                && jitcode[r.offset..r.offset + |code|] == code
                && Entries() == old(Entries())[
                     pc := Entry(if pc in old(Entries()) then old(Entries())[pc].hot else 0, r.offset)]
      ensures forall i | 0 <= i < old(offset) :: jitcode[i] == old(jitcode[i])
    {
      hide Slot, RoundUp, Pow2, Crowded, Placed, AlignTo, Passed;
      AlignForward(offset, align);
      var start := AlignTo(offset, align);
      if start + |code| > ARENA {
        return AddAbort;
      }
      var index, count := Find(pc);
      if index == ENTRIES {
        return AddAbort;
      }
      Copy(code, start);
      ghost var items := table[..];
      if table[index].pc == pc {
        UpdateEntry(items, dist, pc, Entry(table[index].hot, start));
        table[index] := table[index].(offset := start);
        assert table[..] == items[index := Item(pc, items[index].hot, start)];
      } else {
        InsertEntry(items, dist, pc, count, Entry(0, start));
        table[index] := Item(pc, table[index].hot, start);
        assert table[..] == items[index := Item(pc, 0, start)];
        dist := dist[pc := count];
      }
      offset := start + |code|;
      regions := regions + [Region(start, |code|)];
      r := Stored(start);
    }

    /** `memcpy(jitcode + start, code, sz)`. */
    method Copy(code: seq<u8>, start: nat)
      requires start + |code| <= jitcode.Length
      modifies jitcode
      ensures jitcode[start..start + |code|] == code
      ensures forall i | 0 <= i < jitcode.Length && !(start <= i < start + |code|) :: jitcode[i] == old(jitcode[i])
    {
      for k := 0 to |code|
        invariant jitcode[start..start + k] == code[..k]
        invariant forall i | 0 <= i < jitcode.Length && !(start <= i < start + k) :: jitcode[i] == old(jitcode[i])
      {
        jitcode[start + k] := code[k];
        assert jitcode[start..start + k + 1] == code[..k] + [code[k]];
      }
    }
  }

  lemma {:induction false} SlotStart(pc: u64)
    ensures Slot(pc, 0, ENTRIES) == pc % ENTRIES
  {
  }

  lemma {:induction false} SlotNext(pc: u64, d: nat)
    ensures Slot(pc, d + 1, ENTRIES) == (Slot(pc, d, ENTRIES) + 1) % ENTRIES
  {
  }

  lemma {:induction false} AbsentAfterTurn(keys: seq<u64>, dist: map<u64, nat>, pc: u64)
    requires Placed(keys, dist) && |keys| == ENTRIES && Passed(keys, pc, ENTRIES)
    ensures pc !in dist && forall i | 0 <= i < ENTRIES :: keys[i] != 0
  {
    hide Slot;
    AbsentBeyond(keys, dist, pc);
    forall i | 0 <= i < ENTRIES
      ensures keys[i] != 0
    {
      var e := FullTurn(pc, i, ENTRIES);
    }
  }
}
