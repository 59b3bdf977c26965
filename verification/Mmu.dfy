/** The guest break and its host mapping: `mmu_alloc`, the end of
    `mmu_load_segment`, and `sys_brk`. */
module Mmu {
  import opened Words
  import opened Guest

  const OFFSET: int := 0x0888_0000_0000

  /** `mmu_t`, with the guest page numbers mapped for the heap. */
  datatype Layout = Layout(hostAlloc: u64, alloc: u64, base: u64, mapped: set<int>)

  /** TO_GUEST(host_alloc), in wrapping arithmetic. */
  function Top(s: Layout): u64 {
    Wrap(s.hostAlloc - OFFSET)
  }

  /** Pages from the page of lo up to the page of hi. */
  function Pages(lo: int, hi: int): set<int> {
    set p: int | lo / 4096 <= p < hi / 4096 && IsPage(p, lo, hi)
  }

  predicate IsPage(p: int, lo: int, hi: int) {
    lo / 4096 <= p < hi / 4096
  }

  /** ROUNDUP(x, pagesize) without wrap-around. */
  function PageUp(x: int): int {
    (x + 4095) / 4096 * 4096
  }

  lemma {:induction false} RoundUpIsPageUp(x: u64)
    requires x + 4096 <= TWO64
    ensures RoundUp(x, 4096) == PageUp(x)
  {
    hide RoundUp, Pow2;
    Pow2Values();
    RoundUpSpec(x, 12);
    Multiple(RoundUp(x, 4096), x);
  }

  lemma {:induction false} Multiple(r: int, x: int)
    requires r % 4096 == 0 && x <= r < x + 4096
    ensures r == PageUp(x)
  {
  }

  /** The break is at or above the base, the mapping ends at the page boundary
      at or above the break, and exactly the heap pages below it are mapped. */
  ghost predicate Inv(s: Layout) {
    && s.base % 4096 == 0 && s.base <= s.alloc
    && PageUp(s.alloc) + OFFSET == s.hostAlloc
    && s.mapped == Pages(s.base, PageUp(s.alloc))
  }

  /** `mmu_alloc`; None is a failed assertion. Whether the kernel grants the
      mapping is a parameter of the method below. */
  function AllocStep(s: Layout, size: int): Option<Layout> {
    var a := Wrap(s.alloc + size);
    if s.alloc < s.base || a < s.base then None
    else if size > 0 && a > Top(s) then
      var len := RoundUp(Wrap(a - Top(s)), 4096);
      Some(s.(alloc := a, hostAlloc := Wrap(s.hostAlloc + len), mapped := s.mapped + Pages(Top(s), Top(s) + len)))
    else if size < 0 && RoundUp(a, 4096) < Top(s) then
      var len := Wrap(Top(s) - RoundUp(a, 4096));
      Some(s.(alloc := a, hostAlloc := Wrap(s.hostAlloc - len),
              mapped := s.mapped - Pages(RoundUp(a, 4096), RoundUp(a, 4096) + len)))
    else Some(s.(alloc := a))
  }

  /** The new break does not wrap and its page still has a host address. */
  predicate NoWrap(s: Layout, size: int) {
    0 <= s.alloc + size && PageUp(s.alloc + size) + OFFSET < TWO64
  }

  lemma {:induction false} GrowKeeps(s: Layout, size: int)
    requires Inv(s) && 0 < size < TWO63 && NoWrap(s, size)
    ensures AllocStep(s, size).Some? && Inv(AllocStep(s, size).value)
    ensures AllocStep(s, size).value.alloc == s.alloc + size
  {
    hide RoundUp, Pages, PageUp, Wrap;
    var a, g := s.alloc + size, PageUp(s.alloc);
    PageUpBounds(s.alloc);
    PageUpBounds(a);
    WrapId(g);
    WrapId(a);
    if a > g {
      WrapId(a - g);
      RoundUpIsPageUp(a - g);
      PageUpSum(g, a);
      WrapId(PageUp(a) + OFFSET);
      PagesJoin(s.base, g, PageUp(a));
    } else {
      Multiple(g, a);
    }
  }

  lemma {:induction false} PageUpBounds(x: int)
    ensures x <= PageUp(x) < x + 4096 && PageUp(x) % 4096 == 0
  {
  }

  lemma {:induction false} PageUpSum(g: int, a: int)
    requires g % 4096 == 0
    ensures g + PageUp(a - g) == PageUp(a)
  {
  }

  lemma {:induction false} SamePage(a: int, b: int)
    requires a <= b && PageUp(a) >= PageUp(b)
    ensures PageUp(a) == PageUp(b)
  {
  }

  lemma {:induction false} PagesJoin(lo: int, mid: int, hi: int)
    requires lo <= mid <= hi
    ensures Pages(lo, mid) + Pages(mid, hi) == Pages(lo, hi)
    ensures Pages(lo, hi) - Pages(mid, hi) == Pages(lo, mid)
  {
    assert lo / 4096 <= mid / 4096 <= hi / 4096;
  }

  lemma {:induction false} ShrinkKeeps(s: Layout, size: int)
    requires Inv(s) && -TWO63 <= size <= 0 && NoWrap(s, size) && s.alloc + size >= s.base
    ensures AllocStep(s, size).Some? && Inv(AllocStep(s, size).value)
    ensures AllocStep(s, size).value.alloc == s.alloc + size
  {
    hide RoundUp, Pages, PageUp, Wrap;
    var a, g := s.alloc + size, PageUp(s.alloc);
    PageUpBounds(s.alloc);
    PageUpBounds(a);
    RoundUpIsPageUp(a);
    WrapId(g);
    WrapId(a);
    if PageUp(a) < g {
      WrapId(g - PageUp(a));
      WrapId(PageUp(a) + OFFSET);
      PagesJoin(s.base, PageUp(a), g);
    } else {
      SamePage(a, s.alloc);
    }
  }

  /** A wrapped break always loses the mapping: the condition is exact. */
  lemma {:induction false} WrapBreaks(s: Layout, size: int)
    requires Inv(s) && -TWO63 <= size < TWO63 && AllocStep(s, size).Some? && !NoWrap(s, size)
    ensures !Inv(AllocStep(s, size).value)
  {
    hide RoundUp, Pages, AllocStep, PageUp, Wrap;
    var a, t := s.alloc + size, AllocStep(s, size).value;
    AllocShape(s, size);
    PageUpBounds(s.alloc);
    PageUpBounds(t.alloc);
    if a < 0 {
      WrapNear(a + TWO64);
    } else if a < TWO64 {
      WrapNear(a);
    } else {
      WrapNear(a - TWO64);
    }
  }

  lemma {:induction false} WrapNear(x: u64)
    ensures Wrap(x) == Wrap(x - TWO64) == Wrap(x + TWO64) == x
  {
  }

  /** The mapping does not grow when the new break is no higher. */
  lemma {:induction false} AllocShape(s: Layout, size: int)
    requires Inv(s) && AllocStep(s, size).Some?
    ensures AllocStep(s, size).value.alloc == Wrap(s.alloc + size)
    ensures size < 0 || Wrap(s.alloc + size) <= s.alloc ==> AllocStep(s, size).value.hostAlloc <= s.hostAlloc
    ensures size >= 0 && Wrap(s.alloc + size) <= s.alloc ==> AllocStep(s, size).value.hostAlloc == s.hostAlloc
  {
    hide RoundUp, Pages, PageUp, Wrap;
    var a, g := Wrap(s.alloc + size), PageUp(s.alloc);
    PageUpBounds(s.alloc);
    WrapId(g);
    if size < 0 && RoundUp(a, 4096) < g {
      WrapId(g - RoundUp(a, 4096));
      WrapId(s.hostAlloc - g + RoundUp(a, 4096));
    }
  }

  /** An allocation that does not abort keeps the layout invariant if and only
      if it does not wrap. */
  lemma {:induction false} AllocLaw(s: Layout, size: int)
    requires Inv(s) && -TWO63 <= size < TWO63 && AllocStep(s, size).Some?
    ensures Inv(AllocStep(s, size).value) <==> NoWrap(s, size)
    ensures NoWrap(s, size) ==> AllocStep(s, size).value.alloc == s.alloc + size
  {
    hide Inv, RoundUp;
    if !NoWrap(s, size) {
      WrapBreaks(s, size);
    } else if size > 0 {
      GrowKeeps(s, size);
    } else {
      InRange(s, size);
      ShrinkKeeps(s, size);
    }
  }

  /** A shrink past zero passes both assertions and leaves the break at the top
      of the address space with nothing mapped below it. */
  lemma {:induction false} WrapExample()
    ensures var s := Layout(OFFSET + 0x1_0000, 0x1_0000, 0x1_0000, {});
            Inv(s) && AllocStep(s, -0x1_0001).Some? && !Inv(AllocStep(s, -0x1_0001).value)
  {
    hide RoundUp;
    var s := Layout(OFFSET + 0x1_0000, 0x1_0000, 0x1_0000, {});
    assert Pages(s.base, PageUp(s.alloc)) == {};
    WrapBreaks(s, -0x1_0001);
  }

  lemma {:induction false} InRange(s: Layout, size: int)
    requires size <= 0 && NoWrap(s, size) && AllocStep(s, size).Some?
    ensures s.alloc + size >= s.base
  {
    hide RoundUp;
  }

  // ----- every sequence of calls -----

  datatype Call = Alloc(size: int) | Brk(addr: u64)

  /** `sys_brk`: the increment is the 64-bit difference read as signed. */
  function BrkStep(s: Layout, addr: u64): Option<Layout> {
    var target := if addr == 0 then s.alloc else addr;
    if target < s.base then None else AllocStep(s, S64(target - s.alloc))
  }

  function CallStep(s: Layout, c: Call): Option<Layout> {
    match c
    case Alloc(size) => AllocStep(s, size)
    case Brk(addr) => BrkStep(s, addr)
  }

  /** The call stays inside 64-bit addresses. */
  predicate CallFits(s: Layout, c: Call) {
    match c
    case Alloc(size) => -TWO63 <= size < TWO63 && NoWrap(s, size)
    case Brk(addr) => NoWrap(s, S64((if addr == 0 then s.alloc else addr) - s.alloc))
  }

  /** After `brk(addr)`, addr nonzero, the break is addr. */
  lemma {:induction false} BrkSets(s: Layout, addr: u64)
    requires BrkStep(s, addr).Some?
    ensures BrkStep(s, addr).value.alloc == if addr == 0 then s.alloc else addr
    ensures BrkStep(s, addr).value.base == s.base
  {
    hide RoundUp, Pages, Wrap, S64;
    SignedGap(s.alloc, if addr == 0 then s.alloc else addr);
  }

  /** The assertions of `sys_brk` hold exactly for targets at or above the
      base: the break may go anywhere there, up or down. */
  lemma {:induction false} BrkGranted(s: Layout, addr: u64)
    requires s.base <= s.alloc
    ensures BrkStep(s, addr).Some? <==> addr == 0 || s.base <= addr
  {
    hide RoundUp, Pages, Wrap, S64;
    SignedGap(s.alloc, if addr == 0 then s.alloc else addr);
  }

  lemma {:induction false} SignedGap(from: u64, to: u64)
    ensures Wrap(from + S64(to - from)) == to
  {
  }

  /** A run of calls, none aborting and none wrapping. */
  predicate Runs(s: Layout, cs: seq<Call>, t: Layout)
    decreases |cs|
  {
    if cs == [] then s == t
    else CallFits(s, cs[0]) && CallStep(s, cs[0]).Some? && Runs(CallStep(s, cs[0]).value, cs[1..], t)
  }

  /** Every such run keeps the break and the host mapping in step. */
  lemma {:induction false} LayoutInvariant(s: Layout, cs: seq<Call>, t: Layout)
    requires Inv(s) && Runs(s, cs, t)
    ensures Inv(t) && t.base == s.base
    decreases |cs|
  {
    hide Inv, AllocStep, NoWrap;
    if cs != [] {
      var c := cs[0];
      var size := match c
        case Alloc(size) => size
        case Brk(addr) => S64((if addr == 0 then s.alloc else addr) - s.alloc);
      AllocLaw(s, size);
      BaseStays(s, size);
      LayoutInvariant(CallStep(s, c).value, cs[1..], t);
    }
  }

  lemma {:induction false} BaseStays(s: Layout, size: int)
    requires AllocStep(s, size).Some?
    ensures AllocStep(s, size).value.base == s.base
  {
    hide RoundUp, Pages;
  }

  // ----- loading the program -----

  /** `p_vaddr` and `p_memsz` of a loadable segment. */
  datatype Segment = Segment(vaddr: u64, memsz: u64)

  /** The macro `ROUNDDOWN(x, 4096)`, that is `x & -4096`. */
  function RoundDown(x: u64): u64 {
    And64(x, TWO64 - 4096)
  }

  /** The end of a segment's host mapping, as `mmu_load_segment` computes it. */
  function MappingEnd(g: Segment): u64 {
    var host := Wrap(g.vaddr + OFFSET);
    var aligned := RoundDown(host);
    Wrap(aligned + RoundUp(Wrap(g.memsz + (host - aligned)), 4096))
  }

  /** The end of `mmu_load_segment`: base and break move to the end of the
      mapped image. */
  function LoadStep(s: Layout, g: Segment): Layout {
    var end := MappingEnd(g);
    var host := if end < s.hostAlloc then s.hostAlloc else end;
    Layout(host, Wrap(host - OFFSET), Wrap(host - OFFSET), {})
  }

  /** The segment and the rest of its last page have host addresses. */
  predicate SegmentFits(g: Segment) {
    g.vaddr + g.memsz + OFFSET + 4096 <= TWO64
  }

  /** The mapping ends at the page boundary at or above the segment's end. */
  lemma {:induction false} MappingEndSpec(g: Segment)
    requires SegmentFits(g)
    ensures MappingEnd(g) == PageUp(g.vaddr + g.memsz) + OFFSET
  {
    hide Wrap, And64, RoundUp, PageUp;
    var host := g.vaddr + OFFSET;
    var low := host - host % 4096;
    WrapId(host);
    RoundDownSpec(host);
    WrapId(g.memsz + host % 4096);
    RoundUpIsPageUp(g.memsz + host % 4096);
    PageUpSum(low, low + g.memsz + host % 4096);
    PageUpSum(OFFSET, host + g.memsz);
    PageUpBounds(g.vaddr + g.memsz);
    WrapId(low + PageUp(g.memsz + host % 4096));
  }

  lemma {:induction false} RoundDownSpec(x: u64)
    ensures RoundDown(x) == x - x % 4096
  {
    hide BitAnd, Pow2;
    Pow2Values();
    AndHighMask(x, 64, 12);
  }

  /** Loading a segment into a layout whose mapping ends at a page boundary, or
      is still empty, establishes the invariant with an empty heap that starts
      at the higher of the two ends. */
  lemma {:induction false} LoadEstablishes(s: Layout, g: Segment)
    requires SegmentFits(g) && s.hostAlloc % 4096 == 0
    ensures Inv(LoadStep(s, g)) && LoadStep(s, g).alloc == LoadStep(s, g).base
    ensures var h := LoadStep(s, g).hostAlloc;
            h % 4096 == 0 && h >= s.hostAlloc && h >= MappingEnd(g) && (h == s.hostAlloc || h == MappingEnd(g))
    ensures g.vaddr + g.memsz <= LoadStep(s, g).base
  {
    hide Wrap, PageUp, MappingEnd;
    var t := LoadStep(s, g);
    MappingEndSpec(g);
    PageUpBounds(g.vaddr + g.memsz);
    WrapId(t.hostAlloc - OFFSET);
    Multiple(t.alloc, t.alloc);
    assert Pages(t.base, t.alloc) == {};
  }

  /** `mmu_load_elf`: the loadable segments in order. */
  function LoadAll(s: Layout, gs: seq<Segment>): Layout {
    if gs == [] then s else LoadStep(LoadAll(s, gs[..|gs| - 1]), gs[|gs| - 1])
  }

  predicate PageAligned(x: int) {
    x % 4096 == 0
  }

  /** Every image of loadable segments starts the heap in step, above all of
      its segments. */
  lemma {:induction false} ImageEstablishes(s: Layout, gs: seq<Segment>)
    requires PageAligned(s.hostAlloc) && forall g <- gs :: SegmentFits(g)
    ensures PageAligned(LoadAll(s, gs).hostAlloc) && LoadAll(s, gs).hostAlloc >= s.hostAlloc
    ensures gs != [] ==> Inv(LoadAll(s, gs)) && forall g <- gs :: g.vaddr + g.memsz <= LoadAll(s, gs).base
    decreases |gs|
  {
    hide Inv, LoadStep, SegmentFits, PageAligned;
    if gs != [] {
      var rest, last := gs[..|gs| - 1], gs[|gs| - 1];
      assert gs == rest + [last];
      ImageEstablishes(s, rest);
      OneMore(LoadAll(s, rest), last, rest);
    }
  }

  lemma {:induction false} OneMore(s: Layout, g: Segment, rest: seq<Segment>)
    requires SegmentFits(g) && PageAligned(s.hostAlloc) && (rest != [] ==> Inv(s))
    ensures Inv(LoadStep(s, g)) && PageAligned(LoadStep(s, g).hostAlloc) && LoadStep(s, g).hostAlloc >= s.hostAlloc
    ensures g.vaddr + g.memsz <= LoadStep(s, g).base && (rest != [] ==> s.base <= LoadStep(s, g).base)
  {
    hide Inv, LoadStep;
    LoadEstablishes(s, g);
    BaseRises(s, g, rest);
  }

  lemma {:induction false} BaseRises(s: Layout, g: Segment, rest: seq<Segment>)
    requires SegmentFits(g) && s.hostAlloc % 4096 == 0 && (rest != [] ==> Inv(s))
    ensures rest != [] ==> s.base <= LoadStep(s, g).base
  {
    hide Wrap, PageUp, MappingEnd;
    var t := LoadStep(s, g);
    MappingEndSpec(g);
    PageUpBounds(g.vaddr + g.memsz);
    PageUpBounds(s.alloc);
    WrapId(t.hostAlloc - OFFSET);
  }

  // ----- the object -----

  class MemoryUnit {
    var layout: Layout
    var mem: Mem

    constructor (layout: Layout, mem: Mem)
      ensures this.layout == layout && this.mem == mem
    {
      this.layout := layout;
      this.mem := mem;
    }

    /** `mmu_alloc(mmu, size)`: returns the old break. Pages mapped by the call
        read as zero; no other byte changes. `granted` is the kernel's answer. */
    method Alloc(size: int, granted: bool) returns (r: Option<u64>)
      requires -TWO63 <= size < TWO63
      modifies this
      ensures r.Some? ==> AllocStep(old(layout), size) == Some(layout) && r.value == old(layout).alloc
      ensures granted && AllocStep(old(layout), size).Some? ==> r.Some?
      ensures forall x: u64 | !(Top(old(layout)) <= x < Top(layout)) :: ByteAt(mem, x) == ByteAt(old(mem), x)
      ensures r.Some? && size > 0 ==> forall x: u64 | Top(old(layout)) <= x < Top(layout) :: ByteAt(mem, x) == 0
    {
      hide RoundUp;
      var s := layout;
      if s.alloc < s.base {
        return None;
      }
      var a := Wrap(s.alloc + size);
      if a < s.base {
        return None;
      }
      layout := s.(alloc := a);
      if size > 0 && a > Top(s) {
        var len := RoundUp(Wrap(a - Top(s)), 4096);
        if !granted {
          return None;
        }
        layout := s.(alloc := a, hostAlloc := Wrap(s.hostAlloc + len),
                     mapped := s.mapped + Pages(Top(s), Top(s) + len));
        mem := map x | x in mem && !(Top(s) <= x < Top(layout)) :: mem[x];
      } else if size < 0 && RoundUp(a, 4096) < Top(s) {
        if !granted {
          return None;
        }
        var len := Wrap(Top(s) - RoundUp(a, 4096));
        layout := s.(alloc := a, hostAlloc := Wrap(s.hostAlloc - len),
                     mapped := s.mapped - Pages(RoundUp(a, 4096), RoundUp(a, 4096) + len));
      }
      return Some(s.alloc);
    }

    /** `sys_brk`: the value returned is the break asked for. */
    method Brk(addr: u64, granted: bool) returns (r: Option<u64>)
      modifies this
      ensures r.Some? ==> BrkStep(old(layout), addr) == Some(layout) && r.value == layout.alloc
      ensures r.Some? && addr != 0 ==> r.value == addr
      ensures granted && BrkStep(old(layout), addr).Some? ==> r.Some?
    {
      hide RoundUp, AllocStep;
      var target := if addr == 0 then layout.alloc else addr;
      if target < layout.base {
        return None;
      }
      var before := Alloc(S64(target - layout.alloc), granted);
      if before == None {
        return None;
      }
      BrkSets(old(layout), addr);
      return Some(target);
    }
  }
}
