/** `machine_setup`: the initial stack frame with argc, argv and the strings. */
module Setup {
  import opened Words
  import opened Guest
  import opened Mmu
  import Insn

  const STACK_SIZE: int := 33554432

  // ----- bytes and words in guest memory -----

  predicate InSpan(x: int, a: int, n: int) {
    a <= x < a + n
  }

  /** `memcpy` into guest memory. */
  function WriteBytes(m: Mem, a: u64, bs: seq<u8>): (r: Mem)
    requires a + |bs| <= TWO64
    ensures forall x: u64 :: ByteAt(r, x) == if InSpan(x, a, |bs|) then bs[x - a] else ByteAt(m, x)
  {
    m + map x: u64 | a <= x < a + |bs| && InSpan(x, a, |bs|) :: bs[x - a]
  }

  /** `memmove` within guest memory. */
  function MoveBytes(m: Mem, to: u64, from: u64, n: nat): Mem
    requires to + n <= TWO64 && from + n <= TWO64
  {
    m + map x: u64 | to <= x < to + n && InSpan(x, to, n) :: ByteAt(m, x - to + from)
  }

  lemma {:induction false} MovedByte(m: Mem, to: u64, from: u64, n: nat, x: u64)
    requires to + n <= TWO64 && from + n <= TWO64
    ensures ByteAt(MoveBytes(m, to, from, n), x) == if InSpan(x, to, n) then ByteAt(m, x - to + from) else ByteAt(m, x)
  {
  }

  /** The j-th byte from a. */
  function Nth(m: Mem, a: u64, j: nat): u8 {
    ByteAt(m, Wrap(a + j))
  }

  lemma {:induction false} StoreFrame(m: Mem, a: u64, n: nat, v: nat, x: u64)
    requires a + n <= TWO64 && !InSpan(x, a, n)
    ensures ByteAt(StoreLE(m, a, n, v), x) == ByteAt(m, x)
    decreases n
  {
    if n != 0 {
      if n == 1 {
        assert StoreLE(m[a := v % 256], Wrap(a + 1), 0, v / 256) == m[a := v % 256];
      } else {
        StoreFrame(m[a := v % 256], Wrap(a + 1), n - 1, v / 256, x);
      }
    }
  }

  /** A load sees only its own bytes. */
  lemma {:induction false} LoadSame(m: Mem, a: u64, m': Mem, b: u64, n: nat)
    requires forall j: nat | j < n :: Nth(m, a, j) == Nth(m', b, j)
    ensures LoadLE(m, a, n) == LoadLE(m', b, n)
    decreases n
  {
    hide Nth;
    if n != 0 {
      NthFirst(m, a);
      NthFirst(m', b);
      var a', b' := Wrap(a + 1), Wrap(b + 1);
      forall j: nat | j < n - 1
        ensures Nth(m, a', j) == Nth(m', b', j)
      {
        NthNext(m, a, j);
        NthNext(m', b, j);
      }
      LoadSame(m, a', m', b', n - 1);
    }
  }

  lemma {:induction false} NthFirst(m: Mem, a: u64)
    ensures Nth(m, a, 0) == ByteAt(m, a)
  {
  }

  lemma {:induction false} NthNext(m: Mem, a: u64, j: nat)
    ensures Nth(m, Wrap(a + 1), j) == Nth(m, a, j + 1)
  {
    assert Wrap(Wrap(a + 1) + j) == Wrap(a + (j + 1));
  }

  lemma {:induction false} LoadZero(m: Mem, a: u64, n: nat)
    requires forall j: nat | j < n :: Nth(m, a, j) == 0
    ensures LoadLE(m, a, n) == 0
    decreases n
  {
    hide Nth;
    if n != 0 {
      NthFirst(m, a);
      var a' := Wrap(a + 1);
      forall j: nat | j < n - 1
        ensures Nth(m, a', j) == 0
      {
        NthNext(m, a, j);
      }
      LoadZero(m, a', n - 1);
    }
  }

  /** A stored word reads back. */
  lemma {:induction false} StoreLoad(m: Mem, a: u64, n: nat, v: nat)
    requires a + n <= TWO64 && v < Pow2(8 * n)
    ensures LoadLE(StoreLE(m, a, n, v), a, n) == v
    decreases n
  {
    hide Pow2;
    if n == 0 {
      PowZero();
    } else {
      var m' := m[a := v % 256];
      HighBytes(v, n);
      if n == 1 {
        PowZero();
        assert StoreLE(m', Wrap(a + 1), 0, v / 256) == m';
        assert LoadLE(m', Wrap(a + 1), 0) == 0;
      } else {
        NextAddress(a);
        StoreLoad(m', a + 1, n - 1, v / 256);
        StoreFrame(m', a + 1, n - 1, v / 256, a);
      }
    }
  }

  lemma {:induction false} PowZero()
    ensures Pow2(0) == 1
  {
  }

  lemma {:induction false} NextAddress(a: int)
    requires 0 <= a < TWO64 - 1
    ensures Wrap(a + 1) == a + 1
  {
  }

  lemma {:induction false} HighBytes(v: nat, n: nat)
    requires n >= 1 && v < Pow2(8 * n)
    ensures v / 256 < Pow2(8 * (n - 1))
  {
    Pow2Add(8, 8 * (n - 1));
    assert Pow2(8) == 256;
  }

  function Word(m: Mem, a: u64): nat {
    LoadLE(m, a, 8)
  }

  function PutWord(m: Mem, a: u64, v: u64): Mem {
    StoreLE(m, a, 8, v)
  }

  lemma {:induction false} PutWordSpec(m: Mem, a: u64, v: u64)
    requires a + 8 <= TWO64
    ensures Word(PutWord(m, a, v), a) == v
    ensures forall x: u64 | !InSpan(x, a, 8) :: ByteAt(PutWord(m, a, v), x) == ByteAt(m, x)
  {
    hide StoreLE, LoadLE, Pow2;
    Pow2Values();
    StoreLoad(m, a, 8, v);
    forall x: u64 | !InSpan(x, a, 8)
      ensures ByteAt(PutWord(m, a, v), x) == ByteAt(m, x)
    {
      StoreFrame(m, a, 8, v, x);
    }
  }

  // ----- what the frame looks like -----

  /** The t-th pointer slot from sp. */
  function SlotWord(m: Mem, sp: u64, t: nat): nat {
    Word(m, Wrap(sp + 8 * t))
  }

  ghost predicate Slots(m: Mem, sp: u64, ptrs: seq<u64>) {
    forall t: nat | t < |ptrs| :: SlotWord(m, sp, t) == ptrs[t]
  }

  /** s lies at p, followed by a NUL byte. */
  ghost predicate StringAt(m: Mem, p: u64, s: seq<u8>) {
    (forall j: nat | j < |s| :: Nth(m, p, j) == s[j]) && Nth(m, p, |s|) == 0
  }

  ghost predicate Strings(m: Mem, ptrs: seq<u64>, args: seq<seq<u8>>) {
    |ptrs| == |args| && forall t: nat | t < |args| :: StringAt(m, ptrs[t], args[t])
  }

  /** The copies lie between lo and hi and do not overlap; later arguments are
      copied first, so they lie lower. */
  ghost predicate Laid(ptrs: seq<u64>, args: seq<seq<u8>>, lo: int, hi: int) {
    && |ptrs| == |args|
    && (forall t: nat | t < |args| :: lo <= ptrs[t] && ptrs[t] + |args[t]| + 1 <= hi)
    && (forall t: nat, u: nat | t < u < |args| :: ptrs[u] + |args[u]| + 1 <= ptrs[t])
  }

  ghost predicate SameBytes(m: Mem, m': Mem, lo: int, hi: int) {
    forall x: u64 | lo <= x < hi :: ByteAt(m', x) == ByteAt(m, x)
  }

  ghost predicate ZeroBytes(m: Mem, lo: int, hi: int) {
    forall x: u64 | lo <= x < hi :: ByteAt(m, x) == 0
  }

  lemma {:induction false} WordKept(m: Mem, m': Mem, a: u64, lo: int, hi: int)
    requires SameBytes(m, m', lo, hi) && lo <= a && a + 8 <= hi <= TWO64
    ensures Word(m', a) == Word(m, a)
  {
    forall j: nat | j < 8
      ensures Nth(m', a, j) == Nth(m, a, j)
    {
      assert Wrap(a + j) == a + j;
    }
    hide Nth;
    LoadSame(m', a, m, a, 8);
  }

  lemma {:induction false} SlotsKept(m: Mem, m': Mem, sp: u64, ptrs: seq<u64>, lo: int, hi: int)
    requires Slots(m, sp, ptrs) && SameBytes(m, m', lo, hi) && lo <= sp && sp + 8 * |ptrs| <= hi <= TWO64
    ensures Slots(m', sp, ptrs)
  {
    hide Word, SameBytes;
    forall t: nat | t < |ptrs|
      ensures SlotWord(m', sp, t) == ptrs[t]
    {
      assert SlotWord(m, sp, t) == ptrs[t];
      assert Wrap(sp + 8 * t) == sp + 8 * t;
      WordKept(m, m', sp + 8 * t, lo, hi);
    }
  }

  lemma {:induction false} StringKept(m: Mem, m': Mem, p: u64, s: seq<u8>, lo: int, hi: int)
    requires StringAt(m, p, s) && SameBytes(m, m', lo, hi) && lo <= p && p + |s| + 1 <= hi <= TWO64
    ensures StringAt(m', p, s)
  {
    forall j: nat | j <= |s|
      ensures Nth(m', p, j) == Nth(m, p, j)
    {
      assert Wrap(p + j) == p + j;
    }
    hide Nth, SameBytes;
    assert Nth(m', p, |s|) == Nth(m, p, |s|);
  }

  lemma {:induction false} StringsKept(m: Mem, m': Mem, ptrs: seq<u64>, args: seq<seq<u8>>, lo: int, hi: int)
    requires Strings(m, ptrs, args) && Laid(ptrs, args, lo, hi) && SameBytes(m, m', lo, hi) && hi <= TWO64
    ensures Strings(m', ptrs, args)
  {
    hide StringAt, SameBytes;
    forall t: nat | t < |args|
      ensures StringAt(m', ptrs[t], args[t])
    {
      assert StringAt(m, ptrs[t], args[t]);
      StringKept(m, m', ptrs[t], args[t], lo, hi);
    }
  }

  // ----- pushing one argument -----

  /** Arguments already pushed: pointer slots from sp up, strings between the
      stack top and the break, zeros above the slots and above the break. */
  ghost predicate Pushed(m: Mem, args: seq<seq<u8>>, ptrs: seq<u64>, sp: int, top: int, alloc: int, limit: int) {
    && 0 <= sp == top - 24 - 8 * |args| && top <= alloc <= limit <= TWO64
    && Slots(m, sp, ptrs)
    && Strings(m, ptrs, args)
    && Laid(ptrs, args, top, alloc)
    && ZeroBytes(m, top - 24, top)
    && ZeroBytes(m, alloc, limit)
  }

  /** `mmu_write(addr, argv[i], len)` and the pointer push. */
  function PushArg(m: Mem, a: seq<u8>, p: u64, sp: u64): Mem
    requires p + |a| <= TWO64
  {
    PutWord(WriteBytes(m, p, a), sp, p)
  }

  lemma {:induction false} PushedBytes(m: Mem, a: seq<u8>, p: u64, sp: u64, x: u64)
    requires p + |a| <= TWO64 && sp + 8 <= p
    ensures var y := ByteAt(PushArg(m, a, p, sp), x);
            (InSpan(x, p, |a|) ==> y == a[x - p]) && (!InSpan(x, p, |a|) && !InSpan(x, sp, 8) ==> y == ByteAt(m, x))
  {
    hide PutWord, WriteBytes;
    PutWordSpec(WriteBytes(m, p, a), sp, p);
  }

  lemma {:induction false} NewString(m: Mem, a: seq<u8>, p: u64, sp: u64, limit: int)
    requires p + |a| + 1 <= limit <= TWO64 && sp + 8 <= p && ZeroBytes(m, p, limit)
    ensures StringAt(PushArg(m, a, p, sp), p, a)
  {
    hide PushArg;
    forall j: nat | j <= |a|
      ensures Nth(PushArg(m, a, p, sp), p, j) == if j < |a| then a[j] else 0
    {
      assert Wrap(p + j) == p + j;
      PushedBytes(m, a, p, sp, p + j);
    }
  }

  /** One turn of the loop, on a memory whose new pages are already mapped. */
  lemma {:induction false} PushKeeps(
    m: Mem, args: seq<seq<u8>>, ptrs: seq<u64>, sp: int, top: int, alloc: int, limit: int, a: seq<u8>)
    requires Pushed(m, args, ptrs, sp, top, alloc, limit) && sp >= 8 && alloc < TWO64 && alloc + |a| + 1 <= limit
    ensures Pushed(PushArg(m, a, alloc, sp - 8), [a] + args, [alloc] + ptrs, sp - 8, top, alloc + |a| + 1, limit)
  {
    hide PushArg, Slots, StringAt, Nth;
    var m' := PushArg(m, a, alloc, sp - 8);
    forall x: u64
      ensures (sp <= x < alloc || alloc + |a| <= x ==> ByteAt(m', x) == ByteAt(m, x))
    {
      PushedBytes(m, a, alloc, sp - 8, x);
    }
    assert SameBytes(m, m', sp, alloc);
    SlotsKept(m, m', sp, ptrs, sp, alloc);
    StringsKept(m, m', ptrs, args, top, alloc);
    NewString(m, a, alloc, sp - 8, limit);
    NewSlot(m, a, alloc, sp - 8, ptrs);
  }

  lemma {:induction false} NewSlot(m: Mem, a: seq<u8>, p: u64, sp: u64, ptrs: seq<u64>)
    requires p + |a| <= TWO64 && sp + 8 <= p && sp + 8 * (|ptrs| + 1) <= TWO64
    requires Slots(PushArg(m, a, p, sp), sp + 8, ptrs)
    ensures Slots(PushArg(m, a, p, sp), sp, [p] + ptrs)
  {
    hide WriteBytes, PutWord, Word;
    var m' := PushArg(m, a, p, sp);
    PutWordSpec(WriteBytes(m, p, a), sp, p);
    forall t: nat | t < |ptrs| + 1
      ensures SlotWord(m', sp, t) == ([p] + ptrs)[t]
    {
      if t == 0 {
        assert Wrap(sp + 8 * 0) == sp;
      } else {
        assert SlotWord(m', sp + 8, t - 1) == ptrs[t - 1];
        assert sp + 8 + 8 * (t - 1) == sp + 8 * t;
      }
    }
  }

  // ----- the loop -----

  /** Bytes the string copies take. */
  function Total(args: seq<seq<u8>>): nat {
    if args == [] then 0 else |args[0]| + 1 + Total(args[1..])
  }

  lemma {:induction false} TotalSuffix(args: seq<seq<u8>>, i: nat)
    requires i <= |args|
    ensures Total(args[i..]) <= Total(args)
    decreases |args|
  {
    if i != 0 {
      assert args[1..][i - 1..] == args[i..];
      TotalSuffix(args[1..], i - 1);
    }
  }

  lemma {:induction false} TopIsPageUp(s: Layout)
    requires Inv(s) && PageUp(s.alloc) + OFFSET < TWO64
    ensures Top(s) == PageUp(s.alloc) && s.alloc <= Top(s)
  {
    hide Pages;
  }

  /** Fresh pages extend the zero bytes above the break. */
  lemma {:induction false} GrowPushed(
    m: Mem, m': Mem, args: seq<seq<u8>>, ptrs: seq<u64>, sp: int, top: int, alloc: int, limit: int, limit': int)
    requires Pushed(m, args, ptrs, sp, top, alloc, limit) && limit <= limit' <= TWO64
    requires SameBytes(m, m', 0, limit) && ZeroBytes(m', limit, limit')
    ensures Pushed(m', args, ptrs, sp, top, alloc, limit')
  {
    hide Slots, StringAt, Word;
    SlotsKept(m, m', sp, ptrs, 0, limit);
    assert SameBytes(m, m', top, alloc);
    StringsKept(m, m', ptrs, args, top, alloc);
  }

  lemma {:induction false} NothingPushed(m: Mem, top: int, alloc: int, limit: int)
    requires 24 <= top <= alloc <= limit <= TWO64 && ZeroBytes(m, top - 24, top) && ZeroBytes(m, alloc, limit)
    ensures Pushed(m, [], [], top - 24, top, alloc, limit)
  {
  }

  /** `mmu_alloc(&m->mmu, n)` for a positive n that fits: the break moves by n
      and everything from the old break up reads as before or as zero. */
  method Grow(mmu: MemoryUnit, n: int, granted: bool) returns (r: Option<u64>)
    requires Inv(mmu.layout) && 0 < n < TWO63 && NoWrap(mmu.layout, n)
    modifies mmu
    ensures granted ==> r.Some?
    ensures r.Some? ==> r.value == old(mmu.layout).alloc && Inv(mmu.layout)
    ensures r.Some? ==> mmu.layout.alloc == old(mmu.layout).alloc + n && mmu.layout.base == old(mmu.layout).base
    ensures r.Some? ==> Top(mmu.layout) == PageUp(mmu.layout.alloc) && PageUp(mmu.layout.alloc) + OFFSET < TWO64
    ensures r.Some? ==> old(Top(mmu.layout)) <= Top(mmu.layout) && mmu.layout.alloc <= Top(mmu.layout)
    ensures r.Some? ==> SameBytes(old(mmu.mem), mmu.mem, 0, old(Top(mmu.layout)))
                        && ZeroBytes(mmu.mem, old(Top(mmu.layout)), Top(mmu.layout))
  {
    hide Pages, PageUp, RoundUp, AllocStep;
    GrowKeeps(mmu.layout, n);
    AllocLaw(mmu.layout, n);
    BaseStays(mmu.layout, n);
    PageUpBounds(mmu.layout.alloc);
    PageUpMono(mmu.layout.alloc, mmu.layout.alloc + n);
    TopIsPageUp(mmu.layout);
    r := mmu.Alloc(n, granted);
    if r.Some? {
      TopIsPageUp(mmu.layout);
    }
  }

  lemma {:induction false} PageUpMono(a: int, b: int)
    requires a <= b
    ensures PageUp(a) <= PageUp(b)
  {
  }

  /** The loop over argv, last argument first. */
  method PushArgs(mmu: MemoryUnit, args: seq<seq<u8>>, top: int, granted: bool)
    returns (ok: bool, sp: int, ghost ptrs: seq<u64>)
    requires Inv(mmu.layout) && mmu.layout.alloc == top && NoWrap(mmu.layout, Total(args))
    requires 24 + 8 * |args| <= top && Total(args) < TWO63
    requires ZeroBytes(mmu.mem, top - 24, top) && ZeroBytes(mmu.mem, top, Top(mmu.layout))
    modifies mmu
    ensures granted ==> ok
    ensures ok ==> Pushed(mmu.mem, args, ptrs, sp, top, mmu.layout.alloc, Top(mmu.layout))
  {
    hide Pages, PageUp, Pushed, PushArg, ZeroBytes, SameBytes, Inv;
    sp := top - 24;
    ptrs := [];
    var i := |args|;
    StartTop(mmu.layout, Total(args));
    NothingPushed(mmu.mem, top, top, Top(mmu.layout));
    while i > 0
      invariant 0 <= i <= |args| && Inv(mmu.layout)
      invariant mmu.layout.alloc == top + Total(args[i..]) && sp == top - 24 - 8 * (|args| - i)
      invariant Pushed(mmu.mem, args[i..], ptrs, sp, top, mmu.layout.alloc, Top(mmu.layout))
    {
      var a := args[i - 1];
      assert args[i - 1..] == [a] + args[i..];
      TotalSuffix(args, i - 1);
      StillRoom(old(mmu.layout), mmu.layout, Total(args), Total(args[i..]), |a| + 1);
      ghost var m, s := mmu.mem, mmu.layout;
      var addr := Grow(mmu, |a| + 1, granted);
      if addr == None {
        return false, sp, ptrs;
      }
      GrowPushed(m, mmu.mem, args[i..], ptrs, sp, top, s.alloc, Top(s), Top(mmu.layout));
      PushKeeps(mmu.mem, args[i..], ptrs, sp, top, s.alloc, Top(mmu.layout), a);
      sp := sp - 8;
      mmu.mem := PushArg(mmu.mem, a, addr.value, sp);
      ptrs := [addr.value] + ptrs;
      i := i - 1;
    }
    assert args[0..] == args;
    ok := true;
  }

  lemma {:induction false} StartTop(s: Layout, n: int)
    requires Inv(s) && 0 <= n && NoWrap(s, n)
    ensures s.alloc <= Top(s)
  {
    hide Pages;
  }

  lemma {:induction false} StillRoom(s: Layout, t: Layout, total: int, done: int, n: int)
    requires NoWrap(s, total) && t.alloc == s.alloc + done && 0 <= done && 0 < n && done + n <= total
    ensures NoWrap(t, n)
  {
    PageUpMono(t.alloc + n, s.alloc + total);
    hide PageUp;
  }

  // ----- argc, alignment and the registers -----

  /** The frame the guest sees from sp up: argc, the argument pointers, a zero
      word; the strings lie beyond the stack. */
  ghost predicate Frame(m: Mem, sp: int, args: seq<seq<u8>>, ptrs: seq<u64>, top: int, end: int) {
    && 0 <= sp && sp + 16 + 8 * |args| <= top <= TWO64
    && Word(m, sp) == |args|
    && Slots(m, sp + 8, ptrs)
    && SlotWord(m, sp + 8, |args|) == 0
    && Strings(m, ptrs, args)
    && Laid(ptrs, args, top, end)
  }

  lemma {:induction false} ZeroSlot(m: Mem, a: u64, lo: int, hi: int)
    requires ZeroBytes(m, lo, hi) && lo <= a && a + 8 <= hi <= TWO64
    ensures Word(m, a) == 0
  {
    forall j: nat | j < 8
      ensures Nth(m, a, j) == 0
    {
      assert Wrap(a + j) == a + j;
    }
    hide Nth;
    LoadZero(m, a, 8);
  }

  lemma {:induction false} ArgcKeeps(
    m: Mem, args: seq<seq<u8>>, ptrs: seq<u64>, sp: int, top: int, alloc: int, limit: int)
    requires Pushed(m, args, ptrs, sp, top, alloc, limit) && sp >= 8 && |args| < TWO64
    ensures Frame(PutWord(m, sp - 8, |args|), sp - 8, args, ptrs, top, alloc)
  {
    hide Slots, StringAt, Word, PutWord;
    var m' := PutWord(m, sp - 8, |args|);
    PutWordSpec(m, sp - 8, |args|);
    assert SameBytes(m, m', sp, TWO64);
    SlotsKept(m, m', sp, ptrs, sp, TWO64);
    assert SameBytes(m, m', top, alloc);
    StringsKept(m, m', ptrs, args, top, alloc);
    assert ZeroBytes(m', top - 24, top);
    ZeroSlot(m', sp + 8 * |args|, top - 24, top);
    assert Wrap(sp + 8 * |args|) == sp + 8 * |args|;
  }

  lemma {:induction false} MovedWord(m: Mem, to: u64, from: u64, n: nat, a: u64)
    requires to <= from && from + n <= TWO64 && from <= a && a + 8 <= from + n
    ensures Word(MoveBytes(m, to, from, n), a - from + to) == Word(m, a)
  {
    hide MoveBytes;
    var m', b := MoveBytes(m, to, from, n), a - from + to;
    forall j: nat | j < 8
      ensures Nth(m', b, j) == Nth(m, a, j)
    {
      assert Wrap(a + j) == a + j && Wrap(b + j) == b + j;
      MovedByte(m, to, from, n, b + j);
    }
    LoadSame(m', b, m, a, 8);
  }

  /** `memmove` of the whole frame to a lower address keeps its meaning. */
  lemma {:induction false} ShiftKeeps(
    m: Mem, sp: int, to: int, args: seq<seq<u8>>, ptrs: seq<u64>, top: int, end: int)
    requires Frame(m, sp, args, ptrs, top, end) && 0 <= to <= sp && end <= TWO64
    ensures Frame(MoveBytes(m, to, sp, top - sp), to, args, ptrs, top, end)
  {
    hide MoveBytes, Word, StringAt;
    var n := top - sp;
    var m' := MoveBytes(m, to, sp, n);
    MovedWord(m, to, sp, n, sp);
    var b: u64, b': u64 := sp + 8, to + 8;
    forall t: nat | t < |ptrs| + 1
      ensures SlotWord(m', b', t) == SlotWord(m, b, t)
    {
      assert Wrap(sp + 8 + 8 * t) == sp + 8 + 8 * t && Wrap(to + 8 + 8 * t) == to + 8 + 8 * t;
      MovedWord(m, to, sp, n, sp + 8 + 8 * t);
    }
    forall x: u64 | top <= x < end
      ensures ByteAt(m', x) == ByteAt(m, x)
    {
      MovedByte(m, to, sp, n, x);
    }
    StringsKept(m, m', ptrs, args, top, end);
  }

  /** `sp0 & ~(u64)0xf`. */
  function Align16(sp: u64): u64 {
    And64(sp, TWO64 - 16)
  }

  lemma {:induction false} Align16Spec(sp: u64)
    ensures Align16(sp) == sp - sp % 16
  {
    hide BitAnd, Pow2;
    Pow2Values();
    AndHighMask(sp, 64, 4);
  }

  /** `machine_setup` for the arguments the guest is to see. For every argument
      vector that fits the stack and the address space, sp is 16-byte aligned
      and points at argc, a0 is argc, and a1 points at the in-order argument
      pointers and their terminating zero, shifted or not. */
  method MachineSetup(mmu: MemoryUnit, cpu: Cpu, args: seq<seq<u8>>, granted: bool)
    returns (r: Option<Cpu>, ghost ptrs: seq<u64>)
    requires Inv(mmu.layout) && NoWrap(mmu.layout, STACK_SIZE + Total(args))
    requires Total(args) < TWO63 && 8 * |args| + 64 <= STACK_SIZE
    modifies mmu
    ensures granted ==> r.Some?
    ensures r.Some? ==>
              var c, top := r.value, old(mmu.layout).alloc + STACK_SIZE;
              && c.gp[2] % 16 == 0 && c.gp[10] == |args| && c.gp[11] == c.gp[2] + 8
              && c.mem == mmu.mem && c.gp == cpu.gp[2 := c.gp[2]][10 := c.gp[10]][11 := c.gp[11]]
              && c.fp == cpu.fp && c.pc == cpu.pc
              && Frame(mmu.mem, c.gp[2], args, ptrs, top, mmu.layout.alloc)
              && old(mmu.layout).alloc <= c.gp[2]
  {
    hide Pages, Frame, Pushed, Inv, ZeroBytes, SameBytes, Align16, PutWord, MoveBytes, PageUp;
    ptrs := [];
    var s := mmu.layout;
    SetupRoom(s, Total(args));
    var stack := Grow(mmu, STACK_SIZE, granted);
    if stack == None {
      return None, ptrs;
    }
    var top := stack.value + STACK_SIZE;
    StackIsZero(s, mmu.mem, Top(mmu.layout), top);
    StackRoom(s, mmu.layout, Total(args));
    var ok, sp;
    ok, sp, ptrs := PushArgs(mmu, args, top, granted);
    if !ok {
      return None, ptrs;
    }
    PushedShape(mmu.mem, args, ptrs, sp, top, mmu.layout.alloc, Top(mmu.layout));
    ArgcKeeps(mmu.mem, args, ptrs, sp, top, mmu.layout.alloc, Top(mmu.layout));
    var sp0 := sp - 8;
    mmu.mem := PutWord(mmu.mem, sp0, |args|);
    var aligned := Align16(sp0);
    Align16Spec(sp0);
    if aligned != sp0 {
      ShiftKeeps(mmu.mem, sp0, aligned, args, ptrs, top, mmu.layout.alloc);
      mmu.mem := MoveBytes(mmu.mem, aligned, sp0, top - sp0);
    }
    r := Some(cpu.(gp := cpu.gp[Insn.SP := aligned][Insn.A0 := |args|][Insn.A1 := aligned + 8], mem := mmu.mem));
  }

  lemma {:induction false} SetupRoom(s: Layout, n: int)
    requires 0 <= n && NoWrap(s, STACK_SIZE + n)
    ensures NoWrap(s, STACK_SIZE) && PageUp(s.alloc) + OFFSET < TWO64
  {
    hide PageUp;
    PageUpMono(s.alloc, s.alloc + STACK_SIZE + n);
    PageUpMono(s.alloc + STACK_SIZE, s.alloc + STACK_SIZE + n);
  }

  lemma {:induction false} StackRoom(s: Layout, t: Layout, n: int)
    requires NoWrap(s, STACK_SIZE + n) && t.alloc == s.alloc + STACK_SIZE
    ensures NoWrap(t, n)
  {
  }

  /** The top of the fresh stack, and the rest of its last page, are zero. */
  lemma {:induction false} StackIsZero(s: Layout, m: Mem, limit: int, top: int)
    requires Inv(s) && PageUp(s.alloc) + OFFSET < TWO64 && top == s.alloc + STACK_SIZE && ZeroBytes(m, Top(s), limit)
    requires top <= limit
    ensures ZeroBytes(m, top - 24, top) && ZeroBytes(m, top, limit)
  {
    hide Pages;
    TopIsPageUp(s);
    PageUpBounds(s.alloc);
  }

  lemma {:induction false} PushedShape(
    m: Mem, args: seq<seq<u8>>, ptrs: seq<u64>, sp: int, top: int, alloc: int, limit: int)
    requires Pushed(m, args, ptrs, sp, top, alloc, limit)
    ensures sp == top - 24 - 8 * |args| && top <= alloc <= TWO64
  {
    hide Slots, Strings, Laid;
  }
}
