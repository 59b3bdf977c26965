/** The linking half of compile.c: the compiler's sections are appended to the
    arena, read-only data first, and the text is relocated in place. What the
    compiler prints is a parameter. */
module Compile {
  import opened Words
  import opened Probe
  import opened Cache

  datatype Section = Section(bytes: seq<u8>, align: u64)

  /** An `elf64_rela_t` with the value of its symbol. */
  datatype Reloc = Reloc(pc32: bool, at: nat, symbol: u64, addend: int)

  /** The sections `machine_compile` looks at; None where the index stays 0. */
  datatype ObjectCode = ObjectCode(text: Section, rodata: Option<Section>, relocs: Option<seq<Reloc>>)

  /** What holds of any object file: the compiled function is not empty, section
      alignments are 0 or a power of two in 64 bits, and relocations name words
      inside the text section. */
  predicate WellFormed(o: ObjectCode) {
    && o.text.bytes != [] && o.text.align <= TWO63
    && (o.rodata.Some? ==> o.rodata.value.align <= TWO63)
    && (o.relocs.Some? ==> forall r <- o.relocs.value :: r.at + 4 <= |o.text.bytes|)
  }

  // ----- little-endian words in the arena -----

  function Bytes32(v: int): (b: seq<u8>)
    ensures |b| == 4
  {
    [v % 256, v / 256 % 256, v / 256 / 256 % 256, v / 256 / 256 / 256 % 256]
  }

  function Word32(b: seq<u8>): int
    requires |b| == 4
  {
    var b0: int, b1: int, b2: int, b3: int := b[0], b[1], b[2], b[3];
    b0 + 256 * (b1 + 256 * (b2 + 256 * b3))
  }

  lemma {:induction false} WordRoundTrip(v: int)
    ensures Word32(Bytes32(v)) == Lo32(v)
  {
    var a := v / 256;
    var b := a / 256;
    var c := b / 256;
    var d := c / 256;
    assert c == 256 * d + c % 256 && b == 256 * c + b % 256 && a == 256 * b + a % 256 && v == 256 * a + v % 256;
    var w := v % 256 + 256 * (a % 256 + 256 * (b % 256 + 256 * (c % 256)));
    assert v == d * 0x1_0000_0000 + w;
    DivModUnique(v, 0x1_0000_0000, d, w);
  }

  // ----- one relocation -----

  /** S, P and S + A - P for a relocation, in wrapping 64-bit arithmetic. */
  function SymbolAt(base: int, rodata: int, r: Reloc): u64 {
    Wrap(base + rodata + r.symbol)
  }

  function PatchAt(base: int, text: int, r: Reloc): u64 {
    Wrap(base + text + r.at)
  }

  function Displacement(base: int, text: int, rodata: int, r: Reloc): u64 {
    Wrap(SymbolAt(base, rodata, r) + r.addend - PatchAt(base, text, r))
  }

  /** `rip_addr + *(i32 *)loc == S` for the word w stored at the patch. */
  predicate Resolves(base: int, text: int, rodata: int, r: Reloc, w: int) {
    Wrap(PatchAt(base, text, r) - r.addend + S32(w)) == SymbolAt(base, rodata, r)
  }

  /** The loop's assertion holds exactly when the displacement fits 32 bits. */
  lemma {:induction false} ResolvesIffFits(base: int, text: int, rodata: int, r: Reloc)
    ensures var d := Displacement(base, text, rodata, r);
            Resolves(base, text, rodata, r, Lo32(d)) <==> S32(d) == S64(d)
  {
    hide SymbolAt, PatchAt, S32, S64, Lo32;
    var s, p, d := SymbolAt(base, rodata, r), PatchAt(base, text, r), Displacement(base, text, rodata, r);
    LowSigned(d);
    ShiftedWrap(p, r.addend, s, S32(d), d);
  }

  lemma {:induction false} LowSigned(d: u64)
    ensures S32(Lo32(d)) == S32(d)
    ensures S32(d) == S64(d) <==> Wrap(S32(d)) == d
  {
  }

  lemma {:induction false} ShiftedWrap(p: int, a: int, s: u64, v: int, d: u64)
    requires d == Wrap(s + a - p)
    ensures Wrap(p - a + v) == s <==> Wrap(v) == d
  {
  }

  /** Both ends in the arena and an addend of at most a gigabyte. */
  predicate Near(text: int, rodata: int, r: Reloc) {
    && 0 <= text && text + r.at <= ARENA && 0 <= rodata && rodata + r.symbol <= ARENA
    && -0x4000_0000 <= r.addend <= 0x4000_0000
  }

  lemma {:induction false} NearFits(base: int, text: int, rodata: int, r: Reloc)
    requires Near(text, rodata, r)
    ensures var d := Displacement(base, text, rodata, r);
            S32(d) == S64(d)
  {
    hide S32, S64, Wrap;
    var v := rodata + r.symbol + r.addend - text - r.at;
    DisplacementIs(base + rodata + r.symbol, base + text + r.at, r.addend);
    SmallSigned(v);
  }

  lemma {:induction false} DisplacementIs(s: int, p: int, a: int)
    ensures Wrap(Wrap(s) + a - Wrap(p)) == Wrap(s + a - p)
  {
  }

  lemma {:induction false} SmallSigned(v: int)
    requires -TWO31 <= v < TWO31
    ensures S32(Wrap(v)) == S64(Wrap(v))
  {
  }

  // ----- the relocation loop -----

  predicate Overlap(a: Reloc, b: Reloc) {
    a.at < b.at + 4 && b.at < a.at + 4
  }

  /** No relocation in rs[i+1..n] writes over the word of rs[i]. */
  predicate LastWriter(rs: seq<Reloc>, i: nat, n: nat)
    requires i < n <= |rs|
  {
    forall j | i < j < n :: !Overlap(rs[i], rs[j])
  }

  predicate InSlot(text: nat, r: Reloc, a: nat) {
    text + r.at <= a < text + r.at + 4
  }

  /** Every relocation of rs[..n] whose word survives resolves to its symbol. */
  ghost predicate AllResolved(arena: seq<u8>, base: int, text: nat, rodata: nat, rs: seq<Reloc>, n: nat)
    requires n <= |rs| && forall r <- rs :: text + r.at + 4 <= |arena|
  {
    forall i: nat | i < n && LastWriter(rs, i, n) ::
      Resolves(base, text, rodata, rs[i], Word32(arena[text + rs[i].at..text + rs[i].at + 4]))
  }

  lemma {:induction false} PatchKeeps(
    arena: seq<u8>, arena': seq<u8>, base: int, text: nat, rodata: nat, rs: seq<Reloc>, n: nat)
    requires n < |rs| && |arena| == |arena'| && forall r <- rs :: text + r.at + 4 <= |arena|
    requires AllResolved(arena, base, text, rodata, rs, n)
    requires forall a | 0 <= a < |arena| && !InSlot(text, rs[n], a) :: arena'[a] == arena[a]
    requires Resolves(base, text, rodata, rs[n], Word32(arena'[text + rs[n].at..text + rs[n].at + 4]))
    ensures AllResolved(arena', base, text, rodata, rs, n + 1)
  {
    hide Resolves, Word32;
    forall i: nat | i < n + 1 && LastWriter(rs, i, n + 1)
      ensures Resolves(base, text, rodata, rs[i], Word32(arena'[text + rs[i].at..text + rs[i].at + 4]))
    {
      if i < n {
        assert LastWriter(rs, i, n);
        assert !Overlap(rs[i], rs[n]);
        var lo := text + rs[i].at;
        assert arena'[lo..lo + 4] == arena[lo..lo + 4];
      }
    }
  }

  /** One round of the loop: store the displacement and check that it resolves. */
  method Patch(cache: CodeCache, base: int, text: nat, rodata: nat, r: Reloc) returns (ok: bool)
    requires cache.Valid() && text + r.at + 4 <= ARENA
    modifies cache.jitcode
    ensures cache.Valid() && cache.Entries() == old(cache.Entries())
    ensures var d := Displacement(base, text, rodata, r); ok <==> r.pc32 && S32(d) == S64(d)
    ensures ok ==> Resolves(base, text, rodata, r, Word32(cache.jitcode[text + r.at..text + r.at + 4]))
    ensures forall a | 0 <= a < ARENA && !InSlot(text, r, a) :: cache.jitcode[a] == old(cache.jitcode[a])
  {
    hide TableOk, RegionsOk, Resolves, Displacement, Word32, Bytes32, S32, S64;
    if !r.pc32 {
      return false;
    }
    var d := Displacement(base, text, rodata, r);
    cache.Copy(Bytes32(d), text + r.at);
    WordRoundTrip(d);
    ResolvesIffFits(base, text, rodata, r);
    ok := Resolves(base, text, rodata, r, Word32(cache.jitcode[text + r.at..text + r.at + 4]));
  }

  /** The loop over `.rela.text`. It aborts on a foreign relocation type or a
      displacement beyond 32 bits; otherwise every word not patched again later
      resolves, and bytes outside the patched words keep their values. */
  method Relocate(cache: CodeCache, base: int, text: nat, rodata: nat, rs: seq<Reloc>) returns (ok: bool)
    requires cache.Valid() && forall r <- rs :: text + r.at + 4 <= ARENA
    modifies cache.jitcode
    ensures cache.Valid() && cache.Entries() == old(cache.Entries())
    ensures ok <==> forall r <- rs ::
                      r.pc32 && S32(Displacement(base, text, rodata, r)) == S64(Displacement(base, text, rodata, r))
    ensures ok ==> AllResolved(cache.jitcode[..], base, text, rodata, rs, |rs|)
    ensures forall a | 0 <= a < ARENA && (forall r <- rs :: !InSlot(text, r, a)) ::
              cache.jitcode[a] == old(cache.jitcode[a])
  {
    hide TableOk, RegionsOk, Resolves, Displacement, Word32, Bytes32, S32, S64;
    var k := 0;
    while k < |rs|
      invariant k <= |rs| && cache.Valid()
      invariant forall r <- rs[..k] ::
                  r.pc32 && S32(Displacement(base, text, rodata, r)) == S64(Displacement(base, text, rodata, r))
      invariant AllResolved(cache.jitcode[..], base, text, rodata, rs, k)
      invariant forall a | 0 <= a < ARENA && (forall r <- rs :: !InSlot(text, r, a)) ::
                  cache.jitcode[a] == old(cache.jitcode[a])
    {
      var r := rs[k];
      assert r in rs;
      ghost var arena := cache.jitcode[..];
      var patched := Patch(cache, base, text, rodata, r);
      if !patched {
        return false;
      }
      PatchKeeps(arena, cache.jitcode[..], base, text, rodata, rs, k);
      assert rs[..k + 1] == rs[..k] + [r];
      k := k + 1;
    }
    assert rs[..k] == rs;
    ok := true;
  }

  // ----- machine_compile after the compiler ran -----

  /** Where the read-only data (if it is placed) and the text go. */
  predicate UsesRodata(o: ObjectCode) {
    o.rodata.Some? && o.relocs.Some?
  }

  function RodataStart(o: ObjectCode, offset: u64): u64
    requires UsesRodata(o)
  {
    AlignTo(offset, o.rodata.value.align)
  }

  function RodataEnd(o: ObjectCode, offset: u64): int {
    if UsesRodata(o) then RodataStart(o, offset) + |o.rodata.value.bytes| else offset
  }

  function TextStart(o: ObjectCode, offset: u64): u64
    requires RodataEnd(o, offset) <= ARENA
  {
    AlignTo(RodataEnd(o, offset), o.text.align)
  }

  /** Room for both sections and relocations within reach. */
  predicate Fits(o: ObjectCode, offset: u64) {
    && RodataEnd(o, offset) <= ARENA
    && TextStart(o, offset) + |o.text.bytes| <= ARENA
    && (UsesRodata(o) ==> forall r <- o.relocs.value :: r.pc32 && Near(TextStart(o, offset), RodataStart(o, offset), r))
  }

  /** The bytes stand in the arena at offset o. */
  predicate Holds(arena: seq<u8>, o: nat, bytes: seq<u8>) {
    o + |bytes| <= |arena| && arena[o..o + |bytes|] == bytes
  }

  lemma {:induction false} HoldsNow(arena: seq<u8>, o: nat, bytes: seq<u8>)
    requires o + |bytes| <= |arena| && arena[o..o + |bytes|] == bytes
    ensures Holds(arena, o, bytes)
  {
  }

  lemma {:induction false} HoldsBelow(arena: seq<u8>, arena': seq<u8>, o: nat, bytes: seq<u8>)
    requires o + |bytes| <= |arena| && arena[o..o + |bytes|] == bytes && |arena| == |arena'|
    requires forall a | 0 <= a < o + |bytes| :: arena'[a] == arena[a]
    ensures Holds(arena', o, bytes)
  {
    assert arena'[o..o + |bytes|] == arena[o..o + |bytes|];
  }

  /** The text stands at its offset, except for the patched words. */
  predicate HoldsUnpatched(arena: seq<u8>, text: nat, bytes: seq<u8>, rs: seq<Reloc>) {
    text + |bytes| <= |arena|
    && forall k | 0 <= k < |bytes| && (forall r <- rs :: !InSlot(text, r, text + k)) :: arena[text + k] == bytes[k]
  }

  /** The two `cache_add` calls: read-only data first, then text, under the
      same pc, so that the entry ends at the text. */
  method Place(cache: CodeCache, pc: u64, o: ObjectCode) returns (ok: bool)
    requires cache.Valid() && pc != 0 && pc in cache.Entries() && WellFormed(o) && UsesRodata(o)
    modifies cache, cache.table, cache.jitcode
    ensures cache.Valid()
    ensures old(cache.offset) <= cache.offset
    ensures Fits(o, old(cache.offset)) ==> ok
    ensures ok ==>
              && RodataEnd(o, old(cache.offset)) <= ARENA
              && old(cache.offset) <= RodataEnd(o, old(cache.offset)) <= TextStart(o, old(cache.offset))
              && cache.offset == TextStart(o, old(cache.offset)) + |o.text.bytes| <= ARENA
              && cache.Entries() == old(cache.Entries())[
                   pc := Entry(old(cache.Entries())[pc].hot, TextStart(o, old(cache.offset)))]
              && cache.regions == old(cache.regions)
                                  + [Region(RodataStart(o, old(cache.offset)), |o.rodata.value.bytes|)]
                                  + [Region(TextStart(o, old(cache.offset)), |o.text.bytes|)]
    ensures ok ==> Holds(cache.jitcode[..], TextStart(o, old(cache.offset)), o.text.bytes)
    ensures ok ==> Holds(cache.jitcode[..], RodataStart(o, old(cache.offset)), o.rodata.value.bytes)
    ensures forall a | 0 <= a < old(cache.offset) :: cache.jitcode[a] == old(cache.jitcode[a])
  {
    hide TableOk, RegionsOk, Crowded, RoundUp, Near, AlignTo, Holds, EntriesOf, KeysOf;
    var start := cache.offset;
    var data := cache.Add(pc, o.rodata.value.bytes, o.rodata.value.align);
    if data.AddAbort? {
      return false;
    }
    Ahead(o, start);
    ghost var arena := cache.jitcode[..];
    var text := cache.Add(pc, o.text.bytes, o.text.align);
    ok := text.Stored?;
    if ok {
      HoldsBelow(arena, cache.jitcode[..], data.offset, o.rodata.value.bytes);
      HoldsNow(cache.jitcode[..], text.offset, o.text.bytes);
    }
  }

  /** `machine_compile` for a pc that is already in the table. The entry ends at
      the start of the text, never at its data; heat and all other entries are
      untouched, and so is every byte placed earlier. */
  method Link(cache: CodeCache, base: int, pc: u64, o: ObjectCode) returns (r: Option<nat>)
    requires cache.Valid() && pc != 0 && pc in cache.Entries() && WellFormed(o)
    modifies cache, cache.table, cache.jitcode
    ensures cache.Valid()
    ensures old(cache.offset) <= cache.offset
    ensures Fits(o, old(cache.offset)) ==> r.Some?
    ensures r.Some? ==>
              && RodataEnd(o, old(cache.offset)) <= ARENA && r.value == TextStart(o, old(cache.offset))
              && old(cache.offset) <= r.value && cache.offset == r.value + |o.text.bytes|
              && cache.Entries() == old(cache.Entries())[pc := Entry(old(cache.Entries())[pc].hot, r.value)]
              && |cache.regions| > 0 && cache.regions[|cache.regions| - 1] == Region(r.value, |o.text.bytes|)
              && old(cache.regions) <= cache.regions
    ensures r.Some? && !UsesRodata(o) ==> Holds(cache.jitcode[..], r.value, o.text.bytes)
    ensures r.Some? && UsesRodata(o) ==>
              && Holds(cache.jitcode[..], RodataStart(o, old(cache.offset)), o.rodata.value.bytes)
              && HoldsUnpatched(cache.jitcode[..], r.value, o.text.bytes, o.relocs.value)
              && AllResolved(cache.jitcode[..], base, r.value, RodataStart(o, old(cache.offset)),
                             o.relocs.value, |o.relocs.value|)
    ensures forall a | 0 <= a < old(cache.offset) :: cache.jitcode[a] == old(cache.jitcode[a])
  {
    hide TableOk, RegionsOk, Crowded, AlignTo, AllResolved, Displacement, S32, S64;
    if !UsesRodata(o) {
      AlignForward(cache.offset, o.text.align);
      var t := cache.Add(pc, o.text.bytes, o.text.align);
      return if t.Stored? then Some(t.offset) else None;
    }
    var start := cache.offset;
    var placed := Place(cache, pc, o);
    if !placed {
      return None;
    }
    var data, text := RodataStart(o, start), TextStart(o, start);
    ghost var arena := cache.jitcode[..];
    var ok := Relocate(cache, base, text, data, o.relocs.value);
    TextKept(arena, cache.jitcode[..], text, data, o);
    if Fits(o, start) {
      NearAll(base, text, data, o.relocs.value);
    }
    return if ok then Some(text) else None;
  }

  lemma {:induction false} TextKept(arena: seq<u8>, arena': seq<u8>, text: nat, data: nat, o: ObjectCode)
    requires UsesRodata(o) && |arena| == |arena'| == ARENA
    requires Holds(arena, text, o.text.bytes) && Holds(arena, data, o.rodata.value.bytes)
    requires data + |o.rodata.value.bytes| <= text
    requires forall a | 0 <= a < ARENA && (forall r <- o.relocs.value :: !InSlot(text, r, a)) :: arena'[a] == arena[a]
    ensures Holds(arena', data, o.rodata.value.bytes) && HoldsUnpatched(arena', text, o.text.bytes, o.relocs.value)
  {
    var n := |o.text.bytes|;
    forall k | 0 <= k < n && (forall r <- o.relocs.value :: !InSlot(text, r, text + k))
      ensures arena'[text + k] == o.text.bytes[k]
    {
      assert o.text.bytes[k] == arena[text..text + n][k];
    }
    var d := o.rodata.value.bytes;
    assert arena'[data..data + |d|] == arena[data..data + |d|];
  }

  lemma {:induction false} NearAll(base: int, text: nat, rodata: nat, rs: seq<Reloc>)
    requires forall r <- rs :: Near(text, rodata, r)
    ensures forall r <- rs :: S32(Displacement(base, text, rodata, r)) == S64(Displacement(base, text, rodata, r))
  {
    hide Displacement, S32, S64;
    forall r <- rs
      ensures S32(Displacement(base, text, rodata, r)) == S64(Displacement(base, text, rodata, r))
    {
      NearFits(base, text, rodata, r);
    }
  }

  /** The text lies beyond everything placed before. */
  lemma {:induction false} Ahead(o: ObjectCode, offset: u64)
    requires WellFormed(o) && UsesRodata(o) && offset <= ARENA && RodataEnd(o, offset) <= ARENA
    ensures offset <= RodataStart(o, offset) <= RodataEnd(o, offset) <= TextStart(o, offset)
  {
    hide RoundUp;
    AlignForward(offset, o.rodata.value.align);
    AlignForward(RodataEnd(o, offset), o.text.align);
  }
}
