/** The two ways to reach pc 0. A guest that falls through to it halts; a guest
    that branches to it dies on the assertion of `cache_lookup`, although the
    plain loop halts there too. */
module Zero {
  import opened Words
  import opened Insn
  import opened Guest
  import opened Block
  import opened Cache
  import opened History
  import opened Machine
  import Compile
  import Decode
  import Probe
  import Stale
  import Alu

  /** The guest is one step away from pc 0. */
  predicate OneStepToZero(fpu: Fpu, c: Cpu) {
    c.pc != 0 && Step(fpu, c).Running? && Step(fpu, c).cpu.pc == 0
  }

  lemma {:induction false} HaltsNext(fpu: Fpu, c: Cpu, n: nat)
    requires OneStepToZero(fpu, c) && 2 <= n
    ensures Run(fpu, c, 1) == Step(fpu, c) && Run(fpu, c, n).Halted?
    decreases n
  {
    hide Exec, Decode.InsnDecode, Fetch;
    assert Run(fpu, c, 0) == Running(c);
    assert Run(fpu, c, 1) == Step(fpu, c);
    if n > 2 {
      HaltsNext(fpu, c, n - 1);
    }
  }

  lemma {:induction false} ShortRun(fpu: Fpu, c: Cpu)
    requires OneStepToZero(fpu, c)
    ensures forall n: nat :: Run(fpu, c, n).Running? || Run(fpu, c, n).Halted?
    ensures forall n: nat | n >= 2 :: !Run(fpu, c, n).Running?
    ensures Run(fpu, c, 0) == Running(c) && Run(fpu, c, 1) == Step(fpu, c)
  {
    hide Step;
    forall n: nat
      ensures Run(fpu, c, n).Running? || Run(fpu, c, n).Halted?
      ensures n >= 2 ==> !Run(fpu, c, n).Running?
    {
      HaltsNext(fpu, c, if n < 2 then 2 else n);
      assert Run(fpu, c, 0) == Running(c);
    }
  }

  /** A table that a visit or a lookup fails on holds more than 32 entries. */
  lemma {:induction false} FullTable(cache: CodeCache, pc: u64)
    requires cache.Valid()
    requires Probe.Crowded(KeysOf(cache.table[..]), pc) || forall i | 0 <= i < ENTRIES :: cache.table[i].pc != 0
    ensures |cache.Entries()| > 32
  {
    hide Probe.Slot, RegionsOk, Probe.Placed;
    Probe.CrowdedMany(KeysOf(cache.table[..]), cache.dist, pc);
    assert cache.Entries().Keys == cache.dist.Keys;
  }

  lemma {:induction false} FewEntries(entries: map<u64, Entry>, twice: bool, t: Trace, n: nat, pc: u64)
    requires HeatBound(map[], entries, twice, t, n) && n <= 2 && AtPc(t(0), pc) && AtPc(t(1), 0)
    ensures |entries| <= 2
  {
    forall q <- entries
      ensures q in {pc, 0}
    {
      assert HeatOk(map[], entries, twice, q, Visits(t, q, n));
      VisitsMono(t, q, n, 2);
      assert Visits(t, q, 1) == if AtPc(t(0), q) then 1 else 0;
    }
    Probe.SubsetSize(entries.Keys, {pc, 0});
  }

  /** Which of the two happens is decided by the instruction that reaches pc 0,
      whatever the compiler: an exit dies, a fall-through halts. */
  method StepToZero(fpu: Fpu, c: Cpu, base: int, twice: bool, clang: Program -> Compile.ObjectCode)
    returns (r: Returned)
    requires c.gp[0] == 0 && OneStepToZero(fpu, c) && forall p: Program :: Compile.WellFormed(clang(p))
    ensures r == if NextExit(fpu, Running(c)).Some? then Died(NullBranch) else ReturnHalt
  {
    hide Run, Step, NextExit, TableOk, RegionsOk, HotIsCompiled, CompiledOnce, BytesIntact, Stable, HeatBound,
      MayCompile, Grown, EntriesOf, KeysOf, Probe.Crowded,
      Counted, Keeps, Compile.WellFormed;
    ShortRun(fpu, c);
    var cache := new CodeCache(twice);
    var m := new Machine(fpu, cache, base, clang, c);
    ghost var t := PlainRun(fpu, c);
    ColdIsStable(map[], twice, t, 4);
    ghost var n: nat;
    r, n := m.Step(4);
    if r.Died? && r.cause != NullBranch {
      FewEntries(cache.Entries(), twice, t, n + 1, c.pc);
      FullTable(cache, m.cpu.pc);
    }
  }

  // ----- both ways exist -----

  /** `jalr x0, 0(x0)`. */
  const JUMP: bv32 := 0x0000_0067

  const JUMPER := Cpu(seq(32, _ => 0), seq(32, _ => 0), 0x1000, map[0x1000 := 0x67])

  lemma {:induction false} JumpWord()
    ensures Assemble(0x67, 0x00, 0x00, 0x00) == JUMP
  {
  }

  lemma {:induction false} DecodeJump()
    ensures Decode.InsnDecode(ZERO_INSN, JUMP) == Some(ZERO_INSN.(ty := Jalr, cont := true))
  {
  }

  lemma {:induction false} FetchJump()
    ensures Fetch(JUMPER.mem, 0x1000) == JUMP
  {
    hide Assemble;
    JumpWord();
  }

  /** One `jalr` through a zero register: the guest of `StepToZero` that dies. */
  lemma {:induction false} JumpToZero(fpu: Fpu)
    ensures JUMPER.gp[0] == 0 && OneStepToZero(fpu, JUMPER) && NextExit(fpu, Running(JUMPER)).Some?
  {
    hide Fetch, Decode.InsnDecode;
    FetchJump();
    DecodeJump();
  }

  /** `addi x0, x0, 0` in the last word of the address space. */
  const FALLER := Cpu(seq(32, _ => 0), seq(32, _ => 0), TWO64 - 4, map[TWO64 - 4 := 0x13])

  lemma {:induction false} FetchLast()
    ensures Fetch(FALLER.mem, TWO64 - 4) == Stale.NOP
  {
    hide Assemble;
    Stale.NopWord();
  }

  /** A no-op whose next pc wraps: the guest of `StepToZero` that halts. */
  lemma {:induction false} FallToZero(fpu: Fpu)
    ensures FALLER.gp[0] == 0 && OneStepToZero(fpu, FALLER) && NextExit(fpu, Running(FALLER)).None?
  {
    hide Fetch, Decode.InsnDecode, Alu.ImmAlu;
    FetchLast();
    Stale.DecodeNop();
  }
}
