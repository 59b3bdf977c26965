/** `machine_step`: interpret, count heat, compile once, chain compiled blocks,
    fall back to the interpreter, and return at a system call or a halt. */
module Machine {
  import opened Words
  import opened Guest
  import opened Block
  import opened Cache
  import Insn
  import Decode
  import Ir
  import Compile
  import GenBlock
  import Region
  import Worklist
  import Probe
  import opened History

  // ----- the reference run -----

  /** Running a + b steps is running a, then b. */
  lemma {:induction false} RunSplit(fpu: Fpu, c: Cpu, a: nat, b: nat)
    ensures Run(fpu, c, a + b) == match Run(fpu, c, a)
                                  case Running(d) => Run(fpu, d, b)
                                  case o => o
    decreases b
  {
    hide Step;
    if b != 0 {
      RunSplit(fpu, c, a, b - 1);
    }
  }

  /** The run from a later state is the rest of the run: what holds of the
      whole holds of it. */
  lemma {:induction false} RestOfRun(
    fpu: Fpu, natives: map<nat, Placed>, sources: map<nat, Mem>, c: Cpu, a: nat, d: Cpu, n: nat, b: nat)
    requires NoAbort(PlainRun(fpu, c), n) && a + b <= n && Run(fpu, c, a) == Running(d)
    ensures NoAbort(PlainRun(fpu, d), b) && Within(PlainRun(fpu, d), PlainRun(fpu, c), a, b)
    ensures CodeHolds(natives, sources, PlainRun(fpu, c), n) ==> CodeHolds(natives, sources, PlainRun(fpu, d), b)
  {
    hide Run, NoAbort, CodeHolds, Within;
    var t, u := PlainRun(fpu, c), PlainRun(fpu, d);
    forall k: nat | k <= b
      ensures Follows(u, t, a, k)
    {
      RunSplit(fpu, c, a, k);
    }
    NoAbortWithin(u, t, a, b, n);
    if CodeHolds(natives, sources, t, n) {
      HoldsWithin(natives, sources, u, t, a, b, n);
    }
  }

  /** The last of n steps was an instruction that left its block, by a branch,
      a jump or a system call. */
  ghost predicate LastLeft(fpu: Fpu, c: Cpu, n: nat) {
    n >= 1 && Run(fpu, c, n - 1).Running? && NextExit(fpu, Run(fpu, c, n - 1)).Some?
  }

  /** The last of n steps fell through to the next instruction. */
  ghost predicate LastFell(fpu: Fpu, c: Cpu, n: nat) {
    n >= 1 && Run(fpu, c, n - 1).Running? && NextExit(fpu, Run(fpu, c, n - 1)).None?
  }

  lemma {:induction false} LastJoin(fpu: Fpu, c: Cpu, a: nat, d: Cpu, b: nat)
    requires Run(fpu, c, a) == Running(d)
    ensures LastLeft(fpu, d, b) ==> LastLeft(fpu, c, a + b)
    ensures LastFell(fpu, d, b) ==> LastFell(fpu, c, a + b)
  {
    hide Run, NextExit;
    if b >= 1 {
      RunSplit(fpu, c, a, b - 1);
      assert a + b - 1 == a + (b - 1);
    }
  }

  /** x0 is zero at every instruction boundary. */
  lemma {:induction false} ZeroStaysZero(fpu: Fpu, c: Cpu, n: nat)
    requires c.gp[0] == 0
    ensures Run(fpu, c, n).Aborted? || Run(fpu, c, n).cpu.gp[0] == 0
    decreases n
  {
    hide Exec, Decode.InsnDecode, Fetch;
    if n != 0 {
      ZeroStaysZero(fpu, c, n - 1);
      var o := Run(fpu, c, n - 1);
      if o.Running? && o.cpu.pc != 0 {
        var i := Decode.InsnDecode(Insn.ZERO_INSN, Fetch(o.cpu.mem, o.cpu.pc));
        if i.Some? && Exec(fpu, i.value, o.cpu).Effect? {
          ExecFacts(fpu, i.value, o.cpu);
        }
      }
    }
  }

  // ----- outcomes -----

  /** How a block function comes back: with an exit, or still running when the
      budget of instructions is used up. */
  datatype End = Ended(exit: Exit) | Paused | Crashed

  datatype Code = Interpret | Native(offset: nat)

  /** Why the host process stops or never comes back. */
  datatype Cause =
    | NullBranch            // assert(pc != 0) in cache_lookup
    | LookupLoops           // cache_lookup probes a full table forever
    | TableCrowded          // probe limit of cache_hot
    | BadCode(pc: u64)      // machine_genblock rejects a reachable pc
    | RegionTooBig          // machine_genblock's containers overflow
    | LinkFailed(program: Program, free: u64) // arena exhausted or relocation out of reach

  datatype Prepared = Ready(code: Code) | Fails(cause: Cause)

  datatype Returned = ReturnEcall | ReturnHalt | Suspended | Died(cause: Cause)

  class Machine {
    const fpu: Fpu
    const cache: CodeCache
    const base: int
    const clang: Program -> Compile.ObjectCode
    var cpu: Cpu
    var natives: map<nat, Placed>
    ghost var sources: map<nat, Mem>
    ghost var compiled: seq<u64>

    ghost predicate Valid()
      reads this, cache, cache.table, cache.jitcode
    {
      && cpu.gp[0] == 0
      && cache.Valid()
      && (forall p: Program :: Compile.WellFormed(clang(p)))
      && BytesIntact(natives, cache.jitcode[..], cache.offset)
      && HotIsCompiled(cache.Entries(), natives, sources)
      && CompiledOnce(cache.Entries(), compiled)
    }

    /** The plain loop from here does not abort within n steps; code compiled
        already, or compiled on the way, still has its words whenever the run
        comes to them. Nothing is asked of code that stays cold. */
    ghost predicate Safe(n: nat)
      requires Valid()
      reads this, cache, cache.table, cache.jitcode
    {
      && NoAbort(PlainRun(fpu, cpu), n)
      && CodeHolds(natives, sources, PlainRun(fpu, cpu), n)
      && Stable(cache.Entries(), cache.twice, PlainRun(fpu, cpu), n)
    }

    constructor (fpu: Fpu, cache: CodeCache, base: int, clang: Program -> Compile.ObjectCode, cpu: Cpu)
      requires cache.Valid() && cache.Entries() == map[] && cpu.gp[0] == 0
      requires forall p: Program :: Compile.WellFormed(clang(p))
      ensures Valid() && this.cpu == cpu && this.fpu == fpu && this.cache == cache && natives == map[]
    {
      this.fpu := fpu;
      this.cache := cache;
      this.base := base;
      this.clang := clang;
      this.cpu := cpu;
      natives := map[];
      sources := map[];
      compiled := [];
    }

    /** Between its start and step b the run only falls through. */
    static ghost predicate FallsThrough(fpu: Fpu, t: Trace, b: nat) {
      forall j: nat | 0 < j < b :: !ArrivesAt(fpu, t, j)
    }

    /** `exec_block_interp`: instructions until one leaves the block. */
    method ExecInterp(budget: nat) returns (end: End, used: nat)
      requires cpu.gp[0] == 0
      modifies this`cpu
      ensures cpu.gp[0] == 0 && used <= budget
      ensures end.Paused? ==> used == budget && Run(fpu, old(cpu), used) == Running(cpu)
      ensures end.Crashed? ==> used < budget && Run(fpu, old(cpu), used + 1).Aborted?
      ensures end.Ended? ==>
                match end.exit.reason
                case HaltExit =>
                  end.exit.reenter == 0 == cpu.pc && Run(fpu, old(cpu), used) == Running(cpu)
                  && (used == 0 || LastFell(fpu, old(cpu), used))
                case EcallExit =>
                  LastLeft(fpu, old(cpu), used) && Run(fpu, old(cpu), used) == Syscall(cpu.(pc := end.exit.reenter))
                case Interp => false
                case _ =>
                  LastLeft(fpu, old(cpu), used) && Run(fpu, old(cpu), used) == Running(cpu.(pc := end.exit.reenter))
      ensures end.Ended? && !end.exit.reason.HaltExit? ==>
                NextExit(fpu, Run(fpu, old(cpu), used - 1)) == Some(end.exit)
      ensures FallsThrough(fpu, PlainRun(fpu, old(cpu)), if end.Ended? then used else used + 1)
    {
      hide Exec, Decode.InsnDecode, Fetch;
      used := 0;
      while used < budget
        invariant used <= budget && cpu.gp[0] == 0
        invariant FallsThrough(fpu, PlainRun(fpu, old(cpu)), used + 1)
        invariant Run(fpu, old(cpu), used) == Running(cpu)
        invariant used == 0 || LastFell(fpu, old(cpu), used)
      {
        if cpu.pc == 0 {
          return Ended(Exit(HaltExit, 0)), used;
        }
        var insn := Decode.InsnDecode(Insn.ZERO_INSN, Fetch(cpu.mem, cpu.pc));
        if insn == None {
          return Crashed, used;
        }
        var effect := Exec(fpu, insn.value, cpu);
        if effect == Trap {
          return Crashed, used;
        }
        ExecFacts(fpu, insn.value, cpu);
        cpu := effect.cpu;
        used := used + 1;
        if effect.exit.Some? {
          return Ended(effect.exit.value), used;
        }
        cpu := cpu.(pc := Wrap(cpu.pc + Insn.InsnLength(insn.value)));
      }
      end := Paused;
    }

    /** A compiled block called as a function: prologue, labels, epilogue. */
    method CallBlock(p: Program, ghost m: Mem, budget: nat) returns (end: End, used: nat)
      requires cpu.gp[0] == 0 && GenBlock.IsBlockFor(p, m, cpu.pc) && NoAbort(PlainRun(fpu, cpu), budget)
      requires forall k: nat | k <= budget :: KeepsWord(p, m, Run(fpu, cpu, k))
      modifies this`cpu
      ensures cpu.gp[0] == 0 && used <= budget && !end.Crashed?
      ensures end.Paused? ==> used == budget && Run(fpu, old(cpu), used) == Running(cpu)
      ensures end.Ended? ==> used >= 1
      ensures end.Ended? ==> BlockExplains(fpu, old(cpu), cpu, end.exit, used)
      ensures Ran(fpu, p, old(cpu), cpu, end, used)
      ensures AtLabels(fpu, p, old(cpu), if end.Paused? then used + 1 else used)
    {
      hide Ir.RunLabel, Prologue, Epilogue, Run, GeneratedFrom, Region.Reachable, Region.SuccessorsAt, KeepsWord,
        NextExit, Ran, AtLabels, GenBlock.TracedOnly, RunBlock, BlockExplains, ExitMatches;
      var c := cpu;
      var l, h := c.pc, Prologue(p, c);
      used := 0;
      EntryIsLabel(p, m);
      RunNone(fpu, c);
      BlockStart(fpu, p, c);
      TranslationPreservesMeaning(fpu, p, m, c, 0);
      AtLabelsMore(fpu, p, c, 0);
      while used < budget
        invariant used <= budget && cpu == old(cpu) == c
        invariant RunBlock(fpu, p, c, used) == Inside(l, h)
        invariant l in p.code && Run(fpu, c, used) == Running(Epilogue(p, c, h).(pc := l))
        invariant AtLabels(fpu, p, c, used + 1)
      {
        var s := StepBlock(fpu, p, l, h, used + 1);
        BlockNext(fpu, p, c, used);
        NotAborted(fpu, c, budget, used + 1);
        TranslationPreservesMeaning(fpu, p, m, c, used + 1);
        used := used + 1;
        match s
        case Inside(t, g) =>
          l, h := t, g;
          AtLabelsMore(fpu, p, c, used);
        case Done(_, x, g) =>
          LabelIsNonzero(p, m, l);
          BlockExit(fpu, p, c, used, l, h, x, g);
          RanIs(fpu, p, c, used);
          cpu := Epilogue(p, c, g);
          return Ended(x), used;
        case Bad =>
          assert false;
      }
      ZeroAt(fpu, c, used);
      RanIs(fpu, p, c, used);
      cpu := Epilogue(p, c, h).(pc := l);
      end := Paused;
    }

    /** What is true of the machine when the process stops for this cause. */
    ghost predicate Excused(cause: Cause)
      reads this, cache, cache.table, cache.jitcode
    {
      match cause
      case NullBranch => cpu.pc == 0
      case LookupLoops =>
        cache.Valid() && cpu.pc !in cache.Entries() && forall i | 0 <= i < ENTRIES :: cache.table[i].pc != 0
      case TableCrowded =>
        cache.Valid() && cpu.pc !in cache.Entries() && Probe.Crowded(KeysOf(cache.table[..]), cpu.pc)
      case BadCode(q) =>
        (exists n: nat :: Region.Ends(cpu.mem, cpu.pc, Region.RejectedAt(q), n))
        && Region.Reachable(cpu.mem, cpu.pc, q) && (q == 0 || LabelAt(cpu.mem, q).None?)
      case RegionTooBig =>
        (exists n: nat :: Region.Ends(cpu.mem, cpu.pc, Region.NoRoom, n)) && Region.Overfull(cpu.mem, cpu.pc)
      case LinkFailed(p, free) =>
        GenBlock.IsBlockFor(p, cpu.mem, cpu.pc) && free <= cache.offset && !Compile.Fits(clang(p), free)
    }

    /** The head of the outer loop: find compiled code for pc, or count the visit
        and compile when the count reaches the threshold. */
    method Prepare() returns (r: Prepared)
      requires Valid() && cpu.pc != 0
      modifies this`natives, this`sources, this`compiled, cache, cache.table, cache.jitcode
      ensures r.Ready? ==> Valid()
      ensures r.Ready? && r.code.Native? ==> HasBlock(natives, sources, cpu.pc, r.code.offset)
      ensures r.Ready? ==> Extends(old(natives), old(sources), natives, sources, old(cache.Entries()), r.code)
      ensures cache.Valid()
      ensures !(r.Fails? && r.cause.LinkFailed?) ==>
                Visited(old(cache.Entries()), cache.Entries(), cache.twice, cpu.pc)
      ensures r.Fails? ==> Excused(r.cause) && r.cause != NullBranch
      ensures r.Fails? && InCompiler(r.cause) ==> Ripe(old(cache.Entries()), cache.twice, cpu.pc)
      ensures r.Fails? && r.cause.LinkFailed? ==> r.cause.free == old(cache.offset)
      ensures Heat(old(cache.Entries()), cpu.pc) >= HOT_COUNT ==>
                r == Ready(Native(old(cache.Entries())[cpu.pc].offset)) && cache.Entries() == old(cache.Entries())
      ensures r == Ready(Interpret) ==> CountsCold(old(cache.Entries()), cache.Entries(), cache.twice, cpu.pc)
      ensures cpu.pc in old(cache.Entries()) && Ripe(old(cache.Entries()), cache.twice, cpu.pc)
                && Warmer(old(cache.Entries())[cpu.pc].hot, cache.twice) >= HOT_COUNT ==>
                (r.Ready? && r.code.Native?) || (r.Fails? && InCompiler(r.cause))
      ensures r.Ready? ==>
                Covered(natives, cpu.pc) || Heat(old(cache.Entries()), cpu.pc) < Heat(cache.Entries(), cpu.pc)
    {
      hide TableOk, RegionsOk, GenBlock.IsBlockFor, Region.Overfull, Region.Ends, Region.Reachable, LabelAt,
        Probe.Crowded, Compile.Fits, Compile.AllResolved, BytesIntact, HotIsCompiled, CompiledOnce, EntriesOf, Visited;
      ghost var before := cache.Entries();
      NotVisited(before, cache.twice, cpu.pc);
      var found := cache.Lookup(cpu.pc);
      if found.Hit? {
        HitHasBlock(cache.Entries(), natives, sources, cpu.pc);
        BlockCovers(natives, sources, cpu.pc, found.offset);
        return Ready(Native(found.offset));
      }
      if found.Diverges? {
        return Fails(LookupLoops);
      }
      var heat := cache.Visit(cpu.pc);
      if heat == HotAbort {
        return Fails(TableCrowded);
      }
      VisitedNow(before, cache.Entries(), cache.twice, cpu.pc);
      if heat == Cold {
        StillCold(before, cache.Entries(), cpu.pc, natives, sources, compiled);
        return Ready(Interpret);
      }
      r := CompileHere(before);
      if r.Ready? {
        VisitedHot(before, cache.Entries(), cache.twice, cpu.pc);
        BlockCovers(natives, sources, cpu.pc, r.code.offset);
      }
    }

    /** Code joined by a call at this state: none, or the block of the pc that
        was ripe. */
    ghost predicate Extends(
      natives: map<nat, Placed>, sources: map<nat, Mem>, natives': map<nat, Placed>, sources': map<nat, Mem>,
      entries: map<u64, Entry>, code: Code)
      reads this, cache
    {
      (natives' == natives && sources' == sources)
      || (code.Native? && code.offset in natives' && code.offset !in natives && Ripe(entries, cache.twice, cpu.pc)
          && natives' == natives[code.offset := natives'[code.offset]] && sources' == sources[code.offset := cpu.mem]
          && GenBlock.IsBlockFor(natives'[code.offset].program, cpu.mem, cpu.pc))
    }

    /** The hot branch: generate the block of pc, compile and link it. */
    method CompileHere(ghost before: map<u64, Entry>) returns (r: Prepared)
      requires cpu.gp[0] == 0 && cpu.pc != 0 && cache.Valid()
      requires forall p: Program :: Compile.WellFormed(clang(p))
      requires BytesIntact(natives, cache.jitcode[..], cache.offset)
      requires HotIsCompiled(before, natives, sources) && CompiledOnce(before, compiled)
      requires cpu.pc in before && Ripe(before, cache.twice, cpu.pc)
      requires cache.Entries() == before[cpu.pc := before[cpu.pc].(hot := HOT_COUNT)]
      modifies this`natives, this`sources, this`compiled, cache, cache.table, cache.jitcode
      ensures r.Ready? ==> Valid() && r.code.Native? && HasBlock(natives, sources, cpu.pc, r.code.offset)
      ensures r.Ready? ==> Extends(old(natives), old(sources), natives, sources, before, r.code)
      ensures r.Ready? ==> cache.Entries() == before[cpu.pc := Entry(HOT_COUNT, r.code.offset)]
      ensures cache.Valid() && (r.Fails? && !r.cause.LinkFailed? ==> cache.Entries() == old(cache.Entries()))
      ensures r.Fails? ==> Excused(r.cause) && InCompiler(r.cause)
      ensures r.Fails? && r.cause.LinkFailed? ==> r.cause.free == old(cache.offset)
    {
      hide TableOk, RegionsOk, GenBlock.IsBlockFor, Region.Overfull, Region.Ends, Region.Reachable, LabelAt,
        Compile.Fits, Compile.AllResolved, BytesIntact, HotIsCompiled, CompiledOnce, HasBlock,
        Compile.TextStart, Compile.RodataEnd, Compile.RodataStart, Compile.Holds, Compile.HoldsUnpatched, EntriesOf;
      var g, _ := GenBlock.Generate(cpu.mem, cpu.pc);
      if g.Rejected? {
        return Fails(BadCode(g.pc));
      }
      if g.OutOfSpace? {
        return Fails(RegionTooBig);
      }
      var obj := clang(g.program);
      var free := cache.offset;
      ghost var arena := cache.jitcode[..];
      var o := Compile.Link(cache, base, cpu.pc, obj);
      if o == None {
        return Fails(LinkFailed(g.program, free));
      }
      var code := Placed(g.program, cache.jitcode[o.value..o.value + |obj.text.bytes|]);
      BytesKept(natives, arena, free, cache.jitcode[..], cache.offset, o.value, code);
      FreshOffset(natives, arena, free, o.value);
      NowCompiled(before, cache.Entries(), cpu.pc, o.value, natives, sources, compiled, free, arena, code, cpu.mem);
      natives := natives[o.value := code];
      sources := sources[o.value := cpu.mem];
      compiled := compiled + [cpu.pc];
      return Ready(Native(o.value));
    }

    /** One call `((exec_block_func_t)code)(&m->state)`. */
    method Call(code: Code, budget: nat) returns (end: End, used: nat)
      requires Valid() && budget >= 1 && cpu.pc != 0 && NoAbort(PlainRun(fpu, cpu), budget)
      requires CodeHolds(natives, sources, PlainRun(fpu, cpu), budget)
      requires code.Native? ==> HasBlock(natives, sources, cpu.pc, code.offset)
      modifies this`cpu
      ensures Valid() && used <= budget && !end.Crashed?
      ensures end.Paused? ==> used == budget && Run(fpu, old(cpu), used) == Running(cpu)
      ensures end.Ended? ==> Explains(fpu, old(cpu), cpu, code, end.exit, used)
      ensures code.Native? ==> Ran(fpu, natives[code.offset].program, old(cpu), cpu, end, used)
      ensures Inner(fpu, natives, PlainRun(fpu, old(cpu)), 0, if end.Paused? then used + 1 else used)
    {
      hide Run, HotIsCompiled, CompiledOnce, BytesIntact, TableOk, RegionsOk, GenBlock.IsBlockFor, KeepsWord, NextExit,
        Ran, Covered, ArrivesAt;
      RunNone(fpu, cpu);
      if code.Native? {
        BlockHolds(fpu, natives, sources, cpu, budget, code.offset);
        end, used := CallBlock(natives[code.offset].program, sources[code.offset], budget);
        LabelsCover(fpu, natives, old(cpu), code.offset, if end.Paused? then used + 1 else used);
      } else {
        end, used := ExecInterp(budget);
        if end.Crashed? {
          NotAborted(fpu, old(cpu), budget, used + 1);
        }
      }
    }

    /** One call, after n steps of the run from c0, as part of that run. */
    method Leg(code: Code, left: nat, ghost c0: Cpu, ghost n: nat, ghost budget: nat) returns (end: End, used: nat)
      requires Valid() && left >= 1 && cpu.pc != 0 && Run(fpu, c0, n) == Running(cpu) && n + left <= budget
      requires NoAbort(PlainRun(fpu, c0), budget) && CodeHolds(natives, sources, PlainRun(fpu, c0), budget)
      requires code.Native? ==> HasBlock(natives, sources, cpu.pc, code.offset)
      modifies this`cpu
      ensures Valid() && used <= left && !end.Crashed?
      ensures end.Paused? ==> used == left && Run(fpu, c0, n + used) == Running(cpu)
      ensures end.Ended? ==> used >= 1 && Explains(fpu, c0, cpu, code, end.exit, n + used)
      ensures Inner(fpu, natives, PlainRun(fpu, c0), n, n + if end.Paused? then used + 1 else used)
    {
      hide Run, HotIsCompiled, CompiledOnce, BytesIntact, TableOk, RegionsOk, HasBlock, NoAbort, CodeHolds, Within,
        Explains, EntriesOf, Inner, Ran;
      RestOfRun(fpu, natives, sources, c0, n, cpu, budget, left);
      ghost var c := cpu;
      end, used := Call(code, left);
      RunJoin(fpu, c0, n, c, used);
      InnerLater(fpu, natives, c0, n, c, if end.Paused? then used + 1 else used);
      if end.Ended? {
        ExplainsJoin(fpu, c0, n, c, cpu, code, end.exit, used);
      }
    }

    /** After a branch: continue in compiled code, or go back to the outer loop. */
    method Follow() returns (code: Code, stop: Option<ChainEnd>)
      requires Valid()
      ensures stop.None? ==> code.Native? && cpu.pc != 0 && HasBlock(natives, sources, cpu.pc, code.offset)
      ensures stop.None? ==> Covered(natives, cpu.pc)
      ensures stop.Some? ==> stop.value == Again || (stop.value.Out? && Excused(stop.value.cause))
      ensures stop.Some? && stop.value.Out? ==>
                (stop.value.cause == NullBranch && cpu.pc == 0) || stop.value.cause == LookupLoops
      ensures stop == Some(Again) ==> cpu.pc != 0 && Heat(cache.Entries(), cpu.pc) < HOT_COUNT
    {
      hide HotIsCompiled, CompiledOnce, BytesIntact, TableOk, RegionsOk, HasBlock;
      code, stop := Interpret, None;
      var found := cache.Lookup(cpu.pc);
      match found
      case NullPc => stop := Some(Out(NullBranch));
      case Diverges => stop := Some(Out(LookupLoops));
      case Miss => stop := Some(Again);
      case Hit(o) =>
        HitHasBlock(cache.Entries(), natives, sources, cpu.pc);
        BlockCovers(natives, sources, cpu.pc, o);
        code := Native(o);
    }

    /** The inner loop: call, follow branches into compiled code, fall back to
        the interpreter for instructions the translator leaves out. Ends where
        the outer loop has to look again, or with a system call or halt; n
        counts reference steps. */
    method Chain(first: Code, budget: nat) returns (end: ChainEnd, used: nat, ghost n: nat)
      requires Valid() && budget >= 1 && cpu.pc != 0 && NoAbort(PlainRun(fpu, cpu), budget)
      requires CodeHolds(natives, sources, PlainRun(fpu, cpu), budget)
      requires first.Native? ==> HasBlock(natives, sources, cpu.pc, first.offset)
      modifies this`cpu
      ensures Valid() && used <= budget && n <= used <= 2 * n + 1
      ensures end.Out? ==> Excused(end.cause) && (end.cause == NullBranch || end.cause == LookupLoops)
      ensures end == Out(NullBranch) ==> cpu.pc == 0 && LastLeft(fpu, old(cpu), n)
      ensures end.Again? ==> used >= 1 && used <= 2 * n && cpu.pc != 0 && Heat(cache.Entries(), cpu.pc) < HOT_COUNT
      ensures Inner(fpu, natives, PlainRun(fpu, old(cpu)), 0, n)
      ensures end.Tired? ==> used == budget
      ensures Run(fpu, old(cpu), n) == if end == Returns(EcallExit) then Syscall(cpu) else Running(cpu)
      ensures end == Returns(EcallExit) ==> LastLeft(fpu, old(cpu), n)
      ensures end.Returns? && end != Returns(EcallExit) ==>
                end == Returns(HaltExit) && cpu.pc == 0 && LastFell(fpu, old(cpu), n)
    {
      hide Run, HotIsCompiled, CompiledOnce, BytesIntact, TableOk, RegionsOk, HasBlock, NoAbort, CodeHolds,
        LastLeft, LastFell, Excused, Compile.WellFormed, EntriesOf, Inner, Covered, ArrivesAt;
      ghost var t := PlainRun(fpu, cpu);
      InnerStart(fpu, natives, t);
      var code := first;
      used, n := 0, 0;
      ghost var pending := 0;
      RunNone(fpu, cpu);
      while used < budget
        invariant Valid() && cpu.pc != 0 && n <= used <= 2 * n + pending && used <= budget
        invariant pending == 0 || (pending == 1 && code == Interpret)
        invariant Run(fpu, old(cpu), n) == Running(cpu)
        invariant code.Native? ==> HasBlock(natives, sources, cpu.pc, code.offset)
        invariant Inner(fpu, natives, t, 0, n + 1)
      {
        var e, k := Leg(code, budget - used, old(cpu), n, budget);
        used := used + k;
        InnerJoin(fpu, natives, t, n, n + if e.Paused? then k + 1 else k);
        if e.Paused? {
          n := n + k;
          InnerLess(fpu, natives, t, n + 1, n);
          return Tired, used, n;
        }
        n := if e.exit.reason == Interp then n + k - 1 else n + k;
        if e.exit.reason == EcallExit || e.exit.reason == HaltExit {
          cpu := cpu.(pc := e.exit.reenter);
          return Returns(e.exit.reason), used, n;
        }
        cpu := cpu.(pc := e.exit.reenter);
        if e.exit.reason == Interp {
          code := Interpret;
          pending := 1;
          continue;
        }
        pending := 0;
        var stop;
        code, stop := Follow();
        if stop.Some? {
          return stop.value, used, n;
        }
        InnerMore(fpu, natives, t, n);
      }
      InnerLess(fpu, natives, t, n + 1, n);
      end := Tired;
    }

    /** `Prepare` after n steps of the run from c0, with what it does to the heat
        and the code since the run began, and what that leaves for the rest. */
    method Head(
      ghost c0: Cpu, ghost e0: map<u64, Entry>, ghost n0: map<nat, Placed>, ghost s0: map<nat, Mem>,
      ghost n: nat, ghost left: nat, ghost budget: nat)
      returns (ready: Prepared)
      requires Valid() && cpu.pc != 0 && Run(fpu, c0, n) == Running(cpu) && n + left <= budget
      requires NoAbort(PlainRun(fpu, c0), budget) && CodeHolds(n0, s0, PlainRun(fpu, c0), budget)
      requires Stable(e0, cache.twice, PlainRun(fpu, c0), budget)
      requires HeatBound(e0, cache.Entries(), cache.twice, PlainRun(fpu, c0), n)
      requires Grown(n0, s0, natives, sources, e0, cache.twice, PlainRun(fpu, c0), n)
      modifies this`natives, this`sources, this`compiled, cache, cache.table, cache.jitcode
      ensures ready.Ready? ==> Valid()
      ensures ready.Ready? && ready.code.Native? ==> HasBlock(natives, sources, cpu.pc, ready.code.offset)
      ensures ready.Ready? ==> Grown(n0, s0, natives, sources, e0, cache.twice, PlainRun(fpu, c0), n)
      ensures ready.Ready? ==>
                NoAbort(PlainRun(fpu, cpu), left) && CodeHolds(natives, sources, PlainRun(fpu, cpu), left)
      ensures ready.Fails? ==> Excused(ready.cause) && ready.cause != NullBranch
      ensures ready.Fails? && InCompiler(ready.cause) ==> MayCompile(e0, cache.twice, PlainRun(fpu, c0), n)
      ensures cache.Valid()
      ensures !(ready.Fails? && ready.cause.LinkFailed?) ==>
                HeatBound(e0, cache.Entries(), cache.twice, PlainRun(fpu, c0), n + 1)
                && Visited(old(cache.Entries()), cache.Entries(), cache.twice, cpu.pc)
      ensures ready.Ready? ==> Keeps(old(natives), natives)
      ensures ready.Ready? ==>
                Covered(natives, cpu.pc) || Heat(old(cache.Entries()), cpu.pc) < Heat(cache.Entries(), cpu.pc)
    {
      hide Run, HotIsCompiled, CompiledOnce, BytesIntact, TableOk, RegionsOk, HasBlock, NoAbort, CodeHolds, Stable,
        HeatBound, Grown, Visited, MayCompile, EntriesOf, Excused, Compile.WellFormed, Extends, Ripe, Within,
        CountsCold, Covered, Keeps;
      ghost var t, twice := PlainRun(fpu, c0), cache.twice;
      ghost var mid, n1, s1 := cache.Entries(), natives, sources;
      ready := Prepare();
      AfterPrepare(e0, mid, twice, t, n, cpu);
      if !(ready.Fails? && ready.cause.LinkFailed?) {
        HeatBoundVisit(e0, mid, cache.Entries(), twice, t, n, cpu.pc);
      }
      if ready.Ready? {
        NowGrown(n0, s0, n1, s1, e0, mid, twice, t, n, ready.code);
        NowKeeps(n1, s1, natives, sources, mid, ready.code);
        RestOfRun(fpu, natives, sources, c0, n, cpu, budget, left);
        GrownHolds(n0, s0, natives, sources, e0, twice, PlainRun(fpu, cpu), t, n, left, budget);
      }
    }

    /** `machine_step`, watched for at most `budget` instructions. Whatever mix
        of interpreted, compiled, chained and interp-fallback blocks it used, the
        guest state is that of the plain loop after n steps; a suspended call
        has made at least about half of the budget as reference steps. At pc 0
        it returns `halt` if the guest started or fell through there, and dies
        if the guest branched there. */
    method Step(budget: nat) returns (r: Returned, ghost n: nat)
      requires Valid() && Safe(budget)
      modifies this`cpu, this`natives, this`sources, this`compiled, cache, cache.table, cache.jitcode
      ensures !r.Died? ==> Valid()
      ensures n <= budget
      ensures Run(fpu, old(cpu), n) == if r == ReturnEcall then Syscall(cpu) else Running(cpu)
      ensures r == ReturnEcall ==> LastLeft(fpu, old(cpu), n)
      ensures r == ReturnHalt ==> cpu.pc == 0 && (n == 0 || LastFell(fpu, old(cpu), n))
      ensures r == Died(NullBranch) ==> cpu.pc == 0 && LastLeft(fpu, old(cpu), n)
      ensures r == Suspended ==> budget <= 2 * n + 1
      ensures r.Died? ==> Excused(r.cause)
      ensures r.Died? && InCompiler(r.cause) ==>
                MayCompile(old(cache.Entries()), cache.twice, PlainRun(fpu, old(cpu)), n)
      ensures cache.Valid()
      ensures !(r.Died? && r.cause.LinkFailed?) ==>
                HeatBound(old(cache.Entries()), cache.Entries(), cache.twice, PlainRun(fpu, old(cpu)), n + 1)
      ensures !r.Died? ==>
                Grown(old(natives), old(sources), natives, sources, old(cache.Entries()), cache.twice,
                      PlainRun(fpu, old(cpu)), n)
      ensures !r.Died? ==>
                Keeps(old(natives), natives)
                && Counted(old(cache.Entries()), cache.Entries(), natives, fpu, PlainRun(fpu, old(cpu)), n)
    {
      hide Run, HotIsCompiled, CompiledOnce, BytesIntact, TableOk, RegionsOk, HasBlock, NoAbort, CodeHolds, Stable,
        HeatBound, Grown, Visited, MayCompile, Guest.Step, LastLeft, LastFell, EntriesOf,
        Excused, Compile.WellFormed, Counted, Inner, Covered, Keeps;
      ghost var c0, t, e0, twice := cpu, PlainRun(fpu, cpu), cache.Entries(), cache.twice;
      ghost var n0, s0 := natives, sources;
      var left := budget;
      n := 0;
      RunNone(fpu, cpu);
      HeatBoundStart(e0, twice, t);
      GrownStart(n0, s0, e0, twice, t);
      CountedStart(e0, n0, fpu, t);
      KeepsAll(n0);
      while left > 0
        invariant Valid() && 0 <= left <= budget && n <= budget - left <= 2 * n
        invariant Run(fpu, c0, n) == Running(cpu) && (n == 0 || cpu.pc != 0)
        invariant HeatBound(e0, cache.Entries(), twice, t, n)
        invariant Grown(n0, s0, natives, sources, e0, twice, t, n)
        invariant Keeps(n0, natives) && Counted(e0, cache.Entries(), natives, fpu, t, n)
      {
        if cpu.pc == 0 {
          HeatBoundMore(e0, cache.Entries(), twice, t, n, n + 1);
          return ReturnHalt, n;
        }
        var end, used, k := Lap(c0, e0, n0, s0, n, left, budget);
        left := left - used;
        n := n + k;
        match end
        case Returns(reason) => return if reason == EcallExit then ReturnEcall else ReturnHalt, n;
        case Tired => return Suspended, n;
        case Out(cause) => return Died(cause), n;
        case Again =>
      }
      HeatBoundMore(e0, cache.Entries(), twice, t, n, n + 1);
      r := Suspended;
    }

    /** One round of the outer loop after n steps of the run from c0: the head,
        then the inner loop. */
    method Lap(
      ghost c0: Cpu, ghost e0: map<u64, Entry>, ghost n0: map<nat, Placed>, ghost s0: map<nat, Mem>,
      ghost n: nat, left: nat, ghost budget: nat)
      returns (end: ChainEnd, used: nat, ghost k: nat)
      requires Valid() && cpu.pc != 0 && Run(fpu, c0, n) == Running(cpu) && left >= 1 && n + left <= budget
      requires NoAbort(PlainRun(fpu, c0), budget) && CodeHolds(n0, s0, PlainRun(fpu, c0), budget)
      requires Stable(e0, cache.twice, PlainRun(fpu, c0), budget)
      requires HeatBound(e0, cache.Entries(), cache.twice, PlainRun(fpu, c0), n)
      requires Grown(n0, s0, natives, sources, e0, cache.twice, PlainRun(fpu, c0), n)
      requires Keeps(n0, natives) && Counted(e0, cache.Entries(), natives, fpu, PlainRun(fpu, c0), n)
      modifies this`cpu, this`natives, this`sources, this`compiled, cache, cache.table, cache.jitcode
      ensures !end.Out? ==> Valid()
      ensures used <= left && k <= used <= 2 * k + 1
      ensures end.Again? ==> used >= 1 && used <= 2 * k && cpu.pc != 0
      ensures end.Tired? ==> used == left
      ensures Run(fpu, c0, n + k) == if end == Returns(EcallExit) then Syscall(cpu) else Running(cpu)
      ensures end == Returns(EcallExit) ==> LastLeft(fpu, c0, n + k)
      ensures end.Returns? && end != Returns(EcallExit) ==>
                end == Returns(HaltExit) && cpu.pc == 0 && LastFell(fpu, c0, n + k)
      ensures end.Out? ==> Excused(end.cause)
      ensures end == Out(NullBranch) ==> cpu.pc == 0 && LastLeft(fpu, c0, n + k)
      ensures end.Out? && InCompiler(end.cause) ==> MayCompile(e0, cache.twice, PlainRun(fpu, c0), n + k)
      ensures cache.Valid()
      ensures !(end.Out? && end.cause.LinkFailed?) ==>
                HeatBound(e0, cache.Entries(), cache.twice, PlainRun(fpu, c0), n + k + 1)
      ensures end.Again? ==> HeatBound(e0, cache.Entries(), cache.twice, PlainRun(fpu, c0), n + k)
      ensures !end.Out? ==> Grown(n0, s0, natives, sources, e0, cache.twice, PlainRun(fpu, c0), n + k)
      ensures !end.Out? ==> Keeps(n0, natives)
      ensures !end.Out? ==> Counted(e0, cache.Entries(), natives, fpu, PlainRun(fpu, c0), n + k)
    {
      hide Run, HotIsCompiled, CompiledOnce, BytesIntact, TableOk, RegionsOk, HasBlock, NoAbort, CodeHolds, Stable,
        HeatBound, Grown, Visited, MayCompile, LastLeft, LastFell, EntriesOf, Excused, Compile.WellFormed,
        Counted, Inner, Covered, Keeps;
      ghost var t, twice := PlainRun(fpu, c0), cache.twice;
      ghost var mid, n1, c := cache.Entries(), natives, cpu;
      var ready := Head(c0, e0, n0, s0, n, left, budget);
      if ready.Fails? {
        return Out(ready.cause), 0, 0;
      }
      ghost var after := cache.Entries();
      end, used, k := Chain(ready.code, left);
      RunJoin(fpu, c0, n, c, k);
      LastJoin(fpu, c0, n, c, k);
      KeepsBoth(n0, n1, natives);
      InnerLater(fpu, natives, c0, n, c, k);
      CountedHead(e0, mid, after, twice, n1, natives, fpu, t, n, n + k, c.pc);
      HeatBoundMore(e0, after, twice, t, n + 1, n + k + 1);
      GrownMore(n0, s0, natives, sources, e0, twice, t, n, n + k);
      if end.Again? {
        HeatBoundMore(e0, after, twice, t, n + 1, n + k);
      }
    }

    lemma {:induction false} NowKeeps(
      n1: map<nat, Placed>, s1: map<nat, Mem>, n2: map<nat, Placed>, s2: map<nat, Mem>,
      mid: map<u64, Entry>, code: Code)
      requires Extends(n1, s1, n2, s2, mid, code)
      ensures Keeps(n1, n2)
    {
      hide GenBlock.IsBlockFor;
    }

    /** The code after `Prepare` is old, or was generated on the way. */
    lemma {:induction false} NowGrown(
      n0: map<nat, Placed>, s0: map<nat, Mem>, n1: map<nat, Placed>, s1: map<nat, Mem>,
      e0: map<u64, Entry>, mid: map<u64, Entry>, twice: bool, t: Trace, n: nat, code: Code)
      requires Grown(n0, s0, n1, s1, e0, twice, t, n) && HeatBound(e0, mid, twice, t, n) && twice == cache.twice
      requires t(n) == Running(cpu) && Extends(n1, s1, natives, sources, mid, code)
      ensures Grown(n0, s0, natives, sources, e0, twice, t, n)
    {
      hide Grown, HeatBound, MayCompile, GenBlock.IsBlockFor;
      if !(natives == n1 && sources == s1) {
        RipeMayCompile(e0, mid, twice, t, n, cpu.pc);
        GrownAdd(n0, s0, n1, s1, e0, twice, t, n, code.offset, natives[code.offset], cpu);
      }
    }
  }

  /** Failures of the hot branch: generating, compiling or linking. */
  predicate InCompiler(cause: Cause) {
    cause.BadCode? || cause.RegionTooBig? || cause.LinkFailed?
  }

  lemma {:induction false} AfterPrepare(
    e0: map<u64, Entry>, mid: map<u64, Entry>, twice: bool, t: Trace, n: nat, c: Cpu)
    requires HeatBound(e0, mid, twice, t, n) && t(n) == Running(c)
    ensures Ripe(mid, twice, c.pc) ==> MayCompile(e0, twice, t, n)
  {
    hide HeatBound, MayCompile;
    if Ripe(mid, twice, c.pc) {
      RipeMayCompile(e0, mid, twice, t, n, c.pc);
    }
  }

  /** A visit below the threshold: the entry of pc is one warmer, or new. */
  predicate CountsCold(before: map<u64, Entry>, after: map<u64, Entry>, twice: bool, pc: u64) {
    && pc in after && after[pc].hot < HOT_COUNT
    && after == before[pc := after[pc]]
    && after[pc] == if pc in before then before[pc].(hot := Warmer(before[pc].hot, twice)) else Entry(1, 0)
  }

  /** The run is at a label of p. */
  predicate AtLabel(p: Program, o: Outcome) {
    o.Running? && o.cpu.pc in p.code
  }

  /** d is what the block p, called at c, leaves after this many labels. */
  predicate Ran(fpu: Fpu, p: Program, c: Cpu, d: Cpu, end: End, labels: nat) {
    match RunBlock(fpu, p, c, labels)
    case Inside(l, h) => end.Paused? && d == Epilogue(p, c, h).(pc := l)
    case Done(_, x, h) => end == Ended(x) && d == Epilogue(p, c, h)
    case Bad => false
  }

  /** The exit x of a compiled block called at c, which left the state d. */
  ghost predicate BlockExplains(fpu: Fpu, c: Cpu, d: Cpu, x: Exit, used: nat) {
    match x.reason
    case Interp => used >= 1 && x.reenter != 0 && Run(fpu, c, used - 1) == Running(d.(pc := x.reenter))
    case IndirectBranch => LastLeft(fpu, c, used) && Run(fpu, c, used) == Running(d.(pc := x.reenter))
    case EcallExit => LastLeft(fpu, c, used) && Run(fpu, c, used) == Syscall(d.(pc := x.reenter))
    case _ => false
  }

  lemma {:induction false} BlockExit(
    fpu: Fpu, p: Program, c: Cpu, n: nat, l: u64, h: Ir.Host, x: Exit, g: Ir.Host)
    requires n >= 1 && Run(fpu, c, n - 1) == Running(Epilogue(p, c, h).(pc := l)) && l != 0
    requires Agrees(fpu, p, c, Done(n, x, g), n) && c.gp[0] == 0
    ensures BlockExplains(fpu, c, Epilogue(p, c, g), x, n) && Epilogue(p, c, g).gp[0] == 0
  {
    hide Epilogue, Run, NextExit;
    ZeroAt(fpu, c, if x.reason == Interp then n - 1 else n);
  }

  ghost predicate AtLabels(fpu: Fpu, p: Program, c: Cpu, b: nat) {
    forall j: nat | j < b :: AtLabel(p, Run(fpu, c, j))
  }

  lemma {:induction false} AtLabelsMore(fpu: Fpu, p: Program, c: Cpu, b: nat)
    requires (b == 0 || AtLabels(fpu, p, c, b)) && AtLabel(p, Run(fpu, c, b))
    ensures AtLabels(fpu, p, c, b + 1)
  {
    hide Run, AtLabel;
  }

  lemma {:induction false} RanIs(fpu: Fpu, p: Program, c: Cpu, n: nat)
    ensures match RunBlock(fpu, p, c, n)
            case Inside(l, h) => Ran(fpu, p, c, Epilogue(p, c, h).(pc := l), Paused, n)
            case Done(_, x, h) => Ran(fpu, p, c, Epilogue(p, c, h), Ended(x), n)
            case Bad => true
  {
    hide RunBlock, Epilogue;
  }

  lemma {:induction false} BlockStart(fpu: Fpu, p: Program, c: Cpu)
    requires p.order != []
    ensures RunBlock(fpu, p, c, 0) == Inside(p.order[0], Prologue(p, c))
  {
  }

  lemma {:induction false} BlockNext(fpu: Fpu, p: Program, c: Cpu, n: nat)
    ensures RunBlock(fpu, p, c, n).Inside? ==>
              var s := RunBlock(fpu, p, c, n);
              RunBlock(fpu, p, c, n + 1) == StepBlock(fpu, p, s.at, s.host, n + 1)
  {
    hide StepBlock;
  }

  // ----- arrivals, leg by leg -----

  lemma {:induction false} LabelsCover(fpu: Fpu, natives: map<nat, Placed>, c: Cpu, o: nat, b: nat)
    requires o in natives && AtLabels(fpu, natives[o].program, c, b)
    ensures Inner(fpu, natives, PlainRun(fpu, c), 0, b)
  {
    hide Run, ArrivesAt;
    var t := PlainRun(fpu, c);
    forall j: nat | 0 < j < b && ArrivesAt(fpu, t, j)
      ensures Covered(natives, t(j).cpu.pc)
    {
      assert AtLabel(natives[o].program, Run(fpu, c, j));
    }
  }

  lemma {:induction false} InnerLater(fpu: Fpu, natives: map<nat, Placed>, c0: Cpu, n: nat, c: Cpu, b: nat)
    requires Run(fpu, c0, n) == Running(c) && Inner(fpu, natives, PlainRun(fpu, c), 0, b)
    ensures Inner(fpu, natives, PlainRun(fpu, c0), n, n + b)
  {
    hide Run, Inner;
    var u, t := PlainRun(fpu, c), PlainRun(fpu, c0);
    forall k: nat | k <= b
      ensures Follows(u, t, n, k)
    {
      RunSplit(fpu, c0, n, k);
    }
    InnerWithin(fpu, natives, u, t, n, b);
  }

  lemma {:induction false} InnerStart(fpu: Fpu, natives: map<nat, Placed>, t: Trace)
    ensures Inner(fpu, natives, t, 0, 1) && Inner(fpu, natives, t, 0, 0)
  {
  }

  lemma {:induction false} InnerLess(fpu: Fpu, natives: map<nat, Placed>, t: Trace, b: nat, b': nat)
    requires Inner(fpu, natives, t, 0, b) && b' <= b
    ensures Inner(fpu, natives, t, 0, b')
  {
    hide ArrivesAt, Covered;
  }

  lemma {:induction false} KeepsAll(natives: map<nat, Placed>)
    ensures Keeps(natives, natives)
  {
  }

  lemma {:induction false} KeepsBoth(n0: map<nat, Placed>, n1: map<nat, Placed>, n2: map<nat, Placed>)
    requires Keeps(n0, n1) && Keeps(n1, n2)
    ensures Keeps(n0, n2)
  {
  }

  /** Hot code gets compiled: a pc the run arrived at 100000 times has a label in
      a compiled block. */
  lemma {:induction false} HotIsCovered(
    before: map<u64, Entry>, after: map<u64, Entry>, natives: map<nat, Placed>, sources: map<nat, Mem>,
    fpu: Fpu, t: Trace, n: nat, pc: u64)
    requires HotIsCompiled(after, natives, sources) && Counted(before, after, natives, fpu, t, n)
    requires Arrivals(fpu, t, pc, n) >= 100000
    ensures Covered(natives, pc)
  {
    hide Covered, HasBlock, Arrivals;
    if !Covered(natives, pc) {
      assert Heat(before, pc) + Arrivals(fpu, t, pc, n) <= Heat(after, pc);
      HitHasBlock(after, natives, sources, pc);
      BlockCovers(natives, sources, pc, after[pc].offset);
    }
  }

  // ----- what a visit does to the heat -----

  lemma {:induction false} NotVisited(entries: map<u64, Entry>, twice: bool, pc: u64)
    ensures Visited(entries, entries, twice, pc)
  {
  }

  lemma {:induction false} VisitedNow(before: map<u64, Entry>, after: map<u64, Entry>, twice: bool, pc: u64)
    requires pc in before ==>
               after == before[pc := before[pc].(hot := Warmer(before[pc].hot, twice))] && before[pc].hot <= HOT_COUNT
    requires pc !in before ==> after == before[pc := Entry(1, 0)]
    ensures Visited(before, after, twice, pc)
    ensures Heat(before, pc) < HOT_COUNT <= Heat(after, pc) ==> Ripe(before, twice, pc)
  {
  }

  lemma {:induction false} VisitedHot(before: map<u64, Entry>, after: map<u64, Entry>, twice: bool, pc: u64)
    requires pc in before && Ripe(before, twice, pc) && pc in after
    requires after == before[pc := after[pc]] && after[pc].hot == HOT_COUNT
    ensures Visited(before, after, twice, pc)
  {
  }

  /** How the inner loop ends: back to the outer loop, out of `machine_step`,
      out of budget, or out of the process. */
  datatype ChainEnd = Again | Returns(reason: Reason) | Tired | Out(cause: Cause)

  /** The exit x of a block called at c, which left the state d, matches the
      plain loop; `used` counts instructions or labels. */
  ghost predicate Explains(fpu: Fpu, c: Cpu, d: Cpu, code: Code, x: Exit, used: nat) {
    match x.reason
    case Interp =>
      code.Native? && used >= 1 && x.reenter != 0 && Run(fpu, c, used - 1) == Running(d.(pc := x.reenter))
    case HaltExit => x.reenter == 0 == d.pc && Run(fpu, c, used) == Running(d) && LastFell(fpu, c, used)
    case EcallExit => Run(fpu, c, used) == Syscall(d.(pc := x.reenter)) && LastLeft(fpu, c, used)
    case _ => used >= 1 && Run(fpu, c, used) == Running(d.(pc := x.reenter)) && LastLeft(fpu, c, used)
  }

  lemma {:induction false} ExplainsJoin(
    fpu: Fpu, c0: Cpu, n: nat, c: Cpu, d: Cpu, code: Code, x: Exit, used: nat)
    requires Run(fpu, c0, n) == Running(c) && Explains(fpu, c, d, code, x, used)
    ensures used >= 1 && Explains(fpu, c0, d, code, x, n + used)
  {
    hide Run, NextExit;
    RunJoin(fpu, c0, n, c, used);
    LastJoin(fpu, c0, n, c, used);
    if x.reason == Interp {
      RunJoin(fpu, c0, n, c, used - 1);
    }
  }

  lemma {:induction false} RunNone(fpu: Fpu, c: Cpu)
    ensures Run(fpu, c, 0) == Running(c)
  {
  }

  lemma {:induction false} RunJoin(fpu: Fpu, c: Cpu, a: nat, d: Cpu, b: nat)
    requires Run(fpu, c, a) == Running(d)
    ensures Run(fpu, c, a + b) == Run(fpu, d, b)
  {
    hide Run;
    RunSplit(fpu, c, a, b);
  }

  lemma {:induction false} BlockHolds(
    fpu: Fpu, natives: map<nat, Placed>, sources: map<nat, Mem>, c: Cpu, n: nat, o: nat)
    requires CodeHolds(natives, sources, PlainRun(fpu, c), n) && o in natives && o in sources
    ensures forall k: nat | k <= n :: KeepsWord(natives[o].program, sources[o], Run(fpu, c, k))
  {
    hide Run, KeepsWord;
    forall k: nat | k <= n
      ensures KeepsWord(natives[o].program, sources[o], Run(fpu, c, k))
    {
      assert KeepsWord(natives[o].program, sources[o], PlainRun(fpu, c)(k));
    }
  }

  lemma {:induction false} NotAborted(fpu: Fpu, c: Cpu, n: nat, k: nat)
    requires NoAbort(PlainRun(fpu, c), n) && k <= n
    ensures !Run(fpu, c, k).Aborted?
  {
    hide Run;
    assert !PlainRun(fpu, c)(k).Aborted?;
  }

  lemma {:induction false} ZeroAt(fpu: Fpu, c: Cpu, n: nat)
    requires c.gp[0] == 0
    ensures var o := Run(fpu, c, n); o.Running? || o.Syscall? ==> o.cpu.gp[0] == 0
  {
    hide Run;
    ZeroStaysZero(fpu, c, n);
  }

  // ----- what the cache invariants say -----

  /** Linked bytes are still in the arena, below the next free offset. */
  ghost predicate BytesIntact(natives: map<nat, Placed>, arena: seq<u8>, offset: nat) {
    forall o <- natives ::
      natives[o].bytes != [] && o + |natives[o].bytes| <= offset <= |arena|
      && arena[o..o + |natives[o].bytes|] == natives[o].bytes
  }

  /** The code at offset o is the block of pc. */
  ghost predicate HasBlock(natives: map<nat, Placed>, sources: map<nat, Mem>, pc: u64, o: nat) {
    && o in natives && o in sources
    && GenBlock.IsBlockFor(natives[o].program, sources[o], pc)
  }

  /** An entry at the threshold names the start of its own pc's code. */
  ghost predicate HotIsCompiled(
    entries: map<u64, Entry>, natives: map<nat, Placed>, sources: map<nat, Mem>)
  {
    forall pc <- entries :: entries[pc].hot >= HOT_COUNT ==> HasBlock(natives, sources, pc, entries[pc].offset)
  }

  /** Each pc at the threshold was compiled exactly once, and no other was. */
  ghost predicate CompiledOnce(entries: map<u64, Entry>, compiled: seq<u64>) {
    && Worklist.NoDuplicates(compiled)
    && forall pc: u64 :: pc in compiled <==> pc in entries && entries[pc].hot >= HOT_COUNT
  }

  lemma {:induction false} HitHasBlock(
    entries: map<u64, Entry>, natives: map<nat, Placed>, sources: map<nat, Mem>, pc: u64)
    requires HotIsCompiled(entries, natives, sources) && pc in entries && entries[pc].hot >= HOT_COUNT
    ensures HasBlock(natives, sources, pc, entries[pc].offset)
  {
    hide HasBlock;
  }

  /** A visit that stays below the threshold. */
  lemma {:induction false} StillCold(
    before: map<u64, Entry>, after: map<u64, Entry>, pc: u64,
    natives: map<nat, Placed>, sources: map<nat, Mem>, compiled: seq<u64>)
    requires HotIsCompiled(before, natives, sources) && CompiledOnce(before, compiled)
    requires pc in after && after[pc].hot < HOT_COUNT && (pc in before ==> before[pc].hot < HOT_COUNT)
    requires after == before[pc := after[pc]]
    ensures HotIsCompiled(after, natives, sources) && CompiledOnce(after, compiled)
  {
    hide HasBlock;
  }

  lemma {:induction false} FreshOffset(natives: map<nat, Placed>, arena: seq<u8>, free: nat, o: nat)
    requires BytesIntact(natives, arena, free) && free <= o
    ensures o !in natives
  {
  }

  lemma {:induction false} BlockCovers(natives: map<nat, Placed>, sources: map<nat, Mem>, pc: u64, o: nat)
    requires HasBlock(natives, sources, pc, o)
    ensures Covered(natives, pc)
  {
    hide Region.Reachable, Region.SuccessorsAt, GenBlock.TracedOnly, LabelFrom;
    assert pc in natives[o].program.code;
  }

  /** Linking appends: the bytes of earlier code stay where they are. */
  lemma {:induction false} BytesKept(
    natives: map<nat, Placed>, arena: seq<u8>, free: nat, arena': seq<u8>, free': nat, o: nat, code: Placed)
    requires BytesIntact(natives, arena, free) && free <= |arena| == |arena'|
    requires forall a | 0 <= a < free :: arena'[a] == arena[a]
    requires free <= o && code.bytes != [] && o + |code.bytes| == free' <= |arena'|
    requires code.bytes == arena'[o..o + |code.bytes|]
    ensures BytesIntact(natives[o := code], arena', free')
  {
    var natives' := natives[o := code];
    forall q <- natives'
      ensures natives'[q].bytes != [] && q + |natives'[q].bytes| <= free' <= |arena'|
      ensures arena'[q..q + |natives'[q].bytes|] == natives'[q].bytes
    {
      if q != o {
        var n := |natives[q].bytes|;
        assert arena'[q..q + n] == arena[q..q + n];
      }
    }
  }

  /** The pc whose visit reached the threshold is compiled now, for the first
      time; every other hot pc keeps its own code. */
  lemma {:induction false} NowCompiled(
    before: map<u64, Entry>, after: map<u64, Entry>, pc: u64, o: nat,
    natives: map<nat, Placed>, sources: map<nat, Mem>, compiled: seq<u64>,
    free: nat, arena: seq<u8>, code: Placed, m: Mem)
    requires HotIsCompiled(before, natives, sources) && CompiledOnce(before, compiled)
    requires BytesIntact(natives, arena, free) && free <= o
    requires pc in before && before[pc].hot < HOT_COUNT
    requires after == before[pc := Entry(HOT_COUNT, o)]
    requires GenBlock.IsBlockFor(code.program, m, pc)
    ensures HotIsCompiled(after, natives[o := code], sources[o := m])
    ensures CompiledOnce(after, compiled + [pc])
    ensures HasBlock(natives[o := code], sources[o := m], pc, o)
  {
    hide GenBlock.IsBlockFor;
    var natives', sources' := natives[o := code], sources[o := m];
    forall q <- after | after[q].hot >= HOT_COUNT
      ensures HasBlock(natives', sources', q, after[q].offset)
    {
      if q != pc {
        assert HasBlock(natives, sources, q, before[q].offset);
      }
    }
    assert pc !in compiled;
  }
}
