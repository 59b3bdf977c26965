/** A generated block as a whole: labels, prologue and epilogue, and the proof
    that running its labels is running the interpreter. */
module Block {
  import opened Words
  import opened Insn
  import opened Guest
  import Ir
  import Codegen
  import Decode
  import Translate
  import Shape
  import Emit
  import Alu

  /** The C function `machine_genblock` prints: labels in printing order, the
      statements under each, and the register variables it declares. */
  datatype Program = Program(order: seq<u64>, code: map<u64, seq<Ir.Stmt>>, gp: set<Reg>, fp: set<Reg>)

  /** What the worklist loop emits for the instruction at pc. */
  function LabelAt(m: Mem, pc: u64): Option<Codegen.Emission> {
    Codegen.Label(ZERO_INSN, Fetch(m, pc), pc)
  }

  // ----- shape of a label -----

  /** Targets of the gotos of a statement. */
  function Targets(s: Ir.Stmt): set<u64> {
    match s
    case IfGoto(_, t) => {t}
    case Goto(t) => {t}
    case _ => {}
  }

  predicate IsTransfer(s: Ir.Stmt) {
    s.Goto? || s.Leave?
  }

  /** Every goto goes to a pushed pc, every pushed pc is the target of a goto,
      the label ends in an unconditional transfer, and every register variable
      it names was reported to the tracer. */
  predicate GoodLabel(e: Codegen.Emission) {
    && (forall s <- e.stmts :: Targets(s) <= set t <- e.pushes)
    && (forall t <- e.pushes :: exists s <- e.stmts :: t in Targets(s))
    && e.stmts != [] && IsTransfer(e.stmts[|e.stmts| - 1])
    && Ir.Names(e.stmts, e.gp, e.fp)
  }

  /** The part of `GoodLabel` an emitter is responsible for. */
  predicate GoodEmission(e: Codegen.Emission) {
    && (forall s <- e.stmts :: Targets(s) <= set t <- e.pushes)
    && (forall t <- e.pushes :: exists s <- e.stmts :: t in Targets(s))
    && (e.cont ==> e.stmts != [] && IsTransfer(e.stmts[|e.stmts| - 1]))
    && Ir.Names(e.stmts, e.gp, e.fp)
  }

  /** An emission without gotos. */
  lemma {:induction false} StraightLine(e: Codegen.Emission)
    requires e.pushes == [] && Ir.Names(e.stmts, e.gp, e.fp)
    requires forall s <- e.stmts :: Targets(s) == {}
    requires e.cont ==> e.stmts != [] && IsTransfer(e.stmts[|e.stmts| - 1])
    ensures GoodEmission(e)
  {
  }

  lemma {:induction false} GoodFpSources(i: Insn, pc: u64)
    requires Shape.Decoded(i) && (i.ty.FpOp? || i.ty.FpCmp?)
    ensures GoodEmission(Codegen.EmitFp(i, pc))
  {
    hide Fused;
    StraightLine(Codegen.EmitFp(i, pc));
  }

  lemma {:induction false} GoodFpMemory(i: Insn, pc: u64)
    requires Shape.Decoded(i) && !i.cont && (i.ty.FpLoad? || i.ty.FpStore?)
    ensures GoodEmission(Codegen.EmitFp(i, pc))
  {
    hide Emit.PlusImm, Codegen.BOX_TEXT;
    StraightLine(Codegen.EmitFp(i, pc));
  }

  lemma {:induction false} GoodFp(i: Insn, pc: u64)
    requires Shape.Decoded(i) && !i.cont
    ensures GoodEmission(Codegen.EmitFp(i, pc))
  {
    hide Emit.PlusImm, Codegen.BOX_TEXT, Emit.Sext, Fused, GoodEmission;
    if i.ty.FpOp? || i.ty.FpCmp? {
      GoodFpSources(i, pc);
    } else if i.ty.FpLoad? || i.ty.FpStore? {
      GoodFpMemory(i, pc);
    } else {
      StraightLine(Codegen.EmitFp(i, pc));
    }
  }

  lemma {:induction false} GoodOp(op: RegOp, i: Insn, pc: u64)
    requires Shape.Decoded(i) && !i.cont
    ensures GoodEmission(Codegen.EmitOp(op, i, pc))
  {
    hide Emit.RegText, Emit.ChainText;
    StraightLine(Codegen.EmitOp(op, i, pc));
  }

  lemma {:induction false} GoodBranch(i: Insn, pc: u64)
    requires Shape.Decoded(i) && i.ty.Branch?
    ensures Codegen.EmitInsn(i, pc).Some? && GoodEmission(Codegen.EmitInsn(i, pc).value)
  {
    hide Emit.BranchText, Wrap;
    var e := Codegen.EmitInsn(i, pc).value;
    assert Targets(e.stmts[2]) == {e.pushes[0]};
  }

  lemma {:induction false} GoodJal(i: Insn, pc: u64)
    requires Shape.Decoded(i) && i.ty.Jal?
    ensures Codegen.EmitInsn(i, pc).Some? && GoodEmission(Codegen.EmitInsn(i, pc).value)
  {
    hide Wrap, S64;
    var e := Codegen.EmitInsn(i, pc).value;
    var last := e.stmts[|e.stmts| - 1];
    assert last == Ir.Goto(e.pushes[0]);
    assert last in e.stmts && e.pushes[0] in Targets(last);
  }

  lemma {:induction false} GoodExit(i: Insn, pc: u64)
    requires Shape.Decoded(i) && (i.ty.Jalr? || i.ty.Ecall?)
    ensures Codegen.EmitInsn(i, pc).Some? && GoodEmission(Codegen.EmitInsn(i, pc).value)
  {
    hide Emit.JalrText, Wrap, S64;
    StraightLine(Codegen.EmitInsn(i, pc).value);
  }

  lemma {:induction false} GoodPlain(i: Insn, pc: u64)
    requires Shape.Decoded(i) && !i.cont && Codegen.EmitInsn(i, pc).Some?
    requires i.ty.Load? || i.ty.Store? || i.ty.Fence? || i.ty.FenceI?
          || i.ty.OpImm? || i.ty.Auipc? || i.ty.Lui? || i.ty.Csr?
    ensures GoodEmission(Codegen.EmitInsn(i, pc).value)
  {
    hide Emit.PlusImm, Emit.ImmText, Wrap, S64, KnownCsr;
    StraightLine(Codegen.EmitInsn(i, pc).value);
  }

  lemma {:induction false} EmitterIsGood(i: Insn, pc: u64)
    requires Shape.Decoded(i) && Codegen.EmitInsn(i, pc).Some?
    ensures GoodEmission(Codegen.EmitInsn(i, pc).value)
  {
    hide GoodEmission, Codegen.EmitFp, Codegen.EmitOp;
    match i.ty
    case Branch(_) => GoodBranch(i, pc);
    case Jal => GoodJal(i, pc);
    case Jalr => GoodExit(i, pc);
    case Ecall => GoodExit(i, pc);
    case Op(op) => GoodOp(op, i, pc);
    case Load(_) => GoodPlain(i, pc);
    case Store(_) => GoodPlain(i, pc);
    case Fence => GoodPlain(i, pc);
    case FenceI => GoodPlain(i, pc);
    case OpImm(_) => GoodPlain(i, pc);
    case Auipc => GoodPlain(i, pc);
    case Lui => GoodPlain(i, pc);
    case Csr(_) => GoodPlain(i, pc);
    case _ => GoodFp(i, pc);
  }

  lemma {:induction false} FinishIsGood(i: Insn, pc: u64, e: Codegen.Emission)
    requires GoodEmission(e)
    ensures GoodLabel(Codegen.Finish(i, pc, e))
  {
    hide Wrap;
    var f := Codegen.Finish(i, pc, e);
    if !e.cont {
      var next := Wrap(pc + InsnLength(i));
      assert f.stmts[|f.stmts| - 1] == Ir.Goto(next);
      forall s <- f.stmts
        ensures Targets(s) <= set t <- f.pushes
        ensures Ir.GpOf(s) <= f.gp && Ir.FpOf(s) <= f.fp
      {
        assert s in e.stmts || s == Ir.Goto(next);
        assert next in f.pushes;
      }
      forall t <- f.pushes
        ensures exists s <- f.stmts :: t in Targets(s)
      {
        if t == next {
          assert t in Targets(f.stmts[|f.stmts| - 1]);
        } else {
          var s :| s in e.stmts && t in Targets(s);
          assert s in f.stmts;
        }
      }
    }
  }

  /** Every label the loop prints is closed and traced. */
  lemma {:induction false} LabelIsGood(w: bv32, pc: u64)
    requires Codegen.Label(ZERO_INSN, w, pc).Some?
    ensures GoodLabel(Codegen.Label(ZERO_INSN, w, pc).value)
  {
    hide Decode.InsnDecode, GoodLabel, Codegen.EmitInsn, Codegen.Finish;
    Translate.DecodeGuarantees(ZERO_INSN, w);
    var i := Decode.InsnDecode(ZERO_INSN, w).value;
    EmitterIsGood(i, pc);
    FinishIsGood(i, pc, Codegen.EmitInsn(i, pc).value);
  }

  lemma {:induction false} JumpsToTarget(fpu: Fpu, ss: seq<Ir.Stmt>, h: Ir.Host)
    requires Ir.Run(fpu, ss, h).Jumped?
    ensures exists s <- ss :: Ir.Run(fpu, ss, h).target in Targets(s)
    decreases ss
  {
    hide Ir.Exec;
    if ss != [] {
      OneTarget(fpu, ss[0], h);
      var r := Ir.Exec(fpu, ss[0], h);
      if r.Fell? {
        JumpsToTarget(fpu, ss[1..], r.host);
        var s :| s in ss[1..] && Ir.Run(fpu, ss, h).target in Targets(s);
        assert s in ss;
      }
    }
  }

  lemma {:induction false} OneTarget(fpu: Fpu, s: Ir.Stmt, h: Ir.Host)
    ensures Ir.Exec(fpu, s, h).Jumped? ==> Ir.Exec(fpu, s, h).target in Targets(s)
  {
  }

  // ----- running a block -----

  /** Prologue: traced registers are read into variables; x0 has none. */
  function Prologue(p: Program, c: Cpu): Ir.Host {
    Ir.Host(map r: Reg | r in p.gp && r != 0 :: c.gp[r], map r: Reg | r in p.fp :: c.fp[r], c.mem, map[])
  }

  /** Epilogue: traced variables are written back over the entry state. */
  function Epilogue(p: Program, c: Cpu, h: Ir.Host): Cpu {
    c.(gp := seq(32, i requires 0 <= i < 32 => if i in p.gp && i in h.x then h.x[i] else c.gp[i]),
       fp := seq(32, i requires 0 <= i < 32 => if i in p.fp && i in h.f then h.f[i] else c.fp[i]),
       mem := h.mem)
  }

  datatype BlockState =
    | Inside(at: u64, host: Ir.Host)
    | Done(labels: nat, exit: Exit, host: Ir.Host)
    | Bad

  /** One label; a goto to a missing label does not compile. */
  function StepBlock(fpu: Fpu, p: Program, l: u64, h: Ir.Host, n: nat): BlockState {
    if l !in p.code then Bad
    else
      match Ir.RunLabel(fpu, p.code[l], h)
      case Jumped(t, g) => Inside(t, g)
      case Left(x, g) => Done(n, x, g)
      case _ => Bad
  }

  /** The block called with guest state c, after n labels. */
  function RunBlock(fpu: Fpu, p: Program, c: Cpu, n: nat): BlockState {
    if n == 0 then
      if p.order == [] then Bad else Inside(p.order[0], Prologue(p, c))
    else
      match RunBlock(fpu, p, c, n - 1)
      case Inside(l, h) => StepBlock(fpu, p, l, h, n)
      case s => s
  }

  /** p was generated from the code bytes of m. */
  predicate GeneratedFrom(p: Program, m: Mem) {
    && p.order != []
    && (forall i, j :: 0 <= i < j < |p.order| ==> p.order[i] != p.order[j])
    && p.code.Keys == (set pc <- p.order)
    && (forall pc <- p.code :: LabelFrom(p, m, pc))
  }

  predicate LabelFrom(p: Program, m: Mem, pc: u64)
    requires pc in p.code
  {
    && pc != 0
    && var e := LabelAt(m, pc);
       e.Some? && p.code[pc] == e.value.stmts && e.value.gp <= p.gp && e.value.fp <= p.fp
       && (forall t <- e.value.pushes :: t in p.code)
  }

  // ----- code that is still what it was -----

  /** If the run is about to execute a label of p, the word there is the one p
      was generated from. */
  predicate KeepsWord(p: Program, m: Mem, o: Outcome) {
    o.Running? && o.cpu.pc in p.code ==> Fetch(o.cpu.mem, o.cpu.pc) == Fetch(m, o.cpu.pc)
  }

  /** The word the run executes next is the one in m. */
  predicate NextWordIn(m: Mem, o: Outcome) {
    o.Running? && o.cpu.pc != 0 ==> Fetch(o.cpu.mem, o.cpu.pc) == Fetch(m, o.cpu.pc)
  }

  // ----- the simulation -----

  /** Block variables h, entered at c, stand for the guest state d. */
  predicate Tracks(p: Program, c: Cpu, h: Ir.Host, d: Cpu) {
    && c.gp[0] == 0 && d.gp[0] == 0
    && Ir.Restricts(h.(loc := map[]), Translate.At(d, map[]), p.gp, p.fp)
    && Ir.SameElsewhere(Translate.At(c, map[]), Translate.At(d, map[]), p.gp, p.fp)
  }

  lemma {:induction false} PrologueTracks(p: Program, c: Cpu)
    requires c.gp[0] == 0
    ensures Tracks(p, c, Prologue(p, c), c)
  {
  }

  /** The epilogue restores exactly the interpreter's registers. */
  lemma {:induction false} EpilogueRestores(p: Program, c: Cpu, h: Ir.Host, d: Cpu)
    requires Tracks(p, c, h, d)
    ensures Epilogue(p, c, h) == d.(pc := c.pc)
  {
    var e := Epilogue(p, c, h);
    var H := Translate.At(d, map[]);
    forall i: Reg
      ensures e.gp[i] == d.gp[i] && e.fp[i] == d.fp[i]
    {
      assert i in H.f;
      if i != 0 {
        assert i in H.x;
      }
    }
    assert e.gp == d.gp && e.fp == d.fp;
  }

  /** One label of the block is one step of the interpreter. */
  predicate OneStep(fpu: Fpu, p: Program, m: Mem, c: Cpu, r: Ir.Result, d: Cpu) {
    var o := StepFrom(fpu, m, d);
    match r
    case Jumped(t, g) => o.Running? && o.cpu.pc == t && Tracks(p, c, g, o.cpu)
    case Left(x, g) =>
      (x.reason == Interp && x.reenter == d.pc && Tracks(p, c, g, d))
      || (ExitAt(fpu, m, d) == Some(x)
          && ((x.reason == IndirectBranch && o.Running?) || (x.reason == EcallExit && o.Syscall?))
          && o.cpu.pc == x.reenter && Tracks(p, c, g, o.cpu))
    case _ => false
  }

  lemma {:induction false} TracksMoves(p: Program, c: Cpu, h: Ir.Host, d: Cpu, g: Ir.Host, G: Ir.Host, d': Cpu)
    requires Tracks(p, c, h, d)
    requires Ir.Restricts(g, G, p.gp, p.fp) && Ir.SameElsewhere(Translate.At(d, map[]), G, p.gp, p.fp)
    requires Translate.Shows(G, d') && d'.gp[0] == 0
    ensures Tracks(p, c, g, d') && forall pc :: Tracks(p, c, g, d'.(pc := pc))
  {
    hide Tracks;
    TracksNow(p, c, h, d, g, G, d');
    forall pc: u64
      ensures Tracks(p, c, g, d'.(pc := pc))
    {
      TracksAnyPc(p, c, g, d', pc);
    }
  }

  lemma {:induction false} TracksNow(p: Program, c: Cpu, h: Ir.Host, d: Cpu, g: Ir.Host, G: Ir.Host, d': Cpu)
    requires Tracks(p, c, h, d)
    requires Ir.Restricts(g, G, p.gp, p.fp) && Ir.SameElsewhere(Translate.At(d, map[]), G, p.gp, p.fp)
    requires Translate.Shows(G, d') && d'.gp[0] == 0
    ensures Tracks(p, c, g, d')
  {
  }

  /** The pc is not among the tracked variables. */
  lemma {:induction false} TracksAnyPc(p: Program, c: Cpu, h: Ir.Host, d: Cpu, pc: u64)
    requires Tracks(p, c, h, d)
    ensures Tracks(p, c, h, d.(pc := pc))
  {
    assert Translate.At(d.(pc := pc), map[]) == Translate.At(d, map[]);
  }

  lemma {:induction false} ExecFacts(fpu: Fpu, i: Insn, d: Cpu)
    requires Exec(fpu, i, d).Effect?
    ensures Exec(fpu, i, d).cpu.gp[0] == 0
    ensures var x := Exec(fpu, i, d).exit;
            (x.None? ==> Exec(fpu, i, d).cpu.pc == d.pc)
            && (x.Some? ==> x.value.reason.DirectBranch? || x.value.reason.IndirectBranch? || x.value.reason.EcallExit?)
  {
    hide Alu.ImmAlu, Alu.RegAlu, LoadLE, StoreLE, Wrap, LoadValue, WriteFp, ReadFp, SExt32, Boxed, Alu.Taken;
  }

  lemma {:induction false} LabelStep(fpu: Fpu, p: Program, m: Mem, c: Cpu, h: Ir.Host, d: Cpu)
    requires Tracks(p, c, h, d) && d.pc in p.code && LabelFrom(p, m, d.pc) && !StepFrom(fpu, m, d).Aborted?
    ensures OneStep(fpu, p, m, c, Ir.RunLabel(fpu, p.code[d.pc], h), d)
    ensures var r := Ir.RunLabel(fpu, p.code[d.pc], h); r.Jumped? ==> r.target in p.code
  {
    hide Ir.Run, Decode.InsnDecode, Exec, Codegen.EmitInsn, InterpOnly, Tracks;
    var w := Fetch(m, d.pc);
    var i := Decode.InsnDecode(ZERO_INSN, w).value;
    Translate.DecodeGuarantees(ZERO_INSN, w);
    LabelIsGood(w, d.pc);
    var ss := p.code[d.pc];
    var H := Translate.At(d, map[]);
    var h0 := h.(loc := map[]);
    TracksParts(p, c, h, d);
    Translate.LabelCorrect(fpu, i, d);
    Ir.TracedRun(fpu, ss, h0, H, p.gp, p.fp);
    var r, R := Ir.RunLabel(fpu, ss, h), Ir.RunLabel(fpu, ss, H);
    if InterpOnly(i.ty) {
      TracksMoves(p, c, h, d, r.host, R.host, d);
    } else {
      ExecFacts(fpu, i, d);
      TracksMoves(p, c, h, d, r.host, R.host, Exec(fpu, i, d).cpu);
    }
    if r.Jumped? {
      JumpsToTarget(fpu, ss, h0);
    }
  }

  lemma {:induction false} TracksParts(p: Program, c: Cpu, h: Ir.Host, d: Cpu)
    requires Tracks(p, c, h, d)
    ensures d.gp[0] == 0 && Ir.Restricts(h.(loc := map[]), Translate.At(d, map[]), p.gp, p.fp)
  {
  }

  /** The exit x of a block, which leaves the guest state d, is the one the
      reference run gives: `actual` is the interpreter's exit there, `before` and
      `after` are the outcomes around its last step. */
  predicate ExitMatches(x: Exit, d: Cpu, actual: Option<Exit>, before: Outcome, after: Outcome) {
    match x.reason
    case Interp => before == Running(d)
    case IndirectBranch => actual == Some(x) && after == Running(d)
    case EcallExit => actual == Some(x) && after == Syscall(d)
    case _ => false
  }

  /** Where the reference run is when the block is in state s after n labels. */
  predicate Agrees(fpu: Fpu, p: Program, c: Cpu, s: BlockState, n: nat) {
    match s
    case Inside(l, h) => l in p.code && Run(fpu, c, n) == Running(Epilogue(p, c, h).(pc := l))
    case Done(k, x, h) =>
      1 <= k <= n
      && ExitMatches(x, Epilogue(p, c, h).(pc := x.reenter), NextExit(fpu, Run(fpu, c, k - 1)),
                     Run(fpu, c, k - 1), Run(fpu, c, k))
    case Bad => false
  }

  /** The same, for the run that fetches from the code m. */
  predicate AgreesFrom(fpu: Fpu, p: Program, m: Mem, c: Cpu, s: BlockState, n: nat) {
    match s
    case Inside(l, h) => l in p.code && RunFrom(fpu, m, c, n) == Running(Epilogue(p, c, h).(pc := l))
    case Done(k, x, h) =>
      1 <= k <= n
      && ExitMatches(x, Epilogue(p, c, h).(pc := x.reenter), NextExitFrom(fpu, m, RunFrom(fpu, m, c, k - 1)),
                     RunFrom(fpu, m, c, k - 1), RunFrom(fpu, m, c, k))
    case Bad => false
  }

  lemma {:induction false} TracksView(p: Program, c: Cpu, h: Ir.Host, d: Cpu)
    requires Tracks(p, c, h, d)
    ensures Epilogue(p, c, h).(pc := d.pc) == d
  {
    hide Tracks, Epilogue;
    EpilogueRestores(p, c, h, d);
  }

  /** The invariant of the simulation after n labels. */
  predicate Simulates(fpu: Fpu, p: Program, m: Mem, c: Cpu, s: BlockState, n: nat) {
    match s
    case Inside(l, h) =>
      var o := RunFrom(fpu, m, c, n);
      l in p.code && o.Running? && o.cpu.pc == l && Tracks(p, c, h, o.cpu)
    case _ => AgreesFrom(fpu, p, m, c, s, n)
  }

  lemma {:induction false} Simulation(fpu: Fpu, p: Program, m: Mem, c: Cpu, n: nat)
    requires GeneratedFrom(p, m) && p.order[0] == c.pc && c.gp[0] == 0 && !RunFrom(fpu, m, c, n).Aborted?
    ensures Simulates(fpu, p, m, c, RunBlock(fpu, p, c, n), n)
    decreases n
  {
    hide Tracks, Prologue, Epilogue, StepBlock, StepFrom, GeneratedFrom;
    if n == 0 {
      EntryIsLabel(p, m);
      PrologueTracks(p, c);
    } else {
      Simulation(fpu, p, m, c, n - 1);
      var s := RunBlock(fpu, p, c, n - 1);
      if s.Inside? {
        SimulationStep(fpu, p, m, c, s.host, RunFrom(fpu, m, c, n - 1).cpu, n);
      }
    }
  }

  lemma {:induction false} EntryIsLabel(p: Program, m: Mem)
    requires GeneratedFrom(p, m)
    ensures p.order != [] && p.order[0] in p.code
  {
  }

  lemma {:induction false} SimulationStep(fpu: Fpu, p: Program, m: Mem, c: Cpu, h: Ir.Host, d: Cpu, n: nat)
    requires GeneratedFrom(p, m)
    requires n >= 1 && RunFrom(fpu, m, c, n - 1) == Running(d) && d.pc in p.code && Tracks(p, c, h, d)
    requires !RunFrom(fpu, m, c, n).Aborted?
    ensures Simulates(fpu, p, m, c, StepBlock(fpu, p, d.pc, h, n), n)
  {
    hide Tracks, Epilogue, Ir.RunLabel, StepFrom, RunFrom, AgreesFrom, LabelFrom;
    RunMore(fpu, m, c, d, n);
    LabelStep(fpu, p, m, c, h, d);
    var r := Ir.RunLabel(fpu, p.code[d.pc], h);
    if r.Left? {
      LeaveAgrees(fpu, p, m, c, r.exit, r.host, d, n);
    }
  }

  lemma {:induction false} RunMore(fpu: Fpu, m: Mem, c: Cpu, d: Cpu, n: nat)
    requires n >= 1 && RunFrom(fpu, m, c, n - 1) == Running(d)
    ensures RunFrom(fpu, m, c, n) == StepFrom(fpu, m, d)
  {
    hide StepFrom;
  }

  lemma {:induction false} LeaveAgrees(fpu: Fpu, p: Program, m: Mem, c: Cpu, x: Exit, g: Ir.Host, d: Cpu, n: nat)
    requires n >= 1 && RunFrom(fpu, m, c, n - 1) == Running(d)
    requires OneStep(fpu, p, m, c, Ir.Left(x, g), d)
    ensures AgreesFrom(fpu, p, m, c, Done(n, x, g), n)
  {
    hide Tracks, Epilogue, StepFrom, RunFrom;
    RunMore(fpu, m, c, d, n);
    if x.reason == Interp {
      TracksView(p, c, g, d);
    } else {
      TracksView(p, c, g, StepFrom(fpu, m, d).cpu);
    }
  }

  /** A block runs the code it was generated from, whatever the guest has since
      written over it: for every n it agrees with n steps of the interpreter
      that fetches from the bytes m of the day it was compiled. */
  lemma {:induction false} BlockRunsFrozenCode(fpu: Fpu, p: Program, m: Mem, c: Cpu, n: nat)
    requires GeneratedFrom(p, m) && p.order[0] == c.pc && c.gp[0] == 0 && !RunFrom(fpu, m, c, n).Aborted?
    ensures AgreesFrom(fpu, p, m, c, RunBlock(fpu, p, c, n), n)
  {
    hide Tracks, Epilogue, RunBlock, GeneratedFrom;
    Simulation(fpu, p, m, c, n);
    var s := RunBlock(fpu, p, c, n);
    if s.Inside? {
      TracksView(p, c, s.host, RunFrom(fpu, m, c, n).cpu);
    }
  }

  /** A run that executes only words of m is the run that fetches from m. */
  lemma {:induction false} IntactText(fpu: Fpu, m: Mem, c: Cpu, n: nat)
    requires forall k: nat | k < n :: NextWordIn(m, Run(fpu, c, k))
    ensures RunFrom(fpu, m, c, n) == Run(fpu, c, n)
    decreases n
  {
    hide Fetch, Exec, Decode.InsnDecode;
    if n != 0 {
      IntactText(fpu, m, c, n - 1);
      assert NextWordIn(m, Run(fpu, c, n - 1));
    }
  }

  lemma {:induction false} SameStep(fpu: Fpu, m: Mem, d: Cpu)
    requires d.pc != 0 && Fetch(d.mem, d.pc) == Fetch(m, d.pc)
    ensures StepFrom(fpu, m, d) == Step(fpu, d) && ExitAt(fpu, m, d) == ExitAt(fpu, d.mem, d)
  {
    hide Fetch, Exec, Decode.InsnDecode;
  }

  /** Translation preserves meaning. For every n: while the block is inside
      itself after n labels, the epilogue would give the guest state of n
      interpreter steps; when it has left, it left with the reason and
      re-entry pc of the interpreter, and with its registers and memory. All
      that is asked of the guest is that a label's word is still the one the
      block was generated from when the run comes to it. */
  lemma {:induction false} TranslationPreservesMeaning(fpu: Fpu, p: Program, m: Mem, c: Cpu, n: nat)
    requires GeneratedFrom(p, m) && p.order[0] == c.pc && c.gp[0] == 0 && !Run(fpu, c, n).Aborted?
    requires forall k: nat | k < n :: KeepsWord(p, m, Run(fpu, c, k))
    ensures Agrees(fpu, p, c, RunBlock(fpu, p, c, n), n)
    ensures RunBlock(fpu, p, c, n).Inside? ==> RunFrom(fpu, m, c, n) == Run(fpu, c, n)
    decreases n
  {
    hide Epilogue, Prologue, GeneratedFrom, Step, StepFrom, ExitAt, ExitMatches, StepBlock, Fetch;
    if n == 0 {
      BlockRunsFrozenCode(fpu, p, m, c, 0);
    } else {
      TranslationPreservesMeaning(fpu, p, m, c, n - 1);
      var s := RunBlock(fpu, p, c, n - 1);
      if s.Inside? {
        assert KeepsWord(p, m, Run(fpu, c, n - 1));
        LabelIsNonzero(p, m, s.at);
        SameStep(fpu, m, Run(fpu, c, n - 1).cpu);
        BlockRunsFrozenCode(fpu, p, m, c, n);
        LeavesNow(fpu, p, s.at, s.host, n);
      }
    }
  }

  lemma {:induction false} LabelIsNonzero(p: Program, m: Mem, pc: u64)
    requires GeneratedFrom(p, m) && pc in p.code
    ensures pc != 0
  {
    hide LabelAt;
    assert LabelFrom(p, m, pc);
  }

  lemma {:induction false} LeavesNow(fpu: Fpu, p: Program, l: u64, h: Ir.Host, n: nat)
    ensures StepBlock(fpu, p, l, h, n).Done? ==> StepBlock(fpu, p, l, h, n).labels == n
  {
    hide Ir.RunLabel;
  }

  /** The interpreter reading current memory is where it would be reading m, at
      the step the block state s speaks about. */
  predicate SameRunAt(fpu: Fpu, m: Mem, c: Cpu, s: BlockState, n: nat) {
    match s
    case Done(k, x, _) =>
      k > 0
      && (if x.reason == Interp then Run(fpu, c, k - 1) == RunFrom(fpu, m, c, k - 1)
          else Run(fpu, c, k) == RunFrom(fpu, m, c, k)
               && NextExit(fpu, Run(fpu, c, k - 1)) == NextExitFrom(fpu, m, RunFrom(fpu, m, c, k - 1)))
    case _ => Run(fpu, c, n) == RunFrom(fpu, m, c, n)
  }

  /** The condition is exact: a block, inside itself or left, agrees with the
      interpreter if and only if the interpreter, reading current memory, is
      where it would be reading the bytes the block was generated from. */
  lemma {:induction false} AgreementIsExact(fpu: Fpu, p: Program, m: Mem, c: Cpu, n: nat)
    requires GeneratedFrom(p, m) && p.order[0] == c.pc && c.gp[0] == 0 && !RunFrom(fpu, m, c, n).Aborted?
    ensures var s := RunBlock(fpu, p, c, n);
            Agrees(fpu, p, c, s, n) <==> SameRunAt(fpu, m, c, s, n)
  {
    hide Epilogue, RunBlock, GeneratedFrom, Run, RunFrom, NextExit, NextExitFrom;
    BlockRunsFrozenCode(fpu, p, m, c, n);
  }
}
