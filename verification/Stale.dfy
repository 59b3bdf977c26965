/** Why translated code needs program text that stays put: a block does not see
    a store into its own instructions. */
module Stale {
  import opened Words
  import opened Insn
  import opened Guest
  import opened Block
  import Decode
  import Ir

  /** `sw x5, 4(x6)` and `ecall`, one after the other. */
  const STORE: bv32 := 0x0053_2223
  const ECALL: bv32 := 0x0000_0073
  const NOP: bv32 := 0x0000_0013

  const CODE: Mem := map[0x1000 := 0x23, 0x1001 := 0x22, 0x1002 := 0x53, 0x1003 := 0x00,
                         0x1004 := 0x73, 0x1005 := 0x00, 0x1006 := 0x00, 0x1007 := 0x00]

  const STORE_INSN := ZERO_INSN.(ty := Store(Sw), rs1 := 6, rs2 := 5, imm := 4)
  const ECALL_INSN := ZERO_INSN.(ty := Ecall, cont := true)
  const NOP_INSN := ZERO_INSN.(ty := OpImm(Addi))

  lemma {:induction false} DecodeStore()
    ensures Decode.InsnDecode(ZERO_INSN, STORE) == Some(STORE_INSN)
  {
  }

  lemma {:induction false} DecodeEcall()
    ensures Decode.InsnDecode(ZERO_INSN, ECALL) == Some(ECALL_INSN)
  {
  }

  lemma {:induction false} DecodeNop()
    ensures Decode.InsnDecode(ZERO_INSN, NOP) == Some(NOP_INSN)
  {
  }

  lemma {:induction false} StoreWord()
    ensures Assemble(0x23, 0x22, 0x53, 0x00) == STORE
  {
    var v: int := 0x0053_2223;
    assert Assemble(0x23, 0x22, 0x53, 0x00) == v as bv32;
    assert v as bv32 == STORE;
  }

  lemma {:induction false} EcallWord()
    ensures Assemble(0x73, 0x00, 0x00, 0x00) == ECALL
  {
  }

  lemma {:induction false} NopWord()
    ensures Assemble(0x13, 0x00, 0x00, 0x00) == NOP
  {
  }

  lemma {:induction false} FetchCode()
    ensures Fetch(CODE, 0x1000) == STORE && Fetch(CODE, 0x1004) == ECALL
  {
    hide Assemble;
    StoreWord();
    EcallWord();
  }

  /** The guest state: x5 holds the word of a no-op, x6 the address of the code. */
  const START := Cpu(seq(32, r => if r == 5 then 0x13 else if r == 6 then 0x1000 else 0), seq(32, _ => 0), 0x1000, CODE)

  const PATCHED: Mem := CODE[0x1004 := 0x13][0x1005 := 0][0x1006 := 0][0x1007 := 0]

  lemma {:induction false} StoreOver()
    ensures StoreLE(CODE, 0x1004, 4, 0x13) == PATCHED
  {
    var v: nat := 0x13;
    assert Wrap(0x1005) == 0x1005 && Wrap(0x1006) == 0x1006 && Wrap(0x1007) == 0x1007;
    assert v % 256 == 0x13 && v / 256 == 0;
  }

  lemma {:induction false} FetchPatched()
    ensures Fetch(PATCHED, 0x1004) == NOP
  {
    hide Assemble;
    NopWord();
  }

  // ----- the plain loop sees the store -----

  const NEXT := START.(pc := 0x1004, mem := PATCHED)

  lemma {:induction false} FirstStep(fpu: Fpu)
    ensures Step(fpu, START) == Running(NEXT) == StepFrom(fpu, CODE, START)
  {
    hide Fetch, Decode.InsnDecode, StoreLE;
    FetchCode();
    DecodeStore();
    StoreOver();
    assert Exec(fpu, STORE_INSN, START) == Effect(START.(mem := PATCHED), None);
  }

  lemma {:induction false} SecondStep(fpu: Fpu)
    ensures Step(fpu, NEXT).Running? && StepFrom(fpu, CODE, NEXT).Syscall?
  {
    hide Fetch, Decode.InsnDecode;
    FetchCode();
    FetchPatched();
    DecodeEcall();
    DecodeNop();
  }

  // ----- the block does not -----

  function LabelsOf(m: Mem, a: u64, b: u64): Program
    requires LabelAt(m, a).Some? && LabelAt(m, b).Some?
  {
    var x, y := LabelAt(m, a).value, LabelAt(m, b).value;
    Program([a, b], map[a := x.stmts, b := y.stmts], x.gp + y.gp, x.fp + y.fp)
  }

  lemma {:induction false} StoreLabel()
    ensures LabelAt(CODE, 0x1000).Some? && LabelAt(CODE, 0x1000).value.pushes == [0x1004]
    ensures forall s <- LabelAt(CODE, 0x1000).value.stmts :: !s.Leave?
  {
    hide Fetch, Decode.InsnDecode;
    FetchCode();
    DecodeStore();
  }

  lemma {:induction false} EcallLabel()
    ensures LabelAt(CODE, 0x1004).Some? && LabelAt(CODE, 0x1004).value.pushes == []
    ensures forall s <- LabelAt(CODE, 0x1004).value.stmts :: s.Leave? && s.reason == EcallExit
  {
    hide Fetch, Decode.InsnDecode;
    FetchCode();
    DecodeEcall();
  }

  lemma {:induction false} LeavesByStatement(fpu: Fpu, ss: seq<Ir.Stmt>, h: Ir.Host)
    requires Ir.Run(fpu, ss, h).Left?
    ensures exists s <- ss :: s.Leave? && s.reason == Ir.Run(fpu, ss, h).exit.reason
    decreases ss
  {
    if ss != [] && Ir.Exec(fpu, ss[0], h).Fell? {
      LeavesByStatement(fpu, ss[1..], Ir.Exec(fpu, ss[0], h).host);
    }
  }

  lemma {:induction false} IsGenerated()
    requires LabelAt(CODE, 0x1000).Some? && LabelAt(CODE, 0x1004).Some?
    ensures GeneratedFrom(LabelsOf(CODE, 0x1000, 0x1004), CODE)
  {
    hide LabelAt;
    StoreLabel();
    EcallLabel();
  }

  lemma {:induction false} TwoSteps(fpu: Fpu)
    ensures RunFrom(fpu, CODE, START, 1) == Running(NEXT) && RunFrom(fpu, CODE, START, 2).Syscall?
    ensures Run(fpu, START, 2).Running?
  {
    hide Step, StepFrom;
    FirstStep(fpu);
    SecondStep(fpu);
    assert Run(fpu, START, 0) == Running(START) == RunFrom(fpu, CODE, START, 0);
    assert Run(fpu, START, 1) == Running(NEXT) == RunFrom(fpu, CODE, START, 1);
  }

  /** A block state reached by leaving was left by a statement of its label. */
  lemma {:induction false} DoneByStatement(fpu: Fpu, p: Program, l: u64, h: Ir.Host, n: nat)
    requires l in p.code && StepBlock(fpu, p, l, h, n).Done?
    ensures exists s <- p.code[l] :: s.Leave? && s.reason == StepBlock(fpu, p, l, h, n).exit.reason
  {
    hide Ir.Run;
    LeavesByStatement(fpu, p.code[l], h.(loc := map[]));
  }

  lemma {:induction false} StillInside(fpu: Fpu, p: Program)
    requires LabelAt(CODE, 0x1000).Some? && LabelAt(CODE, 0x1004).Some? && p == LabelsOf(CODE, 0x1000, 0x1004)
    requires GeneratedFrom(p, CODE)
    ensures RunBlock(fpu, p, START, 1).Inside? && RunBlock(fpu, p, START, 1).at == 0x1004
  {
    hide LabelAt, StepBlock, RunFrom, GeneratedFrom, Prologue, Epilogue;
    TwoSteps(fpu);
    BlockRunsFrozenCode(fpu, p, CODE, START, 1);
    assert RunBlock(fpu, p, START, 0) == Inside(0x1000, Prologue(p, START));
    if RunBlock(fpu, p, START, 1).Done? {
      StoreLabel();
      DoneByStatement(fpu, p, 0x1000, Prologue(p, START), 1);
    }
  }

  lemma {:induction false} BlockLeaves(fpu: Fpu, p: Program)
    requires LabelAt(CODE, 0x1000).Some? && LabelAt(CODE, 0x1004).Some? && p == LabelsOf(CODE, 0x1000, 0x1004)
    requires GeneratedFrom(p, CODE)
    ensures RunBlock(fpu, p, START, 2).Done?
    ensures RunBlock(fpu, p, START, 2).labels == 2 && RunBlock(fpu, p, START, 2).exit.reason == EcallExit
  {
    hide LabelAt, StepBlock, RunFrom, GeneratedFrom, Prologue, Epilogue;
    TwoSteps(fpu);
    StillInside(fpu, p);
    BlockRunsFrozenCode(fpu, p, CODE, START, 2);
    EcallLabel();
    var h := RunBlock(fpu, p, START, 1).host;
    assert RunBlock(fpu, p, START, 2) == StepBlock(fpu, p, 0x1004, h, 2);
    DoneByStatement(fpu, p, 0x1004, h, 2);
    assert StepBlock(fpu, p, 0x1004, h, 2).labels == 2 by { DoneCount(fpu, p, 0x1004, h, 2); }
  }

  lemma {:induction false} DoneCount(fpu: Fpu, p: Program, l: u64, h: Ir.Host, n: nat)
    requires StepBlock(fpu, p, l, h, n).Done?
    ensures StepBlock(fpu, p, l, h, n).labels == n
  {
    hide Ir.RunLabel;
  }

  /** A block generated from the very memory it starts in: the guest stores over
      its second instruction, the plain loop runs the new one, and the block
      still leaves for the old system call. So intact text is needed. */
  lemma {:induction false} StoreIntoBlock(fpu: Fpu)
    ensures LabelAt(CODE, 0x1000).Some? && LabelAt(CODE, 0x1004).Some?
    ensures var p := LabelsOf(CODE, 0x1000, 0x1004);
            && GeneratedFrom(p, START.mem) && p.order[0] == START.pc && START.gp[0] == 0
            && Run(fpu, START, 2).Running?
            && !Agrees(fpu, p, START, RunBlock(fpu, p, START, 2), 2)
  {
    hide LabelAt, RunBlock, Run, Epilogue, GeneratedFrom, Agrees, LabelsOf, CODE, START;
    StoreLabel();
    EcallLabel();
    var p := LabelsOf(CODE, 0x1000, 0x1004);
    IsGenerated();
    TwoSteps(fpu);
    BlockLeaves(fpu, p);
    Disagrees(fpu, p, RunBlock(fpu, p, START, 2));
    StartFacts(p);
  }

  lemma {:induction false} StartFacts(p: Program)
    requires LabelAt(CODE, 0x1000).Some? && LabelAt(CODE, 0x1004).Some? && p == LabelsOf(CODE, 0x1000, 0x1004)
    ensures p.order != [] && p.order[0] == START.pc && START.gp[0] == 0 && START.mem == CODE
  {
    hide LabelAt;
  }

  lemma {:induction false} Disagrees(fpu: Fpu, p: Program, s: BlockState)
    requires s.Done? && s.labels == 2 && s.exit.reason == EcallExit && Run(fpu, START, 2).Running?
    ensures !Agrees(fpu, p, START, s, 2)
  {
    hide Run, Epilogue, START;
  }
}
