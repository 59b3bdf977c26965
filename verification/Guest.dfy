/** The guest machine as the interpreter sees it: registers, memory, the
    per-instruction handlers of interpret.c, and the plain
    fetch-decode-execute loop that every faster path has to agree with. */
module Guest {
  import opened Words
  import opened Insn
  import Alu
  import Decode

  /** Guest bytes; pages the host maps fresh read as zero. */
  type Mem = map<u64, u8>

  type Regs = s: seq<u64> | |s| == 32 witness seq(32, _ => 0)

  /** `state_t` without the exit protocol, together with guest memory. */
  datatype Cpu = Cpu(gp: Regs, fp: Regs, pc: u64, mem: Mem)

  function ByteAt(m: Mem, a: u64): u8 {
    if a in m then m[a] else 0
  }

  /** Little-endian load and store of n bytes; addresses wrap. */
  function LoadLE(m: Mem, a: u64, n: nat): nat
    decreases n
  {
    if n == 0 then 0 else ByteAt(m, a) + 256 * LoadLE(m, Wrap(a + 1), n - 1)
  }

  function StoreLE(m: Mem, a: u64, n: nat, v: nat): Mem
    decreases n
  {
    if n == 0 then m else StoreLE(m[a := v % 256], Wrap(a + 1), n - 1, v / 256)
  }

  /** `*(u32 *)TO_HOST(pc)`. */
  function Fetch(m: Mem, pc: u64): bv32 {
    Assemble(ByteAt(m, pc), ByteAt(m, Wrap(pc + 1)), ByteAt(m, Wrap(pc + 2)), ByteAt(m, Wrap(pc + 3)))
  }

  /** The instruction word is the little-endian word at pc. */
  lemma {:induction false} FetchIsLoad(m: Mem, pc: u64)
    ensures LoadLE(m, pc, 4) < 0x1_0000_0000 && Fetch(m, pc) == LoadLE(m, pc, 4) as bv32
  {
    hide ByteAt;
    var b: int, c: int, d: int := Wrap(pc + 1), Wrap(pc + 2), Wrap(pc + 3);
    assert Wrap(b + 1) == c && Wrap(c + 1) == d;
    assert LoadLE(m, d, 1) == ByteAt(m, d);
    assert LoadLE(m, c, 2) == ByteAt(m, c) + 256 * LoadLE(m, d, 1);
    assert LoadLE(m, b, 3) == ByteAt(m, b) + 256 * LoadLE(m, c, 2);
    AssembleIs(ByteAt(m, pc), ByteAt(m, b), ByteAt(m, c), ByteAt(m, d), LoadLE(m, pc, 4));
  }

  lemma {:induction false} AssembleIs(b0: u8, b1: u8, b2: u8, b3: u8, v: nat)
    requires v == b0 + 256 * (b1 + 256 * (b2 + 256 * b3))
    ensures v < 0x1_0000_0000 && Assemble(b0, b1, b2, b3) == v as bv32
  {
    assert v == b0 + 0x100 * b1 + 0x1_0000 * b2 + 0x100_0000 * b3;
  }

  function Assemble(b0: u8, b1: u8, b2: u8, b3: u8): bv32 {
    (b0 + 0x100 * b1 + 0x1_0000 * b2 + 0x100_0000 * b3) as bv32
  }

  // ----- floating point, left to the host -----

  /** Host floating-point operations on register bits. */
  datatype Fpu = Fpu(
    arith: (FpArith, Prec, u64, u64, u64) -> u64,
    compare: (FpCompare, Prec, u64, u64) -> bool,
    fromInt: (FpSource, Prec, u64) -> u64,
    narrow: u64 -> u64,
    widen: u64 -> u64,
    sqrt: (Prec, u64) -> u64,
    toInt: (FpQuery, Prec, u64) -> u64)

  /** Reading `.f` or `.w` sees the low word of the register union. */
  function ReadFp(p: Prec, v: u64): u64 {
    if p.Single? then Lo32(v) else v
  }

  /** Writing `.f` or `.w` leaves the high word of the union as it was. */
  function WriteFp(p: Prec, was: u64, v: u64): u64 {
    if p.Single? then LowWord(was, v) else v
  }

  function LowWord(was: u64, v: u64): u64 {
    was - Lo32(was) + Lo32(v)
  }

  /** A single-precision write keeps the upper half of the register. */
  lemma {:induction false} SingleKeepsUpper(was: u64, v: u64)
    ensures WriteFp(Single, was, v) / TWO32 == was / TWO32
    ensures ReadFp(Single, WriteFp(Single, was, v)) == ReadFp(Single, v)
  {
    DivModUnique(LowWord(was, v), TWO32, was / TWO32, Lo32(v));
  }

  /** `v | ((u64)-1 << 32)` for a 32-bit v. */
  function Boxed(v: int): u64 {
    0xFFFF_FFFF_0000_0000 + Lo32(v)
  }

  // ----- loads and stores -----

  function LoadSize(op: LoadOp): nat {
    match op
    case Lb => 1
    case Lbu => 1
    case Lh => 2
    case Lhu => 2
    case Lw => 4
    case Lwu => 4
    case Ld => 8
  }

  /** Sign or zero extension of the loaded bytes. */
  function LoadValue(op: LoadOp, raw: nat): u64 {
    match op
    case Lb => if raw % 0x100 < 0x80 then raw % 0x100 else raw % 0x100 + (TWO64 - 0x100)
    case Lh => if raw % 0x1_0000 < 0x8000 then raw % 0x1_0000 else raw % 0x1_0000 + (TWO64 - 0x1_0000)
    case Lw => SExt32(raw)
    case Ld => Wrap(raw)
    case Lbu => raw % 0x100
    case Lhu => raw % 0x1_0000
    case Lwu => Lo32(raw)
  }

  function StoreSize(op: StoreOp): nat {
    match op
    case Sb => 1
    case Sh => 2
    case Sw => 4
    case Sd => 8
  }

  function FpSize(p: Prec): nat {
    if p.Single? then 4 else 8
  }

  // ----- one instruction -----

  datatype Reason = DirectBranch | IndirectBranch | Interp | EcallExit | HaltExit

  /** `exit_reason` and `reenter_pc` as a block leaves them. */
  datatype Exit = Exit(reason: Reason, reenter: u64)

  datatype Effect = Trap | Effect(cpu: Cpu, exit: Option<Exit>)

  function SetGp(c: Cpu, rd: Reg, v: u64): Effect {
    Effect(c.(gp := c.gp[rd := v]), None)
  }

  function SetFp(c: Cpu, rd: Reg, v: u64): Effect {
    Effect(c.(fp := c.fp[rd := v]), None)
  }

  predicate KnownCsr(csr: int) {
    csr == 1 || csr == 2 || csr == 3
  }

  /** The handler table of interpret.c, before x0 is reset. */
  function Handler(fpu: Fpu, i: Insn, c: Cpu): Effect {
    var rs1, rs2 := c.gp[i.rs1], c.gp[i.rs2];
    var fs1, fs2, fs3, fd := c.fp[i.rs1], c.fp[i.rs2], c.fp[i.rs3], c.fp[i.rd];
    var addr := Wrap(rs1 + i.imm);
    match i.ty
    case Load(op) => SetGp(c, i.rd, LoadValue(op, LoadLE(c.mem, addr, LoadSize(op))))
    case Store(op) => Effect(c.(mem := StoreLE(c.mem, addr, StoreSize(op), rs2)), None)
    case Fence => Effect(c, None)
    case FenceI => Effect(c, None)
    case OpImm(op) => SetGp(c, i.rd, Alu.ImmAlu(op, rs1, i.imm))
    case Op(op) =>
      (match Alu.RegAlu(op, rs1, rs2)
       case None => Trap
       case Some(v) => SetGp(c, i.rd, v))
    case Auipc => SetGp(c, i.rd, Wrap(c.pc + i.imm))
    case Lui => SetGp(c, i.rd, Wrap(i.imm))
    case Branch(op) =>
      var target := Wrap(c.pc + i.imm);
      if Alu.Taken(op, rs1, rs2) then Effect(c.(pc := target), Some(Exit(DirectBranch, target)))
      else Effect(c, None)
    case Jalr =>
      Effect(c.(gp := c.gp[i.rd := Wrap(c.pc + InsnLength(i))]), Some(Exit(IndirectBranch, ClearBit0(addr))))
    case Jal =>
      var target := Wrap(c.pc + i.imm);
      Effect(c.(gp := c.gp[i.rd := Wrap(c.pc + InsnLength(i))], pc := target), Some(Exit(DirectBranch, target)))
    case Ecall => Effect(c, Some(Exit(EcallExit, Wrap(c.pc + 4))))
    case Csr(_) => if KnownCsr(i.csr) then SetGp(c, i.rd, 0) else Trap
    case FpLoad(p) =>
      var raw := LoadLE(c.mem, addr, FpSize(p));
      SetFp(c, i.rd, if p.Single? then Boxed(raw) else Wrap(raw))
    case FpStore(p) => Effect(c.(mem := StoreLE(c.mem, addr, FpSize(p), fs2)), None)
    case FpOp(op, p) =>
      var third := if Fused(op) then ReadFp(p, fs3) else 0;
      SetFp(c, i.rd, WriteFp(p, fd, fpu.arith(op, p, ReadFp(p, fs1), ReadFp(p, fs2), third)))
    case FpCmp(op, p) =>
      SetGp(c, i.rd, if fpu.compare(op, p, ReadFp(p, fs1), ReadFp(p, fs2)) then 1 else 0)
    case FpFromInt(src, p) => SetFp(c, i.rd, WriteFp(p, fd, fpu.fromInt(src, p, rs1)))
    case FpToSingle => SetFp(c, i.rd, WriteFp(Single, fd, fpu.narrow(fs1)))
    case FpToDouble => SetFp(c, i.rd, fpu.widen(ReadFp(Single, fs1)))
    case FpMoveToInt(p) => SetGp(c, i.rd, if p.Single? then SExt32(fs1) else fs1)
    case FpMoveFromInt(p) => SetFp(c, i.rd, WriteFp(p, fd, rs1))
    case FpSqrt(p) => SetFp(c, i.rd, WriteFp(p, fd, fpu.sqrt(p, ReadFp(p, fs1))))
    case FpSignOp(op, p) =>
      var v := Alu.SignInject(op, if p.Single? then TWO31 else TWO63, ReadFp(p, fs1), ReadFp(p, fs2));
      SetFp(c, i.rd, if p.Single? then Boxed(v) else v)
    case FpToInt(q, p) => SetGp(c, i.rd, fpu.toInt(q, p, ReadFp(p, fs1)))
  }

  /** The sign of the result of a sign injection on words with sign bit s. */
  predicate Negative(op: FpSign, s: int, a: int, b: int) {
    match op
    case Fsgnj => b >= s
    case Fsgnjn => b < s
    case Fsgnjx => (a >= s) != (b >= s)
  }

  /** Sign injection on register bits: the sign as above, the rest of the
      register from rs1; single results are boxed. */
  lemma {:induction false} SignHandler(fpu: Fpu, i: Insn, c: Cpu)
    requires i.ty.FpSignOp?
    ensures var single, s := i.ty.prec.Single?, if i.ty.prec.Single? then TWO31 else TWO63;
            var a: int, b: int := ReadFp(i.ty.prec, c.fp[i.rs1]), ReadFp(i.ty.prec, c.fp[i.rs2]);
            var v := a % s + (if Negative(i.ty.sign, s, a, b) then s else 0);
            Handler(fpu, i, c) == SetFp(c, i.rd, if single then 0xFFFF_FFFF_0000_0000 + v else v)
  {
    hide Alu.SignInject, ReadFp, Boxed, Wrap, Lo32, SExt32, LoadLE, StoreLE, Negative;
    var p := i.ty.prec;
    SignValue(i.ty.sign, p, c.fp[i.rs1], c.fp[i.rs2]);
  }

  lemma {:induction false} SignValue(op: FpSign, p: Prec, x: u64, y: u64)
    ensures var s := if p.Single? then TWO31 else TWO63;
            var a: int, b: int := ReadFp(p, x), ReadFp(p, y);
            var v := Alu.SignInject(op, s, a, b);
            v == a % s + (if Negative(op, s, a, b) then s else 0)
            && (p.Single? ==> Boxed(v) == 0xFFFF_FFFF_0000_0000 + v)
  {
    hide Alu.SignInject, Pow2;
    SignPowers();
    var a: int, b: int := ReadFp(p, x), ReadFp(p, y);
    Alu.SignInjectSpec(op, if p.Single? then 31 else 63, a, b);
    if p.Single? {
      Alu.Lo32Small(Alu.SignInject(op, TWO31, a, b));
    }
  }

  lemma {:induction false} SignPowers()
    ensures Pow2(31) == TWO31 && Pow2(63) == TWO63
  {
    hide Pow2;
    Pow2Values();
    assert Pow2(32) == 2 * Pow2(31) && Pow2(64) == 2 * Pow2(63) by { DoublePower(31); DoublePower(63); }
  }

  lemma {:induction false} DoublePower(k: nat)
    ensures Pow2(k + 1) == 2 * Pow2(k)
  {
  }

  /** Square roots, conversions to integers and classifications read rs1 alone:
      no other register but a kept upper half of rd changes the result. */
  lemma {:induction false} ReadsRs1(fpu: Fpu, i: Insn, c: Cpu, k: Reg, v: u64)
    requires (i.ty.FpSqrt? || i.ty.FpToInt?) && k != i.rs1
    ensures var d := c.(fp := c.fp[k := v]);
            var e, e' := Handler(fpu, i, c).cpu, Handler(fpu, i, d).cpu;
            && e.gp == e'.gp
            && (i.ty.FpToInt? ==> e.fp == c.fp)
            && (i.ty.FpSqrt? ==> Lo32(e.fp[i.rd]) == Lo32(e'.fp[i.rd]))
  {
    hide Lo32;
    if i.ty.FpSqrt? && i.ty.prec.Single? {
      SingleKeepsUpper(c.fp[i.rd], fpu.sqrt(Single, ReadFp(Single, c.fp[i.rs1])));
      SingleKeepsUpper(if k == i.rd then v else c.fp[i.rd], fpu.sqrt(Single, ReadFp(Single, c.fp[i.rs1])));
    }
  }

  /** Accesses to fflags (1), frm (2) and fcsr (3) read zero and write nothing;
      all others stop the process. */
  lemma {:induction false} CsrHandler(fpu: Fpu, i: Insn, c: Cpu)
    requires i.ty.Csr?
    ensures Handler(fpu, i, c) == if 1 <= i.csr <= 3 then SetGp(c, i.rd, 0) else Trap
  {
  }

  /** A handler followed by `state->gp_regs[zero] = 0`. */
  function Exec(fpu: Fpu, i: Insn, c: Cpu): Effect {
    match Handler(fpu, i, c)
    case Trap => Trap
    case Effect(d, e) => Effect(d.(gp := d.gp[0 := 0]), e)
  }

  // ----- the plain loop -----

  datatype Outcome =
    | Running(cpu: Cpu)
    | Syscall(cpu: Cpu)
    | Halted(cpu: Cpu)
    | Aborted

  /** One round of fetch, decode and execute. */
  function Step(fpu: Fpu, c: Cpu): Outcome {
    StepFrom(fpu, c.mem, c)
  }

  /** The same round with the instruction word fetched from `code`. */
  function StepFrom(fpu: Fpu, code: Mem, c: Cpu): Outcome {
    if c.pc == 0 then Halted(c)
    else
      match Decode.InsnDecode(ZERO_INSN, Fetch(code, c.pc))
      case None => Aborted
      case Some(i) => After(i, Exec(fpu, i, c))
  }

  /** The exit the instruction at c.pc, fetched from `code`, leaves with; None
      if it falls through or does not execute. */
  function ExitAt(fpu: Fpu, code: Mem, c: Cpu): Option<Exit> {
    if c.pc == 0 then None
    else
      match Decode.InsnDecode(ZERO_INSN, Fetch(code, c.pc))
      case None => None
      case Some(i) =>
        match Exec(fpu, i, c)
        case Trap => None
        case Effect(_, x) => x
  }

  /** The exit of the next instruction of a run. */
  function NextExit(fpu: Fpu, o: Outcome): Option<Exit> {
    if o.Running? then ExitAt(fpu, o.cpu.mem, o.cpu) else None
  }

  function NextExitFrom(fpu: Fpu, code: Mem, o: Outcome): Option<Exit> {
    if o.Running? then ExitAt(fpu, code, o.cpu) else None
  }

  /** Where control goes after an instruction. */
  function After(i: Insn, e: Effect): Outcome {
    match e
    case Trap => Aborted
    case Effect(d, None) => Running(d.(pc := Wrap(d.pc + InsnLength(i))))
    case Effect(d, Some(x)) =>
      if x.reason == EcallExit then Syscall(d.(pc := x.reenter)) else Running(d.(pc := x.reenter))
  }

  /** n rounds from c; a run that stops early stays where it stopped. */
  function Run(fpu: Fpu, c: Cpu, n: nat): Outcome {
    if n == 0 then Running(c)
    else
      match Run(fpu, c, n - 1)
      case Running(d) => Step(fpu, d)
      case o => o
  }

  /** n rounds with the code frozen as it stands in `code`. */
  function RunFrom(fpu: Fpu, code: Mem, c: Cpu, n: nat): Outcome {
    if n == 0 then Running(c)
    else
      match RunFrom(fpu, code, c, n - 1)
      case Running(d) => StepFrom(fpu, code, d)
      case o => o
  }
}
