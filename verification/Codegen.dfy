/** The emitters of codegen.c: for one decoded instruction, the statements
    printed under its label, the registers reported to the tracer, the pcs
    pushed on the worklist, and whether the label already transfers control. */
module Codegen {
  import opened Words
  import opened Insn
  import opened CText
  import opened Ir
  import Guest
  import Decode
  import Emit

  datatype Emission = Emission(
    stmts: seq<Stmt>, gp: set<Reg>, fp: set<Reg>, pushes: seq<u64>, cont: bool)

  /** REG_GET and REG_SET_EXPR: x0 reads as 0 and is never written. */
  function Get(s: Slot, r: Reg): Stmt {
    if r == 0 then GetZero(s) else GetGp(s, r)
  }

  function Set(r: Reg, e: Expr): seq<Stmt> {
    if r != 0 then [SetGp(r, e)] else []
  }

  /** REG_SET_VAL prints the value as a signed literal. */
  function SetVal(r: Reg, v: u64): seq<Stmt> {
    Set(r, Lit(I64, S64(v)))
  }

  function LoadType(op: LoadOp): CType {
    match op
    case Lb => I8
    case Lh => I16
    case Lw => I32
    case Ld => I64
    case Lbu => U8
    case Lhu => U16
    case Lwu => U32
  }

  function StoreType(op: StoreOp): CType {
    match op
    case Sb => U8
    case Sh => U16
    case Sw => U32
    case Sd => U64
  }

  /** `rd | ((uint64_t)-1 << 32)`. */
  const BOX_TEXT := Bin(COr, Var(Rd), Bin(CShl, Cast(U64, Lit(I32, -1)), Lit(I32, 32)))

  function EmitOp(op: RegOp, i: Insn, pc: u64): Emission {
    var gets := [Get(Rs1, i.rs1), Get(Rs2, i.rs2)];
    var uses := {i.rs1, i.rs2, i.rd};
    match Emit.RegText(op)
    case Some(e) => Emission(gets + Set(i.rd, e), uses, {}, [], i.cont)
    case None =>
      match Emit.ChainText(op)
      case Some(arms) => Emission(gets + [Choose(arms)] + Set(i.rd, Var(Rd)), uses, {}, [], i.cont)
      case None => EmitInterp(pc)
  }

  /** The interp exit: the label leaves for the interpreter at its own pc. */
  function EmitInterp(pc: u64): Emission {
    Emission([Leave(Guest.Interp, Lit(U64, pc))], {}, {}, [], true)
  }

  function EmitFp(i: Insn, pc: u64): Emission {
    match i.ty
    case FpLoad(p) =>
      var load := if p.Single? then [MemLoad(U32, Emit.PlusImm(i.imm)), SetFpBits(i.rd, Double, BOX_TEXT)]
                  else [MemLoad(U64, Emit.PlusImm(i.imm)), SetFpBits(i.rd, Double, Var(Rd))];
      Emission([Get(Rs1, i.rs1)] + load, {i.rs1}, {i.rd}, [], i.cont)
    case FpStore(p) =>
      Emission([Get(Rs1, i.rs1), GetFp(Rs2, i.rs2, Double),
                MemStore(if p.Single? then U32 else U64, Emit.PlusImm(i.imm))],
               {i.rs1}, {i.rs2}, [], i.cont)
    case FpOp(op, p) =>
      var third := if Fused(op) then [GetFp(Rs3, i.rs3, p)] else [];
      Emission([GetFp(Rs1, i.rs1, p), GetFp(Rs2, i.rs2, p)] + third + [SetFpHost(i.rd, HostArith(op, p))],
               {}, {i.rs1, i.rs2, i.rd} + (if Fused(op) then {i.rs3} else {}), [], i.cont)
    case FpCmp(op, p) =>
      Emission([GetFp(Rs1, i.rs1, p), GetFp(Rs2, i.rs2, p)] + (if i.rd != 0 then [SetGpCompare(i.rd, op, p)] else []),
               {i.rd}, {i.rs1, i.rs2}, [], i.cont)
    case FpFromInt(src, p) =>
      Emission([Get(Rs1, i.rs1), SetFpHost(i.rd, HostFromInt(src, p))], {i.rs1}, {i.rd}, [], i.cont)
    case FpToSingle =>
      Emission([GetFp(Rs1, i.rs1, Double), SetFpHost(i.rd, HostNarrow)], {}, {i.rs1, i.rd}, [], i.cont)
    case FpToDouble =>
      Emission([GetFp(Rs1, i.rs1, Single), SetFpHost(i.rd, HostWiden)], {}, {i.rs1, i.rd}, [], i.cont)
    case FpMoveToInt(p) =>
      Emission([GetFp(Rs1, i.rs1, p)] + Set(i.rd, if p.Single? then Emit.Sext(Var(Rs1)) else Var(Rs1)),
               {i.rd}, {i.rs1}, [], i.cont)
    case FpMoveFromInt(p) =>
      Emission([Get(Rs1, i.rs1), SetFpBits(i.rd, p, if p.Single? then Cast(U32, Var(Rs1)) else Var(Rs1))],
               {i.rs1}, {i.rd}, [], i.cont)
    case _ => EmitInterp(pc)
  }

  /** `funcs[insn.type](body, &insn, &tracer, &stack, pc)`; None is the fatal
      error for an unsupported control register. */
  function EmitInsn(i: Insn, pc: u64): Option<Emission> {
    match i.ty
    case Load(op) =>
      Some(Emission([Get(Rs1, i.rs1), MemLoad(LoadType(op), Emit.PlusImm(i.imm))] + Set(i.rd, Var(Rd)),
                    {i.rs1, i.rd}, {}, [], i.cont))
    case Store(op) =>
      Some(Emission([Get(Rs1, i.rs1), Get(Rs2, i.rs2), MemStore(StoreType(op), Emit.PlusImm(i.imm))],
                    {i.rs1, i.rs2}, {}, [], i.cont))
    case Fence => Some(Emission([], {}, {}, [], i.cont))
    case FenceI => Some(Emission([], {}, {}, [], i.cont))
    case OpImm(op) =>
      Some(Emission([Get(Rs1, i.rs1)] + Set(i.rd, Emit.ImmText(op, i.imm)), {i.rs1, i.rd}, {}, [], i.cont))
    case Op(op) => Some(EmitOp(op, i, pc))
    case Auipc => Some(Emission(SetVal(i.rd, Wrap(pc + i.imm)), {i.rd}, {}, [], i.cont))
    case Lui => Some(Emission(SetVal(i.rd, Wrap(i.imm)), {i.rd}, {}, [], i.cont))
    case Branch(op) =>
      var target := Wrap(pc + i.imm);
      Some(Emission([Get(Rs1, i.rs1), Get(Rs2, i.rs2), IfGoto(Emit.BranchText(op), target)],
                    {i.rs1, i.rs2}, {}, [target], i.cont))
    case Jalr =>
      Some(Emission([Get(Rs1, i.rs1)] + SetVal(i.rd, Wrap(pc + InsnLength(i)))
                    + [Leave(Guest.IndirectBranch, Emit.JalrText(i.imm))], {i.rs1, i.rd}, {}, [], i.cont))
    case Jal =>
      var target := Wrap(pc + i.imm);
      Some(Emission(SetVal(i.rd, Wrap(pc + InsnLength(i))) + [Goto(target)], {i.rd}, {}, [target], i.cont))
    case Ecall => Some(Emission([Leave(Guest.EcallExit, Lit(U64, Wrap(pc + 4)))], {}, {}, [], i.cont))
    case Csr(_) =>
      if !Guest.KnownCsr(i.csr) then None
      else Some(Emission(Set(i.rd, Lit(I32, 0)), {i.rd} - {0}, {}, [], i.cont))
    case _ => Some(EmitFp(i, pc))
  }

  /** The body of the worklist loop for one pc: statements, then `goto` to the
      next instruction unless the label already ends. */
  function Finish(i: Insn, pc: u64, e: Emission): Emission {
    var next := Wrap(pc + InsnLength(i));
    if e.cont then e else e.(stmts := e.stmts + [Goto(next)], pushes := e.pushes + [next])
  }

  /** What the loop emits for the word w found at pc. */
  function Label(prev: Insn, w: bv32, pc: u64): Option<Emission> {
    match Decode.InsnDecode(prev, w)
    case None => None
    case Some(i) =>
      match EmitInsn(i, pc)
      case None => None
      case Some(e) => Some(Finish(i, pc, e))
  }
}
