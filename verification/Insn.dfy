/** Decoded instructions: `insn_t` and `enum insn_type_t` of riscvemu.h, with
    the instruction types grouped by the handler macro they share. */
module Insn {
  type Reg = r: int | 0 <= r < 32

  /** Registers the emulator itself names. */
  const RA: Reg := 1
  const SP: Reg := 2
  const A0: Reg := 10
  const A1: Reg := 11

  datatype LoadOp = Lb | Lh | Lw | Ld | Lbu | Lhu | Lwu
  datatype StoreOp = Sb | Sh | Sw | Sd
  datatype ImmOp =
    | Addi | Slli | Slti | Sltiu | Xori | Srli | Srai | Ori | Andi
    | Addiw | Slliw | Srliw | Sraiw
  datatype RegOp =
    | Add | Sll | Slt | Sltu | Xor | Srl | Or | And | Sub | Sra
    | Mul | Mulh | Mulhsu | Mulhu | Div | Divu | Rem | Remu
    | Addw | Sllw | Srlw | Subw | Sraw | Mulw | Divw | Divuw | Remw | Remuw
  datatype BranchOp = Beq | Bne | Blt | Bge | Bltu | Bgeu
  datatype CsrOp = Csrrw | Csrrs | Csrrc | Csrrwi | Csrrsi | Csrrci

  /** Floating point: single or double, and the operations by result. */
  datatype Prec = Single | Double
  datatype FpArith = Fmadd | Fmsub | Fnmsub | Fnmadd | Fadd | Fsub | Fmul | Fdiv | Fmin | Fmax
  datatype FpCompare = Feq | Flt | Fle
  datatype FpSource = FromW | FromWu | FromL | FromLu
  datatype FpSign = Fsgnj | Fsgnjn | Fsgnjx
  datatype FpQuery = ToW | ToWu | ToL | ToLu | Fclass

  datatype InsnType =
    | Load(load: LoadOp)
    | Store(store: StoreOp)
    | Fence
    | FenceI
    | OpImm(imm: ImmOp)
    | Op(op: RegOp)
    | Auipc
    | Lui
    | Branch(branch: BranchOp)
    | Jalr
    | Jal
    | Ecall
    | Csr(csrOp: CsrOp)
    | FpLoad(prec: Prec)
    | FpStore(prec: Prec)
    | FpOp(arith: FpArith, prec: Prec)
    | FpCmp(cmp: FpCompare, prec: Prec)
    | FpFromInt(source: FpSource, prec: Prec)
    | FpToSingle                       // fcvt.s.d
    | FpToDouble                       // fcvt.d.s
    | FpMoveToInt(prec: Prec)          // fmv.x.w, fmv.x.d
    | FpMoveFromInt(prec: Prec)        // fmv.w.x, fmv.d.x
    | FpSqrt(prec: Prec)
    | FpSignOp(sign: FpSign, prec: Prec)
    | FpToInt(query: FpQuery, prec: Prec)

  datatype Insn = Insn(
    ty: InsnType, rd: Reg, rs1: Reg, rs2: Reg, rs3: Reg,
    imm: int, csr: int, rvc: bool, cont: bool)

  /** `insn_t insn = {0}`; the zero type is `insn_lb`. */
  const ZERO_INSN := Insn(Load(Lb), 0, 0, 0, 0, 0, 0, false, false)

  function InsnLength(i: Insn): int {
    if i.rvc then 2 else 4
  }

  /** The multiply-adds, the only operations with a third source. */
  predicate Fused(op: FpArith) {
    op.Fmadd? || op.Fmsub? || op.Fnmsub? || op.Fnmadd?
  }

  /** The handlers of codegen.c that leave the instruction to the interpreter. */
  predicate InterpOnly(ty: InsnType) {
    match ty
    case Op(op) => op.Mulh? || op.Mulhsu? || op.Mulhu?
    case FpSqrt(_) => true
    case FpSignOp(_, _) => true
    case FpToInt(_, _) => true
    case _ => false
  }
}
