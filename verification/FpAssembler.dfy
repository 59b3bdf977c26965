/** The listings for the F and D extensions, control registers, fences and
    `ecall` in chapter 24 of the RISC-V Unprivileged ISA 20191213 as an
    assembler, and the proof that decode.c disassembles what it produces. */
module FpAssembler {
  import opened Words
  import opened Insn
  import opened Decode
  import opened Encoding
  import opened Rvc

  const OP_FP: bv32 := 0x53
  const MADD: bv32 := 0x43
  const MSUB: bv32 := 0x47
  const NMSUB: bv32 := 0x4b
  const NMADD: bv32 := 0x4f
  const MISC_MEM: bv32 := 0x0f
  const SYSTEM: bv32 := 0x73

  /** Registers are numbers; rm is the rounding mode of operations that have
      one, rs2 the second source of operations that have one. */
  datatype Asm =
    | AsmFp(t: InsnType, rm: bv32, rd: bv32, rs1: bv32, rs2: bv32)
    | AsmFused(op: FpArith, prec: Prec, rm: bv32, rd: bv32, rs1: bv32, rs2: bv32, rs3: bv32)
    | AsmFpLoad(prec: Prec, rd: bv32, rs1: bv32, offset: bv32)
    | AsmFpStore(prec: Prec, rs2: bv32, rs1: bv32, offset: bv32)
    | AsmCsr(csrOp: CsrOp, rd: bv32, rs1: bv32, csr: bv32)
    | AsmFence(order: bv32, rd: bv32, rs1: bv32)
    | AsmFenceI(imm: bv32, rd: bv32, rs1: bv32)
    | AsmEcall

  function Fmt(p: Prec): bv32 {
    if p.Single? then 0 else 1
  }

  /** Columns funct5 and fmt, rm and rs2 of the listings; f6 is funct5 and the
      upper, zero bit of fmt. */
  datatype Row = Row(f6: bv32, prec: Prec, rm: bv32, rs2: bv32)

  function Funct7Of(row: Row): bv32 {
    (row.f6 << 1) | Fmt(row.prec)
  }

  /** The operations under opcode OP-FP. */
  predicate InOpFp(t: InsnType) {
    (t.FpOp? && !Fused(t.arith)) || t.FpSignOp? || t.FpCmp? || t.FpFromInt? || t.FpToInt?
    || t.FpToSingle? || t.FpToDouble? || t.FpMoveToInt? || t.FpMoveFromInt? || t.FpSqrt?
  }

  function ArithCode(op: FpArith): bv32 {
    match op
    case Fadd => 0x00
    case Fsub => 0x02
    case Fmul => 0x04
    case Fdiv => 0x06
    case Fmin => 0x0a
    case Fmax => 0x0a
    case _ => 0
  }

  function ArithMode(op: FpArith, rm: bv32): bv32 {
    match op
    case Fmin => 0
    case Fmax => 1
    case _ => rm
  }

  function SignMode(op: FpSign): bv32 {
    match op
    case Fsgnj => 0
    case Fsgnjn => 1
    case Fsgnjx => 2
  }

  function CompareMode(op: FpCompare): bv32 {
    match op
    case Fle => 0
    case Flt => 1
    case Feq => 2
  }

  function SourceCode(source: FpSource): bv32 {
    match source
    case FromW => 0
    case FromWu => 1
    case FromL => 2
    case FromLu => 3
  }

  function QueryCode(query: FpQuery): bv32 {
    match query
    case ToW => 0
    case ToWu => 1
    case ToL => 2
    case ToLu => 3
    case Fclass => 0
  }

  function RowOf(t: InsnType, rm: bv32, rs2: bv32): Row
    requires InOpFp(t)
  {
    match t
    case FpOp(op, p) => Row(ArithCode(op), p, ArithMode(op, rm), rs2)
    case FpSignOp(op, p) => Row(0x08, p, SignMode(op), rs2)
    case FpToSingle => Row(0x10, Single, rm, 1)
    case FpToDouble => Row(0x10, Double, rm, 0)
    case FpSqrt(p) => Row(0x16, p, rm, 0)
    case FpCmp(op, p) => Row(0x28, p, CompareMode(op), rs2)
    case FpToInt(q, p) => if q.Fclass? then Row(0x38, p, 1, 0) else Row(0x30, p, rm, QueryCode(q))
    case FpFromInt(source, p) => Row(0x34, p, rm, SourceCode(source))
    case FpMoveToInt(p) => Row(0x38, p, 0, 0)
    case FpMoveFromInt(p) => Row(0x3c, p, 0, 0)
  }

  function FusedCode(op: FpArith): bv32
    requires Fused(op)
  {
    match op
    case Fmadd => MADD
    case Fmsub => MSUB
    case Fnmsub => NMSUB
    case Fnmadd => NMADD
  }

  function CsrCode(op: CsrOp): bv32 {
    match op
    case Csrrw => 1
    case Csrrs => 2
    case Csrrc => 3
    case Csrrwi => 5
    case Csrrsi => 6
    case Csrrci => 7
  }

  predicate Ok(a: Asm) {
    match a
    case AsmFp(t, rm, rd, rs1, rs2) => InOpFp(t) && rm <= 7 && IsReg(rd) && IsReg(rs1) && IsReg(rs2)
    case AsmFused(op, _, rm, rd, rs1, rs2, rs3) =>
      Fused(op) && rm <= 7 && IsReg(rd) && IsReg(rs1) && IsReg(rs2) && IsReg(rs3)
    case AsmFpLoad(_, rd, rs1, v) => IsReg(rd) && IsReg(rs1) && Fits(v, 12)
    case AsmFpStore(_, rs2, rs1, v) => IsReg(rs2) && IsReg(rs1) && Fits(v, 12)
    case AsmCsr(_, rd, rs1, csr) => IsReg(rd) && IsReg(rs1) && csr <= 0xfff
    case AsmFence(order, rd, rs1) => IsReg(rd) && IsReg(rs1) && Fits(order, 12)
    case AsmFenceI(imm, rd, rs1) => IsReg(rd) && IsReg(rs1) && Fits(imm, 12)
    case AsmEcall => true
  }

  function Encode(a: Asm): bv32
    requires Ok(a)
  {
    match a
    case AsmFp(t, rm, rd, rs1, rs2) =>
      var row := RowOf(t, rm, rs2);
      EncR(Funct7Of(row), row.rs2, rs1, row.rm, rd, OP_FP)
    case AsmFused(op, p, rm, rd, rs1, rs2, rs3) => EncR(ThirdFunct7(rs3, p), rs2, rs1, rm, rd, FusedCode(op))
    case AsmFpLoad(p, rd, rs1, v) => EncI(v, rs1, 2 + Fmt(p), rd, LOAD_FP)
    case AsmFpStore(p, rs2, rs1, v) => EncS(v, rs2, rs1, 2 + Fmt(p), STORE_FP)
    case AsmCsr(op, rd, rs1, csr) => EncI(csr, rs1, CsrCode(op), rd, SYSTEM)
    case AsmFence(order, rd, rs1) => EncI(order, rs1, 0, rd, MISC_MEM)
    case AsmFenceI(imm, rd, rs1) => EncI(imm, rs1, 1, rd, MISC_MEM)
    case AsmEcall => SYSTEM
  }

  /** The record decode.c is to fill in; `ecall` keeps the other fields of the
      record as they were. */
  function Meaning(prev: Insn, a: Asm): Insn
    requires Ok(a)
  {
    match a
    case AsmFp(t, rm, rd, rs1, rs2) =>
      ZERO_INSN.(ty := t, rd := RegField(rd), rs1 := RegField(rs1), rs2 := RegField(RowOf(t, rm, rs2).rs2))
    case AsmFused(op, p, rm, rd, rs1, rs2, rs3) =>
      ZERO_INSN.(ty := FpOp(op, p), rd := RegField(rd), rs1 := RegField(rs1), rs2 := RegField(rs2),
                 rs3 := RegField(rs3))
    case AsmFpLoad(p, rd, rs1, v) =>
      ZERO_INSN.(ty := FpLoad(p), rd := RegField(rd), rs1 := RegField(rs1), imm := Signed(v))
    case AsmFpStore(p, rs2, rs1, v) =>
      ZERO_INSN.(ty := FpStore(p), rs1 := RegField(rs1), rs2 := RegField(rs2), imm := Signed(v))
    case AsmCsr(op, rd, rs1, csr) =>
      ZERO_INSN.(ty := Csr(op), rd := RegField(rd), rs1 := RegField(rs1), csr := csr as int)
    case AsmFence(_, _, _) => ZERO_INSN.(ty := Fence)
    case AsmFenceI(_, _, _) => ZERO_INSN.(ty := FenceI)
    case AsmEcall => prev.(ty := Ecall, cont := true)
  }

  predicate Disassembles(prev: Insn, a: Asm)
    requires Ok(a)
  {
    InsnDecode(prev, Encode(a)) == Some(Meaning(prev, a))
  }

  /** What the decoder looks at in a word of this row. */
  predicate HasRow(w: bv32, row: Row) {
    && Funct7(w) >> 1 == row.f6 && PrecOf(Funct7(w)) == row.prec
    && Funct3(w) == row.rm && Rs2Bits(w) == row.rs2
  }

  lemma {:induction false} OperationFound(t: InsnType, rm: bv32, rs2: bv32, w: bv32)
    requires t.FpOp? && !Fused(t.arith) && HasRow(w, RowOf(t, rm, rs2))
    ensures FpTypeOf(w) == Some(t)
  {
    hide Funct7, Funct3, PrecOf;
    match t.arith
    case Fadd => assert Funct7(w) >> 1 == 0x00;
    case Fsub => assert Funct7(w) >> 1 == 0x02;
    case Fmul => assert Funct7(w) >> 1 == 0x04;
    case Fdiv => assert Funct7(w) >> 1 == 0x06;
    case Fmin => assert Funct7(w) >> 1 == 0x0a && Funct3(w) == 0;
    case Fmax => assert Funct7(w) >> 1 == 0x0a && Funct3(w) == 1;
  }

  lemma {:induction false} CompareFound(t: InsnType, rm: bv32, rs2: bv32, w: bv32)
    requires (t.FpSignOp? || t.FpCmp?) && HasRow(w, RowOf(t, rm, rs2))
    ensures FpTypeOf(w) == Some(t)
  {
    hide Funct7, Funct3, PrecOf;
  }

  lemma {:induction false} IntegerFound(t: InsnType, rm: bv32, rs2: bv32, w: bv32)
    requires (t.FpFromInt? || t.FpToInt?) && HasRow(w, RowOf(t, rm, rs2))
    ensures FpTypeOf(w) == Some(t)
  {
    hide Funct7, Funct3, PrecOf;
  }

  lemma {:induction false} MoveFound(t: InsnType, rm: bv32, rs2: bv32, w: bv32)
    requires t.FpToSingle? || t.FpToDouble? || t.FpMoveToInt? || t.FpMoveFromInt? || t.FpSqrt?
    requires HasRow(w, RowOf(t, rm, rs2))
    ensures FpTypeOf(w) == Some(t)
  {
    hide Funct7, Funct3, PrecOf;
  }

  predicate SmallRow(row: Row) {
    row.f6 <= 0x3f && row.rm <= 7 && IsReg(row.rs2)
  }

  lemma {:induction false} SmallCodes(op: FpArith, rm: bv32, sign: FpSign, cmp: FpCompare, source: FpSource, q: FpQuery)
    requires rm <= 7
    ensures ArithCode(op) <= 0x3f && ArithMode(op, rm) <= 7 && SignMode(sign) <= 7 && CompareMode(cmp) <= 7
    ensures SourceCode(source) <= 31 && QueryCode(q) <= 31
  {
  }

  lemma {:induction false} FormatBits(row: Row)
    requires row.f6 <= 0x3f
    ensures Funct7Of(row) <= 0x7f && Funct7Of(row) >> 1 == row.f6 && PrecOf(Funct7Of(row)) == row.prec
  {
    var fmt := Fmt(row.prec);
    assert fmt <= 1;
    assert ((row.f6 << 1) | fmt) & 1 == fmt;
  }

  lemma {:induction false} Arithmetic(prev: Insn, a: Asm)
    requires Ok(a) && a.AsmFp?
    ensures Disassembles(prev, a)
  {
    hide EncR, Opcode, Funct3, Funct7, Rs1Bits, Rs2Bits, RdBits, RegField, RowOf, FpTypeOf, Funct7Of, PrecOf;
    var row := RowOf(a.t, a.rm, a.rs2);
    var w := EncR(Funct7Of(row), row.rs2, a.rs1, row.rm, a.rd, OP_FP);
    RowOk(a.t, a.rm, a.rs2);
    FormatBits(row);
    RoundTripR(Funct7Of(row), row.rs2, a.rs1, row.rm, a.rd, OP_FP);
    TypeFound(a.t, a.rm, a.rs2, w);
    assert InsnDecode(prev, w) == Some(RType(a.t, w));
  }

  lemma {:induction false} RowOk(t: InsnType, rm: bv32, rs2: bv32)
    requires InOpFp(t) && rm <= 7 && IsReg(rs2)
    ensures SmallRow(RowOf(t, rm, rs2))
  {
    hide ArithCode, ArithMode, SignMode, CompareMode, SourceCode, QueryCode;
    SmallCodes(if t.FpOp? then t.arith else Fadd, rm, if t.FpSignOp? then t.sign else Fsgnj,
               if t.FpCmp? then t.cmp else Fle, if t.FpFromInt? then t.source else FromW,
               if t.FpToInt? then t.query else ToW);
  }

  lemma {:induction false} TypeFound(t: InsnType, rm: bv32, rs2: bv32, w: bv32)
    requires InOpFp(t) && HasRow(w, RowOf(t, rm, rs2))
    ensures FpTypeOf(w) == Some(t)
  {
    hide HasRow, RowOf, FpTypeOf;
    if t.FpOp? {
      OperationFound(t, rm, rs2, w);
    } else if t.FpSignOp? || t.FpCmp? {
      CompareFound(t, rm, rs2, w);
    } else if t.FpFromInt? || t.FpToInt? {
      IntegerFound(t, rm, rs2, w);
    } else {
      MoveFound(t, rm, rs2, w);
    }
  }

  /** The third source and the format in the bits of funct7. */
  lemma {:induction false} ThirdSource(rs3: bv32, fmt: bv32, rs2: bv32, rs1: bv32, f3: bv32, rd: bv32, op: bv32)
    requires IsReg(rs3) && fmt <= 1 && IsReg(rs2) && IsReg(rs1) && f3 <= 7 && IsReg(rd) && IsOpcode(op)
    ensures var w := EncR((rs3 << 2) | fmt, rs2, rs1, f3, rd, op);
            w >> 27 == rs3 && Funct2(w) == fmt && (rs3 << 2) | fmt <= 0x7f
  {
  }

  lemma {:induction false} FusedFound(prev: Insn, op: FpArith, p: Prec, w: bv32)
    requires Fused(op) && w & 3 == 3 && Opcode(w) == FusedCode(op) >> 2 && Funct2(w) == Fmt(p)
    ensures InsnDecode(prev, w) == Some(FprType(FpOp(op, p), w))
  {
    hide Opcode, Funct2, Funct3, Rd, Rs1, Rs2, Rs3, FpTypeOf, Quadrant0, Quadrant1, Quadrant2;
  }

  lemma {:induction false} FusedOpcode(op: FpArith)
    requires Fused(op)
    ensures IsOpcode(FusedCode(op))
  {
  }

  function ThirdFunct7(rs3: bv32, p: Prec): bv32 {
    (rs3 << 2) | Fmt(p)
  }

  lemma {:induction false} FusedFields(op: FpArith, p: Prec, rm: bv32, rd: bv32, rs1: bv32, rs2: bv32, rs3: bv32)
    requires Fused(op) && rm <= 7 && IsReg(rd) && IsReg(rs1) && IsReg(rs2) && IsReg(rs3)
    ensures var w := EncR(ThirdFunct7(rs3, p), rs2, rs1, rm, rd, FusedCode(op));
            && w & 3 == 3 && Opcode(w) == FusedCode(op) >> 2 && Funct2(w) == Fmt(p)
            && w >> 27 == rs3 && Rs1Bits(w) == rs1 && Rs2Bits(w) == rs2 && RdBits(w) == rd
  {
    hide EncR, Opcode, Funct2, Funct3, Funct7, Rs1Bits, Rs2Bits, RdBits, FusedCode, IsOpcode, Fmt;
    FusedOpcode(op);
    FmtSmall(p);
    ThirdSource(rs3, Fmt(p), rs2, rs1, rm, rd, FusedCode(op));
    RoundTripR(ThirdFunct7(rs3, p), rs2, rs1, rm, rd, FusedCode(op));
  }

  lemma {:induction false} MultiplyAdd(prev: Insn, a: Asm)
    requires Ok(a) && a.AsmFused?
    ensures Disassembles(prev, a)
  {
    hide EncR, Opcode, Funct2, Rs1Bits, Rs2Bits, RdBits, RegField, FusedCode, InsnDecode, ThirdFunct7, Fmt;
    FusedFields(a.op, a.prec, a.rm, a.rd, a.rs1, a.rs2, a.rs3);
    FusedFound(prev, a.op, a.prec, Encode(a));
  }

  lemma {:induction false} FmtSmall(p: Prec)
    ensures Fmt(p) <= 1
  {
  }

  lemma {:induction false} Memory(prev: Insn, a: Asm)
    requires Ok(a) && (a.AsmFpLoad? || a.AsmFpStore?)
    ensures Disassembles(prev, a)
  {
    hide EncI, EncS, Opcode, Funct3, Funct7, IImm, SImm, Rs1Bits, Rs2Bits, RdBits, RegField, Signed, Encoding.Fits;
    if a.AsmFpLoad? {
      RoundTripI(a.offset, a.rs1, 2 + Fmt(a.prec), a.rd, LOAD_FP);
    } else {
      RoundTripS(a.offset, a.rs2, a.rs1, 2 + Fmt(a.prec), STORE_FP);
    }
  }

  /** The control register number in the upper twelve bits. */
  lemma {:induction false} CsrField(csr: bv32, rs1: bv32, f3: bv32, rd: bv32)
    requires csr <= 0xfff && IsReg(rs1) && 1 <= f3 <= 7 && IsReg(rd)
    ensures var w := EncI(csr, rs1, f3, rd, SYSTEM);
            w & 3 == 3 && w >> 20 == csr && w != SYSTEM && Opcode(w) == 0x1c && Funct3(w) == f3
            && Rs1Bits(w) == rs1 && RdBits(w) == rd
  {
  }

  lemma {:induction false} CsrFound(op: CsrOp)
    ensures 1 <= CsrCode(op) <= 7 && CsrOpOf(CsrCode(op)) == Some(op)
  {
  }

  lemma {:induction false} ControlRegister(prev: Insn, a: Asm)
    requires Ok(a) && a.AsmCsr?
    ensures Disassembles(prev, a)
  {
    hide EncI, Opcode, Funct3, Rs1Bits, RdBits, RegField, CsrCode, CsrOpOf;
    CsrFound(a.csrOp);
    CsrField(a.csr, a.rs1, CsrCode(a.csrOp), a.rd);
  }

  lemma {:induction false} Ordering(prev: Insn, a: Asm)
    requires Ok(a) && (a.AsmFence? || a.AsmFenceI? || a.AsmEcall?)
    ensures Disassembles(prev, a)
  {
    hide EncI, Opcode, Funct3, IImm, Rs1Bits, RdBits, RegField, Encoding.Fits;
    match a
    case AsmFence(order, rd, rs1) => RoundTripI(order, rs1, 0, rd, MISC_MEM);
    case AsmFenceI(imm, rd, rs1) => RoundTripI(imm, rs1, 1, rd, MISC_MEM);
    case AsmEcall => EcallOpcode();
  }

  lemma {:induction false} EcallOpcode()
    ensures Opcode(SYSTEM) == 0x1c && SYSTEM & 3 == 3
  {
  }

  /** Every listed instruction, with every register choice, rounding mode,
      offset and control register in range, decodes to itself. */
  lemma {:induction false} RoundTrip(prev: Insn, a: Asm)
    requires Ok(a)
    ensures Disassembles(prev, a)
  {
    hide Disassembles, Ok;
    match a
    case AsmFp(_, _, _, _, _) => Arithmetic(prev, a);
    case AsmFused(_, _, _, _, _, _, _) => MultiplyAdd(prev, a);
    case AsmFpLoad(_, _, _, _) => Memory(prev, a);
    case AsmFpStore(_, _, _, _) => Memory(prev, a);
    case AsmCsr(_, _, _, _) => ControlRegister(prev, a);
    case AsmFence(_, _, _) => Ordering(prev, a);
    case AsmFenceI(_, _, _) => Ordering(prev, a);
    case AsmEcall => Ordering(prev, a);
  }
}
