/** The instruction listings for RV64I and RV64M in chapter 24 of the RISC-V
    Unprivileged ISA 20191213 as an assembler, and the proof that decode.c
    disassembles every instruction it produces. */
module Assembler {
  import opened Words
  import opened Insn
  import opened Decode
  import opened Encoding
  import opened Rvc

  const AUIPC: bv32 := 0x17

  /** An instruction in assembler terms: register numbers and immediate bits. */
  datatype Asm =
    | AsmR(op: RegOp, rd: bv32, rs1: bv32, rs2: bv32)
    | AsmI(imm: ImmOp, rd: bv32, rs1: bv32, value: bv32)
    | AsmLoad(load: LoadOp, rd: bv32, rs1: bv32, offset: bv32)
    | AsmStore(store: StoreOp, rs2: bv32, rs1: bv32, offset: bv32)
    | AsmBranch(branch: BranchOp, rs1: bv32, rs2: bv32, offset: bv32)
    | AsmLui(rd: bv32, value: bv32)
    | AsmAuipc(rd: bv32, value: bv32)
    | AsmJal(rd: bv32, offset: bv32)
    | AsmJalr(rd: bv32, rs1: bv32, offset: bv32)

  datatype Codes = Codes(f7: bv32, f3: bv32, opcode: bv32)

  /** Columns funct7, funct3 and opcode of the listings. */
  function RegCodes(op: RegOp): Codes {
    match op
    case Add => Codes(0x00, 0, OP)
    case Sub => Codes(0x20, 0, OP)
    case Sll => Codes(0x00, 1, OP)
    case Slt => Codes(0x00, 2, OP)
    case Sltu => Codes(0x00, 3, OP)
    case Xor => Codes(0x00, 4, OP)
    case Srl => Codes(0x00, 5, OP)
    case Sra => Codes(0x20, 5, OP)
    case Or => Codes(0x00, 6, OP)
    case And => Codes(0x00, 7, OP)
    case Addw => Codes(0x00, 0, OP_32)
    case Subw => Codes(0x20, 0, OP_32)
    case Sllw => Codes(0x00, 1, OP_32)
    case Srlw => Codes(0x00, 5, OP_32)
    case Sraw => Codes(0x20, 5, OP_32)
    case Mul => Codes(0x01, 0, OP)
    case Mulh => Codes(0x01, 1, OP)
    case Mulhsu => Codes(0x01, 2, OP)
    case Mulhu => Codes(0x01, 3, OP)
    case Div => Codes(0x01, 4, OP)
    case Divu => Codes(0x01, 5, OP)
    case Rem => Codes(0x01, 6, OP)
    case Remu => Codes(0x01, 7, OP)
    case Mulw => Codes(0x01, 0, OP_32)
    case Divw => Codes(0x01, 4, OP_32)
    case Divuw => Codes(0x01, 5, OP_32)
    case Remw => Codes(0x01, 6, OP_32)
    case Remuw => Codes(0x01, 7, OP_32)
  }

  /** For shifts, f7 holds the bits above the shift amount. */
  function ImmCodes(op: ImmOp): Codes {
    match op
    case Addi => Codes(0x00, 0, OP_IMM)
    case Slti => Codes(0x00, 2, OP_IMM)
    case Sltiu => Codes(0x00, 3, OP_IMM)
    case Xori => Codes(0x00, 4, OP_IMM)
    case Ori => Codes(0x00, 6, OP_IMM)
    case Andi => Codes(0x00, 7, OP_IMM)
    case Slli => Codes(0x00, 1, OP_IMM)
    case Srli => Codes(0x00, 5, OP_IMM)
    case Srai => Codes(0x20, 5, OP_IMM)
    case Addiw => Codes(0x00, 0, OP_IMM_32)
    case Slliw => Codes(0x00, 1, OP_IMM_32)
    case Srliw => Codes(0x00, 5, OP_IMM_32)
    case Sraiw => Codes(0x20, 5, OP_IMM_32)
  }

  predicate IsShift(op: ImmOp) {
    op.Slli? || op.Srli? || op.Srai?
  }

  predicate IsWordShift(op: ImmOp) {
    op.Slliw? || op.Srliw? || op.Sraiw?
  }

  function LoadCode(op: LoadOp): bv32 {
    match op
    case Lb => 0
    case Lh => 1
    case Lw => 2
    case Ld => 3
    case Lbu => 4
    case Lhu => 5
    case Lwu => 6
  }

  function StoreCode(op: StoreOp): bv32 {
    match op
    case Sb => 0
    case Sh => 1
    case Sw => 2
    case Sd => 3
  }

  function BranchCode(op: BranchOp): bv32 {
    match op
    case Beq => 0
    case Bne => 1
    case Blt => 4
    case Bge => 5
    case Bltu => 6
    case Bgeu => 7
  }

  /** The twelve immediate bits of a register-immediate instruction. */
  function ImmField(op: ImmOp, value: bv32): bv32 {
    if IsShift(op) || IsWordShift(op) then (ImmCodes(op).f7 << 5) | value else value
  }

  predicate ImmOk(op: ImmOp, value: bv32) {
    if IsShift(op) then value <= 63 else if IsWordShift(op) then value <= 31 else Fits(value, 12)
  }

  /** Registers exist and immediates are in range. */
  predicate Ok(a: Asm) {
    match a
    case AsmR(_, rd, rs1, rs2) => IsReg(rd) && IsReg(rs1) && IsReg(rs2)
    case AsmI(op, rd, rs1, v) => IsReg(rd) && IsReg(rs1) && ImmOk(op, v)
    case AsmLoad(_, rd, rs1, v) => IsReg(rd) && IsReg(rs1) && Fits(v, 12)
    case AsmStore(_, rs2, rs1, v) => IsReg(rs2) && IsReg(rs1) && Fits(v, 12)
    case AsmBranch(_, rs1, rs2, v) => IsReg(rs1) && IsReg(rs2) && Fits(v, 13) && v & 1 == 0
    case AsmLui(rd, v) => IsReg(rd) && v & 0xfff == 0
    case AsmAuipc(rd, v) => IsReg(rd) && v & 0xfff == 0
    case AsmJal(rd, v) => IsReg(rd) && Fits(v, 21) && v & 1 == 0
    case AsmJalr(rd, rs1, v) => IsReg(rd) && IsReg(rs1) && Fits(v, 12)
  }

  function Encode(a: Asm): bv32 {
    match a
    case AsmR(op, rd, rs1, rs2) => EncR(RegCodes(op).f7, rs2, rs1, RegCodes(op).f3, rd, RegCodes(op).opcode)
    case AsmI(op, rd, rs1, v) => EncI(ImmField(op, v), rs1, ImmCodes(op).f3, rd, ImmCodes(op).opcode)
    case AsmLoad(op, rd, rs1, v) => EncI(v, rs1, LoadCode(op), rd, LOAD)
    case AsmStore(op, rs2, rs1, v) => EncS(v, rs2, rs1, StoreCode(op), STORE)
    case AsmBranch(op, rs1, rs2, v) => EncB(v, rs2, rs1, BranchCode(op), BRANCH)
    case AsmLui(rd, v) => EncU(v, rd, LUI)
    case AsmAuipc(rd, v) => EncU(v, rd, AUIPC)
    case AsmJal(rd, v) => EncJ(v, rd, JAL)
    case AsmJalr(rd, rs1, v) => EncI(v, rs1, 0, rd, JALR)
  }

  /** The record decode.c is to fill in. */
  function Meaning(a: Asm): Insn {
    match a
    case AsmR(op, rd, rs1, rs2) =>
      ZERO_INSN.(ty := Op(op), rd := RegField(rd), rs1 := RegField(rs1), rs2 := RegField(rs2))
    case AsmI(op, rd, rs1, v) =>
      ZERO_INSN.(ty := OpImm(op), rd := RegField(rd), rs1 := RegField(rs1), imm := Signed(ImmField(op, v)))
    case AsmLoad(op, rd, rs1, v) =>
      ZERO_INSN.(ty := Load(op), rd := RegField(rd), rs1 := RegField(rs1), imm := Signed(v))
    case AsmStore(op, rs2, rs1, v) =>
      ZERO_INSN.(ty := Store(op), rs1 := RegField(rs1), rs2 := RegField(rs2), imm := Signed(v))
    case AsmBranch(op, rs1, rs2, v) =>
      ZERO_INSN.(ty := Branch(op), rs1 := RegField(rs1), rs2 := RegField(rs2), imm := Signed(v))
    case AsmLui(rd, v) => ZERO_INSN.(ty := Lui, rd := RegField(rd), imm := Signed(v))
    case AsmAuipc(rd, v) => ZERO_INSN.(ty := Auipc, rd := RegField(rd), imm := Signed(v))
    case AsmJal(rd, v) => ZERO_INSN.(ty := Jal, rd := RegField(rd), imm := Signed(v), cont := true)
    case AsmJalr(rd, rs1, v) =>
      ZERO_INSN.(ty := Jalr, rd := RegField(rd), rs1 := RegField(rs1), imm := Signed(v), cont := true)
  }

  predicate Disassembles(prev: Insn, a: Asm) {
    InsnDecode(prev, Encode(a)) == Some(Meaning(a))
  }

  lemma {:induction false} Registers(prev: Insn, a: Asm)
    requires Ok(a) && a.AsmR?
    ensures Disassembles(prev, a)
  {
    hide EncR, Opcode, Funct3, Funct7, Rs1Bits, Rs2Bits, RdBits, RegField, RegCodes, RegOpOf, RegWOpOf;
    var k := RegCodes(a.op);
    RegCodesOk(a.op);
    RoundTripR(k.f7, a.rs2, a.rs1, k.f3, a.rd, k.opcode);
    RegOpFound(a.op, EncR(k.f7, a.rs2, a.rs1, k.f3, a.rd, k.opcode));
  }

  lemma {:induction false} RegCodesOk(op: RegOp)
    ensures var k := RegCodes(op); k.f7 <= 0x7f && k.f3 <= 7 && (k.opcode == OP || k.opcode == OP_32)
  {
    hide RegCodes;
    BaseCodes(op);
    MultiplyCodes(op);
  }

  predicate IsMultiply(op: RegOp) {
    op.Mul? || op.Mulh? || op.Mulhsu? || op.Mulhu? || op.Div? || op.Divu? || op.Rem? || op.Remu?
    || op.Mulw? || op.Divw? || op.Divuw? || op.Remw? || op.Remuw?
  }

  predicate IsWord(op: RegOp) {
    op.Addw? || op.Subw? || op.Sllw? || op.Srlw? || op.Sraw?
    || op.Mulw? || op.Divw? || op.Divuw? || op.Remw? || op.Remuw?
  }

  predicate SmallFunct3(f: bv32) {
    f == 0 || f == 1 || f == 2 || f == 3 || f == 4 || f == 5 || f == 6 || f == 7
  }

  lemma {:induction false} BaseCodes(op: RegOp)
    ensures var k := RegCodes(op);
            !IsMultiply(op) ==>
              (k.f7 == 0 || k.f7 == 0x20) && SmallFunct3(k.f3) && k.opcode == if IsWord(op) then OP_32 else OP
  {
  }

  lemma {:induction false} MultiplyCodes(op: RegOp)
    ensures var k := RegCodes(op);
            IsMultiply(op) ==> k.f7 == 1 && SmallFunct3(k.f3) && k.opcode == if IsWord(op) then OP_32 else OP
  {
  }

  /** The codes of op, found in w, select op. */
  lemma {:induction false} RegOpFound(op: RegOp, w: bv32)
    requires Funct7(w) == RegCodes(op).f7 && Funct3(w) == RegCodes(op).f3
    ensures RegCodes(op).opcode == OP ==> RegOpOf(w) == Some(op)
    ensures RegCodes(op).opcode == OP_32 ==> RegWOpOf(w) == Some(op)
  {
    hide Funct7, Funct3, RegCodes, RegOpOf, RegWOpOf;
    BaseCodes(op);
    MultiplyCodes(op);
    if IsWord(op) && IsMultiply(op) {
      MultiplyWordFound(op, w);
    } else if IsWord(op) {
      BaseWordFound(op, w);
    } else if IsMultiply(op) {
      MultiplyFound(op, w);
    } else {
      BaseFound(op, w);
    }
  }

  lemma {:induction false} BaseFound(op: RegOp, w: bv32)
    requires !IsWord(op) && !IsMultiply(op) && Funct7(w) == RegCodes(op).f7 && Funct3(w) == RegCodes(op).f3
    ensures RegOpOf(w) == Some(op)
  {
    hide Funct7, Funct3;
  }

  lemma {:induction false} MultiplyFound(op: RegOp, w: bv32)
    requires !IsWord(op) && IsMultiply(op) && Funct7(w) == RegCodes(op).f7 && Funct3(w) == RegCodes(op).f3
    ensures RegOpOf(w) == Some(op)
  {
    hide Funct7, Funct3;
  }

  lemma {:induction false} BaseWordFound(op: RegOp, w: bv32)
    requires IsWord(op) && !IsMultiply(op) && Funct7(w) == RegCodes(op).f7 && Funct3(w) == RegCodes(op).f3
    ensures RegWOpOf(w) == Some(op)
  {
    hide Funct7, Funct3;
  }

  lemma {:induction false} MultiplyWordFound(op: RegOp, w: bv32)
    requires IsWord(op) && IsMultiply(op) && Funct7(w) == RegCodes(op).f7 && Funct3(w) == RegCodes(op).f3
    ensures RegWOpOf(w) == Some(op)
  {
    hide Funct7, Funct3;
  }

  lemma {:induction false} Immediates(prev: Insn, a: Asm)
    requires Ok(a) && a.AsmI?
    ensures Disassembles(prev, a)
  {
    hide EncI, Opcode, Funct3, Funct7, IImm, Rs1Bits, RdBits, RegField, Signed, Imm116, Encoding.Fits, ImmField,
      ImmCodes, ImmOpOf, ImmWOpOf;
    var k, v := ImmCodes(a.imm), ImmField(a.imm, a.value);
    ImmCodesOk(a.imm);
    FieldFits(a.imm, a.value);
    RoundTripI(v, a.rs1, k.f3, a.rd, k.opcode);
    if IsShift(a.imm) || IsWordShift(a.imm) {
      ShiftBits(a.imm, a.value, a.rs1, a.rd);
    }
    ImmOpFound(a.imm, EncI(v, a.rs1, k.f3, a.rd, k.opcode));
  }

  lemma {:induction false} ImmCodesOk(op: ImmOp)
    ensures var k := ImmCodes(op); k.f3 <= 7 && (k.opcode == OP_IMM || k.opcode == OP_IMM_32)
  {
    hide ImmCodes;
    ImmFunctions(op);
  }

  lemma {:induction false} ImmFunctions(op: ImmOp)
    ensures var k := ImmCodes(op);
            (k.f7 == 0 || k.f7 == 0x20) && SmallFunct3(k.f3) && (k.opcode == OP_IMM || k.opcode == OP_IMM_32)
  {
  }

  lemma {:induction false} ImmOpFound(op: ImmOp, w: bv32)
    requires Funct3(w) == ImmCodes(op).f3
    requires IsShift(op) ==> Imm116(w) == ImmCodes(op).f7 >> 1
    requires IsWordShift(op) ==> Funct7(w) == ImmCodes(op).f7
    ensures ImmCodes(op).opcode == OP_IMM ==> ImmOpOf(w) == Some(op)
    ensures ImmCodes(op).opcode == OP_IMM_32 ==> ImmWOpOf(w) == Some(op)
  {
    hide Funct7, Funct3, Imm116;
  }

  lemma {:induction false} FieldFits(op: ImmOp, value: bv32)
    requires ImmOk(op, value)
    ensures Fits(ImmField(op, value), 12)
  {
    hide Encoding.Fits, ImmCodes;
    if IsShift(op) || IsWordShift(op) {
      ImmFunctions(op);
      FieldBits(ImmCodes(op).f7, value);
      ShiftAmountFits(ImmField(op, value));
    }
  }

  /** The function bits above a shift amount, as the decoder reads them. */
  lemma {:induction false} ShiftBits(op: ImmOp, value: bv32, rs1: bv32, rd: bv32)
    requires ImmOk(op, value) && (IsShift(op) || IsWordShift(op)) && IsReg(rs1) && IsReg(rd)
    ensures var k := ImmCodes(op);
            var w := EncI(ImmField(op, value), rs1, k.f3, rd, k.opcode);
            Imm116(w) == k.f7 >> 1 && (IsWordShift(op) ==> Funct7(w) == k.f7)
  {
    hide EncI, Imm116, Funct7, ImmCodes;
    var k := ImmCodes(op);
    ImmFunctions(op);
    ImmCodesOk(op);
    FieldBits(k.f7, value);
    RoundTripShift(ImmField(op, value), rs1, k.f3, rd, k.opcode);
    TopSeven(ImmField(op, value), rs1, k.f3, rd, k.opcode);
  }

  lemma {:induction false} FieldBits(f7: bv32, value: bv32)
    requires (f7 == 0 || f7 == 0x20) && value <= 63
    ensures var v := (f7 << 5) | value; v <= 0x7ff && v >> 6 == f7 >> 1 && (value <= 31 ==> v >> 5 == f7)
  {
  }

  lemma {:induction false} TopSeven(imm: bv32, rs1: bv32, f3: bv32, rd: bv32, op: bv32)
    requires imm <= 0x7ff && f3 <= 7 && IsReg(rs1) && IsReg(rd) && IsOpcode(op)
    ensures Funct7(EncI(imm, rs1, f3, rd, op)) == imm >> 5
  {
  }

  lemma {:induction false} Memory(prev: Insn, a: Asm)
    requires Ok(a) && (a.AsmLoad? || a.AsmStore?)
    ensures Disassembles(prev, a)
  {
    hide EncI, EncS, Opcode, Funct3, Funct7, IImm, SImm, Rs1Bits, Rs2Bits, RdBits, RegField, Signed, Imm116,
      Encoding.Fits;
    if a.AsmLoad? {
      RoundTripI(a.offset, a.rs1, LoadCode(a.load), a.rd, LOAD);
    } else {
      RoundTripS(a.offset, a.rs2, a.rs1, StoreCode(a.store), STORE);
    }
  }

  lemma {:induction false} Control(prev: Insn, a: Asm)
    requires Ok(a) && (a.AsmBranch? || a.AsmJal? || a.AsmJalr?)
    ensures Disassembles(prev, a)
  {
    hide EncI, EncB, EncJ, Opcode, Funct3, Funct7, IImm, BImm, JImm, Rs1Bits, Rs2Bits, RdBits, RegField, Signed, Imm116,
      Encoding.Fits;
    if a.AsmBranch? {
      RoundTripB(a.offset, a.rs2, a.rs1, BranchCode(a.branch), BRANCH);
    } else if a.AsmJal? {
      RoundTripJ(a.offset, a.rd, JAL);
    } else {
      RoundTripI(a.offset, a.rs1, 0, a.rd, JALR);
    }
  }

  lemma {:induction false} Upper(prev: Insn, a: Asm)
    requires Ok(a) && (a.AsmLui? || a.AsmAuipc?)
    ensures Disassembles(prev, a)
  {
    hide EncU, Opcode, UImm, RdBits, RegField, Signed;
    RoundTripU(a.value, a.rd, if a.AsmLui? then LUI else AUIPC);
  }

  /** Every integer instruction of the listings, with every register choice and
      every immediate in range, decodes to itself. */
  lemma {:induction false} RoundTrip(prev: Insn, a: Asm)
    requires Ok(a)
    ensures Disassembles(prev, a)
  {
    hide Disassembles, Ok;
    match a
    case AsmR(_, _, _, _) => Registers(prev, a);
    case AsmI(_, _, _, _) => Immediates(prev, a);
    case AsmLoad(_, _, _, _) => Memory(prev, a);
    case AsmStore(_, _, _, _) => Memory(prev, a);
    case AsmBranch(_, _, _, _) => Control(prev, a);
    case AsmJal(_, _) => Control(prev, a);
    case AsmJalr(_, _, _) => Control(prev, a);
    case AsmLui(_, _) => Upper(prev, a);
    case AsmAuipc(_, _) => Upper(prev, a);
  }
}
