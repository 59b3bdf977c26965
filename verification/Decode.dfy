/** Instruction decoding, decode.c: field extraction on 32-bit words and the
    decision tree of `insn_decode`. None stands for `fatal`, `unreachable` or a
    failed `assert`. */
module Decode {
  import opened Words
  import opened Insn

  // ----- fields -----

  function RegField(b: bv32): Reg {
    (b & 0x1f) as int
  }

  /** A three-bit register field plus 8. */
  function ShortReg(b: bv32): Reg {
    (b & 0x7) as int + 8
  }

  /** The value of a 32-bit word read as `i32`, split at bits 0 and 6. */
  function Signed(b: bv32): (v: int)
    ensures -TWO31 <= v < TWO31
  {
    var v := LowSix(b) + 64 * High(b);
    if b & 0x8000_0000 == 0 then v else v - 0x8000_0000
  }

  function LowSix(b: bv32): (v: int)
    ensures 0 <= v < 64
  {
    var mid := ((b >> 1) & 0x1f) as bv5;
    (if b & 1 == 1 then 1 else 0) + 2 * mid as int
  }

  function High(b: bv32): (v: int)
    ensures 0 <= v < 0x200_0000
  {
    var high := ((b >> 6) & 0x1ff_ffff) as bv25;
    high as int
  }

  /** `(i32)b >> k`. */
  function AShr(b: bv32, k: bv6): bv32
    requires k <= 31
  {
    if b & 0x8000_0000 == 0 then b >> k else !(!b >> k)
  }

  function RdBits(d: bv32): bv32 { (d >> 7) & 0x1f }
  function Rs1Bits(d: bv32): bv32 { (d >> 15) & 0x1f }
  function Rs2Bits(d: bv32): bv32 { (d >> 20) & 0x1f }
  function Rd(d: bv32): Reg { RegField(RdBits(d)) }
  function Rs1(d: bv32): Reg { RegField(Rs1Bits(d)) }
  function Rs2(d: bv32): Reg { RegField(Rs2Bits(d)) }
  function Rs3(d: bv32): Reg { RegField(d >> 27) }
  function Opcode(d: bv32): bv32 { (d >> 2) & 0x1f }
  function Funct2(d: bv32): bv32 { (d >> 25) & 0x3 }
  function Funct3(d: bv32): bv32 { (d >> 12) & 0x7 }
  function Funct7(d: bv32): bv32 { (d >> 25) & 0x7f }
  function Imm116(d: bv32): bv32 { (d >> 26) & 0x3f }

  // ----- 32-bit formats -----

  function UImm(d: bv32): bv32 {
    d & 0xffff_f000
  }

  function IImm(d: bv32): bv32 {
    AShr(d, 20)
  }

  function JImm(d: bv32): bv32 {
    var imm20, imm101 := (d >> 31) & 0x1, (d >> 21) & 0x3ff;
    var imm11, imm1912 := (d >> 20) & 0x1, (d >> 12) & 0xff;
    AShr(((imm20 << 20) | (imm1912 << 12) | (imm11 << 11) | (imm101 << 1)) << 11, 11)
  }

  function BImm(d: bv32): bv32 {
    var imm12, imm105 := (d >> 31) & 0x1, (d >> 25) & 0x3f;
    var imm41, imm11 := (d >> 8) & 0xf, (d >> 7) & 0x1;
    AShr(((imm12 << 12) | (imm11 << 11) | (imm105 << 5) | (imm41 << 1)) << 19, 19)
  }

  function SImm(d: bv32): bv32 {
    var imm115, imm40 := (d >> 25) & 0x7f, (d >> 7) & 0x1f;
    AShr(((imm115 << 5) | imm40) << 20, 20)
  }

  function UType(t: InsnType, d: bv32): Insn {
    ZERO_INSN.(ty := t, imm := Signed(UImm(d)), rd := Rd(d))
  }

  function IType(t: InsnType, d: bv32): Insn {
    ZERO_INSN.(ty := t, imm := Signed(IImm(d)), rs1 := Rs1(d), rd := Rd(d))
  }

  function JType(t: InsnType, d: bv32): Insn {
    ZERO_INSN.(ty := t, imm := Signed(JImm(d)), rd := Rd(d))
  }

  function BType(t: InsnType, d: bv32): Insn {
    ZERO_INSN.(ty := t, imm := Signed(BImm(d)), rs1 := Rs1(d), rs2 := Rs2(d))
  }

  function RType(t: InsnType, d: bv32): Insn {
    ZERO_INSN.(ty := t, rs1 := Rs1(d), rs2 := Rs2(d), rd := Rd(d))
  }

  function SType(t: InsnType, d: bv32): Insn {
    ZERO_INSN.(ty := t, imm := Signed(SImm(d)), rs1 := Rs1(d), rs2 := Rs2(d))
  }

  function CsrType(t: InsnType, d: bv32): Insn {
    ZERO_INSN.(ty := t, csr := (d >> 20) as int, rs1 := Rs1(d), rd := Rd(d))
  }

  function FprType(t: InsnType, d: bv32): Insn {
    RType(t, d).(rs3 := Rs3(d))
  }

  // ----- compressed formats; d is the halfword -----

  function Copcode(d: bv32): bv32 { (d >> 13) & 0x7 }
  function Cfunct1(d: bv32): bv32 { (d >> 12) & 0x1 }
  function Cfunct2Low(d: bv32): bv32 { (d >> 5) & 0x3 }
  function Cfunct2High(d: bv32): bv32 { (d >> 10) & 0x3 }
  function Rp1Bits(d: bv32): bv32 { (d >> 7) & 0x7 }
  function Rp2Bits(d: bv32): bv32 { (d >> 2) & 0x7 }
  function Rc2Bits(d: bv32): bv32 { (d >> 2) & 0x1f }
  function Rp1(d: bv32): Reg { ShortReg(Rp1Bits(d)) }
  function Rp2(d: bv32): Reg { ShortReg(Rp2Bits(d)) }
  function Rc1(d: bv32): Reg { RegField(RdBits(d)) }
  function Rc2(d: bv32): Reg { RegField(Rc2Bits(d)) }

  function CiImm(d: bv32): bv32 {
    AShr(((((d >> 12) & 0x1) << 5) | ((d >> 2) & 0x1f)) << 26, 26)
  }

  function CiImm2(d: bv32): bv32 {
    (((d >> 2) & 0x7) << 6) | (((d >> 5) & 0x3) << 3) | (((d >> 12) & 0x1) << 5)
  }

  function CiImm3(d: bv32): bv32 {
    var imm5, imm87, imm6 := (d >> 2) & 0x1, (d >> 3) & 0x3, (d >> 5) & 0x1;
    var imm4, imm9 := (d >> 6) & 0x1, (d >> 12) & 0x1;
    AShr(((imm5 << 5) | (imm87 << 7) | (imm6 << 6) | (imm4 << 4) | (imm9 << 9)) << 22, 22)
  }

  function CiImm4(d: bv32): bv32 {
    (((d >> 12) & 0x1) << 5) | (((d >> 4) & 0x7) << 2) | (((d >> 2) & 0x3) << 6)
  }

  function CiImm5(d: bv32): bv32 {
    AShr(((((d >> 2) & 0x1f) << 12) | (((d >> 12) & 0x1) << 17)) << 14, 14)
  }

  function CbImm(d: bv32): bv32 {
    var imm5, imm21, imm76 := (d >> 2) & 0x1, (d >> 3) & 0x3, (d >> 5) & 0x3;
    var imm43, imm8 := (d >> 10) & 0x3, (d >> 12) & 0x1;
    AShr(((imm8 << 8) | (imm76 << 6) | (imm5 << 5) | (imm43 << 3) | (imm21 << 1)) << 23, 23)
  }

  /** c.sd, c.ld, c.fsd, c.fld. */
  function CdImm(d: bv32): bv32 {
    (((d >> 5) & 0x3) << 6) | (((d >> 10) & 0x7) << 3)
  }

  /** c.sw, c.lw. */
  function CwImm(d: bv32): bv32 {
    (((d >> 5) & 0x1) << 6) | (((d >> 6) & 0x1) << 2) | (((d >> 10) & 0x7) << 3)
  }

  function CjBits(d: bv32): bv32 {
    var imm5, imm31, imm7, imm6 := (d >> 2) & 0x1, (d >> 3) & 0x7, (d >> 6) & 0x1, (d >> 7) & 0x1;
    var imm10, imm98, imm4, imm11 := (d >> 8) & 0x1, (d >> 9) & 0x3, (d >> 11) & 0x1, (d >> 12) & 0x1;
    (imm5 << 5) | (imm31 << 1) | (imm7 << 7) | (imm6 << 6) | (imm10 << 10) | (imm98 << 8) | (imm4 << 4) | (imm11 << 11)
  }

  function CjImm(d: bv32): bv32 {
    AShr(CjBits(d) << 20, 20)
  }

  function CssImm(d: bv32): bv32 {
    (((d >> 7) & 0x7) << 6) | (((d >> 10) & 0x7) << 3)
  }

  function CssImm2(d: bv32): bv32 {
    (((d >> 7) & 0x3) << 6) | (((d >> 9) & 0xf) << 2)
  }

  function CiwImm(d: bv32): bv32 {
    (((d >> 5) & 0x1) << 3) | (((d >> 6) & 0x1) << 2) | (((d >> 7) & 0xf) << 6) | (((d >> 11) & 0x3) << 4)
  }

  const RVC := ZERO_INSN.(rvc := true)

  // ----- the decision tree -----

  function Quadrant0(d: bv32): Option<Insn> {
    match Copcode(d)
    case 0 =>
      if CiwImm(d) == 0 then None
      else Some(RVC.(ty := OpImm(Addi), imm := Signed(CiwImm(d)), rd := Rp2(d), rs1 := SP))
    case 1 => Some(RVC.(ty := FpLoad(Double), imm := Signed(CdImm(d)), rs1 := Rp1(d), rd := Rp2(d)))
    case 2 => Some(RVC.(ty := Load(Lw), imm := Signed(CwImm(d)), rs1 := Rp1(d), rd := Rp2(d)))
    case 3 => Some(RVC.(ty := Load(Ld), imm := Signed(CdImm(d)), rs1 := Rp1(d), rd := Rp2(d)))
    case 5 => Some(RVC.(ty := FpStore(Double), imm := Signed(CdImm(d)), rs1 := Rp1(d), rs2 := Rp2(d)))
    case 6 => Some(RVC.(ty := Store(Sw), imm := Signed(CwImm(d)), rs1 := Rp1(d), rs2 := Rp2(d)))
    case 7 => Some(RVC.(ty := Store(Sd), imm := Signed(CdImm(d)), rs1 := Rp1(d), rs2 := Rp2(d)))
    case _ => None
  }

  function Quadrant1(d: bv32): Option<Insn> {
    match Copcode(d)
    case 0 => Some(RVC.(ty := OpImm(Addi), imm := Signed(CiImm(d)), rd := Rc1(d), rs1 := Rc1(d)))
    case 1 =>
      if Rc1(d) == 0 then None
      else Some(RVC.(ty := OpImm(Addiw), imm := Signed(CiImm(d)), rd := Rc1(d), rs1 := Rc1(d)))
    case 2 => Some(RVC.(ty := OpImm(Addi), imm := Signed(CiImm(d)), rd := Rc1(d), rs1 := 0))
    case 3 =>
      if Rc1(d) == 2 then
        if CiImm3(d) == 0 then None
        else Some(RVC.(ty := OpImm(Addi), imm := Signed(CiImm3(d)), rd := Rc1(d), rs1 := Rc1(d)))
      else if CiImm5(d) == 0 then None
      else Some(RVC.(ty := Lui, imm := Signed(CiImm5(d)), rd := Rc1(d)))
    case 4 => CArith(d)
    case 5 => Some(RVC.(ty := Jal, imm := Signed(CjImm(d)), rd := 0, cont := true))
    case 6 => Some(RVC.(ty := Branch(Beq), imm := Signed(CbImm(d)), rs1 := Rp1(d), rs2 := 0))
    case 7 => Some(RVC.(ty := Branch(Bne), imm := Signed(CbImm(d)), rs1 := Rp1(d), rs2 := 0))
    case _ => None
  }

  function CArith(d: bv32): Option<Insn> {
    var imm := RVC.(imm := Signed(CiImm(d)), rd := Rp1(d), rs1 := Rp1(d));
    var reg := RVC.(rd := Rp1(d), rs2 := Rp2(d), rs1 := Rp1(d));
    match Cfunct2High(d)
    case 0 => Some(imm.(ty := OpImm(Srli)))
    case 1 => Some(imm.(ty := OpImm(Srai)))
    case 2 => Some(imm.(ty := OpImm(Andi)))
    case 3 =>
      if Cfunct1(d) == 0 then
        (match Cfunct2Low(d)
         case 0 => Some(reg.(ty := Op(Sub)))
         case 1 => Some(reg.(ty := Op(Xor)))
         case 2 => Some(reg.(ty := Op(Or)))
         case 3 => Some(reg.(ty := Op(And)))
         case _ => None)
      else
        (match Cfunct2Low(d)
         case 0 => Some(reg.(ty := Op(Subw)))
         case 1 => Some(reg.(ty := Op(Addw)))
         case _ => None)
    case _ => None
  }

  function Quadrant2(d: bv32): Option<Insn> {
    match Copcode(d)
    case 0 => Some(RVC.(ty := OpImm(Slli), imm := Signed(CiImm(d)), rd := Rc1(d), rs1 := Rc1(d)))
    case 1 => Some(RVC.(ty := FpLoad(Double), imm := Signed(CiImm2(d)), rd := Rc1(d), rs1 := SP))
    case 2 =>
      if Rc1(d) == 0 then None
      else Some(RVC.(ty := Load(Lw), imm := Signed(CiImm4(d)), rd := Rc1(d), rs1 := SP))
    case 3 =>
      if Rc1(d) == 0 then None
      else Some(RVC.(ty := Load(Ld), imm := Signed(CiImm2(d)), rd := Rc1(d), rs1 := SP))
    case 4 => CJump(d)
    case 5 => Some(RVC.(ty := FpStore(Double), imm := Signed(CssImm(d)), rs2 := Rc2(d), rs1 := SP))
    case 6 => Some(RVC.(ty := Store(Sw), imm := Signed(CssImm2(d)), rs2 := Rc2(d), rs1 := SP))
    case 7 => Some(RVC.(ty := Store(Sd), imm := Signed(CssImm(d)), rs2 := Rc2(d), rs1 := SP))
    case _ => None
  }

  function CJump(d: bv32): Option<Insn> {
    var r1, r2 := Rc1(d), Rc2(d);
    if Cfunct1(d) == 0 then
      if r2 == 0 then
        if r1 == 0 then None else Some(RVC.(ty := Jalr, rs1 := r1, rs2 := r2, rd := 0, cont := true))
      else Some(RVC.(ty := Op(Add), rd := r1, rs1 := 0, rs2 := r2))
    else if r1 == 0 && r2 == 0 then None
    else if r2 == 0 then Some(RVC.(ty := Jalr, rs1 := r1, rs2 := r2, rd := RA, cont := true))
    else Some(RVC.(ty := Op(Add), rd := r1, rs1 := r1, rs2 := r2))
  }

  function LoadOpOf(f: bv32): Option<LoadOp> {
    match f
    case 0 => Some(Lb)
    case 1 => Some(Lh)
    case 2 => Some(Lw)
    case 3 => Some(Ld)
    case 4 => Some(Lbu)
    case 5 => Some(Lhu)
    case 6 => Some(Lwu)
    case _ => None
  }

  function ImmOpOf(d: bv32): Option<ImmOp> {
    match Funct3(d)
    case 0 => Some(Addi)
    case 1 => if Imm116(d) == 0 then Some(Slli) else None
    case 2 => Some(Slti)
    case 3 => Some(Sltiu)
    case 4 => Some(Xori)
    case 5 => if Imm116(d) == 0 then Some(Srli) else if Imm116(d) == 0x10 then Some(Srai) else None
    case 6 => Some(Ori)
    case 7 => Some(Andi)
    case _ => None
  }

  function ImmWOpOf(d: bv32): Option<ImmOp> {
    match Funct3(d)
    case 0 => Some(Addiw)
    case 1 => if Funct7(d) == 0 then Some(Slliw) else None
    case 5 => if Funct7(d) == 0 then Some(Srliw) else if Funct7(d) == 0x20 then Some(Sraiw) else None
    case _ => None
  }

  function RegOpOf(d: bv32): Option<RegOp> {
    match Funct7(d)
    case 0 =>
      (match Funct3(d)
       case 0 => Some(Add)
       case 1 => Some(Sll)
       case 2 => Some(Slt)
       case 3 => Some(Sltu)
       case 4 => Some(Xor)
       case 5 => Some(Srl)
       case 6 => Some(Or)
       case 7 => Some(And)
       case _ => None)
    case 1 =>
      (match Funct3(d)
       case 0 => Some(Mul)
       case 1 => Some(Mulh)
       case 2 => Some(Mulhsu)
       case 3 => Some(Mulhu)
       case 4 => Some(Div)
       case 5 => Some(Divu)
       case 6 => Some(Rem)
       case 7 => Some(Remu)
       case _ => None)
    case 0x20 =>
      (match Funct3(d)
       case 0 => Some(Sub)
       case 5 => Some(Sra)
       case _ => None)
    case _ => None
  }

  function RegWOpOf(d: bv32): Option<RegOp> {
    match Funct7(d)
    case 0 =>
      (match Funct3(d)
       case 0 => Some(Addw)
       case 1 => Some(Sllw)
       case 5 => Some(Srlw)
       case _ => None)
    case 1 =>
      (match Funct3(d)
       case 0 => Some(Mulw)
       case 4 => Some(Divw)
       case 5 => Some(Divuw)
       case 6 => Some(Remw)
       case 7 => Some(Remuw)
       case _ => None)
    case 0x20 =>
      (match Funct3(d)
       case 0 => Some(Subw)
       case 5 => Some(Sraw)
       case _ => None)
    case _ => None
  }

  function BranchOpOf(f: bv32): Option<BranchOp> {
    match f
    case 0 => Some(Beq)
    case 1 => Some(Bne)
    case 4 => Some(Blt)
    case 5 => Some(Bge)
    case 6 => Some(Bltu)
    case 7 => Some(Bgeu)
    case _ => None
  }

  function CsrOpOf(f: bv32): Option<CsrOp> {
    match f
    case 1 => Some(Csrrw)
    case 2 => Some(Csrrs)
    case 3 => Some(Csrrc)
    case 5 => Some(Csrrwi)
    case 6 => Some(Csrrsi)
    case 7 => Some(Csrrci)
    case _ => None
  }

  function PrecOf(bit: bv32): Prec {
    if bit & 1 == 0 then Single else Double
  }

  /** Opcodes 0x10 to 0x13, the fused multiply-adds. */
  function FusedOf(op: FpArith, d: bv32): Option<Insn> {
    if Funct2(d) == 0 || Funct2(d) == 1 then Some(FprType(FpOp(op, PrecOf(Funct2(d))), d)) else None
  }

  /** Opcode 0x14: bit 0 of funct7 selects the precision. */
  function FpTypeOf(d: bv32): Option<InsnType> {
    var p := PrecOf(Funct7(d));
    var f3, r2 := Funct3(d), (d >> 20) & 0x1f;
    match Funct7(d) >> 1
    case 0x0 => Some(FpOp(Fadd, p))
    case 0x2 => Some(FpOp(Fsub, p))
    case 0x4 => Some(FpOp(Fmul, p))
    case 0x6 => Some(FpOp(Fdiv, p))
    case 0x8 => if f3 == 0 then Some(FpSignOp(Fsgnj, p)) else if f3 == 1 then Some(FpSignOp(Fsgnjn, p))
                else if f3 == 2 then Some(FpSignOp(Fsgnjx, p)) else None
    case 0xa => if f3 == 0 then Some(FpOp(Fmin, p)) else if f3 == 1 then Some(FpOp(Fmax, p)) else None
    case 0x10 => if p.Single? && r2 == 1 then Some(FpToSingle)
                 else if p.Double? && r2 == 0 then Some(FpToDouble) else None
    case 0x16 => if r2 == 0 then Some(FpSqrt(p)) else None
    case 0x28 => if f3 == 0 then Some(FpCmp(Fle, p)) else if f3 == 1 then Some(FpCmp(Flt, p))
                 else if f3 == 2 then Some(FpCmp(Feq, p)) else None
    case 0x30 => if r2 == 0 then Some(FpToInt(ToW, p)) else if r2 == 1 then Some(FpToInt(ToWu, p))
                 else if r2 == 2 then Some(FpToInt(ToL, p)) else if r2 == 3 then Some(FpToInt(ToLu, p)) else None
    case 0x34 => if r2 == 0 then Some(FpFromInt(FromW, p)) else if r2 == 1 then Some(FpFromInt(FromWu, p))
                 else if r2 == 2 then Some(FpFromInt(FromL, p))
                 else if r2 == 3 then Some(FpFromInt(FromLu, p)) else None
    case 0x38 => if r2 != 0 then None else if f3 == 0 then Some(FpMoveToInt(p))
                 else if f3 == 1 then Some(FpToInt(Fclass, p)) else None
    case 0x3c => if r2 == 0 && f3 == 0 then Some(FpMoveFromInt(p)) else None
    case _ => None
  }

  function Quadrant3(prev: Insn, d: bv32): Option<Insn> {
    match Opcode(d)
    case 0x0 => (match LoadOpOf(Funct3(d)) case None => None case Some(op) => Some(IType(Load(op), d)))
    case 0x1 => if Funct3(d) == 2 then Some(IType(FpLoad(Single), d))
                else if Funct3(d) == 3 then Some(IType(FpLoad(Double), d)) else None
    case 0x3 => if Funct3(d) == 0 then Some(ZERO_INSN.(ty := Fence))
                else if Funct3(d) == 1 then Some(ZERO_INSN.(ty := FenceI)) else None
    case 0x4 => (match ImmOpOf(d) case None => None case Some(op) => Some(IType(OpImm(op), d)))
    case 0x5 => Some(UType(Auipc, d))
    case 0x6 => (match ImmWOpOf(d) case None => None case Some(op) => Some(IType(OpImm(op), d)))
    case 0x8 => if Funct3(d) == 0 then Some(SType(Store(Sb), d)) else if Funct3(d) == 1 then Some(SType(Store(Sh), d))
                else if Funct3(d) == 2 then Some(SType(Store(Sw), d))
                else if Funct3(d) == 3 then Some(SType(Store(Sd), d)) else None
    case 0x9 => if Funct3(d) == 2 then Some(SType(FpStore(Single), d))
                else if Funct3(d) == 3 then Some(SType(FpStore(Double), d)) else None
    case 0xc => (match RegOpOf(d) case None => None case Some(op) => Some(RType(Op(op), d)))
    case 0xd => Some(UType(Lui, d))
    case 0xe => (match RegWOpOf(d) case None => None case Some(op) => Some(RType(Op(op), d)))
    case 0x10 => FusedOf(Fmadd, d)
    case 0x11 => FusedOf(Fmsub, d)
    case 0x12 => FusedOf(Fnmsub, d)
    case 0x13 => FusedOf(Fnmadd, d)
    case 0x14 => (match FpTypeOf(d) case None => None case Some(t) => Some(RType(t, d)))
    case 0x18 => (match BranchOpOf(Funct3(d)) case None => None case Some(op) => Some(BType(Branch(op), d)))
    case 0x19 => Some(IType(Jalr, d).(cont := true))
    case 0x1b => Some(JType(Jal, d).(cont := true))
    case 0x1c =>
      if d == 0x73 then Some(prev.(ty := Ecall, cont := true))
      else (match CsrOpOf(Funct3(d)) case None => None case Some(op) => Some(CsrType(Csr(op), d)))
    case _ => None
  }

  /** `insn_decode(&insn, data)` with the record's earlier contents `prev`: the
      ecall case is the one that leaves the other fields as they were. */
  function InsnDecode(prev: Insn, d: bv32): Option<Insn> {
    match d & 0x3
    case 0 => Quadrant0(d & 0xffff)
    case 1 => Quadrant1(d & 0xffff)
    case 2 => Quadrant2(d & 0xffff)
    case _ => Quadrant3(prev, d)
  }
}
