/** Compressed instructions against their 32-bit expansions, section 16.8 of
    the RISC-V Unprivileged ISA 20191213. */
module Rvc {
  import opened Words
  import opened Insn
  import opened Decode
  import opened Encoding
  import Guest
  import Alu

  const OP_IMM: bv32 := 0x13
  const OP_IMM_32: bv32 := 0x1b
  const OP: bv32 := 0x33
  const OP_32: bv32 := 0x3b
  const LOAD: bv32 := 0x03
  const LOAD_FP: bv32 := 0x07
  const STORE: bv32 := 0x23
  const STORE_FP: bv32 := 0x27
  const BRANCH: bv32 := 0x63
  const JALR: bv32 := 0x67
  const JAL: bv32 := 0x6f
  const LUI: bv32 := 0x37

  /** A popular register x8..x15. */
  function Pop1(d: bv32): bv32 { Rp1Bits(d) + 8 }
  function Pop2(d: bv32): bv32 { Rp2Bits(d) + 8 }

  /** Six-bit shift amount. */
  function Shamt(d: bv32): bv32 { (Bits(d, 12, 1) << 5) | Bits(d, 2, 5) }

  /** Immediates as section 16.8 lays them out. */
  function Uimm4Spn(d: bv32): bv32 {
    (Bits(d, 11, 2) << 4) | (Bits(d, 7, 4) << 6) | (Bits(d, 6, 1) << 2) | (Bits(d, 5, 1) << 3)
  }

  function OffsetD(d: bv32): bv32 {
    (Bits(d, 10, 3) << 3) | (Bits(d, 5, 2) << 6)
  }

  function OffsetW(d: bv32): bv32 {
    (Bits(d, 10, 3) << 3) | (Bits(d, 6, 1) << 2) | (Bits(d, 5, 1) << 6)
  }

  function Imm6(d: bv32): bv32 {
    AShr(Shamt(d) << 26, 26)
  }

  function Imm16Sp(d: bv32): bv32 {
    AShr(((Bits(d, 12, 1) << 9) | (Bits(d, 6, 1) << 4) | (Bits(d, 5, 1) << 6)
          | (Bits(d, 3, 2) << 7) | (Bits(d, 2, 1) << 5)) << 22, 22)
  }

  function ImmLui(d: bv32): bv32 {
    AShr(((Bits(d, 12, 1) << 17) | (Bits(d, 2, 5) << 12)) << 14, 14)
  }

  function OffsetJ(d: bv32): bv32 {
    AShr(((Bits(d, 12, 1) << 11) | (Bits(d, 11, 1) << 4) | (Bits(d, 9, 2) << 8) | (Bits(d, 8, 1) << 10)
          | (Bits(d, 7, 1) << 6) | (Bits(d, 6, 1) << 7) | (Bits(d, 3, 3) << 1) | (Bits(d, 2, 1) << 5)) << 20, 20)
  }

  function OffsetB(d: bv32): bv32 {
    AShr(((Bits(d, 12, 1) << 8) | (Bits(d, 10, 2) << 3) | (Bits(d, 5, 2) << 6)
          | (Bits(d, 3, 2) << 1) | (Bits(d, 2, 1) << 5)) << 23, 23)
  }

  function OffsetDSp(d: bv32): bv32 {
    (Bits(d, 12, 1) << 5) | (Bits(d, 5, 2) << 3) | (Bits(d, 2, 3) << 6)
  }

  function OffsetWSp(d: bv32): bv32 {
    (Bits(d, 12, 1) << 5) | (Bits(d, 4, 3) << 2) | (Bits(d, 2, 2) << 6)
  }

  function StoreDSp(d: bv32): bv32 {
    (Bits(d, 10, 3) << 3) | (Bits(d, 7, 3) << 6)
  }

  function StoreWSp(d: bv32): bv32 {
    (Bits(d, 9, 4) << 2) | (Bits(d, 7, 2) << 6)
  }

  /** The 32-bit instruction a compressed halfword stands for. */
  function Expand0(d: bv32): bv32 {
    match Copcode(d)
    case 0 => EncI(Uimm4Spn(d), 2, 0, Pop2(d), OP_IMM)
    case 1 => EncI(OffsetD(d), Pop1(d), 3, Pop2(d), LOAD_FP)
    case 2 => EncI(OffsetW(d), Pop1(d), 2, Pop2(d), LOAD)
    case 3 => EncI(OffsetD(d), Pop1(d), 3, Pop2(d), LOAD)
    case 5 => EncS(OffsetD(d), Pop2(d), Pop1(d), 3, STORE_FP)
    case 6 => EncS(OffsetW(d), Pop2(d), Pop1(d), 2, STORE)
    case _ => EncS(OffsetD(d), Pop2(d), Pop1(d), 3, STORE)
  }

  function Expand1(d: bv32): bv32 {
    var rd := RdBits(d);
    match Copcode(d)
    case 0 => EncI(Imm6(d), rd, 0, rd, OP_IMM)
    case 1 => EncI(Imm6(d), rd, 0, rd, OP_IMM_32)
    case 2 => EncI(Imm6(d), 0, 0, rd, OP_IMM)
    case 3 => if rd == 2 then EncI(Imm16Sp(d), 2, 0, 2, OP_IMM) else EncU(ImmLui(d), rd, LUI)
    case 4 => ExpandArith(d)
    case 5 => EncJ(OffsetJ(d), 0, JAL)
    case 6 => EncB(OffsetB(d), 0, Pop1(d), 0, BRANCH)
    case _ => EncB(OffsetB(d), 0, Pop1(d), 1, BRANCH)
  }

  function ExpandArith(d: bv32): bv32 {
    var r := Pop1(d);
    match Bits(d, 10, 2)
    case 0 => EncI(Shamt(d), r, 5, r, OP_IMM)
    case 1 => EncI(0x400 | Shamt(d), r, 5, r, OP_IMM)
    case 2 => EncI(Imm6(d), r, 7, r, OP_IMM)
    case _ => ExpandReg(d)
  }

  function ExpandReg(d: bv32): bv32 {
    var r := Pop1(d);
    if Bits(d, 12, 1) == 0 then
      match Bits(d, 5, 2)
      case 0 => EncR(0x20, Pop2(d), r, 0, r, OP)
      case 1 => EncR(0, Pop2(d), r, 4, r, OP)
      case 2 => EncR(0, Pop2(d), r, 6, r, OP)
      case _ => EncR(0, Pop2(d), r, 7, r, OP)
    else if Bits(d, 5, 2) == 0 then EncR(0x20, Pop2(d), r, 0, r, OP_32)
    else EncR(0, Pop2(d), r, 0, r, OP_32)
  }

  function Expand2(d: bv32): bv32 {
    var rd, rs2 := RdBits(d), Rc2Bits(d);
    match Copcode(d)
    case 0 => EncI(Shamt(d), rd, 1, rd, OP_IMM)
    case 1 => EncI(OffsetDSp(d), 2, 3, rd, LOAD_FP)
    case 2 => EncI(OffsetWSp(d), 2, 2, rd, LOAD)
    case 3 => EncI(OffsetDSp(d), 2, 3, rd, LOAD)
    case 4 =>
      if rs2 == 0 then EncI(0, rd, 0, if Bits(d, 12, 1) == 0 then 0 else 1, JALR)
      else EncR(0, rs2, if Bits(d, 12, 1) == 0 then 0 else rd, 0, rd, OP)
    case 5 => EncS(StoreDSp(d), rs2, 2, 3, STORE_FP)
    case 6 => EncS(StoreWSp(d), rs2, 2, 2, STORE)
    case _ => EncS(StoreDSp(d), rs2, 2, 3, STORE)
  }

  /** The halfword in the low bits of w, expanded. */
  function Expand(w: bv32): bv32 {
    var d := w & 0xffff;
    match w & 3
    case 0 => Expand0(d)
    case 1 => Expand1(d)
    case _ => Expand2(d)
  }

  /** i is a compressed j: the same instruction, two bytes long, with the shift
      amount read as a signed or as an unsigned six-bit number. */
  predicate Shortens(i: Insn, j: Insn) {
    && i.rvc && !j.rvc
    && i.(imm := 0, rvc := false) == j.(imm := 0)
    && if i.ty.OpImm? && (i.ty.imm.Slli? || i.ty.imm.Srli? || i.ty.imm.Srai?) then i.imm % 64 == j.imm % 64
       else i.imm == j.imm
  }

  predicate Shortening(i: Option<Insn>, j: Option<Insn>) {
    i.Some? ==> j.Some? && Shortens(i.value, j.value)
  }

  // ----- what the 32-bit decoder makes of each encoding -----

  lemma {:induction false} DecodeI(prev: Insn, imm: bv32, rs1: bv32, f3: bv32, rd: bv32, op: bv32)
    requires Fits(imm, 12) && f3 <= 7 && IsReg(rs1) && IsReg(rd)
    requires op == OP_IMM || op == OP_IMM_32 || op == LOAD || op == LOAD_FP || op == JALR
    requires (op == OP_IMM && (f3 == 0 || f3 == 7)) || (op == OP_IMM_32 && f3 == 0)
          || (op == LOAD && (f3 == 2 || f3 == 3))
          || (op == LOAD_FP && f3 == 3) || op == JALR
    ensures var t := if op == OP_IMM then OpImm(if f3 == 0 then Addi else Andi)
                     else if op == OP_IMM_32 then OpImm(Addiw)
                     else if op == LOAD then Load(if f3 == 2 then Lw else Ld)
                     else if op == JALR then Jalr else FpLoad(Double);
            InsnDecode(prev, EncI(imm, rs1, f3, rd, op))
            == Some(ZERO_INSN.(ty := t, imm := Signed(imm), rs1 := RegField(rs1), rd := RegField(rd),
                               cont := op == JALR))
  {
    hide EncI, Opcode, Funct3, Funct7, IImm, Rs1Bits, RdBits, RegField, Signed, Imm116, Encoding.Fits;
    RoundTripI(imm, rs1, f3, rd, op);
  }

  lemma {:induction false} DecodeShift(prev: Insn, imm: bv32, rs1: bv32, f3: bv32, rd: bv32)
    requires (imm <= 0x3f && (f3 == 1 || f3 == 5)) || (0x400 <= imm <= 0x43f && f3 == 5)
    requires IsReg(rs1) && IsReg(rd)
    ensures var t := if f3 == 1 then Slli else if imm <= 0x3f then Srli else Srai;
            InsnDecode(prev, EncI(imm, rs1, f3, rd, OP_IMM))
            == Some(ZERO_INSN.(ty := OpImm(t), imm := Signed(imm), rs1 := RegField(rs1), rd := RegField(rd)))
  {
    hide EncI, Opcode, Funct3, Funct7, IImm, Rs1Bits, RdBits, RegField, Signed, Imm116;
    ShiftAmountFits(imm);
    RoundTripI(imm, rs1, f3, rd, OP_IMM);
    RoundTripShift(imm, rs1, f3, rd, OP_IMM);
    hide Encoding.Fits;
  }

  lemma {:induction false} ShiftAmountFits(imm: bv32)
    requires imm <= 0x7ff
    ensures Encoding.Fits(imm, 12)
    ensures imm <= 0x3f ==> imm >> 6 == 0
    ensures 0x400 <= imm <= 0x43f ==> imm >> 6 == 0x10
  {
  }

  lemma {:induction false} DecodeS(prev: Insn, imm: bv32, rs2: bv32, rs1: bv32, f3: bv32, op: bv32)
    requires Fits(imm, 12) && IsReg(rs1) && IsReg(rs2)
    requires (op == STORE && (f3 == 2 || f3 == 3)) || (op == STORE_FP && f3 == 3)
    ensures var t := if op == STORE then Store(if f3 == 2 then Sw else Sd) else FpStore(Double);
            InsnDecode(prev, EncS(imm, rs2, rs1, f3, op))
            == Some(ZERO_INSN.(ty := t, imm := Signed(imm), rs1 := RegField(rs1), rs2 := RegField(rs2)))
  {
    hide EncS, Opcode, Funct3, SImm, Rs1Bits, Rs2Bits, RegField, Signed, Encoding.Fits;
    RoundTripS(imm, rs2, rs1, f3, op);
  }

  lemma {:induction false} DecodeB(prev: Insn, imm: bv32, rs2: bv32, rs1: bv32, f3: bv32)
    requires Fits(imm, 13) && imm & 1 == 0 && IsReg(rs1) && IsReg(rs2) && f3 <= 1
    ensures InsnDecode(prev, EncB(imm, rs2, rs1, f3, BRANCH))
            == Some(ZERO_INSN.(ty := Branch(if f3 == 0 then Beq else Bne), imm := Signed(imm),
                               rs1 := RegField(rs1), rs2 := RegField(rs2)))
  {
    hide EncB, Opcode, Funct3, BImm, Rs1Bits, Rs2Bits, RegField, Signed, Encoding.Fits;
    RoundTripB(imm, rs2, rs1, f3, BRANCH);
  }

  lemma {:induction false} DecodeU(prev: Insn, imm: bv32, rd: bv32)
    requires imm & 0xfff == 0 && IsReg(rd)
    ensures InsnDecode(prev, EncU(imm, rd, LUI)) == Some(ZERO_INSN.(ty := Lui, imm := Signed(imm), rd := RegField(rd)))
  {
    hide EncU, Opcode, UImm, RdBits, RegField, Signed;
    RoundTripU(imm, rd, LUI);
  }

  lemma {:induction false} DecodeJ(prev: Insn, imm: bv32, rd: bv32)
    requires Fits(imm, 21) && imm & 1 == 0 && IsReg(rd)
    ensures InsnDecode(prev, EncJ(imm, rd, JAL))
            == Some(ZERO_INSN.(ty := Jal, imm := Signed(imm), rd := RegField(rd), cont := true))
  {
    hide EncJ, Opcode, JImm, RdBits, RegField, Signed, Encoding.Fits;
    RoundTripJ(imm, rd, JAL);
  }

  lemma {:induction false} DecodeR(prev: Insn, f7: bv32, rs2: bv32, rs1: bv32, f3: bv32, rd: bv32, op: bv32)
    requires IsReg(rs1) && IsReg(rs2) && IsReg(rd)
    requires (op == OP && ((f7 == 0 && (f3 == 0 || f3 == 4 || f3 == 6 || f3 == 7)) || (f7 == 0x20 && f3 == 0)))
          || (op == OP_32 && f3 == 0 && (f7 == 0 || f7 == 0x20))
    ensures var t := if op == OP_32 then (if f7 == 0 then Addw else Subw) else if f7 == 0x20 then Sub
                     else if f3 == 0 then Add else if f3 == 4 then Xor else if f3 == 6 then Or else And;
            InsnDecode(prev, EncR(f7, rs2, rs1, f3, rd, op))
            == Some(ZERO_INSN.(ty := Op(t), rs1 := RegField(rs1), rs2 := RegField(rs2), rd := RegField(rd)))
  {
    hide EncR, Opcode, Funct3, Funct7, Rs1Bits, Rs2Bits, RdBits, RegField;
    RoundTripR(f7, rs2, rs1, f3, rd, op);
  }

  // ----- register fields -----

  lemma {:induction false} PopularReg(b: bv32)
    requires b <= 7
    ensures RegField(b + 8) == ShortReg(b)
  {
    assert b == 0 || b == 1 || b == 2 || b == 3 || b == 4 || b == 5 || b == 6 || b == 7;
  }

  lemma {:induction false} FixedRegs()
    ensures RegField(0) == 0 && RegField(1) == 1 && RegField(2) == 2
  {
  }

  lemma {:induction false} RegIs(b: bv32)
    requires b <= 31
    ensures RegField(b) == 2 <==> b == 2
    ensures RegField(b) == 0 <==> b == 0
  {
    assert b & 0x1f == b;
  }

  lemma {:induction false} FieldBounds(d: bv32)
    ensures Rp1Bits(d) <= 7 && Rp2Bits(d) <= 7 && RdBits(d) <= 31 && Rc2Bits(d) <= 31
    ensures Pop1(d) <= 31 && Pop2(d) <= 31 && Shamt(d) <= 0x3f
    ensures Bits(d, 10, 2) <= 3
    ensures Cfunct2High(d) == Bits(d, 10, 2) && Cfunct2Low(d) == Bits(d, 5, 2) && Cfunct1(d) == Bits(d, 12, 1)
  {
  }

  lemma {:induction false} PopularRegs(d: bv32)
    ensures RegField(Pop1(d)) == Rp1(d) && RegField(Pop2(d)) == Rp2(d)
  {
    hide RegField, ShortReg;
    FieldBounds(d);
    PopularReg(Rp1Bits(d));
    PopularReg(Rp2Bits(d));
  }

  // ----- immediates, as the decoder and as the expansion read them -----

  lemma {:induction false} Immediates0(d: bv32)
    ensures CiwImm(d) == Uimm4Spn(d) && CdImm(d) == OffsetD(d) && CwImm(d) == OffsetW(d)
    ensures Fits(CiwImm(d), 12) && Fits(CdImm(d), 12) && Fits(CwImm(d), 12)
  {
  }

  lemma {:induction false} Immediates1(d: bv32)
    ensures CiImm(d) == Imm6(d) && CiImm3(d) == Imm16Sp(d) && CiImm5(d) == ImmLui(d)
    ensures Fits(CiImm(d), 12) && Fits(CiImm3(d), 12) && CiImm5(d) & 0xfff == 0
  {
  }

  lemma {:induction false} OffsetsJ(d: bv32)
    ensures CjImm(d) == OffsetJ(d)
  {
  }

  lemma {:induction false} OffsetsJFit(d: bv32)
    ensures Fits(CjImm(d), 21)
  {
    hide CjBits;
    SignExtensionFits(CjBits(d));
  }

  lemma {:induction false} SignExtensionFits(x: bv32)
    ensures Fits(AShr(x << 20, 20), 21)
  {
    var y := AShr(x << 20, 20);
    assert y & 0xffff_f800 == 0 || !y & 0xffff_f800 == 0;
    SmallFits(y);
  }

  lemma {:induction false} SmallFits(y: bv32)
    requires y & 0xffff_f800 == 0 || !y & 0xffff_f800 == 0
    ensures Fits(y, 21)
  {
    hide AShr;
    ShiftBack(y);
  }

  lemma {:induction false} ShiftBack(y: bv32)
    requires y & 0xffff_f800 == 0 || !y & 0xffff_f800 == 0
    ensures AShr(y << 11, 11) == y
  {
  }

  lemma {:induction false} OffsetsJEven(d: bv32)
    ensures CjImm(d) & 1 == 0
  {
  }

  lemma {:induction false} OffsetsB(d: bv32)
    ensures CbImm(d) == OffsetB(d) && Fits(CbImm(d), 13) && CbImm(d) & 1 == 0
  {
  }

  lemma {:induction false} ImmediatesSp(d: bv32)
    ensures CiImm2(d) == OffsetDSp(d) && CiImm4(d) == OffsetWSp(d)
    ensures Fits(CiImm2(d), 12) && Fits(CiImm4(d), 12)
  {
  }

  lemma {:induction false} ImmediatesStore(d: bv32)
    ensures CssImm(d) == StoreDSp(d) && CssImm2(d) == StoreWSp(d)
    ensures Fits(CssImm(d), 12) && Fits(CssImm2(d), 12)
  {
  }

  // ----- quadrant by quadrant -----

  lemma {:induction false} Loads0Expand(prev: Insn, d: bv32)
    requires Copcode(d) < 4
    ensures Shortening(Quadrant0(d), InsnDecode(prev, Expand0(d)))
  {
    hide EncI, EncS, InsnDecode, RegField, ShortReg, Signed, Bits, CiwImm, CdImm, CwImm, Encoding.Fits, Copcode,
      Rp1Bits, Rp2Bits, Pop1, Pop2, Uimm4Spn, OffsetD, OffsetW;
    Immediates0(d);
    FieldBounds(d);
    PopularRegs(d);
    FixedRegs();
    match Copcode(d)
    case 0 => DecodeI(prev, CiwImm(d), 2, 0, Pop2(d), OP_IMM);
    case 1 => DecodeI(prev, CdImm(d), Pop1(d), 3, Pop2(d), LOAD_FP);
    case 2 => DecodeI(prev, CwImm(d), Pop1(d), 2, Pop2(d), LOAD);
    case 3 => DecodeI(prev, CdImm(d), Pop1(d), 3, Pop2(d), LOAD);
    case _ =>
  }

  lemma {:induction false} Stores0Expand(prev: Insn, d: bv32)
    requires 4 <= Copcode(d)
    ensures Shortening(Quadrant0(d), InsnDecode(prev, Expand0(d)))
  {
    hide EncI, EncS, InsnDecode, RegField, ShortReg, Signed, Bits, CiwImm, CdImm, CwImm, Encoding.Fits, Copcode,
      Rp1Bits, Rp2Bits, Pop1, Pop2, Uimm4Spn, OffsetD, OffsetW;
    Immediates0(d);
    FieldBounds(d);
    PopularRegs(d);
    match Copcode(d)
    case 5 => DecodeS(prev, CdImm(d), Pop2(d), Pop1(d), 3, STORE_FP);
    case 6 => DecodeS(prev, CwImm(d), Pop2(d), Pop1(d), 2, STORE);
    case 7 => DecodeS(prev, CdImm(d), Pop2(d), Pop1(d), 3, STORE);
    case _ =>
  }

  lemma {:induction false} Quadrant0Expands(prev: Insn, d: bv32)
    ensures Shortening(Quadrant0(d), InsnDecode(prev, Expand0(d)))
  {
    hide Quadrant0, Expand0, InsnDecode, Shortening;
    if Copcode(d) < 4 {
      Loads0Expand(prev, d);
    } else {
      Stores0Expand(prev, d);
    }
  }

  /** The shift amount read as signed six bits agrees modulo 64. */
  lemma {:induction false} ShiftReadings(d: bv32)
    ensures Signed(CiImm(d)) % 64 == Signed(Shamt(d)) % 64
    ensures Signed(0x400 | Shamt(d)) % 64 == Signed(Shamt(d)) % 64
  {
    hide Signed;
    SixBits(CiImm(d), Shamt(d));
    SixBits(0x400 | Shamt(d), Shamt(d));
  }

  lemma {:induction false} SixBits(a: bv32, b: bv32)
    requires a & 0x3f == b & 0x3f
    ensures Signed(a) % 64 == Signed(b) % 64
  {
    hide LowSix, High;
    SameLowSix(a, b);
  }

  lemma {:induction false} SameLowSix(a: bv32, b: bv32)
    requires a & 0x3f == b & 0x3f
    ensures LowSix(a) == LowSix(b)
  {
    assert (a >> 1) & 0x1f == (b >> 1) & 0x1f && a & 1 == b & 1;
  }

  lemma {:induction false} ArithExpands(prev: Insn, d: bv32)
    ensures Shortening(CArith(d), InsnDecode(prev, ExpandArith(d)))
  {
    hide EncI, EncR, InsnDecode, RegField, ShortReg, Signed, Bits, CiImm, Encoding.Fits, Cfunct1, Cfunct2Low,
      Cfunct2High, Rp1Bits, Rp2Bits, Pop1, Pop2, Shamt, Imm6, Imm16Sp, ImmLui, CiImm3, CiImm5, ExpandReg;
    Immediates1(d);
    FieldBounds(d);
    PopularRegs(d);
    ShiftReadings(d);
    SraiAmount(d);
    var r := Pop1(d);
    match Bits(d, 10, 2)
    case 0 => DecodeShift(prev, Shamt(d), r, 5, r);
    case 1 => DecodeShift(prev, 0x400 | Shamt(d), r, 5, r);
    case 2 => DecodeI(prev, CiImm(d), r, 7, r, OP_IMM);
    case _ => RegExpands(prev, d);
  }

  lemma {:induction false} RegExpands(prev: Insn, d: bv32)
    requires Bits(d, 10, 2) == 3
    ensures Shortening(CArith(d), InsnDecode(prev, ExpandReg(d)))
  {
    hide EncR, InsnDecode, RegField, ShortReg, Signed, Bits, CiImm, Cfunct1, Cfunct2Low, Cfunct2High,
      Rp1Bits, Rp2Bits, Pop1, Pop2;
    FieldBounds(d);
    PopularRegs(d);
    var r := Pop1(d);
    DecodeR(prev, 0x20, Pop2(d), r, 0, r, OP);
    DecodeR(prev, 0, Pop2(d), r, 4, r, OP);
    DecodeR(prev, 0, Pop2(d), r, 6, r, OP);
    DecodeR(prev, 0, Pop2(d), r, 7, r, OP);
    DecodeR(prev, 0x20, Pop2(d), r, 0, r, OP_32);
    DecodeR(prev, 0, Pop2(d), r, 0, r, OP_32);
  }

  lemma {:induction false} SraiAmount(d: bv32)
    ensures 0x400 <= 0x400 | Shamt(d) <= 0x43f
  {
  }

  lemma {:induction false} Immediate1Expands(prev: Insn, d: bv32)
    requires Copcode(d) < 4
    ensures Shortening(Quadrant1(d), InsnDecode(prev, Expand1(d)))
  {
    hide EncI, EncU, EncJ, EncB, InsnDecode, RegField, ShortReg, Signed, Bits, CiImm, CiImm3, CiImm5, CjImm, CbImm,
      Encoding.Fits, Copcode, RdBits, Rp1Bits, Rp2Bits, Pop1, Pop2, Shamt, CArith, ExpandArith,
      Imm6, Imm16Sp, ImmLui, OffsetJ, OffsetB;
    Immediates1(d);
    FieldBounds(d);
    FixedRegs();
    RegIs(RdBits(d));
    var rd := RdBits(d);
    match Copcode(d)
    case 0 => DecodeI(prev, CiImm(d), rd, 0, rd, OP_IMM);
    case 1 => DecodeI(prev, CiImm(d), rd, 0, rd, OP_IMM_32);
    case 2 => DecodeI(prev, CiImm(d), 0, 0, rd, OP_IMM);
    case 3 =>
      DecodeI(prev, CiImm3(d), 2, 0, 2, OP_IMM);
      DecodeU(prev, CiImm5(d), rd);
    case _ =>
  }

  lemma {:induction false} Control1Expands(prev: Insn, d: bv32)
    requires 4 <= Copcode(d)
    ensures Shortening(Quadrant1(d), InsnDecode(prev, Expand1(d)))
  {
    hide EncI, EncU, EncJ, EncB, InsnDecode, RegField, ShortReg, Signed, Bits, CiImm, CiImm3, CiImm5, CjImm, CbImm,
      Encoding.Fits, Copcode, RdBits, Rp1Bits, Rp2Bits, Pop1, Pop2, Shamt, CArith, ExpandArith,
      Imm6, Imm16Sp, ImmLui, OffsetJ, OffsetB;
    OffsetsJ(d);
    OffsetsJFit(d);
    OffsetsJEven(d);
    OffsetsB(d);
    FieldBounds(d);
    PopularRegs(d);
    FixedRegs();
    match Copcode(d)
    case 4 => ArithExpands(prev, d);
    case 5 => DecodeJ(prev, CjImm(d), 0);
    case 6 => DecodeB(prev, CbImm(d), 0, Pop1(d), 0);
    case 7 => DecodeB(prev, CbImm(d), 0, Pop1(d), 1);
    case _ =>
  }

  lemma {:induction false} Quadrant1Expands(prev: Insn, d: bv32)
    ensures Shortening(Quadrant1(d), InsnDecode(prev, Expand1(d)))
  {
    hide Quadrant1, Expand1, InsnDecode, Shortening;
    if Copcode(d) < 4 {
      Immediate1Expands(prev, d);
    } else {
      Control1Expands(prev, d);
    }
  }

  lemma {:induction false} JumpExpands(prev: Insn, d: bv32)
    requires Copcode(d) == 4
    ensures Shortening(CJump(d), InsnDecode(prev, Expand2(d)))
  {
    hide EncI, EncR, InsnDecode, RegField, Signed, Bits, Encoding.Fits, Copcode, RdBits, Rc2Bits, Cfunct1;
    FieldBounds(d);
    FixedRegs();
    RegIs(RdBits(d));
    RegIs(Rc2Bits(d));
    ZeroImm();
    var rd, rs2 := RdBits(d), Rc2Bits(d);
    DecodeI(prev, 0, rd, 0, 0, JALR);
    DecodeI(prev, 0, rd, 0, 1, JALR);
    DecodeR(prev, 0, rs2, 0, 0, rd, OP);
    DecodeR(prev, 0, rs2, rd, 0, rd, OP);
  }

  lemma {:induction false} ZeroImm()
    ensures Encoding.Fits(0, 12) && Signed(0) == 0
  {
  }

  lemma {:induction false} Loads2Expand(prev: Insn, d: bv32)
    requires Copcode(d) < 4
    ensures Shortening(Quadrant2(d), InsnDecode(prev, Expand2(d)))
  {
    hide EncI, EncR, EncS, InsnDecode, RegField, Signed, Bits, CiImm, CiImm2, CiImm4, CssImm, CssImm2, Encoding.Fits,
      Copcode, RdBits, Rc2Bits, Shamt, CJump, OffsetDSp, OffsetWSp, StoreDSp, StoreWSp;
    ImmediatesSp(d);
    FieldBounds(d);
    FixedRegs();
    ShiftReadings(d);
    var rd := RdBits(d);
    match Copcode(d)
    case 0 => DecodeShift(prev, Shamt(d), rd, 1, rd);
    case 1 => DecodeI(prev, CiImm2(d), 2, 3, rd, LOAD_FP);
    case 2 => DecodeI(prev, CiImm4(d), 2, 2, rd, LOAD);
    case 3 => DecodeI(prev, CiImm2(d), 2, 3, rd, LOAD);
    case _ =>
  }

  lemma {:induction false} Stores2Expand(prev: Insn, d: bv32)
    requires 4 <= Copcode(d)
    ensures Shortening(Quadrant2(d), InsnDecode(prev, Expand2(d)))
  {
    hide EncI, EncR, EncS, InsnDecode, RegField, Signed, Bits, CiImm, CiImm2, CiImm4, CssImm, CssImm2, Encoding.Fits,
      Copcode, RdBits, Rc2Bits, Shamt, CJump, OffsetDSp, OffsetWSp, StoreDSp, StoreWSp;
    ImmediatesStore(d);
    FieldBounds(d);
    FixedRegs();
    var rs2 := Rc2Bits(d);
    match Copcode(d)
    case 4 => JumpExpands(prev, d);
    case 5 => DecodeS(prev, CssImm(d), rs2, 2, 3, STORE_FP);
    case 6 => DecodeS(prev, CssImm2(d), rs2, 2, 2, STORE);
    case 7 => DecodeS(prev, CssImm(d), rs2, 2, 3, STORE);
    case _ =>
  }

  lemma {:induction false} Quadrant2Expands(prev: Insn, d: bv32)
    ensures Shortening(Quadrant2(d), InsnDecode(prev, Expand2(d)))
  {
    hide Quadrant2, Expand2, InsnDecode, Shortening;
    if Copcode(d) < 4 {
      Loads2Expand(prev, d);
    } else {
      Stores2Expand(prev, d);
    }
  }

  // ----- the results -----

  /** Every accepted compressed word decodes to its 32-bit expansion, shortened. */
  lemma {:induction false} CompressedExpands(prev: Insn, w: bv32)
    requires w & 3 != 3 && InsnDecode(prev, w).Some?
    ensures InsnDecode(prev, Expand(w)).Some?
    ensures Shortens(InsnDecode(prev, w).value, InsnDecode(prev, Expand(w)).value)
  {
    hide Quadrant0, Quadrant1, Quadrant2, Quadrant3, Expand0, Expand1, Expand2, Shortens;
    var d := w & 0xffff;
    Quadrant0Expands(prev, d);
    Quadrant1Expands(prev, d);
    Quadrant2Expands(prev, d);
  }

  /** Halfwords of section 16.8 that decode.c does not execute: the all-zero
      immediates of c.addi4spn, c.addi16sp and c.lui, x0 as the destination of
      c.addiw, c.lwsp and c.ldsp and as the source of c.jr, the unused rows of
      the arithmetic group and of the loads and stores, and c.ebreak. */
  predicate NotExecuted(w: bv32) {
    var f3, rd := Bits(w, 13, 3), Bits(w, 7, 5);
    match w & 3
    case 0 => f3 == 4 || (f3 == 0 && Bits(w, 5, 8) == 0)
    case 1 =>
      (f3 == 1 && rd == 0)
      || (f3 == 3 && Bits(w, 12, 1) == 0 && Bits(w, 2, 5) == 0)
      || (f3 == 4 && Bits(w, 10, 2) == 3 && Bits(w, 12, 1) == 1 && Bits(w, 6, 1) == 1)
    case _ => ((f3 == 2 || f3 == 3) && rd == 0) || (f3 == 4 && rd == 0 && Bits(w, 2, 5) == 0)
  }

  /** Which compressed words are accepted, exactly: all others decode, and
      decode to their expansions. */
  lemma {:induction false} AcceptedCompressed(prev: Insn, w: bv32)
    requires w & 3 != 3
    ensures InsnDecode(prev, w).Some? <==> !NotExecuted(w)
    ensures !NotExecuted(w) ==>
              InsnDecode(prev, Expand(w)).Some?
              && Shortens(InsnDecode(prev, w).value, InsnDecode(prev, Expand(w)).value)
  {
    hide Quadrant0, Quadrant1, Quadrant2, Quadrant3, Expand, Shortens, NotExecuted;
    Accepted0(w);
    Accepted1(w);
    Accepted2(w);
    if InsnDecode(prev, w).Some? {
      CompressedExpands(prev, w);
    }
  }

  lemma {:induction false} Accepted0(w: bv32)
    ensures w & 3 == 0 ==> (Quadrant0(w & 0xffff).Some? <==> !NotExecuted(w))
  {
    hide Signed, Rp1, Rp2, CdImm, CwImm;
  }

  /** The fields that decide, in the halfword and in the word. */
  lemma {:induction false} Deciding1(w: bv32)
    ensures var d := w & 0xffff;
            && Copcode(d) == Bits(w, 13, 3) && RdBits(d) == Bits(w, 7, 5) && Cfunct1(d) == Bits(w, 12, 1)
            && Cfunct2High(d) == Bits(w, 10, 2) && Rc2Bits(d) == Bits(w, 2, 5)
            && (Cfunct2Low(d) >= 2 <==> Bits(w, 6, 1) == 1)
            && (CiImm5(d) == 0 <==> Bits(w, 12, 1) == 0 && Bits(w, 2, 5) == 0)
            && (CiImm3(d) == 0 <==> Bits(w, 12, 1) == 0 && Bits(w, 2, 5) == 0)
  {
  }

  lemma {:induction false} ThreeBits(d: bv32)
    ensures Copcode(d) <= 7 && Cfunct2High(d) <= 3 && Cfunct2Low(d) <= 3 && Cfunct1(d) <= 1
    ensures Bits(d, 13, 3) <= 7 && RdBits(d) <= 31 && Rc2Bits(d) <= 31
  {
  }

  lemma {:induction false} RegZero(b: bv32)
    requires b <= 31
    ensures RegField(b) == 0 <==> b == 0
    ensures RegField(b) == 2 <==> b == 2
  {
    assert b & 0x1f == b;
  }

  lemma {:induction false} Accepted1(w: bv32)
    ensures w & 3 == 1 ==> (Quadrant1(w & 0xffff).Some? <==> !NotExecuted(w))
  {
    hide Signed, RegField, ShortReg, Bits, CiImm, CiImm3, CiImm5, CjImm, CbImm, Copcode, Cfunct1, Cfunct2Low,
      Cfunct2High, RdBits, Rc2Bits, Rp1, Rp2;
    var d := w & 0xffff;
    Deciding1(w);
    ThreeBits(d);
    RegZero(RdBits(d));
  }

  lemma {:induction false} Accepted2(w: bv32)
    ensures w & 3 == 2 ==> (Quadrant2(w & 0xffff).Some? <==> !NotExecuted(w))
  {
    hide Signed, RegField, ShortReg, Bits, CiImm, CiImm2, CiImm4, CssImm, CssImm2, Copcode, Cfunct1, RdBits, Rc2Bits;
    var d := w & 0xffff;
    Deciding1(w);
    ThreeBits(d);
    RegZero(RdBits(d));
    RegZero(Rc2Bits(d));
  }

  /** The upper halfword of a compressed word, and the record's earlier
      contents, do not matter. */
  lemma {:induction false} UpperHalfIgnored(prev: Insn, prev': Insn, w: bv32, w': bv32)
    requires w & 3 != 3 && w & 0xffff == w' & 0xffff
    ensures InsnDecode(prev, w) == InsnDecode(prev', w')
  {
    hide Quadrant0, Quadrant1, Quadrant2, Quadrant3;
    assert w & 3 == w' & 3;
  }

  /** The same effect, except for the link address of a jump. */
  predicate SameEffect(i: Insn, e: Guest.Effect, f: Guest.Effect, pc: u64) {
    if !(i.ty.Jal? || i.ty.Jalr?) then e == f
    else f.Effect? && e == Guest.Effect(f.cpu.(gp := f.cpu.gp[i.rd := Wrap(pc + 2)][0 := 0]), f.exit)
  }

  lemma {:induction false} ShortensEffect(fpu: Guest.Fpu, i: Insn, j: Insn, c: Guest.Cpu)
    requires Shortens(i, j)
    ensures SameEffect(i, Guest.Exec(fpu, i, c), Guest.Exec(fpu, j, c), c.pc)
  {
    hide Alu.RegAlu, Guest.LoadLE, Guest.StoreLE, Wrap, Guest.LoadValue, Guest.WriteFp, Guest.ReadFp, SExt32,
      Guest.Boxed, Alu.Taken, Pow2, Xor64, Or64, And64, Alu.ShiftRight, S64, S32, Lo32;
    if i.ty.Jal? || i.ty.Jalr? {
      var e, f := Guest.Exec(fpu, i, c), Guest.Exec(fpu, j, c);
      assert e.cpu.gp == f.cpu.gp[i.rd := Wrap(c.pc + 2)][0 := 0];
    }
  }

  /** Executing an accepted compressed word is executing its expansion, except
      for the two-byte advance and link address. */
  lemma {:induction false} CompressedEffect(fpu: Guest.Fpu, w: bv32, c: Guest.Cpu)
    requires w & 3 != 3 && InsnDecode(ZERO_INSN, w).Some?
    ensures var i, j := InsnDecode(ZERO_INSN, w).value, InsnDecode(ZERO_INSN, Expand(w));
            j.Some? && InsnLength(i) == 2 && InsnLength(j.value) == 4
            && SameEffect(i, Guest.Exec(fpu, i, c), Guest.Exec(fpu, j.value, c), c.pc)
  {
    hide InsnDecode, Expand, SameEffect;
    CompressedExpands(ZERO_INSN, w);
    ShortensEffect(fpu, InsnDecode(ZERO_INSN, w).value, InsnDecode(ZERO_INSN, Expand(w)).value, c);
  }
}
