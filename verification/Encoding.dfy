/** Encoders for the instruction formats of the RISC-V Unprivileged ISA
    20191213, sections 2.3 and 16.8, and the proof that decode.c reads back
    every immediate and register they are given. */
module Encoding {
  import opened Words
  import opened Insn
  import opened Decode

  /** imm is the sign extension of its low n bits. */
  predicate Fits(imm: bv32, n: bv6)
    requires 1 <= n <= 32
  {
    imm == AShr(imm << (32 - n), 32 - n)
  }

  predicate IsReg(r: bv32) {
    r <= 31
  }

  /** n bits of d starting at bit lo. */
  function Bits(d: bv32, lo: bv6, n: bv6): bv32
    requires lo <= 31 && n <= 31
  {
    (d >> lo) & ((1 << n) - 1)
  }

  // ----- 32-bit formats -----

  function EncR(f7: bv32, rs2: bv32, rs1: bv32, f3: bv32, rd: bv32, op: bv32): bv32 {
    (f7 << 25) | (rs2 << 20) | (rs1 << 15) | (f3 << 12) | (rd << 7) | op
  }

  function EncI(imm: bv32, rs1: bv32, f3: bv32, rd: bv32, op: bv32): bv32 {
    (imm << 20) | (rs1 << 15) | (f3 << 12) | (rd << 7) | op
  }

  function EncS(imm: bv32, rs2: bv32, rs1: bv32, f3: bv32, op: bv32): bv32 {
    (Bits(imm, 5, 7) << 25) | (rs2 << 20) | (rs1 << 15) | (f3 << 12) | (Bits(imm, 0, 5) << 7) | op
  }

  function EncB(imm: bv32, rs2: bv32, rs1: bv32, f3: bv32, op: bv32): bv32 {
    (Bits(imm, 12, 1) << 31) | (Bits(imm, 5, 6) << 25) | (rs2 << 20) | (rs1 << 15) | (f3 << 12)
    | (Bits(imm, 1, 4) << 8) | (Bits(imm, 11, 1) << 7) | op
  }

  function EncU(imm: bv32, rd: bv32, op: bv32): bv32 {
    (imm & 0xffff_f000) | (rd << 7) | op
  }

  function EncJ(imm: bv32, rd: bv32, op: bv32): bv32 {
    (Bits(imm, 20, 1) << 31) | (Bits(imm, 1, 10) << 21) | (Bits(imm, 11, 1) << 20)
    | (Bits(imm, 12, 8) << 12) | (rd << 7) | op
  }

  predicate IsOpcode(op: bv32) {
    op <= 0x7f && op & 3 == 3
  }

  lemma {:induction false} RoundTripR(f7: bv32, rs2: bv32, rs1: bv32, f3: bv32, rd: bv32, op: bv32)
    requires f7 <= 0x7f && f3 <= 7 && IsReg(rs1) && IsReg(rs2) && IsReg(rd) && IsOpcode(op)
    ensures var w := EncR(f7, rs2, rs1, f3, rd, op);
            w & 3 == 3 && Opcode(w) == op >> 2 && Funct3(w) == f3 && Funct7(w) == f7
            && Rs1Bits(w) == rs1 && Rs2Bits(w) == rs2 && RdBits(w) == rd
  {
  }

  lemma {:induction false} RoundTripI(imm: bv32, rs1: bv32, f3: bv32, rd: bv32, op: bv32)
    requires Fits(imm, 12) && f3 <= 7 && IsReg(rs1) && IsReg(rd) && IsOpcode(op)
    ensures var w := EncI(imm, rs1, f3, rd, op);
            w & 3 == 3 && Opcode(w) == op >> 2 && Funct3(w) == f3 && IImm(w) == imm
            && Rs1Bits(w) == rs1 && RdBits(w) == rd
  {
  }

  /** The function bits above a shift amount. */
  lemma {:induction false} RoundTripShift(imm: bv32, rs1: bv32, f3: bv32, rd: bv32, op: bv32)
    requires imm <= 0x7ff && f3 <= 7 && IsReg(rs1) && IsReg(rd) && IsOpcode(op)
    ensures Imm116(EncI(imm, rs1, f3, rd, op)) == imm >> 6
  {
  }

  lemma {:induction false} RoundTripS(imm: bv32, rs2: bv32, rs1: bv32, f3: bv32, op: bv32)
    requires Fits(imm, 12) && f3 <= 7 && IsReg(rs1) && IsReg(rs2) && IsOpcode(op)
    ensures var w := EncS(imm, rs2, rs1, f3, op);
            w & 3 == 3 && Opcode(w) == op >> 2 && Funct3(w) == f3 && SImm(w) == imm
            && Rs1Bits(w) == rs1 && Rs2Bits(w) == rs2
  {
  }

  lemma {:induction false} RoundTripB(imm: bv32, rs2: bv32, rs1: bv32, f3: bv32, op: bv32)
    requires Fits(imm, 13) && imm & 1 == 0 && f3 <= 7 && IsReg(rs1) && IsReg(rs2) && IsOpcode(op)
    ensures var w := EncB(imm, rs2, rs1, f3, op);
            w & 3 == 3 && Opcode(w) == op >> 2 && Funct3(w) == f3 && BImm(w) == imm
            && Rs1Bits(w) == rs1 && Rs2Bits(w) == rs2
  {
  }

  lemma {:induction false} RoundTripU(imm: bv32, rd: bv32, op: bv32)
    requires imm & 0xfff == 0 && IsReg(rd) && IsOpcode(op)
    ensures var w := EncU(imm, rd, op);
            w & 3 == 3 && Opcode(w) == op >> 2 && UImm(w) == imm && RdBits(w) == rd
  {
  }

  lemma {:induction false} RoundTripJ(imm: bv32, rd: bv32, op: bv32)
    requires Fits(imm, 21) && imm & 1 == 0 && IsReg(rd) && IsOpcode(op)
    ensures var w := EncJ(imm, rd, op);
            w & 3 == 3 && Opcode(w) == op >> 2 && JImm(w) == imm && RdBits(w) == rd
  {
  }

  // ----- compressed formats with scrambled immediates -----

  /** c.j and c.jal: imm[11|4|9:8|10|6|7|3:1|5]. */
  function EncCJ(imm: bv32): bv32 {
    (5 << 13) | (Bits(imm, 11, 1) << 12) | (Bits(imm, 4, 1) << 11) | (Bits(imm, 8, 2) << 9) | (Bits(imm, 10, 1) << 8)
    | (Bits(imm, 6, 1) << 7) | (Bits(imm, 7, 1) << 6) | (Bits(imm, 1, 3) << 3) | (Bits(imm, 5, 1) << 2) | 1
  }

  /** c.beqz and c.bnez: imm[8|4:3] rs1' imm[7:6|2:1|5]. */
  function EncCB(f3: bv32, imm: bv32, rs1: bv32): bv32 {
    (f3 << 13) | (Bits(imm, 8, 1) << 12) | (Bits(imm, 3, 2) << 10) | (rs1 << 7)
    | (Bits(imm, 6, 2) << 5) | (Bits(imm, 1, 2) << 3) | (Bits(imm, 5, 1) << 2) | 1
  }

  /** c.addi, c.li, c.slli and their kin: imm[5] rd imm[4:0]. */
  function EncCI(f3: bv32, imm: bv32, rd: bv32, op: bv32): bv32 {
    (f3 << 13) | (Bits(imm, 5, 1) << 12) | (rd << 7) | (Bits(imm, 0, 5) << 2) | op
  }

  lemma {:induction false} RoundTripCJ(imm: bv32)
    requires Fits(imm, 12) && imm & 1 == 0
    ensures CjImm(EncCJ(imm)) == imm && Copcode(EncCJ(imm)) == 5 && EncCJ(imm) & 3 == 1
  {
  }

  lemma {:induction false} RoundTripCB(f3: bv32, imm: bv32, rs1: bv32)
    requires Fits(imm, 9) && imm & 1 == 0 && rs1 <= 7 && (f3 == 6 || f3 == 7)
    ensures var w := EncCB(f3, imm, rs1);
            CbImm(w) == imm && Copcode(w) == f3 && w & 3 == 1 && Rp1Bits(w) == rs1
  {
  }

  lemma {:induction false} RoundTripCI(f3: bv32, imm: bv32, rd: bv32, op: bv32)
    requires Fits(imm, 6) && f3 <= 7 && IsReg(rd) && op <= 3
    ensures var w := EncCI(f3, imm, rd, op);
            CiImm(w) == imm && Copcode(w) == f3 && w & 3 == op && RdBits(w) == rd
  {
  }
}
