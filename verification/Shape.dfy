/** What every decoded instruction looks like, whichever word it came from. */
module Shape {
  import opened Words
  import opened Insn
  import opened Decode

  /** What the rest of the emulator relies on: jumps and ecalls, and only they,
      are marked as leaving the block, and immediates are 32-bit. */
  predicate Decoded(i: Insn) {
    && (i.cont <==> i.ty.Jal? || i.ty.Jalr? || i.ty.Ecall?)
    && (i.ty.Ecall? || -TWO31 <= i.imm < TWO31)
  }

  /** A decoding result whose branch and jump offsets are the given fields. */
  predicate Shaped(i: Option<Insn>, branch: bv32, jump: bv32) {
    i.Some? ==>
      && Decoded(i.value)
      && (i.value.ty.Branch? ==> i.value.imm == Signed(branch))
      && (i.value.ty.Jal? ==> i.value.imm == Signed(jump))
  }

  /** The same for a compressed word. */
  predicate ShortShaped(i: Option<Insn>, d: bv32) {
    Shaped(i, CbImm(d), CjImm(d))
  }

  lemma {:induction false} Shape0(d: bv32)
    ensures ShortShaped(Quadrant0(d), d)
  {
    hide Signed, Copcode, Rp1, Rp2, CiwImm, CdImm, CwImm, CbImm, CjImm;
  }

  lemma {:induction false} ShapeArith(d: bv32)
    ensures ShortShaped(CArith(d), d)
  {
    hide Signed, Rp1, Rp2, CiImm, Cfunct1, Cfunct2Low, Cfunct2High, CbImm, CjImm;
  }

  lemma {:induction false} Shape1(d: bv32)
    ensures ShortShaped(Quadrant1(d), d)
  {
    hide Signed, Copcode, Rp1, Rc1, CiImm, CiImm3, CiImm5, CbImm, CjImm, CArith;
    ShapeArith(d);
  }

  lemma {:induction false} ShapeJump(d: bv32)
    ensures ShortShaped(CJump(d), d)
  {
    hide Signed, Rc1, Rc2, Cfunct1, CbImm, CjImm;
  }

  lemma {:induction false} Shape2(d: bv32)
    ensures ShortShaped(Quadrant2(d), d)
  {
    hide Signed, Copcode, Rc1, Rc2, CiImm, CiImm2, CiImm4, CssImm, CssImm2, CbImm, CjImm, CJump;
    ShapeJump(d);
  }

  lemma {:induction false} FullShape(prev: Insn, d: bv32)
    ensures Shaped(Quadrant3(prev, d), BImm(d), JImm(d))
  {
    hide Signed, Opcode, Funct3, Rd, Rs1, Rs2, UImm, IImm, JImm, BImm, SImm,
      ImmOpOf, ImmWOpOf, RegOpOf, RegWOpOf, LoadOpOf, BranchOpOf, CsrOpOf, FpTypeOf, FusedOf;
    FpShape(d);
  }

  lemma {:induction false} FpShape(d: bv32)
    ensures forall op, b, j :: Shaped(FusedOf(op, d), b, j)
    ensures var t := FpTypeOf(d); t.Some? ==> !(t.value.Jal? || t.value.Jalr? || t.value.Ecall? || t.value.Branch?)
  {
    hide Funct2, Funct3, Funct7, PrecOf, Rd, Rs1, Rs2, Rs3;
  }

  /** Every accepted word, whatever the record held before. */
  lemma {:induction false} WordShape(prev: Insn, w: bv32)
    ensures Shaped(InsnDecode(prev, w), BImm(w), JImm(w))
            || ShortShaped(InsnDecode(prev, w), w & 0xffff)
  {
    hide Quadrant0, Quadrant1, Quadrant2, Quadrant3, Shaped, ShortShaped;
    Shape0(w & 0xffff);
    Shape1(w & 0xffff);
    Shape2(w & 0xffff);
    FullShape(prev, w);
  }
}
