/** Control flow stays on even addresses, interpreted or compiled. */
module Alignment {
  import opened Words
  import opened Insn
  import opened Guest
  import opened Decode
  import opened Block
  import GenBlock
  import Region
  import Alu
  import Shape

  lemma {:induction false} EvenSigned(b: bv32)
    requires b & 1 == 0
    ensures Signed(b) % 2 == 0
  {
    hide High, LowSix;
    EvenLow(b);
    EvenParts(LowSix(b), High(b));
  }

  lemma {:induction false} EvenParts(low: int, high: int)
    requires low % 2 == 0
    ensures (low + 64 * high) % 2 == 0 && (low + 64 * high - 0x8000_0000) % 2 == 0
  {
  }

  lemma {:induction false} EvenLow(b: bv32)
    requires b & 1 == 0
    ensures LowSix(b) % 2 == 0
  {
    assert b & 1 != 1;
  }

  lemma {:induction false} BranchImmediatesEven(d: bv32)
    ensures BImm(d) & 1 == 0 && JImm(d) & 1 == 0
  {
  }

  lemma {:induction false} CompressedOffsetsEven(d: bv32)
    ensures CjImm(d) & 1 == 0 && CbImm(d) & 1 == 0
  {
  }

  predicate EvenOffset(i: Option<Insn>) {
    i.Some? && (i.value.ty.Branch? || i.value.ty.Jal?) ==> i.value.imm % 2 == 0
  }

  /** Branch and jal offsets decode to even numbers. */
  lemma {:induction false} DecodedOffsetsEven(prev: Insn, w: bv32)
    ensures EvenOffset(InsnDecode(prev, w))
  {
    hide InsnDecode, Signed, BImm, JImm, CbImm, CjImm;
    var d := w & 0xffff;
    Shape.WordShape(prev, w);
    BranchImmediatesEven(w);
    CompressedOffsetsEven(d);
    EvenSigned(BImm(w));
    EvenSigned(JImm(w));
    EvenSigned(CbImm(d));
    EvenSigned(CjImm(d));
  }

  lemma {:induction false} EvenSum(a: int, b: int)
    requires a % 2 == 0 && b % 2 == 0
    ensures Wrap(a + b) % 2 == 0
  {
  }

  /** One step keeps an even pc even. */
  lemma {:induction false} EvenStep(fpu: Fpu, c: Cpu)
    requires c.pc % 2 == 0 && !Step(fpu, c).Aborted?
    ensures Step(fpu, c).cpu.pc % 2 == 0
  {
    hide InsnDecode, Fetch, Alu.ImmAlu, Alu.RegAlu, LoadLE, StoreLE, Wrap, LoadValue, WriteFp, ReadFp, SExt32, Boxed,
      Alu.Taken;
    if c.pc != 0 {
      var w := Fetch(c.mem, c.pc);
      DecodedOffsetsEven(ZERO_INSN, w);
      var i := InsnDecode(ZERO_INSN, w).value;
      EvenSum(c.pc, 2);
      EvenSum(c.pc, 4);
      if i.ty.Branch? || i.ty.Jal? {
        EvenSum(c.pc, i.imm);
      }
    }
  }

  /** From an even pc, every pc the plain loop reaches is even. */
  lemma {:induction false} EvenRun(fpu: Fpu, c: Cpu, n: nat)
    requires c.pc % 2 == 0
    ensures Run(fpu, c, n).Aborted? || Run(fpu, c, n).cpu.pc % 2 == 0
    decreases n
  {
    hide Step;
    if n != 0 {
      EvenRun(fpu, c, n - 1);
      var o := Run(fpu, c, n - 1);
      if o.Running? && !Step(fpu, o.cpu).Aborted? {
        EvenStep(fpu, o.cpu);
      }
    }
  }

  /** Every label of a block generated from an even pc is even. */
  lemma {:induction false} EvenLabels(p: Program, m: Mem, entry: u64)
    requires GenBlock.IsBlockFor(p, m, entry) && entry % 2 == 0
    ensures forall pc <- p.code :: pc % 2 == 0
  {
    hide Region.SuccessorsAt, GeneratedFrom;
    var even := iset pc: u64 | pc % 2 == 0;
    forall pc <- even
      ensures forall q <- Region.SuccessorsAt(m, pc) :: q in even
    {
      EvenSuccessors(m, pc);
    }
    assert Region.Closed(m, even);
  }

  lemma {:induction false} EvenSuccessors(m: Mem, pc: u64)
    requires pc % 2 == 0
    ensures forall q <- Region.SuccessorsAt(m, pc) :: q % 2 == 0
  {
    hide InsnDecode, Fetch, Wrap;
    DecodedOffsetsEven(ZERO_INSN, Fetch(m, pc));
    EvenSum(pc, 2);
    EvenSum(pc, 4);
    var i := InsnDecode(ZERO_INSN, Fetch(m, pc));
    if i.Some? && (i.value.ty.Branch? || i.value.ty.Jal?) {
      EvenSum(pc, i.value.imm);
    }
  }
}
