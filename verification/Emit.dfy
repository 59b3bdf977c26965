/** The expression texts of the integer emitters of codegen.c, and the proof
    that C gives each of them the value the interpreter's handler computes. */
module Emit {
  import opened Words
  import opened Insn
  import opened CText
  import Alu

  /** `rs1 + (int64_t)immLL`, the address and addi text. */
  function PlusImm(imm: int): Expr {
    Bin(CAdd, Var(Rs1), Cast(I64, Lit(I64, imm)))
  }

  function ImmText(op: ImmOp, imm: int): Expr {
    match op
    case Addi => PlusImm(imm)
    case Slli => Bin(CShl, Var(Rs1), Lit(I32, imm % 64))
    case Slti => Cond(Bin(CLt, Cast(I64, Var(Rs1)), Cast(I64, Lit(I64, imm))), Lit(I32, 1), Lit(I32, 0))
    case Sltiu => Cond(Bin(CLt, Var(Rs1), Lit(U64, Wrap(imm))), Lit(I32, 1), Lit(I32, 0))
    case Xori => Bin(CXor, Var(Rs1), Lit(I64, imm))
    case Srli => Bin(CShr, Var(Rs1), Lit(I32, imm % 64))
    case Srai => Bin(CShr, Cast(I64, Var(Rs1)), Lit(I32, imm % 64))
    case Ori => Bin(COr, Var(Rs1), Lit(U64, Wrap(imm)))
    case Andi => Bin(CAnd, Var(Rs1), Lit(U64, Wrap(imm)))
    case Addiw => Cast(I64, Cast(I32, PlusImm(imm)))
    case Slliw => Cast(I64, Cast(I32, Bin(CShl, Var(Rs1), Lit(I32, imm % 32))))
    case Srliw => Cast(I64, Cast(I32, Bin(CShr, Cast(U32, Var(Rs1)), Lit(I32, imm % 32))))
    case Sraiw => Cast(I64, Bin(CShr, Cast(I32, Var(Rs1)), Lit(I32, imm % 32)))
  }

  const RS2_IS_ZERO := Bin(CEq, Var(Rs2), Lit(I32, 0))

  function Low(k: int): Expr {
    Bin(CAnd, Var(Rs2), Lit(I32, k))
  }

  function SWord(s: Slot): Expr {
    Cast(I64, Cast(I32, Var(s)))
  }

  function UWord(s: Slot): Expr {
    Cast(U32, Var(s))
  }

  function Sext(e: Expr): Expr {
    Cast(I64, Cast(I32, e))
  }

  /** The text assigned to rd by the register-register emitters; for div, divu
      and rem this is the statement chain that sets the local rd, and the three
      interp-only multiplications have none. */
  function RegText(op: RegOp): Option<Expr> {
    match op
    case Add => Some(Bin(CAdd, Var(Rs1), Var(Rs2)))
    case Sll => Some(Bin(CShl, Var(Rs1), Low(0x3f)))
    case Slt => Some(Cond(Bin(CLt, Cast(I64, Var(Rs1)), Cast(I64, Var(Rs2))), Lit(I32, 1), Lit(I32, 0)))
    case Sltu => Some(Cond(Bin(CLt, Cast(U64, Var(Rs1)), Cast(U64, Var(Rs2))), Lit(I32, 1), Lit(I32, 0)))
    case Xor => Some(Bin(CXor, Var(Rs1), Var(Rs2)))
    case Srl => Some(Bin(CShr, Var(Rs1), Low(0x3f)))
    case Or => Some(Bin(COr, Var(Rs1), Var(Rs2)))
    case And => Some(Bin(CAnd, Var(Rs1), Var(Rs2)))
    case Mul => Some(Bin(CMul, Var(Rs1), Var(Rs2)))
    case Sub => Some(Bin(CSub, Var(Rs1), Var(Rs2)))
    case Sra => Some(Bin(CShr, Cast(I64, Var(Rs1)), Low(0x3f)))
    case Remu => Some(Cond(RS2_IS_ZERO, Var(Rs1), Bin(CMod, Var(Rs1), Var(Rs2))))
    case Addw => Some(Sext(Bin(CAdd, Var(Rs1), Var(Rs2))))
    case Sllw => Some(Sext(Bin(CShl, Var(Rs1), Low(0x1f))))
    case Srlw => Some(Sext(Bin(CShr, UWord(Rs1), Low(0x1f))))
    case Mulw => Some(Sext(Bin(CMul, Var(Rs1), Var(Rs2))))
    case Divw => Some(Cond(RS2_IS_ZERO, Lit(U64, TWO64 - 1), Cast(I32, Bin(CDiv, SWord(Rs1), SWord(Rs2)))))
    case Divuw => Some(Cond(RS2_IS_ZERO, Lit(U64, TWO64 - 1), Cast(I32, Bin(CDiv, UWord(Rs1), UWord(Rs2)))))
    case Remw => Some(Cond(RS2_IS_ZERO, SWord(Rs1), Sext(Bin(CMod, SWord(Rs1), SWord(Rs2)))))
    case Remuw => Some(Cond(RS2_IS_ZERO, Sext(UWord(Rs1)), Sext(Bin(CMod, UWord(Rs1), UWord(Rs2)))))
    case Subw => Some(Sext(Bin(CSub, Var(Rs1), Var(Rs2))))
    case Sraw => Some(Sext(Bin(CShr, Cast(I32, Var(Rs1)), Low(0x1f))))
    case _ => None
  }

  /** `if (c) rd = e; else if ...`: the guarded assignments of div, divu, rem. */
  datatype Arm = Arm(guards: seq<Expr>, value: Expr)

  const OVERFLOWS := [Bin(CEq, Var(Rs1), Lit(I64, -TWO63)), Bin(CEq, Var(Rs2), Lit(U64, TWO64 - 1))]

  function ChainText(op: RegOp): Option<seq<Arm>> {
    match op
    case Div => Some([
      Arm([RS2_IS_ZERO], Lit(U64, TWO64 - 1)),
      Arm(OVERFLOWS, Lit(I64, -TWO63)),
      Arm([], Bin(CDiv, Cast(I64, Var(Rs1)), Cast(I64, Var(Rs2))))])
    case Divu => Some([
      Arm([RS2_IS_ZERO], Lit(U64, TWO64 - 1)),
      Arm([], Bin(CDiv, Var(Rs1), Var(Rs2)))])
    case Rem => Some([
      Arm([RS2_IS_ZERO], Var(Rs1)),
      Arm(OVERFLOWS, Lit(I32, 0)),
      Arm([], Bin(CMod, Cast(I64, Var(Rs1)), Cast(I64, Var(Rs2))))])
    case _ => None
  }

  /** Truth of a conjunction of guards, left to right; None if undefined. */
  function EvalGuards(gs: seq<Expr>, env: Env): Option<bool> {
    if gs == [] then Some(true)
    else match Eval(gs[0], env)
      case None => None
      case Some(v) => if v.v == 0 then Some(false) else EvalGuards(gs[1..], env)
  }

  /** The value the first arm whose guards hold assigns. */
  function EvalChain(arms: seq<Arm>, env: Env): Option<CVal> {
    if arms == [] then None
    else match EvalGuards(arms[0].guards, env)
      case None => None
      case Some(b) => if b then Eval(arms[0].value, env) else EvalChain(arms[1..], env)
  }

  /** Text of a branch condition: `(typ)rs1 op (typ)rs2`. */
  function BranchText(op: BranchOp): Expr {
    var t := if op.Blt? || op.Bge? then I64 else U64;
    var c := match op
      case Beq => CEq
      case Bne => CNe
      case Blt => CLt
      case Bltu => CLt
      case Bge => CGe
      case Bgeu => CGe;
    Bin(c, Cast(t, Var(Rs1)), Cast(t, Var(Rs2)))
  }

  /** `(rs1 + (int64_t)immLL) & ~(uint64_t)1`. */
  function JalrText(imm: int): Expr {
    Bin(CAnd, PlusImm(imm), Lit(U64, TWO64 - 2))
  }

  // ----- value facts -----

  lemma {:induction false} Conversions(v: int)
    ensures Convert(U64, v) == Wrap(v) && Convert(I64, v) == S64(v)
    ensures Convert(U32, v) == Lo32(v) && Convert(I32, v) == S32(v)
    ensures Wrap(S64(v)) == Wrap(v) && S64(Wrap(v)) == S64(v) && Wrap(Wrap(v)) == Wrap(v) && S64(S64(v)) == S64(v)
    ensures S32(Wrap(v)) == S32(v) && Lo32(Wrap(v)) == Lo32(v)
    ensures S64(S32(v)) == S32(v) && S32(Lo32(v)) == S32(v) && S32(S32(v)) == S32(v)
  {
    hide Wrap, S64, S32, Lo32;
    Conversions64(v);
    Conversions32(v);
  }

  lemma {:induction false} Conversions64(v: int)
    ensures Wrap(S64(v)) == Wrap(v) && S64(Wrap(v)) == S64(v) && Wrap(Wrap(v)) == Wrap(v) && S64(S64(v)) == S64(v)
  {
  }

  lemma {:induction false} Conversions32(v: int)
    ensures S32(Wrap(v)) == S32(v) && Lo32(Wrap(v)) == Lo32(v)
    ensures S64(S32(v)) == S32(v) && S32(Lo32(v)) == S32(v) && S32(S32(v)) == S32(v)
  {
    hide Wrap, Lo32, S32, S64;
    LowOfWrap(v);
    SignedLow(v);
    SignedLow(Wrap(v));
    SignedLow(S32(v));
    SignedStays(S32(v));
  }

  lemma {:induction false} LowOfWrap(v: int)
    ensures Lo32(Wrap(v)) == Lo32(v)
  {
  }

  lemma {:induction false} SignedLow(v: int)
    ensures S32(v) == (if Lo32(v) < TWO31 then Lo32(v) else Lo32(v) - TWO32) && S32(Lo32(v)) == S32(v)
  {
  }

  lemma {:induction false} SignedStays(v: int)
    requires -TWO31 <= v < TWO31
    ensures S64(v) == v && S32(v) == v
  {
  }

  lemma {:induction false} WordId(x: u64)
    ensures Wrap(x) == x
  {
  }

  lemma {:induction false} WrapSum(a: int, b: int)
    ensures Wrap(Wrap(a) + Wrap(b)) == Wrap(a + b)
  {
    var m := 0x1_0000_0000_0000_0000;
    assert a == a / m * m + Wrap(a) && b == b / m * m + Wrap(b);
    hide Wrap;
    Alu.WrapCongruent(Wrap(a) + Wrap(b), a / m + b / m);
  }

  predicate Holds(env: Env, a: u64) {
    Rs1 in env && env[Rs1] == CVal(U64, a)
  }

  predicate HoldsBoth(env: Env, a: u64, b: u64) {
    Holds(env, a) && Rs2 in env && env[Rs2] == CVal(U64, b)
  }

  /** What `x = e` stores: the value of e converted to u64. */
  function Assigned(e: Expr, env: Env): Option<u64> {
    match Eval(e, env)
    case None => None
    case Some(v) => Some(Wrap(v.v))
  }

  lemma {:induction false} PlusImmValue(imm: int, a: u64, env: Env)
    requires Holds(env, a)
    ensures Eval(PlusImm(imm), env) == Some(CVal(U64, Wrap(a + imm)))
  {
    Conversions(imm);
    Conversions(a);
    Conversions(S64(imm));
    WrapSum(a, imm);
    var r := Cast(I64, Lit(I64, imm));
    assert Eval(r, env) == Some(CVal(I64, S64(imm)));
    Conversions(Wrap(a) + Wrap(imm));
  }

  // ----- immediates -----

  lemma {:induction false} WordImm(op: ImmOp, imm: int, a: u64, env: Env)
    requires Holds(env, a) && (op.Addiw? || op.Slliw? || op.Srliw? || op.Sraiw?)
    ensures Assigned(ImmText(op, imm), env) == Some(Alu.ImmAlu(op, a, imm))
  {
    hide Wrap, S64, S32, Lo32, Pow2, PlusImm;
    var k := imm % 32;
    PlusImmValue(imm, a, env);
    WordOperand(Rs1, a, env);
    Conversions(S32(a) / Pow2(k));
    match op
    case Addiw =>
      SextValue(PlusImm(imm), a + imm, env);
    case Slliw =>
      SextValue(Bin(CShl, Var(Rs1), Lit(I32, k)), a * Pow2(k), env);
    case Srliw =>
      SextOf(Bin(CShr, UWord(Rs1), Lit(I32, k)), Lo32(a) / Pow2(k), env);
    case Sraiw =>
      var e := Bin(CShr, Cast(I32, Var(Rs1)), Lit(I32, k));
      assert Eval(e, env) == Some(CVal(I32, S32(a) / Pow2(k)));
  }

  /** `(int64_t)(int32_t)e`, stored to a register. */
  lemma {:induction false} SextOf(e: Expr, v: int, env: Env)
    requires Eval(e, env).Some? && Eval(e, env).value.v == v
    ensures Eval(Sext(e), env) == Some(CVal(I64, S32(v)))
    ensures Assigned(Sext(e), env) == Some(SExt32(v))
  {
    Conversions(v);
    assert Eval(Cast(I32, e), env) == Some(CVal(I32, S32(v)));
  }

  lemma {:induction false} SextValue(e: Expr, v: int, env: Env)
    requires Eval(e, env) == Some(CVal(U64, Wrap(v)))
    ensures Eval(Sext(e), env) == Some(CVal(I64, S32(v)))
    ensures Assigned(Sext(e), env) == Some(SExt32(v))
  {
    Conversions(v);
    SextOf(e, Wrap(v), env);
  }

  lemma {:induction false} CompareImm(op: ImmOp, imm: int, a: u64, env: Env)
    requires Holds(env, a) && -TWO31 <= imm < TWO31 && (op.Slti? || op.Sltiu?)
    ensures Assigned(ImmText(op, imm), env) == Some(Alu.ImmAlu(op, a, imm))
  {
    hide Wrap, S64, S32, Lo32;
    Conversions(a);
    Conversions(imm);
    WordOperand(Rs1, a, env);
    WordId(a);
    ImmIsSigned(imm);
    match op
    case Slti =>
      assert Eval(Cast(I64, Lit(I64, imm)), env) == Some(CVal(I64, imm));
      CondValue(Bin(CLt, Cast(I64, Var(Rs1)), Cast(I64, Lit(I64, imm))), S64(a) < imm, env);
    case Sltiu =>
      CondValue(Bin(CLt, Var(Rs1), Lit(U64, Wrap(imm))), a < Wrap(imm), env);
  }

  /** `c ? 1 : 0`. */
  lemma {:induction false} CondValue(c: Expr, b: bool, env: Env)
    requires Eval(c, env) == Some(Bool(b))
    ensures Assigned(Cond(c, Lit(I32, 1), Lit(I32, 0)), env) == Some(if b then 1 else 0)
  {
    var e := Cond(c, Lit(I32, 1), Lit(I32, 0));
    assert Eval(Lit(I32, 1), env) == Some(CVal(I32, 1)) && Eval(Lit(I32, 0), env) == Some(CVal(I32, 0));
    assert Eval(e, env) == Some(CVal(I32, if b then 1 else 0));
  }

  lemma {:induction false} ImmIsSigned(imm: int)
    requires -TWO31 <= imm < TWO31
    ensures S64(imm) == imm
  {
  }

  lemma {:induction false} ArithImm(op: ImmOp, imm: int, a: u64, env: Env)
    requires Holds(env, a) && (op.Addi? || op.Slli? || op.Srli? || op.Srai?)
    ensures Assigned(ImmText(op, imm), env) == Some(Alu.ImmAlu(op, a, imm))
  {
    hide Wrap, S64, S32, Lo32, Pow2, PlusImm;
    var k := imm % 64;
    match op
    case Addi =>
      PlusImmValue(imm, a, env);
      Conversions(a + imm);
    case Slli =>
      Conversions(a * Pow2(k));
      assert Eval(Lit(I32, k), env) == Some(CVal(I32, k));
      assert Eval(ImmText(op, imm), env) == Some(CVal(U64, Wrap(a * Pow2(k))));
    case Srli =>
      WordId(Alu.ShiftRight(a, k));
      assert Eval(Lit(I32, k), env) == Some(CVal(I32, k));
      assert Eval(ImmText(op, imm), env) == Some(CVal(U64, Alu.ShiftRight(a, k)));
    case Srai =>
      WordOperand(Rs1, a, env);
      assert Eval(Lit(I32, k), env) == Some(CVal(I32, k));
      assert Eval(ImmText(op, imm), env) == Some(CVal(I64, S64(a) / Pow2(k)));
  }

  /** `rs1 op e` on words, where e is a word or converts to one. */
  lemma {:induction false} BinWord(op: BinOp, e: Expr, v: int, result: u64, a: u64, env: Env)
    requires Holds(env, a)
    requires Eval(e, env) == Some(CVal(I64, v)) || Eval(e, env) == Some(CVal(U64, Wrap(v)))
    requires op.CXor? ==> result == Xor64(a, Wrap(v))
    requires op.COr? ==> result == Or64(a, Wrap(v))
    requires op.CAnd? ==> result == And64(a, Wrap(v))
    requires op.CXor? || op.COr? || op.CAnd?
    ensures Assigned(Bin(op, Var(Rs1), e), env) == Some(result)
  {
    hide Wrap, S64, S32, Lo32, And64, Or64, Xor64;
    Conversions(v);
    WordId(a);
    WordId(result);
    assert Eval(Bin(op, Var(Rs1), e), env) == Some(CVal(U64, result));
  }

  lemma {:induction false} LogicImm(op: ImmOp, imm: int, a: u64, env: Env)
    requires Holds(env, a) && (op.Xori? || op.Ori? || op.Andi?)
    ensures Assigned(ImmText(op, imm), env) == Some(Alu.ImmAlu(op, a, imm))
  {
    hide Wrap, S64, S32, Lo32, And64, Or64, Xor64;
    Conversions(imm);
    WordId(a);
    match op
    case Xori =>
      BinWord(CXor, Lit(I64, imm), imm, Xor64(a, Wrap(imm)), a, env);
    case Ori =>
      BinWord(COr, Lit(U64, Wrap(imm)), imm, Or64(a, Wrap(imm)), a, env);
    case Andi =>
      BinWord(CAnd, Lit(U64, Wrap(imm)), imm, And64(a, Wrap(imm)), a, env);
  }

  /** Every register-immediate text means what its handler computes, with no
      undefined behaviour. */
  lemma {:induction false} ImmTextCorrect(op: ImmOp, imm: int, a: u64, env: Env)
    requires Holds(env, a) && -TWO31 <= imm < TWO31
    ensures Assigned(ImmText(op, imm), env) == Some(Alu.ImmAlu(op, a, imm))
  {
    hide Alu.ImmAlu;
    hide ImmText;
    if op.Addiw? || op.Slliw? || op.Srliw? || op.Sraiw? {
      WordImm(op, imm, a, env);
    } else if op.Slti? || op.Sltiu? {
      CompareImm(op, imm, a, env);
    } else if op.Xori? || op.Ori? || op.Andi? {
      LogicImm(op, imm, a, env);
    } else {
      ArithImm(op, imm, a, env);
    }
  }

  // ----- register operands -----

  /** `rs2 & 0x3f` and `rs2 & 0x1f` are the shift counts modulo 64 and 32. */
  lemma {:induction false} LowValue(m: int, a: u64, b: u64, env: Env)
    requires HoldsBoth(env, a, b) && (m == 32 || m == 64)
    ensures Eval(Low(m - 1), env) == Some(CVal(U64, b % m))
  {
    hide Wrap, S64, S32, Lo32, And64;
    LowMask(m, b);
    WordId(b);
    WordId(m - 1);
    WordId(b % m);
    assert Eval(Lit(I32, m - 1), env) == Some(CVal(I32, m - 1));
  }

  lemma {:induction false} LowMask(m: int, b: u64)
    requires m == 32 || m == 64
    ensures And64(b, m - 1) == b % m
  {
    hide BitAnd, Pow2;
    Pow2Values();
    AndLowMask(b, if m == 32 then 5 else 6);
  }

  lemma {:induction false} WordOperand(s: Slot, v: u64, env: Env)
    requires s in env && env[s] == CVal(U64, v)
    ensures Eval(SWord(s), env) == Some(CVal(I64, S32(v)))
    ensures Eval(UWord(s), env) == Some(CVal(U32, Lo32(v)))
    ensures Eval(Cast(I64, Var(s)), env) == Some(CVal(I64, S64(v)))
    ensures Eval(Cast(U64, Var(s)), env) == Some(CVal(U64, v))
    ensures Eval(Cast(I32, Var(s)), env) == Some(CVal(I32, S32(v)))
  {
    SextOf(Var(s), v, env);
  }

  lemma {:induction false} ShiftText(op: RegOp, a: u64, b: u64, env: Env)
    requires HoldsBoth(env, a, b) && (op.Sll? || op.Srl? || op.Sra?)
    ensures Assigned(RegText(op).value, env) == Alu.RegAlu(op, a, b)
  {
    hide Wrap, S64, S32, Lo32, Pow2, Low;
    var k := b % 64;
    LowValue(64, a, b, env);
    WordOperand(Rs1, a, env);
    match op
    case Sll =>
      Conversions(a * Pow2(k));
    case Srl =>
      WordId(Alu.ShiftRight(a, k));
    case Sra =>
  }

  lemma {:induction false} WordShiftText(op: RegOp, a: u64, b: u64, env: Env)
    requires HoldsBoth(env, a, b) && (op.Sllw? || op.Srlw? || op.Sraw?)
    ensures Assigned(RegText(op).value, env) == Alu.RegAlu(op, a, b)
  {
    hide Wrap, S64, S32, Lo32, Pow2, Low, Eval;
    WordShiftValues(a, b, env);
    match op
    case Sllw =>
      SextValue(Bin(CShl, Var(Rs1), Low(31)), a * Pow2(b % 32), env);
    case Srlw =>
      SextOf(Bin(CShr, UWord(Rs1), Low(31)), Lo32(a) / Pow2(b % 32), env);
    case Sraw =>
      SextOf(Bin(CShr, Cast(I32, Var(Rs1)), Low(31)), S32(a) / Pow2(b % 32), env);
      WordShiftFits(a, b % 32);
  }

  lemma {:induction false} WordShiftValues(a: u64, b: u64, env: Env)
    requires HoldsBoth(env, a, b)
    ensures Eval(Bin(CShl, Var(Rs1), Low(31)), env) == Some(CVal(U64, Wrap(a * Pow2(b % 32))))
    ensures Eval(Bin(CShr, UWord(Rs1), Low(31)), env) == Some(CVal(U32, Lo32(a) / Pow2(b % 32)))
    ensures Eval(Bin(CShr, Cast(I32, Var(Rs1)), Low(31)), env) == Some(CVal(I32, S32(a) / Pow2(b % 32)))
  {
    hide Wrap, S64, S32, Lo32, Pow2, Low;
    LowValue(32, a, b, env);
    WordOperand(Rs1, a, env);
    WordShiftFits(a, b % 32);
  }

  lemma {:induction false} WordShiftFits(a: u64, k: nat)
    ensures S32(S32(a) / Pow2(k)) == S32(a) / Pow2(k)
  {
    hide Pow2;
    Alu.QuotientMagnitude(S32(a), Pow2(k));
    Alu.S32Idem(S32(a) / Pow2(k));
  }

  lemma {:induction false} PlainText(op: RegOp, a: u64, b: u64, env: Env)
    requires HoldsBoth(env, a, b)
    requires op.Add? || op.Xor? || op.Or? || op.And? || op.Mul? || op.Sub?
    ensures Assigned(RegText(op).value, env) == Alu.RegAlu(op, a, b)
  {
    hide Wrap, S64, S32, Lo32, And64, Or64, Xor64;
    WordId(a);
    WordId(b);
    match op
    case Add =>
      Conversions(a + b);
      assert Eval(RegText(op).value, env) == Some(CVal(U64, Wrap(a + b)));
    case Xor =>
      BinWord(CXor, Var(Rs2), b, Xor64(a, b), a, env);
    case Or =>
      BinWord(COr, Var(Rs2), b, Or64(a, b), a, env);
    case And =>
      BinWord(CAnd, Var(Rs2), b, And64(a, b), a, env);
    case Mul =>
      Conversions(a * b);
      assert Eval(RegText(op).value, env) == Some(CVal(U64, Wrap(a * b)));
    case Sub =>
      Conversions(a - b);
      assert Eval(RegText(op).value, env) == Some(CVal(U64, Wrap(a - b)));
  }

  lemma {:induction false} CompareText(op: RegOp, a: u64, b: u64, env: Env)
    requires HoldsBoth(env, a, b) && (op.Slt? || op.Sltu?)
    ensures Assigned(RegText(op).value, env) == Alu.RegAlu(op, a, b)
  {
    hide Wrap, S64, S32, Lo32;
    Conversions(a);
    Conversions(b);
    WordOperand(Rs1, a, env);
    WordOperand(Rs2, b, env);
    WordId(a);
    WordId(b);
    match op
    case Slt =>
      CondValue(Bin(CLt, Cast(I64, Var(Rs1)), Cast(I64, Var(Rs2))), S64(a) < S64(b), env);
    case Sltu =>
      CondValue(Bin(CLt, Cast(U64, Var(Rs1)), Cast(U64, Var(Rs2))), a < b, env);
  }

  lemma {:induction false} WordText(op: RegOp, a: u64, b: u64, env: Env)
    requires HoldsBoth(env, a, b) && (op.Addw? || op.Subw? || op.Mulw?)
    ensures Assigned(RegText(op).value, env) == Alu.RegAlu(op, a, b)
  {
    hide Wrap, S64, S32, Lo32;
    WordId(a);
    WordId(b);
    match op
    case Addw =>
      SextValue(Bin(CAdd, Var(Rs1), Var(Rs2)), a + b, env);
    case Subw =>
      SextValue(Bin(CSub, Var(Rs1), Var(Rs2)), a - b, env);
    case Mulw =>
      SextValue(Bin(CMul, Var(Rs1), Var(Rs2)), a * b, env);
  }

  lemma {:induction false} ZeroTest(a: u64, b: u64, env: Env)
    requires HoldsBoth(env, a, b)
    ensures Eval(RS2_IS_ZERO, env) == Some(Bool(b == 0))
  {
    Conversions(b);
  }

  /** `rs2 == 0 ? t : f`, stored to a register, when neither arm is undefined
      where it is chosen. */
  lemma {:induction false} ZeroGuard(t: Expr, f: Expr, v: int, a: u64, b: u64, env: Env)
    requires HoldsBoth(env, a, b)
    requires var r := if b == 0 then Eval(t, env) else Eval(f, env);
             r.Some? && r.value.v == v
    requires Common(TypeOf(t, env), TypeOf(f, env)) == U64
          || (Common(TypeOf(t, env), TypeOf(f, env)) == I64 && S64(v) == v)
    ensures Assigned(Cond(RS2_IS_ZERO, t, f), env) == Some(Wrap(v))
  {
    hide Wrap, S64, S32, Lo32, RS2_IS_ZERO;
    ZeroTest(a, b, env);
    Conversions(v);
    var ty := Common(TypeOf(t, env), TypeOf(f, env));
    assert Eval(Cond(RS2_IS_ZERO, t, f), env) == Some(CVal(ty, Convert(ty, v)));
  }

  lemma {:induction false} RemuText(a: u64, b: u64, env: Env)
    requires HoldsBoth(env, a, b)
    ensures Assigned(RegText(Remu).value, env) == Some(Alu.Remu(a, b))
  {
    hide Wrap, S64, S32, Lo32, RS2_IS_ZERO;
    var f := Bin(CMod, Var(Rs1), Var(Rs2));
    WordId(a);
    WordId(b);
    if b != 0 {
      Alu.QuotientBound(a, b);
      WordId(a / b);
      WordId(a % b);
      assert Eval(f, env) == Some(CVal(U64, a % b));
    }
    WordId(Alu.Remu(a, b));
    ZeroGuard(Var(Rs1), f, Alu.Remu(a, b), a, b, env);
  }

  lemma {:induction false} UnsignedQuotient(a: u64, b: u64)
    requires Lo32(b) != 0
    ensures var x, y := Lo32(a), Lo32(b);
            Alu.TruncDiv(x, y) == x / y && Alu.TruncRem(x, y) == x % y
            && Lo32(x) == x && Lo32(y) == y && Lo32(x / y) == x / y && Lo32(x % y) == x % y
  {
    hide Lo32;
    var x, y := Lo32(a), Lo32(b);
    Alu.QuotientBound(x, y);
    Alu.Lo32Small(x);
    Alu.Lo32Small(y);
    Alu.Lo32Small(x / y);
    Alu.Lo32Small(x % y);
  }

  lemma {:induction false} UnsignedDivision(a: u64, b: u64, env: Env)
    requires HoldsBoth(env, a, b) && Lo32(b) != 0
    ensures Eval(Bin(CDiv, UWord(Rs1), UWord(Rs2)), env) == Some(CVal(U32, Lo32(a) / Lo32(b)))
    ensures Eval(Bin(CMod, UWord(Rs1), UWord(Rs2)), env) == Some(CVal(U32, Lo32(a) % Lo32(b)))
  {
    hide Wrap, S64, S32, Lo32, Alu.TruncDiv, Alu.TruncRem;
    WordOperand(Rs1, a, env);
    WordOperand(Rs2, b, env);
    UnsignedQuotient(a, b);
  }

  lemma {:induction false} UnsignedWordText(op: RegOp, a: u64, b: u64, env: Env)
    requires HoldsBoth(env, a, b) && (op.Divuw? || op.Remuw?) && !Alu.TrapsW(b)
    ensures Assigned(RegText(op).value, env) == Alu.RegAlu(op, a, b)
  {
    if op.Divuw? {
      DivuwText(a, b, env);
    } else {
      RemuwText(a, b, env);
    }
  }

  lemma {:induction false} DivuwText(a: u64, b: u64, env: Env)
    requires HoldsBoth(env, a, b) && !Alu.TrapsW(b)
    ensures Assigned(RegText(Divuw).value, env) == Alu.RegAlu(Divuw, a, b)
  {
    hide Wrap, S64, S32, Lo32, RS2_IS_ZERO, UWord;
    WordId(TWO64 - 1);
    var d := Bin(CDiv, UWord(Rs1), UWord(Rs2));
    if b != 0 {
      UnsignedDivision(a, b, env);
    }
    var v := if b == 0 then TWO64 - 1 else S32(Lo32(a) / Lo32(b));
    assert b != 0 ==> Eval(Cast(I32, d), env) == Some(CVal(I32, v));
    ZeroGuard(Lit(U64, TWO64 - 1), Cast(I32, d), v, a, b, env);
  }

  lemma {:induction false} RemuwText(a: u64, b: u64, env: Env)
    requires HoldsBoth(env, a, b) && !Alu.TrapsW(b)
    ensures Assigned(RegText(Remuw).value, env) == Alu.RegAlu(Remuw, a, b)
  {
    hide Wrap, S64, S32, Lo32, RS2_IS_ZERO, UWord;
    WordOperand(Rs1, a, env);
    var x, y := Lo32(a), Lo32(b);
    var m := Bin(CMod, UWord(Rs1), UWord(Rs2));
    Conversions(a);
    SextOf(UWord(Rs1), x, env);
    var v := if b == 0 then S32(x) else S32(x % y);
    Conversions(if b == 0 then x else x % y);
    if b != 0 {
      UnsignedDivision(a, b, env);
      SextOf(m, x % y, env);
    }
    ZeroGuard(Sext(UWord(Rs1)), Sext(m), v, a, b, env);
  }

  lemma {:induction false} SignedWordText(op: RegOp, a: u64, b: u64, env: Env)
    requires HoldsBoth(env, a, b) && (op.Divw? || op.Remw?) && !Alu.TrapsW(b)
    ensures Assigned(RegText(op).value, env) == Alu.RegAlu(op, a, b)
  {
    hide Wrap, S64, S32, Lo32, RS2_IS_ZERO, Alu.TruncDiv, Alu.TruncRem;
    WordOperand(Rs1, a, env);
    WordOperand(Rs2, b, env);
    WordId(TWO64 - 1);
    Alu.LowWordZero(a);
    Alu.LowWordZero(b);
    Conversions(a);
    Conversions(b);
    var x, y := S32(a), S32(b);
    var d, m := Bin(CDiv, SWord(Rs1), SWord(Rs2)), Bin(CMod, SWord(Rs1), SWord(Rs2));
    if b != 0 {
      SignedQuotient(x, y);
      assert Eval(d, env) == Some(CVal(I64, Alu.TruncDiv(x, y)));
      assert Eval(m, env) == Some(CVal(I64, Alu.TruncRem(x, y)));
    }
    match op
    case Divw =>
      var v := if b == 0 then TWO64 - 1 else S32(Alu.TruncDiv(x, y));
      assert b != 0 ==> Eval(Cast(I32, d), env) == Some(CVal(I32, v));
      ZeroGuard(Lit(U64, TWO64 - 1), Cast(I32, d), v, a, b, env);
    case Remw =>
      if b == 0 {
        ZeroGuard(SWord(Rs1), Sext(m), x, a, b, env);
      } else {
        var r := Alu.TruncRem(x, y);
        SextOf(m, r, env);
        ZeroGuard(SWord(Rs1), Sext(m), S32(r), a, b, env) by { Conversions(r); }
      }
  }

  /** Word operands never overflow the 64-bit division. */
  lemma {:induction false} SignedQuotient(x: int, y: int)
    requires -TWO31 <= x < TWO31 && -TWO31 <= y < TWO31 && y != 0
    ensures S64(Alu.TruncDiv(x, y)) == Alu.TruncDiv(x, y)
    ensures S64(Alu.TruncRem(x, y)) == Alu.TruncRem(x, y)
  {
    Alu.TruncLaw(x, y);
    hide Alu.TruncDiv, Alu.TruncRem;
  }

  /** Every register-register text means what its handler computes; it is
      undefined only where the handler traps the host. */
  lemma {:induction false} RegTextCorrect(op: RegOp, a: u64, b: u64, env: Env)
    requires HoldsBoth(env, a, b) && RegText(op).Some? && Alu.RegAlu(op, a, b).Some?
    ensures Assigned(RegText(op).value, env) == Alu.RegAlu(op, a, b)
  {
    match op
    case Sll => ShiftText(op, a, b, env);
    case Srl => ShiftText(op, a, b, env);
    case Sra => ShiftText(op, a, b, env);
    case Sllw => WordShiftText(op, a, b, env);
    case Srlw => WordShiftText(op, a, b, env);
    case Sraw => WordShiftText(op, a, b, env);
    case Slt => CompareText(op, a, b, env);
    case Sltu => CompareText(op, a, b, env);
    case Addw => WordText(op, a, b, env);
    case Subw => WordText(op, a, b, env);
    case Mulw => WordText(op, a, b, env);
    case Remu => RemuText(a, b, env);
    case Divuw => UnsignedWordText(op, a, b, env);
    case Remuw => UnsignedWordText(op, a, b, env);
    case Divw => SignedWordText(op, a, b, env);
    case Remw => SignedWordText(op, a, b, env);
    case Add => PlainText(op, a, b, env);
    case Sub => PlainText(op, a, b, env);
    case Mul => PlainText(op, a, b, env);
    case Xor => PlainText(op, a, b, env);
    case Or => PlainText(op, a, b, env);
    case And => PlainText(op, a, b, env);
    case Mulh =>
    case Mulhsu =>
    case Mulhu =>
    case Div =>
    case Divu =>
    case Rem =>
  }

  // ----- the statement chains of div, divu and rem -----

  function AssignedChain(arms: seq<Arm>, env: Env): Option<u64> {
    match EvalChain(arms, env)
    case None => None
    case Some(v) => Some(Wrap(v.v))
  }

  lemma {:induction false} ZeroArm(arms: seq<Arm>, a: u64, b: u64, env: Env)
    requires HoldsBoth(env, a, b) && |arms| > 0 && arms[0].guards == [RS2_IS_ZERO]
    ensures EvalChain(arms, env) == if b == 0 then Eval(arms[0].value, env) else EvalChain(arms[1..], env)
  {
    hide RS2_IS_ZERO;
    ZeroTest(a, b, env);
    var gs := arms[0].guards;
    assert gs[1..] == [] && EvalGuards(gs[1..], env) == Some(true);
    assert EvalGuards(gs, env) == Some(b == 0);
  }

  lemma {:induction false} OverflowArm(arms: seq<Arm>, a: u64, b: u64, env: Env)
    requires HoldsBoth(env, a, b) && |arms| > 0 && arms[0].guards == OVERFLOWS
    ensures EvalChain(arms, env) == if a == TWO63 && b == TWO64 - 1 then Eval(arms[0].value, env)
                                    else EvalChain(arms[1..], env)
  {
    var gs := OVERFLOWS;
    OverflowTests(a, b, env);
    assert gs[1..] == [gs[1]] && gs[1..][1..] == [];
    assert EvalGuards(gs[1..][1..], env) == Some(true);
    assert EvalGuards(gs[1..], env) == Some(b == TWO64 - 1);
    assert EvalGuards(gs, env) == Some(a == TWO63 && b == TWO64 - 1);
  }

  lemma {:induction false} OverflowTests(a: u64, b: u64, env: Env)
    requires HoldsBoth(env, a, b)
    ensures Eval(OVERFLOWS[0], env) == Some(Bool(a == TWO63))
    ensures Eval(OVERFLOWS[1], env) == Some(Bool(b == TWO64 - 1))
  {
    assert Wrap(-TWO63) == TWO63;
  }

  lemma {:induction false} LastArm(arms: seq<Arm>, env: Env)
    requires |arms| == 1 && arms[0].guards == []
    ensures EvalChain(arms, env) == Eval(arms[0].value, env)
  {
  }

  lemma {:induction false} SignedChain(op: RegOp, a: u64, b: u64, env: Env)
    requires HoldsBoth(env, a, b) && (op.Div? || op.Rem?)
    ensures AssignedChain(ChainText(op).value, env) == Alu.RegAlu(op, a, b)
  {
    hide Wrap, S64, S32, Lo32, RS2_IS_ZERO, OVERFLOWS, Alu.TruncDiv, Alu.TruncRem;
    var arms := ChainText(op).value;
    ZeroArm(arms, a, b, env);
    OverflowArm(arms[1..], a, b, env);
    LastArm(arms[1..][1..], env);
    WordId(a);
    WordId(TWO64 - 1);
    WordId(TWO63);
    WordId(0);
    MinWord();
    if b != 0 && !(a == TWO63 && b == TWO64 - 1) {
      SignedOperation(op, a, b, env);
    }
  }

  lemma {:induction false} MinWord()
    ensures Wrap(-TWO63) == TWO63
  {
  }

  lemma {:induction false} SignedOperation(op: RegOp, a: u64, b: u64, env: Env)
    requires HoldsBoth(env, a, b) && (op.Div? || op.Rem?) && b != 0 && !(a == TWO63 && b == TWO64 - 1)
    ensures S64(b) != 0
    ensures Assigned(ChainText(op).value[2].value, env)
         == Some(Wrap(if op.Div? then Alu.TruncDiv(S64(a), S64(b)) else Alu.TruncRem(S64(a), S64(b))))
  {
    hide Wrap, S64, S32, Lo32, Alu.TruncDiv, Alu.TruncRem;
    WordOperand(Rs1, a, env);
    WordOperand(Rs2, b, env);
    Conversions(a);
    Conversions(b);
    SignedRange(a, b);
    var x, y := S64(a), S64(b);
    Alu.QuotientFits(x, y);
    Alu.TruncLaw(x, y);
    var q, r := Alu.TruncDiv(x, y), Alu.TruncRem(x, y);
    SignedId(q);
    SignedId(r);
    var d := Bin(CDiv, Cast(I64, Var(Rs1)), Cast(I64, Var(Rs2)));
    var m := Bin(CMod, Cast(I64, Var(Rs1)), Cast(I64, Var(Rs2)));
    assert Eval(d, env) == Some(CVal(I64, q));
    assert Eval(m, env) == Some(CVal(I64, r));
  }

  lemma {:induction false} SignedId(v: int)
    requires -TWO63 <= v < TWO63
    ensures S64(v) == v
  {
  }

  lemma {:induction false} SignedRange(a: u64, b: u64)
    requires b != 0
    ensures -TWO63 <= S64(a) < TWO63 && -TWO63 <= S64(b) < TWO63 && S64(b) != 0
    ensures S64(a) == -TWO63 && S64(b) == -1 ==> a == TWO63 && b == TWO64 - 1
  {
  }

  lemma {:induction false} UnsignedChain(a: u64, b: u64, env: Env)
    requires HoldsBoth(env, a, b)
    ensures AssignedChain(ChainText(Divu).value, env) == Some(Alu.Divu(a, b))
  {
    hide Wrap, S64, S32, Lo32, RS2_IS_ZERO;
    var arms := ChainText(Divu).value;
    ZeroArm(arms, a, b, env);
    LastArm(arms[1..], env);
    WordId(a);
    WordId(b);
    WordId(TWO64 - 1);
    if b != 0 {
      Alu.QuotientBound(a, b);
      WordId(a / b);
      assert Eval(Bin(CDiv, Var(Rs1), Var(Rs2)), env) == Some(CVal(U64, a / b));
    }
  }

  /** The guarded assignments of div, divu and rem compute the handlers' values
      and never reach C's undefined divisions. */
  lemma {:induction false} ChainTextCorrect(op: RegOp, a: u64, b: u64, env: Env)
    requires HoldsBoth(env, a, b) && ChainText(op).Some?
    ensures AssignedChain(ChainText(op).value, env) == Alu.RegAlu(op, a, b)
  {
    if op.Divu? {
      UnsignedChain(a, b, env);
    } else {
      SignedChain(op, a, b, env);
    }
  }

  // ----- control -----

  lemma {:induction false} BranchTextCorrect(op: BranchOp, a: u64, b: u64, env: Env)
    requires HoldsBoth(env, a, b)
    ensures Eval(BranchText(op), env) == Some(Bool(Alu.Taken(op, a, b)))
  {
    hide Wrap, S64, S32, Lo32;
    WordOperand(Rs1, a, env);
    WordOperand(Rs2, b, env);
    WordId(a);
    WordId(b);
    Conversions(a);
    Conversions(b);
    assert (if op.Blt? || op.Bge? then Convert(I64, S64(a)) else Convert(U64, a))
        == if op.Blt? || op.Bge? then S64(a) else a;
  }

  lemma {:induction false} JalrTextCorrect(imm: int, a: u64, env: Env)
    requires Holds(env, a)
    ensures Eval(JalrText(imm), env) == Some(CVal(U64, ClearBit0(Wrap(a + imm))))
  {
    hide Wrap, S64, S32, Lo32, PlusImm, And64;
    PlusImmValue(imm, a, env);
    var v := Wrap(a + imm);
    MaskBit0(v);
    WordId(v);
    WordId(TWO64 - 2);
    WordId(ClearBit0(v));
    assert Eval(Lit(U64, TWO64 - 2), env) == Some(CVal(U64, TWO64 - 2));
  }

  lemma {:induction false} MaskBit0(v: u64)
    ensures And64(v, TWO64 - 2) == ClearBit0(v)
  {
    hide BitAnd;
    Pow2Values();
    assert Pow2(1) == 2;
    AndHighMask(v, 64, 1);
  }
}
