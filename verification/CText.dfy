/** The C expressions that codegen.c prints, as typed syntax trees, with the C
    rules that give them a meaning: integer promotion, the usual arithmetic
    conversions, truncating division, and undefined behaviour as None. */
module CText {
  import opened Words
  import Alu

  datatype CType = I8 | U8 | I16 | U16 | I32 | U32 | I64 | U64

  function Width(t: CType): nat {
    match t
    case I8 => 8
    case U8 => 8
    case I16 => 16
    case U16 => 16
    case I32 => 32
    case U32 => 32
    case I64 => 64
    case U64 => 64
  }

  predicate IsSigned(t: CType) {
    t.I8? || t.I16? || t.I32? || t.I64?
  }

  /** Conversion of an integer value to type t. */
  function Convert(t: CType, v: int): int {
    match t
    case I8 => SignedByte(v)
    case U8 => v % 0x100
    case I16 => SignedHalf(v)
    case U16 => v % 0x1_0000
    case I32 => S32(v)
    case U32 => Lo32(v)
    case I64 => S64(v)
    case U64 => Wrap(v)
  }

  function SignedByte(v: int): int {
    var w := v % 0x100;
    if w < 0x80 then w else w - 0x100
  }

  function SignedHalf(v: int): int {
    var w := v % 0x1_0000;
    if w < 0x8000 then w else w - 0x1_0000
  }

  predicate InRange(t: CType, v: int) {
    Convert(t, v) == v
  }

  function Promote(t: CType): CType {
    if t.I8? || t.U8? || t.I16? || t.U16? then I32 else t
  }

  /** The usual arithmetic conversions on an LP64 host. */
  function Common(s: CType, t: CType): CType {
    var p, q := Promote(s), Promote(t);
    if p.U64? || q.U64? then U64
    else if p.I64? || q.I64? then I64
    else if p.U32? || q.U32? then U32
    else I32
  }

  datatype CVal = CVal(ty: CType, v: int)

  datatype BinOp =
    | CAdd | CSub | CMul | CDiv | CMod
    | CShl | CShr | CAnd | COr | CXor
    | CEq | CNe | CLt | CGe

  /** The block-scoped locals of a label. */
  datatype Slot = Rs1 | Rs2 | Rs3 | Rd

  datatype Expr =
    | Var(slot: Slot)
    | Lit(ty: CType, v: int)
    | Cast(ty: CType, e: Expr)
    | Bin(op: BinOp, l: Expr, r: Expr)
    | Cond(c: Expr, t: Expr, f: Expr)

  type Env = map<Slot, CVal>

  function Bool(b: bool): CVal {
    CVal(I32, if b then 1 else 0)
  }

  /** An arithmetic result: wraps if unsigned, undefined on signed overflow. */
  function Arith(t: CType, v: int): Option<CVal> {
    if !IsSigned(t) then Some(CVal(t, Convert(t, v)))
    else if InRange(t, v) then Some(CVal(t, v))
    else None
  }

  function Apply(op: BinOp, a: CVal, b: CVal): Option<CVal> {
    var t := Common(a.ty, b.ty);
    var x, y := Convert(t, a.v), Convert(t, b.v);
    match op
    case CAdd => Arith(t, x + y)
    case CSub => Arith(t, x - y)
    case CMul => Arith(t, x * y)
    case CDiv => if y == 0 then None else Arith(t, Alu.TruncDiv(x, y))
    case CMod => if y == 0 || !InRange(t, Alu.TruncDiv(x, y)) then None else Arith(t, Alu.TruncRem(x, y))
    case CAnd => Some(CVal(t, Convert(t, And64(Wrap(x), Wrap(y)))))
    case COr => Some(CVal(t, Convert(t, Or64(Wrap(x), Wrap(y)))))
    case CXor => Some(CVal(t, Convert(t, Xor64(Wrap(x), Wrap(y)))))
    case CEq => Some(Bool(x == y))
    case CNe => Some(Bool(x != y))
    case CLt => Some(Bool(x < y))
    case CGe => Some(Bool(x >= y))
    case CShl => ShiftLeft(a, b)
    case CShr => ShiftRight(a, b)
  }

  /** Shifts take the type of the promoted left operand; the count must be less
      than its width. Right shift of a negative value is arithmetic. */
  function ShiftLeft(a: CVal, b: CVal): Option<CVal> {
    var t := Promote(a.ty);
    if IsSigned(t) || !(0 <= b.v < Width(t)) then None
    else Some(CVal(t, Convert(t, a.v * Pow2(b.v))))
  }

  function ShiftRight(a: CVal, b: CVal): Option<CVal> {
    var t := Promote(a.ty);
    if !(0 <= b.v < Width(t)) then None
    else Some(CVal(t, a.v / Pow2(b.v)))
  }

  /** Value of an expression; None if it is ill-scoped or undefined. */
  function Eval(e: Expr, env: Env): Option<CVal> {
    match e
    case Var(s) => if s in env then Some(env[s]) else None
    case Lit(t, v) => Some(CVal(t, v))
    case Cast(t, e) =>
      (match Eval(e, env)
       case None => None
       case Some(a) => Some(CVal(t, Convert(t, a.v))))
    case Bin(op, l, r) =>
      (match Eval(l, env)
       case None => None
       case Some(a) =>
         match Eval(r, env)
         case None => None
         case Some(b) => Apply(op, a, b))
    case Cond(c, t, f) =>
      (match Eval(c, env)
       case None => None
       case Some(b) =>
         match (if b.v != 0 then Eval(t, env) else Eval(f, env))
         case None => None
         case Some(a) =>
           var ty := Common(TypeOf(t, env), TypeOf(f, env));
           Some(CVal(ty, Convert(ty, a.v))))
  }

  /** Static type of an expression. */
  function TypeOf(e: Expr, env: Env): CType {
    match e
    case Var(s) => if s in env then env[s].ty else U64
    case Lit(t, _) => t
    case Cast(t, _) => t
    case Bin(op, l, r) =>
      (match op
       case CEq => I32
       case CNe => I32
       case CLt => I32
       case CGe => I32
       case CShl => Promote(TypeOf(l, env))
       case CShr => Promote(TypeOf(l, env))
       case _ => Common(TypeOf(l, env), TypeOf(r, env)))
    case Cond(_, t, f) => Common(TypeOf(t, env), TypeOf(f, env))
  }
}
