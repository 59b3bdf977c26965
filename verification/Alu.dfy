/** Integer arithmetic of the interpreter: `mulhu`, `mulh`, `mulhsu` of
    interpret_utils.h and the register and immediate handlers of interpret.c. */
module Alu {
  import opened Words
  import opened Insn

  // ----- high half of a 64x64 product -----

  /** `mulhu`: four 32-bit limb products, each 64-bit operation wrapped. */
  function Mulhu(a: u64, b: u64): u64 {
    var a0, a1 := Lo32(a), a / TWO32;
    var b0, b1 := Lo32(b), b / TWO32;
    Carries(a0 * b0, a0 * b1, a1 * b0, a1 * b1)
  }

  lemma {:induction false} MulMono(a: int, b: int, c: int)
    requires 0 <= a <= b && 0 <= c
    ensures 0 <= a * c <= b * c && c * a <= c * b
  {
  }

  lemma {:induction false} LimbBound(x: int, y: int)
    requires 0 <= x < TWO32 && 0 <= y < TWO32
    ensures 0 <= x * y <= (TWO32 - 1) * (TWO32 - 1)
  {
    MulMono(x, TWO32 - 1, y);
    MulMono(y, TWO32 - 1, TWO32 - 1);
  }

  lemma {:induction false} LimbSplit(a: u64)
    ensures a == a / TWO32 * TWO32 + Lo32(a)
    ensures 0 <= Lo32(a) < TWO32 && 0 <= a / TWO32 < TWO32
  {
  }

  /** The product of two-limb numbers, limb by limb. */
  lemma {:induction false} LimbProduct(a0: int, a1: int, b0: int, b1: int)
    ensures (a1 * TWO32 + a0) * (b1 * TWO32 + b0)
         == (a1 * b1) * TWO64 + (a1 * b0 + a0 * b1) * TWO32 + a0 * b0
  {
    var a := a1 * TWO32 + a0;
    assert a * (b1 * TWO32 + b0) == (a * b1) * TWO32 + a * b0;
    assert a * b1 == (a1 * b1) * TWO32 + a0 * b1;
    assert a * b0 == (a1 * b0) * TWO32 + a0 * b0;
  }

  /** Carry propagation: schoolbook columns give the floor of the quotient. */
  lemma {:induction false} Columns(p00: int, p01: int, p10: int, p11: int, product: int)
    requires 0 <= p00 && 0 <= p01 && 0 <= p10 && 0 <= p11
    requires product == p11 * TWO64 + (p10 + p01) * TWO32 + p00
    ensures var t1 := p10 + p00 / TWO32;
            var t2 := p01 + t1 % TWO32;
            product / TWO64 == p11 + t1 / TWO32 + t2 / TWO32
  {
    var t1 := p10 + p00 / TWO32;
    var t2 := p01 + t1 % TWO32;
    var low := t2 % TWO32 * TWO32 + p00 % TWO32;
    assert product == (p11 + t1 / TWO32 + t2 / TWO32) * TWO64 + low;
    DivModUnique(product, TWO64, p11 + t1 / TWO32 + t2 / TWO32, low);
  }

  lemma {:induction false} OrDisjoint(h: nat, y: nat, k: nat)
    requires y < Pow2(k)
    ensures BitOr(h * Pow2(k), y) == h * Pow2(k) + y
  {
    var x := h * Pow2(k);
    if k == 0 {
      OrZero(x);
    } else {
      assert x == 2 * (h * Pow2(k - 1));
      assert x / 2 == h * Pow2(k - 1) && x % 2 == 0;
      OrDisjoint(h, y / 2, k - 1);
    }
  }

  lemma {:induction false} OrZero(x: nat)
    ensures BitOr(x, 0) == x
  {
    if x != 0 {
      OrZero(x / 2);
    }
  }

  lemma {:induction false} Rejoin(t: u64)
    ensures Or64(Wrap(t / TWO32 * TWO32), Lo32(t)) == t
  {
    Pow2Values();
    hide Pow2;
    OrDisjoint(t / TWO32, Lo32(t), 32);
    hide BitOr;
    Small(t / TWO32 * TWO32, TWO64);
  }

  /** `mulhu` is the high word of the unsigned product; section 7.1 of the
      RISC-V Unprivileged ISA 20191213. */
  lemma {:induction false} MulhuSpec(a: u64, b: u64)
    ensures Mulhu(a, b) == a * b / TWO64
  {
    LimbSplit(a);
    LimbSplit(b);
    MulhuLimbs(Lo32(a), a / TWO32, Lo32(b), b / TWO32);
  }

  lemma {:induction false} MulhuLimbs(a0: int, a1: int, b0: int, b1: int)
    requires 0 <= a0 < TWO32 && 0 <= a1 < TWO32 && 0 <= b0 < TWO32 && 0 <= b1 < TWO32
    ensures var a, b := a1 * TWO32 + a0, b1 * TWO32 + b0;
            Mulhu(a, b) == a * b / TWO64
  {
    hide Or64;
    var a, b := a1 * TWO32 + a0, b1 * TWO32 + b0;
    DivModUnique(a, TWO32, a1, a0);
    DivModUnique(b, TWO32, b1, b0);
    LimbBound(a0, b0);
    LimbBound(a0, b1);
    LimbBound(a1, b0);
    LimbBound(a1, b1);
    LimbProduct(a0, a1, b0, b1);
    Columns(a0 * b0, a0 * b1, a1 * b0, a1 * b1, a * b);
    CarryChain(a0 * b0, a0 * b1, a1 * b0, a1 * b1);
  }

  /** The statements of `mulhu` after its four limb products. */
  function Carries(p00: int, p01: int, p10: int, p11: int): u64 {
    var t1 := Wrap(Wrap(p10) + Wrap(p00) / TWO32);
    var t2 := Wrap(Wrap(p01) + Lo32(t1));
    var t3 := Wrap(Wrap(p11) + t1 / TWO32 + t2 / TWO32);
    Or64(Wrap(t3 / TWO32 * TWO32), Lo32(t3))
  }

  lemma {:induction false} CarryChain(p00: int, p01: int, p10: int, p11: int)
    requires 0 <= p00 <= (TWO32 - 1) * (TWO32 - 1)
    requires 0 <= p01 <= (TWO32 - 1) * (TWO32 - 1)
    requires 0 <= p10 <= (TWO32 - 1) * (TWO32 - 1)
    requires 0 <= p11 <= (TWO32 - 1) * (TWO32 - 1)
    ensures var t1 := p10 + p00 / TWO32;
            var t2 := p01 + t1 % TWO32;
            Carries(p00, p01, p10, p11) == p11 + t1 / TWO32 + t2 / TWO32
  {
    hide Or64;
    hide Wrap;
    NoOverflow(p00, p01, p10, p11);
    var t1 := p10 + p00 / TWO32;
    var t2 := p01 + t1 % TWO32;
    var t3 := p11 + t1 / TWO32 + t2 / TWO32;
    WrapId(p00);
    WrapId(p01);
    WrapId(p10);
    WrapId(p11);
    WrapId(t1);
    WrapId(t2);
    WrapId(t3);
    Rejoin(t3);
  }

  /** No 64-bit intermediate of `mulhu` wraps. */
  lemma {:induction false} NoOverflow(p00: int, p01: int, p10: int, p11: int)
    requires 0 <= p00 <= (TWO32 - 1) * (TWO32 - 1)
    requires 0 <= p01 <= (TWO32 - 1) * (TWO32 - 1)
    requires 0 <= p10 <= (TWO32 - 1) * (TWO32 - 1)
    requires 0 <= p11 <= (TWO32 - 1) * (TWO32 - 1)
    ensures var t1 := p10 + p00 / TWO32;
            var t2 := p01 + t1 % TWO32;
            var t3 := p11 + t1 / TWO32 + t2 / TWO32;
            p00 < TWO64 && p01 < TWO64 && p10 < TWO64 && p11 < TWO64 &&
            0 <= t1 < TWO64 && 0 <= t2 < TWO64 && 0 <= t3 < TWO64
  {
  }

  /** Magnitude of a signed word, as `a < 0 ? -a : a` converted to u64; for the
      most negative word the wrapped negation is 2^63. */
  function Magnitude(x: u64): u64 {
    if S64(x) < 0 then Wrap(-S64(x)) else x
  }

  /** `~res + (a * b == 0)` with the product wrapped to 64 bits. */
  function NegateHigh(res: u64, low: u64): u64 {
    Wrap(TWO64 - 1 - res + (if low == 0 then 1 else 0))
  }

  function Mulh(a: u64, b: u64): u64 {
    var res := Mulhu(Magnitude(a), Magnitude(b));
    if (S64(a) < 0) != (S64(b) < 0) then NegateHigh(res, Wrap(S64(a) * S64(b))) else res
  }

  function Mulhsu(a: u64, b: u64): u64 {
    var res := Mulhu(Magnitude(a), b);
    if S64(a) < 0 then NegateHigh(res, Wrap(S64(a) * b)) else res
  }

  /** Negating a 128-bit product: the new high word is `~hi + (lo == 0)`. */
  lemma {:induction false} NegateHighSpec(p: nat, q: int)
    requires p + q == 0 && p < TWO64 * TWO64
    ensures NegateHigh(p / TWO64, Wrap(q)) == Wrap(q / TWO64)
  {
    var hi, lo := p / TWO64, p % TWO64;
    if lo == 0 {
      DivModUnique(q, TWO64, -hi, 0);
      DivModUnique(TWO64 - hi, TWO64, if hi == 0 then 1 else 0, if hi == 0 then 0 else TWO64 - hi);
      DivModUnique(-hi, TWO64, if hi == 0 then 0 else -1, if hi == 0 then 0 else TWO64 - hi);
    } else {
      DivModUnique(q, TWO64, -hi - 1, TWO64 - lo);
      DivModUnique(-hi - 1, TWO64, -1, TWO64 - 1 - hi);
    }
  }

  lemma {:induction false} ProductBound(x: int, y: int)
    requires 0 <= x < TWO64 && 0 <= y < TWO64
    ensures 0 <= x * y < TWO64 * TWO64
    ensures 0 <= x * y / TWO64 < TWO64
  {
    MulMono(x, TWO64 - 1, y);
    MulMono(y, TWO64 - 1, TWO64 - 1);
  }

  /** `mulh` is the high word of the signed product, for all words. */
  lemma {:induction false} MulhSpec(a: u64, b: u64)
    ensures Mulh(a, b) == Wrap(S64(a) * S64(b) / TWO64)
  {
    var x: int, y: int := Magnitude(a), Magnitude(b);
    MulhuSpec(x, y);
    MagnitudeSpec(a);
    MagnitudeSpec(b);
    hide Mulhu;
    hide Magnitude;
    hide NegateHigh;
    hide S64;
    WrapId(x * y / TWO64) by { ProductBound(x, y); }
    hide Wrap;
    ProductBound(x, y);
    SignedProduct(S64(a), S64(b), x, y);
    if (S64(a) < 0) != (S64(b) < 0) {
      NegateHighSpec(x * y, S64(a) * S64(b));
    }
  }

  lemma {:induction false} MagnitudeSpec(x: u64)
    ensures Magnitude(x) == if S64(x) < 0 then -S64(x) else S64(x)
  {
    if S64(x) < 0 {
      WrapId(-S64(x));
    }
  }

  lemma {:induction false} SignedProduct(x: int, y: int, mx: int, my: int)
    requires mx == (if x < 0 then -x else x) && my == (if y < 0 then -y else y)
    ensures x * y == if (x < 0) != (y < 0) then -(mx * my) else mx * my
  {
    if x < 0 {
      assert x * y == -((-x) * y);
    }
    if y < 0 {
      assert mx * y == -(mx * (-y));
    }
  }

  /** `mulhsu` is the high word of the signed-by-unsigned product. */
  lemma {:induction false} MulhsuSpec(a: u64, b: u64)
    ensures Mulhsu(a, b) == Wrap(S64(a) * b / TWO64)
  {
    var x: int, y: int := Magnitude(a), b;
    MulhuSpec(x, y);
    MagnitudeSpec(a);
    hide Mulhu;
    hide Magnitude;
    hide NegateHigh;
    hide S64;
    WrapId(x * y / TWO64) by { ProductBound(x, y); }
    hide Wrap;
    ProductBound(x, y);
    SignedProduct(S64(a), y, x, y);
    if S64(a) < 0 {
      NegateHighSpec(x * y, S64(a) * y);
    }
  }

  // ----- division -----

  /** C's `/` and `%` on signed operands: truncation toward zero. */
  function TruncDiv(x: int, y: int): int
    requires y != 0
  {
    if (x < 0) == (y < 0) then Abs(x) / Abs(y) else -(Abs(x) / Abs(y))
  }

  function TruncRem(x: int, y: int): int
    requires y != 0
  {
    if x < 0 then -(Abs(x) % Abs(y)) else Abs(x) % Abs(y)
  }

  function Abs(x: int): nat {
    if x < 0 then -x else x
  }

  function Div(a: u64, b: u64): u64 {
    if b == 0 then TWO64 - 1
    else if a == TWO63 && b == TWO64 - 1 then TWO63
    else Wrap(TruncDiv(S64(a), S64(b)))
  }

  function Rem(a: u64, b: u64): u64 {
    if b == 0 then a
    else if a == TWO63 && b == TWO64 - 1 then 0
    else Wrap(TruncRem(S64(a), S64(b)))
  }

  function Divu(a: u64, b: u64): u64 {
    if b == 0 then TWO64 - 1 else a / b
  }

  function Remu(a: u64, b: u64): u64 {
    if b == 0 then a else a % b
  }

  /** The W forms test all 64 bits of the divisor but divide by its low word:
      a divisor whose low word is zero and high word is not traps on the host. */
  predicate TrapsW(b: u64) {
    b != 0 && Lo32(b) == 0
  }

  function DivW(a: u64, b: u64): Option<u64> {
    if b == 0 then Some(TWO64 - 1)
    else if TrapsW(b) then None
    else Some(SExt32(TruncDiv(S32(a), S32(b))))
  }

  function RemW(a: u64, b: u64): Option<u64> {
    if b == 0 then Some(SExt32(a))
    else if TrapsW(b) then None
    else Some(SExt32(TruncRem(S32(a), S32(b))))
  }

  function DivuW(a: u64, b: u64): Option<u64> {
    if b == 0 then Some(TWO64 - 1)
    else if TrapsW(b) then None
    else Some(SExt32(Lo32(a) / Lo32(b)))
  }

  function RemuW(a: u64, b: u64): Option<u64> {
    if b == 0 then Some(SExt32(a))
    else if TrapsW(b) then None
    else Some(SExt32(Lo32(a) % Lo32(b)))
  }

  lemma {:induction false} TruncLaw(x: int, y: int)
    requires y != 0
    ensures x == y * TruncDiv(x, y) + TruncRem(x, y)
    ensures Abs(TruncRem(x, y)) < Abs(y)
    ensures TruncRem(x, y) == 0 || (TruncRem(x, y) < 0) == (x < 0)
    ensures Abs(TruncDiv(x, y)) <= Abs(x)
  {
    var m, n: int := Abs(x), Abs(y);
    var q, r := m / n, m % n;
    QuotientBound(m, n);
    assert m == n * q + r;
    NegMul(y, q);
  }

  lemma {:induction false} NegMul(y: int, q: int)
    ensures y * (-q) == -(y * q) && (-y) * q == -(y * q)
  {
  }

  lemma {:induction false} QuotientBound(m: nat, n: int)
    requires n >= 1
    ensures 0 <= m / n <= m && m == n * (m / n) + m % n
    ensures n >= 2 && m >= 1 ==> m / n < m
  {
    var q := m / n;
    assert q >= 0;
    MulMono(1, n, q);
    if n >= 2 {
      MulMono(2, n, q);
    }
  }

  lemma {:induction false} QuotientMagnitude(x: int, n: int)
    requires n >= 1 && -TWO31 <= x < TWO31
    ensures -TWO31 <= x / n < TWO31
  {
    var q := x / n;
    assert x == n * q + x % n;
    if q >= 0 {
      MulMono(1, n, q);
    } else {
      MulMono(1, n, -q - 1);
      NegMul(n, -q - 1);
    }
  }

  lemma {:induction false} WrapCongruent(x: int, k: int)
    ensures Wrap(x + k * TWO64) == Wrap(x)
  {
    DivModUnique(x + k * TWO64, TWO64, x / TWO64 + k, x % TWO64);
  }

  lemma {:induction false} WrapSigned(x: u64)
    ensures Wrap(S64(x)) == x
  {
    WrapCongruent(x, -1);
    Small(x, TWO64);
  }

  /** b*q + r, reduced to words before or after, is the same word. */
  lemma {:induction false} WrapMulAdd(b: int, q: int, r: int, b': int, q': int, r': int)
    requires Wrap(b) == Wrap(b') && Wrap(q) == Wrap(q') && Wrap(r) == Wrap(r')
    ensures Wrap(b * q + r) == Wrap(b' * q' + r')
  {
    var kb, kq, kr := b / TWO64 - b' / TWO64, q / TWO64 - q' / TWO64, r / TWO64 - r' / TWO64;
    assert b == b' + kb * TWO64 && q == q' + kq * TWO64 && r == r' + kr * TWO64;
    var k := b' * kq + kb * q' + kb * kq * TWO64 + kr;
    MulAddExpand(b', q', r', kb, kq, kr);
    WrapCongruent(b' * q' + r', k);
  }

  lemma {:induction false} MulAddExpand(b: int, q: int, r: int, kb: int, kq: int, kr: int)
    ensures (b + kb * TWO64) * (q + kq * TWO64) + (r + kr * TWO64)
         == b * q + r + (b * kq + kb * q + kb * kq * TWO64 + kr) * TWO64
  {
    var m := kq * TWO64;
    assert (b + kb * TWO64) * (q + m) == b * q + b * m + (kb * TWO64) * q + (kb * TWO64) * m;
    assert b * m == (b * kq) * TWO64;
    assert (kb * TWO64) * q == (kb * q) * TWO64;
    assert (kb * TWO64) * m == (kb * kq * TWO64) * TWO64;
  }

  /** The division law of section 7.2 of the RISC-V Unprivileged ISA 20191213,
      signed, through the zero divisor and the overflow case. */
  lemma {:induction false} DivRemLaw(a: u64, b: u64)
    ensures Wrap(b * Div(a, b) + Rem(a, b)) == a
  {
    if b == 0 {
    } else if a == TWO63 && b == TWO64 - 1 {
      WrapMulAdd(b, TWO63, 0, -1, -TWO63, 0);
    } else {
      SignedLaw(a, b);
    }
  }

  lemma {:induction false} SignedLaw(a: u64, b: u64)
    requires b != 0
    ensures S64(b) != 0
    ensures Wrap(b * Wrap(TruncDiv(S64(a), S64(b))) + Wrap(TruncRem(S64(a), S64(b)))) == a
  {
    hide TruncDiv, TruncRem, S64, Wrap;
    WrapSigned(a);
    WrapSigned(b);
    WrapId(0);
    WrapId(b);
    var x, y := S64(a), S64(b);
    TruncLaw(x, y);
    var q, r := TruncDiv(x, y), TruncRem(x, y);
    WrapId(Wrap(q));
    WrapId(Wrap(r));
    WrapMulAdd(b, Wrap(q), Wrap(r), y, q, r);
  }

  lemma {:induction false} DivuRemuLaw(a: u64, b: u64)
    ensures Wrap(b * Divu(a, b) + Remu(a, b)) == a
    ensures b != 0 ==> Remu(a, b) < b
  {
    if b != 0 {
      assert b * (a / b) + a % b == a;
      Small(a, TWO64);
    }
  }

  /** Outside the special cases the signed quotient truncates: the remainder is
      smaller than the divisor and takes the dividend's sign, and neither
      result is altered by the conversion back to a word. */
  lemma {:induction false} DivTruncates(a: u64, b: u64)
    requires b != 0 && !(a == TWO63 && b == TWO64 - 1)
    ensures S64(Div(a, b)) == TruncDiv(S64(a), S64(b))
    ensures S64(Rem(a, b)) == TruncRem(S64(a), S64(b))
    ensures Abs(S64(Rem(a, b))) < Abs(S64(b))
    ensures S64(Rem(a, b)) == 0 || (S64(Rem(a, b)) < 0) == (S64(a) < 0)
    ensures S64(a) == S64(b) * S64(Div(a, b)) + S64(Rem(a, b))
  {
    var x, y := S64(a), S64(b);
    TruncLaw(x, y);
    QuotientFits(x, y);
    SignedFits(TruncDiv(x, y));
    SignedFits(TruncRem(x, y));
  }

  lemma {:induction false} SignedFits(v: int)
    requires -TWO63 <= v < TWO63
    ensures S64(Wrap(v)) == v
  {
    DivModUnique(v, TWO64, if v < 0 then -1 else 0, if v < 0 then v + TWO64 else v);
  }

  lemma {:induction false} QuotientFits(x: int, y: int)
    requires -TWO63 <= x < TWO63 && y != 0 && !(x == -TWO63 && y == -1)
    ensures -TWO63 <= TruncDiv(x, y) < TWO63
  {
    TruncLaw(x, y);
    if x == -TWO63 && y < 0 {
      QuotientBound(Abs(x), Abs(y));
    }
  }

  /** The W forms, exactly where the source divides without trapping. */
  lemma {:induction false} DivRemWLaw(a: u64, b: u64)
    ensures DivW(a, b).None? <==> TrapsW(b)
    ensures RemW(a, b).None? <==> TrapsW(b)
    ensures !TrapsW(b) ==> SExt32(S32(b) * S32(DivW(a, b).value) + S32(RemW(a, b).value)) == SExt32(a)
  {
    hide TruncDiv, TruncRem, Wrap, S32, Lo32;
    S32Idem(a);
    LowWordZero(a);
    LowWordZero(b);
    if b != 0 && !TrapsW(b) {
      var q, r := TruncDiv(S32(a), S32(b)), TruncRem(S32(a), S32(b));
      S32Idem(q);
      S32Idem(r);
      WordQuotient(S32(a), S32(b), q, r);
    }
  }

  lemma {:induction false} LowWordZero(b: u64)
    ensures S32(b) == 0 <==> Lo32(b) == 0
    ensures -TWO31 <= S32(b) < TWO31
    ensures S32(0) == 0
  {
  }

  lemma {:induction false} WordQuotient(x: int, y: int, q: int, r: int)
    requires y != 0 && -TWO31 <= x < TWO31 && -TWO31 <= y < TWO31
    requires q == TruncDiv(x, y) && r == TruncRem(x, y)
    ensures SExt32(y * S32(q) + S32(r)) == SExt32(x)
  {
    TruncLaw(x, y);
    if q == TWO31 {
      QuotientOverflowW(x, y, q);
      assert S32(q) == -TWO31;
    } else {
      QuotientFitsW(x, y, q);
      S32Idem(q);
    }
    S32Idem(r);
  }

  lemma {:induction false} S32Idem(x: int)
    ensures S32(SExt32(x)) == S32(x) && SExt32(S32(x)) == SExt32(x)
    ensures -TWO31 <= x < TWO31 ==> S32(x) == x
  {
    hide S32, Wrap;
    SmallWord(S32(x));
    if -TWO31 <= x < TWO31 {
      SmallWord(x);
    }
  }

  lemma {:induction false} SmallWord(v: int)
    requires -TWO31 <= v < TWO31
    ensures S32(v) == v && S32(Wrap(v)) == v
  {
    if v < 0 {
      DivModUnique(v, TWO64, -1, v + TWO64);
      DivModUnique(v, TWO32, -1, v + TWO32);
      DivModUnique(v + TWO64, TWO32, TWO32 - 1, v + TWO32);
    } else {
      Small(v, TWO64);
      Small(v, TWO32);
    }
  }

  lemma {:induction false} QuotientOverflowW(x: int, y: int, q: int)
    requires y != 0 && -TWO31 <= x < TWO31 && q == TruncDiv(x, y) && q == TWO31
    ensures x == -TWO31 && y == -1
  {
    QuotientBound(Abs(x), Abs(y));
  }

  lemma {:induction false} QuotientFitsW(x: int, y: int, q: int)
    requires y != 0 && -TWO31 <= x < TWO31 && q == TruncDiv(x, y) && q != TWO31
    ensures -TWO31 <= q < TWO31
  {
    TruncLaw(x, y);
  }

  lemma {:induction false} DivuRemuWLaw(a: u64, b: u64)
    ensures DivuW(a, b).None? <==> TrapsW(b)
    ensures RemuW(a, b).None? <==> TrapsW(b)
    ensures !TrapsW(b) ==>
              SExt32(Lo32(b) * Lo32(DivuW(a, b).value) + Lo32(RemuW(a, b).value)) == SExt32(a)
  {
    hide Wrap, S32, Lo32;
    SExtLow(a);
    LowZero();
    if b != 0 && !TrapsW(b) {
      var x, y := Lo32(a), Lo32(b);
      QuotientBound(x, y);
      Lo32Idem(x / y);
      Lo32Idem(x % y);
    }
  }

  lemma {:induction false} SExtLow(a: u64)
    ensures SExt32(Lo32(a)) == SExt32(a) && Lo32(SExt32(a)) == Lo32(a)
  {
  }

  lemma {:induction false} LowZero()
    ensures Lo32(0) == 0
  {
  }

  lemma {:induction false} Lo32Small(x: int)
    requires 0 <= x < TWO32
    ensures Lo32(x) == x
  {
  }

  lemma {:induction false} Lo32Idem(x: int)
    requires 0 <= x < TWO32
    ensures Lo32(SExt32(x)) == x
  {
  }

  // ----- handlers -----

  /** The value a register-immediate handler writes; `imm` is the sign-extended
      immediate, so `imm & 0x3f` is its residue modulo 64. */
  function ImmAlu(op: ImmOp, a: u64, imm: int): u64 {
    match op
    case Addi => Wrap(a + imm)
    case Slli => Wrap(a * Pow2(imm % 64))
    case Slti => if S64(a) < imm then 1 else 0
    case Sltiu => if a < Wrap(imm) then 1 else 0
    case Xori => Xor64(a, Wrap(imm))
    case Srli => ShiftRight(a, imm % 64)
    case Srai => Wrap(S64(a) / Pow2(imm % 64))
    case Ori => Or64(a, Wrap(imm))
    case Andi => And64(a, Wrap(imm))
    case Addiw => SExt32(a + imm)
    case Slliw => SExt32(a * Pow2(imm % 32))
    case Srliw => SExt32(Lo32(a) / Pow2(imm % 32))
    case Sraiw => Wrap(S32(a) / Pow2(imm % 32))
  }

  function ShiftRight(a: u64, k: nat): u64 {
    QuotientBound(a, Pow2(k));
    a / Pow2(k)
  }

  /** The value a register-register handler writes; None where the host traps. */
  function RegAlu(op: RegOp, a: u64, b: u64): Option<u64> {
    match op
    case Add => Some(Wrap(a + b))
    case Sub => Some(Wrap(a - b))
    case Sll => Some(Wrap(a * Pow2(b % 64)))
    case Slt => Some(if S64(a) < S64(b) then 1 else 0)
    case Sltu => Some(if a < b then 1 else 0)
    case Xor => Some(Xor64(a, b))
    case Srl => Some(ShiftRight(a, b % 64))
    case Sra => Some(Wrap(S64(a) / Pow2(b % 64)))
    case Or => Some(Or64(a, b))
    case And => Some(And64(a, b))
    case Mul => Some(Wrap(a * b))
    case Mulh => Some(Mulh(a, b))
    case Mulhsu => Some(Mulhsu(a, b))
    case Mulhu => Some(Mulhu(a, b))
    case Div => Some(Div(a, b))
    case Divu => Some(Divu(a, b))
    case Rem => Some(Rem(a, b))
    case Remu => Some(Remu(a, b))
    case Addw => Some(SExt32(a + b))
    case Subw => Some(SExt32(a - b))
    case Sllw => Some(SExt32(a * Pow2(b % 32)))
    case Srlw => Some(SExt32(Lo32(a) / Pow2(b % 32)))
    case Sraw => Some(Wrap(S32(a) / Pow2(b % 32)))
    case Mulw => Some(SExt32(a * b))
    case Divw => DivW(a, b)
    case Divuw => DivuW(a, b)
    case Remw => RemW(a, b)
    case Remuw => RemuW(a, b)
  }

  /** The handlers of the high multiplications write the high words of the
      unsigned, signed and mixed products. */
  lemma {:induction false} HighHandlers(a: u64, b: u64)
    ensures RegAlu(RegOp.Mulhu, a, b) == Some(a * b / TWO64)
    ensures RegAlu(RegOp.Mulh, a, b) == Some(Wrap(S64(a) * S64(b) / TWO64))
    ensures RegAlu(RegOp.Mulhsu, a, b) == Some(Wrap(S64(a) * b / TWO64))
  {
    hide Mulhu, Mulh, Mulhsu, Wrap, S64;
    MulhuSpec(a, b);
    MulhSpec(a, b);
    MulhsuSpec(a, b);
  }

  /** `fsgnj32` and `fsgnj64`: `(a & ~SIGN) | ((v ^ b) & SIGN)` where v is
      SIGN, a or 0. */
  function SignInject(op: FpSign, sign: u64, a: u64, b: u64): u64
    requires sign >= 1
  {
    var v := match op
      case Fsgnj => 0
      case Fsgnjn => sign
      case Fsgnjx => a;
    Or64(And64(a, sign - 1), And64(Xor64(v, b), sign))
  }

  /** The magnitude of the first operand, with the sign of the second, its
      negation, or the exclusive or of both signs. */
  lemma {:induction false} SignInjectSpec(op: FpSign, n: nat, a: u64, b: u64)
    requires n <= 63 && a < 2 * Pow2(n) && b < 2 * Pow2(n)
    ensures Pow2(n) < TWO64
    ensures var s, r := Pow2(n), SignInject(op, Pow2(n), a, b);
            && r == a % s + (if r >= s then s else 0)
            && (r >= s <==> match op
                            case Fsgnj => b >= s
                            case Fsgnjn => b < s
                            case Fsgnjx => (a >= s) != (b >= s))
  {
    hide BitAnd, BitOr, BitXor, Bit, Pow2;
    PowerFits(n);
    var s := Pow2(n);
    var v := match op
      case Fsgnj => 0
      case Fsgnjn => s
      case Fsgnjx => a;
    AndLowMask(a, n);
    AndOneBit(Xor64(v, b), n);
    BitwiseBits(v, b, n);
    TopBit(a, n);
    TopBit(b, n);
    TopBit(s, n);
    TopBit(0, n);
    var low, high := a % s, if Bit(Xor64(v, b), n) then 1 else 0;
    OrDisjoint(high, low, n);
    OrCommutes(high * s, low);
  }

  predicate Taken(op: BranchOp, a: u64, b: u64) {
    match op
    case Beq => a == b
    case Bne => a != b
    case Blt => S64(a) < S64(b)
    case Bge => S64(a) >= S64(b)
    case Bltu => a < b
    case Bgeu => a >= b
  }
}
