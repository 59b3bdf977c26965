/** 64-bit words as mathematical integers, with every wrap-around written out.
    A guest or host word is a number in 0..2^64-1; `S64` and `S32` give the
    two's-complement readings that the C casts `(i64)` and `(i32)` give. */
module Words {

  const TWO16: int := 0x1_0000
  const TWO31: int := 0x8000_0000
  const TWO32: int := 0x1_0000_0000
  const TWO63: int := 0x8000_0000_0000_0000
  const TWO64: int := 0x1_0000_0000_0000_0000

  type u8 = x: int | 0 <= x < 0x100
  type u64 = x: int | 0 <= x < 0x1_0000_0000_0000_0000

  datatype Option<+T> = None | Some(value: T)

  /** Conversion of any integer to `u64`. */
  function Wrap(x: int): u64 {
    x % 0x1_0000_0000_0000_0000
  }

  /** The cast `(i64)x`. */
  function S64(x: int): (r: int)
    ensures -0x8000_0000_0000_0000 <= r < 0x8000_0000_0000_0000
  {
    var w := x % 0x1_0000_0000_0000_0000;
    if w < 0x8000_0000_0000_0000 then w else w - 0x1_0000_0000_0000_0000
  }

  /** The cast `(u32)x`. */
  function Lo32(x: int): (r: int)
    ensures 0 <= r < 0x1_0000_0000
  {
    x % 0x1_0000_0000
  }

  /** The cast `(i32)x`. */
  function S32(x: int): (r: int)
    ensures -0x8000_0000 <= r < 0x8000_0000
  {
    var w := x % 0x1_0000_0000;
    if w < 0x8000_0000 then w else w - 0x1_0000_0000
  }

  /** The cast chain `(u64)(i64)(i32)x`: sign extension of the low word. */
  function SExt32(x: int): u64 {
    Wrap(S32(x))
  }

  function Pow2(k: nat): (p: int)
    ensures p >= 1
  {
    if k == 0 then 1 else 2 * Pow2(k - 1)
  }

  lemma {:induction false} Pow2Add(a: nat, b: nat)
    ensures Pow2(a + b) == Pow2(a) * Pow2(b)
  {
    if a != 0 {
      Pow2Add(a - 1, b);
    }
  }

  lemma {:induction false} Pow2Mono(a: nat, b: nat)
    requires a <= b
    ensures Pow2(a) <= Pow2(b)
  {
    if a < b {
      Pow2Mono(a, b - 1);
    }
  }

  lemma {:induction false} Pow2Values()
    ensures Pow2(4) == 16 && Pow2(5) == 32 && Pow2(6) == 64 && Pow2(12) == 4096
    ensures Pow2(16) == TWO16 && Pow2(32) == TWO32 && Pow2(64) == TWO64
  {
    assert Pow2(4) == 16 && Pow2(8) == 256;
    Pow2Add(4, 8);
    Pow2Add(8, 8);
    Pow2Add(16, 16);
    Pow2Add(32, 32);
  }

  // ----- bitwise operators -----

  /** Bitwise and, or, exclusive or of natural numbers, bit by bit. */
  function BitAnd(x: nat, y: nat): (r: nat)
    ensures r <= x && r <= y
  {
    if x == 0 || y == 0 then 0
    else (x % 2) * (y % 2) + 2 * BitAnd(x / 2, y / 2)
  }

  function BitXor(x: nat, y: nat): nat
    decreases x + y
  {
    if x == 0 && y == 0 then 0
    else (x + y) % 2 + 2 * BitXor(x / 2, y / 2)
  }

  function BitOr(x: nat, y: nat): nat
    decreases x + y
  {
    if x == 0 && y == 0 then 0
    else (if x % 2 == 1 || y % 2 == 1 then 1 else 0) + 2 * BitOr(x / 2, y / 2)
  }

  /** Bit k of x. */
  function Bit(x: nat, k: nat): bool {
    x / Pow2(k) % 2 == 1
  }

  lemma {:induction false} BitNext(x: nat, k: nat)
    ensures Bit(x, 0) <==> x % 2 == 1
    ensures Bit(x, k + 1) <==> Bit(x / 2, k)
  {
    DivTwice(x, Pow2(k));
  }

  lemma {:induction false} DivTwice(x: nat, p: int)
    requires p >= 1
    ensures x / (2 * p) == x / 2 / p
  {
    var q, r := x / 2 / p, x / 2 % p;
    assert x / 2 == p * q + r;
    assert x == q * (2 * p) + (2 * r + x % 2) by {
      assert 2 * (p * q) == q * (2 * p);
    }
    DivModUnique(x, 2 * p, q, 2 * r + x % 2);
  }

  /** The bits of the results are the and, or, exclusive or of the bits. */
  lemma {:induction false} BitwiseBits(x: nat, y: nat, k: nat)
    ensures Bit(BitAnd(x, y), k) <==> Bit(x, k) && Bit(y, k)
    ensures Bit(BitOr(x, y), k) <==> Bit(x, k) || Bit(y, k)
    ensures Bit(BitXor(x, y), k) <==> (Bit(x, k) != Bit(y, k))
    decreases k
  {
    hide Bit, BitAnd, BitOr, BitXor;
    LowBits(x, y);
    if k == 0 {
      BitNext(x, 0);
      BitNext(y, 0);
      BitNext(BitAnd(x, y), 0);
      BitNext(BitOr(x, y), 0);
      BitNext(BitXor(x, y), 0);
    } else {
      BitwiseBits(x / 2, y / 2, k - 1);
      BitNext(x, k - 1);
      BitNext(y, k - 1);
      BitNext(BitAnd(x, y), k - 1);
      BitNext(BitOr(x, y), k - 1);
      BitNext(BitXor(x, y), k - 1);
    }
  }

  lemma {:induction false} LowBits(x: nat, y: nat)
    ensures BitAnd(x, y) / 2 == BitAnd(x / 2, y / 2)
    ensures BitOr(x, y) / 2 == BitOr(x / 2, y / 2)
    ensures BitXor(x, y) / 2 == BitXor(x / 2, y / 2)
    ensures BitAnd(x, y) % 2 == 1 <==> x % 2 == 1 && y % 2 == 1
    ensures BitOr(x, y) % 2 == 1 <==> x % 2 == 1 || y % 2 == 1
    ensures BitXor(x, y) % 2 == 1 <==> x % 2 != y % 2
  {
    hide BitAnd, BitOr, BitXor;
    AndIs(x, y);
    OrIs(x, y);
    XorIs(x, y);
    Join(if x % 2 == 1 && y % 2 == 1 then 1 else 0, BitAnd(x / 2, y / 2));
    Join(if x % 2 == 1 || y % 2 == 1 then 1 else 0, BitOr(x / 2, y / 2));
    Join(if x % 2 != y % 2 then 1 else 0, BitXor(x / 2, y / 2));
  }

  lemma {:induction false} Join(b: nat, z: nat)
    requires b <= 1
    ensures (b + 2 * z) / 2 == z && (b + 2 * z) % 2 == b
  {
  }

  lemma {:induction false} AndIs(x: nat, y: nat)
    ensures BitAnd(x, y) == (if x % 2 == 1 && y % 2 == 1 then 1 else 0) + 2 * BitAnd(x / 2, y / 2)
  {
  }

  lemma {:induction false} OrIs(x: nat, y: nat)
    ensures BitOr(x, y) == (if x % 2 == 1 || y % 2 == 1 then 1 else 0) + 2 * BitOr(x / 2, y / 2)
  {
  }

  lemma {:induction false} XorIs(x: nat, y: nat)
    ensures BitXor(x, y) == (if x % 2 != y % 2 then 1 else 0) + 2 * BitXor(x / 2, y / 2)
  {
  }

  lemma {:induction false} OrCommutes(x: nat, y: nat)
    ensures BitOr(x, y) == BitOr(y, x)
    decreases x + y
  {
    if x != 0 || y != 0 {
      OrCommutes(x / 2, y / 2);
    }
  }

  lemma {:induction false} AndOneBit(x: nat, n: nat)
    ensures BitAnd(x, Pow2(n)) == if Bit(x, n) then Pow2(n) else 0
    decreases n
  {
    hide BitAnd, Bit;
    AndIs(x, Pow2(n));
    if n == 0 {
      BitNext(x, 0);
      AndZero(x / 2, 0);
    } else {
      AndOneBit(x / 2, n - 1);
      BitNext(x, n - 1);
    }
  }

  /** In a word of n + 1 bits, the top bit says whether it is at least 2^n. */
  lemma {:induction false} TopBit(x: nat, n: nat)
    requires x < 2 * Pow2(n)
    ensures Bit(x, n) <==> x >= Pow2(n)
  {
    var p := Pow2(n);
    if x >= p {
      DivModUnique(x, p, 1, x - p);
    } else {
      DivModUnique(x, p, 0, x);
    }
  }

  lemma {:induction false} BitXorBound(x: nat, y: nat, k: nat)
    requires x < Pow2(k) && y < Pow2(k)
    ensures BitXor(x, y) < Pow2(k)
  {
    if k != 0 {
      BitXorBound(x / 2, y / 2, k - 1);
    }
  }

  lemma {:induction false} BitOrBound(x: nat, y: nat, k: nat)
    requires x < Pow2(k) && y < Pow2(k)
    ensures BitOr(x, y) < Pow2(k)
  {
    if k != 0 {
      BitOrBound(x / 2, y / 2, k - 1);
    }
  }

  function And64(x: u64, y: u64): u64 {
    BitAnd(x, y)
  }

  function Xor64(x: u64, y: u64): u64 {
    assert BitXor(x, y) < TWO64 by { Pow2Values(); BitXorBound(x, y, 64); }
    BitXor(x, y)
  }

  function Or64(x: u64, y: u64): u64 {
    assert BitOr(x, y) < TWO64 by { Pow2Values(); BitOrBound(x, y, 64); }
    BitOr(x, y)
  }

  /** `x & (2^k - 1)` keeps the low k bits. */
  lemma {:induction false} AndLowMask(x: nat, k: nat)
    ensures BitAnd(x, Pow2(k) - 1) == x % Pow2(k)
  {
    hide BitAnd;
    if k == 0 {
      AndZero(x, 0);
    } else if x == 0 {
      AndZero(0, Pow2(k) - 1);
      Small(0, Pow2(k));
    } else {
      var p := Pow2(k - 1);
      AndLowMask(x / 2, k - 1);
      AndOdd(x, p);
      ModSplit(x, p);
    }
  }

  lemma {:induction false} AndZero(x: nat, y: nat)
    requires x == 0 || y == 0
    ensures BitAnd(x, y) == 0
  {
  }

  lemma {:induction false} AndOdd(x: nat, p: int)
    requires x != 0 && p >= 1
    ensures BitAnd(x, 2 * p - 1) == x % 2 + 2 * BitAnd(x / 2, p - 1)
  {
    var m := 2 * p - 1;
    assert m % 2 == 1 && m / 2 == p - 1;
  }

  lemma {:induction false} ModSplit(x: nat, p: int)
    requires p >= 1
    ensures x % (2 * p) == x % 2 + 2 * ((x / 2) % p)
  {
    var q, r := x / 2 / p, x / 2 % p;
    assert x / 2 == q * p + r;
    assert x == 2 * (x / 2) + x % 2;
    assert x == q * (2 * p) + (2 * r + x % 2) by {
      assert 2 * (q * p) == q * (2 * p);
    }
    DivModUnique(x, 2 * p, q, 2 * r + x % 2);
  }

  lemma {:induction false} MulAtLeast(a: int, d: int)
    requires a >= 1 && d > 0
    ensures a * d >= d
  {
  }

  /** Quotient and remainder are unique. */
  lemma {:induction false} DivModUnique(x: int, d: int, q: int, r: int)
    requires d > 0 && x == q * d + r && 0 <= r < d
    ensures x / d == q && x % d == r
  {
    EuclidUnique(d, x / d, x % d, q, r);
  }

  lemma {:induction false} EuclidUnique(d: int, q: int, r: int, q': int, r': int)
    requires d > 0 && q * d + r == q' * d + r' && 0 <= r < d && 0 <= r' < d
    ensures q == q' && r == r'
  {
    if q > q' {
      MulAtLeast(q - q', d);
    } else if q < q' {
      MulAtLeast(q' - q, d);
    }
  }

  /** `x & (2^n - 2^k)` clears the low k bits of an n-bit number. */
  lemma {:induction false} AndHighMask(x: nat, n: nat, k: nat)
    requires k <= n && x < Pow2(n)
    ensures Pow2(n) >= Pow2(k)
    ensures BitAnd(x, Pow2(n) - Pow2(k)) == x - x % Pow2(k)
  {
    Pow2Mono(k, n);
    if x == 0 {
    } else if k == 0 {
      AndLowMask(x, n);
      Small(x, Pow2(n));
    } else {
      AndHighMask(x / 2, n - 1, k - 1);
      var m := Pow2(n) - Pow2(k);
      assert m / 2 == Pow2(n - 1) - Pow2(k - 1) && m % 2 == 0;
      ModSplit(x, Pow2(k - 1));
      if m == 0 {
        assert n == k by {
          if k < n { Pow2Mono(k, n - 1); }
        }
        Small(x, Pow2(k));
      }
    }
  }

  lemma {:induction false} Small(x: nat, d: int)
    requires x < d
    ensures x % d == x
  {
    DivModUnique(x, d, 0, x);
  }

  lemma {:induction false} WrapId(x: int)
    requires 0 <= x < TWO64
    ensures Wrap(x) == x
  {
    Small(x, TWO64);
  }

  /** `v & ~1`, the even address at or below v. */
  function ClearBit0(v: u64): u64 {
    v - v % 2
  }

  // ----- rounding as the source writes it -----

  /** The macro `ROUNDUP(x, k)`, that is `(x + k - 1) & -k`, and
      `align_to(x, k)` for k != 0, both in wrapping 64-bit arithmetic. */
  function RoundUp(x: u64, k: u64): u64 {
    And64(Wrap(x + k - 1), Wrap(-(k as int)))
  }

  /** For a power of two and no wrap-around, `RoundUp` is the least multiple of
      k that is at least x. */
  lemma {:induction false} RoundUpSpec(x: u64, n: nat)
    requires n <= 63 && x + Pow2(n) <= TWO64
    ensures Pow2(n) < TWO64
    ensures x <= RoundUp(x, Pow2(n)) < x + Pow2(n)
    ensures RoundUp(x, Pow2(n)) % Pow2(n) == 0
  {
    hide BitAnd;
    hide RoundUp;
    PowerFits(n);
    hide Pow2;
    var p := Pow2(n);
    RoundUpAsAnd(x, p);
    AndHighMask(x + p - 1, 64, n);
    RoundDownMultiple(x + p - 1, p, RoundUp(x, p));
  }

  lemma {:induction false} PowerFits(n: nat)
    requires n <= 63
    ensures Pow2(n) < TWO64 && Pow2(64) == TWO64
  {
    Pow2Values();
    Pow2Mono(n, 63);
    assert Pow2(64) == 2 * Pow2(63);
  }

  lemma {:induction false} RoundDownMultiple(y: nat, p: int, r: int)
    requires p >= 1 && r == y - y % p
    ensures r % p == 0 && y - p < r <= y
  {
    assert r == (y / p) * p + 0;
    DivModUnique(r, p, y / p, 0);
  }

  lemma {:induction false} RoundUpAsAnd(x: u64, k: u64)
    requires 1 <= k && x + k <= TWO64
    ensures RoundUp(x, k) == BitAnd(x + k - 1, TWO64 - k)
  {
    hide BitAnd;
    Small(x + k - 1, TWO64);
    DivModUnique(-(k as int), TWO64, -1, TWO64 - k);
  }

  /** A sum that wraps ends below x. */
  lemma {:induction false} RoundUpWraps(x: u64, k: u64)
    requires x + k > TWO64
    ensures RoundUp(x, k) < x
  {
    hide BitAnd;
    DivModUnique(x + k - 1, TWO64, 1, x + k - 1 - TWO64);
  }

  /** Whatever k is, clearing the bits of k - 1 never drops below x. */
  lemma {:induction false} RoundUpNeverBelow(x: u64, k: u64)
    requires 1 <= k && x + k <= TWO64
    ensures x <= RoundUp(x, k)
  {
    hide BitAnd;
    RoundUpAsAnd(x, k);
    Pow2Values();
    hide Pow2;
    assert TWO64 - k == Pow2(64) - 1 - (k - 1);
    AndComplement(x + k - 1, k - 1, 64);
  }

  lemma {:induction false} AndComplement(y: nat, m: nat, n: nat)
    requires y < Pow2(n) && m < Pow2(n)
    ensures BitAnd(y, Pow2(n) - 1 - m) + m >= y
  {
    hide BitAnd;
    if n != 0 && y != 0 && m != Pow2(n) - 1 {
      AndComplement(y / 2, m / 2, n - 1);
      var c := Pow2(n) - 1 - m;
      OddMinus(Pow2(n - 1), m);
      AndStep(y, c);
      Halves(y, m, BitAnd(y / 2, c / 2));
    }
  }

  lemma {:induction false} AndStep(x: nat, y: nat)
    requires x != 0 && y != 0
    ensures BitAnd(x, y) == (if x % 2 == 1 && y % 2 == 1 then 1 else 0) + 2 * BitAnd(x / 2, y / 2)
  {
  }

  lemma {:induction false} OddMinus(p: int, m: nat)
    ensures (2 * p - 1 - m) / 2 == p - 1 - m / 2 && (2 * p - 1 - m) % 2 == 1 - m % 2
  {
  }

  lemma {:induction false} Halves(y: nat, m: nat, b: nat)
    requires b + m / 2 >= y / 2
    ensures (if y % 2 == 1 && m % 2 == 0 then 1 else 0) + 2 * b + m >= y
  {
  }
}
