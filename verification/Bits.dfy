/** Unsigned 64-bit machine arithmetic on mathematical integers.

    A C++ unsigned value is a natural number below its modulus and every operation that can
    leave that range is reduced explicitly.  The bitwise operators are defined bit by bit.
    The one law the rest of the project needs is SplitBits: a bitwise operator acts separately
    on the part above and the part below any bit position. */
module Bits {

  const TWO32: nat := 0x1_0000_0000
  const TWO64: nat := 0x1_0000_0000_0000_0000

  type uint64 = x: int | 0 <= x < TWO64

  /** `x << k` before any truncation. */
  function Shl(x: nat, k: nat): (r: nat)
    ensures r >= x
  {
    if k == 0 then x else 2 * Shl(x, k - 1)
  }

  function Pow2(k: nat): (p: nat)
    ensures p > 0
  {
    Shl(1, k)
  }

  datatype BitOp = AND | OR | XOR
  {
    function OnBits(x: nat, y: nat): (r: nat)
      requires x < 2 && y < 2
      ensures r < 2
    {
      match this
      case AND => x * y
      case OR => if x + y > 0 then 1 else 0
      case XOR => (x + y) % 2
    }
  }

  function Bitwise(op: BitOp, x: nat, y: nat): nat
    decreases x + y
  {
    if x == 0 && y == 0 then 0 else 2 * Bitwise(op, x / 2, y / 2) + op.OnBits(x % 2, y % 2)
  }

  function And(x: nat, y: nat): nat { Bitwise(AND, x, y) }

  function Or(x: nat, y: nat): nat { Bitwise(OR, x, y) }

  function Xor(x: nat, y: nat): nat { Bitwise(XOR, x, y) }

  /** `~x` on a C `int`, before any conversion. */
  function Complement(x: int): int { -x - 1 }

  /** The conversion of a C `int` to `uint64_t`: negative values are sign-extended. */
  function ToUint64(x: int): uint64 { x % TWO64 }

  /** The value an unsigned 64-bit register holds after computing x. */
  function Wrap64(x: nat): uint64
  {
    if x < TWO64 then x else Wrap64(x - TWO64)
  }

  lemma {:induction false} Wrap64IsModulo(x: nat)
    ensures Wrap64(x) == x % TWO64
  {
    if x >= TWO64 {
      Wrap64IsModulo(x - TWO64);
    }
  }

  /** Reducing a summand first makes no difference. */
  lemma {:induction false} WrapOnce(x: nat, y: nat)
    ensures Wrap64(Wrap64(x) + y) == Wrap64(x + y)
  {
    if x >= TWO64 {
      WrapOnce(x - TWO64, y);
    }
  }

  lemma ModuloOnce(x: nat, y: nat)
    ensures (x % 0x1_0000_0000_0000_0000 + y) % 0x1_0000_0000_0000_0000 == (x + y) % 0x1_0000_0000_0000_0000
  {
    hide Wrap64;
    WrapOnce(x, y);
    Wrap64IsModulo(x);
    Wrap64IsModulo(Wrap64(x) + y);
    Wrap64IsModulo(x + y);
  }

  function ShiftLeft64(x: nat, n: nat): uint64 { Wrap64(Shl(x, n)) }

  /** A shift by 32 keeps the low 32 bits of its operand. */
  lemma ShiftedBy32(x: nat)
    ensures ShiftLeft64(x, 32) == x % 0x1_0000_0000 * 0x1_0000_0000
    ensures ShiftLeft64(x, 32) == x * 0x1_0000_0000 % 0x1_0000_0000_0000_0000
  {
    hide Shl, Wrap64;
    ShlLiteral(x, 32);
    Wrap64IsModulo(x * 0x1_0000_0000);
    DivModUnique(x / 0x1_0000_0000, x % 0x1_0000_0000 * 0x1_0000_0000, 0x1_0000_0000_0000_0000);
  }

  /** A shift by 48 keeps the low 16 bits of its operand. */
  lemma ShiftedBy48(x: nat)
    ensures ShiftLeft64(x, 48) == x % 0x1_0000 * 0x1_0000_0000_0000
    ensures ShiftLeft64(x, 48) == x * 0x1_0000_0000_0000 % 0x1_0000_0000_0000_0000
  {
    hide Shl, Wrap64;
    ShlLiteral(x, 48);
    Wrap64IsModulo(x * 0x1_0000_0000_0000);
    DivModUnique(x / 0x1_0000, x % 0x1_0000 * 0x1_0000_0000_0000, 0x1_0000_0000_0000_0000);
  }

  // ----- fields of a number -----

  lemma DivModUnique(q: nat, r: nat, d: nat)
    requires r < d
    ensures (q * d + r) / d == q && (q * d + r) % d == r
  {
    var x := q * d + r;
    MultipleBelow(q - x / d, d, x % d - r);
  }

  /** Only the zero multiple of d lies strictly between -d and d. */
  lemma MultipleBelow(m: int, d: int, r: int)
    requires d > 0 && -d < r < d && m * d == r
    ensures m == 0
  {
    assert m >= 1 ==> m * d >= d;
    assert m <= -1 ==> m * d <= -d;
  }

  /** The n-valued field at unit p of a number written as (q * n + f) * p + r. */
  lemma FieldOf(x: nat, q: nat, n: nat, f: nat, p: nat, r: nat)
    requires f < n && r < p && x == (q * n + f) * p + r
    ensures x / p == q * n + f && x % p == r && x / p % n == f
  {
    DivModUnique(q * n + f, r, p);
    DivModUnique(q, f, n);
  }

  // ----- bitwise operators act on high and low parts separately -----

  lemma {:induction false} SplitBits(op: BitOp, k: nat, xh: nat, xl: nat, yh: nat, yl: nat)
    requires xl < Pow2(k) && yl < Pow2(k)
    ensures Bitwise(op, Shl(xh, k) + xl, Shl(yh, k) + yl)
         == Shl(Bitwise(op, xh, yh), k) + Bitwise(op, xl, yl)
    ensures Bitwise(op, xl, yl) < Pow2(k)
  {
    hide Bitwise;
    if k == 0 {
      UnfoldBits(op, 0, 0);
    } else {
      SplitBits(op, k - 1, xh, xl / 2, yh, yl / 2);
      UnfoldBits(op, Shl(xh, k) + xl, Shl(yh, k) + yl);
      UnfoldBits(op, xl, yl);
      assert (Shl(xh, k) + xl) / 2 == Shl(xh, k - 1) + xl / 2;
      assert (Shl(yh, k) + yl) / 2 == Shl(yh, k - 1) + yl / 2;
    }
  }

  lemma UnfoldBits(op: BitOp, x: nat, y: nat)
    ensures Bitwise(op, x, y) == 2 * Bitwise(op, x / 2, y / 2) + op.OnBits(x % 2, y % 2)
  {
  }

  lemma {:induction false} BitwiseZero(x: nat)
    ensures And(x, 0) == 0 && And(0, x) == 0
    ensures Or(x, 0) == x && Or(0, x) == x
    ensures Xor(x, 0) == x && Xor(0, x) == x
  {
    if x != 0 {
      BitwiseZero(x / 2);
    }
  }

  /** An exclusive-or is undone by either operand. */
  lemma {:induction false} XorCancels(x: nat, y: nat)
    ensures Xor(Xor(x, y), y) == x && Xor(x, Xor(x, y)) == y
    decreases x + y
  {
    hide Bitwise;
    if x == 0 && y == 0 {
      BitwiseZero(0);
    } else {
      XorCancels(x / 2, y / 2);
      var b := Xor(x, y);
      UnfoldBits(XOR, x, y);
      assert b / 2 == Xor(x / 2, y / 2) && b % 2 == (x % 2 + y % 2) % 2;
      UnfoldBits(XOR, b, y);
      UnfoldBits(XOR, x, b);
    }
  }

  lemma {:induction false} ShlZero(k: nat)
    ensures Shl(0, k) == 0
  {
    if k != 0 {
      ShlZero(k - 1);
    }
  }

  lemma {:induction false} ShlIsProduct(x: nat, k: nat)
    ensures Shl(x, k) == x * Pow2(k)
  {
    if k != 0 {
      ShlIsProduct(x, k - 1);
      assert x * Pow2(k) == x * (2 * Pow2(k - 1)) == 2 * (x * Pow2(k - 1));
    }
  }

  lemma {:induction false} AndOnes(n: nat, x: nat)
    requires x < Pow2(n)
    ensures And(x, Pow2(n) - 1) == x
  {
    if n == 0 {
    } else {
      var ones := Pow2(n) - 1;
      assert ones / 2 == Pow2(n - 1) - 1 && ones % 2 == 1;
      AndOnes(n - 1, x / 2);
      UnfoldBits(AND, x, ones);
    }
  }

  /** Masking with n ones keeps the low n bits. */
  lemma AndLow(n: nat, h: nat, l: nat)
    requires l < Pow2(n)
    ensures And(Shl(h, n) + l, Pow2(n) - 1) == l
  {
    hide Bitwise, Shl;
    SplitBits(AND, n, h, l, 0, Pow2(n) - 1);
    BitwiseZero(h);
    ShlZero(n);
    AndOnes(n, l);
  }

  /** Masking with a contiguous field of n ones at bit k extracts that field in place. */
  lemma AndField(k: nat, n: nat, h: nat, m: nat, l: nat)
    requires m < Pow2(n) && l < Pow2(k)
    ensures And(Shl(Shl(h, n) + m, k) + l, Shl(Pow2(n) - 1, k)) == Shl(m, k)
  {
    hide Bitwise, Shl;
    SplitBits(AND, k, Shl(h, n) + m, l, Pow2(n) - 1, 0);
    AndLow(n, h, m);
    BitwiseZero(l);
  }

  /** An or of a multiple of 2^k with a value below 2^k is their sum. */
  lemma OrIsSum(k: nat, h: nat, l: nat)
    requires l < Pow2(k)
    ensures Or(Shl(h, k), l) == Shl(h, k) + l
  {
    hide Bitwise, Shl;
    SplitBits(OR, k, h, 0, 0, l);
    ShlZero(k);
    BitwiseZero(h);
    BitwiseZero(l);
  }

  /** Or-ing an n-bit value at bit lo into a number that is zero there is addition. */
  lemma OrIntoGap(lo: nat, n: nat, xh: nat, xl: nat, f: nat)
    requires xl < Pow2(lo) && f < Pow2(n)
    ensures Or(Shl(Shl(xh, n), lo) + xl, Shl(f, lo)) == Shl(Shl(xh, n), lo) + xl + Shl(f, lo)
  {
    hide Bitwise, Shl;
    SplitBits(OR, lo, Shl(xh, n), xl, f, 0);
    OrIsSum(n, xh, f);
    BitwiseZero(xl);
    ShlSum(Shl(xh, n), f, lo);
  }

  lemma {:induction false} ShlSum(x: nat, y: nat, k: nat)
    ensures Shl(x + y, k) == Shl(x, k) + Shl(y, k)
  {
    if k != 0 {
      ShlSum(x, y, k - 1);
    }
  }

  /** A bitwise operator stays below any power of two that bounds its operands. */
  lemma BitwiseFits(op: BitOp, k: nat, x: nat, y: nat)
    requires x < Pow2(k) && y < Pow2(k)
    ensures Bitwise(op, x, y) < Pow2(k)
  {
    hide Bitwise, Shl;
    SplitBits(op, k, 0, x, 0, y);
  }

  /** Shifts by the constants of the program are multiplications by literals. */
  lemma ShlLiteral(x: nat, k: nat)
    ensures k == 1 ==> Shl(x, k) == x * 0x2
    ensures k == 2 ==> Shl(x, k) == x * 0x4
    ensures k == 3 ==> Shl(x, k) == x * 8
    ensures k == 4 ==> Shl(x, k) == x * 0x10
    ensures k == 6 ==> Shl(x, k) == x * 0x40
    ensures k == 7 ==> Shl(x, k) == x * 0x80
    ensures k == 13 ==> Shl(x, k) == x * 0x2000
    ensures k == 14 ==> Shl(x, k) == x * 0x4000
    ensures k == 15 ==> Shl(x, k) == x * 0x8000
    ensures k == 18 ==> Shl(x, k) == x * 0x4_0000
    ensures k == 20 ==> Shl(x, k) == x * 0x10_0000
    ensures k == 21 ==> Shl(x, k) == x * 0x20_0000
    ensures k == 22 ==> Shl(x, k) == x * 0x40_0000
    ensures k == 27 ==> Shl(x, k) == x * 0x800_0000
    ensures k == 28 ==> Shl(x, k) == x * 0x1000_0000
    ensures k == 29 ==> Shl(x, k) == x * 0x2000_0000
    ensures k == 32 ==> Shl(x, k) == x * 0x1_0000_0000
    ensures k == 42 ==> Shl(x, k) == x * 0x400_0000_0000
    ensures k == 48 ==> Shl(x, k) == x * 0x1_0000_0000_0000
    ensures k == 50 ==> Shl(x, k) == x * 0x4_0000_0000_0000
  {
    PowerLiteral(k);
    ShlIsProduct(x, k);
  }

  lemma PowerLiteral(k: nat)
    ensures k == 1 ==> Pow2(k) == 0x2
    ensures k == 2 ==> Pow2(k) == 0x4
    ensures k == 3 ==> Pow2(k) == 8
    ensures k == 4 ==> Pow2(k) == 0x10
    ensures k == 6 ==> Pow2(k) == 0x40
    ensures k == 7 ==> Pow2(k) == 0x80
    ensures k == 13 ==> Pow2(k) == 0x2000
    ensures k == 14 ==> Pow2(k) == 0x4000
    ensures k == 15 ==> Pow2(k) == 0x8000
    ensures k == 18 ==> Pow2(k) == 0x4_0000
    ensures k == 20 ==> Pow2(k) == 0x10_0000
    ensures k == 21 ==> Pow2(k) == 0x20_0000
    ensures k == 22 ==> Pow2(k) == 0x40_0000
    ensures k == 27 ==> Pow2(k) == 0x800_0000
    ensures k == 28 ==> Pow2(k) == 0x1000_0000
    ensures k == 29 ==> Pow2(k) == 0x2000_0000
    ensures k == 32 ==> Pow2(k) == 0x1_0000_0000
    ensures k == 42 ==> Pow2(k) == 0x400_0000_0000
    ensures k == 48 ==> Pow2(k) == 0x1_0000_0000_0000
    ensures k == 50 ==> Pow2(k) == 0x4_0000_0000_0000
    ensures k == 61 ==> Pow2(k) == 0x2000_0000_0000_0000
    ensures k == 64 ==> Pow2(k) == TWO64
  {
    hide Shl;
    LowPower(k);
    MiddlePower(k);
    HighPower(k);
  }

  lemma LowPower(k: nat)
    ensures k == 1 ==> Pow2(k) == 0x2
    ensures k == 2 ==> Pow2(k) == 0x4
    ensures k == 3 ==> Pow2(k) == 8
    ensures k == 4 ==> Pow2(k) == 0x10
    ensures k == 6 ==> Pow2(k) == 0x40
    ensures k == 7 ==> Pow2(k) == 0x80
    ensures k == 13 ==> Pow2(k) == 0x2000
    ensures k == 14 ==> Pow2(k) == 0x4000
    ensures k == 15 ==> Pow2(k) == 0x8000
    ensures k == 18 ==> Pow2(k) == 0x4_0000
    ensures k == 20 ==> Pow2(k) == 0x10_0000
    ensures k == 21 ==> Pow2(k) == 0x20_0000
    ensures k == 22 ==> Pow2(k) == 0x40_0000
  {
    assert Pow2(8) == 0x100;
    assert Pow2(16) == 0x1_0000;
  }

  lemma MiddlePower(k: nat)
    ensures k == 27 ==> Pow2(k) == 0x800_0000
    ensures k == 28 ==> Pow2(k) == 0x1000_0000
    ensures k == 29 ==> Pow2(k) == 0x2000_0000
    ensures k == 32 ==> Pow2(k) == 0x1_0000_0000
    ensures k == 42 ==> Pow2(k) == 0x400_0000_0000
  {
    assert Pow2(8) == 0x100;
    assert Pow2(16) == 0x1_0000;
    assert Pow2(24) == 0x100_0000;
    assert Pow2(36) == 0x10_0000_0000;
  }

  lemma HighPower(k: nat)
    ensures k == 48 ==> Pow2(k) == 0x1_0000_0000_0000
    ensures k == 50 ==> Pow2(k) == 0x4_0000_0000_0000
    ensures k == 61 ==> Pow2(k) == 0x2000_0000_0000_0000
    ensures k == 64 ==> Pow2(k) == TWO64
  {
    MiddlePower(42);
    assert Pow2(48) == 0x1_0000_0000_0000;
    assert Pow2(56) == 0x100_0000_0000_0000;
  }
}
