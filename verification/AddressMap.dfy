/** The address scrambling of the MRAM-mapped region: the mask-and-shift form the transfers use,
    the arithmetic form kept beside it as its specification, and their agreement. */
module AddressMap {
  import opened Bits

  /** Bits 63..22 and bit 13: a negative C `int` that sign-extends to 64 bits. */
  const MASK_MOVE_7: uint64 := ToUint64(Complement(0x40_0000 - 1) + 0x2000)
  const MASK_MOVE_6: uint64 := 0x40_0000 - 0x8000
  const MASK_MOVE_14: uint64 := 0x4000
  const MASK_MOVE_4: uint64 := 0x2000 - 1

  /** `dpu_id << 18` in `uint32_t`. */
  function BankBits(dpuId: nat): nat { Shl(dpuId, 18) % TWO32 }

  function FastPath(addressOffset: uint64, dpuId: nat): nat
  {
    Or(Or(Or(Or(
                ShiftLeft64(And(addressOffset, MASK_MOVE_7), 7),
                ShiftLeft64(And(addressOffset, MASK_MOVE_6), 6)),
             ShiftLeft64(And(addressOffset, MASK_MOVE_14), 14)),
          ShiftLeft64(And(addressOffset, MASK_MOVE_4), 4)),
       BankBits(dpuId))
  }

  /** Where the fields of an MRAM address land, as sums of powers of two. */
  function Scramble(a: uint64, bank: nat): (p: nat)
    requires bank < 4
    ensures p < TWO64
  {
    a / 0x40_0000 % 0x8_0000_0000 * 0x2000_0000
    + a / 0x4000 % 2 * 0x1000_0000
    + a / 0x8000 % 128 * 0x20_0000
    + a / 0x2000 % 2 * 0x10_0000
    + bank * 0x4_0000
    + a % 0x2000 * 0x10
  }

  /** What the specification path returns for any DPU number. */
  function OracleOffset(a: uint64, dpuId: nat): uint64
  {
    Wrap64(Scramble(a, dpuId % 4) + if dpuId >= 4 then 64 else 0)
  }

  method OraclePath(addressOffset: uint64, dpuId: nat) returns (offset: uint64)
    requires dpuId < TWO32
    ensures offset == OracleOffset(addressOffset, dpuId)
  {
    ghost var h, top, m, b14, b13, l, d := OracleFields(addressOffset, dpuId);
    var address: uint64;
    offset, address := OracleAbove16K(addressOffset, h, top, m, b14, b13 * 0x2000 + l);
    offset := OracleBelow16K(offset, address, top * 0x100 + b14 * 0x80 + m, b13, l);
    LowBits(dpuId, 2);
    offset := Wrap64(offset + And(dpuId, 3) * 0x4_0000);
    if dpuId >= 4 {
      offset := Wrap64(offset + 64);
    }
  }

  /** Steps 1 and 2 of the specification path: bits 63..22, bit 14 and bits 21..15. */
  method OracleAbove16K(addressOffset: uint64, ghost h: nat, ghost top: nat,
                        ghost m: nat, ghost b14: nat, ghost low: nat)
    returns (offset: uint64, address: uint64)
    requires m < 128 && b14 < 2 && low < 0x4000 && top < 0x8_0000_0000
    requires addressOffset == h * 0x40_0000 + m * 0x8000 + b14 * 0x4000 + low
    requires Wrap64(h * 0x2000_0000) == top * 0x2000_0000
    ensures offset == top * 0x2000_0000 + b14 * 0x1000_0000 + m * 0x20_0000 && address == low
  {
    address := addressOffset;
    offset := 0;
    ReadTop(address, h, m, b14, low);
    offset := Wrap64(offset + 0x2000_0000 * (address / 0x40_0000));
    address := And(address, 0x40_0000 - 1);
    ReadMiddle(address, m, b14, low);
    if And(address, 0x4000) != 0 {
      offset := Wrap64(offset + 0x1000_0000);
    }
    offset := Wrap64(offset + 0x20_0000 * (address / 0x8000));
    address := address % 0x4000;
  }

  /** Step 3: bit 13, then bits 12..0. */
  method OracleBelow16K(start: uint64, address: uint64, ghost s: nat, ghost b13: nat, ghost l: nat)
    returns (offset: uint64)
    requires start == s * 0x20_0000
    requires b13 < 2 && l < 0x2000 && address == b13 * 0x2000 + l
    ensures offset == start + b13 * 0x10_0000 + l * 0x10
  {
    offset := start;
    ReadBottom(address, b13, l);
    if And(address, 0x2000) != 0 {
      offset := Wrap64(offset + 0x10_0000);
    }
    offset := Wrap64(offset + address % 0x2000 * 16);
  }

  lemma ReadTop(a: nat, h: nat, m: nat, b14: nat, low: nat)
    requires m < 128 && b14 < 2 && low < 0x4000
    requires a == h * 0x40_0000 + m * 0x8000 + b14 * 0x4000 + low
    ensures a / 0x40_0000 == h
    ensures And(a, 0x40_0000 - 1) == m * 0x8000 + b14 * 0x4000 + low
  {
    LowBits(a, 22);
  }

  lemma ReadMiddle(a: nat, m: nat, b14: nat, low: nat)
    requires m < 128 && b14 < 2 && low < 0x4000
    requires a == m * 0x8000 + b14 * 0x4000 + low
    ensures And(a, 0x4000) == b14 * 0x4000
    ensures a / 0x8000 == m && a % 0x4000 == low
  {
    LowBit(a, 14);
    FieldAt14(a, m, b14, low);
  }

  lemma ReadBottom(a: nat, b13: nat, l: nat)
    requires b13 < 2 && l < 0x2000 && a == b13 * 0x2000 + l
    ensures And(a, 0x2000) == b13 * 0x2000 && a % 0x2000 == l
  {
    LowBit(a, 13);
    FieldAt13(a, 0, b13, l);
  }

  lemma LowBits(x: nat, n: nat)
    requires n == 2 || n == 13 || n == 22
    ensures n == 2 ==> And(x, 3) == x % 4
    ensures n == 13 ==> And(x, 0x2000 - 1) == x % 0x2000
    ensures n == 22 ==> And(x, 0x40_0000 - 1) == x % 0x40_0000
  {
    hide Bitwise, Shl;
    PowerLiteral(n);
    var p := Pow2(n);
    ShlLiteral(x / p, n);
    AndLow(n, x / p, x % p);
  }

  lemma LowBit(x: nat, k: nat)
    requires k == 13 || k == 14
    ensures k == 13 ==> And(x, 0x2000) == x / 0x2000 % 2 * 0x2000
    ensures k == 14 ==> And(x, 0x4000) == x / 0x4000 % 2 * 0x4000
  {
    hide Bitwise, Shl;
    PowerLiteral(k);
    PowerLiteral(1);
    var p := Pow2(k);
    var h, m, l := x / p / 2, x / p % 2, x % p;
    ShlLiteral(h, 1);
    ShlLiteral(2 * h + m, k);
    ShlLiteral(1, k);
    ShlLiteral(m, k);
    AndField(k, 1, h, m, l);
  }

  /** The fields of an address, as numbers. */
  lemma AddressFields(a: nat) returns (h: nat, m: nat, b14: nat, b13: nat, l: nat)
    ensures m < 128 && b14 < 2 && b13 < 2 && l < 0x2000
    ensures a == h * 0x40_0000 + m * 0x8000 + b14 * 0x4000 + b13 * 0x2000 + l
  {
    l := a % 0x2000;
    var q := a / 0x2000;
    b13, q := q % 2, q / 2;
    b14, q := q % 2, q / 2;
    m, h := q % 128, q / 128;
  }

  lemma FieldAt13(a: nat, q: nat, b13: nat, l: nat)
    requires b13 < 2 && l < 0x2000 && a == q * 0x4000 + b13 * 0x2000 + l
    ensures a / 0x2000 % 2 == b13 && a % 0x2000 == l
  {
    assert a / 0x2000 == q * 2 + b13;
  }

  lemma FieldAt14(a: nat, q: nat, b14: nat, l: nat)
    requires b14 < 2 && l < 0x4000 && a == q * 0x8000 + b14 * 0x4000 + l
    ensures a / 0x4000 % 2 == b14
  {
    assert a / 0x4000 == q * 2 + b14;
  }

  lemma FieldAt15(a: nat, h: nat, m: nat, l: nat)
    requires m < 128 && l < 0x8000 && a == h * 0x40_0000 + m * 0x8000 + l
    ensures a / 0x8000 % 128 == m && a / 0x40_0000 == h
  {
    assert a / 0x8000 == h * 128 + m;
  }

  lemma ScrambleFields(a: uint64, h: nat, m: nat, b14: nat, b13: nat, l: nat, bank: nat)
    requires bank < 4 && m < 128 && b14 < 2 && b13 < 2 && l < 0x2000
    requires a == h * 0x40_0000 + m * 0x8000 + b14 * 0x4000 + b13 * 0x2000 + l
    ensures Scramble(a, bank)
         == h % 0x8_0000_0000 * 0x2000_0000 + b14 * 0x1000_0000 + m * 0x20_0000 + b13 * 0x10_0000
            + bank * 0x4_0000 + l * 0x10
  {
    FieldAt13(a, h * 256 + m * 2 + b14, b13, l);
    FieldAt14(a, h * 128 + m, b14, b13 * 0x2000 + l);
    FieldAt15(a, h, m, b14 * 0x4000 + b13 * 0x2000 + l);
  }

  lemma OracleFields(a: uint64, dpuId: nat)
    returns (h: nat, top: nat, m: nat, b14: nat, b13: nat, l: nat, bank: nat)
    ensures m < 128 && b14 < 2 && b13 < 2 && l < 0x2000 && bank == dpuId % 4 && top < 0x8_0000_0000
    ensures a == h * 0x40_0000 + m * 0x8000 + b14 * 0x4000 + b13 * 0x2000 + l
    ensures top == h % 0x8_0000_0000 && Wrap64(h * 0x2000_0000) == top * 0x2000_0000
    ensures OracleOffset(a, dpuId)
         == top * 0x2000_0000 + b14 * 0x1000_0000 + m * 0x20_0000 + b13 * 0x10_0000
            + bank * 0x4_0000 + l * 0x10 + if dpuId >= 4 then 64 else 0
  {
    h, m, b14, b13, l := AddressFields(a);
    top := TopShift(h);
    bank := dpuId % 4;
    ScrambleFields(a, h, m, b14, b13, l, bank);
  }

  lemma MaskedTop(a: uint64, h: nat, q: nat, b13: nat, l: nat)
    requires q < 256 && b13 < 2 && l < 0x2000 && a == h * 0x40_0000 + (q * 0x4000 + b13 * 0x2000 + l)
    ensures And(a, MASK_MOVE_7) == h * 0x40_0000 + b13 * 0x2000
  {
    var r := q * 0x4000 + b13 * 0x2000 + l;
    assert And(r, 0x2000) == b13 * 0x2000 by {
      LowBit(r, 13);
      FieldAt13(r, q, b13, l);
    }
    TopMaskSplit(h, r);
  }

  lemma TopMaskSplit(h: nat, r: nat)
    requires h < 0x400_0000_0000 && r < 0x40_0000
    ensures And(h * 0x40_0000 + r, MASK_MOVE_7) == h * 0x40_0000 + And(r, 0x2000)
  {
    PowerLiteral(22);
    PowerLiteral(42);
    ShlLiteral(h, 22);
    ShlLiteral(0x3FF_FFFF_FFFF, 22);
    SplitBits(AND, 22, h, r, 0x3FF_FFFF_FFFF, 0x2000);
    AndOnes(42, h);
    TopMaskValue();
  }

  lemma TopMaskValue()
    ensures MASK_MOVE_7 == 0x3FF_FFFF_FFFF * 0x40_0000 + 0x2000
  {
  }

  lemma MaskedMiddle(a: uint64, h: nat, m: nat, l: nat)
    requires m < 128 && l < 0x8000 && a == h * 0x40_0000 + m * 0x8000 + l
    ensures And(a, MASK_MOVE_6) == m * 0x8000
  {
    PowerLiteral(7);
    PowerLiteral(15);
    ShlLiteral(h, 7);
    ShlLiteral(h * 128 + m, 15);
    ShlLiteral(127, 15);
    ShlLiteral(m, 15);
    AndField(15, 7, h, m, l);
  }

  /** The top field loses the seven bits that the shift pushes past bit 63. */
  lemma TopShift(h: nat) returns (top: nat)
    ensures top == h % 0x8_0000_0000 && Wrap64(h * 0x2000_0000) == top * 0x2000_0000
  {
    top := h % 0x8_0000_0000;
    Wrap64IsModulo(h * 0x2000_0000);
  }

  lemma ShiftedTop(h: nat, top: nat, b13: nat)
    requires b13 < 2 && top == h % 0x8_0000_0000
    ensures ShiftLeft64(h * 0x40_0000 + b13 * 0x2000, 7) == top * 0x2000_0000 + b13 * 0x10_0000
  {
    var c := h / 0x8_0000_0000;
    ShlLiteral(h * 0x40_0000 + b13 * 0x2000, 7);
    Wrap64Drops(c, top * 0x2000_0000 + b13 * 0x10_0000);
  }

  lemma {:induction false} Wrap64Drops(c: nat, x: uint64)
    ensures Wrap64(c * TWO64 + x) == x
  {
    if c > 0 {
      Wrap64Drops(c - 1, x);
    }
  }

  lemma ShiftedMiddle(m: nat)
    requires m < 128
    ensures ShiftLeft64(m * 0x8000, 6) == m * 0x20_0000
  {
    ShlLiteral(m * 0x8000, 6);
  }

  lemma Shifted14(b14: nat)
    requires b14 < 2
    ensures ShiftLeft64(b14 * 0x4000, 14) == b14 * 0x1000_0000
  {
    ShlLiteral(b14 * 0x4000, 14);
  }

  lemma ShiftedLow(l: nat)
    requires l < 0x2000
    ensures ShiftLeft64(l, 4) == l * 0x10
  {
    ShlLiteral(l, 4);
  }

  lemma OrMiddle(xh: nat, xl: nat, m: nat)
    requires xl < 0x20_0000 && m < 128
    ensures Or(xh * 0x1000_0000 + xl, m * 0x20_0000) == xh * 0x1000_0000 + xl + m * 0x20_0000
  {
    PowerLiteral(21);
    PowerLiteral(7);
    ShlLiteral(xh, 7);
    ShlLiteral(xh * 0x80, 21);
    ShlLiteral(m, 21);
    OrIntoGap(21, 7, xh, xl, m);
  }

  lemma Or14(xh: nat, xl: nat, b14: nat)
    requires xl < 0x1000_0000 && b14 < 2
    ensures Or(xh * 0x2000_0000 + xl, b14 * 0x1000_0000) == xh * 0x2000_0000 + xl + b14 * 0x1000_0000
  {
    PowerLiteral(28);
    PowerLiteral(1);
    ShlLiteral(xh, 1);
    ShlLiteral(xh * 2, 28);
    ShlLiteral(b14, 28);
    OrIntoGap(28, 1, xh, xl, b14);
  }

  lemma OrLow(xh: nat, l: nat)
    requires l < 0x2000
    ensures Or(xh * 0x2_0000, l * 0x10) == xh * 0x2_0000 + l * 0x10
  {
    PowerLiteral(13);
    PowerLiteral(4);
    ShlLiteral(xh, 13);
    ShlLiteral(xh * 0x2000, 4);
    ShlLiteral(l, 4);
    OrIntoGap(4, 13, xh, 0, l);
  }

  lemma OrBank(xh: nat, xl: nat, bank: nat)
    requires xl < 0x4_0000 && bank < 4
    ensures Or(xh * 0x10_0000 + xl, bank * 0x4_0000) == xh * 0x10_0000 + xl + bank * 0x4_0000
  {
    PowerLiteral(18);
    PowerLiteral(2);
    ShlLiteral(xh, 2);
    ShlLiteral(xh * 4, 18);
    ShlLiteral(bank, 18);
    OrIntoGap(18, 2, xh, xl, bank);
  }

  /** The bank-independent part of the masks-and-shifts form. */
  function FastPathFields(a: uint64): nat
  {
    Or(Or(Or(
            ShiftLeft64(And(a, MASK_MOVE_7), 7),
            ShiftLeft64(And(a, MASK_MOVE_6), 6)),
          ShiftLeft64(And(a, MASK_MOVE_14), 14)),
       ShiftLeft64(And(a, MASK_MOVE_4), 4))
  }

  lemma FastPathFieldSum(a: uint64, h: nat, top: nat, m: nat, b14: nat, b13: nat, l: nat)
    requires m < 128 && b14 < 2 && b13 < 2 && l < 0x2000 && top == h % 0x8_0000_0000
    requires a == h * 0x40_0000 + m * 0x8000 + b14 * 0x4000 + b13 * 0x2000 + l
    ensures FastPathFields(a)
         == top * 0x2000_0000 + b14 * 0x1000_0000 + m * 0x20_0000 + b13 * 0x10_0000 + l * 0x10
  {
    hide And, Or, ShiftLeft64;
    MaskedTop(a, h, m * 2 + b14, b13, l);
    ShiftedTop(h, top, b13);
    MaskedMiddle(a, h, m, b14 * 0x4000 + b13 * 0x2000 + l);
    ShiftedMiddle(m);
    assert And(a, MASK_MOVE_14) == b14 * 0x4000 by {
      LowBit(a, 14);
      FieldAt14(a, h * 128 + m, b14, b13 * 0x2000 + l);
    }
    Shifted14(b14);
    assert And(a, MASK_MOVE_4) == l by {
      LowBits(a, 13);
      FieldAt13(a, h * 256 + m * 2 + b14, b13, l);
    }
    ShiftedLow(l);
    OrMiddle(top * 2, b13 * 0x10_0000, m);
    Or14(top, m * 0x20_0000 + b13 * 0x10_0000, b14);
    OrLow(top * 0x1000 + b14 * 0x800 + m * 0x10 + b13 * 8, l);
  }

  /** The masks-and-shifts form computes the field sums. */
  lemma FastPathScrambles(a: uint64, bank: nat)
    requires bank < 4
    ensures FastPath(a, bank) == Scramble(a, bank)
  {
    hide *;
    var h, m, b14, b13, l := AddressFields(a);
    var top := h % 0x8_0000_0000;
    ScrambleFields(a, h, m, b14, b13, l, bank);
    FastPathFieldSum(a, h, top, m, b14, b13, l);
    OrBank(top * 0x200 + b14 * 0x100 + m * 2 + b13, l * 0x10, bank);
    SmallBankBits(bank);
    FastPathJoin(a, bank);
  }

  lemma FastPathJoin(a: uint64, dpuId: nat)
    ensures FastPath(a, dpuId) == Or(FastPathFields(a), BankBits(dpuId))
  {
    hide And, Or, ShiftLeft64;
  }

  lemma SmallBankBits(bank: nat)
    requires bank < 4
    ensures BankBits(bank) == bank * 0x4_0000
  {
    ShlLiteral(bank, 18);
  }

  /** The two forms agree on every 64-bit address for banks 0..3 and on none for larger DPU numbers:
      there the fast form or's into the bank bits while the specification adds the group offset. */
  lemma FastPathIsOracleIffFirstGroup(a: uint64, dpuId: nat)
    requires dpuId < TWO32
    ensures FastPath(a, dpuId) == OracleOffset(a, dpuId) <==> dpuId < 4
  {
    hide *;
    OracleIsScramble(a, dpuId);
    if dpuId < 4 {
      FastPathScrambles(a, dpuId);
    } else {
      FastPathLowBits(a, dpuId);
      OracleLowBits(a, dpuId);
    }
  }

  /** The low 18 bits of the fast form come from the address alone. */
  lemma FastPathLowBits(a: uint64, dpuId: nat)
    ensures FastPath(a, dpuId) % 0x4_0000 == a % 0x2000 * 0x10
  {
    hide *;
    var h, m, b14, b13, l := AddressFields(a);
    var top := h % 0x8_0000_0000;
    FastPathJoin(a, dpuId);
    FastPathFieldSum(a, h, top, m, b14, b13, l);
    FieldAt13(a, h * 256 + m * 2 + b14, b13, l);
    var x := top * 0x800 + b14 * 0x400 + m * 8 + b13 * 4;
    var k := BankBitsMultiple(dpuId);
    OrAbove18(x, l * 0x10, k);
    LowPart(Or(x, k), l * 0x10);
  }

  lemma OrAbove18(x: nat, l: nat, k: nat)
    requires l < 0x4_0000
    ensures Or(x * 0x4_0000 + l, k * 0x4_0000) == Or(x, k) * 0x4_0000 + l
  {
    PowerLiteral(18);
    ShlLiteral(x, 18);
    ShlLiteral(k, 18);
    ShlLiteral(Or(x, k), 18);
    SplitBits(OR, 18, x, l, k, 0);
    BitwiseZero(l);
  }

  lemma LowPart(q: nat, r: nat)
    requires r < 0x4_0000
    ensures (q * 0x4_0000 + r) % 0x4_0000 == r
  {
  }

  lemma BankBitsMultiple(dpuId: nat) returns (k: nat)
    ensures BankBits(dpuId) == k * 0x4_0000
  {
    ShlLiteral(dpuId, 18);
    k := dpuId % 0x4000;
    var c := dpuId / 0x4000;
    assert dpuId * 0x4_0000 == c * TWO32 + k * 0x4_0000;
  }

  lemma OracleLowBits(a: uint64, dpuId: nat)
    requires dpuId >= 4
    ensures OracleOffset(a, dpuId) % 0x4_0000 == a % 0x2000 * 0x10 + 64
  {
    hide *;
    var h, top, m, b14, b13, l, bank := OracleFields(a, dpuId);
    FieldAt13(a, h * 256 + m * 2 + b14, b13, l);
    LowPart(top * 0x800 + b14 * 0x400 + m * 8 + b13 * 4 + bank, l * 0x10 + 64);
  }

  /** The callers' form for the second bank group: add 0x40 to the offset of the first. */
  lemma SecondGroupOffset(a: uint64, dpuId: nat)
    requires 4 <= dpuId < 8
    ensures OracleOffset(a, dpuId) == FastPath(a, dpuId - 4) + 0x40
  {
    hide *;
    FastPathScrambles(a, dpuId - 4);
    OracleIsScramble(a, dpuId);
  }

  lemma OracleIsScramble(a: uint64, dpuId: nat)
    ensures OracleOffset(a, dpuId) == Scramble(a, dpuId % 4) + if dpuId >= 4 then 64 else 0
  {
    hide *;
    var h, top, m, b14, b13, l, bank := OracleFields(a, dpuId);
    ScrambleFields(a, h, m, b14, b13, l, bank);
  }
}
