/** How the MRAMs of the 64 DPU slots of a rank share one memory-mapped region.

    The region is a sequence of 64-byte lines.  The line of MRAM word w and bank b (0..7, the
    scrambled bank plus four times the bank group) carries word w of the eight slots b, 8 + b, ...,
    56 + b, transposed: byte c of slot 8*j + b is byte 8*c + j of the line. */
module Layout {
  import opened AddressMap
  import opened Bits
  import opened Memory

  const SLOTS: nat := 64
  const MRAM_SIZE: nat := 0x400_0000
  const MRAM_WORDS: nat := 0x80_0000
  /** One past the largest region offset that any MRAM byte maps to. */
  const REGION_SPAN: nat := 0x2_0000_0000
  const REGION_LINES: nat := 0x800_0000

  type Region = s: seq<byte> | |s| >= REGION_SPAN ghost witness seq(REGION_SPAN, _ => 0)

  /** Index of the region line that holds an MRAM word of a bank. */
  function LineIndex(word: nat, bank: nat): nat
    requires word < MRAM_WORDS && bank < 8
  {
    Scramble(8 * word, bank % 4) / 64 + bank / 4
  }

  function WordOfLine(index: nat): nat
  {
    index / 0x40_0000 / 2 * 0x8_0000 + index / 0x8000 % 128 * 0x1000
    + index / 0x40_0000 % 2 * 0x800 + index / 0x4000 % 2 * 0x400 + index / 2 % 0x400
  }

  function BankOfLine(index: nat): nat
  {
    index / 0x1000 % 4 + index % 2 * 4
  }

  /** The region byte that stores byte a of the MRAM of a slot. */
  function Physical(slot: nat, a: nat): nat
    requires slot < SLOTS && a < MRAM_SIZE
  {
    64 * LineIndex(a / 8, slot % 8) + 8 * (a % 8) + slot / 8
  }

  function SlotOf(p: nat): nat { p % 8 * 8 + BankOfLine(p / 64) }

  function AddressOf(p: nat): nat { 8 * WordOfLine(p / 64) + p / 8 % 8 }

  // ----- lines -----

  lemma WordFields(w: nat) returns (h: nat, m: nat, b14: nat, b13: nat, l: nat)
    ensures m < 128 && b14 < 2 && b13 < 2 && l < 0x400
    ensures w == h * 0x8_0000 + m * 0x1000 + b14 * 0x800 + b13 * 0x400 + l
  {
    l := w % 0x400;
    var q := w / 0x400;
    b13, q := q % 2, q / 2;
    b14, q := q % 2, q / 2;
    m, h := q % 128, q / 128;
  }

  /** A line index, field by field; bit 11 (region bit 17) is always clear. */
  lemma LineIndexFields(w: nat, bank: nat, h: nat, m: nat, b14: nat, b13: nat, l: nat)
    requires w < MRAM_WORDS && bank < 8
    requires m < 128 && b14 < 2 && b13 < 2 && l < 0x400
    requires w == h * 0x8_0000 + m * 0x1000 + b14 * 0x800 + b13 * 0x400 + l
    ensures Scramble(8 * w, bank % 4) + 0x40 * (bank / 4) == 64 * LineIndex(w, bank)
    ensures LineIndex(w, bank)
         == h * 0x80_0000 + b14 * 0x40_0000 + m * 0x8000 + b13 * 0x4000 + bank % 4 * 0x1000 + l * 2 + bank / 4
  {
    hide Scramble;
    ScrambleFields(8 * w, h, m, b14, b13, 8 * l, bank % 4);
    var x := h * 0x80_0000 + b14 * 0x40_0000 + m * 0x8000 + b13 * 0x4000 + bank % 4 * 0x1000 + l * 2;
    FieldOf(Scramble(8 * w, bank % 4), 0, x + 1, x, 64, 0);
  }

  /** The offset that the transfers compute for a bank is the start of that bank's line. */
  lemma OffsetIsLine(a: nat, bank: nat)
    requires a % 8 == 0 && a < MRAM_SIZE && bank < 8
    ensures FastPath(a, bank % 4) + 0x40 * (bank / 4) == 64 * LineIndex(a / 8, bank)
  {
    hide FastPath, LineIndex, Scramble;
    var h, m, b14, b13, l := WordFields(a / 8);
    LineIndexFields(a / 8, bank, h, m, b14, b13, l);
    FastPathScrambles(a, bank % 4);
  }

  lemma IndexQuotients(x: nat, h: nat, b14: nat, m: nat, b13: nat, d: nat, z: nat, l: nat, g: nat)
    requires b14 < 2 && m < 128 && b13 < 2 && d < 4 && z < 2 && l < 0x400 && g < 2
    requires x == h * 0x80_0000 + b14 * 0x40_0000 + m * 0x8000 + b13 * 0x4000 + d * 0x1000 + z * 0x800 + l * 2 + g
    ensures x / 0x40_0000 / 2 == h && x / 0x40_0000 % 2 == b14 && x / 0x8000 % 128 == m && x / 0x4000 % 2 == b13
    ensures x / 0x1000 % 4 == d && x / 0x800 % 2 == z && x / 2 % 0x400 == l && x % 2 == g
  {
    var y := l * 2 + g;
    var q15 := (h * 2 + b14) * 128 + m;
    var q12 := (q15 * 2 + b13) * 4 + d;
    FieldOf(x, h, 2, b14, 0x40_0000, m * 0x8000 + b13 * 0x4000 + d * 0x1000 + z * 0x800 + y);
    FieldOf(x, h * 2 + b14, 128, m, 0x8000, b13 * 0x4000 + d * 0x1000 + z * 0x800 + y);
    FieldOf(x, q15, 2, b13, 0x4000, d * 0x1000 + z * 0x800 + y);
    FieldOf(x, q15 * 2 + b13, 4, d, 0x1000, z * 0x800 + y);
    FieldOf(x, q12, 2, z, 0x800, y);
    FieldOf(x, q12 * 2 + z, 0x400, l, 2, g);
  }

  /** Distinct (word, bank) pairs have distinct lines, all below 2^27 and with bit 11 clear. */
  lemma LineOfWord(w: nat, bank: nat)
    requires w < MRAM_WORDS && bank < 8
    ensures LineIndex(w, bank) < REGION_LINES
    ensures LineIndex(w, bank) / 0x800 % 2 == 0
    ensures WordOfLine(LineIndex(w, bank)) == w && BankOfLine(LineIndex(w, bank)) == bank
  {
    hide LineIndex;
    var h, m, b14, b13, l := WordFields(w);
    LineIndexFields(w, bank, h, m, b14, b13, l);
    IndexQuotients(LineIndex(w, bank), h, b14, m, b13, bank % 4, 0, l, bank / 4);
  }

  /** Every region line with bit 11 clear is the line of some word and bank. */
  lemma WordOfLineIsInverse(x: nat)
    requires x < REGION_LINES && x / 0x800 % 2 == 0
    ensures WordOfLine(x) < MRAM_WORDS && BankOfLine(x) < 8
    ensures LineIndex(WordOfLine(x), BankOfLine(x)) == x
  {
    hide LineIndex;
    var h, b14, m, b13, d, z, l, g := IndexFields(x);
    ReadLine(x, h, b14, m, b13, d, z, l, g);
    hide WordOfLine, BankOfLine;
    LineIndexFields(WordOfLine(x), BankOfLine(x), h, m, b14, b13, l);
  }

  lemma ReadLine(x: nat, h: nat, b14: nat, m: nat, b13: nat, d: nat, z: nat, l: nat, g: nat)
    requires b14 < 2 && m < 128 && b13 < 2 && d < 4 && z < 2 && l < 0x400 && g < 2
    requires x == h * 0x80_0000 + b14 * 0x40_0000 + m * 0x8000 + b13 * 0x4000 + d * 0x1000 + z * 0x800 + l * 2 + g
    ensures WordOfLine(x) == h * 0x8_0000 + m * 0x1000 + b14 * 0x800 + b13 * 0x400 + l
    ensures BankOfLine(x) == d + 4 * g && BankOfLine(x) % 4 == d && BankOfLine(x) / 4 == g
    ensures x / 0x800 % 2 == z
  {
    IndexQuotients(x, h, b14, m, b13, d, z, l, g);
  }

  lemma IndexFields(x: nat)
    returns (h: nat, b14: nat, m: nat, b13: nat, d: nat, z: nat, l: nat, g: nat)
    ensures b14 < 2 && m < 128 && b13 < 2 && d < 4 && z < 2 && l < 0x400 && g < 2
    ensures x == h * 0x80_0000 + b14 * 0x40_0000 + m * 0x8000 + b13 * 0x4000 + d * 0x1000 + z * 0x800 + l * 2 + g
  {
    g := x % 2;
    var q := x / 2;
    l, q := q % 0x400, q / 0x400;
    z, q := q % 2, q / 2;
    d, q := q % 4, q / 4;
    b13, q := q % 2, q / 2;
    m, q := q % 128, q / 128;
    b14, h := q % 2, q / 2;
  }

  // ----- bytes -----

  lemma SlotParts(slot: nat, a: nat) returns (j: nat, b: nat, w: nat, c: nat)
    requires slot < SLOTS && a < MRAM_SIZE
    ensures j < 8 && b < 8 && w < MRAM_WORDS && c < 8 && slot == 8 * j + b && a == 8 * w + c
    ensures j == slot / 8 && b == slot % 8 && w == a / 8 && c == a % 8
  {
    j, b, w, c := slot / 8, slot % 8, a / 8, a % 8;
  }

  /** No two MRAM bytes share a region byte, all lie below 2^33 and none has bit 17 set. */
  lemma LayoutInjective(slot: nat, a: nat)
    requires slot < 64 && a < 0x400_0000
    ensures Physical(slot, a) < 0x2_0000_0000 && Physical(slot, a) / 0x2_0000 % 2 == 0
    ensures SlotOf(Physical(slot, a)) == slot && AddressOf(Physical(slot, a)) == a
  {
    hide LineIndex, WordOfLine, BankOfLine;
    var j, b, w, c := SlotParts(slot, a);
    LineOfWord(w, b);
    PhysicalParts(LineIndex(w, b), c, j);
  }

  lemma PhysicalParts(x: nat, c: nat, j: nat)
    requires c < 8 && j < 8
    ensures var p := 64 * x + 8 * c + j;
      p / 64 == x && p % 8 == j && p / 8 % 8 == c && p / 0x2_0000 == x / 0x800
  {
    var p := 64 * x + 8 * c + j;
    assert p / 8 == 8 * x + c;
    assert x == x / 0x800 * 0x800 + x % 0x800;
  }

  /** Every region offset below 2^33 with bit 17 clear stores some MRAM byte. */
  lemma LayoutSurjective(p: nat)
    requires p < 0x2_0000_0000 && p / 0x2_0000 % 2 == 0
    ensures SlotOf(p) < 64 && AddressOf(p) < 0x400_0000
    ensures Physical(SlotOf(p), AddressOf(p)) == p
  {
    hide LineIndex, WordOfLine, BankOfLine;
    var x, c, j := p / 64, p / 8 % 8, p % 8;
    assert p == 64 * x + 8 * c + j;
    PhysicalParts(x, c, j);
    WordOfLineIsInverse(x);
  }

  // ----- the region as 64 independent byte arrays -----

  function MramByte(region: Region, slot: nat, a: nat): byte
    requires slot < SLOTS && a < MRAM_SIZE
  {
    LayoutInjective(slot, a);
    region[Physical(slot, a)]
  }

  function Mram(region: Region, slot: nat): (m: seq<byte>)
    requires slot < SLOTS
    ensures |m| == MRAM_SIZE
  {
    seq(MRAM_SIZE, a requires 0 <= a < MRAM_SIZE => MramByte(region, slot, a))
  }
}
