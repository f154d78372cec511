/** The AVX-512 byte interleave: a dword permute, a byte shuffle inside each 128-bit lane and a
    second dword permute, with the index vectors and masks of the program. */
module Interleave {
  import opened Memory
  import opened Words

  type DwordIndex = s: seq<nat> | |s| == 16 && forall i :: 0 <= i < 16 ==> s[i] < 16
    ghost witness seq(16, _ => 0)

  /** `_mm512_permutexvar_epi32`: dword i of the result is dword index[i] of the input. */
  function PermuteDwords(index: DwordIndex, input: Line): Line
  {
    seq(64, k requires 0 <= k < 64 => input[4 * index[k / 4] + k % 4])
  }

  /** `_mm512_shuffle_epi8`: inside each 16-byte lane, byte k is byte mask[k] % 16 of that lane,
      or zero where the mask byte has its top bit set. */
  function ShuffleBytes(mask: seq<byte>, input: Line): Line
    requires |mask| == 64
  {
    seq(64, k requires 0 <= k < 64 => if mask[k] >= 0x80 then 0 else input[k / 16 * 16 + mask[k] % 16])
  }

  const GATHER_INDEX: DwordIndex := [0, 2, 4, 6, 8, 10, 12, 14, 1, 3, 5, 7, 9, 11, 13, 15]
  const FINAL_INDEX: DwordIndex := [0, 4, 1, 5, 2, 6, 3, 7, 8, 12, 9, 13, 10, 14, 11, 15]

  /** The two quadwords of one shuffle lane, most significant first, as `_mm512_set_epi64` takes them. */
  const MASK_HIGH: nat := 0x0f0b07030e0a0602
  const MASK_LOW: nat := 0x0d0905010c080400

  /** The bytes of a quadword in memory order: least significant first. */
  function QuadwordBytes(q: nat): (r: seq<byte>)
    ensures |r| == 8
  {
    SplitWord(q, 8)
  }

  function LaneMask(): (r: seq<byte>)
    ensures |r| == 16
  {
    QuadwordBytes(MASK_LOW) + QuadwordBytes(MASK_HIGH)
  }

  function ShuffleMask(): (r: seq<byte>)
    ensures |r| == 64
  {
    LaneMask() + LaneMask() + LaneMask() + LaneMask()
  }

  function ByteInterleave(input: Line): Line
  {
    PermuteDwords(FINAL_INDEX, ShuffleBytes(ShuffleMask(), PermuteDwords(GATHER_INDEX, input)))
  }

  lemma PermuteAt(index: DwordIndex, input: Line, i: nat, b: nat)
    requires i < 16 && b < 4
    ensures PermuteDwords(index, input)[4 * i + b] == input[4 * index[i] + b]
  {
  }

  lemma ShuffleAt(mask: seq<byte>, input: Line, lane: nat, b: nat, from: nat)
    requires |mask| == 64 && lane < 4 && b < 16 && from < 16
    requires mask[16 * lane + b] == from
    ensures ShuffleBytes(mask, input)[16 * lane + b] == input[16 * lane + from]
  {
    var k := 16 * lane + b;
    assert k / 16 * 16 == 16 * lane;
  }

  lemma LaneMaskValue()
    ensures LaneMask() == [0, 4, 8, 12, 1, 5, 9, 13, 2, 6, 10, 14, 3, 7, 11, 15]
  {
    LowMaskValue();
    HighMaskValue();
    hide QuadwordBytes;
  }

  lemma SplitNothing()
    ensures SplitWord(0, 0) == []
  {
  }

  lemma LowMaskValue()
    ensures QuadwordBytes(MASK_LOW) == [0, 4, 8, 12, 1, 5, 9, 13]
  {
    hide SplitWord;
    SplitNothing();
    SplitCons(0, 13, 0);
    SplitCons(0xd, 9, 1);
    SplitCons(0xd09, 5, 2);
    SplitCons(0xd0905, 1, 3);
    SplitCons(0xd090501, 12, 4);
    SplitCons(0xd0905010c, 8, 5);
    SplitCons(0xd0905010c08, 4, 6);
    SplitCons(0xd0905010c0804, 0, 7);
  }

  lemma HighMaskValue()
    ensures QuadwordBytes(MASK_HIGH) == [2, 6, 10, 14, 3, 7, 11, 15]
  {
    hide SplitWord;
    SplitNothing();
    SplitCons(0, 15, 0);
    SplitCons(0xf, 11, 1);
    SplitCons(0xf0b, 7, 2);
    SplitCons(0xf0b07, 3, 3);
    SplitCons(0xf0b0703, 14, 4);
    SplitCons(0xf0b07030e, 10, 5);
    SplitCons(0xf0b07030e0a, 6, 6);
    SplitCons(0xf0b07030e0a06, 2, 7);
  }

  /** One lane of the shuffle transposes a 4x4 byte block. */
  lemma LaneMaskAt(r: nat, c: nat)
    requires r < 4 && c < 4
    ensures LaneMask()[4 * r + c] == 4 * c + r
  {
    LaneMaskValue();
    hide LaneMask;
  }

  lemma ShuffleMaskAt(lane: nat, r: nat, c: nat)
    requires lane < 4 && r < 4 && c < 4
    ensures ShuffleMask()[16 * lane + 4 * r + c] == 4 * c + r
  {
    hide LaneMask;
    LaneMaskAt(r, c);
  }

  lemma GatherIndexAt(half: nat, i: nat)
    requires half < 2 && i < 8
    ensures GATHER_INDEX[8 * half + i] == 2 * i + half
  {
  }

  lemma FinalIndexAt(half: nat, i: nat, j: nat)
    requires half < 2 && i < 4 && j < 2
    ensures FINAL_INDEX[8 * half + 2 * i + j] == 8 * half + 4 * j + i
  {
  }

  /** Byte 8c + r of the result, where the column c is 4*half + i and the row r is 4*j + k. */
  lemma InterleaveAt(input: Line, half: nat, i: nat, j: nat, k: nat)
    requires half < 2 && i < 4 && j < 2 && k < 4
    ensures ByteInterleave(input)[8 * (4 * half + i) + 4 * j + k] == input[8 * (4 * j + k) + 4 * half + i]
  {
    hide PermuteDwords, ShuffleBytes, ShuffleMask, GATHER_INDEX, FINAL_INDEX;
    var gathered := PermuteDwords(GATHER_INDEX, input);
    var shuffled := ShuffleBytes(ShuffleMask(), gathered);
    FinalIndexAt(half, i, j);
    PermuteAt(FINAL_INDEX, shuffled, 8 * half + 2 * i + j, k);
    ShuffleMaskAt(2 * half + j, i, k);
    ShuffleAt(ShuffleMask(), gathered, 2 * half + j, 4 * i + k, 4 * k + i);
    GatherIndexAt(half, 4 * j + k);
    PermuteAt(GATHER_INDEX, input, 8 * half + 4 * j + k, i);
  }

  /** The three stages compose to the 8x8 byte transpose. */
  lemma InterleaveTransposes(input: Line, r: nat, c: nat)
    requires r < 8 && c < 8
    ensures ByteInterleave(input)[8 * c + r] == input[8 * r + c]
  {
    hide ByteInterleave;
    InterleaveAt(input, c / 4, c % 4, r / 4, r % 4);
  }

  /** Interleaving twice gives the line back: what a receive reads undoes what a send wrote. */
  lemma InterleaveInvolutive(input: Line)
    ensures ByteInterleave(ByteInterleave(input)) == input
  {
    hide ByteInterleave;
    var once := ByteInterleave(input);
    forall k | 0 <= k < 64 ensures ByteInterleave(once)[k] == input[k] {
      InterleaveTransposes(once, k % 8, k / 8);
      InterleaveTransposes(input, k / 8, k % 8);
    }
  }
}
