/** The example's DPU program: check the MRAM heap against the expected pattern, chunk by chunk, and
    add a tag to every element. */
module ExampleDpu {
  import opened Bits
  import opened Layout

  const CHUNK: nat := 256

  /** `(dpu_id << 48) ^ (j * 2654435761) ^ seed`, the same on the host and on the DPU. */
  function ExpectedValue(dpuId: uint64, j: uint64, seed: uint64): uint64 {
    var a, b := ShiftLeft64(dpuId, 48), Wrap64(j * 2654435761);
    Xor64Fits(a, b);
    Xor64Fits(Xor(a, b), seed);
    Xor(Xor(a, b), seed)
  }

  /** The pattern by fields: the DPU number enters the top 16 bits only, the seed all of them. */
  lemma ExpectedValueFields(dpuId: uint64, j: uint64, seed: uint64)
    ensures var m := j * 2654435761 % 0x1_0000_0000_0000_0000;
      ExpectedValue(dpuId, j, seed)
      == Xor(Xor(dpuId % 0x1_0000, m / 0x1_0000_0000_0000), seed / 0x1_0000_0000_0000) * 0x1_0000_0000_0000
         + Xor(m % 0x1_0000_0000_0000, seed % 0x1_0000_0000_0000)
    ensures ExpectedValue(0, j, 0) == j * 2654435761 % 0x1_0000_0000_0000_0000
  {
    hide Bitwise, Shl;
    var m := j * 2654435761 % 0x1_0000_0000_0000_0000;
    Wrap64IsModulo(j * 2654435761);
    XorAt48(dpuId % 0x1_0000, 0, m);
    ShiftedBy48(dpuId);
    BitwiseZero(m % 0x1_0000_0000_0000);
    XorAt48(Xor(dpuId % 0x1_0000, m / 0x1_0000_0000_0000), m % 0x1_0000_0000_0000, seed);
    ShiftedBy48(0);
    BitwiseZero(m);
  }

  lemma XorAt48(h: nat, l: nat, y: nat)
    requires l < 0x1_0000_0000_0000
    ensures Xor(h * 0x1_0000_0000_0000 + l, y)
         == Xor(h, y / 0x1_0000_0000_0000) * 0x1_0000_0000_0000 + Xor(l, y % 0x1_0000_0000_0000)
  {
    hide Bitwise, Shl;
    PowerLiteral(48);
    ShlLiteral(h, 48);
    ShlLiteral(y / 0x1_0000_0000_0000, 48);
    ShlLiteral(Xor(h, y / 0x1_0000_0000_0000), 48);
    SplitBits(XOR, 48, h, l, y / 0x1_0000_0000_0000, y % 0x1_0000_0000_0000);
  }

  /** Two values of the pattern that differ in one argument only are equal exactly when the seeds or the
      indices are equal, or the DPU numbers agree in their low 16 bits. */
  lemma ExpectedValueInjective(dpuId: uint64, j: uint64, seed: uint64, dpuId': uint64, j': uint64, seed': uint64)
    ensures ExpectedValue(dpuId, j, seed) == ExpectedValue(dpuId, j, seed') <==> seed == seed'
    ensures ExpectedValue(dpuId, j, seed) == ExpectedValue(dpuId, j', seed) <==> j == j'
    ensures ExpectedValue(dpuId, j, seed) == ExpectedValue(dpuId', j, seed) <==> dpuId % 0x1_0000 == dpuId' % 0x1_0000
  {
    hide Xor, ShiftLeft64, Wrap64;
    var a, a' := ShiftLeft64(dpuId, 48), ShiftLeft64(dpuId', 48);
    var b, b' := Wrap64(j * 2654435761), Wrap64(j' * 2654435761);
    XorCancels(Xor(a, b), seed);
    XorCancels(Xor(a, b), seed');
    XorCancels(Xor(a, b'), seed);
    XorCancels(Xor(a', b), seed);
    XorCancels(a, b);
    XorCancels(a, b');
    XorCancels(a', b);
    ShiftedBy48(dpuId);
    ShiftedBy48(dpuId');
    Wrap64IsModulo(j * 2654435761);
    Wrap64IsModulo(j' * 2654435761);
    MultiplierInvertible(j, j');
  }

  /** 2654435761 has an inverse modulo 2^64. */
  lemma MultiplierInvertible(j: uint64, j': uint64)
    ensures j * 2654435761 % 0x1_0000_0000_0000_0000 == j' * 2654435761 % 0x1_0000_0000_0000_0000 ==> j == j'
  {
    if j * 2654435761 % 0x1_0000_0000_0000_0000 == j' * 2654435761 % 0x1_0000_0000_0000_0000 {
      EqualProducts(j, j');
    }
  }

  lemma EqualProducts(j: uint64, j': uint64)
    requires j * 2654435761 % 0x1_0000_0000_0000_0000 == j' * 2654435761 % 0x1_0000_0000_0000_0000
    ensures j == j'
  {
    var m := j * 2654435761 / 0x1_0000_0000_0000_0000 - j' * 2654435761 / 0x1_0000_0000_0000_0000;
    assert (j - j') * 2654435761 == m * 0x1_0000_0000_0000_0000;
    assert 2654435761 * 0xcfa4_a56b_0e8b_2f51 == 1 + 2153028908 * 0x1_0000_0000_0000_0000;
    assert j - j' == (m * 0xcfa4_a56b_0e8b_2f51 - (j - j') * 2153028908) * 0x1_0000_0000_0000_0000;
  }

  lemma Xor64Fits(x: uint64, y: uint64)
    ensures Xor(x, y) < TWO64 && Or(x, y) < TWO64
  {
    PowerLiteral(64);
    BitwiseFits(XOR, 64, x, y);
    BitwiseFits(OR, 64, x, y);
  }

  /** `((uint64_t)DPU_ID << 32) | j` */
  function Tag(dpuId: uint64, j: uint64): uint64 {
    Xor64Fits(ShiftLeft64(dpuId, 32), j);
    Or(ShiftLeft64(dpuId, 32), j)
  }

  /** The heap after the first n elements have their tags added. */
  function Tagged(heap: seq<uint64>, dpuId: uint64, n: nat): (r: seq<uint64>)
    requires n <= |heap| <= MRAM_WORDS
    ensures |r| == |heap|
  {
    seq(|heap|, j requires 0 <= j < |heap| => if j < n then Wrap64(heap[j] + Tag(dpuId, j)) else heap[j])
  }

  /** How many of the first n elements differ from the pattern. */
  function Mismatches(heap: seq<uint64>, dpuId: uint64, seed: uint64, n: nat): (r: nat)
    requires n <= |heap| <= MRAM_WORDS
    ensures r <= n
  {
    if n == 0 then 0
    else Mismatches(heap, dpuId, seed, n - 1) + (if heap[n - 1] != ExpectedValue(dpuId, n - 1, seed) then 1 else 0)
  }

  ghost function MismatchesAt(heap: seq<uint64>, dpuId: uint64, seed: uint64, n: nat): set<nat>
    requires n <= |heap| <= MRAM_WORDS
  {
    set j: nat | j < n && heap[j] != ExpectedValue(dpuId, j, seed)
  }

  /** The count is the number of positions whose element is not the expected one. */
  lemma {:induction false} MismatchesCount(heap: seq<uint64>, dpuId: uint64, seed: uint64, n: nat)
    requires n <= |heap| <= MRAM_WORDS
    ensures Mismatches(heap, dpuId, seed, n) == |set j: nat | j < n && heap[j] != ExpectedValue(dpuId, j, seed)|
  {
    hide ExpectedValue;
    var all := MismatchesAt(heap, dpuId, seed, n);
    if n == 0 {
      assert all == {};
    } else {
      MismatchesCount(heap, dpuId, seed, n - 1);
      var before := MismatchesAt(heap, dpuId, seed, n - 1);
      assert all == if heap[n - 1] != ExpectedValue(dpuId, n - 1, seed) then before + {n - 1} else before;
    }
  }

  /** Tagging adds dpu * 2^32 + j to element j, modulo 2^64, and stops at element n. */
  lemma TaggedElements(heap: seq<uint64>, dpuId: uint64, n: nat)
    requires n <= |heap| <= MRAM_WORDS
    ensures forall j: nat :: j < |heap| ==>
      Tagged(heap, dpuId, n)[j]
      == if j < n then (heap[j] + dpuId * 0x1_0000_0000 + j) % 0x1_0000_0000_0000_0000 else heap[j]
  {
    hide Tag, Wrap64;
    forall j: nat | j < n
      ensures Wrap64(heap[j] + Tag(dpuId, j)) == (heap[j] + dpuId * 0x1_0000_0000 + j) % 0x1_0000_0000_0000_0000
    {
      TagIsModular(dpuId, j, heap[j]);
    }
  }

  lemma TagIsModular(dpuId: uint64, j: nat, x: uint64)
    requires j < TWO32
    ensures Wrap64(x + Tag(dpuId, j)) == (x + dpuId * 0x1_0000_0000 + j) % 0x1_0000_0000_0000_0000
  {
    hide Tag, Wrap64, ShiftLeft64;
    TagIsSum(dpuId, j, x);
    ShiftedBy32(dpuId);
    Wrap64IsModulo(x + Tag(dpuId, j));
    ModuloOnce(dpuId * 0x1_0000_0000, x + j);
  }

  /** `(chunk * 8 + 7) & ~7` */
  function TransferSize(chunk: nat): nat {
    And(chunk * 8 + 7, ToUint64(Complement(7)))
  }

  lemma TransferSizeIsWhole(chunk: nat)
    requires chunk <= CHUNK
    ensures TransferSize(chunk) == chunk * 8
  {
    hide Bitwise, Shl;
    PowerLiteral(3);
    PowerLiteral(61);
    ShlLiteral(chunk, 3);
    ShlLiteral(0x1FFF_FFFF_FFFF_FFFF, 3);
    SplitBits(AND, 3, chunk, 7, 0x1FFF_FFFF_FFFF_FFFF, 0);
    AndOnes(61, chunk);
    BitwiseZero(7);
  }

  lemma NothingTagged(h: seq<uint64>, dpuId: uint64, seed: uint64)
    requires |h| <= MRAM_WORDS
    ensures Tagged(h, dpuId, 0) == h && Mismatches(h, dpuId, seed, 0) == 0
  {
  }

  /** Tagging one more chunk: the part before it and the part after it are as they were. */
  lemma TaggedChunk(h: seq<uint64>, dpuId: uint64, base: nat, chunk: nat)
    requires base + chunk <= |h| <= MRAM_WORDS
    ensures Tagged(h, dpuId, base)[base..base + chunk] == h[base..base + chunk]
    ensures Tagged(h, dpuId, base + chunk)
         == Tagged(h, dpuId, base)[..base] + Tagged(h, dpuId, base + chunk)[base..base + chunk]
            + Tagged(h, dpuId, base)[base + chunk..]
  {
    hide Tag, Wrap64;
  }

  class Dpu {
    const dpuId: uint64
    /** The MRAM from the heap pointer on, as the program addresses it. */
    const heap: array<uint64>
    var testSeed: uint64
    var testSize: uint64
    var errorCount: uint64

    constructor (dpuId: uint64, heap: array<uint64>)
      ensures this.dpuId == dpuId && this.heap == heap && testSize == 0 && errorCount == 0
    {
      this.dpuId, this.heap := dpuId, heap;
      testSeed, testSize, errorCount := 0, 0, 0;
    }

    /** `mram_read`: at most 2048 bytes, a multiple of 8. */
    method MramRead(base: nat, buf: array<uint64>, bytes: nat, ghost words: nat)
      requires bytes == 8 * words && bytes <= 2048 && words <= buf.Length && base + words <= heap.Length && buf != heap
      modifies buf
      ensures buf[..words] == heap[base..base + words]
    {
      forall k | 0 <= k < bytes / 8 {
        buf[k] := heap[base + k];
      }
    }

    /** `mram_write` */
    method MramWrite(buf: array<uint64>, base: nat, bytes: nat, ghost words: nat)
      requires bytes == 8 * words && bytes <= 2048 && words <= buf.Length && base + words <= heap.Length && buf != heap
      modifies heap
      ensures heap[..] == old(heap[..base]) + buf[..words] + old(heap[base + words..])
    {
      forall k | 0 <= k < bytes / 8 {
        heap[base + k] := buf[k];
      }
    }

    /** Every element below the test size is compared and tagged exactly once, nothing beyond it changes,
        and the error count is the number of elements that differed. */
    method VerifyAndModify()
      requires testSize <= heap.Length <= MRAM_WORDS
      modifies this`errorCount, heap
      ensures heap[..] == Tagged(old(heap[..]), dpuId, testSize)
      ensures forall j: nat :: j < heap.Length ==>
        heap[j] == if j < testSize then (old(heap[..])[j] + dpuId * 0x1_0000_0000 + j) % 0x1_0000_0000_0000_0000
                   else old(heap[..])[j]
      ensures errorCount == Mismatches(old(heap[..]), dpuId, testSeed, testSize)
      ensures errorCount == |set j: nat | j < testSize && old(heap[..])[j] != ExpectedValue(dpuId, j, testSeed)|
    {
      hide Tagged, Mismatches, TransferSize, ExpectedValue;
      var buf := new uint64[256];
      var errors: uint64 := 0;
      var n := testSize;
      ghost var h := heap[..];
      NothingTagged(h, dpuId, testSeed);
      var base: nat := 0;
      while base < n
        invariant base < n + CHUNK
        invariant errors == Mismatches(h, dpuId, testSeed, if base < n then base else n)
        invariant heap[..] == Tagged(h, dpuId, if base < n then base else n)
        decreases n - base
      {
        var chunk := if n - base < CHUNK then n - base else CHUNK;
        TransferSizeIsWhole(chunk);
        TaggedChunk(h, dpuId, base, chunk);
        var xfer := TransferSize(chunk);
        MramRead(base, buf, xfer, chunk);
        errors := CheckChunk(buf, base, chunk, errors, h);
        MramWrite(buf, base, xfer, chunk);
        base := base + CHUNK;
      }
      errorCount := errors;
      MismatchesCount(h, dpuId, testSeed, n);
      TaggedElements(h, dpuId, n);
    }

    /** The inner loop over one chunk. */
    method CheckChunk(buf: array<uint64>, base: nat, chunk: nat, before: nat, ghost h: seq<uint64>)
      returns (errors: nat)
      requires chunk <= CHUNK == buf.Length && base + chunk <= |h| <= MRAM_WORDS
      requires buf[..chunk] == h[base..base + chunk]
      requires before == Mismatches(h, dpuId, testSeed, base)
      modifies buf
      ensures errors == Mismatches(h, dpuId, testSeed, base + chunk)
      ensures errors == |set j: nat | j < base + chunk && h[j] != ExpectedValue(dpuId, j, testSeed)|
      ensures buf[..chunk] == Tagged(h, dpuId, base + chunk)[base..base + chunk]
    {
      hide ExpectedValue, Tag, Wrap64;
      MismatchesCount(h, dpuId, testSeed, base + chunk);
      errors := before;
      for k: nat := 0 to chunk
        invariant errors == Mismatches(h, dpuId, testSeed, base + k)
        invariant forall i :: 0 <= i < k ==> buf[i] == Tagged(h, dpuId, base + chunk)[base + i]
        invariant forall i :: k <= i < chunk ==> buf[i] == h[base + i]
      {
        var j := base + k;
        var exp := ExpectedValue(dpuId, j, testSeed);
        if buf[k] != exp {
          errors := errors + 1;
        }
        buf[k] := Wrap64(buf[k] + Tag(dpuId, j));
      }
    }

    /** `main`: with a test size of zero nothing is checked and the error count keeps its old value. */
    method Run()
      requires testSize <= heap.Length <= MRAM_WORDS
      modifies this`errorCount, heap
      ensures heap[..] == Tagged(old(heap[..]), dpuId, testSize)
      ensures errorCount
           == if testSize == 0 then old(errorCount) else Mismatches(old(heap[..]), dpuId, testSeed, testSize)
      ensures testSize > 0 ==>
        errorCount == |set j: nat | j < testSize && old(heap[..])[j] != ExpectedValue(dpuId, j, testSeed)|
    {
      hide ExpectedValue, Tagged, Mismatches;
      NothingTagged(heap[..], dpuId, testSeed);
      if testSize != 0 {
        VerifyAndModify();
      }
    }
  }

  // ----- what the pattern and the tag mean -----

  /** A heap that holds the pattern has no mismatch, and one without mismatches holds the pattern. */
  lemma {:induction false} NoMismatchIffPattern(heap: seq<uint64>, dpuId: uint64, seed: uint64, n: nat)
    requires n <= |heap| <= MRAM_WORDS
    ensures Mismatches(heap, dpuId, seed, n) == 0 <==>
      forall j: nat :: j < n ==> heap[j] == ExpectedValue(dpuId, j, seed)
  {
    hide ExpectedValue;
    if n > 0 {
      NoMismatchIffPattern(heap, dpuId, seed, n - 1);
    }
  }

  /** The DPU's or is the host's two additions, modulo 2^64. */
  lemma TagIsSum(dpuId: uint64, j: uint64, x: uint64)
    requires j < TWO32
    ensures Tag(dpuId, j) == ShiftLeft64(dpuId, 32) + j
    ensures Wrap64(x + Tag(dpuId, j)) == Wrap64(Wrap64(x + ShiftLeft64(dpuId, 32)) + j)
  {
    hide Shl, Or, ShiftLeft64, Wrap64;
    ShiftedBy32(dpuId);
    TagJoins(dpuId % TWO32, j);
    WrapOnce(x + ShiftLeft64(dpuId, 32), j);
  }

  lemma TagJoins(h: nat, j: nat)
    requires j < TWO32
    ensures Or(h * TWO32, j) == h * TWO32 + j
  {
    hide Shl, Or;
    PowerLiteral(32);
    ShlLiteral(h, 32);
    OrIsSum(32, h, j);
  }
}
