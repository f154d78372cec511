/** The benchmark: the DPU adds a tag to every 256th word of its MRAM heap, the host checks the words
    it receives. */
module Benchmark {
  import opened Bits
  import opened HostBuffers
  import opened Launch
  import opened Layout
  import opened Memory
  import opened RankMachine
  import opened Requests
  import opened Slots
  import opened Words

  /** `MRAM_BUFFER_SIZE` is 6396 KB; the DPU's loop bound is that many bytes in words. */
  const MRAM_BUFFER_SIZE: nat := 6396 * 1024
  const BUFFER_WORDS: nat := 818688
  const STRIDE: nat := 256

  /** `(DPU_ID << 48) + (uint64_t)j`, the same on both sides. */
  function BenchTag(dpu: uint64, j: uint64): uint64 {
    Wrap64(ShiftLeft64(dpu, 48) + j)
  }

  /** The heap after the loop. */
  function Touched(heap: seq<uint64>, dpu: uint64, limit: nat): (r: seq<uint64>)
    requires |heap| <= MRAM_WORDS
    ensures |r| == |heap|
  {
    seq(|heap|, j requires 0 <= j < |heap| =>
      if j < limit && j % STRIDE == 0 then Wrap64(heap[j] + BenchTag(dpu, j)) else heap[j])
  }

  /** The loop adds dpu * 2^48 + j, modulo 2^64, to word j of every 256 below word 818688 and to no other. */
  lemma TouchedWords(heap: seq<uint64>, dpu: uint64)
    requires |heap| <= MRAM_WORDS
    ensures forall j: nat :: j < |heap| ==>
      Touched(heap, dpu, BUFFER_WORDS)[j]
      == if j % 256 == 0 && j < 818688 then (heap[j] + dpu * 0x1_0000_0000_0000 + j) % 0x1_0000_0000_0000_0000
         else heap[j]
  {
    hide Wrap64, BenchTag;
    forall j: nat | j < |heap|
      ensures Wrap64(heap[j] + BenchTag(dpu, j)) == (heap[j] + dpu * 0x1_0000_0000_0000 + j) % 0x1_0000_0000_0000_0000
    {
      TagIsModular(heap[j], dpu, j);
    }
  }

  lemma TagIsModular(x: uint64, dpu: uint64, j: nat)
    requires j < TWO64
    ensures Wrap64(x + BenchTag(dpu, j)) == (x + dpu * 0x1_0000_0000_0000 + j) % 0x1_0000_0000_0000_0000
  {
    hide Wrap64, ShiftLeft64;
    var s := ShiftLeft64(dpu, 48);
    ShiftedBy48(dpu);
    WrapOnce(s + j, x);
    Wrap64IsModulo(s + j + x);
    ModuloOnce(dpu * 0x1_0000_0000_0000, j + x);
  }

  /** `mram_test` */
  method MramTest(heap: array<uint64>, dpu: uint64)
    requires BUFFER_WORDS <= heap.Length <= MRAM_WORDS
    modifies heap
    ensures heap[..] == Touched(old(heap[..]), dpu, BUFFER_WORDS)
    ensures forall j: nat :: j < heap.Length ==>
      heap[j] == if j % 256 == 0 && j < 818688
                 then (old(heap[..])[j] + dpu * 0x1_0000_0000_0000 + j) % 0x1_0000_0000_0000_0000
                 else old(heap[..])[j]
  {
    hide Wrap64, ShiftLeft64, BenchTag;
    ghost var h := heap[..];
    TouchedWords(h, dpu);
    var offset := ShiftLeft64(dpu, 48);
    var i: nat := 0;
    ghost var turn: nat := 0;
    while i < BUFFER_WORDS
      invariant i == STRIDE * turn && i <= BUFFER_WORDS
      invariant forall j :: 0 <= j < heap.Length ==> heap[j] == Touched(h, dpu, i)[j]
    {
      TouchNext(h, dpu, turn);
      BenchTagIs(dpu, i);
      heap[i] := Wrap64(heap[i] + Wrap64(offset + i));
      i := i + STRIDE;
      turn := turn + 1;
    }
  }

  lemma BenchTagIs(dpu: uint64, j: uint64)
    ensures BenchTag(dpu, j) == Wrap64(ShiftLeft64(dpu, 48) + j)
  {
  }

  /** One turn of the loop touches one more word. */
  lemma TouchNext(h: seq<uint64>, dpu: uint64, turn: nat)
    requires STRIDE * turn < |h| <= MRAM_WORDS
    ensures Touched(h, dpu, STRIDE * turn)[STRIDE * turn] == h[STRIDE * turn]
    ensures Touched(h, dpu, STRIDE * (turn + 1))
         == Touched(h, dpu, STRIDE * turn)[STRIDE * turn := Wrap64(h[STRIDE * turn] + BenchTag(dpu, STRIDE * turn))]
  {
    hide Wrap64, BenchTag;
    var i := STRIDE * turn;
    forall j: nat | i < j < i + STRIDE ensures j % STRIDE != 0 {
      assert j == STRIDE * turn + (j - i);
    }
  }

  lemma TouchedPrefix(heap: seq<uint64>, dpu: uint64, n: nat)
    requires n <= |heap| <= MRAM_WORDS
    ensures Touched(heap, dpu, BUFFER_WORDS)[..n] == Touched(heap[..n], dpu, BUFFER_WORDS)
  {
    hide Wrap64, BenchTag;
  }

  /** The DPU's run on a slot of a mapped region: of every range that starts at the heap pointer, exactly
      the words the loop visits are tagged, and other slots are left alone. */
  method RunOnSlot(mem: array<byte>, s: nat, dpuId: uint64, heapStart: nat, ghost n: nat)
    requires mem.Length >= REGION_SPAN && s < SLOTS && heapStart % 8 == 0
    requires heapStart + 8 * BUFFER_WORDS <= MRAM_SIZE && heapStart + 8 * n <= MRAM_SIZE
    modifies mem
    ensures forall other: nat :: other < SLOTS && other != s ==> Mram(mem[..], other) == Mram(old(mem[..]), other)
    ensures WordsOf(Mram(mem[..], s)[heapStart..heapStart + 8 * n])
         == Touched(WordsOf(Mram(old(mem[..]), s)[heapStart..heapStart + 8 * n]), dpuId, BUFFER_WORDS)
  {
    hide Physical, MramByte, Mram, WordsOf, Touched, Store;
    ghost var m0 := Mram(mem[..], s);
    var bytes := Mram(mem[..], s)[heapStart..];
    assert bytes[..8 * n] == m0[heapStart..heapStart + 8 * n];
    var words := WordsOf(bytes);
    var heap := new uint64[|words|](j requires 0 <= j < |words| => words[j]);
    assert heap[..] == words;
    MramTest(heap, dpuId);
    WordsPrefix(bytes, n);
    TouchedPrefix(words, dpuId, n);
    ghost var after := heap[..];
    WriteHeap(mem, s, heapStart, heap, heap.Length);
    ghost var bytes' := Mram(mem[..], s)[heapStart..heapStart + 8 * |words|];
    assert bytes'[..8 * n] == Mram(mem[..], s)[heapStart..heapStart + 8 * n];
    WordsPrefix(bytes', n);
    assert after[..heap.Length] == after;
  }

  /** What the host asserts about word j, given the value it sent. */
  function HostValue(sent: uint64, dpu: uint64, j: uint64): uint64 {
    if j % STRIDE == 0 then Wrap64(sent + BenchTag(dpu, j)) else sent
  }

  lemma HostValueIs(sent: uint64, dpu: uint64, j: uint64)
    ensures HostValue(sent, dpu, j)
         == if j % 256 == 0 then (sent + dpu * 0x1_0000_0000_0000 + j) % 0x1_0000_0000_0000_0000 else sent
  {
    hide Wrap64, BenchTag;
    TagIsModular(sent, dpu, j);
  }

  /** The host's check of word j holds exactly when j is no multiple of 256 or below word 818688, whatever
      was sent and whichever DPU it is. */
  lemma CheckHoldsIff(ws: seq<uint64>, dpu: uint64, j: nat)
    requires |ws| <= MRAM_WORDS && j < |ws|
    ensures Touched(ws, dpu, BUFFER_WORDS)[j] == HostValue(ws[j], dpu, j) <==> j % 256 != 0 || j < 818688
  {
    hide Wrap64, BenchTag;
    if j % 256 == 0 && j >= 818688 {
      TagChanges(ws[j], dpu, j);
    }
  }

  /** The host's checks of a buffer of n words all hold exactly when the buffer is no larger than the
      range the DPU walks. */
  lemma ChecksHoldIffWithinRange(ws: seq<uint64>, dpu: uint64)
    requires |ws| <= MRAM_WORDS
    ensures (forall j: nat :: j < |ws| ==> Touched(ws, dpu, BUFFER_WORDS)[j] == HostValue(ws[j], dpu, j))
         <==> |ws| <= 818688
  {
    hide Touched, HostValue;
    forall j: nat | j < |ws|
      ensures Touched(ws, dpu, BUFFER_WORDS)[j] == HostValue(ws[j], dpu, j) <==> j % 256 != 0 || j < 818688
    {
      CheckHoldsIff(ws, dpu, j);
    }
    if |ws| > 818688 {
      assert Touched(ws, dpu, BUFFER_WORDS)[818688] != HostValue(ws[818688], dpu, 818688);
    }
  }

  /** A tag with a nonzero word index is never a multiple of 2^64. */
  lemma TagChanges(x: uint64, dpu: uint64, j: uint64)
    requires 0 < j < 0x1_0000_0000_0000
    ensures Wrap64(x + BenchTag(dpu, j)) != x
  {
    hide ShiftLeft64, Wrap64;
    ShiftedBy48(dpu);
    var v := dpu % 0x1_0000 * 0x1_0000_0000_0000 + j;
    Wrap64IsModulo(v);
    Wrap64IsModulo(x + v);
  }

  /** Send, run and receive of one DPU: the host's checks pass exactly for buffers up to the DPU's range.
      `launched` is what the loop leaves of the DPU's MRAM range. */
  lemma BenchmarkEndToEnd(e: Topology, q: Request, k: nat, filled: seq<byte>, received: seq<byte>,
                          before: seq<Region>, sent: seq<Region>, launched: seq<Region>)
    requires q.Acceptable(e, filled) && q.Acceptable(e, received)
    requires |before| == |sent| == |launched| == |e| && k < |q.buffers| && q.Address(k) != NULL && k < TWO64
    requires DpuSent(e, q, filled, before, sent, k)
    requires HeapWords(e, q, launched, k) == Touched(HeapWords(e, q, sent, k), k, BUFFER_WORDS)
    requires DpuReceived(e, q, received, launched, k)
    ensures BufferWords(q, received, k) == Touched(BufferWords(q, filled, k), k, BUFFER_WORDS)
    ensures (forall j: nat :: j < q.length / 8 ==>
               BufferWords(q, received, k)[j] == HostValue(BufferWords(q, filled, k)[j], k, j))
         <==> q.length <= 6396 * 1024
  {
    hide SlotOfDpu, CountBefore, Touched, HostValue, WordsOf, Mram;
    assert HeapWords(e, q, sent, k) == BufferWords(q, filled, k);
    assert BufferWords(q, received, k) == HeapWords(e, q, launched, k);
    ChecksHoldIffWithinRange(BufferWords(q, filled, k), k);
  }

  /** The largest test size, 8 MB, is beyond the range: the multiples of 256 below word 818688 pass, it and
      every later one fails. */
  lemma EightMegabytesFail(ws: seq<uint64>, dpu: uint64, m: nat)
    requires |ws| == 8 * 1024 * 1024 / 8 && 256 * m < |ws|
    ensures Touched(ws, dpu, BUFFER_WORDS)[256 * m] == HostValue(ws[256 * m], dpu, 256 * m) <==> m < 3198
    ensures m < 3198 ==>
      Touched(ws, dpu, BUFFER_WORDS)[256 * m]
      == (ws[256 * m] + dpu * 0x1_0000_0000_0000 + 256 * m) % 0x1_0000_0000_0000_0000
  {
    hide Touched, HostValue;
    CheckHoldsIff(ws, dpu, 256 * m);
    TouchedWords(ws, dpu);
  }

  // ----- the generated values -----

  /** `(i << 50) | (j << 20) | repeat` */
  function Combine(i: uint64, j: uint64, repeat: uint64): nat {
    Or(Or(ShiftLeft64(i, 50), ShiftLeft64(j, 20)), repeat)
  }

  lemma CombineIsSum(i: uint64, j: uint64, repeat: uint64)
    requires i < 0x1000 && j < 0x4000_0000 && repeat < 0x10_0000
    ensures Combine(i, j, repeat) == i * 0x4_0000_0000_0000 + j * 0x10_0000 + repeat
  {
    hide Or, Shl;
    PowerLiteral(50);
    PowerLiteral(20);
    ShlLiteral(i, 50);
    ShlLiteral(j, 20);
    OrIsSum(50, i, j * 0x10_0000);
    var h := i * 0x4000_0000 + j;
    ShlLiteral(h, 20);
    OrIsSum(20, h, repeat);
  }

  /** Within the asserted ranges, different (DPU, word, repetition) triples hash different inputs. */
  lemma CombineInjective(i: uint64, j: uint64, repeat: uint64, i': uint64, j': uint64, repeat': uint64)
    requires i < 0x1000 && j < 0x4000_0000 && repeat < 0x10_0000
    requires i' < 0x1000 && j' < 0x4000_0000 && repeat' < 0x10_0000
    requires Combine(i, j, repeat) == Combine(i', j', repeat')
    ensures i == i' && j == j' && repeat == repeat'
  {
    hide Combine;
    CombineIsSum(i, j, repeat);
    CombineIsSum(i', j', repeat');
  }
}
