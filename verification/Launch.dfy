/** Running the example's DPU program on MRAMs that live in mapped regions. */
module Launch {
  import opened Bits
  import opened DirectInterface
  import opened ExampleDpu
  import opened ExampleHost
  import opened Layout
  import opened Memory
  import opened RankMachine
  import opened RankTransfers
  import opened Requests
  import opened Slots
  import opened Words

  /** One region byte is one byte of one slot's MRAM and of no other. */
  lemma WrittenByte(region: Region, s: nat, a: nat, b: byte)
    requires s < SLOTS && a < MRAM_SIZE
    ensures Physical(s, a) < |region|
    ensures Mram(region[Physical(s, a) := b], s) == Mram(region, s)[a := b]
    ensures forall other: nat :: other < SLOTS && other != s ==>
      Mram(region[Physical(s, a) := b], other) == Mram(region, other)
  {
    hide Physical, SlotOf, AddressOf;
    LayoutInjective(s, a);
    var region' := region[Physical(s, a) := b];
    forall slot: nat, x: nat | slot < SLOTS && x < MRAM_SIZE
      ensures Mram(region', slot)[x] == if slot == s && x == a then b else Mram(region, slot)[x]
    {
      LayoutInjective(slot, x);
    }
  }

  /** A DPU's write to its own MRAM. */
  method WriteMram(mem: array<byte>, s: nat, a: nat, data: seq<byte>)
    requires mem.Length >= REGION_SPAN && s < SLOTS && a + |data| <= MRAM_SIZE
    modifies mem
    ensures Mram(mem[..], s) == Store(Mram(old(mem[..]), s), a, data)
    ensures forall other: nat :: other < SLOTS && other != s ==> Mram(mem[..], other) == Mram(old(mem[..]), other)
  {
    hide Physical, MramByte, Mram;
    for c: nat := 0 to |data|
      invariant Mram(mem[..], s) == Store(Mram(old(mem[..]), s), a, data[..c])
      invariant forall other: nat :: other < SLOTS && other != s ==> Mram(mem[..], other) == Mram(old(mem[..]), other)
    {
      WrittenByte(mem[..], s, a + c, data[c]);
      StoreGrows(Mram(old(mem[..]), s), a, data, c);
      ghost var before := mem[..];
      mem[Physical(s, a + c)] := data[c];
      assert mem[..] == before[Physical(s, a + c) := data[c]];
    }
    assert data[..|data|] == data;
  }

  lemma StoreGrows(m: seq<byte>, a: nat, data: seq<byte>, c: nat)
    requires a + |data| <= |m| && c < |data|
    ensures Store(m, a, data[..0]) == m
    ensures Store(m, a, data[..c + 1]) == Store(m, a, data[..c])[a + c := data[c]]
  {
  }

  /** The words of a range after its first j words have been written. */
  lemma WordWritten(m: seq<byte>, off: nat, j: nat, x: uint64, ws: seq<uint64>)
    requires off + 8 * j + 8 <= |m| && |ws| == j && WordsOf(m[off..off + 8 * j]) == ws
    ensures off + 8 * (j + 1) <= |Store(m, off + 8 * j, SplitWord(x, 8))|
    ensures WordsOf(Store(m, off + 8 * j, SplitWord(x, 8))[off..off + 8 * (j + 1)]) == ws + [x]
  {
    hide SplitWord, JoinBytes;
    var m' := Store(m, off + 8 * j, SplitWord(x, 8));
    var range, range' := m[off..off + 8 * j], m'[off..off + 8 * (j + 1)];
    assert range'[8 * j..8 * j + 8] == SplitWord(x, 8);
    WordOfStored(range', j, x);
    forall k | 0 <= k < j ensures WordAt(range', k) == ws[k] {
      assert range'[8 * k..8 * k + 8] == range[8 * k..8 * k + 8];
      assert WordsOf(range)[k] == WordAt(range, k);
    }
  }

  lemma TaggedPrefix(heap: seq<uint64>, dpu: uint64, n: nat)
    requires n <= |heap| <= MRAM_WORDS
    ensures Tagged(heap, dpu, n)[..n] == Tagged(heap[..n], dpu, n)
  {
  }

  lemma {:induction false} MismatchesPrefix(heap: seq<uint64>, dpu: uint64, seed: uint64, n: nat, m: nat)
    requires m <= n <= |heap| <= MRAM_WORDS
    ensures Mismatches(heap, dpu, seed, m) == Mismatches(heap[..n], dpu, seed, m)
  {
    if m > 0 {
      MismatchesPrefix(heap, dpu, seed, n, m - 1);
    }
  }

  lemma WordsPrefix(bs: seq<byte>, n: nat)
    requires 8 * n <= |bs|
    ensures WordsOf(bs)[..n] == WordsOf(bs[..8 * n])
  {
    forall j | 0 <= j < n ensures WordsOf(bs)[j] == WordsOf(bs[..8 * n])[j] {
      assert bs[..8 * n][8 * j..8 * j + 8] == bs[8 * j..8 * j + 8];
    }
  }

  /** One DPU's run: it sees its own MRAM from the heap pointer on and leaves the other slots alone. */
  method RunOnSlot(mem: array<byte>, s: nat, dpuId: uint64, heapStart: nat, seed: uint64, n: nat, stale: uint64)
    returns (errorCount: uint64)
    requires mem.Length >= REGION_SPAN && s < SLOTS && heapStart % 8 == 0 && heapStart + 8 * n <= MRAM_SIZE
    modifies mem
    ensures forall other: nat :: other < SLOTS && other != s ==> Mram(mem[..], other) == Mram(old(mem[..]), other)
    ensures var range := WordsOf(Mram(old(mem[..]), s)[heapStart..heapStart + 8 * n]);
      && WordsOf(Mram(mem[..], s)[heapStart..heapStart + 8 * n]) == Tagged(range, dpuId, n)
      && errorCount == if n == 0 then stale else Mismatches(range, dpuId, seed, n)
  {
    hide Physical, MramByte, Mram, WordsOf, Tagged, Mismatches, Store, SplitWord;
    ghost var m0 := Mram(mem[..], s);
    var bytes := Mram(mem[..], s)[heapStart..];
    assert bytes[..8 * n] == m0[heapStart..heapStart + 8 * n];
    var words := WordsOf(bytes);
    var heap := new uint64[|words|](j requires 0 <= j < |words| => words[j]);
    var dpu := new Dpu(dpuId, heap);
    dpu.testSeed, dpu.testSize, dpu.errorCount := seed, n, stale;
    assert heap[..] == words;
    dpu.Run();
    errorCount := dpu.errorCount;
    WordsPrefix(bytes, n);
    TaggedPrefix(words, dpuId, n);
    MismatchesPrefix(words, dpuId, seed, n, n);
    WriteHeap(mem, s, heapStart, heap, n);
  }

  /** Put the first n words of the heap back into the slot's MRAM. */
  method WriteHeap(mem: array<byte>, s: nat, heapStart: nat, heap: array<uint64>, n: nat)
    requires mem.Length >= REGION_SPAN && s < SLOTS && heapStart + 8 * n <= MRAM_SIZE && n <= heap.Length
    modifies mem
    ensures forall other: nat :: other < SLOTS && other != s ==> Mram(mem[..], other) == Mram(old(mem[..]), other)
    ensures WordsOf(Mram(mem[..], s)[heapStart..heapStart + 8 * n]) == heap[..n]
  {
    hide Physical, MramByte, Mram, WordsOf, Store, SplitWord;
    ghost var words := heap[..];
    NoWords(Mram(mem[..], s)[heapStart..heapStart]);
    for j: nat := 0 to n
      invariant heap[..] == words
      invariant forall other: nat :: other < SLOTS && other != s ==> Mram(mem[..], other) == Mram(old(mem[..]), other)
      invariant WordsOf(Mram(mem[..], s)[heapStart..heapStart + 8 * j]) == words[..j]
    {
      WordWritten(Mram(mem[..], s), heapStart, j, heap[j], words[..j]);
      WriteMram(mem, s, heapStart + 8 * j, SplitWord(heap[j], 8));
      assert words[..j] + [words[j]] == words[..j + 1];
    }
  }

  lemma NoWords(bs: seq<byte>)
    requires bs == []
    ensures WordsOf(bs) == []
  {
  }
}
