/** The example's host side: fill every buffer with the pattern, send, let the DPUs check and tag,
    receive, and compare. */
module ExampleHost {
  import opened Bits
  import opened ExampleDpu
  import opened HostBuffers
  import opened Layout
  import opened Memory
  import opened RankMachine
  import opened Requests
  import opened Slots
  import opened Words

  /** `expected_value(i, j, seed) + ((uint64_t)i << 32) + j` in `uint64_t`. */
  function HostExpected(dpu: uint64, j: uint64, seed: uint64): uint64 {
    Wrap64(Wrap64(ExpectedValue(dpu, j, seed) + ShiftLeft64(dpu, 32)) + j)
  }

  /** How many of the first n received words differ from what the host expects. */
  function HostErrors(ws: seq<uint64>, dpu: uint64, seed: uint64, n: nat): (r: nat)
    requires n <= |ws| <= MRAM_WORDS
    ensures r <= n
  {
    if n == 0 then 0
    else HostErrors(ws, dpu, seed, n - 1) + (if ws[n - 1] != HostExpected(dpu, n - 1, seed) then 1 else 0)
  }

  /** A word that is not the pattern plus dpu * 2^32 plus its index. */
  predicate Unexpected(ws: seq<uint64>, dpu: uint64, seed: uint64, j: nat)
    requires j < |ws| <= MRAM_WORDS
  {
    ws[j] != (ExpectedValue(dpu, j, seed) + dpu * 0x1_0000_0000 + j) % 0x1_0000_0000_0000_0000
  }

  /** The count is the number of words that are not the pattern plus dpu * 2^32 plus their index. */
  lemma HostErrorsCount(ws: seq<uint64>, dpu: uint64, seed: uint64, n: nat)
    requires n <= |ws| <= MRAM_WORDS
    ensures HostErrors(ws, dpu, seed, n) == |UnexpectedAt(ws, dpu, seed, n)|
    ensures UnexpectedAt(ws, dpu, seed, n) == set j: nat |
      j < n && ws[j] != (ExpectedValue(dpu, j, seed) + dpu * 0x1_0000_0000 + j) % 0x1_0000_0000_0000_0000
  {
    hide UnexpectedAt, HostErrors, ExpectedValue;
    CountIsSize(ws, dpu, seed, n);
    UnexpectedWords(ws, dpu, seed, n);
  }

  lemma {:induction false} CountIsSize(ws: seq<uint64>, dpu: uint64, seed: uint64, n: nat)
    requires n <= |ws| <= MRAM_WORDS
    ensures HostErrors(ws, dpu, seed, n) == |UnexpectedAt(ws, dpu, seed, n)|
  {
    hide Unexpected, HostExpected;
    var all := UnexpectedAt(ws, dpu, seed, n);
    if n == 0 {
      assert all == {};
    } else {
      CountIsSize(ws, dpu, seed, n - 1);
      UnexpectedIs(ws, dpu, seed, n - 1);
      var before := UnexpectedAt(ws, dpu, seed, n - 1);
      assert all == if Unexpected(ws, dpu, seed, n - 1) then before + {n - 1} else before;
    }
  }

  lemma UnexpectedWords(ws: seq<uint64>, dpu: uint64, seed: uint64, n: nat)
    requires n <= |ws| <= MRAM_WORDS
    ensures UnexpectedAt(ws, dpu, seed, n) == set j: nat |
      j < n && ws[j] != (ExpectedValue(dpu, j, seed) + dpu * 0x1_0000_0000 + j) % 0x1_0000_0000_0000_0000
  {
    hide ExpectedValue;
  }

  lemma UnexpectedIs(ws: seq<uint64>, dpu: uint64, seed: uint64, j: nat)
    requires j < |ws| <= MRAM_WORDS
    ensures Unexpected(ws, dpu, seed, j) <==> ws[j] != HostExpected(dpu, j, seed)
  {
    hide ExpectedValue, HostExpected;
    HostExpectedIsModular(dpu, j, seed);
  }

  ghost function UnexpectedAt(ws: seq<uint64>, dpu: uint64, seed: uint64, n: nat): set<nat>
    requires n <= |ws| <= MRAM_WORDS
  {
    set j: nat | j < n && Unexpected(ws, dpu, seed, j)
  }

  lemma NoErrorsMeansExpected(ws: seq<uint64>, dpu: uint64, seed: uint64, n: nat)
    requires n <= |ws| <= MRAM_WORDS && HostErrors(ws, dpu, seed, n) == 0
    ensures forall j: nat :: j < n ==>
      ws[j] == (ExpectedValue(dpu, j, seed) + dpu * 0x1_0000_0000 + j) % 0x1_0000_0000_0000_0000
  {
    hide ExpectedValue, HostErrors;
    HostErrorsCount(ws, dpu, seed, n);
    forall j: nat | j < n
      ensures ws[j] == (ExpectedValue(dpu, j, seed) + dpu * 0x1_0000_0000 + j) % 0x1_0000_0000_0000_0000
    {
      assert j !in UnexpectedAt(ws, dpu, seed, n);
    }
  }

  /** The expected word in plain arithmetic. */
  lemma HostExpectedIsModular(dpu: uint64, j: uint64, seed: uint64)
    ensures HostExpected(dpu, j, seed)
         == (ExpectedValue(dpu, j, seed) + dpu * 0x1_0000_0000 + j) % 0x1_0000_0000_0000_0000
  {
    hide ExpectedValue, Wrap64, ShiftLeft64;
    var v := ExpectedValue(dpu, j, seed);
    ShiftedBy32(dpu);
    WrapOnce(v + ShiftLeft64(dpu, 32), j);
    Wrap64IsModulo(v + ShiftLeft64(dpu, 32) + j);
    ModuloOnce(dpu * 0x1_0000_0000, v + j);
  }

  ghost predicate Pattern(ws: seq<uint64>, dpu: uint64, seed: uint64)
    requires |ws| <= MRAM_WORDS
  {
    forall j: nat :: j < |ws| ==> ws[j] == ExpectedValue(dpu, j, seed)
  }

  /** The value the fill loop writes. */
  function PatternValue(seed: uint64): (nat, nat) -> uint64 {
    (k: nat, j: nat) => if k < TWO64 && j < TWO64 then ExpectedValue(k, j, seed) else 0
  }

  lemma FilledIsPattern(ws: seq<uint64>, k: nat, seed: uint64)
    requires k < TWO64 && |ws| <= MRAM_WORDS && HoldsValues(ws, k, PatternValue(seed))
    ensures Pattern(ws, k, seed)
  {
    hide ExpectedValue;
  }

  /** DPU k has run on its MRAM range: its elements are tagged, and it reports the mismatches it found,
      or, when there was nothing to check, the count left by an earlier run. */
  ghost predicate DpuRan(e: Topology, q: Request, before: seq<Region>, after: seq<Region>, k: nat,
                         seed: uint64, stale: uint64, errorCount: uint64)
    requires |before| == |after| == |e| && |q.buffers| == CountAll(e) && k < |q.buffers| && k < TWO64
    requires q.offset + q.length <= MRAM_SIZE
  {
    var heap := HeapWords(e, q, before, k);
    && HeapWords(e, q, after, k) == Tagged(heap, k, |heap|)
    && errorCount == if |heap| == 0 then stale else Mismatches(heap, k, seed, |heap|)
  }

  /** Tagging the pattern gives exactly what the host expects. */
  lemma {:induction false} TaggedPatternExpected(ws: seq<uint64>, dpu: uint64, seed: uint64, n: nat)
    requires n <= |ws| <= MRAM_WORDS && Pattern(ws, dpu, seed)
    ensures HostErrors(Tagged(ws, dpu, |ws|), dpu, seed, n) == 0
  {
    hide ExpectedValue, Tag, Wrap64, ShiftLeft64;
    if n > 0 {
      TaggedPatternExpected(ws, dpu, seed, n - 1);
      TagIsSum(dpu, n - 1, ws[n - 1]);
    }
  }

  /** After fill, send, DPU run and receive, for every DPU, seed and size: the host finds no error, and
      the DPU reports none if it checked something and what it had reported before if it did not. */
  lemma ExampleEndToEnd(e: Topology, q: Request, seed: uint64, k: nat, filled: seq<byte>, received: seq<byte>,
                        before: seq<Region>, sent: seq<Region>, launched: seq<Region>,
                        stale: uint64, errorCount: uint64)
    requires q.Acceptable(e, filled) && q.Acceptable(e, received)
    requires |before| == |sent| == |launched| == |e| && k < |q.buffers| && q.Address(k) != NULL && k < TWO64
    requires Pattern(BufferWords(q, filled, k), k, seed)
    requires DpuSent(e, q, filled, before, sent, k)
    requires DpuRan(e, q, sent, launched, k, seed, stale, errorCount)
    requires DpuReceived(e, q, received, launched, k)
    ensures HostErrors(BufferWords(q, received, k), k, seed, q.length / 8) == 0
    ensures errorCount == if q.length > 0 then 0 else stale
  {
    hide SlotOfDpu, CountBefore, ExpectedValue, Tagged, Mismatches, HostErrors, WordsOf, Mram;
    var heap := HeapWords(e, q, sent, k);
    assert heap == BufferWords(q, filled, k);
    assert BufferWords(q, received, k) == Tagged(heap, k, |heap|);
    TaggedPatternExpected(heap, k, seed, |heap|);
    NoMismatchIffPattern(heap, k, seed, |heap|);
  }
}
