/** One repetition of the benchmark's throughput test, on the interface and the mapped regions. */
module BenchmarkRun {
  import opened Benchmark
  import opened Bits
  import opened DirectInterface
  import opened HostBuffers
  import opened Layout
  import opened Memory
  import opened RankMachine
  import opened Requests
  import opened Slots
  import opened Words

  /** `get_value`, with its three asserted ranges and an unknown hash. */
  function ValueAt(hash: nat -> uint64, i: nat, j: nat, repeat: nat): uint64 {
    if i < 0x1000 && j < 0x4000_0000 && repeat < 0x10_0000 then hash(Combine(i, j, repeat)) else 0
  }

  /** In the asserted ranges the value is the hash of disjoint fields: repetition, word and DPU number. */
  lemma GeneratedValue(hash: nat -> uint64, i: nat, j: nat, repeat: nat)
    requires i < 0x1000 && j < 0x4000_0000 && repeat < 0x10_0000
    ensures ValueAt(hash, i, j, repeat) == hash(i * 0x4_0000_0000_0000 + j * 0x10_0000 + repeat)
  {
    CombineIsSum(i, j, repeat);
  }

  function GetValue(hash: nat -> uint64, repeat: nat): (nat, nat) -> uint64 {
    (i: nat, j: nat) => ValueAt(hash, i, j, repeat)
  }

  /** Every DPU before k has run, the others are as they were. */
  ghost predicate TouchedUpTo(e: Topology, q: Request, before: seq<Region>, after: seq<Region>, k: nat)
    requires |q.buffers| == CountAll(e) < TWO64 && q.offset + q.length <= MRAM_SIZE
  {
    && |before| == |after| == |e|
    && forall m: nat :: m < |q.buffers| ==>
         HeapWords(e, q, after, m)
         == if m < k then Touched(HeapWords(e, q, before, m), m, BUFFER_WORDS) else HeapWords(e, q, before, m)
  }

  lemma TouchedOneMore(e: Topology, q: Request, before: seq<Region>, u: seq<Region>, after: seq<Region>, k: nat)
    requires |q.buffers| == CountAll(e) < TWO64 && q.offset + q.length <= MRAM_SIZE && k < |q.buffers|
    requires TouchedUpTo(e, q, before, u, k)
    requires OnlySlot(u, after, SlotOfDpu(e, k).0, SlotOfDpu(e, k).1)
    requires HeapWords(e, q, after, k) == Touched(HeapWords(e, q, u, k), k, BUFFER_WORDS)
    ensures TouchedUpTo(e, q, before, after, k + 1)
  {
    hide SlotOfDpu, CountBefore, HeapWords, Touched;
    forall m: nat | m < |q.buffers| && m != k ensures HeapWords(e, q, after, m) == HeapWords(e, q, u, m) {
      OtherHeapKept(e, q, u, after, k, m);
    }
  }

  /** Launch: every DPU runs its loop on its own MRAM. */
  method LaunchAll(pim: DirectPimInterface, q: Request)
    requires pim.Valid() && |q.buffers| == CountAll(pim.enabled) < TWO64
    requires q.offset % 8 == 0 && q.length % 8 == 0 && q.offset + q.length <= MRAM_SIZE
    requires q.offset + 8 * BUFFER_WORDS <= MRAM_SIZE
    modifies pim.Regions()
    ensures pim.Valid() && pim.host[..] == old(pim.host[..])
    ensures TouchedUpTo(pim.enabled, q, old(pim.Mems()), pim.Mems(), |q.buffers|)
  {
    hide FindSlot, CountBefore, HeapWords, OnlySlot, Touched;
    ghost var e, before, h := pim.enabled, pim.Mems(), pim.host[..];
    for k: nat := 0 to |q.buffers|
      invariant pim.Valid() && pim.host[..] == h
      invariant TouchedUpTo(e, q, before, pim.Mems(), k)
    {
      ghost var u := pim.Mems();
      LaunchOne(pim, q, k);
      TouchedOneMore(e, q, before, u, pim.Mems(), k);
    }
  }

  method LaunchOne(pim: DirectPimInterface, q: Request, k: nat)
    requires pim.Valid() && |q.buffers| == CountAll(pim.enabled) < TWO64 && k < |q.buffers|
    requires q.offset % 8 == 0 && q.length % 8 == 0 && q.offset + q.length <= MRAM_SIZE
    requires q.offset + 8 * BUFFER_WORDS <= MRAM_SIZE
    modifies pim.Regions()
    ensures pim.Valid() && pim.host[..] == old(pim.host[..])
    ensures OnlySlot(old(pim.Mems()), pim.Mems(), SlotOfDpu(pim.enabled, k).0, SlotOfDpu(pim.enabled, k).1)
    ensures HeapWords(pim.enabled, q, pim.Mems(), k)
         == Touched(HeapWords(pim.enabled, q, old(pim.Mems()), k), k, BUFFER_WORDS)
  {
    hide FindSlot, CountBefore, Mram, WordsOf, Touched;
    var (i, s) := SlotOfDpu(pim.enabled, k);
    RunOnSlot(pim.ranks[i].mem, s, k, q.offset, q.length / 8);
  }

  /** What the host asserts about every word it received. */
  ghost predicate AllChecksHold(q: Request, host: seq<byte>, value: (nat, nat) -> uint64, k: nat)
    requires k < |q.buffers| && k < TWO64 && q.length <= MRAM_SIZE && q.Address(k) + q.length <= |host|
  {
    forall j: nat :: j < q.length / 8 ==> BufferWords(q, host, k)[j] == HostValue(value(k, j), k, j)
  }

  /** The check loops; an assertion that fails ends them. */
  method CheckReceived(host: array<byte>, q: Request, value: (nat, nat) -> uint64) returns (ok: bool)
    requires q.length % 8 == 0 && q.length <= MRAM_SIZE && |q.buffers| < TWO64
    requires forall k: nat :: k < |q.buffers| ==> q.Address(k) + q.length <= host.Length
    ensures ok <==> forall k: nat :: k < |q.buffers| ==> AllChecksHold(q, host[..], value, k)
  {
    hide WordsOf, HostValue;
    for i: nat := 0 to |q.buffers|
      invariant forall k: nat :: k < i ==> AllChecksHold(q, host[..], value, k)
    {
      var p := WordsOf(host[q.Address(i)..q.Address(i) + q.length]);
      for j: nat := 0 to q.length / 8
        invariant forall m: nat :: m < j ==> p[m] == HostValue(value(i, m), i, m)
      {
        if p[j] != HostValue(value(i, j), i, j) {
          assert !AllChecksHold(q, host[..], value, i);
          return false;
        }
      }
    }
    return true;
  }

  /** Word j of DPU k's buffer after one repetition. */
  function FinalWord(hash: nat -> uint64, repeat: nat, k: nat, j: nat): uint64 {
    var v := hash(k * 0x4_0000_0000_0000 + j * 0x10_0000 + repeat);
    if j % 256 == 0 && j < 818688 then (v + k * 0x1_0000_0000_0000 + j) % 0x1_0000_0000_0000_0000 else v
  }

  /** The checks and the words of one DPU, from what send, launch and receive did. */
  lemma ChecksOfDpu(e: Topology, q: Request, k: nat, hash: nat -> uint64, repeat: nat,
                    filled: seq<byte>, received: seq<byte>,
                    before: seq<Region>, sent: seq<Region>, launched: seq<Region>)
    requires q.Acceptable(e, filled) && q.Acceptable(e, received) && |q.buffers| == CountAll(e) < 0x1000
    requires |before| == |sent| == |launched| == |e| && k < |q.buffers| && q.Address(k) != NULL
    requires q.length <= MRAM_SIZE && q.offset + q.length <= MRAM_SIZE && repeat < 0x10_0000
    requires q.Address(k) + q.length <= |filled| && q.Address(k) + q.length <= |received|
    requires HoldsValues(BufferWords(q, filled, k), k, GetValue(hash, repeat))
    requires DpuSent(e, q, filled, before, sent, k)
    requires TouchedUpTo(e, q, sent, launched, |q.buffers|)
    requires DpuReceived(e, q, received, launched, k)
    ensures AllChecksHold(q, received, GetValue(hash, repeat), k) <==> q.length <= 6396 * 1024
    ensures forall j: nat :: j < q.length / 8 ==> BufferWords(q, received, k)[j] == FinalWord(hash, repeat, k, j)
  {
    hide SlotOfDpu, CountBefore, HeapWords, Touched, HostValue, DpuSent, DpuReceived, BufferWords, Request.Acceptable,
         Combine, ValueAt, Wrap64;
    BenchmarkEndToEnd(e, q, k, filled, received, before, sent, launched);
    TouchedWords(BufferWords(q, filled, k), k);
    forall j: nat | j < q.length / 8 ensures BufferWords(q, received, k)[j] == FinalWord(hash, repeat, k, j) {
      GeneratedValue(hash, k, j, repeat);
    }
  }

  /** One repetition, for any hash: the checks pass if and only if the buffers are no larger than the
      range the DPUs walk, or there is no DPU; the words received are the values sent, tagged where the
      DPUs have been. */
  method ThroughputRepetition(pim: DirectPimInterface, pool: nat, stride: nat, bufferSize: nat, heapAddress: nat,
                              repeat: nat, hash: nat -> uint64)
    returns (ok: bool)
    requires pim.Valid() && pim.Available(false) && IsMramSymbol(heapAddress)
    requires pool > 0 && bufferSize <= stride && pool + CountAll(pim.enabled) * stride <= pim.host.Length
    requires bufferSize % 8 == 0 && Translated(heapAddress, 0) % 8 == 0
    requires Translated(heapAddress, 0) + bufferSize <= MRAM_SIZE
    requires Translated(heapAddress, 0) + 8 * BUFFER_WORDS <= MRAM_SIZE
    requires repeat + 1 < 0x10_0000
    modifies pim.Regions(), pim.host
    ensures pim.Valid()
    ensures ok <==> bufferSize <= 6396 * 1024 || CountAll(pim.enabled) == 0
    ensures CountAll(pim.enabled) < 0x1000
    ensures var q := PoolRequest(pool, stride, bufferSize, CountAll(pim.enabled), Translated(heapAddress, 0));
      forall k: nat :: k < CountAll(pim.enabled) ==>
        && q.Address(k) + bufferSize <= pim.host.Length
        && forall j: nat :: j < bufferSize / 8 ==>
             BufferWords(q, pim.host[..], k)[j] == FinalWord(hash, repeat, k, j)
  {
    hide CountBefore, SlotOfDpu, Request.Separate, Request.Acceptable, BufferWords, PoolRequest, IsMramSymbol,
         Translated, FinalWord;
    var nrDpus := CountAll(pim.enabled);
    var q := PoolRequest(pool, stride, bufferSize, nrDpus, Translated(heapAddress, 0));
    CountBound(pim.enabled, |pim.enabled|, 0);
    PoolIsRequest(pool, stride, bufferSize, nrDpus, heapAddress);
    PoolSeparate(pool, stride, bufferSize, nrDpus, q.offset);
    PoolAcceptable(pim.enabled, pool, stride, bufferSize, q.offset, pim.host[..]);
    AcceptableRanges(pim.enabled, q, pim.host[..]);
    ok := RepeatOnBuffers(pim, q, heapAddress, repeat, hash);
  }

  /** The repetition on buffers that are in place: fill, send, launch, overwrite, receive and check. */
  method RepeatOnBuffers(pim: DirectPimInterface, q: Request, heapAddress: nat, repeat: nat, hash: nat -> uint64)
    returns (ok: bool)
    requires pim.Valid() && pim.Available(false) && IsMramSymbol(heapAddress)
    requires q.Acceptable(pim.enabled, pim.host[..]) && q.Separate()
    requires q == Request(q.buffers, 0, Translated(heapAddress, 0), q.length)
    requires |q.buffers| == CountAll(pim.enabled) < 0x1000 && repeat + 1 < 0x10_0000
    requires q.offset % 8 == 0 && q.length % 8 == 0 && q.offset + q.length <= MRAM_SIZE
    requires q.offset + 8 * BUFFER_WORDS <= MRAM_SIZE
    requires forall k: nat :: k < |q.buffers| ==> q.Address(k) != NULL && q.Address(k) + q.length <= pim.host.Length
    modifies pim.Regions(), pim.host
    ensures pim.Valid()
    ensures ok <==> q.length <= 6396 * 1024 || |q.buffers| == 0
    ensures forall k: nat :: k < |q.buffers| ==>
      forall j: nat :: j < q.length / 8 ==> BufferWords(q, pim.host[..], k)[j] == FinalWord(hash, repeat, k, j)
  {
    hide CountBefore, SlotOfDpu, Request.Separate, Request.Acceptable, DpuSent, DpuReceived, TouchedUpTo, HoldsValues,
         BufferWords, IsMramSymbol, Translated, AllChecksHold, GetValue, FinalWord, Mram;
    FillBuffers(pim.host, q, GetValue(hash, repeat));
    ghost var filled, mems0 := pim.host[..], pim.Mems();
    AcceptableSize(pim.enabled, q, old(pim.host[..]), filled);
    ghost var mems1 := SendAndLaunch(pim, q, heapAddress);
    ghost var mems2 := pim.Mems();
    assert forall k: nat :: k < |q.buffers| ==> DpuSent(pim.enabled, q, filled, mems0, mems1, k);
    FillBuffers(pim.host, q, GetValue(hash, repeat + 1));
    AcceptableSize(pim.enabled, q, filled, pim.host[..]);
    pim.ReceiveFromPIM(q.buffers, 0, heapAddress, 0, q.length, false);
    assert forall k: nat :: k < |q.buffers| ==> DpuReceived(pim.enabled, q, pim.host[..], mems2, k);
    ok := CheckReceived(pim.host, q, GetValue(hash, repeat));
    RepetitionOutcome(pim.enabled, q, hash, repeat, filled, pim.host[..], mems0, mems1, mems2);
  }

  /** The outcome of a repetition, from what its phases did. */
  lemma RepetitionOutcome(e: Topology, q: Request, hash: nat -> uint64, repeat: nat,
                          filled: seq<byte>, received: seq<byte>,
                          before: seq<Region>, sent: seq<Region>, launched: seq<Region>)
    requires q.Acceptable(e, filled) && q.Acceptable(e, received) && |q.buffers| == CountAll(e) < 0x1000
    requires |before| == |sent| == |launched| == |e| && q.length <= MRAM_SIZE && q.offset + q.length <= MRAM_SIZE
    requires repeat < 0x10_0000
    requires forall k: nat :: k < |q.buffers| ==>
      q.Address(k) != NULL && q.Address(k) + q.length <= |filled| && q.Address(k) + q.length <= |received|
    requires forall k: nat :: k < |q.buffers| ==> HoldsValues(BufferWords(q, filled, k), k, GetValue(hash, repeat))
    requires forall k: nat :: k < |q.buffers| ==> DpuSent(e, q, filled, before, sent, k)
    requires TouchedUpTo(e, q, sent, launched, |q.buffers|)
    requires forall k: nat :: k < |q.buffers| ==> DpuReceived(e, q, received, launched, k)
    ensures (forall k: nat :: k < |q.buffers| ==> AllChecksHold(q, received, GetValue(hash, repeat), k))
         <==> q.length <= 6396 * 1024 || |q.buffers| == 0
    ensures forall k: nat :: k < |q.buffers| ==>
      forall j: nat :: j < q.length / 8 ==> BufferWords(q, received, k)[j] == FinalWord(hash, repeat, k, j)
  {
    hide CountBefore, SlotOfDpu, Request.Acceptable, DpuSent, DpuReceived, TouchedUpTo, HoldsValues, BufferWords,
         AllChecksHold, GetValue, FinalWord;
    forall k: nat | k < |q.buffers|
      ensures AllChecksHold(q, received, GetValue(hash, repeat), k) <==> q.length <= 6396 * 1024
      ensures forall j: nat :: j < q.length / 8 ==> BufferWords(q, received, k)[j] == FinalWord(hash, repeat, k, j)
    {
      ChecksOfDpu(e, q, k, hash, repeat, filled, received, before, sent, launched);
    }
    if |q.buffers| > 0 {
      assert AllChecksHold(q, received, GetValue(hash, repeat), 0) <==> q.length <= 6396 * 1024;
    }
  }

  /** Send the filled buffers and let the DPUs run. */
  method SendAndLaunch(pim: DirectPimInterface, q: Request, heapAddress: nat) returns (ghost sent: seq<Region>)
    requires pim.Valid() && pim.Available(false) && IsMramSymbol(heapAddress) && q.Acceptable(pim.enabled, pim.host[..])
    requires q == Request(q.buffers, 0, Translated(heapAddress, 0), q.length)
    requires |q.buffers| == CountAll(pim.enabled) < TWO64
    requires q.offset % 8 == 0 && q.length % 8 == 0 && q.offset + q.length <= MRAM_SIZE
    requires q.offset + 8 * BUFFER_WORDS <= MRAM_SIZE
    modifies pim.Regions()
    ensures pim.Valid() && pim.host[..] == old(pim.host[..]) && |sent| == |pim.enabled|
    ensures forall k :: 0 <= k < |q.buffers| && q.Address(k) != NULL ==>
      DpuSent(pim.enabled, q, pim.host[..], old(pim.Mems()), sent, k)
    ensures TouchedUpTo(pim.enabled, q, sent, pim.Mems(), |q.buffers|)
  {
    hide CountBefore, SlotOfDpu, Request.Acceptable, DpuSent, TouchedUpTo, IsMramSymbol, Translated;
    pim.SendToPIM(q.buffers, 0, heapAddress, 0, q.length, false);
    sent := pim.Mems();
    LaunchAll(pim, q);
  }
}
