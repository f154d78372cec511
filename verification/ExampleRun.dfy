/** The example's correctness test from end to end, on the interface and the mapped regions. */
module ExampleRun {
  import opened Bits
  import opened DirectInterface
  import opened ExampleDpu
  import opened ExampleHost
  import opened HostBuffers
  import opened Launch
  import opened Layout
  import opened Memory
  import opened RankMachine
  import opened RankTransfers
  import opened Requests
  import opened Slots
  import opened Words

  // ----- checking -----

  /** How many DPUs' buffers hold an unexpected word. */
  ghost function BadDpus(q: Request, host: seq<byte>, seed: uint64, k: nat): (r: nat)
    requires k <= |q.buffers| < TWO64 && q.length <= MRAM_SIZE
    requires forall k: nat :: k < |q.buffers| ==> q.Address(k) + q.length <= |host|
  {
    if k == 0 then 0
    else BadDpus(q, host, seed, k - 1)
         + (if HostErrors(BufferWords(q, host, k - 1), k - 1, seed, q.length / 8) > 0 then 1 else 0)
  }

  lemma {:induction false} NoBadDpus(q: Request, host: seq<byte>, seed: uint64, k: nat)
    requires k <= |q.buffers| < TWO64 && q.length <= MRAM_SIZE
    requires forall k: nat :: k < |q.buffers| ==> q.Address(k) + q.length <= |host|
    ensures BadDpus(q, host, seed, k) == 0 <==>
      forall d: nat :: d < k ==> HostErrors(BufferWords(q, host, d), d, seed, q.length / 8) == 0
  {
    hide HostErrors, BufferWords;
    if k > 0 {
      NoBadDpus(q, host, seed, k - 1);
    }
  }

  ghost function BadDpusAt(q: Request, host: seq<byte>, seed: uint64, k: nat): set<nat>
    requires k <= |q.buffers| < TWO64 && q.length <= MRAM_SIZE
    requires forall k: nat :: k < |q.buffers| ==> q.Address(k) + q.length <= |host|
  {
    set d: nat | d < k && UnexpectedAt(BufferWords(q, host, d), d, seed, q.length / 8) != {}
  }

  /** The count is the number of DPUs whose buffer holds an unexpected word. */
  lemma {:induction false} BadDpusCount(q: Request, host: seq<byte>, seed: uint64, k: nat)
    requires k <= |q.buffers| < TWO64 && q.length <= MRAM_SIZE
    requires forall k: nat :: k < |q.buffers| ==> q.Address(k) + q.length <= |host|
    ensures BadDpus(q, host, seed, k)
         == |set d: nat | d < k && UnexpectedAt(BufferWords(q, host, d), d, seed, q.length / 8) != {}|
  {
    hide HostErrors, BufferWords, UnexpectedAt;
    var all := BadDpusAt(q, host, seed, k);
    if k == 0 {
      assert all == {};
    } else {
      BadDpusCount(q, host, seed, k - 1);
      var before := BadDpusAt(q, host, seed, k - 1);
      var ws := BufferWords(q, host, k - 1);
      HostErrorsCount(ws, k - 1, seed, q.length / 8);
      assert all == if UnexpectedAt(ws, k - 1, seed, q.length / 8) != {} then before + {k - 1} else before;
    }
  }

  /** The check loop of one buffer. */
  method CheckBuffer(p: seq<uint64>, i: nat, seed: uint64) returns (errs: nat)
    requires |p| <= MRAM_WORDS && i < TWO64
    ensures errs == HostErrors(p, i, seed, |p|) == |UnexpectedAt(p, i, seed, |p|)|
  {
    hide HostExpected, UnexpectedAt;
    errs := 0;
    for j: nat := 0 to |p|
      invariant errs == HostErrors(p, i, seed, j)
    {
      if p[j] != HostExpected(i, j, seed) {
        errs := errs + 1;
      }
    }
    HostErrorsCount(p, i, seed, |p|);
  }

  /** The check loop over the buffers. */
  method CheckBuffers(host: array<byte>, q: Request, seed: uint64) returns (hostErrDpus: nat)
    requires q.length % 8 == 0 && q.length <= MRAM_SIZE && |q.buffers| < TWO64
    requires forall k: nat :: k < |q.buffers| ==> q.Address(k) + q.length <= host.Length
    ensures hostErrDpus == BadDpus(q, host[..], seed, |q.buffers|)
    ensures hostErrDpus
         == |set k: nat | k < |q.buffers| && UnexpectedAt(BufferWords(q, host[..], k), k, seed, q.length / 8) != {}|
  {
    hide WordsOf, HostErrors, UnexpectedAt;
    hostErrDpus := 0;
    for i: nat := 0 to |q.buffers|
      invariant hostErrDpus == BadDpus(q, host[..], seed, i)
    {
      var errs := CheckBuffer(WordsOf(host[q.Address(i)..q.Address(i) + q.length]), i, seed);
      if errs > 0 {
        hostErrDpus := hostErrDpus + 1;
      }
    }
    BadDpusCount(q, host[..], seed, |q.buffers|);
  }

  // ----- launching -----

  /** DPUs before k have run, the others are as they were. */
  ghost predicate RanUpTo(e: Topology, q: Request, before: seq<Region>, after: seq<Region>, seed: uint64,
                          stale: seq<uint64>, counts: seq<uint64>, k: nat)
    requires |q.buffers| == CountAll(e) < TWO64 && q.offset + q.length <= MRAM_SIZE
  {
    && |before| == |after| == |e| && |stale| == |counts| == |q.buffers|
    && (forall m: nat :: m < k && m < |q.buffers| ==> DpuRan(e, q, before, after, m, seed, stale[m], counts[m]))
    && (forall m: nat {:trigger counts[m]} {:trigger HeapWords(e, q, after, m)} :: k <= m < |q.buffers| ==>
          HeapWords(e, q, after, m) == HeapWords(e, q, before, m) && counts[m] == stale[m])
  }

  lemma RanNext(e: Topology, q: Request, before: seq<Region>, u: seq<Region>, after: seq<Region>, seed: uint64,
                stale: seq<uint64>, c: seq<uint64>, counts: seq<uint64>, k: nat)
    requires |q.buffers| == CountAll(e) < TWO64 && q.offset + q.length <= MRAM_SIZE && k < |q.buffers|
    requires RanUpTo(e, q, before, u, seed, stale, c, k) && |counts| == |c|
    requires OnlySlot(u, after, SlotOfDpu(e, k).0, SlotOfDpu(e, k).1)
    requires DpuRan(e, q, u, after, k, seed, stale[k], counts[k]) && counts == c[k := counts[k]]
    ensures RanUpTo(e, q, before, after, seed, stale, counts, k + 1)
  {
    hide SlotOfDpu, CountBefore, HeapWords, Tagged, Mismatches;
    forall m: nat | m < |q.buffers| && m != k ensures HeapWords(e, q, after, m) == HeapWords(e, q, u, m) {
      OtherHeapKept(e, q, u, after, k, m);
    }
    assert HeapWords(e, q, u, k) == HeapWords(e, q, before, k);
  }

  /** Launch: every DPU runs its program on its own MRAM. */
  method LaunchAll(pim: DirectPimInterface, q: Request, seed: uint64, errorCounts: array<uint64>)
    requires pim.Valid() && |q.buffers| == CountAll(pim.enabled) < TWO64 && errorCounts.Length == |q.buffers|
    requires q.offset % 8 == 0 && q.length % 8 == 0 && q.offset + q.length <= MRAM_SIZE
    modifies pim.Regions(), errorCounts
    ensures pim.Valid() && pim.host[..] == old(pim.host[..])
    ensures RanUpTo(pim.enabled, q, old(pim.Mems()), pim.Mems(), seed,
                    old(errorCounts[..]), errorCounts[..], |q.buffers|)
  {
    hide FindSlot, CountBefore, HeapWords, RanUpTo, OnlySlot, DpuRan;
    ghost var e, before, stale, h := pim.enabled, pim.Mems(), errorCounts[..], pim.host[..];
    NothingRan(e, q, before, seed, stale);
    for k: nat := 0 to |q.buffers|
      invariant pim.Valid() && pim.host[..] == h
      invariant RanUpTo(e, q, before, pim.Mems(), seed, stale, errorCounts[..], k)
    {
      ghost var u, c := pim.Mems(), errorCounts[..];
      StaleCount(e, q, before, u, seed, stale, c, k);
      LaunchOne(pim, q, seed, errorCounts, k);
      RanNext(e, q, before, u, pim.Mems(), seed, stale, c, errorCounts[..], k);
    }
  }

  lemma NothingRan(e: Topology, q: Request, mems: seq<Region>, seed: uint64, stale: seq<uint64>)
    requires |q.buffers| == CountAll(e) < TWO64 && q.offset + q.length <= MRAM_SIZE
    requires |mems| == |e| && |stale| == |q.buffers|
    ensures RanUpTo(e, q, mems, mems, seed, stale, stale, 0)
  {
  }

  lemma StaleCount(e: Topology, q: Request, before: seq<Region>, after: seq<Region>, seed: uint64,
                   stale: seq<uint64>, counts: seq<uint64>, k: nat)
    requires |q.buffers| == CountAll(e) < TWO64 && q.offset + q.length <= MRAM_SIZE && k < |q.buffers|
    requires RanUpTo(e, q, before, after, seed, stale, counts, k)
    ensures |stale| == |counts| == |q.buffers| && counts[k] == stale[k]
  {
    hide HeapWords;
  }

  method LaunchOne(pim: DirectPimInterface, q: Request, seed: uint64, errorCounts: array<uint64>, k: nat)
    requires pim.Valid() && |q.buffers| == CountAll(pim.enabled) < TWO64 && errorCounts.Length == |q.buffers|
    requires q.offset % 8 == 0 && q.length % 8 == 0 && q.offset + q.length <= MRAM_SIZE && k < |q.buffers|
    modifies pim.Regions(), errorCounts
    ensures pim.Valid() && pim.host[..] == old(pim.host[..])
    ensures errorCounts[..] == old(errorCounts[..])[k := errorCounts[k]]
    ensures OnlySlot(old(pim.Mems()), pim.Mems(), SlotOfDpu(pim.enabled, k).0, SlotOfDpu(pim.enabled, k).1)
    ensures DpuRan(pim.enabled, q, old(pim.Mems()), pim.Mems(), k, seed, old(errorCounts[k]), errorCounts[k])
  {
    hide FindSlot, CountBefore, Mram, WordsOf, Tagged, Mismatches;
    var (i, s) := SlotOfDpu(pim.enabled, k);
    errorCounts[k] := RunOnSlot(pim.ranks[i].mem, s, k, q.offset, seed, q.length / 8, errorCounts[k]);
  }

  /** The whole test: no buffer fails on the host, each holds the tagged pattern, and no DPU reports errors
      unless there was nothing to check; then those report that an earlier run had left a count for. */
  method TestMRAMWithDPU(pim: DirectPimInterface, pool: nat, bufferSize: nat, heapAddress: nat, seed: uint64,
                         errorCounts: array<uint64>)
    returns (dpuErrors: nat, hostErrDpus: nat)
    requires pim.Valid() && pim.Available(false) && IsMramSymbol(heapAddress)
    requires pool > 0 && pool + CountAll(pim.enabled) * bufferSize <= pim.host.Length
    requires bufferSize % 8 == 0 && Translated(heapAddress, 0) % 8 == 0
    requires Translated(heapAddress, 0) + bufferSize <= MRAM_SIZE
    requires errorCounts.Length == CountAll(pim.enabled)
    modifies pim.Regions(), pim.host, errorCounts
    ensures pim.Valid()
    ensures hostErrDpus == 0
    ensures dpuErrors
         == if bufferSize > 0 then 0 else |set k: nat | k < errorCounts.Length && old(errorCounts[..])[k] > 0|
    ensures CountAll(pim.enabled) < TWO64 && bufferSize <= MRAM_SIZE
    ensures var q := PoolRequest(pool, bufferSize, bufferSize, CountAll(pim.enabled), Translated(heapAddress, 0));
      forall k: nat :: k < CountAll(pim.enabled) ==>
        && q.Address(k) + bufferSize <= pim.host.Length
        && forall j: nat :: j < bufferSize / 8 ==>
             BufferWords(q, pim.host[..], k)[j]
             == (ExpectedValue(k, j, seed) + k * 0x1_0000_0000 + j) % 0x1_0000_0000_0000_0000
  {
    hide CountBefore, SlotOfDpu, Request.Separate, Request.Acceptable, BufferWords, PoolRequest, IsMramSymbol,
         Translated, ExpectedValue, WordsOf;
    var nrDpus := CountAll(pim.enabled);
    var q := PoolRequest(pool, bufferSize, bufferSize, nrDpus, Translated(heapAddress, 0));
    CountBound(pim.enabled, |pim.enabled|, 0);
    PoolIsRequest(pool, bufferSize, bufferSize, nrDpus, heapAddress);
    PoolSeparate(pool, bufferSize, bufferSize, nrDpus, q.offset);
    PoolAcceptable(pim.enabled, pool, bufferSize, bufferSize, q.offset, pim.host[..]);
    AcceptableRanges(pim.enabled, q, pim.host[..]);
    dpuErrors, hostErrDpus := TestBuffers(pim, q, heapAddress, seed, errorCounts);
  }

  /** The test on buffers that are in place: fill, send, launch, count, clear, receive and check. */
  method TestBuffers(pim: DirectPimInterface, q: Request, heapAddress: nat, seed: uint64, errorCounts: array<uint64>)
    returns (dpuErrors: nat, hostErrDpus: nat)
    requires pim.Valid() && pim.Available(false) && IsMramSymbol(heapAddress)
    requires q.Acceptable(pim.enabled, pim.host[..]) && q.Separate()
    requires q == Request(q.buffers, 0, Translated(heapAddress, 0), q.length)
    requires |q.buffers| == CountAll(pim.enabled) < TWO64 && errorCounts.Length == CountAll(pim.enabled)
    requires q.offset % 8 == 0 && q.length % 8 == 0 && q.offset + q.length <= MRAM_SIZE
    requires forall k: nat :: k < |q.buffers| ==> q.Address(k) != NULL && q.Address(k) + q.length <= pim.host.Length
    modifies pim.Regions(), pim.host, errorCounts
    ensures pim.Valid()
    ensures hostErrDpus == 0
    ensures dpuErrors
         == if q.length > 0 then 0 else |set k: nat | k < errorCounts.Length && old(errorCounts[..])[k] > 0|
    ensures forall k: nat :: k < |q.buffers| ==>
      forall j: nat :: j < q.length / 8 ==>
        BufferWords(q, pim.host[..], k)[j]
        == (ExpectedValue(k, j, seed) + k * 0x1_0000_0000 + j) % 0x1_0000_0000_0000_0000
  {
    hide CountBefore, SlotOfDpu, Request.Separate, Request.Acceptable, DpuSent, DpuReceived, RanUpTo, Pattern,
         HoldsValues, BufferWords, BadDpus, PatternValue, IsMramSymbol, Translated, ExpectedValue, ReportingAt, Mram;
    FillBuffers(pim.host, q, PatternValue(seed));
    ghost var filled, mems0, stale := pim.host[..], pim.Mems(), errorCounts[..];
    forall k: nat | k < |q.buffers| ensures Pattern(BufferWords(q, filled, k), k, seed) {
      FilledIsPattern(BufferWords(q, filled, k), k, seed);
    }
    AcceptableSize(pim.enabled, q, old(pim.host[..]), filled);
    ghost var mems1 := SendAndLaunch(pim, q, heapAddress, seed, errorCounts);
    ghost var mems2, counts := pim.Mems(), errorCounts[..];
    assert forall k: nat :: k < |q.buffers| ==> DpuSent(pim.enabled, q, filled, mems0, mems1, k);
    dpuErrors := CountErrors(errorCounts);
    ClearBuffers(pim.host, q);
    AcceptableSize(pim.enabled, q, filled, pim.host[..]);
    pim.ReceiveFromPIM(q.buffers, 0, heapAddress, 0, q.length, false);
    assert forall k: nat :: k < |q.buffers| ==> DpuReceived(pim.enabled, q, pim.host[..], mems2, k);
    hostErrDpus := CheckBuffers(pim.host, q, seed);
    TestOutcome(pim.enabled, q, seed, filled, pim.host[..], mems0, mems1, mems2, stale, counts);
  }

  /** Send the filled buffers and let the DPUs run. */
  method SendAndLaunch(pim: DirectPimInterface, q: Request, heapAddress: nat, seed: uint64, errorCounts: array<uint64>)
    returns (ghost sent: seq<Region>)
    requires pim.Valid() && pim.Available(false) && IsMramSymbol(heapAddress) && q.Acceptable(pim.enabled, pim.host[..])
    requires q == Request(q.buffers, 0, Translated(heapAddress, 0), q.length)
    requires |q.buffers| == CountAll(pim.enabled) < TWO64 && errorCounts.Length == |q.buffers|
    requires q.offset % 8 == 0 && q.length % 8 == 0 && q.offset + q.length <= MRAM_SIZE
    modifies pim.Regions(), errorCounts
    ensures pim.Valid() && pim.host[..] == old(pim.host[..]) && |sent| == |pim.enabled|
    ensures forall k :: 0 <= k < |q.buffers| && q.Address(k) != NULL ==>
      DpuSent(pim.enabled, q, pim.host[..], old(pim.Mems()), sent, k)
    ensures RanUpTo(pim.enabled, q, sent, pim.Mems(), seed, old(errorCounts[..]), errorCounts[..], |q.buffers|)
  {
    hide CountBefore, SlotOfDpu, Request.Acceptable, DpuSent, RanUpTo, IsMramSymbol, Translated;
    pim.SendToPIM(q.buffers, 0, heapAddress, 0, q.length, false);
    sent := pim.Mems();
    LaunchAll(pim, q, seed, errorCounts);
  }

  /** Which DPUs have a count above zero, of the first n. */
  ghost function ReportingAt(counts: seq<uint64>, n: nat): set<nat>
    requires n <= |counts|
  {
    set k: nat | k < n && counts[k] > 0
  }

  lemma ReportingNext(counts: seq<uint64>, n: nat)
    requires n < |counts|
    ensures ReportingAt(counts, 0) == {}
    ensures |ReportingAt(counts, n + 1)| == |ReportingAt(counts, n)| + (if counts[n] > 0 then 1 else 0)
  {
    assert ReportingAt(counts, n + 1) == if counts[n] > 0 then ReportingAt(counts, n) + {n} else ReportingAt(counts, n);
  }

  /** How many DPUs report errors. */
  method CountErrors(errorCounts: array<uint64>) returns (dpuErrors: nat)
    ensures dpuErrors == |set k: nat | k < errorCounts.Length && errorCounts[k] > 0|
    ensures dpuErrors == |ReportingAt(errorCounts[..], errorCounts.Length)|
  {
    dpuErrors := 0;
    for i: nat := 0 to errorCounts.Length
      invariant dpuErrors == |ReportingAt(errorCounts[..], i)|
    {
      ReportingNext(errorCounts[..], i);
      var e := errorCounts[i];
      if e > 0 {
        dpuErrors := dpuErrors + 1;
      }
    }
    assert ReportingAt(errorCounts[..], errorCounts.Length)
        == set k: nat | k < errorCounts.Length && errorCounts[k] > 0;
  }

  /** The outcome of the whole test, from what its four phases did. */
  lemma TestOutcome(e: Topology, q: Request, seed: uint64, filled: seq<byte>, received: seq<byte>,
                    before: seq<Region>, sent: seq<Region>, launched: seq<Region>,
                    stale: seq<uint64>, counts: seq<uint64>)
    requires q.Acceptable(e, filled) && q.Acceptable(e, received) && |q.buffers| == CountAll(e) < TWO64
    requires |before| == |sent| == |launched| == |e| && |stale| == |counts| == |q.buffers|
    requires forall k: nat :: k < |q.buffers| ==> q.Address(k) != NULL
    requires forall k: nat :: k < |q.buffers| ==>
      q.Address(k) + q.length <= |filled| && q.Address(k) + q.length <= |received|
    requires q.offset + q.length <= MRAM_SIZE
    requires forall k: nat :: k < |q.buffers| ==> Pattern(BufferWords(q, filled, k), k, seed)
    requires forall k: nat :: k < |q.buffers| ==> DpuSent(e, q, filled, before, sent, k)
    requires RanUpTo(e, q, sent, launched, seed, stale, counts, |q.buffers|)
    requires forall k: nat :: k < |q.buffers| ==> DpuReceived(e, q, received, launched, k)
    ensures BadDpus(q, received, seed, |q.buffers|) == 0
    ensures |ReportingAt(counts, |counts|)| == if q.length > 0 then 0 else |set k: nat | k < |stale| && stale[k] > 0|
    ensures forall k: nat :: k < |q.buffers| ==>
      forall j: nat :: j < q.length / 8 ==>
        BufferWords(q, received, k)[j]
        == (ExpectedValue(k, j, seed) + k * 0x1_0000_0000 + j) % 0x1_0000_0000_0000_0000
  {
    hide CountBefore, SlotOfDpu, Request.Acceptable, DpuSent, DpuReceived, DpuRan, Pattern, BufferWords, HeapWords,
         HostErrors, ExpectedValue;
    forall k: nat | k < |q.buffers|
      ensures HostErrors(BufferWords(q, received, k), k, seed, q.length / 8) == 0
      ensures counts[k] == if q.length > 0 then 0 else stale[k]
    {
      assert DpuRan(e, q, sent, launched, k, seed, stale[k], counts[k]);
      ExampleEndToEnd(e, q, seed, k, filled, received, before, sent, launched, stale[k], counts[k]);
    }
    NoBadDpus(q, received, seed, |q.buffers|);
    forall k: nat | k < |q.buffers|
      ensures forall j: nat :: j < q.length / 8 ==>
        BufferWords(q, received, k)[j]
        == (ExpectedValue(k, j, seed) + k * 0x1_0000_0000 + j) % 0x1_0000_0000_0000_0000
    {
      NoErrorsMeansExpected(BufferWords(q, received, k), k, seed, q.length / 8);
    }
    if q.length > 0 {
      assert ReportingAt(counts, |counts|) == {};
    } else {
      assert ReportingAt(counts, |counts|) == set k: nat | k < |stale| && stale[k] > 0;
    }
  }
}
