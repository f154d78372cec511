/** Host buffers of all DPUs: where they lie, how they are filled, and the words they and the DPUs'
    MRAM ranges hold. */
module HostBuffers {
  import opened Bits
  import opened DirectInterface
  import opened Layout
  import opened Memory
  import opened RankMachine
  import opened RankTransfers
  import opened Requests
  import opened Slots
  import opened Words

  /** The words of DPU k's buffer. */
  function BufferWords(q: Request, host: seq<byte>, k: nat): (ws: seq<uint64>)
    requires k < |q.buffers| && q.Address(k) + q.length <= |host|
    ensures |ws| == q.length / 8
  {
    WordsOf(host[q.Address(k)..q.Address(k) + q.length])
  }

  /** The words of DPU k's MRAM range. */
  function HeapWords(e: Topology, q: Request, mems: seq<Region>, k: nat): (ws: seq<uint64>)
    requires |mems| == |e| && |q.buffers| == CountAll(e) && k < |q.buffers| && q.offset + q.length <= MRAM_SIZE
    ensures |ws| == q.length / 8
  {
    var (i, s) := SlotOfDpu(e, k);
    WordsOf(Mram(mems[i], s)[q.offset..q.offset + q.length])
  }

  lemma {:induction false} CountBound(e: Topology, i: nat, j: nat)
    requires i <= |e| && j <= SLOTS && (i == |e| ==> j == 0)
    ensures CountBefore(e, i, j) <= 64 * i + j
    decreases i, j
  {
    if j > 0 {
      CountBound(e, i, j - 1);
    } else if i > 0 {
      CountBound(e, i - 1, SLOTS);
    }
  }

  // ----- filling -----

  /** Buffers laid out by a stride in a pool. */
  function PoolRequest(pool: nat, stride: nat, size: nat, count: nat, offset: nat): (q: Request)
    ensures |q.buffers| == count && q.length == size && q.offset == offset
    ensures forall k: nat :: k < count ==> q.Address(k) == pool + k * stride
  {
    Request(seq(count, k requires 0 <= k < count => pool + k * stride), 0, offset, size)
  }

  lemma {:induction false} NextBuffer(k1: nat, k2: nat, stride: nat)
    requires k1 < k2
    ensures k1 * stride + stride <= k2 * stride
  {
    assert (k2 - 1) * stride + stride == k2 * stride;
    if k1 < k2 - 1 {
      NextBuffer(k1, k2 - 1, stride);
    }
  }

  /** Buffers no longer than their stride do not overlap. */
  lemma PoolSeparate(pool: nat, stride: nat, size: nat, count: nat, offset: nat)
    requires size <= stride
    ensures PoolRequest(pool, stride, size, count, offset).Separate()
  {
    var q := PoolRequest(pool, stride, size, count, offset);
    forall k1: nat, k2: nat, x: nat | k1 < count && k2 < count && q.Holds(k1, x) && q.Holds(k2, x) ensures k1 == k2 {
      if k1 < k2 {
        NextBuffer(k1, k2, stride);
      } else if k2 < k1 {
        NextBuffer(k2, k1, stride);
      }
    }
  }

  lemma PoolAcceptable(e: Topology, pool: nat, stride: nat, size: nat, offset: nat, host: seq<byte>)
    requires pool > 0 && size % 8 == 0 && offset % 8 == 0 && offset + size <= MRAM_SIZE
    requires size <= stride && pool + CountAll(e) * stride <= |host|
    ensures PoolRequest(pool, stride, size, CountAll(e), offset).Acceptable(e, host)
  {
    forall k: nat | k < CountAll(e) ensures pool + k * stride + size <= |host| {
      NextBuffer(k, CountAll(e), stride);
    }
  }

  /** The words are the values of one DPU. */
  ghost predicate HoldsValues(ws: seq<uint64>, k: nat, value: (nat, nat) -> uint64) {
    forall j: nat :: j < |ws| ==> ws[j] == value(k, j)
  }

  /** Word j of DPU k's buffer has been filled. */
  ghost predicate WordFilled(q: Request, host: seq<byte>, k: nat, j: nat, value: (nat, nat) -> uint64)
    requires k < |q.buffers| && 8 * j + 8 <= q.length && q.Address(k) + q.length <= |host|
    requires k < TWO64 && j < TWO64
  {
    host[q.Address(k) + 8 * j..q.Address(k) + 8 * j + 8] == SplitWord(value(k, j), 8)
  }

  /** All buffers before k and the first j words of buffer k are filled. */
  ghost predicate FilledUpTo(q: Request, host: seq<byte>, k: nat, j: nat, value: (nat, nat) -> uint64)
    requires q.length % 8 == 0 && q.length <= MRAM_SIZE && |q.buffers| < TWO64
    requires forall k: nat :: k < |q.buffers| ==> q.Address(k) + q.length <= |host|
  {
    forall k': nat, j': nat :: k' < |q.buffers| && j' < q.length / 8 && (k' < k || (k' == k && j' < j)) ==>
      WordFilled(q, host, k', j', value)
  }

  lemma FillNext(q: Request, h: seq<byte>, h': seq<byte>, k: nat, j: nat, value: (nat, nat) -> uint64)
    requires q.length % 8 == 0 && q.length <= MRAM_SIZE && |q.buffers| < TWO64 && q.Separate()
    requires forall k: nat :: k < |q.buffers| ==> q.Address(k) != NULL && q.Address(k) + q.length <= |h|
    requires k < |q.buffers| && j < q.length / 8 && FilledUpTo(q, h, k, j, value)
    requires h' == Store(h, q.Address(k) + 8 * j, SplitWord(value(k, j), 8))
    ensures |h'| == |h| && FilledUpTo(q, h', k, j + 1, value)
  {
    hide SplitWord;
    var n := q.length / 8;
    forall k': nat, j': nat | k' < |q.buffers| && j' < n && (k' < k || (k' == k && j' < j + 1))
      ensures WordFilled(q, h', k', j', value)
    {
      var a, b := q.Address(k) + 8 * j, q.Address(k') + 8 * j';
      if k' == k && j' == j {
        assert h'[a..a + 8] == SplitWord(value(k, j), 8);
      } else {
        assert WordFilled(q, h, k', j', value);
        assert b + 8 <= a || a + 8 <= b by { WordsApart(q, k, j, k', j'); }
        OtherWordKept(h, a, SplitWord(value(k, j), 8), b);
      }
    }
  }

  lemma OtherWordKept(h: seq<byte>, a: nat, word: seq<byte>, b: nat)
    requires |word| == 8 && a + 8 <= |h| && b + 8 <= |h| && (b + 8 <= a || a + 8 <= b)
    ensures Store(h, a, word)[b..b + 8] == h[b..b + 8]
  {
  }

  lemma WordsApart(q: Request, k: nat, j: nat, k': nat, j': nat)
    requires q.Separate() && k < |q.buffers| && k' < |q.buffers| && q.Address(k) != NULL && q.Address(k') != NULL
    requires 8 * j + 8 <= q.length && 8 * j' + 8 <= q.length && (k != k' || j != j')
    ensures q.Address(k') + 8 * j' + 8 <= q.Address(k) + 8 * j || q.Address(k) + 8 * j + 8 <= q.Address(k') + 8 * j'
  {
    if k != k' {
      var x := if q.Address(k) + 8 * j <= q.Address(k') + 8 * j' then q.Address(k') + 8 * j' else q.Address(k) + 8 * j;
      if x < q.Address(k) + 8 * j + 8 && x < q.Address(k') + 8 * j' + 8 {
        assert q.Holds(k, x) && q.Holds(k', x);
      }
    }
  }

  lemma SliceOfSlice(s: seq<byte>, p: nat, n: nat, i: nat)
    requires p + n <= |s| && i + 8 <= n
    ensures s[p..p + n][i..i + 8] == s[p + i..p + i + 8]
  {
    var a, b := s[p..p + n][i..i + 8], s[p + i..p + i + 8];
    assert forall x :: 0 <= x < 8 ==> a[x] == b[x];
  }

  lemma FilledHolds(q: Request, host: seq<byte>, k: nat, value: (nat, nat) -> uint64)
    requires q.length % 8 == 0 && q.length <= MRAM_SIZE && |q.buffers| < TWO64
    requires forall k: nat :: k < |q.buffers| ==> q.Address(k) + q.length <= |host|
    requires k < |q.buffers| && FilledUpTo(q, host, |q.buffers|, 0, value)
    ensures HoldsValues(BufferWords(q, host, k), k, value)
  {
    hide SplitWord, JoinBytes;
    var ws := BufferWords(q, host, k);
    var bs := host[q.Address(k)..q.Address(k) + q.length];
    forall j: nat | j < |ws| ensures ws[j] == value(k, j) {
      assert WordFilled(q, host, k, j, value);
      SliceOfSlice(host, q.Address(k), q.length, 8 * j);
      WordOfStored(bs, j, value(k, j));
    }
  }

  /** The fill loops. */
  method FillBuffers(host: array<byte>, q: Request, value: (nat, nat) -> uint64)
    requires q.length % 8 == 0 && q.length <= MRAM_SIZE && |q.buffers| < TWO64 && q.Separate()
    requires forall k: nat :: k < |q.buffers| ==> q.Address(k) != NULL && q.Address(k) + q.length <= host.Length
    modifies host
    ensures forall k: nat :: k < |q.buffers| ==> HoldsValues(BufferWords(q, host[..], k), k, value)
  {
    hide SplitWord, Store, HoldsValues, BufferWords, Request.Separate;
    var n := q.length / 8;
    assert FilledUpTo(q, host[..], 0, 0, value);
    for i: nat := 0 to |q.buffers|
      invariant FilledUpTo(q, host[..], i, 0, value)
    {
      for j: nat := 0 to n
        invariant FilledUpTo(q, host[..], i, j, value)
      {
        ghost var h := host[..];
        StoreBytes(host, q.Address(i) + 8 * j, SplitWord(value(i, j), 8));
        FillNext(q, h, host[..], i, j, value);
      }
      assert FilledUpTo(q, host[..], i + 1, 0, value);
    }
    forall k: nat | k < |q.buffers| ensures HoldsValues(BufferWords(q, host[..], k), k, value) {
      FilledHolds(q, host[..], k, value);
    }
  }

  /** `memset` of every buffer to 0xFF. */
  method ClearBuffers(host: array<byte>, q: Request)
    requires forall k: nat :: k < |q.buffers| ==> q.Address(k) + q.length <= host.Length
    modifies host
    ensures forall k: nat, x: nat :: k < |q.buffers| && q.Address(k) <= x < q.Address(k) + q.length ==> host[x] == 0xFF
  {
    for i: nat := 0 to |q.buffers|
      invariant forall k: nat, x: nat :: k < i && q.Address(k) <= x < q.Address(k) + q.length ==> host[x] == 0xFF
    {
      forall x | q.Address(i) <= x < q.Address(i) + q.length {
        host[x] := 0xFF;
      }
    }
  }

  lemma PoolIsRequest(pool: nat, stride: nat, size: nat, count: nat, heapAddress: nat)
    ensures var q := PoolRequest(pool, stride, size, count, Translated(heapAddress, 0));
      q == Request(q.buffers, 0, Translated(heapAddress, 0), size)
  {
  }

  lemma BufferWordsIs(q: Request, host: seq<byte>, k: nat)
    requires k < |q.buffers| && q.Address(k) + q.length <= |host|
    ensures BufferWords(q, host, k) == WordsOf(host[q.Address(k)..q.Address(k) + q.length])
  {
  }

  /** Whether a request is acceptable depends only on the size of host memory. */
  lemma AcceptableSize(e: Topology, q: Request, h: seq<byte>, h': seq<byte>)
    requires q.Acceptable(e, h) && |h'| == |h|
    ensures q.Acceptable(e, h')
  {
  }

  lemma AcceptableRanges(e: Topology, q: Request, host: seq<byte>)
    requires q.Acceptable(e, host)
    ensures q.length % 8 == 0 && q.length <= MRAM_SIZE && |q.buffers| == CountAll(e)
    ensures forall k: nat :: k < |q.buffers| && q.Address(k) != NULL ==> q.Address(k) + q.length <= |host|
  {
  }

  // ----- device memory under one DPU's run -----

  /** Two device memories that differ at most in the MRAM of one slot of one rank. */
  ghost predicate OnlySlot(before: seq<Region>, after: seq<Region>, i: nat, s: nat) {
    && |after| == |before|
    && forall r: nat, slot: nat {:trigger Mram(after[r], slot)} ::
         r < |before| && slot < SLOTS && !(r == i && slot == s) ==> Mram(after[r], slot) == Mram(before[r], slot)
  }

  /** A run of DPU k leaves every other DPU's range alone. */
  lemma OtherHeapKept(e: Topology, q: Request, before: seq<Region>, after: seq<Region>, k: nat, m: nat)
    requires |q.buffers| == CountAll(e) && k < |q.buffers| && m < |q.buffers| && k != m
    requires q.offset + q.length <= MRAM_SIZE && |before| == |e|
    requires OnlySlot(before, after, SlotOfDpu(e, k).0, SlotOfDpu(e, k).1)
    ensures HeapWords(e, q, after, m) == HeapWords(e, q, before, m)
  {
    hide FindSlot, CountBefore, Mram, WordsOf;
    var (i, s) := SlotOfDpu(e, m);
    assert SlotOfDpu(e, k) != SlotOfDpu(e, m);
    assert Mram(after[i], s) == Mram(before[i], s);
  }
}
