/** The WRAM receive of one rank: for each DPU number inside the control interfaces, collect the
    buffers of the interfaces whose DPU is present and read them all with one masked transfer. */
module Wram {
  import opened Memory
  import opened RankMachine
  import opened RankTransfers
  import opened Layout

  const MAX_NR_CIS: nat := 8

  /** Shape of a rank: `slotOf(dpu, ci)` is the position in the buffer list of a DPU of a control
      interface, `wram` the WRAM bytes by position. */
  datatype WramRank = WramRank(nrDpusPerCi: nat, nrCis: nat, slotOf: (nat, nat) -> nat, wram: seq<seq<byte>>)
  {
    predicate Has(d: nat, c: nat) { d < nrDpusPerCi && c < nrCis }

    /** Every DPU has its own position. */
    ghost predicate Valid() {
      && nrCis <= MAX_NR_CIS && |wram| == SLOTS
      && (forall d, c :: Has(d, c) ==> slotOf(d, c) < SLOTS)
      && (forall d, c, d', c' :: Has(d, c) && Has(d', c') && slotOf(d, c) == slotOf(d', c') ==> d == d' && c == c')
    }

    /** Every position belongs to some DPU. */
    ghost predicate Onto() {
      forall s: nat :: s < SLOTS ==> Reaches(s)
    }

    ghost predicate Reaches(s: nat) {
      exists d: nat, c: nat :: Has(d, c) && slotOf(d, c) == s
    }
  }

  /** Which 32-bit words of WRAM are read, and the buffers they go to. */
  datatype WramRead = WramRead(wordOffset: nat, words: nat, buffers: seq<nat>)
  {
    function Bytes(): nat { 4 * words }

    predicate InBuffer(s: nat, q: nat)
      requires s < |buffers|
    {
      buffers[s] != NULL && buffers[s] <= q < buffers[s] + Bytes()
    }

    ghost predicate Fits(k: WramRank, host: seq<byte>) {
      && |buffers| == SLOTS && k.Valid()
      && (forall s :: 0 <= s < SLOTS ==> 4 * (wordOffset + words) <= |k.wram[s]|)
      && (forall s :: 0 <= s < SLOTS && buffers[s] != NULL ==> buffers[s] + Bytes() <= |host|)
      && (forall s1: nat, s2: nat, q: nat ::
            s1 < SLOTS && s2 < SLOTS && InBuffer(s1, q) && InBuffer(s2, q) ==> s1 == s2)
    }

    /** The buffer of position s, if present, holds the DPU's words. */
    ghost predicate Filled(k: WramRank, host: seq<byte>, s: nat)
      requires Fits(k, host) && s < SLOTS
    {
      buffers[s] != NULL ==>
        host[buffers[s]..buffers[s] + Bytes()] == k.wram[s][4 * wordOffset..4 * (wordOffset + words)]
    }
  }

  /** Bytes outside the buffer of position s are as before. */
  ghost predicate OnlyBuffer(r: WramRead, h: seq<byte>, h': seq<byte>, s: nat)
    requires s < |r.buffers|
  {
    |h'| == |h| && forall q: nat :: q < |h| && !r.InBuffer(s, q) ==> h'[q] == h[q]
  }

  lemma OtherStaysFilled(k: WramRank, r: WramRead, h: seq<byte>, h': seq<byte>, s: nat, other: nat)
    requires r.Fits(k, h) && r.Fits(k, h') && s < SLOTS && other < SLOTS && s != other
    requires OnlyBuffer(r, h, h', s) && r.Filled(k, h, other)
    ensures r.Filled(k, h', other)
  {
    if r.buffers[other] != NULL {
      var p := r.buffers[other];
      forall q: nat | p <= q < p + r.Bytes() ensures h'[q] == h[q] {
        assert r.InBuffer(other, q);
        assert !r.InBuffer(s, q);
      }
      assert h'[p..p + r.Bytes()] == h[p..p + r.Bytes()];
    }
  }

  /** Host bytes that belong to no buffer are as before. */
  ghost predicate OnlyBuffers(r: WramRead, h: seq<byte>, h': seq<byte>)
  {
    && |h'| == |h|
    && forall q: nat {:trigger h'[q]} ::
         q < |h| && (forall s: nat :: s < |r.buffers| ==> !r.InBuffer(s, q)) ==> h'[q] == h[q]
  }

  /** The DPUs that the loops have read when they are at DPU d and have handled c of its interfaces. */
  predicate WramDone(k: WramRank, d: nat, c: nat, d': nat, c': nat) {
    k.Has(d', c') && (d' < d || (d' == d && c' < c))
  }

  ghost predicate AllFilled(k: WramRank, r: WramRead, host: seq<byte>, d: nat, c: nat)
    requires r.Fits(k, host)
  {
    forall d': nat, c': nat :: WramDone(k, d, c, d', c') ==> r.Filled(k, host, k.slotOf(d', c'))
  }

  /** `ufi_wram_read`: one DPU of each control interface in the mask, through its pointer. */
  method MaskedRead(host: array<byte>, k: WramRank, r: WramRead, d: nat, mask: set<nat>, pointers: array<nat>)
    requires r.Fits(k, host[..]) && d < k.nrDpusPerCi && pointers.Length == MAX_NR_CIS
    requires forall c: nat :: c < k.nrCis ==> (c in mask <==> r.buffers[k.slotOf(d, c)] != NULL)
    requires forall c: nat :: c in mask && c < k.nrCis ==> pointers[c] == r.buffers[k.slotOf(d, c)]
    requires AllFilled(k, r, host[..], d, 0)
    modifies host
    ensures r.Fits(k, host[..]) && AllFilled(k, r, host[..], d, k.nrCis)
    ensures OnlyBuffers(r, old(host[..]), host[..])
  {
    ghost var h0 := host[..];
    for c: nat := 0 to k.nrCis
      invariant |host[..]| == |h0| && r.Fits(k, host[..])
      invariant AllFilled(k, r, host[..], d, c)
      invariant OnlyBuffers(r, h0, host[..])
    {
      ghost var s := k.slotOf(d, c);
      ghost var h := host[..];
      assert k.Has(d, c);
      if c in mask {
        StoreBytes(host, pointers[c], k.wram[k.slotOf(d, c)][4 * r.wordOffset..4 * (r.wordOffset + r.words)]);
        StoredIsFilled(k, r, h, host[..], s);
      }
      FillNext(k, r, h, host[..], d, c);
    }
  }

  lemma StoredIsFilled(k: WramRank, r: WramRead, h: seq<byte>, h': seq<byte>, s: nat)
    requires r.Fits(k, h) && s < SLOTS && r.buffers[s] != NULL
    requires h' == Store(h, r.buffers[s], k.wram[s][4 * r.wordOffset..4 * (r.wordOffset + r.words)])
    ensures r.Fits(k, h') && r.Filled(k, h', s) && OnlyBuffer(r, h, h', s)
  {
  }

  lemma FillNext(k: WramRank, r: WramRead, h: seq<byte>, h': seq<byte>, d: nat, c: nat)
    requires r.Fits(k, h) && r.Fits(k, h') && k.Has(d, c) && AllFilled(k, r, h, d, c)
    requires h' == h || OnlyBuffer(r, h, h', k.slotOf(d, c))
    requires r.Filled(k, h', k.slotOf(d, c))
    ensures AllFilled(k, r, h', d, c + 1)
    ensures OnlyBuffers(r, h, h')
  {
    hide WramRead.Filled;
    forall d': nat, c': nat | WramDone(k, d, c + 1, d', c') ensures r.Filled(k, h', k.slotOf(d', c')) {
      if !(d' == d && c' == c) {
        assert WramDone(k, d, c, d', c');
        if h' != h {
          OtherStaysFilled(k, r, h, h', k.slotOf(d, c), k.slotOf(d', c'));
        }
      }
    }
  }

  lemma OnlyBuffersTransitive(r: WramRead, h0: seq<byte>, h1: seq<byte>, h2: seq<byte>)
    requires OnlyBuffers(r, h0, h1) && OnlyBuffers(r, h1, h2)
    ensures OnlyBuffers(r, h0, h2)
  {
  }

  /** The pointer array is never cleared between DPU numbers: a masked read uses only the pointers set
      for the current one, so every present buffer is filled from its own DPU and nothing else changes. */
  method ReceiveFromRankWRAM(host: array<byte>, k: WramRank, r: WramRead)
    requires r.Fits(k, host[..])
    modifies host
    ensures r.Fits(k, host[..])
    ensures forall d: nat, c: nat :: k.Has(d, c) ==> r.Filled(k, host[..], k.slotOf(d, c))
    ensures OnlyBuffers(r, old(host[..]), host[..])
  {
    ghost var h0 := host[..];
    if r.words == 0 {
      return;
    }
    var pointers := new nat[MAX_NR_CIS](_ => NULL);
    for d: nat := 0 to k.nrDpusPerCi
      invariant |host[..]| == |h0| && r.Fits(k, host[..])
      invariant AllFilled(k, r, host[..], d, 0)
      invariant OnlyBuffers(r, h0, host[..])
    {
      ghost var h := host[..];
      var mask: set<nat> := {};
      for c: nat := 0 to k.nrCis
        invariant host[..] == h
        invariant forall b: nat :: b < c ==> (b in mask <==> r.buffers[k.slotOf(d, b)] != NULL)
        invariant forall b: nat :: b in mask ==> b < c && pointers[b] == r.buffers[k.slotOf(d, b)]
      {
        assert k.Has(d, c);
        var dst := r.buffers[k.slotOf(d, c)];
        if dst != NULL {
          pointers[c] := dst;
          mask := mask + {c};
        }
      }
      if mask != {} {
        MaskedRead(host, k, r, d, mask, pointers);
      } else {
        NothingPresent(k, r, h, d);
      }
      OnlyBuffersTransitive(r, h0, h, host[..]);
    }
  }

  lemma NothingPresent(k: WramRank, r: WramRead, h: seq<byte>, d: nat)
    requires r.Fits(k, h) && d < k.nrDpusPerCi && AllFilled(k, r, h, d, 0)
    requires forall c: nat :: c < k.nrCis ==> r.buffers[k.slotOf(d, c)] == NULL
    ensures AllFilled(k, r, h, d, k.nrCis)
  {
  }
}
