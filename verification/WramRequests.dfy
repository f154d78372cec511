/** A WRAM receive of all DPUs in use, rank by rank. */
module WramRequests {
  import opened Layout
  import opened Memory
  import opened RankMachine
  import opened Requests
  import opened Slots
  import opened Wram

  /** What one rank reads for a request. */
  function ReadOf(e: Topology, q: Request, i: nat): WramRead
    requires |q.buffers| == CountAll(e) && i < |e|
  {
    WramRead(q.offset / 4, q.length / 4, RankBuffers(e, q.buffers, q.bufferOffset, i))
  }

  /** Buffers inside host memory and apart, words inside every WRAM, and each position reached. */
  ghost predicate WramAcceptable(e: Topology, q: Request, host: seq<byte>, wram: seq<WramRank>) {
    && |q.buffers| == CountAll(e) && |wram| == |e| && q.Separate()
    && (forall k :: 0 <= k < |q.buffers| && q.Address(k) != NULL ==> q.Address(k) + q.length <= |host|)
    && forall i :: 0 <= i < |wram| ==>
         && wram[i].Valid() && wram[i].Onto()
         && forall s :: 0 <= s < SLOTS ==> 4 * (q.offset / 4 + q.length / 4) <= |wram[i].wram[s]|
  }

  /** DPU k's buffer holds the requested words of its WRAM. */
  ghost predicate DpuWordsReceived(e: Topology, q: Request, host: seq<byte>, wram: seq<WramRank>, k: nat)
    requires WramAcceptable(e, q, host, wram) && k < |q.buffers| && q.Address(k) != NULL
  {
    var (i, s) := SlotOfDpu(e, k);
    var w, n := q.offset / 4, q.length / 4;
    host[q.Address(k)..q.Address(k) + 4 * n] == wram[i].wram[s][4 * w..4 * (w + n)]
  }

  lemma DpuWordsRange(e: Topology, q: Request, host: seq<byte>, wram: seq<WramRank>, k: nat)
    requires WramAcceptable(e, q, host, wram) && k < |q.buffers| && q.Address(k) != NULL
    requires DpuWordsReceived(e, q, host, wram, k)
    ensures var w, n, p, (i, s) := q.offset / 4, q.length / 4, q.Address(k), SlotOfDpu(e, k);
      && p + 4 * n <= |host| && |wram[i].wram| == SLOTS && 4 * w + 4 * n <= |wram[i].wram[s]|
      && host[p..p + 4 * n] == wram[i].wram[s][4 * w..4 * w + 4 * n]
  {
    hide SlotOfDpu, CountBefore, Request.Separate;
  }

  /** Two ranks' buffers do not overlap, nor do two buffers of one rank. */
  lemma PositionOwner(e: Topology, q: Request, r1: nat, s1: nat, r2: nat, s2: nat, x: nat)
    requires |q.buffers| == CountAll(e) && q.Separate() && r1 < |e| && s1 < SLOTS && r2 < |e| && s2 < SLOTS
    requires ReadOf(e, q, r1).InBuffer(s1, x) && ReadOf(e, q, r2).InBuffer(s2, x)
    ensures r1 == r2 && s1 == s2
  {
    hide SlotOfDpu, CountBefore;
    var k1 := DpuOfBuffer(e, q, r1, s1);
    var k2 := DpuOfBuffer(e, q, r2, s2);
    assert q.Holds(k1, x) && q.Holds(k2, x);
  }

  lemma ReadFits(e: Topology, q: Request, host: seq<byte>, wram: seq<WramRank>, i: nat)
    requires WramAcceptable(e, q, host, wram) && i < |e|
    ensures ReadOf(e, q, i).Fits(wram[i], host)
  {
    hide SlotOfDpu, CountBefore, Request.Separate;
    var r := ReadOf(e, q, i);
    forall s | 0 <= s < SLOTS && r.buffers[s] != NULL ensures r.buffers[s] + r.Bytes() <= |host| {
      var k := DpuOfBuffer(e, q, i, s);
    }
    forall s1: nat, s2: nat, x: nat | s1 < SLOTS && s2 < SLOTS && r.InBuffer(s1, x) && r.InBuffer(s2, x)
      ensures s1 == s2
    {
      PositionOwner(e, q, i, s1, i, s2, x);
    }
  }

  ghost predicate PositionFilled(e: Topology, q: Request, host: seq<byte>, wram: seq<WramRank>, r: nat, s: nat)
    requires r < |e| && |q.buffers| == CountAll(e) && |wram| == |e| && s < SLOTS
  {
    ReadOf(e, q, r).Fits(wram[r], host) && ReadOf(e, q, r).Filled(wram[r], host, s)
  }

  /** Every position of the first n ranks is filled. */
  ghost predicate RanksFilled(e: Topology, q: Request, host: seq<byte>, wram: seq<WramRank>, n: nat)
    requires n <= |e| && |q.buffers| == CountAll(e) && |wram| == |e|
  {
    forall r: nat, s: nat :: r < n && s < SLOTS ==> PositionFilled(e, q, host, wram, r, s)
  }

  lemma RankKeepsOthers(e: Topology, q: Request, h: seq<byte>, h': seq<byte>, wram: seq<WramRank>, i: nat)
    requires WramAcceptable(e, q, h, wram) && i < |e| && RanksFilled(e, q, h, wram, i)
    requires ReadOf(e, q, i).Fits(wram[i], h') && OnlyBuffers(ReadOf(e, q, i), h, h')
    requires forall s: nat :: s < SLOTS ==> ReadOf(e, q, i).Filled(wram[i], h', s)
    ensures WramAcceptable(e, q, h', wram) && RanksFilled(e, q, h', wram, i + 1)
  {
    hide SlotOfDpu, CountBefore, Request.Separate, ReadOf, WramRead.Fits;
    assert |h'| == |h|;
    forall r: nat, s: nat | r < i + 1 && s < SLOTS
      ensures PositionFilled(e, q, h', wram, r, s)
    {
      ReadFits(e, q, h', wram, r);
      if r < i {
        assert PositionFilled(e, q, h, wram, r, s);
        OtherRankStaysFilled(e, q, h, h', wram, i, r, s);
      }
    }
  }

  lemma OtherRankStaysFilled(e: Topology, q: Request, h: seq<byte>, h': seq<byte>, wram: seq<WramRank>,
                             i: nat, r: nat, s: nat)
    requires WramAcceptable(e, q, h, wram) && i < |e| && r < |e| && r != i && s < SLOTS
    requires |h'| == |h| && OnlyBuffers(ReadOf(e, q, i), h, h')
    requires ReadOf(e, q, r).Fits(wram[r], h) && ReadOf(e, q, r).Fits(wram[r], h')
    requires ReadOf(e, q, r).Filled(wram[r], h, s)
    ensures ReadOf(e, q, r).Filled(wram[r], h', s)
  {
    hide SlotOfDpu, CountBefore, Request.Separate, RankBuffers;
    var read := ReadOf(e, q, r);
    if read.buffers[s] != NULL {
      var p, n := read.buffers[s], read.Bytes();
      forall x: nat | p <= x < p + n ensures h'[x] == h[x] {
        assert read.InBuffer(s, x);
        forall s': nat | s' < SLOTS ensures !ReadOf(e, q, i).InBuffer(s', x) {
          if ReadOf(e, q, i).InBuffer(s', x) {
            PositionOwner(e, q, r, s, i, s', x);
            assert false;
          }
        }
      }
      assert h'[p..p + n] == h[p..p + n];
    }
  }

  lemma PositionIsHeld(e: Topology, q: Request, i: nat, s: nat, x: nat) returns (k: nat)
    requires |q.buffers| == CountAll(e) && i < |e| && s < SLOTS && ReadOf(e, q, i).InBuffer(s, x)
    ensures k < |q.buffers| && q.Holds(k, x)
  {
    hide SlotOfDpu, CountBefore;
    k := DpuOfBuffer(e, q, i, s);
  }

  /** A rank's read touches only bytes of some DPU's buffer. */
  lemma ReadTouchesHeld(e: Topology, q: Request, h: seq<byte>, h': seq<byte>, i: nat, x: nat)
    requires |q.buffers| == CountAll(e) && i < |e| && OnlyBuffers(ReadOf(e, q, i), h, h') && x < |h|
    requires forall k: nat :: k < |q.buffers| ==> !q.Holds(k, x)
    ensures h'[x] == h[x]
  {
    hide SlotOfDpu, CountBefore;
    forall s: nat | s < SLOTS ensures !ReadOf(e, q, i).InBuffer(s, x) {
      if ReadOf(e, q, i).InBuffer(s, x) {
        var k := PositionIsHeld(e, q, i, s, x);
        assert false;
      }
    }
  }

  lemma FilledIsReceived(e: Topology, q: Request, host: seq<byte>, wram: seq<WramRank>, k: nat)
    requires WramAcceptable(e, q, host, wram) && RanksFilled(e, q, host, wram, |e|)
    requires k < |q.buffers| && q.Address(k) != NULL
    ensures DpuWordsReceived(e, q, host, wram, k)
  {
    hide SlotOfDpu, CountBefore, Request.Separate;
    var (i, s) := SlotOfDpu(e, k);
    BufferOfDpu(e, q, k);
    assert PositionFilled(e, q, host, wram, i, s);
  }

  /** Filling every DPU of every interface fills every position. */
  lemma EveryPositionFilled(k: WramRank, r: WramRead, host: seq<byte>)
    requires r.Fits(k, host) && k.Onto()
    requires forall d: nat, c: nat :: k.Has(d, c) ==> r.Filled(k, host, k.slotOf(d, c))
    ensures forall s: nat :: s < SLOTS ==> r.Filled(k, host, s)
  {
    hide WramRead.Filled, WramRead.Fits;
    forall s: nat | s < SLOTS ensures r.Filled(k, host, s) {
      assert k.Reaches(s);
      var d: nat, c: nat :| k.Has(d, c) && k.slotOf(d, c) == s;
    }
  }
}
