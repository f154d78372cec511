/** The direct interface: transfers between the host buffers of all DPUs in use and the MRAMs of
    every rank. */
module DirectInterface {
  import Bits
  import opened Layout
  import opened Memory
  import opened Programs
  import opened RankMachine
  import opened RankTransfers
  import opened ReceiveProofs
  import opened Requests
  import opened Schedules
  import opened SendProofs
  import opened Slots
  import opened Wram
  import opened WramRequests
  import opened World

  /** A receive does not use the scratch line of the model; any value stands for it. */
  ghost const NO_SCRATCH: Line := seq(64, _ => 0)

  class DirectPimInterface {
    const host: array<byte>
    const ranks: seq<MappedRank>
    const enabled: Topology
    /** The region mode of each rank is PERF. */
    const perfMode: seq<bool>
    var rankIdOfDpu: array<nat>
    /** What the WRAMs of each rank hold. */
    var wram: seq<WramRank>
    var sendMode: AccessMode
    var recvMode: AccessMode

    /** Ranks and host memory are disjoint, no region line is dirty, and the rank of each DPU is known. */
    ghost predicate Valid()
      reads this, ranks, rankIdOfDpu
    {
      Shaped() && forall i :: 0 <= i < |ranks| ==> ranks[i].CleanLines()
    }

    ghost predicate Shaped()
      reads this, rankIdOfDpu
    {
      && |ranks| == |enabled| && |perfMode| == |ranks|
      && (forall i :: 0 <= i < |ranks| ==> ranks[i].Valid() && ranks[i].mem != host)
      && (forall i, j :: 0 <= i < j < |ranks| ==> ranks[i] != ranks[j] && ranks[i].mem != ranks[j].mem)
      && rankIdOfDpu.Length == CountAll(enabled)
      && forall k :: 0 <= k < CountAll(enabled) ==> rankIdOfDpu[k] == SlotOfDpu(enabled, k).0
    }

    /** What a transfer may modify besides host memory. */
    ghost function Regions(): set<object> {
      (set i | 0 <= i < |ranks| :: ranks[i]) + (set i | 0 <= i < |ranks| :: ranks[i].mem)
    }

    /** Device memory of every rank. */
    ghost function Mems(): (m: seq<Region>)
      requires forall i :: 0 <= i < |ranks| ==> ranks[i].Valid()
      reads set i | 0 <= i < |ranks| :: ranks[i].mem
      ensures |m| == |ranks|
    {
      seq(|ranks|, i requires 0 <= i < |ranks| && ranks[i].Valid() reads set k | 0 <= k < |ranks| :: ranks[k].mem
                   => ranks[i].mem[..])
    }

    constructor (host: array<byte>, ranks: seq<MappedRank>, enabled: Topology, perfMode: seq<bool>, wram: seq<WramRank>)
      requires |ranks| == |enabled| && |perfMode| == |ranks|
      requires forall i :: 0 <= i < |ranks| ==> ranks[i].Valid() && ranks[i].mem != host && ranks[i].CleanLines()
      requires forall i, j :: 0 <= i < j < |ranks| ==> ranks[i] != ranks[j] && ranks[i].mem != ranks[j].mem
      ensures Valid() && this.host == host && this.ranks == ranks && this.enabled == enabled
      ensures this.perfMode == perfMode && this.wram == wram && sendMode == Original && recvMode == Original
    {
      this.host, this.ranks, this.enabled, this.perfMode, this.wram := host, ranks, enabled, perfMode, wram;
      sendMode, recvMode := Original, Original;
      var ids := RankIds(enabled);
      rankIdOfDpu := ids;
    }

    /** The rank of a DPU is the rank whose slot the DPU's buffer is assigned to. */
    method GetRankIdOfDpu(dpuId: nat) returns (r: nat)
      requires Valid() && dpuId < CountAll(enabled)
      ensures r < |ranks| && r == SlotOfDpu(enabled, dpuId).0
    {
      r := rankIdOfDpu[dpuId];
    }

    predicate Available(asyncTransfer: bool) {
      !asyncTransfer && forall i :: 0 <= i < |perfMode| ==> perfMode[i]
    }

    /** Only synchronous transfers, and only when every rank is in PERF mode. */
    method DirectAvailable(asyncTransfer: bool) returns (available: bool)
      requires Valid()
      ensures available == Available(asyncTransfer)
      ensures asyncTransfer ==> !available
      ensures !asyncTransfer ==> (available <==> forall i :: 0 <= i < |ranks| ==> perfMode[i])
    {
      if asyncTransfer {
        return false;
      }
      for i: nat := 0 to |ranks|
        invariant forall k :: 0 <= k < i ==> perfMode[k]
      {
        if !perfMode[i] {
          return false;
        }
      }
      return true;
    }

    /** Send: DPU k's MRAM range becomes its buffer and the rest of its MRAM stays; the host, the other
        lines of every region and the slots' bytes outside the range are untouched. */
    method SendToPIM(buffers: seq<nat>, bufferOffset: nat, symbolAddress: nat, symbolOffset: nat, length: nat,
                     asyncTransfer: bool)
      requires Valid() && IsMramSymbol(symbolAddress) && Available(asyncTransfer)
      requires Request(buffers, bufferOffset, Translated(symbolAddress, symbolOffset), length)
                 .Acceptable(enabled, host[..])
      modifies Regions()
      ensures Valid() && host[..] == old(host[..])
      ensures var q := Request(buffers, bufferOffset, Translated(symbolAddress, symbolOffset), length);
        && (forall i :: 0 <= i < |ranks| ==>
              && TransferOf(enabled, q, i).Fits(host[..])
              && Sent(TransferOf(enabled, q, i), host[..], old(ranks[i].mem[..]), ranks[i].mem[..]))
        && (forall k :: 0 <= k < |buffers| && q.Address(k) != NULL ==>
              DpuSent(enabled, q, host[..], old(Mems()), Mems(), k))
      ensures var a := (symbolAddress - 0x800_0000 + symbolOffset) % 0x1_0000_0000;
        && a + length <= MRAM_SIZE
        && forall k: nat :: k < |buffers| && buffers[k] + bufferOffset != NULL ==>
             var p, (i, s) := buffers[k] + bufferOffset, SlotOfDpu(enabled, k);
             && p + length <= host.Length
             && Mram(Mems()[i], s)
                == Mram(old(Mems())[i], s)[..a] + host[p..p + length] + Mram(old(Mems())[i], s)[a + length..]
    {
      hide Sent, Request.Acceptable, SlotOfDpu, CountBefore, Transfer.Fits, TransferOf, DpuSent, Mram, IsMramSymbol,
           Translated;
      ghost var q := Request(buffers, bufferOffset, Translated(symbolAddress, symbolOffset), length);
      ghost var h, before := host[..], Mems();
      SendRequest(buffers, bufferOffset, Translated(symbolAddress, symbolOffset), length);
      SentAtSymbol(enabled, q, symbolAddress, symbolOffset, h, before, Mems());
    }

    /** Spread the buffers over the slots and send to every rank. */
    method SendRequest(buffers: seq<nat>, bufferOffset: nat, offset: nat, length: nat)
      requires Valid() && Request(buffers, bufferOffset, offset, length).Acceptable(enabled, host[..])
      modifies Regions()
      ensures Valid() && host[..] == old(host[..])
      ensures var q := Request(buffers, bufferOffset, offset, length);
        && (forall i :: 0 <= i < |ranks| ==>
              && TransferOf(enabled, q, i).Fits(host[..])
              && Sent(TransferOf(enabled, q, i), host[..], old(ranks[i].mem[..]), ranks[i].mem[..]))
        && (forall k :: 0 <= k < |buffers| && q.Address(k) != NULL ==>
              DpuSent(enabled, q, host[..], old(Mems()), Mems(), k))
    {
      hide Sent, Request.Acceptable, SlotOfDpu, CountBefore, Transfer.Fits, DpuSent, RankBuffers;
      ghost var q := Request(buffers, bufferOffset, offset, length);
      ghost var h, before := host[..], Mems();
      AcceptableCount(enabled, q, h);
      var aligned := AlignBuffers(enabled, buffers, bufferOffset);
      SendToRanks(aligned, offset, length, q);
      AllSentToDpus(enabled, q, h, before, Mems());
    }

    /** The loop over the ranks, each with its window of the aligned buffers. */
    method SendToRanks(aligned: array<nat>, offset: nat, length: nat, ghost q: Request)
      requires Valid() && q.Acceptable(enabled, host[..]) && q.offset == offset && q.length == length
      requires aligned.Length == MAX_NR_RANKS * SLOTS
      requires forall r :: 0 <= r < |ranks| ==>
        aligned[64 * r..64 * r + 64] == RankBuffers(enabled, q.buffers, q.bufferOffset, r)
      requires aligned != rankIdOfDpu
      modifies Regions()
      ensures Valid() && host[..] == old(host[..])
      ensures forall r :: 0 <= r < |ranks| ==>
        && TransferOf(enabled, q, r).Fits(host[..])
        && Sent(TransferOf(enabled, q, r), host[..], old(ranks[r].mem[..]), ranks[r].mem[..])
    {
      hide Sent, Request.Acceptable, SlotOfDpu, CountBefore, Transfer.Fits, RankBuffers;
      ghost var h, before := host[..], Mems();
      AcceptableCount(enabled, q, h);
      for i: nat := 0 to |ranks|
        invariant Valid() && host[..] == h
        invariant forall r :: i <= r < |ranks| ==> Mems()[r] == before[r]
        invariant forall r :: 0 <= r < i ==>
          TransferOf(enabled, q, r).Fits(h) && Sent(TransferOf(enabled, q, r), h, before[r], Mems()[r])
      {
        AcceptableFits(enabled, q, h, i);
        var t := Transfer(offset, length, aligned[64 * i..64 * i + 64]);
        assert t == TransferOf(enabled, q, i);
        SendToRank(i, t);
      }
    }

    /** One rank's send. */
    method SendToRank(i: nat, t: Transfer)
      requires Valid() && i < |ranks| && t.Fits(host[..])
      modifies ranks[i], ranks[i].mem
      ensures Valid() && host[..] == old(host[..])
      ensures Sent(t, host[..], old(Mems())[i], Mems()[i])
      ensures Mems() == old(Mems())[i := Mems()[i]]
    {
      hide Sent, SlotOfDpu, CountBefore, Transfer.Fits;
      ghost var scratch := SendToRankMRAM(host, ranks[i], t, sendMode);
    }

    /** Host memory, device memories and caches of all ranks. */
    ghost function Current(): (w: World)
      requires forall i :: 0 <= i < |ranks| ==> ranks[i].Valid()
      reads host, ranks, set i | 0 <= i < |ranks| :: ranks[i].mem
      ensures |w.ranks| == |ranks|
    {
      World(host[..], seq(|ranks|, i requires 0 <= i < |ranks| && ranks[i].Valid()
                                     reads ranks, set k | 0 <= k < |ranks| :: ranks[k].mem
                                   => ranks[i].Value(NO_SCRATCH)))
    }

    /** The loop over the ranks: one of the schedules of their programs. */
    method ReceiveFromRanks(aligned: array<nat>, offset: nat, length: nat, ghost q: Request)
      requires Valid() && q.Acceptable(enabled, host[..]) && q.offset == offset && q.length == length
      requires aligned.Length == MAX_NR_RANKS * SLOTS
      requires forall r :: 0 <= r < |ranks| ==>
        aligned[64 * r..64 * r + 64] == RankBuffers(enabled, q.buffers, q.bufferOffset, r)
      requires aligned != rankIdOfDpu
      requires var ts := TransfersOf(enabled, q); Current().Accepts(ts) && AllSeparate(ts)
      modifies Regions(), host
      ensures Valid()
      ensures var ts := TransfersOf(enabled, q);
        && Collected(ts, old(Current()), host[..])
        && forall r :: 0 <= r < |ranks| ==> Settled(ts[r], old(Current()).ranks[r], Current().ranks[r])
    {
      hide Request.Acceptable, CountBefore, SlotOfDpu, Transfer.Fits, AllSeparate, ReceiveProgram, WorldRun, OneByOne,
           Collected, Settled, Run;
      AcceptableCount(enabled, q, host[..]);
      ghost var ts, w0 := TransfersOf(enabled, q), Current();
      ghost var programs := ReceivePrograms(ts, recvMode);
      ReceiveProgramsAllowed(ts, recvMode);
      OneByOneInterleaves(ts, programs);
      OneByOneStart(ts, w0, programs);
      assert w0.Clean();
      for i: nat := 0 to |ranks|
        invariant Shaped()
        invariant PermitsAll(ts, OneByOne(programs, i))
        invariant Current() == WorldRun(ts, w0, OneByOne(programs, i))
      {
        ghost var u := Current();
        assert u.Accepts(ts);
        RunLifted(ts, w0, OneByOne(programs, i), i, programs[i]);
        OneByOneNext(programs, i);
        var t := Transfer(offset, length, aligned[64 * i..64 * i + 64]);
        assert t == ts[i];
        ReceiveFromRank(i, t);
      }
      AnyScheduleReceives(ts, recvMode, w0, OneByOne(programs, |programs|));
      SettledWorld(ts, w0, Current());
      forall r | 0 <= r < |ranks| ensures ranks[r].CleanLines() {
        assert Current().ranks[r].Clean();
      }
    }

    /** Receive.  The buffer of DPU k, at the buffer offset, becomes the DPU's MRAM from the symbol's MRAM
        address plus the symbol offset, or, for a symbol without the marker bit, the whole 32-bit words of
        its WRAM from that address.  No other host byte and no device memory changes, and no addressed
        line stays cached. */
    method ReceiveFromPIM(buffers: seq<nat>, bufferOffset: nat, symbolAddress: nat, symbolOffset: nat, length: nat,
                          asyncTransfer: bool)
      requires Valid() && Available(asyncTransfer)
      requires IsMramSymbol(symbolAddress) ==>
        var q := Request(buffers, bufferOffset, Translated(symbolAddress, symbolOffset), length);
        q.Acceptable(enabled, host[..]) && q.Separate()
      requires !IsMramSymbol(symbolAddress) ==>
        WramAcceptable(enabled, Request(buffers, bufferOffset, (symbolAddress + symbolOffset) % 0x1_0000_0000, length),
                       host[..], wram)
      modifies Regions(), host
      ensures Valid() && |buffers| == CountAll(enabled) && Mems() == old(Mems())
      ensures forall x: nat {:trigger host[x]} ::
        x < host.Length
        && (forall k: nat :: k < |buffers| ==> !Request(buffers, bufferOffset, 0, length).Holds(k, x)) ==>
          host[x] == old(host[..])[x]
      ensures IsMramSymbol(symbolAddress) ==>
        var a := (symbolAddress - 0x800_0000 + symbolOffset) % 0x1_0000_0000;
        && a + length <= MRAM_SIZE
        && forall k: nat :: k < |buffers| && buffers[k] + bufferOffset != NULL ==>
             var p, (i, s) := buffers[k] + bufferOffset, SlotOfDpu(enabled, k);
             && p + length <= host.Length
             && host[p..p + length] == Mram(Mems()[i], s)[a..a + length]
      ensures IsMramSymbol(symbolAddress) ==>
        var q := Request(buffers, bufferOffset, Translated(symbolAddress, symbolOffset), length);
        && q.Acceptable(enabled, host[..])
        && (forall k :: 0 <= k < |buffers| && q.Address(k) != NULL ==> DpuReceived(enabled, q, host[..], Mems(), k))
        && forall r, x :: 0 <= r < |ranks| && x in ranks[r].cache ==>
             x in old(Current()).ranks[r].cache && !InTransfer(TransferOf(enabled, q, r), x)
      ensures !IsMramSymbol(symbolAddress) ==>
        var w, n := (symbolAddress + symbolOffset) % 0x1_0000_0000 / 4, length / 4;
        && |wram| == |ranks|
        && forall k: nat :: k < |buffers| && buffers[k] + bufferOffset != NULL ==>
             var p, (i, s) := buffers[k] + bufferOffset, SlotOfDpu(enabled, k);
             && p + 4 * n <= host.Length && |wram[i].wram| == SLOTS && 4 * w + 4 * n <= |wram[i].wram[s]|
             && host[p..p + 4 * n] == wram[i].wram[s][4 * w..4 * w + 4 * n]
    {
      hide CountBefore, SlotOfDpu, Request.Acceptable, Request.Separate, DpuReceived, DpuWordsReceived, AllSeparate,
           Collected, Settled, InTransfer, WramAcceptable, IsMramSymbol, Translated, Mram, RankBuffers, TransferOf,
           Request.Holds;
      assert |buffers| == CountAll(enabled) by {
        if IsMramSymbol(symbolAddress) {
          var q := Request(buffers, bufferOffset, Translated(symbolAddress, symbolOffset), length);
          AcceptableCount(enabled, q, host[..]);
        } else {
          var q := Request(buffers, bufferOffset, (symbolAddress + symbolOffset) % 0x1_0000_0000, length);
          WramCount(enabled, q, host[..], wram);
        }
      }
      var aligned := AlignBuffers(enabled, buffers, bufferOffset);
      if IsMramSymbol(symbolAddress) {
        ghost var q := Request(buffers, bufferOffset, Translated(symbolAddress, symbolOffset), length);
        ReceiveFromMRAM(aligned, symbolAddress, symbolOffset, length, q);
        SameHeld(buffers, bufferOffset, length, 0, q.offset);
      } else {
        ghost var q := Request(buffers, bufferOffset, (symbolAddress + symbolOffset) % 0x1_0000_0000, length);
        ReceiveFromWRAM(aligned, symbolAddress, symbolOffset, length, q);
        SameHeld(buffers, bufferOffset, length, 0, q.offset);
      }
    }

    method ReceiveFromMRAM(aligned: array<nat>, symbolAddress: nat, symbolOffset: nat, length: nat, ghost q: Request)
      requires Valid() && q.Acceptable(enabled, host[..]) && q.Separate()
      requires IsMramSymbol(symbolAddress) && q.offset == Translated(symbolAddress, symbolOffset) && q.length == length
      requires aligned.Length == MAX_NR_RANKS * SLOTS && aligned != rankIdOfDpu
      requires forall r :: 0 <= r < |ranks| ==>
        aligned[64 * r..64 * r + 64] == RankBuffers(enabled, q.buffers, q.bufferOffset, r)
      modifies Regions(), host
      ensures Valid() && Mems() == old(Mems())
      ensures q.Acceptable(enabled, host[..])
      ensures forall k :: 0 <= k < |q.buffers| && q.Address(k) != NULL ==> DpuReceived(enabled, q, host[..], Mems(), k)
      ensures forall x: nat {:trigger host[x]} ::
        x < host.Length && (forall k: nat :: k < |q.buffers| ==> !q.Holds(k, x)) ==> host[x] == old(host[..])[x]
      ensures forall r, x :: 0 <= r < |ranks| && x in ranks[r].cache ==>
        x in old(Current()).ranks[r].cache && !InTransfer(TransferOf(enabled, q, r), x)
      ensures var a := (symbolAddress - 0x800_0000 + symbolOffset) % 0x1_0000_0000;
        && |q.buffers| == CountAll(enabled) && a + length <= MRAM_SIZE
        && forall k: nat :: k < |q.buffers| && q.buffers[k] + q.bufferOffset != NULL ==>
             var p, (i, s) := q.buffers[k] + q.bufferOffset, SlotOfDpu(enabled, k);
             && p + length <= host.Length
             && host[p..p + length] == Mram(Mems()[i], s)[a..a + length]
    {
      hide CountBefore, SlotOfDpu, Request.Acceptable, Request.Separate, DpuReceived, AllSeparate,
           Collected, Settled, InTransfer, IsMramSymbol, Translated, Mram;
      ghost var w0 := Current();
      AcceptedRequest(enabled, q, w0);
      ReceiveFromRanks(aligned, Translated(symbolAddress, symbolOffset), length, q);
      ghost var w1 := Current();
      CollectedRequest(enabled, q, w0, w1);
      assert Mems() == seq(|ranks|, r requires 0 <= r < |ranks| => w1.ranks[r].mem);
      ReceivedAtSymbol(enabled, q, symbolAddress, symbolOffset, host[..], Mems());
    }

    /** `symbol_offset += symbol_base_offset` in `uint32_t`; then one read per rank. */
    method ReceiveFromWRAM(aligned: array<nat>, symbolAddress: nat, symbolOffset: nat, length: nat, ghost q: Request)
      requires Valid() && WramAcceptable(enabled, q, host[..], wram)
      requires q.offset == (symbolAddress + symbolOffset) % 0x1_0000_0000 && q.length == length
      requires aligned.Length == MAX_NR_RANKS * SLOTS
      requires forall r :: 0 <= r < |ranks| ==>
        aligned[64 * r..64 * r + 64] == RankBuffers(enabled, q.buffers, q.bufferOffset, r)
      modifies host
      ensures Valid() && Mems() == old(Mems())
      ensures forall x: nat {:trigger host[x]} ::
        x < host.Length && (forall k: nat :: k < |q.buffers| ==> !q.Holds(k, x)) ==> host[x] == old(host[..])[x]
      ensures var w, n := (symbolAddress + symbolOffset) % 0x1_0000_0000 / 4, length / 4;
        && |q.buffers| == CountAll(enabled) && |wram| == |ranks|
        && forall k: nat :: k < |q.buffers| && q.buffers[k] + q.bufferOffset != NULL ==>
             var p, (i, s) := q.buffers[k] + q.bufferOffset, SlotOfDpu(enabled, k);
             && p + 4 * n <= host.Length && |wram[i].wram| == SLOTS && 4 * w + 4 * n <= |wram[i].wram[s]|
             && host[p..p + 4 * n] == wram[i].wram[s][4 * w..4 * w + 4 * n]
    {
      hide CountBefore, SlotOfDpu, Request.Separate, DpuWordsReceived, WramAcceptable, WramRead.Fits, WramRead.Filled,
           RanksFilled, OnlyBuffers;
      ghost var h0 := host[..];
      var offset := (symbolAddress + symbolOffset) % Bits.TWO32;
      WramCount(enabled, q, h0, wram);
      NoRanksFilled(enabled, q, h0, wram);
      for i: nat := 0 to |ranks|
        invariant Valid() && |host[..]| == |h0| && Mems() == old(Mems())
        invariant WramAcceptable(enabled, q, host[..], wram) && RanksFilled(enabled, q, host[..], wram, i)
        invariant forall x: nat {:trigger host[x]} ::
          x < host.Length && (forall k: nat :: k < |q.buffers| ==> !q.Holds(k, x)) ==> host[x] == h0[x]
      {
        ghost var h := host[..];
        var read := WramRead(offset / 4, length / 4, aligned[64 * i..64 * i + 64]);
        assert read == ReadOf(enabled, q, i);
        ReadFits(enabled, q, h, wram, i);
        ReceiveFromRankWRAM(host, wram[i], read);
        EveryPositionFilled(wram[i], read, host[..]);
        RankKeepsOthers(enabled, q, h, host[..], wram, i);
        forall x: nat | x < host.Length && (forall k: nat :: k < |q.buffers| ==> !q.Holds(k, x))
          ensures host[..][x] == h0[x]
        {
          ReadTouchesHeld(enabled, q, h, host[..], i, x);
        }
      }
      forall k | 0 <= k < |q.buffers| && q.Address(k) != NULL
        ensures DpuWordsReceived(enabled, q, host[..], wram, k)
      {
        FilledIsReceived(enabled, q, host[..], wram, k);
      }
      WordsReceivedAtSymbol(enabled, q, host[..], wram);
    }

    /** One rank's receive, as a step of the whole system. */
    method ReceiveFromRank(i: nat, t: Transfer)
      requires Shaped() && i < |ranks| && t.Fits(host[..])
      modifies ranks[i], ranks[i].mem, host
      ensures Shaped() && t.AllowsAll(ReceiveProgram(t, recvMode))
      ensures var u := old(Current());
        var s := Run(t, State(u.host, u.ranks[i]), ReceiveProgram(t, recvMode));
        Current() == World(s.host, u.ranks[i := s.rank])
    {
      hide CountBefore, SlotOfDpu, Transfer.Fits, Transfer.AllowsAll, ReceiveProgram, Run;
      ghost var u := Current();
      ReceiveFromRankMRAM(host, ranks[i], t, recvMode, NO_SCRATCH);
      ghost var s := Run(t, State(u.host, u.ranks[i]), ReceiveProgram(t, recvMode));
      assert Current().ranks == u.ranks[i := s.rank];
    }
  }

  lemma WramCount(e: Topology, q: Request, host: seq<byte>, wram: seq<WramRank>)
    requires WramAcceptable(e, q, host, wram)
    ensures |q.buffers| == CountAll(e) && |wram| == |e|
    ensures forall i :: 0 <= i < |wram| ==> wram[i].Onto()
  {
  }

  lemma NoRanksFilled(e: Topology, q: Request, host: seq<byte>, wram: seq<WramRank>)
    requires |q.buffers| == CountAll(e) && |wram| == |e|
    ensures RanksFilled(e, q, host, wram, 0)
  {
  }

  /** An acceptable request is one transfer per rank, with buffers inside host memory and apart. */
  lemma AcceptedRequest(e: Topology, q: Request, w: World)
    requires q.Acceptable(e, w.host) && q.Separate() && |w.ranks| == |e|
    ensures |q.buffers| == CountAll(e)
    ensures w.Accepts(TransfersOf(e, q)) && AllSeparate(TransfersOf(e, q))
  {
    hide CountBefore, SlotOfDpu, Request.Separate, AllSeparate, TransferOf, Transfer.Fits;
    RequestSeparate(e, q, w.host);
    forall r | 0 <= r < |e| ensures TransfersOf(e, q)[r].Fits(w.host) {
      AcceptableFits(e, q, w.host, r);
    }
  }

  /** What a collected request means for each DPU. */
  lemma CollectedRequest(e: Topology, q: Request, w: World, w': World)
    requires q.Acceptable(e, w.host) && |w.ranks| == |w'.ranks| == |e| && w.Accepts(TransfersOf(e, q))
    requires Collected(TransfersOf(e, q), w, w'.host)
    requires forall r :: 0 <= r < |e| ==> Settled(TransfersOf(e, q)[r], w.ranks[r], w'.ranks[r])
    ensures |w'.host| == |w.host| && q.Acceptable(e, w'.host)
    ensures forall r :: 0 <= r < |e| ==> w'.ranks[r].mem == w.ranks[r].mem
    ensures forall r, x :: 0 <= r < |e| && x in w'.ranks[r].cache ==>
      x in w.ranks[r].cache && !InTransfer(TransferOf(e, q, r), x)
    ensures forall x: nat ::
      x < |w.host| && (forall k: nat :: k < |q.buffers| ==> !q.Holds(k, x)) ==> w'.host[x] == w.host[x]
    ensures forall k :: 0 <= k < |q.buffers| && q.Address(k) != NULL ==>
      DpuReceived(e, q, w'.host, seq(|e|, r requires 0 <= r < |e| => w'.ranks[r].mem), k)
  {
    var mems := seq(|e|, r requires 0 <= r < |e| => w'.ranks[r].mem);
    hide CountBefore, SlotOfDpu, TransferOf, DpuReceived, Received, Owned, InTransfer;
    forall r | 0 <= r < |e|
      ensures TransferOf(e, q, r).Fits(w'.host) && Received(TransferOf(e, q, r), mems[r], w'.host)
    {
      AcceptableFits(e, q, w'.host, r);
      assert Settled(TransfersOf(e, q)[r], w.ranks[r], w'.ranks[r]);
      assert Received(TransfersOf(e, q)[r], w.ranks[r].mem, w'.host);
    }
    forall k | 0 <= k < |q.buffers| && q.Address(k) != NULL ensures DpuReceived(e, q, w'.host, mems, k) {
      ReceivedFromDpu(e, q, w'.host, mems, k);
    }
    forall x: nat | x < |w.host| && (forall k: nat :: k < |q.buffers| ==> !q.Holds(k, x))
      ensures w'.host[x] == w.host[x]
    {
      if Owned(TransfersOf(e, q), x) {
        var k := OwnedIsHeld(e, q, x);
        assert false;
      }
    }
  }

  lemma SettledWorld(ts: seq<Transfer>, w: World, w': World)
    requires w.Accepts(ts) && |w'.ranks| == |ts|
    requires forall r :: 0 <= r < |ts| ==> Settled(ts[r], w.ranks[r], w'.ranks[r])
    ensures w'.Clean() && forall r :: 0 <= r < |ts| ==> w'.ranks[r].mem == w.ranks[r].mem
  {
  }

  lemma OneByOneStart(ts: seq<Transfer>, w: World, programs: seq<seq<Action>>)
    requires w.Accepts(ts)
    ensures OneByOne(programs, 0) == [] && PermitsAll(ts, OneByOne(programs, 0))
    ensures WorldRun(ts, w, OneByOne(programs, 0)) == w
  {
  }

  lemma OneByOneNext(programs: seq<seq<Action>>, i: nat)
    requires i < |programs|
    ensures OneByOne(programs, i + 1) == OneByOne(programs, i) + Lift(i, programs[i])
  {
  }

  /** Which host bytes a request's buffers hold does not depend on the device range. */
  lemma SameHeld(buffers: seq<nat>, bufferOffset: nat, length: nat, o1: nat, o2: nat)
    ensures forall k: nat, x: nat :: k < |buffers| ==>
      (Request(buffers, bufferOffset, o1, length).Holds(k, x) <==>
         Request(buffers, bufferOffset, o2, length).Holds(k, x))
  {
  }

  lemma AllSentToDpus(e: Topology, q: Request, host: seq<byte>, before: seq<Region>, after: seq<Region>)
    requires q.Acceptable(e, host) && |before| == |after| == |e|
    requires forall i :: 0 <= i < |e| ==>
      TransferOf(e, q, i).Fits(host) && Sent(TransferOf(e, q, i), host, before[i], after[i])
    ensures forall k :: 0 <= k < |q.buffers| && q.Address(k) != NULL ==> DpuSent(e, q, host, before, after, k)
  {
    hide Request.Acceptable, DpuSent, Sent, Transfer.Fits, TransferOf;
    forall k | 0 <= k < |q.buffers| && q.Address(k) != NULL ensures DpuSent(e, q, host, before, after, k) {
      SentToDpu(e, q, host, before, after, k);
    }
  }

  /** A send of a translated symbol, per DPU: its MRAM with the buffer stored at the symbol's MRAM address
      plus the symbol offset. */
  lemma SentAtSymbol(e: Topology, q: Request, symbolAddress: nat, symbolOffset: nat,
                     host: seq<byte>, before: seq<Region>, after: seq<Region>)
    requires q.Acceptable(e, host) && |before| == |after| == |e|
    requires IsMramSymbol(symbolAddress) && q.offset == Translated(symbolAddress, symbolOffset)
    requires forall k :: 0 <= k < |q.buffers| && q.Address(k) != NULL ==> DpuSent(e, q, host, before, after, k)
    ensures |q.buffers| == CountAll(e)
    ensures var a := (symbolAddress - 0x800_0000 + symbolOffset) % 0x1_0000_0000;
      && a + q.length <= MRAM_SIZE
      && forall k: nat :: k < |q.buffers| && q.buffers[k] + q.bufferOffset != NULL ==>
           var p, (i, s) := q.buffers[k] + q.bufferOffset, SlotOfDpu(e, k);
           && p + q.length <= |host|
           && Mram(after[i], s)
              == Mram(before[i], s)[..a] + host[p..p + q.length] + Mram(before[i], s)[a + q.length..]
  {
    hide Request.Acceptable, SlotOfDpu, CountBefore, DpuSent, Mram, IsMramSymbol, Translated;
    TranslationRemovesMarker(symbolAddress, symbolOffset);
    AcceptableRange(e, q, host);
    forall k: nat | k < |q.buffers| && q.buffers[k] + q.bufferOffset != NULL
      ensures var (i, s) := SlotOfDpu(e, k);
        Mram(after[i], s) == Store(Mram(before[i], s), q.offset, host[q.Address(k)..q.Address(k) + q.length])
    {
      DpuSentIsStore(e, q, host, before, after, k);
    }
  }

  /** A receive of a translated symbol, per DPU. */
  lemma ReceivedAtSymbol(e: Topology, q: Request, symbolAddress: nat, symbolOffset: nat,
                         host: seq<byte>, mems: seq<Region>)
    requires q.Acceptable(e, host) && |mems| == |e|
    requires IsMramSymbol(symbolAddress) && q.offset == Translated(symbolAddress, symbolOffset)
    requires forall k :: 0 <= k < |q.buffers| && q.Address(k) != NULL ==> DpuReceived(e, q, host, mems, k)
    ensures |q.buffers| == CountAll(e)
    ensures var a := (symbolAddress - 0x800_0000 + symbolOffset) % 0x1_0000_0000;
      && a + q.length <= MRAM_SIZE
      && forall k: nat :: k < |q.buffers| && q.buffers[k] + q.bufferOffset != NULL ==>
           var p, (i, s) := q.buffers[k] + q.bufferOffset, SlotOfDpu(e, k);
           && p + q.length <= |host|
           && host[p..p + q.length] == Mram(mems[i], s)[a..a + q.length]
  {
    hide Request.Acceptable, SlotOfDpu, CountBefore, DpuReceived, Mram, IsMramSymbol, Translated;
    TranslationRemovesMarker(symbolAddress, symbolOffset);
    AcceptableRange(e, q, host);
    forall k: nat | k < |q.buffers| && q.buffers[k] + q.bufferOffset != NULL
      ensures var (i, s) := SlotOfDpu(e, k);
        host[q.Address(k)..q.Address(k) + q.length] == Mram(mems[i], s)[q.offset..q.offset + q.length]
    {
      DpuReceivedRange(e, q, host, mems, k);
    }
  }

  lemma WordsReceivedAtSymbol(e: Topology, q: Request, host: seq<byte>, wram: seq<WramRank>)
    requires WramAcceptable(e, q, host, wram)
    requires forall k :: 0 <= k < |q.buffers| && q.Address(k) != NULL ==> DpuWordsReceived(e, q, host, wram, k)
    ensures |q.buffers| == CountAll(e) && |wram| == |e|
    ensures var w, n := q.offset / 4, q.length / 4;
      forall k: nat :: k < |q.buffers| && q.buffers[k] + q.bufferOffset != NULL ==>
        var p, (i, s) := q.buffers[k] + q.bufferOffset, SlotOfDpu(e, k);
        && p + 4 * n <= |host| && |wram[i].wram| == SLOTS && 4 * w + 4 * n <= |wram[i].wram[s]|
        && host[p..p + 4 * n] == wram[i].wram[s][4 * w..4 * w + 4 * n]
  {
    hide WramAcceptable, DpuWordsReceived, SlotOfDpu, CountBefore;
    WramCount(e, q, host, wram);
    forall k: nat | k < |q.buffers| && q.buffers[k] + q.bufferOffset != NULL
      ensures var w, n, p, (i, s) := q.offset / 4, q.length / 4, q.Address(k), SlotOfDpu(e, k);
        && p + 4 * n <= |host| && |wram[i].wram| == SLOTS && 4 * w + 4 * n <= |wram[i].wram[s]|
        && host[p..p + 4 * n] == wram[i].wram[s][4 * w..4 * w + 4 * n]
    {
      DpuWordsRange(e, q, host, wram, k);
    }
  }

  lemma AcceptableRange(e: Topology, q: Request, host: seq<byte>)
    requires q.Acceptable(e, host)
    ensures q.offset + q.length <= MRAM_SIZE && |q.buffers| == CountAll(e)
    ensures forall k :: 0 <= k < |q.buffers| && q.Address(k) != NULL ==> q.Address(k) + q.length <= |host|
  {
  }

  lemma AcceptableCount(e: Topology, q: Request, host: seq<byte>)
    requires q.Acceptable(e, host)
    ensures |q.buffers| == CountAll(e)
  {
  }
}
