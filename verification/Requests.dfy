/** A request of the user: a dense list of buffers, an offset into each, an MRAM range; and the rank
    transfers it becomes. */
module Requests {
  import opened Bits
  import opened Layout
  import opened Memory
  import opened RankMachine
  import opened ReceiveProofs
  import opened Schedules
  import opened SendProofs
  import opened Slots
  import opened World

  /** The bit that marks a symbol address as an MRAM address. */
  const MRAM_ADDRESS_SPACE: nat := 0x800_0000

  predicate IsMramSymbol(symbolAddress: nat) { And(symbolAddress, MRAM_ADDRESS_SPACE) != 0 }

  /** `symbol_offset += symbol_address ^ MRAM_ADDRESS_SPACE` in `uint32_t`. */
  function Translated(symbolAddress: nat, symbolOffset: nat): nat {
    (symbolOffset + Xor(symbolAddress, MRAM_ADDRESS_SPACE)) % TWO32
  }

  lemma ParityBit(x: nat)
    ensures And(x, 1) == x % 2
    ensures x % 2 == 1 ==> Xor(x, 1) == x - 1
  {
    BitwiseZero(x / 2);
    UnfoldBits(AND, x, 1);
    UnfoldBits(XOR, x, 1);
  }

  /** For an MRAM symbol the exclusive-or removes the marker, so the translated offset is the symbol's
      MRAM address plus the requested offset, modulo 2^32. */
  lemma TranslationRemovesMarker(symbolAddress: nat, symbolOffset: nat)
    requires IsMramSymbol(symbolAddress)
    ensures symbolAddress >= 0x800_0000
    ensures Translated(symbolAddress, symbolOffset) == (symbolAddress - 0x800_0000 + symbolOffset) % 0x1_0000_0000
  {
    hide And, Xor, Shl;
    var h, l := symbolAddress / MRAM_ADDRESS_SPACE, symbolAddress % MRAM_ADDRESS_SPACE;
    MarkerSplit(h, l);
    ParityBit(h);
  }

  /** An address is an MRAM symbol's exactly when bit 27 is set. */
  lemma MramSymbolIffMarked(symbolAddress: nat)
    ensures IsMramSymbol(symbolAddress) <==> symbolAddress / 0x800_0000 % 2 == 1
  {
    hide And, Xor, Shl;
    var h, l := symbolAddress / MRAM_ADDRESS_SPACE, symbolAddress % MRAM_ADDRESS_SPACE;
    MarkerSplit(h, l);
    ParityBit(h);
  }

  /** Addresses of the 64 MB from 0x800_0000 on are MRAM symbols, which translate to their distance from
      there plus the requested offset; addresses below 0x800_0000 are not. */
  lemma MramSymbols(a: nat, symbolOffset: nat)
    ensures a < 0x400_0000 ==> IsMramSymbol(0x800_0000 + a)
    ensures a < 0x400_0000 ==> Translated(0x800_0000 + a, symbolOffset) == (a + symbolOffset) % 0x1_0000_0000
    ensures a < 0x800_0000 ==> !IsMramSymbol(a)
  {
    hide IsMramSymbol, Translated;
    MramSymbolIffMarked(a);
    MramSymbolIffMarked(0x800_0000 + a);
    if a < 0x400_0000 {
      TranslationRemovesMarker(0x800_0000 + a, symbolOffset);
    }
  }

  lemma MarkerSplit(h: nat, l: nat)
    requires l < MRAM_ADDRESS_SPACE
    ensures And(h * MRAM_ADDRESS_SPACE + l, MRAM_ADDRESS_SPACE) == And(h, 1) * MRAM_ADDRESS_SPACE
    ensures Xor(h * MRAM_ADDRESS_SPACE + l, MRAM_ADDRESS_SPACE) == Xor(h, 1) * MRAM_ADDRESS_SPACE + l
  {
    hide Bitwise, Shl;
    PowerLiteral(27);
    ShlLiteral(h, 27);
    ShlLiteral(1, 27);
    ShlLiteral(And(h, 1), 27);
    ShlLiteral(Xor(h, 1), 27);
    SplitBits(AND, 27, h, l, 1, 0);
    SplitBits(XOR, 27, h, l, 1, 0);
    BitwiseZero(l);
  }

  datatype Request = Request(buffers: seq<nat>, bufferOffset: nat, offset: nat, length: nat)
  {
    /** The host address of DPU k's data. */
    function Address(k: nat): nat
      requires k < |buffers|
    {
      buffers[k] + bufferOffset
    }

    /** The range is word-aligned and inside MRAM, and no buffer overflows host memory. */
    predicate Acceptable(e: Topology, host: seq<byte>) {
      && |buffers| == CountAll(e)
      && offset % 8 == 0 && length % 8 == 0 && offset + length <= MRAM_SIZE
      && forall k :: 0 <= k < |buffers| && Address(k) != NULL ==> Address(k) + length <= |host|
    }

    predicate Holds(k: nat, q: nat)
      requires k < |buffers|
    {
      Address(k) != NULL && Address(k) <= q < Address(k) + length
    }

    /** No host byte belongs to two DPUs' buffers. */
    ghost predicate Separate() {
      forall k1: nat, k2: nat, q: nat ::
        k1 < |buffers| && k2 < |buffers| && Holds(k1, q) && Holds(k2, q) ==> k1 == k2
    }
  }

  function TransferOf(e: Topology, q: Request, i: nat): Transfer
    requires |q.buffers| == CountAll(e) && i < |e|
  {
    Transfer(q.offset, q.length, RankBuffers(e, q.buffers, q.bufferOffset, i))
  }

  function TransfersOf(e: Topology, q: Request): (ts: seq<Transfer>)
    requires |q.buffers| == CountAll(e)
    ensures |ts| == |e|
  {
    seq(|e|, i requires 0 <= i < |e| => TransferOf(e, q, i))
  }

  lemma AcceptableFits(e: Topology, q: Request, host: seq<byte>, i: nat)
    requires q.Acceptable(e, host) && i < |e|
    ensures TransferOf(e, q, i).Fits(host)
  {
    var t := TransferOf(e, q, i);
    forall s | 0 <= s < SLOTS && t.buffers[s] != NULL ensures t.buffers[s] + t.length <= |host| {
      if e[i][s] {
        NumberingIsBijective(e, i, s);
        assert t.buffers[s] == q.Address(CountBefore(e, i, s));
      }
    }
  }

  /** The slot of DPU k carries DPU k's buffer. */
  lemma BufferOfDpu(e: Topology, q: Request, k: nat)
    requires |q.buffers| == CountAll(e) && k < |q.buffers|
    ensures var (i, s) := SlotOfDpu(e, k); TransferOf(e, q, i).buffers[s] == q.Address(k)
  {
  }

  /** Every address that a rank transfer uses is some DPU's. */
  lemma DpuOfBuffer(e: Topology, q: Request, i: nat, s: nat) returns (k: nat)
    requires |q.buffers| == CountAll(e) && i < |e| && s < SLOTS && TransferOf(e, q, i).buffers[s] != NULL
    ensures k < |q.buffers| && TransferOf(e, q, i).buffers[s] == q.Address(k) && SlotOfDpu(e, k) == (i, s)
  {
    NumberingIsBijective(e, i, s);
    k := CountBefore(e, i, s);
  }

  lemma RequestSeparate(e: Topology, q: Request, host: seq<byte>)
    requires q.Acceptable(e, host) && q.Separate()
    ensures forall r :: 0 <= r < |e| ==> TransfersOf(e, q)[r].Valid()
    ensures AllSeparate(TransfersOf(e, q))
  {
    var ts := TransfersOf(e, q);
    hide Request.Separate, TransferOf, SlotOfDpu;
    forall r | 0 <= r < |e| ensures ts[r].Valid() {
      AcceptableFits(e, q, host, r);
      FitsIsValid(ts[r], host);
    }
    forall r1, s1, r2, s2, x: nat
      | 0 <= r1 < |ts| && 0 <= s1 < SLOTS && 0 <= r2 < |ts| && 0 <= s2 < SLOTS
        && InBuffer(ts[r1], s1, x) && InBuffer(ts[r2], s2, x)
      ensures r1 == r2 && s1 == s2
    {
      SameOwner(e, q, r1, s1, r2, s2, x);
    }
  }

  lemma SameOwner(e: Topology, q: Request, r1: nat, s1: nat, r2: nat, s2: nat, x: nat)
    requires |q.buffers| == CountAll(e) && q.Separate() && r1 < |e| && s1 < SLOTS && r2 < |e| && s2 < SLOTS
    requires TransferOf(e, q, r1).Valid() && TransferOf(e, q, r2).Valid()
    requires InBuffer(TransferOf(e, q, r1), s1, x) && InBuffer(TransferOf(e, q, r2), s2, x)
    ensures r1 == r2 && s1 == s2
  {
    hide SlotOfDpu;
    var k1 := DpuOfBuffer(e, q, r1, s1);
    var k2 := DpuOfBuffer(e, q, r2, s2);
    assert q.Holds(k1, x) && q.Holds(k2, x);
  }

  // ----- contracts per DPU -----

  /** DPU k's MRAM range holds its buffer, and the rest of its MRAM is as before. */
  ghost predicate DpuSent(e: Topology, q: Request, host: seq<byte>, before: seq<Region>, after: seq<Region>, k: nat)
    requires q.Acceptable(e, host) && |before| == |after| == |e| && k < |q.buffers| && q.Address(k) != NULL
  {
    var (i, s) := SlotOfDpu(e, k);
    && Mram(after[i], s)[q.offset..q.offset + q.length] == host[q.Address(k)..q.Address(k) + q.length]
    && Mram(after[i], s)[..q.offset] == Mram(before[i], s)[..q.offset]
    && Mram(after[i], s)[q.offset + q.length..] == Mram(before[i], s)[q.offset + q.length..]
  }

  /** The send contract of a DPU as one store into its MRAM. */
  lemma DpuSentIsStore(e: Topology, q: Request, host: seq<byte>, before: seq<Region>, after: seq<Region>, k: nat)
    requires q.Acceptable(e, host) && |before| == |after| == |e| && k < |q.buffers| && q.Address(k) != NULL
    requires DpuSent(e, q, host, before, after, k)
    ensures var (i, s) := SlotOfDpu(e, k);
      Mram(after[i], s) == Store(Mram(before[i], s), q.offset, host[q.Address(k)..q.Address(k) + q.length])
  {
    hide SlotOfDpu, CountBefore, Mram;
    var (i, s) := SlotOfDpu(e, k);
    var m, a := Mram(after[i], s), q.offset;
    assert m == m[..a] + m[a..a + q.length] + m[a + q.length..];
  }

  lemma SentToDpu(e: Topology, q: Request, host: seq<byte>, before: seq<Region>, after: seq<Region>, k: nat)
    requires q.Acceptable(e, host) && |before| == |after| == |e| && k < |q.buffers| && q.Address(k) != NULL
    requires forall i :: 0 <= i < |e| ==>
      TransferOf(e, q, i).Fits(host) && Sent(TransferOf(e, q, i), host, before[i], after[i])
    ensures DpuSent(e, q, host, before, after, k)
  {
    hide SlotOfDpu, MramByte, TransferOf, Sent;
    var (i, s) := SlotOfDpu(e, k);
    BufferOfDpu(e, q, k);
    TransferRange(e, q, i);
    SentSlot(TransferOf(e, q, i), host, before[i], after[i], s);
  }

  /** The send contract of one present slot, as slices of its MRAM. */
  lemma SentSlot(t: Transfer, host: seq<byte>, before: Region, after: Region, s: nat)
    requires t.Fits(host) && Sent(t, host, before, after) && s < SLOTS && t.buffers[s] != NULL
    ensures Mram(after, s)[t.symbolOffset..t.symbolOffset + t.length] == host[t.buffers[s]..t.buffers[s] + t.length]
    ensures Mram(after, s)[..t.symbolOffset] == Mram(before, s)[..t.symbolOffset]
    ensures Mram(after, s)[t.symbolOffset + t.length..] == Mram(before, s)[t.symbolOffset + t.length..]
  {
    hide MramByte;
    var m, off, p := Mram(after, s), t.symbolOffset, t.buffers[s];
    forall a: nat | off <= a < off + t.length ensures m[a] == host[p + a - off] {
      assert m[a] == MramByte(after, s, a);
    }
    forall a: nat | a < MRAM_SIZE && !(off <= a < off + t.length) ensures m[a] == Mram(before, s)[a] {
      assert m[a] == MramByte(after, s, a);
    }
  }

  lemma TransferRange(e: Topology, q: Request, i: nat)
    requires |q.buffers| == CountAll(e) && i < |e|
    ensures TransferOf(e, q, i).symbolOffset == q.offset && TransferOf(e, q, i).length == q.length
  {
  }

  /** DPU k's buffer holds its MRAM range. */
  ghost predicate DpuReceived(e: Topology, q: Request, host: seq<byte>, mems: seq<Region>, k: nat)
    requires q.Acceptable(e, host) && |mems| == |e| && k < |q.buffers| && q.Address(k) != NULL
  {
    var (i, s) := SlotOfDpu(e, k);
    host[q.Address(k)..q.Address(k) + q.length] == Mram(mems[i], s)[q.offset..q.offset + q.length]
  }

  lemma DpuReceivedRange(e: Topology, q: Request, host: seq<byte>, mems: seq<Region>, k: nat)
    requires q.Acceptable(e, host) && |mems| == |e| && k < |q.buffers| && q.Address(k) != NULL
    requires DpuReceived(e, q, host, mems, k)
    ensures var (i, s) := SlotOfDpu(e, k);
      host[q.Address(k)..q.Address(k) + q.length] == Mram(mems[i], s)[q.offset..q.offset + q.length]
  {
  }

  lemma ReceivedFromDpu(e: Topology, q: Request, host: seq<byte>, mems: seq<Region>, k: nat)
    requires q.Acceptable(e, host) && |mems| == |e| && k < |q.buffers| && q.Address(k) != NULL
    requires forall i :: 0 <= i < |e| ==> TransferOf(e, q, i).Fits(host) && Received(TransferOf(e, q, i), mems[i], host)
    ensures DpuReceived(e, q, host, mems, k)
  {
    hide SlotOfDpu, MramByte, TransferOf, Received;
    var (i, s) := SlotOfDpu(e, k);
    BufferOfDpu(e, q, k);
    TransferRange(e, q, i);
    ReceivedSlot(TransferOf(e, q, i), mems[i], host, s);
  }

  lemma ReceivedSlot(t: Transfer, mem: Region, host: seq<byte>, s: nat)
    requires t.Fits(host) && Received(t, mem, host) && s < SLOTS && t.buffers[s] != NULL
    ensures host[t.buffers[s]..t.buffers[s] + t.length] == Mram(mem, s)[t.symbolOffset..t.symbolOffset + t.length]
  {
    hide MramByte;
    var p, off := t.buffers[s], t.symbolOffset;
    forall x: nat | p <= x < p + t.length ensures host[x] == Mram(mem, s)[off + (x - p)] {
      assert ReceivedAt(t, mem, host, s, x - p);
    }
  }

  /** A host byte that some rank transfer owns lies in some DPU's buffer. */
  lemma OwnedIsHeld(e: Topology, q: Request, x: nat) returns (k: nat)
    requires |q.buffers| == CountAll(e) && forall r :: 0 <= r < |e| ==> TransfersOf(e, q)[r].Valid()
    requires Owned(TransfersOf(e, q), x)
    ensures k < |q.buffers| && q.Holds(k, x)
  {
    hide SlotOfDpu, TransferOf;
    var r, s :| 0 <= r < |e| && 0 <= s < SLOTS && InBuffer(TransfersOf(e, q)[r], s, x);
    TransferRange(e, q, r);
    k := DpuOfBuffer(e, q, r, s);
  }
}
