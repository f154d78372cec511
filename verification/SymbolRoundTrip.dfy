/** Sending to a symbol and receiving from the same symbol, at any symbol offset and buffer offset. */
module SymbolRoundTrip {
  import opened DirectInterface
  import opened HostBuffers
  import opened Layout
  import opened Memory
  import opened RankMachine
  import opened Requests
  import opened Slots

  /** Send, let the host overwrite all its memory, receive: every buffer is back as it was sent, and
      every other host byte is as it was overwritten. */
  method SendOverwriteReceive(pim: DirectPimInterface, buffers: seq<nat>, bufferOffset: nat, symbolAddress: nat,
                              symbolOffset: nat, length: nat, other: seq<byte>)
    requires pim.Valid() && pim.Available(false) && IsMramSymbol(symbolAddress) && |other| == pim.host.Length
    requires var q := Request(buffers, bufferOffset, Translated(symbolAddress, symbolOffset), length);
      q.Acceptable(pim.enabled, pim.host[..]) && q.Separate()
    modifies pim.Regions(), pim.host
    ensures pim.Valid() && |buffers| == CountAll(pim.enabled)
    ensures forall k: nat :: k < |buffers| && buffers[k] + bufferOffset != NULL ==>
      var p := buffers[k] + bufferOffset;
      p + length <= pim.host.Length && pim.host[p..p + length] == old(pim.host[..])[p..p + length]
    ensures forall x: nat {:trigger pim.host[x]} ::
      x < pim.host.Length
      && (forall k: nat :: k < |buffers| ==> !Request(buffers, bufferOffset, 0, length).Holds(k, x)) ==>
        pim.host[x] == other[x]
  {
    hide CountBefore, SlotOfDpu, Request.Acceptable, Request.Separate, DpuReceived, DpuSent, IsMramSymbol, Translated,
         Mram;
    ghost var h := pim.host[..];
    ghost var q := Request(buffers, bufferOffset, Translated(symbolAddress, symbolOffset), length);
    AcceptableSize(pim.enabled, q, h, other);
    pim.SendToPIM(buffers, bufferOffset, symbolAddress, symbolOffset, length, false);
    forall x | 0 <= x < pim.host.Length {
      pim.host[x] := other[x];
    }
    assert pim.host[..] == other;
    ghost var mems := pim.Mems();
    pim.ReceiveFromPIM(buffers, bufferOffset, symbolAddress, symbolOffset, length, false);
    assert pim.Mems() == mems;
  }
}
