/** Compaction: the user's dense list of buffers, one per DPU in use, against the 64 slots of each
    rank, of which some are disabled. */
module Slots {
  import opened Layout
  import opened RankMachine

  const MAX_NR_RANKS: nat := 40

  /** Which slots of each rank are enabled. */
  type Topology = e: seq<seq<bool>> | |e| <= MAX_NR_RANKS && forall i :: 0 <= i < |e| ==> |e[i]| == 64
    witness []

  /** Enabled slots that the scan has met when it reaches slot j of rank i. */
  function CountBefore(e: Topology, i: nat, j: nat): nat
    requires i <= |e| && j <= SLOTS && (i == |e| ==> j == 0)
    decreases i, j
  {
    if j > 0 then CountBefore(e, i, j - 1) + (if e[i][j - 1] then 1 else 0)
    else if i > 0 then CountBefore(e, i - 1, SLOTS)
    else 0
  }

  /** Number of DPUs in use. */
  function CountAll(e: Topology): nat { CountBefore(e, |e|, 0) }

  predicate ScannedBefore(i1: nat, j1: nat, i2: nat, j2: nat) {
    i1 < i2 || (i1 == i2 && j1 < j2)
  }

  /** The enabled slot that the scan meets as number k, searched backwards from slot j of rank i. */
  function FindSlot(e: Topology, k: nat, i: nat, j: nat): (s: (nat, nat))
    requires i <= |e| && j <= SLOTS && (i == |e| ==> j == 0)
    requires k < CountBefore(e, i, j)
    ensures s.0 < |e| && s.1 < SLOTS && e[s.0][s.1] && CountBefore(e, s.0, s.1) == k
    ensures ScannedBefore(s.0, s.1, i, j)
    decreases i, j
  {
    if j > 0 then
      if e[i][j - 1] && CountBefore(e, i, j - 1) == k then (i, j - 1) else FindSlot(e, k, i, j - 1)
    else FindSlot(e, k, i - 1, SLOTS)
  }

  /** The rank and slot of DPU number k. */
  function SlotOfDpu(e: Topology, k: nat): (s: (nat, nat))
    requires k < CountAll(e)
    ensures s.0 < |e| && s.1 < SLOTS && e[s.0][s.1]
    ensures CountBefore(e, s.0, s.1) == k
  {
    FindSlot(e, k, |e|, 0)
  }

  lemma {:induction false} CountMonotone(e: Topology, i1: nat, j1: nat, i2: nat, j2: nat)
    requires i1 < |e| && j1 < SLOTS && i2 <= |e| && j2 <= SLOTS && (i2 == |e| ==> j2 == 0)
    requires ScannedBefore(i1, j1, i2, j2)
    ensures CountBefore(e, i1, j1) + (if e[i1][j1] then 1 else 0) <= CountBefore(e, i2, j2)
    decreases i2, j2
  {
    if j2 > 0 {
      if !(i1 == i2 && j1 == j2 - 1) {
        CountMonotone(e, i1, j1, i2, j2 - 1);
      }
    } else {
      CountMonotone(e, i1, j1, i2 - 1, SLOTS);
    }
  }

  /** Numbering the enabled slots in scan order is an order-preserving bijection onto 0..CountAll-1. */
  lemma NumberingIsBijective(e: Topology, i: nat, j: nat)
    requires i < |e| && j < SLOTS && e[i][j]
    ensures CountBefore(e, i, j) < CountAll(e)
    ensures SlotOfDpu(e, CountBefore(e, i, j)) == (i, j)
    ensures forall i', j' :: 0 <= i' < |e| && 0 <= j' < SLOTS && e[i'][j'] ==>
      (CountBefore(e, i, j) < CountBefore(e, i', j') <==> ScannedBefore(i, j, i', j'))
  {
    CountMonotone(e, i, j, |e|, 0);
    var s := SlotOfDpu(e, CountBefore(e, i, j));
    if ScannedBefore(s.0, s.1, i, j) {
      CountMonotone(e, s.0, s.1, i, j);
    } else if ScannedBefore(i, j, s.0, s.1) {
      CountMonotone(e, i, j, s.0, s.1);
    }
    forall i', j' | 0 <= i' < |e| && 0 <= j' < SLOTS && e[i'][j']
      ensures CountBefore(e, i, j) < CountBefore(e, i', j') <==> ScannedBefore(i, j, i', j')
    {
      if ScannedBefore(i, j, i', j') {
        CountMonotone(e, i, j, i', j');
      } else if ScannedBefore(i', j', i, j) {
        CountMonotone(e, i', j', i, j);
      }
    }
  }

  /** The host address that slot j of rank i transfers with: its DPU's buffer plus the offset, null
      if the slot is disabled. */
  function SlotBuffer(e: Topology, buffers: seq<nat>, bufferOffset: nat, i: nat, j: nat): nat
    requires |buffers| == CountAll(e) && i < |e| && j < SLOTS
  {
    if e[i][j] then
      CountMonotone(e, i, j, |e|, 0);
      buffers[CountBefore(e, i, j)] + bufferOffset
    else NULL
  }

  /** Buffer k goes to the slot of DPU k; a slot's address is null exactly when the slot is disabled,
      provided no user buffer is null. */
  lemma CompactionDelivers(e: Topology, buffers: seq<nat>, bufferOffset: nat)
    requires |buffers| == CountAll(e)
    ensures forall k :: 0 <= k < |buffers| ==>
      SlotBuffer(e, buffers, bufferOffset, SlotOfDpu(e, k).0, SlotOfDpu(e, k).1) == buffers[k] + bufferOffset
    ensures (forall k :: 0 <= k < |buffers| ==> buffers[k] + bufferOffset != NULL) ==>
      forall i, j :: 0 <= i < |e| && 0 <= j < SLOTS ==>
        (SlotBuffer(e, buffers, bufferOffset, i, j) == NULL <==> !e[i][j])
  {
    forall i, j | 0 <= i < |e| && 0 <= j < SLOTS && e[i][j] ensures CountBefore(e, i, j) < |buffers| {
      CountMonotone(e, i, j, |e|, 0);
    }
  }

  /** The 64 addresses of one rank. */
  function RankBuffers(e: Topology, buffers: seq<nat>, bufferOffset: nat, i: nat): (r: seq<nat>)
    requires |buffers| == CountAll(e) && i < |e|
    ensures |r| == SLOTS
  {
    seq(SLOTS, j requires 0 <= j < SLOTS => SlotBuffer(e, buffers, bufferOffset, i, j))
  }

  /** The scan that spreads the dense buffer list over the slots of all ranks. */
  method AlignBuffers(e: Topology, buffers: seq<nat>, bufferOffset: nat) returns (aligned: array<nat>)
    requires |buffers| == CountAll(e)
    ensures fresh(aligned) && aligned.Length == 2560
    ensures forall i :: 0 <= i < |e| ==> aligned[64 * i..64 * i + 64] == RankBuffers(e, buffers, bufferOffset, i)
  {
    aligned := new nat[MAX_NR_RANKS * SLOTS];
    var offset := 0;
    for i: nat := 0 to |e|
      invariant offset == CountBefore(e, i, 0)
      invariant forall r :: 0 <= r < i ==> aligned[64 * r..64 * r + 64] == RankBuffers(e, buffers, bufferOffset, r)
    {
      for j: nat := 0 to SLOTS
        invariant offset == CountBefore(e, i, j)
        invariant forall r :: 0 <= r < i ==> aligned[64 * r..64 * r + 64] == RankBuffers(e, buffers, bufferOffset, r)
        invariant aligned[64 * i..64 * i + j] == RankBuffers(e, buffers, bufferOffset, i)[..j]
      {
        ghost var before := aligned[..];
        CountMonotone(e, i, j, |e|, 0);
        if e[i][j] {
          aligned[i * 64 + j] := buffers[offset] + bufferOffset;
          offset := offset + 1;
        } else {
          aligned[i * 64 + j] := NULL;
        }
        RowsKept(before, aligned[..], e, buffers, bufferOffset, i, j);
      }
    }
    assert offset == CountAll(e);
  }

  /** Writing entry (i, j) extends row i and leaves the rows before it. */
  lemma RowsKept(before: seq<nat>, after: seq<nat>, e: Topology, buffers: seq<nat>, bufferOffset: nat, i: nat, j: nat)
    requires |buffers| == CountAll(e) && i < |e| && j < SLOTS
    requires |before| == |after| == MAX_NR_RANKS * SLOTS
    requires after == before[64 * i + j := SlotBuffer(e, buffers, bufferOffset, i, j)]
    requires forall r :: 0 <= r < i ==> before[64 * r..64 * r + 64] == RankBuffers(e, buffers, bufferOffset, r)
    requires before[64 * i..64 * i + j] == RankBuffers(e, buffers, bufferOffset, i)[..j]
    ensures forall r :: 0 <= r < i ==> after[64 * r..64 * r + 64] == RankBuffers(e, buffers, bufferOffset, r)
    ensures after[64 * i..64 * i + j + 1] == RankBuffers(e, buffers, bufferOffset, i)[..j + 1]
  {
    hide CountBefore, SlotBuffer;
    forall r | 0 <= r < i ensures after[64 * r..64 * r + 64] == RankBuffers(e, buffers, bufferOffset, r) {
      assert after[64 * r..64 * r + 64] == before[64 * r..64 * r + 64];
    }
    assert after[64 * i..64 * i + j] == before[64 * i..64 * i + j];
    assert after[64 * i..64 * i + j + 1] == after[64 * i..64 * i + j] + [after[64 * i + j]];
  }

  /** The scan that records the rank of each DPU. */
  method RankIds(e: Topology) returns (rankIdOfDpu: array<nat>)
    ensures fresh(rankIdOfDpu) && rankIdOfDpu.Length == CountAll(e)
    ensures forall k :: 0 <= k < CountAll(e) ==> rankIdOfDpu[k] == SlotOfDpu(e, k).0
  {
    rankIdOfDpu := new nat[CountAll(e)];
    var dpuId := 0;
    for i: nat := 0 to |e|
      invariant dpuId == CountBefore(e, i, 0)
      invariant forall k :: 0 <= k < dpuId && k < CountAll(e) ==> rankIdOfDpu[k] == SlotOfDpu(e, k).0
    {
      for j: nat := 0 to SLOTS
        invariant dpuId == CountBefore(e, i, j)
        invariant forall k :: 0 <= k < dpuId && k < CountAll(e) ==> rankIdOfDpu[k] == SlotOfDpu(e, k).0
      {
        if e[i][j] {
          NumberingIsBijective(e, i, j);
          rankIdOfDpu[dpuId] := i;
          dpuId := dpuId + 1;
        }
      }
    }
    assert dpuId == CountAll(e);
  }
}
