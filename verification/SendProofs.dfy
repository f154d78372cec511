/** What any sequence of gather-and-store steps leaves in device memory. */
module SendProofs {
  import opened Interleave
  import opened Layout
  import opened Memory
  import opened Programs
  import opened RankMachine

  ghost predicate NoLoads(acts: seq<Action>) {
    forall k :: 0 <= k < |acts| ==> !acts[k].Load?
  }

  /** Some step of the sequence stores to line x. */
  ghost predicate Streamed(t: Transfer, acts: seq<Action>, x: nat)
    requires t.Valid() && t.AllowsAll(acts)
  {
    exists k :: 0 <= k < |acts| && acts[k].Stream? && t.Allows(acts[k]) && t.LineOf(acts[k].at) == x
  }

  /** Byte c of word i of a slot's buffer is in the slot's MRAM. */
  ghost predicate ByteSent(t: Transfer, host: seq<byte>, mem: Region, slot: nat, i: nat, c: nat)
    requires t.Fits(host) && slot < SLOTS && t.buffers[slot] != NULL && i < t.Words() && c < 8
  {
    MramByte(mem, slot, t.symbolOffset + 8 * i + c) == host[t.buffers[slot] + 8 * i + c]
  }

  ghost predicate WordSent(t: Transfer, host: seq<byte>, mem: Region, slot: nat, i: nat)
    requires t.Fits(host) && slot < SLOTS && t.buffers[slot] != NULL && i < t.Words()
  {
    forall c: nat :: c < 8 ==> ByteSent(t, host, mem, slot, i, c)
  }

  /** A gather-and-store delivers the word of each present lane, whatever the scratch line held. */
  lemma StreamDelivers(t: Transfer, host: seq<byte>, r: Rank, slot: nat, i: nat)
    requires t.Fits(host) && slot < SLOTS && t.buffers[slot] != NULL && i < t.Words()
    ensures t.Covers(t.VisitOf(slot, i))
    ensures WordSent(t, host, RankStep(t, host, r, Stream(t.VisitOf(slot, i))).mem, slot, i)
  {
    SlotInLine(t, slot, i, 0);
    hide *;
    forall c: nat | c < 8
      ensures ByteSent(t, host, RankStep(t, host, r, Stream(t.VisitOf(slot, i))).mem, slot, i, c)
    {
      StreamDeliversByte(t, host, r, slot, i, c);
    }
  }

  lemma StreamDeliversByte(t: Transfer, host: seq<byte>, r: Rank, slot: nat, i: nat, c: nat)
    requires t.Fits(host) && slot < SLOTS && t.buffers[slot] != NULL && i < t.Words() && c < 8
    ensures t.Covers(t.VisitOf(slot, i))
    ensures ByteSent(t, host, RankStep(t, host, r, Stream(t.VisitOf(slot, i))).mem, slot, i, c)
  {
    hide ByteInterleave, LineIndex, Physical, Gather;
    var v := t.VisitOf(slot, i);
    var j := slot / 8;
    SlotInLine(t, slot, i, c);
    LineInRegion(t, v);
    var line := Gather(t, host, v, r.scratch);
    InterleaveTransposes(line, j, c);
    LaneInGather(t, host, v, r.scratch, j, c);
    StreamedByte(r, t.LineOf(v), ByteInterleave(line), 8 * c + j);
  }

  /** What a gather-and-store leaves in byte c of lane j: the buffer's byte if the lane has one, and
      otherwise the byte that the scratch line happened to hold; the scratch line keeps the same bytes. */
  lemma StreamedLane(t: Transfer, host: seq<byte>, r: Rank, v: Visit, j: nat, c: nat)
    requires t.Fits(host) && t.Covers(v) && j < 8 && c < 8
    ensures 64 * t.LineOf(v) + 64 <= |r.mem| && (t.LaneBuffer(v, j) != NULL ==>
      t.LaneBuffer(v, j) + 8 * v.word + c < |host|)
    ensures var p := t.LaneBuffer(v, j);
      var b := if p == NULL then r.scratch[8 * j + c] else host[p + 8 * v.word + c];
      && RankStep(t, host, r, Stream(v)).mem[64 * t.LineOf(v) + 8 * c + j] == b
      && RankStep(t, host, r, Stream(v)).scratch[8 * j + c] == b
  {
    hide ByteInterleave, LineIndex, Gather;
    LineInRegion(t, v);
    var line := Gather(t, host, v, r.scratch);
    InterleaveTransposes(line, j, c);
    StreamedByte(r, t.LineOf(v), ByteInterleave(line), 8 * c + j);
    if t.LaneBuffer(v, j) == NULL {
      AbsentLane(t, host, v, r.scratch, j, c);
    } else {
      LaneInGather(t, host, v, r.scratch, j, c);
    }
  }

  lemma AbsentLane(t: Transfer, host: seq<byte>, v: Visit, scratch: Line, j: nat, c: nat)
    requires t.Fits(host) && t.Covers(v) && j < 8 && c < 8 && t.LaneBuffer(v, j) == NULL
    ensures Gather(t, host, v, scratch)[8 * j + c] == scratch[8 * j + c]
  {
    assert (8 * j + c) / 8 == j;
  }

  lemma StreamedByte(r: Rank, x: nat, data: Line, k: nat)
    requires 64 * x + 64 <= |r.mem| && k < 64
    ensures StreamLine(r, x, data).mem[64 * x + k] == data[k]
  {
  }

  lemma LaneInGather(t: Transfer, host: seq<byte>, v: Visit, scratch: Line, j: nat, c: nat)
    requires t.Fits(host) && t.Covers(v) && j < 8 && c < 8 && t.LaneBuffer(v, j) != NULL
    ensures 8 * j + c < 64
    ensures t.LaneBuffer(v, j) + 8 * v.word + c < |host|
    ensures Gather(t, host, v, scratch)[8 * j + c] == host[t.LaneBuffer(v, j) + 8 * v.word + c]
  {
    assert (8 * j + c) / 8 == j && (8 * j + c) % 8 == c;
  }

  /** A step that does not store to line x leaves its bytes alone, as long as no line is dirty. */
  lemma StepFrame(t: Transfer, host: seq<byte>, r: Rank, a: Action, p: nat)
    requires t.Fits(host) && t.Allows(a) && r.Clean() && p < |r.mem|
    requires a.Stream? ==> t.LineOf(a.at) != p / 64
    ensures RankStep(t, host, r, a).mem[p] == r.mem[p]
  {
    hide ByteInterleave, LineIndex, Gather;
    if a.Stream? {
      LineInRegion(t, a.at);
    }
  }

  lemma StepKeepsClean(t: Transfer, host: seq<byte>, r: Rank, a: Action)
    requires t.Fits(host) && t.Allows(a) && r.Clean()
    ensures RankStep(t, host, r, a).Clean()
    ensures !a.Stream? ==> RankStep(t, host, r, a).mem == r.mem
    ensures |RankStep(t, host, r, a).mem| == |r.mem|
  {
    hide ByteInterleave, LineIndex, Gather;
  }

  /** After any sequence of stores and cache events: every stored word of a present buffer is in
      its MRAM, and every other region line is as before. */
  lemma {:induction false} SendRun(t: Transfer, s: State, acts: seq<Action>)
    requires t.Fits(s.host) && t.AllowsAll(acts) && NoLoads(acts) && s.rank.Clean()
    ensures var s' := Run(t, s, acts);
      && s'.host == s.host
      && s'.rank.Clean()
      && |s'.rank.mem| == |s.rank.mem|
      && (forall slot: nat, i: nat {:trigger WordSent(t, s.host, s'.rank.mem, slot, i)} ::
            slot < SLOTS && t.buffers[slot] != NULL && i < t.Words() && Stream(t.VisitOf(slot, i)) in acts ==>
              WordSent(t, s.host, s'.rank.mem, slot, i))
      && (forall p: nat :: p < |s.rank.mem| && !Streamed(t, acts, p / 64) ==> s'.rank.mem[p] == s.rank.mem[p])
  {
    if acts != [] {
      var n := |acts| - 1;
      var init, a := acts[..n], acts[n];
      assert t.Allows(a);
      SendRun(t, s, init);
      var u := Run(t, s, init);
      var s' := Run(t, s, acts);
      assert s' == Step(t, u, a);
      StepKeepsClean(t, u.host, u.rank, a);
      hide RankStep, LineIndex, ByteInterleave, Run;
      forall slot: nat, i: nat
        | slot < SLOTS && t.buffers[slot] != NULL && i < t.Words() && Stream(t.VisitOf(slot, i)) in acts
        ensures WordSent(t, s.host, s'.rank.mem, slot, i)
      {
        var v := t.VisitOf(slot, i);
        if a == Stream(v) {
          StreamDelivers(t, u.host, u.rank, slot, i);
        } else {
          WordUnderStep(t, u.host, u.rank, a, slot, i);
        }
      }
      forall p: nat | p < |s.rank.mem| && !Streamed(t, acts, p / 64)
        ensures s'.rank.mem[p] == s.rank.mem[p]
      {
        assert acts[n] == a;
        if Streamed(t, init, p / 64) {
          var k :| 0 <= k < |init| && init[k].Stream? && t.Allows(init[k]) && t.LineOf(init[k].at) == p / 64;
        }
        StepFrame(t, u.host, u.rank, a, p);
      }
    }
  }

  /** A word already delivered survives every other step. */
  lemma WordUnderStep(t: Transfer, host: seq<byte>, r: Rank, a: Action, slot: nat, i: nat)
    requires t.Fits(host) && t.Allows(a) && r.Clean()
    requires slot < SLOTS && t.buffers[slot] != NULL && i < t.Words()
    requires WordSent(t, host, r.mem, slot, i) && a != Stream(t.VisitOf(slot, i))
    ensures WordSent(t, host, RankStep(t, host, r, a).mem, slot, i)
  {
    hide RankStep, LineIndex, Physical, ByteSent;
    forall c: nat | c < 8
      ensures ByteSent(t, host, RankStep(t, host, r, a).mem, slot, i, c)
    {
      assert ByteSent(t, host, r.mem, slot, i, c);
      ByteUnderStep(t, host, r, a, slot, i, c);
    }
  }

  lemma ByteUnderStep(t: Transfer, host: seq<byte>, r: Rank, a: Action, slot: nat, i: nat, c: nat)
    requires t.Fits(host) && t.Allows(a) && r.Clean()
    requires slot < SLOTS && t.buffers[slot] != NULL && i < t.Words() && c < 8
    requires ByteSent(t, host, r.mem, slot, i, c) && a != Stream(t.VisitOf(slot, i))
    ensures ByteSent(t, host, RankStep(t, host, r, a).mem, slot, i, c)
  {
    hide RankStep, LineIndex, Physical, MramByte;
    var v, p := t.VisitOf(slot, i), Physical(slot, t.symbolOffset + 8 * i + c);
    SlotInLine(t, slot, i, c);
    PhysicalParts(t.LineOf(v), c, slot / 8);
    if a.Stream? && t.LineOf(a.at) == t.LineOf(v) {
      LineOfInjective(t, a.at, v);
    }
    StepKeepsClean(t, host, r, a);
    if p < |r.mem| {
      StepFrame(t, host, r, a, p);
    }
    SameByte(r.mem, RankStep(t, host, r, a).mem, slot, t.symbolOffset + 8 * i + c);
  }

  // ----- the transfer as a whole -----

  /** The contract of a send on the region as 64 byte arrays: present buffers replace their slot's
      range, no MRAM byte outside the range and no region byte outside the addressed lines changes. */
  ghost predicate Sent(t: Transfer, host: seq<byte>, mem: Region, mem': Region)
    requires t.Fits(host)
  {
    && |mem'| == |mem|
    && (forall slot: nat, a: nat {:trigger MramByte(mem', slot, a)} ::
          slot < SLOTS && t.buffers[slot] != NULL && t.symbolOffset <= a < t.symbolOffset + t.length ==>
            MramByte(mem', slot, a) == host[t.buffers[slot] + a - t.symbolOffset])
    && (forall slot: nat, a: nat {:trigger MramByte(mem', slot, a)} ::
          slot < SLOTS && a < MRAM_SIZE && !(t.symbolOffset <= a < t.symbolOffset + t.length) ==>
            MramByte(mem', slot, a) == MramByte(mem, slot, a))
    && (forall p: nat :: p < |mem| && !InTransfer(t, p / 64) ==> mem'[p] == mem[p])
  }

  /** A sequence that stores every addressed line and loads nothing. */
  ghost predicate StoresAll(t: Transfer, s: State, acts: seq<Action>)
  {
    && t.Fits(s.host) && t.AllowsAll(acts) && NoLoads(acts) && s.rank.Clean()
    && forall v: Visit :: t.Covers(v) ==> Stream(v) in acts
  }

  lemma StoredByte(t: Transfer, s: State, acts: seq<Action>, slot: nat, a: nat)
    requires StoresAll(t, s, acts)
    requires slot < SLOTS && t.buffers[slot] != NULL && t.symbolOffset <= a < t.symbolOffset + t.length
    ensures MramByte(Run(t, s, acts).rank.mem, slot, a) == s.host[t.buffers[slot] + a - t.symbolOffset]
  {
    hide Run, LineIndex, Physical, WordSent, Streamed, MramByte;
    SendRun(t, s, acts);
    var i := (a - t.symbolOffset) / 8;
    SlotInLine(t, slot, i, 0);
    assert WordSent(t, s.host, Run(t, s, acts).rank.mem, slot, i);
    ByteOfWordSent(t, s.host, Run(t, s, acts).rank.mem, slot, a);
  }

  lemma UnstoredByte(t: Transfer, s: State, acts: seq<Action>, slot: nat, a: nat)
    requires StoresAll(t, s, acts)
    requires slot < SLOTS && a < MRAM_SIZE && !(t.symbolOffset <= a < t.symbolOffset + t.length)
    ensures MramByte(Run(t, s, acts).rank.mem, slot, a) == MramByte(s.rank.mem, slot, a)
  {
    hide Run, LineIndex, Physical, WordSent, Streamed, MramByte, InTransfer;
    SendRun(t, s, acts);
    RangeOfTransfer(t, slot, a);
    NotStreamed(t, acts, Physical(slot, a) / 64);
    SameByte(s.rank.mem, Run(t, s, acts).rank.mem, slot, a);
  }

  /** Any such sequence is a send. */
  lemma StoresAreASend(t: Transfer, s: State, acts: seq<Action>)
    requires StoresAll(t, s, acts)
    ensures Sent(t, s.host, s.rank.mem, Run(t, s, acts).rank.mem)
    ensures Run(t, s, acts).host == s.host && Run(t, s, acts).rank.Clean()
  {
    hide Run, LineIndex, Physical, InTransfer, WordSent, Streamed, MramByte, Transfer.AllowsAll, NoLoads;
    SendRun(t, s, acts);
    var mem, mem' := s.rank.mem, Run(t, s, acts).rank.mem;
    forall slot: nat, a: nat
      | slot < SLOTS && t.buffers[slot] != NULL && t.symbolOffset <= a < t.symbolOffset + t.length
      ensures MramByte(mem', slot, a) == s.host[t.buffers[slot] + a - t.symbolOffset]
    {
      StoredByte(t, s, acts, slot, a);
    }
    forall slot: nat, a: nat
      | slot < SLOTS && a < MRAM_SIZE && !(t.symbolOffset <= a < t.symbolOffset + t.length)
      ensures MramByte(mem', slot, a) == MramByte(mem, slot, a)
    {
      UnstoredByte(t, s, acts, slot, a);
    }
    forall p: nat | p < |mem| && !InTransfer(t, p / 64) ensures mem'[p] == mem[p] {
      NotStreamed(t, acts, p / 64);
    }
  }

  lemma ByteOfWordSent(t: Transfer, host: seq<byte>, mem: Region, slot: nat, a: nat)
    requires t.Fits(host) && slot < SLOTS && t.buffers[slot] != NULL
    requires t.symbolOffset <= a < t.symbolOffset + t.length
    requires WordSent(t, host, mem, slot, (a - t.symbolOffset) / 8)
    ensures MramByte(mem, slot, a) == host[t.buffers[slot] + a - t.symbolOffset]
  {
    hide MramByte;
    var i, c := (a - t.symbolOffset) / 8, (a - t.symbolOffset) % 8;
    assert ByteSent(t, host, mem, slot, i, c);
  }

  lemma NotStreamed(t: Transfer, acts: seq<Action>, x: nat)
    requires t.Valid() && t.AllowsAll(acts) && !InTransfer(t, x)
    ensures !Streamed(t, acts, x)
  {
    hide InTransfer, LineIndex;
    if Streamed(t, acts, x) {
      var k :| 0 <= k < |acts| && acts[k].Stream? && t.Allows(acts[k]) && t.LineOf(acts[k].at) == x;
      LinesOfTransfer(t, acts[k].at);
      assert false;
    }
  }

  lemma SameByte(mem: Region, mem': Region, slot: nat, a: nat)
    requires slot < SLOTS && a < MRAM_SIZE && |mem'| == |mem|
    requires Physical(slot, a) < |mem| ==> mem'[Physical(slot, a)] == mem[Physical(slot, a)]
    ensures MramByte(mem', slot, a) == MramByte(mem, slot, a)
  {
    hide Physical;
    LayoutInjective(slot, a);
  }

  /** Every loop order sends. */
  lemma SendDelivers(t: Transfer, s: State, mode: AccessMode)
    requires t.Fits(s.host) && s.rank.Clean()
    ensures t.AllowsAll(SendProgram(t, mode))
    ensures Sent(t, s.host, s.rank.mem, Run(t, s, SendProgram(t, mode)).rank.mem)
    ensures Run(t, s, SendProgram(t, mode)).host == s.host && Run(t, s, SendProgram(t, mode)).rank.Clean()
  {
    BodyActions(t, false, mode);
    var acts := SendProgram(t, mode);
    forall v: Visit | t.Covers(v) ensures Stream(v) in acts {
      EachLineOnce(t, false, mode, v);
    }
    hide Body;
    StoresAreASend(t, s, acts);
  }

  /** The contract leaves no freedom outside absent lanes: two sends of the same data agree on every
      present slot and on every byte outside the range, and on the whole region when no buffer is null. */
  lemma SendsAgree(t: Transfer, host: seq<byte>, mem: Region, m1: Region, m2: Region)
    requires t.Fits(host) && Sent(t, host, mem, m1) && Sent(t, host, mem, m2)
    ensures forall slot: nat, a: nat {:trigger MramByte(m1, slot, a)} {:trigger MramByte(m2, slot, a)} ::
      slot < SLOTS && a < MRAM_SIZE
      && (t.buffers[slot] != NULL || !(t.symbolOffset <= a < t.symbolOffset + t.length)) ==>
        MramByte(m1, slot, a) == MramByte(m2, slot, a)
    ensures NULL !in t.buffers ==> m1 == m2
  {
    hide LineIndex, Physical, InTransfer;
    if NULL !in t.buffers {
      forall p | 0 <= p < |mem| ensures m1[p] == m2[p] {
        if InTransfer(t, p / 64) {
          AddressedByte(t, p);
          assert MramByte(m1, SlotOf(p), AddressOf(p)) == MramByte(m2, SlotOf(p), AddressOf(p));
        }
      }
    }
  }

  lemma AddressedByte(t: Transfer, p: nat)
    requires t.Valid() && InTransfer(t, p / 64)
    ensures SlotOf(p) < SLOTS && t.symbolOffset <= AddressOf(p) < t.symbolOffset + t.length
    ensures Physical(SlotOf(p), AddressOf(p)) == p
  {
    hide LineIndex, WordOfLine, BankOfLine;
    assert p / 0x2_0000 == p / 64 / 0x800;
    LayoutSurjective(p);
  }

  /** Loop orders and left-over scratch contents make no difference to present slots. */
  lemma ModeAndScratchIndependent(t: Transfer, s: State, m1: AccessMode, m2: AccessMode, scratch: Line)
    requires t.Fits(s.host) && s.rank.Clean()
    ensures t.AllowsAll(SendProgram(t, m1)) && t.AllowsAll(SendProgram(t, m2))
    ensures var r1, r2 := Run(t, s, SendProgram(t, m1)).rank,
                          Run(t, s.(rank := s.rank.(scratch := scratch)), SendProgram(t, m2)).rank;
      && (forall slot: nat, a: nat {:trigger MramByte(r1.mem, slot, a)} ::
            slot < SLOTS && a < MRAM_SIZE
            && (t.buffers[slot] != NULL || !(t.symbolOffset <= a < t.symbolOffset + t.length)) ==>
              MramByte(r1.mem, slot, a) == MramByte(r2.mem, slot, a))
      && (NULL !in t.buffers ==> r1.mem == r2.mem)
  {
    var s2 := s.(rank := s.rank.(scratch := scratch));
    SendDelivers(t, s, m1);
    SendDelivers(t, s2, m2);
    hide Run, SendProgram;
    SendsAgree(t, s.host, s.rank.mem, Run(t, s, SendProgram(t, m1)).rank.mem, Run(t, s2, SendProgram(t, m2)).rank.mem);
  }
}
