/** Whole sends and receives of all ranks under any schedule, and whole runs of the system. */
module Schedules {
  import opened Layout
  import opened Memory
  import opened Programs
  import opened RankMachine
  import opened ReceiveProofs
  import opened SendProofs
  import opened World

  // ----- receiving -----

  /** Byte b of a slot's buffer is byte b of the slot's MRAM range. */
  ghost predicate ReceivedAt(t: Transfer, mem: Region, host: seq<byte>, slot: nat, b: nat)
    requires t.Fits(host) && slot < SLOTS && t.buffers[slot] != NULL && b < t.length
  {
    host[t.buffers[slot] + b] == MramByte(mem, slot, t.symbolOffset + b)
  }

  /** The contract of a receive: each present buffer holds its slot's MRAM range. */
  ghost predicate Received(t: Transfer, mem: Region, host: seq<byte>)
    requires t.Fits(host)
  {
    forall slot: nat, b: nat :: slot < SLOTS && t.buffers[slot] != NULL && b < t.length ==>
      ReceivedAt(t, mem, host, slot, b)
  }

  /** Host memory after all ranks have received: buffers filled, every other byte as before. */
  ghost predicate Collected(ts: seq<Transfer>, w: World, host: seq<byte>)
    requires w.Accepts(ts)
  {
    && |host| == |w.host|
    && (forall r {:trigger Received(ts[r], w.ranks[r].mem, host)} :: 0 <= r < |ts| ==>
          Received(ts[r], w.ranks[r].mem, host))
    && (forall q: nat :: q < |host| && !Owned(ts, q) ==> host[q] == w.host[q])
  }

  /** Device memory kept, nothing dirty, none of the transfer's lines cached and no other line added. */
  ghost predicate Settled(t: Transfer, r0: Rank, r: Rank)
    requires t.Valid()
  {
    r.mem == r0.mem && r.Clean() && forall x :: x in r.cache ==> x in r0.cache && !InTransfer(t, x)
  }

  /** Every interleaving of the ranks' receive programs, with evictions anywhere and whatever clean
      lines were cached before, collects the device contents and leaves no addressed line cached. */
  lemma AnyScheduleReceives(ts: seq<Transfer>, mode: AccessMode, w: World, es: seq<Event>)
    requires w.Accepts(ts) && w.Clean() && AllSeparate(ts) && Interleaves(ts, ReceivePrograms(ts, mode), es)
    ensures Collected(ts, w, WorldRun(ts, w, es).host)
    ensures forall r :: 0 <= r < |ts| ==> Settled(ts[r], w.ranks[r], WorldRun(ts, w, es).ranks[r])
  {
    ScheduleProgress(ts, mode, w, es);
    hide WorldRun, WordReceived, Coherent, Received, ReceiveProgram, Owned, Settled, Project;
    var w' := WorldRun(ts, w, es);
    forall r | 0 <= r < |ts| ensures Received(ts[r], w.ranks[r].mem, w'.host) {
      AllWordsReceived(ts, mode, w, w'.host, es, r);
    }
    forall r | 0 <= r < |ts| ensures Settled(ts[r], w.ranks[r], w'.ranks[r]) {
      assert Project(es, r) == ReceivePrograms(ts, mode)[r];
      CoherentSettles(ts[r], mode, w.ranks[r], w'.ranks[r]);
    }
  }

  lemma AllWordsReceived(ts: seq<Transfer>, mode: AccessMode, w: World, host: seq<byte>, es: seq<Event>, r: nat)
    requires w.Accepts(ts) && HostProgress(ts, w, host, es) && r < |ts|
    requires Project(es, r) == ReceiveProgram(ts[r], mode)
    ensures Received(ts[r], w.ranks[r].mem, host)
  {
    var t, mem := ts[r], w.ranks[r].mem;
    hide Owned, WordReceived, Project, ReceiveProgram, ReceivedAt;
    forall slot: nat, b: nat | slot < SLOTS && t.buffers[slot] != NULL && b < t.length
      ensures ReceivedAt(t, mem, host, slot, b)
    {
      SlotInLine(t, slot, b / 8, b % 8);
      ProgramLoads(t, mode, t.VisitOf(slot, b / 8));
      assert WordReceived(t, host, mem, slot, b / 8);
      ByteOfWordReceived(t, host, mem, slot, b);
    }
  }

  lemma ProgramLoads(t: Transfer, mode: AccessMode, v: Visit)
    requires t.Covers(v)
    ensures Load(v) in ReceiveProgram(t, mode)
  {
    EachLineOnce(t, true, mode, v);
    hide Body, Flushes;
    assert Load(v) in Body(t, true, mode);
  }

  lemma ByteOfWordReceived(t: Transfer, host: seq<byte>, mem: Region, slot: nat, b: nat)
    requires t.Fits(host) && slot < SLOTS && t.buffers[slot] != NULL && b < t.length
    requires WordReceived(t, host, mem, slot, b / 8)
    ensures ReceivedAt(t, mem, host, slot, b)
  {
    hide MramByte;
    assert ByteReceived(t, host, mem, slot, b / 8, b % 8);
  }

  lemma CoherentSettles(t: Transfer, mode: AccessMode, r0: Rank, r: Rank)
    requires t.Valid() && Coherent(t, mode, r0, r, ReceiveProgram(t, mode))
    ensures Settled(t, r0, r)
  {
    FlushesCover(t);
    var f, b := Flushes(t), Body(t, true, mode);
    assert FinalFlushes(t, mode, ReceiveProgram(t, mode)) == f;
    hide Flushes, Body, InTransfer, LineIndex, FinalFlushes, ReceiveProgram;
    forall x | x in r.cache ensures x in r0.cache && !InTransfer(t, x) {
      if InTransfer(t, x) {
        VisitOfLineIsInverse(t, x);
        assert false;
      }
    }
  }

  /** The contract determines host memory, so all schedules and loop orders end in the same one. */
  lemma CollectedOnce(ts: seq<Transfer>, w: World, h1: seq<byte>, h2: seq<byte>)
    requires w.Accepts(ts) && Collected(ts, w, h1) && Collected(ts, w, h2)
    ensures h1 == h2
  {
    forall q | 0 <= q < |h1| ensures h1[q] == h2[q] {
      if Owned(ts, q) {
        var r, slot :| 0 <= r < |ts| && 0 <= slot < SLOTS && InBuffer(ts[r], slot, q);
        CollectedByte(ts, w, h1, r, slot, q);
        CollectedByte(ts, w, h2, r, slot, q);
      }
    }
  }

  lemma CollectedByte(ts: seq<Transfer>, w: World, host: seq<byte>, r: nat, slot: nat, q: nat)
    requires w.Accepts(ts) && Collected(ts, w, host) && r < |ts| && slot < SLOTS && InBuffer(ts[r], slot, q)
    ensures q < |host|
    ensures host[q] == MramByte(w.ranks[r].mem, slot, ts[r].symbolOffset + (q - ts[r].buffers[slot]))
  {
    hide MramByte;
    assert Received(ts[r], w.ranks[r].mem, host);
    var b := q - ts[r].buffers[slot];
    assert ReceivedAt(ts[r], w.ranks[r].mem, host, slot, b);
  }

  // ----- sending -----

  function SendPrograms(ts: seq<Transfer>, mode: AccessMode): seq<seq<Action>> {
    seq(|ts|, r requires 0 <= r < |ts| => SendProgram(ts[r], mode))
  }

  /** Two views of a rank that agree on device memory and scratch line and have nothing dirty. */
  ghost predicate SameDevice(r1: Rank, r2: Rank) {
    r1.mem == r2.mem && r1.scratch == r2.scratch && r1.Clean() && r2.Clean()
  }

  lemma SameDeviceStep(t: Transfer, host: seq<byte>, r1: Rank, r2: Rank, a: Action)
    requires t.Fits(host) && t.Allows(a) && SameDevice(r1, r2)
    ensures SameDevice(RankStep(t, host, r1, a), RankStep(t, host, r2, a))
    ensures a.Evict? ==> SameDevice(RankStep(t, host, r1, a), r2)
  {
    hide LineIndex, Interleave.ByteInterleave, Gather;
  }

  /** What rank r would be, had its thread run alone. */
  ghost function Alone(ts: seq<Transfer>, w: World, es: seq<Event>, r: nat): Rank
    requires w.Accepts(ts) && r < |ts| && ts[r].AllowsAll(Project(es, r))
  {
    Run(ts[r], State(w.host, w.ranks[r]), Project(es, r)).rank
  }

  ghost predicate SendProgress(ts: seq<Transfer>, w: World, w': World, es: seq<Event>)
    requires w.Accepts(ts)
  {
    && w'.host == w.host && |w'.ranks| == |w.ranks|
    && forall r :: 0 <= r < |ts| ==>
         ts[r].AllowsAll(Project(es, r)) && SameDevice(w'.ranks[r], Alone(ts, w, es, r))
  }

  lemma AllowedPrefix(t: Transfer, mode: AccessMode, acts: seq<Action>)
    requires acts <= SendProgram(t, mode)
    ensures t.AllowsAll(acts) && NoLoads(acts)
  {
    BodyActions(t, false, mode);
    hide Body;
    forall k | 0 <= k < |acts| ensures t.Allows(acts[k]) && !acts[k].Load? {
      assert acts[k] == Body(t, false, mode)[k];
    }
  }

  lemma SendEventAt(t: Transfer, mode: AccessMode, host: seq<byte>, r0: Rank, u: Rank, done: seq<Action>, e: Event)
    requires t.Fits(host) && r0.Clean() && t.Allows(e.action)
    requires (if e.action.Evict? then done else done + [e.action]) <= SendProgram(t, mode)
    requires t.AllowsAll(done) && SameDevice(u, Run(t, State(host, r0), done).rank)
    ensures var done' := if e.action.Evict? then done else done + [e.action];
      && t.AllowsAll(done')
      && SameDevice(RankStep(t, host, u, e.action), Run(t, State(host, r0), done').rank)
      && HostStep(t, host, u, e.action) == host
  {
    var s := State(host, r0);
    if e.action.Evict? {
      SameDeviceStep(t, host, u, Run(t, s, done).rank, e.action);
    } else {
      AllowedPrefix(t, mode, done + [e.action]);
      assert (done + [e.action])[|done|] == e.action;
      assert !e.action.Load?;
      assert NoLoads(done) by {
        assert forall k :: 0 <= k < |done| ==> done[k] == (done + [e.action])[k];
      }
      SendRun(t, s, done);
      RunAppend(t, s, done, e.action);
      hide RankStep;
      SameDeviceStep(t, host, u, Run(t, s, done).rank, e.action);
    }
  }

  lemma {:induction false} ScheduleSends(ts: seq<Transfer>, mode: AccessMode, w: World, es: seq<Event>)
    requires w.Accepts(ts) && w.Clean() && Begins(ts, SendPrograms(ts, mode), es)
    ensures SendProgress(ts, w, WorldRun(ts, w, es), es)
  {
    hide SendProgram, RankStep, HostStep, SameDevice, Run, Project;
    if es == [] {
      forall r | 0 <= r < |ts|
        ensures ts[r].AllowsAll(Project(es, r)) && SameDevice(w.ranks[r], Alone(ts, w, es, r))
      {
        NothingDone(ts, w, r);
      }
    } else {
      var n := |es| - 1;
      var init, e := es[..n], es[n];
      BeginsEarlier(ts, SendPrograms(ts, mode), es);
      ScheduleSends(ts, mode, w, init);
      var u := WorldRun(ts, w, init);
      assert Permits(ts, e);
      assert Project(es, e.rank) <= SendPrograms(ts, mode)[e.rank];
      ProjectStep(es, e.rank);
      SendEventAt(ts[e.rank], mode, w.host, w.ranks[e.rank], u.ranks[e.rank], Project(init, e.rank), e);
      forall r | 0 <= r < |ts|
        ensures ts[r].AllowsAll(Project(es, r)) && SameDevice(WorldRun(ts, w, es).ranks[r], Alone(ts, w, es, r))
      {
        ProjectStep(es, r);
      }
    }
  }

  lemma NothingDone(ts: seq<Transfer>, w: World, r: nat)
    requires w.Accepts(ts) && w.Clean() && r < |ts|
    ensures ts[r].AllowsAll(Project([], r)) && SameDevice(w.ranks[r], Alone(ts, w, [], r))
  {
  }

  /** Every interleaving of the ranks' send programs leaves each rank's device memory exactly as the
      rank's own program would alone, absent lanes included, and that is a send; the host is untouched. */
  lemma AnyScheduleSends(ts: seq<Transfer>, mode: AccessMode, w: World, es: seq<Event>)
    requires w.Accepts(ts) && w.Clean() && Interleaves(ts, SendPrograms(ts, mode), es)
    ensures WorldRun(ts, w, es).host == w.host && WorldRun(ts, w, es).Clean()
    ensures forall r :: 0 <= r < |ts| ==>
      && ts[r].AllowsAll(SendProgram(ts[r], mode))
      && WorldRun(ts, w, es).ranks[r].mem == Run(ts[r], State(w.host, w.ranks[r]), SendProgram(ts[r], mode)).rank.mem
      && Sent(ts[r], w.host, w.ranks[r].mem, WorldRun(ts, w, es).ranks[r].mem)
  {
    ScheduleSends(ts, mode, w, es);
    hide SendProgram, Run, Project, Sent, WorldRun;
    forall r | 0 <= r < |ts|
      ensures ts[r].AllowsAll(SendProgram(ts[r], mode))
      ensures WorldRun(ts, w, es).ranks[r].mem
           == Run(ts[r], State(w.host, w.ranks[r]), SendProgram(ts[r], mode)).rank.mem
      ensures Sent(ts[r], w.host, w.ranks[r].mem, WorldRun(ts, w, es).ranks[r].mem)
    {
      assert Project(es, r) == SendPrograms(ts, mode)[r];
      SendDelivers(ts[r], State(w.host, w.ranks[r]), mode);
    }
  }

  // ----- the programs themselves -----

  lemma ReceiveProgramsAllowed(ts: seq<Transfer>, mode: AccessMode)
    ensures forall r :: 0 <= r < |ts| ==>
      ts[r].AllowsAll(ReceivePrograms(ts, mode)[r]) && NoEvictions(ReceivePrograms(ts, mode)[r])
  {
    forall r | 0 <= r < |ts|
      ensures ts[r].AllowsAll(ReceivePrograms(ts, mode)[r]) && NoEvictions(ReceivePrograms(ts, mode)[r])
    {
      ProgramsAllowed(ts[r], mode);
      forall k | 0 <= k < |ReceiveProgram(ts[r], mode)| ensures !ReceiveProgram(ts[r], mode)[k].Evict? {
        LoadsAreBracketed(ts[r], mode, k);
      }
    }
  }

  lemma SendProgramsAllowed(ts: seq<Transfer>, mode: AccessMode)
    ensures forall r :: 0 <= r < |ts| ==>
      ts[r].AllowsAll(SendPrograms(ts, mode)[r]) && NoEvictions(SendPrograms(ts, mode)[r])
  {
    hide Body;
    forall r | 0 <= r < |ts|
      ensures ts[r].AllowsAll(SendPrograms(ts, mode)[r]) && NoEvictions(SendPrograms(ts, mode)[r])
    {
      BodyActions(ts[r], false, mode);
    }
  }
}
