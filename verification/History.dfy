/** Whole runs: sends, receives, DPU launches and host computation in any order. */
module History {
  import opened Layout
  import opened Memory
  import opened Programs
  import opened RankMachine
  import opened ReceiveProofs
  import opened Schedules
  import opened SendProofs
  import opened World

  /** A transfer phase carries the schedule that happened.  A launch may leave anything in device
      memory, and between transfers the host may write anything to its own memory. */
  datatype Phase =
    | SendPhase(ts: seq<Transfer>, mode: AccessMode, es: seq<Event>)
    | ReceivePhase(ts: seq<Transfer>, mode: AccessMode, es: seq<Event>)
    | LaunchPhase(mems: seq<Region>)
    | HostPhase(host: seq<byte>)

  ghost predicate Possible(w: World, ph: Phase) {
    match ph
    case SendPhase(ts, mode, es) => w.Accepts(ts) && Interleaves(ts, SendPrograms(ts, mode), es)
    case ReceivePhase(ts, mode, es) =>
      w.Accepts(ts) && AllSeparate(ts) && Interleaves(ts, ReceivePrograms(ts, mode), es)
    case LaunchPhase(mems) => |mems| == |w.ranks|
    case HostPhase(host) => true
  }

  ghost function After(w: World, ph: Phase): World
    requires Possible(w, ph)
  {
    match ph
    case SendPhase(ts, mode, es) => WorldRun(ts, w, es)
    case ReceivePhase(ts, mode, es) => WorldRun(ts, w, es)
    case LaunchPhase(mems) => w.(ranks := seq(|mems|, r requires 0 <= r < |mems| => w.ranks[r].(mem := mems[r])))
    case HostPhase(host) => w.(host := host)
  }

  /** The successive states of a run: one before each phase and one at the end. */
  ghost predicate IsRun(w: World, phases: seq<Phase>, states: seq<World>) {
    && |states| == |phases| + 1 && states[0] == w
    && forall k :: 0 <= k < |phases| ==> Possible(states[k], phases[k]) && states[k + 1] == After(states[k], phases[k])
  }

  lemma PhaseKeepsClean(w: World, ph: Phase)
    requires w.Clean() && Possible(w, ph)
    ensures After(w, ph).Clean()
  {
    hide WorldRun, SendProgram, ReceiveProgram, AllSeparate, Collected;
    match ph
    case SendPhase(ts, mode, es) => AnyScheduleSends(ts, mode, w, es);
    case ReceivePhase(ts, mode, es) => AnyScheduleReceives(ts, mode, w, es);
    case LaunchPhase(mems) =>
    case HostPhase(host) =>
  }

  lemma {:induction false} RunStaysClean(w: World, phases: seq<Phase>, states: seq<World>, k: nat)
    requires w.Clean() && IsRun(w, phases, states) && k <= |phases|
    ensures states[k].Clean()
  {
    if k > 0 {
      RunStaysClean(w, phases, states, k - 1);
      PhaseKeepsClean(states[k - 1], phases[k - 1]);
    }
  }

  /** In every run that starts without dirty region lines, however stale its caches: no region line is
      ever dirty; each send delivers; each receive hands the host exactly what device memory holds at that
      time; a launch replaces device memory behind the host's back, caches and host as they were; and a
      host phase replaces host memory alone. */
  lemma RunsNeverReadStaleLines(w: World, phases: seq<Phase>, states: seq<World>, k: nat)
    requires w.Clean() && IsRun(w, phases, states) && k < |phases|
    ensures states[k].Clean() && states[k + 1].Clean() && |states[k + 1].ranks| == |states[k].ranks|
    ensures phases[k].ReceivePhase? ==>
      && Collected(phases[k].ts, states[k], states[k + 1].host)
      && forall r :: 0 <= r < |states[k].ranks| ==> states[k + 1].ranks[r].mem == states[k].ranks[r].mem
    ensures phases[k].SendPhase? ==>
      && states[k + 1].host == states[k].host
      && forall r :: 0 <= r < |phases[k].ts| ==>
           Sent(phases[k].ts[r], states[k].host, states[k].ranks[r].mem, states[k + 1].ranks[r].mem)
    ensures phases[k].LaunchPhase? ==>
      && states[k + 1].host == states[k].host && |phases[k].mems| == |states[k].ranks|
      && forall r :: 0 <= r < |states[k].ranks| ==>
           && states[k + 1].ranks[r].mem == phases[k].mems[r]
           && states[k + 1].ranks[r].cache == states[k].ranks[r].cache
           && states[k + 1].ranks[r].scratch == states[k].ranks[r].scratch
    ensures phases[k].HostPhase? ==>
      states[k + 1].host == phases[k].host && states[k + 1].ranks == states[k].ranks
  {
    RunStaysClean(w, phases, states, k);
    PhaseKeepsClean(states[k], phases[k]);
    assert Possible(states[k], phases[k]);
    assert states[k + 1] == After(states[k], phases[k]);
    hide WorldRun, SendProgram, ReceiveProgram, AllSeparate, Collected, IsRun, Sent;
    match phases[k]
    case SendPhase(ts, mode, es) => AnyScheduleSends(ts, mode, states[k], es);
    case ReceivePhase(ts, mode, es) => AnyScheduleReceives(ts, mode, states[k], es);
    case _ =>
  }

  /** Phases i to k - 1 are receives and host computation. */
  ghost predicate NothingSentBetween(phases: seq<Phase>, i: nat, k: nat)
    requires k <= |phases|
  {
    forall m :: i <= m < k ==> phases[m].ReceivePhase? || phases[m].HostPhase?
  }

  /** Receives and host computation keep device memory. */
  lemma {:induction false} DeviceKept(w: World, phases: seq<Phase>, states: seq<World>, i: nat, k: nat)
    requires w.Clean() && IsRun(w, phases, states) && i <= k <= |phases| && NothingSentBetween(phases, i, k)
    ensures |states[k].ranks| == |states[i].ranks|
    ensures forall r :: 0 <= r < |states[k].ranks| ==> states[k].ranks[r].mem == states[i].ranks[r].mem
  {
    hide Collected, Sent, Possible, After;
    if i < k {
      DeviceKept(w, phases, states, i, k - 1);
      RunsNeverReadStaleLines(w, phases, states, k - 1);
    }
  }

  /** A receive hands each present buffer what the last launch left in its MRAM range, whatever was sent,
      received and cached before, and however long ago the launch was. */
  lemma ReceiveSeesLastLaunch(w: World, phases: seq<Phase>, states: seq<World>, i: nat, k: nat,
                              r: nat, slot: nat, b: nat)
    requires w.Clean() && IsRun(w, phases, states) && i < k < |phases|
    requires phases[i].LaunchPhase? && phases[k].ReceivePhase? && NothingSentBetween(phases, i + 1, k)
    requires r < |phases[k].ts| && slot < SLOTS && b < phases[k].ts[r].length
    ensures states[k].Accepts(phases[k].ts) && |phases[k].ts| == |phases[i].mems|
    ensures var t := phases[k].ts[r];
      t.buffers[slot] != NULL ==>
        states[k + 1].host[t.buffers[slot] + b] == MramByte(phases[i].mems[r], slot, t.symbolOffset + b)
  {
    hide Collected, MramByte, After, WorldRun, SendProgram, ReceiveProgram, AllSeparate;
    RunsNeverReadStaleLines(w, phases, states, i);
    DeviceKept(w, phases, states, i + 1, k);
    RunsNeverReadStaleLines(w, phases, states, k);
    assert Possible(states[k], phases[k]);
    var t := phases[k].ts[r];
    if t.buffers[slot] != NULL {
      CollectedByte(phases[k].ts, states[k], states[k + 1].host, r, slot, t.buffers[slot] + b);
    }
  }

  /** A receive hands each buffer what the last send put into the addresses that both ranges cover, for any
      two ranges and any two lists of buffers. */
  lemma ReceiveSeesLastSend(w: World, phases: seq<Phase>, states: seq<World>, i: nat, k: nat,
                            r: nat, slot: nat, a: nat)
    requires w.Clean() && IsRun(w, phases, states) && i < k < |phases|
    requires phases[i].SendPhase? && phases[k].ReceivePhase? && NothingSentBetween(phases, i + 1, k)
    requires r < |phases[k].ts| && slot < SLOTS
    ensures states[i].Accepts(phases[i].ts) && states[k].Accepts(phases[k].ts) && |phases[k].ts| == |phases[i].ts|
    ensures var s, t := phases[i].ts[r], phases[k].ts[r];
      && s.buffers[slot] != NULL && s.symbolOffset <= a < s.symbolOffset + s.length
      && t.buffers[slot] != NULL && t.symbolOffset <= a < t.symbolOffset + t.length ==>
        states[k + 1].host[t.buffers[slot] + a - t.symbolOffset] == states[i].host[s.buffers[slot] + a - s.symbolOffset]
  {
    hide Collected, MramByte, After, WorldRun, SendProgram, ReceiveProgram, AllSeparate;
    RunsNeverReadStaleLines(w, phases, states, i);
    DeviceKept(w, phases, states, i + 1, k);
    RunsNeverReadStaleLines(w, phases, states, k);
    assert Possible(states[i], phases[i]) && Possible(states[k], phases[k]);
    var s, t := phases[i].ts[r], phases[k].ts[r];
    if s.buffers[slot] != NULL && s.symbolOffset <= a < s.symbolOffset + s.length
       && t.buffers[slot] != NULL && t.symbolOffset <= a < t.symbolOffset + t.length {
      CollectedByte(phases[k].ts, states[k], states[k + 1].host, r, slot, t.buffers[slot] + a - t.symbolOffset);
      assert Sent(s, states[i].host, states[i].ranks[r].mem, states[i + 1].ranks[r].mem);
      assert MramByte(states[i + 1].ranks[r].mem, slot, a) == states[i].host[s.buffers[slot] + a - s.symbolOffset];
    }
  }

  /** Send, launch, host computation, receive, the ranks one after another: such a run exists from every
      state without dirty lines, for every outcome of the launch and of the computation. */
  lemma RunExists(ts: seq<Transfer>, sendMode: AccessMode, recvMode: AccessMode, w: World, mems: seq<Region>,
                  host: seq<byte>)
    returns (phases: seq<Phase>, states: seq<World>)
    requires w.Accepts(ts) && w.Clean() && AllSeparate(ts) && |mems| == |ts| && |host| == |w.host|
    ensures |phases| == 4 && phases[1] == LaunchPhase(mems) && phases[2] == HostPhase(host)
    ensures phases[0].SendPhase? && phases[0].ts == ts && phases[0].mode == sendMode
    ensures phases[3].ReceivePhase? && phases[3].ts == ts && phases[3].mode == recvMode
    ensures IsRun(w, phases, states)
  {
    hide WorldRun, SendProgram, ReceiveProgram, AllSeparate, OneByOne, Transfer.Fits, Interleaves, World.Clean, Sent,
         Run;
    var sends, receives := SendPrograms(ts, sendMode), ReceivePrograms(ts, recvMode);
    SendProgramsAllowed(ts, sendMode);
    OneByOneInterleaves(ts, sends);
    ReceiveProgramsAllowed(ts, recvMode);
    OneByOneInterleaves(ts, receives);
    var send := SendPhase(ts, sendMode, OneByOne(sends, |sends|));
    var receive := ReceivePhase(ts, recvMode, OneByOne(receives, |receives|));
    var w1 := After(w, send);
    AnyScheduleSends(ts, sendMode, w, send.es);
    var w2 := After(w1, LaunchPhase(mems));
    var w3 := After(w2, HostPhase(host));
    SameSizeFits(ts, w.host, host);
    phases := [send, LaunchPhase(mems), HostPhase(host), receive];
    states := [w, w1, w2, w3, After(w3, receive)];
  }

  lemma SameSizeFits(ts: seq<Transfer>, h: seq<byte>, h': seq<byte>)
    requires |h'| == |h|
    ensures forall r :: 0 <= r < |ts| ==> (ts[r].Fits(h) <==> ts[r].Fits(h'))
  {
  }

  /** In such a run every buffer ends as the launch left its MRAM range, and every other host byte as the
      computation left it. */
  lemma SendLaunchReceive(ts: seq<Transfer>, sendMode: AccessMode, recvMode: AccessMode, w: World, mems: seq<Region>,
                          host: seq<byte>)
    returns (phases: seq<Phase>, states: seq<World>)
    requires w.Accepts(ts) && w.Clean() && AllSeparate(ts) && |mems| == |ts| && |host| == |w.host|
    ensures |phases| == 4 && phases[1] == LaunchPhase(mems) && phases[2] == HostPhase(host)
    ensures phases[0].SendPhase? && phases[0].ts == ts && phases[0].mode == sendMode
    ensures phases[3].ReceivePhase? && phases[3].ts == ts && phases[3].mode == recvMode
    ensures IsRun(w, phases, states) && states[4].Accepts(ts)
    ensures forall r: nat :: r < |ts| ==> Received(ts[r], mems[r], states[4].host)
    ensures |states[4].host| == |host| && forall q: nat :: q < |host| && !Owned(ts, q) ==> states[4].host[q] == host[q]
  {
    phases, states := RunExists(ts, sendMode, recvMode, w, mems, host);
    hide AllSeparate, Collected, After, Sent, Received, Owned;
    RunsNeverReadStaleLines(w, phases, states, 1);
    RunsNeverReadStaleLines(w, phases, states, 2);
    RunsNeverReadStaleLines(w, phases, states, 3);
    assert Possible(states[3], phases[3]);
    CollectedEverywhere(ts, states[3], states[4]);
  }

  lemma CollectedEverywhere(ts: seq<Transfer>, w: World, w': World)
    requires w.Accepts(ts) && Collected(ts, w, w'.host) && |w'.ranks| == |w.ranks|
    ensures w'.Accepts(ts) && |w'.host| == |w.host|
    ensures forall r: nat :: r < |ts| ==> Received(ts[r], w.ranks[r].mem, w'.host)
    ensures forall q: nat :: q < |w.host| && !Owned(ts, q) ==> w'.host[q] == w.host[q]
  {
    hide Received, Owned;
  }

  /** Each load inside a receive schedule sees device memory, whatever was cached before it began. */
  lemma ScheduledLoadSeesDevice(ts: seq<Transfer>, mode: AccessMode, w: World, es: seq<Event>, e: Event)
    requires w.Accepts(ts) && w.Clean() && e.action.Load?
    requires Begins(ts, ReceivePrograms(ts, mode), es + [e])
    ensures PermitsAll(ts, es) && e.rank < |ts| && ts[e.rank].Covers(e.action.at)
    ensures var r, x := e.rank, ts[e.rank].LineOf(e.action.at);
      && 64 * x + 64 <= |w.ranks[r].mem|
      && WorldRun(ts, w, es).ranks[r].mem == w.ranks[r].mem
      && LoadedLine(WorldRun(ts, w, es).ranks[r], x) == LineAt(w.ranks[r].mem, x)
  {
    hide ReceiveProgram, WorldRun, Project, LoadedLine, Coherent;
    BeginsEarlier(ts, ReceivePrograms(ts, mode), es + [e]);
    assert (es + [e])[..|es|] == es && (es + [e])[|es|] == e;
    assert Permits(ts, e);
    ScheduleCoherent(ts, mode, w, es);
    var r := e.rank;
    ProjectStep(es + [e], r);
    assert Project(es + [e], r) <= ReceivePrograms(ts, mode)[r];
    LoadSeesDevice(ts[r], mode, w.ranks[r], WorldRun(ts, w, es).ranks[r], Project(es, r), e.action.at);
  }

  /** Two receives of the same device memory end in the same host memory, for any two loop orders and
      any two schedules, the one that runs the ranks one after another included. */
  lemma ReceiveScheduleIrrelevant(ts: seq<Transfer>, m1: AccessMode, m2: AccessMode, w: World,
                                  es1: seq<Event>, es2: seq<Event>)
    requires w.Accepts(ts) && w.Clean() && AllSeparate(ts)
    requires Interleaves(ts, ReceivePrograms(ts, m1), es1) && Interleaves(ts, ReceivePrograms(ts, m2), es2)
    ensures WorldRun(ts, w, es1).host == WorldRun(ts, w, es2).host
  {
    AnyScheduleReceives(ts, m1, w, es1);
    AnyScheduleReceives(ts, m2, w, es2);
    hide WorldRun, ReceiveProgram, AllSeparate, Collected, Settled;
    CollectedOnce(ts, w, WorldRun(ts, w, es1).host, WorldRun(ts, w, es2).host);
  }

  /** Two sends of the same data leave the same device memory, for any two schedules of one loop order. */
  lemma SendScheduleIrrelevant(ts: seq<Transfer>, mode: AccessMode, w: World, es1: seq<Event>, es2: seq<Event>, r: nat)
    requires w.Accepts(ts) && w.Clean() && r < |ts|
    requires Interleaves(ts, SendPrograms(ts, mode), es1) && Interleaves(ts, SendPrograms(ts, mode), es2)
    ensures WorldRun(ts, w, es1).ranks[r].mem == WorldRun(ts, w, es2).ranks[r].mem
  {
    hide WorldRun, SendProgram, Sent, Run;
    AnyScheduleSends(ts, mode, w, es1);
    AnyScheduleSends(ts, mode, w, es2);
  }

  /** Send, let the host overwrite its memory, receive the same range: every present buffer is back
      as it was sent, and no other host byte is written.  Any two loop orders, any schedules. */
  lemma RoundTrip(ts: seq<Transfer>, sendMode: AccessMode, recvMode: AccessMode, w: World,
                  es1: seq<Event>, host: seq<byte>, es2: seq<Event>, r: nat, slot: nat, b: nat)
    requires w.Accepts(ts) && w.Clean() && AllSeparate(ts) && |host| == |w.host|
    requires Interleaves(ts, SendPrograms(ts, sendMode), es1) && Interleaves(ts, ReceivePrograms(ts, recvMode), es2)
    ensures WorldRun(ts, w, es1).(host := host).Accepts(ts)
    ensures var final := WorldRun(ts, WorldRun(ts, w, es1).(host := host), es2).host;
      && |final| == |w.host|
      && (r < |ts| && slot < SLOTS && ts[r].buffers[slot] != NULL && b < ts[r].length ==>
            final[ts[r].buffers[slot] + b] == w.host[ts[r].buffers[slot] + b])
      && (forall q: nat :: q < |host| && !Owned(ts, q) ==> final[q] == host[q])
  {
    hide WorldRun, SendProgram, ReceiveProgram, AllSeparate, Settled, Run, MramByte;
    AnyScheduleSends(ts, sendMode, w, es1);
    var u := WorldRun(ts, w, es1).(host := host);
    AnyScheduleReceives(ts, recvMode, u, es2);
    if r < |ts| && slot < SLOTS && ts[r].buffers[slot] != NULL && b < ts[r].length {
      assert Received(ts[r], u.ranks[r].mem, WorldRun(ts, u, es2).host);
      assert ReceivedAt(ts[r], u.ranks[r].mem, WorldRun(ts, u, es2).host, slot, b);
      assert Sent(ts[r], w.host, w.ranks[r].mem, u.ranks[r].mem);
      assert MramByte(u.ranks[r].mem, slot, ts[r].symbolOffset + b) == w.host[ts[r].buffers[slot] + b];
    }
  }
}
