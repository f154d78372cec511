/** What any schedule of flush-bracketed receives leaves in host memory and in the caches. */
module ReceiveProofs {
  import opened Interleave
  import opened Layout
  import opened Memory
  import opened Programs
  import opened RankMachine
  import opened World

  // ----- scattering one line -----

  /** The buffers of a transfer do not overlap one another. */
  ghost predicate Separate(t: Transfer)
    requires t.Valid()
  {
    forall s1: nat, s2: nat ::
      s1 < SLOTS && s2 < SLOTS && s1 != s2 && t.buffers[s1] != NULL && t.buffers[s2] != NULL ==>
        t.buffers[s1] + t.length <= t.buffers[s2] || t.buffers[s2] + t.length <= t.buffers[s1]
  }

  /** Host address q is among the eight bytes that lane j of a visit writes. */
  predicate InLane(t: Transfer, v: Visit, j: nat, q: nat)
    requires t.Valid() && t.Covers(v) && j < 8
  {
    t.LaneBuffer(v, j) != NULL && t.LaneBuffer(v, j) + 8 * v.word <= q < t.LaneBuffer(v, j) + 8 * v.word + 8
  }

  lemma {:induction false} ScatterFrame(t: Transfer, host: seq<byte>, v: Visit, line: Line, j: nat, q: nat)
    requires t.Fits(host) && t.Covers(v) && j <= 8 && q < |host|
    requires forall k: nat :: k < j ==> !InLane(t, v, k, q)
    ensures ScatterLanes(t, host, v, line, j)[q] == host[q]
  {
    hide ScatterLanes, LineIndex, Store, Transfer.Fits, Transfer.Covers;
    if j == 0 {
      ScatterNone(t, host, v, line);
    } else {
      ScatterFrame(t, host, v, line, j - 1, q);
      LaneInHost(t, host, v, j - 1);
      ScatterLanesNext(t, host, v, line, j - 1);
      if t.LaneBuffer(v, j - 1) != NULL {
        assert !InLane(t, v, j - 1, q);
        StoreElsewhere(ScatterLanes(t, host, v, line, j - 1), t.LaneBuffer(v, j - 1) + 8 * v.word,
                       line[8 * (j - 1)..8 * j], q);
      }
    }
  }

  lemma ScatterNone(t: Transfer, host: seq<byte>, v: Visit, line: Line)
    requires t.Fits(host) && t.Covers(v)
    ensures ScatterLanes(t, host, v, line, 0) == host
  {
  }

  /** Lane k of the line reaches its buffer and no later lane overwrites it. */
  lemma {:induction false} ScatterDelivers(t: Transfer, host: seq<byte>, v: Visit, line: Line, j: nat, k: nat, c: nat)
    requires t.Fits(host) && t.Covers(v) && Separate(t) && k < j <= 8 && c < 8
    requires t.LaneBuffer(v, k) != NULL
    ensures t.LaneBuffer(v, k) + 8 * v.word + c < |host|
    ensures ScatterLanes(t, host, v, line, j)[t.LaneBuffer(v, k) + 8 * v.word + c] == line[8 * k + c]
  {
    hide ScatterLanes, LineIndex, Store, Transfer.Fits, Transfer.Covers;
    LaneInHost(t, host, v, k);
    LaneInHost(t, host, v, j - 1);
    ScatterLanesNext(t, host, v, line, j - 1);
    if k == j - 1 {
      LastLane(t, host, v, line, k, c);
    } else {
      ScatterDelivers(t, host, v, line, j - 1, k, c);
      if t.LaneBuffer(v, j - 1) != NULL {
        LanesApart(t, v, k, j - 1);
        var p := t.LaneBuffer(v, j - 1) + 8 * v.word;
        LaneGap(t, v);
        StoreElsewhere(ScatterLanes(t, host, v, line, j - 1), p, line[8 * (j - 1)..8 * j],
                       t.LaneBuffer(v, k) + 8 * v.word + c);
      }
    }
  }

  lemma LaneGap(t: Transfer, v: Visit)
    requires t.Covers(v)
    ensures 8 * v.word + 8 <= t.length
  {
  }

  lemma StoreElsewhere(mem: seq<byte>, off: nat, data: seq<byte>, q: nat)
    requires off + |data| <= |mem| && q < |mem| && (q < off || off + |data| <= q)
    ensures Store(mem, off, data)[q] == mem[q]
  {
  }

  lemma LastLane(t: Transfer, host: seq<byte>, v: Visit, line: Line, k: nat, c: nat)
    requires t.Fits(host) && t.Covers(v) && k < 8 && c < 8 && t.LaneBuffer(v, k) != NULL
    ensures t.LaneBuffer(v, k) + 8 * v.word + c < |host|
    ensures ScatterLanes(t, host, v, line, k + 1)[t.LaneBuffer(v, k) + 8 * v.word + c] == line[8 * k + c]
  {
    assert line[8 * k..8 * (k + 1)][c] == line[8 * k + c];
  }

  lemma LanesApart(t: Transfer, v: Visit, k: nat, j: nat)
    requires t.Valid() && t.Covers(v) && Separate(t) && k < 8 && j < 8 && k != j
    requires t.LaneBuffer(v, k) != NULL && t.LaneBuffer(v, j) != NULL
    ensures t.LaneBuffer(v, k) + t.length <= t.LaneBuffer(v, j) || t.LaneBuffer(v, j) + t.length <= t.LaneBuffer(v, k)
  {
    assert 8 * k + v.Bank() != 8 * j + v.Bank();
  }

  // ----- one load -----

  ghost predicate ByteReceived(t: Transfer, host: seq<byte>, mem: Region, slot: nat, i: nat, c: nat)
    requires t.Fits(host) && slot < SLOTS && t.buffers[slot] != NULL && i < t.Words() && c < 8
  {
    host[t.buffers[slot] + 8 * i + c] == MramByte(mem, slot, t.symbolOffset + 8 * i + c)
  }

  ghost predicate WordReceived(t: Transfer, host: seq<byte>, mem: Region, slot: nat, i: nat)
    requires t.Fits(host) && slot < SLOTS && t.buffers[slot] != NULL && i < t.Words()
  {
    forall c: nat :: c < 8 ==> ByteReceived(t, host, mem, slot, i, c)
  }

  /** A load that returns the device's line hands each present slot its word. */
  lemma LoadDeliversByte(t: Transfer, host: seq<byte>, r: Rank, slot: nat, i: nat, c: nat)
    requires t.Fits(host) && Separate(t)
    requires slot < SLOTS && t.buffers[slot] != NULL && i < t.Words() && c < 8
    requires t.Covers(t.VisitOf(slot, i)) && 64 * t.LineOf(t.VisitOf(slot, i)) + 64 <= |r.mem|
    requires LoadedLine(r, t.LineOf(t.VisitOf(slot, i))) == LineAt(r.mem, t.LineOf(t.VisitOf(slot, i)))
    ensures ByteReceived(t, HostStep(t, host, r, Load(t.VisitOf(slot, i))), r.mem, slot, i, c)
  {
    hide LineIndex, Physical, LoadedLine, HostStep, Transfer.Fits, MramByte;
    FitsIsValid(t, host);
    var v, j := t.VisitOf(slot, i), slot / 8;
    SlotInLine(t, slot, i, c);
    LoadedLane(t, host, r, v, j, c);
    ByteOfLine(r.mem, t.LineOf(v), c, j);
    MramByteIs(r.mem, slot, t.symbolOffset + 8 * i + c);
  }

  lemma MramByteIs(mem: Region, slot: nat, a: nat)
    requires slot < SLOTS && a < MRAM_SIZE
    ensures Physical(slot, a) < |mem| && MramByte(mem, slot, a) == mem[Physical(slot, a)]
  {
    hide Physical;
    LayoutInjective(slot, a);
  }

  /** Byte c of lane j receives byte 8c + j of the loaded line. */
  lemma LoadedLane(t: Transfer, host: seq<byte>, r: Rank, v: Visit, j: nat, c: nat)
    requires t.Fits(host) && Separate(t) && t.Covers(v) && j < 8 && c < 8
    requires 64 * t.LineOf(v) + 64 <= |r.mem| && t.LaneBuffer(v, j) != NULL
    ensures t.LaneBuffer(v, j) + 8 * v.word + c < |host|
    ensures HostStep(t, host, r, Load(v))[t.LaneBuffer(v, j) + 8 * v.word + c] == LoadedLine(r, t.LineOf(v))[8 * c + j]
  {
    hide ByteInterleave, LineIndex, LoadedLine, ScatterLanes, Transfer.Fits;
    FitsIsValid(t, host);
    var line := ByteInterleave(LoadedLine(r, t.LineOf(v)));
    ScatterDelivers(t, host, v, line, 8, j, c);
    InterleaveTransposes(LoadedLine(r, t.LineOf(v)), c, j);
  }

  lemma ByteOfLine(mem: seq<byte>, x: nat, c: nat, j: nat)
    requires 64 * x + 64 <= |mem| && c < 8 && j < 8
    ensures LineAt(mem, x)[8 * c + j] == mem[64 * x + 8 * c + j]
  {
  }

  /** A load changes no other host byte. */
  lemma LoadFrame(t: Transfer, host: seq<byte>, r: Rank, a: Action, q: nat)
    requires t.Fits(host) && t.Allows(a) && q < |host|
    requires a.Load? ==> forall j: nat :: j < 8 ==> !InLane(t, a.at, j, q)
    ensures HostStep(t, host, r, a)[q] == host[q]
  {
    hide ByteInterleave, LineIndex, LoadedLine, ScatterLanes, InLane, Transfer.Fits;
    FitsIsValid(t, host);
    if a.Load? {
      LineInRegion(t, a.at);
      ScatterFrame(t, host, a.at, ByteInterleave(LoadedLine(r, t.LineOf(a.at))), 8, q);
    }
  }

  // ----- the cache during one rank's receive -----

  /** Of the actions done so far, the final flush loop's. */
  function FinalFlushes(t: Transfer, mode: AccessMode, done: seq<Action>): seq<Action>
  {
    var n := |Flushes(t)| + |Body(t, true, mode)|;
    if |done| <= n then [] else done[n..]
  }

  /** Device memory is untouched and no line is dirty; a line flushed since the start is cached only
      with its device contents; only the transfer's lines have been added to the cache; and those
      that the final loop has flushed are not cached. */
  ghost predicate Coherent(t: Transfer, mode: AccessMode, r0: Rank, r: Rank, done: seq<Action>)
    requires t.Valid()
  {
    && r.mem == r0.mem && r.Clean()
    && (forall v: Visit :: t.Covers(v) && Flush(v) in done ==> HoldsDevice(t, r, v))
    && (forall x :: x in r.cache ==> x in r0.cache || InTransfer(t, x))
    && (forall v: Visit :: t.Covers(v) && Flush(v) in FinalFlushes(t, mode, done) ==> t.LineOf(v) !in r.cache)
  }

  ghost predicate HoldsDevice(t: Transfer, r: Rank, v: Visit)
    requires t.Valid() && t.Covers(v)
  {
    LineInRegion(t, v);
    t.LineOf(v) in r.cache ==> r.cache[t.LineOf(v)].data == LineAt(r.mem, t.LineOf(v))
  }

  /** Every load and prefetch comes after the first flush loop and before the second. */
  lemma LoadsAreBracketed(t: Transfer, mode: AccessMode, k: nat)
    requires k < |ReceiveProgram(t, mode)|
    ensures var a := ReceiveProgram(t, mode)[k];
      && !a.Evict? && !a.Stream? && t.Covers(a.at)
      && (a.Load? || a.Prefetch? ==>
            |Flushes(t)| <= k < |Flushes(t)| + |Body(t, true, mode)|
            && Flush(a.at) in ReceiveProgram(t, mode)[..k] && Flush(a.at) in ReceiveProgram(t, mode)[k..])
  {
    BodyActions(t, true, mode);
    FlushesCover(t);
    hide Body, Flushes;
    var f, b := Flushes(t), Body(t, true, mode);
    var program := ReceiveProgram(t, mode);
    var a := program[k];
    if |f| <= k < |f| + |b| {
      assert a == b[k - |f|];
      assert Flush(a.at) in f;
      var i :| 0 <= i < |f| && f[i] == Flush(a.at);
      assert program[..k][i] == f[i];
      assert program[k..][|f| + |b| - k + i] == f[i];
    } else if k < |f| {
      assert a == f[k];
    } else {
      assert a == f[k - |f| - |b|];
    }
  }

  lemma PrefixElement(acts: seq<Action>, a: Action, program: seq<Action>)
    requires acts + [a] <= program
    ensures |acts| < |program| && program[|acts|] == a && program[..|acts|] == acts
  {
    assert (acts + [a])[|acts|] == a;
    assert (acts + [a])[..|acts|] == acts;
  }

  lemma FinalFlushesGrow(t: Transfer, mode: AccessMode, done: seq<Action>, a: Action)
    ensures FinalFlushes(t, mode, done + [a])
         == if |done| < |Flushes(t)| + |Body(t, true, mode)| then [] else FinalFlushes(t, mode, done) + [a]
  {
  }

  /** A flush keeps the cache coherent and establishes coherence of the flushed line. */
  lemma CoherentFlush(t: Transfer, mode: AccessMode, r0: Rank, r: Rank, done: seq<Action>, v: Visit)
    requires t.Valid() && t.Covers(v) && Coherent(t, mode, r0, r, done)
    requires 64 * t.LineOf(v) + 64 <= |r.mem|
    ensures Coherent(t, mode, r0, FlushLine(r, t.LineOf(v)), done + [Flush(v)])
  {
    FinalFlushesGrow(t, mode, done, Flush(v));
    hide LineIndex, InTransfer, FinalFlushes, Flushes, Body;
    var r' := FlushLine(r, t.LineOf(v));
    forall w: Visit | t.Covers(w) && Flush(w) in done + [Flush(v)]
      ensures HoldsDevice(t, r', w)
    {
      if Flush(w) in done {
        assert HoldsDevice(t, r, w);
      }
    }
  }

  /** A fetch of a line flushed before, while the final loop has not begun, keeps it coherent. */
  lemma CoherentFetch(t: Transfer, mode: AccessMode, r0: Rank, r: Rank, done: seq<Action>, a: Action)
    requires t.Valid() && (a.Load? || a.Prefetch?) && t.Covers(a.at) && Coherent(t, mode, r0, r, done)
    requires Flush(a.at) in done && |done| < |Flushes(t)| + |Body(t, true, mode)|
    requires 64 * t.LineOf(a.at) + 64 <= |r.mem| && InTransfer(t, t.LineOf(a.at))
    ensures Coherent(t, mode, r0, FetchLine(r, t.LineOf(a.at)), done + [a])
  {
    FinalFlushesGrow(t, mode, done, a);
    hide LineIndex, InTransfer, FinalFlushes, Flushes, Body;
    var r' := FetchLine(r, t.LineOf(a.at));
    forall w: Visit | t.Covers(w) && Flush(w) in done + [a]
      ensures HoldsDevice(t, r', w)
    {
      assert Flush(w) in done;
      assert HoldsDevice(t, r, w);
    }
  }

  /** One action of a rank's own thread keeps its cache coherent. */
  lemma CoherentStep(t: Transfer, mode: AccessMode, host: seq<byte>, r0: Rank, r: Rank, done: seq<Action>, a: Action)
    requires t.Fits(host) && done + [a] <= ReceiveProgram(t, mode)
    requires Coherent(t, mode, r0, r, done)
    ensures t.Allows(a) && !a.Evict?
    ensures Coherent(t, mode, r0, RankStep(t, host, r, a), done + [a])
  {
    PrefixElement(done, a, ReceiveProgram(t, mode));
    LoadsAreBracketed(t, mode, |done|);
    LineInRegion(t, a.at);
    LinesOfTransfer(t, a.at);
    hide ReceiveProgram, LineIndex, InTransfer, ByteInterleave, FinalFlushes, Flushes, Body, Coherent, FlushLine,
         FetchLine;
    if a.Flush? {
      CoherentFlush(t, mode, r0, r, done, a.at);
    } else {
      CoherentFetch(t, mode, r0, r, done, a);
    }
  }

  lemma CoherentEvict(t: Transfer, mode: AccessMode, host: seq<byte>, r0: Rank, r: Rank, done: seq<Action>, x: nat)
    requires t.Fits(host) && Coherent(t, mode, r0, r, done)
    ensures Coherent(t, mode, r0, RankStep(t, host, r, Evict(x)), done)
  {
    hide LineIndex, InTransfer, ByteInterleave;
    var r' := RankStep(t, host, r, Evict(x));
    forall v: Visit | t.Covers(v) && Flush(v) in done
      ensures HoldsDevice(t, r', v)
    {
      assert HoldsDevice(t, r, v);
    }
  }

  // ----- any schedule of all ranks -----

  function ReceivePrograms(ts: seq<Transfer>, mode: AccessMode): seq<seq<Action>> {
    seq(|ts|, r requires 0 <= r < |ts| => ReceiveProgram(ts[r], mode))
  }

  /** Host address q belongs to the buffer of a slot. */
  predicate InBuffer(t: Transfer, slot: nat, q: nat)
    requires t.Valid() && slot < SLOTS
  {
    t.buffers[slot] != NULL && t.buffers[slot] <= q < t.buffers[slot] + t.length
  }

  ghost predicate Owned(ts: seq<Transfer>, q: nat)
    requires forall r :: 0 <= r < |ts| ==> ts[r].Valid()
  {
    exists r, slot :: 0 <= r < |ts| && 0 <= slot < SLOTS && InBuffer(ts[r], slot, q)
  }

  /** No host byte belongs to two buffers, of one rank or of two. */
  ghost predicate AllSeparate(ts: seq<Transfer>)
    requires forall r :: 0 <= r < |ts| ==> ts[r].Valid()
  {
    forall r1, s1, r2, s2, q: nat {:trigger InBuffer(ts[r1], s1, q), InBuffer(ts[r2], s2, q)} ::
      (0 <= r1 < |ts| && 0 <= s1 < SLOTS && 0 <= r2 < |ts| && 0 <= s2 < SLOTS
       && InBuffer(ts[r1], s1, q) && InBuffer(ts[r2], s2, q)) ==>
        r1 == r2 && s1 == s2
  }

  lemma SeparateRank(ts: seq<Transfer>, r: nat)
    requires (forall r :: 0 <= r < |ts| ==> ts[r].Valid()) && AllSeparate(ts) && r < |ts|
    ensures ts[r].length > 0 ==> Separate(ts[r])
  {
    var t := ts[r];
    if t.length > 0 {
      forall s1: nat, s2: nat
        | s1 < SLOTS && s2 < SLOTS && s1 != s2 && t.buffers[s1] != NULL && t.buffers[s2] != NULL
        ensures t.buffers[s1] + t.length <= t.buffers[s2] || t.buffers[s2] + t.length <= t.buffers[s1]
      {
        var q := if t.buffers[s1] <= t.buffers[s2] then t.buffers[s2] else t.buffers[s1];
        if q < t.buffers[s1] + t.length && q < t.buffers[s2] + t.length {
          assert InBuffer(ts[r], s1, q) && InBuffer(ts[r], s2, q);
        }
      }
    }
  }

  lemma ProjectStep(es: seq<Event>, r: nat)
    requires es != []
    ensures var e := es[|es| - 1];
      Project(es, r) == if e.rank == r && !e.action.Evict? then Project(es[..|es| - 1], r) + [e.action]
                        else Project(es[..|es| - 1], r)
  {
  }

  /** Every rank is coherent after the beginning of a receive schedule. */
  ghost predicate AllCoherent(ts: seq<Transfer>, mode: AccessMode, w: World, w': World, es: seq<Event>)
    requires w.Accepts(ts)
  {
    |w'.ranks| == |w.ranks|
    && forall r :: 0 <= r < |ts| ==> Coherent(ts[r], mode, w.ranks[r], w'.ranks[r], Project(es, r))
  }

  lemma CoherentEvent(ts: seq<Transfer>, mode: AccessMode, w: World, u: World, es: seq<Event>)
    requires w.Accepts(ts) && u.Accepts(ts) && es != [] && Begins(ts, ReceivePrograms(ts, mode), es)
    requires AllCoherent(ts, mode, w, u, es[..|es| - 1])
    ensures Permits(ts, es[|es| - 1])
    ensures AllCoherent(ts, mode, w, WorldStep(ts, u, es[|es| - 1]), es)
  {
    hide Coherent, ReceiveProgram, Project, RankStep, HostStep;
    var e := es[|es| - 1];
    var init := es[..|es| - 1];
    forall r | 0 <= r < |ts|
      ensures Coherent(ts[r], mode, w.ranks[r], WorldStep(ts, u, e).ranks[r], Project(es, r))
    {
      ProjectStep(es, r);
      assert Coherent(ts[r], mode, w.ranks[r], u.ranks[r], Project(init, r));
      if e.rank == r {
        assert Project(es, r) <= ReceivePrograms(ts, mode)[r];
        if e.action.Evict? {
          CoherentEvict(ts[r], mode, u.host, w.ranks[r], u.ranks[r], Project(init, r), e.action.index);
        } else {
          CoherentStep(ts[r], mode, u.host, w.ranks[r], u.ranks[r], Project(init, r), e.action);
        }
      }
    }
  }

  lemma {:induction false} ScheduleCoherent(ts: seq<Transfer>, mode: AccessMode, w: World, es: seq<Event>)
    requires w.Accepts(ts) && w.Clean() && Begins(ts, ReceivePrograms(ts, mode), es)
    ensures AllCoherent(ts, mode, w, WorldRun(ts, w, es), es)
  {
    hide ReceiveProgram, RankStep, HostStep;
    if es == [] {
    } else {
      var init := es[..|es| - 1];
      BeginsEarlier(ts, ReceivePrograms(ts, mode), es);
      ScheduleCoherent(ts, mode, w, init);
      CoherentEvent(ts, mode, w, WorldRun(ts, w, init), es);
    }
  }

  // ----- host memory under a schedule -----

  /** Every word that a rank's thread has loaded is in its buffer, and unowned host bytes are as before. */
  ghost predicate HostProgress(ts: seq<Transfer>, w: World, host: seq<byte>, es: seq<Event>)
    requires w.Accepts(ts)
  {
    && |host| == |w.host|
    && (forall r, slot: nat, i: nat {:trigger WordReceived(ts[r], host, w.ranks[r].mem, slot, i)} ::
          0 <= r < |ts| && slot < SLOTS && ts[r].buffers[slot] != NULL && i < ts[r].Words()
          && Load(ts[r].VisitOf(slot, i)) in Project(es, r) ==>
            WordReceived(ts[r], host, w.ranks[r].mem, slot, i))
    && (forall q: nat :: q < |host| && !Owned(ts, q) ==> host[q] == w.host[q])
  }

  /** Lane j of a visit writes into the buffer of slot 8*j + bank. */
  lemma LaneOwner(t: Transfer, v: Visit, j: nat, q: nat)
    requires t.Valid() && t.Covers(v) && j < 8 && InLane(t, v, j, q)
    ensures InBuffer(t, 8 * j + v.Bank(), q)
    ensures q - t.buffers[8 * j + v.Bank()] >= 8 * v.word && q - t.buffers[8 * j + v.Bank()] < 8 * v.word + 8
  {
  }

  /** A load at another (rank, slot, word) does not touch byte c of word i of a slot. */
  lemma OtherLoadMisses(ts: seq<Transfer>, r: nat, slot: nat, i: nat, c: nat, e: Event, j: nat)
    requires (forall r :: 0 <= r < |ts| ==> ts[r].Valid()) && AllSeparate(ts)
    requires r < |ts| && slot < SLOTS && ts[r].buffers[slot] != NULL && i < ts[r].Words() && c < 8 && j < 8
    requires Permits(ts, e) && e.action.Load? && !(e.rank == r && e.action == Load(ts[r].VisitOf(slot, i)))
    ensures !InLane(ts[e.rank], e.action.at, j, ts[r].buffers[slot] + 8 * i + c)
  {
    hide LineIndex;
    var q := ts[r].buffers[slot] + 8 * i + c;
    var t, v := ts[e.rank], e.action.at;
    assert InBuffer(ts[r], slot, q);
    if InLane(t, v, j, q) {
      LaneOwner(t, v, j, q);
      VisitOfLane(t, v, j);
      assert false;
    }
  }

  lemma VisitOfLane(t: Transfer, v: Visit, j: nat)
    requires t.Covers(v) && j < 8
    ensures t.VisitOf(8 * j + v.Bank(), v.word) == v
  {
    assert (8 * j + v.Bank()) % 4 == v.dpuId && (8 * j + v.Bank()) % 8 / 4 == v.group;
  }

  lemma UnownedMisses(ts: seq<Transfer>, e: Event, j: nat, q: nat)
    requires (forall r :: 0 <= r < |ts| ==> ts[r].Valid()) && Permits(ts, e) && e.action.Load? && j < 8 && !Owned(ts, q)
    ensures !InLane(ts[e.rank], e.action.at, j, q)
  {
    if InLane(ts[e.rank], e.action.at, j, q) {
      LaneOwner(ts[e.rank], e.action.at, j, q);
    }
  }

  /** A word that has been received survives every other event. */
  lemma ReceivedWordKept(ts: seq<Transfer>, mem: Region, u: World, e: Event, r: nat, slot: nat, i: nat)
    requires u.Accepts(ts) && AllSeparate(ts) && Permits(ts, e)
    requires r < |ts| && slot < SLOTS && ts[r].buffers[slot] != NULL && i < ts[r].Words()
    requires WordReceived(ts[r], u.host, mem, slot, i)
    requires !(e.rank == r && e.action == Load(ts[r].VisitOf(slot, i)))
    ensures WordReceived(ts[r], WorldStep(ts, u, e).host, mem, slot, i)
  {
    hide RankStep, HostStep, MramByte, AllSeparate, InLane;
    var t := ts[e.rank];
    forall c: nat | c < 8
      ensures ByteReceived(ts[r], WorldStep(ts, u, e).host, mem, slot, i, c)
    {
      var q := ts[r].buffers[slot] + 8 * i + c;
      assert ByteReceived(ts[r], u.host, mem, slot, i, c);
      if e.action.Load? {
        forall j: nat | j < 8 ensures !InLane(t, e.action.at, j, q) {
          OtherLoadMisses(ts, r, slot, i, c, e, j);
        }
      }
      LoadFrame(t, u.host, u.ranks[e.rank], e.action, q);
    }
  }

  /** A load in a coherent cache returns device memory, so its words are received. */
  lemma LoadedWordReceived(t: Transfer, mode: AccessMode, host: seq<byte>, r0: Rank, r: Rank, done: seq<Action>,
                           slot: nat, i: nat)
    requires t.Fits(host) && Separate(t)
    requires slot < SLOTS && t.buffers[slot] != NULL && i < t.Words()
    requires Coherent(t, mode, r0, r, done) && done + [Load(t.VisitOf(slot, i))] <= ReceiveProgram(t, mode)
    ensures t.Covers(t.VisitOf(slot, i))
    ensures WordReceived(t, HostStep(t, host, r, Load(t.VisitOf(slot, i))), r0.mem, slot, i)
  {
    SlotInLine(t, slot, i, 0);
    LoadSeesDevice(t, mode, r0, r, done, t.VisitOf(slot, i));
    hide HostStep, ReceiveProgram, MramByte, Coherent, LoadedLine, LineIndex;
    forall c: nat | c < 8
      ensures ByteReceived(t, HostStep(t, host, r, Load(t.VisitOf(slot, i))), r0.mem, slot, i, c)
    {
      LoadDeliversByte(t, host, r, slot, i, c);
    }
  }

  /** Whatever was cached before the receive began, its loads return what the device holds. */
  lemma LoadSeesDevice(t: Transfer, mode: AccessMode, r0: Rank, r: Rank, done: seq<Action>, v: Visit)
    requires t.Valid() && Coherent(t, mode, r0, r, done) && done + [Load(v)] <= ReceiveProgram(t, mode)
    ensures t.Covers(v) && 64 * t.LineOf(v) + 64 <= |r.mem| && r.mem == r0.mem
    ensures LoadedLine(r, t.LineOf(v)) == LineAt(r0.mem, t.LineOf(v))
  {
    PrefixElement(done, Load(v), ReceiveProgram(t, mode));
    LoadsAreBracketed(t, mode, |done|);
    LineInRegion(t, v);
    hide ReceiveProgram, LineIndex, FinalFlushes, InTransfer;
    assert HoldsDevice(t, r, v);
  }

  lemma HostEvent(ts: seq<Transfer>, mode: AccessMode, w: World, u: World, es: seq<Event>)
    requires w.Accepts(ts) && u.Accepts(ts) && AllSeparate(ts)
    requires es != [] && Begins(ts, ReceivePrograms(ts, mode), es)
    requires AllCoherent(ts, mode, w, u, es[..|es| - 1]) && HostProgress(ts, w, u.host, es[..|es| - 1])
    ensures Permits(ts, es[|es| - 1])
    ensures HostProgress(ts, w, WorldStep(ts, u, es[|es| - 1]).host, es)
  {
    hide Coherent, ReceiveProgram, Project, RankStep, HostStep, WordReceived, AllSeparate, InLane, InBuffer;
    var e, init := es[|es| - 1], es[..|es| - 1];
    var host' := WorldStep(ts, u, e).host;
    forall r, slot: nat, i: nat
      | 0 <= r < |ts| && slot < SLOTS && ts[r].buffers[slot] != NULL && i < ts[r].Words()
        && Load(ts[r].VisitOf(slot, i)) in Project(es, r)
      ensures WordReceived(ts[r], host', w.ranks[r].mem, slot, i)
    {
      ProjectStep(es, r);
      if e.rank == r && e.action == Load(ts[r].VisitOf(slot, i)) {
        assert Project(es, r) <= ReceivePrograms(ts, mode)[r];
        assert Coherent(ts[r], mode, w.ranks[r], u.ranks[r], Project(init, r));
        SeparateRank(ts, r);
        LoadedWordReceived(ts[r], mode, u.host, w.ranks[r], u.ranks[r], Project(init, r), slot, i);
      } else {
        assert WordReceived(ts[r], u.host, w.ranks[r].mem, slot, i);
        ReceivedWordKept(ts, w.ranks[r].mem, u, e, r, slot, i);
      }
    }
    forall q: nat | q < |host'| && !Owned(ts, q) ensures host'[q] == w.host[q] {
      UnownedKept(ts, u, e, q);
    }
  }

  lemma UnownedKept(ts: seq<Transfer>, u: World, e: Event, q: nat)
    requires u.Accepts(ts) && Permits(ts, e) && q < |u.host| && !Owned(ts, q)
    ensures WorldStep(ts, u, e).host[q] == u.host[q]
  {
    hide RankStep, HostStep, Owned, InLane;
    if e.action.Load? {
      forall j: nat | j < 8 ensures !InLane(ts[e.rank], e.action.at, j, q) {
        UnownedMisses(ts, e, j, q);
      }
    }
    LoadFrame(ts[e.rank], u.host, u.ranks[e.rank], e.action, q);
  }

  lemma {:induction false} ScheduleProgress(ts: seq<Transfer>, mode: AccessMode, w: World, es: seq<Event>)
    requires w.Accepts(ts) && w.Clean() && AllSeparate(ts) && Begins(ts, ReceivePrograms(ts, mode), es)
    ensures AllCoherent(ts, mode, w, WorldRun(ts, w, es), es)
    ensures HostProgress(ts, w, WorldRun(ts, w, es).host, es)
  {
    hide ReceiveProgram, RankStep, HostStep, AllSeparate, AllCoherent, Owned;
    ScheduleCoherent(ts, mode, w, es);
    if es == [] {
    } else {
      var init := es[..|es| - 1];
      BeginsEarlier(ts, ReceivePrograms(ts, mode), es);
      ScheduleProgress(ts, mode, w, init);
      HostEvent(ts, mode, w, WorldRun(ts, w, init), es);
    }
  }
}
