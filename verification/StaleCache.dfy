/** Why a receive begins with a flush: what its loads alone would hand to the host. */
module StaleCache {
  import opened Layout
  import opened Memory
  import opened Programs
  import opened RankMachine
  import opened ReceiveProofs
  import opened Schedules
  import opened World

  /** A load of a cached line returns the cached copy, whatever the device holds; a load of another line
      returns device memory and leaves a clean copy. */
  lemma LoadedFromCache(r: Rank, x: nat)
    requires 64 * x + 64 <= |r.mem|
    ensures x in r.cache ==> LoadedLine(r, x) == r.cache[x].data && FetchLine(r, x) == r
    ensures x !in r.cache ==>
      && LoadedLine(r, x) == r.mem[64 * x..64 * x + 64]
      && FetchLine(r, x) == r.(cache := r.cache[x := CacheLine(r.mem[64 * x..64 * x + 64], false)])
  {
  }

  /** A flush writes a dirty line back, drops the line, and touches nothing else. */
  lemma FlushedLine(r: Rank, x: nat, p: nat)
    requires 64 * x + 64 <= |r.mem| && p < |r.mem|
    ensures FlushLine(r, x).cache == r.cache - {x} && FlushLine(r, x).scratch == r.scratch
    ensures |FlushLine(r, x).mem| == |r.mem|
    ensures FlushLine(r, x).mem[p]
         == if p / 64 == x && x in r.cache && r.cache[x].dirty then r.cache[x].data[p % 64] else r.mem[p]
  {
    if x in r.cache {
      assert p / 64 == x <==> 64 * x <= p < 64 * x + 64;
    } else {
      assert r.cache - {x} == r.cache;
    }
  }

  /** The region as the host sees it through its cache. */
  function View(r: Rank): (v: Region)
    ensures |v| == |r.mem|
  {
    seq(|r.mem|, p requires 0 <= p < |r.mem| => if p / 64 in r.cache then r.cache[p / 64].data[p % 64] else r.mem[p])
  }

  lemma FetchKeepsView(r: Rank, x: nat)
    requires 64 * x + 64 <= |r.mem|
    ensures View(FetchLine(r, x)) == View(r)
  {
    forall p | 0 <= p < |r.mem| && p / 64 == x ensures LineAt(r.mem, x)[p % 64] == r.mem[p] {
      assert p == 64 * x + p % 64;
    }
  }

  lemma LoadedIsView(r: Rank, x: nat)
    requires 64 * x + 64 <= |r.mem|
    ensures LoadedLine(r, x) == LineAt(View(r), x)
  {
    forall k | 0 <= k < 64 ensures LoadedLine(r, x)[k] == LineAt(View(r), x)[k] {
      assert (64 * x + k) / 64 == x && (64 * x + k) % 64 == k;
    }
  }

  lemma ViewAfterFlush(r: Rank, x: nat, p: nat)
    requires 64 * x + 64 <= |r.mem| && p < |r.mem|
    ensures |FlushLine(r, x).mem| == |r.mem|
    ensures View(FlushLine(r, x))[p]
         == if p / 64 == x && x in r.cache && !r.cache[x].dirty then r.mem[p] else View(r)[p]
  {
    hide FlushLine;
    FlushedLine(r, x, p);
  }

  /** A flush changes what the host sees exactly when it drops a clean copy that differs from the device. */
  lemma FlushKeepsViewIff(r: Rank, x: nat)
    requires 64 * x + 64 <= |r.mem|
    ensures View(FlushLine(r, x)) == View(r) <==>
      (x in r.cache && !r.cache[x].dirty ==> r.cache[x].data == r.mem[64 * x..64 * x + 64])
  {
    LoadedIsView(r, x);
    LoadedFromCache(r, x);
    FlushedLine(r, x, 0);
    LoadedIsView(FlushLine(r, x), x);
    LoadedFromCache(FlushLine(r, x), x);
    CleanFlush(r, x);
    hide FlushLine, View, LoadedLine, FetchLine;
    var v, v' := View(r), View(FlushLine(r, x));
    forall p | 0 <= p < |r.mem|
      ensures v'[p] == if p / 64 == x && x in r.cache && !r.cache[x].dirty then r.mem[p] else v[p]
    {
      ViewAfterFlush(r, x, p);
    }
    if x in r.cache && !r.cache[x].dirty && r.cache[x].data == r.mem[64 * x..64 * x + 64] {
      forall p | 0 <= p < |r.mem| && p / 64 == x ensures v[p] == r.mem[p] {
        assert p == 64 * x + p % 64;
        assert LineAt(v, x)[p % 64] == v[p] && r.mem[64 * x..64 * x + 64][p % 64] == r.mem[p];
      }
    }
  }

  lemma CleanFlush(r: Rank, x: nat)
    requires 64 * x + 64 <= |r.mem|
    ensures x in r.cache && !r.cache[x].dirty ==> FlushLine(r, x).mem == r.mem
  {
  }

  /** A load hands each present slot its word as the host sees it. */
  lemma LoadDeliversView(t: Transfer, host: seq<byte>, r: Rank, slot: nat, i: nat)
    requires t.Fits(host) && Separate(t) && slot < SLOTS && t.buffers[slot] != NULL && i < t.Words()
    ensures t.Covers(t.VisitOf(slot, i))
    ensures WordReceived(t, HostStep(t, host, r, Load(t.VisitOf(slot, i))), View(r), slot, i)
  {
    SlotInLine(t, slot, i, 0);
    hide HostStep, ByteReceived, View, LineIndex;
    forall c: nat | c < 8
      ensures ByteReceived(t, HostStep(t, host, r, Load(t.VisitOf(slot, i))), View(r), slot, i, c)
    {
      LoadDeliversViewByte(t, host, r, slot, i, c);
    }
  }

  lemma LoadDeliversViewByte(t: Transfer, host: seq<byte>, r: Rank, slot: nat, i: nat, c: nat)
    requires t.Fits(host) && Separate(t) && slot < SLOTS && t.buffers[slot] != NULL && i < t.Words() && c < 8
    ensures t.Covers(t.VisitOf(slot, i))
    ensures ByteReceived(t, HostStep(t, host, r, Load(t.VisitOf(slot, i))), View(r), slot, i, c)
  {
    hide LineIndex, Physical, LoadedLine, HostStep, Transfer.Fits, MramByte, View, Separate;
    FitsIsValid(t, host);
    var v, j := t.VisitOf(slot, i), slot / 8;
    SlotInLine(t, slot, i, c);
    LineInRegion(t, v);
    LoadedIsView(r, t.LineOf(v));
    LoadedLane(t, host, r, v, j, c);
    ByteOfLine(View(r), t.LineOf(v), c, j);
    MramByteIs(View(r), slot, t.symbolOffset + 8 * i + c);
  }

  /** One load or prefetch keeps the view, and every word received so far. */
  lemma BodyStep(t: Transfer, host: seq<byte>, r: Rank, a: Action, slot: nat, i: nat, view: Region)
    requires t.Fits(host) && AllSeparate([t]) && BodyAction(t, true, a) && view == View(r)
    requires slot < SLOTS && t.buffers[slot] != NULL && i < t.Words()
    requires a == Load(t.VisitOf(slot, i)) || WordReceived(t, host, view, slot, i)
    ensures WordReceived(t, HostStep(t, host, r, a), view, slot, i)
  {
    hide HostStep, RankStep, WordReceived, AllSeparate, View, Transfer.Fits;
    FitsIsValid(t, host);
    if a == Load(t.VisitOf(slot, i)) {
      SeparateRank([t], 0);
      LoadDeliversView(t, host, r, slot, i);
    } else {
      var e := Event(0, a);
      assert Permits([t], e);
      ReceivedWordKept([t], view, World(host, [r]), e, 0, slot, i);
    }
  }

  lemma StepKeepsView(t: Transfer, host: seq<byte>, r: Rank, a: Action)
    requires t.Fits(host) && BodyAction(t, true, a)
    ensures View(RankStep(t, host, r, a)) == View(r) && RankStep(t, host, r, a).mem == r.mem
  {
    hide View, LineIndex;
    LineInRegion(t, a.at);
    FetchKeepsView(r, t.LineOf(a.at));
  }

  /** After any loads and prefetches, every loaded word is in its buffer as the host saw it at the start. */
  lemma {:induction false} LoadsReceiveView(t: Transfer, s: State, acts: seq<Action>)
    requires t.Fits(s.host) && AllSeparate([t]) && AllBody(t, true, acts)
    ensures t.AllowsAll(acts)
    ensures View(Run(t, s, acts).rank) == View(s.rank)
    ensures forall slot: nat, i: nat {:trigger WordReceived(t, Run(t, s, acts).host, View(s.rank), slot, i)} ::
      slot < SLOTS && t.buffers[slot] != NULL && i < t.Words() && Load(t.VisitOf(slot, i)) in acts ==>
        WordReceived(t, Run(t, s, acts).host, View(s.rank), slot, i)
  {
    hide HostStep, RankStep, WordReceived, AllSeparate, View, LineIndex;
    if acts != [] {
      var n := |acts| - 1;
      var init, a := acts[..n], acts[n];
      assert BodyAction(t, true, a);
      LoadsReceiveView(t, s, init);
      var u := Run(t, s, init);
      StepKeepsView(t, u.host, u.rank, a);
      forall slot: nat, i: nat
        | slot < SLOTS && t.buffers[slot] != NULL && i < t.Words() && Load(t.VisitOf(slot, i)) in acts
        ensures WordReceived(t, Run(t, s, acts).host, View(s.rank), slot, i)
      {
        BodyStep(t, u.host, u.rank, a, slot, i, View(s.rank));
      }
    }
  }

  /** Byte b of a slot's range is the same in two device memories. */
  ghost predicate SameAt(t: Transfer, m1: Region, m2: Region, slot: nat, b: nat)
    requires t.Valid() && slot < SLOTS && b < t.length
  {
    MramByte(m1, slot, t.symbolOffset + b) == MramByte(m2, slot, t.symbolOffset + b)
  }

  /** Without the first flush loop, a receive hands over the host's view of each MRAM range; that is what
      the device holds if and only if the cached copies agree with the device on every byte received. */
  lemma UnflushedReceive(t: Transfer, s: State, mode: AccessMode)
    requires t.Fits(s.host) && AllSeparate([t])
    ensures t.AllowsAll(Body(t, true, mode))
    ensures Received(t, View(s.rank), Run(t, s, Body(t, true, mode)).host)
    ensures Received(t, s.rank.mem, Run(t, s, Body(t, true, mode)).host) <==>
      forall slot: nat, b: nat :: slot < SLOTS && t.buffers[slot] != NULL && b < t.length ==>
        SameAt(t, View(s.rank), s.rank.mem, slot, b)
  {
    hide Body, Run, View, MramByte, AllSeparate, WordReceived, ReceivedAt, Transfer.AllowsAll, SameAt,
         Received;
    BodyActions(t, true, mode);
    LoadsReceiveView(t, s, Body(t, true, mode));
    AllBytesReceived(t, mode, Run(t, s, Body(t, true, mode)).host, View(s.rank));
    SameBytes(t, View(s.rank), s.rank.mem, Run(t, s, Body(t, true, mode)).host);
  }

  lemma AllBytesReceived(t: Transfer, mode: AccessMode, host: seq<byte>, mem: Region)
    requires t.Fits(host)
    requires forall slot: nat, i: nat {:trigger WordReceived(t, host, mem, slot, i)} ::
      slot < SLOTS && t.buffers[slot] != NULL && i < t.Words() && Load(t.VisitOf(slot, i)) in Body(t, true, mode) ==>
        WordReceived(t, host, mem, slot, i)
    ensures Received(t, mem, host)
  {
    hide Body, MramByte, WordReceived, ReceivedAt;
    forall slot: nat, b: nat | slot < SLOTS && t.buffers[slot] != NULL && b < t.length
      ensures ReceivedAt(t, mem, host, slot, b)
    {
      SlotInLine(t, slot, b / 8, b % 8);
      EachLineOnce(t, true, mode, t.VisitOf(slot, b / 8));
      assert WordReceived(t, host, mem, slot, b / 8);
      ByteOfWordReceived(t, host, mem, slot, b);
    }
  }

  /** Two device memories are both received exactly when they agree on the bytes received. */
  lemma SameBytes(t: Transfer, m1: Region, m2: Region, host: seq<byte>)
    requires t.Fits(host) && Received(t, m1, host)
    ensures Received(t, m2, host) <==>
      forall slot: nat, b: nat :: slot < SLOTS && t.buffers[slot] != NULL && b < t.length ==>
        SameAt(t, m1, m2, slot, b)
  {
    hide MramByte;
    forall slot: nat, b: nat | slot < SLOTS && t.buffers[slot] != NULL && b < t.length
      ensures ReceivedAt(t, m2, host, slot, b) <==> SameAt(t, m1, m2, slot, b)
    {
      assert ReceivedAt(t, m1, host, slot, b);
    }
  }
}
