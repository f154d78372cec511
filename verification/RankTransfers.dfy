/** The transfers between host buffers and the mapped region of one rank, as loops over memory. */
module RankTransfers {
  import opened AddressMap
  import opened Interleave
  import opened Layout
  import opened Memory
  import opened Programs
  import opened RankMachine
  import opened SendProofs

  /** The mapped region of a rank and the host's cache lines over it.  The methods are the machine
      instructions that the transfers use. */
  class MappedRank {
    const mem: array<byte>
    var cache: map<nat, CacheLine>

    constructor (mem: array<byte>)
      ensures this.mem == mem && cache == map[]
    {
      this.mem := mem;
      cache := map[];
    }

    ghost predicate Valid()
    {
      mem.Length >= REGION_SPAN
    }

    /** No cached line of the region is dirty. */
    ghost predicate CleanLines()
      reads this
    {
      forall x :: x in cache ==> !cache[x].dirty
    }

    ghost function Value(scratch: Line): Rank
      requires Valid()
      reads this, mem
    {
      Rank(mem[..], cache, scratch)
    }

    /** `clflushopt` */
    method Flush(offset: nat, ghost x: nat, ghost scratch: Line)
      requires Valid() && offset == 64 * x && 64 * x + 64 <= mem.Length
      modifies this, mem
      ensures Value(scratch) == FlushLine(old(Value(scratch)), x)
    {
      var index := offset / 64;
      if index in cache {
        if cache[index].dirty {
          StoreBytes(mem, 64 * index, cache[index].data);
        }
        cache := cache - {index};
      }
    }

    /** A load hint: the line enters the cache unless it is there already. */
    method Prefetch(offset: nat, ghost x: nat, ghost scratch: Line)
      requires Valid() && offset == 64 * x && 64 * x + 64 <= mem.Length
      modifies this`cache
      ensures Value(scratch) == FetchLine(old(Value(scratch)), x)
    {
      var index := offset / 64;
      if index !in cache {
        cache := cache[index := CacheLine(mem[64 * index..64 * index + 64], false)];
      }
    }

    /** An ordinary 8-byte load of word q of a line, served through the cache. */
    method LoadWord(offset: nat, q: nat, ghost x: nat, ghost scratch: Line) returns (word: seq<byte>)
      requires Valid() && offset == 64 * x && 64 * x + 64 <= mem.Length && q < 8
      modifies this`cache
      ensures Value(scratch) == FetchLine(old(Value(scratch)), x)
      ensures word == LoadedLine(old(Value(scratch)), x)[8 * q..8 * q + 8]
    {
      Prefetch(offset, x, scratch);
      word := cache[offset / 64].data[8 * q..8 * q + 8];
    }

    /** `_mm512_stream_si512` */
    method StreamStore(offset: nat, data: Line, ghost x: nat, ghost scratch: Line)
      requires Valid() && offset == 64 * x && 64 * x + 64 <= mem.Length
      modifies this, mem
      ensures Value(scratch) == StreamLine(old(Value(scratch)), x, data)
    {
      StoreBytes(mem, offset, data);
      cache := cache - {offset / 64};
    }
  }

  // ----- one cache line -----

  method StoreBytes(a: array<byte>, off: nat, data: seq<byte>)
    requires off + |data| <= a.Length
    modifies a
    ensures a[..] == Store(old(a[..]), off, data)
  {
    forall k | 0 <= k < |data| {
      a[off + k] := data[k];
    }
    assert a[..] == Store(old(a[..]), off, data);
  }

  /** The scratch line after the first j lanes have been gathered. */
  ghost function GatherLanes(t: Transfer, host: seq<byte>, v: Visit, scratch: Line, j: nat): Line
    requires t.Fits(host) && t.Covers(v) && j <= 8
  {
    if j == 0 then scratch
    else
      var line := GatherLanes(t, host, v, scratch, j - 1);
      var p := t.LaneBuffer(v, j - 1);
      if p == NULL then line else Store(line, 8 * (j - 1), host[p + 8 * v.word..p + 8 * v.word + 8])
  }

  lemma {:induction false} GatherLaneByte(t: Transfer, host: seq<byte>, v: Visit, scratch: Line, j: nat, l: nat, c: nat)
    requires t.Fits(host) && t.Covers(v) && j <= 8 && l < 8 && c < 8
    ensures GatherLanes(t, host, v, scratch, j)[8 * l + c]
         == if l < j && t.LaneBuffer(v, l) != NULL then host[t.LaneBuffer(v, l) + 8 * v.word + c]
            else scratch[8 * l + c]
  {
    hide GatherLanes, LineIndex, Store, Transfer.Fits, Transfer.Valid, Transfer.Covers;
    LaneInHost(t, host, v, l);
    if j == 0 {
      GatherLanesNone(t, host, v, scratch);
    } else {
      GatherLaneByte(t, host, v, scratch, j - 1, l, c);
      GatherLanesNext(t, host, v, scratch, j - 1);
      LaneInHost(t, host, v, j - 1);
      if t.LaneBuffer(v, j - 1) != NULL {
        var p := t.LaneBuffer(v, j - 1) + 8 * v.word;
        StoreWordByte(GatherLanes(t, host, v, scratch, j - 1), j - 1, host[p..p + 8], l, c);
      }
    }
  }

  lemma StoreWordByte(line: Line, j: nat, word: seq<byte>, l: nat, c: nat)
    requires |word| == 8 && j < 8 && l < 8 && c < 8
    ensures Store(line, 8 * j, word)[8 * l + c] == if l == j then word[c] else line[8 * l + c]
  {
  }

  lemma GatherLanesNext(t: Transfer, host: seq<byte>, v: Visit, scratch: Line, j: nat)
    requires t.Fits(host) && t.Covers(v) && j < 8
    ensures GatherLanes(t, host, v, scratch, j + 1)
         == var p := t.LaneBuffer(v, j);
            if p == NULL then GatherLanes(t, host, v, scratch, j)
            else Store(GatherLanes(t, host, v, scratch, j), 8 * j, host[p + 8 * v.word..p + 8 * v.word + 8])
  {
  }

  lemma GatherLanesNone(t: Transfer, host: seq<byte>, v: Visit, scratch: Line)
    requires t.Fits(host) && t.Covers(v)
    ensures GatherLanes(t, host, v, scratch, 0) == scratch
  {
  }

  lemma ScatterLanesEnds(t: Transfer, host: seq<byte>, v: Visit, line: Line)
    requires t.Fits(host) && t.Covers(v)
    ensures ScatterLanes(t, host, v, line, 0) == host
    ensures ScatterLanes(t, host, v, line, 8) == Scatter(t, host, v, line)
  {
  }

  lemma GatherLanesIsGather(t: Transfer, host: seq<byte>, v: Visit, scratch: Line)
    requires t.Fits(host) && t.Covers(v)
    ensures GatherLanes(t, host, v, scratch, 8) == Gather(t, host, v, scratch)
  {
    hide GatherLanes, LineIndex;
    forall k | 0 <= k < 64 ensures GatherLanes(t, host, v, scratch, 8)[k] == Gather(t, host, v, scratch)[k] {
      GatherLaneByte(t, host, v, scratch, 8, k / 8, k % 8);
    }
  }

  method GatherAndStore(host: array<byte>, rank: MappedRank, offset: nat, t: Transfer,
                        dpuId: nat, dpuIdGroup: nat, i: nat, cacheLine: array<byte>, ghost v: Visit)
    requires rank.Valid() && host != rank.mem && cacheLine != host && cacheLine != rank.mem
    requires cacheLine.Length == 64 && t.Fits(host[..])
    requires v.dpuId == dpuId && 4 * v.group == dpuIdGroup && v.word == i
    requires t.Covers(v) && offset == 64 * t.LineOf(v)
    modifies rank, rank.mem, cacheLine
    ensures rank.Value(cacheLine[..])
         == RankStep(t, host[..], old(rank.Value(cacheLine[..])), Stream(v))
  {
    hide LineIndex, ByteInterleave, Gather, Store, Transfer.Fits, Transfer.Valid, Transfer.Covers;
    LaneInHost(t, host[..], v, 0);
    LineInRegion(t, v);
    ghost var r0 := rank.Value(cacheLine[..]);
    ghost var h := host[..];
    GatherFrom(host, t, dpuId, dpuIdGroup, i, cacheLine, v);
    assert host[..] == h;
    assert rank.Value(r0.scratch) == r0;
    rank.StreamStore(offset, ByteInterleave(cacheLine[..]), t.LineOf(v), r0.scratch);
  }

  /** Copy the word of each present lane into the scratch line. */
  method GatherFrom(host: array<byte>, t: Transfer, dpuId: nat, dpuIdGroup: nat, i: nat,
                    cacheLine: array<byte>, ghost v: Visit)
    requires cacheLine != host && cacheLine.Length == 64 && t.Fits(host[..])
    requires v.dpuId == dpuId && 4 * v.group == dpuIdGroup && v.word == i
    requires t.Covers(v)
    modifies cacheLine
    ensures cacheLine[..] == Gather(t, host[..], v, old(cacheLine[..]))
  {
    hide Gather, GatherLanes, Store, LineIndex, Transfer.Fits, Transfer.Valid, Transfer.Covers;
    ghost var before, h := cacheLine[..], host[..];
    GatherLanesNone(t, h, v, before);
    GatherLanesIsGather(t, h, v, before);
    for j: nat := 0 to 8
      invariant host[..] == h
      invariant cacheLine[..] == GatherLanes(t, h, v, before, j)
    {
      GatherLanesNext(t, h, v, before, j);
      LaneInHost(t, h, v, j);
      var p := t.buffers[j * 8 + dpuId + dpuIdGroup];
      if p == NULL {
        continue;
      }
      StoreBytes(cacheLine, 8 * j, host[p + 8 * i..p + 8 * i + 8]);
    }
  }

  method LoadAndScatter(host: array<byte>, rank: MappedRank, offset: nat, t: Transfer,
                        dpuId: nat, dpuIdGroup: nat, i: nat, cacheLine: array<byte>,
                        ghost v: Visit, ghost scratch: Line)
    requires rank.Valid() && host != rank.mem && cacheLine != host && cacheLine != rank.mem
    requires cacheLine.Length == 64 && t.Fits(host[..])
    requires v.dpuId == dpuId && 4 * v.group == dpuIdGroup && v.word == i
    requires t.Covers(v) && offset == 64 * t.LineOf(v)
    modifies rank, host, cacheLine
    ensures State(host[..], rank.Value(scratch))
         == Step(t, old(State(host[..], rank.Value(scratch))), Load(v))
  {
    hide LineIndex, ByteInterleave, ScatterLanes, FetchLine, Transfer.Fits, Transfer.Valid, Transfer.Covers;
    LaneInHost(t, host[..], v, 0);
    LineInRegion(t, v);
    ghost var h, r0 := host[..], rank.Value(scratch);
    LoadLine(rank, offset, cacheLine, t.LineOf(v), scratch);
    assert host[..] == h;
    ghost var r1 := rank.Value(scratch);
    ScatterTo(host, t, dpuId, dpuIdGroup, i, ByteInterleave(cacheLine[..]), v);
    assert rank.Value(scratch) == r1;
  }

  /** Copy each present lane of a line into its buffer. */
  method ScatterTo(host: array<byte>, t: Transfer, dpuId: nat, dpuIdGroup: nat, i: nat, line: Line, ghost v: Visit)
    requires t.Fits(host[..])
    requires v.dpuId == dpuId && 4 * v.group == dpuIdGroup && v.word == i
    requires t.Covers(v)
    modifies host
    ensures host[..] == Scatter(t, old(host[..]), v, line)
  {
    hide ScatterLanes, Scatter, Store, LineIndex, Transfer.Fits, Transfer.Valid, Transfer.Covers;
    ghost var h := host[..];
    ScatterLanesEnds(t, h, v, line);
    for j: nat := 0 to 8
      invariant host[..] == ScatterLanes(t, h, v, line, j)
    {
      ScatterLanesNext(t, h, v, line, j);
      LaneInHost(t, h, v, j);
      var p := t.buffers[j * 8 + dpuId + dpuIdGroup];
      if p == NULL {
        continue;
      }
      StoreBytes(host, p + 8 * i, line[8 * j..8 * (j + 1)]);
    }
  }

  /** The eight loads of a line into the scratch line. */
  method LoadLine(rank: MappedRank, offset: nat, cacheLine: array<byte>, ghost x: nat, ghost scratch: Line)
    requires rank.Valid() && cacheLine != rank.mem && cacheLine.Length == 64
    requires offset == 64 * x && 64 * x + 64 <= rank.mem.Length
    modifies rank, cacheLine
    ensures rank.Value(scratch) == FetchLine(old(rank.Value(scratch)), x)
    ensures cacheLine[..] == LoadedLine(old(rank.Value(scratch)), x)
  {
    ghost var r0 := rank.Value(scratch);
    ghost var line := LoadedLine(r0, x);
    for q: nat := 0 to 8
      invariant rank.Value(scratch) == if q == 0 then r0 else FetchLine(r0, x)
      invariant cacheLine[..8 * q] == line[..8 * q]
    {
      var word := rank.LoadWord(offset, q, x, scratch);
      assert word == line[8 * q..8 * q + 8];
      StoreBytes(cacheLine, 8 * q, word);
      assert line[..8 * q + 8] == line[..8 * q] + line[8 * q..8 * q + 8];
    }
  }

  // ----- the loops -----

  /** The offset that the loops compute for a visit is the start of its line. */
  lemma OffsetOfVisit(t: Transfer, dpuId: nat, group: nat, i: nat)
    requires t.Valid() && t.Covers(Visit(dpuId, group, i))
    ensures t.symbolOffset + i * 8 < MRAM_SIZE
    ensures FastPath(t.symbolOffset + i * 8, dpuId) + group * 0x40 == 64 * t.LineOf(Visit(dpuId, group, i))
    ensures t.LineOf(Visit(dpuId, group, i)) < REGION_LINES
  {
    hide LineIndex, FastPath;
    var bank := dpuId + 4 * group;
    assert bank % 4 == dpuId && bank / 4 == group;
    OffsetIsLine(t.symbolOffset + i * 8, bank);
    assert (t.symbolOffset + i * 8) / 8 == t.MramWord(i);
    LineInRegion(t, Visit(dpuId, group, i));
  }

  /** State s is what the actions lead to from s0. */
  ghost predicate Reached(t: Transfer, s0: State, acts: seq<Action>, s: State)
    requires t.Fits(s0.host)
  {
    t.AllowsAll(acts) && Run(t, s0, acts) == s && t.Fits(s.host)
  }

  lemma ReachedStart(t: Transfer, s0: State)
    requires t.Fits(s0.host)
    ensures Reached(t, s0, [], s0)
  {
  }

  lemma ReachedNext(t: Transfer, s0: State, acts: seq<Action>, s: State, a: Action)
    requires t.Fits(s0.host) && t.Fits(s.host) && Reached(t, s0, acts, s) && t.Allows(a)
    ensures Reached(t, s0, acts + [a], Step(t, s, a))
  {
    hide Step;
    RunAppend(t, s0, acts, a);
  }

  lemma ReachedPair(t: Transfer, s0: State, acts: seq<Action>, s: State, a: Action, b: Action)
    requires t.Fits(s0.host) && t.Fits(s.host) && Reached(t, s0, acts, s) && t.Allows(a) && t.Allows(b)
    ensures Reached(t, s0, acts + [a, b], Step(t, Step(t, s, a), b))
  {
    hide Step, Run;
    ReachedNext(t, s0, acts, s, a);
    ReachedNext(t, s0, acts + [a], Step(t, s, a), b);
    assert acts + [a] + [b] == acts + [a, b];
  }

  /** Both groups of one bank and word, for a send. */
  method SendBothGroups(host: array<byte>, rank: MappedRank, t: Transfer, dpuId: nat, i: nat, cacheLine: array<byte>,
                        ghost s0: State, ghost done: seq<Action>)
    requires rank.Valid() && host != rank.mem && cacheLine != host && cacheLine != rank.mem
    requires cacheLine.Length == 64 && t.Fits(host[..]) && t.Fits(s0.host) && dpuId < 4 && i < t.Words()
    requires Reached(t, s0, done, State(host[..], rank.Value(cacheLine[..])))
    modifies rank, rank.mem, cacheLine
    ensures Reached(t, s0, done + [Stream(Visit(dpuId, 0, i)), Stream(Visit(dpuId, 1, i))],
                    State(host[..], rank.Value(cacheLine[..])))
  {
    hide FastPath, RankStep, Reached, LineIndex, Transfer.Fits;
    ghost var h := host[..];
    LaneInHost(t, h, Visit(dpuId, 0, i), 0);
    OffsetOfVisit(t, dpuId, 0, i);
    OffsetOfVisit(t, dpuId, 1, i);
    ReachedPair(t, s0, done, State(h, rank.Value(cacheLine[..])),
                Stream(Visit(dpuId, 0, i)), Stream(Visit(dpuId, 1, i)));
    var offset := FastPath(t.symbolOffset + i * 8, dpuId);
    GatherAndStore(host, rank, offset, t, dpuId, 0, i, cacheLine, Visit(dpuId, 0, i));
    assert host[..] == h;
    GatherAndStore(host, rank, offset + 0x40, t, dpuId, 4, i, cacheLine, Visit(dpuId, 1, i));
    assert host[..] == h;
  }

  method SendOriginal(host: array<byte>, rank: MappedRank, t: Transfer, cacheLine: array<byte>, ghost s0: State)
    requires rank.Valid() && host != rank.mem && cacheLine != host && cacheLine != rank.mem
    requires cacheLine.Length == 64 && t.Fits(host[..])
    requires s0 == State(host[..], rank.Value(cacheLine[..]))
    modifies rank, rank.mem, cacheLine
    ensures Reached(t, s0, OriginalBody(t, false, 4, 0), State(host[..], rank.Value(cacheLine[..])))
  {
    hide Reached, OriginalBody, Transfer.Fits;
    ghost var h := host[..];
    ReachedStart(t, s0);
    OriginalNext(t, false, 0, 0);
    for dpuId: nat := 0 to 4
      invariant host[..] == h
      invariant Reached(t, s0, OriginalBody(t, false, dpuId, 0), State(h, rank.Value(cacheLine[..])))
    {
      for i: nat := 0 to t.Words()
        invariant host[..] == h
        invariant Reached(t, s0, OriginalBody(t, false, dpuId, i), State(h, rank.Value(cacheLine[..])))
      {
        OriginalNext(t, false, dpuId, i);
        SendBothGroups(host, rank, t, dpuId, i, cacheLine, s0, OriginalBody(t, false, dpuId, i));
        assert OriginalStep(t, false, dpuId, i) == [Stream(Visit(dpuId, 0, i)), Stream(Visit(dpuId, 1, i))];
      }
      OriginalNext(t, false, dpuId, 0);
    }
  }

  method SendRoundRobin(host: array<byte>, rank: MappedRank, t: Transfer, cacheLine: array<byte>, ghost s0: State)
    requires rank.Valid() && host != rank.mem && cacheLine != host && cacheLine != rank.mem
    requires cacheLine.Length == 64 && t.Fits(host[..])
    requires s0 == State(host[..], rank.Value(cacheLine[..]))
    modifies rank, rank.mem, cacheLine
    ensures Reached(t, s0, RoundRobinBody(false, t.Words(), 0), State(host[..], rank.Value(cacheLine[..])))
  {
    hide Reached, RoundRobinBody, Transfer.Fits;
    ghost var h := host[..];
    ReachedStart(t, s0);
    RoundRobinNext(false, 0, 0);
    for i: nat := 0 to t.Words()
      invariant host[..] == h
      invariant Reached(t, s0, RoundRobinBody(false, i, 0), State(h, rank.Value(cacheLine[..])))
    {
      for dpuId: nat := 0 to 4
        invariant host[..] == h
        invariant Reached(t, s0, RoundRobinBody(false, i, dpuId), State(h, rank.Value(cacheLine[..])))
      {
        RoundRobinNext(false, i, dpuId);
        SendBothGroups(host, rank, t, dpuId, i, cacheLine, s0, RoundRobinBody(false, i, dpuId));
      }
      RoundRobinNext(false, i, 0);
    }
  }

  method SendSequential(host: array<byte>, rank: MappedRank, t: Transfer, cacheLine: array<byte>, ghost s0: State)
    requires rank.Valid() && host != rank.mem && cacheLine != host && cacheLine != rank.mem
    requires cacheLine.Length == 64 && t.Fits(host[..])
    requires s0 == State(host[..], rank.Value(cacheLine[..]))
    modifies rank, rank.mem, cacheLine
    ensures Reached(t, s0, SequentialBody(t, false, 4, 0, 0), State(host[..], rank.Value(cacheLine[..])))
  {
    hide Reached, SequentialBody, Transfer.Fits, FastPath, LineIndex, RankStep;
    ghost var h := host[..];
    ReachedStart(t, s0);
    SequentialNext(t, false, 0, 0, 0);
    FitsIsValid(t, h);
    for dpuId: nat := 0 to 4
      invariant host[..] == h
      invariant Reached(t, s0, SequentialBody(t, false, dpuId, 0, 0), State(h, rank.Value(cacheLine[..])))
    {
      for group: nat := 0 to 2
        invariant host[..] == h
        invariant Reached(t, s0, SequentialBody(t, false, dpuId, group, 0), State(h, rank.Value(cacheLine[..])))
      {
        for i: nat := 0 to t.Words()
          invariant host[..] == h
          invariant Reached(t, s0, SequentialBody(t, false, dpuId, group, i), State(h, rank.Value(cacheLine[..])))
        {
          SequentialNext(t, false, dpuId, group, i);
          ghost var v := Visit(dpuId, group, i);
          OffsetOfVisit(t, dpuId, group, i);
          ReachedNext(t, s0, SequentialBody(t, false, dpuId, group, i), State(h, rank.Value(cacheLine[..])), Stream(v));
          var offset := FastPath(t.symbolOffset + i * 8, dpuId) + group * 0x40;
          GatherAndStore(host, rank, offset, t, dpuId, group * 4, i, cacheLine, v);
        }
        SequentialNext(t, false, dpuId, group, 0);
      }
      SequentialNext(t, false, dpuId, 0, 0);
    }
  }

  /** Gather-and-store every line of the range, in the chosen loop order.  The scratch line starts with
      whatever its memory held, here reported as `scratch`. */
  method SendToRankMRAM(host: array<byte>, rank: MappedRank, t: Transfer, mode: AccessMode)
    returns (ghost scratch: Line)
    requires rank.Valid() && host != rank.mem && t.Fits(host[..])
    modifies rank, rank.mem
    ensures t.AllowsAll(SendProgram(t, mode))
    ensures rank.Value(scratch).mem == Run(t, State(host[..], old(rank.Value(scratch))), SendProgram(t, mode)).rank.mem
    ensures rank.Value(scratch).cache
         == Run(t, State(host[..], old(rank.Value(scratch))), SendProgram(t, mode)).rank.cache
    ensures old(rank.CleanLines()) ==>
      Sent(t, host[..], old(rank.mem[..]), rank.mem[..]) && rank.CleanLines()
  {
    hide Run, OriginalBody, RoundRobinBody, SequentialBody, Transfer.Fits, Sent;
    var cacheLine := new byte[64];
    scratch := cacheLine[..];
    ghost var s0 := State(host[..], rank.Value(scratch));
    if s0.rank.Clean() {
      SendDelivers(t, s0, mode);
    }
    match mode {
      case Original => SendOriginal(host, rank, t, cacheLine, s0);
      case RoundRobin => SendRoundRobin(host, rank, t, cacheLine, s0);
      case Sequential => SendSequential(host, rank, t, cacheLine, s0);
    }
  }

  // ----- receiving -----

  method LoadBothGroups(host: array<byte>, rank: MappedRank, t: Transfer, dpuId: nat, i: nat, cacheLine: array<byte>,
                        ghost s0: State, ghost done: seq<Action>, ghost scratch: Line)
    requires rank.Valid() && host != rank.mem && cacheLine != host && cacheLine != rank.mem
    requires cacheLine.Length == 64 && t.Fits(host[..]) && t.Fits(s0.host) && dpuId < 4 && i < t.Words()
    requires Reached(t, s0, done, State(host[..], rank.Value(scratch)))
    modifies rank, host, cacheLine
    ensures t.Fits(host[..])
    ensures Reached(t, s0, done + [Load(Visit(dpuId, 0, i)), Load(Visit(dpuId, 1, i))],
                    State(host[..], rank.Value(scratch)))
  {
    hide FastPath, RankStep, HostStep, Reached, LineIndex, Transfer.Fits;
    FitsIsValid(t, host[..]);
    OffsetOfVisit(t, dpuId, 0, i);
    OffsetOfVisit(t, dpuId, 1, i);
    ghost var s := State(host[..], rank.Value(scratch));
    StepFits(t, s, Load(Visit(dpuId, 0, i)));
    StepFits(t, Step(t, s, Load(Visit(dpuId, 0, i))), Load(Visit(dpuId, 1, i)));
    ReachedPair(t, s0, done, s, Load(Visit(dpuId, 0, i)), Load(Visit(dpuId, 1, i)));
    var offset := FastPath(t.symbolOffset + i * 8, dpuId);
    LoadAndScatter(host, rank, offset, t, dpuId, 0, i, cacheLine, Visit(dpuId, 0, i), scratch);
    LoadAndScatter(host, rank, offset + 0x40, t, dpuId, 4, i, cacheLine, Visit(dpuId, 1, i), scratch);
  }

  lemma StepFits(t: Transfer, s: State, a: Action)
    requires t.Fits(s.host) && t.Allows(a)
    ensures t.Fits(Step(t, s, a).host)
  {
    hide HostStep, RankStep;
  }

  method PrefetchBothGroups(rank: MappedRank, t: Transfer, dpuId: nat, i: nat, ghost h: seq<byte>,
                            ghost s0: State, ghost done: seq<Action>, ghost scratch: Line)
    requires rank.Valid() && t.Fits(h) && t.Fits(s0.host) && dpuId < 4 && i < t.Words()
    requires Reached(t, s0, done, State(h, rank.Value(scratch)))
    modifies rank`cache
    ensures Reached(t, s0, done + [Prefetch(Visit(dpuId, 0, i)), Prefetch(Visit(dpuId, 1, i))],
                    State(h, rank.Value(scratch)))
  {
    hide FastPath, Reached, LineIndex, Transfer.Fits;
    FitsIsValid(t, h);
    OffsetOfVisit(t, dpuId, 0, i);
    OffsetOfVisit(t, dpuId, 1, i);
    ghost var s := State(h, rank.Value(scratch));
    ReachedPair(t, s0, done, s, Prefetch(Visit(dpuId, 0, i)), Prefetch(Visit(dpuId, 1, i)));
    var offset := FastPath(t.symbolOffset + i * 8, dpuId);
    rank.Prefetch(offset, t.LineOf(Visit(dpuId, 0, i)), scratch);
    rank.Prefetch(offset + 0x40, t.LineOf(Visit(dpuId, 1, i)), scratch);
  }

  method FlushBothGroups(rank: MappedRank, t: Transfer, dpuId: nat, i: nat, ghost h: seq<byte>,
                         ghost s0: State, ghost done: seq<Action>, ghost scratch: Line)
    requires rank.Valid() && t.Fits(h) && t.Fits(s0.host) && dpuId < 4 && i < t.Words()
    requires Reached(t, s0, done, State(h, rank.Value(scratch)))
    modifies rank, rank.mem
    ensures Reached(t, s0, done + [Flush(Visit(dpuId, 0, i)), Flush(Visit(dpuId, 1, i))], State(h, rank.Value(scratch)))
  {
    hide FastPath, Reached, LineIndex, Transfer.Fits;
    FitsIsValid(t, h);
    OffsetOfVisit(t, dpuId, 0, i);
    OffsetOfVisit(t, dpuId, 1, i);
    ghost var s := State(h, rank.Value(scratch));
    ReachedPair(t, s0, done, s, Flush(Visit(dpuId, 0, i)), Flush(Visit(dpuId, 1, i)));
    var offset := FastPath(t.symbolOffset + i * 8, dpuId);
    rank.Flush(offset, t.LineOf(Visit(dpuId, 0, i)), scratch);
    offset := offset + 0x40;
    rank.Flush(offset, t.LineOf(Visit(dpuId, 1, i)), scratch);
  }

  /** The flush loop before and after the loads. */
  method FlushRange(host: array<byte>, rank: MappedRank, t: Transfer,
                    ghost s0: State, ghost done: seq<Action>, ghost scratch: Line)
    requires rank.Valid() && host != rank.mem && t.Fits(host[..]) && t.Fits(s0.host)
    requires Reached(t, s0, done, State(host[..], rank.Value(scratch)))
    modifies rank, rank.mem
    ensures Reached(t, s0, done + FlushBody(t, 4, 0), State(host[..], rank.Value(scratch)))
  {
    hide Reached, FlushBody, Transfer.Fits;
    ghost var h := host[..];
    FlushNext(t, 0, 0);
    assert done + [] == done;
    for dpuId: nat := 0 to 4
      invariant host[..] == h
      invariant Reached(t, s0, done + FlushBody(t, dpuId, 0), State(h, rank.Value(scratch)))
    {
      for i: nat := 0 to t.Words()
        invariant host[..] == h
        invariant Reached(t, s0, done + FlushBody(t, dpuId, i), State(h, rank.Value(scratch)))
      {
        FlushNext(t, dpuId, i);
        FlushBothGroups(rank, t, dpuId, i, h, s0, done + FlushBody(t, dpuId, i), scratch);
        Assoc(done, FlushBody(t, dpuId, i), [Flush(Visit(dpuId, 0, i)), Flush(Visit(dpuId, 1, i))]);
      }
      FlushNext(t, dpuId, 0);
    }
  }

  lemma Assoc(a: seq<Action>, b: seq<Action>, c: seq<Action>)
    ensures a + b + c == a + (b + c)
  {
  }

  method ReceiveOriginal(host: array<byte>, rank: MappedRank, t: Transfer, cacheLine: array<byte>,
                         ghost s0: State, ghost done: seq<Action>, ghost scratch: Line)
    requires rank.Valid() && host != rank.mem && cacheLine != host && cacheLine != rank.mem
    requires cacheLine.Length == 64 && t.Fits(host[..]) && t.Fits(s0.host)
    requires Reached(t, s0, done, State(host[..], rank.Value(scratch)))
    modifies rank, host, cacheLine
    ensures t.Fits(host[..])
    ensures Reached(t, s0, done + OriginalBody(t, true, 4, 0), State(host[..], rank.Value(scratch)))
  {
    hide Reached, OriginalBody, Transfer.Fits;
    OriginalNext(t, true, 0, 0);
    assert done + [] == done;
    for dpuId: nat := 0 to 4
      invariant t.Fits(host[..])
      invariant Reached(t, s0, done + OriginalBody(t, true, dpuId, 0), State(host[..], rank.Value(scratch)))
    {
      for i: nat := 0 to t.Words()
        invariant t.Fits(host[..])
        invariant Reached(t, s0, done + OriginalBody(t, true, dpuId, i), State(host[..], rank.Value(scratch)))
      {
        OriginalNext(t, true, dpuId, i);
        ghost var body := OriginalBody(t, true, dpuId, i);
        ghost var ahead := [];
        assert done + body + [] == done + body;
        if i + 3 < t.Words() {
          ahead := [Prefetch(Visit(dpuId, 0, i + 3)), Prefetch(Visit(dpuId, 1, i + 3))];
          PrefetchBothGroups(rank, t, dpuId, i + 3, host[..], s0, done + body, scratch);
        }
        LoadBothGroups(host, rank, t, dpuId, i, cacheLine, s0, done + body + ahead, scratch);
        ghost var loads := [Load(Visit(dpuId, 0, i)), Load(Visit(dpuId, 1, i))];
        assert OriginalStep(t, true, dpuId, i) == ahead + loads;
        assert done + body + ahead + loads == done + (body + (ahead + loads));
      }
      OriginalNext(t, true, dpuId, 0);
    }
  }

  method ReceiveRoundRobin(host: array<byte>, rank: MappedRank, t: Transfer, cacheLine: array<byte>,
                           ghost s0: State, ghost done: seq<Action>, ghost scratch: Line)
    requires rank.Valid() && host != rank.mem && cacheLine != host && cacheLine != rank.mem
    requires cacheLine.Length == 64 && t.Fits(host[..]) && t.Fits(s0.host)
    requires Reached(t, s0, done, State(host[..], rank.Value(scratch)))
    modifies rank, host, cacheLine
    ensures t.Fits(host[..])
    ensures Reached(t, s0, done + RoundRobinBody(true, t.Words(), 0), State(host[..], rank.Value(scratch)))
  {
    hide Reached, RoundRobinBody, Transfer.Fits;
    RoundRobinNext(true, 0, 0);
    assert done + [] == done;
    for i: nat := 0 to t.Words()
      invariant t.Fits(host[..])
      invariant Reached(t, s0, done + RoundRobinBody(true, i, 0), State(host[..], rank.Value(scratch)))
    {
      for dpuId: nat := 0 to 4
        invariant t.Fits(host[..])
        invariant Reached(t, s0, done + RoundRobinBody(true, i, dpuId), State(host[..], rank.Value(scratch)))
      {
        RoundRobinNext(true, i, dpuId);
        LoadBothGroups(host, rank, t, dpuId, i, cacheLine, s0, done + RoundRobinBody(true, i, dpuId), scratch);
        Assoc(done, RoundRobinBody(true, i, dpuId), [Load(Visit(dpuId, 0, i)), Load(Visit(dpuId, 1, i))]);
      }
      RoundRobinNext(true, i, 0);
    }
  }

  method ReceiveSequential(host: array<byte>, rank: MappedRank, t: Transfer, cacheLine: array<byte>,
                           ghost s0: State, ghost done: seq<Action>, ghost scratch: Line)
    requires rank.Valid() && host != rank.mem && cacheLine != host && cacheLine != rank.mem
    requires cacheLine.Length == 64 && t.Fits(host[..]) && t.Fits(s0.host)
    requires Reached(t, s0, done, State(host[..], rank.Value(scratch)))
    modifies rank, host, cacheLine
    ensures t.Fits(host[..])
    ensures Reached(t, s0, done + SequentialBody(t, true, 4, 0, 0), State(host[..], rank.Value(scratch)))
  {
    hide Reached, SequentialBody, Transfer.Fits, FastPath, LineIndex, RankStep, HostStep;
    SequentialNext(t, true, 0, 0, 0);
    FitsIsValid(t, host[..]);
    assert done + [] == done;
    for dpuId: nat := 0 to 4
      invariant t.Fits(host[..])
      invariant Reached(t, s0, done + SequentialBody(t, true, dpuId, 0, 0), State(host[..], rank.Value(scratch)))
    {
      for group: nat := 0 to 2
        invariant t.Fits(host[..])
        invariant Reached(t, s0, done + SequentialBody(t, true, dpuId, group, 0), State(host[..], rank.Value(scratch)))
      {
        for i: nat := 0 to t.Words()
          invariant t.Fits(host[..])
          invariant Reached(t, s0, done + SequentialBody(t, true, dpuId, group, i),
                            State(host[..], rank.Value(scratch)))
        {
          SequentialNext(t, true, dpuId, group, i);
          ghost var v, body := Visit(dpuId, group, i), SequentialBody(t, true, dpuId, group, i);
          ghost var s := State(host[..], rank.Value(scratch));
          OffsetOfVisit(t, dpuId, group, i);
          ReachedNext(t, s0, done + body, s, Load(v));
          StepFits(t, s, Load(v));
          Assoc(done, body, [Load(v)]);
          var offset := FastPath(t.symbolOffset + i * 8, dpuId) + group * 0x40;
          LoadAndScatter(host, rank, offset, t, dpuId, group * 4, i, cacheLine, v, scratch);
        }
        SequentialNext(t, true, dpuId, group, 0);
      }
      SequentialNext(t, true, dpuId, 0, 0);
    }
  }

  /** Flush the addressed lines, load and scatter each of them in the chosen loop order, flush again. */
  method ReceiveFromRankMRAM(host: array<byte>, rank: MappedRank, t: Transfer, mode: AccessMode, ghost scratch: Line)
    requires rank.Valid() && host != rank.mem && t.Fits(host[..])
    modifies rank, rank.mem, host
    ensures t.AllowsAll(ReceiveProgram(t, mode))
    ensures State(host[..], rank.Value(scratch))
         == Run(t, old(State(host[..], rank.Value(scratch))), ReceiveProgram(t, mode))
  {
    hide Run, OriginalBody, RoundRobinBody, SequentialBody, FlushBody, Transfer.Fits;
    ghost var s0 := State(host[..], rank.Value(scratch));
    ReachedStart(t, s0);
    FlushRange(host, rank, t, s0, [], scratch);
    assert [] + Flushes(t) == Flushes(t);
    var cacheLine := new byte[64];
    match mode {
      case Original => ReceiveOriginal(host, rank, t, cacheLine, s0, Flushes(t), scratch);
      case RoundRobin => ReceiveRoundRobin(host, rank, t, cacheLine, s0, Flushes(t), scratch);
      case Sequential => ReceiveSequential(host, rank, t, cacheLine, s0, Flushes(t), scratch);
    }
    FlushRange(host, rank, t, s0, Flushes(t) + Body(t, true, mode), scratch);
    assert Flushes(t) + Body(t, true, mode) + FlushBody(t, 4, 0) == ReceiveProgram(t, mode);
  }
}
