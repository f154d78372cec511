/** One rank as the host reaches it: device memory behind the mapped region, the host's cache over
    that region, and the scratch line of the thread that serves the rank.  Transfers are sequences
    of cache-line actions. */
module RankMachine {
  import opened Interleave
  import opened Layout
  import opened Memory

  datatype CacheLine = CacheLine(data: Line, dirty: bool)

  datatype Rank = Rank(mem: Region, cache: map<nat, CacheLine>, scratch: Line)
  {
    /** No line of the region has been modified in the cache only. */
    ghost predicate Clean() {
      forall x :: x in cache ==> !cache[x].dirty
    }
  }

  /** The null pointer of the host address space. */
  const NULL: nat := 0

  /** A (bank, word) pair: scrambled bank 0..3, bank group 0..1, word of the transfer. */
  datatype Visit = Visit(dpuId: nat, group: nat, word: nat)
  {
    function Bank(): nat { dpuId + 4 * group }
  }

  /** The arguments of a rank transfer: MRAM range and one host address per slot, null where the
      slot is disabled. */
  datatype Transfer = Transfer(symbolOffset: nat, length: nat, buffers: seq<nat>)
  {
    predicate Valid() {
      && |buffers| == SLOTS
      && symbolOffset % 8 == 0 && length % 8 == 0
      && symbolOffset + length <= MRAM_SIZE
    }

    /** Every buffer that is present lies inside host memory. */
    predicate Fits(host: seq<byte>) {
      Valid() && forall s :: 0 <= s < SLOTS && buffers[s] != NULL ==> buffers[s] + length <= |host|
    }

    function Words(): nat { length / 8 }

    predicate Covers(v: Visit) { v.dpuId < 4 && v.group < 2 && v.word < Words() }

    function MramWord(i: nat): nat { symbolOffset / 8 + i }

    /** The region line that a visit addresses. */
    function LineOf(v: Visit): nat
      requires Valid() && Covers(v)
    {
      LineIndex(MramWord(v.word), v.Bank())
    }

    /** The host address that lane j of a visit reads or writes, null for an absent buffer. */
    function LaneBuffer(v: Visit, j: nat): nat
      requires Valid() && Covers(v) && j < 8
    {
      buffers[8 * j + v.Bank()]
    }

    /** The visit that moves word i of a slot. */
    function VisitOf(slot: nat, i: nat): Visit {
      Visit(slot % 4, slot % 8 / 4, i)
    }

    predicate Allows(a: Action) { a.Evict? || Covers(a.at) }

    ghost predicate AllowsAll(acts: seq<Action>) {
      forall k :: 0 <= k < |acts| ==> Allows(acts[k])
    }
  }

  /** A flush, a prefetch hint, a load-and-scatter, a gather-and-store, or an eviction that the
      processor performs on its own. */
  datatype Action =
    | Flush(at: Visit)
    | Prefetch(at: Visit)
    | Load(at: Visit)
    | Stream(at: Visit)
    | Evict(index: nat)

  // ----- cache -----

  /** Write a dirty line back and drop it. */
  function FlushLine(r: Rank, x: nat): Rank
    requires 64 * x + 64 <= |r.mem|
  {
    if x !in r.cache then r
    else
      r.(mem := if r.cache[x].dirty then Store(r.mem, 64 * x, r.cache[x].data) else r.mem,
         cache := r.cache - {x})
  }

  /** Bring a line into the cache if it is not there. */
  function FetchLine(r: Rank, x: nat): (r': Rank)
    requires 64 * x + 64 <= |r.mem|
    ensures x in r'.cache
  {
    if x in r.cache then r else r.(cache := r.cache[x := CacheLine(LineAt(r.mem, x), false)])
  }

  /** What a load of a line returns: the cached copy if there is one, device memory otherwise. */
  function LoadedLine(r: Rank, x: nat): Line
    requires 64 * x + 64 <= |r.mem|
  {
    FetchLine(r, x).cache[x].data
  }

  /** A non-temporal store of a whole line: device memory is written and any cached copy dropped. */
  function StreamLine(r: Rank, x: nat, data: Line): Rank
    requires 64 * x + 64 <= |r.mem|
  {
    r.(mem := Store(r.mem, 64 * x, data), cache := r.cache - {x})
  }

  // ----- lanes -----

  /** The scratch line after a gather: lanes without a buffer keep what the scratch line held. */
  function Gather(t: Transfer, host: seq<byte>, v: Visit, scratch: Line): (line: Line)
    requires t.Fits(host) && t.Covers(v)
  {
    seq(64, k requires 0 <= k < 64 =>
      var p := t.LaneBuffer(v, k / 8);
      if p == NULL then scratch[k] else host[p + 8 * v.word + k % 8])
  }

  /** Host memory after the first j lanes of a line have been scattered. */
  function ScatterLanes(t: Transfer, host: seq<byte>, v: Visit, line: Line, j: nat): (r: seq<byte>)
    requires t.Fits(host) && t.Covers(v) && j <= 8
    ensures |r| == |host|
  {
    if j == 0 then host
    else
      var h := ScatterLanes(t, host, v, line, j - 1);
      var p := t.LaneBuffer(v, j - 1);
      if p == NULL then h else Store(h, p + 8 * v.word, line[8 * (j - 1)..8 * j])
  }

  function Scatter(t: Transfer, host: seq<byte>, v: Visit, line: Line): (r: seq<byte>)
    requires t.Fits(host) && t.Covers(v)
    ensures |r| == |host|
  {
    ScatterLanes(t, host, v, line, 8)
  }

  // ----- actions -----

  /** A present lane's word lies inside host memory. */
  lemma LaneInHost(t: Transfer, host: seq<byte>, v: Visit, j: nat)
    requires t.Fits(host) && t.Covers(v) && j < 8
    ensures t.Valid() && |t.buffers| == 64 && 8 * j + v.Bank() < 64
    ensures t.LaneBuffer(v, j) == t.buffers[8 * j + v.Bank()]
    ensures t.LaneBuffer(v, j) != NULL ==> t.LaneBuffer(v, j) + 8 * v.word + 8 <= |host|
  {
  }

  lemma ScatterLanesNext(t: Transfer, host: seq<byte>, v: Visit, line: Line, j: nat)
    requires t.Fits(host) && t.Covers(v) && j < 8
    ensures ScatterLanes(t, host, v, line, j + 1)
         == var p := t.LaneBuffer(v, j);
            if p == NULL then ScatterLanes(t, host, v, line, j)
            else Store(ScatterLanes(t, host, v, line, j), p + 8 * v.word, line[8 * j..8 * (j + 1)])
  {
  }

  lemma FitsIsValid(t: Transfer, host: seq<byte>)
    requires t.Fits(host)
    ensures t.Valid()
  {
  }

  lemma LineInRegion(t: Transfer, v: Visit)
    requires t.Valid() && t.Covers(v)
    ensures t.LineOf(v) < REGION_LINES
  {
    LineOfWord(t.MramWord(v.word), v.Bank());
  }

  function RankStep(t: Transfer, host: seq<byte>, r: Rank, a: Action): Rank
    requires t.Fits(host) && t.Allows(a)
  {
    match a
    case Flush(v) => LineInRegion(t, v); FlushLine(r, t.LineOf(v))
    case Prefetch(v) => LineInRegion(t, v); FetchLine(r, t.LineOf(v))
    case Load(v) => LineInRegion(t, v); FetchLine(r, t.LineOf(v))
    case Stream(v) =>
      LineInRegion(t, v);
      var line := Gather(t, host, v, r.scratch);
      StreamLine(r, t.LineOf(v), ByteInterleave(line)).(scratch := line)
    case Evict(x) => if 64 * x + 64 <= |r.mem| then FlushLine(r, x) else r
  }

  function HostStep(t: Transfer, host: seq<byte>, r: Rank, a: Action): (host': seq<byte>)
    requires t.Fits(host) && t.Allows(a)
    ensures |host'| == |host|
  {
    if a.Load? then
      LineInRegion(t, a.at);
      Scatter(t, host, a.at, ByteInterleave(LoadedLine(r, t.LineOf(a.at))))
    else
      host
  }

  datatype State = State(host: seq<byte>, rank: Rank)

  function Step(t: Transfer, s: State, a: Action): (s': State)
    requires t.Fits(s.host) && t.Allows(a)
    ensures |s'.host| == |s.host|
  {
    State(HostStep(t, s.host, s.rank, a), RankStep(t, s.host, s.rank, a))
  }

  /** The state after a sequence of actions of one rank. */
  function Run(t: Transfer, s: State, acts: seq<Action>): (s': State)
    requires t.Fits(s.host) && t.AllowsAll(acts)
    ensures |s'.host| == |s.host|
  {
    if acts == [] then s
    else
      var n := |acts| - 1;
      assert t.Allows(acts[n]);
      Step(t, Run(t, s, acts[..n]), acts[n])
  }

  lemma RunAppend(t: Transfer, s: State, acts: seq<Action>, a: Action)
    requires t.Fits(s.host) && t.AllowsAll(acts) && t.Allows(a)
    ensures t.AllowsAll(acts + [a])
    ensures Run(t, s, acts + [a]) == Step(t, Run(t, s, acts), a)
  {
    assert (acts + [a])[..|acts|] == acts;
  }

  // ----- distinct visits -----

  /** Two visits of a transfer that share a line are the same visit. */
  lemma LineOfInjective(t: Transfer, v: Visit, w: Visit)
    requires t.Valid() && t.Covers(v) && t.Covers(w) && t.LineOf(v) == t.LineOf(w)
    ensures v == w
  {
    hide LineIndex, WordOfLine, BankOfLine;
    LineOfWord(t.MramWord(v.word), v.Bank());
    LineOfWord(t.MramWord(w.word), w.Bank());
  }

  /** The line of word i of a slot, and where in it the slot's bytes are. */
  lemma SlotInLine(t: Transfer, slot: nat, i: nat, c: nat)
    requires t.Valid() && slot < SLOTS && i < t.Words() && c < 8
    ensures t.Covers(t.VisitOf(slot, i))
    ensures t.VisitOf(slot, i).Bank() == slot % 8
    ensures t.LaneBuffer(t.VisitOf(slot, i), slot / 8) == t.buffers[slot]
    ensures Physical(slot, t.symbolOffset + 8 * i + c) == 64 * t.LineOf(t.VisitOf(slot, i)) + 8 * c + slot / 8
  {
    hide LineIndex;
    assert slot % 8 % 4 == slot % 4;
    assert slot == 8 * (slot / 8) + slot % 8;
    assert (t.symbolOffset + 8 * i + c) / 8 == t.MramWord(i);
  }

  // ----- the addressed lines -----

  /** Line x holds a word of the transfer's MRAM range. */
  predicate InTransfer(t: Transfer, x: nat) {
    && x < REGION_LINES && x / 0x800 % 2 == 0
    && t.MramWord(0) <= WordOfLine(x) < t.MramWord(t.Words())
  }

  /** The visit that addresses a line of the transfer. */
  function VisitOfLine(t: Transfer, x: nat): Visit
    requires InTransfer(t, x)
  {
    Visit(BankOfLine(x) % 4, BankOfLine(x) / 4, WordOfLine(x) - t.MramWord(0))
  }

  lemma LinesOfTransfer(t: Transfer, v: Visit)
    requires t.Valid() && t.Covers(v)
    ensures InTransfer(t, t.LineOf(v))
  {
    hide LineIndex, WordOfLine, BankOfLine;
    LineOfWord(t.MramWord(v.word), v.Bank());
  }

  lemma VisitOfLineIsInverse(t: Transfer, x: nat)
    requires t.Valid() && InTransfer(t, x)
    ensures t.Covers(VisitOfLine(t, x)) && t.LineOf(VisitOfLine(t, x)) == x
  {
    hide LineIndex, WordOfLine, BankOfLine;
    WordOfLineIsInverse(x);
  }

  /** An MRAM byte lies in an addressed line exactly when its address is in the transfer's range. */
  lemma RangeOfTransfer(t: Transfer, slot: nat, a: nat)
    requires t.Valid() && slot < SLOTS && a < MRAM_SIZE
    ensures InTransfer(t, Physical(slot, a) / 64) <==> t.symbolOffset <= a < t.symbolOffset + t.length
  {
    hide LineIndex, WordOfLine, BankOfLine;
    LineOfWord(a / 8, slot % 8);
    assert Physical(slot, a) / 64 == LineIndex(a / 8, slot % 8);
  }
}
