/** The action sequences of a rank transfer in the three loop orders.  Each function follows one
    loop nest: its last arguments say how far the loops have run. */
module Programs {
  import opened RankMachine

  datatype AccessMode = Original | RoundRobin | Sequential

  /** The step a body performs on a visit. */
  function Op(receiving: bool, v: Visit): Action {
    if receiving then Load(v) else Stream(v)
  }

  /** Bank outer, word inner, both groups of a bank in turn.  Receiving prefetches both lines of the
      word three ahead. */
  function OriginalStep(t: Transfer, receiving: bool, d: nat, i: nat): seq<Action> {
    (if receiving && i + 3 < t.Words() then [Prefetch(Visit(d, 0, i + 3)), Prefetch(Visit(d, 1, i + 3))] else [])
    + [Op(receiving, Visit(d, 0, i)), Op(receiving, Visit(d, 1, i))]
  }

  function OriginalBody(t: Transfer, receiving: bool, d: nat, i: nat): seq<Action>
    decreases d, i
  {
    if i > 0 then OriginalBody(t, receiving, d, i - 1) + OriginalStep(t, receiving, d, i - 1)
    else if d > 0 then OriginalBody(t, receiving, d - 1, t.Words())
    else []
  }

  /** Word outer, all eight banks for each word. */
  function RoundRobinBody(receiving: bool, i: nat, d: nat): seq<Action>
    decreases i, d
  {
    if d > 0 then
      RoundRobinBody(receiving, i, d - 1) + [Op(receiving, Visit(d - 1, 0, i)), Op(receiving, Visit(d - 1, 1, i))]
    else if i > 0 then RoundRobinBody(receiving, i - 1, 4)
    else []
  }

  /** One bank after the other: d banks of both groups, g groups of the next, i words of the next. */
  function SequentialBody(t: Transfer, receiving: bool, d: nat, g: nat, i: nat): seq<Action>
    requires g <= 2
    decreases d, g, i
  {
    if i > 0 then SequentialBody(t, receiving, d, g, i - 1) + [Op(receiving, Visit(d, g, i - 1))]
    else if g > 0 then SequentialBody(t, receiving, d, g - 1, t.Words())
    else if d > 0 then SequentialBody(t, receiving, d - 1, 2, 0)
    else []
  }

  /** Flush both lines of every word, bank outer. */
  function FlushBody(t: Transfer, d: nat, i: nat): seq<Action>
    decreases d, i
  {
    if i > 0 then FlushBody(t, d, i - 1) + [Flush(Visit(d, 0, i - 1)), Flush(Visit(d, 1, i - 1))]
    else if d > 0 then FlushBody(t, d - 1, t.Words())
    else []
  }

  function Body(t: Transfer, receiving: bool, mode: AccessMode): seq<Action> {
    match mode
    case Original => OriginalBody(t, receiving, 4, 0)
    case RoundRobin => RoundRobinBody(receiving, t.Words(), 0)
    case Sequential => SequentialBody(t, receiving, 4, 0, 0)
  }

  function Flushes(t: Transfer): seq<Action> { FlushBody(t, 4, 0) }

  function SendProgram(t: Transfer, mode: AccessMode): seq<Action> { Body(t, false, mode) }

  function ReceiveProgram(t: Transfer, mode: AccessMode): seq<Action> {
    Flushes(t) + Body(t, true, mode) + Flushes(t)
  }

  // ----- one turn of each loop -----

  lemma OriginalNext(t: Transfer, receiving: bool, d: nat, i: nat)
    ensures OriginalBody(t, receiving, 0, 0) == []
    ensures OriginalBody(t, receiving, d, i + 1) == OriginalBody(t, receiving, d, i) + OriginalStep(t, receiving, d, i)
    ensures OriginalBody(t, receiving, d + 1, 0) == OriginalBody(t, receiving, d, t.Words())
  {
  }

  lemma RoundRobinNext(receiving: bool, i: nat, d: nat)
    ensures RoundRobinBody(receiving, 0, 0) == []
    ensures RoundRobinBody(receiving, i, d + 1)
         == RoundRobinBody(receiving, i, d) + [Op(receiving, Visit(d, 0, i)), Op(receiving, Visit(d, 1, i))]
    ensures RoundRobinBody(receiving, i + 1, 0) == RoundRobinBody(receiving, i, 4)
  {
  }

  lemma SequentialNext(t: Transfer, receiving: bool, d: nat, g: nat, i: nat)
    requires g < 2
    ensures SequentialBody(t, receiving, 0, 0, 0) == []
    ensures SequentialBody(t, receiving, d, g, i + 1)
         == SequentialBody(t, receiving, d, g, i) + [Op(receiving, Visit(d, g, i))]
    ensures SequentialBody(t, receiving, d, g + 1, 0) == SequentialBody(t, receiving, d, g, t.Words())
    ensures SequentialBody(t, receiving, d + 1, 0, 0) == SequentialBody(t, receiving, d, 2, 0)
  {
  }

  lemma FlushNext(t: Transfer, d: nat, i: nat)
    ensures FlushBody(t, 0, 0) == []
    ensures FlushBody(t, d, i + 1) == FlushBody(t, d, i) + [Flush(Visit(d, 0, i)), Flush(Visit(d, 1, i))]
    ensures FlushBody(t, d + 1, 0) == FlushBody(t, d, t.Words())
  {
  }

  // ----- each line exactly once -----

  /** The visits that the loops of each order have made when their indices are as given. */
  predicate OriginalDone(t: Transfer, d: nat, i: nat, v: Visit) {
    v.group < 2 && ((v.dpuId < d && v.word < t.Words()) || (v.dpuId == d && v.word < i))
  }

  predicate RoundRobinDone(i: nat, d: nat, v: Visit) {
    v.group < 2 && v.dpuId < 4 && (v.word < i || (v.word == i && v.dpuId < d))
  }

  predicate SequentialDone(t: Transfer, d: nat, g: nat, i: nat, v: Visit) {
    v.group < 2
    && ((v.word < t.Words() && (v.dpuId < d || (v.dpuId == d && v.group < g)))
        || (v.dpuId == d && v.group == g && v.word < i))
  }

  /** How often an action occurs. */
  ghost function Count(acts: seq<Action>, a: Action): nat { multiset(acts)[a] }

  lemma CountConcat(x: seq<Action>, y: seq<Action>, a: Action)
    ensures Count(x + y, a) == Count(x, a) + Count(y, a)
  {
  }

  lemma CountEmpty(a: Action)
    ensures Count([], a) == 0
  {
  }

  lemma CountOne(receiving: bool, w: Visit, v: Visit)
    ensures Count([Op(receiving, w)], Op(receiving, v)) == if v == w then 1 else 0
  {
  }

  /** The two groups of one bank and word. */
  lemma CountPair(receiving: bool, d: nat, i: nat, v: Visit)
    ensures Count([Op(receiving, Visit(d, 0, i)), Op(receiving, Visit(d, 1, i))], Op(receiving, v))
         == if v.group < 2 && v.dpuId == d && v.word == i then 1 else 0
  {
    CountConcat([Op(receiving, Visit(d, 0, i))], [Op(receiving, Visit(d, 1, i))], Op(receiving, v));
  }

  lemma CountOriginalStep(t: Transfer, receiving: bool, d: nat, i: nat, v: Visit)
    ensures Count(OriginalStep(t, receiving, d, i), Op(receiving, v))
         == if v.group < 2 && v.dpuId == d && v.word == i then 1 else 0
  {
    CountPair(receiving, d, i, v);
    hide Op;
    if receiving && i + 3 < t.Words() {
      CountConcat([Prefetch(Visit(d, 0, i + 3)), Prefetch(Visit(d, 1, i + 3))],
                  [Op(receiving, Visit(d, 0, i)), Op(receiving, Visit(d, 1, i))], Op(receiving, v));
      NoOpInPrefetches(receiving, d, i + 3, v);
    }
  }

  lemma NoOpInPrefetches(receiving: bool, d: nat, i: nat, v: Visit)
    ensures Count([Prefetch(Visit(d, 0, i)), Prefetch(Visit(d, 1, i))], Op(receiving, v)) == 0
  {
  }

  lemma {:induction false} OriginalOnce(t: Transfer, receiving: bool, d: nat, i: nat, v: Visit)
    requires i <= t.Words()
    ensures Count(OriginalBody(t, receiving, d, i), Op(receiving, v)) == if OriginalDone(t, d, i, v) then 1 else 0
    decreases d, i
  {
    hide OriginalStep, Op, Count;
    CountEmpty(Op(receiving, v));
    if i > 0 {
      OriginalOnce(t, receiving, d, i - 1, v);
      CountOriginalStep(t, receiving, d, i - 1, v);
      CountConcat(OriginalBody(t, receiving, d, i - 1), OriginalStep(t, receiving, d, i - 1), Op(receiving, v));
    } else if d > 0 {
      OriginalOnce(t, receiving, d - 1, t.Words(), v);
    }
  }

  lemma {:induction false} RoundRobinOnce(receiving: bool, i: nat, d: nat, v: Visit)
    requires d <= 4
    ensures Count(RoundRobinBody(receiving, i, d), Op(receiving, v)) == if RoundRobinDone(i, d, v) then 1 else 0
    decreases i, d
  {
    hide Op, Count;
    CountEmpty(Op(receiving, v));
    if d > 0 {
      RoundRobinOnce(receiving, i, d - 1, v);
      CountPair(receiving, d - 1, i, v);
      CountConcat(RoundRobinBody(receiving, i, d - 1),
                  [Op(receiving, Visit(d - 1, 0, i)), Op(receiving, Visit(d - 1, 1, i))], Op(receiving, v));
    } else if i > 0 {
      RoundRobinOnce(receiving, i - 1, 4, v);
    }
  }

  lemma {:induction false} SequentialOnce(t: Transfer, receiving: bool, d: nat, g: nat, i: nat, v: Visit)
    requires g <= 2 && i <= t.Words() && (g == 2 ==> i == 0)
    ensures Count(SequentialBody(t, receiving, d, g, i), Op(receiving, v))
         == if SequentialDone(t, d, g, i, v) then 1 else 0
    decreases d, g, i
  {
    hide Op, Count;
    CountEmpty(Op(receiving, v));
    if i > 0 {
      SequentialOnce(t, receiving, d, g, i - 1, v);
      CountOne(receiving, Visit(d, g, i - 1), v);
      CountConcat(SequentialBody(t, receiving, d, g, i - 1), [Op(receiving, Visit(d, g, i - 1))], Op(receiving, v));
    } else if g > 0 {
      SequentialOnce(t, receiving, d, g - 1, t.Words(), v);
    } else if d > 0 {
      SequentialOnce(t, receiving, d - 1, 2, 0, v);
    }
  }

  /** Every loop order performs its step exactly once on each (bank, word) of the transfer and on
      nothing else. */
  lemma EachLineOnce(t: Transfer, receiving: bool, mode: AccessMode, v: Visit)
    ensures Count(Body(t, receiving, mode), Op(receiving, v)) == if t.Covers(v) then 1 else 0
  {
    match mode
    case Original => OriginalOnce(t, receiving, 4, 0, v);
    case RoundRobin => RoundRobinOnce(receiving, t.Words(), 0, v);
    case Sequential => SequentialOnce(t, receiving, 4, 0, 0, v);
  }

  // ----- what the actions are -----

  /** A body action: the step of the transfer, or, when receiving, a prefetch; on a covered line. */
  predicate BodyAction(t: Transfer, receiving: bool, a: Action) {
    !a.Evict? && t.Covers(a.at) && (a == Op(receiving, a.at) || (receiving && a.Prefetch?))
  }

  ghost predicate AllBody(t: Transfer, receiving: bool, acts: seq<Action>) {
    forall k :: 0 <= k < |acts| ==> BodyAction(t, receiving, acts[k])
  }

  lemma {:induction false} OriginalActions(t: Transfer, receiving: bool, d: nat, i: nat)
    requires i <= t.Words() && d <= 4 && (d == 4 ==> i == 0)
    ensures AllBody(t, receiving, OriginalBody(t, receiving, d, i))
    decreases d, i
  {
    if i > 0 {
      OriginalActions(t, receiving, d, i - 1);
    } else if d > 0 {
      OriginalActions(t, receiving, d - 1, t.Words());
    }
  }

  lemma {:induction false} RoundRobinActions(t: Transfer, receiving: bool, i: nat, d: nat)
    requires i <= t.Words() && d <= 4 && (i == t.Words() ==> d == 0)
    ensures AllBody(t, receiving, RoundRobinBody(receiving, i, d))
    decreases i, d
  {
    if d > 0 {
      RoundRobinActions(t, receiving, i, d - 1);
    } else if i > 0 {
      RoundRobinActions(t, receiving, i - 1, 4);
    }
  }

  lemma {:induction false} SequentialActions(t: Transfer, receiving: bool, d: nat, g: nat, i: nat)
    requires i <= t.Words() && g <= 2 && d <= 4 && (g == 2 ==> i == 0) && (d == 4 ==> g == 0 && i == 0)
    ensures AllBody(t, receiving, SequentialBody(t, receiving, d, g, i))
    decreases d, g, i
  {
    if i > 0 {
      SequentialActions(t, receiving, d, g, i - 1);
    } else if g > 0 {
      SequentialActions(t, receiving, d, g - 1, t.Words());
    } else if d > 0 {
      SequentialActions(t, receiving, d - 1, 2, 0);
    }
  }

  lemma BodyActions(t: Transfer, receiving: bool, mode: AccessMode)
    ensures AllBody(t, receiving, Body(t, receiving, mode))
    ensures t.AllowsAll(Body(t, receiving, mode))
  {
    match mode
    case Original => OriginalActions(t, receiving, 4, 0);
    case RoundRobin => RoundRobinActions(t, receiving, t.Words(), 0);
    case Sequential => SequentialActions(t, receiving, 4, 0, 0);
  }

  ghost predicate AllFlushes(t: Transfer, acts: seq<Action>) {
    forall k :: 0 <= k < |acts| ==> acts[k].Flush? && t.Covers(acts[k].at)
  }

  lemma CountFlushPair(d: nat, i: nat, v: Visit)
    ensures Count([Flush(Visit(d, 0, i)), Flush(Visit(d, 1, i))], Flush(v))
         == if v.group < 2 && v.dpuId == d && v.word == i then 1 else 0
  {
    CountConcat([Flush(Visit(d, 0, i))], [Flush(Visit(d, 1, i))], Flush(v));
  }

  /** The flush loop flushes exactly the lines of the transfer, each once. */
  lemma {:induction false} FlushOnce(t: Transfer, d: nat, i: nat, v: Visit)
    requires i <= t.Words()
    ensures Count(FlushBody(t, d, i), Flush(v)) == if OriginalDone(t, d, i, v) then 1 else 0
    decreases d, i
  {
    hide Count;
    CountEmpty(Flush(v));
    if i > 0 {
      FlushOnce(t, d, i - 1, v);
      CountFlushPair(d, i - 1, v);
      CountConcat(FlushBody(t, d, i - 1), [Flush(Visit(d, 0, i - 1)), Flush(Visit(d, 1, i - 1))], Flush(v));
    } else if d > 0 {
      FlushOnce(t, d - 1, t.Words(), v);
    }
  }

  lemma {:induction false} FlushActions(t: Transfer, d: nat, i: nat)
    requires i <= t.Words() && d <= 4 && (d == 4 ==> i == 0)
    ensures AllFlushes(t, FlushBody(t, d, i))
    decreases d, i
  {
    if i > 0 {
      FlushActions(t, d, i - 1);
    } else if d > 0 {
      FlushActions(t, d - 1, t.Words());
    }
  }

  lemma FlushesCover(t: Transfer)
    ensures AllFlushes(t, Flushes(t))
    ensures forall v: Visit :: t.Covers(v) ==> Flush(v) in Flushes(t)
  {
    FlushActions(t, 4, 0);
    forall v: Visit | t.Covers(v)
      ensures Flush(v) in Flushes(t)
    {
      FlushOnce(t, 4, 0, v);
    }
  }

  lemma ProgramsAllowed(t: Transfer, mode: AccessMode)
    ensures t.AllowsAll(SendProgram(t, mode)) && t.AllowsAll(ReceiveProgram(t, mode))
  {
    BodyActions(t, false, mode);
    BodyActions(t, true, mode);
    FlushesCover(t);
    hide Body, Flushes;
  }
}
