/** Where each loop order performs each of its steps. */
module LoopOrder {
  import opened Programs
  import opened RankMachine

  /** How many steps of a bank are preceded by prefetches. */
  function Prefetching(t: Transfer, receiving: bool): nat {
    if receiving && t.Words() > 3 then t.Words() - 3 else 0
  }

  /** Actions of the first i words of a bank. */
  function BankActions(t: Transfer, receiving: bool, i: nat): nat {
    var m := Prefetching(t, receiving);
    2 * i + 2 * (if i < m then i else m)
  }

  lemma {:induction false} OriginalLength(t: Transfer, receiving: bool, d: nat, i: nat)
    requires i <= t.Words()
    ensures |OriginalBody(t, receiving, d, i)|
         == d * BankActions(t, receiving, t.Words()) + BankActions(t, receiving, i)
    decreases d, i
  {
    if i > 0 {
      OriginalLength(t, receiving, d, i - 1);
    } else if d > 0 {
      OriginalLength(t, receiving, d - 1, t.Words());
      NextMultiple(d, BankActions(t, receiving, t.Words()));
    }
  }

  lemma NextMultiple(d: nat, n: nat)
    requires d > 0
    ensures d * n == (d - 1) * n + n
  {
  }

  /** Original: bank by bank, within a bank word by word, within a word group by group; when receiving, the
      two lines of the word three ahead are prefetched just before, as long as there is such a word. */
  lemma {:induction false} OriginalOrder(t: Transfer, receiving: bool, d: nat, i: nat, v: Visit)
    requires i <= t.Words() && OriginalDone(t, d, i, v)
    ensures var bank, m := BankActions(t, receiving, t.Words()), Prefetching(t, receiving);
      var start := v.dpuId * bank + BankActions(t, receiving, v.word);
      var body := OriginalBody(t, receiving, d, i);
      if v.word < m then
        && start + 4 <= |body|
        && body[start + v.group] == Prefetch(Visit(v.dpuId, v.group, v.word + 3))
        && body[start + 2 + v.group] == Op(receiving, v)
      else
        start + 2 <= |body| && body[start + v.group] == Op(receiving, v)
    decreases d, i
  {
    if i > 0 {
      OriginalLength(t, receiving, d, i - 1);
      if !(v.dpuId == d && v.word == i - 1) {
        OriginalOrder(t, receiving, d, i - 1, v);
      }
    } else {
      OriginalOrder(t, receiving, d - 1, t.Words(), v);
    }
  }

  lemma {:induction false} RoundRobinLength(receiving: bool, i: nat, d: nat)
    ensures d <= 4 ==> |RoundRobinBody(receiving, i, d)| == 8 * i + 2 * d
    decreases i, d
  {
    if d > 0 {
      RoundRobinLength(receiving, i, d - 1);
    } else if i > 0 {
      RoundRobinLength(receiving, i - 1, 4);
    }
  }

  /** RoundRobin: word by word, within a word bank by bank, within a bank group by group. */
  lemma {:induction false} RoundRobinOrder(receiving: bool, i: nat, d: nat, v: Visit)
    requires d <= 4 && RoundRobinDone(i, d, v)
    ensures 8 * v.word + 2 * v.dpuId + v.group < |RoundRobinBody(receiving, i, d)|
    ensures RoundRobinBody(receiving, i, d)[8 * v.word + 2 * v.dpuId + v.group] == Op(receiving, v)
    decreases i, d
  {
    if d > 0 {
      RoundRobinLength(receiving, i, d - 1);
      if !(v.word == i && v.dpuId == d - 1) {
        RoundRobinOrder(receiving, i, d - 1, v);
      }
    } else {
      RoundRobinOrder(receiving, i - 1, 4, v);
    }
  }

  lemma {:induction false} SequentialLength(t: Transfer, receiving: bool, d: nat, g: nat, i: nat)
    requires g <= 2
    ensures |SequentialBody(t, receiving, d, g, i)| == (2 * d + g) * t.Words() + i
    decreases d, g, i
  {
    if i > 0 {
      SequentialLength(t, receiving, d, g, i - 1);
    } else if g > 0 {
      SequentialLength(t, receiving, d, g - 1, t.Words());
      NextMultiple(2 * d + g, t.Words());
    } else if d > 0 {
      SequentialLength(t, receiving, d - 1, 2, 0);
    }
  }

  /** Sequential: bank by bank, within a bank group by group, within a group word by word. */
  lemma {:induction false} SequentialOrder(t: Transfer, receiving: bool, d: nat, g: nat, i: nat, v: Visit)
    requires g <= 2 && i <= t.Words() && (g == 2 ==> i == 0) && SequentialDone(t, d, g, i, v)
    ensures (2 * v.dpuId + v.group) * t.Words() + v.word < |SequentialBody(t, receiving, d, g, i)|
    ensures SequentialBody(t, receiving, d, g, i)[(2 * v.dpuId + v.group) * t.Words() + v.word] == Op(receiving, v)
    decreases d, g, i
  {
    if i > 0 {
      SequentialLength(t, receiving, d, g, i - 1);
      if !(v.dpuId == d && v.group == g && v.word == i - 1) {
        SequentialOrder(t, receiving, d, g, i - 1, v);
      }
    } else if g > 0 {
      SequentialOrder(t, receiving, d, g - 1, t.Words(), v);
    } else {
      SequentialOrder(t, receiving, d - 1, 2, 0, v);
    }
  }

  /** The bodies have no other actions. */
  lemma BodyLength(t: Transfer, receiving: bool, mode: AccessMode)
    ensures var n := t.Words();
      |Body(t, receiving, mode)|
      == if receiving && mode == Original && n > 3 then 8 * n + 8 * (n - 3) else 8 * n
  {
    hide OriginalBody, RoundRobinBody, SequentialBody;
    OriginalLength(t, receiving, 4, 0);
    RoundRobinLength(receiving, t.Words(), 0);
    SequentialLength(t, receiving, 4, 0, 0);
  }

  /** The position of each step of a send or of the loads of a receive, in each of the three loop orders. */
  lemma OrderOfSteps(t: Transfer, receiving: bool, mode: AccessMode, v: Visit)
    requires t.Covers(v)
    ensures var n, body := t.Words(), Body(t, receiving, mode);
      match mode
      case Original =>
        if receiving then
          var m := if n > 3 then n - 3 else 0;
          var start := v.dpuId * (2 * n + 2 * m) + 2 * v.word + 2 * (if v.word < m then v.word else m);
          if v.word < m then
            && start + 4 <= |body|
            && body[start + v.group] == Prefetch(Visit(v.dpuId, v.group, v.word + 3))
            && body[start + 2 + v.group] == Load(v)
          else
            start + 2 <= |body| && body[start + v.group] == Load(v)
        else
          var at := v.dpuId * (2 * n) + 2 * v.word + v.group;
          at < |body| && body[at] == Stream(v)
      case RoundRobin =>
        var at := 8 * v.word + 2 * v.dpuId + v.group;
        at < |body| && body[at] == if receiving then Load(v) else Stream(v)
      case Sequential =>
        var at := (2 * v.dpuId + v.group) * n + v.word;
        at < |body| && body[at] == if receiving then Load(v) else Stream(v)
  {
    hide OriginalBody, RoundRobinBody, SequentialBody;
    match mode
    case Original => OriginalOrder(t, receiving, 4, 0, v);
    case RoundRobin => RoundRobinOrder(receiving, t.Words(), 0, v);
    case Sequential => SequentialOrder(t, receiving, 4, 0, 0, v);
  }
}
