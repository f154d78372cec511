/** All ranks of the system and the host memory they share.  A schedule is any interleaving of the
    cache-line actions of the ranks, with evictions of the processor's own choosing anywhere. */
module World {
  import opened Memory
  import opened RankMachine

  datatype World = World(host: seq<byte>, ranks: seq<Rank>)
  {
    ghost predicate Clean() {
      forall r :: 0 <= r < |ranks| ==> ranks[r].Clean()
    }

    /** One transfer for each rank, its buffers inside host memory. */
    ghost predicate Accepts(ts: seq<Transfer>) {
      |ts| == |ranks| && forall r :: 0 <= r < |ts| ==> ts[r].Fits(host)
    }
  }

  datatype Event = Event(rank: nat, action: Action)

  ghost predicate Permits(ts: seq<Transfer>, e: Event) {
    e.rank < |ts| && ts[e.rank].Allows(e.action)
  }

  ghost predicate PermitsAll(ts: seq<Transfer>, es: seq<Event>) {
    forall k :: 0 <= k < |es| ==> Permits(ts, es[k])
  }

  function WorldStep(ts: seq<Transfer>, w: World, e: Event): (w': World)
    requires w.Accepts(ts) && Permits(ts, e)
    ensures w'.Accepts(ts) && |w'.host| == |w.host|
  {
    var s := Step(ts[e.rank], State(w.host, w.ranks[e.rank]), e.action);
    World(s.host, w.ranks[e.rank := s.rank])
  }

  function WorldRun(ts: seq<Transfer>, w: World, es: seq<Event>): (w': World)
    requires w.Accepts(ts) && PermitsAll(ts, es)
    ensures w'.Accepts(ts) && |w'.host| == |w.host|
  {
    if es == [] then w
    else
      var n := |es| - 1;
      assert Permits(ts, es[n]);
      WorldStep(ts, WorldRun(ts, w, es[..n]), es[n])
  }

  /** What a rank's own thread does in a schedule: its events without the evictions. */
  function Project(es: seq<Event>, r: nat): seq<Action>
  {
    if es == [] then []
    else
      var n := |es| - 1;
      var init := Project(es[..n], r);
      if es[n].rank == r && !es[n].action.Evict? then init + [es[n].action] else init
  }

  /** An interleaving of one program per rank. */
  ghost predicate Interleaves(ts: seq<Transfer>, programs: seq<seq<Action>>, es: seq<Event>)
  {
    && |programs| == |ts| && PermitsAll(ts, es)
    && forall r :: 0 <= r < |ts| ==> Project(es, r) == programs[r]
  }

  /** The beginning of such an interleaving. */
  ghost predicate Begins(ts: seq<Transfer>, programs: seq<seq<Action>>, es: seq<Event>)
  {
    && |programs| == |ts| && PermitsAll(ts, es)
    && forall r :: 0 <= r < |ts| ==> Project(es, r) <= programs[r]
  }

  lemma BeginsEarlier(ts: seq<Transfer>, programs: seq<seq<Action>>, es: seq<Event>)
    requires es != [] && Begins(ts, programs, es)
    ensures Begins(ts, programs, es[..|es| - 1])
  {
    var init := es[..|es| - 1];
    forall r | 0 <= r < |ts| ensures Project(init, r) <= programs[r] {
      assert Project(init, r) <= Project(es, r);
    }
  }

  lemma {:induction false} BeginsAt(ts: seq<Transfer>, programs: seq<seq<Action>>, es: seq<Event>, k: nat)
    requires k <= |es| && Begins(ts, programs, es)
    ensures Begins(ts, programs, es[..k])
  {
    if k < |es| {
      var init := es[..|es| - 1];
      BeginsEarlier(ts, programs, es);
      BeginsAt(ts, programs, init, k);
      assert init[..k] == es[..k];
    } else {
      assert es[..k] == es;
    }
  }

  // ----- the schedule that runs one rank after another -----

  function Lift(r: nat, acts: seq<Action>): seq<Event> {
    seq(|acts|, k requires 0 <= k < |acts| => Event(r, acts[k]))
  }

  /** The first n programs, one after another. */
  function OneByOne(programs: seq<seq<Action>>, n: nat): seq<Event>
    requires n <= |programs|
  {
    if n == 0 then [] else OneByOne(programs, n - 1) + Lift(n - 1, programs[n - 1])
  }

  lemma LiftEnds(r: nat, acts: seq<Action>)
    ensures |Lift(r, acts)| == |acts| && forall k :: 0 <= k < |acts| ==> Lift(r, acts)[k] == Event(r, acts[k])
    ensures acts != [] ==> Lift(r, acts) == Lift(r, acts[..|acts| - 1]) + [Event(r, acts[|acts| - 1])]
  {
  }

  lemma {:induction false} RunLifted(ts: seq<Transfer>, w: World, es: seq<Event>, r: nat, acts: seq<Action>)
    requires w.Accepts(ts) && PermitsAll(ts, es) && r < |ts| && ts[r].AllowsAll(acts)
    ensures PermitsAll(ts, es + Lift(r, acts))
    ensures var u := WorldRun(ts, w, es);
      var s := Run(ts[r], State(u.host, u.ranks[r]), acts);
      WorldRun(ts, w, es + Lift(r, acts)) == World(s.host, u.ranks[r := s.rank])
  {
    hide Step, Lift, Transfer.Fits, Transfer.Allows;
    var u := WorldRun(ts, w, es);
    LiftEnds(r, acts);
    if acts == [] {
      assert es + Lift(r, acts) == es;
      assert u.ranks[r := u.ranks[r]] == u.ranks;
    } else {
      var n := |acts| - 1;
      var init, a := acts[..n], acts[n];
      assert ts[r].Allows(a);
      RunLifted(ts, w, es, r, init);
      var all := es + Lift(r, acts);
      assert all[..|all| - 1] == es + Lift(r, init);
      assert all[|all| - 1] == Event(r, a);
    }
  }

  lemma {:induction false} ProjectLifted(es: seq<Event>, r: nat, acts: seq<Action>, q: nat)
    requires forall k :: 0 <= k < |acts| ==> !acts[k].Evict?
    ensures Project(es + Lift(r, acts), q) == if q == r then Project(es, q) + acts else Project(es, q)
  {
    var all := es + Lift(r, acts);
    if acts == [] {
      assert all == es;
    } else {
      var n := |acts| - 1;
      assert all[..|all| - 1] == es + Lift(r, acts[..n]);
      assert all[|all| - 1] == Event(r, acts[n]);
      ProjectLifted(es, r, acts[..n], q);
      assert acts[..n] + [acts[n]] == acts;
    }
  }

  ghost predicate NoEvictions(acts: seq<Action>) {
    forall k :: 0 <= k < |acts| ==> !acts[k].Evict?
  }

  lemma NothingProjected(r: nat)
    ensures Project([], r) == []
  {
  }

  lemma {:induction false} OneByOneProjects(programs: seq<seq<Action>>, n: nat, q: nat)
    requires n <= |programs| && forall r :: 0 <= r < |programs| ==> NoEvictions(programs[r])
    ensures Project(OneByOne(programs, n), q) == if q < n then programs[q] else []
  {
    hide Project, Lift;
    if n == 0 {
      NothingProjected(q);
    } else {
      OneByOneProjects(programs, n - 1, q);
      assert NoEvictions(programs[n - 1]);
      ProjectLifted(OneByOne(programs, n - 1), n - 1, programs[n - 1], q);
    }
  }

  lemma {:induction false} OneByOnePermitted(ts: seq<Transfer>, programs: seq<seq<Action>>, n: nat)
    requires n <= |programs| && |programs| == |ts|
    requires forall r :: 0 <= r < |ts| ==> ts[r].AllowsAll(programs[r])
    ensures PermitsAll(ts, OneByOne(programs, n))
  {
    if n > 0 {
      OneByOnePermitted(ts, programs, n - 1);
      assert ts[n - 1].AllowsAll(programs[n - 1]);
    }
  }

  /** Running the ranks one after another is one of the interleavings. */
  lemma OneByOneInterleaves(ts: seq<Transfer>, programs: seq<seq<Action>>)
    requires |programs| == |ts|
    requires forall r :: 0 <= r < |ts| ==> ts[r].AllowsAll(programs[r]) && NoEvictions(programs[r])
    ensures Interleaves(ts, programs, OneByOne(programs, |programs|))
  {
    OneByOnePermitted(ts, programs, |programs|);
    forall r | 0 <= r < |ts| ensures Project(OneByOne(programs, |programs|), r) == programs[r] {
      OneByOneProjects(programs, |programs|, r);
    }
  }

  // ----- from one schedule to another -----

  lemma {:induction false} ProjectConcat(x: seq<Event>, y: seq<Event>, r: nat)
    ensures Project(x + y, r) == Project(x, r) + Project(y, r)
  {
    if y == [] {
      assert x + y == x;
    } else {
      var n := |y| - 1;
      ProjectConcat(x, y[..n], r);
      assert (x + y)[..|x + y| - 1] == x + y[..n];
    }
  }

  lemma ProjectOne(e: Event, r: nat)
    ensures Project([e], r) == if e.rank == r && !e.action.Evict? then [e.action] else []
  {
    assert [e][..0] == [];
  }

  lemma PermitsParts(ts: seq<Transfer>, x: seq<Event>, m: seq<Event>, m': seq<Event>, y: seq<Event>)
    requires PermitsAll(ts, x + m + y) && forall e :: e in m' ==> e in m || Permits(ts, e)
    ensures PermitsAll(ts, x + m' + y)
  {
    hide Permits;
    assert forall e :: e in x + m + y ==> Permits(ts, e);
    forall k | 0 <= k < |x + m' + y| ensures Permits(ts, (x + m' + y)[k]) {
      var e := (x + m' + y)[k];
      assert e in x || e in m' || e in y;
    }
  }

  /** Two neighbouring events of different ranks may happen in either order. */
  lemma SwapInterleaves(ts: seq<Transfer>, programs: seq<seq<Action>>, x: seq<Event>, e1: Event, e2: Event,
                        y: seq<Event>)
    requires Interleaves(ts, programs, x + [e1, e2] + y) && e1.rank != e2.rank
    ensures Interleaves(ts, programs, x + [e2, e1] + y)
  {
    hide Project, Permits, PermitsAll;
    PermitsParts(ts, x, [e1, e2], [e2, e1], y);
    forall r | 0 <= r < |ts| ensures Project(x + [e2, e1] + y, r) == programs[r] {
      assert [e1, e2] == [e1] + [e2] && [e2, e1] == [e2] + [e1];
      ProjectConcat([e1], [e2], r);
      ProjectConcat([e2], [e1], r);
      ProjectOne(e1, r);
      ProjectOne(e2, r);
      ProjectMiddle(x, [e1, e2], y, r);
      ProjectMiddle(x, [e2, e1], y, r);
    }
  }

  lemma ProjectMiddle(x: seq<Event>, m: seq<Event>, y: seq<Event>, r: nat)
    ensures Project(x + m + y, r) == Project(x, r) + Project(m, r) + Project(y, r)
  {
    ProjectConcat(x + m, y, r);
    ProjectConcat(x, m, r);
  }

  /** The processor may evict any line of any rank at any point of a schedule. */
  lemma EvictionAnywhere(ts: seq<Transfer>, programs: seq<seq<Action>>, x: seq<Event>, y: seq<Event>, r: nat, line: nat)
    requires Interleaves(ts, programs, x + y) && r < |ts|
    ensures Interleaves(ts, programs, x + [Event(r, Evict(line))] + y)
  {
    hide Project, PermitsAll;
    var e := Event(r, Evict(line));
    assert x + [] + y == x + y;
    PermitsParts(ts, x, [], [e], y);
    forall q | 0 <= q < |ts| ensures Project(x + [e] + y, q) == programs[q] {
      ProjectOne(e, q);
      ProjectMiddle(x, [e], y, q);
      ProjectConcat(x, y, q);
    }
  }
}
