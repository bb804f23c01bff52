// Running the parent pipeline with the sub-graph as one node is running the composed pipeline.
module LiftedRuns {
  import opened Graphs
  import opened Strings
  import opened State
  import opened Composition
  import opened CompositionSelection
  import opened Engine
  import opened EngineRuns
  import opened InlinedRuns
  import opened Crossings
  import opened SubGraphRuns
  import opened HierarchicalRuns

  // What each node of the parent may take: steps of the composed run, and failures of an inner node.
  datatype Budget = Budget(steps: nat, failures: nat)

  // The sub-graph on its own runs from a context to its exit within the budget.
  ghost predicate Affordable(cfg: Config, sub: Graph, id: string, c: Context, n: Budget)
    requires HasBoundary(sub)
  {
    exists vs :: SubRun(Alone(cfg, sub, id), sub, c, vs) && Calm(Alone(cfg, sub, id), vs, n.failures) && |vs| <= n.steps
  }

  // Every visit of the replaced node along a run of the parent does so.
  ghost predicate AllAffordable(cfg: Config, sub: Graph, id: string, ps: seq<RunState>, n: Budget)
    requires HasBoundary(sub)
  {
    forall i :: 0 <= i < |ps| && ps[i].current == id ==> Affordable(cfg, sub, id, ps[i].ctx, n)
  }

  // A run of the parent along edges between outer nodes, beside a state of the composed pipeline
  // with room enough for the inner runs.
  ghost predicate Liftable(cfg: Config, parent: Graph, sub: Graph, id: string, ps: seq<RunState>, s: RunState,
                           n: Budget) {
    Suited(cfg, parent, sub, id)
    && IsTrail(Hierarchy(cfg, parent, sub, id), ps) && ByEdgesOnly(Hierarchy(cfg, parent, sub, id), ps)
    && ps[0].current != id && !Below(id, ps[0].current)
    && ps[|ps| - 1].current != id && !Below(id, ps[|ps| - 1].current)
    && s.current == ps[0].current && Matches(s, ps[0], id, InlinedExit(sub, id))
    && AllAffordable(cfg, sub, id, ps, n) && Room(cfg, sub, id, s, |ps|, n)
  }

  // Room for k nodes of the parent: steps, and failures that the limit still tolerates.
  ghost predicate Room(cfg: Config, sub: Graph, id: string, s: RunState, k: nat, n: Budget)
    requires HasBoundary(sub)
  {
    n.steps >= 1 && s.steps + n.steps * k <= cfg.maxSteps && Patient(cfg, sub, id, s.failures, n.failures * k)
  }

  lemma LiftableFacts(cfg: Config, parent: Graph, sub: Graph, id: string, ps: seq<RunState>, s: RunState, n: Budget)
    requires Liftable(cfg, parent, sub, id, ps, s, n)
    ensures HasBoundary(sub) && ps != [] && Suited(cfg, parent, sub, id)
    ensures IsTrail(Hierarchy(cfg, parent, sub, id), ps) && ByEdgesOnly(Hierarchy(cfg, parent, sub, id), ps)
    ensures s.current != id && !Below(id, s.current) && s.current == ps[0].current
    ensures ps[|ps| - 1].current != id && !Below(id, ps[|ps| - 1].current)
    ensures Matches(s, ps[0], id, InlinedExit(sub, id)) && AllAffordable(cfg, sub, id, ps, n)
    ensures Room(cfg, sub, id, s, |ps|, n) && n.steps >= 1
  {
  }

  // The rest of a run, from a state further on.
  lemma LiftableRest(cfg: Config, parent: Graph, sub: Graph, id: string, ps: seq<RunState>, s: RunState, n: Budget,
                     k: nat, t: RunState)
    requires HasBoundary(sub) && k < |ps| && ps[k].current != id
    requires t.steps <= s.steps + n.steps * k && Grown(s, t, id, ExitId(sub), n.failures * k)
    requires t.current == ps[k].current && !Below(id, t.current) && Matches(t, ps[k], id, InlinedExit(sub, id))
    requires Liftable(cfg, parent, sub, id, ps, s, n)
    ensures Liftable(cfg, parent, sub, id, ps[k..], t, n)
  {
    hide *;
    var pcfg := Hierarchy(cfg, parent, sub, id);
    LiftableFacts(cfg, parent, sub, id, ps, s, n);
    Stretch(pcfg, ps, k, |ps|);
    RoomLeft(cfg, sub, id, s, |ps|, n, t, |ps| - k);
    AffordableRest(cfg, sub, id, ps, n, k);
    assert ps[k..|ps|] == ps[k..];
    IsLiftable(cfg, parent, sub, id, ps[k..], t, n);
  }

  lemma AffordableRest(cfg: Config, sub: Graph, id: string, ps: seq<RunState>, n: Budget, k: nat)
    requires HasBoundary(sub) && AllAffordable(cfg, sub, id, ps, n) && k <= |ps|
    ensures AllAffordable(cfg, sub, id, ps[k..], n)
  {
    hide Affordable;
    assert forall i :: 0 <= i < |ps| - k ==> ps[k..][i] == ps[k + i];
  }

  lemma IsLiftable(cfg: Config, parent: Graph, sub: Graph, id: string, ps: seq<RunState>, s: RunState, n: Budget)
    requires HasBoundary(sub) && ps != [] && Suited(cfg, parent, sub, id)
    requires IsTrail(Hierarchy(cfg, parent, sub, id), ps) && ByEdgesOnly(Hierarchy(cfg, parent, sub, id), ps)
    requires s.current != id && !Below(id, s.current) && s.current == ps[0].current
    requires ps[|ps| - 1].current != id && !Below(id, ps[|ps| - 1].current)
    requires Matches(s, ps[0], id, InlinedExit(sub, id)) && AllAffordable(cfg, sub, id, ps, n)
    requires Room(cfg, sub, id, s, |ps|, n)
    ensures Liftable(cfg, parent, sub, id, ps, s, n)
  {
  }

  lemma RoomLeft(cfg: Config, sub: Graph, id: string, s: RunState, k: nat, n: Budget, t: RunState, m: nat)
    requires HasBoundary(sub) && Room(cfg, sub, id, s, k, n) && m <= k
    requires t.steps <= s.steps + n.steps * (k - m) && Grown(s, t, id, ExitId(sub), n.failures * (k - m))
    ensures Room(cfg, sub, id, t, m, n)
  {
    assert n.steps * k == n.steps * (k - m) + n.steps * m;
    var f, g := n.failures * k, n.failures * m;
    assert f == n.failures * (k - m) + g;
    PatientLater(cfg, sub, id, s, t, f, g);
  }

  lemma PatientLater(cfg: Config, sub: Graph, id: string, s: RunState, t: RunState, f: nat, g: nat)
    requires HasBoundary(sub) && Patient(cfg, sub, id, s.failures, f) && g <= f
    requires Grown(s, t, id, ExitId(sub), f - g)
    ensures Patient(cfg, sub, id, t.failures, g)
  {
    if cfg.maxIdenticalFailures.Some? && g != 0 {
      forall x, e | x != ExitId(sub) ensures BelowLimitWith(cfg, t.failures, PrefixId(id, x), e, g) {
        assert BelowLimitWith(cfg, s.failures, PrefixId(id, x), e, f);
        assert GrownBy(s, t, PrefixId(id, x), e, f - g);
      }
    }
  }

  lemma SomeRoom(cfg: Config, sub: Graph, id: string, s: RunState, k: nat, n: Budget)
    requires HasBoundary(sub) && Room(cfg, sub, id, s, k, n) && k >= 1
    ensures s.steps + n.steps <= cfg.maxSteps && s.steps < cfg.maxSteps
    ensures Patient(cfg, sub, id, s.failures, n.failures)
  {
    assert n.steps * k == n.steps + n.steps * (k - 1);
    assert n.failures * k == n.failures + n.failures * (k - 1);
    var f, g := n.failures * k, n.failures;
    NotGrown(s, s, id, ExitId(sub), f - g);
    PatientLater(cfg, sub, id, s, s, f, g);
  }

  lemma NotGrown(s: RunState, t: RunState, id: string, exit: string, f: nat)
    requires forall x, e :: x != exit ==>
               Count(t.failures, (PrefixId(id, x), e)) == Count(s.failures, (PrefixId(id, x), e))
    ensures Grown(s, t, id, exit, f)
  {
    forall x, e | x != exit ensures GrownBy(s, t, PrefixId(id, x), e, f) {
    }
  }

  lemma GrownTwice(s: RunState, t: RunState, u: RunState, id: string, exit: string, f: nat, g: nat, h: nat)
    requires Grown(s, t, id, exit, f) && Grown(t, u, id, exit, g) && f + g <= h
    ensures Grown(s, u, id, exit, h)
  {
    forall x, e | x != exit ensures GrownBy(s, u, PrefixId(id, x), e, h) {
      assert GrownBy(s, t, PrefixId(id, x), e, f) && GrownBy(t, u, PrefixId(id, x), e, g);
    }
  }

  // Outer nodes and the exit leave the counts of the other inner nodes alone.
  lemma NothingGrows(cfg: Config, s: RunState, e: GraphEdge, id: string, exit: string)
    requires Goes(cfg, s, e) && (Below(id, s.current) ==> s.current == PrefixId(id, exit))
    ensures Step(cfg, s).Goto? && Grown(s, Step(cfg, s).next, id, exit, 0)
  {
    GoesTo(cfg, s, e);
    hide Goes, Step;
    forall x ensures Below(id, PrefixId(id, x)) && (PrefixId(id, x) == PrefixId(id, exit) <==> x == exit) {
      StripPrefixId(id, x, "");
      PrefixIdInjective(id, x, exit);
    }
    NotGrown(s, Step(cfg, s).next, id, exit, 0);
  }

  lemma LiftPair(cfg: Config, parent: Graph, sub: Graph, id: string, ps: seq<RunState>, s: RunState, n: Budget)
    returns (e: GraphEdge)
    requires Liftable(cfg, parent, sub, id, ps, s, n) && |ps| > 1
    ensures HasBoundary(sub) && OuterPair(cfg, parent, sub, id, s, ps[0])
    ensures Goes(Hierarchy(cfg, parent, sub, id), ps[0], e)
    ensures Step(Hierarchy(cfg, parent, sub, id), ps[0]).next == ps[1]
  {
    LiftableFacts(cfg, parent, sub, id, ps, s, n);
    hide Step, Mirrors, Suited, Room, AllAffordable, Hierarchy, Patient;
    SomeRoom(cfg, sub, id, s, |ps|, n);
    e := Step(Hierarchy(cfg, parent, sub, id), ps[0]).move.edge;
  }

  // The first step.
  lemma LiftOnce(cfg: Config, parent: Graph, sub: Graph, id: string, ps: seq<RunState>, s: RunState, n: Budget)
    returns (t: RunState, e: GraphEdge)
    requires Liftable(cfg, parent, sub, id, ps, s, n) && |ps| > 1
    ensures HasBoundary(sub) && Goes(Hierarchy(cfg, parent, sub, id), ps[0], e)
    ensures Step(Hierarchy(cfg, parent, sub, id), ps[0]).next == ps[1]
    ensures Goes(cfg, s, Turned(e, id, InlinedStart(sub, id))) && Step(cfg, s).next == t && t.steps == s.steps + 1
    ensures Matches(t, ps[1], id, InlinedExit(sub, id)) && ps[1].current == e.to
    ensures e.to == id ==> t.current == InlinedStart(sub, id)
    ensures e.to != id ==> t.current == e.to && !Below(id, e.to)
    ensures Grown(s, t, id, ExitId(sub), 0)
  {
    hide Step, Matches, OuterPair, Goes, Liftable, Hierarchy, Grown;
    LiftableFacts(cfg, parent, sub, id, ps, s, n);
    e := LiftPair(cfg, parent, sub, id, ps, s, n);
    OuterGoes(cfg, parent, sub, id, s, ps[0], e);
    OuterArrives(cfg, parent, sub, id, s, ps[0], e);
    GoesTo(cfg, s, Turned(e, id, InlinedStart(sub, id)));
    NothingGrows(cfg, s, Turned(e, id, InlinedStart(sub, id)), id, ExitId(sub));
    t := Step(cfg, s).next;
  }

  // Onward from the first step, when it leads to an outer node.
  lemma LiftOutside(cfg: Config, parent: Graph, sub: Graph, id: string, ps: seq<RunState>, s: RunState, n: Budget)
    returns (t: RunState, e: GraphEdge)
    requires Liftable(cfg, parent, sub, id, ps, s, n) && |ps| > 1 && ps[1].current != id
    ensures HasBoundary(sub) && Goes(Hierarchy(cfg, parent, sub, id), ps[0], e)
    ensures Step(Hierarchy(cfg, parent, sub, id), ps[0]).next == ps[1]
    ensures Goes(cfg, s, Turned(e, id, InlinedStart(sub, id))) && Step(cfg, s).next == t
    ensures Liftable(cfg, parent, sub, id, ps[1..], t, n)
  {
    hide Step, Matches, Goes, Hierarchy, Suited, Liftable, Grown;
    LiftableFacts(cfg, parent, sub, id, ps, s, n);
    t, e := LiftOnce(cfg, parent, sub, id, ps, s, n);
    GrownMore(s, t, id, ExitId(sub), 0, n.failures * 1);
    LiftableRest(cfg, parent, sub, id, ps, s, n, 1, t);
  }

  lemma GrownMore(s: RunState, t: RunState, id: string, exit: string, f: nat, g: nat)
    requires Grown(s, t, id, exit, f) && f <= g
    ensures Grown(s, t, id, exit, g)
  {
    forall x, e | x != exit ensures GrownBy(s, t, PrefixId(id, x), e, g) {
      assert GrownBy(s, t, PrefixId(id, x), e, f);
    }
  }

  // A crossing from the very state that the composed run has reached.
  lemma CrossFrom(cfg: Config, parent: Graph, sub: Graph, id: string, t: RunState, n: Budget)
    returns (us: seq<RunState>)
    requires Suited(cfg, parent, sub, id) && HasBoundary(sub) && Affordable(cfg, sub, id, t.ctx, n)
    requires t.current == InlinedStart(sub, id) && t.steps + n.steps <= cfg.maxSteps
    requires Patient(cfg, sub, id, t.failures, n.failures)
    ensures Crossing(cfg, sub, id, us) && us[0] == t && |us| <= n.steps
    ensures us[|us| - 1].steps == t.steps + |us| - 1 && Grown(t, us[|us| - 1], id, ExitId(sub), n.failures)
  {
    hide Step, Suited, Executable, Patient, Crossing, Grown;
    var vs :| SubRun(Alone(cfg, sub, id), sub, t.ctx, vs) && Calm(Alone(cfg, sub, id), vs, n.failures)
      && |vs| <= n.steps;
    us := SubRunIsCrossing(cfg, parent, sub, id, vs, t, n.failures);
  }

  // Onward from the first step, when it leads to the replaced node.
  lemma LiftAcross(cfg: Config, parent: Graph, sub: Graph, id: string, ps: seq<RunState>, s: RunState, n: Budget)
    returns (us: seq<RunState>, t: RunState, e: GraphEdge, f: GraphEdge)
    requires Liftable(cfg, parent, sub, id, ps, s, n) && |ps| > 1 && ps[1].current == id
    ensures HasBoundary(sub) && |ps| > 2 && Crossing(cfg, sub, id, us)
    ensures var pcfg := Hierarchy(cfg, parent, sub, id);
            Goes(pcfg, ps[0], e) && Step(pcfg, ps[0]).next == ps[1]
            && Goes(pcfg, ps[1], f) && Step(pcfg, ps[1]).next == ps[2]
    ensures Goes(cfg, s, Turned(e, id, InlinedStart(sub, id))) && Step(cfg, s).next == us[0]
    ensures Goes(cfg, us[|us| - 1], f.(from := InlinedExit(sub, id))) && Step(cfg, us[|us| - 1]).next == t
    ensures Liftable(cfg, parent, sub, id, ps[2..], t, n)
  {
    hide Step, Matches, Mirrors, Goes, Hierarchy, Suited, Liftable, Crossing, Affordable, Grown, Patient, Room;
    LiftableFacts(cfg, parent, sub, id, ps, s, n);
    var u: RunState;
    u, e := LiftOnce(cfg, parent, sub, id, ps, s, n);
    GrownMore(s, u, id, ExitId(sub), 0, n.failures * 1);
    RoomLeft(cfg, sub, id, s, |ps|, n, u, |ps| - 1);
    SomeRoom(cfg, sub, id, u, |ps| - 1, n);
    SameContext(u, ps[1], id, InlinedExit(sub, id));
    us := CrossFrom(cfg, parent, sub, id, u, n);
    CrossingEnds(cfg, sub, id, us);
    f := NextEdge(cfg, parent, sub, id, ps);
    t := LiftOff(cfg, parent, sub, id, us, ps[1], f);
    GoesTo(Hierarchy(cfg, parent, sub, id), ps[1], f);
    ExitGrows(cfg, sub, id, us, f, t);
    GrownTwice(s, u, us[|us| - 1], id, ExitId(sub), 0, n.failures, n.failures);
    GrownTwice(s, us[|us| - 1], t, id, ExitId(sub), n.failures, 0, n.failures * 2);
    assert t.steps <= s.steps + n.steps * 2;
    LiftableRest(cfg, parent, sub, id, ps, s, n, 2, t);
  }

  lemma ExitGrows(cfg: Config, sub: Graph, id: string, us: seq<RunState>, f: GraphEdge, t: RunState)
    requires HasBoundary(sub) && Crossing(cfg, sub, id, us)
    requires Goes(cfg, us[|us| - 1], f.(from := InlinedExit(sub, id))) && Step(cfg, us[|us| - 1]).next == t
    ensures Grown(us[|us| - 1], t, id, ExitId(sub), 0)
  {
    CrossingEnds(cfg, sub, id, us);
    hide Step, Goes, Crossing, Grown;
    NothingGrows(cfg, us[|us| - 1], f.(from := InlinedExit(sub, id)), id, ExitId(sub));
  }

  lemma NextEdge(cfg: Config, parent: Graph, sub: Graph, id: string, ps: seq<RunState>) returns (f: GraphEdge)
    requires HasBoundary(sub) && |ps| > 2
    requires IsTrail(Hierarchy(cfg, parent, sub, id), ps) && ByEdgesOnly(Hierarchy(cfg, parent, sub, id), ps)
    ensures var pcfg := Hierarchy(cfg, parent, sub, id); Goes(pcfg, ps[1], f) && Step(pcfg, ps[1]).next == ps[2]
  {
    hide Step;
    f := Step(Hierarchy(cfg, parent, sub, id), ps[1]).move.edge;
  }

  // Off again from the inlined exit.
  lemma LiftOff(cfg: Config, parent: Graph, sub: Graph, id: string, us: seq<RunState>, b: RunState, f: GraphEdge)
    returns (t: RunState)
    requires Suited(cfg, parent, sub, id) && HasBoundary(sub) && Crossing(cfg, sub, id, us)
    requires b.current == id && Matches(us[0], b, id, InlinedExit(sub, id)) && us[0].steps <= us[|us| - 1].steps
    requires Goes(Hierarchy(cfg, parent, sub, id), b, f)
    ensures Goes(cfg, us[|us| - 1], f.(from := InlinedExit(sub, id))) && Step(cfg, us[|us| - 1]).next == t
    ensures t.steps == us[|us| - 1].steps + 1 && t.current == f.to && f.to != id && !Below(id, f.to)
    ensures Step(Hierarchy(cfg, parent, sub, id), b).Goto?
    ensures Matches(t, Step(Hierarchy(cfg, parent, sub, id), b).next, id, InlinedExit(sub, id))
  {
    var s, exit := us[|us| - 1], InlinedExit(sub, id);
    CrossingEnds(cfg, sub, id, us);
    StripPrefixId(id, ExitId(sub), "");
    SameContext(us[0], b, id, exit);
    CrossingMirrors(cfg, parent, sub, id, us, b, |us| - 1);
    GoesTo(Hierarchy(cfg, parent, sub, id), b, f);
    assert Executable(cfg, s);
    hide Step, Mirrors, Suited, Crossing, Matches;
    ExitNode(cfg, parent, sub, id, s);
    assert ExitPair(cfg, parent, sub, id, us, b);
    hide ExitPair, Goes;
    ExitGoes(cfg, parent, sub, id, us, b, f);
    ExitArrives(cfg, parent, sub, id, us, b, f);
    GoesTo(cfg, s, f.(from := exit));
    t := Step(cfg, s).next;
  }

  // A run of the parent pipeline along edges, between outer nodes, in which the handler of the
  // replaced node runs the sub-graph on its own, is the projection of a run of the composed pipeline:
  // from any state with the same node, context and books, if steps are left for the inner nodes and
  // the counts that they hold, with those of the inner runs, stay below the limit.
  lemma {:induction false} ParentLifts(cfg: Config, parent: Graph, sub: Graph, id: string, ps: seq<RunState>,
                                       s: RunState, n: Budget)
    returns (ts: seq<RunState>)
    requires Liftable(cfg, parent, sub, id, ps, s, n)
    ensures HasBoundary(sub) && ts != [] && ts[0] == s && IsTrail(cfg, ts) && ByEdgesOnly(cfg, ts)
    ensures Follows(Hierarchy(cfg, parent, sub, id), ts, ps, sub, id)
    decreases |ps|
  {
    hide Step, Matches, Follows, Liftable, HasBoundary, Hierarchy, Below, Goes, Suited, Crossing;
    LiftableFacts(cfg, parent, sub, id, ps, s, n);
    var pcfg, exit := Hierarchy(cfg, parent, sub, id), InlinedExit(sub, id);
    if |ps| == 1 {
      ts := [s];
      FollowsAlone(pcfg, s, ps[0], sub, id);
      assert ps == [ps[0]];
    } else if ps[1].current != id {
      var t, e := LiftOutside(cfg, parent, sub, id, ps, s, n);
      var rest := ParentLifts(cfg, parent, sub, id, ps[1..], t, n);
      hide IsTrail, ByEdgesOnly;
      AlongEdge(cfg, s, Turned(e, id, InlinedStart(sub, id)), rest);
      FollowsOuter(pcfg, s, rest, ps[0], ps[1..], e, sub, id);
      ts := [s] + rest;
      assert ps == [ps[0]] + ps[1..];
    } else {
      var us, t, e, f := LiftAcross(cfg, parent, sub, id, ps, s, n);
      var rest := ParentLifts(cfg, parent, sub, id, ps[2..], t, n);
      LiftableFacts(cfg, parent, sub, id, ps[2..], t, n);
      JoinedAcross(cfg, s, Turned(e, id, InlinedStart(sub, id)), us, f.(from := exit), rest, sub, id);
      CrossingRuns(cfg, sub, id, us);
      CrossingIsInner(cfg, parent, sub, id, us);
      hide IsTrail, ByEdgesOnly;
      FollowsAcross(pcfg, s, us, rest, ps[0], ps[1], ps[2..], e, f, sub, id);
      ts := [s] + (us + rest);
      assert ps == [ps[0]] + ([ps[1]] + ps[2..]);
    }
  }

  lemma AlongEdge(cfg: Config, s: RunState, e: GraphEdge, ts: seq<RunState>)
    requires IsTrail(cfg, ts) && ByEdgesOnly(cfg, ts) && Goes(cfg, s, e) && Step(cfg, s).next == ts[0]
    ensures IsTrail(cfg, [s] + ts) && ByEdgesOnly(cfg, [s] + ts)
  {
    hide Step;
    OneMoreStep(cfg, s, ts);
  }

  // A run that goes over a crossing.
  lemma JoinedAcross(cfg: Config, s: RunState, e: GraphEdge, us: seq<RunState>, f: GraphEdge,
                     ts: seq<RunState>, sub: Graph, id: string)
    requires HasBoundary(sub) && Crossing(cfg, sub, id, us) && Goes(cfg, s, e) && Step(cfg, s).next == us[0]
    requires ts != [] && IsTrail(cfg, ts) && ByEdgesOnly(cfg, ts)
    requires Goes(cfg, us[|us| - 1], f) && Step(cfg, us[|us| - 1]).next == ts[0]
    ensures IsTrail(cfg, [s] + (us + ts)) && ByEdgesOnly(cfg, [s] + (us + ts))
  {
    CrossingRuns(cfg, sub, id, us);
    hide Step, Goes, Crossing, IsTrail, ByEdgesOnly;
    Joined(cfg, us, f, ts);
    AlongEdge(cfg, s, e, us + ts);
  }

  lemma CrossingRuns(cfg: Config, sub: Graph, id: string, us: seq<RunState>)
    requires HasBoundary(sub) && Crossing(cfg, sub, id, us)
    ensures us != [] && IsTrail(cfg, us) && ByEdgesOnly(cfg, us)
    ensures forall i :: 0 <= i < |us| ==> Below(id, us[i].current)
  {
  }

  // Two runs along edges, joined by one more edge.
  lemma Joined(cfg: Config, us: seq<RunState>, e: GraphEdge, ts: seq<RunState>)
    requires IsTrail(cfg, us) && ByEdgesOnly(cfg, us) && IsTrail(cfg, ts) && ByEdgesOnly(cfg, ts)
    requires us != [] && ts != [] && Goes(cfg, us[|us| - 1], e) && Step(cfg, us[|us| - 1]).next == ts[0]
    ensures IsTrail(cfg, us + ts) && ByEdgesOnly(cfg, us + ts)
  {
    hide Step;
    var all, n := us + ts, |us|;
    forall i | 0 <= i < |all| - 1
      ensures Step(cfg, all[i]).Goto? && Step(cfg, all[i]).next == all[i + 1] && Step(cfg, all[i]).move.ViaEdge?
    {
      if i < n - 1 {
        assert all[i] == us[i] && all[i + 1] == us[i + 1];
      } else if i == n - 1 {
        assert all[i] == us[n - 1] && all[i + 1] == ts[0];
      } else {
        assert all[i] == ts[i - n] && all[i + 1] == ts[i - n + 1];
      }
    }
  }
}
