// What inlining does to goal gates, and completing a composed pipeline.
module InlinedGoals {
  import opened Graphs
  import opened Strings
  import opened State
  import opened Goals
  import opened Composition
  import opened Engine
  import opened EngineRuns
  import opened InlinedRuns
  import opened Crossings
  import opened SubGraphRuns
  import opened HierarchicalRuns

  // ----- The goals of a composed graph -----

  function PrefixedIds(ids: seq<string>, id: string): seq<string> {
    if ids == [] then [] else [PrefixId(id, ids[0])] + PrefixedIds(ids[1..], id)
  }

  lemma {:induction false} GoalIdsAppend(a: seq<GraphNode>, b: seq<GraphNode>)
    ensures GoalIds(a + b) == GoalIds(a) + GoalIds(b)
  {
    if a == [] {
      assert a + b == b;
    } else {
      assert (a + b)[1..] == a[1..] + b;
      GoalIdsAppend(a[1..], b);
    }
  }

  lemma {:induction false} GoalIdsInlined(ns: seq<GraphNode>, id: string)
    ensures GoalIds(InlineNodes(ns, id)) == PrefixedIds(GoalIds(ns), id)
  {
    if ns != [] {
      GoalIdsInlined(ns[1..], id);
      assert InlineNodes(ns, id)[1..] == InlineNodes(ns[1..], id);
      assert ([ns[0].id] + GoalIds(ns[1..]))[1..] == GoalIds(ns[1..]);
    }
  }

  lemma {:induction false} GoalIdsWithout(ns: seq<GraphNode>, id: string)
    ensures forall g :: g in GoalIds(Without(ns, id)) <==> g in GoalIds(ns) && g != id
  {
    if ns != [] {
      GoalIdsWithout(ns[1..], id);
      assert ([ns[0]] + Without(ns[1..], id))[1..] == Without(ns[1..], id);
    }
  }

  lemma {:induction false} PrefixedMembers(ids: seq<string>, id: string)
    ensures forall g :: g in PrefixedIds(ids, id) <==> Below(id, g) && Strip(id, g) in ids
  {
    forall g ensures Below(id, g) ==> PrefixId(id, Strip(id, g)) == g {
      StripPrefixId(id, "", g);
    }
    forall x ensures Below(id, PrefixId(id, x)) && Strip(id, PrefixId(id, x)) == x {
      StripPrefixId(id, x, "");
    }
    if ids != [] { PrefixedMembers(ids[1..], id); }
  }

  // The goals of a composed graph are those of the other parent nodes and the prefixed ones of the
  // sub-graph; a goal flag on the replaced node itself is lost with it.
  lemma GoalsInlined(parent: Graph, sub: Graph, id: string)
    requires HasBoundary(sub)
    ensures GoalIds(Inlined(parent, sub, id).nodes)
            == GoalIds(Without(parent.nodes, id)) + PrefixedIds(GoalIds(sub.nodes), id)
    ensures forall g :: g in GoalIds(Inlined(parent, sub, id).nodes) <==>
              (g != id && g in GoalIds(parent.nodes)) || (Below(id, g) && Strip(id, g) in GoalIds(sub.nodes))
    ensures id !in GoalIds(Inlined(parent, sub, id).nodes)
  {
    GoalIdsAppend(Without(parent.nodes, id), InlineNodes(sub.nodes, id));
    GoalIdsInlined(sub.nodes, id);
    GoalIdsWithout(parent.nodes, id);
    PrefixedMembers(GoalIds(sub.nodes), id);
    assert |id + "."| > |id|;
  }

  // ----- The final goal check -----

  ghost predicate OuterGoalsMet(parent: Graph, id: string, outcomes: map<string, Outcome>) {
    forall g :: g in GoalIds(parent.nodes) && g != id ==> Satisfied(g, outcomes)
  }

  ghost predicate InnerGoalsMet(sub: Graph, id: string, outcomes: map<string, Outcome>) {
    forall g :: g in GoalIds(sub.nodes) ==> Satisfied(PrefixId(id, g), outcomes)
  }

  // The composed pipeline checks the goals of the sub-graph in place of the goal that the replaced
  // node may have been.
  lemma GoalChecks(cfg: Config, parent: Graph, sub: Graph, id: string, s: RunState, b: RunState)
    requires Suited(cfg, parent, sub, id)
    requires Mirrors(s, b, id, InlinedExit(sub, id))
    ensures Enforced(GoalsOf(cfg), s.outcomes).Ok? <==>
            OuterGoalsMet(parent, id, b.outcomes) && InnerGoalsMet(sub, id, s.outcomes)
    ensures Enforced(GoalsOf(Hierarchy(cfg, parent, sub, id)), b.outcomes).Ok? <==>
            OuterGoalsMet(parent, id, b.outcomes)
            && (id in GoalIds(parent.nodes) ==> Satisfied(InlinedExit(sub, id), s.outcomes))
  {
    CheckAgreesWithEnforce(GoalsOf(cfg), s.outcomes);
    CheckAgreesWithEnforce(GoalIds(parent.nodes), b.outcomes);
    GoalsInlined(parent, sub, id);
    forall g | g in GoalIds(parent.nodes)
      ensures !Below(id, g) && (Satisfied(g, b.outcomes) <==> Satisfied(Kept(g, id, InlinedExit(sub, id)), s.outcomes))
    {
      GoalIdsExact(parent.nodes, g);
      assert MirrorsOutcome(s, b, g, Kept(g, id, InlinedExit(sub, id)));
    }
    InnerGoals(cfg, parent, sub, id, s);
  }

  lemma InnerGoals(cfg: Config, parent: Graph, sub: Graph, id: string, s: RunState)
    requires Suited(cfg, parent, sub, id)
    ensures InnerGoalsMet(sub, id, s.outcomes) <==>
            forall g :: g in GoalsOf(cfg) && Below(id, g) ==> Satisfied(g, s.outcomes)
  {
    GoalsInlined(parent, sub, id);
    forall x ensures Below(id, PrefixId(id, x)) && Strip(id, PrefixId(id, x)) == x {
      StripPrefixId(id, x, "");
    }
    forall g ensures Below(id, g) ==> PrefixId(id, Strip(id, g)) == g {
      StripPrefixId(id, "", g);
    }
    forall g | g in GoalIds(parent.nodes) ensures !Below(id, g) {
      GoalIdsExact(parent.nodes, g);
    }
  }

  // ----- Completed runs -----

  // From matching states at an outer node, when the composed run completes so does the parent's,
  // unless the replaced node was a goal that the exit has not met.
  lemma ParentFinishes(cfg: Config, parent: Graph, sub: Graph, id: string, s: RunState, b: RunState)
    requires OuterPair(cfg, parent, sub, id, s, b)
    requires Step(cfg, s).Finish? && Enforced(GoalsOf(cfg), Step(cfg, s).final.outcomes).Ok?
    requires id in GoalIds(parent.nodes) ==> Satisfied(InlinedExit(sub, id), Step(cfg, s).final.outcomes)
    ensures var pcfg := Hierarchy(cfg, parent, sub, id);
            Step(pcfg, b).Finish? && Enforced(GoalsOf(pcfg), Step(pcfg, b).final.outcomes).Ok?
            && Step(pcfg, b).final.ctx == Step(cfg, s).final.ctx
            && Mirrors(Step(cfg, s).final, Step(pcfg, b).final, id, InlinedExit(sub, id))
  {
    StepAdvances(cfg, s);
    SuitedHasBoundary(cfg, parent, sub, id);
    StripPrefixId(id, ExitId(sub), "");
    var pcfg, exit := Hierarchy(cfg, parent, sub, id), InlinedExit(sub, id);
    OuterHandling(cfg, parent, sub, id, s, b);
    var r, p := Recorded(cfg, s), Recorded(pcfg, b);
    hide Step, Recorded, Mirrors, InFailureCycle, Inlined, Crossing, Suited, Satisfied, Enforced;
    hide OuterGoalsMet, InnerGoalsMet;
    RecordedMirrors(cfg, s, pcfg, b, id, exit);
    SameLabel(cfg, s, pcfg, b);
    OuterSelection(cfg, parent, sub, id, s, b);
    FinishIff(cfg, s);
    GoalChecks(cfg, parent, sub, id, r, p);
    CheckAgreesWithEnforce(GoalsOf(pcfg), p.outcomes);
    FinishIff(pcfg, b);
    MirrorsBooks(r, Step(cfg, s).final, p, Step(pcfg, b).final, id, exit);
  }

  // A composed run that completes at an outer node along edges is a completed run of the parent
  // pipeline with the sub-graph for the replaced node, with the same final context and the same
  // outcomes, unless the replaced node was a goal that the exit has not met.
  lemma CompletedRunHasParent(cfg: Config, parent: Graph, sub: Graph, id: string, ts: seq<RunState>, final: RunState,
                              b: RunState)
    returns (ps: seq<RunState>, pfinal: RunState)
    requires Beside(cfg, parent, sub, id, ts, b) && Completed(cfg, ts, final)
    requires HasBoundary(sub)
    requires id in GoalIds(parent.nodes) ==> Satisfied(InlinedExit(sub, id), final.outcomes)
    ensures ps != [] && ps[0] == b && Completed(Hierarchy(cfg, parent, sub, id), ps, pfinal)
    ensures Follows(Hierarchy(cfg, parent, sub, id), ts, ps, sub, id)
    ensures AllSubRuns(cfg, sub, id, ps)
    ensures pfinal.ctx == final.ctx && Mirrors(final, pfinal, id, InlinedExit(sub, id))
  {
    ps := ParentFollows(cfg, parent, sub, id, ts, b);
    BesideOuter(cfg, parent, sub, id, ts, b);
    var pcfg, s, c := Hierarchy(cfg, parent, sub, id), ts[|ts| - 1], ps[|ps| - 1];
    StepAdvances(cfg, s);
    hide Step, Mirrors, Suited, Enforced, IsTrail, ByEdgesOnly, Beside;
    assert OuterPair(cfg, parent, sub, id, s, c);
    ParentFinishes(cfg, parent, sub, id, s, c);
    pfinal := Step(pcfg, c).final;
  }
}
