// Running a composed pipeline: what inlining means for executions.
module InlinedRuns {
  import opened Wrappers
  import opened Graphs
  import opened Strings
  import opened EdgeSelection
  import opened Composition
  import opened CompositionWalks
  import opened CompositionSelection
  import opened Engine
  import opened EngineRuns

  function NodesOf(ts: seq<RunState>): (r: seq<string>)
    ensures |r| == |ts|
  {
    seq(|ts|, i requires 0 <= i < |ts| => ts[i].current)
  }

  // No retry jump is taken.
  ghost predicate ByEdgesOnly(cfg: Config, ts: seq<RunState>)
    requires IsTrail(cfg, ts)
  {
    forall i :: 0 <= i < |ts| - 1 ==> Step(cfg, ts[i]).move.ViaEdge?
  }

  lemma TrailIsWalk(cfg: Config, ts: seq<RunState>)
    requires IsTrail(cfg, ts) && ByEdgesOnly(cfg, ts)
    ensures IsWalk(cfg.graph, NodesOf(ts))
  {
    hide Step;
    var w := NodesOf(ts);
    forall i | 0 <= i < |w| - 1 ensures Link(cfg.graph, w[i], w[i + 1]) {
      MovesAreLegal(cfg, ts[i]);
    }
  }

  // A run of the composed pipeline between outer nodes, along edges only, is a parent walk in
  // which every stay in the sub-graph enters at its start and leaves at its exit.
  lemma InlinedRunIsHierarchical(cfg: Config, ts: seq<RunState>, parent: Graph, sub: Graph, id: string)
    requires Inlinable(parent, sub, id) && cfg.graph == Inlined(parent, sub, id)
    requires IsTrail(cfg, ts) && ByEdgesOnly(cfg, ts)
    requires GoodVisit(sub, id, Outer(ts[0].current)) && GoodVisit(sub, id, Outer(ts[|ts| - 1].current))
    ensures var vs := Group(NodesOf(ts), sub, id);
            Hierarchical(parent, sub, id, vs) && Flatten(vs, id) == NodesOf(ts)
  {
    TrailIsWalk(cfg, ts);
    InlinedSplices(parent, sub, id);
    WalksProject(cfg.graph, parent, sub, id, NodesOf(ts));
  }

  // At an outer node, a composed run moves where the parent pipeline would have moved from the
  // same context and outcome, entering the sub-graph for the replaced node; where the parent selects
  // no edge it ends, or goes on from a failure as the node's own retry target says.
  lemma InlinedRunFollowsParent(cfg: Config, s: RunState, parent: Graph, sub: Graph, id: string)
    requires HasBoundary(sub) && cfg.graph == Inlined(parent, sub, id)
    requires Executable(cfg, s) && NodeOf(cfg, s).nodeType != Exit && s.current != id && !Below(id, s.current)
    requires !InFailureCycle(cfg, Recorded(cfg, s), OutcomeOf(cfg, s))
    requires AllUndisturbed(EdgesFrom(parent.edges, s.current), id, StartId(sub))
    requires var o := OutcomeOf(cfg, s); o.Suggests(id) <==> o.Suggests(PrefixId(id, StartId(sub)))
    ensures var o := OutcomeOf(cfg, s);
            var chosen := Select(parent, s.current,
                                 Query(cfg.lang, WithOutcomeLabel(Recorded(cfg, s), o).ctx, Some(o)));
            (chosen.Err? <==> Step(cfg, s).Fail? && Step(cfg, s).error.EdgeSelectionFailed?)
            && (chosen.Ok? && chosen.value.Some? ==>
                  Step(cfg, s).Goto?
                  && Step(cfg, s).next.current ==
                     if chosen.value.value.to == id then PrefixId(id, StartId(sub)) else chosen.value.value.to)
            && (chosen == Ok(None) ==>
                  (Step(cfg, s).Finish? <==> !o.Failure?)
                  && (Step(cfg, s).Goto? ==>
                        ResolveRetryTarget(NodeOf(cfg, s), cfg.graph) == Some(Step(cfg, s).next.current))
                  && (o.Failure? && ResolveRetryTarget(NodeOf(cfg, s), cfg.graph).None? ==>
                        Step(cfg, s) == Fail(UnroutableFailure(s.current, o.error))))
  {
    var o := OutcomeOf(cfg, s);
    var q := Query(cfg.lang, WithOutcomeLabel(Recorded(cfg, s), o).ctx, Some(o));
    SelectAtOuterNode(parent, sub, id, s.current, q);
    hide Select, Inlined, AllUndisturbed, NextFailures;
    assert Recorded(cfg, s).current == s.current;
    assert Select(cfg.graph, s.current, q) == SelectionAt(cfg, s);
  }

  // Retry targets are copied without prefixing: a dot-free target never names an inlined node,
  // and exists after inlining exactly when another node of the parent bears it.
  lemma RetryTargetsLeaveTheSubGraph(cfg: Config, t: RunState, m: Move, parent: Graph, sub: Graph, id: string,
                                     target: string)
    requires HasBoundary(sub) && cfg.graph == Inlined(parent, sub, id) && DotFree(target)
    ensures Jump(cfg, t, target, m).Goto? <==> target != id && exists n :: n in parent.nodes && n.id == target
    ensures Jump(cfg, t, target, m).Fail? ==> Jump(cfg, t, target, m).error == NodeNotFound(target)
  {
    WithoutMembers(parent.nodes, id);
    forall i | 0 <= i < |sub.nodes| ensures InlineNodes(sub.nodes, id)[i].id != target {
      assert PrefixId(id, sub.nodes[i].id)[|id|] == '.';
    }
    assert forall n :: n in cfg.graph.nodes <==> n in Without(parent.nodes, id) || n in InlineNodes(sub.nodes, id);
  }
}
