// Every run is a legal walk with faithful bookkeeping.
module EngineRuns {
  import opened Wrappers
  import opened Graphs
  import opened State
  import opened EdgeSelection
  import opened Goals
  import opened Engine

  // The states at the head of the loop, one step apart.
  ghost predicate IsTrail(cfg: Config, ts: seq<RunState>) {
    ts != [] && forall i :: 0 <= i < |ts| - 1 ==> Step(cfg, ts[i]).Goto? && Step(cfg, ts[i]).next == ts[i + 1]
  }

  datatype NodeRun = NodeRun(node: string, outcome: Outcome)

  // The node executions of the first k steps of a trail.
  ghost predicate AllExecutable(cfg: Config, ts: seq<RunState>) {
    forall i :: 0 <= i < |ts| ==> Executable(cfg, ts[i])
  }

  ghost function Executions(cfg: Config, ts: seq<RunState>): (r: seq<NodeRun>)
    requires AllExecutable(cfg, ts)
    ensures |r| == |ts|
  {
    seq(|ts|, i requires 0 <= i < |ts| => NodeRun(ts[i].current, OutcomeOf(cfg, ts[i])))
  }

  // Whole runs: the trail of a run that ends well, and its final state.
  ghost predicate Completed(cfg: Config, ts: seq<RunState>, final: RunState) {
    IsTrail(cfg, ts) && Step(cfg, ts[|ts| - 1]).Finish? && Step(cfg, ts[|ts| - 1]).final == final
    && Enforced(GoalsOf(cfg), final.outcomes).Ok?
  }

  lemma TrailExecutable(cfg: Config, ts: seq<RunState>)
    requires IsTrail(cfg, ts) && Executable(cfg, ts[|ts| - 1])
    ensures AllExecutable(cfg, ts)
  {
    forall i | 0 <= i < |ts| ensures Executable(cfg, ts[i]) {
      StepAdvances(cfg, ts[i]);
    }
  }

  lemma {:induction false} RunHasTrail(cfg: Config, cancelled: nat -> bool, s: RunState) returns (ts: seq<RunState>)
    requires Run(cfg, cancelled, s).Ok?
    ensures ts != [] && ts[0] == s && Completed(cfg, ts, Run(cfg, cancelled, s).value)
    decreases cfg.maxSteps - s.steps
  {
    hide Run, Step;
    RunUnfold(cfg, cancelled, s);
    if Step(cfg, s).Goto? {
      var rest := RunHasTrail(cfg, cancelled, Step(cfg, s).next);
      ts := [s] + rest;
    } else {
      ts := [s];
    }
  }

  lemma {:induction false} TrailSteps(cfg: Config, ts: seq<RunState>, i: nat)
    requires IsTrail(cfg, ts) && i < |ts|
    ensures ts[i].steps == ts[0].steps + i
  {
    hide Step;
    if i > 0 {
      TrailSteps(cfg, ts, i - 1);
      StepAdvances(cfg, ts[i - 1]);
    }
  }

  // A run executes at most max_steps nodes.
  lemma StepsBounded(cfg: Config, ts: seq<RunState>)
    requires IsTrail(cfg, ts) && ts[0].steps == 0
    ensures |ts| - 1 <= cfg.maxSteps
    ensures forall final :: Completed(cfg, ts, final) ==> final.steps == |ts| <= cfg.maxSteps
  {
    TrailSteps(cfg, ts, |ts| - 1);
    if |ts| > 1 { StepAdvances(cfg, ts[|ts| - 2]); }
    StepAdvances(cfg, ts[|ts| - 1]);
  }

  // ----- Legal moves -----

  // The edge selection made after a node ran.
  ghost function SelectionAt(cfg: Config, s: RunState): Result<Option<GraphEdge>, SelectionError>
    requires Executable(cfg, s)
  {
    var o := OutcomeOf(cfg, s);
    Select(cfg.graph, s.current, Query(cfg.lang, WithOutcomeLabel(Recorded(cfg, s), o).ctx, Some(o)))
  }

  ghost predicate ByEdge(cfg: Config, s: RunState, t: RunState, e: GraphEdge)
    requires Executable(cfg, s)
  {
    NodeOf(cfg, s).nodeType != Exit && SelectionAt(cfg, s) == Ok(Some(e))
    && e in cfg.graph.edges && e.from == s.current && e.to == t.current
  }

  ghost predicate ByGoal(cfg: Config, s: RunState, t: RunState, goal: string)
    requires Executable(cfg, s)
  {
    NodeOf(cfg, s).nodeType == Exit && goal in GoalsOf(cfg) && !Satisfied(goal, t.outcomes)
    && FindNode(cfg.graph.nodes, goal).Some?
    && ResolveRetryTarget(FindNode(cfg.graph.nodes, goal).value, cfg.graph) == Some(t.current)
    && FindNode(cfg.graph.nodes, t.current).Some?
  }

  ghost predicate ByFailure(cfg: Config, s: RunState, t: RunState)
    requires Executable(cfg, s)
  {
    NodeOf(cfg, s).nodeType != Exit && OutcomeOf(cfg, s).Failure?
    && SelectionAt(cfg, s) == Ok(None)
    && ResolveRetryTarget(NodeOf(cfg, s), cfg.graph) == Some(t.current)
    && FindNode(cfg.graph.nodes, t.current).Some?
  }

  lemma {:induction false} FirstUnsatisfiedMember(goals: seq<string>, outcomes: map<string, Outcome>)
    ensures FirstUnsatisfied(goals, outcomes).Some? ==>
              FirstUnsatisfied(goals, outcomes).value.nodeId in goals
              && !Satisfied(FirstUnsatisfied(goals, outcomes).value.nodeId, outcomes)
  {
    if goals != [] { FirstUnsatisfiedMember(goals[1..], outcomes); }
  }

  lemma SelectedEdgeLeaves(g: Graph, id: string, q: Query)
    ensures Select(g, id, q).Ok? && Select(g, id, q).value.Some? ==>
              Select(g, id, q).value.value in g.edges && Select(g, id, q).value.value.from == id
  {
    EdgesFromMembers(g.edges, id);
    SelectRefinesTiers(EdgesFrom(g.edges, id), q);
  }

  // Consecutive executed nodes are joined by the selected edge of the graph, by the retry target
  // of an unsatisfied goal at an exit node, or by a failed node's retry target when no edge was
  // selected.
  lemma MovesAreLegal(cfg: Config, s: RunState)
    requires Step(cfg, s).Goto?
    ensures Executable(cfg, s)
    ensures var t := Step(cfg, s).next;
            match Step(cfg, s).move
            case ViaEdge(e) => ByEdge(cfg, s, t, e)
            case ViaGoal(goal, _) => ByGoal(cfg, s, t, goal)
            case ViaFailure(_) => ByFailure(cfg, s, t)
  {
    StepAdvances(cfg, s);
    var r, o := Recorded(cfg, s), OutcomeOf(cfg, s);
    if NodeOf(cfg, s).nodeType == Exit {
      FirstUnsatisfiedMember(GoalsOf(cfg), r.outcomes);
    } else {
      SelectedEdgeLeaves(cfg.graph, s.current, Query(cfg.lang, WithOutcomeLabel(r, o).ctx, Some(o)));
    }
  }

  // ----- Bookkeeping -----

  // The nodes in order of their first execution.
  function FirstVisits(es: seq<NodeRun>): seq<string> {
    if es == [] then [] else MarkVisited(FirstVisits(es[..|es| - 1]), es[|es| - 1].node)
  }

  // The outcome of the last execution of a node.
  function LastOutcome(es: seq<NodeRun>, id: string): Option<Outcome> {
    if es == [] then None
    else if es[|es| - 1].node == id then Some(es[|es| - 1].outcome)
    else LastOutcome(es[..|es| - 1], id)
  }

  ghost predicate Faithful(s: RunState, es: seq<NodeRun>) {
    s.visited == FirstVisits(es)
    && (forall id :: id in s.visited <==> id in s.outcomes)
    && (forall id :: LastOutcome(es, id) == if id in s.outcomes then Some(s.outcomes[id]) else None)
  }

  // Routing leaves the bookkeeping alone.
  lemma RoutingKeepsBooks(cfg: Config, s: RunState)
    requires Executable(cfg, s)
    ensures Step(cfg, s).Goto? ==>
              Step(cfg, s).next.visited == Recorded(cfg, s).visited
              && Step(cfg, s).next.outcomes == Recorded(cfg, s).outcomes
              && Step(cfg, s).next.failures == Recorded(cfg, s).failures
    ensures Step(cfg, s).Finish? ==>
              Step(cfg, s).final.visited == Recorded(cfg, s).visited
              && Step(cfg, s).final.outcomes == Recorded(cfg, s).outcomes
  {
    hide Recorded, Select, FirstUnsatisfied, Enforced, ResolveRetryTarget, InFailureCycle;
  }

  lemma FinishKeepsRestarts(cfg: Config, s: RunState)
    requires Step(cfg, s).Finish?
    ensures Step(cfg, s).final.restarts == s.restarts
  {
    hide Select, FirstUnsatisfied, Enforced, ResolveRetryTarget, InFailureCycle, NextFailures;
  }

  lemma RecordingIsFaithful(cfg: Config, s: RunState, es: seq<NodeRun>)
    requires Executable(cfg, s) && Faithful(s, es)
    ensures Faithful(Recorded(cfg, s), es + [NodeRun(s.current, OutcomeOf(cfg, s))])
  {
    var fs := es + [NodeRun(s.current, OutcomeOf(cfg, s))];
    assert fs[..|fs| - 1] == es;
  }

  lemma FreshIsFaithful(start: string, ctx: Context)
    ensures Faithful(Begin(start, [], map[], ctx), [])
  {
  }

  lemma {:induction false} TrailIsFaithful(cfg: Config, ts: seq<RunState>, start: string, ctx: Context)
    requires IsTrail(cfg, ts) && AllExecutable(cfg, ts) && ts[0] == Begin(start, [], map[], ctx)
    ensures Faithful(Recorded(cfg, ts[|ts| - 1]), Executions(cfg, ts))
    decreases |ts|
  {
    hide Step, Recorded, FirstVisits, LastOutcome;
    var k := |ts| - 1;
    if k == 0 {
      FreshIsFaithful(start, ctx);
      RecordingIsFaithful(cfg, ts[0], []);
      assert Executions(cfg, ts) == [] + [NodeRun(ts[0].current, OutcomeOf(cfg, ts[0]))];
    } else {
      TrailIsFaithful(cfg, ts[..k], start, ctx);
      RoutingKeepsBooks(cfg, ts[k - 1]);
      assert Faithful(ts[k], Executions(cfg, ts[..k]));
      RecordingIsFaithful(cfg, ts[k], Executions(cfg, ts[..k]));
      assert Executions(cfg, ts) == Executions(cfg, ts[..k]) + [NodeRun(ts[k].current, OutcomeOf(cfg, ts[k]))];
    }
  }

  // From an empty start, a completed run has visited exactly the executed nodes in order of first
  // execution, holds the last outcome of each, and every goal's last execution succeeded.
  lemma CompletedRunIsFaithful(cfg: Config, ts: seq<RunState>, start: string, ctx: Context, final: RunState)
    requires Completed(cfg, ts, final) && ts[0] == Begin(start, [], map[], ctx)
    ensures AllExecutable(cfg, ts) && Faithful(final, Executions(cfg, ts))
    ensures forall goal :: goal in GoalsOf(cfg) ==>
              LastOutcome(Executions(cfg, ts), goal).Some? && LastOutcome(Executions(cfg, ts), goal).value.IsSuccess()
  {
    StepAdvances(cfg, ts[|ts| - 1]);
    TrailExecutable(cfg, ts);
    TrailIsFaithful(cfg, ts, start, ctx);
    RoutingKeepsBooks(cfg, ts[|ts| - 1]);
    CheckAgreesWithEnforce(GoalsOf(cfg), final.outcomes);
    forall goal | goal in GoalsOf(cfg)
      ensures LastOutcome(Executions(cfg, ts), goal).Some? && LastOutcome(Executions(cfg, ts), goal).value.IsSuccess()
    {
      assert Satisfied(goal, final.outcomes);
    }
  }

  // ----- Restart counting -----

  ghost function Total(c: Counts): nat {
    if c == map[] then 0
    else
      var k :| k in c;
      c[k] + Total(c - {k})
  }

  lemma {:induction false} TotalSplit(c: Counts, k: (string, string))
    requires k in c
    ensures Total(c) == c[k] + Total(c - {k})
    decreases |c|
  {
    var j :| j in c && Total(c) == c[j] + Total(c - {j});
    if j != k {
      TotalSplit(c - {j}, k);
      TotalSplit(c - {k}, j);
      assert c - {j} - {k} == c - {k} - {j};
    }
  }

  lemma TotalIncrement(c: Counts, k: (string, string))
    ensures Total(c[k := Count(c, k) + 1]) == Total(c) + 1
  {
    var d := c[k := Count(c, k) + 1];
    TotalSplit(d, k);
    assert d - {k} == c - {k};
    if k in c {
      TotalSplit(c, k);
    } else {
      assert c - {k} == c;
    }
  }

  // The restart edges taken along a trail.
  ghost function RestartsTaken(cfg: Config, ts: seq<RunState>): nat
    requires IsTrail(cfg, ts)
    decreases |ts|
  {
    if |ts| == 1 then 0
    else
      var k := |ts| - 1;
      RestartsTaken(cfg, ts[..k]) +
      (if Step(cfg, ts[k - 1]).move.ViaEdge? && Step(cfg, ts[k - 1]).move.edge.loopRestart then 1 else 0)
  }

  lemma {:induction false} RestartsCounted(cfg: Config, ts: seq<RunState>)
    requires IsTrail(cfg, ts)
    ensures Total(ts[|ts| - 1].restarts) == Total(ts[0].restarts) + RestartsTaken(cfg, ts)
    decreases |ts|
  {
    hide Step, Total;
    if |ts| > 1 {
      var k := |ts| - 1;
      RestartsCounted(cfg, ts[..k]);
      RestartStep(cfg, ts[k - 1]);
    }
  }

  lemma RestartStep(cfg: Config, s: RunState)
    requires Step(cfg, s).Goto?
    ensures Total(Step(cfg, s).next.restarts) == Total(s.restarts) +
            if Step(cfg, s).move.ViaEdge? && Step(cfg, s).move.edge.loopRestart then 1 else 0
  {
    hide Select, Total, NextFailures, FirstUnsatisfied, Enforced, ResolveRetryTarget, InFailureCycle;
    StepAdvances(cfg, s);
    if Step(cfg, s).move.ViaEdge? && Step(cfg, s).move.edge.loopRestart {
      var e := Step(cfg, s).move.edge;
      TotalIncrement(s.restarts, (e.from, e.to));
    }
  }

  // The restarts taken along one edge.
  ghost function RestartsOf(cfg: Config, ts: seq<RunState>, k: (string, string)): nat
    requires IsTrail(cfg, ts)
    decreases |ts|
  {
    if |ts| == 1 then 0
    else
      var m := Step(cfg, ts[|ts| - 2]).move;
      RestartsOf(cfg, ts[..|ts| - 1], k) +
      (if m.ViaEdge? && m.edge.loopRestart && (m.edge.from, m.edge.to) == k then 1 else 0)
  }

  lemma {:induction false} RestartsCountedPerEdge(cfg: Config, ts: seq<RunState>, k: (string, string))
    requires IsTrail(cfg, ts)
    ensures Count(ts[|ts| - 1].restarts, k) == Count(ts[0].restarts, k) + RestartsOf(cfg, ts, k)
    decreases |ts|
  {
    hide Step, Count;
    if |ts| > 1 {
      RestartsCountedPerEdge(cfg, ts[..|ts| - 1], k);
      RestartStepPerEdge(cfg, ts[|ts| - 2], k);
    }
  }

  lemma RestartStepPerEdge(cfg: Config, s: RunState, k: (string, string))
    requires Step(cfg, s).Goto?
    ensures var m := Step(cfg, s).move;
            Count(Step(cfg, s).next.restarts, k) == Count(s.restarts, k) +
            if m.ViaEdge? && m.edge.loopRestart && (m.edge.from, m.edge.to) == k then 1 else 0
  {
    hide Select, NextFailures, FirstUnsatisfied, Enforced, ResolveRetryTarget, InFailureCycle;
    StepAdvances(cfg, s);
  }

  // The counter in the result of a completed run from a fresh start: in total and for each edge it
  // is the number of restart edges taken.
  lemma ResultCountsRestarts(cfg: Config, ts: seq<RunState>, start: string, ctx: Context, final: RunState)
    requires Completed(cfg, ts, final) && ts[0] == Begin(start, [], map[], ctx)
    ensures Total(ResultOf(cfg, final).loopRestarts) == RestartsTaken(cfg, ts)
    ensures forall k :: Count(ResultOf(cfg, final).loopRestarts, k) == RestartsOf(cfg, ts, k)
  {
    hide Step, Recorded;
    var s := ts[|ts| - 1];
    FinishKeepsRestarts(cfg, s);
    RestartsCounted(cfg, ts);
    forall k ensures Count(ResultOf(cfg, final).loopRestarts, k) == RestartsOf(cfg, ts, k) {
      RestartsCountedPerEdge(cfg, ts, k);
    }
  }

  // ----- Steps along edges -----

  // The edge along which a step goes, if it does.
  ghost predicate Goes(cfg: Config, s: RunState, e: GraphEdge) {
    Step(cfg, s).Goto? && Step(cfg, s).move == ViaEdge(e)
  }

  // The context after a node ran and its outcome was labelled.
  ghost function Labelled(cfg: Config, s: RunState): Context
    requires Executable(cfg, s)
  {
    WithOutcomeLabel(Recorded(cfg, s), OutcomeOf(cfg, s)).ctx
  }

  // A step goes along an edge exactly when the edge is selected, away from an exit and short of the
  // failure limit.
  lemma GoesIff(cfg: Config, s: RunState, e: GraphEdge)
    requires Executable(cfg, s)
    ensures Goes(cfg, s, e) <==>
            NodeOf(cfg, s).nodeType != Exit && !InFailureCycle(cfg, Recorded(cfg, s), OutcomeOf(cfg, s))
            && SelectionAt(cfg, s) == Ok(Some(e))
  {
    hide Select, InFailureCycle, ResolveRetryTarget, FirstUnsatisfied, Enforced, NextFailures, Carried;
  }

  // Where it leads, and with what.
  lemma GoesTo(cfg: Config, s: RunState, e: GraphEdge)
    requires Goes(cfg, s, e)
    ensures Step(cfg, s).Goto? && Executable(cfg, s) && e in cfg.graph.edges && e.from == s.current
    ensures var t := Step(cfg, s).next;
            t.current == e.to && t.steps == s.steps + 1 && t.ctx == Carried(cfg, Labelled(cfg, s), e)
            && t.outcomes == Recorded(cfg, s).outcomes && t.failures == Recorded(cfg, s).failures
  {
    MovesAreLegal(cfg, s);
    StepAdvances(cfg, s);
    RoutingKeepsBooks(cfg, s);
    hide Select, InFailureCycle, ResolveRetryTarget, FirstUnsatisfied, Enforced, NextFailures, Carried;
  }

  // How a step finishes the run.
  lemma FinishIff(cfg: Config, s: RunState)
    requires Executable(cfg, s)
    ensures Step(cfg, s).Finish? <==>
            !InFailureCycle(cfg, Recorded(cfg, s), OutcomeOf(cfg, s))
            && if NodeOf(cfg, s).nodeType == Exit then FirstUnsatisfied(GoalsOf(cfg), Recorded(cfg, s).outcomes).None?
               else SelectionAt(cfg, s) == Ok(None) && !OutcomeOf(cfg, s).Failure?
    ensures Step(cfg, s).Finish? ==>
              Step(cfg, s).final.outcomes == Recorded(cfg, s).outcomes
              && Step(cfg, s).final.failures == Recorded(cfg, s).failures
              && Step(cfg, s).final.ctx
                 == (if NodeOf(cfg, s).nodeType == Exit then Recorded(cfg, s).ctx else Labelled(cfg, s))
  {
    hide Select, InFailureCycle, ResolveRetryTarget, NextFailures, FirstUnsatisfied;
  }

  // At an exit, short of the failure limit.
  lemma LeavesExit(cfg: Config, s: RunState)
    requires Executable(cfg, s) && NodeOf(cfg, s).nodeType == Exit && OutcomeOf(cfg, s).IsSuccess()
    ensures Step(cfg, s) == RouteAtExit(cfg, Recorded(cfg, s))
  {
    hide RouteAtExit, RouteOnward, Recorded;
  }
}
