// The execution loop: execute a node, record its outcome, and route to the next node.
module Engine {
  import opened Wrappers
  import opened Graphs
  import opened State
  import opened EdgeSelection
  import opened Goals

  // A node execution, with its inner retries, is one application of `handler`.
  datatype Config = Config(
    graph: Graph,
    maxSteps: nat,
    enableCheckpointing: bool,
    autoSave: bool,
    maxIdenticalFailures: Option<nat>,
    lang: Language,
    handler: (GraphNode, Context) -> (Outcome, Context),
    fidelity: Option<(string, string, Context) -> Context>)

  datatype EngineError =
    | NoStartNode
    | MultipleStartNodes(ids: seq<string>)
    | NodeNotFound(nodeId: string)
    | MaxStepsExceeded(maxSteps: nat)
    | EdgeSelectionFailed(selection: SelectionError)
    | GoalEnforcement(goals: GoalError)
    | Cancelled
    | DeterministicFailureCycle(node: string, error: string, count: nat)
    | UnroutableFailure(failed: string, reason: string)

  // Failure signatures and loop counters are keyed by the pairs that the source hashes.
  type Counts = map<(string, string), nat>

  datatype RunState = RunState(
    current: string, steps: nat, visited: seq<string>, outcomes: map<string, Outcome>,
    ctx: Context, failures: Counts, restarts: Counts)

  // How a run got from one executed node to the next.
  datatype Move = ViaEdge(edge: GraphEdge) | ViaGoal(goal: string, target: string) | ViaFailure(target: string)

  datatype Routing = Goto(next: RunState, move: Move) | Finish(final: RunState) | Fail(error: EngineError)

  function Count(c: Counts, k: (string, string)): nat {
    if k in c then c[k] else 0
  }

  function NonEmptyText(attrs: Attrs, key: string): Option<string> {
    if key in attrs && attrs[key].Text? && attrs[key].text != "" then Some(attrs[key].text) else None
  }

  // The four-level fallback chain for retry targets.
  function ResolveRetryTarget(node: GraphNode, g: Graph): Option<string> {
    if NonEmptyText(node.attrs, "retry_target").Some? then NonEmptyText(node.attrs, "retry_target")
    else if NonEmptyText(node.attrs, "fallback_retry_target").Some? then
      NonEmptyText(node.attrs, "fallback_retry_target")
    else if NonEmptyText(g.graphAttrs, "retry_target").Some? then NonEmptyText(g.graphAttrs, "retry_target")
    else NonEmptyText(g.graphAttrs, "fallback_retry_target")
  }

  function GoalsOf(cfg: Config): seq<string> {
    GoalIds(cfg.graph.nodes)
  }

  // ----- One step, as a function -----

  function NextFailures(c: Counts, id: string, o: Outcome): Counts {
    if o.Failure? then c[(id, o.error) := Count(c, (id, o.error)) + 1]
    else if o.IsSuccess() then map k | k in c && k.0 != id :: c[k]
    else c
  }

  predicate Executable(cfg: Config, s: RunState) {
    s.steps < cfg.maxSteps && FindNode(cfg.graph.nodes, s.current).Some?
  }

  function NodeOf(cfg: Config, s: RunState): GraphNode
    requires Executable(cfg, s)
  {
    FindNode(cfg.graph.nodes, s.current).value
  }

  function OutcomeOf(cfg: Config, s: RunState): Outcome
    requires Executable(cfg, s)
  {
    cfg.handler(NodeOf(cfg, s), s.ctx).0
  }

  // The state after the current node has run and its outcome is recorded.
  function Recorded(cfg: Config, s: RunState): RunState
    requires Executable(cfg, s)
  {
    var o := OutcomeOf(cfg, s);
    s.(steps := s.steps + 1,
       visited := MarkVisited(s.visited, s.current),
       outcomes := s.outcomes[s.current := o],
       ctx := cfg.handler(NodeOf(cfg, s), s.ctx).1,
       failures := if cfg.maxIdenticalFailures.Some? then NextFailures(s.failures, s.current, o) else s.failures)
  }

  // The identical-failure limit has been reached by the outcome just recorded.
  predicate InFailureCycle(cfg: Config, t: RunState, o: Outcome) {
    cfg.maxIdenticalFailures.Some? && o.Failure?
    && Count(t.failures, (t.current, o.error)) >= cfg.maxIdenticalFailures.value
  }

  function OutcomeLabelText(o: Outcome): string {
    match o
    case Success(_, _, _, _, _) => "success"
    case PartialSuccess(_, _, _, _, _) => "success"
    case Failure(_, _, _) => "fail"
    case Retry(_, _) => "retry"
    case Skip(_, _) => "skip"
  }

  predicate HasPrefix(s: string, p: string) {
    p <= s
  }

  // The context that an edge carries on.
  function Carried(cfg: Config, c: Context, e: GraphEdge): Context {
    var cleared := if e.loopRestart then map k | k in c && !HasPrefix(k, e.from + "_") :: c[k] else c;
    if cfg.fidelity.Some? then cfg.fidelity.value(e.from, e.to, cleared) else cleared
  }

  // Traversing an edge: restart bookkeeping, then context carry-over.
  function Traverse(cfg: Config, t: RunState, e: GraphEdge): RunState {
    var restarts := if e.loopRestart
                    then t.restarts[(e.from, e.to) := Count(t.restarts, (e.from, e.to)) + 1] else t.restarts;
    t.(current := e.to, ctx := Carried(cfg, t.ctx, e), restarts := restarts)
  }

  // Jump to a retry target, which has to exist.
  function Jump(cfg: Config, t: RunState, target: string, move: Move): Routing {
    if FindNode(cfg.graph.nodes, target).None? then Fail(NodeNotFound(target))
    else Goto(t.(current := target), move)
  }

  function RouteAtExit(cfg: Config, t: RunState): Routing {
    match FirstUnsatisfied(GoalsOf(cfg), t.outcomes)
    case None => Finish(t)
    case Some(u) =>
      var failed := FindNode(cfg.graph.nodes, u.nodeId);
      if failed.Some? && ResolveRetryTarget(failed.value, cfg.graph).Some? then
        var target := ResolveRetryTarget(failed.value, cfg.graph).value;
        Jump(cfg, t, target, ViaGoal(u.nodeId, target))
      else
        CheckAgreesWithEnforce(GoalsOf(cfg), t.outcomes);
        Fail(GoalEnforcement(Enforced(GoalsOf(cfg), t.outcomes).error))
  }

  function WithOutcomeLabel(t: RunState, o: Outcome): RunState {
    t.(ctx := t.ctx["outcome" := JString(OutcomeLabelText(o))])
  }

  function RouteOnward(cfg: Config, node: GraphNode, t: RunState, o: Outcome): Routing {
    var u := WithOutcomeLabel(t, o);
    match Select(cfg.graph, u.current, Query(cfg.lang, u.ctx, Some(o)))
    case Err(e) => Fail(EdgeSelectionFailed(e))
    case Ok(Some(e)) => Goto(Traverse(cfg, u, e), ViaEdge(e))
    case Ok(None) =>
      if !o.Failure? then Finish(u)
      else if ResolveRetryTarget(node, cfg.graph).Some? then
        var target := ResolveRetryTarget(node, cfg.graph).value;
        Jump(cfg, u, target, ViaFailure(target))
      else Fail(UnroutableFailure(u.current, o.error))
  }

  // Everything after the outcome is recorded.
  function Route(cfg: Config, node: GraphNode, t: RunState, o: Outcome): Routing {
    if InFailureCycle(cfg, t, o) then
      Fail(DeterministicFailureCycle(t.current, o.error, Count(t.failures, (t.current, o.error))))
    else if node.nodeType == Exit then RouteAtExit(cfg, t)
    else RouteOnward(cfg, node, t, o)
  }

  function Step(cfg: Config, s: RunState): Routing {
    if s.steps >= cfg.maxSteps then Fail(MaxStepsExceeded(cfg.maxSteps))
    else if FindNode(cfg.graph.nodes, s.current).None? then Fail(NodeNotFound(s.current))
    else Route(cfg, NodeOf(cfg, s), Recorded(cfg, s), OutcomeOf(cfg, s))
  }

  lemma StepAdvances(cfg: Config, s: RunState)
    ensures Step(cfg, s).Goto? ==> Executable(cfg, s) && Step(cfg, s).next.steps == s.steps + 1
    ensures Step(cfg, s).Finish? ==> Executable(cfg, s) && Step(cfg, s).final.steps == s.steps + 1
  {
  }

  // ----- Whole runs, as a function -----

  // `cancelled(k)` is the cancellation flag read before step k.
  function Run(cfg: Config, cancelled: nat -> bool, s: RunState): Result<RunState, EngineError>
    decreases cfg.maxSteps - s.steps
  {
    if cancelled(s.steps) then Err(Cancelled)
    else
      StepAdvances(cfg, s);
      match Step(cfg, s)
      case Fail(e) => Err(e)
      case Goto(t, _) => Run(cfg, cancelled, t)
      case Finish(t) => Concluded(cfg, t)
  }

  lemma RunUnfold(cfg: Config, cancelled: nat -> bool, s: RunState)
    ensures Run(cfg, cancelled, s) ==
            if cancelled(s.steps) then Err(Cancelled)
            else if Step(cfg, s).Fail? then Err(Step(cfg, s).error)
            else if Step(cfg, s).Goto? then Run(cfg, cancelled, Step(cfg, s).next)
            else Concluded(cfg, Step(cfg, s).final)
    ensures Step(cfg, s).Goto? ==> s.steps < cfg.maxSteps && Step(cfg, s).next.steps == s.steps + 1
  {
    StepAdvances(cfg, s);
  }

  // The final goal enforcement.
  function Concluded(cfg: Config, t: RunState): Result<RunState, EngineError> {
    if Enforced(GoalsOf(cfg), t.outcomes).Ok? then Ok(t)
    else Err(GoalEnforcement(Enforced(GoalsOf(cfg), t.outcomes).error))
  }

  function GraphName(cfg: Config): string {
    cfg.graph.name.GetOr("unnamed")
  }

  // The checkpoint written after a node ran: it names that node.
  function AutoSaved(cfg: Config, t: RunState): Checkpoint {
    Checkpoint(GraphName(cfg), t.current, MarkAll([], t.visited), t.ctx, t.outcomes)
  }

  function MarkAll(visited: seq<string>, ids: seq<string>): seq<string>
    decreases |ids|
  {
    if ids == [] then visited else MarkAll(MarkVisited(visited, ids[0]), ids[1..])
  }

  // The checkpoint written by one step, if the step gets that far.
  function SavedBy(cfg: Config, s: RunState): seq<Checkpoint> {
    if !Executable(cfg, s) || InFailureCycle(cfg, Recorded(cfg, s), OutcomeOf(cfg, s)) then []
    else [AutoSaved(cfg, Recorded(cfg, s))]
  }

  // The checkpoints written by a run, in order.
  function AutoSaves(cfg: Config, cancelled: nat -> bool, s: RunState): seq<Checkpoint>
    decreases cfg.maxSteps - s.steps
  {
    if cancelled(s.steps) then []
    else
      StepAdvances(cfg, s);
      SavedBy(cfg, s) + if Step(cfg, s).Goto? then AutoSaves(cfg, cancelled, Step(cfg, s).next) else []
  }

  lemma AutoSavesUnfold(cfg: Config, cancelled: nat -> bool, s: RunState)
    ensures AutoSaves(cfg, cancelled, s) ==
            if cancelled(s.steps) then []
            else if Step(cfg, s).Goto? then SavedBy(cfg, s) + AutoSaves(cfg, cancelled, Step(cfg, s).next)
            else SavedBy(cfg, s)
  {
    assert SavedBy(cfg, s) + [] == SavedBy(cfg, s);
  }

  function Begin(start: string, visited: seq<string>, outcomes: map<string, Outcome>, ctx: Context): RunState {
    RunState(start, 0, visited, outcomes, ctx, map[], map[])
  }

  datatype ExecutionResult = ExecutionResult(
    visitedNodes: seq<string>, nodeOutcomes: map<string, Outcome>, finalContext: Context,
    stepsTaken: nat, checkpoint: Option<Checkpoint>, loopRestarts: Counts)

  function Last(ids: seq<string>): string {
    if ids == [] then "" else ids[|ids| - 1]
  }

  function ResultOf(cfg: Config, t: RunState): ExecutionResult {
    ExecutionResult(t.visited, t.outcomes, t.ctx, t.steps,
      if cfg.enableCheckpointing
      then Some(Checkpoint(GraphName(cfg), Last(t.visited), MarkAll([], t.visited), t.ctx, t.outcomes))
      else None,
      t.restarts)
  }

  function MapResult(cfg: Config, r: Result<RunState, EngineError>): Result<ExecutionResult, EngineError> {
    match r case Ok(t) => Ok(ResultOf(cfg, t)) case Err(e) => Err(e)
  }

  // ----- Imperative form -----

  // Counts the traversals of restart edges.
  class LoopCounter {
    var counts: Counts

    constructor ()
      ensures counts == map[]
    {
      counts := map[];
    }

    method Increment(from: string, to: string)
      modifies this
      ensures counts == old(counts)[(from, to) := Count(old(counts), (from, to)) + 1]
    {
      var key := (from, to);
      if key !in counts { counts := counts[key := 0]; }
      counts := counts[key := counts[key] + 1];
    }
  }

  method BuildCheckpoint(cfg: Config, current: string, visited: seq<string>, ctx: Context,
                         outcomes: map<string, Outcome>) returns (cp: Checkpoint)
    ensures cp == Checkpoint(GraphName(cfg), current, MarkAll([], visited), ctx, outcomes)
  {
    var marked := [];
    for i := 0 to |visited|
      invariant MarkAll([], visited) == MarkAll(marked, visited[i..])
    {
      assert visited[i..][1..] == visited[i + 1..];
      if visited[i] !in marked { marked := marked + [visited[i]]; }
    }
    return Checkpoint(GraphName(cfg), current, marked, ctx, outcomes);
  }

  datatype Control = Continue | Break | Return(error: EngineError)

  // What the body of the loop did, against the routing that it should have followed.
  ghost predicate Obeys(c: Control, s: RunState, routing: Routing) {
    match routing
    case Goto(t, _) => c == Continue && s == t
    case Finish(t) => c == Break && s == t
    case Fail(e) => c == Return(e)
  }

  // One execution of the loop, with the variables that the loop updates.
  class Execution {
    const cfg: Config
    const goalGate: GoalGate
    const loopRestarts: LoopCounter
    var currentNodeId: string
    var steps: nat
    var visitedNodes: seq<string>
    var nodeOutcomes: map<string, Outcome>
    var ctx: Context
    var failureSignatures: Counts
    var saved: seq<Checkpoint>

    function Now(): RunState
      reads this, loopRestarts
    {
      RunState(currentNodeId, steps, visitedNodes, nodeOutcomes, ctx, failureSignatures, loopRestarts.counts)
    }

    ghost predicate Valid() {
      goalGate == GoalGate.FromGraph(cfg.graph)
    }

    constructor (cfg: Config, startNodeId: string, visited: seq<string>, outcomes: map<string, Outcome>,
                 context: Context)
      ensures Valid() && this.cfg == cfg && fresh(loopRestarts) && saved == []
      ensures Now() == Begin(startNodeId, visited, outcomes, context)
    {
      this.cfg, goalGate := cfg, GoalGate.FromGraph(cfg.graph);
      var counter := new LoopCounter();
      loopRestarts := counter;
      currentNodeId, steps, visitedNodes, nodeOutcomes := startNodeId, 0, visited, outcomes;
      ctx, failureSignatures, saved := context, map[], [];
    }

    method RecordOutcome(node: GraphNode) returns (outcome: Outcome)
      requires Executable(cfg, Now()) && node == NodeOf(cfg, Now())
      modifies this
      ensures outcome == OutcomeOf(cfg, old(Now())) && Now() == Recorded(cfg, old(Now()))
      ensures saved == old(saved)
    {
      var (result, newCtx) := cfg.handler(node, ctx);
      outcome, ctx := result, newCtx;
      steps := steps + 1;
      nodeOutcomes := nodeOutcomes[currentNodeId := outcome];
      if currentNodeId !in visitedNodes { visitedNodes := visitedNodes + [currentNodeId]; }
      TrackFailure(outcome);
    }

    method TrackFailure(outcome: Outcome)
      modifies this`failureSignatures
      ensures failureSignatures == if cfg.maxIdenticalFailures.Some?
                                   then NextFailures(old(failureSignatures), currentNodeId, outcome)
                                   else old(failureSignatures)
    {
      if cfg.maxIdenticalFailures.Some? {
        if outcome.Failure? {
          var key := (currentNodeId, outcome.error);
          failureSignatures := failureSignatures[key := Count(failureSignatures, key) + 1];
        } else if outcome.IsSuccess() {
          failureSignatures := map k | k in failureSignatures && k.0 != currentNodeId :: failureSignatures[k];
        }
      }
    }

    method AutoSave()
      modifies this`saved
      ensures saved == old(saved) +
                       if cfg.enableCheckpointing && cfg.autoSave then [AutoSaved(cfg, Now())] else []
    {
      if cfg.enableCheckpointing && cfg.autoSave {
        var cp := BuildCheckpoint(cfg, currentNodeId, visitedNodes, ctx, nodeOutcomes);
        saved := saved + [cp];
      }
    }

    method LeaveExit() returns (c: Control)
      requires Valid()
      modifies this`currentNodeId
      ensures Obeys(c, Now(), RouteAtExit(cfg, old(Now())))
    {
      var check := goalGate.CheckOutcomes(nodeOutcomes);
      if check.Err? {
        var failedNode := FindNode(cfg.graph.nodes, check.error.nodeId);
        if failedNode.Some? {
          var target := ResolveRetryTarget(failedNode.value, cfg.graph);
          if target.Some? {
            if FindNode(cfg.graph.nodes, target.value).None? { return Return(NodeNotFound(target.value)); }
            currentNodeId := target.value;
            return Continue;
          }
        }
        CheckAgreesWithEnforce(goalGate.goals, nodeOutcomes);
        return Return(GoalEnforcement(Enforced(goalGate.goals, nodeOutcomes).error));
      }
      return Break;
    }

    method TraverseEdge(edge: GraphEdge)
      modifies this, loopRestarts
      ensures Now() == Traverse(cfg, old(Now()), edge) && saved == old(saved)
    {
      if edge.loopRestart {
        loopRestarts.Increment(edge.from, edge.to);
        ctx := map k | k in ctx && !HasPrefix(k, edge.from + "_") :: ctx[k];
      }
      if cfg.fidelity.Some? { ctx := cfg.fidelity.value(edge.from, edge.to, ctx); }
      currentNodeId := edge.to;
    }

    method LeaveOnward(node: GraphNode, outcome: Outcome) returns (c: Control)
      requires currentNodeId in nodeOutcomes && nodeOutcomes[currentNodeId] == outcome
      modifies this, loopRestarts
      ensures Obeys(c, Now(), RouteOnward(cfg, node, old(Now()), outcome)) && saved == old(saved)
    {
      ctx := ctx["outcome" := JString(OutcomeLabelText(outcome))];
      assert Now() == WithOutcomeLabel(old(Now()), outcome);
      var selected := SelectEdge(cfg.graph, currentNodeId, ctx, Some(nodeOutcomes[currentNodeId]), cfg.lang);
      if selected.Err? { return Return(EdgeSelectionFailed(selected.error)); }
      if selected.value.Some? {
        TraverseEdge(selected.value.value);
        return Continue;
      }
      if outcome.Failure? {
        var target := ResolveRetryTarget(node, cfg.graph);
        if target.Some? {
          if FindNode(cfg.graph.nodes, target.value).None? { return Return(NodeNotFound(target.value)); }
          currentNodeId := target.value;
          return Continue;
        }
        return Return(UnroutableFailure(currentNodeId, outcome.error));
      }
      return Break;
    }

    // The body of the loop, past the cancellation check.
    method Iteration() returns (c: Control)
      requires Valid()
      modifies this, loopRestarts
      ensures Obeys(c, Now(), Step(cfg, old(Now())))
      ensures saved == old(saved) + if cfg.enableCheckpointing && cfg.autoSave
                                    then SavedBy(cfg, old(Now())) else []
    {
      if steps >= cfg.maxSteps { return Return(MaxStepsExceeded(cfg.maxSteps)); }
      var found := FindNode(cfg.graph.nodes, currentNodeId);
      if found.None? { return Return(NodeNotFound(currentNodeId)); }
      var node := found.value;
      var outcome := RecordOutcome(node);
      if cfg.maxIdenticalFailures.Some? && outcome.Failure? {
        var count := Count(failureSignatures, (currentNodeId, outcome.error));
        if count >= cfg.maxIdenticalFailures.value {
          return Return(DeterministicFailureCycle(currentNodeId, outcome.error, count));
        }
      }
      AutoSave();
      if node.nodeType == Exit {
        c := LeaveExit();
      } else {
        c := LeaveOnward(node, outcome);
      }
    }

    method Loop(cancelled: nat -> bool) returns (r: Result<ExecutionResult, EngineError>)
      requires Valid()
      modifies this, loopRestarts
      ensures r == MapResult(cfg, Run(cfg, cancelled, old(Now())))
      ensures saved == old(saved) + if cfg.enableCheckpointing && cfg.autoSave
                                    then AutoSaves(cfg, cancelled, old(Now())) else []
    {
      hide Run, Step, SavedBy, AutoSaves;
      ghost var saving := cfg.enableCheckpointing && cfg.autoSave;
      while true
        invariant Run(cfg, cancelled, old(Now())) == Run(cfg, cancelled, Now())
        invariant saving ==> old(saved) + AutoSaves(cfg, cancelled, old(Now()))
                             == saved + AutoSaves(cfg, cancelled, Now())
        invariant !saving ==> saved == old(saved)
        decreases cfg.maxSteps - steps
      {
        ghost var s := Now();
        RunUnfold(cfg, cancelled, s);
        AutoSavesUnfold(cfg, cancelled, s);
        if cancelled(steps) { return Err(Cancelled); }
        var c := Iteration();
        match c
        case Return(e) => return Err(e);
        case Break => break;
        case Continue =>
      }
      var enforced := Enforced(goalGate.goals, nodeOutcomes);
      if enforced.Err? { return Err(GoalEnforcement(enforced.error)); }
      var checkpoint := None;
      if cfg.enableCheckpointing {
        var cp := BuildCheckpoint(cfg, Last(visitedNodes), visitedNodes, ctx, nodeOutcomes);
        checkpoint := Some(cp);
      }
      return Ok(ExecutionResult(visitedNodes, nodeOutcomes, ctx, steps, checkpoint, loopRestarts.counts));
    }
  }

  class Engine {
    const cfg: Config

    constructor (cfg: Config)
      ensures this.cfg == cfg
    {
      this.cfg := cfg;
    }

    // Run from the single start node.
    method Execute(context: Context, cancelled: nat -> bool)
      returns (r: Result<ExecutionResult, EngineError>, saved: seq<Checkpoint>)
      ensures |OfType(cfg.graph.nodes, Start)| == 0 ==> r == Err(NoStartNode)
      ensures |OfType(cfg.graph.nodes, Start)| > 1 ==>
                r == Err(MultipleStartNodes(IdsOf(OfType(cfg.graph.nodes, Start))))
      ensures |OfType(cfg.graph.nodes, Start)| == 1 ==>
                r == MapResult(cfg, Run(cfg, cancelled,
                                        Begin(OfType(cfg.graph.nodes, Start)[0].id, [], map[], context)))
      ensures saved == if |OfType(cfg.graph.nodes, Start)| == 1 && cfg.enableCheckpointing && cfg.autoSave
                       then AutoSaves(cfg, cancelled, Begin(OfType(cfg.graph.nodes, Start)[0].id, [], map[], context))
                       else []
    {
      var startNodes := OfType(cfg.graph.nodes, Start);
      if |startNodes| == 0 { return Err(NoStartNode), []; }
      if |startNodes| > 1 { return Err(MultipleStartNodes(IdsOf(startNodes))), []; }
      var execution := new Execution(cfg, startNodes[0].id, [], map[], context);
      r := execution.Loop(cancelled);
      saved := execution.saved;
    }

    method RunFromCheckpoint(checkpoint: Checkpoint, context: Context, cancelled: nat -> bool)
      returns (r: Result<ExecutionResult, EngineError>, saved: seq<Checkpoint>)
      ensures r == MapResult(cfg, Run(cfg, cancelled, Resumed(checkpoint, context)))
      ensures saved == if cfg.enableCheckpointing && cfg.autoSave
                       then AutoSaves(cfg, cancelled, Resumed(checkpoint, context)) else []
    {
      var execution := new Execution(cfg, checkpoint.currentNode, checkpoint.visitedNodes,
                                     checkpoint.nodeOutcomes, context + checkpoint.contextSnapshot);
      r := execution.Loop(cancelled);
      saved := execution.saved;
    }
  }

  // The state from which a checkpoint is resumed: its snapshot is written over the given context.
  function Resumed(checkpoint: Checkpoint, context: Context): RunState {
    Begin(checkpoint.currentNode, checkpoint.visitedNodes, checkpoint.nodeOutcomes,
          context + checkpoint.contextSnapshot)
  }
}
