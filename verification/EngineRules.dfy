// What the execution loop means for contexts, retry targets, results and errors.
module EngineRules {
  import opened Wrappers
  import opened Graphs
  import opened State
  import opened EdgeSelection
  import opened EdgeRules
  import opened Goals
  import opened Engine
  import opened EngineRuns
  import opened Resume

  // ----- What conditions see of the outcome -----

  // The context tells the kind of an outcome.
  ghost predicate TellsOutcome(c: Context, o: Outcome) {
    "outcome" in c
    && (c["outcome"] == JString("success") <==> o.Success? || o.PartialSuccess?)
    && (c["outcome"] == JString("fail") <==> o.Failure?)
    && (c["outcome"] == JString("retry") <==> o.Retry?)
    && (c["outcome"] == JString("skip") <==> o.Skip?)
  }

  lemma LabelTellsOutcome(cfg: Config, s: RunState)
    requires Executable(cfg, s)
    ensures TellsOutcome(Labelled(cfg, s), OutcomeOf(cfg, s))
    ensures forall k :: k != "outcome" ==>
              (k in Labelled(cfg, s) <==> k in Recorded(cfg, s).ctx)
              && (k in Recorded(cfg, s).ctx ==> Labelled(cfg, s)[k] == Recorded(cfg, s).ctx[k])
  {
  }

  // Along every edge, a restart edge too, the context goes on telling it.
  lemma EdgeTellsOutcome(cfg: Config, s: RunState, e: GraphEdge)
    requires Goes(cfg, s, e) && cfg.fidelity.None?
    ensures Executable(cfg, s) && TellsOutcome(Step(cfg, s).next.ctx, OutcomeOf(cfg, s))
  {
    GoesTo(cfg, s, e);
    LabelTellsOutcome(cfg, s);
    RestartClears(cfg, Labelled(cfg, s), e);
    hide Step, Goes, Recorded;
    if e.from + "_" <= "outcome" {
      assert (e.from + "_")[|e.from|] == '_' == "outcome"[|e.from|];
    }
  }

  // And so does the final context of a run that ends away from an exit.
  lemma EndTellsOutcome(cfg: Config, s: RunState)
    requires Step(cfg, s).Finish? && Executable(cfg, s) && NodeOf(cfg, s).nodeType != Exit
    ensures TellsOutcome(Step(cfg, s).final.ctx, OutcomeOf(cfg, s))
  {
    LabelTellsOutcome(cfg, s);
    FinishIff(cfg, s);
  }

  // A condition language in which a word is compared with what the context tells of the outcome.
  ghost predicate ComparesOutcome(lang: Language, condition: string, word: string) {
    lang.parses(condition)
    && forall c: Context {:trigger lang.holds(condition, c)} ::
         lang.holds(condition, c) <==> "outcome" in c && c["outcome"] == JString(word)
  }

  // A node with one edge for success and one for failure is left along the one for its outcome.
  lemma OutcomeTakesItsEdge(cfg: Config, s: RunState, yes: GraphEdge, no: GraphEdge)
    requires Executable(cfg, s) && NodeOf(cfg, s).nodeType != Exit
    requires !InFailureCycle(cfg, Recorded(cfg, s), OutcomeOf(cfg, s))
    requires EdgesFrom(cfg.graph.edges, s.current) == [yes, no]
    requires yes.caption.None? && yes.condition.Some? && ComparesOutcome(cfg.lang, yes.condition.value, "success")
    requires no.caption.None? && no.condition.Some? && ComparesOutcome(cfg.lang, no.condition.value, "fail")
    ensures OutcomeOf(cfg, s).Success? || OutcomeOf(cfg, s).PartialSuccess? ==> Goes(cfg, s, yes)
    ensures OutcomeOf(cfg, s).Failure? ==> Goes(cfg, s, no)
  {
    LabelTellsOutcome(cfg, s);
    var o := OutcomeOf(cfg, s);
    var q := Query(cfg.lang, Labelled(cfg, s), Some(o));
    GoesIff(cfg, s, yes);
    GoesIff(cfg, s, no);
    assert SelectionAt(cfg, s) == SelectAmong([yes, no], q);
    hide Step, Recorded, Goes, InFailureCycle, SelectAmong;
    if o.Success? || o.PartialSuccess? { ConditionsDecide([yes, no], q, yes); }
    if o.Failure? { ConditionsDecide([yes, no], q, no); }
  }

  // ----- What an edge carries on -----

  // A restart edge clears exactly the entries named after the node that it leaves; every other edge
  // clears nothing.
  lemma RestartClears(cfg: Config, c: Context, e: GraphEdge)
    requires cfg.fidelity.None?
    ensures forall k :: k in Carried(cfg, c, e) <==> k in c && !(e.loopRestart && e.from + "_" <= k)
    ensures forall k :: k in Carried(cfg, c, e) ==> Carried(cfg, c, e)[k] == c[k]
  {
  }

  // Context-fidelity processing comes after that, with the two ends of the edge.
  lemma FidelityComesLast(cfg: Config, c: Context, e: GraphEdge)
    requires cfg.fidelity.Some?
    ensures Carried(cfg, c, e) == cfg.fidelity.value(e.from, e.to, Carried(cfg.(fidelity := None), c, e))
  {
  }

  // ----- Retry targets -----

  // The places where a retry target is looked for, in order.
  function Places(node: GraphNode, g: Graph): seq<(Attrs, string)> {
    [(node.attrs, "retry_target"), (node.attrs, "fallback_retry_target"),
     (g.graphAttrs, "retry_target"), (g.graphAttrs, "fallback_retry_target")]
  }

  predicate Holds(place: (Attrs, string), t: string) {
    place.1 in place.0 && place.0[place.1] == Text(t) && t != ""
  }

  // The target is the first non-empty text.
  lemma RetryTargetOrder(node: GraphNode, g: Graph, t: string)
    ensures ResolveRetryTarget(node, g) == Some(t) <==>
            exists i :: 0 <= i < 4 && Holds(Places(node, g)[i], t)
                        && forall j, u :: 0 <= j < i ==> !Holds(Places(node, g)[j], u)
  {
    var ps := Places(node, g);
    forall i | 0 <= i < 4
      ensures NonEmptyText(ps[i].0, ps[i].1) == Some(t) <==> Holds(ps[i], t)
      ensures NonEmptyText(ps[i].0, ps[i].1).None? <==> forall u :: !Holds(ps[i], u)
    {
      if NonEmptyText(ps[i].0, ps[i].1).Some? { assert Holds(ps[i], NonEmptyText(ps[i].0, ps[i].1).value); }
    }
    assert ps[0] == (node.attrs, "retry_target") && ps[1] == (node.attrs, "fallback_retry_target");
    assert ps[2] == (g.graphAttrs, "retry_target") && ps[3] == (g.graphAttrs, "fallback_retry_target");
    if ResolveRetryTarget(node, g) == Some(t) {
      var i := if NonEmptyText(ps[0].0, ps[0].1).Some? then 0 else if NonEmptyText(ps[1].0, ps[1].1).Some? then 1
               else if NonEmptyText(ps[2].0, ps[2].1).Some? then 2 else 3;
      assert Holds(ps[i], t);
    }
  }

  // ----- How a run fails -----

  // The limits and lookups of a step, and the errors at an exit and at a dead end.
  lemma FailuresOfAStep(cfg: Config, s: RunState)
    ensures s.steps >= cfg.maxSteps ==> Step(cfg, s) == Fail(MaxStepsExceeded(cfg.maxSteps))
    ensures s.steps < cfg.maxSteps && (forall n :: n in cfg.graph.nodes ==> n.id != s.current) ==>
              Step(cfg, s) == Fail(NodeNotFound(s.current))
    ensures Step(cfg, s).Fail? && Step(cfg, s).error.MaxStepsExceeded? ==> s.steps >= cfg.maxSteps
    ensures Executable(cfg, s) && !InFailureCycle(cfg, Recorded(cfg, s), OutcomeOf(cfg, s))
            && NodeOf(cfg, s).nodeType != Exit && SelectionAt(cfg, s) == Ok(None) && OutcomeOf(cfg, s).Failure?
            && ResolveRetryTarget(NodeOf(cfg, s), cfg.graph).None? ==>
              Step(cfg, s) == Fail(UnroutableFailure(s.current, OutcomeOf(cfg, s).error))
    ensures Executable(cfg, s) && !InFailureCycle(cfg, Recorded(cfg, s), OutcomeOf(cfg, s))
            && NodeOf(cfg, s).nodeType != Exit && SelectionAt(cfg, s).Err? ==>
              Step(cfg, s) == Fail(EdgeSelectionFailed(SelectionAt(cfg, s).error))
  {
    hide Select, InFailureCycle, ResolveRetryTarget, FirstUnsatisfied, Enforced, NextFailures, Carried;
  }

  // An exit whose first unsatisfied goal has no retry target reports all unsatisfied goals; a retry
  // target has to name a node.
  lemma FailuresAtExit(cfg: Config, s: RunState, u: UnsatisfiedGoal)
    requires Executable(cfg, s) && !InFailureCycle(cfg, Recorded(cfg, s), OutcomeOf(cfg, s))
    requires NodeOf(cfg, s).nodeType == Exit
    requires FirstUnsatisfied(GoalsOf(cfg), Recorded(cfg, s).outcomes) == Some(u)
    requires FindNode(cfg.graph.nodes, u.nodeId).Some?
    ensures var target := ResolveRetryTarget(FindNode(cfg.graph.nodes, u.nodeId).value, cfg.graph);
            (target.None? ==>
               Step(cfg, s) == Fail(GoalEnforcement(GoalsNotMet(
                 |Unsatisfied(GoalsOf(cfg), Recorded(cfg, s).outcomes)|,
                 Unsatisfied(GoalsOf(cfg), Recorded(cfg, s).outcomes)))))
            && (target.Some? && FindNode(cfg.graph.nodes, target.value).None? ==>
                  Step(cfg, s) == Fail(NodeNotFound(target.value)))
            && (target.Some? && FindNode(cfg.graph.nodes, target.value).Some? ==>
                  Step(cfg, s).Goto? && Step(cfg, s).next == Recorded(cfg, s).(current := target.value))
  {
    CheckAgreesWithEnforce(GoalsOf(cfg), Recorded(cfg, s).outcomes);
    hide Select, InFailureCycle, ResolveRetryTarget, FirstUnsatisfied, NextFailures, Carried;
  }

  // A step saves its checkpoint exactly when its node has run and is not caught in a failure cycle,
  // even if the step then fails for another reason.
  lemma SavedUnlessAborted(cfg: Config, s: RunState)
    ensures SavedBy(cfg, s) == [] <==>
            !Executable(cfg, s) || (Step(cfg, s).Fail? && Step(cfg, s).error.DeterministicFailureCycle?)
    ensures SavedBy(cfg, s) != [] ==> Executable(cfg, s) && SavedBy(cfg, s) == [AutoSaved(cfg, Recorded(cfg, s))]
  {
    hide Select, Recorded, Enforced, ResolveRetryTarget, FirstUnsatisfied, AutoSaved;
  }

  // A cancelled run ends before its next node.
  lemma CancelledAtOnce(cfg: Config, cancelled: nat -> bool, s: RunState)
    requires cancelled(s.steps)
    ensures Run(cfg, cancelled, s) == Err(Cancelled) && AutoSaves(cfg, cancelled, s) == []
  {
  }

  // ----- The result -----

  // The context in which a node leaves a run that ends with it.
  ghost function LeftBehind(cfg: Config, s: RunState): Context
    requires Executable(cfg, s)
  {
    var c := cfg.handler(NodeOf(cfg, s), s.ctx).1;
    if NodeOf(cfg, s).nodeType == Exit then c else Labelled(cfg, s)
  }

  // The result of a completed run from a fresh start: the nodes in order of their first execution, the
  // outcome of the last execution of each, the number of executions, the last context, and a
  // checkpoint of all this when checkpointing is on.
  lemma ResultIsFaithful(cfg: Config, ts: seq<RunState>, start: string, ctx: Context, final: RunState)
    requires Completed(cfg, ts, final) && ts[0] == Begin(start, [], map[], ctx)
    ensures AllExecutable(cfg, ts)
    ensures var r := ResultOf(cfg, final);
            r.visitedNodes == FirstVisits(Executions(cfg, ts)) && r.stepsTaken == |ts|
            && (forall id :: LastOutcome(Executions(cfg, ts), id)
                             == if id in r.nodeOutcomes then Some(r.nodeOutcomes[id]) else None)
            && r.finalContext == LeftBehind(cfg, ts[|ts| - 1])
            && (r.checkpoint.Some? <==> cfg.enableCheckpointing)
            && (r.checkpoint.Some? ==>
                  r.checkpoint.value.contextSnapshot == r.finalContext
                  && r.checkpoint.value.nodeOutcomes == r.nodeOutcomes
                  && r.checkpoint.value.visitedNodes == r.visitedNodes
                  && r.visitedNodes != [] && r.checkpoint.value.currentNode == r.visitedNodes[|r.visitedNodes| - 1]
                  && r.checkpoint.value.pipelineName ==
                     (if cfg.graph.name.Some? then cfg.graph.name.value else "unnamed"))
  {
    CompletedRunIsFaithful(cfg, ts, start, ctx, final);
    StepsBounded(cfg, ts);
    FinishIff(cfg, ts[|ts| - 1]);
    VisitedInCheckpoint(cfg, ts, final);
    hide Step, FirstVisits, LastOutcome, MarkAll;
  }

  // The visited list goes into the checkpoint as it is.
  lemma VisitedInCheckpoint(cfg: Config, ts: seq<RunState>, final: RunState)
    requires Completed(cfg, ts, final) && ts[0].visited == []
    ensures final.visited != [] && MarkAll([], final.visited) == final.visited
  {
    VisitedNoDuplicates(cfg, ts);
    StepAdvances(cfg, ts[|ts| - 1]);
    RecordedVisited(cfg, ts[|ts| - 1]);
    RoutingKeepsBooks(cfg, ts[|ts| - 1]);
    hide Step, Recorded;
    MarkAllAgain([], final.visited);
    assert [] + final.visited == final.visited;
  }

  // A run that has come to its end succeeds if and only if every goal has succeeded, and otherwise
  // reports all goals that have not.
  lemma EndEnforcesGoals(cfg: Config, cancelled: nat -> bool, s: RunState)
    requires !cancelled(s.steps) && Step(cfg, s).Finish?
    ensures var t := Step(cfg, s).final;
            Run(cfg, cancelled, s) ==
            if forall g :: g in GoalsOf(cfg) ==> Succeeded(g, t.outcomes) then Ok(t)
            else Err(GoalEnforcement(GoalsNotMet(|Unsatisfied(GoalsOf(cfg), t.outcomes)|,
                                                 Unsatisfied(GoalsOf(cfg), t.outcomes))))
  {
    RunUnfold(cfg, cancelled, s);
    CheckAgreesWithEnforce(GoalsOf(cfg), Step(cfg, s).final.outcomes);
    hide Step, Run;
  }

  // A saved checkpoint holds the state after the node that it names.
  lemma SavedIsFaithful(cfg: Config, s: RunState)
    requires Executable(cfg, s)
    ensures var cp := AutoSaved(cfg, Recorded(cfg, s));
            cp.currentNode == s.current && cp.contextSnapshot == cfg.handler(NodeOf(cfg, s), s.ctx).1
            && cp.nodeOutcomes == s.outcomes[s.current := cfg.handler(NodeOf(cfg, s), s.ctx).0]
            && cp.pipelineName == (if cfg.graph.name.Some? then cfg.graph.name.value else "unnamed")
  {
  }
}
