// The checkpoint returned with the result: which node it names.
module FinalCheckpoints {
  import opened Wrappers
  import opened Graphs
  import opened State
  import opened EdgeSelection
  import opened Goals
  import opened Engine
  import opened EngineRuns

  // Execution i is the first one of its node.
  ghost predicate FirstTime(es: seq<NodeRun>, i: int)
    requires 0 <= i < |es|
  {
    forall h :: 0 <= h < i ==> es[h].node != es[i].node
  }

  // The visited list ends with the node that was last executed for the first time.
  lemma {:induction false} LastFirstVisit(es: seq<NodeRun>) returns (k: nat)
    requires es != []
    ensures k < |es| && FirstTime(es, k) && Last(FirstVisits(es)) == es[k].node
    ensures forall i :: k < i < |es| ==> !FirstTime(es, i)
    decreases |es|
  {
    var n := |es| - 1;
    VisitedMembers(es[..n]);
    if FirstTime(es, n) {
      assert es[n].node !in FirstVisits(es[..n]);
      k := n;
    } else {
      var h :| 0 <= h < n && es[h].node == es[n].node;
      assert es[..n][h].node == es[n].node;
      k := LastFirstVisit(es[..n]);
      forall i | 0 <= i < n ensures FirstTime(es, i) <==> FirstTime(es[..n], i) {
        FirstTimePrefix(es, n, i);
      }
    }
  }

  lemma FirstTimePrefix(es: seq<NodeRun>, n: nat, i: nat)
    requires i < n <= |es|
    ensures FirstTime(es, i) <==> FirstTime(es[..n], i)
  {
    assert forall h :: 0 <= h < n ==> es[..n][h] == es[h];
    if FirstTime(es[..n], i) {
      forall h | 0 <= h < i ensures es[h].node != es[i].node {
        assert es[..n][h].node != es[..n][i].node;
      }
    }
  }

  lemma {:induction false} VisitedMembers(es: seq<NodeRun>)
    ensures forall i :: 0 <= i < |es| ==> es[i].node in FirstVisits(es)
    ensures forall id :: id in FirstVisits(es) ==> exists i :: 0 <= i < |es| && es[i].node == id
    decreases |es|
  {
    if es != [] {
      var n := |es| - 1;
      VisitedMembers(es[..n]);
      forall i | 0 <= i < |es| ensures es[i].node in FirstVisits(es) {
        if i < n { assert es[..n][i].node in FirstVisits(es[..n]); }
      }
      forall id | id in FirstVisits(es) ensures exists i :: 0 <= i < |es| && es[i].node == id {
        if id in FirstVisits(es[..n]) {
          var i :| 0 <= i < n && es[..n][i].node == id;
          assert es[i].node == id;
        }
      }
    }
  }

  // No node ran for the first time after the node `id` first did.
  ghost predicate NothingNewAfter(es: seq<NodeRun>, id: string) {
    forall j, i :: 0 <= j < i < |es| && es[j].node == id ==> !FirstTime(es, i)
  }

  lemma {:induction false} FirstExecution(es: seq<NodeRun>, n: nat) returns (j: nat)
    requires n < |es|
    ensures j <= n && es[j].node == es[n].node && FirstTime(es, j)
    decreases n
  {
    j := n;
    if !FirstTime(es, n) {
      var h :| 0 <= h < n && es[h].node == es[n].node;
      j := FirstExecution(es, h);
    }
  }

  lemma LastVisitedIffNothingNew(es: seq<NodeRun>)
    requires es != []
    ensures Last(FirstVisits(es)) == es[|es| - 1].node <==> NothingNewAfter(es, es[|es| - 1].node)
  {
    hide FirstTime, FirstVisits;
    var last := es[|es| - 1].node;
    var k := LastFirstVisit(es);
    var j := FirstExecution(es, |es| - 1);
    if es[k].node == last {
      forall h, i | 0 <= h < i < |es| && es[h].node == last ensures !FirstTime(es, i) {
        NotBefore(es, k, h);
      }
    }
  }

  lemma NotBefore(es: seq<NodeRun>, k: nat, h: nat)
    requires k < |es| && h < |es| && FirstTime(es, k) && es[h].node == es[k].node
    ensures k <= h
  {
  }

  // The checkpoint returned by a completed run names the node executed last exactly when no node
  // ran for the first time after that one first did.
  lemma FinalCheckpointNamesLastIff(cfg: Config, ts: seq<RunState>, start: string, ctx: Context, final: RunState)
    requires Completed(cfg, ts, final) && ts[0] == Begin(start, [], map[], ctx) && cfg.enableCheckpointing
    ensures AllExecutable(cfg, ts)
    ensures var last := ts[|ts| - 1].current;
            ResultOf(cfg, final).checkpoint.value.currentNode == last
            <==> NothingNewAfter(Executions(cfg, ts), last)
  {
    CompletedRunIsFaithful(cfg, ts, start, ctx, final);
    LastVisitedIffNothingNew(Executions(cfg, ts));
  }

  // ----- A pipeline that goes back -----

  const S := GraphNode("s", Start, None, map[])
  const X := GraphNode("x", Exit, None, map[])
  const G := GraphNode("g", Generic, None, map["goal_gate" := Flag(true), "retry_target" := Text("g")])
  const DIRECT := GraphEdge("s", "x", None, None, None, false, map[])
  const BACK := GraphEdge("g", "x", None, None, None, false, map[])

  // The way from the start to the exit leaves out a goal, which is its own retry target. The
  // condition language, the context processing and what successful handlers do are arbitrary.
  ghost predicate LeavesOutGoal(cfg: Config) {
    cfg.graph.nodes == [S, X, G] && cfg.graph.edges == [DIRECT, BACK]
    && cfg.enableCheckpointing && cfg.maxSteps >= 4
    && forall n, c :: cfg.handler(n, c).0.IsSuccess()
  }

  lemma OneCandidate(e: GraphEdge, q: Query)
    requires !HasExplicitCondition(e)
    ensures SelectAmong([e], q) == Ok(Some(e))
  {
    assert [e][1..] == [];
    forall t ensures Tiered(t, [e], q) == if InTier(t, e, q) then [e] else [] {
    }
    assert Best([e]) == Some(e);
  }

  lemma Candidates()
    ensures EdgesFrom([DIRECT, BACK], "s") == [DIRECT] && EdgesFrom([DIRECT, BACK], "g") == [BACK]
  {
    assert [DIRECT, BACK] == [DIRECT] + [BACK];
    EdgesFromAppend([DIRECT], [BACK], "s");
    EdgesFromAppend([DIRECT], [BACK], "g");
    EdgesFromOne(DIRECT, "s");
    EdgesFromOne(DIRECT, "g");
    EdgesFromOne(BACK, "s");
    EdgesFromOne(BACK, "g");
  }

  lemma EdgesFromOne(e: GraphEdge, id: string)
    ensures EdgesFrom([e], id) == if e.from == id then [e] else []
  {
    assert [e][1..] == [];
  }

  lemma NodesFound()
    ensures FindNode([S, X, G], "s") == Some(S) && FindNode([S, X, G], "x") == Some(X)
    ensures FindNode([S, X, G], "g") == Some(G) && GoalIds([S, X, G]) == ["g"]
  {
    assert [S, X, G][1..] == [X, G] && [X, G][1..] == [G] && [G][1..] == [];
    assert IsGoalNode(G) && !IsGoalNode(X) && !IsGoalNode(S);
    OneGoal(G, []);
    OneGoal(X, [G]);
    OneGoal(S, [X, G]);
    assert [G] + [] == [G] && [X] + [G] == [X, G] && [S] + [X, G] == [S, X, G];
    assert FindNode([G], "g") == Some(G) && FindNode([X, G], "g") == Some(G) && FindNode([X, G], "x") == Some(X);
  }

  lemma OneGoal(n: GraphNode, ns: seq<GraphNode>)
    ensures GoalIds([n] + ns) == (if IsGoalNode(n) then [n.id] else []) + GoalIds(ns)
  {
    assert ([n] + ns)[1..] == ns;
  }

  // The outcomes after a node has run.
  ghost predicate RanWell(s: RunState, t: RunState) {
    t.steps == s.steps + 1 && t.visited == MarkVisited(s.visited, s.current)
    && t.outcomes.Keys == s.outcomes.Keys + {s.current} && t.outcomes[s.current].IsSuccess()
    && forall v :: v in s.outcomes && v != s.current ==> t.outcomes[v] == s.outcomes[v]
  }

  // From the start and from the goal the way leads to the exit.
  lemma ToTheExit(cfg: Config, s: RunState)
    requires LeavesOutGoal(cfg) && s.steps < cfg.maxSteps && s.current in ["s", "g"]
    ensures Step(cfg, s).Goto? && Step(cfg, s).next.current == "x" && RanWell(s, Step(cfg, s).next)
  {
    RunsWell(cfg, s);
    Candidates();
    var e := if s.current == "s" then DIRECT else BACK;
    var q := Query(cfg.lang, Labelled(cfg, s), Some(OutcomeOf(cfg, s)));
    OneCandidate(e, q);
    hide SelectAmong, Recorded, Step;
    assert SelectionAt(cfg, s) == Ok(Some(e));
    GoesIff(cfg, s, e);
    RoutingKeepsBooks(cfg, s);
    GoesTo(cfg, s, e);
  }

  lemma RunsWell(cfg: Config, s: RunState)
    requires LeavesOutGoal(cfg) && s.steps < cfg.maxSteps && s.current in ["s", "x", "g"]
    ensures Executable(cfg, s) && RanWell(s, Recorded(cfg, s)) && OutcomeOf(cfg, s).IsSuccess()
    ensures NodeOf(cfg, s) == if s.current == "s" then S else if s.current == "x" then X else G
  {
    NodesFound();
  }

  lemma OnlyGoal(cfg: Config)
    requires LeavesOutGoal(cfg)
    ensures GoalsOf(cfg) == ["g"] && FindNode(cfg.graph.nodes, "g") == Some(G)
    ensures ResolveRetryTarget(G, cfg.graph) == Some("g")
  {
    NodesFound();
  }

  // At the exit the run ends when the goal is met.
  lemma EndsAtExit(cfg: Config, s: RunState)
    requires LeavesOutGoal(cfg) && s.steps < cfg.maxSteps && s.current == "x" && Satisfied("g", s.outcomes)
    ensures Step(cfg, s).Finish? && RanWell(s, Step(cfg, s).final)
    ensures Enforced(GoalsOf(cfg), Step(cfg, s).final.outcomes).Ok?
  {
    RunsWell(cfg, s);
    LeavesExit(cfg, s);
    OnlyGoal(cfg);
    var t := Recorded(cfg, s);
    hide Step, Recorded, LeavesOutGoal, Executable, NodeOf, OutcomeOf, Enforced, GoalsOf;
    assert ["g"][1..] == [] && Satisfied("g", t.outcomes);
    CheckAgreesWithEnforce(["g"], t.outcomes);
  }

  // And turns to the goal when it has not run.
  lemma TurnsBack(cfg: Config, s: RunState)
    requires LeavesOutGoal(cfg) && s.steps < cfg.maxSteps && s.current == "x" && "g" !in s.outcomes
    ensures Step(cfg, s).Goto? && Step(cfg, s).next.current == "g" && RanWell(s, Step(cfg, s).next)
  {
    RunsWell(cfg, s);
    LeavesExit(cfg, s);
    OnlyGoal(cfg);
    var t := Recorded(cfg, s);
    hide Step, Recorded, LeavesOutGoal, Executable, NodeOf, OutcomeOf, Enforced, GoalsOf, ResolveRetryTarget;
    assert !Satisfied("g", t.outcomes);
  }

  // The run executes the start, the exit, the goal and the exit again, and returns a checkpoint
  // that names the goal.
  lemma FinalCheckpointMisnames(cfg: Config, ctx: Context) returns (ts: seq<RunState>, final: RunState)
    requires LeavesOutGoal(cfg)
    ensures Completed(cfg, ts, final) && ts[0] == Begin("s", [], map[], ctx)
    ensures |ts| == 4 && ts[1].current == "x" && ts[2].current == "g" && ts[3].current == "x"
    ensures ResultOf(cfg, final).checkpoint.value.currentNode == "g"
  {
    hide Step, Enforced;
    var s0 := Begin("s", [], map[], ctx);
    ToTheExit(cfg, s0);
    var s1 := Step(cfg, s0).next;
    TurnsBack(cfg, s1);
    var s2 := Step(cfg, s1).next;
    ToTheExit(cfg, s2);
    var s3 := Step(cfg, s2).next;
    EndsAtExit(cfg, s3);
    final := Step(cfg, s3).final;
    ts := [s0, s1, s2, s3];
    assert final.visited == ["s", "x", "g"];
  }
}
