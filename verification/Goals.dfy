// Goal gates: nodes that must have succeeded before a pipeline may complete.
module Goals {
  import opened Wrappers
  import opened Filters
  import opened Graphs
  import opened State

  datatype Reason = NonSuccessOutcome | NotVisited

  datatype UnsatisfiedGoal = UnsatisfiedGoal(nodeId: string, reason: Reason)

  // The source renders the unmet goals, with their reasons, as one comma-separated text.
  datatype GoalError = GoalsNotMet(unmetCount: nat, unmetGoals: seq<UnsatisfiedGoal>)

  datatype GoalStatus = GoalStatus(total: nat, met: seq<string>, unmet: seq<string>)

  predicate IsGoalNode(n: GraphNode) {
    if "goal_gate" in n.attrs then n.attrs["goal_gate"] == Flag(true)
    else "goal" in n.attrs && n.attrs["goal"] == Flag(true)
  }

  function GoalIds(ns: seq<GraphNode>): seq<string> {
    if ns == [] then []
    else if IsGoalNode(ns[0]) then [ns[0].id] + GoalIds(ns[1..])
    else GoalIds(ns[1..])
  }

  predicate Satisfied(goal: string, outcomes: map<string, Outcome>) {
    goal in outcomes && outcomes[goal].IsSuccess()
  }

  function Verdict(goal: string, outcomes: map<string, Outcome>): UnsatisfiedGoal {
    UnsatisfiedGoal(goal, if goal in outcomes then NonSuccessOutcome else NotVisited)
  }

  // All unsatisfied goals, in goal order.
  function Unsatisfied(goals: seq<string>, outcomes: map<string, Outcome>): seq<UnsatisfiedGoal> {
    if goals == [] then []
    else if Satisfied(goals[0], outcomes) then Unsatisfied(goals[1..], outcomes)
    else [Verdict(goals[0], outcomes)] + Unsatisfied(goals[1..], outcomes)
  }

  // The first unsatisfied goal.
  function FirstUnsatisfied(goals: seq<string>, outcomes: map<string, Outcome>): Option<UnsatisfiedGoal> {
    if goals == [] then None
    else if Satisfied(goals[0], outcomes) then FirstUnsatisfied(goals[1..], outcomes)
    else Some(Verdict(goals[0], outcomes))
  }

  function Enforced(goals: seq<string>, outcomes: map<string, Outcome>): Result<(), GoalError> {
    var unsatisfied := Unsatisfied(goals, outcomes);
    if unsatisfied == [] then Ok(()) else Err(GoalsNotMet(|unsatisfied|, unsatisfied))
  }

  // The exit check and the final enforcement never disagree: they fail together, and the goal
  // that decides the retry is the first one reported.
  lemma {:induction false} CheckAgreesWithEnforce(goals: seq<string>, outcomes: map<string, Outcome>)
    ensures FirstUnsatisfied(goals, outcomes).Some? <==> Enforced(goals, outcomes).Err?
    ensures FirstUnsatisfied(goals, outcomes).Some? ==>
              Enforced(goals, outcomes).error.unmetGoals[0] == FirstUnsatisfied(goals, outcomes).value
    ensures Enforced(goals, outcomes).Ok? <==> forall g :: g in goals ==> Satisfied(g, outcomes)
  {
    if goals != [] {
      assert goals == [goals[0]] + goals[1..];
      CheckAgreesWithEnforce(goals[1..], outcomes);
    }
  }

  // The report lists exactly the goals without a successful outcome, with the right reason.
  lemma {:induction false} ReportIsExact(goals: seq<string>, outcomes: map<string, Outcome>, u: UnsatisfiedGoal)
    ensures u in Unsatisfied(goals, outcomes) <==>
            (u.nodeId in goals && !Satisfied(u.nodeId, outcomes)
             && (u.reason == NotVisited <==> u.nodeId !in outcomes))
  {
    if goals != [] {
      assert goals == [goals[0]] + goals[1..];
      ReportIsExact(goals[1..], outcomes, u);
    }
  }

  lemma {:induction false} GoalIdsExact(ns: seq<GraphNode>, id: string)
    ensures id in GoalIds(ns) <==> exists n :: n in ns && n.id == id && IsGoalNode(n)
  {
    if ns != [] {
      assert ns == [ns[0]] + ns[1..];
      GoalIdsExact(ns[1..], id);
    }
  }

  // A goal node carries `goal_gate=true`, or `goal=true` and no `goal_gate` at all.
  ghost predicate Flagged(n: GraphNode) {
    ("goal_gate" in n.attrs && n.attrs["goal_gate"] == Flag(true))
    || ("goal_gate" !in n.attrs && "goal" in n.attrs && n.attrs["goal"] == Flag(true))
  }

  function IdsOf(ns: seq<GraphNode>): (ids: seq<string>)
    ensures |ids| == |ns| && forall i :: 0 <= i < |ns| ==> ids[i] == ns[i].id
  {
    seq(|ns|, i requires 0 <= i < |ns| => ns[i].id)
  }

  // The goals are the identifiers of exactly these nodes, each once and in order.
  lemma GoalPositions(ns: seq<GraphNode>) returns (at: seq<nat>)
    ensures Picks(IdsOf(ns), GoalIds(ns), at)
    ensures forall i :: 0 <= i < |ns| ==> (i in at <==> Flagged(ns[i]))
  {
    var p := (n: GraphNode) => IsGoalNode(n);
    at := FilterPositions(ns, p);
    GoalIdsFilter(ns, p);
    assert forall i :: 0 <= i < |ns| ==> (p(ns[i]) <==> Flagged(ns[i]));
  }

  lemma IdsCons(n: GraphNode, ns: seq<GraphNode>)
    ensures IdsOf([n] + ns) == [n.id] + IdsOf(ns)
  {
  }

  lemma {:induction false} GoalIdsFilter(ns: seq<GraphNode>, p: GraphNode -> bool)
    requires forall n :: p(n) <==> IsGoalNode(n)
    ensures GoalIds(ns) == IdsOf(Filter(ns, p))
  {
    if ns != [] {
      GoalIdsFilter(ns[1..], p);
      IdsCons(ns[0], Filter(ns[1..], p));
      hide IdsOf, IsGoalNode;
    }
  }

  ghost predicate Succeeded(goal: string, outcomes: map<string, Outcome>) {
    goal in outcomes && (outcomes[goal].Success? || outcomes[goal].PartialSuccess?)
  }

  // The report names the goals without success, each once and in the order of the goals.
  lemma ReportPositions(goals: seq<string>, outcomes: map<string, Outcome>) returns (at: seq<nat>)
    ensures Picks(goals, Named(Unsatisfied(goals, outcomes)), at)
    ensures forall i :: 0 <= i < |goals| ==> (i in at <==> !Succeeded(goals[i], outcomes))
  {
    var p := (g: string) => !Satisfied(g, outcomes);
    at := FilterPositions(goals, p);
    UnsatisfiedFilter(goals, outcomes, p);
    assert forall i :: 0 <= i < |goals| ==> (p(goals[i]) <==> !Succeeded(goals[i], outcomes));
  }

  function Named(us: seq<UnsatisfiedGoal>): (ids: seq<string>)
    ensures |ids| == |us| && forall i :: 0 <= i < |us| ==> ids[i] == us[i].nodeId
  {
    seq(|us|, i requires 0 <= i < |us| => us[i].nodeId)
  }

  lemma NamedCons(u: UnsatisfiedGoal, us: seq<UnsatisfiedGoal>)
    ensures Named([u] + us) == [u.nodeId] + Named(us)
  {
  }

  lemma {:induction false} UnsatisfiedFilter(goals: seq<string>, outcomes: map<string, Outcome>, p: string -> bool)
    requires forall g :: p(g) <==> !Satisfied(g, outcomes)
    ensures Named(Unsatisfied(goals, outcomes)) == Filter(goals, p)
  {
    if goals != [] {
      var g, rest := goals[0], Unsatisfied(goals[1..], outcomes);
      UnsatisfiedFilter(goals[1..], outcomes, p);
      NamedCons(Verdict(g, outcomes), rest);
      hide Named, Satisfied, Verdict;
      assert Unsatisfied(goals, outcomes) == if p(g) then [Verdict(g, outcomes)] + rest else rest;
      assert Filter(goals, p) == (if p(g) then [g] else []) + Filter(goals[1..], p);
      assert [] + Filter(goals[1..], p) == Filter(goals[1..], p);
    }
  }

  function SelectVisited(goals: seq<string>, visited: seq<string>, wanted: bool): seq<string> {
    if goals == [] then []
    else if (goals[0] in visited) == wanted then [goals[0]] + SelectVisited(goals[1..], visited, wanted)
    else SelectVisited(goals[1..], visited, wanted)
  }

  lemma {:induction false} SelectVisitedSnoc(goals: seq<string>, g: string, visited: seq<string>, wanted: bool)
    ensures SelectVisited(goals + [g], visited, wanted) ==
            SelectVisited(goals, visited, wanted) + if (g in visited) == wanted then [g] else []
  {
    if goals == [] {
      assert goals + [g] == [g];
    } else {
      assert (goals + [g])[1..] == goals[1..] + [g];
      SelectVisitedSnoc(goals[1..], g, visited, wanted);
    }
  }

  lemma {:induction false} SelectVisitedPartitions(goals: seq<string>, visited: seq<string>)
    ensures multiset(SelectVisited(goals, visited, true)) + multiset(SelectVisited(goals, visited, false))
            == multiset(goals)
    ensures forall g :: g in SelectVisited(goals, visited, true) ==> g in visited
    ensures forall g :: g in SelectVisited(goals, visited, false) ==> g !in visited
  {
    if goals != [] {
      assert goals == [goals[0]] + goals[1..];
      SelectVisitedPartitions(goals[1..], visited);
    }
  }

  datatype GoalGate = GoalGate(goals: seq<string>)
  {
    static function FromGraph(g: Graph): GoalGate {
      GoalGate(GoalIds(g.nodes))
    }

    // Every goal ends up, in order, in exactly one of the two lists.
    method Check(visited: seq<string>) returns (s: GoalStatus)
      ensures s.total == |goals| && multiset(s.met) + multiset(s.unmet) == multiset(goals)
      ensures forall g :: g in s.met ==> g in visited
      ensures forall g :: g in s.unmet ==> g !in visited
      ensures s.met == SelectVisited(goals, visited, true) && s.unmet == SelectVisited(goals, visited, false)
    {
      var met, unmet := [], [];
      for i := 0 to |goals|
        invariant met == SelectVisited(goals[..i], visited, true)
        invariant unmet == SelectVisited(goals[..i], visited, false)
      {
        assert goals[..i + 1] == goals[..i] + [goals[i]];
        SelectVisitedSnoc(goals[..i], goals[i], visited, true);
        SelectVisitedSnoc(goals[..i], goals[i], visited, false);
        if goals[i] in visited { met := met + [goals[i]]; } else { unmet := unmet + [goals[i]]; }
      }
      assert goals[..|goals|] == goals;
      SelectVisitedPartitions(goals, visited);
      return GoalStatus(|goals|, met, unmet);
    }

    method CheckOutcomes(outcomes: map<string, Outcome>) returns (r: Result<(), UnsatisfiedGoal>)
      ensures r.Ok? <==> forall g :: g in goals ==> Satisfied(g, outcomes)
      ensures r == match FirstUnsatisfied(goals, outcomes) case None => Ok(()) case Some(u) => Err(u)
    {
      for i := 0 to |goals|
        invariant forall k :: 0 <= k < i ==> Satisfied(goals[k], outcomes)
        invariant FirstUnsatisfied(goals, outcomes) == FirstUnsatisfied(goals[i..], outcomes)
      {
        assert goals[i..][1..] == goals[i + 1..];
        if goals[i] !in outcomes { return Err(UnsatisfiedGoal(goals[i], NotVisited)); }
        if !outcomes[goals[i]].IsSuccess() { return Err(UnsatisfiedGoal(goals[i], NonSuccessOutcome)); }
      }
      return Ok(());
    }
  }
}
