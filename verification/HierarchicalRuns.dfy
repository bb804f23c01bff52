// Running a composed pipeline is running the parent pipeline with the sub-graph as one node.
module HierarchicalRuns {
  import opened Wrappers
  import opened Graphs
  import opened Strings
  import opened State
  import opened EdgeSelection
  import opened Composition
  import opened CompositionWalks
  import opened CompositionSelection
  import opened Engine
  import opened EngineRuns
  import opened InlinedRuns
  import opened Crossings
  import opened SubGraphRuns

  // ----- Corresponding states -----

  // The composed pipeline keeps at the inlined exit what the parent keeps at the replaced node.
  function Kept(v: string, id: string, exit: string): string {
    if v == id then exit else v
  }

  // The same outcomes and the same failure counts, apart from those of inner nodes.
  ghost predicate Mirrors(s: RunState, b: RunState, id: string, exit: string) {
    (forall v :: !Below(id, v) ==> MirrorsOutcome(s, b, v, Kept(v, id, exit)))
    && forall v, e :: !Below(id, v) ==> MirrorsCount(s, b, v, e, Kept(v, id, exit))
  }

  ghost predicate MirrorsOutcome(s: RunState, b: RunState, v: string, w: string) {
    (v in b.outcomes <==> w in s.outcomes) && (v in b.outcomes ==> b.outcomes[v] == s.outcomes[w])
  }

  ghost predicate MirrorsCount(s: RunState, b: RunState, v: string, e: string, w: string) {
    Count(b.failures, (v, e)) == Count(s.failures, (w, e))
  }

  // The same node and the same context, the same books, and no more steps.
  ghost predicate Matches(s: RunState, b: RunState, id: string, exit: string) {
    b.ctx == s.ctx && b.current == (if Below(id, s.current) then id else s.current)
    && b.steps <= s.steps && Mirrors(s, b, id, exit)
  }

  // Fresh runs of the two pipelines begin alike.
  lemma FreshRunsMatch(start: string, ctx: Context, id: string, exit: string)
    requires !Below(id, start)
    ensures Matches(Begin(start, [], map[], ctx), Begin(start, [], map[], ctx), id, exit)
  {
  }

  // After corresponding nodes have run alike, the books still mirror each other, and the failure
  // limit is reached in both or in neither.
  lemma RecordedMirrors(cfg: Config, s: RunState, pcfg: Config, b: RunState, id: string, exit: string)
    requires Executable(cfg, s) && Executable(pcfg, b) && HandledAlike(cfg, s, pcfg, b)
    requires pcfg.maxIdenticalFailures == cfg.maxIdenticalFailures && Below(id, exit)
    requires !Below(id, b.current) && s.current == Kept(b.current, id, exit) && s.current != id
    requires Mirrors(s, b, id, exit)
    ensures Mirrors(Recorded(cfg, s), Recorded(pcfg, b), id, exit)
    ensures InFailureCycle(cfg, Recorded(cfg, s), OutcomeOf(cfg, s))
            <==> InFailureCycle(pcfg, Recorded(pcfg, b), OutcomeOf(pcfg, b))
  {
    var r, p, o := Recorded(cfg, s), Recorded(pcfg, b), OutcomeOf(cfg, s);
    forall v | !Below(id, v) ensures MirrorsOutcome(r, p, v, Kept(v, id, exit)) {
      assert MirrorsOutcome(s, b, v, Kept(v, id, exit));
    }
    forall v, e | !Below(id, v) ensures MirrorsCount(r, p, v, e, Kept(v, id, exit)) {
      assert MirrorsCount(s, b, v, e, Kept(v, id, exit));
      CountedAlike(s.failures, b.failures, s.current, b.current, o, Kept(v, id, exit), v, e);
    }
    if o.Failure? { assert MirrorsCount(r, p, b.current, o.error, s.current); }
  }

  lemma CountedAlike(c: Counts, d: Counts, x: string, y: string, o: Outcome, w: string, v: string, e: string)
    requires Count(d, (v, e)) == Count(c, (w, e)) && (x == w <==> y == v)
    ensures Count(NextFailures(d, y, o), (v, e)) == Count(NextFailures(c, x, o), (w, e))
  {
  }

  // Inner nodes other than the exit leave no trace in the mirrored books.
  lemma InnerMirrors(cfg: Config, s: RunState, b: RunState, id: string, exit: string)
    requires Executable(cfg, s) && Mirrors(s, b, id, exit) && Below(id, s.current) && s.current != exit
    ensures Mirrors(Recorded(cfg, s), b, id, exit)
  {
    var r := Recorded(cfg, s);
    forall v | !Below(id, v) ensures MirrorsOutcome(r, b, v, Kept(v, id, exit)) {
      assert MirrorsOutcome(s, b, v, Kept(v, id, exit));
    }
    forall v, e | !Below(id, v) ensures MirrorsCount(r, b, v, e, Kept(v, id, exit)) {
      assert MirrorsCount(s, b, v, e, Kept(v, id, exit));
    }
  }

  // Mirroring only looks at the books.
  lemma MirrorsBooks(s: RunState, t: RunState, b: RunState, c: RunState, id: string, exit: string)
    requires Mirrors(s, b, id, exit)
    requires t.outcomes == s.outcomes && t.failures == s.failures
    requires c.outcomes == b.outcomes && c.failures == b.failures
    ensures Mirrors(t, c, id, exit)
  {
    forall v | !Below(id, v) ensures MirrorsOutcome(t, c, v, Kept(v, id, exit)) {
      assert MirrorsOutcome(s, b, v, Kept(v, id, exit));
    }
    forall v, e | !Below(id, v) ensures MirrorsCount(t, c, v, e, Kept(v, id, exit)) {
      assert MirrorsCount(s, b, v, e, Kept(v, id, exit));
    }
  }

  // Steps along corresponding edges arrive at matching states.
  lemma BothArrive(cfg: Config, s: RunState, f: GraphEdge, pcfg: Config, b: RunState, e: GraphEdge, id: string,
                   exit: string)
    requires Executable(cfg, s) && Executable(pcfg, b) && HandledAlike(cfg, s, pcfg, b)
    requires pcfg.maxIdenticalFailures == cfg.maxIdenticalFailures && Below(id, exit)
    requires !Below(id, b.current) && s.current == Kept(b.current, id, exit) && s.current != id
    requires Mirrors(s, b, id, exit) && b.steps <= s.steps && Goes(cfg, s, f) && Goes(pcfg, b, e)
    requires Carried(pcfg, Labelled(cfg, s), e) == Carried(cfg, Labelled(cfg, s), f)
    requires e.to == if Below(id, f.to) then id else f.to
    ensures Matches(Step(cfg, s).next, Step(pcfg, b).next, id, exit)
    ensures Step(pcfg, b).next.current == e.to && Step(cfg, s).next.current == f.to
    ensures Step(cfg, s).next.steps == s.steps + 1
  {
    hide Goes, Step, Recorded, Mirrors, InFailureCycle, Carried, Below, HandledAlike;
    GoesTo(pcfg, b, e);
    GoesTo(cfg, s, f);
    RecordedMirrors(cfg, s, pcfg, b, id, exit);
    SameLabel(cfg, s, pcfg, b);
    MirrorsBooks(Recorded(cfg, s), Step(cfg, s).next, Recorded(pcfg, b), Step(pcfg, b).next, id, exit);
  }

  // ----- Steps at outer nodes -----

  ghost predicate OuterPair(cfg: Config, parent: Graph, sub: Graph, id: string, s: RunState, b: RunState) {
    Suited(cfg, parent, sub, id) && s.current != id && !Below(id, s.current)
    && Matches(s, b, id, InlinedExit(sub, id)) && b.steps < cfg.maxSteps && s.steps < cfg.maxSteps
  }

  lemma OuterHandling(cfg: Config, parent: Graph, sub: Graph, id: string, s: RunState, b: RunState)
    requires OuterPair(cfg, parent, sub, id, s, b)
    ensures Executable(cfg, s) <==> Executable(Hierarchy(cfg, parent, sub, id), b)
    ensures var pcfg := Hierarchy(cfg, parent, sub, id);
            Executable(cfg, s) ==> NodeOf(pcfg, b) == NodeOf(cfg, s) && HandledAlike(cfg, s, pcfg, b)
  {
    hide Crossing, Mirrors;
    SameNode(parent, sub, id, s.current);
  }

  // The two selections are images of each other.
  lemma OuterSelection(cfg: Config, parent: Graph, sub: Graph, id: string, s: RunState, b: RunState)
    requires OuterPair(cfg, parent, sub, id, s, b) && Executable(cfg, s)
    requires Executable(Hierarchy(cfg, parent, sub, id), b) && HandledAlike(cfg, s, Hierarchy(cfg, parent, sub, id), b)
    ensures var pcfg := Hierarchy(cfg, parent, sub, id);
            (SelectionAt(cfg, s).Err? <==> SelectionAt(pcfg, b).Err?)
            && (SelectionAt(pcfg, b).Ok? ==>
                  SelectionAt(cfg, s) == Ok(TurnedOption(SelectionAt(pcfg, b).value, id, InlinedStart(sub, id))))
  {
    var pcfg := Hierarchy(cfg, parent, sub, id);
    var o := OutcomeOf(cfg, s);
    assert NeutralHandling(cfg, NodeOf(cfg, s), s.ctx, id, InlinedStart(sub, id));
    SameLabel(cfg, s, pcfg, b);
    var q := Query(cfg.lang, Labelled(cfg, s), Some(o));
    hide Select, Recorded, Executable, Inlined, Crossing, Mirrors;
    EdgesFromMembers(parent.edges, s.current);
    SelectAtOuterNode(parent, sub, id, s.current, q);
  }

  // At an outer node both pipelines go the same way, or neither goes along an edge.
  lemma OuterGoes(cfg: Config, parent: Graph, sub: Graph, id: string, s: RunState, b: RunState, e: GraphEdge)
    requires OuterPair(cfg, parent, sub, id, s, b)
    ensures Goes(Hierarchy(cfg, parent, sub, id), b, e) ==> Goes(cfg, s, Turned(e, id, InlinedStart(sub, id)))
    ensures Goes(cfg, s, e) ==>
              exists f :: Goes(Hierarchy(cfg, parent, sub, id), b, f) && e == Turned(f, id, InlinedStart(sub, id))
  {
    SuitedHasBoundary(cfg, parent, sub, id);
    var exit := InlinedExit(sub, id);
    StripPrefixId(id, ExitId(sub), "");
    hide Goes, Select, Recorded, Inlined, Crossing, Suited, Mirrors, InFailureCycle;
    var pcfg := Hierarchy(cfg, parent, sub, id);
    OuterHandling(cfg, parent, sub, id, s, b);
    if Goes(pcfg, b, e) { GoesTo(pcfg, b, e); }
    if Goes(cfg, s, e) { GoesTo(cfg, s, e); }
    if Executable(cfg, s) {
      RecordedMirrors(cfg, s, pcfg, b, id, exit);
      OuterSelection(cfg, parent, sub, id, s, b);
      var t := Turned(e, id, InlinedStart(sub, id));
      GoesIff(cfg, s, t);
      GoesIff(pcfg, b, e);
      GoesIff(cfg, s, e);
      if Goes(cfg, s, e) {
        var f := SelectionAt(pcfg, b).value.value;
        GoesIff(pcfg, b, f);
      }
    }
  }

  // And they arrive at corresponding states.
  lemma OuterArrives(cfg: Config, parent: Graph, sub: Graph, id: string, s: RunState, b: RunState, e: GraphEdge)
    requires OuterPair(cfg, parent, sub, id, s, b)
    requires Goes(Hierarchy(cfg, parent, sub, id), b, e) && Goes(cfg, s, Turned(e, id, InlinedStart(sub, id)))
    ensures Matches(Step(cfg, s).next, Step(Hierarchy(cfg, parent, sub, id), b).next, id, InlinedExit(sub, id))
    ensures e.to == id ==> Step(cfg, s).next.current == InlinedStart(sub, id)
    ensures e.to != id ==> Step(cfg, s).next.current == e.to && !Below(id, e.to)
    ensures Step(Hierarchy(cfg, parent, sub, id), b).next.current == e.to
    ensures Step(cfg, s).next.steps == s.steps + 1
  {
    SuitedHasBoundary(cfg, parent, sub, id);
    StripPrefixId(id, StartId(sub), "");
    StripPrefixId(id, ExitId(sub), "");
    var pcfg, f := Hierarchy(cfg, parent, sub, id), Turned(e, id, InlinedStart(sub, id));
    assert pcfg.graph == parent && pcfg.maxIdenticalFailures == cfg.maxIdenticalFailures;
    hide Goes, Step, Recorded, Mirrors, InFailureCycle, Carried, Suited, Hierarchy;
    OuterHandling(cfg, parent, sub, id, s, b);
    GoesTo(pcfg, b, e);
    GoesTo(cfg, s, f);
    SuitedEdge(cfg, parent, sub, id, e, Labelled(cfg, s));
    SameCarrying(cfg, parent, sub, id);
    BothArrive(cfg, s, f, pcfg, b, e, id, InlinedExit(sub, id));
  }

  // What the situation says about one parent edge.
  lemma SuitedEdge(cfg: Config, parent: Graph, sub: Graph, id: string, e: GraphEdge, c: Context)
    requires Suited(cfg, parent, sub, id) && e in parent.edges
    ensures HasBoundary(sub) && !Below(id, e.to) && !Below(id, e.from) && !(e.from == id && e.to == id)
    ensures CarriedAlike(cfg, c, e, id, InlinedStart(sub, id), InlinedExit(sub, id))
  {
  }

  lemma SameCarrying(cfg: Config, parent: Graph, sub: Graph, id: string)
    requires HasBoundary(sub)
    ensures forall c, e :: Carried(Hierarchy(cfg, parent, sub, id), c, e) == Carried(cfg, c, e)
  {
  }

  // ----- Steps at the inlined exit -----

  // The sub-graph has been crossed, and the parent is at the replaced node.
  ghost predicate ExitPair(cfg: Config, parent: Graph, sub: Graph, id: string, us: seq<RunState>, b: RunState) {
    Suited(cfg, parent, sub, id) && Crossing(cfg, sub, id, us) && b.current == id && b.ctx == us[0].ctx
    && b.steps < cfg.maxSteps && b.steps <= us[|us| - 1].steps && Mirrors(us[|us| - 1], b, id, InlinedExit(sub, id))
  }

  lemma ExitHandling(cfg: Config, parent: Graph, sub: Graph, id: string, us: seq<RunState>, b: RunState)
    requires ExitPair(cfg, parent, sub, id, us, b)
    ensures var pcfg, s := Hierarchy(cfg, parent, sub, id), us[|us| - 1];
            Executable(cfg, s) && Executable(pcfg, b) && HandledAlike(cfg, s, pcfg, b)
            && NodeOf(pcfg, b).nodeType != Exit
  {
    hide Step, NextFailures, Inlined, Mirrors;
    HierarchyCrosses(cfg, parent, sub, id, us, FindNode(parent.nodes, id).value);
  }

  // The inlined exit has lost its type.
  lemma ExitNode(cfg: Config, parent: Graph, sub: Graph, id: string, s: RunState)
    requires Suited(cfg, parent, sub, id) && Executable(cfg, s) && Below(id, s.current)
    ensures NodeOf(cfg, s).nodeType != Exit
  {
    WithoutMembers(parent.nodes, id);
    var n := NodeOf(cfg, s);
    assert n in InlineNodes(sub.nodes, id);
  }

  lemma ExitSelection(cfg: Config, parent: Graph, sub: Graph, id: string, us: seq<RunState>, b: RunState)
    requires ExitPair(cfg, parent, sub, id, us, b)
    requires var pcfg, s := Hierarchy(cfg, parent, sub, id), us[|us| - 1];
             Executable(cfg, s) && Executable(pcfg, b) && HandledAlike(cfg, s, pcfg, b)
    ensures var pcfg, s := Hierarchy(cfg, parent, sub, id), us[|us| - 1];
            (SelectionAt(cfg, s).Err? <==> SelectionAt(pcfg, b).Err?)
            && (SelectionAt(pcfg, b).Ok? ==>
                  SelectionAt(cfg, s) == Ok(MoveOption(SelectionAt(pcfg, b).value, InlinedExit(sub, id))))
  {
    var pcfg, s := Hierarchy(cfg, parent, sub, id), us[|us| - 1];
    SameLabel(cfg, s, pcfg, b);
    var q := Query(cfg.lang, Labelled(cfg, s), Some(OutcomeOf(cfg, s)));
    hide Select, Recorded, Executable, Inlined, Step, Mirrors;
    SelectAtExit(parent, sub, id, q);
  }

  lemma ExitGoes(cfg: Config, parent: Graph, sub: Graph, id: string, us: seq<RunState>, b: RunState, e: GraphEdge)
    requires ExitPair(cfg, parent, sub, id, us, b)
    ensures Goes(Hierarchy(cfg, parent, sub, id), b, e) && NodeTypeAt(cfg, us[|us| - 1]) != Exit ==>
              Goes(cfg, us[|us| - 1], e.(from := InlinedExit(sub, id)))
    ensures Goes(cfg, us[|us| - 1], e) ==>
              exists f :: Goes(Hierarchy(cfg, parent, sub, id), b, f) && e == f.(from := InlinedExit(sub, id))
  {
    SuitedHasBoundary(cfg, parent, sub, id);
    CrossingEnds(cfg, sub, id, us);
    var exit, s := InlinedExit(sub, id), us[|us| - 1];
    StripPrefixId(id, ExitId(sub), "");
    StripPrefixId(id, "", id);
    hide Goes, Select, Recorded, Inlined, Crossing, Suited, Mirrors, InFailureCycle;
    var pcfg := Hierarchy(cfg, parent, sub, id);
    ExitHandling(cfg, parent, sub, id, us, b);
    RecordedMirrors(cfg, s, pcfg, b, id, exit);
    ExitSelection(cfg, parent, sub, id, us, b);
    var t := e.(from := exit);
    GoesIff(cfg, s, t);
    GoesIff(pcfg, b, e);
    GoesIff(cfg, s, e);
    if Goes(cfg, s, e) {
      var f := SelectionAt(pcfg, b).value.value;
      GoesIff(pcfg, b, f);
    }
  }

  function NodeTypeAt(cfg: Config, s: RunState): NodeType {
    if Executable(cfg, s) then NodeOf(cfg, s).nodeType else Generic
  }

  lemma CrossingEnds(cfg: Config, sub: Graph, id: string, us: seq<RunState>)
    requires HasBoundary(sub) && Crossing(cfg, sub, id, us)
    ensures us != [] && us[0].current == InlinedStart(sub, id) && us[|us| - 1].current == InlinedExit(sub, id)
  {
  }

  lemma ExitArrives(cfg: Config, parent: Graph, sub: Graph, id: string, us: seq<RunState>, b: RunState, e: GraphEdge)
    requires ExitPair(cfg, parent, sub, id, us, b)
    requires Goes(Hierarchy(cfg, parent, sub, id), b, e) && Goes(cfg, us[|us| - 1], e.(from := InlinedExit(sub, id)))
    ensures Matches(Step(cfg, us[|us| - 1]).next, Step(Hierarchy(cfg, parent, sub, id), b).next, id,
                    InlinedExit(sub, id))
    ensures var t := Step(cfg, us[|us| - 1]).next; t.current == e.to && e.to != id && !Below(id, e.to)
    ensures Step(cfg, us[|us| - 1]).next.steps == us[|us| - 1].steps + 1
  {
    SuitedHasBoundary(cfg, parent, sub, id);
    CrossingEnds(cfg, sub, id, us);
    StripPrefixId(id, ExitId(sub), "");
    StripPrefixId(id, "", id);
    var pcfg, s, f := Hierarchy(cfg, parent, sub, id), us[|us| - 1], e.(from := InlinedExit(sub, id));
    assert pcfg.graph == parent && pcfg.maxIdenticalFailures == cfg.maxIdenticalFailures;
    hide Goes, Step, Recorded, Crossing, Mirrors, InFailureCycle, Carried, Suited, Hierarchy;
    ExitHandling(cfg, parent, sub, id, us, b);
    GoesTo(pcfg, b, e);
    SuitedEdge(cfg, parent, sub, id, e, Labelled(cfg, s));
    SameCarrying(cfg, parent, sub, id);
    BothArrive(cfg, s, f, pcfg, b, e, id, InlinedExit(sub, id));
  }

  // While the sub-graph is crossed the parent waits.
  lemma {:induction false} CrossingMirrors(cfg: Config, parent: Graph, sub: Graph, id: string, us: seq<RunState>,
                                           b: RunState, k: nat)
    requires Suited(cfg, parent, sub, id) && Crossing(cfg, sub, id, us) && k < |us|
    requires Mirrors(us[0], b, id, InlinedExit(sub, id))
    ensures Mirrors(us[k], b, id, InlinedExit(sub, id))
  {
    SuitedHasBoundary(cfg, parent, sub, id);
    hide Step, Recorded, Mirrors, Suited, Executable;
    if k > 0 {
      CrossingMirrors(cfg, parent, sub, id, us, b, k - 1);
      if us[k - 1].current == InlinedExit(sub, id) { ExitIsLast(cfg, parent, sub, id, us, k - 1); }
      InnerMirrors(cfg, us[k - 1], b, id, InlinedExit(sub, id));
      RoutingKeepsBooks(cfg, us[k - 1]);
      MirrorsBooks(Recorded(cfg, us[k - 1]), us[k], b, b, id, InlinedExit(sub, id));
    }
  }

  // ----- Whole runs -----

  // A run of the composed pipeline along edges, grouped into visits.
  lemma {:induction false} FirstOuter(ts: seq<RunState>, id: string, k: nat) returns (j: nat)
    requires k < |ts| && !Below(id, ts[|ts| - 1].current)
    ensures k <= j < |ts| && !Below(id, ts[j].current)
    ensures forall i :: k <= i < j ==> Below(id, ts[i].current)
    decreases |ts| - k
  {
    j := k;
    if Below(id, ts[k].current) { j := FirstOuter(ts, id, k + 1); }
  }

  // What an edge of the composed graph leads to.
  lemma OneLink(cfg: Config, parent: Graph, sub: Graph, id: string, ts: seq<RunState>, k: nat)
    requires Suited(cfg, parent, sub, id) && IsTrail(cfg, ts) && ByEdgesOnly(cfg, ts) && k < |ts| - 1
    ensures !Below(id, ts[k + 1].current) ==> ts[k + 1].current != id
    ensures !Below(id, ts[k].current) && Below(id, ts[k + 1].current) ==>
              ts[k + 1].current == InlinedStart(sub, id)
    ensures Below(id, ts[k].current) && !Below(id, ts[k + 1].current) ==>
              ts[k].current == InlinedExit(sub, id)
  {
    hide Step, Inlined;
    TrailIsWalk(cfg, ts);
    var a, b := NodesOf(ts)[k], NodesOf(ts)[k + 1];
    assert Link(cfg.graph, a, b);
    ComposedLinks(parent, sub, id, a, b);
    StripPrefixId(id, "", a);
    StripPrefixId(id, "", b);
  }

  lemma CrossingFound(cfg: Config, parent: Graph, sub: Graph, id: string, ts: seq<RunState>, j: nat)
    requires Suited(cfg, parent, sub, id) && IsTrail(cfg, ts) && ByEdgesOnly(cfg, ts)
    requires 1 < j < |ts| && !Below(id, ts[0].current) && !Below(id, ts[j].current)
    requires forall i :: 1 <= i < j ==> Below(id, ts[i].current)
    ensures Crossing(cfg, sub, id, ts[1..j])
  {
    hide *;
    SuitedHasBoundary(cfg, parent, sub, id);
    OneLink(cfg, parent, sub, id, ts, 0);
    OneLink(cfg, parent, sub, id, ts, j - 1);
    Stretch(cfg, ts, 1, j);
    AllSteps(cfg, ts, 1, j);
    assert forall i :: 0 <= i < j - 1 ==> ts[1..j][i] == ts[i + 1];
    IsCrossing(cfg, sub, id, ts[1..j]);
  }

  lemma AllSteps(cfg: Config, ts: seq<RunState>, i: nat, j: nat)
    requires IsTrail(cfg, ts) && i < j < |ts|
    ensures AllExecutable(cfg, ts[i..j])
  {
    hide Step, Executable;
    forall k | i <= k < j ensures Executable(cfg, ts[k]) {
      StepAdvances(cfg, ts[k]);
    }
  }

  lemma ProjectOuter(s: RunState, ts: seq<RunState>, sub: Graph, id: string)
    requires HasBoundary(sub) && !Below(id, s.current)
    ensures Project(Group(NodesOf([s] + ts), sub, id), id) == [s.current] + Project(Group(NodesOf(ts), sub, id), id)
  {
    assert NodesOf([s] + ts)[1..] == NodesOf(ts);
    assert Group(NodesOf([s] + ts), sub, id) == [Outer(s.current)] + Group(NodesOf(ts), sub, id);
  }

  lemma ProjectStay(us: seq<RunState>, ts: seq<RunState>, sub: Graph, id: string)
    requires HasBoundary(sub) && us != [] && (forall i :: 0 <= i < |us| ==> Inner(sub, id, us[i].current))
    requires ts != [] && !Below(id, ts[0].current)
    ensures Project(Group(NodesOf(us + ts), sub, id), id) == [id] + Project(Group(NodesOf(ts), sub, id), id)
  {
    hide Group;
    var stay := StayOf(us, sub, id);
    assert NodesOf(us + ts) == NodesOf(us) + NodesOf(ts);
    GroupEnds(NodesOf(ts), sub, id);
    GroupStay(stay, NodesOf(ts), sub, id);
  }

  // The walk through the sub-graph behind a run through inlined nodes.
  lemma StayOf(us: seq<RunState>, sub: Graph, id: string) returns (stay: seq<string>)
    requires HasBoundary(sub) && forall i :: 0 <= i < |us| ==> Inner(sub, id, us[i].current)
    ensures |stay| == |us| && Prefixed(stay, id) == NodesOf(us) && forall x :: x in stay ==> x in Names(sub)
  {
    hide Names;
    stay := seq(|us|, i requires 0 <= i < |us| => Strip(id, us[i].current));
    forall i | 0 <= i < |us| ensures PrefixId(id, stay[i]) == us[i].current {
      StripPrefixId(id, "", us[i].current);
    }
  }

  // A crossing goes through the names of the sub-graph.
  lemma CrossingIsInner(cfg: Config, parent: Graph, sub: Graph, id: string, us: seq<RunState>)
    requires Suited(cfg, parent, sub, id) && HasBoundary(sub) && Crossing(cfg, sub, id, us)
    ensures forall i :: 0 <= i < |us| ==> Inner(sub, id, us[i].current)
  {
    hide Step, Inlined, Executable;
    TrailIsWalk(cfg, us);
    InnerNames(sub, id);
    forall i | 0 <= i < |us| ensures Inner(sub, id, us[i].current) {
      if i > 0 {
        var a, b := NodesOf(us)[i - 1], NodesOf(us)[i];
        assert Link(cfg.graph, a, b);
        ComposedLinks(parent, sub, id, a, b);
        var e :| e in sub.edges && e.from == Strip(id, a) && e.to == Strip(id, b);
      }
    }
  }

  // At every visit of the replaced node its handler does run the sub-graph.
  ghost predicate AllSubRuns(cfg: Config, sub: Graph, id: string, ps: seq<RunState>)
    requires HasBoundary(sub)
  {
    forall i :: 0 <= i < |ps| && ps[i].current == id ==> RunsAlone(cfg, sub, id, ps[i].ctx)
  }

  ghost predicate RunsAlone(cfg: Config, sub: Graph, id: string, c: Context)
    requires HasBoundary(sub)
  {
    exists vs :: SubRun(Alone(cfg, sub, id), sub, c, vs)
  }

  lemma OneMoreVisit(cfg: Config, sub: Graph, id: string, b: RunState, ps: seq<RunState>)
    requires HasBoundary(sub) && AllSubRuns(cfg, sub, id, ps)
    requires b.current == id ==> RunsAlone(cfg, sub, id, b.ctx)
    ensures AllSubRuns(cfg, sub, id, [b] + ps)
  {
    hide RunsAlone;
    assert forall i :: 0 < i <= |ps| ==> ([b] + ps)[i] == ps[i - 1];
  }

  lemma CrossingRunsAlone(cfg: Config, parent: Graph, sub: Graph, id: string, us: seq<RunState>)
    requires Suited(cfg, parent, sub, id) && HasBoundary(sub) && Crossing(cfg, sub, id, us)
    ensures RunsAlone(cfg, sub, id, us[0].ctx)
  {
    var vs := CrossingIsSubRun(cfg, parent, sub, id, us);
  }

  lemma SameContext(s: RunState, b: RunState, id: string, exit: string)
    requires Matches(s, b, id, exit)
    ensures b.ctx == s.ctx && b.steps <= s.steps && Mirrors(s, b, id, exit)
    ensures b.current == if Below(id, s.current) then id else s.current
  {
  }

  // `ps` is a run along edges of the parent through the projection of the composed run `ts`, between
  // matching states.
  ghost predicate Follows(pcfg: Config, ts: seq<RunState>, ps: seq<RunState>, sub: Graph, id: string)
    requires HasBoundary(sub)
  {
    ts != [] && IsTrail(pcfg, ps) && ByEdgesOnly(pcfg, ps)
    && Matches(ts[0], ps[0], id, InlinedExit(sub, id)) && Matches(ts[|ts| - 1], ps[|ps| - 1], id, InlinedExit(sub, id))
    && NodesOf(ps) == Project(Group(NodesOf(ts), sub, id), id)
  }

  lemma FollowsAlone(pcfg: Config, s: RunState, b: RunState, sub: Graph, id: string)
    requires HasBoundary(sub) && Matches(s, b, id, InlinedExit(sub, id)) && !Below(id, s.current)
    ensures Follows(pcfg, [s], [b], sub, id)
  {
    hide Mirrors;
    ProjectOuter(s, [], sub, id);
    assert [s] + [] == [s];
  }

  lemma FollowsOuter(pcfg: Config, s: RunState, ts: seq<RunState>, b: RunState, ps: seq<RunState>, e: GraphEdge,
                     sub: Graph, id: string)
    requires HasBoundary(sub) && ps != [] && Follows(pcfg, ts, ps, sub, id)
    requires Goes(pcfg, b, e) && Step(pcfg, b).next == ps[0]
    requires !Below(id, s.current) && Matches(s, b, id, InlinedExit(sub, id))
    ensures Follows(pcfg, [s] + ts, [b] + ps, sub, id)
  {
    hide Step, Group, Project, Mirrors, IsTrail, ByEdgesOnly;
    OneMoreStep(pcfg, b, ps);
    ProjectOuter(s, ts, sub, id);
    assert NodesOf([b] + ps) == [b.current] + NodesOf(ps);
  }

  // With a crossing in between.
  lemma FollowsAcross(pcfg: Config, s: RunState, us: seq<RunState>, ts: seq<RunState>, b: RunState, c: RunState,
                      ps: seq<RunState>, e: GraphEdge, f: GraphEdge, sub: Graph, id: string)
    requires HasBoundary(sub) && ps != [] && Follows(pcfg, ts, ps, sub, id)
    requires Goes(pcfg, b, e) && Step(pcfg, b).next == c && Goes(pcfg, c, f) && Step(pcfg, c).next == ps[0]
    requires us != [] && (forall i :: 0 <= i < |us| ==> Inner(sub, id, us[i].current))
    requires !Below(id, ts[0].current) && c.current == id && !Below(id, s.current)
    requires Matches(s, b, id, InlinedExit(sub, id))
    ensures Follows(pcfg, [s] + (us + ts), [b] + ([c] + ps), sub, id)
  {
    hide Step, Group, Project, Mirrors, IsTrail, ByEdgesOnly, Below;
    OneMoreStep(pcfg, c, ps);
    OneMoreStep(pcfg, b, [c] + ps);
    ProjectStay(us, ts, sub, id);
    ProjectOuter(s, us + ts, sub, id);
    assert NodesOf([b] + ([c] + ps)) == [b.current] + ([c.current] + NodesOf(ps));
  }

  // ----- From the composed pipeline to the parent -----

  // A composed run along edges between outer nodes, beside a state of the parent at its start.
  ghost predicate Beside(cfg: Config, parent: Graph, sub: Graph, id: string, ts: seq<RunState>, b: RunState) {
    Suited(cfg, parent, sub, id) && IsTrail(cfg, ts) && ByEdgesOnly(cfg, ts)
    && ts[0].current != id && !Below(id, ts[0].current)
    && ts[|ts| - 1].current != id && !Below(id, ts[|ts| - 1].current)
    && Matches(ts[0], b, id, InlinedExit(sub, id))
  }

  lemma BesideOuter(cfg: Config, parent: Graph, sub: Graph, id: string, ts: seq<RunState>, b: RunState)
    requires Beside(cfg, parent, sub, id, ts, b)
    ensures HasBoundary(sub) && ts != [] && Suited(cfg, parent, sub, id)
    ensures IsTrail(cfg, ts) && ByEdgesOnly(cfg, ts)
    ensures !Below(id, ts[0].current) && !Below(id, ts[|ts| - 1].current) && ts[|ts| - 1].current != id
    ensures ts[0].current != id && Matches(ts[0], b, id, InlinedExit(sub, id))
  {
  }

  lemma NoVisits(cfg: Config, sub: Graph, id: string)
    requires HasBoundary(sub)
    ensures AllSubRuns(cfg, sub, id, [])
  {
  }

  lemma BesidePair(cfg: Config, parent: Graph, sub: Graph, id: string, ts: seq<RunState>, b: RunState)
    returns (e: GraphEdge)
    requires Beside(cfg, parent, sub, id, ts, b) && |ts| > 1
    ensures OuterPair(cfg, parent, sub, id, ts[0], b) && Goes(cfg, ts[0], e) && Step(cfg, ts[0]).next == ts[1]
  {
    hide Suited, Step, Mirrors;
    StepAdvances(cfg, ts[0]);
    e := Step(cfg, ts[0]).move.edge;
  }

  // The first step, when it leads to an outer node.
  lemma OnwardOutside(cfg: Config, parent: Graph, sub: Graph, id: string, ts: seq<RunState>, b: RunState)
    returns (c: RunState, e: GraphEdge)
    requires Beside(cfg, parent, sub, id, ts, b) && |ts| > 1 && !Below(id, ts[1].current)
    ensures Beside(cfg, parent, sub, id, ts[1..], c)
    ensures Goes(Hierarchy(cfg, parent, sub, id), b, e) && Step(Hierarchy(cfg, parent, sub, id), b).next == c
  {
    hide Step, Suited, Mirrors, Matches, Beside, Goes, IsTrail, ByEdgesOnly, Hierarchy, Below;
    BesideOuter(cfg, parent, sub, id, ts, b);
    c, e := OnwardOnce(cfg, parent, sub, id, ts, b);
    OneLink(cfg, parent, sub, id, ts, 0);
    Stretch(cfg, ts, 1, |ts|);
    assert ts[1..|ts|] == ts[1..];
    IsBeside(cfg, parent, sub, id, ts[1..], c);
  }

  lemma OnwardOnce(cfg: Config, parent: Graph, sub: Graph, id: string, ts: seq<RunState>, b: RunState)
    returns (c: RunState, e: GraphEdge)
    requires Beside(cfg, parent, sub, id, ts, b) && |ts| > 1
    ensures HasBoundary(sub) && Matches(ts[1], c, id, InlinedExit(sub, id)) && ts[1].steps == ts[0].steps + 1
    ensures Goes(Hierarchy(cfg, parent, sub, id), b, e) && Step(Hierarchy(cfg, parent, sub, id), b).next == c
  {
    hide Step, Suited, Mirrors, Matches, Beside, Goes;
    BesideOuter(cfg, parent, sub, id, ts, b);
    var f := BesidePair(cfg, parent, sub, id, ts, b);
    OuterGoes(cfg, parent, sub, id, ts[0], b, f);
    var pcfg := Hierarchy(cfg, parent, sub, id);
    e :| Goes(pcfg, b, e) && f == Turned(e, id, InlinedStart(sub, id));
    OuterArrives(cfg, parent, sub, id, ts[0], b, e);
    GoesTo(pcfg, b, e);
    c := Step(pcfg, b).next;
  }

  // The first steps, when they cross the sub-graph.
  lemma OnwardAcross(cfg: Config, parent: Graph, sub: Graph, id: string, ts: seq<RunState>, j: nat, b: RunState)
    returns (c: RunState, d: RunState, e: GraphEdge, f: GraphEdge)
    requires Beside(cfg, parent, sub, id, ts, b)
    requires 1 < j < |ts| && !Below(id, ts[j].current) && forall i :: 1 <= i < j ==> Below(id, ts[i].current)
    ensures Beside(cfg, parent, sub, id, ts[j..], d)
    ensures var pcfg := Hierarchy(cfg, parent, sub, id);
            Goes(pcfg, b, e) && Step(pcfg, b).next == c && Goes(pcfg, c, f) && Step(pcfg, c).next == d
    ensures HasBoundary(sub) && c.current == id && RunsAlone(cfg, sub, id, c.ctx)
    ensures forall i :: 1 <= i < j ==> Inner(sub, id, ts[i].current)
  {
    hide Step, Suited, Mirrors, Beside, Goes, IsTrail, ByEdgesOnly, Crossing, Hierarchy, RunsAlone;
    BesideOuter(cfg, parent, sub, id, ts, b);
    c, e := OnwardOnce(cfg, parent, sub, id, ts, b);
    CrossingFound(cfg, parent, sub, id, ts, j);
    CrossingRunsAlone(cfg, parent, sub, id, ts[1..j]);
    CrossingIsInner(cfg, parent, sub, id, ts[1..j]);
    assert forall i :: 1 <= i < j ==> ts[i] == ts[1..j][i - 1];
    assert ts[1..j][0] == ts[1];
    SameContext(ts[1], c, id, InlinedExit(sub, id));
    d, f := OffAgain(cfg, parent, sub, id, ts, j, c);
    Stretch(cfg, ts, j, |ts|);
    assert ts[j..|ts|] == ts[j..];
    IsBeside(cfg, parent, sub, id, ts[j..], d);
  }

  lemma IsBeside(cfg: Config, parent: Graph, sub: Graph, id: string, ts: seq<RunState>, b: RunState)
    requires Suited(cfg, parent, sub, id) && IsTrail(cfg, ts) && ByEdgesOnly(cfg, ts) && HasBoundary(sub) && ts != []
    requires ts[0].current != id && ts[|ts| - 1].current != id
    requires !Below(id, ts[0].current) && !Below(id, ts[|ts| - 1].current)
    requires Matches(ts[0], b, id, InlinedExit(sub, id))
    ensures Beside(cfg, parent, sub, id, ts, b)
  {
  }

  // The parent is at the replaced node when the sub-graph has been crossed.
  lemma CrossedPair(cfg: Config, parent: Graph, sub: Graph, id: string, ts: seq<RunState>, j: nat, c: RunState)
    returns (g: GraphEdge)
    requires Suited(cfg, parent, sub, id) && IsTrail(cfg, ts) && ByEdgesOnly(cfg, ts) && HasBoundary(sub)
    requires 1 < j < |ts| && Crossing(cfg, sub, id, ts[1..j])
    requires c.current == id && Matches(ts[1], c, id, InlinedExit(sub, id))
    ensures ExitPair(cfg, parent, sub, id, ts[1..j], c)
    ensures Goes(cfg, ts[j - 1], g) && Step(cfg, ts[j - 1]).next == ts[j]
  {
    hide Step, Suited, Mirrors, Crossing, Executable;
    var us := ts[1..j];
    assert us[0] == ts[1] && us[|us| - 1] == ts[j - 1];
    TrailSteps(cfg, ts, 1);
    TrailSteps(cfg, ts, j - 1);
    StepAdvances(cfg, ts[j - 1]);
    BelowMaximum(cfg, ts[j - 1]);
    CrossingMirrors(cfg, parent, sub, id, us, c, |us| - 1);
    g := Step(cfg, ts[j - 1]).move.edge;
  }

  lemma BelowMaximum(cfg: Config, s: RunState)
    requires Executable(cfg, s)
    ensures s.steps < cfg.maxSteps
  {
  }

  // The step after the crossing.
  lemma OffAgain(cfg: Config, parent: Graph, sub: Graph, id: string, ts: seq<RunState>, j: nat, c: RunState)
    returns (d: RunState, f: GraphEdge)
    requires Suited(cfg, parent, sub, id) && IsTrail(cfg, ts) && ByEdgesOnly(cfg, ts) && HasBoundary(sub)
    requires 1 < j < |ts| && Crossing(cfg, sub, id, ts[1..j])
    requires c.current == id && Matches(ts[1], c, id, InlinedExit(sub, id))
    ensures var pcfg := Hierarchy(cfg, parent, sub, id); Goes(pcfg, c, f) && Step(pcfg, c).next == d
    ensures Matches(ts[j], d, id, InlinedExit(sub, id)) && ts[j].current != id && !Below(id, ts[j].current)
  {
    hide Step, Suited, Matches, Crossing, IsTrail, ByEdgesOnly, Goes, ExitPair, Hierarchy;
    var us, exit, pcfg := ts[1..j], InlinedExit(sub, id), Hierarchy(cfg, parent, sub, id);
    assert us[|us| - 1] == ts[j - 1];
    var g := CrossedPair(cfg, parent, sub, id, ts, j, c);
    ExitGoes(cfg, parent, sub, id, us, c, g);
    f :| Goes(pcfg, c, f) && g == f.(from := exit);
    ExitArrives(cfg, parent, sub, id, us, c, f);
    GoesTo(pcfg, c, f);
    d := Step(pcfg, c).next;
  }

  // A run of the composed pipeline along edges, between outer nodes, is a run of the parent pipeline
  // in which the handler of the replaced node runs the sub-graph on its own: through the projected
  // nodes, to the same node, context, outcomes and failure counts.
  lemma {:induction false} ParentFollows(cfg: Config, parent: Graph, sub: Graph, id: string, ts: seq<RunState>,
                                         b: RunState)
    returns (ps: seq<RunState>)
    requires Beside(cfg, parent, sub, id, ts, b)
    ensures HasBoundary(sub) && ps != [] && ps[0] == b
    ensures Follows(Hierarchy(cfg, parent, sub, id), ts, ps, sub, id)
    ensures AllSubRuns(cfg, sub, id, ps)
    decreases |ts|
  {
    hide Step, Matches, Follows, Beside, HasBoundary, Hierarchy, Below, Goes, IsTrail, ByEdgesOnly, Suited;
    hide AllSubRuns, RunsAlone;
    BesideOuter(cfg, parent, sub, id, ts, b);
    SameContext(ts[0], b, id, InlinedExit(sub, id));
    NoVisits(cfg, sub, id);
    OneMoreVisit(cfg, sub, id, b, []);
    assert [b] + [] == [b];
    var pcfg := Hierarchy(cfg, parent, sub, id);
    var s := ts[0];
    if |ts| == 1 {
      ps := [b];
      FollowsAlone(pcfg, s, b, sub, id);
      assert ts == [s];
    } else {
      var j := FirstOuter(ts, id, 1);
      if j == 1 {
        var c, e := OnwardOutside(cfg, parent, sub, id, ts, b);
        var rest := ParentFollows(cfg, parent, sub, id, ts[1..], c);
        FollowsOuter(pcfg, s, ts[1..], b, rest, e, sub, id);
        OneMoreVisit(cfg, sub, id, b, rest);
        ps := [b] + rest;
        assert ts == [s] + ts[1..];
      } else {
        var c, d, e, f := OnwardAcross(cfg, parent, sub, id, ts, j, b);
        var rest := ParentFollows(cfg, parent, sub, id, ts[j..], d);
        FollowsAcross(pcfg, s, ts[1..j], ts[j..], b, c, rest, e, f, sub, id);
        OneMoreVisit(cfg, sub, id, c, rest);
        OneMoreVisit(cfg, sub, id, b, [c] + rest);
        ps := [b] + ([c] + rest);
        assert ts == [s] + (ts[1..j] + ts[j..]);
      }
    }
  }
}
