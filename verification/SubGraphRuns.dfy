// Running an inlined sub-graph is running the sub-graph on its own.
module SubGraphRuns {
  import opened Wrappers
  import opened Graphs
  import opened Strings
  import opened State
  import opened EdgeSelection
  import opened Composition
  import opened CompositionSelection
  import opened Engine
  import opened EngineRuns
  import opened InlinedRuns
  import opened Crossings

  // ----- The sub-graph on its own -----

  // The sub-graph as a pipeline of its own, with the handler that its inlined nodes have.
  ghost function Alone(cfg: Config, sub: Graph, id: string): Config {
    cfg.(graph := sub, handler := (n, c) => cfg.handler(InlineNode(n, id), c))
  }

  // A fresh run of it along edges, up to its exit.
  ghost predicate SubRun(acfg: Config, sub: Graph, c: Context, vs: seq<RunState>)
    requires HasBoundary(sub)
  {
    IsTrail(acfg, vs) && ByEdgesOnly(acfg, vs) && AllExecutable(acfg, vs)
    && vs[0] == Begin(StartId(sub), [], map[], c) && vs[|vs| - 1].current == ExitId(sub)
  }

  // Such runs from the same context are the same, step by step.
  lemma {:induction false} SubRunStep(acfg: Config, sub: Graph, c: Context, vs: seq<RunState>, ws: seq<RunState>,
                                      k: nat)
    requires HasBoundary(sub) && SubRun(acfg, sub, c, vs) && SubRun(acfg, sub, c, ws) && k < |vs| && k < |ws|
    ensures vs[k] == ws[k]
  {
    hide Step, Executable;
    if k > 0 { SubRunStep(acfg, sub, c, vs, ws, k - 1); }
  }

  lemma NoEdgeOnward(acfg: Config, sub: Graph, s: RunState)
    requires HasBoundary(sub) && acfg.graph == sub && EdgesFrom(sub.edges, ExitId(sub)) == []
    requires s.current == ExitId(sub)
    ensures !(Step(acfg, s).Goto? && Step(acfg, s).move.ViaEdge?)
  {
    if Step(acfg, s).Goto? && Step(acfg, s).move.ViaEdge? {
      MovesAreLegal(acfg, s);
      EdgesFromMembers(sub.edges, ExitId(sub));
    }
  }

  lemma SubRunUnique(acfg: Config, sub: Graph, c: Context, vs: seq<RunState>, ws: seq<RunState>)
    requires HasBoundary(sub) && acfg.graph == sub && EdgesFrom(sub.edges, ExitId(sub)) == []
    requires SubRun(acfg, sub, c, vs) && SubRun(acfg, sub, c, ws)
    ensures vs == ws
  {
    hide Step, Executable;
    var k := if |vs| <= |ws| then |vs| - 1 else |ws| - 1;
    SubRunStep(acfg, sub, c, vs, ws, k);
    NoEdgeOnward(acfg, sub, vs[k]);
    forall i | 0 <= i <= k ensures vs[i] == ws[i] {
      SubRunStep(acfg, sub, c, vs, ws, i);
    }
  }

  // ----- Steps inside -----

  // The same node and the same context.
  ghost predicate Twins(s: RunState, v: RunState, id: string) {
    s.current == PrefixId(id, v.current) && s.ctx == v.ctx
  }

  // Two states at which the same outcome and context result.
  ghost predicate HandledAlike(cfg: Config, s: RunState, pcfg: Config, b: RunState)
    requires Executable(cfg, s) && Executable(pcfg, b)
  {
    OutcomeOf(pcfg, b) == OutcomeOf(cfg, s) && Recorded(pcfg, b).ctx == Recorded(cfg, s).ctx
  }

  lemma SameLabel(cfg: Config, s: RunState, pcfg: Config, b: RunState)
    requires Executable(cfg, s) && Executable(pcfg, b) && HandledAlike(cfg, s, pcfg, b)
    ensures Labelled(cfg, s) == Labelled(pcfg, b)
  {
  }

  lemma {:induction false} FindInAppend(a: seq<GraphNode>, b: seq<GraphNode>, v: string)
    requires forall n :: n in b ==> n.id != v
    ensures FindNode(a + b, v) == FindNode(a, v)
  {
    if a == [] {
      assert a + b == b;
    } else {
      assert (a + b)[1..] == a[1..] + b;
      FindInAppend(a[1..], b, v);
    }
  }

  lemma {:induction false} FindInWithout(ns: seq<GraphNode>, id: string, v: string)
    requires v != id
    ensures FindNode(Without(ns, id), v) == FindNode(ns, v)
  {
    if ns != [] {
      FindInWithout(ns[1..], id, v);
      assert ([ns[0]] + Without(ns[1..], id))[1..] == Without(ns[1..], id);
    }
  }

  // Outer nodes are the same in both pipelines.
  lemma SameNode(parent: Graph, sub: Graph, id: string, v: string)
    requires HasBoundary(sub) && v != id && !Below(id, v)
    ensures FindNode(Inlined(parent, sub, id).nodes, v) == FindNode(parent.nodes, v)
  {
    forall i | 0 <= i < |sub.nodes| ensures InlineNodes(sub.nodes, id)[i].id != v {
      StripPrefixId(id, sub.nodes[i].id, v);
    }
    FindInAppend(Without(parent.nodes, id), InlineNodes(sub.nodes, id), v);
    FindInWithout(parent.nodes, id, v);
  }

  // Inner nodes are the inlined nodes of the sub-graph.
  lemma InnerNode(parent: Graph, sub: Graph, id: string, x: string)
    requires HasBoundary(sub) && forall n :: n in parent.nodes ==> !Below(id, n.id)
    ensures FindNode(Inlined(parent, sub, id).nodes, PrefixId(id, x)) ==
            if FindNode(sub.nodes, x).None? then None else Some(InlineNode(FindNode(sub.nodes, x).value, id))
  {
    WithoutMembers(parent.nodes, id);
    StripPrefixId(id, x, "");
    FindBehind(Without(parent.nodes, id), InlineNodes(sub.nodes, id), PrefixId(id, x));
    FindInlined(sub.nodes, id, x);
  }

  lemma TwinHandling(cfg: Config, parent: Graph, sub: Graph, id: string, s: RunState, v: RunState)
    requires Suited(cfg, parent, sub, id) && Twins(s, v, id) && s.steps < cfg.maxSteps && v.steps < cfg.maxSteps
    ensures Executable(cfg, s) <==> Executable(Alone(cfg, sub, id), v)
    ensures Executable(cfg, s) ==> HandledAlike(cfg, s, Alone(cfg, sub, id), v)
    ensures Executable(cfg, s) ==> NodeOf(cfg, s) == InlineNode(NodeOf(Alone(cfg, sub, id), v), id)
  {
    InnerNode(parent, sub, id, v.current);
  }

  // Short of the exit the two selections are images of each other.
  lemma TwinSelection(cfg: Config, parent: Graph, sub: Graph, id: string, s: RunState, v: RunState)
    requires Suited(cfg, parent, sub, id) && Twins(s, v, id) && v.current != ExitId(sub)
    requires Executable(cfg, s) && Executable(Alone(cfg, sub, id), v) && HandledAlike(cfg, s, Alone(cfg, sub, id), v)
    ensures var acfg := Alone(cfg, sub, id);
            (SelectionAt(cfg, s).Err? <==> SelectionAt(acfg, v).Err?)
            && (SelectionAt(acfg, v).Ok? ==>
                  SelectionAt(cfg, s) == Ok(InlineOption(SelectionAt(acfg, v).value, id)))
  {
    var acfg, o := Alone(cfg, sub, id), OutcomeOf(cfg, s);
    SameLabel(cfg, s, acfg, v);
    var q := Query(cfg.lang, Labelled(cfg, s), Some(o));
    EdgesFromMembers(sub.edges, v.current);
    forall e | e in EdgesFrom(sub.edges, v.current) ensures NeutralTarget(q, id, e.to) {
      assert NeutralHandling(cfg, NodeOf(cfg, s), s.ctx, e.to, PrefixId(id, e.to));
    }
    hide Select, Recorded, Executable, Inlined, Step;
    SelectAtInnerNode(parent, sub, id, v.current, q);
  }

  // What is left of a step along an edge: its limit, its way and its arrival.
  lemma TwinsGo(cfg: Config, parent: Graph, sub: Graph, id: string, s: RunState, v: RunState, e: GraphEdge)
    requires Suited(cfg, parent, sub, id) && Twins(s, v, id) && v.current != ExitId(sub)
    requires Executable(cfg, s) && Executable(Alone(cfg, sub, id), v) && HandledAlike(cfg, s, Alone(cfg, sub, id), v)
    ensures Goes(Alone(cfg, sub, id), v, e) && !InFailureCycle(cfg, Recorded(cfg, s), OutcomeOf(cfg, s)) ==>
              Goes(cfg, s, InlineEdge(e, id))
    ensures var acfg := Alone(cfg, sub, id);
            Goes(cfg, s, e) && !InFailureCycle(acfg, Recorded(acfg, v), OutcomeOf(acfg, v)) ==>
              exists f :: Goes(acfg, v, f) && e == InlineEdge(f, id)
  {
    var acfg := Alone(cfg, sub, id);
    NoExitInside(cfg, parent, sub, id, s, v);
    hide Goes, Select, Recorded, Inlined, Suited, InFailureCycle, Executable;
    TwinSelection(cfg, parent, sub, id, s, v);
    GoesIff(acfg, v, e);
    GoesIff(cfg, s, InlineEdge(e, id));
    GoesIff(cfg, s, e);
    if Goes(cfg, s, e) {
      var f := SelectionAt(acfg, v).value.value;
      GoesIff(acfg, v, f);
    }
  }

  lemma NoExitInside(cfg: Config, parent: Graph, sub: Graph, id: string, s: RunState, v: RunState)
    requires Suited(cfg, parent, sub, id) && Twins(s, v, id) && v.current != ExitId(sub)
    requires Executable(cfg, s) && Executable(Alone(cfg, sub, id), v)
    ensures NodeOf(cfg, s).nodeType != Exit && NodeOf(Alone(cfg, sub, id), v).nodeType != Exit
  {
    InnerNode(parent, sub, id, v.current);
  }

  lemma TwinsArrive(cfg: Config, parent: Graph, sub: Graph, id: string, s: RunState, v: RunState, e: GraphEdge)
    requires Suited(cfg, parent, sub, id) && Twins(s, v, id)
    requires Executable(cfg, s) && Executable(Alone(cfg, sub, id), v) && HandledAlike(cfg, s, Alone(cfg, sub, id), v)
    requires Goes(Alone(cfg, sub, id), v, e) && Goes(cfg, s, InlineEdge(e, id))
    ensures Twins(Step(cfg, s).next, Step(Alone(cfg, sub, id), v).next, id)
  {
    var acfg := Alone(cfg, sub, id);
    assert acfg.graph == sub && acfg.fidelity == cfg.fidelity;
    hide Goes, Recorded, Inlined, Executable, Step, Carried;
    GoesTo(acfg, v, e);
    GoesTo(cfg, s, InlineEdge(e, id));
    SameLabel(cfg, s, acfg, v);
    assert CarriedInside(cfg, Labelled(cfg, s), e, id);
    CarriesAlone(cfg, sub, id);
  }

  lemma CarriesAlone(cfg: Config, sub: Graph, id: string)
    ensures forall c, e :: Carried(Alone(cfg, sub, id), c, e) == Carried(cfg, c, e)
  {
  }

  // ----- Failure counts inside -----

  // The inlined nodes hold at least the failures of the nodes of the sub-graph on its own.
  ghost predicate HeldAtLeast(s: RunState, v: RunState, id: string) {
    forall x, e :: HoldsAtLeast(s, v, id, x, e)
  }

  ghost predicate HoldsAtLeast(s: RunState, v: RunState, id: string, x: string, e: string) {
    Count(v.failures, (x, e)) <= Count(s.failures, (PrefixId(id, x), e))
  }

  // Those short of the exit hold at most `extra` more.
  ghost predicate HeldWithin(s: RunState, v: RunState, id: string, exit: string, extra: Counts) {
    forall x, e :: x != exit ==> HoldsWithin(s, v, id, x, e, extra)
  }

  ghost predicate HoldsWithin(s: RunState, v: RunState, id: string, x: string, e: string, extra: Counts) {
    Count(s.failures, (PrefixId(id, x), e)) <= Count(v.failures, (x, e)) + Count(extra, (PrefixId(id, x), e))
  }

  lemma CountedMore(c: Counts, d: Counts, x: string, y: string, o: Outcome, w: string, v: string, e: string, b: nat)
    requires x == w <==> y == v
    ensures Count(d, (v, e)) <= Count(c, (w, e)) ==>
              Count(NextFailures(d, y, o), (v, e)) <= Count(NextFailures(c, x, o), (w, e))
    ensures Count(c, (w, e)) <= Count(d, (v, e)) + b ==>
              Count(NextFailures(c, x, o), (w, e)) <= Count(NextFailures(d, y, o), (v, e)) + b
  {
  }

  // Both bounds are kept when twins have run alike.
  lemma TwinCounts(cfg: Config, acfg: Config, s: RunState, v: RunState, id: string, exit: string, extra: Counts)
    requires Executable(cfg, s) && Executable(acfg, v) && HandledAlike(cfg, s, acfg, v) && Twins(s, v, id)
    requires acfg.maxIdenticalFailures == cfg.maxIdenticalFailures
    ensures HeldAtLeast(s, v, id) ==> HeldAtLeast(Recorded(cfg, s), Recorded(acfg, v), id)
    ensures HeldWithin(s, v, id, exit, extra) ==> HeldWithin(Recorded(cfg, s), Recorded(acfg, v), id, exit, extra)
  {
    var r, p, o := Recorded(cfg, s), Recorded(acfg, v), OutcomeOf(cfg, s);
    forall x, e ensures HoldsAtLeast(s, v, id, x, e) ==> HoldsAtLeast(r, p, id, x, e)
      ensures HoldsWithin(s, v, id, x, e, extra) ==> HoldsWithin(r, p, id, x, e, extra)
    {
      PrefixIdInjective(id, x, v.current);
      CountedMore(s.failures, v.failures, s.current, v.current, o, PrefixId(id, x), x, e,
                  Count(extra, (PrefixId(id, x), e)));
    }
  }

  // Hence the sub-graph on its own is never aborted earlier.
  lemma NotAbortedAlone(cfg: Config, acfg: Config, s: RunState, v: RunState, id: string)
    requires Executable(cfg, s) && Executable(acfg, v) && HandledAlike(cfg, s, acfg, v) && Twins(s, v, id)
    requires acfg.maxIdenticalFailures == cfg.maxIdenticalFailures
    requires HeldAtLeast(Recorded(cfg, s), Recorded(acfg, v), id)
    requires !InFailureCycle(cfg, Recorded(cfg, s), OutcomeOf(cfg, s))
    ensures !InFailureCycle(acfg, Recorded(acfg, v), OutcomeOf(acfg, v))
  {
    if OutcomeOf(cfg, s).Failure? {
      assert HoldsAtLeast(Recorded(cfg, s), Recorded(acfg, v), id, v.current, OutcomeOf(cfg, s).error);
    }
  }

  // ----- From the composed run to the run alone -----

  lemma NextTwins(cfg: Config, parent: Graph, sub: Graph, id: string, s: RunState, v: RunState, e: GraphEdge)
    returns (f: GraphEdge)
    requires Suited(cfg, parent, sub, id) && Twins(s, v, id) && v.current != ExitId(sub)
    requires HeldAtLeast(s, v, id) && v.steps <= s.steps && Goes(cfg, s, e)
    ensures var acfg := Alone(cfg, sub, id);
            Executable(acfg, v) && Goes(acfg, v, f) && Twins(Step(cfg, s).next, Step(acfg, v).next, id)
            && HeldAtLeast(Step(cfg, s).next, Step(acfg, v).next, id)
            && Step(acfg, v).next.steps <= Step(cfg, s).next.steps
  {
    var acfg := Alone(cfg, sub, id);
    StepAdvances(cfg, s);
    assert acfg.maxIdenticalFailures == cfg.maxIdenticalFailures;
    hide Step, Recorded, Suited, HeldAtLeast, Alone, InFailureCycle;
    GoesTo(cfg, s, e);
    SuitedHasBoundary(cfg, parent, sub, id);
    TwinHandling(cfg, parent, sub, id, s, v);
    TwinCounts(cfg, acfg, s, v, id, "", map[]);
    GoesIff(cfg, s, e);
    NotAbortedAlone(cfg, acfg, s, v, id);
    TwinsGo(cfg, parent, sub, id, s, v, e);
    f :| Goes(acfg, v, f) && e == InlineEdge(f, id);
    TwinsArrive(cfg, parent, sub, id, s, v, f);
    GoesTo(acfg, v, f);
    SameHeld(Recorded(cfg, s), Step(cfg, s).next, Recorded(acfg, v), Step(acfg, v).next, id);
  }

  lemma SameHeld(s: RunState, t: RunState, v: RunState, w: RunState, id: string)
    requires t.failures == s.failures && w.failures == v.failures
    ensures HeldAtLeast(s, v, id) ==> HeldAtLeast(t, w, id)
    ensures forall exit, extra :: HeldWithin(s, v, id, exit, extra) ==> HeldWithin(t, w, id, exit, extra)
  {
    forall x, e ensures HoldsAtLeast(s, v, id, x, e) ==> HoldsAtLeast(t, w, id, x, e) {
    }
    forall x, e, extra ensures HoldsWithin(s, v, id, x, e, extra) ==> HoldsWithin(t, w, id, x, e, extra) {
    }
  }

  lemma {:induction false} AloneFollows(cfg: Config, parent: Graph, sub: Graph, id: string, us: seq<RunState>,
                                        v: RunState)
    returns (vs: seq<RunState>)
    requires Suited(cfg, parent, sub, id) && IsTrail(cfg, us) && ByEdgesOnly(cfg, us) && AllExecutable(cfg, us)
    requires forall i :: 0 <= i < |us| - 1 ==> us[i].current != InlinedExit(sub, id)
    requires Twins(us[0], v, id) && HeldAtLeast(us[0], v, id) && v.steps <= us[0].steps
    ensures var acfg := Alone(cfg, sub, id);
            IsTrail(acfg, vs) && ByEdgesOnly(acfg, vs) && AllExecutable(acfg, vs)
    ensures |vs| == |us| && vs[0] == v && Twins(us[|us| - 1], vs[|vs| - 1], id)
    decreases |us|
  {
    hide Step, HeldAtLeast, Suited, Alone, Executable;
    SuitedHasBoundary(cfg, parent, sub, id);
    var acfg, s := Alone(cfg, sub, id), us[0];
    if |us| == 1 {
      LastBelowLimit(cfg, us);
      ExecutableTwin(cfg, parent, sub, id, s, v);
      vs := [v];
    } else {
      var f := NextTwins(cfg, parent, sub, id, s, v, Step(cfg, s).move.edge);
      var rest := AloneFollows(cfg, parent, sub, id, us[1..], Step(acfg, v).next);
      OneMoreStep(acfg, v, rest);
      vs := [v] + rest;
    }
  }

  lemma ExecutableTwin(cfg: Config, parent: Graph, sub: Graph, id: string, s: RunState, v: RunState)
    requires Suited(cfg, parent, sub, id) && Twins(s, v, id) && Executable(cfg, s) && v.steps < cfg.maxSteps
    ensures Executable(Alone(cfg, sub, id), v)
  {
    TwinHandling(cfg, parent, sub, id, s, v);
  }

  // A crossing is a fresh run of the sub-graph on its own from the same context, up to its exit, and
  // comes to the same outcome and context.
  lemma CrossingIsSubRun(cfg: Config, parent: Graph, sub: Graph, id: string, us: seq<RunState>)
    returns (vs: seq<RunState>)
    requires Suited(cfg, parent, sub, id) && Crossing(cfg, sub, id, us)
    ensures SubRun(Alone(cfg, sub, id), sub, us[0].ctx, vs) && |vs| == |us|
    ensures Crossed(Alone(cfg, sub, id), vs) == Crossed(cfg, us)
  {
    var acfg, v, n := Alone(cfg, sub, id), Begin(StartId(sub), [], map[], us[0].ctx), |us| - 1;
    forall i | 0 <= i < n ensures us[i].current != InlinedExit(sub, id) {
      if us[i].current == InlinedExit(sub, id) { ExitIsLast(cfg, parent, sub, id, us, i); }
    }
    assert Executable(cfg, us[n]);
    hide Step, Suited, Recorded, Alone, Executable, OutcomeOf;
    vs := AloneFollows(cfg, parent, sub, id, us, v);
    assert AllExecutable(acfg, vs) && Executable(acfg, vs[n]);
    PrefixIdInjective(id, vs[n].current, ExitId(sub));
    LastBelowLimit(acfg, vs);
    LastBelowLimit(cfg, us);
    TwinHandling(cfg, parent, sub, id, us[n], vs[n]);
  }

  lemma LastBelowLimit(cfg: Config, us: seq<RunState>)
    requires us != [] && AllExecutable(cfg, us)
    ensures us[|us| - 1].steps < cfg.maxSteps
  {
    assert Executable(cfg, us[|us| - 1]);
  }

  // ----- From the run alone to the composed run -----

  // No failure is counted more than f times on the way to the exit.
  ghost predicate Calm(acfg: Config, vs: seq<RunState>, f: nat)
    requires AllExecutable(acfg, vs)
  {
    forall i, p :: 0 <= i < |vs| - 1 ==> CountedWithin(acfg, vs[i], p, f)
  }

  ghost predicate CountedWithin(acfg: Config, v: RunState, p: (string, string), f: nat)
    requires Executable(acfg, v)
  {
    Count(Recorded(acfg, v).failures, p) <= f
  }

  // The counts already held short of the exit, with f more, stay below the limit.
  ghost predicate Patient(cfg: Config, sub: Graph, id: string, held: Counts, f: nat)
    requires HasBoundary(sub)
  {
    cfg.maxIdenticalFailures.None? || f == 0
    || forall x, e :: x != ExitId(sub) ==> BelowLimitWith(cfg, held, PrefixId(id, x), e, f)
  }

  ghost predicate BelowLimitWith(cfg: Config, held: Counts, v: string, e: string, f: nat)
    requires cfg.maxIdenticalFailures.Some?
  {
    Count(held, (v, e)) + f < cfg.maxIdenticalFailures.value
  }

  lemma NotAbortedInside(cfg: Config, sub: Graph, id: string, s: RunState, v: RunState, held: Counts, f: nat)
    requires HasBoundary(sub) && Executable(cfg, s) && Executable(Alone(cfg, sub, id), v)
    requires HandledAlike(cfg, s, Alone(cfg, sub, id), v) && Twins(s, v, id) && v.current != ExitId(sub)
    requires HeldWithin(Recorded(cfg, s), Recorded(Alone(cfg, sub, id), v), id, ExitId(sub), held)
    requires Patient(cfg, sub, id, held, f)
    requires forall p :: CountedWithin(Alone(cfg, sub, id), v, p, f)
    ensures !InFailureCycle(cfg, Recorded(cfg, s), OutcomeOf(cfg, s))
  {
    var acfg, o := Alone(cfg, sub, id), OutcomeOf(cfg, s);
    if o.Failure? && cfg.maxIdenticalFailures.Some? {
      assert HoldsWithin(Recorded(cfg, s), Recorded(acfg, v), id, v.current, o.error, held);
      assert CountedWithin(acfg, v, (v.current, o.error), f);
      assert f != 0 ==> BelowLimitWith(cfg, held, PrefixId(id, v.current), o.error, f);
    }
  }

  lemma NextInlined(cfg: Config, parent: Graph, sub: Graph, id: string, s: RunState, v: RunState, e: GraphEdge,
                    held: Counts, f: nat)
    requires Suited(cfg, parent, sub, id) && Twins(s, v, id) && v.current != ExitId(sub) && s.steps < cfg.maxSteps
    requires HeldWithin(s, v, id, ExitId(sub), held) && Patient(cfg, sub, id, held, f)
    requires Executable(Alone(cfg, sub, id), v) && Goes(Alone(cfg, sub, id), v, e)
    requires forall p :: CountedWithin(Alone(cfg, sub, id), v, p, f)
    ensures Goes(cfg, s, InlineEdge(e, id)) && Executable(cfg, s)
    ensures var t, w := Step(cfg, s).next, Step(Alone(cfg, sub, id), v).next;
            Twins(t, w, id) && HeldWithin(t, w, id, ExitId(sub), held) && t.steps == s.steps + 1
  {
    var acfg := Alone(cfg, sub, id);
    assert acfg.maxIdenticalFailures == cfg.maxIdenticalFailures && acfg.maxSteps == cfg.maxSteps;
    LastBelowLimit(acfg, [v]);
    hide Step, Recorded, Suited, HeldWithin, Alone, InFailureCycle, Patient, CountedWithin;
    SuitedHasBoundary(cfg, parent, sub, id);
    TwinHandling(cfg, parent, sub, id, s, v);
    TwinCounts(cfg, acfg, s, v, id, ExitId(sub), held);
    NotAbortedInside(cfg, sub, id, s, v, held, f);
    TwinsGo(cfg, parent, sub, id, s, v, e);
    TwinsArrive(cfg, parent, sub, id, s, v, e);
    GoesTo(acfg, v, e);
    GoesTo(cfg, s, InlineEdge(e, id));
    SameHeld(Recorded(cfg, s), Step(cfg, s).next, Recorded(acfg, v), Step(acfg, v).next, id);
  }

  lemma {:induction false} InlinedFollows(cfg: Config, parent: Graph, sub: Graph, id: string, vs: seq<RunState>,
                                          s: RunState, held: Counts, f: nat)
    returns (us: seq<RunState>)
    requires Suited(cfg, parent, sub, id) && HasBoundary(sub)
    requires IsTrail(Alone(cfg, sub, id), vs) && ByEdgesOnly(Alone(cfg, sub, id), vs)
    requires AllExecutable(Alone(cfg, sub, id), vs) && Calm(Alone(cfg, sub, id), vs, f)
    requires forall i :: 0 <= i < |vs| - 1 ==> vs[i].current != ExitId(sub)
    requires Twins(s, vs[0], id) && HeldWithin(s, vs[0], id, ExitId(sub), held) && Patient(cfg, sub, id, held, f)
    requires s.steps + |vs| <= cfg.maxSteps
    ensures IsTrail(cfg, us) && ByEdgesOnly(cfg, us) && AllExecutable(cfg, us) && |us| == |vs| && us[0] == s
    ensures forall i :: 0 <= i < |us| ==> Below(id, us[i].current)
    ensures Twins(us[|us| - 1], vs[|vs| - 1], id) && us[|us| - 1].steps == s.steps + |us| - 1
    ensures HeldWithin(us[|us| - 1], vs[|vs| - 1], id, ExitId(sub), held)
    decreases |vs|
  {
    hide Step, HeldWithin, Suited, Alone, Executable, Patient, CountedWithin;
    var acfg, v := Alone(cfg, sub, id), vs[0];
    StripPrefixId(id, v.current, "");
    if |vs| == 1 {
      ExecutableInlined(cfg, parent, sub, id, s, v);
      us := [s];
    } else {
      assert forall p :: CountedWithin(acfg, vs[0], p, f);
      NextInlined(cfg, parent, sub, id, s, v, Step(acfg, v).move.edge, held, f);
      CalmTail(acfg, vs, f);
      var rest := InlinedFollows(cfg, parent, sub, id, vs[1..], Step(cfg, s).next, held, f);
      OneMoreStep(cfg, s, rest);
      us := [s] + rest;
    }
  }

  lemma CalmTail(acfg: Config, vs: seq<RunState>, f: nat)
    requires vs != [] && AllExecutable(acfg, vs) && Calm(acfg, vs, f)
    ensures AllExecutable(acfg, vs[1..]) && Calm(acfg, vs[1..], f)
  {
    hide CountedWithin, Executable;
    assert forall i :: 0 <= i < |vs| - 1 ==> vs[1..][i] == vs[i + 1];
  }

  lemma ExecutableInlined(cfg: Config, parent: Graph, sub: Graph, id: string, s: RunState, v: RunState)
    requires Suited(cfg, parent, sub, id) && Twins(s, v, id) && s.steps < cfg.maxSteps
    requires Executable(Alone(cfg, sub, id), v)
    ensures Executable(cfg, s)
  {
    TwinHandling(cfg, parent, sub, id, s, v);
  }

  // The counts short of the exit have grown by at most f.
  ghost predicate Grown(s: RunState, t: RunState, id: string, exit: string, f: nat) {
    forall x, e :: x != exit ==> GrownBy(s, t, PrefixId(id, x), e, f)
  }

  ghost predicate GrownBy(s: RunState, t: RunState, v: string, e: string, f: nat) {
    Count(t.failures, (v, e)) <= Count(s.failures, (v, e)) + f
  }

  // A fresh run of the sub-graph on its own is a crossing from every state at the inlined start with
  // the same context, if steps are left and the failures that it adds are tolerated.
  lemma SubRunIsCrossing(cfg: Config, parent: Graph, sub: Graph, id: string, vs: seq<RunState>, t: RunState, f: nat)
    returns (us: seq<RunState>)
    requires Suited(cfg, parent, sub, id) && HasBoundary(sub)
    requires SubRun(Alone(cfg, sub, id), sub, t.ctx, vs) && Calm(Alone(cfg, sub, id), vs, f)
    requires t.current == InlinedStart(sub, id) && t.steps + |vs| <= cfg.maxSteps
    requires Patient(cfg, sub, id, t.failures, f)
    ensures Crossing(cfg, sub, id, us) && us[0] == t && |us| == |vs|
    ensures us[|us| - 1].steps == t.steps + |us| - 1 && Grown(t, us[|us| - 1], id, ExitId(sub), f)
  {
    hide *;
    SubRunParts(cfg, parent, sub, id, t.ctx, vs);
    FreshTwin(t, vs[0], sub, id);
    us := InlinedFollows(cfg, parent, sub, id, vs, t, t.failures, f);
    LastCounts(Alone(cfg, sub, id), vs, f);
    EndTwin(us[|us| - 1], vs[|vs| - 1], sub, id);
    IsCrossing(cfg, sub, id, us);
    GrownInside(t, us[|us| - 1], vs[|vs| - 1], id, ExitId(sub), f);
  }

  lemma SubRunParts(cfg: Config, parent: Graph, sub: Graph, id: string, c: Context, vs: seq<RunState>)
    requires Suited(cfg, parent, sub, id) && HasBoundary(sub) && SubRun(Alone(cfg, sub, id), sub, c, vs)
    ensures var acfg := Alone(cfg, sub, id);
            vs != [] && IsTrail(acfg, vs) && ByEdgesOnly(acfg, vs) && AllExecutable(acfg, vs)
    ensures forall i :: 0 <= i < |vs| - 1 ==> vs[i].current != ExitId(sub)
    ensures vs[0].current == StartId(sub) && vs[0].ctx == c && vs[0].failures == map[]
    ensures vs[|vs| - 1].current == ExitId(sub)
  {
    var acfg := Alone(cfg, sub, id);
    assert acfg.graph == sub && EdgesFrom(sub.edges, ExitId(sub)) == [];
    hide Step, Suited, Executable, Alone;
    forall i | 0 <= i < |vs| - 1 ensures vs[i].current != ExitId(sub) {
      if vs[i].current == ExitId(sub) { NoEdgeOnward(acfg, sub, vs[i]); }
    }
  }

  lemma FreshTwin(t: RunState, v: RunState, sub: Graph, id: string)
    requires HasBoundary(sub) && t.current == InlinedStart(sub, id) && v.current == StartId(sub) && t.ctx == v.ctx
    ensures Twins(t, v, id) && HeldWithin(t, v, id, ExitId(sub), t.failures)
  {
    forall x, e ensures HoldsWithin(t, v, id, x, e, t.failures) {
    }
  }

  lemma EndTwin(u: RunState, v: RunState, sub: Graph, id: string)
    requires HasBoundary(sub) && Twins(u, v, id) && v.current == ExitId(sub)
    ensures u.current == InlinedExit(sub, id)
  {
  }

  lemma GrownInside(t: RunState, u: RunState, v: RunState, id: string, exit: string, f: nat)
    requires HeldWithin(u, v, id, exit, t.failures) && AllWithin(v.failures, f)
    ensures Grown(t, u, id, exit, f)
  {
    forall x, e | x != exit ensures GrownBy(t, u, PrefixId(id, x), e, f) {
      assert HoldsWithin(u, v, id, x, e, t.failures);
    }
  }

  ghost predicate AllWithin(c: Counts, f: nat) {
    forall p :: Count(c, p) <= f
  }

  lemma LastCounts(acfg: Config, vs: seq<RunState>, f: nat)
    requires IsTrail(acfg, vs) && AllExecutable(acfg, vs) && Calm(acfg, vs, f) && vs[0].failures == map[]
    ensures AllWithin(vs[|vs| - 1].failures, f)
  {
    hide Step, Recorded, Executable;
    if |vs| > 1 {
      RoutingKeepsBooks(acfg, vs[|vs| - 2]);
      var c := vs[|vs| - 1].failures;
      forall p ensures Count(c, p) <= f {
        assert CountedWithin(acfg, vs[|vs| - 2], p, f);
      }
    }
  }

  // ----- The parent pipeline -----

  // Handling the replaced node is running the sub-graph on its own, up to its exit.
  ghost function Handling(cfg: Config, sub: Graph, id: string, n: GraphNode, c: Context): (Outcome, Context)
    requires HasBoundary(sub)
  {
    if n.id == id && exists vs: seq<RunState> :: SubRun(Alone(cfg, sub, id), sub, c, vs) then
      var vs: seq<RunState> :| SubRun(Alone(cfg, sub, id), sub, c, vs);
      Crossed(Alone(cfg, sub, id), vs)
    else cfg.handler(n, c)
  }

  // The parent pipeline with that handler.
  ghost function Hierarchy(cfg: Config, parent: Graph, sub: Graph, id: string): Config
    requires HasBoundary(sub)
  {
    cfg.(graph := parent, handler := (n, c) => Handling(cfg, sub, id, n, c))
  }

  lemma HandlingRuns(cfg: Config, parent: Graph, sub: Graph, id: string, c: Context, vs: seq<RunState>, n: GraphNode)
    requires Suited(cfg, parent, sub, id) && SubRun(Alone(cfg, sub, id), sub, c, vs) && n.id == id
    ensures Handling(cfg, sub, id, n, c) == Crossed(Alone(cfg, sub, id), vs)
  {
    var acfg := Alone(cfg, sub, id);
    assert acfg.graph == sub && EdgesFrom(sub.edges, ExitId(sub)) == [] && HasBoundary(sub);
    hide Suited, Step, Crossed, Executable, ByEdgesOnly, Alone, SubRun;
    var ws: seq<RunState> :| SubRun(acfg, sub, c, ws) && Handling(cfg, sub, id, n, c) == Crossed(acfg, ws);
    SubRunUnique(acfg, sub, c, vs, ws);
  }

  // The handler of the replaced node returns what crossing the inlined sub-graph comes to.
  lemma HierarchyCrosses(cfg: Config, parent: Graph, sub: Graph, id: string, us: seq<RunState>, n: GraphNode)
    requires Suited(cfg, parent, sub, id) && Crossing(cfg, sub, id, us) && n.id == id
    ensures exists vs :: SubRun(Alone(cfg, sub, id), sub, us[0].ctx, vs) && |vs| == |us|
    ensures Handling(cfg, sub, id, n, us[0].ctx) == Crossed(cfg, us)
  {
    var vs := CrossingIsSubRun(cfg, parent, sub, id, us);
    hide Suited, Step, Crossed, Executable, Crossing, SubRun, Handling;
    HandlingRuns(cfg, parent, sub, id, us[0].ctx, vs, n);
  }
}
