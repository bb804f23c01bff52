// Running a pipeline after the whole transform: the sub-pipelines run inside each other.
module NestedRuns {
  import opened Graphs
  import opened Strings
  import opened State
  import opened Composition
  import opened SubPipelines
  import opened Engine
  import opened EngineRuns
  import opened InlinedRuns
  import opened Crossings
  import opened SubGraphRuns
  import opened HierarchicalRuns

  // One round: the graph before it, and the graph that replaced one of its nodes.
  datatype Round = Round(parent: Graph, sub: Graph, id: string)

  // The rounds of the transform, the last one first.
  function RoundsOf(g: Graph, files: Files, k: nat): seq<Round>
    requires Iterate(g, files, k).Ok?
    decreases k
  {
    FirstSubPipelineFound(g.nodes);
    if k == 0 || FirstSubPipeline(g.nodes).None? then []
    else
      var n := FirstSubPipeline(g.nodes).value;
      RoundsOf(InlineOne(g, files, n).value, files, k - 1) + [Round(g, files[PipelineOf(n).value], n.id)]
  }

  // The pipeline before a round, which handles the replaced node by running its graph.
  ghost function Undone(cfg: Config, r: Round): Config
    requires HasBoundary(r.sub)
  {
    Hierarchy(cfg, r.parent, r.sub, r.id)
  }

  // Undone one by one, each round meets a situation in which runs can be compared.
  ghost predicate AllSuited(cfg: Config, rs: seq<Round>)
    decreases |rs|
  {
    rs != [] ==>
      Suited(cfg, rs[0].parent, rs[0].sub, rs[0].id)
      && AllSuited(Undone(cfg, rs[0]), rs[1..])
  }

  // The pipeline before all rounds: each sub-pipeline node is handled by running its graph, in which
  // the sub-pipeline nodes are handled likewise.
  ghost function Nested(cfg: Config, rs: seq<Round>): Config
    requires AllSuited(cfg, rs)
    decreases |rs|
  {
    if rs == [] then cfg else Nested(Undone(cfg, rs[0]), rs[1..])
  }

  // Not a node that was replaced, and not one that came with a replacement.
  ghost predicate Outside(rs: seq<Round>, v: string) {
    forall r :: r in rs ==> v != r.id && !Below(r.id, v)
  }

  // The graph before all rounds.
  function Original(g: Graph, rs: seq<Round>): Graph
    decreases |rs|
  {
    if rs == [] then g else Original(rs[0].parent, rs[1..])
  }

  lemma {:induction false} OriginalOfAll(g: Graph, rs: seq<Round>, r: Round)
    ensures Original(g, rs + [r]) == r.parent
    decreases |rs|
  {
    if rs == [] {
      assert ([] + [r])[1..] == [];
    } else {
      assert (rs + [r])[1..] == rs[1..] + [r];
      OriginalOfAll(rs[0].parent, rs[1..], r);
    }
  }

  lemma OriginalOfRounds(g: Graph, files: Files, k: nat)
    requires Iterate(g, files, k).Ok?
    ensures Original(Iterate(g, files, k).value, RoundsOf(g, files, k)) == g
  {
    FirstSubPipelineFound(g.nodes);
    if k > 0 && FirstSubPipeline(g.nodes).Some? {
      var n := FirstSubPipeline(g.nodes).value;
      OriginalOfAll(Iterate(g, files, k).value, RoundsOf(InlineOne(g, files, n).value, files, k - 1),
                    Round(g, files[PipelineOf(n).value], n.id));
    }
  }

  lemma {:induction false} NestedGraph(cfg: Config, rs: seq<Round>)
    requires AllSuited(cfg, rs)
    ensures Nested(cfg, rs).graph == Original(cfg.graph, rs)
    decreases |rs|
  {
    hide Suited, Undone, HasBoundary;
    if rs != [] {
      SuitedHasBoundary(cfg, rs[0].parent, rs[0].sub, rs[0].id);
      UndoneGraph(cfg, rs[0]);
      NestedGraph(Undone(cfg, rs[0]), rs[1..]);
    }
  }

  lemma UndoneGraph(cfg: Config, r: Round)
    requires HasBoundary(r.sub)
    ensures Undone(cfg, r).graph == r.parent
  {
  }

  // Suggestions stay as neutral as they were.
  lemma HierarchyStaysNeutral(cfg: Config, parent: Graph, sub: Graph, id: string, a: string, b: string)
    requires HasBoundary(sub) && forall n, c :: NeutralHandling(cfg, n, c, a, b)
    ensures forall n, c :: NeutralHandling(Hierarchy(cfg, parent, sub, id), n, c, a, b)
  {
    forall n, c ensures NeutralHandling(Hierarchy(cfg, parent, sub, id), n, c, a, b) {
      NeutralCrossing(cfg, sub, id, n, c, a, b);
    }
  }

  lemma NeutralCrossing(cfg: Config, sub: Graph, id: string, n: GraphNode, c: Context, a: string, b: string)
    requires HasBoundary(sub) && forall m, d :: NeutralHandling(cfg, m, d, a, b)
    ensures Handling(cfg, sub, id, n, c).0.Suggests(a) <==> Handling(cfg, sub, id, n, c).0.Suggests(b)
  {
    hide Crossed, Step, Executable, NeutralHandling;
    if n.id == id && exists vs: seq<RunState> :: SubRun(Alone(cfg, sub, id), sub, c, vs) {
      var vs: seq<RunState> :| SubRun(Alone(cfg, sub, id), sub, c, vs)
        && Handling(cfg, sub, id, n, c) == Crossed(Alone(cfg, sub, id), vs);
      NeutralEnd(cfg, sub, id, c, vs, a, b);
    } else {
      NeutralNode(cfg, n, c, a, b);
    }
  }

  lemma NeutralNode(cfg: Config, n: GraphNode, c: Context, a: string, b: string)
    requires NeutralHandling(cfg, n, c, a, b)
    ensures cfg.handler(n, c).0.Suggests(a) <==> cfg.handler(n, c).0.Suggests(b)
  {
  }

  lemma NeutralEnd(cfg: Config, sub: Graph, id: string, c: Context, vs: seq<RunState>, a: string, b: string)
    requires HasBoundary(sub) && SubRun(Alone(cfg, sub, id), sub, c, vs)
    requires forall m, d :: NeutralHandling(cfg, m, d, a, b)
    ensures var o := Crossed(Alone(cfg, sub, id), vs).0; o.Suggests(a) <==> o.Suggests(b)
  {
    var acfg, last := Alone(cfg, sub, id), vs[|vs| - 1];
    assert Executable(acfg, last);
    NeutralNode(cfg, InlineNode(NodeOf(acfg, last), id), last.ctx, a, b);
  }

  // One round undone.
  lemma OneRound(cfg: Config, r: Round, ts: seq<RunState>, start: string, ctx: Context) returns (ps: seq<RunState>)
    requires Suited(cfg, r.parent, r.sub, r.id) && IsTrail(cfg, ts) && ByEdgesOnly(cfg, ts)
    requires ts[0] == Begin(start, [], map[], ctx) && Outside([r], start) && Outside([r], ts[|ts| - 1].current)
    ensures var pcfg := Undone(cfg, r); IsTrail(pcfg, ps) && ByEdgesOnly(pcfg, ps)
    ensures ps[0] == ts[0] && ps[|ps| - 1].current == ts[|ts| - 1].current && ps[|ps| - 1].ctx == ts[|ts| - 1].ctx
    ensures forall v :: Outside([r], v) ==> MirrorsOutcome(ts[|ts| - 1], ps[|ps| - 1], v, v)
  {
    assert r in [r];
    SuitedHasBoundary(cfg, r.parent, r.sub, r.id);
    FreshRunsMatch(start, ctx, r.id, InlinedExit(r.sub, r.id));
    ps := ParentFollows(cfg, r.parent, r.sub, r.id, ts, ts[0]);
    hide Step, Suited, IsTrail, ByEdgesOnly, Hierarchy, MirrorsOutcome;
    forall v | Outside([r], v) ensures MirrorsOutcome(ts[|ts| - 1], ps[|ps| - 1], v, v) {
      assert MirrorsOutcome(ts[|ts| - 1], ps[|ps| - 1], v, Kept(v, r.id, InlinedExit(r.sub, r.id)));
    }
  }

  lemma OutsideParts(rs: seq<Round>, v: string)
    requires rs != [] && Outside(rs, v)
    ensures Outside([rs[0]], v) && Outside(rs[1..], v)
  {
  }

  // A fresh run along edges of the transformed pipeline, to a node of the original one, is a run of
  // the original pipeline with all sub-pipelines nested: to the same node, with the same context and
  // the same outcomes of its ordinary nodes.
  lemma {:induction false} NestedFollows(cfg: Config, rs: seq<Round>, ts: seq<RunState>, start: string, ctx: Context)
    returns (ps: seq<RunState>)
    requires AllSuited(cfg, rs) && IsTrail(cfg, ts) && ByEdgesOnly(cfg, ts)
    requires ts[0] == Begin(start, [], map[], ctx) && Outside(rs, start) && Outside(rs, ts[|ts| - 1].current)
    ensures IsTrail(Nested(cfg, rs), ps) && ByEdgesOnly(Nested(cfg, rs), ps)
    ensures ps[0] == ts[0] && ps[|ps| - 1].current == ts[|ts| - 1].current && ps[|ps| - 1].ctx == ts[|ts| - 1].ctx
    ensures forall v :: Outside(rs, v) ==> MirrorsOutcome(ts[|ts| - 1], ps[|ps| - 1], v, v)
    decreases |rs|
  {
    hide Step, Suited, Undone, Outside;
    if rs == [] {
      ps := ts;
    } else {
      var r := rs[0];
      OutsideParts(rs, start);
      OutsideParts(rs, ts[|ts| - 1].current);
      SuitedHasBoundary(cfg, r.parent, r.sub, r.id);
      var qs := OneRound(cfg, r, ts, start, ctx);
      ps := NestedFollows(Undone(cfg, r), rs[1..], qs, start, ctx);
      forall v | Outside(rs, v) ensures MirrorsOutcome(ts[|ts| - 1], ps[|ps| - 1], v, v) {
        OutsideParts(rs, v);
        assert MirrorsOutcome(ts[|ts| - 1], qs[|qs| - 1], v, v);
        assert MirrorsOutcome(qs[|qs| - 1], ps[|ps| - 1], v, v);
      }
    }
  }

  lemma TransformedRunIsNested(cfg: Config, g: Graph, files: Files, k: nat, ts: seq<RunState>, start: string,
                               ctx: Context)
    returns (ps: seq<RunState>)
    requires Iterate(g, files, k).Ok? && cfg.graph == Iterate(g, files, k).value
    requires var rs := RoundsOf(g, files, k);
             AllSuited(cfg, rs) && Outside(rs, start) && ts != [] && Outside(rs, ts[|ts| - 1].current)
    requires IsTrail(cfg, ts) && ByEdgesOnly(cfg, ts) && ts[0] == Begin(start, [], map[], ctx)
    ensures var original := Nested(cfg, RoundsOf(g, files, k));
            original.graph == g && IsTrail(original, ps) && ByEdgesOnly(original, ps)
    ensures ps[0] == ts[0] && ps[|ps| - 1].current == ts[|ts| - 1].current && ps[|ps| - 1].ctx == ts[|ts| - 1].ctx
    ensures forall v :: Outside(RoundsOf(g, files, k), v) ==> MirrorsOutcome(ts[|ts| - 1], ps[|ps| - 1], v, v)
  {
    hide Step, AllSuited, Outside, Nested;
    NestedGraph(cfg, RoundsOf(g, files, k));
    OriginalOfRounds(g, files, k);
    ps := NestedFollows(cfg, RoundsOf(g, files, k), ts, start, ctx);
  }
}
