// Inlining every sub-pipeline node, over a finite map from pipeline path to resolved graph.
module SubPipelines {
  import opened Wrappers
  import opened Graphs
  import opened Composition
  import opened Confluence

  type Files = map<string, Graph>

  function PipelineOf(n: GraphNode): Option<string> {
    if "pipeline" in n.attrs && n.attrs["pipeline"].Text? then Some(n.attrs["pipeline"].text) else None
  }

  function FirstSubPipeline(ns: seq<GraphNode>): Option<GraphNode> {
    if ns == [] then None
    else if ns[0].nodeType == SubPipeline then Some(ns[0])
    else FirstSubPipeline(ns[1..])
  }

  predicate NoSubPipeline(ns: seq<GraphNode>) {
    forall n :: n in ns ==> n.nodeType != SubPipeline
  }

  lemma {:induction false} FirstSubPipelineFound(ns: seq<GraphNode>)
    ensures FirstSubPipeline(ns).None? <==> NoSubPipeline(ns)
    ensures FirstSubPipeline(ns).Some? ==>
              FirstSubPipeline(ns).value in ns && FirstSubPipeline(ns).value.nodeType == SubPipeline
  {
    if ns != [] {
      assert ns == [ns[0]] + ns[1..];
      FirstSubPipelineFound(ns[1..]);
    }
  }

  // One round: replace one sub-pipeline node.
  function InlineOne(g: Graph, files: Files, n: GraphNode): Result<Graph, CompositionError> {
    match PipelineOf(n)
    case None => Err(MissingPipelineAttr(n.id))
    case Some(p) => if p !in files then Err(SubGraphNotFound(p)) else Compose(g, files[p], n.id)
  }

  // The first k rounds; a graph without sub-pipeline nodes is left alone.
  function Iterate(g: Graph, files: Files, k: nat): Result<Graph, CompositionError>
    decreases k
  {
    if k == 0 || FirstSubPipeline(g.nodes).None? then Ok(g)
    else match InlineOne(g, files, FirstSubPipeline(g.nodes).value)
      case Err(e) => Err(e)
      case Ok(h) => Iterate(h, files, k - 1)
  }

  ghost predicate HasType(g: Graph, t: NodeType) {
    exists n :: n in g.nodes && n.nodeType == t
  }

  // What a round does: it takes the first sub-pipeline node and inlines the file that its `pipeline`
  // attribute names, which has to be a text, the path of a file, and that of one with a start and an
  // exit node.
  lemma RoundMeans(g: Graph, files: Files, i: nat)
    requires i < |g.nodes| && g.nodes[i].nodeType == SubPipeline
    requires forall j :: 0 <= j < i ==> g.nodes[j].nodeType != SubPipeline
    ensures var n, r := g.nodes[i], Iterate(g, files, 1);
            ("pipeline" !in n.attrs || !n.attrs["pipeline"].Text? ==> r == Err(MissingPipelineAttr(n.id)))
            && forall p :: "pipeline" in n.attrs && n.attrs["pipeline"] == Text(p) ==>
                 (p !in files ==> r == Err(SubGraphNotFound(p)))
                 && (p in files && !HasType(files[p], Start) ==> r == Err(NoStartNode(n.id)))
                 && (p in files && HasType(files[p], Start) && !HasType(files[p], Exit) ==> r == Err(NoExitNode(n.id)))
                 && (p in files && HasType(files[p], Start) && HasType(files[p], Exit) ==>
                       r.Ok? && KeepsNodes(g, files[p], n.id, r.value) && KeepsEdges(files[p], n.id, r.value)
                       && KeepsGraph(g, r.value))
  {
    hide KeepsNodes, KeepsEdges, KeepsGraph, Inlined;
    FirstAt(g.nodes, i);
    var n := g.nodes[i];
    assert Iterate(g, files, 1) == InlineOne(g, files, n);
    if PipelineOf(n).Some? && PipelineOf(n).value in files {
      var sub := files[PipelineOf(n).value];
      OfTypeMembers(sub.nodes, Start);
      OfTypeMembers(sub.nodes, Exit);
      assert forall t :: OfType(sub.nodes, t) != [] ==> OfType(sub.nodes, t)[0] in OfType(sub.nodes, t);
      if HasBoundary(sub) { ComposingKeeps(g, sub, n.id); }
    }
  }

  lemma {:induction false} FirstAt(ns: seq<GraphNode>, i: nat)
    requires i < |ns| && ns[i].nodeType == SubPipeline
    requires forall j :: 0 <= j < i ==> ns[j].nodeType != SubPipeline
    ensures FirstSubPipeline(ns) == Some(ns[i])
  {
    if i > 0 { FirstAt(ns[1..], i - 1); }
  }

  // Without a sub-pipeline node the loop is over; otherwise another round is one round more.
  lemma {:induction false} RoundsRepeat(g: Graph, files: Files, k: nat)
    ensures (forall n :: n in g.nodes ==> n.nodeType != SubPipeline) ==> Iterate(g, files, k) == Ok(g)
    ensures Iterate(g, files, k + 1) ==
            match Iterate(g, files, k) case Err(e) => Err(e) case Ok(h) => Iterate(h, files, 1)
    decreases k
  {
    FirstSubPipelineFound(g.nodes);
    hide InlineOne;
    if k > 0 && FirstSubPipeline(g.nodes).Some? {
      var r := InlineOne(g, files, FirstSubPipeline(g.nodes).value);
      if r.Ok? { RoundsRepeat(r.value, files, k - 1); }
    }
  }

  // ----- The weight of a graph under acyclic references -----

  predicate Refers(n: GraphNode, files: Files) {
    n.nodeType == SubPipeline && PipelineOf(n).Some? && PipelineOf(n).value in files
  }

  // File references are acyclic: each file only refers to files of smaller rank.
  ghost predicate Ranked(files: Files, rank: string -> nat) {
    forall p, n :: p in files && n in files[p].nodes && Refers(n, files) ==> rank(PipelineOf(n).value) < rank(p)
  }

  ghost function NodeCeiling(n: GraphNode, files: Files, rank: string -> nat): nat {
    if Refers(n, files) then rank(PipelineOf(n).value) + 1 else 0
  }

  ghost function Ceiling(ns: seq<GraphNode>, files: Files, rank: string -> nat): nat {
    if ns == [] then 0
    else if NodeCeiling(ns[0], files, rank) > Ceiling(ns[1..], files, rank) then NodeCeiling(ns[0], files, rank)
    else Ceiling(ns[1..], files, rank)
  }

  lemma {:induction false} CeilingBounded(ns: seq<GraphNode>, files: Files, rank: string -> nat, b: nat)
    requires forall n :: n in ns ==> NodeCeiling(n, files, rank) <= b
    ensures Ceiling(ns, files, rank) <= b
  {
    if ns != [] {
      assert ns[0] in ns && forall n :: n in ns[1..] ==> n in ns;
      CeilingBounded(ns[1..], files, rank, b);
    }
  }

  lemma FileCeiling(files: Files, rank: string -> nat, p: string)
    requires Ranked(files, rank) && p in files
    ensures Ceiling(files[p].nodes, files, rank) <= rank(p)
  {
    CeilingBounded(files[p].nodes, files, rank, rank(p));
  }

  // One round for the node itself, and the rounds for the nodes it brings in.
  ghost function NodeWeight(n: GraphNode, files: Files, rank: string -> nat): nat
    requires Ranked(files, rank)
    decreases NodeCeiling(n, files, rank), 0
  {
    if n.nodeType != SubPipeline then 0
    else if !Refers(n, files) then 1
    else
      FileCeiling(files, rank, PipelineOf(n).value);
      1 + Weight(files[PipelineOf(n).value].nodes, files, rank)
  }

  ghost function Weight(ns: seq<GraphNode>, files: Files, rank: string -> nat): nat
    requires Ranked(files, rank)
    decreases Ceiling(ns, files, rank), |ns|
  {
    if ns == [] then 0 else NodeWeight(ns[0], files, rank) + Weight(ns[1..], files, rank)
  }

  lemma {:induction false} WeightAppend(a: seq<GraphNode>, b: seq<GraphNode>, files: Files, rank: string -> nat)
    requires Ranked(files, rank)
    ensures Weight(a + b, files, rank) == Weight(a, files, rank) + Weight(b, files, rank)
  {
    if a == [] {
      assert a + b == b;
    } else {
      assert (a + b)[1..] == a[1..] + b;
      WeightAppend(a[1..], b, files, rank);
    }
  }

  lemma {:induction false} WeightInlined(ns: seq<GraphNode>, id: string, files: Files, rank: string -> nat)
    requires Ranked(files, rank)
    ensures Weight(InlineNodes(ns, id), files, rank) == Weight(ns, files, rank)
  {
    if ns != [] {
      WeightInlined(ns[1..], id, files, rank);
      assert InlineNodes(ns, id)[1..] == InlineNodes(ns[1..], id);
      assert InlineNodes(ns, id)[0] == InlineNode(ns[0], id);
      NodeWeightInlined(ns[0], id, files, rank);
    }
  }

  lemma NodeWeightInlined(n: GraphNode, id: string, files: Files, rank: string -> nat)
    requires Ranked(files, rank)
    ensures NodeWeight(InlineNode(n, id), files, rank) == NodeWeight(n, files, rank)
  {
    assert PipelineOf(InlineNode(n, id)) == PipelineOf(n);
  }

  lemma {:induction false} WeightWithout(ns: seq<GraphNode>, n: GraphNode, files: Files, rank: string -> nat)
    requires Ranked(files, rank) && n in ns
    ensures Weight(Without(ns, n.id), files, rank) + NodeWeight(n, files, rank) <= Weight(ns, files, rank)
    ensures UniqueIds(ns) ==>
              Weight(Without(ns, n.id), files, rank) + NodeWeight(n, files, rank) == Weight(ns, files, rank)
  {
    if n in ns[1..] {
      WeightWithout(ns[1..], n, files, rank);
    } else {
      WeightWithoutAtMost(ns[1..], n.id, files, rank);
      if UniqueIds(ns) { WithoutAbsent(ns[1..], n.id); }
    }
  }

  lemma {:induction false} WeightWithoutAtMost(ns: seq<GraphNode>, id: string, files: Files, rank: string -> nat)
    requires Ranked(files, rank)
    ensures Weight(Without(ns, id), files, rank) <= Weight(ns, files, rank)
  {
    if ns != [] { WeightWithoutAtMost(ns[1..], id, files, rank); }
  }

  // A round lowers the weight, and by exactly one when identifiers are unique.
  lemma RoundDrops(g: Graph, files: Files, n: GraphNode, rank: string -> nat)
    requires Ranked(files, rank) && n in g.nodes && n.nodeType == SubPipeline
    requires InlineOne(g, files, n).Ok?
    ensures Weight(InlineOne(g, files, n).value.nodes, files, rank) < Weight(g.nodes, files, rank)
    ensures UniqueIds(g.nodes) ==>
              Weight(InlineOne(g, files, n).value.nodes, files, rank) == Weight(g.nodes, files, rank) - 1
  {
    var f := files[PipelineOf(n).value];
    WeightWithout(g.nodes, n, files, rank);
    WeightAppend(Without(g.nodes, n.id), InlineNodes(f.nodes, n.id), files, rank);
    WeightInlined(f.nodes, n.id, files, rank);
  }

  function CountSubPipelines(ns: seq<GraphNode>): nat {
    if ns == [] then 0 else (if ns[0].nodeType == SubPipeline then 1 else 0) + CountSubPipelines(ns[1..])
  }

  // When no file contains sub-pipeline nodes, every ranking will do, and there is one round for
  // each sub-pipeline node of the graph.
  lemma {:induction false} FlatFilesTakeOneRoundEach(ns: seq<GraphNode>, files: Files, rank: string -> nat)
    requires forall p :: p in files ==> NoSubPipeline(files[p].nodes)
    requires forall n :: n in ns && n.nodeType == SubPipeline ==> Refers(n, files)
    ensures Ranked(files, rank) && Weight(ns, files, rank) == CountSubPipelines(ns)
  {
    if ns != [] {
      assert ns[0] in ns && forall n :: n in ns[1..] ==> n in ns;
      FlatFilesTakeOneRoundEach(ns[1..], files, rank);
      if ns[0].nodeType == SubPipeline { FlatIsWeightless(files[PipelineOf(ns[0]).value].nodes, files, rank); }
    }
  }

  lemma {:induction false} FlatIsWeightless(ns: seq<GraphNode>, files: Files, rank: string -> nat)
    requires Ranked(files, rank) && NoSubPipeline(ns)
    ensures Weight(ns, files, rank) == 0
  {
    if ns != [] {
      assert ns[0] in ns && forall n :: n in ns[1..] ==> n in ns;
      FlatIsWeightless(ns[1..], files, rank);
    }
  }

  // Under acyclic references the loop ends, with an error or without sub-pipeline nodes.
  lemma {:induction false} IterateEnds(g: Graph, files: Files, rank: string -> nat, k: nat)
    requires Ranked(files, rank) && k >= Weight(g.nodes, files, rank)
    ensures Iterate(g, files, k).Ok? ==> NoSubPipeline(Iterate(g, files, k).value.nodes)
    decreases k
  {
    FirstSubPipelineFound(g.nodes);
    if FirstSubPipeline(g.nodes).Some? {
      var n := FirstSubPipeline(g.nodes).value;
      WeightWithout(g.nodes, n, files, rank);
      if InlineOne(g, files, n).Ok? {
        RoundDrops(g, files, n, rank);
        IterateEnds(InlineOne(g, files, n).value, files, rank, k - 1);
      }
    }
  }
}
