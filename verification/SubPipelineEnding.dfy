// When inlining ends, and when it ends well: over all maps of files, cyclic or not.
module SubPipelineEnding {
  import opened Wrappers
  import opened Graphs
  import opened Composition
  import opened Confluence
  import opened SubPipelines
  import opened SubPipelineRuns

  // ----- Rankings and cycles -----

  // Some file of a cycle, directly or not, is referred to.
  ghost predicate RefersIntoCycle(ns: seq<GraphNode>, files: Files) {
    exists q: set<string> :: q <= files.Keys && Cyclic(files, q) && RefersInto(ns, q)
  }

  // No set of files within r refers into itself.
  ghost predicate Acyclic(files: Files, r: set<string>) {
    forall q: set<string> :: q <= r && q != {} ==> !Cyclic(files, q)
  }

  // The files of r only refer to members of r of smaller rank.
  ghost predicate RankedWithin(files: Files, r: set<string>, rank: string -> nat) {
    forall p, n :: p in r && p in files && n in files[p].nodes && RefersTo(n, r) ==>
      rank(PipelineOf(n).value) < rank(p)
  }

  // Peeling off a file that refers to nothing that remains ranks the rest.
  lemma {:induction false} RankAcyclic(files: Files, r: set<string>) returns (rank: string -> nat)
    requires r <= files.Keys && Acyclic(files, r)
    ensures RankedWithin(files, r, rank)
    decreases |r|
  {
    hide RankedWithin, RefersInto, Acyclic;
    if r == {} {
      rank := _ => 0;
      Unranked(files, rank);
    } else {
      var p := Sink(files, r);
      var rest := RankAcyclic(files, r - {p});
      rank := x => if x == p then 0 else rest(x) + 1;
      RankSink(files, r, p, rest, rank);
    }
  }

  lemma Unranked(files: Files, rank: string -> nat)
    ensures RankedWithin(files, {}, rank)
  {
  }

  lemma Sink(files: Files, r: set<string>) returns (p: string)
    requires r <= files.Keys && Acyclic(files, r) && r != {}
    ensures p in r && !RefersInto(files[p].nodes, r) && Acyclic(files, r - {p})
  {
    hide RefersInto;
    assert !Cyclic(files, r);
    p :| p in r && !RefersInto(files[p].nodes, r);
  }

  lemma RankSink(files: Files, r: set<string>, p: string, rest: string -> nat, rank: string -> nat)
    requires r <= files.Keys && p in r && !RefersInto(files[p].nodes, r) && RankedWithin(files, r - {p}, rest)
    requires forall x :: rank(x) == if x == p then 0 else rest(x) + 1
    ensures RankedWithin(files, r, rank)
  {
    forall x, n | x in r && x in files && n in files[x].nodes && RefersTo(n, r)
      ensures rank(PipelineOf(n).value) < rank(x)
    {
      if x != p && PipelineOf(n).value != p { assert RefersTo(n, r - {p}); }
    }
  }

  // References are acyclic exactly when the files can be ranked.
  lemma RankedIffAcyclic(files: Files)
    ensures (exists rank :: Ranked(files, rank)) <==> Acyclic(files, files.Keys)
  {
    if Acyclic(files, files.Keys) {
      var rank := RankAcyclic(files, files.Keys);
      assert forall n :: Refers(n, files) ==> RefersTo(n, files.Keys);
      assert Ranked(files, rank);
    }
    if exists rank :: Ranked(files, rank) {
      var rank :| Ranked(files, rank);
      forall q: set<string> | q <= files.Keys && q != {} ensures !Cyclic(files, q) {
        var p := LeastRanked(q, rank);
        assert Cyclic(files, q) ==> RefersInto(files[p].nodes, q);
      }
    }
  }

  lemma {:induction false} LeastRanked(q: set<string>, rank: string -> nat) returns (p: string)
    requires q != {}
    ensures p in q && forall x :: x in q ==> rank(p) <= rank(x)
    decreases |q|
  {
    p :| p in q;
    if q != {p} {
      var least := LeastRanked(q - {p}, rank);
      if rank(least) < rank(p) { p := least; }
    }
  }

  // All files on cycles or leading into one.
  ghost function Core(files: Files): set<string> {
    set p | p in files && exists q: set<string> :: q <= files.Keys && p in q && Cyclic(files, q)
  }

  lemma RefersMore(ns: seq<GraphNode>, q: set<string>, r: set<string>)
    requires q <= r && RefersInto(ns, q)
    ensures RefersInto(ns, r)
  {
    var n :| n in ns && RefersTo(n, q);
    assert RefersTo(n, r);
  }

  lemma InCore(files: Files, q: set<string>)
    requires q <= files.Keys && Cyclic(files, q)
    ensures q <= Core(files)
  {
  }

  lemma CoreIsCyclic(files: Files)
    ensures Core(files) <= files.Keys && Cyclic(files, Core(files))
  {
    hide RefersInto;
    forall p {:trigger files[p]} | p in Core(files) ensures RefersInto(files[p].nodes, Core(files)) {
      var q: set<string> :| q <= files.Keys && p in q && Cyclic(files, q);
      InCore(files, q);
      RefersMore(files[p].nodes, q, Core(files));
    }
  }

  lemma RefersIntoCore(files: Files, ns: seq<GraphNode>)
    ensures RefersIntoCycle(ns, files) <==> RefersInto(ns, Core(files))
  {
    hide Core, RefersInto, Cyclic;
    CoreIsCyclic(files);
    if RefersIntoCycle(ns, files) {
      var q: set<string> :| q <= files.Keys && Cyclic(files, q) && RefersInto(ns, q);
      InCore(files, q);
      RefersMore(ns, q, Core(files));
    }
  }

  // The files outside the core are acyclic and do not refer into it.
  lemma OutsideCore(files: Files)
    ensures Acyclic(files, files.Keys - Core(files))
    ensures forall p :: p in files && p !in Core(files) ==> !RefersInto(files[p].nodes, Core(files))
  {
    hide Core, RefersInto;
    var core := Core(files);
    CoreIsCyclic(files);
    forall q: set<string> | q <= files.Keys - core && q != {} ensures !Cyclic(files, q) {
      var p :| p in q;
      if Cyclic(files, q) { InCore(files, q); }
    }
    forall p | p in files && p !in core ensures !RefersInto(files[p].nodes, core) {
      if RefersInto(files[p].nodes, core) {
        forall x {:trigger files[x]} | x in core + {p} ensures RefersInto(files[x].nodes, core + {p}) {
          RefersMore(files[x].nodes, core, core + {p});
        }
        InCore(files, core + {p});
      }
    }
  }

  // ----- Ending -----

  // After k rounds the loop has ended, with an error or with nothing left to inline.
  ghost predicate Settled(g: Graph, files: Files, k: nat) {
    Iterate(g, files, k).Err? || NoSubPipeline(Iterate(g, files, k).value.nodes)
  }

  ghost predicate Ends(g: Graph, files: Files) {
    exists k: nat :: Settled(g, files, k)
  }

  ghost predicate Completes(g: Graph, files: Files) {
    exists k: nat :: Iterate(g, files, k).Ok? && NoSubPipeline(Iterate(g, files, k).value.nodes)
  }

  // Once settled, further rounds change nothing.
  lemma {:induction false} SettledStays(g: Graph, files: Files, j: nat, k: nat)
    requires Settled(g, files, j) && j <= k
    ensures Iterate(g, files, k) == Iterate(g, files, j)
    decreases j
  {
    FirstSubPipelineFound(g.nodes);
    if j > 0 && FirstSubPipeline(g.nodes).Some? {
      var n := FirstSubPipeline(g.nodes).value;
      if InlineOne(g, files, n).Ok? { SettledStays(InlineOne(g, files, n).value, files, j - 1, k - 1); }
    }
  }

  // Files that are never referred to play no part.
  lemma {:induction false} UnusedFiles(g: Graph, files: Files, unused: set<string>, k: nat)
    requires !RefersInto(g.nodes, unused)
    requires forall p :: p in files && p !in unused ==> !RefersInto(files[p].nodes, unused)
    ensures Iterate(g, files, k) == Iterate(g, files - unused, k)
    decreases k
  {
    FirstSubPipelineFound(g.nodes);
    if k > 0 && FirstSubPipeline(g.nodes).Some? {
      var n := FirstSubPipeline(g.nodes).value;
      if InlineOne(g, files, n).Ok? {
        StaysOutside(g, files, unused, n);
        UnusedFiles(InlineOne(g, files, n).value, files, unused, k - 1);
      }
    }
  }

  lemma StaysOutside(g: Graph, files: Files, unused: set<string>, n: GraphNode)
    requires !RefersInto(g.nodes, unused) && n in g.nodes && n.nodeType == SubPipeline
    requires forall p :: p in files && p !in unused ==> !RefersInto(files[p].nodes, unused)
    requires InlineOne(g, files, n).Ok?
    ensures !RefersInto(InlineOne(g, files, n).value.nodes, unused)
  {
    var f, h := files[PipelineOf(n).value], InlineOne(g, files, n).value;
    WithoutMembers(g.nodes, n.id);
    forall m | m in h.nodes ensures !RefersTo(m, unused) {
      if m !in g.nodes {
        var i :| 0 <= i < |f.nodes| && m == InlineNode(f.nodes[i], n.id);
        assert f.nodes[i] in f.nodes && PipelineOf(f.nodes[i]) == PipelineOf(m);
      }
    }
  }

  // Without a reference into a cycle the loop ends, whatever cycles other files form.
  lemma EndsWithoutCycle(g: Graph, files: Files)
    requires !RefersIntoCycle(g.nodes, files)
    ensures Ends(g, files)
  {
    var core := Core(files);
    RefersIntoCore(files, g.nodes);
    OutsideCore(files);
    var rank := RankAcyclic(files, files.Keys - core);
    assert forall n :: Refers(n, files - core) ==> RefersTo(n, files.Keys - core);
    assert Ranked(files - core, rank);
    var k := Weight(g.nodes, files - core, rank);
    IterateEnds(g, files - core, rank, k);
    UnusedFiles(g, files, core, k);
    assert Settled(g, files, k);
  }

  // Inlining completes exactly when nothing refers into a cycle of files and everything pulled in
  // can be loaded.
  lemma CompletesIff(g: Graph, files: Files)
    requires Addressed(g) && PlainFiles(files)
    ensures Completes(g, files) <==> Loadable(g.nodes, files) && !RefersIntoCycle(g.nodes, files)
  {
    hide Loadable, RefersInto, Cyclic, Iterate, Addressed, PlainFiles;
    if Completes(g, files) {
      var k: nat :| Iterate(g, files, k).Ok? && NoSubPipeline(Iterate(g, files, k).value.nodes);
      CompletedIsLoadable(g, files, k);
      if RefersIntoCycle(g.nodes, files) {
        var q: set<string> :| q <= files.Keys && Cyclic(files, q) && RefersInto(g.nodes, q);
        CyclesNeverFinish(g, files, q, k);
      }
    } else if Loadable(g.nodes, files) && !RefersIntoCycle(g.nodes, files) {
      EndsWithoutCycle(g, files);
      var k: nat :| Settled(g, files, k);
      LoadableNeverFails(g, files, k);
    }
  }

  // ----- Running without end -----

  // Rounds compose.
  lemma {:induction false} IterateAdd(g: Graph, files: Files, j: nat, k: nat)
    requires Iterate(g, files, j).Ok?
    ensures Iterate(g, files, j + k) == Iterate(Iterate(g, files, j).value, files, k)
    decreases j
  {
    if j > 0 && FirstSubPipeline(g.nodes).Some? {
      IterateAdd(InlineOne(g, files, FirstSubPipeline(g.nodes).value).value, files, j - 1, k);
    }
  }

  // The graph after k rounds of such a run.
  ghost function At(g: Graph, files: Files, k: nat): (h: Graph)
    requires !Ends(g, files)
    ensures Iterate(g, files, k) == Ok(h)
  {
    assert !Settled(g, files, k);
    Iterate(g, files, k).value
  }

  lemma OneMoreRound(g: Graph, files: Files, k: nat)
    requires !Ends(g, files)
    ensures var h := At(g, files, k);
            FirstSubPipeline(h.nodes).Some?
            && InlineOne(h, files, FirstSubPipeline(h.nodes).value).Ok?
            && InlineOne(h, files, FirstSubPipeline(h.nodes).value) == Ok(At(g, files, k + 1))
  {
    assert !Settled(g, files, k) && !Settled(g, files, k + 1);
    var h := Iterate(g, files, k).value;
    FirstSubPipelineFound(h.nodes);
    IterateAdd(g, files, k, 1);
    assert forall i :: Iterate(i, files, 0) == Ok(i);
  }

  // The file inlined by round k of a run that does not end.
  ghost function Inlines(g: Graph, files: Files, k: nat): string
    requires !Ends(g, files)
    ensures Inlines(g, files, k) in files && HasBoundary(files[Inlines(g, files, k)])
  {
    OneMoreRound(g, files, k);
    PipelineOf(FirstSubPipeline(At(g, files, k).nodes).value).value
  }

  // Every sub-pipeline node has its turn: the list is worked off from the front, and what a
  // round brings in goes to the back.
  lemma {:induction false} HasItsTurn(g: Graph, files: Files, k: nat, i: nat) returns (j: nat)
    requires !Ends(g, files) && Addressed(g) && PlainFiles(files)
    requires i < |At(g, files, k).nodes| && At(g, files, k).nodes[i].nodeType == SubPipeline
    ensures PipelineOf(At(g, files, k).nodes[i]) == Some(Inlines(g, files, j))
    decreases i
  {
    hide Addressed, PlainFiles, Ends, Iterate;
    OneMoreRound(g, files, k);
    var h := At(g, files, k);
    if FirstSubPipeline(h.nodes).value == h.nodes[i] {
      j := k;
    } else {
      MovesUp(g, files, k, i);
      j := HasItsTurn(g, files, k + 1, i - 1);
    }
  }

  lemma MovesUp(g: Graph, files: Files, k: nat, i: nat)
    requires !Ends(g, files) && Addressed(g) && PlainFiles(files)
    requires i < |At(g, files, k).nodes| && At(g, files, k).nodes[i].nodeType == SubPipeline
    requires FirstSubPipeline(At(g, files, k).nodes) != Some(At(g, files, k).nodes[i])
    ensures 0 < i <= |At(g, files, k + 1).nodes| && At(g, files, k + 1).nodes[i - 1] == At(g, files, k).nodes[i]
  {
    hide PlainFiles, PrefixFree, Inlined;
    var h := At(g, files, k);
    OneMoreRound(g, files, k);
    RoundsKeepIds(g, files, k);
    var p := FirstPosition(h.nodes, i);
    OneLess(h.nodes, p, i);
    AppendedNodes(h, files, FirstSubPipeline(h.nodes).value);
  }

  lemma AppendedNodes(g: Graph, files: Files, n: GraphNode)
    requires InlineOne(g, files, n).Ok?
    ensures Without(g.nodes, n.id) <= InlineOne(g, files, n).value.nodes
  {
  }

  // The first sub-pipeline node stands before every other one.
  lemma {:induction false} FirstPosition(ns: seq<GraphNode>, i: nat) returns (p: nat)
    requires i < |ns| && ns[i].nodeType == SubPipeline && FirstSubPipeline(ns) != Some(ns[i])
    ensures p < i && FirstSubPipeline(ns) == Some(ns[p])
  {
    if ns[0].nodeType == SubPipeline {
      p := 0;
    } else {
      var rest := FirstPosition(ns[1..], i - 1);
      p := rest + 1;
    }
  }

  lemma OneLess(ns: seq<GraphNode>, p: nat, i: nat)
    requires UniqueIds(ns) && p < i < |ns|
    ensures |Without(ns, ns[p].id)| == |ns| - 1 && Without(ns, ns[p].id)[i - 1] == ns[i]
  {
    var id := ns[p].id;
    assert ns == ns[..p] + ([ns[p]] + ns[p + 1..]);
    WithoutAppend(ns[..p], [ns[p]] + ns[p + 1..], id);
    WithoutAbsent(ns[..p], id);
    WithoutAbsent(ns[p + 1..], id);
    assert ([ns[p]] + ns[p + 1..])[1..] == ns[p + 1..];
    assert Without(ns, id) == ns[..p] + ns[p + 1..];
  }

  // A run without end never meets a file that cannot be loaded, so all that is ever referred to
  // can be loaded.
  lemma EndlessIsLoadable(g: Graph, files: Files)
    requires !Ends(g, files) && Addressed(g) && PlainFiles(files)
    ensures Loadable(g.nodes, files)
  {
    var q := set p | p in files && exists k: nat :: Inlines(g, files, k) == p;
    forall k: nat ensures Within(At(g, files, k).nodes, q) {
      var ns := At(g, files, k).nodes;
      forall n | n in ns && n.nodeType == SubPipeline ensures RefersTo(n, q) {
        var i :| 0 <= i < |ns| && ns[i] == n;
        var j := HasItsTurn(g, files, k, i);
      }
    }
    forall p | p in q ensures HasBoundary(files[p]) && Within(files[p].nodes, q) {
      var k: nat :| Inlines(g, files, k) == p;
      BroughtIn(g, files, k, q);
    }
    assert At(g, files, 0) == g;
    assert SelfContained(files, q) && Within(g.nodes, q);
  }

  lemma BroughtIn(g: Graph, files: Files, k: nat, q: set<string>)
    requires !Ends(g, files) && Within(At(g, files, k + 1).nodes, q)
    ensures Within(files[Inlines(g, files, k)].nodes, q)
  {
    OneMoreRound(g, files, k);
    var n := FirstSubPipeline(At(g, files, k).nodes).value;
    WithinInlined(files[PipelineOf(n).value].nodes, n.id, q);
  }

  // The loop runs without end exactly when something refers into a cycle of files and nothing
  // that is pulled in fails to load.
  lemma EndsIff(g: Graph, files: Files)
    requires Addressed(g) && PlainFiles(files)
    ensures Ends(g, files) <==> !(Loadable(g.nodes, files) && RefersIntoCycle(g.nodes, files))
  {
    hide Loadable, RefersIntoCycle, Iterate, Addressed, PlainFiles;
    if Ends(g, files) {
      var k: nat :| Settled(g, files, k);
      if Loadable(g.nodes, files) {
        LoadableNeverFails(g, files, k);
        CompletesIff(g, files);
      }
    } else {
      EndlessIsLoadable(g, files);
      if !RefersIntoCycle(g.nodes, files) { EndsWithoutCycle(g, files); }
    }
  }

  // A file that contains a node for itself.
  ghost predicate SelfReferring(f: Graph) {
    f.edges == []
    && f.nodes == [GraphNode("in", Start, None, map[]),
                   GraphNode("again", SubPipeline, None, map["pipeline" := Text("f")]),
                   GraphNode("out", Exit, None, map[])]
  }

  // Applied to itself, it runs without end.
  lemma SelfReferenceRunsForever(f: Graph)
    requires SelfReferring(f)
    ensures Source(f) && !Ends(f, map["f" := f])
  {
    hide SelfReferring, Source, Within, RefersInto, Ends, Loadable, HasBoundary;
    var files: Files := map["f" := f];
    SelfReferringNodes(f);
    SourceIsSound(f);
    assert Cyclic(files, {"f"}) && RefersIntoCycle(f.nodes, files);
    assert Loadable(f.nodes, files) by { LoadableBy(f.nodes, files, {"f"}); }
    assert Plain(f) by { SourceIsPlain(f); }
    EndsIff(f, files);
  }

  lemma SourceIsPlain(f: Graph)
    ensures Source(f) ==> Plain(f)
  {
  }

  lemma LoadableBy(ns: seq<GraphNode>, files: Files, q: set<string>)
    requires SelfContained(files, q) && Within(ns, q)
    ensures Loadable(ns, files)
  {
  }

  lemma SelfReferringNodes(f: Graph)
    requires SelfReferring(f)
    ensures Source(f) && HasBoundary(f) && RefersInto(f.nodes, {"f"}) && Within(f.nodes, {"f"})
  {
    OfTypeMembers(f.nodes, Start);
    OfTypeMembers(f.nodes, Exit);
    assert f.nodes[0] in OfType(f.nodes, Start) && f.nodes[2] in OfType(f.nodes, Exit);
    assert RefersTo(f.nodes[1], {"f"});
  }

  // ----- The loop -----

  // On every input on which the loop ends, it computes the iterated inlining.
  method Apply(graph: Graph, files: Files) returns (r: Result<Graph, CompositionError>)
    requires Ends(graph, files)
    ensures forall k: nat :: Settled(graph, files, k) ==> r == Iterate(graph, files, k)
    ensures r.Ok? ==> NoSubPipeline(r.value.nodes)
  {
    hide Compose;
    var current := graph;
    ghost var total: nat :| Settled(graph, files, total);
    ghost var left := total;
    forall k: nat | Settled(graph, files, k) ensures Iterate(graph, files, k) == Iterate(graph, files, total) {
      if k <= total { SettledStays(graph, files, k, total); } else { SettledStays(graph, files, total, k); }
    }
    while true
      invariant Settled(current, files, left)
      invariant Iterate(current, files, left) == Iterate(graph, files, total)
      decreases left
    {
      var subPipelineNode := FirstSubPipeline(current.nodes);
      FirstSubPipelineFound(current.nodes);
      if subPipelineNode.None? { break; }
      var node := subPipelineNode.value;
      var path := PipelineOf(node);
      if path.None? { return Err(MissingPipelineAttr(node.id)); }
      if path.value !in files { return Err(SubGraphNotFound(path.value)); }
      var composed := ComposeGraphs(current, files[path.value], node.id);
      if composed.Err? { return Err(composed.error); }
      current, left := composed.value, left - 1;
    }
    return Ok(current);
  }
}
