// What the whole transformation does to reachability.
module SubPipelineWalks {
  import opened Graphs
  import opened Strings
  import opened Composition
  import opened CompositionWalks
  import opened SubPipelines
  import opened SubPipelineRuns

  // Every file with a boundary can be crossed from its start to its exit.
  ghost predicate AllCrossed(files: Files) {
    forall p {:trigger files[p]} :: p in files && HasBoundary(files[p]) ==>
      Reaches(files[p], StartId(files[p]), ExitId(files[p]))
  }

  // An ordinary node, which no round replaces.
  ghost predicate Ordinary(g: Graph, a: string) {
    exists n :: n in g.nodes && n.id == a && n.nodeType != SubPipeline
  }

  // One round.
  lemma RoundKeepsReach(g: Graph, files: Files, n: GraphNode, a: string, b: string)
    requires Sources(files) && Sound(g) && AllCrossed(files) && Ordinary(g, a) && Ordinary(g, b)
    requires n in g.nodes && n.nodeType == SubPipeline && InlineOne(g, files, n).Ok?
    ensures var h := InlineOne(g, files, n).value;
            Ordinary(h, a) && Ordinary(h, b) && (Reaches(h, a, b) <==> Reaches(g, a, b))
  {
    var f := files[PipelineOf(n).value];
    StaysOrdinary(g, files, n, a);
    StaysOrdinary(g, files, n, b);
    assert IsNodeOf(g, n.id);
    SoundNothingBelow(g, n.id);
    ReachabilityPreserved(g, f, n.id, a, b);
  }

  lemma StaysOrdinary(g: Graph, files: Files, n: GraphNode, a: string)
    requires Addressed(g) && Ordinary(g, a)
    requires n in g.nodes && n.nodeType == SubPipeline && InlineOne(g, files, n).Ok?
    ensures Ordinary(InlineOne(g, files, n).value, a) && a != n.id && !Below(n.id, a)
  {
    var m :| m in g.nodes && m.id == a && m.nodeType != SubPipeline;
    if a == n.id { OnlyOne(g.nodes, m, n); }
    WithoutMembers(g.nodes, n.id);
    assert m in InlineOne(g, files, n).value.nodes;
  }

  // After any number of rounds, an ordinary node reaches exactly the ordinary nodes that it reached
  // at first.
  lemma {:induction false} RoundsKeepReach(g: Graph, files: Files, k: nat, a: string, b: string)
    requires Sources(files) && Sound(g) && AllCrossed(files) && Ordinary(g, a) && Ordinary(g, b)
    requires Iterate(g, files, k).Ok?
    ensures Reaches(Iterate(g, files, k).value, a, b) <==> Reaches(g, a, b)
    decreases k
  {
    hide InlineOne, Reaches, AllCrossed, Ordinary, Sources, Sound;
    FirstSubPipelineFound(g.nodes);
    if k > 0 && FirstSubPipeline(g.nodes).Some? {
      var n := FirstSubPipeline(g.nodes).value;
      RoundKeepsReach(g, files, n, a, b);
      RoundKeeps(g, files, n);
      RoundsKeepReach(InlineOne(g, files, n).value, files, k - 1, a, b);
    }
  }
}
