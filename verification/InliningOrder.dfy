// The order in which sub-pipeline nodes are inlined does not matter: all complete orders end in
// the same graph up to list order.
module InliningOrder {
  import opened Wrappers
  import opened Graphs
  import opened Composition
  import opened Confluence
  import opened SubPipelines
  import opened SubPipelineRuns
  import opened SubPipelineEnding

  ghost predicate CanInline(g: Graph, files: Files, id: string) {
    FindNode(g.nodes, id).Some? && FindNode(g.nodes, id).value.nodeType == SubPipeline
    && InlineOne(g, files, FindNode(g.nodes, id).value).Ok?
  }

  ghost function InlineAt(g: Graph, files: Files, id: string): Graph
    requires CanInline(g, files, id)
  {
    InlineOne(g, files, FindNode(g.nodes, id).value).value
  }

  // `ids` is a complete order: it can be followed and leaves no sub-pipeline node.
  ghost predicate CompleteOrder(g: Graph, files: Files, ids: seq<string>)
    decreases |ids|
  {
    if ids == [] then NoSubPipeline(g.nodes)
    else CanInline(g, files, ids[0]) && CompleteOrder(InlineAt(g, files, ids[0]), files, ids[1..])
  }

  ghost function Follow(g: Graph, files: Files, ids: seq<string>): Graph
    requires CompleteOrder(g, files, ids)
    decreases |ids|
  {
    if ids == [] then g else Follow(InlineAt(g, files, ids[0]), files, ids[1..])
  }

  // The situation in which orders are compared.
  ghost predicate Comparable(g: Graph, files: Files, rank: string -> nat) {
    Ranked(files, rank) && PlainFiles(files) && Addressed(g) && Loadable(g.nodes, files)
  }

  lemma FindNodeUnique(ns: seq<GraphNode>, n: GraphNode)
    requires UniqueIds(ns) && n in ns
    ensures FindNode(ns, n.id) == Some(n)
  {
    OnlyOne(ns, FindNode(ns, n.id).value, n);
  }

  lemma InlineAtKeeps(g: Graph, files: Files, rank: string -> nat, id: string)
    requires Comparable(g, files, rank) && CanInline(g, files, id)
    ensures Comparable(InlineAt(g, files, id), files, rank)
    ensures Weight(InlineAt(g, files, id).nodes, files, rank) == Weight(g.nodes, files, rank) - 1
  {
    var n := FindNode(g.nodes, id).value;
    RoundKeepsIds(g, files, n);
    RoundDrops(g, files, n, rank);
    RoundKeepsLoadable(g, files, n);
  }

  lemma PermutedNodes(g: Graph, h: Graph)
    requires Permuted(g, h)
    ensures forall n :: n in g.nodes <==> n in h.nodes
  {
    assert forall n :: n in multiset(g.nodes) <==> n in g.nodes;
    assert forall n :: n in multiset(h.nodes) <==> n in h.nodes;
  }

  lemma SameStep(g: Graph, h: Graph, files: Files, id: string)
    requires Permuted(g, h) && Addressed(g) && Addressed(h) && CanInline(g, files, id)
    ensures CanInline(h, files, id) && Permuted(InlineAt(g, files, id), InlineAt(h, files, id))
  {
    var n := FindNode(g.nodes, id).value;
    PermutedNodes(g, h);
    FindNodeUnique(h.nodes, n);
    InliningRespectsPermutation(g, h, files[PipelineOf(n).value], id);
  }

  // Another sub-pipeline node is still there, and can still be inlined, after a step.
  lemma StillThere(g: Graph, files: Files, a: string, b: string)
    requires Addressed(g) && PlainFiles(files) && CanInline(g, files, a) && CanInline(g, files, b) && a != b
    ensures CanInline(InlineAt(g, files, a), files, b)
    ensures FindNode(InlineAt(g, files, a).nodes, b) == FindNode(g.nodes, b)
  {
    hide Plain, PrefixFree, RewiredEdges;
    var m, n := FindNode(g.nodes, a).value, FindNode(g.nodes, b).value;
    WithoutMembers(g.nodes, a);
    RoundKeepsIds(g, files, m);
    FindNodeUnique(InlineAt(g, files, a).nodes, n);
  }

  lemma Diamond(g: Graph, files: Files, a: string, b: string)
    requires Addressed(g) && PlainFiles(files) && CanInline(g, files, a) && CanInline(g, files, b) && a != b
    ensures CanInline(InlineAt(g, files, a), files, b) && CanInline(InlineAt(g, files, b), files, a)
    ensures Permuted(InlineAt(InlineAt(g, files, a), files, b), InlineAt(InlineAt(g, files, b), files, a))
  {
    StillThere(g, files, a, b);
    StillThere(g, files, b, a);
    var m, n := FindNode(g.nodes, a).value, FindNode(g.nodes, b).value;
    InliningsCommute(g, files[PipelineOf(m).value], a, files[PipelineOf(n).value], b);
  }

  lemma FirstStep(g: Graph, files: Files, rank: string -> nat) returns (id: string)
    requires Comparable(g, files, rank) && !NoSubPipeline(g.nodes)
    ensures CanInline(g, files, id) && Weight(g.nodes, files, rank) > 0
    ensures Iterate(g, files, Weight(g.nodes, files, rank))
            == Iterate(InlineAt(g, files, id), files, Weight(g.nodes, files, rank) - 1)
  {
    hide InlineOne, Weight, Loadable, Ranked, PlainFiles;
    FirstSubPipelineFound(g.nodes);
    WeightlessIffDone(g.nodes, files, rank);
    var n := FirstSubPipeline(g.nodes).value;
    id := n.id;
    LoadableInlines(g, files, n);
    FindNodeUnique(g.nodes, n);
  }

  lemma NothingToDo(g: Graph, files: Files, rank: string -> nat)
    requires Comparable(g, files, rank) && NoSubPipeline(g.nodes)
    ensures CompleteOrder(g, files, []) && Follow(g, files, []) == g
    ensures Iterate(g, files, Weight(g.nodes, files, rank)) == Ok(g)
  {
    FirstSubPipelineFound(g.nodes);
  }

  lemma OneMore(g: Graph, files: Files, id: string, rest: seq<string>)
    requires CanInline(g, files, id) && CompleteOrder(InlineAt(g, files, id), files, rest)
    ensures CompleteOrder(g, files, [id] + rest)
    ensures Follow(g, files, [id] + rest) == Follow(InlineAt(g, files, id), files, rest)
  {
    hide InlineAt, CanInline;
    assert ([id] + rest)[0] == id && ([id] + rest)[1..] == rest;
  }

  // The order of the library: always the first sub-pipeline node.
  lemma {:induction false} FirstOrder(g: Graph, files: Files, rank: string -> nat) returns (ids: seq<string>)
    requires Comparable(g, files, rank)
    ensures CompleteOrder(g, files, ids)
    ensures Iterate(g, files, Weight(g.nodes, files, rank)) == Ok(Follow(g, files, ids))
    decreases Weight(g.nodes, files, rank)
  {
    hide *;
    ids := [];
    if NoSubPipeline(g.nodes) {
      NothingToDo(g, files, rank);
    } else {
      var id := FirstStep(g, files, rank);
      InlineAtKeeps(g, files, rank, id);
      var rest := FirstOrder(InlineAt(g, files, id), files, rank);
      ids := [id] + rest;
      OneMore(g, files, id, rest);
    }
  }

  // Under acyclic references, any two complete orders, from graphs that differ in list order only,
  // end in graphs that differ in list order only.
  lemma {:induction false} RankedOrdersAgree(g: Graph, h: Graph, files: Files, rank: string -> nat,
                                             s: seq<string>, t: seq<string>)
    requires Comparable(g, files, rank) && Comparable(h, files, rank) && Permuted(g, h)
    requires CompleteOrder(g, files, s) && CompleteOrder(h, files, t)
    ensures Permuted(Follow(g, files, s), Follow(h, files, t))
    decreases Weight(g.nodes, files, rank)
  {
    PermutedNodes(g, h);
    if s != [] && t != [] {
      SameStep(g, h, files, s[0]);
      InlineAtKeeps(g, files, rank, s[0]);
      InlineAtKeeps(h, files, rank, s[0]);
      if s[0] == t[0] {
        RankedOrdersAgree(InlineAt(g, files, s[0]), InlineAt(h, files, t[0]), files, rank, s[1..], t[1..]);
      } else {
        OrdersMeet(g, h, files, rank, s, t);
      }
    }
  }

  lemma {:induction false} OrdersMeet(g: Graph, h: Graph, files: Files, rank: string -> nat,
                                      s: seq<string>, t: seq<string>)
    requires Comparable(g, files, rank) && Comparable(h, files, rank) && Permuted(g, h)
    requires CompleteOrder(g, files, s) && CompleteOrder(h, files, t)
    requires s != [] && t != [] && s[0] != t[0] && CanInline(h, files, s[0])
    ensures Permuted(Follow(g, files, s), Follow(h, files, t))
    decreases Weight(g.nodes, files, rank), 0
  {
    hide Addressed, PlainFiles, Plain, Ranked, CanInline, InlineAt, Weight, Loadable;
    var a, b := s[0], t[0];
    SameStep(g, h, files, a);
    Diamond(h, files, a, b);
    InlineAtKeeps(g, files, rank, a);
    InlineAtKeeps(h, files, rank, a);
    InlineAtKeeps(h, files, rank, b);
    var ga, ha, hb := InlineAt(g, files, a), InlineAt(h, files, a), InlineAt(h, files, b);
    InlineAtKeeps(ha, files, rank, b);
    InlineAtKeeps(hb, files, rank, a);
    var c, d := InlineAt(ha, files, b), InlineAt(hb, files, a);
    var u := FirstOrder(c, files, rank);
    var v := FirstOrder(d, files, rank);
    assert ([b] + u)[1..] == u && ([a] + v)[1..] == v;
    SameWeight(g, h, files, rank);
    RankedOrdersAgree(ga, ha, files, rank, s[1..], [b] + u);
    RankedOrdersAgree(c, d, files, rank, u, v);
    RankedOrdersAgree(hb, hb, files, rank, [a] + v, t[1..]);
  }

  lemma SameWeight(g: Graph, h: Graph, files: Files, rank: string -> nat)
    requires Permuted(g, h) && Ranked(files, rank)
    ensures Weight(g.nodes, files, rank) == Weight(h.nodes, files, rank)
  {
    WeightPermutes(g.nodes, h.nodes, files, rank);
  }

  lemma {:induction false} WeightPermutes(a: seq<GraphNode>, b: seq<GraphNode>, files: Files, rank: string -> nat)
    requires multiset(a) == multiset(b) && Ranked(files, rank)
    ensures Weight(a, files, rank) == Weight(b, files, rank)
  {
    hide Ranked, Weight, NodeWeight;
    if a == [] {
      assert |multiset(b)| == 0;
    } else {
      var n, rest := a[0], a[1..];
      assert a == [n] + rest;
      assert n in multiset(b);
      var i :| 0 <= i < |b| && b[i] == n;
      var before, after := b[..i], b[i + 1..];
      assert b == before + ([n] + after);
      RemoveOne(rest, before, n, after);
      WeightPermutes(rest, before + after, files, rank);
      WeightAppend([n], rest, files, rank);
      WeightAppend([n], after, files, rank);
      WeightAppend(before, [n] + after, files, rank);
      WeightAppend(before, after, files, rank);
    }
  }

  // ----- Over all maps of files -----

  // Where a complete order exists everything can be loaded, and nothing refers into a cycle.
  lemma {:induction false} OrderLoads(g: Graph, files: Files, ids: seq<string>)
    requires Addressed(g) && PlainFiles(files) && CompleteOrder(g, files, ids)
    ensures Loadable(g.nodes, files)
    decreases |ids|
  {
    hide Addressed, PlainFiles;
    if ids == [] {
      assert SelfContained(files, {}) && Within(g.nodes, {});
    } else {
      var n := FindNode(g.nodes, ids[0]).value;
      RoundKeepsIds(g, files, n);
      OrderLoads(InlineAt(g, files, ids[0]), files, ids[1..]);
      AddressedIsUnique(g);
      RoundKeepsLoadable(g, files, n);
    }
  }

  lemma {:induction false} OrderAvoids(g: Graph, files: Files, q: set<string>, ids: seq<string>)
    requires Addressed(g) && PlainFiles(files) && CompleteOrder(g, files, ids) && Cyclic(files, q)
    ensures !RefersInto(g.nodes, q)
    decreases |ids|
  {
    hide Addressed, PlainFiles, Cyclic;
    if ids != [] {
      var n := FindNode(g.nodes, ids[0]).value;
      RoundKeepsIds(g, files, n);
      OrderAvoids(InlineAt(g, files, ids[0]), files, q, ids[1..]);
      AddressedIsUnique(g);
      if RefersInto(g.nodes, q) { CycleStays(g, files, n, q); }
    }
  }

  // Files that are never referred to play no part in an order.
  lemma {:induction false} OrderUnused(g: Graph, files: Files, unused: set<string>, ids: seq<string>)
    requires CompleteOrder(g, files, ids) && !RefersInto(g.nodes, unused)
    requires forall p :: p in files && p !in unused ==> !RefersInto(files[p].nodes, unused)
    ensures CompleteOrder(g, files - unused, ids) && Follow(g, files - unused, ids) == Follow(g, files, ids)
    decreases |ids|
  {
    if ids != [] {
      var n := FindNode(g.nodes, ids[0]).value;
      StaysOutside(g, files, unused, n);
      OrderUnused(InlineAt(g, files, ids[0]), files, unused, ids[1..]);
    }
  }

  // Without the files on cycles, the orders are compared under a ranking.
  lemma OrderRanked(g: Graph, files: Files, ids: seq<string>, rank: string -> nat)
    requires Addressed(g) && PlainFiles(files) && CompleteOrder(g, files, ids)
    requires Ranked(files - Core(files), rank)
    ensures Comparable(g, files - Core(files), rank)
    ensures CompleteOrder(g, files - Core(files), ids) && Follow(g, files - Core(files), ids) == Follow(g, files, ids)
    ensures !RefersInto(g.nodes, Core(files))
  {
    hide Core, Ranked, Addressed, Cyclic, RefersInto, Loadable, CompleteOrder, Follow;
    CoreIsCyclic(files);
    OutsideCore(files);
    OrderAvoids(g, files, Core(files), ids);
    OrderUnused(g, files, Core(files), ids);
    OrderLoads(g, files - Core(files), ids);
  }

  lemma RankOutsideCore(files: Files) returns (rank: string -> nat)
    ensures Ranked(files - Core(files), rank)
  {
    var core := Core(files);
    OutsideCore(files);
    rank := RankAcyclic(files, files.Keys - core);
    assert forall n :: Refers(n, files - core) ==> RefersTo(n, files.Keys - core);
  }

  // Any two complete orders, from graphs that differ in list order only, end in graphs that differ
  // in list order only, whatever cycles other files form.
  lemma OrdersAgree(g: Graph, h: Graph, files: Files, s: seq<string>, t: seq<string>)
    requires Addressed(g) && Addressed(h) && PlainFiles(files) && Permuted(g, h)
    requires CompleteOrder(g, files, s) && CompleteOrder(h, files, t)
    ensures Permuted(Follow(g, files, s), Follow(h, files, t))
  {
    hide Core, Ranked, Comparable, Addressed, PlainFiles, CompleteOrder, Follow, Permuted;
    var rank := RankOutsideCore(files);
    OrderRanked(g, files, s, rank);
    OrderRanked(h, files, t, rank);
    RankedOrdersAgree(g, h, files - Core(files), rank, s, t);
  }

  // The result of the transformation is the result of every complete order: where one exists the
  // loop ends, and in the same graph up to list order.
  lemma ApplyIsCanonical(g: Graph, files: Files, ids: seq<string>)
    requires Addressed(g) && PlainFiles(files) && CompleteOrder(g, files, ids)
    ensures Ends(g, files)
    ensures forall k: nat :: Settled(g, files, k) ==>
              Iterate(g, files, k).Ok? && Permuted(Follow(g, files, ids), Iterate(g, files, k).value)
  {
    hide Ranked, Addressed, PlainFiles, CompleteOrder, Follow, Permuted, RefersInto;
    var rank := RankOutsideCore(files);
    OrderRanked(g, files, ids, rank);
    OutsideCore(files);
    var rest := files - Core(files);
    hide Core;
    var first := FirstOrder(g, rest, rank);
    RankedOrdersAgree(g, g, rest, rank, ids, first);
    var w := Weight(g.nodes, rest, rank);
    UnusedFiles(g, files, Core(files), w);
    IterateEnds(g, rest, rank, w);
    assert Settled(g, files, w);
    forall k: nat | Settled(g, files, k) ensures Iterate(g, files, k) == Iterate(g, files, w) {
      if k <= w { SettledStays(g, files, k, w); } else { SettledStays(g, files, w, k); }
    }
  }
}
