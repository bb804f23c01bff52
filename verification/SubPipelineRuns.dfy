// What every round of inlining keeps, when inlining succeeds, and why the order of rounds is
// irrelevant.
module SubPipelineRuns {
  import opened Wrappers
  import opened Graphs
  import opened Strings
  import opened Composition
  import opened Confluence
  import opened SubPipelines

  ghost predicate PrefixFree(ns: seq<GraphNode>) {
    forall m, n :: m in ns && n in ns ==> !Below(m.id, n.id)
  }

  ghost predicate NoSubPipelineLoops(g: Graph) {
    forall n :: n in g.nodes && n.nodeType == SubPipeline ==> NoSelfLoop(g.edges, n.id)
  }

  // What the identifiers keep between rounds.
  ghost predicate Addressed(g: Graph) {
    UniqueIds(g.nodes) && PrefixFree(g.nodes)
  }

  // What everything keeps between rounds.
  ghost predicate Sound(g: Graph) {
    Addressed(g) && Closed(g) && NoSubPipelineLoops(g)
  }

  // What is asked of the identifiers of a loaded graph.
  ghost predicate Plain(f: Graph) {
    UniqueIds(f.nodes) && forall n :: n in f.nodes ==> DotFree(n.id)
  }

  ghost predicate Source(f: Graph) {
    Plain(f) && Closed(f) && NoSubPipelineLoops(f)
  }

  ghost predicate PlainFiles(files: Files) {
    forall p :: p in files ==> Plain(files[p])
  }

  ghost predicate Sources(files: Files) {
    forall p :: p in files ==> Source(files[p])
  }

  lemma SourceIsSound(f: Graph)
    ensures Plain(f) ==> Addressed(f)
    ensures Source(f) ==> Sound(f)
  {
    forall m, n | Plain(f) && m in f.nodes && n in f.nodes ensures !Below(m.id, n.id) {
      DotFreeNotBelow(m.id, n.id);
    }
  }

  lemma DotFreeNotBelow(a: string, b: string)
    requires DotFree(b)
    ensures !Below(a, b)
  {
    assert '.' in a + "." by { assert (a + ".")[|a|] == '.'; }
    assert a + "." <= b ==> forall c :: c in a + "." ==> c in b;
  }

  // ----- Identifiers -----

  lemma {:induction false} UniqueIdsCons(n: GraphNode, ns: seq<GraphNode>)
    ensures UniqueIds([n] + ns) <==> UniqueIds(ns) && forall m :: m in ns ==> m.id != n.id
  {
    var all := [n] + ns;
    if UniqueIds(all) {
      forall i, j | 0 <= i < j < |ns| ensures ns[i].id != ns[j].id {
        assert all[i + 1].id != all[j + 1].id;
      }
      forall m | m in ns ensures m.id != n.id {
        var j :| 0 <= j < |ns| && ns[j] == m;
        assert all[0].id != all[j + 1].id;
      }
    }
  }

  lemma {:induction false} WithoutUnique(ns: seq<GraphNode>, id: string)
    requires UniqueIds(ns)
    ensures UniqueIds(Without(ns, id))
  {
    if ns != [] {
      assert ns == [ns[0]] + ns[1..];
      UniqueIdsCons(ns[0], ns[1..]);
      WithoutUnique(ns[1..], id);
      WithoutMembers(ns[1..], id);
      UniqueIdsCons(ns[0], Without(ns[1..], id));
    }
  }

  // Inlining a dot-free graph below `id` meets neither the other identifiers nor their dotted
  // extensions.
  lemma InlinedIdApart(id: string, x: string, other: string)
    requires DotFree(x) && Apart(id, other)
    ensures PrefixId(id, x) != other && !Below(PrefixId(id, x), other) && !Below(other, PrefixId(id, x))
  {
    var y := PrefixId(id, x);
    StripPrefixId(id, x, other);
    assert y[..|id|] == id && y[|id|] == '.' && forall i :: |id| < i < |y| ==> y[i] == x[i - |id| - 1];
    assert y[..|id| + 1] == id + ".";
    assert y + "." <= other ==> id + "." <= other;
    assert |other| < |id| ==> id[..|other| + 1] == y[..|other| + 1];
    assert |other| < |y| && y[|other|] == '.' ==> |other| <= |id|;
  }

  lemma InlinedIdsApart(id: string, x: string, y: string)
    requires DotFree(x) && DotFree(y)
    ensures !Below(PrefixId(id, x), PrefixId(id, y))
  {
    var a, b := PrefixId(id, x), PrefixId(id, y);
    DotFreeNotBelow(x, y);
    assert a + "." == (id + ".") + (x + ".") && b == (id + ".") + y;
    CommonPrefix(id + ".", x + ".", y);
  }

  lemma CommonPrefix(p: string, a: string, b: string)
    ensures p + a <= p + b <==> a <= b
  {
    assert (p + a)[|p|..] == a && (p + b)[|p|..] == b;
  }

  lemma InlinedUnique(g: Graph, f: Graph, id: string)
    requires Addressed(g) && Plain(f) && HasBoundary(f) && IsNodeOf(g, id)
    ensures Addressed(Inlined(g, f, id))
  {
    var a, b := Without(g.nodes, id), InlineNodes(f.nodes, id);
    WithoutUnique(g.nodes, id);
    WithoutMembers(g.nodes, id);
    forall n, k | n in a && 0 <= k < |b|
      ensures b[k].id != n.id && !Below(b[k].id, n.id) && !Below(n.id, b[k].id)
    {
      assert f.nodes[k] in f.nodes;
      InlinedIdApart(id, f.nodes[k].id, n.id);
    }
    forall j, k | 0 <= j < |b| && 0 <= k < |b|
      ensures !Below(b[j].id, b[k].id) && (j < k ==> b[j].id != b[k].id)
    {
      assert f.nodes[j] in f.nodes && f.nodes[k] in f.nodes;
      InlinedIdsApart(id, f.nodes[j].id, f.nodes[k].id);
      PrefixIdInjective(id, f.nodes[j].id, f.nodes[k].id);
    }
    UniqueAppend(a, b);
  }

  // Without a condition on the form of identifiers, one inlining keeps them unique exactly when no
  // remaining node already bears the name of an inlined one.
  lemma UniqueIffNoCollision(g: Graph, f: Graph, id: string)
    requires UniqueIds(g.nodes) && UniqueIds(f.nodes) && HasBoundary(f)
    ensures UniqueIds(Inlined(g, f, id).nodes) <==>
            forall n, m :: n in g.nodes && n.id != id && m in f.nodes ==> n.id != PrefixId(id, m.id)
  {
    var a, b := Without(g.nodes, id), InlineNodes(f.nodes, id);
    WithoutUnique(g.nodes, id);
    WithoutMembers(g.nodes, id);
    forall j, k | 0 <= j < k < |b| ensures b[j].id != b[k].id {
      PrefixIdInjective(id, f.nodes[j].id, f.nodes[k].id);
    }
    if UniqueIds(a + b) {
      UniqueApart(a, b);
      forall n, m | n in g.nodes && n.id != id && m in f.nodes ensures n.id != PrefixId(id, m.id) {
        var k :| 0 <= k < |f.nodes| && f.nodes[k] == m;
        assert n in a && b[k].id == PrefixId(id, m.id);
      }
    }
    if forall n, m :: n in g.nodes && n.id != id && m in f.nodes ==> n.id != PrefixId(id, m.id) {
      forall n, k | n in a && 0 <= k < |b| ensures b[k].id != n.id {
        assert f.nodes[k] in f.nodes;
      }
      UniqueAppend(a, b);
    }
  }

  lemma UniqueApart(a: seq<GraphNode>, b: seq<GraphNode>)
    requires UniqueIds(a + b)
    ensures forall n, k :: n in a && 0 <= k < |b| ==> b[k].id != n.id
  {
    forall n, k | n in a && 0 <= k < |b| ensures b[k].id != n.id {
      var i :| 0 <= i < |a| && a[i] == n;
      assert (a + b)[i].id != (a + b)[|a| + k].id;
    }
  }

  // A node that is written with a dot can bear the name of an inlined one.
  lemma DottedIdsCollide(g: Graph, f: Graph)
    requires g.nodes == [GraphNode("p", SubPipeline, None, map[]), GraphNode("p.x", Generic, None, map[])]
    requires f.nodes == [GraphNode("x", Start, None, map[]), GraphNode("y", Exit, None, map[])]
    ensures UniqueIds(g.nodes) && Plain(f) && HasBoundary(f)
    ensures !UniqueIds(Inlined(g, f, "p").nodes)
  {
    OfTypeMembers(f.nodes, Start);
    OfTypeMembers(f.nodes, Exit);
    assert f.nodes[0] in OfType(f.nodes, Start) && f.nodes[1] in OfType(f.nodes, Exit);
    assert g.nodes[1] in g.nodes && g.nodes[1].id == PrefixId("p", f.nodes[0].id);
    UniqueIffNoCollision(g, f, "p");
  }

  lemma UniqueAppend(a: seq<GraphNode>, b: seq<GraphNode>)
    requires UniqueIds(a) && UniqueIds(b)
    requires forall n, k :: n in a && 0 <= k < |b| ==> b[k].id != n.id
    ensures UniqueIds(a + b)
  {
    forall i, j | 0 <= i < j < |a + b| ensures (a + b)[i].id != (a + b)[j].id {
      if i < |a| <= j { assert a[i] in a && b[j - |a|].id != a[i].id; }
    }
  }

  // ----- Self-loops and boundary -----

  lemma InlinedNoLoops(g: Graph, f: Graph, id: string)
    requires Sound(g) && Source(f) && HasBoundary(f) && IsNodeOf(g, id) && NoSelfLoop(g.edges, id)
    ensures NoSubPipelineLoops(Inlined(g, f, id))
  {
    var h := Inlined(g, f, id);
    WithoutMembers(g.nodes, id);
    forall n | n in h.nodes && n.nodeType == SubPipeline ensures NoSelfLoop(h.edges, n.id) {
      if n in Without(g.nodes, id) {
        OtherNodeKeepsNoSelfLoop(g, f, id, n.id);
      } else {
        var k :| 0 <= k < |f.nodes| && n == InlineNode(f.nodes[k], id);
        assert f.nodes[k] in f.nodes;
        InnerNodeKeepsNoSelfLoop(g, f, id, f.nodes[k].id);
      }
    }
  }

  lemma SoundNothingBelow(g: Graph, id: string)
    requires Sound(g) && IsNodeOf(g, id)
    ensures NothingBelow(g.edges, id)
  {
  }

  lemma InnerNodeKeepsNoSelfLoop(g: Graph, f: Graph, id: string, x: string)
    requires Sound(g) && HasBoundary(f) && IsNodeOf(g, id) && NoSelfLoop(g.edges, id) && NoSelfLoop(f.edges, x)
    ensures NoSelfLoop(Inlined(g, f, id).edges, PrefixId(id, x))
  {
    var h, y := Inlined(g, f, id), PrefixId(id, x);
    SoundNothingBelow(g, id);
    StripPrefixId(id, x, y);
    ComposedLinks(g, f, id, y, y);
    assert !Link(f, x, x);
    assert !Link(h, y, y);
  }

  lemma {:induction false} InlinedHasNoBoundary(ns: seq<GraphNode>, id: string, t: NodeType)
    requires t == Start || t == Exit
    ensures OfType(InlineNodes(ns, id), t) == []
  {
    if ns != [] {
      InlinedHasNoBoundary(ns[1..], id, t);
      assert InlineNodes(ns, id)[1..] == InlineNodes(ns[1..], id);
    }
  }

  lemma {:induction false} WithoutOther(ns: seq<GraphNode>, id: string, t: NodeType)
    requires forall n :: n in ns && n.id == id ==> n.nodeType != t
    ensures OfType(Without(ns, id), t) == OfType(ns, t)
  {
    if ns != [] {
      assert ns[0] in ns && forall n :: n in ns[1..] ==> n in ns;
      WithoutOther(ns[1..], id, t);
      assert ([ns[0]] + Without(ns[1..], id))[1..] == Without(ns[1..], id);
    }
  }

  lemma BoundaryKept(g: Graph, f: Graph, n: GraphNode, t: NodeType)
    requires UniqueIds(g.nodes) && n in g.nodes && n.nodeType == SubPipeline && HasBoundary(f)
    requires t == Start || t == Exit
    ensures OfType(Inlined(g, f, n.id).nodes, t) == OfType(g.nodes, t)
  {
    WithoutOther(g.nodes, n.id, t);
    InlinedHasNoBoundary(f.nodes, n.id, t);
    OfTypeAppend(Without(g.nodes, n.id), InlineNodes(f.nodes, n.id), t);
  }

  // ----- One round, and all rounds -----

  // A round keeps the identifiers unique and prefix-free, and the boundary as it is.
  lemma RoundKeepsIds(g: Graph, files: Files, n: GraphNode)
    requires Addressed(g) && PlainFiles(files) && n in g.nodes && n.nodeType == SubPipeline
    requires InlineOne(g, files, n).Ok?
    ensures var h := InlineOne(g, files, n).value; Addressed(h) && SameBoundary(g, h)
  {
    var f := files[PipelineOf(n).value];
    assert IsNodeOf(g, n.id);
    InlinedUnique(g, f, n.id);
    BoundaryKept(g, f, n, Start);
    BoundaryKept(g, f, n, Exit);
  }

  ghost predicate SameBoundary(g: Graph, h: Graph) {
    OfType(h.nodes, Start) == OfType(g.nodes, Start) && OfType(h.nodes, Exit) == OfType(g.nodes, Exit)
  }

  // And without self-loops on sub-pipeline nodes it leaves no edge dangling.
  lemma RoundKeeps(g: Graph, files: Files, n: GraphNode)
    requires Sound(g) && Sources(files) && n in g.nodes && n.nodeType == SubPipeline
    requires InlineOne(g, files, n).Ok?
    ensures Sound(InlineOne(g, files, n).value)
  {
    var f := files[PipelineOf(n).value];
    assert IsNodeOf(g, n.id);
    RoundKeepsIds(g, files, n);
    ClosedIffNoSelfLoop(g, f, n.id);
    InlinedNoLoops(g, f, n.id);
  }

  // One unfolding of the iteration: nothing left to do, a failing round, or a round to `h`.
  lemma Unfold(g: Graph, files: Files, k: nat) returns (h: Option<Graph>)
    requires Addressed(g) && PlainFiles(files)
    ensures k == 0 || NoSubPipeline(g.nodes) ==> Iterate(g, files, k) == Ok(g)
    ensures NoSubPipeline(g.nodes) ==> h.None?
    ensures k > 0 && !NoSubPipeline(g.nodes) && h.None? ==>
              Iterate(g, files, k).Err? && !Loadable(g.nodes, files)
    ensures h.Some? ==>
              (k > 0 ==> Iterate(g, files, k) == Iterate(h.value, files, k - 1))
              && Addressed(h.value) && SameBoundary(g, h.value)
              && (Sources(files) && Sound(g) ==> Sound(h.value))
              && (Loadable(h.value.nodes, files) <==> Loadable(g.nodes, files))
              && exists n :: n in g.nodes && n.nodeType == SubPipeline && InlineOne(g, files, n) == Ok(h.value)
  {
    h := None;
    FirstSubPipelineFound(g.nodes);
    if FirstSubPipeline(g.nodes).Some? {
      var n := FirstSubPipeline(g.nodes).value;
      if InlineOne(g, files, n).Ok? {
        h := Some(InlineOne(g, files, n).value);
        RoundKeepsIds(g, files, n);
        if Sources(files) && Sound(g) { RoundKeeps(g, files, n); }
        RoundKeepsLoadable(g, files, n);
      }
    }
  }

  // After any number of rounds, also without end in sight, the identifiers are unique and
  // prefix-free and the boundary is the original one.
  lemma {:induction false} RoundsKeepIds(g: Graph, files: Files, k: nat)
    requires Addressed(g) && PlainFiles(files) && Iterate(g, files, k).Ok?
    ensures var h := Iterate(g, files, k).value; Addressed(h) && SameBoundary(g, h)
    decreases k
  {
    hide Addressed, PlainFiles, Loadable, Iterate, InlineOne, Sound, Sources;
    var h := Unfold(g, files, k);
    if k > 0 && h.Some? { RoundsKeepIds(h.value, files, k - 1); }
  }

  // And no edge dangles, if none did at first and no sub-pipeline node has a self-loop.
  lemma {:induction false} RoundsKeep(g: Graph, files: Files, k: nat)
    requires Sources(files) && Sound(g) && Iterate(g, files, k).Ok?
    ensures Sound(Iterate(g, files, k).value)
    decreases k
  {
    hide Addressed, PlainFiles, Loadable, Iterate, InlineOne, Closed, NoSubPipelineLoops;
    var h := Unfold(g, files, k);
    if k > 0 && h.Some? { RoundsKeep(h.value, files, k - 1); }
  }

  // Under acyclic references each round so far lowered the weight by exactly one.
  lemma {:induction false} RoundsWeigh(g: Graph, files: Files, rank: string -> nat, k: nat)
    requires Ranked(files, rank) && Addressed(g) && PlainFiles(files)
    requires k <= Weight(g.nodes, files, rank) && Iterate(g, files, k).Ok?
    ensures Weight(Iterate(g, files, k).value.nodes, files, rank) == Weight(g.nodes, files, rank) - k
    decreases k
  {
    hide Ranked, Weight, PlainFiles, PrefixFree, Loadable, Iterate, InlineOne;
    WeightlessIffDone(g.nodes, files, rank);
    var h := Unfold(g, files, k);
    if k > 0 {
      var n :| n in g.nodes && n.nodeType == SubPipeline && InlineOne(g, files, n) == Ok(h.value);
      RoundDrops(g, files, n, rank);
      RoundsWeigh(h.value, files, rank, k - 1);
    }
  }

  lemma {:induction false} WeightlessIffDone(ns: seq<GraphNode>, files: Files, rank: string -> nat)
    requires Ranked(files, rank)
    ensures Weight(ns, files, rank) == 0 <==> NoSubPipeline(ns)
  {
    if ns != [] {
      assert ns == [ns[0]] + ns[1..];
      WeightlessIffDone(ns[1..], files, rank);
    }
  }

  // ----- When inlining succeeds -----

  predicate RefersTo(n: GraphNode, q: set<string>) {
    n.nodeType == SubPipeline && PipelineOf(n).Some? && PipelineOf(n).value in q
  }

  // All sub-pipeline nodes name members of q.
  ghost predicate Within(ns: seq<GraphNode>, q: set<string>) {
    forall n :: n in ns && n.nodeType == SubPipeline ==> RefersTo(n, q)
  }

  // Files with a start and an exit that only refer to each other.
  ghost predicate SelfContained(files: Files, q: set<string>) {
    forall p :: p in q ==> p in files && HasBoundary(files[p]) && Within(files[p].nodes, q)
  }

  // Everything pulled in, directly or through other files, can be loaded and has a boundary.
  ghost predicate Loadable(ns: seq<GraphNode>, files: Files) {
    exists q :: SelfContained(files, q) && Within(ns, q)
  }

  lemma LoadableInlines(g: Graph, files: Files, n: GraphNode)
    requires Loadable(g.nodes, files) && n in g.nodes && n.nodeType == SubPipeline
    ensures InlineOne(g, files, n).Ok?
  {
  }

  // Inlining a node changes neither direction of loadability of the whole.
  lemma RoundKeepsLoadable(g: Graph, files: Files, n: GraphNode)
    requires UniqueIds(g.nodes) && n in g.nodes && n.nodeType == SubPipeline
    requires InlineOne(g, files, n).Ok?
    ensures Loadable(InlineOne(g, files, n).value.nodes, files) <==> Loadable(g.nodes, files)
  {
    var p, h := PipelineOf(n).value, InlineOne(g, files, n).value;
    WithoutMembers(g.nodes, n.id);
    if Loadable(g.nodes, files) {
      var q :| SelfContained(files, q) && Within(g.nodes, q);
      assert p in q;
      WithinInlined(files[p].nodes, n.id, q);
      assert Within(h.nodes, q);
    }
    if Loadable(h.nodes, files) {
      var q :| SelfContained(files, q) && Within(h.nodes, q);
      WithinInlined(files[p].nodes, n.id, q);
      forall m | m in g.nodes && m.nodeType == SubPipeline && m != n ensures RefersTo(m, q)
      {
        if m.id == n.id { OnlyOne(g.nodes, m, n); }
        assert m in h.nodes;
      }
      assert SelfContained(files, q + {p}) && Within(g.nodes, q + {p});
    }
  }

  lemma WithinInlined(ns: seq<GraphNode>, id: string, q: set<string>)
    ensures Within(InlineNodes(ns, id), q) <==> Within(ns, q)
  {
    var inlined := InlineNodes(ns, id);
    if Within(inlined, q) {
      forall n | n in ns && n.nodeType == SubPipeline ensures RefersTo(n, q) {
        var k :| 0 <= k < |ns| && ns[k] == n;
        assert inlined[k] in inlined && PipelineOf(inlined[k]) == PipelineOf(n);
      }
    }
    if Within(ns, q) {
      forall k | 0 <= k < |inlined| && inlined[k].nodeType == SubPipeline ensures RefersTo(inlined[k], q)
      {
        assert ns[k] in ns && PipelineOf(inlined[k]) == PipelineOf(ns[k]);
      }
    }
  }

  lemma OnlyOne(ns: seq<GraphNode>, m: GraphNode, n: GraphNode)
    requires UniqueIds(ns) && m in ns && n in ns && m.id == n.id
    ensures m == n
  {
  }

  // When everything can be loaded no round fails.
  lemma {:induction false} LoadableNeverFails(g: Graph, files: Files, k: nat)
    requires Addressed(g) && PlainFiles(files) && Loadable(g.nodes, files)
    ensures Iterate(g, files, k).Ok?
    decreases k
  {
    hide Addressed, PlainFiles, Loadable, Iterate, InlineOne, Sources, Sound;
    var h := Unfold(g, files, k);
    if k > 0 && h.Some? { LoadableNeverFails(h.value, files, k - 1); }
  }

  // When inlining completes everything could be loaded.
  lemma {:induction false} CompletedIsLoadable(g: Graph, files: Files, k: nat)
    requires Addressed(g) && PlainFiles(files)
    requires Iterate(g, files, k).Ok? && NoSubPipeline(Iterate(g, files, k).value.nodes)
    ensures Loadable(g.nodes, files)
    decreases k
  {
    hide Addressed, PlainFiles, Iterate, InlineOne, Sources, Sound;
    var h := Unfold(g, files, k);
    if NoSubPipeline(g.nodes) {
      assert SelfContained(files, {}) && Within(g.nodes, {});
    } else if k > 0 && h.Some? {
      CompletedIsLoadable(h.value, files, k - 1);
    }
  }

  // With acyclic references, inlining succeeds exactly when everything referenced can be loaded.
  lemma SucceedsIffLoadable(g: Graph, files: Files, rank: string -> nat, k: nat)
    requires Ranked(files, rank) && Addressed(g) && PlainFiles(files) && k >= Weight(g.nodes, files, rank)
    ensures Iterate(g, files, k).Ok? <==> Loadable(g.nodes, files)
  {
    hide Ranked, Weight, Addressed, PlainFiles, Loadable, Iterate;
    IterateEnds(g, files, rank, k);
    if Iterate(g, files, k).Ok? { CompletedIsLoadable(g, files, k); }
    if Loadable(g.nodes, files) { LoadableNeverFails(g, files, k); }
  }

  // The promise of the whole transformation.
  lemma ApplyCorrect(g: Graph, files: Files, rank: string -> nat)
    requires Ranked(files, rank) && Addressed(g) && PlainFiles(files)
    ensures var r := Iterate(g, files, Weight(g.nodes, files, rank));
            (r.Ok? <==> Loadable(g.nodes, files))
            && (r.Ok? ==> NoSubPipeline(r.value.nodes) && Addressed(r.value) && SameBoundary(g, r.value))
            && (r.Ok? && Sources(files) && Sound(g) ==> Sound(r.value))
    ensures forall k :: 0 <= k < Weight(g.nodes, files, rank) && Iterate(g, files, k).Ok? ==>
              !NoSubPipeline(Iterate(g, files, k).value.nodes)
  {
    hide Ranked, Weight, Addressed, PlainFiles, Loadable, Iterate, Sources, Sound;
    var w := Weight(g.nodes, files, rank);
    SucceedsIffLoadable(g, files, rank, w);
    IterateEnds(g, files, rank, w);
    if Iterate(g, files, w).Ok? {
      RoundsKeepIds(g, files, w);
      if Sources(files) && Sound(g) { RoundsKeep(g, files, w); }
    }
    forall k | 0 <= k < w && Iterate(g, files, k).Ok? ensures !NoSubPipeline(Iterate(g, files, k).value.nodes) {
      RoundsWeigh(g, files, rank, k);
      WeightlessIffDone(Iterate(g, files, k).value.nodes, files, rank);
    }
  }

  // ----- Cyclic references -----

  ghost predicate RefersInto(ns: seq<GraphNode>, q: set<string>) {
    exists n :: n in ns && RefersTo(n, q)
  }

  // Every file of q refers to a file of q.
  ghost predicate Cyclic(files: Files, q: set<string>) {
    forall p {:trigger files[p]} :: p in q && p in files ==> RefersInto(files[p].nodes, q)
  }

  // Once a graph refers into a cycle of files, no number of rounds completes the inlining.
  lemma {:induction false} CyclesNeverFinish(g: Graph, files: Files, q: set<string>, k: nat)
    requires Addressed(g) && PlainFiles(files) && Cyclic(files, q) && RefersInto(g.nodes, q)
    ensures Iterate(g, files, k).Ok? ==> !NoSubPipeline(Iterate(g, files, k).value.nodes)
    decreases k
  {
    hide Addressed, PlainFiles, Cyclic, Loadable, Iterate, InlineOne, Sources, Sound;
    var h := Unfold(g, files, k);
    if k > 0 && h.Some? {
      var n :| n in g.nodes && n.nodeType == SubPipeline && InlineOne(g, files, n) == Ok(h.value);
      assert UniqueIds(g.nodes) by { AddressedIsUnique(g); }
      CycleStays(g, files, n, q);
      CyclesNeverFinish(h.value, files, q, k - 1);
    }
  }

  lemma AddressedIsUnique(g: Graph)
    ensures Addressed(g) ==> UniqueIds(g.nodes)
  {
  }

  lemma CycleStays(g: Graph, files: Files, n: GraphNode, q: set<string>)
    requires UniqueIds(g.nodes) && Cyclic(files, q) && RefersInto(g.nodes, q)
    requires n in g.nodes && InlineOne(g, files, n).Ok?
    ensures RefersInto(InlineOne(g, files, n).value.nodes, q)
  {
    var h := InlineOne(g, files, n).value;
    var m :| m in g.nodes && RefersTo(m, q);
    if m == n {
      var f := files[PipelineOf(n).value];
      var k :| 0 <= k < |f.nodes| && RefersTo(f.nodes[k], q);
      var i := InlineNode(f.nodes[k], n.id);
      assert InlineNodes(f.nodes, n.id)[k] == i;
      assert i in h.nodes && PipelineOf(i) == PipelineOf(f.nodes[k]);
    } else {
      if m.id == n.id { OnlyOne(g.nodes, m, n); }
      WithoutMembers(g.nodes, n.id);
      assert m in h.nodes;
    }
  }
}
