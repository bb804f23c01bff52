// Inlining a sub-graph in place of one node of a parent graph.
module Composition {
  import opened Wrappers
  import opened Filters
  import opened Graphs
  import opened Strings

  datatype CompositionError =
    | SubGraphNotFound(path: string)
    | NoStartNode(nodeId: string)
    | NoExitNode(nodeId: string)
    | MissingPipelineAttr(nodeId: string)

  function Without(ns: seq<GraphNode>, id: string): seq<GraphNode> {
    if ns == [] then []
    else if ns[0].id != id then [ns[0]] + Without(ns[1..], id)
    else Without(ns[1..], id)
  }

  lemma {:induction false} WithoutMembers(ns: seq<GraphNode>, id: string)
    ensures forall n :: n in Without(ns, id) <==> n in ns && n.id != id
  {
    if ns != [] {
      assert ns == [ns[0]] + ns[1..];
      WithoutMembers(ns[1..], id);
    }
  }

  function KeptEdges(es: seq<GraphEdge>, id: string): seq<GraphEdge> {
    if es == [] then []
    else if es[0].from != id && es[0].to != id then [es[0]] + KeptEdges(es[1..], id)
      else KeptEdges(es[1..], id)
  }

  lemma {:induction false} KeptEdgesMembers(es: seq<GraphEdge>, id: string)
    ensures forall e :: e in KeptEdges(es, id) <==> e in es && e.from != id && e.to != id
  {
    if es != [] {
      assert es == [es[0]] + es[1..];
      KeptEdgesMembers(es[1..], id);
    }
  }

  // An inlined boundary node becomes an ordinary one.
  function InlineNode(n: GraphNode, parent: string): GraphNode {
    n.(id := PrefixId(parent, n.id),
       nodeType := if n.nodeType == Start || n.nodeType == Exit then Generic else n.nodeType)
  }

  function InlineEdge(e: GraphEdge, parent: string): GraphEdge {
    e.(from := PrefixId(parent, e.from), to := PrefixId(parent, e.to))
  }

  function InlineNodes(ns: seq<GraphNode>, parent: string): seq<GraphNode> {
    seq(|ns|, i requires 0 <= i < |ns| => InlineNode(ns[i], parent))
  }

  function InlineEdges(es: seq<GraphEdge>, parent: string): seq<GraphEdge> {
    seq(|es|, i requires 0 <= i < |es| => InlineEdge(es[i], parent))
  }

  function WithTarget(es: seq<GraphEdge>, to: string): seq<GraphEdge> {
    seq(|es|, i requires 0 <= i < |es| => es[i].(to := to))
  }

  function WithSource(es: seq<GraphEdge>, from: string): seq<GraphEdge> {
    seq(|es|, i requires 0 <= i < |es| => es[i].(from := from))
  }

  predicate HasBoundary(sub: Graph) {
    OfType(sub.nodes, Start) != [] && OfType(sub.nodes, Exit) != []
  }

  function StartId(sub: Graph): string
    requires HasBoundary(sub)
  {
    OfType(sub.nodes, Start)[0].id
  }

  function ExitId(sub: Graph): string
    requires HasBoundary(sub)
  {
    OfType(sub.nodes, Exit)[0].id
  }

  // The edges of the parent after the node `id` gave way to `start` and `exit`.
  function RewiredEdges(es: seq<GraphEdge>, id: string, start: string, exit: string): seq<GraphEdge> {
    KeptEdges(es, id) + WithTarget(EdgesTo(es, id), start) + WithSource(EdgesFrom(es, id), exit)
  }

  function Inlined(parent: Graph, sub: Graph, id: string): Graph
    requires HasBoundary(sub)
  {
    parent.(
      nodes := Without(parent.nodes, id) + InlineNodes(sub.nodes, id),
      edges := RewiredEdges(parent.edges, id, PrefixId(id, StartId(sub)), PrefixId(id, ExitId(sub)))
               + InlineEdges(sub.edges, id))
  }

  function Compose(parent: Graph, sub: Graph, id: string): Result<Graph, CompositionError> {
    if OfType(sub.nodes, Start) == [] then Err(NoStartNode(id))
    else if OfType(sub.nodes, Exit) == [] then Err(NoExitNode(id))
    else Ok(Inlined(parent, sub, id))
  }

  // ----- What composing keeps -----

  // The nodes of a composed graph: those of the parent except the replaced one, and then one for each
  // node of the sub-graph, with its caption and attributes, and with its type unless that made it the
  // boundary.
  ghost predicate KeepsNodes(parent: Graph, sub: Graph, id: string, g: Graph) {
    |g.nodes| >= |sub.nodes|
    && KeepsOthers(parent.nodes, id, g.nodes[..|g.nodes| - |sub.nodes|])
    && KeepsEach(sub.nodes, id, g.nodes[|g.nodes| - |sub.nodes|..])
  }

  // Each node with another identifier once, and in order.
  ghost predicate KeepsOthers(ns: seq<GraphNode>, id: string, kept: seq<GraphNode>) {
    exists at :: Picks(ns, kept, at) && forall i :: 0 <= i < |ns| ==> (i in at <==> ns[i].id != id)
  }

  ghost predicate KeepsEach(ns: seq<GraphNode>, id: string, inlined: seq<GraphNode>) {
    |inlined| == |ns| && forall i :: 0 <= i < |ns| ==> KeepsNode(ns[i], id, inlined[i])
  }

  ghost predicate KeepsNode(n: GraphNode, id: string, m: GraphNode) {
    m.id == id + "." + n.id && m.caption == n.caption && m.attrs == n.attrs
    && (n.nodeType in {Start, Exit} ==> m.nodeType == Generic)
    && (n.nodeType !in {Start, Exit} ==> m.nodeType == n.nodeType)
  }

  // Its edges end with one for each edge of the sub-graph, with all that it says.
  ghost predicate KeepsEdges(sub: Graph, id: string, g: Graph) {
    |g.edges| >= |sub.edges| && KeepsEachEdge(sub.edges, id, g.edges[|g.edges| - |sub.edges|..])
  }

  ghost predicate KeepsEachEdge(es: seq<GraphEdge>, id: string, inlined: seq<GraphEdge>) {
    |inlined| == |es| && forall i :: 0 <= i < |es| ==> KeepsEdge(es[i], id, inlined[i])
  }

  ghost predicate KeepsEdge(e: GraphEdge, id: string, f: GraphEdge) {
    f.from == id + "." + e.from && f.to == id + "." + e.to
    && f.caption == e.caption && f.condition == e.condition && f.priority == e.priority
    && f.loopRestart == e.loopRestart && f.attrs == e.attrs
  }

  // The nodes of the parent that stay are exactly the other ones, each once and in order.
  lemma WithoutPositions(ns: seq<GraphNode>, id: string) returns (at: seq<nat>)
    ensures Picks(ns, Without(ns, id), at)
    ensures forall i :: 0 <= i < |ns| ==> (i in at <==> ns[i].id != id)
  {
    var p := (n: GraphNode) => n.id != id;
    at := FilterPositions(ns, p);
    WithoutFilter(ns, id, p);
    assert forall i :: 0 <= i < |ns| ==> (p(ns[i]) <==> ns[i].id != id);
  }

  lemma {:induction false} WithoutFilter(ns: seq<GraphNode>, id: string, p: GraphNode -> bool)
    requires forall n :: p(n) <==> n.id != id
    ensures Without(ns, id) == Filter(ns, p)
  {
    if ns != [] { WithoutFilter(ns[1..], id, p); }
  }

  // Everything about the graph as a whole comes from the parent.
  ghost predicate KeepsGraph(parent: Graph, g: Graph) {
    g.name == parent.name && g.graphAttrs == parent.graphAttrs
    && g.defaultNodeAttrs == parent.defaultNodeAttrs && g.defaultEdgeAttrs == parent.defaultEdgeAttrs
  }

  lemma ComposingKeeps(parent: Graph, sub: Graph, id: string)
    requires HasBoundary(sub)
    ensures var g := Inlined(parent, sub, id);
            KeepsNodes(parent, sub, id, g) && KeepsEdges(sub, id, g) && KeepsGraph(parent, g)
  {
    var kept, inlined := Without(parent.nodes, id), InlineNodes(sub.nodes, id);
    var rewired := RewiredEdges(parent.edges, id, PrefixId(id, StartId(sub)), PrefixId(id, ExitId(sub)));
    var g := Inlined(parent, sub, id);
    assert g.nodes == kept + inlined && g.edges == rewired + InlineEdges(sub.edges, id) && KeepsGraph(parent, g);
    OthersKept(parent.nodes, id);
    NodesKept(sub.nodes, id);
    EdgesKept(sub.edges, id);
    hide KeepsOthers, KeepsEach, KeepsEachEdge, Without, InlineNodes, InlineEdges, RewiredEdges, Inlined, PrefixId;
    assert g.nodes[..|kept|] == kept && g.nodes[|kept|..] == inlined;
    assert g.edges[|rewired|..] == InlineEdges(sub.edges, id);
  }

  lemma OthersKept(ns: seq<GraphNode>, id: string)
    ensures KeepsOthers(ns, id, Without(ns, id))
  {
    var at := WithoutPositions(ns, id);
  }

  lemma NodesKept(ns: seq<GraphNode>, id: string)
    ensures KeepsEach(ns, id, InlineNodes(ns, id)) && |InlineNodes(ns, id)| == |ns|
  {
  }

  lemma EdgesKept(es: seq<GraphEdge>, id: string)
    ensures KeepsEachEdge(es, id, InlineEdges(es, id)) && |InlineEdges(es, id)| == |es|
  {
  }

  lemma {:induction false} FindInlined(ns: seq<GraphNode>, id: string, x: string)
    ensures FindNode(InlineNodes(ns, id), PrefixId(id, x)) ==
            if FindNode(ns, x).None? then None else Some(InlineNode(FindNode(ns, x).value, id))
  {
    if ns != [] {
      FindInlined(ns[1..], id, x);
      PrefixIdInjective(id, ns[0].id, x);
      assert InlineNodes(ns, id)[1..] == InlineNodes(ns[1..], id);
      assert InlineNodes(ns, id)[0] == InlineNode(ns[0], id);
    }
  }

  lemma {:induction false} FindBehind(a: seq<GraphNode>, b: seq<GraphNode>, v: string)
    requires forall n :: n in a ==> n.id != v
    ensures FindNode(a + b, v) == FindNode(b, v)
  {
    if a == [] {
      assert a + b == b;
    } else {
      assert a[0] in a && (a + b)[1..] == a[1..] + b && forall n :: n in a[1..] ==> n in a;
      FindBehind(a[1..], b, v);
    }
  }

  // A node of the sub-graph is found in the composed graph under its inlined name, and is handled and
  // drawn as before.
  lemma InlinedNodeFound(parent: Graph, sub: Graph, id: string, x: string)
    requires HasBoundary(sub) && FindNode(sub.nodes, x).Some?
    requires forall n :: n in parent.nodes && n.id != id ==> n.id != PrefixId(id, x)
    ensures var found := FindNode(Inlined(parent, sub, id).nodes, PrefixId(id, x));
            found.Some? && KeepsNode(FindNode(sub.nodes, x).value, id, found.value)
  {
    WithoutMembers(parent.nodes, id);
    FindBehind(Without(parent.nodes, id), InlineNodes(sub.nodes, id), PrefixId(id, x));
    FindInlined(sub.nodes, id, x);
  }

  // Start and exit of a sub-graph are its first nodes of these types.
  lemma BoundaryIsFirst(sub: Graph)
    requires HasBoundary(sub)
    ensures exists i :: 0 <= i < |sub.nodes| && sub.nodes[i].id == StartId(sub) && sub.nodes[i].nodeType == Start
                        && forall j :: 0 <= j < i ==> sub.nodes[j].nodeType != Start
    ensures exists i :: 0 <= i < |sub.nodes| && sub.nodes[i].id == ExitId(sub) && sub.nodes[i].nodeType == Exit
                        && forall j :: 0 <= j < i ==> sub.nodes[j].nodeType != Exit
  {
    FirstOfType(sub.nodes, Start);
    FirstOfType(sub.nodes, Exit);
  }

  lemma FirstOfType(ns: seq<GraphNode>, t: NodeType)
    requires OfType(ns, t) != []
    ensures exists i :: 0 <= i < |ns| && OfType(ns, t)[0] == ns[i] && ns[i].nodeType == t
                        && forall j :: 0 <= j < i ==> ns[j].nodeType != t
  {
    var at := OfTypePositions(ns, t);
    assert forall k :: 0 <= k < |at| ==> at[0] <= at[k];
    assert at[0] in at && forall j: nat :: j < at[0] ==> j !in at;
  }

  // ----- Imperative form -----

  lemma {:induction false} WithoutSnoc(ns: seq<GraphNode>, n: GraphNode, id: string)
    ensures Without(ns + [n], id) == Without(ns, id) + if n.id != id then [n] else []
  {
    if ns == [] {
      assert ns + [n] == [n];
    } else {
      assert (ns + [n])[1..] == ns[1..] + [n];
      WithoutSnoc(ns[1..], n, id);
    }
  }

  lemma {:induction false} KeptEdgesSnoc(es: seq<GraphEdge>, e: GraphEdge, id: string)
    ensures KeptEdges(es + [e], id) ==
            KeptEdges(es, id) + if e.from != id && e.to != id then [e] else []
  {
    if es == [] {
      assert es + [e] == [e];
    } else {
      assert (es + [e])[1..] == es[1..] + [e];
      KeptEdgesSnoc(es[1..], e, id);
    }
  }

  method ComposeGraphs(parent: Graph, sub: Graph, nodeId: string) returns (r: Result<Graph, CompositionError>)
    ensures r == Compose(parent, sub, nodeId)
    ensures (forall n :: n in sub.nodes ==> n.nodeType != Start) ==> r == Err(NoStartNode(nodeId))
    ensures r.Ok? <==> exists m, n :: m in sub.nodes && n in sub.nodes && m.nodeType == Start && n.nodeType == Exit
    ensures r.Err? && (exists n :: n in sub.nodes && n.nodeType == Start) ==> r == Err(NoExitNode(nodeId))
    ensures r.Ok? ==>
              KeepsNodes(parent, sub, nodeId, r.value) && KeepsEdges(sub, nodeId, r.value)
              && KeepsGraph(parent, r.value)
  {
    OfTypeMembers(sub.nodes, Start);
    OfTypeMembers(sub.nodes, Exit);
    assert forall t :: OfType(sub.nodes, t) != [] ==> OfType(sub.nodes, t)[0] in OfType(sub.nodes, t);
    if HasBoundary(sub) { ComposingKeeps(parent, sub, nodeId); }
    var subStarts := OfType(sub.nodes, Start);
    if subStarts == [] { return Err(NoStartNode(nodeId)); }
    var subExits := OfType(sub.nodes, Exit);
    if subExits == [] { return Err(NoExitNode(nodeId)); }

    var newNodes := NewNodes(parent.nodes, sub.nodes, nodeId);
    var newEdges := KeepOuterEdges(parent.edges, nodeId);
    newEdges := ReconnectIncoming(newEdges, parent.edges, nodeId, PrefixId(nodeId, subStarts[0].id));
    newEdges := ReconnectOutgoing(newEdges, parent.edges, nodeId, PrefixId(nodeId, subExits[0].id));
    newEdges := AddInnerEdges(newEdges, sub.edges, nodeId);
    return Ok(parent.(nodes := newNodes, edges := newEdges));
  }

  method KeepOuterEdges(edges: seq<GraphEdge>, nodeId: string) returns (newEdges: seq<GraphEdge>)
    ensures newEdges == KeptEdges(edges, nodeId)
  {
    newEdges := [];
    for i := 0 to |edges|
      invariant newEdges == KeptEdges(edges[..i], nodeId)
    {
      var edge := edges[i];
      assert edges[..i + 1] == edges[..i] + [edge];
      KeptEdgesSnoc(edges[..i], edge, nodeId);
      if edge.from != nodeId && edge.to != nodeId { newEdges := newEdges + [edge]; }
    }
    assert edges[..|edges|] == edges;
  }

  method ReconnectIncoming(kept: seq<GraphEdge>, edges: seq<GraphEdge>, nodeId: string, prefixedStart: string)
    returns (newEdges: seq<GraphEdge>)
    ensures newEdges == kept + WithTarget(EdgesTo(edges, nodeId), prefixedStart)
  {
    var incoming := EdgesTo(edges, nodeId);
    newEdges := kept;
    for i := 0 to |incoming|
      invariant newEdges == kept + WithTarget(incoming, prefixedStart)[..i]
    {
      newEdges := newEdges + [incoming[i].(to := prefixedStart)];
    }
  }

  method ReconnectOutgoing(entered: seq<GraphEdge>, edges: seq<GraphEdge>, nodeId: string, prefixedExit: string)
    returns (newEdges: seq<GraphEdge>)
    ensures newEdges == entered + WithSource(EdgesFrom(edges, nodeId), prefixedExit)
  {
    var outgoing := EdgesFrom(edges, nodeId);
    newEdges := entered;
    for i := 0 to |outgoing|
      invariant newEdges == entered + WithSource(outgoing, prefixedExit)[..i]
    {
      newEdges := newEdges + [outgoing[i].(from := prefixedExit)];
    }
  }

  method AddInnerEdges(rewired: seq<GraphEdge>, subEdges: seq<GraphEdge>, nodeId: string)
    returns (newEdges: seq<GraphEdge>)
    ensures newEdges == rewired + InlineEdges(subEdges, nodeId)
  {
    newEdges := rewired;
    for i := 0 to |subEdges|
      invariant newEdges == rewired + InlineEdges(subEdges, nodeId)[..i]
    {
      var edge := subEdges[i];
      newEdges := newEdges + [edge.(from := PrefixId(nodeId, edge.from), to := PrefixId(nodeId, edge.to))];
    }
  }

  method NewNodes(parentNodes: seq<GraphNode>, subNodes: seq<GraphNode>, nodeId: string)
    returns (newNodes: seq<GraphNode>)
    ensures newNodes == Without(parentNodes, nodeId) + InlineNodes(subNodes, nodeId)
  {
    newNodes := [];
    for i := 0 to |parentNodes|
      invariant newNodes == Without(parentNodes[..i], nodeId)
    {
      assert parentNodes[..i + 1] == parentNodes[..i] + [parentNodes[i]];
      WithoutSnoc(parentNodes[..i], parentNodes[i], nodeId);
      if parentNodes[i].id != nodeId { newNodes := newNodes + [parentNodes[i]]; }
    }
    assert parentNodes[..|parentNodes|] == parentNodes;
    ghost var kept := newNodes;
    for i := 0 to |subNodes|
      invariant newNodes == kept + InlineNodes(subNodes, nodeId)[..i]
    {
      var subNode := subNodes[i];
      var nodeType := match subNode.nodeType
        case Start => Generic
        case Exit => Generic
        case other => other;
      newNodes := newNodes + [subNode.(id := PrefixId(nodeId, subNode.id), nodeType := nodeType)];
    }
  }

  // ----- What the composed edges are -----

  // The effect of inlining on one parent edge.
  function Redirect(e: GraphEdge, id: string, start: string, exit: string): GraphEdge {
    e.(from := if e.from == id then exit else e.from, to := if e.to == id then start else e.to)
  }

  // A self-loop on the replaced node counts both as an incoming and as an outgoing edge.
  function Redirects(e: GraphEdge, id: string, start: string, exit: string): seq<GraphEdge> {
    if e.from == id && e.to == id then [e.(to := start), e.(from := exit)] else [Redirect(e, id, start, exit)]
  }

  function RedirectAll(es: seq<GraphEdge>, id: string, start: string, exit: string): seq<GraphEdge> {
    if es == [] then [] else Redirects(es[0], id, start, exit) + RedirectAll(es[1..], id, start, exit)
  }

  // Rewiring redirects every parent edge exactly once, and a self-loop at both of its ends.
  lemma {:induction false} RewiredMultiset(es: seq<GraphEdge>, id: string, start: string, exit: string)
    ensures multiset(RewiredEdges(es, id, start, exit)) == multiset(RedirectAll(es, id, start, exit))
  {
    if es != [] {
      var e, rest := es[0], es[1..];
      assert es == [e] + rest;
      RewiredMultiset(rest, id, start, exit);
      RewiredCons(e, rest, id, start, exit);
    }
  }

  lemma RewiredCons(e: GraphEdge, rest: seq<GraphEdge>, id: string, start: string, exit: string)
    ensures multiset(RewiredEdges([e] + rest, id, start, exit)) ==
            multiset(RewiredEdges(rest, id, start, exit)) + multiset(Redirects(e, id, start, exit))
  {
    if e.from == id && e.to == id {
      RewiredLooping(e, rest, id, start, exit);
    } else if e.from == id {
      RewiredLeaving(e, rest, id, start, exit);
    } else if e.to == id {
      RewiredEntering(e, rest, id, start, exit);
    } else {
      RewiredApart(e, rest, id, start, exit);
    }
  }

  lemma RewiredLooping(e: GraphEdge, rest: seq<GraphEdge>, id: string, start: string, exit: string)
    requires e.from == id && e.to == id
    ensures multiset(RewiredEdges([e] + rest, id, start, exit)) ==
            multiset(RewiredEdges(rest, id, start, exit)) + multiset([e.(to := start), e.(from := exit)])
  {
    hide KeptEdges, EdgesTo, EdgesFrom, WithTarget, WithSource;
    LoopParts(e, rest, id);
    MovedParts(e, EdgesTo(rest, id), EdgesFrom(rest, id), start, exit);
    TwiceInserted(KeptEdges(rest, id), e.(to := start), WithTarget(EdgesTo(rest, id), start),
                  e.(from := exit), WithSource(EdgesFrom(rest, id), exit));
  }

  lemma MovedParts(e: GraphEdge, ins: seq<GraphEdge>, out: seq<GraphEdge>, start: string, exit: string)
    ensures WithTarget([e] + ins, start) == [e.(to := start)] + WithTarget(ins, start)
    ensures WithSource([e] + out, exit) == [e.(from := exit)] + WithSource(out, exit)
  {
  }

  lemma TwiceInserted<T>(a: seq<T>, x: T, b: seq<T>, y: T, c: seq<T>)
    ensures multiset(a + ([x] + b) + ([y] + c)) == multiset(a + b + c) + multiset([x, y])
  {
    assert multiset([x] + b) == multiset{x} + multiset(b);
    assert multiset([y] + c) == multiset{y} + multiset(c);
  }

  lemma LoopParts(e: GraphEdge, rest: seq<GraphEdge>, id: string)
    requires e.from == id && e.to == id
    ensures KeptEdges([e] + rest, id) == KeptEdges(rest, id)
    ensures EdgesTo([e] + rest, id) == [e] + EdgesTo(rest, id)
    ensures EdgesFrom([e] + rest, id) == [e] + EdgesFrom(rest, id)
  {
    assert ([e] + rest)[1..] == rest;
  }

  lemma RewiredApart(e: GraphEdge, rest: seq<GraphEdge>, id: string, start: string, exit: string)
    requires e.from != id && e.to != id
    ensures multiset(RewiredEdges([e] + rest, id, start, exit)) ==
            multiset(RewiredEdges(rest, id, start, exit)) + multiset([Redirect(e, id, start, exit)])
  {
    assert ([e] + rest)[1..] == rest;
    assert RewiredEdges([e] + rest, id, start, exit) == [e] + RewiredEdges(rest, id, start, exit);
  }

  lemma RewiredLeaving(e: GraphEdge, rest: seq<GraphEdge>, id: string, start: string, exit: string)
    requires e.from == id && e.to != id
    ensures multiset(RewiredEdges([e] + rest, id, start, exit)) ==
            multiset(RewiredEdges(rest, id, start, exit)) + multiset([Redirect(e, id, start, exit)])
  {
    assert ([e] + rest)[1..] == rest;
    var out, moved := EdgesFrom(rest, id), [Redirect(e, id, start, exit)];
    assert WithSource([e] + out, exit) == moved + WithSource(out, exit);
    var before := KeptEdges(rest, id) + WithTarget(EdgesTo(rest, id), start);
    assert RewiredEdges([e] + rest, id, start, exit) == before + moved + WithSource(out, exit);
    InsertedMultiset(before, moved, WithSource(out, exit));
  }

  lemma RewiredEntering(e: GraphEdge, rest: seq<GraphEdge>, id: string, start: string, exit: string)
    requires e.from != id && e.to == id
    ensures multiset(RewiredEdges([e] + rest, id, start, exit)) ==
            multiset(RewiredEdges(rest, id, start, exit)) + multiset([Redirect(e, id, start, exit)])
  {
    assert ([e] + rest)[1..] == rest;
    var ins, moved := EdgesTo(rest, id), [Redirect(e, id, start, exit)];
    assert WithTarget([e] + ins, start) == moved + WithTarget(ins, start);
    var after := WithTarget(ins, start) + WithSource(EdgesFrom(rest, id), exit);
    assert RewiredEdges([e] + rest, id, start, exit) == KeptEdges(rest, id) + moved + after;
    assert RewiredEdges(rest, id, start, exit) == KeptEdges(rest, id) + after;
    InsertedMultiset(KeptEdges(rest, id), moved, after);
  }

  lemma InsertedMultiset<T>(a: seq<T>, r: seq<T>, b: seq<T>)
    ensures multiset(a + r + b) == multiset(a + b) + multiset(r)
  {
  }

  lemma {:induction false} RedirectAllMembers(es: seq<GraphEdge>, id: string, start: string, exit: string)
    requires NoSelfLoop(es, id)
    ensures forall e :: e in es ==> Redirect(e, id, start, exit) in RedirectAll(es, id, start, exit)
    ensures forall f :: f in RedirectAll(es, id, start, exit) ==>
              exists e :: e in es && f == Redirect(e, id, start, exit)
  {
    if es != [] {
      assert es == [es[0]] + es[1..];
      RedirectAllMembers(es[1..], id, start, exit);
    }
  }

  predicate Link(g: Graph, a: string, b: string) {
    exists e :: e in g.edges && e.from == a && e.to == b
  }

  // No edge of the parent touches an identifier below the replaced node.
  predicate NothingBelow(es: seq<GraphEdge>, id: string) {
    forall e :: e in es ==> !Below(id, e.from) && !Below(id, e.to)
  }

  lemma InlinedMembers(parent: Graph, sub: Graph, id: string, e: GraphEdge)
    requires HasBoundary(sub)
    ensures e in Inlined(parent, sub, id).edges <==>
            (e in RedirectAll(parent.edges, id, PrefixId(id, StartId(sub)), PrefixId(id, ExitId(sub)))
             || e in InlineEdges(sub.edges, id))
  {
    var s, x := PrefixId(id, StartId(sub)), PrefixId(id, ExitId(sub));
    RewiredMultiset(parent.edges, id, s, x);
    assert e in multiset(RewiredEdges(parent.edges, id, s, x)) <==> e in RewiredEdges(parent.edges, id, s, x);
    assert e in multiset(RedirectAll(parent.edges, id, s, x)) <==> e in RedirectAll(parent.edges, id, s, x);
  }

  // The four kinds of links of a composed graph, and no others.
  lemma ComposedLinks(parent: Graph, sub: Graph, id: string, a: string, b: string)
    requires HasBoundary(sub) && NoSelfLoop(parent.edges, id) && NothingBelow(parent.edges, id)
    ensures !Below(id, a) && !Below(id, b) ==>
              (Link(Inlined(parent, sub, id), a, b) <==> a != id && b != id && Link(parent, a, b))
    ensures !Below(id, a) && Below(id, b) ==>
              (Link(Inlined(parent, sub, id), a, b) <==>
                 a != id && Strip(id, b) == StartId(sub) && Link(parent, a, id))
    ensures Below(id, a) && !Below(id, b) ==>
              (Link(Inlined(parent, sub, id), a, b) <==>
                 b != id && Strip(id, a) == ExitId(sub) && Link(parent, id, b))
    ensures Below(id, a) && Below(id, b) ==>
              (Link(Inlined(parent, sub, id), a, b) <==> Link(sub, Strip(id, a), Strip(id, b)))
  {
    var g := Inlined(parent, sub, id);
    var s, x := PrefixId(id, StartId(sub)), PrefixId(id, ExitId(sub));
    RedirectAllMembers(parent.edges, id, s, x);
    StripPrefixId(id, StartId(sub), a);
    StripPrefixId(id, ExitId(sub), b);
    StripPrefixId(id, "", id);
    if Link(g, a, b) {
      var e :| e in g.edges && e.from == a && e.to == b;
      InlinedMembers(parent, sub, id, e);
      if e in InlineEdges(sub.edges, id) {
        var i :| 0 <= i < |sub.edges| && e == InlineEdge(sub.edges[i], id);
        StripPrefixId(id, sub.edges[i].from, a);
        StripPrefixId(id, sub.edges[i].to, b);
        assert sub.edges[i] in sub.edges;
      } else {
        var f :| f in parent.edges && e == Redirect(f, id, s, x);
      }
    }
    LinksArise(parent, sub, id, a, b);
  }

  lemma LinksArise(parent: Graph, sub: Graph, id: string, a: string, b: string)
    requires HasBoundary(sub) && NoSelfLoop(parent.edges, id)
    ensures a != id && b != id && Link(parent, a, b) ==> Link(Inlined(parent, sub, id), a, b)
    ensures a != id && Link(parent, a, id) ==>
              Link(Inlined(parent, sub, id), a, PrefixId(id, StartId(sub)))
    ensures b != id && Link(parent, id, b) ==>
              Link(Inlined(parent, sub, id), PrefixId(id, ExitId(sub)), b)
    ensures Below(id, a) && Below(id, b) && Link(sub, Strip(id, a), Strip(id, b)) ==>
              Link(Inlined(parent, sub, id), a, b)
  {
    var s, x := PrefixId(id, StartId(sub)), PrefixId(id, ExitId(sub));
    RedirectAllMembers(parent.edges, id, s, x);
    forall e | e in parent.edges ensures Redirect(e, id, s, x) in Inlined(parent, sub, id).edges {
      InlinedMembers(parent, sub, id, Redirect(e, id, s, x));
    }
    if Below(id, a) && Below(id, b) && Link(sub, Strip(id, a), Strip(id, b)) {
      var e :| e in sub.edges && e.from == Strip(id, a) && e.to == Strip(id, b);
      StripPrefixId(id, "", a);
      StripPrefixId(id, "", b);
      var i :| 0 <= i < |sub.edges| && sub.edges[i] == e;
      assert InlineEdges(sub.edges, id)[i] == InlineEdge(e, id);
      assert InlineEdge(e, id) in Inlined(parent, sub, id).edges;
    }
  }

  // ----- Inner names -----

  // The names that the edges and the boundary of a sub-graph mention.
  function Names(sub: Graph): set<string>
    requires HasBoundary(sub)
  {
    {StartId(sub), ExitId(sub)} + (set e | e in sub.edges :: e.from) + (set e | e in sub.edges :: e.to)
  }

  // The inlined form of one of these names.
  predicate Inner(sub: Graph, id: string, x: string)
    requires HasBoundary(sub)
  {
    Below(id, x) && Strip(id, x) in Names(sub)
  }

  // No edge of the parent touches an inner name.
  predicate NoneInner(es: seq<GraphEdge>, sub: Graph, id: string)
    requires HasBoundary(sub)
  {
    forall e :: e in es ==> !Inner(sub, id, e.from) && !Inner(sub, id, e.to)
  }

  lemma InnerNames(sub: Graph, id: string)
    requires HasBoundary(sub)
    ensures Inner(sub, id, PrefixId(id, StartId(sub))) && Inner(sub, id, PrefixId(id, ExitId(sub)))
    ensures forall e :: e in InlineEdges(sub.edges, id) ==> Inner(sub, id, e.from) && Inner(sub, id, e.to)
    ensures forall x :: x in Names(sub) ==> Inner(sub, id, PrefixId(id, x))
    ensures forall x :: Inner(sub, id, x) ==> PrefixId(id, Strip(id, x)) == x
  {
    forall x ensures Below(id, PrefixId(id, x)) && Strip(id, PrefixId(id, x)) == x {
      StripPrefixId(id, x, "");
    }
    forall x | Inner(sub, id, x) ensures PrefixId(id, Strip(id, x)) == x {
      StripPrefixId(id, "", x);
    }
    forall i | 0 <= i < |sub.edges|
      ensures Inner(sub, id, InlineEdge(sub.edges[i], id).from) && Inner(sub, id, InlineEdge(sub.edges[i], id).to)
    {
      assert sub.edges[i] in sub.edges;
    }
  }

  // The links of a composed graph by inner names, also when the parent has other names below the
  // replaced node.
  lemma InnerLinks(parent: Graph, sub: Graph, id: string, a: string, b: string)
    requires HasBoundary(sub) && NoSelfLoop(parent.edges, id) && NoneInner(parent.edges, sub, id)
    ensures !Inner(sub, id, a) && !Inner(sub, id, b) ==>
              (Link(Inlined(parent, sub, id), a, b) <==> a != id && b != id && Link(parent, a, b))
    ensures !Inner(sub, id, a) && Inner(sub, id, b) ==>
              (Link(Inlined(parent, sub, id), a, b) <==>
                 a != id && Strip(id, b) == StartId(sub) && Link(parent, a, id))
    ensures Inner(sub, id, a) && !Inner(sub, id, b) ==>
              (Link(Inlined(parent, sub, id), a, b) <==>
                 b != id && Strip(id, a) == ExitId(sub) && Link(parent, id, b))
    ensures Inner(sub, id, a) && Inner(sub, id, b) ==>
              (Link(Inlined(parent, sub, id), a, b) <==> Link(sub, Strip(id, a), Strip(id, b)))
  {
    LinksArise(parent, sub, id, a, b);
    if Link(Inlined(parent, sub, id), a, b) { LinksCome(parent, sub, id, a, b); }
    InnerNames(sub, id);
    StripPrefixId(id, "", id);
  }

  // Where a link of a composed graph comes from.
  lemma LinksCome(parent: Graph, sub: Graph, id: string, a: string, b: string)
    requires HasBoundary(sub) && NoSelfLoop(parent.edges, id) && NoneInner(parent.edges, sub, id)
    requires Link(Inlined(parent, sub, id), a, b)
    ensures (Inner(sub, id, a) && Inner(sub, id, b) && Link(sub, Strip(id, a), Strip(id, b)))
            || (!Inner(sub, id, a) && !Inner(sub, id, b) && a != id && b != id && Link(parent, a, b))
            || (!Inner(sub, id, a) && a != id && b == PrefixId(id, StartId(sub)) && Link(parent, a, id))
            || (!Inner(sub, id, b) && b != id && a == PrefixId(id, ExitId(sub)) && Link(parent, id, b))
  {
    var s, x := PrefixId(id, StartId(sub)), PrefixId(id, ExitId(sub));
    var e :| e in Inlined(parent, sub, id).edges && e.from == a && e.to == b;
    InlinedMembers(parent, sub, id, e);
    RedirectAllMembers(parent.edges, id, s, x);
    InnerNames(sub, id);
    if e in InlineEdges(sub.edges, id) {
      var i :| 0 <= i < |sub.edges| && e == InlineEdge(sub.edges[i], id);
      StripPrefixId(id, sub.edges[i].from, "");
      StripPrefixId(id, sub.edges[i].to, "");
      assert sub.edges[i] in sub.edges;
    } else {
      var f :| f in parent.edges && e == Redirect(f, id, s, x);
    }
  }

  // ----- Further exits -----

  predicate IsExit(sub: Graph, y: string) {
    exists n :: n in sub.nodes && n.id == y && n.nodeType == Exit
  }

  ghost predicate LeadsOn(g: Graph, a: string) {
    exists b :: Link(g, a, b)
  }

  // Only the first exit gets the edges that leave the replaced node. When there are such edges, every
  // inlined exit leads on exactly when each other exit has an edge of its own in the sub-graph.
  lemma OtherExits(parent: Graph, sub: Graph, id: string)
    requires HasBoundary(sub) && NoSelfLoop(parent.edges, id) && NothingBelow(parent.edges, id)
    requires LeadsOn(parent, id)
    ensures forall y, w :: IsExit(sub, y) && !Below(id, w) && Link(parent, id, w) ==>
              (Link(Inlined(parent, sub, id), PrefixId(id, y), w) <==> y == ExitId(sub))
    ensures (forall y :: IsExit(sub, y) ==> LeadsOn(Inlined(parent, sub, id), PrefixId(id, y))) <==>
            (forall y :: IsExit(sub, y) ==> y == ExitId(sub) || LeadsOn(sub, y))
  {
    hide Inlined;
    forall y ensures LeadsOn(Inlined(parent, sub, id), PrefixId(id, y)) <==> y == ExitId(sub) || LeadsOn(sub, y) {
      ExitLeadsOn(parent, sub, id, y);
    }
    forall y, w | !Below(id, w) && Link(parent, id, w)
      ensures Link(Inlined(parent, sub, id), PrefixId(id, y), w) <==> y == ExitId(sub)
    {
      StripPrefixId(id, y, "");
      ComposedLinks(parent, sub, id, PrefixId(id, y), w);
    }
  }

  lemma ExitLeadsOn(parent: Graph, sub: Graph, id: string, y: string)
    requires HasBoundary(sub) && NoSelfLoop(parent.edges, id) && NothingBelow(parent.edges, id)
    requires LeadsOn(parent, id)
    ensures LeadsOn(Inlined(parent, sub, id), PrefixId(id, y)) <==> y == ExitId(sub) || LeadsOn(sub, y)
  {
    var g, a := Inlined(parent, sub, id), PrefixId(id, y);
    StripPrefixId(id, y, "");
    hide Inlined;
    if LeadsOn(g, a) {
      var b :| Link(g, a, b);
      ComposedLinks(parent, sub, id, a, b);
    }
    if y == ExitId(sub) {
      var w :| Link(parent, id, w);
      ComposedLinks(parent, sub, id, a, w);
      assert Link(g, a, w);
    }
    if LeadsOn(sub, y) {
      var z :| Link(sub, y, z);
      StripPrefixId(id, z, "");
      ComposedLinks(parent, sub, id, a, PrefixId(id, z));
      assert Link(g, a, PrefixId(id, z));
    }
  }

  // Inlining into graphs without dangling edges leaves none exactly when the replaced node has
  // no self-loop.
  lemma ClosedIffNoSelfLoop(parent: Graph, sub: Graph, id: string)
    requires HasBoundary(sub) && Closed(parent) && Closed(sub)
    ensures Closed(Inlined(parent, sub, id)) <==> NoSelfLoop(parent.edges, id)
  {
    if NoSelfLoop(parent.edges, id) {
      forall e | e in Inlined(parent, sub, id).edges
        ensures IsNodeOf(Inlined(parent, sub, id), e.from) && IsNodeOf(Inlined(parent, sub, id), e.to)
      {
        EndpointsInlined(parent, sub, id, e);
      }
    } else {
      SelfLoopDangles(parent, sub, id);
    }
  }

  lemma NodesInlined(parent: Graph, sub: Graph, id: string, nodeId: string)
    requires HasBoundary(sub)
    ensures nodeId != id && IsNodeOf(parent, nodeId) ==> IsNodeOf(Inlined(parent, sub, id), nodeId)
    ensures IsNodeOf(sub, nodeId) ==> IsNodeOf(Inlined(parent, sub, id), PrefixId(id, nodeId))
  {
    var g := Inlined(parent, sub, id);
    if nodeId != id && IsNodeOf(parent, nodeId) {
      var n :| n in parent.nodes && n.id == nodeId;
      WithoutMembers(parent.nodes, id);
      assert n in g.nodes;
    }
    if IsNodeOf(sub, nodeId) {
      var i :| 0 <= i < |sub.nodes| && sub.nodes[i].id == nodeId;
      assert InlineNodes(sub.nodes, id)[i] == InlineNode(sub.nodes[i], id);
      assert InlineNode(sub.nodes[i], id) in g.nodes;
    }
  }

  lemma BoundaryNodes(sub: Graph)
    requires HasBoundary(sub)
    ensures IsNodeOf(sub, StartId(sub)) && IsNodeOf(sub, ExitId(sub))
  {
    OfTypeMembers(sub.nodes, Start);
    OfTypeMembers(sub.nodes, Exit);
    assert OfType(sub.nodes, Start)[0] in OfType(sub.nodes, Start);
    assert OfType(sub.nodes, Exit)[0] in OfType(sub.nodes, Exit);
  }

  lemma EndpointsInlined(parent: Graph, sub: Graph, id: string, e: GraphEdge)
    requires HasBoundary(sub) && Closed(parent) && Closed(sub) && NoSelfLoop(parent.edges, id)
    requires e in Inlined(parent, sub, id).edges
    ensures IsNodeOf(Inlined(parent, sub, id), e.from) && IsNodeOf(Inlined(parent, sub, id), e.to)
  {
    var s, x := PrefixId(id, StartId(sub)), PrefixId(id, ExitId(sub));
    InlinedMembers(parent, sub, id, e);
    if e in InlineEdges(sub.edges, id) {
      var i :| 0 <= i < |sub.edges| && e == InlineEdge(sub.edges[i], id);
      assert sub.edges[i] in sub.edges;
      NodesInlined(parent, sub, id, sub.edges[i].from);
      NodesInlined(parent, sub, id, sub.edges[i].to);
    } else {
      RedirectAllMembers(parent.edges, id, s, x);
      var f :| f in parent.edges && e == Redirect(f, id, s, x);
      BoundaryNodes(sub);
      NodesInlined(parent, sub, id, f.from);
      NodesInlined(parent, sub, id, f.to);
      NodesInlined(parent, sub, id, StartId(sub));
      NodesInlined(parent, sub, id, ExitId(sub));
    }
  }

  lemma SelfLoopDangles(parent: Graph, sub: Graph, id: string)
    requires HasBoundary(sub) && !NoSelfLoop(parent.edges, id)
    ensures !Closed(Inlined(parent, sub, id))
  {
    var g := Inlined(parent, sub, id);
    var e :| e in parent.edges && e.from == id && e.to == id;
    var ins := EdgesTo(parent.edges, id);
    EdgesToMembers(parent.edges, id);
    WithoutMembers(parent.nodes, id);
    var i :| 0 <= i < |ins| && ins[i] == e;
    var f := WithTarget(ins, PrefixId(id, StartId(sub)))[i];
    assert f in WithTarget(ins, PrefixId(id, StartId(sub)));
    assert f in g.edges && f.from == id;
    forall n | n in g.nodes ensures n.id != id {
      if n in InlineNodes(sub.nodes, id) {
        var j :| 0 <= j < |sub.nodes| && n == InlineNode(sub.nodes[j], id);
        StripPrefixId(id, sub.nodes[j].id, id);
      }
    }
  }
}
