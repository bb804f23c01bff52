// The resolved pipeline graph and its queries.
module Graphs {
  import opened Wrappers
  import opened Filters

  datatype NodeType =
    | Start | Exit | Codergen | Conditional | Tool | Interviewer
    | Parallel | FanIn | Manager | SubPipeline | Generic

  datatype AttrValue = Text(text: string) | Number(number: real) | Duration(nanos: nat) | Flag(flag: bool)

  type Attrs = map<string, AttrValue>

  // `caption` is the source's `label`, which is a keyword here.
  datatype GraphNode = GraphNode(id: string, nodeType: NodeType, caption: Option<string>, attrs: Attrs)

  datatype GraphEdge = GraphEdge(
    from: string, to: string, caption: Option<string>, condition: Option<string>,
    priority: Option<int>, loopRestart: bool, attrs: Attrs)

  datatype Graph = Graph(
    name: Option<string>, nodes: seq<GraphNode>, edges: seq<GraphEdge>,
    defaultNodeAttrs: Attrs, defaultEdgeAttrs: Attrs, graphAttrs: Attrs)

  // The first node with the given identifier.
  function FindNode(ns: seq<GraphNode>, id: string): (r: Option<GraphNode>)
    ensures r.None? <==> forall n :: n in ns ==> n.id != id
    ensures r.Some? ==> r.value in ns && r.value.id == id
  {
    if ns == [] then None
    else if ns[0].id == id then Some(ns[0])
    else
      assert forall n :: n in ns <==> n == ns[0] || n in ns[1..];
      FindNode(ns[1..], id)
  }

  // The nodes of one type, in list order.
  function OfType(ns: seq<GraphNode>, t: NodeType): seq<GraphNode> {
    if ns == [] then []
    else if ns[0].nodeType == t then [ns[0]] + OfType(ns[1..], t)
    else OfType(ns[1..], t)
  }

  lemma {:induction false} OfTypeMembers(ns: seq<GraphNode>, t: NodeType)
    ensures forall n :: n in OfType(ns, t) <==> n in ns && n.nodeType == t
  {
    if ns != [] {
      assert ns == [ns[0]] + ns[1..];
      OfTypeMembers(ns[1..], t);
    }
  }

  // The edges leaving a node, in list order.
  function EdgesFrom(es: seq<GraphEdge>, id: string): seq<GraphEdge> {
    if es == [] then []
    else if es[0].from == id then [es[0]] + EdgesFrom(es[1..], id)
    else EdgesFrom(es[1..], id)
  }

  lemma {:induction false} EdgesFromMembers(es: seq<GraphEdge>, id: string)
    ensures forall e :: e in EdgesFrom(es, id) <==> e in es && e.from == id
  {
    if es != [] {
      assert es == [es[0]] + es[1..];
      EdgesFromMembers(es[1..], id);
    }
  }

  // The edges entering a node, in list order.
  function EdgesTo(es: seq<GraphEdge>, id: string): seq<GraphEdge> {
    if es == [] then []
    else if es[0].to == id then [es[0]] + EdgesTo(es[1..], id)
    else EdgesTo(es[1..], id)
  }

  lemma {:induction false} EdgesToMembers(es: seq<GraphEdge>, id: string)
    ensures forall e :: e in EdgesTo(es, id) <==> e in es && e.to == id
  {
    if es != [] {
      assert es == [es[0]] + es[1..];
      EdgesToMembers(es[1..], id);
    }
  }

  // ----- Order and multiplicity -----

  lemma {:induction false} FindNodeFirst(ns: seq<GraphNode>, id: string)
    ensures FindNode(ns, id).Some? ==>
              exists i :: 0 <= i < |ns| && FindNode(ns, id) == Some(ns[i]) && forall j :: 0 <= j < i ==> ns[j].id != id
  {
    if ns != [] && ns[0].id != id && FindNode(ns, id).Some? {
      FindNodeFirst(ns[1..], id);
      var i :| 0 <= i < |ns| - 1 && FindNode(ns[1..], id) == Some(ns[1..][i])
        && forall j :: 0 <= j < i ==> ns[1..][j].id != id;
      forall j | 0 <= j < i + 1 ensures ns[j].id != id {
        if j > 0 { assert ns[1..][j - 1].id != id; }
      }
      assert ns[i + 1] == ns[1..][i];
    }
  }

  lemma EdgesFromPositions(es: seq<GraphEdge>, id: string) returns (at: seq<nat>)
    ensures Picks(es, EdgesFrom(es, id), at)
    ensures forall i :: 0 <= i < |es| ==> (es[i].from == id <==> i in at)
  {
    var p := (e: GraphEdge) => e.from == id;
    at := FilterPositions(es, p);
    EdgesFromFilters(es, id, p);
    assert forall i :: 0 <= i < |es| ==> (p(es[i]) <==> es[i].from == id);
  }

  lemma {:induction false} EdgesFromFilters(es: seq<GraphEdge>, id: string, p: GraphEdge -> bool)
    requires forall e :: p(e) <==> e.from == id
    ensures EdgesFrom(es, id) == Filter(es, p)
  {
    if es != [] { EdgesFromFilters(es[1..], id, p); }
  }

  lemma EdgesToPositions(es: seq<GraphEdge>, id: string) returns (at: seq<nat>)
    ensures Picks(es, EdgesTo(es, id), at)
    ensures forall i :: 0 <= i < |es| ==> (es[i].to == id <==> i in at)
  {
    var p := (e: GraphEdge) => e.to == id;
    at := FilterPositions(es, p);
    EdgesToFilters(es, id, p);
    assert forall i :: 0 <= i < |es| ==> (p(es[i]) <==> es[i].to == id);
  }

  lemma {:induction false} EdgesToFilters(es: seq<GraphEdge>, id: string, p: GraphEdge -> bool)
    requires forall e :: p(e) <==> e.to == id
    ensures EdgesTo(es, id) == Filter(es, p)
  {
    if es != [] { EdgesToFilters(es[1..], id, p); }
  }

  lemma OfTypePositions(ns: seq<GraphNode>, t: NodeType) returns (at: seq<nat>)
    ensures Picks(ns, OfType(ns, t), at)
    ensures forall i :: 0 <= i < |ns| ==> (ns[i].nodeType == t <==> i in at)
  {
    var p := (n: GraphNode) => n.nodeType == t;
    at := FilterPositions(ns, p);
    OfTypeFilters(ns, t, p);
    assert forall i :: 0 <= i < |ns| ==> (p(ns[i]) <==> ns[i].nodeType == t);
  }

  lemma {:induction false} OfTypeFilters(ns: seq<GraphNode>, t: NodeType, p: GraphNode -> bool)
    requires forall n :: p(n) <==> n.nodeType == t
    ensures OfType(ns, t) == Filter(ns, p)
  {
    if ns != [] { OfTypeFilters(ns[1..], t, p); }
  }

  lemma {:induction false} OfTypeAppend(a: seq<GraphNode>, b: seq<GraphNode>, t: NodeType)
    ensures OfType(a + b, t) == OfType(a, t) + OfType(b, t)
  {
    if a == [] {
      assert a + b == b;
    } else {
      assert (a + b)[1..] == a[1..] + b;
      OfTypeAppend(a[1..], b, t);
    }
  }

  lemma {:induction false} EdgesFromAppend(a: seq<GraphEdge>, b: seq<GraphEdge>, id: string)
    ensures EdgesFrom(a + b, id) == EdgesFrom(a, id) + EdgesFrom(b, id)
  {
    if a == [] {
      assert a + b == b;
    } else {
      assert (a + b)[1..] == a[1..] + b;
      EdgesFromAppend(a[1..], b, id);
    }
  }

  predicate IsNodeOf(g: Graph, id: string) {
    exists n :: n in g.nodes && n.id == id
  }

  // No edge dangles.
  predicate Closed(g: Graph) {
    forall e :: e in g.edges ==> IsNodeOf(g, e.from) && IsNodeOf(g, e.to)
  }

  predicate NoSelfLoop(es: seq<GraphEdge>, id: string) {
    forall e :: e in es ==> !(e.from == id && e.to == id)
  }

  ghost predicate UniqueIds(ns: seq<GraphNode>) {
    forall i, j :: 0 <= i < j < |ns| ==> ns[i].id != ns[j].id
  }
}
