// Inlining two different nodes in either order gives the same graph up to list order.
module Confluence {
  import opened Graphs
  import opened Strings
  import opened Composition

  // The same graph up to the order of its node list and of its edge list.
  ghost predicate Permuted(g: Graph, h: Graph) {
    multiset(g.nodes) == multiset(h.nodes) && multiset(g.edges) == multiset(h.edges)
    && g.(nodes := [], edges := []) == h.(nodes := [], edges := [])
  }

  // Neither identifier is below the other.
  predicate Apart(a: string, b: string) {
    a != b && !Below(a, b) && !Below(b, a)
  }

  // ----- Nodes -----

  lemma {:induction false} WithoutCount(ns: seq<GraphNode>, id: string, n: GraphNode)
    ensures multiset(Without(ns, id))[n] == if n.id != id then multiset(ns)[n] else 0
  {
    if ns != [] {
      assert ns == [ns[0]] + ns[1..];
      WithoutCount(ns[1..], id, n);
    }
  }

  lemma WithoutPermutes(a: seq<GraphNode>, b: seq<GraphNode>, id: string)
    requires multiset(a) == multiset(b)
    ensures multiset(Without(a, id)) == multiset(Without(b, id))
  {
    forall n ensures multiset(Without(a, id))[n] == multiset(Without(b, id))[n] {
      WithoutCount(a, id, n);
      WithoutCount(b, id, n);
    }
  }

  lemma {:induction false} WithoutAppend(a: seq<GraphNode>, b: seq<GraphNode>, id: string)
    ensures Without(a + b, id) == Without(a, id) + Without(b, id)
  {
    if a == [] {
      assert a + b == b;
    } else {
      assert (a + b)[1..] == a[1..] + b;
      WithoutAppend(a[1..], b, id);
    }
  }

  lemma {:induction false} WithoutCommutes(ns: seq<GraphNode>, a: string, b: string)
    ensures Without(Without(ns, a), b) == Without(Without(ns, b), a)
  {
    if ns != [] {
      WithoutCommutes(ns[1..], a, b);
      assert ([ns[0]] + Without(ns[1..], a))[1..] == Without(ns[1..], a);
      assert ([ns[0]] + Without(ns[1..], b))[1..] == Without(ns[1..], b);
    }
  }

  lemma {:induction false} WithoutAbsent(ns: seq<GraphNode>, id: string)
    requires forall n :: n in ns ==> n.id != id
    ensures Without(ns, id) == ns
  {
    if ns != [] {
      assert ns[0] in ns && forall n :: n in ns[1..] ==> n in ns;
      WithoutAbsent(ns[1..], id);
    }
  }

  lemma InlinedNodesApart(ns: seq<GraphNode>, a: string, b: string)
    requires Apart(a, b)
    ensures Without(InlineNodes(ns, a), b) == InlineNodes(ns, a)
  {
    forall i | 0 <= i < |ns| ensures InlineNodes(ns, a)[i].id != b {
      StripPrefixId(a, ns[i].id, b);
    }
    WithoutAbsent(InlineNodes(ns, a), b);
  }

  lemma NodesCommute(ns: seq<GraphNode>, a: string, s: seq<GraphNode>, b: string, t: seq<GraphNode>)
    requires Apart(a, b)
    ensures multiset(Without(Without(ns, a) + InlineNodes(s, a), b) + InlineNodes(t, b))
            == multiset(Without(Without(ns, b) + InlineNodes(t, b), a) + InlineNodes(s, a))
  {
    WithoutAppend(Without(ns, a), InlineNodes(s, a), b);
    WithoutAppend(Without(ns, b), InlineNodes(t, b), a);
    InlinedNodesApart(s, a, b);
    InlinedNodesApart(t, b, a);
    WithoutCommutes(ns, a, b);
  }

  // ----- Edges -----

  lemma {:induction false} RedirectAllAppend(a: seq<GraphEdge>, b: seq<GraphEdge>, id: string, s: string, x: string)
    ensures RedirectAll(a + b, id, s, x) == RedirectAll(a, id, s, x) + RedirectAll(b, id, s, x)
  {
    if a == [] {
      assert a + b == b;
    } else {
      assert (a + b)[1..] == a[1..] + b;
      RedirectAllAppend(a[1..], b, id, s, x);
    }
  }

  lemma RemoveOne<T>(rest: seq<T>, before: seq<T>, e: T, after: seq<T>)
    requires multiset([e] + rest) == multiset(before + ([e] + after))
    ensures multiset(rest) == multiset(before + after)
  {
    assert multiset([e] + rest) == multiset{e} + multiset(rest);
    assert multiset(before + ([e] + after)) == multiset(before) + (multiset{e} + multiset(after));
    assert multiset(rest) == multiset([e] + rest) - multiset{e};
    assert multiset(before + after) == multiset(before + ([e] + after)) - multiset{e};
  }

  lemma {:induction false} RedirectAllPermutes(a: seq<GraphEdge>, b: seq<GraphEdge>, id: string, s: string, x: string)
    requires multiset(a) == multiset(b)
    ensures multiset(RedirectAll(a, id, s, x)) == multiset(RedirectAll(b, id, s, x))
  {
    if a == [] {
      assert |multiset(b)| == 0;
    } else {
      var e, rest := a[0], a[1..];
      assert a == [e] + rest;
      assert e in multiset(b);
      var i :| 0 <= i < |b| && b[i] == e;
      var before, after := b[..i], b[i + 1..];
      assert b == before + ([e] + after);
      RemoveOne(rest, before, e, after);
      RedirectAllPermutes(rest, before + after, id, s, x);
      RedirectAllAppend(before, [e] + after, id, s, x);
      RedirectAllAppend(before, after, id, s, x);
      assert ([e] + after)[1..] == after;
    }
  }

  lemma {:induction false} RedirectAllCommutes(es: seq<GraphEdge>, a: string, s: string, x: string,
                                               b: string, t: string, y: string)
    requires Apart(a, b) && s != b && x != b && t != a && y != a
    ensures RedirectAll(RedirectAll(es, a, s, x), b, t, y) == RedirectAll(RedirectAll(es, b, t, y), a, s, x)
  {
    if es != [] {
      RedirectAllCommutes(es[1..], a, s, x, b, t, y);
      RedirectsCommute(es[0], a, s, x, b, t, y);
      RedirectAllAppend(Redirects(es[0], a, s, x), RedirectAll(es[1..], a, s, x), b, t, y);
      RedirectAllAppend(Redirects(es[0], b, t, y), RedirectAll(es[1..], b, t, y), a, s, x);
    }
  }

  lemma RedirectsCommute(e: GraphEdge, a: string, s: string, x: string, b: string, t: string, y: string)
    requires a != b && s != b && x != b && t != a && y != a
    ensures RedirectAll(Redirects(e, a, s, x), b, t, y) == RedirectAll(Redirects(e, b, t, y), a, s, x)
  {
    RedirectOne(Redirect(e, a, s, x), b, t, y);
    RedirectOne(Redirect(e, b, t, y), a, s, x);
    if e.from == e.to == a { RedirectTwo(e.(to := s), e.(from := x), b, t, y); }
    if e.from == e.to == b { RedirectTwo(e.(to := t), e.(from := y), a, s, x); }
  }

  lemma RedirectOne(e: GraphEdge, id: string, s: string, x: string)
    ensures RedirectAll([e], id, s, x) == Redirects(e, id, s, x)
  {
    assert RedirectAll([e][1..], id, s, x) == [];
  }

  lemma RedirectTwo(e: GraphEdge, f: GraphEdge, id: string, s: string, x: string)
    ensures RedirectAll([e, f], id, s, x) == Redirects(e, id, s, x) + Redirects(f, id, s, x)
  {
    assert [e, f][1..] == [f];
    RedirectOne(f, id, s, x);
  }

  lemma {:induction false} RedirectAllAbsent(es: seq<GraphEdge>, id: string, s: string, x: string)
    requires forall e :: e in es ==> e.from != id && e.to != id
    ensures RedirectAll(es, id, s, x) == es
  {
    if es != [] {
      assert es[0] in es && forall e :: e in es[1..] ==> e in es;
      RedirectAllAbsent(es[1..], id, s, x);
    }
  }

  lemma InlinedEdgesApart(es: seq<GraphEdge>, a: string, b: string, t: string, y: string)
    requires Apart(a, b)
    ensures RedirectAll(InlineEdges(es, a), b, t, y) == InlineEdges(es, a)
  {
    forall i | 0 <= i < |es| ensures InlineEdges(es, a)[i].from != b && InlineEdges(es, a)[i].to != b {
      StripPrefixId(a, es[i].from, b);
      StripPrefixId(a, es[i].to, b);
    }
    RedirectAllAbsent(InlineEdges(es, a), b, t, y);
  }

  // The edge multiset of a composed graph.
  lemma InlinedEdgeMultiset(parent: Graph, sub: Graph, id: string)
    requires HasBoundary(sub)
    ensures multiset(Inlined(parent, sub, id).edges) ==
            multiset(RedirectAll(parent.edges, id, PrefixId(id, StartId(sub)), PrefixId(id, ExitId(sub)))
                     + InlineEdges(sub.edges, id))
  {
    RewiredMultiset(parent.edges, id, PrefixId(id, StartId(sub)), PrefixId(id, ExitId(sub)));
  }

  lemma OtherNodeKeepsNoSelfLoop(parent: Graph, sub: Graph, a: string, b: string)
    requires HasBoundary(sub) && NoSelfLoop(parent.edges, a) && NoSelfLoop(parent.edges, b) && Apart(a, b)
    ensures NoSelfLoop(Inlined(parent, sub, a).edges, b)
  {
    var s, x := PrefixId(a, StartId(sub)), PrefixId(a, ExitId(sub));
    StripPrefixId(a, StartId(sub), b);
    StripPrefixId(a, ExitId(sub), b);
    RedirectAllMembers(parent.edges, a, s, x);
    forall e | e in Inlined(parent, sub, a).edges ensures !(e.from == b && e.to == b) {
      InlinedMembers(parent, sub, a, e);
      if e in InlineEdges(sub.edges, a) {
        var i :| 0 <= i < |sub.edges| && e == InlineEdge(sub.edges[i], a);
        StripPrefixId(a, sub.edges[i].from, b);
      }
    }
  }

  lemma TwiceInlinedEdges(parent: Graph, s: Graph, a: string, t: Graph, b: string)
    requires HasBoundary(s) && HasBoundary(t) && Apart(a, b)
    ensures multiset(Inlined(Inlined(parent, s, a), t, b).edges) ==
            multiset(RedirectAll(RedirectAll(parent.edges, a, PrefixId(a, StartId(s)), PrefixId(a, ExitId(s))),
                                 b, PrefixId(b, StartId(t)), PrefixId(b, ExitId(t))))
            + multiset(InlineEdges(s.edges, a)) + multiset(InlineEdges(t.edges, b))
  {
    var once := RedirectAll(parent.edges, a, PrefixId(a, StartId(s)), PrefixId(a, ExitId(s)));
    InlinedEdgeMultiset(parent, s, a);
    InlinedEdgeMultiset(Inlined(parent, s, a), t, b);
    RedirectAllPermutes(Inlined(parent, s, a).edges, once + InlineEdges(s.edges, a),
                        b, PrefixId(b, StartId(t)), PrefixId(b, ExitId(t)));
    RedirectAllAppend(once, InlineEdges(s.edges, a), b, PrefixId(b, StartId(t)), PrefixId(b, ExitId(t)));
    InlinedEdgesApart(s.edges, a, b, PrefixId(b, StartId(t)), PrefixId(b, ExitId(t)));
  }

  // Replacing two nodes in either order gives the same nodes and the same edges with all their
  // attributes, also when the two nodes are adjacent in both directions or have self-loops.
  lemma InliningsCommute(parent: Graph, s: Graph, a: string, t: Graph, b: string)
    requires HasBoundary(s) && HasBoundary(t) && Apart(a, b)
    ensures Permuted(Inlined(Inlined(parent, s, a), t, b), Inlined(Inlined(parent, t, b), s, a))
  {
    NodesCommute(parent.nodes, a, s.nodes, b, t.nodes);
    TwiceInlinedEdges(parent, s, a, t, b);
    TwiceInlinedEdges(parent, t, b, s, a);
    StripPrefixId(a, StartId(s), b);
    StripPrefixId(a, ExitId(s), b);
    StripPrefixId(b, StartId(t), a);
    StripPrefixId(b, ExitId(t), a);
    RedirectAllCommutes(parent.edges, a, PrefixId(a, StartId(s)), PrefixId(a, ExitId(s)),
                        b, PrefixId(b, StartId(t)), PrefixId(b, ExitId(t)));
  }

  // List order of the parent does not matter.
  lemma InliningRespectsPermutation(g: Graph, h: Graph, sub: Graph, id: string)
    requires Permuted(g, h) && HasBoundary(sub)
    ensures Permuted(Inlined(g, sub, id), Inlined(h, sub, id))
  {
    WithoutPermutes(g.nodes, h.nodes, id);
    InlinedEdgeMultiset(g, sub, id);
    InlinedEdgeMultiset(h, sub, id);
    RedirectAllPermutes(g.edges, h.edges, id, PrefixId(id, StartId(sub)), PrefixId(id, ExitId(sub)));
  }
}
