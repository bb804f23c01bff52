// Edge selection commutes with inlining: at every node of the composed graph the selector picks
// the image of the edge that it picks before inlining.
module CompositionSelection {
  import opened Wrappers
  import opened Graphs
  import opened State
  import opened Strings
  import opened EdgeSelection
  import opened Composition

  // ----- Nodes outside the replaced one -----

  // The image of an edge that leaves an outer node.
  function Turned(e: GraphEdge, id: string, start: string): GraphEdge {
    if e.to == id then e.(to := start) else e
  }

  function TurnedOption(e: Option<GraphEdge>, id: string, start: string): Option<GraphEdge> {
    if e.None? then None else Some(Turned(e.value, id, start))
  }

  // The candidates that keep their target, and then the ones that enter the sub-graph.
  function Staying(es: seq<GraphEdge>, id: string): seq<GraphEdge> {
    if es == [] then []
    else if es[0].to != id then [es[0]] + Staying(es[1..], id) else Staying(es[1..], id)
  }

  function Turning(es: seq<GraphEdge>, id: string, start: string): seq<GraphEdge> {
    if es == [] then []
    else if es[0].to == id then [es[0].(to := start)] + Turning(es[1..], id, start)
    else Turning(es[1..], id, start)
  }

  // Replacing `id` by its child does not move it past `t` in the tie-break.
  predicate Undisturbed(id: string, child: string, t: string) {
    t == id || if Below(id, t) then Less(child, Strip(id, t)) else !(id < t && t[|id|] < '.')
  }

  lemma UndisturbedIff(id: string, child: string, t: string)
    requires t != id && t != PrefixId(id, child)
    ensures Undisturbed(id, child, t) <==>
            Less(PrefixId(id, child), t) == Less(id, t) && Less(t, PrefixId(id, child)) == Less(t, id)
  {
    if Below(id, t) { LessBelowPrefix(id, child, t); } else { LessAfterPrefix(id, child, t); }
  }

  lemma UndisturbedIsOther(id: string, child: string, t: string)
    requires Undisturbed(id, child, t) && t != id
    ensures t != PrefixId(id, child)
  {
    StripPrefixId(id, child, t);
    LessIrreflexive(child);
  }

  // Letters, digits, underscores and dots never disturb the tie-break.
  lemma PlainIdsUndisturbed(id: string, child: string, t: string)
    requires SortsAfterDot(t) && !Below(id, t)
    ensures Undisturbed(id, child, t)
  {
  }

  ghost predicate AllUndisturbed(es: seq<GraphEdge>, id: string, child: string) {
    forall e :: e in es ==> Undisturbed(id, child, e.to)
  }

  ghost predicate NeutralOutcome(q: Query, id: string, start: string) {
    q.outcome.Some? ==> (q.outcome.value.Suggests(id) <==> q.outcome.value.Suggests(start))
  }

  lemma TurnedKeepsOrder(a: GraphEdge, b: GraphEdge, id: string, child: string)
    requires Undisturbed(id, child, a.to) && Undisturbed(id, child, b.to)
    ensures Ahead(Turned(a, id, PrefixId(id, child)), Turned(b, id, PrefixId(id, child))) == Ahead(a, b)
    ensures a.to != id ==> a.to != PrefixId(id, child)
  {
    if a.to != id {
      UndisturbedIsOther(id, child, a.to);
      UndisturbedIff(id, child, a.to);
    }
    if b.to != id {
      UndisturbedIsOther(id, child, b.to);
      UndisturbedIff(id, child, b.to);
    }
    LessIrreflexive(id);
    LessIrreflexive(PrefixId(id, child));
  }

  lemma TurnedKeepsTier(t: Tier, e: GraphEdge, q: Query, id: string, start: string)
    requires NeutralOutcome(q, id, start)
    ensures InTier(t, Turned(e, id, start), q) == InTier(t, e, q)
  {
  }

  lemma PrefersAssociative(a: GraphEdge, b: Option<GraphEdge>, c: Option<GraphEdge>)
    ensures Prefers(Prefer(a, b), c) == Prefer(a, Prefers(b, c))
  {
    if b.Some? && c.Some? {
      AheadOrder(c.value, b.value, a);
      AheadOrder(a, b.value, c.value);
      AheadOrder(b.value, a, c.value);
    }
  }

  lemma PrefersCommutes(a: Option<GraphEdge>, b: GraphEdge, c: Option<GraphEdge>)
    requires a.Some? ==> a.value.to != b.to
    ensures Prefers(a, Prefer(b, c)) == Prefer(b, Prefers(a, c))
  {
    if a.Some? {
      PrefersAssociative(a.value, Some(b), c);
      PrefersAssociative(b, a, c);
      AheadOrder(a.value, b, a.value);
      AheadOrder(b, a.value, b);
    }
  }

  lemma {:induction false} BestAppend(a: seq<GraphEdge>, b: seq<GraphEdge>)
    ensures Best(a + b) == Prefers(Best(a), Best(b))
  {
    if a == [] {
      assert a + b == b;
    } else {
      assert (a + b)[1..] == a[1..] + b;
      BestAppend(a[1..], b);
      PrefersAssociative(a[0], Best(a[1..]), Best(b));
    }
  }

  lemma {:induction false} TieredAppend(t: Tier, a: seq<GraphEdge>, b: seq<GraphEdge>, q: Query)
    ensures Tiered(t, a + b, q) == Tiered(t, a, q) + Tiered(t, b, q)
  {
    if a == [] {
      assert a + b == b;
    } else {
      assert (a + b)[1..] == a[1..] + b;
      TieredAppend(t, a[1..], b, q);
    }
  }

  lemma {:induction false} BestMember(es: seq<GraphEdge>)
    ensures Best(es).Some? ==> Best(es).value in es
  {
    if es != [] { BestMember(es[1..]); }
  }

  // Moving the redirected candidates to the end does not change which one is best.
  lemma {:induction false} BestTurned(t: Tier, es: seq<GraphEdge>, q: Query, id: string, child: string)
    requires AllUndisturbed(es, id, child) && NeutralOutcome(q, id, PrefixId(id, child))
    ensures Prefers(Best(Tiered(t, Staying(es, id), q)), Best(Tiered(t, Turning(es, id, PrefixId(id, child)), q)))
            == TurnedOption(Best(Tiered(t, es, q)), id, PrefixId(id, child))
  {
    hide Undisturbed, InTier, Prefer, PrefixId;
    if es != [] {
      var start := PrefixId(id, child);
      var e, rest := es[0], es[1..];
      assert e in es && forall f :: f in rest ==> f in es;
      BestTurned(t, rest, q, id, child);
      TurnedKeepsTier(t, e, q, id, start);
      if InTier(t, e, q) {
        var s, u := Best(Tiered(t, Staying(rest, id), q)), Best(Tiered(t, Turning(rest, id, start), q));
        var b := Best(Tiered(t, rest, q));
        TieredMembers(t, rest, q);
        BestMember(Tiered(t, rest, q));
        TieredMembers(t, Staying(rest, id), q);
        BestMember(Tiered(t, Staying(rest, id), q));
        StayingMembers(rest, id);
        OneMoreTurned(e, s, u, b, id, child);
      }
    }
  }

  lemma OneMoreTurned(e: GraphEdge, s: Option<GraphEdge>, u: Option<GraphEdge>, b: Option<GraphEdge>,
                      id: string, child: string)
    requires Undisturbed(id, child, e.to) && (b.Some? ==> Undisturbed(id, child, b.value.to))
    requires s.Some? ==> s.value.to != id && Undisturbed(id, child, s.value.to)
    requires Prefers(s, u) == TurnedOption(b, id, PrefixId(id, child))
    ensures var turned := Turned(e, id, PrefixId(id, child));
            TurnedOption(Prefer(e, b), id, PrefixId(id, child)) ==
            if e.to != id then Prefers(Prefer(e, s), u) else Prefers(s, Prefer(turned, u))
  {
    if b.Some? { TurnedKeepsOrder(b.value, e, id, child); }
    if e.to != id {
      PrefersAssociative(e, s, u);
    } else {
      if s.Some? { TurnedKeepsOrder(s.value, e, id, child); }
      PrefersCommutes(s, Turned(e, id, PrefixId(id, child)), u);
    }
  }

  lemma {:induction false} StayingMembers(es: seq<GraphEdge>, id: string)
    ensures forall e :: e in Staying(es, id) <==> e in es && e.to != id
  {
    if es != [] {
      StayingMembers(es[1..], id);
      assert es == [es[0]] + es[1..];
    }
  }

  lemma {:induction false} TurningMembers(es: seq<GraphEdge>, id: string, start: string)
    ensures forall e :: e in es && e.to == id ==> e.(to := start) in Turning(es, id, start)
    ensures forall f :: f in Turning(es, id, start) ==>
              exists e :: e in es && e.to == id && f == e.(to := start)
  {
    if es != [] {
      TurningMembers(es[1..], id, start);
      assert es == [es[0]] + es[1..];
    }
  }

  lemma SelectTierTurned(es: seq<GraphEdge>, q: Query, id: string, child: string)
    requires AllUndisturbed(es, id, child) && NeutralOutcome(q, id, PrefixId(id, child))
    ensures SelectTier(Staying(es, id) + Turning(es, id, PrefixId(id, child)), q)
            == TurnedOption(SelectTier(es, q), id, PrefixId(id, child))
  {
    var fs := Staying(es, id) + Turning(es, id, PrefixId(id, child));
    forall t ensures Best(Tiered(t, fs, q)) == TurnedOption(Best(Tiered(t, es, q)), id, PrefixId(id, child)) {
      BestTurned(t, es, q, id, child);
      TieredAppend(t, Staying(es, id), Turning(es, id, PrefixId(id, child)), q);
      BestAppend(Tiered(t, Staying(es, id), q), Tiered(t, Turning(es, id, PrefixId(id, child)), q));
    }
    forall t ensures Tiered(t, fs, q) == [] <==> Tiered(t, es, q) == [] {
      assert Best(Tiered(t, fs, q)) == TurnedOption(Best(Tiered(t, es, q)), id, PrefixId(id, child));
    }
  }

  lemma UnparsableTurned(es: seq<GraphEdge>, lang: Language, id: string, start: string)
    ensures FirstUnparsable(Staying(es, id) + Turning(es, id, start), lang).None? <==>
            FirstUnparsable(es, lang).None?
  {
    StayingMembers(es, id);
    TurningMembers(es, id, start);
    var fs := Staying(es, id) + Turning(es, id, start);
    forall e | e in es ensures exists f :: f in fs && (Unparsable(f, lang) <==> Unparsable(e, lang)) {
      var f := Turned(e, id, start);
      assert f in fs && (Unparsable(f, lang) <==> Unparsable(e, lang));
    }
    forall f | f in fs ensures exists e :: e in es && (Unparsable(f, lang) <==> Unparsable(e, lang)) {
      if f in Staying(es, id) { assert f in es; }
    }
  }

  // ----- The candidates of the composed graph -----

  lemma {:induction false} KeptCandidates(es: seq<GraphEdge>, id: string, v: string)
    requires v != id
    ensures EdgesFrom(KeptEdges(es, id), v) == Staying(EdgesFrom(es, v), id)
  {
    if es != [] {
      KeptCandidates(es[1..], id, v);
      var kept := KeptEdges(es[1..], id);
      assert ([es[0]] + kept)[1..] == kept;
      assert ([es[0]] + EdgesFrom(es[1..], v))[1..] == EdgesFrom(es[1..], v);
    }
  }

  lemma {:induction false} TurnedCandidates(es: seq<GraphEdge>, id: string, start: string, v: string)
    ensures EdgesFrom(WithTarget(EdgesTo(es, id), start), v) == Turning(EdgesFrom(es, v), id, start)
  {
    if es != [] {
      TurnedCandidates(es[1..], id, start, v);
      var ins := EdgesTo(es[1..], id);
      WithTargetCons(es[0], ins, start);
      assert ([es[0]] + EdgesFrom(es[1..], v))[1..] == EdgesFrom(es[1..], v);
    }
  }

  lemma WithTargetCons(e: GraphEdge, es: seq<GraphEdge>, to: string)
    ensures WithTarget([e] + es, to)[1..] == WithTarget(es, to)
    ensures WithTarget([e] + es, to)[0] == e.(to := to)
  {
  }

  lemma NoCandidates(es: seq<GraphEdge>, v: string)
    requires forall e :: e in es ==> e.from != v
    ensures EdgesFrom(es, v) == []
  {
    EdgesFromMembers(es, v);
    assert EdgesFrom(es, v) != [] ==> EdgesFrom(es, v)[0] in EdgesFrom(es, v);
  }

  lemma ComposedCandidates(parent: Graph, sub: Graph, id: string, v: string)
    requires HasBoundary(sub)
    ensures var s, x := PrefixId(id, StartId(sub)), PrefixId(id, ExitId(sub));
            EdgesFrom(Inlined(parent, sub, id).edges, v) ==
            EdgesFrom(KeptEdges(parent.edges, id), v) + EdgesFrom(WithTarget(EdgesTo(parent.edges, id), s), v)
            + EdgesFrom(WithSource(EdgesFrom(parent.edges, id), x), v) + EdgesFrom(InlineEdges(sub.edges, id), v)
  {
    var s, x := PrefixId(id, StartId(sub)), PrefixId(id, ExitId(sub));
    var a, b := KeptEdges(parent.edges, id), WithTarget(EdgesTo(parent.edges, id), s);
    var c, d := WithSource(EdgesFrom(parent.edges, id), x), InlineEdges(sub.edges, id);
    EdgesFromAppend(a, b, v);
    EdgesFromAppend(a + b, c, v);
    EdgesFromAppend(a + b + c, d, v);
  }

  lemma OuterCandidatesComposed(parent: Graph, sub: Graph, id: string, v: string)
    requires HasBoundary(sub) && v != id && !Below(id, v)
    ensures var es := EdgesFrom(parent.edges, v);
            EdgesFrom(Inlined(parent, sub, id).edges, v) ==
            Staying(es, id) + Turning(es, id, PrefixId(id, StartId(sub)))
  {
    var s, x := PrefixId(id, StartId(sub)), PrefixId(id, ExitId(sub));
    ComposedCandidates(parent, sub, id, v);
    KeptCandidates(parent.edges, id, v);
    TurnedCandidates(parent.edges, id, s, v);
    StripPrefixId(id, ExitId(sub), v);
    NoCandidates(WithSource(EdgesFrom(parent.edges, id), x), v);
    InnerEdgesLeaveInside(sub.edges, id);
    NoCandidates(InlineEdges(sub.edges, id), v);
  }

  lemma InsideCandidatesComposed(parent: Graph, sub: Graph, id: string, v: string)
    requires HasBoundary(sub) && NothingBelow(parent.edges, id) && Below(id, v)
    ensures EdgesFrom(Inlined(parent, sub, id).edges, v) ==
            EdgesFrom(WithSource(EdgesFrom(parent.edges, id), PrefixId(id, ExitId(sub))), v)
            + EdgesFrom(InlineEdges(sub.edges, id), v)
  {
    hide Inlined, PrefixId, StartId, ExitId, KeptEdges, EdgesTo, EdgesFrom, InlineEdges, WithSource;
    var s := PrefixId(id, StartId(sub));
    ComposedCandidates(parent, sub, id, v);
    KeptEdgesMembers(parent.edges, id);
    NoCandidates(KeptEdges(parent.edges, id), v);
    EdgesToMembers(parent.edges, id);
    var ins := EdgesTo(parent.edges, id);
    forall i | 0 <= i < |ins| ensures WithTarget(ins, s)[i].from != v {
      assert ins[i] in ins;
    }
    NoCandidates(WithTarget(ins, s), v);
  }

  lemma InnerEdgesLeaveInside(es: seq<GraphEdge>, id: string)
    ensures forall e :: e in InlineEdges(es, id) ==> Below(id, e.from)
  {
    forall i | 0 <= i < |es| ensures Below(id, InlineEdge(es[i], id).from) {
      StripPrefixId(id, es[i].from, "");
    }
  }

  // At an outer node the composed graph selects the image of the parent's edge.
  lemma SelectAtOuterNode(parent: Graph, sub: Graph, id: string, v: string, q: Query)
    requires HasBoundary(sub) && v != id && !Below(id, v)
    requires AllUndisturbed(EdgesFrom(parent.edges, v), id, StartId(sub))
    requires NeutralOutcome(q, id, PrefixId(id, StartId(sub)))
    ensures Select(Inlined(parent, sub, id), v, q).Err? <==> Select(parent, v, q).Err?
    ensures Select(parent, v, q).Ok? ==>
              Select(Inlined(parent, sub, id), v, q) ==
              Ok(TurnedOption(Select(parent, v, q).value, id, PrefixId(id, StartId(sub))))
  {
    OuterCandidatesComposed(parent, sub, id, v);
    UnparsableTurned(EdgesFrom(parent.edges, v), q.lang, id, PrefixId(id, StartId(sub)));
    SelectTierTurned(EdgesFrom(parent.edges, v), q, id, StartId(sub));
  }

  lemma FirstTurns(a: GraphEdge, b: GraphEdge, id: string, start: string)
    requires a.to == id && b.to != id
    ensures Staying([a, b], id) + Turning([a, b], id, start) == [b, a.(to := start)]
  {
    var last := [b];
    assert [a, b][1..] == last && last[1..] == [];
    assert last[0] == b;
    assert Staying(last, id) == [b] + Staying(last[1..], id) == [b];
    assert Turning(last, id, start) == Turning(last[1..], id, start) == [];
  }

  // The condition on targets is exact: between two unlabelled edges of equal priority, one of
  // them into the replaced node, the choice survives inlining exactly when the other target
  // does not disturb the tie-break.
  lemma TieBreakExact(v: string, id: string, child: string, t: string, q: Query)
    requires t != id && t != PrefixId(id, child) && NeutralOutcome(q, id, PrefixId(id, child))
    requires q.outcome.Some? ==> (q.outcome.value.Suggests(id) <==> q.outcome.value.Suggests(t))
    ensures var es := [PlainEdge(v, id), PlainEdge(v, t)];
            (SelectAmong(Staying(es, id) + Turning(es, id, PrefixId(id, child)), q)
             == Ok(TurnedOption(SelectAmong(es, q).value, id, PrefixId(id, child))))
            <==> Undisturbed(id, child, t)
  {
    var start := PrefixId(id, child);
    var es := [PlainEdge(v, id), PlainEdge(v, t)];
    var fs := Staying(es, id) + Turning(es, id, start);
    FirstTurns(es[0], es[1], id, start);
    assert fs == [PlainEdge(v, t), PlainEdge(v, start)];
    UniformTiers(es, q);
    UniformTiers(fs, q);
    TwoCandidates(es[0], es[1]);
    TwoCandidates(fs[0], fs[1]);
    UndisturbedIff(id, child, t);
    LessTotal(id, t);
    LessTotal(start, t);
    AheadOrder(es[0], es[1], es[0]);
    AheadOrder(fs[0], fs[1], fs[0]);
  }

  function PlainEdge(from: string, to: string): GraphEdge {
    GraphEdge(from, to, None, None, None, false, map[])
  }

  lemma TwoCandidates(a: GraphEdge, b: GraphEdge)
    ensures Best([a, b]) == Some(if Ahead(b, a) then b else a)
  {
    assert [a, b][1..] == [b] && [b][1..] == [];
    assert Best([b]) == Some(b);
  }

  lemma TierOfTwo(t: Tier, a: GraphEdge, b: GraphEdge, q: Query)
    ensures Tiered(t, [a, b], q) == (if InTier(t, a, q) then [a] else []) + (if InTier(t, b, q) then [b] else [])
  {
    hide InTier;
    assert [a, b][1..] == [b] && [b][1..] == [];
    assert Tiered(t, [b], q) == if InTier(t, b, q) then [b] else [];
  }

  // Two plain candidates that the outcome suggests alike are in the same tiers.
  lemma UniformTiers(es: seq<GraphEdge>, q: Query)
    requires |es| == 2 && es[0] == PlainEdge(es[0].from, es[0].to) && es[1] == PlainEdge(es[1].from, es[1].to)
    requires q.outcome.Some? ==> (q.outcome.value.Suggests(es[0].to) <==> q.outcome.value.Suggests(es[1].to))
    ensures SelectAmong(es, q) == Ok(Best(es))
  {
    assert es[1..][1..] == [];
    assert es[1..] == [es[1]] && es == [es[0], es[1]];
    forall t ensures Tiered(t, es, q) == if InTier(t, es[0], q) then es else [] {
      assert InTier(t, es[0], q) == InTier(t, es[1], q);
      TierOfTwo(t, es[0], es[1], q);
    }
  }

  // A hyphen is such a disturbance: it makes the composed graph take the other branch.
  lemma HyphenFlipsTheTieBreak(q: Query)
    requires q.outcome.None?
    ensures var es := [PlainEdge("v", "a"), PlainEdge("v", "a-b")];
            SelectAmong(es, q) == Ok(Some(PlainEdge("v", "a")))
            && SelectAmong(Staying(es, "a") + Turning(es, "a", "a.s"), q) == Ok(Some(PlainEdge("v", "a-b")))
  {
    var es := [PlainEdge("v", "a"), PlainEdge("v", "a-b")];
    FirstTurns(es[0], es[1], "a", "a.s");
    var fs := Staying(es, "a") + Turning(es, "a", "a.s");
    assert fs == [PlainEdge("v", "a-b"), PlainEdge("v", "a.s")];
    UniformTiers(es, q);
    UniformTiers(fs, q);
    TwoCandidates(es[0], es[1]);
    TwoCandidates(fs[0], fs[1]);
    LessCommonPrefix("a", "", "-b");
    LessCommonPrefix("a", "-b", ".s");
    LessCommonPrefix("a", ".s", "-b");
    LessCommonPrefix("a", "-b", "");
    assert "a" + "" == "a" && "a" + "-b" == "a-b" && "a" + ".s" == "a.s";
  }

  lemma SecondTurns(a: GraphEdge, b: GraphEdge, id: string, start: string)
    requires a.to != id && b.to == id
    ensures Staying([a, b], id) + Turning([a, b], id, start) == [a, b.(to := start)]
  {
    var last := [b];
    assert [a, b][1..] == last && last[1..] == [];
    assert last[0] == b;
    assert Staying(last, id) == Staying(last[1..], id) == [];
    assert Turning(last, id, start) == [b.(to := start)] + Turning(last[1..], id, start) == [b.(to := start)];
  }

  // A suggestion of the replaced node itself is lost, because no inlined node bears its name.
  lemma SuggestionOfReplacedNodeIsLost(q: Query)
    requires q.outcome == Some(Success(None, None, Some(["z"]), None, None))
    ensures var es := [PlainEdge("v", "a"), PlainEdge("v", "z")];
            SelectAmong(es, q) == Ok(Some(PlainEdge("v", "z")))
            && SelectAmong(Staying(es, "z") + Turning(es, "z", "z.s"), q) == Ok(Some(PlainEdge("v", "a")))
  {
    var a, z, s := PlainEdge("v", "a"), PlainEdge("v", "z"), PlainEdge("v", "z.s");
    SecondTurns(a, z, "z", "z.s");
    TierOfTwo(Passing, a, z, q);
    TierOfTwo(Suggested, a, z, q);
    TierSteps([a, z], q);
    assert Best([z]) == Some(z);
    UniformTiers([a, s], q);
    TwoCandidates(a, s);
  }

  // ----- Why suggestions matter -----

  function UrgentEdge(from: string, to: string): GraphEdge {
    PlainEdge(from, to).(priority := Some(1))
  }

  // Beside a more urgent edge to a node that is not suggested, an edge is chosen exactly when its
  // target is suggested.
  lemma SuggestionDecides(v: string, t: string, u: string, q: Query)
    requires q.outcome.Some? && !q.outcome.value.Suggests(u)
    ensures var low, high := PlainEdge(v, t), UrgentEdge(v, u);
            var chosen := Some(if q.outcome.value.Suggests(t) then low else high);
            SelectTier([low, high], q) == chosen && SelectTier([high, low], q) == chosen
  {
    var low, high := PlainEdge(v, t), UrgentEdge(v, u);
    OneSuggested(low, high, q);
    OneSuggested(high, low, q);
    TwoCandidates(low, high);
    TwoCandidates(high, low);
    assert Best([low]) == Some(low);
  }

  // Two candidates without captions and conditions, of which at most one is suggested.
  lemma OneSuggested(a: GraphEdge, b: GraphEdge, q: Query)
    requires a.condition.None? && a.caption.None? && b.condition.None? && b.caption.None?
    requires q.outcome.Some?
    ensures var o := q.outcome.value;
            SelectTier([a, b], q) ==
            if o.Suggests(a.to) && !o.Suggests(b.to) then Best([a])
            else if o.Suggests(b.to) && !o.Suggests(a.to) then Best([b]) else Best([a, b])
  {
    TierOfTwo(Passing, a, b, q);
    TierOfTwo(Preferred, a, b, q);
    TierOfTwo(Suggested, a, b, q);
    TierOfTwo(OutcomeLabel, a, b, q);
    TierOfTwo(Unconditional, a, b, q);
  }


  function Zs(n: nat): string {
    seq(n, _ => 'z')
  }

  // A target longer than n and than everything that the outcome suggests.
  lemma LongTarget(o: Outcome, n: nat) returns (u: string)
    ensures |u| > n && u == Zs(|u|) && forall t :: o.Suggests(t) ==> |t| < |u|
  {
    var ids := if o.SuggestedNextIds().Some? then o.SuggestedNextIds().value else [];
    var m := LongerThanAll(ids, n);
    u := Zs(m);
  }

  lemma ZsUndisturbed(id: string, child: string, n: nat)
    requires n > |id|
    ensures Undisturbed(id, child, Zs(n))
  {
    assert (id + ".")[|id|] == '.' && Zs(n)[|id|] == 'z';
  }

  lemma {:induction false} LongerThanAll(ids: seq<string>, n: nat) returns (m: nat)
    ensures m > n && forall t :: t in ids ==> |t| < m
  {
    if ids == [] {
      m := n + 1;
    } else {
      m := LongerThanAll(ids[1..], if |ids[0]| > n then |ids[0]| else n);
    }
  }

  ghost predicate CommutesOutside(es: seq<GraphEdge>, q: Query, id: string, child: string) {
    SelectTier(Staying(es, id) + Turning(es, id, PrefixId(id, child)), q)
    == TurnedOption(SelectTier(es, q), id, PrefixId(id, child))
  }

  // The condition on the outcome is exact: the selection at outer nodes survives inlining for all
  // candidates with undisturbing targets exactly when the outcome suggests the replaced node and
  // the inlined start alike.
  lemma NeutralityExact(q: Query, id: string, child: string)
    ensures NeutralOutcome(q, id, PrefixId(id, child)) <==>
            forall es :: AllUndisturbed(es, id, child) ==> CommutesOutside(es, q, id, child)
  {
    var start := PrefixId(id, child);
    if NeutralOutcome(q, id, start) {
      forall es | AllUndisturbed(es, id, child) ensures CommutesOutside(es, q, id, child) {
        SelectTierTurned(es, q, id, child);
      }
    } else {
      var u := LongTarget(q.outcome.value, |start|);
      var low, high := PlainEdge("v", id), UrgentEdge("v", u);
      FirstTurns(low, high, id, start);
      SuggestionDecides("v", id, u, q);
      SuggestionDecides("v", start, u, q);
      ZsUndisturbed(id, child, |u|);
      assert AllUndisturbed([low, high], id, child);
      assert !CommutesOutside([low, high], q, id, child);
    }
  }

  // ----- Nodes inside the sub-graph -----

  // Candidates that agree position by position on tiers and on the order are selected alike.
  lemma SelectPositional(es: seq<GraphEdge>, q: Query, fs: seq<GraphEdge>, r: Query)
    requires |es| == |fs|
    requires forall t, i :: 0 <= i < |es| ==> InTier(t, es[i], q) == InTier(t, fs[i], r)
    requires forall i, j :: 0 <= i < |es| && 0 <= j < |es| ==> Ahead(es[i], es[j]) == Ahead(fs[i], fs[j])
    requires forall i :: 0 <= i < |es| ==> Unparsable(es[i], q.lang) == Unparsable(fs[i], r.lang)
    ensures SelectAmong(es, q).Err? <==> SelectAmong(fs, r).Err?
    ensures SelectAmong(es, q) == Ok(None) <==> SelectAmong(fs, r) == Ok(None)
    ensures SelectAmong(es, q).Ok? && SelectAmong(es, q).value.Some? ==>
              exists i :: 0 <= i < |es| && SelectAmong(es, q).value == Some(es[i])
                          && SelectAmong(fs, r) == Ok(Some(fs[i]))
  {
    hide InTier, Ahead, SelectAmong, Unparsable;
    SamePartiality(es, q, fs, r);
    SelectRefinesTiers(es, q);
    SelectRefinesTiers(fs, r);
    if SelectAmong(es, q).Ok? && SelectAmong(es, q).value.Some? {
      var k, i :| ChosenAt(es, q, k, i) && SelectAmong(es, q).value == Some(es[i]);
      SameChoice(es, q, fs, r, k, i);
      ParsableWhenOk(fs, r);
    }
  }

  lemma ParsableWhenOk(es: seq<GraphEdge>, q: Query)
    ensures SelectAmong(es, q).Ok? <==> FirstUnparsable(es, q.lang).None?
  {
  }

  lemma SamePartiality(es: seq<GraphEdge>, q: Query, fs: seq<GraphEdge>, r: Query)
    requires |es| == |fs|
    requires forall t, i :: 0 <= i < |es| ==> InTier(t, es[i], q) == InTier(t, fs[i], r)
    requires forall i :: 0 <= i < |es| ==> Unparsable(es[i], q.lang) == Unparsable(fs[i], r.lang)
    ensures SelectAmong(es, q).Err? <==> SelectAmong(fs, r).Err?
    ensures SelectAmong(es, q) == Ok(None) <==> SelectAmong(fs, r) == Ok(None)
  {
    hide SelectAmong, InTier, Unparsable;
    FailsAt(es, q);
    FailsAt(fs, r);
    EmptyAt(es, q);
    EmptyAt(fs, r);
  }

  // The candidates by position: when selection fails, and when it selects nothing.
  lemma FailsAt(es: seq<GraphEdge>, q: Query)
    ensures SelectAmong(es, q).Err? <==> exists i :: 0 <= i < |es| && Unparsable(es[i], q.lang)
  {
    SelectRefinesTiers(es, q);
  }

  lemma EmptyAt(es: seq<GraphEdge>, q: Query)
    ensures SelectAmong(es, q) == Ok(None) <==>
            forall i :: 0 <= i < |es| ==>
              (!InTier(Unconditional, es[i], q) && !InTier(Passing, es[i], q) && !Unparsable(es[i], q.lang))
  {
    SelectRefinesTiers(es, q);
    assert forall i :: 0 <= i < |es| ==> es[i] in es;
  }

  lemma SameChoice(es: seq<GraphEdge>, q: Query, fs: seq<GraphEdge>, r: Query, k: int, i: int)
    requires |es| == |fs|
    requires forall t, i :: 0 <= i < |es| ==> InTier(t, es[i], q) == InTier(t, fs[i], r)
    requires forall i, j :: 0 <= i < |es| && 0 <= j < |es| ==> Ahead(es[i], es[j]) == Ahead(fs[i], fs[j])
    ensures ChosenAt(es, q, k, i) ==> ChosenAt(fs, r, k, i)
  {
  }

  // The outcome suggests a node of the sub-graph and its inlined form alike.
  ghost predicate NeutralTarget(q: Query, id: string, t: string) {
    NeutralOutcome(q, t, PrefixId(id, t))
  }

  ghost predicate NeutralInside(es: seq<GraphEdge>, q: Query, id: string) {
    forall e :: e in es ==> NeutralTarget(q, id, e.to)
  }

  lemma InlineKeepsOrder(a: GraphEdge, b: GraphEdge, id: string)
    ensures Ahead(InlineEdge(a, id), InlineEdge(b, id)) == Ahead(a, b)
  {
    LessCommonPrefix(id + ".", a.to, b.to);
  }

  lemma {:induction false} InnerCandidates(es: seq<GraphEdge>, id: string, x: string)
    ensures EdgesFrom(InlineEdges(es, id), PrefixId(id, x)) == InlineEdges(EdgesFrom(es, x), id)
  {
    if es != [] {
      InnerCandidates(es[1..], id, x);
      PrefixIdInjective(id, es[0].from, x);
      InlineEdgesCons(es[0], es[1..], id);
      InlineEdgesCons(es[0], EdgesFrom(es[1..], x), id);
      assert es == [es[0]] + es[1..];
    }
  }

  lemma InlineEdgesCons(e: GraphEdge, es: seq<GraphEdge>, id: string)
    ensures InlineEdges([e] + es, id) == [InlineEdge(e, id)] + InlineEdges(es, id)
    ensures InlineEdges([e] + es, id)[1..] == InlineEdges(es, id)
  {
  }

  function InlineOption(e: Option<GraphEdge>, id: string): Option<GraphEdge> {
    if e.None? then None else Some(InlineEdge(e.value, id))
  }

  ghost predicate CommutesInside(es: seq<GraphEdge>, q: Query, id: string) {
    var r := SelectAmong(InlineEdges(es, id), q);
    (r.Err? <==> SelectAmong(es, q).Err?)
    && (SelectAmong(es, q).Ok? ==> r == Ok(InlineOption(SelectAmong(es, q).value, id)))
  }

  // At an inlined node other than the exit, with the same outcome, the composed graph selects the
  // image of the sub-graph's edge.
  lemma SelectAtInnerNode(parent: Graph, sub: Graph, id: string, x: string, q: Query)
    requires HasBoundary(sub) && NothingBelow(parent.edges, id) && x != ExitId(sub)
    requires NeutralInside(EdgesFrom(sub.edges, x), q, id)
    ensures var r := Select(Inlined(parent, sub, id), PrefixId(id, x), q);
            (r.Err? <==> Select(sub, x, q).Err?)
            && (Select(sub, x, q).Ok? ==> r == Ok(InlineOption(Select(sub, x, q).value, id)))
  {
    var v := PrefixId(id, x);
    StripPrefixId(id, x, "");
    PrefixIdInjective(id, x, ExitId(sub));
    InsideCandidatesComposed(parent, sub, id, v);
    NoCandidates(WithSource(EdgesFrom(parent.edges, id), PrefixId(id, ExitId(sub))), v);
    InnerCandidates(sub.edges, id, x);
    var es := EdgesFrom(sub.edges, x);
    assert EdgesFrom(Inlined(parent, sub, id).edges, v) == InlineEdges(es, id);
    InlinedSelection(es, q, id);
  }

  lemma InlinedSelection(es: seq<GraphEdge>, q: Query, id: string)
    requires NeutralInside(es, q, id)
    ensures CommutesInside(es, q, id)
  {
    var fs := InlineEdges(es, id);
    forall t, i | 0 <= i < |es| ensures InTier(t, es[i], q) == InTier(t, fs[i], q) {
      assert es[i] in es && NeutralTarget(q, id, es[i].to);
    }
    forall i, j | 0 <= i < |es| && 0 <= j < |es| ensures Ahead(es[i], es[j]) == Ahead(fs[i], fs[j]) {
      InlineKeepsOrder(es[i], es[j], id);
    }
    hide InTier, Ahead;
    SelectPositional(es, q, fs, q);
  }

  // Every candidate leads to a given target, or to a node that is not suggested under either name.
  ghost predicate LeadsTo(es: seq<GraphEdge>, q: Query, id: string, targets: set<string>) {
    forall e :: e in es ==>
      e.to in targets
      || (q.outcome.Some? ==> !q.outcome.value.Suggests(e.to) && !q.outcome.value.Suggests(PrefixId(id, e.to)))
  }

  // The condition on the outcome is exact here as well: the selection among candidates to some
  // targets survives inlining exactly when the outcome suggests each of them and its inlined form
  // alike.
  lemma InnerNeutralityExact(q: Query, id: string, targets: set<string>)
    ensures (forall t :: t in targets ==> NeutralTarget(q, id, t)) <==>
            forall es :: LeadsTo(es, q, id, targets) ==> CommutesInside(es, q, id)
  {
    if forall t :: t in targets ==> NeutralTarget(q, id, t) {
      forall es | LeadsTo(es, q, id, targets) ensures CommutesInside(es, q, id) {
        InlinedSelection(es, q, id);
      }
    } else {
      var t :| t in targets && !NeutralTarget(q, id, t);
      var u := LongTarget(q.outcome.value, 0);
      var es := [PlainEdge("v", t), UrgentEdge("v", u)];
      assert LeadsTo(es, q, id, targets);
      InlinedPair("v", t, u, q, id);
    }
  }

  lemma InlinedPair(v: string, t: string, u: string, q: Query, id: string)
    requires q.outcome.Some? && !q.outcome.value.Suggests(u) && !q.outcome.value.Suggests(PrefixId(id, u))
    requires t != u && !NeutralTarget(q, id, t)
    ensures !CommutesInside([PlainEdge(v, t), UrgentEdge(v, u)], q, id)
  {
    var es := [PlainEdge(v, t), UrgentEdge(v, u)];
    var fs := InlineEdges(es, id);
    assert fs == [PlainEdge(PrefixId(id, v), PrefixId(id, t)), UrgentEdge(PrefixId(id, v), PrefixId(id, u))];
    SuggestionDecides(v, t, u, q);
    SuggestionDecides(PrefixId(id, v), PrefixId(id, t), PrefixId(id, u), q);
    PrefixIdInjective(id, t, u);
    assert FirstUnparsable(es, q.lang).None? && FirstUnparsable(fs, q.lang).None?;
  }

  // A suggestion by a sub-graph's own name is lost, because the inlined node bears another one.
  lemma SuggestionOfInnerNodeIsLost(q: Query)
    requires q.outcome == Some(Success(None, None, Some(["b"]), None, None))
    ensures var es := [PlainEdge("x", "a"), PlainEdge("x", "b")];
            SelectAmong(es, q) == Ok(Some(PlainEdge("x", "b")))
            && SelectAmong(InlineEdges(es, "p"), q) == Ok(Some(PlainEdge("p.x", "p.a")))
  {
    var a, b := PlainEdge("x", "a"), PlainEdge("x", "b");
    var c, d := PlainEdge("p.x", "p.a"), PlainEdge("p.x", "p.b");
    OneSuggested(a, b, q);
    assert Best([b]) == Some(b);
    assert FirstUnparsable([a, b], q.lang).None?;
    assert PrefixId("p", "x") == "p.x" && PrefixId("p", "a") == "p.a" && PrefixId("p", "b") == "p.b";
    assert InlineEdges([a, b], "p") == [c, d];
    UniformTiers([c, d], q);
    TwoCandidates(c, d);
    LessCommonPrefix("p.", "b", "a");
    assert "p." + "a" == "p.a" && "p." + "b" == "p.b";
  }

  // ----- An exit that the sub-graph leaves again -----

  // The first tier that an edge belongs to.
  function TierOf(e: GraphEdge, q: Query): (k: nat)
    ensures k < |TIERS|
  {
    if InTier(Passing, e, q) then 0
    else if InTier(Preferred, e, q) then 1
    else if InTier(Suggested, e, q) then 2
    else if InTier(OutcomeLabel, e, q) then 3
    else 4
  }

  // Two selections compete by tier, then as two candidates of the same tier.
  function Rival(a: Option<GraphEdge>, b: Option<GraphEdge>, q: Query): Option<GraphEdge> {
    if a.None? then b
    else if b.None? then a
    else if TierOf(a.value, q) < TierOf(b.value, q) then a
    else if TierOf(b.value, q) < TierOf(a.value, q) then b
    else Prefer(a.value, b)
  }

  lemma EmptyTier(t: Tier, es: seq<GraphEdge>, q: Query)
    ensures Tiered(t, es, q) == [] <==> forall j :: 0 <= j < |es| ==> !InTier(t, es[j], q)
  {
    TieredMembers(t, es, q);
    assert Tiered(t, es, q) != [] ==> Tiered(t, es, q)[0] in Tiered(t, es, q);
    assert forall j :: 0 <= j < |es| ==> es[j] in es;
  }

  lemma TierOfSelected(es: seq<GraphEdge>, q: Query)
    ensures SelectTier(es, q).None? ==> forall t :: Tiered(t, es, q) == []
    ensures SelectTier(es, q).Some? ==>
              var k := TierOf(SelectTier(es, q).value, q);
              SelectTier(es, q) == Best(Tiered(TIERS[k], es, q)) && Tiered(TIERS[k], es, q) != []
              && forall l :: 0 <= l < k ==> Tiered(TIERS[l], es, q) == []
  {
    forall t ensures forall e :: e in Tiered(t, es, q) <==> e in es && InTier(t, e, q) {
      TieredMembers(t, es, q);
    }
    forall t ensures Tiered(t, es, q) != [] ==> Tiered(t, es, q)[0] in Tiered(t, es, q) {
    }
    if SelectTier(es, q).Some? {
      var k, i := SelectTierSpec(es, q);
      NoneBefore(es, q, k, i);
      assert TIERS[0] == Passing && TIERS[1] == Preferred && TIERS[2] == Suggested;
      assert TIERS[3] == OutcomeLabel && TIERS[4] == Unconditional;
    }
  }

  lemma NoneBefore(es: seq<GraphEdge>, q: Query, k: nat, i: nat)
    requires ChosenAt(es, q, k, i)
    ensures TierOf(es[i], q) == k && Tiered(TIERS[k], es, q) != []
    ensures forall l :: 0 <= l < k ==> Tiered(TIERS[l], es, q) == []
  {
    hide InTier;
    EmptyTier(TIERS[k], es, q);
    assert TIERS[0] == Passing && TIERS[1] == Preferred && TIERS[2] == Suggested && TIERS[3] == OutcomeLabel;
    forall l | 0 <= l < k ensures Tiered(TIERS[l], es, q) == [] && !InTier(TIERS[l], es[i], q) {
      EmptyTier(TIERS[l], es, q);
    }
  }

  // The selection among two lists together is the better of the two selections.
  lemma SelectAppend(a: seq<GraphEdge>, b: seq<GraphEdge>, q: Query)
    ensures SelectTier(a + b, q) == Rival(SelectTier(a, q), SelectTier(b, q), q)
  {
    hide InTier, TierOf, Ahead, SelectTier, Tiered;
    TierOfSelected(a, q);
    TierOfSelected(b, q);
    var s, u := SelectTier(a, q), SelectTier(b, q);
    var k := if s.None? then (if u.None? then 4 else TierOf(u.value, q))
             else if u.None? || TierOf(s.value, q) < TierOf(u.value, q) then TierOf(s.value, q)
             else TierOf(u.value, q);
    forall l | 0 <= l <= k ensures Tiered(TIERS[l], a + b, q) == Tiered(TIERS[l], a, q) + Tiered(TIERS[l], b, q)
                           && Best(Tiered(TIERS[l], a + b, q))
                              == Prefers(Best(Tiered(TIERS[l], a, q)), Best(Tiered(TIERS[l], b, q)))
    {
      TieredAppend(TIERS[l], a, b, q);
      BestAppend(Tiered(TIERS[l], a, q), Tiered(TIERS[l], b, q));
    }
    FirstTier(a + b, q, k);
  }

  // The selection is the best candidate of the first tier that has one, or of the last tier.
  lemma FirstTier(es: seq<GraphEdge>, q: Query, k: nat)
    requires k < |TIERS| && (k == 4 || Tiered(TIERS[k], es, q) != [])
    requires forall l :: 0 <= l < k ==> Tiered(TIERS[l], es, q) == []
    ensures SelectTier(es, q) == Best(Tiered(TIERS[k], es, q))
  {
    assert TIERS[0] == Passing && TIERS[1] == Preferred && TIERS[2] == Suggested;
    assert TIERS[3] == OutcomeLabel && TIERS[4] == Unconditional;
  }

  lemma FailAppend(a: seq<GraphEdge>, b: seq<GraphEdge>, q: Query)
    ensures SelectAmong(a + b, q).Err? <==> SelectAmong(a, q).Err? || SelectAmong(b, q).Err?
    ensures SelectAmong(a, q).Ok? && SelectAmong(b, q).Ok? ==>
              SelectAmong(a + b, q) == Ok(Rival(SelectAmong(a, q).value, SelectAmong(b, q).value, q))
  {
    hide SelectTier, Rival, Unparsable;
    SelectAppend(a, b, q);
    assert forall e :: e in a + b <==> e in a || e in b;
  }

  // At the inlined exit the edges that the parent has at the replaced node compete with those
  // that the sub-graph has at its exit, tier by tier.
  lemma SelectAtAnyExit(parent: Graph, sub: Graph, id: string, q: Query)
    requires HasBoundary(sub) && NothingBelow(parent.edges, id)
    requires NeutralInside(EdgesFrom(sub.edges, ExitId(sub)), q, id)
    ensures var x := PrefixId(id, ExitId(sub));
            var outer, inner := Select(parent, id, q), Select(sub, ExitId(sub), q);
            var r := Select(Inlined(parent, sub, id), x, q);
            (r.Err? <==> outer.Err? || inner.Err?)
            && (outer.Ok? && inner.Ok? ==>
                  r == Ok(Rival(MoveOption(outer.value, x), InlineOption(inner.value, id), q)))
  {
    hide Inlined, InTier, SelectAmong, PrefixId, Rival;
    var x := PrefixId(id, ExitId(sub));
    var outer, inner := EdgesFrom(parent.edges, id), EdgesFrom(sub.edges, ExitId(sub));
    ExitCandidates(parent, sub, id);
    SelectMoved(outer, x, q);
    InlinedSelection(inner, q, id);
    FailAppend(WithSource(outer, x), InlineEdges(inner, id), q);
  }

  function MoveOption(e: Option<GraphEdge>, from: string): Option<GraphEdge> {
    if e.None? then None else Some(e.value.(from := from))
  }

  // Hence it selects the image of what the parent selects at the replaced node, when nothing
  // leaves the exit inside the sub-graph.
  lemma SelectAtExit(parent: Graph, sub: Graph, id: string, q: Query)
    requires HasBoundary(sub) && NothingBelow(parent.edges, id)
    requires EdgesFrom(sub.edges, ExitId(sub)) == []
    ensures var x := PrefixId(id, ExitId(sub));
            var r := Select(Inlined(parent, sub, id), x, q);
            (r.Err? <==> Select(parent, id, q).Err?)
            && (Select(parent, id, q).Ok? ==> r == Ok(MoveOption(Select(parent, id, q).value, x)))
  {
    hide Inlined, PrefixId;
    SelectAtAnyExit(parent, sub, id, q);
  }

  // Moving the source of all candidates moves the source of the selected one.
  lemma SelectMoved(es: seq<GraphEdge>, x: string, q: Query)
    ensures var r := SelectAmong(WithSource(es, x), q);
            (r.Err? <==> SelectAmong(es, q).Err?)
            && (SelectAmong(es, q).Ok? ==> r == Ok(MoveOption(SelectAmong(es, q).value, x)))
  {
    hide SelectAmong;
    SelectPositional(es, q, WithSource(es, x), q);
  }

  lemma ExitCandidates(parent: Graph, sub: Graph, id: string)
    requires HasBoundary(sub) && NothingBelow(parent.edges, id)
    ensures EdgesFrom(Inlined(parent, sub, id).edges, PrefixId(id, ExitId(sub)))
            == WithSource(EdgesFrom(parent.edges, id), PrefixId(id, ExitId(sub)))
               + InlineEdges(EdgesFrom(sub.edges, ExitId(sub)), id)
  {
    hide Inlined, StartId, ExitId;
    var x := PrefixId(id, ExitId(sub));
    StripPrefixId(id, ExitId(sub), "");
    InsideCandidatesComposed(parent, sub, id, x);
    InnerCandidates(sub.edges, id, ExitId(sub));
    AllLeave(WithSource(EdgesFrom(parent.edges, id), x), x);
  }

  lemma {:induction false} AllLeave(es: seq<GraphEdge>, v: string)
    requires forall e :: e in es ==> e.from == v
    ensures EdgesFrom(es, v) == es
  {
    if es != [] {
      assert es[0] in es && forall e :: e in es[1..] ==> e in es;
      AllLeave(es[1..], v);
    }
  }
}
