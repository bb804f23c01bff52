// Walks through a composed graph are exactly the parent's walks with sub-graph walks spliced in.
module CompositionWalks {
  import opened Graphs
  import opened Strings
  import opened Composition

  // A non-empty sequence of nodes, each linked to the next.
  ghost predicate IsWalk(g: Graph, w: seq<string>) {
    w != [] && forall i :: 0 <= i < |w| - 1 ==> Link(g, w[i], w[i + 1])
  }

  ghost predicate Reaches(g: Graph, a: string, b: string) {
    exists w :: IsWalk(g, w) && w[0] == a && w[|w| - 1] == b
  }

  // A walk seen from the parent: outer nodes, and stays inside the inlined sub-graph.
  datatype Visit = Outer(id: string) | Inside(walk: seq<string>)

  ghost predicate GoodVisit(sub: Graph, id: string, v: Visit)
    requires HasBoundary(sub)
  {
    match v
    case Outer(x) => x != id && !Inner(sub, id, x)
    case Inside(w) => IsWalk(sub, w) && forall x :: x in w ==> x in Names(sub)
  }

  // The parent walk behind a sequence of visits.
  function Project(vs: seq<Visit>, id: string): seq<string> {
    seq(|vs|, i requires 0 <= i < |vs| => if vs[i].Outer? then vs[i].id else id)
  }

  function Prefixed(w: seq<string>, id: string): (r: seq<string>)
    ensures |r| == |w|
  {
    seq(|w|, i requires 0 <= i < |w| => PrefixId(id, w[i]))
  }

  function FlattenVisit(v: Visit, id: string): seq<string> {
    if v.Outer? then [v.id] else Prefixed(v.walk, id)
  }

  // The composed walk that a sequence of visits stands for.
  function Flatten(vs: seq<Visit>, id: string): seq<string> {
    if vs == [] then [] else FlattenVisit(vs[0], id) + Flatten(vs[1..], id)
  }

  // Group the nodes of a composed walk into visits.
  function Group(w: seq<string>, sub: Graph, id: string): seq<Visit>
    requires HasBoundary(sub)
  {
    if w == [] then []
    else
      var rest := Group(w[1..], sub, id);
      if !Inner(sub, id, w[0]) then [Outer(w[0])] + rest
      else if rest != [] && rest[0].Inside? then [Inside([Strip(id, w[0])] + rest[0].walk)] + rest[1..]
      else [Inside([Strip(id, w[0])])] + rest
  }

  // Neighbouring visits fit together: the parent has the edge, and the sub-graph is entered at
  // its start and left at its exit.
  ghost predicate Fits(parent: Graph, sub: Graph, id: string, a: Visit, b: Visit)
    requires HasBoundary(sub)
  {
    match (a, b)
    case (Outer(x), Outer(y)) => Link(parent, x, y)
    case (Outer(x), Inside(w)) => Link(parent, x, id) && w != [] && w[0] == StartId(sub)
    case (Inside(w), Outer(y)) => Link(parent, id, y) && w != [] && w[|w| - 1] == ExitId(sub)
    case (Inside(_), Inside(_)) => false
  }

  ghost predicate Fitting(parent: Graph, sub: Graph, id: string, vs: seq<Visit>)
    requires HasBoundary(sub)
  {
    (forall i :: 0 <= i < |vs| ==> GoodVisit(sub, id, vs[i]))
    && (forall i :: 0 <= i < |vs| - 1 ==> Fits(parent, sub, id, vs[i], vs[i + 1]))
  }

  // What the correspondence promises about the visits of a walk between outer nodes: the parent
  // walk is a walk, and each stay runs through the sub-graph from its start to its exit.
  ghost predicate Hierarchical(parent: Graph, sub: Graph, id: string, vs: seq<Visit>)
    requires HasBoundary(sub)
  {
    IsWalk(parent, Project(vs, id))
    && vs[0].Outer? && vs[|vs| - 1].Outer?
    && (forall i :: 0 <= i < |vs| ==> GoodVisit(sub, id, vs[i]))
    && (forall i :: 0 <= i < |vs| && vs[i].Inside? ==>
          vs[i].walk[0] == StartId(sub) && vs[i].walk[|vs[i].walk| - 1] == ExitId(sub))
  }

  ghost predicate Inlinable(parent: Graph, sub: Graph, id: string) {
    HasBoundary(sub) && NoSelfLoop(parent.edges, id) && NoneInner(parent.edges, sub, id)
  }

  // When `g` links a to b, for a composed graph `g`.
  ghost predicate LinkRule(g: Graph, parent: Graph, sub: Graph, id: string, a: string, b: string)
    requires HasBoundary(sub)
  {
    Link(g, a, b) <==>
    if Inner(sub, id, a) then
      if Inner(sub, id, b) then Link(sub, Strip(id, a), Strip(id, b))
      else b != id && Strip(id, a) == ExitId(sub) && Link(parent, id, b)
    else
      if Inner(sub, id, b) then a != id && Strip(id, b) == StartId(sub) && Link(parent, a, id)
      else a != id && b != id && Link(parent, a, b)
  }

  ghost predicate Splices(g: Graph, parent: Graph, sub: Graph, id: string) {
    Inlinable(parent, sub, id) && forall a, b :: LinkRule(g, parent, sub, id, a, b)
  }

  lemma InlinedSplices(parent: Graph, sub: Graph, id: string)
    requires Inlinable(parent, sub, id)
    ensures Splices(Inlined(parent, sub, id), parent, sub, id)
  {
    forall a, b ensures LinkRule(Inlined(parent, sub, id), parent, sub, id, a, b) {
      InnerLinks(parent, sub, id, a, b);
    }
  }

  lemma HierarchicalIffFitting(parent: Graph, sub: Graph, id: string, vs: seq<Visit>)
    requires Inlinable(parent, sub, id)
    requires vs != [] && vs[0].Outer? && vs[|vs| - 1].Outer?
    ensures Hierarchical(parent, sub, id, vs) <==> Fitting(parent, sub, id, vs)
  {
    var p := Project(vs, id);
    if Fitting(parent, sub, id, vs) {
      forall i | 0 <= i < |p| - 1 ensures Link(parent, p[i], p[i + 1]) {
        assert Fits(parent, sub, id, vs[i], vs[i + 1]);
      }
      forall i | 0 <= i < |vs| && vs[i].Inside?
        ensures vs[i].walk[0] == StartId(sub) && vs[i].walk[|vs[i].walk| - 1] == ExitId(sub)
      {
        assert Fits(parent, sub, id, vs[i - 1], vs[i]);
        assert Fits(parent, sub, id, vs[i], vs[i + 1]);
      }
    }
    if Hierarchical(parent, sub, id, vs) {
      forall i | 0 <= i < |vs| - 1 ensures Fits(parent, sub, id, vs[i], vs[i + 1]) {
        assert Link(parent, p[i], p[i + 1]);
      }
    }
  }

  // ----- From the composed graph to the parent -----

  lemma FlattenFirst(v: Visit, rest: seq<Visit>, id: string)
    ensures Flatten([v] + rest, id) == FlattenVisit(v, id) + Flatten(rest, id)
  {
    assert ([v] + rest)[1..] == rest;
  }

  lemma PrefixedFirst(x: string, walk: seq<string>, id: string)
    ensures Prefixed([x] + walk, id) == [PrefixId(id, x)] + Prefixed(walk, id)
    ensures Prefixed([x], id) == [PrefixId(id, x)]
  {
  }

  lemma {:induction false} GroupFlattens(w: seq<string>, sub: Graph, id: string)
    requires HasBoundary(sub)
    ensures Flatten(Group(w, sub, id), id) == w
  {
    hide Names, Prefixed, Flatten, PrefixId;
    if w == [] {
      NothingFlattens(id);
    } else {
      var rest := Group(w[1..], sub, id);
      GroupFlattens(w[1..], sub, id);
      assert w == [w[0]] + w[1..];
      if Inner(sub, id, w[0]) {
        StripPrefixId(id, "", w[0]);
        var head := Strip(id, w[0]);
        if rest != [] && rest[0].Inside? {
          PrefixedFirst(head, rest[0].walk, id);
          FlattenFirst(Inside([head] + rest[0].walk), rest[1..], id);
          FlattenFirst(rest[0], rest[1..], id);
          assert rest == [rest[0]] + rest[1..];
        } else {
          PrefixedFirst(head, [], id);
          FlattenFirst(Inside([head]), rest, id);
        }
      } else {
        FlattenFirst(Outer(w[0]), rest, id);
      }
    }
  }

  lemma NothingFlattens(id: string)
    ensures Flatten([], id) == []
  {
  }

  // The first and the last visit of a non-empty walk.
  lemma {:induction false} GroupEnds(w: seq<string>, sub: Graph, id: string)
    requires w != [] && HasBoundary(sub)
    ensures var vs := Group(w, sub, id);
            vs != []
            && (if Inner(sub, id, w[0]) then vs[0].Inside? && vs[0].walk != [] && vs[0].walk[0] == Strip(id, w[0])
                else vs[0] == Outer(w[0]))
            && (!Inner(sub, id, w[|w| - 1]) ==> vs[|vs| - 1] == Outer(w[|w| - 1]))
  {
    if |w| > 1 { GroupEnds(w[1..], sub, id); }
  }

  lemma {:induction false} GroupFits(g: Graph, parent: Graph, sub: Graph, id: string, w: seq<string>)
    requires Splices(g, parent, sub, id)
    requires IsWalk(g, w) && id !in w
    ensures Fitting(parent, sub, id, Group(w, sub, id))
    decreases w
  {
    if |w| > 1 {
      TailWalks(g, w);
      GroupFits(g, parent, sub, id, w[1..]);
      GroupEnds(w[1..], sub, id);
      assert Link(g, w[0], w[1]) && LinkRule(g, parent, sub, id, w[0], w[1]);
      var vs, rest := Group(w, sub, id), Group(w[1..], sub, id);
      if Inner(sub, id, w[0]) && Inner(sub, id, w[1]) {
        LongerStay(parent, sub, id, Strip(id, w[0]), rest);
      } else {
        assert vs == [vs[0]] + rest;
        EarlierVisit(parent, sub, id, vs[0], rest);
      }
    } else {
      assert Group(w[1..], sub, id) == [];
    }
  }

  lemma TailWalks(g: Graph, w: seq<string>)
    requires IsWalk(g, w) && |w| > 1
    ensures IsWalk(g, w[1..])
  {
    forall i | 0 <= i < |w[1..]| - 1 ensures Link(g, w[1..][i], w[1..][i + 1]) {
      assert Link(g, w[i + 1], w[i + 2]);
    }
  }

  lemma EarlierVisit(parent: Graph, sub: Graph, id: string, v: Visit, rest: seq<Visit>)
    requires HasBoundary(sub) && Fitting(parent, sub, id, rest) && GoodVisit(sub, id, v)
    requires rest != [] ==> Fits(parent, sub, id, v, rest[0])
    ensures Fitting(parent, sub, id, [v] + rest)
  {
    var vs := [v] + rest;
    forall i | 0 <= i < |vs| - 1 ensures Fits(parent, sub, id, vs[i], vs[i + 1]) {
      if i > 0 { assert Fits(parent, sub, id, rest[i - 1], rest[i]); }
    }
  }

  lemma LongerStay(parent: Graph, sub: Graph, id: string, x: string, rest: seq<Visit>)
    requires HasBoundary(sub) && Fitting(parent, sub, id, rest)
    requires rest != [] && rest[0].Inside? && rest[0].walk != [] && Link(sub, x, rest[0].walk[0])
    ensures Fitting(parent, sub, id, [Inside([x] + rest[0].walk)] + rest[1..])
  {
    var stay := [x] + rest[0].walk;
    var vs := [Inside(stay)] + rest[1..];
    assert GoodVisit(sub, id, rest[0]);
    forall i | 0 <= i < |stay| - 1 ensures Link(sub, stay[i], stay[i + 1]) {
      if i > 0 { assert Link(sub, rest[0].walk[i - 1], rest[0].walk[i]); }
    }
    forall i | 0 <= i < |vs| - 1 ensures Fits(parent, sub, id, vs[i], vs[i + 1]) {
      assert Fits(parent, sub, id, rest[i], rest[i + 1]);
    }
  }

  // Every composed walk between outer nodes is a hierarchical walk.
  lemma WalksProject(g: Graph, parent: Graph, sub: Graph, id: string, w: seq<string>)
    requires Splices(g, parent, sub, id) && IsWalk(g, w)
    requires GoodVisit(sub, id, Outer(w[0])) && GoodVisit(sub, id, Outer(w[|w| - 1]))
    ensures var vs := Group(w, sub, id);
            Hierarchical(parent, sub, id, vs) && Flatten(vs, id) == w
            && Project(vs, id)[0] == w[0] && Project(vs, id)[|vs| - 1] == w[|w| - 1]
  {
    StripPrefixId(id, "", id);
    forall i | 0 < i < |w| ensures w[i] != id {
      assert Link(g, w[i - 1], w[i]) && LinkRule(g, parent, sub, id, w[i - 1], w[i]);
    }
    GroupFits(g, parent, sub, id, w);
    GroupFlattens(w, sub, id);
    GroupEnds(w, sub, id);
    HierarchicalIffFitting(parent, sub, id, Group(w, sub, id));
  }

  // ----- From the parent to the composed graph -----

  lemma {:induction false} FlattenWalks(g: Graph, parent: Graph, sub: Graph, id: string, vs: seq<Visit>)
    requires Splices(g, parent, sub, id) && vs != []
    requires Fitting(parent, sub, id, vs)
    ensures IsWalk(g, Flatten(vs, id))
    ensures Flatten(vs, id)[0] == FlattenVisit(vs[0], id)[0]
    ensures vs[|vs| - 1].Outer? ==> Flatten(vs, id)[|Flatten(vs, id)| - 1] == vs[|vs| - 1].id
    decreases vs
  {
    var first, rest := FlattenVisit(vs[0], id), Flatten(vs[1..], id);
    VisitWalks(g, parent, sub, id, vs[0]);
    if |vs| == 1 {
      assert first + rest == first;
    } else {
      TailFits(parent, sub, id, vs);
      FlattenWalks(g, parent, sub, id, vs[1..]);
      SeamLinks(g, parent, sub, id, vs[0], vs[1]);
      WalksConcatenate(g, first, rest);
    }
  }

  lemma TailFits(parent: Graph, sub: Graph, id: string, vs: seq<Visit>)
    requires HasBoundary(sub) && Fitting(parent, sub, id, vs) && |vs| > 1
    ensures Fitting(parent, sub, id, vs[1..]) && Fits(parent, sub, id, vs[0], vs[1])
  {
    forall i | 0 <= i < |vs[1..]| - 1 ensures Fits(parent, sub, id, vs[1..][i], vs[1..][i + 1]) {
      assert Fits(parent, sub, id, vs[i + 1], vs[i + 2]);
    }
  }

  lemma WalksConcatenate(g: Graph, v: seq<string>, w: seq<string>)
    requires IsWalk(g, v) && IsWalk(g, w) && Link(g, v[|v| - 1], w[0])
    ensures IsWalk(g, v + w)
  {
    var u := v + w;
    forall i | 0 <= i < |u| - 1 ensures Link(g, u[i], u[i + 1]) {
      if i < |v| - 1 {
        assert Link(g, v[i], v[i + 1]);
      } else if i >= |v| {
        assert Link(g, w[i - |v|], w[i - |v| + 1]);
      }
    }
  }

  // The visits can be read back from the composed walk.
  lemma {:induction false} GroupOfFlatten(parent: Graph, sub: Graph, id: string, vs: seq<Visit>)
    requires HasBoundary(sub) && Fitting(parent, sub, id, vs)
    ensures Group(Flatten(vs, id), sub, id) == vs
    decreases vs
  {
    if vs != [] {
      var rest := Flatten(vs[1..], id);
      if |vs| > 1 { TailFits(parent, sub, id, vs); }
      GroupOfFlatten(parent, sub, id, vs[1..]);
      assert vs == [vs[0]] + vs[1..];
      if vs[0].Outer? {
        assert ([vs[0].id] + rest)[1..] == rest;
      } else {
        if rest != [] { GroupEnds(rest, sub, id); }
        GroupStay(vs[0].walk, rest, sub, id);
      }
    }
  }

  // Grouping a stay followed by something that does not continue it.
  lemma {:induction false} GroupStay(stay: seq<string>, rest: seq<string>, sub: Graph, id: string)
    requires stay != [] && HasBoundary(sub) && forall x :: x in stay ==> x in Names(sub)
    requires Group(rest, sub, id) != [] ==> Group(rest, sub, id)[0].Outer?
    ensures Group(Prefixed(stay, id) + rest, sub, id) == [Inside(stay)] + Group(rest, sub, id)
  {
    var w := Prefixed(stay, id) + rest;
    StripPrefixId(id, stay[0], "");
    assert w[0] == PrefixId(id, stay[0]);
    assert w[1..] == Prefixed(stay[1..], id) + rest;
    if |stay| == 1 {
      assert w[1..] == rest;
      assert stay == [stay[0]];
    } else {
      GroupStay(stay[1..], rest, sub, id);
      assert [stay[0]] + stay[1..] == stay;
      assert ([Inside(stay[1..])] + Group(rest, sub, id))[1..] == Group(rest, sub, id);
    }
  }

  lemma VisitWalks(g: Graph, parent: Graph, sub: Graph, id: string, v: Visit)
    requires Splices(g, parent, sub, id) && GoodVisit(sub, id, v)
    ensures IsWalk(g, FlattenVisit(v, id))
  {
    if v.Inside? {
      var p := Prefixed(v.walk, id);
      forall i | 0 <= i < |p| - 1 ensures Link(g, p[i], p[i + 1]) {
        StripPrefixId(id, v.walk[i], "");
        StripPrefixId(id, v.walk[i + 1], "");
        assert Link(sub, v.walk[i], v.walk[i + 1]);
        assert LinkRule(g, parent, sub, id, p[i], p[i + 1]);
      }
    }
  }

  lemma SeamLinks(g: Graph, parent: Graph, sub: Graph, id: string, a: Visit, b: Visit)
    requires Splices(g, parent, sub, id)
    requires GoodVisit(sub, id, a) && GoodVisit(sub, id, b) && Fits(parent, sub, id, a, b)
    ensures Link(g, FlattenVisit(a, id)[|FlattenVisit(a, id)| - 1], FlattenVisit(b, id)[0])
  {
    StripPrefixId(id, ExitId(sub), "");
    StripPrefixId(id, StartId(sub), "");
    assert LinkRule(g, parent, sub, id,
                    if a.Outer? then a.id else PrefixId(id, ExitId(sub)),
                    if b.Outer? then b.id else PrefixId(id, StartId(sub)));
  }

  // Every hierarchical walk lifts to a composed walk, from which it can be read back.
  lemma WalksLift(g: Graph, parent: Graph, sub: Graph, id: string, vs: seq<Visit>)
    requires Splices(g, parent, sub, id) && Hierarchical(parent, sub, id, vs)
    ensures IsWalk(g, Flatten(vs, id)) && Group(Flatten(vs, id), sub, id) == vs
    ensures Flatten(vs, id)[0] == Project(vs, id)[0]
    ensures Flatten(vs, id)[|Flatten(vs, id)| - 1] == Project(vs, id)[|vs| - 1]
  {
    HierarchicalIffFitting(parent, sub, id, vs);
    FlattenWalks(g, parent, sub, id, vs);
    GroupOfFlatten(parent, sub, id, vs);
  }

  // The walks of a composed graph between outer nodes are in one-to-one correspondence with the
  // hierarchical walks of the parent and the sub-graph.
  lemma WalkCorrespondence(parent: Graph, sub: Graph, id: string)
    requires Inlinable(parent, sub, id)
    ensures forall w :: IsWalk(Inlined(parent, sub, id), w)
                        && GoodVisit(sub, id, Outer(w[0])) && GoodVisit(sub, id, Outer(w[|w| - 1])) ==>
              (Hierarchical(parent, sub, id, Group(w, sub, id)) && Flatten(Group(w, sub, id), id) == w)
    ensures forall vs :: Hierarchical(parent, sub, id, vs) ==>
              (IsWalk(Inlined(parent, sub, id), Flatten(vs, id)) && Group(Flatten(vs, id), sub, id) == vs)
  {
    var g := Inlined(parent, sub, id);
    InlinedSplices(parent, sub, id);
    forall w | IsWalk(g, w)
               && GoodVisit(sub, id, Outer(w[0])) && GoodVisit(sub, id, Outer(w[|w| - 1]))
      ensures Hierarchical(parent, sub, id, Group(w, sub, id)) && Flatten(Group(w, sub, id), id) == w
    {
      WalksProject(g, parent, sub, id, w);
    }
    forall vs | Hierarchical(parent, sub, id, vs)
      ensures IsWalk(g, Flatten(vs, id)) && Group(Flatten(vs, id), sub, id) == vs
    {
      WalksLift(g, parent, sub, id, vs);
    }
  }

  // A parent walk survives inlining when it avoids the replaced node or the sub-graph can be crossed.
  ghost predicate Survives(sub: Graph, id: string, p: seq<string>)
    requires HasBoundary(sub)
  {
    id in p ==> Reaches(sub, StartId(sub), ExitId(sub))
  }

  // Exactly which outer nodes reach which in a composed graph.
  lemma ReachabilityExact(parent: Graph, sub: Graph, id: string, a: string, b: string)
    requires Inlinable(parent, sub, id)
    requires GoodVisit(sub, id, Outer(a)) && GoodVisit(sub, id, Outer(b))
    ensures Reaches(Inlined(parent, sub, id), a, b) <==>
            exists p :: IsWalk(parent, p) && p[0] == a && p[|p| - 1] == b && Survives(sub, id, p)
  {
    var g := Inlined(parent, sub, id);
    InlinedSplices(parent, sub, id);
    if Reaches(g, a, b) {
      var w :| IsWalk(g, w) && w[0] == a && w[|w| - 1] == b;
      ProjectedSurvives(g, parent, sub, id, w);
    }
    if p :| IsWalk(parent, p) && p[0] == a && p[|p| - 1] == b && Survives(sub, id, p) {
      SurvivorLifts(g, parent, sub, id, p);
    }
  }

  lemma ProjectedSurvives(g: Graph, parent: Graph, sub: Graph, id: string, w: seq<string>)
    requires Splices(g, parent, sub, id) && IsWalk(g, w)
    requires GoodVisit(sub, id, Outer(w[0])) && GoodVisit(sub, id, Outer(w[|w| - 1]))
    ensures exists p :: IsWalk(parent, p) && p[0] == w[0] && p[|p| - 1] == w[|w| - 1] && Survives(sub, id, p)
  {
    WalksProject(g, parent, sub, id, w);
    var vs := Group(w, sub, id);
    var p := Project(vs, id);
    if id in p { StayCrosses(parent, sub, id, vs); }
    assert Survives(sub, id, p);
  }

  lemma StayCrosses(parent: Graph, sub: Graph, id: string, vs: seq<Visit>)
    requires HasBoundary(sub) && Hierarchical(parent, sub, id, vs) && id in Project(vs, id)
    ensures Reaches(sub, StartId(sub), ExitId(sub))
  {
    var i :| 0 <= i < |vs| && Project(vs, id)[i] == id;
    assert GoodVisit(sub, id, vs[i]);
    assert IsWalk(sub, vs[i].walk);
  }

  // A walk from the start mentions only the names of the sub-graph.
  lemma WalkNames(sub: Graph, w: seq<string>)
    requires HasBoundary(sub) && IsWalk(sub, w) && w[0] == StartId(sub)
    ensures forall x :: x in w ==> x in Names(sub)
  {
    forall i | 0 <= i < |w| ensures w[i] in Names(sub) {
      if i > 0 {
        assert Link(sub, w[i - 1], w[i]);
        var e :| e in sub.edges && e.from == w[i - 1] && e.to == w[i];
      }
    }
  }

  lemma SurvivorLifts(g: Graph, parent: Graph, sub: Graph, id: string, p: seq<string>)
    requires Splices(g, parent, sub, id) && IsWalk(parent, p) && Survives(sub, id, p)
    requires GoodVisit(sub, id, Outer(p[0])) && GoodVisit(sub, id, Outer(p[|p| - 1]))
    ensures Reaches(g, p[0], p[|p| - 1])
  {
    var crossing := [];
    if id in p {
      crossing :| IsWalk(sub, crossing)
        && crossing[0] == StartId(sub) && crossing[|crossing| - 1] == ExitId(sub);
      WalkNames(sub, crossing);
    }
    var vs := SplicedIn(parent, sub, id, p, crossing);
    WalksLift(g, parent, sub, id, vs);
    assert IsWalk(g, Flatten(vs, id));
  }

  // The same crossing at every visit of the replaced node.
  lemma SplicedIn(parent: Graph, sub: Graph, id: string, p: seq<string>, crossing: seq<string>)
    returns (vs: seq<Visit>)
    requires Inlinable(parent, sub, id) && IsWalk(parent, p)
    requires GoodVisit(sub, id, Outer(p[0])) && GoodVisit(sub, id, Outer(p[|p| - 1]))
    requires id in p ==>
               GoodVisit(sub, id, Inside(crossing))
               && crossing[0] == StartId(sub) && crossing[|crossing| - 1] == ExitId(sub)
    ensures Hierarchical(parent, sub, id, vs) && Project(vs, id) == p
  {
    hide Names, Inner;
    vs := seq(|p|, i requires 0 <= i < |p| => if p[i] == id then Inside(crossing) else Outer(p[i]));
    assert Project(vs, id) == p;
    forall i | 0 <= i < |vs| ensures GoodVisit(sub, id, vs[i]) {
      OuterOnWalk(parent, sub, id, p, i);
    }
  }

  // A parent walk from an outer node meets no inner name.
  lemma OuterOnWalk(parent: Graph, sub: Graph, id: string, p: seq<string>, i: nat)
    requires Inlinable(parent, sub, id) && IsWalk(parent, p) && !Inner(sub, id, p[0]) && i < |p|
    ensures !Inner(sub, id, p[i])
  {
    if i > 0 { assert Link(parent, p[i - 1], p[i]); }
  }

  // When the sub-graph can be crossed, inlining neither adds nor removes reachability between
  // outer nodes.
  lemma ReachabilityPreserved(parent: Graph, sub: Graph, id: string, a: string, b: string)
    requires Inlinable(parent, sub, id)
    requires GoodVisit(sub, id, Outer(a)) && GoodVisit(sub, id, Outer(b))
    requires Reaches(sub, StartId(sub), ExitId(sub))
    ensures Reaches(Inlined(parent, sub, id), a, b) <==> Reaches(parent, a, b)
  {
    ReachabilityExact(parent, sub, id, a, b);
    if Reaches(parent, a, b) {
      var p :| IsWalk(parent, p) && p[0] == a && p[|p| - 1] == b;
      assert Survives(sub, id, p);
    }
  }
}
