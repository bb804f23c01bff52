// Choosing the next edge: tiers of candidates, then priority, then target, then list position.
module EdgeSelection {
  import opened Wrappers
  import opened Graphs
  import opened State
  import opened Strings

  // What edge selection needs from the condition language and from label text processing.
  datatype Language = Language(
    parses: string -> bool,
    holds: (string, Context) -> bool,
    normalize: string -> string,
    lower: string -> string)

  datatype Query = Query(lang: Language, ctx: Context, outcome: Option<Outcome>)

  datatype SelectionError = ConditionParseError(from: string, to: string)

  predicate HasExplicitCondition(e: GraphEdge) {
    e.condition.Some? && (e.caption.Some? ==> e.condition.value != e.caption.value)
  }

  predicate EdgeMatchesOutcome(e: GraphEdge, outcome: Outcome, lower: string -> string) {
    e.caption.Some? &&
    var l := lower(e.caption.value);
    match outcome
    case Success(_, _, _, _, _) => l in ["success", "yes", "true", "partial_success"]
    case PartialSuccess(_, _, _, _, _) => l in ["success", "yes", "true", "partial_success"]
    case Failure(_, _, _) => l in ["failure", "error", "no", "false"]
    case Retry(_, _) => l in ["retry", "failure", "error"]
    case Skip(_, _) => l == "skip"
  }

  predicate Unparsable(e: GraphEdge, lang: Language) {
    HasExplicitCondition(e) && !lang.parses(e.condition.value)
  }

  // ----- The order on edges -----

  // Strictly ahead: higher priority first, then the smaller target.
  predicate Ahead(a: GraphEdge, b: GraphEdge) {
    var pa, pb := a.priority.GetOr(0), b.priority.GetOr(0);
    pa > pb || (pa == pb && Less(a.to, b.to))
  }

  function InsertStable(e: GraphEdge, sorted: seq<GraphEdge>): seq<GraphEdge> {
    if sorted == [] || !Ahead(sorted[0], e) then [e] + sorted
    else [sorted[0]] + InsertStable(e, sorted[1..])
  }

  // The stable sort of the standard library, under the order `Ahead`.
  function SortEdges(es: seq<GraphEdge>): seq<GraphEdge> {
    if es == [] then [] else InsertStable(es[0], SortEdges(es[1..]))
  }

  // Position i holds the least edge: strictly ahead of all earlier ones, and no later one is
  // ahead of it.
  ghost predicate LeastAt(es: seq<GraphEdge>, i: int) {
    0 <= i < |es|
    && (forall j :: 0 <= j < i ==> Ahead(es[i], es[j]))
    && (forall j :: i < j < |es| ==> !Ahead(es[j], es[i]))
  }

  // The first of the least edges.
  function Best(es: seq<GraphEdge>): Option<GraphEdge> {
    if es == [] then None else Prefer(es[0], Best(es[1..]))
  }

  function Prefer(a: GraphEdge, b: Option<GraphEdge>): Option<GraphEdge> {
    if b.Some? && Ahead(b.value, a) then b else Some(a)
  }

  function Prefers(a: Option<GraphEdge>, b: Option<GraphEdge>): Option<GraphEdge> {
    if a.None? then b else Prefer(a.value, b)
  }

  // ----- Tiers -----

  datatype Tier = Passing | Preferred | Suggested | OutcomeLabel | Unconditional

  const TIERS := [Passing, Preferred, Suggested, OutcomeLabel, Unconditional]

  predicate InTier(t: Tier, e: GraphEdge, q: Query) {
    match t
    case Passing => HasExplicitCondition(e) && q.lang.holds(e.condition.value, q.ctx)
    case Preferred =>
      !HasExplicitCondition(e) && q.outcome.Some? && q.outcome.value.PreferredLabel().Some?
      && e.caption.Some?
      && q.lang.normalize(e.caption.value) == q.lang.normalize(q.outcome.value.PreferredLabel().value)
    case Suggested =>
      !HasExplicitCondition(e) && q.outcome.Some? && q.outcome.value.Suggests(e.to)
    case OutcomeLabel =>
      !HasExplicitCondition(e) && q.outcome.Some? && EdgeMatchesOutcome(e, q.outcome.value, q.lang.lower)
    case Unconditional => !HasExplicitCondition(e)
  }

  // The candidates of one tier, in list order.
  function Tiered(t: Tier, es: seq<GraphEdge>, q: Query): seq<GraphEdge> {
    if es == [] then []
    else if InTier(t, es[0], q) then [es[0]] + Tiered(t, es[1..], q)
    else Tiered(t, es[1..], q)
  }

  lemma {:induction false} TieredMembers(t: Tier, es: seq<GraphEdge>, q: Query)
    ensures forall e :: e in Tiered(t, es, q) <==> e in es && InTier(t, e, q)
  {
    if es != [] {
      assert es == [es[0]] + es[1..];
      TieredMembers(t, es[1..], q);
    }
  }

  function FirstUnparsable(es: seq<GraphEdge>, lang: Language): (r: Option<GraphEdge>)
    ensures r.None? <==> forall e :: e in es ==> !Unparsable(e, lang)
    ensures r.Some? ==> r.value in es && Unparsable(r.value, lang)
  {
    if es == [] then None
    else if Unparsable(es[0], lang) then Some(es[0])
    else
      assert forall e :: e in es <==> e == es[0] || e in es[1..];
      FirstUnparsable(es[1..], lang)
  }

  // The best candidate of the first tier that has one.
  function SelectTier(es: seq<GraphEdge>, q: Query): Option<GraphEdge> {
    if Tiered(Passing, es, q) != [] then Best(Tiered(Passing, es, q))
    else if Tiered(Preferred, es, q) != [] then Best(Tiered(Preferred, es, q))
    else if Tiered(Suggested, es, q) != [] then Best(Tiered(Suggested, es, q))
    else if Tiered(OutcomeLabel, es, q) != [] then Best(Tiered(OutcomeLabel, es, q))
    else Best(Tiered(Unconditional, es, q))
  }

  // The selection among the candidates leaving one node.
  function SelectAmong(es: seq<GraphEdge>, q: Query): Result<Option<GraphEdge>, SelectionError> {
    match FirstUnparsable(es, q.lang)
    case Some(e) => Err(ConditionParseError(e.from, e.to))
    case None => Ok(SelectTier(es, q))
  }

  function Select(g: Graph, id: string, q: Query): Result<Option<GraphEdge>, SelectionError> {
    SelectAmong(EdgesFrom(g.edges, id), q)
  }

  // The position-level specification: i is the position of the least candidate of tier t, and
  // no candidate belongs to an earlier tier.
  ghost predicate ChosenAt(es: seq<GraphEdge>, q: Query, k: int, i: int) {
    0 <= k < |TIERS| && 0 <= i < |es|
    && InTier(TIERS[k], es[i], q)
    && (forall j :: 0 <= j < i && InTier(TIERS[k], es[j], q) ==> Ahead(es[i], es[j]))
    && (forall j :: i < j < |es| && InTier(TIERS[k], es[j], q) ==> !Ahead(es[j], es[i]))
    && (forall l, j :: 0 <= l < k && 0 <= j < |es| ==> !InTier(TIERS[l], es[j], q))
  }

  // ----- The order is a strict weak order -----

  lemma AheadOrder(a: GraphEdge, b: GraphEdge, c: GraphEdge)
    ensures !Ahead(a, a)
    ensures Ahead(a, b) ==> !Ahead(b, a)
    ensures Ahead(a, b) && Ahead(b, c) ==> Ahead(a, c)
    ensures !Ahead(a, b) && !Ahead(b, c) ==> !Ahead(a, c)
    ensures !Ahead(a, b) && !Ahead(b, a) ==> a.to == b.to
  {
    LessIrreflexive(a.to);
    LessTotal(a.to, b.to);
    LessTotal(b.to, c.to);
    if Less(a.to, b.to) && Less(b.to, a.to) { LessTransitive(a.to, b.to, a.to); }
    if Less(a.to, b.to) && Less(b.to, c.to) { LessTransitive(a.to, b.to, c.to); }
    if Less(c.to, b.to) && Less(b.to, a.to) { LessTransitive(c.to, b.to, a.to); }
    if Less(c.to, b.to) && Less(a.to, c.to) { LessTransitive(a.to, c.to, b.to); }
    if Less(b.to, a.to) && Less(a.to, c.to) { LessTransitive(b.to, a.to, c.to); }
  }

  lemma {:induction false} BestIsLeast(es: seq<GraphEdge>) returns (i: nat)
    requires es != []
    ensures LeastAt(es, i) && Best(es) == Some(es[i])
  {
    i := 0;
    if |es| > 1 {
      var k := BestIsLeast(es[1..]);
      forall j | 0 < j < |es| ensures !Ahead(es[j], es[k + 1]) && (j < k + 1 ==> Ahead(es[k + 1], es[j])) {
        AheadOrder(es[k + 1], es[k + 1], es[k + 1]);
        assert es[j] == es[1..][j - 1];
        AheadOrder(es[k + 1], es[j], es[k + 1]);
      }
      if Ahead(es[k + 1], es[0]) {
        i := k + 1;
      } else {
        forall j | 0 < j < |es| ensures !Ahead(es[j], es[0]) {
          AheadOrder(es[j], es[k + 1], es[0]);
        }
      }
    }
  }

  lemma {:induction false} SortEdgesHead(es: seq<GraphEdge>)
    ensures |SortEdges(es)| == |es|
    ensures es != [] ==> Some(SortEdges(es)[0]) == Best(es)
  {
    if es != [] {
      SortEdgesHead(es[1..]);
      InsertStableLength(es[0], SortEdges(es[1..]));
    }
  }

  lemma {:induction false} InsertStableLength(e: GraphEdge, es: seq<GraphEdge>)
    ensures |InsertStable(e, es)| == |es| + 1
  {
    if es != [] { InsertStableLength(e, es[1..]); }
  }

  // ----- The selector meets its specification -----

  lemma {:induction false} BestOfTier(t: Tier, es: seq<GraphEdge>, q: Query) returns (i: nat)
    requires Tiered(t, es, q) != []
    ensures i < |es| && InTier(t, es[i], q) && Best(Tiered(t, es, q)) == Some(es[i])
    ensures forall j :: 0 <= j < i && InTier(t, es[j], q) ==> Ahead(es[i], es[j])
    ensures forall j :: i < j < |es| && InTier(t, es[j], q) ==> !Ahead(es[j], es[i])
  {
    var rest := es[1..];
    if Tiered(t, rest, q) == [] {
      i := 0;
      TieredMembers(t, rest, q);
      assert forall j :: 0 < j < |es| ==> es[j] == rest[j - 1] && es[j] in rest;
    } else {
      var k := BestOfTier(t, rest, q);
      i := k + 1;
      assert forall j :: 0 < j < |es| ==> es[j] == rest[j - 1];
      if InTier(t, es[0], q) && !Ahead(es[k + 1], es[0]) {
        i := 0;
        forall j | 0 < j < |es| && InTier(t, es[j], q) ensures !Ahead(es[j], es[0]) {
          AheadOrder(es[j], es[k + 1], es[0]);
          AheadOrder(es[k + 1], es[j], es[k + 1]);
        }
      }
    }
  }

  lemma SelectTierSpec(es: seq<GraphEdge>, q: Query) returns (k: nat, i: nat)
    requires SelectTier(es, q).Some?
    ensures ChosenAt(es, q, k, i) && SelectTier(es, q) == Some(es[i])
  {
    k := if Tiered(Passing, es, q) != [] then 0
         else if Tiered(Preferred, es, q) != [] then 1
         else if Tiered(Suggested, es, q) != [] then 2
         else if Tiered(OutcomeLabel, es, q) != [] then 3
         else 4;
    forall l, j | 0 <= l < k && 0 <= j < |es| ensures !InTier(TIERS[l], es[j], q) {
      TieredMembers(TIERS[l], es, q);
      assert es[j] in es && Tiered(TIERS[l], es, q) == [];
    }
    i := BestOfTier(TIERS[k], es, q);
  }

  lemma ChosenAtUnique(es: seq<GraphEdge>, q: Query, k: int, i: int, k': int, i': int)
    requires ChosenAt(es, q, k, i) && ChosenAt(es, q, k', i')
    ensures k == k' && i == i'
  {
    AheadOrder(es[i], es[i'], es[i]);
  }

  // The selector returns exactly the candidate that the position-level specification names.
  lemma SelectRefinesTiers(es: seq<GraphEdge>, q: Query)
    ensures forall k, i :: ChosenAt(es, q, k, i) && FirstUnparsable(es, q.lang).None? ==>
              SelectAmong(es, q) == Ok(Some(es[i]))
    ensures SelectAmong(es, q).Ok? && SelectAmong(es, q).value.Some? ==>
              exists k, i :: ChosenAt(es, q, k, i) && SelectAmong(es, q).value == Some(es[i])
    ensures SelectAmong(es, q) == Ok(None) <==>
              forall e :: e in es ==>
                (HasExplicitCondition(e)
                 && q.lang.parses(e.condition.value) && !q.lang.holds(e.condition.value, q.ctx))
    ensures SelectAmong(es, q).Err? <==> exists e :: e in es && Unparsable(e, q.lang)
  {
    if SelectTier(es, q).Some? {
      var k0, i0 := SelectTierSpec(es, q);
      assert es[i0] in es;
      forall k, i | ChosenAt(es, q, k, i) ensures SelectTier(es, q) == Some(es[i]) {
        ChosenAtUnique(es, q, k0, i0, k, i);
      }
    } else {
      forall t, e | e in es ensures !InTier(t, e, q) {
        TieredMembers(t, es, q);
        assert InTier(t, e, q) ==> e in Tiered(t, es, q);
      }
      assert forall e :: e in es ==> !InTier(Passing, e, q) && !InTier(Unconditional, e, q);
      assert forall i :: 0 <= i < |es| ==> es[i] in es;
    }
  }

  // The next node does not depend on the order, or the multiplicity, of the candidates.
  lemma SelectOrderIndependent(es: seq<GraphEdge>, fs: seq<GraphEdge>, q: Query)
    requires forall e :: e in es <==> e in fs
    ensures SelectAmong(es, q).Err? <==> SelectAmong(fs, q).Err?
    ensures SelectAmong(es, q).Ok? ==>
              (SelectAmong(es, q).value.None? <==> SelectAmong(fs, q).value.None?)
              && (SelectAmong(es, q).value.Some? ==>
                    SelectAmong(es, q).value.value.to == SelectAmong(fs, q).value.value.to)
  {
    SelectRefinesTiers(es, q);
    SelectRefinesTiers(fs, q);
    if SelectAmong(es, q).Ok? && SelectAmong(es, q).value.Some? {
      var k, i :| ChosenAt(es, q, k, i) && SelectAmong(es, q).value == Some(es[i]);
      var l, j :| ChosenAt(fs, q, l, j) && SelectAmong(fs, q).value == Some(fs[j]);
      assert es[i] in es && fs[j] in fs;
      var i' :| 0 <= i' < |fs| && fs[i'] == es[i];
      var j' :| 0 <= j' < |es| && es[j'] == fs[j];
      assert k == l;
      AheadOrder(es[i], fs[j], es[i]);
    }
  }

  // ----- Imperative form -----

  method PickBest(edges: seq<GraphEdge>) returns (r: Option<GraphEdge>)
    ensures r.None? <==> edges == []
    ensures r.Some? ==> exists i :: LeastAt(edges, i) && r == Some(edges[i])
    ensures r == Best(edges)
  {
    var sorted := SortEdges(edges);
    SortEdgesHead(edges);
    if |sorted| == 0 { return None; }
    ghost var i := BestIsLeast(edges);
    return Some(sorted[0]);
  }

  lemma {:induction false} TieredSnoc(t: Tier, es: seq<GraphEdge>, e: GraphEdge, q: Query)
    ensures Tiered(t, es + [e], q) == Tiered(t, es, q) + if InTier(t, e, q) then [e] else []
  {
    if es == [] {
      assert es + [e] == [e];
    } else {
      assert (es + [e])[1..] == es[1..] + [e];
      TieredSnoc(t, es[1..], e, q);
    }
  }

  lemma {:induction false} FirstUnparsablePrefix(es: seq<GraphEdge>, lang: Language, i: nat)
    requires i < |es| && FirstUnparsable(es[..i], lang).None? && Unparsable(es[i], lang)
    ensures FirstUnparsable(es, lang) == Some(es[i])
  {
    if i > 0 {
      assert es[..i][0] == es[0] && es[..i][0] in es[..i];
      assert es[..i][1..] == es[1..][..i - 1];
      FirstUnparsablePrefix(es[1..], lang, i - 1);
    }
  }

  // Narrowing the unconditional edges to a tier of unconditional edges.
  lemma {:induction false} TieredOfUnconditional(t: Tier, es: seq<GraphEdge>, q: Query)
    requires t != Passing
    ensures Tiered(t, Tiered(Unconditional, es, q), q) == Tiered(t, es, q)
  {
    if es != [] { TieredOfUnconditional(t, es[1..], q); }
  }

  method SelectEdge(g: Graph, nodeId: string, ctx: Context, lastOutcome: Option<Outcome>, lang: Language)
    returns (r: Result<Option<GraphEdge>, SelectionError>)
    ensures r == Select(g, nodeId, Query(lang, ctx, lastOutcome))
  {
    var q := Query(lang, ctx, lastOutcome);
    var candidates := EdgesFrom(g.edges, nodeId);
    if candidates == [] { return Ok(None); }

    var conditionalPassing, unconditional := [], [];
    for i := 0 to |candidates|
      invariant conditionalPassing == Tiered(Passing, candidates[..i], q)
      invariant unconditional == Tiered(Unconditional, candidates[..i], q)
      invariant FirstUnparsable(candidates[..i], lang).None?
    {
      var edge := candidates[i];
      assert candidates[..i + 1] == candidates[..i] + [edge];
      TieredSnoc(Passing, candidates[..i], edge, q);
      TieredSnoc(Unconditional, candidates[..i], edge, q);
      if HasExplicitCondition(edge) {
        if !lang.parses(edge.condition.value) {
          FirstUnparsablePrefix(candidates, lang, i);
          return Err(ConditionParseError(edge.from, edge.to));
        }
        if lang.holds(edge.condition.value, ctx) {
          conditionalPassing := conditionalPassing + [edge];
        }
      } else {
        unconditional := unconditional + [edge];
      }
    }
    assert candidates[..|candidates|] == candidates;

    if conditionalPassing != [] {
      var best := PickBest(conditionalPassing);
      return Ok(best);
    }
    TierSteps(candidates, q);
    if unconditional == [] { return Ok(None); }
    if lastOutcome.Some? && lastOutcome.value.PreferredLabel().Some? {
      var matched := Tiered(Preferred, unconditional, q);
      if matched != [] {
        var best := PickBest(matched);
        return Ok(best);
      }
    }
    if lastOutcome.Some? && lastOutcome.value.SuggestedNextIds().Some? {
      var matched := Tiered(Suggested, unconditional, q);
      if matched != [] {
        var best := PickBest(matched);
        return Ok(best);
      }
    }
    if lastOutcome.Some? {
      var matched := Tiered(OutcomeLabel, unconditional, q);
      if matched != [] {
        var best := PickBest(matched);
        return Ok(best);
      }
    }
    var best := PickBest(unconditional);
    return Ok(best);
  }

  // Narrowing the unconditional edges loses nothing, and a tier whose hint is absent is empty.
  lemma TierSteps(es: seq<GraphEdge>, q: Query)
    ensures forall t :: t != Passing ==> Tiered(t, Tiered(Unconditional, es, q), q) == Tiered(t, es, q)
    ensures q.outcome.None? || q.outcome.value.PreferredLabel().None? ==> Tiered(Preferred, es, q) == []
    ensures q.outcome.None? || q.outcome.value.SuggestedNextIds().None? ==> Tiered(Suggested, es, q) == []
    ensures q.outcome.None? ==> Tiered(OutcomeLabel, es, q) == []
  {
    forall t | t != Passing ensures Tiered(t, Tiered(Unconditional, es, q), q) == Tiered(t, es, q) {
      TieredOfUnconditional(t, es, q);
    }
    forall t | Tiered(t, es, q) != [] ensures InTier(t, Tiered(t, es, q)[0], q) {
      TieredMembers(t, es, q);
      assert Tiered(t, es, q)[0] in Tiered(t, es, q);
    }
  }
}
