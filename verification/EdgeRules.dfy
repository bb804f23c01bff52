// What the selection rules mean for labels, hints, conditions and priorities.
module EdgeRules {
  import opened Wrappers
  import opened Graphs
  import opened State
  import opened Strings
  import opened EdgeSelection
  import opened CompositionSelection

  // An edge without a condition, or with one that only repeats its label.
  predicate Plainly(e: GraphEdge) {
    e.condition == None || (e.caption.Some? && e.condition == e.caption)
  }

  // Nothing stands in the way of the unconditional edges: every other condition parses and fails.
  ghost predicate NoConditionHolds(es: seq<GraphEdge>, q: Query) {
    forall e :: e in es && !Plainly(e) ==> q.lang.parses(e.condition.value) && !q.lang.holds(e.condition.value, q.ctx)
  }

  // No unconditional edge has the label that the outcome prefers, or leads to a node that it suggests.
  ghost predicate NonePreferred(es: seq<GraphEdge>, q: Query, o: Outcome) {
    (o.Success? || o.PartialSuccess?) && o.preferred.Some? ==>
      forall e :: e in es && Plainly(e) && e.caption.Some? ==>
        q.lang.normalize(e.caption.value) != q.lang.normalize(o.preferred.value)
  }

  ghost predicate NoneSuggested(es: seq<GraphEdge>, o: Outcome) {
    (o.Success? || o.PartialSuccess?) && o.suggested.Some? ==>
      forall e :: e in es && Plainly(e) ==> e.to !in o.suggested.value
  }

  // An unconditional edge with one of the labels, up to case.
  predicate Bears(e: GraphEdge, lang: Language, labels: seq<string>) {
    Plainly(e) && e.caption.Some? && lang.lower(e.caption.value) in labels
  }

  // The first tier with a candidate decides.
  lemma TierDecides(es: seq<GraphEdge>, q: Query, t: Tier, e: GraphEdge)
    requires FirstUnparsable(es, q.lang).None? && e in es && InTier(t, e, q)
    requires forall l, f :: 0 <= l < |TIERS| && Before(TIERS[l], t) && f in es ==> !InTier(TIERS[l], f, q)
    ensures SelectAmong(es, q).Ok? && SelectAmong(es, q).value.Some?
    ensures SelectAmong(es, q).value.value in es && InTier(t, SelectAmong(es, q).value.value, q)
  {
    hide InTier;
    assert TIERS[0] == Passing && TIERS[1] == Preferred && TIERS[2] == Suggested && TIERS[3] == OutcomeLabel;
    assert TIERS[4] == Unconditional;
    forall u | Before(u, t) ensures Tiered(u, es, q) == [] {
      assert TIERS[Rank(u)] == u;
      forall j | 0 <= j < |es| ensures !InTier(u, es[j], q) {
        assert es[j] in es;
      }
      EmptyTier(u, es, q);
    }
    TieredMembers(t, es, q);
    BestMember(Tiered(t, es, q));
  }

  predicate Before(u: Tier, t: Tier) {
    Rank(u) < Rank(t)
  }

  function Rank(t: Tier): nat {
    match t
    case Passing => 0
    case Preferred => 1
    case Suggested => 2
    case OutcomeLabel => 3
    case Unconditional => 4
  }

  // A condition that holds decides before everything else: some edge whose condition holds is taken.
  lemma ConditionsDecide(es: seq<GraphEdge>, q: Query, e: GraphEdge)
    requires forall f :: f in es && !Plainly(f) ==> q.lang.parses(f.condition.value)
    requires e in es && !Plainly(e) && q.lang.holds(e.condition.value, q.ctx)
    ensures var r := SelectAmong(es, q);
            r.Ok? && r.value.Some? && r.value.value in es
            && !Plainly(r.value.value) && q.lang.holds(r.value.value.condition.value, q.ctx)
  {
    TierDecides(es, q, Passing, e);
  }

  // Then the label that the outcome prefers, up to normalization.
  lemma PreferredLabelDecides(es: seq<GraphEdge>, q: Query, o: Outcome, e: GraphEdge)
    requires NoConditionHolds(es, q) && q.outcome == Some(o)
    requires (o.Success? || o.PartialSuccess?) && o.preferred.Some?
    requires e in es && Plainly(e) && e.caption.Some?
             && q.lang.normalize(e.caption.value) == q.lang.normalize(o.preferred.value)
    ensures var r := SelectAmong(es, q);
            r.Ok? && r.value.Some? && r.value.value in es && Plainly(r.value.value) && r.value.value.caption.Some?
            && q.lang.normalize(r.value.value.caption.value) == q.lang.normalize(o.preferred.value)
  {
    TierDecides(es, q, Preferred, e);
  }

  // Then the nodes that it suggests.
  lemma SuggestionsDecide(es: seq<GraphEdge>, q: Query, o: Outcome, e: GraphEdge)
    requires NoConditionHolds(es, q) && q.outcome == Some(o) && NonePreferred(es, q, o)
    requires (o.Success? || o.PartialSuccess?) && o.suggested.Some?
    requires e in es && Plainly(e) && e.to in o.suggested.value
    ensures var r := SelectAmong(es, q);
            r.Ok? && r.value.Some? && r.value.value in es && Plainly(r.value.value)
            && r.value.value.to in o.suggested.value
  {
    TierDecides(es, q, Suggested, e);
  }

  // Then the labels that go with the kind of outcome.
  lemma LabelsDecide(es: seq<GraphEdge>, q: Query, o: Outcome, labels: seq<string>, e: GraphEdge)
    requires NoConditionHolds(es, q) && q.outcome == Some(o)
    requires NonePreferred(es, q, o) && NoneSuggested(es, o)
    requires o.Success? || o.PartialSuccess? ==> labels == ["success", "yes", "true", "partial_success"]
    requires o.Failure? ==> labels == ["failure", "error", "no", "false"]
    requires o.Retry? ==> labels == ["retry", "failure", "error"]
    requires o.Skip? ==> labels == ["skip"]
    requires e in es && Bears(e, q.lang, labels)
    ensures var r := SelectAmong(es, q);
            r.Ok? && r.value.Some? && r.value.value in es && Bears(r.value.value, q.lang, labels)
  {
    TierDecides(es, q, OutcomeLabel, e);
  }

  // And without any of these the unconditional edges as such; nothing else is ever taken.
  lemma UnconditionalOtherwise(es: seq<GraphEdge>, q: Query)
    requires NoConditionHolds(es, q) && q.outcome.None?
    ensures var r := SelectAmong(es, q);
            r.Ok? && (r.value.Some? <==> exists e :: e in es && Plainly(e))
            && (r.value.Some? ==> r.value.value in es && Plainly(r.value.value))
  {
    if e :| e in es && Plainly(e) { TierDecides(es, q, Unconditional, e); }
    SelectRefinesTiers(es, q);
  }

  // The error names the first edge whose condition does not parse.
  lemma {:induction false} ErrorNamesFirst(es: seq<GraphEdge>, q: Query, i: nat)
    requires i < |es| && !Plainly(es[i]) && !q.lang.parses(es[i].condition.value)
    requires forall j :: 0 <= j < i ==> Plainly(es[j]) || q.lang.parses(es[j].condition.value)
    ensures SelectAmong(es, q) == Err(ConditionParseError(es[i].from, es[i].to))
  {
    if i > 0 {
      forall j | 0 <= j < i - 1 ensures Plainly(es[1..][j]) || q.lang.parses(es[1..][j].condition.value) {
        assert es[1..][j] == es[j + 1];
      }
      ErrorNamesFirst(es[1..], q, i - 1);
    }
  }

  function PriorityOf(e: GraphEdge): int {
    match e.priority
    case None => 0
    case Some(p) => p
  }

  // Between two edges that differ in target and priority only, the higher priority decides, a missing
  // one counting as 0, then the target that comes first, and then the position.
  lemma PriorityDecides(v: string, s: string, t: string, m: Option<int>, n: Option<int>, q: Query)
    requires q.outcome.None?
    ensures var a, b := PlainEdge(v, s).(priority := m), PlainEdge(v, t).(priority := n);
            SelectAmong([a, b], q) ==
            Ok(Some(if PriorityOf(b) > PriorityOf(a) || (PriorityOf(b) == PriorityOf(a) && Less(t, s)) then b else a))
  {
    var a, b := PlainEdge(v, s).(priority := m), PlainEdge(v, t).(priority := n);
    TierOfTwo(Passing, a, b, q);
    TierOfTwo(Preferred, a, b, q);
    TierOfTwo(Suggested, a, b, q);
    TierOfTwo(OutcomeLabel, a, b, q);
    TierOfTwo(Unconditional, a, b, q);
    TwoCandidates(a, b);
  }

  // The order of identifiers is that of dictionaries: the first different character decides, and a
  // prefix comes first.
  lemma DictionaryOrder(p: string, c: char, s: string, d: char, t: string)
    ensures Less(p, p + [c] + s)
    ensures c < d ==> Less(p + ([c] + s), p + ([d] + t))
  {
    LessCommonPrefix(p, [], [c] + s);
    LessCommonPrefix(p, [c] + s, [d] + t);
    assert p + [] == p && p + ([c] + s) == p + [c] + s;
  }
}
