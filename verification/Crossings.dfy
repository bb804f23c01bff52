// Running through an inlined sub-graph from its start to its exit.
module Crossings {
  import opened Graphs
  import opened Strings
  import opened State
  import opened EdgeSelection
  import opened Composition
  import opened CompositionWalks
  import opened CompositionSelection
  import opened Engine
  import opened EngineRuns
  import opened InlinedRuns

  // ----- The situation -----

  // What the levels must not do differently for their runs to be compared: carry on the context
  // along an edge and along its image, suggest a node and its inlined form, or end at several exits.
  ghost predicate Suited(cfg: Config, parent: Graph, sub: Graph, id: string) {
    Inlinable(parent, sub, id) && cfg.graph == Inlined(parent, sub, id)
    && SuitedOutside(cfg, parent, sub, id) && SuitedInside(cfg, sub, id)
  }

  ghost predicate SuitedOutside(cfg: Config, parent: Graph, sub: Graph, id: string)
    requires HasBoundary(sub)
  {
    FindNode(parent.nodes, id).Some? && FindNode(parent.nodes, id).value.nodeType != Exit
    && NothingBelow(parent.edges, id) && (forall n :: n in parent.nodes ==> !Below(id, n.id))
    && AllUndisturbed(parent.edges, id, StartId(sub))
    && (forall e, c :: e in parent.edges ==> CarriedAlike(cfg, c, e, id, InlinedStart(sub, id), InlinedExit(sub, id)))
    && (forall n, c :: NeutralHandling(cfg, n, c, id, InlinedStart(sub, id)))
  }

  ghost predicate SuitedInside(cfg: Config, sub: Graph, id: string)
    requires HasBoundary(sub)
  {
    (forall n :: n in sub.nodes && n.nodeType == Exit ==> n.id == ExitId(sub))
    && EdgesFrom(sub.edges, ExitId(sub)) == []
    && (forall e, c :: e in sub.edges ==> CarriedInside(cfg, c, e, id))
    && (forall n, c, e :: e in sub.edges ==> NeutralHandling(cfg, n, c, e.to, PrefixId(id, e.to)))
  }

  function InlinedStart(sub: Graph, id: string): string
    requires HasBoundary(sub)
  {
    PrefixId(id, StartId(sub))
  }

  function InlinedExit(sub: Graph, id: string): string
    requires HasBoundary(sub)
  {
    PrefixId(id, ExitId(sub))
  }

  ghost predicate CarriedAlike(cfg: Config, c: Context, e: GraphEdge, id: string, start: string, exit: string) {
    Carried(cfg, c, Redirect(e, id, start, exit)) == Carried(cfg, c, e)
  }

  ghost predicate CarriedInside(cfg: Config, c: Context, e: GraphEdge, id: string) {
    Carried(cfg, c, InlineEdge(e, id)) == Carried(cfg, c, e)
  }

  ghost predicate NeutralHandling(cfg: Config, n: GraphNode, c: Context, a: string, b: string) {
    cfg.handler(n, c).0.Suggests(a) <==> cfg.handler(n, c).0.Suggests(b)
  }

  lemma SuitedHasBoundary(cfg: Config, parent: Graph, sub: Graph, id: string)
    requires Suited(cfg, parent, sub, id)
    ensures HasBoundary(sub)
  {
  }

  // Without context-fidelity processing only restart edges make a difference: they clear context
  // entries by the name of the node left, so they must not leave a node that inlining renames.
  lemma CarriedAlikeIff(cfg: Config, e: GraphEdge, id: string, start: string, exit: string)
    requires cfg.fidelity.None? && Below(id, exit)
    ensures (forall c :: CarriedAlike(cfg, c, e, id, start, exit)) <==> !(e.from == id && e.loopRestart)
  {
    if e.from == id && e.loopRestart {
      assert !CarriedAlike(cfg, map[id + "_" := JString("")], e, id, start, exit) by {
        ClearedDiffers(cfg, e, Redirect(e, id, start, exit));
      }
    }
  }

  lemma CarriedInsideIff(cfg: Config, e: GraphEdge, id: string)
    requires cfg.fidelity.None?
    ensures (forall c :: CarriedInside(cfg, c, e, id)) <==> !e.loopRestart
  {
    if e.loopRestart {
      assert !CarriedInside(cfg, map[e.from + "_" := JString("")], e, id) by {
        ClearedDiffers(cfg, e, InlineEdge(e, id));
      }
    }
  }

  // An entry that a restart edge clears and its image, which leaves a node with a longer name, does
  // not.
  lemma ClearedDiffers(cfg: Config, e: GraphEdge, f: GraphEdge)
    requires cfg.fidelity.None? && e.loopRestart && f.loopRestart && |f.from| > |e.from|
    ensures Carried(cfg, map[e.from + "_" := JString("")], e) != Carried(cfg, map[e.from + "_" := JString("")], f)
  {
    var k := e.from + "_";
    assert HasPrefix(k, e.from + "_") && !HasPrefix(k, f.from + "_");
    assert k in Carried(cfg, map[k := JString("")], f);
  }

  // ----- Crossing the sub-graph -----

  // A run through the inlined nodes from the start to the exit.
  ghost predicate Crossing(cfg: Config, sub: Graph, id: string, us: seq<RunState>)
    requires HasBoundary(sub)
  {
    IsTrail(cfg, us) && ByEdgesOnly(cfg, us) && AllExecutable(cfg, us)
    && (forall i :: 0 <= i < |us| ==> Below(id, us[i].current))
    && us[0].current == InlinedStart(sub, id) && us[|us| - 1].current == InlinedExit(sub, id)
  }

  lemma IsCrossing(cfg: Config, sub: Graph, id: string, us: seq<RunState>)
    requires HasBoundary(sub) && us != []
    requires IsTrail(cfg, us) && ByEdgesOnly(cfg, us) && AllExecutable(cfg, us)
    requires forall i :: 0 <= i < |us| ==> Below(id, us[i].current)
    requires us[0].current == InlinedStart(sub, id) && us[|us| - 1].current == InlinedExit(sub, id)
    ensures Crossing(cfg, sub, id, us)
  {
  }

  // What the exit reports, and the context it leaves behind.
  ghost function Crossed(cfg: Config, us: seq<RunState>): (Outcome, Context)
    requires us != [] && AllExecutable(cfg, us)
  {
    (OutcomeOf(cfg, us[|us| - 1]), Recorded(cfg, us[|us| - 1]).ctx)
  }

  // Along edges, a step depends on the node and the context only.
  lemma LocalStep(cfg: Config, s: RunState, t: RunState, e: GraphEdge, f: GraphEdge)
    requires s.current == t.current && s.ctx == t.ctx && Goes(cfg, s, e) && Goes(cfg, t, f)
    ensures e == f
    ensures Step(cfg, t).next.current == Step(cfg, s).next.current && Step(cfg, t).next.ctx == Step(cfg, s).next.ctx
  {
    hide Goes, Select, Carried, NextFailures;
    GoesTo(cfg, s, e);
    GoesTo(cfg, t, f);
    GoesIff(cfg, s, e);
    GoesIff(cfg, t, f);
  }

  lemma {:induction false} InLockstep(cfg: Config, sub: Graph, id: string, us: seq<RunState>, vs: seq<RunState>, k: nat)
    requires HasBoundary(sub)
    requires Crossing(cfg, sub, id, us) && Crossing(cfg, sub, id, vs) && us[0].ctx == vs[0].ctx
    requires k < |us| && k < |vs|
    ensures us[k].current == vs[k].current && us[k].ctx == vs[k].ctx
  {
    hide Step, Executable;
    if k > 0 {
      InLockstep(cfg, sub, id, us, vs, k - 1);
      LocalStep(cfg, us[k - 1], vs[k - 1], Step(cfg, us[k - 1]).move.edge, Step(cfg, vs[k - 1]).move.edge);
    }
  }

  // Nothing goes on inside the sub-graph from its exit.
  lemma ExitIsLast(cfg: Config, parent: Graph, sub: Graph, id: string, us: seq<RunState>, k: nat)
    requires Suited(cfg, parent, sub, id) && Crossing(cfg, sub, id, us) && k < |us|
    requires us[k].current == InlinedExit(sub, id)
    ensures k == |us| - 1
  {
    hide Step, Executable, Inlined;
    if k < |us| - 1 {
      TrailIsWalk(cfg, us);
      var a, b := NodesOf(us)[k], NodesOf(us)[k + 1];
      assert Link(cfg.graph, a, b);
      ComposedLinks(parent, sub, id, a, b);
      StripPrefixId(id, ExitId(sub), a);
      NoLinkFrom(sub, ExitId(sub), Strip(id, b));
    }
  }

  lemma NoLinkFrom(g: Graph, a: string, b: string)
    requires EdgesFrom(g.edges, a) == []
    ensures !Link(g, a, b)
  {
    EdgesFromMembers(g.edges, a);
  }

  // What a crossing comes to depends on the context at its start only.
  lemma CrossingsAgree(cfg: Config, parent: Graph, sub: Graph, id: string, us: seq<RunState>, vs: seq<RunState>)
    requires Suited(cfg, parent, sub, id)
    requires Crossing(cfg, sub, id, us) && Crossing(cfg, sub, id, vs) && us[0].ctx == vs[0].ctx
    ensures Crossed(cfg, us) == Crossed(cfg, vs)
  {
    hide Step;
    var k := if |us| <= |vs| then |us| - 1 else |vs| - 1;
    SuitedHasBoundary(cfg, parent, sub, id);
    hide Suited;
    InLockstep(cfg, sub, id, us, vs, k);
    ExitIsLast(cfg, parent, sub, id, us, k);
    ExitIsLast(cfg, parent, sub, id, vs, k);
  }

  // ----- Runs along edges -----

  // A stretch of a run along edges.
  lemma Stretch(cfg: Config, ts: seq<RunState>, i: nat, j: nat)
    requires IsTrail(cfg, ts) && ByEdgesOnly(cfg, ts) && i < j <= |ts|
    ensures IsTrail(cfg, ts[i..j]) && ByEdgesOnly(cfg, ts[i..j])
  {
    hide Step;
    assert forall k :: 0 <= k < j - i ==> ts[i..j][k] == ts[i + k];
  }

  lemma OneMoreStep(cfg: Config, s: RunState, ts: seq<RunState>)
    requires IsTrail(cfg, ts) && ByEdgesOnly(cfg, ts)
    requires Step(cfg, s).Goto? && Step(cfg, s).move.ViaEdge? && Step(cfg, s).next == ts[0]
    ensures IsTrail(cfg, [s] + ts) && ByEdgesOnly(cfg, [s] + ts)
  {
    hide Step;
    assert forall k :: 0 < k <= |ts| ==> ([s] + ts)[k] == ts[k - 1];
  }
}
