// Resuming from a saved checkpoint completes the run, interrupted or not.
module Resume {
  import opened Wrappers
  import opened Graphs
  import opened State
  import opened EdgeSelection
  import opened Goals
  import opened Engine
  import opened EngineRuns

  ghost predicate NoDuplicates(ids: seq<string>) {
    forall i, j :: 0 <= i < j < |ids| ==> ids[i] != ids[j]
  }

  lemma {:induction false} MarkAllAgain(marked: seq<string>, ids: seq<string>)
    requires NoDuplicates(marked + ids)
    ensures MarkAll(marked, ids) == marked + ids
    decreases |ids|
  {
    if ids == [] {
      assert marked + ids == marked;
    } else {
      forall i | 0 <= i < |marked| ensures marked[i] != ids[0] {
        assert (marked + ids)[i] != (marked + ids)[|marked|];
      }
      assert marked + ids == (marked + [ids[0]]) + ids[1..];
      MarkAllAgain(marked + [ids[0]], ids[1..]);
    }
  }

  lemma RecordedVisited(cfg: Config, s: RunState)
    ensures Executable(cfg, s) ==> Recorded(cfg, s).visited == MarkVisited(s.visited, s.current)
  {
  }

  lemma {:induction false} VisitedNoDuplicates(cfg: Config, ts: seq<RunState>)
    requires IsTrail(cfg, ts) && NoDuplicates(ts[0].visited)
    ensures NoDuplicates(ts[|ts| - 1].visited)
    decreases |ts|
  {
    hide Step, Recorded;
    if |ts| > 1 {
      RecordedVisited(cfg, ts[|ts| - 2]);
      VisitedNoDuplicates(cfg, ts[..|ts| - 1]);
      StepAdvances(cfg, ts[|ts| - 2]);
      RoutingKeepsBooks(cfg, ts[|ts| - 2]);
    }
  }

  // `b` continues like `a`, `d` steps younger and with no higher failure counts.
  ghost predicate Continues(a: RunState, b: RunState, d: nat) {
    b.current == a.current && b.visited == a.visited && b.outcomes == a.outcomes && b.ctx == a.ctx
    && b.steps + d == a.steps
    && forall p :: Count(b.failures, p) <= Count(a.failures, p)
  }

  lemma RecordingContinues(cfg: Config, a: RunState, b: RunState, d: nat)
    requires Continues(a, b, d) && Executable(cfg, a)
    ensures Executable(cfg, b) && OutcomeOf(cfg, b) == OutcomeOf(cfg, a)
    ensures Continues(Recorded(cfg, a), Recorded(cfg, b), d)
  {
    var o := OutcomeOf(cfg, a);
    forall p ensures Count(Recorded(cfg, b).failures, p) <= Count(Recorded(cfg, a).failures, p) {
      assert Count(b.failures, p) <= Count(a.failures, p);
    }
  }

  // The same routing, towards states that continue each other.
  ghost predicate Alike(a: Routing, b: Routing, d: nat) {
    (a.Goto? ==> b.Goto? && Continues(a.next, b.next, d)) && (a.Finish? ==> b.Finish? && Continues(a.final, b.final, d))
  }

  lemma JumpsAlike(cfg: Config, a: RunState, b: RunState, d: nat, target: string, m: Move)
    requires Continues(a, b, d)
    ensures Alike(Jump(cfg, a, target, m), Jump(cfg, b, target, m), d)
  {
  }

  lemma ExitsAlike(cfg: Config, a: RunState, b: RunState, d: nat)
    requires Continues(a, b, d)
    ensures Alike(RouteAtExit(cfg, a), RouteAtExit(cfg, b), d)
  {
    hide Continues, Jump;
    assert a.outcomes == b.outcomes by { SameBooks(a, b, d); }
    match FirstUnsatisfied(GoalsOf(cfg), a.outcomes)
    case None =>
    case Some(u) =>
      var failed := FindNode(cfg.graph.nodes, u.nodeId);
      if failed.Some? && ResolveRetryTarget(failed.value, cfg.graph).Some? {
        var target := ResolveRetryTarget(failed.value, cfg.graph).value;
        JumpsAlike(cfg, a, b, d, target, ViaGoal(u.nodeId, target));
      }
  }

  lemma SameBooks(a: RunState, b: RunState, d: nat)
    requires Continues(a, b, d)
    ensures a.outcomes == b.outcomes && a.current == b.current && a.ctx == b.ctx
  {
  }

  lemma OnwardAlike(cfg: Config, node: GraphNode, o: Outcome, a: RunState, b: RunState, d: nat)
    requires Continues(a, b, d)
    ensures Alike(RouteOnward(cfg, node, a, o), RouteOnward(cfg, node, b, o), d)
  {
    var u, v := WithOutcomeLabel(a, o), WithOutcomeLabel(b, o);
    assert Continues(u, v, d);
    hide Jump, Select, WithOutcomeLabel;
    var selected := Select(cfg.graph, u.current, Query(cfg.lang, u.ctx, Some(o)));
    if selected.Ok? {
      if selected.value.Some? {
        TraversalsAlike(cfg, u, v, d, selected.value.value);
      } else if ResolveRetryTarget(node, cfg.graph).Some? {
        var target := ResolveRetryTarget(node, cfg.graph).value;
        JumpsAlike(cfg, u, v, d, target, ViaFailure(target));
      }
    }
  }

  lemma TraversalsAlike(cfg: Config, a: RunState, b: RunState, d: nat, e: GraphEdge)
    requires Continues(a, b, d)
    ensures Continues(Traverse(cfg, a, e), Traverse(cfg, b, e), d)
  {
  }

  // A younger run is never aborted earlier: it routes as the older one does.
  lemma RoutingContinues(cfg: Config, node: GraphNode, o: Outcome, a: RunState, b: RunState, d: nat)
    requires Continues(a, b, d) && !Route(cfg, node, a, o).Fail?
    ensures Alike(Route(cfg, node, a, o), Route(cfg, node, b, o), d)
  {
    if o.Failure? { assert Count(b.failures, (a.current, o.error)) <= Count(a.failures, (a.current, o.error)); }
    hide RouteAtExit, RouteOnward, Alike;
    ExitsAlike(cfg, a, b, d);
    OnwardAlike(cfg, node, o, a, b, d);
  }

  lemma StepContinues(cfg: Config, a: RunState, b: RunState, d: nat)
    requires Continues(a, b, d) && !Step(cfg, a).Fail?
    ensures Step(cfg, a).Goto? ==>
              Step(cfg, b).Goto? && Continues(Step(cfg, a).next, Step(cfg, b).next, d)
    ensures Step(cfg, a).Finish? ==>
              Step(cfg, b).Finish? && Continues(Step(cfg, a).final, Step(cfg, b).final, d)
  {
    StepAdvances(cfg, a);
    RecordingContinues(cfg, a, b, d);
    RoutingContinues(cfg, NodeOf(cfg, a), OutcomeOf(cfg, a), Recorded(cfg, a), Recorded(cfg, b), d);
  }

  lemma {:induction false} RunContinues(cfg: Config, cancelled: nat -> bool, ts: seq<RunState>, final: RunState,
                                        k: nat, b: RunState, d: nat)
    requires Completed(cfg, ts, final) && k < |ts| && Continues(ts[k], b, d)
    requires forall n :: !cancelled(n)
    ensures Run(cfg, cancelled, b).Ok? && Continues(final, Run(cfg, cancelled, b).value, d)
    decreases |ts| - k
  {
    StepContinues(cfg, ts[k], b, d);
    RunUnfold(cfg, cancelled, b);
    if k < |ts| - 1 {
      RunContinues(cfg, cancelled, ts, final, k + 1, Step(cfg, b).next, d);
    }
  }

  // Running the node again right after it ran changes neither its outcome nor the context.
  ghost predicate Idempotent(cfg: Config, s: RunState)
    requires Executable(cfg, s)
  {
    cfg.handler(NodeOf(cfg, s), Recorded(cfg, s).ctx) == (OutcomeOf(cfg, s), Recorded(cfg, s).ctx)
  }

  lemma FreshCountsAreLower(c: Counts, id: string, o: Outcome)
    ensures forall p :: Count(NextFailures(map[], id, o), p) <= Count(NextFailures(c, id, o), p)
  {
  }

  // Resuming goes on at the node of the checkpoint with its visited list and outcomes, counting afresh.
  // Where the snapshot and the given context both have an entry, the snapshot's is taken, and an entry
  // of the given context stays where the snapshot has none.
  lemma ResumedFrom(cp: Checkpoint, context: Context)
    ensures var s := Resumed(cp, context);
            s.current == cp.currentNode && s.visited == cp.visitedNodes && s.outcomes == cp.nodeOutcomes
            && s.steps == 0 && s.failures == map[] && s.restarts == map[]
            && s.ctx.Keys == context.Keys + cp.contextSnapshot.Keys
            && (forall k :: k in cp.contextSnapshot ==> s.ctx[k] == cp.contextSnapshot[k])
            && (forall k :: k in context && k !in cp.contextSnapshot ==> s.ctx[k] == context[k])
  {
  }

  // So the given context plays no part exactly when the snapshot has all of its keys.
  lemma SnapshotWinsIff(cp: Checkpoint, context: Context)
    ensures Resumed(cp, context).ctx == cp.contextSnapshot <==> context.Keys <= cp.contextSnapshot.Keys
    ensures Resumed(cp, context) == Resumed(cp, map[]) <==> context.Keys <= cp.contextSnapshot.Keys
  {
    ResumedFrom(cp, context);
    ResumedFrom(cp, map[]);
    assert Resumed(cp, map[]).ctx == cp.contextSnapshot;
    if context.Keys <= cp.contextSnapshot.Keys {
      assert Resumed(cp, context).ctx == cp.contextSnapshot;
    } else {
      var k :| k in context && k !in cp.contextSnapshot;
      assert k in Resumed(cp, context).ctx;
    }
  }

  lemma ResumedState(cfg: Config, t: RunState)
    requires NoDuplicates(t.visited)
    ensures Resumed(AutoSaved(cfg, t), map[]) == t.(steps := 0, failures := map[], restarts := map[])
  {
    assert [] + t.visited == t.visited;
    MarkAllAgain([], t.visited);
    SnapshotWinsIff(AutoSaved(cfg, t), map[]);
  }

  lemma SavedContext(cfg: Config, t: RunState)
    ensures AutoSaved(cfg, t).contextSnapshot == t.ctx
  {
  }

  lemma RecordedStates(cfg: Config, s: RunState)
    requires Executable(cfg, s)
    ensures var t := Recorded(cfg, s);
            t.current == s.current && t.visited == MarkVisited(s.visited, s.current) && t.steps == s.steps + 1
            && t.outcomes == s.outcomes[s.current := OutcomeOf(cfg, s)]
            && t.ctx == cfg.handler(NodeOf(cfg, s), s.ctx).1
            && t.failures == (if cfg.maxIdenticalFailures.Some?
                              then NextFailures(s.failures, s.current, OutcomeOf(cfg, s)) else s.failures)
  {
  }

  lemma ResumedRecords(cfg: Config, s: RunState)
    requires Executable(cfg, s) && NoDuplicates(s.visited) && Idempotent(cfg, s)
    ensures var r := Resumed(AutoSaved(cfg, Recorded(cfg, s)), map[]);
            Executable(cfg, r) && OutcomeOf(cfg, r) == OutcomeOf(cfg, s)
            && Continues(Recorded(cfg, s), Recorded(cfg, r), s.steps)
  {
    hide NextFailures, AutoSaved, Resumed, Recorded;
    var t := Recorded(cfg, s);
    RecordedStates(cfg, s);
    ResumedState(cfg, t);
    var r := Resumed(AutoSaved(cfg, t), map[]);
    RecordedStates(cfg, r);
    FreshCountsAreLower(s.failures, s.current, OutcomeOf(cfg, s));
    assert t.outcomes[s.current := OutcomeOf(cfg, s)] == t.outcomes;
  }

  // The re-executed step routes as the interrupted one did.
  lemma ResumedStepAlike(cfg: Config, s: RunState)
    requires Executable(cfg, s) && NoDuplicates(s.visited) && Idempotent(cfg, s) && !Step(cfg, s).Fail?
    ensures var r := Resumed(AutoSaved(cfg, Recorded(cfg, s)), map[]);
            Alike(Step(cfg, s), Step(cfg, r), s.steps) && r.steps == 0
  {
    hide Route, Recorded, Alike, Continues, NoDuplicates, Idempotent, MarkAll;
    var r := Resumed(AutoSaved(cfg, Recorded(cfg, s)), map[]);
    ResumedRecords(cfg, s);
    RoutingContinues(cfg, NodeOf(cfg, s), OutcomeOf(cfg, s), Recorded(cfg, s), Recorded(cfg, r), s.steps);
    assert r.current == s.current by { RecordedStates(cfg, s); }
  }

  // A fresh run, or one that was resumed from a checkpoint.
  ghost predicate AtStart(s: RunState) {
    s.steps == 0 && NoDuplicates(s.visited)
  }

  lemma ResumedAtStart(cfg: Config, ts: seq<RunState>, i: nat)
    requires IsTrail(cfg, ts) && AtStart(ts[0]) && i < |ts| && Executable(cfg, ts[i])
    ensures NoDuplicates(ts[i].visited) && AtStart(Resumed(AutoSaved(cfg, Recorded(cfg, ts[i])), map[]))
  {
    hide AutoSaved, Recorded, Step, Executable;
    assert IsTrail(cfg, ts[..i + 1]);
    VisitedNoDuplicates(cfg, ts[..i + 1]);
    RecordedStates(cfg, ts[i]);
    ResumedState(cfg, Recorded(cfg, ts[i]));
  }

  // A completed run of n steps, fresh or resumed itself, resumed from the checkpoint saved at step i
  // whose node is idempotent there, into any context whose keys the snapshot holds, completes with the
  // same visited list, outcomes and context after n - i further steps, counting steps from 0.
  lemma ResumeCompletesTheRun(cfg: Config, cancelled: nat -> bool, ts: seq<RunState>, final: RunState, i: nat,
                              context: Context)
    requires Completed(cfg, ts, final) && AtStart(ts[0]) && i < |ts|
    requires forall n :: !cancelled(n)
    requires Executable(cfg, ts[i]) && Idempotent(cfg, ts[i])
    requires context.Keys <= Recorded(cfg, ts[i]).ctx.Keys
    ensures var s := Resumed(AutoSaved(cfg, Recorded(cfg, ts[i])), context);
            var r := Run(cfg, cancelled, s);
            AtStart(s) && r.Ok? && r.value.visited == final.visited && r.value.outcomes == final.outcomes
            && r.value.ctx == final.ctx && r.value.steps == |ts| - i
  {
    hide AutoSaved, Idempotent, Recorded, Step, NoDuplicates;
    var s := ts[i];
    var r := Resumed(AutoSaved(cfg, Recorded(cfg, s)), map[]);
    assert r == Resumed(AutoSaved(cfg, Recorded(cfg, s)), context) by {
      SnapshotWinsIff(AutoSaved(cfg, Recorded(cfg, s)), context);
      SavedContext(cfg, Recorded(cfg, s));
    }
    ResumedAtStart(cfg, ts, i);
    TrailSteps(cfg, ts, i);
    TrailSteps(cfg, ts, |ts| - 1);
    StepAdvances(cfg, ts[|ts| - 1]);
    ResumedStepAlike(cfg, s);
    RunUnfold(cfg, cancelled, r);
    if i < |ts| - 1 {
      RunContinues(cfg, cancelled, ts, final, i + 1, Step(cfg, r).next, i);
    }
  }

  // One checkpoint a step.
  ghost function Checkpoints(cfg: Config, ts: seq<RunState>): (r: seq<Checkpoint>)
    requires AllExecutable(cfg, ts)
    ensures |r| == |ts|
  {
    seq(|ts|, i requires 0 <= i < |ts| => AutoSaved(cfg, Recorded(cfg, ts[i])))
  }

  // What an uninterrupted run saves from step k on.
  lemma {:induction false} CheckpointsOfTrail(cfg: Config, cancelled: nat -> bool, ts: seq<RunState>, final: RunState,
                                              k: nat)
    requires Completed(cfg, ts, final) && AllExecutable(cfg, ts) && k < |ts|
    requires forall n :: !cancelled(n)
    ensures AutoSaves(cfg, cancelled, ts[k]) == Checkpoints(cfg, ts)[k..]
    decreases |ts| - k
  {
    hide AutoSaves, Step, SavedBy, Checkpoints, Executable;
    AutoSavesUnfold(cfg, cancelled, ts[k]);
    SavesOneCheckpoint(cfg, ts, k);
    if k < |ts| - 1 {
      CheckpointsOfTrail(cfg, cancelled, ts, final, k + 1);
    }
  }

  lemma SavesOneCheckpoint(cfg: Config, ts: seq<RunState>, k: nat)
    requires AllExecutable(cfg, ts) && k < |ts| && !Step(cfg, ts[k]).Fail?
    ensures SavedBy(cfg, ts[k]) == [Checkpoints(cfg, ts)[k]]
  {
    hide AutoSaved, RouteAtExit, RouteOnward;
  }

  // Running the node twice in a row is the same as running it once, from every state.
  ghost predicate IdempotentNode(cfg: Config, id: string) {
    forall s :: Executable(cfg, s) && s.current == id ==> Idempotent(cfg, s)
  }

  function Never(k: nat): bool {
    false
  }

  // What a run saved before it was cancelled is the beginning of what it would have saved.
  lemma {:induction false} CancelledSavesArePrefix(cfg: Config, cancelled: nat -> bool, s: RunState)
    ensures AutoSaves(cfg, cancelled, s) <= AutoSaves(cfg, Never, s)
    decreases cfg.maxSteps - s.steps
  {
    hide Step, SavedBy;
    StepAdvances(cfg, s);
    AutoSavesUnfold(cfg, cancelled, s);
    AutoSavesUnfold(cfg, Never, s);
    if Step(cfg, s).Goto? && !cancelled(s.steps) {
      CancelledSavesArePrefix(cfg, cancelled, Step(cfg, s).next);
    }
  }

  // A run that would succeed when left alone, fresh or resumed itself, can be interrupted at any
  // moment and resumed from every checkpoint that it has saved by then, so also from the last, into
  // any context whose keys the snapshot holds, if the node named there is idempotent: the rest of the
  // run ends in the visited list, the outcomes and the context of the uninterrupted run, and repeats
  // only the step of the checkpoint.
  lemma EveryCheckpointResumes(cfg: Config, cancelled: nat -> bool, s: RunState, i: nat, context: Context)
    requires AtStart(s) && Run(cfg, Never, s).Ok? && i < |AutoSaves(cfg, cancelled, s)|
    requires IdempotentNode(cfg, AutoSaves(cfg, cancelled, s)[i].currentNode)
    requires context.Keys <= AutoSaves(cfg, cancelled, s)[i].contextSnapshot.Keys
    ensures var r := Resumed(AutoSaves(cfg, cancelled, s)[i], context);
            var whole, rest := Run(cfg, Never, s).value, Run(cfg, Never, r);
            AutoSaves(cfg, cancelled, s) <= AutoSaves(cfg, Never, s) && |AutoSaves(cfg, Never, s)| == whole.steps
            && AtStart(r) && rest.Ok? && SameEnd(whole, rest.value) && rest.value.steps == whole.steps - i
  {
    hide Run, AutoSaves, Idempotent, Resumed, Recorded, Step, Enforced;
    CancelledSavesArePrefix(cfg, cancelled, s);
    var ts := RunHasTrail(cfg, Never, s);
    var final := Run(cfg, Never, s).value;
    StepAdvances(cfg, ts[|ts| - 1]);
    TrailExecutable(cfg, ts);
    StepsBounded(cfg, ts);
    CheckpointsOfTrail(cfg, Never, ts, final, 0);
    RecordedStates(cfg, ts[i]);
    assert AutoSaves(cfg, cancelled, s)[i] == AutoSaved(cfg, Recorded(cfg, ts[i]));
    SavedContext(cfg, Recorded(cfg, ts[i]));
    ResumeCompletesTheRun(cfg, Never, ts, final, i, context);
  }

  ghost predicate SameEnd(a: RunState, b: RunState) {
    b.visited == a.visited && b.outcomes == a.outcomes && b.ctx == a.ctx
  }

  // The run from s is cancelled and resumed as the run from t.
  ghost predicate Interrupts(cfg: Config, s: RunState, t: RunState) {
    exists cancelled, i: nat, context: Context {:trigger Resumed(AutoSaves(cfg, cancelled, s)[i], context)} ::
      i < |AutoSaves(cfg, cancelled, s)| && IdempotentNode(cfg, AutoSaves(cfg, cancelled, s)[i].currentNode)
      && context.Keys <= AutoSaves(cfg, cancelled, s)[i].contextSnapshot.Keys
      && t == Resumed(AutoSaves(cfg, cancelled, s)[i], context)
  }

  // Any number of interruptions, each resumed from some checkpoint of the run interrupted, changes
  // nothing: the last run ends like the first one would have, in no more steps.
  lemma {:induction false} EveryInterruptionResumes(cfg: Config, runs: seq<RunState>)
    requires runs != [] && AtStart(runs[0]) && Run(cfg, Never, runs[0]).Ok?
    requires forall k :: 0 <= k < |runs| - 1 ==> Interrupts(cfg, runs[k], runs[k + 1])
    ensures var whole, rest := Run(cfg, Never, runs[0]).value, Run(cfg, Never, runs[|runs| - 1]);
            AtStart(runs[|runs| - 1]) && rest.Ok? && SameEnd(whole, rest.value) && rest.value.steps <= whole.steps
    decreases |runs|
  {
    hide Run, AutoSaves, Resumed, IdempotentNode, AtStart, Interrupts;
    if |runs| > 1 {
      var n := |runs| - 1;
      EveryInterruptionResumes(cfg, runs[..n]);
      OneInterruption(cfg, runs[n - 1], runs[n]);
    }
  }

  lemma OneInterruption(cfg: Config, s: RunState, t: RunState)
    requires AtStart(s) && Run(cfg, Never, s).Ok? && Interrupts(cfg, s, t)
    ensures AtStart(t) && Run(cfg, Never, t).Ok? && SameEnd(Run(cfg, Never, s).value, Run(cfg, Never, t).value)
    ensures Run(cfg, Never, t).value.steps <= Run(cfg, Never, s).value.steps
  {
    hide Run, AutoSaves, Resumed, IdempotentNode, AtStart;
    var cancelled, i: nat, context: Context :|
      i < |AutoSaves(cfg, cancelled, s)| && IdempotentNode(cfg, AutoSaves(cfg, cancelled, s)[i].currentNode)
      && context.Keys <= AutoSaves(cfg, cancelled, s)[i].contextSnapshot.Keys
      && t == Resumed(AutoSaves(cfg, cancelled, s)[i], context);
    EveryCheckpointResumes(cfg, cancelled, s, i, context);
  }
}
