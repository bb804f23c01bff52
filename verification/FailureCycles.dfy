// Failure-cycle detection is exact, and it bounds how long a run can go on failing.
module FailureCycles {
  import opened Engine
  import opened EngineRuns

  predicate FailsWith(e: NodeRun, p: (string, string)) {
    e.node == p.0 && e.outcome.Failure? && e.outcome.error == p.1
  }

  // How often a node failed with an error since its last success or partial success.
  function FailuresSince(es: seq<NodeRun>, p: (string, string)): nat {
    if es == [] then 0
    else
      var e := es[|es| - 1];
      if e.node == p.0 && e.outcome.IsSuccess() then 0
      else FailuresSince(es[..|es| - 1], p) + if FailsWith(e, p) then 1 else 0
  }

  ghost predicate Exact(c: Counts, es: seq<NodeRun>) {
    forall p :: Count(c, p) == FailuresSince(es, p)
  }

  lemma RecordingIsExact(c: Counts, es: seq<NodeRun>, e: NodeRun)
    requires Exact(c, es)
    ensures Exact(NextFailures(c, e.node, e.outcome), es + [e])
  {
    assert (es + [e])[..|es|] == es;
    forall p ensures Count(NextFailures(c, e.node, e.outcome), p) == FailuresSince(es + [e], p) {
      assert Count(c, p) == FailuresSince(es, p);
    }
  }

  lemma FreshIsExact()
    ensures Exact(map[], [])
  {
  }

  lemma RecordedFailures(cfg: Config, s: RunState)
    requires Executable(cfg, s) && cfg.maxIdenticalFailures.Some?
    ensures Recorded(cfg, s).failures == NextFailures(s.failures, s.current, OutcomeOf(cfg, s))
  {
  }

  lemma {:induction false} CountsAreExact(cfg: Config, ts: seq<RunState>)
    requires IsTrail(cfg, ts) && AllExecutable(cfg, ts)
    requires cfg.maxIdenticalFailures.Some? && ts[0].failures == map[]
    ensures Exact(Recorded(cfg, ts[|ts| - 1]).failures, Executions(cfg, ts))
    decreases |ts|
  {
    hide Step, Recorded, FailuresSince, NextFailures;
    var k := |ts| - 1;
    var e := NodeRun(ts[k].current, OutcomeOf(cfg, ts[k]));
    RecordedFailures(cfg, ts[k]);
    if k == 0 {
      FreshIsExact();
      RecordingIsExact(map[], [], e);
      assert Executions(cfg, ts) == [] + [e];
    } else {
      CountsAreExact(cfg, ts[..k]);
      RoutingKeepsBooks(cfg, ts[k - 1]);
      RecordingIsExact(ts[k].failures, Executions(cfg, ts[..k]), e);
      assert Executions(cfg, ts) == Executions(cfg, ts[..k]) + [e];
    }
  }

  // A limit of 0 aborts at the first failure, as a limit of 1 does.
  function Limit(m: nat): nat {
    if m == 0 then 1 else m
  }

  // A run that goes on keeps every count below the limit.
  lemma {:induction false} CountsStayBelow(cfg: Config, ts: seq<RunState>, p: (string, string))
    requires IsTrail(cfg, ts) && cfg.maxIdenticalFailures.Some? && ts[0].failures == map[]
    ensures Count(ts[|ts| - 1].failures, p) < Limit(cfg.maxIdenticalFailures.value)
    decreases |ts|
  {
    if |ts| > 1 {
      CountsStayBelow(cfg, ts[..|ts| - 1], p);
      StepStaysBelow(cfg, ts[|ts| - 2], p);
    }
  }

  lemma StepStaysBelow(cfg: Config, s: RunState, p: (string, string))
    requires Step(cfg, s).Goto? && cfg.maxIdenticalFailures.Some?
    requires Count(s.failures, p) < Limit(cfg.maxIdenticalFailures.value)
    ensures Count(Step(cfg, s).next.failures, p) < Limit(cfg.maxIdenticalFailures.value)
  {
    StepAdvances(cfg, s);
    RoutingKeepsBooks(cfg, s);
    AbortIffInCycle(cfg, s);
    hide Step;
    assert !InFailureCycle(cfg, Recorded(cfg, s), OutcomeOf(cfg, s));
  }

  // The run aborts at a node exactly when that node has now failed with the same error as often
  // as the limit since its last success; the reported count is then the limit itself.
  lemma AbortIsExact(cfg: Config, ts: seq<RunState>)
    requires IsTrail(cfg, ts) && AllExecutable(cfg, ts)
    requires cfg.maxIdenticalFailures.Some? && ts[0].failures == map[]
    ensures var s := ts[|ts| - 1];
            var o, m := OutcomeOf(cfg, s), Limit(cfg.maxIdenticalFailures.value);
            (Step(cfg, s).Fail? && Step(cfg, s).error.DeterministicFailureCycle?)
            <==> (o.Failure? && FailuresSince(Executions(cfg, ts), (s.current, o.error)) == m)
    ensures var s := ts[|ts| - 1];
            Step(cfg, s).Fail? && Step(cfg, s).error.DeterministicFailureCycle? ==>
              Step(cfg, s).error == DeterministicFailureCycle(s.current, OutcomeOf(cfg, s).error,
                                                              Limit(cfg.maxIdenticalFailures.value))
  {
    hide Step, FailuresSince, Executions;
    var s := ts[|ts| - 1];
    var o := OutcomeOf(cfg, s);
    CountsAreExact(cfg, ts);
    if o.Failure? {
      CountsStayBelow(cfg, ts, (s.current, o.error));
      assert Count(Recorded(cfg, s).failures, (s.current, o.error))
             == FailuresSince(Executions(cfg, ts), (s.current, o.error));
    }
    AbortIffInCycle(cfg, s);
  }

  lemma AbortIffInCycle(cfg: Config, s: RunState)
    requires Executable(cfg, s)
    ensures (Step(cfg, s).Fail? && Step(cfg, s).error.DeterministicFailureCycle?)
            <==> InFailureCycle(cfg, Recorded(cfg, s), OutcomeOf(cfg, s))
    ensures InFailureCycle(cfg, Recorded(cfg, s), OutcomeOf(cfg, s)) ==>
              Step(cfg, s).error == DeterministicFailureCycle(s.current, OutcomeOf(cfg, s).error,
                Count(Recorded(cfg, s).failures, (s.current, OutcomeOf(cfg, s).error)))
  {
  }

  // ----- Pigeonhole -----

  function Occurrences(es: seq<NodeRun>, p: (string, string)): nat {
    if es == [] then 0 else Occurrences(es[..|es| - 1], p) + if FailsWith(es[|es| - 1], p) then 1 else 0
  }

  function FailedSteps(es: seq<NodeRun>): nat {
    if es == [] then 0 else FailedSteps(es[..|es| - 1]) + if es[|es| - 1].outcome.Failure? then 1 else 0
  }

  function Drop(es: seq<NodeRun>, p: (string, string)): seq<NodeRun> {
    if es == [] then []
    else if FailsWith(es[|es| - 1], p) then Drop(es[..|es| - 1], p)
    else Drop(es[..|es| - 1], p) + [es[|es| - 1]]
  }

  lemma OneMoreRun(es: seq<NodeRun>, e: NodeRun, p: (string, string))
    ensures FailedSteps(es + [e]) == FailedSteps(es) + if e.outcome.Failure? then 1 else 0
    ensures Occurrences(es + [e], p) == Occurrences(es, p) + if FailsWith(e, p) then 1 else 0
  {
    assert (es + [e])[..|es|] == es;
  }

  lemma {:induction false} DropSplits(es: seq<NodeRun>, p: (string, string), q: (string, string))
    ensures FailedSteps(es) == Occurrences(es, p) + FailedSteps(Drop(es, p))
    ensures Occurrences(Drop(es, p), q) <= Occurrences(es, q)
  {
    if es != [] {
      var e, rest := es[|es| - 1], es[..|es| - 1];
      DropSplits(rest, p, q);
      OneMoreRun(Drop(rest, p), e, q);
    }
  }

  lemma {:induction false} DropMembers(es: seq<NodeRun>, p: (string, string))
    ensures forall e :: e in Drop(es, p) <==> e in es && !FailsWith(e, p)
  {
    if es != [] {
      assert es == es[..|es| - 1] + [es[|es| - 1]];
      DropMembers(es[..|es| - 1], p);
    }
  }

  lemma {:induction false} NoFailures(es: seq<NodeRun>)
    requires forall e :: e in es ==> !e.outcome.Failure?
    ensures FailedSteps(es) == 0
  {
    if es != [] {
      assert es == es[..|es| - 1] + [es[|es| - 1]];
      NoFailures(es[..|es| - 1]);
    }
  }

  lemma {:induction false} Pigeonhole(es: seq<NodeRun>, pairs: set<(string, string)>, b: nat)
    requires forall e :: e in es && e.outcome.Failure? ==> (e.node, e.outcome.error) in pairs
    requires forall p :: p in pairs ==> Occurrences(es, p) <= b
    ensures FailedSteps(es) <= |pairs| * b
    decreases |pairs|
  {
    if pairs == {} {
      NoFailures(es);
    } else {
      var p :| p in pairs;
      var fewer := pairs - {p};
      DropSplits(es, p, p);
      DropMembers(es, p);
      forall q | q in fewer ensures Occurrences(Drop(es, p), q) <= b {
        DropSplits(es, p, q);
      }
      Pigeonhole(Drop(es, p), fewer, b);
      assert |pairs| == |fewer| + 1;
      assert (|fewer| + 1) * b == |fewer| * b + b;
    }
  }

  // Without successes, failures accumulate.
  lemma {:induction false} StretchAccumulates(es: seq<NodeRun>, stretch: seq<NodeRun>, p: (string, string))
    requires forall e :: e in stretch ==> !e.outcome.IsSuccess()
    ensures FailuresSince(es + stretch, p) == FailuresSince(es, p) + Occurrences(stretch, p)
  {
    if stretch == [] {
      assert es + stretch == es;
    } else {
      var e, rest := stretch[|stretch| - 1], stretch[..|stretch| - 1];
      assert (es + stretch)[..|es + stretch| - 1] == es + rest;
      assert stretch == rest + [e];
      StretchAccumulates(es, rest, p);
    }
  }

  // A stretch of a run without any success, from step i on, in which only the failures in
  // `pairs` occur, has at most |pairs| * (limit - 1) failed steps.
  lemma FailedStepsBounded(cfg: Config, ts: seq<RunState>, i: nat, pairs: set<(string, string)>)
    requires IsTrail(cfg, ts) && i < |ts| && AllExecutable(cfg, ts[..|ts| - 1])
    requires cfg.maxIdenticalFailures.Some? && ts[0].failures == map[]
    requires var stretch := Executions(cfg, ts[..|ts| - 1])[i..];
             (forall e :: e in stretch ==> !e.outcome.IsSuccess())
             && (forall e :: e in stretch && e.outcome.Failure? ==> (e.node, e.outcome.error) in pairs)
    ensures FailedSteps(Executions(cfg, ts[..|ts| - 1])[i..])
            <= |pairs| * (Limit(cfg.maxIdenticalFailures.value) - 1)
  {
    hide Step, Recorded, FailuresSince, FailedSteps;
    var done := ts[..|ts| - 1];
    var es := Executions(cfg, done);
    var b := Limit(cfg.maxIdenticalFailures.value) - 1;
    forall p | p in pairs ensures Occurrences(es[i..], p) <= b {
      if done != [] {
        StretchAccumulates(es[..i], es[i..], p);
        assert es[..i] + es[i..] == es;
        CountsStayBelow(cfg, ts, p);
        CountsAreExact(cfg, done);
        RoutingKeepsBooks(cfg, done[|done| - 1]);
        assert Count(ts[|ts| - 1].failures, p) == FailuresSince(es, p);
      }
    }
    Pigeonhole(es[i..], pairs, b);
  }
}
