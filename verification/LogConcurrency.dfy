// Interleaved appends: an append first reserves a sequence number and later stores its entry.
module LogConcurrency {
  import opened LogSink

  // The counter, the entries reserved but not yet stored in order of reservation, the stored
  // entries, and an account of the numbers that retention has removed.
  datatype LogState = LogState(
    counter: nat, inFlight: seq<LogEntry>, entries: seq<LogEntry>, removed: multiset<nat>)

  datatype Action =
    | Reserve(event: PipelineEvent)
    | Store(index: nat)
    | Retain(policy: RetentionPolicy, now: int)

  const EMPTY := LogState(0, [], [], multiset{})

  predicate Enabled(s: LogState, a: Action) {
    a.Store? ==> a.index < |s.inFlight|
  }

  function Numbers(es: seq<LogEntry>): multiset<nat> {
    multiset(SequencesOf(es))
  }

  function Act(s: LogState, a: Action): LogState
    requires Enabled(s, a)
  {
    match a
    case Reserve(event) =>
      s.(counter := s.counter + 1, inFlight := s.inFlight + [LogEntry(s.counter, event)])
    case Store(i) =>
      s.(inFlight := s.inFlight[..i] + s.inFlight[i + 1..], entries := s.entries + [s.inFlight[i]])
    case Retain(policy, now) =>
      s.(entries := Retained(s.entries, policy, now),
         removed := s.removed + (Numbers(s.entries) - Numbers(Retained(s.entries, policy, now))))
  }

  // The state after a schedule of actions; disabled actions do nothing.
  function From(start: LogState, acts: seq<Action>): LogState {
    if acts == [] then start
    else
      var s := From(start, acts[..|acts| - 1]);
      if Enabled(s, acts[|acts| - 1]) then Act(s, acts[|acts| - 1]) else s
  }

  function After(acts: seq<Action>): LogState {
    From(EMPTY, acts)
  }

  // Every number below n, once.
  function Upto(n: nat): multiset<nat> {
    if n == 0 then multiset{} else Upto(n - 1) + multiset{n - 1}
  }

  lemma {:induction false} UptoCounts(n: nat, k: nat)
    ensures Upto(n)[k] == if k < n then 1 else 0
  {
    if n > 0 { UptoCounts(n - 1, k); }
  }

  // ----- Accounting -----

  lemma NumbersSnoc(es: seq<LogEntry>, e: LogEntry)
    ensures Numbers(es + [e]) == Numbers(es) + multiset{e.sequence}
  {
    assert SequencesOf(es + [e]) == SequencesOf(es) + [e.sequence];
  }

  lemma NumbersRemove(es: seq<LogEntry>, i: nat)
    requires i < |es|
    ensures Numbers(es) == Numbers(es[..i] + es[i + 1..]) + multiset{es[i].sequence}
  {
    assert SequencesOf(es) == SequencesOf(es[..i]) + ([es[i].sequence] + SequencesOf(es[i + 1..]));
    assert SequencesOf(es[..i] + es[i + 1..]) == SequencesOf(es[..i]) + SequencesOf(es[i + 1..]);
  }

  lemma {:induction false} NumbersOfSubsequence(sub: seq<LogEntry>, es: seq<LogEntry>)
    requires Subsequence(sub, es)
    ensures Numbers(sub) <= Numbers(es)
  {
    if sub == [] {
      assert SequencesOf(sub) == [];
    } else {
      assert SequencesOf(es) == [es[0].sequence] + SequencesOf(es[1..]);
      assert SequencesOf(sub) == [sub[0].sequence] + SequencesOf(sub[1..]);
      if sub[0] == es[0] && Subsequence(sub[1..], es[1..]) {
        NumbersOfSubsequence(sub[1..], es[1..]);
      } else {
        NumbersOfSubsequence(sub, es[1..]);
      }
    }
  }

  lemma NumbersOfRetained(es: seq<LogEntry>, policy: RetentionPolicy, now: int)
    ensures Numbers(Retained(es, policy, now)) <= Numbers(es)
  {
    var young, kept := AgeFiltered(es, policy, now), Retained(es, policy, now);
    RetentionKeepsNewest(es, policy, now);
    NumbersOfSubsequence(young, es);
    var d := |young| - |kept|;
    assert SequencesOf(young) == SequencesOf(young[..d]) + SequencesOf(kept);
  }

  ghost predicate Accounted(s: LogState) {
    Numbers(s.entries) + Numbers(s.inFlight) + s.removed == Upto(s.counter)
  }

  lemma ActKeepsAccount(s: LogState, a: Action)
    requires Enabled(s, a) && Accounted(s)
    ensures Accounted(Act(s, a))
  {
    hide Numbers, Retained;
    match a
    case Reserve(event) => NumbersSnoc(s.inFlight, LogEntry(s.counter, event));
    case Store(i) =>
      NumbersSnoc(s.entries, s.inFlight[i]);
      NumbersRemove(s.inFlight, i);
    case Retain(policy, now) => NumbersOfRetained(s.entries, policy, now);
  }

  lemma {:induction false} AccountedFrom(start: LogState, acts: seq<Action>)
    requires Accounted(start)
    ensures Accounted(From(start, acts))
    decreases |acts|
  {
    if acts != [] {
      AccountedFrom(start, acts[..|acts| - 1]);
      var s, a := From(start, acts[..|acts| - 1]), acts[|acts| - 1];
      if Enabled(s, a) { ActKeepsAccount(s, a); }
    }
  }

  // Under every interleaving, the stored, the in-flight and the removed numbers together are
  // exactly 0 to counter - 1, each once.
  lemma AlwaysAccounted(acts: seq<Action>)
    ensures Accounted(After(acts))
  {
    assert SequencesOf([]) == [];
    AccountedFrom(EMPTY, acts);
  }

  lemma {:induction false} NothingRemoved(start: LogState, acts: seq<Action>)
    requires NoRetention(acts)
    ensures From(start, acts).removed == start.removed
    decreases |acts|
  {
    if acts != [] {
      assert acts == acts[..|acts| - 1] + [acts[|acts| - 1]];
      NothingRemoved(start, acts[..|acts| - 1]);
    }
  }

  ghost predicate NoRetention(acts: seq<Action>) {
    forall a :: a in acts ==> !a.Retain?
  }

  // Hence no two entries ever share a sequence number.
  lemma NumbersAreUnique(acts: seq<Action>, k: nat)
    ensures var s := After(acts); (Numbers(s.entries) + Numbers(s.inFlight))[k] <= 1
  {
    AlwaysAccounted(acts);
    UptoCounts(After(acts).counter, k);
  }

  // ----- Order -----

  ghost predicate Ascending(es: seq<LogEntry>) {
    forall i, j :: 0 <= i < j < |es| ==> es[i].sequence < es[j].sequence
  }

  ghost predicate OldestFirst(acts: seq<Action>) {
    if acts == [] then true
    else
      OldestFirst(acts[..|acts| - 1]) &&
      (acts[|acts| - 1].Store? && Enabled(After(acts[..|acts| - 1]), acts[|acts| - 1]) ==> acts[|acts| - 1].index == 0)
  }

  ghost predicate Reserved(s: LogState) {
    Ascending(s.inFlight)
    && (forall e :: e in s.inFlight ==> e.sequence < s.counter)
    && (forall e :: e in s.entries ==> e.sequence < s.counter)
  }

  lemma {:induction false} AlwaysReserved(acts: seq<Action>)
    requires NoRetention(acts)
    ensures Reserved(After(acts))
    decreases |acts|
  {
    if acts != [] {
      assert acts == acts[..|acts| - 1] + [acts[|acts| - 1]];
      AlwaysReserved(acts[..|acts| - 1]);
      var s, a := After(acts[..|acts| - 1]), acts[|acts| - 1];
      if Enabled(s, a) { ActKeepsReserved(s, a); }
    }
  }

  lemma ActKeepsReserved(s: LogState, a: Action)
    requires Enabled(s, a) && Reserved(s) && !a.Retain?
    ensures Reserved(Act(s, a))
  {
    var t := Act(s, a);
    if a.Store? {
      var i := a.index;
      assert forall e :: e in t.inFlight ==> e in s.inFlight;
      assert s.inFlight[i] in s.inFlight;
      forall j, k | 0 <= j < k < |t.inFlight| ensures t.inFlight[j].sequence < t.inFlight[k].sequence {
        assert t.inFlight[j] == s.inFlight[if j < i then j else j + 1];
        assert t.inFlight[k] == s.inFlight[if k < i then k else k + 1];
      }
    } else {
      forall j | 0 <= j < |s.inFlight| ensures s.inFlight[j].sequence < s.counter {
        assert s.inFlight[j] in s.inFlight;
      }
    }
  }

  // Storing the oldest keeps the order of stored and in-flight entries; storing a younger one
  // breaks it.
  lemma StoreOrder(s: LogState, i: nat)
    requires i < |s.inFlight| && Reserved(s)
    ensures Ascending(Act(s, Store(i)).entries + Act(s, Store(i)).inFlight)
            <==> Ascending(s.entries + s.inFlight) && i == 0
  {
    var before, t := s.entries + s.inFlight, Act(s, Store(i));
    var after := t.entries + t.inFlight;
    var n := |s.entries|;
    assert after[n] == s.inFlight[i];
    if i == 0 {
      assert after == before;
    } else {
      assert after[n + 1] == s.inFlight[0];
      assert s.inFlight[0].sequence < s.inFlight[i].sequence;
    }
  }

  lemma ReserveOrder(s: LogState, event: PipelineEvent)
    requires Reserved(s)
    ensures var t := Act(s, Reserve(event));
            Ascending(t.entries + t.inFlight) <==> Ascending(s.entries + s.inFlight)
  {
    var before, t := s.entries + s.inFlight, Act(s, Reserve(event));
    assert t.entries + t.inFlight == before + [LogEntry(s.counter, event)];
    forall j | 0 <= j < |before| ensures before[j].sequence < s.counter {
      if j < |s.entries| { assert s.entries[j] in s.entries; }
      else { assert s.inFlight[j - |s.entries|] in s.inFlight; }
    }
    if Ascending(before + [LogEntry(s.counter, event)]) {
      forall i, j | 0 <= i < j < |before| ensures before[i].sequence < before[j].sequence {
        assert (before + [LogEntry(s.counter, event)])[i] == before[i];
        assert (before + [LogEntry(s.counter, event)])[j] == before[j];
      }
    }
  }

  lemma EmptyAscends()
    ensures Ascending([] + [])
  {
  }

  // Without retention the log is in sequence order, counting what is still in flight, exactly
  // when every store took the oldest reservation.
  lemma {:induction false} OrderedIffOldestFirst(acts: seq<Action>)
    requires NoRetention(acts)
    ensures Ascending(After(acts).entries + After(acts).inFlight) <==> OldestFirst(acts)
    decreases |acts|
  {
    hide Ascending, Reserved, Act;
    if acts == [] {
      assert Ascending([] + []) by { EmptyAscends(); }
    } else {
      var before, a := acts[..|acts| - 1], acts[|acts| - 1];
      assert acts == before + [a];
      OrderedIffOldestFirst(before);
      AlwaysReserved(before);
      var s := After(before);
      if Enabled(s, a) {
        match a
        case Reserve(event) => ReserveOrder(s, event);
        case Store(i) => StoreOrder(s, i);
      }
    }
  }

  // ----- Restarting a file sink -----

  function NumberSet(es: seq<LogEntry>): set<nat> {
    set e | e in es :: e.sequence
  }

  function Range(n: nat): set<nat> {
    if n == 0 then {} else Range(n - 1) + {n - 1}
  }

  lemma {:induction false} RangeSize(n: nat)
    ensures |Range(n)| == n
    ensures forall k: nat :: k in Range(n) <==> k < n
  {
    if n > 0 { RangeSize(n - 1); }
  }

  lemma SubsetSize(a: set<nat>, b: set<nat>)
    requires a <= b
    ensures |a| <= |b|
    ensures |a| == |b| ==> a == b
  {
    assert b == a + (b - a);
  }

  lemma {:induction false} DistinctSize(es: seq<LogEntry>)
    requires forall k :: Numbers(es)[k] <= 1
    ensures |NumberSet(es)| == |es|
    ensures forall k :: k in NumberSet(es) <==> Numbers(es)[k] >= 1
  {
    if es == [] {
      assert SequencesOf(es) == [];
    } else {
      var before, e := es[..|es| - 1], es[|es| - 1];
      assert es == before + [e];
      NumbersSnoc(before, e);
      forall k ensures Numbers(before)[k] <= 1 {
        assert Numbers(es)[k] <= 1;
      }
      DistinctSize(before);
      assert Numbers(es)[e.sequence] <= 1;
      assert NumberSet(es) == NumberSet(before) + {e.sequence};
    }
  }

  // All stored numbers are below the number of stored entries, which is where a restarted sink
  // goes on.
  ghost predicate Fresh(s: LogState) {
    forall e :: e in s.entries ==> e.sequence < |s.entries|
  }

  // Everything stored is older than everything in flight.
  ghost predicate NothingOvertaken(s: LogState) {
    forall e, g :: e in s.entries && g in s.inFlight ==> e.sequence < g.sequence
  }

  // The stored numbers are exactly the first ones, each once.
  ghost predicate GapFree(es: seq<LogEntry>) {
    Numbers(es) == Upto(|es|)
  }

  // A restarted sink counts the stored lines and goes on from there.
  function Restarted(es: seq<LogEntry>): LogState {
    LogState(|es|, [], es, multiset{})
  }

  // If the process dies with reservations in flight, the next numbers of a restarted sink are
  // unused exactly when everything stored is older than everything lost; and then there is no gap.
  lemma RestartIsFreshIff(stored: seq<LogEntry>, acts: seq<Action>)
    requires GapFree(stored) && NoRetention(acts)
    ensures var s := From(Restarted(stored), acts);
            (Fresh(s) <==> NothingOvertaken(s)) && (Fresh(s) ==> GapFree(s.entries))
  {
    assert SequencesOf([]) == [];
    AccountedFrom(Restarted(stored), acts);
    NothingRemoved(Restarted(stored), acts);
    var s := From(Restarted(stored), acts);
    assert Numbers(s.entries) + Numbers(s.inFlight) == Upto(s.counter);
    AccountedFresh(s);
  }

  lemma AccountedFresh(s: LogState)
    requires Numbers(s.entries) + Numbers(s.inFlight) == Upto(s.counter)
    ensures (Fresh(s) <==> NothingOvertaken(s)) && (Fresh(s) ==> GapFree(s.entries))
  {
    hide Numbers;
    forall k: nat ensures Numbers(s.entries)[k] + Numbers(s.inFlight)[k] == if k < s.counter then 1 else 0 {
      UptoCounts(s.counter, k);
      assert Upto(s.counter)[k] == Numbers(s.entries)[k] + Numbers(s.inFlight)[k];
    }
    DistinctSize(s.entries);
    DistinctSize(s.inFlight);
    FreshIff(s);
    if Fresh(s) { FreshIsGapFree(s.entries); }
  }

  lemma FreshIsGapFree(es: seq<LogEntry>)
    requires forall k :: Numbers(es)[k] <= 1
    requires forall e :: e in es ==> e.sequence < |es|
    ensures GapFree(es)
  {
    hide Numbers;
    DistinctSize(es);
    RangeSize(|es|);
    SubsetSize(NumberSet(es), Range(|es|));
    forall k: nat ensures Numbers(es)[k] == Upto(|es|)[k] {
      UptoCounts(|es|, k);
      assert k in NumberSet(es) <==> k in Range(|es|);
    }
  }

  // A file sink over several processes: each starts from what the one before it has stored.
  function Lives(runs: seq<seq<Action>>): LogState {
    if runs == [] then EMPTY
    else From(Restarted(Lives(runs[..|runs| - 1]).entries), runs[|runs| - 1])
  }

  // Every process but the last has left the next one a fresh start, and the last one does so too.
  ghost predicate AlwaysFresh(runs: seq<seq<Action>>) {
    runs != [] ==> AlwaysFresh(runs[..|runs| - 1]) && Fresh(Lives(runs))
  }

  // No process has died with something stored that is younger than something lost.
  ghost predicate NeverOvertaken(runs: seq<seq<Action>>) {
    runs != [] ==> NeverOvertaken(runs[..|runs| - 1]) && NothingOvertaken(Lives(runs))
  }

  // Every restart goes on above all stored numbers exactly when no process died with something
  // stored that is younger than something lost; and then the log has every number once.
  lemma {:induction false} RestartsAreFreshIff(runs: seq<seq<Action>>)
    requires forall acts :: acts in runs ==> NoRetention(acts)
    ensures AlwaysFresh(runs) <==> NeverOvertaken(runs)
    ensures AlwaysFresh(runs) ==> GapFree(Lives(runs).entries)
    decreases |runs|
  {
    if runs == [] {
      EmptyIsGapFree();
    } else {
      hide Fresh, NothingOvertaken, GapFree, From;
      var before := runs[..|runs| - 1];
      RestartsAreFreshIff(before);
      if GapFree(Lives(before).entries) { RestartIsFreshIff(Lives(before).entries, runs[|runs| - 1]); }
    }
  }

  lemma EmptyIsGapFree()
    ensures GapFree([])
  {
    assert SequencesOf([]) == [];
  }

  lemma FreshIff(s: LogState)
    requires |NumberSet(s.entries)| == |s.entries|
    requires forall k: nat :: k in NumberSet(s.entries) <==> k < s.counter && k !in NumberSet(s.inFlight)
    ensures (forall e :: e in s.entries ==> e.sequence < |s.entries|) <==>
            (forall e, g :: e in s.entries && g in s.inFlight ==> e.sequence < g.sequence)
  {
    var stored, lost := NumberSet(s.entries), NumberSet(s.inFlight);
    RangeSize(|s.entries|);
    if forall e :: e in s.entries ==> e.sequence < |s.entries| {
      SubsetSize(stored, Range(|s.entries|));
      forall e, g | e in s.entries && g in s.inFlight ensures e.sequence < g.sequence {
        assert g.sequence in lost && g.sequence !in stored;
      }
    }
    if forall e, g :: e in s.entries && g in s.inFlight ==> e.sequence < g.sequence {
      forall e | e in s.entries ensures e.sequence < |s.entries| {
        OlderThanLost(s, e);
      }
    }
  }

  // Everything numbered up to a stored entry that is older than all lost ones is stored.
  lemma OlderThanLost(s: LogState, e: LogEntry)
    requires |NumberSet(s.entries)| == |s.entries| && e in s.entries
    requires forall k: nat :: k in NumberSet(s.entries) <==> k < s.counter && k !in NumberSet(s.inFlight)
    requires forall g :: g in s.inFlight ==> e.sequence < g.sequence
    ensures e.sequence < |s.entries|
  {
    assert e.sequence in NumberSet(s.entries);
    RangeSize(e.sequence + 1);
    SubsetSize(Range(e.sequence + 1), NumberSet(s.entries));
  }

  // Two overlapping appends can be stored in the other order; a crash before the first store
  // then makes the restarted sink repeat a number.
  lemma OvertakingRepeatsANumber(event: PipelineEvent)
    ensures var s := After([Reserve(event), Reserve(event), Store(1)]);
            s.entries == [LogEntry(1, event)] && s.inFlight == [LogEntry(0, event)]
            && |s.entries| == s.entries[0].sequence
  {
    var acts := [Reserve(event), Reserve(event), Store(1)];
    assert acts[..2] == [Reserve(event), Reserve(event)] && acts[..2][..1] == [Reserve(event)];
    assert acts[..2][..1][..0] == [];
    assert From(EMPTY, []) == EMPTY;
    assert From(EMPTY, acts[..2][..1]) == LogState(1, [LogEntry(0, event)], [], multiset{});
    assert From(EMPTY, acts[..2]).inFlight == [LogEntry(0, event), LogEntry(1, event)];
  }
}
