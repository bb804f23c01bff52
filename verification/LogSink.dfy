// Sequenced log entries: filters, the index, retention, and the two query forms.
module LogSink {
  import opened Wrappers
  import opened Filters

  datatype Kind =
    | NodeStarted | NodeCompleted | NodeFailed | EdgeTraversed | HumanPromptIssued
    | HumanResponseReceived | ContextUpdated | CheckpointCreated | PipelineStarted
    | PipelineCompleted | PipelineAborted | LoopRestarted | AgentToolCallStarted
    | AgentToolCallCompleted | AgentMessage | AgentTurnStarted | AgentTokenUsage

  // A pipeline event: its variant, the identifier that node-level variants carry, its timestamp,
  // and the rest of its payload as text.
  datatype PipelineEvent = PipelineEvent(kind: Kind, node: string, timestamp: int, payload: string)
  {
    function NodeId(): Option<string> {
      match kind
      case NodeStarted | NodeCompleted | NodeFailed | HumanPromptIssued | HumanResponseReceived
        | CheckpointCreated | AgentToolCallStarted | AgentToolCallCompleted | AgentMessage
        | AgentTurnStarted | AgentTokenUsage => Some(node)
      case _ => None
    }
  }

  function KindText(k: Kind): string {
    match k
    case NodeStarted => "node_started"
    case NodeCompleted => "node_completed"
    case NodeFailed => "node_failed"
    case EdgeTraversed => "edge_traversed"
    case HumanPromptIssued => "human_prompt_issued"
    case HumanResponseReceived => "human_response_received"
    case ContextUpdated => "context_updated"
    case CheckpointCreated => "checkpoint_created"
    case PipelineStarted => "pipeline_started"
    case PipelineCompleted => "pipeline_completed"
    case PipelineAborted => "pipeline_aborted"
    case LoopRestarted => "loop_restarted"
    case AgentToolCallStarted => "agent_tool_call_started"
    case AgentToolCallCompleted => "agent_tool_call_completed"
    case AgentMessage => "agent_message"
    case AgentTurnStarted => "agent_turn_started"
    case AgentTokenUsage => "agent_token_usage"
  }

  // Reading a kind back from the tag that the serializer writes.
  function KindOf(tag: string): Option<Kind> {
    match tag
    case "node_started" => Some(NodeStarted)
    case "node_completed" => Some(NodeCompleted)
    case "node_failed" => Some(NodeFailed)
    case "edge_traversed" => Some(EdgeTraversed)
    case "human_prompt_issued" => Some(HumanPromptIssued)
    case "human_response_received" => Some(HumanResponseReceived)
    case "context_updated" => Some(ContextUpdated)
    case "checkpoint_created" => Some(CheckpointCreated)
    case "pipeline_started" => Some(PipelineStarted)
    case "pipeline_completed" => Some(PipelineCompleted)
    case "pipeline_aborted" => Some(PipelineAborted)
    case "loop_restarted" => Some(LoopRestarted)
    case "agent_tool_call_started" => Some(AgentToolCallStarted)
    case "agent_tool_call_completed" => Some(AgentToolCallCompleted)
    case "agent_message" => Some(AgentMessage)
    case "agent_turn_started" => Some(AgentTurnStarted)
    case "agent_token_usage" => Some(AgentTokenUsage)
    case _ => None
  }

  lemma KindRoundTrip(k: Kind, tag: string)
    ensures KindOf(tag) == Some(k) <==> tag == KindText(k)
  {
  }

  datatype LogEntry = LogEntry(sequence: nat, event: PipelineEvent)

  datatype LogFilter = LogFilter(
    nodeId: Option<string>, eventKinds: Option<seq<string>>, since: Option<int>, until: Option<int>,
    limit: Option<nat>)

  predicate Matches(f: LogFilter, e: LogEntry) {
    (f.nodeId.Some? ==> e.event.NodeId() == f.nodeId)
    && (f.eventKinds.Some? ==> KindText(e.event.kind) in f.eventKinds.value)
    && (f.since.Some? ==> e.event.timestamp >= f.since.value)
    && (f.until.Some? ==> e.event.timestamp <= f.until.value)
  }

  // ----- The simple forms -----

  // All matching entries, in order.
  function Matching(es: seq<LogEntry>, f: LogFilter): seq<LogEntry> {
    if es == [] then []
    else if Matches(f, es[0]) then [es[0]] + Matching(es[1..], f)
    else Matching(es[1..], f)
  }

  function Truncate(es: seq<LogEntry>, n: nat): seq<LogEntry> {
    if |es| <= n then es else es[..n]
  }

  // Filter, then truncate.
  function Query(es: seq<LogEntry>, f: LogFilter): seq<LogEntry> {
    if f.limit.Some? then Truncate(Matching(es, f), f.limit.value) else Matching(es, f)
  }

  lemma {:induction false} MatchingAppend(a: seq<LogEntry>, b: seq<LogEntry>, f: LogFilter)
    ensures Matching(a + b, f) == Matching(a, f) + Matching(b, f)
  {
    if a == [] {
      assert a + b == b;
    } else {
      assert (a + b)[1..] == a[1..] + b;
      MatchingAppend(a[1..], b, f);
    }
  }

  // What a filter asks for: the node of a node-level event, one of the kinds, and a time from `since`
  // to `until`, both included.
  ghost predicate Wanted(f: LogFilter, e: LogEntry) {
    (f.nodeId.Some? ==> !PipelineLevel(e.event.kind) && e.event.node == f.nodeId.value)
    && (f.eventKinds.Some? ==> exists tag :: tag in f.eventKinds.value && KindOf(tag) == Some(e.event.kind))
    && (f.since.Some? ==> f.since.value <= e.event.timestamp)
    && (f.until.Some? ==> e.event.timestamp <= f.until.value)
  }

  // The events that name no node, or two.
  predicate PipelineLevel(k: Kind) {
    k in {EdgeTraversed, ContextUpdated, PipelineStarted, PipelineCompleted, PipelineAborted, LoopRestarted}
  }

  // An unlimited query returns exactly the wanted entries, each once and in order; a limit keeps the
  // first of them.
  lemma QueryPositions(es: seq<LogEntry>, f: LogFilter) returns (at: seq<nat>)
    ensures Picks(es, Query(es, f.(limit := None)), at)
    ensures forall i :: 0 <= i < |es| ==> (i in at <==> Wanted(f, es[i]))
    ensures Query(es, f) <= Query(es, f.(limit := None))
    ensures f.limit.Some? ==>
              |Query(es, f)| == if f.limit.value < |at| then f.limit.value else |at|
  {
    var p := (e: LogEntry) => Matches(f, e);
    at := FilterPositions(es, p);
    MatchingFilter(es, f, p);
    MatchingFilter(es, f.(limit := None), p);
    forall i | 0 <= i < |es| ensures p(es[i]) <==> Wanted(f, es[i]) {
      MatchesIffWanted(f, es[i]);
    }
  }

  lemma MatchesIffWanted(f: LogFilter, e: LogEntry)
    ensures Matches(f, e) <==> Wanted(f, e)
  {
    hide KindText, KindOf;
    KindRoundTrip(e.event.kind, KindText(e.event.kind));
    if f.eventKinds.Some? {
      forall tag | tag in f.eventKinds.value
        ensures KindOf(tag) == Some(e.event.kind) <==> tag == KindText(e.event.kind)
      {
        KindRoundTrip(e.event.kind, tag);
      }
    }
  }

  lemma {:induction false} MatchingFilter(es: seq<LogEntry>, f: LogFilter, p: LogEntry -> bool)
    requires forall e :: p(e) <==> Matches(f, e)
    ensures Matching(es, f) == Filter(es, p)
  {
    if es != [] { MatchingFilter(es[1..], f, p); }
  }

  // ----- The index -----

  // The sequence numbers of the entries of one node, or of one kind, by scanning.
  function ScanNode(es: seq<LogEntry>, node: string): seq<nat> {
    if es == [] then []
    else ScanNode(es[..|es| - 1], node) +
         if es[|es| - 1].event.NodeId() == Some(node) then [es[|es| - 1].sequence] else []
  }

  function ScanKind(es: seq<LogEntry>, kind: string): seq<nat> {
    if es == [] then []
    else ScanKind(es[..|es| - 1], kind) +
         if KindText(es[|es| - 1].event.kind) == kind then [es[|es| - 1].sequence] else []
  }

  function Lookup(m: map<string, seq<nat>>, key: string): seq<nat> {
    if key in m then m[key] else []
  }

  datatype LogIndex = LogIndex(byNode: map<string, seq<nat>>, byKind: map<string, seq<nat>>)
  {
    function SequencesForNode(node: string): seq<nat> {
      Lookup(byNode, node)
    }

    function SequencesForKind(kind: string): seq<nat> {
      Lookup(byKind, kind)
    }
  }

  lemma ScanEmpty()
    ensures forall key :: ScanNode([], key) == [] && ScanKind([], key) == []
  {
  }

  lemma ScanSnoc(es: seq<LogEntry>, e: LogEntry)
    ensures forall key :: ScanNode(es + [e], key) ==
              ScanNode(es, key) + if e.event.NodeId() == Some(key) then [e.sequence] else []
    ensures forall key :: ScanKind(es + [e], key) ==
              ScanKind(es, key) + if KindText(e.event.kind) == key then [e.sequence] else []
  {
    hide KindText, PipelineEvent.NodeId;
    assert (es + [e])[..|es + [e]| - 1] == es;
  }

  // The index lists exactly what a scan finds, in order.
  method BuildIndex(entries: seq<LogEntry>) returns (index: LogIndex)
    ensures forall node :: index.SequencesForNode(node) == ScanNode(entries, node)
    ensures forall kind :: index.SequencesForKind(kind) == ScanKind(entries, kind)
  {
    hide KindText, PipelineEvent.NodeId, ScanNode, ScanKind;
    ScanEmpty();
    var byNode: map<string, seq<nat>>, byKind: map<string, seq<nat>> := map[], map[];
    for i := 0 to |entries|
      invariant forall node :: Lookup(byNode, node) == ScanNode(entries[..i], node)
      invariant forall kind :: Lookup(byKind, kind) == ScanKind(entries[..i], kind)
    {
      var entry := entries[i];
      assert entries[..i + 1] == entries[..i] + [entry];
      ScanSnoc(entries[..i], entry);
      var nodeId := entry.event.NodeId();
      if nodeId.Some? {
        byNode := byNode[nodeId.value := Lookup(byNode, nodeId.value) + [entry.sequence]];
      }
      var kind := KindText(entry.event.kind);
      byKind := byKind[kind := Lookup(byKind, kind) + [entry.sequence]];
    }
    assert entries[..|entries|] == entries;
    return LogIndex(byNode, byKind);
  }

  function SequencesOf(es: seq<LogEntry>): seq<nat> {
    seq(|es|, i requires 0 <= i < |es| => es[i].sequence)
  }

  function NodeFilter(node: string): LogFilter {
    LogFilter(Some(node), None, None, None, None)
  }

  function KindFilter(kind: string): LogFilter {
    LogFilter(None, Some([kind]), None, None, None)
  }

  // A scan for a node, or for a kind, is the unlimited query with that one predicate.
  lemma {:induction false} ScanIsQuery(es: seq<LogEntry>, key: string)
    ensures ScanNode(es, key) == SequencesOf(Query(es, NodeFilter(key)))
    ensures ScanKind(es, key) == SequencesOf(Query(es, KindFilter(key)))
  {
    if es != [] {
      var before, e := es[..|es| - 1], es[|es| - 1];
      assert es == before + [e];
      ScanIsQuery(before, key);
      MatchingAppend(before, [e], NodeFilter(key));
      MatchingAppend(before, [e], KindFilter(key));
      assert [e][1..] == [];
    }
  }

  // ----- The file query -----

  // A line of the log file: empty, an entry, or something that does not parse.
  datatype Line = Blank | Entry(entry: LogEntry) | Malformed

  datatype LogSinkError = Serialization

  function EntriesOf(lines: seq<Line>): seq<LogEntry> {
    if lines == [] then []
    else if lines[0].Entry? then [lines[0].entry] + EntriesOf(lines[1..])
    else EntriesOf(lines[1..])
  }

  predicate WellFormed(lines: seq<Line>) {
    forall l :: l in lines ==> !l.Malformed?
  }

  // The limit as the file query observes it: it stops after a match, so 0 acts as 1.
  function Observed(f: LogFilter): LogFilter {
    if f.limit == Some(0) then f.(limit := Some(1)) else f
  }

  predicate Full(results: seq<LogEntry>, f: LogFilter) {
    f.limit.Some? && results != [] && |results| >= f.limit.value
  }

  // Reading line by line, with the results so far.
  function ReadLines(lines: seq<Line>, f: LogFilter, results: seq<LogEntry>): Result<seq<LogEntry>, LogSinkError>
    decreases |lines|
  {
    if lines == [] then Ok(results)
    else match lines[0]
      case Blank => ReadLines(lines[1..], f, results)
      case Malformed => Err(Serialization)
      case Entry(e) =>
        if !Matches(f, e) then ReadLines(lines[1..], f, results)
        else if f.limit.Some? && |results| + 1 >= f.limit.value then Ok(results + [e])
        else ReadLines(lines[1..], f, results + [e])
  }

  method QueryFile(lines: seq<Line>, filter: LogFilter) returns (r: Result<seq<LogEntry>, LogSinkError>)
    ensures r == ReadLines(lines, filter, [])
  {
    var results := [];
    for i := 0 to |lines|
      invariant ReadLines(lines, filter, []) == ReadLines(lines[i..], filter, results)
    {
      var line := lines[i];
      assert lines[i..][1..] == lines[i + 1..];
      if line.Blank? { continue; }
      if line.Malformed? { return Err(Serialization); }
      if Matches(filter, line.entry) {
        results := results + [line.entry];
        if filter.limit.Some? && |results| >= filter.limit.value { return Ok(results); }
      }
    }
    return Ok(results);
  }

  function Cut(es: seq<LogEntry>, f: LogFilter): seq<LogEntry> {
    if f.limit.Some? then Truncate(es, f.limit.value) else es
  }

  // On a well-formed log, stopping early is filtering and then truncating.
  lemma {:induction false} ReadingIsQuerying(lines: seq<Line>, f: LogFilter, results: seq<LogEntry>)
    requires WellFormed(lines) && !Full(results, f)
    ensures ReadLines(lines, f, results) == Ok(Cut(results + Matching(EntriesOf(lines), f), Observed(f)))
    decreases |lines|
  {
    if lines == [] {
      assert results + [] == results;
    } else {
      var rest := lines[1..];
      assert forall l :: l in rest ==> l in lines;
      assert lines[0] in lines;
      if lines[0].Entry? && Matches(f, lines[0].entry) {
        var e := lines[0].entry;
        assert ([e] + EntriesOf(rest))[1..] == EntriesOf(rest);
        var more := Matching(EntriesOf(rest), f);
        assert Matching(EntriesOf(lines), f) == [e] + more;
        assert results + ([e] + more) == (results + [e]) + more;
        if f.limit.Some? && |results| + 1 >= f.limit.value {
          assert |results| + 1 == Observed(f).limit.value;
          assert ((results + [e]) + more)[..|results| + 1] == results + [e];
          assert more == [] ==> (results + [e]) + more == results + [e];
        } else {
          ReadingIsQuerying(rest, f, results + [e]);
        }
      } else {
        if lines[0].Entry? { assert ([lines[0].entry] + EntriesOf(rest))[1..] == EntriesOf(rest); }
        ReadingIsQuerying(rest, f, results);
      }
    }
  }

  // A malformed line at position n that reading reaches.
  ghost predicate ReachesMalformed(lines: seq<Line>, f: LogFilter, results: seq<LogEntry>, n: int) {
    0 <= n < |lines| && lines[n].Malformed? && WellFormed(lines[..n])
    && !Full(results + Matching(EntriesOf(lines[..n]), f), f)
  }

  // Reading fails exactly when the first malformed line comes before the limit is met.
  lemma {:induction false} ReadingFails(lines: seq<Line>, f: LogFilter, results: seq<LogEntry>)
    requires !Full(results, f)
    ensures ReadLines(lines, f, results).Err? <==> exists n :: ReachesMalformed(lines, f, results, n)
    decreases |lines|
  {
    if n :| 0 <= n < |lines| && lines[n].Malformed? && WellFormed(lines[..n]) {
      ReadingPrefix(lines, f, results, n);
      assert ReachesMalformed(lines, f, results, n) <==> ReadLines(lines, f, results).Err?;
      forall m | ReachesMalformed(lines, f, results, m) ensures m == n {
        WellFormedBefore(lines, n);
        WellFormedBefore(lines, m);
      }
    } else {
      NoMalformed(lines);
      ReadingIsQuerying(lines, f, results);
    }
  }

  lemma WellFormedBefore(lines: seq<Line>, n: nat)
    requires n <= |lines| && WellFormed(lines[..n])
    ensures forall i :: 0 <= i < n ==> !lines[i].Malformed?
  {
    forall i | 0 <= i < n ensures !lines[i].Malformed? {
      assert lines[i] in lines[..n];
    }
  }

  lemma {:induction false} NoMalformed(lines: seq<Line>)
    requires forall n :: 0 <= n < |lines| && lines[n].Malformed? ==> !WellFormed(lines[..n])
    ensures WellFormed(lines)
    decreases |lines|
  {
    if lines != [] {
      var before := lines[..|lines| - 1];
      forall n | 0 <= n < |before| && before[n].Malformed? ensures !WellFormed(before[..n]) {
        assert before[..n] == lines[..n];
      }
      NoMalformed(before);
      assert lines == before + [lines[|lines| - 1]];
    }
  }

  // Up to the first malformed line, only the limit decides.
  lemma {:induction false} ReadingPrefix(lines: seq<Line>, f: LogFilter, results: seq<LogEntry>, n: nat)
    requires n < |lines| && lines[n].Malformed? && WellFormed(lines[..n]) && !Full(results, f)
    ensures ReadLines(lines, f, results).Err? <==> !Full(results + Matching(EntriesOf(lines[..n]), f), f)
    decreases n
  {
    if n == 0 {
      assert lines[..0] == [] && results + [] == results;
    } else {
      var before, rest := lines[..n], lines[1..];
      assert before[0] in before && before[1..] == rest[..n - 1];
      assert forall l :: l in before[1..] ==> l in before;
      if lines[0].Entry? { assert ([lines[0].entry] + EntriesOf(before[1..]))[1..] == EntriesOf(before[1..]); }
      if lines[0].Entry? && Matches(f, lines[0].entry) {
        var e, more := lines[0].entry, Matching(EntriesOf(before[1..]), f);
        assert results + ([e] + more) == (results + [e]) + more;
        if !(f.limit.Some? && |results| + 1 >= f.limit.value) {
          ReadingPrefix(rest, f, results + [e], n - 1);
        }
      } else {
        ReadingPrefix(rest, f, results, n - 1);
      }
    }
  }

  // The early-exit file query, in one statement: on a well-formed log it is filter-then-truncate
  // with a limit of 0 read as 1; in general it fails exactly when it meets a malformed line first.
  lemma FileQueryCorrect(lines: seq<Line>, f: LogFilter)
    ensures WellFormed(lines) ==> ReadLines(lines, f, []) == Ok(Query(EntriesOf(lines), Observed(f)))
    ensures ReadLines(lines, f, []).Err? <==> exists n :: ReachesMalformed(lines, f, [], n)
  {
    ReadingFails(lines, f, []);
    if WellFormed(lines) {
      ReadingIsQuerying(lines, f, []);
      SameMatching(EntriesOf(lines), f);
      assert [] + Matching(EntriesOf(lines), f) == Matching(EntriesOf(lines), f);
    }
  }

  lemma {:induction false} SameMatching(es: seq<LogEntry>, f: LogFilter)
    ensures Matching(es, Observed(f)) == Matching(es, f)
  {
    if es != [] { SameMatching(es[1..], f); }
  }

  // On a well-formed log the file query answers as the in-memory query would exactly when the limit
  // is not 0 or nothing matches.
  lemma QueryFormsAgree(lines: seq<Line>, f: LogFilter)
    requires WellFormed(lines)
    ensures ReadLines(lines, f, []) == Ok(Query(EntriesOf(lines), f))
            <==> f.limit != Some(0) || Matching(EntriesOf(lines), f) == []
  {
    FileQueryCorrect(lines, f);
    SameMatching(EntriesOf(lines), f);
  }

  // ----- The in-memory sink -----

  datatype RetentionPolicy = RetentionPolicy(maxEntries: Option<nat>, maxAge: Option<nat>)

  // The entries with a timestamp at or after the cutoff, in order.
  function YoungEnough(es: seq<LogEntry>, cutoff: int): seq<LogEntry> {
    if es == [] then []
    else if es[0].event.timestamp >= cutoff then [es[0]] + YoungEnough(es[1..], cutoff)
    else YoungEnough(es[1..], cutoff)
  }

  function AgeFiltered(es: seq<LogEntry>, policy: RetentionPolicy, now: int): seq<LogEntry> {
    if policy.maxAge.Some? then YoungEnough(es, now - policy.maxAge.value) else es
  }

  function Retained(es: seq<LogEntry>, policy: RetentionPolicy, now: int): seq<LogEntry> {
    var young := AgeFiltered(es, policy, now);
    if policy.maxEntries.Some? && |young| > policy.maxEntries.value
    then young[|young| - policy.maxEntries.value..] else young
  }

  // `sub` arises from `es` by deleting entries.
  ghost predicate Subsequence(sub: seq<LogEntry>, es: seq<LogEntry>) {
    if sub == [] then true
    else es != [] && ((sub[0] == es[0] && Subsequence(sub[1..], es[1..])) || Subsequence(sub, es[1..]))
  }

  lemma {:induction false} YoungEnoughSubsequence(es: seq<LogEntry>, cutoff: int)
    ensures Subsequence(YoungEnough(es, cutoff), es)
    ensures forall e :: e in YoungEnough(es, cutoff) <==> e in es && e.event.timestamp >= cutoff
  {
    if es != [] {
      assert es == [es[0]] + es[1..];
      YoungEnoughSubsequence(es[1..], cutoff);
    }
  }

  lemma {:induction false} SubsequenceOfSelf(es: seq<LogEntry>)
    ensures Subsequence(es, es)
  {
    if es != [] { SubsequenceOfSelf(es[1..]); }
  }

  // Retention keeps the newest of the young enough entries: a suffix of the age-filtered
  // subsequence, within the limit, and all of it when it fits.
  lemma RetentionKeepsNewest(es: seq<LogEntry>, policy: RetentionPolicy, now: int)
    ensures var young, kept := AgeFiltered(es, policy, now), Retained(es, policy, now);
            Subsequence(young, es)
            && (forall e :: e in young <==>
                  e in es && (policy.maxAge.Some? ==> e.event.timestamp >= now - policy.maxAge.value))
            && |kept| <= |young| && kept == young[|young| - |kept|..]
            && |kept| == if policy.maxEntries.Some? && policy.maxEntries.value < |young|
                         then policy.maxEntries.value else |young|
  {
    SubsequenceOfSelf(es);
    if policy.maxAge.Some? { YoungEnoughSubsequence(es, now - policy.maxAge.value); }
  }

  // The same by positions: exactly the entries that are young enough stay, each once and in order.
  lemma YoungPositions(es: seq<LogEntry>, policy: RetentionPolicy, now: int) returns (at: seq<nat>)
    ensures Picks(es, AgeFiltered(es, policy, now), at)
    ensures forall i :: 0 <= i < |es| ==>
              (i in at <==> policy.maxAge.None? || now - es[i].event.timestamp <= policy.maxAge.value)
  {
    var p := (e: LogEntry) => policy.maxAge.None? || now - e.event.timestamp <= policy.maxAge.value;
    at := FilterPositions(es, p);
    YoungFilter(es, policy, now, p);
    assert forall i :: 0 <= i < |es| ==> (p(es[i]) <==> i in at);
  }

  lemma {:induction false} YoungFilter(es: seq<LogEntry>, policy: RetentionPolicy, now: int, p: LogEntry -> bool)
    requires forall e :: p(e) <==> policy.maxAge.None? || now - e.event.timestamp <= policy.maxAge.value
    ensures AgeFiltered(es, policy, now) == Filter(es, p)
  {
    if es != [] {
      YoungFilter(es[1..], policy, now, p);
      assert es == [es[0]] + es[1..];
    }
  }

  class InMemoryLogSink {
    var entries: seq<LogEntry>
    var counter: nat

    constructor ()
      ensures entries == [] && counter == 0
    {
      entries, counter := [], 0;
    }

    // An append that nothing interrupts; see LogConcurrency for interleaved ones.
    method Append(event: PipelineEvent) returns (sequence: nat)
      modifies this
      ensures sequence == old(counter) && counter == old(counter) + 1
      ensures entries == old(entries) + [LogEntry(sequence, event)]
    {
      sequence := counter;
      counter := counter + 1;
      entries := entries + [LogEntry(sequence, event)];
    }

    method ApplyRetention(policy: RetentionPolicy, now: int) returns (removed: nat)
      modifies this`entries
      ensures entries == Retained(old(entries), policy, now) && removed == |old(entries)| - |entries|
    {
      RetentionKeepsNewest(entries, policy, now);
      SubsequenceLength(AgeFiltered(entries, policy, now), entries);
      var before := |entries|;
      if policy.maxAge.Some? {
        entries := YoungEnough(entries, now - policy.maxAge.value);
      }
      if policy.maxEntries.Some? && |entries| > policy.maxEntries.value {
        var excess := |entries| - policy.maxEntries.value;
        entries := entries[excess..];
      }
      removed := before - |entries|;
    }

    method QueryEntries(filter: LogFilter) returns (r: seq<LogEntry>)
      ensures r == Query(entries, filter)
    {
      r := [];
      for i := 0 to |entries|
        invariant r == Matching(entries[..i], filter)
      {
        assert entries[..i + 1] == entries[..i] + [entries[i]];
        MatchingAppend(entries[..i], [entries[i]], filter);
        assert [entries[i]][1..] == [];
        if Matches(filter, entries[i]) { r := r + [entries[i]]; }
      }
      assert entries[..|entries|] == entries;
      if filter.limit.Some? { r := Truncate(r, filter.limit.value); }
    }
  }

  lemma {:induction false} SubsequenceLength(sub: seq<LogEntry>, es: seq<LogEntry>)
    requires Subsequence(sub, es)
    ensures |sub| <= |es|
  {
    if sub != [] {
      if sub[0] == es[0] && Subsequence(sub[1..], es[1..]) {
        SubsequenceLength(sub[1..], es[1..]);
      } else {
        SubsequenceLength(sub, es[1..]);
      }
    }
  }
}
