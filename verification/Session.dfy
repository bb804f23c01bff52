// The agentic session: a conversation between the user, the model and the tools.
module Session {
  import opened Wrappers
  import opened LoopDetection

  datatype ToolCall = ToolCall(id: string, name: string, arguments: string)

  datatype Response = Response(text: Option<string>, toolCalls: seq<ToolCall>)

  datatype Message =
    | User(text: string)
    | Assistant(reply: Option<string>, calls: seq<ToolCall>)
    | ToolResult(callId: string, content: string, isError: bool)

  datatype Turn =
    | UserInput(text: string)
    | AssistantResponse(response: Response)
    | ToolExecution(call: ToolCall, result: string, isError: bool)
    | Steering(text: string)

  datatype Phase = Active | AwaitingInput | Completed

  datatype SessionError = Llm(error: string) | Inactive | TurnLimitReached(limit: nat) | Cancelled

  datatype SessionOutput = SessionOutput(text: Option<string>, turnsUsed: nat)

  datatype Output = Output(content: string, isError: bool)

  // What the session cannot see: in round k of one call the model answers a request, tools run,
  // steering arrives while they run, and the two cancellation checks read the flag.
  datatype World = World(
    complete: (nat, seq<Message>) -> Result<Response, string>,
    run: (nat, ToolCall) -> Output,
    truncate: (string, string) -> string,
    arriving: nat -> seq<string>,
    cancelledBeforeCall: nat -> bool,
    cancelledBeforeTools: nat -> bool)

  // ----- Tool-call pairing -----

  function Ids(calls: seq<ToolCall>): seq<string> {
    if calls == [] then [] else [calls[0].id] + Ids(calls[1..])
  }

  // The calls of the last assistant message that are still unanswered; None if a result ever
  // came without its call, out of order, or an assistant spoke before all results were in.
  function Pending(ms: seq<Message>): Option<seq<string>> {
    if ms == [] then Some([])
    else
      var before := Pending(ms[..|ms| - 1]);
      if before.None? then None
      else match ms[|ms| - 1]
        case User(_) => before
        case Assistant(_, calls) => if before.value == [] then Some(Ids(calls)) else None
        case ToolResult(id, _, _) =>
          if before.value != [] && before.value[0] == id then Some(before.value[1..]) else None
  }

  // All tool-call ids of the conversation, in order.
  function CallIds(ms: seq<Message>): seq<string> {
    if ms == [] then []
    else CallIds(ms[..|ms| - 1]) + if ms[|ms| - 1].Assistant? then Ids(ms[|ms| - 1].calls) else []
  }

  // All tool-result ids of the conversation, in order.
  function ResultIds(ms: seq<Message>): seq<string> {
    if ms == [] then []
    else ResultIds(ms[..|ms| - 1]) + if ms[|ms| - 1].ToolResult? then [ms[|ms| - 1].callId] else []
  }

  // The results answer the calls one for one and in order, except for the pending ones.
  lemma {:induction false} PendingPairs(ms: seq<Message>)
    ensures Pending(ms).Some? ==> CallIds(ms) == ResultIds(ms) + Pending(ms).value
  {
    if ms != [] {
      PendingPairs(ms[..|ms| - 1]);
      var before := Pending(ms[..|ms| - 1]);
      if Pending(ms).Some? && ms[|ms| - 1].ToolResult? {
        assert before.value == [before.value[0]] + before.value[1..];
      }
    }
  }

  // Every result of a well-paired conversation follows its own call.
  lemma {:induction false} PendingPrefix(ms: seq<Message>, k: nat)
    requires k <= |ms| && Pending(ms).Some?
    ensures Pending(ms[..k]).Some?
  {
    if k == |ms| {
      assert ms[..k] == ms;
    } else {
      assert ms[..|ms| - 1][..k] == ms[..k];
      PendingPrefix(ms[..|ms| - 1], k);
    }
  }

  lemma PendingSnoc(ms: seq<Message>, m: Message)
    ensures Pending(ms).Some? && m.User? ==> Pending(ms + [m]) == Pending(ms)
    ensures Pending(ms) == Some([]) && m.Assistant? ==> Pending(ms + [m]) == Some(Ids(m.calls))
    ensures Pending(ms).Some? && Pending(ms).value != [] && m.ToolResult? && m.callId == Pending(ms).value[0] ==>
              Pending(ms + [m]) == Some(Pending(ms).value[1..])
  {
    assert (ms + [m])[..|ms + [m]| - 1] == ms;
  }

  // ----- The two histories -----

  // What happened, in order: the recorded turns, and the loop warnings, which are not turns.
  datatype Entry = Turned(turn: Turn) | Warned(text: string)

  function Render(e: Entry): Message {
    match e
    case Warned(text) => User(text)
    case Turned(UserInput(text)) => User(text)
    case Turned(Steering(text)) => User(text)
    case Turned(AssistantResponse(r)) => Assistant(r.text, r.toolCalls)
    case Turned(ToolExecution(call, result, isError)) => ToolResult(call.id, result, isError)
  }

  function Messages(log: seq<Entry>): seq<Message> {
    if log == [] then [] else Messages(log[..|log| - 1]) + [Render(log[|log| - 1])]
  }

  function Turns(log: seq<Entry>): seq<Turn> {
    if log == [] then []
    else Turns(log[..|log| - 1]) + if log[|log| - 1].Turned? then [log[|log| - 1].turn] else []
  }

  function Applied(turns: seq<Turn>): seq<string> {
    if turns == [] then []
    else Applied(turns[..|turns| - 1]) + if turns[|turns| - 1].Steering? then [turns[|turns| - 1].text] else []
  }

  lemma LogSnoc(log: seq<Entry>, e: Entry)
    ensures Messages(log + [e]) == Messages(log) + [Render(e)]
    ensures Turns(log + [e]) == Turns(log) + if e.Turned? then [e.turn] else []
  {
    assert (log + [e])[..|log + [e]| - 1] == log;
  }

  lemma AppliedSnoc(turns: seq<Turn>, t: Turn)
    ensures Applied(turns + [t]) == Applied(turns) + if t.Steering? then [t.text] else []
  {
    assert (turns + [t])[..|turns + [t]| - 1] == turns;
  }

  // How one round of the agentic loop ends.
  datatype RoundEnd = Again | Done(text: Option<string>) | Failed(error: SessionError)

  // The only way to owe tool results: the last message holds the unanswered calls.
  ghost predicate OwesLastCalls(ms: seq<Message>) {
    ms != [] && ms[|ms| - 1].Assistant? && Pending(ms) == Some(Ids(ms[|ms| - 1].calls))
  }

  // The turns that the tool calls of one response leave behind.
  function ToolTurns(calls: seq<ToolCall>, world: World, k: nat): seq<Turn> {
    seq(|calls|, i requires 0 <= i < |calls| =>
      var output := world.run(k, calls[i]);
      ToolExecution(calls[i], world.truncate(calls[i].name, output.content), output.isError))
  }

  function SteeringTurns(texts: seq<string>): seq<Turn> {
    seq(|texts|, i requires 0 <= i < |texts| => Steering(texts[i]))
  }

  // How a round ends, from what the model answers and what the flags say.
  function EndOf(request: seq<Message>, world: World, k: nat, turnsBefore: nat, limit: nat): RoundEnd {
    if world.cancelledBeforeCall(k) then Failed(Cancelled)
    else match world.complete(k, request)
      case Err(e) => Failed(Llm(e))
      case Ok(response) =>
        if response.toolCalls == [] then Done(response.text)
        else if turnsBefore + 1 >= limit then Failed(TurnLimitReached(limit))
        else if world.cancelledBeforeTools(k) then Failed(Cancelled)
        else Again
  }

  // Each way in which a round ends has its exact condition.
  lemma EndIsExact(request: seq<Message>, world: World, k: nat, turnsBefore: nat, limit: nat)
    ensures var end, answer := EndOf(request, world, k, turnsBefore, limit), world.complete(k, request);
            var wantsTools := !world.cancelledBeforeCall(k) && answer.Ok? && answer.value.toolCalls != [];
            (forall text :: end == Done(text) <==> !world.cancelledBeforeCall(k) && answer == Ok(Response(text, [])))
            && (forall e :: end == Failed(Llm(e)) <==> !world.cancelledBeforeCall(k) && answer == Err(e))
            && (end == Failed(TurnLimitReached(limit)) <==> wantsTools && turnsBefore + 1 >= limit)
            && (end == Failed(Cancelled) <==>
                  world.cancelledBeforeCall(k)
                  || (wantsTools && turnsBefore + 1 < limit && world.cancelledBeforeTools(k)))
            && (end == Again <==> wantsTools && turnsBefore + 1 < limit && !world.cancelledBeforeTools(k))
  {
  }

  // A tool turn carries the output of its own call in round k.
  ghost predicate OwnOutput(t: Turn, world: World, k: nat) {
    t.ToolExecution? ==>
      t.result == world.truncate(t.call.name, world.run(k, t.call).content) && t.isError == world.run(k, t.call).isError
  }

  // A tool result carries the output of a call with its identifier in round k.
  ghost predicate OwnResult(m: Message, world: World, k: nat) {
    m.ToolResult? ==>
      exists call: ToolCall :: call.id == m.callId && m.content == world.truncate(call.name, world.run(k, call).content)
                               && m.isError == world.run(k, call).isError
  }

  // The same for some of the first n rounds of a call.
  ghost predicate OwnOutputOfSome(t: Turn, world: World, n: nat) {
    exists k: nat :: k < n && OwnOutput(t, world, k)
  }

  ghost predicate OwnResultOfSome(m: Message, world: World, n: nat) {
    exists k: nat :: k < n && OwnResult(m, world, k)
  }

  // Round k added to the messages `said` and to the turns `done`, and everything added carries its own
  // output.
  ghost predicate AddsOwn(said: seq<Message>, ms: seq<Message>, done: seq<Turn>, ts: seq<Turn>, world: World, k: nat) {
    said <= ms && done <= ts
    && (forall i :: |said| <= i < |ms| ==> OwnResult(ms[i], world, k))
    && (forall i :: |done| <= i < |ts| ==> OwnOutput(ts[i], world, k))
  }

  // The first n rounds did so.
  ghost predicate AddOwn(said: seq<Message>, ms: seq<Message>, done: seq<Turn>, ts: seq<Turn>, world: World, n: nat) {
    said <= ms && done <= ts
    && (forall i :: |said| <= i < |ms| && ms[i].ToolResult? ==> OwnResultOfSome(ms[i], world, n))
    && (forall i :: |done| <= i < |ts| && ts[i].ToolExecution? ==> OwnOutputOfSome(ts[i], world, n))
  }

  lemma NoRoundYet(said: seq<Message>, ms: seq<Message>, done: seq<Turn>, ts: seq<Turn>, world: World)
    requires said <= ms && done <= ts
    requires forall i :: |said| <= i < |ms| ==> ms[i].User?
    requires forall i :: |done| <= i < |ts| ==> !ts[i].ToolExecution?
    ensures AddOwn(said, ms, done, ts, world, 0)
  {
  }

  lemma NoToolsOwn(world: World, k: nat)
    ensures forall m: Message :: !m.ToolResult? ==> OwnResult(m, world, k)
    ensures forall t: Turn :: !t.ToolExecution? ==> OwnOutput(t, world, k)
  {
  }

  lemma OneRoundMore(said: seq<Message>, ms: seq<Message>, more: seq<Message>, done: seq<Turn>, ts: seq<Turn>,
                     yet: seq<Turn>, world: World, k: nat)
    requires AddOwn(said, ms, done, ts, world, k) && AddsOwn(ms, more, ts, yet, world, k)
    ensures AddOwn(said, more, done, yet, world, k + 1)
  {
    hide OwnResult, OwnOutput;
    forall i | |said| <= i < |more| && more[i].ToolResult? ensures OwnResultOfSome(more[i], world, k + 1) {
      if i < |ms| { assert more[i] == ms[i]; }
    }
    forall i | |done| <= i < |yet| && yet[i].ToolExecution? ensures OwnOutputOfSome(yet[i], world, k + 1) {
      if i < |ts| { assert yet[i] == ts[i]; }
    }
  }

  class Session {
    const maxTurns: nat
    const describe: LoopPattern -> string
    const detector: LoopDetector
    var messages: seq<Message>
    var turns: seq<Turn>
    var turnNumber: nat
    var active: bool
    var phase: Phase
    var steeringQueue: seq<string>
    // Observers' view: requests sent, steering ever queued, loops reported, and the joint history.
    ghost var requests: seq<seq<Message>>
    ghost var queued: seq<string>
    ghost var reports: seq<LoopPattern>
    ghost var log: seq<Entry>

    // What holds at every point of a session.
    ghost predicate Consistent()
      reads this, detector
    {
      detector.Valid() && detector.minRepetitions >= 1
      && LoopFree(detector.history, detector.minRepetitions)
      && messages == Messages(log) && turns == Turns(log)
      && Pending(messages).Some?
      && (forall r :: r in requests ==> Pending(r) == Some([]))
      && Applied(turns) + steeringQueue == queued
      && (forall l :: l in reports ==> l.repetitions == detector.minRepetitions)
    }

    // What holds between calls: an active session owes no tool result.
    ghost predicate Valid()
      reads this, detector
    {
      Consistent() && (active ==> Pending(messages) == Some([]))
    }

    constructor (maxTurns: nat, windowSize: nat, minRepetitions: nat, hash: string -> nat,
                 describe: LoopPattern -> string)
      requires minRepetitions >= 1
      ensures Valid() && fresh(detector) && active && turnNumber == 0
      ensures messages == [] && turns == [] && steeringQueue == [] && requests == []
      ensures this.maxTurns == maxTurns
    {
      this.maxTurns, this.describe := maxTurns, describe;
      var d := new LoopDetector(windowSize, minRepetitions, hash);
      detector := d;
      messages, turns, turnNumber, active, phase, steeringQueue := [], [], 0, true, Active, [];
      requests, queued, reports, log := [], [], [], [];
      new;
      EmptyIsLoopFree(minRepetitions);
    }

    // Queue a text to be injected before the next request.
    method Steer(text: string)
      requires Consistent()
      modifies this`steeringQueue, this`queued
      ensures Consistent() && steeringQueue == old(steeringQueue) + [text] && queued == old(queued) + [text]
    {
      steeringQueue := steeringQueue + [text];
      queued := queued + [text];
      assert Applied(turns) + steeringQueue == old(Applied(turns) + steeringQueue) + [text];
    }

    method AddUserMessage(text: string)
      requires Consistent()
      modifies this`messages, this`turns, this`log
      ensures Consistent() && messages == old(messages) + [User(text)] && turns == old(turns) + [UserInput(text)]
      ensures Pending(messages) == old(Pending(messages))
    {
      hide LoopFree, Repeats, MaxRepeats, Pending, Messages, Turns, Applied, Suffix;
      LogSnoc(log, Turned(UserInput(text)));
      PendingSnoc(messages, User(text));
      AppliedSnoc(turns, UserInput(text));
      messages, turns := messages + [User(text)], turns + [UserInput(text)];
      log := log + [Turned(UserInput(text))];
    }

    method AddAssistantResponse(response: Response)
      requires Consistent() && Pending(messages) == Some([])
      modifies this`messages, this`turns, this`turnNumber, this`log
      ensures Consistent() && messages == old(messages) + [Assistant(response.text, response.toolCalls)]
      ensures turns == old(turns) + [AssistantResponse(response)] && turnNumber == old(turnNumber) + 1
      ensures Pending(messages) == Some(Ids(response.toolCalls))
    {
      hide LoopFree, Repeats, MaxRepeats, Pending, Messages, Turns, Applied, Suffix;
      var message := Assistant(response.text, response.toolCalls);
      LogSnoc(log, Turned(AssistantResponse(response)));
      PendingSnoc(messages, message);
      AppliedSnoc(turns, AssistantResponse(response));
      messages, turns := messages + [message], turns + [AssistantResponse(response)];
      turnNumber := turnNumber + 1;
      log := log + [Turned(AssistantResponse(response))];
    }

    method AddToolResult(call: ToolCall, content: string, isError: bool)
      requires Consistent() && Pending(messages).value != [] && Pending(messages).value[0] == call.id
      modifies this`messages, this`turns, this`log
      ensures Consistent() && messages == old(messages) + [ToolResult(call.id, content, isError)]
      ensures turns == old(turns) + [ToolExecution(call, content, isError)]
      ensures Pending(messages) == Some(old(Pending(messages)).value[1..])
    {
      hide LoopFree, Repeats, MaxRepeats, Pending, Messages, Turns, Applied, Suffix;
      var message := ToolResult(call.id, content, isError);
      LogSnoc(log, Turned(ToolExecution(call, content, isError)));
      PendingSnoc(messages, message);
      AppliedSnoc(turns, ToolExecution(call, content, isError));
      messages, turns := messages + [message], turns + [ToolExecution(call, content, isError)];
      log := log + [Turned(ToolExecution(call, content, isError))];
    }

    // Inject all queued steering, each text once and in order.
    method ApplySteering()
      requires Consistent()
      modifies this`messages, this`turns, this`log, this`steeringQueue
      ensures Consistent() && steeringQueue == [] && Pending(messages) == old(Pending(messages))
      ensures old(messages) <= messages && turns == old(turns) + SteeringTurns(old(steeringQueue))
      ensures Applied(turns) == old(Applied(turns) + steeringQueue)
      ensures |messages| == |old(messages)| + |old(steeringQueue)|
      ensures forall i :: 0 <= i < |old(steeringQueue)| ==>
                messages[|old(messages)| + i] == User(old(steeringQueue)[i])
      ensures forall i :: |old(messages)| <= i < |messages| ==> messages[i].User?
      ensures forall i :: |old(turns)| <= i < |turns| ==> turns[i].Steering?
    {
      hide LoopFree, Repeats, MaxRepeats, Pending, Messages, Turns, Applied, Suffix;
      var drained := steeringQueue;
      for i := 0 to |drained|
        invariant messages == Messages(log) && turns == Turns(log) && Pending(messages) == old(Pending(messages))
        invariant Applied(turns) + drained[i..] == queued
        invariant old(messages) <= messages && turns == old(turns) + SteeringTurns(drained)[..i]
        invariant |messages| == |old(messages)| + i
        invariant forall j :: 0 <= j < i ==> messages[|old(messages)| + j] == User(drained[j])
        invariant forall j :: |old(messages)| <= j < |messages| ==> messages[j].User?
      {
        var text := drained[i];
        LogSnoc(log, Turned(Steering(text)));
        PendingSnoc(messages, User(text));
        AppliedSnoc(turns, Steering(text));
        assert drained[i..] == [text] + drained[i + 1..];
        messages, turns := messages + [User(text)], turns + [Steering(text)];
        log := log + [Turned(Steering(text))];
      }
      steeringQueue := [];
      assert Applied(turns) + drained[|drained|..] == Applied(turns) + [];
    }

    // Record a call in the detector; a detected loop is reported, warned about, and forgotten.
    method WatchForLoop(call: ToolCall)
      requires Consistent()
      modifies this`messages, this`log, this`reports, detector
      ensures Consistent() && Pending(messages) == old(Pending(messages)) && old(messages) <= messages
      ensures var h := Suffix(old(detector.history) + [ToolSignature(call.name, detector.hash(call.arguments))],
                              detector.windowSize);
              if LoopFree(h, detector.minRepetitions) then
                messages == old(messages) && reports == old(reports) && detector.history == h
              else
                detector.history == []
                && exists l :: Detects(h, detector.minRepetitions, Some(l)) && l.repetitions == detector.minRepetitions
                               && reports == old(reports) + [l] && messages == old(messages) + [User(describe(l))]
    {
      hide LoopFree, Repeats, MaxRepeats, Pending, Messages, Turns, Applied, Suffix;
      ghost var before := detector.history;
      ghost var signature := ToolSignature(call.name, detector.hash(call.arguments));
      detector.Record(call.name, call.arguments);
      var found := detector.DetectLoop();
      if found.Some? {
        FoundIsNoLoopFree(detector.history, detector.minRepetitions, found.value);
        CaughtAtTheMinimum(before, signature, detector.windowSize, detector.minRepetitions, found.value);
        var warning := describe(found.value);
        LogSnoc(log, Warned(warning));
        PendingSnoc(messages, User(warning));
        messages := messages + [User(warning)];
        log := log + [Warned(warning)];
        reports := reports + [found.value];
        detector.Reset();
        EmptyIsLoopFree(detector.minRepetitions);
      }
    }

    method ExecuteTools(calls: seq<ToolCall>, world: World, k: nat)
      requires Consistent() && Pending(messages) == Some(Ids(calls))
      modifies this`messages, this`turns, this`log, this`reports, detector
      ensures Consistent() && Pending(messages) == Some([])
      ensures old(messages) <= messages && turns == old(turns) + ToolTurns(calls, world, k)
      // Each call, in order, gets its own output.
      ensures |turns| == |old(turns)| + |calls|
      ensures forall i :: 0 <= i < |calls| ==>
                turns[|old(turns)| + i] ==
                ToolExecution(calls[i], world.truncate(calls[i].name, world.run(k, calls[i]).content),
                              world.run(k, calls[i]).isError)
      ensures forall i :: |old(turns)| <= i < |turns| ==> OwnOutput(turns[i], world, k)
      ensures forall i :: |old(messages)| <= i < |messages| ==> OwnResult(messages[i], world, k)
    {
      hide LoopFree, Repeats, MaxRepeats, Pending, Messages, Turns, Applied, Suffix, Consistent;
      for i := 0 to |calls|
        invariant Consistent() && Pending(messages) == Some(Ids(calls[i..]))
        invariant old(messages) <= messages && turns == old(turns) + ToolTurns(calls, world, k)[..i]
        invariant forall j :: |old(messages)| <= j < |messages| ==> OwnResult(messages[j], world, k)
      {
        var call := calls[i];
        assert calls[i..][1..] == calls[i + 1..];
        var output := world.run(k, call);
        var content := world.truncate(call.name, output.content);
        ghost var before := messages;
        AddToolResult(call, content, output.isError);
        assert OwnResult(ToolResult(call.id, content, output.isError), world, k);
        WatchForLoop(call);
        assert forall j :: |before| < j < |messages| ==> messages[j].User?;
      }
    }

    // Steering that arrives while the tools run, and is then injected.
    method TakeArrivals(texts: seq<string>)
      requires Consistent()
      modifies this`messages, this`turns, this`log, this`steeringQueue, this`queued
      ensures Consistent() && steeringQueue == [] && Pending(messages) == old(Pending(messages))
      ensures old(messages) <= messages && turns == old(turns) + SteeringTurns(old(steeringQueue) + texts)
      ensures queued == old(queued) + texts && Applied(turns) == queued
      ensures forall i :: |old(messages)| <= i < |messages| ==> messages[i].User?
      ensures forall i :: |old(turns)| <= i < |turns| ==> turns[i].Steering?
    {
      hide Pending, Consistent, SteeringTurns;
      for i := 0 to |texts|
        invariant Consistent() && queued == old(queued) + texts[..i]
        invariant steeringQueue == old(steeringQueue) + texts[..i]
        invariant messages == old(messages) && turns == old(turns)
      {
        Steer(texts[i]);
      }
      assert texts[..|texts|] == texts;
      ApplySteering();
      AllApplied();
    }

    method Deactivate()
      requires Consistent()
      modifies this`active, this`phase
      ensures Consistent() && !active && phase == Completed
    {
      active, phase := false, Completed;
    }

    method Complete()
      requires Consistent()
      modifies this`phase
      ensures Consistent() && phase == Completed
    {
      phase := Completed;
    }

    // Send the conversation so far; it owes no tool result.
    method CallModel(request: seq<Message>, world: World, k: nat) returns (r: Result<Response, string>)
      requires Consistent() && Pending(request) == Some([])
      modifies this`requests
      ensures Consistent() && requests == old(requests) + [request] && r == world.complete(k, request)
    {
      requests := requests + [request];
      r := world.complete(k, request);
    }

    lemma AllApplied()
      requires Consistent() && steeringQueue == []
      ensures Applied(turns) == queued
    {
      assert Applied(turns) + [] == Applied(turns);
    }

    // One round: call the model, run the tools it asks for, inject the steering that arrived.
    method Round(request: seq<Message>, world: World, k: nat) returns (end: RoundEnd)
      requires Consistent() && active && Pending(messages) == Some([]) && request == messages
      modifies this, detector
      ensures Consistent() && old(messages) <= messages
      ensures end == EndOf(request, world, k, old(turnNumber), maxTurns)
      // The turns added are the response, and when the round goes on the tool results and then the
      // steering, first what was queued and then what arrived.
      ensures end == Again ==>
                turns == old(turns) + [AssistantResponse(world.complete(k, request).value)]
                         + ToolTurns(world.complete(k, request).value.toolCalls, world, k)
                         + SteeringTurns(old(steeringQueue) + world.arriving(k))
      ensures end != Again ==>
                turns == old(turns) + if world.cancelledBeforeCall(k) || world.complete(k, request).Err?
                                      then [] else [AssistantResponse(world.complete(k, request).value)]
      ensures AddsOwn(old(messages), messages, old(turns), turns, world, k)
      ensures end.Done? ==> messages == old(messages) + [Assistant(end.text, [])]
      ensures end.Failed? && end.error.Llm? ==> messages == old(messages)
      ensures phase == if end.Failed? && !end.error.Llm? then Completed else old(phase)
      ensures old(steeringQueue) == [] ==> steeringQueue == []
      ensures requests == old(requests) + (if world.cancelledBeforeCall(k) then [] else [request])
      ensures turnNumber == old(turnNumber) + if world.cancelledBeforeCall(k) || world.complete(k, request).Err?
                                              then 0 else 1
      ensures world.cancelledBeforeCall(k) ==> messages == old(messages) && turns == old(turns)
      ensures active <==> !(end.Failed? && !end.error.Llm?)
      ensures active ==> Pending(messages) == Some([])
      ensures Pending(messages) == Some([]) || OwesLastCalls(messages)
    {
      hide LoopFree, Repeats, MaxRepeats, Pending, Messages, Turns, Applied, Suffix, Consistent, Ids,
        SteeringTurns, ToolTurns, OwnResult, OwnOutput;
      if world.cancelledBeforeCall(k) {
        Deactivate();
        return Failed(Cancelled);
      }
      var completion := CallModel(request, world, k);
      if completion.Err? { return Failed(Llm(completion.error)); }
      var response := completion.value;
      AddAssistantResponse(response);
      NoToolsOwn(world, k);
      if response.toolCalls == [] {
        assert Ids(response.toolCalls) == [] by { NoIds(response.toolCalls); }
        return Done(response.text);
      }
      if turnNumber >= maxTurns {
        Deactivate();
        return Failed(TurnLimitReached(maxTurns));
      }
      if world.cancelledBeforeTools(k) {
        Deactivate();
        return Failed(Cancelled);
      }
      ExecuteTools(response.toolCalls, world, k);
      TakeArrivals(world.arriving(k));
      return Again;
    }

    method ProcessInput(input: string, world: World) returns (r: Result<SessionOutput, SessionError>)
      requires Valid()
      modifies this, detector
      ensures Valid()
      // An inactive session refuses and changes nothing.
      ensures !old(active) ==> r == Err(Inactive) && messages == old(messages) && requests == old(requests)
      // Nothing said is ever taken back.
      ensures old(messages) <= messages && old(turns) <= turns && old(requests) <= requests
      ensures old(active) ==> |messages| > |old(messages)| && messages[|old(messages)|] == User(input)
      // Everything queued has been injected.
      ensures old(active) ==> steeringQueue == [] && Applied(turns) == queued
      // The turn bound, and what a call costs.
      ensures |requests| - |old(requests)| <= if maxTurns - old(turnNumber) > 1 then maxTurns - old(turnNumber) else 1
      ensures old(turnNumber) <= turnNumber <= old(turnNumber) + (|requests| - |old(requests)|)
      ensures r.Ok? ==> r.value.turnsUsed == turnNumber - old(turnNumber) == |requests| - |old(requests)|
      // How a call ends decides whether the session lives on.
      ensures r.Ok? || (r.Err? && r.error.Llm?) <==> active
      ensures r.Err? && r.error.TurnLimitReached? ==> r.error.limit == maxTurns <= turnNumber
      // The answer is the model's reply to the last request, which was the conversation before it.
      ensures r.Ok? ==>
                messages != [] && messages[|messages| - 1] == Assistant(r.value.text, [])
                && |requests| > |old(requests)| && requests[|requests| - 1] == messages[..|messages| - 1]
                && world.complete(|requests| - |old(requests)| - 1, requests[|requests| - 1])
                   == Ok(Response(r.value.text, []))
      ensures r.Err? && r.error.Llm? ==>
                |requests| > |old(requests)| && requests[|requests| - 1] == messages
                && world.complete(|requests| - |old(requests)| - 1, messages) == Err(r.error.error)
      ensures phase == if old(active) && !(r.Err? && r.error.Llm?) then Completed else old(phase)
      // Every tool turn and every tool result carries the output of its own call in its own round.
      ensures AddOwn(old(messages), messages, old(turns), turns, world, |requests| - |old(requests)|)
      // A call is cancelled exactly when a flag is seen, before a request or before tools.
      ensures old(active) && world.cancelledBeforeCall(0) ==> r == Err(Cancelled) && requests == old(requests)
      ensures r == Err(Cancelled) ==>
                var n := |requests| - |old(requests)|;
                world.cancelledBeforeCall(n) || (n > 0 && world.cancelledBeforeTools(n - 1))
      // Unanswered calls remain only from the last response of a session that has ended.
      ensures old(active) && Pending(messages) != Some([]) ==> !active && OwesLastCalls(messages)
    {
      hide Pending, Messages, Turns, Applied, Consistent, OwesLastCalls, AddsOwn, AddOwn, SteeringTurns;
      if !active {
        NoRoundYet(messages, messages, turns, turns, world);
        return Err(Inactive);
      }
      var turnStart := turnNumber;
      AddUserMessage(input);
      ghost var greeting := messages;
      ApplySteering();
      NoRoundYet(old(messages), messages, old(turns), turns, world);
      var request := messages;
      var k := 0;
      while true
        invariant request == messages
        invariant greeting <= messages && steeringQueue == []
        invariant Consistent() && active && Pending(messages) == Some([])
        invariant old(messages) <= messages && old(turns) <= turns && old(requests) <= requests
        invariant phase == old(phase)
        invariant turnNumber == turnStart + k && |requests| == |old(requests)| + k
        invariant k > 0 ==> turnNumber < maxTurns && !world.cancelledBeforeCall(0)
        invariant AddOwn(old(messages), messages, old(turns), turns, world, k)
        decreases maxTurns - turnNumber
      {
        ghost var said, done := messages, turns;
        var end := Round(request, world, k);
        OneRoundMore(old(messages), said, messages, old(turns), done, turns, world, k);
        match end
        case Failed(e) =>
          AllApplied();
          return Err(e);
        case Done(text) =>
          Complete();
          AllApplied();
          return Ok(SessionOutput(text, turnNumber - turnStart));
        case Again =>
          request := messages;
          k := k + 1;
      }
    }
  }

  lemma FoundIsNoLoopFree(h: History, m: nat, l: LoopPattern)
    requires Detects(h, m, Some(l))
    ensures !LoopFree(h, m)
  {
    assert Repeats(h, |l.pattern|, m);
  }

  lemma NoIds(calls: seq<ToolCall>)
    requires calls == []
    ensures Ids(calls) == []
  {
  }
}
