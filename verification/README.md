# Verified model of the Smasher pipeline engine, agent session and log sink

Smasher runs pipelines that are drawn as graphs. A node is executed by a handler, its outcome decides
which edge is taken next, and whole pipelines can stand in for single nodes of other pipelines. Some
nodes hand their work to an agent: a conversation between a user, a language model and tools. Everything
that happens is appended to a log. This project states what three parts of that system promise, and
proves it.

**Pipelines.** A sub-pipeline node is replaced by the graph it refers to (`Composition`), until none is
left (`SubPipelines`). The main results are about what this transformation preserves:

- the walks of the composed graph are exactly the parent's walks with sub-graph walks spliced in
  (`CompositionWalks`), and edge selection at outer nodes, inner nodes and the exit is the image of the
  selection before inlining, with the exact conditions on identifiers and on suggestions under which
  it is (`CompositionSelection`);
- for identifiers without dots, iterated inlining never collides and keeps the boundary
  (`SubPipelineRuns`); it is stated exactly on which maps of files the loop ends, and on which it
  completes (`SubPipelineEnding`); the order of the rounds does not matter (`Confluence`,
  `InliningOrder`);
- a run of the composed pipeline is a run of the parent pipeline in which the replaced node is handled
  by running the sub-graph as a pipeline of its own (`Crossings`, `SubGraphRuns`, `HierarchicalRuns`),
  down to its completion (`InlinedGoals`), the other way round (`LiftedRuns`), and over all rounds of the
  transform (`NestedRuns`);
- the whole transform preserves reachability (`SubPipelineWalks`).

Edge selection is proved equal to a position-level specification (`EdgeSelection`), and what conditions,
hints, labels and priorities decide is stated by itself (`EdgeRules`). The execution loop,
written with the variables that the engine updates, refines a state machine (`Engine`), and the results
about whole runs are proved of that machine: legal moves and faithful bookkeeping (`EngineRuns`), exact
failure-cycle detection and the bound it gives (`FailureCycles`), resuming an interrupted run from any
saved checkpoint (`Resume`), which node the returned checkpoint names (`FinalCheckpoints`), and what
inlining means for runs (`InlinedRuns` and the modules above). `EngineRules` says what contexts, retry
targets, errors and results mean to a caller, and `Goals` has the goal gates.

**Agent session.** The loop detector is a search for a repeated block at the end of a sliding window. It
is proved complete, agrees with an unbounded window, reports primitive blocks, and catches every loop at
exactly the minimum number of repetitions (`LoopDetection`). The session keeps tool calls and tool
results paired over all runs, sends only requests without open calls, respects the turn limit, and
applies every steering text once and in order (`Session`).

**Log sink.** The index agrees with a scan and the early-exit file query with filter-then-truncate
(`LogSink`). Interleaved two-step appends never lose or repeat a number, and it is characterised exactly
when they keep the log in order and when a restarted file sink goes on with unused numbers
(`LogConcurrency`).

## How to read it

- `caption` is the source's `label`, which is a keyword in Dafny.
- The condition language, label normalisation and lower-casing, the context-fidelity processing and the
  node handlers are arbitrary functions; a theorem holds for every choice of them. One application of
  the handler is one node execution with its inner retries and with handler errors turned into failures.
- What a session cannot see (`World`) is arbitrary: the model's answers, the tools' outputs, the
  steering that arrives and the cancellation flag at each check.
- Files are a finite map from path to resolved graph; a log file is a sequence of lines.
- The classes `Execution`, `Session`, `LoopDetector`, `LoopCounter` and `InMemoryLogSink` have the fields
  that the source updates. Ghost fields only observe: everything recorded since a reset, the requests
  sent, the texts ever queued, the loops reported.
- A *trail* is the sequence of states at the head of the execution loop.

## Where the code and its documentation differ

The model follows the code.

- Composition checks that the sub-graph has a start and an exit, not that it has exactly one of each
  (crates/smasher-attractor/src/composition.rs:54-69); the first of each is used. Further exits become
  ordinary nodes, and one without an edge of its own is a dead end (`Composition.OtherExits`).
- A restart edge clears the context entries named after the node it leaves. Inlining renames that node and
  not the entries, so restart edges out of the replaced node or inside the sub-graph clear other entries
  than before (`Crossings.CarriedAlikeIff`, `Crossings.CarriedInsideIff`).
- A goal flag on a sub-pipeline node is lost with the node, so the composed pipeline can complete where
  the parent could not (`InlinedGoals.GoalsInlined`, `InlinedGoals.GoalChecks`).
- Nested sub-pipelines are documented (composition.rs:180-184), but resolving a graph never produces a
  sub-pipeline node (crates/smasher-attractor/src/graph/mod.rs:178-191). The file map is arbitrary here,
  so nesting is covered, and `SubPipelines.FlatFilesTakeOneRoundEach` covers what resolving produces.
- The error for cyclic references is declared and never built. The loop runs without end exactly when
  something refers into a cycle of files and nothing fails to load (`SubPipelineEnding.EndsIff`,
  `SubPipelineEnding.SelfReferenceRunsForever`). Such inputs are maps of graphs built by hand: since
  resolving never produces a sub-pipeline node, no file that can be loaded is one of them.
- Prefixing is documented to prevent collisions (composition.rs:37-40). Identifiers may contain dots
  (crates/smasher-attractor/src/dot/lexer.rs:163-166), and then it does not
  (`SubPipelineRuns.DottedIdsCollide`); `SubPipelineRuns.UniqueIffNoCollision` says exactly when it does.
- Outcomes suggest nodes by name, and inlining renames nodes. An outcome that suggests the replaced node
  (`CompositionSelection.SuggestionOfReplacedNodeIsLost`) or, inside the sub-graph, a node by its own name
  (`CompositionSelection.SuggestionOfInnerNodeIsLost`) is routed elsewhere after inlining. The exact
  conditions are `CompositionSelection.NeutralityExact` and `CompositionSelection.InnerNeutralityExact`.
- Identifiers with a hyphen, a blank or another character below the dot can flip the tie-break
  (`CompositionSelection.HyphenFlipsTheTieBreak`, `CompositionSelection.TieBreakExact`).
- A file query with limit 0 returns the first match, an in-memory query returns nothing
  (`LogSink.QueryFormsAgree`).
- The file sink documents numbers that increase across restarts
  (crates/smasher-attractor/src/log_sink.rs:364-366). That holds exactly under the condition of
  `LogConcurrency.RestartsAreFreshIff`.
- The checkpoint returned at the end of a run names the last *first-visited* node, which need not be the
  one executed last (`FinalCheckpoints.FinalCheckpointMisnames`,
  `FinalCheckpoints.FinalCheckpointNamesLastIff`). The resume results are about the checkpoints saved
  after each node.
- The comment on outcome labels lists neither `partial_success` nor the labels for retries
  (crates/smasher-attractor/src/edge.rs:21-24); the code accepts both (`EdgeRules.LabelsDecide`).
- A failure limit of 0 acts as a limit of 1 (`FailureCycles.Limit`).
- The window may hold fewer copies than the stream repeats, so the reported count is capped by it
  (`LoopDetection.WindowAgreesWithStream`).

## Model

| member | source | states |
|---|---|---|
| `Strings.LessTotal` | crates/smasher-attractor/src/edge.rs:223-230 | the order on target identifiers compares any two different ones |
| `Strings.LessTransitive` | crates/smasher-attractor/src/edge.rs:223-230 | that order is transitive, so a sort by it is well defined |
| `Strings.PrefixIdInjective` | crates/smasher-attractor/src/composition.rs:40-42 | two children inlined below one parent get the same identifier only if they are the same |
| `Strings.PrefixIdsApart` | crates/smasher-attractor/src/composition.rs:40-42 | children inlined below parents that are not nested in each other never collide |
| `Strings.LessAfterPrefix` | crates/smasher-attractor/src/composition.rs:40-42 | appending `.child` to an identifier keeps its comparison with an unrelated one if and only if the other does not extend it by a character sorting before the dot |
| `Strings.LessBelowPrefix` | crates/smasher-attractor/src/composition.rs:40-42 | and with one below it if and only if the children compare so |
| `Graphs.FindNode` | crates/smasher-attractor/src/graph/mod.rs:92-94 | a node lookup fails if and only if no node has the identifier, and otherwise returns such a node |
| `Graphs.FindNodeFirst` | crates/smasher-attractor/src/graph/mod.rs:92-94 | and it returns the first such node |
| `Graphs.EdgesFromPositions` | crates/smasher-attractor/src/graph/mod.rs:97-99 | the edges at exactly the positions of edges leaving the node, each once and in list order |
| `Graphs.EdgesToPositions` | crates/smasher-attractor/src/graph/mod.rs:102-104 | the edges at exactly the positions of edges entering the node, each once and in list order |
| `Graphs.OfTypePositions` | crates/smasher-attractor/src/graph/mod.rs:107-120 | the nodes at exactly the positions of nodes of the type, each once and in list order |
| `EdgeSelection.AheadOrder` | crates/smasher-attractor/src/edge.rs:223-230 | priority descending, then target ascending, is a strict weak order whose ties are edges to the same target |
| `EdgeSelection.BestIsLeast` | crates/smasher-attractor/src/edge.rs:223-230 | the head of the sorted candidates is the least one by priority, target and list position |
| `EdgeSelection.PickBest` | crates/smasher-attractor/src/edge.rs:223-230 | sorting and taking the head returns the least candidate, and nothing only from nothing |
| `EdgeSelection.SelectEdge` | crates/smasher-attractor/src/edge.rs:116-221 | the staged selection (partition, then narrowing by preferred label, suggestion, outcome label) computes the tiered selection specified on all candidates at once |
| `EdgeSelection.SelectRefinesTiers` | crates/smasher-attractor/src/edge.rs:84-221 | the selection is the edge at the one position that is least in the first non-empty tier; nothing is selected if and only if every candidate has a condition that does not hold; it fails if and only if some explicit condition does not parse |
| `EdgeSelection.ChosenAtUnique` | crates/smasher-attractor/src/edge.rs:84-115 | the position-level specification names at most one tier and one position |
| `EdgeSelection.SelectOrderIndependent` | crates/smasher-attractor/src/edge.rs:116-230 | reordering or repeating candidates changes neither failure, nor emptiness, nor the next node |
| `EdgeRules.ConditionsDecide` | crates/smasher-attractor/src/edge.rs:138-162 | an edge with a condition that holds is taken before every edge without one |
| `EdgeRules.PreferredLabelDecides` | crates/smasher-attractor/src/edge.rs:169-187 | then an edge with the preferred label, up to normalization |
| `EdgeRules.SuggestionsDecide` | crates/smasher-attractor/src/edge.rs:189-202 | then an edge to a suggested node |
| `EdgeRules.LabelsDecide` | crates/smasher-attractor/src/edge.rs:25-43 | then an edge with a label of the kind of outcome, whose labels are written out for success and partial success, failure, retry and skip |
| `EdgeRules.UnconditionalOtherwise` | crates/smasher-attractor/src/edge.rs:164-167 | and without an outcome an unconditional edge, or nothing if and only if there is none |
| `EdgeRules.ErrorNamesFirst` | crates/smasher-attractor/src/edge.rs:138-147 | the error names the first edge in list order whose condition does not parse |
| `EdgeRules.PriorityDecides` | crates/smasher-attractor/src/edge.rs:223-230 | of two edges that differ in target and priority only, the one with the higher priority, a missing one counting as 0, then the one with the smaller target, then the first |
| `EdgeRules.DictionaryOrder` | crates/smasher-attractor/src/edge.rs:223-230 | targets compare as in a dictionary: by the first different character, a prefix first |
| `Composition.ComposeGraphs` | crates/smasher-attractor/src/composition.rs:49-158 | the loops over nodes and edges compute the composed graph, which keeps every node of the sub-graph with its caption and attributes, and with its type unless it is a start or exit, every inner edge with all it says, and the attributes of the parent; it fails if and only if a start or an exit is missing, and says which |
| `Composition.ComposingKeeps` | crates/smasher-attractor/src/composition.rs:75-157 | the other parent nodes each once and in order, then the sub-graph's nodes as described; the inner edges; the graph attributes |
| `Composition.InlinedNodeFound` | crates/smasher-attractor/src/composition.rs:75-97 | looking up an inlined name finds the node that the sub-graph finds by its own name, with the same caption and attributes, and the same type unless it was a start or exit |
| `Composition.BoundaryIsFirst` | crates/smasher-attractor/src/composition.rs:54-69 | start and exit of a sub-graph are its first nodes of these types |
| `Composition.NewNodes` | crates/smasher-attractor/src/composition.rs:75-97 | parent nodes without the replaced one, then the prefixed nodes of the sub-graph with start and exit made generic |
| `Composition.KeepOuterEdges` | crates/smasher-attractor/src/composition.rs:102-107 | the parent edges that do not touch the replaced node |
| `Composition.ReconnectIncoming` | crates/smasher-attractor/src/composition.rs:109-121 | incoming edges lead to the inlined start, all else kept |
| `Composition.ReconnectOutgoing` | crates/smasher-attractor/src/composition.rs:123-135 | outgoing edges leave from the inlined exit, all else kept |
| `Composition.AddInnerEdges` | crates/smasher-attractor/src/composition.rs:137-148 | the prefixed inner edges |
| `Composition.RewiredMultiset` | crates/smasher-attractor/src/composition.rs:99-135 | every parent edge survives exactly once, redirected, with caption, condition, priority, restart flag and attributes, and a self-loop on the replaced node becomes two edges |
| `Composition.ComposedLinks` | crates/smasher-attractor/src/composition.rs:99-148 | which nodes are linked in the composed graph: outer to outer, outer to start, exit to outer, inner to inner, each if and only if the parent or the sub-graph links them, and nothing else |
| `Composition.InnerLinks` | crates/smasher-attractor/src/composition.rs:99-148 | the same by inner names, also when the parent has further names below the replaced node that collide with none of them |
| `Composition.ClosedIffNoSelfLoop` | crates/smasher-attractor/src/composition.rs:71-148 | from graphs without dangling edges, the composed graph has none if and only if the replaced node has no self-loop |
| `Composition.SelfLoopDangles` | crates/smasher-attractor/src/composition.rs:71-135 | a self-loop on the replaced node always leaves an edge at the deleted identifier |
| `Composition.OtherExits` | crates/smasher-attractor/src/composition.rs:63-69 | only the first exit of the sub-graph gets the parent's outgoing edges; every inlined exit leads on if and only if each other one has an edge of its own |
| `CompositionWalks.WalkCorrespondence` | crates/smasher-attractor/src/composition.rs:71-148 | without a self-loop on the replaced node and without a parent edge at an inner name, walks of the composed graph between outer nodes correspond one to one to parent walks with a start-to-exit walk of the sub-graph at every visit of the replaced node |
| `CompositionWalks.WalksProject` | crates/smasher-attractor/src/composition.rs:71-148 | every composed walk between outer nodes projects to such a pair with the same ends |
| `CompositionWalks.WalksLift` | crates/smasher-attractor/src/composition.rs:71-148 | every such pair lifts to a composed walk from which it can be read back |
| `CompositionWalks.ReachabilityExact` | crates/smasher-attractor/src/composition.rs:71-148 | an outer node reaches another after inlining if and only if some parent walk avoids the replaced node or the sub-graph can be crossed |
| `CompositionWalks.ReachabilityPreserved` | crates/smasher-attractor/src/composition.rs:46-48 | when the sub-graph can be crossed, reachability between outer nodes is unchanged |
| `SubPipelineWalks.RoundsKeepReach` | crates/smasher-attractor/src/composition.rs:180-214 | after any number of rounds, nodes that are not sub-pipelines reach each other as they did at first, if every file can be crossed from its start to its exit |
| `CompositionSelection.SelectAtOuterNode` | crates/smasher-attractor/src/composition.rs:99-148 | at an outer node the composed graph selects the image of the parent's edge: none if and only if none, error if and only if error |
| `CompositionSelection.SelectAtInnerNode` | crates/smasher-attractor/src/composition.rs:137-148 | at an inlined node other than the exit, with the same outcome, it selects the image of the sub-graph's edge, if the outcome suggests each target and its inlined form alike |
| `CompositionSelection.InnerNeutralityExact` | crates/smasher-attractor/src/composition.rs:137-148 | that condition is exact: selection among candidates to given targets survives inlining if and only if the outcome suggests each of them and its inlined form alike |
| `CompositionSelection.SuggestionOfInnerNodeIsLost` | crates/smasher-attractor/src/composition.rs:137-148 | an outcome that suggests a sub-graph node by its own name is routed elsewhere after inlining |
| `CompositionSelection.SelectAtAnyExit` | crates/smasher-attractor/src/composition.rs:123-148 | at the inlined exit the edges of the parent at the replaced node compete, tier by tier, with those of the sub-graph at its exit |
| `CompositionSelection.SelectAtExit` | crates/smasher-attractor/src/composition.rs:123-135 | hence it selects what the parent selects at the replaced node when nothing leaves the exit inside the sub-graph |
| `CompositionSelection.SelectAppend` | crates/smasher-attractor/src/edge.rs:116-230 | the selection among two lists together is the better of the two selections |
| `CompositionSelection.SelectTierTurned` | crates/smasher-attractor/src/edge.rs:116-230 | moving the redirected candidates behind the others and renaming their target does not change which candidate wins |
| `CompositionSelection.PlainIdsUndisturbed` | crates/smasher-attractor/src/composition.rs:40-42 | letters, digits, underscores and dots in targets always satisfy the condition under which the tie-break survives |
| `CompositionSelection.TieBreakExact` | crates/smasher-attractor/src/composition.rs:109-121 | between two plain edges, one into the replaced node, the choice survives inlining if and only if the other target satisfies that condition, also for targets below the replaced node |
| `CompositionSelection.HyphenFlipsTheTieBreak` | crates/smasher-attractor/src/composition.rs:109-121 | a target with a hyphen for which inlining changes the branch taken |
| `CompositionSelection.SuggestionOfReplacedNodeIsLost` | crates/smasher-attractor/src/composition.rs:109-121 | an outcome that suggests the replaced node itself is routed elsewhere after inlining |
| `CompositionSelection.NeutralityExact` | crates/smasher-attractor/src/composition.rs:109-121 | selection at outer nodes survives inlining for all candidates with harmless targets if and only if the outcome suggests the replaced node and the inlined start alike |
| `CompositionSelection.SelectPositional` | crates/smasher-attractor/src/edge.rs:116-230 | the selection depends only on the tiers and the relative order of the candidates, position by position |
| `Confluence.InliningsCommute` | crates/smasher-attractor/src/composition.rs:49-158 | replacing two nodes in either order gives the same node multiset and the same edge multiset with all attributes, also for nodes adjacent in both directions and nodes with self-loops |
| `Confluence.InliningRespectsPermutation` | crates/smasher-attractor/src/composition.rs:49-158 | inlining graphs equal up to list order gives graphs equal up to list order |
| `SubPipelines.RoundMeans` | crates/smasher-attractor/src/composition.rs:185-211 | a round takes the first sub-pipeline node in list order; which of the four errors it reports, exactly, or the composed graph with the file that its `pipeline` attribute names |
| `SubPipelines.RoundsRepeat` | crates/smasher-attractor/src/composition.rs:188-213 | a graph without sub-pipeline nodes is left alone, and an error ends the loop |
| `SubPipelineEnding.Apply` | crates/smasher-attractor/src/composition.rs:185-211 | on every input on which the loop ends at all it computes the iterated inlining, and on success no sub-pipeline node is left |
| `SubPipelineEnding.EndsIff` | crates/smasher-attractor/src/composition.rs:185-211 | for unique prefix-free identifiers and dot-free files, the loop runs without end if and only if something refers into a cycle of files and nothing that is pulled in fails to load |
| `SubPipelineEnding.CompletesIff` | crates/smasher-attractor/src/composition.rs:185-211 | for such identifiers, inlining completes if and only if nothing refers into a cycle of files and everything pulled in can be loaded |
| `SubPipelineEnding.EndsWithoutCycle` | crates/smasher-attractor/src/composition.rs:185-211 | without a reference into a cycle the loop ends, whatever cycles other files form and whatever the identifiers are |
| `SubPipelineEnding.RankedIffAcyclic` | crates/smasher-attractor/src/composition.rs:185-211 | the ranking that the weight needs exists if and only if no set of files refers into itself |
| `SubPipelineEnding.HasItsTurn` | crates/smasher-attractor/src/composition.rs:189-193 | every sub-pipeline node of a run without end is inlined at some round |
| `SubPipelineEnding.SelfReferenceRunsForever` | crates/smasher-attractor/src/composition.rs:185-211 | a file that contains a node for itself makes the loop run without end |
| `SubPipelines.IterateEnds` | crates/smasher-attractor/src/composition.rs:185-211 | as many rounds as the weight are enough |
| `SubPipelines.RoundDrops` | crates/smasher-attractor/src/composition.rs:207-211 | a round lowers the weight, and by exactly one when identifiers are unique |
| `SubPipelines.FlatFilesTakeOneRoundEach` | crates/smasher-attractor/src/graph/mod.rs:178-191 | for files without sub-pipeline nodes, which is all that the shape table can produce, there is one round for each sub-pipeline node |
| `SubPipelineRuns.SourceIsSound` | crates/smasher-attractor/src/composition.rs:185-186 | a graph with unique dot-free identifiers is a valid start |
| `SubPipelineRuns.RoundKeepsIds` | crates/smasher-attractor/src/composition.rs:185-211 | a round keeps identifiers unique and prefix-free, and the start and exit nodes unchanged |
| `SubPipelineRuns.RoundKeeps` | crates/smasher-attractor/src/composition.rs:185-211 | and, without self-loops on sub-pipeline nodes, it leaves no edge dangling |
| `SubPipelineRuns.RoundsKeepIds` | crates/smasher-attractor/src/composition.rs:185-211 | after any number of rounds, over any map of files with unique dot-free identifiers, no identifier collides or nests and the boundary is the original one |
| `SubPipelineRuns.RoundsKeep` | crates/smasher-attractor/src/composition.rs:185-211 | and no edge dangles, if none did at first and no sub-pipeline node has a self-loop |
| `SubPipelineRuns.RoundsWeigh` | crates/smasher-attractor/src/composition.rs:185-211 | under acyclic references every round so far lowered the weight by exactly one |
| `SubPipelineRuns.UniqueIffNoCollision` | crates/smasher-attractor/src/composition.rs:76-97 | for any identifiers, one inlining keeps them unique if and only if no remaining node already bears the name of an inlined one |
| `SubPipelineRuns.DottedIdsCollide` | crates/smasher-attractor/src/composition.rs:37-42 | a parent node `p.x` collides with the child `x` of the sub-pipeline node `p` |
| `SubPipelineRuns.InlinedUnique` | crates/smasher-attractor/src/composition.rs:76-97 | inlining a graph with dot-free identifiers below a node of a prefix-free graph makes no identifier collide or nest |
| `SubPipelineRuns.BoundaryKept` | crates/smasher-attractor/src/composition.rs:83-97 | inlining leaves the start and exit nodes exactly the original ones |
| `SubPipelineRuns.SucceedsIffLoadable` | crates/smasher-attractor/src/composition.rs:196-210 | inlining succeeds if and only if every sub-pipeline node, also in the files pulled in, names a loadable file with a start and an exit |
| `SubPipelineRuns.ApplyCorrect` | crates/smasher-attractor/src/composition.rs:180-214 | success if and only if loadable; the result has no sub-pipeline node, the original boundary and, for sources without dangling edges and self-looped sub-pipeline nodes, no dangling edge; and no smaller number of rounds is enough |
| `SubPipelineRuns.CyclesNeverFinish` | crates/smasher-attractor/src/composition.rs:185-211 | once a graph refers into a cycle of files, no number of rounds completes the inlining |
| `InliningOrder.Diamond` | crates/smasher-attractor/src/composition.rs:185-211 | two possible rounds can be done in either order, with the same result up to list order |
| `InliningOrder.OrdersAgree` | crates/smasher-attractor/src/composition.rs:185-211 | for unique prefix-free identifiers and dot-free files, all complete orders of rounds end in the same graph up to list order, whatever cycles unrelated files form |
| `InliningOrder.ApplyIsCanonical` | crates/smasher-attractor/src/composition.rs:185-211 | and where a complete order exists the transform, which always takes the first node, ends in that graph |
| `Goals.CheckAgreesWithEnforce` | crates/smasher-attractor/src/goals.rs:170-218 | the exit check fails if and only if the final enforcement fails, and its goal is the first one reported, so the enforcement error of the exit branch always exists |
| `Goals.ReportIsExact` | crates/smasher-attractor/src/goals.rs:197-218 | the report lists exactly the goals without a successful outcome, with the right reason |
| `Goals.GoalIdsExact` | crates/smasher-attractor/src/goals.rs:75-90 | the goals are exactly the identifiers of the nodes that carry the goal flag |
| `Goals.GoalPositions` | crates/smasher-attractor/src/goals.rs:75-90 | the goals are the identifiers, each once and in list order, of exactly the nodes with `goal_gate=true`, or with `goal=true` and no `goal_gate` at all |
| `Goals.ReportPositions` | crates/smasher-attractor/src/goals.rs:197-218 | the report names exactly the goals without a success or partial success, each once and in goal order |
| `Goals.GoalGate.Check` | crates/smasher-attractor/src/goals.rs:103-118 | every goal is met or unmet, never both, in goal order, by being visited |
| `Goals.GoalGate.CheckOutcomes` | crates/smasher-attractor/src/goals.rs:170-192 | succeeds if and only if every goal has a successful outcome, and otherwise returns the first that has not |
| `Engine.LoopCounter.Increment` | crates/smasher-attractor/src/engine.rs:187-190 | adds one to the count of one edge and changes no other |
| `Engine.BuildCheckpoint` | crates/smasher-attractor/src/engine.rs:900-913 | the saved visited list is the visited list with repeats dropped |
| `Engine.Execution.RecordOutcome` | crates/smasher-attractor/src/engine.rs:546-648 | outcome, visited list, step count, context and failure counts after a node ran |
| `Engine.Execution.TrackFailure` | crates/smasher-attractor/src/engine.rs:650-686 | a failure adds one to its own signature, a success clears those of its node, and the rest stays |
| `Engine.Execution.AutoSave` | crates/smasher-attractor/src/engine.rs:688-723 | saves the state after the node, under the name of that node |
| `Engine.Execution.LeaveExit` | crates/smasher-attractor/src/engine.rs:725-755 | the exit branch finishes, jumps or fails as specified |
| `Engine.Execution.TraverseEdge` | crates/smasher-attractor/src/engine.rs:772-826 | restart bookkeeping, removal of the source's context entries, context carry-over, next node |
| `Engine.Execution.LeaveOnward` | crates/smasher-attractor/src/engine.rs:757-866 | edge, retry jump, end or unroutable failure as specified |
| `Engine.Execution.Iteration` | crates/smasher-attractor/src/engine.rs:520-866 | one pass through the loop body refines one step of the state machine, and saves exactly the checkpoint of that step |
| `Engine.Execution.Loop` | crates/smasher-attractor/src/engine.rs:433-926 | the whole loop refines the run of the state machine, with its result and every checkpoint it saves |
| `Engine.Engine.Execute` | crates/smasher-attractor/src/engine.rs:391-408 | the run from the one start node, or the error for none or several |
| `Engine.Engine.RunFromCheckpoint` | crates/smasher-attractor/src/engine.rs:414-430 | the run from the state that the checkpoint describes, its snapshot written over the given context |
| `EngineRuns.RunHasTrail` | crates/smasher-attractor/src/engine.rs:433-883 | a successful run is a chain of steps from its start to its final state |
| `EngineRuns.StepsBounded` | crates/smasher-attractor/src/engine.rs:520-529 | a run executes at most `max_steps` nodes and reports exactly the number executed |
| `EngineRuns.MovesAreLegal` | crates/smasher-attractor/src/engine.rs:725-867 | consecutive executed nodes are joined by the selected edge of the graph, by the retry target of an unsatisfied goal at an exit node, or by the retry target of a failed node at which no edge was selected |
| `EngineRuns.TrailIsFaithful` | crates/smasher-attractor/src/engine.rs:642-648 | at any point the visited list is the executed trace with repeats dropped, its nodes are exactly those with outcomes, and each outcome is that of the node's last execution |
| `EngineRuns.CompletedRunIsFaithful` | crates/smasher-attractor/src/engine.rs:881-883 | the same for a completed run, in which moreover the last execution of every goal node succeeded |
| `EngineRuns.ResultCountsRestarts` | crates/smasher-attractor/src/engine.rs:776-783 | the loop counter in the result of a completed run: its total is the number of restart edges taken, and each of its counts the number taken between those two nodes |
| `EngineRuns.RestartsCounted` | crates/smasher-attractor/src/engine.rs:776-783 | at any point of a run the total of the counter has grown by the restart edges taken |
| `EngineRuns.RestartsCountedPerEdge` | crates/smasher-attractor/src/engine.rs:186-197 | and so has each count by those taken between its two nodes |
| `EngineRules.LabelTellsOutcome` | crates/smasher-attractor/src/engine.rs:757-765 | before edges are selected the context tells success or partial success, failure, retry and skip apart under `outcome`, and nothing else in it changes |
| `EngineRules.EdgeTellsOutcome` | crates/smasher-attractor/src/engine.rs:757-826 | it still does after every edge, restart edges included |
| `EngineRules.EndTellsOutcome` | crates/smasher-attractor/src/engine.rs:757-867 | and at the end of a run that ends away from an exit |
| `EngineRules.OutcomeTakesItsEdge` | crates/smasher-attractor/src/engine.rs:757-771 | in every language in which `outcome=w` compares with the entry, a node with an edge for success and one for failure is left along the one for its outcome |
| `EngineRules.RestartClears` | crates/smasher-attractor/src/engine.rs:792-801 | a restart edge clears exactly the entries named after the node that it leaves, and every other edge nothing |
| `EngineRules.FidelityComesLast` | crates/smasher-attractor/src/engine.rs:812-823 | context-fidelity processing gets the ends of the edge and what was left after that |
| `EngineRules.RetryTargetOrder` | crates/smasher-attractor/src/engine.rs:229-264 | the retry target is the first non-empty text of node target, node fallback, graph target and graph fallback |
| `EngineRules.FailuresOfAStep` | crates/smasher-attractor/src/engine.rs:520-545 | a step at the limit, at an unknown node, with a failure that has neither an edge nor a retry target, or with a condition that does not parse fails with the error for it, and with the limit as its error only at the limit |
| `EngineRules.FailuresAtExit` | crates/smasher-attractor/src/engine.rs:728-755 | an exit with an unsatisfied goal goes to the retry target of the first one, and fails with all of them if there is no target, or if the target names no node |
| `EngineRules.EndEnforcesGoals` | crates/smasher-attractor/src/engine.rs:879-883 | a run at its end succeeds if and only if every goal has succeeded, and otherwise reports all that have not |
| `EngineRules.ResultIsFaithful` | crates/smasher-attractor/src/engine.rs:901-926 | the result of a completed run: first executions in order, the outcome of every last execution, the number of executions, the last context, and a checkpoint of these if and only if checkpointing is on |
| `EngineRules.SavedIsFaithful` | crates/smasher-attractor/src/engine.rs:688-699 | a saved checkpoint names the node just executed and has the context and outcomes after it |
| `EngineRules.SavedUnlessAborted` | crates/smasher-attractor/src/engine.rs:650-723 | a step saves its checkpoint if and only if its node has run and is not caught in a failure cycle, even if the step then fails |
| `FinalCheckpoints.FinalCheckpointNamesLastIff` | crates/smasher-attractor/src/engine.rs:888-913 | the checkpoint returned with the result names the node executed last if and only if no node ran for the first time after that one first did |
| `FinalCheckpoints.FinalCheckpointMisnames` | crates/smasher-attractor/src/engine.rs:888-913 | for every condition language, all handlers that succeed and every context, a pipeline that runs start, exit, goal and exit, and returns a checkpoint naming the goal |
| `FailureCycles.CountsAreExact` | crates/smasher-attractor/src/engine.rs:650-686 | each count is the number of failures of that node with that error since the node's last success or partial success |
| `FailureCycles.CountsStayBelow` | crates/smasher-attractor/src/engine.rs:664-676 | while a run goes on every count is below the limit |
| `FailureCycles.AbortIsExact` | crates/smasher-attractor/src/engine.rs:664-676 | a step aborts if and only if the node has now failed that often with that error, and reports exactly the limit |
| `FailureCycles.Pigeonhole` | crates/smasher-attractor/src/engine.rs:650-686 | failed steps are at most the number of different failures times the bound on each |
| `FailureCycles.FailedStepsBounded` | crates/smasher-attractor/src/engine.rs:650-686 | a stretch without success in which only K different failures occur has at most K * (limit - 1) failed steps |
| `Resume.RoutingContinues` | crates/smasher-attractor/src/engine.rs:650-867 | a state with the same books and no higher failure counts routes as the older one did and is never aborted earlier |
| `Resume.RunContinues` | crates/smasher-attractor/src/engine.rs:414-430 | hence from any such state the rest of a completed run completes with the same books |
| `Resume.ResumedFrom` | crates/smasher-attractor/src/engine.rs:414-430 | a run is resumed at the node of the checkpoint with its visited list and outcomes, counting afresh; each entry of the snapshot overwrites the given context, and all other entries of the context stay |
| `Resume.SnapshotWinsIff` | crates/smasher-attractor/src/engine.rs:423-426 | the given context plays no part if and only if the snapshot has all of its keys |
| `Resume.ResumeCompletesTheRun` | crates/smasher-attractor/src/engine.rs:688-699 | a completed run of n steps, fresh or resumed itself, resumed from the checkpoint of step i (counting from 0) whose node is idempotent there, into any context whose keys the snapshot has, completes with the same visited list, outcomes and context in n - i steps |
| `Resume.CheckpointsOfTrail` | crates/smasher-attractor/src/engine.rs:688-723 | an uninterrupted run saves exactly one checkpoint for each step, in order |
| `Resume.CancelledSavesArePrefix` | crates/smasher-attractor/src/engine.rs:688-723 | what a run saved before it was cancelled is the beginning of what it would have saved |
| `Resume.EveryCheckpointResumes` | crates/smasher-attractor/src/engine.rs:410-430 | a run that would succeed when left alone, fresh or resumed itself, can be cancelled at any step and resumed from every checkpoint saved by then, into any context whose keys the snapshot has, if the node named there is idempotent, with the visited list, outcomes and context of the uninterrupted run |
| `Resume.EveryInterruptionResumes` | crates/smasher-attractor/src/engine.rs:410-430 | and so it can any number of times, each time from some checkpoint of the run interrupted |
| `InlinedRuns.TrailIsWalk` | crates/smasher-attractor/src/engine.rs:757-826 | a run without retry jumps is a walk of the graph |
| `InlinedRuns.InlinedRunIsHierarchical` | crates/smasher-attractor/src/composition.rs:44-48 | such a run of a composed pipeline between outer nodes is a parent walk in which every stay in the sub-graph goes from its start to its exit |
| `InlinedRuns.InlinedRunFollowsParent` | crates/smasher-attractor/src/composition.rs:44-48 | at an outer node a composed run moves where the parent pipeline would have moved from the same context and outcome, and where the parent selects no edge it ends or takes the node's retry target |
| `SubGraphRuns.CrossingIsSubRun` | crates/smasher-attractor/src/composition.rs:137-148 | a stretch of a composed run through the inlined sub-graph is a fresh run of the sub-graph as a pipeline of its own, from the same context up to its exit, and comes to the same outcome and context |
| `SubGraphRuns.SubRunIsCrossing` | crates/smasher-attractor/src/composition.rs:137-148 | conversely such a run is a stretch of a composed run from every state at the inlined start with that context, if steps are left and the failures that it adds stay below the limit |
| `SubGraphRuns.SubRunUnique` | crates/smasher-attractor/src/engine.rs:433-883 | a sub-graph has at most one such run from each context |
| `SubGraphRuns.HierarchyCrosses` | crates/smasher-attractor/src/composition.rs:44-48 | the handler that runs the sub-graph on its own returns the outcome and the context of every crossing of the inlined sub-graph |
| `HierarchicalRuns.ParentFollows` | crates/smasher-attractor/src/composition.rs:44-48 | a composed run along edges between outer nodes is a run of the parent pipeline in which the replaced node is handled by running the sub-graph on its own: through the projected nodes, to the same node, context, outcomes and failure counts, under any failure limit |
| `HierarchicalRuns.OuterGoes` | crates/smasher-attractor/src/composition.rs:99-148 | at matching outer states both pipelines go along an edge and its image, or neither goes along an edge, also when the failure limit is reached |
| `HierarchicalRuns.ExitGoes` | crates/smasher-attractor/src/composition.rs:123-135 | so they do at the inlined exit and at the replaced node |
| `LiftedRuns.ParentLifts` | crates/smasher-attractor/src/composition.rs:44-48 | conversely such a run of the parent is the projection of a composed run, if steps are left for the inner nodes and the failures they hold, with those that the inner runs add, stay below the limit |
| `NestedRuns.TransformedRunIsNested` | crates/smasher-attractor/src/composition.rs:180-214 | over all rounds: a fresh run along edges of the transformed pipeline, to a node of the original one, is a run of the original pipeline in which sub-pipelines run inside each other, to the same node and context and with the same outcomes of the original nodes |
| `NestedRuns.HierarchyStaysNeutral` | crates/smasher-attractor/src/composition.rs:185-211 | outcomes that suggest two nodes alike still do so after a round is undone |
| `InlinedGoals.GoalsInlined` | crates/smasher-attractor/src/composition.rs:75-97 | the goals after inlining are those of the other parent nodes and the prefixed ones of the sub-graph; a goal flag on the replaced node is lost |
| `InlinedGoals.GoalChecks` | crates/smasher-attractor/src/goals.rs:197-218 | the final check of the composed pipeline passes if and only if the other goals of the parent and all goals of the sub-graph are met, that of the parent if and only if the other goals are and, when the replaced node is a goal, the exit has met it |
| `InlinedGoals.CompletedRunHasParent` | crates/smasher-attractor/src/engine.rs:725-883 | a composed run along edges that completes at an outer node is a completed run of the parent pipeline with the same final context and outcomes, unless the replaced node is a goal that the exit has not met |
| `Crossings.CrossingsAgree` | crates/smasher-attractor/src/composition.rs:44-48 | what a run through the inlined sub-graph comes to depends on the context at its start only |
| `Crossings.CarriedAlikeIff` | crates/smasher-attractor/src/engine.rs:782-826 | without context-fidelity processing, the edges at the replaced node carry the context on as before if and only if no restart edge leaves it |
| `Crossings.CarriedInsideIff` | crates/smasher-attractor/src/engine.rs:782-826 | and an inlined edge does so if and only if it is not a restart edge |
| `InlinedRuns.RetryTargetsLeaveTheSubGraph` | crates/smasher-attractor/src/composition.rs:91-96 | retry targets are not prefixed: a dot-free target never names an inlined node, and the jump fails if and only if no remaining parent node bears the name |
| `LoopDetection.CountTrailingRepetitions` | crates/smasher-agent/src/loop_detection.rs:107-123 | the exact number of trailing copies of the last block, 0 when there is no such block |
| `LoopDetection.RepeatsAreCopies` | crates/smasher-agent/src/loop_detection.rs:107-123 | to repeat a block k times is to end with k copies of it, in name and arguments hash |
| `LoopDetection.LoopDetector.Record` | crates/smasher-agent/src/loop_detection.rs:56-65 | the history is the last `window_size` signatures recorded since the last reset |
| `LoopDetection.LoopDetector.DetectLoop` | crates/smasher-agent/src/loop_detection.rs:71-91 | nothing if and only if no block repeats often enough, otherwise the shortest such block with all its trailing copies |
| `LoopDetection.LoopDetector.Reset` | crates/smasher-agent/src/loop_detection.rs:94-96 | forgets everything recorded |
| `LoopDetection.WindowRepeats` | crates/smasher-agent/src/loop_detection.rs:56-65 | the window repeats a block k times if and only if the stream does and the k copies fit the window |
| `LoopDetection.WindowAgreesWithStream` | crates/smasher-agent/src/loop_detection.rs:56-91 | the windowed detector finds a block if and only if the whole stream repeats it often enough within the window, and counts the copies that fit |
| `LoopDetection.PowerRepeats` | crates/smasher-agent/src/loop_detection.rs:71-91 | a block that is a power of a shorter one is repeated by the shorter one at least as often |
| `LoopDetection.ReportedBlockIsPrimitive` | crates/smasher-agent/src/loop_detection.rs:71-91 | the reported block is never a proper power of a shorter block |
| `LoopDetection.DetectionUnique` | crates/smasher-agent/src/loop_detection.rs:71-91 | the promise determines the report |
| `LoopDetection.RepeatsOneCallEarlier` | crates/smasher-agent/src/loop_detection.rs:56-65 | one repetition too many was one repetition enough before the last call, also across trimming |
| `LoopDetection.CaughtAtTheMinimum` | crates/smasher-agent/src/loop_detection.rs:71-91 | checked after every call, a loop is caught at exactly `min_repetitions` |
| `Session.PendingPairs` | crates/smasher-agent/src/session.rs:385-432 | in a well-paired conversation the result identifiers, in order, followed by the pending ones are the call identifiers, in order |
| `Session.PendingPrefix` | crates/smasher-agent/src/session.rs:385-432 | every prefix of a well-paired conversation is well paired, so a result never precedes its call |
| `Session.Session.constructor` | crates/smasher-agent/src/types/mod.rs:223-236 | a new session is active and satisfies the invariant |
| `Session.Session.Steer` | crates/smasher-agent/src/session.rs:499-507 | queues the text last and keeps the invariant |
| `Session.Session.AddUserMessage` | crates/smasher-agent/src/types/mod.rs:239-244 | adds the message and its turn, with nothing else changed |
| `Session.Session.AddAssistantResponse` | crates/smasher-agent/src/types/mod.rs:247-259 | adds the reply and one turn, and makes exactly its calls pending |
| `Session.Session.AddToolResult` | crates/smasher-agent/src/session.rs:418-432 | answers the first pending call |
| `Session.Session.ApplySteering` | crates/smasher-agent/src/session.rs:266-275 | injects all queued texts, each once and in order, and leaves the pairing alone |
| `Session.Session.WatchForLoop` | crates/smasher-agent/src/session.rs:434-458 | without a loop nothing is said; a loop is reported at exactly `min_repetitions`, warned about once, and forgotten |
| `Session.Session.ExecuteTools` | crates/smasher-agent/src/session.rs:385-459 | every call of the response is answered, in order, by its own truncated output and error flag, whatever warnings come between |
| `Session.Session.TakeArrivals` | crates/smasher-agent/src/session.rs:461-470 | steering that arrived during the tools is injected behind what was queued |
| `Session.Session.CallModel` | crates/smasher-agent/src/session.rs:318-319 | only a conversation without open calls is sent |
| `Session.EndIsExact` | crates/smasher-agent/src/session.rs:308-383 | each way in which a round ends has its exact condition on the flags, the answer and the turn limit |
| `Session.Session.Round` | crates/smasher-agent/src/session.rs:308-478 | the turns a round adds, exactly: the response, its tool results, then steering that was queued and steering that arrived; every result carries the output of its own call; calls stay unanswered only when the session ends |
| `Session.Session.ProcessInput` | crates/smasher-agent/src/session.rs:251-496 | pairing, turn bound, conservation of steering, and activity over any sequence of calls; every tool turn and tool result carries the output of its own call; the answer is the model's reply to the conversation before it |
| `LogSink.BuildIndex` | crates/smasher-attractor/src/log_sink.rs:86-116 | each index list is exactly the sequence numbers that a scan finds, in order, and empty for other keys |
| `LogSink.ScanIsQuery` | crates/smasher-attractor/src/log_sink.rs:86-116 | and such a scan is the unlimited query for that node or that kind |
| `LogSink.QueryFile` | crates/smasher-attractor/src/log_sink.rs:403-428 | the loop with early exit computes the line-by-line reading |
| `LogSink.ReadingIsQuerying` | crates/smasher-attractor/src/log_sink.rs:410-427 | on a well-formed log, stopping early is filtering and then truncating, for every limit but 0, which acts as 1 |
| `LogSink.ReadingFails` | crates/smasher-attractor/src/log_sink.rs:415-424 | reading fails if and only if the first malformed line comes before the limit is met |
| `LogSink.FileQueryCorrect` | crates/smasher-attractor/src/log_sink.rs:403-428 | both of the above for a query from the start of the file |
| `LogSink.QueryFormsAgree` | crates/smasher-attractor/src/log_sink.rs:403-428 | on a well-formed log the file query answers as the in-memory query would if and only if the limit is not 0 or nothing matches |
| `LogSink.QueryPositions` | crates/smasher-attractor/src/log_sink.rs:181-213 | an unlimited query returns exactly the entries of the node and kinds asked for with a time from `since` to `until`, both included, each once and in order; a limit keeps the first of them |
| `LogSink.KindRoundTrip` | crates/smasher-attractor/src/log_sink.rs:216-240 | the text of a kind is read back as that kind and no other text is |
| `LogSink.YoungPositions` | crates/smasher-attractor/src/log_sink.rs:281-285 | exactly the entries no older than the maximum age stay, each once and in order |
| `LogSink.RetentionKeepsNewest` | crates/smasher-attractor/src/log_sink.rs:271-295 | retention keeps the newest entries of those young enough: a suffix of the age-filtered subsequence, whole when it fits |
| `LogSink.InMemoryLogSink.Append` | crates/smasher-attractor/src/log_sink.rs:312-327 | the next number, stored last |
| `LogSink.InMemoryLogSink.ApplyRetention` | crates/smasher-attractor/src/log_sink.rs:271-295 | what is kept, and how many entries went |
| `LogSink.InMemoryLogSink.QueryEntries` | crates/smasher-attractor/src/log_sink.rs:329-343 | filter, then truncate |
| `LogConcurrency.AlwaysAccounted` | crates/smasher-attractor/src/log_sink.rs:312-327 | under every interleaving of two-step appends and retention, stored, in-flight and removed numbers are together exactly 0 to counter - 1, each once |
| `LogConcurrency.NothingRemoved` | crates/smasher-attractor/src/log_sink.rs:312-327 | without retention nothing is removed, so stored and in-flight numbers alone are exactly those |
| `LogConcurrency.NumbersAreUnique` | crates/smasher-attractor/src/log_sink.rs:312-327 | no two entries ever share a number |
| `LogConcurrency.OrderedIffOldestFirst` | crates/smasher-attractor/src/log_sink.rs:381-401 | the log is in number order, counting what is in flight, if and only if every store took the oldest reservation |
| `LogConcurrency.RestartIsFreshIff` | crates/smasher-attractor/src/log_sink.rs:361-376 | from a log without gaps, after a crash: the number at which a restarted sink goes on exceeds every stored one if and only if everything stored is older than everything lost, and then there is still no gap |
| `LogConcurrency.RestartsAreFreshIff` | crates/smasher-attractor/src/log_sink.rs:361-376 | over any number of processes: every restart goes on above all stored numbers if and only if no process died with something stored that is younger than something lost, and then the log has every number once |
| `LogConcurrency.OvertakingRepeatsANumber` | crates/smasher-attractor/src/log_sink.rs:361-376 | two overlapping appends and a crash after which the restarted sink repeats a number |

## Left out

- Reading, parsing and writing of files: DOT parsing and path resolution become the finite file map, so of the load errors only "not found" remains; the JSON form of checkpoints and entries is not modelled.
- `SubPipelineEnding.Apply`: says nothing about inputs on which the loop does not end; `SubPipelineEnding.EndsIff` says which these are, for identifiers that are unique and prefix-free.
- `Engine.Execution.AutoSave`: keeps every checkpoint, where the code overwrites one file and ignores a failed write; as `Resume.EveryCheckpointResumes` covers every saved checkpoint, it covers the one in the file.
- `HierarchicalRuns.ParentFollows`: is about runs along edges, for pipelines in which edges carry the context on like their images, outcomes suggest nodes and their inlined forms alike, no parent node is named below the replaced one, and the sub-graph has one exit, which nothing leaves inside it. The nodes of the sub-graph on its own are handled as their inlined forms are, so what handlers make of an identifier or of a start or exit type is not compared.
- `InlinedGoals.CompletedRunHasParent`: is about runs that end at an outer node.
- `LiftedRuns.ParentLifts`: bounds the failures of inner nodes for each visit of the replaced node, because the composed run counts them over all visits and the parent does not count them.
- `NestedRuns.TransformedRunIsNested`: asks the same of every round as `HierarchicalRuns.ParentFollows` of one.
- `LogConcurrency.RestartsAreFreshIff`: a crash in the middle of a write leaves a partial line, which a restarted sink counts as an entry; entries are written whole here.
- `CompositionWalks.WalkCorrespondence`: asks that the replaced node has no self-loop and that no parent edge touches an inner name; both hold throughout the transform for source graphs with dot-free identifiers and without self-loops on sub-pipeline nodes (`SubPipelineRuns.RoundsKeep`).
- `CompositionSelection.SelectAtExit`: asks that nothing leaves the exit inside the sub-graph; `CompositionSelection.SelectAtAnyExit` has the general law.
- `InlinedRuns.InlinedRunIsHierarchical`: is about runs along edges, because retry targets are copied without prefixing.
- `Engine.Engine.RunFromCheckpoint`: the `version`, `created_at` and `node_index` fields of a checkpoint are not modelled; resuming reads none of them.
- `Resume.EveryCheckpointResumes`: the loop counter and the failure counts of the resumed run start from zero, as in the code, and are not claimed to agree with those of the whole run.
- `FailureCycles.CountsAreExact`: counts are keyed by node and error; the code keys them by a 64-bit hash of the two, so a hash collision is not modelled.
- `LoopDetection.LoopDetector.Record`: the hash of the tool arguments is an arbitrary function, and two argument texts with equal hashes count as equal, as in the code.
- `LoopDetection.LoopDetector.DetectLoop`: asks for a minimum of at least 1 repetition, because the code divides by it.
- `Session.Session.TakeArrivals`: steering cannot arrive while the code holds the session exclusively; arbitrary arrivals are allowed here, which is more general.
- `LogSink.QueryFile`: lock poisoning and I/O errors, and a missing log file, which reads as an empty one.
- Integer widths: turn numbers, steps, counters and sequence numbers are unbounded, so overflow is not modelled.
- The stall watchdog, sleeps, durations, timestamps taken from the clock, statistics, emitted events and artifacts.
- Inner retries and back-off, which are part of the handler; the text of the loop description and of the goal report, which are a function parameter and a list.
- Label normalisation on text, and the context-window tracker and token usage of the session.
- The members of the goal gate that look at a checkpoint, and its one-line projections: they repeat the checks above on another input.
- Linting, transforms other than inlining, artifacts, interviewers, sub-agents, the command line and the web dashboard.
