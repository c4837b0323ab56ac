# The harness runtime, modelled and proved in Dafny

This project models the parts of the agent harness that are state machines or loops, and proves what
they do over every input and every run. `dafny verify dfyconfig.toml` checks all of it.

| file | models |
|---|---|
| `TemporalMemory.dfy` | the `memory_items` table and the class whose methods are `remember`, `recall`, `invalidate` |
| `MemoryHistory.dfy` | whole serial runs of the store: as-of queries, conservation, scope isolation |
| `InterleavedInvalidation.dfy` | `invalidate` as two statements that interleave with other calls |
| `InterleavedHistory.dfy`, `InterleavedAnswers.dfy` | as-of queries over such interleaved runs, and which statements decide whether they are right |
| `Compaction.dfy` | `compact_history`: one call, and any sequence of appends and calls |
| `JsonPayload.dfy`, `FailureDetector.dfy` | the key of a failed call, and the repeated-failure counter |
| `Permissions.dfy`, `ToolRegistry.dfy` | the approval gate and the registry every call passes through |
| `Budgets.dfy` | the budget ledger |
| `SingleAgent.dfy`, `FanOut.dfy`, `Orchestrator.dfy` | the two flows, the second with its concurrent fan-out |
| `AgentLoop.dfy` | one turn, and any number of turns over one budget and one memory |
| `TurnOutcomes.dfy` | the exact condition of every stop reason of a turn, and what it answers |
| `KeywordSearch.dfy` | the retrieval server's search and fetch |
| `HarnessTypes.dfy`, `Decimals.dfy`, `Wrappers.dfy` | shared types and decimal numerals |

## How the model reads the program

- The table is a map by primary key. All timestamps come from one clock; the program mixes the
  application's clock with the database's `now()`. Chronological runs are those where it never goes back.
  A serial operation takes effect at the time it is stamped with. Interleaved statements take effect at times of
  their own: `remember` reads its clock before it has a connection, and `now()` in the UPDATE is when its
  transaction began.
- What the program calls but does not define comes in as data: the encoder, UUID text and the distance
  operator (`Externals`), the agent's tool calls, the handlers' replies, the approver's answer to each
  call, the extractor's facts, the route, whether the encoder or the database raises. All of it is
  arbitrary. An exception that escapes is a value of type `Exn`; `Other` is any exception the loop does not name.
- An agent may go on or stop after a call that raised, whether the exception was a plain failure or a
  repeated one: each step says which.
- SHA-256 is taken as injective, so a key is the text that is hashed.
- Money, time and utilization are exact.

## Where the code does not do what its words say

- "What did the agent know and when" is answered by the as-of query at every time exactly when each row's
  `valid_from` is its insertion time and its `valid_to` the time its closing took effect, rows that were closed
  as they came in aside, whose own interval only has to be empty (`AsOfReconstruction` for serial runs,
  `AsOfInterleaved` for all). In terms of the statements: the one that brought the row, the first UPDATE that
  closed it, and the last that stamped it (`AnswerableExactlyWhen`). Four things break it. An item that brings a
  `valid_from` other than the time it is remembered (`ItemKeepsHistoryExactlyWhen`). An INSERT that takes effect later
  than its caller read the clock: the query shows the row too early (`LateInsertShowsARowTooEarly`). One `invalidate`
  call whose UPDATE runs later than its transaction began: the query leaves the row out too early
  (`LateUpdateHidesALiveRow`). Two overlapping calls that select a row in common, because the UPDATE does not look
  at `valid_to` again (`OverlapRewritesClosingTime`); `ClosingsAreFinalExactlyWhen` says when a closing is final.
  Without stamps of the items' own, these two kinds of error are all there is, between the stamp of a statement and
  its effect (`ErrsBetweenStampAndEffect`); if every statement takes effect when it is stamped there is none
  (`InstantStatementsKeepHistory`).
- "Oldest entry is now short; re-evaluate on the next call" (harness/core/loop.py:102): the marker is never
  shorter than 238 characters and always counts as long. Later calls remove nothing. They rewrite the
  marker until it is one fixed text that says nothing of the message - at the eighteenth rewriting, not before
  (`FewerRewritingsRemember`) - and they bring the history under the threshold only if dropping short messages
  does, or 238 characters plus the rest are under it (`RepeatingHelpsExactlyWhen`).
- "The same tool+args+error combination": two failures share a key exactly when tool and error are equal and the
  arguments agree once sorted and read as UTF-16 units (`KeyTells`). Without surrogate code points that means
  equal arguments; with one, different failures may count as one (`DifferentFailuresShareAKey`).
- A denial in the single-agent flow never ends the turn as `permission_denied`: `execute` turns it into a
  failed result. Only a refused retrieval call of the orchestrator does (`PermissionDeniedExactlyWhen`), and
  none under a gate that allows read-only calls outright (`OpenReadsNeverEndDenied`).
- "Fail closed" holds of registered tools only: without a gate, those that do more than write internally are denied
  (`WithoutAGate`, `LookupWithoutAGate`), but the retrieval agent's calls all go through (`RetrievalWithoutAGate`).
- The orchestrator never looks at the budget (`OrchestratorIgnoresBudget`).
- The docstring of `RiskTier` calls only `read_only` auto-approved; the default matrix also allows
  `writes_internal`. The model follows the matrix.

## Model

| member | source | states |
|---|---|---|
| TemporalMemory.PgVectorMemoryStore.Remember | harness/memory/pgvector_store.py:49-77 | the new table is the old one after inserting the prepared rows in order; an encoder of the wrong size, a count mismatch, a bad id or an encoder or database that raises is an error that leaves the table alone; every call is counted |
| TemporalMemory.FirstWriteWins | harness/memory/pgvector_store.py:71-75 | existing rows are kept, the first row offered for a new id is the one stored, no other id appears |
| TemporalMemory.PreparedRowsAre | harness/memory/pgvector_store.py:38-68 | a batch is accepted if and only if it is empty, or the encoder gave one vector of 1536 numbers per item and every id parses; a wrong size is an assertion error, anything else a value error; each row then has the caller's scope, its item's content and vector, the store's encoder id, an open end, and the item's own valid_from if it has one |
| TemporalMemory.RecalledItemsAreKnown | harness/memory/pgvector_store.py:75-122 | remembering recalled items again, in any scope, changes nothing |
| TemporalMemory.PgVectorMemoryStore.SelectNearest | harness/memory/pgvector_store.py:82-93 | min(k, live) distinct live rows of the scope in distance order, with no omitted live row strictly closer |
| TemporalMemory.NearestByDistance | harness/memory/pgvector_store.py:82-93 | nearest means by the distance of the stored embedding from the vector asked for |
| TemporalMemory.PgVectorMemoryStore.Recall | harness/memory/pgvector_store.py:79-122 | when recall succeeds, and that it returns such rows in that order, each with its own content, source, stamp, encoder and shown id, the scope asked for and no end; every call is logged |
| TemporalMemory.RememberedIsRecalled | harness/memory/pgvector_store.py:49-122 | after a batch is accepted, a recall of its scope with k at least the number of live rows answers, for every item with a new id, that item's content and source under the scope of the call, the store's encoder id, the item's valid_from or the time of the call, no valid_to and the shown id |
| TemporalMemory.PgVectorMemoryStore.Invalidate | harness/memory/pgvector_store.py:96-110 | closes exactly the live rows of the scope that match and returns their number |
| TemporalMemory.PredicateSeesTheRow | harness/memory/pgvector_store.py:98-122 | a row is closed if and only if it is live, of the scope, and its own content, source, stamp, encoder and id, shown as an item, pass the predicate; no other row changes |
| TemporalMemory.ClosesByContent | harness/memory/pgvector_store.py:106-122 | invalidating by content closes exactly the live rows of the scope whose content column is that content |
| MemoryHistory.ApplyKeepsRows | harness/memory/pgvector_store.py:49-110 | one operation drops no row, changes no column but valid_to, and only closes rows that were live |
| MemoryHistory.AsOfReconstruction | harness/memory/pgvector_store.py:49-110 | in a chronological serial run, the as-of query over the final table gives the rows live at every past time if and only if each row's valid_from is its insertion time, or the row was closed at that moment with a valid_from no earlier |
| MemoryHistory.HistoryIsAnswerable | harness/memory/pgvector_store.py:1-7 | in a serial run with no explicit valid_from, whose operations take effect when they are stamped, the query is right at every time |
| MemoryHistory.BackdatedRowRewritesHistory | harness/memory/pgvector_store.py:65 | in any chronological run, a row stamped before it was inserted is shown at its stamp, when it was not live |
| MemoryHistory.ItemKeepsHistoryExactlyWhen | harness/memory/pgvector_store.py:65 | an accepted item with a new id, at the end of any serial run about which the query is right, keeps it right if and only if it brings no valid_from, or the time it is remembered |
| MemoryHistory.BackdatedItemRewritesHistory | harness/memory/pgvector_store.py:65 | after any chronological run, an accepted item with a new id and a stamp in the past is shown at its stamp, when it was not live |
| MemoryHistory.Conservation | harness/memory/pgvector_store.py:49-110 | one row per id ever remembered, live plus closed is all, and the returned counts sum to the closed rows |
| MemoryHistory.OtherScopesAreUntouched | harness/memory/pgvector_store.py:86 | an operation on one scope changes no row and no recall candidate of another |
| MemoryHistory.ScopeIsolation | harness/memory/pgvector_store.py:49-110 | over a run, a scope's rows are those of the run without the other scopes if and only if no other scope was first to write an id it remembered |
| InterleavedInvalidation.ClosedStaysClosed | harness/memory/pgvector_store.py:96-110 | however SELECTs, UPDATEs and inserts interleave, no row disappears, no closed row opens, no other column changes |
| InterleavedInvalidation.InterleavedAccounting | harness/memory/pgvector_store.py:97-110 | when all calls have finished, the rows closed are the union of the selected sets; the returned counts sum to at least that, and to exactly that if and only if the sets are pairwise disjoint |
| InterleavedInvalidation.UndisturbedCallInvalidates | harness/memory/pgvector_store.py:97-110 | a SELECT and its UPDATE at one time, with nothing between, do what the serial `invalidate` does |
| InterleavedInvalidation.ClosingsAreFinalExactlyWhen | harness/memory/pgvector_store.py:97-109 | under any interleaving, no closed row ever changes again if and only if finished calls that selected a row in common began at one time |
| InterleavedInvalidation.DisjointClosingsAreFinal | harness/memory/pgvector_store.py:109 | so closings are final when no row is selected twice |
| InterleavedInvalidation.OverlapRewritesClosingTime | harness/memory/pgvector_store.py:98-109 | two overlapping calls close one row at 5 and then at 3, and both count it |
| InterleavedHistory.LiveViewFromLifetimes | harness/memory/pgvector_store.py:79-110 | under any interleaving, the rows live at a past time are those of the final table inserted by then and not yet closed by then |
| InterleavedHistory.AsOfInterleaved | harness/memory/pgvector_store.py:1-7 | under any interleaving, the as-of query is right at every time if and only if each row's valid_from is its insertion time and its valid_to the time its closing took effect, or it was closed as it came in and its own interval is empty |
| InterleavedAnswers.BroughtBy | harness/memory/pgvector_store.py:57-76 | a row was inserted when the first statement that brought its id took effect, with the stamp of its first offer |
| InterleavedAnswers.ClosedBy | harness/memory/pgvector_store.py:97-109 | a row was closed when the first UPDATE of a call that selected it ran, and bears the time at which the call of the last such UPDATE began |
| InterleavedAnswers.AnswerableExactlyWhen | harness/memory/pgvector_store.py:1-7 | under any interleaving and with any stamps, the as-of query is right at every time if and only if for each id brought the first offer is stamped with the time its INSERT took effect and, if some call closed it, the call of the last UPDATE began when the first one ran; or the first UPDATE ran as the row came in, and that call began no later than the stamp |
| InterleavedAnswers.UnstampedIsAnswerableExactlyWhen | harness/memory/pgvector_store.py:57-109 | the same with no explicit valid_from: the stamp is the clock as the caller read it |
| InterleavedAnswers.ErrsBetweenStampAndEffect | harness/memory/pgvector_store.py:57-109 | with no explicit valid_from, a row is shown but was not live exactly from the reading of the clock until its INSERT took effect, unless stamped closed by then; it was live but is not shown exactly from the start of the last call that stamped it until the first UPDATE that closed it |
| InterleavedHistory.ClosingTimesAreNeverLate | harness/memory/pgvector_store.py:109 | no valid_to is later than the moment the row was closed |
| InterleavedHistory.SnapshotErrsExactlyWhen | harness/memory/pgvector_store.py:57-109 | with no explicit valid_from, the rows wrongly shown are those with valid_from but not yet their insertion in the past and still open, the rows wrongly left out are those inserted, with valid_to but not yet their closing in the past |
| InterleavedHistory.LateInsertShowsARowTooEarly | harness/memory/pgvector_store.py:57-76 | one insert alone: a row is shown at 4 that no recall finds before 5, because the clock was read at 3 |
| InterleavedHistory.LateUpdateHidesALiveRow | harness/memory/pgvector_store.py:97-109 | one call alone: a row live at 4 is not shown at 4, because its UPDATE ran at 5 in a transaction begun at 3 |
| InterleavedHistory.InstantStatementsKeepHistory | harness/memory/pgvector_store.py:57-109 | if every INSERT takes effect when its clock was read, every UPDATE when its transaction began, and no item brings a stamp, the query is right at every time |
| Compaction.EstimateUtilization | harness/core/loop.py:78-85 | characters over four over the window, and zero for no window |
| Compaction.UnderTheThreshold | harness/core/loop.py:82-85 | under the threshold means fewer characters than the threshold times four times the window; more, for a negative window; and a positive threshold, for no window |
| Compaction.CompactHistory | harness/core/loop.py:88-104 | the loop computes the compaction that the lemmas below describe |
| Compaction.MarkerSays | harness/core/loop.py:101 | a marker is the first 200 characters of its message and a numeral whose value is the message's length |
| Compaction.SingleCall | harness/core/loop.py:94-104 | a result is right if and only if it is the input without a prefix of short messages, each dropped while still at or over the threshold, then either unchanged because under it or of one message, or with its long first message replaced by the marker |
| Compaction.NewestIsKept | harness/core/loop.py:97 | the newest message comes through verbatim |
| Compaction.SizeBound | harness/core/loop.py:97-104 | a call adds at most 37 characters, none without truncation, and shrinks the history when the truncated message has 239 or more |
| Compaction.SizeBoundIsTight | harness/core/loop.py:100-101 | a 201-character head costs exactly 37 |
| Compaction.OnlyTheHeadChanges | harness/core/loop.py:97-104 | once the head is long, any appends and calls, with any limits, keep every other message; the head is rewritten once per call that is over |
| Compaction.HeadLength | harness/core/loop.py:101 | a marker has at least 238 characters, and 238 is the only length that rewriting keeps |
| Compaction.HeadLengthConverges | harness/core/loop.py:101-102 | how many rewritings bring any text to 238 characters |
| Compaction.RewritingForgetsTheMessage | harness/core/loop.py:101-102 | after eighteen rewritings - more only for a message whose length has over 764 digits - the head is the same text for every message and stays so |
| Compaction.FewerRewritingsRemember | harness/core/loop.py:101-102 | after n of up to seventeen rewritings two heads are equal only if the messages agree in their first 212 - 12 n characters, and, lengths being equal, if they do |
| Compaction.TruncatedHistorySettles | harness/core/loop.py:88-104 | the same over whole sequences of appends and calls |
| Compaction.RepeatingHelpsExactlyWhen | harness/core/loop.py:94-104 | for every history and window: some number of calls gets it under the threshold if and only if what is left after dropping short messages is under it, or would be with a head of 238 characters before the rest |
| JsonPayload.PrintTells | harness/core/loop.py:59-63 | a printed value and what follows it can be read back from the characters |
| JsonPayload.DumpsTells | harness/core/loop.py:59-63 | two values print alike if and only if they agree after sorting members and taking strings as UTF-16 units |
| JsonPayload.DumpsIsInjective | harness/core/loop.py:59-63 | without surrogates, they print alike if and only if they are equal |
| JsonPayload.SurrogatePairsCollide | harness/core/loop.py:59-63 | two different strings with one printed form |
| JsonPayload.SortedKeysUnique | harness/core/loop.py:61 | sorting members by key has one outcome |
| FailureDetector.PayloadShape | harness/core/loop.py:59-63 | the hashed text is args, error, tool, in this order, with the default separators |
| FailureDetector.KeyTells | harness/core/loop.py:57-64 | keys are equal if and only if tool and error are, and the arguments agree after sorting members and taking strings as UTF-16 units |
| FailureDetector.PaperTellsFailures | harness/core/loop.py:57-64 | without surrogates that means equal arguments |
| FailureDetector.DifferentFailuresShareAKey | harness/core/loop.py:57-75 | two calls with different arguments share a key, and the second raises |
| FailureDetector.RepeatedFailureDetector.Record | harness/core/loop.py:66-75 | counts a failure under its key and raises if and only if the count reaches the limit; a success changes nothing |
| FailureDetector.TripsOnTheNthRepetition | harness/core/loop.py:48-75 | recording raises if and only if this is at least the max_repeats-th failure with the same tool, error and sorted UTF-16 arguments |
| FailureDetector.TripsOnTheNthIdenticalFailure | harness/core/loop.py:48-75 | the max_repeats-th failure with the same tool, arguments and error always raises, and without surrogates nothing else does |
| FailureDetector.PigeonholeBound | harness/core/loop.py:66-75 | a run that never raises and shows D distinct failures has at most D * (max_repeats - 1) failed calls |
| Permissions.GoesThroughExactlyWhen | harness/core/permissions.py:49-91 | a call passes if and only if its tier is listed as allowed, or is listed as needing approval or not listed, and a configured callback approves |
| Permissions.DefaultGateAllows | harness/core/permissions.py:37-42 | the default gate lets through what only reads or writes internally, and nothing else |
| Permissions.DenialReads | harness/core/permissions.py:77-91 | the three texts of a denial, and which one is raised when |
| Permissions.FailsClosed | harness/core/permissions.py:55-84 | without a callback, every tier not allowed outright is denied, listed or not |
| Permissions.DenialTextIsFixed | harness/core/permissions.py:73-91 | under one gate all denials of one tool read the same |
| ToolRegistry.InMemoryToolRegistry.Register | harness/tools/registry.py:86-87 | a name holds the last spec registered for it and keeps its first place |
| ToolRegistry.InMemoryToolRegistry.Scoped | harness/tools/registry.py:89-90 | the tools open to a flow, in order of registration |
| ToolRegistry.ScopedIsExact | harness/tools/registry.py:89-90 | all of them, no other, none twice |
| ToolRegistry.InMemoryToolRegistry.Execute | harness/tools/registry.py:92-127 | the handler runs if and only if the tool is known and its own tier permits the call; the result is ok if and only if it ran and returned, and else carries the handler's error, the denial or the unknown name |
| ToolRegistry.ResultTellsWhatRan | harness/tools/registry.py:92-127 | a handler that did not run leaves no trace in the result |
| Budgets.BudgetTracker.RecordUsage | harness/core/budgets.py:71-81 | tokens and cost are added, tool calls replaced, the clock read and the limits checked |
| Budgets.BudgetTracker.CheckWallClock | harness/core/budgets.py:83-88 | reads the clock, checks the limits, says whether exhausted |
| Budgets.BudgetTracker.CheckExhaustion | harness/core/budgets.py:93-100 | keeps a reason once set, else takes the limit broken now |
| Budgets.Sums | harness/core/budgets.py:71-91 | tokens and cost are sums over all entries, tool calls the last reported |
| Budgets.CostIsTokensTimesPrices | harness/core/budgets.py:74-79 | over any ledger the cost is all input tokens per thousand times the input price plus all output tokens per thousand times the output price, and zero for a model without a price |
| Budgets.ReasonIsSticky | harness/core/budgets.py:94-95 | a reason once set never changes |
| Budgets.LedgerEqualsMemorylessTest | harness/core/budgets.py:71-100 | with time moving forward and nothing refunded, exhausted means the same as a test without memory, with the reason of the first check that failed it |
| Budgets.ExhaustedExactlyWhenOver | harness/core/budgets.py:93-100 | exhausted if and only if elapsed time or total cost is over its limit now; the wall clock wins ties |
| SingleAgent.SingleAgentFlow.Dispatch | harness/flows/single_agent.py:127-134 | a call is executed, recorded, and raises as a repeated failure, as a plain error, or not at all |
| SingleAgent.SingleAgentFlow.DriveAgent | harness/flows/single_agent.py:58-77 | which exception, if any, ends a run of calls early, and which calls were dispatched, handled or turned away |
| SingleAgent.FirstEscapeEndsTheRun | harness/flows/single_agent.py:127-134 | that exception is the one of the first call that raises and that the agent does not absorb |
| SingleAgent.AnExceptionEndsTheTrace | harness/flows/single_agent.py:127-134 | a run ends with an exception if and only if its last dispatched call was turned away or failed and was not absorbed; else every call was dispatched |
| SingleAgent.TraceIsGated | harness/tools/registry.py:92-127 | in the trace of any run a handler ran if and only if the tool is known and its own tier is allowed or got its own approval; a call of a known tool turned away carries the gate's words |
| SingleAgent.WithAGate | harness/flows/single_agent.py:59 | with a gate configured it is that gate whose leave counts |
| SingleAgent.WithoutAGate | harness/core/permissions.py:37-42 | with none, a handler ran if and only if the tool is known and only reads or writes internally |
| SingleAgent.SecondOfItsKindRepeats | harness/core/loop.py:66-75 | a failed call raises a repeated failure if and only if a call before it failed with the same tool, error and, on paper, arguments; the exception names tool, count and error; else it raises a plain error |
| SingleAgent.DrivenExactlyWhen | harness/flows/single_agent.py:127-134 | the tool calls end the agent with an exception if and only if some call escapes, and with a repeated failure if and only if the first that does has failed so before |
| SingleAgent.SingleAgentFlow.Memorize | harness/flows/single_agent.py:94-102 | which facts are remembered, and whether that raises; the number of remember calls is the number the store has counted |
| SingleAgent.SingleAgentFlow.Conclude | harness/flows/single_agent.py:82-105 | usage booked, budget checked, memory written, answer given, in this order; the number of remember calls is the number the store has counted |
| SingleAgent.SingleAgentFlow.Run | harness/flows/single_agent.py:50-105 | budget, table and result after a turn are those of the flow function the lemmas are about; so is the number of remember calls the store has counted, and it has counted one recall with memory on, none with memory off |
| SingleAgent.DenialsShareAKey | harness/tools/registry.py:102-111 | two denials of one call are the same failure, whoever answered |
| SingleAgent.DenialsBecomeRepeatedFailures | harness/flows/single_agent.py:127-134 | the max_repeats-th denial of one call raises as a repeated failure |
| SingleAgent.DecisionsIgnoreOutputs | harness/tools/registry.py:92-127 | two runs with the same calls and answers have equal traces as far as the shorter goes, whatever the handlers return; one is shorter only because its agent asked for no more, or because its last call escaped where the other was absorbed, or where the handler ran in both and raised in one |
| FanOut.LookupRefinesExecute | harness/flows/orchestrator.py:84-87 | a lookup taken move by move ends as the registry's execute says, with "[unavailable: ...]" for a failure |
| FanOut.LookupWithAGate | harness/flows/orchestrator.py:82-87 | with a gate configured, a lookup reaches its handler if and only if its tool is known and that gate lets its tier through |
| FanOut.LookupWithoutAGate | harness/core/permissions.py:37-42 | with none, if and only if its tool is known and only reads or writes internally |
| FanOut.RetrievalWithoutAGate | harness/tools/mcp_client.py:43-45 | with none, every retrieval call is passed on, up to the first that fails and is let through |
| FanOut.RetrievalCallsAreGated | harness/tools/mcp_client.py:37-45 | the retrieval calls that reach the server are those the gate lets through as read-only, up to and with the first that ends the agent |
| FanOut.RetrievalEnds | harness/tools/mcp_client.py:37-45 | the retrieval task ends with its first refused or failed call that its agent lets through, else as its agent does |
| FanOut.RetrievalDeniedExactlyWhen | harness/tools/mcp_client.py:37-45 | it raises a permission denial if and only if some refused call is let through and no call before it ended the agent |
| FanOut.ScheduleIndependence | harness/flows/orchestrator.py:99-103 | under every interleaving gather is still waiting or has the outcome of running the tasks in order |
| FanOut.FairSchedulesAgree | harness/flows/orchestrator.py:99-103 | a schedule that lets every task move often enough has that outcome |
| FanOut.ALookupChangesOnlyItself | harness/flows/orchestrator.py:84-103 | changing one lookup changes no other component, under any two schedules |
| FanOut.SameEffects | harness/flows/orchestrator.py:99-103 | the calls that have reached a handler and those still to come are together the same under every schedule |
| FanOut.FinishedSchedulesRunTheSameCalls | harness/flows/orchestrator.py:99-103 | so once all tasks have ended, the same calls have reached a handler; a turn that the retrieval task cuts short is outside this |
| Orchestrator.OrchestratorFlow.GatherTasks | harness/flows/orchestrator.py:99-103 | playing any schedule and then the rest gives the in-order outcome |
| Orchestrator.OrchestratorFlow.Run | harness/flows/orchestrator.py:81-130 | table and result are those of the flow function, and so are the numbers of recall and remember calls the store has counted and of agents run |
| Orchestrator.LookupsNeverFailTheTurn | harness/flows/orchestrator.py:84-103 | the fan-out raises if and only if the retrieval task does; else each component is its own task's |
| Orchestrator.ComponentsAre | harness/flows/orchestrator.py:84-103 | the account component comes from account_lookup and the meeting component from meeting_history, both called for the client: the handler's output, or "[unavailable: ...]" around the unknown tool, the denial or the handler's error; the third is what the retrieval agent answered |
| Orchestrator.AblationDeltas | harness/evals/ablations.py:112-130 | a turn with the critic succeeds if and only if the turn without does and the critic does not raise; then it cost one agent call more, its answer replaces the synthesis, and for the same extracted facts nothing else differs |
| Orchestrator.MemorySwitch | harness/flows/orchestrator.py:105-130 | with memory off a turn, however it ends, neither recalls nor remembers nor changes anything; with memory on it recalls once unless the fan-out raised and remembers at most once |
| AgentLoop.Loop.RunTurn | harness/core/loop.py:113-150 | routes, runs the flow and turns the three named exceptions into results, any other exception leaves; the number of remember calls is the number the store has counted, and it has counted at most one recall |
| AgentLoop.TurnMemory | harness/core/loop.py:133-140 | a turn calls remember at most once, with the facts of that turn, and the table is what that one call makes of it; never with memory off, undispatched, or with a result other than "success"; a success calls it if and only if there are facts; an escaping exception has called it only when the store refused the facts or failed, or the transcript failed |
| TurnOutcomes.TurnWithoutAFlow | harness/core/loop.py:118-131 | a direct route answers with its target, a target that no flow has ends as unknown_flow with its name, a router's exception leaves; any other turn runs the flow of its target, which is single_agent without a router |
| TurnOutcomes.AgentSucceedsExactlyWhen | harness/flows/single_agent.py:50-105 | a single-agent turn succeeds if and only if recall works, no call escapes, the agent finishes, no reason is set after its bookings, extraction and store work where they are used, and the transcript can be made; it answers the agent's output, or none |
| TurnOutcomes.OrchestratorSucceedsExactlyWhen | harness/flows/orchestrator.py:81-130 | an orchestrator turn succeeds if and only if no retrieval call ends its agent, that agent, recall, synthesis and critic work where they are used, and so do extraction and store; it answers the critic's text, or the synthesis without a critic |
| TurnOutcomes.BudgetExhaustedExactlyWhen | harness/core/loop.py:137-138 | a turn ends with budget_exhausted if and only if it runs the single agent, recall works, no call escapes, and either the usage limit is hit or a reason is set after its bookings |
| TurnOutcomes.RunsOutExactlyWhenOver | harness/core/budgets.py:71-100 | with time moving forward and nothing refunded, a reason is set after the bookings if and only if the wall clock at the poll, or the price of all tokens so far, is over its limit |
| TurnOutcomes.RepeatedFailureExactlyWhen | harness/core/loop.py:135-136 | a turn ends with repeated_failure if and only if it runs the single agent, recall works, and the first call that escapes has failed before with the same tool, error and, on paper, arguments |
| AgentLoop.SuccessRemembersTheExchange | harness/flows/single_agent.py:94-102 | without an extractor a successful turn adds one row, the exchange |
| AgentLoop.PermissionDeniedExactlyWhen | harness/core/loop.py:139-140 | a turn ends with permission_denied if and only if it runs the orchestrator and the gate refuses a retrieval call that the agent lets through, before any other call has ended the agent |
| AgentLoop.OpenReadsNeverEndDenied | harness/tools/mcp_client.py:37-45 | so never without a gate, or when the gate allows read-only calls |
| AgentLoop.ExhaustedTurn | harness/flows/single_agent.py:86-88 | an exhausted budget keeps its reason and lets no single-agent turn succeed or write |
| AgentLoop.ExhaustionIsForever | harness/core/loop.py:113-150 | the same at every later turn of any sequence |
| AgentLoop.OrchestratorIgnoresBudget | harness/flows/orchestrator.py:81-130 | the budget changes neither its result nor what it writes |
| AgentLoop.TurnsKeepTheLedger | harness/flows/single_agent.py:82-87 | over any turns the shared budget holds exactly what the finished single-agent turns booked |
| AgentLoop.SharedBudgetIsTheMemorylessTest | harness/core/budgets.py:71-100 | it is exhausted if and only if the test without memory over all bookings says so |
| KeywordSearch.SplitAtSpace | harness/retrieval/mcp_server/__main__.py:34 | splitting distributes over a blank, a tab and the ends of lines |
| KeywordSearch.SplitOfAWord | harness/retrieval/mcp_server/__main__.py:34 | a run without spaces is one word |
| KeywordSearch.OccursSomewhere | harness/retrieval/mcp_server/__main__.py:38 | a term occurs if and only if it stands at some position |
| KeywordSearch.MatchesCounts | harness/retrieval/mcp_server/__main__.py:38 | a score is the number of query places whose word occurs |
| KeywordSearch.ScoresAdd | harness/retrieval/mcp_server/__main__.py:34-38 | the score of two queries joined by a blank is the sum of their scores |
| KeywordSearch.SortByScore | harness/retrieval/mcp_server/__main__.py:41 | the same hits by falling score, ties in corpus order |
| KeywordSearch.Search | harness/retrieval/mcp_server/__main__.py:29-42 | the first k chunks of the ranking of all matching documents |
| KeywordSearch.RankingIsUnique | harness/retrieval/mcp_server/__main__.py:41 | there is only one ranking |
| KeywordSearch.TopK | harness/retrieval/mcp_server/__main__.py:29-42 | positive scores in order, nothing omitted ranks before anything returned, and k is a prefix of k + 1 |
| KeywordSearch.HowManyAreReturned | harness/retrieval/mcp_server/__main__.py:42 | the first k, or for a negative k all but the last -k |
| KeywordSearch.FoundExactlyWhen | harness/retrieval/mcp_server/__main__.py:34-40 | a document is found if and only if some word of the query, in lower case, stands in its text, in lower case |
| KeywordSearch.ChunksBearTheirCounts | harness/retrieval/mcp_server/__main__.py:38-42 | a returned chunk is a document of the corpus and its score is the number of query words that stand in its text |
| KeywordSearch.FetchChunk | harness/retrieval/mcp_server/__main__.py:46-48 | the first document with the id, or none |
| KeywordSearch.CitationsCheckOut | harness/retrieval/mcp_server/__main__.py:46-48 | every document is fetched back by its id if and only if no two different documents share one |
| KeywordSearch.ReturnedChunksCheckOut | harness/retrieval/mcp_server/__main__.py:29-48 | with unique ids every returned chunk is fetched back as it was returned |

## Left out

- SingleAgent.SingleAgentFlow.Dispatch: the text of an exception stands for the exception; the arguments' repr in the repeated-failure message is not modelled.
- MemoryHistory.ScopeIsolation: speaks of serial runs; interleaved statements are the subject of `InterleavedInvalidation.dfy`.
- Predicates and databases that raise inside `invalidate`: the transaction is rolled back and nothing changes. A serial run leaves out calls that raised, as they change nothing.
- A connection that breaks after the database has committed: the write stands although the call raises.
- Locking and isolation levels of the database, beyond the order in which SELECT and UPDATE take effect; approximate answers of the vector index.
- `NullMemoryStore`, the session store, the connection pool and settings: no state of interest here.
- `TieredRouter.route`, triage, prompts and the agents' own behaviour: their outcomes are inputs of a turn.
- Spans, stamps, transcripts' content and tool durations: no later step reads them. That a transcript can fail is modelled.
- Which demo tools get a wrapper on the agent: the agent may call any name here, a superset.
- Floats and `default=str` values among tool arguments, and Python's equality of `1` and `True`: values are JSON without floats, compared as JSON.
- Lone surrogates in tool names and errors: these are Dafny strings, which have none; arguments may hold them.
- Rounding of costs and utilization, and how the exhaustion reason is formatted.
- Cancellation, and handlers that raise outside `Exception`.
- Workers that go on running after `gather` has raised: their later moves are not part of the turn.
- Whether the history `compact_history` returns is the caller's own list object or a copy.
