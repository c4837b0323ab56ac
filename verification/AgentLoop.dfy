/** One turn from route to result, and any number of turns that share one budget and one memory. */
module AgentLoop {
  import opened Wrappers
  import opened JsonPayload
  import opened TemporalMemory
  import opened Budgets
  import opened Permissions
  import opened ToolRegistry
  import opened HarnessTypes
  import SingleAgent
  import FanOut
  import Orchestrator

  datatype RouteMode = DIRECT | TOOL_LOOP | FLOW

  datatype RouteDecision = RouteDecision(mode: RouteMode, target: string)

  datatype Routed = NoRouter | Decided(decision: RouteDecision) | RouterRaised(text: string)

  datatype FlowKind = SingleAgentFlow | OrchestratorFlow

  datatype Flows = Flows(
    byName: map<string, FlowKind>,
    agentHasExtractor: bool,
    orchestratorHasExtractor: bool,
    clientKey: Text)

  datatype TurnInput = TurnInput(
    routed: Routed,
    request: string,
    scope: string,
    flags: AblationFlags,
    agent: SingleAgent.AgentTurn,
    orchestrator: Orchestrator.OrchestratorTurn)

  const DEFAULT_TARGET := "single_agent"

  type TurnResult = Result<FlowResult, Exn>

  /** The flow a turn is dispatched to; none for a direct answer, an unknown target or a router that raised. */
  function Dispatch(flows: Flows, input: TurnInput): Option<FlowKind> {
    match input.routed
    case RouterRaised(_) => None
    case Decided(decision) =>
      if decision.mode == DIRECT || decision.target !in flows.byName then None else Some(flows.byName[decision.target])
    case NoRouter =>
      if DEFAULT_TARGET in flows.byName then Some(flows.byName[DEFAULT_TARGET]) else None
  }

  /** The three exceptions the loop turns into results; any other leaves the turn. */
  function Caught(r: TurnResult): TurnResult {
    if r.Success? then r
    else
      match r.error
      case RepeatedFailure(_, _, _) => Success(FlowResult(Message(r.error), false, "repeated_failure"))
      case BudgetExhausted(_) => Success(FlowResult(Message(r.error), false, "budget_exhausted"))
      case PermissionDenied(_) => Success(FlowResult(Message(r.error), false, "permission_denied"))
      case Other(_) => r
  }

  function Undispatched(routed: Routed): TurnResult {
    match routed
    case RouterRaised(text) => Failure(Other(text))
    case Decided(decision) =>
      if decision.mode == DIRECT then Success(FlowResult(HarnessTypes.Text(decision.target), true, "direct_answer"))
      else Success(FlowResult(NoOutput, false, "unknown_flow:" + decision.target))
    case NoRouter => Success(FlowResult(NoOutput, false, "unknown_flow:" + DEFAULT_TARGET))
  }

  function FlowEnd(s: Services, flows: Flows, kind: FlowKind, st: HarnessState, input: TurnInput): Ran {
    match kind
    case SingleAgentFlow =>
      SingleAgent.FlowRun(s, input.flags.memoryOn, flows.agentHasExtractor, input.request, input.scope, st, input.agent)
    case OrchestratorFlow =>
      var ran := Orchestrator.FlowRun(s, input.flags, flows.orchestratorHasExtractor, flows.clientKey,
                                      input.request, input.scope, st, input.orchestrator);
      Ran(ran.state, ran.result, ran.activity.remembers)
  }

  function Turn(s: Services, flows: Flows, st: HarnessState, input: TurnInput): Ran {
    match Dispatch(flows, input)
    case None => Ran(st, Undispatched(input.routed), 0)
    case Some(kind) =>
      var ran := FlowEnd(s, flows, kind, st, input);
      ran.(result := Caught(ran.result))
  }

  class Loop {
    const byName: map<string, FlowKind>
    const singleAgent: SingleAgent.SingleAgentFlow
    const orchestrator: Orchestrator.OrchestratorFlow

    constructor (byName: map<string, FlowKind>, singleAgent: SingleAgent.SingleAgentFlow,
                 orchestrator: Orchestrator.OrchestratorFlow)
      ensures this.byName == byName && this.singleAgent == singleAgent && this.orchestrator == orchestrator
    {
      this.byName, this.singleAgent, this.orchestrator := byName, singleAgent, orchestrator;
    }

    function FlowTable(): Flows {
      Flows(byName, singleAgent.hasExtractor, orchestrator.hasExtractor, orchestrator.clientKey)
    }

    method RunTurn(input: TurnInput, registry: InMemoryToolRegistry, gate: Option<ApprovalGate>,
                   memory: PgVectorMemoryStore, budget: BudgetTracker) returns (result: TurnResult, remembers: nat)
      requires registry.Valid()
      modifies memory, budget, orchestrator
      ensures memory.remembers == old(memory.remembers) + remembers
      ensures || memory.recalls == old(memory.recalls)
              || (input.flags.memoryOn
                  && memory.recalls == old(memory.recalls) + [RecallCall(input.request, input.scope, 5)])
      ensures Ran(HarnessState(budget.status, memory.rows), result, remembers) ==
              Turn(Services(registry.tools, gate, memory.env, budget.terms), FlowTable(),
                   old(HarnessState(budget.status, memory.rows)), input)
    {
      if input.routed.RouterRaised? {
        return Failure(Other(input.routed.text)), 0;
      }
      if input.routed.Decided? && input.routed.decision.mode == DIRECT {
        return Success(FlowResult(HarnessTypes.Text(input.routed.decision.target), true, "direct_answer")), 0;
      }
      var target := if input.routed.Decided? then input.routed.decision.target else DEFAULT_TARGET;
      if target !in byName {
        return Success(FlowResult(NoOutput, false, "unknown_flow:" + target)), 0;
      }
      var r: TurnResult;
      match byName[target] {
        case SingleAgentFlow =>
          r, remembers := singleAgent.Run(input.request, input.flags.memoryOn, input.scope, registry, gate,
                                          memory, budget, input.agent);
        case OrchestratorFlow =>
          r, remembers := RunOrchestrator(input, registry, gate, memory, budget);
      }
      result := Caught(r);
    }

    method RunOrchestrator(input: TurnInput, registry: InMemoryToolRegistry, gate: Option<ApprovalGate>,
                           memory: PgVectorMemoryStore, budget: BudgetTracker)
      returns (r: TurnResult, remembers: nat)
      modifies memory, orchestrator
      ensures memory.remembers == old(memory.remembers) + remembers
      ensures || memory.recalls == old(memory.recalls)
              || (input.flags.memoryOn
                  && memory.recalls == old(memory.recalls) + [RecallCall(input.request, input.scope, 5)])
      ensures Ran(HarnessState(budget.status, memory.rows), r, remembers) ==
              FlowEnd(Services(registry.tools, gate, memory.env, budget.terms), FlowTable(), OrchestratorFlow,
                      old(HarnessState(budget.status, memory.rows)), input)
    {
      var ran, activity := orchestrator.Run(input.request, input.flags, input.scope, registry, gate,
                                            memory, budget, input.orchestrator);
      r, remembers := ran, activity.remembers;
    }
  }

  // ---------------------------------------------------------------- one turn

  predicate Succeeded(r: TurnResult) {
    r.Success? && r.value.success
  }

  /** What the agent flow has to remember: the exchange, or what its extractor found in it. */
  function AgentFacts(hasExtractor: bool, request: string, scope: string, output: Option<string>,
                      turn: SingleAgent.AgentTurn): seq<MemoryItem>
  {
    if output.None? || output.value == "" then []
    else if hasExtractor then (if turn.extraction.Success? then turn.extraction.value else [])
    else [SingleAgent.WholeExchange(request, output.value, scope, turn.newId)]
  }

  /** What a flow has to remember of a turn. */
  function FactsOf(flows: Flows, kind: FlowKind, input: TurnInput): seq<MemoryItem> {
    match kind
    case SingleAgentFlow =>
      if !input.agent.end.Finished? then []
      else AgentFacts(flows.agentHasExtractor, input.request, input.scope, input.agent.end.output, input.agent)
    case OrchestratorFlow =>
      if flows.orchestratorHasExtractor && input.orchestrator.extraction.Success? then
        input.orchestrator.extraction.value
      else []
  }

  function RememberedAt(kind: FlowKind, input: TurnInput): Time {
    match kind
    case SingleAgentFlow => input.agent.rememberedAt
    case OrchestratorFlow => input.orchestrator.rememberedAt
  }

  /** Whether the store fails when a flow remembers. */
  predicate RememberFails(kind: FlowKind, input: TurnInput) {
    match kind
    case SingleAgentFlow => input.agent.rememberFails
    case OrchestratorFlow => input.orchestrator.rememberFails
  }

  /** At most one call of `remember`, with these facts; the table is what that call makes of it. */
  ghost predicate RemembersAtMostOnce(env: Externals, before: Table, after: Table, remembers: nat, memoryOn: bool,
                                      facts: seq<MemoryItem>, scope: string, now: Time, outage: bool)
  {
    && remembers <= 1
    && (remembers == 1 ==> memoryOn && facts != [])
    && after == if remembers == 1 then AfterRemember(env, before, facts, scope, now, outage) else before
  }

  /** Either the store refused the facts or failed, or a single-agent turn failed on its transcript after writing. */
  predicate FailsAfterRemembering(env: Externals, flows: Flows, kind: FlowKind, input: TurnInput) {
    || Offered(env, FactsOf(flows, kind, input), input.scope, RememberedAt(kind, input),
               RememberFails(kind, input)).Failure?
    || (kind == SingleAgentFlow && input.agent.transcriptError.Some?)
  }

  /** What holds of every end of a flow, caught or not. */
  ghost predicate FlowKeepsItsWord(env: Externals, flows: Flows, kind: FlowKind, st: HarnessState, input: TurnInput,
                                   end: Ran)
  {
    && RemembersAtMostOnce(env, st.table, end.state.table, end.remembers, input.flags.memoryOn,
                           FactsOf(flows, kind, input), input.scope, RememberedAt(kind, input),
                           RememberFails(kind, input))
    && (end.result.Success? ==>
          && end.result.value.success && end.result.value.stopReason == "success"
          && (end.remembers == 1 <==> input.flags.memoryOn && FactsOf(flows, kind, input) != []))
    && (end.result.Failure? && end.remembers == 1 ==>
          end.result.error.Other? && FailsAfterRemembering(env, flows, kind, input))
    && (kind == SingleAgentFlow && end.result.Failure? ==> !end.result.error.PermissionDenied?)
    && (kind == OrchestratorFlow ==> end.state.status == st.status)
    && (st.status.Exhausted() ==> end.state.status.exhaustedReason == st.status.exhaustedReason)
    && (st.status.Exhausted() && kind == SingleAgentFlow ==> end.result.Failure? && end.remembers == 0)
  }

  lemma StoreFactsMemory(env: Externals, st: HarnessState, facts: seq<MemoryItem>, scope: string, now: Time,
                         outage: bool)
    ensures var w := StoreFacts(env, st, facts, scope, now, outage);
            && RemembersAtMostOnce(env, st.table, w.state.table, w.remembers, true, facts, scope, now, outage)
            && w.state.status == st.status
            && (w.remembers == 1 <==> facts != [])
            && (w.exn.Some? ==> w.exn.value.Other? && Offered(env, facts, scope, now, outage).Failure?)
  {}

  lemma WriteBackMemory(s: Services, memoryOn: bool, hasExtractor: bool, request: string, scope: string,
                        st: HarnessState, output: Option<string>, turn: SingleAgent.AgentTurn)
    ensures var w := SingleAgent.WriteBack(s, memoryOn, hasExtractor, request, scope, st, output, turn);
            var facts := AgentFacts(hasExtractor, request, scope, output, turn);
            && RemembersAtMostOnce(s.env, st.table, w.state.table, w.remembers, memoryOn, facts, scope,
                                   turn.rememberedAt, turn.rememberFails)
            && w.state.status == st.status
            && (w.exn.None? ==> (w.remembers == 1 <==> memoryOn && facts != []))
            && (w.exn.Some? ==>
                  w.exn.value.Other?
                  && (w.remembers == 1 ==>
                        Offered(s.env, facts, scope, turn.rememberedAt, turn.rememberFails).Failure?))
  {
    StoreFactsMemory(s.env, st, AgentFacts(hasExtractor, request, scope, output, turn), scope,
                     turn.rememberedAt, turn.rememberFails);
  }

  lemma ConcludedKeepsItsWord(s: Services, flows: Flows, st: HarnessState, input: TurnInput,
                              output: Option<string>, usage: SingleAgent.AgentUsage)
    requires input.agent.end == SingleAgent.Finished(output, usage)
    ensures FlowKeepsItsWord(s.env, flows, SingleAgentFlow, st, input,
                             SingleAgent.Concluded(s, input.flags.memoryOn, flows.agentHasExtractor, input.request,
                                                   input.scope, st, output, usage, input.agent))
  {
    var turn := input.agent;
    var calls := if usage.toolCalls != 0 then usage.toolCalls else |turn.steps|;
    var s1 := Recorded(s.terms, st.status, usage.inputTokens, usage.outputTokens, calls, turn.recordedAt);
    var s2 := Checked(s.terms, s1, turn.checkedAt);
    WriteBackMemory(s, input.flags.memoryOn, flows.agentHasExtractor, input.request, input.scope,
                    st.(status := s2), output, turn);
  }

  lemma AgentEndKeepsItsWord(s: Services, flows: Flows, st: HarnessState, input: TurnInput)
    ensures FlowKeepsItsWord(s.env, flows, SingleAgentFlow, st, input,
                             SingleAgent.AgentEnded(s, input.flags.memoryOn, flows.agentHasExtractor, input.request,
                                                    input.scope, st, input.agent))
  {
    if input.agent.end.Finished? {
      ConcludedKeepsItsWord(s, flows, st, input, input.agent.end.output, input.agent.end.usage);
    }
  }

  lemma AgentFlowKeepsItsWord(s: Services, flows: Flows, st: HarnessState, input: TurnInput)
    ensures FlowKeepsItsWord(s.env, flows, SingleAgentFlow, st, input, FlowEnd(s, flows, SingleAgentFlow, st, input))
  {
    AgentEndKeepsItsWord(s, flows, st, input);
    SingleAgent.DrivenNeverDenied(s.tools, GateOf(s.gate), [], input.agent.steps);
  }

  lemma AfterFanOutMemory(s: Services, flags: AblationFlags, hasExtractor: bool, request: string, scope: string,
                          st: HarnessState, turn: Orchestrator.OrchestratorTurn)
    ensures var ran := Orchestrator.AfterFanOut(s, flags, hasExtractor, request, scope, st, turn);
            var facts := if hasExtractor && turn.extraction.Success? then turn.extraction.value else [];
            && RemembersAtMostOnce(s.env, st.table, ran.state.table, ran.activity.remembers, flags.memoryOn, facts,
                                   scope, turn.rememberedAt, turn.rememberFails)
            && (ran.result.Success? ==>
                  && ran.result.value.success && ran.result.value.stopReason == "success"
                  && (ran.activity.remembers == 1 <==> flags.memoryOn && facts != []))
            && (ran.result.Failure? ==>
                  ran.result.error.Other?
                  && (ran.activity.remembers == 1 ==>
                        Offered(s.env, facts, scope, turn.rememberedAt, turn.rememberFails).Failure?))
            && ran.state.status == st.status
  {
    if turn.extraction.Success? {
      StoreFactsMemory(s.env, st, turn.extraction.value, scope, turn.rememberedAt, turn.rememberFails);
    }
  }

  lemma OrchestratorKeepsItsWord(s: Services, flows: Flows, st: HarnessState, input: TurnInput)
    ensures FlowKeepsItsWord(s.env, flows, OrchestratorFlow, st, input,
                             FlowEnd(s, flows, OrchestratorFlow, st, input))
  {
    AfterFanOutMemory(s, input.flags, flows.orchestratorHasExtractor, input.request, input.scope, st,
                      input.orchestrator);
  }

  lemma EveryFlowKeepsItsWord(s: Services, flows: Flows, kind: FlowKind, st: HarnessState, input: TurnInput)
    ensures FlowKeepsItsWord(s.env, flows, kind, st, input, FlowEnd(s, flows, kind, st, input))
  {
    match kind
    case SingleAgentFlow => AgentFlowKeepsItsWord(s, flows, st, input);
    case OrchestratorFlow => OrchestratorKeepsItsWord(s, flows, st, input);
  }

  /** A turn is a direct answer, an unknown target or a router's exception, or what became of its flow. */
  lemma TurnIsItsFlow(s: Services, flows: Flows, st: HarnessState, input: TurnInput) returns (end: Ran)
    ensures Dispatch(flows, input).None? ==>
              && Turn(s, flows, st, input) == Ran(st, Undispatched(input.routed), 0)
              && var r := Undispatched(input.routed);
                 r.Success? ==> r.value.stopReason == "direct_answer" || r.value.stopReason[..13] == "unknown_flow:"
    ensures Dispatch(flows, input).Some? ==>
              && FlowKeepsItsWord(s.env, flows, Dispatch(flows, input).value, st, input, end)
              && Turn(s, flows, st, input) == end.(result := Caught(end.result))
              && end == FlowEnd(s, flows, Dispatch(flows, input).value, st, input)
  {
    if Dispatch(flows, input).Some? {
      end := FlowEnd(s, flows, Dispatch(flows, input).value, st, input);
      EveryFlowKeepsItsWord(s, flows, Dispatch(flows, input).value, st, input);
    } else {
      end := Ran(st, Undispatched(input.routed), 0);
    }
  }

  /**
   A turn calls `remember` at most once: never unless it was dispatched with memory on, never when it ends with a
   stop reason other than "success", and then with the facts of that turn; its table is what that one call makes
   of it. A turn that succeeds calls it exactly when there are facts. One that leaves by an exception has called
   it only if the store refused the facts or failed, or a single-agent turn failed on its transcript.
   */
  ghost predicate MemoryOnlyAfterSuccess(env: Externals, flows: Flows, kind: Option<FlowKind>, st: HarnessState,
                                         input: TurnInput, turn: Ran)
  {
    match kind
    case None => turn.remembers == 0 && turn.state == st
    case Some(k) =>
      && RemembersAtMostOnce(env, st.table, turn.state.table, turn.remembers, input.flags.memoryOn,
                             FactsOf(flows, k, input), input.scope, RememberedAt(k, input), RememberFails(k, input))
      && (turn.result.Success? ==>
            (turn.remembers == 1 <==>
             turn.result.value.stopReason == "success" && input.flags.memoryOn && FactsOf(flows, k, input) != []))
      && (turn.result.Failure? && turn.remembers == 1 ==> FailsAfterRemembering(env, flows, k, input))
  }

  lemma CatchingKeepsMemory(env: Externals, flows: Flows, kind: FlowKind, st: HarnessState, input: TurnInput, end: Ran)
    requires FlowKeepsItsWord(env, flows, kind, st, input, end)
    ensures MemoryOnlyAfterSuccess(env, flows, Some(kind), st, input, end.(result := Caught(end.result)))
  {
    if end.result.Failure? && Caught(end.result).Success? {
      assert Caught(end.result).value.stopReason[0] != "success"[0];
    }
  }

  lemma TurnMemory(s: Services, flows: Flows, st: HarnessState, input: TurnInput)
    ensures MemoryOnlyAfterSuccess(s.env, flows, Dispatch(flows, input), st, input, Turn(s, flows, st, input))
  {
    var end := TurnIsItsFlow(s, flows, st, input);
    if Dispatch(flows, input).Some? {
      CatchingKeepsMemory(s.env, flows, Dispatch(flows, input).value, st, input, end);
    }
  }

  lemma OrchestratorDenial(s: Services, flows: Flows, st: HarnessState, input: TurnInput)
    ensures var r := FlowEnd(s, flows, OrchestratorFlow, st, input).result;
            var retrieval := FanOut.Finish(s, Orchestrator.Tasks(flows.clientKey, input.orchestrator)[2]);
            r.Failure? && r.error.PermissionDenied? <==> retrieval.Failure? && retrieval.error.PermissionDenied?
  {
    Orchestrator.LookupsNeverFailTheTurn(s, flows.clientKey, input.orchestrator);
    AfterFanOutMemory(s, input.flags, flows.orchestratorHasExtractor, input.request, input.scope, st,
                      input.orchestrator);
    var gathered := FanOut.Gather(FanOut.InOrder(s, Orchestrator.Tasks(flows.clientKey, input.orchestrator)));
    assert gathered.Failed? ==> FlowEnd(s, flows, OrchestratorFlow, st, input).result == Failure(gathered.exn);
  }

  predicate EndsDenied(r: TurnResult) {
    r.Success? && r.value.stopReason == "permission_denied"
  }

  /** A turn ends with permission_denied exactly when it runs the orchestrator and the gate refuses a retrieval
      call that its agent lets through, before any other call has ended the agent. */
  lemma PermissionDeniedExactlyWhen(s: Services, flows: Flows, st: HarnessState, input: TurnInput)
    ensures EndsDenied(Turn(s, flows, st, input).result) <==>
            && Dispatch(flows, input) == Some(OrchestratorFlow)
            && exists n: nat :: FanOut.RefusedAt(s, input.orchestrator.mcpCalls, n)
  {
    var end := TurnIsItsFlow(s, flows, st, input);
    assert "permission_denied"[0] != "unknown_flow:"[0];
    if Dispatch(flows, input) == Some(OrchestratorFlow) {
      OrchestratorDenial(s, flows, st, input);
      FanOut.RetrievalDeniedExactlyWhen(s, input.orchestrator.mcpCalls, input.orchestrator.retrieved);
    }
  }

  /** So no turn ends that way without a gate, or under one that allows read-only calls outright. */
  lemma OpenReadsNeverEndDenied(s: Services, flows: Flows, st: HarnessState, input: TurnInput)
    requires s.gate.Some? ==> PolicyFor(s.gate.value.matrix, READ_ONLY) == AUTO_ALLOW
    ensures !EndsDenied(Turn(s, flows, st, input).result)
  {
    PermissionDeniedExactlyWhen(s, flows, st, input);
  }

  /** With no extractor, a successful turn with memory on and something said adds one row, the exchange itself. */
  lemma SuccessRemembersTheExchange(s: Services, flows: Flows, st: HarnessState, input: TurnInput, id: Uuid)
    requires Dispatch(flows, input) == Some(SingleAgentFlow) && !flows.agentHasExtractor && input.flags.memoryOn
    requires input.agent.end.Finished? && input.agent.end.output.Some? && input.agent.end.output.value != ""
    requires s.env.parseUuid(input.agent.newId) == Some(id) && id !in st.table
    requires Succeeded(Turn(s, flows, st, input).result)
    ensures var after := Turn(s, flows, st, input).state.table;
            && after.Keys == st.table.Keys + {id}
            && (forall old' <- st.table :: after[old'] == st.table[old'])
            && after[id].content == "Q: " + input.request + "\nA: " + input.agent.end.output.value
            && after[id].scope == input.scope && after[id].source == "single_agent"
            && after[id].validFrom == input.agent.rememberedAt && after[id].validTo.None?
  {
    var turn := input.agent;
    var item := SingleAgent.WholeExchange(input.request, turn.end.output.value, input.scope, turn.newId);
    var end := TurnIsItsFlow(s, flows, st, input);
    assert end.result.Success? && end.remembers == 1;
    SuccessMeansStored(s, flows, st, input);
    OneItemStored(s.env, st.table, item, input.scope, turn.rememberedAt, id);
  }

  lemma SuccessMeansStored(s: Services, flows: Flows, st: HarnessState, input: TurnInput)
    requires input.flags.memoryOn && FactsOf(flows, SingleAgentFlow, input) != []
    requires FlowEnd(s, flows, SingleAgentFlow, st, input).result.Success?
    ensures !input.agent.rememberFails
    ensures PrepareRows(s.env, FactsOf(flows, SingleAgentFlow, input), input.scope, input.agent.rememberedAt).Success?
  {
    BookingOrNot(s, flows, st, input);
    SuccessBooks(s, flows, st, input);
  }

  lemma SuccessBooks(s: Services, flows: Flows, st: HarnessState, input: TurnInput)
    requires FlowEnd(s, flows, SingleAgentFlow, st, input).result.Success?
    ensures BookedByAgent(s, input) != []
  {}

  lemma OneItemStored(env: Externals, t: Table, item: MemoryItem, scope: string, now: Time, id: Uuid)
    requires PrepareRows(env, [item], scope, now).Success?
    requires env.parseUuid(item.id) == Some(id) && id !in t
    ensures var t' := Remembered(env, t, [item], scope, now);
            && t'.Keys == t.Keys + {id}
            && (forall old' <- t :: t'[old'] == t[old'])
            && exists v :: t'[id] == NewRow(env, item, v, scope, now)
  {
    var rows := PrepareRows(env, [item], scope, now).value;
    PreparedRowsAre(env, [item], scope, now);
    FirstWriteWins(t, rows);
    assert IdsOf(rows) == {id};
    assert rows[0].id == id;
  }

  // ---------------------------------------------------------------- many turns

  function Turns(s: Services, flows: Flows, st: HarnessState, inputs: seq<TurnInput>): HarnessState {
    if inputs == [] then st
    else
      Turn(s, flows, Turns(s, flows, st, inputs[..|inputs| - 1]), inputs[|inputs| - 1]).state
  }

  /** An exhausted budget stays exhausted for the same reason through a turn, and stops the agent flow. */
  lemma ExhaustedTurn(s: Services, flows: Flows, st: HarnessState, input: TurnInput)
    requires st.status.Exhausted()
    ensures var turn := Turn(s, flows, st, input);
            && turn.state.status.exhaustedReason == st.status.exhaustedReason
            && (Dispatch(flows, input) == Some(SingleAgentFlow) ==>
                  !Succeeded(turn.result) && turn.remembers == 0 && turn.state.table == st.table)
  {
    var end := TurnIsItsFlow(s, flows, st, input);
  }

  /** From exhaustion on, over any turns: the reason never changes, no single-agent turn succeeds, none writes. */
  lemma {:induction false} ExhaustionIsForever(s: Services, flows: Flows, st: HarnessState,
                                               inputs: seq<TurnInput>, n: nat)
    requires n < |inputs|
    requires st.status.Exhausted()
    ensures var before := Turns(s, flows, st, inputs[..n]);
            var turn := Turn(s, flows, before, inputs[n]);
            && turn.state.status.exhaustedReason == st.status.exhaustedReason
            && (Dispatch(flows, inputs[n]) == Some(SingleAgentFlow) ==>
                  !Succeeded(turn.result) && turn.remembers == 0 && turn.state.table == before.table)
  {
    ReasonKept(s, flows, st, inputs[..n]);
    ExhaustedTurn(s, flows, Turns(s, flows, st, inputs[..n]), inputs[n]);
  }

  lemma {:induction false} ReasonKept(s: Services, flows: Flows, st: HarnessState, inputs: seq<TurnInput>)
    requires st.status.Exhausted()
    ensures Turns(s, flows, st, inputs).status.exhaustedReason == st.status.exhaustedReason
    decreases |inputs|
  {
    if inputs != [] {
      var init := inputs[..|inputs| - 1];
      ReasonKept(s, flows, st, init);
      ExhaustedTurn(s, flows, Turns(s, flows, st, init), inputs[|inputs| - 1]);
    }
  }

  lemma AfterFanOutIgnoresBudget(s: Services, flags: AblationFlags, hasExtractor: bool, request: string, scope: string,
                                 st: HarnessState, status: BudgetStatus, turn: Orchestrator.OrchestratorTurn)
    ensures var a, b := Orchestrator.AfterFanOut(s, flags, hasExtractor, request, scope, st, turn),
                        Orchestrator.AfterFanOut(s, flags, hasExtractor, request, scope, st.(status := status), turn);
            b == a.(state := a.state.(status := status)) && a.state.status == st.status
  {}

  /** The orchestrator never looks at the budget: an exhausted one changes neither its result nor what it remembers. */
  lemma OrchestratorIgnoresBudget(s: Services, flows: Flows, st: HarnessState, status: BudgetStatus, input: TurnInput)
    ensures var a := FlowEnd(s, flows, OrchestratorFlow, st, input);
            var b := FlowEnd(s, flows, OrchestratorFlow, st.(status := status), input);
            b == a.(state := a.state.(status := status))
  {
    AfterFanOutIgnoresBudget(s, input.flags, flows.orchestratorHasExtractor, input.request, input.scope, st, status,
                             input.orchestrator);
  }

  /** What a turn books: a finished agent's usage and the poll after it, and nothing in any other case. */
  ghost function Booked(s: Services, flows: Flows, input: TurnInput): seq<Entry> {
    if Dispatch(flows, input) == Some(SingleAgentFlow) then BookedByAgent(s, input) else []
  }

  ghost function BookedByAgent(s: Services, input: TurnInput): seq<Entry> {
    var turn := input.agent;
    if (input.flags.memoryOn && !RecallWorks(s.env, input.request, input.agent.recallFails)) || !turn.end.Finished?
       || SingleAgent.Driven(s.tools, GateOf(s.gate), [], turn.steps).Some?
    then []
    else
      var usage := turn.end.usage;
      [Usage(usage.inputTokens, usage.outputTokens,
             if usage.toolCalls != 0 then usage.toolCalls else |turn.steps|, turn.recordedAt),
       Poll(turn.checkedAt)]
  }

  ghost function AllBooked(s: Services, flows: Flows, inputs: seq<TurnInput>): seq<Entry> {
    if inputs == [] then []
    else AllBooked(s, flows, inputs[..|inputs| - 1]) + Booked(s, flows, inputs[|inputs| - 1])
  }

  lemma TwoMoreEntries(terms: Terms, es: seq<Entry>, a: Entry, b: Entry)
    ensures Ledger(terms, es + [a, b]) == Post(terms, Post(terms, Ledger(terms, es), a), b)
  {
    assert (es + [a, b])[..|es| + 1] == es + [a];
    assert (es + [a])[..|es|] == es;
  }

  lemma ConclusionBooks(s: Services, flows: Flows, st: HarnessState, input: TurnInput,
                        output: Option<string>, usage: SingleAgent.AgentUsage)
    ensures var calls := if usage.toolCalls != 0 then usage.toolCalls else |input.agent.steps|;
            var a := Usage(usage.inputTokens, usage.outputTokens, calls, input.agent.recordedAt);
            SingleAgent.Concluded(s, input.flags.memoryOn, flows.agentHasExtractor, input.request, input.scope,
                                  st, output, usage, input.agent).state.status
            == Post(s.terms, Post(s.terms, st.status, a), Poll(input.agent.checkedAt))
  {
    var calls := if usage.toolCalls != 0 then usage.toolCalls else |input.agent.steps|;
    var s1 := Recorded(s.terms, st.status, usage.inputTokens, usage.outputTokens, calls, input.agent.recordedAt);
    var s2 := Checked(s.terms, s1, input.agent.checkedAt);
    WriteBackMemory(s, input.flags.memoryOn, flows.agentHasExtractor, input.request, input.scope,
                    st.(status := s2), output, input.agent);
  }

  /** A turn that books nothing leaves the budget alone; one that books goes through its conclusion. */
  lemma BookingOrNot(s: Services, flows: Flows, st: HarnessState, input: TurnInput)
    ensures BookedByAgent(s, input) == [] ==> FlowEnd(s, flows, SingleAgentFlow, st, input).state.status == st.status
    ensures BookedByAgent(s, input) != [] ==>
              && input.agent.end.Finished?
              && FlowEnd(s, flows, SingleAgentFlow, st, input) ==
                 SingleAgent.Concluded(s, input.flags.memoryOn, flows.agentHasExtractor, input.request, input.scope,
                                       st, input.agent.end.output, input.agent.end.usage, input.agent)
  {}

  lemma AgentBooks(s: Services, flows: Flows, st: HarnessState, input: TurnInput, es: seq<Entry>)
    requires st.status == Ledger(s.terms, es)
    ensures FlowEnd(s, flows, SingleAgentFlow, st, input).state.status == Ledger(s.terms, es + BookedByAgent(s, input))
  {
    BookingOrNot(s, flows, st, input);
    var more := BookedByAgent(s, input);
    if more == [] {
      assert es + more == es;
    } else {
      ConclusionBooks(s, flows, st, input, input.agent.end.output, input.agent.end.usage);
      TwoMoreEntries(s.terms, es, more[0], more[1]);
      assert more == [more[0], more[1]];
    }
  }

  /** Over any turns, the shared budget holds exactly what the finished single-agent turns booked, in order. */
  lemma {:induction false} TurnsKeepTheLedger(s: Services, flows: Flows, table: Table, inputs: seq<TurnInput>)
    ensures Turns(s, flows, HarnessState(FRESH, table), inputs).status == Ledger(s.terms, AllBooked(s, flows, inputs))
    decreases |inputs|
  {
    if inputs != [] {
      var init, last := inputs[..|inputs| - 1], inputs[|inputs| - 1];
      TurnsKeepTheLedger(s, flows, table, init);
      var st, es := Turns(s, flows, HarnessState(FRESH, table), init), AllBooked(s, flows, init);
      var end := TurnIsItsFlow(s, flows, st, last);
      if Dispatch(flows, last) == Some(SingleAgentFlow) {
        AgentBooks(s, flows, st, last, es);
      } else {
        assert es + [] == es;
      }
    }
  }

  /** So the shared budget is exhausted, after any turns, exactly when the plain test over all bookings says so. */
  lemma SharedBudgetIsTheMemorylessTest(s: Services, flows: Flows, table: Table, inputs: seq<TurnInput>)
    requires Sensible(s.terms, AllBooked(s, flows, inputs))
    ensures Turns(s, flows, HarnessState(FRESH, table), inputs).status.Exhausted() <==>
            BrokenNow(s.terms, AllBooked(s, flows, inputs)).Some?
  {
    TurnsKeepTheLedger(s, flows, table, inputs);
    LedgerEqualsMemorylessTest(s.terms, AllBooked(s, flows, inputs));
  }
}
