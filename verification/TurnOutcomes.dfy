/** How a turn ends, and what it answers: the exact condition of every stop reason. */
module TurnOutcomes {
  import opened Wrappers
  import opened TemporalMemory
  import opened Budgets
  import opened Permissions
  import opened ToolRegistry
  import opened HarnessTypes
  import opened AgentLoop
  import SingleAgent
  import FanOut
  import Orchestrator

  predicate EndsFor(r: TurnResult, stopReason: string) {
    r.Success? && r.value.stopReason == stopReason
  }

  // ---------------------------------------------------------------- turns without a flow

  /** The target of a turn whose router did not raise: the router's, or the single agent without a router. */
  function TargetOf(routed: Routed): string
    requires !routed.RouterRaised?
  {
    match routed
    case Decided(decision) => decision.target
    case NoRouter => "single_agent"
  }

  /** A turn without a flow answers directly with its target, names the target nobody knows, or lets the router's
      exception through; and it is without a flow in these three cases only. */
  lemma TurnWithoutAFlow(s: Services, flows: Flows, st: HarnessState, input: TurnInput)
    ensures var turn := Turn(s, flows, st, input);
            match input.routed
            case RouterRaised(text) => turn == Ran(st, Failure(Other(text)), 0)
            case _ =>
              var target := TargetOf(input.routed);
              if input.routed.Decided? && input.routed.decision.mode == DIRECT then
                turn == Ran(st, Success(FlowResult(HarnessTypes.Text(target), true, "direct_answer")), 0)
              else if target !in flows.byName then
                turn == Ran(st, Success(FlowResult(NoOutput, false, "unknown_flow:" + target)), 0)
              else
                Dispatch(flows, input) == Some(flows.byName[target])
  {}

  // ---------------------------------------------------------------- the single agent

  /** The agent gets past recall, and no exception of a tool call ends it. */
  ghost predicate CallsAllPass(s: Services, input: TurnInput) {
    && RecallPasses(s, input)
    && forall i :: 0 <= i < |input.agent.steps| ==>
                     !SingleAgent.Escapes(s.tools, GateOf(s.gate), input.agent.steps[i])
  }

  predicate RecallPasses(s: Services, input: TurnInput) {
    input.flags.memoryOn ==> RecallWorks(s.env, input.request, input.agent.recallFails)
  }

  /** What a finished agent books: its usage, with the calls it counted or else those it made, and a poll. */
  ghost function Bookings(turn: SingleAgent.AgentTurn): seq<Entry>
    requires turn.end.Finished?
  {
    var usage := turn.end.usage;
    [Usage(usage.inputTokens, usage.outputTokens, if usage.toolCalls == 0 then |turn.steps| else usage.toolCalls,
           turn.recordedAt),
     Poll(turn.checkedAt)]
  }

  ghost function StatusAfter(terms: Terms, status: BudgetStatus, turn: SingleAgent.AgentTurn): BudgetStatus
    requires turn.end.Finished?
  {
    Post(terms, Post(terms, status, Bookings(turn)[0]), Bookings(turn)[1])
  }

  /** Where there is something to remember, it can be extracted and the store takes it. */
  ghost predicate MemoryStepWorks(s: Services, hasExtractor: bool, input: TurnInput)
    requires input.agent.end.Finished?
  {
    var turn, output := input.agent, input.agent.end.output;
    input.flags.memoryOn && output.Some? && output.value != "" ==>
      if hasExtractor then
        turn.extraction.Success?
        && (turn.extraction.value == []
            || Offered(s.env, turn.extraction.value, input.scope, turn.rememberedAt, turn.rememberFails).Success?)
      else
        var exchange := SingleAgent.WholeExchange(input.request, output.value, input.scope, turn.newId);
        Offered(s.env, [exchange], input.scope, turn.rememberedAt, turn.rememberFails).Success?
  }

  lemma WriteBackWorks(s: Services, hasExtractor: bool, st: HarnessState, input: TurnInput)
    requires input.agent.end.Finished?
    ensures var w := SingleAgent.WriteBack(s, input.flags.memoryOn, hasExtractor, input.request, input.scope, st,
                                           input.agent.end.output, input.agent);
            && (w.exn.None? <==> MemoryStepWorks(s, hasExtractor, input))
            && (w.exn.Some? ==> w.exn.value.Other?)
  {}

  ghost predicate AgentConcludes(s: Services, flows: Flows, st: HarnessState, input: TurnInput)
    requires input.agent.end.Finished?
  {
    && StatusAfter(s.terms, st.status, input.agent).exhaustedReason.None?
    && MemoryStepWorks(s, flows.agentHasExtractor, input)
    && input.agent.transcriptError.None?
  }

  lemma ConclusionAnswers(s: Services, flows: Flows, st: HarnessState, input: TurnInput)
    requires input.agent.end.Finished?
    ensures var output := input.agent.end.output;
            var r := SingleAgent.Concluded(s, input.flags.memoryOn, flows.agentHasExtractor, input.request, input.scope,
                                           st, output, input.agent.end.usage, input.agent).result;
            var reason := StatusAfter(s.terms, st.status, input.agent).exhaustedReason;
            && (r.Success? <==> AgentConcludes(s, flows, st, input))
            && (r.Success? ==> r.value == FlowResult(if output.Some? then HarnessTypes.Text(output.value) else NoOutput,
                                                     true, "success"))
            && (r.Failure? ==>
                  if reason.Some? then r.error == BudgetExhausted(Tracker(reason.value)) else r.error.Other?)
  {
    WriteBackWorks(s, flows.agentHasExtractor, st.(status := StatusAfter(s.terms, st.status, input.agent)), input);
  }

  /** How the agent's flow ends, case by case. */
  ghost predicate AgentEndsAs(s: Services, flows: Flows, st: HarnessState, input: TurnInput, r: TurnResult) {
    var turn := input.agent;
    if !RecallPasses(s, input) then r.Failure? && r.error.Other?
    else if exists n: nat :: SingleAgent.RepeatsAt(s.tools, GateOf(s.gate), turn.steps, n) then
      r.Failure? && r.error.RepeatedFailure?
    else if !CallsAllPass(s, input) then r.Failure? && r.error.Other?
    else
      match turn.end
      case LimitExceeded(text) => r == Failure(BudgetExhausted(UsageLimit(text)))
      case Crashed(text) => r == Failure(Other(text))
      case Finished(output, _) =>
        var reason := StatusAfter(s.terms, st.status, turn).exhaustedReason;
        if reason.Some? then r == Failure(BudgetExhausted(Tracker(reason.value)))
        else if AgentConcludes(s, flows, st, input) then
          r == Success(FlowResult(if output.Some? then HarnessTypes.Text(output.value) else NoOutput, true, "success"))
        else r.Failure? && r.error.Other?
  }

  lemma AgentEndsSo(s: Services, flows: Flows, st: HarnessState, input: TurnInput)
    ensures AgentEndsAs(s, flows, st, input, FlowEnd(s, flows, SingleAgentFlow, st, input).result)
  {
    SingleAgent.DrivenExactlyWhen(s.tools, GateOf(s.gate), input.agent.steps);
    if input.agent.end.Finished? {
      ConclusionAnswers(s, flows, st, input);
    }
  }

  // ---------------------------------------------------------------- the orchestrator

  /** A retrieval call that does not end its agent: absorbed, or let through by the gate, if any, and answered. */
  predicate PassesOn(gate: Option<ApprovalGate>, c: FanOut.McpCall) {
    c.absorbed || (c.reply.Returned? && (gate.Some? ==> Permitted(gate.value, READ_ONLY, c.answer)))
  }

  ghost predicate OrchestratorConcludes(s: Services, flows: Flows, input: TurnInput) {
    var turn := input.orchestrator;
    && (input.flags.memoryOn ==> RecallWorks(s.env, input.request, turn.recallFails))
    && turn.synthesis.Success?
    && (input.flags.criticOn ==> turn.critique.Success?)
    && (input.flags.memoryOn && flows.orchestratorHasExtractor ==>
          && turn.extraction.Success?
          && (turn.extraction.value == []
              || Offered(s.env, turn.extraction.value, input.scope, turn.rememberedAt, turn.rememberFails).Success?))
  }

  ghost predicate RetrievalPasses(s: Services, input: TurnInput) {
    && (forall i :: 0 <= i < |input.orchestrator.mcpCalls| ==> PassesOn(s.gate, input.orchestrator.mcpCalls[i]))
    && input.orchestrator.retrieved.Success?
  }

  lemma RetrievalPassesOrRaises(s: Services, flows: Flows, input: TurnInput)
    ensures var end := FanOut.Finish(s, Orchestrator.Tasks(flows.clientKey, input.orchestrator)[2]);
            && (end.Success? <==> RetrievalPasses(s, input))
            && (end.Failure? ==> end.error.Other? || end.error.PermissionDenied?)
  {
    var turn := input.orchestrator;
    var n := FanOut.FirstFatalCall(s, turn.mcpCalls);
    FanOut.RetrievalEnds(s, turn.mcpCalls, turn.retrieved, n);
    forall i | 0 <= i < |turn.mcpCalls|
      ensures PassesOn(s.gate, turn.mcpCalls[i]) <==> FanOut.Fatal(s, turn.mcpCalls[i]).None?
    {}
  }

  lemma AfterFanOutAnswers(s: Services, flows: Flows, st: HarnessState, input: TurnInput)
    ensures var turn := input.orchestrator;
            var r := Orchestrator.AfterFanOut(s, input.flags, flows.orchestratorHasExtractor, input.request,
                                              input.scope, st, turn).result;
            && (r.Success? <==> OrchestratorConcludes(s, flows, input))
            && (r.Success? ==>
                  r.value == FlowResult(HarnessTypes.Text(if input.flags.criticOn then turn.critique.value
                                                          else turn.synthesis.value), true, "success"))
            && (r.Failure? ==> r.error.Other?)
  {}

  lemma OrchestratorEnds(s: Services, flows: Flows, st: HarnessState, input: TurnInput)
    ensures var turn := input.orchestrator;
            var r := FlowEnd(s, flows, OrchestratorFlow, st, input).result;
            && (r.Success? <==> RetrievalPasses(s, input) && OrchestratorConcludes(s, flows, input))
            && (r.Success? ==>
                  r.value == FlowResult(HarnessTypes.Text(if input.flags.criticOn then turn.critique.value
                                                          else turn.synthesis.value), true, "success"))
            && (r.Failure? ==> r.error.Other? || r.error.PermissionDenied?)
  {
    RetrievalPassesOrRaises(s, flows, input);
    AfterFanOutAnswers(s, flows, st, input);
    Orchestrator.LookupsNeverFailTheTurn(s, flows.clientKey, input.orchestrator);
    GatheredDecides(FanOut.Gather(FanOut.InOrder(s, Orchestrator.Tasks(flows.clientKey, input.orchestrator))),
                    s, flows, st, input);
  }

  lemma GatheredDecides(g: FanOut.Gathered, s: Services, flows: Flows, st: HarnessState, input: TurnInput)
    ensures var ran := Orchestrator.AfterGather(g, s, input.flags, flows.orchestratorHasExtractor, input.request,
                                                input.scope, st, input.orchestrator);
            if g.Failed? then ran.result == Failure(g.exn)
            else ran == Orchestrator.AfterFanOut(s, input.flags, flows.orchestratorHasExtractor, input.request,
                                                 input.scope, st, input.orchestrator)
  {}

  // ---------------------------------------------------------------- the stop reasons

  /** The end of a dispatched turn: "success", or one of the three exceptions by its name, or an exception. */
  lemma CaughtByName(r: TurnResult)
    requires r.Success? ==> r.value.stopReason == "success"
    ensures EndsFor(Caught(r), "success") <==> r.Success?
    ensures EndsFor(Caught(r), "repeated_failure") <==> r.Failure? && r.error.RepeatedFailure?
    ensures EndsFor(Caught(r), "budget_exhausted") <==> r.Failure? && r.error.BudgetExhausted?
    ensures EndsFor(Caught(r), "permission_denied") <==> r.Failure? && r.error.PermissionDenied?
    ensures Caught(r).Success? && r.Failure? ==> !Caught(r).value.success && Caught(r).value.output == Message(r.error)
    ensures Caught(r).Failure? <==> r.Failure? && r.error.Other?
  {
    assert "success"[0] == 's' && "repeated_failure"[0] == 'r';
    assert "budget_exhausted"[0] == 'b' && "permission_denied"[0] == 'p';
  }

  lemma UndispatchedReasons(s: Services, flows: Flows, st: HarnessState, input: TurnInput, reason: string)
    requires Dispatch(flows, input).None? && reason in {"success", "repeated_failure", "budget_exhausted"}
    ensures !EndsFor(Turn(s, flows, st, input).result, reason)
  {
    TurnWithoutAFlow(s, flows, st, input);
    assert reason[0] in {'s', 'r', 'b'} && "direct_answer"[0] == 'd';
    assert !input.routed.RouterRaised? ==> ("unknown_flow:" + TargetOf(input.routed))[0] == 'u';
  }

  /** A turn of the single agent succeeds exactly when recall works, no call escapes, the agent finishes, no limit is
      broken after its bookings, memory takes what there is to remember, and the transcript can be made. It answers
      what the agent said. */
  lemma AgentSucceedsExactlyWhen(s: Services, flows: Flows, st: HarnessState, input: TurnInput)
    requires Dispatch(flows, input) == Some(SingleAgentFlow)
    ensures var r, turn := Turn(s, flows, st, input).result, input.agent;
            && (EndsFor(r, "success") <==>
                CallsAllPass(s, input) && turn.end.Finished? && AgentConcludes(s, flows, st, input))
            && (EndsFor(r, "success") ==>
                  && r.value.success
                  && r.value.output ==
                     if turn.end.output.Some? then HarnessTypes.Text(turn.end.output.value) else NoOutput)
  {
    var end := FlowEnd(s, flows, SingleAgentFlow, st, input).result;
    AgentEndsSo(s, flows, st, input);
    NoRepeatWhenAllPass(s, input);
    CaughtByName(end);
  }

  lemma NoRepeatWhenAllPass(s: Services, input: TurnInput)
    ensures CallsAllPass(s, input) ==>
              forall n: nat :: !SingleAgent.RepeatsAt(s.tools, GateOf(s.gate), input.agent.steps, n)
  {}

  /** A turn of the orchestrator succeeds exactly when no retrieval call ends its agent and that agent answers,
      recall works, synthesis and critic answer, and memory takes what was extracted. It answers what the critic
      said, or the synthesis without a critic. */
  lemma OrchestratorSucceedsExactlyWhen(s: Services, flows: Flows, st: HarnessState, input: TurnInput)
    requires Dispatch(flows, input) == Some(OrchestratorFlow)
    ensures var r, turn := Turn(s, flows, st, input).result, input.orchestrator;
            && (EndsFor(r, "success") <==> RetrievalPasses(s, input) && OrchestratorConcludes(s, flows, input))
            && (EndsFor(r, "success") ==>
                  && r.value.success
                  && r.value.output == HarnessTypes.Text(if input.flags.criticOn then turn.critique.value
                                                         else turn.synthesis.value))
  {
    OrchestratorEnds(s, flows, st, input);
    CaughtByName(FlowEnd(s, flows, OrchestratorFlow, st, input).result);
  }

  /** The agent's own limit is hit, or it finishes and a reason for exhaustion is set after its bookings. */
  ghost predicate RunsOut(s: Services, st: HarnessState, turn: SingleAgent.AgentTurn) {
    turn.end.LimitExceeded? || (turn.end.Finished? && StatusAfter(s.terms, st.status, turn).exhaustedReason.Some?)
  }

  /** A turn ends with budget_exhausted exactly when it runs the single agent, which gets through its calls and then
      runs out. */
  lemma BudgetExhaustedExactlyWhen(s: Services, flows: Flows, st: HarnessState, input: TurnInput)
    ensures EndsFor(Turn(s, flows, st, input).result, "budget_exhausted") <==>
            && Dispatch(flows, input) == Some(SingleAgentFlow)
            && CallsAllPass(s, input) && RunsOut(s, st, input.agent)
  {
    match Dispatch(flows, input)
    case None => UndispatchedReasons(s, flows, st, input, "budget_exhausted");
    case Some(OrchestratorFlow) =>
      OrchestratorEnds(s, flows, st, input);
      CaughtByName(FlowEnd(s, flows, OrchestratorFlow, st, input).result);
    case Some(SingleAgentFlow) =>
      AgentEndsSo(s, flows, st, input);
      NoRepeatWhenAllPass(s, input);
      CaughtByName(FlowEnd(s, flows, SingleAgentFlow, st, input).result);
  }

  /** A turn ends with repeated_failure exactly when it runs the single agent past recall and the first call that the
      agent lets through has failed before: same tool, same error, same arguments on paper. */
  lemma RepeatedFailureExactlyWhen(s: Services, flows: Flows, st: HarnessState, input: TurnInput)
    ensures EndsFor(Turn(s, flows, st, input).result, "repeated_failure") <==>
            && Dispatch(flows, input) == Some(SingleAgentFlow)
            && RecallPasses(s, input)
            && exists n: nat :: SingleAgent.RepeatsAt(s.tools, GateOf(s.gate), input.agent.steps, n)
  {
    match Dispatch(flows, input)
    case None => UndispatchedReasons(s, flows, st, input, "repeated_failure");
    case Some(OrchestratorFlow) =>
      OrchestratorEnds(s, flows, st, input);
      CaughtByName(FlowEnd(s, flows, OrchestratorFlow, st, input).result);
    case Some(SingleAgentFlow) =>
      AgentEndsSo(s, flows, st, input);
      CaughtByName(FlowEnd(s, flows, SingleAgentFlow, st, input).result);
  }

  /** Over a ledger of sensible entries, running out after the bookings means what it says: the wall clock at the
      poll, or the price of all tokens so far, is over its limit. */
  lemma RunsOutExactlyWhenOver(s: Services, st: HarnessState, turn: SingleAgent.AgentTurn, es: seq<Entry>)
    requires st.status == Ledger(s.terms, es) && turn.end.Finished?
    requires Sensible(s.terms, es + Bookings(turn))
    ensures var all := es + Bookings(turn);
            RunsOut(s, st, turn) <==>
            || Over(s.terms.budget.maxWallClockSeconds, turn.checkedAt - s.terms.start)
            || Over(s.terms.budget.maxCostUsd, TokenCost(s.terms, all))
  {
    var all := es + Bookings(turn);
    BookingsPost(s.terms, st.status, es, turn);
    assert all[|all| - 1] == Poll(turn.checkedAt);
    ExhaustedExactlyWhenOver(s.terms, all);
    CostIsTokensTimesPrices(s.terms, all);
  }

  lemma BookingsPost(terms: Terms, status: BudgetStatus, es: seq<Entry>, turn: SingleAgent.AgentTurn)
    requires status == Ledger(terms, es) && turn.end.Finished?
    ensures Ledger(terms, es + Bookings(turn)) == StatusAfter(terms, status, turn)
  {
    TwoMoreEntries(terms, es, Bookings(turn)[0], Bookings(turn)[1]);
    assert Bookings(turn) == [Bookings(turn)[0], Bookings(turn)[1]];
  }
}
