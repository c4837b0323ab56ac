/** The orchestrator flow: fan-out, synthesis, an optional critic, and an optional memory step. */
module Orchestrator {
  import opened Wrappers
  import opened JsonPayload
  import opened TemporalMemory
  import opened Budgets
  import opened Permissions
  import opened ToolRegistry
  import opened HarnessTypes
  import opened FanOut
  import FailureDetector

  /** What the outside world does during one turn. Agents answer with a summary or raise. */
  datatype OrchestratorTurn = OrchestratorTurn(
    schedule: seq<nat>,
    accountAnswer: bool,
    accountReply: HandlerReply,
    meetingAnswer: bool,
    meetingReply: HandlerReply,
    mcpCalls: seq<McpCall>,
    retrieved: Result<string, string>,
    synthesis: Result<string, string>,
    critique: Result<string, string>,
    extraction: Extraction,
    rememberedAt: Time,
    recallFails: bool,
    rememberFails: bool)

  /** How often a turn called an agent and the memory. */
  datatype Activity = Activity(agentCalls: nat, recalls: nat, remembers: nat)

  datatype Orchestrated = Orchestrated(state: HarnessState, result: Result<FlowResult, Exn>, activity: Activity)

  function ClientArguments(clientKey: Text): map<Text, Json> {
    map[[0x63, 0x6C, 0x69, 0x65, 0x6E, 0x74] := JString(clientKey)]
  }

  function Tasks(clientKey: Text, turn: OrchestratorTurn): seq<Task> {
    [Lookup(ToolCall("account_lookup", ClientArguments(clientKey), FLOW_NAME), turn.accountAnswer, turn.accountReply),
     Lookup(ToolCall("meeting_history", ClientArguments(clientKey), FLOW_NAME), turn.meetingAnswer, turn.meetingReply),
     Retrieval(turn.mcpCalls, turn.retrieved)]
  }

  /** The memory step: what the extractor found is written, and whether that raises. */
  function WriteBack(s: Services, memoryOn: bool, hasExtractor: bool, scope: string, st: HarnessState,
                     turn: OrchestratorTurn): Written
  {
    if !memoryOn || !hasExtractor then Written(st, None, 0)
    else
      match turn.extraction
      case Failure(text) => Written(st, Some(Other(text)), 0)
      case Success(facts) => StoreFacts(s.env, st, facts, scope, turn.rememberedAt, turn.rememberFails)
  }

  /** The flow after its fan-out. */
  function AfterFanOut(s: Services, flags: AblationFlags, hasExtractor: bool, request: string, scope: string,
                       st: HarnessState, turn: OrchestratorTurn): Orchestrated
  {
    var recalls := if flags.memoryOn then 1 else 0;
    if flags.memoryOn && !RecallWorks(s.env, request, turn.recallFails) then
      Orchestrated(st, Failure(Other("recall failed")), Activity(1, recalls, 0))
    else if turn.synthesis.Failure? then
      Orchestrated(st, Failure(Other(turn.synthesis.error)), Activity(2, recalls, 0))
    else if flags.criticOn && turn.critique.Failure? then
      Orchestrated(st, Failure(Other(turn.critique.error)), Activity(3, recalls, 0))
    else
      var agents := if flags.criticOn then 3 else 2;
      var text := if flags.criticOn then turn.critique.value else turn.synthesis.value;
      var done := FlowResult(HarnessTypes.Text(text), true, "success");
      var written := WriteBack(s, flags.memoryOn, hasExtractor, scope, st, turn);
      Orchestrated(written.state, if written.exn.Some? then Failure(written.exn.value) else Success(done),
                   Activity(agents, recalls, written.remembers))
  }

  /** The flow from the outcome of its fan-out on. */
  function AfterGather(gathered: Gathered, s: Services, flags: AblationFlags, hasExtractor: bool, request: string,
                       scope: string, st: HarnessState, turn: OrchestratorTurn): Orchestrated
  {
    if gathered.Failed? then Orchestrated(st, Failure(gathered.exn), Activity(1, 0, 0))
    else AfterFanOut(s, flags, hasExtractor, request, scope, st, turn)
  }

  function FlowRun(s: Services, flags: AblationFlags, hasExtractor: bool, clientKey: Text, request: string,
                   scope: string, st: HarnessState, turn: OrchestratorTurn): Orchestrated
  {
    AfterGather(Gather(InOrder(s, Tasks(clientKey, turn))), s, flags, hasExtractor, request, scope, st, turn)
  }

  lemma AllEndedIsDecided(tasks: seq<Task>)
    ensures (forall j :: 0 <= j < |tasks| ==> tasks[j].Ended?) ==> Gather(tasks) != Pending
  {}

  lemma TasksAreFit(clientKey: Text, turn: OrchestratorTurn)
    ensures OnlyRetrievalRaises(Tasks(clientKey, turn), 2)
  {}

  class OrchestratorFlow {
    const clientKey: Text
    const hasExtractor: bool

    // How often an agent was run.
    ghost var agentRuns: nat

    constructor (clientKey: Text, hasExtractor: bool)
      ensures this.clientKey == clientKey && this.hasExtractor == hasExtractor && agentRuns == 0
    {
      this.clientKey := clientKey;
      this.hasExtractor := hasExtractor;
      agentRuns := 0;
    }

    /** Runs an agent that will answer, or raise, as given. */
    method RunAgent(answer: Result<string, string>) returns (r: Result<string, string>)
      modifies `agentRuns
      ensures agentRuns == old(agentRuns) + 1 && r == answer
    {
      agentRuns := agentRuns + 1;
      r := answer;
    }

    /** Moves the tasks as scheduled until gather has an outcome; tasks the schedule leaves out go last. */
    method GatherTasks(s: Services, tasks: seq<Task>, schedule: seq<nat>) returns (g: Gathered)
      requires OnlyRetrievalRaises(tasks, 2)
      ensures g == Gather(InOrder(s, tasks))
    {
      var st := State(tasks, []);
      var played := 0;
      ghost var taken: seq<nat> := [];
      g := Gather(tasks);
      while g == Pending && played < |schedule|
        invariant 0 <= played <= |schedule| && g == Gather(st.tasks)
        invariant st == Play(s, State(tasks, []), taken)
      {
        PlayOneMore(s, State(tasks, []), taken, schedule[played]);
        st := Move(s, st, schedule[played]);
        taken := taken + [schedule[played]];
        g := Gather(st.tasks);
        played := played + 1;
      }
      var i := 0;
      while g == Pending && i < |st.tasks|
        invariant i <= |st.tasks| && g == Gather(st.tasks)
        invariant st == Play(s, State(tasks, []), taken)
        invariant forall j :: 0 <= j < i ==> st.tasks[j].Ended?
        decreases |st.tasks| - i, if i < |st.tasks| then Left(st.tasks[i]) else 0
      {
        if st.tasks[i].Ended? {
          i := i + 1;
        } else {
          AdvanceCountsDown(s, st.tasks[i]);
          PlayOneMore(s, State(tasks, []), taken, i);
          st := Move(s, st, i);
          taken := taken + [i];
          g := Gather(st.tasks);
        }
      }
      AllEndedIsDecided(st.tasks);
      ScheduleIndependence(s, State(tasks, []), taken, 2);
    }

    method Run(request: string, flags: AblationFlags, scope: string, registry: InMemoryToolRegistry,
               gate: Option<ApprovalGate>, memory: PgVectorMemoryStore, budget: BudgetTracker, turn: OrchestratorTurn)
      returns (r: Result<FlowResult, Exn>, activity: Activity)
      modifies memory, `agentRuns
      ensures memory.remembers == old(memory.remembers) + activity.remembers
      ensures memory.recalls == old(memory.recalls) +
                                if activity.recalls == 1 then [RecallCall(request, scope, 5)] else []
      ensures activity.recalls <= if flags.memoryOn then 1 else 0
      ensures agentRuns == old(agentRuns) + activity.agentCalls
      ensures Orchestrated(HarnessState(budget.status, memory.rows), r, activity) ==
              FlowRun(Services(registry.tools, gate, memory.env, budget.terms), flags, hasExtractor, clientKey,
                      request, scope, old(HarnessState(budget.status, memory.rows)), turn)
    {
      var s := Services(registry.tools, gate, memory.env, budget.terms);
      TasksAreFit(clientKey, turn);
      var _ := RunAgent(turn.retrieved);
      var g := GatherTasks(s, Tasks(clientKey, turn), turn.schedule);
      if g.Failed? {
        return Failure(g.exn), Activity(1, 0, 0);
      }
      r, activity := Synthesize(s, request, flags, scope, memory, budget, turn);
    }

    /** The memory step: what the extractor found, if it found anything. */
    method Memorize(ghost s: Services, flags: AblationFlags, scope: string, memory: PgVectorMemoryStore,
                    ghost budget: BudgetTracker, turn: OrchestratorTurn)
      returns (exn: Option<Exn>, remembers: nat)
      requires s.env == memory.env
      modifies memory`rows, memory`remembers
      ensures memory.remembers == old(memory.remembers) + remembers
      ensures Written(HarnessState(budget.status, memory.rows), exn, remembers) ==
              WriteBack(s, flags.memoryOn, hasExtractor, scope, old(HarnessState(budget.status, memory.rows)), turn)
    {
      if !flags.memoryOn || !hasExtractor {
        return None, 0;
      }
      if turn.extraction.Failure? {
        return Some(Other(turn.extraction.error)), 0;
      }
      if turn.extraction.value == [] {
        return None, 0;
      }
      var stored := memory.Remember(turn.extraction.value, scope, turn.rememberedAt, turn.rememberFails);
      exn, remembers := if stored.Failure? then Some(Other("remember failed")) else None, 1;
    }

    method Synthesize(ghost s: Services, request: string, flags: AblationFlags, scope: string,
                      memory: PgVectorMemoryStore, ghost budget: BudgetTracker, turn: OrchestratorTurn)
      returns (r: Result<FlowResult, Exn>, activity: Activity)
      requires s.env == memory.env
      modifies memory, `agentRuns
      ensures memory.remembers == old(memory.remembers) + activity.remembers
      ensures memory.recalls == old(memory.recalls) +
                                if activity.recalls == 1 then [RecallCall(request, scope, 5)] else []
      ensures activity.recalls <= if flags.memoryOn then 1 else 0
      ensures agentRuns + 1 == old(agentRuns) + activity.agentCalls
      ensures Orchestrated(HarnessState(budget.status, memory.rows), r, activity) ==
              AfterFanOut(s, flags, hasExtractor, request, scope, old(HarnessState(budget.status, memory.rows)), turn)
    {
      activity := Activity(1, 0, 0);
      if flags.memoryOn {
        activity := activity.(recalls := activity.recalls + 1);
        var recalled, _ := memory.Recall(request, scope, RECALL_K, turn.recallFails);
        if recalled.Failure? {
          return Failure(Other("recall failed")), activity;
        }
      }
      activity := activity.(agentCalls := activity.agentCalls + 1);
      var synthesis := RunAgent(turn.synthesis);
      if synthesis.Failure? {
        return Failure(Other(synthesis.error)), activity;
      }
      if flags.criticOn {
        activity := activity.(agentCalls := activity.agentCalls + 1);
        synthesis := RunAgent(turn.critique);
        if synthesis.Failure? {
          return Failure(Other(synthesis.error)), activity;
        }
      }
      var failed, remembers := Memorize(s, flags, scope, memory, budget, turn);
      activity := activity.(remembers := remembers);
      if failed.Some? {
        return Failure(failed.value), activity;
      }
      r := Success(FlowResult(HarnessTypes.Text(synthesis.value), true, "success"));
    }
  }

  lemma {:induction false} PlayOneMore(s: Services, st: State, schedule: seq<nat>, i: nat)
    ensures Play(s, st, schedule + [i]) == Move(s, Play(s, st, schedule), i)
    decreases |schedule|
  {
    if schedule != [] {
      assert (schedule + [i])[1..] == schedule[1..] + [i];
      PlayOneMore(s, Move(s, st, schedule[0]), schedule[1..], i);
    } else {
      assert [i][1..] == [];
    }
  }

  /** A denied or failing lookup never fails the turn: what the lookups meet decides nothing about how the
      fan-out ends, and only the retrieval agent's task can end it with an exception. */
  lemma LookupsNeverFailTheTurn(s: Services, clientKey: Text, turn: OrchestratorTurn)
    ensures var g := Gather(InOrder(s, Tasks(clientKey, turn)));
            if Finish(s, Tasks(clientKey, turn)[2]).Failure? then
              g == Failed(Finish(s, Tasks(clientKey, turn)[2]).error)
            else
              && g.Results? && |g.endings| == 3
              && Success(g.endings[0]) == Finish(s, Tasks(clientKey, turn)[0])
              && Success(g.endings[1]) == Finish(s, Tasks(clientKey, turn)[1])
              && Success(g.endings[2]) == Finish(s, Tasks(clientKey, turn)[2])
  {
    TasksAreFit(clientKey, turn);
    GatherInOrder(s, Tasks(clientKey, turn), 2);
  }

  /** What a lookup of this tool contributes to the synthesis. */
  ghost predicate IsComponent(s: Services, tool: string, clientKey: Text, answer: bool, reply: HandlerReply,
                              component: Option<string>)
  {
    if tool !in s.tools then component == Some("[unavailable: unknown tool '" + tool + "']")
    else
      var call := ToolCall(tool, map[FailureDetector.TextOf("client") := JString(clientKey)], "orchestrator");
      match Check(GateOf(s.gate), call, s.tools[tool].riskTier, answer)
      case Denied(why) => component == Some("[unavailable: " + why + "]")
      case Allowed =>
        match reply
        case Returned(output) => component == output
        case Raised(text) => component == Some("[unavailable: " + text + "]")
  }

  lemma ClientArgumentsAre(clientKey: Text)
    ensures ClientArguments(clientKey) == map[FailureDetector.TextOf("client") := JString(clientKey)]
  {
    assert FailureDetector.TextOf("client") == [0x63, 0x6C, 0x69, 0x65, 0x6E, 0x74];
  }

  lemma LookupIsComponent(s: Services, tool: string, clientKey: Text, answer: bool, reply: HandlerReply)
    ensures var end := Finish(s, Lookup(ToolCall(tool, ClientArguments(clientKey), FLOW_NAME), answer, reply));
            end.Success? && IsComponent(s, tool, clientKey, answer, reply, end.value)
  {
    ClientArgumentsAre(clientKey);
    var call := ToolCall(tool, ClientArguments(clientKey), FLOW_NAME);
    LookupRefinesExecute(s, call, answer, reply);
    if tool !in s.tools {
      assert "[unavailable: " + ("unknown tool '" + tool + "'") + "]" == "[unavailable: unknown tool '" + tool + "']";
    }
  }

  /** The three components of a turn that gets past its fan-out, by tool. */
  lemma ComponentsAre(s: Services, clientKey: Text, turn: OrchestratorTurn)
    requires Finish(s, Tasks(clientKey, turn)[2]).Success?
    ensures var g := Gather(InOrder(s, Tasks(clientKey, turn)));
            && g.Results? && |g.endings| == 3
            && IsComponent(s, "account_lookup", clientKey, turn.accountAnswer, turn.accountReply, g.endings[0])
            && IsComponent(s, "meeting_history", clientKey, turn.meetingAnswer, turn.meetingReply, g.endings[1])
            && turn.retrieved.Success? && g.endings[2] == Some(turn.retrieved.value)
  {
    LookupsNeverFailTheTurn(s, clientKey, turn);
    LookupIsComponent(s, "account_lookup", clientKey, turn.accountAnswer, turn.accountReply);
    LookupIsComponent(s, "meeting_history", clientKey, turn.meetingAnswer, turn.meetingReply);
    var n := FirstFatalCall(s, turn.mcpCalls);
    RetrievalEnds(s, turn.mcpCalls, turn.retrieved, n);
  }

  lemma CriticDelta(g: Gathered, s: Services, hasExtractor: bool, request: string, scope: string,
                    st: HarnessState, turn: OrchestratorTurn, memoryOn: bool)
    ensures var with := AfterGather(g, s, AblationFlags(memoryOn, true), hasExtractor, request, scope, st, turn);
            var without := AfterGather(g, s, AblationFlags(memoryOn, false), hasExtractor, request, scope, st, turn);
            && (with.result.Success? <==> without.result.Success? && turn.critique.Success?)
            && (with.result.Success? ==>
                  && with.state == without.state
                  && with.activity == without.activity.(agentCalls := without.activity.agentCalls + 1)
                  && with.result.value.output == HarnessTypes.Text(turn.critique.value)
                  && without.result.value.output == HarnessTypes.Text(turn.synthesis.value))
  {}

  /** The critic costs one agent call and its answer replaces the synthesis. It changes nothing else: a turn with
      it succeeds exactly when the turn without it does and the critic itself does not raise. */
  lemma AblationDeltas(s: Services, hasExtractor: bool, clientKey: Text, request: string, scope: string,
                       st: HarnessState, turn: OrchestratorTurn, memoryOn: bool)
    ensures var on, off := AblationFlags(memoryOn, true), AblationFlags(memoryOn, false);
            var with := FlowRun(s, on, hasExtractor, clientKey, request, scope, st, turn);
            var without := FlowRun(s, off, hasExtractor, clientKey, request, scope, st, turn);
            && (with.result.Success? <==> without.result.Success? && turn.critique.Success?)
            && (with.result.Success? ==>
                  && with.state == without.state
                  && with.activity == without.activity.(agentCalls := without.activity.agentCalls + 1)
                  && with.result.value.output == HarnessTypes.Text(turn.critique.value)
                  && without.result.value.output == HarnessTypes.Text(turn.synthesis.value))
  {
    CriticDelta(Gather(InOrder(s, Tasks(clientKey, turn))), s, hasExtractor, request, scope, st, turn, memoryOn);
  }

  lemma SwitchAfterGather(g: Gathered, s: Services, flags: AblationFlags, hasExtractor: bool, request: string,
                          scope: string, st: HarnessState, turn: OrchestratorTurn)
    ensures var ran := AfterGather(g, s, flags, hasExtractor, request, scope, st, turn);
            && ran.activity.recalls == (if flags.memoryOn && !g.Failed? then 1 else 0)
            && ran.activity.remembers <= 1
            && (ran.activity.remembers == 1 ==>
                  flags.memoryOn && hasExtractor && turn.extraction.Success? && turn.extraction.value != [])
            && (!flags.memoryOn ==> ran.activity.remembers == 0 && ran.state == st)
  {}

  /** With memory off the turn, however it ends, neither recalls nor remembers, and changes nothing. With memory
      on it recalls once unless the fan-out raised, and remembers once at most, only facts that were extracted. */
  lemma MemorySwitch(s: Services, flags: AblationFlags, hasExtractor: bool, clientKey: Text, request: string,
                     scope: string, st: HarnessState, turn: OrchestratorTurn)
    ensures var ran := FlowRun(s, flags, hasExtractor, clientKey, request, scope, st, turn);
            var retrieval := Finish(s, Tasks(clientKey, turn)[2]);
            && ran.activity.recalls == (if flags.memoryOn && retrieval.Success? then 1 else 0)
            && ran.activity.remembers <= 1
            && (ran.activity.remembers == 1 ==>
                  flags.memoryOn && hasExtractor && turn.extraction.Success? && turn.extraction.value != [])
            && (!flags.memoryOn ==> ran.activity.remembers == 0 && ran.state == st)
  {
    LookupsNeverFailTheTurn(s, clientKey, turn);
    SwitchAfterGather(Gather(InOrder(s, Tasks(clientKey, turn))), s, flags, hasExtractor, request, scope, st, turn);
  }
}
