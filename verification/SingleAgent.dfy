/**
 The single-agent flow: an agent that makes tool calls, one after another, through one dispatcher.

 The agent is arbitrary: it makes any calls, stops or goes on after a call that raised, and reports
 any usage. What it and the handlers do is given with the turn.
 */
module SingleAgent {
  import opened Wrappers
  import opened JsonPayload
  import opened TemporalMemory
  import opened Budgets
  import opened Permissions
  import opened ToolRegistry
  import opened FailureDetector
  import opened HarnessTypes

  const FLOW_NAME := "single_agent"
  const MAX_REPEATS := 2

  /** One tool call; `absorbed` says that the agent goes on should the call raise. */
  datatype AgentStep = AgentStep(
    tool: string,
    arguments: map<Text, Json>,
    answer: bool,
    reply: HandlerReply,
    absorbed: bool)

  datatype AgentUsage = AgentUsage(inputTokens: int, outputTokens: int, toolCalls: int)

  datatype AgentEnd =
    | Finished(output: Option<string>, usage: AgentUsage)
    | LimitExceeded(text: string)
    | Crashed(text: string)

  datatype AgentTurn = AgentTurn(
    steps: seq<AgentStep>,
    end: AgentEnd,
    extraction: Extraction,
    newId: string,
    recordedAt: real,
    checkedAt: real,
    rememberedAt: Time,
    recallFails: bool,
    rememberFails: bool,
    transcriptError: Option<string>)

  // ---------------------------------------------------------------- dispatching

  function CallOf(step: AgentStep): ToolCall {
    ToolCall(step.tool, step.arguments, FLOW_NAME)
  }

  function StepOutcome(tools: Tools, gate: ApprovalGate, step: AgentStep): Outcome {
    Outcome(Executed(tools, CallOf(step), gate, step.answer, step.reply), step.arguments)
  }

  function Outcomes(tools: Tools, gate: ApprovalGate, steps: seq<AgentStep>): seq<Outcome> {
    seq(|steps|, i requires 0 <= i < |steps| => StepOutcome(tools, gate, steps[i]))
  }

  /** A failed call raises: as a repeated failure if its record makes it one, else as a plain error. */
  function Dispatched(maxRepeats: int, done: seq<Record>, result: ToolResult, record: Record)
    : Result<Option<string>, Exn>
  {
    if result.error.None? then Success(result.output)
    else if Trips(maxRepeats, done, record) then
      Failure(RepeatedFailure(result.toolName, Count(done, record.key) + 1, result.error.value))
    else Failure(Other(result.error.value))
  }

  /** The exception that ends the agent's run early, if one does. */
  function Driven(tools: Tools, gate: ApprovalGate, done: seq<Record>, steps: seq<AgentStep>): Option<Exn>
    decreases |steps|
  {
    if steps == [] then None
    else
      var o := StepOutcome(tools, gate, steps[0]);
      match Dispatched(MAX_REPEATS, done, o.result, RecordOf(o))
      case Failure(exn) =>
        if steps[0].absorbed then Driven(tools, gate, done + [RecordOf(o)], steps[1..]) else Some(exn)
      case Success(_) => Driven(tools, gate, done + [RecordOf(o)], steps[1..])
  }

  lemma DrivenByOneStep(tools: Tools, gate: ApprovalGate, done: seq<Record>, steps: seq<AgentStep>, n: nat)
    requires n < |steps|
    ensures var o := StepOutcome(tools, gate, steps[n]);
            var r := Dispatched(MAX_REPEATS, done, o.result, RecordOf(o));
            Driven(tools, gate, done, steps[n..]) ==
            if r.Failure? && !steps[n].absorbed then Some(r.error)
            else Driven(tools, gate, done + [RecordOf(o)], steps[n + 1..])
  {
    assert steps[n..][1..] == steps[n + 1..];
  }

  /** How step i ends, given what the steps before it left with the detector. */
  function StepEnd(tools: Tools, gate: ApprovalGate, steps: seq<AgentStep>, i: nat): Result<Option<string>, Exn>
    requires i < |steps|
  {
    var o := StepOutcome(tools, gate, steps[i]);
    Dispatched(MAX_REPEATS, Records(Outcomes(tools, gate, steps[..i])), o.result, RecordOf(o))
  }

  lemma RecordsUpTo(tools: Tools, gate: ApprovalGate, steps: seq<AgentStep>, i: nat)
    requires i < |steps|
    ensures Records(Outcomes(tools, gate, steps[..i + 1])) ==
            Records(Outcomes(tools, gate, steps[..i])) + [RecordOf(StepOutcome(tools, gate, steps[i]))]
  {
    var all := Outcomes(tools, gate, steps[..i + 1]);
    RecordsGrow(all);
    assert all[..i] == Outcomes(tools, gate, steps[..i]);
  }

  lemma {:induction false} DrivenFrom(tools: Tools, gate: ApprovalGate, steps: seq<AgentStep>, from: nat, n: nat)
    requires from <= n <= |steps|
    requires forall i :: from <= i < n ==> StepEnd(tools, gate, steps, i).Success? || steps[i].absorbed
    requires n < |steps| ==> StepEnd(tools, gate, steps, n).Failure? && !steps[n].absorbed
    ensures Driven(tools, gate, Records(Outcomes(tools, gate, steps[..from])), steps[from..]) ==
            if n < |steps| then Some(StepEnd(tools, gate, steps, n).error) else None
    decreases n - from
  {
    if from < |steps| {
      DrivenByOneStep(tools, gate, Records(Outcomes(tools, gate, steps[..from])), steps, from);
      if from < n {
        RecordsUpTo(tools, gate, steps, from);
        DrivenFrom(tools, gate, steps, from + 1, n);
      }
    }
  }

  /** The agent's run ends with the first call that raises and is not absorbed, or with none. */
  lemma FirstEscapeEndsTheRun(tools: Tools, gate: ApprovalGate, steps: seq<AgentStep>, n: nat)
    requires n <= |steps|
    requires forall i :: 0 <= i < n ==> StepEnd(tools, gate, steps, i).Success? || steps[i].absorbed
    requires n < |steps| ==> StepEnd(tools, gate, steps, n).Failure? && !steps[n].absorbed
    ensures Driven(tools, gate, [], steps) == if n < |steps| then Some(StepEnd(tools, gate, steps, n).error) else None
  {
    assert steps[0..] == steps && steps[..0] == [];
    DrivenFrom(tools, gate, steps, 0, n);
  }

  // ---------------------------------------------------------------- what was dispatched

  /** A dispatched call: whether its handler ran, and the error it was turned away with if not. */
  datatype TraceEntry = TraceEntry(call: ToolCall, handlerRan: bool, refusal: Option<string>)

  function EntryOf(tools: Tools, gate: ApprovalGate, step: AgentStep): TraceEntry {
    var ran := HandlerRuns(tools, CallOf(step), gate, step.answer);
    TraceEntry(CallOf(step), ran,
               if ran then None else Executed(tools, CallOf(step), gate, step.answer, step.reply).error)
  }

  /** Whether a call ends the run: its handler did not run or raised, and the agent lets the exception through. */
  predicate Escapes(tools: Tools, gate: ApprovalGate, step: AgentStep) {
    !step.absorbed && !(HandlerRuns(tools, CallOf(step), gate, step.answer) && step.reply.Returned?)
  }

  /** The calls that the agent's run dispatches, in order, up to one that ends it. */
  function Trace(tools: Tools, gate: ApprovalGate, steps: seq<AgentStep>): seq<TraceEntry>
    decreases |steps|
  {
    if steps == [] then []
    else
      [EntryOf(tools, gate, steps[0])] +
      if Escapes(tools, gate, steps[0]) then [] else Trace(tools, gate, steps[1..])
  }

  lemma TraceByOneStep(tools: Tools, gate: ApprovalGate, steps: seq<AgentStep>, n: nat)
    requires n < |steps|
    ensures Trace(tools, gate, steps[n..]) ==
            [EntryOf(tools, gate, steps[n])] +
            if Escapes(tools, gate, steps[n]) then [] else Trace(tools, gate, steps[n + 1..])
  {
    assert steps[n..][1..] == steps[n + 1..];
  }

  lemma EscapesTells(tools: Tools, gate: ApprovalGate, done: seq<Record>, step: AgentStep)
    ensures var o := StepOutcome(tools, gate, step);
            Dispatched(MAX_REPEATS, done, o.result, RecordOf(o)).Failure? && !step.absorbed <==>
            Escapes(tools, gate, step)
  {
    ResultTellsWhatRan(tools, CallOf(step), gate, step.answer, step.reply, step.reply);
  }

  /** One turn of the agent's loop: the run ends here, or goes on with one record and one entry more. */
  lemma OneMoreCall(tools: Tools, gate: ApprovalGate, done: seq<Record>, steps: seq<AgentStep>, n: nat,
                    r: Result<Option<string>, Exn>, before: seq<TraceEntry>)
    requires n < |steps|
    requires var o := StepOutcome(tools, gate, steps[n]);
             r == Dispatched(MAX_REPEATS, done, o.result, RecordOf(o))
    ensures var record, entry := RecordOf(StepOutcome(tools, gate, steps[n])), EntryOf(tools, gate, steps[n]);
            if r.Failure? && !steps[n].absorbed then
              && Driven(tools, gate, done, steps[n..]) == Some(r.error)
              && before + Trace(tools, gate, steps[n..]) == before + [entry]
            else
              && Driven(tools, gate, done, steps[n..]) == Driven(tools, gate, done + [record], steps[n + 1..])
              && before + Trace(tools, gate, steps[n..]) == before + [entry] + Trace(tools, gate, steps[n + 1..])
  {
    DrivenByOneStep(tools, gate, done, steps, n);
    EscapesTells(tools, gate, done, steps[n]);
    TraceByOneStep(tools, gate, steps, n);
    OneEntryMore(before, EntryOf(tools, gate, steps[n]),
                 Trace(tools, gate, steps[n..]), Trace(tools, gate, steps[n + 1..]));
  }

  lemma OneEntryMore(before: seq<TraceEntry>, entry: TraceEntry, all: seq<TraceEntry>, rest: seq<TraceEntry>)
    ensures all == [entry] + [] ==> before + all == before + [entry]
    ensures all == [entry] + rest ==> before + all == before + [entry] + rest
  {}

  /** `trace` holds every call up to and with the first that escapes, or all of them. */
  ghost predicate StopsAtFirstEscape(tools: Tools, gate: ApprovalGate, steps: seq<AgentStep>, trace: seq<TraceEntry>) {
    && |trace| <= |steps|
    && (forall i :: 0 <= i < |trace| ==> trace[i] == EntryOf(tools, gate, steps[i]))
    && (forall i :: 0 <= i < |trace| - 1 ==> !Escapes(tools, gate, steps[i]))
    && (|trace| < |steps| ==> trace != [] && Escapes(tools, gate, steps[|trace| - 1]))
  }

  lemma {:induction false} TraceStopsAtFirstEscape(tools: Tools, gate: ApprovalGate, steps: seq<AgentStep>)
    ensures StopsAtFirstEscape(tools, gate, steps, Trace(tools, gate, steps))
    decreases |steps|
  {
    if steps != [] && !Escapes(tools, gate, steps[0]) {
      var trace, rest := Trace(tools, gate, steps), Trace(tools, gate, steps[1..]);
      TraceStopsAtFirstEscape(tools, gate, steps[1..]);
      assert trace == [EntryOf(tools, gate, steps[0])] + rest;
      forall i | 0 <= i < |trace| ensures trace[i] == EntryOf(tools, gate, steps[i]) {
        assert i > 0 ==> trace[i] == rest[i - 1] && steps[1..][i - 1] == steps[i];
      }
      forall i | 0 <= i < |trace| - 1 ensures !Escapes(tools, gate, steps[i]) {
        assert i > 0 ==> steps[1..][i - 1] == steps[i];
      }
      assert rest != [] ==> steps[1..][|rest| - 1] == steps[|trace| - 1];
    }
  }

  lemma DrivenOnward(tools: Tools, gate: ApprovalGate, done: seq<Record>, steps: seq<AgentStep>)
    returns (done': seq<Record>)
    requires steps != []
    ensures Escapes(tools, gate, steps[0]) ==> Driven(tools, gate, done, steps).Some?
    ensures !Escapes(tools, gate, steps[0]) ==>
              Driven(tools, gate, done, steps) == Driven(tools, gate, done', steps[1..])
  {
    EscapesTells(tools, gate, done, steps[0]);
    done' := done + [RecordOf(StepOutcome(tools, gate, steps[0]))];
  }

  lemma TraceOnward(tools: Tools, gate: ApprovalGate, steps: seq<AgentStep>)
    requires steps != [] && !Escapes(tools, gate, steps[0])
    ensures |Trace(tools, gate, steps)| == |Trace(tools, gate, steps[1..])| + 1
  {}

  /** The agent's run ends with an exception exactly when the last call it dispatched escapes. */
  lemma {:induction false} AnExceptionEndsTheTrace(tools: Tools, gate: ApprovalGate, done: seq<Record>,
                                                   steps: seq<AgentStep>)
    ensures var n := |Trace(tools, gate, steps)|;
            && n <= |steps|
            && (Driven(tools, gate, done, steps).Some? <==> n > 0 && Escapes(tools, gate, steps[n - 1]))
            && (Driven(tools, gate, done, steps).None? ==> n == |steps|)
    decreases |steps|
  {
    if steps != [] {
      var done' := DrivenOnward(tools, gate, done, steps);
      if !Escapes(tools, gate, steps[0]) {
        TraceOnward(tools, gate, steps);
        AnExceptionEndsTheTrace(tools, gate, done', steps[1..]);
      }
    }
  }

  /** Call n is the first that the agent lets through, and has failed before with the same arguments. */
  ghost predicate RepeatsAt(tools: Tools, gate: ApprovalGate, steps: seq<AgentStep>, n: nat) {
    && n < |steps| && Escapes(tools, gate, steps[n])
    && (forall i :: 0 <= i < n ==> !Escapes(tools, gate, steps[i]))
    && exists m :: 0 <= m < n && FailsAlike(tools, gate, steps[m], steps[n])
  }

  /** `a` fails, with the tool, the error and, on paper, the arguments of `b`. */
  ghost predicate FailsAlike(tools: Tools, gate: ApprovalGate, a: AgentStep, b: AgentStep) {
    !StepOutcome(tools, gate, a).result.Ok() && SameOnPaper(StepOutcome(tools, gate, a), StepOutcome(tools, gate, b))
  }

  lemma DispatchedAs(maxRepeats: int, done: seq<Record>, result: ToolResult, record: Record)
    requires !result.Ok()
    ensures var r := Dispatched(maxRepeats, done, result, record);
            && r.Failure?
            && (r.error.RepeatedFailure? <==> Trips(maxRepeats, done, record))
            && r.error == if Trips(maxRepeats, done, record)
                          then RepeatedFailure(result.toolName, Count(done, record.key) + 1, result.error.value)
                          else Other(result.error.value)
  {}

  /** A failed call raises as a repeated failure exactly when it is at least the second of its kind. */
  lemma SecondOfItsKindRepeats(tools: Tools, gate: ApprovalGate, steps: seq<AgentStep>, n: nat)
    requires n < |steps| && !StepOutcome(tools, gate, steps[n]).result.Ok()
    ensures StepEnd(tools, gate, steps, n).Failure?
    ensures StepEnd(tools, gate, steps, n).error.RepeatedFailure? <==>
            exists m :: 0 <= m < n && FailsAlike(tools, gate, steps[m], steps[n])
    ensures var o, e := StepOutcome(tools, gate, steps[n]), StepEnd(tools, gate, steps, n).error;
            var times := Repetitions(Outcomes(tools, gate, steps[..n]), o) + 1;
            e == if times >= 2 then RepeatedFailure(o.result.toolName, times, o.result.error.value)
                 else Other(o.result.error.value)
  {
    var run, o := Outcomes(tools, gate, steps[..n]), StepOutcome(tools, gate, steps[n]);
    TripsOnTheNthRepetition(2, run, o);
    RepeatedMeansSeenBefore(run, o);
    DispatchedAs(2, Records(run), o.result, RecordOf(o));
    KeysCountRepetitions(run, o, RecordOf(o).key);
    SeenBefore(tools, gate, steps, n);
  }

  lemma SeenBefore(tools: Tools, gate: ApprovalGate, steps: seq<AgentStep>, n: nat)
    requires n < |steps|
    ensures var run, o := Outcomes(tools, gate, steps[..n]), StepOutcome(tools, gate, steps[n]);
            (exists m :: 0 <= m < |run| && !run[m].result.Ok() && SameOnPaper(run[m], o)) <==>
            exists m :: 0 <= m < n && FailsAlike(tools, gate, steps[m], steps[n])
  {
    var run, o := Outcomes(tools, gate, steps[..n]), StepOutcome(tools, gate, steps[n]);
    assert forall m :: 0 <= m < n ==> run[m] == StepOutcome(tools, gate, steps[m]);
  }

  lemma StepEscapes(tools: Tools, gate: ApprovalGate, steps: seq<AgentStep>, n: nat)
    requires n < |steps|
    ensures StepEnd(tools, gate, steps, n).Failure? && !steps[n].absorbed <==> Escapes(tools, gate, steps[n])
    ensures Escapes(tools, gate, steps[n]) ==> !StepOutcome(tools, gate, steps[n]).result.Ok()
  {
    EscapesTells(tools, gate, Records(Outcomes(tools, gate, steps[..n])), steps[n]);
    ResultTellsWhatRan(tools, CallOf(steps[n]), gate, steps[n].answer, steps[n].reply, steps[n].reply);
  }

  lemma FirstEscape(tools: Tools, gate: ApprovalGate, steps: seq<AgentStep>) returns (n: nat)
    ensures n <= |steps| && (forall i :: 0 <= i < n ==> !Escapes(tools, gate, steps[i]))
    ensures n < |steps| ==> Escapes(tools, gate, steps[n])
  {
    n := 0;
    while n < |steps| && !Escapes(tools, gate, steps[n])
      invariant n <= |steps| && forall i :: 0 <= i < n ==> !Escapes(tools, gate, steps[i])
    {
      n := n + 1;
    }
  }

  /** The agent's tool calls end it with an exception exactly when some call escapes, and with a repeated failure
      exactly when the first that does has failed so before. */
  lemma DrivenExactlyWhen(tools: Tools, gate: ApprovalGate, steps: seq<AgentStep>)
    ensures var exn := Driven(tools, gate, [], steps);
            && (exn.None? <==> forall i :: 0 <= i < |steps| ==> !Escapes(tools, gate, steps[i]))
            && (exn.Some? && exn.value.RepeatedFailure? <==> exists n: nat :: RepeatsAt(tools, gate, steps, n))
            && (exn.Some? && !exn.value.RepeatedFailure? ==> exn.value.Other?)
  {
    var n := FirstEscape(tools, gate, steps);
    forall i | 0 <= i < |steps|
      ensures StepEnd(tools, gate, steps, i).Failure? && !steps[i].absorbed <==> Escapes(tools, gate, steps[i])
    {
      StepEscapes(tools, gate, steps, i);
    }
    FirstEscapeEndsTheRun(tools, gate, steps, n);
    forall m: nat | RepeatsAt(tools, gate, steps, m) ensures m == n {}
    DrivenNeverDenied(tools, gate, [], steps);
    if n < |steps| {
      StepEscapes(tools, gate, steps, n);
      SecondOfItsKindRepeats(tools, gate, steps, n);
      if StepEnd(tools, gate, steps, n).error.RepeatedFailure? {
        assert RepeatsAt(tools, gate, steps, n);
      }
    }
  }

  /** A handler ran only for a known tool whose own tier is allowed outright or got its own approval. */
  ghost predicate RanWithLeave(tools: Tools, gate: ApprovalGate, e: TraceEntry, answer: bool) {
    && e.call.toolName in tools
    && var policy := PolicyFor(gate.matrix, tools[e.call.toolName].riskTier);
       policy == AUTO_ALLOW || (policy == REQUIRE_APPROVAL && gate.hasCallback && answer)
  }

  /** In the trace of any run: a handler ran exactly with leave, and a call turned away says why. */
  lemma TraceIsGated(tools: Tools, gate: ApprovalGate, steps: seq<AgentStep>, i: nat)
    requires i < |Trace(tools, gate, steps)|
    ensures i < |steps|
    ensures var e := Trace(tools, gate, steps)[i];
            && e.call == CallOf(steps[i])
            && (e.handlerRan <==> RanWithLeave(tools, gate, e, steps[i].answer))
            && (e.handlerRan <==> e.refusal.None?)
            && (!e.handlerRan && e.call.toolName in tools ==>
                  Check(gate, e.call, tools[e.call.toolName].riskTier, steps[i].answer) == Denied(e.refusal.value))
  {
    TraceStopsAtFirstEscape(tools, gate, steps);
  }

  /** With a gate configured, a handler ran exactly with the leave of that gate. */
  lemma WithAGate(tools: Tools, g: ApprovalGate, steps: seq<AgentStep>, i: nat)
    requires i < |Trace(tools, GateOf(Some(g)), steps)|
    ensures i < |steps|
    ensures var e := Trace(tools, GateOf(Some(g)), steps)[i];
            e.handlerRan <==> RanWithLeave(tools, g, e, steps[i].answer)
  {
    TraceIsGated(tools, GateOf(Some(g)), steps, i);
  }

  /** With no gate configured, a handler ran exactly for a known tool that only reads or writes internally. */
  lemma WithoutAGate(tools: Tools, steps: seq<AgentStep>, i: nat)
    requires i < |Trace(tools, GateOf(None), steps)|
    ensures var e := Trace(tools, GateOf(None), steps)[i];
            e.handlerRan <==>
            e.call.toolName in tools && tools[e.call.toolName].riskTier in {READ_ONLY, WRITES_INTERNAL}
  {
    TraceIsGated(tools, GateOf(None), steps, i);
  }

  /** The same calls with the same answers, as far as both go; outputs and what the agent absorbs may differ. */
  predicate SameRequests(a: seq<AgentStep>, b: seq<AgentStep>) {
    forall i :: 0 <= i < |a| && i < |b| ==> SameCall(a[i], b[i]) && a[i].answer == b[i].answer
  }

  predicate SameCall(a: AgentStep, b: AgentStep) {
    a.tool == b.tool && a.arguments == b.arguments
  }

  lemma SameRequestSameEntry(tools: Tools, gate: ApprovalGate, a: AgentStep, b: AgentStep)
    requires SameCall(a, b) && a.answer == b.answer
    ensures EntryOf(tools, gate, a) == EntryOf(tools, gate, b)
  {
    ResultTellsWhatRan(tools, CallOf(a), gate, a.answer, a.reply, b.reply);
  }

  ghost predicate AlikeUpTo(a: seq<AgentStep>, s: seq<TraceEntry>, b: seq<AgentStep>, t: seq<TraceEntry>) {
    && (forall i :: 0 <= i < |s| && i < |t| ==> s[i] == t[i])
    && (|s| < |t| ==>
          || |s| == |a| < |b|
          || (0 < |s| <= |a| && |s| <= |b| && ShorterBecause(a[|s| - 1], b[|s| - 1], s[|s| - 1])))
  }

  /** Why the call of `a` ends its run and that of `b` does not end the other. */
  predicate ShorterBecause(a: AgentStep, b: AgentStep, e: TraceEntry) {
    !a.absorbed && (b.absorbed || (e.handlerRan && a.reply.Raised? && b.reply.Returned?))
  }

  lemma StoppedTracesAgree(tools: Tools, gate: ApprovalGate, a: seq<AgentStep>, s: seq<TraceEntry>,
                           b: seq<AgentStep>, t: seq<TraceEntry>)
    requires SameRequests(a, b)
    requires StopsAtFirstEscape(tools, gate, a, s) && StopsAtFirstEscape(tools, gate, b, t)
    ensures AlikeUpTo(a, s, b, t)
  {
    forall i | 0 <= i < |s| && i < |t| ensures s[i] == t[i] {
      SameRequestSameEntry(tools, gate, a[i], b[i]);
    }
    if |s| < |t| && |s| < |a| {
      assert Escapes(tools, gate, a[|s| - 1]) && !Escapes(tools, gate, b[|s| - 1]);
      assert SameCall(a[|s| - 1], b[|s| - 1]);
    }
  }

  /**
   Two runs that make the same requests dispatch them alike - handlers run or are refused with the same words -
   as far as the shorter trace goes, whatever the handlers return. One is shorter only because its agent asked
   for no more, or because its last call escaped where the other's did not: there the other agent absorbed the
   exception, or the handler ran in both and raised in one alone.
   */
  lemma DecisionsIgnoreOutputs(tools: Tools, gate: ApprovalGate, a: seq<AgentStep>, b: seq<AgentStep>)
    requires SameRequests(a, b)
    ensures AlikeUpTo(a, Trace(tools, gate, a), b, Trace(tools, gate, b))
  {
    TraceStopsAtFirstEscape(tools, gate, a);
    TraceStopsAtFirstEscape(tools, gate, b);
    StoppedTracesAgree(tools, gate, a, Trace(tools, gate, a), b, Trace(tools, gate, b));
  }

  // ---------------------------------------------------------------- the whole flow

  /** The memory step after a finished run: which facts are written, and whether that raises. */
  function WriteBack(services: Services, memoryOn: bool, hasExtractor: bool, request: string, scope: string,
                     st: HarnessState, output: Option<string>, turn: AgentTurn): Written
  {
    if !memoryOn || output.None? || output.value == "" then Written(st, None, 0)
    else if hasExtractor then
      match turn.extraction
      case Failure(text) => Written(st, Some(Other(text)), 0)
      case Success(facts) => StoreFacts(services.env, st, facts, scope, turn.rememberedAt, turn.rememberFails)
    else
      var exchange := WholeExchange(request, output.value, scope, turn.newId);
      StoreFacts(services.env, st, [exchange], scope, turn.rememberedAt, turn.rememberFails)
  }

  function WholeExchange(request: string, output: string, scope: string, id: string): MemoryItem {
    MemoryItem("Q: " + request + "\nA: " + output, scope, None, None, FLOW_NAME, None, None, id)
  }

  /** The flow from the moment the agent has finished: book its usage, check the budget, remember, answer. */
  function Concluded(services: Services, memoryOn: bool, hasExtractor: bool, request: string, scope: string,
                     st: HarnessState, output: Option<string>, usage: AgentUsage, turn: AgentTurn): Ran
  {
    var calls := if usage.toolCalls != 0 then usage.toolCalls else |turn.steps|;
    var s1 := Recorded(services.terms, st.status, usage.inputTokens, usage.outputTokens, calls, turn.recordedAt);
    var s2 := Checked(services.terms, s1, turn.checkedAt);
    var st' := st.(status := s2);
    if s2.exhaustedReason.Some? then Ran(st', Failure(BudgetExhausted(Tracker(s2.exhaustedReason.value))), 0)
    else
      var written := WriteBack(services, memoryOn, hasExtractor, request, scope, st', output, turn);
      var result :=
        if written.exn.Some? then Failure(written.exn.value)
        else if turn.transcriptError.Some? then Failure(Other(turn.transcriptError.value))
        else Success(FlowResult(if output.Some? then Text(output.value) else NoOutput, true, "success"));
      Ran(written.state, result, written.remembers)
  }

  /** The flow from the moment the agent has come to its end, with no exception from a tool call. */
  function AgentEnded(services: Services, memoryOn: bool, hasExtractor: bool, request: string, scope: string,
                      st: HarnessState, turn: AgentTurn): Ran
  {
    match turn.end
    case LimitExceeded(text) => Ran(st, Failure(BudgetExhausted(UsageLimit(text))), 0)
    case Crashed(text) => Ran(st, Failure(Other(text)), 0)
    case Finished(output, usage) =>
      Concluded(services, memoryOn, hasExtractor, request, scope, st, output, usage, turn)
  }

  function FlowRun(services: Services, memoryOn: bool, hasExtractor: bool, request: string, scope: string,
                   st: HarnessState, turn: AgentTurn): Ran
  {
    if memoryOn && !RecallWorks(services.env, request, turn.recallFails) then
      Ran(st, Failure(Other("recall failed")), 0)
    else
      var exn := Driven(services.tools, GateOf(services.gate), [], turn.steps);
      if exn.Some? then Ran(st, Failure(exn.value), 0)
      else AgentEnded(services, memoryOn, hasExtractor, request, scope, st, turn)
  }

  class SingleAgentFlow {
    const hasExtractor: bool

    constructor (hasExtractor: bool)
      ensures this.hasExtractor == hasExtractor
    {
      this.hasExtractor := hasExtractor;
    }

    /** Records a result and raises what it calls for. */
    method Settle(detector: RepeatedFailureDetector, result: ToolResult, arguments: map<Text, Json>,
                  ghost done: seq<Record>) returns (r: Result<Option<string>, Exn>)
      requires Counts(detector.seen, done)
      modifies detector
      ensures Counts(detector.seen, done + [RecordOf(Outcome(result, arguments))])
      ensures r == Dispatched(detector.maxRepeats, done, result, RecordOf(Outcome(result, arguments)))
    {
      var raises, count := detector.Record(result, arguments, done);
      if raises {
        return Failure(RepeatedFailure(result.toolName, count, result.error.value));
      }
      if !result.Ok() {
        return Failure(Other(result.error.value));
      }
      r := Success(result.output);
    }

    method Dispatch(registry: InMemoryToolRegistry, gate: ApprovalGate, detector: RepeatedFailureDetector,
                    step: AgentStep, ghost done: seq<Record>)
      returns (r: Result<Option<string>, Exn>, entry: TraceEntry)
      requires registry.Valid() && Counts(detector.seen, done)
      modifies detector
      ensures Counts(detector.seen, done + [RecordOf(StepOutcome(registry.tools, gate, step))])
      ensures r == Dispatched(detector.maxRepeats, done, StepOutcome(registry.tools, gate, step).result,
                              RecordOf(StepOutcome(registry.tools, gate, step)))
      ensures entry == EntryOf(registry.tools, gate, step)
    {
      var result, handlerRan := registry.Execute(CallOf(step), gate, step.answer, step.reply);
      entry := TraceEntry(CallOf(step), handlerRan, if handlerRan then None else result.error);
      r := Settle(detector, result, step.arguments, done);
    }

    /** `trace` is the calls dispatched, with what became of each. */
    method DriveAgent(registry: InMemoryToolRegistry, gate: ApprovalGate, steps: seq<AgentStep>)
      returns (exn: Option<Exn>, callCount: nat, trace: seq<TraceEntry>)
      requires registry.Valid()
      ensures exn == Driven(registry.tools, gate, [], steps)
      ensures trace == Trace(registry.tools, gate, steps)
      ensures callCount == |trace| && (exn.None? ==> callCount == |steps|)
    {
      var detector := new RepeatedFailureDetector(MAX_REPEATS);
      ghost var done := [];
      callCount, trace := 0, [];
      while callCount < |steps|
        invariant callCount == |trace| <= |steps|
        invariant fresh(detector) && detector.maxRepeats == MAX_REPEATS && Counts(detector.seen, done)
        invariant Driven(registry.tools, gate, [], steps) == Driven(registry.tools, gate, done, steps[callCount..])
        invariant Trace(registry.tools, gate, steps) == trace + Trace(registry.tools, gate, steps[callCount..])
      {
        var step := steps[callCount];
        var r, entry := Dispatch(registry, gate, detector, step, done);
        OneMoreCall(registry.tools, gate, done, steps, callCount, r, trace);
        callCount, trace := callCount + 1, trace + [entry];
        if r.Failure? && !step.absorbed {
          return Some(r.error), callCount, trace;
        }
        done := done + [RecordOf(StepOutcome(registry.tools, gate, step))];
      }
      exn := None;
    }

    method Run(request: string, memoryOn: bool, scope: string, registry: InMemoryToolRegistry,
               gate: Option<ApprovalGate>, memory: PgVectorMemoryStore, budget: BudgetTracker, turn: AgentTurn)
      returns (r: Result<FlowResult, Exn>, remembers: nat)
      requires registry.Valid()
      modifies memory, budget
      ensures memory.remembers == old(memory.remembers) + remembers
      ensures memory.recalls == old(memory.recalls) + if memoryOn then [RecallCall(request, scope, 5)] else []
      ensures Ran(HarnessState(budget.status, memory.rows), r, remembers) ==
              FlowRun(Services(registry.tools, gate, memory.env, budget.terms), memoryOn, hasExtractor, request, scope,
                      old(HarnessState(budget.status, memory.rows)), turn)
    {
      var grants := GateOf(gate);
      remembers := 0;
      if memoryOn {
        var recalled, _ := memory.Recall(request, scope, RECALL_K, turn.recallFails);
        if recalled.Failure? {
          return Failure(Other("recall failed")), 0;
        }
      }
      var exn, callCount, _ := DriveAgent(registry, grants, turn.steps);
      if exn.Some? {
        return Failure(exn.value), 0;
      }
      r, remembers := EndAgent(Services(registry.tools, gate, memory.env, budget.terms), request, memoryOn, scope,
                               memory, budget, callCount, turn);
    }

    method EndAgent(ghost services: Services, request: string, memoryOn: bool, scope: string,
                    memory: PgVectorMemoryStore, budget: BudgetTracker, callCount: nat, turn: AgentTurn)
      returns (r: Result<FlowResult, Exn>, remembers: nat)
      requires services.env == memory.env && services.terms == budget.terms && callCount == |turn.steps|
      modifies memory`rows, memory`remembers, budget
      ensures memory.remembers == old(memory.remembers) + remembers
      ensures Ran(HarnessState(budget.status, memory.rows), r, remembers) ==
              AgentEnded(services, memoryOn, hasExtractor, request, scope,
                         old(HarnessState(budget.status, memory.rows)), turn)
    {
      remembers := 0;
      match turn.end
      case LimitExceeded(text) =>
        r := Failure(BudgetExhausted(UsageLimit(text)));
      case Crashed(text) =>
        r := Failure(Other(text));
      case Finished(output, usage) =>
        r, remembers := Conclude(services, request, memoryOn, scope, memory, budget, output, usage, callCount, turn);
    }

    /** The memory step: the exchange, or what the extractor finds in it, if there is anything to remember. */
    method Memorize(ghost services: Services, request: string, memoryOn: bool, scope: string,
                    memory: PgVectorMemoryStore, ghost budget: BudgetTracker, output: Option<string>, turn: AgentTurn)
      returns (exn: Option<Exn>, remembers: nat)
      requires services.env == memory.env
      modifies memory`rows, memory`remembers
      ensures memory.remembers == old(memory.remembers) + remembers
      ensures Written(HarnessState(budget.status, memory.rows), exn, remembers) ==
              WriteBack(services, memoryOn, hasExtractor, request, scope,
                        old(HarnessState(budget.status, memory.rows)), output, turn)
    {
      if !memoryOn || output.None? || output.value == "" {
        return None, 0;
      }
      var facts := [WholeExchange(request, output.value, scope, turn.newId)];
      if hasExtractor {
        if turn.extraction.Failure? {
          return Some(Other(turn.extraction.error)), 0;
        }
        facts := turn.extraction.value;
      }
      if facts == [] {
        return None, 0;
      }
      var stored := memory.Remember(facts, scope, turn.rememberedAt, turn.rememberFails);
      exn, remembers := if stored.Failure? then Some(Other("remember failed")) else None, 1;
    }

    method Conclude(ghost services: Services, request: string, memoryOn: bool, scope: string,
                    memory: PgVectorMemoryStore, budget: BudgetTracker, output: Option<string>, usage: AgentUsage,
                    callCount: nat, turn: AgentTurn)
      returns (r: Result<FlowResult, Exn>, remembers: nat)
      requires services.env == memory.env && services.terms == budget.terms && callCount == |turn.steps|
      modifies memory`rows, memory`remembers, budget
      ensures memory.remembers == old(memory.remembers) + remembers
      ensures Ran(HarnessState(budget.status, memory.rows), r, remembers) ==
              Concluded(services, memoryOn, hasExtractor, request, scope,
                        old(HarnessState(budget.status, memory.rows)), output, usage, turn)
    {
      var calls := if usage.toolCalls != 0 then usage.toolCalls else callCount;
      budget.RecordUsage(usage.inputTokens, usage.outputTokens, calls, turn.recordedAt);
      var exhausted := budget.CheckWallClock(turn.checkedAt);
      if exhausted {
        return Failure(BudgetExhausted(Tracker(budget.status.exhaustedReason.value))), 0;
      }
      var failed: Option<Exn>;
      failed, remembers := Memorize(services, request, memoryOn, scope, memory, budget, output, turn);
      if failed.Some? {
        return Failure(failed.value), remembers;
      }
      if turn.transcriptError.Some? {
        return Failure(Other(turn.transcriptError.value)), remembers;
      }
      r := Success(FlowResult(if output.Some? then Text(output.value) else NoOutput, true, "success"));
    }
  }

  // ---------------------------------------------------------------- denials

  /** The call of a known tool that the gate refuses. */
  predicate IsDenied(tools: Tools, gate: ApprovalGate, step: AgentStep) {
    step.tool in tools && !HandlerRuns(tools, CallOf(step), gate, step.answer)
  }

  /** How many of the steps are denied calls like `step`. */
  function DenialsLike(tools: Tools, gate: ApprovalGate, steps: seq<AgentStep>, step: AgentStep): nat {
    if steps == [] then 0
    else
      var last := steps[|steps| - 1];
      DenialsLike(tools, gate, steps[..|steps| - 1], step) +
      if IsDenied(tools, gate, last) && SameCall(last, step) then 1 else 0
  }

  lemma DenialsShareAKey(tools: Tools, gate: ApprovalGate, a: AgentStep, b: AgentStep)
    requires SameCall(a, b) && IsDenied(tools, gate, a) && IsDenied(tools, gate, b)
    ensures !StepOutcome(tools, gate, a).result.Ok()
    ensures StepOutcome(tools, gate, a) == StepOutcome(tools, gate, b)
  {
    var spec := tools[a.tool];
    DenialTextIsFixed(gate, CallOf(a), CallOf(b), spec.riskTier, a.answer, b.answer);
  }

  lemma OneMoreRecord(run: seq<Record>, last: Record, key: string, like: bool, before: nat)
    requires Count(run, key) >= before
    requires like ==> last == Failed(key)
    ensures Count(run + [last], key) >= before + if like then 1 else 0
  {
    CountAfter(run, last, key);
  }

  /** The last record of a run; if its call is a denied one like `step`, that of `step`. */
  lemma LastRecord(tools: Tools, gate: ApprovalGate, steps: seq<AgentStep>, step: AgentStep, record: Record)
    returns (last: Record)
    requires steps != [] && IsDenied(tools, gate, step) && RecordOf(StepOutcome(tools, gate, step)) == record
    ensures Records(Outcomes(tools, gate, steps)) == Records(Outcomes(tools, gate, steps[..|steps| - 1])) + [last]
    ensures IsDenied(tools, gate, steps[|steps| - 1]) && SameCall(steps[|steps| - 1], step) ==> last == record
  {
    last := RecordOf(StepOutcome(tools, gate, steps[|steps| - 1]));
    RecordsUpTo(tools, gate, steps, |steps| - 1);
    assert steps[..|steps| - 1 + 1] == steps;
    if IsDenied(tools, gate, steps[|steps| - 1]) && SameCall(steps[|steps| - 1], step) {
      DenialsShareAKey(tools, gate, steps[|steps| - 1], step);
    }
  }

  lemma {:induction false} DenialsAreCounted(tools: Tools, gate: ApprovalGate, steps: seq<AgentStep>, step: AgentStep,
                                             key: string)
    requires IsDenied(tools, gate, step)
    requires RecordOf(StepOutcome(tools, gate, step)) == Failed(key)
    ensures Count(Records(Outcomes(tools, gate, steps)), key) >= DenialsLike(tools, gate, steps, step)
    decreases |steps|
  {
    if steps != [] {
      var init, last := steps[..|steps| - 1], steps[|steps| - 1];
      DenialsAreCounted(tools, gate, init, step, key);
      var record := LastRecord(tools, gate, steps, step, Failed(key));
      OneMoreRecord(Records(Outcomes(tools, gate, init)), record, key,
                    IsDenied(tools, gate, last) && SameCall(last, step), DenialsLike(tools, gate, init, step));
    }
  }

  /** The maxRepeats-th denial of one call raises as a repeated failure, if the run gets that far. */
  lemma DenialsBecomeRepeatedFailures(maxRepeats: int, tools: Tools, gate: ApprovalGate, before: seq<AgentStep>,
                                      step: AgentStep)
    requires IsDenied(tools, gate, step)
    requires DenialsLike(tools, gate, before, step) + 1 >= maxRepeats
    ensures var r := Dispatched(maxRepeats, Records(Outcomes(tools, gate, before)),
                              StepOutcome(tools, gate, step).result, RecordOf(StepOutcome(tools, gate, step)));
            r.Failure? && r.error.RepeatedFailure? && r.error.count >= maxRepeats
  {
    DenialsShareAKey(tools, gate, step, step);
    DenialsAreCounted(tools, gate, before, step, RecordOf(StepOutcome(tools, gate, step)).key);
  }

  /** No early end of the agent's run is a permission denial. */
  lemma {:induction false} DrivenNeverDenied(tools: Tools, gate: ApprovalGate, done: seq<Record>, steps: seq<AgentStep>)
    ensures var exn := Driven(tools, gate, done, steps);
            exn.Some? ==> exn.value.RepeatedFailure? || exn.value.Other?
    decreases |steps|
  {
    if steps != [] {
      DrivenNeverDenied(tools, gate, done + [RecordOf(StepOutcome(tools, gate, steps[0]))], steps[1..]);
    }
  }
}
