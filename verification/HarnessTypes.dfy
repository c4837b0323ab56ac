/** What the flows and the loop share: exceptions, results, flags, and the state that outlives a turn. */
module HarnessTypes {
  import opened Wrappers
  import opened TemporalMemory
  import opened Budgets
  import opened Permissions
  import opened ToolRegistry

  datatype ExhaustionCause = UsageLimit(text: string) | Tracker(reason: Reason)

  /** The exceptions that leave a flow. The loop catches the first three. */
  datatype Exn =
    | RepeatedFailure(tool: string, count: nat, error: string)
    | BudgetExhausted(cause: ExhaustionCause)
    | PermissionDenied(text: string)
    | Other(text: string)

  datatype Output = NoOutput | Text(text: string) | Message(exn: Exn)

  datatype FlowResult = FlowResult(output: Output, success: bool, stopReason: string)

  datatype AblationFlags = AblationFlags(memoryOn: bool, criticOn: bool)

  /** What a turn can change. */
  datatype HarnessState = HarnessState(status: BudgetStatus, table: Table)

  /** What a turn only reads. */
  datatype Services = Services(tools: Tools, gate: Option<ApprovalGate>, env: Externals, terms: Terms)

  /** What the fact extractor comes back with. */
  type Extraction = Result<seq<MemoryItem>, string>

  const RECALL_K := 5

  function GateOf(gate: Option<ApprovalGate>): ApprovalGate {
    match gate
    case Some(g) => g
    case None => DEFAULT_GATE
  }

  predicate RecallWorks(env: Externals, query: string, outage: bool) {
    !outage && Embed(env, [query]).Success? && |env.encode([query])| == 1
  }

  /** The end of a flow or of a turn, and how often the memory's `remember` was called on the way. */
  datatype Ran = Ran(state: HarnessState, result: Result<FlowResult, Exn>, remembers: nat)

  datatype Written = Written(state: HarnessState, exn: Option<Exn>, remembers: nat)

  /** The memory step for given facts: no call for no facts, and an exception when the store refuses them or fails. */
  function StoreFacts(env: Externals, st: HarnessState, facts: seq<MemoryItem>, scope: string, now: Time, outage: bool)
    : Written
  {
    if facts == [] then Written(st, None, 0)
    else
      match Offered(env, facts, scope, now, outage)
      case Success(rows) => Written(st.(table := InsertAll(st.table, rows)), None, 1)
      case Failure(_) => Written(st, Some(Other("remember failed")), 1)
  }
}
