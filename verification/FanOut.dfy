/**
 The three-way fan-out: two lookups through the registry and a retrieval agent, run as tasks that
 interleave at their awaits. A schedule says which task moves next.
 */
module FanOut {
  import opened Wrappers
  import opened JsonPayload
  import opened Permissions
  import opened ToolRegistry
  import opened HarnessTypes

  const FLOW_NAME := "orchestrator"

  /** One MCP call of the retrieval agent; `absorbed` says that the agent goes on should the call raise. */
  datatype McpCall = McpCall(
    tool: string,
    arguments: map<Text, Json>,
    answer: bool,
    reply: HandlerReply,
    absorbed: bool)

  type Ending = Result<Option<string>, Exn>

  /** A task: waiting for the gate, waiting for its handler, searching, or ended. */
  datatype Task =
    | Lookup(call: ToolCall, answer: bool, reply: HandlerReply)
    | Approved(call: ToolCall, reply: HandlerReply)
    | Retrieval(calls: seq<McpCall>, output: Result<string, string>)
    | Ended(ending: Ending)

  /** The tasks, and the calls that have reached a handler, oldest first. */
  datatype State = State(tasks: seq<Task>, log: seq<ToolCall>)

  function Unavailable(error: string): Ending {
    Success(Some("[unavailable: " + error + "]"))
  }

  function LookupText(result: ToolResult): Ending {
    if result.error.None? then Success(result.output) else Unavailable(result.error.value)
  }

  /** An MCP call is gated only if a gate is configured, at the read-only tier. */
  function McpVerdict(gate: Option<ApprovalGate>, c: McpCall): Verdict {
    match gate
    case None => Allowed
    case Some(g) => Check(g, ToolCall(c.tool, c.arguments, FLOW_NAME), READ_ONLY, c.answer)
  }

  /** One move of a task: its next state, and the call it passed to a handler, if any. */
  function Advance(s: Services, t: Task): (Task, seq<ToolCall>) {
    match t
    case Lookup(call, answer, reply) =>
      if call.toolName !in s.tools then (Ended(Unavailable("unknown tool '" + call.toolName + "'")), [])
      else
        (match Check(GateOf(s.gate), call, s.tools[call.toolName].riskTier, answer)
         case Denied(message) => (Ended(Unavailable(message)), [])
         case Allowed => (Approved(call, reply), []))
    case Approved(call, reply) =>
      (match reply
       case Returned(output) => (Ended(Success(output)), [call])
       case Raised(text) => (Ended(Unavailable(text)), [call]))
    case Retrieval(calls, output) =>
      if calls == [] then
        (Ended(match output case Success(text) => Success(Some(text)) case Failure(text) => Failure(Other(text))), [])
      else
        var c := calls[0];
        (match McpVerdict(s.gate, c)
         case Denied(message) =>
           (if c.absorbed then Retrieval(calls[1..], output) else Ended(Failure(PermissionDenied(message))), [])
         case Allowed =>
           (if c.reply.Raised? && !c.absorbed then Ended(Failure(Other(c.reply.text)))
            else Retrieval(calls[1..], output),
            [ToolCall(c.tool, c.arguments, FLOW_NAME)]))
    case Ended(_) => (t, [])
  }

  /** How many moves a task may still make. */
  function Left(t: Task): nat {
    match t
    case Lookup(_, _, _) => 2
    case Approved(_, _) => 1
    case Retrieval(calls, _) => |calls| + 1
    case Ended(_) => 0
  }

  lemma AdvanceCountsDown(s: Services, t: Task)
    ensures !t.Ended? ==> Left(Advance(s, t).0) < Left(t)
  {}

  /** How a task ends when left to itself. */
  function Finish(s: Services, t: Task): Ending
    decreases Left(t)
  {
    if t.Ended? then t.ending
    else
      AdvanceCountsDown(s, t);
      Finish(s, Advance(s, t).0)
  }

  /** The calls a task will still pass to a handler. */
  function CallsLeft(s: Services, t: Task): seq<ToolCall>
    decreases Left(t)
  {
    if t.Ended? then []
    else
      AdvanceCountsDown(s, t);
      Advance(s, t).1 + CallsLeft(s, Advance(s, t).0)
  }

  /** A lookup left to itself does what the registry's execute does. */
  lemma LookupRefinesExecute(s: Services, call: ToolCall, answer: bool, reply: HandlerReply)
    ensures Finish(s, Lookup(call, answer, reply)) == LookupText(Executed(s.tools, call, GateOf(s.gate), answer, reply))
    ensures CallsLeft(s, Lookup(call, answer, reply)) ==
            if HandlerRuns(s.tools, call, GateOf(s.gate), answer) then [call] else []
  {
    var t := Lookup(call, answer, reply);
    var t' := Advance(s, t).0;
    if t'.Approved? {
      assert Advance(s, t').0.Ended?;
      assert Finish(s, t') == Advance(s, t').0.ending;
      assert CallsLeft(s, Advance(s, t').0) == [];
    }
  }

  /** With no gate configured, a lookup's handler runs exactly when its tool is known and only reads or writes
      internally. */
  lemma LookupWithoutAGate(s: Services, call: ToolCall, answer: bool, reply: HandlerReply)
    requires s.gate.None?
    ensures CallsLeft(s, Lookup(call, answer, reply)) ==
            if call.toolName in s.tools && s.tools[call.toolName].riskTier in {READ_ONLY, WRITES_INTERNAL}
            then [call] else []
  {
    LookupRefinesExecute(s, call, answer, reply);
  }

  /** With one, exactly when its tool is known and that gate lets a call of its tier through. */
  lemma LookupWithAGate(s: Services, g: ApprovalGate, call: ToolCall, answer: bool, reply: HandlerReply)
    requires s.gate == Some(g)
    ensures CallsLeft(s, Lookup(call, answer, reply)) ==
            if call.toolName in s.tools && Check(g, call, s.tools[call.toolName].riskTier, answer).Allowed?
            then [call] else []
  {
    LookupRefinesExecute(s, call, answer, reply);
  }

  /** Without a gate the retrieval agent's calls are not gated at all: each is passed on, up to the first that fails
      and is let through. */
  lemma {:induction false} RetrievalWithoutAGate(s: Services, calls: seq<McpCall>, output: Result<string, string>)
    requires s.gate.None?
    ensures var ran := CallsLeft(s, Retrieval(calls, output));
            && |ran| <= |calls|
            && (forall i :: 0 <= i < |ran| ==> ran[i] == ToolCall(calls[i].tool, calls[i].arguments, "orchestrator"))
            && (|ran| < |calls| ==> ran != [] && calls[|ran| - 1].reply.Raised? && !calls[|ran| - 1].absorbed)
            && (forall i :: 0 <= i < |ran| - 1 ==> calls[i].reply.Returned? || calls[i].absorbed)
    decreases |calls|
  {
    var t := Retrieval(calls, output);
    if calls != [] {
      var t' := Advance(s, t).0;
      var ran := CallsLeft(s, t);
      assert ran == [ToolCall(calls[0].tool, calls[0].arguments, FLOW_NAME)] + CallsLeft(s, t');
      if t'.Retrieval? {
        RetrievalWithoutAGate(s, calls[1..], output);
        assert forall i :: 0 < i < |ran| ==> ran[i] == CallsLeft(s, t')[i - 1] && calls[1..][i - 1] == calls[i];
      }
    } else {
      assert Advance(s, t).0.Ended?;
      assert CallsLeft(s, Advance(s, t).0) == [];
    }
  }

  /** The exception a retrieval call ends the agent with, if it does. */
  function Fatal(s: Services, c: McpCall): Option<Exn> {
    if c.absorbed then None
    else if McpVerdict(s.gate, c).Denied? then Some(PermissionDenied(McpVerdict(s.gate, c).message))
    else if c.reply.Raised? then Some(Other(c.reply.text))
    else None
  }

  /** A retrieval task ends with its first fatal call, or else as its agent ends. */
  lemma {:induction false} RetrievalEnds(s: Services, calls: seq<McpCall>, output: Result<string, string>, n: nat)
    requires n <= |calls| && (forall i :: 0 <= i < n ==> Fatal(s, calls[i]).None?)
    requires n < |calls| ==> Fatal(s, calls[n]).Some?
    ensures var end := Finish(s, Retrieval(calls, output));
            if n < |calls| then end == Failure(Fatal(s, calls[n]).value)
            else if output.Success? then end == Success(Some(output.value))
            else end == Failure(Other(output.error))
    decreases |calls|
  {
    if n > 0 {
      assert Fatal(s, calls[0]).None?;
      assert Advance(s, Retrieval(calls, output)).0 == Retrieval(calls[1..], output);
      RetrievalEnds(s, calls[1..], output, n - 1);
    }
  }

  /** Those of the calls that the gate, if there is one, lets through at the read-only tier. */
  function LetThrough(gate: Option<ApprovalGate>, calls: seq<McpCall>): seq<ToolCall> {
    if calls == [] then []
    else
      (if gate.None? || Permitted(gate.value, READ_ONLY, calls[0].answer)
       then [ToolCall(calls[0].tool, calls[0].arguments, "orchestrator")] else [])
      + LetThrough(gate, calls[1..])
  }

  /** The retrieval agent's calls that reach the server: those let through, up to and with the first fatal one. */
  lemma {:induction false} RetrievalCallsAreGated(s: Services, calls: seq<McpCall>, output: Result<string, string>,
                                                  n: nat)
    requires n <= |calls| && (forall i :: 0 <= i < n ==> Fatal(s, calls[i]).None?)
    requires n < |calls| ==> Fatal(s, calls[n]).Some?
    ensures CallsLeft(s, Retrieval(calls, output)) ==
            LetThrough(s.gate, calls[..if n < |calls| then n + 1 else n])
    decreases |calls|
  {
    var t, m := Retrieval(calls, output), if n < |calls| then n + 1 else n;
    var t' := Advance(s, t).0;
    if calls == [] {
      assert t'.Ended? && CallsLeft(s, t') == [];
    } else {
      assert calls[..m][0] == calls[0] && calls[..m][1..] == calls[1..][..m - 1];
      if n > 0 {
        assert Fatal(s, calls[0]).None?;
        assert t' == Retrieval(calls[1..], output);
        RetrievalCallsAreGated(s, calls[1..], output, n - 1);
      } else {
        assert t'.Ended? && CallsLeft(s, t') == [];
        assert calls[1..][..m - 1] == [];
      }
    }
  }

  /** Call n is refused, its agent lets the refusal through, and no call before it ended the agent. */
  predicate RefusedAt(s: Services, calls: seq<McpCall>, n: nat) {
    && n < |calls| && !calls[n].absorbed && McpVerdict(s.gate, calls[n]).Denied?
    && forall i :: 0 <= i < n ==> Fatal(s, calls[i]).None?
  }

  lemma {:induction false} FirstFatalCall(s: Services, calls: seq<McpCall>) returns (n: nat)
    ensures n <= |calls| && (forall i :: 0 <= i < n ==> Fatal(s, calls[i]).None?)
    ensures n < |calls| ==> Fatal(s, calls[n]).Some?
  {
    n := 0;
    while n < |calls| && Fatal(s, calls[n]).None?
      invariant n <= |calls| && forall i :: 0 <= i < n ==> Fatal(s, calls[i]).None?
    {
      n := n + 1;
    }
  }

  /** The retrieval task raises a permission denial exactly when some call is refused so. */
  lemma RetrievalDeniedExactlyWhen(s: Services, calls: seq<McpCall>, output: Result<string, string>)
    ensures var end := Finish(s, Retrieval(calls, output));
            end.Failure? && end.error.PermissionDenied? <==> exists n: nat :: RefusedAt(s, calls, n)
  {
    var n := FirstFatalCall(s, calls);
    RetrievalEnds(s, calls, output, n);
    if n < |calls| && Fatal(s, calls[n]).value.PermissionDenied? {
      assert RefusedAt(s, calls, n);
    }
    forall m: nat | RefusedAt(s, calls, m) ensures m == n {
      assert Fatal(s, calls[m]).Some?;
    }
  }

  // ---------------------------------------------------------------- schedules

  function Move(s: Services, st: State, i: nat): State {
    if i < |st.tasks| then
      var (t, ran) := Advance(s, st.tasks[i]);
      State(st.tasks[i := t], st.log + ran)
    else st
  }

  function Play(s: Services, st: State, schedule: seq<nat>): State
    decreases |schedule|
  {
    if schedule == [] then st else Play(s, Move(s, st, schedule[0]), schedule[1..])
  }

  datatype Gathered = Pending | Results(endings: seq<Option<string>>) | Failed(exn: Exn)

  /** What asyncio.gather has to give: an exception as soon as a task has raised, else all results together. */
  function Gather(tasks: seq<Task>): Gathered {
    var failed := EndedFailure(tasks);
    if failed.Some? then Failed(failed.value)
    else if forall t <- tasks :: t.Ended? then Results(seq(|tasks|, i requires 0 <= i < |tasks| => ValueOf(tasks[i])))
    else Pending
  }

  function ValueOf(t: Task): Option<string> {
    if t.Ended? && t.ending.Success? then t.ending.value else None
  }

  function EndedFailure(tasks: seq<Task>): Option<Exn> {
    if tasks == [] then None
    else if tasks[0].Ended? && tasks[0].ending.Failure? then Some(tasks[0].ending.error)
    else EndedFailure(tasks[1..])
  }

  /** The same tasks one after the other. */
  function InOrder(s: Services, tasks: seq<Task>): seq<Task> {
    seq(|tasks|, i requires 0 <= i < |tasks| => Ended(Finish(s, tasks[i])))
  }

  /** At most one task can raise: all the others are lookups. */
  predicate OnlyRetrievalRaises(tasks: seq<Task>, r: nat) {
    forall i :: 0 <= i < |tasks| && i != r ==>
                  !tasks[i].Retrieval? && (tasks[i].Ended? ==> tasks[i].ending.Success?)
  }

  lemma MoveKeepsEndings(s: Services, st: State, i: nat, r: nat)
    requires OnlyRetrievalRaises(st.tasks, r)
    ensures |Move(s, st, i).tasks| == |st.tasks|
    ensures OnlyRetrievalRaises(Move(s, st, i).tasks, r)
    ensures forall j :: 0 <= j < |st.tasks| ==> Finish(s, Move(s, st, i).tasks[j]) == Finish(s, st.tasks[j])
  {}

  lemma {:induction false} PlayKeepsEndings(s: Services, st: State, schedule: seq<nat>, r: nat)
    requires OnlyRetrievalRaises(st.tasks, r)
    ensures var st' := Play(s, st, schedule);
            && |st'.tasks| == |st.tasks|
            && OnlyRetrievalRaises(st'.tasks, r)
            && forall j :: 0 <= j < |st.tasks| ==> Finish(s, st'.tasks[j]) == Finish(s, st.tasks[j])
    decreases |schedule|
  {
    if schedule != [] {
      MoveKeepsEndings(s, st, schedule[0], r);
      PlayKeepsEndings(s, Move(s, st, schedule[0]), schedule[1..], r);
    }
  }

  lemma {:induction false} EndedFailureIsTheRetrievals(tasks: seq<Task>, r: int)
    requires forall i :: 0 <= i < |tasks| && i != r ==> !(tasks[i].Ended? && tasks[i].ending.Failure?)
    ensures EndedFailure(tasks) ==
            if 0 <= r < |tasks| && tasks[r].Ended? && tasks[r].ending.Failure? then Some(tasks[r].ending.error)
            else None
    decreases |tasks|
  {
    if tasks != [] {
      EndedFailureIsTheRetrievals(tasks[1..], r - 1);
    }
  }

  lemma {:induction false} FinishedLookupsSucceed(s: Services, t: Task)
    requires !t.Retrieval? && (t.Ended? ==> t.ending.Success?)
    ensures Finish(s, t).Success?
    decreases Left(t)
  {
    if !t.Ended? {
      AdvanceCountsDown(s, t);
      FinishedLookupsSucceed(s, Advance(s, t).0);
    }
  }

  /** Whatever the schedule, gather is either still waiting or gives what running the tasks in order gives. */
  lemma ScheduleIndependence(s: Services, st: State, schedule: seq<nat>, r: nat)
    requires OnlyRetrievalRaises(st.tasks, r)
    ensures var got := Gather(Play(s, st, schedule).tasks);
            got == Pending || got == Gather(InOrder(s, st.tasks))
  {
    PlayKeepsEndings(s, st, schedule, r);
    var now, end := Play(s, st, schedule).tasks, InOrder(s, st.tasks);
    forall i | 0 <= i < |end| && i != r ensures end[i].ending.Success? {
      FinishedLookupsSucceed(s, st.tasks[i]);
    }
    EndedFailureIsTheRetrievals(now, r);
    EndedFailureIsTheRetrievals(end, r);
    forall i | 0 <= i < |now| && now[i].Ended? ensures now[i] == end[i] {
      assert Finish(s, now[i]) == now[i].ending;
    }
    if Gather(now).Results? {
      assert forall i :: 0 <= i < |now| ==> now[i] in now;
      assert now == end;
    }
  }

  // ---------------------------------------------------------------- every fair schedule ends

  function Picks(schedule: seq<nat>, i: nat): nat {
    if schedule == [] then 0 else (if schedule[0] == i then 1 else 0) + Picks(schedule[1..], i)
  }

  lemma {:induction false} PickedOftenEnough(s: Services, st: State, schedule: seq<nat>, i: nat)
    requires i < |st.tasks|
    ensures |Play(s, st, schedule).tasks| == |st.tasks|
    ensures Picks(schedule, i) >= Left(st.tasks[i]) ==> Play(s, st, schedule).tasks[i].Ended?
    decreases |schedule|
  {
    if schedule != [] {
      var st' := Move(s, st, schedule[0]);
      AdvanceCountsDown(s, st.tasks[i]);
      PickedOftenEnough(s, st', schedule[1..], i);
    } else if Left(st.tasks[i]) == 0 {
      assert st.tasks[i].Ended?;
    }
  }

  /** A schedule that lets every task move as often as it can gives the sequential outcome. */
  lemma FairSchedulesAgree(s: Services, st: State, schedule: seq<nat>, r: nat)
    requires OnlyRetrievalRaises(st.tasks, r)
    requires forall i :: 0 <= i < |st.tasks| ==> Picks(schedule, i) >= Left(st.tasks[i])
    ensures Gather(Play(s, st, schedule).tasks) == Gather(InOrder(s, st.tasks))
  {
    PlayKeepsEndings(s, st, schedule, r);
    var now := Play(s, st, schedule).tasks;
    forall t | t in now ensures t.Ended? {
      var i :| 0 <= i < |now| && now[i] == t;
      PickedOftenEnough(s, st, schedule, i);
    }
    assert Gather(now) != Pending;
    ScheduleIndependence(s, st, schedule, r);
  }

  lemma GatherInOrder(s: Services, tasks: seq<Task>, r: nat)
    requires OnlyRetrievalRaises(tasks, r)
    ensures var g := Gather(InOrder(s, tasks));
            if r < |tasks| && Finish(s, tasks[r]).Failure? then g == Failed(Finish(s, tasks[r]).error)
            else g.Results? && |g.endings| == |tasks|
                 && forall j :: 0 <= j < |tasks| ==> Success(g.endings[j]) == Finish(s, tasks[j])
  {
    var end := InOrder(s, tasks);
    forall j | 0 <= j < |end| && j != r ensures end[j].ending.Success? {
      FinishedLookupsSucceed(s, tasks[j]);
    }
    EndedFailureIsTheRetrievals(end, r);
  }

  /** Changing one lookup - its answer, its reply, its tool - changes no other component, whatever the two schedules. */
  lemma ALookupChangesOnlyItself(s: Services, st: State, i: nat, t: Task, p: seq<nat>, q: seq<nat>, r: nat)
    requires OnlyRetrievalRaises(st.tasks, r) && i < |st.tasks| && i != r && t.Lookup?
    requires Gather(Play(s, st, p).tasks) != Pending
    requires Gather(Play(s, State(st.tasks[i := t], st.log), q).tasks) != Pending
    ensures var a, b := Gather(Play(s, st, p).tasks), Gather(Play(s, State(st.tasks[i := t], st.log), q).tasks);
            && (a.Failed? || b.Failed? ==> a == b)
            && (a.Results? && b.Results? ==>
                  && |a.endings| == |b.endings| == |st.tasks|
                  && (forall j :: 0 <= j < |a.endings| && j != i ==> a.endings[j] == b.endings[j])
                  && Success(b.endings[i]) == LookupText(Executed(s.tools, t.call, GateOf(s.gate), t.answer, t.reply)))
  {
    var other := State(st.tasks[i := t], st.log);
    ScheduleIndependence(s, st, p, r);
    ScheduleIndependence(s, other, q, r);
    LookupRefinesExecute(s, t.call, t.answer, t.reply);
    GatherInOrder(s, st.tasks, r);
    GatherInOrder(s, other.tasks, r);
  }

  // ---------------------------------------------------------------- the same effects

  ghost function Total(parts: seq<seq<ToolCall>>): multiset<ToolCall> {
    if parts == [] then multiset{} else Total(parts[..|parts| - 1]) + multiset(parts[|parts| - 1])
  }

  /** All calls the tasks will still pass to a handler. */
  ghost function Effects(s: Services, tasks: seq<Task>): multiset<ToolCall> {
    Total(seq(|tasks|, i requires 0 <= i < |tasks| => CallsLeft(s, tasks[i])))
  }

  lemma {:induction false} TotalAfterMoving(parts: seq<seq<ToolCall>>, i: nat, rest: seq<ToolCall>, ran: seq<ToolCall>)
    requires i < |parts| && parts[i] == ran + rest
    ensures Total(parts) == multiset(ran) + Total(parts[i := rest])
    decreases |parts|
  {
    var init := parts[..|parts| - 1];
    if i < |init| {
      TotalAfterMoving(init, i, rest, ran);
      assert parts[i := rest][..|parts| - 1] == init[i := rest];
    } else {
      assert parts[i := rest][..|parts| - 1] == init;
      assert multiset(ran + rest) == multiset(ran) + multiset(rest);
    }
  }

  lemma EffectsOfUpdate(s: Services, tasks: seq<Task>, i: nat, t: Task, ran: seq<ToolCall>)
    requires i < |tasks| && CallsLeft(s, tasks[i]) == ran + CallsLeft(s, t)
    ensures Effects(s, tasks) == multiset(ran) + Effects(s, tasks[i := t])
  {
    var parts := seq(|tasks|, j requires 0 <= j < |tasks| => CallsLeft(s, tasks[j]));
    var parts' := seq(|tasks|, j requires 0 <= j < |tasks| => CallsLeft(s, tasks[i := t][j]));
    assert parts' == parts[i := CallsLeft(s, t)];
    TotalAfterMoving(parts, i, CallsLeft(s, t), ran);
  }

  /** The calls that reached a handler and those still to come are the same under every schedule. */
  lemma {:induction false} SameEffects(s: Services, st: State, schedule: seq<nat>)
    ensures var st' := Play(s, st, schedule);
            multiset(st'.log) + Effects(s, st'.tasks) == multiset(st.log) + Effects(s, st.tasks)
    decreases |schedule|
  {
    if schedule != [] {
      var i := schedule[0];
      var st' := Move(s, st, i);
      if i < |st.tasks| {
        var (t, ran) := Advance(s, st.tasks[i]);
        if st.tasks[i].Ended? {
          assert st.tasks[i := t] == st.tasks && st.log + ran == st.log;
        } else {
          EffectsOfUpdate(s, st.tasks, i, t, ran);
          assert multiset(st.log + ran) == multiset(st.log) + multiset(ran);
        }
      }
      SameEffects(s, st', schedule[1..]);
    }
  }

  lemma {:induction false} NothingLeftAtTheEnd(s: Services, tasks: seq<Task>)
    requires forall i :: 0 <= i < |tasks| ==> tasks[i].Ended?
    ensures Effects(s, tasks) == multiset{}
    decreases |tasks|
  {
    if tasks != [] {
      var init := tasks[..|tasks| - 1];
      NothingLeftAtTheEnd(s, init);
      var parts := seq(|tasks|, i requires 0 <= i < |tasks| => CallsLeft(s, tasks[i]));
      assert parts[..|tasks| - 1] == seq(|init|, i requires 0 <= i < |init| => CallsLeft(s, init[i]));
    }
  }

  /** Once every task has ended, the calls that reached a handler are the same, whatever the schedule was. */
  lemma FinishedSchedulesRunTheSameCalls(s: Services, st: State, schedule: seq<nat>)
    requires forall i :: 0 <= i < |Play(s, st, schedule).tasks| ==> Play(s, st, schedule).tasks[i].Ended?
    ensures multiset(Play(s, st, schedule).log) == multiset(st.log) + Effects(s, st.tasks)
  {
    SameEffects(s, st, schedule);
    NothingLeftAtTheEnd(s, Play(s, st, schedule).tasks);
  }
}
