/** The tool registry: every tool call passes through `Execute`, which asks the gate before the handler. */
module ToolRegistry {
  import opened Wrappers
  import opened Permissions

  datatype ToolSpec = ToolSpec(
    name: string,
    description: string,
    riskTier: RiskTier,
    costEstimate: real,
    owner: string,
    flows: set<string>)

  type Tools = map<string, ToolSpec>

  /** How a handler ends: with a value, or with an exception and its text. */
  datatype HandlerReply = Returned(output: Option<string>) | Raised(text: string)

  datatype ToolResult = ToolResult(
    toolName: string,
    output: Option<string>,
    error: Option<string>,
    riskTier: Option<RiskTier>)
  {
    predicate Ok() {
      error.None?
    }
  }

  ghost predicate WellNamed(tools: Tools) {
    forall name <- tools :: tools[name].name == name
  }

  /** The handler runs exactly when the tool is known and its own tier permits its own call. */
  predicate HandlerRuns(tools: Tools, call: ToolCall, gate: ApprovalGate, answer: bool) {
    call.toolName in tools && Permitted(gate, tools[call.toolName].riskTier, answer)
  }

  /** The result of a call, given the answer the gate would get and the reply the handler would give. */
  function Executed(tools: Tools, call: ToolCall, gate: ApprovalGate, answer: bool, reply: HandlerReply): ToolResult {
    if call.toolName !in tools then
      ToolResult(call.toolName, None, Some("unknown tool '" + call.toolName + "'"), None)
    else
      var spec := tools[call.toolName];
      match Check(gate, call, spec.riskTier, answer)
      case Denied(message) => ToolResult(spec.name, None, Some(message), Some(spec.riskTier))
      case Allowed =>
        match reply
        case Returned(output) => ToolResult(spec.name, output, None, Some(spec.riskTier))
        case Raised(text) => ToolResult(spec.name, None, Some(text), Some(spec.riskTier))
  }

  /** A call succeeds exactly when its handler ran and returned; one that did not run leaves no trace in the result. */
  lemma ResultTellsWhatRan(tools: Tools, call: ToolCall, gate: ApprovalGate, answer: bool,
                           r1: HandlerReply, r2: HandlerReply)
    ensures Executed(tools, call, gate, answer, r1).Ok() <==> HandlerRuns(tools, call, gate, answer) && r1.Returned?
    ensures !HandlerRuns(tools, call, gate, answer) ==>
              Executed(tools, call, gate, answer, r1) == Executed(tools, call, gate, answer, r2)
    ensures WellNamed(tools) ==> Executed(tools, call, gate, answer, r1).toolName == call.toolName
  {}

  predicate OpenTo(spec: ToolSpec, flow: string) {
    spec.flows == {} || flow in spec.flows
  }

  /** The tools open to a flow, in the order of `names`. */
  function ScopedTo(tools: Tools, names: seq<string>, flow: string): seq<ToolSpec>
    requires forall name <- names :: name in tools
  {
    if names == [] then []
    else
      var last := names[|names| - 1];
      ScopedTo(tools, names[..|names| - 1], flow) + if OpenTo(tools[last], flow) then [tools[last]] else []
  }

  predicate DistinctNames(specs: seq<ToolSpec>) {
    forall i, j :: 0 <= i < j < |specs| ==> specs[i].name != specs[j].name
  }

  /** Every registered tool open to the flow is listed, none else is, and none twice. */
  lemma {:induction false} ScopedIsExact(tools: Tools, names: seq<string>, flow: string)
    requires WellNamed(tools) && forall name <- names :: name in tools
    requires forall i, j :: 0 <= i < j < |names| ==> names[i] != names[j]
    ensures forall spec :: spec in ScopedTo(tools, names, flow) <==>
                           spec.name in names && tools[spec.name] == spec && (spec.flows == {} || flow in spec.flows)
    ensures DistinctNames(ScopedTo(tools, names, flow))
    decreases |names|
  {
    if names != [] {
      var init, last := names[..|names| - 1], names[|names| - 1];
      ScopedIsExact(tools, init, flow);
      assert forall name :: name in names <==> name in init || name == last;
      assert last !in init;
      var specs := ScopedTo(tools, init, flow);
      forall i | 0 <= i < |specs| ensures specs[i].name != last {
        assert specs[i] in specs;
      }
      var all := ScopedTo(tools, names, flow);
      assert all == specs + if OpenTo(tools[last], flow) then [tools[last]] else [];
      assert tools[last].name == last;
      forall i, j | 0 <= i < j < |all| ensures all[i].name != all[j].name {
        assert all[i] == specs[i];
        if j < |specs| {
          assert all[j] == specs[j];
          assert specs[i].name != specs[j].name;
        } else {
          assert all[j] == tools[last];
          assert specs[i].name != last;
        }
      }
    }
  }

  class InMemoryToolRegistry {
    var tools: Tools
    var names: seq<string>

    /** `names` is the order of first registration. */
    ghost predicate Valid()
      reads this
    {
      && WellNamed(tools)
      && (forall name :: name in names <==> name in tools)
      && (forall i, j :: 0 <= i < j < |names| ==> names[i] != names[j])
    }

    constructor ()
      ensures Valid() && tools == map[]
    {
      tools := map[];
      names := [];
    }

    /** Registering a name again replaces its spec and keeps its place. */
    method Register(spec: ToolSpec)
      requires Valid()
      modifies this
      ensures Valid()
      ensures tools == old(tools)[spec.name := spec]
      ensures names == if spec.name in old(tools) then old(names) else old(names) + [spec.name]
    {
      if spec.name !in tools {
        names := names + [spec.name];
      }
      tools := tools[spec.name := spec];
    }

    method Scoped(flow: string) returns (specs: seq<ToolSpec>)
      requires Valid()
      ensures specs == ScopedTo(tools, names, flow)
    {
      specs := [];
      for n := 0 to |names|
        invariant specs == ScopedTo(tools, names[..n], flow)
      {
        assert names[..n + 1][..n] == names[..n];
        var spec := tools[names[n]];
        if spec.flows == {} || flow in spec.flows {
          specs := specs + [spec];
        }
      }
      assert names[..|names|] == names;
    }

    method Execute(call: ToolCall, gate: ApprovalGate, answer: bool, reply: HandlerReply)
      returns (result: ToolResult, handlerRan: bool)
      requires Valid()
      ensures result == Executed(tools, call, gate, answer, reply)
      ensures handlerRan <==> HandlerRuns(tools, call, gate, answer)
      ensures result.Ok() <==> handlerRan && reply.Returned?
      ensures result.toolName == call.toolName
      ensures handlerRan && reply.Returned? ==> result.output == reply.output
      ensures handlerRan && reply.Raised? ==> result.error == Some(reply.text)
      ensures !handlerRan && call.toolName in tools ==>
                Check(gate, call, tools[call.toolName].riskTier, answer) == Denied(result.error.value)
      ensures result.riskTier == if call.toolName in tools then Some(tools[call.toolName].riskTier) else None
    {
      if call.toolName !in tools {
        return ToolResult(call.toolName, None, Some("unknown tool '" + call.toolName + "'"), None), false;
      }
      var spec := tools[call.toolName];
      var verdict := Check(gate, call, spec.riskTier, answer);
      if verdict.Denied? {
        return ToolResult(spec.name, None, Some(verdict.message), Some(spec.riskTier)), false;
      }
      handlerRan := true;
      if reply.Raised? {
        result := ToolResult(spec.name, None, Some(reply.text), Some(spec.riskTier));
      } else {
        result := ToolResult(spec.name, reply.output, None, Some(spec.riskTier));
      }
    }
  }
}
