/** Risk tiers, the policy matrix and the approval gate. */
module Permissions {
  import opened JsonPayload

  datatype RiskTier = READ_ONLY | WRITES_INTERNAL | FINANCIAL | DESTRUCTIVE

  datatype Policy = AUTO_ALLOW | REQUIRE_APPROVAL | DENY

  type Matrix = map<RiskTier, Policy>

  const DEFAULT_MATRIX: Matrix := map[
    READ_ONLY := AUTO_ALLOW,
    WRITES_INTERNAL := AUTO_ALLOW,
    FINANCIAL := REQUIRE_APPROVAL,
    DESTRUCTIVE := REQUIRE_APPROVAL]

  datatype ToolCall = ToolCall(toolName: string, arguments: map<Text, Json>, flow: string)

  /** The matrix, and whether an approval callback is configured. What the callback answers to a call
      is given with the call. */
  datatype ApprovalGate = ApprovalGate(matrix: Matrix, hasCallback: bool)

  const DEFAULT_GATE := ApprovalGate(DEFAULT_MATRIX, false)

  /** The end of a check; a denial is the PermissionDenied exception and its text. */
  datatype Verdict = Allowed | Denied(message: string)

  function TierValue(tier: RiskTier): string {
    match tier
    case READ_ONLY => "read_only"
    case WRITES_INTERNAL => "writes_internal"
    case FINANCIAL => "financial"
    case DESTRUCTIVE => "destructive"
  }

  function PolicyFor(matrix: Matrix, tier: RiskTier): Policy {
    if tier in matrix then matrix[tier] else REQUIRE_APPROVAL
  }

  /** When a call goes through: its tier is allowed outright, or it needs approval and is given it. */
  predicate Permitted(gate: ApprovalGate, tier: RiskTier, answer: bool) {
    match PolicyFor(gate.matrix, tier)
    case AUTO_ALLOW => true
    case DENY => false
    case REQUIRE_APPROVAL => gate.hasCallback && answer
  }

  /** `answer` is what the approval callback says to this call, should it be asked. */
  function Check(gate: ApprovalGate, call: ToolCall, tier: RiskTier, answer: bool): (v: Verdict)
    ensures v.Allowed? <==> Permitted(gate, tier, answer)
  {
    var policy := PolicyFor(gate.matrix, tier);
    if policy == AUTO_ALLOW then Allowed
    else if policy == DENY then
      Denied("tool '" + call.toolName + "' denied: risk tier " + TierValue(tier) + " is not allowed")
    else if !gate.hasCallback then
      Denied("tool '" + call.toolName + "' requires approval (risk tier " + TierValue(tier) + ") "
             + "but no approval gate is configured — failing closed")
    else if !answer then
      Denied("tool '" + call.toolName + "' (risk tier " + TierValue(tier) + ") was not approved")
    else Allowed
  }

  /** A call goes through exactly when its tier is listed as allowed, or is listed as needing approval or not listed
      at all, and a callback is there and approves. */
  lemma GoesThroughExactlyWhen(gate: ApprovalGate, call: ToolCall, tier: RiskTier, answer: bool)
    ensures Check(gate, call, tier, answer).Allowed? <==>
            || (tier in gate.matrix && gate.matrix[tier] == AUTO_ALLOW)
            || ((tier in gate.matrix ==> gate.matrix[tier] == REQUIRE_APPROVAL) && gate.hasCallback && answer)
  {}

  /** Where no gate is configured, what only reads or writes internally goes through, and nothing else. */
  lemma DefaultGateAllows(call: ToolCall, tier: RiskTier, answer: bool)
    ensures Check(DEFAULT_GATE, call, tier, answer).Allowed? <==> tier in {READ_ONLY, WRITES_INTERNAL}
  {}

  /** The words of a denial, and of the tiers in it. */
  lemma DenialReads(gate: ApprovalGate, call: ToolCall, tier: RiskTier, answer: bool)
    requires Check(gate, call, tier, answer).Denied?
    ensures var message, tool, name := Check(gate, call, tier, answer).message, call.toolName, TierValue(tier);
            if tier in gate.matrix && gate.matrix[tier] == DENY then
              message == "tool '" + tool + "' denied: risk tier " + name + " is not allowed"
            else if !gate.hasCallback then
              message == "tool '" + tool + "' requires approval (risk tier " + name + ") "
                         + "but no approval gate is configured — failing closed"
            else
              message == "tool '" + tool + "' (risk tier " + name + ") was not approved"
    ensures TierValue(READ_ONLY) == "read_only" && TierValue(WRITES_INTERNAL) == "writes_internal"
    ensures TierValue(FINANCIAL) == "financial" && TierValue(DESTRUCTIVE) == "destructive"
  {}

  /** Fail closed: a tier the matrix does not list, or that needs approval, is denied when nobody can be asked. */
  lemma FailsClosed(gate: ApprovalGate, call: ToolCall, tier: RiskTier, answer: bool)
    requires !gate.hasCallback && (tier in gate.matrix ==> gate.matrix[tier] != AUTO_ALLOW)
    ensures Check(gate, call, tier, answer).Denied?
  {}

  /** Under one gate, every denial of one tool reads the same, whatever its arguments and whoever answered. */
  lemma DenialTextIsFixed(gate: ApprovalGate, c: ToolCall, d: ToolCall, tier: RiskTier, a: bool, b: bool)
    requires c.toolName == d.toolName
    requires Check(gate, c, tier, a).Denied? && Check(gate, d, tier, b).Denied?
    ensures Check(gate, c, tier, a) == Check(gate, d, tier, b)
  {}
}
