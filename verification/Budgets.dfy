/** The budget ledger: tokens, cost and wall clock, and the sticky reason for exhaustion. Money and time are exact. */
module Budgets {
  import opened Wrappers

  datatype Budget = Budget(
    maxTotalTokens: Option<int>,
    maxToolCalls: Option<int>,
    maxWallClockSeconds: Option<real>,
    maxCostUsd: Option<real>)

  datatype ModelPricing = ModelPricing(inputPer1k: real, outputPer1k: real)

  datatype Reason = WallClockExceeded(elapsed: real, limit: real) | CostExceeded(cost: real, limit: real)

  datatype BudgetStatus = BudgetStatus(
    tokensUsed: int,
    toolCallsUsed: int,
    elapsedSeconds: real,
    costUsd: real,
    exhaustedReason: Option<Reason>)
  {
    predicate Exhausted() {
      exhaustedReason.Some?
    }
  }

  const FRESH := BudgetStatus(0, 0, 0.0, 0.0, None)

  /** What a tracker is built with; `start` is its clock reading at that moment. */
  datatype Terms = Terms(budget: Budget, modelId: string, pricing: map<string, ModelPricing>, start: real)

  function Price(terms: Terms, inputTokens: int, outputTokens: int): real {
    if terms.modelId in terms.pricing then
      var price := terms.pricing[terms.modelId];
      (inputTokens as real / 1000.0) * price.inputPer1k + (outputTokens as real / 1000.0) * price.outputPer1k
    else 0.0
  }

  /** The limit broken by an elapsed time and a cost, the wall clock first. */
  function Broken(budget: Budget, elapsed: real, cost: real): Option<Reason> {
    if budget.maxWallClockSeconds.Some? && elapsed > budget.maxWallClockSeconds.value then
      Some(WallClockExceeded(elapsed, budget.maxWallClockSeconds.value))
    else if budget.maxCostUsd.Some? && cost > budget.maxCostUsd.value then
      Some(CostExceeded(cost, budget.maxCostUsd.value))
    else None
  }

  function Checked(terms: Terms, s: BudgetStatus, now: real): BudgetStatus {
    var elapsed := now - terms.start;
    s.(elapsedSeconds := elapsed,
      exhaustedReason :=
        if s.exhaustedReason.Some? then s.exhaustedReason else Broken(terms.budget, elapsed, s.costUsd))
  }

  function Recorded(terms: Terms, s: BudgetStatus, inputTokens: int, outputTokens: int, toolCalls: int, now: real)
    : BudgetStatus
  {
    Checked(terms,
            s.(tokensUsed := s.tokensUsed + inputTokens + outputTokens,
               toolCallsUsed := toolCalls,
               costUsd := s.costUsd + Price(terms, inputTokens, outputTokens)),
            now)
  }

  class BudgetTracker {
    const terms: Terms
    var status: BudgetStatus

    constructor (terms: Terms)
      ensures this.terms == terms && status == FRESH
    {
      this.terms := terms;
      status := FRESH;
    }

    method RecordUsage(inputTokens: int, outputTokens: int, toolCalls: int, now: real)
      modifies this
      ensures status == Recorded(terms, old(status), inputTokens, outputTokens, toolCalls, now)
    {
      status := status.(tokensUsed := status.tokensUsed + (inputTokens + outputTokens), toolCallsUsed := toolCalls);
      if terms.modelId in terms.pricing {
        var price := terms.pricing[terms.modelId];
        status := status.(costUsd := status.costUsd + (inputTokens as real / 1000.0) * price.inputPer1k);
        status := status.(costUsd := status.costUsd + (outputTokens as real / 1000.0) * price.outputPer1k);
      }
      RefreshWallClock(now);
      CheckExhaustion();
    }

    method CheckWallClock(now: real) returns (exhausted: bool)
      modifies this
      ensures status == Checked(terms, old(status), now)
      ensures exhausted <==> status.Exhausted()
    {
      RefreshWallClock(now);
      CheckExhaustion();
      exhausted := status.exhaustedReason.Some?;
    }

    method RefreshWallClock(now: real)
      modifies this
      ensures status == old(status).(elapsedSeconds := now - terms.start)
    {
      status := status.(elapsedSeconds := now - terms.start);
    }

    method CheckExhaustion()
      modifies this
      ensures old(status).Exhausted() ==> status == old(status)
      ensures !old(status).Exhausted() ==>
                status == old(status).(
                  exhaustedReason := Broken(terms.budget, old(status).elapsedSeconds, old(status).costUsd))
    {
      if status.exhaustedReason.Some? {
        return;
      }
      if terms.budget.maxWallClockSeconds.Some? && status.elapsedSeconds > terms.budget.maxWallClockSeconds.value {
        status := status.(exhaustedReason :=
          Some(WallClockExceeded(status.elapsedSeconds, terms.budget.maxWallClockSeconds.value)));
      } else if terms.budget.maxCostUsd.Some? && status.costUsd > terms.budget.maxCostUsd.value {
        status := status.(exhaustedReason := Some(CostExceeded(status.costUsd, terms.budget.maxCostUsd.value)));
      }
    }
  }

  // ---------------------------------------------------------------- whole ledgers

  datatype Entry =
    | Usage(inputTokens: int, outputTokens: int, toolCalls: int, now: real)
    | Poll(now: real)

  ghost function Post(terms: Terms, s: BudgetStatus, e: Entry): BudgetStatus {
    match e
    case Usage(i, o, calls, now) => Recorded(terms, s, i, o, calls, now)
    case Poll(now) => Checked(terms, s, now)
  }

  ghost function Ledger(terms: Terms, es: seq<Entry>): BudgetStatus {
    if es == [] then FRESH else Post(terms, Ledger(terms, es[..|es| - 1]), es[|es| - 1])
  }

  ghost function TotalTokens(es: seq<Entry>): int {
    if es == [] then 0
    else
      TotalTokens(es[..|es| - 1]) + match es[|es| - 1] case Usage(i, o, _, _) => i + o case Poll(_) => 0
  }

  ghost function LastToolCalls(es: seq<Entry>): int {
    if es == [] then 0
    else
      match es[|es| - 1] case Usage(_, _, calls, _) => calls case Poll(_) => LastToolCalls(es[..|es| - 1])
  }

  ghost function TotalCost(terms: Terms, es: seq<Entry>): real {
    if es == [] then 0.0
    else
      TotalCost(terms, es[..|es| - 1]) +
      match es[|es| - 1] case Usage(i, o, _, _) => Price(terms, i, o) case Poll(_) => 0.0
  }

  /** The test without a memory: the limit broken by the clock now and by the sum of all prices. */
  ghost function BrokenNow(terms: Terms, es: seq<Entry>): Option<Reason> {
    if es == [] then None
    else Broken(terms.budget, es[|es| - 1].now - terms.start, TotalCost(terms, es))
  }

  /** Time moves forward and nothing is refunded. */
  ghost predicate Sensible(terms: Terms, es: seq<Entry>) {
    && (forall p <- terms.pricing :: terms.pricing[p].inputPer1k >= 0.0 && terms.pricing[p].outputPer1k >= 0.0)
    && (forall i, j :: 0 <= i < j < |es| ==> es[i].now <= es[j].now)
    && (forall i :: 0 <= i < |es| && es[i].Usage? ==> es[i].inputTokens >= 0 && es[i].outputTokens >= 0)
  }

  /** An exhausted budget keeps its first reason through any further entries. */
  lemma {:induction false} ReasonIsSticky(terms: Terms, es: seq<Entry>, n: nat)
    requires n <= |es| && Ledger(terms, es[..n]).Exhausted()
    ensures Ledger(terms, es).exhaustedReason == Ledger(terms, es[..n]).exhaustedReason
    decreases |es|
  {
    if n < |es| {
      assert es[..|es| - 1][..n] == es[..n];
      ReasonIsSticky(terms, es[..|es| - 1], n);
    } else {
      assert es[..n] == es;
    }
  }

  /** Tokens and cost add up; the tool calls are the last ones reported, not a sum. */
  lemma {:induction false} Sums(terms: Terms, es: seq<Entry>)
    ensures Ledger(terms, es).tokensUsed == TotalTokens(es)
    ensures Ledger(terms, es).costUsd == TotalCost(terms, es)
    ensures Ledger(terms, es).toolCallsUsed == LastToolCalls(es)
    ensures es != [] ==> Ledger(terms, es).elapsedSeconds == es[|es| - 1].now - terms.start
    decreases |es|
  {
    if es != [] {
      Sums(terms, es[..|es| - 1]);
    }
  }

  ghost function InputTotal(es: seq<Entry>): int {
    if es == [] then 0
    else InputTotal(es[..|es| - 1]) + if es[|es| - 1].Usage? then es[|es| - 1].inputTokens else 0
  }

  ghost function OutputTotal(es: seq<Entry>): int {
    if es == [] then 0
    else OutputTotal(es[..|es| - 1]) + if es[|es| - 1].Usage? then es[|es| - 1].outputTokens else 0
  }

  /** All input tokens at the model's input price and all output tokens at its output price, each per thousand. */
  ghost function TokenCost(terms: Terms, es: seq<Entry>): real {
    if terms.modelId in terms.pricing then
      (InputTotal(es) as real / 1000.0) * terms.pricing[terms.modelId].inputPer1k
      + (OutputTotal(es) as real / 1000.0) * terms.pricing[terms.modelId].outputPer1k
    else 0.0
  }

  lemma Thousands(a: int, b: int, p: real)
    ensures ((a + b) as real / 1000.0) * p == (a as real / 1000.0) * p + (b as real / 1000.0) * p
  {
    var x, y := a as real / 1000.0, b as real / 1000.0;
    assert (a + b) as real / 1000.0 == x + y;
    assert (x + y) * p == x * p + y * p;
  }

  lemma {:induction false} TotalCostIsTokensTimesPrices(terms: Terms, es: seq<Entry>, inputPrice: real,
                                                        outputPrice: real)
    requires if terms.modelId in terms.pricing
             then terms.pricing[terms.modelId] == ModelPricing(inputPrice, outputPrice)
             else inputPrice == outputPrice == 0.0
    ensures TotalCost(terms, es) ==
            (InputTotal(es) as real / 1000.0) * inputPrice + (OutputTotal(es) as real / 1000.0) * outputPrice
    decreases |es|
  {
    if es != [] {
      var init, last := es[..|es| - 1], es[|es| - 1];
      TotalCostIsTokensTimesPrices(terms, init, inputPrice, outputPrice);
      if last.Usage? {
        Thousands(InputTotal(init), last.inputTokens, inputPrice);
        Thousands(OutputTotal(init), last.outputTokens, outputPrice);
        assert Price(terms, last.inputTokens, last.outputTokens) ==
               (last.inputTokens as real / 1000.0) * inputPrice + (last.outputTokens as real / 1000.0) * outputPrice;
      }
    }
  }

  lemma {:induction false} TotalsAreTokens(es: seq<Entry>)
    ensures TotalTokens(es) == InputTotal(es) + OutputTotal(es)
    decreases |es|
  {
    if es != [] {
      TotalsAreTokens(es[..|es| - 1]);
    }
  }

  /** The cost of any ledger is that of its token totals; a model without a price costs nothing. */
  lemma CostIsTokensTimesPrices(terms: Terms, es: seq<Entry>)
    ensures Ledger(terms, es).tokensUsed == InputTotal(es) + OutputTotal(es)
    ensures Ledger(terms, es).costUsd == TokenCost(terms, es)
  {
    Sums(terms, es);
    TotalsAreTokens(es);
    if terms.modelId in terms.pricing {
      var price := terms.pricing[terms.modelId];
      TotalCostIsTokensTimesPrices(terms, es, price.inputPer1k, price.outputPer1k);
    } else {
      TotalCostIsTokensTimesPrices(terms, es, 0.0, 0.0);
    }
  }

  lemma PricesAreNotNegative(terms: Terms, i: int, o: int)
    requires i >= 0 && o >= 0
    requires forall p <- terms.pricing :: terms.pricing[p].inputPer1k >= 0.0 && terms.pricing[p].outputPer1k >= 0.0
    ensures Price(terms, i, o) >= 0.0
  {
    if terms.modelId in terms.pricing {
      var p := terms.pricing[terms.modelId];
      Product(i as real / 1000.0, p.inputPer1k);
      Product(o as real / 1000.0, p.outputPer1k);
    }
  }

  lemma Product(x: real, y: real)
    requires x >= 0.0 && y >= 0.0
    ensures x * y >= 0.0
  {}

  /** Once broken without memory, broken at every later entry. */
  lemma BrokenStaysBroken(terms: Terms, es: seq<Entry>)
    requires Sensible(terms, es) && es != [] && BrokenNow(terms, es[..|es| - 1]).Some?
    ensures BrokenNow(terms, es).Some?
  {
    var init, last := es[..|es| - 1], es[|es| - 1];
    assert init[|init| - 1].now <= last.now;
    if last.Usage? {
      PricesAreNotNegative(terms, last.inputTokens, last.outputTokens);
    }
  }

  /**
   The sticky ledger says what the memoryless test says: exhausted after the last check exactly when
   the clock or the cost is over its limit now, with the reason of the first check that found it so.
   */
  lemma {:induction false} LedgerEqualsMemorylessTest(terms: Terms, es: seq<Entry>)
    requires Sensible(terms, es)
    ensures Ledger(terms, es).Exhausted() <==> BrokenNow(terms, es).Some?
    ensures forall n :: 0 < n <= |es| && BrokenNow(terms, es[..n]).Some? && BrokenNow(terms, es[..n - 1]).None? ==>
                          Ledger(terms, es).exhaustedReason == BrokenNow(terms, es[..n])
    decreases |es|
  {
    if es != [] {
      var init := es[..|es| - 1];
      assert Sensible(terms, init);
      LedgerEqualsMemorylessTest(terms, init);
      Sums(terms, init);
      Sums(terms, es);
      if BrokenNow(terms, init).Some? {
        BrokenStaysBroken(terms, es);
      }
      forall n | 0 < n <= |es| && BrokenNow(terms, es[..n]).Some? && BrokenNow(terms, es[..n - 1]).None?
        ensures Ledger(terms, es).exhaustedReason == BrokenNow(terms, es[..n])
      {
        if n < |es| {
          assert init[..n] == es[..n] && init[..n - 1] == es[..n - 1];
        } else {
          assert es[..n] == es && es[..n - 1] == init;
        }
      }
    }
  }

  predicate Over(limit: Option<real>, value: real) {
    limit.Some? && value > limit.value
  }

  /** In plain terms: exhausted when time or cost is over its limit, by the clock if both were at the first check. */
  lemma ExhaustedExactlyWhenOver(terms: Terms, es: seq<Entry>)
    requires Sensible(terms, es) && es != []
    ensures var s := Ledger(terms, es);
            var elapsed := es[|es| - 1].now - terms.start;
            && (s.Exhausted() <==>
                Over(terms.budget.maxWallClockSeconds, elapsed) || Over(terms.budget.maxCostUsd, TotalCost(terms, es)))
            && s.costUsd == TotalCost(terms, es)
            && (!Ledger(terms, es[..|es| - 1]).Exhausted() && s.Exhausted() ==>
                  (s.exhaustedReason.value.WallClockExceeded? <==> Over(terms.budget.maxWallClockSeconds, elapsed)))
  {
    LedgerEqualsMemorylessTest(terms, es);
    Sums(terms, es);
  }
}
