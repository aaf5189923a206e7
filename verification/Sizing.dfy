// The remaining pure gates of an order: the position sizer (sizing/position_sizer.py), the
// simulated broker (execution/backtest_broker.py) and the risk engine (risk/engine.py).

module Sizing {
  import opened Common
  import opened ExchangeFilters
  import opened RiskReward

  datatype SizingCode = SizerInvalidPrice | SizerInvalidEquity | SizerInvalidStopDistance
                      | SizerBelowMinLotSize | SizerBelowMinNotional | NoSellableQuantity

  type Sized = Result<real, SizingCode>

  /** The stop-only sizing of the frozen baseline: a risk budget capped by a notional ceiling. */
  function RiskBasedBuyQuantity(equity: real, entry: real, stop: real, maxRisk: real, maxPosition: real, c: Costs,
                                f: SymbolFilters): Sized {
    if entry <= 0.0 || stop <= 0.0 then Err(SizerInvalidPrice)
    else if equity <= 0.0 then Err(SizerInvalidEquity)
    else
      var loss := LossPerUnit(FillEstimate(entry, c), stop, c);
      if loss <= 0.0 then Err(SizerInvalidStopDistance) else
      var quantity := RoundQuantity(Min(equity * maxRisk / loss, equity * maxPosition / entry), f);
      if !MeetsLotSize(quantity, f) then Err(SizerBelowMinLotSize)
      else if !MeetsMinNotional(entry, quantity, f) then Err(SizerBelowMinNotional)
      else Ok(quantity)
  }

  /** The answer about the largest quantity that stays within the risk budget and the notional ceiling. */
  function RiskSizingFor(q: real, entry: real, f: SymbolFilters): Sized {
    if !MeetsLotSize(q, f) then Err(SizerBelowMinLotSize)
    else if !MeetsMinNotional(entry, q, f) then Err(SizerBelowMinNotional)
    else Ok(q)
  }

  /**
   * What the stop-only sizing answers: the largest aligned quantity whose loss at the stop, costs included, is within
   * its share of the equity and whose value is within the position ceiling, if the exchange takes it; never more.
   */
  lemma RiskSizingTakesLargest(equity: real, entry: real, stop: real, maxRisk: real, maxPosition: real, c: Costs,
                               f: SymbolFilters, q: real, loss: real)
    requires ValidCosts(c) && ValidFilters(f) && maxRisk >= 0.0 && maxPosition >= 0.0
    requires loss == LossPerUnit(FillEstimate(entry, c), stop, c)
    requires equity > 0.0 && entry > 0.0 && loss > 0.0 ==>
               LargestBearable(q, f.stepSize, loss, Amount(equity, maxRisk), entry, Amount(equity, maxPosition))
    ensures var sized := RiskBasedBuyQuantity(equity, entry, stop, maxRisk, maxPosition, c, f);
            sized == if entry <= 0.0 || stop <= 0.0 then Err(SizerInvalidPrice)
                     else if equity <= 0.0 then Err(SizerInvalidEquity)
                     else if loss <= 0.0 then Err(SizerInvalidStopDistance)
                     else RiskSizingFor(q, entry, f)
  {
    hide LossPerUnit, FillEstimate, RoundQuantity, MeetsLotSize, MeetsMinNotional, LargestBearable;
    if equity > 0.0 && entry > 0.0 && loss > 0.0 {
      var risk, money := Amount(equity, maxRisk), Amount(equity, maxPosition);
      SmallerShareIsLargest(risk, loss, money, entry, f);
      LargestIsUnique(q, RoundQuantity(Min(risk / loss, money / entry), f), f.stepSize, loss, risk, entry, money);
    }
  }

  function SellQuantity(held: real, price: real, f: SymbolFilters): Sized {
    var quantity := RoundQuantity(held, f);
    if quantity <= 0.0 || quantity > held then Err(NoSellableQuantity)
    else if !MeetsLotSize(quantity, f) then Err(SizerBelowMinLotSize)
    else if !MeetsMinNotional(price, quantity, f) then Err(SizerBelowMinNotional)
    else Ok(quantity)
  }

  /** A sale never exceeds the holding, and of an aligned holding it is all of it or nothing: it never leaves dust. */
  lemma SaleLeavesNoDust(held: real, price: real, f: SymbolFilters)
    ensures var sale := SellQuantity(held, price, f);
            && (sale.Ok? ==> 0.0 < sale.value <= held)
            && (sale.Ok? && StepAligned(held, f.stepSize) ==> sale.value == held)
  {
  }

  /** What the sizer and the validator answer for a holding, one filter at a time. */
  lemma FilterObstacles(symbol: string, held: real, price: real, f: SymbolFilters)
    ensures var sale := RoundDownToStep(held, f.stepSize);
            var tooSmall := sale < f.minQty || (f.maxQty != 0.0 && sale > f.maxQty);
            var tooCheap := f.applyMinNotionalToMarket && price * sale < f.minNotional;
            && SellQuantity(held, price, f) == (if !(0.0 < sale <= held) then Err(NoSellableQuantity)
                                                else if tooSmall then Err(SizerBelowMinLotSize)
                                                else if tooCheap then Err(SizerBelowMinNotional)
                                                else Ok(sale))
            && (0.0 < sale && !tooSmall && !tooCheap ==>
                  ValidateOrder(symbol, sale, price, f) == if symbol == f.symbol then Ok(sale) else Err(SymbolMismatch))
  {
    RoundDownIdempotent(held, f.stepSize);
  }

  datatype SimulatedFill = SimulatedFill(price: real, fee: real)

  function SimulateBuy(quantity: real, reference: real, c: Costs): SimulatedFill {
    var price := FillEstimate(reference, c);
    SimulatedFill(price, Amount(quantity, price) * c.fee)
  }

  function SimulateSell(quantity: real, reference: real, c: Costs): SimulatedFill {
    var price := reference * (1.0 - c.slippage);
    SimulatedFill(price, Amount(quantity, price) * c.fee)
  }

  datatype RiskConfig = RiskConfig(maxPosition: real, maxRiskPerTrade: real, maxDailyLoss: real, maxDrawdown: real,
                                   maxTradesPerDay: int, cooldownBars: int, staleMaxAge: int, minQuote: real,
                                   maxApiErrors: int)

  /** The bounds the configuration model declares. */
  predicate ValidRiskConfig(r: RiskConfig) {
    && 0.0 < r.maxPosition <= 1.0 && 0.0 < r.maxRiskPerTrade <= 1.0
    && 0.0 < r.maxDailyLoss <= 1.0 && 0.0 < r.maxDrawdown <= 1.0
    && r.maxTradesPerDay > 0 && r.cooldownBars >= 0 && r.staleMaxAge > 0
    && r.minQuote >= 0.0 && r.maxApiErrors > 0
  }

  datatype RiskContext = RiskContext(equity: real, quote: real, tradesToday: int, cooldown: int, dailyPnl: real,
                                     drawdown: real, dataAge: real, apiErrors: int, killSwitch: bool,
                                     duplicate: bool, reconciliationBlocked: bool)

  datatype RiskCode = KillSwitchEngaged | ConsecutiveApiErrorShutdown | StaleData | DuplicateOrderBlocked
                    | ReconciliationBlocksAllOrders | MaxDrawdownShutdown | MaxDailyLossShutdown
                    | MaxTradesPerDayReached | CooldownAfterLoss | BelowMinQuoteBalance | RiskInvalidEquity
                    | ExceedsMaxPosition

  /** None means approved. */
  function EvaluateRisk(signal: SignalType, quantity: real, price: real, x: RiskContext,
                        r: RiskConfig): Option<RiskCode> {
    if x.killSwitch then Some(KillSwitchEngaged)
    else if x.apiErrors >= r.maxApiErrors then Some(ConsecutiveApiErrorShutdown)
    else if x.dataAge > r.staleMaxAge as real then Some(StaleData)
    else if x.duplicate then Some(DuplicateOrderBlocked)
    else if x.reconciliationBlocked then Some(ReconciliationBlocksAllOrders)
    else if signal == Exit then None
    else if x.drawdown >= r.maxDrawdown then Some(MaxDrawdownShutdown)
    else if x.dailyPnl <= -r.maxDailyLoss then Some(MaxDailyLossShutdown)
    else if x.tradesToday >= r.maxTradesPerDay then Some(MaxTradesPerDayReached)
    else if x.cooldown > 0 then Some(CooldownAfterLoss)
    else if x.quote < r.minQuote then Some(BelowMinQuoteBalance)
    else if x.equity <= 0.0 then Some(RiskInvalidEquity)
    else if Amount(quantity, price) / x.equity > r.maxPosition then Some(ExceedsMaxPosition)
    else None
  }

  // ----- The order of the gates -----------------------------------------------------------------------------

  /** Every gate, in the order in which it is given as the reason. Those after the fifth hold back entries only. */
  const GATES: seq<RiskCode> := [
    KillSwitchEngaged, ConsecutiveApiErrorShutdown, StaleData, DuplicateOrderBlocked, ReconciliationBlocksAllOrders,
    MaxDrawdownShutdown, MaxDailyLossShutdown, MaxTradesPerDayReached, CooldownAfterLoss, BelowMinQuoteBalance,
    RiskInvalidEquity, ExceedsMaxPosition]

  /** Whether a gate is closed for an order worth `notional`. */
  predicate Closed(gate: RiskCode, signal: SignalType, notional: real, x: RiskContext, r: RiskConfig) {
    match gate
    case KillSwitchEngaged => x.killSwitch
    case ConsecutiveApiErrorShutdown => r.maxApiErrors <= x.apiErrors
    case StaleData => r.staleMaxAge as real < x.dataAge
    case DuplicateOrderBlocked => x.duplicate
    case ReconciliationBlocksAllOrders => x.reconciliationBlocked
    case MaxDrawdownShutdown => signal != Exit && r.maxDrawdown <= x.drawdown
    case MaxDailyLossShutdown => signal != Exit && x.dailyPnl + r.maxDailyLoss <= 0.0
    case MaxTradesPerDayReached => signal != Exit && r.maxTradesPerDay <= x.tradesToday
    case CooldownAfterLoss => signal != Exit && 0 < x.cooldown
    case BelowMinQuoteBalance => signal != Exit && x.quote < r.minQuote
    case RiskInvalidEquity => signal != Exit && x.equity <= 0.0
    case ExceedsMaxPosition => signal != Exit && x.equity > 0.0 && notional > r.maxPosition * x.equity
  }

  predicate FirstClosed(k: nat, signal: SignalType, notional: real, x: RiskContext, r: RiskConfig)
    requires k < |GATES|
  {
    && Closed(GATES[k], signal, notional, x, r)
    && forall j | 0 <= j < k :: !Closed(GATES[j], signal, notional, x, r)
  }

  predicate AllOpen(signal: SignalType, notional: real, x: RiskContext, r: RiskConfig) {
    forall j | 0 <= j < |GATES| :: !Closed(GATES[j], signal, notional, x, r)
  }

  lemma GatesInOrder()
    ensures GATES[0] == KillSwitchEngaged && GATES[1] == ConsecutiveApiErrorShutdown && GATES[2] == StaleData
    ensures GATES[3] == DuplicateOrderBlocked && GATES[4] == ReconciliationBlocksAllOrders
    ensures GATES[5] == MaxDrawdownShutdown && GATES[6] == MaxDailyLossShutdown && GATES[7] == MaxTradesPerDayReached
    ensures GATES[8] == CooldownAfterLoss && GATES[9] == BelowMinQuoteBalance && GATES[10] == RiskInvalidEquity
    ensures GATES[11] == ExceedsMaxPosition
  {
  }

  lemma ShareExceeds(part: real, whole: real, limit: real)
    requires whole > 0.0
    ensures part / whole > limit <==> part > limit * whole
  {
    assert part / whole * whole == part;
    if part / whole > limit { Scale(limit, part / whole, whole); }
    if part / whole <= limit { Scale(part / whole, limit, whole); }
  }

  /** An order is let through exactly when every gate is open; otherwise the first closed one is the reason given. */
  lemma RiskAnswersFirstClosedGate(signal: SignalType, quantity: real, price: real, x: RiskContext, r: RiskConfig,
                                   notional: real)
    requires notional == quantity * price
    ensures EvaluateRisk(signal, quantity, price, x, r).None? <==> AllOpen(signal, notional, x, r)
    ensures forall k | 0 <= k < |GATES| && FirstClosed(k, signal, notional, x, r) ::
              EvaluateRisk(signal, quantity, price, x, r) == Some(GATES[k])
  {
    GatesInOrder();
    assert Amount(quantity, price) == notional;
    if x.equity > 0.0 { ShareExceeds(notional, x.equity, r.maxPosition); }
    hide Amount;
    var k := 0;
    while k < |GATES| && !Closed(GATES[k], signal, notional, x, r)
      invariant 0 <= k <= |GATES| && forall j | 0 <= j < k :: !Closed(GATES[j], signal, notional, x, r)
    {
      k := k + 1;
    }
  }
}
