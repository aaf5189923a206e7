// When a queued BUY becomes a position: the quantity ordered, the gates judged by the history's own figures, and what
// the fill leaves.

module BacktestEntries {
  import opened Common
  import opened ExchangeFilters
  import opened Portfolio
  import opened RiskReward
  import opened Sizing
  import opened Backtest
  import opened BacktestInvariant
  import opened BacktestTheorems
  import opened BacktestFigures

  // ----- The quantity ---------------------------------------------------------------------------------------

  /** What a unit bought at `price` costs with its fee, and what it loses if it is sold at its stop. */
  function PaidPerUnit(e: Env, price: real): real {
    EntryCost(FillEstimate(price, e.costs), e.costs)
  }

  function LossAtStop(e: Env, price: real): real {
    LossPerUnit(FillEstimate(price, e.costs), StopBelow(price, e.costs), e.costs)
  }

  /** The largest aligned quantity the account may stake: under the policy one percent, otherwise as configured. */
  ghost predicate LargestStake(e: Env, quote: real, price: real, q: real) {
    var step, loss := e.filters.stepSize, LossAtStop(e, price);
    if e.fixedRiskReward then LargestBearable(q, step, loss, RiskBudget(quote), PaidPerUnit(e, price), quote)
    else LargestBearable(q, step, loss, Amount(quote, e.risk.maxRiskPerTrade), price, Amount(quote, e.risk.maxPosition))
  }

  /** The exchange takes an order of this quantity and, under the policy, can quote its target. */
  predicate Orderable(e: Env, price: real, q: real)
    requires ValidCosts(e.costs)
  {
    && MeetsLotSize(q, e.filters) && MeetsMinNotional(price, q, e.filters)
    && (e.fixedRiskReward ==>
          q > 0.0 && TargetQuotable(FillEstimate(price, e.costs), LossAtStop(e, price), e.costs, e.filters))
  }

  /** Why a BUY cannot be sized: there is no cash, or the first thing wrong with the largest stake. */
  function SizingReason(e: Env, quote: real, price: real, q: real): Reason {
    var small, cheap := !MeetsLotSize(q, e.filters), !MeetsMinNotional(price, q, e.filters);
    if e.fixedRiskReward then
      ByPlan(if quote <= 0.0 then InvalidEquity else if q <= 0.0 || small then BelowMinLotSize
             else if cheap then BelowMinNotional else InvalidTarget)
    else
      BySizer(if quote <= 0.0 then SizerInvalidEquity else if small then SizerBelowMinLotSize
              else SizerBelowMinNotional)
  }

  lemma UnitsArePositive(e: Env, price: real)
    requires ValidCosts(e.costs) && price > 0.0
    ensures LossAtStop(e, price) > 0.0 && PaidPerUnit(e, price) > 0.0 && StopBelow(price, e.costs) > 0.0
  {
    StopStrictlyBelow(price, e.costs);
    FillAtOrAboveReference(price, e.costs);
    LossIsPositive(FillEstimate(price, e.costs), StopBelow(price, e.costs), e.costs);
    EntryCostIsPositive(FillEstimate(price, e.costs), e.costs);
  }

  /** There is exactly one such quantity. */
  lemma LargestStakeExists(e: Env, quote: real, price: real) returns (q: real)
    requires ValidEnv(e) && quote > 0.0 && price > 0.0
    ensures LargestStake(e, quote, price, q)
    ensures forall other | LargestStake(e, quote, price, other) :: other == q
  {
    hide LossAtStop, PaidPerUnit, RoundQuantity, Bearable;
    UnitsArePositive(e, price);
    var loss := LossAtStop(e, price);
    if e.fixedRiskReward {
      var risk, cost := RiskBudget(quote), PaidPerUnit(e, price);
      SmallerShareIsLargest(risk, loss, quote, cost, e.filters);
      q := RoundQuantity(Min(risk / loss, quote / cost), e.filters);
    } else {
      var risk, money := Amount(quote, e.risk.maxRiskPerTrade), Amount(quote, e.risk.maxPosition);
      SmallerShareIsLargest(risk, loss, money, price, e.filters);
      q := RoundQuantity(Min(risk / loss, money / price), e.filters);
    }
  }

  lemma PolicyPlanAnswer(e: Env, quote: real, price: real, q: real)
    requires ValidEnv(e) && e.fixedRiskReward && price > 0.0
    requires quote > 0.0 ==> LargestStake(e, quote, price, q)
    ensures var p := PlanEntry(quote, quote, price, e.costs, e.filters);
            && (p.approved && p.quantity.Some? <==> quote > 0.0 && Orderable(e, price, q))
            && (p.approved ==> p.quantity == Some(q))
            && (!p.approved ==> ByPlan(p.code) == SizingReason(e, quote, price, q))
  {
    if quote > 0.0 {
      hide LossPerUnit, LargestBearable, TargetQuotable, PlanEntry, FillEstimate, StopBelow, EntryCost, RiskBudget,
          MeetsLotSize, MeetsMinNotional;
      PlanTakesLargestQuantity(quote, quote, price, e.costs, e.filters, q, FillEstimate(price, e.costs),
                               LossAtStop(e, price));
    }
  }

  lemma RiskSizedAnswer(e: Env, quote: real, price: real, q: real)
    requires ValidEnv(e) && !e.fixedRiskReward && price > 0.0
    requires quote > 0.0 ==> LargestStake(e, quote, price, q)
    ensures var sized := RiskBasedBuyQuantity(quote, price, StopBelow(price, e.costs), e.risk.maxRiskPerTrade,
                                              e.risk.maxPosition, e.costs, e.filters);
            && (sized.Ok? <==> quote > 0.0 && Orderable(e, price, q))
            && (sized.Ok? ==> sized == Ok(q))
            && (sized.Err? ==> BySizer(sized.error) == SizingReason(e, quote, price, q))
  {
    UnitsArePositive(e, price);
    hide LossPerUnit, LargestBearable, RiskBasedBuyQuantity, FillEstimate, StopBelow, MeetsLotSize, MeetsMinNotional;
    RiskSizingTakesLargest(quote, price, StopBelow(price, e.costs), e.risk.maxRiskPerTrade, e.risk.maxPosition, e.costs,
                           e.filters, q, LossAtStop(e, price));
  }

  /** The order that is sized while flat is that quantity, if the exchange takes it. */
  lemma BuyIsLargestStake(e: Env, r: Run, c: Candle, q: real)
    requires ValidEnv(e) && r.portfolio.base == 0.0 && c.open > 0.0
    requires r.portfolio.quote > 0.0 ==> LargestStake(e, r.portfolio.quote, c.open, q)
    ensures SizeBuy(e, r, c)
         == if r.portfolio.quote > 0.0 && Orderable(e, c.open, q) then Ok(q)
            else Err(SizingReason(e, r.portfolio.quote, c.open, q))
  {
    hide SizingReason, LargestStake, RiskBasedBuyQuantity, PlanEntry, StopBelow, Orderable;
    var quote, price := r.portfolio.quote, c.open;
    assert Equity(r.portfolio, price) == quote;
    if e.fixedRiskReward { PolicyPlanAnswer(e, quote, price, q); } else { RiskSizedAnswer(e, quote, price, q); }
  }

  // ----- The fill -------------------------------------------------------------------------------------------

  /** The quantity bought at the open, slippage and fee paid, and the position recorded. */
  predicate Bought(e: Env, before: Run, after: Run, c: Candle, q: real) {
    var worth := Amount(q, c.open * (1.0 + e.costs.slippage));
    && after.portfolio.side == Long && after.portfolio.base == q
    && after.portfolio.quote == before.portfolio.quote - worth - worth * e.costs.fee
    && after.trades == before.trades && after.openTrade.Some? && after.tradesToday == before.tradesToday + 1
    && after.diag == before.diag.(
         executedEntries := before.diag.executedEntries + 1, lastApprovedBuy := Some(c.openTime),
         plannedRisks := after.diag.plannedRisks, plannedRewards := after.diag.plannedRewards)
    && var o := after.openTrade.value;
       && o.entryTime == c.openTime && o.entryPrice == c.open * (1.0 + e.costs.slippage) && o.quantity == q
       && o.entryFee == worth * e.costs.fee && o.entryReference == c.open
  }

  /** The fill itself writes no journal and queues nothing. */
  predicate Silent(before: Run, after: Run) {
    after.journal == before.journal && after.pending == before.pending && after.peak == before.peak
  }

  predicate Refused(before: Run, after: Run) {
    && after.portfolio == before.portfolio && after.trades == before.trades && after.openTrade == before.openTrade
    && after.tradesToday == before.tradesToday && after.diag.executedEntries == before.diag.executedEntries
    && after.diag.lastApprovedBuy == before.diag.lastApprovedBuy
  }

  lemma PlacementBuys(e: Env, r: Run, c: Candle, q: real, stop: real, plan: Option<RiskRewardPlan>)
    requires Portfolio.Valid(r.portfolio) && r.portfolio.side == Flat
    ensures var x := PlacePosition(e, r, c, q, stop, plan);
            var worth := Amount(q, FillEstimate(c.open, e.costs));
            && (worth + worth * e.costs.fee > r.portfolio.quote ==> x == Err(InvalidTransition))
            && (worth + worth * e.costs.fee <= r.portfolio.quote ==>
                  x.Ok? && Bought(e, r, x.value, c, q) && Silent(r, x.value))
  {
    assert FillEstimate(c.open, e.costs) == c.open * (1.0 + e.costs.slippage);
    hide FillEstimate, Amount;
  }

  lemma PolicyFillBuys(e: Env, r: Run, c: Candle, q: real)
    requires ValidEnv(e) && e.fixedRiskReward && Portfolio.Valid(r.portfolio) && r.portfolio.side == Flat
    requires EntryPlan(e, r, c).approved && EntryPlan(e, r, c).quantity == Some(q)
    ensures var x := FillBuy(e, r, c, q); x.Ok? && Bought(e, r, x.value, c, q) && Silent(r, x.value)
  {
    hide PlanEntry, PlacePosition, Bought, FillEstimate, StopBelow, LossPerUnit, GainPerUnit, EntryCost;
    var equity, plan := Equity(r.portfolio, c.open), EntryPlan(e, r, c);
    ApprovedQuantityIsSafe(equity, r.portfolio.quote, c.open, e.costs, e.filters);
    RealizedPlanAlwaysApproved(equity, r.portfolio.quote, c.open, e.costs, e.filters);
    var fill := FillEstimate(c.open, e.costs);
    EntryCostForm(q, fill, e.costs);
    assert plan.(quantity := Some(q)) == plan;
    var realized := BuildRealizedPlan(plan, fill, e.costs, equity, e.filters);
    PlacementBuys(e, r, c, q, realized.stop.value, Some(realized));
  }

  /** The figures a gate sees in the simulation, with the account flat. */
  function FlatContext(r: Run, quote: real): RiskContext {
    RiskContext(quote, quote, r.tradesToday, r.cooldown, r.dailyPnl, Drawdown(Max(r.peak, quote), quote),
                0.0, 0, false, false, false)
  }

  /** What becomes of a queued BUY for an orderable quantity. */
  predicate BuyAnswered(e: Env, r: Run, c: Candle, q: real, x: RunResult) {
    var notional, context := Amount(q, c.open), FlatContext(r, r.portfolio.quote);
    if !AllOpen(Buy, notional, context, e.risk) then
      x.Ok? && Refused(r, x.value) && RefusedByGate(e, r, x.value, c, notional, context)
    else if c.symbol != e.filters.symbol || q <= 0.0 then
      x.Ok? && Refused(r, x.value) && RefusedByValidator(e, r, x.value, c)
    else if !e.fixedRiskReward && Unaffordable(e, r.portfolio.quote, c.open, q) then x == Err(InvalidTransition)
    else x.Ok? && Bought(e, r, x.value, c, q)
  }

  /** The first closed gate is counted and journalled as the reason. */
  predicate RefusedByGate(e: Env, r: Run, x: Run, c: Candle, notional: real, context: RiskContext) {
    forall k | 0 <= k < |GATES| && FirstClosed(k, Buy, notional, context, e.risk) ::
      && x.diag.rejected == Increment(r.diag.rejected, RiskCodeName(GATES[k]))
      && JournalEntry(RiskEntry, c.openTime, DecisionPayload(Buy, Some(ByRisk(GATES[k])))) in x.journal
      && GATES[k] in x.diag.firstActivation
      && (GATES[k] !in r.diag.firstActivation ==>
            x.diag.firstActivation[GATES[k]] == Activation(c.openTime, context.equity, context.drawdown))
  }

  /** A foreign symbol, or nothing left to order, is counted and journalled as the reason. */
  predicate RefusedByValidator(e: Env, r: Run, x: Run, c: Candle) {
    var code := if c.symbol != e.filters.symbol then SymbolMismatch else ZeroQuantityAfterRounding;
    && x.diag.rejected == Increment(r.diag.rejected, ValidationCodeName(code))
    && JournalEntry(ValidationEntry, c.openTime, DecisionPayload(Buy, Some(ByValidator(code)))) in x.journal
  }

  predicate Unaffordable(e: Env, quote: real, price: real, q: real) {
    var worth := Amount(q, FillEstimate(price, e.costs));
    worth + worth * e.costs.fee > quote
  }

  lemma GateRefuses(e: Env, r: Run, c: Candle, q: real)
    requires ValidEnv(e) && Portfolio.Valid(r.portfolio) && r.portfolio.side == Flat && SizeBuy(e, r, c) == Ok(q)
    requires RiskGate(e, r, c, Buy, q).Some?
    ensures var x, code := ResolveBuy(e, r, c), RiskGate(e, r, c, Buy, q).value;
            && x.Ok? && Refused(r, x.value)
            && x.value.diag.rejected == Increment(r.diag.rejected, RiskCodeName(code))
            && JournalEntry(RiskEntry, c.openTime, DecisionPayload(Buy, Some(ByRisk(code)))) in x.value.journal
            && code in x.value.diag.firstActivation
            && (code !in r.diag.firstActivation ==>
                  x.value.diag.firstActivation[code]
                  == Activation(c.openTime, r.portfolio.quote, Drawdown(r.peak, r.portfolio.quote)))
  {
    hide EvaluateRisk, FillBuy, ValidateOrder, PlanEntry, RiskBasedBuyQuantity, Drawdown, Increment;
  }

  lemma ValidatorAnswers(e: Env, r: Run, c: Candle, q: real)
    requires ValidEnv(e) && SizeBuy(e, r, c) == Ok(q) && RiskGate(e, r, c, Buy, q).None?
    requires StepAligned(q, e.filters.stepSize) && Orderable(e, c.open, q)
    ensures var x := ResolveBuy(e, r, c);
            if c.symbol != e.filters.symbol || q <= 0.0 then
              x.Ok? && Refused(r, x.value) && RefusedByValidator(e, r, x.value, c)
            else x == FillBuy(e, AfterGates(r, c, Buy), c, q)
  {
    if q > 0.0 { ValidatorKeepsPlannedQuantity(c.symbol, q, c.open, e.filters); }
    hide EvaluateRisk, FillBuy, PlanEntry, RiskBasedBuyQuantity, Increment;
  }

  lemma GatesAnswer(e: Env, r: Run, c: Candle, q: real)
    requires r.portfolio.base == 0.0
    ensures var notional, context := Amount(q, c.open), FlatContext(r, r.portfolio.quote);
            var b := r.(peak := Max(r.peak, r.portfolio.quote), pending := Hold);
            && (RiskGate(e, b, c, Buy, q).None? <==> AllOpen(Buy, notional, context, e.risk))
            && forall k | 0 <= k < |GATES| && FirstClosed(k, Buy, notional, context, e.risk) ::
                 RiskGate(e, b, c, Buy, q) == Some(GATES[k])
  {
    var quote := r.portfolio.quote;
    assert Equity(r.portfolio, c.open) == quote;
    RiskAnswersFirstClosedGate(Buy, q, c.open, FlatContext(r, quote), e.risk, Amount(q, c.open));
    hide EvaluateRisk, AllOpen, FirstClosed, Drawdown;
  }

  lemma SizingReadsAccount(e: Env, r: Run, b: Run, c: Candle)
    requires ValidEnv(e) && r.portfolio == b.portfolio
    ensures SizeBuy(e, r, c) == SizeBuy(e, b, c)
  {
  }

  lemma BuyIsAnswered(e: Env, r: Run, c: Candle, q: real)
    requires ValidEnv(e) && Portfolio.Valid(r.portfolio) && r.portfolio.side == Flat && r.pending == Buy
    requires SizeBuy(e, r, c) == Ok(q) && StepAligned(q, e.filters.stepSize) && Orderable(e, c.open, q)
    ensures BuyAnswered(e, r, c, q, Resolve(e, r, c))
  {
    hide RiskGate, AllOpen, FirstClosed, FillBuy, Orderable, ResolveBuy, Unaffordable, SizeBuy, Drawdown,
        Increment, Amount;
    var quote := r.portfolio.quote;
    assert Equity(r.portfolio, c.open) == quote;
    var b := r.(peak := Max(r.peak, quote), pending := Hold);
    SizingReadsAccount(e, r, b, c);
    GatesAnswer(e, r, c, q);
    assert Resolve(e, r, c) == ResolveBuy(e, b, c);
    if RiskGate(e, b, c, Buy, q).Some? {
      GateRefuses(e, b, c, q);
    } else {
      ValidatorAnswers(e, b, c, q);
      var v := AfterGates(b, c, Buy);
      SizingReadsAccount(e, b, v, c);
      if c.symbol == e.filters.symbol && q > 0.0 { OrderIsFilled(e, v, c, q); }
    }
  }

  lemma OrderIsFilled(e: Env, r: Run, c: Candle, q: real)
    requires ValidEnv(e) && Portfolio.Valid(r.portfolio) && r.portfolio.side == Flat
    requires SizeBuy(e, r, c) == Ok(q)
    ensures var x := FillBuy(e, r, c, q);
            if !e.fixedRiskReward && Unaffordable(e, r.portfolio.quote, c.open, q) then x == Err(InvalidTransition)
            else x.Ok? && Bought(e, r, x.value, c, q) && Silent(r, x.value)
  {
    hide PlacePosition, Bought, PlanEntry, BuildRealizedPlan, RiskBasedBuyQuantity, FillEstimate, Amount, StopBelow;
    if e.fixedRiskReward {
      PolicyFillBuys(e, r, c, q);
    } else {
      PlacementBuys(e, r, c, q, StopBelow(FillEstimate(c.open, e.costs), e.costs), None);
    }
  }

  lemma SizerRefuses(e: Env, r: Run, c: Candle)
    requires ValidEnv(e) && Portfolio.Valid(r.portfolio) && r.portfolio.side == Flat && r.pending == Buy
    requires SizeBuy(e, r, c).Err?
    ensures var x, reason := Resolve(e, r, c), SizeBuy(e, r, c).error;
            && x.Ok? && Refused(r, x.value)
            && x.value.diag.rejected == Increment(r.diag.rejected, CodeOf(reason))
            && JournalEntry(SizingEntry, c.openTime, DecisionPayload(Buy, Some(reason))) in x.value.journal
  {
    hide PlanEntry, RiskBasedBuyQuantity, EvaluateRisk, FillBuy, CodeOf, Increment;
    SizingReadsAccount(e, r, r.(peak := Max(r.peak, Equity(r.portfolio, c.open)), pending := Hold), c);
  }

  // ----- Over a whole run -----------------------------------------------------------------------------------

  /**
   * Whether a gate is shut when the last candle opens, told by what happened before it: the marks of the account, the
   * trades closed on this UTC day and its fills, the losses of the last candles, and the cash.
   */
  ghost predicate Shut(gate: RiskCode, e: Env, start: real, minRequired: nat, candles: seq<Candle>, r: Run, k: nat,
                       q: real)
    requires ValidEnv(e) && 0 < minRequired <= |candles| && k < |candles|
  {
    var c, quote := Last(candles), r.portfolio.quote;
    var day := DayOf(c.openTime);
    match gate
    case MaxDrawdownShutdown =>
      exists peak :: Highest(peak, Marks(e, start, minRequired, DropLast(candles)) + [quote])
                     && peak - quote >= e.risk.maxDrawdown * peak
    case MaxDailyLossShutdown =>
      ResultOn(r.trades, day, AccountAtOpen(e, start, minRequired, candles, k)) <= -e.risk.maxDailyLoss
    case MaxTradesPerDayReached => FillsOn(r, day) >= e.risk.maxTradesPerDay
    case CooldownAfterLoss => LostRecently(r.trades, candles, e.risk.cooldownBars)
    case BelowMinQuoteBalance => quote < e.risk.minQuote
    case ExceedsMaxPosition => Amount(q, c.open) > e.risk.maxPosition * quote
    case _ => false
  }

  /** A trade was closed at a loss less than `pause` candles ago. */
  ghost predicate LostRecently(trades: seq<Trade>, candles: seq<Candle>, pause: int) {
    exists j | 0 <= j < |candles| :: LossAt(trades, candles[j].openTime) && |candles| - 1 - j < pause
  }

  lemma PauseMeansRecentLoss(trades: seq<Trade>, candles: seq<Candle>, pause: int, left: int)
    requires CoolsDown(trades, candles, pause, left)
    ensures left > 0 <==> LostRecently(trades, candles, pause)
  {
    hide LossAt;
    if !forall k | 0 <= k < |candles| :: !LossAt(trades, candles[k].openTime) {
      var j: nat :| PauseLeft(trades, candles, pause, j, left);
    }
  }

  lemma DrawdownOfPeak(peak: real, quote: real, limit: real)
    requires peak > 0.0
    ensures Drawdown(peak, quote) >= limit <==> peak - quote >= limit * peak
  {
    var lost := peak - quote;
    assert lost / peak * peak == lost;
    if lost / peak >= limit { Scale(limit, lost / peak, peak); }
    if lost / peak < limit { Scale(lost / peak, limit, peak); }
  }

  lemma PeakIsUnique(p: real, q: real, marks: seq<real>)
    requires Highest(p, marks) && Highest(q, marks)
    ensures p == q
  {
  }

  /** What the counters say of each gate is what the history says. */
  lemma GatesReadHistory(e: Env, start: real, minRequired: nat, candles: seq<Candle>, k: nat, r: Run, q: real, i: nat)
    requires ValidEnv(e) && 0 < minRequired <= |candles| && k < |candles| && i < |GATES|
    requires r.portfolio.quote > 0.0 && r.peak > 0.0
    requires Highest(r.peak, Marks(e, start, minRequired, DropLast(candles)))
    requires FiguresFit(e, BeginCandle(r, Last(candles)), candles, AccountAtOpen(e, start, minRequired, candles, k))
    ensures var b := BeginCandle(r, Last(candles));
            Closed(GATES[i], Buy, Amount(q, Last(candles).open), FlatContext(b, r.portfolio.quote), e.risk)
            <==> Shut(GATES[i], e, start, minRequired, candles, r, k, q)
  {
    GatesInOrder();
    hide Highest, Marks, ResultOn, ClosedFills, LossAt, AccountAtOpen, CoolsDown, LostRecently, Drawdown, Amount;
    var quote, b := r.portfolio.quote, BeginCandle(r, Last(candles));
    var peak, marks := Max(r.peak, quote), Marks(e, start, minRequired, DropLast(candles)) + [quote];
    HigherMark(r.peak, Marks(e, start, minRequired, DropLast(candles)), quote);
    DrawdownOfPeak(peak, quote, e.risk.maxDrawdown);
    PauseMeansRecentLoss(b.trades, candles, e.risk.cooldownBars, b.cooldown);
    forall other | Highest(other, marks) ensures other == peak {
      PeakIsUnique(other, peak, marks);
    }
  }

  ghost predicate NoneShut(e: Env, start: real, minRequired: nat, candles: seq<Candle>, r: Run, k: nat, q: real)
    requires ValidEnv(e) && 0 < minRequired <= |candles| && k < |candles|
  {
    forall i | 0 <= i < |GATES| :: !Shut(GATES[i], e, start, minRequired, candles, r, k, q)
  }

  ghost predicate FirstShut(i: nat, e: Env, start: real, minRequired: nat, candles: seq<Candle>, r: Run, k: nat,
                            q: real)
    requires ValidEnv(e) && 0 < minRequired <= |candles| && k < |candles| && i < |GATES|
  {
    && Shut(GATES[i], e, start, minRequired, candles, r, k, q)
    && forall j | 0 <= j < i :: !Shut(GATES[j], e, start, minRequired, candles, r, k, q)
  }

  /** Everything an entry needs on the last candle: cash, an order the exchange takes, and every gate open. */
  ghost predicate EntryDue(e: Env, start: real, minRequired: nat, candles: seq<Candle>, r: Run, k: nat, q: real)
    requires ValidEnv(e) && 0 < minRequired <= |candles| && k < |candles|
  {
    var c, quote := Last(candles), r.portfolio.quote;
    && quote > 0.0 && q > 0.0 && Orderable(e, c.open, q) && c.symbol == e.filters.symbol
    && NoneShut(e, start, minRequired, candles, r, k, q)
  }

  /** A gate's first refusal, on the last candle: the account then, and how far it was below its highest mark. */
  ghost predicate ActivatedAt(e: Env, start: real, minRequired: nat, candles: seq<Candle>, r: Run, at: Activation)
    requires ValidEnv(e) && 0 < minRequired <= |candles|
  {
    && at.time == Last(candles).openTime && at.equity == r.portfolio.quote
    && exists peak ::
         && Highest(peak, Marks(e, start, minRequired, DropLast(candles)) + [r.portfolio.quote])
         && Amount(at.drawdown, peak) == peak - r.portfolio.quote
  }

  /** What the run did about the queued BUY on the last candle. */
  ghost predicate EntryDecided(e: Env, start: real, minRequired: nat, candles: seq<Candle>, r: Run, k: nat, q: real,
                               filled: RunResult)
    requires ValidEnv(e) && 0 < minRequired <= |candles| && k < |candles|
  {
    var c, b := Last(candles), BeginCandle(r, Last(candles));
    var reason := SizingReason(e, r.portfolio.quote, c.open, q);
    if !EntryDue(e, start, minRequired, candles, r, k, q) then
      && filled.Ok? && Refused(b, filled.value)
      && (r.portfolio.quote <= 0.0 || !Orderable(e, c.open, q) ==>
            && filled.value.diag.rejected == Increment(r.diag.rejected, CodeOf(reason))
            && JournalEntry(SizingEntry, c.openTime, DecisionPayload(Buy, Some(reason))) in filled.value.journal)
      && (r.portfolio.quote > 0.0 && Orderable(e, c.open, q) ==>
            forall i | 0 <= i < |GATES| && FirstShut(i, e, start, minRequired, candles, r, k, q) ::
              && filled.value.diag.rejected == Increment(r.diag.rejected, RiskCodeName(GATES[i]))
              && JournalEntry(RiskEntry, c.openTime, DecisionPayload(Buy, Some(ByRisk(GATES[i]))))
                 in filled.value.journal
              && GATES[i] in filled.value.diag.firstActivation
              && (GATES[i] !in r.diag.firstActivation ==>
                    ActivatedAt(e, start, minRequired, candles, r, filled.value.diag.firstActivation[GATES[i]])))
      && (r.portfolio.quote > 0.0 && Orderable(e, c.open, q) && NoneShut(e, start, minRequired, candles, r, k, q) ==>
            RefusedByValidator(e, b, filled.value, c))
    else if !e.fixedRiskReward && Unaffordable(e, r.portfolio.quote, c.open, q) then filled == Err(InvalidTransition)
    else filled.Ok? && Bought(e, b, filled.value, c, q)
  }

  /** The answer about the counters is the answer about the history. */
  lemma AnswerReadsHistory(e: Env, start: real, minRequired: nat, candles: seq<Candle>, k: nat, r: Run, q: real,
                           filled: RunResult)
    requires ValidEnv(e) && 0 < minRequired <= |candles| && k < |candles|
    requires r.portfolio.quote > 0.0 && r.peak > 0.0 && Orderable(e, Last(candles).open, q)
    requires Highest(r.peak, Marks(e, start, minRequired, DropLast(candles)))
    requires FiguresFit(e, BeginCandle(r, Last(candles)), candles, AccountAtOpen(e, start, minRequired, candles, k))
    requires BuyAnswered(e, BeginCandle(r, Last(candles)), Last(candles), q, filled)
    ensures EntryDecided(e, start, minRequired, candles, r, k, q, filled)
  {
    hide Highest, FiguresFit, Closed, Shut, Increment, Drawdown, Refused, Bought, Unaffordable, Orderable, Amount,
        ActivatedAt, RefusedByValidator;
    var c, b := Last(candles), BeginCandle(r, Last(candles));
    var notional, context := Amount(q, c.open), FlatContext(b, r.portfolio.quote);
    forall i | 0 <= i < |GATES|
      ensures Closed(GATES[i], Buy, notional, context, e.risk)
         <==> Shut(GATES[i], e, start, minRequired, candles, r, k, q)
    {
      GatesReadHistory(e, start, minRequired, candles, k, r, q, i);
    }
    FirstActivation(e, start, minRequired, candles, r);
    assert AllOpen(Buy, notional, context, e.risk) <==> NoneShut(e, start, minRequired, candles, r, k, q);
    assert forall i | 0 <= i < |GATES| :: FirstClosed(i, Buy, notional, context, e.risk)
                                     <==> FirstShut(i, e, start, minRequired, candles, r, k, q);
  }

  lemma FirstActivation(e: Env, start: real, minRequired: nat, candles: seq<Candle>, r: Run)
    requires ValidEnv(e) && 0 < minRequired <= |candles| && r.peak > 0.0
    requires Highest(r.peak, Marks(e, start, minRequired, DropLast(candles)))
    ensures var quote := r.portfolio.quote;
            ActivatedAt(e, start, minRequired, candles, r,
                        Activation(Last(candles).openTime, quote, Drawdown(Max(r.peak, quote), quote)))
  {
    hide Highest, Marks;
    var quote := r.portfolio.quote;
    var peak, marks := Max(r.peak, quote), Marks(e, start, minRequired, DropLast(candles));
    HigherMark(r.peak, marks, quote);
    ShareTimesWhole(peak - quote, peak);
    assert Amount(Drawdown(peak, quote), peak) == peak - quote;
  }

  lemma ShareTimesWhole(part: real, whole: real)
    requires whole != 0.0
    ensures Amount(part / whole, whole) == part
  {
  }

  lemma SignalIsDecided(e: Env, start: real, minRequired: nat, candles: seq<Candle>, k: nat, r: Run, q: real)
    requires ValidEnv(e) && 0 < minRequired <= |candles| && k < |candles| && Priced(Last(candles))
    requires Portfolio.Valid(r.portfolio) && r.portfolio.side == Flat && r.pending == Buy && r.peak > 0.0
    requires r.portfolio.quote > 0.0 ==> LargestStake(e, r.portfolio.quote, Last(candles).open, q)
    requires Highest(r.peak, Marks(e, start, minRequired, DropLast(candles)))
    requires FiguresFit(e, BeginCandle(r, Last(candles)), candles, AccountAtOpen(e, start, minRequired, candles, k))
    ensures var c := Last(candles);
            EntryDecided(e, start, minRequired, candles, r, k, q, Resolve(e, BeginCandle(r, c), c))
  {
    hide Highest, FiguresFit, BuyAnswered, Shut, Orderable, LargestStake, SizeBuy, Resolve;
    var c, b := Last(candles), BeginCandle(r, Last(candles));
    BuyIsLargestStake(e, b, c, q);
    if SizeBuy(e, b, c).Err? {
      SizerRefuses(e, b, c);
    } else {
      StakeIsAligned(e, r.portfolio.quote, c.open, q);
      BuyIsAnswered(e, b, c, q);
      AnswerReadsHistory(e, start, minRequired, candles, k, r, q, Resolve(e, b, c));
    }
  }

  lemma StakeIsAligned(e: Env, quote: real, price: real, q: real)
    requires LargestStake(e, quote, price, q)
    ensures StepAligned(q, e.filters.stepSize)
  {
  }

  /**
   * A queued BUY becomes a position exactly when the history allows it: with every gate open as the trades and candles
   * before this one tell it, and of the largest quantity the account may stake. Otherwise nothing is bought, and the
   * first gate that is shut is the reason recorded. Entries are counted exactly then.
   */
  lemma EntriesPassEveryGate(e: Env, start: real, minRequired: nat, candles: seq<Candle>, k: nat, r: Run, q: real)
    requires ValidEnv(e) && Simulated(e, start, minRequired, candles) && OpensDay(candles, minRequired, k)
    requires RunSegment(e, start, minRequired, DropLast(candles)) == Ok(r)
    requires r.pending == Buy && r.portfolio.quote > 0.0 ==> LargestStake(e, r.portfolio.quote, Last(candles).open, q)
    ensures var c := Last(candles);
            r.pending == Buy ==>
              EntryDecided(e, start, minRequired, candles, r, k, q, Resolve(e, BeginCandle(r, c), c))
    ensures var x := RunSegment(e, start, minRequired, candles);
            var bought := r.pending == Buy && EntryDue(e, start, minRequired, candles, r, k, q);
            x.Ok? ==> x.value.diag.executedEntries == r.diag.executedEntries + if bought then 1 else 0
  {
    hide Highest, FiguresFit, EntryDue, EntryDecided, Shut, LargestStake, Resolve, Step, Inv, BeginCandle;
    RunKeepsInv(e, start, minRequired, DropLast(candles));
    FiguresAtTheOpen(e, start, minRequired, candles, k);
    PeakIsHighestMark(e, start, minRequired, DropLast(candles));
    if r.pending == Buy {
      FlatWhenBuying(e, start, r);
      SignalIsDecided(e, start, minRequired, candles, k, r, q);
    }
    EntriesAreCounted(e, start, minRequired, candles, k, r, q);
  }

  lemma FlatWhenBuying(e: Env, start: real, r: Run)
    requires Inv(e, start, r)
    ensures r.peak > 0.0 && Portfolio.Valid(r.portfolio) && (r.pending == Buy ==> r.portfolio.side == Flat)
  {
  }

  lemma EntriesAreCounted(e: Env, start: real, minRequired: nat, candles: seq<Candle>, k: nat, r: Run, q: real)
    requires ValidEnv(e) && 0 < minRequired <= |candles| && k < |candles| && Inv(e, start, r) && Priced(Last(candles))
    requires r.pending == Buy ==>
               EntryDecided(e, start, minRequired, candles, r, k, q,
                            Resolve(e, BeginCandle(r, Last(candles)), Last(candles)))
    ensures var x := Step(e, r, candles);
            var bought := r.pending == Buy && EntryDue(e, start, minRequired, candles, r, k, q);
            x.Ok? ==> x.value.diag.executedEntries == r.diag.executedEntries + if bought then 1 else 0
  {
    hide Highest, FiguresFit, EntryDue, Shut, LargestStake, Resolve, Inv, Protect;
    var c, b := Last(candles), BeginCandle(r, Last(candles));
    BeginKeepsInv(e, start, r, c);
    ResolveFills(e, start, b, c);
    ResolveKeepsInv(e, start, b, c);
    var filled := Resolve(e, b, c);
    if filled.Ok? { ProtectFills(e, start, filled.value, c); }
  }
}
