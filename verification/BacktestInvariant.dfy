// What every reachable state of a run satisfies: the ledger, the link between position, open trade
// and protective levels, and, under the fixed risk/reward policy, the exact relation between each
// planned and realised result.

module BacktestInvariant {
  import opened Common
  import opened ExchangeFilters
  import opened Portfolio
  import opened RiskReward
  import opened Sizing
  import opened Backtest

  predicate Priced(c: Candle) {
    c.open > 0.0 && c.high > 0.0 && c.low > 0.0 && c.close > 0.0
  }

  predicate AllPriced(candles: seq<Candle>) {
    forall c | c in candles :: Priced(c)
  }

  function TotalPnl(trades: seq<Trade>): real {
    if trades == [] then 0.0 else TotalPnl(DropLast(trades)) + Last(trades).pnl
  }

  /** The part of a run the invariant speaks about; everything else is bookkeeping. */
  datatype Books = Books(portfolio: PortfolioState, openTrade: Option<OpenTrade>, stop: Option<real>,
                         target: Option<real>,
                         trades: seq<Trade>, risks: seq<real>, rewards: seq<real>, gapLosses: nat)

  function BooksOf(r: Run): Books {
    Books(r.portfolio, r.openTrade, r.stop, r.target, r.trades,
          r.diag.plannedRisks, r.diag.plannedRewards, r.diag.gapLosses)
  }

  /** Long, a recorded open trade, and its protective levels come and go together. */
  predicate PositionLinked(e: Env, b: Books) {
    match b.openTrade
    case None => b.portfolio.side == Flat && b.stop.None? && b.target.None?
    case Some(o) =>
      && b.portfolio.side == Long
      && o.quantity == b.portfolio.base
      && b.portfolio.avgEntry == Some(o.entryPrice) && o.entryPrice > 0.0
      && b.portfolio.openFee == o.entryFee == Amount(o.quantity, o.entryPrice) * e.costs.fee
      && b.stop == Some(StopBelow(o.entryPrice, e.costs))
      && o.plan.Some? == b.target.Some? == e.fixedRiskReward
      && (o.plan.Some? ==> b.target == o.plan.value.target)
  }

  predicate Sound(e: Env, start: real, b: Books) {
    && Portfolio.Valid(b.portfolio) && Ledger(b.portfolio) == start
    && b.portfolio.quote >= 0.0
    && StepAligned(b.portfolio.base, e.filters.stepSize)
    && PositionLinked(e, b)
    && TotalPnl(b.trades) == b.portfolio.realizedPnl
  }

  /** How one closed trade relates to the plan it was entered under. */
  predicate Honoured(e: Env, t: Trade, risk: real, reward: real, equityBefore: real) {
    var stop := StopBelow(t.entryPrice, e.costs);
    && 0.0 < risk <= RiskBudget(equityBefore)
    && risk == Amount(t.quantity, LossPerUnit(t.entryPrice, stop, e.costs))
    && reward >= MIN_NET_REWARD_TO_RISK * risk
    && (t.reason == TakeProfit ==> t.pnl == reward)
    && (t.reason == StopLoss ==> t.exitReference <= stop)
    && (t.reason == StopLoss && t.exitReference == stop ==> t.pnl == -risk)
    && (t.reason == StopLoss && t.exitReference < stop ==> t.pnl < -risk)
  }

  /** A stop exit filled below its level: the candle opened through the stop. */
  predicate GappedThroughStop(e: Env, t: Trade) {
    t.reason == StopLoss && t.exitReference < StopBelow(t.entryPrice, e.costs)
  }

  function GapCount(e: Env, trades: seq<Trade>): nat {
    if trades == [] then 0
    else GapCount(e, DropLast(trades)) + if GappedThroughStop(e, Last(trades)) then 1 else 0
  }

  /** One planned risk and reward per closed trade, in order, and one more for an open position. */
  predicate PlansHonoured(e: Env, start: real, b: Books) {
    && |b.risks| == |b.rewards| == |b.trades| + (if b.openTrade.Some? then 1 else 0)
    && (forall i | 0 <= i < |b.trades| ::
          Honoured(e, b.trades[i], b.risks[i], b.rewards[i], start + TotalPnl(b.trades[..i])))
    && (b.openTrade.Some? ==> OpenPlanSound(e, start, b))
    && b.gapLosses == GapCount(e, b.trades)
  }

  predicate OpenPlanSound(e: Env, start: real, b: Books)
    requires b.openTrade.Some?
  {
    var o := b.openTrade.value;
    && o.plan.Some? && SoundPlan(o.plan.value, o.entryPrice, e.costs, start + TotalPnl(b.trades))
    && o.plan.value.quantity == Some(o.quantity)
    && |b.risks| > 0 && |b.rewards| > 0
    && Last(b.risks) == o.plan.value.risk.value
    && Last(b.rewards) == o.plan.value.reward.value
  }

  predicate BooksKept(e: Env, start: real, b: Books) {
    Sound(e, start, b) && (e.fixedRiskReward ==> PlansHonoured(e, start, b))
  }

  predicate Inv(e: Env, start: real, r: Run) {
    && BooksKept(e, start, BooksOf(r))
    && r.peak > 0.0
    && (r.pending == Buy ==> r.portfolio.side == Flat)
    && (e.fixedRiskReward ==> r.diag.rejectedPostFill == 0 && r.diag.rejectedNetRatio == 0)
  }

  // ----- Closing the whole position ---------------------------------------------------------------

  lemma StopIsNegatedLoss(entry: real, stop: real, c: Costs)
    ensures GainPerUnit(entry, stop, c) == -LossPerUnit(entry, stop, c)
  {
  }

  /** Selling everything books exactly the per-unit gain of the plan's own formula. */
  lemma WholeSalePnl(p: PortfolioState, entry: real, reference: real, c: Costs)
    requires Portfolio.Valid(p) && p.side == Long && p.avgEntry == Some(entry)
    requires p.openFee == Amount(p.base, entry) * c.fee
    ensures var fill := SimulateSell(p.base, reference, c);
            var s := ApplySell(p, p.base, fill.price, fill.fee, false);
            && s.Ok? && s.value.side == Flat && Portfolio.Valid(s.value)
            && s.value.quote == p.quote + Amount(p.base, fill.price) - fill.fee
            && s.value.realizedPnl - p.realizedPnl == Amount(p.base, GainPerUnit(entry, reference, c))
  {
  }

  lemma SaleProceedsNonNegative(q: real, price: real, c: Costs)
    requires q > 0.0 && price >= 0.0 && ValidCosts(c)
    ensures Amount(q, price) - Amount(q, price) * c.fee >= 0.0
  {
    AmountMonotone(q, 0.0, price);
    var v, left := Amount(q, price), 1.0 - c.fee;
    assert v - v * c.fee == Amount(v, left);
    if v > 0.0 { AmountMonotone(v, 0.0, left); }
  }

  lemma AppendedTotal(trades: seq<Trade>, t: Trade)
    ensures TotalPnl(trades + [t]) == TotalPnl(trades) + t.pnl
  {
  }

  lemma AppendedGaps(e: Env, trades: seq<Trade>, t: Trade)
    ensures GapCount(e, trades + [t]) == GapCount(e, trades) + if GappedThroughStop(e, t) then 1 else 0
  {
  }

  /** What selling the whole position does to the account. */
  lemma WholeSaleKeepsAccount(p: PortfolioState, entry: real, reference: real, c: Costs)
    requires ValidCosts(c) && Portfolio.Valid(p) && p.side == Long && p.avgEntry == Some(entry)
    requires p.openFee == Amount(p.base, entry) * c.fee && p.quote >= 0.0 && reference > 0.0
    ensures var fill := SimulateSell(p.base, reference, c);
            var s := ApplySell(p, p.base, fill.price, fill.fee, false);
            && s.Ok? && s.value.side == Flat && s.value.base == 0.0 && s.value.quote >= 0.0
            && Portfolio.Valid(s.value) && Ledger(s.value) == Ledger(p)
            && s.value.realizedPnl - p.realizedPnl == Amount(p.base, GainPerUnit(entry, reference, c))
  {
    var fill := SimulateSell(p.base, reference, c);
    WholeSalePnl(p, entry, reference, c);
    SellKeepsLedger(p, p.base, fill.price, fill.fee, false);
    assert fill.price == Amount(reference, 1.0 - c.slippage);
    AmountGrows(0.0, reference, 1.0 - c.slippage);
    SaleProceedsNonNegative(p.base, fill.price, c);
  }

  /** Any exit of the engine closes the whole position and keeps the books sound. */
  lemma ExitKeepsSound(e: Env, start: real, r: Run, time: int, reference: real, reason: ExitReason)
    requires ValidCosts(e.costs) && Sound(e, start, BooksOf(r)) && r.portfolio.side == Long && reference > 0.0
    requires StepAligned(0.0, e.filters.stepSize)
    ensures var x := ApplyExit(e, r, time, r.portfolio.base, reference, reason);
            && x.Ok? && Sound(e, start, BooksOf(x.value)) && x.value.openTrade.None?
            && x.value.trades == r.trades + [Last(x.value.trades)]
            && var t := Last(x.value.trades);
               && t.reason == reason && t.exitReference == reference && t.exitTime == time
               && t.quantity == r.openTrade.value.quantity && t.entryPrice == r.openTrade.value.entryPrice
               && t.pnl == Amount(t.quantity, GainPerUnit(t.entryPrice, reference, e.costs))
  {
    WholeSaleKeepsAccount(r.portfolio, r.openTrade.value.entryPrice, reference, e.costs);
    hide ApplySell, SimulateSell, GainPerUnit, Ledger, StopBelow;
    var x := ApplyExit(e, r, time, r.portfolio.base, reference, reason);
    AppendedTotal(r.trades, Last(x.value.trades));
  }

  /** The stop's own loss, and every deeper fill's larger loss, measured against the plan. */
  lemma StopExitLoss(e: Env, q: real, entry: real, reference: real)
    requires ValidCosts(e.costs) && q > 0.0 && reference <= StopBelow(entry, e.costs)
    ensures var stop := StopBelow(entry, e.costs); var risk := Amount(q, LossPerUnit(entry, stop, e.costs));
            var pnl := Amount(q, GainPerUnit(entry, reference, e.costs));
            && (reference == stop ==> pnl == -risk)
            && (reference < stop ==> pnl < -risk)
  {
    var stop := StopBelow(entry, e.costs);
    var loss, gain := LossPerUnit(entry, stop, e.costs), GainPerUnit(entry, reference, e.costs);
    StopIsNegatedLoss(entry, stop, e.costs);
    assert Amount(q, -loss) == -Amount(q, loss);
    if reference < stop {
      KeptIsPositive(e.costs);
      GainForm(entry, reference, e.costs);
      GainForm(entry, stop, e.costs);
      AmountGrows(reference, stop, RiskReward.Kept(e.costs));
      AmountMonotone(q, gain, -loss);
    }
  }

  /** What the engine knows about the reference price of each kind of exit. */
  predicate ExitReferenceFits(e: Env, r: Run, reference: real, reason: ExitReason)
    requires r.openTrade.Some?
  {
    && (reason == StopLoss ==> reference <= StopBelow(r.openTrade.value.entryPrice, e.costs))
    && (reason == TakeProfit ==> r.target == Some(reference))
  }

  /** The trade just closed honours the plan the position carried. */
  lemma ClosedTradeHonoursPlan(e: Env, o: OpenTrade, t: Trade, equityBefore: real)
    requires ValidCosts(e.costs)
    requires o.plan.Some? && o.plan.value.quantity == Some(o.quantity)
    requires SoundPlan(o.plan.value, o.entryPrice, e.costs, equityBefore)
    requires t.quantity == o.quantity && t.entryPrice == o.entryPrice
    requires t.pnl == Amount(t.quantity, GainPerUnit(t.entryPrice, t.exitReference, e.costs))
    requires t.reason == StopLoss ==> t.exitReference <= StopBelow(t.entryPrice, e.costs)
    requires t.reason == TakeProfit ==> o.plan.value.target == Some(t.exitReference)
    ensures Honoured(e, t, o.plan.value.risk.value, o.plan.value.reward.value, equityBefore)
  {
    if t.reason == StopLoss { StopExitLoss(e, t.quantity, t.entryPrice, t.exitReference); }
  }

  /** Appending an honoured trade to the closed ones. */
  lemma AppendKeepsPlans(e: Env, start: real, b: Books, x: Books)
    requires PlansHonoured(e, start, b) && b.openTrade.Some? && x.openTrade.None?
    requires |x.trades| > 0 && x.trades == b.trades + [Last(x.trades)]
    requires x.risks == b.risks && x.rewards == b.rewards
    requires x.gapLosses == b.gapLosses + if GappedThroughStop(e, Last(x.trades)) then 1 else 0
    requires Honoured(e, Last(x.trades), Last(b.risks), Last(b.rewards), start + TotalPnl(b.trades))
    ensures PlansHonoured(e, start, x)
  {
    var n := |b.trades|;
    AppendedGaps(e, b.trades, Last(x.trades));
    forall i | 0 <= i < |x.trades|
      ensures Honoured(e, x.trades[i], x.risks[i], x.rewards[i], start + TotalPnl(x.trades[..i]))
    {
      assert x.trades[..i] == b.trades[..i];
      if i == n { assert b.trades[..i] == b.trades; }
    }
  }

  lemma ExitKeepsPlans(e: Env, start: real, r: Run, time: int, reference: real, reason: ExitReason)
    requires ValidCosts(e.costs) && e.fixedRiskReward && BooksKept(e, start, BooksOf(r))
    requires r.portfolio.side == Long && reference > 0.0
    requires StepAligned(0.0, e.filters.stepSize) && ExitReferenceFits(e, r, reference, reason)
    ensures var x := ApplyExit(e, r, time, r.portfolio.base, reference, reason);
            x.Ok? && PlansHonoured(e, start, BooksOf(x.value))
  {
    ExitKeepsSound(e, start, r, time, reference, reason);
    var x := ApplyExit(e, r, time, r.portfolio.base, reference, reason).value;
    ClosedTradeHonoursPlan(e, r.openTrade.value, Last(x.trades), start + TotalPnl(r.trades));
    AppendKeepsPlans(e, start, BooksOf(r), BooksOf(x));
  }

  lemma ExitKeepsBooks(e: Env, start: real, r: Run, time: int, reference: real, reason: ExitReason)
    requires ValidCosts(e.costs) && BooksKept(e, start, BooksOf(r)) && r.portfolio.side == Long && reference > 0.0
    requires StepAligned(0.0, e.filters.stepSize) && ExitReferenceFits(e, r, reference, reason)
    ensures var x := ApplyExit(e, r, time, r.portfolio.base, reference, reason);
            x.Ok? && BooksKept(e, start, BooksOf(x.value))
  {
    ExitKeepsSound(e, start, r, time, reference, reason);
    if e.fixedRiskReward { ExitKeepsPlans(e, start, r, time, reference, reason); }
  }

  // ----- Opening a position ----------------------------------------------------------------------

  /** A filled entry of a positive aligned quantity, if the account affords it. */
  lemma PlacementKeepsSound(e: Env, start: real, r: Run, c: Candle, quantity: real, plan: Option<RiskRewardPlan>)
    requires ValidCosts(e.costs) && Sound(e, start, BooksOf(r)) && r.openTrade.None? && c.open > 0.0
    requires quantity > 0.0 && StepAligned(quantity, e.filters.stepSize)
    requires plan.Some? == e.fixedRiskReward
    requires plan.Some? ==> plan.value.target.Some? && plan.value.risk.Some? && plan.value.reward.Some?
    ensures var fill := SimulateBuy(quantity, c.open, e.costs);
            var x := PlacePosition(e, r, c, quantity, StopBelow(fill.price, e.costs), plan);
            && (x.Err? <==> Amount(quantity, fill.price) + fill.fee > r.portfolio.quote)
            && (x.Ok? ==> Sound(e, start, BooksOf(x.value)))
  {
    var fill := SimulateBuy(quantity, c.open, e.costs);
    FillAtOrAboveReference(c.open, e.costs);
    BuyKeepsLedger(r.portfolio, quantity, fill.price, fill.fee, false);
  }

  lemma EntryCostForm(quantity: real, price: real, c: Costs)
    ensures Amount(quantity, price) + Amount(quantity, price) * c.fee == Amount(quantity, EntryCost(price, c))
  {
  }

  lemma PlacementKeepsPlans(e: Env, start: real, b: Books, x: Books, plan: RiskRewardPlan)
    requires PlansHonoured(e, start, b) && b.openTrade.None? && x.openTrade.Some?
    requires plan.risk.Some? && plan.reward.Some?
    requires x.trades == b.trades && x.gapLosses == b.gapLosses
    requires x.risks == b.risks + [plan.risk.value] && x.rewards == b.rewards + [plan.reward.value]
    requires x.openTrade.value.plan == Some(plan) && plan.quantity == Some(x.openTrade.value.quantity)
    requires SoundPlan(plan, x.openTrade.value.entryPrice, e.costs, start + TotalPnl(b.trades))
    ensures PlansHonoured(e, start, x)
  {
  }

  /** The policy's fill, once its plan is known to be sound and affordable. */
  lemma SoundPlacement(e: Env, start: real, r: Run, c: Candle, plan: RiskRewardPlan)
    requires ValidCosts(e.costs) && e.fixedRiskReward && BooksKept(e, start, BooksOf(r))
    requires r.openTrade.None? && c.open > 0.0
    requires SoundPlan(plan, FillEstimate(c.open, e.costs), e.costs, start + TotalPnl(r.trades))
    requires StepAligned(plan.quantity.value, e.filters.stepSize)
    requires Amount(plan.quantity.value, EntryCost(FillEstimate(c.open, e.costs), e.costs)) <= r.portfolio.quote
    ensures var x := PlacePosition(e, r, c, plan.quantity.value, plan.stop.value, Some(plan));
            && x.Ok? && BooksKept(e, start, BooksOf(x.value)) && x.value.openTrade.Some?
            && x.value.diag.rejectedPostFill == r.diag.rejectedPostFill
            && x.value.diag.rejectedNetRatio == r.diag.rejectedNetRatio
  {
    var q := plan.quantity.value;
    EntryCostForm(q, FillEstimate(c.open, e.costs), e.costs);
    PlacementKeepsSound(e, start, r, c, q, Some(plan));
    var x := PlacePosition(e, r, c, q, plan.stop.value, Some(plan)).value;
    PlacementKeepsPlans(e, start, BooksOf(r), BooksOf(x), plan);
  }

  /** Under the policy, a validated entry is always affordable and carries a sound plan. */
  lemma PolicyEntryKeepsBooks(e: Env, start: real, r: Run, c: Candle)
    requires ValidEnv(e) && e.fixedRiskReward && BooksKept(e, start, BooksOf(r)) && r.openTrade.None?
    requires EntryPlan(e, r, c).approved && EntryPlan(e, r, c).quantity.Some?
    ensures var x := FillBuy(e, r, c, EntryPlan(e, r, c).quantity.value);
            && x.Ok? && BooksKept(e, start, BooksOf(x.value)) && x.value.openTrade.Some?
            && x.value.diag.rejectedPostFill == r.diag.rejectedPostFill
            && x.value.diag.rejectedNetRatio == r.diag.rejectedNetRatio
  {
    var equity, plan := Equity(r.portfolio, c.open), EntryPlan(e, r, c);
    var q, fill := plan.quantity.value, FillEstimate(c.open, e.costs);
    ApprovedQuantityIsSafe(equity, r.portfolio.quote, c.open, e.costs, e.filters);
    RealizedPlanAlwaysApproved(equity, r.portfolio.quote, c.open, e.costs, e.filters);
    assert plan.(quantity := Some(q)) == plan;
    var realized := BuildRealizedPlan(plan, fill, e.costs, equity, e.filters);
    assert equity == start + TotalPnl(r.trades);
    SoundPlacement(e, start, r, c, realized);
  }

  // ----- One candle -------------------------------------------------------------------------------

  lemma ZeroIsAligned(f: SymbolFilters)
    ensures StepAligned(0.0, f.stepSize)
  {
  }

  lemma PolicyBuyKeepsBooks(e: Env, start: real, r: Run, c: Candle)
    requires ValidEnv(e) && BooksKept(e, start, BooksOf(r)) && Priced(c) && r.portfolio.side == Flat
    requires e.fixedRiskReward
    ensures var x := ResolveBuy(e, r, c);
            && x.Ok? && BooksKept(e, start, BooksOf(x.value))
            && x.value.diag.rejectedPostFill == r.diag.rejectedPostFill
            && x.value.diag.rejectedNetRatio == r.diag.rejectedNetRatio
  {
    hide PlanEntry, EvaluateRisk, FillBuy;
    var sized := SizeBuy(e, r, c);
    PreFillGatesNeverFire(Equity(r.portfolio, c.open), r.portfolio.quote, c.open, e.costs, e.filters);
    if sized.Ok? {
      var v := AfterGates(r, c, Buy);
      assert BooksOf(v) == BooksOf(r);
      ApprovedQuantityIsSafe(Equity(r.portfolio, c.open), r.portfolio.quote, c.open, e.costs, e.filters);
      ValidatorKeepsPlannedQuantity(c.symbol, sized.value, c.open, e.filters);
      PolicyEntryKeepsBooks(e, start, v, c);
    }
  }

  lemma RiskSizedBuyKeepsBooks(e: Env, start: real, r: Run, c: Candle)
    requires ValidEnv(e) && BooksKept(e, start, BooksOf(r)) && Priced(c) && r.portfolio.side == Flat
    requires !e.fixedRiskReward
    ensures var x := ResolveBuy(e, r, c); x.Ok? ==> BooksKept(e, start, BooksOf(x.value))
  {
    hide EvaluateRisk, RiskBasedBuyQuantity, PlacePosition;
    var sized := SizeBuy(e, r, c);
    if sized.Ok? {
      var v := AfterGates(r, c, Buy);
      assert BooksOf(v) == BooksOf(r);
      var valid := ValidationGate(e, c, sized.value);
      RoundDownIdempotent(sized.value, e.filters.stepSize);
      if valid.Ok? { PlacementKeepsSound(e, start, v, c, valid.value, None); }
    }
  }

  lemma BuyKeepsBooks(e: Env, start: real, r: Run, c: Candle)
    requires ValidEnv(e) && BooksKept(e, start, BooksOf(r)) && Priced(c) && r.portfolio.side == Flat
    ensures var x := ResolveBuy(e, r, c);
            && (x.Ok? ==> BooksKept(e, start, BooksOf(x.value)))
            && (e.fixedRiskReward ==> x.Ok? && x.value.diag.rejectedPostFill == r.diag.rejectedPostFill
                                            && x.value.diag.rejectedNetRatio == r.diag.rejectedNetRatio)
  {
    hide ResolveBuy;
    if e.fixedRiskReward { PolicyBuyKeepsBooks(e, start, r, c); } else { RiskSizedBuyKeepsBooks(e, start, r, c); }
  }

  /** The run once a signal has passed all three gates: only its journal has grown. */
  function AfterGates(r: Run, c: Candle, signal: SignalType): Run {
    RecordDecision(RecordDecision(RecordDecision(r, SizingEntry, c.openTime, signal, None),
                                  RiskEntry, c.openTime, signal, None),
                   ValidationEntry, c.openTime, signal, None)
  }

  /** An exit signal either only grows the journal or sells the whole aligned holding at the open. */
  lemma ExitSignalSellsAllOrNothing(e: Env, r: Run, c: Candle)
    requires StepAligned(r.portfolio.base, e.filters.stepSize)
    ensures var x := ResolveExit(e, r, c);
            || (x.Ok? && x.value.(journal := r.journal) == r)
            || (r.portfolio.base > 0.0
                && x == ApplyExit(e, AfterGates(r, c, Exit), c.openTime, r.portfolio.base, c.open, StrategyExit))
  {
  }

  lemma ExitSignalKeepsBooks(e: Env, start: real, r: Run, c: Candle)
    requires ValidEnv(e) && BooksKept(e, start, BooksOf(r)) && Priced(c)
    ensures var x := ResolveExit(e, r, c); x.Ok? && BooksKept(e, start, BooksOf(x.value))
  {
    ExitSignalSellsAllOrNothing(e, r, c);
    var v := AfterGates(r, c, Exit);
    assert BooksOf(v) == BooksOf(r);
    ZeroIsAligned(e.filters);
    if r.portfolio.base > 0.0 { ExitKeepsBooks(e, start, v, c.openTime, c.open, StrategyExit); }
  }

  /** What filling a signal leaves alone. */
  predicate CarriesOn(before: Run, after: Run) {
    && after.peak == before.peak && after.pending == before.pending
    && after.diag.rejectedPostFill == before.diag.rejectedPostFill
    && after.diag.rejectedNetRatio == before.diag.rejectedNetRatio
  }

  lemma ExitSignalCarriesOn(e: Env, r: Run, c: Candle)
    requires StepAligned(r.portfolio.base, e.filters.stepSize)
    ensures var x := ResolveExit(e, r, c); x.Ok? ==> CarriesOn(r, x.value)
  {
  }

  lemma BuyCarriesPeak(e: Env, r: Run, c: Candle)
    requires ValidCosts(e.costs) && ValidFilters(e.filters)
    ensures var x := ResolveBuy(e, r, c);
            x.Ok? ==> (x.value.peak == r.peak && x.value.pending == r.pending)
  {
  }

  lemma ResolveKeepsInv(e: Env, start: real, r: Run, c: Candle)
    requires ValidEnv(e) && Inv(e, start, r) && Priced(c)
    ensures var x := Resolve(e, r, c);
            && (x.Ok? ==> Inv(e, start, x.value) && x.value.pending == Hold)
            && (e.fixedRiskReward ==> x.Ok?)
  {
    var q := r.(peak := Max(r.peak, Equity(r.portfolio, c.open)), pending := Hold);
    assert BooksOf(q) == BooksOf(r);
    match r.pending
    case Hold =>
    case Buy =>
      BuyKeepsBooks(e, start, q, c);
      BuyCarriesPeak(e, q, c);
    case Exit =>
      ExitSignalKeepsBooks(e, start, q, c);
      ExitSignalCarriesOn(e, q, c);
  }

  lemma ProtectKeepsInv(e: Env, start: real, r: Run, c: Candle)
    requires ValidEnv(e) && Inv(e, start, r) && Priced(c) && r.pending == Hold
    ensures var x := Protect(e, r, c); x.Ok? && Inv(e, start, x.value) && x.value.pending == Hold
  {
    ZeroIsAligned(e.filters);
    if r.portfolio.side == Long && r.stop.Some? {
      var o := r.openTrade.value;
      StopStrictlyBelow(o.entryPrice, e.costs);
      if c.low <= r.stop.value {
        ExitKeepsBooks(e, start, r, c.openTime, Min(r.stop.value, c.open), StopLoss);
      } else if e.fixedRiskReward && r.target.Some? && c.high >= r.target.value {
        TargetIsPositive(e, start, r);
        ExitKeepsBooks(e, start, r, c.openTime, r.target.value, TakeProfit);
      }
    }
  }

  lemma TargetIsPositive(e: Env, start: real, r: Run)
    requires e.fixedRiskReward && BooksKept(e, start, BooksOf(r)) && r.openTrade.Some?
    ensures r.target.Some? && r.target.value > 0.0
  {
  }

  lemma StepKeepsInv(e: Env, start: real, r: Run, history: seq<Candle>)
    requires ValidEnv(e) && Inv(e, start, r) && |history| > 0 && Priced(Last(history))
    ensures var x := Step(e, r, history);
            && (x.Ok? ==> Inv(e, start, x.value))
            && (e.fixedRiskReward ==> x.Ok?)
  {
    var c := Last(history);
    var b := BeginCandle(r, c);
    assert BooksOf(b) == BooksOf(r);
    ResolveKeepsInv(e, start, b, c);
    var filled := Resolve(e, b, c);
    if filled.Ok? {
      ProtectKeepsInv(e, start, filled.value, c);
      var guarded := Protect(e, filled.value, c).value;
      assert BooksOf(CloseCandle(e, guarded, history)) == BooksOf(guarded);
    }
  }

  lemma {:induction false} RunKeepsInv(e: Env, start: real, minRequired: nat, candles: seq<Candle>)
    requires ValidEnv(e) && start > 0.0 && minRequired > 0 && AllPriced(candles)
    ensures var x := RunSegment(e, start, minRequired, candles);
            && (x.Ok? ==> Inv(e, start, x.value))
            && (e.fixedRiskReward ==> x.Ok?)
  {
    ZeroIsAligned(e.filters);
    if |candles| >= minRequired {
      RunKeepsInv(e, start, minRequired, DropLast(candles));
      var r := RunSegment(e, start, minRequired, DropLast(candles));
      if r.Ok? { StepKeepsInv(e, start, r.value, candles); }
    }
  }
}
