// The simulation as the source runs it: one object whose fields the candle loop updates in place.
// Every method is tied to the pure step it performs, so the theorems about runs hold of it.

module BacktestEngine {
  import opened Common
  import opened ExchangeFilters
  import opened Portfolio
  import opened RiskReward
  import opened Sizing
  import opened Backtest

  /** The mutable diagnostics accumulator of one run. */
  class DiagBuilder {
    var buySignals: nat
    var exitSignals: nat
    var executedEntries: nat
    var rejected: map<string, nat>
    var firstActivation: map<RiskCode, Activation>
    var lastActive: map<RiskCode, int>
    var lastApprovedBuy: Option<int>
    var plannedRisks: seq<real>
    var plannedRewards: seq<real>
    var rejectedNetRatio: nat
    var rejectedFilter: nat
    var rejectedPostFill: nat
    var gapLosses: nat

    function Value(): Diagnostics
      reads this
    {
      Diagnostics(buySignals, exitSignals, executedEntries, rejected, firstActivation, lastActive, lastApprovedBuy,
                  plannedRisks, plannedRewards, rejectedNetRatio, rejectedFilter, rejectedPostFill, gapLosses)
    }

    constructor ()
      ensures Value() == NO_DIAGNOSTICS
    {
      buySignals, exitSignals, executedEntries := 0, 0, 0;
      rejected, firstActivation, lastActive, lastApprovedBuy := map[], map[], map[], None;
      plannedRisks, plannedRewards := [], [];
      rejectedNetRatio, rejectedFilter, rejectedPostFill, gapLosses := 0, 0, 0, 0;
    }

    method CountSignal(signal: SignalType)
      modifies `buySignals, `exitSignals
      ensures Value() == SignalCounted(old(Value()), signal)
    {
      match signal
      case Buy => buySignals := buySignals + 1;
      case Exit => exitSignals := exitSignals + 1;
      case Hold =>
    }

    method RecordRejectedEntry(reason: Reason)
      modifies this
      ensures Value() == old(Value()).(rejected := Increment(old(Value()).rejected, CodeOf(reason)))
    {
      var code := CodeOf(reason);
      var count := if code in rejected then rejected[code] else 0;
      rejected := rejected[code := 1 + count];
    }

    method RecordRiskGateRejection(code: RiskCode, time: int, equity: real, drawdown: real)
      modifies this
      ensures var d := old(Value());
              Value() == d.(
                rejected := Increment(d.rejected, RiskCodeName(code)),
                firstActivation := if code in d.firstActivation then d.firstActivation
                                   else d.firstActivation[code := Activation(time, equity, drawdown)],
                lastActive := d.lastActive[code := time])
    {
      RecordRejectedEntry(ByRisk(code));
      if code !in firstActivation {
        firstActivation := firstActivation[code := Activation(time, equity, drawdown)];
      }
      lastActive := lastActive[code := time];
    }

    method RecordEntry(plan: Option<RiskRewardPlan>, time: int)
      modifies this
      ensures Value() == EntryRecorded(old(Value()), plan, time)
    {
      if plan.Some? && plan.value.risk.Some? && plan.value.reward.Some? {
        plannedRisks := plannedRisks + [plan.value.risk.value];
        plannedRewards := plannedRewards + [plan.value.reward.value];
      }
      executedEntries := executedEntries + 1;
      lastApprovedBuy := Some(time);
    }

    method RecordGapLoss()
      modifies this
      ensures Value() == old(Value()).(gapLosses := old(Value()).gapLosses + 1)
    {
      gapLosses := gapLosses + 1;
    }
  }

  /** None when the call returned, the error when the source would have raised. */
  type Raised = Option<TransitionError>

  predicate Agrees(raised: Raised, expected: RunResult) {
    raised == match expected case Ok(_) => None case Err(error) => Some(error)
  }

  class Simulation {
    const env: Env
    const diag: DiagBuilder
    var portfolio: PortfolioState
    var openTrade: Option<OpenTrade>
    var stopPrice: Option<real>
    var targetPrice: Option<real>
    var tradesToday: int
    var dailyRealizedPnl: real
    var dailyStartEquity: real
    var cooldownBars: int
    var peakEquity: real
    var pendingSignal: SignalType
    var currentDay: Option<int>
    var trades: seq<Trade>
    var equityCurve: seq<EquityPoint>
    var journal: seq<JournalEntry>

    function Value(): Run
      reads this, diag
    {
      Run(portfolio, openTrade, stopPrice, targetPrice, tradesToday, dailyRealizedPnl, dailyStartEquity, cooldownBars,
          peakEquity, pendingSignal, currentDay, trades, equityCurve, journal, diag.Value())
    }

    constructor (env: Env, startingEquity: real)
      ensures Value() == InitialRun(startingEquity) && this.env == env && fresh(diag)
    {
      this.env := env;
      diag := new DiagBuilder();
      portfolio := Initial(startingEquity);
      openTrade, stopPrice, targetPrice := None, None, None;
      tradesToday, dailyRealizedPnl, dailyStartEquity, cooldownBars := 0, 0.0, startingEquity, 0;
      peakEquity, pendingSignal, currentDay := startingEquity, Hold, None;
      trades, equityCurve, journal := [], [], [];
    }

    method Log(kind: JournalKind, time: int, payload: Payload)
      modifies this`journal
      ensures Value() == Record(old(Value()), kind, time, payload)
    {
      journal := journal + [JournalEntry(kind, time, payload)];
    }

    method StartOfCandle(c: Candle)
      modifies this
      ensures Value() == BeginCandle(old(Value()), c)
    {
      hide DiagBuilder.Value;
      var day := c.openTime / MS_PER_DAY;
      if currentDay.None? || currentDay.value != day { StartOfDay(day, Equity(portfolio, c.open)); }
      cooldownBars := cooldownBars - 1;
      if cooldownBars < 0 { cooldownBars := 0; }
    }

    method StartOfDay(day: int, equity: real)
      modifies `currentDay, `dailyStartEquity, `dailyRealizedPnl, `tradesToday
      ensures Value()
           == old(Value()).(currentDay := Some(day), dailyStart := equity, dailyPnl := 0.0, tradesToday := 0)
    {
      hide DiagBuilder.Value;
      currentDay, dailyStartEquity := Some(day), equity;
      dailyRealizedPnl, tradesToday := 0.0, 0;
    }

    method Settle(p: PortfolioState, time: int, fill: SimulatedFill, quantity: real, reason: ExitReason,
                  reference: real)
      modifies this, diag
      ensures Value() == Settled(env, old(Value()), p, time, fill, quantity, reason, reference)
    {
      var realized := p.realizedPnl - portfolio.realizedPnl;
      if openTrade.Some? {
        trades := trades + [ClosedTrade(openTrade.value, time, fill, quantity, realized, reason, reference)];
        if ExceedsPlannedRisk(openTrade.value, reason, realized) { diag.RecordGapLoss(); }
      }
      CloseBooks(p, realized);
    }

    method CloseBooks(p: PortfolioState, realized: real)
      modifies this
      ensures Value() == BooksClosed(env, old(Value()), p, realized)
    {
      hide DiagBuilder.Value;
      portfolio := p;
      dailyRealizedPnl := dailyRealizedPnl + DailyShare(realized, dailyStartEquity);
      if realized < 0.0 { cooldownBars := env.risk.cooldownBars; }
      tradesToday := tradesToday + 1;
      ClearPosition();
    }

    method ClearPosition()
      modifies `stopPrice, `targetPrice, `openTrade
      ensures Value() == old(Value()).(stop := None, target := None, openTrade := None)
    {
      hide DiagBuilder.Value;
      stopPrice, targetPrice, openTrade := None, None, None;
    }

    method ApplyExitFill(time: int, quantity: real, reason: ExitReason, reference: real) returns (raised: Raised)
      modifies this, diag
      ensures var x := ApplyExit(env, old(Value()), time, quantity, reference, reason);
              Agrees(raised, x) && (x.Ok? ==> Value() == x.value)
    {
      var fill := SimulateSell(quantity, reference, env.costs);
      var sold := ApplySell(portfolio, quantity, fill.price, fill.fee, false);
      if sold.Err? { return Some(sold.error); }
      Settle(sold.value, time, fill, quantity, reason, reference);
      return None;
    }

    method ExecuteStopExit(c: Candle) returns (raised: Raised)
      requires stopPrice.Some?
      modifies this, diag
      ensures var r := old(Value()); var reference := Min(r.stop.value, c.open);
              var x := ApplyExit(env, r, c.openTime, r.portfolio.base, reference, StopLoss);
              && Agrees(raised, x)
              && (x.Ok? ==> Value() == Record(x.value, StopEntry, c.openTime, FillPayload(reference, r.portfolio.base)))
    {
      var reference := Min(stopPrice.value, c.open);
      var quantity := portfolio.base;
      raised := ApplyExitFill(c.openTime, quantity, StopLoss, reference);
      if raised.None? { Log(StopEntry, c.openTime, FillPayload(reference, quantity)); }
    }

    method ExecuteTakeProfitExit(c: Candle) returns (raised: Raised)
      requires targetPrice.Some?
      modifies this, diag
      ensures var r := old(Value());
              var x := ApplyExit(env, r, c.openTime, r.portfolio.base, r.target.value, TakeProfit);
              && Agrees(raised, x)
              && (x.Ok? ==> Value() == Record(x.value, TakeProfitEntry, c.openTime,
                                              FillPayload(r.target.value, r.portfolio.base)))
    {
      var reference, quantity := targetPrice.value, portfolio.base;
      raised := ApplyExitFill(c.openTime, quantity, TakeProfit, reference);
      if raised.None? { Log(TakeProfitEntry, c.openTime, FillPayload(reference, quantity)); }
    }

    method Position(p: PortfolioState, c: Candle, fill: SimulatedFill, quantity: real, stop: real,
                    plan: Option<RiskRewardPlan>)
      modifies this, diag
      ensures Value() == Positioned(old(Value()), p, c, fill, quantity, stop, plan)
    {
      hide DiagBuilder.Value;
      portfolio, stopPrice := p, Some(stop);
      if plan.Some? { targetPrice := plan.value.target; }
      HoldTrade(OpenTrade(c.openTime, fill.price, quantity, fill.fee, c.open, plan));
      diag.RecordEntry(plan, c.openTime);
    }

    method HoldTrade(trade: OpenTrade)
      modifies `openTrade, `tradesToday
      ensures Value() == old(Value()).(openTrade := Some(trade), tradesToday := old(tradesToday) + 1)
    {
      hide DiagBuilder.Value;
      openTrade := Some(trade);
      tradesToday := tradesToday + 1;
    }

    method OpenPosition(c: Candle, quantity: real, stop: real, plan: Option<RiskRewardPlan>) returns (raised: Raised)
      modifies this, diag
      ensures var x := PlacePosition(env, old(Value()), c, quantity, stop, plan);
              Agrees(raised, x) && (x.Ok? ==> Value() == x.value)
    {
      var fill := SimulateBuy(quantity, c.open, env.costs);
      var bought := ApplyBuy(portfolio, quantity, fill.price, fill.fee, false);
      if bought.Err? { return Some(bought.error); }
      Position(bought.value, c, fill, quantity, stop, plan);
      return None;
    }

    method ExecuteBuy(c: Candle, quantity: real) returns (raised: Raised)
      requires ValidCosts(env.costs) && ValidFilters(env.filters)
      requires env.fixedRiskReward ==> EntryPlan(env, Value(), c).approved
      modifies this, diag
      ensures var x := FillBuy(env, old(Value()), c, quantity);
              Agrees(raised, x) && (x.Ok? ==> Value() == x.value)
    {
      var price := SimulateBuy(quantity, c.open, env.costs).price;
      if !env.fixedRiskReward {
        raised := OpenPosition(c, quantity, StopBelow(price, env.costs), None);
        return;
      }
      var equity := Equity(portfolio, c.open);
      RealizedPlanAlwaysApproved(equity, portfolio.quote, c.open, env.costs, env.filters);
      var plan := PlanEntry(equity, portfolio.quote, c.open, env.costs, env.filters);
      var realized := BuildRealizedPlan(plan.(quantity := Some(quantity)), price, env.costs, equity, env.filters);
      if !realized.approved || realized.stop.None? {
        diag.RecordRejectedEntry(ByPlan(realized.code));
        diag.rejectedPostFill := diag.rejectedPostFill + 1;
        return None;
      }
      raised := OpenPosition(c, quantity, realized.stop.value, Some(realized));
    }

    method RejectSizedEntry(reason: Reason)
      modifies this, diag
      ensures Value() == RejectSizing(old(Value()), reason)
    {
      diag.RecordRejectedEntry(reason);
      if reason.ByPlan? {
        if ExchangeFilterReason(reason.plan) {
          diag.rejectedFilter := diag.rejectedFilter + 1;
        } else if reason.plan == NetRewardToRiskBelowMinimum {
          diag.rejectedNetRatio := diag.rejectedNetRatio + 1;
        }
      }
    }

    method DecideRisk(c: Candle, signal: SignalType, quantity: real) returns (risk: Option<RiskCode>)
      modifies `journal
      ensures risk == RiskGate(env, old(Value()), c, signal, quantity)
      ensures Value() == RecordDecision(old(Value()), RiskEntry, c.openTime, signal,
                                        if risk.None? then None else Some(ByRisk(risk.value)))
    {
      hide DiagBuilder.Value, EvaluateRisk;
      var equity := Equity(portfolio, c.open);
      var context := RiskContext(equity, portfolio.quote, tradesToday, cooldownBars, dailyRealizedPnl,
                                 Drawdown(peakEquity, equity), 0.0, 0, false, false, false);
      risk := EvaluateRisk(signal, quantity, c.open, context, env.risk);
      Log(RiskEntry, c.openTime, DecisionPayload(signal, if risk.None? then None else Some(ByRisk(risk.value))));
    }

    method ValidateIntent(c: Candle, signal: SignalType, quantity: real) returns (valid: Result<real, ValidationCode>)
      modifies `journal
      ensures valid == ValidationGate(env, c, quantity)
      ensures Value() == RecordDecision(old(Value()), ValidationEntry, c.openTime, signal, RefusalOf(valid))
    {
      hide DiagBuilder.Value;
      valid := ValidateOrder(c.symbol, quantity, c.open, env.filters);
      Log(ValidationEntry, c.openTime, DecisionPayload(signal, RefusalOf(valid)));
    }

    method ResolvePendingSignal(c: Candle) returns (raised: Raised)
      requires ValidCosts(env.costs) && ValidFilters(env.filters) && pendingSignal != Hold
      modifies this, diag
      ensures var x := Resolve(env, old(Value()), c);
              Agrees(raised, x) && (x.Ok? ==> Value() == x.value)
    {
      hide DiagBuilder.Value, RiskGate, ValidationGate, RefusalOf, Drawdown;
      var signal := pendingSignal;
      pendingSignal := Hold;
      var equity := Equity(portfolio, c.open);
      peakEquity := Max(peakEquity, equity);
      var sized := SizeSignal(c, signal);
      Log(SizingEntry, c.openTime, DecisionPayload(signal, if sized.Ok? then None else Some(sized.error)));
      if sized.Err? {
        if signal == Buy { RejectSizedEntry(sized.error); }
        return None;
      }
      var risk := DecideRisk(c, signal, sized.value);
      if risk.Some? {
        if signal == Buy {
          diag.RecordRiskGateRejection(risk.value, c.openTime, equity, Drawdown(peakEquity, equity));
        }
        return None;
      }
      var valid := ValidateIntent(c, signal, sized.value);
      if valid.Err? {
        if signal == Buy { diag.RecordRejectedEntry(ByValidator(valid.error)); }
        return None;
      }
      if signal == Buy {
        raised := ExecuteBuy(c, valid.value);
      } else {
        raised := ApplyExitFill(c.openTime, valid.value, StrategyExit, c.open);
      }
    }

    function SizeSignal(c: Candle, signal: SignalType): Result<real, Reason>
      requires ValidCosts(env.costs) && ValidFilters(env.filters)
      reads this, diag
    {
      if signal == Buy then SizeBuy(env, Value(), c)
      else match SellQuantity(portfolio.base, c.open, env.filters)
           case Ok(q) => Ok(q)
           case Err(code) => Err(BySizer(code))
    }

    method ProtectPosition(c: Candle) returns (raised: Raised)
      modifies this, diag
      ensures var x := Protect(env, old(Value()), c);
              Agrees(raised, x) && (x.Ok? ==> Value() == x.value)
    {
      raised := None;
      if portfolio.side == Long && stopPrice.Some? {
        if c.low <= stopPrice.value {
          raised := ExecuteStopExit(c);
        } else if env.fixedRiskReward && targetPrice.Some? && c.high >= targetPrice.value {
          raised := ExecuteTakeProfitExit(c);
        }
      }
    }

    method EndOfCandle(history: seq<Candle>)
      requires |history| > 0
      modifies this, diag
      ensures Value() == CloseCandle(env, old(Value()), history)
    {
      hide DiagBuilder.Value;
      var c := Last(history);
      var equityNow := Equity(portfolio, c.close);
      peakEquity := Max(peakEquity, equityNow);
      var signal := env.strategy(history, portfolio.side);
      Log(SignalEntry, c.closeTime, SignalPayload(signal));
      diag.CountSignal(signal);
      if signal != Hold { pendingSignal := signal; }
      equityCurve := equityCurve + [EquityPoint(c.closeTime, equityNow, portfolio.side == Long)];
    }

    method ProcessCandle(history: seq<Candle>) returns (raised: Raised)
      requires ValidCosts(env.costs) && ValidFilters(env.filters) && |history| > 0
      modifies this, diag
      ensures var x := Step(env, old(Value()), history);
              Agrees(raised, x) && (x.Ok? ==> Value() == x.value)
    {
      var c := Last(history);
      StartOfCandle(c);
      if pendingSignal != Hold {
        raised := ResolvePendingSignal(c);
        if raised.Some? { return; }
      }
      raised := ProtectPosition(c);
      if raised.Some? { return; }
      EndOfCandle(history);
    }

    /** The candle loop. */
    method ProcessCandles(candles: seq<Candle>, minRequired: nat, ghost start: real) returns (raised: Raised)
      requires ValidCosts(env.costs) && ValidFilters(env.filters) && 0 < minRequired <= |candles|
      requires Value() == InitialRun(start)
      modifies this, diag
      ensures var x := RunSegment(env, start, minRequired, candles);
              Agrees(raised, x) && (x.Ok? ==> Value() == x.value)
    {
      hide Step, RunSegment;
      RunStarts(env, start, minRequired, candles[..minRequired - 1]);
      raised := None;
      ghost var r := InitialRun(start);
      var i := minRequired - 1;
      while i < |candles| && raised.None?
        invariant minRequired - 1 <= i <= |candles|
        invariant RunSegment(env, start, minRequired, candles[..i]) == if raised.None? then Ok(r) else Err(raised.value)
        invariant raised.None? ==> Value() == r
      {
        RunExtends(env, start, minRequired, candles, i, r);
        raised := ProcessCandle(candles[..i + 1]);
        r := Value();
        i := i + 1;
      }
      LongerRunsRaiseToo(env, start, minRequired, candles, i);
    }
  }

  /** The whole segment, from a fresh account. What it leaves behind is the fold over all candles. */
  method SimulateSegment(env: Env, candles: seq<Candle>, minRequired: nat, startingEquity: real)
    returns (simulation: Simulation, raised: Raised)
    requires ValidCosts(env.costs) && ValidFilters(env.filters) && 0 < minRequired <= |candles|
    ensures var x := RunSegment(env, startingEquity, minRequired, candles);
            Agrees(raised, x) && (x.Ok? ==> simulation.Value() == x.value)
    ensures fresh(simulation) && fresh(simulation.diag)
  {
    simulation := new Simulation(env, startingEquity);
    raised := simulation.ProcessCandles(candles, minRequired, startingEquity);
  }

  lemma RunStarts(env: Env, start: real, minRequired: nat, candles: seq<Candle>)
    requires ValidCosts(env.costs) && ValidFilters(env.filters) && |candles| < minRequired
    ensures RunSegment(env, start, minRequired, candles) == Ok(InitialRun(start))
  {
  }

  lemma RunExtends(env: Env, start: real, minRequired: nat, candles: seq<Candle>, i: nat, r: Run)
    requires ValidCosts(env.costs) && ValidFilters(env.filters) && 0 < minRequired <= i + 1 <= |candles|
    requires RunSegment(env, start, minRequired, candles[..i]) == Ok(r)
    ensures RunSegment(env, start, minRequired, candles[..i + 1]) == Step(env, r, candles[..i + 1])
  {
    assert DropLast(candles[..i + 1]) == candles[..i];
  }

  /** A run that raises on a prefix raises with the same error on the whole. */
  lemma {:induction false} LongerRunsRaiseToo(env: Env, start: real, minRequired: nat, candles: seq<Candle>, k: nat)
    requires ValidCosts(env.costs) && ValidFilters(env.filters) && minRequired > 0 && k <= |candles|
    ensures var x := RunSegment(env, start, minRequired, candles[..k]);
            x.Err? || k == |candles| ==> RunSegment(env, start, minRequired, candles) == x
    decreases |candles|
  {
    if k == |candles| {
      assert candles[..k] == candles;
    } else {
      var before := DropLast(candles);
      assert before[..k] == candles[..k];
      LongerRunsRaiseToo(env, start, minRequired, before, k);
      if |candles[..k]| >= minRequired { assert |candles| >= minRequired; }
    }
  }
}
