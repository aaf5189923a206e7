// What the report of a run shows: the equity curve, and where its profit comes from.

module BacktestReport {
  import opened Common
  import opened ExchangeFilters
  import opened Portfolio
  import opened RiskReward
  import opened Sizing
  import opened Backtest
  import opened BacktestInvariant
  import opened BacktestTheorems
  import opened BacktestFigures
  import opened BacktestEntries
  import opened BacktestExits

  // ----- The equity curve ------------------------------------------------------------------------------------

  lemma ResolveKeepsCurve(e: Env, r: Run, c: Candle)
    requires ValidCosts(e.costs) && ValidFilters(e.filters)
    ensures var x := Resolve(e, r, c); x.Ok? ==> x.value.equity == r.equity
  {
    hide PlanEntry, RiskBasedBuyQuantity, EvaluateRisk, ValidateOrder, BuildRealizedPlan, ApplyBuy, ApplySell,
        SellQuantity;
  }

  lemma StepMarksAccount(e: Env, r: Run, history: seq<Candle>)
    requires ValidCosts(e.costs) && ValidFilters(e.filters) && history != []
    ensures var x, c := Step(e, r, history), Last(history);
            x.Ok? ==>
              var p := x.value.portfolio;
              x.value.equity == r.equity + [EquityPoint(c.closeTime, Equity(p, c.close), p.side == Long)]
  {
    hide Resolve, Protect;
    var c := Last(history);
    ResolveKeepsCurve(e, BeginCandle(r, c), c);
    var filled := Resolve(e, BeginCandle(r, c), c);
    if filled.Ok? { ProtectKeepsCurve(e, filled.value, c); }
  }

  lemma ProtectKeepsCurve(e: Env, r: Run, c: Candle)
    ensures var x := Protect(e, r, c); x.Ok? ==> x.value.equity == r.equity
  {
  }

  /** The point of candle `j`: the account of the run so far, marked at its close. */
  ghost predicate MarksClose(e: Env, start: real, minRequired: nat, candles: seq<Candle>, j: nat, point: EquityPoint)
    requires ValidCosts(e.costs) && ValidFilters(e.filters) && minRequired > 0 && j < |candles|
  {
    var x := RunSegment(e, start, minRequired, candles[..j + 1]);
    && x.Ok? && point.time == candles[j].closeTime
    && point.equity == Equity(x.value.portfolio, candles[j].close)
    && point.inPosition == (x.value.portfolio.side == Long)
  }

  /** One point for every simulated candle, in order: the account at its close, and whether a position was held. */
  lemma {:induction false} EquityCurveMarksEveryClose(e: Env, start: real, minRequired: nat, candles: seq<Candle>)
    requires ValidCosts(e.costs) && ValidFilters(e.filters) && minRequired > 0
    ensures var x := RunSegment(e, start, minRequired, candles);
            x.Ok? ==>
              && |x.value.equity| == (if |candles| < minRequired then 0 else |candles| - minRequired + 1)
              && forall i | 0 <= i < |x.value.equity| ::
                   MarksClose(e, start, minRequired, candles, minRequired - 1 + i, x.value.equity[i])
  {
    hide Step;
    if |candles| >= minRequired {
      var before, n := DropLast(candles), |candles| - 1;
      EquityCurveMarksEveryClose(e, start, minRequired, before);
      var r, x := RunSegment(e, start, minRequired, before), RunSegment(e, start, minRequired, candles);
      if x.Ok? {
        StepMarksAccount(e, r.value, candles);
        forall i | 0 <= i < |x.value.equity|
          ensures MarksClose(e, start, minRequired, candles, minRequired - 1 + i, x.value.equity[i])
        {
          var j := minRequired - 1 + i;
          if j < n {
            assert before[..j + 1] == candles[..j + 1];
            assert MarksClose(e, start, minRequired, before, j, r.value.equity[i]);
          } else {
            assert candles[..j + 1] == candles;
          }
        }
      }
    }
  }

  // ----- Where the position was opened ----------------------------------------------------------------------

  /** Bought at the candle's open, slippage added. */
  predicate OpenedOn(e: Env, o: OpenTrade, c: Candle) {
    o.entryTime == c.openTime && o.entryReference == c.open && o.entryPrice == c.open * (1.0 + e.costs.slippage)
  }

  predicate OpenedWithin(e: Env, r: Run, candles: seq<Candle>) {
    r.openTrade.Some? ==> exists c :: c in candles && OpenedOn(e, r.openTrade.value, c)
  }

  lemma ResolveOpens(e: Env, r: Run, c: Candle)
    requires ValidCosts(e.costs) && ValidFilters(e.filters)
    ensures var x := Resolve(e, r, c);
            x.Ok? && x.value.openTrade.Some? ==>
              x.value.openTrade == r.openTrade || OpenedOn(e, x.value.openTrade.value, c)
  {
    hide SizeBuy, RiskGate, ValidationGate, EntryPlan, SellQuantity, ValidateOrder, ApplyBuy, ApplySell, Equity;
  }

  lemma StepOpens(e: Env, r: Run, history: seq<Candle>)
    requires ValidCosts(e.costs) && ValidFilters(e.filters) && history != []
    ensures var x := Step(e, r, history);
            x.Ok? && x.value.openTrade.Some? ==>
              x.value.openTrade == r.openTrade || OpenedOn(e, x.value.openTrade.value, Last(history))
  {
    hide Resolve, ApplySell, Equity;
    ResolveOpens(e, BeginCandle(r, Last(history)), Last(history));
  }

  lemma {:induction false} PositionWasOpenedWithin(e: Env, start: real, minRequired: nat, candles: seq<Candle>)
    requires ValidEnv(e) && start > 0.0 && minRequired > 0
    ensures var x := RunSegment(e, start, minRequired, candles); x.Ok? ==> OpenedWithin(e, x.value, candles)
    decreases |candles|
  {
    hide OpenedOn, Step;
    if |candles| >= minRequired {
      var before := RunSegment(e, start, minRequired, DropLast(candles));
      PositionWasOpenedWithin(e, start, minRequired, DropLast(candles));
      if before.Ok? { StepOpens(e, before.value, candles); }
    }
  }

  // ----- Where the profit comes from ----------------------------------------------------------------------------

  /** The trade's own books: its profit is the move between its fills less both fees, and slippage only ever cost. */
  predicate CostsBooked(t: Trade) {
    && t.pnl == Amount(t.quantity, t.exitPrice - t.entryPrice) - t.entryFee - t.exitFee
    && t.entryPrice >= t.entryReference && t.exitPrice <= t.exitReference
  }

  predicate AllCostsBooked(r: Run) {
    && (forall t | t in r.trades :: CostsBooked(t))
    && (r.openTrade.Some? ==> r.openTrade.value.entryPrice >= r.openTrade.value.entryReference)
  }

  lemma SaleBooksCosts(e: Env, before: Run, after: Run, time: int, reason: ExitReason, reference: real)
    requires ValidCosts(e.costs) && AllCostsBooked(before) && reference > 0.0
    requires SoldAt(e, before, after, time, reason, reference)
    ensures AllCostsBooked(after)
  {
    var t, left := Last(after.trades), 1.0 - e.costs.slippage;
    Scale(left, 1.0, reference);
    assert t.exitPrice == reference * left;
    assert reference * left <= reference;
    assert CostsBooked(t);
    hide SoldAt, CostsBooked;
  }

  lemma StepBooksCosts(e: Env, start: real, r: Run, history: seq<Candle>)
    requires ValidEnv(e) && Inv(e, start, r) && history != [] && Priced(Last(history)) && AllCostsBooked(r)
    ensures var x := Step(e, r, history); x.Ok? ==> AllCostsBooked(x.value)
  {
    hide Inv, Resolve, SoldAt, ProtectedOn, CostsBooked;
    var c, b := Last(history), BeginCandle(r, Last(history));
    BeginKeepsInv(e, start, r, c);
    ResolveBooksCosts(e, start, b, c);
    ResolveKeepsInv(e, start, b, c);
    StepProtects(e, start, r, history);
    var filled, x := Resolve(e, b, c), Step(e, r, history);
    if x.Ok? {
      assert filled.Ok?;
      ProtectionBooksCosts(e, start, filled.value, x.value, c);
    }
  }

  lemma ProtectionBooksCosts(e: Env, start: real, filled: Run, after: Run, c: Candle)
    requires ValidEnv(e) && Inv(e, start, filled) && Priced(c) && AllCostsBooked(filled)
    requires ProtectedOn(e, filled, after, c)
    ensures AllCostsBooked(after)
  {
    if filled.openTrade.Some? {
      LevelsOf(e, start, filled);
      var stop, target := StopOf(e, filled.openTrade.value), TargetOf(e, filled.openTrade.value);
      hide Inv, SoldAt, CostsBooked, StopOf, TargetOf;
      if c.low <= stop {
        SaleBooksCosts(e, filled, after, c.openTime, StopLoss, if c.open < stop then c.open else stop);
      } else if target.Some? && target.value <= c.high {
        SaleBooksCosts(e, filled, after, c.openTime, TakeProfit, target.value);
      }
    }
  }

  lemma ResolveBooksCosts(e: Env, start: real, r: Run, c: Candle)
    requires ValidEnv(e) && Inv(e, start, r) && Priced(c) && AllCostsBooked(r)
    ensures var x := Resolve(e, r, c); x.Ok? ==> AllCostsBooked(x.value)
  {
    hide Inv, Resolve, SoldAt, CostsBooked, Sellable;
    ResolveFills(e, start, r, c);
    if r.pending == Exit {
      SignalSells(e, start, r, c);
      var x := Resolve(e, r, c).value;
      if Sellable(e, r.portfolio.base, c) { SaleBooksCosts(e, r, x, c.openTime, StrategyExit, c.open); }
    } else if r.pending == Buy {
      FillCostsSlippage(e, start, r, c);
    }
  }

  lemma FillCostsSlippage(e: Env, start: real, r: Run, c: Candle)
    requires ValidEnv(e) && Inv(e, start, r) && Priced(c) && r.pending == Buy
    ensures var x := Resolve(e, r, c);
            x.Ok? && x.value.openTrade.Some? ==>
              x.value.openTrade.value.entryPrice >= x.value.openTrade.value.entryReference
  {
    hide Resolve;
    FlatWhenBuying(e, start, r);
    ResolveOpens(e, r, c);
    FillAtOrAboveReference(c.open, e.costs);
  }

  lemma {:induction false} RunBooksCosts(e: Env, start: real, minRequired: nat, candles: seq<Candle>)
    requires ValidEnv(e) && start > 0.0 && minRequired > 0 && AllPriced(candles)
    ensures var x := RunSegment(e, start, minRequired, candles); x.Ok? ==> AllCostsBooked(x.value)
  {
    hide Inv, Step;
    if |candles| >= minRequired {
      RunBooksCosts(e, start, minRequired, DropLast(candles));
      RunKeepsInv(e, start, minRequired, DropLast(candles));
      var r := RunSegment(e, start, minRequired, DropLast(candles));
      if r.Ok? { StepBooksCosts(e, start, r.value, candles); }
    }
  }

  /** What a trade would have made at the prices it was decided on, free of costs. */
  function AtReference(t: Trade): real {
    Amount(t.quantity, t.exitReference - t.entryReference)
  }

  lemma TradeSplits(t: Trade)
    requires CostsBooked(t)
    ensures t.pnl == AtReference(t) - t.entryFee - t.exitFee - TradeSlippage(t)
  {
  }

  lemma {:induction false} TradesSplit(trades: seq<Trade>)
    requires forall i | 0 <= i < |trades| :: CostsBooked(trades[i])
    ensures SumOf(trades, (t: Trade) => t.pnl)
         == SumOf(trades, AtReference) - SumOf(trades, (t: Trade) => t.entryFee)
            - SumOf(trades, (t: Trade) => t.exitFee) - SumOf(trades, TradeSlippage)
  {
    hide CostsBooked, AtReference, TradeSlippage;
    if trades != [] {
      TradesSplit(DropLast(trades));
      TradeSplits(Last(trades));
    }
  }

  /**
   * The report's columns explain its total: the marked profit of every run is what its decisions would have made at the
   * prices they were made on, less the fees and the slippage the report shows.
   */
  lemma CostsExplainProfit(e: Env, start: real, minRequired: nat, candles: seq<Candle>, mark: real, r: Run)
    requires ValidEnv(e) && start > 0.0 && minRequired > 0 && AllPriced(candles)
    requires RunSegment(e, start, minRequired, candles) == Ok(r)
    ensures var report := BreakDownPnl(r.trades, r.openTrade, mark);
            var open := if r.openTrade.None? then 0.0
                        else Amount(r.openTrade.value.quantity, mark - r.openTrade.value.entryReference);
            report.marked == SumOf(r.trades, AtReference) + open
                             - report.entryFees - report.exitFees - report.slippage
  {
    hide SumOf, AtReference, BreakDownPnl, AllCostsBooked, Amount;
    RunBooksCosts(e, start, minRequired, candles);
    CostsExplain(r, mark);
  }

  lemma CostsExplain(r: Run, mark: real)
    requires AllCostsBooked(r)
    ensures var report := BreakDownPnl(r.trades, r.openTrade, mark);
            var open := if r.openTrade.None? then 0.0
                        else Amount(r.openTrade.value.quantity, mark - r.openTrade.value.entryReference);
            report.marked == SumOf(r.trades, AtReference) + open
                             - report.entryFees - report.exitFees - report.slippage
  {
    hide CostsBooked, AtReference, TradeSlippage, Amount, SumOf;
    assert forall i | 0 <= i < |r.trades| :: r.trades[i] in r.trades;
    TradesSplit(r.trades);
    if r.openTrade.Some? {
      var o := r.openTrade.value;
      AmountsSplit(o.quantity, mark - o.entryPrice, o.entryPrice - o.entryReference);
    }
  }

  lemma AmountsSplit(q: real, a: real, b: real)
    ensures Amount(q, a + b) == Amount(q, a) + Amount(q, b)
  {
  }
}
