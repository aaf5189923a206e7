// When a position must be closed: every candle that touches a protective level closes it there, and no other does.

module BacktestExits {
  import opened Common
  import opened ExchangeFilters
  import opened Portfolio
  import opened RiskReward
  import opened Sizing
  import opened Backtest
  import opened BacktestInvariant
  import opened BacktestFigures
  import opened GapDetection

  /** The whole position sold at a reference price, costs deducted, and the trade closed. */
  predicate SoldAt(e: Env, before: Run, after: Run, time: int, reason: ExitReason, reference: real) {
    && before.openTrade.Some? && after.openTrade.None? && after.stop.None? && after.target.None?
    && after.portfolio.side == Flat && after.portfolio.base == 0.0
    && |after.trades| > 0 && after.trades == before.trades + [Last(after.trades)]
    && var t, o := Last(after.trades), before.openTrade.value;
       var worth := Amount(before.portfolio.base, reference * (1.0 - e.costs.slippage));
       && t.reason == reason && t.exitReference == reference && t.exitTime == time
       && t.exitPrice == reference * (1.0 - e.costs.slippage) && t.exitFee == worth * e.costs.fee
       && t.quantity == before.portfolio.base && t.entryTime == o.entryTime && t.entryPrice == o.entryPrice
       && t.entryReference == o.entryReference && t.entryFee == o.entryFee
       && t.pnl == Amount(t.quantity, t.exitPrice - t.entryPrice) - t.entryFee - t.exitFee
       && after.portfolio.quote == before.portfolio.quote + worth - worth * e.costs.fee
  }

  predicate Kept(before: Run, after: Run) {
    && after.portfolio == before.portfolio && after.trades == before.trades
    && after.openTrade == before.openTrade && after.stop == before.stop && after.target == before.target
  }

  /** The per-unit gain of the plan's formula, spread over the fills and the fees. */
  lemma GainSplits(q: real, entry: real, reference: real, c: Costs)
    ensures var price := reference * (1.0 - c.slippage);
            Amount(q, GainPerUnit(entry, reference, c))
            == Amount(q, price - entry) - Amount(q, entry) * c.fee - Amount(q, price) * c.fee
  {
  }

  lemma ExitSells(e: Env, start: real, r: Run, time: int, reference: real, reason: ExitReason)
    requires ValidCosts(e.costs) && Sound(e, start, BooksOf(r)) && r.openTrade.Some? && reference > 0.0
    ensures var x := ApplyExit(e, r, time, r.portfolio.base, reference, reason);
            x.Ok? && SoldAt(e, r, x.value, time, reason, reference)
  {
    hide ApplySell, GainPerUnit, Amount, Ledger;
    var o := r.openTrade.value;
    WholeSaleKeepsAccount(r.portfolio, o.entryPrice, reference, e.costs);
    WholeSalePnl(r.portfolio, o.entryPrice, reference, e.costs);
    GainSplits(r.portfolio.base, o.entryPrice, reference, e.costs);
  }

  /** The level that protects a position from losses. */
  function StopOf(e: Env, o: OpenTrade): real {
    o.entryPrice * (1.0 - e.costs.stopDistance)
  }

  /** The level at which the policy takes the profit. */
  function TargetOf(e: Env, o: OpenTrade): Option<real> {
    if e.fixedRiskReward && o.plan.Some? then o.plan.value.target else None
  }

  lemma LevelsOf(e: Env, start: real, r: Run)
    requires ValidCosts(e.costs) && BooksKept(e, start, BooksOf(r)) && r.openTrade.Some?
    ensures r.portfolio.side == Long && r.stop == Some(StopOf(e, r.openTrade.value)) && r.stop.value > 0.0
    ensures r.target == TargetOf(e, r.openTrade.value) && (r.target.Some? <==> e.fixedRiskReward)
    ensures r.target.Some? ==> r.target.value > r.openTrade.value.entryPrice > 0.0
  {
    StopStrictlyBelow(r.openTrade.value.entryPrice, e.costs);
    StopIsBelow(e, r.openTrade.value);
    hide StopOf, StopBelow;
  }

  lemma StopIsBelow(e: Env, o: OpenTrade)
    ensures StopOf(e, o) == StopBelow(o.entryPrice, e.costs)
  {
  }

  /** What the protective levels make of a position held after the fill: the stop first, then the target. */
  predicate ProtectedOn(e: Env, filled: Run, after: Run, c: Candle) {
    if filled.openTrade.None? then Kept(filled, after)
    else
      var stop, target := StopOf(e, filled.openTrade.value), TargetOf(e, filled.openTrade.value);
      if c.low <= stop then SoldAt(e, filled, after, c.openTime, StopLoss, if c.open < stop then c.open else stop)
      else if target.Some? && target.value <= c.high then
        SoldAt(e, filled, after, c.openTime, TakeProfit, target.value)
      else Kept(filled, after)
  }

  lemma ProtectActs(e: Env, start: real, r: Run, c: Candle)
    requires ValidEnv(e) && Inv(e, start, r) && Priced(c)
    ensures var x := Protect(e, r, c); x.Ok? && ProtectedOn(e, r, x.value, c)
  {
    hide ApplyExit, SoldAt, StopOf, TargetOf, PlansHonoured, Ledger;
    if r.openTrade.Some? {
      LevelsOf(e, start, r);
      ExitSells(e, start, r, c.openTime, Min(r.stop.value, c.open), StopLoss);
      if r.target.Some? { ExitSells(e, start, r, c.openTime, r.target.value, TakeProfit); }
    }
    SoldThenRecorded(e, r);
  }

  /** Writing the journal afterwards changes nothing of the sale. */
  lemma SoldThenRecorded(e: Env, r: Run)
    ensures forall x, kind, time, payload, reason, reference | SoldAt(e, r, x, time, reason, reference) ::
              SoldAt(e, r, Record(x, kind, time, payload), time, reason, reference)
  {
  }

  /**
   * One candle: whatever is held once the queued signal is filled is sold at the worse of stop and open if the candle
   * reaches down to the stop, else at the target if it reaches up to it, and otherwise kept with its levels.
   */
  lemma StepProtects(e: Env, start: real, r: Run, history: seq<Candle>)
    requires ValidEnv(e) && Inv(e, start, r) && history != [] && Priced(Last(history))
    ensures var c := Last(history); var filled := Resolve(e, BeginCandle(r, c), c);
            filled.Ok? ==> Step(e, r, history).Ok? && ProtectedOn(e, filled.value, Step(e, r, history).value, c)
  {
    var c := Last(history);
    var b := BeginCandle(r, c);
    assert BooksOf(b) == BooksOf(r);
    ResolveKeepsInv(e, start, b, c);
    var filled := Resolve(e, b, c);
    if filled.Ok? {
      ProtectActs(e, start, filled.value, c);
      CloseKeepsProtection(e, filled.value, Protect(e, filled.value, c).value, history);
    }
    hide Protect, Resolve, Inv, ProtectedOn;
  }

  lemma CloseKeepsProtection(e: Env, filled: Run, guarded: Run, history: seq<Candle>)
    requires history != [] && ProtectedOn(e, filled, guarded, Last(history))
    ensures ProtectedOn(e, filled, CloseCandle(e, guarded, history), Last(history))
  {
    hide StopOf, TargetOf;
  }

  // ----- Exit signals ---------------------------------------------------------------------------------------

  /** The exchange takes a sale of the whole holding at this price. */
  predicate Sellable(e: Env, held: real, c: Candle) {
    && held > 0.0 && c.symbol == e.filters.symbol
    && held >= e.filters.minQty && (e.filters.maxQty == 0.0 || held <= e.filters.maxQty)
    && (e.filters.applyMinNotionalToMarket ==> c.open * held >= e.filters.minNotional)
  }

  /** A queued exit sells the whole holding at the open exactly when the exchange takes it; no entry limit counts. */
  lemma SignalSells(e: Env, start: real, r: Run, c: Candle)
    requires ValidEnv(e) && Inv(e, start, r) && Priced(c) && r.pending == Exit
    ensures var x := Resolve(e, r, c);
            x.Ok? && if Sellable(e, r.portfolio.base, c) then SoldAt(e, r, x.value, c.openTime, StrategyExit, c.open)
                     else Kept(r, x.value)
  {
    hide Inv, ResolveExit, ApplyExit, Sellable, Sound, Resolve, Equity, StepAligned;
    var q := r.(peak := Max(r.peak, Equity(r.portfolio, c.open)), pending := Hold);
    var v := AfterGates(q, c, Exit);
    ExitIsResolved(e, r, c);
    HoldingIsSound(e, start, r, v);
    ExitAnswer(e, q, c);
    if Sellable(e, r.portfolio.base, c) {
      SellableIsHeld(e, r.portfolio.base, c);
      ExitSells(e, start, v, c.openTime, c.open, StrategyExit);
    }
  }

  lemma ExitIsResolved(e: Env, r: Run, c: Candle)
    requires ValidEnv(e) && r.pending == Exit
    ensures Resolve(e, r, c)
         == ResolveExit(e, r.(peak := Max(r.peak, Equity(r.portfolio, c.open)), pending := Hold), c)
  {
    hide ResolveExit, Equity;
  }

  lemma HoldingIsSound(e: Env, start: real, r: Run, v: Run)
    requires Inv(e, start, r) && BooksOf(v) == BooksOf(r)
    ensures Sound(e, start, BooksOf(v)) && StepAligned(r.portfolio.base, e.filters.stepSize)
    ensures r.portfolio.base > 0.0 ==> r.openTrade.Some?
  {
  }

  lemma SellableIsHeld(e: Env, held: real, c: Candle)
    requires Sellable(e, held, c)
    ensures held > 0.0
  {
  }

  lemma ExitAnswer(e: Env, r: Run, c: Candle)
    requires ValidEnv(e) && StepAligned(r.portfolio.base, e.filters.stepSize)
    ensures var x := ResolveExit(e, r, c);
            if Sellable(e, r.portfolio.base, c)
            then x == ApplyExit(e, AfterGates(r, c, Exit), c.openTime, r.portfolio.base, c.open, StrategyExit)
            else x.Ok? && x.value.(journal := r.journal) == r
  {
    FilterObstacles(c.symbol, r.portfolio.base, c.open, e.filters);
    hide ApplyExit, SellQuantity, ValidateOrder;
  }

  // ----- Over a whole run -----------------------------------------------------------------------------------

  /** No simulated candle opening in [from, until) reached the stop or the target. */
  ghost predicate Survived(candles: seq<Candle>, minRequired: nat, from: int, until: int, stop: real,
                           target: Option<real>) {
    forall j | 0 <= j < |candles| && minRequired <= j + 1 && from <= candles[j].openTime < until ::
      candles[j].low > stop && (target.Some? ==> candles[j].high < target.value)
  }

  ghost predicate OpenSurvived(e: Env, r: Run, candles: seq<Candle>, minRequired: nat, until: int) {
    r.openTrade.Some? ==>
      var o := r.openTrade.value;
      Survived(candles, minRequired, o.entryTime, until, StopOf(e, o), TargetOf(e, o))
  }

  ghost predicate TradeSurvived(e: Env, t: Trade, candles: seq<Candle>, minRequired: nat) {
    Survived(candles, minRequired, t.entryTime, t.exitTime, t.entryPrice * (1.0 - e.costs.stopDistance),
             if t.reason == TakeProfit then Some(t.exitReference) else None)
  }

  ghost predicate TradesSurvived(e: Env, r: Run, candles: seq<Candle>, minRequired: nat) {
    forall t | t in r.trades :: TradeSurvived(e, t, candles, minRequired)
  }

  lemma SaleKeepsSurvivors(e: Env, before: Run, after: Run, candles: seq<Candle>, minRequired: nat, reason: ExitReason,
                           reference: real, time: int)
    requires TradesSurvived(e, before, candles, minRequired) && OpenSurvived(e, before, candles, minRequired, time)
    requires SoldAt(e, before, after, time, reason, reference)
    requires reason == TakeProfit ==> TargetOf(e, before.openTrade.value) == Some(reference)
    ensures TradesSurvived(e, after, candles, minRequired)
    ensures forall until :: OpenSurvived(e, after, candles, minRequired, until)
  {
    var t := Last(after.trades);
    SameStop(e, before.openTrade.value, t);
    assert TradeSurvived(e, t, candles, minRequired);
  }

  lemma SameStop(e: Env, o: OpenTrade, t: Trade)
    requires t.entryPrice == o.entryPrice
    ensures StopOf(e, o) == t.entryPrice * (1.0 - e.costs.stopDistance)
  {
  }

  lemma BeginNextCandle(e: Env, r: Run, before: seq<Candle>, c: Candle, minRequired: nat)
    requires TradesSurvived(e, r, before, minRequired) && FilledBy(BeginCandle(r, c), c.openTime)
    requires before != [] ==> OpenSurvived(e, r, before, minRequired, Last(before).openTime + 1)
    requires Increasing(before + [c])
    ensures TradesSurvived(e, BeginCandle(r, c), before + [c], minRequired)
    ensures OpenSurvived(e, BeginCandle(r, c), before + [c], minRequired, c.openTime)
  {
    NextCandleSurvived(e, r, before, c, minRequired);
  }

  /** A new candle, not yet looked at, leaves the survivors as they were. */
  lemma NextCandleSurvived(e: Env, r: Run, before: seq<Candle>, c: Candle, minRequired: nat)
    requires TradesSurvived(e, r, before, minRequired) && FilledBy(r, c.openTime)
    requires before != [] ==> OpenSurvived(e, r, before, minRequired, Last(before).openTime + 1)
    requires Increasing(before + [c])
    ensures TradesSurvived(e, r, before + [c], minRequired)
    ensures OpenSurvived(e, r, before + [c], minRequired, c.openTime)
  {
    var candles := before + [c];
    assert forall j | 0 <= j < |before| :: candles[j] == before[j] && candles[j].openTime <= Last(before).openTime;
  }

  lemma ResolveKeepsSurvivors(e: Env, start: real, r: Run, candles: seq<Candle>, minRequired: nat)
    requires ValidEnv(e) && Inv(e, start, r) && candles != [] && Priced(Last(candles))
    requires TradesSurvived(e, r, candles, minRequired)
    requires OpenSurvived(e, r, candles, minRequired, Last(candles).openTime)
    ensures var x := Resolve(e, r, Last(candles));
            x.Ok? ==> && TradesSurvived(e, x.value, candles, minRequired)
                      && OpenSurvived(e, x.value, candles, minRequired, Last(candles).openTime)
  {
    var c := Last(candles);
    ResolveFills(e, start, r, c);
    if r.pending == Exit {
      SignalSells(e, start, r, c);
      var x := Resolve(e, r, c).value;
      if SoldAt(e, r, x, c.openTime, StrategyExit, c.open) {
        SaleKeepsSurvivors(e, r, x, candles, minRequired, StrategyExit, c.open, c.openTime);
      }
    }
    hide Resolve, Inv, SoldAt, StopOf, TargetOf, TradeSurvived;
  }

  lemma ProtectKeepsSurvivors(e: Env, filled: Run, after: Run, candles: seq<Candle>, minRequired: nat)
    requires candles != [] && Increasing(candles) && ProtectedOn(e, filled, after, Last(candles))
    requires TradesSurvived(e, filled, candles, minRequired)
    requires OpenSurvived(e, filled, candles, minRequired, Last(candles).openTime)
    ensures TradesSurvived(e, after, candles, minRequired)
    ensures OpenSurvived(e, after, candles, minRequired, Last(candles).openTime + 1)
  {
    hide SoldAt, StopOf, TargetOf, TradeSurvived;
    var c := Last(candles);
    assert forall j | 0 <= j < |candles| - 1 :: candles[j].openTime < c.openTime;
    if filled.openTrade.Some? {
      var stop, target := StopOf(e, filled.openTrade.value), TargetOf(e, filled.openTrade.value);
      if c.low <= stop {
        SaleKeepsSurvivors(e, filled, after, candles, minRequired, StopLoss, if c.open < stop then c.open else stop,
                           c.openTime);
      } else if target.Some? && target.value <= c.high {
        SaleKeepsSurvivors(e, filled, after, candles, minRequired, TakeProfit, target.value, c.openTime);
      }
    }
  }

  lemma StepKeepsSurvivors(e: Env, start: real, r: Run, candles: seq<Candle>, minRequired: nat)
    requires ValidEnv(e) && Inv(e, start, r) && candles != [] && Priced(Last(candles)) && Increasing(candles)
    requires TradesSurvived(e, BeginCandle(r, Last(candles)), candles, minRequired)
    requires OpenSurvived(e, BeginCandle(r, Last(candles)), candles, minRequired, Last(candles).openTime)
    ensures var x := Step(e, r, candles);
            x.Ok? ==> && TradesSurvived(e, x.value, candles, minRequired)
                      && OpenSurvived(e, x.value, candles, minRequired, Last(candles).openTime + 1)
  {
    hide Inv, Resolve, ProtectedOn, TradesSurvived, OpenSurvived;
    var c := Last(candles);
    BeginKeepsInv(e, start, r, c);
    ResolveKeepsSurvivors(e, start, BeginCandle(r, c), candles, minRequired);
    StepProtects(e, start, r, candles);
    var filled, x := Resolve(e, BeginCandle(r, c), c), Step(e, r, candles);
    if x.Ok? {
      assert filled.Ok?;
      ProtectKeepsSurvivors(e, filled.value, x.value, candles, minRequired);
    }
  }

  /**
   * Every position ends on the first candle that touches one of its levels, its entry candle included: a position still
   * open has seen none, and a closed trade none before the candle it was closed on.
   */
  lemma {:induction false} PositionsEndAtFirstTouch(e: Env, start: real, minRequired: nat, candles: seq<Candle>)
    requires ValidEnv(e) && start > 0.0 && minRequired > 0 && AllPriced(candles) && Increasing(candles)
    ensures var x := RunSegment(e, start, minRequired, candles);
            x.Ok? ==> && TradesSurvived(e, x.value, candles, minRequired)
                      && (candles != [] ==> OpenSurvived(e, x.value, candles, minRequired, Last(candles).openTime + 1))
  {
    hide Inv, Step, TradesSurvived, OpenSurvived;
    if |candles| < minRequired {
      NothingToSurvive(e, start, candles, minRequired);
    } else {
      var before := DropLast(candles);
      PositionsEndAtFirstTouch(e, start, minRequired, before);
      var r := RunSegment(e, start, minRequired, before);
      if r.Ok? { OneCandleMore(e, start, minRequired, candles, r.value); }
    }
  }

  lemma OneCandleMore(e: Env, start: real, minRequired: nat, candles: seq<Candle>, r: Run)
    requires ValidEnv(e) && start > 0.0 && 0 < minRequired <= |candles| && AllPriced(candles) && Increasing(candles)
    requires RunSegment(e, start, minRequired, DropLast(candles)) == Ok(r)
    requires TradesSurvived(e, r, DropLast(candles), minRequired)
    requires |candles| > 1 ==> OpenSurvived(e, r, DropLast(candles), minRequired, candles[|candles| - 2].openTime + 1)
    ensures var x := Step(e, r, candles);
            x.Ok? ==> && TradesSurvived(e, x.value, candles, minRequired)
                      && OpenSurvived(e, x.value, candles, minRequired, Last(candles).openTime + 1)
  {
    hide Inv, Step, TradesSurvived, OpenSurvived, RunSegment, FilledBy;
    var before, c := DropLast(candles), Last(candles);
    RunKeepsInv(e, start, minRequired, before);
    NothingLater(e, start, minRequired, candles, r);
    assert before + [c] == candles;
    BeginNextCandle(e, r, before, c, minRequired);
    StepKeepsSurvivors(e, start, r, candles, minRequired);
  }

  lemma NothingLater(e: Env, start: real, minRequired: nat, candles: seq<Candle>, r: Run)
    requires ValidEnv(e) && start > 0.0 && 0 < minRequired <= |candles| && AllPriced(candles) && Increasing(candles)
    requires RunSegment(e, start, minRequired, DropLast(candles)) == Ok(r)
    ensures FilledBy(BeginCandle(r, Last(candles)), Last(candles).openTime)
  {
    hide RunSegment, BeginCandle;
    FiguresAtTheOpen(e, start, minRequired, candles, FirstOfDay(candles, minRequired));
  }

  lemma NothingToSurvive(e: Env, start: real, candles: seq<Candle>, minRequired: nat)
    ensures TradesSurvived(e, InitialRun(start), candles, minRequired)
    ensures forall until :: OpenSurvived(e, InitialRun(start), candles, minRequired, until)
  {
  }
}
