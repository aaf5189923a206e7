// Whole-run results about one segment's simulation.

module BacktestTheorems {
  import opened Common
  import opened ExchangeFilters
  import opened Portfolio
  import opened RiskReward
  import opened Sizing
  import opened Backtest
  import opened BacktestInvariant
  import opened GapDetection

  // ----- Which candle closed a trade ----------------------------------------------------------------

  /** What the candle an exit happened on must have looked like. */
  predicate ExitSeen(e: Env, t: Trade, c: Candle) {
    var stop := StopBelow(t.entryPrice, e.costs);
    && t.exitTime == c.openTime
    && match t.reason
       case StrategyExit => t.exitReference == c.open
       case StopLoss => c.low <= stop && t.exitReference == Min(stop, c.open)
       case TakeProfit => c.low > stop && c.high >= t.exitReference
  }

  predicate AtMostOneExit(e: Env, before: seq<Trade>, after: seq<Trade>, c: Candle) {
    || after == before
    || (|after| > 0 && after == before + [Last(after)] && ExitSeen(e, Last(after), c))
  }

  lemma ResolveExitsAtMostOnce(e: Env, start: real, r: Run, c: Candle)
    requires ValidEnv(e) && Inv(e, start, r) && Priced(c)
    ensures var x := Resolve(e, r, c);
            x.Ok? ==> (AtMostOneExit(e, r.trades, x.value.trades, c)
                       && (x.value.trades != r.trades ==> x.value.portfolio.side == Flat))
  {
    var q := r.(peak := Max(r.peak, Equity(r.portfolio, c.open)), pending := Hold);
    if r.pending == Exit {
      ExitSignalSellsAllOrNothing(e, q, c);
      ZeroIsAligned(e.filters);
      var v := AfterGates(q, c, Exit);
      assert BooksOf(v) == BooksOf(r);
      if r.portfolio.base > 0.0 { ExitKeepsSound(e, start, v, c.openTime, c.open, StrategyExit); }
    }
  }

  lemma ProtectExitsAtMostOnce(e: Env, start: real, r: Run, c: Candle)
    requires ValidEnv(e) && Inv(e, start, r) && Priced(c) && r.pending == Hold
    ensures var x := Protect(e, r, c);
            x.Ok? && AtMostOneExit(e, r.trades, x.value.trades, c)
            && (r.portfolio.side == Flat ==> x.value.trades == r.trades)
  {
    ZeroIsAligned(e.filters);
    if r.portfolio.side == Long && r.stop.Some? {
      StopStrictlyBelow(r.openTrade.value.entryPrice, e.costs);
      if c.low <= r.stop.value {
        ExitKeepsSound(e, start, r, c.openTime, Min(r.stop.value, c.open), StopLoss);
      } else if e.fixedRiskReward && r.target.Some? && c.high >= r.target.value {
        TargetIsPositive(e, start, r);
        ExitKeepsSound(e, start, r, c.openTime, r.target.value, TakeProfit);
      }
    }
  }

  /** A candle closes at most one trade, for a reason visible on that candle. */
  lemma StepExitsAtMostOnce(e: Env, start: real, r: Run, history: seq<Candle>)
    requires ValidEnv(e) && Inv(e, start, r) && |history| > 0 && Priced(Last(history))
    ensures var x := Step(e, r, history);
            x.Ok? ==> AtMostOneExit(e, r.trades, x.value.trades, Last(history))
  {
    var c := Last(history);
    var b := BeginCandle(r, c);
    assert BooksOf(b) == BooksOf(r);
    ResolveKeepsInv(e, start, b, c);
    ResolveExitsAtMostOnce(e, start, b, c);
    var filled := Resolve(e, b, c);
    if filled.Ok? { ProtectExitsAtMostOnce(e, start, filled.value, c); }
  }

  ghost predicate ExitExplained(e: Env, t: Trade, candles: seq<Candle>) {
    exists c :: c in candles && ExitSeen(e, t, c)
  }

  lemma {:induction false} EveryExitExplained(e: Env, start: real, minRequired: nat, candles: seq<Candle>)
    requires ValidEnv(e) && start > 0.0 && minRequired > 0 && AllPriced(candles)
    ensures var x := RunSegment(e, start, minRequired, candles);
            x.Ok? ==> forall t | t in x.value.trades :: ExitExplained(e, t, candles)
  {
    if |candles| >= minRequired {
      var before := DropLast(candles);
      EveryExitExplained(e, start, minRequired, before);
      RunKeepsInv(e, start, minRequired, before);
      var r := RunSegment(e, start, minRequired, before);
      if r.Ok? {
        StepExitsAtMostOnce(e, start, r.value, candles);
        var x := Step(e, r.value, candles);
        if x.Ok? {
          forall t | t in x.value.trades ensures ExitExplained(e, t, candles) {
            if t in r.value.trades {
              var c :| c in before && ExitSeen(e, t, c);
              assert c in candles;
            } else {
              assert Last(candles) in candles;
            }
          }
        }
      }
    }
  }

  // ----- The fixed risk/reward policy over a whole run -------------------------------------------------

  /**
   * No run under the policy ever raises, its fail-closed gates never fire, and cash, holding, open
   * trade, stop and target agree at every candle; an exit never leaves dust behind.
   */
  lemma PolicyRunIsCoherent(e: Env, start: real, minRequired: nat, candles: seq<Candle>)
    requires ValidEnv(e) && e.fixedRiskReward && start > 0.0 && minRequired > 0 && AllPriced(candles)
    ensures RunSegment(e, start, minRequired, candles).Ok?
    ensures var r := RunSegment(e, start, minRequired, candles).value;
            && (r.portfolio.side == Long <==> r.portfolio.base > 0.0)
            && (r.portfolio.side == Long <==> r.openTrade.Some?)
            && (r.portfolio.side == Long <==> r.stop.Some?)
            && (r.portfolio.side == Long <==> r.target.Some?)
            && r.portfolio.base >= 0.0 && StepAligned(r.portfolio.base, e.filters.stepSize)
            && r.portfolio.quote >= 0.0
            && |r.diag.plannedRisks| == |r.diag.plannedRewards| == |r.trades| + (if r.openTrade.Some? then 1 else 0)
            && r.diag.rejectedPostFill == 0 && r.diag.rejectedNetRatio == 0
  {
    RunKeepsInv(e, start, minRequired, candles);
  }

  /**
   * Every trade under the policy realises what was planned for it: a target earns the planned reward,
   * an ungapped stop loses the planned risk, and only a candle opening below the stop loses more. The
   * planned risk is at most one percent of the equity just before the entry.
   */
  lemma PolicyTradesHonourTheirPlans(e: Env, start: real, minRequired: nat, candles: seq<Candle>, i: nat)
    requires ValidEnv(e) && e.fixedRiskReward && start > 0.0 && minRequired > 0 && AllPriced(candles)
    requires var x := RunSegment(e, start, minRequired, candles);
             x.Ok? ==> i < |x.value.trades| <= |x.value.diag.plannedRisks| == |x.value.diag.plannedRewards|
    ensures RunSegment(e, start, minRequired, candles).Ok?
    ensures var r := RunSegment(e, start, minRequired, candles).value;
            var t, risk, reward := r.trades[i], r.diag.plannedRisks[i], r.diag.plannedRewards[i];
            var stop := StopBelow(t.entryPrice, e.costs);
            && 0.0 < risk <= MAX_RISK_PER_TRADE * (start + TotalPnl(r.trades[..i]))
            && reward >= MIN_NET_REWARD_TO_RISK * risk
            && (t.reason == TakeProfit ==> t.pnl == reward)
            && exists c :: c in candles && ExitSeen(e, t, c)
                 && (t.reason == StopLoss && c.open >= stop ==> t.pnl == -risk)
                 && (t.reason == StopLoss && c.open < stop ==> t.pnl < -risk)
  {
    RunKeepsInv(e, start, minRequired, candles);
    EveryExitExplained(e, start, minRequired, candles);
    var r := RunSegment(e, start, minRequired, candles).value;
    var t := r.trades[i];
    assert Honoured(e, t, r.diag.plannedRisks[i], r.diag.plannedRewards[i], start + TotalPnl(r.trades[..i]));
    assert t in r.trades;
    var c :| c in candles && ExitSeen(e, t, c);
  }

  /**
   * The gap counter is exactly the number of stop exits filled below their stop, which are those whose candle
   * opened below it.
   */
  lemma GapCounterIsExact(e: Env, start: real, minRequired: nat, candles: seq<Candle>)
    requires ValidEnv(e) && e.fixedRiskReward && start > 0.0 && minRequired > 0 && AllPriced(candles)
    ensures RunSegment(e, start, minRequired, candles).Ok?
    ensures var r := RunSegment(e, start, minRequired, candles).value;
            && r.diag.gapLosses == |set i | 0 <= i < |r.trades| && GappedThroughStop(e, r.trades[i])|
            && forall t | t in r.trades && t.reason == StopLoss :: ExitedAtOpenBelow(e, candles, t)
  {
    RunKeepsInv(e, start, minRequired, candles);
    EveryExitExplained(e, start, minRequired, candles);
    hide RunSegment, Inv, ExitSeen;
    var r := RunSegment(e, start, minRequired, candles).value;
    GapCountOfRun(e, start, r);
    GapCountIsCardinality(e, r.trades);
    forall t | t in r.trades && t.reason == StopLoss ensures ExitedAtOpenBelow(e, candles, t) {
      var c :| c in candles && ExitSeen(e, t, c);
      GapMeansOpenBelowStop(e, t, c);
    }
  }

  lemma GapCountOfRun(e: Env, start: real, r: Run)
    requires Inv(e, start, r) && e.fixedRiskReward
    ensures r.diag.gapLosses == GapCount(e, r.trades)
  {
  }

  /** The trade left on a candle of the history, below its stop exactly if that candle opened below it. */
  ghost predicate ExitedAtOpenBelow(e: Env, candles: seq<Candle>, t: Trade) {
    exists c :: c in candles && ExitSeen(e, t, c)
                && (GappedThroughStop(e, t) <==> c.open < StopBelow(t.entryPrice, e.costs))
  }

  /** A stop exit is filled below its stop exactly when its candle opened below it. */
  lemma GapMeansOpenBelowStop(e: Env, t: Trade, c: Candle)
    requires t.reason == StopLoss && ExitSeen(e, t, c)
    ensures GappedThroughStop(e, t) <==> c.open < StopBelow(t.entryPrice, e.costs)
  {
  }

  lemma {:induction false} GapCountIsCardinality(e: Env, trades: seq<Trade>)
    ensures GapCount(e, trades) == |set i | 0 <= i < |trades| && GappedThroughStop(e, trades[i])|
  {
    if trades != [] {
      var rest, n := DropLast(trades), |trades| - 1;
      GapCountIsCardinality(e, rest);
      var whole := set i | 0 <= i < |trades| && GappedThroughStop(e, trades[i]);
      var part := set i | 0 <= i < |rest| && GappedThroughStop(e, rest[i]);
      assert whole == if GappedThroughStop(e, trades[n]) then part + {n} else part;
    }
  }

  // ----- Run accounting ---------------------------------------------------------------------------------

  datatype PnlBreakdown = PnlBreakdown(realized: real, unrealized: Option<real>, marked: real,
                                       entryFees: real, exitFees: real, slippage: real)

  function SumOf(trades: seq<Trade>, figure: Trade -> real): real {
    if trades == [] then 0.0 else SumOf(DropLast(trades), figure) + figure(Last(trades))
  }

  function TradeSlippage(t: Trade): real {
    Amount(t.quantity, Abs(t.entryPrice - t.entryReference)) + Amount(t.quantity, Abs(t.exitPrice - t.exitReference))
  }

  /** The report's profit breakdown (metrics/extended_report.py). */
  function BreakDownPnl(trades: seq<Trade>, open: Option<OpenTrade>, mark: real): PnlBreakdown {
    var realized := SumOf(trades, (t: Trade) => t.pnl);
    var unrealized := match open
                      case None => None
                      case Some(o) => Some(Amount(o.quantity, mark - o.entryPrice) - o.entryFee);
    PnlBreakdown(realized, unrealized, realized + unrealized.GetOr(0.0),
                 SumOf(trades, (t: Trade) => t.entryFee) + (if open.Some? then open.value.entryFee else 0.0),
                 SumOf(trades, (t: Trade) => t.exitFee),
                 SumOf(trades, TradeSlippage)
                 + if open.Some? then Amount(open.value.quantity,
                                             Abs(open.value.entryPrice - open.value.entryReference)) else 0.0)
  }

  lemma {:induction false} SumOfPnlIsTotal(trades: seq<Trade>)
    ensures SumOf(trades, (t: Trade) => t.pnl) == TotalPnl(trades)
  {
    if trades != [] { SumOfPnlIsTotal(DropLast(trades)); }
  }

  lemma SoundBooksAccount(e: Env, start: real, b: Books, mark: real)
    requires Sound(e, start, b)
    ensures Equity(b.portfolio, mark) - start == BreakDownPnl(b.trades, b.openTrade, mark).marked
  {
    SumOfPnlIsTotal(b.trades);
    if b.openTrade.Some? {
      var o := b.openTrade.value;
      assert Amount(o.quantity, mark - o.entryPrice) == o.quantity * mark - o.quantity * o.entryPrice;
    }
  }

  /**
   * For every completed run, in either sizing mode and at any mark price, the change in equity is what
   * the report calls total marked-to-market profit: closed trades plus the open position. At the final close
   * that is the equity curve's last point.
   */
  lemma RunAccountingCloses(e: Env, start: real, minRequired: nat, candles: seq<Candle>, mark: real)
    requires ValidEnv(e) && start > 0.0 && minRequired > 0 && AllPriced(candles)
    ensures var x := RunSegment(e, start, minRequired, candles);
            x.Ok? ==>
              Equity(x.value.portfolio, mark) - start == BreakDownPnl(x.value.trades, x.value.openTrade, mark).marked
    ensures var x := RunSegment(e, start, minRequired, candles);
            x.Ok? && |candles| >= minRequired ==>
              && |x.value.equity| > 0
              && Last(x.value.equity).equity - start
                 == BreakDownPnl(x.value.trades, x.value.openTrade, Last(candles).close).marked
  {
    RunKeepsInv(e, start, minRequired, candles);
    hide RunSegment;
    var x := RunSegment(e, start, minRequired, candles);
    if x.Ok? {
      SoundBooksAccount(e, start, BooksOf(x.value), mark);
      if |candles| >= minRequired {
        EndingEquityIdentity(e, start, minRequired, candles);
        SoundBooksAccount(e, start, BooksOf(x.value), Last(candles).close);
      }
    }
  }

  /** The reported ending equity is the ending cash plus the ending holding at the final close. */
  lemma EndingEquityIdentity(e: Env, start: real, minRequired: nat, candles: seq<Candle>)
    requires ValidCosts(e.costs) && ValidFilters(e.filters) && minRequired > 0 && |candles| >= minRequired
    ensures var x := RunSegment(e, start, minRequired, candles);
            x.Ok? ==> (|x.value.equity| > 0
                       && Last(x.value.equity).equity == Equity(x.value.portfolio, Last(candles).close))
  {
  }

  // ----- The drawdown latch -------------------------------------------------------------------------------

  predicate BoughtBefore(r: Run, time: int) {
    r.diag.lastApprovedBuy.Some? ==> r.diag.lastApprovedBuy.value < time
  }

  /** The state a drawdown shutdown leaves behind: flat, below the limit, and no buy since. */
  predicate Latched(e: Env, r: Run) {
    && r.portfolio.side == Flat
    && r.peak > 0.0 && Drawdown(r.peak, r.portfolio.quote) >= e.risk.maxDrawdown
    && MaxDrawdownShutdown in r.diag.firstActivation
    && BoughtBefore(r, r.diag.firstActivation[MaxDrawdownShutdown].time)
  }

  predicate LatchesOnShutdown(e: Env, r: Run) {
    MaxDrawdownShutdown in r.diag.firstActivation ==> Latched(e, r)
  }

  datatype ShutdownActivation = ShutdownActivation(activation: Activation, lastActive: int, blocked: nat,
                                                   remainedLatched: bool, duration: int)

  /** The summary of one shutdown code at the end of a run. */
  function SummarizeShutdown(d: Diagnostics, code: RiskCode, endTime: int): ShutdownActivation
    requires code in d.firstActivation
  {
    var first := d.firstActivation[code];
    var last := if code in d.lastActive then d.lastActive[code] else first.time;
    var remained := d.lastApprovedBuy.None? || d.lastApprovedBuy.value < first.time;
    var blocked := if RiskCodeName(code) in d.rejected then d.rejected[RiskCodeName(code)] else 0;
    ShutdownActivation(first, last, blocked, remained,
                       if remained then endTime - first.time else last - first.time)
  }

  /** What stays the same for ever once latched. */
  predicate Frozen(before: Run, after: Run) {
    && after.portfolio == before.portfolio && after.trades == before.trades
    && after.diag.executedEntries == before.diag.executedEntries
    && after.diag.lastApprovedBuy == before.diag.lastApprovedBuy
  }

  lemma DrawdownGateRefuses(e: Env, r: Run, c: Candle, quantity: real)
    requires ValidRiskConfig(e.risk) && r.portfolio.base == 0.0
    requires r.peak > 0.0 && Drawdown(r.peak, r.portfolio.quote) >= e.risk.maxDrawdown
    ensures RiskGate(e, r, c, Buy, quantity) == Some(MaxDrawdownShutdown)
  {
  }

  lemma BuyWhileLatched(e: Env, r: Run, c: Candle)
    requires ValidEnv(e) && Portfolio.Valid(r.portfolio) && Latched(e, r)
    ensures var x := ResolveBuy(e, r, c);
            x.Ok? && Frozen(r, x.value) && Latched(e, x.value) && x.value.pending == r.pending
  {
    var sized := SizeBuy(e, r, c);
    if sized.Ok? {
      var s := RecordDecision(r, SizingEntry, c.openTime, Buy, None);
      DrawdownGateRefuses(e, s, c, sized.value);
    }
  }

  /** What a fill may do to the fields the latch reads. */
  predicate LatchNeutral(before: Run, after: Run, time: int) {
    && after.diag.firstActivation == before.diag.firstActivation
    && (after.diag.lastApprovedBuy == before.diag.lastApprovedBuy || after.diag.lastApprovedBuy == Some(time))
  }

  lemma FillIsLatchNeutral(e: Env, r: Run, c: Candle, quantity: real)
    requires ValidCosts(e.costs) && ValidFilters(e.filters)
    requires e.fixedRiskReward ==> EntryPlan(e, r, c).approved
    ensures var x := FillBuy(e, r, c, quantity); x.Ok? ==> LatchNeutral(r, x.value, c.openTime)
  {
  }

  lemma RiskRefusalLatches(e: Env, r: Run, c: Candle, code: RiskCode)
    requires ValidRiskConfig(e.risk) && r.peak > 0.0 && Portfolio.Valid(r.portfolio) && r.portfolio.side == Flat
    requires MaxDrawdownShutdown !in r.diag.firstActivation && BoughtBefore(r, c.openTime)
    requires code == MaxDrawdownShutdown ==> Drawdown(r.peak, r.portfolio.quote) >= e.risk.maxDrawdown
    ensures var x := RejectByRisk(r, code, c.openTime, Equity(r.portfolio, c.open));
            LatchesOnShutdown(e, x) && BoughtBefore(x, c.openTime + 1)
  {
  }

  lemma DrawdownRefusalMeansDrawdown(e: Env, r: Run, c: Candle, quantity: real)
    requires ValidRiskConfig(e.risk) && r.portfolio.base == 0.0
    requires RiskGate(e, r, c, Buy, quantity) == Some(MaxDrawdownShutdown)
    ensures Drawdown(r.peak, r.portfolio.quote) >= e.risk.maxDrawdown
  {
  }

  lemma BuyMayLatch(e: Env, r: Run, c: Candle)
    requires ValidEnv(e) && r.peak > 0.0 && Portfolio.Valid(r.portfolio) && r.portfolio.side == Flat
    requires MaxDrawdownShutdown !in r.diag.firstActivation && BoughtBefore(r, c.openTime)
    ensures var x := ResolveBuy(e, r, c);
            x.Ok? ==> (LatchesOnShutdown(e, x.value) && BoughtBefore(x.value, c.openTime + 1))
  {
    hide PlanEntry, RiskBasedBuyQuantity, EvaluateRisk, ValidateOrder, FillBuy;
    var sized := SizeBuy(e, r, c);
    if sized.Ok? {
      var s := RecordDecision(r, SizingEntry, c.openTime, Buy, None);
      var risk := RiskGate(e, s, c, Buy, sized.value);
      if risk.Some? {
        if risk.value == MaxDrawdownShutdown { DrawdownRefusalMeansDrawdown(e, s, c, sized.value); }
        RiskRefusalLatches(e, RecordDecision(s, RiskEntry, c.openTime, Buy, Some(ByRisk(risk.value))), c, risk.value);
      } else {
        var v := AfterGates(r, c, Buy);
        var valid := ValidationGate(e, c, sized.value);
        if valid.Ok? { FillIsLatchNeutral(e, v, c, valid.value); }
      }
    }
  }

  lemma FlatExitOnlyJournals(e: Env, r: Run, c: Candle)
    requires r.portfolio.base == 0.0
    ensures var x := ResolveExit(e, r, c); x.Ok? && x.value.(journal := r.journal) == r
  {
  }

  lemma FlatPeakUnmoved(r: Run, price: real)
    requires Portfolio.Valid(r.portfolio) && r.portfolio.side == Flat
    ensures Equity(r.portfolio, price) == r.portfolio.quote
  {
  }

  lemma DrawdownAtPeak(peak: real, quote: real, limit: real)
    requires peak > 0.0 && Drawdown(peak, quote) >= limit > 0.0
    ensures quote < peak
  {
  }

  lemma ResolveKeepsLatch(e: Env, r: Run, c: Candle)
    requires ValidEnv(e) && Portfolio.Valid(r.portfolio) && Latched(e, r)
    ensures var x := Resolve(e, r, c); x.Ok? && Frozen(r, x.value) && Latched(e, x.value)
  {
    DrawdownAtPeak(r.peak, r.portfolio.quote, e.risk.maxDrawdown);
    FlatPeakUnmoved(r, c.open);
    var q := r.(peak := Max(r.peak, Equity(r.portfolio, c.open)), pending := Hold);
    assert q.peak == r.peak;
    match r.pending
    case Hold =>
    case Buy => BuyWhileLatched(e, q, c);
    case Exit => FlatExitOnlyJournals(e, q, c);
  }

  lemma StepKeepsLatch(e: Env, r: Run, history: seq<Candle>)
    requires ValidEnv(e) && Portfolio.Valid(r.portfolio) && |history| > 0 && Latched(e, r)
    ensures var x := Step(e, r, history); x.Ok? && Frozen(r, x.value) && Latched(e, x.value)
  {
    var c := Last(history);
    var b := BeginCandle(r, c);
    ResolveKeepsLatch(e, b, c);
    var filled := Resolve(e, b, c).value;
    assert Protect(e, filled, c) == Ok(filled);
    CloseKeepsLatch(e, filled, history);
  }

  lemma ResolveMayLatch(e: Env, start: real, r: Run, c: Candle)
    requires ValidEnv(e) && Inv(e, start, r)
    requires MaxDrawdownShutdown !in r.diag.firstActivation && BoughtBefore(r, c.openTime)
    ensures var x := Resolve(e, r, c);
            x.Ok? ==> (LatchesOnShutdown(e, x.value) && BoughtBefore(x.value, c.openTime + 1))
  {
    hide ResolveBuy;
    var q := r.(peak := Max(r.peak, Equity(r.portfolio, c.open)), pending := Hold);
    match r.pending
    case Hold =>
    case Buy => BuyMayLatch(e, q, c);
    case Exit => ExitSignalSellsAllOrNothing(e, q, c);
  }

  lemma ProtectIsLatchNeutral(e: Env, r: Run, c: Candle)
    ensures var x := Protect(e, r, c);
            x.Ok? ==> (LatchNeutral(r, x.value, c.openTime) && x.value.diag.lastApprovedBuy == r.diag.lastApprovedBuy
                       && (r.portfolio.side == Flat ==> x.value == r))
  {
  }

  lemma CloseKeepsLatch(e: Env, r: Run, history: seq<Candle>)
    requires ValidEnv(e) && |history| > 0 && Portfolio.Valid(r.portfolio) && LatchesOnShutdown(e, r)
    ensures LatchesOnShutdown(e, CloseCandle(e, r, history))
    ensures CloseCandle(e, r, history).diag.lastApprovedBuy == r.diag.lastApprovedBuy
  {
  }

  lemma StepMayLatch(e: Env, start: real, r: Run, history: seq<Candle>)
    requires ValidEnv(e) && Inv(e, start, r) && |history| > 0 && Priced(Last(history))
    requires MaxDrawdownShutdown !in r.diag.firstActivation && BoughtBefore(r, Last(history).openTime)
    ensures var x := Step(e, r, history);
            x.Ok? ==> (LatchesOnShutdown(e, x.value) && BoughtBefore(x.value, Last(history).openTime + 1))
  {
    var c := Last(history);
    var b := BeginCandle(r, c);
    assert BooksOf(b) == BooksOf(r);
    ResolveMayLatch(e, start, b, c);
    ResolveKeepsInv(e, start, b, c);
    var filled := Resolve(e, b, c);
    if filled.Ok? {
      ProtectIsLatchNeutral(e, filled.value, c);
      ProtectKeepsInv(e, start, filled.value, c);
      CloseKeepsLatch(e, Protect(e, filled.value, c).value, history);
    }
  }

  lemma {:induction false} ShutdownLatches(e: Env, start: real, minRequired: nat, candles: seq<Candle>)
    requires ValidEnv(e) && start > 0.0 && minRequired > 0 && AllPriced(candles) && Increasing(candles)
    ensures var x := RunSegment(e, start, minRequired, candles);
            x.Ok? ==> (LatchesOnShutdown(e, x.value)
                       && (|candles| > 0 ==> BoughtBefore(x.value, Last(candles).openTime + 1))
                       && (|candles| == 0 ==> x.value.diag.lastApprovedBuy.None?))
  {
    if |candles| >= minRequired {
      var before := DropLast(candles);
      ShutdownLatches(e, start, minRequired, before);
      RunKeepsInv(e, start, minRequired, before);
      var r := RunSegment(e, start, minRequired, before);
      if r.Ok? {
        if MaxDrawdownShutdown in r.value.diag.firstActivation {
          StepKeepsLatch(e, r.value, candles);
        } else {
          StepMayLatch(e, start, r.value, candles);
        }
      }
    }
  }

  /**
   * Once a run has refused a buy for drawdown, every longer history leaves its cash, trades and entry
   * count exactly as they were, and the summary says the shutdown stayed latched to the end.
   */
  lemma {:induction false} DrawdownShutdownIsFinal(e: Env, start: real, minRequired: nat, candles: seq<Candle>, k: nat)
    requires ValidEnv(e) && start > 0.0 && minRequired > 0 && AllPriced(candles) && Increasing(candles)
    requires k <= |candles|
    requires var x := RunSegment(e, start, minRequired, candles[..k]);
             x.Ok? && MaxDrawdownShutdown in x.value.diag.firstActivation
    ensures var early, late := RunSegment(e, start, minRequired, candles[..k]),
                               RunSegment(e, start, minRequired, candles);
            && late.Ok? && Frozen(early.value, late.value)
            && MaxDrawdownShutdown in late.value.diag.firstActivation
            && forall endTime :: SummarizeShutdown(late.value.diag, MaxDrawdownShutdown, endTime).remainedLatched
    decreases |candles| - k
  {
    if k == |candles| {
      assert candles[..k] == candles;
      ShutdownLatches(e, start, minRequired, candles);
    } else {
      var before := DropLast(candles);
      assert before[..k] == candles[..k];
      DrawdownShutdownIsFinal(e, start, minRequired, before, k);
      ShutdownLatches(e, start, minRequired, before);
      RunKeepsInv(e, start, minRequired, before);
      if |candles| >= minRequired {
        StepKeepsLatch(e, RunSegment(e, start, minRequired, before).value, candles);
      }
      ShutdownLatches(e, start, minRequired, candles);
    }
  }
}
