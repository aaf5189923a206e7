// One segment's simulation as a pure fold over its candles (backtest/engine.py, run_segment).
// The state after n candles is one step from the state after n - 1, and that step is shown only the
// candles seen so far, so what a prefix produced is never revised by a longer history.

module Backtest {
  import opened Common
  import opened ExchangeFilters
  import opened Portfolio
  import opened RiskReward
  import opened Sizing

  datatype Env = Env(costs: Costs, risk: RiskConfig, filters: SymbolFilters,
                     strategy: (seq<Candle>, PositionSide) -> SignalType, fixedRiskReward: bool)

  ghost predicate ValidEnv(e: Env) {
    && ValidCosts(e.costs) && ValidRiskConfig(e.risk) && ValidFilters(e.filters)
    && (forall h, side | e.strategy(h, side) == Buy :: side == Flat)
  }

  /** Why a signal was turned away, by the gate that did it. */
  datatype Reason = BySizer(sizing: SizingCode) | ByPlan(plan: PlanCode)
                  | ByRisk(risk: RiskCode) | ByValidator(validation: ValidationCode)

  /** The code it is reported under. Gates that report the same code are counted together. */
  function CodeOf(reason: Reason): string {
    match reason
    case BySizer(code) => SizingCodeName(code)
    case ByPlan(code) => PlanCodeName(code)
    case ByRisk(code) => RiskCodeName(code)
    case ByValidator(code) => ValidationCodeName(code)
  }

  function SizingCodeName(code: SizingCode): string {
    match code
    case SizerInvalidPrice => "INVALID_PRICE"
    case SizerInvalidEquity => "INVALID_EQUITY"
    case SizerInvalidStopDistance => "INVALID_STOP_DISTANCE"
    case SizerBelowMinLotSize => "BELOW_MIN_LOT_SIZE"
    case SizerBelowMinNotional => "BELOW_MIN_NOTIONAL"
    case NoSellableQuantity => "NO_SELLABLE_QUANTITY"
  }

  function PlanCodeName(code: PlanCode): string {
    match code
    case RrApproved => "RR_APPROVED"
    case InvalidPrice => "RR_REJECTED_INVALID_PRICE"
    case InvalidEquity => "RR_REJECTED_INVALID_EQUITY"
    case InsufficientQuoteBalance => "RR_REJECTED_INSUFFICIENT_QUOTE_BALANCE"
    case InvalidStopDistance => "RR_REJECTED_INVALID_STOP_DISTANCE"
    case BelowMinLotSize => "RR_REJECTED_BELOW_MIN_LOT_SIZE"
    case BelowMinNotional => "RR_REJECTED_BELOW_MIN_NOTIONAL"
    case InvalidTarget => "RR_REJECTED_INVALID_TARGET"
    case NetRewardToRiskBelowMinimum => "RR_REJECTED_NET_REWARD_TO_RISK_BELOW_MINIMUM"
    case PostFillRevalidationFailed => "RR_REJECTED_POST_FILL_REVALIDATION_FAILED"
  }

  function RiskCodeName(code: RiskCode): string {
    match code
    case KillSwitchEngaged => "KILL_SWITCH_ENGAGED"
    case ConsecutiveApiErrorShutdown => "CONSECUTIVE_API_ERROR_SHUTDOWN"
    case StaleData => "STALE_DATA"
    case DuplicateOrderBlocked => "DUPLICATE_ORDER_BLOCKED"
    case ReconciliationBlocksAllOrders => "RECONCILIATION_DISCREPANCY_BLOCKS_ALL_ORDERS"
    case MaxDrawdownShutdown => "MAX_DRAWDOWN_SHUTDOWN"
    case MaxDailyLossShutdown => "MAX_DAILY_LOSS_SHUTDOWN"
    case MaxTradesPerDayReached => "MAX_TRADES_PER_DAY_REACHED"
    case CooldownAfterLoss => "COOLDOWN_AFTER_LOSS_ACTIVE"
    case BelowMinQuoteBalance => "BELOW_MIN_QUOTE_BALANCE"
    case RiskInvalidEquity => "INVALID_EQUITY"
    case ExceedsMaxPosition => "EXCEEDS_MAX_POSITION_PCT"
  }

  function ValidationCodeName(code: ValidationCode): string {
    match code
    case Validated => "VALIDATED"
    case SymbolMismatch => "SYMBOL_MISMATCH"
    case ZeroQuantityAfterRounding => "ZERO_QUANTITY_AFTER_ROUNDING"
    case ValidationBelowMinLotSize => "BELOW_MIN_LOT_SIZE"
    case ValidationBelowMinNotional => "BELOW_MIN_NOTIONAL"
  }

  datatype OpenTrade = OpenTrade(entryTime: int, entryPrice: real, quantity: real, entryFee: real,
                                 entryReference: real, plan: Option<RiskRewardPlan>)

  datatype ExitReason = StrategyExit | StopLoss | TakeProfit

  datatype Trade = Trade(entryTime: int, exitTime: int, entryPrice: real, exitPrice: real, quantity: real,
                         pnl: real, reason: ExitReason, entryFee: real, exitFee: real,
                         entryReference: real, exitReference: real)

  datatype EquityPoint = EquityPoint(time: int, equity: real, inPosition: bool)

  datatype JournalKind = SignalEntry | SizingEntry | RiskEntry | ValidationEntry | StopEntry | TakeProfitEntry

  datatype Payload = SignalPayload(signal: SignalType)
                   | DecisionPayload(decided: SignalType, refusal: Option<Reason>)
                   | FillPayload(price: real, quantity: real)

  datatype JournalEntry = JournalEntry(kind: JournalKind, time: int, payload: Payload)

  datatype Activation = Activation(time: int, equity: real, drawdown: real)

  datatype Diagnostics = Diagnostics(
    buySignals: nat, exitSignals: nat, executedEntries: nat,
    rejected: map<string, nat>, firstActivation: map<RiskCode, Activation>, lastActive: map<RiskCode, int>,
    lastApprovedBuy: Option<int>,
    plannedRisks: seq<real>, plannedRewards: seq<real>,
    rejectedNetRatio: nat, rejectedFilter: nat, rejectedPostFill: nat, gapLosses: nat)

  const NO_DIAGNOSTICS := Diagnostics(0, 0, 0, map[], map[], map[], None, [], [], 0, 0, 0, 0)

  /** Everything the loop carries between candles. A pending Hold stands for no pending signal. */
  datatype Run = Run(portfolio: PortfolioState, openTrade: Option<OpenTrade>, stop: Option<real>, target: Option<real>,
                     tradesToday: int, dailyPnl: real, dailyStart: real, cooldown: int, peak: real,
                     pending: SignalType, currentDay: Option<int>,
                     trades: seq<Trade>, equity: seq<EquityPoint>, journal: seq<JournalEntry>, diag: Diagnostics)

  type RunResult = Result<Run, TransitionError>

  function InitialRun(start: real): Run {
    Run(Initial(start), None, None, None, 0, 0.0, start, 0, start, Hold, None, [], [], [], NO_DIAGNOSTICS)
  }

  function Record(r: Run, kind: JournalKind, time: int, payload: Payload): Run {
    r.(journal := r.journal + [JournalEntry(kind, time, payload)])
  }

  function RecordDecision(r: Run, kind: JournalKind, time: int, decided: SignalType, refusal: Option<Reason>): Run {
    Record(r, kind, time, DecisionPayload(decided, refusal))
  }

  // ----- Opening of a candle ----------------------------------------------------------------

  function BeginCandle(r: Run, c: Candle): Run {
    var day := c.openTime / MS_PER_DAY;
    var d := if r.currentDay == Some(day) then r
             else r.(currentDay := Some(day), dailyStart := Equity(r.portfolio, c.open), dailyPnl := 0.0,
                     tradesToday := 0);
    d.(cooldown := if d.cooldown > 1 then d.cooldown - 1 else 0)
  }

  function Drawdown(peak: real, equity: real): real {
    if peak > 0.0 then (peak - equity) / peak else 0.0
  }

  function Context(r: Run, equity: real): RiskContext {
    RiskContext(equity, r.portfolio.quote, r.tradesToday, r.cooldown, r.dailyPnl, Drawdown(r.peak, equity),
                0.0, 0, false, false, false)
  }

  // ----- Filling a queued signal at the open -------------------------------------------------

  function Increment(counts: map<string, nat>, code: string): map<string, nat> {
    counts[code := 1 + if code in counts then counts[code] else 0]
  }

  function RejectEntry(r: Run, reason: Reason): Run {
    r.(diag := r.diag.(rejected := Increment(r.diag.rejected, CodeOf(reason))))
  }

  predicate ExchangeFilterReason(code: PlanCode) {
    code == BelowMinLotSize || code == BelowMinNotional || code == InvalidTarget
  }

  function RejectSizing(r: Run, reason: Reason): Run {
    var d := RejectEntry(r, reason).diag;
    r.(diag := if reason.ByPlan? && ExchangeFilterReason(reason.plan) then d.(rejectedFilter := d.rejectedFilter + 1)
               else if reason == ByPlan(NetRewardToRiskBelowMinimum) then d.(rejectedNetRatio := d.rejectedNetRatio + 1)
               else d)
  }

  function RejectByRisk(r: Run, code: RiskCode, time: int, equity: real): Run {
    var d := RejectEntry(r, ByRisk(code)).diag;
    r.(diag := d.(
         firstActivation := if code in d.firstActivation then d.firstActivation
                            else d.firstActivation[code := Activation(time, equity, Drawdown(r.peak, equity))],
         lastActive := d.lastActive[code := time]))
  }

  function EntryPlan(e: Env, r: Run, c: Candle): RiskRewardPlan
    requires ValidCosts(e.costs) && ValidFilters(e.filters)
  {
    PlanEntry(Equity(r.portfolio, c.open), r.portfolio.quote, c.open, e.costs, e.filters)
  }

  function SizeBuy(e: Env, r: Run, c: Candle): Result<real, Reason>
    requires ValidCosts(e.costs) && ValidFilters(e.filters)
  {
    if e.fixedRiskReward then
      var plan := EntryPlan(e, r, c);
      if plan.approved && plan.quantity.Some? then Ok(plan.quantity.value) else Err(ByPlan(plan.code))
    else
      match RiskBasedBuyQuantity(Equity(r.portfolio, c.open), c.open, StopBelow(c.open, e.costs),
                                 e.risk.maxRiskPerTrade, e.risk.maxPosition, e.costs, e.filters)
      case Ok(q) => Ok(q)
      case Err(code) => Err(BySizer(code))
  }

  /** The gates between a sized signal and its fill; the answer is the quantity to fill. */
  function RiskGate(e: Env, r: Run, c: Candle, signal: SignalType, quantity: real): Option<RiskCode> {
    EvaluateRisk(signal, quantity, c.open, Context(r, Equity(r.portfolio, c.open)), e.risk)
  }

  function ValidationGate(e: Env, c: Candle, quantity: real): Result<real, ValidationCode> {
    ValidateOrder(c.symbol, quantity, c.open, e.filters)
  }

  function RefusalOf<T>(answer: Result<T, ValidationCode>): Option<Reason> {
    match answer case Ok(_) => None case Err(code) => Some(ByValidator(code))
  }

  function EntryRecorded(d: Diagnostics, plan: Option<RiskRewardPlan>, time: int): Diagnostics {
    var planned := if plan.Some? && plan.value.risk.Some? && plan.value.reward.Some? then
                     d.(plannedRisks := d.plannedRisks + [plan.value.risk.value],
                        plannedRewards := d.plannedRewards + [plan.value.reward.value])
                   else d;
    planned.(executedEntries := d.executedEntries + 1, lastApprovedBuy := Some(time))
  }

  /** The run once a buy of `quantity` at `fill` has produced portfolio `p`. */
  function Positioned(r: Run, p: PortfolioState, c: Candle, fill: SimulatedFill, quantity: real, stop: real,
                      plan: Option<RiskRewardPlan>): Run {
    r.(portfolio := p, stop := Some(stop), target := if plan.Some? then plan.value.target else r.target,
       openTrade := Some(OpenTrade(c.openTime, fill.price, quantity, fill.fee, c.open, plan)),
       tradesToday := r.tradesToday + 1, diag := EntryRecorded(r.diag, plan, c.openTime))
  }

  function PlacePosition(e: Env, r: Run, c: Candle, quantity: real, stop: real,
                         plan: Option<RiskRewardPlan>): RunResult {
    var fill := SimulateBuy(quantity, c.open, e.costs);
    match ApplyBuy(r.portfolio, quantity, fill.price, fill.fee, false)
    case Err(error) => Err(error)
    case Ok(p) => Ok(Positioned(r, p, c, fill, quantity, stop, plan))
  }

  function FillBuy(e: Env, r: Run, c: Candle, quantity: real): RunResult
    requires ValidCosts(e.costs) && ValidFilters(e.filters)
    requires e.fixedRiskReward ==> EntryPlan(e, r, c).approved
  {
    var price := SimulateBuy(quantity, c.open, e.costs).price;
    if e.fixedRiskReward then
      RealizedPlanAlwaysApproved(Equity(r.portfolio, c.open), r.portfolio.quote, c.open, e.costs, e.filters);
      var plan := EntryPlan(e, r, c).(quantity := Some(quantity));
      var realized := BuildRealizedPlan(plan, price, e.costs, Equity(r.portfolio, c.open), e.filters);
      if !realized.approved || realized.stop.None? then
        var d := RejectEntry(r, ByPlan(realized.code)).diag;
        Ok(r.(diag := d.(rejectedPostFill := d.rejectedPostFill + 1)))
      else PlacePosition(e, r, c, quantity, realized.stop.value, Some(realized))
    else PlacePosition(e, r, c, quantity, StopBelow(price, e.costs), None)
  }

  function ResolveBuy(e: Env, r: Run, c: Candle): RunResult
    requires ValidCosts(e.costs) && ValidFilters(e.filters)
  {
    var sized := SizeBuy(e, r, c);
    var s := RecordDecision(r, SizingEntry, c.openTime, Buy, if sized.Ok? then None else Some(sized.error));
    if sized.Err? then Ok(RejectSizing(s, sized.error)) else
    var risk := RiskGate(e, s, c, Buy, sized.value);
    var g := RecordDecision(s, RiskEntry, c.openTime, Buy, if risk.None? then None else Some(ByRisk(risk.value)));
    if risk.Some? then Ok(RejectByRisk(g, risk.value, c.openTime, Equity(g.portfolio, c.open))) else
    var valid := ValidationGate(e, c, sized.value);
    var v := RecordDecision(g, ValidationEntry, c.openTime, Buy, RefusalOf(valid));
    if valid.Err? then Ok(RejectEntry(v, ByValidator(valid.error))) else
    FillBuy(e, v, c, valid.value)
  }

  function ClosedTrade(o: OpenTrade, time: int, fill: SimulatedFill, quantity: real, pnl: real, reason: ExitReason,
                       reference: real): Trade {
    Trade(o.entryTime, time, o.entryPrice, fill.price, quantity, pnl, reason, o.entryFee, fill.fee,
          o.entryReference, reference)
  }

  function DailyShare(pnl: real, dayStart: real): real {
    if dayStart > 0.0 then pnl / dayStart else 0.0
  }

  predicate ExceedsPlannedRisk(o: OpenTrade, reason: ExitReason, pnl: real) {
    reason == StopLoss && o.plan.Some? && o.plan.value.risk.Some? && -pnl > o.plan.value.risk.value
  }

  /** The daily counters and protective levels after a sale that booked `pnl`. */
  function BooksClosed(e: Env, r: Run, p: PortfolioState, pnl: real): Run {
    r.(portfolio := p,
       dailyPnl := r.dailyPnl + DailyShare(pnl, r.dailyStart),
       cooldown := if pnl < 0.0 then e.risk.cooldownBars else r.cooldown,
       tradesToday := r.tradesToday + 1,
       stop := None, target := None, openTrade := None)
  }

  /** The run once a sale of `quantity` at `fill` has produced portfolio `p`. */
  function Settled(e: Env, r: Run, p: PortfolioState, time: int, fill: SimulatedFill, quantity: real,
                   reason: ExitReason, reference: real): Run {
    var pnl := p.realizedPnl - r.portfolio.realizedPnl;
    var closed := if r.openTrade.None? then r else
                  r.(trades := r.trades + [ClosedTrade(r.openTrade.value, time, fill, quantity, pnl, reason,
                                                       reference)],
                     diag := if ExceedsPlannedRisk(r.openTrade.value, reason, pnl)
                             then r.diag.(gapLosses := r.diag.gapLosses + 1) else r.diag);
    BooksClosed(e, closed, p, pnl)
  }

  function ApplyExit(e: Env, r: Run, time: int, quantity: real, reference: real, reason: ExitReason): RunResult {
    var fill := SimulateSell(quantity, reference, e.costs);
    match ApplySell(r.portfolio, quantity, fill.price, fill.fee, false)
    case Err(error) => Err(error)
    case Ok(p) => Ok(Settled(e, r, p, time, fill, quantity, reason, reference))
  }

  function ResolveExit(e: Env, r: Run, c: Candle): RunResult {
    var sized := SellQuantity(r.portfolio.base, c.open, e.filters);
    var s := RecordDecision(r, SizingEntry, c.openTime, Exit, if sized.Ok? then None else Some(BySizer(sized.error)));
    if sized.Err? then Ok(s) else
    var risk := RiskGate(e, s, c, Exit, sized.value);
    var g := RecordDecision(s, RiskEntry, c.openTime, Exit, if risk.None? then None else Some(ByRisk(risk.value)));
    if risk.Some? then Ok(g) else
    var valid := ValidationGate(e, c, sized.value);
    var v := RecordDecision(g, ValidationEntry, c.openTime, Exit, RefusalOf(valid));
    if valid.Err? then Ok(v) else
    ApplyExit(e, v, c.openTime, valid.value, c.open, StrategyExit)
  }

  function Resolve(e: Env, r: Run, c: Candle): RunResult
    requires ValidCosts(e.costs) && ValidFilters(e.filters)
  {
    var q := r.(peak := Max(r.peak, Equity(r.portfolio, c.open)), pending := Hold);
    match r.pending
    case Hold => Ok(r)
    case Buy => ResolveBuy(e, q, c)
    case Exit => ResolveExit(e, q, c)
  }

  // ----- Protective exits and the close --------------------------------------------------------

  /** A stop is filled at the worse of its level and the open; it goes before the target. */
  function Protect(e: Env, r: Run, c: Candle): RunResult {
    if r.portfolio.side != Long || r.stop.None? then Ok(r)
    else if c.low <= r.stop.value then
      var reference := Min(r.stop.value, c.open);
      match ApplyExit(e, r, c.openTime, r.portfolio.base, reference, StopLoss)
      case Err(error) => Err(error)
      case Ok(x) => Ok(Record(x, StopEntry, c.openTime, FillPayload(reference, r.portfolio.base)))
    else if e.fixedRiskReward && r.target.Some? && c.high >= r.target.value then
      match ApplyExit(e, r, c.openTime, r.portfolio.base, r.target.value, TakeProfit)
      case Err(error) => Err(error)
      case Ok(x) => Ok(Record(x, TakeProfitEntry, c.openTime, FillPayload(r.target.value, r.portfolio.base)))
    else Ok(r)
  }

  function SignalCounted(d: Diagnostics, signal: SignalType): Diagnostics {
    match signal
    case Buy => d.(buySignals := d.buySignals + 1)
    case Exit => d.(exitSignals := d.exitSignals + 1)
    case Hold => d
  }

  function CloseCandle(e: Env, r: Run, history: seq<Candle>): Run
    requires |history| > 0
  {
    var c := Last(history);
    var now := Equity(r.portfolio, c.close);
    var signal := e.strategy(history, r.portfolio.side);
    var s := Record(r, SignalEntry, c.closeTime, SignalPayload(signal));
    s.(peak := Max(r.peak, now), diag := SignalCounted(s.diag, signal),
       pending := if signal == Hold then r.pending else signal,
       equity := r.equity + [EquityPoint(c.closeTime, now, r.portfolio.side == Long)])
  }

  function Step(e: Env, r: Run, history: seq<Candle>): RunResult
    requires ValidCosts(e.costs) && ValidFilters(e.filters) && |history| > 0
  {
    var c := Last(history);
    match Resolve(e, BeginCandle(r, c), c)
    case Err(error) => Err(error)
    case Ok(filled) =>
      match Protect(e, filled, c)
      case Err(error) => Err(error)
      case Ok(guarded) => Ok(CloseCandle(e, guarded, history))
  }

  /** The run over all given candles; the first `minRequired - 1` are warm-up only. */
  function RunSegment(e: Env, start: real, minRequired: nat, candles: seq<Candle>): RunResult
    requires ValidCosts(e.costs) && ValidFilters(e.filters) && minRequired > 0
  {
    if |candles| < minRequired then Ok(InitialRun(start)) else
    match RunSegment(e, start, minRequired, DropLast(candles))
    case Err(error) => Err(error)
    case Ok(r) => Step(e, r, candles)
  }
}
