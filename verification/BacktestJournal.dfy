// The two records a run leaves of its decisions, the journal and the diagnostics, tell the same story.

module BacktestJournal {
  import opened Common
  import opened ExchangeFilters
  import opened Portfolio
  import opened RiskReward
  import opened Sizing
  import opened Backtest
  import opened BacktestInvariant
  import opened BacktestTheorems
  import opened BacktestFigures
  import opened BacktestEntries

  // ----- Counting entries -----------------------------------------------------------------------------------

  function Tally(journal: seq<JournalEntry>, holds: JournalEntry -> bool): nat {
    if journal == [] then 0 else Tally(DropLast(journal), holds) + if holds(Last(journal)) then 1 else 0
  }

  lemma TallyAppends(journal: seq<JournalEntry>, x: JournalEntry, holds: JournalEntry -> bool)
    ensures Tally(journal + [x], holds) == Tally(journal, holds) + if holds(x) then 1 else 0
  {
    assert DropLast(journal + [x]) == journal;
  }

  function Signalled(signal: SignalType): JournalEntry -> bool {
    (x: JournalEntry) => x.kind == SignalEntry && x.payload == SignalPayload(signal)
  }

  function Decided(kind: JournalKind): JournalEntry -> bool {
    (x: JournalEntry) => x.kind == kind && x.payload.DecisionPayload?
  }

  function Approved(kind: JournalKind): JournalEntry -> bool {
    (x: JournalEntry) => x.kind == kind && x.payload.DecisionPayload? && x.payload.refusal.None?
  }

  /** The last gate let an order of this side through. */
  function Ordered(signal: SignalType): JournalEntry -> bool {
    (x: JournalEntry) => x.kind == ValidationEntry && x.payload == DecisionPayload(signal, None)
  }

  function RefusedAs(code: string): JournalEntry -> bool {
    (x: JournalEntry) => x.payload.DecisionPayload? && x.payload.decided == Buy && x.payload.refusal.Some?
                         && CodeOf(x.payload.refusal.value) == code
  }

  function RefusedByFilter(): JournalEntry -> bool {
    (x: JournalEntry) => x.kind == SizingEntry && x.payload.DecisionPayload? && x.payload.refusal.Some?
                         && x.payload.refusal.value.ByPlan?
                         && x.payload.refusal.value.plan in {BelowMinLotSize, BelowMinNotional, InvalidTarget}
  }

  function RefusedByGate(code: RiskCode): JournalEntry -> bool {
    (x: JournalEntry) => x.kind == RiskEntry && x.payload == DecisionPayload(Buy, Some(ByRisk(code)))
  }

  /** When an entry of this sort was first and last written. */
  function FirstTime(journal: seq<JournalEntry>, holds: JournalEntry -> bool): Option<int> {
    if journal == [] then None
    else if FirstTime(DropLast(journal), holds).Some? then FirstTime(DropLast(journal), holds)
    else if holds(Last(journal)) then Some(Last(journal).time) else None
  }

  function LastTime(journal: seq<JournalEntry>, holds: JournalEntry -> bool): Option<int> {
    if journal == [] then None
    else if holds(Last(journal)) then Some(Last(journal).time) else LastTime(DropLast(journal), holds)
  }

  lemma TimesAppend(journal: seq<JournalEntry>, x: JournalEntry, holds: JournalEntry -> bool)
    ensures FirstTime(journal + [x], holds)
         == if FirstTime(journal, holds).None? && holds(x) then Some(x.time) else FirstTime(journal, holds)
    ensures LastTime(journal + [x], holds) == if holds(x) then Some(x.time) else LastTime(journal, holds)
  {
    assert DropLast(journal + [x]) == journal;
  }

  /** The entry that goes with a closed position: a level that was touched, or an exit order let through. */
  predicate Closes(x: JournalEntry) {
    x.kind in {StopEntry, TakeProfitEntry} || (x.kind == ValidationEntry && x.payload == DecisionPayload(Exit, None))
  }

  function Closings(journal: seq<JournalEntry>): seq<JournalEntry> {
    if journal == [] then []
    else Closings(DropLast(journal)) + if Closes(Last(journal)) then [Last(journal)] else []
  }

  lemma ClosingsAppend(journal: seq<JournalEntry>, x: JournalEntry)
    ensures Closings(journal + [x]) == Closings(journal) + if Closes(x) then [x] else []
  {
    assert DropLast(journal + [x]) == journal;
  }

  /** The entry tells when and why the trade was closed and, for a level, at what price and how much. */
  predicate TellsClosing(t: Trade, x: JournalEntry) {
    && x.time == t.exitTime
    && match t.reason
       case StopLoss => x.kind == StopEntry && x.payload == FillPayload(t.exitReference, t.quantity)
       case TakeProfit => x.kind == TakeProfitEntry && x.payload == FillPayload(t.exitReference, t.quantity)
       case StrategyExit => x.kind == ValidationEntry && x.payload == DecisionPayload(Exit, None)
  }

  // ----- What the diagnostics say ----------------------------------------------------------------------------

  function CountOf(counts: map<string, nat>, code: string): nat {
    if code in counts then counts[code] else 0
  }

  /** Every signal is counted, and decided on the next candle; what passes one gate comes before the next. */
  ghost predicate SignalsTallied(r: Run) {
    var j := r.journal;
    && r.diag.buySignals == Tally(j, Signalled(Buy)) && r.diag.exitSignals == Tally(j, Signalled(Exit))
    && Tally(j, Signalled(Buy)) + Tally(j, Signalled(Exit))
       == Tally(j, Decided(SizingEntry)) + (if r.pending != Hold then 1 else 0)
    && Tally(j, Approved(SizingEntry)) == Tally(j, Decided(RiskEntry))
    && Tally(j, Approved(RiskEntry)) == Tally(j, Decided(ValidationEntry))
  }

  /** Every order that passed the last gate became an entry or closed a trade. */
  ghost predicate OrdersTallied(r: Run) {
    && r.diag.executedEntries == Tally(r.journal, Ordered(Buy))
    && r.diag.executedEntries == |r.trades| + (if r.openTrade.Some? then 1 else 0)
    && r.diag.lastApprovedBuy == LastTime(r.journal, Ordered(Buy))
  }

  ghost predicate RefusalsTallied(r: Run) {
    && (forall code :: CountOf(r.diag.rejected, code) == Tally(r.journal, RefusedAs(code)))
    && r.diag.rejectedFilter == Tally(r.journal, RefusedByFilter())
  }

  ghost predicate ActivationsTallied(r: Run) {
    forall code: RiskCode ::
      var holds := RefusedByGate(code);
      && (code in r.diag.firstActivation <==> FirstTime(r.journal, holds).Some?)
      && (code in r.diag.firstActivation ==>
            && FirstTime(r.journal, holds) == Some(r.diag.firstActivation[code].time)
            && code in r.diag.lastActive && LastTime(r.journal, holds) == Some(r.diag.lastActive[code]))
  }

  /** Trade by trade, the journal has the entry that tells of its closing, and no other. */
  ghost predicate ClosingsTold(r: Run) {
    var told := Closings(r.journal);
    |told| == |r.trades| && forall i | 0 <= i < |told| :: TellsClosing(r.trades[i], told[i])
  }

  ghost predicate Tallied(r: Run) {
    SignalsTallied(r) && OrdersTallied(r) && RefusalsTallied(r) && ActivationsTallied(r) && ClosingsTold(r)
  }

  // ----- One decision ----------------------------------------------------------------------------------------

  function Decision(kind: JournalKind, time: int, signal: SignalType, refusal: Option<Reason>): JournalEntry {
    JournalEntry(kind, time, DecisionPayload(signal, refusal))
  }

  lemma EntryAppends(journal: seq<JournalEntry>, x: JournalEntry)
    ensures forall holds :: Tally(journal + [x], holds) == Tally(journal, holds) + if holds(x) then 1 else 0
    ensures forall holds ::
              FirstTime(journal + [x], holds)
              == if FirstTime(journal, holds).None? && holds(x) then Some(x.time) else FirstTime(journal, holds)
    ensures forall holds ::
              LastTime(journal + [x], holds) == if holds(x) then Some(x.time) else LastTime(journal, holds)
    ensures Closings(journal + [x]) == Closings(journal) + if Closes(x) then [x] else []
  {
    ClosingsAppend(journal, x);
    forall holds
      ensures Tally(journal + [x], holds) == Tally(journal, holds) + if holds(x) then 1 else 0
    {
      TallyAppends(journal, x, holds);
    }
    assert DropLast(journal + [x]) == journal;
  }

  /** What the diagnostics record of a refused signal; only entries are recorded. */
  function RefusalRecorded(d: Diagnostics, signal: SignalType, reason: Reason): Diagnostics {
    if signal != Buy then d else d.(rejected := Increment(d.rejected, CodeOf(reason)))
  }

  lemma SizingRefused(r: Run, x: Run, time: int, signal: SignalType, reason: Reason)
    requires Tallied(r) && r.pending == signal != Hold && x.pending == Hold && (reason.BySizer? || reason.ByPlan?)
    requires signal == Exit ==> reason.BySizer?
    requires x.journal == r.journal + [Decision(SizingEntry, time, signal, Some(reason))]
    requires x.trades == r.trades && x.openTrade == r.openTrade
    requires var d := RefusalRecorded(r.diag, signal, reason);
             var n := x.diag.rejectedNetRatio;
             x.diag == if reason.ByPlan? && ExchangeFilterReason(reason.plan)
                       then d.(rejectedFilter := d.rejectedFilter + 1) else d.(rejectedNetRatio := n)
    ensures Tallied(x)
  {
    hide CodeOf, Tally, FirstTime, LastTime, Closings;
    EntryAppends(r.journal, Decision(SizingEntry, time, signal, Some(reason)));
  }

  /** The journal and the diagnostics after a gate has refused a signal. */
  predicate RefusedAtGate(r: Run, x: Run, time: int, signal: SignalType, code: RiskCode, at: Activation) {
    && r.pending == signal != Hold && x.pending == Hold && at.time == time
    && x.journal == r.journal + [Decision(SizingEntry, time, signal, None)]
                    + [Decision(RiskEntry, time, signal, Some(ByRisk(code)))]
    && x.trades == r.trades && x.openTrade == r.openTrade
    && x.diag == if signal != Buy then r.diag
                 else RefusalRecorded(r.diag, signal, ByRisk(code)).(
                        firstActivation := if code in r.diag.firstActivation then r.diag.firstActivation
                                           else r.diag.firstActivation[code := at],
                        lastActive := r.diag.lastActive[code := time])
  }

  lemma GateRefused(r: Run, x: Run, time: int, signal: SignalType, code: RiskCode, at: Activation)
    requires Tallied(r) && RefusedAtGate(r, x, time, signal, code, at)
    ensures Tallied(x)
  {
    GateRefusalCounted(r, x, time, signal, code, at);
    GateActivationKept(r, x, time, signal, code, at);
    hide RefusedAtGate, SignalsTallied, OrdersTallied, RefusalsTallied, ActivationsTallied, ClosingsTold;
  }

  lemma GateRefusalCounted(r: Run, x: Run, time: int, signal: SignalType, code: RiskCode, at: Activation)
    requires SignalsTallied(r) && OrdersTallied(r) && RefusalsTallied(r) && ClosingsTold(r)
    requires RefusedAtGate(r, x, time, signal, code, at)
    ensures SignalsTallied(x) && OrdersTallied(x) && RefusalsTallied(x) && ClosingsTold(x)
  {
    hide CodeOf, Tally, FirstTime, LastTime, Closings;
    var sized := r.journal + [Decision(SizingEntry, time, signal, None)];
    EntryAppends(r.journal, Decision(SizingEntry, time, signal, None));
    EntryAppends(sized, Decision(RiskEntry, time, signal, Some(ByRisk(code))));
  }

  lemma GateActivationKept(r: Run, x: Run, time: int, signal: SignalType, code: RiskCode, at: Activation)
    requires ActivationsTallied(r) && RefusedAtGate(r, x, time, signal, code, at)
    ensures ActivationsTallied(x)
  {
    hide CodeOf, Tally, FirstTime, LastTime, Increment;
    var sized := r.journal + [Decision(SizingEntry, time, signal, None)];
    var refused := Decision(RiskEntry, time, signal, Some(ByRisk(code)));
    forall other: RiskCode
      ensures FirstTime(x.journal, RefusedByGate(other))
           == (if FirstTime(r.journal, RefusedByGate(other)).None? && RefusedByGate(other)(refused) then Some(time)
               else FirstTime(r.journal, RefusedByGate(other)))
      ensures LastTime(x.journal, RefusedByGate(other))
           == if RefusedByGate(other)(refused) then Some(time) else LastTime(r.journal, RefusedByGate(other))
    {
      TimesAppend(r.journal, Decision(SizingEntry, time, signal, None), RefusedByGate(other));
      TimesAppend(sized, refused, RefusedByGate(other));
    }
  }

  lemma ValidatorRefused(r: Run, x: Run, time: int, signal: SignalType, code: ValidationCode)
    requires Tallied(r) && r.pending == signal != Hold && x.pending == Hold
    requires x.journal == r.journal + [Decision(SizingEntry, time, signal, None)]
                          + [Decision(RiskEntry, time, signal, None)]
                          + [Decision(ValidationEntry, time, signal, Some(ByValidator(code)))]
    requires x.trades == r.trades && x.openTrade == r.openTrade
    requires x.diag == RefusalRecorded(r.diag, signal, ByValidator(code))
    ensures Tallied(x)
  {
    hide CodeOf, Tally, FirstTime, LastTime, Closings;
    var sized := r.journal + [Decision(SizingEntry, time, signal, None)];
    var passed := sized + [Decision(RiskEntry, time, signal, None)];
    EntryAppends(r.journal, Decision(SizingEntry, time, signal, None));
    EntryAppends(sized, Decision(RiskEntry, time, signal, None));
    EntryAppends(passed, Decision(ValidationEntry, time, signal, Some(ByValidator(code))));
  }

  lemma OrderFilled(r: Run, x: Run, time: int, signal: SignalType)
    requires Tallied(r) && r.pending == signal != Hold && x.pending == Hold
    requires x.journal == r.journal + [Decision(SizingEntry, time, signal, None)]
                          + [Decision(RiskEntry, time, signal, None)]
                          + [Decision(ValidationEntry, time, signal, None)]
    requires if signal == Buy then x.trades == r.trades && r.openTrade.None? && x.openTrade.Some?
             else && |x.trades| > 0 && x.trades == r.trades + [Last(x.trades)]
                  && Last(x.trades).reason == StrategyExit && Last(x.trades).exitTime == time
                  && r.openTrade.Some? && x.openTrade.None?
    requires x.diag.rejected == r.diag.rejected && x.diag.rejectedFilter == r.diag.rejectedFilter
    requires x.diag.firstActivation == r.diag.firstActivation && x.diag.lastActive == r.diag.lastActive
    requires x.diag.buySignals == r.diag.buySignals && x.diag.exitSignals == r.diag.exitSignals
    requires x.diag.executedEntries == r.diag.executedEntries + if signal == Buy then 1 else 0
    requires x.diag.lastApprovedBuy == if signal == Buy then Some(time) else r.diag.lastApprovedBuy
    ensures Tallied(x)
  {
    hide CodeOf, Tally, FirstTime, LastTime, Closings;
    var sized := r.journal + [Decision(SizingEntry, time, signal, None)];
    var passed := sized + [Decision(RiskEntry, time, signal, None)];
    EntryAppends(r.journal, Decision(SizingEntry, time, signal, None));
    EntryAppends(sized, Decision(RiskEntry, time, signal, None));
    EntryAppends(passed, Decision(ValidationEntry, time, signal, None));
  }

  // ----- One candle -------------------------------------------------------------------------------------------

  lemma BuySizingRefused(e: Env, r: Run, c: Candle)
    requires ValidEnv(e) && Tallied(r) && r.pending == Buy && SizeBuy(e, r, c).Err?
    ensures var x := ResolveBuy(e, r.(pending := Hold), c); x.Ok? && Tallied(x.value)
  {
    hide Tallied, CodeOf, Increment, PlanEntry, RiskBasedBuyQuantity;
    var q := r.(pending := Hold);
    SizingReadsAccount(e, r, q, c);
    SizingRefused(r, ResolveBuy(e, q, c).value, c.openTime, Buy, SizeBuy(e, r, c).error);
  }

  lemma BuyGateRefused(e: Env, r: Run, c: Candle, quantity: real)
    requires ValidEnv(e) && Tallied(r) && r.pending == Buy && SizeBuy(e, r, c) == Ok(quantity)
    requires RiskGate(e, r, c, Buy, quantity).Some?
    ensures var x := ResolveBuy(e, r.(pending := Hold), c); x.Ok? && Tallied(x.value)
  {
    hide Tallied, CodeOf, Increment, PlanEntry, RiskBasedBuyQuantity, EvaluateRisk, ValidateOrder, FillBuy, Drawdown;
    var q, equity := r.(pending := Hold), Equity(r.portfolio, c.open);
    SizingReadsAccount(e, r, q, c);
    var code := RiskGate(e, r, c, Buy, quantity).value;
    assert ResolveBuy(e, q, c).Ok?;
    GateRefused(r, ResolveBuy(e, q, c).value, c.openTime, Buy, code,
                Activation(c.openTime, equity, Drawdown(r.peak, equity)));
  }

  lemma BuyValidated(e: Env, r: Run, c: Candle, quantity: real)
    requires ValidEnv(e) && Tallied(r) && r.pending == Buy && SizeBuy(e, r, c) == Ok(quantity)
    requires RiskGate(e, r, c, Buy, quantity).None? && Portfolio.Valid(r.portfolio) && r.portfolio.side == Flat
    requires ValidationGate(e, c, quantity).Ok? ==> ValidationGate(e, c, quantity) == Ok(quantity)
    requires r.openTrade.None?
    ensures var x := ResolveBuy(e, r.(pending := Hold), c); x.Ok? ==> Tallied(x.value)
  {
    hide Tallied, CodeOf, Increment, PlanEntry, RiskBasedBuyQuantity, EvaluateRisk, ValidateOrder, FillBuy,
        Unaffordable;
    var q := r.(pending := Hold);
    SizingReadsAccount(e, r, q, c);
    var valid, x := ValidationGate(e, c, quantity), ResolveBuy(e, q, c);
    if valid.Err? {
      ValidatorRefused(r, x.value, c.openTime, Buy, valid.error);
    } else {
      var v := AfterGates(q, c, Buy);
      SizingReadsAccount(e, r, v, c);
      OrderIsFilled(e, v, c, quantity);
      assert x == FillBuy(e, v, c, quantity);
      if x.Ok? { OrderFilled(r, x.value, c.openTime, Buy); }
    }
  }

  lemma SizedIsKept(e: Env, r: Run, c: Candle)
    requires ValidEnv(e) && r.portfolio.base == 0.0 && c.open > 0.0 && SizeBuy(e, r, c).Ok?
    ensures var q := SizeBuy(e, r, c).value; ValidationGate(e, c, q).Ok? ==> ValidationGate(e, c, q) == Ok(q)
  {
    hide SizeBuy, LargestStake;
    var quote, q := r.portfolio.quote, SizeBuy(e, r, c).value;
    var largest := 0.0;
    if quote > 0.0 { largest := LargestStakeExists(e, quote, c.open); }
    BuyIsLargestStake(e, r, c, largest);
    StakeIsAligned(e, quote, c.open, q);
    if q > 0.0 { ValidatorKeepsPlannedQuantity(c.symbol, q, c.open, e.filters); }
  }

  lemma SaleCounts(e: Env, r: Run, time: int, quantity: real, reference: real, reason: ExitReason)
    requires r.openTrade.Some?
    ensures var x := ApplyExit(e, r, time, quantity, reference, reason);
            x.Ok? ==> && Silent(r, x.value) && x.value.diag == r.diag.(gapLosses := x.value.diag.gapLosses)
                      && |x.value.trades| > 0 && x.value.trades == r.trades + [Last(x.value.trades)]
                      && x.value.openTrade.None?
                      && var t := Last(x.value.trades);
                         && t.exitTime == time && t.reason == reason && t.quantity == quantity
                         && t.exitReference == reference
  {
  }

  lemma ExitTallies(e: Env, r: Run, c: Candle)
    requires ValidEnv(e) && Tallied(r) && r.pending == Exit && StepAligned(r.portfolio.base, e.filters.stepSize)
    requires r.portfolio.base > 0.0 ==> r.openTrade.Some?
    ensures var x := ResolveExit(e, r.(pending := Hold), c); x.Ok? ==> Tallied(x.value)
  {
    hide Tallied, CodeOf, EvaluateRisk, SellQuantity, ValidateOrder, ApplyExit, Drawdown;
    var q := r.(pending := Hold);
    var sized, x := SellQuantity(q.portfolio.base, c.open, e.filters), ResolveExit(e, q, c);
    SaleLeavesNoDust(q.portfolio.base, c.open, e.filters);
    if sized.Err? {
      SizingRefused(r, x.value, c.openTime, Exit, BySizer(sized.error));
    } else {
      var risk, valid := RiskGate(e, q, c, Exit, sized.value), ValidationGate(e, c, sized.value);
      if risk.Some? {
        GateRefused(r, x.value, c.openTime, Exit, risk.value, Activation(c.openTime, 0.0, 0.0));
      } else if valid.Err? {
        ValidatorRefused(r, x.value, c.openTime, Exit, valid.error);
      } else if x.Ok? {
        SaleCounts(e, AfterGates(q, c, Exit), c.openTime, valid.value, c.open, StrategyExit);
        OrderFilled(r, x.value, c.openTime, Exit);
      }
    }
  }

  lemma ResolveTallies(e: Env, start: real, r: Run, c: Candle)
    requires ValidEnv(e) && Inv(e, start, r) && Priced(c) && Tallied(r)
    ensures var x := Resolve(e, r, c); x.Ok? ==> Tallied(x.value)
  {
    var q := r.(peak := Max(r.peak, Equity(r.portfolio, c.open)));
    SamePlace(r, q);
    if r.pending == Exit { ExitTallies(e, q, c); }
    if r.pending == Buy { BuyTallies(e, q, c); }
    hide Tallied, ResolveBuy, ResolveExit, Inv;
  }

  lemma SamePlace(r: Run, x: Run)
    requires Tallied(r) && x.journal == r.journal && x.diag == r.diag && x.trades == r.trades
    requires x.openTrade == r.openTrade && x.pending == r.pending
    ensures Tallied(x)
  {
    hide Tally, FirstTime, LastTime, Closings;
  }

  lemma BuyTallies(e: Env, r: Run, c: Candle)
    requires ValidEnv(e) && Tallied(r) && r.pending == Buy && c.open > 0.0
    requires Portfolio.Valid(r.portfolio) && r.portfolio.side == Flat && r.openTrade.None?
    ensures var x := ResolveBuy(e, r.(pending := Hold), c); x.Ok? ==> Tallied(x.value)
  {
    hide Tallied, ResolveBuy, SizeBuy, RiskGate, ValidationGate;
    var sized := SizeBuy(e, r, c);
    if sized.Err? {
      BuySizingRefused(e, r, c);
    } else if RiskGate(e, r, c, Buy, sized.value).Some? {
      BuyGateRefused(e, r, c, sized.value);
    } else {
      SizedIsKept(e, r, c);
      BuyValidated(e, r, c, sized.value);
    }
  }

  lemma OtherEntryTallies(r: Run, x: Run, entry: JournalEntry)
    requires Tallied(r) && entry.payload.FillPayload? && x.journal == r.journal + [entry]
    requires x.pending == r.pending && x.diag == r.diag.(gapLosses := x.diag.gapLosses)
    requires |x.trades| > 0 && x.trades == r.trades + [Last(x.trades)] && r.openTrade.Some? && x.openTrade.None?
    requires Closes(entry) && TellsClosing(Last(x.trades), entry)
    ensures Tallied(x)
  {
    hide Tally, FirstTime, LastTime, CodeOf, Closings;
    EntryAppends(r.journal, entry);
  }

  lemma ProtectTallies(e: Env, start: real, r: Run, c: Candle)
    requires ValidEnv(e) && Inv(e, start, r) && Tallied(r)
    ensures var x := Protect(e, r, c); x.Ok? ==> Tallied(x.value)
  {
    hide Tallied, ApplyExit;
    if r.portfolio.side == Long && r.stop.Some? {
      var quantity, reference := r.portfolio.base, Min(r.stop.value, c.open);
      var x := Protect(e, r, c);
      if c.low <= r.stop.value {
        SaleCounts(e, r, c.openTime, quantity, reference, StopLoss);
        if x.Ok? {
          OtherEntryTallies(r, x.value, JournalEntry(StopEntry, c.openTime, FillPayload(reference, quantity)));
        }
      } else if e.fixedRiskReward && r.target.Some? && c.high >= r.target.value {
        SaleCounts(e, r, c.openTime, quantity, r.target.value, TakeProfit);
        if x.Ok? {
          OtherEntryTallies(r, x.value,
                            JournalEntry(TakeProfitEntry, c.openTime, FillPayload(r.target.value, quantity)));
        }
      }
    }
  }

  lemma CloseTallies(e: Env, r: Run, history: seq<Candle>)
    requires history != [] && Tallied(r) && r.pending == Hold
    ensures Tallied(CloseCandle(e, r, history))
  {
    hide Tally, FirstTime, LastTime, CodeOf, Closings;
    var signal := e.strategy(history, r.portfolio.side);
    EntryAppends(r.journal, JournalEntry(SignalEntry, Last(history).closeTime, SignalPayload(signal)));
  }

  lemma BeginTallies(r: Run, c: Candle)
    requires Tallied(r)
    ensures Tallied(BeginCandle(r, c))
  {
    SamePlace(r, BeginCandle(r, c));
  }

  lemma StepTallies(e: Env, start: real, r: Run, history: seq<Candle>)
    requires ValidEnv(e) && Inv(e, start, r) && history != [] && Priced(Last(history)) && Tallied(r)
    ensures var x := Step(e, r, history); x.Ok? ==> Tallied(x.value)
  {
    hide Tallied, Inv, Resolve, Protect, CloseCandle, BeginCandle;
    var c := Last(history);
    var b := BeginCandle(r, c);
    BeginKeepsInv(e, start, r, c);
    BeginTallies(r, c);
    ResolveTallies(e, start, b, c);
    ResolveKeepsInv(e, start, b, c);
    var filled := Resolve(e, b, c);
    if filled.Ok? {
      ProtectTallies(e, start, filled.value, c);
      ProtectKeepsInv(e, start, filled.value, c);
      CloseTallies(e, Protect(e, filled.value, c).value, history);
    }
  }

  lemma NothingTallied(start: real)
    ensures Tallied(InitialRun(start))
  {
  }

  /**
   * After every run the diagnostics say exactly what the journal says: every signal and every refusal is counted under
   * its code, with the first and last time a risk gate refused; every signal but the last is decided on the next
   * candle, gate after gate; and every order let through is an entry, each of them a closed trade or the open one.
   */
  lemma {:induction false} DiagnosticsTellTheJournal(e: Env, start: real, minRequired: nat, candles: seq<Candle>)
    requires ValidEnv(e) && start > 0.0 && minRequired > 0 && AllPriced(candles)
    ensures var x := RunSegment(e, start, minRequired, candles); x.Ok? ==> Tallied(x.value)
  {
    hide Tallied, Inv, Step;
    if |candles| < minRequired {
      NothingTallied(start);
    } else {
      DiagnosticsTellTheJournal(e, start, minRequired, DropLast(candles));
      RunKeepsInv(e, start, minRequired, DropLast(candles));
      var r := RunSegment(e, start, minRequired, DropLast(candles));
      if r.Ok? { StepTallies(e, start, r.value, candles); }
    }
  }

  /**
   * The summary of a shutdown code says what the journal says: its first and last refusal, how many entries it blocked,
   * whether any was let through since, and for how long it held.
   */
  lemma ShutdownSummaryTellsTheJournal(e: Env, start: real, minRequired: nat, candles: seq<Candle>, code: RiskCode,
                                       endTime: int)
    requires ValidEnv(e) && start > 0.0 && minRequired > 0 && AllPriced(candles)
    requires var x := RunSegment(e, start, minRequired, candles);
             x.Ok? && FirstTime(x.value.journal, RefusedByGate(code)).Some?
    ensures var r := RunSegment(e, start, minRequired, candles).value;
            var first, last := FirstTime(r.journal, RefusedByGate(code)).value,
                               LastTime(r.journal, RefusedByGate(code));
            var bought := LastTime(r.journal, Ordered(Buy));
            && code in r.diag.firstActivation
            && var s := SummarizeShutdown(r.diag, code, endTime);
               && s.activation == r.diag.firstActivation[code] && s.activation.time == first
               && last == Some(s.lastActive) && s.blocked == Tally(r.journal, RefusedAs(RiskCodeName(code)))
               && (s.remainedLatched <==> bought.None? || bought.value < first)
               && s.duration == (if s.remainedLatched then endTime else s.lastActive) - first
  {
    hide Inv, Tally, FirstTime, LastTime, RunSegment;
    DiagnosticsTellTheJournal(e, start, minRequired, candles);
    var r := RunSegment(e, start, minRequired, candles).value;
    assert CountOf(r.diag.rejected, RiskCodeName(code)) == Tally(r.journal, RefusedAs(RiskCodeName(code)));
  }

  /** No two risk gates report under one name. */
  lemma RiskCodesAreDistinct(a: RiskCode, b: RiskCode)
    requires RiskCodeName(a) == RiskCodeName(b)
    ensures a == b
  {
  }
}
