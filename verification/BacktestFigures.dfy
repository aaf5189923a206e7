// The figures the entry gates are judged by, derived from a run's trades and candles alone: the fills and the result
// of the day, and what is left of the pause after a loss.

module BacktestFigures {
  import opened Common
  import opened ExchangeFilters
  import opened Portfolio
  import opened RiskReward
  import opened Sizing
  import opened Backtest
  import opened BacktestInvariant
  import opened GapDetection

  function DayOf(time: int): int {
    time / (24 * 60 * 60 * 1000)
  }

  lemma DaysRise(earlier: int, later: int)
    requires earlier <= later
    ensures DayOf(earlier) <= DayOf(later)
  {
  }

  // ----- What one candle may fill -------------------------------------------------------------------------

  /** Nothing was filled between two moments of one candle. */
  predicate Unfilled(before: Run, after: Run) {
    && after.trades == before.trades && after.openTrade == before.openTrade && after.portfolio == before.portfolio
    && after.currentDay == before.currentDay && after.dailyStart == before.dailyStart
    && after.tradesToday == before.tradesToday && after.dailyPnl == before.dailyPnl && after.cooldown == before.cooldown
    && after.diag.executedEntries == before.diag.executedEntries
  }

  predicate Entered(before: Run, after: Run, time: int) {
    && before.openTrade.None? && after.openTrade.Some? && after.openTrade.value.entryTime == time
    && after.trades == before.trades
    && after.currentDay == before.currentDay && after.dailyStart == before.dailyStart
    && after.tradesToday == before.tradesToday + 1
    && after.dailyPnl == before.dailyPnl && after.cooldown == before.cooldown
    && after.diag.executedEntries == before.diag.executedEntries + 1
  }

  predicate Exited(e: Env, before: Run, after: Run, time: int) {
    && before.openTrade.Some? && after.openTrade.None?
    && |after.trades| > 0 && after.trades == before.trades + [Last(after.trades)]
    && Last(after.trades).entryTime == before.openTrade.value.entryTime && Last(after.trades).exitTime == time
    && after.currentDay == before.currentDay && after.dailyStart == before.dailyStart
    && after.tradesToday == before.tradesToday + 1
    && after.dailyPnl == before.dailyPnl + DailyShare(Last(after.trades).pnl, before.dailyStart)
    && after.cooldown == (if Last(after.trades).pnl < 0.0 then e.risk.cooldownBars else before.cooldown)
    && after.diag.executedEntries == before.diag.executedEntries
  }

  lemma ExitIsExited(e: Env, r: Run, time: int, quantity: real, reference: real, reason: ExitReason)
    requires r.openTrade.Some?
    ensures var x := ApplyExit(e, r, time, quantity, reference, reason); x.Ok? ==> Exited(e, r, x.value, time)
  {
  }

  lemma BuyFills(e: Env, r: Run, c: Candle)
    requires ValidCosts(e.costs) && ValidFilters(e.filters) && r.openTrade.None?
    ensures var x := ResolveBuy(e, r, c); x.Ok? ==> Unfilled(r, x.value) || Entered(r, x.value, c.openTime)
  {
    hide PlanEntry, RiskBasedBuyQuantity, EvaluateRisk, ValidateOrder, ApplyBuy, BuildRealizedPlan;
  }

  lemma ResolveFills(e: Env, start: real, r: Run, c: Candle)
    requires ValidEnv(e) && Inv(e, start, r)
    ensures var x := Resolve(e, r, c);
            x.Ok? ==> Unfilled(r, x.value) || (r.pending == Buy && Entered(r, x.value, c.openTime))
                      || (r.pending == Exit && Exited(e, r, x.value, c.openTime))
  {
    hide ResolveBuy, ResolveExit, ApplyExit;
    var q := r.(peak := Max(r.peak, Equity(r.portfolio, c.open)), pending := Hold);
    match r.pending
    case Hold =>
    case Buy => BuyFills(e, q, c);
    case Exit =>
      ExitSignalSellsAllOrNothing(e, q, c);
      if r.portfolio.base > 0.0 {
        ExitIsExited(e, AfterGates(q, c, Exit), c.openTime, r.portfolio.base, c.open, StrategyExit);
      }
  }

  lemma ProtectFills(e: Env, start: real, r: Run, c: Candle)
    requires ValidEnv(e) && Inv(e, start, r)
    ensures var x := Protect(e, r, c); x.Ok? ==> Unfilled(r, x.value) || Exited(e, r, x.value, c.openTime)
  {
    hide ApplyExit, ValidEnv;
    if r.portfolio.side == Long && r.stop.Some? {
      ExitIsExited(e, r, c.openTime, r.portfolio.base, Min(r.stop.value, c.open), StopLoss);
      if r.target.Some? { ExitIsExited(e, r, c.openTime, r.portfolio.base, r.target.value, TakeProfit); }
    }
  }

  // ----- The figures --------------------------------------------------------------------------------------

  function On(time: int, day: int): nat {
    if DayOf(time) == day then 1 else 0
  }

  /** Entries and exits of the closed trades on a day. */
  function ClosedFills(trades: seq<Trade>, day: int): nat {
    if trades == [] then 0
    else ClosedFills(DropLast(trades), day) + On(Last(trades).entryTime, day) + On(Last(trades).exitTime, day)
  }

  function FillsOn(r: Run, day: int): nat {
    ClosedFills(r.trades, day) + if r.openTrade.Some? then On(r.openTrade.value.entryTime, day) else 0
  }

  /** The results of the trades closed on a day, as shares of the equity the day started with. */
  function ResultOn(trades: seq<Trade>, day: int, dayStart: real): real {
    if trades == [] then 0.0
    else ResultOn(DropLast(trades), day, dayStart)
         + if DayOf(Last(trades).exitTime) == day && dayStart > 0.0 then Last(trades).pnl / dayStart else 0.0
  }

  ghost predicate LossAt(trades: seq<Trade>, time: int) {
    exists t :: t in trades && t.pnl < 0.0 && t.exitTime == time
  }

  /** The last loss was on candle `j`; `left` candles of the pause after it remain. */
  ghost predicate PauseLeft(trades: seq<Trade>, candles: seq<Candle>, pause: int, j: nat, left: int) {
    && j < |candles| && LossAt(trades, candles[j].openTime)
    && (forall k | j < k < |candles| :: !LossAt(trades, candles[k].openTime))
    && left == Larger(0, pause - (|candles| - 1 - j))
  }

  ghost predicate CoolsDown(trades: seq<Trade>, candles: seq<Candle>, pause: int, left: int) {
    if forall k | 0 <= k < |candles| :: !LossAt(trades, candles[k].openTime) then left == 0
    else exists j: nat :: PauseLeft(trades, candles, pause, j, left)
  }

  /** The counters a run carries are what its trades and candles say, on the day of the last candle. */
  ghost predicate FiguresFit(e: Env, r: Run, candles: seq<Candle>, dayStart: real)
    requires candles != []
  {
    var day := DayOf(Last(candles).openTime);
    && r.currentDay == Some(day) && r.dailyStart == dayStart
    && r.tradesToday == FillsOn(r, day) && r.dailyPnl == ResultOn(r.trades, day, dayStart)
    && CoolsDown(r.trades, candles, e.risk.cooldownBars, r.cooldown)
  }

  ghost predicate FilledBy(r: Run, time: int) {
    && (forall t | t in r.trades :: t.entryTime <= time && t.exitTime <= time)
    && (r.openTrade.Some? ==> r.openTrade.value.entryTime <= time)
  }

  lemma UnfilledKeepsFigures(e: Env, before: Run, after: Run, candles: seq<Candle>, dayStart: real)
    requires candles != [] && FiguresFit(e, before, candles, dayStart) && FilledBy(before, Last(candles).openTime)
    requires Unfilled(before, after)
    ensures FiguresFit(e, after, candles, dayStart) && FilledBy(after, Last(candles).openTime)
  {
  }

  lemma EntryKeepsFigures(e: Env, before: Run, after: Run, candles: seq<Candle>, dayStart: real)
    requires candles != [] && FiguresFit(e, before, candles, dayStart) && FilledBy(before, Last(candles).openTime)
    requires Entered(before, after, Last(candles).openTime)
    ensures FiguresFit(e, after, candles, dayStart) && FilledBy(after, Last(candles).openTime)
  {
    hide CoolsDown, ResultOn, ClosedFills;
  }

  lemma LossAppends(trades: seq<Trade>, t: Trade, time: int)
    ensures LossAt(trades + [t], time) <==> LossAt(trades, time) || (t.pnl < 0.0 && t.exitTime == time)
  {
    assert t in trades + [t];
  }

  lemma ExitKeepsPause(trades: seq<Trade>, t: Trade, candles: seq<Candle>, pause: int, left: int)
    requires candles != [] && pause >= 0 && t.exitTime == Last(candles).openTime
    requires CoolsDown(trades, candles, pause, left)
    ensures CoolsDown(trades + [t], candles, pause, if t.pnl < 0.0 then pause else left)
  {
    hide LossAt;
    forall time ensures LossAt(trades + [t], time) <==> LossAt(trades, time) || (t.pnl < 0.0 && t.exitTime == time) {
      LossAppends(trades, t, time);
    }
    if t.pnl < 0.0 {
      assert PauseLeft(trades + [t], candles, pause, |candles| - 1, pause);
    } else if j: nat :| PauseLeft(trades, candles, pause, j, left) {
      assert PauseLeft(trades + [t], candles, pause, j, left);
    }
  }

  lemma ExitKeepsFigures(e: Env, before: Run, after: Run, candles: seq<Candle>, dayStart: real)
    requires candles != [] && FiguresFit(e, before, candles, dayStart) && FilledBy(before, Last(candles).openTime)
    requires e.risk.cooldownBars >= 0 && Exited(e, before, after, Last(candles).openTime)
    ensures FiguresFit(e, after, candles, dayStart) && FilledBy(after, Last(candles).openTime)
  {
    hide CoolsDown;
    var t := Last(after.trades);
    assert DropLast(after.trades) == before.trades;
    ExitKeepsPause(before.trades, t, candles, e.risk.cooldownBars, before.cooldown);
  }

  // ----- A new candle -------------------------------------------------------------------------------------

  lemma {:induction false} NothingOnALaterDay(trades: seq<Trade>, time: int, day: int, dayStart: real)
    requires (forall t | t in trades :: t.entryTime <= time && t.exitTime <= time) && DayOf(time) < day
    ensures ClosedFills(trades, day) == 0 && ResultOn(trades, day, dayStart) == 0.0
  {
    if trades != [] {
      NothingOnALaterDay(DropLast(trades), time, day, dayStart);
      assert Last(trades) in trades;
      DaysRise(Last(trades).entryTime, time);
      DaysRise(Last(trades).exitTime, time);
    }
  }

  lemma PauseShortens(trades: seq<Trade>, candles: seq<Candle>, c: Candle, pause: int, left: int)
    requires CoolsDown(trades, candles, pause, left)
    requires forall t | t in trades :: t.exitTime < c.openTime
    ensures CoolsDown(trades, candles + [c], pause, if left > 1 then left - 1 else 0)
  {
    assert !LossAt(trades, c.openTime);
    hide LossAt;
    var longer := candles + [c];
    if forall k | 0 <= k < |candles| :: !LossAt(trades, candles[k].openTime) {
      assert forall k | 0 <= k < |longer| :: !LossAt(trades, longer[k].openTime);
    } else {
      var j: nat :| PauseLeft(trades, candles, pause, j, left);
      assert longer[j] == candles[j];
      assert PauseLeft(trades, longer, pause, j, if left > 1 then left - 1 else 0);
    }
  }

  /** What the day started with: the account at the open of the day's first candle. */
  function StartOfDay(r: Run, dayStart: real, sameDay: bool, c: Candle): real {
    if sameDay then dayStart else r.portfolio.quote + r.portfolio.base * c.open
  }

  lemma BeginningKeepsFigures(e: Env, r: Run, candles: seq<Candle>, c: Candle, dayStart: real)
    requires candles != [] && FiguresFit(e, r, candles, dayStart) && FilledBy(r, Last(candles).openTime)
    requires Last(candles).openTime < c.openTime
    ensures var sameDay := DayOf(Last(candles).openTime) == DayOf(c.openTime);
            && FiguresFit(e, BeginCandle(r, c), candles + [c], StartOfDay(r, dayStart, sameDay, c))
            && FilledBy(BeginCandle(r, c), c.openTime)
  {
    hide CoolsDown, ClosedFills, ResultOn;
    var time, day := Last(candles).openTime, DayOf(c.openTime);
    DaysRise(time, c.openTime);
    PauseShortens(r.trades, candles, c, e.risk.cooldownBars, r.cooldown);
    if DayOf(time) != day {
      NothingOnALaterDay(r.trades, time, day, StartOfDay(r, dayStart, false, c));
      if r.openTrade.Some? { DaysRise(r.openTrade.value.entryTime, time); }
    }
  }

  lemma FirstCandleBegins(e: Env, start: real, candles: seq<Candle>)
    requires candles != []
    ensures FiguresFit(e, BeginCandle(InitialRun(start), Last(candles)), candles, start)
    ensures FilledBy(BeginCandle(InitialRun(start), Last(candles)), Last(candles).openTime)
  {
  }

  // ----- Over a whole run ---------------------------------------------------------------------------------

  /** Candle `k` is the first simulated one of the last candle's day. */
  ghost predicate OpensDay(candles: seq<Candle>, minRequired: nat, k: nat) {
    && 0 < minRequired <= k + 1 <= |candles|
    && DayOf(candles[k].openTime) == DayOf(Last(candles).openTime)
    && (k >= minRequired ==> DayOf(candles[k - 1].openTime) < DayOf(candles[k].openTime))
  }

  /** The account of the run so far at the open of candle `k`. */
  function AccountAtOpen(e: Env, start: real, minRequired: nat, candles: seq<Candle>, k: nat): real
    requires ValidCosts(e.costs) && ValidFilters(e.filters) && minRequired > 0 && k < |candles|
  {
    match RunSegment(e, start, minRequired, candles[..k])
    case Err(_) => 0.0
    case Ok(r) => r.portfolio.quote + r.portfolio.base * candles[k].open
  }

  predicate Simulated(e: Env, start: real, minRequired: nat, candles: seq<Candle>) {
    && start > 0.0 && 0 < minRequired <= |candles| && AllPriced(candles) && Increasing(candles)
  }

  lemma StepKeepsFigures(e: Env, start: real, r: Run, history: seq<Candle>, dayStart: real)
    requires ValidEnv(e) && Inv(e, start, r) && history != [] && Priced(Last(history))
    requires FiguresFit(e, BeginCandle(r, Last(history)), history, dayStart)
    requires FilledBy(BeginCandle(r, Last(history)), Last(history).openTime)
    ensures var x := Step(e, r, history);
            x.Ok? ==> FiguresFit(e, x.value, history, dayStart) && FilledBy(x.value, Last(history).openTime)
  {
    hide FiguresFit, FilledBy, Inv, Resolve, Protect;
    var c := Last(history);
    var b := BeginCandle(r, c);
    BeginKeepsInv(e, start, r, c);
    ResolveFills(e, start, b, c);
    ResolveKeepsInv(e, start, b, c);
    var filled := Resolve(e, b, c);
    if filled.Ok? {
      FillKeepsFigures(e, b, filled.value, history, dayStart);
      ProtectFills(e, start, filled.value, c);
      ProtectKeepsInv(e, start, filled.value, c);
      var guarded := Protect(e, filled.value, c).value;
      FillKeepsFigures(e, filled.value, guarded, history, dayStart);
      UnfilledKeepsFigures(e, guarded, CloseCandle(e, guarded, history), history, dayStart);
    }
  }

  lemma BeginKeepsInv(e: Env, start: real, r: Run, c: Candle)
    requires Inv(e, start, r)
    ensures Inv(e, start, BeginCandle(r, c))
  {
    assert BooksOf(BeginCandle(r, c)) == BooksOf(r);
  }

  lemma FillKeepsFigures(e: Env, before: Run, after: Run, candles: seq<Candle>, dayStart: real)
    requires candles != [] && FiguresFit(e, before, candles, dayStart) && FilledBy(before, Last(candles).openTime)
    requires e.risk.cooldownBars >= 0
    requires || Unfilled(before, after) || Entered(before, after, Last(candles).openTime)
             || Exited(e, before, after, Last(candles).openTime)
    ensures FiguresFit(e, after, candles, dayStart) && FilledBy(after, Last(candles).openTime)
  {
    hide FiguresFit, FilledBy;
    if Unfilled(before, after) {
      UnfilledKeepsFigures(e, before, after, candles, dayStart);
    } else if Entered(before, after, Last(candles).openTime) {
      EntryKeepsFigures(e, before, after, candles, dayStart);
    } else {
      ExitKeepsFigures(e, before, after, candles, dayStart);
    }
  }

  /**
   * When a candle opens, before anything is filled, the counters are what the trades and candles so far say: the fills
   * and the result of the UTC day, measured by the account at that day's first open, and the pause after the last loss.
   */
  lemma {:induction false} FiguresAtTheOpen(e: Env, start: real, minRequired: nat, candles: seq<Candle>, k: nat)
    requires ValidEnv(e) && Simulated(e, start, minRequired, candles) && OpensDay(candles, minRequired, k)
    ensures var x := RunSegment(e, start, minRequired, DropLast(candles)); var c := Last(candles);
            x.Ok? ==> FiguresFit(e, BeginCandle(x.value, c), candles, AccountAtOpen(e, start, minRequired, candles, k))
                      && FilledBy(BeginCandle(x.value, c), c.openTime)
    decreases |candles|, 0
  {
    hide FiguresFit, FilledBy, BeginCandle, Step, RunSegment, Inv, OpensDay, AccountAtOpen, DayOf;
    var before, c := DropLast(candles), Last(candles);
    if |candles| == minRequired {
      RunBegins(e, start, minRequired, candles, k);
      FirstCandleBegins(e, start, candles);
    } else {
      var x := RunSegment(e, start, minRequired, before);
      var j := if DayOf(Last(before).openTime) == DayOf(c.openTime) then k else FirstOfDay(before, minRequired);
      DayCarries(e, start, minRequired, candles, k, j);
      FiguresAtTheClose(e, start, minRequired, before, j);
      if x.Ok? {
        BeginningKeepsFigures(e, x.value, before, c, AccountAtOpen(e, start, minRequired, before, j));
        assert before + [c] == candles;
      }
    }
  }

  lemma RunBegins(e: Env, start: real, minRequired: nat, candles: seq<Candle>, k: nat)
    requires ValidEnv(e) && |candles| == minRequired && OpensDay(candles, minRequired, k)
    ensures RunSegment(e, start, minRequired, DropLast(candles)) == Ok(InitialRun(start))
    ensures AccountAtOpen(e, start, minRequired, candles, k) == start
  {
    assert candles[..k] == DropLast(candles);
  }

  /** The day's first candle and its account stay what they were, or the new candle is the first of its day. */
  lemma DayCarries(e: Env, start: real, minRequired: nat, candles: seq<Candle>, k: nat, j: nat)
    requires ValidEnv(e) && Simulated(e, start, minRequired, candles) && OpensDay(candles, minRequired, k)
    requires minRequired < |candles|
    requires var sameDay := DayOf(candles[|candles| - 2].openTime) == DayOf(Last(candles).openTime);
             if sameDay then j == k else OpensDay(DropLast(candles), minRequired, j)
    ensures var before, x := DropLast(candles), RunSegment(e, start, minRequired, DropLast(candles));
            var sameDay := DayOf(Last(before).openTime) == DayOf(Last(candles).openTime);
            && Simulated(e, start, minRequired, before) && Last(before).openTime < Last(candles).openTime
            && OpensDay(before, minRequired, j) && j < |before|
            && (x.Ok? ==>
                  AccountAtOpen(e, start, minRequired, candles, k)
                  == StartOfDay(x.value, AccountAtOpen(e, start, minRequired, before, j), sameDay, Last(candles)))
  {
    hide RunSegment;
    var before, n := DropLast(candles), |candles| - 1;
    DaysOfIncreasing(candles);
    assert candles[..n] == before;
    assert forall i | 0 <= i < n :: DayOf(candles[i].openTime) <= DayOf(candles[n - 1].openTime);
    if DayOf(candles[n - 1].openTime) == DayOf(candles[n].openTime) {
      assert k < n;
      assert before[..k] == candles[..k];
    }
  }

  /** And the same once the candle is over. */
  lemma {:induction false} FiguresAtTheClose(e: Env, start: real, minRequired: nat, candles: seq<Candle>, k: nat)
    requires ValidEnv(e) && Simulated(e, start, minRequired, candles) && OpensDay(candles, minRequired, k)
    ensures var x := RunSegment(e, start, minRequired, candles);
            x.Ok? ==> FiguresFit(e, x.value, candles, AccountAtOpen(e, start, minRequired, candles, k))
                      && FilledBy(x.value, Last(candles).openTime)
    decreases |candles|, 1
  {
    hide FiguresFit, FilledBy, BeginCandle, Step, Inv;
    var r := RunSegment(e, start, minRequired, DropLast(candles));
    FiguresAtTheOpen(e, start, minRequired, candles, k);
    RunKeepsInv(e, start, minRequired, DropLast(candles));
    if r.Ok? {
      StepKeepsFigures(e, start, r.value, candles, AccountAtOpen(e, start, minRequired, candles, k));
    }
  }

  function FirstOfDay(candles: seq<Candle>, minRequired: nat): (k: nat)
    requires 0 < minRequired <= |candles| && Increasing(candles)
    ensures OpensDay(candles, minRequired, k)
  {
    var n := |candles| - 1;
    DaysOfIncreasing(candles);
    if n >= minRequired && DayOf(candles[n - 1].openTime) == DayOf(candles[n].openTime)
    then FirstOfDay(DropLast(candles), minRequired) else n
  }

  lemma DaysOfIncreasing(candles: seq<Candle>)
    requires Increasing(candles)
    ensures forall i, j | 0 <= i <= j < |candles| :: DayOf(candles[i].openTime) <= DayOf(candles[j].openTime)
  {
  }

  // ----- The peak -----------------------------------------------------------------------------------------

  /** Every value the account has been marked at: at the start, at each open with a signal to fill, at each close. */
  function Marks(e: Env, start: real, minRequired: nat, candles: seq<Candle>): seq<real>
    requires ValidCosts(e.costs) && ValidFilters(e.filters) && minRequired > 0
  {
    if |candles| < minRequired then [start] else
    var before, c := Marks(e, start, minRequired, DropLast(candles)), Last(candles);
    var r, x := RunSegment(e, start, minRequired, DropLast(candles)), RunSegment(e, start, minRequired, candles);
    if r.Err? || x.Err? then before else
    (if r.value.pending == Hold then before else before + [Equity(r.value.portfolio, c.open)])
    + [Equity(x.value.portfolio, c.close)]
  }

  ghost predicate Highest(peak: real, marks: seq<real>) {
    peak in marks && forall m | m in marks :: m <= peak
  }

  lemma HigherMark(peak: real, marks: seq<real>, mark: real)
    requires Highest(peak, marks)
    ensures Highest(Max(peak, mark), marks + [mark])
  {
  }

  lemma StepMovesPeak(e: Env, start: real, r: Run, history: seq<Candle>)
    requires ValidEnv(e) && Inv(e, start, r) && history != [] && Priced(Last(history))
    ensures var x, c := Step(e, r, history), Last(history);
            x.Ok? ==> x.value.peak
                      == Max(if r.pending == Hold then r.peak else Max(r.peak, Equity(r.portfolio, c.open)),
                             Equity(x.value.portfolio, c.close))
  {
    var c := Last(history);
    var b := BeginCandle(r, c);
    BeginKeepsInv(e, start, r, c);
    var q := b.(peak := Max(b.peak, Equity(b.portfolio, c.open)), pending := Hold);
    BuyCarriesPeak(e, q, c);
    ExitSignalCarriesOn(e, q, c);
    hide ResolveBuy, ResolveExit, Inv, ApplyExit;
    var filled := Resolve(e, b, c);
    if filled.Ok? { ProtectKeepsPeak(e, filled.value, c); }
  }

  lemma ProtectKeepsPeak(e: Env, r: Run, c: Candle)
    ensures var x := Protect(e, r, c); x.Ok? ==> x.value.peak == r.peak
  {
  }

  /** The peak that drawdowns are measured from is the highest value the account has been marked at. */
  lemma {:induction false} PeakIsHighestMark(e: Env, start: real, minRequired: nat, candles: seq<Candle>)
    requires ValidEnv(e) && start > 0.0 && minRequired > 0 && AllPriced(candles)
    ensures var x := RunSegment(e, start, minRequired, candles);
            x.Ok? ==> Highest(x.value.peak, Marks(e, start, minRequired, candles))
  {
    hide Inv, Step, Highest;
    if |candles| < minRequired {
      StartIsHighest(start);
    } else {
      var before, c := DropLast(candles), Last(candles);
      PeakIsHighestMark(e, start, minRequired, before);
      RunKeepsInv(e, start, minRequired, before);
      var r, x := RunSegment(e, start, minRequired, before), RunSegment(e, start, minRequired, candles);
      if r.Ok? && x.Ok? {
        StepMovesPeak(e, start, r.value, candles);
        var marks, opening := Marks(e, start, minRequired, before), Equity(r.value.portfolio, c.open);
        var closing := Equity(x.value.portfolio, c.close);
        MarksGrow(e, start, minRequired, candles, opening, closing);
        if r.value.pending != Hold {
          HigherMark(r.value.peak, marks, opening);
          HigherMark(Max(r.value.peak, opening), marks + [opening], closing);
        } else {
          HigherMark(r.value.peak, marks, closing);
        }
      }
    }
  }

  lemma MarksGrow(e: Env, start: real, minRequired: nat, candles: seq<Candle>, opening: real, closing: real)
    requires ValidEnv(e) && 0 < minRequired <= |candles|
    requires var r := RunSegment(e, start, minRequired, DropLast(candles));
             r.Ok? && opening == Equity(r.value.portfolio, Last(candles).open)
    requires var x := RunSegment(e, start, minRequired, candles);
             x.Ok? && closing == Equity(x.value.portfolio, Last(candles).close)
    ensures var r := RunSegment(e, start, minRequired, DropLast(candles)).value;
            var marks := Marks(e, start, minRequired, DropLast(candles));
            Marks(e, start, minRequired, candles)
            == (if r.pending != Hold then marks + [opening] else marks) + [closing]
  {
    hide Step;
  }

  lemma StartIsHighest(start: real)
    ensures Highest(start, [start])
  {
  }
}
