// Why the replay of a bootstrapped segment starts its decisions a few hours after the boundary
// (shadow/bootstrap.py): every BUY signal it can record belongs to a setup formed after the boundary.

module SettlingBuffer {
  import opened Common
  import opened ExchangeFilters
  import opened RiskReward
  import opened Backtest
  import opened ShadowReplay
  import opened ShadowStore
  import opened ShadowSchedule
  import opened ShadowEngine
  import ShadowSession
  import opened GapDetection
  import opened Grid
  import opened Buckets
  import opened MultiTimeframe

  /** The run's strategy is the multi-timeframe breakout wherever that one has enough history. */
  ghost predicate RunsBreakout(e: Env) {
    forall h, side | |h| >= MIN_REQUIRED :: Signal(h, side) == Ok(e.strategy(h, side))
  }

  predicate BuySignal(x: JournalEntry) {
    x.kind == SignalEntry && x.payload == SignalPayload(Buy)
  }

  /** What the run must have journalled at the close of its `n`-th candle, had it reached that candle. */
  ghost function AnswerAt(e: Env, start: real, minRequired: nat, candles: seq<Candle>, n: nat): JournalEntry
    requires ValidCosts(e.costs) && ValidFilters(e.filters) && minRequired > 0 && 0 < n <= |candles|
  {
    JournalEntry(SignalEntry, candles[n - 1].closeTime,
                 SignalPayload(e.strategy(candles[..n], RunTo(e, start, minRequired, candles, n).portfolio.side)))
  }

  /** The entry is the answer to some prefix of at least the required length. */
  ghost predicate IsAnAnswer(e: Env, start: real, minRequired: nat, candles: seq<Candle>, x: JournalEntry)
    requires ValidCosts(e.costs) && ValidFilters(e.filters) && minRequired > 0
  {
    exists n :: minRequired <= n <= |candles| && x == AnswerAt(e, start, minRequired, candles, n)
  }

  /** The stages of one candle. */
  lemma StepParts(e: Env, r: Run, history: seq<Candle>) returns (filled: Run, guarded: Run)
    requires ValidCosts(e.costs) && ValidFilters(e.filters) && |history| > 0 && Step(e, r, history).Ok?
    ensures Resolve(e, BeginCandle(r, Last(history)), Last(history)) == Ok(filled)
    ensures Protect(e, filled, Last(history)) == Ok(guarded)
    ensures Step(e, r, history).value == CloseCandle(e, guarded, history)
  {
    hide Resolve, Protect, BeginCandle, CloseCandle;
    filled := Resolve(e, BeginCandle(r, Last(history)), Last(history)).value;
    guarded := Protect(e, filled, Last(history)).value;
  }

  /** Closing a candle journals exactly the strategy's answer to what is visible, for the position then held. */
  lemma CloseSignals(e: Env, guarded: Run, history: seq<Candle>)
    requires |history| > 0
    ensures var x := CloseCandle(e, guarded, history);
            && x.portfolio == guarded.portfolio
            && x.journal == guarded.journal + [JournalEntry(SignalEntry, Last(history).closeTime,
                                                            SignalPayload(e.strategy(history, x.portfolio.side)))]
  {
  }

  /** One step adds one signal to the journal: the answer at its candle. */
  lemma StepSignals(e: Env, r: Run, history: seq<Candle>, x: JournalEntry)
    requires ValidCosts(e.costs) && ValidFilters(e.filters) && |history| > 0
    requires Step(e, r, history).Ok? && x.kind == SignalEntry
    ensures var after := Step(e, r, history).value;
            var answer := SignalPayload(e.strategy(history, after.portfolio.side));
            x in after.journal
            <==> x in r.journal || x == JournalEntry(SignalEntry, Last(history).closeTime, answer)
  {
    hide Step, Resolve, Protect, BeginCandle, CloseCandle, Adds;
    var c := Last(history);
    var filled, guarded := StepParts(e, r, history);
    ResolveAdds(e, BeginCandle(r, c), c);
    ProtectAdds(e, filled, c);
    BeginKeepsJournal(r, c);
    AddedBefore(filled.journal, guarded.journal, 3, 5, c, x);
    AddedBefore(r.journal, filled.journal, 0, 3, c, x);
    CloseSignals(e, guarded, history);
  }

  lemma BeginKeepsJournal(r: Run, c: Candle)
    ensures BeginCandle(r, c).journal == r.journal
  {
  }

  /** Filling and protective exits never journal a signal. */
  lemma AddedBefore(before: seq<JournalEntry>, after: seq<JournalEntry>, lo: nat, hi: nat, c: Candle, x: JournalEntry)
    requires Adds(before, after, lo, hi, c) && hi <= 5 && x.kind == SignalEntry
    ensures x in before <==> x in after
  {
  }

  /**
   * The signals of a run are exactly the strategy's answers, one for every candle from the required length on,
   * each to the candles visible then and for the position held then.
   */
  lemma {:induction false} SignalsAreTheAnswers(e: Env, start: real, minRequired: nat, candles: seq<Candle>,
                                                x: JournalEntry)
    requires ValidCosts(e.costs) && ValidFilters(e.filters) && minRequired > 0
    requires RunSegment(e, start, minRequired, candles).Ok? && x.kind == SignalEntry
    ensures x in RunSegment(e, start, minRequired, candles).value.journal
       <==> IsAnAnswer(e, start, minRequired, candles, x)
    decreases |candles|
  {
    if |candles| >= minRequired {
      hide Step, RunTo;
      var before := DropLast(candles);
      SignalsAreTheAnswers(e, start, minRequired, before, x);
      StepSignals(e, RunSegment(e, start, minRequired, before).value, candles, x);
      RunToEnd(e, start, minRequired, candles);
      forall n | minRequired <= n <= |before|
        ensures AnswerAt(e, start, minRequired, before, n) == AnswerAt(e, start, minRequired, candles, n)
      {
        AnswerOfPrefix(e, start, minRequired, candles, n);
      }
      assert candles[..|candles|] == candles;
      assert x == AnswerAt(e, start, minRequired, candles, |candles|) ==> IsAnAnswer(e, start, minRequired, candles, x);
    }
  }

  lemma RunToEnd(e: Env, start: real, minRequired: nat, candles: seq<Candle>)
    requires ValidCosts(e.costs) && ValidFilters(e.filters) && minRequired > 0
    requires RunSegment(e, start, minRequired, candles).Ok?
    ensures RunTo(e, start, minRequired, candles, |candles|) == RunSegment(e, start, minRequired, candles).value
  {
    assert candles[..|candles|] == candles;
  }

  lemma AnswerOfPrefix(e: Env, start: real, minRequired: nat, candles: seq<Candle>, n: nat)
    requires ValidCosts(e.costs) && ValidFilters(e.filters) && minRequired > 0 && 0 < n < |candles|
    ensures AnswerAt(e, start, minRequired, DropLast(candles), n) == AnswerAt(e, start, minRequired, candles, n)
  {
    assert DropLast(candles)[..n] == candles[..n];
  }

  // ----- The replay of a bootstrapped segment ----------------------------------------------------------------

  /** The history, the strategy and the costs of such a replay, and that it completes. */
  ghost predicate Replayed(e: Env, start: real, candles: seq<Candle>, warmup: nat, boundary: int) {
    && ValidCosts(e.costs) && ValidFilters(e.filters) && RunsBreakout(e)
    && WarmedUp(candles, warmup, boundary) && MIN_REQUIRED <= EffectiveMinRequired(warmup)
    && RunSegment(e, start, EffectiveMinRequired(warmup), candles).Ok?
  }

  /** The journal of the replay, and the position it holds after its first `n` candles. */
  ghost function ReplayJournal(e: Env, start: real, candles: seq<Candle>, warmup: nat): seq<JournalEntry>
    requires ValidCosts(e.costs) && ValidFilters(e.filters)
    requires RunSegment(e, start, EffectiveMinRequired(warmup), candles).Ok?
  {
    RunSegment(e, start, EffectiveMinRequired(warmup), candles).value.journal
  }

  ghost function SideAfter(e: Env, start: real, candles: seq<Candle>, warmup: nat, n: nat): PositionSide
    requires ValidCosts(e.costs) && ValidFilters(e.filters) && n <= |candles|
  {
    RunTo(e, start, EffectiveMinRequired(warmup), candles, n).portfolio.side
  }

  /** The setup closes with a four-hour candle that opened at or after the boundary. */
  ghost predicate PostBoundary(candles: seq<Candle>, boundary: int, s: Setup) {
    exists b :: b in CoveredCells(FOUR_H, candles) && b.lastHour == s.hour && b.candle.openTime >= boundary
  }

  /** Such a setup closes no earlier than the fourth hour from the boundary, and such a setup only. */
  lemma PostBoundaryHours(candles: seq<Candle>, warmup: nat, boundary: int, s: Setup)
    requires WarmedUp(candles, warmup, boundary) && s in Setups(candles)
    ensures PostBoundary(candles, boundary, s) <==> s.hour >= warmup + 3
  {
    hide CoveredCells, IsCell, WarmedUp, Setups;
    BucketsAreCells(FOUR_H, candles);
    var cells := CoveredCells(FOUR_H, candles);
    forall b | b in cells && b.lastHour == s.hour ensures b.candle.openTime >= boundary <==> s.hour >= warmup + 3 {
      var i :| 0 <= i < |cells| && cells[i] == b;
      CellsCountFromBoundary(candles, warmup, boundary, b);
      TimesMonotone(0, b.lastHour - 3 - warmup, HOUR_MS);
      TimesAdds(0, 0, HOUR_MS);
    }
    var b := BucketOfSetup(candles, s);
  }

  /**
   * The settling buffer loses nothing: every hour in the window of a setup formed after the boundary, the first
   * such setup included, is evaluated by the replay, for every warm-up length. With the weekly filter open and
   * no position held, the hour that confirms the setup is journalled as a BUY.
   */
  lemma PostBoundarySetupsKeepTheirWindow(e: Env, start: real, candles: seq<Candle>, warmup: nat, boundary: int,
                                          s: Setup, hour: nat)
    requires Replayed(e, start, candles, warmup, boundary)
    requires s in Setups(candles) && PostBoundary(candles, boundary, s) && Armed(s, hour) && hour < |candles|
    ensures EffectiveMinRequired(warmup) <= hour + 1
    ensures var answer := AnswerAt(e, start, EffectiveMinRequired(warmup), candles, hour + 1);
            answer in ReplayJournal(e, start, candles, warmup)
    ensures ConfirmationOf(candles, s) == Some(hour) && WeeklySeen(candles[..hour + 1])
            && SideAfter(e, start, candles, warmup, hour + 1) == Flat
            ==> BuyAt(candles, hour) in ReplayJournal(e, start, candles, warmup)
  {
    hide RunSegment, Signal, WarmedUp, Setups, ConfirmationOf, PostBoundary, RunTo, WeeklySeen;
    PostBoundaryHours(candles, warmup, boundary, s);
    var required, n := EffectiveMinRequired(warmup), hour + 1;
    var x := AnswerAt(e, start, required, candles, n);
    assert IsAnAnswer(e, start, required, candles, x);
    SignalsAreTheAnswers(e, start, required, candles, x);
    var side := SideAfter(e, start, candles, warmup, n);
    if ConfirmationOf(candles, s) == Some(hour) && WeeklySeen(candles[..n]) && side == Flat {
      WarmedUpIsHourly(candles, warmup, boundary);
      BuysExactlyAtFirstConfirmation(candles, n);
      assert SomeSetupConfirms(candles, n - 1);
      assert Signal(candles[..n], Flat) == Ok(e.strategy(candles[..n], Flat));
    }
  }

  /** The four-hour candle that opens at the boundary is the first of them: it is complete three hours later. */
  lemma FirstCellClosesAfterBoundary(candles: seq<Candle>, warmup: nat, boundary: int)
    requires WarmedUp(candles, warmup, boundary) && warmup + 4 <= |candles|
    ensures exists b :: b in CoveredCells(FOUR_H, candles) && b.lastHour == warmup + 3 && b.candle.openTime == boundary
  {
    var first := candles[..warmup + 4];
    ContiguousEndsCell(FOUR_H, candles, warmup + 4);
    LatestCell(first);
    hide CoveredCells, Complete, WarmedUp, CellStart;
    CoveredCellsPrefix(FOUR_H, candles, warmup + 4);
    var b := Bucket(Aggregate(first[warmup..]), warmup + 3);
    assert b in CoveredCells(FOUR_H, first) && b.candle.openTime == first[warmup].openTime;
  }

  lemma LatestCell(candles: seq<Candle>)
    requires |candles| >= 4 && EndsCell(FOUR_H, candles)
    ensures Bucket(Aggregate(candles[|candles| - 4..]), |candles| - 1) in CoveredCells(FOUR_H, candles)
  {
    hide Complete;
  }

  function BuyAt(candles: seq<Candle>, hour: nat): JournalEntry
    requires hour < |candles|
  {
    JournalEntry(SignalEntry, candles[hour].closeTime, SignalPayload(Buy))
  }

  /** This hour confirms a setup formed after the boundary, the weekly filter is open, and no position is held. */
  ghost predicate BuysAt(e: Env, start: real, candles: seq<Candle>, warmup: nat, boundary: int, hour: nat)
    requires ValidCosts(e.costs) && ValidFilters(e.filters) && hour < |candles|
  {
    && (exists s ::
          s in Setups(candles) && PostBoundary(candles, boundary, s) && ConfirmationOf(candles, s) == Some(hour))
    && WeeklySeen(candles[..hour + 1]) && SideAfter(e, start, candles, warmup, hour + 1) == Flat
  }

  lemma JournalledBuyIsPostBoundary(e: Env, start: real, candles: seq<Candle>, warmup: nat, boundary: int,
                                    x: JournalEntry)
    returns (hour: nat)
    requires Replayed(e, start, candles, warmup, boundary)
    requires x in ReplayJournal(e, start, candles, warmup) && BuySignal(x)
    ensures hour < |candles| && x == BuyAt(candles, hour) && BuysAt(e, start, candles, warmup, boundary, hour)
  {
    hide RunSegment, Signal, WarmedUp, Setups, ConfirmationOf, CoveredCells, RunTo, WeeklySeen;
    var required := EffectiveMinRequired(warmup);
    SignalsAreTheAnswers(e, start, required, candles, x);
    var n :| required <= n <= |candles| && x == AnswerAt(e, start, required, candles, n);
    hour := n - 1;
    var side := SideAfter(e, start, candles, warmup, n);
    assert Signal(candles[..n], side) == Ok(Buy);
    BuyingMeansFlat(candles[..n], side);
    var s, b := NoSetupIsCarriedOver(candles, warmup, boundary, n);
    assert PostBoundary(candles, boundary, s);
    WarmedUpIsHourly(candles, warmup, boundary);
    BuysExactlyAtFirstConfirmation(candles, n);
  }

  /**
   * In a replay of the bootstrapped segment, the journalled BUYs are exactly the first confirmations of setups
   * whose four-hour candle opened at or after the boundary, with the weekly filter open and no position held,
   * whatever the length of the warm-up: none is carried over from it and none is lost to the buffer.
   */
  lemma BuysAreExactlyPostBoundary(e: Env, start: real, candles: seq<Candle>, warmup: nat, boundary: int,
                                   x: JournalEntry)
    requires Replayed(e, start, candles, warmup, boundary) && BuySignal(x)
    ensures x in ReplayJournal(e, start, candles, warmup)
       <==> exists hour | 0 <= hour < |candles| ::
              x == BuyAt(candles, hour) && BuysAt(e, start, candles, warmup, boundary, hour)
  {
    ReplayedParts(e, start, candles, warmup, boundary);
    hide Replayed, BuysAt, RunSegment;
    if x in ReplayJournal(e, start, candles, warmup) {
      var hour := JournalledBuyIsPostBoundary(e, start, candles, warmup, boundary, x);
    }
    forall hour | 0 <= hour < |candles| && x == BuyAt(candles, hour)
                  && BuysAt(e, start, candles, warmup, boundary, hour)
      ensures x in ReplayJournal(e, start, candles, warmup)
    {
      ConfirmedIsJournalled(e, start, candles, warmup, boundary, hour);
    }
  }

  lemma ReplayedParts(e: Env, start: real, candles: seq<Candle>, warmup: nat, boundary: int)
    requires Replayed(e, start, candles, warmup, boundary)
    ensures ValidCosts(e.costs) && ValidFilters(e.filters)
    ensures RunSegment(e, start, EffectiveMinRequired(warmup), candles).Ok?
  {
  }

  lemma ConfirmedIsJournalled(e: Env, start: real, candles: seq<Candle>, warmup: nat, boundary: int, hour: nat)
    requires Replayed(e, start, candles, warmup, boundary) && hour < |candles|
    requires BuysAt(e, start, candles, warmup, boundary, hour)
    ensures BuyAt(candles, hour) in ReplayJournal(e, start, candles, warmup)
  {
    hide Setups, PostBoundary, ConfirmationOf, RunSegment;
    var s :| s in Setups(candles) && PostBoundary(candles, boundary, s) && ConfirmationOf(candles, s) == Some(hour);
    ConfirmedSetupIsArmed(candles, s, hour);
    PostBoundarySetupsKeepTheirWindow(e, start, candles, warmup, boundary, s, hour);
  }

  lemma BuyingMeansFlat(candles: seq<Candle>, side: PositionSide)
    requires Signal(candles, side) == Ok(Buy)
    ensures side == Flat
  {
  }

  // ----- What is stored --------------------------------------------------------------------------------------------

  /** The session's strategy, interval and boundary are those of the shadow run. */
  ghost predicate ShadowConfig(cfg: Config) {
    && RunsBreakout(cfg.env) && cfg.step == HOUR_MS && cfg.rawRequired >= MIN_REQUIRED
    && CellStart(FOUR_H, cfg.boundary) == cfg.boundary && Aligned(cfg.boundary, HOUR_MS)
  }

  ghost predicate SawFirstSegment(s: ShadowSession.Session, b: BootstrapState, k: nat)
    requires Runnable(PlanOf(s.cfg, b, s.history)) && ShadowSession.WarmupLength(s.cfg) <= |s.history|
    reads s
  {
    Stretch(0, k) in Seen(PlanOf(s.cfg, b, s.history), Shadow(ShadowSession.WarmupLength(s.cfg), NO_RESULTS), s.cycles)
  }

  /** The warm-up the bootstrap asks for makes the required length of the replay long enough for the strategy. */
  lemma BootstrapWarmupSuffices(strategyMinRequired: nat)
    requires strategyMinRequired >= MIN_REQUIRED
    ensures WarmupCount(strategyMinRequired) > 0
    ensures EffectiveMinRequired(WarmupCount(strategyMinRequired)) > MIN_REQUIRED
    ensures WarmupCount(MIN_REQUIRED) == 7611 && EffectiveMinRequired(WarmupCount(MIN_REQUIRED)) == 7616
  {
  }

  /** The bootstrapped segment, as far as completed cycles saw it, is a warmed-up history whose replay completes. */
  lemma FirstSegmentIsReplayed(cfg: Config, b: BootstrapState, history: seq<Candle>, k: nat)
    requires ShadowConfig(cfg) && HistoryOf(cfg, b, history) && b == BootstrapOf(cfg, b.at)
    requires WarmupCount(cfg.rawRequired) > 0
    requires history[0].openTime == cfg.boundary - Times(ShadowSession.WarmupLength(cfg), cfg.step)
    requires WholeStretch(PlanOf(cfg, b, history), Stretch(0, k))
    ensures Replayed(cfg.env, cfg.start, history[..k], ShadowSession.WarmupLength(cfg), cfg.boundary)
    ensures ReplayJournal(cfg.env, cfg.start, history[..k], ShadowSession.WarmupLength(cfg))
         == RunOver(PlanOf(cfg, b, history), 0, k).journal
  {
    hide RunSegment, RunsBreakout, RunTo, CellStart;
    var su, w, candles := PlanOf(cfg, b, history), ShadowSession.WarmupLength(cfg), history[..k];
    BootstrapWarmupSuffices(cfg.rawRequired);
    OneSegmentIsContiguous(candles, HOUR_MS);
    ContiguousTimes(candles, HOUR_MS, w);
    RunOverSucceeds(su, 0, k);
    assert history[0..] == history;
  }

  lemma StretchWithin(su: Plan, seen: seq<Stretch>, k: nat)
    requires Orderly(su, seen) && Stretch(0, k) in seen
    ensures k <= |su.history|
  {
    FirstIsFromZero(su, seen, k);
  }

  lemma ConfigCosts(cfg: Config, b: BootstrapState, history: seq<Candle>)
    requires HistoryOf(cfg, b, history)
    ensures ValidCosts(cfg.env.costs) && ValidFilters(cfg.env.filters)
  {
  }

  lemma HeldBuys(cfg: Config, b: BootstrapState, history: seq<Candle>, results: Results, seen: seq<Stretch>, k: nat,
                 hour: nat)
    requires ShadowConfig(cfg) && HistoryOf(cfg, b, history) && b == BootstrapOf(cfg, b.at)
    requires ValidCosts(cfg.env.costs) && ValidFilters(cfg.env.filters)
    requires WarmupCount(cfg.rawRequired) > 0
    requires history[0].openTime == cfg.boundary - Times(ShadowSession.WarmupLength(cfg), cfg.step)
    requires Orderly(PlanOf(cfg, b, history), seen) && HoldsSeen(PlanOf(cfg, b, history), results, seen)
    requires Stretch(0, k) in seen && hour < k <= |history|
    ensures var key := JournalKey(SignalEntry, history[hour].closeTime);
            key in results.journal && results.journal[key] == BuyAt(history[..k], hour)
            <==> BuysAt(cfg.env, cfg.start, history[..k], ShadowSession.WarmupLength(cfg), cfg.boundary, hour)
  {
    var su, w, candles := PlanOf(cfg, b, history), ShadowSession.WarmupLength(cfg), history[..k];
    FirstIsFromZero(su, seen, k);
    HourWithin(su, hour, k);
    FirstSegmentIsReplayed(cfg, b, history, k);
    HistoryIsChronological(cfg, b, history, k);
    hide HoldsSeen, BuysAt, ShadowConfig, ReplayJournal, Orderly, WholeStretch, RunOver, Replayed, HistoryOf, ValidPlan,
        Chronological;
    StoredEntryOfFirstStretch(su, results, seen, BuyAt(candles, hour));
    JournalledAtItsHour(cfg.env, cfg.start, candles, w, cfg.boundary, hour);
  }

  lemma HourWithin(su: Plan, hour: nat, k: nat)
    requires ValidPlan(su) && hour < k <= |su.history|
    ensures su.history[hour].closeTime <= Mark(su, k)
  {
    if hour + 1 < k { MarksRise(su, hour + 1, k); }
  }

  lemma HistoryIsChronological(cfg: Config, b: BootstrapState, history: seq<Candle>, k: nat)
    requires HistoryOf(cfg, b, history) && k <= |history|
    ensures ValidPlan(PlanOf(cfg, b, history)) && Chronological(history[..k])
  {
  }

  /** A BUY is journalled at its own hour and no other. */
  lemma JournalledAtItsHour(e: Env, start: real, candles: seq<Candle>, warmup: nat, boundary: int, hour: nat)
    requires Replayed(e, start, candles, warmup, boundary) && Chronological(candles) && hour < |candles|
    ensures ValidCosts(e.costs) && ValidFilters(e.filters)
    ensures RunSegment(e, start, EffectiveMinRequired(warmup), candles).Ok?
    ensures BuyAt(candles, hour) in ReplayJournal(e, start, candles, warmup)
       <==> BuysAt(e, start, candles, warmup, boundary, hour)
  {
    ReplayedParts(e, start, candles, warmup, boundary);
    hide BuysAt, Replayed, RunSegment;
    BuysAreExactlyPostBoundary(e, start, candles, warmup, boundary, BuyAt(candles, hour));
    forall h | 0 <= h < |candles| && BuyAt(candles, hour) == BuyAt(candles, h) ensures h == hour {}
  }

  /**
   * The BUYs stored for the bootstrapped segment, at every moment of a session and whatever else it has seen since,
   * are exactly those that confirm a setup formed after the boundary with the weekly filter open and no position
   * held.
   */
  lemma StoredBuysAreExactlyPostBoundary(s: ShadowSession.Session, k: nat, hour: nat)
    requires s.Valid() && s.shadow.bootstrap.Some? && ShadowConfig(s.cfg)
    requires SawFirstSegment(s, s.shadow.bootstrap.value, k) && hour < k
    ensures ValidCosts(s.cfg.env.costs) && ValidFilters(s.cfg.env.filters) && k <= |s.history|
    ensures var key := JournalKey(SignalEntry, s.history[hour].closeTime);
            key in s.shadow.journal && s.shadow.journal[key] == BuyAt(s.history[..k], hour)
            <==> BuysAt(s.cfg.env, s.cfg.start, s.history[..k], ShadowSession.WarmupLength(s.cfg), s.cfg.boundary, hour)
  {
    var b, w := s.shadow.bootstrap.value, ShadowSession.WarmupLength(s.cfg);
    var su, start := PlanOf(s.cfg, b, s.history), Shadow(w, NO_RESULTS);
    ShadowSession.PlanIsValid(s.cfg, b, s.history);
    hide HoldsSeen, BuysAt, RunsBreakout, WarmupIntact, StoredPrefix, Orderly, ShadowConfig, HistoryOf;
    TablesHoldWhatWasSeen(su, start, s.cycles);
    StretchWithin(su, Seen(su, start, s.cycles), k);
    ConfigCosts(s.cfg, b, s.history);
    HeldBuys(s.cfg, b, s.history, s.shadow.Contents(), Seen(su, start, s.cycles), k, hour);
  }

  lemma FirstIsFromZero(su: Plan, seen: seq<Stretch>, k: nat)
    requires Orderly(su, seen) && Stretch(0, k) in seen
    ensures seen[0] == Stretch(0, k) && WholeStretch(su, seen[0])
  {
    var i :| 0 <= i < |seen| && seen[i] == Stretch(0, k);
    assert WholeStretch(su, seen[0]);
  }
}
