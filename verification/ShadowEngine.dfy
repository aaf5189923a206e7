// One shadow cycle (shadow/engine.py) and the bootstrap it depends on (shadow/bootstrap.py): verify the
// warm-up, fetch and store what is new, recompute the latest gap-free segment, and commit what is past the
// high-water mark.

module ShadowEngine {
  import opened Common
  import opened Grid
  import opened ExchangeFilters
  import opened RiskReward
  import opened Sizing
  import opened Backtest
  import opened BacktestEngine
  import MultiTimeframe
  import opened GapDetection
  import opened HistoricalFetch
  import Candles = CandleStore
  import opened ShadowStore
  import opened ShadowReplay
  import opened ShadowSchedule

  const WARMUP_SAFETY_MARGIN := 48

  function WarmupCount(strategyMinRequired: nat): int {
    strategyMinRequired - 1 + WARMUP_SAFETY_MARGIN
  }

  function EffectiveMinRequired(warmupCount: int): int {
    warmupCount + MultiTimeframe.CONFIRMATION_WINDOW + 1
  }

  datatype Config = Config(series: Candles.Series, step: int, boundary: int, rawRequired: nat, env: Env, start: real)

  predicate ValidConfig(cfg: Config) {
    cfg.step > 0 && cfg.rawRequired > 0 && ValidCosts(cfg.env.costs) && ValidFilters(cfg.env.filters)
  }

  /** A recorded bootstrap asks for at least one warm-up candle. */
  predicate ValidBootstrap(b: Option<BootstrapState>) {
    b.Some? ==> b.value.warmupCount > 0 && b.value.effectiveMinRequired > 0
  }

  // ----- The decision of a cycle -------------------------------------------------------------------------------

  function RequiredLength(cfg: Config, b: BootstrapState, segment: seq<Candle>): nat
    requires segment != []
  {
    if segment[0].openTime == b.warmupStart then b.effectiveMinRequired else cfg.rawRequired
  }

  /** What a cycle leaves in the result tables, from every candle stored since the warm-up began. */
  function Decision(cfg: Config, b: BootstrapState, all: seq<Candle>, results: Results, now: int): Results
    requires ValidConfig(cfg) && ValidBootstrap(Some(b))
  {
    if all == [] then Touched(results, NoNewCandles, None, now)
    else if results.state.lastProcessed == Some(Last(all).closeTime) then
      Touched(results, NoNewCandles, results.state.segmentLength, now)
    else match Partition(all, cfg.step)
      case Err(_) => results
      case Ok(parts) =>
        var segment := Last(parts.segments);
        if segment == [] then results else
        var required := RequiredLength(cfg, b, segment);
        if |segment| < required then Touched(results, InsufficientData, Some(|segment|), now)
        else match RunSegment(cfg.env, cfg.start, required, segment)
          case Err(_) => results
          case Ok(r) =>
            Recorded(results, BatchOf(r, results.state.lastProcessed.GetOr(-1), Last(segment).closeTime, |segment|),
                     now)
  }

  // ----- Bootstrap ------------------------------------------------------------------------------------------------

  predicate WarmupIntact(warmup: seq<Candle>, b: BootstrapState, step: int)
    requires step > 0
  {
    && |warmup| == b.warmupCount > 0
    && warmup[0].openTime == b.warmupStart && Last(warmup).openTime == b.warmupLastOpen
    && Partition(warmup, step).Ok? && Partition(warmup, step).value.gaps == []
  }

  datatype Verification = NotBootstrapped | Broken | Intact(state: BootstrapState)

  /** Re-derives from the candles now stored that the recorded warm-up is still complete and gap-free. */
  method VerifyBootstrapComplete(cfg: Config, candles: Candles.CandleTables, shadow: ShadowTables)
    returns (v: Verification)
    requires cfg.step > 0 && Candles.Keyed(candles.Contents()) && ValidBootstrap(shadow.bootstrap)
    ensures v.NotBootstrapped? <==> shadow.bootstrap.None?
    ensures v.Intact? ==> shadow.bootstrap == Some(v.state)
    ensures shadow.bootstrap.Some? ==> forall warmup |
              Candles.Lists(candles.candles, cfg.series, Some(shadow.bootstrap.value.warmupStart),
                            Some(shadow.bootstrap.value.warmupLastOpen), warmup) ::
              v.Intact? <==> WarmupIntact(warmup, shadow.bootstrap.value, cfg.step)
  {
    if shadow.bootstrap.None? { return NotBootstrapped; }
    var b := shadow.bootstrap.value;
    var warmup := candles.GetCandles(cfg.series, Some(b.warmupStart), Some(b.warmupLastOpen));
    forall other | Candles.Lists(candles.candles, cfg.series, Some(b.warmupStart), Some(b.warmupLastOpen), other)
      ensures other == warmup
    {
      Candles.ListingIsUnique(candles.candles, cfg.series, Some(b.warmupStart), Some(b.warmupLastOpen), other, warmup);
    }
    if |warmup| != b.warmupCount { return Broken; }
    if warmup[0].openTime != b.warmupStart || Last(warmup).openTime != b.warmupLastOpen { return Broken; }
    var parts := PartitionIntoSegments(warmup, cfg.step);
    if parts.Err? || parts.value.gaps != [] { return Broken; }
    v := Intact(b);
  }

  datatype BootstrapStatus = BootstrapOk | AlreadyBootstrapped | GapInWarmup | InsufficientHistory | FetchFailed
                           | StoreFailed

  /** The warm-up range of the configured length that ends at the boundary. */
  function WarmupRange(cfg: Config, available: seq<Candle>): seq<Candle> {
    Window(available, WarmupStart(cfg), cfg.boundary)
  }

  function WarmupStart(cfg: Config): int {
    cfg.boundary - Times(WarmupCount(cfg.rawRequired), cfg.step)
  }

  function BootstrapOf(cfg: Config, now: int): BootstrapState
    requires WarmupCount(cfg.rawRequired) >= 0
  {
    var w := WarmupCount(cfg.rawRequired);
    BootstrapState(cfg.boundary - Times(w, cfg.step), cfg.boundary - cfg.step, w, EffectiveMinRequired(w), now)
  }

  /** Some page of the warm-up cannot be had. */
  ghost predicate WarmupPageFails(cfg: Config, available: seq<Candle>, pageLimit: int, maxRetries: nat,
                                  faults: Faults) {
    exists n: nat :: PageFails(WarmupRange(cfg, available), cfg.step, WarmupStart(cfg), cfg.boundary, pageLimit,
                               maxRetries, faults, n)
  }

  /** How a bootstrap attempt goes is decided by its requests and by what the exchange has of the range. */
  ghost function WarmupVerdict(cfg: Config, available: seq<Candle>, pageLimit: int, maxRetries: nat, faults: Faults)
    : BootstrapStatus
    requires cfg.step > 0 && WarmupCount(cfg.rawRequired) > 0
  {
    var range := WarmupRange(cfg, available);
    if WarmupPageFails(cfg, available, pageLimit, maxRetries, faults) then FetchFailed
    else if Segmented(HistoricalFetch.Completed(range, cfg.boundary), cfg.step).gaps != [] then GapInWarmup
    else if !WarmupIntact(range, BootstrapOf(cfg, 0), cfg.step) then InsufficientHistory
    else BootstrapOk
  }

  /** The warm-up is the contiguous range that ends at the boundary, or the error says why there is none. */
  method FetchWarmup(cfg: Config, available: seq<Candle>, pageLimit: int, maxRetries: nat, faults: Faults)
    returns (r: Result<seq<Candle>, BootstrapStatus>)
    requires ValidConfig(cfg) && pageLimit >= 1 && WarmupCount(cfg.rawRequired) > 0
    requires Increasing(available) && Spaced(available, cfg.step) && OnClock(available, cfg.step)
    ensures r.Ok? ==> r.value == WarmupRange(cfg, available) && Contiguous(r.value, cfg.step)
                      && WarmupIntact(r.value, BootstrapOf(cfg, 0), cfg.step)
    ensures WarmupVerdict(cfg, available, pageLimit, maxRetries, faults) == if r.Ok? then BootstrapOk else r.error
    ensures r.Err? ==> r.error in {InsufficientHistory, GapInWarmup, FetchFailed}
  {
    hide Window, HistoricalFetch.Completed, Segmented, Contiguous, OnClock, Spaced, Increasing, PageFails;
    var w := WarmupCount(cfg.rawRequired);
    var start := cfg.boundary - Times(w, cfg.step);
    var fetched := FetchHistoricalRange(available, cfg.step, start, cfg.boundary, pageLimit, maxRetries, cfg.boundary,
                                        faults);
    if fetched.Err? { return Err(FetchFailed); }
    var warmup := fetched.value.candles;
    CompletedStretch(available, cfg.step, start, cfg.boundary, cfg.boundary);
    IntactIsCompleted(cfg, available);
    if warmup == [] {
      NoGapsInNothing(cfg.step);
      return Err(InsufficientHistory);
    }
    AcceptedExactlyWhenIncreasing(warmup);
    var parts := PartitionIntoSegments(warmup, cfg.step);
    if parts.Err? || parts.value.gaps != [] { return Err(GapInWarmup); }
    if |warmup| != w || warmup[0].openTime != start || Last(warmup).openTime != cfg.boundary - cfg.step {
      return Err(InsufficientHistory);
    }
    NoGapsMeansContiguous(warmup, cfg.step);
    EverythingClosedByBoundary(available, cfg.step, start, cfg.boundary, warmup);
    r := Ok(warmup);
  }

  /**
   * Fetches and stores the warm-up once: either exactly the contiguous candles up to the boundary are stored
   * with their bootstrap row, or no bootstrap is recorded.
   */
  method RunShadowBootstrap(cfg: Config, available: seq<Candle>, pageLimit: int, maxRetries: nat, faults: Faults,
                            now: int, candles: Candles.CandleTables, shadow: ShadowTables)
    returns (status: BootstrapStatus)
    requires ValidConfig(cfg) && pageLimit >= 1 && WarmupCount(cfg.rawRequired) > 0
    requires Increasing(available) && Spaced(available, cfg.step) && OnClock(available, cfg.step)
    modifies candles`candles, shadow`warmup, shadow`bootstrap
    ensures status == AlreadyBootstrapped <==> old(shadow.bootstrap).Some?
    ensures old(shadow.bootstrap).None? ==>
              var verdict := WarmupVerdict(cfg, available, pageLimit, maxRetries, faults);
              status == if verdict == BootstrapOk && shadow.faultAt in {AfterWarmupCandles, BeforeCommit}
                        then StoreFailed else verdict
    ensures status != BootstrapOk ==> shadow.bootstrap == old(shadow.bootstrap) && shadow.warmup == old(shadow.warmup)
    ensures status !in {BootstrapOk, StoreFailed} ==> candles.candles == old(candles.candles)
    ensures status in {BootstrapOk, StoreFailed} ==> (
              var warmup := WarmupRange(cfg, available);
              && WarmupIntact(warmup, BootstrapOf(cfg, now), cfg.step) && Contiguous(warmup, cfg.step)
              && candles.candles == Candles.UpsertCandles(old(candles.candles), cfg.series, warmup))
    ensures status == BootstrapOk ==>
              && shadow.bootstrap == Some(BootstrapOf(cfg, now))
              && shadow.warmup == InsertMissing(old(shadow.warmup), WarmupRows(WarmupRange(cfg, available), now))
  {
    hide WarmupRange, Contiguous, Increasing, Spaced, OnClock, WarmupRows, Partition, WarmupVerdict;
    if shadow.bootstrap.Some? { return AlreadyBootstrapped; }
    var fetched := FetchWarmup(cfg, available, pageLimit, maxRetries, faults);
    if fetched.Err? { return fetched.error; }
    candles.Upsert(cfg.series, fetched.value);
    var committed := shadow.RecordBootstrapAtomically(fetched.value, BootstrapOf(cfg, now));
    status := if committed then BootstrapOk else StoreFailed;
  }

  /** A whole warm-up up to the boundary has closed by then. */
  lemma IntactIsCompleted(cfg: Config, available: seq<Candle>)
    requires ValidConfig(cfg) && WarmupCount(cfg.rawRequired) > 0
    requires Increasing(available) && Spaced(available, cfg.step) && OnClock(available, cfg.step)
    ensures var range := WarmupRange(cfg, available);
            WarmupIntact(range, BootstrapOf(cfg, 0), cfg.step) ==>
              HistoricalFetch.Completed(range, cfg.boundary) == range
  {
    hide Before, HistoricalFetch.Completed, Partition;
    WindowOnClock(available, cfg.step, WarmupStart(cfg), cfg.boundary);
    WindowIsExact(available, WarmupStart(cfg), cfg.boundary);
    var range := WarmupRange(cfg, available);
    CompletedIsPrefix(range, cfg.boundary);
    if WarmupIntact(range, BootstrapOf(cfg, 0), cfg.step) {
      assert Last(range) in range;
      assert Last(range).closeTime < cfg.boundary;
    }
  }

  lemma NoGapsMeansContiguous(candles: seq<Candle>, step: int)
    requires step > 0 && candles != [] && Segmented(candles, step).gaps == []
    ensures Contiguous(candles, step)
  {
  }

  /** If the completed candles reach the last slot before the boundary, none of the window was incomplete. */
  lemma EverythingClosedByBoundary(available: seq<Candle>, step: int, start: int, boundary: int, warmup: seq<Candle>)
    requires step > 0 && Increasing(available) && Spaced(available, step) && OnClock(available, step) && warmup != []
    requires warmup == HistoricalFetch.Completed(Window(available, start, boundary), boundary)
    requires Last(warmup).openTime == boundary - step
    ensures warmup == Window(available, start, boundary)
  {
    hide Before, HistoricalFetch.Completed;
    var window := Window(available, start, boundary);
    WindowIsExact(available, start, boundary);
    WindowOnClock(available, step, start, boundary);
    CompletedIsPrefix(window, boundary);
    WindowKeepsSpacing(available, step, start, boundary);
    LastSlotIsLast(window, step, boundary, |warmup|);
  }

  /** No candle fits between the last slot before the boundary and the boundary. */
  lemma LastSlotIsLast(window: seq<Candle>, step: int, boundary: int, n: nat)
    requires Spaced(window, step) && 0 < n <= |window| && window[n - 1].openTime == boundary - step
    requires forall c | c in window :: c.openTime < boundary
    ensures n == |window|
  {
    var next := OpenTimeAt(window, n);
  }

  function OpenTimeAt(candles: seq<Candle>, i: nat): int {
    if i < |candles| then candles[i].openTime else 0
  }

  // ----- One cycle --------------------------------------------------------------------------------------------------

  /** What a fetch without an end returns: the first completed candles from a time on. */
  function ServeFrom(market: seq<Candle>, from: int, limit: nat): seq<Candle> {
    var tail := market[Before(market, from)..];
    if |tail| <= limit then tail else tail[..limit]
  }

  function FetchStart(boundary: int, latest: Option<int>): int {
    match latest
    case None => boundary
    case Some(t) => if t + 1 > boundary then t + 1 else boundary
  }

  function FromBoundary(candles: seq<Candle>, boundary: int): (r: seq<Candle>)
    ensures forall c | c in r :: c in candles && c.openTime >= boundary
    ensures (forall c | c in candles :: c.openTime >= boundary) ==> r == candles
  {
    if candles == [] then []
    else
      assert Last(candles) in candles;
      FromBoundary(DropLast(candles), boundary) + if Last(candles).openTime >= boundary then [Last(candles)] else []
  }

  /** Where a cycle can be cut short: by the kill switch, a failed check, or a crash around its transaction. */
  datatype CycleEnd = KillSwitchEngaged | NotReady(verification: Verification) | StoppedAfterCandles | RolledBack
                    | Decided(status: CycleStatus) | Raised

  /** Candles newly fetched are committed on their own, before and apart from the cycle's results. */
  method StoreNewCandles(cfg: Config, market: seq<Candle>, limit: nat, candles: Candles.CandleTables)
    returns (added: seq<Candle>)
    modifies candles`candles
    ensures candles.candles == Candles.UpsertCandles(old(candles.candles), cfg.series, added)
    ensures forall c | c in added :: c.openTime >= cfg.boundary
    ensures forall latest: Option<int> | LatestClose(old(candles.candles), cfg.series, latest) ::
              added == FromBoundary(ServeFrom(market, FetchStart(cfg.boundary, latest), limit), cfg.boundary)
  {
    var latest := candles.LatestCloseTime(cfg.series);
    LatestIsUnique(candles.candles, cfg.series, latest);
    added := FromBoundary(ServeFrom(market, FetchStart(cfg.boundary, latest), limit), cfg.boundary);
    if added != [] { candles.Upsert(cfg.series, added); }
  }

  /** The latest close time stored for a series. */
  ghost predicate LatestClose(m: map<Candles.Key, Candle>, series: Candles.Series, latest: Option<int>) {
    match latest
    case None => forall k | k in m :: k.series != series
    case Some(t) =>
      && (exists k :: k in m && k.series == series && m[k].closeTime == t)
      && forall k | k in m && k.series == series :: m[k].closeTime <= t
  }

  lemma LatestIsUnique(m: map<Candles.Key, Candle>, series: Candles.Series, latest: Option<int>)
    requires LatestClose(m, series, latest)
    ensures forall other: Option<int> | LatestClose(m, series, other) :: other == latest
  {
  }

  /** Recomputes the latest segment and commits what is new; the contents of the tables decide everything. */
  method Decide(cfg: Config, b: BootstrapState, all: seq<Candle>, shadow: ShadowTables, now: int)
    returns (end: CycleEnd)
    requires ValidConfig(cfg) && ValidBootstrap(Some(b))
    modifies shadow`trades, shadow`equity, shadow`journal, shadow`state
    ensures end.Decided? || end.Raised? ==> shadow.Contents() == Decision(cfg, b, all, old(shadow.Contents()), now)
    ensures end.RolledBack? || end.Raised? ==> shadow.Contents() == old(shadow.Contents())
    ensures end.Decided? ==> shadow.state.status == end.status
    ensures end.Decided? || end.Raised? || (end.RolledBack? && shadow.faultAt != NoFault)
  {
    if all == [] {
      shadow.TouchCycle(NoNewCandles, None, now);
      return Decided(NoNewCandles);
    }
    if shadow.state.lastProcessed == Some(Last(all).closeTime) {
      shadow.TouchCycle(NoNewCandles, shadow.state.segmentLength, now);
      return Decided(NoNewCandles);
    }
    var parts := PartitionIntoSegments(all, cfg.step);
    if parts.Err? { return Raised; }
    var segment := Last(parts.value.segments);
    SegmentsAreMaximal(all, cfg.step);
    var required := RequiredLength(cfg, b, segment);
    if |segment| < required {
      shadow.TouchCycle(InsufficientData, Some(|segment|), now);
      return Decided(InsufficientData);
    }
    end := Replay(cfg, required, segment, shadow, now);
  }

  method Replay(cfg: Config, required: nat, segment: seq<Candle>, shadow: ShadowTables, now: int)
    returns (end: CycleEnd)
    requires ValidConfig(cfg) && 0 < required <= |segment|
    modifies shadow`trades, shadow`equity, shadow`journal, shadow`state
    ensures end.Decided? || end.Raised? ==>
              shadow.Contents() == match RunSegment(cfg.env, cfg.start, required, segment)
                                   case Err(_) => old(shadow.Contents())
                                   case Ok(r) => Recorded(old(shadow.Contents()),
                                                          BatchOf(r, old(shadow.state).lastProcessed.GetOr(-1),
                                                                  Last(segment).closeTime, |segment|), now)
    ensures end.RolledBack? || end.Raised? ==> shadow.Contents() == old(shadow.Contents())
    ensures end.Decided? ==> shadow.state.status == end.status
    ensures end.Decided? || end.Raised? || (end.RolledBack? && shadow.faultAt != NoFault)
  {
    var simulation, raised := SimulateSegment(cfg.env, segment, required, cfg.start);
    if raised.Some? { return Raised; }
    var threshold := shadow.state.lastProcessed.GetOr(-1);
    var batch := BatchOf(simulation.Value(), threshold, Last(segment).closeTime, |segment|);
    var committed := shadow.RecordCycleAtomically(batch, now);
    end := if committed then Decided(Processed) else RolledBack;
  }

  /** What a fetch leaves in the candle table, and what a cycle then reads back. */
  ghost predicate FetchedAndStored(cfg: Config, b: BootstrapState, market: seq<Candle>, limit: nat,
                                   m: map<Candles.Key, Candle>, m': map<Candles.Key, Candle>, added: seq<Candle>,
                                   all: seq<Candle>) {
    && m' == Candles.UpsertCandles(m, cfg.series, added)
    && (forall latest: Option<int> | LatestClose(m, cfg.series, latest) ::
          added == FromBoundary(ServeFrom(market, FetchStart(cfg.boundary, latest), limit), cfg.boundary))
    && Candles.Lists(m', cfg.series, Some(b.warmupStart), None, all)
  }

  /**
   * One whole cycle. Nothing is fetched or written before the bootstrap is verified; then the new candles are
   * committed; then, unless the process stops or the transaction rolls back, the results become those that
   * the stored candles decide.
   */
  method RunShadowCycle(cfg: Config, market: seq<Candle>, limit: nat, candles: Candles.CandleTables,
                        shadow: ShadowTables, killSwitch: bool, stopAfterCandles: bool, now: int)
    returns (end: CycleEnd, ghost added: seq<Candle>, ghost all: seq<Candle>)
    requires ValidConfig(cfg) && Candles.Keyed(candles.Contents()) && ValidBootstrap(shadow.bootstrap)
    modifies candles`candles, shadow`trades, shadow`equity, shadow`journal, shadow`state
    ensures end.KillSwitchEngaged? <==> killSwitch
    ensures end.KillSwitchEngaged? || end.NotReady? ==> candles.candles == old(candles.candles)
    ensures !killSwitch && shadow.bootstrap.None? ==> end.NotReady?
    ensures !killSwitch && shadow.bootstrap.Some? ==> forall warmup |
              Candles.Lists(old(candles.candles), cfg.series, Some(shadow.bootstrap.value.warmupStart),
                            Some(shadow.bootstrap.value.warmupLastOpen), warmup) ::
              end.NotReady? <==> !WarmupIntact(warmup, shadow.bootstrap.value, cfg.step)
    ensures end.StoppedAfterCandles? ==> stopAfterCandles
    ensures stopAfterCandles ==> end.KillSwitchEngaged? || end.NotReady? || end.StoppedAfterCandles?
    ensures end.RolledBack? ==> shadow.faultAt != NoFault
    ensures !end.Decided? ==> shadow.Contents() == old(shadow.Contents())
    ensures end.Decided? ==> shadow.state.status == end.status
    ensures !(end.KillSwitchEngaged? || end.NotReady?) ==>
              shadow.bootstrap.Some?
              && FetchedAndStored(cfg, shadow.bootstrap.value, market, limit, old(candles.candles), candles.candles,
                                  added, all)
    ensures end.Decided? || end.Raised? ==>
              shadow.Contents() == Decision(cfg, shadow.bootstrap.value, all, old(shadow.Contents()), now)
  {
    hide Decision, FromBoundary, ServeFrom, FetchStart, WarmupIntact, Candles.Lists;
    added, all := [], [];
    if killSwitch { return CycleEnd.KillSwitchEngaged, [], []; }
    var v := VerifyBootstrapComplete(cfg, candles, shadow);
    if !v.Intact? { return NotReady(v), [], []; }
    var fetched := StoreNewCandles(cfg, market, limit, candles);
    Candles.UpsertKeepsKeyed(old(candles.Contents()), cfg.series, fetched);
    var listed := candles.GetCandles(cfg.series, Some(v.state.warmupStart), None);
    added, all := fetched, listed;
    if stopAfterCandles {
      end := StoppedAfterCandles;
    } else {
      end := Decide(cfg, v.state, listed, shadow, now);
    }
  }

  // ----- A cycle of the engine is a cycle of the replay ------------------------------------------------------------

  function PlanOf(cfg: Config, b: BootstrapState, history: seq<Candle>): Plan {
    Plan(cfg.env, cfg.start, b.effectiveMinRequired, cfg.rawRequired, cfg.step, history)
  }

  /** The whole history from the warm-up on, as the exchange will have shown it, gaps and all. */
  ghost predicate HistoryOf(cfg: Config, b: BootstrapState, history: seq<Candle>) {
    && ValidConfig(cfg) && ValidBootstrap(Some(b)) && ValidPlan(PlanOf(cfg, b, history))
    && history != [] && history[0].openTime == b.warmupStart
  }

  lemma ChronologicalIncreasing(history: seq<Candle>)
    requires Chronological(history)
    ensures Increasing(history)
  {
  }

  lemma LastSegmentOf(history: seq<Candle>, step: int, k: nat)
    requires step > 0 && Increasing(history) && 0 < k <= |history|
    ensures var all, a := history[..k], LastStart(history[..k], step);
            && Partition(all, step).Ok? && Last(Partition(all, step).value.segments) == history[a..k]
            && history[a..k] != [] && Last(history[a..k]) == history[k - 1] && history[a..k][0] == history[a]
  {
    hide OrderError, Segmented, LastStart;
    var all, a := history[..k], LastStart(history[..k], step);
    AcceptedExactlyWhenIncreasing(all);
    LastSegmentStarts(all, step);
    assert all[a..] == history[a..k];
  }

  /** The last segment of what is stored, and what it requires: only the one that starts the warm-up has warm-up. */
  lemma PrefixPartitioned(cfg: Config, b: BootstrapState, history: seq<Candle>, k: nat)
    requires HistoryOf(cfg, b, history) && 0 < k <= |history|
    ensures var all, su := history[..k], PlanOf(cfg, b, history);
            var segment := history[StartOf(su, k)..k];
            && Partition(all, cfg.step).Ok? && Last(Partition(all, cfg.step).value.segments) == segment
            && segment != [] && Last(segment) == history[k - 1]
            && RequiredLength(cfg, b, segment) == RequiredFrom(su, StartOf(su, k))
  {
    ChronologicalIncreasing(history);
    LastSegmentOf(history, cfg.step, k);
    var a := LastStart(history[..k], cfg.step);
    assert a > 0 ==> history[0].openTime < history[a].openTime;
  }

  /** The run of the last segment of the stored candles, under the length its start requires. */
  lemma PrefixRun(cfg: Config, b: BootstrapState, history: seq<Candle>, k: nat)
    requires HistoryOf(cfg, b, history) && 0 < k <= |history|
    ensures var su := PlanOf(cfg, b, history);
            var a := StartOf(su, k);
            RunSegment(cfg.env, cfg.start, RequiredFrom(su, a), history[a..k]) == Ok(RunOver(su, a, k))
  {
    hide RunSegment, RunTo, StartOf;
    var su := PlanOf(cfg, b, history);
    var a := StartOf(su, k);
    RunOverSucceeds(su, a, k);
    assert history[a..][..k - a] == history[a..k];
  }

  /** The engine's decision over what is stored is the replay's, gaps included. */
  lemma DecisionIsProcessing(cfg: Config, b: BootstrapState, history: seq<Candle>, k: nat, results: Results, now: int)
    requires HistoryOf(cfg, b, history) && k <= |history|
    ensures Decision(cfg, b, history[..k], results, now) == Processing(PlanOf(cfg, b, history), k, results, now)
  {
    if k > 0 {
      PrefixPartitioned(cfg, b, history, k);
      PrefixRun(cfg, b, history, k);
      hide RunSegment, RunOver, BatchOf, Recorded, Partition, StartOf;
      assert Last(history[..k]) == history[k - 1];
    }
  }

  /** What is stored: the first `k` candles since the warm-up, and only earlier ones besides. */
  ghost predicate StoredPrefix(cfg: Config, b: BootstrapState, history: seq<Candle>, m: map<Candles.Key, Candle>,
                               k: nat) {
    && 0 < k <= |history|
    && Candles.Lists(m, cfg.series, Some(b.warmupStart), None, history[..k])
    && (forall key | key in m && key.series == cfg.series && key.openTime < b.warmupStart ::
        m[key].closeTime < b.warmupStart)
  }

  lemma LatestOfPrefix(cfg: Config, b: BootstrapState, history: seq<Candle>, m: map<Candles.Key, Candle>, k: nat)
    requires HistoryOf(cfg, b, history) && StoredPrefix(cfg, b, history, m, k)
    ensures LatestClose(m, cfg.series, Some(history[k - 1].closeTime))
  {
  }

  lemma TimesAround(market: seq<Candle>, k: nat)
    requires Chronological(market) && 0 < k <= |market|
    ensures market[k - 1].openTime < market[k - 1].closeTime + 1
    ensures k < |market| ==> market[k - 1].closeTime + 1 <= market[k].openTime
  {
  }

  /** A page that starts right after a candle closes is the candles after it. */
  lemma NextFrom(market: seq<Candle>, k: nat, limit: nat)
    requires Chronological(market) && 0 < k <= |market|
    ensures var n := Smaller(|market| - k, limit);
            ServeFrom(market, market[k - 1].closeTime + 1, limit) == market[k..k + n]
  {
    ChronologicalIncreasing(market);
    TimesAround(market, k);
    hide Chronological, Before, Increasing;
    BeforeIs(market, market[k - 1].closeTime + 1, k);
    var n := Smaller(|market| - k, limit);
    assert market[k..][..n] == market[k..k + n];
  }

  /** What the exchange shows: candles from before the warm-up, and the first `n` of the history. */
  predicate Shows(older: seq<Candle>, history: seq<Candle>, market: seq<Candle>, n: nat) {
    n <= |history| && market == older + history[..n] && Chronological(older + history)
  }

  lemma PrefixChronological(candles: seq<Candle>, n: nat)
    requires Chronological(candles) && n <= |candles|
    ensures Chronological(candles[..n])
  {
  }

  lemma NextAreLater(candles: seq<Candle>, k: nat, n: nat, time: int)
    requires Chronological(candles) && 0 < k && k + n <= |candles| && time <= candles[k - 1].closeTime + 1
    ensures forall c | c in candles[k..k + n] :: c.openTime >= time
  {
  }

  lemma PageOf(market: seq<Candle>, k: nat, limit: nat, boundary: int)
    requires Chronological(market) && 0 < k <= |market| && boundary <= market[k - 1].closeTime + 1
    ensures FromBoundary(ServeFrom(market, FetchStart(boundary, Some(market[k - 1].closeTime)), limit), boundary)
         == market[k..k + Smaller(|market| - k, limit)]
  {
    hide ServeFrom, FromBoundary, Chronological;
    var n := Smaller(|market| - k, limit);
    NextFrom(market, k, limit);
    NextAreLater(market, k, n, boundary);
    FromBoundaryKeeps(market[k..k + n], boundary);
  }

  /** The visible candles from the history's `k`-th on, by their place in what the exchange shows. */
  lemma ShownAt(older: seq<Candle>, history: seq<Candle>, market: seq<Candle>, shown: nat, k: nat, n: nat)
    requires Shows(older, history, market, shown) && 0 < k && k + n <= shown
    ensures Chronological(market) && |market| == |older| + shown
    ensures market[|older| + k - 1] == history[k - 1]
    ensures market[|older| + k..|older| + k + n] == history[k..k + n]
  {
    var whole := older + history;
    assert market == whole[..|older| + shown];
    PrefixChronological(whole, |older| + shown);
  }

  /** A fetch continues the stored prefix of the history without a hole. */
  lemma FetchContinues(cfg: Config, older: seq<Candle>, history: seq<Candle>, market: seq<Candle>, shown: nat, k: nat,
                       limit: nat)
    requires Shows(older, history, market, shown) && 0 < k <= shown <= |history|
    requires cfg.boundary <= history[k - 1].closeTime + 1
    ensures var start := FetchStart(cfg.boundary, Some(history[k - 1].closeTime));
            var n := Smaller(shown - k, limit);
            FromBoundary(ServeFrom(market, start, limit), cfg.boundary) == history[k..k + n]
  {
    hide ServeFrom, FromBoundary, Chronological, Shows;
    var at, n := |older| + k, Smaller(shown - k, limit);
    ShownAt(older, history, market, shown, k, n);
    PageOf(market, at, limit, cfg.boundary);
    assert |market| - at == shown - k;
  }

  lemma FromBoundaryKeeps(candles: seq<Candle>, boundary: int)
    requires forall c | c in candles :: c.openTime >= boundary
    ensures FromBoundary(candles, boundary) == candles
  {
  }

  /** Adding the next candles keeps the store a prefix. */
  lemma PrefixGrows(cfg: Config, b: BootstrapState, history: seq<Candle>, m: map<Candles.Key, Candle>, k: nat, n: nat)
    requires HistoryOf(cfg, b, history) && StoredPrefix(cfg, b, history, m, k) && k + n <= |history|
    ensures StoredPrefix(cfg, b, history, Candles.UpsertCandles(m, cfg.series, history[k..k + n]), k + n)
  {
    var listed, added := history[..k], history[k..k + n];
    assert listed + added == history[..k + n];
    ChronologicalIncreasing(history);
    forall c | c in added ensures c.openTime >= b.warmupStart {
      var i :| 0 <= i < |history| && history[i] == c;
    }
    Candles.UpsertAppends(m, cfg.series, Some(b.warmupStart), listed, added);
    var u := Candles.UpsertCandles(m, cfg.series, added);
    forall key | key in u && key.series == cfg.series && key.openTime < b.warmupStart
      ensures u[key].closeTime < b.warmupStart
    {
      Candles.UpsertedAt(m, cfg.series, added, key);
    }
  }

  /** A fetch stores exactly the next candles the exchange shows. */
  lemma FetchKeepsPrefix(cfg: Config, b: BootstrapState, older: seq<Candle>, history: seq<Candle>, market: seq<Candle>,
                         shown: nat, limit: nat, m: map<Candles.Key, Candle>, m': map<Candles.Key, Candle>,
                         added: seq<Candle>, all: seq<Candle>, k: nat)
    requires HistoryOf(cfg, b, history) && StoredPrefix(cfg, b, history, m, k)
    requires FetchedAndStored(cfg, b, market, limit, m, m', added, all)
    requires Shows(older, history, market, shown) && k <= shown && cfg.boundary <= history[k - 1].closeTime + 1
    ensures var n := Smaller(shown - k, limit);
            StoredPrefix(cfg, b, history, m', k + n) && all == history[..k + n]
  {
    hide HistoryOf, FromBoundary, ServeFrom, FetchStart, Candles.Lists, Shows;
    var n := Smaller(shown - k, limit);
    LatestOfPrefix(cfg, b, history, m, k);
    ShownWithin(older, history, market, shown);
    FetchContinues(cfg, older, history, market, shown, k, limit);
    PrefixGrows(cfg, b, history, m, k, n);
    ListedIsPrefix(cfg, b, history, m', k + n, all);
  }

  lemma ShownWithin(older: seq<Candle>, history: seq<Candle>, market: seq<Candle>, shown: nat)
    requires Shows(older, history, market, shown)
    ensures shown <= |history|
  {
  }

  lemma ListedIsPrefix(cfg: Config, b: BootstrapState, history: seq<Candle>, m: map<Candles.Key, Candle>, k: nat,
                       all: seq<Candle>)
    requires StoredPrefix(cfg, b, history, m, k)
    requires Candles.Lists(m, cfg.series, Some(b.warmupStart), None, all)
    ensures all == history[..k]
  {
    Candles.ListingIsUnique(m, cfg.series, Some(b.warmupStart), None, all, history[..k]);
  }
}
