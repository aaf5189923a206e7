// The shadow run over its lifetime: bootstrap attempts and cycles, in any order and cut short anywhere, over the
// tables they share. The session's invariant ties those tables to the replay of its cycles, so what holds of
// every schedule holds of the stored rows.

module ShadowSession {
  import opened Common
  import opened Grid
  import opened RiskReward
  import opened Backtest
  import opened BacktestInvariant
  import opened GapDetection
  import opened HistoricalFetch
  import Candles = CandleStore
  import opened ShadowStore
  import opened ShadowReplay
  import opened ShadowSchedule
  import opened ShadowEngine

  function WarmupLength(cfg: Config): nat {
    if WarmupCount(cfg.rawRequired) > 0 then WarmupCount(cfg.rawRequired) else 0
  }

  /**
   * What the exchange will have shown: candles from before the warm-up, then the history from the warm-up's
   * first slot on. Only the candles' own times are assumed; gaps are allowed anywhere.
   */
  ghost predicate WellPosed(cfg: Config, older: seq<Candle>, history: seq<Candle>) {
    && ValidConfig(cfg) && ValidEnv(cfg.env) && cfg.env.fixedRiskReward && cfg.start > 0.0
    && WarmupCount(cfg.rawRequired) > 0
    && AllPriced(history) && Chronological(older + history) && OnClock(older + history, cfg.step)
    && history != [] && history[0].openTime == cfg.boundary - Times(WarmupLength(cfg), cfg.step)
  }

  /** Which outcome of the replay an end of a cycle is. */
  function OutcomeOf(end: CycleEnd): Outcome {
    match end
    case KillSwitchEngaged => NothingStored
    case NotReady(_) => NothingStored
    case StoppedAfterCandles => Interrupted
    case RolledBack => Interrupted
    case Decided(_) => Finished
    case Raised => Finished
  }

  /**
   * Before the bootstrap is recorded the store holds no more of the series than warm-up candles that an attempt
   * left behind, and candles from before the warm-up.
   */
  ghost predicate NothingBeyondWarmup(cfg: Config, history: seq<Candle>, m: map<Candles.Key, Candle>) {
    forall key | key in m && key.series == cfg.series ::
      KeptAt(history, WarmupLength(cfg), key.openTime, m[key]) || Earlier(history, key.openTime, m[key])
  }

  predicate Earlier(history: seq<Candle>, time: int, c: Candle) {
    history != [] && time < history[0].openTime && c.closeTime < history[0].openTime
  }

  predicate KeptAt(history: seq<Candle>, n: nat, time: int, c: Candle) {
    exists i :: 0 <= i < n && i < |history| && history[i].openTime == time && history[i] == c
  }

  /** A stored prefix that reaches the boundary, under the bootstrap of this configuration. */
  ghost predicate Bootstrapped(cfg: Config, b: BootstrapState, history: seq<Candle>, m: map<Candles.Key, Candle>,
                               k: nat) {
    && b == BootstrapOf(cfg, b.at) && HistoryOf(cfg, b, history) && StoredPrefix(cfg, b, history, m, k)
    && WarmupLength(cfg) <= k && WarmupIntact(history[..WarmupLength(cfg)], b, cfg.step)
  }

  // ----- What the exchange shows -------------------------------------------------------------------------------

  lemma SuffixChronological(older: seq<Candle>, history: seq<Candle>)
    requires Chronological(older + history)
    ensures Chronological(history)
  {
    var whole := older + history;
    assert forall i | 0 <= i < |history| :: history[i] == whole[|older| + i];
  }

  lemma ShownMarket(cfg: Config, older: seq<Candle>, history: seq<Candle>, market: seq<Candle>, n: nat)
    requires WellPosed(cfg, older, history) && Shows(older, history, market, n)
    ensures Chronological(market) && Increasing(market) && Spaced(market, cfg.step) && OnClock(market, cfg.step)
  {
    var whole := older + history;
    assert market == whole[..|older| + n];
    PrefixChronological(whole, |older| + n);
    ChronologicalIncreasing(market);
    ClockSpaces(market, cfg.step);
  }

  lemma ClockSpaces(candles: seq<Candle>, step: int)
    requires Chronological(candles) && OnClock(candles, step)
    ensures Spaced(candles, step)
  {
  }

  /** The history is one the replay is about, for the bootstrap this configuration records. */
  lemma WellPosedHistory(cfg: Config, older: seq<Candle>, history: seq<Candle>, now: int)
    requires WellPosed(cfg, older, history)
    ensures HistoryOf(cfg, BootstrapOf(cfg, now), history) && Runnable(PlanOf(cfg, BootstrapOf(cfg, now), history))
  {
    SuffixChronological(older, history);
  }

  lemma OlderOpensEarlier(older: seq<Candle>, history: seq<Candle>)
    requires Chronological(older + history) && history != []
    ensures older != [] ==> older[|older| - 1].openTime < history[0].openTime
  {
    var whole := older + history;
    assert older != [] ==> whole[|older| - 1] == older[|older| - 1];
    assert whole[|older|] == history[0];
  }

  lemma WindowStartsHistory(older: seq<Candle>, history: seq<Candle>, market: seq<Candle>, n: nat, to: int)
    requires Shows(older, history, market, n) && Increasing(market) && history != []
    ensures exists j: nat :: j <= n && Window(market, history[0].openTime, to) == history[..j]
  {
    hide Chronological, Increasing, Before;
    var from, m := history[0].openTime, |older|;
    OlderOpensEarlier(older, history);
    assert m > 0 ==> market[m - 1] == older[m - 1];
    assert n > 0 ==> market[m] == history[0];
    BeforeIs(market, from, m);
    var end := Before(market, to);
    if end >= m {
      assert market[m..end] == history[..end - m];
    } else {
      assert history[..0] == [];
    }
  }

  /** An intact warm-up range is the start of the history, up to the boundary. */
  lemma RangeIsWarmup(cfg: Config, older: seq<Candle>, history: seq<Candle>, market: seq<Candle>, n: nat, now: int)
    requires WellPosed(cfg, older, history) && Shows(older, history, market, n)
    requires WarmupIntact(WarmupRange(cfg, market), BootstrapOf(cfg, now), cfg.step)
    ensures WarmupLength(cfg) <= n <= |history| && WarmupRange(cfg, market) == history[..WarmupLength(cfg)]
  {
    hide Chronological, OnClock, Window, Increasing, Partition;
    ShownMarket(cfg, older, history, market, n);
    WindowStartsHistory(older, history, market, n, cfg.boundary);
    var j: nat :| j <= n && Window(market, history[0].openTime, cfg.boundary) == history[..j];
    assert n <= |history|;
  }

  // ----- What is stored -------------------------------------------------------------------------------------------

  /** Storing the warm-up, over what an earlier attempt may have left, stores exactly the warm-up. */
  lemma KeptWarmup(cfg: Config, b: BootstrapState, history: seq<Candle>, m: map<Candles.Key, Candle>)
    requires HistoryOf(cfg, b, history) && NothingBeyondWarmup(cfg, history, m) && 0 < WarmupLength(cfg) <= |history|
    ensures var u := Candles.UpsertCandles(m, cfg.series, history[..WarmupLength(cfg)]);
            NothingBeyondWarmup(cfg, history, u) && StoredPrefix(cfg, b, history, u, WarmupLength(cfg))
  {
    ChronologicalIncreasing(history);
    var w := WarmupLength(cfg);
    var warmup := history[..w];
    var u := Candles.UpsertCandles(m, cfg.series, warmup);
    forall key | key in u && key.series == cfg.series
      ensures KeptAt(history, w, key.openTime, u[key]) || Earlier(history, key.openTime, u[key])
    {
      Candles.UpsertedAt(m, cfg.series, warmup, key);
      if Candles.GivenAt(warmup, key.openTime) {
        var i :| 0 <= i < w && warmup[i] == u[key];
        assert history[i] == u[key];
      }
    }
    forall c | c in warmup
      ensures Candles.Key(cfg.series, c.openTime) in u && u[Candles.Key(cfg.series, c.openTime)] == c
    {
      UpsertedIsGiven(m, cfg.series, warmup, c);
    }
    WarmupIsListed(cfg, b, history, u);
  }

  lemma UpsertedIsGiven(m: map<Candles.Key, Candle>, series: Candles.Series, candles: seq<Candle>, c: Candle)
    requires Increasing(candles) && c in candles
    ensures var u, key := Candles.UpsertCandles(m, series, candles), Candles.Key(series, c.openTime);
            key in u && u[key] == c
  {
    var key := Candles.Key(series, c.openTime);
    Candles.UpsertedAt(m, series, candles, key);
    assert Candles.GivenAt(candles, key.openTime);
    Candles.SameTimeSameCandle(candles);
  }

  lemma WarmupIsListed(cfg: Config, b: BootstrapState, history: seq<Candle>, u: map<Candles.Key, Candle>)
    requires HistoryOf(cfg, b, history) && NothingBeyondWarmup(cfg, history, u) && 0 < WarmupLength(cfg) <= |history|
    requires forall c | c in history[..WarmupLength(cfg)] ::
               Candles.Key(cfg.series, c.openTime) in u && u[Candles.Key(cfg.series, c.openTime)] == c
    ensures StoredPrefix(cfg, b, history, u, WarmupLength(cfg))
  {
    WarmupAscends(cfg, b, history);
    var warmup := history[..WarmupLength(cfg)];
    assert Increasing(warmup);
    hide HistoryOf, Increasing, NothingBeyondWarmup;
    forall c | c in warmup ensures Candles.InRange(c.openTime, Some(b.warmupStart), None) {
      var i :| 0 <= i < |warmup| && warmup[i] == c;
      assert history[i] == c;
    }
    forall key | key in u && key.series == cfg.series
      ensures if key.openTime < b.warmupStart then u[key].closeTime < b.warmupStart else u[key] in warmup
    {
      KeptIsWarmup(cfg, b, history, u, key);
    }
  }

  lemma KeptIsWarmup(cfg: Config, b: BootstrapState, history: seq<Candle>, u: map<Candles.Key, Candle>,
                     key: Candles.Key)
    requires HistoryOf(cfg, b, history) && NothingBeyondWarmup(cfg, history, u) && 0 < WarmupLength(cfg) <= |history|
    requires key in u && key.series == cfg.series
    ensures if key.openTime < b.warmupStart then u[key].closeTime < b.warmupStart
            else u[key] in history[..WarmupLength(cfg)]
  {
    WarmupAscends(cfg, b, history);
    hide HistoryOf, Increasing;
    var w := WarmupLength(cfg);
    if !Earlier(history, key.openTime, u[key]) {
      assert KeptAt(history, w, key.openTime, u[key]);
      var i :| 0 <= i < w && i < |history| && history[i].openTime == key.openTime && history[i] == u[key];
      assert history[..w][i] == u[key];
    }
  }

  lemma WarmupAscends(cfg: Config, b: BootstrapState, history: seq<Candle>)
    requires HistoryOf(cfg, b, history)
    ensures Increasing(history) && history != [] && history[0].openTime == b.warmupStart
    ensures forall i | 0 <= i < |history| :: history[i].openTime >= b.warmupStart
  {
    ChronologicalIncreasing(history);
    forall i | 0 < i < |history| ensures history[0].openTime < history[i].openTime {}
  }

  /** A listing without an end, cut after one of its candles. */
  lemma ListedUpTo(t: Candles.Tables, series: Candles.Series, from: int, all: seq<Candle>, n: nat)
    requires Candles.Keyed(t) && Candles.Lists(t.candles, series, Some(from), None, all) && 0 < n <= |all|
    ensures Candles.Lists(t.candles, series, Some(from), Some(all[n - 1].openTime), all[..n])
  {
    var to, listed := all[n - 1].openTime, all[..n];
    forall c | c in listed ensures c in all && c.openTime <= to {
      var i :| 0 <= i < n && listed[i] == c;
      assert all[i] == c && (i < n - 1 ==> all[i].openTime < all[n - 1].openTime);
    }
    forall key | key in t.candles && key.series == series && Candles.InRange(key.openTime, Some(from), Some(to))
      ensures t.candles[key] in listed
    {
      assert Candles.InRange(key.openTime, Some(from), None);
      var i :| 0 <= i < |all| && all[i] == t.candles[key];
      assert !(all[n - 1].openTime < all[i].openTime);
      assert listed[i] == t.candles[key];
    }
  }

  /** Within a stored prefix that reaches the boundary, the recorded warm-up range is still all there. */
  lemma WarmupStillListed(cfg: Config, b: BootstrapState, history: seq<Candle>, t: Candles.Tables, k: nat)
    requires Candles.Keyed(t) && Bootstrapped(cfg, b, history, t.candles, k) && 0 < WarmupLength(cfg)
    ensures Candles.Lists(t.candles, cfg.series, Some(b.warmupStart), Some(b.warmupLastOpen),
                          history[..WarmupLength(cfg)])
  {
    hide HistoryOf, Candles.Lists, Candles.Keyed;
    var w := WarmupLength(cfg);
    ListedUpTo(t, cfg.series, b.warmupStart, history[..k], w);
    assert history[..k][..w] == history[..w] && history[..k][w - 1] == Last(history[..w]);
  }

  /** The candle after a stored prefix that reaches the boundary opens no earlier than the boundary. */
  lemma BoundaryReached(cfg: Config, b: BootstrapState, older: seq<Candle>, history: seq<Candle>,
                        m: map<Candles.Key, Candle>, k: nat)
    requires WellPosed(cfg, older, history) && Bootstrapped(cfg, b, history, m, k)
    ensures 0 < k <= |history| && cfg.boundary <= history[k - 1].closeTime + 1
  {
    hide Partition, AllPriced, Candles.Lists;
    SuffixChronological(older, history);
    var w := WarmupLength(cfg);
    assert Last(history[..w]) == history[w - 1] && (older + history)[|older| + w - 1] == history[w - 1];
    assert k > w ==> history[w - 1].closeTime < history[k - 1].openTime;
  }

  /** What a cycle that was ready stores, and what it decides from it. */
  lemma ReadyCycle(cfg: Config, b: BootstrapState, older: seq<Candle>, history: seq<Candle>, market: seq<Candle>,
                   n: nat, limit: nat, t: Candles.Tables, m': map<Candles.Key, Candle>, added: seq<Candle>,
                   all: seq<Candle>, k: nat, results: Results, now: int)
    requires WellPosed(cfg, older, history) && Bootstrapped(cfg, b, history, t.candles, k)
    requires Candles.Keyed(t) && FetchedAndStored(cfg, b, market, limit, t.candles, m', added, all)
    requires Shows(older, history, market, n) && k <= n <= |history|
    ensures Runnable(PlanOf(cfg, b, history)) && ValidConfig(cfg) && ValidBootstrap(Some(b))
    ensures k + Smaller(n - k, limit) <= |history|
    ensures Bootstrapped(cfg, b, history, m', k + Smaller(n - k, limit)) && Candles.Keyed(t.(candles := m'))
    ensures Decision(cfg, b, all, results, now)
         == Processing(PlanOf(cfg, b, history), k + Smaller(n - k, limit), results, now)
    ensures Decision(cfg, b, all, results, now).state.totalCycles == results.state.totalCycles + 1
  {
    hide StoredPrefix, WarmupIntact, Shows, Decision, Processing, Candles.Lists, LatestClose;
    BoundaryReached(cfg, b, older, history, t.candles, k);
    FetchKeepsPrefix(cfg, b, older, history, market, n, limit, t.candles, m', added, all, k);
    DecisionIsProcessing(cfg, b, history, k + Smaller(n - k, limit), results, now);
    ProcessingCounts(PlanOf(cfg, b, history), k + Smaller(n - k, limit), results, now);
    Candles.UpsertKeepsKeyed(t, cfg.series, added);
  }

  /** A cycle that reaches its decision is always counted, whatever it decides. */
  lemma ProcessingCounts(su: Plan, k: nat, results: Results, now: int)
    requires Runnable(su) && k <= |su.history|
    ensures Processing(su, k, results, now).state.totalCycles == results.state.totalCycles + 1
  {
    hide StartOf, Evaluated, BatchOf, RunOver, InsertMissing;
  }

  lemma PlanIsValid(cfg: Config, b: BootstrapState, history: seq<Candle>)
    requires HistoryOf(cfg, b, history)
    ensures ValidPlan(PlanOf(cfg, b, history))
  {
  }

  lemma CycleAfterCycles(su: Plan, s: Shadow, cycles: seq<Cycle>, c: Cycle)
    requires Runnable(su) && s.stored <= |su.history|
    ensures AfterCycles(su, s, cycles + [c]) == AfterCycle(su, AfterCycles(su, s, cycles), c)
  {
    assert DropLast(cycles + [c]) == cycles;
  }

  // ----- The session ------------------------------------------------------------------------------------------------

  /** What the cycles run since the bootstrap leave according to the replay. */
  function Replayed(cfg: Config, b: BootstrapState, history: seq<Candle>, cycles: seq<Cycle>): (s: Shadow)
    requires Runnable(PlanOf(cfg, b, history)) && WarmupLength(cfg) <= |history|
    ensures s.stored <= |history|
  {
    AfterCycles(PlanOf(cfg, b, history), Shadow(WarmupLength(cfg), NO_RESULTS), cycles)
  }

  /** Once bootstrapped, the tables are those the replay of the cycles leaves. */
  ghost predicate InReplay(cfg: Config, b: BootstrapState, history: seq<Candle>, m: map<Candles.Key, Candle>,
                           results: Results, shown: nat, cycles: seq<Cycle>) {
    && Runnable(PlanOf(cfg, b, history)) && WarmupLength(cfg) <= |history|
    && var s := Replayed(cfg, b, history, cycles);
       s.stored <= shown && Bootstrapped(cfg, b, history, m, s.stored) && results == s.results
  }

  ghost predicate InSession(cfg: Config, older: seq<Candle>, history: seq<Candle>, t: Candles.Tables,
                            bootstrap: Option<BootstrapState>, results: Results, shown: nat, cycles: seq<Cycle>) {
    && WellPosed(cfg, older, history) && shown <= |history| && Candles.Keyed(t)
    && match bootstrap
       case None => cycles == [] && results == NO_RESULTS && NothingBeyondWarmup(cfg, history, t.candles)
       case Some(b) => InReplay(cfg, b, history, t.candles, results, shown, cycles)
  }

  /** How a cycle may change the tables. */
  ghost predicate CycleEffect(cfg: Config, b: BootstrapState, market: seq<Candle>, limit: nat, t: Candles.Tables,
                              m': map<Candles.Key, Candle>, added: seq<Candle>, all: seq<Candle>, results: Results,
                              results': Results, end: CycleEnd, now: int)
    requires ValidConfig(cfg) && ValidBootstrap(Some(b))
  {
    && (end.KillSwitchEngaged? || end.NotReady? ==> m' == t.candles)
    && (!(end.KillSwitchEngaged? || end.NotReady?)
        ==> FetchedAndStored(cfg, b, market, limit, t.candles, m', added, all))
    && results' == if end.Decided? || end.Raised? then Decision(cfg, b, all, results, now) else results
  }

  lemma CycleKeepsReplay(cfg: Config, b: BootstrapState, older: seq<Candle>, history: seq<Candle>, market: seq<Candle>,
                         n: nat, limit: nat, t: Candles.Tables, m': map<Candles.Key, Candle>, added: seq<Candle>,
                         all: seq<Candle>, results: Results, results': Results, shown: nat, cycles: seq<Cycle>,
                         end: CycleEnd, now: int)
    returns (c: Cycle)
    requires InSession(cfg, older, history, t, Some(b), results, shown, cycles)
    requires ValidConfig(cfg) && ValidBootstrap(Some(b))
    requires CycleEffect(cfg, b, market, limit, t, m', added, all, results, results', end, now) && !end.NotReady?
    requires Shows(older, history, market, n) && shown <= n <= |history|
    ensures Runnable(PlanOf(cfg, b, history)) && WarmupLength(cfg) <= |history|
    ensures c == CycleOf(n, Replayed(cfg, b, history, cycles).stored, limit, end, now)
    ensures InSession(cfg, older, history, t.(candles := m'), Some(b), results', n, cycles + [c])
    ensures end.Decided? || end.Raised? ==> results'.state.totalCycles == results.state.totalCycles + 1
  {
    hide WellPosed, Bootstrapped, FetchedAndStored, Processing, Decision, Candles.Keyed, Shows, ValidConfig,
        ValidBootstrap;
    var s := Replayed(cfg, b, history, cycles);
    c := CycleOf(n, s.stored, limit, end, now);
    CycleAfterCycles(PlanOf(cfg, b, history), Shadow(WarmupLength(cfg), NO_RESULTS), cycles, c);
    if !end.KillSwitchEngaged? {
      ReadyCycle(cfg, b, older, history, market, n, limit, t, m', added, all, s.stored, results, now);
    }
  }

  /** Once bootstrapped, the warm-up check always passes. */
  lemma AlwaysReady(cfg: Config, b: BootstrapState, older: seq<Candle>, history: seq<Candle>, t: Candles.Tables,
                    results: Results, shown: nat, cycles: seq<Cycle>)
    requires InSession(cfg, older, history, t, Some(b), results, shown, cycles)
    ensures ValidConfig(cfg) && ValidBootstrap(Some(b)) && cfg.step > 0
    ensures exists warmup ::
              && Candles.Lists(t.candles, cfg.series, Some(b.warmupStart), Some(b.warmupLastOpen), warmup)
              && WarmupIntact(warmup, b, cfg.step)
  {
    hide Candles.Lists, WarmupIntact, StoredPrefix;
    WarmupStillListed(cfg, b, history, t, Replayed(cfg, b, history, cycles).stored);
  }

  function CycleOf(n: nat, stored: nat, limit: nat, end: CycleEnd, now: int): Cycle
    requires stored <= n
  {
    Cycle(Smaller(n - stored, limit), OutcomeOf(end), now)
  }

  /** The cycle fetched what one page could bring, and ended like this. */
  ghost predicate CycleRan(cfg: Config, b: BootstrapState, history: seq<Candle>, earlier: seq<Cycle>,
                           cycles: seq<Cycle>, n: nat, limit: nat, end: CycleEnd, now: int) {
    && Runnable(PlanOf(cfg, b, history)) && WarmupLength(cfg) <= |history|
    && Replayed(cfg, b, history, earlier).stored <= n
    && cycles == earlier + [CycleOf(n, Replayed(cfg, b, history, earlier).stored, limit, end, now)]
  }

  /** Once the settling buffer has passed, the tables are those of one run over everything stored. */
  ghost predicate HoldsOneRun(cfg: Config, b: BootstrapState, history: seq<Candle>, cycles: seq<Cycle>,
                              results: Results) {
    && Runnable(PlanOf(cfg, b, history)) && WarmupLength(cfg) <= |history|
    && var stored := Replayed(cfg, b, history, cycles).stored;
       stored >= b.effectiveMinRequired ==> HoldsRows(results, RowsOf(RunOver(PlanOf(cfg, b, history), 0, stored)))
  }

  lemma CompletedIsOneRun(cfg: Config, b: BootstrapState, older: seq<Candle>, history: seq<Candle>, t: Candles.Tables,
                          results: Results, shown: nat, cycles: seq<Cycle>, c: Cycle)
    requires InSession(cfg, older, history, t, Some(b), results, shown, cycles + [c]) && c.outcome == Finished
    requires Contiguous(history, cfg.step)
    ensures HoldsOneRun(cfg, b, history, cycles + [c], results)
  {
    hide StoredPrefix, WarmupIntact, HoldsRows, RowsOf, RunOver, Contiguous, Candles.Keyed, AfterCycles;
    PlanIsValid(cfg, b, history);
    if Replayed(cfg, b, history, cycles + [c]).stored >= b.effectiveMinRequired {
      AnyScheduleEqualsOneRun(PlanOf(cfg, b, history), Shadow(WarmupLength(cfg), NO_RESULTS), cycles, c);
    }
  }

  /** A successful attempt to bootstrap begins the replay; one that could not record it leaves only warm-up. */
  lemma BootstrapBegins(cfg: Config, older: seq<Candle>, history: seq<Candle>, market: seq<Candle>, n: nat,
                        t: Candles.Tables, results: Results, shown: nat, cycles: seq<Cycle>, now: int)
    requires InSession(cfg, older, history, t, None, results, shown, cycles)
    requires Shows(older, history, market, n) && n <= |history|
    requires cfg.step > 0 && WarmupCount(cfg.rawRequired) > 0
    requires WarmupIntact(WarmupRange(cfg, market), BootstrapOf(cfg, now), cfg.step)
    ensures var t' := t.(candles := Candles.UpsertCandles(t.candles, cfg.series, WarmupRange(cfg, market)));
            && InSession(cfg, older, history, t', None, results, n, cycles)
            && InSession(cfg, older, history, t', Some(BootstrapOf(cfg, now)), results, n, cycles)
  {
    hide WarmupRange, WarmupIntact, StoredPrefix, NothingBeyondWarmup, HistoryOf, Shows, WellPosed, Candles.Keyed;
    RangeIsWarmup(cfg, older, history, market, n, now);
    WellPosedHistory(cfg, older, history, now);
    KeptWarmup(cfg, BootstrapOf(cfg, now), history, t.candles);
    Candles.UpsertKeepsKeyed(t, cfg.series, history[..WarmupLength(cfg)]);
  }

  lemma SessionBasics(cfg: Config, older: seq<Candle>, history: seq<Candle>, t: Candles.Tables,
                      bootstrap: Option<BootstrapState>, results: Results, shown: nat, cycles: seq<Cycle>)
    requires InSession(cfg, older, history, t, bootstrap, results, shown, cycles)
    ensures WellPosed(cfg, older, history) && ValidConfig(cfg) && WarmupCount(cfg.rawRequired) > 0 && Candles.Keyed(t)
    ensures ValidBootstrap(bootstrap)
    ensures bootstrap.Some? ==> Runnable(PlanOf(cfg, bootstrap.value, history)) && WarmupLength(cfg) <= |history|
                                && Replayed(cfg, bootstrap.value, history, cycles).stored <= shown
    ensures bootstrap.None? ==> cycles == []
    ensures forall n: nat | shown <= n <= |history| :: InSession(cfg, older, history, t, bootstrap, results, n, cycles)
  {
    hide StoredPrefix, WarmupIntact, NothingBeyondWarmup, Candles.Keyed;
  }

  class Session {
    const cfg: Config
    const candles: Candles.CandleTables
    const shadow: ShadowTables
    /** What the exchange will have shown, how much of it it has, and the cycles run since the bootstrap. */
    ghost const older: seq<Candle>
    ghost const history: seq<Candle>
    ghost var shown: nat
    ghost var cycles: seq<Cycle>

    ghost predicate Valid()
      reads this, candles, shadow
    {
      InSession(cfg, older, history, candles.Contents(), shadow.bootstrap, shadow.Contents(), shown, cycles)
    }

    constructor (cfg: Config, candles: Candles.CandleTables, shadow: ShadowTables, ghost older: seq<Candle>,
                 ghost history: seq<Candle>)
      requires WellPosed(cfg, older, history) && Candles.Keyed(candles.Contents())
      requires NothingBeyondWarmup(cfg, history, candles.candles)
      requires shadow.bootstrap.None? && shadow.Contents() == NO_RESULTS
      ensures Valid() && this.cfg == cfg && this.candles == candles && this.shadow == shadow
      ensures this.older == older && this.history == history && shown == 0 && cycles == []
    {
      this.cfg, this.candles, this.shadow := cfg, candles, shadow;
      this.older, this.history, shown, cycles := older, history, 0, [];
    }

    /** An attempt to bootstrap, against whatever the exchange shows by now. */
    method RunBootstrap(market: seq<Candle>, ghost n: nat, pageLimit: int, maxRetries: nat, faults: Faults, now: int)
      returns (status: BootstrapStatus)
      requires Valid() && Shows(older, history, market, n) && shown <= n && pageLimit >= 1
      modifies this, candles`candles, shadow`warmup, shadow`bootstrap
      ensures Valid() && shown == n && cycles == old(cycles) && shadow.Contents() == old(shadow.Contents())
      ensures shadow.bootstrap == if status == BootstrapOk then Some(BootstrapOf(cfg, now)) else old(shadow.bootstrap)
      ensures status == if old(shadow.bootstrap).Some? then AlreadyBootstrapped
                        else var verdict := WarmupVerdict(cfg, market, pageLimit, maxRetries, faults);
                             if verdict == BootstrapOk && shadow.faultAt in {AfterWarmupCandles, BeforeCommit}
                             then StoreFailed else verdict
    {
      hide WarmupRange, WarmupIntact, InSession, Shows;
      ShownWithin(older, history, market, n);
      SessionBasics(cfg, older, history, candles.Contents(), shadow.bootstrap, shadow.Contents(), shown, cycles);
      ShownMarket(cfg, older, history, market, n);
      status := RunShadowBootstrap(cfg, market, pageLimit, maxRetries, faults, now, candles, shadow);
      shown := n;
      if status in {BootstrapOk, StoreFailed} {
        BootstrapBegins(cfg, older, history, market, n, old(candles.Contents()), shadow.Contents(), old(shown), cycles,
                        now);
      }
    }

    /**
     * One cycle, against whatever the exchange shows by now. Once bootstrapped it is always ready and never raises:
     * unless told to stop or interrupted, it decides. On a gap-free history, a cycle that decides leaves exactly the
     * tables of one run over everything stored.
     */
    method RunCycle(market: seq<Candle>, ghost n: nat, limit: nat, killSwitch: bool, stopAfterCandles: bool, now: int)
      returns (end: CycleEnd)
      requires Valid() && Shows(older, history, market, n) && shown <= n
      modifies this, candles`candles, shadow`trades, shadow`equity, shadow`journal, shadow`state
      ensures Valid() && shown == n
      ensures end.KillSwitchEngaged? <==> killSwitch
      ensures end.NotReady? <==> !killSwitch && shadow.bootstrap.None?
      ensures end.StoppedAfterCandles? <==> !killSwitch && shadow.bootstrap.Some? && stopAfterCandles
      ensures !end.Raised? && (end.RolledBack? ==> shadow.faultAt != NoFault)
      ensures end.Decided? ==> shadow.state.status == end.status
      ensures shadow.bootstrap.None? ==> cycles == []
      ensures shadow.bootstrap.Some? ==>
                CycleRan(cfg, shadow.bootstrap.value, history, old(cycles), cycles, n, limit, end, now)
      ensures shadow.bootstrap.Some? && end.Decided? && Contiguous(history, cfg.step) ==>
                HoldsOneRun(cfg, shadow.bootstrap.value, history, cycles, shadow.Contents())
    {
      hide InSession, Shows, FetchedAndStored, Decision, HoldsOneRun, Contiguous, WarmupIntact, Candles.Lists, Replayed;
      ShownWithin(older, history, market, n);
      ghost var t, bootstrap, results := candles.Contents(), shadow.bootstrap, shadow.Contents();
      SessionBasics(cfg, older, history, t, bootstrap, results, shown, cycles);
      ghost var added, all;
      end, added, all := RunShadowCycle(cfg, market, limit, candles, shadow, killSwitch, stopAfterCandles, now);
      if bootstrap.Some? {
        ghost var b := bootstrap.value;
        AlwaysReady(cfg, b, older, history, t, results, shown, cycles);
        ghost var c := CycleKeepsReplay(cfg, b, older, history, market, n, limit, t, candles.candles, added, all,
                                        results,
                                        shadow.Contents(), shown, cycles, end, now);
        cycles := cycles + [c];
        if end.Decided? && Contiguous(history, cfg.step) {
          CompletedIsOneRun(cfg, b, older, history, candles.Contents(), shadow.Contents(), n, old(cycles), c);
        }
      }
      shown := n;
    }
  }

  /**
   * At every moment of a session the tables hold one run over each stretch that its completed cycles saw, each
   * row once; a candle has its equity row exactly when its segment was long enough by then and a completed
   * cycle ended in that segment, at the candle or after it.
   */
  lemma SessionTables(x: Session, i: nat)
    requires x.Valid() && x.shadow.bootstrap.Some? && i < |x.history|
    ensures var b := x.shadow.bootstrap.value;
            var su, s := PlanOf(x.cfg, b, x.history), Shadow(WarmupLength(x.cfg), NO_RESULTS);
            && ValidPlan(su) && WarmupLength(x.cfg) <= |x.history|
            && var seen := Seen(su, s, x.cycles);
               && Orderly(su, seen) && HoldsSeen(su, x.shadow.Contents(), seen)
               && |x.shadow.trades| == |RowsSeen(su, seen).trades|
               && Holds(x.shadow.trades, RowsSeen(su, seen).trades)
               && (x.history[i].closeTime in x.shadow.equity <==>
                     Evaluated(su, i + 1) && CaughtBy(su, s, x.cycles, i))
  {
    var b := x.shadow.bootstrap.value;
    var su, s := PlanOf(x.cfg, b, x.history), Shadow(WarmupLength(x.cfg), NO_RESULTS);
    PlanIsValid(x.cfg, b, x.history);
    hide RowsSeen, HoldsRows, LatestRun, Holds, Evaluated, CaughtBy, WarmupIntact, StoredPrefix, HistoryOf;
    TablesHoldWhatWasSeen(su, s, x.cycles);
    EachRowOnce(su, x.shadow.Contents(), Seen(su, s, x.cycles));
    RowSurvivesExactlyWhenCaught(su, s, x.cycles, i);
  }
}
