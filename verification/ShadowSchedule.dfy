// Recomputing the last segment every cycle and storing only what lies past the high-water mark (shadow/engine.py).
// On a gap-free history this is the same, for every schedule of cycles and crashes, as one run over the final
// history; with gaps, the tables hold one run for each segment in which a completed cycle ended.

module ShadowSchedule {
  import opened Common
  import opened ExchangeFilters
  import opened RiskReward
  import opened Backtest
  import opened BacktestInvariant
  import opened BacktestTheorems
  import opened GapDetection
  import opened ShadowStore
  import opened ShadowReplay

  // ----- Cycles over one history -----------------------------------------------------------------------------------

  /**
   * The history the exchange will eventually have shown, and the run it is replayed through, the same in every
   * cycle. The segment that starts it is the one with warm-up; any later segment has its own, smaller requirement.
   */
  datatype Plan = Plan(env: Env, start: real, anchored: nat, raw: nat, step: int, history: seq<Candle>)

  ghost predicate ValidPlan(su: Plan) {
    && ValidEnv(su.env) && su.env.fixedRiskReward && su.start > 0.0 && su.anchored > 0 && su.raw > 0 && su.step > 0
    && AllPriced(su.history) && Chronological(su.history)
  }

  predicate Runnable(su: Plan) {
    ValidCosts(su.env.costs) && ValidFilters(su.env.filters) && su.anchored > 0 && su.raw > 0
  }

  /** What survives a crash: how much of the history is stored, and the result tables. */
  datatype Shadow = Shadow(stored: nat, results: Results)

  /** A cycle may finish, stop after its candles were committed (its transaction rolled back), or stop before. */
  datatype Outcome = Finished | Interrupted | NothingStored

  datatype Cycle = Cycle(fetched: nat, outcome: Outcome, now: int)

  /** Where the segment begins that ends after the first `k` candles. */
  function StartOf(su: Plan, k: nat): (a: nat)
    requires k <= |su.history|
    ensures a <= k && (k > 0 ==> a < k)
  {
    LastStart(su.history[..k], su.step)
  }

  function RequiredFrom(su: Plan, a: nat): nat {
    if a == 0 then su.anchored else su.raw
  }

  /** The run over the candles from `a` up to `k`. */
  function RunOver(su: Plan, a: nat, k: nat): Run
    requires Runnable(su) && a <= k <= |su.history|
  {
    RunTo(su.env, su.start, RequiredFrom(su, a), su.history[a..], k - a)
  }

  function Mark(su: Plan, n: nat): int
    requires n <= |su.history|
  {
    if n == 0 then -1 else su.history[n - 1].closeTime
  }

  /** Long enough a segment for its run to have begun. */
  predicate Evaluated(su: Plan, k: nat)
    requires k <= |su.history|
  {
    k > 0 && k - StartOf(su, k) >= RequiredFrom(su, StartOf(su, k))
  }

  /** The decision part of a cycle over the first `k` stored candles: only the last segment is replayed. */
  function Processing(su: Plan, k: nat, results: Results, now: int): Results
    requires Runnable(su) && k <= |su.history|
  {
    if k == 0 then Touched(results, NoNewCandles, None, now)
    else if results.state.lastProcessed == Some(Mark(su, k)) then
      Touched(results, NoNewCandles, results.state.segmentLength, now)
    else
      var a := StartOf(su, k);
      if !Evaluated(su, k) then Touched(results, InsufficientData, Some(k - a), now)
      else Recorded(results, BatchOf(RunOver(su, a, k), results.state.lastProcessed.GetOr(-1), Mark(su, k), k - a), now)
  }

  function StoredAfter(su: Plan, stored: nat, c: Cycle): nat {
    if c.outcome == NothingStored then stored
    else if stored + c.fetched <= |su.history| then stored + c.fetched
    else |su.history|
  }

  function AfterCycle(su: Plan, s: Shadow, c: Cycle): Shadow
    requires Runnable(su) && s.stored <= |su.history|
  {
    var k := StoredAfter(su, s.stored, c);
    Shadow(k, if c.outcome == Finished then Processing(su, k, s.results, c.now) else s.results)
  }

  function AfterCycles(su: Plan, s: Shadow, cycles: seq<Cycle>): (r: Shadow)
    requires Runnable(su) && s.stored <= |su.history|
    ensures s.stored <= r.stored <= |su.history|
  {
    if cycles == [] then s else AfterCycle(su, AfterCycles(su, s, DropLast(cycles)), Last(cycles))
  }

  // ----- What a schedule of cycles has seen --------------------------------------------------------------------------

  /** A segment from its first candle up to where the last completed cycle that ended in it saw it. */
  datatype Stretch = Stretch(from: nat, to: nat)

  /** A completed cycle over `k` candles extends the latest stretch, or begins one in a later segment. */
  function Seeing(su: Plan, seen: seq<Stretch>, k: nat): seq<Stretch>
    requires k <= |su.history|
  {
    var a := StartOf(su, k);
    if !Evaluated(su, k) then seen
    else if seen != [] && Last(seen).from == a then DropLast(seen) + [Stretch(a, k)]
    else seen + [Stretch(a, k)]
  }

  function Seen(su: Plan, s: Shadow, cycles: seq<Cycle>): seq<Stretch>
    requires Runnable(su) && s.stored <= |su.history|
  {
    if cycles == [] then []
    else
      var before := Seen(su, s, DropLast(cycles));
      if Last(cycles).outcome == Finished then Seeing(su, before, AfterCycles(su, s, cycles).stored) else before
  }

  predicate WholeStretch(su: Plan, st: Stretch) {
    st.from < st.to <= |su.history| && StartOf(su, st.to) == st.from && Evaluated(su, st.to)
  }

  /** Stretches of different segments, in order. */
  predicate Orderly(su: Plan, seen: seq<Stretch>) {
    && (forall i | 0 <= i < |seen| :: WholeStretch(su, seen[i]))
    && (forall i, j | 0 <= i < j < |seen| :: seen[i].to <= seen[j].from)
  }

  function RowsSeen(su: Plan, seen: seq<Stretch>): Rows
    requires Runnable(su) && Orderly(su, seen)
  {
    if seen == [] then Rows([], [], [])
    else
      assert WholeStretch(su, Last(seen));
      Followed(RowsSeen(su, DropLast(seen)), RowsOf(RunOver(su, Last(seen).from, Last(seen).to)))
  }

  /** The tables hold the rows of one run over each stretch; the mark and the open position are the latest one's. */
  predicate HoldsSeen(su: Plan, results: Results, seen: seq<Stretch>)
    requires Runnable(su) && Orderly(su, seen)
  {
    && HoldsRows(results, RowsSeen(su, seen))
    && results.state.lastProcessed == (if seen == [] then None else Some(Mark(su, LatestTo(su, seen))))
    && results.state.openPosition == PositionOf(LatestRun(su, seen))
  }

  function LatestTo(su: Plan, seen: seq<Stretch>): (to: nat)
    requires Orderly(su, seen)
    ensures to <= |su.history|
  {
    if seen == [] then 0 else assert WholeStretch(su, Last(seen)); Last(seen).to
  }

  function LatestRun(su: Plan, seen: seq<Stretch>): Run
    requires Runnable(su) && Orderly(su, seen)
  {
    if seen == [] then InitialRun(su.start)
    else assert WholeStretch(su, Last(seen)); RunOver(su, Last(seen).from, Last(seen).to)
  }

  ghost predicate UpTo(su: Plan, s: Shadow, seen: seq<Stretch>)
    requires ValidPlan(su)
  {
    && Orderly(su, seen) && LatestTo(su, seen) <= s.stored <= |su.history| && HoldsSeen(su, s.results, seen)
  }

  lemma MarksRise(su: Plan, p: nat, k: nat)
    requires ValidPlan(su) && p < k <= |su.history|
    ensures Mark(su, p) < su.history[k - 1].openTime <= Mark(su, k)
  {
  }

  /** A cycle that ends in the segment seen last continues it; one that ends elsewhere ends in a later one. */
  lemma SeeingIsOrderly(su: Plan, seen: seq<Stretch>, k: nat)
    requires Orderly(su, seen) && LatestTo(su, seen) <= k <= |su.history|
    ensures Orderly(su, Seeing(su, seen, k)) && LatestTo(su, Seeing(su, seen, k)) <= k
    ensures Evaluated(su, k) ==> Last(Seeing(su, seen, k)) == Stretch(StartOf(su, k), k)
    ensures seen != [] && Last(seen).from != StartOf(su, k) ==> Last(seen).to <= StartOf(su, k)
    ensures seen != [] && LatestTo(su, seen) == k ==> Seeing(su, seen, k) == seen
  {
    hide StartOf;
    if seen != [] {
      assert WholeStretch(su, Last(seen));
      SegmentsMeet(su, Last(seen).to, k);
    }
    if Evaluated(su, k) { assert WholeStretch(su, Stretch(StartOf(su, k), k)); }
  }

  lemma SegmentsMeet(su: Plan, p: nat, k: nat)
    requires 0 < p <= k <= |su.history|
    ensures StartOf(su, p) <= StartOf(su, k) && (StartOf(su, k) < p <==> StartOf(su, p) == StartOf(su, k))
  {
    SegmentOfPrefix(su.history, su.step, p, k);
  }

  lemma TailReplayable(su: Plan, a: nat)
    requires ValidPlan(su) && a <= |su.history|
    ensures Replayable(su.env, su.start, RequiredFrom(su, a), su.history[a..])
  {
  }

  lemma NothingRun(su: Plan, a: nat, time: int)
    requires ValidPlan(su) && a <= |su.history|
    ensures RunOver(su, a, a) == InitialRun(su.start)
    ensures RowsOf(RunOver(su, a, a)) == Rows([], [], []) && KeysDistinct(RunOver(su, a, a), time)
  {
    NothingRunYet(su.env, su.start, RequiredFrom(su, a), su.history[a..]);
    NoRows(InitialRun(su.start));
  }

  lemma NoRows(r: Run)
    requires r.trades == [] && r.equity == [] && r.journal == []
    ensures RowsOf(r) == Rows([], [], [])
  {
  }

  lemma RunOverKeys(su: Plan, a: nat, k: nat)
    requires ValidPlan(su) && a < k <= |su.history|
    ensures KeysDistinct(RunOver(su, a, k), Mark(su, k))
  {
    hide KeysDistinct;
    TailReplayable(su, a);
    RunKeysDistinct(su.env, su.start, RequiredFrom(su, a), su.history[a..], k - a);
  }

  lemma EveryTradeWasPlanned(su: Plan, a: nat, k: nat)
    requires ValidPlan(su) && a <= k <= |su.history|
    ensures |RunOver(su, a, k).trades| <= |RunOver(su, a, k).diag.plannedRisks|
  {
    TailReplayable(su, a);
    PrefixReplayable(su.env, su.start, RequiredFrom(su, a), su.history[a..], k - a);
    PolicyRunIsCoherent(su.env, su.start, RequiredFrom(su, a), su.history[a..][..k - a]);
  }

  lemma RunOverSucceeds(su: Plan, a: nat, k: nat)
    requires ValidPlan(su) && a <= k <= |su.history|
    ensures RunSegment(su.env, su.start, RequiredFrom(su, a), su.history[a..][..k - a]) == Ok(RunOver(su, a, k))
  {
    hide RunSegment;
    TailReplayable(su, a);
    PrefixReplayable(su.env, su.start, RequiredFrom(su, a), su.history[a..], k - a);
    PolicyRunIsCoherent(su.env, su.start, RequiredFrom(su, a), su.history[a..][..k - a]);
  }

  lemma RunOverExtends(su: Plan, a: nat, p: nat, k: nat, time: int)
    requires ValidPlan(su) && a <= p <= k <= |su.history|
    requires p < k ==> time < su.history[p].openTime
    ensures Extends(RunOver(su, a, p), RunOver(su, a, k), time)
  {
    hide Extends;
    TailReplayable(su, a);
    RunExtends(su.env, su.start, RequiredFrom(su, a), su.history[a..], p - a, k - a, time);
  }

  lemma FollowedByNothing(x: Rows)
    ensures Followed(x, Rows([], [], [])) == x && Followed(Rows([], [], []), x) == x
  {
  }

  /** What the run of the last segment had shown when the tables were last written, behind what came before it. */
  lemma RowsBefore(su: Plan, seen: seq<Stretch>, a: nat) returns (earlier: Rows, p: nat)
    requires ValidPlan(su) && Orderly(su, seen) && a <= |su.history|
    requires seen != [] && Last(seen).from != a ==> Last(seen).to <= a
    ensures a <= p <= |su.history| && (p > a ==> p == LatestTo(su, seen)) && LatestTo(su, seen) <= p
    ensures RowsSeen(su, seen) == Followed(earlier, RowsOf(RunOver(su, a, p)))
    ensures seen != [] && Last(seen).from == a ==> p == LatestTo(su, seen) && earlier == RowsSeen(su, DropLast(seen))
    ensures seen == [] || Last(seen).from != a ==> p == a && earlier == RowsSeen(su, seen)
  {
    hide RunOver, RowsOf, Followed, StartOf, Evaluated;
    if seen != [] { assert WholeStretch(su, Last(seen)); }
    if seen != [] && Last(seen).from == a {
      earlier, p := RowsSeen(su, DropLast(seen)), Last(seen).to;
    } else {
      earlier, p := RowsSeen(su, seen), a;
      NothingRun(su, a, 0);
      FollowedByNothing(earlier);
    }
  }

  lemma RecordedSeen(su: Plan, results: Results, seen: seq<Stretch>, k: nat, now: int)
    requires ValidPlan(su) && Orderly(su, seen) && HoldsSeen(su, results, seen)
    requires LatestTo(su, seen) < k <= |su.history| && Evaluated(su, k)
    ensures var a, after := StartOf(su, k), Seeing(su, seen, k);
            var batch := BatchOf(RunOver(su, a, k), results.state.lastProcessed.GetOr(-1), Mark(su, k), k - a);
            Orderly(su, after) && HoldsSeen(su, Recorded(results, batch, now), after)
  {
    hide RunOver, RowsOf, HoldsRows, Followed, Extends, KeysDistinct, StartOf, Evaluated, Newer;
    SeeingIsOrderly(su, seen, k);
    var a := StartOf(su, k);
    var earlier, p := RowsBefore(su, seen, a);
    var threshold := Mark(su, LatestTo(su, seen));
    if p < k { MarksRise(su, LatestTo(su, seen), p + 1); }
    RunOverExtends(su, a, p, k, threshold);
    if p > a { RunOverKeys(su, a, p); } else { NothingRun(su, a, threshold); }
    EveryTradeWasPlanned(su, a, p);
    RecordingCompletes(results, earlier, RunOver(su, a, p), RunOver(su, a, k), threshold, Mark(su, k), k - a, now);
    RecordedState(results, RunOver(su, a, k), threshold, Mark(su, k), k - a, now);
    LatestRows(su, seen, k);
  }

  lemma RecordedState(results: Results, r: Run, threshold: int, mark: int, length: nat, now: int)
    ensures var after := Recorded(results, BatchOf(r, threshold, mark, length), now);
            after.state.lastProcessed == Some(mark) && after.state.openPosition == PositionOf(r)
  {
  }

  lemma RowsOfNext(su: Plan, earlier: seq<Stretch>, a: nat, k: nat)
    requires Runnable(su) && Orderly(su, earlier + [Stretch(a, k)]) && a <= k <= |su.history|
    ensures var after := earlier + [Stretch(a, k)];
            && Orderly(su, earlier) && LatestTo(su, after) == k && LatestRun(su, after) == RunOver(su, a, k)
            && RowsSeen(su, after) == Followed(RowsSeen(su, earlier), RowsOf(RunOver(su, a, k)))
  {
    hide RunOver, RowsOf, Followed, WholeStretch;
    var after := earlier + [Stretch(a, k)];
    assert DropLast(after) == earlier && Last(after) == Stretch(a, k);
    forall i | 0 <= i < |earlier| ensures WholeStretch(su, earlier[i]) { assert after[i] == earlier[i]; }
    forall i, j | 0 <= i < j < |earlier| ensures earlier[i].to <= earlier[j].from {
      assert after[i] == earlier[i] && after[j] == earlier[j];
    }
  }

  lemma LatestRows(su: Plan, seen: seq<Stretch>, k: nat)
    requires ValidPlan(su) && Orderly(su, seen) && LatestTo(su, seen) <= k <= |su.history| && Evaluated(su, k)
    ensures var a, after := StartOf(su, k), Seeing(su, seen, k);
            && Orderly(su, after) && LatestTo(su, after) == k && LatestRun(su, after) == RunOver(su, a, k)
            && var earlier := if seen != [] && Last(seen).from == a then DropLast(seen) else seen;
               Orderly(su, earlier) && RowsSeen(su, after) == Followed(RowsSeen(su, earlier), RowsOf(RunOver(su, a, k)))
  {
    hide RunOver, RowsOf, Followed, StartOf, Evaluated, Orderly, RowsSeen, LatestTo, LatestRun;
    SeeingIsOrderly(su, seen, k);
    var a := StartOf(su, k);
    var earlier := if seen != [] && Last(seen).from == a then DropLast(seen) else seen;
    assert Seeing(su, seen, k) == earlier + [Stretch(a, k)];
    RowsOfNext(su, earlier, a, k);
  }

  lemma TouchedHolds(su: Plan, results: Results, seen: seq<Stretch>, status: CycleStatus, length: Option<nat>, now: int)
    requires ValidPlan(su) && Orderly(su, seen) && HoldsSeen(su, results, seen)
    ensures HoldsSeen(su, Touched(results, status, length, now), seen)
  {
    hide RowsSeen, LatestRun;
  }

  lemma ProcessingKeeps(su: Plan, s: Shadow, seen: seq<Stretch>, k: nat, now: int)
    requires ValidPlan(su) && UpTo(su, s, seen) && s.stored <= k <= |su.history|
    ensures UpTo(su, Shadow(k, Processing(su, k, s.results, now)), Seeing(su, seen, k))
  {
    hide RowsSeen, RunOver, HoldsRows, StartOf, Evaluated, Newer, TradeRows, EquityRows, JournalRows, PositionOf,
        InsertMissing, LatestRun;
    var to := LatestTo(su, seen);
    SeeingIsOrderly(su, seen, k);
    if to < k { MarksRise(su, to, k); }
    if k > 0 && s.results.state.lastProcessed != Some(Mark(su, k)) && Evaluated(su, k) {
      RecordedSeen(su, s.results, seen, k, now);
    } else {
      if !Evaluated(su, k) { NotSeeing(su, seen, k); }
      forall status, length { TouchedHolds(su, s.results, seen, status, length, now); }
    }
  }

  lemma NotSeeing(su: Plan, seen: seq<Stretch>, k: nat)
    requires Orderly(su, seen) && k <= |su.history| && !Evaluated(su, k)
    ensures Seeing(su, seen, k) == seen
  {
  }

  /** Whatever cycles ran, crashed or were retried, the tables hold one run over each stretch they completed. */
  lemma {:induction false} TablesHoldWhatWasSeen(su: Plan, s: Shadow, cycles: seq<Cycle>)
    requires ValidPlan(su) && s.stored <= |su.history| && s.results == NO_RESULTS
    ensures UpTo(su, AfterCycles(su, s, cycles), Seen(su, s, cycles))
  {
    hide Processing, HoldsSeen, Seeing;
    if cycles == [] {
      NothingHeld(su);
    } else {
      TablesHoldWhatWasSeen(su, s, DropLast(cycles));
      var before := AfterCycles(su, s, DropLast(cycles));
      if Last(cycles).outcome == Finished {
        ProcessingKeeps(su, before, Seen(su, s, DropLast(cycles)), AfterCycles(su, s, cycles).stored, Last(cycles).now);
      }
    }
  }

  lemma NothingHeld(su: Plan)
    requires ValidPlan(su)
    ensures HoldsSeen(su, NO_RESULTS, [])
  {
  }

  // ----- A gap-free history -----------------------------------------------------------------------------------------

  lemma ContiguousSeen(su: Plan, seen: seq<Stretch>, k: nat)
    requires ValidPlan(su) && Contiguous(su.history, su.step) && Orderly(su, seen)
    requires LatestTo(su, seen) <= k <= |su.history| && Evaluated(su, k)
    ensures Seeing(su, seen, k) == [Stretch(0, k)]
  {
    forall n: nat | n <= |su.history| ensures StartOf(su, n) == 0 { ContiguousStartsAtZero(su.history, su.step, n); }
    SeeingIsOrderly(su, seen, k);
    var after := Seeing(su, seen, k);
    assert WholeStretch(su, after[0]) && WholeStretch(su, after[|after| - 1]);
  }

  /**
   * Whatever cycles ran, were skipped, crashed or were retried before, a cycle that completes over a gap-free
   * history leaves exactly the tables of one run over everything stored, and the mark at its end.
   */
  lemma AnyScheduleEqualsOneRun(su: Plan, s: Shadow, cycles: seq<Cycle>, last: Cycle)
    requires ValidPlan(su) && Contiguous(su.history, su.step) && s.stored <= |su.history| && s.results == NO_RESULTS
    requires last.outcome == Finished && AfterCycles(su, s, cycles + [last]).stored >= su.anchored
    ensures var final := AfterCycles(su, s, cycles + [last]);
            && HoldsRows(final.results, RowsOf(RunOver(su, 0, final.stored)))
            && final.results.state.lastProcessed == Some(su.history[final.stored - 1].closeTime)
            && final.results.state.openPosition == PositionOf(RunOver(su, 0, final.stored))
            && (AfterCycles(su, s, cycles).stored + last.fetched >= |su.history| ==> final.stored == |su.history|)
  {
    hide Processing, RunOver, HoldsRows, RowsOf, Seeing;
    var all := cycles + [last];
    assert DropLast(all) == cycles;
    TablesHoldWhatWasSeen(su, s, cycles);
    TablesHoldWhatWasSeen(su, s, all);
    var k := AfterCycles(su, s, all).stored;
    ContiguousStartsAtZero(su.history, su.step, k);
    ContiguousSeen(su, Seen(su, s, cycles), k);
    OneStretch(su, k);
  }

  lemma OneStretch(su: Plan, k: nat)
    requires ValidPlan(su) && Orderly(su, [Stretch(0, k)]) && k <= |su.history|
    ensures RowsSeen(su, [Stretch(0, k)]) == RowsOf(RunOver(su, 0, k)) && LatestTo(su, [Stretch(0, k)]) == k
    ensures LatestRun(su, [Stretch(0, k)]) == RunOver(su, 0, k)
  {
    hide RunOver;
    FollowedByNothing(RowsOf(RunOver(su, 0, k)));
    assert DropLast([Stretch(0, k)]) == [];
    assert RowsSeen(su, []) == Rows([], [], []);
  }

  // ----- Each row once ---------------------------------------------------------------------------------------------

  predicate KeysApart(rows: Rows) {
    DistinctKeys(rows.trades) && DistinctKeys(rows.equity) && DistinctKeys(rows.journal)
  }

  predicate RowsUntil(rows: Rows, time: int) {
    && SplitAt(rows.trades, rows.trades, TimeItself, time) && SplitAt(rows.equity, rows.equity, TimeItself, time)
    && SplitAt(rows.journal, rows.journal, JournalTime, time)
  }

  predicate RowsAfter(rows: Rows, time: int) {
    && SplitAt([], rows.trades, TimeItself, time) && SplitAt([], rows.equity, TimeItself, time)
    && SplitAt([], rows.journal, JournalTime, time)
  }

  lemma RunKeysApart(r: Run, time: int)
    requires KeysDistinct(r, time)
    ensures KeysApart(RowsOf(r))
  {
  }

  lemma DistinctConcat<K, V>(a: seq<(K, V)>, b: seq<(K, V)>, at: K -> int, time: int)
    requires DistinctKeys(a) && DistinctKeys(b) && SplitAt(a, a, at, time) && SplitAt([], b, at, time)
    ensures DistinctKeys(a + b)
  {
  }

  lemma UntilConcat<K, V>(a: seq<(K, V)>, b: seq<(K, V)>, at: K -> int, early: int, late: int)
    requires SplitAt(a, a, at, early) && SplitAt(b, b, at, late) && early <= late
    ensures SplitAt(a + b, a + b, at, late)
  {
  }

  lemma FollowedApart(x: Rows, y: Rows, early: int, late: int)
    requires KeysApart(x) && KeysApart(y) && RowsUntil(x, early) && RowsAfter(y, early) && RowsUntil(y, late)
             && early <= late
    ensures KeysApart(Followed(x, y)) && RowsUntil(Followed(x, y), late)
  {
    hide DistinctKeys, SplitAt;
    DistinctConcat(x.trades, y.trades, TimeItself, early);
    DistinctConcat(x.equity, y.equity, TimeItself, early);
    DistinctConcat(x.journal, y.journal, JournalTime, early);
    UntilConcat(x.trades, y.trades, TimeItself, early, late);
    UntilConcat(x.equity, y.equity, TimeItself, early, late);
    UntilConcat(x.journal, y.journal, JournalTime, early, late);
  }

  /** The rows of one stretch lie within it. */
  lemma StretchRows(su: Plan, a: nat, k: nat, time: int)
    requires ValidPlan(su) && a < k <= |su.history| && time < su.history[a].openTime
    ensures var rows := RowsOf(RunOver(su, a, k));
            KeysApart(rows) && RowsAfter(rows, time) && RowsUntil(rows, Mark(su, k))
  {
    hide RunOver, DistinctKeys, SplitAt, Extends, KeysDistinct, TradeRows, EquityRows, JournalRows;
    var r := RunOver(su, a, k);
    RunOverKeys(su, a, k);
    RunKeysApart(r, Mark(su, k));
    EveryTradeWasPlanned(su, a, k);
    EveryTradeWasPlanned(su, a, a);
    RunOverExtends(su, a, k, k, Mark(su, k));
    RowsSplit(r, r, Mark(su, k));
    NothingRun(su, a, time);
    RunOverExtends(su, a, a, k, time);
    RowsSplit(RunOver(su, a, a), r, time);
  }

  lemma {:induction false} SeenKeysApart(su: Plan, seen: seq<Stretch>)
    requires ValidPlan(su) && Orderly(su, seen)
    ensures KeysApart(RowsSeen(su, seen)) && RowsUntil(RowsSeen(su, seen), Mark(su, LatestTo(su, seen)))
    decreases |seen|
  {
    hide KeysApart, RowsUntil, RowsAfter, RunOver, RowsOf, Followed;
    if seen == [] {
      NothingApart();
    } else {
      var before, st := DropLast(seen), Last(seen);
      SeenKeysApart(su, before);
      assert WholeStretch(su, st);
      MarksRise(su, LatestTo(su, before), st.from + 1);
      MarksRise(su, st.from, st.to);
      StretchRows(su, st.from, st.to, Mark(su, LatestTo(su, before)));
      FollowedApart(RowsSeen(su, before), RowsOf(RunOver(su, st.from, st.to)), Mark(su, LatestTo(su, before)),
                    Mark(su, st.to));
    }
  }

  lemma NothingApart()
    ensures KeysApart(Rows([], [], [])) && RowsUntil(Rows([], [], []), -1)
  {
  }

  /** Tables that hold what was seen hold each of its rows under its own key, and nothing else. */
  lemma EachRowOnce(su: Plan, results: Results, seen: seq<Stretch>)
    requires ValidPlan(su) && Orderly(su, seen) && HoldsSeen(su, results, seen)
    ensures var rows := RowsSeen(su, seen);
            && |results.trades| == |rows.trades| && Holds(results.trades, rows.trades)
            && |results.equity| == |rows.equity| && Holds(results.equity, rows.equity)
            && |results.journal| == |rows.journal| && Holds(results.journal, rows.journal)
            && results.trades.Keys == RowKeys(rows.trades) && results.equity.Keys == RowKeys(rows.equity)
            && results.journal.Keys == RowKeys(rows.journal)
  {
    hide DistinctKeys, Holds, InsertMissing, RowKeys, RowsSeen;
    SeenKeysApart(su, seen);
    var rows := RowsSeen(su, seen);
    DistinctRowsAreKept(rows.trades);
    DistinctRowsAreKept(rows.equity);
    DistinctRowsAreKept(rows.journal);
  }

  /** Later segments add no journal row at or before the end of the first stretch. */
  lemma {:induction false} FirstStretchJournal(su: Plan, seen: seq<Stretch>, row: (JournalKey, JournalEntry))
    requires ValidPlan(su) && Orderly(su, seen) && seen != [] && WholeStretch(su, seen[0])
    requires JournalTime(row.0) <= Mark(su, seen[0].to)
    ensures row in RowsSeen(su, seen).journal <==> row in RowsOf(RunOver(su, seen[0].from, seen[0].to)).journal
    decreases |seen|
  {
    hide RunOver, RowsOf, KeysApart, RowsUntil, StartOf, Evaluated;
    var before, st := DropLast(seen), Last(seen);
    if before == [] {
      assert RowsSeen(su, before) == Rows([], [], []);
    } else {
      FirstStretchJournal(su, before, row);
      assert WholeStretch(su, Last(before)) && WholeStretch(su, st);
      if |before| > 1 { MarksRise(su, seen[0].to, LatestTo(su, before)); }
      MarksRise(su, LatestTo(su, before), st.from + 1);
      StretchRows(su, st.from, st.to, Mark(su, LatestTo(su, before)));
    }
  }

  /** What is stored under a key of the first stretch's time is what that stretch's run journalled. */
  lemma StoredEntryOfFirstStretch(su: Plan, results: Results, seen: seq<Stretch>, x: JournalEntry)
    requires ValidPlan(su) && Orderly(su, seen) && HoldsSeen(su, results, seen)
    requires seen != [] && WholeStretch(su, seen[0]) && x.time <= Mark(su, seen[0].to)
    ensures var key := JournalKey(x.kind, x.time);
            key in results.journal && results.journal[key] == x
            <==> x in RunOver(su, seen[0].from, seen[0].to).journal
  {
    hide RunOver, RowsSeen, InsertMissing, TradeRows, EquityRows;
    var row := (JournalKey(x.kind, x.time), x);
    EachRowOnce(su, results, seen);
    FirstStretchJournal(su, seen, row);
    KeyedRow(results.journal, RowsSeen(su, seen).journal, row);
    JournalRowOf(RunOver(su, seen[0].from, seen[0].to), x);
  }

  lemma KeyedRow<K, V>(m: map<K, V>, rows: seq<(K, V)>, row: (K, V))
    requires m.Keys == RowKeys(rows) && Holds(m, rows)
    ensures row.0 in m && m[row.0] == row.1 <==> row in rows
  {
    if row.0 in m { assert row.0 in m.Keys; }
  }

  lemma JournalRowOf(r: Run, x: JournalEntry)
    ensures (JournalKey(x.kind, x.time), x) in JournalRows(r) <==> x in r.journal
  {
    if x in r.journal {
      var i :| 0 <= i < |r.journal| && r.journal[i] == x;
      assert JournalRows(r)[i] == (JournalKey(x.kind, x.time), x);
    }
  }

  // ----- Which rows survive gaps -----------------------------------------------------------------------------------

  /** The run over `n` candles has an equity point for every close from its required length on. */
  predicate EquityFrom(r: Run, minRequired: nat, candles: seq<Candle>, n: nat)
    requires minRequired > 0 && n <= |candles|
  {
    && |r.equity| == (if n < minRequired then 0 else n - minRequired + 1)
    && forall j | 0 <= j < |r.equity| :: r.equity[j].time == candles[minRequired - 1 + j].closeTime
  }

  lemma EquityStep(r: Run, x: Run, minRequired: nat, candles: seq<Candle>, n: nat)
    requires minRequired > 0 && n < |candles| && EquityFrom(r, minRequired, candles, n)
    requires if n + 1 < minRequired then x == r else StepRows(r, x, candles[n])
    ensures EquityFrom(x, minRequired, candles, n + 1)
  {
    hide Adds;
    if n + 1 >= minRequired {
      assert forall j | 0 <= j < |r.equity| :: x.equity[j] == r.equity[j];
    }
  }

  lemma {:induction false} EquityTimes(e: Env, start: real, minRequired: nat, candles: seq<Candle>, n: nat)
    requires ValidEnv(e) && e.fixedRiskReward && Replayable(e, start, minRequired, candles) && n <= |candles|
    ensures EquityFrom(RunTo(e, start, minRequired, candles, n), minRequired, candles, n)
    decreases n
  {
    hide RunTo, StepRows, Chronological, AllPriced;
    if n == 0 {
      NothingRunYet(e, start, minRequired, candles);
    } else {
      hide EquityFrom;
      EquityTimes(e, start, minRequired, candles, n - 1);
      RunToStep(e, start, minRequired, candles, n - 1);
      var r, x := RunTo(e, start, minRequired, candles, n - 1), RunTo(e, start, minRequired, candles, n);
      EquityStep(r, x, minRequired, candles, n - 1);
    }
  }

  /** The candle has its equity point in the run over this stretch. */
  predicate Covers(su: Plan, st: Stretch, i: nat) {
    st.from + RequiredFrom(su, st.from) - 1 <= i < st.to
  }

  lemma StretchEquity(su: Plan, st: Stretch, i: nat)
    requires ValidPlan(su) && st.from < st.to <= |su.history| && i < |su.history|
    ensures su.history[i].closeTime in RowKeys(RowsOf(RunOver(su, st.from, st.to)).equity) <==> Covers(su, st, i)
  {
    hide RunOver;
    var a, tail, required := st.from, su.history[st.from..], RequiredFrom(su, st.from);
    var r := RunOver(su, a, st.to);
    TailReplayable(su, a);
    RunOverEquity(su, a, st.to);
    var rows := EquityRows(r);
    if Covers(su, st, i) {
      var j := i - a - required + 1;
      assert rows[j].0 == r.equity[j].time == su.history[a + required - 1 + j].closeTime;
    }
    if su.history[i].closeTime in RowKeys(rows) {
      var j :| 0 <= j < |rows| && rows[j].0 == su.history[i].closeTime;
      ClosesDiffer(su, i, a + required - 1 + j);
    }
  }

  lemma RunOverEquity(su: Plan, a: nat, k: nat)
    requires ValidPlan(su) && a < k <= |su.history|
    ensures var r, required := RunOver(su, a, k), RequiredFrom(su, a);
            && |r.equity| == (if k - a < required then 0 else k - a - required + 1)
            && forall j | 0 <= j < |r.equity| :: r.equity[j].time == su.history[a + required - 1 + j].closeTime
  {
    hide RunTo;
    TailReplayable(su, a);
    EquityTimes(su.env, su.start, RequiredFrom(su, a), su.history[a..], k - a);
  }

  lemma ClosesDiffer(su: Plan, i: nat, j: nat)
    requires ValidPlan(su) && i < |su.history| && j < |su.history|
    ensures su.history[i].closeTime == su.history[j].closeTime ==> i == j
  {
    if i < j { MarksRise(su, i + 1, j + 1); }
    if j < i { MarksRise(su, j + 1, i + 1); }
  }

  predicate Covered(su: Plan, seen: seq<Stretch>, i: nat) {
    exists st :: st in seen && Covers(su, st, i)
  }

  lemma RowKeysConcat<K, V>(a: seq<(K, V)>, b: seq<(K, V)>)
    ensures RowKeys(a + b) == RowKeys(a) + RowKeys(b)
  {
    forall k ensures k in RowKeys(a + b) <==> k in RowKeys(a) + RowKeys(b) {
      if k in RowKeys(a) {
        var i :| 0 <= i < |a| && a[i].0 == k;
        assert (a + b)[i].0 == k;
      }
      if k in RowKeys(b) {
        var i :| 0 <= i < |b| && b[i].0 == k;
        assert (a + b)[|a| + i].0 == k;
      }
    }
  }

  lemma {:induction false} EquityOfSeen(su: Plan, seen: seq<Stretch>, i: nat)
    requires ValidPlan(su) && Orderly(su, seen) && i < |su.history|
    ensures su.history[i].closeTime in RowKeys(RowsSeen(su, seen).equity) <==> Covered(su, seen, i)
    decreases |seen|
  {
    hide Covers, RowKeys, RunOver, RowsOf;
    if seen == [] {
      NoKeys<int, EquityPoint>();
    } else {
      var before, st := DropLast(seen), Last(seen);
      EquityOfSeen(su, before, i);
      assert WholeStretch(su, st);
      StretchEquity(su, st, i);
      RowKeysConcat(RowsSeen(su, before).equity, RowsOf(RunOver(su, st.from, st.to)).equity);
      assert seen == before + [st];
    }
  }

  lemma NoKeys<K, V>()
    ensures RowKeys<K, V>([]) == {}
  {
  }

  /** A completed cycle over `k` candles that ends in the candle's own segment, at or after the candle. */
  predicate Catches(su: Plan, k: nat, i: nat)
    requires k <= |su.history| && i < |su.history|
  {
    i < k && StartOf(su, k) == StartOf(su, i + 1)
  }

  lemma StretchCatches(su: Plan, k: nat, i: nat)
    requires ValidPlan(su) && k <= |su.history| && i < |su.history|
    ensures Evaluated(su, i + 1) && Catches(su, k, i) <==> Evaluated(su, k) && Covers(su, Stretch(StartOf(su, k), k), i)
  {
    hide StartOf;
    if i < k { SegmentsMeet(su, i + 1, k); }
  }

  lemma SeeingCovers(su: Plan, seen: seq<Stretch>, k: nat, i: nat)
    requires ValidPlan(su) && Orderly(su, seen) && LatestTo(su, seen) <= k <= |su.history| && i < |su.history|
    ensures Covered(su, Seeing(su, seen, k), i) <==> Covered(su, seen, i) || (Evaluated(su, i + 1) && Catches(su, k, i))
  {
    hide StartOf, Evaluated, Catches;
    StretchCatches(su, k, i);
    var a, after := StartOf(su, k), Seeing(su, seen, k);
    if Evaluated(su, k) {
      var st := Stretch(a, k);
      var earlier := if seen != [] && Last(seen).from == a then DropLast(seen) else seen;
      assert after == earlier + [st];
      if seen != [] && Last(seen).from == a {
        assert seen == earlier + [Last(seen)];
        assert Covers(su, Last(seen), i) ==> Covers(su, st, i);
      }
    }
  }

  /** Some completed cycle of the schedule caught the candle. */
  ghost predicate CaughtBy(su: Plan, s: Shadow, cycles: seq<Cycle>, i: nat)
    requires Runnable(su) && s.stored <= |su.history| && i < |su.history|
  {
    exists j :: 0 <= j < |cycles| && cycles[j].outcome == Finished
                && Catches(su, AfterCycles(su, s, cycles[..j + 1]).stored, i)
  }

  lemma CaughtStep(su: Plan, s: Shadow, cycles: seq<Cycle>, i: nat)
    requires Runnable(su) && s.stored <= |su.history| && i < |su.history| && cycles != []
    ensures CaughtBy(su, s, cycles, i) <==>
              CaughtBy(su, s, DropLast(cycles), i)
              || (Last(cycles).outcome == Finished && Catches(su, AfterCycles(su, s, cycles).stored, i))
  {
    hide Catches, AfterCycles;
    var before, n := DropLast(cycles), |cycles| - 1;
    assert cycles[..n + 1] == cycles;
    forall j | 0 <= j < n ensures before[..j + 1] == cycles[..j + 1] && before[j] == cycles[j] {}
  }

  lemma {:induction false} CoveredIsCaught(su: Plan, s: Shadow, cycles: seq<Cycle>, i: nat)
    requires ValidPlan(su) && s.stored <= |su.history| && s.results == NO_RESULTS && i < |su.history|
    ensures Covered(su, Seen(su, s, cycles), i) <==> Evaluated(su, i + 1) && CaughtBy(su, s, cycles, i)
    decreases |cycles|
  {
    hide Covered, CaughtBy, Catches, Evaluated, Processing, HoldsSeen, Seeing;
    if cycles == [] {
      NothingCaught(su, s, i);
    } else {
      var before := DropLast(cycles);
      CoveredIsCaught(su, s, before, i);
      CaughtStep(su, s, cycles, i);
      TablesHoldWhatWasSeen(su, s, before);
      if Last(cycles).outcome == Finished {
        SeeingCovers(su, Seen(su, s, before), AfterCycles(su, s, cycles).stored, i);
      }
    }
  }

  lemma NothingCaught(su: Plan, s: Shadow, i: nat)
    requires Runnable(su) && s.stored <= |su.history| && i < |su.history|
    ensures !Covered(su, [], i) && !CaughtBy(su, s, [], i)
  {
  }

  /**
   * Over a history with gaps, a candle has its equity row exactly when its segment had reached the required
   * length by it and some completed cycle ended in that segment, at the candle or after it.
   */
  lemma RowSurvivesExactlyWhenCaught(su: Plan, s: Shadow, cycles: seq<Cycle>, i: nat)
    requires ValidPlan(su) && s.stored <= |su.history| && s.results == NO_RESULTS && i < |su.history|
    ensures su.history[i].closeTime in AfterCycles(su, s, cycles).results.equity
       <==> Evaluated(su, i + 1) && CaughtBy(su, s, cycles, i)
  {
    hide Covered, CaughtBy, Evaluated, AfterCycles, RowsSeen, RowKeys, Seen, Orderly, Holds;
    TablesHoldWhatWasSeen(su, s, cycles);
    var seen, results := Seen(su, s, cycles), AfterCycles(su, s, cycles).results;
    EachRowOnce(su, results, seen);
    EquityOfSeen(su, seen, i);
    CoveredIsCaught(su, s, cycles, i);
    assert su.history[i].closeTime in results.equity <==> su.history[i].closeTime in results.equity.Keys;
  }

  // ----- When the schedule does not matter -------------------------------------------------------------------------

  /** The schedule ends with a completed cycle over the whole history. */
  predicate EndsComplete(su: Plan, s: Shadow, cycles: seq<Cycle>)
    requires Runnable(su) && s.stored <= |su.history|
  {
    cycles != [] && Last(cycles).outcome == Finished && AfterCycles(su, s, cycles).stored == |su.history|
  }

  predicate SameTables(x: Results, y: Results) {
    && x.trades == y.trades && x.equity == y.equity && x.journal == y.journal
    && x.state.lastProcessed == y.state.lastProcessed && x.state.openPosition == y.state.openPosition
  }

  ghost predicate ScheduleIndependent(su: Plan, s: Shadow)
    requires Runnable(su) && s.stored <= |su.history|
  {
    forall x, y | EndsComplete(su, s, x) && EndsComplete(su, s, y) ::
      SameTables(AfterCycles(su, s, x).results, AfterCycles(su, s, y).results)
  }

  /** Every prefix whose last segment can be evaluated ends in the segment that the whole history ends in. */
  ghost predicate OnlyLastSegmentEvaluated(su: Plan, stored: nat) {
    forall z: nat | stored <= z <= |su.history| && Evaluated(su, z) :: StartOf(su, z) == StartOf(su, |su.history|)
  }

  /** A segment skipped by the schedule leaves no row; visited, it does. */
  lemma SkippedSegmentLeavesNoRow(su: Plan, s: Shadow, z: nat, now: int)
    requires ValidPlan(su) && s.results == NO_RESULTS && s.stored <= z <= |su.history|
    requires Evaluated(su, z) && StartOf(su, z) != StartOf(su, |su.history|)
    ensures var visiting := [Cycle(z - s.stored, Finished, now), Cycle(|su.history| - z, Finished, now)];
            var skipping := [Cycle(|su.history| - s.stored, Finished, now)];
            && EndsComplete(su, s, visiting) && EndsComplete(su, s, skipping)
            && su.history[z - 1].closeTime in AfterCycles(su, s, visiting).results.equity
            && su.history[z - 1].closeTime !in AfterCycles(su, s, skipping).results.equity
  {
    hide Evaluated, StartOf, Processing;
    EvaluatedIsPositive(su, z);
    var visiting := [Cycle(z - s.stored, Finished, now), Cycle(|su.history| - z, Finished, now)];
    var skipping := [Cycle(|su.history| - s.stored, Finished, now)];
    assert DropLast(visiting) == visiting[..0 + 1] == [visiting[0]] && DropLast([visiting[0]]) == [];
    assert DropLast(skipping) == [] && skipping[..0 + 1] == skipping;
    assert AfterCycles(su, s, [visiting[0]]).stored == z;
    assert Catches(su, AfterCycles(su, s, visiting[..0 + 1]).stored, z - 1);
    RowSurvivesExactlyWhenCaught(su, s, visiting, z - 1);
    RowSurvivesExactlyWhenCaught(su, s, skipping, z - 1);
  }

  lemma EvaluatedIsPositive(su: Plan, z: nat)
    requires z <= |su.history| && Evaluated(su, z)
    ensures z > 0
  {
  }

  lemma {:induction false} StoredSince(su: Plan, s: Shadow, cycles: seq<Cycle>, st: Stretch)
    requires Runnable(su) && s.stored <= |su.history| && st in Seen(su, s, cycles)
    ensures s.stored <= st.to
  {
    hide Evaluated, StartOf, Processing;
    var before := DropLast(cycles);
    if st in Seen(su, s, before) { StoredSince(su, s, before, st); }
  }

  function StretchAt(seen: seq<Stretch>, i: nat): Stretch {
    if i < |seen| then seen[i] else Stretch(0, 0)
  }

  /** What is seen at the end, if only the last segment can ever be evaluated. */
  lemma OnlyLastSeen(su: Plan, s: Shadow, cycles: seq<Cycle>)
    requires ValidPlan(su) && s.stored <= |su.history| && s.results == NO_RESULTS
    requires OnlyLastSegmentEvaluated(su, s.stored) && EndsComplete(su, s, cycles)
    ensures Seen(su, s, cycles)
         == if Evaluated(su, |su.history|) then [Stretch(StartOf(su, |su.history|), |su.history|)] else []
  {
    hide Evaluated, StartOf, Processing, HoldsSeen;
    var n, before, after := |su.history|, Seen(su, s, DropLast(cycles)), Seen(su, s, cycles);
    var first, second := StretchAt(after, 0), StretchAt(after, 1);
    TablesHoldWhatWasSeen(su, s, DropLast(cycles));
    TablesHoldWhatWasSeen(su, s, cycles);
    SeeingIsOrderly(su, before, n);
    forall i | 0 <= i < |after|
      ensures after[i].from == StartOf(su, n) < after[i].to && Evaluated(su, n)
    {
      StoredSince(su, s, cycles, after[i]);
      assert WholeStretch(su, after[i]);
      LongerIsEvaluated(su, after[i].to, n);
    }
    assert |after| <= 1;
  }

  lemma LongerIsEvaluated(su: Plan, z: nat, n: nat)
    requires z <= n <= |su.history| && Evaluated(su, z) && StartOf(su, z) == StartOf(su, n)
    ensures Evaluated(su, n)
  {
  }

  /** The tables depend on the whole history alone, and not on the schedule, exactly under that condition. */
  lemma ScheduleMattersOnlyWithGaps(su: Plan, s: Shadow)
    requires ValidPlan(su) && s.stored <= |su.history| && s.results == NO_RESULTS
    ensures ScheduleIndependent(su, s) <==> OnlyLastSegmentEvaluated(su, s.stored)
  {
    hide Evaluated, StartOf, AfterCycles, RowsSeen, HoldsRows, LatestRun;
    if ScheduleIndependent(su, s) {
      forall z: nat | s.stored <= z <= |su.history| && Evaluated(su, z)
        ensures StartOf(su, z) == StartOf(su, |su.history|)
      {
        if StartOf(su, z) != StartOf(su, |su.history|) { SkippedSegmentLeavesNoRow(su, s, z, 0); }
      }
    }
    if OnlyLastSegmentEvaluated(su, s.stored) {
      forall x, y | EndsComplete(su, s, x) && EndsComplete(su, s, y)
        ensures SameTables(AfterCycles(su, s, x).results, AfterCycles(su, s, y).results)
      {
        OnlyLastSeen(su, s, x);
        OnlyLastSeen(su, s, y);
        TablesHoldWhatWasSeen(su, s, x);
        TablesHoldWhatWasSeen(su, s, y);
        SeenDecides(su, AfterCycles(su, s, x).results, AfterCycles(su, s, y).results, Seen(su, s, x));
      }
    }
  }

  lemma SeenDecides(su: Plan, x: Results, y: Results, seen: seq<Stretch>)
    requires ValidPlan(su) && Orderly(su, seen) && HoldsSeen(su, x, seen) && HoldsSeen(su, y, seen)
    ensures SameTables(x, y)
  {
    hide RowsSeen, LatestRun;
  }
}
