// What the shadow store (shadow/store.py) tells about the run behind it: every stored trade against its planned
// risk, the open position against the candle it was bought on, and the run state against the cycles that ran.

module ShadowRecords {
  import opened Common
  import opened Portfolio
  import opened RiskReward
  import opened Backtest
  import opened BacktestInvariant
  import opened BacktestReport
  import opened GapDetection
  import opened HistoricalFetch
  import opened ShadowStore
  import opened ShadowReplay
  import opened ShadowSchedule
  import opened ShadowSession
  import ShadowEngine

  // ----- Stored trades -----------------------------------------------------------------------------------------

  /** A trade stored under its exit time with what its stop was planned to lose: a target earns twice that. */
  predicate HonouredRecord(e: Env, time: int, x: TradeRecord) {
    var t, stop := x.trade, StopBelow(x.trade.entryPrice, e.costs);
    && time == t.exitTime
    && x.plannedRisk.Some? && x.plannedRisk.value == Amount(t.quantity, LossPerUnit(t.entryPrice, stop, e.costs)) > 0.0
    && (t.reason == TakeProfit ==> t.pnl >= MIN_NET_REWARD_TO_RISK * x.plannedRisk.value)
    && (t.reason == StopLoss && t.exitReference == stop ==> t.pnl == -x.plannedRisk.value)
    && (t.reason == StopLoss && t.exitReference != stop ==> t.pnl < -x.plannedRisk.value)
  }

  predicate HonouredRows(e: Env, rows: seq<(int, TradeRecord)>) {
    forall i | 0 <= i < |rows| :: HonouredRecord(e, rows[i].0, rows[i].1)
  }

  lemma RunRowsAreHonoured(su: Plan, a: nat, k: nat)
    requires ValidPlan(su) && a <= k <= |su.history|
    ensures HonouredRows(su.env, RowsOf(RunOver(su, a, k)).trades)
  {
    hide RunSegment, RunTo, StopBelow, LossPerUnit, Sound;
    RunIsKept(su, a, k);
    var r := RunOver(su, a, k);
    forall i | 0 <= i < |r.trades| ensures HonouredRecord(su.env, TradeRow(r, i).0, TradeRow(r, i).1) {
      assert Honoured(su.env, r.trades[i], r.diag.plannedRisks[i], r.diag.plannedRewards[i],
                      su.start + TotalPnl(r.trades[..i]));
    }
  }

  lemma RunIsKept(su: Plan, a: nat, k: nat)
    requires ValidPlan(su) && a <= k <= |su.history|
    ensures Inv(su.env, su.start, RunOver(su, a, k))
  {
    hide RunSegment, RunTo;
    TailReplayable(su, a);
    PrefixReplayable(su.env, su.start, RequiredFrom(su, a), su.history[a..], k - a);
    RunOverSucceeds(su, a, k);
    RunKeepsInv(su.env, su.start, RequiredFrom(su, a), su.history[a..][..k - a]);
  }

  lemma {:induction false} SeenRowsAreHonoured(su: Plan, seen: seq<Stretch>)
    requires ValidPlan(su) && Orderly(su, seen)
    ensures HonouredRows(su.env, RowsSeen(su, seen).trades)
    decreases |seen|
  {
    hide RunOver, RowsOf, HonouredRecord, StartOf, Evaluated;
    if seen != [] {
      SeenRowsAreHonoured(su, DropLast(seen));
      assert WholeStretch(su, Last(seen));
      RunRowsAreHonoured(su, Last(seen).from, Last(seen).to);
    }
  }

  /** After any schedule of cycles, every trade in the table realised what is stored as planned for it. */
  lemma StoredTradesHonourTheirPlans(su: Plan, s: Shadow, cycles: seq<Cycle>, time: int)
    requires ValidPlan(su) && s.stored <= |su.history| && s.results == NO_RESULTS
    requires time in AfterCycles(su, s, cycles).results.trades
    ensures HonouredRecord(su.env, time, AfterCycles(su, s, cycles).results.trades[time])
  {
    hide AfterCycles, Seen, RowsSeen, HonouredRecord, Orderly, HoldsRows;
    TablesHoldWhatWasSeen(su, s, cycles);
    var results, seen := AfterCycles(su, s, cycles).results, Seen(su, s, cycles);
    EachRowOnce(su, results, seen);
    SeenRowsAreHonoured(su, seen);
    var rows := RowsSeen(su, seen).trades;
    assert time in results.trades.Keys;
    var i :| 0 <= i < |rows| && rows[i].0 == time;
  }

  // ----- The open position -----------------------------------------------------------------------------------------

  /** The stored position is the run's whole holding, at the price and fee of the candle it was bought on. */
  predicate IsPositionOf(su: Plan, r: Run, st: Stretch, stored: Option<OpenPosition>)
    requires st.from <= st.to <= |su.history|
  {
    && (stored.Some? <==> r.portfolio.base > 0.0)
    && (stored.Some? ==>
          var p := stored.value;
          && p.quantity == r.portfolio.base && p.entryFee == p.quantity * p.entryPrice * su.env.costs.fee
          && exists i :: st.from <= i < st.to && p.entryTime == su.history[i].openTime
                         && p.entryReference == su.history[i].open
                         && p.entryPrice == su.history[i].open * (1.0 + su.env.costs.slippage))
  }

  lemma FeeIsExplicit(quantity: real, price: real, fee: real)
    ensures Amount(quantity, price) * fee == quantity * price * fee
  {
  }

  lemma RunPosition(su: Plan, st: Stretch)
    requires ValidPlan(su) && st.from <= st.to <= |su.history|
    ensures var r := RunOver(su, st.from, st.to); IsPositionOf(su, r, st, PositionOf(r))
  {
    hide RunSegment, RunTo, RunOver, PlansHonoured;
    PlanIsRunnable(su);
    hide ValidPlan;
    var r, own := RunOver(su, st.from, st.to), su.history[st.from..][..st.to - st.from];
    RunIsKept(su, st.from, st.to);
    HoldingIsPositive(su.env, su.start, r);
    RunOverSucceeds(su, st.from, st.to);
    PositionWasOpenedWithin(su.env, su.start, RequiredFrom(su, st.from), own);
    if r.openTrade.Some? {
      var o := r.openTrade.value;
      FeeIsExplicit(o.quantity, o.entryPrice, su.env.costs.fee);
      var c :| c in own && OpenedOn(su.env, o, c);
      var i :| 0 <= i < |own| && own[i] == c;
      assert su.history[st.from + i] == c;
    }
  }

  lemma PlanIsRunnable(su: Plan)
    requires ValidPlan(su)
    ensures ValidEnv(su.env) && su.start > 0.0 && Runnable(su) && su.env.fixedRiskReward
  {
  }

  lemma HoldingIsPositive(e: Env, start: real, r: Run)
    requires Inv(e, start, r)
    ensures r.openTrade.Some? <==> r.portfolio.base > 0.0
    ensures PositionLinked(e, BooksOf(r))
  {
  }

  /** After any schedule of cycles, the stored position is what the latest stretch ended with. */
  lemma StoredPositionIsTheHolding(su: Plan, s: Shadow, cycles: seq<Cycle>)
    requires ValidPlan(su) && s.stored <= |su.history| && s.results == NO_RESULTS
    ensures var stored, seen := AfterCycles(su, s, cycles).results.state.openPosition, Seen(su, s, cycles);
            && (seen == [] ==> stored == None)
            && (seen != [] ==> var st := Last(seen);
                               && st.from <= st.to <= |su.history|
                               && IsPositionOf(su, RunOver(su, st.from, st.to), st, stored))
  {
    hide AfterCycles, Seen, RowsSeen, HoldsRows, RunOver, IsPositionOf, StartOf, Evaluated;
    TablesHoldWhatWasSeen(su, s, cycles);
    var seen := Seen(su, s, cycles);
    if seen != [] {
      assert WholeStretch(su, Last(seen));
      RunPosition(su, Last(seen));
    }
  }

  // ----- The run state ---------------------------------------------------------------------------------------------

  function FinishedCycles(cycles: seq<Cycle>): nat {
    if cycles == [] then 0 else FinishedCycles(DropLast(cycles)) + if Last(cycles).outcome == Finished then 1 else 0
  }

  /** How many cycles up to and including the last one that finished. */
  function UpToLastFinished(cycles: seq<Cycle>): (n: nat)
    ensures n <= |cycles| && (n > 0 ==> cycles[n - 1].outcome == Finished)
    ensures forall i | n <= i < |cycles| :: cycles[i].outcome != Finished
  {
    if cycles == [] || Last(cycles).outcome == Finished then |cycles| else UpToLastFinished(DropLast(cycles))
  }

  /** The candles stored when the last finished cycle decided; none before the first. */
  function DecidedOver(su: Plan, s: Shadow, cycles: seq<Cycle>): nat
    requires Runnable(su) && s.stored <= |su.history|
  {
    var n := UpToLastFinished(cycles);
    if n == 0 then 0 else AfterCycles(su, s, cycles[..n]).stored
  }

  /** The last finished cycle came after the tables already held everything it read. */
  predicate NothingNew(su: Plan, s: Shadow, cycles: seq<Cycle>)
    requires Runnable(su) && s.stored <= |su.history|
  {
    var n, k := UpToLastFinished(cycles), DecidedOver(su, s, cycles);
    k == 0 || (n > 0 && var seen := Seen(su, s, cycles[..n - 1]); seen != [] && Last(seen).to == k)
  }

  /** The run state counts the finished cycles and describes the last of them. */
  predicate TellsTheCycles(su: Plan, s: Shadow, cycles: seq<Cycle>, state: RunState)
    requires Runnable(su) && s.stored <= |su.history|
  {
    var n, k := UpToLastFinished(cycles), DecidedOver(su, s, cycles);
    && k <= |su.history|
    && state.totalCycles == FinishedCycles(cycles)
    && state.lastRunAt == (if n == 0 then None else Some(cycles[n - 1].now))
    && state.segmentLength == (if k == 0 then None else Some(k - StartOf(su, k)))
    && state.status == if n == 0 then NeverRun
                       else if NothingNew(su, s, cycles) then NoNewCandles
                       else if Evaluated(su, k) then Processed
                       else InsufficientData
  }

  lemma UnfinishedIsNotTold(su: Plan, s: Shadow, cycles: seq<Cycle>)
    requires Runnable(su) && s.stored <= |su.history| && cycles != [] && Last(cycles).outcome != Finished
    ensures var before := DropLast(cycles);
            && UpToLastFinished(cycles) == UpToLastFinished(before)
            && DecidedOver(su, s, cycles) == DecidedOver(su, s, before)
            && NothingNew(su, s, cycles) == NothingNew(su, s, before)
            && AfterCycles(su, s, cycles).results == AfterCycles(su, s, before).results
  {
    hide Processing;
    var before, n := DropLast(cycles), UpToLastFinished(cycles);
    assert cycles[..n] == before[..n];
    if n > 0 { assert cycles[..n - 1] == before[..n - 1]; }
  }

  /** Nothing is seen that a finished cycle did not read. */
  lemma {:induction false} SeenWasRead(su: Plan, s: Shadow, cycles: seq<Cycle>)
    requires ValidPlan(su) && s.stored <= |su.history| && s.results == NO_RESULTS
    ensures Orderly(su, Seen(su, s, cycles))
    ensures LatestTo(su, Seen(su, s, cycles)) <= DecidedOver(su, s, cycles) <= AfterCycles(su, s, cycles).stored
  {
    hide Processing, HoldsSeen, StartOf, Evaluated;
    TablesHoldWhatWasSeen(su, s, cycles);
    if cycles != [] {
      var before := DropLast(cycles);
      SeenWasRead(su, s, before);
      if Last(cycles).outcome == Finished {
        assert cycles[..|cycles|] == cycles;
      } else {
        UnfinishedIsNotTold(su, s, cycles);
      }
    }
  }

  /** After any schedule of cycles the run state tells them: how many finished, when the last one did, and how. */
  lemma {:induction false} RunStateTellsTheCycles(su: Plan, s: Shadow, cycles: seq<Cycle>)
    requires ValidPlan(su) && s.stored <= |su.history| && s.results == NO_RESULTS
    ensures TellsTheCycles(su, s, cycles, AfterCycles(su, s, cycles).results.state)
  {
    hide Processing, StartOf, Evaluated, Seen, NothingNew;
    if cycles == [] {
      NothingTold(su, s);
    } else {
      RunStateTellsTheCycles(su, s, DropLast(cycles));
      if Last(cycles).outcome == Finished {
        FinishedIsTold(su, s, cycles);
      } else {
        UnfinishedIsNotTold(su, s, cycles);
      }
    }
  }

  lemma NothingTold(su: Plan, s: Shadow)
    requires ValidPlan(su) && s.stored <= |su.history|
    ensures TellsTheCycles(su, s, [], NO_RUN_STATE)
  {
  }

  /** What one finished cycle over `k` candles writes to the run state, given what was seen before it. */
  lemma ProcessingIsTold(su: Plan, results: Results, seen: seq<Stretch>, k: nat, now: int)
    requires ValidPlan(su) && Orderly(su, seen) && HoldsSeen(su, results, seen)
    requires LatestTo(su, seen) <= k <= |su.history|
    ensures var state := Processing(su, k, results, now).state;
            var known := k == 0 || (seen != [] && Last(seen).to == k);
            && state.totalCycles == results.state.totalCycles + 1 && state.lastRunAt == Some(now)
            && state.segmentLength == (if k == 0 then None
                                       else if known then results.state.segmentLength
                                       else Some(k - StartOf(su, k)))
            && state.status == if known then NoNewCandles
                               else if Evaluated(su, k) then Processed else InsufficientData
  {
    hide StartOf, Evaluated, Newer, TradeRows, EquityRows, JournalRows, RunOver, HoldsRows, RowsSeen, InsertMissing,
        LatestRun, PositionOf;
    if seen != [] {
      assert WholeStretch(su, Last(seen));
      if Last(seen).to < k { MarksRise(su, Last(seen).to, k); }
    }
  }

  lemma FinishedDecides(su: Plan, s: Shadow, cycles: seq<Cycle>)
    requires Runnable(su) && s.stored <= |su.history| && cycles != [] && Last(cycles).outcome == Finished
    ensures UpToLastFinished(cycles) == |cycles| && FinishedCycles(cycles) == FinishedCycles(DropLast(cycles)) + 1
    ensures var before, k := AfterCycles(su, s, DropLast(cycles)), AfterCycles(su, s, cycles).stored;
            && DecidedOver(su, s, cycles) == k && before.stored <= k
            && AfterCycles(su, s, cycles).results == Processing(su, k, before.results, Last(cycles).now)
    ensures var seen, k := Seen(su, s, DropLast(cycles)), DecidedOver(su, s, cycles);
            NothingNew(su, s, cycles) <==> k == 0 || (seen != [] && Last(seen).to == k)
  {
    hide StartOf, Evaluated, Processing, Seeing, Seen;
    var n := |cycles|;
    assert cycles[..n] == cycles && cycles[..n - 1] == DropLast(cycles);
  }

  lemma FinishedIsTold(su: Plan, s: Shadow, cycles: seq<Cycle>)
    requires ValidPlan(su) && s.stored <= |su.history| && s.results == NO_RESULTS
    requires cycles != [] && Last(cycles).outcome == Finished
    requires TellsTheCycles(su, s, DropLast(cycles), AfterCycles(su, s, DropLast(cycles)).results.state)
    ensures TellsTheCycles(su, s, cycles, AfterCycles(su, s, cycles).results.state)
  {
    hide StartOf, Evaluated, Processing, HoldsSeen, Seen, AfterCycles, NothingNew, DecidedOver, UpToLastFinished,
        FinishedCycles, Orderly;
    var before := DropLast(cycles);
    FinishedDecides(su, s, cycles);
    SeenWasRead(su, s, before);
    TablesHoldWhatWasSeen(su, s, before);
    ProcessingIsTold(su, AfterCycles(su, s, before).results, Seen(su, s, before), DecidedOver(su, s, cycles),
                     Last(cycles).now);
  }

  /** So at every moment of a session: what is stored tells of every trade, of the position and of the cycles. */
  lemma SessionRecords(x: Session, time: int)
    requires x.Valid() && x.shadow.bootstrap.Some?
    ensures var su, s := ShadowEngine.PlanOf(x.cfg, x.shadow.bootstrap.value, x.history),
                         Shadow(WarmupLength(x.cfg), NO_RESULTS);
            && ValidPlan(su) && s.stored <= |su.history|
            && TellsTheCycles(su, s, x.cycles, x.shadow.state)
            && (time in x.shadow.trades ==> HonouredRecord(su.env, time, x.shadow.trades[time]))
            && var seen := Seen(su, s, x.cycles);
               if seen == [] then x.shadow.state.openPosition == None
               else var st := Last(seen);
                    && st.from <= st.to <= |su.history|
                    && IsPositionOf(su, RunOver(su, st.from, st.to), st, x.shadow.state.openPosition)
  {
    var su, s := ShadowEngine.PlanOf(x.cfg, x.shadow.bootstrap.value, x.history),
                 Shadow(WarmupLength(x.cfg), NO_RESULTS);
    PlanIsValid(x.cfg, x.shadow.bootstrap.value, x.history);
    hide TellsTheCycles, HonouredRecord, IsPositionOf, Seen, RunOver, AfterCycles;
    RunStateTellsTheCycles(su, s, x.cycles);
    StoredPositionIsTheHolding(su, s, x.cycles);
    if time in x.shadow.trades { StoredTradesHonourTheirPlans(su, s, x.cycles, time); }
  }

  // ----- Inserting, warm-up and fetching ---------------------------------------------------------------------------

  /** A key that was in the table keeps its value; a new one has the value of its first row. */
  lemma {:induction false} FirstRowIsKept<K, V>(table: map<K, V>, rows: seq<(K, V)>, key: K)
    ensures var after := InsertMissing(table, rows);
            && (key in after <==> key in table || exists i :: 0 <= i < |rows| && rows[i].0 == key)
            && (key in table ==> after[key] == table[key])
            && (key in after && key !in table ==>
                  exists i :: 0 <= i < |rows| && rows[i] == (key, after[key])
                              && forall j | 0 <= j < i :: rows[j].0 != key)
    decreases |rows|
  {
    if rows != [] {
      FirstRowIsKept(table, DropLast(rows), key);
      assert rows == DropLast(rows) + [Last(rows)];
    }
  }

  /** The recorded warm-up tells of each of its candles when it closed and when it was fetched. */
  lemma WarmupIsProvenance(candles: seq<Candle>, at: int)
    requires Increasing(candles)
    ensures var warmup := InsertMissing(map[], WarmupRows(candles, at));
            && |warmup| == |candles|
            && forall c | c in candles :: c.openTime in warmup && warmup[c.openTime] == WarmupRow(c.closeTime, at)
  {
    hide InsertMissing;
    var rows := WarmupRows(candles, at);
    DistinctRowsAreKept(rows);
    forall c | c in candles
      ensures var warmup := InsertMissing(map[], rows);
              c.openTime in warmup && warmup[c.openTime] == WarmupRow(c.closeTime, at)
    {
      var i :| 0 <= i < |candles| && candles[i] == c;
      assert rows[i].0 == c.openTime;
    }
  }

  /** What a cycle may fetch: not before the boundary, and opening after the latest stored close. */
  predicate Fetchable(c: Candle, boundary: int, latest: Option<int>) {
    c.openTime >= boundary && (latest.Some? ==> c.openTime > latest.value)
  }

  /** A fetch takes the first candles it may, up to its limit, and skips none. */
  lemma FetchTakesTheFirst(market: seq<Candle>, boundary: int, latest: Option<int>, limit: nat) returns (p: nat)
    requires Increasing(market)
    ensures p <= |market| && forall i | 0 <= i < |market| :: Fetchable(market[i], boundary, latest) <==> i >= p
    ensures ShadowEngine.FromBoundary(
              ShadowEngine.ServeFrom(market, ShadowEngine.FetchStart(boundary, latest), limit), boundary)
         == market[p..p + Smaller(|market| - p, limit)]
  {
    hide ShadowEngine.FromBoundary, Before;
    var from := ShadowEngine.FetchStart(boundary, latest);
    BeforeSplits(market, from);
    p := Before(market, from);
    var n := Smaller(|market| - p, limit);
    assert market[p..][..n] == market[p..p + n];
    ShadowEngine.FromBoundaryKeeps(market[p..p + n], boundary);
  }
}
