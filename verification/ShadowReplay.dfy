// What a run has produced over a prefix of the history is never revised by a longer one, so storing only the rows
// past the high-water mark (shadow/engine.py) completes the tables of the shorter run to those of the longer.

module ShadowReplay {
  import opened Common
  import opened ExchangeFilters
  import opened Portfolio
  import opened RiskReward
  import opened Sizing
  import opened Backtest
  import opened BacktestInvariant
  import opened BacktestTheorems
  import opened ShadowStore

  /** Candles that do not overlap, at non-negative times. */
  predicate Chronological(candles: seq<Candle>) {
    && (forall i | 0 <= i < |candles| :: 0 <= candles[i].openTime <= candles[i].closeTime)
    && (forall i, j | 0 <= i < j < |candles| :: candles[i].closeTime < candles[j].openTime)
  }

  // ----- What one candle adds to a run ------------------------------------------------------------------------

  /** The order in which the loop writes its journal within one candle. */
  function Rank(kind: JournalKind): nat {
    match kind
    case SizingEntry => 0
    case RiskEntry => 1
    case ValidationEntry => 2
    case StopEntry => 3
    case TakeProfitEntry => 4
    case SignalEntry => 5
  }

  predicate StampedBy(x: JournalEntry, c: Candle) {
    x.time == if x.kind == SignalEntry then c.closeTime else c.openTime
  }

  /** Appended entries are stamped by the candle and strictly ordered by rank. */
  predicate Adds(before: seq<JournalEntry>, after: seq<JournalEntry>, lo: nat, hi: nat, c: Candle) {
    && before <= after
    && (forall i | |before| <= i < |after| :: lo <= Rank(after[i].kind) < hi && StampedBy(after[i], c))
    && (forall i, j | |before| <= i < j < |after| :: Rank(after[i].kind) < Rank(after[j].kind))
  }

  lemma AddsCompose(a: seq<JournalEntry>, b: seq<JournalEntry>, d: seq<JournalEntry>, lo: nat, mid: nat, hi: nat,
                    c: Candle)
    requires lo <= mid <= hi && Adds(a, b, lo, mid, c) && Adds(b, d, mid, hi, c)
    ensures Adds(a, d, lo, hi, c)
  {
  }

  /** Appending the next decision entry keeps the rank order. */
  lemma DecisionAdds(base: seq<JournalEntry>, r: Run, kind: JournalKind, c: Candle, decided: SignalType,
                     refusal: Option<Reason>)
    requires kind != SignalEntry && Adds(base, r.journal, 0, Rank(kind), c)
    ensures var x := RecordDecision(r, kind, c.openTime, decided, refusal);
            && Adds(base, x.journal, 0, Rank(kind) + 1, c) && x.equity == r.equity && x.diag == r.diag
  {
  }

  lemma AddsWiden(base: seq<JournalEntry>, after: seq<JournalEntry>, hi: nat, wider: nat, c: Candle)
    requires Adds(base, after, 0, hi, c) && hi <= wider
    ensures Adds(base, after, 0, wider, c)
  {
  }

  predicate SameRows(r: Run, x: Run) {
    x.journal == r.journal && x.equity == r.equity && r.diag.plannedRisks <= x.diag.plannedRisks
  }

  lemma FillBuyKeepsRows(e: Env, r: Run, c: Candle, quantity: real)
    requires ValidCosts(e.costs) && ValidFilters(e.filters) && (e.fixedRiskReward ==> EntryPlan(e, r, c).approved)
    ensures var x := FillBuy(e, r, c, quantity); x.Ok? ==> SameRows(r, x.value)
  {
  }

  lemma RefusalsKeepRows(r: Run, reason: Reason, code: RiskCode, time: int, equity: real)
    ensures SameRows(r, RejectEntry(r, reason)) && SameRows(r, RejectSizing(r, reason))
    ensures SameRows(r, RejectByRisk(r, code, time, equity))
  {
  }

  lemma ResolveBuyAdds(e: Env, r: Run, c: Candle)
    requires ValidCosts(e.costs) && ValidFilters(e.filters)
    ensures var x := ResolveBuy(e, r, c);
            x.Ok? ==> Adds(r.journal, x.value.journal, 0, 3, c)
                      && x.value.equity == r.equity && r.diag.plannedRisks <= x.value.diag.plannedRisks
  {
    hide Adds, RecordDecision, FillBuy, RejectSizing, RejectByRisk, RejectEntry, RiskGate, ValidationGate, RefusalOf,
        Equity;
    NothingAdded(r.journal, c);
    var sized := SizeBuy(e, r, c);
    var refusal0 := if sized.Ok? then None else Some(sized.error);
    var s := RecordDecision(r, SizingEntry, c.openTime, Buy, refusal0);
    DecisionAdds(r.journal, r, SizingEntry, c, Buy, refusal0);
    AddsWiden(r.journal, s.journal, 1, 3, c);
    if sized.Err? {
      RefusalsKeepRows(s, sized.error, KillSwitchEngaged, 0, 0.0);
    } else {
      var risk := RiskGate(e, s, c, Buy, sized.value);
      var refusal1 := if risk.None? then None else Some(ByRisk(risk.value));
      var g := RecordDecision(s, RiskEntry, c.openTime, Buy, refusal1);
      DecisionAdds(r.journal, s, RiskEntry, c, Buy, refusal1);
      AddsWiden(r.journal, g.journal, 2, 3, c);
      if risk.Some? {
        RefusalsKeepRows(g, ByRisk(risk.value), risk.value, c.openTime, Equity(g.portfolio, c.open));
      } else {
        var valid := ValidationGate(e, c, sized.value);
        var v := RecordDecision(g, ValidationEntry, c.openTime, Buy, RefusalOf(valid));
        DecisionAdds(r.journal, g, ValidationEntry, c, Buy, RefusalOf(valid));
        if valid.Err? {
          RefusalsKeepRows(v, ByValidator(valid.error), KillSwitchEngaged, 0, 0.0);
        } else {
          SamePlan(e, r, v, c, refusal0, refusal1, RefusalOf(valid));
          FillBuyKeepsRows(e, v, c, valid.value);
        }
      }
    }
  }

  lemma NothingAdded(journal: seq<JournalEntry>, c: Candle)
    ensures Adds(journal, journal, 0, 0, c)
  {
  }

  /** Journalling does not change what the entry is planned from. */
  lemma SamePlan(e: Env, r: Run, v: Run, c: Candle, a: Option<Reason>, b: Option<Reason>, d: Option<Reason>)
    requires ValidCosts(e.costs) && ValidFilters(e.filters)
    requires v == RecordDecision(RecordDecision(RecordDecision(r, SizingEntry, c.openTime, Buy, a),
                                                RiskEntry, c.openTime, Buy, b),
                                 ValidationEntry, c.openTime, Buy, d)
    ensures EntryPlan(e, v, c) == EntryPlan(e, r, c)
  {
  }

  lemma ResolveExitAdds(e: Env, r: Run, c: Candle)
    ensures var x := ResolveExit(e, r, c);
            x.Ok? ==> Adds(r.journal, x.value.journal, 0, 3, c)
                      && x.value.equity == r.equity && r.diag.plannedRisks <= x.value.diag.plannedRisks
  {
    hide ApplySell, SellQuantity, RiskGate, ValidateOrder, SimulateSell;
  }

  lemma ResolveAdds(e: Env, r: Run, c: Candle)
    requires ValidCosts(e.costs) && ValidFilters(e.filters)
    ensures var x := Resolve(e, r, c);
            x.Ok? ==> Adds(r.journal, x.value.journal, 0, 3, c)
                      && x.value.equity == r.equity && r.diag.plannedRisks <= x.value.diag.plannedRisks
  {
    hide ResolveBuy, ResolveExit;
    var q := r.(peak := Max(r.peak, Equity(r.portfolio, c.open)), pending := Hold);
    ResolveBuyAdds(e, q, c);
    ResolveExitAdds(e, q, c);
  }

  lemma ProtectAdds(e: Env, r: Run, c: Candle)
    ensures var x := Protect(e, r, c);
            x.Ok? ==> Adds(r.journal, x.value.journal, 3, 5, c)
                      && x.value.equity == r.equity && x.value.diag.plannedRisks == r.diag.plannedRisks
  {
    hide ApplySell, SimulateSell;
  }

  lemma CloseAdds(e: Env, r: Run, history: seq<Candle>)
    requires |history| > 0
    ensures var x := CloseCandle(e, r, history);
            && Adds(r.journal, x.journal, 5, 6, Last(history)) && |x.journal| == |r.journal| + 1
            && x.equity == r.equity + [Last(x.equity)] && Last(x.equity).time == Last(history).closeTime
            && x.trades == r.trades && x.diag.plannedRisks == r.diag.plannedRisks
  {
  }

  /** One step: at most one trade, exactly one equity point, and journal entries in rank order. */
  predicate StepRows(r: Run, x: Run, c: Candle) {
    && (x.trades == r.trades || (|x.trades| > 0 && x.trades == r.trades + [Last(x.trades)]
                                 && Last(x.trades).exitTime == c.openTime))
    && |x.equity| > 0 && x.equity == r.equity + [Last(x.equity)] && Last(x.equity).time == c.closeTime
    && Adds(r.journal, x.journal, 0, 6, c)
    && r.diag.plannedRisks <= x.diag.plannedRisks
  }

  lemma StepAddsRows(e: Env, start: real, r: Run, history: seq<Candle>)
    requires ValidEnv(e) && Inv(e, start, r) && |history| > 0 && Priced(Last(history))
    ensures var x := Step(e, r, history); x.Ok? ==> StepRows(r, x.value, Last(history))
  {
    StepExitsAtMostOnce(e, start, r, history);
    var c := Last(history);
    var b := BeginCandle(r, c);
    ResolveAdds(e, b, c);
    var filled := Resolve(e, b, c);
    if filled.Ok? {
      ProtectAdds(e, filled.value, c);
      var guarded := Protect(e, filled.value, c);
      if guarded.Ok? {
        CloseAdds(e, guarded.value, history);
        hide Resolve, Protect, CloseCandle, Adds;
        var x := CloseCandle(e, guarded.value, history);
        AddsCompose(b.journal, filled.value.journal, guarded.value.journal, 0, 3, 5, c);
        AddsCompose(b.journal, guarded.value.journal, x.journal, 0, 5, 6, c);
      }
    }
  }

  // ----- A longer history only appends ---------------------------------------------------------------------------

  /** `x` repeats everything in `r` and adds only what happened after `time`. */
  predicate Extends(r: Run, x: Run, time: int) {
    && r.trades <= x.trades && (forall i | |r.trades| <= i < |x.trades| :: x.trades[i].exitTime > time)
    && r.equity <= x.equity && (forall i | |r.equity| <= i < |x.equity| :: x.equity[i].time > time)
    && r.journal <= x.journal && (forall i | |r.journal| <= i < |x.journal| :: x.journal[i].time > time)
    && r.diag.plannedRisks <= x.diag.plannedRisks
  }

  lemma StepExtends(r: Run, x: Run, c: Candle, time: int)
    requires StepRows(r, x, c) && time < c.openTime <= c.closeTime
    ensures Extends(r, x, time)
  {
  }

  lemma ExtendsTwice(r: Run, x: Run, y: Run, time: int)
    requires Extends(r, x, time) && Extends(x, y, time)
    ensures Extends(r, y, time)
  {
  }

  predicate Replayable(e: Env, start: real, minRequired: nat, candles: seq<Candle>) {
    start > 0.0 && minRequired > 0 && AllPriced(candles) && Chronological(candles)
  }

  lemma PrefixReplayable(e: Env, start: real, minRequired: nat, candles: seq<Candle>, n: nat)
    requires Replayable(e, start, minRequired, candles) && n <= |candles|
    ensures Replayable(e, start, minRequired, candles[..n])
  {
  }

  /** The run over the first `n` candles; under the policy it never fails. */
  function RunTo(e: Env, start: real, minRequired: nat, candles: seq<Candle>, n: nat): Run
    requires ValidCosts(e.costs) && ValidFilters(e.filters) && minRequired > 0 && n <= |candles|
  {
    match RunSegment(e, start, minRequired, candles[..n])
    case Ok(r) => r
    case Err(_) => InitialRun(start)
  }

  /** One more candle, once past the warm-up, is one step. */
  lemma RunToStep(e: Env, start: real, minRequired: nat, candles: seq<Candle>, n: nat)
    requires ValidEnv(e) && e.fixedRiskReward && Replayable(e, start, minRequired, candles) && n < |candles|
    ensures var r, x := RunTo(e, start, minRequired, candles, n), RunTo(e, start, minRequired, candles, n + 1);
            if n + 1 < minRequired then r == x == InitialRun(start) else StepRows(r, x, candles[n])
  {
    var longer := candles[..n + 1];
    assert DropLast(longer) == candles[..n] && Last(longer) == candles[n];
    PrefixReplayable(e, start, minRequired, candles, n);
    PrefixReplayable(e, start, minRequired, candles, n + 1);
    PolicyRunIsCoherent(e, start, minRequired, candles[..n]);
    PolicyRunIsCoherent(e, start, minRequired, longer);
    if n + 1 >= minRequired {
      RunKeepsInv(e, start, minRequired, candles[..n]);
      assert candles[n] in candles;
      StepAddsRows(e, start, RunSegment(e, start, minRequired, candles[..n]).value, longer);
    }
  }

  /** What a prefix produced is never revised, and everything new is later than any time before the later candles. */
  lemma {:induction false} RunExtends(e: Env, start: real, minRequired: nat, candles: seq<Candle>, p: nat, n: nat,
                                      time: int)
    requires ValidEnv(e) && e.fixedRiskReward && Replayable(e, start, minRequired, candles) && p <= n <= |candles|
    requires forall i | p <= i < n :: time < candles[i].openTime
    ensures Extends(RunTo(e, start, minRequired, candles, p), RunTo(e, start, minRequired, candles, n), time)
    decreases n
  {
    hide RunTo, StepRows;
    if n > p {
      RunExtends(e, start, minRequired, candles, p, n - 1, time);
      RunToStep(e, start, minRequired, candles, n - 1);
      var r, x := RunTo(e, start, minRequired, candles, n - 1), RunTo(e, start, minRequired, candles, n);
      if n >= minRequired { StepExtends(r, x, candles[n - 1], time); }
      ExtendsTwice(RunTo(e, start, minRequired, candles, p), r, x, time);
    }
  }

  // ----- Every row has its own key ----------------------------------------------------------------------------------

  /** Times rise along each list, and no journal key repeats; nothing is later than `time`. */
  predicate KeysDistinct(r: Run, time: int) {
    && (forall i, j | 0 <= i < j < |r.trades| :: r.trades[i].exitTime < r.trades[j].exitTime)
    && (forall i, j | 0 <= i < j < |r.equity| :: r.equity[i].time < r.equity[j].time)
    && (forall i, j | 0 <= i < j < |r.journal| :: r.journal[i].time < r.journal[j].time
                                               || Rank(r.journal[i].kind) < Rank(r.journal[j].kind))
    && (forall i | 0 <= i < |r.trades| :: r.trades[i].exitTime <= time)
    && (forall i | 0 <= i < |r.equity| :: r.equity[i].time <= time)
    && (forall i | 0 <= i < |r.journal| :: r.journal[i].time <= time)
  }

  lemma StepKeepsKeys(r: Run, x: Run, c: Candle, time: int)
    requires StepRows(r, x, c) && KeysDistinct(r, time) && time < c.openTime <= c.closeTime
    ensures KeysDistinct(x, c.closeTime)
  {
  }

  lemma {:induction false} RunKeysDistinct(e: Env, start: real, minRequired: nat, candles: seq<Candle>, n: nat)
    requires ValidEnv(e) && e.fixedRiskReward && Replayable(e, start, minRequired, candles) && n <= |candles|
    ensures KeysDistinct(RunTo(e, start, minRequired, candles, n), if n == 0 then -1 else candles[n - 1].closeTime)
  {
    hide RunTo, StepRows;
    if n == 0 {
      NothingRunYet(e, start, minRequired, candles);
    } else {
      RunKeysDistinct(e, start, minRequired, candles, n - 1);
      RunToStep(e, start, minRequired, candles, n - 1);
      if n >= minRequired {
        StepKeepsKeys(RunTo(e, start, minRequired, candles, n - 1), RunTo(e, start, minRequired, candles, n),
                      candles[n - 1], if n == 1 then -1 else candles[n - 2].closeTime);
      }
    }
  }

  lemma NothingRunYet(e: Env, start: real, minRequired: nat, candles: seq<Candle>)
    requires ValidEnv(e) && minRequired > 0
    ensures RunTo(e, start, minRequired, candles, 0) == InitialRun(start)
  {
  }

  // ----- Rows of a run ---------------------------------------------------------------------------------------------

  function TradeRow(r: Run, i: nat): (int, TradeRecord)
    requires i < |r.trades|
  {
    (r.trades[i].exitTime,
     TradeRecord(r.trades[i], if i < |r.diag.plannedRisks| then Some(r.diag.plannedRisks[i]) else None))
  }

  function TradeRows(r: Run): seq<(int, TradeRecord)> {
    seq(|r.trades|, i requires 0 <= i < |r.trades| => TradeRow(r, i))
  }

  function EquityRows(r: Run): seq<(int, EquityPoint)> {
    seq(|r.equity|, i requires 0 <= i < |r.equity| => (r.equity[i].time, r.equity[i]))
  }

  function JournalRows(r: Run): seq<(JournalKey, JournalEntry)> {
    seq(|r.journal|, i requires 0 <= i < |r.journal| =>
          (JournalKey(r.journal[i].kind, r.journal[i].time), r.journal[i]))
  }

  function PositionOf(r: Run): Option<OpenPosition> {
    match r.openTrade
    case None => None
    case Some(o) => Some(OpenPosition(o.entryTime, o.entryPrice, o.entryReference, o.quantity, o.entryFee))
  }

  function Newer<K, V>(rows: seq<(K, V)>, at: K -> int, threshold: int): seq<(K, V)> {
    if rows == [] then []
    else Newer(DropLast(rows), at, threshold) + if at(Last(rows).0) > threshold then [Last(rows)] else []
  }

  lemma {:induction false} NewerIsNothing<K, V>(rows: seq<(K, V)>, at: K -> int, threshold: int)
    requires forall i | 0 <= i < |rows| :: at(rows[i].0) <= threshold
    ensures Newer(rows, at, threshold) == []
  {
    if rows != [] { NewerIsNothing(DropLast(rows), at, threshold); }
  }

  lemma {:induction false} NewerIsTail<K, V>(older: seq<(K, V)>, newer: seq<(K, V)>, at: K -> int, threshold: int)
    requires forall i | 0 <= i < |older| :: at(older[i].0) <= threshold
    requires forall i | 0 <= i < |newer| :: at(newer[i].0) > threshold
    ensures Newer(older + newer, at, threshold) == newer
    decreases |newer|
  {
    var rows := older + newer;
    if newer == [] {
      assert rows == older;
      NewerIsNothing(older, at, threshold);
    } else {
      assert DropLast(rows) == older + DropLast(newer) && Last(rows) == Last(newer);
      NewerIsTail(older, DropLast(newer), at, threshold);
    }
  }

  /** The rows of `own` start the longer list, and the threshold lies between them and the rest. */
  predicate SplitAt<K(==), V(==)>(own: seq<(K, V)>, all: seq<(K, V)>, at: K -> int, threshold: int) {
    && own <= all
    && (forall i | 0 <= i < |own| :: at(own[i].0) <= threshold)
    && (forall i | |own| <= i < |all| :: at(all[i].0) > threshold)
  }

  /** Behind earlier rows, inserting only the newer rows of a longer list completes the table of the shorter one. */
  lemma NewerCompletes<K, V>(earlier: seq<(K, V)>, own: seq<(K, V)>, all: seq<(K, V)>, at: K -> int, threshold: int)
    requires SplitAt(own, all, at, threshold)
    ensures InsertMissing(InsertMissing(map[], earlier + own), Newer(all, at, threshold))
         == InsertMissing(map[], earlier + all)
  {
    hide InsertMissing, Newer;
    var tail := all[|own|..];
    assert all == own + tail;
    NewerIsTail(own, tail, at, threshold);
    InsertInTwo(map[], earlier + own, tail);
    assert earlier + own + tail == earlier + all;
  }

  // ----- The cycle's effect ----------------------------------------------------------------------------------------

  function TimeItself(time: int): int { time }

  function JournalTime(k: JournalKey): int { k.time }

  /** Everything the run produced after the high-water mark. */
  function BatchOf(r: Run, threshold: int, lastProcessed: int, segmentLength: nat): Batch {
    Batch(Newer(TradeRows(r), TimeItself, threshold), Newer(EquityRows(r), TimeItself, threshold),
          Newer(JournalRows(r), JournalTime, threshold), lastProcessed, PositionOf(r), segmentLength)
  }

  /** Rows for the three tables, oldest first. */
  datatype Rows = Rows(trades: seq<(int, TradeRecord)>, equity: seq<(int, EquityPoint)>,
                       journal: seq<(JournalKey, JournalEntry)>)

  function RowsOf(r: Run): Rows {
    Rows(TradeRows(r), EquityRows(r), JournalRows(r))
  }

  function Followed(x: Rows, y: Rows): Rows {
    Rows(x.trades + y.trades, x.equity + y.equity, x.journal + y.journal)
  }

  /** The tables hold these rows and nothing else. */
  predicate HoldsRows(results: Results, rows: Rows) {
    && results.trades == InsertMissing(map[], rows.trades)
    && results.equity == InsertMissing(map[], rows.equity)
    && results.journal == InsertMissing(map[], rows.journal)
  }

  lemma RowsSplit(r: Run, x: Run, threshold: int)
    requires Extends(r, x, threshold) && KeysDistinct(r, threshold) && |r.trades| <= |r.diag.plannedRisks|
    ensures SplitAt(TradeRows(r), TradeRows(x), TimeItself, threshold)
    ensures SplitAt(EquityRows(r), EquityRows(x), TimeItself, threshold)
    ensures SplitAt(JournalRows(r), JournalRows(x), JournalTime, threshold)
  {
    TradeRowsExtend(r, x);
    assert forall i | 0 <= i < |EquityRows(r)| :: EquityRows(x)[i] == EquityRows(r)[i];
    assert forall i | 0 <= i < |JournalRows(r)| :: JournalRows(x)[i] == JournalRows(r)[i];
  }

  /** Storing what lies past the mark turns the rows of a prefix into the rows of the longer run. */
  lemma RecordingCompletes(results: Results, earlier: Rows, r: Run, x: Run, threshold: int, lastProcessed: int,
                           length: nat, now: int)
    requires HoldsRows(results, Followed(earlier, RowsOf(r)))
    requires Extends(r, x, threshold) && KeysDistinct(r, threshold) && |r.trades| <= |r.diag.plannedRisks|
    ensures HoldsRows(Recorded(results, BatchOf(x, threshold, lastProcessed, length), now),
                      Followed(earlier, RowsOf(x)))
  {
    hide Newer, InsertMissing, TradeRows, EquityRows, JournalRows, Extends, KeysDistinct, SplitAt;
    RowsSplit(r, x, threshold);
    NewerCompletes(earlier.trades, TradeRows(r), TradeRows(x), TimeItself, threshold);
    NewerCompletes(earlier.equity, EquityRows(r), EquityRows(x), TimeItself, threshold);
    NewerCompletes(earlier.journal, JournalRows(r), JournalRows(x), JournalTime, threshold);
  }

  lemma TradeRowsExtend(r: Run, x: Run)
    requires r.trades <= x.trades && r.diag.plannedRisks <= x.diag.plannedRisks && |r.trades| <= |r.diag.plannedRisks|
    ensures TradeRows(r) <= TradeRows(x)
  {
  }
}
