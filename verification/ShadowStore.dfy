// The durable results of the shadow run (shadow/store.py): three tables whose inserts ignore a key that is
// already present, and one row of run state with the high-water mark.

module ShadowStore {
  import opened Common
  import opened Backtest

  datatype TradeRecord = TradeRecord(trade: Trade, plannedRisk: Option<real>)

  datatype JournalKey = JournalKey(kind: JournalKind, time: int)

  datatype OpenPosition = OpenPosition(entryTime: int, entryPrice: real, entryReference: real, quantity: real,
                                       entryFee: real)

  datatype CycleStatus = NeverRun | Processed | NoNewCandles | InsufficientData

  datatype RunState = RunState(lastProcessed: Option<int>, lastRunAt: Option<int>, totalCycles: nat,
                               segmentLength: Option<nat>, status: CycleStatus, openPosition: Option<OpenPosition>)

  const NO_RUN_STATE := RunState(None, None, 0, None, NeverRun, None)

  datatype Results = Results(trades: map<int, TradeRecord>, equity: map<int, EquityPoint>,
                             journal: map<JournalKey, JournalEntry>, state: RunState)

  const NO_RESULTS := Results(map[], map[], map[], NO_RUN_STATE)

  /** Rows in order, each ignored when its key is taken. */
  function InsertMissing<K, V>(table: map<K, V>, rows: seq<(K, V)>): map<K, V> {
    if rows == [] then table
    else
      var m := InsertMissing(table, DropLast(rows));
      if Last(rows).0 in m then m else m[Last(rows).0 := Last(rows).1]
  }

  /** An insert that ignores a key already present, row by row. */
  method InsertRows<K(==), V>(table: map<K, V>, rows: seq<(K, V)>) returns (after: map<K, V>)
    ensures after == InsertMissing(table, rows)
  {
    after := table;
    for i := 0 to |rows|
      invariant after == InsertMissing(table, rows[..i])
    {
      assert DropLast(rows[..i + 1]) == rows[..i];
      if rows[i].0 !in after { after := after[rows[i].0 := rows[i].1]; }
    }
    assert rows[..|rows|] == rows;
  }

  /** What one processed cycle adds. */
  datatype Batch = Batch(trades: seq<(int, TradeRecord)>, equity: seq<(int, EquityPoint)>,
                         journal: seq<(JournalKey, JournalEntry)>, lastProcessed: int,
                         openPosition: Option<OpenPosition>, segmentLength: nat)

  function Recorded(r: Results, b: Batch, now: int): Results {
    Results(InsertMissing(r.trades, b.trades), InsertMissing(r.equity, b.equity), InsertMissing(r.journal, b.journal),
            RunState(Some(b.lastProcessed), Some(now), r.state.totalCycles + 1, Some(b.segmentLength), Processed,
                     b.openPosition))
  }

  function Touched(r: Results, status: CycleStatus, segmentLength: Option<nat>, now: int): Results {
    r.(state := r.state.(lastRunAt := Some(now), totalCycles := r.state.totalCycles + 1,
                         segmentLength := segmentLength, status := status))
  }

  datatype BootstrapState = BootstrapState(warmupStart: int, warmupLastOpen: int, warmupCount: nat,
                                           effectiveMinRequired: nat, at: int)

  datatype WarmupRow = WarmupRow(closeTime: int, fetchedAt: int)

  function WarmupRows(candles: seq<Candle>, at: int): seq<(int, WarmupRow)> {
    seq(|candles|, i requires 0 <= i < |candles| => (candles[i].openTime, WarmupRow(candles[i].closeTime, at)))
  }

  datatype FaultPoint = NoFault | AfterTrades | AfterEquity | AfterJournal | AfterWarmupCandles | BeforeCommit

  class ShadowTables {
    var trades: map<int, TradeRecord>
    var equity: map<int, EquityPoint>
    var journal: map<JournalKey, JournalEntry>
    var state: RunState
    var warmup: map<int, WarmupRow>
    var bootstrap: Option<BootstrapState>
    var faultAt: FaultPoint

    ghost function Contents(): Results
      reads this
    {
      Results(trades, equity, journal, state)
    }

    constructor ()
      ensures Contents() == NO_RESULTS && warmup == map[] && bootstrap == None && faultAt == NoFault
    {
      trades, equity, journal, state := map[], map[], map[], NO_RUN_STATE;
      warmup, bootstrap, faultAt := map[], None, NoFault;
    }

    /** Every row of the cycle and the new high-water mark, or, if interrupted anywhere, none of it. */
    method RecordCycleAtomically(b: Batch, now: int) returns (committed: bool)
      modifies `trades, `equity, `journal, `state
      ensures committed <==> faultAt !in {AfterTrades, AfterEquity, AfterJournal, BeforeCommit}
      ensures Contents() == if committed then Recorded(old(Contents()), b, now) else old(Contents())
    {
      var tradesBefore, equityBefore, journalBefore, stateBefore := trades, equity, journal, state;
      committed := WriteCycle(b, now);
      if !committed {
        trades, equity, journal, state := tradesBefore, equityBefore, journalBefore, stateBefore;
      }
    }

    /** The body of the transaction; a fault leaves the rows written so far, for the caller to roll back. */
    method WriteCycle(b: Batch, now: int) returns (done: bool)
      modifies `trades, `equity, `journal, `state
      ensures done <==> faultAt !in {AfterTrades, AfterEquity, AfterJournal, BeforeCommit}
      ensures done ==> Contents() == Recorded(old(Contents()), b, now)
    {
      trades := InsertRows(trades, b.trades);
      if faultAt == AfterTrades { return false; }
      equity := InsertRows(equity, b.equity);
      if faultAt == AfterEquity { return false; }
      journal := InsertRows(journal, b.journal);
      if faultAt == AfterJournal { return false; }
      state := RunState(Some(b.lastProcessed), Some(now), state.totalCycles + 1, Some(b.segmentLength), Processed,
                        b.openPosition);
      done := faultAt != BeforeCommit;
    }

    /** A cycle without data changes: the high-water mark and the open position stay. */
    method TouchCycle(status: CycleStatus, segmentLength: Option<nat>, now: int)
      modifies `state
      ensures Contents() == Touched(old(Contents()), status, segmentLength, now)
    {
      state := state.(lastRunAt := Some(now), totalCycles := state.totalCycles + 1, segmentLength := segmentLength,
                      status := status);
    }

    /** Warm-up provenance and the bootstrap row together; an existing bootstrap row is never replaced. */
    method RecordBootstrapAtomically(candles: seq<Candle>, b: BootstrapState) returns (committed: bool)
      modifies `warmup, `bootstrap
      ensures committed <==> faultAt !in {AfterWarmupCandles, BeforeCommit}
      ensures !committed ==> warmup == old(warmup) && bootstrap == old(bootstrap)
      ensures committed ==> warmup == InsertMissing(old(warmup), WarmupRows(candles, b.at))
                            && bootstrap == if old(bootstrap).Some? then old(bootstrap) else Some(b)
    {
      var warmupBefore, bootstrapBefore := warmup, bootstrap;
      warmup := InsertRows(warmup, WarmupRows(candles, b.at));
      if bootstrap.None? { bootstrap := Some(b); }
      committed := faultAt !in {AfterWarmupCandles, BeforeCommit};
      if !committed { warmup, bootstrap := warmupBefore, bootstrapBefore; }
    }
  }

  // ----- Inserting rows -----------------------------------------------------------------------------------------

  /** Inserting in two instalments is inserting once. */
  lemma {:induction false} InsertInTwo<K, V>(table: map<K, V>, first: seq<(K, V)>, second: seq<(K, V)>)
    ensures InsertMissing(InsertMissing(table, first), second) == InsertMissing(table, first + second)
    decreases |second|
  {
    if second == [] {
      assert first + second == first;
    } else {
      InsertInTwo(table, first, DropLast(second));
      assert DropLast(first + second) == first + DropLast(second);
    }
  }

  predicate DistinctKeys<K(==), V>(rows: seq<(K, V)>) {
    forall i, j | 0 <= i < j < |rows| :: rows[i].0 != rows[j].0
  }

  function RowKeys<K, V>(rows: seq<(K, V)>): set<K> {
    set i | 0 <= i < |rows| :: rows[i].0
  }

  lemma RowKeysStep<K, V>(rows: seq<(K, V)>)
    requires rows != []
    ensures RowKeys(rows) == RowKeys(DropLast(rows)) + {Last(rows).0}
  {
  }

  predicate Holds<K, V(==)>(m: map<K, V>, rows: seq<(K, V)>) {
    forall i | 0 <= i < |rows| :: rows[i].0 in m && m[rows[i].0] == rows[i].1
  }

  lemma HoldsOneMore<K, V>(m: map<K, V>, rows: seq<(K, V)>)
    requires rows != [] && Holds(m, DropLast(rows)) && Last(rows).0 !in m
    ensures Holds(m[Last(rows).0 := Last(rows).1], rows)
  {
  }

  /** Rows with distinct keys are all kept, each exactly once, and nothing else is. */
  lemma {:induction false} DistinctRowsAreKept<K, V>(rows: seq<(K, V)>)
    requires DistinctKeys(rows)
    ensures var m := InsertMissing(map[], rows); |m| == |rows| && m.Keys == RowKeys(rows) && Holds(m, rows)
    decreases |rows|
  {
    hide Holds, RowKeys;
    if rows == [] {
      HoldsNothing<K, V>(map[], rows);
    } else {
      PrefixKeysDistinct(rows);
      DistinctRowsAreKept(DropLast(rows));
      RowKeysStep(rows);
      LastKeyIsNew(rows);
      HoldsOneMore(InsertMissing(map[], DropLast(rows)), rows);
    }
  }

  lemma HoldsNothing<K, V>(m: map<K, V>, rows: seq<(K, V)>)
    requires rows == []
    ensures Holds(m, rows) && RowKeys(rows) == {}
  {
  }

  lemma PrefixKeysDistinct<K, V>(rows: seq<(K, V)>)
    requires rows != [] && DistinctKeys(rows)
    ensures DistinctKeys(DropLast(rows))
  {
  }

  lemma LastKeyIsNew<K, V>(rows: seq<(K, V)>)
    requires rows != [] && DistinctKeys(rows)
    ensures Last(rows).0 !in RowKeys(DropLast(rows))
  {
  }
}
