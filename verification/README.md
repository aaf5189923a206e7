# A verified model of the trading agent

The trading agent simulates, shadows and (on a test network) trades a spot market on completed candles. This
project models its decision-bearing code in Dafny and proves what each part is there to guarantee. Money, prices
and indicator values are exact reals; times are whole milliseconds; a database is a set of maps and a transaction
either commits or leaves them as they were; the exchange and the market-data server are arbitrary within the few
rules stated below. Check everything with `dafny verify dfyconfig.toml`.

**Simulation** (`ExchangeFilters`, `Portfolio`, `RiskReward`, `Sizing`, `Backtest*`). One gap-free segment is
simulated candle by candle. `Backtest` is the meaning of the loop, a fold in which each step sees only the candles
so far; `BacktestEngine` is the loop over mutable state, proved to compute that fold; `BacktestInvariant` and
`BacktestTheorems` say what holds of every run. `BacktestFigures` derives the counters the gates read from trades
and candles, `BacktestEntries` and `BacktestExits` say exactly when a position must be opened and closed, and
`BacktestJournal` and `BacktestReport` what the records of a run say about it. The strategy is any function of the
visible candles and the position that buys only when flat.

**Order lifecycle** (`OrderOutcome`, `ExecutionStore`, `OrderProtocol`, `RiskFigures`, `LiveRunner`).
`OrderProtocol` is a state machine of one agent and an exchange that fills partially, loses answers and never merges
two requests; the agent may stop anywhere. `LiveRunner` is the cycle step by step; each effect is recorded as a move
of that machine, so whatever holds in all its reachable states holds after every cycle. `RiskFigures` says what the
figures saved between cycles count.

**Shadow mode** (`ShadowStore`, `ShadowReplay`, `ShadowSchedule`, `ShadowEngine`, `ShadowSession`, `ShadowRecords`,
`SettlingBuffer`). Every cycle recomputes the latest gap-free segment and stores only what is past a high-water
mark. What any schedule of cycles, skips, crashes and retries leaves is stated exactly, for every history; over a
gap-free one it is the tables of one run. `ShadowSession` ties the stored tables of the running program to that
statement, and `ShadowRecords` says what the stored trades, position and run state tell. `SettlingBuffer` says which
BUYs the replay of the bootstrapped segment can journal.

**Candidates** (`Indicators`, `BreakoutGate`, `Buckets`, `MultiTimeframe`, `TrendRegime`). Strategies that rescan
the history on every call are related, over all prefixes of one history, to forward descriptions of what they
decide.

**Market data** (`Grid`, `GapDetection`, `CandleStore`, `HistoricalFetch`, `GapRecovery`, `FixedDuration`,
`ScheduleAccounts`). Partition, paging, recovery and schedule arithmetic. Which attempts of which requests fail, and
when a time budget is spent, are inputs; what then succeeds and what fails is exact.

Assumptions, each a precondition where it is used: 0 <= fee < 1, 0 <= slippage < 1 and positive prices; the
exchange answers not-found only for a request that will never land; exchange reports are truthful, and a sale's
commission is not charged in the base asset; the market-data server returns the first `limit` candles of an inclusive
range, at least one interval apart, each closing one millisecond before the next may open; and in shadow mode the
configuration and the symbol's filters, which the source fetches anew in every cycle, stay the same from cycle to
cycle (a change between two cycles would revise what the earlier one stored).

Where a property fails of the code, or the code differs from what it says of itself, the code is followed:

- A window of a fixed-duration schedule is said to be always usable once the schedule is built
  (`src/trading_agent/research/fixed_duration_evaluation.py:246-254`); with a candle interval longer than the block it
  can be empty. `FixedDuration.AWindowCanBeEmpty` is such a case and
  `FixedDuration.WindowsEvaluateExactlyWhenCandlesSuffice` the exact condition.
- A cold start writes a base balance of zero even when the exchange holds dust below the minimum quantity
  (`src/trading_agent/execution/live_runner.py:107-122`), so balances agree from the start exactly when there is none
  (`LiveRunner.SeedingIgnoresDust`); the protocol's balance results start from an agreeing account.
- Balances agree whenever no order is unresolved, but not only then: an unresolved order with nothing executed leaves
  them equal too (`OrderProtocol.OpenRowCanAgree`). `OrderProtocol.BaseAgreesExactlyWhenApplied` states the exact
  condition.
- Applying all reports of an order equals applying the last one unless that last one is a NEW report: NEW is ignored
  whatever it executed (`src/trading_agent/execution/order_outcome.py:100-105`).
  `OrderOutcome.NewReportHidesWhatWasBooked` is such a case, `OrderOutcome.OnlyTheLastReportMatters` the exact
  condition.
- A fee that could only be estimated is never corrected. If the difference exceeds the balance tolerance, selling is
  blocked for good: `OrderProtocol.EstimatedFeeRemains` gives the run, `LiveRunner.Session.RunCycle` the consequence.
- A shadow cycle replays only the latest segment (`src/trading_agent/shadow/engine.py:420-448`), so after a gap the
  tables depend on when cycles ran. `ShadowSchedule.SkippedSegmentLeavesNoRow` is such a case,
  `ShadowSchedule.RowSurvivesExactlyWhenCaught` and `ShadowSchedule.ScheduleMattersOnlyWithGaps` the exact conditions.

## Model

| member | source | states |
|---|---|---|
| ExchangeFilters.RoundDownIdempotent | src/trading_agent/sizing/exchange_filters.py:62-68 | rounding a quantity down to the step a second time changes nothing, for every value and step |
| ExchangeFilters.RoundDownBounds | src/trading_agent/sizing/exchange_filters.py:62-68 | rounding down loses less than one step and never enlarges a quantity |
| ExchangeFilters.RoundDownIsLargest | src/trading_agent/sizing/exchange_filters.py:62-68 | no aligned quantity within the value is larger than the rounded one |
| ExchangeFilters.RoundUpBounds | src/trading_agent/backtest/risk_reward.py:199-215 | ceiling to the tick yields a multiple of the tick, never lowers a price and adds less than one tick |
| ExchangeFilters.ValidatorKeepsPlannedQuantity | src/trading_agent/execution/order_validator.py:38-46 | a positive aligned quantity that passed the filters comes back unchanged exactly when the symbols match |
| Sizing.SaleLeavesNoDust | src/trading_agent/sizing/position_sizer.py:134-142 | no sale exceeds the holding, and selling an aligned holding is selling all of it, or nothing |
| Sizing.FilterObstacles | src/trading_agent/sizing/position_sizer.py:134-142 | which filter refuses a sale of a holding, in terms of the exchange's published sizes, and that the validator then refuses nothing but a foreign symbol |
| Sizing.RiskSizingTakesLargest | src/trading_agent/sizing/position_sizer.py:65-131 | the stop-only sizing takes the largest aligned quantity whose loss at the stop, costs included, is within its share of equity and whose value is within the position ceiling, or says why not |
| Sizing.RiskAnswersFirstClosedGate | src/trading_agent/risk/engine.py:53-98 | an order is let through exactly when none of the twelve gates is closed, an exit past the last seven; otherwise the first closed one is the reason given |
| Portfolio.LedgerConserved | src/trading_agent/portfolio/state.py:66-159 | cash + base at average cost + open entry fee - booked profit is the starting balance after any history of transitions, refused ones included; a flat account holds its start plus its booked profit |
| Portfolio.ZeroQuantityLeaksFee | src/trading_agent/portfolio/state.py:66-88 | the law needs positive quantities: buying and selling nothing for a fee loses the fee from the ledger |
| RiskReward.SolvedTargetIsExact | src/trading_agent/backtest/risk_reward.py:180-196 | at the solved target the per-unit net gain is exactly twice the per-unit loss |
| RiskReward.GrossRatioAtLeastTwo | src/trading_agent/backtest/risk_reward.py:180-196 | before costs the target is at least two stop distances away, and exactly two only when fee and slippage are both zero |
| RiskReward.PreFillGatesNeverFire | src/trading_agent/backtest/risk_reward.py:238-325 | which answer planning gives for every input: the invalid-stop and net-ratio rejections are unreachable after ceiling to the tick |
| RiskReward.ApprovedQuantityIsSafe | src/trading_agent/backtest/risk_reward.py:262-325 | an approved quantity is positive, aligned, affordable including fees, and risks at most one percent of equity |
| RiskReward.PlanTakesLargestQuantity | src/trading_agent/backtest/risk_reward.py:262-325 | planning takes the largest aligned quantity that stakes at most one percent of equity and is affordable with its fee, or reports the first thing wrong with that one |
| RiskReward.RealizedPlanAlwaysApproved | src/trading_agent/backtest/risk_reward.py:328-391 | with the broker fill, revalidation approves every plan that planning approved: stop, target, risk and reward of the realised plan are sound |
| BacktestEngine.SimulateSegment | src/trading_agent/backtest/engine.py:733-870 | the candle loop over mutable state ends in exactly the state of the fold over candle prefixes, or raises exactly when the fold does |
| BacktestEngine.Simulation.ProcessCandles | src/trading_agent/backtest/engine.py:794-870 | the loop itself, candle by candle, against the same fold |
| BacktestEngine.Simulation.ProcessCandle | src/trading_agent/backtest/engine.py:794-870 | one iteration: day roll, queued fill, protective exits, equity, signal, in that order |
| BacktestEngine.Simulation.StartOfCandle | src/trading_agent/backtest/engine.py:802-808 | day counters reset on a new UTC day before anything fills; the cooldown falls by one, not below zero |
| BacktestEngine.Simulation.ResolvePendingSignal | src/trading_agent/backtest/engine.py:969-1123 | a queued signal is sized, gated, validated and filled at the open; each refusal is journalled and counted where it happens |
| BacktestEngine.Simulation.ExecuteStopExit | src/trading_agent/backtest/engine.py:1126-1151 | the stop sells everything at the worse of its level and the open |
| BacktestEngine.Simulation.ExecuteTakeProfitExit | src/trading_agent/backtest/engine.py:1154-1182 | the target sells everything at its level |
| BacktestEngine.Simulation.ApplyExitFill | src/trading_agent/backtest/engine.py:1185-1238 | an exit books its profit, counters, cooldown and gap loss, and clears the protective levels |
| BacktestEngine.Simulation.ProtectPosition | src/trading_agent/backtest/engine.py:828-838 | stop before target when one candle touches both |
| BacktestEngine.Simulation.EndOfCandle | src/trading_agent/backtest/engine.py:840-863 | the close updates the peak, records the signal and one equity point, and queues the signal |
| BacktestEngine.DiagBuilder.RecordRiskGateRejection | src/trading_agent/backtest/engine.py:352-360 | a gate rejection is counted under its reported code, its first activation kept, its last one moved |
| BacktestInvariant.StepKeepsInv | src/trading_agent/backtest/engine.py:794-870 | one candle keeps the ledger, the link between position, open trade, stop and target, and the one-to-one plan lists |
| BacktestInvariant.RunKeepsInv | src/trading_agent/backtest/engine.py:794-870 | every reachable loop state has them, in both sizing modes, and under the policy no run raises |
| BacktestTheorems.PolicyRunIsCoherent | src/trading_agent/backtest/engine.py:1086-1121 | under the policy no run raises; long, base > 0, open trade, stop and target coincide; base is a multiple of the step; cash is never negative; plans match trades one to one; the fail-closed counters stay zero |
| BacktestTheorems.StepExitsAtMostOnce | src/trading_agent/backtest/engine.py:828-838 | one candle closes at most one trade, at that candle's open time, for a reason visible on it |
| BacktestTheorems.EveryExitExplained | src/trading_agent/backtest/engine.py:1126-1182 | every closed trade of a run has such a candle in the history |
| BacktestTheorems.PolicyTradesHonourTheirPlans | src/trading_agent/backtest/engine.py:1137-1228 | a target earns exactly its planned reward, at least twice its planned risk; a stop opening at or above its level loses exactly the planned risk, at most one percent of equity before entry; one opening below loses more |
| BacktestTheorems.GapCounterIsExact | src/trading_agent/backtest/engine.py:1221-1228 | the gap counter is the number of stop exits filled below their stop, which are exactly those whose candle opened below it |
| BacktestTheorems.RunAccountingCloses | src/trading_agent/metrics/extended_report.py:96-165 | for every completed run and mark price the change in equity is the report's total: trade profits plus the open position; at the final close that is the last point of the equity curve |
| BacktestTheorems.DrawdownShutdownIsFinal | src/trading_agent/backtest/engine.py:886-902 | after one drawdown refusal every longer history keeps cash, trades and entries as they were, and the summary reports the code as latched to the end |
| BacktestTheorems.ShutdownLatches | src/trading_agent/backtest/engine.py:1035-1045 | a recorded drawdown activation always leaves the run flat, past the limit and without a later buy |
| BacktestExits.StepProtects | src/trading_agent/backtest/engine.py:828-838 | whatever is held once the signal is filled is sold at the worse of stop and open if the candle reaches down to the stop, else under the policy at the target if it reaches up to it, and otherwise kept with its levels |
| BacktestExits.SignalSells | src/trading_agent/backtest/engine.py:1007-1121 | a queued exit sells the whole holding at the open exactly when the exchange takes it; no entry limit holds it back |
| BacktestExits.PositionsEndAtFirstTouch | src/trading_agent/backtest/engine.py:828-838 | over a whole run every position ends on the first candle, its entry candle included, that touches its stop or, under the policy, its target: an open one has seen none, a closed one none earlier |
| BacktestFigures.FiguresAtTheOpen | src/trading_agent/backtest/engine.py:802-808 | when a candle opens, the trade count, the day's result and the cooldown are what the trades and candles say: fills and results of that UTC day, measured by the account at the day's first open, and the candles since the last loss |
| BacktestFigures.FiguresAtTheClose | src/trading_agent/backtest/engine.py:1230-1238 | and the same once the candle is over |
| BacktestFigures.PeakIsHighestMark | src/trading_agent/backtest/engine.py:985-987 | the peak that drawdowns are measured from is the highest value the account was marked at: at the start, at opens with a signal to fill, at closes |
| BacktestEntries.LargestStakeExists | src/trading_agent/backtest/engine.py:989-1005 | the largest quantity the account may stake exists and is unique, in both sizing modes |
| BacktestEntries.BuyIsLargestStake | src/trading_agent/backtest/engine.py:989-1005 | a BUY is sized exactly when there is cash and the exchange takes that quantity, and then it is that quantity |
| BacktestEntries.EntriesPassEveryGate | src/trading_agent/backtest/engine.py:1020-1116 | a queued BUY becomes a position of that quantity at the open exactly when no gate is shut as the marks, the day's trades and the recent losses tell it; otherwise nothing is bought, and the first gate shut is counted, journalled and, the first time, recorded with the account and its drawdown; entries are counted exactly then |
| BacktestJournal.DiagnosticsTellTheJournal | src/trading_agent/backtest/engine.py:969-1123 | after every run: each signal and each refusal of the journal is counted under its code, with the first and last refusal of each risk gate; every signal but a last one is decided on the next candle, gate after gate; each order let through is an entry, closed or open; and trade by trade the journal tells the closing |
| BacktestJournal.ShutdownSummaryTellsTheJournal | src/trading_agent/backtest/engine.py:886-902 | the summary of a shutdown code says what the journal says: first and last refusal, entries blocked, whether any was let through since, how long it held |
| BacktestJournal.RiskCodesAreDistinct | src/trading_agent/risk/engine.py:60-98 | no two risk gates report under one name |
| BacktestReport.EquityCurveMarksEveryClose | src/trading_agent/backtest/engine.py:840-863 | one equity point for each simulated candle: the account of the run so far at that close, and whether a position was held |
| BacktestReport.PositionWasOpenedWithin | src/trading_agent/backtest/engine.py:1095-1121 | an open position was bought at the open of one of the run's candles, at that price with slippage added |
| BacktestReport.CostsExplainProfit | src/trading_agent/metrics/extended_report.py:128-165 | the report's columns explain its total: marked profit is what the decisions would have made at their reference prices, less the fees and the slippage shown |
| OrderOutcome.ComputeCommissionBuckets | src/trading_agent/execution/fees.py:30-68 | the loop sums each asset's commission into the quote, base or other bucket; without fills the fee is the estimate |
| OrderOutcome.RepeatedReportChangesNothing | src/trading_agent/execution/order_outcome.py:84-159 | applying a report again changes neither the portfolio nor what is applied |
| OrderOutcome.ReportBooksWhatIsNew | src/trading_agent/execution/order_outcome.py:67-159 | what one report does, whatever its status: contradictory figures are refused, NEW and nothing-new leave everything, any other books exactly what is new - quantity, proceeds or cost, commission asset by asset, profit, finality - or is refused by the account |
| OrderOutcome.TwoBoughtSlices | src/trading_agent/portfolio/state.py:162-208 | two bought slices that are booked leave the portfolio of one slice of their totals, commissions in either asset and estimate flags included; a second slice that brings something is refused exactly when the total is; a booked total means a booked first slice, if that brings something and the second costs something |
| OrderOutcome.TwoSoldSlices | src/trading_agent/portfolio/state.py:126-208 | the same for two sold slices, the open entry fee shared out exactly; a commission in the base asset is refused |
| OrderOutcome.OnlyTheLastReportMatters | src/trading_agent/execution/order_outcome.py:84-159 | path independence: for fill-less cumulative reports, applying all of them and applying only the last end alike - the same portfolio and record, or a refusal - exactly when the last is not a NEW report behind one that was booked |
| OrderOutcome.NewReportHidesWhatWasBooked | src/trading_agent/execution/order_outcome.py:100-105 | one sequence where it does not: a sale partly filled, then reported with the same figures as NEW |
| ExecutionStore.ExecutionStateStore.constructor | src/trading_agent/persistence/execution_store.py:90-101 | a store starts with the tables it is given and no fault |
| ExecutionStore.ExecutionStateStore.SavePortfolio | src/trading_agent/persistence/execution_store.py:149-155 | writes one portfolio row and touches no pending row |
| ExecutionStore.ExecutionStateStore.CreatePending | src/trading_agent/persistence/execution_store.py:159-178 | inserts a row unless its id already has one, which is then kept unchanged |
| ExecutionStore.ExecutionStateStore.LoadOpenPending | src/trading_agent/persistence/execution_store.py:180-185 | lists each open row of the symbol exactly once, oldest submission first, and nothing else |
| ExecutionStore.ExecutionStateStore.ApplyOrderResultAtomically | src/trading_agent/persistence/execution_store.py:195-274 | either both tables become what the report computes or, on any refusal or fault, both stay as they were; it fails exactly then |
| ExecutionStore.ExecutionStateStore.WriteBoth | src/trading_agent/persistence/execution_store.py:213-268 | the body of the transaction and its three fault points |
| ExecutionStore.SellReportEffect | src/trading_agent/execution/order_outcome.py:84-159 | a consistent report of a sale that is still covered is accepted and moves base by the newly executed quantity, quote by its proceeds less the commission booked |
| ExecutionStore.RefusalIsNamed | src/trading_agent/persistence/execution_store.py:213-241 | why a report cannot be booked: no row, then no portfolio, then what the report or the account refuses |
| OrderProtocol.MoveKeepsInv | src/trading_agent/execution/startup_reconciliation.py:44-89 | every step of agent and exchange keeps the protocol invariant |
| OrderProtocol.RunKeepsInv | src/trading_agent/execution/live_runner.py:168-338 | so does every run of steps |
| OrderProtocol.OneOrderPerId | src/trading_agent/execution/reconciliation.py:34-51 | in every reachable state no client order id names two orders, or an order and a request still under way |
| OrderProtocol.AppliedNeverExceedsExecuted | src/trading_agent/persistence/execution_store.py:211-268 | in every reachable state applied <= executed <= requested for each order, and nothing is applied for an order that does not exist |
| OrderProtocol.NoNewOrderWhileOneIsUnresolved | src/trading_agent/execution/live_runner.py:168-184 | a row is created only when every earlier row is resolved, under an id new to both sides |
| OrderProtocol.HeldAnswerNeverRaises | src/trading_agent/execution/order_outcome.py:84-134 | in every reachable state the answer the agent holds is accepted by the transaction |
| OrderProtocol.ResolvedRowsAreFinal | src/trading_agent/persistence/execution_store.py:243-264 | a resolved row is never reopened or changed by any later run |
| OrderProtocol.ResolvedRowsTellHowTheyEnded | src/trading_agent/persistence/execution_store.py:243-264 | in every reachable state a resolved row carries the final status of its order as the exchange has it, or never-submitted where there is no order, and when it was resolved; an open row carries neither |
| OrderProtocol.BaseAgreesExactlyWhenApplied | src/trading_agent/execution/startup_reconciliation.py:92-124 | local base - exchange base = sum of executed - applied >= 0 over all orders, so the two agree exactly when everything executed is applied |
| OrderProtocol.BaseAgreesWhenAllResolved | src/trading_agent/execution/startup_reconciliation.py:92-124 | with no unresolved row the base balances are equal |
| OrderProtocol.OpenRowCanAgree | src/trading_agent/execution/startup_reconciliation.py:92-124 | the converse fails: a reachable state with an open row in which the base balances agree |
| OrderProtocol.QuoteDiffersByFeeEstimates | src/trading_agent/execution/fees.py:46-68 | with no unresolved row the quote balances differ from how they started by exactly fees charged minus fees booked |
| OrderProtocol.SettledIsStill | src/trading_agent/execution/startup_reconciliation.py:44-89 | with no unresolved row no request is on its way and every order is closed: the exchange cannot move |
| OrderProtocol.EstimatedFeeRemains | src/trading_agent/execution/fees.py:46-68 | a sale booked from a query after a lost acknowledgement leaves exactly the fee charged beyond its estimate between the two quote balances |
| LiveRunner.SeedingIgnoresDust | src/trading_agent/execution/live_runner.py:107-122 | a cold start copies the quote balance and agrees on base exactly when the exchange holds no dust |
| LiveRunner.SaleApprovedExactlyWhen | src/trading_agent/execution/live_runner.py:206-295 | a sale of the whole rounded holding is approved exactly when none of eleven obstacles stands: no exit signal, disagreeing balances, the three filters, kill switch, API errors, data age, used id, foreign symbol; otherwise the first one is the result. No limit on entries limits it |
| LiveRunner.ConfirmedFinalResolves | src/trading_agent/execution/reconciliation.py:34-51 | an answer is confirmed as final exactly when applying it resolves its row, and unknown exactly when its status is unrecognised |
| LiveRunner.RemainingAfterOne | src/trading_agent/execution/startup_reconciliation.py:44-89 | resolving one listed row leaves the later rows as they were loaded and still lists everything open |
| LiveRunner.Session.constructor | src/trading_agent/execution/live_runner.py:129-140 | a session starts an empty run of the protocol on the given tables and exchange |
| LiveRunner.Session.GetOrder | src/trading_agent/execution/reconciliation.py:34-46 | a query answers with the order's current report, not-found only for a request that will never land, or fails |
| LiveRunner.Session.PlaceMarketOrder | src/trading_agent/execution/live_runner.py:305-306 | a placement sends one request; the answer may be lost, or be an error, although the request lands |
| LiveRunner.Session.ReconcileOne | src/trading_agent/execution/startup_reconciliation.py:45-87 | one open row ends resolved, or the cycle is blocked; no other row changes |
| LiveRunner.Session.ReconcilePendingOrders | src/trading_agent/execution/startup_reconciliation.py:34-89 | clear means no open row is left for the symbol; no row is created or removed; with nothing open nothing changes |
| LiveRunner.Session.ReconcileBalances | src/trading_agent/execution/startup_reconciliation.py:92-124 | true exactly when quote and base each agree within the tolerance; without an answer from the exchange, none |
| LiveRunner.Session.Place | src/trading_agent/execution/live_runner.py:304-330 | submits at most twice, the second time only after the exchange denied the first; an answer is held exactly on success |
| LiveRunner.Session.RecordIntent | src/trading_agent/execution/live_runner.py:297-302 | the intent is durable before the exchange is called |
| LiveRunner.Session.Book | src/trading_agent/execution/live_runner.py:332-360 | the result reported agrees with what the order's row and the portfolio then show; the risk figures saved are those the booking calls for; no other row changes |
| LiveRunner.Session.SubmitAndApply | src/trading_agent/execution/live_runner.py:297-360 | adds exactly one row and reports on it truthfully, whatever fails |
| LiveRunner.Session.Seed | src/trading_agent/execution/live_runner.py:161-164 | seeds exactly when the exchange answers that it holds less than the minimum quantity |
| LiveRunner.Session.MakeReady | src/trading_agent/execution/live_runner.py:161-177 | a cost basis and a reconciled account with no open row, or the reason why there is none |
| LiveRunner.Session.RunCycle | src/trading_agent/execution/live_runner.py:129-360 | a whole cycle is a run of protocol steps; with no lost answer, denial or stop it reaches its decision and completes its order; once it consults the strategy it either records a sale of the whole rounded holding or names the first obstacle, as the rows, the saved figures and the balances shown decide; it adds at most that row, with every earlier row resolved; which risk figures it saves, in every outcome; and once settled with balances further apart than the tolerance by fees, no cycle changes anything again |
| RiskFigures.DayIsCounted | src/trading_agent/execution/live_runner.py:186-205 | over all saved cycles: the day started with the equity of its first cycle, its trades are the cycles that executed or ended an order, its result the sum of their profits as shares of that equity |
| RiskFigures.FiguresOutliveDays | src/trading_agent/execution/live_runner.py:332-349 | across days: the peak is the highest equity seen, the pause what is left after the latest losing cycle, and the error count the failures since the exchange last answered |
| LiveRunner.SessionIsSafe | src/trading_agent/execution/live_runner.py:129-360 | the protocol's guarantees read off the tables and exchange of any session |
| GapDetection.PartitionIntoSegments | src/trading_agent/data/gap_detection.py:53-97 | the loop yields the segments and gaps of the series, or the first duplicate or out-of-order candle |
| GapDetection.AcceptedExactlyWhenIncreasing | src/trading_agent/data/gap_detection.py:75-84 | accepted exactly when every candle opens after the one before |
| GapDetection.SegmentsConcatenateBack | src/trading_agent/data/gap_detection.py:94-97 | the segments concatenate back to the input |
| GapDetection.SegmentsAreMaximal | src/trading_agent/data/gap_detection.py:82-95 | every segment is step-contiguous and non-empty, and each gap sits exactly between two neighbours that do not meet |
| GapDetection.PresentPlusMissingIsTotal | src/trading_agent/data/gap_detection.py:82-92 | on the grid, candles present plus intervals missing are all periods of the span |
| GapDetection.ContiguousIsOneSegment | src/trading_agent/data/gap_detection.py:82-97 | a contiguous series is its own only segment, with no gap |
| CandleStore.CandleTables.Upsert | src/trading_agent/data/storage.py:132-161 | each candle replaces the row of its open time |
| CandleStore.CandleTables.StoreCandlesAndGaps | src/trading_agent/data/storage.py:73-112 | candles, deletions and gap rows are all stored, or none |
| CandleStore.CandleTables.GetCandles | src/trading_agent/data/storage.py:202-233 | exactly the series' candles in the range, by open time |
| CandleStore.CandleTables.LatestCloseTime | src/trading_agent/data/storage.py:235-241 | the largest close time of the series, if it has a candle |
| CandleStore.UpsertAppends | src/trading_agent/data/storage.py:132-161 | storing candles that open later than everything listed appends them to the listing |
| HistoricalFetch.FetchPageWithRetries | src/trading_agent/data/historical_fetch.py:240-278 | a page is had exactly when some attempt gets through, and then it is what the server has first in the half-open range; otherwise the retries are exhausted |
| HistoricalFetch.PageContinues | src/trading_agent/data/historical_fetch.py:125-135 | each page continues exactly where the last stopped and moves the cursor forward, for every page limit |
| HistoricalFetch.FetchPages | src/trading_agent/data/historical_fetch.py:121-135 | paging terminates with exactly the server's candles of [start, end); it fails exactly when a page it takes, named by the full pages before it, cannot be had |
| HistoricalFetch.DedupByOpenTime | src/trading_agent/data/historical_fetch.py:281-285 | one candle per open time, the last given, in order |
| HistoricalFetch.AttemptNarrowRecovery | src/trading_agent/data/historical_fetch.py:192-237 | exactly what a spaced server has inside the gap and below the end if an attempt gets through; otherwise nothing |
| HistoricalFetch.ConfirmGaps | src/trading_agent/data/historical_fetch.py:148-189 | every given candle is kept and each gap whose request gets through gains exactly the server's candles in it; the result is ordered, with exactly its own gaps; refused exactly when empty or unordered |
| HistoricalFetch.StretchHasNoHiddenCandles | src/trading_agent/data/historical_fetch.py:177-189 | no gap of a stretch of the server's history hides a candle, so recovery finds nothing new |
| HistoricalFetch.FetchHistoricalRange | src/trading_agent/data/historical_fetch.py:94-145 | the download is exactly the completed server candles of [start, end), sorted and unique, with exactly their gaps, for every page limit >= 1; it fails exactly when a page it takes cannot be had |
| GapRecovery.Fetch1mRange | src/trading_agent/data/gap_recovery.py:420-471 | the minutes of the range, or of the part before the first page for which the time or the retries run out; stopped exactly when there is one |
| GapRecovery.WholeHourIsEveryMinute | src/trading_agent/data/gap_recovery.py:270-287 | the continuity check passes exactly on one candle for each of the sixty minutes |
| GapRecovery.VerdictIsHonest | src/trading_agent/data/gap_recovery.py:499-600 | a recoverable verdict means the exchange has all sixty minutes and the rebuilt hour opens as the first, closes as the last, spans exactly their highs and lows and carries all their volume; on a fully fetched hour the verdict is the one its minutes decide - none, broken, whole - and whole minutes are recovered exactly unless the exchange's own hourly candle is had and shows other prices |
| GapRecovery.AnalyzeOneGap | src/trading_agent/data/gap_recovery.py:743-836 | one such verdict per missing hour, in order; never recoverable at or after the cutoff; decided by the minutes whenever every page is had |
| GapRecovery.ApplyGapRecovery | src/trading_agent/data/gap_recovery.py:945-1005 | stores recovered candles and the recomputed manifest together or nothing, and which of its answers is given when; under a covering report the manifest is the gaps of the stored candles; under an honest one every recovered hour is stored as the candle of its sixty minutes, and no other row changes |
| GapRecovery.ManifestIsExact | src/trading_agent/data/gap_recovery.py:978-1005 | with a report covering the manifest, the new manifest is exactly the gaps of the candles now stored |
| GapRecovery.ApplyingTwiceIsApplyingOnce | src/trading_agent/data/gap_recovery.py:957-961 | a second application leaves candles and gaps as they were, apart from detection times |
| ShadowStore.ShadowTables.constructor | src/trading_agent/shadow/store.py:199-210 | a new store is empty |
| ShadowStore.InsertRows | src/trading_agent/shadow/store.py:559-610 | each row is inserted unless its key is taken, and then ignored |
| ShadowStore.ShadowTables.RecordCycleAtomically | src/trading_agent/shadow/store.py:282-345 | all rows and the new high-water mark, or, on any fault, none |
| ShadowStore.ShadowTables.TouchCycle | src/trading_agent/shadow/store.py:260-280 | only the observability fields move; the mark and open position stay |
| ShadowStore.ShadowTables.RecordBootstrapAtomically | src/trading_agent/shadow/store.py:504-553 | provenance and bootstrap row together or neither; an existing bootstrap row is never replaced |
| ShadowStore.InsertInTwo | src/trading_agent/shadow/store.py:306-317 | inserting in two instalments is inserting once |
| ShadowStore.DistinctRowsAreKept | src/trading_agent/shadow/store.py:559-610 | rows with distinct keys are all kept, each once, and nothing else is |
| ShadowReplay.StepAddsRows | src/trading_agent/backtest/engine.py:794-870 | one candle adds at most one trade, exactly one equity point, and journal entries in a fixed rank order, all stamped by it |
| ShadowReplay.RunExtends | src/trading_agent/backtest/engine.py:794-870 | a longer history repeats everything a prefix produced and adds only what is later |
| ShadowReplay.RunKeysDistinct | src/trading_agent/shadow/store.py:58-84 | exit times and equity times strictly rise and no journal key repeats, so no row is ever dropped by its key |
| ShadowReplay.RecordingCompletes | src/trading_agent/shadow/engine.py:452-478 | behind the rows of earlier segments, inserting only what is past the mark turns the tables of a prefix into those of the longer run |
| ShadowSchedule.TablesHoldWhatWasSeen | src/trading_agent/shadow/engine.py:405-482 | over any history, gaps included, and after any cycles, skips, crashes and retries, the tables hold one run over each segment up to the last completed cycle that ended in it, and the mark names the latest |
| ShadowSchedule.AnyScheduleEqualsOneRun | src/trading_agent/shadow/engine.py:356-552 | over a gap-free history a completed cycle leaves exactly the tables of one run over everything stored, whatever came before |
| ShadowSchedule.EachRowOnce | src/trading_agent/shadow/store.py:293-297 | those tables hold each row of those runs once, under its own key, and no other |
| ShadowSchedule.RowSurvivesExactlyWhenCaught | src/trading_agent/shadow/engine.py:420-448 | a candle has its equity row exactly when its segment was long enough by it and some completed cycle ended in that segment, at it or later |
| ShadowSchedule.SkippedSegmentLeavesNoRow | src/trading_agent/shadow/engine.py:420-448 | two complete schedules over one gapped history that differ: one visits a segment and keeps its row, one skips it and has none |
| ShadowSchedule.ScheduleMattersOnlyWithGaps | src/trading_agent/shadow/engine.py:420-448 | all complete schedules leave the same tables exactly when no segment but the last is ever long enough to be evaluated |
| ShadowEngine.VerifyBootstrapComplete | src/trading_agent/shadow/bootstrap.py:255-290 | intact exactly when the stored warm-up has the recorded count, ends and no gap |
| ShadowEngine.FetchWarmup | src/trading_agent/shadow/bootstrap.py:145-222 | an accepted warm-up is exactly the contiguous range that ends at the boundary; the range and its requests decide between it, a failed fetch, a gap and too little history |
| ShadowEngine.RunShadowBootstrap | src/trading_agent/shadow/bootstrap.py:134-246 | as those decide, stores that range with its bootstrap row once or records no bootstrap; a crash in between leaves the range alone |
| ShadowEngine.StoreNewCandles | src/trading_agent/shadow/engine.py:386-396 | stores the first candles past the latest stored close, none before the boundary |
| ShadowEngine.Decide | src/trading_agent/shadow/engine.py:405-552 | what the stored candles decide: untouched mark, too little data, or the rows past the mark of the latest segment; a fault changes nothing |
| ShadowEngine.Replay | src/trading_agent/shadow/engine.py:441-548 | commits the run's rows past the mark with the new mark, or nothing |
| ShadowEngine.RunShadowCycle | src/trading_agent/shadow/engine.py:324-552 | not ready exactly when the stored warm-up is not intact, and then nothing is fetched or written; candles are committed first; results change only as decided, and stay when stopped, rolled back or raised |
| ShadowEngine.DecisionIsProcessing | src/trading_agent/shadow/engine.py:405-448 | the decision over the stored candles is the replay of their last segment, with the effective length exactly when it starts the warm-up, gaps included |
| ShadowEngine.FetchKeepsPrefix | src/trading_agent/shadow/engine.py:386-400 | a fetch keeps the store an exact prefix of what the exchange shows |
| ShadowSession.Session.constructor | src/trading_agent/shadow/engine.py:356-364 | a session starts un-bootstrapped with empty results, over a candle store that may hold earlier candles of the series |
| ShadowSession.Session.RunBootstrap | src/trading_agent/shadow/bootstrap.py:134-246 | an attempt keeps the session, cut short or not; it succeeds exactly when the range and its requests allow and nothing interrupts, and then begins the replay with exactly the warm-up stored |
| ShadowSession.Session.RunCycle | src/trading_agent/shadow/engine.py:356-552 | a cycle is one cycle of the replay, whatever ends it; once bootstrapped it is always ready, never raises and decides unless stopped or interrupted; decided on a gap-free history, the stored tables are those of one run |
| ShadowSession.SessionTables | src/trading_agent/shadow/engine.py:405-482 | at every moment the stored tables hold one run over each stretch seen, each row once, and a candle's equity row exactly when it was caught |
| ShadowRecords.StoredTradesHonourTheirPlans | src/trading_agent/shadow/engine.py:458-480 | after any schedule of cycles every stored trade lies under its exit time beside what its stop was planned to lose, and realised it: a target earns at least twice that, an ungapped stop loses exactly that |
| ShadowRecords.StoredPositionIsTheHolding | src/trading_agent/shadow/engine.py:542-546 | the stored open position is the whole holding of the latest stretch, at the price and fee of the candle it was bought on; none stored means nothing held |
| ShadowRecords.RunStateTellsTheCycles | src/trading_agent/shadow/store.py:260-345 | after any schedule of cycles the run state counts the finished ones and tells when the last one ran, how long the segment was and whether it found nothing new, too little or something to record |
| ShadowRecords.SessionRecords | src/trading_agent/shadow/engine.py:356-552 | so does what a session stores, at every moment |
| ShadowRecords.FirstRowIsKept | src/trading_agent/shadow/store.py:559-610 | a row inserted under a key already present changes nothing, otherwise the first of its key is kept |
| ShadowRecords.WarmupIsProvenance | src/trading_agent/shadow/store.py:504-545 | the recorded warm-up holds each candle once, with its close and when it was fetched |
| ShadowRecords.FetchTakesTheFirst | src/trading_agent/shadow/engine.py:379-390 | a cycle fetches exactly the first candles that open past the latest stored close and not before the boundary |
| SettlingBuffer.SignalsAreTheAnswers | src/trading_agent/backtest/engine.py:794-855 | the signals of a run are exactly the strategy's answers: one for every candle from the required length on, to the candles visible then and the position held then |
| SettlingBuffer.PostBoundarySetupsKeepTheirWindow | src/trading_agent/shadow/bootstrap.py:106-121 | in the bootstrapped segment every hour of the four-hour window of every setup formed after the boundary, the first included, is evaluated, for every warm-up length; filter open and flat, the confirming hour is journalled as BUY |
| SettlingBuffer.FirstCellClosesAfterBoundary | src/trading_agent/shadow/bootstrap.py:106-121 | the four-hour cell that opens at the boundary is covered, and closes at the hour three after it |
| SettlingBuffer.BuysAreExactlyPostBoundary | src/trading_agent/shadow/bootstrap.py:106-121 | the journalled BUYs of that segment are exactly the first confirmations of setups whose 4h candle opened at or after the boundary, filter open and flat: none carried over, none lost, for every warm-up length |
| SettlingBuffer.StoredBuysAreExactlyPostBoundary | src/trading_agent/shadow/engine.py:441-548 | the BUYs stored for the bootstrapped segment, at every moment of a session that saw it, are exactly those: read off the journal table |
| MultiTimeframe.NoSetupIsCarriedOver | src/trading_agent/shadow/bootstrap.py:115-121 | the same for one call: from the effective length on, no warm-up setup governs a BUY |
| Indicators.TrueRange | src/trading_agent/indicators/volatility.py:18-33 | the loop carrying the previous close computes the recursive true range |
| Indicators.TrueRangesAreSpreads | src/trading_agent/indicators/volatility.py:18-33 | each true range is the widest distance covered since the previous close |
| Indicators.EmaWeighsByAge | src/trading_agent/indicators/moving_averages.py:15-19 | each value moves the average by 2/(period+1) of itself at once, the first by all of it, and by a geometrically falling share from then on |
| Indicators.EmaIsCausal | src/trading_agent/indicators/moving_averages.py:15-19 | a longer series never revises an earlier average |
| Indicators.AtrIsCausal | src/trading_agent/indicators/volatility.py:36-42 | nor an earlier average range |
| Indicators.AtrIsCentral | src/trading_agent/indicators/volatility.py:36-42 | the average range is defined from the first whole window on, lies among the ranges of its window, and moves by an equal share of what enters and leaves it |
| Indicators.RollingMaxIsCausal | src/trading_agent/indicators/volatility.py:52-56 | nor an earlier rolling maximum |
| BreakoutGate.BreakoutWithBullishRegimeGate.GenerateSignal | src/trading_agent/research/candidates/breakout_regime_gate.py:82-119 | the gated answer; the counters move exactly with evaluated and blocked breakouts |
| BreakoutGate.GateAnswersFromChannel | src/trading_agent/research/candidates/volatility_breakout.py:41-75 | flat, BUY exactly on a close that breaks the range of the channel before it by enough of the average range while above a rising average; long, EXIT exactly on a close below that range |
| BreakoutGate.ShortHistoryIsRefused | src/trading_agent/research/candidates/breakout_regime_gate.py:82-90 | refused exactly when the channel, the range or the regime average is not yet defined |
| Buckets.AggregateCompletedBuckets | src/trading_agent/research/candidates/multitimeframe_breakout.py:153-193 | the two nested loops compute the group-by-group aggregation |
| Buckets.AggregationIsExact | src/trading_agent/research/candidates/multitimeframe_breakout.py:153-193 | for hour-aligned ordered candles it yields exactly the fully covered grid cells, in order |
| Buckets.BucketsAreCells | src/trading_agent/research/candidates/multitimeframe_breakout.py:171-191 | each bucket is a whole unbroken cell with the open, extremes, close and volume of its hours |
| Buckets.EveryCellIsBucketed | src/trading_agent/research/candidates/multitimeframe_breakout.py:171-191 | every fully covered cell has its bucket |
| Buckets.CoveredCellsPrefix | src/trading_agent/research/candidates/multitimeframe_breakout.py:153-193 | a prefix's buckets are a prefix of the whole's |
| Buckets.CellsAreDisjoint | src/trading_agent/research/candidates/multitimeframe_breakout.py:136-143 | two cells never share an hour |
| Buckets.CellCount | src/trading_agent/research/candidates/multitimeframe_breakout.py:285-293 | a contiguous run of k cells' hours and the alignment margin covers at least k whole cells, whatever its alignment |
| MultiTimeframe.WeeklyFilterBullish | src/trading_agent/research/candidates/multitimeframe_breakout.py:196-213 | true only for a last close above a rising weekly average with enough weeks |
| MultiTimeframe.ScanSetupEvents | src/trading_agent/research/candidates/multitimeframe_breakout.py:231-282 | the full-series scan finds exactly the setups judged prefix by prefix, each with its first confirmation |
| MultiTimeframe.SetupIsCausal | src/trading_agent/research/candidates/multitimeframe_breakout.py:239-270 | full-series indicators decide an index as the prefix that ends there does |
| MultiTimeframe.ArmsExactlyWhenReferenceBuys | src/trading_agent/research/candidates/breakout_regime_gate.py:88-116 | the scan arms exactly at the 4h indices where the gated breakout run flat on that prefix says BUY, at the channel high |
| MultiTimeframe.SetupsNeverChange | src/trading_agent/research/candidates/multitimeframe_breakout.py:231-282 | over all prefixes of one history found setups never change; later hours add only later ones |
| MultiTimeframe.ArmedWindowsAreDisjoint | src/trading_agent/research/candidates/multitimeframe_breakout.py:272-274 | no hour is armed by two setups |
| MultiTimeframe.MultiTimeframeBreakout.GenerateSignal | src/trading_agent/research/candidates/multitimeframe_breakout.py:308-353 | the answer and what each telemetry counter adds |
| MultiTimeframe.BuysExactlyAtFirstConfirmation | src/trading_agent/research/candidates/multitimeframe_breakout.py:326-353 | flat, BUY after n hours exactly when the weekly filter is open and the last hour is the first confirming hour of a setup of the whole history; long, always HOLD |
| MultiTimeframe.BuysAreConfirmedBreakouts | src/trading_agent/research/candidates/multitimeframe_breakout.py:196-353 | the same in terms of prices alone: BUY exactly on the first of the four hours after a four-hour breakout, above a rising average, that closes above its level and its own open, while the last week closes above a rising weekly average |
| MultiTimeframe.EachSetupEndsOnce | src/trading_agent/research/candidates/multitimeframe_breakout.py:326-335 | counted over every hour, each setup whose window has passed is counted once, as confirmed or as expired |
| MultiTimeframe.RequiredLengthSuffices | src/trading_agent/research/candidates/multitimeframe_breakout.py:285-298 | any contiguous run of the required 7564 hours holds 44 whole weeks and 220 whole 4h cells |
| TrendRegime.GenerateSignal | src/trading_agent/research/candidates/trend_regime.py:103-196 | the two scan loops compute the backward and forward searches |
| TrendRegime.RescanRefinesMachine | src/trading_agent/research/candidates/trend_regime.py:154-196 | what the rescan finds at an index is the state of a forward machine: unobserved, neutral, armed, entering, entered |
| TrendRegime.BuysExactlyOnEntering | src/trading_agent/research/candidates/trend_regime.py:154-196 | over all prefixes, flat, BUY exactly at the entering step |
| TrendRegime.BuysAtFirstStrengthSinceRising | src/trading_agent/research/candidates/trend_regime.py:103-196 | the same in terms of the averages alone: BUY exactly at the first candle since the fast average was seen to rise above the slow one on which they are the declared number of ranges apart |
| TrendRegime.ExitsExactlyOnFallingBelow | src/trading_agent/research/candidates/trend_regime.py:135-143 | over all prefixes, long, EXIT exactly on the candle where the fast average falls below the slow one, else HOLD; refused exactly when the history is too short |
| TrendRegime.BuysNeedFreshObservedCycles | src/trading_agent/research/candidates/trend_regime.py:145-170 | two BUYs are separated by a non-bullish candle, and each follows a crossover inside the visible history |
| FixedDuration.BisectLeft | src/trading_agent/research/fixed_duration_evaluation.py:323-326 | the first position from lo whose time is not earlier |
| FixedDuration.ValidateSchedule | src/trading_agent/research/fixed_duration_evaluation.py:346-375 | passes exactly when every window has the declared length and ends by the cutoff and no two overlap; otherwise the first faulty window, else an overlap, is the reason |
| FixedDuration.BuildSegment | src/trading_agent/research/fixed_duration_evaluation.py:269-333 | the plan of one segment, unless a window passes its end |
| FixedDuration.BuildFixedDurationSchedule | src/trading_agent/research/fixed_duration_evaluation.py:235-343 | a schedule is returned exactly when the input is acceptable, its windows fit and it validates, and then it is the planned one; otherwise which refusal is given |
| FixedDuration.GridScheduleIsAlwaysBuilt | src/trading_agent/research/fixed_duration_evaluation.py:269-375 | for ordered pre-cutoff candles on the grid of an interval dividing the cutoff the schedule always builds and validates |
| FixedDuration.SegmentIsPartitioned | src/trading_agent/research/fixed_duration_evaluation.py:285-333 | in a scheduled segment the first window starts right after the warm-up, each next where the last ended, and the leftover is everything after the last; a window that evaluates runs on exactly the candles it holds |
| FixedDuration.HeldIsExact | src/trading_agent/research/fixed_duration_evaluation.py:420-446 | the candles a window holds are exactly those opening within it |
| FixedDuration.InExactlyOneWindow | src/trading_agent/research/fixed_duration_evaluation.py:285-333 | every candle past the warm-up and before the leftover is in exactly one window |
| FixedDuration.EvaluateDurationBlock | src/trading_agent/research/fixed_duration_evaluation.py:420-458 | the index range of a window, or the reason it has none |
| FixedDuration.WindowsEvaluateExactlyWhenCandlesSuffice | src/trading_agent/research/fixed_duration_evaluation.py:420-458 | every planned window evaluates, for any warm-up within the anchor, exactly when planned windows do not outnumber tradable candles |
| FixedDuration.ScheduledWindowLiesInItsSegment | src/trading_agent/research/fixed_duration_evaluation.py:269-343 | every window of a schedule has the declared length and lies inside the gap-free segment it names |
| FixedDuration.SchedulePartitionsItsSegments | src/trading_agent/research/fixed_duration_evaluation.py:269-343 | in every scheduled segment, warm-up, the schedule's windows and the leftover are consecutive and together all of it |
| FixedDuration.ScheduleEvaluatesExactlyWhenEnough | src/trading_agent/research/fixed_duration_evaluation.py:420-458 | every window of a schedule evaluates, for any warm-up within the anchor, exactly when no segment plans more windows than it has tradable candles |
| FixedDuration.LongBlocksAlwaysSuffice | src/trading_agent/research/fixed_duration_evaluation.py:288-291 | a block at least as long as the candle interval always meets that condition |
| FixedDuration.AWindowCanBeEmpty | src/trading_agent/research/fixed_duration_evaluation.py:420-446 | a shorter block need not: for one three-day candle a schedule of three one-day windows is accepted and valid, and the second window has no candle |
| ScheduleAccounts.SegmentIsScheduledOrReported | src/trading_agent/research/fixed_duration_evaluation.py:269-333 | a segment gets as many numbered windows as fit after its warm-up; if none does, exactly one fragment with its size and tradable time |
| ScheduleAccounts.FragmentsAreTheShortSegments | src/trading_agent/research/fixed_duration_evaluation.py:269-343 | the fragments of a schedule are exactly the segments too short for one window |
| ScheduleAccounts.LeftoversAreTheSegments | src/trading_agent/research/fixed_duration_evaluation.py:323-343 | the leftovers of a schedule are exactly those of its segments |
| ScheduleAccounts.WindowIsItsCandles | src/trading_agent/research/fixed_duration_evaluation.py:420-458 | a window evaluates on exactly the candles opening in it behind the warm-up asked for; refused exactly when the segment does not cover it, else exactly when too few candles precede it |

## Left out

- Binary floating point, NaN and decimal contexts: values are exact reals, and an indicator entry not yet defined is an absent value.
- HTTP clients, signing, clock synchronisation, logging, the kill-switch file, the file lock, the command line and message sending: the exchange and the server are arbitrary within the stated rules, and the kill switch is an input.
- Notification texts and the outbox, journal message payloads beyond signal, decision and fill, and content hashes.
- Backoff and the different reasons a request fails for: any attempt may fail, as an input says.
- The checkpoint file of the gap audit, the audit's aggregate report, and the round-3 block count.
- `fees_paid`, per-candle portfolio snapshots and the percentage and ratio figures of a plan: each is a function of fields that are modelled (the net ratio is planned reward over planned risk).
- BUY orders in the protocol: automatic entry is disabled in the cycle that is modelled; `OrderOutcome` covers bought slices.
- The EMA crossover baseline that the live cycle consults: any decision function of the position stands for it.
- Sharpe, Sortino, bootstrap, monthly and scorecard statistics, the mean-reversion candidate, registries, freeze records and configuration models.
- Several interleaved processes on one database: the source serialises them with a lock.
- BacktestEngine.SimulateSegment: does not build the summary after the loop; of it only the shutdown activations are modelled (`BacktestJournal.ShutdownSummaryTellsTheJournal`), the rest are counts and extremes of recorded lists.
- ShadowSession.Session.constructor: does not start over a store that already holds candles of the series from the warm-up on, other than the warm-up itself.
- ShadowStore.ShadowTables.RecordCycleAtomically: does not insert the notification rows that share its transaction.
- GapRecovery.Fetch1mRange: does not model elapsed time; before which page the time budget is spent is an input, as is what the exchange's own hourly candle turns out to be in `GapRecovery.AnalyzeOneGap`.
