// One testnet cycle (execution/live_runner.py) step by step: reconcile, decide, record the intent, submit,
// apply. The exchange may act, and the process may stop, between any two steps. Every effect is one move of
// the order protocol, so whatever holds in every reachable world holds after every cycle.

module LiveRunner {
  import opened Common
  import opened ExchangeFilters
  import opened Portfolio
  import opened Sizing
  import opened OrderOutcome
  import opened ExecutionStore
  import opened OrderProtocol
  import opened RiskFigures

  // ----- Interpreting answers (execution/reconciliation.py) ----------------------------------------------

  const ORDER_DOES_NOT_EXIST := -2013

  /** What one call to the exchange comes back with. */
  datatype Reply = Got(report: OrderReport) | ApiError(code: int) | NetworkFailure

  datatype ReconciledStatus = ConfirmedTerminal | ConfirmedOpen | NotFound | Unknown

  /** The network failing during the query itself is raised to the caller, not classified. */
  function Reconcile(reply: Reply): ReconciledStatus
    requires !reply.NetworkFailure?
  {
    match reply
    case ApiError(code) => if code == ORDER_DOES_NOT_EXIST then NotFound else Unknown
    case Got(r) =>
      if r.status in {OrderStatus.Filled, Canceled, Rejected, Expired} then ConfirmedTerminal
      else if r.status in {New, PartiallyFilled} then ConfirmedOpen
      else Unknown
  }

  /**
   * Classifying an answer and applying it agree: a report is confirmed as final exactly when applying it resolves its
   * row, and leaves it open when it is confirmed as open.
   */
  lemma ConfirmedFinalResolves(r: OrderReport, side: OrderSide, m: Market, p: PortfolioState, a: Applied)
    requires r.status != NeverSubmitted && ComputeApplication(r, side, m, p, a).Ok?
    ensures var status, x := Reconcile(Got(r)), ComputeApplication(r, side, m, p, a).value;
            && (status == ConfirmedTerminal <==> x.terminal)
            && (status == Unknown <==> r.status.Unrecognized?)
            && status != NotFound && !SafeToRetry(status)
  {
  }

  predicate SafeToRetry(status: ReconciledStatus) {
    status == NotFound
  }

  const BALANCE_TOLERANCE := 0.0000001

  predicate BalancesAgree(p: PortfolioState, quote: real, base: real) {
    Abs(p.quote - quote) <= BALANCE_TOLERANCE && Abs(p.base - base) <= BALANCE_TOLERANCE
  }

  // ----- The running process ------------------------------------------------------------------------------------

  /** What one invocation is given: market data, the strategy, limits, and the id its signal would use. */
  datatype Inputs = Inputs(symbol: string, dataOk: bool, now: int, dataTime: int, day: string, lastClose: real,
                           decide: PositionSide -> SignalType, filters: SymbolFilters, limits: RiskConfig,
                           killSwitch: bool, clientOrderId: string, journalHasId: bool)

  datatype CycleResult = Stopped | DataUnavailable | ColdStartRefused | UnresolvedOrder | NoSignal | EntryDisabled
                       | Discrepancy | NotSized(sizing: SizingCode) | RiskRefused(risk: RiskCode)
                       | NotValid(validation: ValidationCode) | RetryFailed | ReconciliationUnknown | PlacementFailed
                       | StillOpen | NothingExecuted | Sold(quantity: real)

  /** Cold start: without a cost basis, an account already holding a sellable amount is refused. */
  function InitialPortfolio(quote: real, base: real, f: SymbolFilters): Option<PortfolioState> {
    if base >= f.minQty then None else Some(Portfolio.Initial(quote))
  }

  /** The seeded base balance agrees with the exchange's exactly when no dust is held there. */
  lemma SeedingIgnoresDust(quote: real, base: real, f: SymbolFilters)
    requires base >= 0.0 && InitialPortfolio(quote, base, f).Some?
    ensures var p := InitialPortfolio(quote, base, f).value;
            && Portfolio.Valid(p) && p.quote == quote
            && (p.base == base <==> base == 0.0) && p.base - base > -f.minQty
  {
  }

  /** Everything between a reconciled start and the submission of a sale: the quantity to sell, or why not. */
  function Decide(x: Inputs, p: PortfolioState, agreed: bool, risk: RiskBook, known: bool): Result<real, CycleResult> {
    var signal := x.decide(p.side);
    if signal == Hold then Err(NoSignal)
    else if signal == Buy then Err(EntryDisabled)
    else if !agreed then Err(Discrepancy)
    else match SellQuantity(p.base, x.lastClose, x.filters)
      case Err(code) => Err(NotSized(code))
      case Ok(quantity) =>
        var equity := Equity(p, x.lastClose);
        var context := RiskContext(equity, p.quote, risk.trades, risk.cooldown, risk.dailyPnl,
                                   if risk.peak > 0.0 then (risk.peak - equity) / risk.peak else 0.0,
                                   (x.now - x.dataTime) as real / 1000.0, risk.apiErrors, x.killSwitch, known, !agreed);
        match EvaluateRisk(signal, quantity, x.lastClose, context, x.limits)
        case Some(code) => Err(RiskRefused(code))
        case None =>
          match ValidateOrder(x.symbol, quantity, x.lastClose, x.filters)
          case Err(code) => Err(NotValid(code))
          case Ok(validated) => Ok(validated)
  }

  /** Only an exit signal on a reconciled account sells, at most what is held, under an id never used before. */
  lemma ApprovedSaleIsSafe(x: Inputs, p: PortfolioState, agreed: bool, risk: RiskBook, known: bool)
    requires Decide(x, p, agreed, risk, known).Ok?
    ensures x.decide(p.side) == Exit && agreed && !known && !x.killSwitch && risk.apiErrors < x.limits.maxApiErrors
    ensures var q := Decide(x, p, agreed, risk, known).value;
            && 0.0 < q <= p.base && StepAligned(q, x.filters.stepSize) && q == RoundQuantity(p.base, x.filters)
  {
    RoundDownIdempotent(p.base, x.filters.stepSize);
  }

  /** Everything that can keep a cycle from selling, in the order in which it is given as the reason. */
  const OBSTACLES: seq<CycleResult> := [
    NoSignal, EntryDisabled, Discrepancy, NotSized(NoSellableQuantity), NotSized(SizerBelowMinLotSize),
    NotSized(SizerBelowMinNotional), RiskRefused(KillSwitchEngaged), RiskRefused(ConsecutiveApiErrorShutdown),
    RiskRefused(StaleData), RiskRefused(DuplicateOrderBlocked), NotValid(SymbolMismatch)]

  /** Whether one of them stands in the way, judged from the inputs alone. */
  predicate Stands(obstacle: CycleResult, x: Inputs, p: PortfolioState, agreed: bool, risk: RiskBook, known: bool) {
    var f, sale := x.filters, RoundDownToStep(p.base, x.filters.stepSize);
    match obstacle
    case NoSignal => x.decide(p.side) == Hold
    case EntryDisabled => x.decide(p.side) == Buy
    case Discrepancy => !agreed
    case NotSized(NoSellableQuantity) => !(0.0 < sale <= p.base)
    case NotSized(SizerBelowMinLotSize) => sale < f.minQty || (f.maxQty != 0.0 && sale > f.maxQty)
    case NotSized(SizerBelowMinNotional) => f.applyMinNotionalToMarket && x.lastClose * sale < f.minNotional
    case RiskRefused(KillSwitchEngaged) => x.killSwitch
    case RiskRefused(ConsecutiveApiErrorShutdown) => risk.apiErrors >= x.limits.maxApiErrors
    case RiskRefused(StaleData) => x.now - x.dataTime > 1000 * x.limits.staleMaxAge
    case RiskRefused(DuplicateOrderBlocked) => known
    case NotValid(SymbolMismatch) => x.symbol != f.symbol
    case _ => false
  }

  predicate FirstObstacle(k: nat, x: Inputs, p: PortfolioState, agreed: bool, risk: RiskBook, known: bool)
    requires k < |OBSTACLES|
  {
    && Stands(OBSTACLES[k], x, p, agreed, risk, known)
    && forall j | 0 <= j < k :: !Stands(OBSTACLES[j], x, p, agreed, risk, known)
  }

  predicate MaySell(x: Inputs, p: PortfolioState, agreed: bool, risk: RiskBook, known: bool) {
    forall j | 0 <= j < |OBSTACLES| :: !Stands(OBSTACLES[j], x, p, agreed, risk, known)
  }

  lemma ObstaclesInOrder()
    ensures OBSTACLES[0] == NoSignal && OBSTACLES[1] == EntryDisabled && OBSTACLES[2] == Discrepancy
    ensures OBSTACLES[3] == NotSized(NoSellableQuantity) && OBSTACLES[4] == NotSized(SizerBelowMinLotSize)
    ensures OBSTACLES[5] == NotSized(SizerBelowMinNotional) && OBSTACLES[6] == RiskRefused(KillSwitchEngaged)
    ensures OBSTACLES[7] == RiskRefused(ConsecutiveApiErrorShutdown) && OBSTACLES[8] == RiskRefused(StaleData)
    ensures OBSTACLES[9] == RiskRefused(DuplicateOrderBlocked) && OBSTACLES[10] == NotValid(SymbolMismatch)
  {
  }

  /** The reason given is the first obstacle. */
  lemma FirstObstacleIsGiven(k: nat, x: Inputs, p: PortfolioState, agreed: bool, risk: RiskBook, known: bool)
    requires k < |OBSTACLES| && FirstObstacle(k, x, p, agreed, risk, known)
    ensures Decide(x, p, agreed, risk, known) == Err(OBSTACLES[k])
  {
    hide RoundDownToStep, SellQuantity, ValidateOrder;
    FilterObstacles(x.symbol, p.base, x.lastClose, x.filters);
    ObstaclesInOrder();
  }

  /**
   * A sale is approved exactly when nothing stands in its way, and is then of the whole rounded holding; otherwise the
   * first obstacle is the reason given. Nothing that limits entries, like the day's losses or trades, limits a sale.
   */
  lemma SaleApprovedExactlyWhen(x: Inputs, p: PortfolioState, agreed: bool, risk: RiskBook, known: bool)
    ensures Decide(x, p, agreed, risk, known).Ok? <==> MaySell(x, p, agreed, risk, known)
    ensures MaySell(x, p, agreed, risk, known) ==>
              Decide(x, p, agreed, risk, known) == Ok(RoundDownToStep(p.base, x.filters.stepSize))
    ensures forall k | 0 <= k < |OBSTACLES| && FirstObstacle(k, x, p, agreed, risk, known) ::
              Decide(x, p, agreed, risk, known) == Err(OBSTACLES[k])
  {
    hide Decide, Stands, RoundDownToStep;
    if MaySell(x, p, agreed, risk, known) {
      NoObstacleApproves(x, p, agreed, risk, known);
    } else {
      var k := SomeObstacleIsFirst(x, p, agreed, risk, known);
      FirstObstacleIsGiven(k, x, p, agreed, risk, known);
    }
    forall k | 0 <= k < |OBSTACLES| && FirstObstacle(k, x, p, agreed, risk, known)
      ensures Decide(x, p, agreed, risk, known) == Err(OBSTACLES[k])
    {
      FirstObstacleIsGiven(k, x, p, agreed, risk, known);
    }
  }

  lemma NoObstacleApproves(x: Inputs, p: PortfolioState, agreed: bool, risk: RiskBook, known: bool)
    requires MaySell(x, p, agreed, risk, known)
    ensures Decide(x, p, agreed, risk, known) == Ok(RoundDownToStep(p.base, x.filters.stepSize))
  {
    hide RoundDownToStep, SellQuantity, ValidateOrder;
    FilterObstacles(x.symbol, p.base, x.lastClose, x.filters);
    ObstaclesInOrder();
  }

  lemma SomeObstacleIsFirst(x: Inputs, p: PortfolioState, agreed: bool, risk: RiskBook, known: bool) returns (k: nat)
    requires !MaySell(x, p, agreed, risk, known)
    ensures k < |OBSTACLES| && FirstObstacle(k, x, p, agreed, risk, known)
  {
    hide Stands;
    k := 0;
    while !Stands(OBSTACLES[k], x, p, agreed, risk, known)
      invariant k < |OBSTACLES| && forall j | 0 <= j < k :: !Stands(OBSTACLES[j], x, p, agreed, risk, known)
      decreases |OBSTACLES| - k
    {
      k := k + 1;
    }
  }

  lemma RefusalIsExplained(x: Inputs, p: PortfolioState, agreed: bool, risk: RiskBook, known: bool)
    requires Decide(x, p, agreed, risk, known).Err?
    ensures var refusal := Decide(x, p, agreed, risk, known).error;
            && !MaySell(x, p, agreed, risk, known) && Consulted(refusal) && (!agreed ==> NothingToSell(refusal))
            && exists k | 0 <= k < |OBSTACLES| :: FirstObstacle(k, x, p, agreed, risk, known) && refusal == OBSTACLES[k]
  {
    hide RoundDownToStep, SellQuantity, ValidateOrder, EvaluateRisk, Stands;
    SaleApprovedExactlyWhen(x, p, agreed, risk, known);
    var k := SomeObstacleIsFirst(x, p, agreed, risk, known);
  }

  /** What a cycle did about its decision: a row for a sale of the whole rounded holding, or the first obstacle. */
  ghost predicate ActedOn(before: Db, after: Db, x: Inputs, held: PortfolioState, agreed: bool, risk: RiskBook,
                          result: CycleResult) {
    var id, known := x.clientOrderId, x.journalHasId || x.clientOrderId in before.pending;
    if MaySell(x, held, agreed, risk, known) then
      && after.pending.Keys == before.pending.Keys + {id} && AfterIntent(result)
      && after.pending[id].side == SellOrder && after.pending[id].symbol == x.symbol
      && after.pending[id].requested == RoundDownToStep(held.base, x.filters.stepSize)
      && after.pending[id].signalTime == x.dataTime && after.pending[id].submittedAt == x.now
    else
      && after.pending.Keys == before.pending.Keys
      && exists k | 0 <= k < |OBSTACLES| :: FirstObstacle(k, x, held, agreed, risk, known) && result == OBSTACLES[k]
  }

  /** The results of a cycle that got as far as recording its intent. */
  predicate AfterIntent(r: CycleResult) {
    Unanswered(r) || r.StillOpen? || r.NothingExecuted? || r.Sold?
  }

  /** The risk figures saved at the end of a cycle that had rolled them to `rolled`, if it saved any. */
  function SavedRisk(result: CycleResult, rolled: RiskBook, booked: Option<Application>,
                     cooldownBars: int): Option<RiskBook> {
    match result
    case Stopped => None
    case DataUnavailable => None
    case ColdStartRefused => None
    case UnresolvedOrder => None
    case PlacementFailed => Some(rolled.(apiErrors := rolled.apiErrors + 1))
    case RetryFailed => Some(rolled.(apiErrors := rolled.apiErrors + 1))
    case ReconciliationUnknown => Some(rolled.(apiErrors := rolled.apiErrors + 1))
    case _ => Some(if booked.Some? then RiskAfter(rolled, booked.value, cooldownBars) else rolled)
  }

  function RiskNow(before: Option<RiskBook>, saved: Option<RiskBook>): Option<RiskBook> {
    if saved.Some? then saved else before
  }

  /** The cycle got as far as consulting the strategy. */
  predicate Consulted(r: CycleResult) {
    !(r.Stopped? || r.DataUnavailable? || r.ColdStartRefused? || r.UnresolvedOrder?)
  }

  /** A cycle that consulted the strategy saves its figures, and no other. */
  lemma FiguresAreSaved(result: CycleResult, before: Option<RiskBook>, equity: real, day: string,
                        booked: Option<Application>, pause: int)
    ensures RiskNow(before, SavedRisk(result, RolledRisk(before, equity, day), booked, pause))
         == if Consulted(result) then Some(CycleSaves(before, Cycle(day, equity, booked, Unanswered(result), pause)))
            else before
  {
    hide RolledRisk, RiskAfter;
  }

  /** The cycle ended before it would have sold anything. */
  predicate NothingToSell(r: CycleResult) {
    r.Stopped? || r.DataUnavailable? || r.NoSignal? || r.EntryDisabled? || r.Discrepancy?
  }

  /** What was booked for an order is what its row and the portfolio now show. */
  predicate BookedAs(db: Db, symbol: string, id: string, held: PortfolioState, booked: Option<Application>)
    requires id in db.pending && symbol in db.portfolios
  {
    match booked
    case None => db.portfolios[symbol] == held
    case Some(x) =>
      && db.portfolios[symbol] == x.portfolio && db.pending[id].applied == x.applied
      && (x.terminal <==> db.pending[id].status == Resolved)
  }

  /** The order's fate is known, as far as it has gone. */
  predicate Completed(r: CycleResult) {
    r.StillOpen? || r.NothingExecuted? || r.Sold?
  }

  predicate Unanswered(r: CycleResult) {
    r.Stopped? || r.PlacementFailed? || r.RetryFailed? || r.ReconciliationUnknown?
  }

  /** What a result says about the row of the order it is about. */
  predicate ResultTellsRow(r: CycleResult, row: PendingOrder) {
    match r
    case Sold(quantity) => row.status == Resolved && row.applied.executed == quantity != 0.0
    case NothingExecuted => row.status == Resolved && row.applied.executed == 0.0
    case StillOpen => row.status == Submitted
    case RetryFailed => row.status == Submitted && row.applied == NOTHING_APPLIED
    case ReconciliationUnknown => row.status == Submitted && row.applied == NOTHING_APPLIED
    case PlacementFailed => row.status == Submitted && row.applied == NOTHING_APPLIED
    case _ => true
  }

  /** What was ordered never changes. */
  predicate SameOrder(before: PendingOrder, after: PendingOrder) {
    && after.id == before.id && after.symbol == before.symbol && after.side == before.side
    && after.requested == before.requested
    && after.signalTime == before.signalTime && after.submittedAt == before.submittedAt
  }

  /** The id is the primary key of its row. */
  predicate Keyed(pending: map<string, PendingOrder>) {
    forall id | id in pending :: pending[id].id == id
  }

  /** From position `i` on, the listed rows are as loaded, and nothing open is missing from them. */
  ghost predicate Remaining(db: Db, symbol: string, ids: seq<string>, rows: seq<PendingOrder>, i: nat)
    requires i <= |ids| == |rows|
  {
    && (forall k | i <= k < |ids| :: ids[k] in db.pending && db.pending[ids[k]] == rows[k])
    && (forall id | OpenFor(db, symbol, id) :: exists k :: i <= k < |ids| && ids[k] == id)
  }

  lemma RemainingAfterOne(db: Db, db': Db, symbol: string, ids: seq<string>, rows: seq<PendingOrder>, i: nat)
    requires i < |ids| == |rows| && Remaining(db, symbol, ids, rows, i)
    requires forall j, k | 0 <= j < k < |ids| :: ids[j] != ids[k]
    requires db'.pending.Keys == db.pending.Keys && forall id | id in db.pending && id != ids[i] ::
              db'.pending[id] == db.pending[id]
    requires db'.pending[ids[i]].status == Resolved
    ensures Remaining(db', symbol, ids, rows, i + 1)
  {
    forall id | OpenFor(db', symbol, id) ensures exists k :: i + 1 <= k < |ids| && ids[k] == id {
      assert OpenFor(db, symbol, id);
      var k :| i <= k < |ids| && ids[k] == id;
      assert k != i;
    }
  }

  lemma NothingOpenListed(db: Db, symbol: string, ids: seq<string>)
    requires ListsOpenRows(db, symbol, ids)
    ensures AllResolved(db.pending) ==> ids == []
  {
    if ids != [] { assert OpenFor(db, symbol, ids[0]); }
  }

  datatype Account = Account(quote: real, base: real)

  datatype Reconciled = Clear | Blocked | Raised

  class Session {
    const su: Setup
    const store: ExecutionStateStore
    var exchange: Exchange
    var savedRisk: Option<RiskBook>

    /** A call failed, or the process was stopped, at some time. */
    ghost var disturbed: bool
    ghost var origin: World
    ghost var trace: seq<Move>
    ghost var world: World

    /** The session is always at the end of a run of the protocol. */
    ghost predicate Valid()
      reads this, store
    {
      && After(su, origin, trace) == Some(world)
      && world.db == store.Contents() && world.ex == exchange
      && store.faultAt == NoFault && Keyed(store.pending)
    }

    constructor (su: Setup, store: ExecutionStateStore, exchange: Exchange, savedRisk: Option<RiskBook>)
      requires store.faultAt == NoFault && Keyed(store.pending)
      ensures Valid() && this.su == su && this.store == store && this.exchange == exchange
              && this.savedRisk == savedRisk
      ensures trace == [] && world == origin == World(store.Contents(), exchange, Idle)
    {
      this.su, this.store, this.exchange, this.savedRisk := su, store, exchange, savedRisk;
      disturbed := false;
      origin, world, trace := World(store.Contents(), exchange, Idle), World(store.Contents(), exchange, Idle), [];
    }

    ghost method Record(m: Move)
      requires After(su, origin, trace) == Some(world) && Allows(su, world, m)
      modifies `trace, `world
      ensures After(su, origin, trace) == Some(world) && world == Next(su, old(world), m) && trace == old(trace) + [m]
    {
      assert DropLast(trace + [m]) == trace;
      world := Next(su, world, m);
      trace := trace + [m];
    }

    /** Meanwhile, the exchange does whatever it likes. */
    method ExchangeActs()
      requires Valid()
      modifies `exchange, `trace, `world
      ensures Valid() && world.db == old(world.db) && world.phase == old(world.phase)
      ensures Still(old(exchange)) ==> exchange == old(exchange)
    {
      var steps: int := *;
      for i := 0 to if steps > 0 then steps else 0
        invariant Valid() && world.db == old(world.db) && world.phase == old(world.phase)
        invariant Still(old(exchange)) ==> exchange == old(exchange)
      {
        var m: ExchangeMove := *;
        if ExchangeAllows(exchange, m) {
          Record(Elsewhere(m));
          exchange := ExchangeNext(exchange, m);
        }
      }
    }

    /** The process stops here: an unhandled error, or a kill. */
    ghost method Stop()
      requires Valid()
      modifies `trace, `world
      ensures Valid() && world == old(world).(phase := Idle)
    {
      Record(Crash);
    }

    method FindOrder(id: string) returns (found: Option<nat>)
      ensures found.Some? ==> found.value < |exchange.orders| && exchange.orders[found.value].id == id
      ensures found.None? ==> NoOrder(exchange, id)
    {
      for i := 0 to |exchange.orders|
        invariant forall k | 0 <= k < i :: exchange.orders[k].id != id
      {
        if exchange.orders[i].id == id { return Some(i); }
      }
      return None;
    }

    method Deny(id: string)
      requires Valid() && Asked(world.phase) == Some(id) && id in store.pending && NoOrder(exchange, id)
      modifies `exchange, `trace, `world
      ensures Valid() && world.db == old(world.db)
      ensures world.phase == if old(world.phase).Asking? then NotThere(id)
                             else Judged(old(world.phase).todo, NeverSubmittedReport(store.pending[id]))
    {
      Record(QueryNotFound);
      exchange := NeverLands(exchange, id);
    }

    method Report(k: nat) returns (r: OrderReport)
      requires Valid() && k < |exchange.orders| && Asked(world.phase) == Some(exchange.orders[k].id)
      modifies `trace, `world
      ensures Valid() && world.db == old(world.db) && r == ReportOf(exchange.orders[k], [])
      ensures world.phase == if Reconcile(Got(r)) == Unknown then old(world.phase) else WithAnswer(old(world.phase), r)
    {
      r := ReportOf(exchange.orders[k], []);
      if Reconcile(Got(r)) != Unknown { Record(QueryFound(k)); }
    }

    /** A query for one order. The answer not-found is given only for a request that will never land. */
    method GetOrder(id: string) returns (reply: Reply)
      requires Valid() && Asked(world.phase) == Some(id) && id in store.pending
      modifies `disturbed, `exchange, `trace, `world
      ensures Valid() && world.db == old(world.db)
      ensures old(disturbed) ==> disturbed
      ensures !disturbed ==> reply.Got? || reply == ApiError(ORDER_DOES_NOT_EXIST)
      ensures reply.Got? ==> reply.report.id == id
      ensures reply.Got? && Reconcile(reply) != Unknown ==> world.phase == WithAnswer(old(world.phase), reply.report)
      ensures reply == ApiError(ORDER_DOES_NOT_EXIST) ==>
                world.phase == if old(world.phase).Asking? then NotThere(id)
                               else Judged(old(world.phase).todo, NeverSubmittedReport(store.pending[id]))
      ensures reply.NetworkFailure? || Reconcile(reply) == Unknown ==> world.phase == old(world.phase)
    {
      ExchangeActs();
      if * {
        disturbed := true;
        return NetworkFailure;
      }
      if * {
        var code: int := *;
        disturbed := true;
        return ApiError(if code == ORDER_DOES_NOT_EXIST then 0 else code);
      }
      var i := FindOrder(id);
      match i
      case None =>
        Deny(id);
        reply := ApiError(ORDER_DOES_NOT_EXIST);
      case Some(k) =>
        var r := Report(k);
        reply := Got(r);
    }

    /** Placing the order recorded under `id`. The request may land although the call fails, in either way. */
    method PlaceMarketOrder(id: string) returns (reply: Reply)
      requires Valid() && (world.phase == Created(id) || world.phase == NotThere(id)) && id in store.pending
      modifies `disturbed, `exchange, `trace, `world
      ensures Valid() && world.db == old(world.db)
      ensures old(disturbed) ==> disturbed
      ensures !disturbed ==> reply.Got?
      ensures reply.Got? ==> world.phase == Answered(reply.report) && reply.report.id == id
      ensures !reply.Got? ==> world.phase == Sent(id, old(world.phase).NotThere?)
    {
      var quantity := store.pending[id].requested;
      Record(OrderProtocol.Send);
      exchange := exchange.(inFlight := exchange.inFlight + [Request(id, quantity)]);
      ExchangeActs();
      if * {
        disturbed := true;
        return NetworkFailure;
      }
      var i := FindOrder(id);
      var refused: bool := *;
      if i.None? || refused {
        var code: int := *;
        disturbed := true;
        return ApiError(code);
      }
      var fills: seq<Fill> := *;
      if exists f | f in fills :: f.asset == su.market.baseAsset { fills := []; }
      reply := Got(ReportOf(exchange.orders[i.value], fills));
      Record(Respond(i.value, fills));
    }

    /** The account's totals, or a failure of the call, which is raised to the caller. */
    method GetAccountBalances() returns (account: Option<Account>)
      requires Valid()
      modifies `disturbed, `exchange, `trace, `world
      ensures Valid() && world.db == old(world.db) && world.phase == old(world.phase)
      ensures old(disturbed) ==> disturbed
      ensures !disturbed ==> account.Some?
      ensures account.Some? ==> account.value == Account(exchange.quote, exchange.base)
      ensures Still(old(exchange)) ==> exchange == old(exchange)
    {
      ExchangeActs();
      if * {
        disturbed := true;
        return None;
      }
      account := Some(Account(exchange.quote, exchange.base));
    }

    // ----- Reconciling (execution/startup_reconciliation.py) ----------------------------------------------

    /** Applies the answer now held; a refusal raises, which ends the cycle. */
    method ApplyHeld(r: OrderReport, now: int) returns (result: Result<Application, StoreError>)
      requires Valid() && (world.phase.Judged? || world.phase.Answered?) && world.phase.answer == r
      modifies store`portfolios, store`pending, `trace, `world
      ensures Valid() && world == AfterApplying(su, old(world), now)
      ensures result == ComputeFor(old(world).db, su.symbol, su.market, r)
    {
      result := store.ApplyOrderResultAtomically(su.symbol, su.market, r, now);
      Record(OrderProtocol.ApplyAnswer(now));
    }

    /** Resolves the rows a previous run left open, oldest first; any that stays open blocks. */
    method ReconcilePendingOrders(now: int) returns (outcome: Reconciled)
      requires Valid() && world.phase == Idle
      modifies this`disturbed, this`exchange, this`trace, this`world, store`portfolios, store`pending
      ensures Valid() && store.pending.Keys == old(store.pending.Keys)
      ensures old(disturbed) ==> disturbed
      ensures store.portfolios.Keys == old(store.portfolios.Keys)
      ensures outcome != Clear ==> world.phase == Idle
      ensures outcome == Clear ==> world.phase == Ready && forall id :: !OpenFor(store.Contents(), su.symbol, id)
      ensures AllResolved(old(store.pending)) ==>
                outcome == Clear && store.Contents() == old(store.Contents()) && exchange == old(exchange)
    {
      var ids, rows := store.LoadOpenPending(su.symbol);
      NothingOpenListed(store.Contents(), su.symbol, ids);
      Record(OrderProtocol.Start(ids));
      outcome := ReconcileListed(ids, rows, now);
      if outcome == Clear { Record(OrderProtocol.Proceed); }
    }

    method ReconcileListed(ids: seq<string>, rows: seq<PendingOrder>, now: int) returns (outcome: Reconciled)
      requires Valid() && world.phase == Reconciling(ids) && |ids| == |rows|
      requires (forall j, k | 0 <= j < k < |ids| :: ids[j] != ids[k])
               && Remaining(store.Contents(), su.symbol, ids, rows, 0)
      modifies this`disturbed, this`exchange, this`trace, this`world, store`portfolios, store`pending
      ensures Valid() && store.pending.Keys == old(store.pending.Keys)
      ensures old(disturbed) ==> disturbed
      ensures store.portfolios.Keys == old(store.portfolios.Keys)
      ensures outcome != Clear ==> world.phase == Idle
      ensures outcome == Clear ==>
                world.phase == Reconciling([]) && forall id :: !OpenFor(store.Contents(), su.symbol, id)
      ensures ids == [] ==> outcome == Clear && store.Contents() == old(store.Contents()) && exchange == old(exchange)
    {
      if ids == [] { return Clear; }
      for i := 0 to |ids|
        invariant Valid() && world.phase == Reconciling(ids[i..])
        invariant store.pending.Keys == old(store.pending.Keys) && store.portfolios.Keys == old(store.portfolios.Keys)
        invariant Remaining(store.Contents(), su.symbol, ids, rows, i) && (old(disturbed) ==> disturbed)
      {
        ghost var before := store.Contents();
        assert ids[i..] == [ids[i]] + ids[i + 1..];
        outcome := ReconcileOne(ids[i], rows[i], now, ids[i + 1..]);
        if outcome != Clear { return; }
        RemainingAfterOne(before, store.Contents(), su.symbol, ids, rows, i);
      }
      outcome := Clear;
    }

    method ReconcileOne(id: string, row: PendingOrder, now: int, ghost rest: seq<string>) returns (outcome: Reconciled)
      requires Valid() && world.phase == Reconciling([id] + rest) && id in store.pending && store.pending[id] == row
      modifies this`disturbed, this`exchange, this`trace, this`world, store`portfolios, store`pending
      ensures Valid() && store.pending.Keys == old(store.pending.Keys)
      ensures old(disturbed) ==> disturbed
      ensures store.portfolios.Keys == old(store.portfolios.Keys)
      ensures forall other | other in store.pending && other != id :: store.pending[other] == old(store.pending)[other]
      ensures outcome != Clear ==> world.phase == Idle
      ensures outcome == Clear ==> world.phase == Reconciling(rest) && store.pending[id].status == Resolved
    {
      var reply := GetOrder(id);
      if reply.NetworkFailure? {
        Stop();
        return Raised;
      }
      var status := Reconcile(reply);
      if status == Unknown {
        Stop();
        return Blocked;
      }
      var report := if status == NotFound then NeverSubmittedReport(row) else reply.report;
      var result := ApplyHeld(report, now);
      if result.Err? { return Raised; }
      if !result.value.terminal { return Blocked; }
      outcome := Clear;
    }

    method ReconcileBalances() returns (agreed: Option<bool>)
      requires Valid() && su.symbol in store.portfolios
      modifies `disturbed, `exchange, `trace, `world
      ensures Valid() && world.db == old(world.db) && world.phase == old(world.phase)
      ensures old(disturbed) ==> disturbed
      ensures !disturbed ==> agreed.Some?
      ensures agreed.Some? ==>
                (agreed.value <==> BalancesAgree(store.portfolios[su.symbol], exchange.quote, exchange.base))
      ensures Still(old(exchange)) ==> exchange == old(exchange)
    {
      var account := GetAccountBalances();
      if account.None? { return None; }
      var p := store.portfolios[su.symbol];
      agreed := Some(Abs(p.quote - account.value.quote) <= BALANCE_TOLERANCE
                     && Abs(p.base - account.value.base) <= BALANCE_TOLERANCE);
    }

    // ----- Submitting (execution/live_runner.py) ----------------------------------------------------------

    /** Submits once, and once more only if the exchange denies ever having seen the first request. */
    method Place(id: string) returns (answer: Result<OrderReport, CycleResult>)
      requires Valid() && world.phase == Created(id) && id in store.pending
      modifies `disturbed, `exchange, `trace, `world
      ensures Valid() && world.db == old(world.db)
      ensures old(disturbed) ==> disturbed
      ensures !disturbed ==> answer.Ok?
      ensures answer.Ok? ==> world.phase == Answered(answer.value) && answer.value.id == id
      ensures answer.Err? ==> world.phase == Idle && Unanswered(answer.error)
    {
      var reply := PlaceMarketOrder(id);
      if reply.Got? { return Ok(reply.report); }
      if reply.ApiError? {
        Stop();
        return Err(PlacementFailed);
      }
      Record(OrderProtocol.LoseAnswer);
      answer := AskAndRetry(id);
    }

    method AskAndRetry(id: string) returns (answer: Result<OrderReport, CycleResult>)
      requires Valid() && world.phase == Asking(id) && id in store.pending
      modifies `disturbed, `exchange, `trace, `world
      ensures Valid() && world.db == old(world.db)
      ensures old(disturbed) ==> disturbed
      ensures answer.Ok? ==> world.phase == Answered(answer.value) && answer.value.id == id
      ensures answer.Err? ==> world.phase == Idle && Unanswered(answer.error)
    {
      var reply := GetOrder(id);
      if reply.NetworkFailure? {
        Stop();
        return Err(Stopped);
      }
      var status := Reconcile(reply);
      if SafeToRetry(status) {
        reply := PlaceMarketOrder(id);
        if !reply.Got? {
          Stop();
          return Err(RetryFailed);
        }
        return Ok(reply.report);
      }
      if status == Unknown {
        Stop();
        return Err(ReconciliationUnknown);
      }
      answer := Ok(reply.report);
    }

    /** The intent is durable before the exchange is called, so that a crash can always be reconciled. */
    method RecordIntent(x: Inputs, quantity: real)
      requires Valid() && world.phase == Ready && su.symbol in store.portfolios
      requires x.clientOrderId !in store.pending && 0.0 < quantity <= store.portfolios[su.symbol].base
      modifies `trace, `world, store`pending
      ensures Valid() && world.phase == Created(x.clientOrderId)
      ensures store.pending == old(store.pending)[x.clientOrderId
                := NewRow(x.clientOrderId, su.symbol, SellOrder, quantity, x.dataTime, x.now)]
    {
      var row := NewRow(x.clientOrderId, su.symbol, SellOrder, quantity, x.dataTime, x.now);
      store.CreatePending(row);
      Record(OrderProtocol.Create(row));
    }

    method SubmitAndApply(x: Inputs, quantity: real, risk: RiskBook)
      returns (result: CycleResult, ghost booked: Option<Application>)
      requires Valid() && world.phase == Ready && su.symbol in store.portfolios
      requires x.clientOrderId !in store.pending && 0.0 < quantity <= store.portfolios[su.symbol].base
      modifies this`disturbed, this`exchange, this`trace, this`world, this`savedRisk, store`portfolios, store`pending
      ensures Valid() && world.phase == Idle && su.symbol in store.portfolios
      ensures old(disturbed) ==> disturbed
      ensures !disturbed && OrderProtocol.Initial(su, origin) ==> Completed(result)
      ensures store.pending.Keys == old(store.pending.Keys) + {x.clientOrderId}
      ensures forall id | id in old(store.pending) :: store.pending[id] == old(store.pending)[id]
      ensures SameOrder(NewRow(x.clientOrderId, su.symbol, SellOrder, quantity, x.dataTime, x.now),
                        store.pending[x.clientOrderId])
      ensures AfterIntent(result) && ResultTellsRow(result, store.pending[x.clientOrderId])
      ensures BookedAs(store.Contents(), su.symbol, x.clientOrderId, old(store.portfolios[su.symbol]), booked)
      ensures savedRisk == RiskNow(old(savedRisk), SavedRisk(result, risk, booked, x.limits.cooldownBars))
    {
      hide After, RiskAfter, ComputeFor;
      RecordIntent(x, quantity);
      result, booked := SubmitRecorded(x, risk);
    }

    /** The process may stop before the exchange is called; what it leaves is what the next cycle reconciles. */
    method SubmitRecorded(x: Inputs, risk: RiskBook) returns (result: CycleResult, ghost booked: Option<Application>)
      requires Valid() && world.phase == Created(x.clientOrderId) && su.symbol in store.portfolios
      requires x.clientOrderId in store.pending && store.pending[x.clientOrderId].status == Submitted
      requires store.pending[x.clientOrderId].applied == NOTHING_APPLIED
      modifies this`disturbed, this`exchange, this`trace, this`world, this`savedRisk, store`portfolios, store`pending
      ensures Valid() && world.phase == Idle && su.symbol in store.portfolios
      ensures old(disturbed) ==> disturbed
      ensures !disturbed && OrderProtocol.Initial(su, origin) ==> Completed(result)
      ensures store.pending.Keys == old(store.pending.Keys)
      ensures forall id | id in old(store.pending) && id != x.clientOrderId ::
                store.pending[id] == old(store.pending)[id]
      ensures SameOrder(old(store.pending)[x.clientOrderId], store.pending[x.clientOrderId])
      ensures AfterIntent(result) && ResultTellsRow(result, store.pending[x.clientOrderId])
      ensures BookedAs(store.Contents(), su.symbol, x.clientOrderId, old(store.portfolios[su.symbol]), booked)
      ensures savedRisk == RiskNow(old(savedRisk), SavedRisk(result, risk, booked, x.limits.cooldownBars))
    {
      hide After, RiskAfter, ComputeFor;
      booked := None;
      if * {
        disturbed := true;
        Stop();
        return Stopped, None;
      }
      var answer := Place(x.clientOrderId);
      if answer.Err? {
        if answer.error != Stopped { savedRisk := Some(risk.(apiErrors := risk.apiErrors + 1)); }
        return answer.error, None;
      }
      result, booked := Book(x, answer.value, risk);
    }

    /** Books the answer, then the day's risk figures; the process may stop in between. */
    method Book(x: Inputs, answer: OrderReport, risk: RiskBook)
      returns (result: CycleResult, ghost booked: Option<Application>)
      requires Valid() && world.phase == Answered(answer) && answer.id == x.clientOrderId
      requires x.clientOrderId in store.pending && su.symbol in store.portfolios
      modifies this`disturbed, this`trace, this`world, this`savedRisk, store`portfolios, store`pending
      ensures Valid() && world.phase == Idle && store.pending.Keys == old(store.pending.Keys)
      ensures old(disturbed) ==> disturbed
      ensures !disturbed && OrderProtocol.Initial(su, origin) ==> Completed(result)
      ensures forall id | id in old(store.pending) && id != x.clientOrderId ::
                store.pending[id] == old(store.pending)[id]
      ensures SameOrder(old(store.pending)[x.clientOrderId], store.pending[x.clientOrderId])
      ensures AfterIntent(result) && ResultTellsRow(result, store.pending[x.clientOrderId])
      ensures su.symbol in store.portfolios
      ensures BookedAs(store.Contents(), su.symbol, x.clientOrderId, old(store.portfolios[su.symbol]), booked)
      ensures savedRisk == RiskNow(old(savedRisk), SavedRisk(result, risk, booked, x.limits.cooldownBars))
    {
      HeldIsAccepted(this);
      var applied := ApplyHeld(answer, x.now);
      if applied.Err? { return Stopped, None; }
      booked := Some(applied.value);
      if * {
        disturbed := true;
        return Stopped, booked;
      }
      savedRisk := Some(RiskAfter(risk, applied.value, x.limits.cooldownBars));
      result := if !applied.value.terminal then StillOpen
                else if applied.value.applied.executed == 0.0 then NothingExecuted
                else CycleResult.Sold(applied.value.applied.executed);
    }

    /**
     * A cold start takes the exchange's quote balance; from here the session's run begins anew. Without an
     * answer from the exchange there is no decision.
     */
    method Seed(f: SymbolFilters) returns (seeded: Option<bool>)
      requires Valid() && world.phase == Idle && su.symbol !in store.portfolios
      modifies `disturbed, `exchange, `origin, `trace, `world, store`portfolios
      ensures Valid() && world.phase == Idle && store.pending == old(store.pending)
      ensures old(disturbed) ==> disturbed
      ensures !disturbed ==> seeded.Some?
      ensures seeded.Some? ==> (seeded.value <==> exchange.base < f.minQty)
      ensures store.portfolios == if seeded == Some(true)
                                  then old(store.portfolios)[su.symbol := Portfolio.Initial(exchange.quote)]
                                  else old(store.portfolios)
      ensures seeded == Some(true) ==> trace == [] && origin == world
    {
      var account := GetAccountBalances();
      if account.None? { return None; }
      var p := InitialPortfolio(account.value.quote, account.value.base, f);
      seeded := Some(p.Some?);
      if p.Some? {
        store.SavePortfolio(su.symbol, p.value);
        trace, origin, world := [], World(store.Contents(), exchange, Idle), World(store.Contents(), exchange, Idle);
      }
    }

    /** Settled, but the fees charged and the fees booked are too far apart for the balances to agree. */
    ghost predicate BlockedByFees()
      reads this, store
    {
      && Valid() && OrderProtocol.Initial(su, origin) && StartGap(su, origin) == Gap(0.0, 0.0)
      && AllResolved(store.pending) && Abs(FeeDifference(store.pending, exchange.orders)) > BALANCE_TOLERANCE
    }

    /** A cost basis and a reconciled account, or the reason why there is none. */
    method MakeReady(x: Inputs) returns (unready: Option<CycleResult>)
      requires Valid() && world.phase == Idle
      modifies this`disturbed, this`exchange, this`origin, this`trace, this`world, store`portfolios, store`pending
      ensures Valid() && store.pending.Keys == old(store.pending.Keys)
      ensures old(disturbed) ==> disturbed
      ensures old(su.symbol in store.portfolios) ==> origin == old(origin)
      ensures unready.Some? ==> world.phase == Idle && unready.value in {Stopped, ColdStartRefused, UnresolvedOrder}
      ensures unready.None? ==> world.phase == Ready && su.symbol in store.portfolios
                                && forall id :: !OpenFor(store.Contents(), su.symbol, id)
      ensures AllResolved(old(store.pending)) && old(su.symbol in store.portfolios) ==>
                unready.None? && store.Contents() == old(store.Contents()) && exchange == old(exchange)
    {
      var loaded := store.LoadPortfolio(su.symbol);
      if loaded.None? {
        var seeded := Seed(x.filters);
        if seeded.None? { return Some(Stopped); }
        if !seeded.value { return Some(ColdStartRefused); }
      }
      var reconciled := ReconcilePendingOrders(x.now);
      unready := match reconciled
                 case Clear => None
                 case Blocked => Some(UnresolvedOrder)
                 case Raised => Some(Stopped);
    }

    /**
     * One whole cycle. Whatever happens in it, the session is still at the end of a run of the protocol; it adds
     * at most its own row, only with every earlier row of the symbol resolved; and it saves the day's risk
     * figures as rolled forward and counted. Once settled with balances that differ by fees, no cycle does
     * anything ever again.
     */
    method RunCycle(x: Inputs)
      returns (result: CycleResult, ghost held: PortfolioState, ghost booked: Option<Application>,
               ghost shown: Account)
      requires Valid() && world.phase == Idle && x.symbol == su.symbol
      modifies this`disturbed, this`exchange, this`origin, this`trace, this`world, this`savedRisk, store`portfolios,
               store`pending
      ensures Valid() && world.phase == Idle
      ensures old(disturbed) ==> disturbed
      ensures !disturbed && x.dataOk && old(AllResolved(store.pending)) && old(su.symbol in store.portfolios) ==>
                && (Consulted(result) || store.pending.Keys != old(store.pending.Keys))
                && (OrderProtocol.Initial(su, origin) && store.pending.Keys != old(store.pending.Keys) ==>
                      Completed(result))
      ensures old(su.symbol in store.portfolios) ==> origin == old(origin)
      ensures store.pending.Keys == old(store.pending.Keys) || (
                && store.pending.Keys == old(store.pending.Keys) + {x.clientOrderId}
                && x.clientOrderId !in old(store.pending)
                && x.dataOk && !x.journalHasId && !x.killSwitch
                && AfterIntent(result) && ResultTellsRow(result, store.pending[x.clientOrderId])
                && forall id | id in old(store.pending) :: !OpenFor(store.Contents(), su.symbol, id))
      ensures Consulted(result) ==>
                && su.symbol in store.portfolios
                && if booked.None? then store.portfolios[su.symbol] == held
                   else x.clientOrderId in store.pending
                        && BookedAs(store.Contents(), su.symbol, x.clientOrderId, held, booked)
      ensures savedRisk == if !Consulted(result) then old(savedRisk)
                           else Some(CycleSaves(old(savedRisk),
                                                Cycle(x.day, Equity(held, x.lastClose), booked, Unanswered(result),
                                                      x.limits.cooldownBars)))
      ensures Consulted(result) || store.pending.Keys != old(store.pending.Keys) ==>
                ActedOn(old(store.Contents()), store.Contents(), x, held, BalancesAgree(held, shown.quote, shown.base),
                        RolledRisk(old(savedRisk), Equity(held, x.lastClose), x.day), result)
      ensures Consulted(result) && old(Still(exchange)) && old(AllResolved(store.pending))
              && old(su.symbol in store.portfolios) ==>
                held == old(store.portfolios[su.symbol]) && shown == old(Account(exchange.quote, exchange.base))
      ensures old(BlockedByFees()) ==>
                BlockedByFees() && NothingToSell(result) && exchange == old(exchange)
                && store.Contents() == old(store.Contents())
    {
      hide CycleSaves, RolledRisk, SavedRisk, MaySell, FirstObstacle, BookedAs, Decide;
      ghost var blocked := BlockedByFees();
      if blocked { BlockedIsStill(this); }
      held, booked, shown := Portfolio.Initial(0.0), None, Account(0.0, 0.0);
      if !x.dataOk { return DataUnavailable, held, None, shown; }
      var unready := MakeReady(x);
      if unready.Some? { return unready.value, held, None, shown; }
      ghost var before := store.Contents();
      held := store.portfolios[su.symbol];
      result, booked, shown := DecideAndAct(x);
      FiguresAreSaved(result, old(savedRisk), Equity(held, x.lastClose), x.day, booked, x.limits.cooldownBars);
      forall id | id in old(store.pending) ensures !OpenFor(store.Contents(), su.symbol, id) {
        assert !OpenFor(before, su.symbol, id);
      }
    }

    method DecideAndAct(x: Inputs)
      returns (result: CycleResult, ghost booked: Option<Application>, ghost shown: Account)
      requires Valid() && world.phase == Ready && x.symbol == su.symbol && su.symbol in store.portfolios
      modifies this`disturbed, this`exchange, this`trace, this`world, this`savedRisk, store`portfolios, store`pending
      ensures Valid() && world.phase == Idle && su.symbol in store.portfolios
      ensures old(disturbed) ==> disturbed
      ensures !disturbed ==> Consulted(result) || store.Contents() != old(store.Contents())
      ensures !disturbed && OrderProtocol.Initial(su, origin) && store.Contents() != old(store.Contents()) ==>
                Completed(result)
      ensures store.Contents() == old(store.Contents()) || (
                && store.pending.Keys == old(store.pending.Keys) + {x.clientOrderId}
                && x.clientOrderId !in old(store.pending)
                && !x.journalHasId && !x.killSwitch && AfterIntent(result)
                && ResultTellsRow(result, store.pending[x.clientOrderId]))
      ensures forall id | id in old(store.pending) :: store.pending[id] == old(store.pending)[id]
      ensures if booked.None? then store.portfolios[su.symbol] == old(store.portfolios[su.symbol])
              else x.clientOrderId in store.pending
                   && BookedAs(store.Contents(), su.symbol, x.clientOrderId, old(store.portfolios[su.symbol]), booked)
      ensures savedRisk == RiskNow(old(savedRisk),
                SavedRisk(result, RolledRisk(old(savedRisk), Equity(old(store.portfolios[su.symbol]), x.lastClose),
                                             x.day),
                          booked, x.limits.cooldownBars))
      ensures Consulted(result) || AfterIntent(result)
      ensures Consulted(result) || store.Contents() != old(store.Contents()) ==>
                ActedOn(old(store.Contents()), store.Contents(), x, old(store.portfolios[su.symbol]),
                        BalancesAgree(old(store.portfolios[su.symbol]), shown.quote, shown.base),
                        RolledRisk(old(savedRisk), Equity(old(store.portfolios[su.symbol]), x.lastClose), x.day),
                        result)
      ensures Still(old(exchange)) && Consulted(result) ==> shown == Account(old(exchange.quote), old(exchange.base))
      ensures Still(old(exchange))
              && !BalancesAgree(old(store.portfolios[su.symbol]), old(exchange.quote), old(exchange.base))
              ==> NothingToSell(result) && exchange == old(exchange) && store.Contents() == old(store.Contents())
    {
      hide After, RiskAfter, RolledRisk, ComputeFor, Decide, MaySell, FirstObstacle, RoundDownToStep;
      booked := None;
      var agreed := ReconcileBalances();
      shown := Account(exchange.quote, exchange.base);
      if agreed.None? {
        Stop();
        return Stopped, None, shown;
      }
      var p := store.portfolios[su.symbol];
      var risk := RolledRisk(savedRisk, Equity(p, x.lastClose), x.day);
      var row := store.GetPending(x.clientOrderId);
      var known := row.Some? || x.journalHasId;
      var decision := Decide(x, p, agreed.value, risk, known);
      if decision.Err? {
        RefusalIsExplained(x, p, agreed.value, risk, known);
        savedRisk := Some(risk);
        Stop();
        return decision.error, None, shown;
      }
      SaleApprovedExactlyWhen(x, p, agreed.value, risk, known);
      ApprovedSaleIsSafe(x, p, agreed.value, risk, known);
      result, booked := SubmitAndApply(x, decision.value, risk);
    }
  }

  /** In a session that began on a seeded account, the answer held is one the tables accept. */
  lemma HeldIsAccepted(s: Session)
    requires s.Valid() && (s.world.phase.Judged? || s.world.phase.Answered?)
    ensures OrderProtocol.Initial(s.su, s.origin) ==>
              ComputeFor(s.world.db, s.su.symbol, s.su.market, s.world.phase.answer).Ok?
  {
    hide OrderProtocol.Initial, ComputeFor;
    if OrderProtocol.Initial(s.su, s.origin) {
      assert Reachable(s.su, s.origin, s.trace, s.world);
      HeldAnswerNeverRaises(s.su, s.origin, s.trace, s.world);
    }
  }

  /** With everything resolved, the exchange cannot move, and balances that differ by fees keep differing. */
  lemma BlockedIsStill(s: Session)
    requires s.BlockedByFees()
    ensures s.su.symbol in s.store.portfolios && Still(s.exchange)
    ensures !BalancesAgree(s.store.portfolios[s.su.symbol], s.exchange.quote, s.exchange.base)
  {
    hide OrderProtocol.Initial, FeeDifference, Still;
    assert Reachable(s.su, s.origin, s.trace, s.world);
    SettledIsStill(s.su, s.origin, s.trace, s.world);
    QuoteDiffersByFeeEstimates(s.su, s.origin, s.trace, s.world);
  }

  /**
   * What the protocol guarantees, read off the tables and the exchange of any session started from a seeded,
   * matching account: no id ordered twice, nothing booked beyond what was executed, and the same base balance
   * on both sides as soon as no row is unresolved.
   */
  lemma SessionIsSafe(s: Session)
    requires s.Valid() && OrderProtocol.Initial(s.su, s.origin) && StartGap(s.su, s.origin).base == 0.0
    ensures forall i, j | 0 <= i < j < |s.exchange.orders| :: s.exchange.orders[i].id != s.exchange.orders[j].id
    ensures forall i | 0 <= i < |s.exchange.orders| ::
              var o := s.exchange.orders[i];
              o.id in s.store.pending && s.store.pending[o.id].applied.executed <= o.executed
    ensures (forall id | id in s.store.pending :: s.store.pending[id].status == Resolved) ==>
              s.su.symbol in s.store.portfolios && s.store.portfolios[s.su.symbol].base == s.exchange.base
  {
    hide OrderProtocol.Initial, StartGap;
    assert Reachable(s.su, s.origin, s.trace, s.world);
    OneOrderPerId(s.su, s.origin, s.trace, s.world);
    AppliedNeverExceedsExecuted(s.su, s.origin, s.trace, s.world);
    if forall id | id in s.store.pending :: s.store.pending[id].status == Resolved {
      BaseAgreesWhenAllResolved(s.su, s.origin, s.trace, s.world);
    }
  }
}
