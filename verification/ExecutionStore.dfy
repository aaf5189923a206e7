// The durable execution state (persistence/execution_store.py): one portfolio row a symbol, one row a
// client order id, and a single transaction that writes both or neither.

module ExecutionStore {
  import opened Common
  import opened Portfolio
  import opened OrderOutcome

  datatype RowStatus = Submitted | Resolved

  datatype PendingOrder = PendingOrder(
    id: string, symbol: string, side: OrderSide, requested: real, signalTime: int, submittedAt: int,
    status: RowStatus, applied: Applied, resolvedStatus: Option<OrderStatus>, resolvedAt: Option<int>)

  /** The two tables. */
  datatype Db = Db(portfolios: map<string, PortfolioState>, pending: map<string, PendingOrder>)

  datatype StoreError = NoPendingRow | NoPortfolio | BadReport(error: ApplyError) | InjectedFault

  function NewRow(id: string, symbol: string, side: OrderSide, requested: real, signalTime: int,
                  submittedAt: int): PendingOrder {
    PendingOrder(id, symbol, side, requested, signalTime, submittedAt, Submitted, NOTHING_APPLIED, None, None)
  }

  function ApplyToRow(row: PendingOrder, r: OrderReport, x: Application, now: int): PendingOrder {
    row.(applied := x.applied, status := if x.terminal then Resolved else Submitted,
         resolvedStatus := if x.terminal then Some(r.status) else None,
         resolvedAt := if x.terminal then Some(now) else None)
  }

  function ComputeFor(db: Db, symbol: string, m: Market, r: OrderReport): Result<Application, StoreError> {
    if r.id !in db.pending then Err(NoPendingRow)
    else if symbol !in db.portfolios then Err(NoPortfolio)
    else
      var row := db.pending[r.id];
      match ComputeApplication(r, row.side, m, db.portfolios[symbol], row.applied)
      case Err(error) => Err(BadReport(error))
      case Ok(x) => Ok(x)
  }

  /** Why a report cannot be booked: no row, then no portfolio, then what the report itself or the account refuses. */
  lemma RefusalIsNamed(db: Db, symbol: string, m: Market, r: OrderReport)
    ensures var x := ComputeFor(db, symbol, m, r);
            && (x == Err(NoPendingRow) <==> r.id !in db.pending)
            && (x == Err(NoPortfolio) <==> r.id in db.pending && symbol !in db.portfolios)
            && (r.id in db.pending && symbol in db.portfolios ==>
                  var row := db.pending[r.id];
                  var own := ComputeApplication(r, row.side, m, db.portfolios[symbol], row.applied);
                  if own.Ok? then x == Ok(own.value) else x == Err(BadReport(own.error)))
  {
  }

  /** The state after a committed application. */
  function Committed(db: Db, symbol: string, r: OrderReport, x: Application, now: int): Db
    requires r.id in db.pending
  {
    Db(db.portfolios[symbol := x.portfolio], db.pending[r.id := ApplyToRow(db.pending[r.id], r, x, now)])
  }

  predicate OpenFor(db: Db, symbol: string, id: string) {
    id in db.pending && db.pending[id].symbol == symbol && db.pending[id].status == Submitted
  }

  /** A listing of the open rows of a symbol: each exactly once, oldest submission first. */
  ghost predicate ListsOpenRows(db: Db, symbol: string, ids: seq<string>) {
    && (forall i, j | 0 <= i < j < |ids| :: ids[i] != ids[j])
    && (forall i | 0 <= i < |ids| :: OpenFor(db, symbol, ids[i]))
    && (forall id | OpenFor(db, symbol, id) :: id in ids)
    && (forall i, j | 0 <= i < j < |ids| :: db.pending[ids[i]].submittedAt <= db.pending[ids[j]].submittedAt)
  }

  function SubmissionTime(pending: map<string, PendingOrder>): string -> int {
    id => if id in pending then pending[id].submittedAt else 0
  }

  lemma OrderedRowsList(db: Db, symbol: string, open: set<string>, ids: seq<string>)
    requires forall id :: id in open <==> OpenFor(db, symbol, id)
    requires ListsInOrder(open, SubmissionTime(db.pending), ids)
    ensures ListsOpenRows(db, symbol, ids)
  {
    forall i | 0 <= i < |ids| ensures OpenFor(db, symbol, ids[i]) {
      assert ids[i] in ids;
    }
    forall i, j | 0 <= i < j < |ids| ensures db.pending[ids[i]].submittedAt <= db.pending[ids[j]].submittedAt {
      assert SubmissionTime(db.pending)(ids[i]) <= SubmissionTime(db.pending)(ids[j]);
    }
  }

  /** The points at which a transaction can be interrupted. */
  datatype FaultPoint = NoFault | BeforeWrite | AfterPortfolioWrite | BeforeCommit

  class ExecutionStateStore {
    var portfolios: map<string, PortfolioState>
    var pending: map<string, PendingOrder>
    var faultAt: FaultPoint

    ghost function Contents(): Db
      reads this
    {
      Db(portfolios, pending)
    }

    constructor (portfolios: map<string, PortfolioState>, pending: map<string, PendingOrder>)
      ensures Contents() == Db(portfolios, pending) && faultAt == NoFault
    {
      this.portfolios := portfolios;
      this.pending := pending;
      faultAt := NoFault;
    }

    method LoadPortfolio(symbol: string) returns (p: Option<PortfolioState>)
      ensures p == if symbol in portfolios then Some(portfolios[symbol]) else None
    {
      p := if symbol in portfolios then Some(portfolios[symbol]) else None;
    }

    method SavePortfolio(symbol: string, p: PortfolioState)
      modifies `portfolios
      ensures Contents() == old(Contents()).(portfolios := old(portfolios)[symbol := p])
    {
      portfolios := portfolios[symbol := p];
    }

    /** An id that already has a row keeps it unchanged. */
    method CreatePending(row: PendingOrder)
      modifies `pending
      ensures Contents() == if row.id in old(pending) then old(Contents())
                            else old(Contents()).(pending := old(pending)[row.id := row])
    {
      if row.id !in pending {
        pending := pending[row.id := row];
      }
    }

    method GetPending(id: string) returns (row: Option<PendingOrder>)
      ensures row == if id in pending then Some(pending[id]) else None
    {
      row := if id in pending then Some(pending[id]) else None;
    }

    method LoadOpenPending(symbol: string) returns (ids: seq<string>, rows: seq<PendingOrder>)
      ensures ListsOpenRows(Contents(), symbol, ids)
      ensures |rows| == |ids| && forall i | 0 <= i < |ids| :: rows[i] == pending[ids[i]]
    {
      var open := set id | id in pending && pending[id].symbol == symbol && pending[id].status == Submitted;
      ids := ListInOrder(open, SubmissionTime(pending));
      OrderedRowsList(Contents(), symbol, open, ids);
      rows := seq(|ids|, i requires 0 <= i < |ids| && ids[i] in pending reads this => pending[ids[i]]);
    }

    /** All of the application becomes durable, or the tables stay as they were. */
    method ApplyOrderResultAtomically(symbol: string, m: Market, r: OrderReport, now: int)
      returns (result: Result<Application, StoreError>)
      modifies `portfolios, `pending
      ensures result.Ok? ==> (
          && ComputeFor(old(Contents()), symbol, m, r) == result && r.id in old(pending)
          && Contents() == Committed(old(Contents()), symbol, r, result.value, now))
      ensures result.Err? ==> Contents() == old(Contents())
      ensures result.Err? <==> faultAt != NoFault || ComputeFor(old(Contents()), symbol, m, r).Err?
      ensures faultAt == NoFault ==> result == ComputeFor(old(Contents()), symbol, m, r)
    {
      var portfoliosBefore, pendingBefore := portfolios, pending;
      result := WriteBoth(symbol, m, r, now);
      if result.Err? {
        portfolios, pending := portfoliosBefore, pendingBefore;
      }
    }

    /** The body of the transaction; a failure part-way leaves whatever had been written. */
    method WriteBoth(symbol: string, m: Market, r: OrderReport, now: int)
      returns (result: Result<Application, StoreError>)
      modifies `portfolios, `pending
      ensures result.Ok? ==> (
          && ComputeFor(old(Contents()), symbol, m, r) == result && r.id in old(pending)
          && Contents() == Committed(old(Contents()), symbol, r, result.value, now))
      ensures result.Err? <==> faultAt != NoFault || ComputeFor(old(Contents()), symbol, m, r).Err?
      ensures faultAt == NoFault ==> result == ComputeFor(old(Contents()), symbol, m, r)
    {
      if r.id !in pending { return Err(NoPendingRow); }
      var row := pending[r.id];
      if symbol !in portfolios { return Err(NoPortfolio); }
      if faultAt == BeforeWrite { return Err(InjectedFault); }
      var applied := ComputeApplication(r, row.side, m, portfolios[symbol], row.applied);
      if applied.Err? { return Err(BadReport(applied.error)); }
      var x := applied.value;
      portfolios := portfolios[symbol := x.portfolio];
      if faultAt == AfterPortfolioWrite { return Err(InjectedFault); }
      pending := pending[r.id := ApplyToRow(row, r, x, now)];
      if faultAt == BeforeCommit { return Err(InjectedFault); }
      result := Ok(x);
    }
  }

  /** What a truthful report of a sell order does to the account and to its row. */
  lemma SellReportEffect(r: OrderReport, m: Market, p: PortfolioState, a: Applied)
    requires Portfolio.Valid(p) && 0.0 <= a.executed && Consistent(r, a)
    requires r.executed == a.executed ==> r.cumQuote == a.cumQuote
    requires r.status == New ==> r.executed == 0.0
    requires forall f | f in r.fills :: f.asset != m.baseAsset
    requires r.executed - a.executed <= p.base
    ensures var x := ComputeApplication(r, SellOrder, m, p, a);
            && x.Ok? && Portfolio.Valid(x.value.portfolio)
            && x.value.terminal == Terminal(r.status)
            && x.value.applied.executed == r.executed && x.value.applied.cumQuote == r.cumQuote
            && x.value.portfolio.base == p.base - (r.executed - a.executed)
            && x.value.portfolio.quote - p.quote
               == (r.cumQuote - a.cumQuote) - (x.value.applied.commissionQuote - a.commissionQuote)
  {
    if r.executed > a.executed {
      UnseenAssetIsZero(r.fills, m.baseAsset);
      SoldSlice(p, DeltaOf(r, a, m));
      SliceKeepsValid(p, SellOrder, DeltaOf(r, a, m));
    }
  }
}
