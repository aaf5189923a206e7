// The order lifecycle as steps of one local agent and an exchange: execution/live_runner.py,
// execution/startup_reconciliation.py and execution/reconciliation.py over the durable store, with lost
// acknowledgements, crashes at any point and partial fills. Only SELL orders are ever submitted.

module OrderProtocol {
  import opened Common
  import opened Portfolio
  import opened OrderOutcome
  import opened ExecutionStore

  // ----- The exchange ---------------------------------------------------------------------------------

  datatype ExchangeOrder = ExchangeOrder(id: string, requested: real, executed: real, cumQuote: real,
                                         commission: real, status: OrderStatus)

  /** A placement request on its way: it may land, or be lost. */
  datatype Request = Request(id: string, quantity: real)

  /** The exchange never merges requests: each one that lands becomes a new order. */
  datatype Exchange = Exchange(orders: seq<ExchangeOrder>, inFlight: seq<Request>, base: real, quote: real)

  datatype ExchangeMove = Land(request: nat) | Drop(request: nat)
                        | Execute(order: nat, base: real, quote: real, commission: real)
                        | Turn(order: nat, status: OrderStatus)

  predicate ClosingStatus(s: OrderStatus) {
    s.Canceled? || s.Rejected? || s.Expired? || s.Unrecognized?
  }

  predicate ExchangeAllows(ex: Exchange, m: ExchangeMove) {
    match m
    case Land(j) => j < |ex.inFlight|
    case Drop(j) => j < |ex.inFlight|
    case Execute(i, base, quote, commission) =>
      && i < |ex.orders| && !Terminal(ex.orders[i].status)
      && base > 0.0 && quote > 0.0 && ex.orders[i].executed + base <= ex.orders[i].requested
    case Turn(i, status) => i < |ex.orders| && !Terminal(ex.orders[i].status) && ClosingStatus(status)
  }

  function Without<T>(s: seq<T>, i: nat): seq<T>
    requires i < |s|
  {
    s[..i] + s[i + 1..]
  }

  function AfterFill(o: ExchangeOrder, base: real, quote: real, commission: real): ExchangeOrder {
    o.(executed := o.executed + base, cumQuote := o.cumQuote + quote, commission := o.commission + commission,
       status := if o.executed + base == o.requested then OrderStatus.Filled else PartiallyFilled)
  }

  function ExchangeNext(ex: Exchange, m: ExchangeMove): Exchange
    requires ExchangeAllows(ex, m)
  {
    match m
    case Land(j) =>
      var r := ex.inFlight[j];
      ex.(orders := ex.orders + [ExchangeOrder(r.id, r.quantity, 0.0, 0.0, 0.0, New)],
          inFlight := Without(ex.inFlight, j))
    case Drop(j) => ex.(inFlight := Without(ex.inFlight, j))
    case Execute(i, base, quote, commission) =>
      ex.(orders := ex.orders[i := AfterFill(ex.orders[i], base, quote, commission)],
          base := ex.base - base, quote := ex.quote + (quote - commission))
    case Turn(i, status) => ex.(orders := ex.orders[i := ex.orders[i].(status := status)])
  }

  predicate NoOrder(ex: Exchange, id: string) {
    forall i | 0 <= i < |ex.orders| :: ex.orders[i].id != id
  }

  predicate NoRequest(ex: Exchange, id: string) {
    forall j | 0 <= j < |ex.inFlight| :: ex.inFlight[j].id != id
  }

  function RequestsExcept(requests: seq<Request>, id: string): (rest: seq<Request>)
    ensures forall r :: r in rest <==> r in requests && r.id != id
  {
    if requests == [] then [] else
    RequestsExcept(DropLast(requests), id) + if Last(requests).id == id then [] else [Last(requests)]
  }

  /** NOT_FOUND is answered only for requests that never land. */
  function NeverLands(ex: Exchange, id: string): Exchange {
    ex.(inFlight := RequestsExcept(ex.inFlight, id))
  }

  function ReportOf(o: ExchangeOrder, fills: seq<Fill>): OrderReport {
    OrderReport(o.id, o.status, o.executed, o.cumQuote, fills)
  }

  // ----- The agent --------------------------------------------------------------------------------------

  datatype Setup = Setup(symbol: string, market: Market)

  /** Where the running cycle is; a crash forgets it, the tables survive. */
  datatype Phase = Idle
                 | Reconciling(todo: seq<string>)
                 | Judged(todo: seq<string>, answer: OrderReport)
                 | Ready
                 | Created(id: string)
                 | Sent(id: string, retried: bool)
                 | Asking(id: string)
                 | NotThere(id: string)
                 | Answered(answer: OrderReport)

  datatype World = World(db: Db, ex: Exchange, phase: Phase)

  datatype Move = Start(todo: seq<string>)
                | QueryFound(order: nat)
                | QueryNotFound
                | ApplyAnswer(now: int)
                | Proceed
                | Create(row: PendingOrder)
                | Send
                | Respond(order: nat, fills: seq<Fill>)
                | LoseAnswer
                | Crash
                | Elsewhere(move: ExchangeMove)

  /** The terminal report synthesised for an order the exchange has never heard of. */
  function NeverSubmittedReport(row: PendingOrder): OrderReport {
    OrderReport(row.id, NeverSubmitted, row.applied.executed, row.applied.cumQuote, [])
  }

  /** The id a query is about in this phase, if any. */
  function Asked(phase: Phase): Option<string> {
    match phase
    case Reconciling(todo) => if todo == [] then None else Some(todo[0])
    case Asking(id) => Some(id)
    case _ => None
  }

  predicate NewSellRow(su: Setup, w: World, row: PendingOrder) {
    && su.symbol in w.db.portfolios && row.id !in w.db.pending
    && row == NewRow(row.id, su.symbol, SellOrder, row.requested, row.signalTime, row.submittedAt)
    && 0.0 < row.requested <= w.db.portfolios[su.symbol].base
  }

  ghost predicate Allows(su: Setup, w: World, m: Move) {
    match m
    case Start(todo) => w.phase.Idle? && ListsOpenRows(w.db, su.symbol, todo)
    case QueryFound(i) => i < |w.ex.orders| && Asked(w.phase) == Some(w.ex.orders[i].id)
                          && !w.ex.orders[i].status.Unrecognized?
    case QueryNotFound => Asked(w.phase).Some? && NoOrder(w.ex, Asked(w.phase).value)
                          && Asked(w.phase).value in w.db.pending
    case ApplyAnswer(_) => w.phase.Judged? || w.phase.Answered?
    case Proceed => w.phase == Reconciling([])
    case Create(row) => w.phase.Ready? && NewSellRow(su, w, row)
    case Send => (w.phase.Created? || w.phase.NotThere?) && w.phase.id in w.db.pending
    case Respond(i, fills) =>
      && w.phase.Sent? && i < |w.ex.orders| && w.ex.orders[i].id == w.phase.id
      && forall f | f in fills :: f.asset != su.market.baseAsset
    case LoseAnswer => w.phase.Sent? && !w.phase.retried
    case Crash => true
    case Elsewhere(move) => ExchangeAllows(w.ex, move)
  }

  function WithAnswer(phase: Phase, answer: OrderReport): Phase {
    match phase
    case Reconciling(todo) => Judged(todo, answer)
    case _ => Answered(answer)
  }

  function AfterApplying(su: Setup, w: World, now: int): World
    requires w.phase.Judged? || w.phase.Answered?
  {
    var r := w.phase.answer;
    match ComputeFor(w.db, su.symbol, su.market, r)
    case Err(_) => w.(phase := Idle)
    case Ok(x) =>
      World(Committed(w.db, su.symbol, r, x, now), w.ex,
            if w.phase.Judged? && x.terminal && w.phase.todo != [] then Reconciling(w.phase.todo[1..]) else Idle)
  }

  ghost function Next(su: Setup, w: World, m: Move): World
    requires Allows(su, w, m)
  {
    match m
    case Start(todo) => w.(phase := Reconciling(todo))
    case QueryFound(i) => w.(phase := WithAnswer(w.phase, ReportOf(w.ex.orders[i], [])))
    case QueryNotFound =>
      var id := Asked(w.phase).value;
      w.(ex := NeverLands(w.ex, id),
         phase := if w.phase.Asking? then NotThere(id)
                  else Judged(w.phase.todo, NeverSubmittedReport(w.db.pending[id])))
    case ApplyAnswer(now) => AfterApplying(su, w, now)
    case Proceed => w.(phase := Ready)
    case Create(row) => w.(db := w.db.(pending := w.db.pending[row.id := row]), phase := Created(row.id))
    case Send =>
      var id := w.phase.id;
      w.(ex := w.ex.(inFlight := w.ex.inFlight + [Request(id, w.db.pending[id].requested)]),
         phase := Sent(id, w.phase.NotThere?))
    case Respond(i, fills) => w.(phase := Answered(ReportOf(w.ex.orders[i], fills)))
    case LoseAnswer => w.(phase := Asking(w.phase.id))
    case Crash => w.(phase := Idle)
    case Elsewhere(move) => w.(ex := ExchangeNext(w.ex, move))
  }

  /** The world after a sequence of moves, if each was possible when it was made. */
  ghost function After(su: Setup, w: World, moves: seq<Move>): Option<World>
    decreases |moves|
  {
    if moves == [] then Some(w)
    else match After(su, w, DropLast(moves))
      case None => None
      case Some(v) => if Allows(su, v, Last(moves)) then Some(Next(su, v, Last(moves))) else None
  }

  /** A seeded account with nothing pending, on this side or on the exchange. */
  predicate Initial(su: Setup, w: World) {
    && su.symbol in w.db.portfolios && Portfolio.Valid(w.db.portfolios[su.symbol])
    && w.db.pending == map[] && w.ex.orders == [] && w.ex.inFlight == [] && w.phase == Idle
  }

  // ----- The invariant --------------------------------------------------------------------------------------

  predicate DistinctRequests(requests: seq<Request>) {
    forall i, j | 0 <= i < j < |requests| :: requests[i].id != requests[j].id
  }

  predicate DistinctIds(ex: Exchange) {
    && (forall i, j | 0 <= i < j < |ex.orders| :: ex.orders[i].id != ex.orders[j].id)
    && DistinctRequests(ex.inFlight)
    && (forall j | 0 <= j < |ex.inFlight| :: NoOrder(ex, ex.inFlight[j].id))
  }

  predicate OrderSound(o: ExchangeOrder) {
    && 0.0 <= o.executed <= o.requested && 0.0 <= o.cumQuote && (o.executed == 0.0 <==> o.cumQuote == 0.0)
    && (o.status == New ==> o.executed == 0.0) && !o.status.NeverSubmitted?
  }

  /** What the tables reflect of an order never exceeds what the exchange has executed. */
  predicate Linked(row: PendingOrder, o: ExchangeOrder) {
    && row.requested == o.requested
    && row.applied.executed <= o.executed && row.applied.cumQuote <= o.cumQuote
    && (row.applied.executed == o.executed ==> row.applied.cumQuote == o.cumQuote)
    && (row.status == Resolved ==>
          Terminal(o.status) && row.resolvedStatus == Some(o.status) && row.applied.executed == o.executed)
  }

  predicate OrdersLinked(pending: map<string, PendingOrder>, ex: Exchange) {
    forall i | 0 <= i < |ex.orders| ::
      var o := ex.orders[i]; OrderSound(o) && o.id in pending && Linked(pending[o.id], o)
  }

  predicate RequestsLinked(pending: map<string, PendingOrder>, ex: Exchange) {
    forall j | 0 <= j < |ex.inFlight| ::
      var r := ex.inFlight[j];
      r.id in pending && pending[r.id].status == Submitted && pending[r.id].requested == r.quantity
  }

  predicate RowSound(su: Setup, id: string, row: PendingOrder) {
    && row.id == id && row.symbol == su.symbol && row.side == SellOrder
    && 0.0 <= row.applied.executed <= row.requested && 0.0 < row.requested && 0.0 <= row.applied.cumQuote
    && (row.applied.executed == 0.0 <==> row.applied.cumQuote == 0.0)
    && (row.status == Resolved <==> row.resolvedStatus.Some?) && (row.status == Resolved <==> row.resolvedAt.Some?)
  }

  predicate RowsSound(su: Setup, pending: map<string, PendingOrder>, ex: Exchange) {
    forall id | id in pending ::
      RowSound(su, id, pending[id])
      && (NoOrder(ex, id) ==>
            && pending[id].applied.executed == 0.0 && pending[id].applied.commissionQuote == 0.0
            && (pending[id].status == Resolved ==> pending[id].resolvedStatus == Some(NeverSubmitted)))
  }

  predicate Open(pending: map<string, PendingOrder>, id: string) {
    id in pending && pending[id].status == Submitted
  }

  predicate AtMostOneOpen(pending: map<string, PendingOrder>) {
    forall a, b | a in pending && b in pending && Open(pending, a) && Open(pending, b) :: a == b
  }

  /** A held answer is a past truth about its order: monotone figures, final if it says so. */
  predicate Truthful(r: OrderReport, o: ExchangeOrder) {
    && r.executed <= o.executed && r.cumQuote <= o.cumQuote && (r.executed == o.executed ==> r.cumQuote == o.cumQuote)
    && (Terminal(r.status) ==> r.status == o.status && r.executed == o.executed)
  }

  predicate AnswerFits(su: Setup, row: PendingOrder, r: OrderReport) {
    && Consistent(r, row.applied) && r.executed <= row.requested
    && (r.executed == row.applied.executed ==> r.cumQuote == row.applied.cumQuote)
    && (r.status == New ==> r.executed == 0.0)
    && forall f | f in r.fills :: f.asset != su.market.baseAsset
  }

  predicate AnswerSound(su: Setup, w: World, r: OrderReport) {
    && Open(w.db.pending, r.id) && AnswerFits(su, w.db.pending[r.id], r)
    && (forall i | 0 <= i < |w.ex.orders| && w.ex.orders[i].id == r.id :: Truthful(r, w.ex.orders[i]))
    && (NoOrder(w.ex, r.id) ==> NoRequest(w.ex, r.id) && r == NeverSubmittedReport(w.db.pending[r.id]))
  }

  predicate PhaseSound(su: Setup, w: World) {
    match w.phase
    case Idle => true
    case Reconciling(todo) =>
      && (todo != [] ==> Open(w.db.pending, todo[0]))
      && (forall id | id in w.db.pending && Open(w.db.pending, id) :: todo == [id])
    case Judged(todo, r) => todo == [r.id] && AnswerSound(su, w, r)
    case Ready => forall id | id in w.db.pending :: !Open(w.db.pending, id)
    case Created(id) => Open(w.db.pending, id) && NoOrder(w.ex, id) && NoRequest(w.ex, id)
    case Sent(id, _) => Open(w.db.pending, id)
    case Asking(id) => Open(w.db.pending, id)
    case NotThere(id) => Open(w.db.pending, id) && NoOrder(w.ex, id) && NoRequest(w.ex, id)
    case Answered(r) => AnswerSound(su, w, r)
  }

  /** What one order has moved on the exchange and not yet in the tables. */
  datatype Gap = Gap(base: real, quote: real)

  function Add(a: Gap, b: Gap): Gap { Gap(a.base + b.base, a.quote + b.quote) }

  function AppliedTo(pending: map<string, PendingOrder>, id: string): Applied {
    if id in pending then pending[id].applied else NOTHING_APPLIED
  }

  function OrderGap(a: Applied, o: ExchangeOrder): Gap {
    Gap(o.executed - a.executed, (a.cumQuote - a.commissionQuote) - (o.cumQuote - o.commission))
  }

  function TotalGap(pending: map<string, PendingOrder>, orders: seq<ExchangeOrder>): Gap {
    if orders == [] then Gap(0.0, 0.0)
    else Add(TotalGap(pending, DropLast(orders)), OrderGap(AppliedTo(pending, Last(orders).id), Last(orders)))
  }

  /** Local balances differ from the exchange's by the starting difference and what is not yet applied. */
  predicate Balanced(su: Setup, start: Gap, w: World)
    requires su.symbol in w.db.portfolios
  {
    var p := w.db.portfolios[su.symbol];
    Gap(p.base - w.ex.base, p.quote - w.ex.quote) == Add(start, TotalGap(w.db.pending, w.ex.orders))
  }

  /** Enough is held locally to book everything the open order can still execute. */
  predicate Covered(su: Setup, w: World)
    requires su.symbol in w.db.portfolios
  {
    forall id | id in w.db.pending && Open(w.db.pending, id) ::
      w.db.pending[id].requested - w.db.pending[id].applied.executed <= w.db.portfolios[su.symbol].base
  }

  /** The two sides describe the same orders. */
  predicate Links(su: Setup, pending: map<string, PendingOrder>, ex: Exchange) {
    && DistinctIds(ex) && OrdersLinked(pending, ex) && RequestsLinked(pending, ex)
    && RowsSound(su, pending, ex) && AtMostOneOpen(pending)
  }

  predicate Accounts(su: Setup, start: Gap, w: World) {
    && su.symbol in w.db.portfolios && Portfolio.Valid(w.db.portfolios[su.symbol])
    && Balanced(su, start, w) && Covered(su, w)
  }

  predicate Inv(su: Setup, start: Gap, w: World) {
    Links(su, w.db.pending, w.ex) && PhaseSound(su, w) && Accounts(su, start, w)
  }

  function StartGap(su: Setup, w: World): Gap
    requires su.symbol in w.db.portfolios
  {
    var p := w.db.portfolios[su.symbol];
    Gap(p.base - w.ex.base, p.quote - w.ex.quote)
  }

  // ----- Sums ---------------------------------------------------------------------------------------------

  /** Changing one order changes the total by the change in that order. */
  lemma {:induction false} GapOfChangedOrder(pending: map<string, PendingOrder>, orders: seq<ExchangeOrder>, i: nat,
                                             o: ExchangeOrder)
    requires i < |orders| && o.id == orders[i].id
    ensures var a := AppliedTo(pending, o.id);
            Add(TotalGap(pending, orders[i := o]), OrderGap(a, orders[i]))
            == Add(TotalGap(pending, orders), OrderGap(a, o))
    decreases |orders|
  {
    var changed := orders[i := o];
    if i == |orders| - 1 {
      assert DropLast(changed) == DropLast(orders);
    } else {
      assert DropLast(changed) == DropLast(orders)[i := o];
      GapOfChangedOrder(pending, DropLast(orders), i, o);
    }
  }

  /** A row whose order is not in the list does not matter. */
  lemma {:induction false} GapOfUnlistedRow(pending: map<string, PendingOrder>, orders: seq<ExchangeOrder>,
                                            row: PendingOrder)
    requires forall i | 0 <= i < |orders| :: orders[i].id != row.id
    ensures TotalGap(pending[row.id := row], orders) == TotalGap(pending, orders)
    decreases |orders|
  {
    if orders != [] { GapOfUnlistedRow(pending, DropLast(orders), row); }
  }

  /** Changing one row changes the total by the change in its order. */
  lemma {:induction false} GapOfChangedRow(pending: map<string, PendingOrder>, orders: seq<ExchangeOrder>, i: nat,
                                           row: PendingOrder)
    requires i < |orders| && orders[i].id == row.id
    requires forall j, k | 0 <= j < k < |orders| :: orders[j].id != orders[k].id
    ensures Add(TotalGap(pending[row.id := row], orders), OrderGap(AppliedTo(pending, row.id), orders[i]))
         == Add(TotalGap(pending, orders), OrderGap(row.applied, orders[i]))
    decreases |orders|
  {
    if i == |orders| - 1 {
      GapOfUnlistedRow(pending, DropLast(orders), row);
    } else {
      GapOfChangedRow(pending, DropLast(orders), i, row);
    }
  }

  // ----- How the exchange evolves -----------------------------------------------------------------------------

  /** Orders only move forward, stay final once terminal, and appear only from requests. */
  ghost predicate Evolves(ex: Exchange, ex': Exchange) {
    && |ex.orders| <= |ex'.orders|
    && (forall i | 0 <= i < |ex.orders| :: Later(ex.orders[i], ex'.orders[i]))
    && (forall i | |ex.orders| <= i < |ex'.orders| :: !NoRequest(ex, ex'.orders[i].id) && NoOrder(ex, ex'.orders[i].id))
    && (forall id | NoOrder(ex', id) :: NoOrder(ex, id))
    && (forall id | NoRequest(ex, id) :: NoRequest(ex', id))
    && (forall id | NoRequest(ex, id) && NoOrder(ex, id) :: NoOrder(ex', id))
  }

  predicate Later(o: ExchangeOrder, n: ExchangeOrder) {
    && n.id == o.id && n.requested == o.requested && o.executed <= n.executed && o.cumQuote <= n.cumQuote
    && (o.executed == n.executed ==> o.cumQuote == n.cumQuote)
    && (Terminal(o.status) ==> n == o)
  }

  lemma LandEvolves(ex: Exchange, j: nat)
    requires j < |ex.inFlight| && DistinctIds(ex)
    ensures Evolves(ex, ExchangeNext(ex, Land(j)))
  {
  }

  lemma DropEvolves(ex: Exchange, j: nat)
    requires j < |ex.inFlight|
    ensures Evolves(ex, ExchangeNext(ex, Drop(j)))
  {
  }

  function WithOrder(ex: Exchange, i: nat, n: ExchangeOrder, base: real, quote: real): Exchange
    requires i < |ex.orders|
  {
    ex.(orders := ex.orders[i := n], base := ex.base - base, quote := ex.quote + quote)
  }

  lemma ForwardEvolves(ex: Exchange, i: nat, n: ExchangeOrder, base: real, quote: real)
    requires i < |ex.orders| && Later(ex.orders[i], n)
    ensures Evolves(ex, WithOrder(ex, i, n, base, quote))
  {
  }

  lemma NeverLandsEvolves(ex: Exchange, id: string)
    ensures Evolves(ex, NeverLands(ex, id)) && NoRequest(NeverLands(ex, id), id)
  {
  }

  /** Whatever the exchange does meanwhile, the agent's place in its cycle stays sound. */
  lemma EvolvesKeepsPhase(su: Setup, w: World, ex': Exchange)
    requires PhaseSound(su, w) && Evolves(w.ex, ex')
    ensures PhaseSound(su, w.(ex := ex'))
  {
  }

  lemma AbsentMeansNoOrder(ex: Exchange, id: string)
    ensures NoOrder(ex, id) <==> forall i | 0 <= i < |ex.orders| :: ex.orders[i].id != id
  {
  }

  // ----- The links between the two sides ------------------------------------------------------------------------

  lemma LandedIds(ex: Exchange, j: nat)
    requires j < |ex.inFlight| && DistinctIds(ex)
    ensures var ex' := ExchangeNext(ex, Land(j)); var id := ex.inFlight[j].id;
            && (forall other :: NoOrder(ex', other) <==> NoOrder(ex, other) && other != id)
            && NoOrder(ex, id)
            && (forall i | 0 <= i < |ex.orders| :: ex.orders[i].id != id)
  {
    var ex', n := ExchangeNext(ex, Land(j)), |ex.orders|;
    forall other | NoOrder(ex', other) ensures NoOrder(ex, other) && other != ex.inFlight[j].id {
      assert ex'.orders[n].id != other;
      forall i | 0 <= i < n ensures ex.orders[i].id != other { assert ex'.orders[i].id != other; }
    }
  }

  lemma LandKeepsLinks(su: Setup, pending: map<string, PendingOrder>, ex: Exchange, j: nat)
    requires Links(su, pending, ex) && j < |ex.inFlight|
    ensures Links(su, pending, ExchangeNext(ex, Land(j)))
  {
    hide NoOrder;
    LandedIds(ex, j);
  }

  lemma DropKeepsLinks(su: Setup, pending: map<string, PendingOrder>, ex: Exchange, j: nat)
    requires Links(su, pending, ex) && j < |ex.inFlight|
    ensures Links(su, pending, ExchangeNext(ex, Drop(j)))
  {
    hide NoOrder;
    SameOrdersSameIds(ex, ExchangeNext(ex, Drop(j)));
  }

  lemma SameOrdersSameIds(ex: Exchange, ex': Exchange)
    requires |ex.orders| == |ex'.orders| && forall i | 0 <= i < |ex.orders| :: ex.orders[i].id == ex'.orders[i].id
    ensures forall id :: NoOrder(ex', id) <==> NoOrder(ex, id)
  {
  }

  lemma ForwardKeepsLinks(su: Setup, pending: map<string, PendingOrder>, ex: Exchange, i: nat, n: ExchangeOrder,
                          base: real, quote: real)
    requires Links(su, pending, ex) && i < |ex.orders| && Later(ex.orders[i], n) && OrderSound(n)
    requires !Terminal(ex.orders[i].status)
    ensures Links(su, pending, WithOrder(ex, i, n, base, quote))
  {
    hide NoOrder, Terminal;
    SameOrdersSameIds(ex, WithOrder(ex, i, n, base, quote));
  }

  lemma {:induction false} ExceptKeepsDistinct(requests: seq<Request>, id: string)
    requires DistinctRequests(requests)
    ensures DistinctRequests(RequestsExcept(requests, id))
  {
    if requests != [] {
      var before, last := DropLast(requests), Last(requests);
      ExceptKeepsDistinct(before, id);
      var rest := RequestsExcept(before, id);
      forall i | 0 <= i < |rest| ensures rest[i].id != last.id {
        assert rest[i] in rest && rest[i] in before;
        var k :| 0 <= k < |before| && before[k] == rest[i];
        assert requests[k].id != requests[|requests| - 1].id;
      }
    }
  }

  lemma NeverLandsKeepsLinks(su: Setup, pending: map<string, PendingOrder>, ex: Exchange, id: string)
    requires Links(su, pending, ex)
    ensures Links(su, pending, NeverLands(ex, id))
  {
    hide NoOrder, RequestsExcept;
    ExceptKeepsDistinct(ex.inFlight, id);
    SameOrdersSameIds(ex, NeverLands(ex, id));
    var rest := RequestsExcept(ex.inFlight, id);
    forall j | 0 <= j < |rest|
      ensures NoOrder(ex, rest[j].id) && rest[j].id in pending && pending[rest[j].id].status == Submitted
      ensures pending[rest[j].id].requested == rest[j].quantity
    {
      assert rest[j] in rest && rest[j] in ex.inFlight;
      var k :| 0 <= k < |ex.inFlight| && ex.inFlight[k] == rest[j];
    }
  }

  // ----- Exchange moves keep the invariant ----------------------------------------------------------------

  lemma ForwardKeepsInv(su: Setup, start: Gap, w: World, i: nat, n: ExchangeOrder, base: real, quote: real)
    requires Inv(su, start, w) && i < |w.ex.orders| && !Terminal(w.ex.orders[i].status)
    requires Later(w.ex.orders[i], n) && OrderSound(n)
    requires base == n.executed - w.ex.orders[i].executed
    requires quote == (n.cumQuote - n.commission) - (w.ex.orders[i].cumQuote - w.ex.orders[i].commission)
    ensures Inv(su, start, w.(ex := WithOrder(w.ex, i, n, base, quote)))
  {
    hide PhaseSound, Links, Covered;
    GapOfChangedOrder(w.db.pending, w.ex.orders, i, n);
    ForwardKeepsLinks(su, w.db.pending, w.ex, i, n, base, quote);
    ForwardEvolves(w.ex, i, n, base, quote);
    EvolvesKeepsPhase(su, w, WithOrder(w.ex, i, n, base, quote));
    ExchangeDoesNotCover(su, w, WithOrder(w.ex, i, n, base, quote));
  }

  lemma ExchangeDoesNotCover(su: Setup, w: World, ex': Exchange)
    requires su.symbol in w.db.portfolios && Covered(su, w)
    ensures Covered(su, w.(ex := ex'))
  {
  }

  lemma LandKeepsInv(su: Setup, start: Gap, w: World, j: nat)
    requires Inv(su, start, w) && j < |w.ex.inFlight|
    ensures Inv(su, start, w.(ex := ExchangeNext(w.ex, Land(j))))
  {
    hide PhaseSound, Accounts, NoOrder, NoRequest, OrdersLinked, RequestsLinked, RowsSound, Evolves;
    LandKeepsLinks(su, w.db.pending, w.ex, j);
    LandEvolves(w.ex, j);
    EvolvesKeepsPhase(su, w, ExchangeNext(w.ex, Land(j)));
    LandKeepsAccounts(su, start, w, j);
  }

  lemma LandKeepsAccounts(su: Setup, start: Gap, w: World, j: nat)
    requires Links(su, w.db.pending, w.ex) && Accounts(su, start, w) && j < |w.ex.inFlight|
    ensures Accounts(su, start, w.(ex := ExchangeNext(w.ex, Land(j))))
  {
  }

  lemma DropKeepsInv(su: Setup, start: Gap, w: World, j: nat)
    requires Inv(su, start, w) && j < |w.ex.inFlight|
    ensures Inv(su, start, w.(ex := ExchangeNext(w.ex, Drop(j))))
  {
    hide PhaseSound, Links, Covered;
    DropKeepsLinks(su, w.db.pending, w.ex, j);
    DropEvolves(w.ex, j);
    EvolvesKeepsPhase(su, w, ExchangeNext(w.ex, Drop(j)));
    ExchangeDoesNotCover(su, w, ExchangeNext(w.ex, Drop(j)));
  }

  lemma FillMovesForward(o: ExchangeOrder, base: real, quote: real, commission: real)
    requires OrderSound(o) && !Terminal(o.status) && base > 0.0 && quote > 0.0 && o.executed + base <= o.requested
    ensures var n := AfterFill(o, base, quote, commission); Later(o, n) && OrderSound(n)
  {
  }

  lemma OrderIsSound(su: Setup, pending: map<string, PendingOrder>, ex: Exchange, i: nat)
    requires Links(su, pending, ex) && i < |ex.orders|
    ensures var o := ex.orders[i]; OrderSound(o) && o.id in pending && Linked(pending[o.id], o)
  {
  }

  lemma ExchangeKeepsInv(su: Setup, start: Gap, w: World, m: ExchangeMove)
    requires Inv(su, start, w) && ExchangeAllows(w.ex, m)
    ensures Inv(su, start, w.(ex := ExchangeNext(w.ex, m)))
  {
    hide PhaseSound, Links, Accounts;
    match m
    case Land(j) => LandKeepsInv(su, start, w, j);
    case Drop(j) => DropKeepsInv(su, start, w, j);
    case Execute(i, base, quote, commission) =>
      OrderIsSound(su, w.db.pending, w.ex, i);
      FillMovesForward(w.ex.orders[i], base, quote, commission);
      ForwardKeepsInv(su, start, w, i, AfterFill(w.ex.orders[i], base, quote, commission), base, quote - commission);
    case Turn(i, status) =>
      OrderIsSound(su, w.db.pending, w.ex, i);
      ForwardKeepsInv(su, start, w, i, w.ex.orders[i].(status := status), 0.0, 0.0);
  }

  // ----- Agent moves keep the invariant ---------------------------------------------------------------------

  lemma NeverLandsKeepsInv(su: Setup, start: Gap, w: World, id: string)
    requires Inv(su, start, w)
    ensures Inv(su, start, w.(ex := NeverLands(w.ex, id)))
  {
    hide PhaseSound, Links, Covered, RequestsExcept;
    NeverLandsKeepsLinks(su, w.db.pending, w.ex, id);
    NeverLandsEvolves(w.ex, id);
    EvolvesKeepsPhase(su, w, NeverLands(w.ex, id));
    ExchangeDoesNotCover(su, w, NeverLands(w.ex, id));
  }

  lemma QueryKeepsInv(su: Setup, start: Gap, w: World, m: Move)
    requires Inv(su, start, w) && Allows(su, w, m) && (m.QueryFound? || m.QueryNotFound? || m.Respond?)
    ensures Inv(su, start, Next(su, w, m))
  {
    hide NoOrder, NoRequest, Links, AnswerSound, Accounts, RequestsExcept;
    match m
    case QueryNotFound =>
      var id := Asked(w.phase).value;
      var v := w.(ex := NeverLands(w.ex, id));
      NeverLandsKeepsInv(su, start, w, id);
      AbsentOrder(su, start, w, id);
      OpenRows(su, w.db.pending, w.ex);
      SameAccounts(su, start, v, Next(su, w, m));
    case QueryFound(i) =>
      FoundAnswerIsSound(su, start, w, i, [], Next(su, w, m));
      SameAccounts(su, start, w, Next(su, w, m));
    case Respond(i, fills) =>
      FoundAnswerIsSound(su, start, w, i, fills, Next(su, w, m));
      SameAccounts(su, start, w, Next(su, w, m));
  }

  lemma SameAccounts(su: Setup, start: Gap, w: World, v: World)
    requires Accounts(su, start, w) && v.db == w.db && v.ex.orders == w.ex.orders && v.ex.base == w.ex.base
    requires v.ex.quote == w.ex.quote
    ensures Accounts(su, start, v)
  {
  }

  /** The exchange's denial is itself a sound answer. */
  lemma AbsentOrder(su: Setup, start: Gap, w: World, id: string)
    requires Links(su, w.db.pending, w.ex) && NoOrder(w.ex, id) && Open(w.db.pending, id)
    ensures var ex' := NeverLands(w.ex, id);
            && NoOrder(ex', id) && NoRequest(ex', id)
            && forall phase :: AnswerSound(su, World(w.db, ex', phase), NeverSubmittedReport(w.db.pending[id]))
  {
  }

  lemma FoundAnswerIsSound(su: Setup, start: Gap, w: World, i: nat, fills: seq<Fill>, v: World)
    requires Links(su, w.db.pending, w.ex) && i < |w.ex.orders| && Open(w.db.pending, w.ex.orders[i].id)
    requires forall f | f in fills :: f.asset != su.market.baseAsset
    requires v.db == w.db && v.ex == w.ex
    ensures AnswerSound(su, v, ReportOf(w.ex.orders[i], fills))
  {
  }

  lemma StartKeepsInv(su: Setup, start: Gap, w: World, todo: seq<string>)
    requires Inv(su, start, w) && Allows(su, w, Start(todo))
    ensures Inv(su, start, Next(su, w, Start(todo)))
  {
    hide Links, Accounts;
    SameAccounts(su, start, w, Next(su, w, Start(todo)));
    OpenRows(su, w.db.pending, w.ex);
    forall id | id in w.db.pending && Open(w.db.pending, id) ensures todo == [id] {
      assert OpenFor(w.db, su.symbol, id) && id in todo;
      assert forall k | 0 <= k < |todo| :: OpenFor(w.db, su.symbol, todo[k]) && todo[k] == id;
      assert todo[0] == todo[|todo| - 1];
    }
  }

  lemma OpenRows(su: Setup, pending: map<string, PendingOrder>, ex: Exchange)
    requires Links(su, pending, ex)
    ensures AtMostOneOpen(pending) && forall id | id in pending :: RowSound(su, id, pending[id])
  {
  }

  lemma CreateKeepsInv(su: Setup, start: Gap, w: World, row: PendingOrder)
    requires Inv(su, start, w) && Allows(su, w, Create(row))
    ensures Inv(su, start, Next(su, w, Create(row)))
  {
    hide Links, NoOrder, NoRequest;
    FreshRowKeepsLinks(su, w.db.pending, w.ex, row);
    GapOfUnlistedRow(w.db.pending, w.ex.orders, row);
  }

  lemma FreshRowKeepsLinks(su: Setup, pending: map<string, PendingOrder>, ex: Exchange, row: PendingOrder)
    requires Links(su, pending, ex) && row.id !in pending && (forall id | id in pending :: !Open(pending, id))
    requires RowSound(su, row.id, row) && row.applied == NOTHING_APPLIED && row.status == Submitted
    ensures Links(su, pending[row.id := row], ex) && NoOrder(ex, row.id) && NoRequest(ex, row.id)
    ensures forall i | 0 <= i < |ex.orders| :: ex.orders[i].id != row.id
  {
  }

  lemma SendKeepsInv(su: Setup, start: Gap, w: World)
    requires Inv(su, start, w) && Allows(su, w, Send)
    ensures Inv(su, start, Next(su, w, Send))
  {
    hide Links, NoOrder, NoRequest, Accounts;
    SameAccounts(su, start, w, Next(su, w, Send));
    RequestKeepsLinks(su, w.db.pending, w.ex, w.phase.id);
  }

  lemma RequestKeepsLinks(su: Setup, pending: map<string, PendingOrder>, ex: Exchange, id: string)
    requires Links(su, pending, ex) && Open(pending, id) && NoOrder(ex, id) && NoRequest(ex, id)
    ensures Links(su, pending, ex.(inFlight := ex.inFlight + [Request(id, pending[id].requested)]))
  {
    hide NoOrder;
    SameOrdersSameIds(ex, ex.(inFlight := ex.inFlight + [Request(id, pending[id].requested)]));
  }

  // ----- Applying a held answer --------------------------------------------------------------------------------

  /** A sound answer is never refused. */
  lemma AnswerIsAccepted(su: Setup, start: Gap, w: World, r: OrderReport)
    requires Inv(su, start, w) && AnswerSound(su, w, r)
    ensures var row, p := w.db.pending[r.id], w.db.portfolios[su.symbol];
            var x := ComputeFor(w.db, su.symbol, su.market, r);
            && x.Ok? && Portfolio.Valid(x.value.portfolio) && x.value.terminal == Terminal(r.status)
            && x.value.applied.executed == r.executed && x.value.applied.cumQuote == r.cumQuote
            && (r.executed == row.applied.executed ==> x.value.applied == row.applied)
            && x.value.portfolio.base == p.base - (r.executed - row.applied.executed)
            && x.value.portfolio.quote - p.quote
               == (r.cumQuote - row.applied.cumQuote) - (x.value.applied.commissionQuote - row.applied.commissionQuote)
  {
    SellReportEffect(r, su.market, w.db.portfolios[su.symbol], w.db.pending[r.id].applied);
  }

  lemma AppliedAnswerKeepsLinks(su: Setup, w: World, r: OrderReport, x: Application, now: int)
    requires Links(su, w.db.pending, w.ex) && AnswerSound(su, w, r)
    requires su.symbol in w.db.portfolios && AnswerBooked(su, w, r, x)
    ensures Links(su, w.db.pending[r.id := ApplyToRow(w.db.pending[r.id], r, x, now)], w.ex)
  {
    hide NoOrder, NoRequest;
    OpenIsLinked(su, w, r);
    RequestOfOpen(w.ex, r.id);
  }

  /** The order behind a sound answer. */
  lemma OpenIsLinked(su: Setup, w: World, r: OrderReport)
    requires Links(su, w.db.pending, w.ex) && AnswerSound(su, w, r)
    ensures Terminal(r.status) ==> NoRequest(w.ex, r.id)
  {
  }

  lemma RequestOfOpen(ex: Exchange, id: string)
    ensures NoRequest(ex, id) <==> forall j | 0 <= j < |ex.inFlight| :: ex.inFlight[j].id != id
  {
  }

  /** Booking an answer moves what it books from the gap into the account. */
  lemma AppliedAnswerKeepsBalance(su: Setup, start: Gap, w: World, r: OrderReport, x: Application, now: int)
    requires Links(su, w.db.pending, w.ex) && Accounts(su, start, w) && AnswerSound(su, w, r)
    requires AnswerBooked(su, w, r, x)
    ensures var v := World(Committed(w.db, su.symbol, r, x, now), w.ex, Idle);
            su.symbol in v.db.portfolios && Balanced(su, start, v)
  {
    hide Links, NoOrder, NoRequest, ComputeFor, ComputeApplication;
    var row := ApplyToRow(w.db.pending[r.id], r, x, now);
    OpenRows(su, w.db.pending, w.ex);
    OrdersOnce(su, w.db.pending, w.ex);
    if NoOrder(w.ex, r.id) {
      AbsentMeansNoOrder(w.ex, r.id);
      GapOfUnlistedRow(w.db.pending, w.ex.orders, row);
    } else {
      AbsentMeansNoOrder(w.ex, r.id);
      var i :| 0 <= i < |w.ex.orders| && w.ex.orders[i].id == r.id;
      GapOfChangedRow(w.db.pending, w.ex.orders, i, row);
    }
  }

  lemma OrdersOnce(su: Setup, pending: map<string, PendingOrder>, ex: Exchange)
    requires Links(su, pending, ex)
    ensures forall i, j | 0 <= i < j < |ex.orders| :: ex.orders[i].id != ex.orders[j].id
  {
  }

  predicate AnswerBooked(su: Setup, w: World, r: OrderReport, x: Application)
    requires r.id in w.db.pending && su.symbol in w.db.portfolios
  {
    var row, p := w.db.pending[r.id], w.db.portfolios[su.symbol];
    && Portfolio.Valid(x.portfolio) && x.terminal == Terminal(r.status)
    && x.applied.executed == r.executed && x.applied.cumQuote == r.cumQuote
    && (r.executed == row.applied.executed ==> x.applied == row.applied)
    && x.portfolio.base == p.base - (r.executed - row.applied.executed)
    && x.portfolio.quote - p.quote
       == (r.cumQuote - row.applied.cumQuote) - (x.applied.commissionQuote - row.applied.commissionQuote)
  }

  lemma AppliedAnswerKeepsAccounts(su: Setup, start: Gap, w: World, r: OrderReport, now: int)
    requires Inv(su, start, w) && AnswerSound(su, w, r)
    ensures var x := ComputeFor(w.db, su.symbol, su.market, r);
            && Open(w.db.pending, r.id) && su.symbol in w.db.portfolios && x.Ok? && AnswerBooked(su, w, r, x.value)
            && Accounts(su, start, World(Committed(w.db, su.symbol, r, x.value, now), w.ex, Idle))
  {
    hide Links, NoOrder, NoRequest, ComputeFor, ComputeApplication, Balanced;
    AnswerIsAccepted(su, start, w, r);
    AppliedAnswerKeepsBalance(su, start, w, r, ComputeFor(w.db, su.symbol, su.market, r).value, now);
    OpenRows(su, w.db.pending, w.ex);
  }

  lemma ApplyKeepsInv(su: Setup, start: Gap, w: World, now: int)
    requires Inv(su, start, w) && Allows(su, w, ApplyAnswer(now))
    ensures Inv(su, start, Next(su, w, ApplyAnswer(now)))
  {
    hide Links, NoOrder, NoRequest, AnswerSound, Accounts, ComputeFor;
    var r := w.phase.answer;
    AppliedAnswerKeepsAccounts(su, start, w, r, now);
    var x := ComputeFor(w.db, su.symbol, su.market, r).value;
    AppliedAnswerKeepsLinks(su, w, r, x, now);
    var v := World(Committed(w.db, su.symbol, r, x, now), w.ex, Idle);
    SameAccounts(su, start, v, Next(su, w, ApplyAnswer(now)));
    OpenRows(su, w.db.pending, w.ex);
  }

  // ----- Every run ----------------------------------------------------------------------------------------------

  lemma MoveKeepsInv(su: Setup, start: Gap, w: World, m: Move)
    requires Inv(su, start, w) && Allows(su, w, m)
    ensures Inv(su, start, Next(su, w, m))
  {
    hide Links, Accounts, AnswerSound, Balanced, Covered;
    match m
    case Start(todo) => StartKeepsInv(su, start, w, todo);
    case QueryFound(_) => QueryKeepsInv(su, start, w, m);
    case QueryNotFound => QueryKeepsInv(su, start, w, m);
    case Respond(_, _) => QueryKeepsInv(su, start, w, m);
    case ApplyAnswer(now) => ApplyKeepsInv(su, start, w, now);
    case Create(row) => CreateKeepsInv(su, start, w, row);
    case Send => SendKeepsInv(su, start, w);
    case Proceed => SameAccounts(su, start, w, Next(su, w, m));
    case LoseAnswer => SameAccounts(su, start, w, Next(su, w, m));
    case Crash => SameAccounts(su, start, w, Next(su, w, m));
    case Elsewhere(move) => ExchangeKeepsInv(su, start, w, move);
  }

  lemma {:induction false} RunKeepsInv(su: Setup, start: Gap, w: World, moves: seq<Move>)
    requires Inv(su, start, w) && After(su, w, moves).Some?
    ensures Inv(su, start, After(su, w, moves).value)
    decreases |moves|
  {
    hide Inv, Next, Allows;
    if moves != [] {
      RunKeepsInv(su, start, w, DropLast(moves));
      MoveKeepsInv(su, start, After(su, w, DropLast(moves)).value, Last(moves));
    }
  }

  lemma InitialIsSound(su: Setup, w: World)
    requires Initial(su, w)
    ensures Inv(su, StartGap(su, w), w)
  {
  }

  // ----- What it means ------------------------------------------------------------------------------------------

  ghost predicate Reachable(su: Setup, w0: World, moves: seq<Move>, w: World) {
    Initial(su, w0) && After(su, w0, moves) == Some(w)
  }

  lemma ReachableIsSound(su: Setup, w0: World, moves: seq<Move>, w: World)
    requires Reachable(su, w0, moves, w)
    ensures Inv(su, StartGap(su, w0), w)
  {
    hide Inv;
    InitialIsSound(su, w0);
    RunKeepsInv(su, StartGap(su, w0), w0, moves);
  }

  /** No client order id ever names two orders, or an order and a request still on its way. */
  lemma OneOrderPerId(su: Setup, w0: World, moves: seq<Move>, w: World)
    requires Reachable(su, w0, moves, w)
    ensures forall i, j | 0 <= i < j < |w.ex.orders| :: w.ex.orders[i].id != w.ex.orders[j].id
    ensures forall i, j | 0 <= i < |w.ex.orders| && 0 <= j < |w.ex.inFlight| :: w.ex.orders[i].id != w.ex.inFlight[j].id
  {
    ReachableIsSound(su, w0, moves, w);
    forall i, j | 0 <= i < |w.ex.orders| && 0 <= j < |w.ex.inFlight| ensures w.ex.orders[i].id != w.ex.inFlight[j].id {
      assert NoOrder(w.ex, w.ex.inFlight[j].id);
    }
  }

  /** The tables never run ahead of the exchange, and never hold more than was requested. */
  lemma AppliedNeverExceedsExecuted(su: Setup, w0: World, moves: seq<Move>, w: World)
    requires Reachable(su, w0, moves, w)
    ensures forall i | 0 <= i < |w.ex.orders| ::
              var o := w.ex.orders[i];
              o.id in w.db.pending && 0.0 <= w.db.pending[o.id].applied.executed <= o.executed <= o.requested
    ensures forall id | id in w.db.pending && NoOrder(w.ex, id) :: w.db.pending[id].applied.executed == 0.0
  {
    ReachableIsSound(su, w0, moves, w);
  }

  /** A row is opened only when every earlier row is resolved, and its id is new to both sides. */
  lemma NoNewOrderWhileOneIsUnresolved(su: Setup, w0: World, moves: seq<Move>, w: World, row: PendingOrder)
    requires Reachable(su, w0, moves, w) && Allows(su, w, Create(row))
    ensures forall id | id in w.db.pending :: w.db.pending[id].status == Resolved
    ensures NoOrder(w.ex, row.id) && NoRequest(w.ex, row.id)
  {
    ReachableIsSound(su, w0, moves, w);
    FreshRowKeepsLinks(su, w.db.pending, w.ex, row);
    forall id | id in w.db.pending ensures w.db.pending[id].status == Resolved { assert !Open(w.db.pending, id); }
  }

  /** A held answer is always accepted: the transaction never refuses what the exchange truthfully reports. */
  lemma HeldAnswerNeverRaises(su: Setup, w0: World, moves: seq<Move>, w: World)
    requires Reachable(su, w0, moves, w) && (w.phase.Judged? || w.phase.Answered?)
    ensures ComputeFor(w.db, su.symbol, su.market, w.phase.answer).Ok?
  {
    ReachableIsSound(su, w0, moves, w);
    hide AnswerSound, Links, ComputeFor;
    AnswerIsAccepted(su, StartGap(su, w0), w, w.phase.answer);
  }

  /** One move never changes, reopens or removes a resolved row. */
  lemma MoveFreezesResolved(su: Setup, start: Gap, w: World, m: Move, id: string)
    requires Inv(su, start, w) && Allows(su, w, m) && id in w.db.pending && w.db.pending[id].status == Resolved
    ensures id in Next(su, w, m).db.pending && Next(su, w, m).db.pending[id] == w.db.pending[id]
  {
    hide Links, Accounts, NoOrder, NoRequest, ComputeFor, AnswerFits;
  }

  lemma {:induction false} RunFreezesResolved(su: Setup, start: Gap, w: World, moves: seq<Move>, id: string)
    requires Inv(su, start, w) && After(su, w, moves).Some? && id in w.db.pending && w.db.pending[id].status == Resolved
    ensures var v := After(su, w, moves).value; id in v.db.pending && v.db.pending[id] == w.db.pending[id]
    decreases |moves|
  {
    hide Inv, Next, Allows;
    if moves != [] {
      RunFreezesResolved(su, start, w, DropLast(moves), id);
      RunKeepsInv(su, start, w, DropLast(moves));
      MoveFreezesResolved(su, start, After(su, w, DropLast(moves)).value, Last(moves), id);
    }
  }

  /** Once resolved, a row is never reopened or changed by anything that can follow. */
  lemma ResolvedRowsAreFinal(su: Setup, w0: World, moves: seq<Move>, w: World, later: seq<Move>, id: string)
    requires Reachable(su, w0, moves, w) && After(su, w, later).Some?
    requires id in w.db.pending && w.db.pending[id].status == Resolved
    ensures var v := After(su, w, later).value; id in v.db.pending && v.db.pending[id] == w.db.pending[id]
  {
    hide Inv;
    ReachableIsSound(su, w0, moves, w);
    RunFreezesResolved(su, StartGap(su, w0), w, later, id);
  }

  /**
   * A resolved row says when it was resolved and how its order ended: as the exchange says, or never submitted when the
   * exchange has no such order. An open row says neither.
   */
  lemma ResolvedRowsTellHowTheyEnded(su: Setup, w0: World, moves: seq<Move>, w: World, id: string)
    requires Reachable(su, w0, moves, w) && id in w.db.pending
    ensures var row := w.db.pending[id];
            && (row.status == Submitted ==> row.resolvedStatus == None && row.resolvedAt == None)
            && (row.status == Resolved ==> row.resolvedAt.Some? && row.resolvedStatus.Some?)
    ensures var row := w.db.pending[id];
            row.status == Resolved ==>
              && (forall i | 0 <= i < |w.ex.orders| && w.ex.orders[i].id == id ::
                    row.resolvedStatus == Some(w.ex.orders[i].status) && Over(w.ex.orders[i].status))
              && (NoOrder(w.ex, id) ==> row.resolvedStatus == Some(NeverSubmitted))
  {
    ReachableIsSound(su, w0, moves, w);
    hide Accounts, PhaseSound;
  }

  predicate FullyApplied(pending: map<string, PendingOrder>, o: ExchangeOrder) {
    o.id in pending && pending[o.id].applied.executed == o.executed
  }

  lemma {:induction false} NothingOwedWhenApplied(pending: map<string, PendingOrder>, orders: seq<ExchangeOrder>)
    requires forall i | 0 <= i < |orders| ::
              AppliedTo(pending, orders[i].id).executed <= orders[i].executed && orders[i].id in pending
    ensures TotalGap(pending, orders).base >= 0.0
    ensures TotalGap(pending, orders).base == 0.0 <==> forall i | 0 <= i < |orders| :: FullyApplied(pending, orders[i])
    decreases |orders|
  {
    if orders != [] {
      var before := DropLast(orders);
      NothingOwedWhenApplied(pending, before);
      if forall i | 0 <= i < |orders| :: FullyApplied(pending, orders[i]) {
        forall i | 0 <= i < |before|
          ensures FullyApplied(pending, before[i])
        {
          assert FullyApplied(pending, orders[i]);
        }
        assert FullyApplied(pending, orders[|orders| - 1]);
      } else {
        var i :| 0 <= i < |orders| && !FullyApplied(pending, orders[i]);
        if i < |before| { assert !FullyApplied(pending, before[i]); }
      }
    }
  }

  /**
   * Seeded from an exchange holding exactly the local base balance, the two base balances agree exactly when
   * everything executed has been applied; otherwise the local one is larger by what is missing.
   */
  lemma BaseAgreesExactlyWhenApplied(su: Setup, w0: World, moves: seq<Move>, w: World)
    requires Reachable(su, w0, moves, w) && StartGap(su, w0).base == 0.0
    ensures su.symbol in w.db.portfolios
    ensures var p := w.db.portfolios[su.symbol];
            && p.base - w.ex.base == TotalGap(w.db.pending, w.ex.orders).base >= 0.0
            && (p.base == w.ex.base <==> forall i | 0 <= i < |w.ex.orders| ::
                FullyApplied(w.db.pending, w.ex.orders[i]))
  {
    ReachableIsSound(su, w0, moves, w);
    hide Inv, TotalGap;
    BalanceOf(su, StartGap(su, w0), w);
    AppliedNeverExceedsExecuted(su, w0, moves, w);
    NothingOwedWhenApplied(w.db.pending, w.ex.orders);
  }

  lemma BalanceOf(su: Setup, start: Gap, w: World)
    requires Inv(su, start, w)
    ensures su.symbol in w.db.portfolios && Balanced(su, start, w)
  {
  }

  /** With no order unresolved, the base balances agree. */
  lemma BaseAgreesWhenAllResolved(su: Setup, w0: World, moves: seq<Move>, w: World)
    requires Reachable(su, w0, moves, w) && StartGap(su, w0).base == 0.0
    requires forall id | id in w.db.pending :: w.db.pending[id].status == Resolved
    ensures su.symbol in w.db.portfolios && w.db.portfolios[su.symbol].base == w.ex.base
  {
    ReachableIsSound(su, w0, moves, w);
    hide Accounts, TotalGap, NoOrder, NoRequest;
    BaseAgreesExactlyWhenApplied(su, w0, moves, w);
  }

  function FeeDifference(pending: map<string, PendingOrder>, orders: seq<ExchangeOrder>): real {
    if orders == [] then 0.0
    else FeeDifference(pending, DropLast(orders))
         + (Last(orders).commission - AppliedTo(pending, Last(orders).id).commissionQuote)
  }

  lemma {:induction false} AppliedQuoteGapIsFees(pending: map<string, PendingOrder>, orders: seq<ExchangeOrder>)
    requires forall i | 0 <= i < |orders| :: AppliedTo(pending, orders[i].id).cumQuote == orders[i].cumQuote
    ensures TotalGap(pending, orders).quote == FeeDifference(pending, orders)
    decreases |orders|
  {
    if orders != [] {
      AppliedQuoteGapIsFees(pending, DropLast(orders));
      assert AppliedTo(pending, Last(orders).id).cumQuote == Last(orders).cumQuote;
    }
  }

  /**
   * With no order unresolved, the quote balances differ from how they started only by the fees charged
   * minus the fees booked, which a reconciliation query can only estimate.
   */
  lemma QuoteDiffersByFeeEstimates(su: Setup, w0: World, moves: seq<Move>, w: World)
    requires Reachable(su, w0, moves, w)
    requires forall id | id in w.db.pending :: w.db.pending[id].status == Resolved
    ensures su.symbol in w.db.portfolios
    ensures w.db.portfolios[su.symbol].quote - w.ex.quote
         == StartGap(su, w0).quote + FeeDifference(w.db.pending, w.ex.orders)
  {
    ReachableIsSound(su, w0, moves, w);
    hide Accounts, TotalGap, FeeDifference, NoOrder, NoRequest;
    BalanceOf(su, StartGap(su, w0), w);
    AppliedQuoteGapIsFees(w.db.pending, w.ex.orders);
  }

  /** Nothing is left for the exchange to do. */
  ghost predicate Still(ex: Exchange) {
    forall m :: !ExchangeAllows(ex, m)
  }

  predicate AllResolved(pending: map<string, PendingOrder>) {
    forall id | id in pending :: pending[id].status == Resolved
  }

  lemma InFlightIsOpen(pending: map<string, PendingOrder>, ex: Exchange)
    requires RequestsLinked(pending, ex)
    ensures ex.inFlight != [] ==> exists id :: id in pending && pending[id].status == Submitted
  {
    if ex.inFlight != [] { assert ex.inFlight[0].id in pending; }
  }

  /** With no row unresolved, no request is on its way and every order is closed. */
  lemma SettledIsStill(su: Setup, w0: World, moves: seq<Move>, w: World)
    requires Reachable(su, w0, moves, w) && AllResolved(w.db.pending)
    ensures Still(w.ex)
  {
    ReachableIsSound(su, w0, moves, w);
    hide Accounts, NoOrder, NoRequest;
    InFlightIsOpen(w.db.pending, w.ex);
    forall m ensures !ExchangeAllows(w.ex, m) {
      forall i | 0 <= i < |w.ex.orders| ensures Terminal(w.ex.orders[i].status) {
        assert Linked(w.db.pending[w.ex.orders[i].id], w.ex.orders[i]);
      }
    }
  }

  lemma Then(su: Setup, w0: World, moves: seq<Move>, w: World, m: Move) returns (more: seq<Move>, next: World)
    requires After(su, w0, moves) == Some(w) && Allows(su, w, m)
    ensures more == moves + [m] && next == Next(su, w, m) && After(su, w0, more) == Some(next)
  {
    more, next := moves + [m], Next(su, w, m);
    assert DropLast(more) == moves;
  }

  /** The first sale of an account, up to the request being on its way. */
  lemma FirstSale(su: Setup, w0: World, row: PendingOrder) returns (moves: seq<Move>, w: World)
    requires Initial(su, w0) && NewSellRow(su, w0, row)
    ensures After(su, w0, moves) == Some(w) && w.db == w0.db.(pending := map[row.id := row])
    ensures w.ex == w0.ex.(inFlight := [Request(row.id, row.requested)]) && w.phase == Sent(row.id, false)
  {
    hide After;
    assert After(su, w0, []) == Some(w0) by { NoMoves(su, w0); }
    assert w0.db.pending[row.id := row] == map[row.id := row];
    assert ListsOpenRows(w0.db, su.symbol, []);
    moves, w := Then(su, w0, [], w0, Start([]));
    moves, w := Then(su, w0, moves, w, Proceed);
    moves, w := Then(su, w0, moves, w, Create(row));
    moves, w := Then(su, w0, moves, w, Send);
  }

  lemma NoMoves(su: Setup, w0: World)
    ensures After(su, w0, []) == Some(w0)
  {
  }

  /** The converse fails: while its first sale is on its way, a matching account still agrees with an open row. */
  lemma OpenRowCanAgree(su: Setup, w0: World, row: PendingOrder) returns (moves: seq<Move>, w: World)
    requires Initial(su, w0) && NewSellRow(su, w0, row) && StartGap(su, w0).base == 0.0
    ensures Reachable(su, w0, moves, w) && Open(w.db.pending, row.id) && !AllResolved(w.db.pending)
    ensures su.symbol in w.db.portfolios && w.db.portfolios[su.symbol].base == w.ex.base
  {
    hide After;
    moves, w := FirstSale(su, w0, row);
  }

  /** It is filled at once, its acknowledgement is lost, and a query about it is answered. */
  lemma LostAcknowledgement(su: Setup, w0: World, row: PendingOrder, quote: real, commission: real)
    returns (moves: seq<Move>, w: World)
    requires Initial(su, w0) && NewSellRow(su, w0, row) && quote > 0.0
    ensures Reachable(su, w0, moves, w) && w.db == w0.db.(pending := map[row.id := row])
    ensures w.ex.orders == [ExchangeOrder(row.id, row.requested, row.requested, quote, commission, OrderStatus.Filled)]
    ensures w.phase == Answered(ReportOf(w.ex.orders[0], []))
  {
    hide After;
    moves, w := FirstSale(su, w0, row);
    moves, w := Then(su, w0, moves, w, Elsewhere(Land(0)));
    moves, w := Then(su, w0, moves, w, Elsewhere(Execute(0, row.requested, quote, commission)));
    moves, w := Then(su, w0, moves, w, LoseAnswer);
    moves, w := Then(su, w0, moves, w, QueryFound(0));
  }

  /** Booking that answer resolves the row, and leaves the fee that was charged beyond its estimate between the two. */
  lemma EstimatedFeeRemains(su: Setup, w0: World, row: PendingOrder, quote: real, commission: real, now: int)
    returns (moves: seq<Move>, w: World)
    requires Initial(su, w0) && NewSellRow(su, w0, row) && quote > 0.0
    ensures Reachable(su, w0, moves, w) && w.phase == Idle && AllResolved(w.db.pending)
    ensures FeeDifference(w.db.pending, w.ex.orders) == commission - EstimateFee(quote, su.market.feePct)
  {
    hide Reachable, ApplyFillDelta;
    moves, w := LostAcknowledgement(su, w0, row, quote, commission);
    HeldAnswerNeverRaises(su, w0, moves, w);
    var o := w.ex.orders[0];
    ReachedThen(su, w0, moves, w, ApplyAnswer(now));
    moves, w := moves + [ApplyAnswer(now)], Next(su, w, ApplyAnswer(now));
    assert w.ex.orders == [o] && DropLast([o]) == [];
  }

  lemma ReachedThen(su: Setup, w0: World, moves: seq<Move>, w: World, m: Move)
    requires Reachable(su, w0, moves, w) && Allows(su, w, m)
    ensures Reachable(su, w0, moves + [m], Next(su, w, m))
  {
    var more, next := Then(su, w0, moves, w, m);
  }
}
