// The portfolio and its pure transitions (portfolio/state.py). A transition that the source
// refuses by raising is an Err here; the caller's state is then the one it had before.

module Portfolio {
  import opened Common

  datatype PortfolioState = PortfolioState(quote: real, base: real, side: PositionSide, avgEntry: Option<real>,
                                           realizedPnl: real, openFee: real, estimated: bool)

  datatype TransitionError = InvalidTransition | UnsupportedCommission | DivisionByZero

  type Outcome = Result<PortfolioState, TransitionError>

  function Initial(quote: real): PortfolioState {
    PortfolioState(quote, 0.0, Flat, None, 0.0, 0.0, false)
  }

  function Equity(s: PortfolioState, price: real): real {
    s.quote + s.base * price
  }

  function ApplyBuy(s: PortfolioState, quantity: real, price: real, fee: real, estimated: bool): Outcome {
    if s.side == Long then Err(InvalidTransition) else
    var cost := Amount(quantity, price) + fee;
    if cost > s.quote then Err(InvalidTransition) else
    Ok(s.(quote := s.quote - cost, base := s.base + quantity, side := Long, avgEntry := Some(price),
          openFee := fee, estimated := estimated))
  }

  function Average(cost: real, base: real): real
    requires base != 0.0
  {
    cost / base
  }

  lemma AverageRestores(cost: real, base: real)
    requires base != 0.0
    ensures Amount(base, Average(cost, base)) == cost
  {
  }

  function ApplyPartialFillIncrease(s: PortfolioState, quantity: real, price: real, fee: real,
                                    estimated: bool): Outcome {
    if s.side != Long || s.avgEntry.None? then Err(InvalidTransition) else
    var cost := Amount(quantity, price) + fee;
    if cost > s.quote then Err(InvalidTransition) else
    var total := s.base + quantity;
    if total == 0.0 then Err(DivisionByZero) else
    Ok(s.(quote := s.quote - cost, base := total,
          avgEntry := Some(Average(Amount(s.base, s.avgEntry.value) + Amount(quantity, price), total)),
          openFee := s.openFee + fee, estimated := s.estimated || estimated))
  }

  function FeeShare(fee: real, part: real, whole: real): real
    requires whole != 0.0
  {
    fee * (part / whole)
  }

  /** The share of the open entry fee that a sale of `quantity` settles. */
  function EntryFeeShare(s: PortfolioState, quantity: real): real {
    if s.base > 0.0 then FeeShare(s.openFee, quantity, s.base) else 0.0
  }

  function ApplySell(s: PortfolioState, quantity: real, price: real, fee: real, estimated: bool): Outcome {
    if s.side != Long || s.avgEntry.None? then Err(InvalidTransition) else
    if quantity > s.base then Err(InvalidTransition) else
    var proceeds := Amount(quantity, price) - fee;
    var share := EntryFeeShare(s, quantity);
    var pnl := Amount(quantity, price - s.avgEntry.value) - fee - share;
    var rest := s.base - quantity;
    Ok(PortfolioState(
         s.quote + proceeds, rest,
         if rest > 0.0 then Long else Flat,
         if rest > 0.0 then s.avgEntry else None,
         s.realizedPnl + pnl,
         if rest > 0.0 then s.openFee - share else 0.0,
         if rest > 0.0 then s.estimated || estimated else false))
  }

  datatype OrderSide = BuyOrder | SellOrder

  /** One newly executed slice of an order, gross of commission. */
  datatype FillDelta = FillDelta(base: real, quote: real, commissionQuote: real, commissionBase: real, estimated: bool)

  function ApplyFillDelta(s: PortfolioState, side: OrderSide, d: FillDelta): Outcome {
    match side
    case BuyOrder =>
      var net := d.base - d.commissionBase;
      if net <= 0.0 then Err(InvalidTransition) else
      if s.side == Long then ApplyPartialFillIncrease(s, net, Average(d.quote, net), d.commissionQuote, d.estimated)
      else ApplyBuy(s, net, Average(d.quote, net), d.commissionQuote, d.estimated)
    case SellOrder =>
      if d.commissionBase != 0.0 then Err(UnsupportedCommission)
      else if d.base <= 0.0 then Err(InvalidTransition)
      else ApplySell(s, d.base, Average(d.quote, d.base), d.commissionQuote, d.estimated)
  }

  // ----- The ledger -----------------------------------------------------------------------

  /** What every reachable portfolio satisfies: long exactly when some base asset is held. */
  predicate Valid(s: PortfolioState) {
    match s.side
    case Long => s.base > 0.0 && s.avgEntry.Some?
    case Flat => s.base == 0.0 && s.avgEntry.None? && s.openFee == 0.0
  }

  /** What was paid for the open position. */
  function CostBasis(s: PortfolioState): real {
    Amount(s.base, s.avgEntry.GetOr(0.0))
  }

  /** Cash, plus the position at cost, plus the fee carried with it, minus profit already booked. */
  function Ledger(s: PortfolioState): real {
    s.quote + CostBasis(s) + s.openFee - s.realizedPnl
  }

  lemma BuyKeepsLedger(s: PortfolioState, quantity: real, price: real, fee: real, estimated: bool)
    requires Valid(s) && quantity > 0.0
    ensures var r := ApplyBuy(s, quantity, price, fee, estimated);
            r.Ok? ==> Valid(r.value) && Ledger(r.value) == Ledger(s)
  {
  }

  lemma IncreaseKeepsLedger(s: PortfolioState, quantity: real, price: real, fee: real, estimated: bool)
    requires Valid(s) && quantity > 0.0
    ensures var r := ApplyPartialFillIncrease(s, quantity, price, fee, estimated);
            r.Ok? ==> Valid(r.value) && Ledger(r.value) == Ledger(s)
  {
  }

  lemma SellKeepsLedger(s: PortfolioState, quantity: real, price: real, fee: real, estimated: bool)
    requires Valid(s) && quantity > 0.0
    ensures var r := ApplySell(s, quantity, price, fee, estimated);
            r.Ok? ==> Valid(r.value) && Ledger(r.value) == Ledger(s)
  {
  }

  datatype Transition = Bought(quantity: real, price: real, fee: real, estimated: bool)
                      | Increased(quantity: real, price: real, fee: real, estimated: bool)
                      | Sold(quantity: real, price: real, fee: real, estimated: bool)
                      | Filled(orderSide: OrderSide, delta: FillDelta)

  /** Direct transitions are called with positive quantities; a fill delta checks its own. */
  predicate PositiveQuantity(t: Transition) {
    t.Filled? || t.quantity > 0.0
  }

  function Attempt(s: PortfolioState, t: Transition): Outcome {
    match t
    case Bought(q, p, fee, e) => ApplyBuy(s, q, p, fee, e)
    case Increased(q, p, fee, e) => ApplyPartialFillIncrease(s, q, p, fee, e)
    case Sold(q, p, fee, e) => ApplySell(s, q, p, fee, e)
    case Filled(side, d) => ApplyFillDelta(s, side, d)
  }

  /** A history of attempts, each either applied or refused without effect. */
  function History(s: PortfolioState, ts: seq<Transition>): PortfolioState
    decreases |ts|
  {
    if ts == [] then s else
    var r := Attempt(s, ts[0]);
    History(if r.Ok? then r.value else s, ts[1..])
  }

  lemma AttemptKeepsLedger(s: PortfolioState, t: Transition)
    requires Valid(s) && PositiveQuantity(t)
    ensures var r := Attempt(s, t); r.Ok? ==> Valid(r.value) && Ledger(r.value) == Ledger(s)
  {
    match t
    case Bought(q, p, fee, e) => BuyKeepsLedger(s, q, p, fee, e);
    case Increased(q, p, fee, e) => IncreaseKeepsLedger(s, q, p, fee, e);
    case Sold(q, p, fee, e) => SellKeepsLedger(s, q, p, fee, e);
    case Filled(BuyOrder, d) =>
      var net := d.base - d.commissionBase;
      if net > 0.0 {
        BuyKeepsLedger(s, net, Average(d.quote, net), d.commissionQuote, d.estimated);
        IncreaseKeepsLedger(s, net, Average(d.quote, net), d.commissionQuote, d.estimated);
      }
    case Filled(SellOrder, d) =>
      if d.base > 0.0 {
        SellKeepsLedger(s, d.base, Average(d.quote, d.base), d.commissionQuote, d.estimated);
      }
  }

  lemma {:induction false} HistoryKeepsLedger(s: PortfolioState, ts: seq<Transition>)
    requires Valid(s) && forall t :: t in ts ==> PositiveQuantity(t)
    ensures Valid(History(s, ts)) && Ledger(History(s, ts)) == Ledger(s)
    decreases |ts|
  {
    if ts != [] {
      AttemptKeepsLedger(s, ts[0]);
      var r := Attempt(s, ts[0]);
      HistoryKeepsLedger(if r.Ok? then r.value else s, ts[1..]);
    }
  }

  /**
   * Conservation: from a fresh account, cash plus cost basis minus booked profit is the starting
   * balance after any history, so a flat account holds its start plus its booked profit.
   */
  lemma LedgerConserved(start: real, ts: seq<Transition>)
    requires forall t :: t in ts ==> PositiveQuantity(t)
    ensures Ledger(History(Initial(start), ts)) == start
    ensures var s := History(Initial(start), ts); s.side == Flat ==> s.quote == start + s.realizedPnl
  {
    HistoryKeepsLedger(Initial(start), ts);
  }

  /** The positive quantity matters: buying and selling nothing for a fee loses that fee from the ledger. */
  lemma ZeroQuantityLeaksFee(start: real, fee: real)
    requires 0.0 < fee <= start
    ensures Ledger(History(Initial(start), [Bought(0.0, 1.0, fee, false), Sold(0.0, 1.0, 0.0, false)])) == start - fee
  {
    var b, t := Bought(0.0, 1.0, fee, false), Sold(0.0, 1.0, 0.0, false);
    assert [b, t][1..] == [t];
    var s := Attempt(Initial(start), b).value;
    assert History(Initial(start), [b, t]) == History(s, [t]);
    assert [t][1..] == [];
    assert History(s, [t]) == Attempt(s, t).value;
  }
}
