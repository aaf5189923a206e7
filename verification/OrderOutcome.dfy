// What is new in an order report since the last one applied (execution/order_outcome.py), with the
// commission buckets of execution/fees.py.

module OrderOutcome {
  import opened Common
  import opened Portfolio

  datatype OrderStatus = New | PartiallyFilled | Filled | Canceled | Rejected | Expired | NeverSubmitted
                       | Unrecognized(code: string)

  predicate Terminal(s: OrderStatus) {
    s.Filled? || s.Canceled? || s.Rejected? || s.Expired? || s.NeverSubmitted?
  }

  datatype Fill = Fill(commission: real, asset: string)

  /** The exchange's cumulative view of one order; fills come only with a direct placement response. */
  datatype OrderReport = OrderReport(id: string, status: OrderStatus, executed: real, cumQuote: real, fills: seq<Fill>)

  // ----- Commission ---------------------------------------------------------------------------------

  datatype Commission = Commission(quote: real, base: real, other: map<string, real>, estimated: bool)

  function CommissionIn(fills: seq<Fill>, asset: string): real {
    if fills == [] then 0.0
    else CommissionIn(DropLast(fills), asset) + if Last(fills).asset == asset then Last(fills).commission else 0.0
  }

  function EstimateFee(notional: real, feePct: real): real {
    notional * feePct
  }

  function OtherAssets(fills: seq<Fill>, quoteAsset: string, baseAsset: string): set<string> {
    set f | f in fills && f.asset != quoteAsset && f.asset != baseAsset :: f.asset
  }

  function OtherCommissions(fills: seq<Fill>, quoteAsset: string, baseAsset: string): map<string, real> {
    map a | a in OtherAssets(fills, quoteAsset, baseAsset) :: CommissionIn(fills, a)
  }

  /** Each asset's commission is the sum over its own fills; without fills the fee is an estimate. */
  function CommissionBuckets(fills: seq<Fill>, quoteAsset: string, baseAsset: string, notional: real,
                             feePct: real): Commission {
    if fills == [] then Commission(EstimateFee(notional, feePct), 0.0, map[], true)
    else Commission(CommissionIn(fills, quoteAsset),
                    if baseAsset == quoteAsset then 0.0 else CommissionIn(fills, baseAsset),
                    OtherCommissions(fills, quoteAsset, baseAsset), false)
  }

  method ComputeCommissionBuckets(fills: seq<Fill>, quoteAsset: string, baseAsset: string, notional: real, feePct: real)
    returns (c: Commission)
    ensures c == CommissionBuckets(fills, quoteAsset, baseAsset, notional, feePct)
  {
    if fills == [] {
      return Commission(EstimateFee(notional, feePct), 0.0, map[], true);
    }
    hide CommissionIn, OtherCommissions;
    var quote, base := 0.0, 0.0;
    var other: map<string, real> := map[];
    NothingCharged(quoteAsset, baseAsset);
    for i := 0 to |fills|
      invariant quote == CommissionIn(fills[..i], quoteAsset)
      invariant base == if baseAsset == quoteAsset then 0.0 else CommissionIn(fills[..i], baseAsset)
      invariant other == OtherCommissions(fills[..i], quoteAsset, baseAsset)
    {
      var f := fills[i];
      assert fills[..i + 1] == fills[..i] + [f];
      CommissionStep(fills[..i], f, quoteAsset);
      CommissionStep(fills[..i], f, baseAsset);
      OtherCommissionsStep(fills[..i], f, quoteAsset, baseAsset);
      if f.asset == quoteAsset {
        quote := quote + f.commission;
      } else if f.asset == baseAsset {
        base := base + f.commission;
      } else {
        other := other[f.asset := (if f.asset in other then other[f.asset] else 0.0) + f.commission];
      }
    }
    assert fills[..|fills|] == fills;
    c := Commission(quote, base, other, false);
  }

  lemma NothingCharged(quoteAsset: string, baseAsset: string)
    ensures CommissionIn([], quoteAsset) == CommissionIn([], baseAsset) == 0.0
    ensures OtherCommissions([], quoteAsset, baseAsset) == map[]
  {
  }

  lemma CommissionStep(fills: seq<Fill>, f: Fill, asset: string)
    ensures CommissionIn(fills + [f], asset)
         == CommissionIn(fills, asset) + if f.asset == asset then f.commission else 0.0
  {
  }

  /** Every fill's commission is counted once, under its own asset. */
  lemma {:induction false} CommissionsAdd(a: seq<Fill>, b: seq<Fill>, asset: string)
    ensures CommissionIn(a + b, asset) == CommissionIn(a, asset) + CommissionIn(b, asset)
    ensures forall f: Fill :: CommissionIn([f], asset) == if f.asset == asset then f.commission else 0.0
    decreases |b|
  {
    forall f: Fill ensures CommissionIn([f], asset) == if f.asset == asset then f.commission else 0.0 {
      assert DropLast([f]) == [];
    }
    if b == [] {
      assert a + b == a;
    } else {
      CommissionsAdd(a, DropLast(b), asset);
      assert DropLast(a + b) == a + DropLast(b);
    }
  }

  lemma UnseenIsZero(fills: seq<Fill>, f: Fill, quoteAsset: string, baseAsset: string)
    requires f.asset !in {quoteAsset, baseAsset} && f.asset !in OtherAssets(fills, quoteAsset, baseAsset)
    ensures CommissionIn(fills, f.asset) == 0.0
  {
    UnseenAssetIsZero(fills, f.asset);
  }

  lemma OtherCommissionsStep(fills: seq<Fill>, f: Fill, quoteAsset: string, baseAsset: string)
    ensures var before := OtherCommissions(fills, quoteAsset, baseAsset);
            OtherCommissions(fills + [f], quoteAsset, baseAsset)
              == if f.asset == quoteAsset || f.asset == baseAsset then before
                 else before[f.asset := (if f.asset in before then before[f.asset] else 0.0) + f.commission]
  {
    var isOther := f.asset != quoteAsset && f.asset != baseAsset;
    var added: set<string> := if isOther then {f.asset} else {};
    assert OtherAssets(fills + [f], quoteAsset, baseAsset) == OtherAssets(fills, quoteAsset, baseAsset) + added;
    hide CommissionIn, OtherAssets;
    forall a
      ensures CommissionIn(fills + [f], a) == CommissionIn(fills, a) + if f.asset == a then f.commission else 0.0
    {
      CommissionStep(fills, f, a);
    }
    if isOther && f.asset !in OtherAssets(fills, quoteAsset, baseAsset) {
      UnseenIsZero(fills, f, quoteAsset, baseAsset);
    }
  }

  lemma {:induction false} UnseenAssetIsZero(fills: seq<Fill>, asset: string)
    requires forall f | f in fills :: f.asset != asset
    ensures CommissionIn(fills, asset) == 0.0
  {
    if fills != [] {
      assert Last(fills) in fills;
      UnseenAssetIsZero(DropLast(fills), asset);
    }
  }

  // ----- Applying a report ----------------------------------------------------------------------------

  /** The cumulative figures of an order that the portfolio already reflects. */
  datatype Applied = Applied(executed: real, cumQuote: real, commissionQuote: real, commissionBase: real,
                             commissionOther: map<string, real>)

  const NOTHING_APPLIED := Applied(0.0, 0.0, 0.0, 0.0, map[])

  datatype ApplyError = InconsistentReport | Refused(transition: TransitionError)

  datatype Application = Application(portfolio: PortfolioState, terminal: bool, applied: Applied,
                                     pnlDelta: Option<real>)

  datatype Market = Market(quoteAsset: string, baseAsset: string, feePct: real)

  function MergeOther(a: map<string, real>, b: map<string, real>): map<string, real> {
    map k | k in a.Keys + b.Keys :: (if k in a then a[k] else 0.0) + (if k in b then b[k] else 0.0)
  }

  predicate Consistent(r: OrderReport, a: Applied) {
    r.executed >= a.executed && r.cumQuote >= a.cumQuote && (r.executed == 0.0 <==> r.cumQuote == 0.0)
  }

  function DeltaOf(r: OrderReport, a: Applied, m: Market): FillDelta {
    var quote := r.cumQuote - a.cumQuote;
    var c := CommissionBuckets(r.fills, m.quoteAsset, m.baseAsset, quote, m.feePct);
    FillDelta(r.executed - a.executed, quote, c.quote, c.base, c.estimated)
  }

  function ComputeApplication(r: OrderReport, side: OrderSide, m: Market, p: PortfolioState, a: Applied)
    : Result<Application, ApplyError>
  {
    if !Consistent(r, a) then Err(InconsistentReport)
    else if r.status == New then Ok(Application(p, false, a, None))
    else if r.executed <= a.executed then Ok(Application(p, Terminal(r.status), a, None))
    else
      var d := DeltaOf(r, a, m);
      match ApplyFillDelta(p, side, d)
      case Err(error) => Err(Refused(error))
      case Ok(p') =>
        var other := CommissionBuckets(r.fills, m.quoteAsset, m.baseAsset, d.quote, m.feePct).other;
        Ok(Application(p', Terminal(r.status),
                       Applied(r.executed, r.cumQuote, a.commissionQuote + d.commissionQuote,
                               a.commissionBase + d.commissionBase, MergeOther(a.commissionOther, other)),
                       if side == SellOrder then Some(p'.realizedPnl - p.realizedPnl) else None))
  }

  /** Applying the same report again changes neither the portfolio nor what has been applied. */
  lemma RepeatedReportChangesNothing(r: OrderReport, side: OrderSide, m: Market, p: PortfolioState, a: Applied)
    ensures var once := ComputeApplication(r, side, m, p, a);
            once.Ok? ==>
              var twice := ComputeApplication(r, side, m, once.value.portfolio, once.value.applied);
              && twice.Ok? && twice.value.portfolio == once.value.portfolio && twice.value.applied == once.value.applied
              && twice.value.terminal == once.value.terminal
  {
  }

  // ----- Path independence ------------------------------------------------------------------------------

  /** What a bought slice adds to the holding, and what it costs. */
  function NetBase(d: FillDelta): real { d.base - d.commissionBase }

  function CostOf(d: FillDelta): real { d.quote + d.commissionQuote }

  /** Two slices of one order, taken together. */
  function Both(d1: FillDelta, d2: FillDelta): FillDelta {
    FillDelta(d1.base + d2.base, d1.quote + d2.quote, d1.commissionQuote + d2.commissionQuote,
              d1.commissionBase + d2.commissionBase, d1.estimated || d2.estimated)
  }

  /** A bought slice: only its totals matter. */
  lemma BoughtSlice(s: PortfolioState, d: FillDelta)
    requires Portfolio.Valid(s)
    ensures var r := ApplyFillDelta(s, BuyOrder, d);
            && (r.Ok? <==> NetBase(d) > 0.0 && CostOf(d) <= s.quote)
            && (r.Err? ==> r.error == InvalidTransition)
            && (r.Ok? ==> r.value == PortfolioState(
                            s.quote - CostOf(d), s.base + NetBase(d), Long,
                            Some(Average(CostBasis(s) + d.quote, s.base + NetBase(d))), s.realizedPnl,
                            s.openFee + d.commissionQuote,
                            if s.side == Long then s.estimated || d.estimated else d.estimated))
  {
    if NetBase(d) > 0.0 { AverageRestores(d.quote, NetBase(d)); }
  }

  /**
   * Two slices that are both booked leave what their sum leaves; a second slice that brings something is refused
   * exactly when the sum is; and if the sum is booked, so is a first slice that leaves something to pay.
   */
  lemma TwoBoughtSlices(s: PortfolioState, d1: FillDelta, d2: FillDelta)
    requires Portfolio.Valid(s)
    ensures var first, whole := ApplyFillDelta(s, BuyOrder, d1), ApplyFillDelta(s, BuyOrder, Both(d1, d2));
            && (first.Ok? ==>
                  var second := ApplyFillDelta(first.value, BuyOrder, d2);
                  (second.Ok? || NetBase(d2) > 0.0 ==> second == whole))
            && (whole.Ok? && NetBase(d1) > 0.0 && CostOf(d2) >= 0.0 ==> first.Ok?)
  {
    hide ApplyFillDelta, Amount, Average;
    BoughtSlice(s, d1);
    BoughtSlice(s, Both(d1, d2));
    var first := ApplyFillDelta(s, BuyOrder, d1);
    if first.Ok? {
      AverageRestores(CostBasis(s) + d1.quote, s.base + NetBase(d1));
      BoughtSlice(first.value, d2);
    }
  }

  lemma FeeShareAdds(fee: real, a: real, b: real, whole: real)
    requires whole != 0.0
    ensures FeeShare(fee, a + b, whole) == FeeShare(fee, a, whole) + FeeShare(fee, b, whole)
  {
  }

  /** The share of what is left after a first sale is the share of the original position. */
  lemma FeeShareOfRest(fee: real, a: real, b: real, whole: real)
    requires whole != 0.0 && a != whole
    ensures FeeShare(fee - FeeShare(fee, a, whole), b, whole - a) == FeeShare(fee, b, whole)
  {
  }

  /** A sold slice, in totals. A commission in the base asset is refused. */
  lemma SoldSlice(s: PortfolioState, d: FillDelta)
    requires Portfolio.Valid(s)
    ensures var r := ApplyFillDelta(s, SellOrder, d);
            && (r.Ok? <==> d.commissionBase == 0.0 && d.base > 0.0 && s.side == Long && d.base <= s.base)
            && (r.Err? && d.commissionBase == 0.0 ==> r.error == InvalidTransition)
            && (r.Ok? ==>
                  var rest := s.base - d.base;
                  var share := FeeShare(s.openFee, d.base, s.base);
                  r.value == PortfolioState(
                    s.quote + (d.quote - d.commissionQuote), rest, if rest > 0.0 then Long else Flat,
                    if rest > 0.0 then s.avgEntry else None,
                    s.realizedPnl + (d.quote - Amount(d.base, s.avgEntry.value) - d.commissionQuote - share),
                    if rest > 0.0 then s.openFee - share else 0.0,
                    rest > 0.0 && (s.estimated || d.estimated)))
  {
    if d.base > 0.0 { AverageRestores(d.quote, d.base); }
  }

  /**
   * Two slices that are both booked leave what their sum leaves; a proper second slice is refused exactly when
   * the sum is; and if the sum is booked, so is a proper first slice.
   */
  lemma TwoSoldSlices(s: PortfolioState, d1: FillDelta, d2: FillDelta)
    requires Portfolio.Valid(s)
    ensures var first, whole := ApplyFillDelta(s, SellOrder, d1), ApplyFillDelta(s, SellOrder, Both(d1, d2));
            && (first.Ok? ==>
                  var second := ApplyFillDelta(first.value, SellOrder, d2);
                  (second.Ok? || (d2.base > 0.0 && d2.commissionBase == 0.0) ==> second == whole))
            && (whole.Ok? && d1.base > 0.0 && d1.commissionBase == 0.0 && d2.base >= 0.0 ==> first.Ok?)
  {
    hide ApplyFillDelta, FeeShare;
    SoldSlice(s, d1);
    SoldSlice(s, Both(d1, d2));
    var first := ApplyFillDelta(s, SellOrder, d1);
    if first.Ok? {
      SoldSlice(first.value, d2);
      if d1.base < s.base {
        var avg := s.avgEntry.value;
        FeeShareAdds(s.openFee, d1.base, d2.base, s.base);
        FeeShareOfRest(s.openFee, d1.base, d2.base, s.base);
        assert Amount(d1.base + d2.base, avg) == Amount(d1.base, avg) + Amount(d2.base, avg);
      }
    }
  }

  // ----- What one report books ------------------------------------------------------------------------------

  /** No further report can change the order. */
  predicate Over(s: OrderStatus) {
    s in {OrderStatus.Filled, Canceled, Rejected, Expired, NeverSubmitted}
  }

  function Paid(other: map<string, real>, asset: string): real {
    if asset in other then other[asset] else 0.0
  }

  /** The commission a report adds in one asset: what its fills say, or an estimate in the quote asset. */
  function Charged(r: OrderReport, a: Applied, m: Market, asset: string): real {
    if r.fills != [] then CommissionIn(r.fills, asset)
    else if asset == m.quoteAsset then (r.cumQuote - a.cumQuote) * m.feePct else 0.0
  }

  /** What a report that brings something new leaves of the account and of the figures applied so far. */
  predicate Booked(r: OrderReport, side: OrderSide, m: Market, p: PortfolioState, a: Applied, x: Application)
    requires r.executed > a.executed
  {
    var base, quote := r.executed - a.executed, r.cumQuote - a.cumQuote;
    var feeQuote := Charged(r, a, m, m.quoteAsset);
    var feeBase := if m.baseAsset == m.quoteAsset then 0.0 else Charged(r, a, m, m.baseAsset);
    && x.terminal == Over(r.status) && x.applied.executed == r.executed && x.applied.cumQuote == r.cumQuote
    && x.applied.commissionQuote == a.commissionQuote + feeQuote
    && x.applied.commissionBase == a.commissionBase + feeBase
    && (if side == BuyOrder then
          && x.pnlDelta == None && x.portfolio.side == Long && x.portfolio.realizedPnl == p.realizedPnl
          && x.portfolio.base == p.base + base - feeBase && x.portfolio.quote == p.quote - quote - feeQuote
        else
          && feeBase == 0.0 && x.pnlDelta == Some(x.portfolio.realizedPnl - p.realizedPnl)
          && x.portfolio.base == p.base - base && x.portfolio.quote == p.quote + quote - feeQuote)
  }

  /**
   * What one report does, whatever its status: contradictory figures are refused, a NEW one and one that executed
   * nothing more leave everything as it was, and any other books exactly what is new in it, or is refused by the
   * account.
   */
  lemma ReportBooksWhatIsNew(r: OrderReport, side: OrderSide, m: Market, p: PortfolioState, a: Applied)
    requires Portfolio.Valid(p)
    ensures var x := ComputeApplication(r, side, m, p, a);
            var agrees := r.executed >= a.executed && r.cumQuote >= a.cumQuote
                          && (r.executed == 0.0 <==> r.cumQuote == 0.0);
            if !agrees then x == Err(InconsistentReport)
            else if r.status == New || r.executed <= a.executed then
              x == Ok(Application(p, r.status != New && Over(r.status), a, None))
            else x.Err? ==> x.error.Refused?
    ensures var x := ComputeApplication(r, side, m, p, a);
            x.Ok? && r.status != New && r.executed > a.executed ==>
              && Booked(r, side, m, p, a, x.value)
              && forall asset | asset !in {m.quoteAsset, m.baseAsset} ::
                   Paid(x.value.applied.commissionOther, asset)
                   == Paid(a.commissionOther, asset) + Charged(r, a, m, asset)
  {
    hide Booked, Paid, Charged, ApplyFillDelta, DeltaOf, CommissionBuckets;
    var x := ComputeApplication(r, side, m, p, a);
    if x.Ok? && r.status != New && r.executed > a.executed {
      NewsIsBooked(r, side, m, p, a);
      forall asset | asset !in {m.quoteAsset, m.baseAsset}
        ensures Paid(x.value.applied.commissionOther, asset)
             == Paid(a.commissionOther, asset) + Charged(r, a, m, asset)
      {
        NewsIsPaid(r, side, m, p, a, asset);
      }
    }
  }

  lemma NewsIsBooked(r: OrderReport, side: OrderSide, m: Market, p: PortfolioState, a: Applied)
    requires Portfolio.Valid(p) && r.status != New && r.executed > a.executed
    requires ComputeApplication(r, side, m, p, a).Ok?
    ensures Booked(r, side, m, p, a, ComputeApplication(r, side, m, p, a).value)
  {
    var d := DeltaOf(r, a, m);
    if side == BuyOrder { BoughtSlice(p, d); } else { SoldSlice(p, d); }
    hide ApplyFillDelta, FeeShare, Average, Amount, CommissionIn, OtherCommissions, MergeOther;
  }

  lemma NewsIsPaid(r: OrderReport, side: OrderSide, m: Market, p: PortfolioState, a: Applied, asset: string)
    requires r.status != New && r.executed > a.executed && ComputeApplication(r, side, m, p, a).Ok?
    requires asset !in {m.quoteAsset, m.baseAsset}
    ensures Paid(ComputeApplication(r, side, m, p, a).value.applied.commissionOther, asset)
         == Paid(a.commissionOther, asset) + Charged(r, a, m, asset)
  {
    hide ApplyFillDelta, CommissionIn;
    if asset !in OtherAssets(r.fills, m.quoteAsset, m.baseAsset) { UnseenAssetIsZero(r.fills, asset); }
  }

  // ----- Sequences of reports -----------------------------------------------------------------------------

  /** A report as a reconciliation query returns it: no fills, at or past what was applied. */
  predicate Follows(a: Applied, r: OrderReport) {
    && 0.0 <= a.executed && r.fills == [] && Consistent(r, a)
    && (r.executed == a.executed ==> r.cumQuote == a.cumQuote)
  }

  /** Cumulative figures never fall, and the quote total moves only with the executed quantity. */
  predicate Precedes(early: OrderReport, late: OrderReport) {
    && early.executed <= late.executed && early.cumQuote <= late.cumQuote
    && (early.executed == late.executed ==> early.cumQuote == late.cumQuote)
  }

  predicate Cumulative(reports: seq<OrderReport>, a: Applied) {
    && (forall r | r in reports :: Follows(a, r))
    && (forall i, j | 0 <= i < j < |reports| :: Precedes(reports[i], reports[j]))
  }

  datatype Progress = Progress(portfolio: PortfolioState, applied: Applied)

  function ApplyOne(r: OrderReport, side: OrderSide, m: Market, g: Progress): Result<Progress, ApplyError> {
    match ComputeApplication(r, side, m, g.portfolio, g.applied)
    case Err(error) => Err(error)
    case Ok(x) => Ok(Progress(x.portfolio, x.applied))
  }

  function ApplyAll(reports: seq<OrderReport>, side: OrderSide, m: Market, g: Progress): Result<Progress, ApplyError>
    decreases |reports|
  {
    if reports == [] then Ok(g) else
    match ApplyOne(reports[0], side, m, g)
    case Err(error) => Err(error)
    case Ok(next) => ApplyAll(reports[1..], side, m, next)
  }

  lemma EstimateAdds(a: real, b: real, pct: real)
    ensures EstimateFee(a + b, pct) == EstimateFee(a, pct) + EstimateFee(b, pct)
    ensures a >= 0.0 && pct >= 0.0 ==> EstimateFee(a, pct) >= 0.0
  {
  }

  /** One report may be skipped when a later one of the same order is applied. */
  lemma SkipOne(early: OrderReport, late: OrderReport, side: OrderSide, m: Market, g: Progress)
    requires Portfolio.Valid(g.portfolio) && m.feePct >= 0.0
    requires Follows(g.applied, early) && Follows(g.applied, late) && Precedes(early, late)
    requires late.status != New
    ensures var first, whole := ApplyOne(early, side, m, g), ApplyOne(late, side, m, g);
            && (whole.Ok? ==> first.Ok?)
            && (first.Ok? ==> ApplyOne(late, side, m, first.value) == whole)
  {
    if early.status == New {
      // A NEW report is ignored whatever it says.
    } else if g.applied.executed < early.executed < late.executed {
      SkipSlice(early, late, side, m, g);
    } else if g.applied.executed < early.executed {
      assert DeltaOf(early, g.applied, m) == DeltaOf(late, g.applied, m);
    }
  }

  /** After one report, the later ones still follow what has been applied. */
  lemma StillFollows(early: OrderReport, late: OrderReport, side: OrderSide, m: Market, g: Progress)
    requires Portfolio.Valid(g.portfolio)
    requires Follows(g.applied, early) && Follows(g.applied, late) && Precedes(early, late)
    ensures var first := ApplyOne(early, side, m, g);
            first.Ok? ==> Portfolio.Valid(first.value.portfolio) && Follows(first.value.applied, late)
  {
  }

  lemma SliceKeepsValid(s: PortfolioState, side: OrderSide, d: FillDelta)
    requires Portfolio.Valid(s) && d.base > 0.0 && d.commissionBase == 0.0
    ensures var r := ApplyFillDelta(s, side, d); r.Ok? ==> Portfolio.Valid(r.value)
  {
  }

  lemma SkipSlice(early: OrderReport, late: OrderReport, side: OrderSide, m: Market, g: Progress)
    requires Portfolio.Valid(g.portfolio) && m.feePct >= 0.0
    requires early.fills == late.fills == [] && Consistent(early, g.applied) && Consistent(late, g.applied)
    requires early.status != New && late.status != New
    requires g.applied.executed < early.executed < late.executed && early.cumQuote <= late.cumQuote
    ensures var first, whole := ApplyOne(early, side, m, g), ApplyOne(late, side, m, g);
            && (whole.Ok? ==> first.Ok?)
            && (first.Ok? ==> ApplyOne(late, side, m, first.value) == whole)
  {
    hide ApplyFillDelta, Amount, Average, FeeShare, CostBasis;
    var a := g.applied;
    var q1, q2 := early.cumQuote - a.cumQuote, late.cumQuote - early.cumQuote;
    EstimateAdds(q1, q2, m.feePct);
    EstimateAdds(q2, q1, m.feePct);
    var d1 := FillDelta(early.executed - a.executed, q1, EstimateFee(q1, m.feePct), 0.0, true);
    var d2 := FillDelta(late.executed - early.executed, q2, EstimateFee(q2, m.feePct), 0.0, true);
    var both := FillDelta(d1.base + d2.base, q1 + q2, d1.commissionQuote + d2.commissionQuote, 0.0, true);
    assert DeltaOf(early, a, m) == d1 && DeltaOf(late, a, m) == both;
    assert both.quote == late.cumQuote - a.cumQuote;
    if side == BuyOrder {
      BoughtSlice(g.portfolio, d1);
      BoughtSlice(g.portfolio, both);
      TwoBoughtSlices(g.portfolio, d1, d2);
    } else {
      SoldSlice(g.portfolio, d1);
      SoldSlice(g.portfolio, both);
      TwoSoldSlices(g.portfolio, d1, d2);
    }
    assert MergeOther(MergeOther(a.commissionOther, map[]), map[]) == MergeOther(a.commissionOther, map[]);
  }

  /** A report that is booked as nothing. */
  predicate Idle(a: Applied, r: OrderReport) {
    r.status == New || r.executed <= a.executed
  }

  /** The last report speaks for all: it is not ignored as NEW, unless there was nothing to say. */
  predicate LastCounts(reports: seq<OrderReport>, a: Applied)
    requires |reports| > 0
  {
    Last(reports).status == New ==> forall r | r in reports :: Idle(a, r)
  }

  predicate SameOutcome(x: Result<Progress, ApplyError>, y: Result<Progress, ApplyError>) {
    if x.Ok? then x == y else y.Err?
  }

  lemma {:induction false} LastBooksAll(reports: seq<OrderReport>, side: OrderSide, m: Market, g: Progress)
    requires |reports| > 0 && Portfolio.Valid(g.portfolio) && m.feePct >= 0.0 && Cumulative(reports, g.applied)
    requires Last(reports).status != New
    ensures SameOutcome(ApplyAll(reports, side, m, g), ApplyOne(Last(reports), side, m, g))
    decreases |reports|
  {
    var early, late := reports[0], Last(reports);
    var first := ApplyOne(early, side, m, g);
    if |reports| == 1 {
      assert reports[1..] == [];
      assert first.Ok? ==> ApplyAll(reports[1..], side, m, first.value) == first;
    } else {
      SkipOne(early, late, side, m, g);
      if first.Ok? {
        forall r | r in reports[1..] ensures Follows(first.value.applied, r) {
          var i :| 0 < i < |reports| && reports[i] == r;
          assert Precedes(early, reports[i]);
          StillFollows(early, r, side, m, g);
        }
        StillFollows(early, late, side, m, g);
        LastBooksAll(reports[1..], side, m, first.value);
      }
    }
  }

  lemma {:induction false} IdleReportsBookNothing(reports: seq<OrderReport>, side: OrderSide, m: Market, g: Progress)
    requires forall r | r in reports :: Consistent(r, g.applied) && Idle(g.applied, r)
    ensures ApplyAll(reports, side, m, g) == Ok(g)
    decreases |reports|
  {
    if reports != [] {
      assert reports[0] in reports;
      IdleReportsBookNothing(reports[1..], side, m, g);
    }
  }

  /** What is booked never falls, and covers every report that is not ignored. */
  lemma {:induction false} BookedCovers(reports: seq<OrderReport>, side: OrderSide, m: Market, g: Progress)
    requires ApplyAll(reports, side, m, g).Ok?
    ensures var booked := ApplyAll(reports, side, m, g).value.applied.executed;
            booked >= g.applied.executed && forall r | r in reports && r.status != New :: booked >= r.executed
    decreases |reports|
  {
    if reports != [] {
      BookedCovers(reports[1..], side, m, ApplyOne(reports[0], side, m, g).value);
      assert reports == [reports[0]] + reports[1..];
    }
  }

  /**
   * Path independence: applying every report of an order, in order, comes to the same as applying only the last
   * one, the same refusals included, exactly when the last is not a NEW report that hides what others booked.
   */
  lemma OnlyTheLastReportMatters(reports: seq<OrderReport>, side: OrderSide, m: Market, g: Progress)
    requires |reports| > 0 && Portfolio.Valid(g.portfolio) && m.feePct >= 0.0 && Cumulative(reports, g.applied)
    ensures SameOutcome(ApplyAll(reports, side, m, g), ApplyOne(Last(reports), side, m, g))
       <==> LastCounts(reports, g.applied)
  {
    hide ApplyFillDelta;
    if Last(reports).status != New {
      LastBooksAll(reports, side, m, g);
    } else {
      assert Last(reports) in reports;
      if LastCounts(reports, g.applied) { IdleReportsBookNothing(reports, side, m, g); }
      if ApplyAll(reports, side, m, g).Ok? { BookedCovers(reports, side, m, g); }
    }
  }

  /** A sale reported as partly filled and then, with the same figures, as NEW: the last report alone books nothing. */
  lemma NewReportHidesWhatWasBooked(id: string, executed: real, quote: real, m: Market, p: PortfolioState)
    requires Portfolio.Valid(p) && p.side == Long && 0.0 < executed <= p.base && quote > 0.0 && m.feePct >= 0.0
    ensures var g := Progress(p, NOTHING_APPLIED);
            var partial := OrderReport(id, PartiallyFilled, executed, quote, []);
            var reports := [partial, partial.(status := New)];
            && Cumulative(reports, g.applied) && !LastCounts(reports, g.applied)
            && ApplyOne(Last(reports), SellOrder, m, g) == Ok(g)
            && ApplyAll(reports, SellOrder, m, g).Ok?
            && ApplyAll(reports, SellOrder, m, g).value.applied.executed == executed
  {
    hide ApplyFillDelta;
    var g := Progress(p, NOTHING_APPLIED);
    var partial := OrderReport(id, PartiallyFilled, executed, quote, []);
    var silent := partial.(status := New);
    assert DeltaOf(partial, g.applied, m) == FillDelta(executed, quote, EstimateFee(quote, m.feePct), 0.0, true);
    SoldSlice(p, DeltaOf(partial, g.applied, m));
    var first := ApplyOne(partial, SellOrder, m, g).value;
    IdleReportsBookNothing([silent], SellOrder, m, first);
    assert [partial, silent][1..] == [silent];
    assert ApplyAll([partial, silent], SellOrder, m, g) == ApplyAll([silent], SellOrder, m, first);
    assert partial in [partial, silent];
  }
}
