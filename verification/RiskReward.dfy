// The fixed 1:2 net risk/reward policy (backtest/risk_reward.py): an entry is planned from the
// reference price, then planned again from the real fill and refused if the plan no longer holds.

module RiskReward {
  import opened Common
  import opened ExchangeFilters

  const MAX_RISK_PER_TRADE := 0.01
  const MIN_NET_REWARD_TO_RISK := 2.0

  datatype PlanCode = RrApproved | InvalidPrice | InvalidEquity | InsufficientQuoteBalance | InvalidStopDistance
                    | BelowMinLotSize | BelowMinNotional | InvalidTarget | NetRewardToRiskBelowMinimum
                    | PostFillRevalidationFailed

  datatype RiskRewardPlan = RiskRewardPlan(approved: bool, code: PlanCode, quantity: Option<real>,
                                           stop: Option<real>, target: Option<real>,
                                           risk: Option<real>, reward: Option<real>)

  /** Cost rates of the simulated exchange, with the protective stop's distance. */
  datatype Costs = Costs(fee: real, slippage: real, stopDistance: real)

  predicate ValidCosts(c: Costs) {
    0.0 <= c.fee < 1.0 && 0.0 <= c.slippage < 1.0 && 0.0 < c.stopDistance < 1.0
  }

  function RiskBudget(equity: real): real {
    equity * MAX_RISK_PER_TRADE
  }

  /** What one unit bought at `entry` costs with its fee. */
  function EntryCost(entry: real, c: Costs): real {
    entry * (1.0 + c.fee)
  }

  function LossPerUnit(entry: real, stop: real, c: Costs): real {
    var exit := stop * (1.0 - c.slippage);
    (entry - exit) + entry * c.fee + exit * c.fee
  }

  function GainPerUnit(entry: real, target: real, c: Costs): real {
    var exit := target * (1.0 - c.slippage);
    (exit - entry) - entry * c.fee - exit * c.fee
  }

  function SolveTarget(entry: real, loss: real, c: Costs): real
    requires ValidCosts(c)
  {
    KeptIsPositive(c);
    (MIN_NET_REWARD_TO_RISK * loss + EntryCost(entry, c)) / Kept(c)
  }

  function RoundTargetUpToTick(target: real, f: SymbolFilters): Option<real> {
    var rounded := RoundUpToStep(target, f.tickSize);
    if f.maxPrice > 0.0 && rounded > f.maxPrice then None else Some(rounded)
  }

  function Rejected(code: PlanCode, stop: Option<real>): RiskRewardPlan {
    RiskRewardPlan(false, code, None, stop, None, None, None)
  }

  function RawQuantity(equity: real, quote: real, entry: real, loss: real, c: Costs): real
    requires ValidCosts(c) && entry > 0.0 && loss > 0.0
  {
    EntryCostIsPositive(entry, c);
    Min(RiskBudget(equity) / loss, quote / EntryCost(entry, c))
  }

  function StopBelow(price: real, c: Costs): real {
    price * (1.0 - c.stopDistance)
  }

  function FillEstimate(reference: real, c: Costs): real {
    reference * (1.0 + c.slippage)
  }

  function PlanEntry(equity: real, quote: real, reference: real, c: Costs, f: SymbolFilters): RiskRewardPlan
    requires ValidCosts(c) && ValidFilters(f)
  {
    if reference <= 0.0 then Rejected(InvalidPrice, None)
    else if equity <= 0.0 then Rejected(InvalidEquity, None)
    else if quote <= 0.0 then Rejected(InsufficientQuoteBalance, None)
    else
      var stop := StopBelow(reference, c);
      var entry := FillEstimate(reference, c);
      var loss := LossPerUnit(entry, stop, c);
      FillAtOrAboveReference(reference, c);
      StopStrictlyBelow(reference, c);
      if loss <= 0.0 then Rejected(InvalidStopDistance, Some(stop)) else
      var quantity := RoundQuantity(RawQuantity(equity, quote, entry, loss, c), f);
      if quantity <= 0.0 || !MeetsLotSize(quantity, f) then Rejected(BelowMinLotSize, Some(stop))
      else if !MeetsMinNotional(reference, quantity, f) then Rejected(BelowMinNotional, Some(stop))
      else
        var target := RoundTargetUpToTick(SolveTarget(entry, loss, c), f);
        if target.None? || target.value <= reference then Rejected(InvalidTarget, Some(stop)) else
        var risk := Amount(quantity, loss);
        var reward := Amount(quantity, GainPerUnit(entry, target.value, c));
        if reward < MIN_NET_REWARD_TO_RISK * risk then
          RiskRewardPlan(false, NetRewardToRiskBelowMinimum, None, Some(stop), target, Some(risk), Some(reward))
        else
          RiskRewardPlan(true, RrApproved, Some(quantity), Some(stop), target, Some(risk), Some(reward))
  }

  /** The plan is made again from the fill. A caller passes an approved plan. */
  function BuildRealizedPlan(plan: RiskRewardPlan, fill: real, c: Costs, equity: real, f: SymbolFilters): RiskRewardPlan
    requires ValidCosts(c) && fill > 0.0
    requires plan.approved && plan.quantity.Some?
  {
    var stop := StopBelow(fill, c);
    StopStrictlyBelow(fill, c);
    var loss := LossPerUnit(fill, stop, c);
    var failed := plan.(approved := false, code := PostFillRevalidationFailed, stop := Some(stop), target := None);
    if loss <= 0.0 then failed else
    var target := RoundTargetUpToTick(SolveTarget(fill, loss, c), f);
    if target.None? || target.value <= fill then failed else
    var risk := Amount(plan.quantity.value, loss);
    var reward := Amount(plan.quantity.value, GainPerUnit(fill, target.value, c));
    var realized := plan.(stop := Some(stop), target := target, risk := Some(risk), reward := Some(reward));
    if risk <= RiskBudget(equity) && reward >= MIN_NET_REWARD_TO_RISK * risk then realized
    else realized.(approved := false, code := PostFillRevalidationFailed)
  }

  // ----- Price algebra --------------------------------------------------------------------

  /** The part of a sale's reference value left after slippage and fee. */
  function Kept(c: Costs): real {
    (1.0 - c.slippage) * (1.0 - c.fee)
  }

  lemma KeptIsPositive(c: Costs)
    requires ValidCosts(c)
    ensures 0.0 < Kept(c) <= 1.0
  {
    var s, f := 1.0 - c.slippage, 1.0 - c.fee;
    Scale(0.0, s, f);
    Scale(s, 1.0, f);
    assert Kept(c) == s * f;
  }

  lemma EntryCostIsPositive(entry: real, c: Costs)
    requires ValidCosts(c) && entry > 0.0
    ensures EntryCost(entry, c) >= entry
  {
  }

  lemma FillAtOrAboveReference(reference: real, c: Costs)
    requires ValidCosts(c) && reference > 0.0
    ensures FillEstimate(reference, c) >= reference
  {
  }

  lemma StopStrictlyBelow(price: real, c: Costs)
    requires ValidCosts(c) && price > 0.0
    ensures 0.0 < StopBelow(price, c) < price
  {
    var left := 1.0 - c.stopDistance;
    Scale(0.0, left, price);
    Scale(left, 1.0, price);
    assert StopBelow(price, c) == left * price;
  }

  lemma LossForm(entry: real, stop: real, c: Costs)
    ensures LossPerUnit(entry, stop, c) == EntryCost(entry, c) - Amount(stop, Kept(c))
  {
  }

  lemma GainForm(entry: real, target: real, c: Costs)
    ensures GainPerUnit(entry, target, c) == Amount(target, Kept(c)) - EntryCost(entry, c)
  {
  }

  /** The solved target earns exactly the minimum multiple of the loss, net of every cost. */
  lemma SolvedTargetIsExact(entry: real, loss: real, c: Costs)
    requires ValidCosts(c)
    ensures GainPerUnit(entry, SolveTarget(entry, loss, c), c) == MIN_NET_REWARD_TO_RISK * loss
  {
    KeptIsPositive(c);
    var t := SolveTarget(entry, loss, c);
    var required := MIN_NET_REWARD_TO_RISK * loss + EntryCost(entry, c);
    assert t == required / Kept(c);
    assert Amount(t, Kept(c)) == required;
    GainForm(entry, t, c);
  }

  lemma GainGrowsWithTarget(entry: real, low: real, high: real, c: Costs)
    requires ValidCosts(c) && low <= high
    ensures GainPerUnit(entry, low, c) <= GainPerUnit(entry, high, c)
  {
    KeptIsPositive(c);
    GainForm(entry, low, c);
    GainForm(entry, high, c);
    AmountGrows(low, high, Kept(c));
  }

  lemma LossShrinksAsStopRises(entry: real, low: real, high: real, c: Costs)
    requires ValidCosts(c) && low <= high
    ensures LossPerUnit(entry, high, c) <= LossPerUnit(entry, low, c)
  {
    KeptIsPositive(c);
    LossForm(entry, low, c);
    LossForm(entry, high, c);
    AmountGrows(low, high, Kept(c));
  }

  lemma LossIsPositive(entry: real, stop: real, c: Costs)
    requires ValidCosts(c) && 0.0 < stop < entry
    ensures LossPerUnit(entry, stop, c) > 0.0
  {
    KeptIsPositive(c);
    LossForm(entry, stop, c);
    EntryCostIsPositive(entry, c);
    AmountMonotone(stop, Kept(c), 1.0);
  }

  lemma SolvedTargetAboveEntry(entry: real, loss: real, c: Costs)
    requires ValidCosts(c) && entry > 0.0 && loss > 0.0
    ensures SolveTarget(entry, loss, c) > entry
  {
    SolvedTargetIsExact(entry, loss, c);
    var t := SolveTarget(entry, loss, c);
    GainForm(entry, t, c);
    KeptIsPositive(c);
    EntryCostIsPositive(entry, c);
    AmountMonotone(entry, Kept(c), 1.0);
    if t <= entry {
      AmountGrows(t, entry, Kept(c));
      assert false;
    }
  }

  lemma SolvedTargetMonotone(entry: real, small: real, large: real, c: Costs)
    requires ValidCosts(c) && small <= large
    ensures SolveTarget(entry, small, c) <= SolveTarget(entry, large, c)
  {
    KeptIsPositive(c);
    var cost := EntryCost(entry, c);
    var low, high := MIN_NET_REWARD_TO_RISK * small + cost, MIN_NET_REWARD_TO_RISK * large + cost;
    DivideMonotone(low, high, Kept(c));
    assert SolveTarget(entry, small, c) == low / Kept(c);
    assert SolveTarget(entry, large, c) == high / Kept(c);
  }

  /** Before costs the solved target reaches at least two stop distances; costs are what push it further. */
  lemma GrossRatioAtLeastTwo(entry: real, stop: real, c: Costs)
    requires ValidCosts(c) && 0.0 < stop < entry
    ensures var reach := SolveTarget(entry, LossPerUnit(entry, stop, c), c) - entry;
            && reach >= MIN_NET_REWARD_TO_RISK * (entry - stop)
            && (reach == MIN_NET_REWARD_TO_RISK * (entry - stop) <==> c.fee == 0.0 && c.slippage == 0.0)
  {
    hide Amount, SolveTarget, LossPerUnit, GainPerUnit, EntryCost, Kept;
    var k, loss := Kept(c), LossPerUnit(entry, stop, c);
    var t := SolveTarget(entry, loss, c);
    KeptIsPositive(c);
    SolvedTargetIsExact(entry, loss, c);
    GainForm(entry, t, c);
    LossForm(entry, stop, c);
    EntryCostIsPositive(entry, c);
    AmountMonotone(entry, k, 1.0);
    AmountsAdd(t, stop, entry, k);
    var level := t + 2.0 * stop;
    assert Amount(level, k) == 3.0 * EntryCost(entry, c);
    if level < 3.0 * entry { AmountGrows(level, 3.0 * entry, k); }
    CostFreeIff(entry, c);
    if level > 3.0 * entry { AmountGrows(3.0 * entry, level, k); }
  }

  lemma AmountsAdd(a: real, b: real, d: real, k: real)
    ensures Amount(a + 2.0 * b, k) == Amount(a, k) + 2.0 * Amount(b, k)
    ensures Amount(3.0 * d, k) == 3.0 * Amount(d, k) && Amount(d, 1.0) == d
  {
  }

  lemma CostFreeIff(entry: real, c: Costs)
    requires ValidCosts(c) && entry > 0.0
    ensures EntryCost(entry, c) == Amount(entry, Kept(c)) <==> c.fee == 0.0 && c.slippage == 0.0
  {
    var k := Kept(c);
    KeptIsPositive(c);
    AmountMonotone(entry, k, 1.0);
    EntryCostIsPositive(entry, c);
    if c.fee > 0.0 {
      AmountMonotone(entry, 1.0, 1.0 + c.fee);
      assert EntryCost(entry, c) == Amount(entry, 1.0 + c.fee);
    } else {
      assert k == 1.0 - c.slippage;
      assert EntryCost(entry, c) == entry;
    }
  }

  lemma ScaledMinimumHolds(quantity: real, gain: real, loss: real)
    requires quantity > 0.0 && gain >= MIN_NET_REWARD_TO_RISK * loss
    ensures Amount(quantity, gain) >= MIN_NET_REWARD_TO_RISK * Amount(quantity, loss)
  {
  }

  /** Rounding the solved target up to the tick keeps the minimum and stays above the entry. */
  lemma RoundedTargetKeepsMinimum(entry: real, loss: real, c: Costs, f: SymbolFilters)
    requires ValidCosts(c) && entry > 0.0 && loss > 0.0
    ensures var t := RoundUpToStep(SolveTarget(entry, loss, c), f.tickSize);
            t > entry && GainPerUnit(entry, t, c) >= MIN_NET_REWARD_TO_RISK * loss
  {
    var raw := SolveTarget(entry, loss, c);
    SolvedTargetIsExact(entry, loss, c);
    SolvedTargetAboveEntry(entry, loss, c);
    RoundUpBounds(raw, f.tickSize);
    GainGrowsWithTarget(entry, raw, RoundUpToStep(raw, f.tickSize), c);
  }

  // ----- What an approved plan promises ----------------------------------------------------

  /** The first thing wrong with an entry, judged from prices and filters alone. */
  function EntryObstacle(equity: real, quote: real, reference: real, c: Costs, f: SymbolFilters): Option<PlanCode>
    requires ValidCosts(c) && ValidFilters(f)
  {
    if reference <= 0.0 then Some(InvalidPrice)
    else if equity <= 0.0 then Some(InvalidEquity)
    else if quote <= 0.0 then Some(InsufficientQuoteBalance)
    else
      var entry := FillEstimate(reference, c);
      StopStrictlyBelow(reference, c);
      FillAtOrAboveReference(reference, c);
      LossIsPositive(entry, StopBelow(reference, c), c);
      var loss := LossPerUnit(entry, StopBelow(reference, c), c);
      var quantity := RoundQuantity(RawQuantity(equity, quote, entry, loss, c), f);
      if quantity <= 0.0 || !MeetsLotSize(quantity, f) then Some(BelowMinLotSize)
      else if !MeetsMinNotional(reference, quantity, f) then Some(BelowMinNotional)
      else if RoundTargetUpToTick(SolveTarget(entry, loss, c), f).None? then Some(InvalidTarget)
      else None
  }

  /**
   * The only obstacles are bad inputs, the exchange's quantity filters and its maximum price. The
   * 2R gate and the stop-distance gate before the fill never refuse anything.
   */
  lemma PreFillGatesNeverFire(equity: real, quote: real, reference: real, c: Costs, f: SymbolFilters)
    requires ValidCosts(c) && ValidFilters(f)
    ensures var p := PlanEntry(equity, quote, reference, c, f);
            && (p.approved <==> EntryObstacle(equity, quote, reference, c, f).None?)
            && (!p.approved ==> EntryObstacle(equity, quote, reference, c, f) == Some(p.code))
            && p.code != NetRewardToRiskBelowMinimum && p.code != InvalidStopDistance
  {
    if reference > 0.0 && equity > 0.0 && quote > 0.0 {
      var entry, stop := FillEstimate(reference, c), StopBelow(reference, c);
      StopStrictlyBelow(reference, c);
      FillAtOrAboveReference(reference, c);
      LossIsPositive(entry, stop, c);
      var loss := LossPerUnit(entry, stop, c);
      var quantity := RoundQuantity(RawQuantity(equity, quote, entry, loss, c), f);
      RoundedTargetKeepsMinimum(entry, loss, c, f);
      if quantity > 0.0 {
        var t := RoundUpToStep(SolveTarget(entry, loss, c), f.tickSize);
        ScaledMinimumHolds(quantity, GainPerUnit(entry, t, c), loss);
      }
    }
  }

  lemma ShareOf(part: real, whole: real, unit: real)
    requires unit > 0.0 && part <= whole / unit
    ensures Amount(part, unit) <= whole
  {
  }

  lemma RoundedQuantityIsSafe(equity: real, quote: real, entry: real, loss: real, c: Costs, f: SymbolFilters)
    requires ValidCosts(c) && ValidFilters(f)
    requires equity > 0.0 && quote > 0.0 && entry > 0.0 && loss > 0.0
    ensures var q := RoundQuantity(RawQuantity(equity, quote, entry, loss, c), f);
            && StepAligned(q, f.stepSize)
            && Amount(q, loss) <= RiskBudget(equity)
            && Amount(q, EntryCost(entry, c)) <= quote
  {
    EntryCostIsPositive(entry, c);
    var budget, unitCost := RiskBudget(equity), EntryCost(entry, c);
    var raw := RawQuantity(equity, quote, entry, loss, c);
    DivideMonotone(0.0, budget, loss);
    DivideMonotone(0.0, quote, unitCost);
    RoundDownIdempotent(raw, f.stepSize);
    RoundDownBounds(raw, f.stepSize);
    var q := RoundQuantity(raw, f);
    ShareOf(q, budget, loss);
    ShareOf(q, quote, unitCost);
  }

  /** The planned quantity is aligned, affordable with its fee, and risks at most one percent. */
  lemma ApprovedQuantityIsSafe(equity: real, quote: real, reference: real, c: Costs, f: SymbolFilters)
    requires ValidCosts(c) && ValidFilters(f)
    requires PlanEntry(equity, quote, reference, c, f).approved
    ensures reference > 0.0 && equity > 0.0
    ensures var p := PlanEntry(equity, quote, reference, c, f); var entry := FillEstimate(reference, c);
            && p.quantity.Some? && p.quantity.value > 0.0
            && StepAligned(p.quantity.value, f.stepSize)
            && MeetsLotSize(p.quantity.value, f) && MeetsMinNotional(reference, p.quantity.value, f)
            && Amount(p.quantity.value, EntryCost(entry, c)) <= quote
            && p.risk == Some(Amount(p.quantity.value, LossPerUnit(entry, StopBelow(reference, c), c)))
            && p.risk.value <= RiskBudget(equity)
  {
    var entry := FillEstimate(reference, c);
    FillAtOrAboveReference(reference, c);
    RoundedQuantityIsSafe(equity, quote, entry, LossPerUnit(entry, StopBelow(reference, c), c), c, f);
  }

  /** A quantity the exchange's step allows, at most `risk` at stake and at most `money` paid. */
  predicate Bearable(q: real, step: real, loss: real, risk: real, cost: real, money: real) {
    StepAligned(q, step) && Amount(q, loss) <= risk && Amount(q, cost) <= money
  }

  ghost predicate LargestBearable(q: real, step: real, loss: real, risk: real, cost: real, money: real) {
    && Bearable(q, step, loss, risk, cost, money)
    && forall other | Bearable(other, step, loss, risk, cost, money) :: other <= q
  }

  lemma LargestIsUnique(q: real, p: real, step: real, loss: real, risk: real, cost: real, money: real)
    requires LargestBearable(q, step, loss, risk, cost, money) && LargestBearable(p, step, loss, risk, cost, money)
    ensures q == p
  {
  }

  lemma SmallerShareIsLargest(risk: real, loss: real, money: real, cost: real, f: SymbolFilters)
    requires ValidFilters(f) && risk >= 0.0 && money >= 0.0 && loss > 0.0 && cost > 0.0
    ensures LargestBearable(RoundQuantity(Min(risk / loss, money / cost), f), f.stepSize, loss, risk, cost, money)
  {
    var raw := Min(risk / loss, money / cost);
    DivideMonotone(0.0, risk, loss);
    DivideMonotone(0.0, money, cost);
    RoundDownIdempotent(raw, f.stepSize);
    RoundDownBounds(raw, f.stepSize);
    var q := RoundQuantity(raw, f);
    ShareOf(q, risk, loss);
    ShareOf(q, money, cost);
    forall other | Bearable(other, f.stepSize, loss, risk, cost, money) ensures other <= q {
      WithinShare(other, risk, loss);
      WithinShare(other, money, cost);
      RoundDownIsLargest(raw, f.stepSize, other);
    }
  }

  lemma WithinShare(part: real, whole: real, unit: real)
    requires unit > 0.0 && Amount(part, unit) <= whole
    ensures part <= whole / unit
  {
    if part > whole / unit { AmountGrows(whole / unit, part, unit); }
  }

  /** The target that a long from `entry` with this stop needs, as the exchange can quote it, if it can. */
  predicate TargetQuotable(entry: real, loss: real, c: Costs, f: SymbolFilters)
    requires ValidCosts(c)
  {
    f.maxPrice <= 0.0 || RoundUpToStep(SolveTarget(entry, loss, c), f.tickSize) <= f.maxPrice
  }

  /** The answer of planning about its own rounded quantity. */
  lemma PlanAnswer(equity: real, quote: real, reference: real, c: Costs, f: SymbolFilters, q: real, entry: real,
                   loss: real)
    requires ValidCosts(c) && ValidFilters(f) && equity > 0.0 && quote > 0.0 && reference > 0.0
    requires entry == FillEstimate(reference, c) > 0.0 && loss == LossPerUnit(entry, StopBelow(reference, c), c) > 0.0
    requires q == RoundQuantity(RawQuantity(equity, quote, entry, loss, c), f)
    ensures var p := PlanEntry(equity, quote, reference, c, f);
            && p.code == PlanCodeFor(q, reference, entry, loss, c, f)
            && (p.approved <==> p.code == RrApproved) && (p.approved ==> p.quantity == Some(q))
  {
    PreFillGatesNeverFire(equity, quote, reference, c, f);
    hide RoundQuantity, RawQuantity, LossPerUnit, SolveTarget, FillEstimate, StopBelow, RoundUpToStep, GainPerUnit,
        Amount, MeetsMinNotional, MeetsLotSize;
  }

  /** The first thing wrong with a quantity, or nothing. */
  function PlanCodeFor(q: real, reference: real, entry: real, loss: real, c: Costs, f: SymbolFilters): PlanCode
    requires ValidCosts(c)
  {
    if q <= 0.0 || !MeetsLotSize(q, f) then BelowMinLotSize
    else if !MeetsMinNotional(reference, q, f) then BelowMinNotional
    else if !TargetQuotable(entry, loss, c, f) then InvalidTarget
    else RrApproved
  }

  /**
   * What planning answers: of the aligned quantities that stake at most one percent of the equity and are affordable
   * with their fee, the largest; or the first thing wrong with that one.
   */
  lemma PlanTakesLargestQuantity(equity: real, quote: real, reference: real, c: Costs, f: SymbolFilters, q: real,
                                 entry: real, loss: real)
    requires ValidCosts(c) && ValidFilters(f) && equity > 0.0 && quote > 0.0 && reference > 0.0
    requires entry == FillEstimate(reference, c) && loss == LossPerUnit(entry, StopBelow(reference, c), c)
    requires LargestBearable(q, f.stepSize, loss, RiskBudget(equity), EntryCost(entry, c), quote)
    ensures var p := PlanEntry(equity, quote, reference, c, f);
            && p.code == PlanCodeFor(q, reference, entry, loss, c, f)
            && (p.approved <==> p.code == RrApproved) && (p.approved ==> p.quantity == Some(q))
  {
    hide FillEstimate, StopBelow, LossPerUnit, LargestBearable, PlanEntry, TargetQuotable, RoundQuantity;
    StopStrictlyBelow(reference, c);
    FillAtOrAboveReference(reference, c);
    LossIsPositive(entry, StopBelow(reference, c), c);
    RawIsLargest(equity, quote, entry, loss, c, f, q);
    PlanAnswer(equity, quote, reference, c, f, q, entry, loss);
  }

  lemma RawIsLargest(equity: real, quote: real, entry: real, loss: real, c: Costs, f: SymbolFilters, q: real)
    requires ValidCosts(c) && ValidFilters(f) && equity > 0.0 && quote > 0.0 && entry > 0.0 && loss > 0.0
    requires LargestBearable(q, f.stepSize, loss, RiskBudget(equity), EntryCost(entry, c), quote)
    ensures q == RoundQuantity(RawQuantity(equity, quote, entry, loss, c), f)
  {
    EntryCostIsPositive(entry, c);
    var risk, cost := RiskBudget(equity), EntryCost(entry, c);
    SmallerShareIsLargest(risk, loss, quote, cost, f);
    hide RoundQuantity, LargestBearable;
    LargestIsUnique(q, RoundQuantity(Min(risk / loss, quote / cost), f), f.stepSize, loss, risk, cost, quote);
  }

  /** What the engine relies on in a plan it has persisted with a position. */
  predicate SoundPlan(plan: RiskRewardPlan, fill: real, c: Costs, equity: real) {
    && plan.approved && plan.quantity.Some? && plan.quantity.value > 0.0
    && plan.stop == Some(StopBelow(fill, c))
    && plan.target.Some? && plan.target.value > fill
    && plan.risk == Some(Amount(plan.quantity.value, LossPerUnit(fill, StopBelow(fill, c), c)))
    && plan.reward == Some(Amount(plan.quantity.value, GainPerUnit(fill, plan.target.value, c)))
    && 0.0 < plan.risk.value <= RiskBudget(equity)
    && plan.reward.value >= MIN_NET_REWARD_TO_RISK * plan.risk.value
  }

  /** Measured from the fill, the stop sits higher, so the loss and the target are no larger. */
  lemma FillTightensPlan(reference: real, c: Costs, f: SymbolFilters)
    requires ValidCosts(c) && ValidFilters(f) && reference > 0.0
    ensures var fill := FillEstimate(reference, c);
            var loss := LossPerUnit(fill, StopBelow(fill, c), c);
            var planned := LossPerUnit(fill, StopBelow(reference, c), c);
            && 0.0 < reference <= fill
            && 0.0 < loss <= planned
            && RoundUpToStep(SolveTarget(fill, loss, c), f.tickSize)
                 <= RoundUpToStep(SolveTarget(fill, planned, c), f.tickSize)
  {
    var fill := FillEstimate(reference, c);
    FillAtOrAboveReference(reference, c);
    var low, high, left := StopBelow(reference, c), StopBelow(fill, c), 1.0 - c.stopDistance;
    Scale(reference, fill, left);
    assert low == reference * left && high == fill * left;
    StopStrictlyBelow(fill, c);
    LossShrinksAsStopRises(fill, low, high, c);
    LossIsPositive(fill, high, c);
    var planned, loss := LossPerUnit(fill, low, c), LossPerUnit(fill, high, c);
    SolvedTargetMonotone(fill, loss, planned, c);
    RoundUpMonotone(SolveTarget(fill, loss, c), SolveTarget(fill, planned, c), f.tickSize);
  }

  lemma RealizedPlanIsSound(plan: RiskRewardPlan, fill: real, c: Costs, equity: real, f: SymbolFilters)
    requires ValidCosts(c) && ValidFilters(f) && fill > 0.0
    requires plan.approved && plan.quantity.Some? && plan.quantity.value > 0.0
    requires Amount(plan.quantity.value, LossPerUnit(fill, StopBelow(fill, c), c)) <= RiskBudget(equity)
    requires RoundTargetUpToTick(SolveTarget(fill, LossPerUnit(fill, StopBelow(fill, c), c), c), f).Some?
    ensures var r := BuildRealizedPlan(plan, fill, c, equity, f);
            SoundPlan(r, fill, c, equity) && r.quantity == plan.quantity && r.risk.Some? && r.target.Some?
  {
    var stop, q := StopBelow(fill, c), plan.quantity.value;
    StopStrictlyBelow(fill, c);
    LossIsPositive(fill, stop, c);
    var loss := LossPerUnit(fill, stop, c);
    RoundedTargetKeepsMinimum(fill, loss, c, f);
    var gain := GainPerUnit(fill, RoundUpToStep(SolveTarget(fill, loss, c), f.tickSize), c);
    ScaledMinimumHolds(q, gain, loss);
    AmountMonotone(q, loss, loss);
  }

  /**
   * The post-fill check is a safety net that is never needed: with the broker's own fill price every
   * approved plan is approved again, risks no more, and keeps a target no higher.
   */
  lemma RealizedPlanAlwaysApproved(equity: real, quote: real, reference: real, c: Costs, f: SymbolFilters)
    requires ValidCosts(c) && ValidFilters(f)
    requires PlanEntry(equity, quote, reference, c, f).approved
    ensures FillEstimate(reference, c) > 0.0
    ensures var p := PlanEntry(equity, quote, reference, c, f);
            p.quantity.Some? && p.risk.Some? && p.target.Some?
    ensures var p := PlanEntry(equity, quote, reference, c, f); var fill := FillEstimate(reference, c);
            var r := BuildRealizedPlan(p, fill, c, equity, f);
            && SoundPlan(r, fill, c, equity)
            && r.quantity == p.quantity
            && r.risk.value <= p.risk.value
            && r.target.value <= p.target.value
  {
    ApprovedQuantityIsSafe(equity, quote, reference, c, f);
    FillTightensPlan(reference, c, f);
    var p, fill := PlanEntry(equity, quote, reference, c, f), FillEstimate(reference, c);
    var q := p.quantity.value;
    var planned, loss := LossPerUnit(fill, StopBelow(reference, c), c), LossPerUnit(fill, StopBelow(fill, c), c);
    AmountMonotone(q, loss, planned);
    RealizedPlanIsSound(p, fill, c, equity, f);
  }
}
