// Exchange filters and exact step rounding (sizing/exchange_filters.py), and the order
// validator, which applies the same filters a second time (execution/order_validator.py).

module ExchangeFilters {
  import opened Common

  datatype SymbolFilters = SymbolFilters(symbol: string, tickSize: real, maxPrice: real, stepSize: real,
                                         minQty: real, maxQty: real, minNotional: real,
                                         applyMinNotionalToMarket: bool)

  /** Sizes published by the exchange are never negative; zero switches a rule off. */
  predicate ValidFilters(f: SymbolFilters) {
    f.tickSize >= 0.0 && f.stepSize >= 0.0
  }

  /** Rounding toward zero, as Decimal's ROUND_DOWN does. */
  function Truncate(x: real): int {
    if x >= 0.0 then x.Floor else -((-x).Floor)
  }

  function Ceiling(x: real): int { -((-x).Floor) }

  function RoundDownToStep(value: real, step: real): real {
    if step == 0.0 then value else Truncate(value / step) as real * step
  }

  function RoundQuantity(quantity: real, f: SymbolFilters): real {
    RoundDownToStep(quantity, f.stepSize)
  }

  function RoundUpToStep(value: real, step: real): real {
    if step > 0.0 then Ceiling(value / step) as real * step else value
  }

  predicate MeetsMinNotional(price: real, quantity: real, f: SymbolFilters) {
    !f.applyMinNotionalToMarket || price * quantity >= f.minNotional
  }

  predicate MeetsLotSize(quantity: real, f: SymbolFilters) {
    quantity >= f.minQty && !(f.maxQty != 0.0 && quantity > f.maxQty)
  }

  predicate StepAligned(quantity: real, step: real) {
    RoundDownToStep(quantity, step) == quantity
  }

  lemma ScaleCancels(n: real, step: real)
    requires step != 0.0
    ensures (n * step) / step == n
  {
  }

  /** A quotient between two bounds puts the value between the bounds' multiples of the divisor. */
  lemma QuotientBetween(value: real, step: real, lo: real, hi: real)
    requires step > 0.0 && lo <= value / step <= hi
    ensures lo * step <= value <= hi * step
    ensures value / step < hi ==> value < hi * step
    ensures lo < value / step ==> lo * step < value
  {
  }

  lemma Scale(a: real, b: real, step: real)
    requires a <= b && step > 0.0
    ensures a * step <= b * step
    ensures a < b ==> a * step < b * step
  {
  }

  lemma NextMultiple(n: real, step: real)
    ensures (n + 1.0) * step == n * step + step
    ensures (n - 1.0) * step == n * step - step
  {
  }

  /** Rounding an already rounded quantity changes nothing, whatever its sign. */
  lemma RoundDownIdempotent(value: real, step: real)
    ensures StepAligned(RoundDownToStep(value, step), step)
  {
    if step != 0.0 {
      var k := Truncate(value / step);
      var r := k as real * step;
      assert r == RoundDownToStep(value, step);
      MultipleIsAligned(k, step);
    }
  }

  lemma MultipleIsAligned(k: int, step: real)
    requires step != 0.0
    ensures StepAligned(k as real * step, step)
  {
    var r := k as real * step;
    ScaleCancels(k as real, step);
    assert r / step == k as real;
    assert Truncate(r / step) == k;
  }

  /** Rounding a non-negative quantity down loses less than one step and never enlarges it. */
  lemma RoundDownBounds(value: real, step: real)
    requires value >= 0.0 && step >= 0.0
    ensures 0.0 <= RoundDownToStep(value, step) <= value
    ensures step > 0.0 ==> value - RoundDownToStep(value, step) < step
  {
    if step > 0.0 {
      DivideMonotone(0.0, value, step);
      var n := Truncate(value / step) as real;
      var r := n * step;
      assert r == RoundDownToStep(value, step);
      QuotientBetween(value, step, n, n + 1.0);
      NextMultiple(n, step);
      Scale(0.0, n, step);
    }
  }

  /** No aligned quantity that fits is larger than the rounded one. */
  lemma RoundDownIsLargest(value: real, step: real, other: real)
    requires value >= 0.0 && step >= 0.0 && StepAligned(other, step) && other <= value
    ensures other <= RoundDownToStep(value, step)
  {
    RoundDownBounds(value, step);
    if step > 0.0 && other >= 0.0 {
      DivideMonotone(0.0, other, step);
      DivideMonotone(other, value, step);
      var m, n := Truncate(other / step), Truncate(value / step);
      assert m <= n;
      Scale(m as real, n as real, step);
      assert RoundDownToStep(other, step) == m as real * step && RoundDownToStep(value, step) == n as real * step;
    }
  }

  lemma RoundUpIsAligned(value: real, step: real)
    requires step > 0.0
    ensures StepAligned(RoundUpToStep(value, step), step)
  {
    var k := Ceiling(value / step);
    MultipleIsAligned(k, step);
    var r := k as real * step;
    assert RoundUpToStep(value, step) == r;
  }

  /** Rounding up yields the least multiple of the step at or above the value. */
  lemma RoundUpBounds(value: real, step: real)
    ensures RoundUpToStep(value, step) >= value
    ensures step > 0.0 ==> RoundUpToStep(value, step) - value < step && StepAligned(RoundUpToStep(value, step), step)
  {
    if step > 0.0 {
      var n := Ceiling(value / step) as real;
      var r := n * step;
      RoundUpIsAligned(value, step);
      assert r == RoundUpToStep(value, step);
      QuotientBetween(value, step, n - 1.0, n);
      NextMultiple(n, step);
    }
  }

  lemma RoundUpMonotone(a: real, b: real, step: real)
    requires a <= b
    ensures RoundUpToStep(a, step) <= RoundUpToStep(b, step)
  {
    if step > 0.0 {
      DivideMonotone(a, b, step);
      var m, n := Ceiling(a / step), Ceiling(b / step);
      assert m <= n;
      assert m as real * step <= n as real * step;
    }
  }

  lemma DivideMonotone(a: real, b: real, c: real)
    requires a <= b && c > 0.0
    ensures a / c <= b / c
  {
  }

  datatype ValidationCode = Validated | SymbolMismatch | ZeroQuantityAfterRounding
                          | ValidationBelowMinLotSize | ValidationBelowMinNotional

  function ValidateOrder(symbol: string, quantity: real, price: real, f: SymbolFilters): Result<real, ValidationCode> {
    if symbol != f.symbol then Err(SymbolMismatch) else
    var q := RoundQuantity(quantity, f);
    if q <= 0.0 then Err(ZeroQuantityAfterRounding)
    else if !MeetsLotSize(q, f) then Err(ValidationBelowMinLotSize)
    else if !MeetsMinNotional(price, q, f) then Err(ValidationBelowMinNotional)
    else Ok(q)
  }

  /**
   * The validator repeats the sizer's filters: a positive, aligned quantity that passed them is
   * handed back unchanged exactly when the symbols match.
   */
  lemma ValidatorKeepsPlannedQuantity(symbol: string, quantity: real, price: real, f: SymbolFilters)
    requires quantity > 0.0 && StepAligned(quantity, f.stepSize)
    requires MeetsLotSize(quantity, f) && MeetsMinNotional(price, quantity, f)
    ensures ValidateOrder(symbol, quantity, price, f)
         == if symbol == f.symbol then Ok(quantity) else Err(SymbolMismatch)
  {
  }
}
