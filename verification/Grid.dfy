// Whole-number division on a time grid. Python's floor division and Dafny's agree for a positive step.

module Grid {

  /** `n` steps. */
  function Times(n: int, step: int): int {
    n * step
  }

  lemma TimesAdds(m: int, n: int, step: int)
    ensures Times(m + n, step) == Times(m, step) + Times(n, step)
    ensures Times(m - n, step) == Times(m, step) - Times(n, step)
    ensures Times(0, step) == 0 && Times(1, step) == step
  {
  }

  lemma TimesMonotone(m: int, n: int, step: int)
    requires step > 0
    ensures m <= n <==> Times(m, step) <= Times(n, step)
    ensures m < n <==> Times(m, step) < Times(n, step)
  {
  }

  lemma Quotient(a: int, step: int)
    requires step > 0
    ensures a == Times(a / step, step) + a % step && 0 <= a % step < step
  {
  }

  /** A quotient is the only count whose cell contains the number. */
  lemma QuotientIsUnique(a: int, q: int, step: int)
    requires step > 0 && Times(q, step) <= a < Times(q, step) + step
    ensures a / step == q && a % step == a - Times(q, step)
  {
    Quotient(a, step);
    var p := a / step;
    TimesAdds(q, 1, step);
    TimesAdds(p, 1, step);
    TimesMonotone(p, q + 1, step);
    TimesMonotone(q, p + 1, step);
  }

  lemma MultipleQuotient(n: int, step: int)
    requires step > 0
    ensures Times(n, step) / step == n && Times(n, step) % step == 0
  {
    QuotientIsUnique(Times(n, step), n, step);
  }

  lemma QuotientOfShifted(a: int, n: int, step: int)
    requires step > 0
    ensures (a + Times(n, step)) / step == a / step + n && (a + Times(n, step)) % step == a % step
  {
    Quotient(a, step);
    TimesAdds(a / step, n, step);
    QuotientIsUnique(a + Times(n, step), a / step + n, step);
  }

  /** Whole periods in a span. */
  function Periods(span: int, step: int): int
    requires step > 0
  {
    span / step
  }

  predicate Aligned(span: int, step: int)
    requires step > 0
  {
    span % step == 0
  }

  lemma PeriodsAdd(a: int, b: int, step: int)
    requires step > 0 && Aligned(a, step)
    ensures Periods(a + b, step) == Periods(a, step) + Periods(b, step)
    ensures Aligned(a + b, step) <==> Aligned(b, step)
  {
    Quotient(a, step);
    QuotientOfShifted(b, a / step, step);
  }

  lemma PeriodsOfTimes(n: int, step: int)
    requires step > 0
    ensures Periods(Times(n, step), step) == n && Aligned(Times(n, step), step)
    ensures Periods(step, step) == 1 && Periods(0, step) == 0 && Aligned(step, step) && Aligned(0, step)
  {
    MultipleQuotient(n, step);
    MultipleQuotient(1, step);
    MultipleQuotient(0, step);
    TimesAdds(0, 1, step);
  }

  /** Two different grid points are at least a step apart. */
  lemma AlignedApart(a: int, b: int, step: int)
    requires step > 0 && Aligned(a, step) && Aligned(b, step) && a < b
    ensures a + step <= b
  {
    Quotient(a, step);
    Quotient(b, step);
    TimesMonotone(a / step, b / step, step);
    TimesMonotone(a / step + 1, b / step, step);
    TimesAdds(a / step, 1, step);
  }

  lemma TimesOfDifference(n: int, a: int, b: int)
    ensures Times(n, a - b) == Times(n, a) - Times(n, b)
  {
  }

  /** Rounding a span down to whole periods leaves less than one period over. */
  lemma PeriodsBound(span: int, step: int)
    requires step > 0
    ensures Times(Periods(span, step), step) <= span < Times(Periods(span, step) + 1, step)
  {
  }
}
