// Causal indicators (indicators/volatility.py, indicators/moving_averages.py). An entry that the rolling
// window does not yet define is None.

module Indicators {
  import opened Common

  // ----- Exponential moving average -----------------------------------------------------------------------

  function Smoothing(period: nat): real
    requires period > 0
  {
    2.0 / (period as real + 1.0)
  }

  function Blend(alpha: real, value: real, previous: real): real {
    alpha * value + (1.0 - alpha) * previous
  }

  function Ema(values: seq<real>, period: nat): (r: seq<real>)
    requires period > 0
    ensures |r| == |values|
  {
    if values == [] then []
    else if |values| == 1 then values
    else
      var before := Ema(DropLast(values), period);
      before + [Blend(Smoothing(period), Last(values), Last(before))]
  }

  /** A longer series never revises an earlier value. */
  lemma {:induction false} EmaIsCausal(values: seq<real>, period: nat, n: nat)
    requires period > 0 && n <= |values|
    ensures Ema(values[..n], period) == Ema(values, period)[..n]
    decreases |values|
  {
    if n == |values| {
      assert values[..n] == values;
    } else {
      assert DropLast(values)[..n] == values[..n];
      EmaIsCausal(DropLast(values), period, n);
      if |values| > 1 { assert Ema(values, period)[..n] == Ema(DropLast(values), period)[..n]; }
    }
  }

  /** What a value counts for at once, and `age` steps later. Only the first value starts with the whole weight. */
  function Weight(period: nat, first: bool, age: nat): real
    requires period > 0
  {
    if age > 0 then Weight(period, first, age - 1) * (1.0 - 2.0 / (period as real + 1.0))
    else if first then 1.0 else 2.0 / (period as real + 1.0)
  }

  /**
   * Every value counts with a weight that only its age decides: a change of one value moves the average by
   * 2 / (period + 1) of it at once, and by a share of that falling geometrically from then on.
   */
  lemma {:induction false} EmaWeighsByAge(values: seq<real>, period: nat, k: nat, change: real)
    requires period > 0 && k < |values|
    ensures Last(Ema(values[k := values[k] + change], period))
         == Last(Ema(values, period)) + Amount(change, Weight(period, k == 0, |values| - 1 - k))
  {
    hide Blend, Amount;
    var moved, before, age := values[k := values[k] + change], DropLast(values), |values| - 1 - k;
    var a := Smoothing(period);
    if age > 0 {
      EmaWeighsByAge(before, period, k, change);
      assert DropLast(moved) == before[k := before[k] + change];
      var weight, was := Weight(period, k == 0, age - 1), Last(Ema(before, period));
      assert Last(Ema(DropLast(moved), period)) == was + Amount(change, weight);
      BlendMoves(a, Last(values), was, change, weight);
      assert Last(Ema(values, period)) == Blend(a, Last(values), was);
      assert Last(Ema(moved, period)) == Blend(a, Last(values), was + Amount(change, weight));
      assert Weight(period, k == 0, age) == weight * (1.0 - a);
    } else {
      assert DropLast(moved) == before;
      ShareOfChange(change);
      if k > 0 { BlendFollows(a, Last(values), Last(Ema(before, period)), change); }
    }
  }

  lemma ShareOfChange(change: real)
    ensures Amount(change, 1.0) == change
  {
  }

  lemma BlendMoves(alpha: real, value: real, previous: real, change: real, weight: real)
    ensures Blend(alpha, value, previous + Amount(change, weight))
         == Blend(alpha, value, previous) + Amount(change, weight * (1.0 - alpha))
  {
    assert Amount(change, weight * (1.0 - alpha)) == Amount(change, weight) * (1.0 - alpha);
  }

  lemma BlendFollows(alpha: real, value: real, previous: real, change: real)
    ensures Blend(alpha, value + change, previous) == Blend(alpha, value, previous) + Amount(change, alpha)
  {
  }

  // ----- True range -------------------------------------------------------------------------------------------

  function Max3(a: real, b: real, c: real): real {
    Max(Max(a, b), c)
  }

  function RangeAfter(c: Candle, previousClose: real): real {
    Max3(c.high - c.low, Abs(c.high - previousClose), Abs(c.low - previousClose))
  }

  /** The widest distance covered since the previous close: the gap to it counts, whichever way it opened. */
  lemma RangeIsSpread(c: Candle, previousClose: real)
    requires c.low <= c.high
    ensures RangeAfter(c, previousClose) == Max(c.high, previousClose) - Min(c.low, previousClose)
  {
  }

  function TrueRanges(candles: seq<Candle>): (r: seq<real>)
    ensures |r| == |candles|
  {
    if candles == [] then []
    else
      var before, c := DropLast(candles), Last(candles);
      TrueRanges(before) + [if before == [] then c.high - c.low else RangeAfter(c, Last(before).close)]
  }

  /** Every range is the widest distance covered since the previous close; the first has only its own candle. */
  lemma {:induction false} TrueRangesAreSpreads(candles: seq<Candle>, i: nat)
    requires i < |candles| && candles[i].low <= candles[i].high
    ensures var c, range := candles[i], TrueRanges(candles)[i];
            if i == 0 then range == c.high - c.low
            else range == Max(c.high, candles[i - 1].close) - Min(c.low, candles[i - 1].close)
    decreases |candles|
  {
    if i < |candles| - 1 {
      TrueRangesAreSpreads(DropLast(candles), i);
    } else if i > 0 {
      RangeIsSpread(candles[i], candles[i - 1].close);
    }
  }

  method TrueRange(candles: seq<Candle>) returns (values: seq<real>)
    ensures values == TrueRanges(candles)
  {
    values := [];
    var previousClose: Option<real> := None;
    for i := 0 to |candles|
      invariant values == TrueRanges(candles[..i])
      invariant previousClose == if i == 0 then None else Some(candles[i - 1].close)
    {
      var c := candles[i];
      assert DropLast(candles[..i + 1]) == candles[..i];
      match previousClose {
        case None => values := values + [c.high - c.low];
        case Some(p) => values := values + [RangeAfter(c, p)];
      }
      previousClose := Some(c.close);
    }
    assert candles[..|candles|] == candles;
  }

  lemma {:induction false} TrueRangesAreCausal(candles: seq<Candle>, n: nat)
    requires n <= |candles|
    ensures TrueRanges(candles[..n]) == TrueRanges(candles)[..n]
    decreases |candles|
  {
    if n == |candles| {
      assert candles[..n] == candles;
    } else {
      assert DropLast(candles)[..n] == candles[..n];
      TrueRangesAreCausal(DropLast(candles), n);
    }
  }

  // ----- Rolling windows ----------------------------------------------------------------------------------------

  function Sum(values: seq<real>): real {
    if values == [] then 0.0 else Sum(DropLast(values)) + Last(values)
  }

  function Mean(values: seq<real>): real
    requires values != []
  {
    Sum(values) / |values| as real
  }

  function Maximum(values: seq<real>): (m: real)
    requires values != []
    ensures m in values && forall v | v in values :: v <= m
  {
    if |values| == 1 then values[0]
    else
      assert values == DropLast(values) + [Last(values)];
      Max(Maximum(DropLast(values)), Last(values))
  }

  function Minimum(values: seq<real>): (m: real)
    requires values != []
    ensures m in values && forall v | v in values :: m <= v
  {
    if |values| == 1 then values[0]
    else
      assert values == DropLast(values) + [Last(values)];
      Min(Minimum(DropLast(values)), Last(values))
  }

  /** The window of `period` values ending at `i`, once there are that many. */
  function WindowAt(values: seq<real>, period: nat, i: nat): Option<seq<real>>
    requires period > 0 && i < |values|
  {
    if i + 1 < period then None else Some(values[i + 1 - period..i + 1])
  }

  function RollingMeanAt(values: seq<real>, period: nat, i: nat): Option<real>
    requires period > 0 && i < |values|
  {
    match WindowAt(values, period, i)
    case None => None
    case Some(w) => Some(Mean(w))
  }

  function RollingMaxAt(values: seq<real>, period: nat, i: nat): Option<real>
    requires period > 0 && i < |values|
  {
    match WindowAt(values, period, i)
    case None => None
    case Some(w) => Some(Maximum(w))
  }

  function RollingMax(values: seq<real>, period: nat): (r: seq<Option<real>>)
    requires period > 0
    ensures |r| == |values|
  {
    seq(|values|, i requires 0 <= i < |values| => RollingMaxAt(values, period, i))
  }

  function Atr(candles: seq<Candle>, period: nat): (r: seq<Option<real>>)
    requires period > 0
    ensures |r| == |candles|
  {
    var ranges := TrueRanges(candles);
    seq(|candles|, i requires 0 <= i < |candles| => RollingMeanAt(ranges, period, i))
  }

  /** A window lies wholly in the prefix that ends with it. */
  lemma WindowIsCausal(values: seq<real>, period: nat, n: nat, i: nat)
    requires period > 0 && i < n <= |values|
    ensures WindowAt(values[..n], period, i) == WindowAt(values, period, i)
  {
    if i + 1 >= period { assert values[..n][i + 1 - period..i + 1] == values[i + 1 - period..i + 1]; }
  }

  lemma RollingMaxIsCausal(values: seq<real>, period: nat, n: nat)
    requires period > 0 && n <= |values|
    ensures RollingMax(values[..n], period) == RollingMax(values, period)[..n]
  {
    forall i | 0 <= i < n ensures RollingMaxAt(values[..n], period, i) == RollingMaxAt(values, period, i) {
      WindowIsCausal(values, period, n, i);
    }
  }

  lemma AtrIsCausal(candles: seq<Candle>, period: nat, n: nat)
    requires period > 0 && n <= |candles|
    ensures Atr(candles[..n], period) == Atr(candles, period)[..n]
  {
    TrueRangesAreCausal(candles, n);
    var ranges := TrueRanges(candles);
    forall i | 0 <= i < n ensures RollingMeanAt(ranges[..n], period, i) == RollingMeanAt(ranges, period, i) {
      WindowIsCausal(ranges, period, n, i);
    }
  }

  lemma {:induction false} SumBetween(values: seq<real>, lo: real, hi: real)
    requires forall k | 0 <= k < |values| :: lo <= values[k] <= hi
    ensures |values| as real * lo <= Sum(values) <= |values| as real * hi
  {
    if values != [] {
      SumBetween(DropLast(values), lo, hi);
      var n := |DropLast(values)| as real;
      assert |values| as real == n + 1.0 && (n + 1.0) * lo == n * lo + lo && (n + 1.0) * hi == n * hi + hi;
    }
  }

  lemma {:induction false} SumFromFirst(values: seq<real>)
    requires values != []
    ensures Sum(values) == values[0] + Sum(values[1..])
  {
    if |values| > 1 {
      SumFromFirst(DropLast(values));
      assert DropLast(values)[1..] == DropLast(values[1..]);
    }
  }

  lemma MeanIsCentral(values: seq<real>, lo: real, hi: real)
    requires values != [] && forall k | 0 <= k < |values| :: lo <= values[k] <= hi
    ensures lo <= Mean(values) <= hi
  {
    SumBetween(values, lo, hi);
    ShareBetween(Sum(values), |values|, lo, hi);
  }

  lemma MeanSlides(values: seq<real>, next: real)
    requires values != []
    ensures Amount(Mean(values[1..] + [next]) - Mean(values), |values| as real) == next - values[0]
  {
    var later := values[1..] + [next];
    SumFromFirst(values);
    assert DropLast(later) == values[1..];
    SharesDiffer(Sum(later), Sum(values), |values|);
  }

  lemma RollingMeanIsCentral(values: seq<real>, period: nat, i: nat, lo: real, hi: real)
    requires 0 < period <= i + 1 && i < |values|
    requires forall k | 0 <= k <= i && i < k + period :: lo <= values[k] <= hi
    ensures RollingMeanAt(values, period, i).Some? && lo <= RollingMeanAt(values, period, i).value <= hi
  {
    hide Mean;
    MeanIsCentral(values[i + 1 - period..i + 1], lo, hi);
  }

  lemma RollingMeanSlides(values: seq<real>, period: nat, i: nat)
    requires 0 < period <= i < |values|
    ensures var now, before := RollingMeanAt(values, period, i), RollingMeanAt(values, period, i - 1);
            && now.Some? && before.Some?
            && Amount(now.value - before.value, period as real) == values[i] - values[i - period]
  {
    hide Mean, Amount;
    var before := values[i - period..i];
    assert values[i + 1 - period..i + 1] == before[1..] + [values[i]];
    MeanSlides(before, values[i]);
  }

  lemma AtrAt(candles: seq<Candle>, period: nat, i: nat, ranges: seq<real>)
    requires period > 0 && i < |candles| && ranges == TrueRanges(candles)
    ensures Atr(candles, period)[i] == RollingMeanAt(ranges, period, i)
  {
  }

  /**
   * The range is defined from the first whole window on, lies among the true ranges of its last `period` candles, and
   * moves by an equal share of what enters and leaves that window.
   */
  lemma AtrIsCentral(candles: seq<Candle>, period: nat, i: nat, lo: real, hi: real, ranges: seq<real>)
    requires period > 0 && i < |candles| && ranges == TrueRanges(candles)
    requires forall k | 0 <= k <= i && i < k + period :: lo <= ranges[k] <= hi
    ensures var atr := Atr(candles, period);
            && (atr[i].Some? <==> period <= i + 1)
            && (period <= i + 1 ==> lo <= atr[i].value <= hi)
            && (period <= i ==>
                  && atr[i - 1].Some?
                  && Amount(atr[i].value - atr[i - 1].value, period as real) == ranges[i] - ranges[i - period])
  {
    hide TrueRanges, Atr, Amount, Mean;
    AtrAt(candles, period, i, ranges);
    if period <= i + 1 { RollingMeanIsCentral(ranges, period, i, lo, hi); }
    if period <= i {
      AtrAt(candles, period, i - 1, ranges);
      RollingMeanSlides(ranges, period, i);
    }
  }

  lemma ShareBetween(sum: real, n: nat, lo: real, hi: real)
    requires n > 0 && n as real * lo <= sum <= n as real * hi
    ensures lo <= sum / n as real <= hi
  {
  }

  lemma SharesDiffer(a: real, b: real, n: nat)
    requires n > 0
    ensures (a / n as real - b / n as real) * n as real == a - b
  {
  }

  function Closes(candles: seq<Candle>): (r: seq<real>)
    ensures |r| == |candles|
  {
    seq(|candles|, i requires 0 <= i < |candles| => candles[i].close)
  }

  lemma ClosesAre(candles: seq<Candle>, closes: seq<real>)
    requires |closes| == |candles| && forall i | 0 <= i < |candles| :: closes[i] == candles[i].close
    ensures closes == Closes(candles)
  {
  }

  function Highs(candles: seq<Candle>): (r: seq<real>)
    ensures |r| == |candles|
  {
    seq(|candles|, i requires 0 <= i < |candles| => candles[i].high)
  }

  function Lows(candles: seq<Candle>): (r: seq<real>)
    ensures |r| == |candles|
  {
    seq(|candles|, i requires 0 <= i < |candles| => candles[i].low)
  }

  // ----- Several candles as one -----------------------------------------------------------------------------------

  /**
   * One candle for many: it opens as the first and closes as the last, reaches exactly as high and as low as any of
   * them, and carries all their volume.
   */
  ghost predicate Aggregates(c: Candle, part: seq<Candle>)
    requires part != []
  {
    && c.open == part[0].open && c.close == part[|part| - 1].close
    && (exists m | m in part :: m.high == c.high) && (forall m | m in part :: m.high <= c.high)
    && (exists m | m in part :: m.low == c.low) && (forall m | m in part :: m.low >= c.low)
    && c.volume == TotalVolume(part)
  }

  /** The highest high and the lowest low are reached, and by no candle exceeded. */
  lemma ExtremesOf(part: seq<Candle>)
    requires part != []
    ensures exists m | m in part :: m.high == Maximum(Highs(part))
    ensures forall m | m in part :: m.high <= Maximum(Highs(part))
    ensures exists m | m in part :: m.low == Minimum(Lows(part))
    ensures forall m | m in part :: m.low >= Minimum(Lows(part))
  {
    var highs, lows := Highs(part), Lows(part);
    forall m | m in part ensures m.high in highs && m.low in lows {
      var i :| 0 <= i < |part| && part[i] == m;
      assert highs[i] == m.high && lows[i] == m.low;
    }
    var i :| 0 <= i < |part| && highs[i] == Maximum(highs);
    var j :| 0 <= j < |part| && lows[j] == Minimum(lows);
    assert part[i] in part && part[j] in part;
  }
}
