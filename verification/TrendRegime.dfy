// Trend following with one entry per cycle (research/candidates/trend_regime.py): each call scans back for
// the crossover and forward for the first confirmation; over all calls this is a forward state machine.

module TrendRegime {
  import opened Common
  import opened ExchangeFilters
  import opened Indicators
  import opened BreakoutGate

  datatype Params = Params(fast: nat, slow: nat, atrPeriod: nat, minStrength: real)

  predicate ValidParams(p: Params) {
    0 < p.fast < p.slow && p.atrPeriod > 0 && p.minStrength >= 0.0
  }

  function MinRequired(p: Params): nat {
    Larger(p.slow, p.atrPeriod) + 1
  }

  /** Separation of the averages in units of range; no range means no strength. */
  function Strength(fast: real, slow: real, atr: Option<real>): real {
    if atr.Some? && atr.value > 0.0 then Abs(fast - slow) / atr.value else 0.0
  }

  /** Where the fast average is above the slow one. */
  function Bullish(p: Params, candles: seq<Candle>): (r: seq<bool>)
    requires ValidParams(p)
    ensures |r| == |candles|
  {
    var fast, slow := Ema(Closes(candles), p.fast), Ema(Closes(candles), p.slow);
    seq(|candles|, i requires 0 <= i < |candles| => fast[i] > slow[i])
  }

  /** Where the separation reaches the declared strength. */
  function Strong(p: Params, candles: seq<Candle>): (r: seq<bool>)
    requires ValidParams(p)
    ensures |r| == |candles|
  {
    var fast, slow, atr := Ema(Closes(candles), p.fast), Ema(Closes(candles), p.slow), Atr(candles, p.atrPeriod);
    seq(|candles|, i requires 0 <= i < |candles| => Strength(fast[i], slow[i], atr[i]) >= p.minStrength)
  }

  predicate BearishCross(p: Params, candles: seq<Candle>, i: nat)
    requires ValidParams(p) && 0 < i < |candles|
  {
    var fast, slow := Ema(Closes(candles), p.fast), Ema(Closes(candles), p.slow);
    fast[i - 1] >= slow[i - 1] && fast[i] < slow[i]
  }

  // ----- The rescan ----------------------------------------------------------------------------------------

  /** Scanning back from `k`: the latest index above `earliest` whose predecessor was not bullish. */
  function LastCrossover(bullish: seq<bool>, k: nat, earliest: nat): Option<nat>
    requires k < |bullish|
  {
    if k <= earliest then None
    else if !bullish[k - 1] then Some(k)
    else LastCrossover(bullish, k - 1, earliest)
  }

  /** Scanning forward: the first strong index from `k` up to `current`. */
  function FirstStrong(strong: seq<bool>, k: nat, current: nat): (r: Option<nat>)
    requires current < |strong|
    ensures r.Some? ==> k <= r.value <= current
    decreases current + 1 - k
  {
    if k > current then None
    else if strong[k] then Some(k)
    else FirstStrong(strong, k + 1, current)
  }

  function TrendSignal(p: Params, candles: seq<Candle>, position: PositionSide): Result<SignalType, StrategyError>
    requires ValidParams(p)
  {
    if |candles| < MinRequired(p) then Err(InsufficientData(MinRequired(p)))
    else
      var i := |candles| - 1;
      if !Bullish(p, candles)[i] then
        Ok(if BearishCross(p, candles, i) && position == Long then Exit else Hold)
      else match LastCrossover(Bullish(p, candles), i, MinRequired(p) - 1)
        case None => Ok(Hold)
        case Some(x) => Ok(if position == Flat && FirstStrong(Strong(p, candles), x, i) == Some(i) then Buy else Hold)
  }

  method GenerateSignal(p: Params, candles: seq<Candle>, position: PositionSide)
    returns (r: Result<SignalType, StrategyError>)
    requires ValidParams(p)
    ensures r == TrendSignal(p, candles, position)
  {
    hide Bullish, Strong, BearishCross;
    if |candles| < MinRequired(p) { return Err(InsufficientData(MinRequired(p))); }
    var bullish, strong := Bullish(p, candles), Strong(p, candles);
    var current, earliest := |candles| - 1, MinRequired(p) - 1;
    if !bullish[current] {
      if BearishCross(p, candles, current) {
        return Ok(if position == Flat then Hold else Exit);
      }
      return Ok(Hold);
    }
    var crossover: Option<nat> := None;
    var k := current;
    while k > earliest
      invariant crossover.None? && earliest <= k <= current
      invariant LastCrossover(bullish, current, earliest) == LastCrossover(bullish, k, earliest)
    {
      if !bullish[k - 1] {
        crossover := Some(k);
        break;
      }
      k := k - 1;
    }
    assert crossover == LastCrossover(bullish, current, earliest);
    if crossover.None? { return Ok(Hold); }
    var confirmation: Option<nat> := None;
    var j := crossover.value;
    while j <= current
      invariant confirmation.None? && crossover.value <= j <= current + 1
      invariant FirstStrong(strong, crossover.value, current) == FirstStrong(strong, j, current)
    {
      if strong[j] {
        confirmation := Some(j);
        break;
      }
      j := j + 1;
    }
    assert confirmation == FirstStrong(strong, crossover.value, current);
    if confirmation.None? { return Ok(Hold); }
    if position == Long { return Ok(Hold); }
    r := Ok(if confirmation.value == current then Buy else Hold);
  }

  // ----- The forward machine ----------------------------------------------------------------------------------

  /** A cycle never seen to begin, none, one begun, its single entry, and its remainder. */
  datatype Cycle = Unobserved | Neutral | Armed | Entering | Entered

  function NextCycle(c: Cycle, bullish: bool, strong: bool): Cycle {
    if !bullish then Neutral
    else match c
      case Unobserved => Unobserved
      case Neutral => if strong then Entering else Armed
      case Armed => if strong then Entering else Armed
      case Entering => Entered
      case Entered => Entered
  }

  function CycleAt(bullish: seq<bool>, strong: seq<bool>, earliest: nat, i: nat): Cycle
    requires earliest <= i < |bullish| == |strong|
  {
    if i == earliest then (if bullish[i] then Unobserved else Neutral)
    else NextCycle(CycleAt(bullish, strong, earliest, i - 1), bullish[i], strong[i])
  }

  /** What the rescan finds at an index, as a state of the machine. */
  function Rescan(bullish: seq<bool>, strong: seq<bool>, earliest: nat, i: nat): Cycle
    requires earliest <= i < |bullish| == |strong|
  {
    if !bullish[i] then Neutral
    else match LastCrossover(bullish, i, earliest)
      case None => Unobserved
      case Some(x) =>
        match FirstStrong(strong, x, i)
        case None => Armed
        case Some(j) => if j == i then Entering else Entered
  }

  lemma {:induction false} FirstStrongExtends(strong: seq<bool>, x: nat, i: nat)
    requires x <= i < |strong| && i > 0
    ensures FirstStrong(strong, x, i)
         == if x < i && FirstStrong(strong, x, i - 1).Some? then FirstStrong(strong, x, i - 1)
            else if strong[i] then Some(i) else None
    decreases i - x
  {
    if x < i && !strong[x] {
      FirstStrongExtends(strong, x + 1, i);
      if x + 1 == i { assert FirstStrong(strong, i, i - 1) == None; }
    }
  }

  lemma {:induction false} CrossoverIsBelow(bullish: seq<bool>, k: nat, earliest: nat)
    requires k < |bullish|
    ensures var x := LastCrossover(bullish, k, earliest);
            && (x.Some? ==>
                  earliest < x.value <= k && !bullish[x.value - 1] && forall i | x.value <= i < k :: bullish[i])
            && (x.None? ==> forall i | earliest <= i < k :: bullish[i])
  {
    if k > earliest && bullish[k - 1] { CrossoverIsBelow(bullish, k - 1, earliest); }
  }

  /** The rescan is the machine, at every index. */
  lemma {:induction false} RescanRefinesMachine(bullish: seq<bool>, strong: seq<bool>, earliest: nat, i: nat)
    requires earliest <= i < |bullish| == |strong|
    ensures Rescan(bullish, strong, earliest, i) == CycleAt(bullish, strong, earliest, i)
  {
    if i > earliest {
      RescanRefinesMachine(bullish, strong, earliest, i - 1);
      if bullish[i] {
        CrossoverIsBelow(bullish, i, earliest);
        var x := LastCrossover(bullish, i, earliest);
        if x.Some? { FirstStrongExtends(strong, x.value, i); }
      }
    }
  }

  // ----- Every call over every prefix -----------------------------------------------------------------------------

  lemma SeriesAreCausal(p: Params, candles: seq<Candle>, n: nat)
    requires ValidParams(p) && n <= |candles|
    ensures Bullish(p, candles[..n]) == Bullish(p, candles)[..n]
    ensures Strong(p, candles[..n]) == Strong(p, candles)[..n]
  {
    hide Ema, Atr;
    assert Closes(candles[..n]) == Closes(candles)[..n];
    EmaIsCausal(Closes(candles), p.fast, n);
    EmaIsCausal(Closes(candles), p.slow, n);
    AtrIsCausal(candles, p.atrPeriod, n);
  }

  lemma {:induction false} CycleIsCausal(bullish: seq<bool>, strong: seq<bool>, earliest: nat, i: nat, n: nat)
    requires earliest <= i < n <= |bullish| == |strong|
    ensures CycleAt(bullish[..n], strong[..n], earliest, i) == CycleAt(bullish, strong, earliest, i)
  {
    if i > earliest { CycleIsCausal(bullish, strong, earliest, i - 1, n); }
  }

  /** The machine over a whole history, from the first index the strategy may look at. */
  function CycleOf(p: Params, candles: seq<Candle>, i: nat): Cycle
    requires ValidParams(p) && MinRequired(p) - 1 <= i < |candles|
  {
    CycleAt(Bullish(p, candles), Strong(p, candles), MinRequired(p) - 1, i)
  }

  /** Flat, the strategy says BUY after `n` candles exactly when the machine enters there; it never exits flat. */
  lemma BuysExactlyOnEntering(p: Params, candles: seq<Candle>, n: nat)
    requires ValidParams(p) && MinRequired(p) <= n <= |candles|
    ensures TrendSignal(p, candles[..n], Flat) == Ok(if CycleOf(p, candles, n - 1) == Entering then Buy else Hold)
  {
    hide Bullish, Strong, BearishCross;
    var earliest, i := MinRequired(p) - 1, n - 1;
    SeriesAreCausal(p, candles, n);
    var bullish, strong := Bullish(p, candles), Strong(p, candles);
    CycleIsCausal(bullish, strong, earliest, i, n);
    RescanRefinesMachine(bullish[..n], strong[..n], earliest, i);
  }

  /** The fast average is above the slow one from `x` on, and was not just before. */
  ghost predicate RoseAbove(fast: seq<real>, slow: seq<real>, x: nat, i: nat)
    requires i < |fast| == |slow|
  {
    0 < x <= i && fast[x - 1] <= slow[x - 1] && forall k | x <= k <= i :: fast[k] > slow[k]
  }

  /** The averages are at least `least` ranges apart; without a range, only if none is asked for. */
  ghost predicate Apart(fast: real, slow: real, atr: Option<real>, least: real) {
    if atr.Some? && atr.value > 0.0 then Abs(fast - slow) >= least * atr.value else least <= 0.0
  }

  /** Of all candles since the rise at `x`, the first with the averages that far apart is `i`. */
  ghost predicate FirstApart(fast: seq<real>, slow: seq<real>, atr: seq<Option<real>>, least: real, x: nat, i: nat)
    requires i < |fast| == |slow| == |atr|
  {
    RoseAbove(fast, slow, x, i) && forall k | x <= k <= i :: Apart(fast[k], slow[k], atr[k], least) <==> k == i
  }

  /** A rise seen at `x`, unbroken up to `i`, is what scanning back from `i` finds. */
  lemma RescanFindsRise(fast: seq<real>, slow: seq<real>, bullish: seq<bool>, earliest: nat, x: nat, i: nat)
    requires earliest < x && i < |fast| == |slow| == |bullish|
    requires forall k | 0 <= k < |bullish| :: bullish[k] <==> fast[k] > slow[k]
    requires RoseAbove(fast, slow, x, i)
    ensures LastCrossover(bullish, i, earliest) == Some(x)
  {
    CrossoverIsBelow(bullish, i, earliest);
    var found := LastCrossover(bullish, i, earliest);
    assert !bullish[x - 1] && forall k | x <= k <= i :: bullish[k];
  }

  /** The rescan enters exactly at the first index of a rise with the averages far enough apart. */
  lemma EntersExactlyAtFirstApart(fast: seq<real>, slow: seq<real>, atr: seq<Option<real>>, least: real,
                                  bullish: seq<bool>, strong: seq<bool>, earliest: nat, i: nat)
    requires earliest <= i < |fast| == |slow| == |atr| == |bullish| == |strong|
    requires forall k | 0 <= k < |bullish| :: bullish[k] <==> fast[k] > slow[k]
    requires forall k | 0 <= k < |strong| :: strong[k] <==> Apart(fast[k], slow[k], atr[k], least)
    ensures Rescan(bullish, strong, earliest, i) == Entering <==>
              exists x: nat | earliest < x :: FirstApart(fast, slow, atr, least, x, i)
  {
    hide Apart;
    CrossoverIsBelow(bullish, i, earliest);
    var found := LastCrossover(bullish, i, earliest);
    if found.Some? && bullish[i] {
      FirstStrongIsFirst(strong, found.value, i);
      assert RoseAbove(fast, slow, found.value, i);
      if FirstStrong(strong, found.value, i) == Some(i) { assert FirstApart(fast, slow, atr, least, found.value, i); }
    }
    if x: nat :| earliest < x && FirstApart(fast, slow, atr, least, x, i) {
      RescanFindsRise(fast, slow, bullish, earliest, x, i);
      assert bullish[i] && strong[i];
    }
  }

  lemma BuysAtFirstApart(p: Params, candles: seq<Candle>, n: nat, fast: seq<real>, slow: seq<real>,
                         atr: seq<Option<real>>)
    requires ValidParams(p) && p.slow < n <= |candles| && p.atrPeriod < n
    requires fast == Ema(Closes(candles), p.fast) && slow == Ema(Closes(candles), p.slow)
    requires atr == Atr(candles, p.atrPeriod)
    ensures var i := n - 1;
            TrendSignal(p, candles[..n], Flat) == Ok(Buy) <==>
              exists x: nat | p.slow < x && p.atrPeriod < x :: FirstApart(fast, slow, atr, p.minStrength, x, i)
  {
    hide Ema, Atr, TrendSignal, Apart, FirstApart, Rescan;
    var earliest, i := MinRequired(p) - 1, n - 1;
    var bullish, strong := Bullish(p, candles), Strong(p, candles);
    BuysExactlyOnEntering(p, candles, n);
    RescanRefinesMachine(bullish, strong, earliest, i);
    forall k | 0 <= k < |candles| ensures strong[k] <==> Apart(fast[k], slow[k], atr[k], p.minStrength) {
      StrengthIsDistance(fast[k], slow[k], atr[k], p.minStrength);
    }
    EntersExactlyAtFirstApart(fast, slow, atr, p.minStrength, bullish, strong, earliest, i);
  }

  /**
   * Flat, over every prefix of one history and in terms of its averages alone: BUY exactly at the first candle since
   * the fast average was seen to rise above the slow one on which the two are far enough apart.
   */
  lemma BuysAtFirstStrengthSinceRising(p: Params, candles: seq<Candle>, n: nat, closes: seq<real>, fast: seq<real>,
                                       slow: seq<real>, atr: seq<Option<real>>)
    requires ValidParams(p) && p.slow < n <= |candles| && p.atrPeriod < n
    requires |closes| == |candles| && forall i | 0 <= i < |candles| :: closes[i] == candles[i].close
    requires fast == Ema(closes, p.fast) && slow == Ema(closes, p.slow) && atr == Atr(candles, p.atrPeriod)
    ensures var i := n - 1;
            TrendSignal(p, candles[..n], Flat) == Ok(Buy) <==>
              exists x: nat | p.slow < x && p.atrPeriod < x :: FirstApart(fast, slow, atr, p.minStrength, x, i)
  {
    hide Ema, Atr, TrendSignal, FirstApart, Closes;
    ClosesAre(candles, closes);
    BuysAtFirstApart(p, candles, n, fast, slow, atr);
  }

  lemma StrengthIsDistance(fast: real, slow: real, atr: Option<real>, least: real)
    ensures Strength(fast, slow, atr) >= least <==> Apart(fast, slow, atr, least)
  {
    if atr.Some? && atr.value > 0.0 {
      var distance, range := Abs(fast - slow), atr.value;
      assert distance / range * range == distance;
      if distance / range >= least { Scale(least, distance / range, range); }
      if distance / range < least { Scale(distance / range, least, range); }
    }
  }

  lemma {:induction false} FirstStrongIsFirst(strong: seq<bool>, k: nat, current: nat)
    requires current < |strong|
    ensures var r := FirstStrong(strong, k, current);
            && (r.Some? ==> strong[r.value] && forall j | k <= j < r.value :: !strong[j])
            && (r.None? ==> forall j | k <= j <= current :: !strong[j])
    decreases current + 1 - k
  {
    if k <= current && !strong[k] { FirstStrongIsFirst(strong, k + 1, current); }
  }

  /**
   * Long, over every prefix of one history: EXIT exactly on the candle where the fast average falls below the slow.
   * A prefix too short for its averages is refused, whatever the position.
   */
  lemma ExitsExactlyOnFallingBelow(p: Params, candles: seq<Candle>, n: nat, closes: seq<real>)
    requires ValidParams(p) && n <= |candles|
    requires |closes| == |candles| && forall i | 0 <= i < |candles| :: closes[i] == candles[i].close
    ensures n <= p.slow || n <= p.atrPeriod <==> TrendSignal(p, candles[..n], Long).Err?
    ensures TrendSignal(p, candles[..n], Flat).Err? <==> TrendSignal(p, candles[..n], Long).Err?
    ensures n > p.slow && n > p.atrPeriod ==>
              var fast, slow := Ema(closes, p.fast), Ema(closes, p.slow);
              var fell := fast[n - 2] >= slow[n - 2] && fast[n - 1] < slow[n - 1];
              TrendSignal(p, candles[..n], Long) == Ok(if fell then Exit else Hold)
  {
    hide Ema, Atr;
    assert closes == Closes(candles) && Closes(candles[..n]) == closes[..n];
    EmaIsCausal(closes, p.fast, n);
    EmaIsCausal(closes, p.slow, n);
  }

  /** While a run lasts, an entry stays behind: the machine cannot enter twice without leaving the bullish state. */
  lemma {:induction false} EntryIsOncePerRun(bullish: seq<bool>, strong: seq<bool>, earliest: nat, i: nat, j: nat)
    requires earliest <= i < j < |bullish| == |strong|
    requires CycleAt(bullish, strong, earliest, i) == Entering && forall k | i < k <= j :: bullish[k]
    ensures CycleAt(bullish, strong, earliest, j) == Entered
  {
    if j > i + 1 { EntryIsOncePerRun(bullish, strong, earliest, i, j - 1); }
  }

  /** A crossover at `x`, with the bullish state unbroken from there up to `n`. */
  predicate CrossedAt(bullish: seq<bool>, x: nat, n: nat) {
    0 < x < n <= |bullish| && !bullish[x - 1] && forall k | x <= k < n :: bullish[k]
  }

  /**
   * Two BUYs of one history are separated by a candle that was not bullish, and each follows a crossover
   * inside the visible history, with the bullish state unbroken since.
   */
  lemma BuysNeedFreshObservedCycles(p: Params, candles: seq<Candle>, n: nat, m: nat)
    requires ValidParams(p) && MinRequired(p) <= n <= m <= |candles|
    requires TrendSignal(p, candles[..n], Flat) == Ok(Buy) && TrendSignal(p, candles[..m], Flat) == Ok(Buy)
    ensures n < m ==> exists k :: n <= k < m && !Bullish(p, candles)[k]
    ensures exists x :: MinRequired(p) <= x && CrossedAt(Bullish(p, candles), x, n)
  {
    hide Bullish, Strong, TrendSignal;
    var bullish, strong, earliest := Bullish(p, candles), Strong(p, candles), MinRequired(p) - 1;
    BuysExactlyOnEntering(p, candles, n);
    BuysExactlyOnEntering(p, candles, m);
    if n < m && forall k | n <= k < m :: bullish[k] {
      EntryIsOncePerRun(bullish, strong, earliest, n - 1, m - 1);
    }
    RescanRefinesMachine(bullish, strong, earliest, n - 1);
    CrossoverIsBelow(bullish, n - 1, earliest);
    var x := LastCrossover(bullish, n - 1, earliest).value;
    assert CrossedAt(bullish, x, n);
  }
}
