// The channel breakout (research/candidates/volatility_breakout.py) and the same breakout behind a bullish
// regime gate (research/candidates/breakout_regime_gate.py), each recomputed from the whole history it is shown.

module BreakoutGate {
  import opened Common
  import opened Indicators

  const EMA_REGIME_PERIOD := 200
  const EMA_REGIME_SLOPE_LOOKBACK := 20

  /** The parameters of the breakout; its periods are positive. */
  datatype Breakout = Breakout(channel: nat, atrPeriod: nat, multiple: real)

  predicate ValidBreakout(b: Breakout) {
    b.channel > 0 && b.atrPeriod > 0 && b.multiple >= 0.0
  }

  function BreakoutMinRequired(b: Breakout): nat {
    Larger(b.channel + 1, b.atrPeriod)
  }

  datatype StrategyError = InsufficientData(needed: nat)

  /** Strictly above the channel, by a fraction of the range when there is any; an undefined range confirms nothing. */
  predicate ConfirmedBreakout(close: real, channelHigh: real, atr: Option<real>, multiple: real) {
    close - channelHigh > 0.0 && atr.Some? && (atr.value <= 0.0 || close - channelHigh >= multiple * atr.value)
  }

  function BreakoutSignal(b: Breakout, candles: seq<Candle>, position: PositionSide): Result<SignalType, StrategyError>
    requires ValidBreakout(b)
  {
    if |candles| < BreakoutMinRequired(b) then Err(InsufficientData(BreakoutMinRequired(b)))
    else
      var n := |candles|;
      var close := Last(candles).close;
      var preceding := candles[n - (b.channel + 1)..n - 1];
      var atr := Last(Atr(candles, b.atrPeriod));
      if position == Flat then
        Ok(if ConfirmedBreakout(close, Maximum(Highs(preceding)), atr, b.multiple) then Buy else Hold)
      else
        Ok(if close < Minimum(Lows(preceding)) then Exit else Hold)
  }

  function GateMinRequired(b: Breakout): nat {
    Larger(BreakoutMinRequired(b), EMA_REGIME_PERIOD + EMA_REGIME_SLOPE_LOOKBACK)
  }

  /** The last close above a rising average. */
  predicate AboveRisingEma(candles: seq<Candle>)
    requires |candles| > EMA_REGIME_SLOPE_LOOKBACK
  {
    var ema := Ema(Closes(candles), EMA_REGIME_PERIOD);
    var i := |candles| - 1;
    candles[i].close > ema[i] > ema[i - EMA_REGIME_SLOPE_LOOKBACK]
  }

  function GateSignal(b: Breakout, candles: seq<Candle>, position: PositionSide): Result<SignalType, StrategyError>
    requires ValidBreakout(b)
  {
    if |candles| < GateMinRequired(b) then Err(InsufficientData(GateMinRequired(b)))
    else match BreakoutSignal(b, candles, position)
      case Err(error) => Err(error)
      case Ok(signal) => Ok(if signal == Buy && !AboveRisingEma(candles) then Hold else signal)
  }

  /** The highest price of a stretch of candles: reached, and exceeded by none of them. */
  ghost predicate Tops(candles: seq<Candle>, high: real) {
    (exists c | c in candles :: c.high == high) && forall c | c in candles :: c.high <= high
  }

  ghost predicate Bottoms(candles: seq<Candle>, low: real) {
    (exists c | c in candles :: c.low == low) && forall c | c in candles :: c.low >= low
  }

  /** The close is above the level by enough of the average range; a range of zero asks for nothing more. */
  ghost predicate Breaks(close: real, level: real, atr: Option<real>, multiple: real) {
    close > level && atr.Some? && (atr.value > 0.0 ==> close - level >= multiple * atr.value)
  }

  /** The close at `i` is above its average, and the average above what it was twenty candles before. */
  ghost predicate AboveRising(closes: seq<real>, ema: seq<real>, i: nat)
    requires 20 <= i < |closes| == |ema|
  {
    closes[i] > ema[i] && ema[i] > ema[i - 20]
  }

  /**
   * What the gated breakout answers: flat, BUY exactly on a close that breaks the range of the channel before it while
   * above a rising average; long, EXIT exactly on a close below that range, whatever the regime.
   */
  lemma GateAnswersFromChannel(b: Breakout, candles: seq<Candle>, low: real, high: real, closes: seq<real>,
                               ema: seq<real>, atr: seq<Option<real>>)
    requires ValidBreakout(b) && |candles| > b.channel && |candles| >= b.atrPeriod && |candles| >= 220
    requires var channel := candles[|candles| - 1 - b.channel..|candles| - 1];
             Bottoms(channel, low) && Tops(channel, high)
    requires |closes| == |candles| && forall i | 0 <= i < |candles| :: closes[i] == candles[i].close
    requires ema == Ema(closes, 200) && atr == Atr(candles, b.atrPeriod)
    ensures var i := |candles| - 1;
            && GateSignal(b, candles, Flat)
               == Ok(if Breaks(closes[i], high, atr[i], b.multiple) && AboveRising(closes, ema, i) then Buy else Hold)
            && GateSignal(b, candles, Long) == Ok(if closes[i] < low then Exit else Hold)
  {
    hide Ema, Atr, Closes, Tops, Bottoms, GateSignal, Breaks;
    ClosesAre(candles, closes);
    ExtremesAre(candles[|candles| - 1 - b.channel..|candles| - 1], low, high);
    GateAnswer(b, candles, low, high, ema, atr);
    assert closes[|candles| - 1] == candles[|candles| - 1].close;
  }

  lemma GateAnswer(b: Breakout, candles: seq<Candle>, low: real, high: real, ema: seq<real>, atr: seq<Option<real>>)
    requires ValidBreakout(b) && |candles| > b.channel && |candles| >= b.atrPeriod && |candles| >= 220
    requires var channel := candles[|candles| - 1 - b.channel..|candles| - 1];
             low == Minimum(Lows(channel)) && high == Maximum(Highs(channel))
    requires ema == Ema(Closes(candles), 200) && atr == Atr(candles, b.atrPeriod)
    ensures var i := |candles| - 1; var close := candles[i].close;
            && GateSignal(b, candles, Flat)
               == Ok(if Breaks(close, high, atr[i], b.multiple) && close > ema[i] > ema[i - 20] then Buy else Hold)
            && GateSignal(b, candles, Long) == Ok(if close < low then Exit else Hold)
  {
    hide Ema, Atr, Closes, Maximum, Minimum, Highs, Lows;
    assert Last(candles) == candles[|candles| - 1] && Last(atr) == atr[|candles| - 1];
  }

  lemma ExtremesAre(candles: seq<Candle>, low: real, high: real)
    requires candles != []
    ensures Tops(candles, high) <==> high == Maximum(Highs(candles))
    ensures Bottoms(candles, low) <==> low == Minimum(Lows(candles))
  {
    ExtremesOf(candles);
  }

  lemma ShortHistoryIsRefused(b: Breakout, candles: seq<Candle>, position: PositionSide)
    requires ValidBreakout(b)
    ensures GateSignal(b, candles, position).Err? <==>
              |candles| <= b.channel || |candles| < b.atrPeriod || |candles| < 220
  {
  }

  /** The strategy object: its two counters never influence the answer. */
  class BreakoutWithBullishRegimeGate {
    const breakout: Breakout
    var evaluated: nat
    var blocked: nat

    constructor (breakout: Breakout)
      requires ValidBreakout(breakout)
      ensures this.breakout == breakout && evaluated == blocked == 0
    {
      this.breakout, evaluated, blocked := breakout, 0, 0;
    }

    method GenerateSignal(candles: seq<Candle>, position: PositionSide) returns (r: Result<SignalType, StrategyError>)
      requires ValidBreakout(breakout)
      modifies this
      ensures r == GateSignal(breakout, candles, position)
      ensures evaluated - old(evaluated)
           == if r.Ok? && BreakoutSignal(breakout, candles, position) == Ok(Buy) then 1 else 0
      ensures blocked - old(blocked)
           == if r == Ok(Hold) && BreakoutSignal(breakout, candles, position) == Ok(Buy) then 1 else 0
    {
      if |candles| < GateMinRequired(breakout) { return Err(InsufficientData(GateMinRequired(breakout))); }
      var signal := BreakoutSignal(breakout, candles, position);
      if signal != Ok(Buy) { return signal; }
      evaluated := evaluated + 1;
      if AboveRisingEma(candles) { return Ok(Buy); }
      blocked := blocked + 1;
      r := Ok(Hold);
    }
  }
}
