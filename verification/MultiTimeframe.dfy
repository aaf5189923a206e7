// The hourly confirmation of four-hour breakouts under a weekly filter
// (research/candidates/multitimeframe_breakout.py): every call recomputes everything from the history it is
// shown; the theorems are about all calls over all prefixes of one history.

module MultiTimeframe {
  import opened Common
  import opened Grid
  import opened GapDetection
  import opened Indicators
  import opened BreakoutGate
  import opened Buckets

  const WEEKLY_EMA_PERIOD := 40
  const WEEKLY_SLOPE_LOOKBACK := 4
  const CHANNEL_PERIOD := 20
  const ATR_PERIOD := 14
  const BREAKOUT_MULTIPLE := 0.25
  const CONFIRMATION_WINDOW := 4

  const FOUR_H_BREAKOUT := Breakout(CHANNEL_PERIOD, ATR_PERIOD, BREAKOUT_MULTIPLE)

  function BucketCandles(buckets: seq<Bucket>): (r: seq<Candle>)
    ensures |r| == |buckets|
  {
    seq(|buckets|, i requires 0 <= i < |buckets| => buckets[i].candle)
  }

  // ----- Weekly filter -------------------------------------------------------------------------------------

  predicate WeeklyBullish(weeks: seq<Candle>) {
    |weeks| >= WEEKLY_EMA_PERIOD + WEEKLY_SLOPE_LOOKBACK
    && var ema := Ema(Closes(weeks), WEEKLY_EMA_PERIOD);
       var i := |weeks| - 1;
       weeks[i].close > ema[i] > ema[i - WEEKLY_SLOPE_LOOKBACK]
  }

  method WeeklyFilterBullish(candles: seq<Candle>) returns (bullish: bool)
    ensures bullish == WeeklyBullish(BucketCandles(GroupsFrom(WEEKLY, candles, 0)))
  {
    hide GroupsFrom, Ema, Closes;
    var buckets := AggregateCompletedBuckets(WEEKLY, candles);
    var weeks := BucketCandles(buckets);
    if |weeks| < WEEKLY_EMA_PERIOD + WEEKLY_SLOPE_LOOKBACK { return false; }
    var ema := Ema(Closes(weeks), WEEKLY_EMA_PERIOD);
    var i := |weeks| - 1;
    bullish := weeks[i].close > ema[i] > ema[i - WEEKLY_SLOPE_LOOKBACK];
  }

  // ----- Four-hour setups --------------------------------------------------------------------------------------

  const MIN_FOUR_H_INDEX: nat := Larger(Larger(CHANNEL_PERIOD, ATR_PERIOD - 1),
                                       EMA_REGIME_PERIOD + EMA_REGIME_SLOPE_LOOKBACK - 1)

  /** The breakout level of a setup confirmed by the four-hour candle at `i`, from full-series indicators. */
  function SetupAt(candles: seq<Candle>, i: nat): Option<real>
    requires MIN_FOUR_H_INDEX <= i < |candles|
  {
    var channelHigh := RollingMax(Highs(candles), CHANNEL_PERIOD)[i - 1];
    var atr := Atr(candles, ATR_PERIOD)[i];
    var ema := Ema(Closes(candles), EMA_REGIME_PERIOD);
    var close := candles[i].close;
    if channelHigh.None? then None
    else if !ConfirmedBreakout(close, channelHigh.value, atr, BREAKOUT_MULTIPLE) then None
    else if !(close > ema[i] > ema[i - EMA_REGIME_SLOPE_LOOKBACK]) then None
    else channelHigh
  }

  /** A setup armed after its hour, for the next hours. */
  datatype Setup = Setup(hour: nat, level: real)

  function WindowStart(s: Setup): nat { s.hour + 1 }

  function WindowEnd(s: Setup): nat { s.hour + CONFIRMATION_WINDOW }

  predicate Armed(s: Setup, hour: int) { WindowStart(s) <= hour <= WindowEnd(s) }

  predicate Confirms(c: Candle, level: real) {
    c.close > level && c.close > c.open
  }

  /** The first confirming hour from `first` up to and including `last`. */
  function FirstConfirmation(candles: seq<Candle>, level: real, first: int, last: int): Option<nat>
    requires 0 <= first && last < |candles|
    decreases last - first
  {
    if first > last then None
    else if Confirms(candles[first], level) then Some(first)
    else FirstConfirmation(candles, level, first + 1, last)
  }

  function ConfirmationOf(candles: seq<Candle>, s: Setup): Option<nat> {
    FirstConfirmation(candles, s.level, WindowStart(s), Smaller(WindowEnd(s), |candles| - 1))
  }

  /** Every setup, each judged when its own bucket was the latest. */
  function SetupsOf(buckets: seq<Bucket>): seq<Setup> {
    if |buckets| <= MIN_FOUR_H_INDEX then []
    else
      var n := |buckets| - 1;
      match SetupAt(BucketCandles(buckets), n)
      case None => SetupsOf(buckets[..n])
      case Some(level) => SetupsOf(buckets[..n]) + [Setup(buckets[n].lastHour, level)]
  }

  /** Full-series indicators show the same at an index as the prefix that ends there. */
  lemma SetupIsCausal(candles: seq<Candle>, i: nat)
    requires MIN_FOUR_H_INDEX <= i < |candles|
    ensures SetupAt(candles[..i + 1], i) == SetupAt(candles, i)
  {
    var n := i + 1;
    assert Highs(candles[..n]) == Highs(candles)[..n] && Closes(candles[..n]) == Closes(candles)[..n];
    RollingMaxIsCausal(Highs(candles), CHANNEL_PERIOD, n);
    AtrIsCausal(candles, ATR_PERIOD, n);
    EmaIsCausal(Closes(candles), EMA_REGIME_PERIOD, n);
    PrefixAt(RollingMax(Highs(candles), CHANNEL_PERIOD), n, i - 1);
    PrefixAt(Atr(candles, ATR_PERIOD), n, i);
    PrefixAt(Ema(Closes(candles), EMA_REGIME_PERIOD), n, i);
    PrefixAt(Ema(Closes(candles), EMA_REGIME_PERIOD), n, i - EMA_REGIME_SLOPE_LOOKBACK);
  }

  lemma PrefixAt<T>(s: seq<T>, n: nat, i: nat)
    requires i < n <= |s|
    ensures s[..n][i] == s[i]
  {
  }

  lemma SetupsStep(buckets: seq<Bucket>, i: nat)
    requires MIN_FOUR_H_INDEX <= i < |buckets|
    ensures SetupsOf(buckets[..i + 1]) == SetupsOf(buckets[..i])
            + match SetupAt(BucketCandles(buckets), i)
              case None => []
              case Some(level) => [Setup(buckets[i].lastHour, level)]
  {
    hide SetupAt;
    var prefix := buckets[..i + 1];
    assert prefix[..i] == buckets[..i];
    assert BucketCandles(prefix) == BucketCandles(buckets)[..i + 1];
    SetupIsCausal(BucketCandles(buckets), i);
  }

  datatype SetupEvent = SetupEvent(setup: Setup, confirmation: Option<nat>)

  function EventsOf(candles: seq<Candle>, setups: seq<Setup>): seq<SetupEvent> {
    seq(|setups|, i requires 0 <= i < |setups| => SetupEvent(setups[i], ConfirmationOf(candles, setups[i])))
  }

  method ScanSetupEvents(candles: seq<Candle>) returns (events: seq<SetupEvent>)
    ensures events == EventsOf(candles, SetupsOf(GroupsFrom(FOUR_H, candles, 0)))
  {
    hide SetupAt, SetupsOf, ConfirmationOf, GroupsFrom;
    var buckets := AggregateCompletedBuckets(FOUR_H, candles);
    events := [];
    NoSetupsYet(buckets);
    if |buckets| <= MIN_FOUR_H_INDEX { return; }
    ghost var setups: seq<Setup> := [];
    var fourHour := BucketCandles(buckets);
    for i := MIN_FOUR_H_INDEX to |buckets|
      invariant setups == SetupsOf(buckets[..i]) && events == EventsOf(candles, setups)
    {
      SetupsStep(buckets, i);
      var level := SetupAt(fourHour, i);
      if level.Some? {
        var setup := Setup(buckets[i].lastHour, level.value);
        var confirmation := ScanWindow(candles, setup);
        events := events + [SetupEvent(setup, confirmation)];
        setups := setups + [setup];
      }
    }
    assert buckets[..|buckets|] == buckets;
  }

  lemma NoSetupsYet(buckets: seq<Bucket>)
    ensures |buckets| <= MIN_FOUR_H_INDEX ==> SetupsOf(buckets) == []
    ensures |buckets| > MIN_FOUR_H_INDEX ==> SetupsOf(buckets[..MIN_FOUR_H_INDEX]) == []
  {
  }

  method ScanWindow(candles: seq<Candle>, s: Setup) returns (confirmation: Option<nat>)
    ensures confirmation == ConfirmationOf(candles, s)
  {
    var last := Smaller(WindowEnd(s), |candles| - 1);
    var h: int := WindowStart(s);
    while h <= last
      invariant 0 <= h
      invariant FirstConfirmation(candles, s.level, h, last) == ConfirmationOf(candles, s)
      decreases last - h
    {
      if Confirms(candles[h], s.level) { return Some(h); }
      h := h + 1;
    }
    confirmation := None;
  }

  // ----- The scan against the four-hour reference ------------------------------------------------------------

  /**
   * The scan arms at a bucket exactly when the four-hour breakout behind the regime gate, run flat on the
   * buckets up to it, says BUY; its level is the high of the channel before it.
   */
  lemma ArmsExactlyWhenReferenceBuys(candles: seq<Candle>, i: nat)
    requires MIN_FOUR_H_INDEX <= i < |candles|
    ensures SetupAt(candles, i).Some? <==> GateSignal(FOUR_H_BREAKOUT, candles[..i + 1], Flat) == Ok(Buy)
    ensures SetupAt(candles, i).Some? ==> SetupAt(candles, i).value == Maximum(Highs(candles[i - CHANNEL_PERIOD..i]))
  {
    hide Ema, Atr, Maximum;
    var prefix := candles[..i + 1];
    SetupIsCausal(candles, i);
    assert prefix[i - CHANNEL_PERIOD..i] == candles[i - CHANNEL_PERIOD..i];
    var highs := Highs(prefix);
    assert highs[i - CHANNEL_PERIOD..i] == Highs(candles[i - CHANNEL_PERIOD..i]);
    assert WindowAt(highs, CHANNEL_PERIOD, i - 1) == Some(highs[i - CHANNEL_PERIOD..i]);
    assert RollingMax(highs, CHANNEL_PERIOD)[i - 1] == Some(Maximum(Highs(candles[i - CHANNEL_PERIOD..i])));
    assert GateMinRequired(FOUR_H_BREAKOUT) == MIN_FOUR_H_INDEX + 1 == 220;
    assert Last(Atr(prefix, ATR_PERIOD)) == Atr(prefix, ATR_PERIOD)[i] && Last(prefix) == prefix[i];
  }

  // ----- The signal --------------------------------------------------------------------------------------------

  function WeeklyFloorHours(): nat {
    (WEEKLY_EMA_PERIOD + WEEKLY_SLOPE_LOOKBACK) * WEEK_HOURS + WEEK_HOURS
  }

  function FourHFloorHours(): nat {
    (MIN_FOUR_H_INDEX + 1) * FOUR_H_HOURS + FOUR_H_HOURS
  }

  const MIN_REQUIRED: nat := Larger(WeeklyFloorHours(), FourHFloorHours()) + CONFIRMATION_WINDOW

  /** Of the setups armed at an hour, the one that was set up last. */
  function Governing(events: seq<SetupEvent>, hour: int): Option<SetupEvent> {
    if events == [] then None
    else
      var best, e := Governing(DropLast(events), hour), Last(events);
      if Armed(e.setup, hour) && (best.None? || e.setup.hour > best.value.setup.hour) then Some(e) else best
  }

  function DecideEntry(events: seq<SetupEvent>, hour: int): SignalType {
    match Governing(events, hour)
    case None => Hold
    case Some(e) => if e.confirmation.Some? && e.confirmation.value >= hour then Buy else Hold
  }

  function EventsSeen(candles: seq<Candle>): seq<SetupEvent> {
    EventsOf(candles, SetupsOf(GroupsFrom(FOUR_H, candles, 0)))
  }

  predicate WeeklySeen(candles: seq<Candle>) {
    WeeklyBullish(BucketCandles(GroupsFrom(WEEKLY, candles, 0)))
  }

  function Signal(candles: seq<Candle>, position: PositionSide): Result<SignalType, StrategyError> {
    if |candles| < MIN_REQUIRED then Err(InsufficientData(MIN_REQUIRED))
    else if !WeeklySeen(candles) || position == Long then Ok(Hold)
    else Ok(DecideEntry(EventsSeen(candles), |candles| - 1))
  }

  function CountWhere(events: seq<SetupEvent>, holds: SetupEvent -> bool): nat {
    if events == [] then 0 else CountWhere(DropLast(events), holds) + if holds(Last(events)) then 1 else 0
  }

  function SetUpAt(hour: int): SetupEvent -> bool { (e: SetupEvent) => e.setup.hour == hour }

  function ConfirmedAt(hour: int): SetupEvent -> bool {
    (e: SetupEvent) => e.confirmation.Some? && e.confirmation.value == hour
  }

  function ExpiredAt(hour: int): SetupEvent -> bool {
    (e: SetupEvent) => WindowEnd(e.setup) == hour && e.confirmation.None?
  }

  /** The strategy object: its counters report what happened and are never consulted. */
  class MultiTimeframeBreakout {
    var weeklyRejections: nat
    var setupsDetected: nat
    var setupsArmed: nat
    var setupsExpired: nat
    var confirmations: nat
    var entries: nat

    constructor ()
      ensures weeklyRejections == setupsDetected == setupsArmed == setupsExpired == confirmations == entries == 0
    {
      weeklyRejections, setupsDetected, setupsArmed, setupsExpired, confirmations, entries := 0, 0, 0, 0, 0, 0;
    }

    method CountEvents(events: seq<SetupEvent>, hour: int)
      modifies `setupsDetected, `setupsArmed, `setupsExpired, `confirmations
      ensures setupsDetected == old(setupsDetected) + CountWhere(events, SetUpAt(hour))
      ensures setupsArmed == old(setupsArmed) + CountWhere(events, SetUpAt(hour))
      ensures confirmations == old(confirmations) + CountWhere(events, ConfirmedAt(hour))
      ensures setupsExpired == old(setupsExpired) + CountWhere(events, ExpiredAt(hour))
    {
      for i := 0 to |events|
        invariant setupsDetected == old(setupsDetected) + CountWhere(events[..i], SetUpAt(hour))
        invariant setupsArmed == old(setupsArmed) + CountWhere(events[..i], SetUpAt(hour))
        invariant confirmations == old(confirmations) + CountWhere(events[..i], ConfirmedAt(hour))
        invariant setupsExpired == old(setupsExpired) + CountWhere(events[..i], ExpiredAt(hour))
      {
        var e := events[i];
        assert DropLast(events[..i + 1]) == events[..i];
        if e.setup.hour == hour {
          setupsDetected, setupsArmed := setupsDetected + 1, setupsArmed + 1;
        }
        if e.confirmation == Some(hour) { confirmations := confirmations + 1; }
        if WindowEnd(e.setup) == hour && e.confirmation.None? { setupsExpired := setupsExpired + 1; }
      }
      assert events[..|events|] == events;
    }

    method GenerateSignal(candles: seq<Candle>, position: PositionSide) returns (r: Result<SignalType, StrategyError>)
      modifies this
      ensures r == Signal(candles, position)
      ensures weeklyRejections == old(weeklyRejections) + if r.Ok? && !WeeklySeen(candles) then 1 else 0
      ensures entries == old(entries) + if r == Ok(Buy) then 1 else 0
      ensures r.Ok? && WeeklySeen(candles) ==>
                setupsExpired == old(setupsExpired) + CountWhere(EventsSeen(candles), ExpiredAt(|candles| - 1))
      ensures r.Ok? && WeeklySeen(candles) ==>
                confirmations == old(confirmations) + CountWhere(EventsSeen(candles), ConfirmedAt(|candles| - 1))
    {
      hide SetupsOf, EventsOf, GroupsFrom, WeeklyBullish, CountWhere, Governing, BucketCandles, ExpiredAt,
          ConfirmedAt, SetUpAt;
      if |candles| < MIN_REQUIRED { return Err(InsufficientData(MIN_REQUIRED)); }
      var bullish := WeeklyFilterBullish(candles);
      if !bullish {
        weeklyRejections := weeklyRejections + 1;
        return Ok(Hold);
      }
      var events := ScanSetupEvents(candles);
      CountEvents(events, |candles| - 1);
      if position == Long { return Ok(Hold); }
      var decision := DecideEntry(events, |candles| - 1);
      if decision == Buy { entries := entries + 1; }
      r := Ok(decision);
    }
  }

  // ----- All calls over all prefixes of one history --------------------------------------------------------------

  /** The setups of an hourly history. */
  function Setups(candles: seq<Candle>): seq<Setup> {
    SetupsOf(CoveredCells(FOUR_H, candles))
  }

  lemma EventsOfHourly(candles: seq<Candle>)
    requires Hourly(candles)
    ensures EventsSeen(candles) == EventsOf(candles, Setups(candles))
  {
    AggregationIsExact(FOUR_H, candles);
  }

  predicate HoursFrom(setups: seq<Setup>, i: nat, hour: nat) {
    forall k | i <= k < |setups| :: setups[k].hour >= hour
  }

  /** Setups of a prefix of the buckets come first; later buckets bring only later setups. */
  lemma {:induction false} SetupsOfPrefix(buckets: seq<Bucket>, n: nat, hour: nat)
    requires n <= |buckets| && forall i | n <= i < |buckets| :: buckets[i].lastHour >= hour
    ensures SetupsOf(buckets[..n]) <= SetupsOf(buckets)
    ensures HoursFrom(SetupsOf(buckets), |SetupsOf(buckets[..n])|, hour)
    decreases |buckets|
  {
    hide SetupAt;
    if n == |buckets| {
      assert buckets[..n] == buckets;
    } else {
      assert buckets[..|buckets| - 1][..n] == buckets[..n];
      SetupsOfPrefix(buckets[..|buckets| - 1], n, hour);
    }
  }

  /** Setups already found never change; a longer history adds only setups of its later hours. */
  lemma SetupsNeverChange(candles: seq<Candle>, n: nat)
    requires Hourly(candles) && n <= |candles|
    ensures Setups(candles[..n]) <= Setups(candles)
    ensures HoursFrom(Setups(candles), |Setups(candles[..n])|, n)
  {
    CoveredCellsPrefix(FOUR_H, candles, n);
    var shorter, longer := CoveredCells(FOUR_H, candles[..n]), CoveredCells(FOUR_H, candles);
    assert longer[..|shorter|] == shorter;
    SetupsOfPrefix(longer, |shorter|, n);
  }

  predicate Spread(setups: seq<Setup>) {
    forall i, j | 0 <= i < j < |setups| :: setups[i].hour + FOUR_H_HOURS <= setups[j].hour
  }

  predicate BucketsSpread(buckets: seq<Bucket>) {
    forall i, j | 0 <= i < j < |buckets| :: buckets[i].lastHour + FOUR_H_HOURS <= buckets[j].lastHour
  }

  /** A setup closes with one of the buckets. */
  lemma {:induction false} SetupHasBucket(buckets: seq<Bucket>, s: Setup)
    requires s in SetupsOf(buckets)
    ensures exists i :: 0 <= i < |buckets| && buckets[i].lastHour == s.hour
    decreases |buckets|
  {
    hide SetupAt;
    var n := |buckets| - 1;
    if s in SetupsOf(buckets[..n]) {
      SetupHasBucket(buckets[..n], s);
      var i :| 0 <= i < n && buckets[..n][i].lastHour == s.hour;
      assert buckets[i].lastHour == s.hour;
    } else {
      assert buckets[n].lastHour == s.hour;
    }
  }

  /** Setups close with their buckets, which never overlap. */
  lemma {:induction false} SetupsAreSpread(buckets: seq<Bucket>)
    requires BucketsSpread(buckets)
    ensures Spread(SetupsOf(buckets))
    decreases |buckets|
  {
    hide SetupAt;
    if |buckets| > MIN_FOUR_H_INDEX {
      var n := |buckets| - 1;
      var setups := SetupsOf(buckets[..n]);
      SetupsAreSpread(buckets[..n]);
      forall s | s in setups ensures s.hour + FOUR_H_HOURS <= buckets[n].lastHour {
        SetupHasBucket(buckets[..n], s);
        var i :| 0 <= i < n && buckets[..n][i].lastHour == s.hour;
        assert buckets[i].lastHour == s.hour;
      }
    }
  }

  lemma BucketsAreSpread(candles: seq<Candle>)
    requires Hourly(candles)
    ensures BucketsSpread(CoveredCells(FOUR_H, candles))
  {
    hide IsCell, CoveredCells;
    BucketsAreCells(FOUR_H, candles);
    var bs := CoveredCells(FOUR_H, candles);
    forall i, j | 0 <= i < j < |bs| ensures bs[i].lastHour + FOUR_H_HOURS <= bs[j].lastHour {
      CellsAreDisjoint(FOUR_H, candles, bs[i], bs[j]);
    }
  }

  /** No hour is armed by two setups. */
  lemma ArmedWindowsAreDisjoint(candles: seq<Candle>, i: nat, j: nat, hour: int)
    requires Hourly(candles) && i < |Setups(candles)| && j < |Setups(candles)|
    requires Armed(Setups(candles)[i], hour) && Armed(Setups(candles)[j], hour)
    ensures i == j
  {
    BucketsAreSpread(candles);
    SetupsAreSpread(CoveredCells(FOUR_H, candles));
  }

  // ----- Confirmation ----------------------------------------------------------------------------------------------

  /** The hour is the first in the range to confirm. */
  predicate IsFirst(candles: seq<Candle>, level: real, first: int, last: int, hour: int)
    requires 0 <= first && last < |candles|
  {
    first <= hour <= last && Confirms(candles[hour], level)
    && forall k | first <= k < hour :: !Confirms(candles[k], level)
  }

  lemma {:induction false} FirstIsFirst(candles: seq<Candle>, level: real, first: int, last: int)
    requires 0 <= first && last < |candles|
    ensures var r := FirstConfirmation(candles, level, first, last);
            && (r.Some? ==> IsFirst(candles, level, first, last, r.value))
            && (r.None? ==> forall k | first <= k <= last :: !Confirms(candles[k], level))
    decreases last - first
  {
    if first <= last && !Confirms(candles[first], level) { FirstIsFirst(candles, level, first + 1, last); }
  }

  /** A confirmation at the latest visible hour is one in every longer history, and the other way round. */
  lemma ConfirmationIsStable(candles: seq<Candle>, n: nat, s: Setup)
    requires 0 < n <= |candles|
    ensures ConfirmationOf(candles[..n], s) == Some(n - 1) <==> ConfirmationOf(candles, s) == Some(n - 1)
  {
    var prefix := candles[..n];
    var short, long := Smaller(WindowEnd(s), n - 1), Smaller(WindowEnd(s), |candles| - 1);
    FirstIsFirst(prefix, s.level, WindowStart(s), short);
    FirstIsFirst(candles, s.level, WindowStart(s), long);
    assert forall k | 0 <= k < n :: prefix[k] == candles[k];
  }

  lemma {:induction false} GoverningIsTheArmedOne(events: seq<SetupEvent>, hour: int)
    requires forall i, j | 0 <= i < |events| && 0 <= j < |events| && Armed(events[i].setup, hour)
             && Armed(events[j].setup, hour) :: i == j
    ensures Governing(events, hour).Some?
            ==> Governing(events, hour).value in events && Armed(Governing(events, hour).value.setup, hour)
    ensures forall e | e in events && Armed(e.setup, hour) :: Governing(events, hour) == Some(e)
  {
    if events != [] {
      var before := DropLast(events);
      forall i, j | 0 <= i < |before| && 0 <= j < |before|
                    && Armed(before[i].setup, hour) && Armed(before[j].setup, hour)
        ensures i == j
      {
        assert Armed(events[i].setup, hour) && Armed(events[j].setup, hour);
      }
      GoverningIsTheArmedOne(before, hour);
      if Armed(Last(events).setup, hour) {
        forall e | e in before ensures !Armed(e.setup, hour) {
          var i :| 0 <= i < |before| && before[i] == e;
          assert events[i] == e && Armed(events[|events| - 1].setup, hour);
        }
      }
    }
  }

  /** Some setup of the history is first confirmed at this hour. */
  ghost predicate SomeSetupConfirms(candles: seq<Candle>, hour: nat) {
    exists s :: s in Setups(candles) && ConfirmationOf(candles, s) == Some(hour)
  }

  lemma ConfirmedSetupIsArmed(candles: seq<Candle>, s: Setup, hour: nat)
    requires ConfirmationOf(candles, s) == Some(hour)
    ensures Armed(s, hour) && hour < |candles|
  {
    FirstIsFirst(candles, s.level, WindowStart(s), Smaller(WindowEnd(s), |candles| - 1));
  }

  lemma AtMostOneEventArmed(candles: seq<Candle>, hour: int)
    requires Hourly(candles)
    ensures var events := EventsOf(candles, Setups(candles));
            forall i, j | 0 <= i < |events| && 0 <= j < |events| && Armed(events[i].setup, hour)
            && Armed(events[j].setup, hour) :: i == j
  {
    hide Setups, Hourly;
    var events := EventsOf(candles, Setups(candles));
    forall i, j | 0 <= i < |events| && 0 <= j < |events| && Armed(events[i].setup, hour) && Armed(events[j].setup, hour)
      ensures i == j
    {
      ArmedWindowsAreDisjoint(candles, i, j, hour);
    }
  }

  lemma ConfirmedSetupDecides(candles: seq<Candle>, s: Setup, hour: nat)
    requires Hourly(candles) && s in Setups(candles) && ConfirmationOf(candles, s) == Some(hour)
    ensures DecideEntry(EventsOf(candles, Setups(candles)), hour) == Buy
  {
    hide Setups, Hourly, ConfirmationOf;
    var setups := Setups(candles);
    var events := EventsOf(candles, setups);
    AtMostOneEventArmed(candles, hour);
    GoverningIsTheArmedOne(events, hour);
    ConfirmedSetupIsArmed(candles, s, hour);
    var i :| 0 <= i < |setups| && setups[i] == s;
    assert events[i] in events;
  }

  lemma DecisionNamesSetup(candles: seq<Candle>)
    requires Hourly(candles) && candles != []
    requires DecideEntry(EventsOf(candles, Setups(candles)), |candles| - 1) == Buy
    ensures SomeSetupConfirms(candles, |candles| - 1)
  {
    hide Setups, Hourly, ConfirmationOf, Governing;
    var setups, hour := Setups(candles), |candles| - 1;
    var events := EventsOf(candles, setups);
    AtMostOneEventArmed(candles, hour);
    GoverningIsTheArmedOne(events, hour);
    var i :| 0 <= i < |events| && events[i] == Governing(events, hour).value;
    assert setups[i] in setups;
    ConfirmedSetupIsArmed(candles, setups[i], events[i].confirmation.value);
  }

  lemma DecisionIsConfirmation(candles: seq<Candle>)
    requires Hourly(candles) && candles != []
    ensures DecideEntry(EventsSeen(candles), |candles| - 1) == Buy <==> SomeSetupConfirms(candles, |candles| - 1)
  {
    hide Setups, Hourly, DecideEntry, EventsSeen, ConfirmationOf;
    EventsOfHourly(candles);
    if DecideEntry(EventsSeen(candles), |candles| - 1) == Buy { DecisionNamesSetup(candles); }
    forall s | s in Setups(candles) && ConfirmationOf(candles, s) == Some(|candles| - 1)
      ensures DecideEntry(EventsSeen(candles), |candles| - 1) == Buy
    {
      ConfirmedSetupDecides(candles, s, |candles| - 1);
    }
  }

  /** A setup confirmed by the latest hour was already there before the history went on. */
  lemma ConfirmedSetupsOfPrefix(candles: seq<Candle>, n: nat)
    requires Hourly(candles) && 0 < n <= |candles|
    ensures SomeSetupConfirms(candles[..n], n - 1) <==> SomeSetupConfirms(candles, n - 1)
  {
    hide Setups, ConfirmationOf, Hourly;
    SetupsNeverChange(candles, n);
    var early, all := Setups(candles[..n]), Setups(candles);
    forall s | s in early ensures s in all {}
    forall s ensures ConfirmationOf(candles[..n], s) == Some(n - 1) <==> ConfirmationOf(candles, s) == Some(n - 1) {
      ConfirmationIsStable(candles, n, s);
    }
    forall s | s in all && ConfirmationOf(candles, s) == Some(n - 1) ensures s in early {
      ConfirmedSetupIsArmed(candles, s, n - 1);
      var i :| 0 <= i < |all| && all[i] == s;
      assert early[i] == s;
    }
  }

  /**
   * Over all prefixes of one hourly history: the strategy, when flat, says BUY after `n` hours exactly if the
   * weekly filter is open and the last hour is the first confirming hour of a setup of the whole history. A
   * setup therefore buys at most once.
   */
  lemma BuysExactlyAtFirstConfirmation(candles: seq<Candle>, n: nat)
    requires Hourly(candles) && MIN_REQUIRED <= n <= |candles|
    ensures Signal(candles[..n], Flat) == Ok(Buy) <==> WeeklySeen(candles[..n]) && SomeSetupConfirms(candles, n - 1)
    ensures Signal(candles[..n], Long) == Ok(Hold)
  {
    hide DecideEntry, EventsSeen, WeeklySeen, SomeSetupConfirms, Setups;
    PrefixIsHourly(candles, n);
    DecisionIsConfirmation(candles[..n]);
    ConfirmedSetupsOfPrefix(candles, n);
  }

  lemma PrefixIsHourly(candles: seq<Candle>, n: nat)
    requires Hourly(candles) && n <= |candles|
    ensures Hourly(candles[..n])
  {
  }

  // ----- What is bought -----------------------------------------------------------------------------------------

  /** The four-hour candle at `i` breaks the range of the twenty before it, above a rising average. */
  ghost predicate BreaksOut(fourHour: seq<Candle>, i: nat, level: real)
    requires 219 <= i < |fourHour|
  {
    var close, ema := fourHour[i].close, Ema(Closes(fourHour), 200);
    && Tops(fourHour[i - 20..i], level) && Breaks(close, level, Atr(fourHour, 14)[i], 0.25)
    && close > ema[i] && ema[i] > ema[i - 20]
  }

  /** The last week closes above a rising average. */
  ghost predicate WeeklyRises(weeks: seq<Candle>) {
    var n, ema := |weeks|, Ema(Closes(weeks), 40);
    n >= 44 && weeks[n - 1].close > ema[n - 1] && ema[n - 1] > ema[n - 5]
  }

  predicate RisesAbove(c: Candle, level: real) {
    c.close > level && c.close > c.open
  }

  /** Of the four hours after `from`, the first that rises above the level. */
  ghost predicate RisesFirst(candles: seq<Candle>, level: real, from: nat, hour: nat) {
    && from < hour <= from + 4 && hour < |candles| && RisesAbove(candles[hour], level)
    && forall k | from < k < hour :: !RisesAbove(candles[k], level)
  }

  lemma SetupIsBreakout(fourHour: seq<Candle>, i: nat, level: real)
    requires 219 <= i < |fourHour|
    ensures SetupAt(fourHour, i) == Some(level) <==> BreaksOut(fourHour, i, level)
  {
    hide Ema, Atr, Maximum, Minimum, Tops, Bottoms;
    ExtremesAre(fourHour[i - 20..i], 0.0, level);
    ChannelBefore(fourHour, i);
  }

  lemma ChannelBefore(fourHour: seq<Candle>, i: nat)
    requires 219 <= i < |fourHour|
    ensures RollingMax(Highs(fourHour), CHANNEL_PERIOD)[i - 1] == Some(Maximum(Highs(fourHour[i - 20..i])))
  {
    hide Maximum;
    var highs := Highs(fourHour);
    assert highs[i - 20..i] == Highs(fourHour[i - 20..i]);
    assert WindowAt(highs, CHANNEL_PERIOD, i - 1) == Some(highs[i - 20..i]);
  }

  lemma {:induction false} SetupsAreFound(buckets: seq<Bucket>, s: Setup)
    ensures s in SetupsOf(buckets) <==>
              exists i :: MIN_FOUR_H_INDEX <= i < |buckets| && buckets[i].lastHour == s.hour
                          && SetupAt(BucketCandles(buckets), i) == Some(s.level)
    decreases |buckets|
  {
    hide SetupAt;
    if |buckets| > MIN_FOUR_H_INDEX {
      var n := |buckets| - 1;
      var before := buckets[..n];
      SetupsAreFound(before, s);
      SetupsStep(buckets, n);
      assert buckets[..n + 1] == buckets;
      forall i | MIN_FOUR_H_INDEX <= i < n
        ensures SetupAt(BucketCandles(before), i) == SetupAt(BucketCandles(buckets), i)
      {
        assert BucketCandles(before)[..i + 1] == BucketCandles(buckets)[..i + 1];
        SetupIsCausal(BucketCandles(before), i);
        SetupIsCausal(BucketCandles(buckets), i);
      }
    }
  }

  lemma ConfirmationRisesFirst(candles: seq<Candle>, s: Setup, hour: nat)
    ensures ConfirmationOf(candles, s) == Some(hour) <==> RisesFirst(candles, s.level, s.hour, hour)
  {
    var last := Smaller(WindowEnd(s), |candles| - 1);
    FirstIsFirst(candles, s.level, WindowStart(s), last);
    if RisesFirst(candles, s.level, s.hour, hour) {
      assert Confirms(candles[hour], s.level);
      assert forall k | s.hour < k < hour :: !Confirms(candles[k], s.level);
    }
  }

  ghost predicate BreakoutRises(candles: seq<Candle>, cells: seq<Bucket>, i: nat, level: real, hour: nat)
    requires 219 <= i < |cells|
  {
    BreaksOut(BucketCandles(cells), i, level) && RisesFirst(candles, level, cells[i].lastHour, hour)
  }

  lemma SetupsAreBreakouts(cells: seq<Bucket>, s: Setup)
    ensures s in SetupsOf(cells) <==> exists i | 219 <= i < |cells| :: BreaksOutAt(cells, i, s)
  {
    hide BreaksOut, SetupAt;
    SetupsAreFound(cells, s);
    forall i | 219 <= i < |cells| ensures SetupAt(BucketCandles(cells), i) == Some(s.level)
                                     <==> BreaksOut(BucketCandles(cells), i, s.level) {
      SetupIsBreakout(BucketCandles(cells), i, s.level);
    }
    if s in SetupsOf(cells) {
      var i :| 219 <= i < |cells| && cells[i].lastHour == s.hour
               && SetupAt(BucketCandles(cells), i) == Some(s.level);
      assert BreaksOutAt(cells, i, s);
    }
    if i: nat :| 219 <= i < |cells| && BreaksOutAt(cells, i, s) { assert cells[i].lastHour == s.hour; }
  }

  ghost predicate BreaksOutAt(cells: seq<Bucket>, i: nat, s: Setup)
    requires 219 <= i < |cells|
  {
    cells[i].lastHour == s.hour && BreaksOut(BucketCandles(cells), i, s.level)
  }

  lemma SomeBreakoutRises(candles: seq<Candle>, cells: seq<Bucket>, hour: nat)
    requires cells == CoveredCells(FOUR_H, candles)
    ensures SomeSetupConfirms(candles, hour) <==>
              exists i, level | 219 <= i < |cells| :: BreakoutRises(candles, cells, i, level, hour)
  {
    hide BreaksOut, RisesFirst, SetupsOf, ConfirmationOf, CoveredCells;
    forall i, level | 219 <= i < |cells| && BreakoutRises(candles, cells, i, level, hour)
      ensures SomeSetupConfirms(candles, hour)
    {
      var s := Setup(cells[i].lastHour, level);
      assert BreaksOutAt(cells, i, s);
      SetupsAreBreakouts(cells, s);
      ConfirmationRisesFirst(candles, s, hour);
      assert s in Setups(candles);
    }
    if s :| s in Setups(candles) && ConfirmationOf(candles, s) == Some(hour) {
      SetupsAreBreakouts(cells, s);
      ConfirmationRisesFirst(candles, s, hour);
      var i :| 219 <= i < |cells| && BreaksOutAt(cells, i, s);
      assert BreakoutRises(candles, cells, i, s.level, hour);
    }
  }

  /**
   * In terms of prices alone, over every prefix of one hourly history: flat, BUY exactly on the first of the four hours
   * after a four-hour breakout that rises above its level, while the weeks seen so far rise.
   */
  lemma BuysAreConfirmedBreakouts(candles: seq<Candle>, n: nat, cells: seq<Bucket>, weeks: seq<Bucket>)
    requires Hourly(candles) && 7564 <= n <= |candles|
    requires cells == CoveredCells(FOUR_H, candles) && weeks == CoveredCells(WEEKLY, candles[..n])
    ensures var hour := n - 1;
            Signal(candles[..n], Flat) == Ok(Buy) <==>
              && WeeklyRises(BucketCandles(weeks))
              && exists i, level | 219 <= i < |cells| :: BreakoutRises(candles, cells, i, level, hour)
  {
    hide BreakoutRises, Signal, SomeSetupConfirms, CoveredCells, WeeklyBullish, WeeklyRises, GroupsFrom, Hourly;
    BuysExactlyAtFirstConfirmation(candles, n);
    PrefixIsHourly(candles, n);
    AggregationIsExact(WEEKLY, candles[..n]);
    WeeksRise(BucketCandles(weeks));
    SomeBreakoutRises(candles, cells, n - 1);
  }

  lemma WeeksRise(weeks: seq<Candle>)
    ensures WeeklyBullish(weeks) <==> WeeklyRises(weeks)
  {
    hide Ema;
  }

  /** The setup is counted at this hour as confirmed or as expired, by the call that sees the history up to it. */
  ghost predicate EndsAt(candles: seq<Candle>, s: Setup, hour: nat) {
    hour < |candles| &&
    var e := SetupEvent(s, ConfirmationOf(candles[..hour + 1], s));
    ConfirmedAt(hour)(e) || ExpiredAt(hour)(e)
  }

  /** Counted over every hour, each setup whose window has passed ends exactly once: confirmed or expired. */
  lemma EachSetupEndsOnce(candles: seq<Candle>, s: Setup)
    requires WindowEnd(s) < |candles|
    ensures exists hour: nat :: EndsAt(candles, s, hour)
    ensures forall h: nat, k: nat | EndsAt(candles, s, h) && EndsAt(candles, s, k) :: h == k
  {
    hide ConfirmationOf;
    forall h: nat | h < |candles|
      ensures ConfirmationOf(candles[..h + 1], s) == Some(h) <==> ConfirmationOf(candles, s) == Some(h)
    {
      ConfirmationIsStable(candles, h + 1, s);
    }
    var end := WindowEnd(s);
    var seen := ConfirmationOf(candles[..end + 1], s);
    ConfirmedByEnd(candles, s);
    if seen.Some? {
      assert EndsAt(candles, s, seen.value);
    } else {
      assert EndsAt(candles, s, end);
    }
  }

  /** What the whole window showed, every longer history shows. */
  lemma ConfirmedByEnd(candles: seq<Candle>, s: Setup)
    requires WindowEnd(s) < |candles|
    ensures ConfirmationOf(candles[..WindowEnd(s) + 1], s) == ConfirmationOf(candles, s)
    ensures var c := ConfirmationOf(candles, s); c.Some? ==> WindowStart(s) <= c.value <= WindowEnd(s)
  {
    var seen := candles[..WindowEnd(s) + 1];
    FirstIsFirst(seen, s.level, WindowStart(s), WindowEnd(s));
    FirstIsFirst(candles, s.level, WindowStart(s), WindowEnd(s));
    assert forall k | 0 <= k <= WindowEnd(s) :: seen[k] == candles[k];
  }

  // ----- Enough history --------------------------------------------------------------------------------------------

  lemma HoursStayAligned(candles: seq<Candle>)
    requires candles != [] && Contiguous(candles, HOUR_MS) && Aligned(candles[0].openTime, HOUR_MS)
    ensures forall i | 0 <= i < |candles| ::
              Aligned(candles[i].openTime + WEEKLY.offset, HOUR_MS)
              && Aligned(candles[i].openTime + FOUR_H.offset, HOUR_MS)
  {
    hide Contiguous, Aligned, Times;
    forall i | 0 <= i < |candles|
      ensures Aligned(candles[i].openTime + WEEKLY.offset, HOUR_MS)
              && Aligned(candles[i].openTime + FOUR_H.offset, HOUR_MS)
    {
      ContiguousTimes(candles, HOUR_MS, i);
      PeriodsOfTimes(i, HOUR_MS);
      PeriodsAdd(candles[0].openTime, Times(i, HOUR_MS), HOUR_MS);
      PeriodsOfTimes(72, HOUR_MS);
      PeriodsAdd(candles[i].openTime, WEEKLY.offset, HOUR_MS);
    }
  }

  /**
   * The required length is enough whatever the alignment: any contiguous hourly run of it holds the 44 whole
   * weeks and the 220 whole four-hour cells that the two indicators need.
   */
  lemma RequiredLengthSuffices(candles: seq<Candle>)
    requires |candles| >= MIN_REQUIRED && Contiguous(candles, HOUR_MS) && Aligned(candles[0].openTime, HOUR_MS)
    ensures MIN_REQUIRED == 7564
    ensures |CoveredCells(WEEKLY, candles)| >= WEEKLY_EMA_PERIOD + WEEKLY_SLOPE_LOOKBACK
    ensures |CoveredCells(FOUR_H, candles)| >= MIN_FOUR_H_INDEX + 1
  {
    hide CoveredCells, CellStart, Contiguous, Aligned;
    HoursStayAligned(candles);
    assert candles[..|candles|] == candles;
    CellCount(WEEKLY, candles, WEEKLY_EMA_PERIOD + WEEKLY_SLOPE_LOOKBACK, |candles|);
    CellCount(FOUR_H, candles, MIN_FOUR_H_INDEX + 1, |candles|);
  }

  // ----- The settling buffer (shadow/bootstrap.py) -----------------------------------------------------------------

  /** A contiguous hourly history whose warm-up of `warmup` hours ends at a boundary on the four-hour grid. */
  predicate WarmedUp(candles: seq<Candle>, warmup: nat, boundary: int) {
    && Contiguous(candles, HOUR_MS) && warmup < |candles| && candles[warmup].openTime == boundary
    && CellStart(FOUR_H, boundary) == boundary && Aligned(boundary, HOUR_MS)
  }

  lemma WarmedUpIsHourly(candles: seq<Candle>, warmup: nat, boundary: int)
    requires WarmedUp(candles, warmup, boundary)
    ensures Hourly(candles)
  {
    ContiguousIncreasing(candles, HOUR_MS);
    ContiguousTimes(candles, HOUR_MS, warmup);
    forall i | 0 <= i < |candles| ensures Aligned(candles[i].openTime, HOUR_MS) {
      ContiguousTimes(candles, HOUR_MS, i);
      TimesAdds(i, warmup, HOUR_MS);
      PeriodsOfTimes(i - warmup, HOUR_MS);
      PeriodsAdd(boundary, Times(i - warmup, HOUR_MS), HOUR_MS);
    }
  }

  lemma StartIsAligned(time: int)
    requires CellStart(FOUR_H, time) == time
    ensures Aligned(time, Width(FOUR_H))
  {
  }

  lemma WholeCellsApart(boundary: int, k: int)
    requires CellStart(FOUR_H, boundary) == boundary
    requires CellStart(FOUR_H, boundary + Times(k, HOUR_MS)) == boundary + Times(k, HOUR_MS)
    ensures k % 4 == 0
  {
    hide CellStart, Times;
    var w, span := Width(FOUR_H), Times(k, HOUR_MS);
    StartIsAligned(boundary);
    StartIsAligned(boundary + span);
    PeriodsAdd(boundary, span, w);
    Quotient(span, w);
    FourHours(span / w);
    TimesMonotone(k, 4 * (span / w), HOUR_MS);
  }

  lemma FourHours(n: int)
    ensures Times(n, Width(FOUR_H)) == Times(4 * n, HOUR_MS)
  {
  }

  /** Four-hour cells close at the fourth hour counted from the boundary, before it or after it. */
  lemma CellsCountFromBoundary(candles: seq<Candle>, warmup: nat, boundary: int, b: Bucket)
    requires WarmedUp(candles, warmup, boundary) && IsCell(FOUR_H, candles, b)
    ensures (b.lastHour - warmup - 3) % 4 == 0
    ensures b.candle.openTime == boundary + Times(b.lastHour - 3 - warmup, HOUR_MS)
  {
    hide CellStart;
    var l := b.lastHour + 1 - FOUR_H_HOURS;
    ContiguousTimes(candles, HOUR_MS, warmup);
    ContiguousTimes(candles, HOUR_MS, l);
    TimesAdds(l, warmup, HOUR_MS);
    assert candles[l..b.lastHour + 1][0] == candles[l];
    WholeCellsApart(boundary, l - warmup);
  }

  /**
   * Every BUY the replay can see, at or after the first hour it evaluates, is governed by a setup whose
   * four-hour candle opened at or after the boundary: no warm-up setup is carried over.
   */
  lemma NoSetupIsCarriedOver(candles: seq<Candle>, warmup: nat, boundary: int, n: nat) returns (s: Setup, b: Bucket)
    requires WarmedUp(candles, warmup, boundary) && warmup + CONFIRMATION_WINDOW + 1 <= n <= |candles|
    requires MIN_REQUIRED <= n && Signal(candles[..n], Flat) == Ok(Buy)
    ensures s in Setups(candles) && ConfirmationOf(candles, s) == Some(n - 1)
    ensures b in CoveredCells(FOUR_H, candles) && b.lastHour == s.hour && b.candle.openTime >= boundary
  {
    hide Setups, ConfirmationOf, IsCell, Signal, WarmedUp, CoveredCells;
    WarmedUpIsHourly(candles, warmup, boundary);
    BuysExactlyAtFirstConfirmation(candles, n);
    s :| s in Setups(candles) && ConfirmationOf(candles, s) == Some(n - 1);
    ConfirmedSetupIsArmed(candles, s, n - 1);
    b := BucketOfSetup(candles, s);
    CellsCountFromBoundary(candles, warmup, boundary, b);
    TimesMonotone(0, b.lastHour - 3 - warmup, HOUR_MS);
    TimesAdds(0, 0, HOUR_MS);
  }

  lemma BucketOfSetup(candles: seq<Candle>, s: Setup) returns (b: Bucket)
    requires s in Setups(candles)
    ensures b in CoveredCells(FOUR_H, candles) && b.lastHour == s.hour && IsCell(FOUR_H, candles, b)
  {
    var bs := CoveredCells(FOUR_H, candles);
    SetupHasBucket(bs, s);
    BucketsAreCells(FOUR_H, candles);
    var i :| 0 <= i < |bs| && bs[i].lastHour == s.hour;
    b := bs[i];
  }
}
