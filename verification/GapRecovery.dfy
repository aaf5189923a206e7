// Rebuilding missing hours from their minutes and rewriting the gap manifest (data/gap_recovery.py).

module GapRecovery {
  import opened Common
  import opened Grid
  import opened GapDetection
  import opened HistoricalFetch
  import opened Indicators
  import Candles = CandleStore

  const MINUTES_PER_HOUR := 60
  const KLINE_PAGE_LIMIT := 1000

  datatype Recovery = FullyRecoverable | PartiallyRecoverable | GenuineNoData | Unresolved

  datatype HourOutcome = HourOutcome(openTime: int, outcome: Recovery, found: nat, reconstructed: Option<Candle>)

  datatype GapResult = GapResult(gap: GapRecord, hours: seq<HourOutcome>)

  // ----- One hour ------------------------------------------------------------------------------------------

  /** All sixty minutes of the hour, in order. */
  predicate WholeHour(minutes: seq<Candle>, hour: int) {
    |minutes| == MINUTES_PER_HOUR && minutes[0].openTime == hour && Contiguous(minutes, MINUTE_MS)
  }

  function HourFromMinutes(symbol: string, hour: int, minutes: seq<Candle>): Candle
    requires minutes != []
  {
    Candle(symbol, hour, hour + HOUR_MS - 1, minutes[0].open, Maximum(Highs(minutes)), Minimum(Lows(minutes)),
           Last(minutes).close, TotalVolume(minutes))
  }

  predicate SamePrices(a: Candle, b: Candle) {
    a.open == b.open && a.high == b.high && a.low == b.low && a.close == b.close && a.volume == b.volume
  }

  /** The verdict on one hour from its minutes and, if it was asked for, the exchange's own hourly candle. */
  function ClassifyHour(symbol: string, hour: int, minutes: seq<Candle>, native: Option<Candle>): HourOutcome {
    if minutes == [] then HourOutcome(hour, GenuineNoData, 0, None)
    else if !WholeHour(minutes, hour) then
      HourOutcome(hour, if |minutes| < MINUTES_PER_HOUR then PartiallyRecoverable else Unresolved, |minutes|, None)
    else
      var rebuilt := HourFromMinutes(symbol, hour, minutes);
      if native.Some? && !SamePrices(native.value, rebuilt) then HourOutcome(hour, Unresolved, |minutes|, None)
      else HourOutcome(hour, FullyRecoverable, |minutes|, Some(rebuilt))
  }

  // ----- One gap -------------------------------------------------------------------------------------------

  /** No request is made once the time budget is spent, so from then on none gets through. */
  function WithinBudget(faults: Faults, spent: int -> bool): Faults {
    (from: int, to: int, attempt: nat) => spent(from) || faults(from, to, attempt)
  }

  /**
   * Minute candles of [start, end), page by page, until done or stopped at `reached`, the first page for which the
   * retries or the time run out.
   */
  method Fetch1mRange(available: seq<Candle>, start: int, end: int, maxRetries: nat, faults: Faults,
                      spent: int -> bool)
    returns (minutes: seq<Candle>, reached: int, stopped: bool)
    requires start < end && Increasing(available) && Spaced(available, MINUTE_MS)
    ensures start <= reached && minutes == Window(available, start, if stopped then reached else end)
    ensures if stopped then reached < end else reached == end
    ensures stopped <==> exists n: nat ::
              PageFails(Window(available, start, end), MINUTE_MS, start, end, KLINE_PAGE_LIMIT, maxRetries,
                        WithinBudget(faults, spent), n)
    ensures stopped ==> !Reaches(WithinBudget(faults, spent), reached, end, maxRetries)
  {
    hide Window, Spaced, Increasing, Serve;
    minutes := [];
    var cursor := start;
    NothingYet(available, start, end);
    ghost var wanted, n, failing := Window(available, start, end), 0, WithinBudget(faults, spent);
    while cursor < end
      invariant start <= cursor && minutes == Window(available, start, if cursor < end then cursor else end)
      invariant Downloaded(wanted, MINUTE_MS, start, KLINE_PAGE_LIMIT, n, minutes, cursor)
      invariant forall k: nat | k < n ::
                  !PageFails(wanted, MINUTE_MS, start, end, KLINE_PAGE_LIMIT, maxRetries, failing, k)
      decreases end - cursor
    {
      BudgetOrRetries(faults, spent, cursor, end, maxRetries);
      if spent(cursor) {
        assert PageFails(wanted, MINUTE_MS, start, end, KLINE_PAGE_LIMIT, maxRetries, failing, n);
        return minutes, cursor, true;
      }
      var page := FetchPageWithRetries(available, cursor, end, KLINE_PAGE_LIMIT, maxRetries, faults);
      if page.Err? {
        assert PageFails(wanted, MINUTE_MS, start, end, KLINE_PAGE_LIMIT, maxRetries, failing, n);
        return minutes, cursor, true;
      }
      PageContinues(available, MINUTE_MS, start, cursor, end, KLINE_PAGE_LIMIT);
      OneMorePage(available, MINUTE_MS, start, cursor, end, KLINE_PAGE_LIMIT, n);
      if |page.value| < KLINE_PAGE_LIMIT {
        NoPageAfter(wanted, MINUTE_MS, start, end, KLINE_PAGE_LIMIT, maxRetries, failing, n + 1);
      }
      if page.value == [] { return minutes, end, false; }
      minutes := minutes + page.value;
      cursor := Last(page.value).openTime + MINUTE_MS;
      if |page.value| < KLINE_PAGE_LIMIT { return minutes, end, false; }
      n := n + 1;
    }
    TimesAdds(n, 1, KLINE_PAGE_LIMIT);
    NoPageAfter(wanted, MINUTE_MS, start, end, KLINE_PAGE_LIMIT, maxRetries, failing, n + 1);
    return minutes, end, false;
  }

  lemma BudgetOrRetries(faults: Faults, spent: int -> bool, from: int, to: int, maxRetries: nat)
    ensures Reaches(WithinBudget(faults, spent), from, to, maxRetries)
       <==> !spent(from) && Reaches(faults, from, to, maxRetries)
  {
    var within := WithinBudget(faults, spent);
    forall attempt: nat ensures within(from, to, attempt) <==> spent(from) || faults(from, to, attempt) {}
  }

  function HourAt(g: GapRecord, i: int): int {
    g.expected + Times(i, HOUR_MS)
  }

  function MissingCount(g: GapRecord): nat {
    if g.missing > 0 then g.missing else 0
  }

  ghost predicate IsHourOf(c: Candle, minutes: seq<Candle>, symbol: string, hour: int) {
    && |minutes| == 60 && Aggregates(c, minutes)
    && c.symbol == symbol && c.openTime == hour && c.closeTime == hour + 60 * 60 * 1000 - 1
  }

  lemma HourAggregates(symbol: string, hour: int, minutes: seq<Candle>)
    requires minutes != []
    ensures Aggregates(HourFromMinutes(symbol, hour, minutes), minutes)
    ensures |minutes| == 60 ==> IsHourOf(HourFromMinutes(symbol, hour, minutes), minutes, symbol, hour)
  {
    ExtremesOf(minutes);
  }

  /** The exchange's own candle shows the same prices exactly when it too aggregates the minutes. */
  lemma SamePricesAggregate(native: Candle, symbol: string, hour: int, minutes: seq<Candle>)
    requires minutes != []
    ensures SamePrices(native, HourFromMinutes(symbol, hour, minutes)) <==> Aggregates(native, minutes)
  {
    hide HourFromMinutes;
    HourAggregates(symbol, hour, minutes);
  }

  /** One candle for each minute of the hour. */
  ghost predicate EveryMinute(minutes: seq<Candle>, hour: int) {
    |minutes| == 60 && forall i | 0 <= i < 60 :: minutes[i].openTime == hour + i * 60 * 1000
  }

  lemma WholeHourIsEveryMinute(minutes: seq<Candle>, hour: int)
    ensures WholeHour(minutes, hour) <==> EveryMinute(minutes, hour)
  {
    if WholeHour(minutes, hour) {
      forall i | 0 <= i < 60 ensures minutes[i].openTime == hour + i * 60 * 1000 {
        ContiguousTimes(minutes, MINUTE_MS, i);
      }
    }
  }

  /** What a verdict claims about the exchange's own minutes of that hour. */
  ghost predicate Honest(available: seq<Candle>, symbol: string, cutoff: int, hour: int, o: HourOutcome) {
    && o.openTime == hour
    && (o.outcome == FullyRecoverable <==> o.reconstructed.Some?)
    && o.found <= |Window(available, hour, hour + HOUR_MS)|
    && (o.outcome == FullyRecoverable ==>
          var minutes := Window(available, hour, hour + HOUR_MS);
          hour < cutoff && EveryMinute(minutes, hour) && IsHourOf(o.reconstructed.value, minutes, symbol, hour))
  }

  /**
   * What the exchange's own hourly candle for an hour turns out to be: nothing, if there is none, the request for it
   * fails or there was no time left to make it.
   */
  type CrossCheck = int -> Option<Candle>

  /**
   * The verdict on a completely fetched hour is decided by what the exchange has of it: nothing, a broken hour, or
   * sixty whole minutes. Whole minutes are recovered, unless the exchange's own hourly candle disagrees.
   */
  ghost predicate Informed(available: seq<Candle>, crossCheck: CrossCheck, symbol: string, cutoff: int, hour: int,
                           o: HourOutcome) {
    var minutes, native := Window(available, hour, hour + HOUR_MS), crossCheck(hour);
    && o.found == (if hour >= cutoff then 0 else |minutes|)
    && o.outcome == if hour >= cutoff then Unresolved
                    else if minutes == [] then GenuineNoData
                    else if !EveryMinute(minutes, hour) then
                      if |minutes| < 60 then PartiallyRecoverable else Unresolved
                    else if native.Some? && !Aggregates(native.value, minutes) then Unresolved
                    else FullyRecoverable
  }

  /** Part of a fetched window is the same part of what it was fetched from. */
  lemma WindowOfWindow(available: seq<Candle>, start: int, end: int, lo: int, hi: int)
    requires Increasing(available) && start <= lo <= hi
    ensures Window(Window(available, start, end), lo, hi)
         == Window(available, lo, if end < lo then lo else if end < hi then end else hi)
  {
    hide Window;
    var w := Window(available, start, end);
    var stop := if end < lo then lo else if end < hi then end else hi;
    WindowIsExact(available, start, end);
    WindowIsExact(w, lo, hi);
    WindowIsExact(available, lo, stop);
    Candles.IncreasingListIsUnique(Window(w, lo, hi), Window(available, lo, stop));
  }

  /** An hour holds at most sixty minutes. */
  lemma HourHoldsSixty(available: seq<Candle>, hour: int)
    requires Increasing(available) && Spaced(available, MINUTE_MS)
    ensures |Window(available, hour, hour + HOUR_MS)| <= MINUTES_PER_HOUR
  {
    var w := Window(available, hour, hour + HOUR_MS);
    WindowIsExact(available, hour, hour + HOUR_MS);
    WindowKeepsSpacing(available, MINUTE_MS, hour, hour + HOUR_MS);
    if |w| > MINUTES_PER_HOUR {
      assert w[0] in w && w[MINUTES_PER_HOUR] in w;
      SpacedReaches(w, MINUTE_MS, MINUTES_PER_HOUR);
    }
  }

  /** Judging an hour from what was fetched of it claims nothing false, and misses nothing if all was fetched. */
  lemma VerdictIsHonest(available: seq<Candle>, crossCheck: CrossCheck, symbol: string, cutoff: int, start: int,
                        end: int, hour: int)
    requires Increasing(available) && Spaced(available, MINUTE_MS) && start <= hour < cutoff
    ensures var o := ClassifyHour(symbol, hour, Window(Window(available, start, end), hour, hour + HOUR_MS),
                                  crossCheck(hour));
            && Honest(available, symbol, cutoff, hour, o)
            && (hour + HOUR_MS <= end ==> Informed(available, crossCheck, symbol, cutoff, hour, o))
  {
    var native := crossCheck(hour);
    hide Window, HourFromMinutes, SamePrices, Contiguous, Aggregates, EveryMinute;
    WindowOfWindow(available, start, end, hour, hour + HOUR_MS);
    var stop := if end < hour then hour else if end < hour + HOUR_MS then end else hour + HOUR_MS;
    WindowGrows(available, hour, stop, hour + HOUR_MS);
    HourHoldsSixty(available, hour);
    var part, full := Window(available, hour, stop), Window(available, hour, hour + HOUR_MS);
    assert |part| == |full| ==> part == full;
    WholeHourIsEveryMinute(part, hour);
    WholeHourIsEveryMinute(full, hour);
    if full != [] {
      HourAggregates(symbol, hour, full);
      if native.Some? { SamePricesAggregate(native.value, symbol, hour, full); }
    }
  }

  /** One verdict for each missing hour; nothing at or after the cutoff is ever asked for. */
  method AnalyzeOneGap(available: seq<Candle>, crossCheck: CrossCheck, symbol: string, g: GapRecord, cutoff: int,
                       maxRetries: nat, faults: Faults, spent: int -> bool)
    returns (r: GapResult, complete: bool)
    requires Increasing(available) && Spaced(available, MINUTE_MS)
    ensures r.gap == g && |r.hours| == MissingCount(g)
    ensures forall i | 0 <= i < |r.hours| :: Honest(available, symbol, cutoff, HourAt(g, i), r.hours[i])
    ensures complete ==> forall i | 0 <= i < |r.hours| ::
              Informed(available, crossCheck, symbol, cutoff, HourAt(g, i), r.hours[i])
    ensures (forall from: int, to: int | g.expected <= from < to ::
               Reaches(WithinBudget(faults, spent), from, to, maxRetries)) ==> complete
  {
    hide Window, Honest, Informed, ClassifyHour, Increasing, Spaced, Times, Reaches, PageFails;
    var n := MissingCount(g);
    var fetchable := 0;
    while fetchable < n && HourAt(g, fetchable) < cutoff
      invariant 0 <= fetchable <= n && forall i | 0 <= i < fetchable :: HourAt(g, i) < cutoff
    {
      fetchable := fetchable + 1;
    }
    LaterHours(g, fetchable, n, cutoff);
    var hours: seq<HourOutcome> := [];
    complete := true;
    if fetchable > 0 {
      HoursRise(g, 0, fetchable - 1);
      var start, end := HourAt(g, 0), HourAt(g, fetchable - 1) + HOUR_MS;
      var minutes, reached, stopped := Fetch1mRange(available, start, end, maxRetries, faults, spent);
      complete := !stopped;
      TimesAdds(0, 0, HOUR_MS);
      for i := 0 to fetchable
        invariant |hours| == i
        invariant forall k | 0 <= k < i :: Honest(available, symbol, cutoff, HourAt(g, k), hours[k])
        invariant complete ==> forall k | 0 <= k < i ::
                    Informed(available, crossCheck, symbol, cutoff, HourAt(g, k), hours[k])
      {
        var hour := HourAt(g, i);
        HoursRise(g, 0, i);
        HoursRise(g, i, fetchable - 1);
        if stopped && hour >= reached {
          UncheckedIsHonest(available, crossCheck, symbol, cutoff, hour);
          hours := hours + [HourOutcome(hour, Unresolved, 0, None)];
        } else {
          VerdictIsHonest(available, crossCheck, symbol, cutoff, start, if stopped then reached else end, hour);
          hours := hours + [ClassifyHour(symbol, hour, Window(minutes, hour, hour + HOUR_MS), crossCheck(hour))];
        }
      }
    }
    for i := fetchable to n
      invariant |hours| == i
      invariant forall k | 0 <= k < i :: Honest(available, symbol, cutoff, HourAt(g, k), hours[k])
      invariant complete ==> forall k | 0 <= k < i ::
                  Informed(available, crossCheck, symbol, cutoff, HourAt(g, k), hours[k])
    {
      UncheckedIsHonest(available, crossCheck, symbol, cutoff, HourAt(g, i));
      hours := hours + [HourOutcome(HourAt(g, i), Unresolved, 0, None)];
    }
    r := GapResult(g, hours);
  }

  lemma HoursRise(g: GapRecord, i: int, j: int)
    requires i <= j
    ensures HourAt(g, i) <= HourAt(g, j)
  {
  }

  lemma LaterHours(g: GapRecord, fetchable: int, n: int, cutoff: int)
    requires 0 <= fetchable <= n && (fetchable < n ==> HourAt(g, fetchable) >= cutoff)
    ensures forall i | fetchable <= i < n :: HourAt(g, i) >= cutoff
  {
  }

  /** An hour left unchecked claims nothing; at or past the cutoff that is all there is to say. */
  lemma UncheckedIsHonest(available: seq<Candle>, crossCheck: CrossCheck, symbol: string, cutoff: int, hour: int)
    ensures var o := HourOutcome(hour, Unresolved, 0, None);
            Honest(available, symbol, cutoff, hour, o)
            && (hour >= cutoff ==> Informed(available, crossCheck, symbol, cutoff, hour, o))
  {
  }

  // ----- Applying a report -----------------------------------------------------------------------------------

  datatype Report = Report(series: Candles.Series, interrupted: bool, results: seq<GapResult>)

  datatype ApplyOutcome = Interrupted | WrongSeries | NothingToRecover
                        | Stored(count: nat, remaining: seq<GapRecord>) | RolledBack

  function RecoveredHours(hours: seq<HourOutcome>): seq<Candle> {
    if hours == [] then []
    else RecoveredHours(DropLast(hours))
         + if Last(hours).outcome == FullyRecoverable && Last(hours).reconstructed.Some?
           then [Last(hours).reconstructed.value] else []
  }

  function Recovered(results: seq<GapResult>): seq<Candle> {
    if results == [] then [] else Recovered(DropLast(results)) + RecoveredHours(Last(results).hours)
  }

  function AuditedTimes(results: seq<GapResult>): (r: seq<int>)
    ensures |r| == |results| && forall i | 0 <= i < |results| :: r[i] == results[i].gap.expected
  {
    seq(|results|, i requires 0 <= i < |results| => results[i].gap.expected)
  }

  /** Upserting writes, for each open time, the last candle given for it, and leaves the rest. */
  lemma {:induction false} UpsertIsLatest(m: map<Candles.Key, Candle>, series: Candles.Series, candles: seq<Candle>)
    ensures var u, latest := Candles.UpsertCandles(m, series, candles), LatestByTime(candles);
            && (forall k :: k in u <==> k in m || (k.series == series && k.openTime in latest))
            && forall k | k in u ::
                 u[k] == if k.series == series && k.openTime in latest then latest[k.openTime] else m[k]
  {
    if candles != [] { UpsertIsLatest(m, series, DropLast(candles)); }
  }

  lemma {:induction false} LatestOfConcat(a: seq<Candle>, b: seq<Candle>)
    ensures LatestByTime(a + b) == LatestByTime(a) + LatestByTime(b)
    decreases |b|
  {
    if b == [] {
      assert a + b == a;
    } else {
      assert DropLast(a + b) == a + DropLast(b);
      LatestOfConcat(a, DropLast(b));
    }
  }

  /** Merging what is stored with what was recovered lists what will be stored. */
  lemma MergedIsListing(m: map<Candles.Key, Candle>, series: Candles.Series, existing: seq<Candle>,
                        recovered: seq<Candle>, merged: seq<Candle>)
    requires Candles.Lists(m, series, None, None, existing) && (forall k | k in m :: m[k].openTime == k.openTime)
    requires ListsMap(LatestByTime(existing + recovered), merged)
    ensures Candles.Lists(Candles.UpsertCandles(m, series, recovered), series, None, None, merged)
  {
    var u := Candles.UpsertCandles(m, series, recovered);
    UpsertIsLatest(m, series, recovered);
    LatestOfConcat(existing, recovered);
    OrderedListsItself(existing);
    LatestIsKeyed(recovered);
    LatestIsKeyed(existing);
    forall c | c in merged ensures Candles.Key(series, c.openTime) in u && u[Candles.Key(series, c.openTime)] == c {
      var k := Candles.Key(series, c.openTime);
      if c.openTime !in LatestByTime(recovered) { assert LatestByTime(existing)[c.openTime] == c; }
    }
    forall k | k in u && k.series == series ensures u[k] in merged {
      if k.openTime !in LatestByTime(recovered) {
        assert m[k] in existing;
        assert LatestByTime(existing + recovered)[k.openTime] == m[k];
      }
    }
  }

  predicate HasGapAt(gaps: seq<GapRecord>, time: int) {
    exists i | 0 <= i < |gaps| :: gaps[i].expected == time
  }

  lemma {:induction false} UpsertedGaps(m: map<Candles.Key, Candles.StoredGap>, series: Candles.Series,
                                        gaps: seq<GapRecord>, at: int)
    ensures var u := Candles.UpsertGaps(m, series, gaps, at);
            && (forall k :: k in u <==> k in m || (k.series == series && HasGapAt(gaps, k.openTime)))
            && (forall k | k in u && !(k.series == series && HasGapAt(gaps, k.openTime)) :: u[k] == m[k])
            && (forall k | k in u && k.series == series && HasGapAt(gaps, k.openTime) ::
                  u[k].gap in gaps && u[k].gap.expected == k.openTime && u[k].detectedAt == at)
    decreases |gaps|
  {
    if gaps != [] {
      var before, last := DropLast(gaps), Last(gaps);
      UpsertedGaps(m, series, before, at);
      assert gaps == before + [last];
      forall time ensures HasGapAt(gaps, time) <==> HasGapAt(before, time) || last.expected == time {
        if HasGapAt(before, time) {
          var i :| 0 <= i < |before| && before[i].expected == time;
          assert gaps[i].expected == time;
        }
        assert gaps[|gaps| - 1] == last;
      }
    }
  }

  predicate GapsRise(gaps: seq<GapRecord>) {
    forall i, j | 0 <= i < j < |gaps| :: gaps[i].expected < gaps[j].expected
  }

  /** The gaps of an ordered series are reported in order. */
  lemma {:induction false} GapsOfOrderedRise(candles: seq<Candle>, step: int)
    requires step > 0 && Increasing(candles)
    ensures GapsRise(Segmented(candles, step).gaps)
    ensures forall g | g in Segmented(candles, step).gaps :: g.expected < Last(candles).openTime + step
  {
    hide Periods;
    if |candles| > 1 {
      var before := DropLast(candles);
      GapsOfOrderedRise(before, step);
      assert candles[|candles| - 2].openTime < Last(candles).openTime;
    }
  }

  /** A report covers a manifest when it has a verdict on every gap recorded for the series. */
  predicate Covers(t: Candles.Tables, series: Candles.Series, audited: seq<int>) {
    forall k | k in t.gaps && k.series == series :: k.openTime in audited
  }

  /** After a recovery by a covering report, the manifest is exactly the gaps of the candles now stored. */
  lemma ManifestIsExact(t: Candles.Tables, series: Candles.Series, recovered: seq<Candle>, merged: seq<Candle>, at: int,
                        audited: seq<int>, step: int)
    requires step > 0 && Covers(t, series, audited) && Increasing(merged)
    ensures var gaps := Segmented(merged, step).gaps;
            Candles.ListsGaps(Candles.Stored(t, series, recovered, gaps, at, audited).gaps, series, gaps)
  {
    hide Segmented, Candles.UpsertGaps, Candles.UpsertCandles, Candles.StaleKeys, Candles.ListsGaps;
    GapsOfOrderedRise(merged, step);
    NothingKept(t, series, audited);
    OnlyTheseGaps(t.gaps - Candles.StaleKeys(series, audited), series, Segmented(merged, step).gaps, at);
  }

  lemma OnlyTheseGaps(kept: map<Candles.Key, Candles.StoredGap>, series: Candles.Series, gaps: seq<GapRecord>, at: int)
    requires GapsRise(gaps) && forall k | k in kept :: k.series != series
    ensures Candles.ListsGaps(Candles.UpsertGaps(kept, series, gaps, at), series, gaps)
  {
    hide Candles.UpsertGaps;
    UpsertedGaps(kept, series, gaps, at);
    SameRecords(gaps);
    var u := Candles.UpsertGaps(kept, series, gaps, at);
    forall g | g in gaps ensures Candles.Key(series, g.expected) in u && u[Candles.Key(series, g.expected)].gap == g {
      var i :| 0 <= i < |gaps| && gaps[i] == g;
      assert HasGapAt(gaps, g.expected);
    }
  }

  /** Applying the same report again rewrites the same candles and the same gaps; only detection times move. */
  lemma ApplyingTwiceIsApplyingOnce(t: Candles.Tables, series: Candles.Series, recovered: seq<Candle>,
                                    audited: seq<int>, step: int, first: seq<Candle>, second: seq<Candle>, at: int,
                                    later: int)
    requires step > 0 && Covers(t, series, audited)
    requires Candles.Lists(Candles.UpsertCandles(t.candles, series, recovered), series, None, None, first)
    requires var once := Candles.Stored(t, series, recovered, Segmented(first, step).gaps, at, audited);
             Candles.Lists(Candles.UpsertCandles(once.candles, series, recovered), series, None, None, second)
    ensures var once := Candles.Stored(t, series, recovered, Segmented(first, step).gaps, at, audited);
            var twice := Candles.Stored(once, series, recovered, Segmented(second, step).gaps, later, audited);
            && second == first && twice.candles == once.candles && twice.gaps.Keys == once.gaps.Keys
            && forall k | k in once.gaps :: twice.gaps[k].gap == once.gaps[k].gap
                                         && (k.series != series ==> twice.gaps[k] == once.gaps[k])
  {
    hide Segmented, Candles.UpsertCandles, Candles.UpsertGaps, Candles.StaleKeys, Candles.Lists, Covers;
    var gaps := Segmented(first, step).gaps;
    var once := Candles.Stored(t, series, recovered, gaps, at, audited);
    UpsertingTwice(t.candles, series, recovered);
    Candles.ListingIsUnique(once.candles, series, None, None, first, second);
    ListsAreOrdered(t.candles, series, recovered, first);
    GapsOfOrderedRise(first, step);
    NothingKept(t, series, audited);
    var kept := t.gaps - Candles.StaleKeys(series, audited);
    UpsertedGaps(kept, series, gaps, at);
    GapRowsSettle(kept, once.gaps, series, gaps, at, later, audited);
  }

  lemma UpsertingTwice(m: map<Candles.Key, Candle>, series: Candles.Series, candles: seq<Candle>)
    ensures var once := Candles.UpsertCandles(m, series, candles); Candles.UpsertCandles(once, series, candles) == once
  {
    UpsertIsLatest(m, series, candles);
    UpsertIsLatest(Candles.UpsertCandles(m, series, candles), series, candles);
  }

  /** Replacing the rows of a series by the same gaps again changes only when they were detected. */
  lemma GapRowsSettle(kept: map<Candles.Key, Candles.StoredGap>, once: map<Candles.Key, Candles.StoredGap>,
                      series: Candles.Series, gaps: seq<GapRecord>, at: int, later: int, audited: seq<int>)
    requires GapsRise(gaps) && (forall k | k in kept :: k.series != series)
    requires once == Candles.UpsertGaps(kept, series, gaps, at)
    ensures var twice := Candles.UpsertGaps(once - Candles.StaleKeys(series, audited), series, gaps, later);
            && twice.Keys == once.Keys
            && forall k | k in once :: twice[k].gap == once[k].gap && (k.series != series ==> twice[k] == once[k])
  {
    hide Candles.UpsertGaps, HasGapAt, GapsRise;
    UpsertedGaps(kept, series, gaps, at);
    UpsertedGaps(once - Candles.StaleKeys(series, audited), series, gaps, later);
    SameRecords(gaps);
  }

  lemma NothingKept(t: Candles.Tables, series: Candles.Series, audited: seq<int>)
    requires Covers(t, series, audited)
    ensures forall k | k in t.gaps - Candles.StaleKeys(series, audited) :: k.series != series
  {
  }

  lemma SameRecords(gaps: seq<GapRecord>)
    requires GapsRise(gaps)
    ensures forall g, h | g in gaps && h in gaps && g.expected == h.expected :: g == h
  {
  }

  /**
   * The only writer: stores the recovered candles and the recomputed manifest together, or nothing. With
   * nothing recovered, the manifest is left as it was.
   */
  method ApplyGapRecovery(store: Candles.CandleTables, series: Candles.Series, step: int, report: Report, at: int)
    returns (r: ApplyOutcome, ghost merged: seq<Candle>)
    requires step > 0 && Candles.Keyed(store.Contents())
    modifies store`candles, store`gaps
    ensures !r.Stored? ==> store.Contents() == old(store.Contents())
    ensures r.Interrupted? <==> report.interrupted
    ensures r.WrongSeries? <==> !report.interrupted && report.series != series
    ensures r.NothingToRecover? <==>
              !report.interrupted && report.series == series && Recovered(report.results) == []
    ensures r.Stored? <==> !report.interrupted && report.series == series && Recovered(report.results) != []
                           && !store.faultBeforeCommit
    ensures r.Stored? ==> (
              && report.series == series && Increasing(merged)
              && Candles.Lists(store.candles, series, None, None, merged)
              && r.remaining == Segmented(merged, step).gaps && r.count == |Recovered(report.results)|
              && store.Contents() == Candles.Stored(old(store.Contents()), series, Recovered(report.results),
                                                    Segmented(merged, step).gaps, at, AuditedTimes(report.results)))
    ensures r.Stored? && Covers(old(store.Contents()), series, AuditedTimes(report.results)) ==>
              Candles.ListsGaps(store.gaps, series, r.remaining)
    ensures r.Stored? ==> forall available, symbol, cutoff | HonestReport(available, symbol, cutoff, report.results) ::
              HoldsRebuilt(old(store.candles), store.candles, series, available, symbol, report.results)
  {
    hide Segmented, Recovered, LatestByTime, Candles.UpsertCandles, Candles.UpsertGaps, Candles.Lists,
        Candles.ListsGaps, ListsMap, Covers, HonestReport, HoldsRebuilt;
    merged := [];
    if report.interrupted { return Interrupted, []; }
    if report.series != series { return WrongSeries, []; }
    var recovered, audited := Recovered(report.results), AuditedTimes(report.results);
    if recovered == [] { return NothingToRecover, []; }
    var existing := store.GetCandles(series, None, None);
    var all := DedupByOpenTime(existing + recovered);
    MergedIsListing(store.candles, series, existing, recovered, all);
    ListsAreOrdered(store.candles, series, recovered, all);
    LatestIsKeyed(existing + recovered);
    assert recovered[0] in existing + recovered;
    AcceptedExactlyWhenIncreasing(all);
    var parts := PartitionIntoSegments(all, step);
    ghost var before := store.Contents();
    var ok := store.StoreCandlesAndGaps(series, recovered, parts.value.gaps, at, audited);
    if !ok { return RolledBack, []; }
    merged := all;
    if Covers(before, series, audited) { ManifestIsExact(before, series, recovered, merged, at, audited, step); }
    forall available, symbol, cutoff | HonestReport(available, symbol, cutoff, report.results)
      ensures HoldsRebuilt(before.candles, store.candles, series, available, symbol, report.results)
    {
      AppliedHoursAreRebuilt(before.candles, series, available, symbol, cutoff, report.results);
    }
    r := Stored(|recovered|, parts.value.gaps);
  }

  /** Every verdict of the report is honest about the exchange's minutes. */
  ghost predicate HonestReport(available: seq<Candle>, symbol: string, cutoff: int, results: seq<GapResult>) {
    forall r, i | r in results && 0 <= i < |r.hours| :: Honest(available, symbol, cutoff, HourAt(r.gap, i), r.hours[i])
  }

  /** A recovered candle is the candle of a whole hour of the exchange's minutes. */
  ghost predicate IsRebuilt(available: seq<Candle>, symbol: string, c: Candle) {
    IsHourOf(c, Window(available, c.openTime, c.openTime + HOUR_MS), symbol, c.openTime)
  }

  lemma {:induction false} RecoveredHoursAreRebuilt(available: seq<Candle>, symbol: string, cutoff: int, gap: GapRecord,
                                                    hours: seq<HourOutcome>)
    requires forall i | 0 <= i < |hours| :: Honest(available, symbol, cutoff, HourAt(gap, i), hours[i])
    ensures forall c | c in RecoveredHours(hours) :: IsRebuilt(available, symbol, c)
    ensures forall o | o in hours && o.outcome == FullyRecoverable ::
              o.reconstructed.Some? && o.reconstructed.value in RecoveredHours(hours)
  {
    hide Window, IsHourOf, HourAt;
    if hours != [] {
      assert hours == DropLast(hours) + [Last(hours)];
      RecoveredHoursAreRebuilt(available, symbol, cutoff, gap, DropLast(hours));
      assert Honest(available, symbol, cutoff, HourAt(gap, |hours| - 1), Last(hours));
      RebuiltWhenRecovered(available, symbol, cutoff, HourAt(gap, |hours| - 1), Last(hours));
    }
  }

  lemma RebuiltWhenRecovered(available: seq<Candle>, symbol: string, cutoff: int, hour: int, o: HourOutcome)
    requires Honest(available, symbol, cutoff, hour, o)
    ensures o.outcome == FullyRecoverable ==>
              o.reconstructed.Some? && IsRebuilt(available, symbol, o.reconstructed.value)
  {
    hide Window, Aggregates;
  }

  lemma {:induction false} RecoveredAreRebuilt(available: seq<Candle>, symbol: string, cutoff: int,
                                               results: seq<GapResult>)
    requires HonestReport(available, symbol, cutoff, results)
    ensures forall c | c in Recovered(results) :: IsRebuilt(available, symbol, c)
    ensures forall r, o | r in results && o in r.hours && o.outcome == FullyRecoverable ::
              o.reconstructed.Some? && o.reconstructed.value in Recovered(results)
  {
    hide IsRebuilt, Honest, RecoveredHours;
    if results != [] {
      assert results == DropLast(results) + [Last(results)];
      RecoveredAreRebuilt(available, symbol, cutoff, DropLast(results));
      RecoveredHoursAreRebuilt(available, symbol, cutoff, Last(results).gap, Last(results).hours);
    }
  }

  /**
   * What applying an honest report leaves in the series: for every hour it recovered, the candle of the exchange's
   * sixty minutes; for every other hour, what was there.
   */
  ghost predicate HoldsRebuilt(before: map<Candles.Key, Candle>, after: map<Candles.Key, Candle>,
                               series: Candles.Series, available: seq<Candle>, symbol: string,
                               results: seq<GapResult>) {
    && (forall k | k in after :: (k in before && after[k] == before[k])
                                 || (k.series == series && after[k].openTime == k.openTime
                                     && IsRebuilt(available, symbol, after[k])))
    && (forall r, o | r in results && o in r.hours && o.outcome == FullyRecoverable ::
          var k := Candles.Key(series, o.openTime);
          k in after && after[k].openTime == o.openTime && IsRebuilt(available, symbol, after[k]))
  }

  lemma AppliedHoursAreRebuilt(before: map<Candles.Key, Candle>, series: Candles.Series, available: seq<Candle>,
                               symbol: string, cutoff: int, results: seq<GapResult>)
    requires HonestReport(available, symbol, cutoff, results)
    ensures HoldsRebuilt(before, Candles.UpsertCandles(before, series, Recovered(results)), series, available, symbol,
                         results)
  {
    hide Recovered, LatestByTime, Candles.UpsertCandles, IsRebuilt, HonestReport;
    RecoveredAreRebuilt(available, symbol, cutoff, results);
    UpsertIsLatest(before, series, Recovered(results));
    LatestIsKeyed(Recovered(results));
    forall r, o | r in results && o in r.hours && o.outcome == FullyRecoverable
      ensures o.reconstructed.Some? && o.reconstructed.value.openTime == o.openTime
    {
      RebuiltKeepsTime(available, symbol, cutoff, results, r, o);
    }
  }

  lemma RebuiltKeepsTime(available: seq<Candle>, symbol: string, cutoff: int, results: seq<GapResult>, r: GapResult,
                         o: HourOutcome)
    requires HonestReport(available, symbol, cutoff, results)
    requires r in results && o in r.hours && o.outcome == FullyRecoverable
    ensures o.reconstructed.Some? && o.reconstructed.value.openTime == o.openTime
  {
    hide Window, Aggregates, EveryMinute;
    var i :| 0 <= i < |r.hours| && r.hours[i] == o;
    assert Honest(available, symbol, cutoff, HourAt(r.gap, i), r.hours[i]);
  }

  lemma ListsAreOrdered(m: map<Candles.Key, Candle>, series: Candles.Series, recovered: seq<Candle>, all: seq<Candle>)
    requires Candles.Lists(Candles.UpsertCandles(m, series, recovered), series, None, None, all)
    ensures Increasing(all)
  {
  }
}
