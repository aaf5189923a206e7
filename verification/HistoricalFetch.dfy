// Downloading a range page by page (data/historical_fetch.py, data/boundary.py) from a server that returns
// the first candles of an inclusive time range. A request may fail; retries are bounded.

module HistoricalFetch {
  import opened Common
  import opened Grid
  import opened GapDetection
  import CandleStore

  // ----- The server -------------------------------------------------------------------------------------------

  /** How many candles of an ordered history open before `time`. */
  function Before(candles: seq<Candle>, time: int): (n: nat)
    ensures n <= |candles|
  {
    if candles == [] then 0
    else if Last(candles).openTime < time then |candles|
    else Before(DropLast(candles), time)
  }

  lemma {:induction false} BeforeSplits(candles: seq<Candle>, time: int)
    requires Increasing(candles)
    ensures forall i | 0 <= i < |candles| :: candles[i].openTime < time <==> i < Before(candles, time)
  {
    if candles != [] && Last(candles).openTime >= time {
      BeforeSplits(DropLast(candles), time);
      forall i | 0 <= i < |candles| ensures candles[i].openTime < time <==> i < Before(candles, time) {
        if i < |candles| - 1 { assert DropLast(candles)[i] == candles[i]; }
      }
    }
  }

  lemma BeforeMonotone(candles: seq<Candle>, early: int, late: int)
    requires Increasing(candles) && early <= late
    ensures Before(candles, early) <= Before(candles, late)
  {
  }

  /** The candles opening in [from, to). */
  function Window(candles: seq<Candle>, from: int, to: int): seq<Candle> {
    var i, j := Before(candles, from), Before(candles, to);
    if i <= j then candles[i..j] else []
  }

  lemma WindowIsExact(candles: seq<Candle>, from: int, to: int)
    requires Increasing(candles)
    ensures forall c :: c in Window(candles, from, to) <==> c in candles && from <= c.openTime < to
    ensures Increasing(Window(candles, from, to))
  {
    BeforeSplits(candles, from);
    BeforeSplits(candles, to);
    var i, j := Before(candles, from), Before(candles, to);
    forall c | c in candles && from <= c.openTime < to ensures c in Window(candles, from, to) {
      var k :| 0 <= k < |candles| && candles[k] == c;
      assert i <= k < j;
      assert candles[i..j][k - i] == c;
    }
  }

  /** What the exchange answers: at most `limit` candles of the inclusive range, earliest first. */
  function Serve(available: seq<Candle>, from: int, toInclusive: int, limit: int): seq<Candle> {
    var w := Window(available, from, toInclusive + 1);
    if limit <= 0 then [] else if |w| <= limit then w else w[..limit]
  }

  predicate Spaced(candles: seq<Candle>, step: int) {
    forall i, j | 0 <= i < j < |candles| :: candles[i].openTime + step <= candles[j].openTime
  }

  // ----- One page -----------------------------------------------------------------------------------------------

  datatype FetchError = RetriesExhausted | BadSeries(error: SeriesError) | BeyondEnd

  datatype FetchResult = FetchResult(candles: seq<Candle>, gaps: seq<GapRecord>)

  function BelowEnd(candles: seq<Candle>, end: int): seq<Candle> {
    if candles == [] then []
    else BelowEnd(DropLast(candles), end) + if Last(candles).openTime < end then [Last(candles)] else []
  }

  lemma {:induction false} NothingBeyond(candles: seq<Candle>, end: int)
    requires forall c | c in candles :: c.openTime < end
    ensures BelowEnd(candles, end) == candles
  {
    if candles != [] {
      assert candles == DropLast(candles) + [Last(candles)];
      assert Last(candles) in candles;
      NothingBeyond(DropLast(candles), end);
    }
  }

  /** Whether an attempt of the request for [from, to) fails on its way; any of them may. */
  type Faults = (int, int, nat) -> bool

  /** Some attempt of the request gets through. */
  predicate Reaches(faults: Faults, from: int, to: int, maxRetries: nat) {
    exists attempt: nat :: attempt < maxRetries && !faults(from, to, attempt)
  }

  /** A page, exactly when an attempt gets through, is what the server has first in the range. */
  method FetchPageWithRetries(available: seq<Candle>, from: int, end: int, limit: int, maxRetries: nat, faults: Faults)
    returns (page: Result<seq<Candle>, FetchError>)
    requires Increasing(available)
    ensures page == if Reaches(faults, from, end, maxRetries) then Ok(Serve(available, from, end - 1, limit))
                    else Err(RetriesExhausted)
  {
    for attempt := 0 to maxRetries
      invariant forall i: nat | i < attempt :: faults(from, end, i)
    {
      if !faults(from, end, attempt) {
        var served := Serve(available, from, end - 1, limit);
        WindowIsExact(available, from, end);
        NothingBeyond(served, end);
        return Ok(BelowEnd(served, end));
      }
    }
    page := Err(RetriesExhausted);
  }

  // ----- Paging ------------------------------------------------------------------------------------------------------

  /** The count before a time is settled by its neighbours. */
  lemma BeforeIs(candles: seq<Candle>, time: int, n: nat)
    requires Increasing(candles) && n <= |candles|
    requires n > 0 ==> candles[n - 1].openTime < time
    requires n < |candles| ==> candles[n].openTime >= time
    ensures Before(candles, time) == n
  {
  }

  /** A page is the stretch of candles right after the cursor. */
  lemma PageIsSlice(available: seq<Candle>, cursor: int, end: int, limit: int)
    requires Increasing(available) && cursor < end && limit >= 1
    ensures var j, k := Before(available, cursor), Before(available, end);
            var page := Serve(available, cursor, end - 1, limit);
            && j <= k && j + |page| <= k && page == available[j..j + |page|]
            && (|page| < limit ==> j + |page| == k)
            && (page == [] ==> j == k)
  {
  }

  /** One page continues exactly where the previous ones stopped, and a full page leaves nothing out before its end. */
  lemma PageContinues(available: seq<Candle>, step: int, start: int, cursor: int, end: int, limit: int)
    requires step > 0 && limit >= 1 && start <= cursor < end && Increasing(available) && Spaced(available, step)
    ensures var page := Serve(available, cursor, end - 1, limit);
            && (page == [] ==> Window(available, start, end) == Window(available, start, cursor))
            && (page != [] ==>
                  var next := Last(page).openTime + step;
                  && next > cursor
                  && Window(available, start, cursor) + page
                     == Window(available, start, if next < end then next else end)
                  && (|page| < limit ==> Window(available, start, cursor) + page == Window(available, start, end)))
  {
    hide Serve;
    PageIsSlice(available, cursor, end, limit);
    BeforeMonotone(available, start, cursor);
    var i, j, k := Before(available, start), Before(available, cursor), Before(available, end);
    var page := Serve(available, cursor, end - 1, limit);
    if page != [] {
      var l := j + |page|;
      assert Last(page) == available[l - 1];
      BeforeSplits(available, cursor);
      BeforeIs(available, Last(page).openTime + step, l);
      BeforeSplits(available, end);
      assert available[i..j] + available[j..l] == available[i..l];
      if Last(page).openTime + step >= end { BeforeMonotone(available, end, Last(page).openTime + step); }
    }
  }

  lemma WindowGrows(available: seq<Candle>, lo: int, mid: int, hi: int)
    requires Increasing(available) && lo <= mid <= hi
    ensures Window(available, lo, mid) <= Window(available, lo, hi)
  {
    BeforeMonotone(available, lo, mid);
    BeforeMonotone(available, mid, hi);
  }

  /** Where the request for the page after `n` full ones starts, in a download of these candles. */
  function PageStart(wanted: seq<Candle>, step: int, start: int, limit: int, n: nat): int {
    var m := Times(n, limit);
    if 0 < m <= |wanted| then wanted[m - 1].openTime + step else start
  }

  /** The page after `n` full ones is asked for in vain. */
  predicate PageFails(wanted: seq<Candle>, step: int, start: int, end: int, limit: int, maxRetries: nat, faults: Faults,
                      n: nat) {
    var from := PageStart(wanted, step, start, limit, n);
    Times(n, limit) <= |wanted| && from < end && !Reaches(faults, from, end, maxRetries)
  }

  /** How far a download has come after `n` full pages. */
  predicate Downloaded(wanted: seq<Candle>, step: int, start: int, limit: int, n: nat, found: seq<Candle>,
                       cursor: int) {
    |found| == Times(n, limit) && found <= wanted && cursor == PageStart(wanted, step, start, limit, n)
  }

  /** A full page counts; a short one is the last, and nothing after it is asked for. */
  lemma OneMorePage(available: seq<Candle>, step: int, start: int, cursor: int, end: int, limit: int, n: nat)
    requires step > 0 && limit >= 1 && start <= cursor < end && Increasing(available) && Spaced(available, step)
    requires Downloaded(Window(available, start, end), step, start, limit, n, Window(available, start, cursor), cursor)
    ensures var wanted, page := Window(available, start, end), Serve(available, cursor, end - 1, limit);
            && |page| <= limit
            && (|page| < limit ==> |wanted| < Times(n + 1, limit))
            && (|page| == limit ==> Downloaded(wanted, step, start, limit, n + 1,
                                               Window(available, start, cursor) + page, Last(page).openTime + step))
  {
    hide Window, Increasing, Spaced;
    var wanted, page := Window(available, start, end), Serve(available, cursor, end - 1, limit);
    PageIsLimited(available, cursor, end, limit);
    PageContinues(available, step, start, cursor, end, limit);
    TimesAdds(n, 1, limit);
    TimesMonotone(0, n + 1, limit);
    if |page| == limit {
      var next := Last(page).openTime + step;
      WindowGrows(available, start, if next < end then next else end, end);
      assert (Window(available, start, cursor) + page)[Times(n + 1, limit) - 1] == Last(page);
    }
  }

  lemma PageIsLimited(available: seq<Candle>, cursor: int, end: int, limit: int)
    requires limit >= 1
    ensures |Serve(available, cursor, end - 1, limit)| <= limit
  {
  }

  lemma NoPageAfter(wanted: seq<Candle>, step: int, start: int, end: int, limit: int, maxRetries: nat, faults: Faults,
                    n: nat)
    requires limit >= 1 && |wanted| < Times(n, limit)
    ensures forall k: nat | k >= n :: !PageFails(wanted, step, start, end, limit, maxRetries, faults, k)
  {
    forall k: nat | k >= n ensures Times(k, limit) > |wanted| { TimesMonotone(n, k, limit); }
  }

  /** Pages are gathered to the end of the range, unless one of those it takes cannot be had. */
  method FetchPages(available: seq<Candle>, step: int, start: int, end: int, limit: int, maxRetries: nat,
                    faults: Faults)
    returns (all: Result<seq<Candle>, FetchError>)
    requires step > 0 && limit >= 1 && Increasing(available) && Spaced(available, step)
    ensures all.Ok? ==> all.value == Window(available, start, end)
    ensures all.Err? ==> all.error == RetriesExhausted
    ensures all.Err? <==> exists n: nat ::
              PageFails(Window(available, start, end), step, start, end, limit, maxRetries, faults, n)
  {
    hide Window, Spaced, Increasing, Reaches, Serve;
    var found: seq<Candle> := [];
    var cursor := start;
    NothingYet(available, start, end);
    ghost var wanted, n := Window(available, start, end), 0;
    while cursor < end
      invariant start <= cursor
      invariant found == Window(available, start, if cursor < end then cursor else end)
      invariant Downloaded(wanted, step, start, limit, n, found, cursor)
      invariant forall k: nat | k < n :: !PageFails(wanted, step, start, end, limit, maxRetries, faults, k)
      decreases end - cursor
    {
      var page := FetchPageWithRetries(available, cursor, end, limit, maxRetries, faults);
      if page.Err? {
        assert PageFails(wanted, step, start, end, limit, maxRetries, faults, n);
        return Err(page.error);
      }
      PageContinues(available, step, start, cursor, end, limit);
      OneMorePage(available, step, start, cursor, end, limit, n);
      if |page.value| < limit { NoPageAfter(wanted, step, start, end, limit, maxRetries, faults, n + 1); }
      if page.value == [] { return Ok(found); }
      found := found + page.value;
      cursor := Last(page.value).openTime + step;
      if |page.value| < limit { return Ok(found); }
      n := n + 1;
    }
    TimesAdds(n, 1, limit);
    NoPageAfter(wanted, step, start, end, limit, maxRetries, faults, n + 1);
    all := Ok(found);
  }

  lemma NothingYet(available: seq<Candle>, start: int, end: int)
    ensures Window(available, start, start) == []
    ensures start >= end ==> Window(available, start, end) == [] || !Increasing(available)
  {
    if Increasing(available) && start >= end { BeforeMonotone(available, end, start); }
  }

  // ----- Completeness and duplicates -----------------------------------------------------------------------------

  function Completed(candles: seq<Candle>, reference: int): seq<Candle> {
    if candles == [] then []
    else Completed(DropLast(candles), reference) + if Last(candles).closeTime < reference then [Last(candles)] else []
  }

  /** When close times rise with open times, the completed candles are the earliest ones. */
  lemma {:induction false} CompletedIsPrefix(candles: seq<Candle>, reference: int)
    requires forall i, j | 0 <= i < j < |candles| :: candles[i].closeTime < candles[j].closeTime
    ensures Completed(candles, reference) <= candles
    ensures forall i | 0 <= i < |candles| :: candles[i].closeTime < reference <==> i < |Completed(candles, reference)|
  {
    if candles != [] {
      CompletedIsPrefix(DropLast(candles), reference);
      if Last(candles).closeTime < reference {
        assert Completed(DropLast(candles), reference) == DropLast(candles) by {
          var n := |DropLast(candles)|;
          if n > 0 { assert DropLast(candles)[n - 1].closeTime < reference; }
        }
      }
    }
  }

  function LatestByTime(candles: seq<Candle>): map<int, Candle> {
    if candles == [] then map[] else LatestByTime(DropLast(candles))[Last(candles).openTime := Last(candles)]
  }

  ghost predicate ListsMap(m: map<int, Candle>, candles: seq<Candle>) {
    && Increasing(candles)
    && (forall c | c in candles :: c.openTime in m && m[c.openTime] == c)
    && (forall t | t in m :: m[t] in candles)
  }

  /** The last candle given for each open time, by open time. */
  method DedupByOpenTime(candles: seq<Candle>) returns (unique: seq<Candle>)
    ensures ListsMap(LatestByTime(candles), unique)
  {
    var seen: map<int, Candle> := map[];
    for i := 0 to |candles|
      invariant seen == LatestByTime(candles[..i])
    {
      assert DropLast(candles[..i + 1]) == candles[..i];
      seen := seen[candles[i].openTime := candles[i]];
    }
    assert candles[..|candles|] == candles;
    LatestIsKeyed(candles);
    unique := ListInOrder(set t | t in seen :: seen[t], OpensAt);
    KeyedValuesList(seen, unique);
  }

  function OpensAt(c: Candle): int { c.openTime }

  lemma KeyedValuesList(m: map<int, Candle>, listed: seq<Candle>)
    requires (forall t | t in m :: m[t].openTime == t) && ListsInOrder(set t | t in m :: m[t], OpensAt, listed)
    ensures ListsMap(m, listed)
  {
    forall c | c in listed ensures c.openTime in m && m[c.openTime] == c {}
    forall i, j | 0 <= i < j < |listed| ensures listed[i].openTime < listed[j].openTime {
      assert listed[i] in listed && listed[j] in listed;
      assert OpensAt(listed[i]) <= OpensAt(listed[j]);
    }
  }

  lemma {:induction false} LatestIsKeyed(candles: seq<Candle>)
    ensures forall t | t in LatestByTime(candles) ::
              LatestByTime(candles)[t].openTime == t && LatestByTime(candles)[t] in candles
    ensures forall c | c in candles :: c.openTime in LatestByTime(candles)
  {
    if candles != [] {
      LatestIsKeyed(DropLast(candles));
      assert candles == DropLast(candles) + [Last(candles)];
    }
  }

  /** An already ordered list has nothing to remove or reorder. */
  lemma {:induction false} OrderedListsItself(candles: seq<Candle>)
    requires Increasing(candles)
    ensures ListsMap(LatestByTime(candles), candles)
  {
    if candles != [] {
      var before, last := DropLast(candles), Last(candles);
      OrderedListsItself(before);
      forall c | c in candles ensures c.openTime in LatestByTime(candles) && LatestByTime(candles)[c.openTime] == c {
        var i :| 0 <= i < |candles| && candles[i] == c;
        if i < |before| { assert before[i] == c && c in before; }
      }
    }
  }

  lemma DedupOfOrdered(candles: seq<Candle>, unique: seq<Candle>)
    requires Increasing(candles) && ListsMap(LatestByTime(candles), unique)
    ensures unique == candles
  {
    OrderedListsItself(candles);
    CandleStore.IncreasingListIsUnique(unique, candles);
  }

  // ----- Confirming gaps ---------------------------------------------------------------------------------------------

  predicate InGap(g: GapRecord, c: Candle) {
    g.expected <= c.openTime < g.next
  }

  function InGapOnly(page: seq<Candle>, g: GapRecord): (r: seq<Candle>)
    ensures forall c :: c in r <==> c in page && InGap(g, c)
  {
    if page == [] then []
    else
      assert page == DropLast(page) + [Last(page)];
      InGapOnly(DropLast(page), g) + if InGap(g, Last(page)) then [Last(page)] else []
  }

  lemma {:induction false} BelowEndKeeps(candles: seq<Candle>, end: int)
    ensures forall c :: c in BelowEnd(candles, end) <==> c in candles && c.openTime < end
  {
    if candles != [] {
      BelowEndKeeps(DropLast(candles), end);
      assert candles == DropLast(candles) + [Last(candles)];
    }
  }

  /** A candle the server could add inside a gap. */
  ghost predicate Fills(available: seq<Candle>, g: GapRecord, end: int, c: Candle) {
    c in available && InGap(g, c) && c.openTime < end
  }

  predicate GapOfStep(g: GapRecord, step: int)
    requires step > 0
  {
    g.expected == g.previous + step && g.missing == Periods(g.next - g.previous, step) - 1
  }

  lemma {:induction false} SpacedReaches(candles: seq<Candle>, step: int, n: nat)
    requires n < |candles| && Spaced(candles, step)
    ensures candles[n].openTime >= candles[0].openTime + Times(n, step)
  {
    TimesAdds(n - 1, 1, step);
    if n > 0 { SpacedReaches(candles, step, n - 1); }
  }

  /** A spaced server has no more candles in a gap than the focused request asks for. */
  lemma GapFitsRequest(available: seq<Candle>, step: int, g: GapRecord)
    requires step > 0 && Increasing(available) && Spaced(available, step) && GapOfStep(g, step)
    ensures Window(available, g.expected, g.next) == [] || |Window(available, g.expected, g.next)| <= g.missing + 2
  {
    var w := Window(available, g.expected, g.next);
    WindowIsExact(available, g.expected, g.next);
    PeriodsBound(g.next - g.previous, step);
    if w != [] {
      var n := |w| - 1;
      assert w[0] in w && w[n] in w;
      WindowKeepsSpacing(available, step, g.expected, g.next);
      SpacedReaches(w, step, n);
      TimesAdds(n, 1, step);
      TimesMonotone(n + 1, g.missing + 2, step);
    }
  }

  lemma WindowKeepsSpacing(available: seq<Candle>, step: int, from: int, to: int)
    requires Increasing(available) && Spaced(available, step)
    ensures Spaced(Window(available, from, to), step)
  {
  }

  lemma NarrowPageFills(available: seq<Candle>, step: int, g: GapRecord, end: int, c: Candle)
    requires step > 0 && Increasing(available) && Spaced(available, step) && GapOfStep(g, step)
    ensures c in BelowEnd(InGapOnly(Serve(available, g.expected, g.next - 1, g.missing + 2), g), end)
       <==> Fills(available, g, end, c)
  {
    hide Window, Spaced, GapOfStep, Increasing;
    WindowIsExact(available, g.expected, g.next);
    GapFitsRequest(available, step, g);
    BelowEndKeeps(InGapOnly(Serve(available, g.expected, g.next - 1, g.missing + 2), g), end);
  }

  /** A focused request for exactly the missing stretch, retried while nothing comes back. */
  method AttemptNarrowRecovery(available: seq<Candle>, step: int, g: GapRecord, end: int, maxRetries: nat,
                               faults: Faults)
    returns (found: seq<Candle>)
    requires step > 0 && Increasing(available) && Spaced(available, step) && GapOfStep(g, step)
    ensures forall c :: c in found <==> Reaches(faults, g.expected, g.next, maxRetries) && Fills(available, g, end, c)
  {
    hide Window, Spaced, GapOfStep, Increasing, Fills;
    found := [];
    for attempt := 0 to maxRetries
      invariant found == []
      invariant (forall i: nat | i < attempt :: faults(g.expected, g.next, i))
                || forall c :: !Fills(available, g, end, c)
    {
      if !faults(g.expected, g.next, attempt) {
        var page := Serve(available, g.expected, g.next - 1, g.missing + 2);
        var inside := InGapOnly(page, g);
        found := BelowEnd(inside, end);
        forall c ensures c in found <==> Fills(available, g, end, c) { NarrowPageFills(available, step, g, end, c); }
        if found != [] { return; }
        forall c ensures !Fills(available, g, end, c) {
          assert c !in found;
        }
      }
    }
  }

  /** The server has nothing inside any of the gaps of a list. */
  ghost predicate TrulyMissing(available: seq<Candle>, candles: seq<Candle>, step: int)
    requires step > 0
  {
    forall g | g in Segmented(candles, step).gaps :: !HasCandleIn(available, g)
  }

  ghost predicate HasCandleIn(available: seq<Candle>, g: GapRecord) {
    exists c :: c in available && InGap(g, c)
  }

  /** The requests that ask for gaps: how often they may be tried, which attempts fail, and where they end. */
  datatype Requests = Requests(available: seq<Candle>, end: int, maxRetries: nat, faults: Faults)

  /** A candle of the server in one of these gaps whose request gets through. */
  ghost predicate FillsReached(q: Requests, gaps: seq<GapRecord>, c: Candle) {
    exists g :: g in gaps && Reaches(q.faults, g.expected, g.next, q.maxRetries) && Fills(q.available, g, q.end, c)
  }

  /** No given candle lies in a gap between given candles. */
  lemma GapsHoldNoneGiven(candles: seq<Candle>, step: int, g: GapRecord)
    requires step > 0 && Increasing(candles) && g in Segmented(candles, step).gaps
    ensures GapOfStep(g, step) && forall c | c in candles :: !InGap(g, c)
  {
    hide Segmented;
    GapsAreBetweenNeighbours(candles, step, g);
    var i :| 0 <= i < |candles| - 1 && g == GapBetween(candles[i], candles[i + 1], step);
    NothingBetweenNeighbours(candles, i, g, step);
    assert !HasCandleIn(candles, g);
  }

  lemma AddedTimeIsNew(q: Requests, step: int, candles: seq<Candle>, gaps: seq<GapRecord>, given: Candle,
                       added: Candle)
    requires step > 0 && Increasing(candles) && gaps == Segmented(candles, step).gaps && given in candles
    requires FillsReached(q, gaps, added)
    ensures given.openTime != added.openTime
  {
    hide Segmented, Increasing;
    var g :| g in gaps && Fills(q.available, g, q.end, added);
    GapsHoldNoneGiven(candles, step, g);
    assert Fills(q.available, g, q.end, added);
  }

  /** Given candles and what the server adds inside their gaps never claim the same time twice. */
  lemma NoTimeTwice(q: Requests, step: int, candles: seq<Candle>, gaps: seq<GapRecord>, c: Candle, d: Candle)
    requires step > 0 && Increasing(q.available) && Increasing(candles) && gaps == Segmented(candles, step).gaps
    requires (c in candles || FillsReached(q, gaps, c)) && (d in candles || FillsReached(q, gaps, d))
    requires c.openTime == d.openTime
    ensures c == d
  {
    hide Segmented, Increasing, FillsReached;
    CandleStore.SameTimeSameCandle(q.available);
    CandleStore.SameTimeSameCandle(candles);
    if c !in candles {
      forall g | g in candles ensures g.openTime != c.openTime { AddedTimeIsNew(q, step, candles, gaps, g, c); }
      AddedIsAvailable(q, gaps, c);
    }
    if d !in candles {
      forall g | g in candles ensures g.openTime != d.openTime { AddedTimeIsNew(q, step, candles, gaps, g, d); }
      AddedIsAvailable(q, gaps, d);
    }
  }

  lemma AddedIsAvailable(q: Requests, gaps: seq<GapRecord>, c: Candle)
    requires FillsReached(q, gaps, c)
    ensures c in q.available
  {
  }

  /** When equal times mean equal candles, listing by time keeps every candle. */
  lemma {:induction false} DistinctTimesKept(candles: seq<Candle>)
    requires forall c, d | c in candles && d in candles && c.openTime == d.openTime :: c == d
    ensures forall c | c in candles :: c.openTime in LatestByTime(candles) && LatestByTime(candles)[c.openTime] == c
  {
    if candles != [] {
      assert candles == DropLast(candles) + [Last(candles)];
      DistinctTimesKept(DropLast(candles));
    }
  }

  lemma ListedExactly(candles: seq<Candle>, listed: seq<Candle>)
    requires forall c, d | c in candles && d in candles && c.openTime == d.openTime :: c == d
    requires ListsMap(LatestByTime(candles), listed)
    ensures forall c :: c in listed <==> c in candles
  {
    hide LatestByTime, Increasing;
    DistinctTimesKept(candles);
    LatestIsKeyed(candles);
  }

  /**
   * Every given candle is kept, and every gap whose request gets through gains exactly what the server has in
   * it; the gaps reported are those left.
   */
  method ConfirmGaps(step: int, candles: seq<Candle>, q: Requests)
    returns (r: Result<FetchResult, FetchError>)
    requires step > 0 && Increasing(q.available) && Spaced(q.available, step)
    ensures r.Err? <==> candles == [] || !Increasing(candles)
    ensures r.Ok? ==> Increasing(r.value.candles) && r.value.gaps == Segmented(r.value.candles, step).gaps
    ensures r.Ok? ==> forall c :: c in r.value.candles <==>
              c in candles || FillsReached(q, Segmented(candles, step).gaps, c)
  {
    hide Segmented, Increasing, Spaced, LatestByTime, Reaches;
    var first := PartitionIntoSegments(candles, step);
    AcceptedExactlyWhenIncreasing(candles);
    if first.Err? { return Err(BadSeries(first.error)); }
    var gaps := first.value.gaps;
    if gaps == [] { return Ok(FetchResult(candles, [])); }
    var recovered := candles;
    for i := 0 to |gaps|
      invariant recovered != []
      invariant forall c :: c in recovered <==> c in candles || FillsReached(q, gaps[..i], c)
    {
      GapsHoldNoneGiven(candles, step, gaps[i]);
      var found := AttemptNarrowRecovery(q.available, step, gaps[i], q.end, q.maxRetries, q.faults);
      OneMoreReached(q, gaps, i);
      recovered := recovered + found;
    }
    assert gaps[..|gaps|] == gaps;
    var final := DedupByOpenTime(recovered);
    forall c, d | c in recovered && d in recovered && c.openTime == d.openTime ensures c == d {
      NoTimeTwice(q, step, candles, gaps, c, d);
    }
    ListedExactly(recovered, final);
    assert recovered[0] in final;
    AcceptedExactlyWhenIncreasing(final);
    var second := PartitionIntoSegments(final, step);
    r := Ok(FetchResult(final, second.value.gaps));
  }

  lemma OneMoreReached(q: Requests, gaps: seq<GapRecord>, i: nat)
    requires i < |gaps|
    ensures forall c :: FillsReached(q, gaps[..i + 1], c) <==>
              FillsReached(q, gaps[..i], c) || (Reaches(q.faults, gaps[i].expected, gaps[i].next, q.maxRetries)
                                                && Fills(q.available, gaps[i], q.end, c))
  {
    hide Fills, Reaches;
    assert gaps[..i + 1] == gaps[..i] + [gaps[i]];
  }

  /** If nothing is truly missing from a list, no request adds anything. */
  lemma NothingToAdd(q: Requests, step: int, candles: seq<Candle>, listed: seq<Candle>)
    requires step > 0 && TrulyMissing(q.available, candles, step) && Increasing(candles) && Increasing(listed)
    requires forall c :: c in listed <==> c in candles || FillsReached(q, Segmented(candles, step).gaps, c)
    ensures listed == candles
  {
    hide Segmented, Reaches;
    var gaps := Segmented(candles, step).gaps;
    forall c ensures !FillsReached(q, gaps, c) {
      forall g | g in gaps ensures !Fills(q.available, g, q.end, c) {
        assert !HasCandleIn(q.available, g);
      }
    }
    CandleStore.IncreasingListIsUnique(listed, candles);
  }

  // ----- The whole download -----------------------------------------------------------------------------------------

  predicate OnClock(candles: seq<Candle>, step: int) {
    forall i | 0 <= i < |candles| :: candles[i].closeTime == candles[i].openTime + step - 1
  }

  /** Nothing the server has lies strictly between two neighbours of a stretch of its own history. */
  lemma StretchHasNoHiddenCandles(available: seq<Candle>, step: int, lo: nat, hi: nat)
    requires step > 0 && lo <= hi <= |available| && Increasing(available)
    ensures TrulyMissing(available, available[lo..hi], step)
  {
    hide Segmented, HasCandleIn, GapBetween, Increasing;
    var stretch := available[lo..hi];
    forall g | g in Segmented(stretch, step).gaps ensures !HasCandleIn(available, g) {
      GapsAreBetweenNeighbours(stretch, step, g);
      var i :| 0 <= i < |stretch| - 1 && g == GapBetween(stretch[i], stretch[i + 1], step);
      assert stretch[i] == available[lo + i] && stretch[i + 1] == available[lo + i + 1];
      NothingBetweenNeighbours(available, lo + i, g, step);
    }
  }

  lemma NothingBetweenNeighbours(available: seq<Candle>, i: nat, g: GapRecord, step: int)
    requires step > 0 && i + 1 < |available| && Increasing(available)
    requires g == GapBetween(available[i], available[i + 1], step)
    ensures !HasCandleIn(available, g)
  {
  }

  /** The completed candles of a window are a stretch of the server's history, in order and below the end. */
  lemma CompletedStretch(available: seq<Candle>, step: int, start: int, end: int, reference: int)
    requires step > 0 && Increasing(available) && OnClock(available, step)
    ensures var w := Window(available, start, end); var done := Completed(w, reference);
            && BelowEnd(w, end) == w && Increasing(done) && TrulyMissing(available, done, step)
            && forall c | c in done :: c.openTime < end
  {
    hide TrulyMissing, Window, Before, BelowEnd, Completed, OnClock;
    var w := Window(available, start, end);
    WindowIsExact(available, start, end);
    NothingBeyond(w, end);
    WindowOnClock(available, step, start, end);
    CompletedIsPrefix(w, reference);
    PrefixOfWindow(available, start, end, |Completed(w, reference)|);
    assert Completed(w, reference) == w[..|Completed(w, reference)|];
    var i := Before(available, start);
    StretchHasNoHiddenCandles(available, step, i, i + |Completed(w, reference)|);
  }

  lemma PrefixOfWindow(available: seq<Candle>, start: int, end: int, n: nat)
    requires n <= |Window(available, start, end)| && Increasing(available)
    ensures var i := Before(available, start);
            i + n <= |available| && Window(available, start, end)[..n] == available[i..i + n]
    ensures Increasing(Window(available, start, end)[..n])
    ensures forall c | c in Window(available, start, end)[..n] :: c in Window(available, start, end)
  {
  }

  lemma WindowOnClock(available: seq<Candle>, step: int, from: int, to: int)
    requires Increasing(available) && OnClock(available, step)
    ensures var w := Window(available, from, to); forall i, j | 0 <= i < j < |w| :: w[i].closeTime < w[j].closeTime
  {
  }

  /**
   * Unless a page it takes cannot be had, the download is exactly the completed candles the server has in
   * [start, end), in order and without repeats, with exactly the gaps between them, whatever the page limit.
   */
  method FetchHistoricalRange(available: seq<Candle>, step: int, start: int, end: int, limit: int, maxRetries: nat,
                              reference: int, faults: Faults)
    returns (r: Result<FetchResult, FetchError>)
    requires step > 0 && limit >= 1 && Increasing(available) && Spaced(available, step) && OnClock(available, step)
    ensures r.Ok? ==> r.value.candles == Completed(Window(available, start, end), reference)
    ensures r.Ok? ==> r.value.gaps == Segmented(r.value.candles, step).gaps
    ensures r.Err? ==> r.error == RetriesExhausted
    ensures r.Err? <==> exists n: nat ::
              PageFails(Window(available, start, end), step, start, end, limit, maxRetries, faults, n)
  {
    hide Window, Completed, Segmented, TrulyMissing, LatestByTime, BelowEnd, PageFails;
    var pages := FetchPages(available, step, start, end, limit, maxRetries, faults);
    if pages.Err? { return Err(pages.error); }
    CompletedStretch(available, step, start, end, reference);
    var completed := Completed(BelowEnd(pages.value, end), reference);
    var unique := DedupByOpenTime(completed);
    DedupOfOrdered(completed, unique);
    if unique == [] {
      NoGapsInNothing(step);
      return Ok(FetchResult([], []));
    }
    var q := Requests(available, end, maxRetries, faults);
    r := ConfirmGaps(step, unique, q);
    if r.Ok? {
      NothingToAdd(q, step, unique, r.value.candles);
      var beyond := exists c :: c in r.value.candles && c.openTime >= end;
      if beyond { return Err(BeyondEnd); }
    }
  }

  lemma NoGapsInNothing(step: int)
    requires step > 0
    ensures Segmented([], step).gaps == []
  {
  }
}
