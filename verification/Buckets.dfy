// Aggregating hourly candles into completed higher-timeframe buckets on a fixed grid
// (research/candidates/multitimeframe_breakout.py, _aggregate_completed_buckets).

module Buckets {
  import opened Common
  import opened Grid
  import opened GapDetection
  import opened Indicators

  const FOUR_H_HOURS := 4
  const WEEK_HOURS := 7 * 24
  const EPOCH_MONDAY_OFFSET_MS := 3 * 24 * HOUR_MS

  /** A grid of cells of whole hours; weeks are shifted so that they start on a Monday. */
  datatype CellGrid = CellGrid(hours: nat, offset: int)

  const FOUR_H := CellGrid(FOUR_H_HOURS, 0)
  const WEEKLY := CellGrid(WEEK_HOURS, EPOCH_MONDAY_OFFSET_MS)

  function Width(g: CellGrid): int {
    g.hours * HOUR_MS
  }

  predicate ValidGrid(g: CellGrid) {
    g.hours > 0 && Width(g) > 0
  }

  function CellStart(g: CellGrid, time: int): int
    requires ValidGrid(g)
  {
    var shifted := time + g.offset;
    shifted - shifted % Width(g) - g.offset
  }

  datatype Bucket = Bucket(candle: Candle, lastHour: nat)

  function Aggregate(group: seq<Candle>): Candle
    requires group != []
  {
    Candle(group[0].symbol, group[0].openTime, Last(group).closeTime, group[0].open,
           Maximum(Highs(group)), Minimum(Lows(group)), Last(group).close, TotalVolume(group))
  }

  /** A full, aligned, unbroken cell. */
  predicate Complete(g: CellGrid, group: seq<Candle>)
    requires ValidGrid(g)
  {
    |group| == g.hours && group[0].openTime == CellStart(g, group[0].openTime) && Contiguous(group, HOUR_MS)
  }

  // ----- The source's grouping ------------------------------------------------------------------------------

  /** The end of the run of candles that share the cell of the one at `i`. */
  function GroupEnd(g: CellGrid, candles: seq<Candle>, start: int, j: nat): (end: nat)
    requires ValidGrid(g) && j <= |candles|
    ensures j <= end <= |candles|
    ensures forall k | j <= k < end :: CellStart(g, candles[k].openTime) == start
    ensures end < |candles| ==> CellStart(g, candles[end].openTime) != start
    decreases |candles| - j
  {
    if j < |candles| && CellStart(g, candles[j].openTime) == start then GroupEnd(g, candles, start, j + 1) else j
  }

  function BucketOf(g: CellGrid, group: seq<Candle>, end: nat): seq<Bucket>
    requires ValidGrid(g) && group != [] && end > 0
  {
    if Complete(g, group) then [Bucket(Aggregate(group), end - 1)] else []
  }

  function GroupsFrom(g: CellGrid, candles: seq<Candle>, i: nat): seq<Bucket>
    requires ValidGrid(g) && i <= |candles|
    decreases |candles| - i
  {
    if i == |candles| then []
    else
      var j := GroupEnd(g, candles, CellStart(g, candles[i].openTime), i + 1);
      BucketOf(g, candles[i..j], j) + GroupsFrom(g, candles, j)
  }

  lemma GroupsEnd(g: CellGrid, candles: seq<Candle>)
    requires ValidGrid(g)
    ensures GroupsFrom(g, candles, |candles|) == []
  {
  }

  lemma GroupsStep(g: CellGrid, candles: seq<Candle>, i: nat)
    requires ValidGrid(g) && i < |candles|
    ensures var j := GroupEnd(g, candles, CellStart(g, candles[i].openTime), i);
            && i < j <= |candles|
            && GroupsFrom(g, candles, i) == BucketOf(g, candles[i..j], j) + GroupsFrom(g, candles, j)
  {
  }

  method AggregateCompletedBuckets(g: CellGrid, candles: seq<Candle>) returns (buckets: seq<Bucket>)
    requires ValidGrid(g)
    ensures buckets == GroupsFrom(g, candles, 0)
  {
    hide CellStart, Complete, GroupsFrom, Aggregate;
    buckets := [];
    var i := 0;
    while i < |candles|
      invariant i <= |candles|
      invariant buckets + GroupsFrom(g, candles, i) == GroupsFrom(g, candles, 0)
    {
      var start := CellStart(g, candles[i].openTime);
      GroupsStep(g, candles, i);
      var j := i;
      while j < |candles| && CellStart(g, candles[j].openTime) == start
        invariant i <= j <= |candles|
        invariant GroupEnd(g, candles, start, i) == GroupEnd(g, candles, start, j)
      {
        j := j + 1;
      }
      var group := candles[i..j];
      if Complete(g, group) {
        buckets := buckets + [Bucket(Aggregate(group), j - 1)];
      }
      i := j;
    }
    GroupsEnd(g, candles);
  }

  // ----- The covered cells --------------------------------------------------------------------------------------

  /** Hour-aligned candles in order: what the aggregation assumes of its caller. */
  predicate Hourly(candles: seq<Candle>) {
    Increasing(candles) && forall i | 0 <= i < |candles| :: Aligned(candles[i].openTime, HOUR_MS)
  }

  /** The last candle closes a cell that the candles cover hour by hour. */
  predicate EndsCell(g: CellGrid, candles: seq<Candle>)
    requires ValidGrid(g)
  {
    |candles| >= g.hours && Complete(g, candles[|candles| - g.hours..])
  }

  /** Every fully covered cell, in order; what a prefix covers, a longer history covers too. */
  function CoveredCells(g: CellGrid, candles: seq<Candle>): seq<Bucket>
    requires ValidGrid(g)
  {
    if candles == [] then []
    else CoveredCells(g, DropLast(candles))
         + if EndsCell(g, candles) then [Bucket(Aggregate(candles[|candles| - g.hours..]), |candles| - 1)] else []
  }

  lemma CellContains(g: CellGrid, time: int)
    requires ValidGrid(g)
    ensures CellStart(g, time) <= time < CellStart(g, time) + Width(g)
  {
  }

  /** A time belongs to the cell it falls into, and to no other. */
  lemma CellOf(g: CellGrid, start: int, time: int)
    requires ValidGrid(g) && CellStart(g, start) == start && start <= time < start + Width(g)
    ensures CellStart(g, time) == start
  {
    Quotient(start + g.offset, Width(g));
    QuotientIsUnique(time + g.offset, (start + g.offset) / Width(g), Width(g));
  }

  lemma CellStartIsStart(g: CellGrid, time: int)
    requires ValidGrid(g)
    ensures CellStart(g, CellStart(g, time)) == CellStart(g, time)
  {
    var w, a := Width(g), time + g.offset;
    Quotient(a, w);
    QuotientIsUnique(a - a % w, a / w, w);
  }

  /** The candles of a complete cell are its hours, all inside it. */
  lemma CompleteHours(g: CellGrid, group: seq<Candle>, k: nat)
    requires ValidGrid(g) && Complete(g, group) && k < g.hours
    ensures group[k].openTime == group[0].openTime + Times(k, HOUR_MS)
    ensures CellStart(g, group[k].openTime) == group[0].openTime
  {
    ContiguousTimes(group, HOUR_MS, k);
    TimesMonotone(k, g.hours - 1, HOUR_MS);
    TimesAdds(g.hours, 1, HOUR_MS);
    TimesMonotone(0, k, HOUR_MS);
    TimesAdds(0, 0, HOUR_MS);
    assert Times(g.hours, HOUR_MS) == Width(g);
    CellOf(g, group[0].openTime, group[k].openTime);
  }

  predicate Boundary(g: CellGrid, candles: seq<Candle>, i: nat)
    requires ValidGrid(g) && i <= |candles|
  {
    0 < i < |candles| ==> CellStart(g, candles[i - 1].openTime) != CellStart(g, candles[i].openTime)
  }

  lemma TailHours(g: CellGrid, candles: seq<Candle>, m: nat)
    requires ValidGrid(g) && m <= |candles| && EndsCell(g, candles[..m])
    ensures m >= g.hours
    ensures var l := m - g.hours;
            forall k | l <= k < m :: CellStart(g, candles[k].openTime) == candles[l].openTime
                                  && candles[k].openTime == candles[l].openTime + Times(k - l, HOUR_MS)
  {
    hide CellStart, Complete;
    var l := m - g.hours;
    var tail := candles[l..m];
    assert candles[..m][l..] == tail;
    forall k | l <= k < m
      ensures CellStart(g, candles[k].openTime) == candles[l].openTime
      ensures candles[k].openTime == candles[l].openTime + Times(k - l, HOUR_MS)
    {
      CompleteHours(g, tail, k - l);
      assert tail[k - l] == candles[k] && tail[0] == candles[l];
    }
  }

  /** After the last hour of a cell, the next candle is outside it. */
  lemma NextIsOutside(g: CellGrid, candles: seq<Candle>, m: nat)
    requires ValidGrid(g) && Hourly(candles) && m < |candles| && EndsCell(g, candles[..m])
    ensures CellStart(g, candles[m].openTime) != candles[m - g.hours].openTime
  {
    hide CellStart, EndsCell, Aligned;
    TailHours(g, candles, m);
    assert candles[m - 1].openTime < candles[m].openTime;
    AlignedApart(candles[m - 1].openTime, candles[m].openTime, HOUR_MS);
    CellContains(g, candles[m].openTime);
    TimesAdds(g.hours - 1, 1, HOUR_MS);
    assert Times(g.hours, HOUR_MS) == Width(g);
  }

  /** Within one run of same-cell candles, a cell can end only at the run's end, and then it is the whole run. */
  lemma CellEndsWithGroup(g: CellGrid, candles: seq<Candle>, i: nat, j: nat, m: nat)
    requires ValidGrid(g) && Hourly(candles) && i < m <= j <= |candles| && Boundary(g, candles, i)
    requires forall k | i <= k < j :: CellStart(g, candles[k].openTime) == CellStart(g, candles[i].openTime)
    requires EndsCell(g, candles[..m])
    ensures m == j && m == i + g.hours
  {
    hide CellStart, EndsCell, Aligned;
    TailHours(g, candles, m);
    var l := m - g.hours;
    var start := candles[l].openTime;
    assert CellStart(g, candles[m - 1].openTime) == start;
    if l > i {
      CellContains(g, candles[i].openTime);
    } else if l == i && m < j {
      NextIsOutside(g, candles, m);
    }
  }

  /** A whole run of same-cell candles adds its bucket exactly if it is complete. */
  lemma {:induction false} GroupCovers(g: CellGrid, candles: seq<Candle>, i: nat, j: nat, m: nat)
    requires ValidGrid(g) && Hourly(candles) && i < j <= |candles| && Boundary(g, candles, i) && i <= m <= j
    requires forall k | i <= k < j :: CellStart(g, candles[k].openTime) == CellStart(g, candles[i].openTime)
    ensures CoveredCells(g, candles[..m])
         == CoveredCells(g, candles[..i]) + if m == j then BucketOf(g, candles[i..j], j) else []
    decreases m - i
  {
    hide CellStart, Complete, Aggregate;
    if m > i {
      GroupCovers(g, candles, i, j, m - 1);
      var prefix := candles[..m];
      assert DropLast(prefix) == candles[..m - 1];
      if EndsCell(g, prefix) {
        CellEndsWithGroup(g, candles, i, j, m);
        assert prefix[m - g.hours..] == candles[i..j];
      } else if m == j {
        IncompleteGroup(g, candles, i, j);
      }
    }
  }

  lemma IncompleteGroup(g: CellGrid, candles: seq<Candle>, i: nat, j: nat)
    requires ValidGrid(g) && i < j <= |candles| && !EndsCell(g, candles[..j])
    ensures !Complete(g, candles[i..j])
  {
  }

  lemma Reassociate<T>(a: seq<T>, b: seq<T>, c: seq<T>)
    ensures a + (b + c) == (a + b) + c
  {
  }

  lemma {:induction false} GroupsAreCovered(g: CellGrid, candles: seq<Candle>, i: nat)
    requires ValidGrid(g) && Hourly(candles) && i <= |candles| && Boundary(g, candles, i)
    ensures CoveredCells(g, candles[..i]) + GroupsFrom(g, candles, i) == CoveredCells(g, candles)
    decreases |candles| - i
  {
    hide CellStart, BucketOf, CoveredCells, Hourly, GroupsFrom;
    if i == |candles| {
      assert candles[..i] == candles;
      GroupsEnd(g, candles);
    } else {
      GroupsStep(g, candles, i);
      var j := GroupEnd(g, candles, CellStart(g, candles[i].openTime), i);
      GroupCovers(g, candles, i, j, j);
      GroupsAreCovered(g, candles, j);
      Reassociate(CoveredCells(g, candles[..i]), BucketOf(g, candles[i..j], j), GroupsFrom(g, candles, j));
    }
  }

  /** On hour-aligned, ordered candles the aggregation yields exactly the fully covered cells, in order. */
  lemma AggregationIsExact(g: CellGrid, candles: seq<Candle>)
    requires ValidGrid(g) && Hourly(candles)
    ensures GroupsFrom(g, candles, 0) == CoveredCells(g, candles)
  {
    GroupsAreCovered(g, candles, 0);
    assert candles[..0] == [];
  }

  /** What was aggregated is never revised by a longer history. */
  lemma {:induction false} CoveredCellsPrefix(g: CellGrid, candles: seq<Candle>, n: nat)
    requires ValidGrid(g) && n <= |candles|
    ensures CoveredCells(g, candles[..n]) <= CoveredCells(g, candles)
    ensures forall i | |CoveredCells(g, candles[..n])| <= i < |CoveredCells(g, candles)| ::
              CoveredCells(g, candles)[i].lastHour >= n
    decreases |candles|
  {
    if n == |candles| {
      assert candles[..n] == candles;
    } else {
      assert DropLast(candles)[..n] == candles[..n];
      CoveredCellsPrefix(g, DropLast(candles), n);
    }
  }

  /** What each aggregated bucket is: the open, extremes, close and volume of the whole cell that ends there. */
  ghost predicate IsCell(g: CellGrid, candles: seq<Candle>, b: Bucket)
    requires ValidGrid(g)
  {
    && g.hours <= b.lastHour + 1 <= |candles|
    && var cell := candles[b.lastHour + 1 - g.hours..b.lastHour + 1];
       && Complete(g, cell) && Aggregates(b.candle, cell)
       && b.candle.symbol == cell[0].symbol && b.candle.openTime == cell[0].openTime
       && b.candle.closeTime == cell[g.hours - 1].closeTime
  }

  ghost predicate AreCells(g: CellGrid, candles: seq<Candle>, bs: seq<Bucket>)
    requires ValidGrid(g)
  {
    && (forall i | 0 <= i < |bs| :: IsCell(g, candles, bs[i]))
    && (forall i, j | 0 <= i < j < |bs| :: bs[i].lastHour < bs[j].lastHour)
  }

  lemma CellsOfPrefix(g: CellGrid, candles: seq<Candle>, bs: seq<Bucket>)
    requires ValidGrid(g) && candles != [] && AreCells(g, DropLast(candles), bs)
    ensures AreCells(g, candles, bs) && forall b | b in bs :: b.lastHour < |candles| - 1
  {
    hide IsCell;
    forall i | 0 <= i < |bs| ensures IsCell(g, candles, bs[i]) && bs[i].lastHour < |candles| - 1 {
      CellOfPrefix(g, candles, bs[i]);
    }
  }

  lemma CellOfPrefix(g: CellGrid, candles: seq<Candle>, b: Bucket)
    requires ValidGrid(g) && candles != [] && IsCell(g, DropLast(candles), b)
    ensures IsCell(g, candles, b) && b.lastHour < |candles| - 1
  {
    hide Complete, Aggregates;
    assert candles[b.lastHour + 1 - g.hours..b.lastHour + 1]
        == DropLast(candles)[b.lastHour + 1 - g.hours..b.lastHour + 1];
  }

  lemma NoCells(g: CellGrid, candles: seq<Candle>)
    requires ValidGrid(g)
    ensures AreCells(g, candles, [])
  {
  }

  lemma CellAppended(g: CellGrid, candles: seq<Candle>, bs: seq<Bucket>, b: Bucket)
    requires ValidGrid(g) && AreCells(g, candles, bs) && IsCell(g, candles, b) && forall c | c in bs ::
              c.lastHour < b.lastHour
    ensures AreCells(g, candles, bs + [b])
  {
    hide IsCell;
  }

  lemma AggregateIsCell(g: CellGrid, candles: seq<Candle>)
    requires ValidGrid(g) && EndsCell(g, candles)
    ensures IsCell(g, candles, Bucket(Aggregate(candles[|candles| - g.hours..]), |candles| - 1))
  {
    hide Aggregate, Aggregates, Contiguous;
    var cell := candles[|candles| - g.hours..];
    assert cell == candles[|candles| - g.hours..|candles|];
    AggregateSumsUp(cell);
  }

  lemma AggregateSumsUp(group: seq<Candle>)
    requires group != []
    ensures Aggregates(Aggregate(group), group)
    ensures var c := Aggregate(group);
            && c.symbol == group[0].symbol && c.openTime == group[0].openTime
            && c.closeTime == group[|group| - 1].closeTime
  {
    hide Maximum, Minimum, Highs, Lows, TotalVolume;
    ExtremesOf(group);
  }

  /** Buckets are whole cells, each ending after the one before it has ended. */
  lemma {:induction false} BucketsAreCells(g: CellGrid, candles: seq<Candle>)
    requires ValidGrid(g)
    ensures AreCells(g, candles, CoveredCells(g, candles))
  {
    hide Complete, Aggregate, AreCells;
    if candles == [] {
      NoCells(g, candles);
    } else {
      var bs, n := CoveredCells(g, DropLast(candles)), |candles|;
      BucketsAreCells(g, DropLast(candles));
      CellsOfPrefix(g, candles, bs);
      if EndsCell(g, candles) {
        assert candles[n - g.hours..] == candles[n - g.hours..n];
        AggregateIsCell(g, candles);
        CellAppended(g, candles, bs, Bucket(Aggregate(candles[n - g.hours..]), n - 1));
      } else {
        assert CoveredCells(g, candles) == bs;
      }
    }
  }

  /** Every fully covered cell has its bucket. */
  lemma {:induction false} EveryCellIsBucketed(g: CellGrid, candles: seq<Candle>, last: nat)
    requires ValidGrid(g) && last < |candles| && EndsCell(g, candles[..last + 1])
    ensures exists i :: 0 <= i < |CoveredCells(g, candles)| && CoveredCells(g, candles)[i].lastHour == last
    decreases |candles|
  {
    hide EndsCell, Aggregate;
    if last == |candles| - 1 {
      assert candles[..last + 1] == candles;
      assert Last(CoveredCells(g, candles)).lastHour == last;
    } else {
      assert DropLast(candles)[..last + 1] == candles[..last + 1];
      EveryCellIsBucketed(g, DropLast(candles), last);
      var i :| 0 <= i < |CoveredCells(g, DropLast(candles))| && CoveredCells(g, DropLast(candles))[i].lastHour == last;
      assert CoveredCells(g, candles)[i].lastHour == last;
    }
  }

  /** Two cells never share an hour. */
  lemma CellsAreDisjoint(g: CellGrid, candles: seq<Candle>, a: Bucket, b: Bucket)
    requires ValidGrid(g) && Hourly(candles) && IsCell(g, candles, a) && IsCell(g, candles, b)
             && a.lastHour < b.lastHour
    ensures a.lastHour + g.hours <= b.lastHour
  {
    hide CellStart, Complete, Aggregates, Aligned;
    var i, j := a.lastHour + 1, b.lastHour + 1;
    assert candles[..i][i - g.hours..] == candles[i - g.hours..i]
           && candles[..j][j - g.hours..] == candles[j - g.hours..j];
    TailHours(g, candles, i);
    TailHours(g, candles, j);
  }

  // ----- Enough history ---------------------------------------------------------------------------------------------

  /** A contiguous stretch closes a cell at exactly the hours that come last in their cell. */
  lemma ContiguousEndsCell(g: CellGrid, candles: seq<Candle>, n: nat)
    requires ValidGrid(g) && Contiguous(candles, HOUR_MS) && g.hours <= n <= |candles|
    ensures EndsCell(g, candles[..n]) <==> candles[n - g.hours].openTime == CellStart(g, candles[n - g.hours].openTime)
  {
  }

  /** Among any `hours` consecutive hourly starts, one is the start of a cell. */
  lemma SomeCellStarts(g: CellGrid, time: int) returns (k: nat)
    requires ValidGrid(g) && Aligned(time + g.offset, HOUR_MS)
    ensures k < g.hours && CellStart(g, time + Times(k, HOUR_MS)) == time + Times(k, HOUR_MS)
  {
    var w, a := Width(g), time + g.offset;
    assert w == Times(g.hours, HOUR_MS);
    Quotient(a, w);
    Quotient(a, HOUR_MS);
    var r := a % w;
    RemainderAligned(a, g.hours, HOUR_MS);
    var m := r / HOUR_MS;
    Quotient(r, HOUR_MS);
    TimesMonotone(m, g.hours, HOUR_MS);
    if m == 0 {
      k := 0;
      CellStartIsStart(g, time);
    } else {
      k := g.hours - m;
      TimesAdds(g.hours, m, HOUR_MS);
      TimesAdds(a / w, 1, w);
      QuotientIsUnique(a + Times(k, HOUR_MS), a / w + 1, w);
    }
  }

  lemma RemainderAligned(a: int, hours: int, step: int)
    requires step > 0 && hours > 0 && Times(hours, step) > 0 && Aligned(a, step)
    ensures Aligned(a % Times(hours, step), step) && 0 <= a % Times(hours, step) < Times(hours, step)
  {
    var w := Times(hours, step);
    Quotient(a, w);
    var q := a / w;
    assert Times(q, w) == Times(q * hours, step);
    QuotientOfShifted(a, -(q * hours), step);
    TimesAdds(0, q * hours, step);
  }

  /** Every further `hours` candles of a contiguous stretch close one more cell. */
  lemma {:induction false} CellCount(g: CellGrid, candles: seq<Candle>, k: nat, n: nat)
    requires ValidGrid(g) && Contiguous(candles, HOUR_MS) && n <= |candles|
    requires forall i | 0 <= i < |candles| :: Aligned(candles[i].openTime + g.offset, HOUR_MS)
    requires n >= Times(k, g.hours) + g.hours - 1
    ensures |CoveredCells(g, candles[..n])| >= k
    decreases k
  {
    hide Times, Contiguous, EndsCell, CoveredCells, CellStart;
    if k > 0 {
      var m := n - g.hours;
      TimesAdds(k - 1, 1, g.hours);
      TimesMonotone(0, k - 1, g.hours);
      TimesAdds(0, 0, g.hours);
      CellCount(g, candles, k - 1, m);
      var j := SomeCellStarts(g, candles[m + 1 - g.hours].openTime);
      var start := m + 1 - g.hours + j;
      ContiguousTimes(candles, HOUR_MS, m + 1 - g.hours);
      ContiguousTimes(candles, HOUR_MS, start);
      TimesAdds(m + 1 - g.hours, j, HOUR_MS);
      assert candles[start].openTime == candles[m + 1 - g.hours].openTime + Times(j, HOUR_MS);
      ContiguousEndsCell(g, candles, start + g.hours);
      CellGained(g, candles, m, start + g.hours, n);
    }
  }

  lemma CellGained(g: CellGrid, candles: seq<Candle>, m: nat, e: nat, n: nat)
    requires ValidGrid(g) && m < e <= n <= |candles| && EndsCell(g, candles[..e])
    ensures |CoveredCells(g, candles[..n])| >= |CoveredCells(g, candles[..m])| + 1
  {
    assert candles[..n][..e] == candles[..e] && DropLast(candles[..e]) == candles[..e - 1]
           && candles[..e - 1][..m] == candles[..m];
    CoveredCellsPrefix(g, candles[..n], e);
    CoveredCellsPrefix(g, candles[..e - 1], m);
  }
}
