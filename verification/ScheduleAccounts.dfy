// A schedule accounts for every segment and every refusal (research/fixed_duration_evaluation.py): a segment has
// windows or is reported as a fragment, and a window that cannot be evaluated says why.

module ScheduleAccounts {
  import opened Common
  import opened Grid
  import opened GapDetection
  import opened HistoricalFetch
  import opened FixedDuration

  /** How long the candles of a gap-free segment from its anchor on last. */
  function Tradable(segment: seq<Candle>, anchor: int, step: int): int {
    if |segment| < anchor then 0 else Times(|segment| - (anchor - 1), step)
  }

  /**
   * A segment gets as many windows as fit after its warm-up, numbered from its anchor on; if none does, it is
   * reported once, with its size and what it had to trade.
   */
  lemma SegmentIsScheduledOrReported(segment: seq<Candle>, index: nat, anchor: int, step: int, duration: int)
    requires segment != [] && anchor > 0 && step > 0 && duration > 0 && Contiguous(segment, step)
    ensures var plan, tradable := PlanSegment(segment, index, anchor, step, duration), Tradable(segment, anchor, step);
            && Times(|plan.blocks|, duration) <= tradable < Times(|plan.blocks| + 1, duration)
            && (forall k | 0 <= k < |plan.blocks| ::
                  plan.blocks[k].segment == index && plan.blocks[k].block == k
                  && plan.blocks[k].start == segment[anchor - 1].openTime + Times(k, duration))
            && plan.fragments == (if plan.blocks == [] then [Fragment(index, |segment|, tradable)] else [])
            && (plan.blocks == [] ==> plan.leftovers == [])
  {
    hide Contiguous, LeftoverOf, Periods;
    TimesAdds(0, 1, duration);
    if |segment| >= anchor {
      ContiguousSpan(segment, step, anchor);
      var span := TradableSpan(segment, anchor, step);
      PeriodsBound(span, duration);
      if Periods(span, duration) < 0 { TimesMonotone(Periods(span, duration) + 1, 0, duration); }
    }
  }

  lemma {:induction false} JoinedReports(segments: seq<seq<Candle>>, anchor: int, step: int, duration: int)
    requires NonEmpty(segments) && anchor > 0 && step > 0 && duration > 0
    ensures var all := PlanAll(segments, anchor, step, duration);
            && (forall f :: f in all.fragments
                  <==> f.segment < |segments|
                       && f in PlanSegment(segments[f.segment], f.segment, anchor, step, duration).fragments)
            && forall l :: l in all.leftovers
                  <==> l.segment < |segments|
                       && l in PlanSegment(segments[l.segment], l.segment, anchor, step, duration).leftovers
    decreases |segments|
  {
    if segments != [] {
      var n := |segments| - 1;
      JoinedReports(DropLast(segments), anchor, step, duration);
      ReportsNameTheirSegment(segments[n], n, anchor, step, duration);
      hide PlanSegment;
    }
  }

  lemma ReportsNameTheirSegment(segment: seq<Candle>, index: nat, anchor: int, step: int, duration: int)
    requires segment != [] && anchor > 0 && step > 0 && duration > 0
    ensures var plan := PlanSegment(segment, index, anchor, step, duration);
            && (forall f | f in plan.fragments :: f.segment == index)
            && forall l | l in plan.leftovers :: l.segment == index
  {
  }

  /** The fragments of a schedule are exactly the segments too short for a window, each with what it had. */
  lemma FragmentsAreTheShortSegments(candles: seq<Candle>, step: int, anchor: int, days: int, f: Fragment)
    requires step > 0 && anchor > 0 && days > 0
    ensures f in ScheduleOf(candles, step, anchor, days).fragments
       <==> f.segment < |SegmentsOf(candles, step)|
            && var segment := SegmentsOf(candles, step)[f.segment];
               && Tradable(segment, anchor, step) < days * MS_PER_DAY
               && f == Fragment(f.segment, |segment|, Tradable(segment, anchor, step))
  {
    SegmentsAreOrdered(candles, step);
    hide PlanAll, PlanSegment, Segmented;
    var segments, duration := SegmentsOf(candles, step), days * MS_PER_DAY;
    JoinedReports(segments, anchor, step, duration);
    if f.segment < |segments| {
      SegmentIsWellFormed(candles, step, f.segment);
      SegmentIsScheduledOrReported(segments[f.segment], f.segment, anchor, step, duration);
      var count := |PlanSegment(segments[f.segment], f.segment, anchor, step, duration).blocks|;
      TimesAdds(0, 1, duration);
      TimesMonotone(1, count, duration);
    }
  }

  /** The leftovers of a schedule are those of its segments. */
  lemma LeftoversAreTheSegments(candles: seq<Candle>, step: int, anchor: int, days: int, l: Leftover)
    requires step > 0 && anchor > 0 && days > 0
    ensures l in ScheduleOf(candles, step, anchor, days).leftovers
       <==> l.segment < |SegmentsOf(candles, step)| && l in PlanAt(candles, step, anchor, days, l.segment).leftovers
  {
    SegmentsAreOrdered(candles, step);
    hide PlanAll, PlanSegment, Segmented;
    JoinedReports(SegmentsOf(candles, step), anchor, step, days * MS_PER_DAY);
  }

  /** No candle opens in the window, or the segment ends before the window does. */
  predicate NotCovered(segment: seq<Candle>, b: Block) {
    || (forall c | c in segment :: !(b.start <= c.openTime < b.end))
    || (Last(segment).openTime < b.end && Last(segment).closeTime + 1 < b.end)
  }

  /**
   * A window is evaluated on exactly the candles that open in it, behind its warm-up; it is refused exactly when the
   * segment does not cover it or has too few candles before it.
   */
  lemma WindowIsItsCandles(segment: seq<Candle>, b: Block, minRequired: int)
    requires Increasing(segment) && segment != []
    ensures var r, before := RangeOf(segment, b, minRequired), Before(segment, b.start);
            && (r == Err(WindowOutOfRange) <==> NotCovered(segment, b))
            && (r == Err(InsufficientWarmUp) <==> !NotCovered(segment, b) && before < minRequired - 1)
            && (r.Ok? ==> && r.value.start - r.value.warmUp == minRequired - 1
                          && forall i | 0 <= i < |segment| :: r.value.start <= i < r.value.end
                                                              <==> b.start <= segment[i].openTime < b.end)
  {
    hide Before;
    BeforeSplits(segment, b.start);
    BeforeSplits(segment, b.end);
    var before := Before(segment, b.start);
    if before < |segment| { assert segment[before] in segment; }
  }
}
