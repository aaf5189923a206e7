// Equal-length evaluation windows inside gap-free segments (research/fixed_duration_evaluation.py).

module FixedDuration {
  import opened Common
  import opened Grid
  import opened GapDetection
  import opened HistoricalFetch

  datatype Block = Block(segment: nat, block: nat, start: int, end: int)

  datatype Fragment = Fragment(segment: nat, count: nat, tradable: int)

  datatype Leftover = Leftover(segment: nat, start: int, end: int, count: nat, duration: int)

  datatype Schedule = Schedule(days: int, anchor: int, blocks: seq<Block>, fragments: seq<Fragment>,
                               leftovers: seq<Leftover>)

  datatype ScheduleError = OnOrAfterCutoff | BadAnchor | BadDuration | BadSegments(error: SeriesError)
                         | WindowOutOfRange | DurationMismatch | CutoffViolation | Overlap | InsufficientWarmUp

  // ----- Binary search --------------------------------------------------------------------------------------

  function OpenTimesOf(candles: seq<Candle>): (r: seq<int>)
    ensures |r| == |candles| && forall i | 0 <= i < |candles| :: r[i] == candles[i].openTime
  {
    seq(|candles|, i requires 0 <= i < |candles| => candles[i].openTime)
  }

  /** The first position from `lo` on whose time is not before `time`. */
  method BisectLeft(times: seq<int>, time: int, lo: nat) returns (position: nat)
    requires lo <= |times| && forall i, j | 0 <= i < j < |times| :: times[i] <= times[j]
    ensures lo <= position <= |times|
    ensures forall i | lo <= i < position :: times[i] < time
    ensures forall i | position <= i < |times| :: times[i] >= time
  {
    var low, high := lo, |times|;
    while low < high
      invariant lo <= low <= high <= |times|
      invariant forall i | lo <= i < low :: times[i] < time
      invariant forall i | high <= i < |times| :: times[i] >= time
    {
      var mid := (low + high) / 2;
      if times[mid] < time { low := mid + 1; } else { high := mid; }
    }
    position := low;
  }

  /** In an ordered segment, that position is the count of earlier candles, but never before `lo`. */
  function Position(segment: seq<Candle>, time: int, lo: nat): nat {
    if Before(segment, time) > lo then Before(segment, time) else lo
  }

  lemma BisectIsPosition(segment: seq<Candle>, time: int, lo: nat, p: nat)
    requires Increasing(segment) && lo <= p <= |segment|
    requires forall i | lo <= i < p :: segment[i].openTime < time
    requires forall i | p <= i < |segment| :: segment[i].openTime >= time
    ensures p == Position(segment, time, lo)
  {
    BeforeSplits(segment, time);
    assert lo < |segment| ==> (segment[lo].openTime < time <==> lo < Before(segment, time));
    if p > lo { BeforeIs(segment, time, p); }
  }

  method Locate(segment: seq<Candle>, time: int, lo: nat) returns (p: nat)
    requires Increasing(segment) && lo <= |segment|
    ensures p == Position(segment, time, lo) && p <= |segment|
  {
    p := BisectLeft(OpenTimesOf(segment), time, lo);
    BisectIsPosition(segment, time, lo, p);
  }

  // ----- Planning one segment --------------------------------------------------------------------------------

  function TradableStart(segment: seq<Candle>, anchor: int): int
    requires 0 < anchor <= |segment|
  {
    segment[anchor - 1].openTime
  }

  function TradableSpan(segment: seq<Candle>, anchor: int, step: int): int
    requires 0 < anchor <= |segment|
  {
    Last(segment).openTime - TradableStart(segment, anchor) + step
  }

  function BlocksAt(index: nat, start: int, duration: int, count: int): seq<Block> {
    seq(if count > 0 then count else 0, (k: nat) =>
          Block(index, k, start + Times(k, duration), start + Times(k + 1, duration)))
  }

  datatype SegmentPlan = SegmentPlan(blocks: seq<Block>, fragments: seq<Fragment>, leftovers: seq<Leftover>)

  function LeftoverOf(segment: seq<Candle>, index: nat, anchor: int, step: int, from: int): seq<Leftover>
    requires 0 < anchor <= |segment|
  {
    var end, p := Last(segment).openTime + step, Position(segment, from, anchor - 1);
    if from < end && p < |segment| then
      [Leftover(index, segment[p].openTime, Last(segment).closeTime, |segment| - p, end - from)]
    else []
  }

  function PlanSegment(segment: seq<Candle>, index: nat, anchor: int, step: int, duration: int): SegmentPlan
    requires segment != [] && anchor > 0 && step > 0 && duration > 0
  {
    if |segment| < anchor then SegmentPlan([], [Fragment(index, |segment|, 0)], [])
    else
      var span := TradableSpan(segment, anchor, step);
      var count := Periods(span, duration);
      if count == 0 then SegmentPlan([], [Fragment(index, |segment|, span)], [])
      else
        var start := TradableStart(segment, anchor);
        SegmentPlan(BlocksAt(index, start, duration, count), [],
                    LeftoverOf(segment, index, anchor, step, start + Times(count, duration)))
  }

  predicate Fits(segment: seq<Candle>, plan: SegmentPlan)
    requires segment != []
  {
    forall b | b in plan.blocks :: b.end <= Last(segment).closeTime + 1
  }

  predicate NonEmpty(segments: seq<seq<Candle>>) {
    forall i | 0 <= i < |segments| :: segments[i] != []
  }

  /** The plans of all segments, in order, joined. */
  function PlanAll(segments: seq<seq<Candle>>, anchor: int, step: int, duration: int): SegmentPlan
    requires NonEmpty(segments) && anchor > 0 && step > 0 && duration > 0
  {
    if segments == [] then SegmentPlan([], [], [])
    else
      var before, p := PlanAll(DropLast(segments), anchor, step, duration),
                       PlanSegment(Last(segments), |segments| - 1, anchor, step, duration);
      SegmentPlan(before.blocks + p.blocks, before.fragments + p.fragments, before.leftovers + p.leftovers)
  }

  predicate AllFit(segments: seq<seq<Candle>>, anchor: int, step: int, duration: int)
    requires NonEmpty(segments) && anchor > 0 && step > 0 && duration > 0
  {
    forall i | 0 <= i < |segments| :: Fits(segments[i], PlanSegment(segments[i], i, anchor, step, duration))
  }

  // ----- Validation -------------------------------------------------------------------------------------------

  predicate Disjoint(a: Block, b: Block) {
    a.end <= b.start || b.end <= a.start
  }

  predicate AllDisjoint(blocks: seq<Block>) {
    forall i, j | 0 <= i < j < |blocks| :: Disjoint(blocks[i], blocks[j])
  }

  function Insert(b: Block, sorted: seq<Block>): seq<Block> {
    if sorted == [] || b.start <= sorted[0].start then [b] + sorted else [sorted[0]] + Insert(b, sorted[1..])
  }

  function SortByStart(blocks: seq<Block>): seq<Block> {
    if blocks == [] then [] else Insert(blocks[0], SortByStart(blocks[1..]))
  }

  predicate Fine(b: Block, days: int, cutoff: int) {
    b.end - b.start == days * MS_PER_DAY && b.end <= cutoff
  }

  predicate FirstFlaw(s: Schedule, cutoff: int, i: int, error: ScheduleError) {
    && 0 <= i < |s.blocks| && !Fine(s.blocks[i], s.days, cutoff)
    && (forall k | 0 <= k < i :: Fine(s.blocks[k], s.days, cutoff))
    && var b := s.blocks[i];
       error == if b.end - b.start != s.days * MS_PER_DAY then DurationMismatch else CutoffViolation
  }

  /** The first window that is not fine, by itself, decides; only if all are, an overlap does. */
  method ValidateSchedule(s: Schedule, cutoff: int) returns (error: Option<ScheduleError>)
    requires s.days > 0
    ensures error.None? <==> (forall b | b in s.blocks :: Fine(b, s.days, cutoff)) && AllDisjoint(s.blocks)
    ensures error == Some(Overlap) <==> (forall b | b in s.blocks :: Fine(b, s.days, cutoff)) && !AllDisjoint(s.blocks)
    ensures error.Some? && error != Some(Overlap) ==> exists i :: FirstFlaw(s, cutoff, i, error.value)
  {
    var duration := s.days * MS_PER_DAY;
    for i := 0 to |s.blocks|
      invariant forall k | 0 <= k < i :: Fine(s.blocks[k], s.days, cutoff)
    {
      var b := s.blocks[i];
      var flaw := if b.end - b.start != duration then DurationMismatch else CutoffViolation;
      if b.end - b.start != duration || b.end > cutoff {
        assert b in s.blocks && !Fine(b, s.days, cutoff) && FirstFlaw(s, cutoff, i, flaw);
        return Some(flaw);
      }
    }
    var ordered := SortByStart(s.blocks);
    SortKeepsBlocks(s.blocks);
    SortOrders(s.blocks);
    SortKeepsDisjointness(s.blocks);
    for i := 0 to |ordered|
      invariant forall k | 0 <= k < i - 1 :: ordered[k].end <= ordered[k + 1].start
    {
      if i > 0 && ordered[i - 1].end > ordered[i].start {
        assert ordered[i - 1] in s.blocks && ordered[i] in s.blocks;
        assert !Disjoint(ordered[i - 1], ordered[i]);
        return Some(Overlap);
      }
    }
    AdjacentIsEnough(ordered);
    error := None;
  }

  lemma {:induction false} InsertIsPlaced(b: Block, sorted: seq<Block>) returns (p: nat)
    ensures p <= |sorted| && Insert(b, sorted) == sorted[..p] + [b] + sorted[p..]
    ensures (p > 0 ==> sorted[p - 1].start < b.start) && (p < |sorted| ==> b.start <= sorted[p].start)
    decreases |sorted|
  {
    if sorted == [] || b.start <= sorted[0].start {
      p := 0;
    } else {
      var q := InsertIsPlaced(b, sorted[1..]);
      p := q + 1;
      assert sorted == [sorted[0]] + sorted[1..];
    }
  }

  lemma {:induction false} SortKeepsBlocks(blocks: seq<Block>)
    ensures forall b :: b in SortByStart(blocks) <==> b in blocks
    decreases |blocks|
  {
    if blocks != [] {
      SortKeepsBlocks(blocks[1..]);
      var sorted := SortByStart(blocks[1..]);
      var p := InsertIsPlaced(blocks[0], sorted);
      assert sorted == sorted[..p] + sorted[p..] && blocks == [blocks[0]] + blocks[1..];
    }
  }

  predicate Ordered(blocks: seq<Block>) {
    forall i, j | 0 <= i < j < |blocks| :: blocks[i].start <= blocks[j].start
  }

  lemma {:induction false} SortOrders(blocks: seq<Block>)
    ensures Ordered(SortByStart(blocks))
    decreases |blocks|
  {
    if blocks != [] {
      SortOrders(blocks[1..]);
      var sorted := SortByStart(blocks[1..]);
      var p := InsertIsPlaced(blocks[0], sorted);
      PlacedInOrder(blocks[0], sorted, p);
    }
  }

  lemma PlacedInOrder(b: Block, sorted: seq<Block>, p: nat)
    requires Ordered(sorted) && p <= |sorted|
    requires (p > 0 ==> sorted[p - 1].start < b.start) && (p < |sorted| ==> b.start <= sorted[p].start)
    ensures Ordered(sorted[..p] + [b] + sorted[p..])
  {
  }

  /** Inserting a block anywhere: all disjoint exactly if the rest is and the block is disjoint from each. */
  lemma PlacedDisjointness(b: Block, rest: seq<Block>, p: nat)
    requires p <= |rest|
    ensures AllDisjoint(rest[..p] + [b] + rest[p..]) <==> AllDisjoint(rest) && forall x | x in rest :: Disjoint(b, x)
  {
    var placed := rest[..p] + [b] + rest[p..];
    if AllDisjoint(placed) {
      forall i, j | 0 <= i < j < |rest| ensures Disjoint(rest[i], rest[j]) {
        assert rest[i] == placed[if i < p then i else i + 1] && rest[j] == placed[if j < p then j else j + 1];
      }
      forall x | x in rest ensures Disjoint(b, x) {
        var i :| 0 <= i < |rest| && rest[i] == x;
        assert placed[p] == b && x == placed[if i < p then i else i + 1];
      }
    }
    if AllDisjoint(rest) && forall x | x in rest :: Disjoint(b, x) {
      forall i, j | 0 <= i < j < |placed| ensures Disjoint(placed[i], placed[j]) {
        if i != p && j != p {
          assert placed[i] == rest[if i < p then i else i - 1] && placed[j] == rest[if j < p then j else j - 1];
        } else if i == p {
          assert placed[j] == rest[j - 1] && rest[j - 1] in rest;
        } else {
          assert placed[i] == rest[i] && rest[i] in rest;
        }
      }
    }
  }

  lemma {:induction false} SortKeepsDisjointness(blocks: seq<Block>)
    ensures AllDisjoint(SortByStart(blocks)) <==> AllDisjoint(blocks)
    decreases |blocks|
  {
    hide AllDisjoint, Disjoint;
    if blocks != [] {
      var rest := blocks[1..];
      SortKeepsDisjointness(rest);
      SortKeepsBlocks(rest);
      var sorted := SortByStart(rest);
      var p := InsertIsPlaced(blocks[0], sorted);
      PlacedDisjointness(blocks[0], sorted, p);
      PlacedDisjointness(blocks[0], rest, 0);
      assert rest[..0] + [blocks[0]] + rest[0..] == blocks;
    }
  }

  lemma AdjacentIsEnough(blocks: seq<Block>)
    requires Ordered(blocks) && forall k | 0 <= k < |blocks| - 1 :: blocks[k].end <= blocks[k + 1].start
    ensures AllDisjoint(blocks)
  {
    forall i, j | 0 <= i < j < |blocks| ensures Disjoint(blocks[i], blocks[j]) {
      assert blocks[i].end <= blocks[i + 1].start;
      assert i + 1 < j ==> blocks[i + 1].start <= blocks[j].start;
    }
  }

  // ----- Building the schedule ------------------------------------------------------------------------------------

  method BuildBlocks(segment: seq<Candle>, index: nat, start: int, duration: int, count: int)
    returns (r: Result<seq<Block>, ScheduleError>)
    requires segment != []
    ensures var blocks := BlocksAt(index, start, duration, count);
            r == if forall b | b in blocks ::
                b.end <= Last(segment).closeTime + 1 then Ok(blocks) else Err(WindowOutOfRange)
  {
    var blocks: seq<Block> := [];
    for k := 0 to if count > 0 then count else 0
      invariant blocks == BlocksAt(index, start, duration, count)[..k]
      invariant forall b | b in blocks :: b.end <= Last(segment).closeTime + 1
    {
      var b := Block(index, k, start + Times(k, duration), start + Times(k + 1, duration));
      assert BlocksAt(index, start, duration, count)[k] == b && b in BlocksAt(index, start, duration, count);
      if b.end > Last(segment).closeTime + 1 { return Err(WindowOutOfRange); }
      blocks := blocks + [b];
    }
    assert blocks == BlocksAt(index, start, duration, count);
    r := Ok(blocks);
  }

  method BuildSegment(segment: seq<Candle>, index: nat, anchor: int, step: int, duration: int)
    returns (r: Result<SegmentPlan, ScheduleError>)
    requires segment != [] && anchor > 0 && step > 0 && duration > 0 && Increasing(segment)
    ensures var plan := PlanSegment(segment, index, anchor, step, duration);
            r == if Fits(segment, plan) then Ok(plan) else Err(WindowOutOfRange)
  {
    if |segment| < anchor { return Ok(SegmentPlan([], [Fragment(index, |segment|, 0)], [])); }
    var start, span := TradableStart(segment, anchor), TradableSpan(segment, anchor, step);
    var count := Periods(span, duration);
    if count == 0 { return Ok(SegmentPlan([], [Fragment(index, |segment|, span)], [])); }
    var blocks := BuildBlocks(segment, index, start, duration, count);
    if blocks.Err? { return Err(blocks.error); }
    var from, end := start + Times(count, duration), Last(segment).openTime + step;
    var leftovers: seq<Leftover> := [];
    if from < end {
      var p := Locate(segment, from, anchor - 1);
      if p < |segment| {
        leftovers := [Leftover(index, segment[p].openTime, Last(segment).closeTime, |segment| - p, end - from)];
      }
    }
    r := Ok(SegmentPlan(blocks.value, [], leftovers));
  }

  predicate Accepts(candles: seq<Candle>, anchor: int, days: int, cutoff: int) {
    (forall c | c in candles :: c.openTime < cutoff) && anchor > 0 && days > 0 && Increasing(candles)
  }

  lemma SegmentsAreOrdered(candles: seq<Candle>, step: int)
    requires step > 0
    ensures NonEmpty(Segmented(candles, step).segments) && AllIncreasing(Segmented(candles, step).segments)
  {
    hide Increasing, Contiguous;
    if candles != [] {
      SegmentsAreMaximal(candles, step);
      var segments := Segmented(candles, step).segments;
      forall i | 0 <= i < |segments| ensures Increasing(segments[i]) { ContiguousIncreasing(segments[i], step); }
    }
  }

  function PlanOf(candles: seq<Candle>, step: int, anchor: int, days: int): SegmentPlan
    requires step > 0 && anchor > 0 && days > 0
  {
    SegmentsAreOrdered(candles, step);
    PlanAll(Segmented(candles, step).segments, anchor, step, days * MS_PER_DAY)
  }

  function ScheduleOf(candles: seq<Candle>, step: int, anchor: int, days: int): Schedule
    requires step > 0 && anchor > 0 && days > 0
  {
    var plan := PlanOf(candles, step, anchor, days);
    Schedule(days, anchor, plan.blocks, plan.fragments, plan.leftovers)
  }

  predicate EachFits(candles: seq<Candle>, step: int, anchor: int, days: int)
    requires step > 0 && anchor > 0 && days > 0
  {
    SegmentsAreOrdered(candles, step);
    AllFit(Segmented(candles, step).segments, anchor, step, days * MS_PER_DAY)
  }

  /** Every window has the declared length and ends by the cutoff, and no two overlap. */
  predicate ValidSchedule(s: Schedule, cutoff: int) {
    (forall b | b in s.blocks :: Fine(b, s.days, cutoff)) && AllDisjoint(s.blocks)
  }

  /** A schedule is handed back exactly when nothing is wrong with the input, its windows fit, and it validates. */
  method BuildFixedDurationSchedule(candles: seq<Candle>, step: int, anchor: int, days: int, cutoff: int)
    returns (r: Result<Schedule, ScheduleError>)
    requires step > 0
    ensures r.Ok? <==> Accepts(candles, anchor, days, cutoff) && EachFits(candles, step, anchor, days)
                       && ValidSchedule(ScheduleOf(candles, step, anchor, days), cutoff)
    ensures r.Ok? ==> r.value == ScheduleOf(candles, step, anchor, days)
    ensures r == Err(OnOrAfterCutoff) <==> exists c :: c in candles && c.openTime >= cutoff
    ensures r.Err? && r.error != OnOrAfterCutoff ==>
              if anchor <= 0 then r.error == BadAnchor
              else if days <= 0 then r.error == BadDuration
              else if !Increasing(candles) then r.error.BadSegments?
              else if !EachFits(candles, step, anchor, days) then r.error == WindowOutOfRange
              else r.error in {DurationMismatch, CutoffViolation, Overlap}
  {
    hide Segmented, PlanAll, AllFit, Increasing, NonEmpty, AllIncreasing, AllDisjoint, OrderError;
    if exists c :: c in candles && c.openTime >= cutoff { return Err(OnOrAfterCutoff); }
    if anchor <= 0 { return Err(BadAnchor); }
    if days <= 0 { return Err(BadDuration); }
    if candles == [] {
      EmptySchedule(step, anchor, days, cutoff);
      return Ok(Schedule(days, anchor, [], [], []));
    }
    var parts := PartitionIntoSegments(candles, step);
    AcceptedExactlyWhenIncreasing(candles);
    if parts.Err? { return Err(BadSegments(parts.error)); }
    SegmentsAreOrdered(candles, step);
    var plan := BuildAll(parts.value.segments, anchor, step, days * MS_PER_DAY);
    if plan.Err? { return Err(WindowOutOfRange); }
    var s := Schedule(days, anchor, plan.value.blocks, plan.value.fragments, plan.value.leftovers);
    var error := ValidateSchedule(s, cutoff);
    if error.Some? { return Err(error.value); }
    r := Ok(s);
  }

  lemma EmptySchedule(step: int, anchor: int, days: int, cutoff: int)
    requires step > 0 && anchor > 0 && days > 0
    ensures Accepts([], anchor, days, cutoff) && EachFits([], step, anchor, days)
    ensures ScheduleOf([], step, anchor, days) == Schedule(days, anchor, [], [], [])
    ensures ValidSchedule(ScheduleOf([], step, anchor, days), cutoff)
  {
  }

  predicate AllIncreasing(segments: seq<seq<Candle>>) {
    forall i | 0 <= i < |segments| :: Increasing(segments[i])
  }

  method BuildAll(segments: seq<seq<Candle>>, anchor: int, step: int, duration: int)
    returns (r: Result<SegmentPlan, ScheduleError>)
    requires NonEmpty(segments) && AllIncreasing(segments) && anchor > 0 && step > 0 && duration > 0
    ensures r.Ok? ==> r.value == PlanAll(segments, anchor, step, duration) && AllFit(segments, anchor, step, duration)
    ensures r.Err? ==> r.error == WindowOutOfRange && !AllFit(segments, anchor, step, duration)
  {
    hide PlanSegment, Increasing, Fits;
    var plan := SegmentPlan([], [], []);
    for i := 0 to |segments|
      invariant plan == PlanAll(segments[..i], anchor, step, duration)
      invariant forall k | 0 <= k < i :: Fits(segments[k], PlanSegment(segments[k], k, anchor, step, duration))
    {
      assert DropLast(segments[..i + 1]) == segments[..i];
      var p := BuildSegment(segments[i], i, anchor, step, duration);
      if p.Err? { return Err(WindowOutOfRange); }
      plan := SegmentPlan(plan.blocks + p.value.blocks, plan.fragments + p.value.fragments,
                          plan.leftovers + p.value.leftovers);
    }
    assert segments[..|segments|] == segments;
    r := Ok(plan);
  }

  // ----- On the grid, every schedule builds ------------------------------------------------------------------------

  function SegmentEnd(segment: seq<Candle>, step: int): int
    requires segment != []
  {
    Last(segment).openTime + step
  }

  /** Contiguous segments, each starting no earlier than the one before it ends. */
  predicate Laid(segments: seq<seq<Candle>>, step: int) {
    && NonEmpty(segments) && (forall i | 0 <= i < |segments| :: Contiguous(segments[i], step))
    && forall i | 0 < i < |segments| :: SegmentEnd(segments[i - 1], step) <= segments[i][0].openTime
  }

  lemma ContiguousSpan(segment: seq<Candle>, step: int, anchor: int)
    requires step > 0 && 0 < anchor <= |segment| && Contiguous(segment, step)
    ensures TradableSpan(segment, anchor, step) == Times(|segment| - (anchor - 1), step) > 0
    ensures TradableStart(segment, anchor) + TradableSpan(segment, anchor, step) == SegmentEnd(segment, step)
    ensures segment[0].openTime <= TradableStart(segment, anchor)
  {
    var n := |segment|;
    ContiguousTimes(segment, step, n - 1);
    ContiguousTimes(segment, step, anchor - 1);
    TimesAdds(n - 1, anchor - 1, step);
    TimesAdds(n - anchor, 1, step);
    TimesMonotone(0, n - (anchor - 1), step);
    TimesMonotone(0, anchor - 1, step);
    TimesAdds(0, 0, step);
  }

  /** The blocks of one segment: the declared length, inside the segment, one after another. */
  lemma SegmentBlocksAreTidy(segment: seq<Candle>, index: nat, anchor: int, step: int, duration: int)
    requires segment != [] && anchor > 0 && step > 0 && duration > 0 && Contiguous(segment, step)
    ensures var blocks := PlanSegment(segment, index, anchor, step, duration).blocks;
            && AllDisjoint(blocks)
            && forall b | b in blocks ::
                 b.end - b.start == duration && segment[0].openTime <= b.start && b.end <= SegmentEnd(segment, step)
  {
    if |segment| >= anchor {
      ContiguousSpan(segment, step, anchor);
      var start, span := TradableStart(segment, anchor), TradableSpan(segment, anchor, step);
      var count := Periods(span, duration);
      PeriodsBound(span, duration);
      BlocksAreTidy(index, start, duration, count);
      TimesAdds(0, 0, duration);
    }
  }

  lemma BlocksAreTidy(index: nat, start: int, duration: int, count: int)
    requires duration > 0
    ensures var blocks := BlocksAt(index, start, duration, count);
            && AllDisjoint(blocks)
            && forall b | b in blocks ::
                 b.end - b.start == duration && start <= b.start && b.end <= start + Times(count, duration)
  {
    var blocks := BlocksAt(index, start, duration, count);
    forall i, j | 0 <= i < j < |blocks| ensures Disjoint(blocks[i], blocks[j]) { TimesMonotone(i + 1, j, duration); }
    forall b | b in blocks
      ensures b.end - b.start == duration && start <= b.start && b.end <= start + Times(count, duration)
    {
      var i :| 0 <= i < |blocks| && blocks[i] == b;
      TimesAdds(i, 1, duration);
      TimesMonotone(0, i, duration);
      TimesMonotone(i + 1, count, duration);
    }
  }

  lemma JoinedDisjointness(a: seq<Block>, b: seq<Block>, bound: int)
    requires AllDisjoint(a) && AllDisjoint(b)
    requires (forall x | x in a :: x.end <= bound) && forall y | y in b :: bound <= y.start
    ensures AllDisjoint(a + b)
  {
  }

  lemma {:induction false} PlanIsTidy(segments: seq<seq<Candle>>, anchor: int, step: int, duration: int)
    requires Laid(segments, step) && anchor > 0 && step > 0 && duration > 0
    ensures var blocks := PlanAll(segments, anchor, step, duration).blocks;
            && AllDisjoint(blocks)
            && forall b | b in blocks ::
                 b.end - b.start == duration && segments != [] && b.end <= SegmentEnd(Last(segments), step)
    decreases |segments|
  {
    hide PlanSegment, Contiguous;
    if segments != [] {
      var before, last := DropLast(segments), Last(segments);
      PlanIsTidy(before, anchor, step, duration);
      SegmentBlocksAreTidy(last, |segments| - 1, anchor, step, duration);
      if before != [] {
        SegmentGrows(last, step);
        JoinedDisjointness(PlanAll(before, anchor, step, duration).blocks,
                           PlanSegment(last, |segments| - 1, anchor, step, duration).blocks,
                           SegmentEnd(Last(before), step));
      } else {
        assert PlanAll(before, anchor, step, duration).blocks
               + PlanSegment(last, |segments| - 1, anchor, step, duration).blocks
            == PlanSegment(last, |segments| - 1, anchor, step, duration).blocks;
      }
    }
  }

  lemma SegmentGrows(segment: seq<Candle>, step: int)
    requires step > 0 && segment != [] && Contiguous(segment, step)
    ensures segment[0].openTime <= SegmentEnd(segment, step)
  {
    ContiguousSpan(segment, step, 1);
  }

  lemma {:induction false} SegmentCandlesAreCandles(segments: seq<seq<Candle>>, i: nat)
    requires i < |segments|
    ensures forall c | c in segments[i] :: c in Concat(segments)
    decreases |segments|
  {
    if i < |segments| - 1 { SegmentCandlesAreCandles(DropLast(segments), i); }
  }

  /** In an ordered series, each segment starts after the one before it. */
  lemma {:induction false} SegmentsFollow(segments: seq<seq<Candle>>, i: nat)
    requires NonEmpty(segments) && Increasing(Concat(segments)) && 0 < i < |segments|
    ensures Last(segments[i - 1]).openTime < segments[i][0].openTime
    decreases |segments|
  {
    var before, all := Concat(DropLast(segments)), Concat(segments);
    assert forall a, b | 0 <= a < b < |before| :: before[a] == all[a] && before[b] == all[b];
    if i < |segments| - 1 {
      SegmentsFollow(DropLast(segments), i);
    } else {
      var left := segments[i - 1];
      assert before == Concat(DropLast(DropLast(segments))) + left;
      assert all[|before| - 1] == Last(left) && all[|before|] == segments[i][0];
    }
  }

  /** On the grid, neighbouring segments are at least a step apart. */
  lemma SegmentsAreLaid(candles: seq<Candle>, step: int)
    requires step > 0 && candles != [] && Increasing(candles) && OnGrid(candles, step)
    ensures Laid(Segmented(candles, step).segments, step)
  {
    hide Increasing, Contiguous, OnGrid, Concat, Aligned;
    SegmentsAreMaximal(candles, step);
    SegmentsConcatenateBack(candles, step);
    var segments := Segmented(candles, step).segments;
    forall i | 0 < i < |segments| ensures SegmentEnd(segments[i - 1], step) <= segments[i][0].openTime {
      SegmentsFollow(segments, i);
      SegmentCandlesAreCandles(segments, i - 1);
      SegmentCandlesAreCandles(segments, i);
      GridApart(candles, step, Last(segments[i - 1]), segments[i][0]);
    }
  }

  lemma GridApart(candles: seq<Candle>, step: int, a: Candle, b: Candle)
    requires step > 0 && OnGrid(candles, step) && a in candles && b in candles && a.openTime < b.openTime
    ensures a.openTime + step <= b.openTime
  {
    AlignedApart(a.openTime - candles[0].openTime, b.openTime - candles[0].openTime, step);
  }

  /** A block inside a segment ends with or before the close of the segment's last candle, and by the cutoff. */
  lemma SegmentEndsByCutoff(candles: seq<Candle>, step: int, segment: seq<Candle>, cutoff: int)
    requires step > 0 && OnGrid(candles, step) && segment != [] && Last(segment) in candles
    requires Last(segment).openTime < cutoff
    requires Aligned(cutoff - candles[0].openTime, step)
    ensures SegmentEnd(segment, step) <= cutoff
  {
    AlignedApart(Last(segment).openTime - candles[0].openTime, cutoff - candles[0].openTime, step);
  }

  /**
   * For ordered pre-cutoff candles on the grid of an interval that divides the cutoff, the schedule is always
   * built: every window has exactly the declared length, lies in one segment, ends by the cutoff, and overlaps
   * no other.
   */
  lemma GridScheduleIsAlwaysBuilt(candles: seq<Candle>, step: int, anchor: int, days: int, cutoff: int)
    requires step > 0 && candles != [] && Accepts(candles, anchor, days, cutoff)
    requires OnGrid(candles, step) && OnClock(candles, step) && Aligned(cutoff - candles[0].openTime, step)
    ensures EachFits(candles, step, anchor, days) && ValidSchedule(ScheduleOf(candles, step, anchor, days), cutoff)
  {
    hide PlanSegment, Increasing, Contiguous, OnGrid, OnClock, Aligned, Segmented, AllDisjoint, Concat;
    var segments, duration := Segmented(candles, step).segments, days * MS_PER_DAY;
    SegmentsAreOrdered(candles, step);
    SegmentsAreLaid(candles, step);
    SegmentsConcatenateBack(candles, step);
    forall i | 0 <= i < |segments|
      ensures Fits(segments[i], PlanSegment(segments[i], i, anchor, step, duration))
      ensures SegmentEnd(segments[i], step) <= cutoff
    {
      var segment := segments[i];
      SegmentCandlesAreCandles(segments, i);
      LastIsMember(segment);
      SegmentBlocksAreTidy(segment, i, anchor, step, duration);
      ClosesAtEnd(candles, step, Last(segment));
      SegmentEndsByCutoff(candles, step, segment, cutoff);
    }
    PlanIsTidy(segments, anchor, step, duration);
  }

  lemma LastIsMember(segment: seq<Candle>)
    requires segment != []
    ensures Last(segment) in segment
  {
  }

  lemma ClosesAtEnd(candles: seq<Candle>, step: int, c: Candle)
    requires OnClock(candles, step) && c in candles
    ensures c.closeTime + 1 == c.openTime + step
  {
  }

  // ----- Conservation ----------------------------------------------------------------------------------------------

  /** The positions of the candles that open within a window. */
  datatype Held = Held(from: nat, to: nat)

  function HeldBy(segment: seq<Candle>, b: Block): Held {
    Held(Before(segment, b.start), Before(segment, b.end))
  }

  lemma HeldIsExact(segment: seq<Candle>, b: Block)
    requires Increasing(segment) && b.start <= b.end
    ensures var h := HeldBy(segment, b);
            && h.from <= h.to <= |segment|
            && forall i | 0 <= i < |segment| :: h.from <= i < h.to <==> b.start <= segment[i].openTime < b.end
  {
    BeforeMonotone(segment, b.start, b.end);
    BeforeSplits(segment, b.start);
    BeforeSplits(segment, b.end);
  }

  /** The windows hold consecutive stretches: the first starts after the warm-up, each next where the last ended. */
  predicate Tiles(segment: seq<Candle>, first: int, blocks: seq<Block>) {
    && blocks != [] && HeldBy(segment, blocks[0]).from == first
    && (forall k | 0 <= k < |blocks| :: HeldBy(segment, blocks[k]).from <= HeldBy(segment, blocks[k]).to <= |segment|)
    && forall k | 0 <= k < |blocks| - 1 :: HeldBy(segment, blocks[k]).to == HeldBy(segment, blocks[k + 1]).from
  }

  /** What is left over is everything from the end of the last window on. */
  predicate LeavesRest(segment: seq<Candle>, step: int, index: nat, plan: SegmentPlan)
    requires segment != [] && plan.blocks != []
  {
    var end := HeldBy(segment, Last(plan.blocks)).to;
    plan.leftovers == if end >= |segment| then []
                      else [Leftover(index, segment[end].openTime, Last(segment).closeTime, |segment| - end,
                                     SegmentEnd(segment, step) - Last(plan.blocks).end)]
  }

  /**
   * Warm-up, windows and leftover are consecutive stretches of a scheduled segment that together are all of it,
   * and a window that evaluates is run on exactly the candles it holds.
   */
  lemma SegmentIsPartitioned(segment: seq<Candle>, index: nat, anchor: int, step: int, duration: int)
    requires step > 0 && duration > 0 && 0 < anchor <= |segment| && Contiguous(segment, step)
    requires Periods(TradableSpan(segment, anchor, step), duration) > 0
    ensures var plan := PlanSegment(segment, index, anchor, step, duration);
            && plan.fragments == [] && Tiles(segment, anchor - 1, plan.blocks)
            && LeavesRest(segment, step, index, plan)
    ensures forall b, minRequired | b in PlanSegment(segment, index, anchor, step, duration).blocks
                                    && RangeOf(segment, b, minRequired).Ok? ::
              var r := RangeOf(segment, b, minRequired).value; Held(r.start, r.end) == HeldBy(segment, b)
  {
    hide Contiguous, Before, TradableStart, TradableSpan, Increasing;
    ContiguousIncreasing(segment, step);
    ContiguousSpan(segment, step, anchor);
    var plan := PlanSegment(segment, index, anchor, step, duration);
    PlannedBlocksHold(segment, index, anchor, step, duration);
    forall b, minRequired | b in plan.blocks && RangeOf(segment, b, minRequired).Ok?
      ensures var r := RangeOf(segment, b, minRequired).value; Held(r.start, r.end) == HeldBy(segment, b)
    {
    }
    LastEndsTheLast(segment, index, anchor, step, duration);
  }

  lemma PlannedBlocksHold(segment: seq<Candle>, index: nat, anchor: int, step: int, duration: int)
    requires step > 0 && duration > 0 && 0 < anchor <= |segment| && Increasing(segment)
    requires Periods(TradableSpan(segment, anchor, step), duration) > 0
    ensures var blocks := PlanSegment(segment, index, anchor, step, duration).blocks;
            && Tiles(segment, anchor - 1, blocks)
            && forall b | b in blocks :: HeldBy(segment, b).from <= HeldBy(segment, b).to
  {
    var blocks := PlanSegment(segment, index, anchor, step, duration).blocks;
    TimesAdds(0, 0, duration);
    BeforeStart(segment, anchor);
    forall k | 0 <= k < |blocks| ensures HeldBy(segment, blocks[k]).from <= HeldBy(segment, blocks[k]).to <= |segment| {
      TimesMonotone(k, k + 1, duration);
      HeldIsExact(segment, blocks[k]);
    }
  }

  lemma LastEndsTheLast(segment: seq<Candle>, index: nat, anchor: int, step: int, duration: int)
    requires step > 0 && duration > 0 && 0 < anchor <= |segment| && Contiguous(segment, step)
    requires Periods(TradableSpan(segment, anchor, step), duration) > 0
    ensures LeavesRest(segment, step, index, PlanSegment(segment, index, anchor, step, duration))
  {
    hide Before, TradableSpan;
    ContiguousIncreasing(segment, step);
    ContiguousSpan(segment, step, anchor);
    var start, count := TradableStart(segment, anchor), Periods(TradableSpan(segment, anchor, step), duration);
    var from := start + Times(count, duration);
    PeriodsBound(TradableSpan(segment, anchor, step), duration);
    BeforeStart(segment, anchor);
    TimesMonotone(0, count, duration);
    TimesAdds(0, 0, duration);
    BeforeMonotone(segment, start, from);
    if from >= SegmentEnd(segment, step) { BeforeIs(segment, from, |segment|); }
  }

  predicate HoldsAt(segment: seq<Candle>, b: Block, i: int) {
    HeldBy(segment, b).from <= i < HeldBy(segment, b).to
  }

  /** So every candle past the warm-up and before the leftover is in exactly one window. */
  lemma InExactlyOneWindow(segment: seq<Candle>, first: int, blocks: seq<Block>, i: nat) returns (k: nat)
    requires Tiles(segment, first, blocks) && first <= i < HeldBy(segment, Last(blocks)).to
    ensures k < |blocks| && forall j | 0 <= j < |blocks| :: HoldsAt(segment, blocks[j], i) <==> j == k
  {
    hide HeldBy;
    k := WindowUpTo(segment, first, blocks, |blocks| - 1, i);
    forall j | 0 <= j < |blocks| && j != k ensures !HoldsAt(segment, blocks[j], i) {
      if j < k { StretchesRise(segment, first, blocks, j, k); } else { StretchesRise(segment, first, blocks, k, j); }
    }
  }

  lemma {:induction false} WindowUpTo(segment: seq<Candle>, first: int, blocks: seq<Block>, n: nat, i: nat)
    returns (k: nat)
    requires Tiles(segment, first, blocks) && n < |blocks| && first <= i < HeldBy(segment, blocks[n]).to
    ensures k <= n && HoldsAt(segment, blocks[k], i)
  {
    hide HeldBy;
    k := n;
    if i < HeldBy(segment, blocks[n]).from {
      assert n > 0 ==> HeldBy(segment, blocks[n - 1]).to == HeldBy(segment, blocks[n - 1 + 1]).from;
      k := WindowUpTo(segment, first, blocks, n - 1, i);
    }
  }

  lemma {:induction false} StretchesRise(segment: seq<Candle>, first: int, blocks: seq<Block>, j: nat, k: nat)
    requires Tiles(segment, first, blocks) && j < k < |blocks|
    ensures HeldBy(segment, blocks[j]).to <= HeldBy(segment, blocks[k]).from
  {
    hide HeldBy;
    assert HeldBy(segment, blocks[k - 1]).to == HeldBy(segment, blocks[k - 1 + 1]).from;
    if j < k - 1 { StretchesRise(segment, first, blocks, j, k - 1); }
  }

  lemma BeforeStart(segment: seq<Candle>, anchor: int)
    requires 0 < anchor <= |segment| && Increasing(segment)
    ensures Before(segment, TradableStart(segment, anchor)) == anchor - 1
  {
  }

  // ----- Evaluating a window ----------------------------------------------------------------------------------------

  datatype WindowRange = WindowRange(warmUp: nat, start: nat, end: nat)

  /** The candles a candidate is run on for one window, or why the schedule does not fit it. */
  function RangeOf(segment: seq<Candle>, b: Block, minRequired: int): Result<WindowRange, ScheduleError> {
    var start := Position(segment, b.start, 0);
    var end := Position(segment, b.end, start);
    var runsPast := end == |segment| && (|segment| == 0 || Last(segment).closeTime + 1 < b.end);
    if end <= start || runsPast then Err(WindowOutOfRange)
    else if start - (minRequired - 1) < 0 then Err(InsufficientWarmUp)
    else Ok(WindowRange(start - (minRequired - 1), start, end))
  }

  method EvaluateDurationBlock(segment: seq<Candle>, b: Block, minRequired: int)
    returns (r: Result<WindowRange, ScheduleError>)
    requires Increasing(segment)
    ensures r == RangeOf(segment, b, minRequired)
  {
    var start := Locate(segment, b.start, 0);
    var end := Locate(segment, b.end, start);
    var runsPast := end == |segment| && (|segment| == 0 || Last(segment).closeTime + 1 < b.end);
    if end <= start || runsPast { return Err(WindowOutOfRange); }
    var warmUp := start - (minRequired - 1);
    if warmUp < 0 { return Err(InsufficientWarmUp); }
    r := Ok(WindowRange(warmUp, start, end));
  }

  /** A planned window evaluates exactly when it has a candle of its own; the warm-up is never the problem. */
  lemma PlannedWindowEvaluates(segment: seq<Candle>, index: nat, anchor: int, step: int, duration: int, k: nat,
                               minRequired: int)
    requires step > 0 && duration > 0 && 0 < minRequired <= anchor <= |segment| && Contiguous(segment, step)
    requires OnClock(segment, step)
    requires k < Periods(TradableSpan(segment, anchor, step), duration)
    ensures var b := BlocksAt(index, TradableStart(segment, anchor), duration,
                              Periods(TradableSpan(segment, anchor, step), duration))[k];
            && (RangeOf(segment, b, minRequired).Ok? <==> Before(segment, b.start) < Before(segment, b.end))
            && (RangeOf(segment, b, minRequired).Err? ==> RangeOf(segment, b, minRequired).error == WindowOutOfRange)
            && Before(segment, b.start) >= anchor - 1
  {
    hide Contiguous, Before;
    ContiguousIncreasing(segment, step);
    ContiguousSpan(segment, step, anchor);
    var start, span := TradableStart(segment, anchor), TradableSpan(segment, anchor, step);
    var count := Periods(span, duration);
    PeriodsBound(span, duration);
    BlocksAreTidy(index, start, duration, count);
    BeforeStart(segment, anchor);
    var b := BlocksAt(index, start, duration, count)[k];
    assert b in BlocksAt(index, start, duration, count);
    BeforeMonotone(segment, start, b.start);
    BeforeMonotone(segment, b.start, b.end);
  }

  /** If every window has a candle of its own, there are at least as many tradable candles as windows. */
  lemma {:induction false} OwnCandlesAddUp(segment: seq<Candle>, start: int, duration: int, first: nat, k: nat)
    requires duration > 0 && Increasing(segment) && Before(segment, start) >= first
    requires forall i | 0 <= i < k ::
               Before(segment, start + Times(i, duration)) < Before(segment, start + Times(i + 1, duration))
    ensures Before(segment, start + Times(k, duration)) >= first + k
  {
    TimesAdds(0, 0, duration);
    if k > 0 { OwnCandlesAddUp(segment, start, duration, first, k - 1); }
  }

  /** With no more windows than tradable candles, every window has a candle of its own. */
  lemma EnoughCandlesForEach(segment: seq<Candle>, anchor: int, step: int, duration: int, k: nat)
    requires step > 0 && duration > 0 && 0 < anchor <= |segment| && Contiguous(segment, step)
    requires k < Periods(TradableSpan(segment, anchor, step), duration) <= |segment| - (anchor - 1)
    ensures var start := TradableStart(segment, anchor);
            Before(segment, start + Times(k, duration)) < Before(segment, start + Times(k + 1, duration))
  {
    hide Contiguous;
    ContiguousIncreasing(segment, step);
    ContiguousSpan(segment, step, anchor);
    var start, span := TradableStart(segment, anchor), TradableSpan(segment, anchor, step);
    var cnt := |segment| - (anchor - 1);
    var count := Periods(span, duration);
    PeriodsBound(span, duration);
    TimesAdds(k, 1, duration);
    TimesMonotone(k + 1, count, duration);
    var i := if duration >= step then Before(segment, start + Times(k, duration)) else anchor - 1 + k;
    if duration >= step {
      LongWindowHasCandle(segment, step, start + Times(k, duration), start + Times(k + 1, duration));
    } else {
      ShortWindowHasCandle(segment, step, duration, anchor, k, cnt, count);
    }
  }

  /** A window of at least one step that starts after the segment does and ends by its end holds a candle. */
  lemma LongWindowHasCandle(segment: seq<Candle>, step: int, from: int, end: int)
    requires step > 0 && segment != [] && Increasing(segment) && Contiguous(segment, step)
    requires segment[0].openTime <= from && from + step <= end <= SegmentEnd(segment, step)
    ensures Before(segment, from) < Before(segment, end)
  {
  }

  /** A shorter window still holds the candle of its own number, as long as the windows are no more than the candles. */
  lemma ShortWindowHasCandle(segment: seq<Candle>, step: int, duration: int, anchor: int, k: nat, cnt: int, count: int)
    requires 0 < duration < step && 0 < anchor <= |segment| && Increasing(segment) && Contiguous(segment, step)
    requires cnt == |segment| - (anchor - 1) && k < count <= cnt && Times(cnt, step) < Times(count + 1, duration)
    ensures var start := TradableStart(segment, anchor);
            Before(segment, start + Times(k, duration)) < Before(segment, start + Times(k + 1, duration))
  {
    var i, start := anchor - 1 + k, TradableStart(segment, anchor);
    ContiguousTimes(segment, step, anchor - 1);
    ContiguousTimes(segment, step, i);
    TimesAdds(anchor - 1, k, step);
    assert segment[i].openTime == start + Times(k, step);
    TimesOfDifference(k, step, duration);
    TimesOfDifference(cnt, step, duration);
    TimesMonotone(k, cnt, step - duration);
    TimesMonotone(count + 1, cnt + 1, duration);
    TimesAdds(cnt, 1, duration);
    TimesAdds(k, 1, duration);
    TimesMonotone(0, k, step - duration);
    TimesAdds(0, 0, step - duration);
    BeforeSplits(segment, start + Times(k, duration));
    BeforeSplits(segment, start + Times(k + 1, duration));
  }

  predicate HasCandle(segment: seq<Candle>, start: int, duration: int, k: nat) {
    Before(segment, start + Times(k, duration)) < Before(segment, start + Times(k + 1, duration))
  }

  lemma OwnCandlesExactlyWhenEnough(segment: seq<Candle>, anchor: int, step: int, duration: int)
    requires step > 0 && duration > 0 && 0 < anchor <= |segment| && Contiguous(segment, step)
    ensures var start, count := TradableStart(segment, anchor), Periods(TradableSpan(segment, anchor, step), duration);
            && count >= 0
            && ((forall k | 0 <= k < count ::
                HasCandle(segment, start, duration, k)) <==> count <= |segment| - (anchor - 1))
  {
    hide Contiguous, Before, TradableStart, TradableSpan, Increasing;
    ContiguousIncreasing(segment, step);
    ContiguousSpan(segment, step, anchor);
    var start, count := TradableStart(segment, anchor), Periods(TradableSpan(segment, anchor, step), duration);
    PeriodsBound(TradableSpan(segment, anchor, step), duration);
    TimesMonotone(0, count + 1, duration);
    TimesAdds(0, 0, duration);
    if forall k | 0 <= k < count :: HasCandle(segment, start, duration, k) {
      BeforeStart(segment, anchor);
      forall i | 0 <= i < count
        ensures Before(segment, start + Times(i, duration)) < Before(segment, start + Times(i + 1, duration))
      {
        assert HasCandle(segment, start, duration, i);
      }
      OwnCandlesAddUp(segment, start, duration, anchor - 1, count);
    }
    if count <= |segment| - (anchor - 1) {
      forall k | 0 <= k < count ensures HasCandle(segment, start, duration, k) {
        EnoughCandlesForEach(segment, anchor, step, duration, k);
      }
    }
  }

  function PlannedBlocks(segment: seq<Candle>, index: nat, anchor: int, step: int, duration: int): (r: seq<Block>)
    requires 0 < anchor <= |segment| && duration > 0
  {
    BlocksAt(index, TradableStart(segment, anchor), duration, Periods(TradableSpan(segment, anchor, step), duration))
  }

  /**
   * Every planned window of a segment evaluates, for any candidate whose warm-up is within the anchor, exactly
   * when the segment has at least as many tradable candles as planned windows. (A window shorter than the
   * candle interval can otherwise be left without a candle.)
   */
  lemma WindowsEvaluateExactlyWhenCandlesSuffice(segment: seq<Candle>, index: nat, anchor: int, step: int,
                                                 duration: int, minRequired: int)
    requires step > 0 && duration > 0 && 0 < minRequired <= anchor <= |segment| && Contiguous(segment, step)
    requires OnClock(segment, step)
    ensures (forall b | b in PlannedBlocks(segment, index, anchor, step, duration) ::
             RangeOf(segment, b, minRequired).Ok?)
       <==> Periods(TradableSpan(segment, anchor, step), duration) <= |segment| - (anchor - 1)
  {
    hide Contiguous, OnClock, RangeOf, Before, TradableStart, TradableSpan;
    var start, count := TradableStart(segment, anchor), Periods(TradableSpan(segment, anchor, step), duration);
    var blocks := PlannedBlocks(segment, index, anchor, step, duration);
    OwnCandlesExactlyWhenEnough(segment, anchor, step, duration);
    forall k | 0 <= k < count
      ensures RangeOf(segment, blocks[k], minRequired).Ok? <==> HasCandle(segment, start, duration, k)
    {
      PlannedWindowEvaluates(segment, index, anchor, step, duration, k, minRequired);
    }
    if forall b | b in blocks :: RangeOf(segment, b, minRequired).Ok? {
      forall k | 0 <= k < count ensures HasCandle(segment, start, duration, k) { assert blocks[k] in blocks; }
    }
  }

  /** A block at least as long as the candle interval never asks for more windows than candles. */
  lemma LongBlocksAlwaysSuffice(segment: seq<Candle>, anchor: int, step: int, duration: int)
    requires 0 < step <= duration && 0 < anchor <= |segment| && Contiguous(segment, step)
    ensures Periods(TradableSpan(segment, anchor, step), duration) <= |segment| - (anchor - 1)
  {
    ContiguousSpan(segment, step, anchor);
    var count, cnt := Periods(TradableSpan(segment, anchor, step), duration), |segment| - (anchor - 1);
    PeriodsBound(TradableSpan(segment, anchor, step), duration);
    TimesMonotone(0, count + 1, duration);
    TimesAdds(0, 0, duration);
    AtLeast(count, step, duration);
    TimesMonotone(count, cnt, step);
  }

  lemma AtLeast(n: int, small: int, large: int)
    requires n >= 0 && small <= large
    ensures Times(n, small) <= Times(n, large)
  {
  }

  // ----- The whole schedule --------------------------------------------------------------------------------------

  function SegmentsOf(candles: seq<Candle>, step: int): seq<seq<Candle>>
    requires step > 0
  {
    Segmented(candles, step).segments
  }

  /** The plan of one segment of the schedule. */
  function PlanAt(candles: seq<Candle>, step: int, anchor: int, days: int, i: nat): SegmentPlan
    requires step > 0 && anchor > 0 && days > 0 && i < |SegmentsOf(candles, step)|
  {
    SegmentsAreOrdered(candles, step);
    PlanSegment(SegmentsOf(candles, step)[i], i, anchor, step, days * MS_PER_DAY)
  }

  lemma {:induction false} JoinedBlocks(segments: seq<seq<Candle>>, anchor: int, step: int, duration: int, b: Block)
    requires NonEmpty(segments) && anchor > 0 && step > 0 && duration > 0
    ensures b in PlanAll(segments, anchor, step, duration).blocks
       <==> b.segment < |segments| && b in PlanSegment(segments[b.segment], b.segment, anchor, step, duration).blocks
    decreases |segments|
  {
    if segments != [] {
      var n := |segments| - 1;
      JoinedBlocks(DropLast(segments), anchor, step, duration, b);
      BlocksNameTheirSegment(segments[n], n, anchor, step, duration);
    }
  }

  lemma BlocksNameTheirSegment(segment: seq<Candle>, index: nat, anchor: int, step: int, duration: int)
    requires segment != [] && anchor > 0 && step > 0 && duration > 0
    ensures forall b | b in PlanSegment(segment, index, anchor, step, duration).blocks :: b.segment == index
  {
  }

  /** The windows of a schedule are exactly those planned for the segments they name. */
  lemma ScheduledBlocks(candles: seq<Candle>, step: int, anchor: int, days: int, b: Block)
    requires step > 0 && anchor > 0 && days > 0
    ensures b in ScheduleOf(candles, step, anchor, days).blocks
       <==> b.segment < |SegmentsOf(candles, step)| && b in PlanAt(candles, step, anchor, days, b.segment).blocks
  {
    SegmentsAreOrdered(candles, step);
    hide PlanAll, PlanSegment, Segmented;
    JoinedBlocks(SegmentsOf(candles, step), anchor, step, days * MS_PER_DAY, b);
  }

  /** Every window of a schedule lies inside the gap-free segment it names. */
  lemma ScheduledWindowLiesInItsSegment(candles: seq<Candle>, step: int, anchor: int, days: int, b: Block)
    requires step > 0 && anchor > 0 && days > 0 && b in ScheduleOf(candles, step, anchor, days).blocks
    ensures b.segment < |SegmentsOf(candles, step)|
    ensures var segment := SegmentsOf(candles, step)[b.segment];
            && segment != [] && Contiguous(segment, step) && b.end - b.start == days * MS_PER_DAY
            && segment[0].openTime <= b.start && b.end <= SegmentEnd(segment, step)
  {
    hide ScheduleOf, PlanSegment, Segmented;
    ScheduledBlocks(candles, step, anchor, days, b);
    SegmentIsWellFormed(candles, step, b.segment);
    SegmentBlocksAreTidy(SegmentsOf(candles, step)[b.segment], b.segment, anchor, step, days * MS_PER_DAY);
  }

  lemma SegmentIsWellFormed(candles: seq<Candle>, step: int, i: nat)
    requires step > 0 && i < |SegmentsOf(candles, step)|
    ensures SegmentsOf(candles, step)[i] != [] && Contiguous(SegmentsOf(candles, step)[i], step)
    ensures OnClock(candles, step) ==> OnClock(SegmentsOf(candles, step)[i], step)
  {
    SegmentsAreMaximal(candles, step);
    SegmentsConcatenateBack(candles, step);
    SegmentCandlesAreCandles(SegmentsOf(candles, step), i);
    var segment := SegmentsOf(candles, step)[i];
    if OnClock(candles, step) {
      forall j | 0 <= j < |segment| ensures segment[j].closeTime == segment[j].openTime + step - 1 {
        assert segment[j] in segment;
      }
    }
  }

  /** The segment is long enough to be scheduled at all. */
  predicate Scheduled(segment: seq<Candle>, step: int, anchor: int, duration: int)
    requires step > 0 && duration > 0
  {
    0 < anchor <= |segment| && Periods(TradableSpan(segment, anchor, step), duration) > 0
  }

  /** In every scheduled segment, warm-up, windows and leftover are consecutive and together all of it. */
  lemma SchedulePartitionsItsSegments(candles: seq<Candle>, step: int, anchor: int, days: int, i: nat)
    requires step > 0 && anchor > 0 && days > 0 && i < |SegmentsOf(candles, step)|
    requires Scheduled(SegmentsOf(candles, step)[i], step, anchor, days * MS_PER_DAY)
    ensures var segment, plan := SegmentsOf(candles, step)[i], PlanAt(candles, step, anchor, days, i);
            && segment != [] && Tiles(segment, anchor - 1, plan.blocks) && LeavesRest(segment, step, i, plan)
            && forall b | b in plan.blocks :: b in ScheduleOf(candles, step, anchor, days).blocks
  {
    hide ScheduleOf, PlanSegment, Segmented, Tiles, LeavesRest;
    SegmentIsWellFormed(candles, step, i);
    var segment, plan := SegmentsOf(candles, step)[i], PlanAt(candles, step, anchor, days, i);
    SegmentIsPartitioned(segment, i, anchor, step, days * MS_PER_DAY);
    BlocksNameTheirSegment(segment, i, anchor, step, days * MS_PER_DAY);
    forall b | b in plan.blocks ensures b in ScheduleOf(candles, step, anchor, days).blocks {
      ScheduledBlocks(candles, step, anchor, days, b);
    }
  }

  lemma PlanNamesItsSegment(candles: seq<Candle>, step: int, anchor: int, days: int, i: nat)
    requires step > 0 && anchor > 0 && days > 0 && i < |SegmentsOf(candles, step)|
    ensures forall b | b in PlanAt(candles, step, anchor, days, i).blocks :: b.segment == i
  {
    SegmentIsWellFormed(candles, step, i);
    BlocksNameTheirSegment(SegmentsOf(candles, step)[i], i, anchor, step, days * MS_PER_DAY);
  }

  predicate Evaluates(candles: seq<Candle>, step: int, minRequired: int, b: Block)
    requires step > 0
  {
    b.segment < |SegmentsOf(candles, step)| && RangeOf(SegmentsOf(candles, step)[b.segment], b, minRequired).Ok?
  }

  /** The segment has a tradable candle for each of its windows. */
  predicate EnoughCandles(segment: seq<Candle>, step: int, anchor: int, duration: int)
    requires step > 0 && duration > 0
  {
    0 < anchor <= |segment| ==> Periods(TradableSpan(segment, anchor, step), duration) <= |segment| - (anchor - 1)
  }

  lemma SegmentEvaluatesExactlyWhenEnough(candles: seq<Candle>, step: int, anchor: int, days: int, minRequired: int,
                                          i: nat)
    requires step > 0 && days > 0 && 0 < minRequired <= anchor && OnClock(candles, step)
    requires i < |SegmentsOf(candles, step)|
    ensures (forall b | b in PlanAt(candles, step, anchor, days, i).blocks :: Evaluates(candles, step, minRequired, b))
       <==> EnoughCandles(SegmentsOf(candles, step)[i], step, anchor, days * MS_PER_DAY)
  {
    hide SegmentsOf, RangeOf, OnClock, Contiguous, PlanSegment, PlannedBlocks, TradableSpan, Periods;
    var segment, duration := SegmentsOf(candles, step)[i], days * MS_PER_DAY;
    SegmentIsWellFormed(candles, step, i);
    PlanNamesItsSegment(candles, step, anchor, days, i);
    if anchor <= |segment| {
      WindowsEvaluateExactlyWhenCandlesSuffice(segment, i, anchor, step, duration, minRequired);
      PlannedAreBlocks(segment, i, anchor, step, duration);
      var blocks := PlanAt(candles, step, anchor, days, i).blocks;
      assert blocks == PlannedBlocks(segment, i, anchor, step, duration);
      forall b | b in blocks
        ensures Evaluates(candles, step, minRequired, b) <==> RangeOf(segment, b, minRequired).Ok?
      {
      }
    } else {
      NothingPlanned(segment, i, anchor, step, duration);
    }
  }

  lemma NothingPlanned(segment: seq<Candle>, index: nat, anchor: int, step: int, duration: int)
    requires segment != [] && |segment| < anchor && step > 0 && duration > 0
    ensures PlanSegment(segment, index, anchor, step, duration).blocks == []
  {
  }

  lemma PlannedAreBlocks(segment: seq<Candle>, index: nat, anchor: int, step: int, duration: int)
    requires 0 < anchor <= |segment| && step > 0 && duration > 0
    ensures PlanSegment(segment, index, anchor, step, duration).blocks
         == PlannedBlocks(segment, index, anchor, step, duration)
  {
  }

  /** Every window of a schedule evaluates exactly when no segment plans more windows than it has tradable candles. */
  lemma ScheduleEvaluatesExactlyWhenEnough(candles: seq<Candle>, step: int, anchor: int, days: int, minRequired: int)
    requires step > 0 && days > 0 && 0 < minRequired <= anchor && OnClock(candles, step)
    ensures (forall b | b in ScheduleOf(candles, step, anchor, days).blocks :: Evaluates(candles, step, minRequired, b))
       <==> forall i | 0 <= i < |SegmentsOf(candles, step)| ::
              EnoughCandles(SegmentsOf(candles, step)[i], step, anchor, days * MS_PER_DAY)
  {
    hide ScheduleOf, SegmentsOf, PlanAt, EnoughCandles, Evaluates;
    var segments := SegmentsOf(candles, step);
    forall i | 0 <= i < |segments|
      ensures (forall b | b in PlanAt(candles, step, anchor, days, i).blocks ::
                 Evaluates(candles, step, minRequired, b))
         <==> EnoughCandles(segments[i], step, anchor, days * MS_PER_DAY)
      ensures forall b | b in PlanAt(candles, step, anchor, days, i).blocks :: b.segment == i
    {
      SegmentEvaluatesExactlyWhenEnough(candles, step, anchor, days, minRequired, i);
      PlanNamesItsSegment(candles, step, anchor, days, i);
    }
    forall b
      ensures b in ScheduleOf(candles, step, anchor, days).blocks
         <==> b.segment < |segments| && b in PlanAt(candles, step, anchor, days, b.segment).blocks
    {
      ScheduledBlocks(candles, step, anchor, days, b);
    }
  }

  /**
   * The condition is needed: of the three one-day windows offered by one three-day candle the second is empty,
   * although the schedule is accepted and valid.
   */
  lemma AWindowCanBeEmpty()
    ensures var c := Candle("X", 0, 3 * MS_PER_DAY - 1, 1.0, 1.0, 1.0, 1.0, 1.0);
            var step, cutoff := 3 * MS_PER_DAY, 3 * MS_PER_DAY;
            && Accepts([c], 1, 1, cutoff) && EachFits([c], step, 1, 1)
            && ValidSchedule(ScheduleOf([c], step, 1, 1), cutoff)
            && var blocks := ScheduleOf([c], step, 1, 1).blocks;
               |blocks| == 3 && RangeOf([c], blocks[1], 1) == Err(WindowOutOfRange)
  {
    var c := Candle("X", 0, 3 * MS_PER_DAY - 1, 1.0, 1.0, 1.0, 1.0, 1.0);
    GridScheduleIsAlwaysBuilt([c], 3 * MS_PER_DAY, 1, 1, 3 * MS_PER_DAY);
    OneSegmentPlan([c], 3 * MS_PER_DAY, 1, MS_PER_DAY);
  }

  lemma OneSegmentPlan(segment: seq<Candle>, step: int, anchor: int, duration: int)
    requires |segment| == 1 && step > 0 && anchor > 0 && duration > 0
    ensures Segmented(segment, step).segments == [segment]
    ensures PlanAll([segment], anchor, step, duration).blocks == PlanSegment(segment, 0, anchor, step, duration).blocks
  {
    hide PlanSegment;
    assert DropLast([segment]) == [];
    assert PlanAll([], anchor, step, duration).blocks == [];
  }
}
