// Splitting a candle series around its gaps (data/gap_detection.py).

module GapDetection {
  import opened Common
  import opened Grid

  datatype GapRecord = GapRecord(expected: int, previous: int, next: int, missing: int)

  datatype Segmentation = Segmentation(segments: seq<seq<Candle>>, gaps: seq<GapRecord>)

  datatype SeriesError = EmptyData | DuplicateCandle(openTime: int) | OutOfOrderCandle(openTime: int)

  predicate Increasing(candles: seq<Candle>) {
    forall i, j | 0 <= i < j < |candles| :: candles[i].openTime < candles[j].openTime
  }

  function OpenTimes(candles: seq<Candle>): set<int> {
    set c | c in candles :: c.openTime
  }

  function GapBetween(previous: Candle, next: Candle, step: int): GapRecord
    requires step > 0
  {
    GapRecord(previous.openTime + step, previous.openTime, next.openTime,
              Periods(next.openTime - previous.openTime, step) - 1)
  }

  /** One more candle: it continues the last segment, or opens a new one behind a gap. */
  function Extended(s: Segmentation, previous: Candle, c: Candle, step: int): Segmentation
    requires step > 0 && |s.segments| > 0
  {
    if c.openTime - previous.openTime == step then s.(segments := DropLast(s.segments) + [Last(s.segments) + [c]])
    else Segmentation(s.segments + [[c]], s.gaps + [GapBetween(previous, c, step)])
  }

  function Segmented(candles: seq<Candle>, step: int): (r: Segmentation)
    requires step > 0
    ensures candles != [] ==> |r.segments| > 0
  {
    if candles == [] then Segmentation([], [])
    else if |candles| == 1 then Segmentation([candles], [])
    else Extended(Segmented(DropLast(candles), step), candles[|candles| - 2], Last(candles), step)
  }

  /** The first candle that repeats or precedes an earlier one; a repeat is reported as such. */
  function OrderError(candles: seq<Candle>): Option<SeriesError> {
    if candles == [] then None
    else
      var before, c := DropLast(candles), Last(candles);
      match OrderError(before)
      case Some(error) => Some(error)
      case None =>
        if c.openTime in OpenTimes(before) then Some(DuplicateCandle(c.openTime))
        else if before != [] && c.openTime <= Last(before).openTime then Some(OutOfOrderCandle(c.openTime))
        else None
  }

  function Partition(candles: seq<Candle>, step: int): Result<Segmentation, SeriesError>
    requires step > 0
  {
    if candles == [] then Err(EmptyData)
    else if OrderError(candles).Some? then Err(OrderError(candles).value)
    else Ok(Segmented(candles, step))
  }

  method PartitionIntoSegments(candles: seq<Candle>, step: int) returns (r: Result<Segmentation, SeriesError>)
    requires step > 0
    ensures r == Partition(candles, step)
  {
    hide OrderError, Segmented, OpenTimes;
    if candles == [] { return Err(EmptyData); }
    NothingScanned(candles);
    var segments: seq<seq<Candle>> := [[]];
    var gaps: seq<GapRecord> := [];
    var seen: set<int> := {};
    var previous: Option<Candle> := None;
    for i := 0 to |candles|
      invariant seen == OpenTimes(candles[..i]) && OrderError(candles[..i]).None?
      invariant previous == if i == 0 then None else Some(candles[i - 1])
      invariant |segments| > 0
      invariant i == 0 ==> segments == [[]] && gaps == []
      invariant i > 0 ==> Segmentation(segments, gaps) == Segmented(candles[..i], step)
    {
      var c := candles[i];
      OrderStep(candles, i);
      if c.openTime in seen {
        ErrorPersists(candles, i + 1);
        return Err(DuplicateCandle(c.openTime));
      }
      seen := seen + {c.openTime};
      if previous.Some? {
        SegmentedStep(candles, i, step);
        if c.openTime <= previous.value.openTime {
          ErrorPersists(candles, i + 1);
          return Err(OutOfOrderCandle(c.openTime));
        }
        if c.openTime - previous.value.openTime != step {
          gaps := gaps + [GapBetween(previous.value, c, step)];
          FreshSegment(segments, c);
          segments := segments + [[]];
        }
      }
      assert i == 0 ==> candles[..1] == [c] && Last(segments) + [c] == [c] && DropLast(segments) == [];
      if i == 0 { SingleSegment(candles[..1], step); }
      segments := DropLast(segments) + [Last(segments) + [c]];
      previous := Some(c);
    }
    assert candles[..|candles|] == candles;
    r := Ok(Segmentation(segments, gaps));
  }

  lemma FreshSegment(segments: seq<seq<Candle>>, c: Candle)
    ensures DropLast(segments + [[]]) + [Last(segments + [[]]) + [c]] == segments + [[c]]
  {
    var grown: seq<seq<Candle>> := segments + [[]];
    assert DropLast(grown) == segments && Last(grown) + [c] == [c];
  }

  lemma SegmentedStep(candles: seq<Candle>, i: nat, step: int)
    requires 0 < i < |candles| && step > 0
    ensures |Segmented(candles[..i], step).segments| > 0
    ensures Segmented(candles[..i + 1], step)
            == Extended(Segmented(candles[..i], step), candles[i - 1], candles[i], step)
  {
    assert DropLast(candles[..i + 1]) == candles[..i];
  }

  lemma NothingScanned(candles: seq<Candle>)
    ensures OpenTimes(candles[..0]) == {} && OrderError(candles[..0]).None?
  {
  }

  lemma SingleSegment(candles: seq<Candle>, step: int)
    requires step > 0 && |candles| == 1
    ensures Segmented(candles, step) == Segmentation([candles], [])
  {
  }

  /** One more candle decides about itself only. */
  lemma OrderStep(candles: seq<Candle>, i: nat)
    requires i < |candles| && OrderError(candles[..i]).None?
    ensures OpenTimes(candles[..i + 1]) == OpenTimes(candles[..i]) + {candles[i].openTime}
    ensures OrderError(candles[..i + 1])
         == if candles[i].openTime in OpenTimes(candles[..i]) then Some(DuplicateCandle(candles[i].openTime))
            else if i > 0 && candles[i].openTime <= candles[i - 1].openTime
                 then Some(OutOfOrderCandle(candles[i].openTime))
            else None
  {
    assert DropLast(candles[..i + 1]) == candles[..i];
    assert candles[..i + 1] == candles[..i] + [candles[i]];
  }

  lemma {:induction false} ErrorPersists(candles: seq<Candle>, n: nat)
    requires n <= |candles| && OrderError(candles[..n]).Some?
    ensures OrderError(candles) == OrderError(candles[..n])
    decreases |candles|
  {
    if n == |candles| {
      assert candles[..n] == candles;
    } else {
      assert DropLast(candles)[..n] == candles[..n];
      ErrorPersists(DropLast(candles), n);
    }
  }

  // ----- What the partition means -------------------------------------------------------------------------

  lemma IncreasingStep(candles: seq<Candle>)
    requires candles != []
    ensures var before := DropLast(candles);
            Increasing(candles) <==>
              Increasing(before) && (before == [] || Last(before).openTime < Last(candles).openTime)
  {
    var before, n := DropLast(candles), |candles| - 1;
    assert forall i | 0 <= i < n :: before[i] == candles[i];
  }

  lemma LatestIsLast(candles: seq<Candle>)
    requires Increasing(candles) && candles != []
    ensures Last(candles).openTime in OpenTimes(candles) && forall t | t in OpenTimes(candles) ::
              t <= Last(candles).openTime
  {
  }

  /** Accepted exactly when every candle opens after the one before it. */
  lemma {:induction false} AcceptedExactlyWhenIncreasing(candles: seq<Candle>)
    ensures OrderError(candles).None? <==> Increasing(candles)
  {
    if candles != [] {
      var before := DropLast(candles);
      AcceptedExactlyWhenIncreasing(before);
      IncreasingStep(candles);
      if before != [] && Increasing(before) { LatestIsLast(before); }
    }
  }

  function Concat(segments: seq<seq<Candle>>): seq<Candle> {
    if segments == [] then [] else Concat(DropLast(segments)) + Last(segments)
  }

  lemma ConcatAppend(segments: seq<seq<Candle>>, s: seq<Candle>)
    ensures Concat(segments + [s]) == Concat(segments) + s
  {
  }

  /** Nothing is lost, repeated or reordered. */
  lemma {:induction false} SegmentsConcatenateBack(candles: seq<Candle>, step: int)
    requires step > 0
    ensures Concat(Segmented(candles, step).segments) == candles
  {
    hide Extended;
    if candles != [] {
      var before, c := DropLast(candles), Last(candles);
      SegmentsConcatenateBack(before, step);
      if before == [] {
        ConcatAppend([], candles);
      } else {
        ExtendedConcatenates(Segmented(before, step), Last(before), c, step);
        assert candles == before + [c];
      }
    }
  }

  lemma ExtendedConcatenates(s: Segmentation, previous: Candle, c: Candle, step: int)
    requires step > 0 && |s.segments| > 0
    ensures Concat(Extended(s, previous, c, step).segments) == Concat(s.segments) + [c]
  {
  }

  predicate Contiguous(candles: seq<Candle>, step: int) {
    forall i | 0 <= i < |candles| - 1 :: candles[i + 1].openTime == candles[i].openTime + step
  }

  /** A gap sits exactly between two neighbouring segments, which do not meet. */
  predicate GapSits(r: Segmentation, i: nat, step: int)
    requires step > 0 && i < |r.gaps| < |r.segments|
  {
    var left, right := r.segments[i], r.segments[i + 1];
    left != [] && right != [] && r.gaps[i] == GapBetween(Last(left), right[0], step)
    && right[0].openTime != Last(left).openTime + step
  }

  predicate WellSegmented(r: Segmentation, step: int)
    requires step > 0
  {
    && (forall i | 0 <= i < |r.segments| :: r.segments[i] != [] && Contiguous(r.segments[i], step))
    && |r.gaps| == |r.segments| - 1
    && forall i | 0 <= i < |r.gaps| :: GapSits(r, i, step)
  }

  lemma ContiguousAppend(candles: seq<Candle>, c: Candle, step: int)
    requires candles != [] && Contiguous(candles, step) && c.openTime == Last(candles).openTime + step
    ensures Contiguous(candles + [c], step)
  {
  }

  lemma ExtendedKeepsShape(s: Segmentation, c: Candle, step: int)
    requires step > 0 && |s.segments| > 0 && WellSegmented(s, step)
    ensures WellSegmented(Extended(s, Last(Last(s.segments)), c, step), step)
  {
    var r := Extended(s, Last(Last(s.segments)), c, step);
    if |r.gaps| == |s.gaps| { ContiguousAppend(Last(s.segments), c, step); }
    forall i | 0 <= i < |r.gaps| ensures GapSits(r, i, step) {
      if i < |s.gaps| { assert GapSits(s, i, step); }
    }
  }

  /** Every segment is contiguous, and the series is split only where it has to be. */
  lemma {:induction false} SegmentsAreMaximal(candles: seq<Candle>, step: int)
    requires step > 0 && candles != []
    ensures var r := Segmented(candles, step);
            WellSegmented(r, step) && Last(r.segments) != [] && Last(Last(r.segments)) == Last(candles)
  {
    if |candles| > 1 {
      SegmentsAreMaximal(DropLast(candles), step);
      ExtendedKeepsShape(Segmented(DropLast(candles), step), Last(candles), step);
    }
  }

  /** Where the last segment begins. */
  function LastStart(candles: seq<Candle>, step: int): (start: nat)
    ensures start <= |candles| && (candles != [] ==> start < |candles|)
  {
    if |candles| <= 1 then 0
    else if Last(candles).openTime - candles[|candles| - 2].openTime == step then LastStart(DropLast(candles), step)
    else |candles| - 1
  }

  lemma {:induction false} LastSegmentStarts(candles: seq<Candle>, step: int)
    requires step > 0 && candles != []
    ensures Last(Segmented(candles, step).segments) == candles[LastStart(candles, step)..]
  {
    hide Extended;
    if |candles| > 1 {
      var before, c := DropLast(candles), Last(candles);
      LastSegmentStarts(before, step);
      ExtendedLast(Segmented(before, step), Last(before), c, step);
      assert candles == before + [c];
      TailGrows(before, c, LastStart(before, step));
    }
  }

  lemma TailGrows(candles: seq<Candle>, c: Candle, k: nat)
    requires k <= |candles|
    ensures (candles + [c])[k..] == candles[k..] + [c] && (candles + [c])[|candles|..] == [c]
  {
  }

  lemma ExtendedLast(s: Segmentation, previous: Candle, c: Candle, step: int)
    requires step > 0 && |s.segments| > 0
    ensures |Extended(s, previous, c, step).segments| > 0
    ensures Last(Extended(s, previous, c, step).segments)
         == if c.openTime - previous.openTime == step then Last(s.segments) + [c] else [c]
  {
  }

  /** A candle belongs to the segment of a longer prefix's end exactly when that segment starts no later than it. */
  lemma {:induction false} SegmentOfPrefix(candles: seq<Candle>, step: int, p: nat, k: nat)
    requires 0 < p <= k <= |candles|
    ensures var a, b := LastStart(candles[..p], step), LastStart(candles[..k], step);
            a <= b && (b < p <==> a == b)
  {
    if p < k {
      SegmentOfPrefix(candles, step, p, k - 1);
      assert DropLast(candles[..k]) == candles[..k - 1];
    }
  }

  lemma {:induction false} OneSegmentIsContiguous(candles: seq<Candle>, step: int)
    requires LastStart(candles, step) == 0
    ensures Contiguous(candles, step)
  {
    if |candles| > 1 { OneSegmentIsContiguous(DropLast(candles), step); }
  }

  lemma {:induction false} ContiguousStartsAtZero(candles: seq<Candle>, step: int, k: nat)
    requires Contiguous(candles, step) && k <= |candles|
    ensures LastStart(candles[..k], step) == 0
  {
    if k > 1 {
      ContiguousStartsAtZero(candles, step, k - 1);
      assert DropLast(candles[..k]) == candles[..k - 1];
      assert candles[k - 2 + 1].openTime == candles[k - 2].openTime + step;
    }
  }

  function TotalMissing(gaps: seq<GapRecord>): int {
    if gaps == [] then 0 else TotalMissing(DropLast(gaps)) + Last(gaps).missing
  }

  predicate OnGrid(candles: seq<Candle>, step: int)
    requires step > 0
  {
    forall i | 0 <= i < |candles| :: Aligned(candles[i].openTime - candles[0].openTime, step)
  }

  /** On the interval's grid, present and missing candles together are every period of the span. */
  lemma {:induction false} PresentPlusMissingIsTotal(candles: seq<Candle>, step: int)
    requires step > 0 && candles != [] && OnGrid(candles, step)
    ensures |candles| + TotalMissing(Segmented(candles, step).gaps)
         == Periods(Last(candles).openTime - candles[0].openTime, step) + 1
  {
    hide Periods, Aligned, Extended;
    PeriodsOfTimes(0, step);
    if |candles| > 1 {
      var before, c := DropLast(candles), Last(candles);
      PresentPlusMissingIsTotal(before, step);
      assert Aligned(candles[|before| - 1].openTime - candles[0].openTime, step);
      PeriodsAdd(Last(before).openTime - candles[0].openTime, c.openTime - Last(before).openTime, step);
      ExtendedCounts(Segmented(before, step), Last(before), c, step);
    }
  }

  lemma ExtendedCounts(s: Segmentation, previous: Candle, c: Candle, step: int)
    requires step > 0 && |s.segments| > 0
    ensures 1 + TotalMissing(Extended(s, previous, c, step).gaps)
         == TotalMissing(s.gaps) + Periods(c.openTime - previous.openTime, step)
  {
  }

  /** A contiguous series is its own only segment, with no gap. */
  lemma {:induction false} ContiguousIsOneSegment(candles: seq<Candle>, step: int)
    requires step > 0 && candles != [] && Contiguous(candles, step)
    ensures Partition(candles, step) == Ok(Segmentation([candles], []))
  {
    ContiguousIncreasing(candles, step);
    AcceptedExactlyWhenIncreasing(candles);
    ContiguousSegmented(candles, step);
  }

  lemma {:induction false} ContiguousSegmented(candles: seq<Candle>, step: int)
    requires step > 0 && candles != [] && Contiguous(candles, step)
    ensures Segmented(candles, step) == Segmentation([candles], [])
  {
    if |candles| > 1 {
      var before, c := DropLast(candles), Last(candles);
      ContiguousSegmented(before, step);
      assert candles[|before| - 1 + 1].openTime == candles[|before| - 1].openTime + step;
      assert before + [c] == candles && DropLast([before]) + [before + [c]] == [candles];
    }
  }

  lemma {:induction false} ContiguousTimes(candles: seq<Candle>, step: int, i: nat)
    requires Contiguous(candles, step) && i < |candles|
    ensures candles[i].openTime == candles[0].openTime + Times(i, step)
  {
    TimesAdds(i - 1, 1, step);
    if i > 0 {
      ContiguousTimes(candles, step, i - 1);
      assert candles[i - 1 + 1].openTime == candles[i - 1].openTime + step;
    }
  }

  lemma ContiguousIncreasing(candles: seq<Candle>, step: int)
    requires step > 0 && Contiguous(candles, step)
    ensures Increasing(candles)
  {
    forall i, j | 0 <= i < j < |candles| ensures candles[i].openTime < candles[j].openTime {
      ContiguousTimes(candles, step, i);
      ContiguousTimes(candles, step, j);
      TimesMonotone(i, j, step);
    }
  }

  /** Every reported gap lies between two consecutive candles. */
  lemma {:induction false} GapsAreBetweenNeighbours(candles: seq<Candle>, step: int, g: GapRecord)
    requires step > 0 && g in Segmented(candles, step).gaps
    ensures exists i :: 0 <= i < |candles| - 1 && g == GapBetween(candles[i], candles[i + 1], step)
  {
    var n := |candles|;
    assert n > 1;
    var before := DropLast(candles);
    if g in Segmented(before, step).gaps {
      GapsAreBetweenNeighbours(before, step, g);
      var i :| 0 <= i < |before| - 1 && g == GapBetween(before[i], before[i + 1], step);
      assert g == GapBetween(candles[i], candles[i + 1], step);
    } else {
      assert g == GapBetween(candles[n - 2], candles[n - 2 + 1], step);
    }
  }
}
