// The candle and gap tables (data/storage.py): upserts keyed by series and open time, and one transaction
// that writes candles and their gap manifest together.

module CandleStore {
  import opened Common
  import opened GapDetection

  datatype Series = Series(symbol: string, interval: string)

  datatype Key = Key(series: Series, openTime: int)

  function KeyTime(k: Key): int { k.openTime }

  datatype StoredGap = StoredGap(gap: GapRecord, detectedAt: int)

  datatype Tables = Tables(candles: map<Key, Candle>, gaps: map<Key, StoredGap>)

  /** Rows are stored under the open time they carry. */
  predicate Keyed(t: Tables) {
    && (forall k | k in t.candles :: t.candles[k].openTime == k.openTime)
    && (forall k | k in t.gaps :: t.gaps[k].gap.expected == k.openTime)
  }

  function UpsertCandles(m: map<Key, Candle>, series: Series, candles: seq<Candle>): map<Key, Candle> {
    if candles == [] then m
    else UpsertCandles(m, series, DropLast(candles))[Key(series, Last(candles).openTime) := Last(candles)]
  }

  function UpsertGaps(m: map<Key, StoredGap>, series: Series, gaps: seq<GapRecord>,
                      detectedAt: int): map<Key, StoredGap> {
    if gaps == [] then m
    else
      var g := Last(gaps);
      UpsertGaps(m, series, DropLast(gaps), detectedAt)[Key(series, g.expected) := StoredGap(g, detectedAt)]
  }

  function StaleKeys(series: Series, stale: seq<int>): set<Key> {
    set t | t in stale :: Key(series, t)
  }

  /** Candles upserted, then stale gap rows deleted, then the new gap rows upserted. */
  function Stored(t: Tables, series: Series, candles: seq<Candle>, gaps: seq<GapRecord>, detectedAt: int,
                  stale: seq<int>): Tables {
    Tables(UpsertCandles(t.candles, series, candles),
           UpsertGaps(t.gaps - StaleKeys(series, stale), series, gaps, detectedAt))
  }

  predicate InRange(time: int, from: Option<int>, to: Option<int>) {
    (from.Some? ==> from.value <= time) && (to.Some? ==> time <= to.value)
  }

  /** The candles of a series in a range, by open time. */
  ghost predicate Lists(m: map<Key, Candle>, series: Series, from: Option<int>, to: Option<int>, candles: seq<Candle>) {
    && Increasing(candles)
    && (forall c | c in candles ::
          Key(series, c.openTime) in m && m[Key(series, c.openTime)] == c && InRange(c.openTime, from, to))
    && (forall k | k in m && k.series == series && InRange(k.openTime, from, to) :: m[k] in candles)
  }

  ghost predicate ListsGaps(m: map<Key, StoredGap>, series: Series, gaps: seq<GapRecord>) {
    && (forall i, j | 0 <= i < j < |gaps| :: gaps[i].expected < gaps[j].expected)
    && (forall g | g in gaps :: Key(series, g.expected) in m && m[Key(series, g.expected)].gap == g)
    && (forall k | k in m && k.series == series :: m[k].gap in gaps)
  }

  function CandlesAt(m: map<Key, Candle>, keys: seq<Key>): seq<Candle>
    requires forall k | k in keys :: k in m
  {
    seq(|keys|, i requires 0 <= i < |keys| => assert keys[i] in keys; m[keys[i]])
  }

  /** The candles of the keys in range, by time, are the listing. */
  lemma OrderedKeysList(m: map<Key, Candle>, series: Series, from: Option<int>, to: Option<int>, wanted: set<Key>,
                        keys: seq<Key>)
    requires forall k | k in m :: m[k].openTime == k.openTime
    requires forall k :: k in wanted <==> k in m && k.series == series && InRange(k.openTime, from, to)
    requires ListsInOrder(wanted, KeyTime, keys)
    ensures (forall k | k in keys :: k in m) && Lists(m, series, from, to, CandlesAt(m, keys))
  {
    var found := CandlesAt(m, keys);
    forall i, j | 0 <= i < j < |keys| ensures found[i].openTime < found[j].openTime {
      assert keys[i] in keys && keys[j] in keys && KeyTime(keys[i]) <= KeyTime(keys[j]);
    }
    forall c | c in found
      ensures Key(series, c.openTime) in m && m[Key(series, c.openTime)] == c && InRange(c.openTime, from, to)
    {
      var i :| 0 <= i < |keys| && found[i] == c;
      assert keys[i] in keys && keys[i] == Key(series, c.openTime);
    }
    forall k | k in m && k.series == series && InRange(k.openTime, from, to) ensures m[k] in found {
      assert k in keys;
      var i :| 0 <= i < |keys| && keys[i] == k;
      assert found[i] == m[k];
    }
  }

  class CandleTables {
    var candles: map<Key, Candle>
    var gaps: map<Key, StoredGap>
    var faultBeforeCommit: bool

    ghost function Contents(): Tables
      reads this
    {
      Tables(candles, gaps)
    }

    constructor ()
      ensures Contents() == Tables(map[], map[]) && !faultBeforeCommit
    {
      candles, gaps, faultBeforeCommit := map[], map[], false;
    }

    method Upsert(series: Series, added: seq<Candle>)
      modifies `candles
      ensures candles == UpsertCandles(old(candles), series, added)
    {
      ghost var before := candles;
      for i := 0 to |added|
        invariant candles == UpsertCandles(before, series, added[..i])
      {
        assert DropLast(added[..i + 1]) == added[..i];
        candles := candles[Key(series, added[i].openTime) := added[i]];
      }
      assert added[..|added|] == added;
    }

    method UpsertGapRows(series: Series, added: seq<GapRecord>, detectedAt: int)
      modifies `gaps
      ensures gaps == UpsertGaps(old(gaps), series, added, detectedAt)
    {
      ghost var before := gaps;
      for i := 0 to |added|
        invariant gaps == UpsertGaps(before, series, added[..i], detectedAt)
      {
        assert DropLast(added[..i + 1]) == added[..i];
        gaps := gaps[Key(series, added[i].expected) := StoredGap(added[i], detectedAt)];
      }
      assert added[..|added|] == added;
    }

    method DeleteGapRows(series: Series, stale: seq<int>)
      modifies `gaps
      ensures gaps == old(gaps) - StaleKeys(series, stale)
    {
      ghost var before := gaps;
      for i := 0 to |stale|
        invariant gaps == before - StaleKeys(series, stale[..i])
      {
        assert StaleKeys(series, stale[..i + 1]) == StaleKeys(series, stale[..i]) + {Key(series, stale[i])};
        gaps := gaps - {Key(series, stale[i])};
      }
      assert stale[..|stale|] == stale;
    }

    /** Everything is stored, or, if interrupted, nothing. */
    method StoreCandlesAndGaps(series: Series, added: seq<Candle>, newGaps: seq<GapRecord>, detectedAt: int,
                               stale: seq<int>)
      returns (ok: bool)
      modifies `candles, `gaps
      ensures ok <==> !faultBeforeCommit
      ensures Contents() == if ok then Stored(old(Contents()), series, added, newGaps, detectedAt, stale)
              else old(Contents())
    {
      var candlesBefore, gapsBefore := candles, gaps;
      Upsert(series, added);
      DeleteGapRows(series, stale);
      UpsertGapRows(series, newGaps, detectedAt);
      ok := !faultBeforeCommit;
      if !ok { candles, gaps := candlesBefore, gapsBefore; }
    }

    method GetCandles(series: Series, from: Option<int>, to: Option<int>) returns (found: seq<Candle>)
      requires Keyed(Contents())
      ensures Lists(candles, series, from, to, found)
    {
      var wanted := set k | k in candles && k.series == series && InRange(k.openTime, from, to);
      var keys := ListInOrder(wanted, KeyTime);
      OrderedKeysList(candles, series, from, to, wanted, keys);
      found := CandlesAt(candles, keys);
    }

    method LatestCloseTime(series: Series) returns (latest: Option<int>)
      ensures latest.None? <==> forall k | k in candles :: k.series != series
      ensures latest.Some? ==> (exists k :: k in candles && k.series == series && candles[k].closeTime == latest.value)
                               && forall k | k in candles && k.series == series :: candles[k].closeTime <= latest.value
    {
      latest := None;
      var rest := set k | k in candles && k.series == series;
      while rest != {}
        invariant forall k | k in rest :: k in candles && k.series == series
        invariant latest.None? ==> forall k | k in candles && k.series == series :: k in rest
        invariant latest.Some? ==> (
                    && (exists k :: k in candles && k.series == series && candles[k].closeTime == latest.value)
                    && forall k | k in candles && k.series == series && k !in rest ::
                         candles[k].closeTime <= latest.value)
        decreases |rest|
      {
        var k :| k in rest;
        if latest.None? || candles[k].closeTime > latest.value { latest := Some(candles[k].closeTime); }
        rest := rest - {k};
      }
    }
  }

  // ----- Listings ---------------------------------------------------------------------------------------------

  /** Two increasing lists of the same candles are the same list. */
  lemma {:induction false} IncreasingListIsUnique(a: seq<Candle>, b: seq<Candle>)
    requires Increasing(a) && Increasing(b) && forall c :: c in a <==> c in b
    ensures a == b
    decreases |a|
  {
    if b != [] { LastsAgree(b, a); }
    if a != [] {
      LastsAgree(a, b);
      forall c ensures c in DropLast(a) <==> c in DropLast(b) {
        InDropLast(a, c);
        InDropLast(b, c);
      }
      IncreasingListIsUnique(DropLast(a), DropLast(b));
      assert a == DropLast(a) + [Last(a)] && b == DropLast(b) + [Last(b)];
    }
  }

  lemma LastsAgree(a: seq<Candle>, b: seq<Candle>)
    requires Increasing(a) && Increasing(b) && a != [] && forall c :: c in a <==> c in b
    ensures b != [] && Last(a) == Last(b)
  {
    assert Last(a) in b;
    LastIsLargest(a);
    LastIsLargest(b);
    assert Last(b) in a;
    SameTimeSameCandle(a);
  }

  lemma LastIsLargest(a: seq<Candle>)
    requires Increasing(a) && a != []
    ensures forall c | c in a :: c.openTime <= Last(a).openTime
  {
  }

  lemma InDropLast(a: seq<Candle>, c: Candle)
    requires Increasing(a) && a != []
    ensures c in DropLast(a) <==> c in a && c != Last(a)
  {
  }

  lemma ListingIsUnique(m: map<Key, Candle>, series: Series, from: Option<int>, to: Option<int>, a: seq<Candle>,
                        b: seq<Candle>)
    requires Lists(m, series, from, to, a) && Lists(m, series, from, to, b)
    ensures a == b
  {
    IncreasingListIsUnique(a, b);
  }

  predicate GivenAt(candles: seq<Candle>, time: int) {
    exists c | c in candles :: c.openTime == time
  }

  lemma {:induction false} UpsertedAt(m: map<Key, Candle>, series: Series, candles: seq<Candle>, k: Key)
    ensures var u := UpsertCandles(m, series, candles);
            && (k in u <==> k in m || (k.series == series && GivenAt(candles, k.openTime)))
            && (k in u && !(k.series == series && GivenAt(candles, k.openTime)) ==> k in m && u[k] == m[k])
            && (k in u && k.series == series && GivenAt(candles, k.openTime) ==>
                  u[k] in candles && u[k].openTime == k.openTime)
  {
    if candles != [] {
      UpsertedAt(m, series, DropLast(candles), k);
      assert candles == DropLast(candles) + [Last(candles)];
    }
  }

  lemma UpsertKeepsKeyed(t: Tables, series: Series, candles: seq<Candle>)
    requires Keyed(t)
    ensures Keyed(t.(candles := UpsertCandles(t.candles, series, candles)))
  {
  }

  /** Upserting candles that all open later than what is listed appends them. */
  lemma UpsertAppends(m: map<Key, Candle>, series: Series, from: Option<int>, listed: seq<Candle>, added: seq<Candle>)
    requires Lists(m, series, from, None, listed) && Increasing(listed + added)
    requires forall c | c in added :: InRange(c.openTime, from, None)
    ensures Lists(UpsertCandles(m, series, added), series, from, None, listed + added)
  {
    var u, all := UpsertCandles(m, series, added), listed + added;
    forall c | c in all
      ensures Key(series, c.openTime) in u && u[Key(series, c.openTime)] == c && InRange(c.openTime, from, None)
    {
      var k := Key(series, c.openTime);
      UpsertedAt(m, series, added, k);
      SameTimeSameCandle(all);
      if c in added {
        assert u[k] in all;
      } else {
        forall d | d in added ensures d.openTime != c.openTime { assert d in all; }
      }
    }
    forall k | k in u && k.series == series && InRange(k.openTime, from, None) ensures u[k] in all {
      UpsertedAt(m, series, added, k);
    }
  }

  lemma SameTimeSameCandle(candles: seq<Candle>)
    requires Increasing(candles)
    ensures forall c, d | c in candles && d in candles && c.openTime == d.openTime :: c == d
  {
  }
}
