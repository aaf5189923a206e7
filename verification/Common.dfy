// Value types shared by every component of the model.

module Common {

  const MINUTE_MS := 60 * 1000
  const HOUR_MS := 60 * MINUTE_MS
  const MS_PER_DAY := 24 * HOUR_MS

  datatype Option<+T> = None | Some(value: T) {
    function GetOr(default: T): T {
      match this
      case Some(v) => v
      case None => default
    }
  }

  datatype Result<+T, +E> = Ok(value: T) | Err(error: E)

  /** One completed candle. Times are milliseconds, prices are exact reals. */
  datatype Candle = Candle(symbol: string, openTime: int, closeTime: int,
                           open: real, high: real, low: real, close: real, volume: real)

  datatype PositionSide = Flat | Long

  datatype SignalType = Buy | Exit | Hold

  function Smaller(a: int, b: int): int { if a <= b then a else b }

  function Larger(a: int, b: int): int { if a >= b then a else b }

  function Max(x: real, y: real): real { if x >= y then x else y }

  function Min(x: real, y: real): real { if x <= y then x else y }

  function Abs(x: real): real { if x >= 0.0 then x else -x }

  /** A quantity valued at a per-unit amount. */
  function Amount(quantity: real, perUnit: real): real {
    quantity * perUnit
  }

  lemma AmountMonotone(quantity: real, small: real, large: real)
    requires quantity > 0.0 && small <= large
    ensures Amount(quantity, small) <= Amount(quantity, large)
    ensures small < large ==> Amount(quantity, small) < Amount(quantity, large)
    ensures small > 0.0 ==> Amount(quantity, small) > 0.0
  {
  }

  lemma AmountGrows(small: real, large: real, perUnit: real)
    requires small <= large && perUnit > 0.0
    ensures Amount(small, perUnit) <= Amount(large, perUnit)
    ensures small < large ==> Amount(small, perUnit) < Amount(large, perUnit)
  {
  }

  function Last<T>(s: seq<T>): T
    requires |s| > 0
  {
    s[|s| - 1]
  }

  function DropLast<T>(s: seq<T>): seq<T>
    requires |s| > 0
  {
    s[..|s| - 1]
  }

  function TotalVolume(candles: seq<Candle>): real {
    if candles == [] then 0.0 else TotalVolume(DropLast(candles)) + Last(candles).volume
  }

  /** Every candle's volume is counted once. */
  lemma {:induction false} VolumesAdd(a: seq<Candle>, b: seq<Candle>)
    ensures TotalVolume(a + b) == TotalVolume(a) + TotalVolume(b)
    ensures forall c: Candle :: TotalVolume([c]) == c.volume
    decreases |b|
  {
    forall c: Candle ensures TotalVolume([c]) == c.volume {
      assert DropLast([c]) == [];
    }
    if b == [] {
      assert a + b == a;
    } else {
      VolumesAdd(a, DropLast(b));
      assert DropLast(a + b) == a + DropLast(b);
    }
  }

  /** A non-empty finite set has an earliest member. */
  lemma {:induction false} EarliestExists<T>(items: set<T>, at: T -> int)
    requires items != {}
    ensures exists x :: x in items && forall y | y in items :: at(x) <= at(y)
    decreases |items|
  {
    var some :| some in items;
    var rest := items - {some};
    if rest != {} {
      EarliestExists(rest, at);
      var best :| best in rest && forall y | y in rest :: at(best) <= at(y);
      var winner := if at(some) <= at(best) then some else best;
      forall y | y in items ensures at(winner) <= at(y) {
        if y != some { assert y in rest; }
      }
    } else {
      assert items == {some};
    }
  }

  /** Each item once, in the order of `at`. */
  ghost predicate ListsInOrder<T(!new)>(items: set<T>, at: T -> int, listed: seq<T>) {
    && (forall x :: x in listed <==> x in items)
    && (forall i, j | 0 <= i < j < |listed| :: listed[i] != listed[j] && at(listed[i]) <= at(listed[j]))
  }

  /** A listing in progress: what is listed comes no later than what is left. */
  ghost predicate ListedSoFar<T(!new)>(items: set<T>, at: T -> int, listed: seq<T>, rest: set<T>) {
    && rest <= items && ListsInOrder(items - rest, at, listed)
    && (forall x, y | x in listed && y in rest :: at(x) <= at(y))
  }

  lemma ListNext<T(!new)>(items: set<T>, at: T -> int, listed: seq<T>, rest: set<T>, next: T)
    requires ListedSoFar(items, at, listed, rest)
    requires next in rest && forall other | other in rest :: at(next) <= at(other)
    ensures ListedSoFar(items, at, listed + [next], rest - {next})
  {
    var longer := listed + [next];
    assert next !in listed;
    assert forall i | 0 <= i < |listed| :: listed[i] in listed;
  }

  method ListInOrder<T(==, !new)>(items: set<T>, at: T -> int) returns (listed: seq<T>)
    ensures ListsInOrder(items, at, listed)
  {
    listed := [];
    var rest := items;
    while rest != {}
      invariant ListedSoFar(items, at, listed, rest)
      decreases |rest|
    {
      EarliestExists(rest, at);
      var next :| next in rest && forall other | other in rest :: at(next) <= at(other);
      ListNext(items, at, listed, rest, next);
      listed, rest := listed + [next], rest - {next};
    }
  }
}
