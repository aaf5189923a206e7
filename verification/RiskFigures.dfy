// The figures the risk limits of the live cycle are judged by (persistence/risk_state_store.py as
// execution/live_runner.py keeps it): rolled at the start of a cycle, counted at its end.

module RiskFigures {
  import opened Common
  import opened OrderOutcome

  datatype RiskBook = RiskBook(dayKey: string, dailyStart: real, dailyPnl: real, trades: int, peak: real, cooldown: int,
                               apiErrors: int)

  function RolledRisk(saved: Option<RiskBook>, equity: real, day: string): RiskBook {
    var r := match saved
             case None => RiskBook(day, equity, 0.0, 0, equity, 0, 0)
             case Some(s) => if s.dayKey != day
                             then s.(dayKey := day, dailyStart := equity, dailyPnl := 0.0, trades := 0) else s;
    r.(cooldown := if r.cooldown > 1 then r.cooldown - 1 else 0, peak := Max(r.peak, equity))
  }

  function RiskAfter(r: RiskBook, x: Application, cooldownBars: int): RiskBook {
    var counted := r.(apiErrors := 0, trades := r.trades + if x.applied.executed > 0.0 || x.terminal then 1 else 0);
    match x.pnlDelta
    case None => counted
    case Some(pnl) =>
      counted.(dailyPnl := if r.dailyStart > 0.0 then r.dailyPnl + pnl / r.dailyStart else r.dailyPnl,
               cooldown := if pnl < 0.0 then cooldownBars else r.cooldown)
  }

  // ----- What the figures count -----------------------------------------------------------------------------

  /**
   * What a cycle that saved its figures contributed to them: what it booked, or that the exchange failed it. A loss is
   * followed by the configured pause.
   */
  datatype Cycle = Cycle(day: string, equity: real, booked: Option<Application>, failed: bool, pause: int)

  function CycleSaves(before: Option<RiskBook>, c: Cycle): RiskBook {
    var rolled := RolledRisk(before, c.equity, c.day);
    if c.failed then rolled.(apiErrors := rolled.apiErrors + 1)
    else if c.booked.Some? then RiskAfter(rolled, c.booked.value, c.pause) else rolled
  }

  function Saved(cycles: seq<Cycle>): Option<RiskBook> {
    if cycles == [] then None else Some(CycleSaves(Saved(DropLast(cycles)), Last(cycles)))
  }

  predicate Booked(c: Cycle) {
    !c.failed && c.booked.Some?
  }

  /** A cycle counts as a trade once its order has ended or executed anything. */
  predicate Traded(c: Cycle) {
    Booked(c) && (c.booked.value.applied.executed > 0.0 || c.booked.value.terminal)
  }

  function Pnl(c: Cycle): real {
    if Booked(c) && c.booked.value.pnlDelta.Some? then c.booked.value.pnlDelta.value else 0.0
  }

  /** The first cycle of the last one's day, among consecutive cycles of that day. */
  function DayStart(cycles: seq<Cycle>): (s: nat)
    requires cycles != []
    ensures s < |cycles|
  {
    var n := |cycles| - 1;
    if n > 0 && cycles[n - 1].day == cycles[n].day then DayStart(DropLast(cycles)) else n
  }

  lemma {:induction false} DayStartBegins(cycles: seq<Cycle>)
    requires cycles != []
    ensures var s := DayStart(cycles);
            && (forall i | s <= i < |cycles| :: cycles[i].day == Last(cycles).day)
            && (s > 0 ==> cycles[s - 1].day != Last(cycles).day)
  {
    if |cycles| > 1 && cycles[|cycles| - 2].day == Last(cycles).day { DayStartBegins(DropLast(cycles)); }
  }

  function PnlShare(pnl: real, dayStart: real): real {
    if dayStart > 0.0 then pnl / dayStart else 0.0
  }

  function DayResult(cycles: seq<Cycle>, from: nat, dayStart: real): real
    requires from <= |cycles|
    decreases |cycles|
  {
    if from == |cycles| then 0.0
    else DayResult(DropLast(cycles), from, dayStart) + PnlShare(Pnl(Last(cycles)), dayStart)
  }

  /** The pause after the loss of cycle `i`, the latest, as far as it has not run out. */
  ghost predicate PauseLeft(cycles: seq<Cycle>, i: nat, left: int) {
    && i < |cycles| && Pnl(cycles[i]) < 0.0 && (forall j | i < j < |cycles| :: Pnl(cycles[j]) >= 0.0)
    && left == Larger(0, cycles[i].pause - (|cycles| - 1 - i))
  }

  ghost predicate CoolsDown(cycles: seq<Cycle>, left: int) {
    if forall i | 0 <= i < |cycles| :: Pnl(cycles[i]) >= 0.0 then left == 0
    else exists i: nat :: PauseLeft(cycles, i, left)
  }

  function FailedSince(cycles: seq<Cycle>, s: nat): set<int> {
    set i | s <= i < |cycles| && cycles[i].failed
  }

  /** The failures from cycle `s` on, none of them answered, right after the last answer. */
  ghost predicate FailuresFrom(cycles: seq<Cycle>, s: nat, failures: int) {
    && s <= |cycles| && (s > 0 ==> Booked(cycles[s - 1])) && (forall i | s <= i < |cycles| :: !Booked(cycles[i]))
    && failures == |FailedSince(cycles, s)|
  }

  /** What one saved cycle does to every figure. */
  lemma FiguresMove(before: Option<RiskBook>, c: Cycle)
    ensures var r := CycleSaves(before, c);
            var newDay := before.None? || before.value.dayKey != c.day;
            && r.dayKey == c.day && r.dailyStart == (if newDay then c.equity else before.value.dailyStart)
            && r.trades == (if newDay then 0 else before.value.trades) + (if Traded(c) then 1 else 0)
            && r.dailyPnl == (if newDay then 0.0 else before.value.dailyPnl) + PnlShare(Pnl(c), r.dailyStart)
            && r.peak == (if before.None? then c.equity else Max(before.value.peak, c.equity))
            && r.cooldown == (if Pnl(c) < 0.0 then c.pause
                              else if before.None? then 0 else Larger(0, before.value.cooldown - 1))
            && r.apiErrors == (if Booked(c) then 0 else (if before.None? then 0 else before.value.apiErrors)
                                                        + if c.failed then 1 else 0)
  {
  }

  /** How many cycles from `s` on count as a trade. */
  function TradesFrom(cycles: seq<Cycle>, s: nat): nat {
    |set i | s <= i < |cycles| && Traded(cycles[i])|
  }

  lemma OneMoreTrade(cycles: seq<Cycle>, s: nat)
    requires s < |cycles|
    ensures TradesFrom(cycles, s) == TradesFrom(DropLast(cycles), s) + if Traded(Last(cycles)) then 1 else 0
    ensures s == |cycles| - 1 ==> TradesFrom(DropLast(cycles), s) == 0
  {
    hide Traded;
    var n, before := |cycles| - 1, DropLast(cycles);
    var whole := set i | s <= i < |cycles| && Traded(cycles[i]);
    var part := set i | s <= i < |before| && Traded(before[i]);
    assert whole == if Traded(cycles[n]) then part + {n} else part;
    if s == n { assert part == {}; }
  }

  /** The day's figures: the equity it started with, the trades of its cycles, and their results as shares of that. */
  lemma {:induction false} DayIsCounted(cycles: seq<Cycle>)
    requires cycles != []
    ensures var r, s := Saved(cycles).value, DayStart(cycles);
            && r.dayKey == Last(cycles).day && r.dailyStart == cycles[s].equity
            && r.trades == TradesFrom(cycles, s)
            && r.dailyPnl == DayResult(cycles, s, cycles[s].equity)
  {
    hide CycleSaves, Traded, Pnl, PnlShare, TradesFrom;
    var n, s, before := |cycles| - 1, DayStart(cycles), DropLast(cycles);
    FiguresMove(Saved(before), cycles[n]);
    OneMoreTrade(cycles, s);
    if n > 0 { DayIsCounted(before); }
    if s == n { assert DayResult(before, s, cycles[s].equity) == 0.0; }
  }

  /** Across days: the highest equity seen, the pause after the latest loss, and the failures since the last answer. */
  lemma {:induction false} FiguresOutliveDays(cycles: seq<Cycle>)
    requires cycles != [] && forall i | 0 <= i < |cycles| :: cycles[i].pause >= 0
    ensures var r := Saved(cycles).value;
            && (forall i | 0 <= i < |cycles| :: cycles[i].equity <= r.peak)
            && (exists i :: 0 <= i < |cycles| && cycles[i].equity == r.peak)
            && CoolsDown(cycles, r.cooldown)
            && exists s: nat :: FailuresFrom(cycles, s, r.apiErrors)
  {
    hide CycleSaves, Traded, Pnl, Booked;
    var n, before, c := |cycles| - 1, DropLast(cycles), Last(cycles);
    var saved, r := Saved(before), Saved(cycles).value;
    FiguresMove(saved, c);
    if n == 0 {
      NoFailuresBefore(before);
    } else {
      FiguresOutliveDays(before);
      var i :| 0 <= i < |before| && before[i].equity == saved.value.peak;
      assert cycles[i].equity == saved.value.peak;
    }
    assert cycles[n].equity == c.equity;
    PauseMoves(cycles, if n == 0 then 0 else saved.value.cooldown, r.cooldown);
    FailuresMove(cycles, if n == 0 then 0 else saved.value.apiErrors, r.apiErrors);
  }

  lemma NoFailuresBefore(cycles: seq<Cycle>)
    requires cycles == []
    ensures FailuresFrom(cycles, 0, 0)
  {
    assert FailedSince(cycles, 0) == {};
  }

  lemma PauseMoves(cycles: seq<Cycle>, was: int, left: int)
    requires cycles != [] && Last(cycles).pause >= 0 && CoolsDown(DropLast(cycles), was)
    requires left == if Pnl(Last(cycles)) < 0.0 then Last(cycles).pause else Larger(0, was - 1)
    ensures CoolsDown(cycles, left)
  {
    hide Pnl;
    var n, before := |cycles| - 1, DropLast(cycles);
    if Pnl(cycles[n]) < 0.0 {
      assert PauseLeft(cycles, n, left);
    } else if !forall i | 0 <= i < |before| :: Pnl(before[i]) >= 0.0 {
      var i: nat :| PauseLeft(before, i, was);
      assert PauseLeft(cycles, i, left);
    }
  }

  lemma FailuresMove(cycles: seq<Cycle>, was: int, failures: int)
    requires cycles != [] && exists s: nat :: FailuresFrom(DropLast(cycles), s, was)
    requires failures == if Booked(Last(cycles)) then 0 else was + if Last(cycles).failed then 1 else 0
    ensures exists s: nat :: FailuresFrom(cycles, s, failures)
  {
    var n, before := |cycles| - 1, DropLast(cycles);
    if Booked(cycles[n]) {
      assert FailedSince(cycles, |cycles|) == {};
      assert FailuresFrom(cycles, |cycles|, 0);
    } else {
      var s: nat :| FailuresFrom(before, s, was);
      assert FailedSince(cycles, s) == FailedSince(before, s) + if cycles[n].failed then {n} else {};
      assert FailuresFrom(cycles, s, failures);
    }
  }
}
