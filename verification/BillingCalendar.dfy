/** Month arithmetic with day clamping, and the billing periods it cuts a subscription into.
    All instants are in UTC. */
module BillingCalendar {
  import opened Common

  predicate IsLeap(year: int) {
    year % 4 == 0 && (year % 100 != 0 || year % 400 == 0)
  }

  function MonthLength(year: int, month: int): int {
    if month == 2 then (if IsLeap(year) then 29 else 28)
    else if month == 4 || month == 6 || month == 9 || month == 11 then 30
    else 31
  }

  /** A date and time of day; month index, day and time of day order it. */
  datatype CalendarTime = CalendarTime(year: int, month: int, day: int, micros: int) {
    /** Months since year 0. */
    function Index(): int {
      year * 12 + month - 1
    }

    /** A real date, as every datetime value is. */
    predicate OnCalendar() {
      1 <= day <= MonthLength(year, month) && 0 <= micros < 86_400_000_000
    }

    predicate Before(other: CalendarTime) {
      || Index() < other.Index()
      || (Index() == other.Index() && (day < other.day || (day == other.day && micros < other.micros)))
    }
  }

  type DateTime = d: CalendarTime | d.year >= 1 && 1 <= d.month <= 12 witness CalendarTime(1, 1, 1, 0)

  function AddMonths(dt: DateTime, months: nat): (r: DateTime)
    ensures r.Index() == dt.Index() + months
    ensures r.day == Min(dt.day, MonthLength(r.year, r.month)) && r.micros == dt.micros
    ensures dt.OnCalendar() ==> r.OnCalendar()
  {
    var monthIndex := dt.month - 1 + months;
    var year := dt.year + monthIndex / 12;
    var month := monthIndex % 12 + 1;
    CalendarTime(year, month, Min(dt.day, MonthLength(year, month)), dt.micros)
  }

  // ----- periods

  datatype BillingCycle = Trial | Monthly | Yearly

  function Step(cycle: BillingCycle): nat {
    if cycle == Yearly then 12 else 1
  }

  /** The k-th boundary the loop steps through, before clamping to the end of the subscription. */
  ghost function Boundary(anchor: DateTime, step: nat, k: nat): DateTime {
    if k == 0 then anchor else AddMonths(Boundary(anchor, step, k - 1), step)
  }

  function Earlier(a: DateTime, b: DateTime): DateTime {
    if b.Before(a) then b else a
  }

  ghost function Tile(starts: DateTime, ends: DateTime, step: nat, k: nat): (DateTime, DateTime) {
    (Boundary(starts, step, k), Earlier(Boundary(starts, step, k + 1), ends))
  }

  /** Tile k is the one that answers for `ref`: it starts inside the subscription and not after
      `ref` (the first tile answers for everything earlier), and `ref` lies before its end
      unless no further tile exists. */
  ghost predicate Owns(starts: DateTime, ends: DateTime, step: nat, ref: DateTime, k: nat) {
    && Boundary(starts, step, k).Before(ends)
    && (k == 0 || !ref.Before(Boundary(starts, step, k)))
    && (ref.Before(Boundary(starts, step, k + 1)) || !Boundary(starts, step, k + 1).Before(ends))
  }

  ghost predicate IsOwnPeriod(starts: DateTime, ends: DateTime, step: nat, ref: DateTime,
                              period: (DateTime, DateTime)) {
    exists k: nat :: Owns(starts, ends, step, ref, k) && period == Tile(starts, ends, step, k)
  }

  /** The period ends in the month that many months after its first, unless the subscription ends
      in or before that month and the period ends with it. */
  ghost predicate LastsMonths(period: (DateTime, DateTime), ends: DateTime, months: nat) {
    && period.0.Before(period.1)
    && (period.1 == ends || period.1.Index() == period.0.Index() + months)
    && period.1.Index() <= period.0.Index() + months
  }

  lemma TileLasts(starts: DateTime, ends: DateTime, step: nat, k: nat)
    requires step > 0 && Boundary(starts, step, k).Before(ends)
    ensures LastsMonths(Tile(starts, ends, step, k), ends, step)
  {
  }

  /** Clamping the end of a period does not change whether the loop stops there. */
  lemma ClampedStop(next: DateTime, ends: DateTime, ref: DateTime)
    ensures var end := Earlier(next, ends);
            ref.Before(end) || !end.Before(ends) <==> ref.Before(next) || !next.Before(ends)
    ensures next.Before(ends) ==> Earlier(next, ends) == next
  {
  }

  lemma ClampedTile(starts: DateTime, ends: DateTime, step: nat, ref: DateTime, k: nat)
    requires Owns(starts, ends, step, ref, k)
    ensures IsOwnPeriod(starts, ends, step, ref,
        (Boundary(starts, step, k), Earlier(Boundary(starts, step, k + 1), ends)))
  {
    assert Tile(starts, ends, step, k) == (Boundary(starts, step, k), Earlier(Boundary(starts, step, k + 1), ends));
  }

  /** billing_period_for_anchor; `ref` is the reference or the current time. */
  method BillingPeriodForAnchor(starts: DateTime, ends: DateTime, cycle: BillingCycle, ref: DateTime)
    returns (period: (DateTime, DateTime))
    ensures cycle == Trial || !starts.Before(ends) ==> period == (starts, ends)
    ensures cycle != Trial && starts.Before(ends) ==> IsOwnPeriod(starts, ends, Step(cycle), ref, period)
    ensures cycle == Monthly && starts.Before(ends) ==> LastsMonths(period, ends, 1)
    ensures cycle == Yearly && starts.Before(ends) ==> LastsMonths(period, ends, 12)
  {
    if cycle == Trial {
      return (starts, ends);
    }
    var step := Step(cycle);
    var periodStart: DateTime := starts;
    ghost var k: nat := 0;
    while periodStart.Before(ends)
      invariant periodStart == Boundary(starts, step, k)
      invariant starts.Before(ends) ==> periodStart.Before(ends)
      invariant k > 0 ==> starts.Before(ends) && !ref.Before(periodStart)
      decreases ends.Index() - periodStart.Index()
    {
      var periodEnd: DateTime := AddMonths(periodStart, step);
      ClampedStop(periodEnd, ends, ref);
      ghost var next := periodEnd;
      assert next == Boundary(starts, step, k + 1);
      if ends.Before(periodEnd) {
        periodEnd := ends;
      }
      assert periodEnd == Earlier(next, ends);
      if ref.Before(periodEnd) || !periodEnd.Before(ends) {
        ClampedTile(starts, ends, step, ref, k);
        TileLasts(starts, ends, step, k);
        return (periodStart, periodEnd);
      }
      periodStart := periodEnd;
      k := k + 1;
    }
    return (starts, ends);
  }

  // ----- boundaries in closed form

  /** Boundary k lies exactly k·step months after the anchor, at the same time of day. */
  lemma {:induction false} BoundaryIndex(anchor: DateTime, step: nat, k: nat)
    ensures Boundary(anchor, step, k).Index() == anchor.Index() + k * step
    ensures Boundary(anchor, step, k).micros == anchor.micros
  {
    if k > 0 {
      BoundaryIndex(anchor, step, k - 1);
      assert k * step == (k - 1) * step + step;
    }
  }

  /** The length of the month boundary k falls in. */
  ghost function LengthAt(anchor: DateTime, step: nat, k: nat): int {
    MonthLength(Boundary(anchor, step, k).year, Boundary(anchor, step, k).month)
  }

  /** Its day is the minimum of the anchor day and the lengths of all months stepped through. */
  lemma {:induction false} BoundaryDay(anchor: DateTime, step: nat, k: nat)
    ensures Boundary(anchor, step, k).day <= anchor.day
    ensures forall j :: 1 <= j <= k ==> Boundary(anchor, step, k).day <= LengthAt(anchor, step, j)
    ensures Boundary(anchor, step, k).day == anchor.day
            || exists j :: 1 <= j <= k && Boundary(anchor, step, k).day == LengthAt(anchor, step, j)
  {
    if k > 0 {
      BoundaryDay(anchor, step, k - 1);
      assert Boundary(anchor, step, k).day == Min(Boundary(anchor, step, k - 1).day, LengthAt(anchor, step, k));
    }
  }

  ghost predicate NeverDrifts(anchor: DateTime, step: nat) {
    forall k: nat :: Boundary(anchor, step, k) == AddMonths(anchor, k * step)
  }

  /** Month index, day and time of day determine a datetime. */
  lemma SameInstant(a: DateTime, b: DateTime)
    ensures a.Index() == b.Index() ==> a.year == b.year && a.month == b.month
    ensures !a.Before(b) && !b.Before(a) ==> a == b
  {
  }

  lemma BoundaryByJump(anchor: DateTime, step: nat, k: nat)
    ensures Boundary(anchor, step, k) == AddMonths(anchor, k * step)
            <==> Boundary(anchor, step, k).day == Min(anchor.day, LengthAt(anchor, step, k))
  {
    BoundaryIndex(anchor, step, k);
    SameInstant(Boundary(anchor, step, k), AddMonths(anchor, k * step));
  }

  /** Stepping equals one jump from the anchor for every k exactly when no month stepped
      through can be too short for the anchor day: up to day 28, or yearly from any day but
      29 February. */
  lemma NeverDriftsExactly(anchor: DateTime, cycle: BillingCycle)
    requires cycle != Trial && anchor.OnCalendar()
    ensures NeverDrifts(anchor, Step(cycle))
            <==> anchor.day <= 28 || (cycle == Yearly && !(anchor.month == 2 && anchor.day == 29))
  {
    if anchor.day <= 28 {
      forall k: nat ensures Boundary(anchor, Step(cycle), k) == AddMonths(anchor, k * Step(cycle)) {
        BoundaryDay(anchor, Step(cycle), k);
        BoundaryByJump(anchor, Step(cycle), k);
      }
    } else if cycle == Monthly {
      MonthlyDrifts(anchor);
    } else if anchor.month == 2 {
      LeapDayDrifts(anchor);
    } else {
      forall k: nat ensures Boundary(anchor, 12, k) == AddMonths(anchor, k * 12) {
        YearlyKeepsDay(anchor, k);
        BoundaryByJump(anchor, 12, k);
      }
    }
  }

  lemma BoundaryMonth(anchor: DateTime, step: nat, k: nat, year: int, month: int)
    requires 1 <= month <= 12 && anchor.Index() + k * step == year * 12 + month - 1
    ensures Boundary(anchor, step, k).year == year && Boundary(anchor, step, k).month == month
  {
    BoundaryIndex(anchor, step, k);
  }

  /** Outside February a month has the same length every year. */
  lemma {:induction false} YearlyKeepsDay(anchor: DateTime, k: nat)
    requires anchor.month != 2 && anchor.OnCalendar()
    ensures Boundary(anchor, 12, k).day == anchor.day <= LengthAt(anchor, 12, k)
  {
    BoundaryMonth(anchor, 12, k, anchor.year + k, anchor.month);
    if k > 0 {
      YearlyKeepsDay(anchor, k - 1);
    }
  }

  /** After a step through a month shorter than the anchor day, a later long month shows it. */
  lemma DriftShows(anchor: DateTime, step: nat, short: nat, long: nat)
    requires 1 <= short <= long
    requires LengthAt(anchor, step, short) < anchor.day && LengthAt(anchor, step, short) < LengthAt(anchor, step, long)
    ensures !NeverDrifts(anchor, step)
  {
    BoundaryDay(anchor, step, long);
    BoundaryByJump(anchor, step, long);
  }

  lemma MonthlyDrifts(anchor: DateTime)
    requires anchor.day >= 29
    ensures !NeverDrifts(anchor, 1)
  {
    var year := if anchor.month == 1 then anchor.year else anchor.year + 1;
    var common := if IsLeap(year) then year + 1 else year;
    var february := common * 12 + 1 - anchor.Index();
    BoundaryMonth(anchor, 1, february, common, 2);
    BoundaryMonth(anchor, 1, february + 1, common, 3);
    DriftShows(anchor, 1, february, february + 1);
  }

  lemma NextLeap(year: int) returns (years: nat)
    requires IsLeap(year)
    ensures (years == 4 || years == 8) && IsLeap(year + years) && !IsLeap(year + 1)
  {
    years := if IsLeap(year + 4) then 4 else 8;
  }

  lemma LeapDayDrifts(anchor: DateTime)
    requires anchor.month == 2 && anchor.day == 29 && IsLeap(anchor.year)
    ensures !NeverDrifts(anchor, 12)
  {
    var years := NextLeap(anchor.year);
    BoundaryMonth(anchor, 12, 1, anchor.year + 1, 2);
    BoundaryMonth(anchor, 12, years, anchor.year + years, 2);
    DriftShows(anchor, 12, 1, years);
  }

  // ----- the periods tile the subscription

  lemma {:induction false} BoundariesIncrease(anchor: DateTime, step: nat, j: nat, k: nat)
    requires step > 0 && j < k
    ensures Boundary(anchor, step, j).Index() < Boundary(anchor, step, k).Index()
  {
    if j < k - 1 {
      BoundariesIncrease(anchor, step, j, k - 1);
    }
  }

  lemma BoundariesOrdered(anchor: DateTime, step: nat, j: nat, k: nat)
    requires step > 0 && j <= k
    ensures !Boundary(anchor, step, k).Before(Boundary(anchor, step, j))
  {
    if j < k {
      BoundariesIncrease(anchor, step, j, k);
    }
  }

  lemma BeforeIsLinear(a: DateTime, b: DateTime, c: DateTime)
    ensures a.Before(b) && !c.Before(b) ==> a.Before(c)
    ensures !b.Before(a) && b.Before(c) ==> a.Before(c)
  {
  }

  /** Exactly one tile answers for each reference. */
  lemma OwnerIsUnique(starts: DateTime, ends: DateTime, step: nat, ref: DateTime, j: nat, k: nat)
    requires step > 0 && Owns(starts, ends, step, ref, j) && Owns(starts, ends, step, ref, k)
    ensures j == k
  {
    if j < k {
      OwnersAreOrdered(starts, ends, step, ref, k, ref, j);
    } else if k < j {
      OwnersAreOrdered(starts, ends, step, ref, j, ref, k);
    }
  }

  /** Earlier references belong to earlier tiles. */
  lemma OwnersAreOrdered(starts: DateTime, ends: DateTime, step: nat, ref: DateTime, j: nat, later: DateTime, k: nat)
    requires step > 0 && Owns(starts, ends, step, ref, j) && Owns(starts, ends, step, later, k)
    requires !later.Before(ref)
    ensures j <= k
  {
    if k < j {
      BoundariesOrdered(starts, step, k + 1, j);
      BeforeIsLinear(later, Boundary(starts, step, k + 1), Boundary(starts, step, j));
      BeforeIsLinear(Boundary(starts, step, k + 1), Boundary(starts, step, j), ends);
      BeforeIsLinear(ref, later, Boundary(starts, step, j));
    }
  }

  lemma {:induction false} OwnerExists(starts: DateTime, ends: DateTime, step: nat, ref: DateTime, first: nat)
    returns (k: nat)
    requires step > 0 && Boundary(starts, step, first).Before(ends)
    requires first == 0 || !ref.Before(Boundary(starts, step, first))
    ensures Owns(starts, ends, step, ref, k)
    decreases ends.Index() - Boundary(starts, step, first).Index()
  {
    if ref.Before(Boundary(starts, step, first + 1)) || !Boundary(starts, step, first + 1).Before(ends) {
      k := first;
    } else {
      k := OwnerExists(starts, ends, step, ref, first + 1);
    }
  }

  /** The tiles abut: the first begins at `starts`, each ends where the next begins, and the
      one with no successor ends at `ends`. */
  lemma TilesAbut(starts: DateTime, ends: DateTime, step: nat, k: nat)
    requires step > 0 && Boundary(starts, step, k).Before(ends)
    ensures Tile(starts, ends, step, 0).0 == starts
    ensures Tile(starts, ends, step, k).0.Before(Tile(starts, ends, step, k).1)
    ensures Tile(starts, ends, step, k).1
            == if Boundary(starts, step, k + 1).Before(ends) then Tile(starts, ends, step, k + 1).0 else ends
  {
    SameInstant(Boundary(starts, step, k + 1), ends);
  }

  ghost predicate InTile(starts: DateTime, ends: DateTime, step: nat, t: DateTime, k: nat) {
    && Boundary(starts, step, k).Before(ends)
    && !t.Before(Tile(starts, ends, step, k).0) && t.Before(Tile(starts, ends, step, k).1)
  }

  /** Every instant of [starts, ends) lies in exactly one tile, the one returned for it. */
  lemma TilesPartition(starts: DateTime, ends: DateTime, step: nat, t: DateTime) returns (k: nat)
    requires step > 0 && !t.Before(starts) && t.Before(ends)
    ensures InTile(starts, ends, step, t, k) && Owns(starts, ends, step, t, k)
    ensures forall j: nat :: InTile(starts, ends, step, t, j) || Owns(starts, ends, step, t, j) ==> j == k
  {
    BeforeIsLinear(starts, t, ends);
    k := OwnerExists(starts, ends, step, t, 0);
    OwnsMeansInTile(starts, ends, step, t, k);
    forall j: nat | InTile(starts, ends, step, t, j) || Owns(starts, ends, step, t, j) ensures j == k {
      OwnsMeansInTile(starts, ends, step, t, j);
      OwnerIsUnique(starts, ends, step, t, j, k);
    }
  }

  lemma OwnsMeansInTile(starts: DateTime, ends: DateTime, step: nat, t: DateTime, k: nat)
    requires step > 0 && !t.Before(starts) && t.Before(ends)
    ensures Owns(starts, ends, step, t, k) <==> InTile(starts, ends, step, t, k)
  {
    ClampedStop(Boundary(starts, step, k + 1), ends, t);
    BeforeIsLinear(t, ends, Boundary(starts, step, k + 1));
  }

  /** A reference before the subscription gets the first period, one after it the last. */
  lemma OutsideReferences(starts: DateTime, ends: DateTime, step: nat, ref: DateTime, k: nat)
    requires step > 0 && starts.Before(ends) && Owns(starts, ends, step, ref, k)
    ensures ref.Before(starts) ==> k == 0
    ensures !ref.Before(ends) ==> Tile(starts, ends, step, k).1 == ends
  {
    BoundariesOrdered(starts, step, 0, k);
    SameInstant(ends, Boundary(starts, step, k + 1));
  }

  /** Two references get the same period, or disjoint periods in the order of the references:
      the uniqueness key (…, billing_period_start) separates exactly the periods. */
  lemma PeriodsEqualOrDisjoint(starts: DateTime, ends: DateTime, step: nat, ref: DateTime, j: nat, later: DateTime,
                               k: nat)
    requires step > 0 && Owns(starts, ends, step, ref, j) && Owns(starts, ends, step, later, k)
    requires !later.Before(ref)
    ensures j == k || !Tile(starts, ends, step, k).0.Before(Tile(starts, ends, step, j).1)
    ensures j == k <==> Tile(starts, ends, step, j).0 == Tile(starts, ends, step, k).0
  {
    OwnersAreOrdered(starts, ends, step, ref, j, later, k);
    if j < k {
      BoundariesIncrease(starts, step, j, k);
      BoundariesOrdered(starts, step, j + 1, k);
      EarlierEndStaysBefore(Boundary(starts, step, k), Boundary(starts, step, j + 1), ends);
    }
  }

  lemma EarlierEndStaysBefore(start: DateTime, end: DateTime, ends: DateTime)
    requires !start.Before(end)
    ensures !start.Before(Earlier(end, ends))
  {
  }

  // ----- cycle month keys

  function Digit(n: nat): char
    requires n < 10
  {
    '0' + n as char
  }

  function Decimal(n: nat): (s: string) {
    if n < 10 then [Digit(n)] else Decimal(n / 10) + [Digit(n % 10)]
  }

  function TwoDigits(n: nat): string
    requires n < 100
  {
    [Digit(n / 10), Digit(n % 10)]
  }

  function CycleMonthKey(periodStart: DateTime): string {
    Decimal(periodStart.year) + ['-'] + TwoDigits(periodStart.month)
  }

  lemma {:induction false} DecimalInjective(a: nat, b: nat)
    requires Decimal(a) == Decimal(b)
    ensures a == b
    decreases a
  {
    assert Decimal(a)[|Decimal(a)| - 1] == Digit(a % 10);
    assert Decimal(b)[|Decimal(b)| - 1] == Digit(b % 10);
    if a >= 10 && b >= 10 {
      assert Decimal(a / 10) == Decimal(a)[..|Decimal(a)| - 1];
      assert Decimal(b / 10) == Decimal(b)[..|Decimal(b)| - 1];
      DecimalInjective(a / 10, b / 10);
    } else if a >= 10 {
      DecimalNonEmpty(a / 10);
    } else if b >= 10 {
      DecimalNonEmpty(b / 10);
    }
  }

  lemma DecimalNonEmpty(n: nat)
    ensures |Decimal(n)| >= 1
  {
  }

  /** The number a string of decimal digits stands for. */
  function Value(s: string): int {
    if s == "" then 0 else Value(s[..|s| - 1]) * 10 + (s[|s| - 1] as int - '0' as int)
  }

  lemma {:induction false} DecimalReadsBack(n: nat)
    ensures Value(Decimal(n)) == n
  {
    if n >= 10 {
      DecimalReadsBack(n / 10);
      assert Decimal(n)[..|Decimal(n)| - 1] == Decimal(n / 10);
    }
  }

  lemma TwoDigitsReadBack(n: nat)
    requires n < 100
    ensures Value(TwoDigits(n)) == n
  {
    var tens := [Digit(n / 10)];
    assert tens[..0] == "" && Value(tens) == n / 10;
    assert TwoDigits(n)[..1] == tens;
  }

  /** The key is the year, a hyphen and the two digits of the month. */
  lemma KeyReadsBack(start: DateTime)
    ensures var key := CycleMonthKey(start);
            && |key| >= 4 && key[|key| - 3] == '-'
            && Value(key[..|key| - 3]) == start.year && Value(key[|key| - 2..]) == start.month
  {
    var key := CycleMonthKey(start);
    DecimalNonEmpty(start.year);
    DecimalReadsBack(start.year);
    assert key[..|key| - 3] == Decimal(start.year);
    assert key[|key| - 2..] == TwoDigits(start.month);
    TwoDigitsReadBack(start.month);
  }

  lemma KeyDeterminesMonth(a: DateTime, b: DateTime)
    requires CycleMonthKey(a) == CycleMonthKey(b)
    ensures a.Index() == b.Index()
  {
    var u, v := CycleMonthKey(a), CycleMonthKey(b);
    assert u[..|u| - 3] == Decimal(a.year) && v[..|v| - 3] == Decimal(b.year);
    assert u[|u| - 2..] == TwoDigits(a.month) && v[|v| - 2..] == TwoDigits(b.month);
    DecimalInjective(a.year, b.year);
    assert TwoDigits(a.month)[0] == TwoDigits(b.month)[0] && TwoDigits(a.month)[1] == TwoDigits(b.month)[1];
  }

  /** Distinct periods of one anchor never share a cycle month key. */
  lemma PeriodsHaveDistinctKeys(anchor: DateTime, step: nat, j: nat, k: nat)
    requires step > 0 && j < k
    ensures CycleMonthKey(Boundary(anchor, step, j)) != CycleMonthKey(Boundary(anchor, step, k))
  {
    BoundariesIncrease(anchor, step, j, k);
    if CycleMonthKey(Boundary(anchor, step, j)) == CycleMonthKey(Boundary(anchor, step, k)) {
      KeyDeterminesMonth(Boundary(anchor, step, j), Boundary(anchor, step, k));
    }
  }
}
