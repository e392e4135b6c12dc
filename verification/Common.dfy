/** Small vocabulary shared by the models. */
module Common {

  datatype Option<+T> = None | Some(value: T)

  function Max(a: int, b: int): int { if a < b then b else a }

  function Min(a: int, b: int): int { if b < a then b else a }

  ghost predicate Distinct<T>(s: seq<T>) {
    forall i, j :: 0 <= i < j < |s| ==> s[i] != s[j]
  }

  /** Pigeonhole: a sequence without repeats is no longer than the set it draws from. */
  lemma {:induction false} DistinctFits<T>(s: seq<T>, universe: set<T>)
    requires Distinct(s) && forall x :: x in s ==> x in universe
    ensures |s| <= |universe|
  {
    if s != [] {
      var last := s[|s| - 1];
      var front := s[..|s| - 1];
      DistinctFits(front, universe - {last});
    }
  }

  /** `n` rounds of `max` attempts, unrolled so that sums of rounds stay linear. */
  ghost function Rounds(max: nat, n: nat): nat {
    if n == 0 then 0 else max + Rounds(max, n - 1)
  }

  lemma {:induction false} RoundsIsProduct(max: nat, n: nat)
    ensures Rounds(max, n) == max * n
  {
    if n > 0 {
      RoundsIsProduct(max, n - 1);
      assert max * n == max + max * (n - 1);
    }
  }

  lemma {:induction false} RoundsAdd(max: nat, a: nat, b: nat)
    ensures Rounds(max, a + b) == Rounds(max, a) + Rounds(max, b)
  {
    if b > 0 {
      RoundsAdd(max, a, b - 1);
    }
  }

  lemma RoundsMonotone(max: nat, a: nat, b: nat)
    requires a <= b
    ensures Rounds(max, a) <= Rounds(max, b)
  {
    RoundsAdd(max, a, b - a);
  }

  /** Whole periods in a span: the span divided by the period, rounded down. */
  ghost function Periods(span: int, period: nat): nat
    requires period > 0
    decreases span
  {
    if span < period then 0 else 1 + Periods(span - period, period)
  }

  lemma FloorBounds(span: nat, period: nat)
    requires period > 0
    ensures period * (span / period) <= span < period * (span / period) + period
  {
    assert span == period * (span / period) + span % period;
  }

  lemma PeriodsIsFloor(span: nat, period: nat)
    requires period > 0
    ensures Periods(span, period) == span / period
  {
    FloorBounds(span, period);
    RoundsIsProduct(period, span / period);
    FloorIsUnique(span, period, span / period);
  }

  lemma {:induction false} FloorIsUnique(span: nat, period: nat, p: nat)
    requires period > 0 && Rounds(period, p) <= span < Rounds(period, p) + period
    ensures Periods(span, period) == p
    decreases span
  {
    if p > 0 {
      FloorIsUnique(span - period, period, p - 1);
    }
  }

  /** n divides m exactly q times when m lies between q and q + 1 rounds of n. */
  lemma FloorFromRounds(m: nat, n: nat, q: nat)
    requires n > 0 && Rounds(n, q) <= m < Rounds(n, q) + n
    ensures m / n == q
  {
    FloorIsUnique(m, n, q);
    PeriodsIsFloor(m, n);
  }
}
