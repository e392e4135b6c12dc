/** The fixed-window limiter: one counter per key, incremented by every request and given its
    expiry by the first. The increment and the expiry are one atomic step. */
module RateLimit {
  import opened Common

  type Key = string
  type Instant = int

  /** A Redis counter; it is gone once the clock reaches its expiry, if it was given one. */
  datatype Counter = Counter(count: nat, expiresAt: Option<Instant>)

  type Counters = map<Key, Counter>

  datatype Request = Request(key: Key, limit: nat, window: nat, now: Instant)

  predicate Live(counters: Counters, key: Key, now: Instant) {
    key in counters && (counters[key].expiresAt.None? || now < counters[key].expiresAt.value)
  }

  ghost function Hit(counters: Counters, r: Request): Counters {
    if Live(counters, r.key, r.now)
    then counters[r.key := Counter(counters[r.key].count + 1, counters[r.key].expiresAt)]
    else counters[r.key := Counter(1, Some(r.now + r.window))]
  }

  ghost predicate Admitted(counters: Counters, r: Request) {
    Hit(counters, r)[r.key].count <= r.limit
  }

  class Limiter {
    var counters: Counters

    constructor ()
      ensures counters == map[] && Started()
    {
      counters := map[];
    }

    /** A stored counter has been incremented at least once. */
    ghost predicate Started()
      reads this
    {
      forall key :: key in counters ==> counters[key].count >= 1
    }

    method Incr(key: Key, now: Instant) returns (count: nat)
      modifies this
      ensures Live(old(counters), key, now) ==>
                && count == old(counters)[key].count + 1
                && counters == old(counters)[key := Counter(count, old(counters)[key].expiresAt)]
      ensures !Live(old(counters), key, now) ==> count == 1 && counters == old(counters)[key := Counter(1, None)]
      ensures count >= 1
    {
      if Live(counters, key, now) {
        count := counters[key].count + 1;
        counters := counters[key := counters[key].(count := count)];
      } else {
        count := 1;
        counters := counters[key := Counter(1, None)];
      }
    }

    /** enforce_rate_limit; false stands for the 429 response. */
    method Enforce(r: Request) returns (admitted: bool)
      requires Started()
      modifies this
      ensures Started()
      ensures counters == Hit(old(counters), r)
      ensures admitted == Admitted(old(counters), r)
    {
      var count := Incr(r.key, r.now);
      if count == 1 {
        counters := counters[r.key := Counter(1, Some(r.now + r.window))];
      }
      admitted := count <= r.limit;
    }
  }

  // ----- traces

  ghost function After(counters: Counters, trace: seq<Request>): Counters
    decreases |trace|
  {
    if trace == [] then counters else After(Hit(counters, trace[0]), trace[1..])
  }

  /** How many requests for `key` the trace lets through. */
  ghost function Admissions(counters: Counters, trace: seq<Request>, key: Key): nat
    decreases |trace|
  {
    if trace == [] then 0
    else
      var first := if trace[0].key == key && Admitted(counters, trace[0]) then 1 else 0;
      first + Admissions(Hit(counters, trace[0]), trace[1..], key)
  }

  ghost function Requests(trace: seq<Request>, key: Key): nat {
    if trace == [] then 0 else (if trace[0].key == key then 1 else 0) + Requests(trace[1..], key)
  }

  /** The clock is monotone, and the requests for `key` all carry its bucket's limit and window. */
  ghost predicate Orderly(trace: seq<Request>, key: Key, limit: nat, window: nat, first: Instant, last: Instant)
    decreases |trace|
  {
    first <= last &&
    (trace != [] ==>
      && first <= trace[0].now
      && (trace[0].key == key ==> trace[0].limit == limit && trace[0].window == window)
      && Orderly(trace[1..], key, limit, window, trace[0].now, last))
  }

  /** Within one lifetime of the key exactly the first `limit` requests pass. */
  lemma {:induction false} LifetimeAdmitsLimit(counters: Counters, trace: seq<Request>, key: Key, limit: nat,
                                               window: nat, first: Instant, last: Instant)
    requires Orderly(trace, key, limit, window, first, last)
    requires Live(counters, key, first) && Live(counters, key, last)
    ensures Admissions(counters, trace, key) == Min(Requests(trace, key), Max(0, limit - counters[key].count))
    decreases |trace|
  {
    if trace != [] {
      OrderlyEnds(trace, key, limit, window, first, last);
      LifetimeAdmitsLimit(Hit(counters, trace[0]), trace[1..], key, limit, window, trace[0].now, last);
    }
  }

  /** The window is fixed: requests during a lifetime, admitted or not, do not prolong it. At its
      end the counter is gone and the next request passes. */
  lemma {:induction false} LifetimeIsFixed(counters: Counters, trace: seq<Request>, key: Key, limit: nat, window: nat,
                                           first: Instant, last: Instant, expiry: Instant)
    requires Orderly(trace, key, limit, window, first, last)
    requires key in counters && counters[key].expiresAt == Some(expiry) && last < expiry
    ensures key in After(counters, trace) && After(counters, trace)[key].expiresAt == Some(expiry)
    ensures !Live(After(counters, trace), key, expiry)
    ensures limit >= 1 ==> Admitted(After(counters, trace), Request(key, limit, window, expiry))
    decreases |trace|
  {
    if trace != [] {
      OrderlyEnds(trace, key, limit, window, first, last);
      LifetimeIsFixed(Hit(counters, trace[0]), trace[1..], key, limit, window, trace[0].now, last, expiry);
    }
  }

  /** A lifetime begins with the first request after the last one ended and lasts one window; the
      counters of other keys are not touched. */
  lemma LifetimeBegins(counters: Counters, r: Request)
    requires !Live(counters, r.key, r.now)
    ensures var after := Hit(counters, r);
            && after[r.key] == Counter(1, Some(r.now + r.window))
            && forall key :: key != r.key ==>
                 (key in after <==> key in counters) && (key in counters ==> after[key] == counters[key])
  {
  }

  lemma {:induction false} OrderlyEnds(trace: seq<Request>, key: Key, limit: nat, window: nat, first: Instant,
                                       last: Instant)
    requires Orderly(trace, key, limit, window, first, last)
    ensures trace != [] ==> trace[0].now <= last
    decreases |trace|
  {
    if trace != [] {
      OrderlyEnds(trace[1..], key, limit, window, trace[0].now, last);
    }
  }

  /** How many lifetimes can begin in [first, last] when they are at least one window apart. */
  ghost function Starts(first: Instant, last: Instant, window: nat): nat
    requires window > 0
    decreases last - first
  {
    if first > last then 0 else 1 + Starts(first + window, last, window)
  }

  lemma {:induction false} LaterStartsAreFewer(a: Instant, b: Instant, last: Instant, window: nat)
    requires window > 0 && a <= b
    ensures Starts(b, last, window) <= Starts(a, last, window)
    decreases last - a
  {
    if b <= last {
      LaterStartsAreFewer(a + window, b + window, last, window);
    }
  }

  /** What may still pass from `clock` to `last`: the rest of a running lifetime, and a full
      limit for every lifetime that can begin afterwards. */
  ghost function Allowance(counters: Counters, key: Key, limit: nat, window: nat, clock: Instant, last: Instant): nat
    requires window > 0
  {
    if Live(counters, key, clock)
    then Max(0, limit - counters[key].count)
         + (if counters[key].expiresAt.None? then 0
            else Rounds(limit, Starts(counters[key].expiresAt.value, last, window)))
    else Rounds(limit, Starts(clock, last, window))
  }

  lemma TimePasses(counters: Counters, key: Key, limit: nat, window: nat, clock: Instant, later: Instant, last: Instant)
    requires window > 0 && clock <= later
    ensures Allowance(counters, key, limit, window, later, last) <= Allowance(counters, key, limit, window, clock, last)
  {
    if !Live(counters, key, clock) || counters[key].expiresAt.Some? {
      var a := if Live(counters, key, clock) then counters[key].expiresAt.value else clock;
      var b := if Live(counters, key, later) then counters[key].expiresAt.value else later;
      LaterStartsAreFewer(a, b, last, window);
      RoundsMonotone(limit, Starts(b, last, window), Starts(a, last, window));
    }
  }

  lemma HitPays(counters: Counters, r: Request, window: nat, last: Instant)
    requires window > 0 && r.window == window && r.now <= last
    ensures (if Admitted(counters, r) then 1 else 0) + Allowance(Hit(counters, r), r.key, r.limit, window, r.now, last)
            <= Allowance(counters, r.key, r.limit, window, r.now, last)
  {
  }

  lemma {:induction false} TracePays(counters: Counters, trace: seq<Request>, key: Key, limit: nat, window: nat,
                                     clock: Instant, last: Instant)
    requires window > 0 && Orderly(trace, key, limit, window, clock, last)
    ensures Admissions(counters, trace, key) <= Allowance(counters, key, limit, window, clock, last)
    decreases |trace|
  {
    if trace != [] {
      var r := trace[0];
      OrderlyEnds(trace, key, limit, window, clock, last);
      TimePasses(counters, key, limit, window, clock, r.now, last);
      if r.key == key {
        HitPays(counters, r, window, last);
      }
      TracePays(Hit(counters, r), trace[1..], key, limit, window, r.now, last);
    }
  }

  /** Windows needed to cover a span of time: the span divided by the window, rounded up. */
  ghost function Windows(span: int, window: nat): nat
    requires window > 0
    decreases span
  {
    if span <= 0 then 0 else 1 + Windows(span - window, window)
  }

  lemma {:induction false} StartsInSpan(first: Instant, span: int, window: nat)
    requires window > 0
    ensures Starts(first + 1, first + span, window) == Windows(span, window)
    decreases span
  {
    if span > 0 {
      StartsInSpan(first + window, span - window, window);
    }
  }

  /** From any state of the counters, any closed interval of length `span` lets through at most
      limit × (1 + ⌈span / window⌉) requests of a key. */
  lemma AdmissionsBounded(counters: Counters, trace: seq<Request>, key: Key, limit: nat, window: nat, first: Instant,
                          span: nat)
    requires window > 0 && Orderly(trace, key, limit, window, first, first + span)
    ensures Admissions(counters, trace, key) <= limit * (1 + Windows(span, window))
  {
    var last := first + span;
    TracePays(counters, trace, key, limit, window, first, last);
    StartsInSpan(first, span, window);
    var n := Windows(span, window);
    if Live(counters, key, first) {
      if counters[key].expiresAt.Some? {
        LaterStartsAreFewer(first + 1, counters[key].expiresAt.value, last, window);
        RoundsMonotone(limit, Starts(counters[key].expiresAt.value, last, window), n);
      }
    } else {
      LaterStartsAreFewer(first + 1, first + window, last, window);
      RoundsMonotone(limit, Starts(first, last, window), 1 + n);
    }
    RoundsIsProduct(limit, 1 + n);
  }

  /** In particular at most twice the limit in any interval as long as the window. */
  lemma AdmissionsPerWindow(counters: Counters, trace: seq<Request>, key: Key, limit: nat, window: nat, first: Instant)
    requires window > 0 && Orderly(trace, key, limit, window, first, first + window)
    ensures Admissions(counters, trace, key) <= 2 * limit
  {
    AdmissionsBounded(counters, trace, key, limit, window, first, window);
    assert Windows(window, window) == 1;
  }

  ghost function Used(counters: Counters, key: Key, now: Instant): nat {
    if Live(counters, key, now) then counters[key].count else 0
  }

  /** A client that spends a whole limit at the start of a lifetime, again as soon as it has
      run out, and so on for k lifetimes. */
  lemma {:induction false} EveryLifetimeFills(counters: Counters, key: Key, limit: nat, window: nat, now: Instant,
                                              k: nat)
    returns (trace: seq<Request>)
    requires window > 0 && Used(counters, key, now) <= limit
    requires Live(counters, key, now) ==> counters[key].expiresAt == Some(now + window)
    ensures Orderly(trace, key, limit, window, now, now + Rounds(window, k))
    ensures Admissions(counters, trace, key) == limit - Used(counters, key, now) + Rounds(limit, k)
    decreases k, limit - Used(counters, key, now)
  {
    if Used(counters, key, now) < limit {
      var r := Request(key, limit, window, now);
      var rest := EveryLifetimeFills(Hit(counters, r), key, limit, window, now, k);
      trace := [r] + rest;
      assert trace[0] == r && trace[1..] == rest;
    } else if k == 0 {
      trace := [];
    } else {
      trace := EveryLifetimeFills(counters, key, limit, window, now + window, k - 1);
    }
  }

  /** The bound is reached: k windows can let through limit × (k + 1) requests, so the double
      limit within a single window is no overestimate. */
  lemma BoundIsReached(key: Key, limit: nat, window: nat, first: Instant, k: nat) returns (trace: seq<Request>)
    requires window > 0
    ensures Orderly(trace, key, limit, window, first, first + window * k)
    ensures Admissions(map[], trace, key) == limit * (k + 1)
  {
    trace := EveryLifetimeFills(map[], key, limit, window, first, k);
    RoundsIsProduct(window, k);
    RoundsIsProduct(limit, k + 1);
  }
}
