/** How many wrong passwords a user can try in a given span of time. */
module LoginLockout {
  import opened Common
  import opened Auth

  /** `step` reaches the password comparison for `user` and fails it. */
  ghost predicate FailedCheck(s: State, step: Step, user: UserId) {
    && step.Login? && step.user == user && user in s.users
    && !Locked(s.users[user], step.now) && step.password != s.users[user].password
  }

  /** A successful sign-in or password reset: what clears the counter and the lock. */
  ghost predicate Clears(s: State, step: Step, user: UserId) {
    || (step.Login? && step.user == user && user in s.users && !Locked(s.users[user], step.now)
        && step.password == s.users[user].password && s.users[user].active)
    || (step.ResetPassword? && ResetAllowed(s, step.claim) && step.claim.value.0 == user)
  }

  ghost function FailedChecks(cfg: Settings, s: State, steps: seq<Step>, user: UserId): nat
    decreases |steps|
  {
    if steps == [] then 0
    else (if FailedCheck(s, steps[0], user) then 1 else 0)
         + FailedChecks(cfg, Apply(cfg, s, steps[0]).0, steps[1..], user)
  }

  ghost function Clearings(cfg: Settings, s: State, steps: seq<Step>, user: UserId): nat
    decreases |steps|
  {
    if steps == [] then 0
    else (if Clears(s, steps[0], user) then 1 else 0)
         + Clearings(cfg, Apply(cfg, s, steps[0]).0, steps[1..], user)
  }

  /** The clock never runs backwards: every timed step lies in [first, last], in order. */
  ghost predicate InOrder(steps: seq<Step>, first: Instant, last: Instant)
    decreases |steps|
  {
    first <= last &&
    (steps != [] ==>
      if steps[0].SetActive? then InOrder(steps[1..], first, last)
      else first <= steps[0].now && InOrder(steps[1..], steps[0].now, last))
  }

  /** The counter stays below the limit, a running lock ends within one lock period, and the
      counter is zero while a lock runs. */
  ghost predicate UserInv(cfg: Settings, u: User, now: Instant) {
    && u.failedLoginAttempts < cfg.loginMaxAttempts
    && (Locked(u, now) ==> u.failedLoginAttempts == 0 && u.lockedUntil.value <= now + cfg.lockMicros)
  }

  ghost predicate LockInv(cfg: Settings, s: State, now: Instant) {
    forall user :: user in s.users ==> UserInv(cfg, s.users[user], now)
  }

  function Time(step: Step, clock: Instant): Instant {
    if step.SetActive? then clock else step.now
  }

  lemma StepKeepsLockInv(cfg: Settings, s: State, step: Step, clock: Instant)
    requires cfg.Valid() && LockInv(cfg, s, clock) && clock <= Time(step, clock)
    ensures LockInv(cfg, Apply(cfg, s, step).0, Time(step, clock))
  {
  }

  /** In every reachable state the stored counter is below login_max_attempts. */
  lemma {:induction false} CounterStaysBelowLimit(cfg: Settings, s: State, steps: seq<Step>, first: Instant,
                                                  last: Instant)
    requires cfg.Valid() && LockInv(cfg, s, first) && InOrder(steps, first, last)
    ensures LockInv(cfg, Run(cfg, s, steps), last)
    decreases |steps|
  {
    if steps != [] {
      StepKeepsLockInv(cfg, s, steps[0], first);
      CounterStaysBelowLimit(cfg, Apply(cfg, s, steps[0]).0, steps[1..], Time(steps[0], first), last);
    }
  }

  // ----- the bound

  lemma {:induction false} PeriodsMonotone(a: int, b: int, lock: nat)
    requires lock > 0 && a <= b
    ensures Periods(a, lock) <= Periods(b, lock)
    decreases b
  {
    if lock <= a {
      PeriodsMonotone(a - lock, b - lock, lock);
    }
  }

  /** The failures the user's record still admits between `clock` and `last` without clearing:
      what is left before the next lock, and a full round for each later lock period. */
  ghost function Allowance(cfg: Settings, u: User, clock: Instant, last: Instant): int
    requires cfg.Valid()
  {
    var start := if Locked(u, clock) then u.lockedUntil.value else clock;
    if start > last then 0
    else
      var rounds := Rounds(cfg.loginMaxAttempts, Periods(last - start, cfg.lockMicros));
      cfg.loginMaxAttempts - u.failedLoginAttempts + rounds
  }

  lemma TimePasses(cfg: Settings, u: User, clock: Instant, later: Instant, last: Instant)
    requires cfg.Valid() && UserInv(cfg, u, clock) && clock <= later <= last
    ensures Allowance(cfg, u, later, last) <= Allowance(cfg, u, clock, last)
  {
    var a := if Locked(u, clock) then u.lockedUntil.value else clock;
    var b := if Locked(u, later) then u.lockedUntil.value else later;
    assert a <= b;
    PeriodsMonotone(last - b, last - a, cfg.lockMicros);
    RoundsMonotone(cfg.loginMaxAttempts, Periods(last - b, cfg.lockMicros), Periods(last - a, cfg.lockMicros));
  }

  lemma FailureSpendsAllowance(cfg: Settings, u: User, now: Instant, last: Instant)
    requires cfg.Valid() && UserInv(cfg, u, now) && !Locked(u, now) && now <= last
    ensures 1 + Allowance(cfg, AfterWrongPassword(cfg, u, now), now, last) <= Allowance(cfg, u, now, last)
  {
    if u.failedLoginAttempts + 1 >= cfg.loginMaxAttempts && now + cfg.lockMicros <= last {
      assert Periods(last - now, cfg.lockMicros) == 1 + Periods(last - now - cfg.lockMicros, cfg.lockMicros);
    }
  }

  lemma ClearingAddsOneRound(cfg: Settings, u: User, v: User, now: Instant, last: Instant)
    requires cfg.Valid() && UserInv(cfg, u, now) && now <= last
    requires v.failedLoginAttempts == 0 && v.lockedUntil.None?
    ensures Allowance(cfg, v, now, last) <= Allowance(cfg, u, now, last) + cfg.loginMaxAttempts
  {
    if Locked(u, now) {
      var end := u.lockedUntil.value;
      PeriodsMonotone(last - now - cfg.lockMicros, last - end, cfg.lockMicros);
      var left := Periods(last - end, cfg.lockMicros);
      RoundsMonotone(cfg.loginMaxAttempts, Periods(last - now, cfg.lockMicros), 1 + left);
    }
  }

  /** One step: a failure is paid for by the allowance, a clearing buys at most one round. */
  lemma StepPays(cfg: Settings, s: State, step: Step, user: UserId, clock: Instant, last: Instant)
    requires cfg.Valid() && user in s.users && UserInv(cfg, s.users[user], clock)
    requires clock <= Time(step, clock) <= last
    ensures user in Apply(cfg, s, step).0.users
    ensures (if FailedCheck(s, step, user) then 1 else 0)
            + Allowance(cfg, Apply(cfg, s, step).0.users[user], Time(step, clock), last)
            <= Allowance(cfg, s.users[user], clock, last) + (if Clears(s, step, user) then cfg.loginMaxAttempts else 0)
  {
    var u := s.users[user];
    var v := Apply(cfg, s, step).0.users[user];
    var now := Time(step, clock);
    TimePasses(cfg, u, clock, now, last);
    if FailedCheck(s, step, user) {
      FailureSpendsAllowance(cfg, u, now, last);
    } else if Clears(s, step, user) {
      ClearingAddsOneRound(cfg, u, v, now, last);
    } else {
      assert v.failedLoginAttempts == u.failedLoginAttempts && v.lockedUntil == u.lockedUntil;
    }
  }

  lemma {:induction false} RunPays(cfg: Settings, s: State, steps: seq<Step>, user: UserId, clock: Instant,
                                   last: Instant)
    requires cfg.Valid() && LockInv(cfg, s, clock) && InOrder(steps, clock, last) && user in s.users
    ensures FailedChecks(cfg, s, steps, user)
            <= Allowance(cfg, s.users[user], clock, last) + Rounds(cfg.loginMaxAttempts, Clearings(cfg, s, steps, user))
    decreases |steps|
  {
    if steps != [] {
      var t := Apply(cfg, s, steps[0]).0;
      StepPays(cfg, s, steps[0], user, clock, last);
      StepKeepsLockInv(cfg, s, steps[0], clock);
      RunPays(cfg, t, steps[1..], user, Time(steps[0], clock), last);
    }
  }

  lemma AllowanceWithinRounds(cfg: Settings, u: User, first: Instant, span: nat)
    requires cfg.Valid() && UserInv(cfg, u, first)
    ensures Allowance(cfg, u, first, first + span) <= Rounds(cfg.loginMaxAttempts, Periods(span, cfg.lockMicros) + 1)
  {
    var max, lock, last := cfg.loginMaxAttempts, cfg.lockMicros, first + span;
    var start := if Locked(u, first) then u.lockedUntil.value else first;
    PeriodsMonotone(last - start, span, lock);
    RoundsMonotone(max, Periods(last - start, lock), Periods(span, lock));
  }

  lemma FailedChecksWithinRounds(cfg: Settings, s: State, steps: seq<Step>, user: UserId, first: Instant, span: nat)
    requires cfg.Valid() && LockInv(cfg, s, first) && InOrder(steps, first, first + span)
    ensures FailedChecks(cfg, s, steps, user)
            <= Rounds(cfg.loginMaxAttempts, Periods(span, cfg.lockMicros) + 1 + Clearings(cfg, s, steps, user))
  {
    if user in s.users {
      RunPays(cfg, s, steps, user, first, first + span);
      AllowanceWithinRounds(cfg, s.users[user], first, span);
      RoundsAdd(cfg.loginMaxAttempts, Periods(span, cfg.lockMicros) + 1, Clearings(cfg, s, steps, user));
    } else {
      UnknownUserNeverChecked(cfg, s, steps, user);
    }
  }

  /** Within any span of length `span`, from any reachable state, a user meets at most
      max × (⌊span / lock⌋ + 1) failed password checks, plus one round of max for every
      successful sign-in or reset in the span. */
  lemma FailedChecksBounded(cfg: Settings, s: State, steps: seq<Step>, user: UserId, first: Instant, span: nat)
    requires cfg.Valid() && LockInv(cfg, s, first) && InOrder(steps, first, first + span)
    ensures FailedChecks(cfg, s, steps, user)
            <= cfg.loginMaxAttempts * (span / cfg.lockMicros + 1 + Clearings(cfg, s, steps, user))
  {
    FailedChecksWithinRounds(cfg, s, steps, user, first, span);
    PeriodsIsFloor(span, cfg.lockMicros);
    RoundsIsProduct(cfg.loginMaxAttempts, Periods(span, cfg.lockMicros) + 1 + Clearings(cfg, s, steps, user));
  }

  lemma {:induction false} UnknownUserNeverChecked(cfg: Settings, s: State, steps: seq<Step>, user: UserId)
    requires user !in s.users
    ensures FailedChecks(cfg, s, steps, user) == 0
    decreases |steps|
  {
    if steps != [] {
      UnknownUserNeverChecked(cfg, Apply(cfg, s, steps[0]).0, steps[1..], user);
    }
  }

  /** Wrong passwords at once until the lock, again at the moment it ends, and so on for k
      locks: every attempt is checked. */
  lemma {:induction false} EveryRoundIsPossible(cfg: Settings, s: State, user: UserId, wrong: nat, now: Instant, k: nat)
    returns (steps: seq<Step>)
    requires cfg.Valid() && user in s.users && wrong != s.users[user].password && !Locked(s.users[user], now)
    requires s.users[user].failedLoginAttempts < cfg.loginMaxAttempts
    ensures steps != [] && steps[0].Login? && InOrder(steps, now, now + Rounds(cfg.lockMicros, k))
    ensures Clearings(cfg, s, steps, user) == 0
    ensures FailedChecks(cfg, s, steps, user)
            == cfg.loginMaxAttempts - s.users[user].failedLoginAttempts + Rounds(cfg.loginMaxAttempts, k)
    decreases k, cfg.loginMaxAttempts - s.users[user].failedLoginAttempts
  {
    var attempt := Login(user, wrong, None, now);
    var t := Apply(cfg, s, attempt).0;
    var rest: seq<Step> := [];
    if s.users[user].failedLoginAttempts + 1 < cfg.loginMaxAttempts {
      rest := EveryRoundIsPossible(cfg, t, user, wrong, now, k);
    } else if k > 0 {
      rest := EveryRoundIsPossible(cfg, t, user, wrong, now + cfg.lockMicros, k - 1);
    }
    steps := [attempt] + rest;
    assert steps[0] == attempt && steps[1..] == rest;
  }

  /** The bound is reached: over k lock periods, starting from a clean record, a run without
      clearings has max × (k + 1) failed checks. */
  lemma BoundIsReached(cfg: Settings, s: State, user: UserId, wrong: nat, now: Instant, k: nat)
    returns (steps: seq<Step>)
    requires cfg.Valid() && user in s.users && wrong != s.users[user].password && !Locked(s.users[user], now)
    requires s.users[user].failedLoginAttempts == 0
    ensures InOrder(steps, now, now + cfg.lockMicros * k) && Clearings(cfg, s, steps, user) == 0
    ensures FailedChecks(cfg, s, steps, user) == cfg.loginMaxAttempts * (k + 1)
  {
    steps := EveryRoundIsPossible(cfg, s, user, wrong, now, k);
    RoundsIsProduct(cfg.lockMicros, k);
    RoundsIsProduct(cfg.loginMaxAttempts, k + 1);
  }
}
