/** Who can hold a live session: what signing in, rotating, suspending, revoking and resetting grant
    and take away, over whole runs. */
module SessionAccess {
  import opened Common
  import opened Auth
  import opened SessionFamilies

  // ----- what each grant requires

  /** A single membership decides where no account is asked for; an account asked for must be one
      of them; and the account must be open. */
  lemma ChosenAccountExactly(choice: AccountChoice, account: AccountId)
    ensures ChosenAccount(choice) == Some(account)
            <==> account in choice.memberships && account in choice.open
                 && (choice.requested == Some(account)
                     || (choice.requested.None? && choice.memberships == [account]))
  {
  }

  /** The step is a sign-in of the user that passes: known, not locked out, the right password,
      not suspended, and an account to enter. */
  ghost predicate SignsIn(s: State, step: Step, user: UserId) {
    && step.Login? && step.user == user && user in s.users
    && (s.users[user].lockedUntil == None || s.users[user].lockedUntil.value <= step.now)
    && step.password == s.users[user].password
    && s.users[user].active && step.account.Some?
  }

  /** `token` is that of a live session of the user in the account, good for one session lifetime. */
  ghost predicate Grants(cfg: Settings, t: State, token: Token, user: UserId, account: AccountId, now: Instant) {
    exists id ::
      && Holds(t, id, token) && t.sessions[id].user == user && t.sessions[id].account == account
      && t.sessions[id].revokedAt == None && t.sessions[id].expiresAt == now + cfg.sessionMicros
  }

  lemma IssueGrants(cfg: Settings, s: State, user: UserId, account: AccountId, now: Instant)
    ensures var (t, r) := IssueTokenPair(cfg, s, user, account, now);
            r.Some? && Grants(cfg, t, r.value, user, account, now)
  {
    assert Holds(IssueTokenPair(cfg, s, user, account, now).0, s.next, s.next + 1);
  }

  /** A sign-in hands out a token exactly when it passes, for that user and account. */
  lemma SignInExactly(cfg: Settings, s: State, step: Step)
    requires step.Login?
    ensures var (t, r) := Apply(cfg, s, step);
            && (r.Some? <==> SignsIn(s, step, step.user))
            && (r.Some? ==> Grants(cfg, t, r.value, step.user, step.account.value, step.now))
  {
    if SignsIn(s, step, step.user) {
      var s1 := s.(users := s.users[step.user := Unlocked(s.users[step.user])]);
      IssueGrants(cfg, s1, step.user, step.account.value, step.now);
    }
  }

  /** A token rotates exactly when it is that of a live, unexpired session whose user is active,
      and the new one is for the same user, account and family and replaces it. */
  lemma RotationExactly(cfg: Settings, s: State, token: Token, now: Instant)
    requires Inv(s)
    ensures var (t, r) := RotateRefreshToken(cfg, s, token, now);
            && (r.Some? <==> exists id ::
                  && Holds(s, id, token) && s.sessions[id].revokedAt == None && s.sessions[id].expiresAt > now
                  && s.sessions[id].user in s.users && s.users[s.sessions[id].user].active)
            && (r.Some? ==>
                  && Lookup(s, token).Some?
                  && var former := s.sessions[Lookup(s, token).value];
                     && Grants(cfg, t, r.value, former.user, former.account, now)
                     && exists id :: Holds(t, id, r.value) && t.sessions[id].family == former.family
                          && t.sessions[Lookup(s, token).value]
                             == former.(revokedAt := Some(now), replacedBy := Some(id)))
  {
    var (t, r) := RotateRefreshToken(cfg, s, token, now);
    if id: SessionId :| Holds(s, id, token) {
      assert Lookup(s, token) == Some(id);
    }
    if r.Some? {
      assert Holds(t, s.next, r.value);
    }
  }

  // ----- suspension

  /** The user's sessions in `t` are sessions of theirs in `s`, none of them back from the dead. */
  ghost predicate NothingGained(s: State, t: State, user: UserId) {
    forall id :: id in t.sessions && t.sessions[id].user == user ==>
      && id in s.sessions && s.sessions[id].user == user
      && (t.sessions[id].revokedAt.None? ==> s.sessions[id].revokedAt.None?)
  }

  ghost predicate Suspended(s: State, user: UserId) {
    user in s.users && !s.users[user].active
  }

  lemma SuspendedStep(cfg: Settings, s: State, step: Step, user: UserId)
    requires Bounded(s) && Suspended(s, user) && step != SetActive(user, true)
    ensures var t := Apply(cfg, s, step).0;
            Suspended(t, user) && t.users[user].password == s.users[user].password && NothingGained(s, t, user)
  {
    match step
    case Rotate(token, now) => RotateIsShaped(cfg, s, token, now);
    case _ =>
  }

  /** A suspended user gains nothing until reactivated: no session, no revival of one, and no new
      password, whatever the user or anyone else does. */
  lemma {:induction false} SuspendedGainsNothing(cfg: Settings, s: State, steps: seq<Step>, user: UserId)
    requires Inv(s) && Suspended(s, user) && SetActive(user, true) !in steps
    ensures var t := Run(cfg, s, steps);
            Suspended(t, user) && t.users[user].password == s.users[user].password && NothingGained(s, t, user)
    decreases |steps|
  {
    if steps != [] {
      assert steps[0] in steps && forall x :: x in steps[1..] ==> x in steps;
      SuspendedStep(cfg, s, steps[0], user);
      StepKeepsInv(cfg, s, steps[0]);
      SuspendedGainsNothing(cfg, Apply(cfg, s, steps[0]).0, steps[1..], user);
    }
  }

  // ----- signing out

  ghost predicate SignedOut(s: State, user: UserId) {
    forall id :: id in s.sessions && s.sessions[id].user == user ==> s.sessions[id].revokedAt.Some?
  }

  lemma SignedOutStep(cfg: Settings, s: State, step: Step, user: UserId)
    requires Inv(s) && SignedOut(s, user) && !SignsIn(s, step, user)
    ensures SignedOut(Apply(cfg, s, step).0, user)
  {
    match step
    case Rotate(token, now) => RotateIsShaped(cfg, s, token, now);
    case _ =>
  }

  ghost predicate NeverSignsIn(cfg: Settings, s: State, steps: seq<Step>, user: UserId)
    decreases |steps|
  {
    steps != [] ==> !SignsIn(s, steps[0], user) && NeverSignsIn(cfg, Apply(cfg, s, steps[0]).0, steps[1..], user)
  }

  /** Once all their sessions are revoked a user has none until they sign in with the password in
      force: no token rotates and no account switch brings one back. */
  lemma {:induction false} SignedOutStaysOut(cfg: Settings, s: State, steps: seq<Step>, user: UserId,
                                             token: Token, now: Instant)
    requires Inv(s) && SignedOut(s, user) && NeverSignsIn(cfg, s, steps, user)
    ensures var t := Run(cfg, s, steps);
            && SignedOut(t, user)
            && (RotateRefreshToken(cfg, t, token, now).1.Some? ==>
                  Lookup(t, token).Some? && t.sessions[Lookup(t, token).value].user != user)
    decreases |steps|
  {
    if steps == [] {
      RotateIsShaped(cfg, s, token, now);
    } else {
      SignedOutStep(cfg, s, steps[0], user);
      StepKeepsInv(cfg, s, steps[0]);
      SignedOutStaysOut(cfg, Apply(cfg, s, steps[0]).0, steps[1..], user, token, now);
    }
  }

  /** Sessions of other users, and sessions already revoked, are as they were. */
  ghost predicate OnlyUserTouched(s: State, t: State, user: UserId) {
    && t.sessions.Keys == s.sessions.Keys
    && forall id :: id in s.sessions && (s.sessions[id].user != user || s.sessions[id].revokedAt.Some?) ==>
         t.sessions[id] == s.sessions[id]
  }

  /** Revoking all sessions signs the user out and nobody else. */
  lemma RevokeAllSignsOut(cfg: Settings, s: State, user: UserId, now: Instant)
    ensures var t := Apply(cfg, s, RevokeAll(user, now)).0;
            && t.users == s.users && SignedOut(t, user) && OnlyUserTouched(s, t, user)
            && forall id :: id in s.sessions && t.sessions[id] != s.sessions[id] ==>
                 t.sessions[id] == s.sessions[id].(revokedAt := Some(now))
  {
  }

  /** A reset signs the user out, clears their lock, and from then on only the new password
      passes; the link works again only within the second the reset fell in. */
  lemma ResetTakesOver(cfg: Settings, s: State, user: UserId, stamp: int, password: nat, now: Instant, step: Step)
    requires ResetAllowed(s, Some((user, stamp)))
    ensures var t := Apply(cfg, s, ResetPassword(Some((user, stamp)), password, now)).0;
            && SignedOut(t, user) && OnlyUserTouched(s, t, user)
            && t.users == s.users[user := t.users[user]] && !Locked(t.users[user], now)
            && t.users[user].failedLoginAttempts == 0
            && (step.Login? && step.user == user ==>
                  (SignsIn(t, step, user) <==> step.password == password && step.account.Some?))
            && (ResetAllowed(t, Some((user, stamp))) <==> stamp * 1_000_000 <= now < (stamp + 1) * 1_000_000)
  {
  }

  /** A reset is refused for a suspended or unknown user and for a stale or bad link, and then
      changes nothing. */
  lemma ResetRefused(cfg: Settings, s: State, claim: Option<(UserId, int)>, password: nat, now: Instant)
    ensures ResetAllowed(s, claim) <==>
              && claim.Some? && claim.value.0 in s.users && s.users[claim.value.0].active
              && var changed := s.users[claim.value.0].passwordChangedAt;
                 if changed == None then claim.value.1 == 0
                 else claim.value.1 * 1_000_000 <= changed.value < (claim.value.1 + 1) * 1_000_000
    ensures !ResetAllowed(s, claim) ==> Apply(cfg, s, ResetPassword(claim, password, now)).0 == s
  {
  }

  /** Logging out revokes the presented session and touches nothing else: other sessions of the
      user, and the successors of a token already rotated, stay as they are. */
  lemma LogoutIsLocal(cfg: Settings, s: State, token: Token, now: Instant)
    requires UniqueTokens(s.sessions)
    ensures var t := Apply(cfg, s, Logout(token, now)).0;
            && t.users == s.users && t.sessions.Keys == s.sessions.Keys
            && forall id :: id in s.sessions ==>
                 && (s.sessions[id].token == token && s.sessions[id].revokedAt == None ==>
                       t.sessions[id] == s.sessions[id].(revokedAt := Some(now)))
                 && (s.sessions[id].token != token || s.sessions[id].revokedAt.Some? ==>
                       t.sessions[id] == s.sessions[id])
  {
    forall id | id in s.sessions && s.sessions[id].token == token ensures Lookup(s, token) == Some(id) {
      assert Holds(s, id, token);
    }
  }

  /** An account switch needs a live, unexpired session of an active user whose password has not
      changed since, and grants a session of the same user only. */
  lemma SwitchExactly(cfg: Settings, s: State, session: SessionId, stamp: int, target: AccountId, now: Instant)
    ensures var (t, r) := Apply(cfg, s, SwitchAccount(session, stamp, target, now));
            && (r.Some? <==>
                  && session in s.sessions && s.sessions[session].revokedAt == None
                  && s.sessions[session].expiresAt > now && s.sessions[session].user in s.users
                  && s.users[s.sessions[session].user].active
                  && stamp == PasswordStamp(s.users[s.sessions[session].user]))
            && (r.Some? ==> Grants(cfg, t, r.value, s.sessions[session].user, target, now))
  {
    if Authenticates(s, session, stamp, now) {
      IssueGrants(cfg, s, s.sessions[session].user, target, now);
    }
  }
}
