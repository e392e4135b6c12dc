/** Safety of refresh-token rotation over whole runs: linear replacement chains, single use of
    every token, and the death of a family once a spent token is replayed. */
module SessionFamilies {
  import opened Common
  import opened Auth

  type Sessions = map<SessionId, Session>

  /** The family's sessions in order of issue: each but the last is revoked and replaced by the
      next one, the last is not replaced, and all belong to one user and account. */
  ghost predicate IsChain(sessions: Sessions, family: FamilyId, c: seq<SessionId>) {
    && c != [] && Distinct(c)
    && (forall id :: id in c <==> id in sessions && sessions[id].family == family)
    && (forall i :: 0 <= i < |c| - 1 ==> sessions[c[i]].replacedBy == Some(c[i + 1]) && sessions[c[i]].revokedAt.Some?)
    && sessions[c[|c| - 1]].replacedBy == None
    && (forall id :: id in c ==>
        sessions[id].user == sessions[c[0]].user && sessions[id].account == sessions[c[0]].account)
  }

  ghost predicate HasChain(sessions: Sessions, family: FamilyId) {
    exists c :: IsChain(sessions, family, c)
  }

  ghost predicate Chained(sessions: Sessions) {
    forall id {:trigger HasChain(sessions, sessions[id].family)} ::
      id in sessions ==> HasChain(sessions, sessions[id].family)
  }

  ghost predicate Bounded(s: State) {
    forall id :: id in s.sessions ==> id < s.next && s.sessions[id].token < s.next && s.sessions[id].family < s.next
  }

  ghost predicate Inv(s: State) {
    Bounded(s) && UniqueTokens(s.sessions) && Chained(s.sessions)
  }

  // ----- the three ways a step can touch the sessions table

  ghost predicate SameGrant(a: Session, b: Session) {
    && a.user == b.user && a.account == b.account && a.family == b.family
    && a.token == b.token && a.expiresAt == b.expiresAt
  }

  /** Nothing but revocation and replay marks. */
  ghost predicate OnlyRevokes(a: Sessions, b: Sessions) {
    && a.Keys == b.Keys
    && forall id :: id in a ==>
         && SameGrant(a[id], b[id]) && a[id].replacedBy == b[id].replacedBy
         && (a[id].revokedAt.Some? ==> b[id].revokedAt.Some?)
  }

  ghost predicate Issues(cfg: Settings, s: State, t: State, user: UserId, account: AccountId, now: Instant) {
    && t.sessions == s.sessions[s.next := NewSession(cfg, s.next, user, account, s.next + 2, now)]
    && t.next == s.next + 3
  }

  ghost function Replacement(cfg: Settings, s: State, id: SessionId, now: Instant): Session
    requires id in s.sessions
  {
    NewSession(cfg, s.next, s.sessions[id].user, s.sessions[id].account, s.sessions[id].family, now)
  }

  ghost predicate Rotates(cfg: Settings, s: State, t: State, id: SessionId, now: Instant) {
    && id in s.sessions && s.sessions[id].revokedAt.None?
    && t.sessions == s.sessions[s.next := Replacement(cfg, s, id, now)]
                               [id := s.sessions[id].(revokedAt := Some(now), replacedBy := Some(s.next))]
    && t.next == s.next + 3
  }

  ghost predicate Shaped(cfg: Settings, s: State, t: State) {
    || (OnlyRevokes(s.sessions, t.sessions) && t.next == s.next)
    || (exists user, account, now :: Issues(cfg, s, t, user, account, now))
    || (exists id, now :: Rotates(cfg, s, t, id, now))
  }

  lemma IssueIsShaped(cfg: Settings, s: State, user: UserId, account: AccountId, now: Instant)
    ensures Shaped(cfg, s, IssueTokenPair(cfg, s, user, account, now).0)
  {
    assert Issues(cfg, s, IssueTokenPair(cfg, s, user, account, now).0, user, account, now);
  }

  lemma RotateIsShaped(cfg: Settings, s: State, token: Token, now: Instant)
    ensures Shaped(cfg, s, RotateRefreshToken(cfg, s, token, now).0)
    ensures RotateRefreshToken(cfg, s, token, now).1.Some? ==>
              && Lookup(s, token).Some?
              && Rotates(cfg, s, RotateRefreshToken(cfg, s, token, now).0, Lookup(s, token).value, now)
  {
    var t := RotateRefreshToken(cfg, s, token, now).0;
    if RotateRefreshToken(cfg, s, token, now).1.Some? {
      assert Rotates(cfg, s, t, Lookup(s, token).value, now);
    } else {
      assert OnlyRevokes(s.sessions, t.sessions);
    }
  }

  lemma StepIsShaped(cfg: Settings, s: State, step: Step)
    ensures Shaped(cfg, s, Apply(cfg, s, step).0)
  {
    match step
    case Login(user, password, account, now) =>
      if user in s.users && account.Some? {
        var s1 := s.(users := s.users[user := Unlocked(s.users[user])]);
        IssueIsShaped(cfg, s1, user, account.value, now);
        assert Issues(cfg, s, IssueTokenPair(cfg, s1, user, account.value, now).0, user, account.value, now);
      }
    case SwitchAccount(session, stamp, target, now) =>
      if Authenticates(s, session, stamp, now) {
        IssueIsShaped(cfg, s, s.sessions[session].user, target, now);
      }
    case Rotate(token, now) => RotateIsShaped(cfg, s, token, now);
    case _ =>
  }

  /** What every step leaves of the past: grants are permanent, revocation is permanent, and a
      new session either opens a new family or takes over from a live one. */
  ghost predicate Evolves(s: State, t: State) {
    && s.next <= t.next
    && (forall id :: id in s.sessions ==>
          && id in t.sessions && SameGrant(s.sessions[id], t.sessions[id])
          && (s.sessions[id].revokedAt.Some? ==> t.sessions[id].revokedAt.Some?))
    && (forall id :: id in t.sessions && id !in s.sessions ==>
          t.sessions[id].family >= s.next || HasLive(s, t.sessions[id].family))
  }

  ghost predicate HasLive(s: State, family: FamilyId) {
    exists id :: id in s.sessions && s.sessions[id].family == family && s.sessions[id].revokedAt.None?
  }

  lemma StepEvolves(cfg: Settings, s: State, step: Step)
    requires Bounded(s)
    ensures Evolves(s, Apply(cfg, s, step).0)
  {
    StepIsShaped(cfg, s, step);
    var t := Apply(cfg, s, step).0;
    if OnlyRevokes(s.sessions, t.sessions) && t.next == s.next {
    } else if user, account, now :| Issues(cfg, s, t, user, account, now) {
    } else {
      var id, now :| Rotates(cfg, s, t, id, now);
      assert HasLive(s, t.sessions[s.next].family);
    }
  }

  // ----- the chain invariant

  lemma RevokingKeepsChain(a: Sessions, b: Sessions, family: FamilyId, c: seq<SessionId>)
    requires OnlyRevokes(a, b) && IsChain(a, family, c)
    ensures IsChain(b, family, c)
  {
    assert forall i :: 0 <= i < |c| ==> c[i] in c;
  }

  lemma RevokingKeepsChains(a: Sessions, b: Sessions)
    requires OnlyRevokes(a, b) && Chained(a)
    ensures Chained(b)
  {
    forall id | id in b ensures HasChain(b, b[id].family) {
      assert HasChain(a, a[id].family);
      var c :| IsChain(a, a[id].family, c);
      RevokingKeepsChain(a, b, a[id].family, c);
    }
  }

  /** A new row in another family, and changes confined to one other family, leave a chain alone. */
  lemma OtherFamilyKeepsChain(a: Sessions, b: Sessions, family: FamilyId, c: seq<SessionId>)
    requires IsChain(a, family, c)
    requires forall id :: id in a && a[id].family == family ==> id in b && b[id] == a[id]
    requires forall id :: id in b && b[id].family == family ==> id in a && a[id].family == family
    ensures IsChain(b, family, c)
  {
    assert forall i :: 0 <= i < |c| ==> c[i] in c;
  }

  lemma IssuingKeepsChains(cfg: Settings, s: State, t: State, user: UserId, account: AccountId, now: Instant)
    requires Bounded(s) && Chained(s.sessions) && Issues(cfg, s, t, user, account, now)
    ensures Chained(t.sessions)
  {
    forall id | id in t.sessions ensures HasChain(t.sessions, t.sessions[id].family) {
      if id == s.next {
        assert IsChain(t.sessions, s.next + 2, [s.next]);
      } else {
        assert HasChain(s.sessions, s.sessions[id].family);
        var c :| IsChain(s.sessions, s.sessions[id].family, c);
        OtherFamilyKeepsChain(s.sessions, t.sessions, s.sessions[id].family, c);
      }
    }
  }

  /** An unrevoked session can only stand at the end of its family's chain. */
  lemma LiveIsLast(sessions: Sessions, id: SessionId, c: seq<SessionId>)
    requires id in sessions && sessions[id].revokedAt.None? && IsChain(sessions, sessions[id].family, c)
    ensures c[|c| - 1] == id
  {
    var i :| 0 <= i < |c| && c[i] == id;
  }

  lemma RotationExtendsChain(cfg: Settings, s: State, t: State, id: SessionId, now: Instant, c: seq<SessionId>)
    requires Bounded(s) && Rotates(cfg, s, t, id, now) && IsChain(s.sessions, s.sessions[id].family, c)
    ensures IsChain(t.sessions, s.sessions[id].family, c + [s.next])
  {
    LiveIsLast(s.sessions, id, c);
    var d := c + [s.next];
    assert forall i :: 0 <= i < |c| ==> c[i] in c && c[i] in s.sessions && c[i] < s.next;
    forall i | 0 <= i < |d| - 1
      ensures t.sessions[d[i]].replacedBy == Some(d[i + 1]) && t.sessions[d[i]].revokedAt.Some?
    {
      assert i < |c| - 1 ==> c[i] != id;
    }
  }

  lemma RotatingKeepsChains(cfg: Settings, s: State, t: State, id: SessionId, now: Instant)
    requires Bounded(s) && Chained(s.sessions) && Rotates(cfg, s, t, id, now)
    ensures Chained(t.sessions)
  {
    var family := s.sessions[id].family;
    forall k | k in t.sessions ensures HasChain(t.sessions, t.sessions[k].family) {
      if t.sessions[k].family == family {
        assert HasChain(s.sessions, s.sessions[id].family);
        var c :| IsChain(s.sessions, family, c);
        RotationExtendsChain(cfg, s, t, id, now, c);
      } else {
        assert HasChain(s.sessions, s.sessions[k].family);
        var d :| IsChain(s.sessions, s.sessions[k].family, d);
        OtherFamilyKeepsChain(s.sessions, t.sessions, s.sessions[k].family, d);
      }
    }
  }

  lemma ShapedKeepsIds(cfg: Settings, s: State, t: State)
    requires Shaped(cfg, s, t) && Bounded(s) && UniqueTokens(s.sessions)
    ensures Bounded(t) && UniqueTokens(t.sessions)
  {
  }

  lemma ShapedKeepsChains(cfg: Settings, s: State, t: State)
    requires Shaped(cfg, s, t) && Bounded(s) && Chained(s.sessions)
    ensures Chained(t.sessions)
  {
    if OnlyRevokes(s.sessions, t.sessions) && t.next == s.next {
      RevokingKeepsChains(s.sessions, t.sessions);
    } else if user, account, now :| Issues(cfg, s, t, user, account, now) {
      IssuingKeepsChains(cfg, s, t, user, account, now);
    } else {
      var id, now :| Rotates(cfg, s, t, id, now);
      RotatingKeepsChains(cfg, s, t, id, now);
    }
  }

  lemma StepKeepsInv(cfg: Settings, s: State, step: Step)
    requires Inv(s)
    ensures Inv(Apply(cfg, s, step).0)
  {
    StepIsShaped(cfg, s, step);
    ShapedKeepsIds(cfg, s, Apply(cfg, s, step).0);
    ShapedKeepsChains(cfg, s, Apply(cfg, s, step).0);
  }

  lemma {:induction false} RunKeepsInv(cfg: Settings, s: State, steps: seq<Step>)
    requires Inv(s)
    ensures Inv(Run(cfg, s, steps))
    decreases |steps|
  {
    if steps != [] {
      StepKeepsInv(cfg, s, steps[0]);
      RunKeepsInv(cfg, Apply(cfg, s, steps[0]).0, steps[1..]);
    }
  }

  /** In every run, every family is one linear chain with at most one live session. */
  lemma FamiliesAreLinear(cfg: Settings, users: map<UserId, User>, steps: seq<Step>)
    ensures var sessions := Run(cfg, State(users, map[], 0), steps).sessions;
            && Chained(sessions)
            && forall a, b :: a in sessions && b in sessions
                && sessions[a].family == sessions[b].family
                && sessions[a].revokedAt.None? && sessions[b].revokedAt.None?
                ==> a == b
  {
    RunKeepsInv(cfg, State(users, map[], 0), steps);
    var sessions := Run(cfg, State(users, map[], 0), steps).sessions;
    forall a, b | a in sessions && b in sessions && sessions[a].family == sessions[b].family
                  && sessions[a].revokedAt.None? && sessions[b].revokedAt.None?
      ensures a == b
    {
      assert HasChain(sessions, sessions[a].family);
      var c :| IsChain(sessions, sessions[a].family, c);
      LiveIsLast(sessions, a, c);
      LiveIsLast(sessions, b, c);
    }
  }

  // ----- single use

  ghost predicate Spent(s: State, token: Token) {
    exists id :: Holds(s, id, token) && s.sessions[id].revokedAt.Some?
  }

  lemma StepKeepsSpent(cfg: Settings, s: State, step: Step, token: Token)
    requires Inv(s) && Spent(s, token)
    ensures Spent(Apply(cfg, s, step).0, token)
  {
    StepEvolves(cfg, s, step);
    var t := Apply(cfg, s, step).0;
    var id :| Holds(s, id, token) && s.sessions[id].revokedAt.Some?;
    assert Holds(t, id, token);
  }

  lemma SpentTokenNeverRotates(cfg: Settings, s: State, token: Token, now: Instant)
    requires UniqueTokens(s.sessions) && Spent(s, token)
    ensures RotateRefreshToken(cfg, s, token, now).1 == None
  {
    var id :| Holds(s, id, token) && s.sessions[id].revokedAt.Some?;
    assert Lookup(s, token) == Some(id);
  }

  lemma {:induction false} SpentForever(cfg: Settings, s: State, steps: seq<Step>, token: Token, now: Instant)
    requires Inv(s) && Spent(s, token)
    ensures RotateRefreshToken(cfg, Run(cfg, s, steps), token, now).1 == None
    decreases |steps|
  {
    if steps == [] {
      SpentTokenNeverRotates(cfg, s, token, now);
    } else {
      StepKeepsInv(cfg, s, steps[0]);
      StepKeepsSpent(cfg, s, steps[0], token);
      SpentForever(cfg, Apply(cfg, s, steps[0]).0, steps[1..], token, now);
    }
  }

  /** A token that rotated once never rotates again, whatever happens in between. */
  lemma RotatesAtMostOnce(cfg: Settings, s: State, token: Token, first: Instant, between: seq<Step>, second: Instant)
    requires Inv(s) && RotateRefreshToken(cfg, s, token, first).1.Some?
    ensures var t := Run(cfg, RotateRefreshToken(cfg, s, token, first).0, between);
            RotateRefreshToken(cfg, t, token, second).1 == None
  {
    var t := RotateRefreshToken(cfg, s, token, first).0;
    assert t == Apply(cfg, s, Rotate(token, first)).0;
    StepKeepsInv(cfg, s, Rotate(token, first));
    RotateIsShaped(cfg, s, token, first);
    assert Holds(t, Lookup(s, token).value, token);
    SpentForever(cfg, t, between, token, second);
  }

  // ----- replay

  /** A family already handed out, none of whose sessions is live. */
  ghost predicate Dead(s: State, family: FamilyId) {
    family < s.next && forall id :: id in s.sessions && s.sessions[id].family == family ==>
        s.sessions[id].revokedAt.Some?
  }

  /** Presenting a revoked token kills its family exactly when the token has not expired
      (or the family was dead before), marks that token's session and no other, and hands out
      nothing. */
  lemma ReplayKillsFamily(cfg: Settings, s: State, token: Token, now: Instant)
    requires Inv(s) && Spent(s, token)
    ensures Lookup(s, token).Some?
    ensures var session := s.sessions[Lookup(s, token).value];
            var r := RotateRefreshToken(cfg, s, token, now);
            r.1 == None && (Dead(r.0, session.family) <==> session.expiresAt > now || Dead(s, session.family))
    ensures var r := RotateRefreshToken(cfg, s, token, now);
            forall id :: id in r.0.sessions ==>
              && id in s.sessions
              && r.0.sessions[id].reuseDetectedAt
                 == if s.sessions[id].token == token && s.sessions[id].expiresAt > now then Some(now)
                    else s.sessions[id].reuseDetectedAt
  {
    SpentTokenNeverRotates(cfg, s, token, now);
  }

  /** The second half does occur: a user signs in, rotates, and presents the first token when it
      expires. The replay goes unnoticed, and the replacement still rotates. */
  lemma ExpiredReplaySpares(cfg: Settings, users: map<UserId, User>, user: UserId, account: AccountId)
    requires cfg.sessionMicros > 1 && user in users && users[user].active && !Locked(users[user], 0)
    ensures var login := Login(user, users[user].password, Some(account), 0);
            var s := Run(cfg, State(users, map[], 0), [login, Rotate(1, 1)]);
            var replay := RotateRefreshToken(cfg, s, 1, cfg.sessionMicros);
            && Spent(s, 1) && replay == (s, None)
            && 0 in s.sessions && 3 in s.sessions && s.sessions[0].family == s.sessions[3].family
            && !Dead(s, s.sessions[0].family)
            && RotateRefreshToken(cfg, replay.0, 4, cfg.sessionMicros).1.Some?
  {
    var empty := State(users, map[], 0);
    var login := Login(user, users[user].password, Some(account), 0);
    var s1 := Apply(cfg, empty, login).0;
    var s := Apply(cfg, s1, Rotate(1, 1)).0;
    assert Holds(s1, 0, 1);
    assert [login, Rotate(1, 1)][1..] == [Rotate(1, 1)];
    assert Run(cfg, empty, [login, Rotate(1, 1)]) == Run(cfg, s1, [Rotate(1, 1)]) == s;
    assert Holds(s, 0, 1) && Holds(s, 3, 4);
    assert Lookup(s, 1) == Some(0) && Lookup(s, 4) == Some(3);
  }

  lemma StepKeepsDead(cfg: Settings, s: State, step: Step, family: FamilyId)
    requires Inv(s) && Dead(s, family)
    ensures Dead(Apply(cfg, s, step).0, family)
  {
    StepEvolves(cfg, s, step);
  }

  /** From then on no run makes any token of the family rotate, whenever it is presented. */
  lemma {:induction false} DeadForever(cfg: Settings, s: State, family: FamilyId, steps: seq<Step>, token: Token,
                                       now: Instant)
    requires Inv(s) && Dead(s, family)
    ensures var t := Run(cfg, s, steps);
            Lookup(t, token).Some? && t.sessions[Lookup(t, token).value].family == family ==>
              RotateRefreshToken(cfg, t, token, now).1 == None
    decreases |steps|
  {
    if steps != [] {
      StepKeepsInv(cfg, s, steps[0]);
      StepKeepsDead(cfg, s, steps[0], family);
      DeadForever(cfg, Apply(cfg, s, steps[0]).0, family, steps[1..], token, now);
    }
  }
}
