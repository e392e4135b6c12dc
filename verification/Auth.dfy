/** Sign-in, refresh-token rotation and revocation over the users and refresh_sessions tables.
    Each service function is one atomic step; opaque token values and ids come from one
    counter, so every value handed out is new, and a token stands for its own hash. */
module Auth {
  import opened Common

  type UserId = nat
  type AccountId = nat
  type SessionId = nat
  type Token = nat
  type FamilyId = nat
  /** Microseconds on the server clock. */
  type Instant = int

  datatype User = User(
    password: nat,
    active: bool,
    failedLoginAttempts: nat,
    lockedUntil: Option<Instant>,
    passwordChangedAt: Option<Instant>)

  datatype Session = Session(
    user: UserId,
    account: AccountId,
    token: Token,
    expiresAt: Instant,
    family: FamilyId,
    revokedAt: Option<Instant>,
    replacedBy: Option<SessionId>,
    reuseDetectedAt: Option<Instant>)

  /** The configured limits: at least one attempt, positive lock and session lifetimes. */
  datatype Settings = Settings(loginMaxAttempts: nat, lockMicros: nat, sessionMicros: nat) {
    ghost predicate Valid() {
      loginMaxAttempts > 0 && lockMicros > 0 && sessionMicros > 0
    }
  }

  /** `next` exceeds every id and token in use. */
  datatype State = State(users: map<UserId, User>, sessions: map<SessionId, Session>, next: nat)

  datatype Step =
    /** `account` is the membership the request resolves to, None when no token pair is issued. */
    | Login(user: UserId, password: nat, account: Option<AccountId>, now: Instant)
    /** A request with the access token of a session, and the password stamp in that token, switches
        to another account of the user. */
    | SwitchAccount(session: SessionId, stamp: int, target: AccountId, now: Instant)
    | Rotate(token: Token, now: Instant)
    | Logout(token: Token, now: Instant)
    | RevokeAll(user: UserId, now: Instant)
    /** `claim` is the user and password stamp a valid reset token carries, None for a bad one. */
    | ResetPassword(claim: Option<(UserId, int)>, password: nat, now: Instant)
    /** An administrator activates or suspends the user. */
    | SetActive(user: UserId, active: bool)

  /** The token a successful login, switch or rotation hands out. */
  type Outcome = Option<Token>

  /** What a sign-in has to choose an account from: the user's active memberships, oldest first,
      the account asked for, and the accounts that are neither blocked nor missing. */
  datatype AccountChoice = AccountChoice(
    memberships: seq<AccountId>,
    requested: Option<AccountId>,
    open: set<AccountId>)

  /** The account a sign-in ends in; None when it raises, or leaves the choice to the user. */
  function ChosenAccount(choice: AccountChoice): Option<AccountId> {
    var account :=
      if choice.requested.Some? then
        if choice.requested.value in choice.memberships then choice.requested else None
      else if |choice.memberships| == 1 then Some(choice.memberships[0]) else None;
    if account.Some? && account.value in choice.open then account else None
  }

  // ----- the effect of each service function

  ghost predicate Holds(s: State, id: SessionId, token: Token) {
    id in s.sessions && s.sessions[id].token == token
  }

  ghost function Lookup(s: State, token: Token): Option<SessionId> {
    if exists id :: Holds(s, id, token) then
      var id :| Holds(s, id, token);
      Some(id)
    else None
  }

  /** The row inserted for a new session; id, token and a possible new family are consecutive. */
  function NewSession(s: Settings, next: nat, user: UserId, account: AccountId, family: FamilyId,
                      now: Instant): Session {
    Session(user, account, next + 1, now + s.sessionMicros, family, None, None, None)
  }

  ghost function IssueTokenPair(cfg: Settings, s: State, user: UserId, account: AccountId,
                                now: Instant): (State, Outcome) {
    (s.(sessions := s.sessions[s.next := NewSession(cfg, s.next, user, account, s.next + 2, now)], next := s.next + 3),
     Some(s.next + 1))
  }

  predicate Locked(u: User, now: Instant) {
    u.lockedUntil.Some? && u.lockedUntil.value > now
  }

  function AfterWrongPassword(cfg: Settings, u: User, now: Instant): User {
    var failed := u.failedLoginAttempts + 1;
    if failed >= cfg.loginMaxAttempts then
      u.(failedLoginAttempts := 0, lockedUntil := Some(now + cfg.lockMicros))
    else u.(failedLoginAttempts := failed)
  }

  function Unlocked(u: User): User {
    u.(failedLoginAttempts := 0, lockedUntil := None)
  }

  ghost function AuthenticateUser(cfg: Settings, s: State, user: UserId, password: nat, account: Option<AccountId>,
                                  now: Instant): (State, Outcome) {
    if user !in s.users || Locked(s.users[user], now) then (s, None)
    else if password != s.users[user].password then
      (s.(users := s.users[user := AfterWrongPassword(cfg, s.users[user], now)]), None)
    else if !s.users[user].active then (s, None)
    else
      var s1 := s.(users := s.users[user := Unlocked(s.users[user])]);
      if account.None? then (s1, None) else IssueTokenPair(cfg, s1, user, account.value, now)
  }

  /** Marks the unrevoked sessions in `ids` as revoked at `now`. */
  function Revoked(sessions: map<SessionId, Session>, ids: set<SessionId>, now: Instant): map<SessionId, Session> {
    map id | id in sessions ::
      if id in ids && sessions[id].revokedAt.None? then sessions[id].(revokedAt := Some(now)) else sessions[id]
  }

  function FamilyIds(sessions: map<SessionId, Session>, family: FamilyId): set<SessionId> {
    set id | id in sessions && sessions[id].family == family
  }

  function UserSessionIds(sessions: map<SessionId, Session>, user: UserId): set<SessionId> {
    set id | id in sessions && sessions[id].user == user
  }

  function LiveSessionIds(sessions: map<SessionId, Session>, user: UserId): set<SessionId> {
    set id | id in sessions && sessions[id].user == user && sessions[id].revokedAt.None?
  }

  ghost function RotateRefreshToken(cfg: Settings, s: State, token: Token, now: Instant): (State, Outcome) {
    var found := Lookup(s, token);
    if found.None? || s.sessions[found.value].expiresAt <= now then (s, None)
    else
      var id := found.value;
      var session := s.sessions[id];
      if session.revokedAt.Some? then
        var marked := s.sessions[id := session.(reuseDetectedAt := Some(now))];
        (s.(sessions := Revoked(marked, FamilyIds(marked, session.family), now)), None)
      else if session.user !in s.users || !s.users[session.user].active then (s, None)
      else
        var replacement := NewSession(cfg, s.next, session.user, session.account, session.family, now);
        (s.(sessions := s.sessions[s.next := replacement]
                                  [id := session.(revokedAt := Some(now), replacedBy := Some(s.next))],
            next := s.next + 3),
         Some(s.next + 1))
  }

  ghost function RevokeRefreshToken(s: State, token: Token, now: Instant): State {
    var found := Lookup(s, token);
    if found.None? then s else s.(sessions := Revoked(s.sessions, {found.value}, now))
  }

  ghost function RevokeAllUserSessions(s: State, user: UserId, now: Instant): State {
    s.(sessions := Revoked(s.sessions, UserSessionIds(s.sessions, user), now))
  }

  /** Whole seconds of the password stamp, 0 when the password was never changed. */
  function PasswordStamp(u: User): int {
    if u.passwordChangedAt.Some? then u.passwordChangedAt.value / 1_000_000 else 0
  }

  /** The access token of the session is still accepted. */
  predicate Authenticates(s: State, session: SessionId, stamp: int, now: Instant) {
    && session in s.sessions && s.sessions[session].revokedAt.None? && s.sessions[session].expiresAt > now
    && s.sessions[session].user in s.users
    && s.users[s.sessions[session].user].active
    && stamp == PasswordStamp(s.users[s.sessions[session].user])
  }

  ghost function SwitchToAccount(cfg: Settings, s: State, session: SessionId, stamp: int, target: AccountId,
                                 now: Instant): (State, Outcome) {
    if Authenticates(s, session, stamp, now) then IssueTokenPair(cfg, s, s.sessions[session].user, target, now)
    else (s, None)
  }

  ghost predicate ResetAllowed(s: State, claim: Option<(UserId, int)>) {
    && claim.Some? && claim.value.0 in s.users
    && s.users[claim.value.0].active
    && claim.value.1 == PasswordStamp(s.users[claim.value.0])
  }

  ghost function ResetPasswordWithToken(s: State, claim: Option<(UserId, int)>, password: nat, now: Instant): State {
    if !ResetAllowed(s, claim) then s
    else
      var user := claim.value.0;
      var u := Unlocked(s.users[user]).(password := password, passwordChangedAt := Some(now));
      RevokeAllUserSessions(s.(users := s.users[user := u]), user, now)
  }

  ghost function Apply(cfg: Settings, s: State, step: Step): (State, Outcome) {
    match step
    case Login(user, password, account, now) => AuthenticateUser(cfg, s, user, password, account, now)
    case SwitchAccount(session, stamp, target, now) => SwitchToAccount(cfg, s, session, stamp, target, now)
    case Rotate(token, now) => RotateRefreshToken(cfg, s, token, now)
    case Logout(token, now) => (RevokeRefreshToken(s, token, now), None)
    case RevokeAll(user, now) => (RevokeAllUserSessions(s, user, now), None)
    case ResetPassword(claim, password, now) => (ResetPasswordWithToken(s, claim, password, now), None)
    case SetActive(user, active) =>
      (if user in s.users then s.(users := s.users[user := s.users[user].(active := active)]) else s, None)
  }

  ghost function Run(cfg: Settings, s: State, steps: seq<Step>): State
    decreases |steps|
  {
    if steps == [] then s else Run(cfg, Apply(cfg, s, steps[0]).0, steps[1..])
  }

  /** What the unique index on token_hash guarantees a lookup. */
  ghost predicate UniqueTokens(sessions: map<SessionId, Session>) {
    forall a, b :: a in sessions && b in sessions && sessions[a].token == sessions[b].token ==> a == b
  }

  // ----- the service

  /** The two tables, updated in place. */
  class AuthService {
    const cfg: Settings
    var users: map<UserId, User>
    var sessions: map<SessionId, Session>
    var next: nat

    ghost function View(): State
      reads this
    {
      State(users, sessions, next)
    }

    constructor (cfg: Settings, users: map<UserId, User>)
      ensures this.cfg == cfg && View() == State(users, map[], 0)
    {
      this.cfg, this.users, sessions, next := cfg, users, map[], 0;
    }

    method IssuePair(user: UserId, account: AccountId, family: FamilyId, now: Instant)
      returns (id: SessionId, token: Token)
      modifies this`sessions, this`next
      ensures id == old(next) && token == old(next) + 1 && next == old(next) + 3
      ensures sessions == old(sessions)[id := NewSession(cfg, old(next), user, account, family, now)]
    {
      id, token := next, next + 1;
      sessions := sessions[id := NewSession(cfg, next, user, account, family, now)];
      next := next + 3;
    }

    method Find(token: Token) returns (found: Option<SessionId>)
      requires UniqueTokens(sessions)
      ensures found == Lookup(View(), token)
    {
      var ids := set id | id in sessions && sessions[id].token == token;
      assert forall id :: Holds(View(), id, token) ==> id in ids;
      if ids == {} {
        return None;
      }
      var id :| id in ids;
      assert Holds(View(), id, token);
      return Some(id);
    }

    method Login(user: UserId, password: nat, choice: AccountChoice, now: Instant) returns (r: Outcome)
      modifies this
      ensures (View(), r) == AuthenticateUser(cfg, old(View()), user, password, ChosenAccount(choice), now)
    {
      if user !in users || Locked(users[user], now) {
        return None;
      }
      var u := users[user];
      if password != u.password {
        u := u.(failedLoginAttempts := u.failedLoginAttempts + 1);
        if u.failedLoginAttempts >= cfg.loginMaxAttempts {
          u := u.(lockedUntil := Some(now + cfg.lockMicros), failedLoginAttempts := 0);
        }
        users := users[user := u];
        return None;
      }
      if !u.active {
        return None;
      }
      users := users[user := u.(failedLoginAttempts := 0, lockedUntil := None)];
      if choice.memberships == [] {
        return None;
      }
      var account: AccountId;
      if choice.requested.Some? {
        account := choice.requested.value;
        if account !in choice.memberships {
          return None;
        }
      } else if |choice.memberships| == 1 {
        account := choice.memberships[0];
      } else {
        return None;
      }
      if account !in choice.open {
        return None;
      }
      var id, token := IssuePair(user, account, next + 2, now);
      return Some(token);
    }

    /** `target` is an account the user may enter. */
    method SwitchAccount(session: SessionId, stamp: int, target: AccountId, now: Instant) returns (r: Outcome)
      modifies this`sessions, this`next
      ensures (View(), r) == SwitchToAccount(cfg, old(View()), session, stamp, target, now)
    {
      if session !in sessions || sessions[session].revokedAt.Some? || sessions[session].expiresAt <= now {
        return None;
      }
      var user := sessions[session].user;
      if user !in users || !users[user].active || stamp != PasswordStamp(users[user]) {
        return None;
      }
      var id, token := IssuePair(user, target, next + 2, now);
      return Some(token);
    }

    method Rotate(token: Token, now: Instant) returns (r: Outcome)
      requires UniqueTokens(sessions)
      requires forall id :: id in sessions ==> id < next
      modifies this`sessions, this`next
      ensures (View(), r) == RotateRefreshToken(cfg, old(View()), token, now)
    {
      var found := Find(token);
      if found.None? || sessions[found.value].expiresAt <= now {
        return None;
      }
      var id := found.value;
      var session := sessions[id];
      if session.revokedAt.Some? {
        sessions := sessions[id := session.(reuseDetectedAt := Some(now))];
        sessions := Revoked(sessions, FamilyIds(sessions, session.family), now);
        return None;
      }
      if session.user !in users || !users[session.user].active {
        return None;
      }
      var replacement, newToken := IssuePair(session.user, session.account, session.family, now);
      sessions := sessions[id := session.(revokedAt := Some(now), replacedBy := Some(replacement))];
      return Some(newToken);
    }

    method Logout(token: Token, now: Instant) returns (known: bool)
      requires UniqueTokens(sessions)
      modifies this`sessions
      ensures View() == RevokeRefreshToken(old(View()), token, now)
      ensures known <==> Lookup(old(View()), token).Some?
    {
      var found := Find(token);
      if found.None? {
        return false;
      }
      var session := sessions[found.value];
      if session.revokedAt.None? {
        sessions := sessions[found.value := session.(revokedAt := Some(now))];
      }
      assert sessions == Revoked(old(sessions), {found.value}, now);
      return true;
    }

    /** Loops over the user's unrevoked sessions, as read before the loop. */
    method RevokeAll(user: UserId, now: Instant) returns (count: nat)
      modifies this`sessions
      ensures View() == RevokeAllUserSessions(old(View()), user, now)
      ensures count == |LiveSessionIds(old(sessions), user)|
    {
      var items := LiveSessionIds(sessions, user);
      count := |items|;
      var left := items;
      while left != {}
        invariant left <= items
        invariant sessions == Revoked(old(sessions), items - left, now)
        decreases left
      {
        var id :| id in left;
        sessions := sessions[id := sessions[id].(revokedAt := Some(now))];
        left := left - {id};
      }
      assert items - left == items;
      RevokingLiveRevokesAll(old(sessions), user, now);
    }

    /** Revoking a user's live sessions leaves the table as revoking all of them would. */
    lemma RevokingLiveRevokesAll(table: map<SessionId, Session>, user: UserId, now: Instant)
      ensures Revoked(table, LiveSessionIds(table, user), now) == Revoked(table, UserSessionIds(table, user), now)
    {
    }

    method ResetPassword(claim: Option<(UserId, int)>, password: nat, now: Instant) returns (ok: bool)
      modifies this`users, this`sessions
      ensures View() == ResetPasswordWithToken(old(View()), claim, password, now)
      ensures ok <==> ResetAllowed(old(View()), claim)
    {
      if claim.None? || claim.value.0 !in users || !users[claim.value.0].active {
        return false;
      }
      var user := claim.value.0;
      var u := users[user];
      if claim.value.1 != PasswordStamp(u) {
        return false;
      }
      u := u.(password := password, passwordChangedAt := Some(now));
      users := users[user := u.(failedLoginAttempts := 0, lockedUntil := None)];
      var count := RevokeAll(user, now);
      return true;
    }
  }
}
