/** Who gets in with a password and when: every outcome of a login in terms of the account's row, and how locks begin and end. */
module SignIn {
  import opened Wrappers
  import opened Auth
  import opened Lockout

  // ---------------------------------------------------------------- one account per address

  ghost predicate UniqueEmails(users: seq<User>) {
    forall i, j | 0 <= i < j < |users| :: users[i].email != users[j].email
  }

  ghost predicate SameEmails(users: seq<User>, users': seq<User>) {
    |users| <= |users'| && forall i | 0 <= i < |users| :: users'[i].email == users[i].email
  }

  lemma StepKeepsEmails(cfg: Settings, s: State, op: Op)
    ensures SameEmails(s.users, Step(cfg, s, op).users)
    ensures UniqueEmails(s.users) ==> UniqueEmails(Step(cfg, s, op).users)
  {
    match op
    case LoginOp(_, _, _, _, _) =>
    case RefreshOp(_, _, _, _) =>
    case LogoutOp(_, _) =>
    case LogoutAllOp(_, _) =>
    case CreateUserOp(_, _, _, _, _) =>
    case ChangeRoleOp(_, _, _, _) =>
    case SetActiveOp(_, _, _, _) =>
  }

  /** Two accounts never come to share an address, and no account changes its own. */
  lemma {:induction false} RunKeepsEmails(cfg: Settings, s: State, ops: seq<Op>)
    ensures SameEmails(s.users, Run(cfg, s, ops).users)
    ensures UniqueEmails(s.users) ==> UniqueEmails(Run(cfg, s, ops).users)
  {
    if ops != [] {
      RunKeepsEmails(cfg, s, ops[..|ops| - 1]);
      StepKeepsEmails(cfg, Run(cfg, s, ops[..|ops| - 1]), ops[|ops| - 1]);
    }
  }

  // ---------------------------------------------------------------- one login

  /** A malformed address and one that no account has are answered alike, and nothing changes. */
  lemma UnknownAddressExactlyWhen(cfg: Settings, s: State, email: Option<string>, ok: bool, now: Time, minted: Digest, expires: Time)
    ensures
      var (s', outcome) := Login(cfg, s, email, ok, now, minted, expires);
      && (outcome == NoSuchUser <==> email.None? || forall i | 0 <= i < |s.users| :: s.users[i].email != email.value)
      && (outcome == NoSuchUser ==> s' == s)
  {
  }

  /** No lock, or one that is over. */
  ghost predicate Open(user: User, now: Time) {
    user.lockedUntil.None? || user.lockedUntil.value <= now
  }

  /** What each row and password gets, and what becomes of the row; no other row is touched. */
  lemma LoginExactlyWhen(cfg: Settings, s: State, id: UserId, ok: bool, now: Time, minted: Digest, expires: Time)
    requires UniqueEmails(s.users) && id < |s.users|
    ensures
      var user := s.users[id];
      var (s', outcome) := Login(cfg, s, Some(user.email), ok, now, minted, expires);
      var serving := user.isActive && user.tenant in s.activeTenants;
      && (outcome == LoggedIn(id) <==> Open(user, now) && ok && serving)
      && (outcome == Locked(id) <==> !Open(user, now))
      && (outcome == BadPassword(id) <==> Open(user, now) && !ok)
      && (outcome == Inactive(id) <==> Open(user, now) && ok && !serving)
      && (outcome == LoggedIn(id) ==> s'.users == s.users[id := user.(failedLogins := 0, lockedUntil := None)])
      && (outcome == BadPassword(id) && user.failedLogins + 1 < cfg.maxFailedLogins ==>
            s'.users == s.users[id := user.(failedLogins := user.failedLogins + 1)])
      && (outcome == BadPassword(id) && user.failedLogins + 1 >= cfg.maxFailedLogins ==>
            s'.users == s.users[id := user.(failedLogins := 0, lockedUntil := Some(now + cfg.lockout))])
      && (outcome == Locked(id) || outcome == Inactive(id) ==> s' == s)
  {
    assert FindUser(s.users, s.users[id].email) == Some(id);
  }

  // ---------------------------------------------------------------- locks over runs

  ghost predicate WrongTries(ops: seq<Op>, email: string) {
    forall k | 0 <= k < |ops| :: ops[k].LoginOp? && ops[k].email == Some(email) && !ops[k].passwordOk
  }

  lemma WrongTry(cfg: Settings, s: State, op: Op, id: UserId)
    requires UniqueEmails(s.users) && id < |s.users| && Open(s.users[id], op.now)
    requires op.LoginOp? && op.email == Some(s.users[id].email) && !op.passwordOk
    ensures id < |Step(cfg, s, op).users|
    ensures
      var user := s.users[id];
      Step(cfg, s, op).users[id] ==
        if user.failedLogins + 1 < cfg.maxFailedLogins then user.(failedLogins := user.failedLogins + 1)
        else user.(failedLogins := 0, lockedUntil := Some(op.now + cfg.lockout))
  {
    LoginExactlyWhen(cfg, s, id, false, op.now, op.minted, op.expires);
  }

  /** An account after a series of wrong passwords that brings its count to the limit at most. */
  ghost function AfterFailures(cfg: Settings, user: User, ops: seq<Op>): User {
    if ops == [] || user.failedLogins + |ops| < cfg.maxFailedLogins then user.(failedLogins := user.failedLogins + |ops|)
    else user.(failedLogins := 0, lockedUntil := Some(ops[|ops| - 1].now + cfg.lockout))
  }

  lemma NextFailure(cfg: Settings, mid: State, user: User, ops: seq<Op>, id: UserId)
    requires ops != [] && user.failedLogins + |ops| <= cfg.maxFailedLogins && WrongTries(ops, user.email)
    requires UniqueEmails(mid.users) && id < |mid.users| && mid.users[id] == AfterFailures(cfg, user, ops[..|ops| - 1])
    requires Open(user, ops[|ops| - 1].now)
    ensures id < |Step(cfg, mid, ops[|ops| - 1]).users|
    ensures Step(cfg, mid, ops[|ops| - 1]).users[id] == AfterFailures(cfg, user, ops)
  {
    WrongTry(cfg, mid, ops[|ops| - 1], id);
  }

  /** An open account is locked by exactly the failure that brings its count to the limit, for one lockout from then. */
  lemma {:induction false} FailuresLock(cfg: Settings, s: State, ops: seq<Op>, id: UserId)
    requires UniqueEmails(s.users) && id < |s.users| && 0 <= s.users[id].failedLogins < cfg.maxFailedLogins
    requires WrongTries(ops, s.users[id].email) && forall k | 0 <= k < |ops| :: Open(s.users[id], ops[k].now)
    requires s.users[id].failedLogins + |ops| <= cfg.maxFailedLogins
    ensures id < |Run(cfg, s, ops).users| && Run(cfg, s, ops).users[id] == AfterFailures(cfg, s.users[id], ops)
  {
    if ops != [] {
      var front := ops[..|ops| - 1];
      FailuresLock(cfg, s, front, id);
      RunKeepsEmails(cfg, s, front);
      NextFailure(cfg, Run(cfg, s, front), s.users[id], ops, id);
    }
  }

  /** Nothing done before a lock is over moves its end: not more passwords, right or wrong, nor anything but a login. */
  lemma {:induction false} LockIsNotProlonged(cfg: Settings, s: State, ops: seq<Op>, id: UserId)
    requires UniqueEmails(s.users) && id < |s.users|
    requires forall k | 0 <= k < |ops| && ops[k].LoginOp? && ops[k].email == Some(s.users[id].email) :: !Open(s.users[id], ops[k].now)
    ensures id < |Run(cfg, s, ops).users|
    ensures Run(cfg, s, ops).users[id].lockedUntil == s.users[id].lockedUntil
    ensures Run(cfg, s, ops).users[id].failedLogins == s.users[id].failedLogins
  {
    if ops != [] {
      var front, last := ops[..|ops| - 1], ops[|ops| - 1];
      var mid := Run(cfg, s, front);
      LockIsNotProlonged(cfg, s, front, id);
      RunKeepsEmails(cfg, s, front);
      OnlyLoginsCount(cfg, mid, last, id);
      if last.LoginOp? && last.email == Some(s.users[id].email) {
        LoginExactlyWhen(cfg, mid, id, last.passwordOk, last.now, last.minted, last.expires);
      }
    }
  }

  /** So from its end on, the right password opens a locked account exactly if the account and its tenant still serve. */
  lemma LockEnds(cfg: Settings, s: State, ops: seq<Op>, id: UserId, now: Time, minted: Digest, expires: Time)
    requires UniqueEmails(s.users) && id < |s.users| && s.users[id].lockedUntil.Some? && s.users[id].lockedUntil.value <= now
    requires forall k | 0 <= k < |ops| && ops[k].LoginOp? && ops[k].email == Some(s.users[id].email) :: !Open(s.users[id], ops[k].now)
    ensures id < |Run(cfg, s, ops).users|
    ensures
      var later := Run(cfg, s, ops);
      Login(cfg, later, Some(s.users[id].email), true, now, minted, expires).1 == LoggedIn(id)
      <==> later.users[id].isActive && later.users[id].tenant in later.activeTenants
  {
    LockIsNotProlonged(cfg, s, ops, id);
    RunKeepsEmails(cfg, s, ops);
    LoginExactlyWhen(cfg, Run(cfg, s, ops), id, true, now, minted, expires);
  }
}
