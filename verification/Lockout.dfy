/** How fast passwords can be tried against one account. */
module Lockout {
  import opened Wrappers
  import opened Auth

  /** The clock of a run never goes back. */
  ghost predicate Ordered(ops: seq<Op>) {
    forall i, j | 0 <= i < j < |ops| :: ops[i].now <= ops[j].now
  }

  ghost predicate NoSuccessfulLogin(cfg: Settings, s: State, ops: seq<Op>, id: UserId) {
    forall k | 0 <= k < |ops| :: OutcomeAt(cfg, s, ops, k) != LoggedIn(id)
  }

  function Counted(outcome: Outcome, id: UserId, now: Time, lo: Time, hi: Time): nat {
    if outcome == BadPassword(id) && lo <= now <= hi then 1 else 0
  }

  /** Wrong-password checks that reached the password of one account in the window [lo, hi]. */
  ghost function Checks(cfg: Settings, s: State, ops: seq<Op>, id: UserId, lo: Time, hi: Time): nat {
    if ops == [] then 0
    else
      Checks(cfg, s, ops[..|ops| - 1], id, lo, hi)
      + Counted(Perform(cfg, Run(cfg, s, ops[..|ops| - 1]), ops[|ops| - 1]).1, id, ops[|ops| - 1].now, lo, hi)
  }

  ghost predicate Sane(cfg: Settings) {
    cfg.maxFailedLogins >= 1 && cfg.lockout >= 1
  }

  /** The failure counter of every account stays below the limit. */
  ghost predicate CountersBelow(cfg: Settings, s: State) {
    forall i | 0 <= i < |s.users| :: 0 <= s.users[i].failedLogins < cfg.maxFailedLogins
  }

  lemma StepKeepsCounters(cfg: Settings, s: State, op: Op)
    requires Sane(cfg) && CountersBelow(cfg, s)
    ensures CountersBelow(cfg, Step(cfg, s, op))
  {
    match op
    case LoginOp(_, _, _, _, _) =>
    case RefreshOp(_, _, _, _) =>
    case LogoutOp(_, _) =>
    case LogoutAllOp(_, _) =>
    case CreateUserOp(_, _, _, _, _) =>
    case ChangeRoleOp(_, _, _, _) =>
    case SetActiveOp(_, _, _, _) =>
  }

  /** An operation other than a login changes nobody's counter or lock. */
  lemma OnlyLoginsCount(cfg: Settings, s: State, op: Op, id: UserId)
    requires id < |s.users|
    ensures id < |Step(cfg, s, op).users|
    ensures Perform(cfg, s, op).1 != BadPassword(id) && Perform(cfg, s, op).1 != LoggedIn(id) ==>
              && Step(cfg, s, op).users[id].failedLogins == s.users[id].failedLogins
              && Step(cfg, s, op).users[id].lockedUntil == s.users[id].lockedUntil
  {
  }

  /** A reached check finds the account unlocked and counts, or locks. */
  lemma CheckCounts(cfg: Settings, s: State, op: Op, id: UserId)
    requires id < |s.users| && Perform(cfg, s, op).1 == BadPassword(id)
    ensures op.LoginOp? && Step(cfg, s, op).users[id] == AfterFailure(cfg, s.users[id], op.now)
    ensures s.users[id].lockedUntil.Some? ==> s.users[id].lockedUntil.value <= op.now
  {
  }

  /** After `locks` lockouts begun in a window opened at `lo`, the account is locked for that many periods. */
  ghost predicate LockedFor(cfg: Settings, user: User, lo: Time, locks: nat) {
    locks == 0 || (user.lockedUntil.Some? && user.lockedUntil.value >= lo + locks * cfg.lockout)
  }

  ghost predicate Budget(cfg: Settings, s: State, id: UserId, lo: Time, locks: nat, checks: nat) {
    && id < |s.users| && CountersBelow(cfg, s)
    && checks <= cfg.maxFailedLogins * locks + s.users[id].failedLogins
    && LockedFor(cfg, s.users[id], lo, locks)
  }

  /** The failure limit times one more than the lockouts that fit in a window of length `span`. */
  ghost function Limit(cfg: Settings, span: Time): int
    requires cfg.lockout >= 1
  {
    cfg.maxFailedLogins * (span / cfg.lockout + 1)
  }

  lemma ProductMonotone(a: int, b: int, c: int)
    requires a <= b && c >= 0
    ensures c * a <= c * b
  {
  }

  lemma QuotientBound(locks: nat, period: int, span: int)
    requires period >= 1 && locks * period <= span
    ensures locks <= span / period
  {
    var q := span / period;
    assert span == period * q + span % period && period * (q + 1) == period * q + period;
    if locks > q {
      ProductMonotone(q + 1, locks, period);
    }
  }

  /** One more check keeps the budget and the limit. */
  lemma CheckFits(cfg: Settings, s: State, op: Op, id: UserId, lo: Time, hi: Time, locks: nat, checks: nat) returns (locks': nat)
    requires Sane(cfg) && Budget(cfg, s, id, lo, locks, checks)
    requires Perform(cfg, s, op).1 == BadPassword(id) && lo <= op.now <= hi
    ensures Budget(cfg, Step(cfg, s, op), id, lo, locks', checks + 1)
    ensures checks + 1 <= Limit(cfg, hi - lo)
  {
    CheckCounts(cfg, s, op, id);
    StepKeepsCounters(cfg, s, op);
    if locks > 0 {
      QuotientBound(locks, cfg.lockout, hi - lo);
    }
    ProductMonotone(locks, (hi - lo) / cfg.lockout, cfg.maxFailedLogins);
    assert cfg.maxFailedLogins * (locks + 1) == cfg.maxFailedLogins * locks + cfg.maxFailedLogins;
    assert Limit(cfg, hi - lo) == cfg.maxFailedLogins * ((hi - lo) / cfg.lockout) + cfg.maxFailedLogins;
    if s.users[id].failedLogins + 1 >= cfg.maxFailedLogins {
      locks' := locks + 1;
      assert (locks + 1) * cfg.lockout == locks * cfg.lockout + cfg.lockout;
    } else {
      locks' := locks;
    }
  }

  /** One operation no later than the window's end keeps the budget and the limit. */
  lemma StepFits(cfg: Settings, s: State, op: Op, id: UserId, lo: Time, hi: Time, locks: nat, checks: nat) returns (locks': nat)
    requires Sane(cfg) && Budget(cfg, s, id, lo, locks, checks) && checks <= Limit(cfg, hi - lo)
    requires Perform(cfg, s, op).1 != LoggedIn(id) && op.now <= hi && (op.now < lo ==> checks == 0)
    ensures Budget(cfg, Step(cfg, s, op), id, lo, locks', checks + Counted(Perform(cfg, s, op).1, id, op.now, lo, hi))
    ensures checks + Counted(Perform(cfg, s, op).1, id, op.now, lo, hi) <= Limit(cfg, hi - lo)
  {
    OnlyLoginsCount(cfg, s, op, id);
    StepKeepsCounters(cfg, s, op);
    locks' := locks;
    if Perform(cfg, s, op).1 == BadPassword(id) {
      if op.now < lo {
        locks' := 0;
      } else {
        locks' := CheckFits(cfg, s, op, id, lo, hi, locks, checks);
      }
    }
  }

  /** While the window has not opened nothing is counted; while it has not closed the budget holds. */
  lemma {:induction false} WindowBudget(cfg: Settings, s: State, ops: seq<Op>, id: UserId, lo: Time, hi: Time) returns (locks: nat)
    requires Sane(cfg) && lo <= hi && id < |s.users| && CountersBelow(cfg, s)
    requires Ordered(ops) && NoSuccessfulLogin(cfg, s, ops, id)
    ensures Checks(cfg, s, ops, id, lo, hi) <= Limit(cfg, hi - lo)
    ensures id < |Run(cfg, s, ops).users|
    ensures ops != [] && ops[|ops| - 1].now < lo ==> Checks(cfg, s, ops, id, lo, hi) == 0
    ensures (ops == [] || ops[|ops| - 1].now <= hi) ==>
              Budget(cfg, Run(cfg, s, ops), id, lo, locks, Checks(cfg, s, ops, id, lo, hi))
  {
    if ops == [] {
      locks := 0;
      ProductMonotone(0, (hi - lo) / cfg.lockout + 1, cfg.maxFailedLogins);
    } else {
      var front, op := ops[..|ops| - 1], ops[|ops| - 1];
      var mid := Run(cfg, s, front);
      FrontIsQuiet(cfg, s, ops, id);
      locks := WindowBudget(cfg, s, front, id, lo, hi);
      OnlyLoginsCount(cfg, mid, op, id);
      if op.now <= hi {
        locks := StepFits(cfg, mid, op, id, lo, hi, locks, Checks(cfg, s, front, id, lo, hi));
      }
    }
  }

  lemma FrontIsQuiet(cfg: Settings, s: State, ops: seq<Op>, id: UserId)
    requires Ordered(ops) && NoSuccessfulLogin(cfg, s, ops, id) && ops != []
    ensures Ordered(ops[..|ops| - 1]) && NoSuccessfulLogin(cfg, s, ops[..|ops| - 1], id)
    ensures Perform(cfg, Run(cfg, s, ops[..|ops| - 1]), ops[|ops| - 1]).1 != LoggedIn(id)
    ensures |ops| > 1 ==> ops[|ops| - 2].now <= ops[|ops| - 1].now
  {
    var front := ops[..|ops| - 1];
    assert OutcomeAt(cfg, s, ops, |front|) == Perform(cfg, Run(cfg, s, front), ops[|front|]).1;
    forall k | 0 <= k < |front| ensures OutcomeAt(cfg, s, front, k) != LoggedIn(id) {
      assert front[..k] == ops[..k] && front[k] == ops[k];
      assert OutcomeAt(cfg, s, front, k) == OutcomeAt(cfg, s, ops, k);
    }
  }

  /**
   The rate bound: with no successful login, the checks that reach one account's password in any window [lo, hi]
   number at most the failure limit times one more than the lockouts that fit in the window.
   */
  lemma LockoutRateBound(cfg: Settings, s: State, ops: seq<Op>, id: UserId, lo: Time, hi: Time)
    requires Sane(cfg) && lo <= hi
    requires id < |s.users| && CountersBelow(cfg, s)
    requires Ordered(ops) && NoSuccessfulLogin(cfg, s, ops, id)
    ensures Checks(cfg, s, ops, id, lo, hi) <= Limit(cfg, hi - lo)
  {
    var _ := WindowBudget(cfg, s, ops, id, lo, hi);
  }
}
