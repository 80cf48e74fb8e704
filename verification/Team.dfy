/** What serial team management can never do. */
module Team {
  import opened Wrappers
  import opened Rbac
  import opened Auth
  import opened TokenRotation

  // ---------------------------------------------------------------- the last owner

  lemma {:induction false} OwnersAfterUpdate(users: seq<User>, i: nat, user: User, tenant: TenantId)
    requires i < |users|
    ensures ActiveOwners(users[i := user], tenant)
         == ActiveOwners(users, tenant) - OwnerWeight(users[i], tenant) + OwnerWeight(user, tenant)
  {
    var front := users[..|users| - 1];
    if i < |front| {
      assert users[i := user][..|users| - 1] == front[i := user];
      OwnersAfterUpdate(front, i, user, tenant);
    } else {
      assert users[i := user][..|users| - 1] == front;
    }
  }

  lemma {:induction false} SameOwners(users: seq<User>, users': seq<User>, tenant: TenantId)
    requires |users| == |users'| && forall i | 0 <= i < |users| :: OwnerWeight(users[i], tenant) == OwnerWeight(users'[i], tenant)
    ensures ActiveOwners(users, tenant) == ActiveOwners(users', tenant)
  {
    if users != [] {
      SameOwners(users[..|users| - 1], users'[..|users'| - 1], tenant);
    }
  }

  /** The one row an operation may rewrite. */
  lemma TargetUpdate(cfg: Settings, s: State, op: Op, tenant: TenantId)
    requires (op.ChangeRoleOp? || op.SetActiveOp?) && Perform(cfg, s, op).1 == Done
    ensures op.target < |s.users|
    ensures ActiveOwners(Step(cfg, s, op).users, tenant)
         == ActiveOwners(s.users, tenant) - OwnerWeight(s.users[op.target], tenant)
            + OwnerWeight(Step(cfg, s, op).users[op.target], tenant)
  {
    OwnersAfterUpdate(s.users, op.target, Step(cfg, s, op).users[op.target], tenant);
    assert Step(cfg, s, op).users == s.users[op.target := Step(cfg, s, op).users[op.target]];
  }

  lemma StepKeepsAnOwner(cfg: Settings, s: State, op: Op, tenant: TenantId)
    requires ActiveOwners(s.users, tenant) >= 1
    ensures ActiveOwners(Step(cfg, s, op).users, tenant) >= 1
  {
    var users' := Step(cfg, s, op).users;
    match op
    case CreateUserOp(_, _, _, _, _) =>
      if |users'| > |s.users| {
        assert users'[..|users'| - 1] == s.users;
      }
    case ChangeRoleOp(_, _, _, _) =>
      if Perform(cfg, s, op).1 == Done {
        TargetUpdate(cfg, s, op, tenant);
      }
    case SetActiveOp(_, _, _, _) =>
      if Perform(cfg, s, op).1 == Done {
        TargetUpdate(cfg, s, op, tenant);
      }
    case _ => SameOwners(s.users, users', tenant);
  }

  /** A tenant that has an active owner has one after every run. */
  lemma {:induction false} AlwaysAnOwner(cfg: Settings, s: State, ops: seq<Op>, tenant: TenantId)
    requires ActiveOwners(s.users, tenant) >= 1
    ensures ActiveOwners(Run(cfg, s, ops).users, tenant) >= 1
  {
    if ops != [] {
      AlwaysAnOwner(cfg, s, ops[..|ops| - 1], tenant);
      StepKeepsAnOwner(cfg, Run(cfg, s, ops[..|ops| - 1]), ops[|ops| - 1], tenant);
    }
  }

  /** Logging in, refreshing and logging out change nobody's standing. */
  lemma StandingAfterOther(cfg: Settings, s: State, op: Op)
    requires op.LoginOp? || op.RefreshOp? || op.LogoutOp? || op.LogoutAllOp?
    ensures var users' := Step(cfg, s, op).users;
            |users'| == |s.users| && forall i | 0 <= i < |users'| :: SameStanding(s.users[i], users'[i])
  {
  }

  /**
   A team operation adds one user or rewrites one row, in its actor's own tenant, and gives or takes nothing at or
   above its actor's level except that an owner may manage owners.
   */
  ghost predicate TeamChange(users: seq<User>, users': seq<User>, actor: UserId)
    requires actor < |users|
  {
    || users' == users
    || (&& |users'| == |users| + 1 && (forall i | 0 <= i < |users| :: users'[i] == users[i])
        && users'[|users|].tenant == users[actor].tenant && Level(users'[|users|].role) < Level(users[actor].role))
    || (&& |users'| == |users|
        && exists t: nat :: t < |users| && (forall i | 0 <= i < |users| && i != t :: users'[i] == users[i])
                        && users[t].tenant == users'[t].tenant == users[actor].tenant
                        && (users[actor].role == Owner || Level(users[t].role) < Level(users[actor].role))
                        && (users'[t].role == users[t].role || Level(users'[t].role) < Level(users[actor].role)))
  }

  lemma TeamOperationChanges(cfg: Settings, s: State, op: Op)
    requires ActorOf(op).Some? && ActorOf(op).value < |s.users|
    ensures TeamChange(s.users, Step(cfg, s, op).users, ActorOf(op).value)
  {
  }

  lemma StepMakesNoOwner(cfg: Settings, s: State, op: Op, id: UserId)
    requires id < |Step(cfg, s, op).users| && Step(cfg, s, op).users[id].role == Owner
    ensures id < |s.users| && s.users[id].role == Owner
  {
    if ActorOf(op).None? {
      StandingAfterOther(cfg, s, op);
    } else if ActorOf(op).value < |s.users| {
      TeamOperationChanges(cfg, s, op);
    }
  }

  /** The owner role is never handed out: whoever holds it at the end held it at the start. */
  lemma {:induction false} OwnersAreOriginal(cfg: Settings, s: State, ops: seq<Op>, id: UserId)
    requires id < |Run(cfg, s, ops).users| && Run(cfg, s, ops).users[id].role == Owner
    ensures id < |s.users| && s.users[id].role == Owner
  {
    if ops != [] {
      StepMakesNoOwner(cfg, Run(cfg, s, ops[..|ops| - 1]), ops[|ops| - 1], id);
      OwnersAreOriginal(cfg, s, ops[..|ops| - 1], id);
    }
  }

  // ---------------------------------------------------------------- the ceiling of a group of actors

  function ActorOf(op: Op): Option<UserId> {
    match op
    case CreateUserOp(_, actor, _, _, _) => Some(actor)
    case ChangeRoleOp(_, actor, _, _) => Some(actor)
    case SetActiveOp(_, actor, _, _) => Some(actor)
    case _ => None
  }

  /** Team operations in a run come only from people who started at or below `level`, or were added during the run. */
  ghost predicate ActorsStartBelow(s: State, ops: seq<Op>, level: int) {
    forall k | 0 <= k < |ops| ::
      ActorOf(ops[k]).Some? && ActorOf(ops[k]).value < |s.users| ==> Level(s.users[ActorOf(ops[k]).value].role) <= level
  }

  /** What team management can change of a user. */
  ghost predicate SameStanding(a: User, b: User) {
    a.tenant == b.tenant && a.role == b.role && a.isActive == b.isActive
  }

  /** How a later state may differ from `s` when everyone acting started at or below `level`. */
  ghost predicate BelowCeiling(s: State, s': State, level: int) {
    && |s.users| <= |s'.users|
    && (forall i | 0 <= i < |s.users| && Level(s.users[i].role) >= level :: SameStanding(s.users[i], s'.users[i]))
    && (forall i | 0 <= i < |s.users| && Level(s.users[i].role) < level :: Level(s'.users[i].role) < level)
    && (forall i | |s.users| <= i < |s'.users| :: Level(s'.users[i].role) < level)
  }

  lemma StepBelowCeiling(cfg: Settings, s: State, mid: State, op: Op, level: int)
    requires level < OWNER_LEVEL && BelowCeiling(s, mid, level)
    requires ActorsStartBelow(s, [op], level)
    ensures BelowCeiling(s, Step(cfg, mid, op), level)
  {
    assert ActorOf([op][0]) == ActorOf(op);
    if ActorOf(op).None? {
      StandingAfterOther(cfg, mid, op);
    } else if ActorOf(op).value < |mid.users| {
      assert Level(mid.users[ActorOf(op).value].role) <= level;
      TeamOperationChanges(cfg, mid, op);
    }
  }

  /**
   Below the owner level nobody climbs: in a run whose actors all start at or below `level`, nobody who started
   at `level` or above is altered, nobody else reaches `level`, and no new user does.
   */
  lemma {:induction false} NobodyClimbs(cfg: Settings, s: State, ops: seq<Op>, level: int)
    requires level < OWNER_LEVEL && ActorsStartBelow(s, ops, level)
    ensures BelowCeiling(s, Run(cfg, s, ops), level)
  {
    if ops != [] {
      NobodyClimbs(cfg, s, ops[..|ops| - 1], level);
      assert ActorsStartBelow(s, [ops[|ops| - 1]], level);
      StepBelowCeiling(cfg, s, Run(cfg, s, ops[..|ops| - 1]), ops[|ops| - 1], level);
    }
  }

  // ---------------------------------------------------------------- tenant isolation

  /** Team operations in a run come only from people outside `tenant`. */
  ghost predicate ActorsOutside(cfg: Settings, s: State, ops: seq<Op>, tenant: TenantId) {
    forall k | 0 <= k < |ops| ::
      ActorOf(ops[k]).Some? && ActorOf(ops[k]).value < |Run(cfg, s, ops[..k]).users|
      ==> Run(cfg, s, ops[..k]).users[ActorOf(ops[k]).value].tenant != tenant
  }

  /** The people of a tenant, and what they may do, are the same in both tables. */
  ghost predicate SameStaff(users: seq<User>, users': seq<User>, tenant: TenantId) {
    && |users| <= |users'|
    && (forall i | 0 <= i < |users| && users[i].tenant == tenant :: SameStanding(users[i], users'[i]))
    && (forall i | 0 <= i < |users'| && users'[i].tenant == tenant :: i < |users| && users[i].tenant == tenant)
  }

  lemma StepKeepsStaff(cfg: Settings, s: State, op: Op, tenant: TenantId)
    requires ActorOf(op).Some? && ActorOf(op).value < |s.users| ==> s.users[ActorOf(op).value].tenant != tenant
    ensures SameStaff(s.users, Step(cfg, s, op).users, tenant)
  {
    if ActorOf(op).None? {
      StandingAfterOther(cfg, s, op);
    } else if ActorOf(op).value < |s.users| {
      TeamOperationChanges(cfg, s, op);
    }
  }

  /** Nobody outside a tenant can add to it, change a role in it, or switch anyone in it on or off. */
  lemma {:induction false} TenantIsolation(cfg: Settings, s: State, ops: seq<Op>, tenant: TenantId)
    requires ActorsOutside(cfg, s, ops, tenant)
    ensures SameStaff(s.users, Run(cfg, s, ops).users, tenant)
  {
    if ops != [] {
      var front := ops[..|ops| - 1];
      forall k | 0 <= k < |front| && ActorOf(front[k]).Some? && ActorOf(front[k]).value < |Run(cfg, s, front[..k]).users|
        ensures Run(cfg, s, front[..k]).users[ActorOf(front[k]).value].tenant != tenant
      {
        assert front[..k] == ops[..k] && front[k] == ops[k];
      }
      TenantIsolation(cfg, s, front, tenant);
      StepKeepsStaff(cfg, Run(cfg, s, front), ops[|front|], tenant);
    }
  }

  // ---------------------------------------------------------------- what is granted, and that it takes effect

  /** The roles each role may hand out, and the roles whose holders it may change. */
  function Grantable(role: Role): set<Role> {
    match role
    case Owner => {Admin, Manager, Agent, Viewer}
    case Admin => {Manager, Agent, Viewer}
    case Manager => {}
    case Agent => {}
    case Viewer => {}
  }

  function Manageable(role: Role): set<Role> {
    match role
    case Owner => {Owner, Admin, Manager, Agent, Viewer}
    case Admin => {Manager, Agent, Viewer}
    case Manager => {}
    case Agent => {}
    case Viewer => {}
  }

  /** The two guards, role by role. */
  lemma GuardsByRole(actor: Role, other: Role)
    ensures CanAssignRole(actor, other) <==> other in Grantable(actor)
    ensures CanManageUser(actor, other) <==> other in Manageable(actor)
  {
  }

  ghost function ActiveOwnerIds(users: seq<User>, tenant: TenantId): set<UserId> {
    set i: nat | i < |users| && users[i].tenant == tenant && users[i].role == Owner && users[i].isActive
  }

  /** The count is of the tenant's active owners. */
  lemma {:induction false} OwnersCounted(users: seq<User>, tenant: TenantId)
    ensures ActiveOwners(users, tenant) == |ActiveOwnerIds(users, tenant)|
  {
    if users != [] {
      var front := users[..|users| - 1];
      OwnersCounted(front, tenant);
      var ids := ActiveOwnerIds(front, tenant);
      if OwnerWeight(users[|front|], tenant) == 1 {
        assert ActiveOwnerIds(users, tenant) == ids + {|front|};
      } else {
        assert ActiveOwnerIds(users, tenant) == ids;
      }
    }
  }

  /** A user is created exactly in the actor's own tenant, with a role the actor may hand out, at an acceptable free address. */
  lemma CreatedExactlyWhen(s: State, actor: UserId, email: Option<string>, role: Role, tenant: Option<TenantId>)
    requires actor < |s.users|
    ensures
      var (s', outcome) := CreateUser(s, actor, email, role, tenant);
      var home := s.users[actor].tenant;
      var permitted := (tenant.None? || tenant.value == home) && role in Grantable(s.users[actor].role);
      var taken := email.Some? && exists i :: 0 <= i < |s.users| && s.users[i].email == email.value;
      && (outcome == Done <==> permitted && email.Some? && !taken)
      && (outcome == Denied <==> !permitted)
      && (outcome == Conflict <==> permitted && taken)
      && (outcome != Done ==> s' == s)
      && (outcome == Done ==>
            && s' == s.(users := s'.users) && |s'.users| == |s.users| + 1 && s.users <= s'.users
            && var user := s'.users[|s.users|];
               && user.tenant == home && user.email == email.value && user.role == role && user.isActive
               && user.failedLogins == 0 && user.lockedUntil.None? && user.tokenVersion == 0)
  {
    GuardsByRole(s.users[actor].role, role);
  }

  /**
   A role change is granted exactly to somebody else in the actor's tenant whose present and new role the actor may
   deal with, unless it takes a tenant's last active owner; then the row, its version and its refresh tokens change,
   and nothing else does.
   */
  lemma RoleChangedExactlyWhen(s: State, actor: UserId, target: UserId, role: Role, now: Time)
    requires actor < |s.users| && target < |s.users|
    ensures
      var (s', outcome) := ChangeRole(s, actor, target, role, now);
      var a, t := s.users[actor], s.users[target];
      var permitted := t.tenant == a.tenant && target != actor && t.role in Manageable(a.role) && role in Grantable(a.role);
      var last := t.role == Owner && |ActiveOwnerIds(s.users, t.tenant)| <= 1;
      && (outcome == Done <==> permitted && !last)
      && (outcome == Denied <==> !permitted)
      && (outcome == Conflict <==> permitted && last)
      && (outcome != Done ==> s' == s)
      && (outcome == Done ==>
            && s'.users == s.users[target := t.(role := role, tokenVersion := t.tokenVersion + 1)]
            && Purged(s.tokens, s'.tokens, target, now) && s'.issued == s.issued && s'.activeTenants == s.activeTenants)
  {
    GuardsByRole(s.users[actor].role, s.users[target].role);
    GuardsByRole(s.users[actor].role, role);
    OwnersCounted(s.users, s.users[target].tenant);
  }

  /**
   Switching somebody on or off likewise, except that people may switch themselves on, and that switching on leaves
   refresh tokens alone.
   */
  lemma SwitchedExactlyWhen(s: State, actor: UserId, target: UserId, active: bool, now: Time)
    requires actor < |s.users| && target < |s.users|
    ensures
      var (s', outcome) := SetActive(s, actor, target, active, now);
      var a, t := s.users[actor], s.users[target];
      var permitted := t.tenant == a.tenant && (target == actor ==> active) && t.role in Manageable(a.role);
      var last := !active && t.role == Owner && |ActiveOwnerIds(s.users, t.tenant)| <= 1;
      && (outcome == Done <==> permitted && !last)
      && (outcome == Denied <==> !permitted)
      && (outcome == Conflict <==> permitted && last)
      && (outcome != Done ==> s' == s)
      && (outcome == Done ==>
            && s'.users == s.users[target := t.(isActive := active, tokenVersion := t.tokenVersion + 1)]
            && (if active then s'.tokens == s.tokens else Purged(s.tokens, s'.tokens, target, now))
            && s'.issued == s.issued && s'.activeTenants == s.activeTenants)
  {
    GuardsByRole(s.users[actor].role, s.users[target].role);
    OwnersCounted(s.users, s.users[target].tenant);
  }

  /** A granted role change or switch-off is complete: the row, the version and every refresh token of the target. */
  lemma ChangesTakeEffect(cfg: Settings, s: State, op: Op)
    requires (op.ChangeRoleOp? || op.SetActiveOp?) && Perform(cfg, s, op).1 == Done
    ensures op.actor < |s.users| && op.target < |s.users|
    ensures
      var s' := Step(cfg, s, op);
      && s'.users[op.target].tokenVersion == s.users[op.target].tokenVersion + 1
      && (op.ChangeRoleOp? ==> s'.users[op.target].role == op.role && op.actor != op.target)
      && (op.SetActiveOp? ==> s'.users[op.target].isActive == op.active && (op.actor == op.target ==> op.active))
      && (op.ChangeRoleOp? || !op.active ==>
            forall i | 0 <= i < |s'.tokens| && s'.tokens[i].user == op.target :: s'.tokens[i].revokedAt.Some?)
  {
  }
}
