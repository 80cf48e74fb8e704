/**
 Accounts, refresh tokens and team management. Each service operation is one atomic step on the tables; the
 class performs it in place and is proved against a function from state to state, which the runs are made of.
 */
module Auth {
  import opened Wrappers
  import opened Rbac

  type UserId = nat
  type Digest = nat
  type Time = int

  /** A row's id is its place in the table. */
  datatype User = User(
    tenant: TenantId,
    email: string,
    role: Role,
    isActive: bool,
    tokenVersion: int,
    failedLogins: int,
    lockedUntil: Option<Time>)

  datatype RefreshToken = RefreshToken(
    user: UserId,
    digest: Digest,
    expiresAt: Time,
    usedAt: Option<Time>,
    revokedAt: Option<Time>,
    replacedBy: Option<nat>)

  /** The signed content of an access token. */
  datatype Claims = Claims(user: UserId, tenant: TenantId, version: int)

  /** `issued` remembers every access token ever minted. */
  datatype State = State(
    users: seq<User>,
    tokens: seq<RefreshToken>,
    issued: seq<Claims>,
    activeTenants: set<TenantId>)

  datatype Settings = Settings(maxFailedLogins: int, lockout: Time)

  /** What an operation did. Callers are shown one generic failure; this is what the audit row records. */
  datatype Outcome =
    | LoggedIn(user: UserId)
    | NoSuchUser
    | Locked(user: UserId)
    | BadPassword(user: UserId)
    | Inactive(user: UserId)
    | Rotated(token: nat)
    | Reused(token: nat)
    | Refused
    | Revoked(count: nat)
    | Done
    | Denied
    | Conflict

  // ---------------------------------------------------------------- lookups

  function FindUser(users: seq<User>, email: string): (r: Option<UserId>)
    ensures r.Some? ==> r.value < |users| && users[r.value].email == email
    ensures r.None? ==> forall i | 0 <= i < |users| :: users[i].email != email
  {
    if users == [] then None
    else if users[|users| - 1].email == email then Some(|users| - 1)
    else FindUser(users[..|users| - 1], email)
  }

  function FindToken(tokens: seq<RefreshToken>, digest: Digest): (r: Option<nat>)
    ensures r.Some? ==> r.value < |tokens| && tokens[r.value].digest == digest
    ensures r.None? ==> forall i | 0 <= i < |tokens| :: tokens[i].digest != digest
  {
    if tokens == [] then None
    else if tokens[|tokens| - 1].digest == digest then Some(|tokens| - 1)
    else FindToken(tokens[..|tokens| - 1], digest)
  }

  predicate TenantServes(s: State, user: UserId)
    requires user < |s.users|
  {
    s.users[user].tenant in s.activeTenants
  }

  function SetUser(s: State, id: UserId, user: User): State
    requires id < |s.users|
  {
    s.(users := s.users[id := user])
  }

  // ---------------------------------------------------------------- login

  predicate IsLocked(user: User, now: Time) {
    user.lockedUntil.Some? && user.lockedUntil.value > now
  }

  function AfterFailure(cfg: Settings, user: User, now: Time): User {
    if user.failedLogins + 1 >= cfg.maxFailedLogins then
      user.(failedLogins := 0, lockedUntil := Some(now + cfg.lockout))
    else user.(failedLogins := user.failedLogins + 1)
  }

  /** `email` is None for a malformed address; `passwordOk` is the password hash's verdict. */
  function Authenticate(cfg: Settings, s: State, email: Option<string>, passwordOk: bool, now: Time): (State, Outcome) {
    if email.None? || FindUser(s.users, email.value).None? then (s, NoSuchUser)
    else
      var id := FindUser(s.users, email.value).value;
      var user := s.users[id];
      if IsLocked(user, now) then (s, Locked(id))
      else if !passwordOk then (SetUser(s, id, AfterFailure(cfg, user, now)), BadPassword(id))
      else if !user.isActive || !TenantServes(s, id) then (s, Inactive(id))
      else (SetUser(s, id, user.(failedLogins := 0, lockedUntil := None)), LoggedIn(id))
  }

  function ClaimsOf(s: State, id: UserId): Claims
    requires id < |s.users|
  {
    Claims(id, s.users[id].tenant, s.users[id].tokenVersion)
  }

  function NewToken(id: UserId, minted: Digest, expires: Time): RefreshToken {
    RefreshToken(id, minted, expires, None, None, None)
  }

  /** Mint an access token and a refresh token; None when the digest is already taken. */
  function Issue(s: State, id: UserId, minted: Digest, expires: Time): Option<State>
    requires id < |s.users|
  {
    if FindToken(s.tokens, minted).Some? then None
    else Some(s.(tokens := s.tokens + [NewToken(id, minted, expires)], issued := s.issued + [ClaimsOf(s, id)]))
  }

  function Login(cfg: Settings, s: State, email: Option<string>, passwordOk: bool, now: Time, minted: Digest, expires: Time)
    : (r: (State, Outcome))
    ensures r.1.LoggedIn? || r.1.BadPassword? ==> r.1.user < |s.users|
  {
    var (s', outcome) := Authenticate(cfg, s, email, passwordOk, now);
    if outcome.LoggedIn? && Issue(s', outcome.user, minted, expires).Some? then
      (Issue(s', outcome.user, minted, expires).value, outcome)
    else (s', outcome)
  }

  // ---------------------------------------------------------------- refresh tokens

  function RevokedFor(token: RefreshToken, id: UserId, now: Time): RefreshToken {
    if token.user == id && token.revokedAt.None? then token.(revokedAt := Some(now)) else token
  }

  function RevokeTokens(tokens: seq<RefreshToken>, id: UserId, now: Time): (r: seq<RefreshToken>)
    ensures |r| == |tokens|
    ensures forall i | 0 <= i < |tokens| :: r[i] == RevokedFor(tokens[i], id, now)
  {
    if tokens == [] then []
    else RevokeTokens(tokens[..|tokens| - 1], id, now) + [RevokedFor(tokens[|tokens| - 1], id, now)]
  }

  /** How many of a user's refresh tokens are not revoked. */
  function LiveTokens(tokens: seq<RefreshToken>, id: UserId): nat {
    if tokens == [] then 0
    else
      var last := tokens[|tokens| - 1];
      LiveTokens(tokens[..|tokens| - 1], id) + if last.user == id && last.revokedAt.None? then 1 else 0
  }

  /** Revoke every live refresh token of a user, and with `bump` every access token too. */
  function RevokeAll(s: State, id: UserId, bump: bool, now: Time): State {
    var s' := s.(tokens := RevokeTokens(s.tokens, id, now));
    if bump && id < |s.users| then SetUser(s', id, s.users[id].(tokenVersion := s.users[id].tokenVersion + 1)) else s'
  }

  /** A refresh token is exchanged once; seeing it again costs its user every token. */
  function Rotate(s: State, digest: Digest, now: Time, minted: Digest, expires: Time): (State, Outcome) {
    if FindToken(s.tokens, digest).None? then (s, Refused)
    else
      var t := FindToken(s.tokens, digest).value;
      var token := s.tokens[t];
      if token.usedAt.Some? || token.revokedAt.Some? then (RevokeAll(s, token.user, true, now), Reused(t))
      else if token.expiresAt <= now then (s, Refused)
      else if token.user >= |s.users| || !s.users[token.user].isActive || !TenantServes(s, token.user) then (s, Refused)
      else if FindToken(s.tokens, minted).Some? then (s, Refused)
      else
        var used := s.tokens[t := token.(usedAt := Some(now), replacedBy := Some(|s.tokens|))];
        (s.(tokens := used + [NewToken(token.user, minted, expires)], issued := s.issued + [ClaimsOf(s, token.user)]), Rotated(t))
  }

  function Logout(s: State, digest: Digest, now: Time): (State, Outcome) {
    if FindToken(s.tokens, digest).None? || s.tokens[FindToken(s.tokens, digest).value].revokedAt.Some? then (s, Refused)
    else
      var t := FindToken(s.tokens, digest).value;
      (s.(tokens := s.tokens[t := s.tokens[t].(revokedAt := Some(now))]), Revoked(1))
  }

  /** The access-token test: the row decides, not the token. */
  predicate Accepts(s: State, claims: Claims) {
    && claims.user < |s.users| && s.users[claims.user].isActive
    && s.users[claims.user].tenant == claims.tenant
    && s.users[claims.user].tokenVersion == claims.version
  }

  // ---------------------------------------------------------------- team management

  function OwnerWeight(user: User, tenant: TenantId): nat {
    if user.tenant == tenant && user.role == Owner && user.isActive then 1 else 0
  }

  function ActiveOwners(users: seq<User>, tenant: TenantId): nat {
    if users == [] then 0
    else ActiveOwners(users[..|users| - 1], tenant) + OwnerWeight(users[|users| - 1], tenant)
  }

  function NewUser(tenant: TenantId, email: string, role: Role): User {
    User(tenant, email, role, true, 0, 0, None)
  }

  /** `email` is None when the address or the password is not acceptable. */
  function CreateUser(s: State, actor: UserId, email: Option<string>, role: Role, tenant: Option<TenantId>): (State, Outcome)
    requires actor < |s.users|
  {
    if tenant.Some? && tenant.value != s.users[actor].tenant then (s, Denied)
    else if !CanAssignRole(s.users[actor].role, role) then (s, Denied)
    else if email.None? then (s, Refused)
    else if FindUser(s.users, email.value).Some? then (s, Conflict)
    else (s.(users := s.users + [NewUser(s.users[actor].tenant, email.value, role)]), Done)
  }

  function ChangeRole(s: State, actor: UserId, target: UserId, role: Role, now: Time): (State, Outcome)
    requires actor < |s.users| && target < |s.users|
  {
    var a, t := s.users[actor], s.users[target];
    if t.tenant != a.tenant || target == actor then (s, Denied)
    else if !CanManageUser(a.role, t.role) || !CanAssignRole(a.role, role) then (s, Denied)
    else if t.role == Owner && role != Owner && ActiveOwners(s.users, t.tenant) <= 1 then (s, Conflict)
    else (RevokeAll(SetUser(s, target, t.(role := role, tokenVersion := t.tokenVersion + 1)), target, false, now), Done)
  }

  function SetActive(s: State, actor: UserId, target: UserId, active: bool, now: Time): (State, Outcome)
    requires actor < |s.users| && target < |s.users|
  {
    var a, t := s.users[actor], s.users[target];
    if t.tenant != a.tenant || (target == actor && !active) then (s, Denied)
    else if !CanManageUser(a.role, t.role) then (s, Denied)
    else if !active && t.role == Owner && ActiveOwners(s.users, t.tenant) <= 1 then (s, Conflict)
    else
      var s' := SetUser(s, target, t.(isActive := active, tokenVersion := t.tokenVersion + 1));
      (if active then s' else RevokeAll(s', target, false, now), Done)
  }

  // ---------------------------------------------------------------- runs

  datatype Op =
    | LoginOp(now: Time, email: Option<string>, passwordOk: bool, minted: Digest, expires: Time)
    | RefreshOp(now: Time, digest: Digest, minted: Digest, expires: Time)
    | LogoutOp(now: Time, digest: Digest)
    | LogoutAllOp(now: Time, user: UserId)
    | CreateUserOp(now: Time, actor: UserId, email: Option<string>, role: Role, tenant: Option<TenantId>)
    | ChangeRoleOp(now: Time, actor: UserId, target: UserId, role: Role)
    | SetActiveOp(now: Time, actor: UserId, target: UserId, active: bool)

  /** A request naming a user that does not exist is turned away before the service is reached. */
  function Perform(cfg: Settings, s: State, op: Op): (State, Outcome) {
    match op
    case LoginOp(now, email, passwordOk, minted, expires) => Login(cfg, s, email, passwordOk, now, minted, expires)
    case RefreshOp(now, digest, minted, expires) => Rotate(s, digest, now, minted, expires)
    case LogoutOp(now, digest) => Logout(s, digest, now)
    case LogoutAllOp(now, user) => if user < |s.users| then (RevokeAll(s, user, true, now), Done) else (s, Refused)
    case CreateUserOp(_, actor, email, role, tenant) =>
      if actor < |s.users| then CreateUser(s, actor, email, role, tenant) else (s, Refused)
    case ChangeRoleOp(now, actor, target, role) =>
      if actor < |s.users| && target < |s.users| then ChangeRole(s, actor, target, role, now) else (s, Refused)
    case SetActiveOp(now, actor, target, active) =>
      if actor < |s.users| && target < |s.users| then SetActive(s, actor, target, active, now) else (s, Refused)
  }

  function Step(cfg: Settings, s: State, op: Op): State {
    Perform(cfg, s, op).0
  }

  function Run(cfg: Settings, s: State, ops: seq<Op>): State {
    if ops == [] then s else Step(cfg, Run(cfg, s, ops[..|ops| - 1]), ops[|ops| - 1])
  }

  /** The outcome of the k-th operation of a run. */
  function OutcomeAt(cfg: Settings, s: State, ops: seq<Op>, k: nat): Outcome
    requires k < |ops|
  {
    Perform(cfg, Run(cfg, s, ops[..k]), ops[k]).1
  }

  lemma {:induction false} RunSplit(cfg: Settings, s: State, ops: seq<Op>, k: nat)
    requires k <= |ops|
    ensures Run(cfg, s, ops) == Run(cfg, Run(cfg, s, ops[..k]), ops[k..])
  {
    if k < |ops| {
      var front := ops[..|ops| - 1];
      assert ops[k..][..|ops[k..]| - 1] == front[k..] && front[..k] == ops[..k];
      RunSplit(cfg, s, front, k);
    } else {
      assert ops[..k] == ops;
    }
  }

  // ---------------------------------------------------------------- the tables in place

  class Service {
    var users: seq<User>
    var tokens: seq<RefreshToken>
    var issued: seq<Claims>
    var activeTenants: set<TenantId>
    const cfg: Settings

    ghost function Contents(): State
      reads this
    {
      State(users, tokens, issued, activeTenants)
    }

    constructor (cfg: Settings, activeTenants: set<TenantId>)
      ensures Contents() == State([], [], [], activeTenants) && this.cfg == cfg
    {
      this.cfg := cfg;
      this.activeTenants := activeTenants;
      users, tokens, issued := [], [], [];
    }

    method RegisterFailure(id: UserId, now: Time)
      requires id < |users|
      modifies this`users
      ensures users == old(users)[id := AfterFailure(cfg, old(users)[id], now)]
    {
      var user := users[id];
      user := user.(failedLogins := user.failedLogins + 1);
      if user.failedLogins >= cfg.maxFailedLogins {
        user := user.(lockedUntil := Some(now + cfg.lockout));
        user := user.(failedLogins := 0);
      }
      users := users[id := user];
    }

    method AuthenticateUser(email: Option<string>, passwordOk: bool, now: Time) returns (outcome: Outcome)
      modifies this`users
      ensures (Contents(), outcome) == Authenticate(cfg, old(Contents()), email, passwordOk, now)
    {
      if email.None? {
        return NoSuchUser;
      }
      var found := FindUser(users, email.value);
      if found.None? {
        return NoSuchUser;
      }
      var id := found.value;
      if IsLocked(users[id], now) {
        return Locked(id);
      }
      if !passwordOk {
        RegisterFailure(id, now);
        return BadPassword(id);
      }
      if !users[id].isActive || users[id].tenant !in activeTenants {
        return Inactive(id);
      }
      users := users[id := users[id].(failedLogins := 0, lockedUntil := None)];
      return LoggedIn(id);
    }

    method IssueTokens(id: UserId, minted: Digest, expires: Time) returns (ok: bool)
      requires id < |users|
      modifies this`tokens, this`issued
      ensures
        var after := Issue(old(Contents()), id, minted, expires);
        ok == after.Some? && Contents() == if ok then after.value else old(Contents())
    {
      if FindToken(tokens, minted).Some? {
        return false;
      }
      issued := issued + [Claims(id, users[id].tenant, users[id].tokenVersion)];
      tokens := tokens + [RefreshToken(id, minted, expires, None, None, None)];
      return true;
    }

    /** Signing in: authenticate, then issue. */
    method LogIn(email: Option<string>, passwordOk: bool, now: Time, minted: Digest, expires: Time) returns (outcome: Outcome)
      modifies this`users, this`tokens, this`issued
      ensures (Contents(), outcome) == Login(cfg, old(Contents()), email, passwordOk, now, minted, expires)
    {
      outcome := AuthenticateUser(email, passwordOk, now);
      if outcome.LoggedIn? {
        var _ := IssueTokens(outcome.user, minted, expires);
      }
    }

    method RevokeAllForUser(id: UserId, bump: bool, now: Time) returns (count: nat)
      modifies this`tokens, this`users
      ensures Contents() == RevokeAll(old(Contents()), id, bump, now)
      ensures count == LiveTokens(old(tokens), id)
    {
      count := 0;
      for i := 0 to |tokens|
        invariant users == old(users) && |tokens| == |old(tokens)|
        invariant count == LiveTokens(old(tokens)[..i], id)
        invariant forall j | 0 <= j < i :: tokens[j] == RevokedFor(old(tokens)[j], id, now)
        invariant forall j | i <= j < |tokens| :: tokens[j] == old(tokens)[j]
      {
        assert old(tokens)[..i + 1][..i] == old(tokens)[..i];
        if tokens[i].user == id && tokens[i].revokedAt.None? {
          tokens := tokens[i := tokens[i].(revokedAt := Some(now))];
          count := count + 1;
        }
      }
      assert old(tokens)[..|tokens|] == old(tokens);
      assert tokens == RevokeTokens(old(tokens), id, now);
      if bump && id < |users| {
        users := users[id := users[id].(tokenVersion := users[id].tokenVersion + 1)];
      }
    }

    method RotateRefreshToken(digest: Digest, now: Time, minted: Digest, expires: Time) returns (outcome: Outcome)
      modifies this`users, this`tokens, this`issued
      ensures (Contents(), outcome) == Rotate(old(Contents()), digest, now, minted, expires)
    {
      var found := FindToken(tokens, digest);
      if found.None? {
        return Refused;
      }
      var t := found.value;
      if tokens[t].usedAt.Some? || tokens[t].revokedAt.Some? {
        var _ := RevokeAllForUser(tokens[t].user, true, now);
        return Reused(t);
      }
      if tokens[t].expiresAt <= now {
        return Refused;
      }
      var id := tokens[t].user;
      if id >= |users| || !users[id].isActive || users[id].tenant !in activeTenants {
        return Refused;
      }
      var before := tokens;
      tokens := tokens[t := tokens[t].(usedAt := Some(now))];
      SameDigests(before, tokens, minted);
      var ok := IssueTokens(id, minted, expires);
      if !ok {
        tokens := before;                       // the transaction is rolled back
        return Refused;
      }
      var replacement := FindToken(tokens, minted);
      if replacement.Some? {
        tokens := tokens[t := tokens[t].(replacedBy := replacement)];
      }
      assert tokens == before[t := before[t].(usedAt := Some(now), replacedBy := Some(|before|))] + [NewToken(id, minted, expires)];
      return Rotated(t);
    }

    method RevokeRefreshToken(digest: Digest, now: Time) returns (outcome: Outcome)
      modifies this`tokens
      ensures (Contents(), outcome) == Logout(old(Contents()), digest, now)
    {
      var found := FindToken(tokens, digest);
      if found.None? || tokens[found.value].revokedAt.Some? {
        return Refused;
      }
      tokens := tokens[found.value := tokens[found.value].(revokedAt := Some(now))];
      return Revoked(1);
    }

    method CountActiveOwners(tenant: TenantId) returns (count: nat)
      ensures count == ActiveOwners(users, tenant)
    {
      count := 0;
      for i := 0 to |users|
        invariant count == ActiveOwners(users[..i], tenant)
      {
        assert users[..i + 1][..i] == users[..i];
        if users[i].tenant == tenant && users[i].role == Owner && users[i].isActive {
          count := count + 1;
        }
      }
      assert users[..|users|] == users;
    }

    method AddUser(actor: UserId, email: Option<string>, role: Role, tenant: Option<TenantId>) returns (outcome: Outcome)
      requires actor < |users|
      modifies this`users
      ensures (Contents(), outcome) == CreateUser(old(Contents()), actor, email, role, tenant)
    {
      if tenant.Some? && tenant.value != users[actor].tenant {
        return Denied;
      }
      if !CanAssignRole(users[actor].role, role) {
        return Denied;
      }
      if email.None? {
        return Refused;
      }
      if FindUser(users, email.value).Some? {
        return Conflict;
      }
      users := users + [User(users[actor].tenant, email.value, role, true, 0, 0, None)];
      return Done;
    }

    method AssignRole(actor: UserId, target: UserId, role: Role, now: Time) returns (outcome: Outcome)
      requires actor < |users| && target < |users|
      modifies this`users, this`tokens
      ensures (Contents(), outcome) == ChangeRole(old(Contents()), actor, target, role, now)
    {
      if users[target].tenant != users[actor].tenant || target == actor {
        return Denied;
      }
      if !CanManageUser(users[actor].role, users[target].role) || !CanAssignRole(users[actor].role, role) {
        return Denied;
      }
      if users[target].role == Owner && role != Owner {
        var owners := CountActiveOwners(users[target].tenant);
        if owners <= 1 {
          return Conflict;
        }
      }
      users := users[target := users[target].(role := role, tokenVersion := users[target].tokenVersion + 1)];
      var _ := RevokeAllForUser(target, false, now);
      return Done;
    }

    method Activate(actor: UserId, target: UserId, active: bool, now: Time) returns (outcome: Outcome)
      requires actor < |users| && target < |users|
      modifies this`users, this`tokens
      ensures (Contents(), outcome) == SetActive(old(Contents()), actor, target, active, now)
    {
      if users[target].tenant != users[actor].tenant || (target == actor && !active) {
        return Denied;
      }
      if !CanManageUser(users[actor].role, users[target].role) {
        return Denied;
      }
      if !active && users[target].role == Owner {
        var owners := CountActiveOwners(users[target].tenant);
        if owners <= 1 {
          return Conflict;
        }
      }
      users := users[target := users[target].(isActive := active, tokenVersion := users[target].tokenVersion + 1)];
      if !active {
        var _ := RevokeAllForUser(target, false, now);
      }
      return Done;
    }
  }

  lemma SameDigests(tokens: seq<RefreshToken>, tokens': seq<RefreshToken>, digest: Digest)
    requires |tokens| == |tokens'| && forall i | 0 <= i < |tokens| :: tokens[i].digest == tokens'[i].digest
    ensures FindToken(tokens, digest) == FindToken(tokens', digest)
  {
  }
}
