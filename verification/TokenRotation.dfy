/** Single-use refresh tokens and versioned access tokens, over every run of the service. */
module TokenRotation {
  import opened Wrappers
  import opened Auth

  ghost predicate Linked(tokens: seq<RefreshToken>, i: nat)
    requires i < |tokens|
  {
    && tokens[i].usedAt.Some? == tokens[i].replacedBy.Some?
    && (tokens[i].replacedBy.Some? ==>
          i < tokens[i].replacedBy.value < |tokens| && tokens[tokens[i].replacedBy.value].user == tokens[i].user)
  }

  /** A token is linked to its replacement exactly when it was used, and no two tokens share a replacement. */
  ghost predicate TokenInv(tokens: seq<RefreshToken>) {
    && (forall i, j | 0 <= i < j < |tokens| :: tokens[i].digest != tokens[j].digest)
    && (forall i: nat | i < |tokens| :: Linked(tokens, i))
    && (forall i, j | 0 <= i < j < |tokens| && tokens[i].replacedBy.Some? :: tokens[i].replacedBy != tokens[j].replacedBy)
  }

  /** No access token is ahead of its user. */
  ghost predicate ClaimInv(users: seq<User>, issued: seq<Claims>) {
    forall k | 0 <= k < |issued| ::
      && issued[k].user < |users|
      && issued[k].version <= users[issued[k].user].tokenVersion
      && issued[k].tenant == users[issued[k].user].tenant
  }

  ghost predicate Inv(s: State) {
    TokenInv(s.tokens) && ClaimInv(s.users, s.issued)
  }

  // ---------------------------------------------------------------- the invariant

  lemma SameLinks(tokens: seq<RefreshToken>, tokens': seq<RefreshToken>)
    requires TokenInv(tokens) && |tokens| == |tokens'|
    requires forall i | 0 <= i < |tokens| ::
               && tokens[i].digest == tokens'[i].digest && tokens[i].user == tokens'[i].user
               && tokens[i].usedAt == tokens'[i].usedAt && tokens[i].replacedBy == tokens'[i].replacedBy
    ensures TokenInv(tokens')
  {
    forall i: nat | i < |tokens'| ensures Linked(tokens', i) {
      assert Linked(tokens, i);
    }
  }

  lemma AppendKeepsTokenInv(tokens: seq<RefreshToken>, token: RefreshToken)
    requires TokenInv(tokens) && FindToken(tokens, token.digest).None?
    requires token.usedAt.None? && token.replacedBy.None?
    ensures TokenInv(tokens + [token])
  {
    var tokens' := tokens + [token];
    forall i: nat | i < |tokens'| ensures Linked(tokens', i) {
      assert i < |tokens| ==> Linked(tokens, i);
    }
  }

  lemma RotateKeepsTokenInv(tokens: seq<RefreshToken>, t: nat, now: Time, token: RefreshToken)
    requires TokenInv(tokens) && t < |tokens| && tokens[t].usedAt.None?
    requires FindToken(tokens, token.digest).None? && token.usedAt.None? && token.replacedBy.None?
    requires token.user == tokens[t].user
    ensures TokenInv(tokens[t := tokens[t].(usedAt := Some(now), replacedBy := Some(|tokens|))] + [token])
  {
    var tokens' := tokens[t := tokens[t].(usedAt := Some(now), replacedBy := Some(|tokens|))] + [token];
    forall i: nat | i < |tokens'| ensures Linked(tokens', i) {
      assert i < |tokens| ==> Linked(tokens, i);
    }
    forall i, j | 0 <= i < j < |tokens'| && tokens'[i].replacedBy.Some?
      ensures tokens'[i].replacedBy != tokens'[j].replacedBy
    {
      assert Linked(tokens, i);
      assert j < |tokens| ==> Linked(tokens, j);
    }
  }

  /** Users never disappear, never move to another tenant and never lose a version. */
  ghost predicate UsersAge(users: seq<User>, users': seq<User>) {
    && |users| <= |users'|
    && forall i | 0 <= i < |users| :: users'[i].tenant == users[i].tenant && users'[i].tokenVersion >= users[i].tokenVersion
  }

  /** Tokens never disappear, and a spent or revoked one stays so. */
  ghost predicate TokensAge(tokens: seq<RefreshToken>, tokens': seq<RefreshToken>) {
    && |tokens| <= |tokens'|
    && forall i | 0 <= i < |tokens| ::
         && tokens'[i].digest == tokens[i].digest && tokens'[i].user == tokens[i].user
         && (tokens[i].usedAt.Some? ==> tokens'[i].usedAt == tokens[i].usedAt && tokens'[i].replacedBy == tokens[i].replacedBy)
         && (tokens[i].revokedAt.Some? ==> tokens'[i].revokedAt == tokens[i].revokedAt)
  }

  lemma StepAgesUsers(cfg: Settings, s: State, op: Op)
    ensures UsersAge(s.users, Step(cfg, s, op).users)
  {
    match op
    case LoginOp(now, email, passwordOk, minted, expires) => LoginAgesUsers(cfg, s, email, passwordOk, now, minted, expires);
    case RefreshOp(_, _, _, _) =>
    case LogoutOp(_, _) =>
    case LogoutAllOp(_, _) =>
    case _ => TeamAgesUsers(cfg, s, op);
  }

  lemma LoginAgesUsers(cfg: Settings, s: State, email: Option<string>, passwordOk: bool, now: Time, minted: Digest, expires: Time)
    ensures UsersAge(s.users, Login(cfg, s, email, passwordOk, now, minted, expires).0.users)
  {
  }

  lemma TeamAgesUsers(cfg: Settings, s: State, op: Op)
    requires op.CreateUserOp? || op.ChangeRoleOp? || op.SetActiveOp?
    ensures UsersAge(s.users, Step(cfg, s, op).users)
  {
  }

  lemma StepAgesTokens(cfg: Settings, s: State, op: Op)
    ensures TokensAge(s.tokens, Step(cfg, s, op).tokens)
  {
    match op
    case LoginOp(_, _, _, _, _) =>
    case RefreshOp(_, _, _, _) =>
    case LogoutOp(_, _) =>
    case LogoutAllOp(_, _) =>
    case CreateUserOp(_, _, _, _, _) =>
    case ChangeRoleOp(_, _, _, _) =>
    case SetActiveOp(_, _, _, _) =>
  }

  lemma StepAges(cfg: Settings, s: State, op: Op)
    ensures UsersAge(s.users, Step(cfg, s, op).users)
    ensures TokensAge(s.tokens, Step(cfg, s, op).tokens)
    ensures s.issued <= Step(cfg, s, op).issued
  {
    StepAgesUsers(cfg, s, op);
    StepAgesTokens(cfg, s, op);
  }

  lemma StepKeepsTokenInv(cfg: Settings, s: State, op: Op)
    requires TokenInv(s.tokens)
    ensures TokenInv(Step(cfg, s, op).tokens)
  {
    match op
    case LoginOp(now, email, passwordOk, minted, expires) =>
      if FindToken(s.tokens, minted).None? && Authenticate(cfg, s, email, passwordOk, now).1.LoggedIn? {
        AppendKeepsTokenInv(s.tokens, NewToken(Authenticate(cfg, s, email, passwordOk, now).1.user, minted, expires));
      }
    case RefreshOp(now, digest, minted, expires) =>
      if Rotate(s, digest, now, minted, expires).1.Rotated? {
        var t := FindToken(s.tokens, digest).value;
        RotateKeepsTokenInv(s.tokens, t, now, NewToken(s.tokens[t].user, minted, expires));
      } else {
        SameLinks(s.tokens, Step(cfg, s, op).tokens);
      }
    case _ => SameLinks(s.tokens, Step(cfg, s, op).tokens);
  }

  lemma StepKeepsClaimInv(cfg: Settings, s: State, op: Op)
    requires ClaimInv(s.users, s.issued)
    ensures ClaimInv(Step(cfg, s, op).users, Step(cfg, s, op).issued)
  {
    StepAges(cfg, s, op);
  }

  lemma {:induction false} RunKeepsInv(cfg: Settings, s: State, ops: seq<Op>)
    requires Inv(s)
    ensures Inv(Run(cfg, s, ops))
  {
    if ops != [] {
      RunKeepsInv(cfg, s, ops[..|ops| - 1]);
      StepKeepsTokenInv(cfg, Run(cfg, s, ops[..|ops| - 1]), ops[|ops| - 1]);
      StepKeepsClaimInv(cfg, Run(cfg, s, ops[..|ops| - 1]), ops[|ops| - 1]);
    }
  }

  lemma {:induction false} RunAges(cfg: Settings, s: State, ops: seq<Op>)
    ensures UsersAge(s.users, Run(cfg, s, ops).users)
    ensures TokensAge(s.tokens, Run(cfg, s, ops).tokens)
    ensures s.issued <= Run(cfg, s, ops).issued
  {
    if ops != [] {
      RunAges(cfg, s, ops[..|ops| - 1]);
      StepAges(cfg, Run(cfg, s, ops[..|ops| - 1]), ops[|ops| - 1]);
    }
  }

  // ---------------------------------------------------------------- rotation

  /** The run between the j-th and the k-th operation. */
  lemma RunBetween(cfg: Settings, s: State, ops: seq<Op>, j: nat, k: nat)
    requires j <= k <= |ops|
    ensures Run(cfg, s, ops[..k]) == Run(cfg, Run(cfg, s, ops[..j]), ops[j..k])
  {
    RunSplit(cfg, s, ops[..k], j);
    assert ops[..k][..j] == ops[..j] && ops[..k][j..] == ops[j..k];
  }

  lemma FoundAgain(s: State, s': State, digest: Digest)
    requires TokenInv(s'.tokens) && TokensAge(s.tokens, s'.tokens) && FindToken(s.tokens, digest).Some?
    ensures FindToken(s'.tokens, digest) == FindToken(s.tokens, digest)
  {
  }

  /** In every run a refresh token rotates successfully at most once. */
  lemma RotatesAtMostOnce(cfg: Settings, s: State, ops: seq<Op>, j: nat, k: nat)
    requires Inv(s) && j <= k < |ops|
    requires ops[j].RefreshOp? && ops[k].RefreshOp? && ops[j].digest == ops[k].digest
    requires OutcomeAt(cfg, s, ops, j).Rotated? && OutcomeAt(cfg, s, ops, k).Rotated?
    ensures j == k
  {
    if j < k {
      var before, after, later := Run(cfg, s, ops[..j]), Run(cfg, s, ops[..j + 1]), Run(cfg, s, ops[..k]);
      assert ops[..j + 1][..j] == ops[..j];
      RunKeepsInv(cfg, s, ops[..j]);
      RunKeepsInv(cfg, s, ops[..k]);
      RunBetween(cfg, s, ops, j + 1, k);
      RunAges(cfg, after, ops[j + 1..k]);
      StepAges(cfg, before, ops[j]);
      var t := FindToken(before.tokens, ops[j].digest).value;
      assert after.tokens[t].usedAt.Some? && later.tokens[t].usedAt.Some?;
      assert TokensAge(before.tokens, later.tokens);
      FoundAgain(before, later, ops[j].digest);
    }
  }

  ghost predicate Live(token: RefreshToken) {
    token.usedAt.None? && token.revokedAt.None?
  }

  /** Every unrevoked token of a user is revoked at `now`; no other token, and nothing else of these, changes. */
  ghost predicate Purged(tokens: seq<RefreshToken>, tokens': seq<RefreshToken>, id: UserId, now: Time) {
    && |tokens'| == |tokens|
    && forall i | 0 <= i < |tokens| ::
         tokens'[i] == if tokens[i].user == id && tokens[i].revokedAt.None? then tokens[i].(revokedAt := Some(now)) else tokens[i]
  }

  ghost predicate BumpedOnly(users: seq<User>, users': seq<User>, id: UserId) {
    && |users'| == |users|
    && forall i | 0 <= i < |users| ::
         users'[i] == if i == id then users[i].(tokenVersion := users[i].tokenVersion + 1) else users[i]
  }

  /** Presenting a spent or revoked token, and only that, leaves its user without a single unrevoked token. */
  lemma ReuseRevokesEverything(s: State, digest: Digest, now: Time, minted: Digest, expires: Time)
    ensures
      var (s', outcome) := Rotate(s, digest, now, minted, expires);
      && (outcome.Reused? <==> FindToken(s.tokens, digest).Some? && !Live(s.tokens[FindToken(s.tokens, digest).value]))
      && (outcome.Reused? ==>
            var id := s.tokens[FindToken(s.tokens, digest).value].user;
            && Purged(s.tokens, s'.tokens, id, now) && BumpedOnly(s.users, s'.users, id)
            && (forall i | 0 <= i < |s'.tokens| && s'.tokens[i].user == id :: s'.tokens[i].revokedAt.Some?)
            && s'.issued == s.issued)
  {
  }

  /** Signing out everywhere does the same. */
  lemma LogoutAllRevokesEverything(cfg: Settings, s: State, now: Time, id: UserId)
    requires id < |s.users|
    ensures
      var s' := Step(cfg, s, LogoutAllOp(now, id));
      && Purged(s.tokens, s'.tokens, id, now) && BumpedOnly(s.users, s'.users, id) && s'.issued == s.issued
      && forall i | 0 <= i < |s'.tokens| && s'.tokens[i].user == id :: s'.tokens[i].revokedAt.Some?
  {
  }

  /** A token that may still be rotated: live, unexpired, and its user and tenant in service. */
  ghost predicate Rotatable(s: State, t: nat, now: Time)
    requires t < |s.tokens|
  {
    && Live(s.tokens[t]) && now < s.tokens[t].expiresAt
    && s.tokens[t].user < |s.users| && s.users[s.tokens[t].user].isActive && s.users[s.tokens[t].user].tenant in s.activeTenants
  }

  /** The newest refresh token is a user's, and may be rotated until exactly `expires`. */
  ghost predicate HandedOut(s: State, id: UserId, minted: Digest, expires: Time) {
    && s.tokens != []
    && var n := |s.tokens| - 1;
       s.tokens[n].user == id && s.tokens[n].digest == minted && forall now :: Rotatable(s, n, now) <==> now < expires
  }

  /** The newest access token is a user's, and is accepted. */
  ghost predicate AccessGiven(s: State, id: UserId) {
    s.issued != [] && s.issued[|s.issued| - 1].user == id && Accepts(s, s.issued[|s.issued| - 1])
  }

  /**
   Rotation succeeds exactly for a rotatable token and an unused new digest. It spends the old token, links it to
   a new one that is itself rotatable until it expires, touches no other token, and its access token is accepted.
   A token that is neither rotated nor reused changes nothing.
   */
  lemma RotationHandsOver(s: State, digest: Digest, now: Time, minted: Digest, expires: Time)
    requires TokenInv(s.tokens)
    ensures
      var (s', outcome) := Rotate(s, digest, now, minted, expires);
      && (outcome.Rotated? <==>
            && FindToken(s.tokens, digest).Some? && Rotatable(s, FindToken(s.tokens, digest).value, now)
            && FindToken(s.tokens, minted).None?)
      && (outcome.Rotated? ==>
            var t, n := FindToken(s.tokens, digest).value, |s.tokens|;
            && outcome.token == t && |s'.tokens| == n + 1 && s'.users == s.users
            && s'.tokens[t] == s.tokens[t].(usedAt := Some(now), replacedBy := Some(n))
            && (forall i | 0 <= i < n && i != t :: s'.tokens[i] == s.tokens[i])
            && HandedOut(s', s.tokens[t].user, minted, expires)
            && |s'.issued| == |s.issued| + 1 && s.issued <= s'.issued && AccessGiven(s', s.tokens[t].user))
      && (!outcome.Rotated? && !outcome.Reused? ==> s' == s)
  {
  }

  /** A login either changes no token or hands out one refresh token and one accepted access token. */
  lemma LoginHandsOut(cfg: Settings, s: State, email: Option<string>, passwordOk: bool, now: Time, minted: Digest, expires: Time)
    ensures
      var (s', outcome) := Login(cfg, s, email, passwordOk, now, minted, expires);
      && (!outcome.LoggedIn? || FindToken(s.tokens, minted).Some? ==> s'.tokens == s.tokens && s'.issued == s.issued)
      && (outcome.LoggedIn? && FindToken(s.tokens, minted).None? ==>
            && |s'.tokens| == |s.tokens| + 1 && s.tokens <= s'.tokens && HandedOut(s', outcome.user, minted, expires)
            && |s'.issued| == |s.issued| + 1 && s.issued <= s'.issued && AccessGiven(s', outcome.user))
  {
  }

  // ---------------------------------------------------------------- logging out

  ghost predicate Names(tokens: seq<RefreshToken>, digest: Digest, t: nat) {
    t < |tokens| && tokens[t].digest == digest
  }

  /** Logging out succeeds exactly for an unrevoked token, revokes that token and nothing else, and otherwise does nothing. */
  lemma LogoutExactlyWhen(s: State, digest: Digest, now: Time, t: nat)
    requires TokenInv(s.tokens)
    ensures
      var (s', outcome) := Logout(s, digest, now);
      && (outcome == Revoked(1) <==> exists i: nat :: Names(s.tokens, digest, i) && s.tokens[i].revokedAt.None?)
      && (outcome != Revoked(1) ==> outcome == Refused && s' == s)
      && (outcome == Revoked(1) && Names(s.tokens, digest, t) ==>
            s' == s.(tokens := s.tokens[t := s.tokens[t].(revokedAt := Some(now))]))
  {
    if FindToken(s.tokens, digest).Some? {
      assert Names(s.tokens, digest, FindToken(s.tokens, digest).value);
    }
  }

  /** In every run, a token that was logged out never rotates again: presenting it counts as reuse. */
  lemma LoggedOutNeverRotates(cfg: Settings, s: State, ops: seq<Op>, j: nat, k: nat)
    requires Inv(s) && j < k < |ops|
    requires ops[j].LogoutOp? && OutcomeAt(cfg, s, ops, j).Revoked?
    requires ops[k].RefreshOp? && ops[k].digest == ops[j].digest
    ensures OutcomeAt(cfg, s, ops, k).Reused?
  {
    var before, after, later := Run(cfg, s, ops[..j]), Run(cfg, s, ops[..j + 1]), Run(cfg, s, ops[..k]);
    assert ops[..j + 1][..j] == ops[..j];
    RunKeepsInv(cfg, s, ops[..j]);
    RunKeepsInv(cfg, s, ops[..k]);
    RunBetween(cfg, s, ops, j + 1, k);
    RunAges(cfg, after, ops[j + 1..k]);
    var t := FindToken(before.tokens, ops[j].digest).value;
    LogoutExactlyWhen(before, ops[j].digest, ops[j].now, t);
    StepAges(cfg, before, ops[j]);
    assert after.tokens[t].revokedAt.Some? && later.tokens[t].revokedAt.Some?;
    assert TokensAge(before.tokens, later.tokens);
    FoundAgain(before, later, ops[j].digest);
  }

  /** The login a token descends from: follow the replacements back to a token that replaced nothing. */
  ghost function Origin(tokens: seq<RefreshToken>, i: nat): nat
    requires i < |tokens|
    decreases i
  {
    if j: nat :| j < i && tokens[j].replacedBy == Some(i) then Origin(tokens, j) else i
  }

  /** How many rotations lie between a token and its login. */
  ghost function Depth(tokens: seq<RefreshToken>, i: nat): nat
    requires i < |tokens|
    decreases i
  {
    if j: nat :| j < i && tokens[j].replacedBy == Some(i) then Depth(tokens, j) + 1 else 0
  }

  lemma Predecessor(tokens: seq<RefreshToken>, i: nat) returns (j: Option<nat>)
    requires TokenInv(tokens) && i < |tokens|
    ensures j.None? <==> Depth(tokens, i) == 0
    ensures j.None? ==> Origin(tokens, i) == i
    ensures j.Some? ==> j.value < i && tokens[j.value].replacedBy == Some(i)
    ensures j.Some? ==> Origin(tokens, i) == Origin(tokens, j.value) && Depth(tokens, i) == Depth(tokens, j.value) + 1
  {
    if exists k: nat :: k < i && tokens[k].replacedBy == Some(i) {
      var k: nat :| k < i && tokens[k].replacedBy == Some(i);
      assert forall m: nat | m < i && tokens[m].replacedBy == Some(i) :: m == k;
      j := Some(k);
    } else {
      j := None;
    }
  }

  lemma {:induction false} SameDepthIsSame(tokens: seq<RefreshToken>, i: nat, j: nat)
    requires TokenInv(tokens) && i < |tokens| && j < |tokens|
    requires Origin(tokens, i) == Origin(tokens, j) && Depth(tokens, i) == Depth(tokens, j)
    ensures i == j
    decreases i
  {
    var p := Predecessor(tokens, i);
    var q := Predecessor(tokens, j);
    if p.Some? {
      SameDepthIsSame(tokens, p.value, q.value);
    }
  }

  lemma {:induction false} ShallowerIsReplaced(tokens: seq<RefreshToken>, i: nat, j: nat)
    requires TokenInv(tokens) && i < |tokens| && j < |tokens|
    requires Origin(tokens, i) == Origin(tokens, j) && Depth(tokens, i) < Depth(tokens, j)
    ensures tokens[i].replacedBy.Some?
    decreases j
  {
    var p := Predecessor(tokens, j);
    if Depth(tokens, i) < Depth(tokens, p.value) {
      ShallowerIsReplaced(tokens, i, p.value);
    } else {
      SameDepthIsSame(tokens, i, p.value);
    }
  }

  /**
   In every run the tokens of one login form a chain without cycles (each link points to a younger token) of which
   at most one is unused and unrevoked.
   */
  lemma OneLiveTokenPerLogin(cfg: Settings, s: State, ops: seq<Op>, i: nat, j: nat)
    requires Inv(s)
    ensures
      var tokens := Run(cfg, s, ops).tokens;
      && (i < |tokens| && tokens[i].replacedBy.Some? ==> i < tokens[i].replacedBy.value < |tokens|)
      && (i < |tokens| && j < |tokens| && Origin(tokens, i) == Origin(tokens, j) && Live(tokens[i]) && Live(tokens[j]) ==> i == j)
  {
    RunKeepsInv(cfg, s, ops);
    var tokens := Run(cfg, s, ops).tokens;
    if i < |tokens| {
      assert Linked(tokens, i);
      if j < |tokens| && Origin(tokens, i) == Origin(tokens, j) && Live(tokens[i]) && Live(tokens[j]) {
        assert Linked(tokens, j);
        if Depth(tokens, i) < Depth(tokens, j) {
          ShallowerIsReplaced(tokens, i, j);
        } else if Depth(tokens, j) < Depth(tokens, i) {
          ShallowerIsReplaced(tokens, j, i);
        } else {
          SameDepthIsSame(tokens, i, j);
        }
      }
    }
  }

  /** A token of the run that replaced no other, which is where a chain starts, was handed out by a login. */
  lemma {:induction false} ChainsStartAtLogins(cfg: Settings, s: State, ops: seq<Op>, i: nat) returns (k: nat)
    requires Inv(s) && |s.tokens| <= i < |Run(cfg, s, ops).tokens|
    requires forall j | 0 <= j < i :: Run(cfg, s, ops).tokens[j].replacedBy != Some(i)
    ensures k < |ops| && OutcomeAt(cfg, s, ops, k).LoggedIn? && |Run(cfg, s, ops[..k]).tokens| == i
    ensures Run(cfg, s, ops).tokens[i].user == OutcomeAt(cfg, s, ops, k).user
  {
    var front, op := ops[..|ops| - 1], ops[|ops| - 1];
    var mid, end := Run(cfg, s, front), Run(cfg, s, ops);
    RunKeepsInv(cfg, s, front);
    StepAgesTokens(cfg, mid, op);
    if i < |mid.tokens| {
      forall j | 0 <= j < i ensures mid.tokens[j].replacedBy != Some(i) {
        assert Linked(mid.tokens, j);
      }
      k := ChainsStartAtLogins(cfg, s, front, i);
      assert front[..k] == ops[..k] && front[k] == ops[k];
    } else {
      k := |front|;
      StepAppends(cfg, mid, op);
    }
  }

  /** An operation adds a token only as a login, or as a rotation that links it to the token it replaces. */
  lemma StepAppends(cfg: Settings, s: State, op: Op)
    requires |Step(cfg, s, op).tokens| > |s.tokens|
    ensures
      var s', n, outcome := Step(cfg, s, op), |s.tokens|, Perform(cfg, s, op).1;
      && |s'.tokens| == n + 1
      && (|| (outcome.LoggedIn? && s'.tokens[n].user == outcome.user)
          || (exists t :: 0 <= t < n && s'.tokens[t].replacedBy == Some(n)))
  {
    var outcome := Perform(cfg, s, op).1;
    if outcome.Rotated? {
      assert Step(cfg, s, op).tokens[outcome.token].replacedBy == Some(|s.tokens|);
    }
  }

  // ---------------------------------------------------------------- access tokens

  /** Operations that end by making every earlier access token of a user stale. */
  ghost predicate Bumps(cfg: Settings, s: State, op: Op, id: UserId) {
    && id < |s.users|
    && match op
       case RefreshOp(now, digest, minted, expires) =>
         Perform(cfg, s, op).1.Reused? && s.tokens[FindToken(s.tokens, digest).value].user == id
       case LogoutAllOp(_, user) => user == id
       case ChangeRoleOp(_, _, target, _) => target == id && Perform(cfg, s, op).1 == Done
       case SetActiveOp(_, _, target, _) => target == id && Perform(cfg, s, op).1 == Done
       case _ => false
  }

  /** A version rises by one at exactly these operations. */
  lemma VersionRisesExactlyWhenBumped(cfg: Settings, s: State, op: Op, id: UserId)
    requires id < |s.users|
    ensures id < |Step(cfg, s, op).users|
    ensures Step(cfg, s, op).users[id].tokenVersion == s.users[id].tokenVersion + if Bumps(cfg, s, op, id) then 1 else 0
  {
  }

  /** An issued access token that is behind its user's version is refused in every later state of every run. */
  lemma StaleForever(cfg: Settings, s: State, ops: seq<Op>, claims: Claims)
    requires Inv(s) && claims in s.issued && s.users[claims.user].tokenVersion != claims.version
    ensures !Accepts(Run(cfg, s, ops), claims)
  {
    RunAges(cfg, s, ops);
  }

  /**
   So an access token issued before a role change, a deactivation or reactivation, a detected reuse or a logout
   everywhere is refused from that operation on.
   */
  lemma BumpEndsAccess(cfg: Settings, s: State, ops: seq<Op>, k: nat, claims: Claims)
    requires Inv(s) && k < |ops|
    requires claims in Run(cfg, s, ops[..k]).issued && Bumps(cfg, Run(cfg, s, ops[..k]), ops[k], claims.user)
    ensures forall n: nat | k < n <= |ops| :: !Accepts(Run(cfg, s, ops[..n]), claims)
  {
    forall n: nat | k < n <= |ops| ensures !Accepts(Run(cfg, s, ops[..n]), claims) {
      var before := Run(cfg, s, ops[..k]);
      var after := Step(cfg, before, ops[k]);
      assert ops[..k + 1][..k] == ops[..k];
      RunKeepsInv(cfg, s, ops[..k]);
      RunKeepsInv(cfg, s, ops[..k + 1]);
      StepAges(cfg, before, ops[k]);
      VersionRisesExactlyWhenBumped(cfg, before, ops[k], claims.user);
      RunBetween(cfg, s, ops, k + 1, n);
      StaleForever(cfg, after, ops[k + 1..n], claims);
    }
  }

  /** What is accepted is exactly the token that the user's row would be issued now, while the user is active. */
  lemma AcceptedIsWhatWouldBeIssued(s: State, claims: Claims)
    ensures Accepts(s, claims) <==>
              claims.user < |s.users| && var user := s.users[claims.user];
              user.isActive && claims == Claims(claims.user, user.tenant, user.tokenVersion)
  {
  }

  /** The access token an operation issued is its user's, at the version the user has then. */
  lemma IssuedIsCurrent(cfg: Settings, s: State, op: Op)
    requires Step(cfg, s, op).issued != s.issued
    ensures
      var s', n := Step(cfg, s, op), |s.issued|;
      && |s'.issued| == n + 1 && s'.issued[n].user < |s'.users|
      && s'.issued[n].version == s'.users[s'.issued[n].user].tokenVersion
      && s'.issued[n].tenant == s'.users[s'.issued[n].user].tenant
  {
  }

  /** None of the operations of a run bumps a user's version. */
  ghost predicate Unbumped(cfg: Settings, s: State, ops: seq<Op>, id: UserId) {
    ops != [] ==>
      Unbumped(cfg, s, ops[..|ops| - 1], id) && !Bumps(cfg, Run(cfg, s, ops[..|ops| - 1]), ops[|ops| - 1], id)
  }

  /** The claims carry their user's tenant, and a version that is current exactly if `current`. */
  ghost predicate Matched(users: seq<User>, claims: Claims, current: bool) {
    && claims.user < |users| && claims.tenant == users[claims.user].tenant
    && claims.version <= users[claims.user].tokenVersion
    && (claims.version == users[claims.user].tokenVersion <==> current)
  }

  lemma StepMatches(cfg: Settings, s: State, op: Op, claims: Claims, current: bool)
    requires Matched(s.users, claims, current)
    ensures Matched(Step(cfg, s, op).users, claims, current && !Bumps(cfg, s, op, claims.user))
  {
    StepAgesUsers(cfg, s, op);
    VersionRisesExactlyWhenBumped(cfg, s, op, claims.user);
  }

  lemma {:induction false} VersionLastsExactly(cfg: Settings, s: State, ops: seq<Op>, claims: Claims)
    requires Matched(s.users, claims, true)
    ensures Matched(Run(cfg, s, ops).users, claims, Unbumped(cfg, s, ops, claims.user))
  {
    if ops != [] {
      var front := ops[..|ops| - 1];
      VersionLastsExactly(cfg, s, front, claims);
      StepMatches(cfg, Run(cfg, s, front), ops[|ops| - 1], claims, Unbumped(cfg, s, front, claims.user));
    }
  }

  /**
   Whatever operation issues an access token, and whatever follows, the token is accepted for exactly as long as its
   user is active and none of the operations that bump the version has come.
   */
  lemma AccessLastsExactly(cfg: Settings, s: State, op: Op, ops: seq<Op>, claims: Claims)
    requires Step(cfg, s, op).issued == s.issued + [claims]
    ensures
      var after := Step(cfg, s, op);
      var later := Run(cfg, after, ops);
      && claims.user < |later.users|
      && (Accepts(later, claims) <==> later.users[claims.user].isActive && Unbumped(cfg, after, ops, claims.user))
  {
    IssuedIsCurrent(cfg, s, op);
    assert Step(cfg, s, op).issued[|s.issued|] == claims;
    VersionLastsExactly(cfg, Step(cfg, s, op), ops, claims);
  }
}
