/** Accounts, sessions and one-time tokens, and what each call of the authentication
    service does to them (internal/service/auth.go over
    internal/repository/postgres/auth_tokens.go and user.go, migrations/000004).

    Tokens are stored by hash under a unique index, so creating a token whose hash exists
    fails; the hash is an arbitrary function and nothing below assumes it is injective.
    Every call is one atomic step with one clock reading, in nanoseconds. As Go measures a
    string in bytes, a byte is represented by the character with that code. */
module AuthStore {
  import opened Common

  datatype User = User(
    id: nat, email: string, passwordHash: string, fullName: string, roleId: string, active: bool,
      verifiedAt: Option<int>)

  datatype RefreshToken = RefreshToken(userId: nat, expiresAt: int, revokedAt: Option<int>)

  datatype OneTimeToken = OneTimeToken(userId: nat, expiresAt: int, usedAt: Option<int>)

  /** `users` holds the accounts that are not deleted. */
  datatype Tables = Tables(
    users: map<nat, User>,
    refresh: map<string, RefreshToken>,
    resets: map<string, OneTimeToken>,
    verifies: map<string, OneTimeToken>,
    nextId: nat)

  /** Foreign functions: the token hash, trimming and lower-casing an email, and checking
      a password against its hash; and the configured life of a refresh token. */
  datatype Config = Config(hash: string -> string, normalize: string -> string, check: (string, string) -> bool,
                           refreshTtl: int)

  const HOUR := 3_600_000_000_000
  const EMAIL_VERIFICATION_TTL := 48 * HOUR
  const PASSWORD_RESET_TTL := 1 * HOUR
  const MIN_PASSWORD_LEN := 8

  function UsersWith(users: map<nat, User>, email: string): set<nat> {
    set id | id in users && users[id].email == email
  }

  // --- sessions ------------------------------------------------------------------------

  /** A new refresh token for the user: its hash, if it could be stored. */
  function IssueSession(cfg: Config, s: Tables, userId: nat, raw: string, now: int): (r: (Tables, Result<string>))
    ensures r.0 == s.(refresh := r.0.refresh)
  {
    var h := cfg.hash(raw);
    if h in s.refresh then (s, Err(Internal))
    else (s.(refresh := s.refresh[h := RefreshToken(userId, now + cfg.refreshTtl, None)]), Ok(h))
  }

  /** Registering: the account, its verification token and a session. `role` is the id of
      the student role, if there is one, and `passwordHash` what hashing the password gave,
      if it succeeded. */
  function Register(cfg: Config, s: Tables, email: string, password: string, fullName: string, role: Option<string>,
                    passwordHash: Option<string>, verifyRaw: string, raw: string, now: int)
    : (r: (Tables, Result<string>))
    ensures r.0.resets == s.resets && s.nextId <= r.0.nextId
  {
    var e := cfg.normalize(email);
    if e == "" || '@' !in e then (s, Err(Validation))
    else if |password| < MIN_PASSWORD_LEN then (s, Err(Validation))
    else if role == None then (s, Err(NotFound))
    else if passwordHash == None then (s, Err(Internal))
    else if UsersWith(s.users, e) != {} then (s, Err(Conflict))
    else
      var user := User(s.nextId, e, passwordHash.value, TrimSpace(fullName), role.value, true, None);
      var s1 := s.(users := s.users[s.nextId := user], nextId := s.nextId + 1);
      var vh := cfg.hash(verifyRaw);
      if vh in s1.verifies then (s1, Err(Internal))
      else
        var s2 := s1.(verifies := s1.verifies[vh := OneTimeToken(user.id, now + EMAIL_VERIFICATION_TTL, None)]);
        IssueSession(cfg, s2, user.id, raw, now)
  }

  ghost function Login(cfg: Config, s: Tables, email: string, password: string, raw: string, now: int)
    : (r: (Tables, Result<string>))
    ensures r.0 == s.(refresh := r.0.refresh)
  {
    var e := cfg.normalize(email);
    if UsersWith(s.users, e) == {} then (s, Err(Unauthorized))
    else
      var id :| id in UsersWith(s.users, e);
      if !s.users[id].active then (s, Err(Forbidden))
      else if !cfg.check(s.users[id].passwordHash, password) then (s, Err(Unauthorized))
      else IssueSession(cfg, s, id, raw, now)
  }

  /** Revoking, as the repository does it: only a token that is not revoked yet. */
  function Revoked(refresh: map<string, RefreshToken>, h: string, now: int): (r: map<string, RefreshToken>)
    ensures r.Keys == refresh.Keys
  {
    if h in refresh && refresh[h].revokedAt == None then refresh[h := refresh[h].(revokedAt := Some(now))] else refresh
  }

  function Refresh(cfg: Config, s: Tables, token: string, raw: string, now: int): (r: (Tables, Result<string>))
    ensures r.0 == s.(refresh := r.0.refresh)
  {
    var h := cfg.hash(token);
    if TrimSpace(token) == "" then (s, Err(Validation))
    else if h !in s.refresh then (s, Err(Unauthorized))
    else
      var stored := s.refresh[h];
      if stored.revokedAt.Some? || now > stored.expiresAt then (s, Err(Unauthorized))
      else if stored.userId !in s.users then (s, Err(NotFound))
      else if !s.users[stored.userId].active then (s, Err(Forbidden))
      else IssueSession(cfg, s.(refresh := Revoked(s.refresh, h, now)), stored.userId, raw, now)
  }

  function Logout(cfg: Config, s: Tables, token: string, now: int): (r: (Tables, Option<Error>))
    ensures r.0 == s.(refresh := r.0.refresh)
  {
    if TrimSpace(token) == "" then (s, Some(Validation))
    else (s.(refresh := Revoked(s.refresh, cfg.hash(token), now)), None)
  }

  // --- one-time tokens -------------------------------------------------------------------

  ghost function ForgotPassword(cfg: Config, s: Tables, email: string, raw: string, now: int)
    : (r: (Tables, Option<Error>))
    ensures r.0 == s.(resets := r.0.resets)
  {
    var e := cfg.normalize(email);
    if e == "" || UsersWith(s.users, e) == {} then (s, None)
    else
      var id :| id in UsersWith(s.users, e);
      var h := cfg.hash(raw);
      if h in s.resets then (s, Some(Internal))
      else (s.(resets := s.resets[h := OneTimeToken(id, now + PASSWORD_RESET_TTL, None)]), None)
  }

  /** All of a user's tokens revoked. */
  function AllRevoked(refresh: map<string, RefreshToken>, userId: nat, now: int): map<string, RefreshToken> {
    map h | h in refresh :: if refresh[h].userId == userId && refresh[h].revokedAt == None
      then refresh[h].(revokedAt := Some(now)) else refresh[h]
  }

  function ResetPassword(cfg: Config, s: Tables, token: string, newPassword: string, newHash: Option<string>, now: int)
    : (r: (Tables, Option<Error>))
    ensures r.0 == s.(users := r.0.users, resets := r.0.resets, refresh := r.0.refresh)
  {
    var h := cfg.hash(token);
    if TrimSpace(token) == "" || |newPassword| < MIN_PASSWORD_LEN then (s, Some(Validation))
    else if h !in s.resets then (s, Some(Unauthorized))
    else
      var stored := s.resets[h];
      if stored.usedAt.Some? || now > stored.expiresAt then (s, Some(Unauthorized))
      else if newHash == None then (s, Some(Internal))
      else if stored.userId !in s.users then (s, Some(NotFound))
      else
        (s.(users := s.users[stored.userId := s.users[stored.userId].(passwordHash := newHash.value)],
            resets := s.resets[h := stored.(usedAt := Some(now))],
            refresh := AllRevoked(s.refresh, stored.userId, now)), None)
  }

  function VerifyEmail(cfg: Config, s: Tables, token: string, now: int): (r: (Tables, Option<Error>))
    ensures r.0 == s.(users := r.0.users, verifies := r.0.verifies)
  {
    var h := cfg.hash(token);
    if TrimSpace(token) == "" then (s, Some(Validation))
    else if h !in s.verifies then (s, Some(Unauthorized))
    else
      var stored := s.verifies[h];
      if stored.usedAt.Some? || now > stored.expiresAt then (s, Some(Unauthorized))
      else if stored.userId !in s.users then (s, Some(NotFound))
      else
        (s.(users := s.users[stored.userId := s.users[stored.userId].(verifiedAt := Some(now))],
            verifies := s.verifies[h := stored.(usedAt := Some(now))]), None)
  }

  // --- runs --------------------------------------------------------------------------------

  datatype Op =
    | RegisterOp(email: string, password: string, fullName: string, role: Option<string>, passwordHash: Option<string>,
                 verifyRaw: string, raw: string, now: int)
    | LoginOp(email: string, password: string, raw: string, now: int)
    | RefreshOp(token: string, raw: string, now: int)
    | LogoutOp(token: string, now: int)
    | ForgotOp(email: string, raw: string, now: int)
    | ResetOp(token: string, newPassword: string, newHash: Option<string>, now: int)
    | VerifyOp(token: string, now: int)
    | SetActiveOp(userId: nat, active: bool)
    | DeleteUserOp(userId: nat)

  /** One call: the tables after it and the error it reported, if any. The last two are
      an administrator disabling and deleting accounts. */
  ghost function Step(cfg: Config, s: Tables, op: Op): (Tables, Option<Error>) {
    match op
    case RegisterOp(email, password, fullName, role, passwordHash, verifyRaw, raw, now) =>
      var (s', r) := Register(cfg, s, email, password, fullName, role, passwordHash, verifyRaw, raw, now);
      (s', ToError(r))
    case LoginOp(email, password, raw, now) => var (s', r) := Login(cfg, s, email, password, raw, now); (s', ToError(r))
    case RefreshOp(token, raw, now) => var (s', r) := Refresh(cfg, s, token, raw, now); (s', ToError(r))
    case LogoutOp(token, now) => Logout(cfg, s, token, now)
    case ForgotOp(email, raw, now) => ForgotPassword(cfg, s, email, raw, now)
    case ResetOp(token, newPassword, newHash, now) => ResetPassword(cfg, s, token, newPassword, newHash, now)
    case VerifyOp(token, now) => VerifyEmail(cfg, s, token, now)
    case SetActiveOp(userId, active) =>
      if userId in s.users then (s.(users := s.users[userId := s.users[userId].(active := active)]), None)
        else (s, Some(NotFound))
    case DeleteUserOp(userId) =>
      if userId in s.users then (s.(users := s.users - {userId}), None) else (s, Some(NotFound))
  }

  // Each call's step, one lemma a call.

  lemma RegisterStep(cfg: Config, s: Tables, op: Op)
    requires op.RegisterOp?
    ensures var (s', r) := Register(cfg, s, op.email, op.password, op.fullName, op.role, op.passwordHash, op.verifyRaw,
                                    op.raw, op.now);
      Step(cfg, s, op) == (s', ToError(r))
  {
    hide Register, Login, Refresh, Logout, ForgotPassword, ResetPassword, VerifyEmail;
  }

  lemma LoginStep(cfg: Config, s: Tables, op: Op)
    requires op.LoginOp?
    ensures var (s', r) := Login(cfg, s, op.email, op.password, op.raw, op.now); Step(cfg, s, op) == (s', ToError(r))
  {
    hide Register, Login, Refresh, Logout, ForgotPassword, ResetPassword, VerifyEmail;
  }

  lemma RefreshStep(cfg: Config, s: Tables, op: Op)
    requires op.RefreshOp?
    ensures var (s', r) := Refresh(cfg, s, op.token, op.raw, op.now); Step(cfg, s, op) == (s', ToError(r))
  {
    hide Register, Login, Refresh, Logout, ForgotPassword, ResetPassword, VerifyEmail;
  }

  lemma LogoutStep(cfg: Config, s: Tables, op: Op)
    requires op.LogoutOp?
    ensures Step(cfg, s, op) == Logout(cfg, s, op.token, op.now)
  {
    hide Register, Login, Refresh, Logout, ForgotPassword, ResetPassword, VerifyEmail;
  }

  lemma ForgotStep(cfg: Config, s: Tables, op: Op)
    requires op.ForgotOp?
    ensures Step(cfg, s, op) == ForgotPassword(cfg, s, op.email, op.raw, op.now)
  {
    hide Register, Login, Refresh, Logout, ForgotPassword, ResetPassword, VerifyEmail;
  }

  lemma ResetStep(cfg: Config, s: Tables, op: Op)
    requires op.ResetOp?
    ensures Step(cfg, s, op) == ResetPassword(cfg, s, op.token, op.newPassword, op.newHash, op.now)
  {
    hide Register, Login, Refresh, Logout, ForgotPassword, ResetPassword, VerifyEmail;
  }

  lemma VerifyStep(cfg: Config, s: Tables, op: Op)
    requires op.VerifyOp?
    ensures Step(cfg, s, op) == VerifyEmail(cfg, s, op.token, op.now)
  {
    hide Register, Login, Refresh, Logout, ForgotPassword, ResetPassword, VerifyEmail;
  }

  lemma AdminStep(cfg: Config, s: Tables, op: Op)
    requires op.SetActiveOp? || op.DeleteUserOp?
    ensures var s' := Step(cfg, s, op).0;
      && s' == s.(users := s'.users)
      && s'.users == (if op.userId !in s.users then s.users
                      else if op.DeleteUserOp? then s.users - {op.userId}
                      else s.users[op.userId := s.users[op.userId].(active := op.active)])
  {
    hide Register, Login, Refresh, Logout, ForgotPassword, ResetPassword, VerifyEmail;
  }

  ghost function Run(cfg: Config, s: Tables, ops: seq<Op>): Tables {
    if ops == [] then s else Step(cfg, Run(cfg, s, ops[..|ops| - 1]), ops[|ops| - 1]).0
  }

  const EMPTY := Tables(map[], map[], map[], map[], 0)

  /** An account is stored under its id, ids are below the counter, and no two accounts
      share an email. */
  ghost predicate Inv(s: Tables) {
    && (forall id :: id in s.users ==> s.users[id].id == id < s.nextId)
    && (forall a, b :: a in s.users && b in s.users && s.users[a].email == s.users[b].email ==> a == b)
  }
}
