/** How each request to the authentication service is answered and what it leaves, said of
    the accounts and tokens themselves. */
module AuthLaws {
  import opened Common
  import opened AuthStore

  /** The account has this email. */
  predicate HasEmail(s: Tables, id: nat, email: string) {
    id in s.users && s.users[id].email == email
  }

  ghost predicate Known(s: Tables, email: string) {
    exists id :: HasEmail(s, id, email)
  }

  lemma KnownEmails(s: Tables, email: string)
    ensures UsersWith(s.users, email) == {} <==> !Known(s, email)
    ensures forall id :: id in UsersWith(s.users, email) <==> HasEmail(s, id, email)
  {
    if id :| HasEmail(s, id, email) { assert id in UsersWith(s.users, email); }
    if id :| id in UsersWith(s.users, email) { assert HasEmail(s, id, email); }
  }

  lemma TheAccount(s: Tables, id: nat, email: string)
    requires Inv(s) && HasEmail(s, id, email)
    ensures UsersWith(s.users, email) == {id}
  {
    assert forall other :: other in UsersWith(s.users, email) ==> other == id;
  }

  /** The tables with one more live token of the user. */
  function WithSession(cfg: Config, s: Tables, userId: nat, raw: string, now: int): Tables {
    s.(refresh := s.refresh[cfg.hash(raw) := RefreshToken(userId, now + cfg.refreshTtl, None)])
  }

  // --- logging in --------------------------------------------------------------------------

  /** Logging in to an account: it must be active, the password must check against the hash
      stored for it, and the new token's hash must be free. */
  lemma LoginAnswered(cfg: Config, s: Tables, id: nat, email: string, password: string, raw: string, now: int)
    requires Inv(s) && HasEmail(s, id, cfg.normalize(email))
    ensures var (s', r) := Login(cfg, s, email, password, raw, now);
      if !s.users[id].active then s' == s && r == Err(Forbidden)
      else if !cfg.check(s.users[id].passwordHash, password) then s' == s && r == Err(Unauthorized)
      else if cfg.hash(raw) in s.refresh then s' == s && r == Err(Internal)
      else s' == WithSession(cfg, s, id, raw, now) && r == Ok(cfg.hash(raw))
  {
    TheAccount(s, id, cfg.normalize(email));
  }

  /** Without an account of that email the answer is that of a wrong password. */
  lemma LoginUnknown(cfg: Config, s: Tables, email: string, password: string, raw: string, now: int)
    requires !Known(s, cfg.normalize(email))
    ensures Login(cfg, s, email, password, raw, now) == (s, Err(Unauthorized))
  {
    KnownEmails(s, cfg.normalize(email));
  }

  /** The password proves the account: it is active and this is its email and password. */
  ghost predicate Proves(cfg: Config, s: Tables, op: Op, id: nat)
    requires op.LoginOp?
  {
    HasEmail(s, id, cfg.normalize(op.email)) && s.users[id].active && cfg.check(s.users[id].passwordHash, op.password)
  }

  /** A login succeeds exactly when the password proves some account, and then the new token
      is that account's. */
  lemma LoginSucceeds(cfg: Config, s: Tables, op: Op)
    requires Inv(s) && op.LoginOp?
    ensures Step(cfg, s, op).1 == None <==> (exists id :: Proves(cfg, s, op, id)) && cfg.hash(op.raw) !in s.refresh
    ensures forall id :: Proves(cfg, s, op, id) && Step(cfg, s, op).1 == None ==>
      Step(cfg, s, op).0 == WithSession(cfg, s, id, op.raw, op.now)
  {
    hide Step, Inv, Login;
    LoginStep(cfg, s, op);
    if id :| HasEmail(s, id, cfg.normalize(op.email)) {
      LoginAnswered(cfg, s, id, op.email, op.password, op.raw, op.now);
      assert Proves(cfg, s, op, id) <==> s.users[id].active && cfg.check(s.users[id].passwordHash, op.password);
      forall other: nat | Proves(cfg, s, op, other) ensures other == id { OneAccount(s, id, other); }
    } else {
      LoginUnknown(cfg, s, op.email, op.password, op.raw, op.now);
    }
  }

  lemma OneAccount(s: Tables, id: nat, other: nat)
    requires Inv(s) && id in s.users && other in s.users && s.users[id].email == s.users[other].email
    ensures id == other
  {
  }

  // --- registering ---------------------------------------------------------------------------

  /** The request itself can be served. */
  predicate GoodRegistration(cfg: Config, op: Op)
    requires op.RegisterOp?
  {
    cfg.normalize(op.email) != "" && '@' in cfg.normalize(op.email) && |op.password| >= 8
  }

  /** The account a registration makes. */
  function NewAccount(cfg: Config, s: Tables, op: Op): User
    requires op.RegisterOp? && op.passwordHash.Some? && op.role.Some?
  {
    User(s.nextId, cfg.normalize(op.email), op.passwordHash.value, TrimSpace(op.fullName), op.role.value, true, None)
  }

  /** Registering: first the request, then the role and the password hash, then whether the
      email is taken; from then on the account stays even if a token cannot be stored. */
  lemma RegisterAnswered(cfg: Config, s: Tables, op: Op)
    requires op.RegisterOp?
    ensures var (s', error) := Step(cfg, s, op);
      if !GoodRegistration(cfg, op) then s' == s && error == Some(Validation)
      else if op.role == None then s' == s && error == Some(NotFound)
      else if op.passwordHash == None then s' == s && error == Some(Internal)
      else if Known(s, cfg.normalize(op.email)) then s' == s && error == Some(Conflict)
      else
        && s'.users == s.users[s.nextId := NewAccount(cfg, s, op)] && s'.nextId == s.nextId + 1
        && s'.resets == s.resets
        && (if cfg.hash(op.verifyRaw) in s.verifies then
              error == Some(Internal) && s'.verifies == s.verifies && s'.refresh == s.refresh
            else
              && s'.verifies
                 == s.verifies[cfg.hash(op.verifyRaw) := OneTimeToken(s.nextId, op.now + 172_800_000_000_000, None)]
              && (if cfg.hash(op.raw) in s.refresh then error == Some(Internal) && s'.refresh == s.refresh
                  else error == None && s'.refresh == WithSession(cfg, s, s.nextId, op.raw, op.now).refresh))
  {
    hide Step;
    KnownEmails(s, cfg.normalize(op.email));
    RegisterStep(cfg, s, op);
  }

  // --- sessions ------------------------------------------------------------------------------

  /** The token may be exchanged now. */
  ghost predicate Live(s: Tables, h: string, now: int) {
    h in s.refresh && s.refresh[h].revokedAt == None && now <= s.refresh[h].expiresAt
  }

  /** The tables with the token revoked and every other one as it was. */
  ghost predicate OnlyRevoked(s: Tables, s': Tables, h: string, now: int) {
    && h in s.refresh && s'.refresh.Keys == s.refresh.Keys
    && s'.refresh[h] == s.refresh[h].(revokedAt := if s.refresh[h].revokedAt.Some? then s.refresh[h].revokedAt
                                        else Some(now))
    && (forall other :: other in s.refresh && other != h ==> s'.refresh[other] == s.refresh[other])
    && s' == s.(refresh := s'.refresh)
  }

  /** Exchanging a token: it must be live and its user there and active; then it is revoked,
      even if the new one cannot be stored. */
  lemma RefreshAnswered(cfg: Config, s: Tables, op: Op)
    requires op.RefreshOp?
    ensures var (s', error) := Step(cfg, s, op);
      var h := cfg.hash(op.token);
      if TrimSpace(op.token) == "" then s' == s && error == Some(Validation)
      else if !Live(s, h, op.now) then s' == s && error == Some(Unauthorized)
      else if s.refresh[h].userId !in s.users then s' == s && error == Some(NotFound)
      else if !s.users[s.refresh[h].userId].active then s' == s && error == Some(Forbidden)
      else if cfg.hash(op.raw) in s.refresh then OnlyRevoked(s, s', h, op.now) && error == Some(Internal)
      else
        && error == None
        && exists between :: OnlyRevoked(s, between, h, op.now)
             && s' == WithSession(cfg, between, s.refresh[h].userId, op.raw, op.now)
  {
    hide Step;
    RefreshStep(cfg, s, op);
    var h := cfg.hash(op.token);
    if h in s.refresh && s.refresh[h].revokedAt == None {
      var between := s.(refresh := s.refresh[h := s.refresh[h].(revokedAt := Some(op.now))]);
      assert OnlyRevoked(s, between, h, op.now);
    }
  }

  /** Logging out revokes that token and no other, and an unknown one is no error. */
  lemma LogoutAnswered(cfg: Config, s: Tables, op: Op)
    requires op.LogoutOp?
    ensures var (s', error) := Step(cfg, s, op);
      if TrimSpace(op.token) == "" then s' == s && error == Some(Validation)
      else error == None
           && if cfg.hash(op.token) in s.refresh then OnlyRevoked(s, s', cfg.hash(op.token), op.now) else s' == s
  {
    hide Step;
    LogoutStep(cfg, s, op);
  }

  // --- one-time tokens -------------------------------------------------------------------------

  /** Asking for a reset gives an account's email a token for an hour; for other emails it
      does nothing, and says the same. */
  lemma ForgotAnswered(cfg: Config, s: Tables, op: Op)
    requires Inv(s) && op.ForgotOp?
    ensures var (s', error) := Step(cfg, s, op);
      var e, h := cfg.normalize(op.email), cfg.hash(op.raw);
      && (e == "" || !Known(s, e) ==> s' == s && error == None)
      && (e != "" && Known(s, e) && h in s.resets ==> s' == s && error == Some(Internal))
      && (forall id :: e != "" && HasEmail(s, id, e) && h !in s.resets ==>
            error == None && s' == s.(resets := s.resets[h := OneTimeToken(id, op.now + 3_600_000_000_000, None)]))
  {
    hide Step, Inv;
    KnownEmails(s, cfg.normalize(op.email));
    ForgotStep(cfg, s, op);
    forall id: nat | HasEmail(s, id, cfg.normalize(op.email))
      ensures UsersWith(s.users, cfg.normalize(op.email)) == {id}
    {
      TheAccount(s, id, cfg.normalize(op.email));
    }
  }

  ghost predicate Usable(tokens: map<string, OneTimeToken>, h: string, now: int) {
    h in tokens && tokens[h].usedAt == None && now <= tokens[h].expiresAt
  }

  /** Every live token of the user revoked now, all others as they were. */
  ghost predicate SessionsEnded(s: Tables, s': Tables, userId: nat, now: int) {
    && s'.refresh.Keys == s.refresh.Keys
    && forall h :: h in s.refresh ==>
         s'.refresh[h] == if s.refresh[h].userId == userId && s.refresh[h].revokedAt == None
           then s.refresh[h].(revokedAt := Some(now)) else s.refresh[h]
  }

  /** Resetting: a usable token and an acceptable password change that account's password,
      use the token up and end the account's sessions, all together. */
  lemma ResetAnswered(cfg: Config, s: Tables, op: Op)
    requires op.ResetOp?
    ensures var (s', error) := Step(cfg, s, op);
      var h := cfg.hash(op.token);
      if TrimSpace(op.token) == "" || |op.newPassword| < 8 then s' == s && error == Some(Validation)
      else if !Usable(s.resets, h, op.now) then s' == s && error == Some(Unauthorized)
      else if op.newHash == None then s' == s && error == Some(Internal)
      else
        var id := s.resets[h].userId;
        if id !in s.users then s' == s && error == Some(NotFound)
        else
          && error == None && SessionsEnded(s, s', id, op.now)
          && s'.users == s.users[id := s.users[id].(passwordHash := op.newHash.value)]
          && s'.resets == s.resets[h := s.resets[h].(usedAt := Some(op.now))]
          && s'.verifies == s.verifies && s'.nextId == s.nextId
  {
    hide Step;
    ResetStep(cfg, s, op);
  }

  /** Verifying: a usable token marks its account as verified now, and is used up. */
  lemma VerifyAnswered(cfg: Config, s: Tables, op: Op)
    requires op.VerifyOp?
    ensures var (s', error) := Step(cfg, s, op);
      var h := cfg.hash(op.token);
      if TrimSpace(op.token) == "" then s' == s && error == Some(Validation)
      else if !Usable(s.verifies, h, op.now) then s' == s && error == Some(Unauthorized)
      else
        var id := s.verifies[h].userId;
        if id !in s.users then s' == s && error == Some(NotFound)
        else
          && error == None
          && s' == s.(users := s.users[id := s.users[id].(verifiedAt := Some(op.now))],
                      verifies := s.verifies[h := s.verifies[h].(usedAt := Some(op.now))])
  {
    hide Step;
    VerifyStep(cfg, s, op);
  }

  // --- failing calls ---------------------------------------------------------------------------

  /** The registration makes an account and then cannot store one of its tokens. */
  ghost predicate HalfRegistered(cfg: Config, s: Tables, op: Op)
    requires op.RegisterOp?
  {
    && GoodRegistration(cfg, op) && op.role.Some? && op.passwordHash.Some? && !Known(s, cfg.normalize(op.email))
    && (cfg.hash(op.verifyRaw) in s.verifies || cfg.hash(op.raw) in s.refresh)
  }

  /** The token is good and gets revoked, and the new one cannot be stored. */
  ghost predicate SessionLost(cfg: Config, s: Tables, op: Op)
    requires op.RefreshOp?
  {
    var h := cfg.hash(op.token);
    && TrimSpace(op.token) != "" && Live(s, h, op.now)
    && s.refresh[h].userId in s.users && s.users[s.refresh[h].userId].active
    && cfg.hash(op.raw) in s.refresh
  }

  lemma LoginFailsCleanly(cfg: Config, s: Tables, op: Op)
    requires op.LoginOp? && Step(cfg, s, op).1.Some?
    ensures Step(cfg, s, op).0 == s
  {
    hide Step;
    LoginStep(cfg, s, op);
  }

  lemma AskFailsCleanly(cfg: Config, s: Tables, op: Op)
    requires op.ForgotOp? && Step(cfg, s, op).1.Some?
    ensures Step(cfg, s, op).0 == s
  {
    hide Step;
    ForgotStep(cfg, s, op);
  }

  lemma RegisterHalfDone(cfg: Config, s: Tables, op: Op)
    requires Inv(s) && op.RegisterOp?
    ensures Step(cfg, s, op).1.Some? && Step(cfg, s, op).0 != s <==> HalfRegistered(cfg, s, op)
  {
    hide Step;
    RegisterAnswered(cfg, s, op);
  }

  lemma RefreshHalfDone(cfg: Config, s: Tables, op: Op)
    requires op.RefreshOp?
    ensures Step(cfg, s, op).1.Some? && Step(cfg, s, op).0 != s <==> SessionLost(cfg, s, op)
  {
    hide Step;
    RefreshAnswered(cfg, s, op);
  }

  /** A call that reports an error has changed nothing, except exactly for these
      registrations and refreshes. */
  lemma AuthErrorAfterWrite(cfg: Config, s: Tables, op: Op)
    requires Inv(s)
    ensures var (s', error) := Step(cfg, s, op);
      error.Some? && s' != s <==>
        (op.RegisterOp? && HalfRegistered(cfg, s, op)) || (op.RefreshOp? && SessionLost(cfg, s, op))
  {
    hide Step, Inv, HalfRegistered, SessionLost, Known, Live, Usable, OnlyRevoked, SessionsEnded;
    match op
    case RegisterOp(_, _, _, _, _, _, _, _) => RegisterHalfDone(cfg, s, op);
    case LoginOp(_, _, _, _) => if Step(cfg, s, op).1.Some? { LoginFailsCleanly(cfg, s, op); }
    case RefreshOp(_, _, _) => RefreshHalfDone(cfg, s, op);
    case LogoutOp(_, _) => LogoutAnswered(cfg, s, op);
    case ForgotOp(_, _, _) => if Step(cfg, s, op).1.Some? { AskFailsCleanly(cfg, s, op); }
    case ResetOp(_, _, _, _) => ResetAnswered(cfg, s, op);
    case VerifyOp(_, _) => VerifyAnswered(cfg, s, op);
    case SetActiveOp(_, _) => AdminAnswered(cfg, s, op);
    case DeleteUserOp(_) => AdminAnswered(cfg, s, op);
  }

  lemma AdminAnswered(cfg: Config, s: Tables, op: Op)
    requires op.SetActiveOp? || op.DeleteUserOp?
    ensures Step(cfg, s, op).1.Some? ==> Step(cfg, s, op).0 == s
  {
  }
}
