/** The life of tokens over whole runs of the authentication service. */
module AuthRuns {
  import opened Common
  import opened AuthStore
  import opened AuthLaws

  // --- what a call can do to tokens ------------------------------------------------------------

  /** Tokens are never forgotten, never change owner or expiry, and stay revoked. */
  ghost predicate RefreshKept(before: map<string, RefreshToken>, after: map<string, RefreshToken>) {
    forall h :: h in before ==>
      && h in after && after[h].userId == before[h].userId && after[h].expiresAt == before[h].expiresAt
      && (before[h].revokedAt.Some? ==> after[h] == before[h])
  }

  ghost predicate OneTimeKept(before: map<string, OneTimeToken>, after: map<string, OneTimeToken>) {
    forall h :: h in before ==>
      && h in after && after[h].userId == before[h].userId && after[h].expiresAt == before[h].expiresAt
      && (before[h].usedAt.Some? ==> after[h] == before[h])
  }

  ghost predicate TokensKept(s: Tables, s': Tables) {
    RefreshKept(s.refresh, s'.refresh) && OneTimeKept(s.resets, s'.resets) && OneTimeKept(s.verifies, s'.verifies)
  }

  lemma RevokingKeeps(refresh: map<string, RefreshToken>, h: string, userId: nat, now: int)
    ensures RefreshKept(refresh, Revoked(refresh, h, now)) && RefreshKept(refresh, AllRevoked(refresh, userId, now))
  {
  }

  lemma IssueKeeps(cfg: Config, s: Tables, userId: nat, raw: string, now: int)
    ensures RefreshKept(s.refresh, IssueSession(cfg, s, userId, raw, now).0.refresh)
  {
  }

  lemma RefreshKeeps(cfg: Config, s: Tables, token: string, raw: string, now: int)
    ensures RefreshKept(s.refresh, Refresh(cfg, s, token, raw, now).0.refresh)
  {
    hide RefreshKept, IssueSession, Revoked;
    var h := cfg.hash(token);
    NothingKept(s);
    if h in s.refresh {
      var revoked := Revoked(s.refresh, h, now);
      RevokingKeeps(s.refresh, h, s.refresh[h].userId, now);
      IssueKeeps(cfg, s.(refresh := revoked), s.refresh[h].userId, raw, now);
      KeptTwice(s.refresh, revoked, IssueSession(cfg, s.(refresh := revoked), s.refresh[h].userId, raw, now).0.refresh);
    }
  }

  lemma NothingKept(s: Tables)
    ensures TokensKept(s, s)
  {
  }

  lemma KeptTwice(before: map<string, RefreshToken>, middle: map<string, RefreshToken>, after: map<string,
                  RefreshToken>)
    requires RefreshKept(before, middle) && RefreshKept(middle, after)
    ensures RefreshKept(before, after)
  {
  }

  lemma RegisterKeeps(cfg: Config, s: Tables, email: string, password: string, fullName: string,
                      role: Option<string>, passwordHash: Option<string>, verifyRaw: string, raw: string, now: int)
    ensures TokensKept(s, Register(cfg, s, email, password, fullName, role, passwordHash, verifyRaw, raw, now).0)
  {
    hide Inv, UsersWith;
  }

  lemma LoginKeeps(cfg: Config, s: Tables, email: string, password: string, raw: string, now: int)
    ensures RefreshKept(s.refresh, Login(cfg, s, email, password, raw, now).0.refresh)
  {
  }

  lemma ForgotKeeps(cfg: Config, s: Tables, email: string, raw: string, now: int)
    ensures OneTimeKept(s.resets, ForgotPassword(cfg, s, email, raw, now).0.resets)
  {
  }

  lemma ResetKeeps(cfg: Config, s: Tables, token: string, newPassword: string, newHash: Option<string>, now: int)
    ensures TokensKept(s, ResetPassword(cfg, s, token, newPassword, newHash, now).0)
  {
    hide AllRevoked, RefreshKept;
    NothingKept(s);
    if cfg.hash(token) in s.resets {
      RevokingKeeps(s.refresh, "", s.resets[cfg.hash(token)].userId, now);
    }
  }

  lemma VerifyKeeps(cfg: Config, s: Tables, token: string, now: int)
    ensures TokensKept(s, VerifyEmail(cfg, s, token, now).0)
  {
  }

  lemma StepKeepsTokens(cfg: Config, s: Tables, op: Op)
    ensures TokensKept(s, Step(cfg, s, op).0)
  {
    hide Step, Register, Login, Refresh, ForgotPassword, ResetPassword, VerifyEmail, RefreshKept, OneTimeKept;
    NothingKept(s);
    match op
    case RegisterOp(email, password, fullName, role, passwordHash, verifyRaw, raw, now) =>
      RegisterStep(cfg, s, op);
      RegisterKeeps(cfg, s, email, password, fullName, role, passwordHash, verifyRaw, raw, now);
    case LoginOp(email, password, raw, now) =>
      LoginStep(cfg, s, op);
      LoginKeeps(cfg, s, email, password, raw, now);
    case RefreshOp(token, raw, now) =>
      RefreshStep(cfg, s, op);
      RefreshKeeps(cfg, s, token, raw, now);
    case LogoutOp(token, now) =>
      LogoutStep(cfg, s, op);
      RevokingKeeps(s.refresh, cfg.hash(token), 0, now);
    case ForgotOp(email, raw, now) =>
      ForgotStep(cfg, s, op);
      ForgotKeeps(cfg, s, email, raw, now);
    case ResetOp(token, newPassword, newHash, now) =>
      ResetStep(cfg, s, op);
      ResetKeeps(cfg, s, token, newPassword, newHash, now);
    case VerifyOp(token, now) =>
      VerifyStep(cfg, s, op);
      VerifyKeeps(cfg, s, token, now);
    case SetActiveOp(_, _) => AdminStep(cfg, s, op);
    case DeleteUserOp(_) => AdminStep(cfg, s, op);
  }

  lemma {:induction false} RunKeepsTokens(cfg: Config, s: Tables, ops: seq<Op>)
    ensures TokensKept(s, Run(cfg, s, ops))
  {
    if ops != [] {
      var before := ops[..|ops| - 1];
      RunKeepsTokens(cfg, s, before);
      StepKeepsTokens(cfg, Run(cfg, s, before), ops[|ops| - 1]);
    }
  }

  lemma RegisterKeepsInv(cfg: Config, s: Tables, email: string, password: string, fullName: string,
                         role: Option<string>, passwordHash: Option<string>, verifyRaw: string, raw: string, now: int)
    requires Inv(s)
    ensures Inv(Register(cfg, s, email, password, fullName, role, passwordHash, verifyRaw, raw, now).0)
  {
    var e := cfg.normalize(email);
    if UsersWith(s.users, e) == {} {
      forall id | id in s.users ensures s.users[id].email != e {
        assert id !in UsersWith(s.users, e);
      }
    }
  }

  lemma StepKeepsInv(cfg: Config, s: Tables, op: Op)
    requires Inv(s)
    ensures Inv(Step(cfg, s, op).0)
  {
    hide Step, Register, Login, Refresh, ForgotPassword;
    match op
    case RegisterOp(email, password, fullName, role, passwordHash, verifyRaw, raw, now) =>
      RegisterStep(cfg, s, op);
      RegisterKeepsInv(cfg, s, email, password, fullName, role, passwordHash, verifyRaw, raw, now);
    case LoginOp(_, _, _, _) => LoginStep(cfg, s, op);
    case RefreshOp(_, _, _) => RefreshStep(cfg, s, op);
    case LogoutOp(_, _) => LogoutStep(cfg, s, op);
    case ForgotOp(_, _, _) => ForgotStep(cfg, s, op);
    case ResetOp(_, _, _, _) => ResetStep(cfg, s, op);
    case VerifyOp(_, _) => VerifyStep(cfg, s, op);
    case SetActiveOp(_, _) => AdminStep(cfg, s, op);
    case DeleteUserOp(_) => AdminStep(cfg, s, op);
  }

  lemma {:induction false} RunKeepsInv(cfg: Config, s: Tables, ops: seq<Op>)
    requires Inv(s)
    ensures Inv(Run(cfg, s, ops))
  {
    if ops != [] {
      RunKeepsInv(cfg, s, ops[..|ops| - 1]);
      StepKeepsInv(cfg, Run(cfg, s, ops[..|ops| - 1]), ops[|ops| - 1]);
    }
  }

  lemma {:induction false} RunConcat(cfg: Config, s: Tables, first: seq<Op>, second: seq<Op>)
    ensures Run(cfg, s, first + second) == Run(cfg, Run(cfg, s, first), second)
  {
    if second == [] {
      assert first + second == first;
    } else {
      var n := |second| - 1;
      assert (first + second)[..|first + second| - 1] == first + second[..n];
      RunConcat(cfg, s, first, second[..n]);
    }
  }

  // --- refresh tokens -----------------------------------------------------------------------------

  /** The token is exchanged for a new session. */
  ghost predicate Accepted(cfg: Config, s: Tables, op: Op) {
    op.RefreshOp? && Step(cfg, s, op).1 == None
  }

  /** What acceptance takes, and that it consumes the token. */
  lemma AcceptedMeans(cfg: Config, s: Tables, op: Op)
    requires Accepted(cfg, s, op)
    ensures var h := cfg.hash(op.token);
      && h in s.refresh && s.refresh[h].revokedAt == None && op.now <= s.refresh[h].expiresAt
      && s.refresh[h].userId in s.users && s.users[s.refresh[h].userId].active
      && h in Step(cfg, s, op).0.refresh && Step(cfg, s, op).0.refresh[h].revokedAt == Some(op.now)
  {
  }

  /** Once revoked, a token is refused for the rest of every run. */
  lemma RevokedIsRefused(cfg: Config, s: Tables, ops: seq<Op>, op: Op)
    requires op.RefreshOp? && cfg.hash(op.token) in s.refresh && s.refresh[cfg.hash(op.token)].revokedAt.Some?
    ensures !Accepted(cfg, Run(cfg, s, ops), op)
  {
    RunKeepsTokens(cfg, s, ops);
  }

  /** The call at position k of a run, with the store it finds. */
  ghost predicate AcceptedAt(cfg: Config, s: Tables, ops: seq<Op>, k: nat) {
    k < |ops| && Accepted(cfg, Run(cfg, s, ops[..k]), ops[k])
  }

  lemma RunAt(cfg: Config, s: Tables, ops: seq<Op>, k: nat)
    requires k < |ops|
    ensures Run(cfg, s, ops[..k + 1]) == Step(cfg, Run(cfg, s, ops[..k]), ops[k]).0
  {
    assert ops[..k + 1][..k] == ops[..k];
  }

  lemma RunLater(cfg: Config, s: Tables, ops: seq<Op>, i: nat, j: nat)
    requires i <= j <= |ops|
    ensures Run(cfg, s, ops[..j]) == Run(cfg, Run(cfg, s, ops[..i]), ops[i..j])
  {
    assert ops[..j] == ops[..i] + ops[i..j];
    RunConcat(cfg, s, ops[..i], ops[i..j]);
  }

  /** In every run each refresh token is accepted at most once. */
  lemma AcceptedOnce(cfg: Config, s: Tables, ops: seq<Op>, i: nat, j: nat)
    requires i < j && AcceptedAt(cfg, s, ops, i) && AcceptedAt(cfg, s, ops, j)
    ensures cfg.hash(ops[i].token) != cfg.hash(ops[j].token)
  {
    if cfg.hash(ops[i].token) == cfg.hash(ops[j].token) {
      AcceptedMeans(cfg, Run(cfg, s, ops[..i]), ops[i]);
      RunAt(cfg, s, ops, i);
      RunLater(cfg, s, ops, i + 1, j);
      RevokedIsRefused(cfg, Run(cfg, s, ops[..i + 1]), ops[i + 1..j], ops[j]);
    }
  }

  lemma LogoutRevokes(cfg: Config, s: Tables, op: Op)
    requires op.LogoutOp? && Step(cfg, s, op).1 == None && cfg.hash(op.token) in s.refresh
    ensures cfg.hash(op.token) in Step(cfg, s, op).0.refresh
    ensures Step(cfg, s, op).0.refresh[cfg.hash(op.token)].revokedAt.Some?
  {
    hide Step;
    LogoutStep(cfg, s, op);
  }

  /** A token that was issued and then logged out is never accepted again. */
  lemma NeverAfterLogout(cfg: Config, s: Tables, ops: seq<Op>, i: nat, j: nat)
    requires i < j && i < |ops| && AcceptedAt(cfg, s, ops, j)
    requires ops[i].LogoutOp? && Step(cfg, Run(cfg, s, ops[..i]), ops[i]).1 == None
    requires cfg.hash(ops[i].token) in Run(cfg, s, ops[..i]).refresh
    ensures cfg.hash(ops[i].token) != cfg.hash(ops[j].token)
  {
    hide Step, Run;
    LogoutRevokes(cfg, Run(cfg, s, ops[..i]), ops[i]);
    if cfg.hash(ops[i].token) == cfg.hash(ops[j].token) {
      RunAt(cfg, s, ops, i);
      RunLater(cfg, s, ops, i + 1, j);
      RevokedIsRefused(cfg, Run(cfg, s, ops[..i + 1]), ops[i + 1..j], ops[j]);
    }
  }

  // --- rotation -------------------------------------------------------------------------------------

  ghost function LiveTokens(refresh: map<string, RefreshToken>, userId: nat): set<string> {
    set h | h in refresh && refresh[h].userId == userId && refresh[h].revokedAt == None
  }

  lemma RevokingTakes(refresh: map<string, RefreshToken>, h: string, now: int, userId: nat)
    requires h in refresh
    ensures LiveTokens(Revoked(refresh, h, now), userId) == LiveTokens(refresh, userId) - {h}
  {
  }

  lemma IssuingAdds(refresh: map<string, RefreshToken>, h: string, token: RefreshToken, userId: nat)
    requires h !in refresh && token.revokedAt == None
    ensures LiveTokens(refresh[h := token], userId)
      == LiveTokens(refresh, userId) + (if token.userId == userId then {h} else {})
  {
  }

  lemma SwapKeepsCount(refresh: map<string, RefreshToken>, spent: string, now: int, issued: string, expiresAt: int,
                       userId: nat)
    requires spent in refresh && refresh[spent].revokedAt == None && issued !in refresh
    ensures var after := Revoked(refresh, spent, now)[issued := RefreshToken(refresh[spent].userId, expiresAt, None)];
      |LiveTokens(after, userId)| == |LiveTokens(refresh, userId)|
  {
    var revoked := Revoked(refresh, spent, now);
    RevokingTakes(refresh, spent, now, userId);
    IssuingAdds(revoked, issued, RefreshToken(refresh[spent].userId, expiresAt, None), userId);
    assert spent in LiveTokens(refresh, userId) <==> refresh[spent].userId == userId;
    assert issued !in LiveTokens(revoked, userId);
  }

  /** What rotation leaves: the spent token revoked, the new one added. */
  lemma AcceptedLeaves(cfg: Config, s: Tables, op: Op)
    requires Accepted(cfg, s, op)
    ensures var spent, issued := cfg.hash(op.token), cfg.hash(op.raw);
      && spent in s.refresh && s.refresh[spent].revokedAt == None && issued !in s.refresh
      && Step(cfg, s, op).0.refresh
         == Revoked(s.refresh, spent, op.now)[
              issued := RefreshToken(s.refresh[spent].userId, op.now + cfg.refreshTtl, None)]
  {
  }

  /** Rotation swaps one token for another: every user keeps the same number of tokens
      that are not revoked. */
  lemma RotationKeepsCount(cfg: Config, s: Tables, op: Op, userId: nat)
    requires Accepted(cfg, s, op)
    ensures |LiveTokens(Step(cfg, s, op).0.refresh, userId)| == |LiveTokens(s.refresh, userId)|
  {
    AcceptedLeaves(cfg, s, op);
    SwapKeepsCount(s.refresh, cfg.hash(op.token), op.now, cfg.hash(op.raw), op.now + cfg.refreshTtl, userId);
  }

  // --- lineage ----------------------------------------------------------------------------------------

  /** Call i of the run created the token for the user. */
  ghost predicate IssuedAt(cfg: Config, ops: seq<Op>, i: nat, h: string, userId: nat)
    requires i < |ops|
  {
    && h !in Run(cfg, EMPTY, ops[..i]).refresh
    && h in Run(cfg, EMPTY, ops[..i + 1]).refresh
    && Run(cfg, EMPTY, ops[..i + 1]).refresh[h].userId == userId
  }

  /** Call j successfully reset the user's password. */
  ghost predicate ResetAt(cfg: Config, ops: seq<Op>, j: nat, userId: nat)
    requires j < |ops|
  {
    var s := Run(cfg, EMPTY, ops[..j]);
    && ops[j].ResetOp? && Step(cfg, s, ops[j]).1 == None
    && cfg.hash(ops[j].token) in s.resets && s.resets[cfg.hash(ops[j].token)].userId == userId
  }

  ghost predicate NoResetBetween(cfg: Config, ops: seq<Op>, i: nat, k: nat, userId: nat)
    requires k <= |ops|
  {
    forall j :: i < j < k ==> !ResetAt(cfg, ops, j, userId)
  }

  /** Call i authenticated the user: it made the account, or its password checked against the
      account's hash at that moment. */
  ghost predicate AuthenticatedAt(cfg: Config, ops: seq<Op>, i: nat, userId: nat)
    requires i < |ops|
  {
    || (ops[i].RegisterOp? && userId == Run(cfg, EMPTY, ops[..i]).nextId)
    || (ops[i].LoginOp? && Proves(cfg, Run(cfg, EMPTY, ops[..i]), ops[i], userId))
  }

  /** Before call k, the token goes back through rotations, all of the same user, to the
      registration of the account or a login with its password, and that password was never
      reset on the way. */
  ghost predicate Lineage(cfg: Config, ops: seq<Op>, k: nat, h: string, userId: nat)
    requires k <= |ops|
    decreases k
  {
    exists i :: 0 <= i < k && IssuedAt(cfg, ops, i, h, userId) && NoResetBetween(cfg, ops, i, k, userId)
      && (AuthenticatedAt(cfg, ops, i, userId)
          || (ops[i].RefreshOp? && Lineage(cfg, ops, i, cfg.hash(ops[i].token), userId)))
  }

  /** A token that appears comes from the registration of its user, a login with that user's
      password, or the rotation of a token of the same user. */
  lemma NewToken(cfg: Config, s: Tables, op: Op, h: string)
    requires Inv(s) && h !in s.refresh && h in Step(cfg, s, op).0.refresh
    ensures var userId := Step(cfg, s, op).0.refresh[h].userId;
      || (op.RegisterOp? && userId == s.nextId)
      || (op.LoginOp? && Proves(cfg, s, op, userId))
      || (op.RefreshOp? && Accepted(cfg, s, op) && cfg.hash(op.token) in s.refresh
          && s.refresh[cfg.hash(op.token)].revokedAt == None && userId == s.refresh[cfg.hash(op.token)].userId)
  {
    hide Step, Inv, Proves;
    match op
    case RegisterOp(_, _, _, _, _, _, _, _) => RegisterAnswered(cfg, s, op);
    case LoginOp(_, _, _, _) =>
      LoginStep(cfg, s, op);
      LoginSucceeds(cfg, s, op);
      if Step(cfg, s, op).1.Some? { LoginFailsCleanly(cfg, s, op); }
    case RefreshOp(_, _, _) => RefreshAnswered(cfg, s, op);
    case LogoutOp(_, _) => LogoutAnswered(cfg, s, op);
    case ForgotOp(_, _, _) => ForgotStep(cfg, s, op);
    case ResetOp(_, _, _, _) => ResetAnswered(cfg, s, op);
    case VerifyOp(_, _) => VerifyAnswered(cfg, s, op);
    case SetActiveOp(_, _) => AdminStep(cfg, s, op);
    case DeleteUserOp(_) => AdminStep(cfg, s, op);
  }

  lemma ResetRevokes(cfg: Config, s: Tables, op: Op, userId: nat)
    requires op.ResetOp? && Step(cfg, s, op).1 == None
    requires cfg.hash(op.token) in s.resets && s.resets[cfg.hash(op.token)].userId == userId
    ensures forall h :: h in s.refresh && s.refresh[h].userId == userId ==>
      h in Step(cfg, s, op).0.refresh && Step(cfg, s, op).0.refresh[h].revokedAt.Some?
  {
  }

  /** A token that survives a call unrevoked had the same owner before, and the call was no
      reset of that owner's password. */
  lemma OldTokenStays(cfg: Config, s: Tables, op: Op, h: string)
    requires h in s.refresh && h in Step(cfg, s, op).0.refresh && Step(cfg, s, op).0.refresh[h].revokedAt == None
    ensures s.refresh[h].revokedAt == None && Step(cfg, s, op).0.refresh[h].userId == s.refresh[h].userId
    ensures op.ResetOp? && Step(cfg, s, op).1 == None ==>
      !(cfg.hash(op.token) in s.resets && s.resets[cfg.hash(op.token)].userId == s.refresh[h].userId)
  {
    StepKeepsTokens(cfg, s, op);
  }

  lemma NoResetExtends(cfg: Config, ops: seq<Op>, i: nat, k: nat, userId: nat)
    requires i < k < |ops| && NoResetBetween(cfg, ops, i, k, userId) && !ResetAt(cfg, ops, k, userId)
    ensures NoResetBetween(cfg, ops, i, k + 1, userId)
  {
  }

  lemma LineageExtends(cfg: Config, ops: seq<Op>, k: nat, h: string, userId: nat)
    requires k < |ops| && Lineage(cfg, ops, k, h, userId) && !ResetAt(cfg, ops, k, userId)
    ensures Lineage(cfg, ops, k + 1, h, userId)
  {
    var i: nat :| i < k && IssuedAt(cfg, ops, i, h, userId) && NoResetBetween(cfg, ops, i, k, userId)
      && (AuthenticatedAt(cfg, ops, i, userId)
          || (ops[i].RefreshOp? && Lineage(cfg, ops, i, cfg.hash(ops[i].token), userId)));
    NoResetExtends(cfg, ops, i, k, userId);
  }

  lemma LineageStarts(cfg: Config, ops: seq<Op>, k: nat, h: string, userId: nat)
    requires k < |ops| && IssuedAt(cfg, ops, k, h, userId)
    requires AuthenticatedAt(cfg, ops, k, userId)
      || (ops[k].RefreshOp? && Lineage(cfg, ops, k, cfg.hash(ops[k].token), userId))
    ensures Lineage(cfg, ops, k + 1, h, userId)
  {
    assert NoResetBetween(cfg, ops, k, k + 1, userId);
  }

  lemma RunStart(cfg: Config, s: Tables, ops: seq<Op>)
    ensures Run(cfg, s, ops[..0]) == s
  {
  }

  /** Every token that is not revoked has such a lineage. */
  lemma {:induction false} LiveTokenLineage(cfg: Config, ops: seq<Op>, k: nat, h: string)
    requires k <= |ops|
    requires var s := Run(cfg, EMPTY, ops[..k]); h in s.refresh && s.refresh[h].revokedAt == None
    ensures Lineage(cfg, ops, k, h, Run(cfg, EMPTY, ops[..k]).refresh[h].userId)
    decreases k
  {
    hide Step, Run, Inv, Lineage, Proves, Accepted, NoResetBetween;
    RunStart(cfg, EMPTY, ops);
    if k > 0 {
      var s, op := Run(cfg, EMPTY, ops[..k - 1]), ops[k - 1];
      RunAt(cfg, EMPTY, ops, k - 1);
      EmptyOk();
      RunKeepsInv(cfg, EMPTY, ops[..k - 1]);
      if h in s.refresh {
        OldTokenStays(cfg, s, op, h);
        LiveTokenLineage(cfg, ops, k - 1, h);
        LineageExtends(cfg, ops, k - 1, h, s.refresh[h].userId);
      } else {
        NewToken(cfg, s, op, h);
        if op.RefreshOp? {
          LiveTokenLineage(cfg, ops, k - 1, cfg.hash(op.token));
        }
        LineageStarts(cfg, ops, k - 1, h, Run(cfg, EMPTY, ops[..k]).refresh[h].userId);
      }
    }
  }

  lemma EmptyOk()
    ensures Inv(EMPTY)
  {
  }

  /** So every token that is ever accepted chains back to a registration or login of the
      same user, with no password reset in between. */
  lemma AcceptedLineage(cfg: Config, ops: seq<Op>, k: nat)
    requires AcceptedAt(cfg, EMPTY, ops, k)
    ensures var s := Run(cfg, EMPTY, ops[..k]);
      var h := cfg.hash(ops[k].token);
      h in s.refresh && Lineage(cfg, ops, k, h, s.refresh[h].userId)
  {
    AcceptedMeans(cfg, Run(cfg, EMPTY, ops[..k]), ops[k]);
    LiveTokenLineage(cfg, ops, k, cfg.hash(ops[k].token));
  }

  // --- password reset and verification ------------------------------------------------------------------

  /** A one-time token is honoured. */
  ghost predicate Honoured(cfg: Config, s: Tables, op: Op) {
    (op.ResetOp? || op.VerifyOp?) && Step(cfg, s, op).1 == None
  }

  /** Honouring takes an unused token before its expiry, of a user who still exists, and
      uses it up. */
  lemma HonouredMeans(cfg: Config, s: Tables, op: Op)
    requires Honoured(cfg, s, op)
    ensures var h := cfg.hash(op.token);
      var (before, after) := if op.ResetOp? then (s.resets, Step(cfg, s, op).0.resets)
        else (s.verifies, Step(cfg, s, op).0.verifies);
      && h in before && before[h].usedAt == None && op.now <= before[h].expiresAt && before[h].userId in s.users
      && h in after && after[h].usedAt == Some(op.now)
  {
  }

  /** Each reset token and each verification token is honoured at most once in a run. */
  lemma HonouredOnce(cfg: Config, s: Tables, ops: seq<Op>, i: nat, j: nat)
    requires i < j < |ops|
    requires Honoured(cfg, Run(cfg, s, ops[..i]), ops[i]) && Honoured(cfg, Run(cfg, s, ops[..j]), ops[j])
    requires ops[i].ResetOp? <==> ops[j].ResetOp?
    ensures cfg.hash(ops[i].token) != cfg.hash(ops[j].token)
  {
    HonouredMeans(cfg, Run(cfg, s, ops[..i]), ops[i]);
    HonouredMeans(cfg, Run(cfg, s, ops[..j]), ops[j]);
    RunAt(cfg, s, ops, i);
    RunLater(cfg, s, ops, i + 1, j);
    RunKeepsTokens(cfg, Run(cfg, s, ops[..i + 1]), ops[i + 1..j]);
  }

  /** After a password reset no token issued to that user before is ever accepted again,
      and the tokens of all other users are exactly as they were. */
  lemma ResetEndsSessions(cfg: Config, s: Tables, reset: Op, ops: seq<Op>, h: string)
    requires reset.ResetOp? && Honoured(cfg, s, reset) && h in s.refresh
    ensures var userId := s.resets[cfg.hash(reset.token)].userId;
      var s' := Step(cfg, s, reset).0;
      && (s.refresh[h].userId == userId ==>
            forall op: Op :: op.RefreshOp? && cfg.hash(op.token) == h ==> !Accepted(cfg, Run(cfg, s', ops), op))
      && (s.refresh[h].userId != userId ==> h in s'.refresh && s'.refresh[h] == s.refresh[h])
      && s'.refresh.Keys == s.refresh.Keys
  {
    HonouredMeans(cfg, s, reset);
    var userId := s.resets[cfg.hash(reset.token)].userId;
    var s' := Step(cfg, s, reset).0;
    ResetRevokes(cfg, s, reset, userId);
    if s.refresh[h].userId == userId {
      forall op: Op | op.RefreshOp? && cfg.hash(op.token) == h ensures !Accepted(cfg, Run(cfg, s', ops), op) {
        RevokedIsRefused(cfg, s', ops, op);
      }
    }
  }

  /** A reset changes one password and nothing about any other account. */
  lemma ResetChangesOneAccount(cfg: Config, s: Tables, reset: Op)
    requires reset.ResetOp? && Honoured(cfg, s, reset)
    ensures var userId, s' := s.resets[cfg.hash(reset.token)].userId, Step(cfg, s, reset).0;
      && reset.newHash.Some? && userId in s'.users && s'.users[userId].passwordHash == reset.newHash.value
      && s'.users - {userId} == s.users - {userId}
  {
  }

  // --- which reset tokens are still honoured -------------------------------------------------------------

  /** Call k of the run uses the reset token with this hash. */
  ghost predicate UsedAt(cfg: Config, s: Tables, ops: seq<Op>, k: nat, h: string)
    requires k < |ops|
  {
    ops[k].ResetOp? && cfg.hash(ops[k].token) == h && Honoured(cfg, Run(cfg, s, ops[..k]), ops[k])
  }

  lemma StepUses(cfg: Config, s: Tables, op: Op, h: string)
    requires h in s.resets && s.resets[h].usedAt == None
    ensures h in Step(cfg, s, op).0.resets
    ensures if op.ResetOp? && cfg.hash(op.token) == h && Honoured(cfg, s, op)
      then Step(cfg, s, op).0.resets[h].usedAt.Some?
      else Step(cfg, s, op).0.resets[h] == s.resets[h]
  {
    hide Step, Register, Login, Refresh, Logout, VerifyEmail;
    match op
    case RegisterOp(_, _, _, _, _, _, _, _) => RegisterStep(cfg, s, op);
    case LoginOp(_, _, _, _) => LoginStep(cfg, s, op);
    case RefreshOp(_, _, _) => RefreshStep(cfg, s, op);
    case LogoutOp(_, _) => LogoutStep(cfg, s, op);
    case ForgotOp(_, _, _) => ForgotStep(cfg, s, op);
    case ResetOp(_, _, _, _) => ResetStep(cfg, s, op);
    case VerifyOp(_, _) => VerifyStep(cfg, s, op);
    case SetActiveOp(_, _) => AdminStep(cfg, s, op);
    case DeleteUserOp(_) => AdminStep(cfg, s, op);
  }

  /** Over a run, a reset token changes only by being used itself. */
  lemma {:induction false} ResetTokenFate(cfg: Config, s: Tables, ops: seq<Op>, h: string)
    requires h in s.resets && s.resets[h].usedAt == None
    ensures h in Run(cfg, s, ops).resets
    ensures if exists k :: 0 <= k < |ops| && UsedAt(cfg, s, ops, k, h) then Run(cfg, s, ops).resets[h].usedAt.Some?
      else Run(cfg, s, ops).resets[h] == s.resets[h]
  {
    hide Step, Honoured, OneTimeKept, RefreshKept;
    if ops != [] {
      var n := |ops| - 1;
      var before := ops[..n];
      ResetTokenFate(cfg, s, before, h);
      forall k | 0 <= k < n ensures UsedAt(cfg, s, before, k, h) <==> UsedAt(cfg, s, ops, k, h) {
        assert before[..k] == ops[..k];
      }
      var middle := Run(cfg, s, before);
      if middle.resets[h].usedAt == None {
        StepUses(cfg, middle, ops[n], h);
      } else {
        UsedStays(cfg, middle, ops[n], h);
      }
      assert UsedAt(cfg, s, ops, n, h) <==>
        ops[n].ResetOp? && cfg.hash(ops[n].token) == h && Honoured(cfg, middle, ops[n]);
    }
  }

  lemma UsedStays(cfg: Config, s: Tables, op: Op, h: string)
    requires h in s.resets && s.resets[h].usedAt.Some?
    ensures h in Step(cfg, s, op).0.resets && Step(cfg, s, op).0.resets[h] == s.resets[h]
  {
    hide Step;
    StepKeepsTokens(cfg, s, op);
  }

  /** What is asked of the request itself. */
  predicate GoodRequest(op: Op)
    requires op.ResetOp?
  {
    TrimSpace(op.token) != "" && |op.newPassword| >= MIN_PASSWORD_LEN && op.newHash.Some?
  }

  lemma HonouredIff(cfg: Config, s: Tables, op: Op)
    requires op.ResetOp? && cfg.hash(op.token) in s.resets
    ensures var token := s.resets[cfg.hash(op.token)];
      Honoured(cfg, s, op) <==>
        GoodRequest(op) && token.usedAt == None && op.now <= token.expiresAt && token.userId in s.users
  {
    hide Step;
    ResetStep(cfg, s, op);
  }

  /** A successful reset leaves the user's other reset tokens as they were: at any point of
      any later run such a token is honoured exactly when it was unused at the reset, no call
      since has used it, it is not expired and the account still exists. */
  lemma OtherTokensStillHonoured(cfg: Config, s: Tables, reset: Op, ops: seq<Op>, op: Op)
    requires reset.ResetOp? && Honoured(cfg, s, reset) && op.ResetOp?
    requires cfg.hash(op.token) in s.resets && cfg.hash(op.token) != cfg.hash(reset.token)
    ensures var h, s' := cfg.hash(op.token), Step(cfg, s, reset).0;
      Honoured(cfg, Run(cfg, s', ops), op) <==>
        && GoodRequest(op) && s.resets[h].usedAt == None && op.now <= s.resets[h].expiresAt
        && s.resets[h].userId in Run(cfg, s', ops).users
        && !exists k :: 0 <= k < |ops| && UsedAt(cfg, s', ops, k, h)
  {
    hide Step, Run, Honoured, UsedAt, OneTimeKept, RefreshKept;
    var h, s' := cfg.hash(op.token), Step(cfg, s, reset).0;
    if s.resets[h].usedAt == None {
      StepUses(cfg, s, reset, h);
      ResetTokenFate(cfg, s', ops, h);
    } else {
      UsedStays(cfg, s, reset, h);
      UsedForever(cfg, s', ops, h);
    }
    HonouredIff(cfg, Run(cfg, s', ops), op);
  }

  lemma UsedForever(cfg: Config, s: Tables, ops: seq<Op>, h: string)
    requires h in s.resets && s.resets[h].usedAt.Some?
    ensures h in Run(cfg, s, ops).resets && Run(cfg, s, ops).resets[h] == s.resets[h]
  {
    hide Run;
    RunKeepsTokens(cfg, s, ops);
  }

  // --- where one-time tokens come from, and what they change ---------------------------------------------

  /** Call i asked for a password reset for the email the account had then, and made the token. */
  ghost predicate ForgotFor(cfg: Config, ops: seq<Op>, i: nat, h: string, token: OneTimeToken)
    requires i < |ops|
  {
    var s := Run(cfg, EMPTY, ops[..i]);
    && ops[i].ForgotOp? && cfg.hash(ops[i].raw) == h
    && token.userId in s.users && s.users[token.userId].email == cfg.normalize(ops[i].email)
    && token.expiresAt == ops[i].now + PASSWORD_RESET_TTL
  }

  /** Call i registered the account and made the token. */
  ghost predicate RegisteredBy(cfg: Config, ops: seq<Op>, i: nat, h: string, token: OneTimeToken)
    requires i < |ops|
  {
    && ops[i].RegisterOp? && cfg.hash(ops[i].verifyRaw) == h
    && token.userId == Run(cfg, EMPTY, ops[..i]).nextId
    && token.userId in Run(cfg, EMPTY, ops[..i + 1]).users
    && token.expiresAt == ops[i].now + EMAIL_VERIFICATION_TTL
  }

  /** A reset token that appears was just asked for. */
  lemma NewResetToken(cfg: Config, s: Tables, op: Op, h: string)
    requires h !in s.resets && h in Step(cfg, s, op).0.resets
    ensures var token := Step(cfg, s, op).0.resets[h];
      && op.ForgotOp? && cfg.hash(op.raw) == h && token.expiresAt == op.now + PASSWORD_RESET_TTL
      && token.userId in s.users && s.users[token.userId].email == cfg.normalize(op.email)
  {
  }

  lemma NewVerifyToken(cfg: Config, s: Tables, op: Op, h: string)
    requires h !in s.verifies && h in Step(cfg, s, op).0.verifies
    ensures var s' := Step(cfg, s, op).0;
      && op.RegisterOp? && cfg.hash(op.verifyRaw) == h && s'.verifies[h].expiresAt == op.now + EMAIL_VERIFICATION_TTL
      && s'.verifies[h].userId == s.nextId && s.nextId in s'.users
  {
  }

  lemma {:induction false} ResetTokenOrigin(cfg: Config, ops: seq<Op>, k: nat, h: string) returns (i: nat)
    requires k <= |ops| && h in Run(cfg, EMPTY, ops[..k]).resets
    ensures i < k && ForgotFor(cfg, ops, i, h, Run(cfg, EMPTY, ops[..k]).resets[h])
    decreases k
  {
    hide Step;
    if k > 0 {
      var s, op := Run(cfg, EMPTY, ops[..k - 1]), ops[k - 1];
      RunAt(cfg, EMPTY, ops, k - 1);
      if h in s.resets {
        i := ResetTokenOrigin(cfg, ops, k - 1, h);
        StepKeepsTokens(cfg, s, op);
      } else {
        NewResetToken(cfg, s, op, h);
        i := k - 1;
      }
    }
  }

  lemma {:induction false} VerifyTokenOrigin(cfg: Config, ops: seq<Op>, k: nat, h: string) returns (i: nat)
    requires k <= |ops| && h in Run(cfg, EMPTY, ops[..k]).verifies
    ensures i < k && RegisteredBy(cfg, ops, i, h, Run(cfg, EMPTY, ops[..k]).verifies[h])
    decreases k
  {
    hide Step;
    if k > 0 {
      var s, op := Run(cfg, EMPTY, ops[..k - 1]), ops[k - 1];
      RunAt(cfg, EMPTY, ops, k - 1);
      if h in s.verifies {
        i := VerifyTokenOrigin(cfg, ops, k - 1, h);
        StepKeepsTokens(cfg, s, op);
      } else {
        NewVerifyToken(cfg, s, op, h);
        i := k - 1;
      }
    }
  }

  /** A call changes at most this about an existing account. */
  ghost predicate AccountChange(cfg: Config, s: Tables, op: Op, id: nat)
    requires id in s.users
  {
    var s' := Step(cfg, s, op).0;
    if id !in s'.users then op == DeleteUserOp(id)
    else
      var before, after := s.users[id], s'.users[id];
      && after.id == before.id && after.email == before.email
      && (after.active != before.active ==> op == SetActiveOp(id, after.active))
      && (after.passwordHash != before.passwordHash ==>
            && op.ResetOp? && Honoured(cfg, s, op) && cfg.hash(op.token) in s.resets
               && s.resets[cfg.hash(op.token)].userId == id)
      && (after.verifiedAt != before.verifiedAt ==>
            && op.VerifyOp? && Honoured(cfg, s, op) && cfg.hash(op.token) in s.verifies
               && s.verifies[cfg.hash(op.token)].userId == id)
  }

  lemma AccountChanges(cfg: Config, s: Tables, op: Op, id: nat)
    requires id in s.users && id < s.nextId
    ensures AccountChange(cfg, s, op, id)
  {
    hide Step, Register, Login, Refresh, Logout, ForgotPassword, ResetPassword, VerifyEmail;
    match op
    case RegisterOp(_, _, _, _, _, _, _, _) => RegisterLeavesAccounts(cfg, s, op, id);
    case LoginOp(_, _, _, _) => LoginStep(cfg, s, op);
    case RefreshOp(_, _, _) => RefreshStep(cfg, s, op);
    case LogoutOp(_, _) => LogoutStep(cfg, s, op);
    case ForgotOp(_, _, _) => ForgotStep(cfg, s, op);
    case ResetOp(_, _, _, _) => ResetChanges(cfg, s, op, id);
    case VerifyOp(_, _) => VerifyChanges(cfg, s, op, id);
    case SetActiveOp(_, _) => AdminStep(cfg, s, op);
    case DeleteUserOp(_) => AdminStep(cfg, s, op);
  }

  lemma RegisterLeavesAccounts(cfg: Config, s: Tables, op: Op, id: nat)
    requires op.RegisterOp? && id in s.users && id < s.nextId
    ensures id in Step(cfg, s, op).0.users && Step(cfg, s, op).0.users[id] == s.users[id]
  {
    hide Step;
    RegisterStep(cfg, s, op);
  }

  lemma ResetChanges(cfg: Config, s: Tables, op: Op, id: nat)
    requires op.ResetOp? && id in s.users
    ensures AccountChange(cfg, s, op, id)
  {
    hide Step;
    ResetStep(cfg, s, op);
  }

  lemma VerifyChanges(cfg: Config, s: Tables, op: Op, id: nat)
    requires op.VerifyOp? && id in s.users
    ensures AccountChange(cfg, s, op, id)
  {
    hide Step;
    VerifyStep(cfg, s, op);
  }

  /** The password of an account changes, at any point of any run, only through a reset
      token that was asked for at most an hour before with the email of that account. */
  lemma PasswordChangeTraced(cfg: Config, ops: seq<Op>, k: nat, id: nat) returns (i: nat)
    requires k < |ops|
    requires var s, s' := Run(cfg, EMPTY, ops[..k]), Run(cfg, EMPTY, ops[..k + 1]);
      id in s.users && id in s'.users && s'.users[id].passwordHash != s.users[id].passwordHash
    ensures i < k && ops[i].ForgotOp? && ops[k].ResetOp? && cfg.hash(ops[i].raw) == cfg.hash(ops[k].token)
    ensures var then_ := Run(cfg, EMPTY, ops[..i]);
      id in then_.users && then_.users[id].email == cfg.normalize(ops[i].email)
    ensures ops[k].now <= ops[i].now + PASSWORD_RESET_TTL
  {
    var s, op := Run(cfg, EMPTY, ops[..k]), ops[k];
    RunAt(cfg, EMPTY, ops, k);
    RunKeepsInv(cfg, EMPTY, ops[..k]);
    AccountChanges(cfg, s, op, id);
    HonouredMeans(cfg, s, op);
    i := ResetTokenOrigin(cfg, ops, k, cfg.hash(op.token));
  }

  /** Call i set the account's password: by registering it, or by a reset. */
  ghost predicate SetsPassword(cfg: Config, ops: seq<Op>, i: nat, id: nat, hash: string)
    requires i < |ops|
  {
    || (&& ops[i].RegisterOp? && ops[i].passwordHash == Some(hash) && id == Run(cfg, EMPTY, ops[..i]).nextId
        && id in Run(cfg, EMPTY, ops[..i + 1]).users)
    || (ResetAt(cfg, ops, i, id) && ops[i].newHash == Some(hash))
  }

  lemma NewAccountIs(cfg: Config, s: Tables, op: Op, id: nat)
    requires Inv(s) && id !in s.users && id in Step(cfg, s, op).0.users
    ensures op.RegisterOp? && id == s.nextId && op.passwordHash == Some(Step(cfg, s, op).0.users[id].passwordHash)
  {
    hide Step, Inv;
    match op
    case RegisterOp(_, _, _, _, _, _, _, _) => RegisterAnswered(cfg, s, op);
    case LoginOp(_, _, _, _) => LoginStep(cfg, s, op);
    case RefreshOp(_, _, _) => RefreshStep(cfg, s, op);
    case LogoutOp(_, _) => LogoutStep(cfg, s, op);
    case ForgotOp(_, _, _) => ForgotStep(cfg, s, op);
    case ResetOp(_, _, _, _) => ResetAnswered(cfg, s, op);
    case VerifyOp(_, _) => VerifyAnswered(cfg, s, op);
    case SetActiveOp(_, _) => AdminStep(cfg, s, op);
    case DeleteUserOp(_) => AdminStep(cfg, s, op);
  }

  /** What a call does to an existing account's password. */
  lemma OldPassword(cfg: Config, s: Tables, op: Op, id: nat)
    requires Inv(s) && id in s.users && id in Step(cfg, s, op).0.users
    ensures Step(cfg, s, op).0.users[id].passwordHash
      == if op.ResetOp? && Step(cfg, s, op).1 == None && cfg.hash(op.token) in s.resets
            && s.resets[cfg.hash(op.token)].userId == id && op.newHash.Some?
         then op.newHash.value else s.users[id].passwordHash
    ensures op.ResetOp? && Step(cfg, s, op).1 == None ==> op.newHash.Some? && cfg.hash(op.token) in s.resets
  {
    hide Step;
    AccountChanges(cfg, s, op, id);
    if op.ResetOp? { ResetAnswered(cfg, s, op); }
  }

  /** An account's password hash is the one its registration or its latest reset gave. */
  lemma {:induction false} PasswordSetLast(cfg: Config, ops: seq<Op>, k: nat, id: nat) returns (i: nat)
    requires k <= |ops| && id in Run(cfg, EMPTY, ops[..k]).users
    ensures i < k && SetsPassword(cfg, ops, i, id, Run(cfg, EMPTY, ops[..k]).users[id].passwordHash)
    ensures NoResetBetween(cfg, ops, i, k, id)
    decreases k
  {
    hide Step, Run, Inv;
    RunStart(cfg, EMPTY, ops);
    if k == 0 {
      assert false;
    } else {
      var s, op := Run(cfg, EMPTY, ops[..k - 1]), ops[k - 1];
      RunAt(cfg, EMPTY, ops, k - 1);
      EmptyOk();
      RunKeepsInv(cfg, EMPTY, ops[..k - 1]);
      if id in s.users {
        OldPassword(cfg, s, op, id);
        if ResetAt(cfg, ops, k - 1, id) {
          i := k - 1;
        } else {
          i := PasswordSetLast(cfg, ops, k - 1, id);
        }
      } else {
        NewAccountIs(cfg, s, op, id);
        i := k - 1;
      }
    }
  }

  /** So at any point of any run a login to an account succeeds exactly when the account is
      active and the password checks against the hash that its registration or latest reset
      stored (and the new token's hash is free). */
  lemma LoginChecksLatestPassword(cfg: Config, ops: seq<Op>, op: Op, id: nat) returns (i: nat, hash: string)
    requires op.LoginOp? && HasEmail(Run(cfg, EMPTY, ops), id, cfg.normalize(op.email))
    ensures i < |ops| && SetsPassword(cfg, ops, i, id, hash) && NoResetBetween(cfg, ops, i, |ops|, id)
    ensures var s := Run(cfg, EMPTY, ops);
      Step(cfg, s, op).1 == None <==>
        s.users[id].active && cfg.check(hash, op.password) && cfg.hash(op.raw) !in s.refresh
  {
    hide Step, Run, Inv, SetsPassword, NoResetBetween;
    assert ops[..|ops|] == ops;
    var s := Run(cfg, EMPTY, ops);
    i := PasswordSetLast(cfg, ops, |ops|, id);
    hash := s.users[id].passwordHash;
    EmptyOk();
    RunKeepsInv(cfg, EMPTY, ops);
    LoginStep(cfg, s, op);
    LoginAnswered(cfg, s, id, op.email, op.password, op.raw, op.now);
  }

  /** An account becomes verified only through the token its own registration made, within
      48 hours of it. */
  lemma VerificationTraced(cfg: Config, ops: seq<Op>, k: nat, id: nat) returns (i: nat)
    requires k < |ops|
    requires var s, s' := Run(cfg, EMPTY, ops[..k]), Run(cfg, EMPTY, ops[..k + 1]);
      id in s.users && id in s'.users && s'.users[id].verifiedAt != s.users[id].verifiedAt
    ensures i < k && ops[i].RegisterOp? && ops[k].VerifyOp? && cfg.hash(ops[i].verifyRaw) == cfg.hash(ops[k].token)
    ensures id == Run(cfg, EMPTY, ops[..i]).nextId && id in Run(cfg, EMPTY, ops[..i + 1]).users
    ensures ops[k].now <= ops[i].now + EMAIL_VERIFICATION_TTL
  {
    var s, op := Run(cfg, EMPTY, ops[..k]), ops[k];
    RunAt(cfg, EMPTY, ops, k);
    RunKeepsInv(cfg, EMPTY, ops[..k]);
    AccountChanges(cfg, s, op, id);
    HonouredMeans(cfg, s, op);
    i := VerifyTokenOrigin(cfg, ops, k, cfg.hash(op.token));
  }
}
