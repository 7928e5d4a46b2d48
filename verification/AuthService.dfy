/** The authentication service (internal/service/auth.go): each method follows the
    source's steps over the token tables and is proved to do what AuthStore says. */
module AuthService {
  import opened Common
  import opened AuthStore
  import AuthRuns

  class AuthService {
    const cfg: Config
    var db: Tables

    constructor (cfg: Config)
      ensures this.cfg == cfg && db == EMPTY && Inv(db)
    {
      this.cfg := cfg;
      db := EMPTY;
    }

    method GetByEmail(email: string) returns (r: Option<User>)
      requires Inv(db)
      ensures r == None <==> UsersWith(db.users, email) == {}
      ensures r.Some? ==> UsersWith(db.users, email) == {r.value.id} && r == Some(db.users[r.value.id])
    {
      var ids := UsersWith(db.users, email);
      if ids == {} { return None; }
      var id :| id in ids;
      return Some(db.users[id]);
    }

    method IssueSession(userId: nat, raw: string, now: int) returns (r: Result<string>)
      modifies this
      ensures (db, r) == AuthStore.IssueSession(cfg, old(db), userId, raw, now)
      ensures r.Err? ==> db == old(db)
    {
      var h := cfg.hash(raw);
      if h in db.refresh { return Err(Internal); }
      db := db.(refresh := db.refresh[h := RefreshToken(userId, now + cfg.refreshTtl, None)]);
      return Ok(h);
    }

    method Register(email: string, password: string, fullName: string, role: Option<string>,
                    passwordHash: Option<string>, verifyRaw: string, raw: string, now: int) returns (r: Result<string>)
      requires Inv(db)
      modifies this
      ensures Inv(db) && (db, r) == AuthStore.Register(cfg, old(db), email, password, fullName, role,
                                                           passwordHash, verifyRaw, raw, now)
      ensures forall id :: id in old(db).users ==> id in db.users && db.users[id] == old(db).users[id]
    {
      AuthRuns.RegisterKeepsInv(cfg, db, email, password, fullName, role, passwordHash, verifyRaw, raw, now);
      var e := cfg.normalize(email);
      if e == "" || '@' !in e { return Err(Validation); }
      if |password| < MIN_PASSWORD_LEN { return Err(Validation); }
      if role == None { return Err(NotFound); }
      if passwordHash == None { return Err(Internal); }
      var taken := GetByEmail(e);
      if taken.Some? { return Err(Conflict); }
      var user := User(db.nextId, e, passwordHash.value, TrimSpace(fullName), role.value, true, None);
      db := db.(users := db.users[user.id := user], nextId := db.nextId + 1);
      var vh := cfg.hash(verifyRaw);
      if vh in db.verifies { return Err(Internal); }
      db := db.(verifies := db.verifies[vh := OneTimeToken(user.id, now + EMAIL_VERIFICATION_TTL, None)]);
      r := IssueSession(user.id, raw, now);
    }

    method Login(email: string, password: string, raw: string, now: int) returns (r: Result<string>)
      requires Inv(db)
      modifies this
      ensures Inv(db) && (db, r) == AuthStore.Login(cfg, old(db), email, password, raw, now)
      ensures r.Err? ==> db == old(db)
    {
      var user := GetByEmail(cfg.normalize(email));
      if user.None? { return Err(Unauthorized); }
      if !user.value.active { return Err(Forbidden); }
      if !cfg.check(user.value.passwordHash, password) { return Err(Unauthorized); }
      r := IssueSession(user.value.id, raw, now);
    }

    method Refresh(token: string, raw: string, now: int) returns (r: Result<string>)
      requires Inv(db)
      modifies this
      ensures Inv(db) && (db, r) == AuthStore.Refresh(cfg, old(db), token, raw, now)
      ensures r.Ok? ==> cfg.hash(token) in db.refresh && db.refresh[cfg.hash(token)].revokedAt == Some(now)
    {
      if TrimSpace(token) == "" { return Err(Validation); }
      var h := cfg.hash(token);
      if h !in db.refresh { return Err(Unauthorized); }
      var stored := db.refresh[h];
      if stored.revokedAt.Some? || now > stored.expiresAt { return Err(Unauthorized); }
      if stored.userId !in db.users { return Err(NotFound); }
      if !db.users[stored.userId].active { return Err(Forbidden); }
      Revoke(h, now);
      r := IssueSession(stored.userId, raw, now);
    }

    method Revoke(h: string, now: int)
      modifies this
      ensures db == old(db).(refresh := Revoked(old(db).refresh, h, now))
    {
      if h in db.refresh && db.refresh[h].revokedAt == None {
        db := db.(refresh := db.refresh[h := db.refresh[h].(revokedAt := Some(now))]);
      }
    }

    method Logout(token: string, now: int) returns (error: Option<Error>)
      requires Inv(db)
      modifies this
      ensures Inv(db) && (db, error) == AuthStore.Logout(cfg, old(db), token, now)
      ensures error == None && cfg.hash(token) in db.refresh ==> db.refresh[cfg.hash(token)].revokedAt.Some?
    {
      if TrimSpace(token) == "" { return Some(Validation); }
      Revoke(cfg.hash(token), now);
      return None;
    }

    method ForgotPassword(email: string, raw: string, now: int) returns (error: Option<Error>)
      requires Inv(db)
      modifies this
      ensures Inv(db) && (db, error) == AuthStore.ForgotPassword(cfg, old(db), email, raw, now)
      ensures error.Some? ==> db == old(db)
    {
      var e := cfg.normalize(email);
      if e == "" { return None; }
      var user := GetByEmail(e);
      if user.None? { return None; }
      var h := cfg.hash(raw);
      if h in db.resets { return Some(Internal); }
      db := db.(resets := db.resets[h := OneTimeToken(user.value.id, now + PASSWORD_RESET_TTL, None)]);
      return None;
    }

    method ResetPassword(token: string, newPassword: string, newHash: Option<string>, now: int)
      returns (error: Option<Error>)
      requires Inv(db)
      modifies this
      ensures Inv(db) && (db, error) == AuthStore.ResetPassword(cfg, old(db), token, newPassword, newHash, now)
      ensures error.Some? ==> db == old(db)
    {
      if TrimSpace(token) == "" { return Some(Validation); }
      if |newPassword| < MIN_PASSWORD_LEN { return Some(Validation); }
      var h := cfg.hash(token);
      if h !in db.resets { return Some(Unauthorized); }
      var stored := db.resets[h];
      if stored.usedAt.Some? || now > stored.expiresAt { return Some(Unauthorized); }
      if newHash == None { return Some(Internal); }
      if stored.userId !in db.users { return Some(NotFound); }
      db := db.(users := db.users[stored.userId := db.users[stored.userId].(passwordHash := newHash.value)]);
      db := db.(resets := db.resets[h := stored.(usedAt := Some(now))]);
      db := db.(refresh := AllRevoked(db.refresh, stored.userId, now));
      return None;
    }

    method VerifyEmail(token: string, now: int) returns (error: Option<Error>)
      requires Inv(db)
      modifies this
      ensures Inv(db) && (db, error) == AuthStore.VerifyEmail(cfg, old(db), token, now)
      ensures error.Some? ==> db == old(db)
    {
      if TrimSpace(token) == "" { return Some(Validation); }
      var h := cfg.hash(token);
      if h !in db.verifies { return Some(Unauthorized); }
      var stored := db.verifies[h];
      if stored.usedAt.Some? || now > stored.expiresAt { return Some(Unauthorized); }
      if stored.userId !in db.users { return Some(NotFound); }
      db := db.(users := db.users[stored.userId := db.users[stored.userId].(verifiedAt := Some(now))]);
      db := db.(verifies := db.verifies[h := stored.(usedAt := Some(now))]);
      return None;
    }
  }
}
