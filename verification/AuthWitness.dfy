/** A run of the authentication service in which a password is reset and a second reset
    token, asked for before, still resets it again. */
module AuthWitness {
  import opened Common
  import opened AuthStore
  import opened AuthRuns

  const CFG := Config((s: string) => s, (s: string) => s, (hash: string, password: string) => hash == password, 1)
  const JOIN := RegisterOp("@", "password", "", Some("student"), Some("password"), "v", "r", 0)
  const ASK := ForgotOp("@", "a", 0)
  const ASK_AGAIN := ForgotOp("@", "b", 0)
  const RESET := ResetOp("a", "password", Some("new"), 1)
  const RESET_AGAIN := ResetOp("b", "password", Some("newer"), 2)

  const ACCOUNT := User(0, "@", "password", "", "student", true, None)
  const TOKEN := OneTimeToken(0, HOUR, None)

  /** One account, its verification token and its session, and the given reset tokens. */
  function Joined(resets: map<string, OneTimeToken>): Tables {
    Tables(map[0 := ACCOUNT], map["r" := RefreshToken(0, 1, None)], resets,
           map["v" := OneTimeToken(0, EMAIL_VERIFICATION_TTL, None)], 1)
  }

  lemma Trimmed()
    ensures TrimSpace("") == "" && TrimSpace("a") == "a" && TrimSpace("b") == "b"
  {
    assert TrimLeft("a") == "a" && TrimLeft("b") == "b";
  }

  lemma OneMore(ops: seq<Op>, s: Tables, op: Op, s': Tables)
    requires Run(CFG, EMPTY, ops) == s && Step(CFG, s, op).0 == s'
    ensures Run(CFG, EMPTY, ops + [op]) == s'
  {
    hide Step;
    assert (ops + [op])[..|ops|] == ops;
  }

  lemma Join()
    ensures Step(CFG, EMPTY, JOIN).0 == Joined(map[])
  {
    hide Step;
    Trimmed();
    assert '@' in "@" && UsersWith(EMPTY.users, "@") == {};
    RegisterStep(CFG, EMPTY, JOIN);
  }

  lemma Ask(resets: map<string, OneTimeToken>, op: Op)
    requires op.ForgotOp? && op == ForgotOp("@", op.raw, 0) && op.raw !in resets
    ensures Step(CFG, Joined(resets), op).0 == Joined(resets[op.raw := TOKEN])
  {
    hide Step;
    assert UsersWith(Joined(resets).users, "@") == {0};
    ForgotStep(CFG, Joined(resets), op);
  }

  lemma TwoAsked() returns (ops: seq<Op>)
    ensures Run(CFG, EMPTY, ops) == Joined(map["a" := TOKEN, "b" := TOKEN])
  {
    hide Step, Run, Joined;
    StartEmpty();
    Join();
    OneMore([], EMPTY, JOIN, Joined(map[]));
    Ask(map[], ASK);
    OneMore([] + [JOIN], Joined(map[]), ASK, Joined(map[]["a" := TOKEN]));
    Ask(map[]["a" := TOKEN], ASK_AGAIN);
    OneMore([] + [JOIN] + [ASK], Joined(map[]["a" := TOKEN]), ASK_AGAIN, Joined(map[]["a" := TOKEN]["b" := TOKEN]));
    ops := [] + [JOIN] + [ASK] + [ASK_AGAIN];
    assert map[]["a" := TOKEN]["b" := TOKEN] == map["a" := TOKEN, "b" := TOKEN];
  }

  lemma StartEmpty()
    ensures Run(CFG, EMPTY, []) == EMPTY
  {
  }

  /** After a reset the account's second token, asked for before, is honoured too. */
  lemma SecondTokenSurvives() returns (ops: seq<Op>)
    ensures var s := Run(CFG, EMPTY, ops);
      && Honoured(CFG, s, RESET)
      && var s' := Step(CFG, s, RESET).0;
         && s.resets.Keys == {"a", "b"} && s.resets["a"].userId == s.resets["b"].userId == 0
         && Honoured(CFG, s', RESET_AGAIN)
         && 0 in s'.users && s'.users[0].passwordHash == "new"
         && 0 in Step(CFG, s', RESET_AGAIN).0.users
         && Step(CFG, s', RESET_AGAIN).0.users[0].passwordHash == "newer"
  {
    hide Step, Run;
    ops := TwoAsked();
    Trimmed();
    var s := Joined(map["a" := TOKEN, "b" := TOKEN]);
    ResetStep(CFG, s, RESET);
    ResetStep(CFG, Step(CFG, s, RESET).0, RESET_AGAIN);
  }
}
