/** Assignments and their submissions (internal/service/assessment.go over
    internal/repository/postgres/assessment.go): drafts, submitting, grading. */
module Submissions {
  import opened Common

  datatype Status = Draft | Submitted | Graded | Returned

  datatype Assignment = Assignment(
    id: nat, courseId: string, title: string, description: string, published: bool,
    maxScore: int, dueAt: Option<int>, allowLate: bool)

  datatype Submission = Submission(
    id: nat, assignmentId: nat, userId: string, status: Status, body: string, attachmentUrl: string,
    score: Option<int>, feedback: string, rubricScores: map<string, int>,
    submittedAt: Option<int>, gradedAt: Option<int>, gradedBy: Option<string>)

  datatype Tables = Tables(
    courses: map<string, string>,
    enrolled: set<(string, string)>,
    assignments: map<nat, Assignment>,
    submissions: map<nat, Submission>,
    nextId: nat)

  /** The rows of one learner for one assignment. */
  function RowsOf(submissions: map<nat, Submission>, assignmentId: nat, userId: string): set<nat> {
    set id | id in submissions && submissions[id].assignmentId == assignmentId && submissions[id].userId == userId
  }

  // --- the calls -----------------------------------------------------------------------

  /** A submission after an edit by its learner. */
  function Edited(sub: Submission, body: string, attachmentUrl: string, submit: bool, now: int): Submission {
    sub.(body := TrimSpace(body), attachmentUrl := TrimSpace(attachmentUrl),
         status := if submit then Submitted else Draft,
         submittedAt := if submit then Some(now) else sub.submittedAt)
  }

  ghost function UpsertSubmission(s: Tables, actor: string, assignmentId: nat, body: string, attachmentUrl: string,
                                  submit: bool, now: int)
    : (r: (Tables, Result<Submission>))
    ensures r.0 == s.(submissions := r.0.submissions, nextId := r.0.nextId) && s.nextId <= r.0.nextId
  {
    if assignmentId !in s.assignments then (s, Err(NotFound))
    else
      var a := s.assignments[assignmentId];
      if !a.published then (s, Err(Validation))
      else if (a.courseId, actor) !in s.enrolled then (s, Err(Forbidden))
      else if submit && a.dueAt.Some? && now > a.dueAt.value && !a.allowLate then (s, Err(Forbidden))
      else if RowsOf(s.submissions, assignmentId, actor) != {} then
        var id :| id in RowsOf(s.submissions, assignmentId, actor);
        var sub := s.submissions[id];
        if sub.status == Graded || sub.status == Returned then (s, Err(Conflict))
        else
          var sub' := Edited(sub, body, attachmentUrl, submit, now);
          (s.(submissions := s.submissions[id := sub']), Ok(sub'))
      else
        var sub := Edited(Submission(s.nextId, assignmentId, actor, Draft, "", "", None, "", map[], None, None, None),
                          body, attachmentUrl, submit, now);
        (s.(submissions := s.submissions[s.nextId := sub], nextId := s.nextId + 1), Ok(sub))
  }

  function GradeSubmission(s: Tables, actor: string, id: nat, score: int, feedback: string,
                           rubricScores: map<string, int>, now: int, admin: bool)
    : (r: (Tables, Result<Submission>))
    ensures r.0 == s.(submissions := r.0.submissions)
  {
    if id !in s.submissions then (s, Err(NotFound))
    else
      var sub := s.submissions[id];
      if sub.assignmentId !in s.assignments then (s, Err(NotFound))
      else
        var a := s.assignments[sub.assignmentId];
        var error := WriteError(s.courses, actor, a.courseId, admin);
        if error.Some? then (s, Err(error.value))
        else if sub.status == Draft then (s, Err(Validation))
        else if score < 0 || score > a.maxScore then (s, Err(Validation))
        else
          var sub' := sub.(score := Some(score), feedback := TrimSpace(feedback), rubricScores := rubricScores,
                           status := Graded,
                           gradedAt := Some(now), gradedBy := Some(actor));
          (s.(submissions := s.submissions[id := sub']), Ok(sub'))
  }

  function UpdateAssignment(s: Tables, actor: string, id: nat, title: string, description: string, maxScore: int,
                            dueAt: Option<int>, allowLate: bool, admin: bool): (r: (Tables, Option<Error>))
    ensures r.0 == s.(assignments := r.0.assignments)
  {
    if id !in s.assignments then (s, Some(NotFound))
    else
      var a := s.assignments[id];
      var error := WriteError(s.courses, actor, a.courseId, admin);
      if error.Some? then (s, error)
      else
        var a' := a.(title := if TrimSpace(title) != "" then TrimSpace(title) else a.title,
                     description := TrimSpace(description),
                     maxScore := if maxScore > 0 then maxScore else a.maxScore, dueAt := dueAt, allowLate := allowLate);
        (s.(assignments := s.assignments[id := a']), None)
  }

  // --- the invariant -----------------------------------------------------------------------

  /** What a submission's fields say together. In particular it is graded exactly when it
      has a score, and then also has been submitted, and by whom and when it was graded. */
  ghost predicate SubmissionOk(sub: Submission) {
    && (sub.status == Graded <==> sub.score.Some?)
    && (sub.status == Graded <==> sub.gradedAt.Some?)
    && (sub.status == Graded <==> sub.gradedBy.Some?)
    && (sub.status != Draft ==> sub.submittedAt.Some?)
    && sub.status != Returned
    && (sub.score.Some? ==> sub.score.value >= 0)
  }

  ghost predicate Inv(s: Tables) {
    && (forall id :: id in s.submissions ==> s.submissions[id].id == id < s.nextId && SubmissionOk(s.submissions[id]))
    && (forall id, id' ::
          (&& id in s.submissions && id' in s.submissions
           && s.submissions[id].assignmentId == s.submissions[id'].assignmentId
           && s.submissions[id].userId == s.submissions[id'].userId)
          ==> id == id')
  }

  const EMPTY := Tables(map[], {}, map[], map[], 0)

  /** Writing a learner's row, new or in place of the one there. */
  lemma RowKeepsInv(s: Tables, sub: Submission, nextId: nat)
    requires Inv(s) && SubmissionOk(sub) && s.nextId <= nextId && sub.id < nextId
    requires RowsOf(s.submissions, sub.assignmentId, sub.userId) <= {sub.id}
    ensures Inv(s.(submissions := s.submissions[sub.id := sub], nextId := nextId))
  {
    hide SubmissionOk;
    forall id | id in s.submissions && id != sub.id
      ensures !(s.submissions[id].assignmentId == sub.assignmentId && s.submissions[id].userId == sub.userId)
    {
      assert id !in RowsOf(s.submissions, sub.assignmentId, sub.userId);
    }
  }

  lemma UpsertKeepsInv(s: Tables, actor: string, assignmentId: nat, body: string, attachmentUrl: string, submit: bool,
                       now: int)
    requires Inv(s)
    ensures Inv(UpsertSubmission(s, actor, assignmentId, body, attachmentUrl, submit, now).0)
  {
    var (s', r) := UpsertSubmission(s, actor, assignmentId, body, attachmentUrl, submit, now);
    if r.Ok? {
      UpsertRow(s, actor, assignmentId, body, attachmentUrl, submit, now);
      RowKeepsInv(s, r.value, s'.nextId);
    }
  }

  /** A successful save writes this row, and no other row is the learner's. */
  lemma UpsertRow(s: Tables, actor: string, assignmentId: nat, body: string, attachmentUrl: string, submit: bool,
                  now: int)
    requires Inv(s)
    ensures var (s', r) := UpsertSubmission(s, actor, assignmentId, body, attachmentUrl, submit, now);
      r.Ok? ==>
        && SubmissionOk(r.value) && r.value.id < s'.nextId
        && RowsOf(s.submissions, r.value.assignmentId, r.value.userId) <= {r.value.id}
        && s' == s.(submissions := s.submissions[r.value.id := r.value], nextId := s'.nextId)
  {
  }

  lemma GradeKeepsInv(s: Tables, actor: string, id: nat, score: int, feedback: string, rubricScores: map<string, int>,
                      now: int, admin: bool)
    requires Inv(s)
    ensures Inv(GradeSubmission(s, actor, id, score, feedback, rubricScores, now, admin).0)
  {
  }

  // --- runs ----------------------------------------------------------------------------------

  datatype Op =
    | Upsert(actor: string, assignmentId: nat, body: string, attachmentUrl: string, submit: bool, now: int)
    | Grade(actor: string, id: nat, score: int, feedback: string, rubricScores: map<string, int>, now: int, admin: bool)
    | Update(actor: string, id: nat, title: string, description: string, maxScore: int, dueAt: Option<int>,
             allowLate: bool, admin: bool)
    | Others(tables: Tables)

  /** One call. `Others` is any change of the courses, enrollments and assignments made
      by the rest of the system (creating and publishing assignments among it). */
  ghost function Step(s: Tables, op: Op): Tables {
    match op
    case Upsert(actor, assignmentId, body, attachmentUrl, submit, now) =>
      UpsertSubmission(s, actor, assignmentId, body, attachmentUrl, submit, now).0
    case Grade(actor, id, score, feedback, rubricScores, now, admin) =>
      GradeSubmission(s, actor, id, score, feedback, rubricScores, now, admin).0
    case Update(actor, id, title, description, maxScore, dueAt, allowLate, admin) =>
      UpdateAssignment(s, actor, id, title, description, maxScore, dueAt, allowLate, admin).0
    case Others(tables) => s.(courses := tables.courses, enrolled := tables.enrolled, assignments := tables.assignments)
  }

  ghost function Run(s: Tables, ops: seq<Op>): Tables {
    if ops == [] then s else Step(Run(s, ops[..|ops| - 1]), ops[|ops| - 1])
  }

  lemma StepKeepsInv(s: Tables, op: Op)
    requires Inv(s)
    ensures Inv(Step(s, op))
  {
    match op
    case Upsert(actor, assignmentId, body, attachmentUrl, submit, now) =>
      UpsertKeepsInv(s, actor, assignmentId, body, attachmentUrl, submit, now);
    case Grade(actor, id, score, feedback, rubricScores, now, admin) =>
      GradeKeepsInv(s, actor, id, score, feedback, rubricScores, now, admin);
    case Update(_, _, _, _, _, _, _, _) =>
    case Others(_) =>
  }

  /** In every reachable store a submission is graded exactly when it has a score, and a
      learner has at most one submission per assignment. */
  lemma {:induction false} RunKeepsInv(s: Tables, ops: seq<Op>)
    requires Inv(s)
    ensures Inv(Run(s, ops))
  {
    if ops != [] {
      RunKeepsInv(s, ops[..|ops| - 1]);
      StepKeepsInv(Run(s, ops[..|ops| - 1]), ops[|ops| - 1]);
    }
  }

  /** What the learner handed in. */
  ghost predicate SameWork(a: Submission, b: Submission) {
    a.id == b.id && a.assignmentId == b.assignmentId && a.userId == b.userId
    && a.body == b.body && a.attachmentUrl == b.attachmentUrl && a.submittedAt == b.submittedAt
  }

  lemma GradedStep(s: Tables, op: Op, id: nat)
    requires Inv(s) && id in s.submissions && s.submissions[id].status == Graded
    ensures var s' := Step(s, op);
      id in s'.submissions && s'.submissions[id].status == Graded && SameWork(s.submissions[id], s'.submissions[id])
  {
    hide UpsertSubmission;
    if op.Upsert? {
      GradedUpsert(s, op.actor, op.assignmentId, op.body, op.attachmentUrl, op.submit, op.now, id);
    }
  }

  lemma GradedUpsert(s: Tables, actor: string, assignmentId: nat, body: string, attachmentUrl: string, submit: bool,
                     now: int, id: nat)
    requires Inv(s) && id in s.submissions && s.submissions[id].status == Graded
    ensures var s' := UpsertSubmission(s, actor, assignmentId, body, attachmentUrl, submit, now).0;
      id in s'.submissions && s'.submissions[id] == s.submissions[id]
  {
    hide Edited;
  }

  /** From the first grade on, what was handed in and when never changes, and the
      submission stays graded; regrading changes only score, feedback and who graded. */
  lemma {:induction false} GradedForever(s: Tables, ops: seq<Op>, id: nat)
    requires Inv(s) && id in s.submissions && s.submissions[id].status == Graded
    ensures var s' := Run(s, ops);
      id in s'.submissions && s'.submissions[id].status == Graded && SameWork(s.submissions[id], s'.submissions[id])
  {
    if ops != [] {
      GradedForever(s, ops[..|ops| - 1], id);
      RunKeepsInv(s, ops[..|ops| - 1]);
      GradedStep(Run(s, ops[..|ops| - 1]), ops[|ops| - 1], id);
    }
  }

  /** Scores change only by grading, and then lie within the assignment's range. */
  lemma ScoreInRange(s: Tables, op: Op, id: nat)
    requires Inv(s) && id in Step(s, op).submissions
    requires id in s.submissions ==> s.submissions[id].score != Step(s, op).submissions[id].score
    requires id !in s.submissions ==> Step(s, op).submissions[id].score.Some?
    ensures op.Grade? && op.id == id && id in s.submissions && s.submissions[id].assignmentId in s.assignments
    ensures Step(s, op).submissions[id].score == Some(op.score)
    ensures 0 <= op.score <= s.assignments[s.submissions[id].assignmentId].maxScore
  {
  }

  ghost predicate AllInRange(s: Tables) {
    forall id ::
      (id in s.submissions && s.submissions[id].score.Some? && s.submissions[id].assignmentId in s.assignments) ==>
        s.submissions[id].score.value <= s.assignments[s.submissions[id].assignmentId].maxScore
  }

  /** Editing an assignment keeps the scores in range exactly when it leaves the maximum
      alone or no score given for that assignment is above the new one. */
  lemma RangeSurvives(s: Tables, actor: string, id: nat, title: string, description: string, maxScore: int,
                      dueAt: Option<int>, allowLate: bool, admin: bool)
    requires Inv(s) && AllInRange(s)
    requires UpdateAssignment(s, actor, id, title, description, maxScore, dueAt, allowLate, admin).1 == None
    ensures AllInRange(UpdateAssignment(s, actor, id, title, description, maxScore, dueAt, allowLate, admin).0)
      <==> maxScore <= 0 || NoneAbove(s, id, maxScore)
  {
    var s' := UpdateAssignment(s, actor, id, title, description, maxScore, dueAt, allowLate, admin).0;
    if AllInRange(s') && maxScore > 0 {
      forall i | i in s.submissions && s.submissions[i].assignmentId == id && s.submissions[i].score.Some?
        ensures s.submissions[i].score.value <= maxScore
      {
        assert i in s'.submissions;
      }
    }
  }

  ghost predicate NoneAbove(s: Tables, assignmentId: nat, maxScore: int) {
    forall i :: i in s.submissions && s.submissions[i].assignmentId == assignmentId && s.submissions[i].score.Some? ==>
      s.submissions[i].score.value <= maxScore
  }

  /** Submitting and grading take no score out of range. */
  lemma OtherCallsKeepRange(s: Tables, op: Op)
    requires Inv(s) && AllInRange(s) && (op.Upsert? || op.Grade?)
    ensures AllInRange(Step(s, op))
  {
  }

  /** What a call must respect: an edit is refused, leaves the maximum alone or puts it
      below no score; other parts of the system put no maximum below a score. */
  ghost predicate RespectsScores(s: Tables, op: Op) {
    match op
    case Upsert(_, _, _, _, _, _) => true
    case Grade(_, _, _, _, _, _, _) => true
    case Update(actor, id, title, description, maxScore, dueAt, allowLate, admin) =>
      var error := UpdateAssignment(s, actor, id, title, description, maxScore, dueAt, allowLate, admin).1;
      error.Some? || maxScore <= 0 || NoneAbove(s, id, maxScore)
    case Others(tables) =>
      forall id :: id in tables.assignments ==> NoneAbove(s, id, tables.assignments[id].maxScore)
  }

  /** For other parts of the system it is enough to lower no maximum and to bring in no
      assignment that already has submissions. */
  lemma LoweringNothingRespects(s: Tables, tables: Tables)
    requires AllInRange(s)
    requires forall id :: id in tables.assignments ==>
      if id in s.assignments then s.assignments[id].maxScore <= tables.assignments[id].maxScore
      else forall i :: i in s.submissions ==> s.submissions[i].assignmentId != id
    ensures RespectsScores(s, Others(tables))
  {
  }

  lemma StepKeepsRange(s: Tables, op: Op)
    requires Inv(s) && AllInRange(s)
    ensures AllInRange(Step(s, op)) <==> RespectsScores(s, op)
  {
    hide Inv, NoneAbove, AllInRange, UpsertSubmission, GradeSubmission, UpdateAssignment;
    match op
    case Upsert(_, _, _, _, _, _) => OtherCallsKeepRange(s, op);
    case Grade(_, _, _, _, _, _, _) => OtherCallsKeepRange(s, op);
    case Update(actor, id, title, description, maxScore, dueAt, allowLate, admin) =>
      if UpdateAssignment(s, actor, id, title, description, maxScore, dueAt, allowLate, admin).1 == None {
        RangeSurvives(s, actor, id, title, description, maxScore, dueAt, allowLate, admin);
      } else {
        RefusedEdit(s, actor, id, title, description, maxScore, dueAt, allowLate, admin);
      }
    case Others(tables) => OthersKeepRange(s, tables);
  }

  lemma RefusedEdit(s: Tables, actor: string, id: nat, title: string, description: string, maxScore: int,
                    dueAt: Option<int>, allowLate: bool, admin: bool)
    ensures var (s', error) := UpdateAssignment(s, actor, id, title, description, maxScore, dueAt, allowLate, admin);
      error.Some? ==> s' == s
  {
  }

  lemma OthersKeepRange(s: Tables, tables: Tables)
    ensures AllInRange(s.(courses := tables.courses, enrolled := tables.enrolled, assignments := tables.assignments))
      <==> RespectsScores(s, Others(tables))
  {
    var s' := s.(courses := tables.courses, enrolled := tables.enrolled, assignments := tables.assignments);
    if AllInRange(s') {
      forall id, i | id in tables.assignments && i in s.submissions && s.submissions[i].assignmentId == id
        && s.submissions[i].score.Some?
        ensures s.submissions[i].score.value <= tables.assignments[id].maxScore
      {
        assert i in s'.submissions;
      }
    }
  }

  /** The scores are in range before call k. */
  ghost predicate InRangeAt(ops: seq<Op>, k: nat)
    requires k <= |ops|
  {
    AllInRange(Run(EMPTY, ops[..k]))
  }

  ghost predicate RespectedAt(ops: seq<Op>, k: nat)
    requires k < |ops|
  {
    RespectsScores(Run(EMPTY, ops[..k]), ops[k])
  }

  lemma RangeAtNext(ops: seq<Op>, k: nat)
    requires k < |ops| && InRangeAt(ops, k)
    ensures InRangeAt(ops, k + 1) <==> RespectedAt(ops, k)
  {
    hide Step, RespectsScores, AllInRange;
    RunKeepsInv(EMPTY, ops[..k]);
    StepKeepsRange(Run(EMPTY, ops[..k]), ops[k]);
    assert ops[..k + 1][..k] == ops[..k];
  }

  /** Throughout a run, up to its n-th call, every score lies within its assignment's
      maximum exactly when every call respects the scores it finds. */
  lemma {:induction false} RangeOverRuns(ops: seq<Op>, n: nat)
    requires n <= |ops|
    ensures (forall k :: 0 <= k <= n ==> InRangeAt(ops, k)) <==> (forall k :: 0 <= k < n ==> RespectedAt(ops, k))
  {
    hide InRangeAt, RespectedAt;
    if n == 0 {
      RangeAtStart(ops);
    } else {
      RangeOverRuns(ops, n - 1);
      if forall k :: 0 <= k < n ==> InRangeAt(ops, k) { RangeAtNext(ops, n - 1); }
    }
  }

  lemma RangeAtStart(ops: seq<Op>)
    ensures InRangeAt(ops, 0)
  {
    assert ops[..0] == [];
  }

  lemma RunOne(s: Tables, ops: seq<Op>, op: Op)
    ensures Run(s, ops + [op]) == Step(Run(s, ops), op)
  {
    assert (ops + [op])[..|ops|] == ops;
  }

  /** A course, its learner and a published assignment worth 100 points, due at time 10. */
  function Classroom(): Op {
    Others(Tables(map["c" := "t"], {("c", "u")}, map[0 := ESSAY], map[], 0))
  }

  const ESSAY := Assignment(0, "c", "essay", "", true, 100, Some(10), false)

  /** The store after the learner handed in. */
  lemma HandedIn() returns (ops: seq<Op>)
    ensures var s := Run(EMPTY, ops);
      && s.courses == map["c" := "t"] && s.enrolled == {("c", "u")} && s.assignments == map[0 := ESSAY]
      && s.submissions.Keys == {0} && s.submissions[0].assignmentId == 0 && s.submissions[0].userId == "u"
      && s.submissions[0].status == Submitted && s.submissions[0].score == None
  {
    var hand := Upsert("u", 0, "text", "", true, 5);
    ops := [Classroom()] + [hand];
    RunOne(EMPTY, [], Classroom());
    assert [] + [Classroom()] == [Classroom()];
    RunOne(EMPTY, [Classroom()], hand);
    var s := Run(EMPTY, [Classroom()]);
    assert s.submissions == map[] && RowsOf(s.submissions, 0, "u") == {};
  }

  /** The store after the teacher gave 90 points. */
  lemma GradedRun() returns (ops: seq<Op>)
    ensures var s := Run(EMPTY, ops);
      && s.courses == map["c" := "t"] && s.assignments == map[0 := ESSAY]
      && s.submissions.Keys == {0} && s.submissions[0].assignmentId == 0 && s.submissions[0].score == Some(90)
  {
    var before := HandedIn();
    var grade := Grade("t", 0, 90, "", map[], 6, false);
    ops := before + [grade];
    RunOne(EMPTY, before, grade);
  }

  /** The range can be lost: there is a run in which every score is in range until the
      teacher lowers the maximum below one that was given. */
  lemma LoweredMaximum() returns (ops: seq<Op>, op: Op)
    ensures op.Update? && AllInRange(Run(EMPTY, ops)) && !AllInRange(Run(EMPTY, ops + [op]))
  {
    ops := GradedRun();
    op := Update("t", 0, "", "", 50, None, false, false);
    RunOne(EMPTY, ops, op);
    var s' := Step(Run(EMPTY, ops), op);
    assert 0 in s'.submissions && s'.assignments[0].maxScore == 50;
  }

  // --- a submission lost to a draft --------------------------------------------------------

  /** When a learner with a draft may still hand it in. */
  predicate TakesWork(a: Assignment, now: int) {
    a.dueAt == None || now <= a.dueAt.value || a.allowLate
  }

  /** Saving a submitted piece as a draft always succeeds, and whether it can be submitted
      again is decided by the due date alone. */
  lemma DraftThenSubmit(s: Tables, actor: string, id: nat, body: string, attachmentUrl: string, now: int,
                        body': string, attachmentUrl': string, later: int)
    requires Inv(s) && id in s.submissions && s.submissions[id].userId == actor && s.submissions[id].status == Submitted
    requires var aid := s.submissions[id].assignmentId;
      aid in s.assignments && s.assignments[aid].published && (s.assignments[aid].courseId, actor) in s.enrolled
    ensures var aid := s.submissions[id].assignmentId;
      var (s', r) := UpsertSubmission(s, actor, aid, body, attachmentUrl, false, now);
      && r.Ok? && id in s'.submissions && s'.submissions[id].status == Draft
      && (UpsertSubmission(s', actor, aid, body', attachmentUrl', true, later).1.Ok? <==>
          TakesWork(s.assignments[aid], later))
  {
    var aid := s.submissions[id].assignmentId;
    assert id in RowsOf(s.submissions, aid, actor);
    forall other | other in RowsOf(s.submissions, aid, actor) ensures other == id {}
    var s' := UpsertSubmission(s, actor, aid, body, attachmentUrl, false, now).0;
    assert id in RowsOf(s'.submissions, aid, actor);
    forall other | other in RowsOf(s'.submissions, aid, actor) ensures other == id {}
  }

  /** The row is a draft of an assignment that reads as given. */
  ghost predicate DraftOf(s: Tables, id: nat, actor: string, aid: nat, a: Assignment) {
    && id in s.submissions && s.submissions[id].status == Draft
    && s.submissions[id].userId == actor && s.submissions[id].assignmentId == aid
    && aid in s.assignments && s.assignments[aid] == a
  }

  /** The call happens at or after the given time and leaves the assignment as it is. */
  ghost predicate LaterCall(op: Op, aid: nat, a: Assignment, now: int) {
    match op
    case Upsert(_, _, _, _, _, at) => at >= now
    case Grade(_, _, _, _, _, _, _) => true
    case Update(_, id, _, _, _, _, _, _) => id != aid
    case Others(tables) => aid in tables.assignments && tables.assignments[aid] == a
  }

  lemma DraftRefused(s: Tables, id: nat, actor: string, aid: nat, a: Assignment, op: Op)
    requires Inv(s) && DraftOf(s, id, actor, aid, a)
    ensures op.Grade? && op.id == id ==>
      GradeSubmission(s, op.actor, id, op.score, op.feedback, op.rubricScores, op.now, op.admin).1.Err?
    ensures op.Upsert? && op.actor == actor && op.assignmentId == aid && op.submit && !TakesWork(a, op.now) ==>
      UpsertSubmission(s, actor, aid, op.body, op.attachmentUrl, true, op.now).1.Err?
  {
  }

  lemma DraftStep(s: Tables, id: nat, actor: string, aid: nat, a: Assignment, op: Op, now: int)
    requires Inv(s) && DraftOf(s, id, actor, aid, a) && LaterCall(op, aid, a, now) && !TakesWork(a, now)
    ensures DraftOf(Step(s, op), id, actor, aid, a)
  {
    if op.Upsert? && op.assignmentId == aid && op.actor == actor {
      assert id in RowsOf(s.submissions, aid, actor);
      forall other | other in RowsOf(s.submissions, aid, actor) ensures other == id {}
    }
  }

  lemma {:induction false} DraftForever(s: Tables, id: nat, actor: string, aid: nat, a: Assignment, ops: seq<Op>,
                                        now: int)
    requires Inv(s) && DraftOf(s, id, actor, aid, a) && !TakesWork(a, now)
    requires forall i :: 0 <= i < |ops| ==> LaterCall(ops[i], aid, a, now)
    ensures DraftOf(Run(s, ops), id, actor, aid, a)
  {
    if ops != [] {
      var before := ops[..|ops| - 1];
      DraftForever(s, id, actor, aid, a, before, now);
      RunKeepsInv(s, before);
      DraftStep(Run(s, before), id, actor, aid, a, ops[|ops| - 1], now);
    }
  }

  /** Once the due date of an assignment that takes no late work has passed, saving a
      submitted piece as a draft succeeds and loses the submission: as long as nobody edits
      the assignment it stays a draft, and every later attempt to submit or grade it, at
      any point of any run, is refused. */
  lemma LateDraftLosesSubmission(s: Tables, actor: string, id: nat, body: string, attachmentUrl: string, now: int,
                                 ops: seq<Op>, op: Op)
    requires Inv(s) && id in s.submissions && s.submissions[id].userId == actor && s.submissions[id].status == Submitted
    requires var aid := s.submissions[id].assignmentId;
      && aid in s.assignments && s.assignments[aid].published && (s.assignments[aid].courseId, actor) in s.enrolled
      && !TakesWork(s.assignments[aid], now)
      && (forall i :: 0 <= i < |ops| ==> LaterCall(ops[i], aid, s.assignments[aid], now))
         && LaterCall(op, aid, s.assignments[aid], now)
    ensures var aid := s.submissions[id].assignmentId;
      var (s', r) := UpsertSubmission(s, actor, aid, body, attachmentUrl, false, now);
      var then_ := Run(s', ops);
      && r.Ok? && id in then_.submissions && then_.submissions[id].status == Draft
      && (op.Upsert? && op.actor == actor && op.assignmentId == aid && op.submit ==>
            UpsertSubmission(then_, actor, aid, op.body, op.attachmentUrl, true, op.now).1.Err?)
      && (op.Grade? && op.id == id ==>
            GradeSubmission(then_, op.actor, id, op.score, op.feedback, op.rubricScores, op.now, op.admin).1.Err?)
  {
    var aid := s.submissions[id].assignmentId;
    DraftThenSubmit(s, actor, id, body, attachmentUrl, now, "", "", now);
    var s' := UpsertSubmission(s, actor, aid, body, attachmentUrl, false, now).0;
    UpsertKeepsInv(s, actor, aid, body, attachmentUrl, false, now);
    assert id in RowsOf(s.submissions, aid, actor);
    forall other | other in RowsOf(s.submissions, aid, actor) ensures other == id {}
    DraftForever(s', id, actor, aid, s.assignments[aid], ops, now);
    RunKeepsInv(s', ops);
    DraftRefused(Run(s', ops), id, actor, aid, s.assignments[aid], op);
  }

  /** The call submits the draft again, at its time or later, or grades it. */
  predicate NeedsSubmission(op: Op, draft: Op, id: nat)
    requires draft.Upsert?
  {
    || (op.Upsert? && op.submit && op.actor == draft.actor && op.assignmentId == draft.assignmentId
        && op.now >= draft.now)
    || (op.Grade? && op.id == id)
  }

  ghost predicate Refused(s: Tables, op: Op) {
    && (op.Upsert? ==>
          UpsertSubmission(s, op.actor, op.assignmentId, op.body, op.attachmentUrl, op.submit, op.now).1.Err?)
    && (op.Grade? ==>
          GradeSubmission(s, op.actor, op.id, op.score, op.feedback, op.rubricScores, op.now, op.admin).1.Err?)
  }

  /** A run from the empty tables that loses a submission: handed in before the due date,
      saved once more as a draft after it, and from then on neither accepted nor graded. */
  lemma SubmissionLost() returns (ops: seq<Op>, draft: Op, id: nat)
    ensures draft.Upsert? && !draft.submit
    ensures var s, s' := Run(EMPTY, ops), Run(EMPTY, ops + [draft]);
      && id in s.submissions && s.submissions[id].status == Submitted && s.submissions[id].userId == draft.actor
      && id in s'.submissions && s'.submissions[id].status == Draft
      && forall op: Op :: NeedsSubmission(op, draft, id) ==> Refused(s', op)
  {
    hide Inv, UpsertSubmission, GradeSubmission;
    ops := HandedIn();
    draft, id := Upsert("u", 0, "", "", false, 20), 0;
    var s := Run(EMPTY, ops);
    RunOne(EMPTY, ops, draft);
    EmptyOk();
    RunKeepsInv(EMPTY, ops);
    forall op: Op | NeedsSubmission(op, draft, id) ensures Refused(Step(s, draft), op) {
      LateDraftLosesSubmission(s, "u", 0, "", "", 20, [], op);
    }
    LateDraftLosesSubmission(s, "u", 0, "", "", 20, [], draft);
  }

  lemma EmptyOk()
    ensures Inv(EMPTY)
  {
  }
}
