/** How each request about assignments and submissions is answered, what it leaves to read,
    and who may change what. */
module SubmissionLaws {
  import opened Common
  import opened Submissions

  /** The actor teaches the course or is an administrator. */
  ghost predicate Manages(s: Tables, actor: string, courseId: string, admin: bool) {
    courseId in s.courses && (admin || s.courses[courseId] == actor)
  }

  // --- handing in ------------------------------------------------------------------------

  /** The learner's row for the assignment. */
  ghost predicate IsRowOf(s: Tables, id: nat, assignmentId: nat, learner: string) {
    id in s.submissions && s.submissions[id].assignmentId == assignmentId && s.submissions[id].userId == learner
  }

  /** Whether the call may be made at all, before the learner's row is looked at. */
  ghost predicate MaySave(s: Tables, actor: string, assignmentId: nat, submit: bool, now: int) {
    && assignmentId in s.assignments && s.assignments[assignmentId].published
    && (s.assignments[assignmentId].courseId, actor) in s.enrolled
    && (submit ==> TakesWork(s.assignments[assignmentId], now))
  }

  lemma Refusals(s: Tables, actor: string, assignmentId: nat, body: string, attachmentUrl: string, submit: bool,
                 now: int)
    requires !MaySave(s, actor, assignmentId, submit, now)
    ensures UpsertSubmission(s, actor, assignmentId, body, attachmentUrl, submit, now)
      == (s, Err(if assignmentId !in s.assignments then NotFound
                 else if !s.assignments[assignmentId].published then Validation else Forbidden))
  {
  }

  lemma OnlyRow(s: Tables, id: nat, assignmentId: nat, learner: string)
    requires Inv(s) && IsRowOf(s, id, assignmentId, learner)
    ensures RowsOf(s.submissions, assignmentId, learner) == {id}
  {
    assert forall other :: other in RowsOf(s.submissions, assignmentId, learner) ==> other == id;
  }

  lemma NoRow(s: Tables, assignmentId: nat, learner: string)
    requires forall id :: !IsRowOf(s, id, assignmentId, learner)
    ensures RowsOf(s.submissions, assignmentId, learner) == {}
  {
    forall id | id in RowsOf(s.submissions, assignmentId, learner) ensures false {
      assert IsRowOf(s, id, assignmentId, learner);
    }
  }

  /** The work as handed in or saved, with whatever else the row says kept. */
  function WorkOn(sub: Submission, body: string, attachmentUrl: string, submit: bool, now: int): Submission {
    Submission(sub.id, sub.assignmentId, sub.userId, if submit then Submitted else Draft, TrimSpace(body),
               TrimSpace(attachmentUrl), sub.score, sub.feedback, sub.rubricScores,
               if submit then Some(now) else sub.submittedAt, sub.gradedAt, sub.gradedBy)
  }

  /** A learner's first work on an assignment makes the row. */
  lemma FirstWork(s: Tables, actor: string, assignmentId: nat, body: string, attachmentUrl: string, submit: bool,
                  now: int)
    requires MaySave(s, actor, assignmentId, submit, now) && forall id :: !IsRowOf(s, id, assignmentId, actor)
    ensures var (s', r) := UpsertSubmission(s, actor, assignmentId, body, attachmentUrl, submit, now);
      && r == Ok(Submission(s.nextId, assignmentId, actor, if submit then Submitted else Draft, TrimSpace(body),
                            TrimSpace(attachmentUrl), None, "", map[], if submit then Some(now) else None, None, None))
      && s'.submissions == s.submissions[s.nextId := r.value]
  {
    NoRow(s, assignmentId, actor);
  }

  /** Later work replaces what the row holds, until it is graded. */
  lemma LaterWork(s: Tables, actor: string, assignmentId: nat, body: string, attachmentUrl: string, submit: bool,
                  now: int, id: nat)
    requires Inv(s) && MaySave(s, actor, assignmentId, submit, now) && IsRowOf(s, id, assignmentId, actor)
    ensures var (s', r) := UpsertSubmission(s, actor, assignmentId, body, attachmentUrl, submit, now);
      if s.submissions[id].status == Graded then s' == s && r == Err(Conflict)
      else
        && r == Ok(WorkOn(s.submissions[id], body, attachmentUrl, submit, now))
        && s'.submissions == s.submissions[id := r.value]
  {
    OnlyRow(s, id, assignmentId, actor);
  }

  /** What a learner handed in is what anybody who reads the row finds. */
  lemma WorkIsStored(s: Tables, actor: string, assignmentId: nat, body: string, attachmentUrl: string, submit: bool,
                     now: int) returns (id: nat)
    requires Inv(s) && UpsertSubmission(s, actor, assignmentId, body, attachmentUrl, submit, now).1.Ok?
    ensures var s' := UpsertSubmission(s, actor, assignmentId, body, attachmentUrl, submit, now).0;
      && RowsOf(s'.submissions, assignmentId, actor) == {id} && id in s'.submissions
      && s'.submissions[id].body == TrimSpace(body) && s'.submissions[id].attachmentUrl == TrimSpace(attachmentUrl)
      && s'.submissions[id].status == (if submit then Submitted else Draft)
      && (submit ==> s'.submissions[id].submittedAt == Some(now))
      && forall other :: other in s.submissions && other != id ==>
           other in s'.submissions && s'.submissions[other] == s.submissions[other]
  {
    hide UpsertSubmission, Inv;
    if !MaySave(s, actor, assignmentId, submit, now) {
      Refusals(s, actor, assignmentId, body, attachmentUrl, submit, now);
      assert false;
    }
    UpsertKeepsInv(s, actor, assignmentId, body, attachmentUrl, submit, now);
    var s' := UpsertSubmission(s, actor, assignmentId, body, attachmentUrl, submit, now).0;
    if k :| IsRowOf(s, k, assignmentId, actor) {
      id := k;
      LaterWork(s, actor, assignmentId, body, attachmentUrl, submit, now, id);
    } else {
      id := s.nextId;
      FirstWork(s, actor, assignmentId, body, attachmentUrl, submit, now);
    }
    OnlyRow(s', id, assignmentId, actor);
  }

  // --- grading -----------------------------------------------------------------------------

  /** Grading: somebody who manages the course, work that was handed in, and a score within
      the maximum; then the row holds the grade, and everything else it held. */
  lemma GradingAnswered(s: Tables, actor: string, id: nat, score: int, feedback: string,
                        rubricScores: map<string, int>, now: int, admin: bool)
    requires Inv(s)
    ensures var (s', r) := GradeSubmission(s, actor, id, score, feedback, rubricScores, now, admin);
      if id !in s.submissions || s.submissions[id].assignmentId !in s.assignments
         || s.assignments[s.submissions[id].assignmentId].courseId !in s.courses then s' == s && r == Err(NotFound)
      else
        var sub := s.submissions[id];
        var a := s.assignments[sub.assignmentId];
        if !Manages(s, actor, a.courseId, admin) then s' == s && r == Err(Forbidden)
        else if sub.status == Draft || score < 0 || score > a.maxScore then s' == s && r == Err(Validation)
        else
          && r == Ok(Submission(sub.id, sub.assignmentId, sub.userId, Graded, sub.body, sub.attachmentUrl, Some(score),
                                TrimSpace(feedback), rubricScores, sub.submittedAt, Some(now), Some(actor)))
          && s'.submissions == s.submissions[id := r.value]
  {
  }

  /** Editing an assignment: a blank title and a maximum that is not positive leave what was
      there, all else is as given. */
  lemma EditAnswered(s: Tables, actor: string, id: nat, title: string, description: string, maxScore: int,
                     dueAt: Option<int>, allowLate: bool, admin: bool)
    ensures var (s', error) := UpdateAssignment(s, actor, id, title, description, maxScore, dueAt, allowLate, admin);
      if id !in s.assignments || s.assignments[id].courseId !in s.courses then s' == s && error == Some(NotFound)
      else
        var a := s.assignments[id];
        if !Manages(s, actor, a.courseId, admin) then s' == s && error == Some(Forbidden)
        else
          && error == None
          && s'.assignments
             == s.assignments[id := Assignment(a.id, a.courseId, if TrimSpace(title) == "" then a.title
                                                                 else TrimSpace(title),
                                               TrimSpace(description), a.published,
                                               if maxScore <= 0 then a.maxScore else maxScore, dueAt, allowLate)]
  {
  }

  // --- who changes what --------------------------------------------------------------------

  lemma LearnerWrites(s: Tables, actor: string, assignmentId: nat, body: string, attachmentUrl: string, submit: bool,
                      now: int, id: nat)
    requires Inv(s) && id in s.submissions
    ensures var s' := UpsertSubmission(s, actor, assignmentId, body, attachmentUrl, submit, now).0;
      && id in s'.submissions
      && (s'.submissions[id] != s.submissions[id] ==>
            actor == s.submissions[id].userId && assignmentId == s.submissions[id].assignmentId
            && s.submissions[id].status != Graded)
      && s'.submissions[id].score == s.submissions[id].score
      && s'.submissions[id].feedback == s.submissions[id].feedback
  {
    hide SubmissionOk;
    UpsertRow(s, actor, assignmentId, body, attachmentUrl, submit, now);
  }

  lemma TeacherWrites(s: Tables, actor: string, id: nat, score: int, feedback: string, rubricScores: map<string, int>,
                      now: int, admin: bool, other: nat)
    requires Inv(s) && other in s.submissions
    ensures var s' := GradeSubmission(s, actor, id, score, feedback, rubricScores, now, admin).0;
      && other in s'.submissions && SameWork(s'.submissions[other], s.submissions[other])
      && (s'.submissions[other] != s.submissions[other] ==>
            && other == id && s.submissions[id].assignmentId in s.assignments
            && Manages(s, actor, s.assignments[s.submissions[id].assignmentId].courseId, admin))
  {
    hide SubmissionOk;
  }

  /** The work changes only by its learner's own calls and not once graded; score and
      feedback only by somebody who manages the course. */
  lemma WhoWrites(s: Tables, op: Op, id: nat)
    requires Inv(s) && id in s.submissions
    ensures var before, s' := s.submissions[id], Step(s, op);
      && id in s'.submissions
      && (!SameWork(s'.submissions[id], before) ==>
            && op.Upsert? && op.actor == before.userId && op.assignmentId == before.assignmentId
            && before.status != Graded)
      && (s'.submissions[id].score != before.score || s'.submissions[id].feedback != before.feedback ==>
            && op.Grade? && op.id == id && before.assignmentId in s.assignments
            && Manages(s, op.actor, s.assignments[before.assignmentId].courseId, op.admin))
  {
    hide Inv, UpsertSubmission, GradeSubmission, Manages;
    match op
    case Upsert(actor, assignmentId, body, attachmentUrl, submit, now) =>
      LearnerWrites(s, actor, assignmentId, body, attachmentUrl, submit, now, id);
    case Grade(actor, graded, score, feedback, rubricScores, now, admin) =>
      TeacherWrites(s, actor, graded, score, feedback, rubricScores, now, admin, id);
    case Update(_, _, _, _, _, _, _, _) =>
    case Others(_) =>
  }
}
