/** The submission part of the assessment service (internal/service/assessment.go): each
    method follows the source's steps and is proved to do what Submissions says. */
module SubmissionService {
  import opened Common
  import opened Submissions

  class SubmissionService {
    var db: Tables

    constructor ()
      ensures db == EMPTY && Inv(db)
    {
      db := EMPTY;
    }

    method RequireCourseWrite(actor: string, courseId: string, admin: bool) returns (error: Option<Error>)
      ensures error == WriteError(db.courses, actor, courseId, admin)
    {
      if courseId !in db.courses { return Some(NotFound); }
      if admin || db.courses[courseId] == actor { return None; }
      return Some(Forbidden);
    }

    method GetByAssignmentUser(assignmentId: nat, userId: string) returns (r: Option<Submission>)
      requires Inv(db)
      ensures r == None <==> RowsOf(db.submissions, assignmentId, userId) == {}
      ensures r.Some? ==> forall id :: id in RowsOf(db.submissions, assignmentId, userId) ==>
        r == Some(db.submissions[id]) && r.value.id == id
    {
      var rows := RowsOf(db.submissions, assignmentId, userId);
      if rows == {} { return None; }
      var id :| id in rows;
      return Some(db.submissions[id]);
    }

    method UpsertSubmission(actor: string, assignmentId: nat, body: string, attachmentUrl: string, submit: bool,
                            now: int)
      returns (r: Result<Submission>)
      requires Inv(db)
      modifies this
      ensures Inv(db)
        && (db, r) == Submissions.UpsertSubmission(old(db), actor, assignmentId, body, attachmentUrl, submit, now)
      ensures r.Err? ==> db == old(db)
    {
      UpsertKeepsInv(db, actor, assignmentId, body, attachmentUrl, submit, now);
      if assignmentId !in db.assignments { return Err(NotFound); }
      var a := db.assignments[assignmentId];
      if !a.published { return Err(Validation); }
      if (a.courseId, actor) !in db.enrolled { return Err(Forbidden); }
      if submit && a.dueAt.Some? && now > a.dueAt.value && !a.allowLate { return Err(Forbidden); }
      var existing := GetByAssignmentUser(assignmentId, actor);
      var sub := Submission(db.nextId, assignmentId, actor, Draft, TrimSpace(body), TrimSpace(attachmentUrl), None, "",
                            map[], None, None, None);
      if existing.Some? {
        if existing.value.status == Graded || existing.value.status == Returned { return Err(Conflict); }
        sub := existing.value.(body := TrimSpace(body), attachmentUrl := TrimSpace(attachmentUrl));
      }
      if submit {
        sub := sub.(status := Submitted, submittedAt := Some(now));
      } else {
        sub := sub.(status := Draft);
      }
      if existing.None? { db := db.(nextId := db.nextId + 1); }
      db := db.(submissions := db.submissions[sub.id := sub]);
      return Ok(sub);
    }

    method GradeSubmission(actor: string, id: nat, score: int, feedback: string, rubricScores: map<string, int>,
                           now: int, admin: bool)
      returns (r: Result<Submission>)
      requires Inv(db)
      modifies this
      ensures Inv(db)
        && (db, r) == Submissions.GradeSubmission(old(db), actor, id, score, feedback, rubricScores, now, admin)
      ensures r.Err? ==> db == old(db)
    {
      GradeKeepsInv(db, actor, id, score, feedback, rubricScores, now, admin);
      if id !in db.submissions { return Err(NotFound); }
      var sub := db.submissions[id];
      if sub.assignmentId !in db.assignments { return Err(NotFound); }
      var a := db.assignments[sub.assignmentId];
      var error := RequireCourseWrite(actor, a.courseId, admin);
      if error.Some? { return Err(error.value); }
      if sub.status != Submitted && sub.status != Graded && sub.status != Returned { return Err(Validation); }
      if score < 0 || score > a.maxScore { return Err(Validation); }
      sub := sub.(score := Some(score), feedback := TrimSpace(feedback), rubricScores := rubricScores);
      sub := sub.(status := Graded, gradedAt := Some(now), gradedBy := Some(actor));
      db := db.(submissions := db.submissions[id := sub]);
      return Ok(sub);
    }

    method UpdateAssignment(actor: string, id: nat, title: string, description: string, maxScore: int,
                            dueAt: Option<int>, allowLate: bool, admin: bool) returns (error: Option<Error>)
      requires Inv(db)
      modifies this
      ensures Inv(db)
        && (db, error)
           == Submissions.UpdateAssignment(old(db), actor, id, title, description, maxScore, dueAt, allowLate, admin)
      ensures error.Some? ==> db == old(db)
    {
      if id !in db.assignments { return Some(NotFound); }
      var a := db.assignments[id];
      error := RequireCourseWrite(actor, a.courseId, admin);
      if error.Some? { return; }
      var trimmed := TrimSpace(title);
      if trimmed != "" { a := a.(title := trimmed); }
      a := a.(description := TrimSpace(description));
      if maxScore > 0 { a := a.(maxScore := maxScore); }
      a := a.(dueAt := dueAt, allowLate := allowLate);
      db := db.(assignments := db.assignments[id := a]);
    }
  }
}
