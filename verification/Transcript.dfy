/** Transcripts (internal/service/certificate.go): the best graded attempt per quiz, one
    row per course, and the teacher's view of one course. */
module Transcript {
  import opened Common
  import opened Enrollments
  import opened Gradebook
  import Q = QuizStore
  import S = Submissions

  datatype Progress = Progress(percent: int, completedAt: Option<int>)

  datatype Certificate = Certificate(id: string, verificationCode: string, issuedAt: int, revokedAt: Option<int>)

  datatype CertificateRow = CertificateRow(id: string, verificationCode: string, issuedAt: int, revoked: bool)

  datatype CourseRow = CourseRow(
    courseId: string, courseTitle: string, courseSlug: string, progressPercent: int, completedAt: Option<int>,
    quizzes: seq<QuizScore>, assignments: seq<AssignmentScore>, certificate: Option<CertificateRow>)

  datatype Transcript = Transcript(userId: string, courses: seq<CourseRow>)

  /** What the transcript reads besides enrollments. Attempts come by attempt number. */
  datatype Records = Records(
    quizzesOf: string -> seq<Q.Quiz>,
    assignmentsOf: string -> seq<S.Assignment>,
    attemptsOf: (nat, string) -> seq<Q.Attempt>,
    submissionOf: (nat, string) -> Option<S.Submission>,
    progressOf: (string, string) -> Option<Progress>,
    certificateOf: (string, string) -> Option<Certificate>)

  // --- the best attempt ------------------------------------------------------------------

  /** The earliest graded attempt with the highest percentage. */
  ghost predicate IsBest(attempts: seq<Q.Attempt>, i: nat) {
    && i < |attempts| && attempts[i].status == Q.Graded
    && (forall j :: 0 <= j < |attempts| && attempts[j].status == Q.Graded ==>
        attempts[j].percent <= attempts[i].percent)
    && (forall j :: 0 <= j < i && attempts[j].status == Q.Graded ==> attempts[j].percent < attempts[i].percent)
  }

  ghost predicate NoneGraded(attempts: seq<Q.Attempt>) {
    forall i :: 0 <= i < |attempts| ==> attempts[i].status != Q.Graded
  }

  /** A score entry shows the best attempt, or nothing if none is graded. */
  ghost predicate ShowsBest(percent: Option<int>, passed: Option<bool>, attempts: seq<Q.Attempt>) {
    if NoneGraded(attempts) then percent == None && passed == None
    else
      exists i: nat ::
        IsBest(attempts, i) && percent == Some(attempts[i].percent) && passed == Some(attempts[i].passed)
  }

  lemma BestIsUnique(attempts: seq<Q.Attempt>, i: nat, j: nat)
    requires IsBest(attempts, i) && IsBest(attempts, j)
    ensures i == j
  {
  }

  /** The fold over the attempts. */
  method BestScore(attempts: seq<Q.Attempt>) returns (percent: Option<int>, passed: Option<bool>)
    ensures ShowsBest(percent, passed, attempts)
    ensures percent == None <==> forall i :: 0 <= i < |attempts| ==> attempts[i].status != Q.Graded
    ensures percent == None <==> passed == None
    ensures percent.Some? ==> exists i ::
      && 0 <= i < |attempts| && attempts[i].status == Q.Graded
      && percent == Some(attempts[i].percent) && passed == Some(attempts[i].passed)
      && (forall j :: 0 <= j < |attempts| && attempts[j].status == Q.Graded ==> attempts[j].percent <= percent.value)
      && (forall j :: 0 <= j < i && attempts[j].status == Q.Graded ==> attempts[j].percent < percent.value)
  {
    percent, passed := None, None;
    ghost var best := 0;
    for i := 0 to |attempts|
      invariant percent == None ==> passed == None && NoneGraded(attempts[..i])
      invariant percent.Some? ==> best < i && IsBest(attempts[..i], best)
      invariant percent.Some? ==> percent == Some(attempts[best].percent) && passed == Some(attempts[best].passed)
    {
      var a := attempts[i];
      if a.status == Q.Graded && (percent == None || a.percent > percent.value) {
        percent, passed := Some(a.percent), Some(a.passed);
        best := i;
      }
    }
    assert attempts[..|attempts|] == attempts;
  }

  // --- one course ------------------------------------------------------------------------

  /** What a transcript row must say about the course's published quizzes. */
  ghost predicate QuizRowsOk(scores: seq<QuizScore>, quizzes: seq<Q.Quiz>, userId: string, r: Records) {
    && |scores| == |quizzes|
    && forall i :: 0 <= i < |quizzes| ==>
         && scores[i].quizId == quizzes[i].id && scores[i].title == quizzes[i].title
         && scores[i].attempts == |r.attemptsOf(quizzes[i].id, userId)|
         && ShowsBest(scores[i].percent, scores[i].passed, r.attemptsOf(quizzes[i].id, userId))
  }

  function PublishedQuizzes(quizzes: seq<Q.Quiz>): seq<Q.Quiz> {
    if quizzes == [] then []
    else
      var n := |quizzes| - 1;
      PublishedQuizzes(quizzes[..n]) + (if quizzes[n].status == Q.Published then [quizzes[n]] else [])
  }

  function AssignmentRows(assignments: seq<S.Assignment>, userId: string, r: Records): seq<AssignmentScore> {
    if assignments == [] then []
    else
      var n := |assignments| - 1;
      var a := assignments[n];
      AssignmentRows(assignments[..n], userId, r)
      + (if !a.published then []
         else match r.submissionOf(a.id, userId)
           case None => [AssignmentScore(a.id, a.title, None, a.maxScore, None)]
           case Some(sub) => [AssignmentScore(a.id, a.title, sub.score, a.maxScore, Some(sub.status))])
  }

  ghost predicate RowOk(row: CourseRow, en: Enrollment, userId: string, r: Records) {
    && row.courseId == en.courseId && row.courseTitle == en.courseTitle && row.courseSlug == en.courseSlug
    && QuizRowsOk(row.quizzes, PublishedQuizzes(r.quizzesOf(en.courseId)), userId, r)
    && row.assignments == AssignmentRows(r.assignmentsOf(en.courseId), userId, r)
    && ProgressOk(row, r.progressOf(en.courseId, userId))
    && CertificateOk(row.certificate, r.certificateOf(en.courseId, userId))
  }

  /** Without a progress record a course shows 0 percent and no completion. */
  ghost predicate ProgressOk(row: CourseRow, progress: Option<Progress>) {
    match progress
    case None => row.progressPercent == 0 && row.completedAt == None
    case Some(p) => row.progressPercent == p.percent && row.completedAt == p.completedAt
  }

  /** A certificate is shown exactly when there is one, as revoked exactly when it is. */
  ghost predicate CertificateOk(shown: Option<CertificateRow>, certificate: Option<Certificate>) {
    match certificate
    case None => shown == None
    case Some(c) => shown == Some(CertificateRow(c.id, c.verificationCode, c.issuedAt, c.revokedAt.Some?))
  }

  method TranscriptCourse(en: Enrollment, userId: string, r: Records) returns (row: CourseRow)
    ensures RowOk(row, en, userId, r)
    ensures row.courseId == en.courseId && row.courseTitle == en.courseTitle && row.courseSlug == en.courseSlug
    ensures r.progressOf(en.courseId, userId) == None ==> row.progressPercent == 0 && row.completedAt == None
    ensures r.progressOf(en.courseId, userId).Some? ==>
      row.progressPercent == r.progressOf(en.courseId, userId).value.percent
      && row.completedAt == r.progressOf(en.courseId, userId).value.completedAt
    ensures row.certificate.Some? <==> r.certificateOf(en.courseId, userId).Some?
    ensures row.certificate.Some? ==>
      var c := r.certificateOf(en.courseId, userId).value;
      && row.certificate.value.id == c.id && row.certificate.value.verificationCode == c.verificationCode
      && row.certificate.value.issuedAt == c.issuedAt && (row.certificate.value.revoked <==> c.revokedAt.Some?)
  {
    var quizzes, assignments := r.quizzesOf(en.courseId), r.assignmentsOf(en.courseId);
    var quizScores: seq<QuizScore> := [];
    for i := 0 to |quizzes|
      invariant QuizRowsOk(quizScores, PublishedQuizzes(quizzes[..i]), userId, r)
    {
      assert quizzes[..i + 1][..i] == quizzes[..i];
      var q := quizzes[i];
      if q.status != Q.Published { continue; }
      var attempts := r.attemptsOf(q.id, userId);
      var percent, passed := BestScore(attempts);
      quizScores := quizScores + [QuizScore(q.id, q.title, percent, passed, |attempts|)];
    }
    assert quizzes[..|quizzes|] == quizzes;
    var assignmentScores: seq<AssignmentScore> := [];
    for i := 0 to |assignments|
      invariant assignmentScores == AssignmentRows(assignments[..i], userId, r)
    {
      assert assignments[..i + 1][..i] == assignments[..i];
      var a := assignments[i];
      if !a.published { continue; }
      var score := AssignmentScore(a.id, a.title, None, a.maxScore, None);
      var sub := r.submissionOf(a.id, userId);
      if sub.Some? { score := score.(score := sub.value.score, status := Some(sub.value.status)); }
      assignmentScores := assignmentScores + [score];
    }
    assert assignments[..|assignments|] == assignments;
    row := CourseRow(en.courseId, en.courseTitle, en.courseSlug, 0, None, quizScores, assignmentScores, None);
    var progress := r.progressOf(en.courseId, userId);
    if progress.Some? {
      row := row.(progressPercent := progress.value.percent, completedAt := progress.value.completedAt);
    }
    var certificate := r.certificateOf(en.courseId, userId);
    if certificate.Some? {
      var c := certificate.value;
      row := row.(certificate := Some(CertificateRow(c.id, c.verificationCode, c.issuedAt, c.revokedAt.Some?)));
    }
  }

  // --- whole transcripts -------------------------------------------------------------------

  /** One row per enrollment on the page, in page order. */
  ghost predicate CoversPage(t: Transcript, page: seq<Enrollment>, r: Records) {
    && |t.courses| == |page|
    && forall i :: 0 <= i < |page| ==> RowOk(t.courses[i], page[i], t.userId, r)
  }

  method BuildTranscript(rows: seq<Enrollment>, userId: string, r: Records) returns (t: Transcript)
    ensures t.userId == userId && CoversPage(t, ListByUser(rows, userId, 500), r)
  {
    var page := ListByUser(rows, userId, 500);
    var courses: seq<CourseRow> := [];
    for i := 0 to |page|
      invariant |courses| == i
      invariant forall k :: 0 <= k < i ==> RowOk(courses[k], page[k], userId, r)
    {
      var row := TranscriptCourse(page[i], userId, r);
      courses := courses + [row];
    }
    t := Transcript(userId, courses);
  }

  function OnlyCourse(courses: seq<CourseRow>, courseId: string): seq<CourseRow> {
    if courses == [] then []
    else
      var n := |courses| - 1;
      OnlyCourse(courses[..n], courseId) + (if courses[n].courseId == courseId then [courses[n]] else [])
  }

  /** The learner's transcript, with only the rows of one course left. */
  ghost predicate ShowsOnly(res: Result<Transcript>, rows: seq<Enrollment>, courseId: string, userId: string,
                            r: Records)
  {
    exists t: Transcript ::
      && t.userId == userId && CoversPage(t, ListByUser(rows, userId, 500), r)
      && res == Ok(Transcript(userId, OnlyCourse(t.courses, courseId)))
  }

  /** A learner's transcript cut down to one course, for those who manage it. */
  method UserTranscript(courses: map<string, string>, users: set<string>, rows: seq<Enrollment>, actor: string,
                        courseId: string, targetUserId: string, r: Records, admin: bool)
    returns (res: Result<Transcript>)
    ensures
      match WriteError(courses, actor, courseId, admin)
      case Some(error) => res == Err(error)
      case None =>
        if !(EnrolledAtAll(rows, courseId, targetUserId) && targetUserId in users) then res == Err(NotFound)
        else ShowsOnly(res, rows, courseId, targetUserId, r)
  {
    var error := WriteError(courses, actor, courseId, admin);
    if error.Some? { return Err(error.value); }
    if !EnrolledAtAll(rows, courseId, targetUserId) { return Err(NotFound); }
    if targetUserId !in users { return Err(NotFound); }
    var t := BuildTranscript(rows, targetUserId, r);
    var filtered: seq<CourseRow> := [];
    for i := 0 to |t.courses|
      invariant filtered == OnlyCourse(t.courses[..i], courseId)
    {
      assert t.courses[..i + 1][..i] == t.courses[..i];
      if t.courses[i].courseId == courseId { filtered := filtered + [t.courses[i]]; }
    }
    assert t.courses[..|t.courses|] == t.courses;
    return Ok(t.(courses := filtered));
  }

  predicate EnrolledAtAll(rows: seq<Enrollment>, courseId: string, userId: string) {
    exists i :: 0 <= i < |rows| && rows[i].courseId == courseId && rows[i].userId == userId
  }

  // --- which courses a transcript shows ----------------------------------------------------

  lemma {:induction false} OnlyCourseEmpty(courses: seq<CourseRow>, courseId: string)
    ensures OnlyCourse(courses, courseId) == [] <==> forall i :: 0 <= i < |courses| ==> courses[i].courseId != courseId
  {
    if courses != [] {
      var n := |courses| - 1;
      OnlyCourseEmpty(courses[..n], courseId);
      assert forall i :: 0 <= i < n ==> courses[..n][i] == courses[i];
    }
  }

  lemma {:induction false} OnlyCourseOne(courses: seq<CourseRow>, k: nat)
    requires k < |courses| && forall i :: 0 <= i < |courses| && i != k ==> courses[i].courseId != courses[k].courseId
    ensures OnlyCourse(courses, courses[k].courseId) == [courses[k]]
  {
    var n := |courses| - 1;
    if k < n {
      OnlyCourseOne(courses[..n], k);
    } else {
      OnlyCourseEmpty(courses[..n], courses[n].courseId);
    }
  }

  /** The transcript asks for 500 enrollments but is given 20: of a learner's active course
      the teacher is shown its one row if it is among the twenty newest, and nothing else. */
  lemma TeacherSeesCourse(t: Transcript, rows: seq<Enrollment>, r: Records, k: nat)
    requires OneSeatEach(rows)
    requires CoversPage(t, ListByUser(rows, t.userId, 500), r)
    requires k < |NewestFirst(rows, ActiveOf(t.userId))|
    ensures k < 20 ==> k < |t.courses|
    ensures OnlyCourse(t.courses, NewestFirst(rows, ActiveOf(t.userId))[k].courseId)
      == if k < 20 then [t.courses[k]] else []
  {
    var all, page := NewestFirst(rows, ActiveOf(t.userId)), ListByUser(rows, t.userId, 500);
    NewestFirstIs(rows, ActiveOf(t.userId));
    OnlyCourseEmpty(t.courses, all[k].courseId);
    assert forall i :: 0 <= i < |page| ==> page[i] == all[i] && t.courses[i].courseId == page[i].courseId;
    if k < 20 {
      assert t.courses[k].courseId == all[k].courseId;
      forall i | 0 <= i < |page| && i != k ensures t.courses[i].courseId != all[k].courseId {
        assert all[i] in all && all[k] in all && all[i].userId == all[k].userId;
      }
      OnlyCourseOne(t.courses, k);
    } else {
      forall i | 0 <= i < |page| ensures t.courses[i].courseId != all[k].courseId {
        assert all[i] in all && all[k] in all && all[i].userId == all[k].userId;
      }
    }
  }

  /** One learner in n courses, the one without a name the oldest. */
  function Roll(n: nat): (r: seq<Enrollment>)
    ensures |r| == n
    ensures forall i :: 0 <= i < n ==> r[i].userId == "u" && r[i].status == Active && |r[i].courseId| == i
  {
    if n == 0 then [] else Roll(n - 1) + [Enrollment(Name(n - 1), "u", Active, "", "", "", "")]
  }

  /** A learner active in 21 courses: the teacher of the oldest is shown no course at all. */
  lemma OldestCourseUnseen(res: Result<Transcript>, r: Records)
    requires ShowsOnly(res, Roll(21), "", "u", r)
    ensures Roll(21)[0].courseId == "" && Roll(21)[0].userId == "u" && Roll(21)[0].status == Active
    ensures OneSeatEach(Roll(21))
    ensures res == Ok(Transcript("u", []))
  {
    hide CoversPage, OnlyCourse, Roll;
    AllWanted(Roll(21), ActiveOf("u"));
    assert NewestFirst(Roll(21), ActiveOf("u"))[20].courseId == "";
    var t: Transcript :|
      && t.userId == "u" && CoversPage(t, ListByUser(Roll(21), "u", 500), r)
      && res == Ok(Transcript("u", OnlyCourse(t.courses, "")));
    TeacherSeesCourse(t, Roll(21), r, 20);
  }

  // --- transcript and gradebook agree --------------------------------------------------------

  /** A row the database may return as the best graded attempt of a learner at a quiz: a
      graded one of maximal percentage (ties are broken arbitrarily), or no row at all. */
  ghost predicate BestRow(row: Option<Q.Attempt>, attempts: seq<Q.Attempt>) {
    if NoneGraded(attempts) then row == None
    else row.Some? && row.value in attempts && row.value.status == Q.Graded
         && forall i :: 0 <= i < |attempts| && attempts[i].status == Q.Graded ==>
            attempts[i].percent <= row.value.percent
  }

  /** All attempts of maximal percentage carry the same verdict. */
  ghost predicate SameVerdictAtTop(attempts: seq<Q.Attempt>) {
    forall a, b :: a in attempts && b in attempts && BestRow(Some(a), attempts) && BestRow(Some(b), attempts) ==>
      a.passed == b.passed
  }

  lemma BestPercent(attempts: seq<Q.Attempt>, percent: Option<int>, passed: Option<bool>, row: Option<Q.Attempt>)
    requires ShowsBest(percent, passed, attempts) && BestRow(row, attempts)
    ensures percent == (if row.Some? then Some(row.value.percent) else None)
    ensures SameVerdictAtTop(attempts) ==> passed == (if row.Some? then Some(row.value.passed) else None)
  {
    if !NoneGraded(attempts) {
      var b: nat :| IsBest(attempts, b) && percent == Some(attempts[b].percent) && passed == Some(attempts[b].passed);
      assert BestRow(Some(attempts[b]), attempts);
      var i :| 0 <= i < |attempts| && attempts[i] == row.value;
    }
  }

  /** The verdict shown is that of every row the database may pick. */
  ghost predicate AgreesWithEveryPick(passed: Option<bool>, attempts: seq<Q.Attempt>) {
    forall row :: BestRow(row, attempts) ==> passed == (if row.Some? then Some(row.value.passed) else None)
  }

  lemma EveryPick(attempts: seq<Q.Attempt>, percent: Option<int>, passed: Option<bool>)
    requires ShowsBest(percent, passed, attempts)
    ensures AgreesWithEveryPick(passed, attempts) <==> SameVerdictAtTop(attempts)
  {
    if SameVerdictAtTop(attempts) {
      forall row | BestRow(row, attempts) ensures passed == (if row.Some? then Some(row.value.passed) else None) {
        BestPercent(attempts, percent, passed, row);
      }
    }
  }

  /** What the database returns for a list of quizzes: for each learner and quiz with a
      graded attempt one of the best, and no further rows. */
  ghost predicate BestRows(best: seq<Q.Attempt>, quizzes: seq<Q.Quiz>, attemptsOf: (nat, string) -> seq<Q.Attempt>) {
    && (forall i :: 0 <= i < |best| ==> BestRow(Some(best[i]), attemptsOf(best[i].quizId, best[i].userId)))
    && (forall i, j :: 0 <= i < j < |best| ==> best[i].quizId != best[j].quizId || best[i].userId != best[j].userId)
    && (forall k: nat, user: string :: k < |quizzes| && !NoneGraded(attemptsOf(quizzes[k].id, user)) ==>
          exists i :: 0 <= i < |best| && best[i].quizId == quizzes[k].id && best[i].userId == user)
  }

  /** The gradebook's lookup finds a best attempt exactly when the learner has a graded one. */
  lemma BestFound(best: seq<Q.Attempt>, quizzes: seq<Q.Quiz>, attemptsOf: (nat, string) -> seq<Q.Attempt>, k: nat,
                  userId: string)
    requires BestRows(best, quizzes, attemptsOf) && k < |quizzes|
    ensures BestRow(LastAttempt(best, userId, quizzes[k].id), attemptsOf(quizzes[k].id, userId))
  {
    LastAttemptIs(best, userId, quizzes[k].id);
    match LastAttempt(best, userId, quizzes[k].id)
    case None =>
    case Some(a) => var i :| 0 <= i < |best| && best[i] == a;
  }

  /** What gradebook and transcript show a learner for the same quiz of a course: always the
      same percentage and number of attempts, and the same verdict when all attempts at the
      top agree on one. */
  lemma GradebookAgrees(page: seq<Enrollment>, i: nat, assignments: seq<S.Assignment>, best: seq<Q.Attempt>,
                        subs: seq<S.Submission>, row: CourseRow, en: Enrollment, r: Records, j: nat, k: nat)
    requires i < |page| && page[i].userId == en.userId && RowOk(row, en, en.userId, r)
    requires BestRows(best, r.quizzesOf(en.courseId), r.attemptsOf)
    requires j < |r.quizzesOf(en.courseId)| && k < |row.quizzes|
      && r.quizzesOf(en.courseId)[j].id == row.quizzes[k].quizId
    ensures var count := (quizId: nat, userId: string) => |r.attemptsOf(quizId, userId)|;
      var entry := Scan(page, r.quizzesOf(en.courseId), assignments, best, subs, count)[i].quizzes[j];
      && entry.percent == row.quizzes[k].percent && entry.attempts == row.quizzes[k].attempts
      && (SameVerdictAtTop(r.attemptsOf(entry.quizId, en.userId)) ==> entry.passed == row.quizzes[k].passed)
  {
    var quizzes := r.quizzesOf(en.courseId);
    BestFound(best, quizzes, r.attemptsOf, j, en.userId);
    BestPercent(r.attemptsOf(quizzes[j].id, en.userId), row.quizzes[k].percent, row.quizzes[k].passed,
                LastAttempt(best, en.userId, quizzes[j].id));
  }

  /** The transcript shows no draft: each of its quizzes is a published one of the course. */
  lemma {:induction false} PublishedOnly(quizzes: seq<Q.Quiz>, k: nat) returns (j: nat)
    requires k < |PublishedQuizzes(quizzes)|
    ensures j < |quizzes| && quizzes[j].status == Q.Published && PublishedQuizzes(quizzes)[k] == quizzes[j]
    ensures k == |PublishedQuizzes(quizzes[..j])|
  {
    var n := |quizzes| - 1;
    if k < |PublishedQuizzes(quizzes[..n])| {
      j := PublishedOnly(quizzes[..n], k);
      assert quizzes[..n][..j] == quizzes[..j];
    } else {
      j := n;
    }
  }

  /** The transcript's quizzes are the gradebook's published ones, in the same order. */
  lemma {:induction false} PublishedAmong(quizzes: seq<Q.Quiz>, j: nat)
    requires j < |quizzes|
    ensures var k := |PublishedQuizzes(quizzes[..j])|;
      && k <= |PublishedQuizzes(quizzes)|
      && (quizzes[j].status == Q.Published ==>
          k < |PublishedQuizzes(quizzes)| && PublishedQuizzes(quizzes)[k] == quizzes[j])
  {
    var n := |quizzes| - 1;
    if j < n {
      assert quizzes[..n][..j] == quizzes[..j];
      PublishedAmong(quizzes[..n], j);
    }
  }

  // --- assignments in transcript and gradebook ------------------------------------------------

  /** What the queries return: for the transcript a learner's one submission, if any, and for
      the gradebook all submissions of the course that are not drafts. */
  ghost predicate Fetched(s: S.Tables, submissionOf: (nat, string) -> Option<S.Submission>) {
    forall id: nat, user: string :: match submissionOf(id, user)
      case None => S.RowsOf(s.submissions, id, user) == {}
      case Some(sub) => sub.id in S.RowsOf(s.submissions, id, user) && s.submissions[sub.id] == sub
  }

  ghost predicate HandedInFor(s: S.Tables, subs: seq<S.Submission>, assignments: seq<S.Assignment>) {
    forall sub :: sub in subs <==>
      && sub.id in s.submissions && s.submissions[sub.id] == sub && sub.status != S.Draft
      && exists j :: 0 <= j < |assignments| && assignments[j].id == sub.assignmentId
  }

  lemma {:induction false} LastSubmissionIs(rows: seq<S.Submission>, userId: string, assignmentId: nat)
    ensures match LastSubmission(rows, userId, assignmentId)
      case None => forall i :: 0 <= i < |rows| ==> !(rows[i].userId == userId && rows[i].assignmentId == assignmentId)
      case Some(a) => a in rows && a.userId == userId && a.assignmentId == assignmentId
  {
    if rows != [] {
      var n := |rows| - 1;
      LastSubmissionIs(rows[..n], userId, assignmentId);
      assert rows == rows[..n] + [rows[n]];
    }
  }

  /** The gradebook's lookup finds the learner's submission unless it is a draft. */
  lemma HandedInFound(s: S.Tables, subs: seq<S.Submission>, assignments: seq<S.Assignment>,
                      submissionOf: (nat, string) -> Option<S.Submission>, j: nat, userId: string)
    requires S.Inv(s) && Fetched(s, submissionOf) && HandedInFor(s, subs, assignments) && j < |assignments|
    ensures var own := submissionOf(assignments[j].id, userId);
      LastSubmission(subs, userId, assignments[j].id)
        == if own.Some? && own.value.status != S.Draft then own else None
  {
    var id := assignments[j].id;
    var own := submissionOf(id, userId);
    LastSubmissionIs(subs, userId, id);
    match LastSubmission(subs, userId, id)
    case None =>
      assert forall sub :: sub in subs ==> sub.userId != userId || sub.assignmentId != id;
    case Some(sub) => assert sub.id in S.RowsOf(s.submissions, id, userId);
  }

  /** Each row of the transcript is that of a published assignment and shows what the
      learner's submission says, if there is one. */
  lemma {:induction false} AssignmentRowsAre(assignments: seq<S.Assignment>, userId: string, r: Records, k: nat)
    returns (j: nat)
    requires k < |AssignmentRows(assignments, userId, r)|
    ensures var row := AssignmentRows(assignments, userId, r)[k];
      && j < |assignments| && assignments[j].published && row.assignmentId == assignments[j].id
      && k == |AssignmentRows(assignments[..j], userId, r)|
      && (match r.submissionOf(row.assignmentId, userId)
          case None => row.score == None && row.status == None
          case Some(sub) => row.score == sub.score && row.status == Some(sub.status))
  {
    var n := |assignments| - 1;
    if k < |AssignmentRows(assignments[..n], userId, r)| {
      j := AssignmentRowsAre(assignments[..n], userId, r, k);
      assert assignments[..n][..j] == assignments[..j];
    } else {
      j := n;
    }
  }

  /** What gradebook and transcript show a learner for the same assignment: always the same
      score, and the same status exactly when the submission is not a draft, which only the
      transcript shows. */
  lemma AssignmentsAgree(s: S.Tables, page: seq<Enrollment>, i: nat, quizzes: seq<Q.Quiz>, best: seq<Q.Attempt>,
                         subs: seq<S.Submission>, count: (nat, string) -> int, row: CourseRow, en: Enrollment,
                         r: Records, j: nat, k: nat)
    requires S.Inv(s) && Fetched(s, r.submissionOf) && HandedInFor(s, subs, r.assignmentsOf(en.courseId))
    requires i < |page| && page[i].userId == en.userId && RowOk(row, en, en.userId, r)
    requires j < |r.assignmentsOf(en.courseId)| && k < |row.assignments|
      && r.assignmentsOf(en.courseId)[j].id == row.assignments[k].assignmentId
    ensures var entry := Scan(page, quizzes, r.assignmentsOf(en.courseId), best, subs, count)[i].assignments[j];
      && entry.score == row.assignments[k].score
      && (entry.status == row.assignments[k].status <==> row.assignments[k].status != Some(S.Draft))
  {
    var assignments := r.assignmentsOf(en.courseId);
    HandedInFound(s, subs, assignments, r.submissionOf, j, en.userId);
    var place := AssignmentRowsAre(assignments, en.userId, r, k);
    assert r.submissionOf(assignments[j].id, en.userId).Some? ==>
      r.submissionOf(assignments[j].id, en.userId).value.id in s.submissions;
  }

  /** The transcript's assignments are the gradebook's published ones, in the same order. */
  lemma {:induction false} AssignmentsAmong(assignments: seq<S.Assignment>, userId: string, r: Records, j: nat)
    requires j < |assignments|
    ensures var k := |AssignmentRows(assignments[..j], userId, r)|;
      && k <= |AssignmentRows(assignments, userId, r)|
      && (assignments[j].published ==>
          k < |AssignmentRows(assignments, userId, r)|
            && (var row := AssignmentRows(assignments, userId, r)[k];
                && row.assignmentId == assignments[j].id && row.title == assignments[j].title
                && row.maxScore == assignments[j].maxScore))
  {
    var n := |assignments| - 1;
    if j < n {
      assert assignments[..n][..j] == assignments[..j];
      AssignmentsAmong(assignments[..n], userId, r, j);
    }
  }
}
