/** The teacher's gradebook (internal/service/assessment.go): five lists joined through
    hash indexes, against the plain nested scan it stands for. */
module Gradebook {
  import opened Common
  import opened Enrollments
  import Q = QuizStore
  import S = Submissions

  datatype QuizScore = QuizScore(quizId: nat, title: string, percent: Option<int>, passed: Option<bool>, attempts: int)

  datatype AssignmentScore = AssignmentScore(assignmentId: nat, title: string, score: Option<int>, maxScore: int,
                                             status: Option<S.Status>)

  datatype Entry = Entry(userId: string, userEmail: string, userFullName: string, quizzes: seq<QuizScore>,
                         assignments: seq<AssignmentScore>)

  // --- the nested scan ---------------------------------------------------------------

  /** The last row for a learner and quiz. */
  function LastAttempt(rows: seq<Q.Attempt>, userId: string, quizId: nat): Option<Q.Attempt> {
    if rows == [] then None
    else
      var n := |rows| - 1;
      if rows[n].userId == userId && rows[n].quizId == quizId then Some(rows[n])
        else LastAttempt(rows[..n], userId, quizId)
  }

  function LastSubmission(rows: seq<S.Submission>, userId: string, assignmentId: nat): Option<S.Submission> {
    if rows == [] then None
    else
      var n := |rows| - 1;
      if rows[n].userId == userId && rows[n].assignmentId == assignmentId then Some(rows[n])
        else LastSubmission(rows[..n], userId, assignmentId)
  }

  function QuizScoreOf(q: Q.Quiz, userId: string, best: seq<Q.Attempt>, count: (nat, string) -> int): QuizScore {
    match LastAttempt(best, userId, q.id)
    case None => QuizScore(q.id, q.title, None, None, count(q.id, userId))
    case Some(a) => QuizScore(q.id, q.title, Some(a.percent), Some(a.passed), count(q.id, userId))
  }

  function AssignmentScoreOf(a: S.Assignment, userId: string, subs: seq<S.Submission>): AssignmentScore {
    match LastSubmission(subs, userId, a.id)
    case None => AssignmentScore(a.id, a.title, None, a.maxScore, None)
    case Some(sub) => AssignmentScore(a.id, a.title, sub.score, a.maxScore, Some(sub.status))
  }

  function EntryOf(en: Enrollment, quizzes: seq<Q.Quiz>, assignments: seq<S.Assignment>, best: seq<Q.Attempt>,
                   subs: seq<S.Submission>, count: (nat, string) -> int): Entry
  {
    Entry(en.userId, en.userEmail, en.userFullName,
          seq(|quizzes|, i requires 0 <= i < |quizzes| => QuizScoreOf(quizzes[i], en.userId, best, count)),
          seq(|assignments|, i requires 0 <= i < |assignments| => AssignmentScoreOf(assignments[i], en.userId, subs)))
  }

  /** Every learner against every quiz and every assignment, in the order of the lists. */
  function Scan(enrollments: seq<Enrollment>, quizzes: seq<Q.Quiz>, assignments: seq<S.Assignment>,
                best: seq<Q.Attempt>,
                subs: seq<S.Submission>, count: (nat, string) -> int): (r: seq<Entry>)
    ensures |r| == |enrollments|
  {
    seq(|enrollments|, i requires 0 <= i < |enrollments| =>
        EntryOf(enrollments[i], quizzes, assignments, best, subs, count))
  }

  /** Whose entry it is, and for which quizzes and assignments, in their order; an entry for a
      quiz counts the learner's attempts, and shows nothing exactly when no row is theirs. */
  lemma EntryShows(page: seq<Enrollment>, quizzes: seq<Q.Quiz>, assignments: seq<S.Assignment>, best: seq<Q.Attempt>,
                   subs: seq<S.Submission>, count: (nat, string) -> int, i: nat)
    requires i < |page|
    ensures var entry, en := Scan(page, quizzes, assignments, best, subs, count)[i], page[i];
      && entry.userId == en.userId && entry.userEmail == en.userEmail && entry.userFullName == en.userFullName
      && |entry.quizzes| == |quizzes| && |entry.assignments| == |assignments|
      && (forall j :: 0 <= j < |quizzes| ==>
            && entry.quizzes[j].quizId == quizzes[j].id && entry.quizzes[j].title == quizzes[j].title
            && entry.quizzes[j].attempts == count(quizzes[j].id, en.userId)
            && (entry.quizzes[j].percent == None <==>
                forall k :: 0 <= k < |best| ==> best[k].userId != en.userId || best[k].quizId != quizzes[j].id))
      && forall j :: 0 <= j < |assignments| ==>
           && entry.assignments[j].assignmentId == assignments[j].id
           && entry.assignments[j].title == assignments[j].title
           && entry.assignments[j].maxScore == assignments[j].maxScore
  {
    forall j | 0 <= j < |quizzes|
      ensures LastAttempt(best, page[i].userId, quizzes[j].id) == None <==>
        forall k :: 0 <= k < |best| ==> best[k].userId != page[i].userId || best[k].quizId != quizzes[j].id
    {
      LastAttemptIs(best, page[i].userId, quizzes[j].id);
    }
  }

  lemma {:induction false} LastAttemptIs(rows: seq<Q.Attempt>, userId: string, quizId: nat)
    ensures match LastAttempt(rows, userId, quizId)
      case None => forall i :: 0 <= i < |rows| ==> !(rows[i].userId == userId && rows[i].quizId == quizId)
      case Some(a) => a in rows && a.userId == userId && a.quizId == quizId
  {
    if rows != [] {
      var n := |rows| - 1;
      LastAttemptIs(rows[..n], userId, quizId);
      assert rows == rows[..n] + [rows[n]];
    }
  }

  // --- the indexes -----------------------------------------------------------------------

  method IndexAttempts(rows: seq<Q.Attempt>) returns (index: map<(string, nat), Q.Attempt>)
    ensures forall user, quiz: nat :: (user, quiz) in index <==> LastAttempt(rows, user, quiz).Some?
    ensures forall user, quiz: nat :: (user, quiz) in index ==>
      LastAttempt(rows, user, quiz) == Some(index[(user, quiz)])
  {
    index := map[];
    for i := 0 to |rows|
      invariant forall user, quiz: nat :: (user, quiz) in index <==> LastAttempt(rows[..i], user, quiz).Some?
      invariant forall user, quiz: nat :: (user, quiz) in index ==>
        LastAttempt(rows[..i], user, quiz) == Some(index[(user, quiz)])
    {
      assert rows[..i + 1][..i] == rows[..i];
      index := index[(rows[i].userId, rows[i].quizId) := rows[i]];
    }
    assert rows[..|rows|] == rows;
  }

  method CountAttempts(quizzes: seq<Q.Quiz>, enrollments: seq<Enrollment>, count: (nat, string) -> int)
    returns (index: map<(string, nat), int>)
    ensures forall i, j :: 0 <= i < |quizzes| && 0 <= j < |enrollments| ==>
      (enrollments[j].userId, quizzes[i].id) in index
        && index[(enrollments[j].userId, quizzes[i].id)] == count(quizzes[i].id, enrollments[j].userId)
  {
    index := map[];
    for i := 0 to |quizzes|
      invariant forall key :: key in index ==> index[key] == count(key.1, key.0)
      invariant forall k, j :: 0 <= k < i && 0 <= j < |enrollments| ==> (enrollments[j].userId, quizzes[k].id) in index
    {
      for j := 0 to |enrollments|
        invariant forall key :: key in index ==> index[key] == count(key.1, key.0)
        invariant forall k, m :: 0 <= k < i && 0 <= m < |enrollments| ==>
          (enrollments[m].userId, quizzes[k].id) in index
        invariant forall m :: 0 <= m < j ==> (enrollments[m].userId, quizzes[i].id) in index
      {
        var n := count(quizzes[i].id, enrollments[j].userId);
        index := index[(enrollments[j].userId, quizzes[i].id) := n];
      }
    }
  }

  /** The nested index: by user, then by assignment. */
  ghost predicate Indexes(index: map<string, map<nat, S.Submission>>, rows: seq<S.Submission>) {
    && (forall user, assignment ::
          LastSubmission(rows, user, assignment).Some? <==> (user in index && assignment in index[user]))
    && (forall user, assignment :: user in index && assignment in index[user] ==>
          LastSubmission(rows, user, assignment) == Some(index[user][assignment]))
  }

  method IndexSubmissions(rows: seq<S.Submission>) returns (index: map<string, map<nat, S.Submission>>)
    ensures Indexes(index, rows)
  {
    index := map[];
    for i := 0 to |rows|
      invariant Indexes(index, rows[..i])
    {
      assert rows[..i + 1][..i] == rows[..i];
      var sub := rows[i];
      if sub.userId !in index { index := index[sub.userId := map[]]; }
      var ofUser: map<nat, S.Submission> := index[sub.userId];
      index := index[sub.userId := ofUser[sub.assignmentId := sub]];
    }
    assert rows[..|rows|] == rows;
  }

  /** The join. */
  method Join(enrollments: seq<Enrollment>, quizzes: seq<Q.Quiz>, assignments: seq<S.Assignment>,
              bestAttempts: seq<Q.Attempt>,
              subs: seq<S.Submission>, count: (nat, string) -> int) returns (out: seq<Entry>)
    ensures out == Scan(enrollments, quizzes, assignments, bestAttempts, subs, count)
  {
    var best := IndexAttempts(bestAttempts);
    var attemptCounts := CountAttempts(quizzes, enrollments, count);
    var subByUserAssign := IndexSubmissions(subs);
    out := [];
    for i := 0 to |enrollments|
      invariant |out| == i
      invariant forall k :: 0 <= k < i ==>
        out[k] == EntryOf(enrollments[k], quizzes, assignments, bestAttempts, subs, count)
    {
      var en := enrollments[i];
      var quizScores: seq<QuizScore> := [];
      for j := 0 to |quizzes|
        invariant |quizScores| == j
        invariant forall k :: 0 <= k < j ==> quizScores[k] == QuizScoreOf(quizzes[k], en.userId, bestAttempts, count)
      {
        var q := quizzes[j];
        var gs := QuizScore(q.id, q.title, None, None, attemptCounts[(en.userId, q.id)]);
        if (en.userId, q.id) in best {
          var ba := best[(en.userId, q.id)];
          gs := gs.(percent := Some(ba.percent), passed := Some(ba.passed));
        }
        quizScores := quizScores + [gs];
      }
      var assignmentScores: seq<AssignmentScore> := [];
      for j := 0 to |assignments|
        invariant |assignmentScores| == j
        invariant forall k :: 0 <= k < j ==> assignmentScores[k] == AssignmentScoreOf(assignments[k], en.userId, subs)
      {
        var a := assignments[j];
        var score := AssignmentScore(a.id, a.title, None, a.maxScore, None);
        if en.userId in subByUserAssign && a.id in subByUserAssign[en.userId] {
          var sub: S.Submission := subByUserAssign[en.userId][a.id];
          score := score.(score := sub.score, status := Some(sub.status));
        }
        assignmentScores := assignmentScores + [score];
      }
      out := out + [Entry(en.userId, en.userEmail, en.userFullName, quizScores, assignmentScores)];
    }
  }

  /** The gradebook of a course, over the first 100 active enrollments it asks for. */
  method Gradebook(courses: map<string, string>, actor: string, rows: seq<Enrollment>, courseId: string,
                   quizzes: seq<Q.Quiz>,
                   assignments: seq<S.Assignment>, bestAttempts: seq<Q.Attempt>, subs: seq<S.Submission>,
                   count: (nat, string) -> int, admin: bool) returns (r: Result<seq<Entry>>)
    ensures var error := WriteError(courses, actor, courseId, admin);
      r == if error.Some? then Err(error.value)
           else Ok(Scan(ListByCourse(rows, courseId, 100), quizzes, assignments, bestAttempts, subs, count))
  {
    var error := WriteError(courses, actor, courseId, admin);
    if error.Some? { return Err(error.value); }
    var out := Join(ListByCourse(rows, courseId, 100), quizzes, assignments, bestAttempts, subs, count);
    return Ok(out);
  }

  /** Which learners the gradebook shows: all active ones exactly when there are at most
      a hundred of them. */
  lemma GradebookComplete(rows: seq<Enrollment>, courseId: string, quizzes: seq<Q.Quiz>, assignments: seq<S.Assignment>,
                          bestAttempts: seq<Q.Attempt>, subs: seq<S.Submission>, count: (nat, string) -> int)
    requires OneSeatEach(rows)
    ensures var book := Scan(ListByCourse(rows, courseId, 100), quizzes, assignments, bestAttempts, subs, count);
      (forall e :: e in rows && e.courseId == courseId && e.status == Active ==>
       exists i :: 0 <= i < |book| && book[i].userId == e.userId)
      <==> |NewestFirst(rows, ActiveIn(courseId))| <= 100
  {
    var all := NewestFirst(rows, ActiveIn(courseId));
    var page := ListByCourse(rows, courseId, 100);
    var book := Scan(page, quizzes, assignments, bestAttempts, subs, count);
    NewestFirstIs(rows, ActiveIn(courseId));
    assert forall i :: 0 <= i < |book| ==> book[i].userId == page[i].userId;
    if |all| <= 100 {
      forall e | e in rows && e.courseId == courseId && e.status == Active
        ensures exists i :: 0 <= i < |book| && book[i].userId == e.userId {
        assert e in all;
        var i :| 0 <= i < |all| && all[i] == e;
        assert book[i].userId == e.userId;
      }
    } else {
      var e := all[100];
      assert e in all;
      forall i | 0 <= i < |book| ensures book[i].userId != e.userId {
        assert all[i] in all && all[i].courseId == e.courseId;
      }
    }
  }
}
