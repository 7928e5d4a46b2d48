/** The quiz part of the assessment service (internal/service/assessment.go): each method
    follows the source's steps over the tables and is proved to do what QuizStore says the
    call does. A call's clock reading, the option ids it may generate and the one write
    that may fail are parameters. */
module Assessment {
  import opened Common
  import opened Grading
  import opened QuizStore
  import opened Positions
  import opened QuizInvariants

  /** Fills in ids where they are missing, in the caller's list. */
  method EnsureOptionIds(options: array<QuizOption>, generated: seq<string>)
    requires |generated| == options.Length
    modifies options
    ensures options[..] == WithIds(old(options[..]), generated)
  {
    for i := 0 to options.Length
      invariant forall k :: 0 <= k < i ==> options[k] == WithIds(old(options[..]), generated)[k]
      invariant forall k :: i <= k < options.Length ==> options[k] == old(options[k])
    {
      if TrimSpace(options[i].id) == "" {
        options[i] := options[i].(id := generated[i]);
      }
    }
  }

  method StripQuestionSecrets(q: Question) returns (r: Question)
    ensures r == Stripped(q)
    ensures SameButKey(q, r) && HidesKey(r)
  {
    var options := q.options;
    for i := 0 to |options|
      invariant |options| == |q.options|
      invariant forall k :: 0 <= k < i ==> options[k] == WithoutKey(q.options)[k]
      invariant forall k :: i <= k < |options| ==> options[k] == q.options[k]
    {
      options := options[i := options[i].(isCorrect := false)];
    }
    assert options == WithoutKey(q.options);
    StrippedHides(q);
    r := q.(correctAnswer := "", options := options);
  }

  class AssessmentService {
    const fold: char -> char
    /** The database: the tables the repositories read and write. */
    var db: Store

    constructor (fold: char -> char)
      ensures db == EMPTY && Inv(db) && this.fold == fold
    {
      this.fold := fold;
      db := EMPTY;
      EmptyInv();
    }

    method RequireCourseWrite(actor: string, courseId: string, admin: bool) returns (error: Option<Error>)
      ensures error == WriteError(db.courses, actor, courseId, admin)
    {
      if courseId !in db.courses { return Some(NotFound); }
      if admin || db.courses[courseId] == actor { return None; }
      return Some(Forbidden);
    }

    // --- attempts ----------------------------------------------------------------------

    /** The learner's open attempt; there is at most one. */
    method GetInProgress(quizId: nat, userId: string) returns (r: Option<Attempt>)
      requires Inv(db)
      ensures r == None <==> OpenIds(db.attempts, quizId, userId) == {}
      ensures r.Some? ==> forall id :: id in OpenIds(db.attempts, quizId, userId) ==> r == Some(db.attempts[id])
      ensures r.Some? ==> r.value.id in OpenIds(db.attempts, quizId, userId)
    {
      var open := OpenIds(db.attempts, quizId, userId);
      if open == {} { return None; }
      assert NumberedFor(db.attempts, quizId, userId) && open <= AttemptIds(db.attempts, quizId, userId);
      var id :| id in open;
      return Some(db.attempts[id]);
    }

    method StartAttempt(actor: string, quizId: nat, now: int) returns (r: Result<Attempt>)
      requires Inv(db)
      modifies this
      ensures Inv(db) && (db, r) == QuizStore.StartAttempt(old(db), actor, quizId, now)
      ensures r.Err? ==> db == old(db)
      ensures r.Ok? ==> r.value.id in db.attempts && db.attempts[r.value.id] == r.value
                        && r.value.status == InProgress && r.value.userId == actor && r.value.quizId == quizId
    {
      hide Inv;
      StartKeepsInv(db, actor, quizId, now);
      if quizId !in db.quizzes { return Err(NotFound); }
      var quiz := db.quizzes[quizId];
      if quiz.status != Published { return Err(Validation); }
      if !Enrolled(db, actor, quiz.courseId) { return Err(Forbidden); }
      var existing := GetInProgress(quizId, actor);
      if existing.Some? { return Ok(existing.value); }
      var count := |AttemptIds(db.attempts, quizId, actor)|;
      if quiz.maxAttempts.Some? && count >= quiz.maxAttempts.value { return Err(Conflict); }
      var a := Attempt(db.nextId, quizId, actor, count + 1, InProgress, 0, 0, 0, false, now, None, None);
      db := db.(attempts := db.attempts[db.nextId := a]);
      db := db.(answers := db.answers[db.nextId := []]);
      db := db.(nextId := db.nextId + 1);
      return Ok(a);
    }

    method GetAttempt(actor: string, attemptId: nat, admin: bool) returns (r: Result<View>)
      ensures r == QuizStore.GetAttempt(db, actor, attemptId, admin)
    {
      if attemptId !in db.attempts { return Err(NotFound); }
      var a := db.attempts[attemptId];
      if a.quizId !in db.quizzes { return Err(NotFound); }
      var quiz := db.quizzes[a.quizId];
      if quiz.courseId !in db.courses { return Err(NotFound); }
      var canAuthor := admin || db.courses[quiz.courseId] == actor;
      if !canAuthor && a.userId != actor { return Err(Forbidden); }
      return Ok(View(a, ListByAttempt(db, attemptId)));
    }

    /** Replaces an attempt's answers in one transaction; a second answer to the same
        question violates the unique index and nothing is written. */
    method ReplaceAll(attemptId: nat, rows: seq<Answer>) returns (error: Option<Error>)
      modifies this
      ensures OneAnswerEach(rows) ==> error == None && db == old(db).(answers := old(db).answers[attemptId := rows])
      ensures !OneAnswerEach(rows) ==> error == Some(Conflict) && db == old(db)
    {
      var seen := {};
      for i := 0 to |rows|
        invariant db == old(db)
        invariant OneAnswerEach(rows[..i])
        invariant forall id :: id in seen <==> exists k :: 0 <= k < i && rows[k].questionId == id
      {
        if rows[i].questionId in seen { return Some(Conflict); }
        seen := seen + {rows[i].questionId};
      }
      assert rows[..|rows|] == rows;
      db := db.(answers := db.answers[attemptId := rows]);
      return None;
    }

    /** The answers as they will be stored, unless one is to a question of another quiz. */
    method CleanAnswers(attemptId: nat, known: seq<Question>, saved: seq<Answer>) returns (r: Option<seq<Answer>>)
      ensures r == if exists i :: 0 <= i < |saved| && saved[i].questionId !in QuestionIds(known) then None
                   else Some(CleanedAll(attemptId, saved))
      ensures r.Some? ==> (OneAnswerEach(r.value) <==> OneAnswerEach(saved))
    {
      var questionIds := {};
      for i := 0 to |known|
        invariant questionIds == set k | 0 <= k < i :: known[k].id
      {
        questionIds := questionIds + {known[i].id};
      }
      assert questionIds == QuestionIds(known);
      var clean: seq<Answer> := [];
      for i := 0 to |saved|
        invariant clean == CleanedAll(attemptId, saved)[..i]
        invariant forall k :: 0 <= k < i ==> saved[k].questionId in questionIds
      {
        var a := saved[i];
        if a.questionId !in questionIds { return None; }
        clean := clean + [Answer(attemptId, a.questionId, a.selected, TrimSpace(a.text), None, 0)];
      }
      assert clean == CleanedAll(attemptId, saved);
      assert forall i :: 0 <= i < |saved| ==> clean[i].questionId == saved[i].questionId;
      return Some(clean);
    }

    method SaveAnswers(actor: string, attemptId: nat, saved: seq<Answer>, now: int) returns (r: Result<View>)
      requires Inv(db)
      modifies this
      ensures Inv(db) && (db, r) == QuizStore.SaveAnswers(old(db), actor, attemptId, saved, now)
    {
      hide Inv, QuizStore.GetAttempt, CleanedAll, OneAnswerEach;
      SaveKeepsInv(db, actor, attemptId, saved, now);
      if attemptId !in db.attempts { return Err(NotFound); }
      var attempt := db.attempts[attemptId];
      if attempt.userId != actor { return Err(Forbidden); }
      if attempt.status != InProgress { return Err(Conflict); }
      if attempt.quizId !in db.quizzes { return Err(NotFound); }
      var quiz := db.quizzes[attempt.quizId];
      if quiz.timeLimitSeconds.Some? {
        var deadline := attempt.startedAt + quiz.timeLimitSeconds.value * SECOND;
        if now > deadline { return Err(Conflict); }
      }
      var clean := CleanAnswers(attemptId, ListByQuiz(db, attempt.quizId), saved);
      if clean.None? { return Err(Validation); }
      var replaced := ReplaceAll(attemptId, clean.value);
      if replaced.Some? { return Err(Conflict); }
      r := GetAttempt(actor, attemptId, false);
    }

    method SubmitAttempt(actor: string, attemptId: nat, now: int, updateFails: bool) returns (r: Result<View>)
      requires Inv(db)
      modifies this
      ensures Inv(db) && (db, r) == QuizStore.SubmitAttempt(fold, old(db), actor, attemptId, now, updateFails)
    {
      hide Inv, QuizStore.GetAttempt, GradedAnswers, OneAnswerEach;
      SubmitKeepsInv(fold, db, actor, attemptId, now, updateFails);
      if attemptId !in db.attempts { return Err(NotFound); }
      var attempt := db.attempts[attemptId];
      if attempt.userId != actor { return Err(Forbidden); }
      if attempt.status != InProgress { return Err(Conflict); }
      if attempt.quizId !in db.quizzes { return Err(NotFound); }
      var quiz := db.quizzes[attempt.quizId];
      var rows := ListByQuiz(db, attempt.quizId);
      var existing := ListByAttempt(db, attemptId);
      var graded, score, maxPoints := GradeAll(fold, attemptId, rows, existing);
      GradedAnswersStored(fold, db, attemptId);
      var replaced := ReplaceAll(attemptId, graded);
      if replaced.Some? { return Err(Conflict); }
      var percent := 0;
      if maxPoints > 0 { percent := (score * 100) / maxPoints; }
      attempt := attempt.(status := Graded, score := score, maxPoints := maxPoints, percent := percent,
                          passed := percent >= quiz.passPercent, submittedAt := Some(now), gradedAt := Some(now));
      if updateFails { return Err(Internal); }
      db := db.(attempts := db.attempts[attemptId := attempt]);
      r := GetAttempt(actor, attemptId, false);
    }

    // --- quizzes -------------------------------------------------------------------------

    method CreateQuiz(actor: string, courseId: string, title: string, description: string, timeLimit: Option<int>,
                      maxAttempts: Option<int>, passPercent: int, shuffle: bool, admin: bool)
      returns (error: Option<Error>)
      requires Inv(db)
      modifies this
      ensures Inv(db)
      ensures (db, error) ==
        QuizStore.CreateQuiz(old(db), actor, courseId, title, description, timeLimit, maxAttempts, passPercent,
          shuffle, admin)
      ensures error.Some? ==> db == old(db)
    {
      hide Inv;
      CreateKeepsInv(db, actor, courseId, title, description, timeLimit, maxAttempts, passPercent, shuffle, admin);
      error := RequireCourseWrite(actor, courseId, admin);
      if error.Some? { return; }
      var trimmed := TrimSpace(title);
      if trimmed == "" { return Some(Validation); }
      var pass := passPercent;
      if passPercent < 0 || passPercent > 100 { pass := 60; }
      if !LimitsAllowed(timeLimit, maxAttempts) { return Some(Internal); }
      db := db.(quizzes := db.quizzes[db.nextId := Quiz(db.nextId, courseId, trimmed, TrimSpace(description), Draft,
                                                        timeLimit, maxAttempts, pass, shuffle)]);
      db := db.(order := db.order[db.nextId := []]);
      db := db.(nextId := db.nextId + 1);
    }

    method UpdateQuiz(actor: string, quizId: nat, title: string, description: string, timeLimit: Option<int>,
                      maxAttempts: Option<int>, passPercent: Option<int>, shuffle: Option<bool>, admin: bool)
      returns (error: Option<Error>)
      requires Inv(db)
      modifies this
      ensures Inv(db)
      ensures (db, error) ==
        QuizStore.UpdateQuiz(old(db), actor, quizId, title, description, timeLimit, maxAttempts, passPercent,
          shuffle, admin)
      ensures error.Some? ==> db == old(db)
    {
      hide Inv;
      UpdateKeepsInv(db, actor, quizId, title, description, timeLimit, maxAttempts, passPercent, shuffle, admin);
      if quizId !in db.quizzes { return Some(NotFound); }
      var quiz := db.quizzes[quizId];
      error := RequireCourseWrite(actor, quiz.courseId, admin);
      if error.Some? { return; }
      var trimmed := TrimSpace(title);
      if trimmed != "" { quiz := quiz.(title := trimmed); }
      quiz := quiz.(description := TrimSpace(description), timeLimitSeconds := timeLimit, maxAttempts := maxAttempts);
      if passPercent.Some? {
        if passPercent.value < 0 || passPercent.value > 100 { return Some(Validation); }
        quiz := quiz.(passPercent := passPercent.value);
      }
      if shuffle.Some? { quiz := quiz.(shuffle := shuffle.value); }
      if !LimitsAllowed(timeLimit, maxAttempts) { return Some(Internal); }
      db := db.(quizzes := db.quizzes[quizId := quiz]);
    }

    method PublishQuiz(actor: string, quizId: nat, admin: bool) returns (error: Option<Error>)
      requires Inv(db)
      modifies this
      ensures Inv(db)
      ensures (db, error) == QuizStore.PublishQuiz(old(db), actor, quizId, admin)
      ensures error.Some? ==> db == old(db)
    {
      hide Inv;
      PublishKeepsInv(db, actor, quizId, admin);
      if quizId !in db.quizzes { return Some(NotFound); }
      var quiz := db.quizzes[quizId];
      error := RequireCourseWrite(actor, quiz.courseId, admin);
      if error.Some? { return; }
      if |ListByQuiz(db, quizId)| == 0 { return Some(Validation); }
      db := db.(quizzes := db.quizzes[quizId := quiz.(status := Published)]);
    }

    method GetQuiz(actor: string, quizId: nat, admin: bool) returns (r: Result<QuizView>)
      ensures r == QuizStore.GetQuiz(db, actor, quizId, admin)
      ensures r.Ok? && !admin && db.courses[r.value.quiz.courseId] != actor ==>
        |r.value.questions| == |ListByQuiz(db, quizId)|
        && forall i :: 0 <= i < |r.value.questions| ==>
             SameButKey(ListByQuiz(db, quizId)[i], r.value.questions[i]) && HidesKey(r.value.questions[i])
    {
      if quizId !in db.quizzes { return Err(NotFound); }
      var quiz := db.quizzes[quizId];
      if quiz.courseId !in db.courses { return Err(NotFound); }
      var canAuthor := admin || db.courses[quiz.courseId] == actor;
      if !canAuthor {
        if quiz.status != Published { return Err(NotFound); }
        if !Enrolled(db, actor, quiz.courseId) { return Err(Forbidden); }
      }
      var rows := ListByQuiz(db, quizId);
      if canAuthor { return Ok(QuizView(quiz, rows)); }
      var shown := new Question[|rows|](i requires 0 <= i < |rows| => rows[i]);
      for i := 0 to shown.Length
        invariant forall k :: 0 <= k < i ==> shown[k] == Stripped(rows[k])
        invariant forall k :: i <= k < shown.Length ==> shown[k] == rows[k]
      {
        shown[i] := StripQuestionSecrets(shown[i]);
      }
      assert shown[..] == StrippedAll(rows);
      return Ok(QuizView(quiz, shown[..]));
    }

    // --- questions -----------------------------------------------------------------------

    method InsertQuestion(q: Question)
      modifies this`db
      ensures db == WithQuestion(old(db), q)
    {
      var slots := SlotsOf(db, q.quizId);
      db := db.(questions := db.questions[db.nextId := q]);
      db := db.(order := db.order[q.quizId := slots + [Slot(db.nextId, NextPosition(slots))]]);
      db := db.(nextId := db.nextId + 1);
    }

    method AddQuestion(actor: string, quizId: nat, questionType: QuestionType, prompt: string, points: int,
                       options: array<QuizOption>, generated: seq<string>, correctAnswer: string, admin: bool)
      returns (error: Option<Error>)
      requires Inv(db) && |generated| == options.Length
      modifies this, options
      ensures Inv(db)
      ensures (db, error) ==
        QuizStore.AddQuestion(old(db), actor, quizId, questionType, prompt, points, old(options[..]), generated,
          correctAnswer, admin)
      ensures error.Some? ==> db == old(db)
    {
      hide Inv, HasKey, WithIds, WithQuestion;
      AddKeepsInv(db, actor, quizId, questionType, prompt, points, options[..], generated, correctAnswer, admin);
      if quizId !in db.quizzes { return Some(NotFound); }
      error := RequireCourseWrite(actor, db.quizzes[quizId].courseId, admin);
      if error.Some? { return; }
      if TrimSpace(prompt) == "" { return Some(Validation); }
      var worth := points;
      if points <= 0 { worth := 1; }
      error := ValidateQuestion(questionType, options[..], correctAnswer);
      if error.Some? { return; }
      EnsureOptionIds(options, generated);
      InsertQuestion(Question(db.nextId, quizId, questionType, TrimSpace(prompt), worth, options[..],
                              TrimSpace(correctAnswer)));
    }

    method UpdateQuestion(actor: string, questionId: nat, prompt: string, points: int,
                          options: array<QuizOption>, generated: seq<string>, correctAnswer: string, admin: bool)
      returns (error: Option<Error>)
      requires Inv(db) && |generated| == options.Length
      modifies this, options
      ensures Inv(db)
      ensures (db, error) ==
        QuizStore.UpdateQuestion(old(db), actor, questionId, prompt, points, old(options[..]), generated,
          correctAnswer, admin)
      ensures error.Some? ==> db == old(db)
    {
      hide Inv, HasKey, WithIds;
      ChangeKeepsInv(db, actor, questionId, prompt, points, options[..], generated, correctAnswer, admin);
      if questionId !in db.questions { return Some(NotFound); }
      var q := db.questions[questionId];
      if q.quizId !in db.quizzes { return Some(NotFound); }
      error := RequireCourseWrite(actor, db.quizzes[q.quizId].courseId, admin);
      if error.Some? { return; }
      if TrimSpace(prompt) == "" { return Some(Validation); }
      if points <= 0 { return Some(Validation); }
      error := ValidateQuestion(q.questionType, options[..], correctAnswer);
      if error.Some? { return; }
      EnsureOptionIds(options, generated);
      q := q.(prompt := TrimSpace(prompt), points := points);
      q := q.(options := options[..], correctAnswer := TrimSpace(correctAnswer));
      db := db.(questions := db.questions[questionId := q]);
    }

    method DeleteQuestion(actor: string, questionId: nat, admin: bool) returns (error: Option<Error>)
      requires Inv(db)
      modifies this
      ensures Inv(db)
      ensures (db, error) == QuizStore.DeleteQuestion(old(db), actor, questionId, admin)
      ensures error.Some? ==> db == old(db)
    {
      hide Inv;
      DeleteKeepsInv(db, actor, questionId, admin);
      if questionId !in db.questions { return Some(NotFound); }
      var q := db.questions[questionId];
      if q.quizId !in db.quizzes { return Some(NotFound); }
      error := RequireCourseWrite(actor, db.quizzes[q.quizId].courseId, admin);
      if error.Some? { return; }
      db := db.(order := db.order[q.quizId := Unlisted(SlotsOf(db, q.quizId), [questionId])]);
      db := db.(questions := db.questions - {questionId});
      db := db.(answers := map id | id in db.answers :: AnswersWithout(db.answers[id], questionId));
    }

    method ReorderQuestions(actor: string, quizId: nat, ids: seq<nat>, admin: bool) returns (error: Option<Error>)
      requires Inv(db)
      modifies this
      ensures Inv(db)
      ensures (db, error) == QuizStore.ReorderQuestions(old(db), actor, quizId, ids, admin)
      ensures error.Some? ==> db == old(db)
    {
      hide Inv;
      ReorderKeepsInv(db, actor, quizId, ids, admin);
      if quizId !in db.quizzes { return Some(NotFound); }
      error := RequireCourseWrite(actor, db.quizzes[quizId].courseId, admin);
      if error.Some? { return; }
      var slots := Positions.Reorder(SlotsOf(db, quizId), ids);
      if slots.Err? { return Some(slots.error); }
      db := db.(order := db.order[quizId := slots.value]);
    }
  }

  // --- learners learn nothing about the key ----------------------------------------------

  /** Two stores that differ at most in which answers are correct. */
  ghost predicate SameButKeys(s: Store, t: Store) {
    && t == s.(questions := t.questions)
    && s.questions.Keys == t.questions.Keys
    && forall id :: id in s.questions ==> SameButKey(s.questions[id], t.questions[id])
  }

  lemma {:induction false} StrippedRows(s: map<nat, Question>, t: map<nat, Question>, slots: seq<Slot>)
    requires s.Keys == t.Keys && forall id :: id in s ==> SameButKey(s[id], t[id])
    ensures StrippedAll(Rows(s, slots)) == StrippedAll(Rows(t, slots))
  {
    if slots != [] {
      var n := |slots| - 1;
      StrippedRows(s, t, slots[..n]);
      if slots[n].id in s { SameStripped(s[slots[n].id], t[slots[n].id]); }
      StrippedConcat(Rows(s, slots[..n]), if slots[n].id in s then [s[slots[n].id]] else []);
      StrippedConcat(Rows(t, slots[..n]), if slots[n].id in t then [t[slots[n].id]] else []);
    }
  }

  lemma StrippedConcat(a: seq<Question>, b: seq<Question>)
    ensures StrippedAll(a + b) == StrippedAll(a) + StrippedAll(b)
  {
  }

  lemma SameStripped(a: Question, b: Question)
    requires SameButKey(a, b)
    ensures Stripped(a) == Stripped(b)
  {
    assert WithoutKey(a.options) == WithoutKey(b.options);
  }

  /** Somebody who is neither the teacher nor an administrator gets the same quiz from both. */
  lemma KeyInvisible(s: Store, t: Store, actor: string, quizId: nat)
    requires SameButKeys(s, t)
    requires quizId in s.quizzes && s.quizzes[quizId].courseId in s.courses ==>
      s.courses[s.quizzes[quizId].courseId] != actor
    ensures GetQuiz(s, actor, quizId, false) == GetQuiz(t, actor, quizId, false)
  {
    StrippedRows(s.questions, t.questions, SlotsOf(s, quizId));
  }
}
