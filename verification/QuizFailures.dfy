/** Where the assessment service falls short of what its callers may expect: calls that
    fail and still write, and published quizzes without a question. */
module QuizFailures {
  import opened Common
  import opened Grading
  import opened Positions
  import opened QuizStore
  import opened QuizInvariants

  // --- an error after a write --------------------------------------------------------------

  /** The course of the attempt's quiz is gone: courses are only marked as deleted, so its
      quizzes stay. */
  predicate CourseGone(s: Store, attemptId: nat)
    requires attemptId in s.attempts && s.attempts[attemptId].quizId in s.quizzes
  {
    s.quizzes[s.attempts[attemptId].quizId].courseId !in s.courses
  }

  /** The save gets as far as writing, the answers it writes are not those stored, and the
      course is gone when the result is read back. */
  ghost predicate SaveHalfDone(s: Store, actor: string, attemptId: nat, saved: seq<Answer>, now: int) {
    && OpenAttemptError(s, actor, attemptId) == None
    && CourseGone(s, attemptId)
    && !PastDeadline(s.quizzes[s.attempts[attemptId].quizId], s.attempts[attemptId], now)
    && (forall i :: 0 <= i < |saved| ==>
          saved[i].questionId in QuestionIds(ListByQuiz(s, s.attempts[attemptId].quizId)))
    && OneAnswerEach(saved)
    && CleanedAll(attemptId, saved) != ListByAttempt(s, attemptId)
  }

  /** The learner's open attempt is submitted, and either its row cannot be written, when
      the graded answers are not those stored, or the course is gone. */
  ghost predicate SubmitHalfDone(fold: char -> char, s: Store, actor: string, attemptId: nat, updateFails: bool) {
    && OpenAttemptError(s, actor, attemptId) == None
    && var quizId := s.attempts[attemptId].quizId;
       if updateFails then
         GradedAnswers(fold, attemptId, ListByQuiz(s, quizId), ListByAttempt(s, attemptId))
           != ListByAttempt(s, attemptId)
       else CourseGone(s, attemptId)
  }

  lemma SaveFails(s: Store, actor: string, attemptId: nat, saved: seq<Answer>, now: int)
    requires Inv(s)
    ensures var (s', r) := SaveAnswers(s, actor, attemptId, saved, now);
      r.Err? && s' != s <==> SaveHalfDone(s, actor, attemptId, saved, now)
  {
    hide OrderOk, QuestionsOk, Numbered, OneAnswerEach;
    if OpenAttemptError(s, actor, attemptId) == None {
      Rewriting(s.answers, attemptId, CleanedAll(attemptId, saved));
    }
  }

  /** Writing an entry changes a map exactly when the entry was another one. */
  lemma Rewriting(answers: map<nat, seq<Answer>>, id: nat, rows: seq<Answer>)
    requires id in answers
    ensures answers[id := rows] == answers <==> rows == answers[id]
  {
    assert answers[id := rows][id] == rows;
  }

  lemma SubmitFails(fold: char -> char, s: Store, actor: string, attemptId: nat, now: int, updateFails: bool)
    requires Inv(s)
    ensures var (s', r) := SubmitAttempt(fold, s, actor, attemptId, now, updateFails);
      r.Err? && s' != s <==> SubmitHalfDone(fold, s, actor, attemptId, updateFails)
  {
    hide OrderOk, QuestionsOk, Numbered, GradedAnswers;
    if OpenAttemptError(s, actor, attemptId) == None {
      var quizId := s.attempts[attemptId].quizId;
      Rewriting(s.answers, attemptId,
                GradedAnswers(fold, attemptId, ListByQuiz(s, quizId), ListByAttempt(s, attemptId)));
      var (s', r) := SubmitAttempt(fold, s, actor, attemptId, now, updateFails);
      if !updateFails { assert s'.attempts[attemptId].status == Graded; }
    }
  }

  lemma QuizCallFailsCleanly(fold: char -> char, s: Store, op: Op)
    requires op.Start? || op.Create? || op.Update? || op.Publish?
    ensures Step(fold, s, op).1.Some? ==> Step(fold, s, op).0 == s
  {
    hide Step;
    match op
    case Start(_, _, _) => StartStep(fold, s, op);
    case Create(_, _, _, _, _, _, _, _, _) => CreateStep(fold, s, op);
    case Update(_, _, _, _, _, _, _, _, _) => UpdateStep(fold, s, op);
    case Publish(_, _, _) => PublishStep(fold, s, op);
  }

  lemma QuestionCallFailsCleanly(fold: char -> char, s: Store, op: Op)
    requires WellFormedOp(op) && (op.Add? || op.Change? || op.Delete? || op.Reorder?)
    ensures Step(fold, s, op).1.Some? ==> Step(fold, s, op).0 == s
  {
    hide Step;
    match op
    case Add(_, _, _, _, _, _, _, _, _) => AddStep(fold, s, op);
    case Change(_, _, _, _, _, _, _, _) => ChangeStep(fold, s, op);
    case Delete(_, _, _) => DeleteStep(fold, s, op);
    case Reorder(_, _, _, _) => ReorderStep(fold, s, op);
  }

  /** An error means that nothing was written, for every call and in every store, except
      exactly for these saves and submissions. */
  lemma ErrorAfterWrite(fold: char -> char, s: Store, op: Op)
    requires Inv(s) && WellFormedOp(op)
    ensures var (s', error) := Step(fold, s, op);
      error.Some? && s' != s <==>
        || (op.Save? && SaveHalfDone(s, op.actor, op.attemptId, op.saved, op.now))
        || (op.Submit? && SubmitHalfDone(fold, s, op.actor, op.attemptId, op.updateFails))
  {
    hide Step, Inv, SaveHalfDone, SubmitHalfDone, SaveAnswers, SubmitAttempt;
    if op.Save? {
      SaveStep(fold, s, op);
      SaveFails(s, op.actor, op.attemptId, op.saved, op.now);
    } else if op.Submit? {
      SubmitStep(fold, s, op);
      SubmitFails(fold, s, op.actor, op.attemptId, op.now, op.updateFails);
    } else if op.SetEnrollment? {
      EnrollmentStep(fold, s, op);
    } else if op.SetCourse? {
      CourseStep(fold, s, op);
    } else if op.Start? || op.Create? || op.Update? || op.Publish? {
      QuizCallFailsCleanly(fold, s, op);
    } else {
      QuestionCallFailsCleanly(fold, s, op);
    }
  }

  // --- published quizzes without a question --------------------------------------------------

  ghost predicate IsPublished(s: Store, quizId: nat) {
    quizId in s.quizzes && s.quizzes[quizId].status == Published
  }

  /** The call deletes the only question of the published quiz. */
  ghost predicate Empties(s: Store, op: Op, quizId: nat) {
    && op.Delete? && QuestionError(s, op.actor, op.questionId, op.admin) == None
    && ListByQuiz(s, quizId) == [s.questions[op.questionId]]
  }

  lemma EmptyList(s: Store, quizId: nat)
    requires Inv(s) && quizId in s.quizzes
    ensures |ListByQuiz(s, quizId)| == |SlotsOf(s, quizId)|
    ensures forall i :: 0 <= i < |SlotsOf(s, quizId)| ==>
      SlotsOf(s, quizId)[i].id in s.questions && s.questions[SlotsOf(s, quizId)[i].id].quizId == quizId
      && ListByQuiz(s, quizId)[i] == s.questions[SlotsOf(s, quizId)[i].id]
  {
    assert ListsQuestionsOf(s.questions, quizId, SlotsOf(s, quizId));
    RowsAre(s.questions, SlotsOf(s, quizId));
  }

  /** Taking one child away empties the list exactly when it is the only one. */
  lemma OnlyChild(slots: seq<Slot>, id: nat)
    requires Ordered(slots) && slots != []
    ensures Unlisted(slots, [id]) == [] <==> |slots| == 1 && slots[0].id == id
  {
    UnlistedIs(slots, [id]);
    var rest := Unlisted(slots, [id]);
    assert slots[0] in slots && (|slots| > 1 ==> slots[1] in slots);
    if rest != [] { assert rest[0] in slots; }
  }

  lemma DeletionEmpties(s: Store, op: Op, quizId: nat)
    requires Inv(s) && op.Delete? && quizId in s.quizzes && SlotsOf(s, quizId) != []
    ensures SlotsOf(DeleteQuestion(s, op.actor, op.questionId, op.admin).0, quizId) == [] <==> Empties(s, op, quizId)
  {
    hide IdsOk, AttemptsOk, Numbered, AnswersOk;
    EmptyList(s, quizId);
    var slots := SlotsOf(s, quizId);
    if QuestionError(s, op.actor, op.questionId, op.admin) == None {
      OnlyChild(slots, op.questionId);
      OneRow(s, quizId, op.questionId);
    }
  }

  lemma OneRow(s: Store, quizId: nat, questionId: nat)
    requires Inv(s) && quizId in s.quizzes && questionId in s.questions
    ensures ListByQuiz(s, quizId) == [s.questions[questionId]] <==>
      |SlotsOf(s, quizId)| == 1 && SlotsOf(s, quizId)[0].id == questionId
  {
    hide OrderOk, AttemptsOk, Numbered, AnswersOk;
    EmptyList(s, quizId);
  }

  lemma ReorderKeepsAny(s: Store, op: Op, quizId: nat)
    requires Inv(s) && op.Reorder? && quizId in s.quizzes && SlotsOf(s, quizId) != []
    ensures SlotsOf(ReorderQuestions(s, op.actor, op.quizId, op.ids, op.admin).0, quizId) != []
  {
    hide IdsOk, QuestionsOk, AttemptsOk, Numbered, AnswersOk;
    var slots := SlotsOf(s, quizId);
    if op.quizId == quizId && Reordered(slots, op.ids).Ok? {
      assert ListsQuestionsOf(s.questions, quizId, slots);
      ReorderedIs(slots, op.ids);
      IdsAre(slots, slots[0].id);
    }
  }

  lemma OtherCallsKeepAny(fold: char -> char, s: Store, op: Op, quizId: nat)
    requires Inv(s) && WellFormedOp(op) && quizId in s.quizzes && SlotsOf(s, quizId) != []
    requires !op.Delete? && !op.Reorder?
    ensures SlotsOf(Step(fold, s, op).0, quizId) != []
  {
    hide Step, OrderOk, QuestionsOk, AttemptsOk, Numbered, AnswersOk;
    hide StartAttempt, SaveAnswers, SubmitAttempt, UpdateQuestion;
    match op
    case Start(_, _, _) => StartStep(fold, s, op);
    case Save(_, _, _, _) => SaveStep(fold, s, op);
    case Submit(_, _, _, _) => SubmitStep(fold, s, op);
    case Create(_, _, _, _, _, _, _, _, _) => CreateStep(fold, s, op);
    case Update(_, _, _, _, _, _, _, _, _) => UpdateStep(fold, s, op);
    case Publish(_, _, _) => PublishStep(fold, s, op);
    case Add(_, _, _, _, _, _, _, _, _) => AddStep(fold, s, op);
    case Change(_, _, _, _, _, _, _, _) => ChangeStep(fold, s, op);
    case SetEnrollment(_, _, _) => EnrollmentStep(fold, s, op);
    case SetCourse(_, _) => CourseStep(fold, s, op);
  }

  /** A call leaves a quiz that had a question without one exactly when it deletes the only
      question; no call asks whether the quiz is published. */
  lemma EmptiedExactly(fold: char -> char, s: Store, op: Op, quizId: nat)
    requires Inv(s) && WellFormedOp(op) && quizId in s.quizzes && ListByQuiz(s, quizId) != []
    ensures ListByQuiz(Step(fold, s, op).0, quizId) == [] <==> Empties(s, op, quizId)
  {
    hide Step, Inv, Empties, DeleteQuestion, ReorderQuestions;
    EmptyList(s, quizId);
    StepKeepsInv(fold, s, op);
    StepStatus(fold, s, op, quizId);
    EmptyList(Step(fold, s, op).0, quizId);
    NoDeletion(s, op, quizId);
    if op.Delete? {
      DeleteStep(fold, s, op);
      DeletionEmpties(s, op, quizId);
    } else if op.Reorder? {
      ReorderStep(fold, s, op);
      ReorderKeepsAny(s, op, quizId);
    } else {
      OtherCallsKeepAny(fold, s, op, quizId);
    }
  }

  lemma NoDeletion(s: Store, op: Op, quizId: nat)
    ensures Empties(s, op, quizId) ==> op.Delete?
  {
  }

  lemma OtherCallsKeepQuizzes(fold: char -> char, s: Store, op: Op)
    requires WellFormedOp(op) && !op.Create? && !op.Update? && !op.Publish?
    ensures Step(fold, s, op).0.quizzes == s.quizzes
  {
    hide Step, StartAttempt, SaveAnswers, SubmitAttempt, AddQuestion, UpdateQuestion, DeleteQuestion, ReorderQuestions;
    match op
    case Start(_, _, _) => StartStep(fold, s, op);
    case Save(_, _, _, _) => SaveStep(fold, s, op);
    case Submit(_, _, _, _) => SubmitStep(fold, s, op);
    case Add(_, _, _, _, _, _, _, _, _) => AddStep(fold, s, op);
    case Change(_, _, _, _, _, _, _, _) => ChangeStep(fold, s, op);
    case Delete(_, _, _) => DeleteStep(fold, s, op);
    case Reorder(_, _, _, _) => ReorderStep(fold, s, op);
    case SetEnrollment(_, _, _) => EnrollmentStep(fold, s, op);
    case SetCourse(_, _) => CourseStep(fold, s, op);
  }

  /** Quizzes stay, and one becomes published only through a call that found a question. */
  lemma StepStatus(fold: char -> char, s: Store, op: Op, quizId: nat)
    requires Inv(s) && WellFormedOp(op)
    ensures quizId in s.quizzes ==> quizId in Step(fold, s, op).0.quizzes
    ensures IsPublished(Step(fold, s, op).0, quizId) && !IsPublished(s, quizId) ==>
      quizId in s.quizzes && op.Publish? && ListByQuiz(s, quizId) != []
  {
    hide Step, OrderOk, QuestionsOk, AttemptsOk, Numbered, AnswersOk;
    if op.Create? {
      CreateStep(fold, s, op);
    } else if op.Update? {
      UpdateStep(fold, s, op);
    } else if op.Publish? {
      PublishStep(fold, s, op);
    } else {
      OtherCallsKeepQuizzes(fold, s, op);
    }
  }

  /** Call k of the run deletes the only question of a published quiz. */
  ghost predicate EmptiesAt(fold: char -> char, ops: seq<Op>, k: nat, quizId: nat)
    requires WellFormedRun(ops) && k < |ops|
  {
    IsPublished(Run(fold, EMPTY, ops[..k]), quizId) && Empties(Run(fold, EMPTY, ops[..k]), ops[k], quizId)
  }

  /** In every run in which nobody does that, a published quiz has a question. */
  lemma {:induction false} PublishedHasQuestions(fold: char -> char, ops: seq<Op>, quizId: nat)
    requires WellFormedRun(ops)
    requires forall k :: 0 <= k < |ops| ==> !EmptiesAt(fold, ops, k, quizId)
    requires IsPublished(Run(fold, EMPTY, ops), quizId)
    ensures ListByQuiz(Run(fold, EMPTY, ops), quizId) != []
  {
    hide Step, Inv, Empties, ListByQuiz;
    if ops != [] {
      var n := |ops| - 1;
      var s := Run(fold, EMPTY, ops[..n]);
      EmptyInv();
      RunKeepsInv(fold, EMPTY, ops[..n]);
      StepStatus(fold, s, ops[n], quizId);
      if IsPublished(s, quizId) {
        forall k | 0 <= k < n ensures !EmptiesAt(fold, ops[..n], k, quizId) {
          assert ops[..n][..k] == ops[..k];
          assert !EmptiesAt(fold, ops, k, quizId);
        }
        PublishedHasQuestions(fold, ops[..n], quizId);
        assert !EmptiesAt(fold, ops, n, quizId);
      }
      NoDeletion(s, ops[n], quizId);
      EmptiedExactly(fold, s, ops[n], quizId);
    }
  }
}
