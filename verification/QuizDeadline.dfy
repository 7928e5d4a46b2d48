/** Once the deadline of a timed attempt has passed, its result is settled: saves are
    refused, and submitting grades the answers saved last before it. */
module QuizDeadline {
  import opened Common
  import opened Grading
  import opened QuizStore
  import opened Positions
  import opened QuizInvariants
  import opened QuizRuns

  // --- calls that leave a quiz alone ---------------------------------------------------------

  /** The call edits neither the quiz nor any of its questions. (Publishing changes
      neither the limits nor the questions.) */
  ghost predicate LeavesQuiz(s: Store, op: Op, quizId: nat) {
    match op
    case Update(_, id, _, _, _, _, _, _, _) => id != quizId
    case Add(_, id, _, _, _, _, _, _, _) => id != quizId
    case Reorder(_, id, _, _) => id != quizId
    case Change(_, questionId, _, _, _, _, _, _) =>
      questionId !in s.questions || s.questions[questionId].quizId != quizId
    case Delete(_, questionId, _) => questionId !in s.questions || s.questions[questionId].quizId != quizId
    case _ => true
  }

  /** Nobody edits the quiz, and a save to the attempt comes after its deadline. */
  ghost predicate Late(s: Store, op: Op, attemptId: nat)
    requires Inv(s) && attemptId in s.attempts
  {
    var a := s.attempts[attemptId];
    && LeavesQuiz(s, op, a.quizId)
    && (op.Save? && op.attemptId == attemptId ==> PastDeadline(s.quizzes[a.quizId], a, op.now))
  }

  /** Every call of the run is late, in the store it finds. */
  ghost predicate LateRun(fold: char -> char, s: Store, ops: seq<Op>, attemptId: nat)
    requires Inv(s) && attemptId in s.attempts && WellFormedRun(ops)
  {
    ops != [] ==>
      var before := ops[..|ops| - 1];
      RunKeepsInv(fold, s, before);
      AttemptKept(fold, s, before, attemptId);
      && LateRun(fold, s, before, attemptId)
      && Late(Run(fold, s, before), ops[|ops| - 1], attemptId)
  }

  lemma {:induction false} RowsSame(before: map<nat, Question>, after: map<nat, Question>, slots: seq<Slot>)
    requires forall i :: 0 <= i < |slots| ==>
      slots[i].id in before && slots[i].id in after && before[slots[i].id] == after[slots[i].id]
    ensures Rows(before, slots) == Rows(after, slots)
  {
    if slots != [] { RowsSame(before, after, slots[..|slots| - 1]); }
  }

  /** Adding, changing or removing a question of another quiz does not show here. */
  lemma OtherQuestion(s: Store, s': Store, quizId: nat, questionId: nat)
    requires Inv(s) && quizId in s.quizzes
    requires questionId in s.questions ==> s.questions[questionId].quizId != quizId
    requires forall id :: id in s.questions && id != questionId ==>
      id in s'.questions && s'.questions[id] == s.questions[id]
    requires SlotsOf(s', quizId) == SlotsOf(s, quizId)
    ensures ListByQuiz(s', quizId) == ListByQuiz(s, quizId)
  {
    assert ListsQuestionsOf(s.questions, quizId, SlotsOf(s, quizId));
    RowsSame(s.questions, s'.questions, SlotsOf(s, quizId));
  }

  /** What a quiz is graded by. */
  ghost predicate SameQuiz(s: Store, s': Store, quizId: nat) {
    && quizId in s.quizzes && quizId in s'.quizzes
    && s'.quizzes[quizId].timeLimitSeconds == s.quizzes[quizId].timeLimitSeconds
    && s'.quizzes[quizId].passPercent == s.quizzes[quizId].passPercent
    && ListByQuiz(s', quizId) == ListByQuiz(s, quizId)
  }

  lemma AddLeaves(fold: char -> char, s: Store, op: Op, quizId: nat)
    requires Inv(s) && WellFormedOp(op) && quizId in s.quizzes && op.Add? && LeavesQuiz(s, op, quizId)
    ensures SameQuiz(s, Step(fold, s, op).0, quizId)
  {
    hide Step;
    AddStep(fold, s, op);
    if Step(fold, s, op).0 != s { OtherQuestion(s, Step(fold, s, op).0, quizId, s.nextId); }
  }

  lemma ChangeLeaves(fold: char -> char, s: Store, op: Op, quizId: nat)
    requires Inv(s) && WellFormedOp(op) && quizId in s.quizzes && op.Change? && LeavesQuiz(s, op, quizId)
    ensures SameQuiz(s, Step(fold, s, op).0, quizId)
  {
    hide Step, HasKey, IdsOk, Numbered, AnswersOk;
    ChangeStep(fold, s, op);
    if Step(fold, s, op).0 != s { OtherQuestion(s, Step(fold, s, op).0, quizId, op.questionId); }
  }

  lemma DeleteLeaves(fold: char -> char, s: Store, op: Op, quizId: nat)
    requires Inv(s) && quizId in s.quizzes && op.Delete? && LeavesQuiz(s, op, quizId)
    ensures SameQuiz(s, Step(fold, s, op).0, quizId)
  {
    hide Step, IdsOk, Numbered, AnswersOk;
    DeleteStep(fold, s, op);
    if Step(fold, s, op).0 != s { OtherQuestion(s, Step(fold, s, op).0, quizId, op.questionId); }
  }

  lemma ReorderLeaves(fold: char -> char, s: Store, op: Op, quizId: nat)
    requires Inv(s) && quizId in s.quizzes && op.Reorder? && LeavesQuiz(s, op, quizId)
    ensures SameQuiz(s, Step(fold, s, op).0, quizId)
  {
    hide Step;
    ReorderStep(fold, s, op);
  }

  lemma CreateLeaves(fold: char -> char, s: Store, op: Op, quizId: nat)
    requires Inv(s) && quizId in s.quizzes && op.Create?
    ensures SameQuiz(s, Step(fold, s, op).0, quizId)
  {
    hide Step, OrderOk, QuestionsOk, AttemptsOk, Numbered, AnswersOk, Rows;
    CreateStep(fold, s, op);
  }

  lemma UpdateLeaves(fold: char -> char, s: Store, op: Op, quizId: nat)
    requires Inv(s) && quizId in s.quizzes && op.Update? && LeavesQuiz(s, op, quizId)
    ensures SameQuiz(s, Step(fold, s, op).0, quizId)
  {
    hide Step, IdsOk, OrderOk, QuestionsOk, AttemptsOk, Numbered, AnswersOk, Rows;
    UpdateStep(fold, s, op);
  }

  lemma PublishLeaves(fold: char -> char, s: Store, op: Op, quizId: nat)
    requires Inv(s) && quizId in s.quizzes && op.Publish?
    ensures SameQuiz(s, Step(fold, s, op).0, quizId)
  {
    hide Step, IdsOk, OrderOk, QuestionsOk, AttemptsOk, Numbered, AnswersOk, Rows;
    PublishStep(fold, s, op);
  }

  lemma OthersLeave(fold: char -> char, s: Store, op: Op, quizId: nat)
    requires quizId in s.quizzes && (op.Start? || op.Save? || op.Submit? || op.SetEnrollment? || op.SetCourse?)
    ensures SameQuiz(s, Step(fold, s, op).0, quizId)
  {
    hide Step, StartAttempt, SaveAnswers, SubmitAttempt;
    if op.SetEnrollment? {
      EnrollmentStep(fold, s, op);
    } else if op.SetCourse? {
      CourseStep(fold, s, op);
    } else {
      AttemptCall(fold, s, op);
    }
  }

  lemma StepLeavesQuiz(fold: char -> char, s: Store, op: Op, quizId: nat)
    requires Inv(s) && WellFormedOp(op) && quizId in s.quizzes && LeavesQuiz(s, op, quizId)
    ensures SameQuiz(s, Step(fold, s, op).0, quizId)
  {
    hide Step, Inv, LeavesQuiz;
    if op.Add? {
      AddLeaves(fold, s, op, quizId);
    } else if op.Change? {
      ChangeLeaves(fold, s, op, quizId);
    } else if op.Delete? {
      DeleteLeaves(fold, s, op, quizId);
    } else if op.Reorder? {
      ReorderLeaves(fold, s, op, quizId);
    } else if op.Create? {
      CreateLeaves(fold, s, op, quizId);
    } else if op.Update? {
      UpdateLeaves(fold, s, op, quizId);
    } else if op.Publish? {
      PublishLeaves(fold, s, op, quizId);
    } else {
      OthersLeave(fold, s, op, quizId);
    }
  }

  lemma {:induction false} NothingToRemove(answers: seq<Answer>, questionId: nat)
    requires forall i :: 0 <= i < |answers| ==> answers[i].questionId != questionId
    ensures AnswersWithout(answers, questionId) == answers
  {
    if answers != [] {
      var n := |answers| - 1;
      NothingToRemove(answers[..n], questionId);
      assert AnswersWithout(answers, questionId) == answers[..n] + [answers[n]];
    }
  }

  // --- the settled result ------------------------------------------------------------------

  /** The graded answers the attempt would get if it were submitted now. */
  ghost function GradesNow(fold: char -> char, s: Store, attemptId: nat): seq<Answer>
    requires attemptId in s.attempts
  {
    GradedAnswers(fold, attemptId, ListByQuiz(s, s.attempts[attemptId].quizId), ListByAttempt(s, attemptId))
  }

  /** The attempt is still open, or was closed with the grades it would have got in s. */
  ghost predicate SettledAs(fold: char -> char, s: Store, s': Store, attemptId: nat)
    requires attemptId in s.attempts && s.attempts[attemptId].quizId in s.quizzes && attemptId in s'.attempts
  {
    var a, a' := s.attempts[attemptId], s'.attempts[attemptId];
    var questions, grades := ListByQuiz(s, a.quizId), GradesNow(fold, s, attemptId);
    && GradesNow(fold, s', attemptId) == grades
    && (a'.status == InProgress ==> a' == a)
    && (a'.status == Graded ==>
          && a'.submittedAt.Some?
          && a' == Finished(a, s.quizzes[a.quizId], questions, grades, a'.submittedAt.value)
          && ListByAttempt(s', attemptId) == grades)
  }

  /** A late save is refused. */
  lemma LateSaveRefused(fold: char -> char, s: Store, op: Op, attemptId: nat)
    requires Inv(s) && attemptId in s.attempts && Late(s, op, attemptId)
    requires op.Save? && op.attemptId == attemptId
    ensures Step(fold, s, op).0 == s && Step(fold, s, op).1.Some?
  {
    hide Step;
    SaveStep(fold, s, op);
  }

  lemma DeletedElsewhere(s: Store, op: Op, attemptId: nat)
    requires Inv(s) && attemptId in s.attempts && Late(s, op, attemptId) && op.Delete?
    ensures AnswersWithout(ListByAttempt(s, attemptId), op.questionId) == ListByAttempt(s, attemptId)
  {
    hide OrderOk, QuestionsOk, Numbered;
    var answers := ListByAttempt(s, attemptId);
    assert AnswersFor(answers, s.attempts[attemptId].quizId, s.questions);
    NothingToRemove(answers, op.questionId);
  }

  lemma LateAnswers(fold: char -> char, s: Store, op: Op, attemptId: nat)
    requires Inv(s) && WellFormedOp(op) && attemptId in s.attempts && Late(s, op, attemptId)
    requires !(op.Submit? && op.attemptId == attemptId)
    ensures ListByAttempt(Step(fold, s, op).0, attemptId) == ListByAttempt(s, attemptId)
  {
    hide Step, Inv;
    if op.Save? && op.attemptId == attemptId {
      LateSaveRefused(fold, s, op, attemptId);
    } else {
      StepAnswers(fold, s, op, attemptId);
      if op.Delete? { DeletedElsewhere(s, op, attemptId); }
    }
  }

  lemma SubmitAttemptSettles(fold: char -> char, s: Store, actor: string, attemptId: nat, now: int, updateFails: bool)
    requires attemptId in s.attempts && s.attempts[attemptId].quizId in s.quizzes
    requires GradedAnswers(fold, attemptId, ListByQuiz(s, s.attempts[attemptId].quizId), GradesNow(fold, s, attemptId))
      == GradesNow(fold, s, attemptId)
    ensures var s' := SubmitAttempt(fold, s, actor, attemptId, now, updateFails).0;
      && attemptId in s'.attempts
      && (s.attempts[attemptId].status == InProgress ==> SettledAs(fold, s, s', attemptId))
      && (s.attempts[attemptId].status == Graded ==> s' == s)
  {
    hide GradedAnswers;
  }

  lemma LateSubmit(fold: char -> char, s: Store, op: Op, attemptId: nat)
    requires Inv(s) && attemptId in s.attempts && op.Submit? && op.attemptId == attemptId
    ensures var s' := Step(fold, s, op).0;
      && attemptId in s'.attempts
      && (s.attempts[attemptId].status == InProgress ==> SettledAs(fold, s, s', attemptId))
      && (s.attempts[attemptId].status == Graded ==> s' == s)
  {
    hide Step;
    var quizId := s.attempts[attemptId].quizId;
    ListedQuestions(s, quizId);
    GradingIdempotent(fold, attemptId, ListByQuiz(s, quizId), ListByAttempt(s, attemptId));
    SubmitStep(fold, s, op);
    SubmitAttemptSettles(fold, s, op.actor, attemptId, op.now, op.updateFails);
  }

  /** One late call keeps the settled result. */
  lemma LateStep(fold: char -> char, s: Store, op: Op, attemptId: nat)
    requires Inv(s) && WellFormedOp(op) && attemptId in s.attempts && Late(s, op, attemptId)
    ensures var s' := Step(fold, s, op).0;
      && attemptId in s'.attempts
      && SameQuiz(s, s', s.attempts[attemptId].quizId)
      && (s.attempts[attemptId].status == InProgress ==> SettledAs(fold, s, s', attemptId))
      && (s.attempts[attemptId].status == Graded ==>
            s'.attempts[attemptId] == s.attempts[attemptId]
              && ListByAttempt(s', attemptId) == ListByAttempt(s, attemptId))
  {
    hide Step, Inv, Late, SettledAs, SameQuiz;
    KnownQuiz(s, attemptId);
    LateLeaves(s, op, attemptId);
    StepLeavesQuiz(fold, s, op, s.attempts[attemptId].quizId);
    if op.Submit? && op.attemptId == attemptId {
      LateSubmit(fold, s, op, attemptId);
    } else {
      UntouchedAttempt(fold, s, op, attemptId);
      LateAnswers(fold, s, op, attemptId);
      UntouchedSettles(fold, s, Step(fold, s, op).0, attemptId);
    }
  }

  lemma KnownQuiz(s: Store, attemptId: nat)
    requires Inv(s) && attemptId in s.attempts
    ensures s.attempts[attemptId].quizId in s.quizzes
  {
  }

  lemma LateLeaves(s: Store, op: Op, attemptId: nat)
    requires Inv(s) && attemptId in s.attempts && Late(s, op, attemptId)
    ensures LeavesQuiz(s, op, s.attempts[attemptId].quizId)
  {
  }

  lemma UntouchedAttempt(fold: char -> char, s: Store, op: Op, attemptId: nat)
    requires Inv(s) && WellFormedOp(op) && attemptId in s.attempts && !(op.Submit? && op.attemptId == attemptId)
    ensures attemptId in Step(fold, s, op).0.attempts
      && Step(fold, s, op).0.attempts[attemptId] == s.attempts[attemptId]
  {
    hide Step, Inv;
    StepAttempts(fold, s, op);
  }

  lemma UntouchedSettles(fold: char -> char, s: Store, s': Store, attemptId: nat)
    requires attemptId in s.attempts && attemptId in s'.attempts && s'.attempts[attemptId] == s.attempts[attemptId]
    requires SameQuiz(s, s', s.attempts[attemptId].quizId)
    requires ListByAttempt(s', attemptId) == ListByAttempt(s, attemptId)
    ensures s.attempts[attemptId].status == InProgress ==> SettledAs(fold, s, s', attemptId)
  {
  }

  lemma SettledChain(fold: char -> char, s: Store, middle: Store, s': Store, attemptId: nat)
    requires attemptId in s.attempts && attemptId in middle.attempts && attemptId in s'.attempts
    requires s.attempts[attemptId].quizId in s.quizzes && middle.attempts[attemptId].quizId in middle.quizzes
    requires s.attempts[attemptId].status == InProgress
    requires SettledAs(fold, s, middle, attemptId) && SameQuiz(s, middle, s.attempts[attemptId].quizId)
    requires middle.attempts[attemptId].status == InProgress ==> SettledAs(fold, middle, s', attemptId)
    requires middle.attempts[attemptId].status == Graded ==>
      s'.attempts[attemptId] == middle.attempts[attemptId]
        && ListByAttempt(s', attemptId) == ListByAttempt(middle, attemptId)
    requires SameQuiz(middle, s', middle.attempts[attemptId].quizId)
    ensures SettledAs(fold, s, s', attemptId) && SameQuiz(s, s', s.attempts[attemptId].quizId)
  {
  }

  /** From the deadline on, any run that leaves the quiz alone settles the attempt: it is
      either still open with the same grades ahead of it, or closed with exactly those. */
  lemma {:induction false} DeadlineFreezes(fold: char -> char, s: Store, ops: seq<Op>, attemptId: nat)
    requires Inv(s) && WellFormedRun(ops) && attemptId in s.attempts && s.attempts[attemptId].status == InProgress
    requires LateRun(fold, s, ops, attemptId)
    ensures var s' := Run(fold, s, ops);
      && attemptId in s'.attempts
      && SameQuiz(s, s', s.attempts[attemptId].quizId)
      && SettledAs(fold, s, s', attemptId)
  {
    hide Step, Inv, SettledAs;
    KnownQuiz(s, attemptId);
    if ops == [] {
      UntouchedSettles(fold, s, s, attemptId);
    } else {
      var n := |ops| - 1;
      DeadlineFreezes(fold, s, ops[..n], attemptId);
      RunKeepsInv(fold, s, ops[..n]);
      RunSplit(fold, s, ops);
      var middle, s' := Run(fold, s, ops[..n]), Run(fold, s, ops);
      KnownQuiz(middle, attemptId);
      LateStep(fold, middle, ops[n], attemptId);
      SettledChain(fold, s, middle, s', attemptId);
    }
  }

  /** The rows record what the learner chose, ungraded, one row per answer given. */
  ghost predicate Records(rows: seq<Answer>, attemptId: nat, saved: seq<Answer>) {
    && |rows| == |saved|
    && forall i :: 0 <= i < |saved| ==>
         && rows[i].attemptId == attemptId && rows[i].questionId == saved[i].questionId
         && rows[i].selected == saved[i].selected && rows[i].text == TrimSpace(saved[i].text)
         && rows[i].isCorrect == None && rows[i].points == 0
  }

  /** What a save that succeeds, or writes at all, leaves: the attempt open, with exactly the
      answers given, one to each question. */
  lemma SavedAnswers(s: Store, actor: string, attemptId: nat, saved: seq<Answer>, savedAt: int)
    requires SaveAnswers(s, actor, attemptId, saved, savedAt).1.Ok?
      || SaveAnswers(s, actor, attemptId, saved, savedAt).0 != s
    ensures var s1 := SaveAnswers(s, actor, attemptId, saved, savedAt).0;
      && attemptId in s1.attempts && s1.attempts[attemptId].status == InProgress
      && s1.attempts[attemptId].quizId in s1.quizzes
      && Records(ListByAttempt(s1, attemptId), attemptId, saved)
      && s1 == s.(answers := s1.answers)
      && forall i, j :: 0 <= i < j < |saved| ==> saved[i].questionId != saved[j].questionId
  {
  }

  /** Recording an answer changes no grade: the row is right exactly when the answer was. */
  lemma RecordingKeepsGrades(fold: char -> char, q: Question, attemptId: nat, rows: seq<Answer>, saved: seq<Answer>,
                             i: nat)
    requires Records(rows, attemptId, saved) && i < |saved|
    ensures Correct(fold, q, rows[i]) <==> Correct(fold, q, saved[i])
  {
    TrimTwice(saved[i].text);
  }

  /** The result of a graded attempt, given the grades it was closed with. */
  ghost predicate ResultIs(a: Attempt, questions: seq<Question>, grades: seq<Answer>, pass: int) {
    && a.score == SumAwarded(grades) && a.maxPoints == SumPoints(questions)
    && a.percent == Percent(a.score, a.maxPoints)
    && (a.passed <==> a.percent >= pass)
  }

  lemma SettledResult(fold: char -> char, s: Store, s': Store, attemptId: nat)
    requires Inv(s) && attemptId in s.attempts && attemptId in s'.attempts && SettledAs(fold, s, s', attemptId)
    requires s'.attempts[attemptId].status == Graded
    ensures var quizId := s.attempts[attemptId].quizId;
      && ResultIs(s'.attempts[attemptId], ListByQuiz(s, quizId), GradesNow(fold, s, attemptId),
                  s.quizzes[quizId].passPercent)
      && ListByAttempt(s', attemptId) == GradesNow(fold, s, attemptId)
  {
  }

  /** The graded row of a question holds the learner's answer to it, right exactly when that
      answer is, or a blank if there is none. */
  ghost predicate GradesChoice(fold: char -> char, row: Answer, q: Question, saved: seq<Answer>) {
    && row.questionId == q.id && row.isCorrect.Some?
    && row.points == (if row.isCorrect.value then q.points else 0)
    && (forall j :: 0 <= j < |saved| && saved[j].questionId == q.id ==>
          && row.selected == saved[j].selected && row.text == TrimSpace(saved[j].text)
          && (row.isCorrect.value <==> Correct(fold, q, saved[j])))
    && (NoneFor(saved, q.id) ==> row.selected == [] && row.text == "")
  }

  lemma RecordedGrades(fold: char -> char, attemptId: nat, questions: seq<Question>, rows: seq<Answer>,
                       saved: seq<Answer>, i: nat)
    requires Records(rows, attemptId, saved) && i < |questions|
    requires forall k, j :: 0 <= k < j < |saved| ==> saved[k].questionId != saved[j].questionId
    ensures GradesChoice(fold, GradedAnswers(fold, attemptId, questions, rows)[i], questions[i], saved)
  {
    var q := questions[i];
    GradedKeepsAnswer(fold, attemptId, questions, rows, i);
    forall j | 0 <= j < |saved| && saved[j].questionId == q.id
      ensures LastFor(rows, j, q.id) && (Correct(fold, q, rows[j]) <==> Correct(fold, q, saved[j]))
    {
      RecordingKeepsGrades(fold, q, attemptId, rows, saved, j);
    }
  }

  /** So an attempt closed after its deadline is graded by the answers saved last, whenever it
      is submitted and however often saving was tried again: s1 is the store that save left,
      and the run after it is late. */
  lemma LateSubmissionGradesLastSave(fold: char -> char, s: Store, actor: string, attemptId: nat, saved: seq<Answer>,
                                     savedAt: int, ops: seq<Op>)
    requires Inv(s) && WellFormedRun(ops)
    requires SaveAnswers(s, actor, attemptId, saved, savedAt).1.Ok?
      || SaveAnswers(s, actor, attemptId, saved, savedAt).0 != s
    requires var s1 := SaveAnswers(s, actor, attemptId, saved, savedAt).0;
      Inv(s1) && attemptId in s1.attempts && LateRun(fold, s1, ops, attemptId)
    ensures var s' := Run(fold, SaveAnswers(s, actor, attemptId, saved, savedAt).0, ops);
      var questions := ListByQuiz(s, s.attempts[attemptId].quizId);
      var rows := ListByAttempt(s', attemptId);
      && attemptId in s'.attempts
      && (s'.attempts[attemptId].status == Graded ==>
            && |rows| == |questions|
            && (forall i :: 0 <= i < |questions| ==> GradesChoice(fold, rows[i], questions[i], saved))
            && ResultIs(s'.attempts[attemptId], questions, rows, s.quizzes[s.attempts[attemptId].quizId].passPercent))
  {
    hide Run, Inv, LateRun;
    var s1 := SaveAnswers(s, actor, attemptId, saved, savedAt).0;
    SavedAnswers(s, actor, attemptId, saved, savedAt);
    DeadlineFreezes(fold, s1, ops, attemptId);
    if Run(fold, s1, ops).attempts[attemptId].status == Graded {
      SettledResult(fold, s1, Run(fold, s1, ops), attemptId);
      var questions := ListByQuiz(s, s.attempts[attemptId].quizId);
      forall i | 0 <= i < |questions|
        ensures GradesChoice(fold, GradesNow(fold, s1, attemptId)[i], questions[i], saved)
      {
        RecordedGrades(fold, attemptId, questions, ListByAttempt(s1, attemptId), saved, i);
      }
    }
  }

  // --- blank attempts ------------------------------------------------------------------------

  /** Every stored question says what the right answer is. */
  ghost predicate Keyed(questions: map<nat, Question>) {
    forall id :: id in questions ==>
      HasKey(questions[id].questionType, questions[id].options, questions[id].correctAnswer)
  }

  lemma {:induction false} TrimRightEnds(s: string)
    ensures var t := TrimRight(s); t == "" || !IsSpace(t[|t| - 1])
    ensures |TrimRight(s)| <= |s| && TrimRight(s) == s[..|TrimRight(s)|]
    ensures s != "" && !IsSpace(s[0]) ==> TrimRight(s) != ""
  {
    if s != "" && IsSpace(s[|s| - 1]) { TrimRightEnds(s[..|s| - 1]); }
  }

  lemma {:induction false} TrimLeftStarts(s: string)
    ensures var t := TrimLeft(s); t == "" || !IsSpace(t[0])
  {
    if s != "" && IsSpace(s[0]) { TrimLeftStarts(s[1..]); }
  }

  /** Trimming twice is trimming once. */
  lemma TrimTwice(s: string)
    ensures TrimSpace(TrimSpace(s)) == TrimSpace(s)
  {
    var l := TrimLeft(s);
    TrimLeftStarts(s);
    TrimRightEnds(l);
    var t := TrimRight(l);
    if t != "" { assert t[0] == l[0]; }
    assert TrimLeft(t) == t;
  }

  /** Filling in option ids and trimming the key keeps a question gradable. */
  lemma StoredKey(questionType: QuestionType, options: seq<QuizOption>, generated: seq<string>, correctAnswer: string)
    requires |generated| == |options| && HasKey(questionType, options, correctAnswer)
    ensures HasKey(questionType, WithIds(options, generated), TrimSpace(correctAnswer))
  {
    TrimTwice(correctAnswer);
    var filled := WithIds(options, generated);
    forall o | o in filled ensures exists p :: p in options && p.text == o.text {
      var i :| 0 <= i < |filled| && filled[i] == o;
      assert options[i] in options;
    }
    if questionType == Mcq {
      var o :| o in options && o.isCorrect;
      var i :| 0 <= i < |options| && options[i] == o;
      assert filled[i] in filled && filled[i].isCorrect;
    }
  }

  lemma AddKeepsKeys(s: Store, op: Op)
    requires Keyed(s.questions) && op.Add? && WellFormedOp(op)
    ensures Keyed(AddQuestion(s, op.actor, op.quizId, op.questionType, op.prompt, op.points, op.options, op.generated,
                              op.correctAnswer, op.admin).0.questions)
  {
    if HasKey(op.questionType, op.options, op.correctAnswer) {
      StoredKey(op.questionType, op.options, op.generated, op.correctAnswer);
    }
  }

  lemma ChangeKeepsKeys(s: Store, op: Op)
    requires Keyed(s.questions) && op.Change? && WellFormedOp(op)
    ensures Keyed(UpdateQuestion(s, op.actor, op.questionId, op.prompt, op.points, op.options, op.generated,
                                 op.correctAnswer, op.admin).0.questions)
  {
    if op.questionId in s.questions && HasKey(s.questions[op.questionId].questionType, op.options, op.correctAnswer) {
      StoredKey(s.questions[op.questionId].questionType, op.options, op.generated, op.correctAnswer);
    }
  }

  lemma StepKeepsKeys(fold: char -> char, s: Store, op: Op)
    requires Keyed(s.questions) && WellFormedOp(op)
    ensures Keyed(Step(fold, s, op).0.questions)
  {
    hide Step, AddQuestion, UpdateQuestion, HasKey;
    if op.Start? || op.Save? || op.Submit? {
      AttemptCall(fold, s, op);
    } else if op.Add? {
      AddStep(fold, s, op);
      AddKeepsKeys(s, op);
    } else if op.Change? {
      ChangeStep(fold, s, op);
      ChangeKeepsKeys(s, op);
    } else if op.Delete? {
      DeleteStep(fold, s, op);
    } else if op.Reorder? {
      ReorderStep(fold, s, op);
    } else {
      QuizCall(fold, s, op);
    }
  }

  lemma {:induction false} RunKeepsKeys(fold: char -> char, s: Store, ops: seq<Op>)
    requires Keyed(s.questions) && WellFormedRun(ops)
    ensures Keyed(Run(fold, s, ops).questions)
  {
    hide Step, Keyed;
    if ops == [] {
      assert Run(fold, s, ops) == s;
    } else {
      RunKeepsKeys(fold, s, ops[..|ops| - 1]);
      StepKeepsKeys(fold, Run(fold, s, ops[..|ops| - 1]), ops[|ops| - 1]);
    }
  }

  lemma UnansweredInStore(fold: char -> char, s: Store, attemptId: nat, i: nat)
    requires Inv(s) && Keyed(s.questions)
    requires attemptId in s.attempts && i < |ListByQuiz(s, s.attempts[attemptId].quizId)|
    ensures var q := ListByQuiz(s, s.attempts[attemptId].quizId)[i];
      LastAnswer(ListByAttempt(s, attemptId), q.id) == None ==>
        GradesNow(fold, s, attemptId)[i].points == 0 && GradesNow(fold, s, attemptId)[i].isCorrect == Some(false)
  {
    var questions := ListByQuiz(s, s.attempts[attemptId].quizId);
    ListedQuestions(s, s.attempts[attemptId].quizId);
    assert questions[i] in questions;
    BlankIsWrong(fold, questions[i], attemptId, questions[i].id);
  }

  /** In any reachable store, a question that has no stored answer is graded wrong and
      earns nothing, whatever was answered elsewhere. */
  lemma UnansweredEarnsNothing(fold: char -> char, ops: seq<Op>, attemptId: nat, i: nat)
    requires WellFormedRun(ops)
    requires var s := Run(fold, EMPTY, ops);
      attemptId in s.attempts && i < |ListByQuiz(s, s.attempts[attemptId].quizId)|
    ensures var s := Run(fold, EMPTY, ops);
      var q := ListByQuiz(s, s.attempts[attemptId].quizId)[i];
      LastAnswer(ListByAttempt(s, attemptId), q.id) == None ==>
        GradesNow(fold, s, attemptId)[i].points == 0 && GradesNow(fold, s, attemptId)[i].isCorrect == Some(false)
  {
    var s := Run(fold, EMPTY, ops);
    EmptyInv();
    RunKeepsInv(fold, EMPTY, ops);
    RunKeepsKeys(fold, EMPTY, ops);
    hide Run, Step, Inv, Keyed, GradesNow, ListByQuiz;
    UnansweredInStore(fold, s, attemptId, i);
  }

  /** Validation of every stored question pays off: in any reachable store, submitting
      an attempt without answers scores nothing. */
  lemma BlankSubmission(fold: char -> char, ops: seq<Op>, actor: string, attemptId: nat, now: int)
    requires WellFormedRun(ops)
    requires var s := Run(fold, EMPTY, ops);
      OpenAttemptError(s, actor, attemptId) == None && ListByAttempt(s, attemptId) == []
    ensures var s := Run(fold, EMPTY, ops);
      SubmitAttempt(fold, s, actor, attemptId, now, false).0.attempts[attemptId].score == 0
  {
    var s := Run(fold, EMPTY, ops);
    EmptyInv();
    RunKeepsInv(fold, EMPTY, ops);
    RunKeepsKeys(fold, EMPTY, ops);
    var questions := ListByQuiz(s, s.attempts[attemptId].quizId);
    ListedQuestions(s, s.attempts[attemptId].quizId);
    BlankAttemptScoresZero(fold, attemptId, questions);
  }
}
