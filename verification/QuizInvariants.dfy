/** What every call of the assessment service keeps, and so what holds in every store a
    run can reach. */
module QuizInvariants {
  import opened Common
  import opened Grading
  import opened QuizStore
  import opened Positions

  // --- the invariant -------------------------------------------------------------------

  ghost predicate IdsOk(quizzes: map<nat, Quiz>, questions: map<nat, Question>, attempts: map<nat, Attempt>,
                        nextId: nat) {
    && (forall id :: id in quizzes ==> quizzes[id].id == id < nextId)
    && (forall id :: id in questions ==> questions[id].id == id < nextId)
    && (forall id :: id in attempts ==> attempts[id].id == id < nextId)
  }

  /** The order of a quiz lists questions of that quiz, at one position each. */
  ghost predicate ListsQuestionsOf(questions: map<nat, Question>, quizId: nat, slots: seq<Slot>) {
    && Ordered(slots)
    && forall i :: 0 <= i < |slots| ==> slots[i].id in questions && questions[slots[i].id].quizId == quizId
  }

  ghost predicate OrderOk(order: map<nat, seq<Slot>>, quizIds: set<nat>, questions: map<nat, Question>) {
    && order.Keys == quizIds
    && (forall quizId :: quizId in order ==> ListsQuestionsOf(questions, quizId, order[quizId]))
  }

  ghost predicate QuestionsOk(questions: map<nat, Question>, quizIds: set<nat>) {
    forall id :: id in questions ==> questions[id].points > 0 && questions[id].quizId in quizIds
  }

  /** A graded attempt carries a result that adds up. */
  ghost predicate ResultOk(a: Attempt) {
    match a.status
    case InProgress => a.submittedAt == None && a.gradedAt == None
    case Graded => 0 <= a.score <= a.maxPoints && a.percent == Percent(a.score, a.maxPoints)
                   && a.submittedAt.Some? && a.gradedAt == a.submittedAt
  }

  ghost predicate AttemptsOk(attempts: map<nat, Attempt>, quizIds: set<nat>) {
    forall id :: id in attempts ==> attempts[id].quizId in quizIds && ResultOk(attempts[id])
  }

  /** The attempts of one learner at one quiz are numbered 1 to n, and at most one of
      them is open. */
  ghost predicate NumberedFor(attempts: map<nat, Attempt>, quizId: nat, userId: string) {
    NumbersOn(attempts, AttemptIds(attempts, quizId, userId))
  }

  ghost predicate NumbersOn(attempts: map<nat, Attempt>, ids: set<nat>)
    requires ids <= attempts.Keys
  {
    && (forall id :: id in ids ==> 1 <= attempts[id].number <= |ids|)
    && (forall id, id' :: id in ids && id' in ids && id != id' ==> attempts[id].number != attempts[id'].number)
    && (forall id, id' ::
          (id in ids && id' in ids && attempts[id].status == InProgress && attempts[id'].status == InProgress) ==>
            id == id')
  }

  ghost predicate Numbered(attempts: map<nat, Attempt>) {
    forall quizId, userId :: NumberedFor(attempts, quizId, userId)
  }

  /** Stored answers are to questions of the given quiz, one each. */
  ghost predicate AnswersFor(answers: seq<Answer>, quizId: nat, questions: map<nat, Question>) {
    && OneAnswerEach(answers)
    && forall i :: 0 <= i < |answers| ==>
       answers[i].questionId in questions && questions[answers[i].questionId].quizId == quizId
  }

  ghost predicate AnswersOk(answers: map<nat, seq<Answer>>, attempts: map<nat, Attempt>,
                            questions: map<nat, Question>) {
    && answers.Keys == attempts.Keys
    && forall id :: id in answers ==> AnswersFor(answers[id], attempts[id].quizId, questions)
  }

  ghost predicate Inv(s: Store) {
    && IdsOk(s.quizzes, s.questions, s.attempts, s.nextId)
    && OrderOk(s.order, s.quizzes.Keys, s.questions)
    && QuestionsOk(s.questions, s.quizzes.Keys)
    && AttemptsOk(s.attempts, s.quizzes.Keys)
    && Numbered(s.attempts)
    && AnswersOk(s.answers, s.attempts, s.questions)
  }

  // --- lists of questions ----------------------------------------------------------------

  lemma {:induction false} RowsAre(questions: map<nat, Question>, slots: seq<Slot>)
    requires forall i :: 0 <= i < |slots| ==> slots[i].id in questions
    ensures |Rows(questions, slots)| == |slots|
    ensures forall i :: 0 <= i < |slots| ==> Rows(questions, slots)[i] == questions[slots[i].id]
  {
    if slots != [] { RowsAre(questions, slots[..|slots| - 1]); }
  }

  /** The questions of a quiz are distinct and worth something. */
  lemma ListedQuestions(s: Store, quizId: nat)
    requires Inv(s)
    ensures DistinctQuestions(ListByQuiz(s, quizId))
    ensures forall q :: q in ListByQuiz(s, quizId) ==>
      q.id in s.questions && q == s.questions[q.id] && q.quizId == quizId && q.points > 0
  {
    var slots := SlotsOf(s, quizId);
    assert ListsQuestionsOf(s.questions, quizId, slots);
    RowsAre(s.questions, slots);
    var rows := ListByQuiz(s, quizId);
    forall q | q in rows
      ensures q.id in s.questions && q == s.questions[q.id] && q.quizId == quizId && q.points > 0
    {
      var i :| 0 <= i < |rows| && rows[i] == q;
    }
  }

  lemma {:induction false} AnswersWithoutAre(answers: seq<Answer>, questionId: nat)
    requires OneAnswerEach(answers)
    ensures OneAnswerEach(AnswersWithout(answers, questionId))
    ensures forall a :: a in AnswersWithout(answers, questionId) <==> a in answers && a.questionId != questionId
  {
    if answers != [] {
      var n := |answers| - 1;
      AnswersWithoutAre(answers[..n], questionId);
      assert answers == answers[..n] + [answers[n]];
      var rest := AnswersWithout(answers[..n], questionId);
      forall i | 0 <= i < |rest| ensures rest[i].questionId != answers[n].questionId {
        assert rest[i] in answers[..n];
      }
    }
  }

  // --- attempts ------------------------------------------------------------------------------

  lemma OneMoreNumber(attempts: map<nat, Attempt>, ids: set<nat>, id: nat, a: Attempt)
    requires ids <= attempts.Keys && NumbersOn(attempts, ids) && id !in attempts && a.number == |ids| + 1
    requires forall i :: i in ids ==> attempts[i].status == Graded
    ensures NumbersOn(attempts[id := a], ids + {id})
  {
    assert |ids + {id}| == |ids| + 1;
  }

  /** A further attempt of a learner without an open one. */
  lemma StartNumbersFor(attempts: map<nat, Attempt>, id: nat, a: Attempt)
    requires NumberedFor(attempts, a.quizId, a.userId) && id !in attempts
    requires OpenIds(attempts, a.quizId, a.userId) == {}
    requires a.number == |AttemptIds(attempts, a.quizId, a.userId)| + 1
    ensures NumberedFor(attempts[id := a], a.quizId, a.userId)
  {
    hide NumbersOn;
    var ids := AttemptIds(attempts, a.quizId, a.userId);
    assert AttemptIds(attempts[id := a], a.quizId, a.userId) == ids + {id};
    forall i | i in ids ensures attempts[i].status == Graded {
      assert i !in OpenIds(attempts, a.quizId, a.userId);
    }
    OneMoreNumber(attempts, ids, id, a);
  }

  /** Attempts that keep their place, number and openness keep their numbering. */
  lemma SameNumbers(before: map<nat, Attempt>, after: map<nat, Attempt>, quizId: nat, userId: string)
    requires NumberedFor(before, quizId, userId)
    requires AttemptIds(before, quizId, userId) == AttemptIds(after, quizId, userId)
    requires forall id :: id in AttemptIds(before, quizId, userId) ==>
      after[id].number == before[id].number && (after[id].status == InProgress ==> before[id].status == InProgress)
    ensures NumberedFor(after, quizId, userId)
  {
  }

  lemma StartNumbers(attempts: map<nat, Attempt>, id: nat, a: Attempt)
    requires Numbered(attempts) && id !in attempts
    requires OpenIds(attempts, a.quizId, a.userId) == {}
    requires a.number == |AttemptIds(attempts, a.quizId, a.userId)| + 1
    ensures Numbered(attempts[id := a])
  {
    var after := attempts[id := a];
    forall quizId, userId ensures NumberedFor(after, quizId, userId) {
      assert NumberedFor(attempts, quizId, userId);
      if quizId == a.quizId && userId == a.userId {
        StartNumbersFor(attempts, id, a);
      } else {
        assert AttemptIds(after, quizId, userId) == AttemptIds(attempts, quizId, userId);
        SameNumbers(attempts, after, quizId, userId);
      }
    }
  }

  lemma FinishNumbers(attempts: map<nat, Attempt>, id: nat, a: Attempt)
    requires Numbered(attempts) && id in attempts
    requires a.quizId == attempts[id].quizId && a.userId == attempts[id].userId && a.number == attempts[id].number
    requires a.status == Graded
    ensures Numbered(attempts[id := a])
  {
    var after := attempts[id := a];
    forall quizId, userId ensures NumberedFor(after, quizId, userId) {
      assert NumberedFor(attempts, quizId, userId);
      assert AttemptIds(after, quizId, userId) == AttemptIds(attempts, quizId, userId);
      SameNumbers(attempts, after, quizId, userId);
    }
  }

  lemma NewAttemptKeepsInv(s: Store, a: Attempt)
    requires Inv(s) && a.id == s.nextId && a.quizId in s.quizzes
    requires OpenIds(s.attempts, a.quizId, a.userId) == {}
    requires a.number == |AttemptIds(s.attempts, a.quizId, a.userId)| + 1
    requires a.status == InProgress && ResultOk(a)
    ensures Inv(s.(attempts := s.attempts[s.nextId := a], answers := s.answers[s.nextId := []], nextId := s.nextId + 1))
  {
    hide OrderOk, QuestionsOk, Numbered;
    StartNumbers(s.attempts, s.nextId, a);
  }

  lemma StartKeepsInv(s: Store, actor: string, quizId: nat, now: int)
    requires Inv(s)
    ensures Inv(StartAttempt(s, actor, quizId, now).0)
  {
    var s' := StartAttempt(s, actor, quizId, now).0;
    if s' != s { NewAttemptKeepsInv(s, s'.attempts[s.nextId]); }
  }

  lemma StoreAnswers(s: Store, attemptId: nat, answers: seq<Answer>)
    requires AnswersOk(s.answers, s.attempts, s.questions) && attemptId in s.attempts
    requires AnswersFor(answers, s.attempts[attemptId].quizId, s.questions)
    ensures AnswersOk(s.answers[attemptId := answers], s.attempts, s.questions)
  {
  }

  /** Answers to questions of the quiz, one each, may be stored. */
  lemma KnownAnswers(s: Store, attemptId: nat, quizId: nat, answers: seq<Answer>)
    requires Inv(s) && OneAnswerEach(answers)
    requires forall i :: 0 <= i < |answers| ==> answers[i].questionId in QuestionIds(ListByQuiz(s, quizId))
    ensures AnswersFor(CleanedAll(attemptId, answers), quizId, s.questions)
  {
    ListedQuestions(s, quizId);
    hide Inv;
    var rows, clean := ListByQuiz(s, quizId), CleanedAll(attemptId, answers);
    forall i | 0 <= i < |clean|
      ensures clean[i].questionId in s.questions && s.questions[clean[i].questionId].quizId == quizId
    {
      assert answers[i].questionId in QuestionIds(rows);
      var k :| 0 <= k < |rows| && rows[k].id == answers[i].questionId;
      assert rows[k] in rows;
    }
  }

  lemma SaveKeepsInv(s: Store, actor: string, attemptId: nat, answers: seq<Answer>, now: int)
    requires Inv(s)
    ensures Inv(SaveAnswers(s, actor, attemptId, answers, now).0)
  {
    hide IdsOk, OrderOk, QuestionsOk, AttemptsOk, Numbered, AnswersOk, AnswersFor;
    var s' := SaveAnswers(s, actor, attemptId, answers, now).0;
    if s' != s {
      KnownAnswers(s, attemptId, s.attempts[attemptId].quizId, answers);
      StoreAnswers(s, attemptId, CleanedAll(attemptId, answers));
    }
  }

  lemma GradedAnswersStored(fold: char -> char, s: Store, attemptId: nat)
    requires Inv(s) && attemptId in s.attempts
    ensures var quizId := s.attempts[attemptId].quizId;
      AnswersFor(GradedAnswers(fold, attemptId, ListByQuiz(s, quizId), ListByAttempt(s, attemptId)), quizId,
                 s.questions)
  {
    var quizId := s.attempts[attemptId].quizId;
    var rows := ListByQuiz(s, quizId);
    ListedQuestions(s, quizId);
    var graded := GradedAnswers(fold, attemptId, rows, ListByAttempt(s, attemptId));
    forall i | 0 <= i < |graded| ensures graded[i].questionId == rows[i].id && rows[i] in rows {
      GradedIds(fold, attemptId, rows, ListByAttempt(s, attemptId), i);
    }
  }

  lemma GradingKeepsInv(fold: char -> char, s: Store, attemptId: nat)
    requires Inv(s) && attemptId in s.attempts
    ensures Inv(s.(answers := s.answers[attemptId :=
      GradedAnswers(fold, attemptId, ListByQuiz(s, s.attempts[attemptId].quizId), ListByAttempt(s, attemptId))]))
  {
    GradedAnswersStored(fold, s, attemptId);
    StoreAnswers(s, attemptId,
                 GradedAnswers(fold, attemptId, ListByQuiz(s, s.attempts[attemptId].quizId),
                               ListByAttempt(s, attemptId)));
  }

  lemma FinishAnswers(s: Store, attemptId: nat, a: Attempt)
    requires AnswersOk(s.answers, s.attempts, s.questions) && attemptId in s.attempts
      && a.quizId == s.attempts[attemptId].quizId
    ensures AnswersOk(s.answers, s.attempts[attemptId := a], s.questions)
  {
  }

  /** Closing an attempt with a result that adds up. */
  lemma FinishKeepsInv(s: Store, attemptId: nat, a: Attempt)
    requires Inv(s) && attemptId in s.attempts
    requires var before := s.attempts[attemptId];
      a.id == before.id && a.quizId == before.quizId && a.userId == before.userId && a.number == before.number
    requires a.status == Graded && ResultOk(a)
    ensures Inv(s.(attempts := s.attempts[attemptId := a]))
  {
    hide OrderOk, QuestionsOk, Numbered, AnswersOk;
    FinishNumbers(s.attempts, attemptId, a);
    FinishAnswers(s, attemptId, a);
  }

  lemma FinishedResult(fold: char -> char, s: Store, attemptId: nat, now: int)
    requires Inv(s) && attemptId in s.attempts
    ensures var a := s.attempts[attemptId];
      var rows := ListByQuiz(s, a.quizId);
      ResultOk(Finished(a, s.quizzes[a.quizId], rows,
                        GradedAnswers(fold, attemptId, rows, ListByAttempt(s, attemptId)), now))
  {
    var quizId := s.attempts[attemptId].quizId;
    ListedQuestions(s, quizId);
    ScoreBounds(fold, attemptId, ListByQuiz(s, quizId), ListByAttempt(s, attemptId));
  }

  lemma SubmitKeepsInv(fold: char -> char, s: Store, actor: string, attemptId: nat, now: int, updateFails: bool)
    requires Inv(s)
    ensures Inv(SubmitAttempt(fold, s, actor, attemptId, now, updateFails).0)
  {
    hide Inv, GradedAnswers, ListByQuiz;
    if OpenAttemptError(s, actor, attemptId).None? {
      GradingKeepsInv(fold, s, attemptId);
      if !updateFails {
        FinishedResult(fold, s, attemptId, now);
        var s' := SubmitAttempt(fold, s, actor, attemptId, now, updateFails).0;
        FinishKeepsInv(s.(answers := s'.answers), attemptId, s'.attempts[attemptId]);
      }
    }
  }

  // --- questions -----------------------------------------------------------------------------

  lemma NewQuestionOrder(s: Store, quizId: nat, q: Question)
    requires IdsOk(s.quizzes, s.questions, s.attempts, s.nextId) && OrderOk(s.order, s.quizzes.Keys, s.questions)
    requires quizId in s.quizzes && q.quizId == quizId
    ensures OrderOk(s.order[quizId := SlotsOf(s, quizId) + [Slot(s.nextId, NextPosition(SlotsOf(s, quizId)))]],
                    s.quizzes.Keys, s.questions[s.nextId := q])
  {
    var slots := SlotsOf(s, quizId);
    var order' := s.order[quizId := slots + [Slot(s.nextId, NextPosition(slots))]];
    assert ListsQuestionsOf(s.questions, quizId, slots);
    AppendedIs(slots, s.nextId);
    forall other | other in order' ensures ListsQuestionsOf(s.questions[s.nextId := q], other, order'[other]) {
      assert ListsQuestionsOf(s.questions, other, s.order[other]);
    }
  }

  /** Questions may be added, and may change apart from the quiz they belong to. */
  lemma AnswersFrame(s: Store, questions: map<nat, Question>)
    requires AnswersOk(s.answers, s.attempts, s.questions)
    requires forall id :: id in s.questions ==> id in questions && questions[id].quizId == s.questions[id].quizId
    ensures AnswersOk(s.answers, s.attempts, questions)
  {
    forall id | id in s.answers ensures AnswersFor(s.answers[id], s.attempts[id].quizId, questions) {
      assert AnswersFor(s.answers[id], s.attempts[id].quizId, s.questions);
    }
  }

  lemma NewQuestionRow(s: Store, q: Question)
    requires IdsOk(s.quizzes, s.questions, s.attempts, s.nextId) && QuestionsOk(s.questions, s.quizzes.Keys)
    requires q.id == s.nextId && q.quizId in s.quizzes && q.points > 0
    ensures IdsOk(s.quizzes, s.questions[s.nextId := q], s.attempts, s.nextId + 1)
    ensures QuestionsOk(s.questions[s.nextId := q], s.quizzes.Keys)
  {
  }

  lemma NewQuestionKeepsInv(s: Store, q: Question)
    requires Inv(s) && q.id == s.nextId && q.quizId in s.quizzes && q.points > 0
    ensures Inv(WithQuestion(s, q))
  {
    hide OrderOk, QuestionsOk, AttemptsOk, Numbered, AnswersOk;
    NewQuestionRow(s, q);
    NewQuestionOrder(s, q.quizId, q);
    AnswersFrame(s, s.questions[s.nextId := q]);
  }

  lemma AddKeepsInv(s: Store, actor: string, quizId: nat, questionType: QuestionType, prompt: string, points: int,
                    options: seq<QuizOption>, generated: seq<string>, correctAnswer: string, admin: bool)
    requires Inv(s) && |generated| == |options|
    ensures Inv(AddQuestion(s, actor, quizId, questionType, prompt, points, options, generated, correctAnswer, admin).0)
  {
    if quizId in s.quizzes {
      NewQuestionKeepsInv(s, NewQuestion(s, quizId, questionType, prompt, points, options, generated, correctAnswer));
    }
  }

  lemma ChangeOrder(s: Store, q: Question)
    requires OrderOk(s.order, s.quizzes.Keys, s.questions) && q.id in s.questions
      && q.quizId == s.questions[q.id].quizId
    ensures OrderOk(s.order, s.quizzes.Keys, s.questions[q.id := q])
  {
    forall quizId | quizId in s.order ensures ListsQuestionsOf(s.questions[q.id := q], quizId, s.order[quizId]) {
      assert ListsQuestionsOf(s.questions, quizId, s.order[quizId]);
    }
  }

  lemma ChangedQuestionKeepsInv(s: Store, q: Question)
    requires Inv(s) && q.id in s.questions && q.quizId == s.questions[q.id].quizId && q.points > 0
    ensures Inv(s.(questions := s.questions[q.id := q]))
  {
    ChangeOrder(s, q);
    AnswersFrame(s, s.questions[q.id := q]);
  }

  lemma ChangeKeepsInv(s: Store, actor: string, questionId: nat, prompt: string, points: int,
                       options: seq<QuizOption>, generated: seq<string>, correctAnswer: string, admin: bool)
    requires Inv(s) && |generated| == |options|
    ensures Inv(UpdateQuestion(s, actor, questionId, prompt, points, options, generated, correctAnswer, admin).0)
  {
    if questionId in s.questions && points > 0 {
      ChangedQuestionKeepsInv(s, Changed(s.questions[questionId], prompt, points, options, generated, correctAnswer));
    }
  }

  lemma DeleteOrder(s: Store, questionId: nat, home: nat)
    requires OrderOk(s.order, s.quizzes.Keys, s.questions) && home in s.quizzes
    requires questionId in s.questions && s.questions[questionId].quizId == home
    ensures OrderOk(s.order[home := Unlisted(SlotsOf(s, home), [questionId])], s.quizzes.Keys,
                    s.questions - {questionId})
  {
    var order' := s.order[home := Unlisted(SlotsOf(s, home), [questionId])];
    UnlistedIs(s.order[home], [questionId]);
    assert forall i :: 0 <= i < |order'[home]| ==> order'[home][i] in order'[home];
    forall quizId | quizId in order' ensures ListsQuestionsOf(s.questions - {questionId}, quizId, order'[quizId]) {
      assert ListsQuestionsOf(s.questions, quizId, s.order[quizId]);
    }
  }

  lemma DeleteAnswers(s: Store, questionId: nat)
    requires AnswersOk(s.answers, s.attempts, s.questions)
    ensures AnswersOk(map id | id in s.answers ::
                      AnswersWithout(s.answers[id], questionId), s.attempts, s.questions - {questionId})
  {
    forall id | id in s.answers
      ensures AnswersFor(AnswersWithout(s.answers[id], questionId), s.attempts[id].quizId, s.questions - {questionId})
    {
      var before := s.answers[id];
      assert AnswersFor(before, s.attempts[id].quizId, s.questions);
      AnswersWithoutAre(before, questionId);
      var left := AnswersWithout(before, questionId);
      forall i | 0 <= i < |left|
        ensures left[i].questionId in s.questions - {questionId}
          && s.questions[left[i].questionId].quizId == s.attempts[id].quizId
      {
        assert left[i] in left;
        var k :| 0 <= k < |before| && before[k] == left[i];
      }
    }
  }

  lemma DeleteKeepsInv(s: Store, actor: string, questionId: nat, admin: bool)
    requires Inv(s)
    ensures Inv(DeleteQuestion(s, actor, questionId, admin).0)
  {
    if QuestionError(s, actor, questionId, admin).None? {
      DeleteOrder(s, questionId, s.questions[questionId].quizId);
      DeleteAnswers(s, questionId);
    }
  }

  lemma ReorderOrder(s: Store, quizId: nat, ids: seq<nat>)
    requires OrderOk(s.order, s.quizzes.Keys, s.questions) && quizId in s.quizzes
    requires Reordered(SlotsOf(s, quizId), ids).Ok?
    ensures OrderOk(s.order[quizId := Reordered(SlotsOf(s, quizId), ids).value], s.quizzes.Keys, s.questions)
  {
    assert ListsQuestionsOf(s.questions, quizId, s.order[quizId]);
    ReorderedIs(s.order[quizId], ids);
  }

  lemma ReorderKeepsInv(s: Store, actor: string, quizId: nat, ids: seq<nat>, admin: bool)
    requires Inv(s)
    ensures Inv(ReorderQuestions(s, actor, quizId, ids, admin).0)
  {
    if quizId in s.quizzes && Reordered(SlotsOf(s, quizId), ids).Ok? {
      ReorderOrder(s, quizId, ids);
    }
  }

  // --- quizzes -------------------------------------------------------------------------------

  lemma QuizRowKeepsInv(s: Store, quiz: Quiz)
    requires Inv(s) && quiz.id in s.quizzes
    ensures Inv(s.(quizzes := s.quizzes[quiz.id := quiz]))
  {
    assert s.quizzes[quiz.id := quiz].Keys == s.quizzes.Keys;
  }

  lemma UpdateKeepsInv(s: Store, actor: string, quizId: nat, title: string, description: string,
                       timeLimit: Option<int>, maxAttempts: Option<int>, passPercent: Option<int>,
                         shuffle: Option<bool>, admin: bool)
    requires Inv(s)
    ensures Inv(UpdateQuiz(s, actor, quizId, title, description, timeLimit, maxAttempts, passPercent, shuffle, admin).0)
  {
    var s' := UpdateQuiz(s, actor, quizId, title, description, timeLimit, maxAttempts, passPercent, shuffle, admin).0;
    if s' != s { QuizRowKeepsInv(s, s'.quizzes[quizId]); }
  }

  lemma PublishKeepsInv(s: Store, actor: string, quizId: nat, admin: bool)
    requires Inv(s)
    ensures Inv(PublishQuiz(s, actor, quizId, admin).0)
  {
    if quizId in s.quizzes { QuizRowKeepsInv(s, s.quizzes[quizId].(status := Published)); }
  }

  lemma NewQuizKeepsInv(s: Store, quiz: Quiz)
    requires Inv(s) && quiz.id == s.nextId
    ensures Inv(s.(quizzes := s.quizzes[quiz.id := quiz], order := s.order[quiz.id := []], nextId := s.nextId + 1))
  {
    hide Numbered, AnswersOk;
    var quizzes' := s.quizzes[quiz.id := quiz];
    assert s.order[quiz.id := []].Keys == quizzes'.Keys;
    assert OrderOk(s.order[quiz.id := []], quizzes'.Keys, s.questions);
  }

  lemma CreateKeepsInv(s: Store, actor: string, courseId: string, title: string, description: string,
                       timeLimit: Option<int>, maxAttempts: Option<int>, passPercent: int, shuffle: bool, admin: bool)
    requires Inv(s)
    ensures Inv(CreateQuiz(s, actor, courseId, title, description, timeLimit, maxAttempts, passPercent, shuffle,
                           admin).0)
  {
    var s' := CreateQuiz(s, actor, courseId, title, description, timeLimit, maxAttempts, passPercent, shuffle, admin).0;
    if s' != s { NewQuizKeepsInv(s, s'.quizzes[s.nextId]); }
  }

  // --- runs ------------------------------------------------------------------------------------

  lemma AttemptStepKeepsInv(fold: char -> char, s: Store, op: Op)
    requires Inv(s) && (op.Start? || op.Save? || op.Submit?)
    ensures Inv(Step(fold, s, op).0)
  {
    hide Step, Inv, StartAttempt, SaveAnswers, SubmitAttempt;
    match op
    case Start(actor, quizId, now) =>
      StartStep(fold, s, op);
      StartKeepsInv(s, actor, quizId, now);
    case Save(actor, attemptId, saved, now) =>
      SaveStep(fold, s, op);
      SaveKeepsInv(s, actor, attemptId, saved, now);
    case Submit(actor, attemptId, now, updateFails) =>
      SubmitStep(fold, s, op);
      SubmitKeepsInv(fold, s, actor, attemptId, now, updateFails);
  }

  lemma QuestionStepKeepsInv(fold: char -> char, s: Store, op: Op)
    requires Inv(s) && WellFormedOp(op) && (op.Add? || op.Change? || op.Delete? || op.Reorder?)
    ensures Inv(Step(fold, s, op).0)
  {
    hide Step, Inv, AddQuestion, UpdateQuestion, DeleteQuestion, ReorderQuestions;
    match op
    case Add(actor, quizId, questionType, prompt, points, options, generated, correctAnswer, admin) =>
      AddStep(fold, s, op);
      AddKeepsInv(s, actor, quizId, questionType, prompt, points, options, generated, correctAnswer, admin);
    case Change(actor, questionId, prompt, points, options, generated, correctAnswer, admin) =>
      ChangeStep(fold, s, op);
      ChangeKeepsInv(s, actor, questionId, prompt, points, options, generated, correctAnswer, admin);
    case Delete(actor, questionId, admin) =>
      DeleteStep(fold, s, op);
      DeleteKeepsInv(s, actor, questionId, admin);
    case Reorder(actor, quizId, ids, admin) =>
      ReorderStep(fold, s, op);
      ReorderKeepsInv(s, actor, quizId, ids, admin);
  }

  lemma QuizStepKeepsInv(fold: char -> char, s: Store, op: Op)
    requires Inv(s) && (op.Create? || op.Update? || op.Publish?)
    ensures Inv(Step(fold, s, op).0)
  {
    hide Step, Inv, CreateQuiz, UpdateQuiz, PublishQuiz;
    match op
    case Create(actor, courseId, title, description, timeLimit, maxAttempts, pass, shuffle, admin) =>
      CreateStep(fold, s, op);
      CreateKeepsInv(s, actor, courseId, title, description, timeLimit, maxAttempts, pass, shuffle, admin);
    case Update(actor, quizId, title, description, timeLimit, maxAttempts, pass, shuffle, admin) =>
      UpdateStep(fold, s, op);
      UpdateKeepsInv(s, actor, quizId, title, description, timeLimit, maxAttempts, pass, shuffle, admin);
    case Publish(actor, quizId, admin) =>
      PublishStep(fold, s, op);
      PublishKeepsInv(s, actor, quizId, admin);
  }

  lemma ElsewhereKeepsInv(fold: char -> char, s: Store, op: Op)
    requires Inv(s) && (op.SetEnrollment? || op.SetCourse?)
    ensures Inv(Step(fold, s, op).0)
  {
    hide Step;
    if op.SetEnrollment? {
      EnrollmentStep(fold, s, op);
    } else {
      CourseStep(fold, s, op);
    }
  }

  /** Every call keeps the invariant. */
  lemma StepKeepsInv(fold: char -> char, s: Store, op: Op)
    requires Inv(s) && WellFormedOp(op)
    ensures Inv(Step(fold, s, op).0)
  {
    hide *;
    if op.Start? || op.Save? || op.Submit? {
      AttemptStepKeepsInv(fold, s, op);
    } else if op.Add? || op.Change? || op.Delete? || op.Reorder? {
      QuestionStepKeepsInv(fold, s, op);
    } else if op.Create? || op.Update? || op.Publish? {
      QuizStepKeepsInv(fold, s, op);
    } else {
      ElsewhereKeepsInv(fold, s, op);
    }
  }

  /** Whatever the service is asked to do, every reachable store satisfies the invariant. */
  lemma {:induction false} RunKeepsInv(fold: char -> char, s: Store, ops: seq<Op>)
    requires Inv(s) && WellFormedRun(ops)
    ensures Inv(Run(fold, s, ops))
  {
    hide Step, Inv;
    if ops != [] {
      RunKeepsInv(fold, s, ops[..|ops| - 1]);
      StepKeepsInv(fold, Run(fold, s, ops[..|ops| - 1]), ops[|ops| - 1]);
    }
  }

  lemma EmptyInv()
    ensures Inv(EMPTY)
  {
  }
}
