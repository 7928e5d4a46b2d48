/** Safety of quiz attempts over whole runs of the assessment service. */
module QuizRuns {
  import opened Common
  import opened Enrollments
  import opened Grading
  import opened QuizStore
  import opened QuizInvariants
  import opened Positions

  // --- numbering and the attempt limit ----------------------------------------------------

  lemma {:induction false} ImageSize(attempts: map<nat, Attempt>, ids: set<nat>)
    requires ids <= attempts.Keys
    requires forall id, id' :: id in ids && id' in ids && id != id' ==> attempts[id].number != attempts[id'].number
    ensures |set id | id in ids :: attempts[id].number| == |ids|
  {
    if ids != {} {
      var id :| id in ids;
      var rest := ids - {id};
      ImageSize(attempts, rest);
      assert (set i | i in ids :: attempts[i].number)
        == (set i | i in rest :: attempts[i].number) + {attempts[id].number};
    }
  }

  ghost function OneTo(n: nat): set<int> {
    if n == 0 then {} else OneTo(n - 1) + {n}
  }

  lemma {:induction false} OneToIs(n: nat)
    ensures |OneTo(n)| == n && forall k :: k in OneTo(n) <==> 1 <= k <= n
  {
    if n > 0 { OneToIs(n - 1); }
  }

  /** These are the learner's attempts at the quiz. */
  ghost predicate MadeAt(ids: set<nat>, s: Store, quizId: nat, userId: string) {
    forall id :: id in ids <==>
      id in s.attempts && s.attempts[id].quizId == quizId && s.attempts[id].userId == userId
  }

  /** In every store the invariant holds of, the attempts of one learner at one quiz
      carry exactly the numbers 1 to n: no gap and no repeat. */
  lemma NumbersAreOneToN(s: Store, quizId: nat, userId: string, ids: set<nat>)
    requires Inv(s) && MadeAt(ids, s, quizId, userId)
    ensures (set id | id in ids :: s.attempts[id].number) == OneTo(|ids|)
  {
    assert NumberedFor(s.attempts, quizId, userId);
    assert AttemptIds(s.attempts, quizId, userId) == ids;
    ImageSize(s.attempts, ids);
    OneToIs(|ids|);
    SubsetOfSameSize(set id | id in ids :: s.attempts[id].number, OneTo(|ids|));
  }

  /** Starting while an attempt is open returns that attempt and changes nothing. */
  lemma StartResumes(s: Store, actor: string, quizId: nat, now: int, id: nat)
    requires Inv(s) && id in OpenIds(s.attempts, quizId, actor)
    requires quizId in s.quizzes && s.quizzes[quizId].status == Published
      && Enrolled(s, actor, s.quizzes[quizId].courseId)
    ensures StartAttempt(s, actor, quizId, now) == (s, Ok(s.attempts[id]))
  {
    assert NumberedFor(s.attempts, quizId, actor);
    assert OpenIds(s.attempts, quizId, actor) <= AttemptIds(s.attempts, quizId, actor);
  }

  // --- which tables a call writes ------------------------------------------------------------

  lemma AttemptCall(fold: char -> char, s: Store, op: Op)
    requires op.Start? || op.Save? || op.Submit?
    ensures var s' := Step(fold, s, op).0;
      && s'.questions == s.questions && s'.order == s.order && s'.quizzes == s.quizzes && s.nextId <= s'.nextId
      && (op.Save? ==> s'.attempts == s.attempts)
  {
    hide Step, StartAttempt, SaveAnswers, SubmitAttempt;
    if op.Start? {
      StartStep(fold, s, op);
    } else if op.Save? {
      SaveStep(fold, s, op);
    } else {
      SubmitStep(fold, s, op);
    }
  }

  /** Creating, editing and publishing quizzes, and what other services do, leave questions,
      attempts and answers alone. */
  lemma QuizCall(fold: char -> char, s: Store, op: Op)
    requires op.Create? || op.Update? || op.Publish? || op.SetEnrollment? || op.SetCourse?
    ensures var s' := Step(fold, s, op).0;
      && s'.questions == s.questions && s'.attempts == s.attempts && s'.answers == s.answers && s.nextId <= s'.nextId
      && (!op.Create? ==> s'.order == s.order && s'.nextId == s.nextId)
  {
    hide Step, CreateQuiz, UpdateQuiz, PublishQuiz;
    if op.Create? {
      CreateStep(fold, s, op);
    } else if op.Update? {
      UpdateStep(fold, s, op);
    } else if op.Publish? {
      PublishStep(fold, s, op);
    } else if op.SetEnrollment? {
      EnrollmentStep(fold, s, op);
    } else {
      CourseStep(fold, s, op);
    }
  }

  lemma QuestionCall(fold: char -> char, s: Store, op: Op)
    requires WellFormedOp(op) && (op.Add? || op.Change? || op.Reorder?)
    ensures var s' := Step(fold, s, op).0;
      && s'.attempts == s.attempts && s'.answers == s.answers && s'.quizzes == s.quizzes && s.nextId <= s'.nextId
      && s.questions.Keys <= s'.questions.Keys <= s.questions.Keys + {s.nextId}
  {
    hide Step, AddQuestion, UpdateQuestion, ReorderQuestions;
    if op.Add? {
      AddStep(fold, s, op);
    } else if op.Change? {
      ChangeStep(fold, s, op);
    } else {
      ReorderStep(fold, s, op);
    }
  }

  lemma OtherCallsKeepAttempts(fold: char -> char, s: Store, op: Op)
    requires WellFormedOp(op) && !op.Start? && !op.Submit?
    ensures Step(fold, s, op).0.attempts == s.attempts
  {
    hide Step, DeleteQuestion;
    if op.Save? {
      AttemptCall(fold, s, op);
    } else if op.Add? || op.Change? || op.Reorder? {
      QuestionCall(fold, s, op);
    } else if op.Delete? {
      DeleteStep(fold, s, op);
    } else {
      QuizCall(fold, s, op);
    }
  }

  /** Which attempt rows a call can touch: one new row, or one open row. */
  ghost predicate TouchesOne(s: Store, op: Op, after: map<nat, Attempt>) {
    || after == s.attempts
    || (op.Start? && s.nextId !in s.attempts && s.nextId in after && after == s.attempts[s.nextId := after[s.nextId]])
    || (op.Submit? && op.attemptId in s.attempts && s.attempts[op.attemptId].status == InProgress
        && op.attemptId in after
        && after == s.attempts[op.attemptId := after[op.attemptId]]
        && after[op.attemptId] == s.attempts[op.attemptId].(
             status := Graded, score := after[op.attemptId].score, maxPoints := after[op.attemptId].maxPoints,
             percent := after[op.attemptId].percent, passed := after[op.attemptId].passed,
             submittedAt := Some(op.now), gradedAt := Some(op.now)))
  }

  lemma StartTouches(fold: char -> char, s: Store, op: Op)
    requires Inv(s) && op.Start?
    ensures TouchesOne(s, op, Step(fold, s, op).0.attempts)
  {
    hide Step;
    StartStep(fold, s, op);
  }

  lemma SubmitTouches(fold: char -> char, s: Store, op: Op)
    requires op.Submit?
    ensures TouchesOne(s, op, Step(fold, s, op).0.attempts)
  {
    hide Step;
    SubmitStep(fold, s, op);
  }

  lemma StepAttempts(fold: char -> char, s: Store, op: Op)
    requires Inv(s) && WellFormedOp(op)
    ensures TouchesOne(s, op, Step(fold, s, op).0.attempts)
  {
    hide Step, Inv;
    if op.Start? {
      StartTouches(fold, s, op);
    } else if op.Submit? {
      SubmitTouches(fold, s, op);
    } else {
      OtherCallsKeepAttempts(fold, s, op);
    }
  }

  /** The attempt could be started in s: the quiz was published and the learner actively
      enrolled, no attempt of the learner at the quiz was open, its number is the next one,
      and not above the limit in force. */
  ghost predicate Admissible(s: Store, a: Attempt) {
    && (forall id :: id in s.attempts && s.attempts[id].quizId == a.quizId && s.attempts[id].userId == a.userId ==>
          s.attempts[id].status == Graded)
    && a.number == |AttemptIds(s.attempts, a.quizId, a.userId)| + 1
    && a.quizId in s.quizzes && s.quizzes[a.quizId].status == Published
    && (s.quizzes[a.quizId].courseId, a.userId) in s.enrollments
    && s.enrollments[(s.quizzes[a.quizId].courseId, a.userId)] == Active
    && (s.quizzes[a.quizId].maxAttempts.Some? ==> a.number <= s.quizzes[a.quizId].maxAttempts.value)
  }

  lemma StartAdmits(s: Store, actor: string, quizId: nat, now: int, id: nat)
    requires id !in s.attempts && id in StartAttempt(s, actor, quizId, now).0.attempts
    ensures var a := StartAttempt(s, actor, quizId, now).0.attempts[id];
      a.quizId == quizId && a.userId == actor && a.status == InProgress && a.startedAt == now && Admissible(s, a)
  {
    forall other | other in s.attempts && s.attempts[other].quizId == quizId && s.attempts[other].userId == actor
      ensures s.attempts[other].status == Graded
    {
      assert other !in OpenIds(s.attempts, quizId, actor);
    }
  }

  /** A new attempt takes the next number, and no number above the limit in force. */
  lemma NewAttempt(fold: char -> char, s: Store, op: Op, id: nat)
    requires Inv(s) && WellFormedOp(op)
    requires id !in s.attempts && id in Step(fold, s, op).0.attempts
    ensures op.Start?
    ensures var a := Step(fold, s, op).0.attempts[id];
      && a.quizId == op.quizId && a.userId == op.actor && a.status == InProgress && a.startedAt == op.now
      && Admissible(s, a)
  {
    hide Step, Inv, StartAttempt, Admissible;
    StepAttempts(fold, s, op);
    StartStep(fold, s, op);
    StartAdmits(s, op.actor, op.quizId, op.now, id);
  }

  /** A call keeps what admission depends on. */
  lemma StepKeepsAttempt(fold: char -> char, s: Store, op: Op, id: nat)
    requires Inv(s) && WellFormedOp(op) && id in s.attempts
    ensures var after := Step(fold, s, op).0.attempts;
      && id in after && after[id].number == s.attempts[id].number && after[id].quizId == s.attempts[id].quizId
      && after[id].userId == s.attempts[id].userId && after[id].startedAt == s.attempts[id].startedAt
  {
    hide Step, Inv;
    StepAttempts(fold, s, op);
  }

  lemma RunNothing(fold: char -> char, s: Store)
    ensures Run(fold, s, []) == s
  {
  }

  lemma RunSplit(fold: char -> char, s: Store, ops: seq<Op>)
    requires WellFormedRun(ops) && ops != []
    ensures var n := |ops| - 1;
      WellFormedRun(ops[..n]) && Run(fold, s, ops) == Step(fold, Run(fold, s, ops[..n]), ops[n]).0
  {
  }

  /** What never changes about an attempt once it exists. */
  lemma {:induction false} AttemptKept(fold: char -> char, s: Store, ops: seq<Op>, id: nat)
    requires Inv(s) && WellFormedRun(ops) && id in s.attempts
    ensures var s' := Run(fold, s, ops);
      && id in s'.attempts
      && s'.attempts[id].number == s.attempts[id].number
      && s'.attempts[id].quizId == s.attempts[id].quizId
      && s'.attempts[id].userId == s.attempts[id].userId
      && s'.attempts[id].startedAt == s.attempts[id].startedAt
  {
    hide Step, Inv;
    if ops != [] {
      var before := ops[..|ops| - 1];
      AttemptKept(fold, s, before, id);
      RunKeepsInv(fold, s, before);
      StepKeepsAttempt(fold, Run(fold, s, before), ops[|ops| - 1], id);
    }
  }

  /** Over any run: every attempt that appears was created by one Start call of its learner,
      with the next free number, at the clock reading of that very call, and as the quiz, the
      enrollment and the limit in force then allowed. */
  lemma {:induction false} EveryAttemptWithinLimit(fold: char -> char, s: Store, ops: seq<Op>, id: nat) returns (k: nat)
    requires Inv(s) && WellFormedRun(ops)
    requires id !in s.attempts && id in Run(fold, s, ops).attempts
    ensures k < |ops| && WellFormedRun(ops[..k]) && ops[k].Start?
    ensures var a := Run(fold, s, ops).attempts[id];
      a.quizId == ops[k].quizId && a.userId == ops[k].actor && a.startedAt == ops[k].now
    ensures id !in Run(fold, s, ops[..k]).attempts && Admissible(Run(fold, s, ops[..k]), Run(fold, s, ops).attempts[id])
  {
    hide Step, Inv, Run;
    if ops == [] {
      RunNothing(fold, s);
      assert false;
    }
    var n := |ops| - 1;
    RunSplit(fold, s, ops);
    var middle := Run(fold, s, ops[..n]);
    RunKeepsInv(fold, s, ops[..n]);
    if id in middle.attempts {
      k := EveryAttemptWithinLimit(fold, s, ops[..n], id);
      assert ops[..n][..k] == ops[..k];
      StepKeepsAttempt(fold, middle, ops[n], id);
    } else {
      k := n;
      NewAttempt(fold, middle, ops[n], id);
    }
  }

  // --- once graded, always the same --------------------------------------------------------

  function Surviving(answers: seq<Answer>, questions: map<nat, Question>): seq<Answer> {
    if answers == [] then []
    else
      var n := |answers| - 1;
      Surviving(answers[..n], questions) + (if answers[n].questionId in questions then [answers[n]] else [])
  }

  lemma {:induction false} AllSurvive(answers: seq<Answer>, questions: map<nat, Question>)
    ensures |Surviving(answers, questions)| <= |answers|
    ensures Surviving(answers, questions) == answers <==>
      forall i :: 0 <= i < |answers| ==> answers[i].questionId in questions
  {
    if answers != [] {
      var n := |answers| - 1;
      AllSurvive(answers[..n], questions);
      assert answers == answers[..n] + [answers[n]];
    }
  }

  /** Fewer questions left among those answered: surviving twice is surviving once. */
  lemma {:induction false} SurviveTwice(answers: seq<Answer>, first: map<nat, Question>, second: map<nat, Question>)
    requires forall i :: 0 <= i < |answers| && answers[i].questionId in second ==> answers[i].questionId in first
    ensures Surviving(Surviving(answers, first), second) == Surviving(answers, second)
  {
    if answers != [] {
      var n := |answers| - 1;
      SurviveTwice(answers[..n], first, second);
      var left := Surviving(answers[..n], first);
      if answers[n].questionId in first {
        assert Surviving(answers, first) == left + [answers[n]];
        assert (left + [answers[n]])[..|left|] == left;
      } else {
        assert Surviving(answers, first) == left;
      }
    }
  }

  lemma {:induction false} WithoutIsSurviving(answers: seq<Answer>, questions: map<nat, Question>, questionId: nat)
    requires forall i :: 0 <= i < |answers| ==> answers[i].questionId in questions
    ensures AnswersWithout(answers, questionId) == Surviving(answers, questions - {questionId})
  {
    if answers != [] { WithoutIsSurviving(answers[..|answers| - 1], questions, questionId); }
  }

  lemma AttemptIdBelow(s: Store, id: nat)
    requires Inv(s) && id in s.attempts
    ensures id < s.nextId
  {
  }

  lemma OtherAttemptCall(fold: char -> char, s: Store, op: Op, id: nat)
    requires id < s.nextId && (op.Start? || op.Save? || op.Submit?)
    requires !(op.Save? && op.attemptId == id) && !(op.Submit? && op.attemptId == id)
    ensures ListByAttempt(Step(fold, s, op).0, id) == ListByAttempt(s, id)
  {
    hide Step, StartAttempt, SaveAnswers, SubmitAttempt;
    if op.Start? {
      StartStep(fold, s, op);
    } else if op.Save? {
      SaveStep(fold, s, op);
    } else {
      SubmitStep(fold, s, op);
    }
  }

  lemma DeleteCall(fold: char -> char, s: Store, op: Op, id: nat)
    requires Inv(s) && id in s.attempts && op.Delete?
    ensures var s' := Step(fold, s, op).0;
      ListByAttempt(s', id) == if s' != s then AnswersWithout(ListByAttempt(s, id), op.questionId)
        else ListByAttempt(s, id)
  {
    hide Step;
    DeleteStep(fold, s, op);
  }

  /** What a call does to the answers of an attempt it does not write to. */
  lemma StepAnswers(fold: char -> char, s: Store, op: Op, id: nat)
    requires Inv(s) && WellFormedOp(op) && id in s.attempts
    requires !(op.Save? && op.attemptId == id) && !(op.Submit? && op.attemptId == id)
    ensures var s' := Step(fold, s, op).0;
      ListByAttempt(s', id) == if op.Delete? && s' != s then AnswersWithout(ListByAttempt(s, id), op.questionId)
        else ListByAttempt(s, id)
  {
    hide Step, Inv;
    AttemptIdBelow(s, id);
    if op.Start? || op.Save? || op.Submit? {
      OtherAttemptCall(fold, s, op, id);
    } else if op.Delete? {
      DeleteCall(fold, s, op, id);
    } else if op.Add? || op.Change? || op.Reorder? {
      QuestionCall(fold, s, op);
    } else {
      QuizCall(fold, s, op);
    }
  }

  /** Question ids are never handed out again, and only a deletion removes one. */
  lemma StepQuestions(fold: char -> char, s: Store, op: Op)
    requires WellFormedOp(op)
    ensures var s' := Step(fold, s, op).0;
      && s.nextId <= s'.nextId
      && (forall q :: q in s'.questions && q < s.nextId ==> q in s.questions)
      && (op.Delete? && s' != s ==> s'.questions == s.questions - {op.questionId})
      && (!op.Delete? ==> s.questions.Keys <= s'.questions.Keys)
  {
    hide Step;
    if op.Start? || op.Save? || op.Submit? {
      AttemptCall(fold, s, op);
    } else if op.Add? || op.Change? || op.Reorder? {
      QuestionCall(fold, s, op);
    } else if op.Delete? {
      DeleteStep(fold, s, op);
    } else {
      QuizCall(fold, s, op);
    }
  }

  lemma GradedRow(fold: char -> char, s: Store, op: Op, id: nat)
    requires Inv(s) && WellFormedOp(op) && id in s.attempts && s.attempts[id].status == Graded
    ensures id in Step(fold, s, op).0.attempts && Step(fold, s, op).0.attempts[id] == s.attempts[id]
  {
    hide Step, Inv;
    StepAttempts(fold, s, op);
  }

  lemma GradedAnswersStep(fold: char -> char, s: Store, op: Op, id: nat)
    requires Inv(s) && WellFormedOp(op) && id in s.attempts && s.attempts[id].status == Graded
    ensures var s' := Step(fold, s, op).0;
      ListByAttempt(s', id) == if op.Delete? && s' != s then AnswersWithout(ListByAttempt(s, id), op.questionId)
        else ListByAttempt(s, id)
  {
    hide Step, Inv;
    if op.Save? && op.attemptId == id {
      SaveStep(fold, s, op);
    } else if op.Submit? && op.attemptId == id {
      SubmitStep(fold, s, op);
    } else {
      StepAnswers(fold, s, op, id);
    }
  }

  /** A call leaves a graded attempt as it is; its answers lose at most a deleted question. */
  lemma GradedStep(fold: char -> char, s: Store, op: Op, id: nat)
    requires Inv(s) && WellFormedOp(op)
    requires id in s.attempts && s.attempts[id].status == Graded
    ensures var s' := Step(fold, s, op).0;
      && id in s'.attempts && s'.attempts[id] == s.attempts[id]
      && ListByAttempt(s', id) == Surviving(ListByAttempt(s, id), s'.questions)
  {
    hide Step;
    var s' := Step(fold, s, op).0;
    var answers := ListByAttempt(s, id);
    assert AnswersFor(answers, s.attempts[id].quizId, s.questions);
    GradedRow(fold, s, op, id);
    GradedAnswersStep(fold, s, op, id);
    StepQuestions(fold, s, op);
    AllSurvive(answers, s'.questions);
    if op.Delete? && s' != s {
      WithoutIsSurviving(answers, s.questions, op.questionId);
    }
  }

  /** After grading, no further calls change the attempt's result, and its stored answers
      are exactly those whose question still exists. */
  lemma {:induction false} GradedForever(fold: char -> char, s: Store, ops: seq<Op>, id: nat)
    requires Inv(s) && WellFormedRun(ops)
    requires id in s.attempts && s.attempts[id].status == Graded
    ensures var s' := Run(fold, s, ops);
      && id in s'.attempts && s'.attempts[id] == s.attempts[id]
      && ListByAttempt(s', id) == Surviving(ListByAttempt(s, id), s'.questions)
      && s.nextId <= s'.nextId
      && (forall q :: q in s'.questions && q < s.nextId ==> q in s.questions)
  {
    var answers := s.answers[id];
    assert AnswersFor(answers, s.attempts[id].quizId, s.questions);
    if ops == [] {
      AllSurvive(answers, s.questions);
    } else {
      var n := |ops| - 1;
      RunSplit(fold, s, ops);
      GradedForever(fold, s, ops[..n], id);
      RunKeepsInv(fold, s, ops[..n]);
      var middle := Run(fold, s, ops[..n]);
      GradedStep(fold, middle, ops[n], id);
      StepQuestions(fold, middle, ops[n]);
      SurviveTwice(answers, middle.questions, Run(fold, s, ops).questions);
    }
  }

  /** Call k of the run deletes the question. */
  ghost predicate DeletedAt(fold: char -> char, s: Store, ops: seq<Op>, k: nat, questionId: nat)
    requires WellFormedRun(ops) && k < |ops|
  {
    && ops[k].Delete? && ops[k].questionId == questionId
    && Step(fold, Run(fold, s, ops[..k]), ops[k]).1 == None
  }

  ghost predicate NeverDeleted(fold: char -> char, s: Store, ops: seq<Op>, questionId: nat)
    requires WellFormedRun(ops)
  {
    forall k :: 0 <= k < |ops| ==> !DeletedAt(fold, s, ops, k, questionId)
  }

  lemma DeletionMeans(fold: char -> char, s: Store, op: Op)
    requires op.Delete?
    ensures Step(fold, s, op).1 == None ==> op.questionId in s.questions && Step(fold, s, op).0 != s
    ensures Step(fold, s, op).1 != None ==> Step(fold, s, op).0 == s
  {
    assert Step(fold, s, op) == DeleteQuestion(s, op.actor, op.questionId, op.admin);
    if Step(fold, s, op).1 == None {
      assert op.questionId !in Step(fold, s, op).0.questions;
    }
  }

  lemma NothingDeleted(fold: char -> char, s: Store, questionId: nat)
    ensures NeverDeleted(fold, s, [], questionId)
  {
  }

  lemma NeverDeletedSplit(fold: char -> char, s: Store, ops: seq<Op>, questionId: nat)
    requires WellFormedRun(ops) && ops != []
    ensures var n := |ops| - 1;
      && WellFormedRun(ops[..n])
      && (NeverDeleted(fold, s, ops, questionId) <==>
            NeverDeleted(fold, s, ops[..n], questionId) && !DeletedAt(fold, s, ops, n, questionId))
  {
    var n := |ops| - 1;
    forall k | 0 <= k < n ensures DeletedAt(fold, s, ops[..n], k, questionId) <==>
      DeletedAt(fold, s, ops, k, questionId) {
      assert ops[..n][..k] == ops[..k];
    }
  }

  /** A question is there at the end of a run exactly when no call of the run deleted it. */
  lemma {:induction false} QuestionStays(fold: char -> char, s: Store, ops: seq<Op>, questionId: nat)
    requires Inv(s) && WellFormedRun(ops) && questionId in s.questions
    ensures questionId in Run(fold, s, ops).questions <==> NeverDeleted(fold, s, ops, questionId)
    ensures s.nextId <= Run(fold, s, ops).nextId
  {
    hide Step, NeverDeleted;
    if ops == [] {
      NothingDeleted(fold, s, questionId);
    } else {
      var n := |ops| - 1;
      var middle := Run(fold, s, ops[..n]);
      RunSplit(fold, s, ops);
      QuestionStays(fold, s, ops[..n], questionId);
      NeverDeletedSplit(fold, s, ops, questionId);
      StepQuestions(fold, middle, ops[n]);
      if ops[n].Delete? { DeletionMeans(fold, middle, ops[n]); }
    }
  }

  /** The stored answers of a graded attempt stay exactly as they are exactly when no call
      of the run deletes a question they answer. */
  lemma GradedAnswersForever(fold: char -> char, s: Store, ops: seq<Op>, id: nat)
    requires Inv(s) && WellFormedRun(ops)
    requires id in s.attempts && s.attempts[id].status == Graded
    ensures var answers := ListByAttempt(s, id);
      ListByAttempt(Run(fold, s, ops), id) == answers
      <==> forall i :: 0 <= i < |answers| ==> NeverDeleted(fold, s, ops, answers[i].questionId)
  {
    var answers := ListByAttempt(s, id);
    GradedForever(fold, s, ops, id);
    AllSurvive(answers, Run(fold, s, ops).questions);
    assert AnswersFor(answers, s.attempts[id].quizId, s.questions);
    forall i | 0 <= i < |answers|
      ensures answers[i].questionId in Run(fold, s, ops).questions <==>
        NeverDeleted(fold, s, ops, answers[i].questionId)
    {
      QuestionStays(fold, s, ops, answers[i].questionId);
    }
  }

  // --- submitting --------------------------------------------------------------------------

  /** The graded row of a question is the stored answer to it with its grade, or a blank one,
      which is wrong unless the question has no right answer. */
  ghost predicate GradesStored(fold: char -> char, row: Answer, q: Question, stored: seq<Answer>) {
    && row.questionId == q.id && row.isCorrect.Some?
    && row.points == (if row.isCorrect.value then q.points else 0)
    && (forall j :: 0 <= j < |stored| && stored[j].questionId == q.id ==>
          SameChoice(row, stored[j]) && row.isCorrect == Some(Correct(fold, q, stored[j])))
    && (NoneFor(stored, q.id) ==> row.selected == [] && row.text == "")
  }

  lemma StoredGrades(fold: char -> char, attemptId: nat, questions: seq<Question>, stored: seq<Answer>, i: nat)
    requires i < |questions| && OneAnswerEach(stored)
    ensures GradesStored(fold, GradedAnswers(fold, attemptId, questions, stored)[i], questions[i], stored)
  {
    GradedKeepsAnswer(fold, attemptId, questions, stored, i);
    forall j | 0 <= j < |stored| && stored[j].questionId == questions[i].id
      ensures LastFor(stored, j, questions[i].id) {}
  }

  /** What a successful submission records. */
  lemma SubmissionResult(fold: char -> char, s: Store, actor: string, attemptId: nat, now: int)
    requires Inv(s) && OpenAttemptError(s, actor, attemptId) == None
    ensures var s' := SubmitAttempt(fold, s, actor, attemptId, now, false).0;
      var a := s'.attempts[attemptId];
      var questions := ListByQuiz(s, a.quizId);
      var answers := s'.answers[attemptId];
      && a.status == Graded && a.submittedAt == Some(now) && a.gradedAt == Some(now)
      && a == s.attempts[attemptId].(status := a.status, score := a.score, maxPoints := a.maxPoints,
                                     percent := a.percent, passed := a.passed, submittedAt := a.submittedAt,
                                     gradedAt := a.gradedAt)
      && |answers| == |questions|
      && (forall i :: 0 <= i < |questions| ==>
            GradesStored(fold, answers[i], questions[i], ListByAttempt(s, attemptId)))
      && a.score == SumAwarded(answers) && a.maxPoints == SumPoints(questions)
      && 0 <= a.score <= a.maxPoints && 0 <= a.percent <= 100
      && (a.maxPoints > 0 ==> (a.passed <==> a.score * 100 >= s.quizzes[a.quizId].passPercent * a.maxPoints))
      && (questions != [] ==>
          (a.percent == 100 <==> forall i :: 0 <= i < |answers| ==> answers[i].isCorrect == Some(true)))
  {
    var a := s.attempts[attemptId];
    var questions, stored := ListByQuiz(s, a.quizId), ListByAttempt(s, attemptId);
    ListedQuestions(s, a.quizId);
    assert AnswersFor(s.answers[attemptId], a.quizId, s.questions);
    forall i | 0 <= i < |questions|
      ensures GradesStored(fold, GradedAnswers(fold, attemptId, questions, stored)[i], questions[i], stored)
    {
      StoredGrades(fold, attemptId, questions, stored, i);
    }
    var graded := GradedAnswers(fold, attemptId, questions, stored);
    ScoreBounds(fold, attemptId, questions, stored);
    PercentBounds(SumAwarded(graded), SumPoints(questions));
    if SumPoints(questions) > 0 {
      PassIsRational(SumAwarded(graded), SumPoints(questions), s.quizzes[a.quizId].passPercent);
    }
    if questions != [] { HundredPercent(fold, attemptId, questions, stored); }
  }

  /** A submission that failed between its two writes can be retried: the retry ends in
      the same store as if the first call had never happened. */
  lemma RetryAfterFailure(fold: char -> char, s: Store, actor: string, attemptId: nat, failedAt: int, now: int)
    requires Inv(s)
    ensures var failed := SubmitAttempt(fold, s, actor, attemptId, failedAt, true).0;
      SubmitAttempt(fold, failed, actor, attemptId, now, false) == SubmitAttempt(fold, s, actor, attemptId, now, false)
  {
    if OpenAttemptError(s, actor, attemptId) == None {
      var questions := ListByQuiz(s, s.attempts[attemptId].quizId);
      ListedQuestions(s, s.attempts[attemptId].quizId);
      hide Inv, Finished;
      var graded := GradedAnswers(fold, attemptId, questions, ListByAttempt(s, attemptId));
      GradingIdempotent(fold, attemptId, questions, ListByAttempt(s, attemptId));
      var failed := SubmitAttempt(fold, s, actor, attemptId, failedAt, true).0;
      assert ListByQuiz(failed, s.attempts[attemptId].quizId) == questions;
      assert failed.answers[attemptId := graded] == failed.answers;
    }
  }

  // --- every question has its place --------------------------------------------------------

  ghost predicate Listed(order: map<nat, seq<Slot>>, q: Question) {
    q.quizId in order && exists i :: 0 <= i < |order[q.quizId]| && order[q.quizId][i].id == q.id
  }

  ghost predicate AllListed(s: Store) {
    forall id :: id in s.questions ==> Listed(s.order, s.questions[id])
  }

  lemma CreateKeepsListed(fold: char -> char, s: Store, op: Op)
    requires Inv(s) && AllListed(s) && op.Create?
    ensures AllListed(Step(fold, s, op).0)
  {
    hide Step;
    CreateStep(fold, s, op);
    var s' := Step(fold, s, op).0;
    assert s'.order == s.order || s'.order == s.order[s.nextId := []];
    forall id | id in s'.questions ensures Listed(s'.order, s'.questions[id]) {
      assert s.questions[id].quizId in s.quizzes;
      ListedElsewhere(s.order, s.questions[id], s.nextId, []);
    }
  }

  lemma ListedElsewhere(order: map<nat, seq<Slot>>, q: Question, quizId: nat, slots: seq<Slot>)
    requires Listed(order, q) && q.quizId != quizId
    ensures Listed(order[quizId := slots], q)
  {
    var i :| 0 <= i < |order[q.quizId]| && order[q.quizId][i].id == q.id;
    assert order[quizId := slots][q.quizId][i].id == q.id;
  }

  lemma AddKeepsListed(fold: char -> char, s: Store, op: Op)
    requires Inv(s) && AllListed(s) && op.Add? && WellFormedOp(op)
    ensures AllListed(Step(fold, s, op).0)
  {
    hide Step;
    AddStep(fold, s, op);
    var s' := Step(fold, s, op).0;
    if s' != s {
      var slots := SlotsOf(s, op.quizId);
      assert s'.order[op.quizId][|slots|].id == s.nextId;
      forall id | id in s'.questions ensures Listed(s'.order, s'.questions[id]) {
        if id in s.questions {
          ListedLater(s.order, s.questions[id], op.quizId, s'.order[op.quizId]);
        }
      }
    }
  }

  lemma ListedLater(order: map<nat, seq<Slot>>, q: Question, quizId: nat, slots: seq<Slot>)
    requires Listed(order, q) && quizId in order
    requires order[quizId] <= slots
    ensures Listed(order[quizId := slots], q)
  {
    var i :| 0 <= i < |order[q.quizId]| && order[q.quizId][i].id == q.id;
    assert order[quizId := slots][q.quizId][i].id == q.id;
  }

  lemma DeleteKeepsListed(s: Store, actor: string, questionId: nat, admin: bool)
    requires Inv(s) && AllListed(s)
    ensures AllListed(DeleteQuestion(s, actor, questionId, admin).0)
  {
    var s' := DeleteQuestion(s, actor, questionId, admin).0;
    if s' != s {
      var home := s.questions[questionId].quizId;
      UnlistedIs(SlotsOf(s, home), [questionId]);
      forall id | id in s'.questions ensures Listed(s'.order, s'.questions[id]) {
        SamePlace(s.order, s.questions[id], home, s'.order[home]);
      }
    }
  }

  /** A quiz's list may change as long as the question's place stays in it. */
  lemma SamePlace(order: map<nat, seq<Slot>>, q: Question, quizId: nat, slots: seq<Slot>)
    requires Listed(order, q) && quizId in order
    requires forall x :: x in order[quizId] && x.id == q.id ==> exists y :: y in slots && y.id == q.id
    ensures Listed(order[quizId := slots], q)
  {
    var i :| 0 <= i < |order[q.quizId]| && order[q.quizId][i].id == q.id;
    assert order[q.quizId][i] in order[q.quizId];
    if q.quizId == quizId {
      var y :| y in slots && y.id == q.id;
      var j :| 0 <= j < |slots| && slots[j] == y;
      assert order[quizId := slots][q.quizId][j].id == q.id;
    } else {
      assert order[quizId := slots][q.quizId][i].id == q.id;
    }
  }

  lemma ReorderKeepsListed(s: Store, actor: string, quizId: nat, ids: seq<nat>, admin: bool)
    requires Inv(s) && AllListed(s)
    ensures AllListed(ReorderQuestions(s, actor, quizId, ids, admin).0)
  {
    var s' := ReorderQuestions(s, actor, quizId, ids, admin).0;
    if s' != s {
      var slots := SlotsOf(s, quizId);
      assert ListsQuestionsOf(s.questions, quizId, slots);
      ReorderedIs(slots, ids);
      forall id | id in s'.questions ensures Listed(s'.order, s'.questions[id]) {
        IdsAre(slots, id);
        IdsAre(s'.order[quizId], id);
        SamePlace(s.order, s.questions[id], quizId, s'.order[quizId]);
      }
    }
  }

  lemma ChangeKeepsListed(fold: char -> char, s: Store, op: Op)
    requires Inv(s) && AllListed(s) && op.Change? && WellFormedOp(op)
    ensures AllListed(Step(fold, s, op).0)
  {
    hide Step;
    ChangeStep(fold, s, op);
    var s' := Step(fold, s, op).0;
    forall id | id in s'.questions ensures Listed(s'.order, s'.questions[id]) {
      assert Listed(s.order, s.questions[id]);
    }
  }

  lemma StepKeepsListed(fold: char -> char, s: Store, op: Op)
    requires Inv(s) && AllListed(s) && WellFormedOp(op)
    ensures AllListed(Step(fold, s, op).0)
  {
    hide Step, Inv, DeleteQuestion, ReorderQuestions;
    if op.Start? || op.Save? || op.Submit? {
      AttemptCall(fold, s, op);
    } else if op.Add? {
      AddKeepsListed(fold, s, op);
    } else if op.Change? {
      ChangeKeepsListed(fold, s, op);
    } else if op.Delete? {
      DeleteStep(fold, s, op);
      DeleteKeepsListed(s, op.actor, op.questionId, op.admin);
    } else if op.Reorder? {
      ReorderStep(fold, s, op);
      ReorderKeepsListed(s, op.actor, op.quizId, op.ids, op.admin);
    } else if op.Create? {
      CreateKeepsListed(fold, s, op);
    } else {
      QuizCall(fold, s, op);
    }
  }

  /** In every reachable store every question stands at exactly one position of its quiz. */
  lemma {:induction false} RunKeepsListed(fold: char -> char, s: Store, ops: seq<Op>)
    requires Inv(s) && AllListed(s) && WellFormedRun(ops)
    ensures AllListed(Run(fold, s, ops))
  {
    hide Step, Inv, AllListed;
    if ops != [] {
      var before := ops[..|ops| - 1];
      RunKeepsListed(fold, s, before);
      RunKeepsInv(fold, s, before);
      StepKeepsListed(fold, Run(fold, s, before), ops[|ops| - 1]);
    }
  }

  /** Naming all questions of a quiz once is always accepted, and then the quiz shows them
      in the order named. */
  lemma ReorderShows(s: Store, actor: string, quizId: nat, ids: seq<nat>, admin: bool)
    requires Inv(s) && quizId in s.quizzes && WriteError(s.courses, actor, s.quizzes[quizId].courseId, admin) == None
    requires ids != [] && NoDuplicates(ids) && Elements(ids) == Elements(Ids(SlotsOf(s, quizId)))
    ensures var (s', error) := ReorderQuestions(s, actor, quizId, ids, admin);
      && error == None && |ListByQuiz(s', quizId)| == |ids|
      && forall i :: 0 <= i < |ids| ==> ids[i] in s.questions && ListByQuiz(s', quizId)[i] == s.questions[ids[i]]
  {
    var slots := SlotsOf(s, quizId);
    assert ListsQuestionsOf(s.questions, quizId, slots);
    FullReorder(slots, ids);
    ReorderKeepsInv(s, actor, quizId, ids, admin);
    var s' := ReorderQuestions(s, actor, quizId, ids, admin).0;
    assert ListsQuestionsOf(s'.questions, quizId, s'.order[quizId]);
    RowsAre(s'.questions, s'.order[quizId]);
    forall i | 0 <= i < |ids| ensures s'.order[quizId][i].id == ids[i] {
      assert Ids(s'.order[quizId])[i] == ids[i];
    }
  }
}
