/** The verdict stored with a graded attempt, the pass mark of its quiz, and what gradebook
    and transcript show of both over whole runs. */
module Verdicts {
  import opened Common
  import opened QuizStore
  import opened QuizInvariants
  import opened QuizRuns
  import Enrollments
  import G = Gradebook
  import S = Submissions
  import T = Transcript

  // --- while the pass mark stays -------------------------------------------------------------

  /** Every graded attempt of the quiz passed exactly when its percentage reaches the mark. */
  ghost predicate JudgedBy(attempts: map<nat, Attempt>, quizId: nat, mark: int) {
    forall id :: id in attempts && attempts[id].quizId == quizId && attempts[id].status == Graded ==>
      (attempts[id].passed <==> attempts[id].percent >= mark)
  }

  ghost predicate VerdictsMatch(s: Store, quizId: nat) {
    quizId in s.quizzes ==> JudgedBy(s.attempts, quizId, s.quizzes[quizId].passPercent)
  }

  predicate SetsMark(op: Op, quizId: nat) {
    op.Update? && op.quizId == quizId && op.newPass.Some?
  }

  /** Only a call that sets it changes the mark of a quiz. */
  ghost predicate SameMark(s: Store, s': Store, quizId: nat) {
    quizId in s.quizzes && quizId in s'.quizzes && s'.quizzes[quizId].passPercent == s.quizzes[quizId].passPercent
  }

  lemma CreateKeepsMark(fold: char -> char, s: Store, op: Op, quizId: nat)
    requires Inv(s) && quizId in s.quizzes && op.Create?
    ensures SameMark(s, Step(fold, s, op).0, quizId)
  {
    hide Step;
    CreateStep(fold, s, op);
  }

  lemma UpdateKeepsMark(fold: char -> char, s: Store, op: Op, quizId: nat)
    requires quizId in s.quizzes && op.Update? && !SetsMark(op, quizId)
    ensures SameMark(s, Step(fold, s, op).0, quizId)
  {
    hide Step;
    UpdateStep(fold, s, op);
  }

  lemma PublishKeepsMark(fold: char -> char, s: Store, op: Op, quizId: nat)
    requires quizId in s.quizzes && op.Publish?
    ensures SameMark(s, Step(fold, s, op).0, quizId)
  {
    hide Step;
    PublishStep(fold, s, op);
  }

  lemma QuizzesKept(fold: char -> char, s: Store, op: Op)
    requires WellFormedOp(op) && !op.Create? && !op.Update? && !op.Publish?
    ensures Step(fold, s, op).0.quizzes == s.quizzes
  {
    hide Step, DeleteQuestion;
    if op.Start? || op.Save? || op.Submit? {
      AttemptCall(fold, s, op);
    } else if op.Add? || op.Change? || op.Reorder? {
      QuestionCall(fold, s, op);
    } else if op.Delete? {
      DeleteStep(fold, s, op);
    } else if op.SetEnrollment? {
      EnrollmentStep(fold, s, op);
    } else {
      CourseStep(fold, s, op);
    }
  }

  lemma MarkKept(fold: char -> char, s: Store, op: Op, quizId: nat)
    requires Inv(s) && WellFormedOp(op) && quizId in s.quizzes && !SetsMark(op, quizId)
    ensures SameMark(s, Step(fold, s, op).0, quizId)
  {
    hide Step, Inv, SetsMark;
    if op.Create? {
      CreateKeepsMark(fold, s, op, quizId);
    } else if op.Update? {
      UpdateKeepsMark(fold, s, op, quizId);
    } else if op.Publish? {
      PublishKeepsMark(fold, s, op, quizId);
    } else {
      QuizzesKept(fold, s, op);
    }
  }

  lemma NoOtherQuizAppears(fold: char -> char, s: Store, op: Op, quizId: nat)
    requires WellFormedOp(op) && quizId !in s.quizzes && quizId in Step(fold, s, op).0.quizzes
    ensures op.Create? && Step(fold, s, op).0.attempts == s.attempts
  {
    hide Step;
    if op.Create? {
      CreateStep(fold, s, op);
    } else if op.Update? {
      UpdateStep(fold, s, op);
    } else if op.Publish? {
      PublishStep(fold, s, op);
    } else {
      QuizzesKept(fold, s, op);
    }
  }

  /** The attempt row is as before, or was just judged by the mark in force. */
  ghost predicate JudgedNow(s: Store, s': Store, id: nat) {
    && id in s.attempts && id in s'.attempts && s'.attempts[id].quizId in s.quizzes
    && (s'.attempts[id] == s.attempts[id]
        || (s.attempts[id].status == InProgress && s'.attempts[id].status == Graded
            && (s'.attempts[id].passed <==> s'.attempts[id].percent >= s.quizzes[s'.attempts[id].quizId].passPercent)))
  }

  lemma SubmitCallJudges(fold: char -> char, s: Store, actor: string, attemptId: nat, now: int, updateFails: bool,
                         id: nat)
    requires AttemptsOk(s.attempts, s.quizzes.Keys)
      && id in SubmitAttempt(fold, s, actor, attemptId, now, updateFails).0.attempts
    ensures JudgedNow(s, SubmitAttempt(fold, s, actor, attemptId, now, updateFails).0, id)
  {
  }

  /** Submitting judges by the mark in force. */
  lemma SubmitJudges(fold: char -> char, s: Store, op: Op, id: nat)
    requires Inv(s) && op.Submit? && id in Step(fold, s, op).0.attempts
    ensures JudgedNow(s, Step(fold, s, op).0, id)
  {
    hide Step, SubmitAttempt, JudgedNow;
    SubmitStep(fold, s, op);
    SubmitCallJudges(fold, s, op.actor, op.attemptId, op.now, op.updateFails, id);
  }

  lemma SubmitKeepsVerdicts(fold: char -> char, s: Store, op: Op, quizId: nat)
    requires Inv(s) && op.Submit? && quizId in s.quizzes && VerdictsMatch(s, quizId)
    ensures JudgedBy(Step(fold, s, op).0.attempts, quizId, s.quizzes[quizId].passPercent)
  {
    hide Step, Inv;
    var s' := Step(fold, s, op).0;
    forall id | id in s'.attempts && s'.attempts[id].quizId == quizId && s'.attempts[id].status == Graded
      ensures s'.attempts[id].passed <==> s'.attempts[id].percent >= s.quizzes[quizId].passPercent
    {
      SubmitJudges(fold, s, op, id);
    }
  }

  lemma StartKeepsVerdicts(fold: char -> char, s: Store, op: Op, quizId: nat)
    requires Inv(s) && op.Start? && quizId in s.quizzes && VerdictsMatch(s, quizId)
    ensures JudgedBy(Step(fold, s, op).0.attempts, quizId, s.quizzes[quizId].passPercent)
  {
    hide Step, IdsOk, OrderOk, QuestionsOk, Numbered, AnswersOk;
    StartStep(fold, s, op);
  }

  lemma NobodyJudgedYet(s: Store, quizId: nat, mark: int)
    requires Inv(s) && quizId !in s.quizzes
    ensures JudgedBy(s.attempts, quizId, mark)
  {
  }

  lemma StepKeepsVerdicts(fold: char -> char, s: Store, op: Op, quizId: nat)
    requires Inv(s) && WellFormedOp(op) && VerdictsMatch(s, quizId) && !SetsMark(op, quizId)
    ensures VerdictsMatch(Step(fold, s, op).0, quizId)
  {
    hide Step, Inv, JudgedBy, SetsMark;
    var s' := Step(fold, s, op).0;
    if quizId in s'.quizzes {
      if quizId !in s.quizzes {
        NoOtherQuizAppears(fold, s, op, quizId);
        NobodyJudgedYet(s, quizId, s'.quizzes[quizId].passPercent);
      } else {
        MarkKept(fold, s, op, quizId);
        if op.Submit? {
          SubmitKeepsVerdicts(fold, s, op, quizId);
        } else if op.Start? {
          StartKeepsVerdicts(fold, s, op, quizId);
        } else {
          OtherCallsKeepAttempts(fold, s, op);
        }
      }
    }
  }

  /** In every run that never sets the quiz's pass mark, every verdict matches its
      percentage. */
  lemma {:induction false} RunKeepsVerdicts(fold: char -> char, s: Store, ops: seq<Op>, quizId: nat)
    requires Inv(s) && WellFormedRun(ops) && VerdictsMatch(s, quizId)
    requires forall k :: 0 <= k < |ops| ==> !SetsMark(ops[k], quizId)
    ensures VerdictsMatch(Run(fold, s, ops), quizId)
  {
    hide Step, Inv, VerdictsMatch, SetsMark;
    if ops == [] {
      assert Run(fold, s, ops) == s;
    } else {
      var n := |ops| - 1;
      RunKeepsVerdicts(fold, s, ops[..n], quizId);
      RunKeepsInv(fold, s, ops[..n]);
      StepKeepsVerdicts(fold, Run(fold, s, ops[..n]), ops[n], quizId);
    }
  }

  // --- when the pass mark moves -------------------------------------------------------------

  /** The percentages whose verdict depends on which of two marks is used. */
  predicate Between(percent: int, mark: int, mark': int) {
    (mark <= percent < mark') || (mark' <= percent < mark)
  }

  /** Setting a new mark leaves all verdicts matching exactly when no graded attempt of the
      quiz has a percentage between the old mark and the new one. */
  lemma NewMark(s: Store, actor: string, quizId: nat, title: string, description: string, timeLimit: Option<int>,
                maxAttempts: Option<int>, passPercent: Option<int>, shuffle: Option<bool>, admin: bool)
    requires VerdictsMatch(s, quizId)
    requires UpdateQuiz(s, actor, quizId, title, description, timeLimit, maxAttempts, passPercent, shuffle, admin).1
      == None
    ensures VerdictsMatch(UpdateQuiz(s, actor, quizId, title, description, timeLimit, maxAttempts, passPercent,
                                     shuffle, admin).0, quizId)
      <==> (passPercent.Some? ==>
            forall id :: id in s.attempts && s.attempts[id].quizId == quizId && s.attempts[id].status == Graded ==>
              !Between(s.attempts[id].percent, s.quizzes[quizId].passPercent, passPercent.value))
  {
    var s' := UpdateQuiz(s, actor, quizId, title, description, timeLimit, maxAttempts, passPercent, shuffle, admin).0;
    var mark' := passPercent.GetOr(s.quizzes[quizId].passPercent);
    assert s'.quizzes[quizId].passPercent == mark';
    if JudgedBy(s.attempts, quizId, mark') && passPercent.Some? {
      forall id | id in s.attempts && s.attempts[id].quizId == quizId && s.attempts[id].status == Graded
        ensures !Between(s.attempts[id].percent, s.quizzes[quizId].passPercent, mark')
      {
      }
    }
  }

  // --- verdicts of their time ------------------------------------------------------------------

  lemma {:induction false} RunConcat(fold: char -> char, s: Store, first: seq<Op>, second: seq<Op>)
    requires WellFormedRun(first) && WellFormedRun(second)
    ensures WellFormedRun(first + second) && Run(fold, s, first + second) == Run(fold, Run(fold, s, first), second)
  {
    hide Step;
    if second == [] {
      assert first + second == first;
    } else {
      var n := |second| - 1;
      assert (first + second)[..|first + second| - 1] == first + second[..n];
      RunConcat(fold, s, first, second[..n]);
    }
  }

  /** Call k of the run closed the attempt. */
  ghost predicate ClosedAt(fold: char -> char, ops: seq<Op>, k: nat, id: nat)
    requires WellFormedRun(ops) && k < |ops|
  {
    var s, s' := Run(fold, EMPTY, ops[..k]), Step(fold, Run(fold, EMPTY, ops[..k]), ops[k]).0;
    && ops[k].Submit? && id in s.attempts && s.attempts[id].status == InProgress
    && id in s'.attempts && s'.attempts[id].status == Graded
  }

  /** The quiz's pass mark when call k was made. */
  ghost function MarkAt(fold: char -> char, ops: seq<Op>, k: nat, quizId: nat): int
    requires WellFormedRun(ops) && k < |ops|
  {
    var s := Run(fold, EMPTY, ops[..k]);
    if quizId in s.quizzes then s.quizzes[quizId].passPercent else 0
  }

  lemma JudgedThen(fold: char -> char, ops: seq<Op>, k: nat, id: nat)
    requires WellFormedRun(ops) && k < |ops| && ClosedAt(fold, ops, k, id)
    ensures var s' := Step(fold, Run(fold, EMPTY, ops[..k]), ops[k]).0;
      && Inv(s') && s'.attempts[id].status == Graded
      && (s'.attempts[id].passed <==> s'.attempts[id].percent >= MarkAt(fold, ops, k, s'.attempts[id].quizId))
  {
    hide Step, Run, Inv;
    var s := Run(fold, EMPTY, ops[..k]);
    EmptyInv();
    RunKeepsInv(fold, EMPTY, ops[..k]);
    StepKeepsInv(fold, s, ops[k]);
    SubmitJudges(fold, s, ops[k], id);
  }

  lemma RunAfter(fold: char -> char, ops: seq<Op>, k: nat)
    requires WellFormedRun(ops) && k < |ops|
    ensures WellFormedRun(ops[..k]) && WellFormedRun(ops[k + 1..])
    ensures Run(fold, EMPTY, ops) == Run(fold, Step(fold, Run(fold, EMPTY, ops[..k]), ops[k]).0, ops[k + 1..])
  {
    hide Step, Run;
    assert ops[..k + 1][..k] == ops[..k];
    RunSplit(fold, EMPTY, ops[..k + 1]);
    assert ops == ops[..k + 1] + ops[k + 1..];
    RunConcat(fold, EMPTY, ops[..k + 1], ops[k + 1..]);
  }

  /** The verdict was given by the mark in force when the attempt was closed, and is never
      revised. */
  lemma JudgedWhenClosed(fold: char -> char, ops: seq<Op>, k: nat, id: nat)
    requires WellFormedRun(ops) && k < |ops| && ClosedAt(fold, ops, k, id)
    ensures id in Run(fold, EMPTY, ops).attempts
    ensures var a := Run(fold, EMPTY, ops).attempts[id]; a.passed <==> a.percent >= MarkAt(fold, ops, k, a.quizId)
  {
    hide Step, Run, Inv;
    JudgedThen(fold, ops, k, id);
    RunAfter(fold, ops, k);
    GradedForever(fold, Step(fold, Run(fold, EMPTY, ops[..k]), ops[k]).0, ops[k + 1..], id);
  }

  /** Only submitting closes an attempt. */
  lemma ClosingStep(fold: char -> char, s: Store, op: Op, id: nat)
    requires Inv(s) && WellFormedOp(op)
    requires id in Step(fold, s, op).0.attempts && Step(fold, s, op).0.attempts[id].status == Graded
    ensures id in s.attempts && (s.attempts[id].status == Graded || op.Submit?)
  {
    hide Step, Inv;
    StepAttempts(fold, s, op);
    if op.Start? {
      StartStep(fold, s, op);
    }
  }

  lemma {:induction false} SomeCallClosed(fold: char -> char, ops: seq<Op>, id: nat) returns (k: nat)
    requires WellFormedRun(ops)
    requires id in Run(fold, EMPTY, ops).attempts && Run(fold, EMPTY, ops).attempts[id].status == Graded
    ensures k < |ops| && ClosedAt(fold, ops, k, id)
  {
    hide Step, Inv;
    var n := |ops| - 1;
    RunSplit(fold, EMPTY, ops);
    EmptyInv();
    RunKeepsInv(fold, EMPTY, ops[..n]);
    var middle := Run(fold, EMPTY, ops[..n]);
    ClosingStep(fold, middle, ops[n], id);
    if middle.attempts[id].status == Graded {
      k := SomeCallClosed(fold, ops[..n], id);
      assert ops[..n][..k] == ops[..k];
    } else {
      k := n;
    }
  }

  // --- what is shown -----------------------------------------------------------------------------

  /** The list holds the store's attempts of one learner at one quiz. */
  ghost predicate Lists(attempts: seq<Attempt>, s: Store, quizId: nat, userId: string) {
    forall a :: a in attempts <==>
      a.id in s.attempts && s.attempts[a.id] == a && a.quizId == quizId && a.userId == userId
  }

  /** The attempt is graded, and none has a higher percentage. */
  ghost predicate AtTop(a: Attempt, attempts: seq<Attempt>) {
    a in attempts && T.BestRow(Some(a), attempts)
  }

  /** The attempts at the top were closed under marks on the same side of their percentage. */
  ghost predicate MarksAgree(fold: char -> char, ops: seq<Op>, attempts: seq<Attempt>, quizId: nat)
    requires WellFormedRun(ops)
  {
    forall a, b, i, j ::
      (&& AtTop(a, attempts) && AtTop(b, attempts)
       && 0 <= i < |ops| && 0 <= j < |ops| && ClosedAt(fold, ops, i, a.id) && ClosedAt(fold, ops, j, b.id))
      ==> (a.percent >= MarkAt(fold, ops, i, quizId) <==> b.percent >= MarkAt(fold, ops, j, quizId))
  }

  lemma ListedVerdict(fold: char -> char, ops: seq<Op>, attempts: seq<Attempt>, quizId: nat, userId: string,
                      a: Attempt, k: nat)
    requires WellFormedRun(ops) && Lists(attempts, Run(fold, EMPTY, ops), quizId, userId)
    requires a in attempts && k < |ops| && ClosedAt(fold, ops, k, a.id)
    ensures a.passed <==> a.percent >= MarkAt(fold, ops, k, quizId)
  {
    JudgedWhenClosed(fold, ops, k, a.id);
  }

  lemma ListedClosed(fold: char -> char, ops: seq<Op>, attempts: seq<Attempt>, quizId: nat, userId: string, a: Attempt)
    returns (k: nat)
    requires WellFormedRun(ops) && Lists(attempts, Run(fold, EMPTY, ops), quizId, userId)
    requires AtTop(a, attempts)
    ensures k < |ops| && ClosedAt(fold, ops, k, a.id)
  {
    assert !T.NoneGraded(attempts);
    k := SomeCallClosed(fold, ops, a.id);
  }

  lemma SameThenMarks(fold: char -> char, ops: seq<Op>, attempts: seq<Attempt>, quizId: nat, userId: string)
    requires WellFormedRun(ops) && Lists(attempts, Run(fold, EMPTY, ops), quizId, userId)
    requires T.SameVerdictAtTop(attempts)
    ensures MarksAgree(fold, ops, attempts, quizId)
  {
    hide Run, Lists, ClosedAt, MarkAt, T.BestRow;
    forall a, b, i, j |
      && AtTop(a, attempts) && AtTop(b, attempts)
      && 0 <= i < |ops| && 0 <= j < |ops| && ClosedAt(fold, ops, i, a.id) && ClosedAt(fold, ops, j, b.id)
      ensures a.percent >= MarkAt(fold, ops, i, quizId) <==> b.percent >= MarkAt(fold, ops, j, quizId)
    {
      ListedVerdict(fold, ops, attempts, quizId, userId, a, i);
      ListedVerdict(fold, ops, attempts, quizId, userId, b, j);
    }
  }

  lemma TopVerdicts(fold: char -> char, ops: seq<Op>, attempts: seq<Attempt>, quizId: nat, userId: string)
    requires WellFormedRun(ops) && Lists(attempts, Run(fold, EMPTY, ops), quizId, userId)
    ensures T.SameVerdictAtTop(attempts) <==> MarksAgree(fold, ops, attempts, quizId)
  {
    hide Run, Lists, ClosedAt, MarkAt, T.BestRow;
    if T.SameVerdictAtTop(attempts) {
      SameThenMarks(fold, ops, attempts, quizId, userId);
    }
    if MarksAgree(fold, ops, attempts, quizId) {
      forall a, b | AtTop(a, attempts) && AtTop(b, attempts) ensures a.passed == b.passed {
        var i := ListedClosed(fold, ops, attempts, quizId, userId, a);
        var j := ListedClosed(fold, ops, attempts, quizId, userId, b);
        ListedVerdict(fold, ops, attempts, quizId, userId, a, i);
        ListedVerdict(fold, ops, attempts, quizId, userId, b, j);
      }
    }
  }

  /** The transcript's verdict is that of every row the gradebook query may pick exactly
      when the best attempts were closed under marks on the same side of their percentage. */
  lemma VerdictsAgreeExactly(fold: char -> char, ops: seq<Op>, attempts: seq<Attempt>, quizId: nat, userId: string,
                             percent: Option<int>, passed: Option<bool>)
    requires WellFormedRun(ops) && Lists(attempts, Run(fold, EMPTY, ops), quizId, userId)
    requires T.ShowsBest(percent, passed, attempts)
    ensures T.AgreesWithEveryPick(passed, attempts) <==> MarksAgree(fold, ops, attempts, quizId)
  {
    TopVerdicts(fold, ops, attempts, quizId, userId);
    T.EveryPick(attempts, percent, passed);
  }

  /** In every run that never sets the quiz's pass mark, gradebook and transcript show each
      learner the same percentage, verdict and number of attempts for that quiz. */
  lemma SameShown(fold: char -> char, ops: seq<Op>, page: seq<Enrollments.Enrollment>, i: nat,
                  assignments: seq<S.Assignment>,
                  best: seq<Attempt>, subs: seq<S.Submission>, row: T.CourseRow, en: Enrollments.Enrollment,
                    r: T.Records, j: nat, k: nat)
    requires WellFormedRun(ops)
    requires i < |page| && page[i].userId == en.userId && T.RowOk(row, en, en.userId, r)
    requires T.BestRows(best, r.quizzesOf(en.courseId), r.attemptsOf)
    requires j < |r.quizzesOf(en.courseId)| && k < |row.quizzes|
      && r.quizzesOf(en.courseId)[j].id == row.quizzes[k].quizId
    requires var quizId := row.quizzes[k].quizId;
      && Lists(r.attemptsOf(quizId, en.userId), Run(fold, EMPTY, ops), quizId, en.userId)
      && forall m :: 0 <= m < |ops| ==> !SetsMark(ops[m], quizId)
    ensures var count := (quizId: nat, userId: string) => |r.attemptsOf(quizId, userId)|;
      var entry := G.Scan(page, r.quizzesOf(en.courseId), assignments, best, subs, count)[i].quizzes[j];
      entry.percent == row.quizzes[k].percent && entry.passed == row.quizzes[k].passed
        && entry.attempts == row.quizzes[k].attempts
  {
    hide Run, Step, Lists, SetsMark, T.SameVerdictAtTop, T.QuizRowsOk, T.BestRows;
    var quizId := row.quizzes[k].quizId;
    RunSameVerdict(fold, ops, r.attemptsOf(quizId, en.userId), quizId, en.userId);
    T.GradebookAgrees(page, i, assignments, best, subs, row, en, r, j, k);
  }

  lemma RunSameVerdict(fold: char -> char, ops: seq<Op>, attempts: seq<Attempt>, quizId: nat, userId: string)
    requires WellFormedRun(ops) && Lists(attempts, Run(fold, EMPTY, ops), quizId, userId)
    requires forall m :: 0 <= m < |ops| ==> !SetsMark(ops[m], quizId)
    ensures T.SameVerdictAtTop(attempts)
  {
    hide Run, Step, Lists, SetsMark, Inv, VerdictsMatch, T.SameVerdictAtTop;
    EmptyInv();
    RunKeepsInv(fold, EMPTY, ops);
    EmptyMatches(quizId);
    RunKeepsVerdicts(fold, EMPTY, ops, quizId);
    SameMarkSameVerdict(Run(fold, EMPTY, ops), attempts, quizId, userId);
  }

  lemma EmptyMatches(quizId: nat)
    ensures VerdictsMatch(EMPTY, quizId)
  {
  }

  lemma SameMarkSameVerdict(s: Store, attempts: seq<Attempt>, quizId: nat, userId: string)
    requires Inv(s) && VerdictsMatch(s, quizId) && Lists(attempts, s, quizId, userId)
    ensures T.SameVerdictAtTop(attempts)
  {
    forall a, b | AtTop(a, attempts) && AtTop(b, attempts) ensures a.passed == b.passed {
      assert a.percent <= b.percent by { var i :| 0 <= i < |attempts| && attempts[i] == a; }
      assert b.percent <= a.percent by { var i :| 0 <= i < |attempts| && attempts[i] == b; }
    }
  }
}
