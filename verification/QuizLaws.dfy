/** What the calls of the assessment service promise their callers, said of requests and
    of what can be read back afterwards: who gets what, which requests are refused for
    which reason, and where the given values are found later. */
module QuizLaws {
  import opened Common
  import opened Enrollments
  import opened Grading
  import opened Positions
  import opened QuizStore
  import opened QuizInvariants
  import opened QuizRuns
  import opened QuizDeadline

  // --- who sees a quiz -----------------------------------------------------------------

  /** The actor teaches the course or is an administrator. */
  ghost predicate Manages(s: Store, actor: string, courseId: string, admin: bool) {
    courseId in s.courses && (admin || s.courses[courseId] == actor)
  }

  ghost predicate ActiveIn(s: Store, actor: string, courseId: string) {
    (courseId, actor) in s.enrollments && s.enrollments[(courseId, actor)] == Active
  }

  /** The quiz and its course exist. */
  ghost predicate Present(s: Store, quizId: nat) {
    quizId in s.quizzes && s.quizzes[quizId].courseId in s.courses
  }

  /** A quiz is shown to those who manage its course, and once published to those actively
      enrolled in it; to anybody else an unpublished one does not exist. */
  lemma WhoSeesAQuiz(s: Store, actor: string, quizId: nat, admin: bool)
    ensures var r := GetQuiz(s, actor, quizId, admin);
      && (r == Err(NotFound) <==>
          !Present(s, quizId)
            || (!Manages(s, actor, s.quizzes[quizId].courseId, admin) && s.quizzes[quizId].status == Draft))
      && (r.Ok? <==>
          && Present(s, quizId)
          && (Manages(s, actor, s.quizzes[quizId].courseId, admin)
              || (s.quizzes[quizId].status == Published && ActiveIn(s, actor, s.quizzes[quizId].courseId))))
      && (r.Err? ==> r.error == NotFound || r.error == Forbidden)
  {
  }

  /** Managers see the questions as stored; others see each with its prompt, points and
      option texts, and nothing of the key. */
  lemma WhatAQuizShows(s: Store, actor: string, quizId: nat, admin: bool)
    requires GetQuiz(s, actor, quizId, admin).Ok?
    ensures var view := GetQuiz(s, actor, quizId, admin).value;
      var stored := ListByQuiz(s, quizId);
      && view.quiz == s.quizzes[quizId]
      && |view.questions| == |stored|
      && (Manages(s, actor, view.quiz.courseId, admin) ==> view.questions == stored)
      && (!Manages(s, actor, view.quiz.courseId, admin) ==>
            forall i :: 0 <= i < |stored| ==> SameButKey(stored[i], view.questions[i]) && HidesKey(view.questions[i]))
  {
  }

  // --- managing quizzes --------------------------------------------------------------------

  ghost predicate Managing(op: Op) {
    op.Create? || op.Update? || op.Publish? || op.Add? || op.Change? || op.Delete? || op.Reorder?
  }

  /** The course the request is about, if what it names exists. */
  ghost function CourseFor(s: Store, op: Op): Option<string>
    requires Managing(op)
  {
    if op.Create? then Some(op.courseId)
    else if op.Update? || op.Publish? || op.Add? || op.Reorder? then
      if op.quizId in s.quizzes then Some(s.quizzes[op.quizId].courseId) else None
    else
      if op.questionId in s.questions && s.questions[op.questionId].quizId in s.quizzes
        then Some(s.quizzes[s.questions[op.questionId].quizId].courseId) else None
  }

  ghost predicate PositiveLimit(limit: Option<int>) {
    limit == None || limit.value > 0
  }

  /** Some id is no child's. */
  ghost predicate NamesOther(slots: seq<Slot>, ids: seq<nat>) {
    exists i :: 0 <= i < |ids| && NoChild(slots, ids[i])
  }

  ghost predicate NoChild(slots: seq<Slot>, id: nat) {
    forall k :: 0 <= k < |slots| ==> slots[k].id != id
  }

  /** A child that is not named stands at one of the positions the named ones are to take. */
  ghost predicate HoldsPlace(slots: seq<Slot>, ids: seq<nat>) {
    exists k :: 0 <= k < |slots| && slots[k].id !in ids && slots[k].position < |ids|
  }

  /** No answer to the question could be right, or an option is blank. */
  ghost predicate Unanswerable(questionType: QuestionType, options: seq<QuizOption>, correctAnswer: string) {
    match questionType
    case Mcq =>
      || |options| < 2
      || (exists i :: 0 <= i < |options| && TrimSpace(options[i].text) == "")
      || (forall i :: 0 <= i < |options| ==> !options[i].isCorrect)
    case ShortAnswer => TrimSpace(correctAnswer) == ""
    case OtherType(_) => true
  }

  lemma KeyOrUnanswerable(questionType: QuestionType, options: seq<QuizOption>, correctAnswer: string)
    ensures HasKey(questionType, options, correctAnswer) <==> !Unanswerable(questionType, options, correctAnswer)
  {
    if i :| 0 <= i < |options| && TrimSpace(options[i].text) == "" { assert options[i] in options; }
    if i :| 0 <= i < |options| && options[i].isCorrect { assert options[i] in options; }
  }

  /** The request asks for something that is not allowed. */
  ghost predicate Malformed(s: Store, op: Op)
    requires Managing(op)
  {
    match op
    case Create(_, _, title, _, _, _, _, _, _) => TrimSpace(title) == ""
    case Update(_, _, _, _, _, _, newPass, _, _) => newPass.Some? && (newPass.value < 0 || newPass.value > 100)
    case Publish(_, quizId, _) => SlotsOf(s, quizId) == []
    case Add(_, _, questionType, prompt, _, options, _, correctAnswer, _) =>
      TrimSpace(prompt) == "" || Unanswerable(questionType, options, correctAnswer)
    case Change(_, questionId, prompt, points, options, _, correctAnswer, _) =>
      TrimSpace(prompt) == "" || points <= 0
        || (questionId in s.questions && Unanswerable(s.questions[questionId].questionType, options, correctAnswer))
    case Delete(_, _, _) => false
    case Reorder(_, quizId, ids, _) => ids == [] || NamesOther(SlotsOf(s, quizId), ids)
    case _ => false
  }

  /** The tables' own checks fail: a limit that is not positive, or a position that a
      question not named holds. */
  ghost predicate Unstorable(s: Store, op: Op)
    requires Managing(op)
  {
    match op
    case Create(_, _, _, _, timeLimit, maxAttempts, _, _, _) => !PositiveLimit(timeLimit) || !PositiveLimit(maxAttempts)
    case Update(_, _, _, _, timeLimit, maxAttempts, _, _, _) => !PositiveLimit(timeLimit) || !PositiveLimit(maxAttempts)
    case Reorder(_, quizId, ids, _) => HoldsPlace(SlotsOf(s, quizId), ids)
    case _ => false
  }

  /** How a managing request is answered, in the order the checks are made. */
  ghost predicate AnsweredRight(s: Store, op: Op, error: Option<Error>)
    requires Managing(op)
  {
    var course := CourseFor(s, op);
    && (error == Some(NotFound) <==> course == None || course.value !in s.courses)
    && (error == Some(Forbidden) <==>
        course.Some? && course.value in s.courses && !Manages(s, op.actor, course.value, op.admin))
    && (error == Some(Validation) <==>
        course.Some? && Manages(s, op.actor, course.value, op.admin) && Malformed(s, op))
    && (error == Some(Internal) <==>
        course.Some? && Manages(s, op.actor, course.value, op.admin) && !Malformed(s, op) && Unstorable(s, op))
    && (error == None <==>
        course.Some? && Manages(s, op.actor, course.value, op.admin) && !Malformed(s, op) && !Unstorable(s, op))
  }

  lemma CreateAnswers(fold: char -> char, s: Store, op: Op)
    requires op.Create?
    ensures AnsweredRight(s, op, Step(fold, s, op).1)
  {
    hide Step;
    CreateStep(fold, s, op);
  }

  lemma UpdateAnswers(fold: char -> char, s: Store, op: Op)
    requires op.Update?
    ensures AnsweredRight(s, op, Step(fold, s, op).1)
  {
    hide Step;
    UpdateStep(fold, s, op);
  }

  lemma PublishAnswers(fold: char -> char, s: Store, op: Op)
    requires Inv(s) && op.Publish?
    ensures AnsweredRight(s, op, Step(fold, s, op).1)
  {
    hide Step, IdsOk, QuestionsOk, AttemptsOk, Numbered, AnswersOk, Rows;
    PublishStep(fold, s, op);
    if op.quizId in s.quizzes {
      assert ListsQuestionsOf(s.questions, op.quizId, SlotsOf(s, op.quizId));
      RowsAre(s.questions, SlotsOf(s, op.quizId));
    }
  }

  lemma QuestionAnswers(fold: char -> char, s: Store, op: Op)
    requires WellFormedOp(op) && (op.Add? || op.Change? || op.Delete?)
    ensures AnsweredRight(s, op, Step(fold, s, op).1)
  {
    hide Step, HasKey, Unanswerable;
    if op.Add? {
      AddStep(fold, s, op);
      KeyOrUnanswerable(op.questionType, op.options, op.correctAnswer);
    } else if op.Change? {
      ChangeStep(fold, s, op);
      if op.questionId in s.questions {
        KeyOrUnanswerable(s.questions[op.questionId].questionType, op.options, op.correctAnswer);
      }
    } else {
      DeleteStep(fold, s, op);
    }
  }

  lemma ChildrenAre(slots: seq<Slot>, id: nat)
    ensures id !in Ids(slots) <==> NoChild(slots, id)
  {
    if id in Ids(slots) {
      var k :| 0 <= k < |slots| && Ids(slots)[k] == id;
      assert slots[k].id == id;
    }
    forall k | 0 <= k < |slots| && id !in Ids(slots) ensures slots[k].id != id {
      assert Ids(slots)[k] == slots[k].id;
    }
  }

  lemma PlaceHeld(slots: seq<Slot>, ids: seq<nat>)
    requires forall i :: 0 <= i < |slots| ==> slots[i].position >= 0
    ensures Taken(Unlisted(slots, ids), |ids|) <==> HoldsPlace(slots, ids)
  {
    UnlistedMembers(slots, ids);
    var others := Unlisted(slots, ids);
    if k :| 0 <= k < |slots| && slots[k].id !in ids && slots[k].position < |ids| {
      assert slots[k] in others;
      var i :| 0 <= i < |others| && others[i] == slots[k];
    }
    if Taken(others, |ids|) {
      var i :| 0 <= i < |others| && 0 <= others[i].position < |ids|;
      assert others[i] in slots;
    }
  }

  lemma ReorderRefused(slots: seq<Slot>, ids: seq<nat>)
    requires forall i :: 0 <= i < |slots| ==> slots[i].position >= 0
    ensures Reordered(slots, ids).Err? <==> ids == [] || NamesOther(slots, ids) || HoldsPlace(slots, ids)
    ensures Reordered(slots, ids).Err? ==>
      Reordered(slots, ids).error == if ids == [] || NamesOther(slots, ids) then Validation else Internal
  {
    PlaceHeld(slots, ids);
    forall i | 0 <= i < |ids| ensures ids[i] !in Ids(slots) <==> NoChild(slots, ids[i]) {
      ChildrenAre(slots, ids[i]);
    }
  }

  lemma ReorderAnswers(fold: char -> char, s: Store, op: Op)
    requires Inv(s) && op.Reorder?
    ensures AnsweredRight(s, op, Step(fold, s, op).1)
  {
    hide Step, Reordered, QuestionsOk, AttemptsOk, Numbered, AnswersOk, NamesOther, HoldsPlace;
    ReorderStep(fold, s, op);
    if op.quizId in s.quizzes {
      assert ListsQuestionsOf(s.questions, op.quizId, SlotsOf(s, op.quizId));
      ReorderRefused(SlotsOf(s, op.quizId), op.ids);
    }
  }

  /** Every managing request is answered so: missing things before permission, permission
      before the content of the request, and that before what the tables refuse. */
  lemma ManagingAnswered(fold: char -> char, s: Store, op: Op)
    requires Inv(s) && WellFormedOp(op) && Managing(op)
    ensures AnsweredRight(s, op, Step(fold, s, op).1)
  {
    hide Step, AnsweredRight;
    if op.Create? {
      CreateAnswers(fold, s, op);
    } else if op.Update? {
      UpdateAnswers(fold, s, op);
    } else if op.Publish? {
      PublishAnswers(fold, s, op);
    } else if op.Reorder? {
      ReorderAnswers(fold, s, op);
    } else {
      QuestionAnswers(fold, s, op);
    }
  }

  // --- what managing leaves to read ------------------------------------------------------------

  lemma NothingListed(s: Store)
    ensures Rows(s.questions, []) == []
  {
  }

  /** A new quiz is a draft with the values given, no questions, and 60 percent to pass if
      the mark given is no percentage. */
  lemma CreatedQuiz(fold: char -> char, s: Store, op: Op)
    requires op.Create? && Step(fold, s, op).1 == None
    ensures GetQuiz(Step(fold, s, op).0, op.actor, s.nextId, op.admin)
      == Ok(QuizView(Quiz(s.nextId, op.courseId, TrimSpace(op.title), TrimSpace(op.description), Draft, op.timeLimit,
                          op.maxAttempts, if 0 <= op.pass <= 100 then op.pass else 60, op.shuffle), []))
  {
    hide Step;
    CreateStep(fold, s, op);
    NothingListed(Step(fold, s, op).0);
  }

  /** An edited quiz has the values given; a blank title, a missing mark and a missing
      shuffle flag leave what was there. */
  lemma UpdatedQuiz(fold: char -> char, s: Store, op: Op)
    requires op.Update? && Step(fold, s, op).1 == None
    ensures var before := s.quizzes[op.quizId];
      op.quizId in s.quizzes
      && GetQuiz(Step(fold, s, op).0, op.actor, op.quizId, op.admin)
         == Ok(QuizView(Quiz(before.id, before.courseId,
                             if TrimSpace(op.title) == "" then before.title else TrimSpace(op.title),
                             TrimSpace(op.description), before.status, op.timeLimit, op.maxAttempts,
                             if op.newPass.Some? then op.newPass.value else before.passPercent,
                             if op.newShuffle.Some? then op.newShuffle.value else before.shuffle),
                        ListByQuiz(s, op.quizId)))
  {
    hide Step, Rows;
    UpdateStep(fold, s, op);
  }

  /** A published quiz is there for everybody actively enrolled, with nothing else changed. */
  lemma PublishedQuiz(fold: char -> char, s: Store, op: Op, learner: string)
    requires op.Publish? && Step(fold, s, op).1 == None
    ensures op.quizId in s.quizzes
    ensures ActiveIn(s, learner, s.quizzes[op.quizId].courseId) ==>
      GetQuiz(Step(fold, s, op).0, learner, op.quizId, false).Ok?
    ensures GetQuiz(Step(fold, s, op).0, op.actor, op.quizId, op.admin)
      == Ok(QuizView(s.quizzes[op.quizId].(status := Published), ListByQuiz(s, op.quizId)))
  {
    hide Step, Rows;
    PublishStep(fold, s, op);
  }

  /** The options as given, with an id made up exactly where there was none. */
  ghost predicate OptionsAre(stored: seq<QuizOption>, options: seq<QuizOption>, generated: seq<string>)
    requires |generated| == |options|
  {
    && |stored| == |options|
    && forall i :: 0 <= i < |options| ==>
         && stored[i].text == options[i].text && stored[i].isCorrect == options[i].isCorrect
         && stored[i].id == if TrimSpace(options[i].id) == "" then generated[i] else options[i].id
  }

  /** The question has the values given. */
  ghost predicate QuestionIs(q: Question, questionType: QuestionType, prompt: string, points: int,
                             options: seq<QuizOption>, generated: seq<string>, correctAnswer: string)
    requires |generated| == |options|
  {
    && q.questionType == questionType && q.prompt == TrimSpace(prompt) && q.points == points
    && OptionsAre(q.options, options, generated) && q.correctAnswer == TrimSpace(correctAnswer)
  }

  lemma RowsGrow(s: Store, quizId: nat, q: Question, slot: Slot)
    requires Inv(s) && quizId in s.quizzes && slot.id == s.nextId
    ensures Rows(s.questions[s.nextId := q], SlotsOf(s, quizId) + [slot]) == ListByQuiz(s, quizId) + [q]
  {
    var slots := SlotsOf(s, quizId);
    assert ListsQuestionsOf(s.questions, quizId, slots);
    RowsSame(s.questions, s.questions[s.nextId := q], slots);
    assert (slots + [slot])[..|slots|] == slots;
  }

  /** The quiz then shows its managers the new question last, with the values given, worth
      one point if the points given are not positive. */
  lemma AddedQuestion(fold: char -> char, s: Store, op: Op)
    requires Inv(s) && WellFormedOp(op) && op.Add? && Step(fold, s, op).1 == None
    ensures op.quizId in s.quizzes
    ensures var view := GetQuiz(Step(fold, s, op).0, op.actor, op.quizId, op.admin);
      && view.Ok? && view.value.quiz == s.quizzes[op.quizId]
      && |view.value.questions| == |ListByQuiz(s, op.quizId)| + 1
      && (var q := view.value.questions[|ListByQuiz(s, op.quizId)|];
          && view.value.questions == ListByQuiz(s, op.quizId) + [q]
          && q.id == s.nextId && q.quizId == op.quizId
          && QuestionIs(q, op.questionType, op.prompt, if op.points > 0 then op.points else 1, op.options, op.generated,
                        op.correctAnswer))
  {
    hide Step, HasKey, Rows, Inv;
    AddStep(fold, s, op);
    var q := NewQuestion(s, op.quizId, op.questionType, op.prompt, op.points, op.options, op.generated,
                         op.correctAnswer);
    RowsGrow(s, op.quizId, q, Slot(s.nextId, NextPosition(SlotsOf(s, op.quizId))));
  }

  lemma {:induction false} RowsChange(questions: map<nat, Question>, q: Question, slots: seq<Slot>)
    requires q.id in questions && forall i :: 0 <= i < |slots| ==> slots[i].id in questions
    ensures |Rows(questions[q.id := q], slots)| == |Rows(questions, slots)| == |slots|
    ensures forall i :: 0 <= i < |slots| ==>
      Rows(questions[q.id := q], slots)[i] == if slots[i].id == q.id then q else Rows(questions, slots)[i]
  {
    if slots != [] { RowsChange(questions, q, slots[..|slots| - 1]); }
  }

  /** A changed question keeps its type, its quiz and its place in it and has the values
      given; the other questions are as they were. */
  lemma ChangedQuestion(fold: char -> char, s: Store, op: Op)
    requires Inv(s) && WellFormedOp(op) && op.Change? && Step(fold, s, op).1 == None
    ensures op.questionId in s.questions
    ensures var before := s.questions[op.questionId];
      var stored := ListByQuiz(s, before.quizId);
      var view := GetQuiz(Step(fold, s, op).0, op.actor, before.quizId, op.admin);
      && before.quizId in s.quizzes && view.Ok? && view.value.quiz == s.quizzes[before.quizId]
      && |view.value.questions| == |stored|
      && forall i :: 0 <= i < |stored| ==>
           var q := view.value.questions[i];
           if stored[i].id == op.questionId then
             q.id == op.questionId && q.quizId == before.quizId
             && QuestionIs(q, before.questionType, op.prompt, op.points, op.options, op.generated, op.correctAnswer)
           else q == stored[i]
  {
    hide Step, HasKey, Rows, IdsOk, QuestionsOk, AttemptsOk, Numbered, AnswersOk, QuestionIs;
    ChangeStep(fold, s, op);
    StoredIdIs(s, op.questionId);
    var before := s.questions[op.questionId];
    var q := Changed(before, op.prompt, op.points, op.options, op.generated, op.correctAnswer);
    var slots := SlotsOf(s, before.quizId);
    assert ListsQuestionsOf(s.questions, before.quizId, slots);
    RowsAre(s.questions, slots);
    RowsChange(s.questions, q, slots);
    forall i | 0 <= i < |slots| ensures s.questions[slots[i].id].id == slots[i].id { StoredIdIs(s, slots[i].id); }
    ChangedIs(before, op.prompt, op.points, op.options, op.generated, op.correctAnswer);
  }

  lemma StoredIdIs(s: Store, questionId: nat)
    requires Inv(s) && questionId in s.questions
    ensures s.questions[questionId].id == questionId
  {
  }

  lemma ChangedIs(before: Question, prompt: string, points: int, options: seq<QuizOption>, generated: seq<string>,
                  correctAnswer: string)
    requires |generated| == |options|
    ensures var q := Changed(before, prompt, points, options, generated, correctAnswer);
      q.id == before.id && q.quizId == before.quizId
      && QuestionIs(q, before.questionType, prompt, points, options, generated, correctAnswer)
  {
  }

  lemma {:induction false} UnlistedOne(slots: seq<Slot>, k: nat)
    requires k < |slots| && forall i, j :: 0 <= i < j < |slots| ==> slots[i].id != slots[j].id
    ensures Unlisted(slots, [slots[k].id]) == slots[..k] + slots[k + 1..]
  {
    var n := |slots| - 1;
    if k < n {
      UnlistedOne(slots[..n], k);
      assert slots[k + 1..] == slots[..n][k + 1..] + [slots[n]];
    } else {
      NothingUnlisted(slots[..n], slots[n].id);
      assert slots[k + 1..] == [];
    }
  }

  lemma {:induction false} RowsConcat(questions: map<nat, Question>, a: seq<Slot>, b: seq<Slot>)
    ensures Rows(questions, a + b) == Rows(questions, a) + Rows(questions, b)
  {
    if b == [] {
      assert a + b == a;
    } else {
      var n := |b| - 1;
      assert (a + b)[..|a + b| - 1] == a + b[..n];
      RowsConcat(questions, a, b[..n]);
    }
  }

  lemma Around(x: seq<Question>, q: Question, y: seq<Question>)
    ensures (x + [q] + y)[..|x|] == x && (x + [q] + y)[|x| + 1..] == y
  {
  }

  lemma RowsOfOthers(questions: map<nat, Question>, slots: seq<Slot>, id: nat)
    requires forall i :: 0 <= i < |slots| ==> slots[i].id in questions && slots[i].id != id
    ensures Rows(questions - {id}, slots) == Rows(questions, slots)
  {
    RowsSame(questions, questions - {id}, slots);
  }

  lemma OneRow(questions: map<nat, Question>, slot: Slot)
    requires slot.id in questions
    ensures Rows(questions, [slot]) == [questions[slot.id]]
  {
    RowsAre(questions, [slot]);
  }

  /** The rows before, of and after one place. */
  lemma RowsAround(questions: map<nat, Question>, before: seq<Slot>, slot: Slot, after: seq<Slot>)
    requires slot.id in questions
    ensures Rows(questions, before + [slot] + after)
      == Rows(questions, before) + [questions[slot.id]] + Rows(questions, after)
  {
    hide Rows;
    OneRow(questions, slot);
    RowsConcat(questions, before + [slot], after);
    RowsConcat(questions, before, [slot]);
  }

  lemma RowsWithout(questions: map<nat, Question>, slots: seq<Slot>, k: nat)
    requires k < |slots| && forall i, j :: 0 <= i < j < |slots| ==> slots[i].id != slots[j].id
    requires forall i :: 0 <= i < |slots| ==> slots[i].id in questions
    ensures var rows := Rows(questions, slots);
      k < |rows| && Rows(questions - {slots[k].id}, slots[..k] + slots[k + 1..]) == rows[..k] + rows[k + 1..]
  {
    var before, after, id := slots[..k], slots[k + 1..], slots[k].id;
    RowsOfOthers(questions, before, id);
    RowsOfOthers(questions, after, id);
    RowsAre(questions, before);
    RowsConcat(questions - {id}, before, after);
    RowsAround(questions, before, slots[k], after);
    hide Rows;
    assert slots == before + [slots[k]] + after;
    Around(Rows(questions, before), questions[id], Rows(questions, after));
  }

  /** A deleted question is gone from its quiz, and the others stay in their order. */
  lemma DeletedQuestion(fold: char -> char, s: Store, op: Op)
    requires Inv(s) && QuizRuns.AllListed(s) && op.Delete? && Step(fold, s, op).1 == None
    ensures op.questionId in s.questions
    ensures var quizId := s.questions[op.questionId].quizId;
      var stored := ListByQuiz(s, quizId);
      exists k :: 0 <= k < |stored| && stored[k].id == op.questionId
        && ListByQuiz(Step(fold, s, op).0, quizId) == stored[..k] + stored[k + 1..]
  {
    hide Step, Rows;
    DeleteStep(fold, s, op);
    var quizId := s.questions[op.questionId].quizId;
    var slots := SlotsOf(s, quizId);
    assert Listed(s.order, s.questions[op.questionId]);
    var k :| 0 <= k < |slots| && slots[k].id == op.questionId;
    assert ListsQuestionsOf(s.questions, quizId, slots);
    UnlistedOne(slots, k);
    RowsWithout(s.questions, slots, k);
    RowsAre(s.questions, slots);
    assert ListByQuiz(s, quizId)[k].id == op.questionId;
  }

  // --- attempts ----------------------------------------------------------------------------------

  /** The attempt exists and is the learner's own. */
  ghost predicate Own(s: Store, actor: string, attemptId: nat) {
    attemptId in s.attempts && s.attempts[attemptId].userId == actor
  }

  ghost predicate OwnOpen(s: Store, actor: string, attemptId: nat) {
    Own(s, actor, attemptId) && s.attempts[attemptId].status == InProgress
  }

  /** The attempt, its quiz and its course exist. */
  ghost predicate HasCourse(s: Store, attemptId: nat) {
    attemptId in s.attempts && Present(s, s.attempts[attemptId].quizId)
  }

  /** The actor manages the course of the attempt. */
  ghost predicate ManagesAttempt(s: Store, actor: string, attemptId: nat, admin: bool) {
    HasCourse(s, attemptId) && Manages(s, actor, s.quizzes[s.attempts[attemptId].quizId].courseId, admin)
  }

  /** An attempt is shown, with its answers, to its learner and to those who manage the
      course, and to nobody else. */
  lemma WhoSeesAnAttempt(s: Store, actor: string, attemptId: nat, admin: bool)
    requires Inv(s)
    ensures var r := GetAttempt(s, actor, attemptId, admin);
      if !HasCourse(s, attemptId) then r == Err(NotFound)
      else if Own(s, actor, attemptId) || ManagesAttempt(s, actor, attemptId, admin) then
        r == Ok(View(s.attempts[attemptId], s.answers[attemptId]))
      else r == Err(Forbidden)
  {
  }

  /** Somebody else's attempts might read differently: whoever neither made them nor manages
      the course sees no difference. */
  lemma OthersAttemptsInvisible(s: Store, t: Store, actor: string, attemptId: nat)
    requires Inv(s) && Inv(t) && t == s.(attempts := t.attempts, answers := t.answers)
    requires s.attempts.Keys == t.attempts.Keys
    requires forall id :: id in s.attempts ==>
      && t.attempts[id].quizId == s.attempts[id].quizId && t.attempts[id].userId == s.attempts[id].userId
      && (s.attempts[id].userId == actor || ManagesAttempt(s, actor, id, false) ==>
            t.attempts[id] == s.attempts[id] && t.answers[id] == s.answers[id])
    ensures GetAttempt(s, actor, attemptId, false) == GetAttempt(t, actor, attemptId, false)
  {
    hide IdsOk, OrderOk, QuestionsOk, Numbered;
  }

  ghost predicate HasOpen(s: Store, actor: string, quizId: nat) {
    exists id :: OwnOpen(s, actor, id) && s.attempts[id].quizId == quizId
  }

  lemma OpenIsOpen(s: Store, actor: string, quizId: nat)
    ensures HasOpen(s, actor, quizId) <==> OpenIds(s.attempts, quizId, actor) != {}
    ensures forall id :: id in OpenIds(s.attempts, quizId, actor) ==>
      OwnOpen(s, actor, id) && s.attempts[id].quizId == quizId
  {
    if id :| OwnOpen(s, actor, id) && s.attempts[id].quizId == quizId {
      assert id in OpenIds(s.attempts, quizId, actor);
    }
  }

  /** How many attempts at the quiz the learner has made. */
  ghost function Made(s: Store, actor: string, quizId: nat): nat {
    |set id | id in s.attempts && s.attempts[id].quizId == quizId && s.attempts[id].userId == actor|
  }

  ghost predicate AttemptsLeft(s: Store, actor: string, quizId: nat)
    requires quizId in s.quizzes
  {
    var limit := s.quizzes[quizId].maxAttempts;
    limit == None || Made(s, actor, quizId) < limit.value
  }

  /** Starting: an open attempt is given back; otherwise a new one needs a published quiz,
      an active enrollment and an attempt left. */
  lemma StartAnswers(s: Store, actor: string, quizId: nat, now: int)
    requires Inv(s)
    ensures var (s', r) := StartAttempt(s, actor, quizId, now);
      if quizId !in s.quizzes then r == Err(NotFound)
      else if s.quizzes[quizId].status == Draft then r == Err(Validation)
      else if !ActiveIn(s, actor, s.quizzes[quizId].courseId) then r == Err(Forbidden)
      else if HasOpen(s, actor, quizId) then
        s' == s && r.Ok? && OwnOpen(s, actor, r.value.id) && r.value == s.attempts[r.value.id]
          && r.value.quizId == quizId
      else if !AttemptsLeft(s, actor, quizId) then r == Err(Conflict)
      else
        && r == Ok(Attempt(s.nextId, quizId, actor, Made(s, actor, quizId) + 1, InProgress, 0, 0, 0, false, now, None,
                           None))
        && s'.attempts == s.attempts[s.nextId := r.value] && s'.answers == s.answers[s.nextId := []]
  {
    hide HasOpen, OrderOk, QuestionsOk, AttemptsOk, Numbered, AnswersOk;
    OpenIsOpen(s, actor, quizId);
    assert AttemptIds(s.attempts, quizId, actor)
      == set id | id in s.attempts && s.attempts[id].quizId == quizId && s.attempts[id].userId == actor;
  }

  ghost predicate InTime(s: Store, attemptId: nat, now: int)
    requires Inv(s) && attemptId in s.attempts
  {
    var limit := s.quizzes[s.attempts[attemptId].quizId].timeLimitSeconds;
    limit == None || now - s.attempts[attemptId].startedAt <= limit.value * 1_000_000_000
  }

  /** Each answer is to a question of the attempt's quiz. */
  ghost predicate ToOwnQuestions(s: Store, attemptId: nat, saved: seq<Answer>)
    requires attemptId in s.attempts
  {
    forall i :: 0 <= i < |saved| ==>
      saved[i].questionId in s.questions && s.questions[saved[i].questionId].quizId == s.attempts[attemptId].quizId
  }

  lemma QuestionsListed(s: Store, quizId: nat, questionId: nat)
    requires Inv(s) && QuizRuns.AllListed(s) && quizId in s.quizzes
    ensures questionId in QuestionIds(ListByQuiz(s, quizId)) <==>
      questionId in s.questions && s.questions[questionId].quizId == quizId
  {
    ListedQuestions(s, quizId);
    var rows, slots := ListByQuiz(s, quizId), SlotsOf(s, quizId);
    if questionId in s.questions && s.questions[questionId].quizId == quizId {
      assert Listed(s.order, s.questions[questionId]);
      var i :| 0 <= i < |slots| && slots[i].id == questionId;
      assert ListsQuestionsOf(s.questions, quizId, slots);
      RowsAre(s.questions, slots);
      assert rows[i].id == questionId;
    }
    if questionId in QuestionIds(rows) {
      var i :| 0 <= i < |rows| && rows[i].id == questionId;
      assert rows[i] in rows;
    }
  }

  ghost predicate Repeats(saved: seq<Answer>) {
    exists i, j :: 0 <= i < j < |saved| && saved[i].questionId == saved[j].questionId
  }

  lemma OneEach(saved: seq<Answer>)
    ensures OneAnswerEach(saved) <==> !Repeats(saved)
  {
  }

  /** Saving: only the learner, only while the attempt is open and in time, only answers to
      questions of the quiz and one each. The last check is whether the course is there. */
  lemma SaveAnswered(s: Store, actor: string, attemptId: nat, saved: seq<Answer>, now: int)
    requires Inv(s) && QuizRuns.AllListed(s)
    ensures var (s', r) := SaveAnswers(s, actor, attemptId, saved, now);
      if attemptId !in s.attempts then r == Err(NotFound)
      else if !Own(s, actor, attemptId) then r == Err(Forbidden)
      else if !OwnOpen(s, actor, attemptId) || !InTime(s, attemptId, now) then r == Err(Conflict)
      else if !ToOwnQuestions(s, attemptId, saved) then r == Err(Validation)
      else if Repeats(saved) then r == Err(Conflict)
      else if !HasCourse(s, attemptId) then r == Err(NotFound)
      else r == Ok(View(s.attempts[attemptId], s'.answers[attemptId]))
           && Records(s'.answers[attemptId], attemptId, saved)
  {
    hide OrderOk, QuestionsOk, Numbered, IdsOk, ListByQuiz, QuestionIds, OneAnswerEach;
    OneEach(saved);
    if attemptId in s.attempts {
      forall i | 0 <= i < |saved|
        ensures saved[i].questionId in QuestionIds(ListByQuiz(s, s.attempts[attemptId].quizId)) <==>
          && saved[i].questionId in s.questions
          && s.questions[saved[i].questionId].quizId == s.attempts[attemptId].quizId
      {
        QuestionsListed(s, s.attempts[attemptId].quizId, saved[i].questionId);
      }
    }
  }

  /** Submitting: only the learner, only while the attempt is open, and not twice. */
  lemma SubmitAnswered(fold: char -> char, s: Store, actor: string, attemptId: nat, now: int, updateFails: bool)
    requires Inv(s)
    ensures var (s', r) := SubmitAttempt(fold, s, actor, attemptId, now, updateFails);
      if attemptId !in s.attempts then r == Err(NotFound)
      else if !Own(s, actor, attemptId) then r == Err(Forbidden)
      else if !OwnOpen(s, actor, attemptId) then r == Err(Conflict)
      else if updateFails then r == Err(Internal)
      else if !HasCourse(s, attemptId) then r == Err(NotFound)
      else r == Ok(View(s'.attempts[attemptId], s'.answers[attemptId]))
  {
    hide GradedAnswers, IdsOk, OrderOk, QuestionsOk, Numbered, Rows, Percent, SumAwarded, SumPoints;
  }

  lemma AnswersThere(s: Store, id: nat)
    requires Inv(s) && id in s.attempts
    ensures id in s.answers && ListByAttempt(s, id) == s.answers[id]
  {
  }

  lemma SaveWritesOwn(s: Store, actor: string, attemptId: nat, saved: seq<Answer>, now: int)
    ensures SaveAnswers(s, actor, attemptId, saved, now).0 != s ==> OwnOpen(s, actor, attemptId)
  {
    hide CleanedAll, OneAnswerEach;
  }

  lemma SubmitWritesOwn(fold: char -> char, s: Store, actor: string, attemptId: nat, now: int, updateFails: bool)
    ensures SubmitAttempt(fold, s, actor, attemptId, now, updateFails).0 != s ==> OwnOpen(s, actor, attemptId)
  {
    hide GradedAnswers, Finished;
  }

  /** An attempt changes only when its learner submits it, and its answers only when its
      learner saves or submits while it is open, or when somebody managing the course deletes
      an answered question. */
  lemma OnlyTheLearnerWrites(fold: char -> char, s: Store, op: Op, id: nat)
    requires Inv(s) && WellFormedOp(op) && id in s.attempts
    ensures var s' := Step(fold, s, op).0;
      && id in s'.attempts && id in s.answers && id in s'.answers
      && (s'.attempts[id] != s.attempts[id] ==> op.Submit? && op.attemptId == id && OwnOpen(s, op.actor, id))
      && (s'.answers[id] != s.answers[id] ==>
            || ((op.Save? || op.Submit?) && op.attemptId == id && OwnOpen(s, op.actor, id))
            || (op.Delete? && ManagesAttempt(s, op.actor, id, op.admin)
                && exists i :: 0 <= i < |s.answers[id]| && s.answers[id][i].questionId == op.questionId))
  {
    hide Step, Inv, ListByAttempt, SaveAnswers, SubmitAttempt, ManagesAttempt;
    StepKeepsInv(fold, s, op);
    StepAttempts(fold, s, op);
    AnswersThere(s, id);
    AnswersThere(Step(fold, s, op).0, id);
    if op.Save? && op.attemptId == id {
      SaveStep(fold, s, op);
      SaveWritesOwn(s, op.actor, id, op.saved, op.now);
    } else if op.Submit? && op.attemptId == id {
      SubmitStep(fold, s, op);
      SubmitWritesOwn(fold, s, op.actor, id, op.now, op.updateFails);
    } else {
      StepAnswers(fold, s, op, id);
      if op.Delete? && Step(fold, s, op).0.answers[id] != s.answers[id] { DeletionTouches(fold, s, op, id); }
    }
  }

  lemma DeletionTouches(fold: char -> char, s: Store, op: Op, id: nat)
    requires Inv(s) && op.Delete? && id in s.attempts && id in s.answers
    requires Step(fold, s, op).0 != s && AnswersWithout(s.answers[id], op.questionId) != s.answers[id]
    ensures ManagesAttempt(s, op.actor, id, op.admin)
    ensures exists i :: 0 <= i < |s.answers[id]| && s.answers[id][i].questionId == op.questionId
  {
    hide Step;
    DeleteStep(fold, s, op);
    if forall i :: 0 <= i < |s.answers[id]| ==> s.answers[id][i].questionId != op.questionId {
      NothingToRemove(s.answers[id], op.questionId);
    }
    var i :| 0 <= i < |s.answers[id]| && s.answers[id][i].questionId == op.questionId;
    assert AnswersFor(s.answers[id], s.attempts[id].quizId, s.questions);
  }
}
