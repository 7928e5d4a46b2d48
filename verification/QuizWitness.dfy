/** Runs from the empty store that show what the assessment service does not keep. */
module QuizWitness {
  import opened Common
  import opened Enrollments
  import opened Grading
  import opened Positions
  import opened QuizStore
  import T = Transcript
  import V = Verdicts

  const COURSE := SetCourse("c", Some("t"))
  const SEAT := SetEnrollment("c", "u", Active)
  const CREATE := Create("t", "c", "q", "", None, None, 60, false, false)
  const ADD := Add("t", 0, ShortAnswer, "p", 1, [], [], "k", false)
  const PUBLISH := QuizStore.Op.Publish("t", 0, false)
  const START := Start("u", 0, 0)
  const SUBMIT := Submit("u", 2, 1, false)
  const DELETE := Delete("t", 1, false)
  const LOWER := Update("t", 0, "", "", None, None, Some(0), None, false)
  const AGAIN := Start("u", 0, 2)
  const RESUBMIT := Submit("u", 3, 3, false)

  const DRAFT := Quiz(0, "c", "q", "", QuizStatus.Draft, None, None, 60, false)
  const QUIZ := Quiz(0, "c", "q", "", Published, None, None, 60, false)
  const QUESTION := Question(1, 0, ShortAnswer, "p", 1, [], "k")

  /** The store with the course, the learner, a published quiz of one question, and the
      given attempts and answers. */
  function Classroom(quiz: Quiz, attempts: map<nat, Attempt>, answers: map<nat, seq<Answer>>, nextId: nat): Store {
    Store(map["c" := "t"], map[("c", "u") := Active], map[0 := quiz], map[1 := QUESTION], map[0 := [Slot(1, 0)]],
          attempts, answers, nextId)
  }

  /** The learner's attempts, closed without an answer, under the mark 60 and under 0. */
  const FAILED := Attempt(2, 0, "u", 1, Graded, 0, 1, 0, false, 0, Some(1), Some(1))
  const PASSED := Attempt(3, 0, "u", 2, Graded, 0, 1, 0, true, 2, Some(3), Some(3))

  function GradedBlank(attemptId: nat): Answer {
    Answer(attemptId, 1, [], "", Some(false), 0)
  }

  // --- running step by step -------------------------------------------------------------------

  ghost predicate Reaches(fold: char -> char, ops: seq<Op>, s: Store) {
    WellFormedRun(ops) && Run(fold, EMPTY, ops) == s
  }

  lemma OneMore(fold: char -> char, ops: seq<Op>, s: Store, op: Op, s': Store)
    requires Reaches(fold, ops, s) && WellFormedOp(op) && Step(fold, s, op).0 == s'
    ensures Reaches(fold, ops + [op], s')
  {
    assert (ops + [op])[..|ops|] == ops;
  }

  lemma Trimmed()
    ensures TrimSpace("q") == "q" && TrimSpace("p") == "p" && TrimSpace("k") == "k" && TrimSpace("") == ""
  {
    assert TrimLeft("q") == "q" && TrimLeft("p") == "p" && TrimLeft("k") == "k";
  }

  /** The store with a course and a learner in it. */
  function Enrolled(): Store {
    EMPTY.(courses := map["c" := "t"], enrollments := map[("c", "u") := Active])
  }

  function WithDraft(): Store {
    Enrolled().(quizzes := map[0 := DRAFT], order := map[0 := []], nextId := 1)
  }

  lemma CreateDraft(fold: char -> char)
    ensures Step(fold, Enrolled(), CREATE).0 == WithDraft()
  {
    Trimmed();
    assert CreateQuiz(Enrolled(), "t", "c", "q", "", None, None, 60, false, false).0 == WithDraft();
  }

  lemma AddOne(fold: char -> char)
    ensures Step(fold, WithDraft(), ADD).0 == Classroom(DRAFT, map[], map[], 2)
  {
    hide Step, Classroom, WithQuestion, NewQuestion;
    FirstQuestion();
    var s := WithDraft();
    assert HasKey(ShortAnswer, [], "k") by { Trimmed(); }
    assert AddQuestion(s, "t", 0, ShortAnswer, "p", 1, [], [], "k", false).0 == WithQuestion(s, QUESTION);
    AddStep(fold, s, ADD);
  }

  lemma FirstQuestion()
    ensures NewQuestion(WithDraft(), 0, ShortAnswer, "p", 1, [], [], "k") == QUESTION
    ensures WithQuestion(WithDraft(), QUESTION) == Classroom(DRAFT, map[], map[], 2)
  {
    Trimmed();
    assert WithIds([], []) == [];
    assert SlotsOf(WithDraft(), 0) == [] && NextPosition([]) == 0;
    var s' := WithQuestion(WithDraft(), QUESTION);
    assert s'.questions == map[1 := QUESTION];
    assert [] + [Slot(1, 0)] == [Slot(1, 0)];
    assert s'.order == map[0 := [Slot(1, 0)]];
  }

  lemma Questions(quiz: Quiz, attempts: map<nat, Attempt>, answers: map<nat, seq<Answer>>, nextId: nat)
    ensures ListByQuiz(Classroom(quiz, attempts, answers, nextId), 0) == [QUESTION]
  {
    var slots := [Slot(1, 0)];
    assert slots[..0] == [];
    assert Rows(map[1 := QUESTION], slots) == Rows(map[1 := QUESTION], []) + [QUESTION];
  }

  lemma PublishDraft(fold: char -> char)
    ensures Step(fold, Classroom(DRAFT, map[], map[], 2), PUBLISH).0 == Classroom(QUIZ, map[], map[], 2)
  {
    Questions(DRAFT, map[], map[], 2);
    assert PublishQuiz(Classroom(DRAFT, map[], map[], 2), "t", 0, false).0 == Classroom(QUIZ, map[], map[], 2);
  }

  lemma SetUp(fold: char -> char) returns (ops: seq<Op>)
    ensures Reaches(fold, ops, Classroom(QUIZ, map[], map[], 2))
  {
    OneMore(fold, [], EMPTY, COURSE, EMPTY.(courses := map["c" := "t"]));
    OneMore(fold, [] + [COURSE], EMPTY.(courses := map["c" := "t"]), SEAT, Enrolled());
    CreateDraft(fold);
    OneMore(fold, [] + [COURSE] + [SEAT], Enrolled(), CREATE, WithDraft());
    AddOne(fold);
    OneMore(fold, [] + [COURSE] + [SEAT] + [CREATE], WithDraft(), ADD, Classroom(DRAFT, map[], map[], 2));
    PublishDraft(fold);
    OneMore(fold, [] + [COURSE] + [SEAT] + [CREATE] + [ADD], Classroom(DRAFT, map[], map[], 2), PUBLISH,
            Classroom(QUIZ, map[], map[], 2));
    ops := [] + [COURSE] + [SEAT] + [CREATE] + [ADD] + [PUBLISH];
  }

  // --- an attempt without answers ------------------------------------------------------------------

  /** Starting when no attempt is open. */
  lemma StartOne(fold: char -> char, quiz: Quiz, attempts: map<nat, Attempt>, answers: map<nat, seq<Answer>>,
                 nextId: nat, now: int, number: int)
    requires quiz.courseId == "c" && quiz.status == Published && quiz.maxAttempts == None
    requires OpenIds(attempts, 0, "u") == {} && |AttemptIds(attempts, 0, "u")| + 1 == number
    ensures Step(fold, Classroom(quiz, attempts, answers, nextId), Start("u", 0, now)).0
         == Classroom(quiz, attempts[nextId := Opened(nextId, number, now)], answers[nextId := []], nextId + 1)
  {
    assert StartAttempt(Classroom(quiz, attempts, answers, nextId), "u", 0, now).0
        == Classroom(quiz, attempts[nextId := Opened(nextId, number, now)], answers[nextId := []], nextId + 1);
  }

  function Opened(id: nat, number: int, now: int): Attempt {
    Attempt(id, 0, "u", number, InProgress, 0, 0, 0, false, now, None, None)
  }

  /** Submitting nothing scores 0 out of 1, which passes exactly under the mark 0 or less. */
  lemma SubmitNothing(fold: char -> char, quiz: Quiz, attempts: map<nat, Attempt>, answers: map<nat, seq<Answer>>,
                      nextId: nat,
                      id: nat, number: int, startedAt: int, now: int)
    requires id in attempts && attempts[id] == Opened(id, number, startedAt) && id in answers && answers[id] == []
    ensures Step(fold, Classroom(quiz, attempts, answers, nextId), Submit("u", id, now, false)).0
         == Classroom(quiz,
                      attempts[id := Attempt(id, 0, "u", number, Graded, 0, 1, 0, 0 >= quiz.passPercent, startedAt,
                                             Some(now), Some(now))],
                      answers[id := [GradedBlank(id)]], nextId)
  {
    var s := Classroom(quiz, attempts, answers, nextId);
    Questions(quiz, attempts, answers, nextId);
    Trimmed();
    BlankIsWrong(fold, QUESTION, id, 1);
    var graded := GradedAnswers(fold, id, [QUESTION], []);
    assert graded == [GradedBlank(id)];
    assert graded[..0] == [] && SumAwarded(graded) == 0;
    assert [QUESTION][..0] == [] && SumPoints([QUESTION]) == 1;
    assert SubmitAttempt(fold, s, "u", id, now, false).0.attempts[id]
      == Finished(attempts[id], quiz, [QUESTION], graded, now);
  }

  lemma Begin(fold: char -> char) returns (ops: seq<Op>)
    ensures Reaches(fold, ops, Classroom(QUIZ, map[2 := Opened(2, 1, 0)], map[2 := []], 3))
  {
    hide Step, Reaches, Classroom;
    var before := SetUp(fold);
    StartOne(fold, QUIZ, map[], map[], 2, 0, 1);
    assert map[][2 := Opened(2, 1, 0)] == map[2 := Opened(2, 1, 0)];
    OneMore(fold, before, Classroom(QUIZ, map[], map[], 2), START,
            Classroom(QUIZ, map[2 := Opened(2, 1, 0)], map[2 := []], 3));
    ops := before + [START];
  }

  lemma FirstFails(fold: char -> char) returns (ops: seq<Op>)
    ensures Reaches(fold, ops, Classroom(QUIZ, map[2 := FAILED], map[2 := [GradedBlank(2)]], 3))
  {
    hide Step, Reaches, Classroom;
    var before := Begin(fold);
    SubmitNothing(fold, QUIZ, map[2 := Opened(2, 1, 0)], map[2 := []], 3, 2, 1, 0, 1);
    OneMore(fold, before, Classroom(QUIZ, map[2 := Opened(2, 1, 0)], map[2 := []], 3), SUBMIT,
            Classroom(QUIZ, map[2 := FAILED], map[2 := [GradedBlank(2)]], 3)) by {
      assert map[2 := Opened(2, 1, 0)][2 := FAILED] == map[2 := FAILED];
      assert map[2 := []][2 := [GradedBlank(2)]] == map[2 := [GradedBlank(2)]];
    }
    ops := before + [SUBMIT];
  }

  // --- the witnesses -----------------------------------------------------------------------------------

  /** A graded attempt can lose a stored answer: its question is deleted. */
  lemma GradedAnswerLost(fold: char -> char) returns (ops: seq<Op>, op: Op, id: nat)
    ensures WellFormedRun(ops) && op.Delete? && WellFormedRun(ops + [op])
    ensures var s, s' := Run(fold, EMPTY, ops), Run(fold, EMPTY, ops + [op]);
      && id in s.attempts && s.attempts[id].status == Graded && |ListByAttempt(s, id)| == 1
         && ListByAttempt(s', id) == []
  {
    ops := FirstFails(fold);
    op, id := DELETE, 2;
    var s := Classroom(QUIZ, map[2 := FAILED], map[2 := [GradedBlank(2)]], 3);
    var s' := DeleteQuestion(s, "t", 1, false).0;
    var blank := [GradedBlank(2)];
    assert blank[..0] == [] && AnswersWithout(blank, 1) == [];
    assert Step(fold, s, DELETE).0 == s';
    OneMore(fold, ops, s, DELETE, s');
  }

  /** A published quiz can be left without questions: its only one is deleted. */
  lemma PublishedWithoutQuestions(fold: char -> char) returns (ops: seq<Op>, quizId: nat)
    ensures WellFormedRun(ops)
    ensures var s := Run(fold, EMPTY, ops);
      quizId in s.quizzes && s.quizzes[quizId].status == Published && ListByQuiz(s, quizId) == []
  {
    var before := SetUp(fold);
    var s := Classroom(QUIZ, map[], map[], 2);
    var s' := DeleteQuestion(s, "t", 1, false).0;
    var slots := [Slot(1, 0)];
    assert slots[..0] == [] && Unlisted(slots, [1]) == [];
    assert Step(fold, s, DELETE).0 == s';
    OneMore(fold, before, s, DELETE, s');
    ops, quizId := before + [DELETE], 0;
  }

  /** An open attempt whose course is removed. */
  function Orphaned(): Store {
    Classroom(QUIZ, map[2 := Opened(2, 1, 0)], map[2 := []], 3).(courses := map[])
  }

  const REMOVAL := SetCourse("c", None)
  const ANSWER := Answer(2, 1, [], "k", None, 0)
  const LATER_SAVE := Save("u", 2, [ANSWER], 1)

  lemma RemoveCourse(fold: char -> char) returns (ops: seq<Op>)
    ensures Reaches(fold, ops, Orphaned())
  {
    var before := Begin(fold);
    var s := Classroom(QUIZ, map[2 := Opened(2, 1, 0)], map[2 := []], 3);
    assert s.courses - {"c"} == map[];
    assert Step(fold, s, REMOVAL).0 == Orphaned();
    OneMore(fold, before, s, REMOVAL, Orphaned());
    ops := before + [REMOVAL];
  }

  /** A save can report an error although the answers are stored. */
  lemma FailedSaveWrites(fold: char -> char) returns (ops: seq<Op>)
    ensures WellFormedRun(ops) && var s := Run(fold, EMPTY, ops);
      && Step(fold, s, LATER_SAVE).1.Some?
      && ListByAttempt(s, 2) == [] && ListByAttempt(Step(fold, s, LATER_SAVE).0, 2) == [ANSWER]
  {
    ops := RemoveCourse(fold);
    OrphanedSave();
    SaveStep(fold, Orphaned(), LATER_SAVE);
  }

  lemma OrphanedSave()
    ensures var (s', r) := SaveAnswers(Orphaned(), "u", 2, [ANSWER], 1); r.Err? && ListByAttempt(s', 2) == [ANSWER]
  {
    hide ListByQuiz, QuestionIds, CleanedAll;
    OneCleaned();
    OrphanedQuestions();
  }

  lemma OneCleaned()
    ensures CleanedAll(2, [ANSWER]) == [ANSWER]
  {
    Trimmed();
  }

  lemma OrphanedQuestions()
    ensures 1 in QuestionIds(ListByQuiz(Orphaned(), 0))
  {
    var s := Orphaned();
    Questions(QUIZ, s.attempts, s.answers, 3);
    assert ListByQuiz(s, 0) == [QUESTION] && [QUESTION][0].id == 1;
  }

  /** A submission can report an error although the attempt is graded. */
  lemma FailedSubmissionGrades(fold: char -> char) returns (ops: seq<Op>)
    ensures WellFormedRun(ops) && var s := Run(fold, EMPTY, ops);
      && Step(fold, s, SUBMIT).1.Some? && 2 in s.attempts && s.attempts[2].status == InProgress
      && 2 in Step(fold, s, SUBMIT).0.attempts && Step(fold, s, SUBMIT).0.attempts[2].status == Graded
  {
    ops := RemoveCourse(fold);
    SubmitStep(fold, Orphaned(), SUBMIT);
    assert SubmitAttempt(fold, Orphaned(), "u", 2, 1, false).1.Err?;
  }

  /** Gradebook and transcript can show different verdicts: a learner fails with 0 percent,
      the pass mark is lowered to 0, and the learner passes with 0 percent. The transcript
      shows the first attempt, and the query behind the gradebook may pick the second. */
  lemma TiedVerdictsDiffer(fold: char -> char) returns (ops: seq<Op>)
    ensures WellFormedRun(ops)
    ensures var s := Run(fold, EMPTY, ops);
      && V.Lists([FAILED, PASSED], s, 0, "u")
      && T.ShowsBest(Some(0), Some(false), [FAILED, PASSED]) && T.BestRow(Some(PASSED), [FAILED, PASSED])
         && PASSED.passed
  {
    hide Step, Reaches, Classroom;
    var first := LowerMark(fold);
    var attempts, answers := map[2 := FAILED], map[2 := [GradedBlank(2)]];
    assert AttemptIds(attempts, 0, "u") == {2};
    StartOne(fold, LOWERED, attempts, answers, 3, 2, 2);
    var attempts', answers' := attempts[3 := Opened(3, 2, 2)], answers[3 := []];
    OneMore(fold, first, Classroom(LOWERED, attempts, answers, 3), AGAIN, Classroom(LOWERED, attempts', answers', 4));
    SubmitNothing(fold, LOWERED, attempts', answers', 4, 3, 2, 2, 3);
    OneMore(fold, first + [AGAIN], Classroom(LOWERED, attempts', answers', 4), RESUBMIT,
            Classroom(LOWERED, attempts'[3 := PASSED], answers'[3 := [GradedBlank(3)]], 4));
    ops := first + [AGAIN] + [RESUBMIT];
    BothListed(fold, ops, attempts'[3 := PASSED], answers'[3 := [GradedBlank(3)]]);
  }

  const LOWERED := QUIZ.(passPercent := 0)

  lemma LowerOne(fold: char -> char, attempts: map<nat, Attempt>, answers: map<nat, seq<Answer>>, nextId: nat)
    ensures Step(fold, Classroom(QUIZ, attempts, answers, nextId), LOWER).0
         == Classroom(LOWERED, attempts, answers, nextId)
  {
    hide Step;
    Trimmed();
    var s := Classroom(QUIZ, attempts, answers, nextId);
    assert UpdateQuiz(s, "t", 0, "", "", None, None, Some(0), None, false).0.quizzes == map[0 := LOWERED];
    UpdateStep(fold, s, LOWER);
  }

  lemma LowerMark(fold: char -> char) returns (ops: seq<Op>)
    ensures Reaches(fold, ops, Classroom(LOWERED, map[2 := FAILED], map[2 := [GradedBlank(2)]], 3))
  {
    hide Step, Reaches, Classroom;
    var first := FirstFails(fold);
    var attempts, answers := map[2 := FAILED], map[2 := [GradedBlank(2)]];
    LowerOne(fold, attempts, answers, 3);
    OneMore(fold, first, Classroom(QUIZ, attempts, answers, 3), LOWER, Classroom(LOWERED, attempts, answers, 3));
    ops := first + [LOWER];
  }

  lemma BothListed(fold: char -> char, ops: seq<Op>, attempts: map<nat, Attempt>, answers: map<nat, seq<Answer>>)
    requires Reaches(fold, ops, Classroom(LOWERED, attempts, answers, 4))
    requires attempts.Keys == {2, 3} && attempts[2] == FAILED && attempts[3] == PASSED
    ensures WellFormedRun(ops) && V.Lists([FAILED, PASSED], Run(fold, EMPTY, ops), 0, "u")
    ensures T.ShowsBest(Some(0), Some(false), [FAILED, PASSED]) && T.BestRow(Some(PASSED), [FAILED, PASSED])
  {
    hide Step, Run;
    var both := [FAILED, PASSED];
    assert both[0] == FAILED && both[1] == PASSED;
    assert T.IsBest(both, 0);
    assert PASSED in both;
  }
}
