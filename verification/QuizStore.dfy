/** The tables behind quizzes and attempts, and what each call of the assessment service
    does to them (internal/service/assessment.go over
    internal/repository/postgres/assessment.go and migrations/000011). Every call is one
    atomic step. Row ids come from a counter, so an id is never handed out twice; times
    are nanoseconds. */
module QuizStore {
  import opened Common
  import opened Grading
  import opened Enrollments
  import opened Positions

  datatype QuizStatus = Draft | Published

  datatype Quiz = Quiz(
    id: nat, courseId: string, title: string, description: string, status: QuizStatus,
    timeLimitSeconds: Option<int>, maxAttempts: Option<int>, passPercent: int, shuffle: bool)

  datatype AttemptStatus = InProgress | Graded

  datatype Attempt = Attempt(
    id: nat, quizId: nat, userId: string, number: int, status: AttemptStatus,
    score: int, maxPoints: int, percent: int, passed: bool,
    startedAt: int, submittedAt: Option<int>, gradedAt: Option<int>)

  /** `courses` maps a course to its teacher; `order` lists a quiz's questions by
      position. */
  datatype Store = Store(
    courses: map<string, string>,
    enrollments: map<(string, string), EnrollmentStatus>,
    quizzes: map<nat, Quiz>,
    questions: map<nat, Question>,
    order: map<nat, seq<Slot>>,
    attempts: map<nat, Attempt>,
    answers: map<nat, seq<Answer>>,
    nextId: nat)

  /** An attempt with its answers, as the calls return it. */
  datatype View = View(attempt: Attempt, answers: seq<Answer>)

  // --- queries ---------------------------------------------------------------------

  function Rows(questions: map<nat, Question>, slots: seq<Slot>): seq<Question> {
    if slots == [] then []
    else
      var n := |slots| - 1;
      Rows(questions, slots[..n]) + (if slots[n].id in questions then [questions[slots[n].id]] else [])
  }

  function SlotsOf(s: Store, quizId: nat): seq<Slot> {
    if quizId in s.order then s.order[quizId] else []
  }

  /** A quiz's questions by position. */
  function ListByQuiz(s: Store, quizId: nat): seq<Question> {
    Rows(s.questions, SlotsOf(s, quizId))
  }

  function ListByAttempt(s: Store, attemptId: nat): seq<Answer> {
    if attemptId in s.answers then s.answers[attemptId] else []
  }

  function AttemptIds(attempts: map<nat, Attempt>, quizId: nat, userId: string): set<nat> {
    set id | id in attempts && attempts[id].quizId == quizId && attempts[id].userId == userId
  }

  function OpenIds(attempts: map<nat, Attempt>, quizId: nat, userId: string): set<nat> {
    set id | id in attempts && attempts[id].quizId == quizId && attempts[id].userId == userId
             && attempts[id].status == InProgress
  }

  predicate Enrolled(s: Store, userId: string, courseId: string) {
    (courseId, userId) in s.enrollments && s.enrollments[(courseId, userId)] == Active
  }

  // --- attempts ----------------------------------------------------------------------

  ghost function StartAttempt(s: Store, actor: string, quizId: nat, now: int): (r: (Store, Result<Attempt>))
    ensures r.0 == s.(attempts := r.0.attempts, answers := r.0.answers, nextId := r.0.nextId) && s.nextId <= r.0.nextId
    ensures forall id :: id != s.nextId ==> ListByAttempt(r.0, id) == ListByAttempt(s, id)
  {
    if quizId !in s.quizzes then (s, Err(NotFound))
    else
      var quiz := s.quizzes[quizId];
      if quiz.status != Published then (s, Err(Validation))
      else if !Enrolled(s, actor, quiz.courseId) then (s, Err(Forbidden))
      else if OpenIds(s.attempts, quizId, actor) != {} then
        var id :| id in OpenIds(s.attempts, quizId, actor);
        (s, Ok(s.attempts[id]))
      else
        var count := |AttemptIds(s.attempts, quizId, actor)|;
        if quiz.maxAttempts.Some? && count >= quiz.maxAttempts.value then (s, Err(Conflict))
        else
          var a := Attempt(s.nextId, quizId, actor, count + 1, InProgress, 0, 0, 0, false, now, None, None);
          (s.(attempts := s.attempts[s.nextId := a], answers := s.answers[s.nextId := []], nextId := s.nextId + 1),
           Ok(a))
  }

  /** The attempt for its owner, its course's teacher or an administrator. */
  function GetAttempt(s: Store, actor: string, attemptId: nat, admin: bool): Result<View> {
    if attemptId !in s.attempts then Err(NotFound)
    else
      var a := s.attempts[attemptId];
      if a.quizId !in s.quizzes then Err(NotFound)
      else
        var courseId := s.quizzes[a.quizId].courseId;
        if courseId !in s.courses then Err(NotFound)
        else if !(admin || s.courses[courseId] == actor) && a.userId != actor then Err(Forbidden)
        else Ok(View(a, ListByAttempt(s, attemptId)))
  }

  const SECOND := 1_000_000_000

  predicate PastDeadline(quiz: Quiz, attempt: Attempt, now: int) {
    quiz.timeLimitSeconds.Some? && now > attempt.startedAt + quiz.timeLimitSeconds.value * SECOND
  }

  /** What may be wrong with the call before the answers are looked at. */
  function OpenAttemptError(s: Store, actor: string, attemptId: nat): Option<Error> {
    if attemptId !in s.attempts then Some(NotFound)
    else if s.attempts[attemptId].userId != actor then Some(Forbidden)
    else if s.attempts[attemptId].status != InProgress then Some(Conflict)
    else if s.attempts[attemptId].quizId !in s.quizzes then Some(NotFound)
    else None
  }

  /** An answer as saved: the learner's choice, ungraded. */
  function Cleaned(attemptId: nat, a: Answer): Answer {
    Answer(attemptId, a.questionId, a.selected, TrimSpace(a.text), None, 0)
  }

  function CleanedAll(attemptId: nat, answers: seq<Answer>): (r: seq<Answer>)
    ensures |r| == |answers|
  {
    seq(|answers|, i requires 0 <= i < |answers| => Cleaned(attemptId, answers[i]))
  }

  function QuestionIds(questions: seq<Question>): set<nat> {
    set i | 0 <= i < |questions| :: questions[i].id
  }

  /** The unique index on (attempt, question). */
  ghost predicate OneAnswerEach(answers: seq<Answer>) {
    forall i, j :: 0 <= i < j < |answers| ==> answers[i].questionId != answers[j].questionId
  }

  ghost function SaveAnswers(s: Store, actor: string, attemptId: nat, answers: seq<Answer>, now: int)
    : (r: (Store, Result<View>))
    ensures r.0 == s.(answers := r.0.answers)
    ensures forall id :: id != attemptId ==> ListByAttempt(r.0, id) == ListByAttempt(s, id)
  {
    var error := OpenAttemptError(s, actor, attemptId);
    if error.Some? then (s, Err(error.value))
    else
      var attempt := s.attempts[attemptId];
      if PastDeadline(s.quizzes[attempt.quizId], attempt, now) then (s, Err(Conflict))
      else if exists i :: 0 <= i < |answers| && answers[i].questionId !in QuestionIds(ListByQuiz(s, attempt.quizId))
        then (s, Err(Validation))
      else if !OneAnswerEach(answers) then (s, Err(Conflict))
      else
        var s' := s.(answers := s.answers[attemptId := CleanedAll(attemptId, answers)]);
        (s', GetAttempt(s', actor, attemptId, false))
  }

  /** The attempt once graded at `now` with the given graded answers. */
  function Finished(attempt: Attempt, quiz: Quiz, questions: seq<Question>, graded: seq<Answer>, now: int): Attempt {
    var score, maxPoints := SumAwarded(graded), SumPoints(questions);
    attempt.(status := Graded, score := score, maxPoints := maxPoints, percent := Percent(score, maxPoints),
             passed := Percent(score, maxPoints) >= quiz.passPercent, submittedAt := Some(now), gradedAt := Some(now))
  }

  /** Submitting. The graded answers are stored first and the attempt second; with
      `updateFails` the second write fails and the call stops between the two. */
  function SubmitAttempt(fold: char -> char, s: Store, actor: string, attemptId: nat, now: int, updateFails: bool)
    : (r: (Store, Result<View>))
    ensures r.0 == s.(attempts := r.0.attempts, answers := r.0.answers)
    ensures forall id :: id != attemptId ==> ListByAttempt(r.0, id) == ListByAttempt(s, id)
  {
    var error := OpenAttemptError(s, actor, attemptId);
    if error.Some? then (s, Err(error.value))
    else
      var attempt := s.attempts[attemptId];
      var questions := ListByQuiz(s, attempt.quizId);
      var graded := GradedAnswers(fold, attemptId, questions, ListByAttempt(s, attemptId));
      var s1 := s.(answers := s.answers[attemptId := graded]);
      if updateFails then (s1, Err(Internal))
      else
        var finished := Finished(attempt, s.quizzes[attempt.quizId], questions, graded, now);
        var s2 := s1.(attempts := s1.attempts[attemptId := finished]);
        (s2, GetAttempt(s2, actor, attemptId, false))
  }

  // --- quizzes -------------------------------------------------------------------------

  /** The table's checks on limits. */
  predicate LimitsAllowed(timeLimit: Option<int>, maxAttempts: Option<int>) {
    (timeLimit.Some? ==> timeLimit.value > 0) && (maxAttempts.Some? ==> maxAttempts.value > 0)
  }

  function CreateQuiz(s: Store, actor: string, courseId: string, title: string, description: string,
                      timeLimit: Option<int>, maxAttempts: Option<int>, passPercent: int, shuffle: bool, admin: bool)
    : (r: (Store, Option<Error>))
    ensures r.0 == s.(quizzes := r.0.quizzes, order := r.0.order, nextId := r.0.nextId) && s.nextId <= r.0.nextId
  {
    var error := WriteError(s.courses, actor, courseId, admin);
    if error.Some? then (s, error)
    else if TrimSpace(title) == "" then (s, Some(Validation))
    else if !LimitsAllowed(timeLimit, maxAttempts) then (s, Some(Internal))
    else
      var pass := if passPercent < 0 || passPercent > 100 then 60 else passPercent;
      var quiz := Quiz(s.nextId, courseId, TrimSpace(title), TrimSpace(description), Draft, timeLimit, maxAttempts,
                       pass, shuffle);
      (s.(quizzes := s.quizzes[s.nextId := quiz], order := s.order[s.nextId := []], nextId := s.nextId + 1), None)
  }

  function UpdateQuiz(s: Store, actor: string, quizId: nat, title: string, description: string,
                      timeLimit: Option<int>, maxAttempts: Option<int>, passPercent: Option<int>,
                        shuffle: Option<bool>, admin: bool): (r: (Store, Option<Error>))
    ensures r.0 == s.(quizzes := r.0.quizzes)
  {
    if quizId !in s.quizzes then (s, Some(NotFound))
    else
      var quiz := s.quizzes[quizId];
      var error := WriteError(s.courses, actor, quiz.courseId, admin);
      if error.Some? then (s, error)
      else if passPercent.Some? && !(0 <= passPercent.value <= 100) then (s, Some(Validation))
      else if !LimitsAllowed(timeLimit, maxAttempts) then (s, Some(Internal))
      else
        var quiz' := quiz.(
          title := if TrimSpace(title) != "" then TrimSpace(title) else quiz.title,
          description := TrimSpace(description), timeLimitSeconds := timeLimit, maxAttempts := maxAttempts,
          passPercent := passPercent.GetOr(quiz.passPercent), shuffle := shuffle.GetOr(quiz.shuffle));
        (s.(quizzes := s.quizzes[quizId := quiz']), None)
  }

  function PublishQuiz(s: Store, actor: string, quizId: nat, admin: bool): (r: (Store, Option<Error>))
    ensures r.0 == s.(quizzes := r.0.quizzes)
  {
    if quizId !in s.quizzes then (s, Some(NotFound))
    else
      var quiz := s.quizzes[quizId];
      var error := WriteError(s.courses, actor, quiz.courseId, admin);
      if error.Some? then (s, error)
      else if ListByQuiz(s, quizId) == [] then (s, Some(Validation))
      else (s.(quizzes := s.quizzes[quizId := quiz.(status := Published)]), None)
  }

  // --- what learners see ---------------------------------------------------------------

  datatype QuizView = QuizView(quiz: Quiz, questions: seq<Question>)

  function WithoutKey(options: seq<QuizOption>): seq<QuizOption> {
    seq(|options|, i requires 0 <= i < |options| => options[i].(isCorrect := false))
  }

  /** A question without anything that gives its answer away. */
  function Stripped(q: Question): Question {
    q.(correctAnswer := "", options := WithoutKey(q.options))
  }

  /** The questions differ at most in which answers are correct. */
  ghost predicate SameButKey(a: Question, b: Question) {
    && a.id == b.id && a.quizId == b.quizId && a.questionType == b.questionType && a.prompt == b.prompt
    && a.points == b.points && |a.options| == |b.options|
    && forall i :: 0 <= i < |a.options| ==> a.options[i].id == b.options[i].id && a.options[i].text == b.options[i].text
  }

  /** Nothing in the question says which answer is correct. */
  ghost predicate HidesKey(q: Question) {
    q.correctAnswer == "" && forall i :: 0 <= i < |q.options| ==> !q.options[i].isCorrect
  }

  lemma StrippedHides(q: Question)
    ensures SameButKey(q, Stripped(q)) && HidesKey(Stripped(q))
  {
  }

  function StrippedAll(questions: seq<Question>): (r: seq<Question>)
    ensures |r| == |questions|
  {
    seq(|questions|, i requires 0 <= i < |questions| => Stripped(questions[i]))
  }

  function GetQuiz(s: Store, actor: string, quizId: nat, admin: bool): Result<QuizView> {
    if quizId !in s.quizzes then Err(NotFound)
    else
      var quiz := s.quizzes[quizId];
      if quiz.courseId !in s.courses then Err(NotFound)
      else
        var canAuthor := admin || s.courses[quiz.courseId] == actor;
        if !canAuthor && quiz.status != Published then Err(NotFound)
        else if !canAuthor && !Enrolled(s, actor, quiz.courseId) then Err(Forbidden)
        else
          var questions := ListByQuiz(s, quizId);
          Ok(QuizView(quiz, if canAuthor then questions else StrippedAll(questions)))
  }

  // --- questions -----------------------------------------------------------------------

  /** Options with an id made up for each one that has none. */
  function WithIds(options: seq<QuizOption>, generated: seq<string>): seq<QuizOption>
    requires |generated| == |options|
  {
    seq(|options|, i requires 0 <= i < |options| =>
      if TrimSpace(options[i].id) == "" then options[i].(id := generated[i]) else options[i])
  }

  function NewQuestion(s: Store, quizId: nat, questionType: QuestionType, prompt: string, points: int,
                       options: seq<QuizOption>, generated: seq<string>, correctAnswer: string): Question
    requires |generated| == |options|
  {
    Question(s.nextId, quizId, questionType, TrimSpace(prompt), if points <= 0 then 1 else points,
             WithIds(options, generated), TrimSpace(correctAnswer))
  }

  /** The store with one more question, at the next position of its quiz. */
  function WithQuestion(s: Store, q: Question): Store {
    var slots := SlotsOf(s, q.quizId);
    s.(questions := s.questions[s.nextId := q],
       order := s.order[q.quizId := slots + [Slot(s.nextId, NextPosition(slots))]],
       nextId := s.nextId + 1)
  }

  ghost function AddQuestion(s: Store, actor: string, quizId: nat, questionType: QuestionType, prompt: string,
                             points: int,
                             options: seq<QuizOption>, generated: seq<string>, correctAnswer: string, admin: bool)
    : (r: (Store, Option<Error>))
    requires |generated| == |options|
    ensures r.0 == s.(questions := r.0.questions, order := r.0.order, nextId := r.0.nextId) && s.nextId <= r.0.nextId
    ensures s.questions.Keys <= r.0.questions.Keys <= s.questions.Keys + {s.nextId}
    ensures forall id :: id in s.questions && id != s.nextId ==> r.0.questions[id] == s.questions[id]
    ensures forall other :: other != quizId ==> SlotsOf(r.0, other) == SlotsOf(s, other)
  {
    if quizId !in s.quizzes then (s, Some(NotFound))
    else
      var error := WriteError(s.courses, actor, s.quizzes[quizId].courseId, admin);
      if error.Some? then (s, error)
      else if TrimSpace(prompt) == "" then (s, Some(Validation))
      else if !HasKey(questionType, options, correctAnswer) then (s, Some(Validation))
      else
        var q := NewQuestion(s, quizId, questionType, prompt, points, options, generated, correctAnswer);
        (WithQuestion(s, q), None)
  }

  /** Why the actor may not change a question, if so. */
  function QuestionError(s: Store, actor: string, questionId: nat, admin: bool): Option<Error> {
    if questionId !in s.questions then Some(NotFound)
    else if s.questions[questionId].quizId !in s.quizzes then Some(NotFound)
    else WriteError(s.courses, actor, s.quizzes[s.questions[questionId].quizId].courseId, admin)
  }

  function Changed(q: Question, prompt: string, points: int, options: seq<QuizOption>, generated: seq<string>,
                   correctAnswer: string): Question
    requires |generated| == |options|
  {
    q.(prompt := TrimSpace(prompt), points := points, options := WithIds(options, generated),
       correctAnswer := TrimSpace(correctAnswer))
  }

  ghost function UpdateQuestion(s: Store, actor: string, questionId: nat, prompt: string, points: int,
                                options: seq<QuizOption>, generated: seq<string>, correctAnswer: string, admin: bool)
    : (r: (Store, Option<Error>))
    requires |generated| == |options|
    ensures r.0 == s.(questions := r.0.questions) && r.0.questions.Keys == s.questions.Keys
    ensures forall id :: id in s.questions && id != questionId ==> r.0.questions[id] == s.questions[id]
    ensures r.0 != s ==> questionId in s.questions
  {
    var error := QuestionError(s, actor, questionId, admin);
    if error.Some? then (s, error)
    else if TrimSpace(prompt) == "" || points <= 0 then (s, Some(Validation))
    else if !HasKey(s.questions[questionId].questionType, options, correctAnswer) then (s, Some(Validation))
    else
      var q := Changed(s.questions[questionId], prompt, points, options, generated, correctAnswer);
      (s.(questions := s.questions[questionId := q]), None)
  }

  function AnswersWithout(answers: seq<Answer>, questionId: nat): seq<Answer> {
    if answers == [] then []
    else
      var n := |answers| - 1;
      AnswersWithout(answers[..n], questionId) + (if answers[n].questionId == questionId then [] else [answers[n]])
  }

  /** Deleting a question also deletes, by cascade, every stored answer to it. */
  function DeleteQuestion(s: Store, actor: string, questionId: nat, admin: bool): (r: (Store, Option<Error>))
    ensures r.0 == s.(questions := r.0.questions, order := r.0.order, answers := r.0.answers)
    ensures r.0 != s ==> questionId in s.questions && r.0.questions == s.questions - {questionId}
    ensures forall other :: questionId in s.questions && other != s.questions[questionId].quizId ==>
      SlotsOf(r.0, other) == SlotsOf(s, other)
  {
    var error := QuestionError(s, actor, questionId, admin);
    if error.Some? then (s, error)
    else
      var quizId := s.questions[questionId].quizId;
      (s.(questions := s.questions - {questionId},
          order := s.order[quizId := Unlisted(SlotsOf(s, quizId), [questionId])],
          answers := map id | id in s.answers :: AnswersWithout(s.answers[id], questionId)), None)
  }

  function ReorderQuestions(s: Store, actor: string, quizId: nat, ids: seq<nat>, admin: bool)
    : (r: (Store, Option<Error>))
    ensures r.0 == s.(order := r.0.order)
    ensures forall other :: other != quizId ==> SlotsOf(r.0, other) == SlotsOf(s, other)
  {
    if quizId !in s.quizzes then (s, Some(NotFound))
    else
      var error := WriteError(s.courses, actor, s.quizzes[quizId].courseId, admin);
      if error.Some? then (s, error)
      else
        match Reordered(SlotsOf(s, quizId), ids)
        case Err(e) => (s, Some(e))
        case Ok(slots) => (s.(order := s.order[quizId := slots]), None)
  }

  // --- runs ----------------------------------------------------------------------------

  datatype Op =
    | Start(actor: string, quizId: nat, now: int)
    | Save(actor: string, attemptId: nat, saved: seq<Answer>, now: int)
    | Submit(actor: string, attemptId: nat, now: int, updateFails: bool)
    | Create(actor: string, courseId: string, title: string, description: string, timeLimit: Option<int>,
             maxAttempts: Option<int>, pass: int, shuffle: bool, admin: bool)
    | Update(actor: string, quizId: nat, title: string, description: string, timeLimit: Option<int>,
             maxAttempts: Option<int>, newPass: Option<int>, newShuffle: Option<bool>, admin: bool)
    | Publish(actor: string, quizId: nat, admin: bool)
    | Add(actor: string, quizId: nat, questionType: QuestionType, prompt: string, points: int,
          options: seq<QuizOption>, generated: seq<string>, correctAnswer: string, admin: bool)
    | Change(actor: string, questionId: nat, prompt: string, points: int,
             options: seq<QuizOption>, generated: seq<string>, correctAnswer: string, admin: bool)
    | Delete(actor: string, questionId: nat, admin: bool)
    | Reorder(actor: string, quizId: nat, ids: seq<nat>, admin: bool)
    | SetEnrollment(courseId: string, userId: string, status: EnrollmentStatus)
    | SetCourse(courseId: string, teacher: Option<string>)

  predicate WellFormedOp(op: Op) {
    (op.Add? || op.Change?) ==> |op.generated| == |op.options|
  }

  /** One call: the store after it and the error it reported, if any. The last two
      operations are other services changing enrollments and courses. */
  ghost function Step(fold: char -> char, s: Store, op: Op): (Store, Option<Error>)
    requires WellFormedOp(op)
  {
    match op
    case Start(actor, quizId, now) => var (s', r) := StartAttempt(s, actor, quizId, now); (s', ToError(r))
    case Save(actor, attemptId, saved, now) =>
      var (s', r) := SaveAnswers(s, actor, attemptId, saved, now); (s', ToError(r))
    case Submit(actor, attemptId, now, updateFails) =>
      var (s', r) := SubmitAttempt(fold, s, actor, attemptId, now, updateFails); (s', ToError(r))
    case Create(actor, courseId, title, description, timeLimit, maxAttempts, pass, shuffle, admin) =>
      CreateQuiz(s, actor, courseId, title, description, timeLimit, maxAttempts, pass, shuffle, admin)
    case Update(actor, quizId, title, description, timeLimit, maxAttempts, pass, shuffle, admin) =>
      UpdateQuiz(s, actor, quizId, title, description, timeLimit, maxAttempts, pass, shuffle, admin)
    case Publish(actor, quizId, admin) => PublishQuiz(s, actor, quizId, admin)
    case Add(actor, quizId, questionType, prompt, points, options, generated, correctAnswer, admin) =>
      AddQuestion(s, actor, quizId, questionType, prompt, points, options, generated, correctAnswer, admin)
    case Change(actor, questionId, prompt, points, options, generated, correctAnswer, admin) =>
      UpdateQuestion(s, actor, questionId, prompt, points, options, generated, correctAnswer, admin)
    case Delete(actor, questionId, admin) => DeleteQuestion(s, actor, questionId, admin)
    case Reorder(actor, quizId, ids, admin) => ReorderQuestions(s, actor, quizId, ids, admin)
    case SetEnrollment(courseId, userId, status) =>
      (s.(enrollments := s.enrollments[(courseId, userId) := status]), None)
    case SetCourse(courseId, teacher) =>
      (if teacher.Some? then s.(courses := s.courses[courseId := teacher.value])
       else s.(courses := s.courses - {courseId}), None)
  }

  // --- one call at a time ----------------------------------------------------------------

  lemma StartStep(fold: char -> char, s: Store, op: Op)
    requires op.Start?
    ensures Step(fold, s, op).0 == StartAttempt(s, op.actor, op.quizId, op.now).0
    ensures Step(fold, s, op).1 == ToError(StartAttempt(s, op.actor, op.quizId, op.now).1)
  {
    hide StartAttempt, SaveAnswers, SubmitAttempt;
  }

  lemma SaveStep(fold: char -> char, s: Store, op: Op)
    requires op.Save?
    ensures Step(fold, s, op).0 == SaveAnswers(s, op.actor, op.attemptId, op.saved, op.now).0
    ensures Step(fold, s, op).1 == ToError(SaveAnswers(s, op.actor, op.attemptId, op.saved, op.now).1)
  {
    hide StartAttempt, SaveAnswers, SubmitAttempt;
  }

  lemma SubmitStep(fold: char -> char, s: Store, op: Op)
    requires op.Submit?
    ensures Step(fold, s, op).0 == SubmitAttempt(fold, s, op.actor, op.attemptId, op.now, op.updateFails).0
    ensures Step(fold, s, op).1 == ToError(SubmitAttempt(fold, s, op.actor, op.attemptId, op.now, op.updateFails).1)
  {
    hide StartAttempt, SaveAnswers, SubmitAttempt;
  }

  lemma CreateStep(fold: char -> char, s: Store, op: Op)
    requires op.Create?
    ensures Step(fold, s, op) == CreateQuiz(s, op.actor, op.courseId, op.title, op.description, op.timeLimit,
                                            op.maxAttempts, op.pass, op.shuffle, op.admin)
  {
    hide CreateQuiz, UpdateQuiz, PublishQuiz;
  }

  lemma UpdateStep(fold: char -> char, s: Store, op: Op)
    requires op.Update?
    ensures Step(fold, s, op) == UpdateQuiz(s, op.actor, op.quizId, op.title, op.description, op.timeLimit,
                                            op.maxAttempts, op.newPass, op.newShuffle, op.admin)
  {
    hide CreateQuiz, UpdateQuiz, PublishQuiz;
  }

  lemma PublishStep(fold: char -> char, s: Store, op: Op)
    requires op.Publish?
    ensures Step(fold, s, op) == PublishQuiz(s, op.actor, op.quizId, op.admin)
  {
    hide CreateQuiz, UpdateQuiz, PublishQuiz;
  }

  lemma AddStep(fold: char -> char, s: Store, op: Op)
    requires op.Add? && WellFormedOp(op)
    ensures Step(fold, s, op) == AddQuestion(s, op.actor, op.quizId, op.questionType, op.prompt, op.points, op.options,
                                             op.generated, op.correctAnswer, op.admin)
  {
    hide AddQuestion, UpdateQuestion, DeleteQuestion, ReorderQuestions;
  }

  lemma ChangeStep(fold: char -> char, s: Store, op: Op)
    requires op.Change? && WellFormedOp(op)
    ensures Step(fold, s, op) == UpdateQuestion(s, op.actor, op.questionId, op.prompt, op.points, op.options,
                                                op.generated, op.correctAnswer, op.admin)
  {
    hide AddQuestion, UpdateQuestion, DeleteQuestion, ReorderQuestions;
  }

  lemma DeleteStep(fold: char -> char, s: Store, op: Op)
    requires op.Delete?
    ensures Step(fold, s, op) == DeleteQuestion(s, op.actor, op.questionId, op.admin)
  {
    hide AddQuestion, UpdateQuestion, DeleteQuestion, ReorderQuestions;
  }

  lemma ReorderStep(fold: char -> char, s: Store, op: Op)
    requires op.Reorder?
    ensures Step(fold, s, op) == ReorderQuestions(s, op.actor, op.quizId, op.ids, op.admin)
  {
    hide AddQuestion, UpdateQuestion, DeleteQuestion, ReorderQuestions;
  }

  lemma EnrollmentStep(fold: char -> char, s: Store, op: Op)
    requires op.SetEnrollment?
    ensures Step(fold, s, op) == (s.(enrollments := s.enrollments[(op.courseId, op.userId) := op.status]), None)
  {
  }

  lemma CourseStep(fold: char -> char, s: Store, op: Op)
    requires op.SetCourse?
    ensures Step(fold, s, op).1 == None
    ensures Step(fold, s, op).0 == s.(courses := Step(fold, s, op).0.courses)
  {
  }

  ghost predicate WellFormedRun(ops: seq<Op>) {
    forall i :: 0 <= i < |ops| ==> WellFormedOp(ops[i])
  }

  /** The store after a run of calls. */
  ghost function Run(fold: char -> char, s: Store, ops: seq<Op>): Store
    requires WellFormedRun(ops)
  {
    if ops == [] then s else Step(fold, Run(fold, s, ops[..|ops| - 1]), ops[|ops| - 1]).0
  }

  const EMPTY := Store(map[], map[], map[], map[], map[], map[], map[], 0)
}
