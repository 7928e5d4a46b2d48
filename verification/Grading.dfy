/** Quiz questions and how a submitted attempt is graded
    (internal/service/assessment.go). Two characters that case folding identifies are
    given by an arbitrary function `fold`; nothing below depends on which one. */
module Grading {
  import opened Common

  datatype QuestionType = Mcq | ShortAnswer | OtherType(code: string)

  datatype QuizOption = QuizOption(id: string, text: string, isCorrect: bool)

  datatype Question = Question(
    id: nat, quizId: nat, questionType: QuestionType, prompt: string, points: int,
    options: seq<QuizOption>, correctAnswer: string)

  datatype Answer = Answer(
    attemptId: nat, questionId: nat, selected: seq<string>, text: string,
    isCorrect: Option<bool>, points: int)

  // --- which questions authors may store -------------------------------------------

  /** A question that can be graded: somebody has said what the right answer is. */
  ghost predicate HasKey(questionType: QuestionType, options: seq<QuizOption>, correctAnswer: string) {
    match questionType
    case Mcq => |options| >= 2 && (forall o :: o in options ==> TrimSpace(o.text) != "")
                && exists o :: o in options && o.isCorrect
    case ShortAnswer => TrimSpace(correctAnswer) != ""
    case OtherType(_) => false
  }

  method ValidateQuestion(questionType: QuestionType, options: seq<QuizOption>, correctAnswer: string)
    returns (error: Option<Error>)
    ensures error == if HasKey(questionType, options, correctAnswer) then None else Some(Validation)
  {
    match questionType {
      case Mcq =>
        if |options| < 2 { return Some(Validation); }
        var hasCorrect := false;
        for i := 0 to |options|
          invariant forall k :: 0 <= k < i ==> TrimSpace(options[k].text) != ""
          invariant hasCorrect <==> exists k :: 0 <= k < i && options[k].isCorrect
        {
          if TrimSpace(options[i].text) == "" { return Some(Validation); }
          if options[i].isCorrect { hasCorrect := true; }
        }
        if !hasCorrect {
          return Some(Validation);
        }
      case ShortAnswer =>
        if TrimSpace(correctAnswer) == "" { return Some(Validation); }
      case OtherType(_) =>
        return Some(Validation);
    }
    return None;
  }

  // --- grading one answer ------------------------------------------------------------

  function CorrectIds(options: seq<QuizOption>): set<string> {
    set o | o in options && o.isCorrect :: o.id
  }

  /** Go's strings.EqualFold. */
  predicate EqualFold(fold: char -> char, a: string, b: string) {
    |a| == |b| && forall i :: 0 <= i < |a| ==> fold(a[i]) == fold(b[i])
  }

  predicate Correct(fold: char -> char, q: Question, a: Answer) {
    match q.questionType
    case Mcq => |a.selected| == |CorrectIds(q.options)|
                && forall id :: id in a.selected ==> id in CorrectIds(q.options)
    case ShortAnswer => EqualFold(fold, TrimSpace(a.text), TrimSpace(q.correctAnswer))
    case OtherType(_) => false
  }

  function Awarded(fold: char -> char, q: Question, a: Answer): int {
    if Correct(fold, q, a) then q.points else 0
  }

  method GradeAnswer(fold: char -> char, q: Question, a: Answer) returns (correct: bool, points: int)
    ensures correct == Correct(fold, q, a) && points == Awarded(fold, q, a)
    ensures points == if correct then q.points else 0
    ensures q.questionType == Mcq && NoDuplicates(a.selected) ==> (correct <==> RightSet(q, a.selected))
    ensures q.questionType == ShortAnswer ==>
      (correct <==> FoldsLike(fold, TrimSpace(a.text), TrimSpace(q.correctAnswer)))
    ensures q.questionType.OtherType? ==> !correct
  {
    if q.questionType == Mcq && NoDuplicates(a.selected) { McqIsSetEquality(fold, q, a); }
    ShortAnswerIs(fold, q, a);
    match q.questionType {
      case Mcq =>
        var correctIds := {};
        for i := 0 to |q.options|
          invariant correctIds == CorrectIds(q.options[..i])
        {
          assert q.options[..i + 1] == q.options[..i] + [q.options[i]];
          if q.options[i].isCorrect { correctIds := correctIds + {q.options[i].id}; }
        }
        assert q.options[..|q.options|] == q.options;
        if |a.selected| != |correctIds| { return false, 0; }
        for i := 0 to |a.selected|
          invariant forall k :: 0 <= k < i ==> a.selected[k] in correctIds
        {
          if a.selected[i] !in correctIds { return false, 0; }
        }
        return true, q.points;
      case ShortAnswer =>
        if EqualFold(fold, TrimSpace(a.text), TrimSpace(q.correctAnswer)) { return true, q.points; }
        return false, 0;
      case OtherType(_) =>
        return false, 0;
    }
  }

  /** A multiple-choice selection names exactly the options marked as correct. */
  ghost predicate RightSet(q: Question, selected: seq<string>) {
    forall id :: id in selected <==> exists o :: o in q.options && o.isCorrect && o.id == id
  }

  lemma RightSetIs(q: Question, selected: seq<string>)
    ensures RightSet(q, selected) <==> Elements(selected) == CorrectIds(q.options)
  {
    if Elements(selected) == CorrectIds(q.options) {
      forall id ensures id in selected <==> exists o :: o in q.options && o.isCorrect && o.id == id {
        assert id in selected <==> id in CorrectIds(q.options);
      }
    }
  }

  /** For a selection without repeats the list comparison is set equality. */
  lemma McqIsSetEquality(fold: char -> char, q: Question, a: Answer)
    requires q.questionType == Mcq && NoDuplicates(a.selected)
    ensures Correct(fold, q, a) <==> RightSet(q, a.selected)
  {
    RightSetIs(q, a.selected);
    LengthIsCardinality(a.selected);
    if Correct(fold, q, a) {
      SubsetOfSameSize(Elements(a.selected), CorrectIds(q.options));
    }
  }

  lemma SubsetOfSameSize<T>(a: set<T>, b: set<T>)
    requires a <= b && |a| == |b|
    ensures a == b
  {
    if a != b {
      var x :| x in b && x !in a;
      assert a <= b - {x};
      SubsetSize(a, b - {x});
    }
  }

  lemma {:induction false} SubsetSize<T>(a: set<T>, b: set<T>)
    requires a <= b
    ensures |a| <= |b|
  {
    assert b == a + (b - a);
  }

  /** An options list whose correct options are exactly the given ids. */
  function KeyFor(ids: seq<string>): seq<QuizOption> {
    seq(|ids|, i requires 0 <= i < |ids| => QuizOption(ids[i], "x", true))
  }

  lemma KeyForIds(ids: seq<string>)
    ensures CorrectIds(KeyFor(ids)) == Elements(ids)
  {
    var key := KeyFor(ids);
    forall id | id in ids ensures id in CorrectIds(key) {
      var i :| 0 <= i < |ids| && ids[i] == id;
      assert key[i] in key && key[i].isCorrect && key[i].id == id;
    }
  }

  /** The list comparison agrees with set equality on every question exactly for the
      selections that name no option twice. */
  lemma McqExact(fold: char -> char, a: Answer)
    ensures (forall q: Question :: q.questionType == Mcq ==> (Correct(fold, q, a) <==> RightSet(q, a.selected)))
      <==> NoDuplicates(a.selected)
  {
    if NoDuplicates(a.selected) {
      forall q: Question | q.questionType == Mcq ensures Correct(fold, q, a) <==> RightSet(q, a.selected) {
        McqIsSetEquality(fold, q, a);
      }
    } else {
      var q := Question(0, 0, Mcq, "", 1, KeyFor(a.selected), "");
      KeyForIds(a.selected);
      RightSetIs(q, a.selected);
      LengthIsCardinality(a.selected);
      assert RightSet(q, a.selected) && !Correct(fold, q, a);
    }
  }

  /** A repeated option can earn the points of two: naming one of two correct options
      twice is graded correct although the other one was never chosen. */
  lemma RepeatedOptionEarnsPoints(fold: char -> char)
    ensures var q := Question(0, 0, Mcq, "pick both", 5, [QuizOption("a", "x", true), QuizOption("b", "y", true)], "");
      var a := Answer(0, 0, ["a", "a"], "", None, 0);
      HasKey(q.questionType, q.options, q.correctAnswer) && Correct(fold, q, a) && !RightSet(q, a.selected)
  {
    var options := [QuizOption("a", "x", true), QuizOption("b", "y", true)];
    assert options[0] in options && options[1] in options;
    assert CorrectIds(options) == {"a", "b"};
    assert options[1].isCorrect && options[1].id == "b" && "b" !in ["a", "a"];
    assert TrimRight("x") == "x" && TrimRight("y") == "y";
  }

  // --- short answers -------------------------------------------------------------------

  /** The texts have the same length and the same characters up to case. */
  ghost predicate FoldsLike(fold: char -> char, a: string, b: string) {
    |a| == |b| && forall i :: 0 <= i < |a| ==> fold(a[i]) == fold(b[i])
  }

  /** When a short answer is right. */
  lemma ShortAnswerIs(fold: char -> char, q: Question, a: Answer)
    ensures q.questionType == ShortAnswer ==>
      (Correct(fold, q, a) <==> FoldsLike(fold, TrimSpace(a.text), TrimSpace(q.correctAnswer)))
  {
  }

  /** The texts agree up to case, and have their spaces in the same places. */
  ghost predicate Recased(fold: char -> char, a: string, b: string) {
    FoldsLike(fold, a, b) && forall i :: 0 <= i < |a| ==> (IsSpace(a[i]) <==> IsSpace(b[i]))
  }

  lemma {:induction false} RecasedLeft(fold: char -> char, a: string, b: string)
    requires Recased(fold, a, b)
    ensures Recased(fold, TrimLeft(a), TrimLeft(b))
  {
    if a != "" && IsSpace(a[0]) { RecasedLeft(fold, a[1..], b[1..]); }
  }

  lemma {:induction false} RecasedRight(fold: char -> char, a: string, b: string)
    requires Recased(fold, a, b)
    ensures Recased(fold, TrimRight(a), TrimRight(b))
  {
    if a != "" && IsSpace(a[|a| - 1]) { RecasedRight(fold, a[..|a| - 1], b[..|b| - 1]); }
  }

  /** Answering with the key earns the points, in whatever case it is written. */
  lemma KeyInAnyCase(fold: char -> char, q: Question, a: Answer)
    requires q.questionType == ShortAnswer && Recased(fold, a.text, q.correctAnswer)
    ensures Correct(fold, q, a) && Awarded(fold, q, a) == q.points
  {
    RecasedLeft(fold, a.text, q.correctAnswer);
    RecasedRight(fold, TrimLeft(a.text), TrimLeft(q.correctAnswer));
  }

  /** An answer that differs from the key in one character, whatever the case, earns nothing. */
  lemma OneLetterOff(fold: char -> char, q: Question, a: Answer, i: nat)
    requires q.questionType == ShortAnswer
    requires i < |TrimSpace(a.text)| && i < |TrimSpace(q.correctAnswer)|
    requires fold(TrimSpace(a.text)[i]) != fold(TrimSpace(q.correctAnswer)[i])
    ensures !Correct(fold, q, a) && Awarded(fold, q, a) == 0
  {
    ShortAnswerIs(fold, q, a);
  }

  /** The answer the service makes up for a question the learner left out. */
  function Blank(attemptId: nat, questionId: nat): Answer {
    Answer(attemptId, questionId, [], "", None, 0)
  }

  /** A blank answer is wrong exactly when there is a right answer to miss. */
  lemma BlankIsWrong(fold: char -> char, q: Question, attemptId: nat, questionId: nat)
    ensures !Correct(fold, q, Blank(attemptId, questionId)) <==>
      match q.questionType
      case Mcq => exists o :: o in q.options && o.isCorrect
      case ShortAnswer => TrimSpace(q.correctAnswer) != ""
      case OtherType(_) => true
  {
    if o :| o in q.options && o.isCorrect {
      assert o.id in CorrectIds(q.options);
    } else {
      assert CorrectIds(q.options) == {};
    }
  }

  // --- grading a whole attempt ---------------------------------------------------------

  /** The last stored answer to a question, as indexing the list by question keeps it. */
  function LastAnswer(answers: seq<Answer>, questionId: nat): Option<Answer> {
    if answers == [] then None
    else if answers[|answers| - 1].questionId == questionId then Some(answers[|answers| - 1])
    else LastAnswer(answers[..|answers| - 1], questionId)
  }

  function GradedAnswer(fold: char -> char, attemptId: nat, q: Question, answers: seq<Answer>): Answer {
    var a := LastAnswer(answers, q.id).GetOr(Blank(attemptId, q.id));
    a.(isCorrect := Some(Correct(fold, q, a)), points := Awarded(fold, q, a))
  }

  /** One graded answer per question, in question order. */
  function GradedAnswers(fold: char -> char, attemptId: nat, questions: seq<Question>, answers: seq<Answer>)
    : (r: seq<Answer>)
    ensures |r| == |questions|
  {
    seq(|questions|, i requires 0 <= i < |questions| => GradedAnswer(fold, attemptId, questions[i], answers))
  }

  function SumAwarded(answers: seq<Answer>): int {
    if answers == [] then 0 else SumAwarded(answers[..|answers| - 1]) + answers[|answers| - 1].points
  }

  function SumPoints(questions: seq<Question>): int {
    if questions == [] then 0 else SumPoints(questions[..|questions| - 1]) + questions[|questions| - 1].points
  }

  /** The percentage the service stores: truncated, and 0 for a quiz worth nothing. */
  function Percent(score: int, maxPoints: int): int {
    if maxPoints > 0 then (score * 100) / maxPoints else 0
  }

  /** The answers by question, a later one in place of an earlier one. */
  method IndexAnswers(existing: seq<Answer>) returns (byQuestion: map<nat, Answer>)
    ensures forall id :: id in byQuestion <==> LastAnswer(existing, id).Some?
    ensures forall id :: id in byQuestion ==> LastAnswer(existing, id) == Some(byQuestion[id])
  {
    byQuestion := map[];
    for i := 0 to |existing|
      invariant forall id :: id in byQuestion <==> LastAnswer(existing[..i], id).Some?
      invariant forall id :: id in byQuestion ==> LastAnswer(existing[..i], id) == Some(byQuestion[id])
    {
      assert existing[..i + 1][..i] == existing[..i];
      byQuestion := byQuestion[existing[i].questionId := existing[i]];
    }
    assert existing[..|existing|] == existing;
  }

  method GradeAll(fold: char -> char, attemptId: nat, questions: seq<Question>, existing: seq<Answer>)
    returns (graded: seq<Answer>, score: int, maxPoints: int)
    ensures graded == GradedAnswers(fold, attemptId, questions, existing)
    ensures score == SumAwarded(graded) && maxPoints == SumPoints(questions)
  {
    hide Correct, Awarded, GradedAnswers, LastAnswer, SumAwarded, SumPoints, RightSet, FoldsLike;
    NothingGraded(fold, attemptId, existing);
    var byQuestion := IndexAnswers(existing);
    score, maxPoints, graded := 0, 0, [];
    assert questions[..0] == [];
    for i := 0 to |questions|
      invariant graded == GradedAnswers(fold, attemptId, questions[..i], existing)
      invariant score == SumAwarded(graded) && maxPoints == SumPoints(questions[..i])
    {
      OneMoreGraded(fold, attemptId, questions, existing, i);
      var q := questions[i];
      maxPoints := maxPoints + q.points;
      var answer := if q.id in byQuestion then byQuestion[q.id] else Answer(attemptId, q.id, [], "", None, 0);
      var correct, points := GradeAnswer(fold, q, answer);
      score := score + points;
      graded := graded + [answer.(isCorrect := Some(correct), points := points)];
    }
    assert questions[..|questions|] == questions;
  }

  lemma NothingGraded(fold: char -> char, attemptId: nat, existing: seq<Answer>)
    ensures GradedAnswers(fold, attemptId, [], existing) == [] && SumAwarded([]) == 0 && SumPoints([]) == 0
  {
  }

  /** One step of the loop over the questions. */
  lemma OneMoreGraded(fold: char -> char, attemptId: nat, questions: seq<Question>, existing: seq<Answer>, i: nat)
    requires i < |questions|
    ensures var graded, q := GradedAnswers(fold, attemptId, questions[..i], existing), questions[i];
      var row := GradedAnswer(fold, attemptId, q, existing);
      && GradedAnswers(fold, attemptId, questions[..i + 1], existing) == graded + [row]
      && SumAwarded(graded + [row]) == SumAwarded(graded) + row.points
      && SumPoints(questions[..i + 1]) == SumPoints(questions[..i]) + q.points
  {
    hide GradedAnswer;
    var graded := GradedAnswers(fold, attemptId, questions[..i], existing);
    assert questions[..i + 1][..i] == questions[..i];
    assert (graded + [GradedAnswer(fold, attemptId, questions[i], existing)])[..i] == graded;
  }

  ghost predicate NoneFor(answers: seq<Answer>, questionId: nat) {
    forall j :: 0 <= j < |answers| ==> answers[j].questionId != questionId
  }

  ghost predicate LastFor(answers: seq<Answer>, j: nat, questionId: nat)
    requires j < |answers|
  {
    answers[j].questionId == questionId && forall k :: j < k < |answers| ==> answers[k].questionId != questionId
  }

  /** The rows record the same choice by the same attempt. */
  ghost predicate SameChoice(a: Answer, b: Answer) {
    a.attemptId == b.attemptId && a.questionId == b.questionId && a.selected == b.selected && a.text == b.text
  }

  /** The row that is graded is the learner's own last answer to the question, and a blank
      one if there is none; of it only the grade changes. */
  lemma GradedKeepsAnswer(fold: char -> char, attemptId: nat, questions: seq<Question>, answers: seq<Answer>, i: nat)
    requires i < |questions|
    ensures var graded := GradedAnswers(fold, attemptId, questions, answers)[i];
      var q := questions[i];
      && graded.questionId == q.id && graded.isCorrect.Some?
      && graded.points == (if graded.isCorrect.value then q.points else 0)
      && (forall j :: 0 <= j < |answers| && LastFor(answers, j, q.id) ==>
            SameChoice(graded, answers[j]) && graded.isCorrect == Some(Correct(fold, q, answers[j])))
      && (NoneFor(answers, q.id) ==> SameChoice(graded, Answer(attemptId, q.id, [], "", None, 0)))
  {
    var q := questions[i];
    LastAnswerId(answers, q.id);
    forall j | 0 <= j < |answers| && LastFor(answers, j, q.id) ensures LastAnswer(answers, q.id) == Some(answers[j]) {
      LastAnswerIs(answers, j);
    }
    if NoneFor(answers, q.id) { NoLastAnswer(answers, q.id); }
  }

  lemma {:induction false} NoLastAnswer(answers: seq<Answer>, questionId: nat)
    requires NoneFor(answers, questionId)
    ensures LastAnswer(answers, questionId) == None
  {
    if answers != [] { NoLastAnswer(answers[..|answers| - 1], questionId); }
  }

  /** A question alone counts its points, and scores them exactly when answered right. */
  lemma OneQuestion(fold: char -> char, attemptId: nat, q: Question, answers: seq<Answer>)
    ensures SumPoints([q]) == q.points
    ensures SumAwarded(GradedAnswers(fold, attemptId, [q], answers))
      == if GradedAnswers(fold, attemptId, [q], answers)[0].isCorrect == Some(true) then q.points else 0
  {
    assert [q][..0] == [] && GradedAnswers(fold, attemptId, [q], answers)[..0] == [];
  }

  /** The questions of two lists together count and score what the lists do. */
  lemma {:induction false} ScoreAddsUp(fold: char -> char, attemptId: nat, first: seq<Question>, second: seq<Question>,
                                       answers: seq<Answer>)
    ensures SumPoints(first + second) == SumPoints(first) + SumPoints(second)
    ensures SumAwarded(GradedAnswers(fold, attemptId, first + second, answers))
      == SumAwarded(GradedAnswers(fold, attemptId, first, answers))
         + SumAwarded(GradedAnswers(fold, attemptId, second, answers))
  {
    if second == [] {
      assert first + second == first;
    } else {
      var n := |second| - 1;
      assert (first + second)[..|first + second| - 1] == first + second[..n];
      ScoreAddsUp(fold, attemptId, first, second[..n], answers);
      GradedPrefix(fold, attemptId, first + second, answers);
      GradedPrefix(fold, attemptId, second, answers);
    }
  }

  // --- what grading guarantees -----------------------------------------------------------

  ghost predicate DistinctQuestions(questions: seq<Question>) {
    forall i, j :: 0 <= i < j < |questions| ==> questions[i].id != questions[j].id
  }

  lemma GradedPrefix(fold: char -> char, attemptId: nat, questions: seq<Question>, answers: seq<Answer>)
    requires questions != []
    ensures var n := |questions| - 1;
      GradedAnswers(fold, attemptId, questions, answers)[..n] == GradedAnswers(fold, attemptId, questions[..n], answers)
  {
  }

  lemma {:induction false} ScoreBounds(fold: char -> char, attemptId: nat, questions: seq<Question>,
                                       answers: seq<Answer>)
    requires forall q :: q in questions ==> q.points >= 0
    ensures 0 <= SumAwarded(GradedAnswers(fold, attemptId, questions, answers)) <= SumPoints(questions)
  {
    if questions != [] {
      var n := |questions| - 1;
      GradedPrefix(fold, attemptId, questions, answers);
      ScoreBounds(fold, attemptId, questions[..n], answers);
      assert questions[n] in questions;
    }
  }

  /** The full score is reached exactly by answering everything correctly. */
  lemma {:induction false} FullScore(fold: char -> char, attemptId: nat, questions: seq<Question>, answers: seq<Answer>)
    requires forall q :: q in questions ==> q.points > 0
    ensures var graded := GradedAnswers(fold, attemptId, questions, answers);
      SumAwarded(graded) == SumPoints(questions) <==>
        forall i :: 0 <= i < |graded| ==> graded[i].isCorrect == Some(true)
  {
    if questions != [] {
      var n := |questions| - 1;
      var graded := GradedAnswers(fold, attemptId, questions, answers);
      GradedPrefix(fold, attemptId, questions, answers);
      FullScore(fold, attemptId, questions[..n], answers);
      ScoreBounds(fold, attemptId, questions[..n], answers);
      assert questions[n] in questions;
      assert forall i :: 0 <= i < n ==> graded[i] == graded[..n][i];
    }
  }

  lemma PercentBounds(score: int, maxPoints: int)
    requires 0 <= score <= maxPoints
    ensures 0 <= Percent(score, maxPoints) <= 100
    ensures maxPoints > 0 ==> (Percent(score, maxPoints) == 100 <==> score == maxPoints)
  {
    if maxPoints > 0 {
      PassIsRational(score, maxPoints, 100);
      PassIsRational(score, maxPoints, 101);
      PassIsRational(score, maxPoints, 0);
    }
  }

  /** Truncating the percentage never changes who passes. */
  lemma PassIsRational(score: int, maxPoints: int, pass: int)
    requires maxPoints > 0
    ensures Percent(score, maxPoints) >= pass <==> score * 100 >= pass * maxPoints
  {
    var p := (score * 100) / maxPoints;
    assert score * 100 == p * maxPoints + (score * 100) % maxPoints;
    if p >= pass {
      MulOrder(pass, p, maxPoints);
    } else {
      MulOrder(p + 1, pass, maxPoints);
      assert (p + 1) * maxPoints == p * maxPoints + maxPoints;
    }
  }

  lemma MulOrder(a: int, b: int, m: int)
    requires a <= b && m > 0
    ensures a * m <= b * m
  {
  }

  /** A percentage of 100 on a non-empty quiz means every question was answered right. */
  lemma HundredPercent(fold: char -> char, attemptId: nat, questions: seq<Question>, answers: seq<Answer>)
    requires questions != [] && forall q :: q in questions ==> q.points > 0
    ensures var graded := GradedAnswers(fold, attemptId, questions, answers);
      var percent := Percent(SumAwarded(graded), SumPoints(questions));
      && 0 <= percent <= 100
      && (percent == 100 <==> forall i :: 0 <= i < |graded| ==> graded[i].isCorrect == Some(true))
  {
    ScoreBounds(fold, attemptId, questions, answers);
    FullScore(fold, attemptId, questions, answers);
    PositiveTotal(questions);
    PercentBounds(SumAwarded(GradedAnswers(fold, attemptId, questions, answers)), SumPoints(questions));
  }

  lemma {:induction false} PositiveTotal(questions: seq<Question>)
    requires questions != [] && forall q :: q in questions ==> q.points > 0
    ensures SumPoints(questions) > 0
  {
    var n := |questions| - 1;
    assert questions[n] in questions;
    if n > 0 { PositiveTotal(questions[..n]); }
  }

  /** Turning wrong answers into correct ones never lowers the score, the percentage or
      the verdict. */
  lemma CorrectingHelps(fold: char -> char, attemptId: nat, questions: seq<Question>,
                        before: seq<Answer>, after: seq<Answer>, pass: int)
    requires forall q :: q in questions ==> q.points >= 0
    requires var b, a := GradedAnswers(fold, attemptId, questions, before),
      GradedAnswers(fold, attemptId, questions, after);
      forall i :: 0 <= i < |questions| && b[i].isCorrect == Some(true) ==> a[i].isCorrect == Some(true)
    ensures var b, a := SumAwarded(GradedAnswers(fold, attemptId, questions, before)),
      SumAwarded(GradedAnswers(fold, attemptId, questions, after));
      var max := SumPoints(questions);
      && b <= a
      && Percent(b, max) <= Percent(a, max)
      && (Percent(b, max) >= pass ==> Percent(a, max) >= pass)
  {
    ScoreGrows(fold, attemptId, questions, before, after);
    var b, a := SumAwarded(GradedAnswers(fold, attemptId, questions, before)),
      SumAwarded(GradedAnswers(fold, attemptId, questions, after));
    var max := SumPoints(questions);
    if max > 0 {
      PassIsRational(b, max, Percent(b, max));
      PassIsRational(a, max, Percent(b, max));
    }
  }

  lemma {:induction false} ScoreGrows(fold: char -> char, attemptId: nat, questions: seq<Question>,
                                      before: seq<Answer>, after: seq<Answer>)
    requires forall q :: q in questions ==> q.points >= 0
    requires var b, a := GradedAnswers(fold, attemptId, questions, before),
      GradedAnswers(fold, attemptId, questions, after);
      forall i :: 0 <= i < |questions| && b[i].isCorrect == Some(true) ==> a[i].isCorrect == Some(true)
    ensures SumAwarded(GradedAnswers(fold, attemptId, questions, before)) <=
      SumAwarded(GradedAnswers(fold, attemptId, questions, after))
  {
    if questions != [] {
      var n := |questions| - 1;
      var b, a := GradedAnswers(fold, attemptId, questions, before), GradedAnswers(fold, attemptId, questions, after);
      GradedPrefix(fold, attemptId, questions, before);
      GradedPrefix(fold, attemptId, questions, after);
      assert forall i :: 0 <= i < n ==> b[i] == b[..n][i] && a[i] == a[..n][i];
      ScoreGrows(fold, attemptId, questions[..n], before, after);
      assert questions[n] in questions;
    }
  }

  // --- grading again -------------------------------------------------------------------

  lemma {:induction false} LastAnswerIs(answers: seq<Answer>, i: nat)
    requires i < |answers|
    requires forall j :: i < j < |answers| ==> answers[j].questionId != answers[i].questionId
    ensures LastAnswer(answers, answers[i].questionId) == Some(answers[i])
  {
    if i < |answers| - 1 {
      LastAnswerIs(answers[..|answers| - 1], i);
    }
  }

  lemma {:induction false} LastAnswerId(answers: seq<Answer>, questionId: nat)
    ensures LastAnswer(answers, questionId).Some? ==> LastAnswer(answers, questionId).value.questionId == questionId
  {
    if answers != [] { LastAnswerId(answers[..|answers| - 1], questionId); }
  }

  lemma GradedIds(fold: char -> char, attemptId: nat, questions: seq<Question>, answers: seq<Answer>, i: nat)
    requires i < |questions|
    ensures GradedAnswers(fold, attemptId, questions, answers)[i].questionId == questions[i].id
  {
    LastAnswerId(answers, questions[i].id);
  }

  /** Grading the graded answers again changes nothing, so neither does the score. */
  lemma GradingIdempotent(fold: char -> char, attemptId: nat, questions: seq<Question>, answers: seq<Answer>)
    requires DistinctQuestions(questions)
    ensures var graded := GradedAnswers(fold, attemptId, questions, answers);
      GradedAnswers(fold, attemptId, questions, graded) == graded
  {
    var graded := GradedAnswers(fold, attemptId, questions, answers);
    forall i | 0 <= i < |questions|
      ensures GradedAnswer(fold, attemptId, questions[i], graded) == graded[i]
    {
      forall j | i <= j < |questions| ensures graded[j].questionId == questions[j].id {
        GradedIds(fold, attemptId, questions, answers, j);
      }
      LastAnswerIs(graded, i);
    }
  }

  /** An attempt submitted without any answer scores nothing. */
  lemma {:induction false} BlankAttemptScoresZero(fold: char -> char, attemptId: nat, questions: seq<Question>)
    requires forall q :: q in questions ==> HasKey(q.questionType, q.options, q.correctAnswer)
    ensures SumAwarded(GradedAnswers(fold, attemptId, questions, [])) == 0
  {
    if questions != [] {
      var n := |questions| - 1;
      GradedPrefix(fold, attemptId, questions, []);
      BlankAttemptScoresZero(fold, attemptId, questions[..n]);
      assert questions[n] in questions;
      BlankIsWrong(fold, questions[n], attemptId, questions[n].id);
    }
  }
}
